/** The quoting rules that every scanner of the dump reader follows.

    A byte of the dump is a character here; the scanners only ever compare with
    ASCII characters. */
module SqlText {

  /** Where a scanner stands: outside quotes, inside quotes opened by `q`, or
      inside them right after a backslash. */
  datatype Mode = Free | Inside(q: char) | Escaped(q: char)

  predicate IsQuote(c: char) {
    c == '\'' || c == '"' || c == '`'
  }

  /** Backslash escapes exist in strings, not in quoted identifiers. */
  predicate Backslashed(c: char, q: char) {
    c == '\\' && (q == '\'' || q == '"')
  }

  /** One step of the look-ahead scanner inside quotes: a doubled quote is
      skipped as a pair, a single one closes. */
  function SkipQuoted(s: string, i: nat, m: Mode): (r: (nat, Mode))
    requires i < |s| && !m.Free?
    ensures i < r.0 <= |s|
  {
    if m.Escaped? then (i + 1, Inside(m.q))
    else if Backslashed(s[i], m.q) then (i + 1, Escaped(m.q))
    else if s[i] == m.q then
      if i + 1 < |s| && s[i + 1] == m.q then (i + 2, m) else (i + 1, Free)
    else (i + 1, m)
  }
}
