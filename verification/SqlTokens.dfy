/** The scanner for one quoted token, which the reading of index options uses. */
module SqlTokens {
  import opened Options
  import opened SqlText

  /** Where the look-ahead scanner, inside quotes at i, leaves them. */
  function CloseFrom(s: string, i: nat, m: Mode): (r: Option<nat>)
    requires i <= |s|
    ensures r.Some? ==> i <= r.value <= |s|
    decreases |s| - i
  {
    if m.Free? then Some(i)
    else if i == |s| then None
    else
      var (j, m') := SkipQuoted(s, i, m);
      CloseFrom(s, j, m')
  }

  /** The third scanner skips an escape as a pair; it ends a token where the others
      leave the quotes. */
  method QuotedSqlTokenEnd(value: string, opening: nat) returns (r: Option<nat>)
    ensures r == if opening < |value| && (value[opening] == '\'' || value[opening] == '"')
                 then CloseFrom(value, opening + 1, Inside(value[opening])) else None
  {
    if opening >= |value| || (value[opening] != '\'' && value[opening] != '"') {
      return None;
    }
    var quote := value[opening];
    var index := opening + 1;
    while index < |value|
      invariant opening < index <= |value| + 1
      invariant CloseFrom(value, opening + 1, Inside(quote)) ==
                if index <= |value| then CloseFrom(value, index, Inside(quote)) else None
      decreases |value| + 1 - index
    {
      if value[index] == '\\' {
        index := index + 2;
        continue;
      }
      if value[index] == quote {
        if index + 1 < |value| && value[index + 1] == quote {
          index := index + 2;
          continue;
        }
        return Some(index + 1);
      }
      index := index + 1;
    }
    r := None;
  }
}
