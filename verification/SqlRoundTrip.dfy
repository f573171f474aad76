/** Writing rows as a VALUES clause and reading them back. */
module SqlRoundTrip {
  import opened Options
  import opened Values
  import opened SqlText
  import opened SqlValues
  import Decimal

  // ---------------------------------------------------------------- how values are written

  /** One character of a quoted text: as it is, behind a backslash, or the quote itself
      written twice. */
  datatype Unit = Plain(c: char) | Escape(c: char) | Twice

  /** A value as a dump writes it.  A call stands for any expression with parentheses. */
  datatype Literal =
    | NullWord(text: string)
    | Numeral(n: int)
    | Quoted(q: char, units: seq<Unit>)
    | Real(sign: string, whole: string, fraction: Option<string>, exponent: Option<Exponent>)
    | Call(name: string, inner: string)

  datatype Exponent = Exponent(letter: char, sign: string, digits: string)

  function SpellUnit(q: char, u: Unit): string {
    match u
    case Plain(c) => [c]
    case Escape(c) => ['\\', c]
    case Twice => [q, q]
  }

  function Spell(q: char, units: seq<Unit>): string {
    if units == [] then [] else SpellUnit(q, units[0]) + Spell(q, units[1..])
  }

  /** The other of the two quotes of texts. */
  function OtherQuote(q: char): char {
    if q == '"' then '\'' else '"'
  }

  predicate ProperUnit(q: char, u: Unit) {
    u.Plain? ==> u.c != q && u.c != '\\'
  }

  /** The other quote twice in a row, as it is. */
  predicate Pair(q: char, units: seq<Unit>, i: nat)
    requires i + 1 < |units|
  {
    units[i] == Plain(OtherQuote(q)) && units[i + 1] == Plain(OtherQuote(q))
  }

  predicate NoPair(q: char, units: seq<Unit>) {
    forall i :: 0 <= i < |units| - 1 ==> !Pair(q, units, i)
  }

  predicate ProperUnits(q: char, units: seq<Unit>) {
    (q == '\'' || q == '"') && forall i :: 0 <= i < |units| ==> ProperUnit(q, units[i])
  }

  /** The character that a unit stands for. */
  function Meant(q: char, u: Unit): char {
    match u
    case Plain(c) => c
    case Escape(c) => Unescaped(c)
    case Twice => q
  }

  function Written(q: char, units: seq<Unit>): string {
    if units == [] then [] else [Meant(q, units[0])] + Written(q, units[1..])
  }

  /** What is read of the units: a pair of the other quote counts once. */
  function Reading(q: char, units: seq<Unit>): string {
    if units == [] then []
    else if |units| > 1 && Pair(q, units, 0) then [OtherQuote(q)] + Reading(q, units[2..])
    else [Meant(q, units[0])] + Reading(q, units[1..])
  }

  predicate Digits(s: string) {
    forall i :: 0 <= i < |s| ==> Decimal.IsDigit(s[i])
  }

  predicate Sign(s: string) {
    s == "" || s == "+" || s == "-"
  }

  predicate ProperExponent(e: Exponent) {
    (e.letter == 'e' || e.letter == 'E') && Sign(e.sign) && e.digits != "" && Digits(e.digits)
  }

  predicate Letter(c: char) {
    'a' <= c <= 'z' || 'A' <= c <= 'Z' || c == '_'
  }

  /** The text in small letters. */
  function Lowered(s: string): string {
    seq(|s|, i requires 0 <= i < |s| => if 'A' <= s[i] <= 'Z' then (s[i] as int + 32) as char else s[i])
  }

  /** From i in mode m, d parentheses open, the text ends outside quotes with all of them
      closed, and has no semicolon outside quotes. */
  ghost predicate Enclosed(t: string, i: nat, d: nat, m: Mode)
    decreases |t| - i
  {
    if i >= |t| then i == |t| && m.Free? && d == 0
    else if !m.Free? then
      var (j, m') := SkipQuoted(t, i, m);
      Enclosed(t, j, d, m')
    else if IsQuote(t[i]) then Enclosed(t, i + 1, d, Inside(t[i]))
    else if t[i] == '(' then Enclosed(t, i + 1, d + 1, Free)
    else if t[i] == ')' then d > 0 && Enclosed(t, i + 1, d - 1, Free)
    else t[i] != ';' && Enclosed(t, i + 1, d, Free)
  }

  ghost predicate Printable(l: Literal) {
    match l
    case NullWord(text) => Lowered(text) == "null"
    case Numeral(_) => true
    case Quoted(q, units) => ProperUnits(q, units)
    case Real(sign, whole, fraction, exponent) =>
      && Sign(sign) && Digits(whole)
      && (fraction.Some? ==> Digits(fraction.value)) && (exponent.Some? ==> ProperExponent(exponent.value))
      && (fraction.Some? || exponent.Some?)
      && (whole != "" || (fraction.Some? && fraction.value != ""))
    case Call(name, inner) =>
      name != "" && (forall i :: 0 <= i < |name| ==> Letter(name[i])) && Enclosed(inner, 0, 0, Free)
  }

  function PrintExponent(e: Option<Exponent>): string {
    match e
    case None => ""
    case Some(Exponent(letter, sign, digits)) => [letter] + (sign + digits)
  }

  function PrintFraction(f: Option<string>): string {
    match f
    case None => ""
    case Some(digits) => "." + digits
  }

  function PrintValue(l: Literal): string {
    match l
    case NullWord(text) => text
    case Numeral(n) => Decimal.PrintInt(n)
    case Quoted(q, units) => [q] + (Spell(q, units) + [q])
    case Real(sign, whole, fraction, exponent) => sign + (whole + (PrintFraction(fraction) + PrintExponent(exponent)))
    case Call(name, inner) => name + ("(" + (inner + ")"))
  }

  ghost predicate PrintableRow(row: seq<Literal>) {
    row != [] && forall i :: 0 <= i < |row| ==> Printable(row[i])
  }

  function Tokens(row: seq<Literal>): (t: seq<string>)
    ensures |t| == |row| && forall i :: 0 <= i < |row| ==> t[i] == PrintValue(row[i])
  {
    if row == [] then [] else [PrintValue(row[0])] + Tokens(row[1..])
  }

  function Padded(l: Literal, gap: string): string {
    gap + (PrintValue(l) + gap)
  }

  /** The values of a row separated by commas, with white space `gap` around each. */
  function Body(row: seq<Literal>, gap: string): string
    requires PrintableRow(row)
  {
    if |row| == 1 then Padded(row[0], gap) else Padded(row[0], gap) + ("," + Body(row[1..], gap))
  }

  function PrintTuple(row: seq<Literal>, gap: string): string
    requires PrintableRow(row)
  {
    "(" + (Body(row, gap) + ")")
  }

  ghost predicate PrintableRows(rows: seq<seq<Literal>>) {
    rows != [] && forall i :: 0 <= i < |rows| ==> PrintableRow(rows[i])
  }

  /** The tuples, with white space `gap` before every tuple and comma. */
  function PrintTuples(rows: seq<seq<Literal>>, gap: string): string
    requires PrintableRows(rows)
  {
    if |rows| == 1 then gap + PrintTuple(rows[0], gap)
    else gap + (PrintTuple(rows[0], gap) + (gap + ("," + PrintTuples(rows[1..], gap))))
  }

  /** The text behind VALUES, with white space `tail` after its end. */
  function PrintClause(rows: seq<seq<Literal>>, gap: string, semicolon: bool, tail: string): string
    requires PrintableRows(rows)
  {
    PrintTuples(rows, gap) + gap + (if semicolon then ";" else "") + tail
  }

  // ---------------------------------------------------------------- one string

  /** t stands in s at i. */
  predicate At(s: string, i: nat, t: string) {
    i + |t| <= |s| && s[i..i + |t|] == t
  }

  lemma AtParts(s: string, i: nat, a: string, b: string)
    requires At(s, i, a + b)
    ensures At(s, i, a) && At(s, i + |a|, b)
    ensures i + |a| + |b| <= |s|
  {
    var ab := a + b;
    assert s[i..i + |ab|] == ab;
    assert s[i..i + |a|] == ab[..|a|];
    assert s[i + |a|..i + |ab|] == ab[|a|..];
  }

  lemma AtChar(s: string, i: nat, t: string, k: nat)
    requires At(s, i, t) && k < |t|
    ensures i + |t| <= |s| && s[i + k] == t[k]
  {
    assert s[i..i + |t|][k] == t[k];
  }

  /** What the letters behind a backslash stand for. */
  lemma EscapesAre()
    ensures Unescaped('0') == 0 as char && Unescaped('b') == 8 as char && Unescaped('n') == 10 as char
    ensures Unescaped('r') == 13 as char && Unescaped('t') == 9 as char && Unescaped('Z') == 26 as char
    ensures forall c :: c !in "0bnrtZ" ==> Unescaped(c) == c
  {
    assert "0bnrtZ" == ['0', 'b', 'n', 'r', 't', 'Z'];
  }

  lemma UnitsBehind(q: char, units: seq<Unit>)
    requires ProperUnits(q, units) && units != []
    ensures ProperUnits(q, units[1..])
  {
  }

  lemma PairsBehind(q: char, units: seq<Unit>)
    requires units != []
    ensures NoPair(q, units) ==> NoPair(q, units[1..])
  {
    if NoPair(q, units) {
      forall i | 0 <= i < |units[1..]| - 1
        ensures !Pair(q, units[1..], i)
      {
        assert !Pair(q, units, i + 1);
      }
    }
  }

  lemma FirstUnit(s: string, i: nat, q: char, units: seq<Unit>)
    requires At(s, i, Spell(q, units)) && units != []
    ensures var size := |SpellUnit(q, units[0])|;
      && 1 <= size <= 2 && i + size <= |s| && At(s, i + size, Spell(q, units[1..]))
      && |Spell(q, units)| == size + |Spell(q, units[1..])|
      && s[i] == SpellUnit(q, units[0])[0] && (size == 2 ==> s[i + 1] == SpellUnit(q, units[0])[1])
  {
    hide At;
    var e := SpellUnit(q, units[0]);
    AtParts(s, i, e, Spell(q, units[1..]));
    AtChar(s, i, e, 0);
    if |e| == 2 {
      AtChar(s, i, e, 1);
    }
  }

  /** Unescaping a spelled text gives its reading. */
  lemma {:induction false} UnescapeSpelled(s: string, i: nat, q: char, units: seq<Unit>)
    requires ProperUnits(q, units)
    requires At(s, i, Spell(q, units)) && i + |Spell(q, units)| == |s|
    ensures UnescapeFrom(s, i) == Reading(q, units)
    decreases |units|
  {
    hide Unescaped, At, Pair;
    if units != [] {
      UnitsBehind(q, units);
      if |units| > 1 && Pair(q, units, 0) {
        PairCollapses(s, i, q, units);
        UnescapeSpelled(s, i + 2, q, units[2..]);
      } else {
        FirstUnit(s, i, q, units);
        FirstAlone(s, i, q, units);
        UnescapeSpelled(s, i + |SpellUnit(q, units[0])|, q, units[1..]);
      }
    }
  }

  lemma PairCollapses(s: string, i: nat, q: char, units: seq<Unit>)
    requires ProperUnits(q, units) && |units| > 1 && Pair(q, units, 0)
    requires At(s, i, Spell(q, units)) && i + |Spell(q, units)| == |s|
    ensures i + 2 <= |s| && At(s, i + 2, Spell(q, units[2..])) && i + 2 + |Spell(q, units[2..])| == |s|
    ensures UnescapeFrom(s, i) == [OtherQuote(q)] + UnescapeFrom(s, i + 2)
  {
    hide At;
    assert units[1..][1..] == units[2..];
    FirstUnit(s, i, q, units);
    FirstUnit(s, i + 1, q, units[1..]);
  }

  lemma FirstAlone(s: string, i: nat, q: char, units: seq<Unit>)
    requires ProperUnits(q, units) && units != [] && !(|units| > 1 && Pair(q, units, 0))
    requires At(s, i, Spell(q, units)) && i + |Spell(q, units)| == |s|
    ensures var size := |SpellUnit(q, units[0])|;
      i + size <= |s| && UnescapeFrom(s, i) == [Meant(q, units[0])] + UnescapeFrom(s, i + size)
  {
    hide At, Unescaped;
    FirstUnit(s, i, q, units);
    if |units| > 1 {
      FirstUnit(s, i + |SpellUnit(q, units[0])|, q, units[1..]);
    }
  }

  lemma FirstPairLater(q: char, units: seq<Unit>)
    requires units != [] && !(|units| > 1 && Pair(q, units, 0))
    ensures NoPair(q, units[1..]) ==> NoPair(q, units)
  {
    if NoPair(q, units[1..]) {
      forall i | 0 <= i < |units| - 1
        ensures !Pair(q, units, i)
      {
        if i > 0 {
          assert !Pair(q, units[1..], i - 1);
        }
      }
    }
  }

  /** The reading is the text itself, or shorter if a pair collapses. */
  lemma {:induction false} ReadingIs(q: char, units: seq<Unit>)
    ensures |Written(q, units)| == |units|
    ensures if NoPair(q, units) then Reading(q, units) == Written(q, units) else |Reading(q, units)| < |units|
    decreases |units|
  {
    hide Pair;
    if units != [] {
      ReadingIs(q, units[1..]);
      if |units| > 1 && Pair(q, units, 0) {
        ReadingIs(q, units[2..]);
      } else {
        FirstPairLater(q, units);
        PairsBehind(q, units);
      }
    }
  }

  /** Unescaping gives the reading, which is the text exactly when it has no pair of the other quote. */
  lemma UnescapeIff(q: char, units: seq<Unit>)
    requires ProperUnits(q, units)
    ensures Unescape(Spell(q, units)) == Reading(q, units)
    ensures Unescape(Spell(q, units)) == Written(q, units) <==> NoPair(q, units)
  {
    WholeAt(Spell(q, units));
    UnescapeSpelled(Spell(q, units), 0, q, units);
    ReadingIs(q, units);
  }

  // ---------------------------------------------------------------- two ways to write any text

  /** Quotes written twice and backslashes escaped. */
  function Doubled(t: string): seq<Unit> {
    if t == [] then []
    else [if t[0] == '\'' then Twice else if t[0] == '\\' then Escape('\\') else Plain(t[0])] + Doubled(t[1..])
  }

  lemma {:induction false} DoubledIs(t: string)
    ensures ProperUnits('\'', Doubled(t)) && Written('\'', Doubled(t)) == t && |Doubled(t)| == |t|
    ensures forall i :: 0 <= i < |t| ==> (Doubled(t)[i] == Plain('"') <==> t[i] == '"')
  {
    if t != [] {
      DoubledIs(t[1..]);
    }
  }

  predicate NoDoubleQuotes(t: string) {
    forall i :: 0 <= i < |t| - 1 ==> !(t[i] == '"' && t[i + 1] == '"')
  }

  /** A text written with doubled quotes comes back exactly when it has no two double
      quotes in a row. */
  lemma DoubledIff(t: string)
    ensures Unescape(Spell('\'', Doubled(t))) == t <==> NoDoubleQuotes(t)
    ensures NoPair('\'', Doubled(t)) <==> NoDoubleQuotes(t)
  {
    hide Spell, Written, Doubled;
    DoubledIs(t);
    UnescapeIff('\'', Doubled(t));
    if NoPair('\'', Doubled(t)) {
      forall i | 0 <= i < |t| - 1
        ensures !(t[i] == '"' && t[i + 1] == '"')
      {
        assert !Pair('\'', Doubled(t), i);
      }
    }
  }

  /** Two double quotes in a row become one. */
  lemma CollapseExample()
    ensures Unescape("a\"\"b") == "a\"b"
  {
    var t := "a\"\"b";
    assert UnescapeFrom(t, 4) == [];
    assert UnescapeFrom(t, 3) == "b";
    assert UnescapeFrom(t, 1) == "\"b";
  }

  /** Everything special behind a backslash. */
  function Backslashes(t: string): seq<Unit> {
    if t == [] then [] else [BackslashUnit(t[0])] + Backslashes(t[1..])
  }

  function BackslashUnit(c: char): Unit {
    if c == '\\' || c == '\'' || c == '"' then Escape(c)
    else if c == '\0' then Escape('0')
    else if c == BACKSPACE then Escape('b')
    else if c == '\n' then Escape('n')
    else if c == '\r' then Escape('r')
    else if c == '\t' then Escape('t')
    else if c == SUBSTITUTE then Escape('Z')
    else Plain(c)
  }

  /** So every text can be written, in either kind of quotes. */
  lemma {:induction false} BackslashesAre(q: char, t: string)
    requires q == '\'' || q == '"'
    ensures Printable(Quoted(q, Backslashes(t))) && Reading(q, Backslashes(t)) == t
    ensures forall i :: 0 <= i < |Backslashes(t)| ==> Backslashes(t)[i] != Plain('"') && Backslashes(t)[i] != Plain('\'')
  {
    if t != [] {
      BackslashesAre(q, t[1..]);
    }
  }

  // ---------------------------------------------------------------- tokens pass through the scanners unnoticed

  /** From i in mode m, d parentheses open, the scanner reaches j outside quotes with all
      of them closed; on the way it meets no semicolon outside quotes, and no comma
      outside quotes and parentheses. */
  ghost predicate Quiet(s: string, i: nat, j: nat, d: nat, m: Mode)
    decreases |s| - i
  {
    if i == j then m.Free? && d == 0
    else
      && i < j <= |s|
      && (if !m.Free? then
            var (i', m') := SkipQuoted(s, i, m);
            Quiet(s, i', j, d, m')
          else if IsQuote(s[i]) then Quiet(s, i + 1, j, d, Inside(s[i]))
          else if s[i] == '(' then Quiet(s, i + 1, j, d + 1, Free)
          else if s[i] == ')' then d > 0 && Quiet(s, i + 1, j, d - 1, Free)
          else s[i] != ';' && (s[i] == ',' ==> d > 0) && Quiet(s, i + 1, j, d, Free))
  }

  lemma {:induction false} SplitQuiet(s: string, start: nat, i: nat, j: nat, depth: nat, d: nat, m: Mode)
    requires start <= i <= j <= |s| && Quiet(s, i, j, d, m)
    ensures SplitFrom(s, start, i, depth + d, m) == SplitFrom(s, start, j, depth, Free)
    decreases |s| - i
  {
    if i != j {
      if !m.Free? {
        var (i', m') := SkipQuoted(s, i, m);
        SplitQuiet(s, start, i', j, depth, d, m');
      } else if IsQuote(s[i]) {
        SplitQuiet(s, start, i + 1, j, depth, d, Inside(s[i]));
      } else if s[i] == '(' {
        SplitQuiet(s, start, i + 1, j, depth, d + 1, Free);
      } else if s[i] == ')' {
        SplitQuiet(s, start, i + 1, j, depth, d - 1, Free);
      } else {
        SplitQuiet(s, start, i + 1, j, depth, d, Free);
      }
    }
  }

  lemma {:induction false} ExtractQuiet(s: string, opening: nat, i: nat, j: nat, depth: nat, d: nat, m: Mode)
    requires opening < i <= j <= |s| && depth > 0 && Quiet(s, i, j, d, m)
    ensures ExtractFrom(s, opening, i, depth + d, m) == ExtractFrom(s, opening, j, depth, Free)
    decreases |s| - i
  {
    if i != j {
      if !m.Free? {
        var (i', m') := SkipQuoted(s, i, m);
        ExtractQuiet(s, opening, i', j, depth, d, m');
      } else if IsQuote(s[i]) {
        ExtractQuiet(s, opening, i + 1, j, depth, d, Inside(s[i]));
      } else if s[i] == '(' {
        ExtractQuiet(s, opening, i + 1, j, depth, d + 1, Free);
      } else if s[i] == ')' {
        ExtractQuiet(s, opening, i + 1, j, depth, d - 1, Free);
      } else {
        ExtractQuiet(s, opening, i + 1, j, depth, d, Free);
      }
    }
  }

  predicate Dull(c: char) {
    !IsQuote(c) && c != '(' && c != ')' && c != ',' && c != ';'
  }

  /** A run of characters without quotes and structure, before something quiet. */
  lemma {:induction false} DullQuiet(s: string, i: nat, k: nat, j: nat, d: nat)
    requires i <= k <= j <= |s| && Quiet(s, k, j, d, Free)
    requires forall x :: i <= x < k ==> Dull(s[x])
    ensures Quiet(s, i, j, d, Free)
    decreases k - i
  {
    if i < k {
      DullQuiet(s, i + 1, k, j, d);
    }
  }

  lemma DullText(s: string, i: nat, t: string, j: nat, d: nat)
    requires At(s, i, t) && (forall x :: 0 <= x < |t| ==> Dull(t[x])) && i + |t| <= j <= |s| && Quiet(s, i + |t|, j, d, Free)
    ensures Quiet(s, i, j, d, Free)
  {
    hide Dull, Quiet;
    forall x | i <= x < i + |t|
      ensures Dull(s[x])
    {
      AtChar(s, i, t, x - i);
    }
    DullQuiet(s, i, i + |t|, j, d);
  }

  /** Behind something quiet the scanner can go on. */
  lemma {:induction false} QuietThen(s: string, i: nat, k: nat, j: nat, d: nat, m: Mode)
    requires Quiet(s, i, k, d, m) && k <= j <= |s| && Quiet(s, k, j, 0, Free)
    ensures Quiet(s, i, j, d, m)
    decreases |s| - i
  {
    if i != k {
      if !m.Free? {
        var (i', m') := SkipQuoted(s, i, m);
        AtOrBefore(s, i', k, d, m');
        QuietThen(s, i', k, j, d, m');
      } else if IsQuote(s[i]) {
        QuietThen(s, i + 1, k, j, d, Inside(s[i]));
      } else if s[i] == '(' {
        QuietThen(s, i + 1, k, j, d + 1, Free);
      } else if s[i] == ')' {
        QuietThen(s, i + 1, k, j, d - 1, Free);
      } else {
        QuietThen(s, i + 1, k, j, d, Free);
      }
    }
  }

  lemma AtOrBefore(s: string, i: nat, k: nat, d: nat, m: Mode)
    requires Quiet(s, i, k, d, m)
    ensures i <= k && (i < k ==> k <= |s|)
  {
  }

  /** A unit before the rest of a quoted text. */
  lemma UnitQuiet(s: string, i: nat, q: char, u: Unit, j: nat)
    requires ProperUnits(q, [u]) && At(s, i, SpellUnit(q, u)) && Quiet(s, i + |SpellUnit(q, u)|, j, 0, Inside(q))
    ensures Quiet(s, i, j, 0, Inside(q))
  {
    hide At;
    var e := SpellUnit(q, u);
    assert ProperUnit(q, [u][0]);
    AtOrBefore(s, i + |e|, j, 0, Inside(q));
    AtChar(s, i, e, 0);
    if |e| == 2 {
      AtChar(s, i, e, 1);
    }
  }

  /** A spelled text and its closing quote, when no further such quote follows. */
  lemma {:induction false} SpelledQuiet(s: string, i: nat, q: char, units: seq<Unit>)
    requires ProperUnits(q, units) && At(s, i, Spell(q, units) + [q])
    requires i + |Spell(q, units)| + 1 == |s| || s[i + |Spell(q, units)| + 1] != q
    ensures Quiet(s, i, i + |Spell(q, units)| + 1, 0, Inside(q))
    decreases |units|
  {
    hide At, SpellUnit, ProperUnit;
    if units == [] {
      hide ProperUnits;
      assert [] + [q] == [q];
      AtChar(s, i, [q], 0);
    } else {
      hide Quiet;
      var e, rest := SpellUnit(q, units[0]), Spell(q, units[1..]);
      assert Spell(q, units) + [q] == e + (rest + [q]);
      AtParts(s, i, e, rest + [q]);
      SpelledQuiet(s, i + |e|, q, units[1..]);
      UnitQuiet(s, i, q, units[0], i + |Spell(q, units)| + 1);
    }
  }

  /** What stands in the parentheses of a call, and the closing one. */
  lemma {:induction false} EnclosedQuiet(s: string, i: nat, t: string, k: nat, d: nat, m: Mode)
    requires At(s, i, t) && k <= |t| && Enclosed(t, k, d, m)
    requires i + |t| < |s| && s[i + |t|] == ')' && (m.Inside? || m.Escaped? ==> IsQuote(m.q))
    ensures Quiet(s, i + k, i + |t| + 1, d + 1, m)
    decreases |t| - k
  {
    if k < |t| {
      AtChar(s, i, t, k);
      if !m.Free? {
        if k + 1 < |t| {
          AtChar(s, i, t, k + 1);
        }
        var (j, m') := SkipQuoted(t, k, m);
        EnclosedQuiet(s, i, t, j, d, m');
      } else if IsQuote(t[k]) {
        EnclosedQuiet(s, i, t, k + 1, d, Inside(t[k]));
      } else if t[k] == '(' {
        EnclosedQuiet(s, i, t, k + 1, d + 1, Free);
      } else if t[k] == ')' {
        EnclosedQuiet(s, i, t, k + 1, d - 1, Free);
      } else {
        EnclosedQuiet(s, i, t, k + 1, d, Free);
      }
    }
  }

  lemma QuotedQuiet(s: string, i: nat, q: char, units: seq<Unit>)
    requires ProperUnits(q, units) && At(s, i, [q] + (Spell(q, units) + [q]))
    requires i + |Spell(q, units)| + 2 == |s| || !IsQuote(s[i + |Spell(q, units)| + 2])
    ensures Quiet(s, i, i + |Spell(q, units)| + 2, 0, Free)
  {
    hide At;
    AtParts(s, i, [q], Spell(q, units) + [q]);
    AtChar(s, i, [q], 0);
    SpelledQuiet(s, i + 1, q, units);
  }

  lemma OpenQuiet(s: string, i: nat, j: nat)
    requires i < |s| && s[i] == '(' && Quiet(s, i + 1, j, 1, Free)
    ensures Quiet(s, i, j, 0, Free)
  {
    AtOrBefore(s, i + 1, j, 1, Free);
  }

  lemma LettersDull(name: string)
    requires forall i :: 0 <= i < |name| ==> Letter(name[i])
    ensures forall x :: 0 <= x < |name| ==> Dull(name[x])
  {
  }

  lemma CallQuiet(s: string, i: nat, name: string, inner: string)
    requires (forall k :: 0 <= k < |name| ==> Letter(name[k])) && Enclosed(inner, 0, 0, Free)
    requires At(s, i, name + ("(" + (inner + ")")))
    ensures Quiet(s, i, i + |name| + |inner| + 2, 0, Free)
  {
    hide At, Enclosed, Quiet, Letter;
    LettersDull(name);
    AtParts(s, i, name, "(" + (inner + ")"));
    AtParts(s, i + |name|, "(", inner + ")");
    AtParts(s, i + |name| + 1, inner, ")");
    AtChar(s, i + |name|, "(", 0);
    AtChar(s, i + |name| + 1 + |inner|, ")", 0);
    EnclosedQuiet(s, i + |name| + 1, inner, 0, 0, Free);
    OpenQuiet(s, i + |name|, i + |name| + |inner| + 2);
    DullText(s, i, name, i + |name| + |inner| + 2, 0);
  }

  /** The texts of words and numbers. */
  lemma NumbersDull(l: Literal)
    requires Printable(l) && !l.Quoted? && !l.Call?
    ensures forall x :: 0 <= x < |PrintValue(l)| ==> Dull(PrintValue(l)[x])
  {
    if l.NullWord? {
      NullLetters(l.text);
    } else if l.Real? {
      RealDull(l.sign, l.whole, PrintFraction(l.fraction), PrintExponent(l.exponent));
    }
  }

  lemma RealDull(sign: string, whole: string, fraction: string, exponent: string)
    requires forall x :: 0 <= x < |sign| ==> Dull(sign[x])
    requires forall x :: 0 <= x < |whole| ==> Dull(whole[x])
    requires forall x :: 0 <= x < |fraction| ==> Dull(fraction[x])
    requires forall x :: 0 <= x < |exponent| ==> Dull(exponent[x])
    ensures forall x :: 0 <= x < |sign + (whole + (fraction + exponent))| ==> Dull((sign + (whole + (fraction + exponent)))[x])
  {
  }

  /** A written value, when no quote follows it. */
  lemma ValueQuiet(s: string, i: nat, l: Literal)
    requires Printable(l) && At(s, i, PrintValue(l))
    requires i + |PrintValue(l)| == |s| || !IsQuote(s[i + |PrintValue(l)|])
    ensures Quiet(s, i, i + |PrintValue(l)|, 0, Free)
  {
    hide At;
    if l.Quoted? {
      QuotedQuiet(s, i, l.q, l.units);
    } else if l.Call? {
      CallQuiet(s, i, l.name, l.inner);
    } else {
      NumbersDull(l);
      TextAt(s, i, PrintValue(l));
      DullText(s, i, PrintValue(l), i + |PrintValue(l)|, 0);
    }
  }

  lemma SpaceDull(gap: string)
    requires AllSpace(gap)
    ensures forall x :: 0 <= x < |gap| ==> Dull(gap[x])
  {
  }

  /** The same with white space around it. */
  lemma PaddedQuiet(s: string, i: nat, l: Literal, gap: string)
    requires Printable(l) && AllSpace(gap) && At(s, i, Padded(l, gap))
    requires i + |Padded(l, gap)| == |s| || !IsQuote(s[i + |Padded(l, gap)|])
    ensures Quiet(s, i, i + |Padded(l, gap)|, 0, Free)
  {
    hide At, PrintValue, Printable, AllSpace;
    var t, j := PrintValue(l), i + |Padded(l, gap)|;
    AtParts(s, i, gap, t + gap);
    AtParts(s, i + |gap|, t, gap);
    SpaceDull(gap);
    if gap != [] {
      AtChar(s, i + |gap| + |t|, gap, 0);
    }
    ValueQuiet(s, i + |gap|, l);
    DullText(s, i + |gap| + |t|, gap, j, 0);
    QuietThen(s, i + |gap|, i + |gap| + |t|, j, 0, Free);
    DullText(s, i, gap, j, 0);
  }

  // ---------------------------------------------------------------- one value

  /** The bytes of a character in UTF-8, section 3 of RFC 3629. */
  function Utf8(c: char): seq<int> {
    var n := c as int;
    if n < 0x80 then [n]
    else if n < 0x800 then [0xC0 + n / 64, 0x80 + n % 64]
    else if n < 0x10000 then [0xE0 + n / 4096, 0x80 + n / 64 % 64, 0x80 + n % 64]
    else [0xF0 + n / 262144, 0x80 + n / 4096 % 64, 0x80 + n / 64 % 64, 0x80 + n % 64]
  }

  function Utf8Bytes(s: string): seq<int> {
    if s == [] then [] else Utf8(s[0]) + Utf8Bytes(s[1..])
  }

  lemma {:induction false} Utf8LengthIs(s: string)
    ensures Utf8Length(s) == |Utf8Bytes(s)|
  {
    if s != [] {
      Utf8LengthIs(s[1..]);
    }
  }

  /** What reading a written value gives: an error if it has more than a megabyte or is a
      number of more than 4300 digits or a call; else the value, or infinity. */
  function ReadBack(l: Literal, floats: Floats): Parsed {
    if |Utf8Bytes(PrintValue(l))| > 1_048_576 then TooLong
    else
      match l
      case NullWord(_) => Ok(Null)
      case Numeral(n) => if |Decimal.PrintNat(if n < 0 then -n else n)| > 4300 then Unsupported else Ok(Int(n))
      case Quoted(q, units) => Ok(Text(Reading(q, units)))
      case Real(_, _, _, _) =>
        if floats(PrintValue(l)).Some? then Ok(Float(floats(PrintValue(l)).value)) else Infinite
      case Call(_, _) => Unsupported
  }

  lemma PrintedEnds(l: Literal)
    requires Printable(l)
    ensures var t := PrintValue(l); t != [] && !IsSpace(t[0]) && !IsSpace(t[|t| - 1])
  {
    if l.NullWord? {
      NullLetters(l.text);
    } else if l.Real? {
      RealEnds(l);
    }
  }

  lemma RealEnds(l: Literal)
    requires l.Real? && Printable(l)
    ensures var t := PrintValue(l); t != [] && !IsSpace(t[0]) && !IsSpace(t[|t| - 1])
  {
    var f, e := PrintFraction(l.fraction), PrintExponent(l.exponent);
    var rest := l.whole + (f + e);
    assert rest != [] && !IsSpace(rest[0]);
    assert !IsSpace(rest[|rest| - 1]) by {
      if e != [] {
        assert rest[|rest| - 1] == e[|e| - 1];
        assert Decimal.IsDigit(e[|e| - 1]);
      } else {
        assert rest[|rest| - 1] == f[|f| - 1];
      }
    }
    assert PrintValue(l)[|PrintValue(l)| - 1] == rest[|rest| - 1];
  }

  lemma StripKeeps(t: string)
    requires t != [] && !IsSpace(t[0]) && !IsSpace(t[|t| - 1])
    ensures Strip(t) == t
  {
  }

  /** Reading a written value gives the value back, or a limit strikes. */
  lemma ValueRoundTrip(l: Literal, floats: Floats)
    requires Printable(l)
    ensures ParseSqlValue(PrintValue(l), floats) == ReadBack(l, floats)
  {
    hide Printable, PrintValue, Utf8Length, Utf8Bytes;
    PrintedEnds(l);
    StripKeeps(PrintValue(l));
    Utf8LengthIs(PrintValue(l));
    Recognised(l, floats);
  }

  /** The tests of the parser on the text of a literal. */
  lemma Recognised(l: Literal, floats: Floats)
    requires Printable(l)
    ensures var t := PrintValue(l);
      var quoted := |t| >= 2 && (t[0] == '\'' || t[0] == '"') && t[|t| - 1] == t[0];
      match l
      case NullWord(_) => IsNull(t)
      case Numeral(n) =>
        && !IsNull(t) && !quoted && Decimal.IsInteger(t) && Decimal.ReadInt(t) == n
        && Decimal.Unsigned(t) == Decimal.PrintNat(if n < 0 then -n else n)
      case Quoted(q, units) => !IsNull(t) && quoted && Unescape(t[1..|t| - 1]) == Reading(q, units)
      case Real(_, _, _, _) => !IsNull(t) && !quoted && !Decimal.IsInteger(t) && IsReal(t)
      case Call(_, _) => !IsNull(t) && !quoted && !Decimal.IsInteger(t) && !IsReal(t)
  {
    match l
    case NullWord(text) => NullIff(text);
    case Numeral(n) => NumeralRecognised(n);
    case Quoted(q, units) => QuotedRecognised(q, units);
    case Real(_, _, _, _) => RealRecognised(l);
    case Call(_, _) => CallRecognised(l);
  }

  /** NULL is the word in small or capital letters, or both. */
  lemma NullIff(text: string)
    ensures IsNull(text) <==> Lowered(text) == "null"
  {
    var t := Lowered(text);
    if t == "null" {
      assert t[0] == 'n' && t[1] == 'u' && t[2] == 'l' && t[3] == 'l';
    }
    if IsNull(text) {
      assert t == "null";
    }
  }

  lemma NullLetters(text: string)
    requires Lowered(text) == "null"
    ensures |text| == 4 && forall i :: 0 <= i < 4 ==> Letter(text[i])
  {
    var t := Lowered(text);
    assert t[0] == 'n' && t[1] == 'u' && t[2] == 'l' && t[3] == 'l';
  }

  lemma NumeralRecognised(n: int)
    ensures var t := Decimal.PrintInt(n);
      && !IsNull(t) && t != [] && t[0] != '\'' && t[0] != '"'
      && Decimal.IsInteger(t) && Decimal.ReadInt(t) == n
      && Decimal.Unsigned(t) == Decimal.PrintNat(if n < 0 then -n else n)
  {
    hide Decimal.PrintNat, Decimal.ReadInt;
    var t := Decimal.PrintInt(n);
    Decimal.ReadPrintInt(n);
    assert Decimal.IsDigit(t[|t| - 1]);
    assert t[0] == '-' || Decimal.IsDigit(t[0]);
    assert Decimal.Unsigned(t) == Decimal.PrintNat(if n < 0 then -n else n);
  }

  lemma QuotedRecognised(q: char, units: seq<Unit>)
    requires ProperUnits(q, units)
    ensures var t := [q] + (Spell(q, units) + [q]);
      !IsNull(t) && |t| >= 2 && t[0] == q && t[|t| - 1] == q && Unescape(t[1..|t| - 1]) == Reading(q, units)
  {
    hide Spell;
    var t := [q] + (Spell(q, units) + [q]);
    assert t[1..|t| - 1] == Spell(q, units);
    UnescapeIff(q, units);
  }

  lemma {:induction false} DigitRunIs(s: string, i: nat, n: nat)
    requires i <= n <= |s| && (forall k :: i <= k < n ==> Decimal.IsDigit(s[k])) && (n == |s| || !Decimal.IsDigit(s[n]))
    ensures DigitRun(s, i) == n
    decreases n - i
  {
    if i < n {
      DigitRunIs(s, i + 1, n);
    }
  }

  lemma RealRecognised(l: Literal)
    requires l.Real? && Printable(l)
    ensures var t := PrintValue(l);
      && !IsNull(t) && t != [] && t[0] != '\'' && t[0] != '"' && !Decimal.IsInteger(t) && IsReal(t)
  {
    hide DigitRun, Mantissa, Decimal.AllDigits, Decimal.Unsigned, PrintFraction, PrintExponent, IsNull, Digits, Sign, ProperExponent;
    var rest := l.whole + (PrintFraction(l.fraction) + PrintExponent(l.exponent));
    RealTail(l.whole, l.fraction, l.exponent);
    UnsignedIs(l.sign, rest);
    FirstOf(l.sign, rest);
  }

  lemma FirstOf(sign: string, rest: string)
    requires Sign(sign) && rest != [] && (Decimal.IsDigit(rest[0]) || rest[0] == '.')
    ensures sign + rest != [] && (sign + rest)[0] in "+-.0123456789"
    ensures !IsNull(sign + rest)
  {
    var t := sign + rest;
    assert t[0] == if sign == "" then rest[0] else sign[0];
  }

  lemma UnsignedIs(sign: string, rest: string)
    requires Sign(sign) && rest != [] && rest[0] != '+' && rest[0] != '-'
    ensures Decimal.Unsigned(sign + rest) == rest
  {
  }

  lemma RealTail(whole: string, fraction: Option<string>, exponent: Option<Exponent>)
    requires Digits(whole) && (fraction.Some? ==> Digits(fraction.value)) && (exponent.Some? ==> ProperExponent(exponent.value))
    requires fraction.Some? || exponent.Some?
    requires whole != "" || (fraction.Some? && fraction.value != "")
    ensures var s := whole + (PrintFraction(fraction) + PrintExponent(exponent)); var end := Mantissa(s);
      && s != [] && (Decimal.IsDigit(s[0]) || s[0] == '.') && !Decimal.AllDigits(s)
      && (DigitRun(s, 0) > 0 || end > 1)
      && (end == |s| || (s[end] in "eE" && Decimal.IsInteger(s[end + 1..])))
  {
    hide DigitRun, Mantissa, ProperExponent, Decimal.IsInteger;
    var f, e := PrintFraction(fraction), PrintExponent(exponent);
    var s := whole + (f + e);
    ExponentAt(whole + f, exponent);
    assert s == (whole + f) + e;
    MantissaIs(whole, f, e);
    MarkAt(whole, f + e);
  }

  lemma MarkAt(whole: string, rest: string)
    requires Digits(whole) && rest != [] && !Decimal.IsDigit(rest[0])
    ensures var s := whole + rest; !Decimal.AllDigits(s) && (if whole != "" then Decimal.IsDigit(s[0]) else s[0] == rest[0])
  {
    assert (whole + rest)[|whole|] == rest[0];
  }

  lemma MantissaIs(whole: string, f: string, e: string)
    requires Digits(whole) && (e == [] || (!Decimal.IsDigit(e[0]) && e[0] != '.'))
    requires f == [] || (f[0] == '.' && Digits(f[1..]))
    ensures DigitRun(whole + (f + e), 0) == |whole| && Mantissa(whole + (f + e)) == |whole| + |f|
  {
    hide DigitRun, Digits;
    if f + e != [] {
      Joined(whole, f, e);
    }
    FrontRun(whole, f + e);
    if f != [] {
      RunAt(whole + [f[0]], f[1..], e);
    }
  }

  lemma Joined(a: string, f: string, e: string)
    requires f + e != []
    ensures (a + (f + e))[|a|] == (f + e)[0] == if f != [] then f[0] else e[0]
    ensures f != [] ==> a + (f + e) == (a + [f[0]]) + (f[1..] + e)
  {
  }

  lemma FrontRun(whole: string, rest: string)
    requires Digits(whole) && (rest == [] || !Decimal.IsDigit(rest[0]))
    ensures DigitRun(whole + rest, 0) == |whole|
  {
    hide DigitRun, Digits;
    assert [] + (whole + rest) == whole + rest;
    RunAt([], whole, rest);
  }

  lemma ExponentAt(a: string, exponent: Option<Exponent>)
    requires exponent.Some? ==> ProperExponent(exponent.value)
    ensures var s := a + PrintExponent(exponent);
      if exponent.None? then |s| == |a|
      else |a| < |s| && PrintExponent(exponent)[0] == s[|a|] && s[|a|] in "eE" && Decimal.IsInteger(s[|a| + 1..])
  {
    if exponent.Some? {
      hide Sign, Decimal.Unsigned;
      var e := exponent.value;
      UnsignedIs(e.sign, e.digits);
      Behind(a, e.letter, e.sign + e.digits);
    }
  }

  lemma Behind(a: string, c: char, t: string)
    ensures var s := a + ([c] + t); |a| < |s| && s[|a|] == c && s[|a| + 1..] == t
  {
  }

  lemma RunAt(a: string, digits: string, b: string)
    requires Digits(digits) && (b == [] || !Decimal.IsDigit(b[0]))
    ensures DigitRun(a + (digits + b), |a|) == |a| + |digits|
  {
    var s, n := a + (digits + b), |a| + |digits|;
    forall k | |a| <= k < n
      ensures Decimal.IsDigit(s[k])
    {
      assert s[k] == digits[k - |a|];
    }
    assert n < |s| ==> s[n] == b[0];
    DigitRunIs(s, |a|, n);
  }

  lemma CallRecognised(l: Literal)
    requires l.Call? && Printable(l)
    ensures var t := PrintValue(l);
      && !IsNull(t) && t != [] && t[|t| - 1] == ')' && t[0] != ')' && !Decimal.IsInteger(t) && !IsReal(t)
  {
    var t := PrintValue(l);
    assert t[0] == l.name[0] && Letter(t[0]);
    assert t[|t| - 1] == ')';
    assert Decimal.Unsigned(t) == t;
    assert DigitRun(t, 0) == 0;
  }

  lemma WholeAt(s: string)
    ensures At(s, 0, s)
  {
  }

  // ---------------------------------------------------------------- one tuple

  lemma {:induction false} StripLeftGap(gap: string, t: string)
    requires AllSpace(gap) && t != [] && !IsSpace(t[0])
    ensures StripLeft(gap + t) == t
  {
    if gap == [] {
      assert gap + t == t;
    } else {
      assert (gap + t)[1..] == gap[1..] + t;
      StripLeftGap(gap[1..], t);
    }
  }

  lemma StripPadded(gap: string, t: string)
    requires AllSpace(gap) && t != [] && !IsSpace(t[0]) && !IsSpace(t[|t| - 1])
    ensures Strip(gap + (t + gap)) == t
  {
    hide IsSpace, StripLeft, StripRight;
    assert gap + (t + gap) == (gap + t) + gap;
    assert (gap + t)[|gap + t| - 1] == t[|t| - 1];
    StripRightGap(gap + t, gap);
    StripLeftGap(gap, t);
  }

  lemma BodyParts(s: string, i: nat, row: seq<Literal>, gap: string)
    requires PrintableRow(row) && |row| > 1 && At(s, i, Body(row, gap))
    ensures At(s, i, Padded(row[0], gap))
    ensures i + |Padded(row[0], gap)| < |s| && s[i + |Padded(row[0], gap)|] == ','
    ensures At(s, i + |Padded(row[0], gap)| + 1, Body(row[1..], gap))
    ensures |Body(row, gap)| == |Padded(row[0], gap)| + 1 + |Body(row[1..], gap)|
  {
    hide Padded, At, Printable;
    var t, rest := Padded(row[0], gap), Body(row[1..], gap);
    AtParts(s, i, t, "," + rest);
    AtParts(s, i + |t|, ",", rest);
    AtChar(s, i + |t|, ",", 0);
  }

  /** The splitter takes a value up to the comma behind it, or the end. */
  lemma FirstItem(s: string, i: nat, l: Literal, gap: string)
    requires Printable(l) && AllSpace(gap) && At(s, i, Padded(l, gap))
    requires var j := i + |Padded(l, gap)|; j == |s| || (j < |s| && s[j] == ',')
    ensures var j := i + |Padded(l, gap)|;
      SplitFrom(s, i, i, 0, Free) == [PrintValue(l)] + if j == |s| then [] else SplitFrom(s, j + 1, j + 1, 0, Free)
  {
    hide PrintValue, Printable, Quiet, Strip, SkipQuoted, At, AllSpace;
    var t := Padded(l, gap);
    PrintedEnds(l);
    StripPadded(gap, PrintValue(l));
    PaddedQuiet(s, i, l, gap);
    TextAt(s, i, t);
    SplitQuiet(s, i, i, i + |t|, 0, 0, Free);
    assert i + |t| == |s| ==> s[i..] == s[i..i + |t|];
  }

  /** Splitting the written body gives the written values. */
  lemma {:induction false} SplitBody(s: string, i: nat, row: seq<Literal>, gap: string)
    requires PrintableRow(row) && AllSpace(gap)
    requires At(s, i, Body(row, gap)) && i + |Body(row, gap)| == |s|
    ensures SplitFrom(s, i, i, 0, Free) == Tokens(row)
    decreases |row|
  {
    hide PrintValue, Printable, Quiet, Strip, At, SplitFrom, Padded, AllSpace;
    var j := i + |Padded(row[0], gap)|;
    if |row| == 1 {
      FirstItem(s, i, row[0], gap);
    } else {
      BodyParts(s, i, row, gap);
      FirstItem(s, i, row[0], gap);
      SplitBody(s, j + 1, row[1..], gap);
    }
  }

  /** The closing parenthesis of a written tuple is found. */
  lemma {:induction false} ExtractBody(s: string, opening: nat, i: nat, row: seq<Literal>, gap: string)
    requires PrintableRow(row) && AllSpace(gap) && opening < i
    requires At(s, i, Body(row, gap)) && i + |Body(row, gap)| < |s| && s[i + |Body(row, gap)|] == ')'
    ensures ExtractFrom(s, opening, i, 1, Free) == Some((s[opening + 1..i + |Body(row, gap)|], i + |Body(row, gap)|))
    decreases |row|
  {
    hide Padded, Printable, Quiet, At, SkipQuoted, AllSpace;
    var j := i + |Padded(row[0], gap)|;
    if |row| > 1 {
      BodyParts(s, i, row, gap);
    }
    PaddedQuiet(s, i, row[0], gap);
    ExtractQuiet(s, opening, i, j, 1, 0, Free);
    if |row| > 1 {
      ExtractBody(s, opening, j + 1, row[1..], gap);
    }
  }

  lemma TupleRoundTrip(s: string, i: nat, row: seq<Literal>, gap: string)
    requires PrintableRow(row) && AllSpace(gap) && At(s, i, PrintTuple(row, gap))
    ensures Extract(s, i) == Some((Body(row, gap), i + |PrintTuple(row, gap)| - 1))
    ensures Items(Body(row, gap)) == Tokens(row)
    ensures s[i..i + |PrintTuple(row, gap)|] == PrintTuple(row, gap)
  {
    hide Body, Tokens, ExtractFrom, SplitFrom, At, AllSpace, PrintableRow;
    var body := Body(row, gap);
    TupleAt(s, i, row, gap);
    ExtractBody(s, i, i + 1, row, gap);
    WholeAt(body);
    SplitBody(body, 0, row, gap);
    TextAt(s, i, PrintTuple(row, gap));
    TextAt(s, i + 1, body);
  }

  lemma TupleAt(s: string, i: nat, row: seq<Literal>, gap: string)
    requires PrintableRow(row) && At(s, i, PrintTuple(row, gap))
    ensures var body := Body(row, gap);
      && At(s, i + 1, body) && |PrintTuple(row, gap)| == |body| + 2 && i + |body| + 2 <= |s|
      && s[i] == '(' && s[i + 1 + |body|] == ')'
  {
    hide Body, At;
    var body := Body(row, gap);
    AtParts(s, i, "(", body + ")");
    AtParts(s, i + 1, body, ")");
    AtChar(s, i, "(", 0);
    AtChar(s, i + 1 + |body|, ")", 0);
  }

  lemma TextAt(s: string, i: nat, t: string)
    requires At(s, i, t)
    ensures i + |t| <= |s| && s[i..i + |t|] == t
  {
  }

  // ---------------------------------------------------------------- the clause

  lemma {:induction false} SkipsGap(s: string, i: nat, gap: string)
    requires AllSpace(gap) && At(s, i, gap)
    requires i + |gap| == |s| || !IsSpace(s[i + |gap|])
    ensures SkipSpace(s, i) == i + |gap|
    decreases |gap|
  {
    if gap != [] {
      assert gap == [gap[0]] + gap[1..];
      AtParts(s, i, [gap[0]], gap[1..]);
      AtChar(s, i, [gap[0]], 0);
      SkipsGap(s, i + 1, gap[1..]);
    }
  }

  function TupleOf(row: seq<Literal>, gap: string): SqlTuple
    requires PrintableRow(row)
  {
    SqlTuple(PrintTuple(row, gap), Tokens(row))
  }

  function Expected(rows: seq<seq<Literal>>, gap: string): (tuples: seq<SqlTuple>)
    requires forall i :: 0 <= i < |rows| ==> PrintableRow(rows[i])
    ensures |tuples| == |rows| && forall i :: 0 <= i < |rows| ==> tuples[i] == TupleOf(rows[i], gap)
  {
    if rows == [] then [] else [TupleOf(rows[0], gap)] + Expected(rows[1..], gap)
  }

  lemma Opens(row: seq<Literal>, gap: string)
    requires PrintableRow(row)
    ensures |PrintTuple(row, gap)| >= 2 && PrintTuple(row, gap)[0] == '('
  {
  }

  /** A tuple, a comma and more tuples, each after its gap. */
  lemma TupleAndTail(s: string, i: nat, gap: string, tuple: string, tail: string)
    requires At(s, i, gap + (tuple + (gap + ("," + tail))))
    ensures At(s, i, gap) && At(s, i + |gap|, tuple) && At(s, i + |gap| + |tuple|, gap)
    ensures var comma := i + |gap| + |tuple| + |gap|;
      comma < |s| && s[comma] == ',' && At(s, comma + 1, tail)
  {
    hide At;
    AtParts(s, i, gap, tuple + (gap + ("," + tail)));
    AtParts(s, i + |gap|, tuple, gap + ("," + tail));
    AtParts(s, i + |gap| + |tuple|, gap, "," + tail);
    AtParts(s, i + |gap| + |tuple| + |gap|, ",", tail);
    AtChar(s, i + |gap| + |tuple| + |gap|, ",", 0);
  }

  /** The parser takes one written tuple. */
  lemma OneTuple(s: string, i: nat, row: seq<Literal>, gap: string)
    requires PrintableRow(row) && AllSpace(gap)
    requires At(s, i, gap) && At(s, i + |gap|, PrintTuple(row, gap))
    ensures var open := i + |gap|; var close := open + |PrintTuple(row, gap)|;
      && open < close <= |s|
      && SkipSpace(s, i) == open
      && Extract(s, open) == Some((Body(row, gap), close - 1))
      && SqlTuple(s[open..close], Items(Body(row, gap))) == TupleOf(row, gap)
  {
    hide PrintTuple, Extract, Items, SkipSpace, Body, Tokens, PrintableRow;
    Opens(row, gap);
    AtChar(s, i + |gap|, PrintTuple(row, gap), 0);
    SkipsGap(s, i, gap);
    TupleRoundTrip(s, i + |gap|, row, gap);
  }

  /** What the parser makes of the text behind a tuple. */
  function Outcome(s: string, k: nat, before: seq<SqlTuple>): (seq<SqlTuple>, bool)
    requires k <= |s|
  {
    if k == |s| then (before, true) else if s[k] != ',' then ([], false) else RowsFrom(s, k + 1, before)
  }

  /** The parser takes one tuple and the white space `after` it. */
  lemma TupleThen(s: string, i: nat, row: seq<Literal>, gap: string, after: string, before: seq<SqlTuple>)
    requires PrintableRow(row) && AllSpace(gap) && AllSpace(after)
    requires At(s, i, gap) && At(s, i + |gap|, PrintTuple(row, gap))
    requires At(s, i + |gap| + |PrintTuple(row, gap)|, after)
    requires var k := i + |gap| + |PrintTuple(row, gap)| + |after|; k == |s| || !IsSpace(s[k])
    ensures var k := i + |gap| + |PrintTuple(row, gap)| + |after|;
      k <= |s| && RowsFrom(s, i, before) == Outcome(s, k, before + [TupleOf(row, gap)])
  {
    hide PrintTuple, Extract, Items, SkipSpace, AllSpace, Body, Tokens, IsSpace, PrintableRow, RowsFrom, TupleOf;
    var open := i + |gap|;
    var close := open + |PrintTuple(row, gap)|;
    TextAt(s, close, after);
    SkipsGap(s, close, after);
    OneTuple(s, i, row, gap);
    OneStep(s, i, open, Body(row, gap), close, close + |after|, before);
  }

  /** The parser's loop body. */
  lemma OneStep(s: string, i: nat, open: nat, body: string, close: nat, k: nat, before: seq<SqlTuple>)
    requires i <= open < close <= k <= |s| && SkipSpace(s, i) == open && SkipSpace(s, close) == k
    requires Extract(s, open) == Some((body, close - 1))
    ensures RowsFrom(s, i, before) == Outcome(s, k, before + [SqlTuple(s[open..close], Items(body))])
  {
    hide Extract, Items, SkipSpace;
  }

  lemma NoSpaces()
    ensures !IsSpace(')') && !IsSpace(';') && !IsSpace(',')
  {
  }

  /** Written tuples, and white space `after` them, are parsed one by one; what follows
      decides. */
  lemma {:induction false} RowsRoundTrip(s: string, i: nat, rows: seq<seq<Literal>>, gap: string, after: string, before: seq<SqlTuple>)
    requires PrintableRows(rows) && AllSpace(gap) && AllSpace(after) && At(s, i, PrintTuples(rows, gap) + after)
    requires var k := i + |PrintTuples(rows, gap)| + |after|; k == |s| || !IsSpace(s[k])
    ensures var k := i + |PrintTuples(rows, gap)| + |after|;
      k <= |s| && RowsFrom(s, i, before) == Outcome(s, k, before + Expected(rows, gap))
    decreases |rows|
  {
    hide PrintTuple, At, RowsFrom, AllSpace, TupleOf, IsSpace, PrintableRow, Outcome;
    var first := TupleOf(rows[0], gap);
    if |rows| == 1 {
      LastRow(s, i, rows[0], gap, after, before);
      assert Expected(rows, gap) == [first];
    } else {
      var rest := PrintTuples(rows[1..], gap);
      NextRow(s, i, rows[0], gap, rest, after, before);
      RowsRoundTrip(s, i + |gap| + |PrintTuple(rows[0], gap)| + |gap| + 1, rows[1..], gap, after, before + [first]);
      OneBefore(before, first, Expected(rows[1..], gap));
    }
  }

  lemma LastRow(s: string, i: nat, row: seq<Literal>, gap: string, after: string, before: seq<SqlTuple>)
    requires PrintableRow(row) && AllSpace(gap) && AllSpace(after) && At(s, i, (gap + PrintTuple(row, gap)) + after)
    requires var k := i + |gap| + |PrintTuple(row, gap)| + |after|; k == |s| || !IsSpace(s[k])
    ensures var k := i + |gap| + |PrintTuple(row, gap)| + |after|;
      k <= |s| && RowsFrom(s, i, before) == Outcome(s, k, before + [TupleOf(row, gap)])
  {
    hide PrintTuple, At, RowsFrom, AllSpace, TupleOf, IsSpace, PrintableRow, Outcome;
    AtParts(s, i, gap + PrintTuple(row, gap), after);
    AtParts(s, i, gap, PrintTuple(row, gap));
    TupleThen(s, i, row, gap, after, before);
  }

  lemma NextRow(s: string, i: nat, row: seq<Literal>, gap: string, rest: string, after: string, before: seq<SqlTuple>)
    requires PrintableRow(row) && AllSpace(gap)
    requires At(s, i, (gap + (PrintTuple(row, gap) + (gap + ("," + rest)))) + after)
    ensures var k := i + |gap| + |PrintTuple(row, gap)| + |gap| + 1;
      k <= |s| && At(s, k, rest + after) && RowsFrom(s, i, before) == RowsFrom(s, k, before + [TupleOf(row, gap)])
  {
    hide PrintTuple, At, RowsFrom, AllSpace, TupleOf, IsSpace, PrintableRow, Outcome;
    var tuple := PrintTuple(row, gap);
    AtParts(s, i, gap + (tuple + (gap + ("," + rest))), after);
    TupleAndTail(s, i, gap, tuple, rest);
    NoSpaces();
    TupleThen(s, i, row, gap, gap, before);
    CommaGoesOn(s, i + |gap| + |tuple| + |gap|, before + [TupleOf(row, gap)]);
    RestAt(s, i, gap, tuple, rest, after);
  }

  lemma CommaGoesOn(s: string, k: nat, before: seq<SqlTuple>)
    requires k < |s| && s[k] == ','
    ensures Outcome(s, k, before) == RowsFrom(s, k + 1, before)
  {
  }

  lemma RestAt(s: string, i: nat, gap: string, tuple: string, rest: string, after: string)
    requires At(s, i, (gap + (tuple + (gap + ("," + rest)))) + after)
    ensures At(s, i + |gap| + |tuple| + |gap| + 1, rest + after)
  {
    hide At;
    assert (gap + (tuple + (gap + ("," + rest)))) + after == (gap + tuple + gap + ",") + (rest + after);
    AtParts(s, i, gap + tuple + gap + ",", rest + after);
  }

  lemma OneBefore(before: seq<SqlTuple>, first: SqlTuple, rest: seq<SqlTuple>)
    ensures before + ([first] + rest) == (before + [first]) + rest
  {
  }

  lemma {:induction false} StripRightGap(s: string, gap: string)
    requires AllSpace(gap) && (s == [] || !IsSpace(s[|s| - 1]))
    ensures StripRight(s + gap) == s
    decreases |gap|
  {
    if gap == [] {
      assert s + gap == s;
    } else {
      var last := |gap| - 1;
      assert (s + gap)[..|s + gap| - 1] == s + gap[..last];
      StripRightGap(s, gap[..last]);
    }
  }

  lemma {:induction false} TuplesEnd(rows: seq<seq<Literal>>, gap: string)
    requires PrintableRows(rows)
    ensures var t := PrintTuples(rows, gap); t != [] && t[|t| - 1] == ')'
    decreases |rows|
  {
    if |rows| > 1 {
      TuplesEnd(rows[1..], gap);
    }
  }

  lemma TrimClause(rows: seq<seq<Literal>>, gap: string, semicolon: bool, tail: string)
    requires PrintableRows(rows) && AllSpace(gap) && AllSpace(tail)
    ensures Trimmed(PrintClause(rows, gap, semicolon, tail)) == PrintTuples(rows, gap)
  {
    hide PrintTuples, IsSpace, StripRight, AllSpace, PrintableRows;
    var t := PrintTuples(rows, gap);
    TuplesEnd(rows, gap);
    NoSpaces();
    if semicolon {
      StripRightGap(t + gap + ";", tail);
      assert RemoveSemicolon(t + gap + ";") == t + gap;
      StripRightGap(t, gap);
    } else {
      NoSemicolon(t, gap, tail);
      StripRightGap(t, gap + tail);
      StripRightGap(t, []);
      assert t + [] == t;
    }
  }

  lemma NoSemicolon(t: string, gap: string, tail: string)
    requires AllSpace(gap) && AllSpace(tail)
    ensures t + gap + "" + tail == t + (gap + tail) && AllSpace(gap + tail) && AllSpace([])
  {
  }

  /** Reading a written clause gives back one tuple per row, with its text and the written
      values as items. */
  lemma ClauseRoundTrip(rows: seq<seq<Literal>>, gap: string, semicolon: bool, tail: string)
    requires PrintableRows(rows) && AllSpace(gap) && AllSpace(tail)
    ensures RowsFrom(Trimmed(PrintClause(rows, gap, semicolon, tail)), 0, []) == (Expected(rows, gap), true)
  {
    hide Trimmed, PrintClause, RowsFrom, AllSpace, PrintableRow, PrintTuples, Expected, IsSpace;
    var t := PrintTuples(rows, gap);
    TrimClause(rows, gap, semicolon, tail);
    NoSemicolon(t, gap, tail);
    WholeAt(t);
    assert t + [] == t;
    RowsRoundTrip(t, 0, rows, gap, [], []);
    assert [] + Expected(rows, gap) == Expected(rows, gap);
  }

  /** What follows written tuples decides: nothing or a last comma, and the rows are known;
      anything else, and they are not. */
  lemma TailDecides(rows: seq<seq<Literal>>, gap: string, tail: string)
    requires PrintableRows(rows) && AllSpace(gap) && (tail == "" || !IsSpace(tail[0]))
    ensures var t := PrintTuples(rows, gap) + gap + tail;
      && (tail == "" || (tail[0] == ',' && AllSpace(tail[1..])) ==> RowsFrom(t, 0, []) == (Expected(rows, gap), true))
      && (tail != "" && tail[0] != ',' ==> RowsFrom(t, 0, []) == ([], false))
      && (|tail| > 1 && tail[0] == ',' && !IsSpace(tail[1]) && tail[1] != '(' ==> RowsFrom(t, 0, []) == ([], false))
  {
    hide PrintTuples, Expected, RowsFrom, IsSpace, AllSpace, PrintableRow;
    var printed := PrintTuples(rows, gap) + gap;
    var t, k := printed + tail, |printed|;
    TailAt(printed, tail);
    RowsRoundTrip(t, 0, rows, gap, gap, []);
    assert [] + Expected(rows, gap) == Expected(rows, gap);
    if tail != "" && tail[0] == ',' {
      AfterComma(t, k + 1, Expected(rows, gap));
    }
  }

  lemma TailAt(a: string, tail: string)
    ensures At(a + tail, 0, a) && (tail != "" ==> (a + tail)[|a|] == tail[0] && (a + tail)[|a| + 1..] == tail[1..])
    ensures |tail| > 1 ==> (a + tail)[|a| + 1] == tail[1]
  {
  }

  lemma AfterComma(t: string, k: nat, before: seq<SqlTuple>)
    requires k <= |t| && before != []
    ensures AllSpace(t[k..]) ==> RowsFrom(t, k, before) == (before, true)
    ensures k < |t| && !IsSpace(t[k]) && t[k] != '(' ==> RowsFrom(t, k, before) == ([], false)
  {
    if AllSpace(t[k..]) {
      SkipsGap(t, k, t[k..]);
    }
  }

  /** A clause without a tuple has no known rows. */
  lemma NoTuple(s: string, gap: string)
    requires AllSpace(gap) && (s == "" || (!IsSpace(s[0]) && s[0] != '('))
    ensures RowsFrom(gap + s, 0, []) == ([], false)
  {
    assert (gap + s)[..|gap|] == gap && (s != "" ==> (gap + s)[|gap|] == s[0]);
    SkipsGap(gap + s, 0, gap);
  }

  /** The whole way round: every value of every row comes back, unless a limit strikes. */
  lemma RoundTrip(rows: seq<seq<Literal>>, gap: string, semicolon: bool, tail: string, r: nat, c: nat, floats: Floats)
    requires PrintableRows(rows) && AllSpace(gap) && AllSpace(tail)
    requires r < |rows| && c < |rows[r]|
    ensures var (tuples, known) := RowsFrom(Trimmed(PrintClause(rows, gap, semicolon, tail)), 0, []);
      && known && |tuples| == |rows|
      && tuples[r].raw == PrintTuple(rows[r], gap)
      && |tuples[r].tokens| == |rows[r]|
      && ParseSqlValue(tuples[r].tokens[c], floats) == ReadBack(rows[r][c], floats)
  {
    hide RowsFrom, Trimmed, PrintClause, PrintTuple, ParseSqlValue, PrintValue, ReadBack, Printable, AllSpace;
    ClauseRoundTrip(rows, gap, semicolon, tail);
    ValueRoundTrip(rows[r][c], floats);
  }

  /** Texts in single quotes, with doubled quotes. */
  ghost function DoubledRow(texts: seq<string>): (row: seq<Literal>)
    ensures |row| == |texts| && (texts != [] ==> PrintableRow(row))
    ensures forall k :: 0 <= k < |texts| ==> row[k] == Quoted('\'', Doubled(texts[k])) && Printable(row[k])
  {
    if texts == [] then []
    else
      DoubledIs(texts[0]);
      [Quoted('\'', Doubled(texts[0]))] + DoubledRow(texts[1..])
  }

  /** A tuple of such texts is cut into them, and each comes back exactly when it fits and
      has no two double quotes in a row. */
  lemma DoubledTuple(texts: seq<string>, gap: string, s: string, i: nat, c: nat, floats: Floats)
    requires AllSpace(gap) && c < |texts| && At(s, i, PrintTuple(DoubledRow(texts), gap))
    ensures var row := DoubledRow(texts);
      && Extract(s, i) == Some((Body(row, gap), i + |PrintTuple(row, gap)| - 1))
      && var items := Items(Body(row, gap)); var token := "'" + (Spell('\'', Doubled(texts[c])) + "'");
      && |items| == |texts| && items[c] == token
      && (ParseSqlValue(token, floats) == Ok(Text(texts[c])) <==>
          |Utf8Bytes(token)| <= 1_048_576 && NoDoubleQuotes(texts[c]))
  {
    hide Spell, Doubled, DoubledRow, Written, Reading, NoPair, NoDoubleQuotes, Extract, Items, ParseSqlValue, Utf8Bytes, Body, AllSpace;
    var row := DoubledRow(texts);
    TupleRoundTrip(s, i, row, gap);
    DoubledIs(texts[c]);
    DoubledIff(texts[c]);
    ReadingIs('\'', Doubled(texts[c]));
    ValueRoundTrip(row[c], floats);
  }
}
