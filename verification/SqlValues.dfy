/** The scanners that take a VALUES clause apart: tuples, items, values. */
module SqlValues {
  import opened Options
  import opened Values
  import opened SqlText
  import Decimal

  // ---------------------------------------------------------------- white space

  /** str.isspace of one character. */
  predicate IsSpace(c: char) {
    var n := c as int;
    || 0x09 <= n <= 0x0D || 0x1C <= n <= 0x20 || n == 0x85 || n == 0xA0 || n == 0x1680
    || 0x2000 <= n <= 0x200A || n == 0x2028 || n == 0x2029 || n == 0x202F || n == 0x205F || n == 0x3000
  }

  predicate AllSpace(s: string) {
    forall i :: 0 <= i < |s| ==> IsSpace(s[i])
  }

  function StripLeft(s: string): string {
    if s != [] && IsSpace(s[0]) then StripLeft(s[1..]) else s
  }

  function StripRight(s: string): string {
    if s != [] && IsSpace(s[|s| - 1]) then StripRight(s[..|s| - 1]) else s
  }

  function Strip(s: string): string {
    StripLeft(StripRight(s))
  }

  function SkipSpace(s: string, i: nat): (j: nat)
    requires i <= |s|
    ensures i <= j <= |s|
    decreases |s| - i
  {
    if i < |s| && IsSpace(s[i]) then SkipSpace(s, i + 1) else i
  }

  // ---------------------------------------------------------------- items

  /** The items from `start` on, the scanner standing at i. */
  function SplitFrom(s: string, start: nat, i: nat, depth: int, m: Mode): seq<string>
    requires start <= i <= |s|
    decreases |s| - i
  {
    if i == |s| then [Strip(s[start..])]
    else if !m.Free? then
      var (j, m') := SkipQuoted(s, i, m);
      SplitFrom(s, start, j, depth, m')
    else if IsQuote(s[i]) then SplitFrom(s, start, i + 1, depth, Inside(s[i]))
    else if s[i] == '(' then SplitFrom(s, start, i + 1, depth + 1, Free)
    else if s[i] == ')' then SplitFrom(s, start, i + 1, depth - 1, Free)
    else if s[i] == ',' && depth == 0 then [Strip(s[start..i])] + SplitFrom(s, i + 1, i + 1, depth, Free)
    else SplitFrom(s, start, i + 1, depth, Free)
  }

  function Items(s: string): seq<string> {
    SplitFrom(s, 0, 0, 0, Free)
  }

  ghost function ModeOf(quote: Option<char>, escaped: bool): Mode {
    match quote
    case None => Free
    case Some(q) => if escaped then Escaped(q) else Inside(q)
  }

  /** The quoted half of the scanner loops: one step inside quotes. */
  method StepQuoted(value: string, index: nat, q: char, escaped: bool)
    returns (index': nat, quote': Option<char>, escaped': bool)
    requires index < |value|
    ensures (index', ModeOf(quote', escaped')) == SkipQuoted(value, index, ModeOf(Some(q), escaped))
    ensures quote'.None? ==> !escaped'
  {
    index', quote', escaped' := index + 1, Some(q), false;
    if escaped {
      return;
    } else if value[index] == '\\' && (q == '\'' || q == '"') {
      escaped' := true;
    } else if value[index] == q {
      if index + 1 < |value| && value[index + 1] == q {
        index' := index + 2;
        return;
      }
      quote' := None;
    }
  }

  method SplitSqlItems(value: string) returns (items: seq<string>)
    ensures items == Items(value)
  {
    items := [];
    var start, depth, index := 0, 0, 0;
    var quote: Option<char>, escaped := None, false;
    while index < |value|
      invariant start <= index <= |value|
      invariant items + SplitFrom(value, start, index, depth, ModeOf(quote, escaped)) == Items(value)
      decreases |value| - index
    {
      if quote.Some? {
        index, quote, escaped := StepQuoted(value, index, quote.value, escaped);
        continue;
      }
      var c := value[index];
      if IsQuote(c) {
        quote, escaped := Some(c), false;
      } else if c == '(' {
        depth := depth + 1;
      } else if c == ')' {
        depth := depth - 1;
      } else if c == ',' && depth == 0 {
        items := items + [Strip(value[start..index])];
        start := index + 1;
      }
      index := index + 1;
    }
    items := items + [Strip(value[start..])];
  }

  // ---------------------------------------------------------------- parentheses

  /** The text up to the closing parenthesis, the scanner standing at i. */
  function ExtractFrom(s: string, opening: nat, i: nat, depth: int, m: Mode): (r: Option<(string, nat)>)
    requires opening < i <= |s|
    ensures r.Some? ==> i <= r.value.1 < |s| && s[r.value.1] == ')'
    decreases |s| - i
  {
    if i == |s| then None
    else if !m.Free? then
      var (j, m') := SkipQuoted(s, i, m);
      ExtractFrom(s, opening, j, depth, m')
    else if IsQuote(s[i]) then ExtractFrom(s, opening, i + 1, depth, Inside(s[i]))
    else if s[i] == '(' then ExtractFrom(s, opening, i + 1, depth + 1, Free)
    else if s[i] == ')' then
      if depth == 1 then Some((s[opening + 1..i], i)) else ExtractFrom(s, opening, i + 1, depth - 1, Free)
    else ExtractFrom(s, opening, i + 1, depth, Free)
  }

  function Extract(s: string, opening: nat): (r: Option<(string, nat)>)
    ensures r.Some? ==> opening < r.value.1 < |s|
  {
    if opening >= |s| || s[opening] != '(' then None else ExtractFrom(s, opening, opening + 1, 1, Free)
  }

  method ExtractParenthesized(value: string, opening: nat) returns (r: Option<(string, nat)>)
    ensures r == Extract(value, opening)
  {
    if opening >= |value| || value[opening] != '(' {
      return None;
    }
    var depth, index := 1, opening + 1;
    var quote: Option<char>, escaped := None, false;
    while index < |value|
      invariant opening < index <= |value|
      invariant ExtractFrom(value, opening, index, depth, ModeOf(quote, escaped)) == Extract(value, opening)
      decreases |value| - index
    {
      if quote.Some? {
        index, quote, escaped := StepQuoted(value, index, quote.value, escaped);
        continue;
      }
      var c := value[index];
      if IsQuote(c) {
        quote, escaped := Some(c), false;
      } else if c == '(' {
        depth := depth + 1;
      } else if c == ')' {
        depth := depth - 1;
        if depth == 0 {
          return Some((value[opening + 1..index], index));
        }
      }
      index := index + 1;
    }
    r := None;
  }

  // ---------------------------------------------------------------- strings and values

  const BACKSPACE := 8 as char
  const SUBSTITUTE := 26 as char

  /** The character a backslash and c stand for. */
  function Unescaped(c: char): char {
    match c
    case '0' => '\0'
    case 'b' => BACKSPACE
    case 'n' => '\n'
    case 'r' => '\r'
    case 't' => '\t'
    case 'Z' => SUBSTITUTE
    case _ => c
  }

  function UnescapeFrom(s: string, i: nat): string
    requires i <= |s|
    decreases |s| - i
  {
    if i == |s| then []
    else if s[i] == '\\' && i + 1 < |s| then [Unescaped(s[i + 1])] + UnescapeFrom(s, i + 2)
    else if i + 1 < |s| && s[i + 1] == s[i] && (s[i] == '\'' || s[i] == '"') then [s[i]] + UnescapeFrom(s, i + 2)
    else [s[i]] + UnescapeFrom(s, i + 1)
  }

  function Unescape(s: string): string {
    UnescapeFrom(s, 0)
  }

  method MysqlUnescape(value: string) returns (output: string)
    ensures output == Unescape(value)
  {
    output := [];
    var index := 0;
    while index < |value|
      invariant index <= |value|
      invariant output + UnescapeFrom(value, index) == Unescape(value)
    {
      hide Unescaped;
      var c := value[index];
      ghost var before, start := output, index;
      if c == '\\' && index + 1 < |value| {
        index := index + 1;
        output := output + [Unescaped(value[index])];
      } else if index + 1 < |value| && value[index + 1] == c && (c == '\'' || c == '"') {
        output := output + [c];
        index := index + 1;
      } else {
        output := output + [c];
      }
      index := index + 1;
      OneLonger(before, output[|output| - 1], UnescapeFrom(value, index), UnescapeFrom(value, start));
    }
  }

  lemma OneLonger(a: string, c: char, b: string, whole: string)
    requires whole == [c] + b
    ensures (a + [c]) + b == a + whole
  {
  }

  /** A value, a numeral that overflows to infinity, or an error. */
  datatype Parsed = Ok(v: Value) | Infinite | TooLong | Unsupported

  /** The reading of a numeral with a fraction or an exponent, rounded; none if it
      overflows. */
  type Floats = string -> Option<real>

  const MAX_SQL_FIELD_BYTES: nat := 1024 * 1024

  /** The interpreter's default limit on the digits of an integer numeral. */
  const MAX_INT_DIGITS: nat := 4300

  function Utf8Length(s: string): nat {
    if s == [] then 0
    else
      var n := s[0] as int;
      (if n < 0x80 then 1 else if n < 0x800 then 2 else if n < 0x10000 then 3 else 4) + Utf8Length(s[1..])
  }

  predicate IsNull(token: string) {
    |token| == 4 && token[0] in "nN" && token[1] in "uU" && token[2] in "lL" && token[3] in "lL"
  }

  function DigitRun(s: string, i: nat): (j: nat)
    requires i <= |s|
    ensures i <= j <= |s|
    decreases |s| - i
  {
    if i < |s| && Decimal.IsDigit(s[i]) then DigitRun(s, i + 1) else i
  }

  /** The end of the digits and, behind a point, the digits of a fraction. */
  function Mantissa(s: string): (j: nat)
    ensures j <= |s|
  {
    var whole := DigitRun(s, 0);
    if whole < |s| && s[whole] == '.' then DigitRun(s, whole + 1) else whole
  }

  /** Digits with an optional fraction, or a fraction alone, then an optional exponent. */
  predicate IsReal(token: string) {
    var s := Decimal.Unsigned(token);
    var end := Mantissa(s);
    && (DigitRun(s, 0) > 0 || end > 1)
    && (end == |s| || (s[end] in "eE" && Decimal.IsInteger(s[end + 1..])))
  }

  function ParseSqlValue(raw: string, floats: Floats): Parsed {
    var token := Strip(raw);
    if Utf8Length(token) > MAX_SQL_FIELD_BYTES then TooLong
    else if IsNull(token) then Ok(Null)
    else if |token| >= 2 && (token[0] == '\'' || token[0] == '"') && token[|token| - 1] == token[0] then
      Ok(Text(Unescape(token[1..|token| - 1])))
    else if Decimal.IsInteger(token) then
      if |Decimal.Unsigned(token)| > MAX_INT_DIGITS then Unsupported else Ok(Int(Decimal.ReadInt(token)))
    else if IsReal(token) then if floats(token).Some? then Ok(Float(floats(token).value)) else Infinite
    else Unsupported
  }

  // ---------------------------------------------------------------- rows

  datatype SqlTuple = SqlTuple(raw: string, tokens: seq<string>)

  function RemoveSemicolon(s: string): string {
    if s != [] && s[|s| - 1] == ';' then s[..|s| - 1] else s
  }

  function Trimmed(value: string): string {
    StripRight(RemoveSemicolon(StripRight(value)))
  }

  function RowsFrom(s: string, i: nat, rows: seq<SqlTuple>): (seq<SqlTuple>, bool)
    requires i <= |s|
    decreases |s| - i
  {
    var j := SkipSpace(s, i);
    if j == |s| then (rows, rows != [])
    else
      match Extract(s, j)
      case None => ([], false)
      case Some((body, closing)) =>
        var rows' := rows + [SqlTuple(s[j..closing + 1], Items(body))];
        var k := SkipSpace(s, closing + 1);
        if k == |s| then (rows', true)
        else if s[k] != ',' then ([], false)
        else RowsFrom(s, k + 1, rows')
  }

  method SkipSpaces(value: string, index: nat) returns (index': nat)
    requires index <= |value|
    ensures index' == SkipSpace(value, index)
  {
    index' := index;
    while index' < |value| && IsSpace(value[index'])
      invariant index <= index' <= |value|
      invariant SkipSpace(value, index') == SkipSpace(value, index)
    {
      index' := index' + 1;
    }
  }

  method ParseValuesRows(text: string) returns (rows: seq<SqlTuple>, known: bool)
    ensures (rows, known) == RowsFrom(Trimmed(text), 0, [])
  {
    hide Trimmed, Extract, Items, SkipSpace;
    var value := Trimmed(text);
    rows := [];
    var index := 0;
    while true
      invariant index <= |value|
      invariant RowsFrom(value, index, rows) == RowsFrom(value, 0, [])
      decreases |value| - index
    {
      index := SkipSpaces(value, index);
      if index == |value| {
        return rows, rows != [];
      }
      var extracted := ExtractParenthesized(value, index);
      if extracted.None? {
        return [], false;
      }
      var (body, closing) := extracted.value;
      var items := SplitSqlItems(body);
      rows := rows + [SqlTuple(value[index..closing + 1], items)];
      index := SkipSpaces(value, closing + 1);
      if index == |value| {
        return rows, true;
      }
      if value[index] != ',' {
        return [], false;
      }
      index := index + 1;
    }
  }
}
