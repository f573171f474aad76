/** A whole printed dump: the splitter gives back its statements, and each INSERT
    among them its rows. */
module SqlDump {
  import opened Options
  import opened SqlText
  import opened SqlValues
  import opened SqlRoundTrip
  import SqlStatements
  import SqlTokens

  /** An INSERT, whose `header` is everything up to and including VALUES, or any other
      statement without its semicolon. */
  datatype Statement = Insert(header: string, rows: seq<seq<Literal>>) | Other(text: string)

  predicate Unmarked(t: string) {
    forall i :: 0 <= i < |t| ==> !IsQuote(t[i]) && t[i] != ';'
  }

  /** The scanner, at i in mode m, reaches the end of the text outside quotes and
      meets no semicolon outside quotes on the way. */
  ghost predicate Crossed(t: string, i: nat, m: Mode)
    decreases |t| - i
  {
    if i >= |t| then i == |t| && m.Free?
    else if !m.Free? then
      var (j, m') := SkipQuoted(t, i, m);
      Crossed(t, j, m')
    else if IsQuote(t[i]) then Crossed(t, i + 1, Inside(t[i]))
    else t[i] != ';' && Crossed(t, i + 1, Free)
  }

  /** Names and texts of a header or another statement may be quoted; its quotes are
      closed and it has no semicolon outside them. */
  ghost predicate ProperStatement(st: Statement) {
    match st
    case Insert(header, rows) => Crossed(header, 0, Free) && PrintableRows(rows)
    case Other(text) => Crossed(text, 0, Free)
  }

  function PrintStatement(st: Statement, gap: string): string
    requires ProperStatement(st)
  {
    match st
    case Insert(header, rows) => header + (PrintTuples(rows, gap) + (gap + ";"))
    case Other(text) => text + ";"
  }

  // ---------------------------------------------------------------- the splitter passes over printed text

  lemma {:induction false} LookQuiet(s: string, i: nat, j: nat, d: nat, m: Mode)
    requires i <= j <= |s| && Quiet(s, i, j, d, m)
    ensures SqlStatements.LookEnd(s, i, m) == SqlStatements.LookEnd(s, j, Free)
    decreases |s| - i
  {
    if i != j {
      if !m.Free? {
        var (i', m') := SkipQuoted(s, i, m);
        LookQuiet(s, i', j, d, m');
      } else if IsQuote(s[i]) {
        LookQuiet(s, i + 1, j, d, Inside(s[i]));
      } else if s[i] == '(' {
        LookQuiet(s, i + 1, j, d + 1, Free);
      } else if s[i] == ')' {
        LookQuiet(s, i + 1, j, d - 1, Free);
      } else {
        LookQuiet(s, i + 1, j, d, Free);
      }
    }
  }

  /** A run without quotes and semicolons. */
  lemma {:induction false} LookPlain(s: string, i: nat, t: string)
    requires At(s, i, t) && Unmarked(t)
    ensures SqlStatements.LookEnd(s, i, Free) == SqlStatements.LookEnd(s, i + |t|, Free)
    decreases |t|
  {
    if t != [] {
      assert t == [t[0]] + t[1..];
      AtParts(s, i, [t[0]], t[1..]);
      AtChar(s, i, [t[0]], 0);
      LookPlain(s, i + 1, t[1..]);
    }
  }

  /** A header, when no quote follows it. */
  lemma {:induction false} LookCrossed(s: string, i: nat, t: string, k: nat, m: Mode)
    requires At(s, i, t) && k <= |t| && Crossed(t, k, m)
    requires i + |t| == |s| || !IsQuote(s[i + |t|])
    requires m.Inside? || m.Escaped? ==> IsQuote(m.q)
    ensures SqlStatements.LookEnd(s, i + k, m) == SqlStatements.LookEnd(s, i + |t|, Free)
    decreases |t| - k
  {
    if k < |t| {
      AtChar(s, i, t, k);
      if !m.Free? {
        if k + 1 < |t| {
          AtChar(s, i, t, k + 1);
        }
        var (j, m') := SkipQuoted(t, k, m);
        LookCrossed(s, i, t, j, m');
      } else if IsQuote(t[k]) {
        LookCrossed(s, i, t, k + 1, Inside(t[k]));
      } else {
        LookCrossed(s, i, t, k + 1, Free);
      }
    }
  }

  lemma {:induction false} LookBody(s: string, i: nat, row: seq<Literal>, gap: string)
    requires PrintableRow(row) && AllSpace(gap) && At(s, i, Body(row, gap))
    requires i + |Body(row, gap)| < |s| && s[i + |Body(row, gap)|] == ')'
    ensures SqlStatements.LookEnd(s, i, Free) == SqlStatements.LookEnd(s, i + |Body(row, gap)|, Free)
    decreases |row|
  {
    hide Padded, Printable, Quiet, At, AllSpace, SqlStatements.LookEnd;
    var j := i + |Padded(row[0], gap)|;
    if |row| > 1 {
      BodyParts(s, i, row, gap);
    }
    PaddedQuiet(s, i, row[0], gap);
    LookQuiet(s, i, j, 0, Free);
    if |row| > 1 {
      LookOther(s, j);
      LookBody(s, j + 1, row[1..], gap);
    }
  }

  lemma LookTuple(s: string, i: nat, row: seq<Literal>, gap: string)
    requires PrintableRow(row) && AllSpace(gap) && At(s, i, PrintTuple(row, gap))
    ensures SqlStatements.LookEnd(s, i, Free) == SqlStatements.LookEnd(s, i + |PrintTuple(row, gap)|, Free)
  {
    hide At, Body, PrintTuple, AllSpace, PrintableRow, SqlStatements.LookEnd;
    var body := Body(row, gap);
    TupleAt(s, i, row, gap);
    LookOther(s, i);
    LookBody(s, i + 1, row, gap);
    LookOther(s, i + 1 + |body|);
  }

  lemma LookGap(s: string, i: nat, gap: string)
    requires AllSpace(gap) && At(s, i, gap)
    ensures SqlStatements.LookEnd(s, i, Free) == SqlStatements.LookEnd(s, i + |gap|, Free)
  {
    LookPlain(s, i, gap);
  }

  lemma {:induction false} LookTuples(s: string, i: nat, rows: seq<seq<Literal>>, gap: string)
    requires PrintableRows(rows) && AllSpace(gap) && At(s, i, PrintTuples(rows, gap))
    ensures SqlStatements.LookEnd(s, i, Free) == SqlStatements.LookEnd(s, i + |PrintTuples(rows, gap)|, Free)
    decreases |rows|
  {
    hide PrintTuple, At, AllSpace, PrintableRow, SqlStatements.LookEnd;
    var tuple := PrintTuple(rows[0], gap);
    if |rows| == 1 {
      AtParts(s, i, gap, tuple);
      LookGap(s, i, gap);
      LookTuple(s, i + |gap|, rows[0], gap);
    } else {
      TupleAndTail(s, i, gap, tuple, PrintTuples(rows[1..], gap));
      LookGap(s, i, gap);
      LookTuple(s, i + |gap|, rows[0], gap);
      LookGap(s, i + |gap| + |tuple|, gap);
      LookOther(s, i + |gap| + |tuple| + |gap|);
      LookTuples(s, i + |gap| + |tuple| + |gap| + 1, rows[1..], gap);
    }
  }

  lemma LookSemicolon(s: string, i: nat)
    requires i < |s| && s[i] == ';'
    ensures SqlStatements.LookEnd(s, i, Free) == i
  {
  }

  lemma LookOther(s: string, i: nat)
    requires i < |s| && !IsQuote(s[i]) && s[i] != ';'
    ensures SqlStatements.LookEnd(s, i, Free) == SqlStatements.LookEnd(s, i + 1, Free)
  {
  }

  lemma LookClause(s: string, i: nat, rows: seq<seq<Literal>>, gap: string)
    requires PrintableRows(rows) && AllSpace(gap) && At(s, i, PrintTuples(rows, gap) + (gap + ";"))
    ensures SqlStatements.LookEnd(s, i, Free) == i + |PrintTuples(rows, gap)| + |gap|
  {
    hide PrintTuples, At, AllSpace, SqlStatements.LookEnd;
    var tuples := PrintTuples(rows, gap);
    AtParts(s, i, tuples, gap + ";");
    AtParts(s, i + |tuples|, gap, ";");
    AtChar(s, i + |tuples| + |gap|, ";", 0);
    LookTuples(s, i, rows, gap);
    LookGap(s, i + |tuples|, gap);
    LookSemicolon(s, i + |tuples| + |gap|);
  }

  /** The first end the splitter finds is the semicolon of the printed INSERT. */
  lemma LookInsert(s: string, st: Statement, gap: string)
    requires st.Insert? && ProperStatement(st) && AllSpace(gap) && At(s, 0, PrintStatement(st, gap))
    ensures SqlStatements.LookEnd(s, 0, Free) == |PrintStatement(st, gap)| - 1
  {
    hide PrintTuples, At, AllSpace, Crossed, SqlStatements.LookEnd;
    var clause := PrintTuples(st.rows, gap) + (gap + ";");
    AtParts(s, 0, st.header, clause);
    NoQuoteFirst(st.rows, gap);
    AtChar(s, |st.header|, clause, 0);
    LookCrossed(s, 0, st.header, 0, Free);
    LookClause(s, |st.header|, st.rows, gap);
  }

  /** The same for every statement. */
  lemma LookStatement(s: string, st: Statement, gap: string)
    requires ProperStatement(st) && AllSpace(gap) && At(s, 0, PrintStatement(st, gap))
    ensures SqlStatements.LookEnd(s, 0, Free) == |PrintStatement(st, gap)| - 1
  {
    if st.Insert? {
      LookInsert(s, st, gap);
    } else {
      hide At, AllSpace, Crossed, SqlStatements.LookEnd;
      AtParts(s, 0, st.text, ";");
      AtChar(s, |st.text|, ";", 0);
      LookCrossed(s, 0, st.text, 0, Free);
      LookSemicolon(s, |st.text|);
    }
  }

  lemma NoQuoteFirst(rows: seq<seq<Literal>>, gap: string)
    requires PrintableRows(rows) && AllSpace(gap)
    ensures PrintTuples(rows, gap) != [] && !IsQuote(PrintTuples(rows, gap)[0])
  {
    Opens(rows[0], gap);
    assert gap != [] ==> IsSpace(gap[0]);
  }

  /** White space, by code point. */
  lemma SpacesAre(c: char)
    ensures IsSpace(c) <==> c as int in {
      9, 10, 11, 12, 13, 28, 29, 30, 31, 32, 133, 160, 5760, 8192, 8193, 8194, 8195, 8196, 8197, 8198, 8199, 8200, 8201,
      8202, 8232, 8233, 8239, 8287, 12288}
  {
  }

  // ---------------------------------------------------------------- headers with quoted names

  datatype Segment = Words(t: string) | Name(t: string)

  function PrintSegment(g: Segment): string {
    match g
    case Words(t) => t
    case Name(t) => "`" + t + "`"
  }

  function PrintSegments(segments: seq<Segment>): string {
    if segments == [] then [] else PrintSegment(segments[0]) + PrintSegments(segments[1..])
  }

  /** Plain words and backquoted names, no name right after another. */
  predicate Named(segments: seq<Segment>) {
    segments == [] || (
      && (segments[0].Words? ==> segments[0].t != [] && Unmarked(segments[0].t))
      && (segments[0].Name? ==> '`' !in segments[0].t && (|segments| > 1 ==> segments[1].Words?))
      && Named(segments[1..]))
  }

  lemma {:induction false} CrossedBehind(a: string, b: string, k: nat, m: Mode)
    ensures Crossed(a + b, |a| + k, m) <==> Crossed(b, k, m)
    decreases |b| - k
  {
    if k < |b| {
      if !m.Free? {
        CrossedBehind(a, b, SkipQuoted(b, k, m).0, SkipQuoted(b, k, m).1);
      } else {
        CrossedBehind(a, b, k + 1, if IsQuote(b[k]) then Inside(b[k]) else Free);
      }
    }
  }

  lemma {:induction false} CrossedWords(a: string, b: string, k: nat)
    requires Unmarked(a) && k <= |a| && Crossed(b, 0, Free)
    ensures Crossed(a + b, k, Free)
    decreases |a| - k
  {
    if k == |a| {
      CrossedBehind(a, b, 0, Free);
    } else {
      CrossedWords(a, b, k + 1);
    }
  }

  lemma {:induction false} CrossedName(t: string, b: string, k: nat)
    requires '`' !in t && 1 <= k <= |t| + 1 && Crossed(b, 0, Free) && (b == [] || b[0] != '`')
    ensures Crossed("`" + t + "`" + b, k, Inside('`'))
    decreases |t| + 1 - k
  {
    var s := "`" + t + "`" + b;
    if k == |t| + 1 {
      assert s[k] == '`' && (k + 1 < |s| ==> s[k + 1] == b[0]);
      assert s == ("`" + t + "`") + b;
      CrossedBehind("`" + t + "`", b, 0, Free);
    } else {
      assert s[k] == t[k - 1] && t[k - 1] in t;
      CrossedName(t, b, k + 1);
    }
  }

  /** So a header like INSERT INTO `t` (`a`, `b`) VALUES is proper. */
  lemma {:induction false} NamedHeader(segments: seq<Segment>)
    requires Named(segments)
    ensures Crossed(PrintSegments(segments), 0, Free)
  {
    if segments != [] {
      var g, rest := segments[0], PrintSegments(segments[1..]);
      NamedHeader(segments[1..]);
      match g {
        case Words(t) =>
          CrossedWords(t, rest, 0);
        case Name(t) =>
          CrossedName(t, rest, 1);
          assert PrintSegments(segments) == "`" + t + "`" + rest;
      }
    }
  }

  // ---------------------------------------------------------------- the dump

  ghost predicate ProperDump(dump: seq<Statement>) {
    forall k :: 0 <= k < |dump| ==> ProperStatement(dump[k])
  }

  function Texts(dump: seq<Statement>, gap: string): (t: seq<string>)
    requires ProperDump(dump)
    ensures |t| == |dump| && forall k :: 0 <= k < |dump| ==> t[k] == PrintStatement(dump[k], gap)
  {
    if dump == [] then [] else [PrintStatement(dump[0], gap)] + Texts(dump[1..], gap)
  }

  /** Splitting a printed dump gives its statements. */
  lemma {:induction false} SplitDump(dump: seq<Statement>, gap: string)
    requires ProperDump(dump) && AllSpace(gap)
    ensures SqlStatements.Pieces(SqlStatements.Flatten(Texts(dump, gap))) == Texts(dump, gap)
  {
    hide PrintStatement, AllSpace;
    if dump != [] {
      var first := PrintStatement(dump[0], gap);
      var rest := SqlStatements.Flatten(Texts(dump[1..], gap));
      SplitDump(dump[1..], gap);
      assert Texts(dump, gap)[1..] == Texts(dump[1..], gap);
      LookStatement(first + rest, dump[0], gap);
    }
  }

  /** From dump to rows: the k-th statement found is the k-th printed one, and what
      follows its header reads back as its rows. */
  lemma DumpRoundTrip(dump: seq<Statement>, gap: string, k: nat)
    requires ProperDump(dump) && AllSpace(gap) && k < |dump| && dump[k].Insert?
    ensures var pieces := SqlStatements.Pieces(SqlStatements.Flatten(Texts(dump, gap)));
      && |pieces| == |dump| && dump[k].header <= pieces[k]
      && RowsFrom(Trimmed(pieces[k][|dump[k].header|..]), 0, []) == (Expected(dump[k].rows, gap), true)
  {
    hide RowsFrom, Trimmed, Expected, PrintTuples, AllSpace, Crossed, PrintClause, SqlStatements.Pieces, SqlStatements.Flatten;
    SplitDump(dump, gap);
    var ins := dump[k];
    var text := PrintTuples(ins.rows, gap) + (gap + ";");
    assert (ins.header + text)[|ins.header|..] == text;
    PrintedClause(ins.rows, gap);
    NoTail();
    ClauseRoundTrip(ins.rows, gap, true, []);
  }

  lemma PrintedClause(rows: seq<seq<Literal>>, gap: string)
    requires PrintableRows(rows)
    ensures PrintTuples(rows, gap) + (gap + ";") == PrintClause(rows, gap, true, [])
  {
    hide PrintTuples;
  }

  lemma NoTail()
    ensures AllSpace([])
  {
  }

  /** The clause parses to the rows, with every value at its place, unless a limit
      strikes. */
  ghost predicate ReadsBack(clause: string, rows: seq<seq<Literal>>, floats: Floats) {
    var (tuples, known) := RowsFrom(Trimmed(clause), 0, []);
    && known && |tuples| == |rows|
    && forall r :: 0 <= r < |rows| ==> RowReadsBack(tuples[r], rows[r], floats)
  }

  ghost predicate RowReadsBack(t: SqlTuple, row: seq<Literal>, floats: Floats) {
    && |t.tokens| == |row|
    && forall c :: 0 <= c < |row| ==> ParseSqlValue(t.tokens[c], floats) == ReadBack(row[c], floats)
  }

  lemma ClauseReadsBack(rows: seq<seq<Literal>>, gap: string, floats: Floats)
    requires PrintableRows(rows) && AllSpace(gap)
    ensures ReadsBack(PrintClause(rows, gap, true, []), rows, floats)
  {
    hide RowsFrom, Trimmed, PrintClause, PrintTuple, AllSpace, ParseSqlValue, PrintValue, Printable, ReadBack, Expected;
    NoTail();
    ClauseRoundTrip(rows, gap, true, []);
    forall r | 0 <= r < |rows|
      ensures RowReadsBack(Expected(rows, gap)[r], rows[r], floats)
    {
      forall c | 0 <= c < |rows[r]|
        ensures ParseSqlValue(Tokens(rows[r])[c], floats) == ReadBack(rows[r][c], floats)
      {
        ValueRoundTrip(rows[r][c], floats);
      }
    }
  }

  /** From dump to values: the k-th statement found reads back as the k-th rows. */
  lemma DumpValues(dump: seq<Statement>, gap: string, k: nat, floats: Floats)
    requires ProperDump(dump) && AllSpace(gap) && k < |dump| && dump[k].Insert?
    ensures var pieces := SqlStatements.Pieces(SqlStatements.Flatten(Texts(dump, gap)));
      && |pieces| == |dump| && dump[k].header <= pieces[k]
      && ReadsBack(pieces[k][|dump[k].header|..], dump[k].rows, floats)
  {
    hide ReadsBack, PrintTuples, PrintClause, AllSpace, Crossed, SqlStatements.Pieces, SqlStatements.Flatten;
    SplitDump(dump, gap);
    var ins := dump[k];
    var text := PrintTuples(ins.rows, gap) + (gap + ";");
    assert (ins.header + text)[|ins.header|..] == text;
    PrintedClause(ins.rows, gap);
    ClauseReadsBack(ins.rows, gap, floats);
  }

  /** The streaming reader, over any reads that deliver the printed dump, yields its
      statements, if they are within the length limit. */
  lemma ReadDump(dump: seq<Statement>, gap: string, chunks: seq<string>, limit: nat)
    requires ProperDump(dump) && AllSpace(gap)
    requires SqlStatements.Delivered(chunks) == SqlStatements.Flatten(Texts(dump, gap))
    requires SqlStatements.AllFit(Texts(dump, gap), limit)
    ensures SqlStatements.Expected(SqlStatements.Delivered(chunks), limit) == SqlStatements.Statements(Texts(dump, gap))
  {
    hide AllSpace, PrintStatement, SqlStatements.Pieces;
    SplitDump(dump, gap);
    if dump != [] {
      NotBlank(dump[|dump| - 1], gap);
    }
  }

  lemma NotBlank(st: Statement, gap: string)
    requires ProperStatement(st)
    ensures !SqlStatements.Blank(PrintStatement(st, gap))
  {
    hide PrintTuples, Crossed;
    var t := PrintStatement(st, gap);
    assert t[|t| - 1] == ';';
  }

  // ---------------------------------------------------------------- the end of a quoted token

  lemma UnitPassed(s: string, i: nat, q: char, u: Unit)
    requires ProperUnits(q, [u]) && At(s, i, SpellUnit(q, u))
    ensures i + |SpellUnit(q, u)| <= |s|
    ensures SqlTokens.CloseFrom(s, i, Inside(q)) == SqlTokens.CloseFrom(s, i + |SpellUnit(q, u)|, Inside(q))
  {
    hide At;
    var e := SpellUnit(q, u);
    assert ProperUnit(q, [u][0]);
    TextAt(s, i, e);
    AtChar(s, i, e, 0);
    if |e| == 2 {
      AtChar(s, i, e, 1);
    }
  }

  /** The scanner for a token passes over a spelled text. */
  lemma {:induction false} TextPassed(s: string, i: nat, q: char, units: seq<Unit>)
    requires ProperUnits(q, units) && At(s, i, Spell(q, units))
    ensures i + |Spell(q, units)| <= |s|
    ensures SqlTokens.CloseFrom(s, i, Inside(q)) == SqlTokens.CloseFrom(s, i + |Spell(q, units)|, Inside(q))
    decreases |units|
  {
    hide At, SpellUnit, ProperUnit, SqlTokens.CloseFrom;
    TextAt(s, i, Spell(q, units));
    if units != [] {
      var e, rest := SpellUnit(q, units[0]), Spell(q, units[1..]);
      AtParts(s, i, e, rest);
      UnitPassed(s, i, q, units[0]);
      TextPassed(s, i + |e|, q, units[1..]);
    }
  }

  /** A quoted token ends behind its closing quote; one without has no end. */
  lemma TokenEnds(s: string, i: nat, q: char, units: seq<Unit>)
    requires ProperUnits(q, units) && At(s, i, Spell(q, units))
    ensures var end := i + |Spell(q, units)|;
      && end <= |s|
      && (end == |s| ==> SqlTokens.CloseFrom(s, i, Inside(q)) == None)
      && (end < |s| && s[end] == q && (end + 1 == |s| || s[end + 1] != q) ==>
            SqlTokens.CloseFrom(s, i, Inside(q)) == Some(end + 1))
  {
    hide At, Spell;
    TextPassed(s, i, q, units);
  }
}
