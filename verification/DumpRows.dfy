/** From the bytes of a dump to the rows kept: the reader, the scanners and the filter
    one after the other.  On a printed dump the rows that reach the filter are the rows
    that were printed, each with the fault that its values give it. */
module DumpRows {
  import opened Options
  import opened Values
  import opened RelationshipIndex
  import opened ProvenRows
  import opened DumpRun
  import opened SqlValues
  import opened SqlRoundTrip
  import opened SqlDump
  import DumpFilter
  import PassLimit
  import SqlStatements

  // ---------------------------------------------------------------- one tuple

  const PHYSICAL := {
    "depth", "diameter", "height", "innerdiameter", "inner_diameter", "length", "measurement", "nominaldiameter",
    "nominal_diameter", "outerdiameter", "outer_diameter", "platelength", "plate_length", "platewidth", "plate_width",
    "plateheight", "plate_height", "radius", "thickness", "wallthickness", "wall_thickness", "width"}

  /** The table of an INSERT, its columns as they are written, and the case-folded
      columns that the table declares. */
  datatype Layout = Layout(table: string, columns: seq<string>, declared: set<string>)

  type Fold = string -> string

  predicate ColumnsFit(l: Layout, fold: Fold) {
    l.columns != [] && forall i :: 0 <= i < |l.columns| ==> fold(l.columns[i]) in l.declared
  }

  function ParseAll(tokens: seq<string>, floats: Floats): (parsed: seq<Parsed>)
    ensures |parsed| == |tokens| && forall i :: 0 <= i < |tokens| ==> parsed[i] == ParseSqlValue(tokens[i], floats)
  {
    seq(|tokens|, i requires 0 <= i < |tokens| => ParseSqlValue(tokens[i], floats))
  }

  /** The first value that cannot be read decides. */
  function FirstError(parsed: seq<Parsed>): Option<Reason> {
    if parsed == [] then None
    else
      match parsed[0]
      case TooLong => Some(FieldTooLong)
      case Unsupported => Some(MalformedInsert)
      case _ => FirstError(parsed[1..])
  }

  predicate Negative(v: Value) {
    (v.Int? && v.n < 0) || (v.Float? && v.r < 0.0)
  }

  /** The entries of a dictionary, in the order in which their names came first. */
  type Entries = seq<(string, Value)>

  /** A name that is there gets the new value at its place, another one comes last. */
  function Set(entries: Entries, name: string, v: Value): Entries {
    if entries == [] then [(name, v)]
    else if entries[0].0 == name then [(name, v)] + entries[1..]
    else [entries[0]] + Set(entries[1..], name, v)
  }

  /** Columns and values side by side. */
  function Zip(columns: seq<string>, values: seq<Value>): Entries
    requires |columns| == |values|
  {
    if columns == [] then []
    else
      var last := |columns| - 1;
      Set(Zip(columns[..last], values[..last]), columns[last], values[last])
  }

  /** The same under case-folded names; of two entries that fold alike the later counts. */
  function Folded(entries: Entries, fold: Fold): Fields {
    if entries == [] then map[]
    else
      var last := |entries| - 1;
      Folded(entries[..last], fold)[fold(entries[last].0) := entries[last].1]
  }

  predicate NegativeDimension(entries: Entries, fold: Fold) {
    exists i :: 0 <= i < |entries| && Negative(entries[i].1) && fold(entries[i].0) in PHYSICAL
  }

  /** The checks on a tuple alone, in the order of the source. */
  function FaultOf(l: Layout, parsed: seq<Parsed>, fold: Fold): Option<Reason> {
    if !ColumnsFit(l, fold) || |parsed| != |l.columns| then Some(MalformedInsert)
    else if FirstError(parsed).Some? then FirstError(parsed)
    else if exists i :: 0 <= i < |parsed| && parsed[i].Infinite? then Some(NonFiniteNumeric)
    else if NegativeDimension(Zip(l.columns, ReadValues(parsed)), fold) then Some(NegativePhysicalDimension)
    else None
  }

  function ReadValues(parsed: seq<Parsed>): (values: seq<Value>)
    ensures |values| == |parsed|
    ensures forall i :: 0 <= i < |parsed| && parsed[i].Ok? ==> values[i] == parsed[i].v
  {
    seq(|parsed|, i requires 0 <= i < |parsed| => if parsed[i].Ok? then parsed[i].v else Null)
  }

  function RowFrom(o: Outside, l: Layout, raw: string, parsed: seq<Parsed>): Row {
    var fault := FaultOf(l, parsed, o.fold);
    Row(l.table, if fault.None? then Folded(Zip(l.columns, ReadValues(parsed)), o.fold) else map[], o.digest(raw), fault)
  }

  // ---------------------------------------------------------------- the rows of a text

  /** What the pattern for INSERT statements finds: the layout, and the text behind
      VALUES. */
  datatype Head = Head(layout: Layout, clause: string)

  /** The outside world: that pattern, the reading of numerals, the folding of names, and
      the digest of a tuple. */
  datatype Outside = Outside(find: string -> Option<Head>, floats: Floats, fold: Fold, digest: string -> string)

  function TupleRows(o: Outside, l: Layout, tuples: seq<SqlTuple>): (rows: seq<Row>)
    ensures |rows| == |tuples|
    ensures forall i :: 0 <= i < |tuples| ==>
      rows[i] == RowFrom(o, l, tuples[i].raw, ParseAll(tuples[i].tokens, o.floats))
  {
    seq(|tuples|, i requires 0 <= i < |tuples| =>
      RowFrom(o, l, tuples[i].raw, ParseAll(tuples[i].tokens, o.floats)))
  }

  /** The rows of one statement; none if it is no INSERT or its rows cannot be told
      apart. */
  function StatementRows(o: Outside, statement: string): seq<Row> {
    match o.find(statement)
    case None => []
    case Some(head) =>
      var (tuples, known) := RowsFrom(Trimmed(head.clause), 0, []);
      if known then TupleRows(o, head.layout, tuples) else []
  }

  function TextRows(o: Outside, statements: seq<string>): seq<Row> {
    if statements == [] then []
    else
      var last := |statements| - 1;
      TextRows(o, statements[..last]) + StatementRows(o, statements[last])
  }

  method ReadStatement(o: Outside, statement: string) returns (rows: seq<Row>)
    ensures rows == StatementRows(o, statement)
  {
    hide RowsFrom, Trimmed, RowFrom;
    var head := o.find(statement);
    if head.None? {
      return [];
    }
    var tuples, known := ParseValuesRows(head.value.clause);
    if !known {
      return [];
    }
    rows := [];
    for i := 0 to |tuples|
      invariant rows == TupleRows(o, head.value.layout, tuples)[..i]
    {
      rows := rows + [RowFrom(o, head.value.layout, tuples[i].raw, ParseAll(tuples[i].tokens, o.floats))];
    }
  }

  /** The whole filter over the reads of a dump: nothing if a statement is too long, else
      the state and whether the pass limit struck. */
  method FilterText(ctx: Context, o: Outside, chunks: seq<string>, limit: nat) returns (r: Option<(State, bool)>)
    ensures var out := SqlStatements.Expected(SqlStatements.Delivered(chunks), limit);
      && (r.None? <==> out.LimitError?)
      && (r.Some? ==> r.value == Filter(ctx, TextRows(o, out.all), 32))
      && (r.Some? && !r.value.1 ==> Meaning(ctx, TextRows(o, out.all), r.value.0))
      && (r.Some? && PassLimit.Acyclic(ctx) && |ctx.schemas| < 32 ==> !r.value.1)
  {
    hide SqlStatements.Expected, Meaning, StatementRows, PassLimit.Acyclic, Filter;
    var out := SqlStatements.IterSqlStatements(chunks, limit);
    if out.LimitError? {
      return None;
    }
    var rows := [];
    for i := 0 to |out.all|
      invariant rows == TextRows(o, out.all[..i])
    {
      var more := ReadStatement(o, out.all[i]);
      assert out.all[..i + 1][..i] == out.all[..i];
      rows := rows + more;
    }
    assert out.all[..|out.all|] == out.all;
    var st, limited := DumpFilter.FilterSqlDump(ctx, rows);
    r := Some((st, limited));
  }

  // ---------------------------------------------------------------- the rows that were printed

  function ReadBacks(row: seq<Literal>, floats: Floats): (parsed: seq<Parsed>)
    ensures |parsed| == |row| && forall i :: 0 <= i < |row| ==> parsed[i] == ReadBack(row[i], floats)
  {
    seq(|row|, i requires 0 <= i < |row| => ReadBack(row[i], floats))
  }

  function PrintedRow(o: Outside, l: Layout, row: seq<Literal>, gap: string): Row
    requires PrintableRow(row)
  {
    RowFrom(o, l, PrintTuple(row, gap), ReadBacks(row, o.floats))
  }

  function InsertRows(o: Outside, l: Layout, rows: seq<seq<Literal>>, gap: string): (printed: seq<Row>)
    requires PrintableRows(rows)
    ensures |printed| == |rows| && forall i :: 0 <= i < |rows| ==> printed[i] == PrintedRow(o, l, rows[i], gap)
  {
    seq(|rows|, i requires 0 <= i < |rows| => PrintedRow(o, l, rows[i], gap))
  }

  /** The rows of a printed dump; `layouts` has one entry per statement. */
  function PrintedRows(o: Outside, dump: seq<Statement>, layouts: seq<Layout>, gap: string): seq<Row>
    requires ProperDump(dump) && |layouts| == |dump|
  {
    if dump == [] then []
    else
      var last := |dump| - 1;
      PrintedRows(o, dump[..last], layouts[..last], gap) +
      if dump[last].Insert? then InsertRows(o, layouts[last], dump[last].rows, gap) else []
  }

  /** The pattern finds the INSERT statements of the dump, and nothing else. */
  ghost predicate Recognised(o: Outside, dump: seq<Statement>, layouts: seq<Layout>, gap: string)
    requires ProperDump(dump) && |layouts| == |dump|
  {
    forall k :: 0 <= k < |dump| ==>
      o.find(PrintStatement(dump[k], gap)) ==
        if dump[k].Insert? then Some(Head(layouts[k], PrintClause(dump[k].rows, gap, true, []))) else None
  }

  /** A tuple read from the printed tokens is the printed row. */
  lemma TupleIsRow(o: Outside, l: Layout, row: seq<Literal>, gap: string)
    requires PrintableRow(row)
    ensures RowFrom(o, l, PrintTuple(row, gap), ParseAll(Tokens(row), o.floats)) == PrintedRow(o, l, row, gap)
  {
    hide PrintValue, PrintTuple, ParseSqlValue, ReadBack, RowFrom, Printable;
    var parsed := ParseAll(Tokens(row), o.floats);
    forall i | 0 <= i < |row|
      ensures parsed[i] == ReadBacks(row, o.floats)[i]
    {
      ValueRoundTrip(row[i], o.floats);
    }
    assert parsed == ReadBacks(row, o.floats);
  }

  lemma InsertIsRead(o: Outside, l: Layout, rows: seq<seq<Literal>>, gap: string)
    requires PrintableRows(rows) && AllSpace(gap)
    ensures RowsFrom(Trimmed(PrintClause(rows, gap, true, [])), 0, []) == (Expected(rows, gap), true)
    ensures TupleRows(o, l, Expected(rows, gap)) == InsertRows(o, l, rows, gap)
  {
    hide RowsFrom, Trimmed, PrintClause, RowFrom, PrintedRow, PrintTuple, ParseSqlValue, PrintableRow, Expected;
    NoTail();
    ClauseRoundTrip(rows, gap, true, []);
    forall r | 0 <= r < |rows|
      ensures TupleRows(o, l, Expected(rows, gap))[r] == InsertRows(o, l, rows, gap)[r]
    {
      TupleIsRow(o, l, rows[r], gap);
    }
  }

  /** The rows that the scanners find in a printed dump are the rows that were printed. */
  lemma {:induction false} RowsAreRead(o: Outside, dump: seq<Statement>, layouts: seq<Layout>, gap: string)
    requires ProperDump(dump) && |layouts| == |dump| && AllSpace(gap) && Recognised(o, dump, layouts, gap)
    ensures TextRows(o, Texts(dump, gap)) == PrintedRows(o, dump, layouts, gap)
  {
    hide PrintStatement, AllSpace, ProperStatement, RowsFrom, Trimmed, PrintClause, TupleRows, InsertRows, Expected;
    if dump != [] {
      var last := |dump| - 1;
      RowsAreRead(o, dump[..last], layouts[..last], gap);
      assert Texts(dump, gap)[..last] == Texts(dump[..last], gap);
      assert ProperStatement(dump[last]);
      if dump[last].Insert? {
        InsertProper(dump[last]);
        InsertIsRead(o, layouts[last], dump[last].rows, gap);
      }
    }
  }

  lemma InsertProper(st: Statement)
    requires st.Insert? && ProperStatement(st)
    ensures PrintableRows(st.rows)
  {
  }

  /** A printed dump, delivered in any reads: if it ends without the pass limit, the
      filter has done to the printed rows what Meaning says. */
  method FilterPrinted(ctx: Context, o: Outside, chunks: seq<string>, limit: nat,
                       ghost dump: seq<Statement>, ghost layouts: seq<Layout>, ghost gap: string)
    returns (r: Option<(State, bool)>)
    requires ProperDump(dump) && |layouts| == |dump| && AllSpace(gap) && Recognised(o, dump, layouts, gap)
    requires SqlStatements.Delivered(chunks) == SqlStatements.Flatten(Texts(dump, gap))
    ensures SqlStatements.AllFit(Texts(dump, gap), limit) ==>
      r == Some(Filter(ctx, PrintedRows(o, dump, layouts, gap), 32))
    ensures SqlStatements.AllFit(Texts(dump, gap), limit) && !r.value.1 ==>
      Meaning(ctx, PrintedRows(o, dump, layouts, gap), r.value.0)
    ensures r.Some? && PassLimit.Acyclic(ctx) && |ctx.schemas| < 32 ==> !r.value.1
  {
    hide Meaning, AllSpace, SqlStatements.Expected, PrintStatement, PassLimit.Acyclic, TextRows, Filter;
    r := FilterText(ctx, o, chunks, limit);
    if SqlStatements.AllFit(Texts(dump, gap), limit) {
      ReadDump(dump, gap, chunks, limit);
      RowsAreRead(o, dump, layouts, gap);
    }
  }

  // ---------------------------------------------------------------- the fields of a row

  /** Column i is the last of its name. */
  predicate LastOfName(columns: seq<string>, i: nat)
    requires i < |columns|
  {
    forall j :: i < j < |columns| ==> columns[j] != columns[i]
  }

  lemma {:induction false} SetHas(entries: Entries, name: string, v: Value, e: (string, Value))
    requires OneEach(entries)
    ensures OneEach(Set(entries, name, v))
    ensures e in Set(entries, name, v) <==> if e.0 == name then e.1 == v else e in entries
  {
    if entries != [] && entries[0].0 != name {
      SetHas(entries[1..], name, v, e);
      var rest := Set(entries[1..], name, v);
      forall k | 0 <= k < |rest|
        ensures rest[k].0 != entries[0].0
      {
        SetHas(entries[1..], name, v, rest[k]);
        assert rest[k] in rest;
      }
    }
  }

  /** No name occurs twice. */
  predicate OneEach(entries: Entries) {
    forall i, j :: 0 <= i < j < |entries| ==> entries[i].0 != entries[j].0
  }

  /** The dictionary holds, under each name, the last value given for it. */
  lemma {:induction false} ZipHas(columns: seq<string>, values: seq<Value>, e: (string, Value))
    requires |columns| == |values|
    ensures OneEach(Zip(columns, values))
    ensures e in Zip(columns, values) <==>
      exists i :: 0 <= i < |columns| && LastOfName(columns, i) && e == (columns[i], values[i])
  {
    if columns != [] {
      var last := |columns| - 1;
      var cs, vs := columns[..last], values[..last];
      ZipHas(cs, vs, e);
      SetHas(Zip(cs, vs), columns[last], values[last], e);
      if e.0 == columns[last] {
        assert LastOfName(columns, last);
      } else {
        forall i | 0 <= i < last && columns[i] == e.0
          ensures LastOfName(columns, i) <==> LastOfName(cs, i)
        {
        }
      }
    }
  }

  predicate Distinct(columns: seq<string>, fold: Fold) {
    forall i, j :: 0 <= i < j < |columns| ==> fold(columns[i]) != fold(columns[j])
  }

  lemma {:induction false} FoldedAt(entries: Entries, fold: Fold, i: nat)
    requires i < |entries| && forall j :: i < j < |entries| ==> fold(entries[j].0) != fold(entries[i].0)
    ensures Lookup(Folded(entries, fold), fold(entries[i].0)) == entries[i].1
  {
    var last := |entries| - 1;
    if i < last {
      FoldedAt(entries[..last], fold, i);
    }
  }

  /** With columns that differ when folded each field of a row is the value in its
      column. */
  lemma FieldAt(columns: seq<string>, values: seq<Value>, fold: Fold, i: nat)
    requires |columns| == |values| && Distinct(columns, fold) && i < |columns|
    ensures Lookup(Folded(Zip(columns, values), fold), fold(columns[i])) == values[i]
  {
    hide Zip, Folded;
    var entries := Zip(columns, values);
    ZipHas(columns, values, (columns[i], values[i]));
    assert LastOfName(columns, i);
    var k :| 0 <= k < |entries| && entries[k] == (columns[i], values[i]);
    forall j | k < j < |entries|
      ensures fold(entries[j].0) != fold(columns[i])
    {
      ZipHas(columns, values, entries[j]);
      assert entries[j] in entries && entries[j].0 != entries[k].0;
    }
    FoldedAt(entries, fold, k);
  }

  /** Column k gives a dimension, and the last value for it is below zero. */
  predicate BelowZero(columns: seq<string>, values: seq<Value>, fold: Fold, k: nat)
    requires |columns| == |values| && k < |columns|
  {
    && LastOfName(columns, k) && fold(columns[k]) in PHYSICAL
    && match values[k]
       case Int(n) => n < 0
       case Float(r) => r < 0.0
       case _ => false
  }

  /** A row has a negative dimension exactly when the last value given for some column
      that names a dimension is negative. */
  lemma NegativeIff(columns: seq<string>, values: seq<Value>, fold: Fold)
    requires |columns| == |values|
    ensures NegativeDimension(Zip(columns, values), fold) <==> exists k :: 0 <= k < |columns| && BelowZero(columns, values, fold, k)
  {
    hide Zip;
    var entries := Zip(columns, values);
    if NegativeDimension(entries, fold) {
      var i :| 0 <= i < |entries| && Negative(entries[i].1) && fold(entries[i].0) in PHYSICAL;
      ZipHas(columns, values, entries[i]);
      assert entries[i] in entries;
      var k :| 0 <= k < |columns| && LastOfName(columns, k) && entries[i] == (columns[k], values[k]);
      assert BelowZero(columns, values, fold, k);
    }
    forall k | 0 <= k < |columns| && BelowZero(columns, values, fold, k)
      ensures NegativeDimension(entries, fold)
    {
      ZipHas(columns, values, (columns[k], values[k]));
    }
  }

  // ---------------------------------------------------------------- the faults of a row

  predicate Readable(p: Parsed) {
    p.Ok? || p.Infinite?
  }

  /** The first value that cannot be read decides, and its kind of error. */
  lemma {:induction false} FirstErrorIs(parsed: seq<Parsed>, k: nat)
    requires k <= |parsed| && forall j :: 0 <= j < k ==> Readable(parsed[j])
    ensures k == |parsed| ==> FirstError(parsed) == None
    ensures k < |parsed| && parsed[k].TooLong? ==> FirstError(parsed) == Some(FieldTooLong)
    ensures k < |parsed| && parsed[k].Unsupported? ==> FirstError(parsed) == Some(MalformedInsert)
  {
    if k > 0 {
      forall j | 0 <= j < k - 1
        ensures Readable(parsed[1..][j])
      {
        assert Readable(parsed[j + 1]);
      }
      FirstErrorIs(parsed[1..], k - 1);
    }
  }

  /** A row has no fault exactly when it has a value for every column, the table declares
      the columns, every value is read, and no dimension is below zero.  Otherwise the first
      of these that fails gives the reason; of the values, the first one. */
  lemma FaultIs(l: Layout, parsed: seq<Parsed>, fold: Fold, k: nat)
    requires k <= |parsed| && forall j :: 0 <= j < k ==> Readable(parsed[j])
    ensures var fits := |l.columns| == |parsed| > 0 && forall i :: 0 <= i < |l.columns| ==> fold(l.columns[i]) in l.declared;
      var infinite := exists i :: 0 <= i < |parsed| && parsed[i].Infinite?;
      && (!fits ==> FaultOf(l, parsed, fold) == Some(MalformedInsert))
      && (fits && k < |parsed| && parsed[k].TooLong? ==> FaultOf(l, parsed, fold) == Some(FieldTooLong))
      && (fits && k < |parsed| && parsed[k].Unsupported? ==> FaultOf(l, parsed, fold) == Some(MalformedInsert))
      && (fits && k == |parsed| && infinite ==> FaultOf(l, parsed, fold) == Some(NonFiniteNumeric))
      && (fits && k == |parsed| && !infinite ==>
          FaultOf(l, parsed, fold) ==
            if exists i :: 0 <= i < |parsed| && BelowZero(l.columns, ReadValues(parsed), fold, i) then Some(NegativePhysicalDimension) else None)
  {
    hide FirstError, Zip, NegativeDimension, BelowZero, Readable;
    FirstErrorIs(parsed, k);
    if |l.columns| == |parsed| {
      NegativeIff(l.columns, ReadValues(parsed), fold);
    }
  }

  /** A row has no fault exactly when its columns fit, every value is read and finite, and
      no dimension is below zero. */
  lemma NoFaultIff(l: Layout, parsed: seq<Parsed>, fold: Fold)
    ensures FaultOf(l, parsed, fold).None? <==>
      && |l.columns| == |parsed| > 0 && (forall i :: 0 <= i < |parsed| ==> fold(l.columns[i]) in l.declared)
      && (forall i :: 0 <= i < |parsed| ==> parsed[i].Ok?)
      && (forall i :: 0 <= i < |parsed| ==> !BelowZero(l.columns, ReadValues(parsed), fold, i))
  {
    hide FirstError, Zip, NegativeDimension, BelowZero;
    if FirstError(parsed).None? {
      forall i | 0 <= i < |parsed|
        ensures Readable(parsed[i])
      {
        ErrorFree(parsed, i);
      }
    } else if forall i :: 0 <= i < |parsed| ==> Readable(parsed[i]) {
      FirstErrorIs(parsed, |parsed|);
    }
    if |l.columns| == |parsed| {
      NegativeIff(l.columns, ReadValues(parsed), fold);
    }
  }

  /** A printed row has the table and the digest of its text, and no fault as NoFaultIff
      says; then, with columns that differ when folded, every field is what its literal
      reads as. */
  lemma PrintedRowIs(o: Outside, l: Layout, row: seq<Literal>, gap: string, i: nat)
    requires PrintableRow(row) && i < |row|
    ensures var r := PrintedRow(o, l, row, gap);
      && r.table == l.table && r.rowHash == o.digest("(" + (Body(row, gap) + ")"))
      && r.fault == FaultOf(l, ReadBacks(row, o.floats), o.fold)
      && (r.fault.None? <==>
            && |l.columns| == |row| && (forall k :: 0 <= k < |row| ==> o.fold(l.columns[k]) in l.declared)
            && (forall k :: 0 <= k < |row| ==> ReadBack(row[k], o.floats).Ok?)
            && (forall k :: 0 <= k < |row| ==> !BelowZero(l.columns, ReadValues(ReadBacks(row, o.floats)), o.fold, k)))
      && (r.fault.None? && Distinct(l.columns, o.fold) ==>
          Lookup(r.fields, o.fold(l.columns[i])) == ReadBack(row[i], o.floats).v)
  {
    hide Body, ReadBack, FaultOf, Zip, Folded, Printable, BelowZero;
    var parsed := ReadBacks(row, o.floats);
    NoFaultIff(l, parsed, o.fold);
    if PrintedRow(o, l, row, gap).fault.None? && Distinct(l.columns, o.fold) {
      FieldAt(l.columns, ReadValues(parsed), o.fold, i);
    }
  }

  lemma {:induction false} ErrorFree(parsed: seq<Parsed>, i: nat)
    requires FirstError(parsed).None? && i < |parsed|
    ensures Readable(parsed[i])
  {
    if i > 0 {
      ErrorFree(parsed[1..], i - 1);
    }
  }

  // ---------------------------------------------------------------- the names of dimensions

  /** Two words, written together or with an underscore between them. */
  predicate TwoWords(name: string, a: string, b: string) {
    name == a + b || name == a + "_" + b
  }

  predicate OneWord(name: string) {
    || name == "depth" || name == "diameter" || name == "height" || name == "length"
    || name == "measurement" || name == "radius" || name == "thickness" || name == "width"
  }

  lemma Joins()
    ensures "inner" + "diameter" == "innerdiameter" && "inner" + "_" + "diameter" == "inner_diameter"
    ensures "nominal" + "diameter" == "nominaldiameter" && "nominal" + "_" + "diameter" == "nominal_diameter"
    ensures "outer" + "diameter" == "outerdiameter" && "outer" + "_" + "diameter" == "outer_diameter"
    ensures "plate" + "length" == "platelength" && "plate" + "_" + "length" == "plate_length"
    ensures "plate" + "width" == "platewidth" && "plate" + "_" + "width" == "plate_width"
    ensures "plate" + "height" == "plateheight" && "plate" + "_" + "height" == "plate_height"
    ensures "wall" + "thickness" == "wallthickness" && "wall" + "_" + "thickness" == "wall_thickness"
  {
  }

  /** The dimensions are eight words and seven pairs of words. */
  lemma DimensionIff(name: string)
    ensures name in PHYSICAL <==>
      || OneWord(name) || TwoWords(name, "inner", "diameter") || TwoWords(name, "nominal", "diameter")
      || TwoWords(name, "outer", "diameter") || TwoWords(name, "plate", "length") || TwoWords(name, "plate", "width")
      || TwoWords(name, "plate", "height") || TwoWords(name, "wall", "thickness")
  {
    Joins();
  }
}
