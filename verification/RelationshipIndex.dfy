/** The relationship filter of the legacy SQL dump reader.

    A dump row is kept when its sequence number is proved, directly by a SeqNo
    column or through foreign keys into rows that were kept themselves.  Rows
    whose parents are not known yet wait, and are replayed until a pass makes no
    progress.  This module says what a row's verdict is and how the key index is
    built up. */
module RelationshipIndex {
  import opened Options
  import opened Values
  import Picking

  // ---------------------------------------------------------------- data

  /** What a dictionary lookup compares: 1 and 1.0 are the same key. */
  datatype Key = Number(r: real) | Chars(s: string)

  type Fields = map<string, Value>

  /** One parsed tuple, its column names already case-folded.  `fault` is the
      reason the checks on the tuple alone reject it, if they do. */
  datatype Row = Row(table: string, fields: Fields, rowHash: string, fault: Option<Reason>)

  datatype ForeignKey = ForeignKey(local: string, parentTable: string, parentColumn: string)

  datatype Schema = Schema(foreignKeys: seq<ForeignKey>)

  datatype Slot = Slot(table: string, column: string, key: Key)

  /** `Conflict` is the source's None: rows with different numbers share the key. */
  datatype Entry = Seq(n: int) | Conflict

  type Index = map<Slot, Entry>

  datatype Verdict = Accepted(n: int) | Pending | Conflicting | NotTarget | Unproven

  datatype Reason =
    | SchemaUnknown | MalformedInsert | FieldTooLong | InvalidTextEncoding
    | NonFiniteNumeric | NegativePhysicalDimension
    | RelationshipConflict | SeqNotTarget | RelationshipUnproven

  datatype Kept = Kept(row: Row, n: int)

  datatype Refused = Refused(row: Row, reason: Reason)

  datatype Context = Context(schemas: map<string, Schema>, targets: set<int>)

  function Lookup(fields: Fields, column: string): Value {
    if column in fields then fields[column] else Null
  }

  function KeyOf(v: Value): Key
    requires !v.Null?
  {
    match v
    case Int(n) => Number(n as real)
    case Float(r) => Number(r)
    case Text(s) => Chars(s)
  }

  function ForeignKeys(ctx: Context, row: Row): seq<ForeignKey> {
    if row.table in ctx.schemas then ctx.schemas[row.table].foreignKeys else []
  }

  predicate Active(fk: ForeignKey, row: Row) {
    !Lookup(row.fields, fk.local).Null?
  }

  /** The index slot a row asks for through one of its foreign keys. */
  function Asks(fk: ForeignKey, row: Row): Slot
    requires Active(fk, row)
  {
    Slot(fk.parentTable, fk.parentColumn, KeyOf(Lookup(row.fields, fk.local)))
  }

  /** The row is in the slot's table and carries the slot's key. */
  predicate Supplies(row: Row, slot: Slot) {
    && row.table == slot.table
    && !Lookup(row.fields, slot.column).Null?
    && KeyOf(Lookup(row.fields, slot.column)) == slot.key
  }

  /** Two values that a dictionary takes for the same key: equal texts, or numbers of
      equal value. */
  predicate SameKey(a: Value, b: Value) {
    match (a, b)
    case (Text(s), Text(t)) => s == t
    case (Int(m), Int(n)) => m == n
    case (Int(m), Float(r)) => m as real == r
    case (Float(r), Int(m)) => r == m as real
    case (Float(q), Float(r)) => q == r
    case _ => false
  }

  /** A parent serves a foreign key of a child exactly when it is in the table that the
      key names and its value there is the same key as the child's. */
  lemma SuppliesIff(p: Row, fk: ForeignKey, c: Row)
    requires Active(fk, c)
    ensures Supplies(p, Asks(fk, c)) <==>
      && p.table == fk.parentTable
      && fk.parentColumn in p.fields && fk.local in c.fields
      && SameKey(p.fields[fk.parentColumn], c.fields[fk.local])
  {
  }

  /** Some table declares a foreign key onto this table and column. */
  predicate Demanded(ctx: Context, table: string, column: string) {
    exists t, i :: t in ctx.schemas && 0 <= i < |ctx.schemas[t].foreignKeys|
      && ctx.schemas[t].foreignKeys[i].parentTable == table
      && ctx.schemas[t].foreignKeys[i].parentColumn == column
  }

  lemma DemandedIff(ctx: Context, table: string, column: string)
    ensures Demanded(ctx, table, column) <==>
      exists t, fk :: t in ctx.schemas && fk in ctx.schemas[t].foreignKeys && fk.parentTable == table && fk.parentColumn == column
  {
  }

  // ---------------------------------------------------------------- verdict of one row

  function Direct(row: Row): set<int> {
    var v := Lookup(row.fields, "seqno");
    if v.Int? then {v.n} else {}
  }

  predicate Resolved(fk: ForeignKey, row: Row, index: Index) {
    Active(fk, row) && Asks(fk, row) in index
  }

  predicate Ambiguous(fk: ForeignKey, row: Row, index: Index) {
    Resolved(fk, row, index) && index[Asks(fk, row)] == Conflict
  }

  predicate Missing(fk: ForeignKey, row: Row, index: Index) {
    Active(fk, row) && Asks(fk, row) !in index
  }

  function Proofs(fks: seq<ForeignKey>, row: Row, index: Index): set<int> {
    Direct(row) +
    set fk | fk in fks && Resolved(fk, row, index) && index[Asks(fk, row)].Seq? :: index[Asks(fk, row)].n
  }

  ghost predicate AnyAmbiguous(fks: seq<ForeignKey>, row: Row, index: Index) {
    exists fk :: fk in fks && Ambiguous(fk, row, index)
  }

  ghost predicate AnyMissing(fks: seq<ForeignKey>, row: Row, index: Index) {
    exists fk :: fk in fks && Missing(fk, row, index)
  }

  ghost predicate Disagree(proofs: set<int>) {
    exists m, n :: m in proofs && n in proofs && m != n
  }

  ghost function Conclude(ambiguous: bool, proofs: set<int>, missing: bool, targets: set<int>): Verdict {
    if ambiguous || Disagree(proofs) then Conflicting
    else if missing then Pending
    else if proofs == {} then Unproven
    else
      var n := Picking.Any(proofs);
      if n in targets then Accepted(n) else NotTarget
  }

  /** The verdict, as a statement about all foreign keys at once. */
  ghost function Judge(fks: seq<ForeignKey>, row: Row, targets: set<int>, index: Index): Verdict {
    Conclude(AnyAmbiguous(fks, row, index), Proofs(fks, row, index), AnyMissing(fks, row, index), targets)
  }

  /** The value in a column is there and not null. */
  predicate Filled(row: Row, column: string) {
    column in row.fields && row.fields[column] != Null
  }

  /** What the index says about a filled foreign key of the row. */
  function Answer(fk: ForeignKey, row: Row, index: Index): Option<Entry>
    requires Filled(row, fk.local)
  {
    var slot := Slot(fk.parentTable, fk.parentColumn, KeyOf(row.fields[fk.local]));
    if slot in index then Some(index[slot]) else None
  }

  /** The number n is the row's own, or the answer to one of its keys. */
  ghost predicate Says(fks: seq<ForeignKey>, row: Row, index: Index, n: int) {
    || ("seqno" in row.fields && row.fields["seqno"] == Int(n))
    || exists fk :: fk in fks && Filled(row, fk.local) && Answer(fk, row, index) == Some(Seq(n))
  }

  lemma SaysIsProof(fks: seq<ForeignKey>, row: Row, index: Index, n: int)
    ensures n in Proofs(fks, row, index) <==> Says(fks, row, index, n)
  {
    if Says(fks, row, index, n) && n !in Direct(row) {
      var fk :| fk in fks && Filled(row, fk.local) && Answer(fk, row, index) == Some(Seq(n));
      assert Resolved(fk, row, index);
    }
    if n in Proofs(fks, row, index) && n !in Direct(row) {
      var fk :| fk in fks && Resolved(fk, row, index) && index[Asks(fk, row)] == Seq(n);
      assert Filled(row, fk.local) && Answer(fk, row, index) == Some(Seq(n));
    }
  }

  ghost predicate Clashes(fks: seq<ForeignKey>, row: Row, index: Index) {
    || (exists fk :: fk in fks && Filled(row, fk.local) && Answer(fk, row, index) == Some(Conflict))
    || (exists m, n :: Says(fks, row, index, m) && Says(fks, row, index, n) && m != n)
  }

  ghost predicate Waits(fks: seq<ForeignKey>, row: Row, index: Index) {
    exists fk :: fk in fks && Filled(row, fk.local) && Answer(fk, row, index) == None
  }

  lemma ClashIs(fks: seq<ForeignKey>, row: Row, index: Index)
    ensures Clashes(fks, row, index) <==> AnyAmbiguous(fks, row, index) || Disagree(Proofs(fks, row, index))
    ensures Waits(fks, row, index) <==> AnyMissing(fks, row, index)
  {
    forall n
      ensures n in Proofs(fks, row, index) <==> Says(fks, row, index, n)
    {
      SaysIsProof(fks, row, index, n);
    }
    forall fk | fk in fks
      ensures Ambiguous(fk, row, index) <==> Filled(row, fk.local) && Answer(fk, row, index) == Some(Conflict)
      ensures Missing(fk, row, index) <==> Filled(row, fk.local) && Answer(fk, row, index) == None
    {
    }
  }

  /** The five verdicts in terms of the row and the answers alone. */
  lemma VerdictIff(fks: seq<ForeignKey>, row: Row, targets: set<int>, index: Index)
    ensures var v := Judge(fks, row, targets, index);
      && (v == Conflicting <==> Clashes(fks, row, index))
      && (v == Pending <==> !Clashes(fks, row, index) && Waits(fks, row, index))
      && (v == Unproven <==> !Waits(fks, row, index) && !Clashes(fks, row, index) && forall n :: !Says(fks, row, index, n))
      && (forall n :: v == Accepted(n) <==>
            !Waits(fks, row, index) && !Clashes(fks, row, index) && Says(fks, row, index, n) && n in targets)
      && (v == NotTarget <==>
            !Waits(fks, row, index) && !Clashes(fks, row, index) && exists n :: Says(fks, row, index, n) && n !in targets)
  {
    hide Says, Clashes, Waits, Proofs, AnyAmbiguous, AnyMissing;
    ClashIs(fks, row, index);
    forall n
      ensures n in Proofs(fks, row, index) <==> Says(fks, row, index, n)
    {
      SaysIsProof(fks, row, index, n);
    }
  }

  function Contribution(fk: ForeignKey, row: Row, index: Index): set<int> {
    if Resolved(fk, row, index) && index[Asks(fk, row)].Seq? then {index[Asks(fk, row)].n} else {}
  }

  lemma OneMoreKey(fks: seq<ForeignKey>, i: nat, row: Row, index: Index)
    requires i < |fks|
    ensures Proofs(fks[..i + 1], row, index) == Proofs(fks[..i], row, index) + Contribution(fks[i], row, index)
    ensures AnyMissing(fks[..i + 1], row, index) <==> AnyMissing(fks[..i], row, index) || Missing(fks[i], row, index)
    ensures AnyAmbiguous(fks[..i + 1], row, index) <==>
            AnyAmbiguous(fks[..i], row, index) || Ambiguous(fks[i], row, index)
    ensures Ambiguous(fks[i], row, index) ==> AnyAmbiguous(fks, row, index)
  {
    assert fks[..i + 1] == fks[..i] + [fks[i]];
    assert forall k :: k in fks[..i + 1] <==> k in fks[..i] || k == fks[i];
  }

  /** The loop of the source: one foreign key after the other, leaving early on
      an ambiguous key. */
  method RowTargetSeq(fks: seq<ForeignKey>, row: Row, targets: set<int>, index: Index) returns (v: Verdict)
    ensures v == Judge(fks, row, targets, index)
  {
    var proofs := {};
    var unresolved := false;
    var direct := Lookup(row.fields, "seqno");
    if direct.Int? {
      proofs := proofs + {direct.n};
    }
    assert proofs == Proofs([], row, index);
    for i := 0 to |fks|
      invariant proofs == Proofs(fks[..i], row, index)
      invariant unresolved <==> AnyMissing(fks[..i], row, index)
      invariant !AnyAmbiguous(fks[..i], row, index)
    {
      OneMoreKey(fks, i, row, index);
      var fk := fks[i];
      var value := Lookup(row.fields, fk.local);
      if value.Null? {
        continue;
      }
      var slot := Slot(fk.parentTable, fk.parentColumn, KeyOf(value));
      if slot !in index {
        unresolved := true;
      } else if index[slot] == Conflict {
        return Conflicting;
      } else {
        proofs := proofs + {index[slot].n};
      }
    }
    assert fks[..|fks|] == fks;
    v := Decide(proofs, unresolved, targets);
  }

  method Decide(proofs: set<int>, unresolved: bool, targets: set<int>) returns (v: Verdict)
    ensures v == Conclude(false, proofs, unresolved, targets)
  {
    TwoOrMore(proofs);
    if |proofs| > 1 {
      return Conflicting;
    }
    if unresolved {
      return Pending;
    }
    if |proofs| == 1 {
      ghost var any := Picking.Any(proofs);
      var proof :| proof in proofs;
      return if proof in targets then Accepted(proof) else NotTarget;
    }
    return Unproven;
  }

  lemma TwoOrMore(s: set<int>)
    ensures |s| > 1 <==> Disagree(s)
  {
    if Disagree(s) {
      var m, n :| m in s && n in s && m != n;
      assert |s - {m} - {n}| == |s| - 2;
    }
    if |s| > 1 {
      var m := Picking.Any(s);
      assert |s - {m}| == |s| - 1;
      var n := Picking.Any(s - {m});
    }
  }

  // ---------------------------------------------------------------- the key index

  function Get(index: Index, slot: Slot): Option<Entry> {
    if slot in index then Some(index[slot]) else None
  }

  /** One more row with number n carries the key. */
  function Bump(e: Option<Entry>, n: int): Option<Entry> {
    match e
    case None => Some(Seq(n))
    case Some(entry) => if entry == Seq(n) then e else Some(Conflict)
  }

  predicate DemandedSlot(ctx: Context, slot: Slot) {
    Demanded(ctx, slot.table, slot.column)
  }

  /** What a plain scan of the indexed rows says about one slot. */
  ghost predicate Agrees(e: Option<Entry>, indexed: seq<Kept>, slot: Slot) {
    match e
    case None => forall i :: 0 <= i < |indexed| ==> !Supplies(indexed[i].row, slot)
    case Some(Seq(n)) =>
      && (exists i :: 0 <= i < |indexed| && Supplies(indexed[i].row, slot))
      && (forall i :: 0 <= i < |indexed| && Supplies(indexed[i].row, slot) ==> indexed[i].n == n)
    case Some(Conflict) =>
      exists i, j :: 0 <= i < |indexed| && 0 <= j < |indexed|
        && Supplies(indexed[i].row, slot) && Supplies(indexed[j].row, slot) && indexed[i].n != indexed[j].n
  }

  ghost predicate IndexAgrees(ctx: Context, index: Index, indexed: seq<Kept>) {
    && (forall slot :: slot in index ==> DemandedSlot(ctx, slot))
    && (forall slot :: DemandedSlot(ctx, slot) ==> Agrees(Get(index, slot), indexed, slot))
  }

  /** Entries move from absent to a number to conflict, and no other way. */
  predicate Below(e: Option<Entry>, e': Option<Entry>) {
    e.None? || e == e' || e' == Some(Conflict)
  }

  ghost predicate Grows(index: Index, index': Index) {
    forall slot :: Below(Get(index, slot), Get(index', slot))
  }

  /** The index after one more row, slot by slot. */
  ghost predicate Extended(ctx: Context, index: Index, k: Kept, index': Index) {
    forall slot :: Get(index', slot) == (
      if DemandedSlot(ctx, slot) && Supplies(k.row, slot) then Bump(Get(index, slot), k.n) else Get(index, slot))
  }

  lemma AgreesStep(e: Option<Entry>, indexed: seq<Kept>, slot: Slot, k: Kept)
    requires Agrees(e, indexed, slot)
    ensures Agrees(if Supplies(k.row, slot) then Bump(e, k.n) else e, indexed + [k], slot)
  {
    var more := indexed + [k];
    assert more[|indexed|] == k;
    assert forall i :: 0 <= i < |indexed| ==> more[i] == indexed[i];
    if e.Some? && e.value.Seq? && Supplies(k.row, slot) && k.n != e.value.n {
      var i :| 0 <= i < |indexed| && Supplies(indexed[i].row, slot);
      assert Supplies(more[i].row, slot) && more[i].n != more[|indexed|].n;
    } else if e.Some? && e.value.Conflict? {
      var i, j :| 0 <= i < |indexed| && 0 <= j < |indexed|
        && Supplies(indexed[i].row, slot) && Supplies(indexed[j].row, slot) && indexed[i].n != indexed[j].n;
      assert Supplies(more[i].row, slot) && Supplies(more[j].row, slot) && more[i].n != more[j].n;
    }
  }

  /** The incremental index stays the scan of the rows indexed so far, and grows. */
  lemma IndexStep(ctx: Context, index: Index, indexed: seq<Kept>, k: Kept, index': Index)
    requires IndexAgrees(ctx, index, indexed)
    requires Extended(ctx, index, k, index')
    ensures IndexAgrees(ctx, index', indexed + [k])
    ensures Grows(index, index')
  {
    forall slot | DemandedSlot(ctx, slot)
      ensures Agrees(Get(index', slot), indexed + [k], slot)
    {
      AgreesStep(Get(index, slot), indexed, slot, k);
    }
    forall slot | slot in index'
      ensures DemandedSlot(ctx, slot)
    {
      assert Get(index', slot).Some?;
    }
  }

  /** The columns of `table` that some foreign key points at. */
  function DemandedColumns(ctx: Context, table: string): set<string> {
    set t, i | t in ctx.schemas && 0 <= i < |ctx.schemas[t].foreignKeys|
      && ctx.schemas[t].foreignKeys[i].parentTable == table
      :: ctx.schemas[t].foreignKeys[i].parentColumn
  }

  /** The index after the given columns of one row. */
  ghost predicate ExtendedOn(columns: set<string>, index: Index, k: Kept, index': Index) {
    forall slot :: Get(index', slot) == (
      if slot.column in columns && Supplies(k.row, slot) then Bump(Get(index, slot), k.n) else Get(index, slot))
  }

  lemma OneMoreColumn(columns: set<string>, column: string, index: Index, k: Kept, mid: Index, index': Index)
    requires column !in columns
    requires ExtendedOn(columns, index, k, mid) && ExtendedOn({column}, mid, k, index')
    ensures ExtendedOn(columns + {column}, index, k, index')
  {
  }

  /** The demanded slots that a row supplies. */
  function SuppliedSlots(ctx: Context, row: Row): set<Slot> {
    set column | column in DemandedColumns(ctx, row.table) && !Lookup(row.fields, column).Null?
      :: Slot(row.table, column, KeyOf(Lookup(row.fields, column)))
  }

  /** The index after one more row. */
  function Enter(ctx: Context, index: Index, k: Kept): (index': Index)
    ensures Extended(ctx, index, k, index')
  {
    var slots := SuppliedSlots(ctx, k.row);
    assert forall slot :: slot in slots <==> DemandedSlot(ctx, slot) && Supplies(k.row, slot);
    map slot | slot in index.Keys + slots :: if slot in slots then Bump(Get(index, slot), k.n).value else index[slot]
  }

  /** Slot by slot is enough: there is only one such index. */
  lemma OneIndex(ctx: Context, index: Index, k: Kept, a: Index, b: Index)
    requires Extended(ctx, index, k, a) && Extended(ctx, index, k, b)
    ensures a == b
  {
    forall slot
      ensures slot in a <==> slot in b
      ensures slot in a && slot in b ==> a[slot] == b[slot]
    {
      assert Get(a, slot) == Get(b, slot);
    }
  }

  method EnterColumn(index: Index, k: Kept, column: string) returns (index': Index)
    ensures ExtendedOn({column}, index, k, index')
  {
    index' := index;
    var value := Lookup(k.row.fields, column);
    if !value.Null? {
      var slot := Slot(k.row.table, column, KeyOf(value));
      if slot !in index {
        index' := index[slot := Seq(k.n)];
      } else if index[slot] != Seq(k.n) {
        index' := index[slot := Conflict];
      }
    }
  }

  method AddRelationships(ctx: Context, index: Index, k: Kept) returns (index': Index)
    ensures Extended(ctx, index, k, index') && index' == Enter(ctx, index, k)
  {
    index' := index;
    var todo := DemandedColumns(ctx, k.row.table);
    ghost var done := {};
    while todo != {}
      invariant done !! todo && done + todo == DemandedColumns(ctx, k.row.table)
      invariant ExtendedOn(done, index, k, index')
      decreases |todo|
    {
      var column :| column in todo;
      ghost var mid := index';
      index' := EnterColumn(index', k, column);
      OneMoreColumn(done, column, index, k, mid, index');
      done, todo := done + {column}, todo - {column};
    }
    assert done == DemandedColumns(ctx, k.row.table);
    OneIndex(ctx, index, k, index', Enter(ctx, index, k));
  }
}
