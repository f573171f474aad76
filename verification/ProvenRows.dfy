/** Which rows a finished filter run has kept: the least set closed under the
    proof rule, whatever the order of the dump, as long as no row of that set
    leads to a contested key. */
module ProvenRows {
  import opened Options
  import opened Values
  import opened RelationshipIndex
  import Picking

  // ---------------------------------------------------------------- how a kept row is indexed

  const STAMPS := {"legacyseqno", "legacytable", "originalrowhash", "originalrowhashalgorithm"}

  /** A kept row as it is written out: four columns are added. */
  function Stamped(k: Kept): Row {
    k.row.(fields := k.row.fields[
      "legacyseqno" := Int(k.n)][
      "legacytable" := Text(k.row.table)][
      "originalrowhash" := Text(k.row.rowHash)][
      "originalrowhashalgorithm" := Text("sha256-raw-sql-tuple-bytes-v1")])
  }

  /** The written row keeps its columns and says where it comes from. */
  lemma StampedIs(k: Kept, column: string)
    ensures var r := Stamped(k);
      && r.table == k.row.table && r.rowHash == k.row.rowHash && r.fault == k.row.fault
      && Lookup(r.fields, column) == match column
        case "legacyseqno" => Int(k.n)
        case "legacytable" => Text(k.row.table)
        case "originalrowhash" => Text(k.row.rowHash)
        case "originalrowhashalgorithm" => Text("sha256-raw-sql-tuple-bytes-v1")
        case _ => Lookup(k.row.fields, column)
  {
  }

  predicate HasParents(ctx: Context, row: Row) {
    exists fk :: fk in ForeignKeys(ctx, row) && Active(fk, row)
  }

  /** Rows without parents are kept while reading and indexed from the written
      output, with the added columns; rows that waited are indexed as they are. */
  function AsIndexed(ctx: Context, k: Kept): Row {
    if HasParents(ctx, k.row) then k.row else Stamped(k)
  }

  /** The kept row provides the slot's key to other rows. */
  predicate Carries(ctx: Context, k: Kept, slot: Slot) {
    Supplies(AsIndexed(ctx, k), slot)
  }

  /** No foreign key points at one of the added columns. */
  ghost predicate NoStampDemanded(ctx: Context) {
    forall table, column :: column in STAMPS ==> !Demanded(ctx, table, column)
  }

  /** Then a row provides exactly the keys in its own columns. */
  lemma StampHarmless(ctx: Context, k: Kept, slot: Slot)
    requires NoStampDemanded(ctx) && DemandedSlot(ctx, slot)
    ensures Carries(ctx, k, slot) <==> Supplies(k.row, slot)
  {
    assert slot.column !in STAMPS;
    assert Lookup(Stamped(k).fields, slot.column) == Lookup(k.row.fields, slot.column);
  }

  /** The added columns play no part exactly when no foreign key points at one. */
  lemma StampsIff(ctx: Context)
    ensures (forall k, slot :: DemandedSlot(ctx, slot) ==> (Carries(ctx, k, slot) <==> Supplies(k.row, slot)))
            <==> NoStampDemanded(ctx)
  {
    if NoStampDemanded(ctx) {
      forall k, slot | DemandedSlot(ctx, slot)
        ensures Carries(ctx, k, slot) <==> Supplies(k.row, slot)
      {
        StampHarmless(ctx, k, slot);
      }
    } else {
      var table, column :| column in STAMPS && Demanded(ctx, table, column);
      var k := Kept(Row(table, map[], "", None), 0);
      var slot := Slot(table, column, KeyOf(Stamped(k).fields[column]));
      assert !HasParents(ctx, k.row);
      assert Carries(ctx, k, slot) && !Supplies(k.row, slot);
    }
  }

  /** The value that a kept row provides in a column: its own, or, if it has no parents,
      one of the four added ones. */
  function Provides(ctx: Context, k: Kept, column: string): Value {
    if HasParents(ctx, k.row) then Lookup(k.row.fields, column)
    else if column == "legacyseqno" then Int(k.n)
    else if column == "legacytable" then Text(k.row.table)
    else if column == "originalrowhash" then Text(k.row.rowHash)
    else if column == "originalrowhashalgorithm" then Text("sha256-raw-sql-tuple-bytes-v1")
    else Lookup(k.row.fields, column)
  }

  /** A kept row serves a foreign key exactly when its table is the one named and the
      value it provides there is the same key. */
  lemma CarriesIff(ctx: Context, k: Kept, fk: ForeignKey, c: Row)
    requires Active(fk, c)
    ensures Carries(ctx, k, Asks(fk, c)) <==>
      k.row.table == fk.parentTable && SameKey(Provides(ctx, k, fk.parentColumn), c.fields[fk.local])
  {
    SuppliesIff(AsIndexed(ctx, k), fk, c);
    var row := AsIndexed(ctx, k);
    assert Lookup(row.fields, fk.parentColumn) == Provides(ctx, k, fk.parentColumn);
  }

  /** A row has parents exactly when one of the columns of its foreign keys is filled. */
  lemma HasParentsIff(ctx: Context, row: Row)
    ensures HasParents(ctx, row) <==>
      && row.table in ctx.schemas
      && exists i :: 0 <= i < |ctx.schemas[row.table].foreignKeys| && Filled(row, ctx.schemas[row.table].foreignKeys[i].local)
  {
    if HasParents(ctx, row) {
      var fk :| fk in ForeignKeys(ctx, row) && Active(fk, row);
      var i :| 0 <= i < |ForeignKeys(ctx, row)| && ForeignKeys(ctx, row)[i] == fk;
      assert Filled(row, ctx.schemas[row.table].foreignKeys[i].local);
    } else {
      forall i | row.table in ctx.schemas && 0 <= i < |ctx.schemas[row.table].foreignKeys|
        ensures !Filled(row, ctx.schemas[row.table].foreignKeys[i].local)
      {
        assert ForeignKeys(ctx, row)[i] in ForeignKeys(ctx, row);
      }
    }
  }

  // ---------------------------------------------------------------- the least set

  predicate Proper(ctx: Context, row: Row) {
    row.fault.None? && row.table in ctx.schemas
  }

  ghost predicate HasProof(ctx: Context, row: Row) {
    Direct(row) != {} || HasParents(ctx, row)
  }

  /** n is a target, the row has something to prove it, and its own SeqNo, if it
      has one, says n. */
  ghost predicate Admissible(ctx: Context, k: Kept) {
    && Proper(ctx, k.row)
    && k.n in ctx.targets
    && Direct(k.row) <= {k.n}
    && HasProof(ctx, k.row)
  }

  ghost predicate Supported(ctx: Context, k: Kept, slot: Slot, proven: set<Kept>) {
    exists p :: p in proven && p.n == k.n && Carries(ctx, p, slot)
  }

  /** The proof rule: every non-null foreign key leads to a proven row with the
      same number. */
  ghost predicate Rule(ctx: Context, k: Kept, proven: set<Kept>) {
    && Admissible(ctx, k)
    && (forall fk :: fk in ForeignKeys(ctx, k.row) && Active(fk, k.row) ==> Supported(ctx, k, Asks(fk, k.row), proven))
  }

  /** A parent in the given set with the number n for one foreign key of a row. */
  ghost predicate HasParent(ctx: Context, row: Row, fk: ForeignKey, n: int, proven: set<Kept>) {
    exists p :: p in proven && p.n == n && p.row.table == fk.parentTable && fk.local in row.fields
      && SameKey(Provides(ctx, p, fk.parentColumn), row.fields[fk.local])
  }

  /** The rule in terms of rows and values: no fault and a known table; n a target; an own
      number that says n, if there is one; each filled foreign key with a parent that has
      the number n; and one or the other there. */
  lemma RuleIff(ctx: Context, k: Kept, proven: set<Kept>)
    ensures Rule(ctx, k, proven) <==>
      && k.row.fault == None && k.row.table in ctx.schemas && k.n in ctx.targets
      && (forall m :: "seqno" in k.row.fields && k.row.fields["seqno"] == Int(m) ==> m == k.n)
      && (forall fk :: fk in ctx.schemas[k.row.table].foreignKeys && Filled(k.row, fk.local) ==>
            HasParent(ctx, k.row, fk, k.n, proven))
      && (|| ("seqno" in k.row.fields && k.row.fields["seqno"].Int?)
          || exists fk :: fk in ctx.schemas[k.row.table].foreignKeys && Filled(k.row, fk.local))
  {
    forall fk | fk in ForeignKeys(ctx, k.row) && Active(fk, k.row)
      ensures Supported(ctx, k, Asks(fk, k.row), proven) <==> HasParent(ctx, k.row, fk, k.n, proven)
    {
      SupportIs(ctx, k, fk, proven);
    }
    forall fk | fk in ForeignKeys(ctx, k.row)
      ensures Active(fk, k.row) <==> Filled(k.row, fk.local)
    {
    }
  }

  lemma SupportIs(ctx: Context, k: Kept, fk: ForeignKey, proven: set<Kept>)
    requires Active(fk, k.row)
    ensures Supported(ctx, k, Asks(fk, k.row), proven) <==> HasParent(ctx, k.row, fk, k.n, proven)
  {
    hide Carries, Provides, Asks;
    forall p | p in proven && p.n == k.n
      ensures Carries(ctx, p, Asks(fk, k.row)) <==>
        p.row.table == fk.parentTable && SameKey(Provides(ctx, p, fk.parentColumn), k.row.fields[fk.local])
    {
      CarriesIff(ctx, p, fk, k.row);
    }
  }

  ghost predicate Closed(ctx: Context, rows: set<Row>, proven: set<Kept>) {
    forall k: Kept :: k.row in rows && Rule(ctx, k, proven) ==> k in proven
  }

  /** The pairs that belong to every closed set. */
  ghost function Least(ctx: Context, rows: set<Row>): set<Kept> {
    set row, n | row in rows && n in ctx.targets && InEveryClosed(ctx, rows, Kept(row, n)) :: Kept(row, n)
  }

  ghost predicate InEveryClosed(ctx: Context, rows: set<Row>, k: Kept) {
    forall proven :: Closed(ctx, rows, proven) ==> k in proven
  }

  lemma RuleMonotone(ctx: Context, k: Kept, proven: set<Kept>, more: set<Kept>)
    requires proven <= more && Rule(ctx, k, proven)
    ensures Rule(ctx, k, more)
  {
    forall fk | fk in ForeignKeys(ctx, k.row) && Active(fk, k.row)
      ensures Supported(ctx, k, Asks(fk, k.row), more)
    {
      assert Supported(ctx, k, Asks(fk, k.row), proven);
    }
  }

  /** The least set is itself closed, and lies inside every closed set. */
  lemma LeastIsLeast(ctx: Context, rows: set<Row>)
    ensures Closed(ctx, rows, Least(ctx, rows))
    ensures forall proven :: Closed(ctx, rows, proven) ==> Least(ctx, rows) <= proven
  {
    var least := Least(ctx, rows);
    forall proven | Closed(ctx, rows, proven)
      ensures least <= proven
    {
      forall k | k in least
        ensures k in proven
      {
        assert InEveryClosed(ctx, rows, k);
      }
    }
    forall k: Kept | k.row in rows && Rule(ctx, k, least)
      ensures k in least
    {
      forall proven | Closed(ctx, rows, proven)
        ensures k in proven
      {
        RuleMonotone(ctx, k, least, proven);
      }
      assert InEveryClosed(ctx, rows, k);
    }
  }

  ghost predicate Contested(ctx: Context, proven: set<Kept>, slot: Slot) {
    exists p, q :: p in proven && q in proven && Carries(ctx, p, slot) && Carries(ctx, q, slot) && p.n != q.n
  }

  /** No foreign key of the row leads to proven rows with different numbers. */
  ghost predicate Clear(ctx: Context, row: Row, proven: set<Kept>) {
    forall fk :: fk in ForeignKeys(ctx, row) && Active(fk, row) ==> !Contested(ctx, proven, Asks(fk, row))
  }

  ghost predicate AllClear(ctx: Context, proven: set<Kept>) {
    forall k :: k in proven ==> Clear(ctx, k.row, proven)
  }

  // ---------------------------------------------------------------- verdicts as the index grows

  function ReasonFor(v: Verdict): Reason {
    match v
    case Conflicting => RelationshipConflict
    case NotTarget => SeqNotTarget
    case _ => RelationshipUnproven
  }

  ghost function VerdictOn(ctx: Context, row: Row, index: Index): Verdict {
    Judge(ForeignKeys(ctx, row), row, ctx.targets, index)
  }

  predicate Final(v: Verdict) {
    v.Conflicting? || v.NotTarget? || v.Unproven?
  }

  /** Only target numbers get into the index. */
  ghost predicate TargetsOnly(ctx: Context, index: Index) {
    forall slot :: DemandedSlot(ctx, slot) && slot in index && index[slot].Seq? ==> index[slot].n in ctx.targets
  }

  lemma ProofStands(fks: seq<ForeignKey>, row: Row, index: Index, index': Index, n: int)
    requires Grows(index, index')
    requires n in Proofs(fks, row, index)
    ensures n in Proofs(fks, row, index') || AnyAmbiguous(fks, row, index')
  {
    if n !in Direct(row) {
      var fk :| fk in fks && Resolved(fk, row, index) && index[Asks(fk, row)] == Seq(n);
      assert Below(Get(index, Asks(fk, row)), Get(index', Asks(fk, row)));
      assert Resolved(fk, row, index');
      if index'[Asks(fk, row)] == Conflict {
        assert Ambiguous(fk, row, index');
      }
    }
  }

  lemma AmbiguousStands(fks: seq<ForeignKey>, row: Row, index: Index, index': Index)
    requires Grows(index, index')
    ensures AnyAmbiguous(fks, row, index) ==> AnyAmbiguous(fks, row, index')
    ensures AnyMissing(fks, row, index') ==> AnyMissing(fks, row, index)
  {
    if AnyAmbiguous(fks, row, index) {
      var fk :| fk in fks && Ambiguous(fk, row, index);
      assert Below(Get(index, Asks(fk, row)), Get(index', Asks(fk, row)));
      assert Ambiguous(fk, row, index');
    }
    if AnyMissing(fks, row, index') {
      var fk :| fk in fks && Missing(fk, row, index');
      assert Below(Get(index, Asks(fk, row)), Get(index', Asks(fk, row)));
      assert Missing(fk, row, index);
    }
  }

  lemma Contributes(fks: seq<ForeignKey>, fk: ForeignKey, row: Row, index: Index)
    requires fk in fks && Resolved(fk, row, index) && index[Asks(fk, row)].Seq?
    ensures index[Asks(fk, row)].n in Proofs(fks, row, index)
  {
  }

  /** A row whose one number is no target, or that has no number, has no parents. */
  lemma NothingToAsk(ctx: Context, row: Row, index: Index)
    requires TargetsOnly(ctx, index)
    requires VerdictOn(ctx, row, index).NotTarget? || VerdictOn(ctx, row, index).Unproven?
    ensures !HasParents(ctx, row)
  {
    var fks := ForeignKeys(ctx, row);
    forall fk | fk in fks && Active(fk, row)
      ensures false
    {
      assert !Missing(fk, row, index) && !Ambiguous(fk, row, index);
      Contributes(fks, fk, row, index);
    }
  }

  /** Without parents the index plays no part. */
  lemma IndexIgnored(ctx: Context, row: Row, index: Index, index': Index)
    requires !HasParents(ctx, row)
    ensures VerdictOn(ctx, row, index) == VerdictOn(ctx, row, index')
  {
    var fks := ForeignKeys(ctx, row);
    assert forall fk :: fk in fks ==> !Active(fk, row);
    assert Proofs(fks, row, index) == Direct(row) == Proofs(fks, row, index');
  }

  lemma ConflictStands(ctx: Context, row: Row, index: Index, index': Index)
    requires Grows(index, index') && VerdictOn(ctx, row, index).Conflicting?
    ensures VerdictOn(ctx, row, index').Conflicting?
  {
    var fks := ForeignKeys(ctx, row);
    AmbiguousStands(fks, row, index, index');
    forall n | n in Proofs(fks, row, index)
      ensures n in Proofs(fks, row, index') || AnyAmbiguous(fks, row, index')
    {
      ProofStands(fks, row, index, index', n);
    }
  }

  /** A refusal is final: a larger index refuses the row with the same verdict. */
  lemma RefusalStands(ctx: Context, row: Row, index: Index, index': Index)
    requires Grows(index, index') && TargetsOnly(ctx, index)
    requires Final(VerdictOn(ctx, row, index))
    ensures VerdictOn(ctx, row, index') == VerdictOn(ctx, row, index)
  {
    hide VerdictOn, TargetsOnly, Grows;
    if VerdictOn(ctx, row, index).Conflicting? {
      ConflictStands(ctx, row, index, index');
    } else {
      NothingToAsk(ctx, row, index);
      IndexIgnored(ctx, row, index, index');
    }
  }

  // ---------------------------------------------------------------- what a run keeps true

  datatype Counts = Counts(accepted: nat, rejected: nat)

  datatype State = State(index: Index, accepted: seq<Kept>, refused: seq<Refused>, counts: map<string, Counts>)

  /** The kept rows as they are indexed. */
  function Mirror(ctx: Context, accepted: seq<Kept>): (indexed: seq<Kept>)
    ensures |indexed| == |accepted|
    ensures forall i :: 0 <= i < |accepted| ==> indexed[i] == Kept(AsIndexed(ctx, accepted[i]), accepted[i].n)
  {
    seq(|accepted|, i requires 0 <= i < |accepted| => Kept(AsIndexed(ctx, accepted[i]), accepted[i].n))
  }

  /** The index that belongs to a list of kept rows. */
  function IndexOf(ctx: Context, accepted: seq<Kept>): Index {
    if accepted == [] then map[]
    else
      var last := |accepted| - 1;
      Enter(ctx, IndexOf(ctx, accepted[..last]), Kept(AsIndexed(ctx, accepted[last]), accepted[last].n))
  }

  /** It is what a plain scan of those rows says. */
  lemma {:induction false} IndexIsScan(ctx: Context, accepted: seq<Kept>)
    ensures IndexAgrees(ctx, IndexOf(ctx, accepted), Mirror(ctx, accepted))
  {
    if accepted != [] {
      var last := |accepted| - 1;
      var k := Kept(AsIndexed(ctx, accepted[last]), accepted[last].n);
      IndexIsScan(ctx, accepted[..last]);
      IndexStep(ctx, IndexOf(ctx, accepted[..last]), Mirror(ctx, accepted[..last]), k, IndexOf(ctx, accepted));
      assert Mirror(ctx, accepted) == Mirror(ctx, accepted[..last]) + [k];
    }
  }

  /** The index has an entry exactly where some foreign key points and some kept row has the
      key. */
  lemma IndexHolds(ctx: Context, accepted: seq<Kept>, slot: Slot)
    ensures slot in IndexOf(ctx, accepted) <==>
      && (exists t, fk :: t in ctx.schemas && fk in ctx.schemas[t].foreignKeys
            && fk.parentTable == slot.table && fk.parentColumn == slot.column)
      && exists i :: 0 <= i < |accepted| && Carries(ctx, accepted[i], slot)
  {
    hide IndexOf, Supplies, AsIndexed;
    var indexed := Mirror(ctx, accepted);
    IndexIsScan(ctx, accepted);
    DemandedIff(ctx, slot.table, slot.column);
    assert forall i :: 0 <= i < |accepted| ==> (Supplies(indexed[i].row, slot) <==> Carries(ctx, accepted[i], slot));
    if DemandedSlot(ctx, slot) {
      assert Agrees(Get(IndexOf(ctx, accepted), slot), indexed, slot);
    }
  }

  /** A kept row has, in the place that a foreign key of the row names, the same key. */
  ghost predicate Serves(ctx: Context, k: Kept, fk: ForeignKey, row: Row)
    requires Filled(row, fk.local)
  {
    k.row.table == fk.parentTable && SameKey(Provides(ctx, k, fk.parentColumn), row.fields[fk.local])
  }

  /** So the index answers: nothing if no kept row serves the key, a number if all that
      do have it, and conflict if two that do have different numbers. */
  lemma AnswerMeans(ctx: Context, accepted: seq<Kept>, fk: ForeignKey, row: Row)
    requires fk in ForeignKeys(ctx, row) && Filled(row, fk.local)
    ensures var a := Answer(fk, row, IndexOf(ctx, accepted));
      && (a == None <==> forall k :: k in accepted ==> !Serves(ctx, k, fk, row))
      && (forall n :: a == Some(Seq(n)) <==>
            && (exists k :: k in accepted && Serves(ctx, k, fk, row))
            && (forall k :: k in accepted && Serves(ctx, k, fk, row) ==> k.n == n))
      && (a == Some(Conflict) <==> exists k, m ::
            k in accepted && m in accepted && Serves(ctx, k, fk, row) && Serves(ctx, m, fk, row) && k.n != m.n)
  {
    hide IndexOf, Serves;
    var indexed, slot := Mirror(ctx, accepted), Asks(fk, row);
    var a := Answer(fk, row, IndexOf(ctx, accepted));
    IndexIsScan(ctx, accepted);
    assert a == Get(IndexOf(ctx, accepted), slot);
    assert DemandedSlot(ctx, slot) by {
      var i :| 0 <= i < |ForeignKeys(ctx, row)| && ForeignKeys(ctx, row)[i] == fk;
      assert ctx.schemas[row.table].foreignKeys[i] == fk;
    }
    assert Agrees(a, indexed, slot);
    forall i | 0 <= i < |accepted|
      ensures Supplies(indexed[i].row, slot) <==> Serves(ctx, accepted[i], fk, row)
      ensures indexed[i].n == accepted[i].n && accepted[i] in accepted
    {
      ServesIs(ctx, accepted[i], fk, row);
    }
    ScanMeans(ctx, accepted, fk, row, a);
  }

  lemma ServesIs(ctx: Context, k: Kept, fk: ForeignKey, row: Row)
    requires Filled(row, fk.local)
    ensures Supplies(AsIndexed(ctx, k), Asks(fk, row)) <==> Serves(ctx, k, fk, row)
  {
    CarriesIff(ctx, k, fk, row);
  }

  lemma ScanMeans(ctx: Context, accepted: seq<Kept>, fk: ForeignKey, row: Row, a: Option<Entry>)
    requires Filled(row, fk.local)
    requires var indexed := Mirror(ctx, accepted);
      && Agrees(a, indexed, Asks(fk, row))
      && forall i :: 0 <= i < |accepted| ==> (Supplies(indexed[i].row, Asks(fk, row)) <==> Serves(ctx, accepted[i], fk, row))
    ensures a == None <==> forall k :: k in accepted ==> !Serves(ctx, k, fk, row)
    ensures forall n :: a == Some(Seq(n)) <==>
      && (exists k :: k in accepted && Serves(ctx, k, fk, row))
      && (forall k :: k in accepted && Serves(ctx, k, fk, row) ==> k.n == n)
    ensures a == Some(Conflict) <==> exists k, m ::
      k in accepted && m in accepted && Serves(ctx, k, fk, row) && Serves(ctx, m, fk, row) && k.n != m.n
  {
    hide Supplies, Serves, Asks;
    var indexed, slot := Mirror(ctx, accepted), Asks(fk, row);
    if a.Some? && a.value.Conflict? {
      var i, j :| 0 <= i < |indexed| && 0 <= j < |indexed|
        && Supplies(indexed[i].row, slot) && Supplies(indexed[j].row, slot) && indexed[i].n != indexed[j].n;
      assert accepted[i] in accepted && accepted[j] in accepted;
    } else if a.Some? {
      var i :| 0 <= i < |indexed| && Supplies(indexed[i].row, slot);
      assert accepted[i] in accepted && Serves(ctx, accepted[i], fk, row);
    }
  }

  /** Keeping more rows makes the index grow. */
  lemma {:induction false} IndexGrows(ctx: Context, accepted: seq<Kept>, i: nat)
    requires i <= |accepted|
    ensures Grows(IndexOf(ctx, accepted[..i]), IndexOf(ctx, accepted))
    decreases |accepted|
  {
    if i == |accepted| {
      assert accepted[..i] == accepted;
    } else {
      var last := |accepted| - 1;
      IndexGrows(ctx, accepted[..last], i);
      assert accepted[..last][..i] == accepted[..i];
      IndexIsScan(ctx, accepted[..last]);
      IndexStep(ctx, IndexOf(ctx, accepted[..last]), Mirror(ctx, accepted[..last]),
                Kept(AsIndexed(ctx, accepted[last]), accepted[last].n), IndexOf(ctx, accepted));
    }
  }

  /** Each kept row was accepted by the index of the rows kept before it. */
  ghost predicate Lawful(ctx: Context, accepted: seq<Kept>) {
    forall i :: 0 <= i < |accepted| ==> AcceptedAt(ctx, accepted, i)
  }

  ghost predicate AcceptedAt(ctx: Context, accepted: seq<Kept>, i: nat)
    requires i < |accepted|
  {
    && Proper(ctx, accepted[i].row)
    && VerdictOn(ctx, accepted[i].row, IndexOf(ctx, accepted[..i])) == Accepted(accepted[i].n)
  }

  /** Rows without parents are kept before all others. */
  ghost predicate RootsFirst(ctx: Context, accepted: seq<Kept>) {
    forall i, j :: 0 <= i < j < |accepted| && HasParents(ctx, accepted[i].row) ==> HasParents(ctx, accepted[j].row)
  }

  ghost predicate Inv(ctx: Context, st: State) {
    && st.index == IndexOf(ctx, st.accepted)
    && Lawful(ctx, st.accepted)
    && RootsFirst(ctx, st.accepted)
  }

  /** Some of the first i rows supplies the slot, and all that do say n. */
  ghost predicate Earlier(indexed: seq<Kept>, i: nat, n: int, slot: Slot)
    requires i <= |indexed|
  {
    && (exists j :: 0 <= j < i && Supplies(indexed[j].row, slot))
    && (forall j :: 0 <= j < i && Supplies(indexed[j].row, slot) ==> indexed[j].n == n)
  }

  lemma AcceptedFacts(ctx: Context, row: Row, n: int, index: Index)
    requires Proper(ctx, row) && VerdictOn(ctx, row, index) == Accepted(n)
    ensures Admissible(ctx, Kept(row, n))
    ensures forall fk :: fk in ForeignKeys(ctx, row) && Active(fk, row) ==> Get(index, Asks(fk, row)) == Some(Seq(n))
  {
    var fks := ForeignKeys(ctx, row);
    var proofs := Proofs(fks, row, index);
    forall fk | fk in fks && Active(fk, row)
      ensures Get(index, Asks(fk, row)) == Some(Seq(n))
    {
      assert !Missing(fk, row, index) && !Ambiguous(fk, row, index);
      Contributes(fks, fk, row, index);
    }
    assert n in proofs;
    if n !in Direct(row) {
      var fk :| fk in fks && Resolved(fk, row, index);
    }
  }

  /** A kept row is admissible and rests on rows kept before it, none of which says
      otherwise. */
  lemma KeptFacts(ctx: Context, accepted: seq<Kept>, i: nat)
    requires Lawful(ctx, accepted) && i < |accepted|
    ensures Admissible(ctx, accepted[i])
    ensures forall fk :: fk in ForeignKeys(ctx, accepted[i].row) && Active(fk, accepted[i].row) ==>
      Earlier(Mirror(ctx, accepted), i, accepted[i].n, Asks(fk, accepted[i].row))
  {
    hide VerdictOn, Enter, IndexOf;
    var k := accepted[i];
    assert AcceptedAt(ctx, accepted, i);
    AcceptedFacts(ctx, k.row, k.n, IndexOf(ctx, accepted[..i]));
    IndexIsScan(ctx, accepted[..i]);
    forall fk | fk in ForeignKeys(ctx, k.row) && Active(fk, k.row)
      ensures Earlier(Mirror(ctx, accepted), i, k.n, Asks(fk, k.row))
    {
      assert Agrees(Some(Seq(k.n)), Mirror(ctx, accepted[..i]), Asks(fk, k.row));
      ScanEarlier(ctx, accepted, i, k.n, Asks(fk, k.row));
    }
  }

  lemma ScanEarlier(ctx: Context, accepted: seq<Kept>, i: nat, n: int, slot: Slot)
    requires i <= |accepted| && Agrees(Some(Seq(n)), Mirror(ctx, accepted[..i]), slot)
    ensures Earlier(Mirror(ctx, accepted), i, n, slot)
  {
    var all, some := Mirror(ctx, accepted), Mirror(ctx, accepted[..i]);
    assert forall j :: 0 <= j < i ==> all[j] == some[j];
    var j :| 0 <= j < |some| && Supplies(some[j].row, slot);
    assert Supplies(all[j].row, slot);
  }

  /** The index holds numbers of kept rows, which are targets. */
  lemma IndexHoldsTargets(ctx: Context, accepted: seq<Kept>)
    requires Lawful(ctx, accepted)
    ensures TargetsOnly(ctx, IndexOf(ctx, accepted))
  {
    hide IndexOf, Lawful;
    IndexIsScan(ctx, accepted);
    var index := IndexOf(ctx, accepted);
    forall slot | DemandedSlot(ctx, slot) && slot in index && index[slot].Seq?
      ensures index[slot].n in ctx.targets
    {
      assert Agrees(Get(index, slot), Mirror(ctx, accepted), slot);
      var i :| 0 <= i < |accepted| && Supplies(Mirror(ctx, accepted)[i].row, slot);
      KeptFacts(ctx, accepted, i);
    }
  }

  /** The reason recorded for a refused row: its own fault, or the verdict that
      the index still gives. */
  ghost predicate Justified(ctx: Context, r: Refused, index: Index) {
    if r.row.table !in ctx.schemas then r.reason == SchemaUnknown
    else if r.row.fault.Some? then r.reason == r.row.fault.value
    else Final(VerdictOn(ctx, r.row, index)) && r.reason == ReasonFor(VerdictOn(ctx, r.row, index))
  }

  ghost predicate RefusalsStand(ctx: Context, refused: seq<Refused>, index: Index) {
    forall i :: 0 <= i < |refused| ==> Justified(ctx, refused[i], index)
  }

  /** After the run a refused row may also be one that still waits for a parent. */
  ghost predicate RefusalsFinal(ctx: Context, refused: seq<Refused>, index: Index) {
    forall i :: 0 <= i < |refused| ==>
      || Justified(ctx, refused[i], index)
      || GivenUp(ctx, refused[i], index)
  }

  ghost predicate GivenUp(ctx: Context, r: Refused, index: Index) {
    Proper(ctx, r.row) && VerdictOn(ctx, r.row, index).Pending? && r.reason == RelationshipUnproven
  }

  function KeptRows(accepted: seq<Kept>): (rows: seq<Row>)
    ensures |rows| == |accepted| && forall i :: 0 <= i < |rows| ==> rows[i] == accepted[i].row
  {
    seq(|accepted|, i requires 0 <= i < |accepted| => accepted[i].row)
  }

  function RefusedRows(refused: seq<Refused>): (rows: seq<Row>)
    ensures |rows| == |refused| && forall i :: 0 <= i < |rows| ==> rows[i] == refused[i].row
  {
    seq(|refused|, i requires 0 <= i < |refused| => refused[i].row)
  }

  ghost predicate Partition(rows: seq<Row>, st: State, waiting: seq<Row>) {
    multiset(rows) == multiset(KeptRows(st.accepted)) + multiset(RefusedRows(st.refused)) + multiset(waiting)
  }

  function Elements<T>(s: seq<T>): set<T> {
    set x | x in s
  }

  /** A run over `rows` has come to its end. */
  ghost predicate Ended(ctx: Context, rows: seq<Row>, st: State) {
    Inv(ctx, st) && Partition(rows, st, []) && RefusalsFinal(ctx, st.refused, st.index)
  }

  // ---------------------------------------------------------------- the rows kept are the least set

  /** Sound: every kept row lies in every closed set. */
  lemma {:induction false} KeptIsProven(ctx: Context, accepted: seq<Kept>, rows: set<Row>, proven: set<Kept>, i: nat)
    requires Lawful(ctx, accepted)
    requires forall j :: 0 <= j < |accepted| ==> accepted[j].row in rows
    requires Closed(ctx, rows, proven)
    requires i < |accepted|
    ensures accepted[i] in proven
    decreases i
  {
    hide Lawful;
    var k := accepted[i];
    KeptFacts(ctx, accepted, i);
    forall fk | fk in ForeignKeys(ctx, k.row) && Active(fk, k.row)
      ensures Supported(ctx, k, Asks(fk, k.row), proven)
    {
      var slot := Asks(fk, k.row);
      assert Earlier(Mirror(ctx, accepted), i, k.n, slot);
      var j :| 0 <= j < i && Supplies(Mirror(ctx, accepted)[j].row, slot);
      assert Carries(ctx, accepted[j], slot);
      KeptIsProven(ctx, accepted, rows, proven, j);
    }
    assert Rule(ctx, k, proven);
  }

  lemma KeptInLeast(ctx: Context, accepted: seq<Kept>, rows: set<Row>)
    requires Lawful(ctx, accepted)
    requires forall j :: 0 <= j < |accepted| ==> accepted[j].row in rows
    ensures Elements(accepted) <= Least(ctx, rows)
  {
    hide Lawful, Least;
    LeastIsLeast(ctx, rows);
    forall k | k in accepted
      ensures k in Least(ctx, rows)
    {
      var i :| 0 <= i < |accepted| && accepted[i] == k;
      KeptIsProven(ctx, accepted, rows, Least(ctx, rows), i);
    }
  }

  /** A slot that a kept row supplies holds that row's number, if kept rows do
      not contradict each other over it. */
  lemma SuppliedSlot(ctx: Context, accepted: seq<Kept>, slot: Slot, p: Kept)
    requires DemandedSlot(ctx, slot) && p in accepted && Carries(ctx, p, slot)
    requires !Contested(ctx, Elements(accepted), slot)
    ensures Get(IndexOf(ctx, accepted), slot) == Some(Seq(p.n))
  {
    hide IndexOf;
    var indexed := Mirror(ctx, accepted);
    var i :| 0 <= i < |accepted| && accepted[i] == p;
    forall j | 0 <= j < |indexed|
      ensures Supplies(indexed[j].row, slot) ==> indexed[j].n == p.n
      ensures j == i ==> Supplies(indexed[j].row, slot)
    {
      assert Supplies(indexed[j].row, slot) <==> Carries(ctx, accepted[j], slot);
      assert accepted[j] in Elements(accepted) && p in Elements(accepted);
    }
    IndexIsScan(ctx, accepted);
    assert Agrees(Get(IndexOf(ctx, accepted), slot), indexed, slot);
  }

  /** If every foreign key resolves to n, the verdict is n. */
  lemma AllSayN(ctx: Context, k: Kept, index: Index)
    requires Admissible(ctx, k)
    requires forall fk :: fk in ForeignKeys(ctx, k.row) && Active(fk, k.row) ==>
      Get(index, Asks(fk, k.row)) == Some(Seq(k.n))
    ensures VerdictOn(ctx, k.row, index) == Accepted(k.n)
  {
    var fks := ForeignKeys(ctx, k.row);
    var proofs := Proofs(fks, k.row, index);
    assert forall n :: n in proofs ==> n == k.n;
    if Direct(k.row) == {} {
      var fk :| fk in fks && Active(fk, k.row);
      Contributes(fks, fk, k.row, index);
    } else {
      var n := Picking.Any(Direct(k.row));
    }
    assert proofs == {k.n};
  }

  /** A row the rule allows on top of the kept rows is accepted by their index. */
  lemma RuleAccepted(ctx: Context, accepted: seq<Kept>, k: Kept)
    requires Clear(ctx, k.row, Elements(accepted))
    requires Rule(ctx, k, Elements(accepted))
    ensures VerdictOn(ctx, k.row, IndexOf(ctx, accepted)) == Accepted(k.n)
  {
    hide IndexOf, Contested, Carries, VerdictOn;
    forall fk | fk in ForeignKeys(ctx, k.row) && Active(fk, k.row)
      ensures Get(IndexOf(ctx, accepted), Asks(fk, k.row)) == Some(Seq(k.n))
    {
      assert Supported(ctx, k, Asks(fk, k.row), Elements(accepted));
      var p :| p in Elements(accepted) && p.n == k.n && Carries(ctx, p, Asks(fk, k.row));
      SuppliedSlot(ctx, accepted, Asks(fk, k.row), p);
    }
    AllSayN(ctx, k, IndexOf(ctx, accepted));
  }

  /** Two numbers for the same row cannot both follow from rows that agree. */
  lemma OneNumber(ctx: Context, proven: set<Kept>, k: Kept, m: int)
    requires Clear(ctx, k.row, proven)
    requires Rule(ctx, k, proven) && Rule(ctx, Kept(k.row, m), proven)
    ensures m == k.n
  {
    if Direct(k.row) == {} {
      var fk :| fk in ForeignKeys(ctx, k.row) && Active(fk, k.row);
      assert Supported(ctx, k, Asks(fk, k.row), proven) && Supported(ctx, Kept(k.row, m), Asks(fk, k.row), proven);
    } else {
      var n := Picking.Any(Direct(k.row));
    }
  }

  /** Every kept row obeys the rule over the kept rows. */
  lemma KeptByRule(ctx: Context, accepted: seq<Kept>, k: Kept)
    requires Lawful(ctx, accepted)
    requires k in accepted
    ensures Rule(ctx, k, Elements(accepted))
  {
    hide Lawful;
    var i :| 0 <= i < |accepted| && accepted[i] == k;
    KeptFacts(ctx, accepted, i);
    forall fk | fk in ForeignKeys(ctx, k.row) && Active(fk, k.row)
      ensures Supported(ctx, k, Asks(fk, k.row), Elements(accepted))
    {
      assert Earlier(Mirror(ctx, accepted), i, k.n, Asks(fk, k.row));
      var j :| 0 <= j < i && Supplies(Mirror(ctx, accepted)[j].row, Asks(fk, k.row));
      assert accepted[j] in Elements(accepted) && Carries(ctx, accepted[j], Asks(fk, k.row));
    }
  }

  /** A row of the dump that the rule allows over the kept rows is among them. */
  lemma RuleKept(ctx: Context, rows: seq<Row>, st: State, k: Kept)
    requires Ended(ctx, rows, st)
    requires k.row in rows && Rule(ctx, k, Elements(st.accepted)) && Clear(ctx, k.row, Elements(st.accepted))
    ensures k in st.accepted
  {
    hide Lawful, Clear, VerdictOn, RootsFirst;
    RuleAccepted(ctx, st.accepted, k);
    RowsLand(rows, st, k.row);
    var i :| 0 <= i < |st.accepted| && st.accepted[i].row == k.row;
    KeptByRule(ctx, st.accepted, st.accepted[i]);
    OneNumber(ctx, Elements(st.accepted), k, st.accepted[i].n);
  }

  /** Complete: when no proven row leads to a contested key, the kept rows form a
      closed set. */
  lemma KeptIsClosed(ctx: Context, rows: seq<Row>, st: State)
    requires Ended(ctx, rows, st)
    requires AllClear(ctx, Least(ctx, Elements(rows)))
    ensures Closed(ctx, Elements(rows), Elements(st.accepted))
  {
    hide Ended, Least;
    var least := Least(ctx, Elements(rows));
    KeptAtMostLeast(ctx, rows, st);
    LeastIsLeast(ctx, Elements(rows));
    forall k: Kept | k.row in Elements(rows) && Rule(ctx, k, Elements(st.accepted))
      ensures k in Elements(st.accepted)
    {
      RuleMonotone(ctx, k, Elements(st.accepted), least);
      RuleKept(ctx, rows, st, k);
    }
  }

  lemma RowsLand(rows: seq<Row>, st: State, row: Row)
    requires Partition(rows, st, [])
    ensures row in rows <==> row in KeptRows(st.accepted) || row in RefusedRows(st.refused)
  {
    assert row in multiset(rows) <==> row in rows;
    assert row in multiset(KeptRows(st.accepted)) <==> row in KeptRows(st.accepted);
    assert row in multiset(RefusedRows(st.refused)) <==> row in RefusedRows(st.refused);
  }

  /** The rows kept are never more than the least closed set. */
  lemma KeptAtMostLeast(ctx: Context, rows: seq<Row>, st: State)
    requires Ended(ctx, rows, st)
    ensures Elements(st.accepted) <= Least(ctx, Elements(rows))
  {
    hide Lawful, Least;
    forall j | 0 <= j < |st.accepted|
      ensures st.accepted[j].row in Elements(rows)
    {
      assert KeptRows(st.accepted)[j] in KeptRows(st.accepted);
      RowsLand(rows, st, st.accepted[j].row);
    }
    KeptInLeast(ctx, st.accepted, Elements(rows));
  }

  /** The rows kept are the least set closed under the proof rule, with its
      numbers, if none of its rows leads to a contested key.  The order of `rows`
      plays no part. */
  lemma KeptIsLeast(ctx: Context, rows: seq<Row>, st: State)
    requires Ended(ctx, rows, st)
    requires AllClear(ctx, Least(ctx, Elements(rows)))
    ensures Elements(st.accepted) == Least(ctx, Elements(rows))
  {
    hide Ended, Least;
    KeptAtMostLeast(ctx, rows, st);
    KeptIsClosed(ctx, rows, st);
    LeastIsLeast(ctx, Elements(rows));
  }

  lemma {:induction false} CountKept(accepted: seq<Kept>, row: Row, n: int)
    requires forall k :: k in accepted && k.row == row ==> k.n == n
    ensures multiset(accepted)[Kept(row, n)] == multiset(KeptRows(accepted))[row]
  {
    if accepted != [] {
      var last := |accepted| - 1;
      CountKept(accepted[..last], row, n);
      assert accepted == accepted[..last] + [accepted[last]];
      assert KeptRows(accepted) == KeptRows(accepted[..last]) + [accepted[last].row];
    }
  }

  /** Every copy of a proven row is kept, and no copy of another row is. */
  lemma KeptTimes(ctx: Context, rows: seq<Row>, st: State, k: Kept)
    requires Ended(ctx, rows, st)
    requires AllClear(ctx, Least(ctx, Elements(rows)))
    ensures multiset(st.accepted)[k] == if k in Least(ctx, Elements(rows)) then multiset(rows)[k.row] else 0
  {
    hide Lawful, Least, VerdictOn, RootsFirst, Rule;
    KeptIsLeast(ctx, rows, st);
    assert k in st.accepted <==> k in Elements(st.accepted);
    if k in st.accepted {
      KeptByRule(ctx, st.accepted, k);
      assert Clear(ctx, k.row, Elements(st.accepted));
      RuleAccepted(ctx, st.accepted, k);
      ProperByRule(ctx, k, Elements(st.accepted));
      forall other | other in st.accepted && other.row == k.row
        ensures other.n == k.n
      {
        KeptByRule(ctx, st.accepted, other);
        OneNumber(ctx, Elements(st.accepted), k, other.n);
      }
      CountKept(st.accepted, k.row, k.n);
      assert multiset(RefusedRows(st.refused))[k.row] == 0;
    }
  }

  lemma ProperByRule(ctx: Context, k: Kept, proven: set<Kept>)
    requires Rule(ctx, k, proven)
    ensures Proper(ctx, k.row)
  {
  }

  // ---------------------------------------------------------------- contested keys

  /** Rows without parents contest the key. */
  ghost predicate RootsContest(ctx: Context, proven: set<Kept>, slot: Slot) {
    exists p, q ::
      && p in proven && q in proven && Carries(ctx, p, slot) && Carries(ctx, q, slot) && p.n != q.n
      && !HasParents(ctx, p.row) && !HasParents(ctx, q.row)
  }

  /** A proven row without parents is always kept. */
  lemma RootKept(ctx: Context, rows: seq<Row>, st: State, p: Kept)
    requires Ended(ctx, rows, st)
    requires p in Least(ctx, Elements(rows)) && !HasParents(ctx, p.row)
    ensures p in st.accepted
  {
    hide Ended, Least;
    LeastByRule(ctx, Elements(rows), p);
    RuleKept(ctx, rows, st, p);
  }

  /** Every member of the least set obeys the rule over it. */
  lemma LeastByRule(ctx: Context, rows: set<Row>, k: Kept)
    requires k in Least(ctx, rows)
    ensures k.row in rows && Rule(ctx, k, Least(ctx, rows))
  {
    var least := Least(ctx, rows);
    var ruled := set m | m in least && Rule(ctx, m, least);
    LeastIsLeast(ctx, rows);
    forall m: Kept | m.row in rows && Rule(ctx, m, ruled)
      ensures m in ruled
    {
      RuleMonotone(ctx, m, ruled, least);
    }
    assert least <= ruled;
  }

  /** Rows kept before a kept row agree with it about the keys it leads to. */
  lemma EarlierAgrees(ctx: Context, accepted: seq<Kept>, i: nat, j: nat, fk: ForeignKey)
    requires Lawful(ctx, accepted) && j < i < |accepted|
    requires fk in ForeignKeys(ctx, accepted[i].row) && Active(fk, accepted[i].row)
    requires Carries(ctx, accepted[j], Asks(fk, accepted[i].row))
    ensures accepted[j].n == accepted[i].n
  {
    hide Lawful;
    KeptFacts(ctx, accepted, i);
    assert Earlier(Mirror(ctx, accepted), i, accepted[i].n, Asks(fk, accepted[i].row));
    assert Supplies(Mirror(ctx, accepted)[j].row, Asks(fk, accepted[i].row));
  }

  /** A row that leads to a key contested by rows without parents is never kept. */
  lemma ContestedIsRefused(ctx: Context, rows: seq<Row>, st: State, k: Kept, fk: ForeignKey)
    requires Ended(ctx, rows, st)
    requires fk in ForeignKeys(ctx, k.row) && Active(fk, k.row)
    requires RootsContest(ctx, Least(ctx, Elements(rows)), Asks(fk, k.row))
    ensures k !in st.accepted
  {
    hide Least, Lawful, Carries, Partition, RefusalsFinal;
    var slot := Asks(fk, k.row);
    var least := Least(ctx, Elements(rows));
    var p, q :|
      && p in least && q in least && Carries(ctx, p, slot) && Carries(ctx, q, slot) && p.n != q.n
      && !HasParents(ctx, p.row) && !HasParents(ctx, q.row);
    RootKept(ctx, rows, st, p);
    RootKept(ctx, rows, st, q);
    if k in st.accepted {
      var i :| 0 <= i < |st.accepted| && st.accepted[i] == k;
      RootSaysN(ctx, st.accepted, i, fk, p);
      RootSaysN(ctx, st.accepted, i, fk, q);
    }
  }

  lemma RootSaysN(ctx: Context, accepted: seq<Kept>, i: nat, fk: ForeignKey, p: Kept)
    requires Lawful(ctx, accepted) && RootsFirst(ctx, accepted) && i < |accepted|
    requires fk in ForeignKeys(ctx, accepted[i].row) && Active(fk, accepted[i].row)
    requires p in accepted && !HasParents(ctx, p.row) && Carries(ctx, p, Asks(fk, accepted[i].row))
    ensures p.n == accepted[i].n
  {
    hide Lawful, Carries;
    var j :| 0 <= j < |accepted| && accepted[j] == p;
    assert HasParents(ctx, accepted[i].row);
    EarlierAgrees(ctx, accepted, i, j, fk);
  }

  /** Every contested key that a proven row leads to is contested by rows without
      parents. */
  ghost predicate RootsContestAll(ctx: Context, proven: set<Kept>) {
    forall k, fk :: k in proven && fk in ForeignKeys(ctx, k.row) && Active(fk, k.row) ==>
      (Contested(ctx, proven, Asks(fk, k.row)) ==> RootsContest(ctx, proven, Asks(fk, k.row)))
  }

  /** Where the keys that proven rows lead to are contested by rows without parents,
      if at all, the rows kept are the least set exactly when none of its rows
      leads to a contested key. */
  lemma KeptIsLeastIff(ctx: Context, rows: seq<Row>, st: State)
    requires Ended(ctx, rows, st)
    requires RootsContestAll(ctx, Least(ctx, Elements(rows)))
    ensures Elements(st.accepted) == Least(ctx, Elements(rows)) <==> AllClear(ctx, Least(ctx, Elements(rows)))
  {
    hide Ended, Least, Contested, RootsContest, Active;
    var least := Least(ctx, Elements(rows));
    if AllClear(ctx, least) {
      KeptIsLeast(ctx, rows, st);
    } else {
      var k :| k in least && !Clear(ctx, k.row, least);
      var fk :| fk in ForeignKeys(ctx, k.row) && Active(fk, k.row) && Contested(ctx, least, Asks(fk, k.row));
      ContestedIsRefused(ctx, rows, st, k, fk);
      assert k !in Elements(st.accepted);
    }
  }

  /** Two parents with the same key and different numbers: a child of theirs is
      proven through one of them, and leads to a contested key. */
  lemma ContestedChild(ctx: Context, rows: set<Row>, p: Kept, q: Kept, k: Kept, fk: ForeignKey)
    requires p.row in rows && q.row in rows && k.row in rows && k.n == p.n != q.n
    requires Admissible(ctx, p) && Admissible(ctx, q) && !HasParents(ctx, p.row) && !HasParents(ctx, q.row)
    requires Admissible(ctx, k) && ForeignKeys(ctx, k.row) == [fk] && Active(fk, k.row)
    requires Carries(ctx, p, Asks(fk, k.row)) && Carries(ctx, q, Asks(fk, k.row))
    ensures k in Least(ctx, rows) && RootsContest(ctx, Least(ctx, rows), Asks(fk, k.row))
  {
    hide Carries, Admissible, Asks, Active, Least;
    var least := Least(ctx, rows);
    LeastIsLeast(ctx, rows);
    assert Rule(ctx, p, least) && Rule(ctx, q, least);
    assert Supported(ctx, k, Asks(fk, k.row), least);
    assert Rule(ctx, k, least);
  }

  // ---------------------------------------------------------------- the added columns

  /** The added columns can matter: a foreign key onto the added number column of
      the parent table is served by a parent that has no such column of its own. */
  lemma StampMatters(n: int)
    ensures var parent := Row("parent", map["seqno" := Int(n)], "", None);
      var ctx := Context(map["parent" := Schema([]), "child" := Schema([ForeignKey("up", "parent", "legacyseqno")])], {n});
      var slot := Slot("parent", "legacyseqno", Number(n as real));
      && DemandedSlot(ctx, slot) && Carries(ctx, Kept(parent, n), slot) && !Supplies(parent, slot)
  {
    var parent := Row("parent", map["seqno" := Int(n)], "", None);
    var fk := ForeignKey("up", "parent", "legacyseqno");
    var ctx := Context(map["parent" := Schema([]), "child" := Schema([fk])], {n});
    assert ctx.schemas["child"].foreignKeys[0] == fk;
    assert ForeignKeys(ctx, parent) == [];
    assert Lookup(Stamped(Kept(parent, n)).fields, "legacyseqno") == Int(n);
  }
}
