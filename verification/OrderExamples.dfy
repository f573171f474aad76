/** Dumps with contested keys: one where every order refuses a proven row, and one
    where the order decides whether a row is kept. */
module OrderExamples {
  import opened Options
  import opened Values
  import opened RelationshipIndex
  import opened ProvenRows
  import opened DumpRun
  import opened RunOrders

  const UP := ForeignKey("up", "parent", "id")
  const PARENT1 := Row("parent", map["seqno" := Int(1), "id" := Int(7)], "", None)
  const PARENT2 := Row("parent", map["seqno" := Int(2), "id" := Int(7)], "", None)
  const CHILD := Row("child", map["up" := Int(7)], "", None)
  const FAMILY := Context(map["parent" := Schema([]), "child" := Schema([UP])], {1, 2})

  // ---------------------------------------------------------------- two parents with one key

  lemma FamilyFacts()
    ensures ForeignKeys(FAMILY, CHILD) == [UP] && Active(UP, CHILD)
    ensures Admissible(FAMILY, Kept(CHILD, 1)) && Admissible(FAMILY, Kept(PARENT1, 1)) && Admissible(FAMILY, Kept(PARENT2, 2))
    ensures ForeignKeys(FAMILY, PARENT1) == ForeignKeys(FAMILY, PARENT2) == []
    ensures Carries(FAMILY, Kept(PARENT1, 1), Asks(UP, CHILD)) && Carries(FAMILY, Kept(PARENT2, 2), Asks(UP, CHILD))
  {
    assert UP in ForeignKeys(FAMILY, CHILD) && Active(UP, CHILD);
    assert HasParents(FAMILY, CHILD);
  }

  /** Whoever contests a key here has no parents. */
  lemma FamilyRoots(rows: set<Row>)
    requires rows == {PARENT1, PARENT2, CHILD}
    ensures Kept(CHILD, 1) in Least(FAMILY, rows)
    ensures RootsContest(FAMILY, Least(FAMILY, rows), Asks(UP, CHILD))
    ensures RootsContestAll(FAMILY, Least(FAMILY, rows))
    ensures !AllClear(FAMILY, Least(FAMILY, rows))
  {
    hide Least, Admissible, Carries, RootsContest;
    FamilyFacts();
    var least := Least(FAMILY, rows);
    ContestedChild(FAMILY, rows, Kept(PARENT1, 1), Kept(PARENT2, 2), Kept(CHILD, 1), UP);
    forall k, fk | k in least && fk in ForeignKeys(FAMILY, k.row) && Active(fk, k.row)
      ensures RootsContest(FAMILY, least, Asks(fk, k.row))
    {
      LeastByRule(FAMILY, rows, k);
      assert k.row == CHILD && fk == UP;
    }
    NotClear(FAMILY, least, Kept(CHILD, 1), UP);
  }

  lemma NotClear(ctx: Context, proven: set<Kept>, k: Kept, fk: ForeignKey)
    requires k in proven && fk in ForeignKeys(ctx, k.row) && Active(fk, k.row)
    requires RootsContest(ctx, proven, Asks(fk, k.row))
    ensures !AllClear(ctx, proven)
  {
    assert Contested(ctx, proven, Asks(fk, k.row));
  }

  /** In every order of the three rows the run ends and does not keep the child,
      although the child is proven. */
  lemma ContestExample(order: seq<Row>, passes: nat, n: int)
    requires multiset(order) == multiset([PARENT1, PARENT2, CHILD]) && passes >= 3
    ensures Kept(CHILD, 1) in Least(FAMILY, Elements(order))
    ensures RootsContestAll(FAMILY, Least(FAMILY, Elements(order)))
    ensures var (st, limited) := Filter(FAMILY, order, passes);
      !limited && Kept(CHILD, n) !in st.accepted
  {
    hide Least, Filter, Admissible, Carries, RootsContest, RootsContestAll, AllClear, Ended;
    ThreeRows(order);
    FamilyFacts();
    FamilyRoots(Elements(order));
    FilterEnds(FAMILY, order, passes);
    ContestedIsRefused(FAMILY, order, Filter(FAMILY, order, passes).0, Kept(CHILD, n), UP);
  }

  lemma ThreeRows(order: seq<Row>)
    requires multiset(order) == multiset([PARENT1, PARENT2, CHILD])
    ensures Elements(order) == {PARENT1, PARENT2, CHILD} && |order| == 3
  {
    assert |multiset(order)| == |order| == 3;
    forall x
      ensures x in order <==> x in {PARENT1, PARENT2, CHILD}
    {
      assert x in order <==> x in multiset(order);
    }
  }

  // ---------------------------------------------------------------- the order decides

  const UP_MIDDLE := ForeignKey("up", "middle", "id")
  const TOP1 := Row("parent", map["seqno" := Int(1), "id" := Int(1)], "", None)
  const TOP2 := Row("parent", map["seqno" := Int(2), "id" := Int(2)], "", None)
  const MIDDLE1 := Row("middle", map["up" := Int(1), "id" := Int(7)], "", None)
  const MIDDLE2 := Row("middle", map["up" := Int(2), "id" := Int(7)], "", None)
  const LEAF := Row("leaf", map["up" := Int(7)], "", None)
  const DYNASTY := Context(
    map["parent" := Schema([]), "middle" := Schema([UP]), "leaf" := Schema([UP_MIDDLE])], {1, 2})

  /** The kept rows when the leaf comes between the two middle rows, and after them. */
  const BETWEEN := [Kept(TOP1, 1), Kept(TOP2, 2), Kept(MIDDLE1, 1), Kept(LEAF, 1), Kept(MIDDLE2, 2)]
  const AFTER := [Kept(TOP1, 1), Kept(TOP2, 2), Kept(MIDDLE1, 1), Kept(MIDDLE2, 2)]

  lemma DynastyKeys()
    ensures ForeignKeys(DYNASTY, TOP1) == ForeignKeys(DYNASTY, TOP2) == []
    ensures ForeignKeys(DYNASTY, MIDDLE1) == ForeignKeys(DYNASTY, MIDDLE2) == [UP]
    ensures ForeignKeys(DYNASTY, LEAF) == [UP_MIDDLE]
    ensures Active(UP, MIDDLE1) && Active(UP, MIDDLE2) && Active(UP_MIDDLE, LEAF)
    ensures Asks(UP, MIDDLE1) == Slot("parent", "id", Number(1.0))
    ensures Asks(UP, MIDDLE2) == Slot("parent", "id", Number(2.0))
    ensures Asks(UP_MIDDLE, LEAF) == Slot("middle", "id", Number(7.0))
    ensures !HasParents(DYNASTY, TOP1) && !HasParents(DYNASTY, TOP2)
    ensures HasParents(DYNASTY, MIDDLE1) && HasParents(DYNASTY, MIDDLE2) && HasParents(DYNASTY, LEAF)
  {
    assert UP in [UP] && UP_MIDDLE in [UP_MIDDLE];
  }

  lemma DynastyProper()
    ensures Admissible(DYNASTY, Kept(TOP1, 1)) && Admissible(DYNASTY, Kept(TOP2, 2))
    ensures Admissible(DYNASTY, Kept(MIDDLE1, 1)) && Admissible(DYNASTY, Kept(MIDDLE2, 2))
    ensures Admissible(DYNASTY, Kept(LEAF, 1))
  {
    hide HasParents;
    DynastyKeys();
  }

  /** Who carries what. */
  lemma DynastyCarries(slot: Slot, key: int)
    requires slot.column == "id" && slot.key == Number(key as real)
    ensures Carries(DYNASTY, Kept(TOP1, 1), slot) <==> slot.table == "parent" && key == 1
    ensures Carries(DYNASTY, Kept(TOP2, 2), slot) <==> slot.table == "parent" && key == 2
    ensures Carries(DYNASTY, Kept(MIDDLE1, 1), slot) <==> slot.table == "middle" && key == 7
    ensures Carries(DYNASTY, Kept(MIDDLE2, 2), slot) <==> slot.table == "middle" && key == 7
    ensures Carries(DYNASTY, Kept(LEAF, 1), slot) ==> slot.table == "leaf"
  {
    DynastyKeys();
  }

  /** A row whose only foreign key leads to rows with its number is accepted. */
  lemma AcceptedNext(ctx: Context, accepted: seq<Kept>, k: Kept, fk: ForeignKey, p: Kept)
    requires Admissible(ctx, k) && ForeignKeys(ctx, k.row) == [fk] && Active(fk, k.row)
    requires p in accepted && p.n == k.n && Carries(ctx, p, Asks(fk, k.row))
    requires forall x :: x in accepted && Carries(ctx, x, Asks(fk, k.row)) ==> x.n == k.n
    ensures VerdictOn(ctx, k.row, IndexOf(ctx, accepted)) == Accepted(k.n)
  {
    hide Carries, Admissible, IndexOf, VerdictOn;
    assert fk in ForeignKeys(ctx, k.row);
    assert !Contested(ctx, Elements(accepted), Asks(fk, k.row));
    SuppliedSlot(ctx, accepted, Asks(fk, k.row), p);
    AllSayN(ctx, k, IndexOf(ctx, accepted));
  }

  lemma TopsKept()
    ensures AllRoots(DYNASTY, [Kept(TOP1, 1), Kept(TOP2, 2)])
  {
    hide VerdictOn, Admissible, HasParents;
    DynastyKeys();
    DynastyProper();
    AllSayN(DYNASTY, Kept(TOP1, 1), map[]);
    AllSayN(DYNASTY, Kept(TOP2, 2), map[]);
  }

  /** The rows up to and including the first middle row. */
  lemma StartLawful()
    ensures var start := [Kept(TOP1, 1), Kept(TOP2, 2), Kept(MIDDLE1, 1)];
      Lawful(DYNASTY, start) && RootsFirst(DYNASTY, start)
  {
    hide VerdictOn, Admissible, HasParents, Carries, Lawful, RootsFirst, IndexOf, AllRoots;
    DynastyKeys();
    DynastyProper();
    DynastyCarries(Asks(UP, MIDDLE1), 1);
    var tops := [Kept(TOP1, 1), Kept(TOP2, 2)];
    TopsKept();
    RootsAreLawful(DYNASTY, tops);
    AcceptedNext(DYNASTY, tops, Kept(MIDDLE1, 1), UP, Kept(TOP1, 1));
    LawfulOneMore(DYNASTY, tops, Kept(MIDDLE1, 1));
    assert tops + [Kept(MIDDLE1, 1)] == [Kept(TOP1, 1), Kept(TOP2, 2), Kept(MIDDLE1, 1)];
  }

  /** The second middle row is accepted whether or not the leaf was kept before it. */
  lemma SecondMiddle(accepted: seq<Kept>)
    requires Lawful(DYNASTY, accepted) && RootsFirst(DYNASTY, accepted)
    requires accepted == [Kept(TOP1, 1), Kept(TOP2, 2), Kept(MIDDLE1, 1)]
          || accepted == [Kept(TOP1, 1), Kept(TOP2, 2), Kept(MIDDLE1, 1), Kept(LEAF, 1)]
    ensures Lawful(DYNASTY, accepted + [Kept(MIDDLE2, 2)]) && RootsFirst(DYNASTY, accepted + [Kept(MIDDLE2, 2)])
  {
    hide VerdictOn, Admissible, HasParents, Carries, Lawful, RootsFirst, IndexOf;
    DynastyKeys();
    DynastyProper();
    DynastyCarries(Asks(UP, MIDDLE2), 2);
    assert accepted[1] == Kept(TOP2, 2);
    AcceptedNext(DYNASTY, accepted, Kept(MIDDLE2, 2), UP, Kept(TOP2, 2));
    LawfulOneMore(DYNASTY, accepted, Kept(MIDDLE2, 2));
  }

  /** Before the second middle row the leaf is accepted. */
  lemma LeafAccepted()
    ensures var start := [Kept(TOP1, 1), Kept(TOP2, 2), Kept(MIDDLE1, 1), Kept(LEAF, 1)];
      Lawful(DYNASTY, start) && RootsFirst(DYNASTY, start)
  {
    hide VerdictOn, Admissible, HasParents, Carries, Lawful, RootsFirst, IndexOf;
    DynastyKeys();
    DynastyProper();
    DynastyCarries(Asks(UP_MIDDLE, LEAF), 7);
    StartLawful();
    var start := [Kept(TOP1, 1), Kept(TOP2, 2), Kept(MIDDLE1, 1)];
    assert start[2] == Kept(MIDDLE1, 1);
    AcceptedNext(DYNASTY, start, Kept(LEAF, 1), UP_MIDDLE, Kept(MIDDLE1, 1));
    LawfulOneMore(DYNASTY, start, Kept(LEAF, 1));
    assert start + [Kept(LEAF, 1)] == [Kept(TOP1, 1), Kept(TOP2, 2), Kept(MIDDLE1, 1), Kept(LEAF, 1)];
  }

  /** After it the leaf is in conflict. */
  lemma LeafInConflict()
    ensures VerdictOn(DYNASTY, LEAF, IndexOf(DYNASTY, AFTER)) == Conflicting
  {
    hide IndexOf, Carries;
    DynastyKeys();
    var slot := Asks(UP_MIDDLE, LEAF);
    DynastyCarries(slot, 7);
    IndexIsScan(DYNASTY, AFTER);
    var e := Get(IndexOf(DYNASTY, AFTER), slot);
    BothCarry(AFTER, 2, 3, slot, e);
    assert UP_MIDDLE in ForeignKeys(DYNASTY, LEAF) && Ambiguous(UP_MIDDLE, LEAF, IndexOf(DYNASTY, AFTER));
  }

  lemma BothCarry(accepted: seq<Kept>, i: nat, j: nat, slot: Slot, e: Option<Entry>)
    requires i < |accepted| && j < |accepted| && accepted[i].n != accepted[j].n
    requires Carries(DYNASTY, accepted[i], slot) && Carries(DYNASTY, accepted[j], slot)
    requires Agrees(e, Mirror(DYNASTY, accepted), slot)
    ensures e == Some(Conflict)
  {
    hide AsIndexed, Supplies;
    var indexed := Mirror(DYNASTY, accepted);
    assert Supplies(indexed[i].row, slot) && Supplies(indexed[j].row, slot);
  }

  /** The same five rows in two orders: between the middle rows the leaf is kept, and
      stays kept when its key becomes contested; after them it is refused. */
  lemma OrderMatters(passes: nat)
    requires passes >= 2
    ensures var (st, limited) := Filter(DYNASTY, [TOP1, TOP2, MIDDLE1, LEAF, MIDDLE2], passes);
      !limited && st.accepted == BETWEEN
    ensures var (st, limited) := Filter(DYNASTY, [TOP1, TOP2, MIDDLE1, MIDDLE2, LEAF], passes);
      !limited && st.accepted == AFTER
  {
    hide Filter, Lawful, RootsFirst, IndexOf, VerdictOn;
    LeafAccepted();
    SecondMiddle([Kept(TOP1, 1), Kept(TOP2, 2), Kept(MIDDLE1, 1), Kept(LEAF, 1)]);
    assert [Kept(TOP1, 1), Kept(TOP2, 2), Kept(MIDDLE1, 1), Kept(LEAF, 1)] + [Kept(MIDDLE2, 2)] == BETWEEN;
    Rerun(DYNASTY, BETWEEN, [], passes);
    assert KeptRows(BETWEEN) + [] == [TOP1, TOP2, MIDDLE1, LEAF, MIDDLE2];
    StartLawful();
    SecondMiddle([Kept(TOP1, 1), Kept(TOP2, 2), Kept(MIDDLE1, 1)]);
    assert [Kept(TOP1, 1), Kept(TOP2, 2), Kept(MIDDLE1, 1)] + [Kept(MIDDLE2, 2)] == AFTER;
    LeafInConflict();
    Rerun(DYNASTY, AFTER, [LEAF], passes);
    assert KeptRows(AFTER) + [LEAF] == [TOP1, TOP2, MIDDLE1, MIDDLE2, LEAF];
  }
}
