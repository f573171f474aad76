/** The filter run as a function of the dump: one reading pass with an empty index,
    one pass that indexes the rows kept so far, and replay passes over the waiting
    rows.  Whatever the order of the dump, a run that ends keeps what ProvenRows
    says. */
module DumpRun {
  import opened Values
  import opened RelationshipIndex
  import opened ProvenRows

  // ---------------------------------------------------------------- counters

  function InTable(rows: seq<Row>, table: string): nat {
    if rows == [] then 0
    else InTable(rows[..|rows| - 1], table) + (if rows[|rows| - 1].table == table then 1 else 0)
  }

  function Tally(counts: map<string, Counts>, table: string): Counts {
    if table in counts then counts[table] else Counts(0, 0)
  }

  ghost predicate CountsAgree(st: State) {
    forall table :: Tally(st.counts, table) ==
      Counts(InTable(KeptRows(st.accepted), table), InTable(RefusedRows(st.refused), table))
  }

  function AcceptRow(st: State, row: Row, n: int): State {
    var c := Tally(st.counts, row.table);
    st.(accepted := st.accepted + [Kept(row, n)], counts := st.counts[row.table := Counts(c.accepted + 1, c.rejected)])
  }

  function RejectRow(st: State, row: Row, reason: Reason): State {
    var c := Tally(st.counts, row.table);
    st.(refused := st.refused + [Refused(row, reason)],
        counts := st.counts[row.table := Counts(c.accepted, c.rejected + 1)])
  }

  lemma AcceptCounts(st: State, row: Row, n: int)
    requires CountsAgree(st)
    ensures CountsAgree(AcceptRow(st, row, n))
  {
    var st' := AcceptRow(st, row, n);
    assert KeptRows(st'.accepted) == KeptRows(st.accepted) + [row];
    forall table
      ensures Tally(st'.counts, table) ==
              Counts(InTable(KeptRows(st'.accepted), table), InTable(RefusedRows(st'.refused), table))
    {
      assert Tally(st.counts, table) ==
             Counts(InTable(KeptRows(st.accepted), table), InTable(RefusedRows(st.refused), table));
    }
  }

  lemma RejectCounts(st: State, row: Row, reason: Reason)
    requires CountsAgree(st)
    ensures CountsAgree(RejectRow(st, row, reason))
  {
    var st' := RejectRow(st, row, reason);
    assert RefusedRows(st'.refused) == RefusedRows(st.refused) + [row];
    forall table
      ensures Tally(st'.counts, table) ==
              Counts(InTable(KeptRows(st'.accepted), table), InTable(RefusedRows(st'.refused), table))
    {
      assert Tally(st.counts, table) ==
             Counts(InTable(KeptRows(st.accepted), table), InTable(RefusedRows(st.refused), table));
    }
  }

  lemma {:induction false} InTableConcat(a: seq<Row>, b: seq<Row>, table: string)
    ensures InTable(a + b, table) == InTable(a, table) + InTable(b, table)
  {
    if b == [] {
      assert a + b == a;
    } else {
      var last := |b| - 1;
      InTableConcat(a, b[..last], table);
      assert (a + b)[..|a + b| - 1] == a + b[..last];
    }
  }

  lemma TakeOut(rows: seq<Row>, j: nat, table: string)
    requires j < |rows|
    ensures multiset(rows) == multiset(rows[..j] + rows[j + 1..]) + multiset{rows[j]}
    ensures InTable(rows, table) ==
            InTable(rows[..j] + rows[j + 1..], table) + if rows[j].table == table then 1 else 0
  {
    assert rows == (rows[..j] + [rows[j]]) + rows[j + 1..];
    InTableConcat(rows[..j] + [rows[j]], rows[j + 1..], table);
    InTableConcat(rows[..j], rows[j + 1..], table);
  }

  lemma SameRest(a: multiset<Row>, b: multiset<Row>, a': multiset<Row>, b': multiset<Row>, row: Row)
    requires a == b && a == a' + multiset{row} && b == b' + multiset{row}
    ensures a' == b'
  {
    assert a' == a - multiset{row} && b' == b - multiset{row};
  }

  /** The number of rows of a table depends on the rows, not on their order. */
  lemma {:induction false} InTableSame(a: seq<Row>, b: seq<Row>, table: string)
    requires multiset(a) == multiset(b)
    ensures InTable(a, table) == InTable(b, table)
    decreases |a|
  {
    if a == [] {
      assert |multiset(b)| == 0;
    } else {
      var row := a[0];
      assert row in multiset(a);
      var j :| 0 <= j < |b| && b[j] == row;
      var a', b' := a[..0] + a[1..], b[..j] + b[j + 1..];
      TakeOut(a, 0, table);
      TakeOut(b, j, table);
      SameRest(multiset(a), multiset(b), multiset(a'), multiset(b'), row);
      InTableSame(a', b', table);
    }
  }

  /** Accepted, rejected and waiting rows of a table add up to its rows read. */
  lemma CountsConserved(rows: seq<Row>, st: State, waiting: seq<Row>, table: string)
    requires Partition(rows, st, waiting) && CountsAgree(st)
    ensures Tally(st.counts, table).accepted + Tally(st.counts, table).rejected + InTable(waiting, table)
            == InTable(rows, table)
  {
    var kept, refused := KeptRows(st.accepted), RefusedRows(st.refused);
    InTableSame(rows, kept + refused + waiting, table);
    InTableConcat(kept + refused, waiting, table);
    InTableConcat(kept, refused, table);
    assert Tally(st.counts, table) == Counts(InTable(kept, table), InTable(refused, table));
  }

  // ---------------------------------------------------------------- the run

  function Empty(): State {
    State(map[], [], [], map[])
  }

  datatype Reading = Reading(st: State, waiting: seq<Row>)

  /** One row while the dump is read. */
  ghost function ReadOne(ctx: Context, r: Reading, row: Row): Reading {
    if row.table !in ctx.schemas then r.(st := RejectRow(r.st, row, SchemaUnknown))
    else if row.fault.Some? then r.(st := RejectRow(r.st, row, row.fault.value))
    else
      match VerdictOn(ctx, row, r.st.index)
      case Accepted(n) => r.(st := AcceptRow(r.st, row, n))
      case Pending => r.(waiting := r.waiting + [row])
      case v => r.(st := RejectRow(r.st, row, ReasonFor(v)))
  }

  ghost function ReadAll(ctx: Context, rows: seq<Row>): Reading {
    if rows == [] then Reading(Empty(), [])
    else ReadOne(ctx, ReadAll(ctx, rows[..|rows| - 1]), rows[|rows| - 1])
  }

  /** The index is built from the rows kept while reading. */
  ghost function Indexed(ctx: Context, st: State): State {
    st.(index := IndexOf(ctx, st.accepted))
  }

  datatype Pass = Pass(st: State, next: seq<Row>, progress: bool)

  function AcceptAndIndex(ctx: Context, st: State, row: Row, n: int): State {
    AcceptRow(st, row, n).(index := Enter(ctx, st.index, Kept(row, n)))
  }

  /** One waiting row of a pass: kept, passed on, or refused. */
  ghost function ReplayOne(ctx: Context, p: Pass, row: Row): Pass {
    match VerdictOn(ctx, row, p.st.index)
    case Accepted(n) => Pass(AcceptAndIndex(ctx, p.st, row, n), p.next, true)
    case Pending => p.(next := p.next + [row])
    case v => p.(st := RejectRow(p.st, row, ReasonFor(v)))
  }

  ghost function PassOver(ctx: Context, st: State, waiting: seq<Row>): Pass {
    if waiting == [] then Pass(st, [], false)
    else ReplayOne(ctx, PassOver(ctx, st, waiting[..|waiting| - 1]), waiting[|waiting| - 1])
  }

  function RejectAll(st: State, left: seq<Row>): State {
    if left == [] then st
    else RejectRow(RejectAll(st, left[..|left| - 1]), left[|left| - 1], RelationshipUnproven)
  }

  /** The replay; the second result is the error for too many passes. */
  ghost function ReplayFrom(ctx: Context, st: State, waiting: seq<Row>, passes: nat): (State, bool)
    decreases passes
  {
    if waiting == [] then (st, false)
    else if passes == 0 then (st, true)
    else
      var p := PassOver(ctx, st, waiting);
      if p.progress then ReplayFrom(ctx, p.st, p.next, passes - 1) else (RejectAll(p.st, p.next), false)
  }

  ghost function Filter(ctx: Context, rows: seq<Row>, passes: nat): (State, bool) {
    var r := ReadAll(ctx, rows);
    ReplayFrom(ctx, Indexed(ctx, r.st), r.waiting, passes)
  }

  // ---------------------------------------------------------------- moving one row

  lemma AcceptMoves(rows: seq<Row>, st: State, row: Row, n: int, next: seq<Row>, rest: seq<Row>)
    requires Partition(rows, st, next + ([row] + rest))
    ensures Partition(rows, AcceptRow(st, row, n), next + rest)
  {
    assert KeptRows(AcceptRow(st, row, n).accepted) == KeptRows(st.accepted) + [row];
  }

  lemma RejectMoves(rows: seq<Row>, st: State, row: Row, reason: Reason, next: seq<Row>, rest: seq<Row>)
    requires Partition(rows, st, next + ([row] + rest))
    ensures Partition(rows, RejectRow(st, row, reason), next + rest)
  {
    assert RefusedRows(RejectRow(st, row, reason).refused) == RefusedRows(st.refused) + [row];
  }

  // ---------------------------------------------------------------- reading the dump

  /** Rows wait for a parent. */
  ghost predicate AllWaiters(ctx: Context, rows: seq<Row>) {
    forall row :: row in rows ==> Proper(ctx, row) && HasParents(ctx, row)
  }

  /** Rows kept while reading have no parent to wait for. */
  ghost predicate AllRoots(ctx: Context, accepted: seq<Kept>) {
    forall k :: k in accepted ==>
      Proper(ctx, k.row) && !HasParents(ctx, k.row) && VerdictOn(ctx, k.row, map[]) == Accepted(k.n)
  }

  ghost predicate ReadFacts(ctx: Context, r: Reading) {
    && r.st.index == map[]
    && CountsAgree(r.st)
    && AllRoots(ctx, r.st.accepted)
    && RefusalsStand(ctx, r.st.refused, map[])
    && AllWaiters(ctx, r.waiting)
  }

  /** With an empty index, rows with parents wait and others are decided. */
  lemma EmptyIndex(ctx: Context, row: Row)
    requires Proper(ctx, row)
    ensures VerdictOn(ctx, row, map[]).Pending? <==> HasParents(ctx, row)
  {
    var fks := ForeignKeys(ctx, row);
    assert forall fk :: fk in fks ==> (Missing(fk, row, map[]) <==> Active(fk, row));
    assert Proofs(fks, row, map[]) == Direct(row);
  }

  lemma ReadOneFacts(ctx: Context, r: Reading, row: Row, rows: seq<Row>)
    requires ReadFacts(ctx, r) && Partition(rows, r.st, r.waiting)
    ensures ReadFacts(ctx, ReadOne(ctx, r, row)) && Partition(rows + [row], ReadOne(ctx, r, row).st, ReadOne(ctx, r, row).waiting)
  {
    hide Partition, CountsAgree, VerdictOn, HasParents;
    var more := rows + [row];
    OneMore(rows, r.st, r.waiting, row);
    if row.table !in ctx.schemas || row.fault.Some? {
      var reason := if row.table !in ctx.schemas then SchemaUnknown else row.fault.value;
      RejectCounts(r.st, row, reason);
      RejectMoves(more, r.st, row, reason, r.waiting, []);
    } else {
      EmptyIndex(ctx, row);
      var v := VerdictOn(ctx, row, map[]);
      if v.Accepted? {
        AcceptCounts(r.st, row, v.n);
        AcceptMoves(more, r.st, row, v.n, r.waiting, []);
      } else if !v.Pending? {
        RejectCounts(r.st, row, ReasonFor(v));
        RejectMoves(more, r.st, row, ReasonFor(v), r.waiting, []);
      }
    }
    assert r.waiting + [] == r.waiting;
  }

  lemma OneMore(rows: seq<Row>, st: State, waiting: seq<Row>, row: Row)
    requires Partition(rows, st, waiting)
    ensures Partition(rows + [row], st, waiting + ([row] + []))
    ensures Partition(rows + [row], st, waiting + [row])
  {
    assert [row] + [] == [row];
  }

  lemma NothingRead(ctx: Context)
    ensures ReadFacts(ctx, Reading(Empty(), [])) && Partition([], Empty(), [])
  {
  }

  lemma {:induction false} ReadAllFacts(ctx: Context, rows: seq<Row>)
    ensures ReadFacts(ctx, ReadAll(ctx, rows)) && Partition(rows, ReadAll(ctx, rows).st, ReadAll(ctx, rows).waiting)
  {
    hide ReadFacts, Partition, ReadOne;
    if rows == [] {
      NothingRead(ctx);
    } else {
      var last := |rows| - 1;
      ReadAllFacts(ctx, rows[..last]);
      ReadOneFacts(ctx, ReadAll(ctx, rows[..last]), rows[last], rows[..last]);
      assert rows[..last] + [rows[last]] == rows;
    }
  }

  // ---------------------------------------------------------------- indexing what was kept

  lemma StillRefused(ctx: Context, refused: seq<Refused>, index: Index, index': Index)
    requires RefusalsStand(ctx, refused, index) && Grows(index, index') && TargetsOnly(ctx, index)
    ensures RefusalsStand(ctx, refused, index')
  {
    hide VerdictOn, Grows, TargetsOnly;
    forall i | 0 <= i < |refused|
      ensures Justified(ctx, refused[i], index')
    {
      if Proper(ctx, refused[i].row) {
        assert Justified(ctx, refused[i], index);
        RefusalStands(ctx, refused[i].row, index, index');
      }
    }
  }

  lemma RootsAreLawful(ctx: Context, accepted: seq<Kept>)
    requires AllRoots(ctx, accepted)
    ensures Lawful(ctx, accepted) && RootsFirst(ctx, accepted)
  {
    hide VerdictOn, IndexOf, HasParents;
    forall i | 0 <= i < |accepted|
      ensures AcceptedAt(ctx, accepted, i)
    {
      IndexIgnored(ctx, accepted[i].row, map[], IndexOf(ctx, accepted[..i]));
    }
  }

  ghost predicate ReplayFacts(ctx: Context, rows: seq<Row>, st: State, waiting: seq<Row>) {
    && Inv(ctx, st)
    && RefusalsStand(ctx, st.refused, st.index)
    && CountsAgree(st)
    && Partition(rows, st, waiting)
    && AllWaiters(ctx, waiting)
  }

  lemma IndexedFacts(ctx: Context, rows: seq<Row>)
    ensures ReplayFacts(ctx, rows, Indexed(ctx, ReadAll(ctx, rows).st), ReadAll(ctx, rows).waiting)
  {
    hide ReadAll, IndexOf, RefusalsStand, AllRoots, AllWaiters, Lawful, RootsFirst;
    var r := ReadAll(ctx, rows);
    ReadAllFacts(ctx, rows);
    RootsAreLawful(ctx, r.st.accepted);
    StillRefused(ctx, r.st.refused, map[], IndexOf(ctx, r.st.accepted));
  }

  // ---------------------------------------------------------------- one waiting row

  ghost predicate StillPending(ctx: Context, rows: seq<Row>, index: Index) {
    forall row :: row in rows ==> Proper(ctx, row) && VerdictOn(ctx, row, index).Pending?
  }

  /** One more row, accepted by the index of the others, keeps the list lawful. */
  lemma LawfulOneMore(ctx: Context, accepted: seq<Kept>, k: Kept)
    requires Lawful(ctx, accepted) && RootsFirst(ctx, accepted)
    requires Proper(ctx, k.row) && HasParents(ctx, k.row)
    requires VerdictOn(ctx, k.row, IndexOf(ctx, accepted)) == Accepted(k.n)
    ensures Lawful(ctx, accepted + [k]) && RootsFirst(ctx, accepted + [k])
    ensures IndexOf(ctx, accepted + [k]) == Enter(ctx, IndexOf(ctx, accepted), k)
  {
    hide VerdictOn, HasParents, Enter;
    var more := accepted + [k];
    assert more[..|accepted|] == accepted;
    forall i | 0 <= i < |more|
      ensures AcceptedAt(ctx, more, i)
    {
      if i < |accepted| {
        assert more[..i] == accepted[..i];
        assert AcceptedAt(ctx, accepted, i);
      }
    }
  }

  /** Accepting a waiting row and indexing it keeps the invariant, and every refusal
      stands. */
  lemma AcceptKeepsInv(ctx: Context, st: State, row: Row, n: int)
    requires Inv(ctx, st) && RefusalsStand(ctx, st.refused, st.index) && Proper(ctx, row) && HasParents(ctx, row)
    requires VerdictOn(ctx, row, st.index) == Accepted(n)
    ensures Inv(ctx, AcceptAndIndex(ctx, st, row, n))
    ensures RefusalsStand(ctx, st.refused, AcceptAndIndex(ctx, st, row, n).index)
    ensures Grows(st.index, AcceptAndIndex(ctx, st, row, n).index)
  {
    hide VerdictOn, HasParents, RefusalsStand, Lawful, RootsFirst, IndexOf;
    var k := Kept(row, n);
    LawfulOneMore(ctx, st.accepted, k);
    IndexHoldsTargets(ctx, st.accepted);
    IndexGrows(ctx, st.accepted + [k], |st.accepted|);
    assert (st.accepted + [k])[..|st.accepted|] == st.accepted;
    StillRefused(ctx, st.refused, st.index, Enter(ctx, st.index, k));
  }

  lemma ReplayOneFacts(ctx: Context, rows: seq<Row>, p: Pass, row: Row, rest: seq<Row>)
    requires ReplayFacts(ctx, rows, p.st, p.next + ([row] + rest))
    ensures var q := ReplayOne(ctx, p, row);
      && ReplayFacts(ctx, rows, q.st, q.next + rest)
      && p.st.accepted <= q.st.accepted
  {
    hide Inv, VerdictOn, Partition, CountsAgree, HasParents, RefusalsStand, Proper, Enter;
    assert row in p.next + ([row] + rest);
    assert forall x :: x in p.next + rest ==> x in p.next + ([row] + rest);
    var v := VerdictOn(ctx, row, p.st.index);
    if v.Accepted? {
      AcceptKeepsInv(ctx, p.st, row, v.n);
      AcceptCounts(p.st, row, v.n);
      AcceptMoves(rows, p.st, row, v.n, p.next, rest);
      IndexPlaysNoPart(rows, AcceptRow(p.st, row, v.n), AcceptAndIndex(ctx, p.st, row, v.n), p.next + rest);
    } else if v.Pending? {
      assert p.next + ([row] + rest) == (p.next + [row]) + rest;
    } else {
      ReplayReject(ctx, rows, p.st, row, p.next, rest);
    }
  }

  lemma IndexPlaysNoPart(rows: seq<Row>, st: State, st': State, waiting: seq<Row>)
    requires Partition(rows, st, waiting) && CountsAgree(st) && st' == st.(index := st'.index)
    ensures Partition(rows, st', waiting) && CountsAgree(st')
  {
    assert forall table :: Tally(st.counts, table) == Tally(st'.counts, table);
  }

  lemma ReplayReject(ctx: Context, rows: seq<Row>, st: State, row: Row, next: seq<Row>, rest: seq<Row>)
    requires ReplayFacts(ctx, rows, st, next + ([row] + rest))
    requires Final(VerdictOn(ctx, row, st.index))
    ensures ReplayFacts(ctx, rows, RejectRow(st, row, ReasonFor(VerdictOn(ctx, row, st.index))), next + rest)
  {
    hide VerdictOn, IndexOf, Lawful, Partition, CountsAgree, HasParents, RootsFirst;
    assert row in next + ([row] + rest);
    assert forall x :: x in next + rest ==> x in next + ([row] + rest);
    var reason := ReasonFor(VerdictOn(ctx, row, st.index));
    RejectCounts(st, row, reason);
    RejectMoves(rows, st, row, reason, next, rest);
  }

  // ---------------------------------------------------------------- one pass

  /** What a pass that began with st has done after some rows. */
  ghost predicate PassSoFar(ctx: Context, st: State, p: Pass, done: nat) {
    && st.accepted <= p.st.accepted
    && |p.next| <= done && (p.progress ==> |p.next| < done)
    && (!p.progress ==> p.st.index == st.index && p.st.accepted == st.accepted && StillPending(ctx, p.next, st.index))
  }

  lemma PassOneMore(ctx: Context, st: State, p: Pass, done: nat, row: Row)
    requires PassSoFar(ctx, st, p, done) && Proper(ctx, row)
    ensures PassSoFar(ctx, st, ReplayOne(ctx, p, row), done + 1)
  {
    hide VerdictOn, Enter;
  }

  lemma NothingPassed(ctx: Context, st: State)
    ensures PassOver(ctx, st, []) == Pass(st, [], false) && PassSoFar(ctx, st, Pass(st, [], false), 0)
  {
  }

  lemma PassStep(ctx: Context, st: State, waiting: seq<Row>, i: nat)
    requires i < |waiting|
    ensures PassOver(ctx, st, waiting[..i + 1]) == ReplayOne(ctx, PassOver(ctx, st, waiting[..i]), waiting[i])
  {
    assert waiting[..i + 1][..i] == waiting[..i];
  }

  /** A pass makes progress and shrinks the waiting list, or it leaves the index
      alone and every row it passes on still waits for a parent. */
  lemma {:induction false} PassFacts(ctx: Context, rows: seq<Row>, st: State, waiting: seq<Row>, i: nat)
    requires ReplayFacts(ctx, rows, st, waiting) && i <= |waiting|
    ensures var p := PassOver(ctx, st, waiting[..i]);
      ReplayFacts(ctx, rows, p.st, p.next + waiting[i..]) && PassSoFar(ctx, st, p, i)
  {
    hide ReplayFacts, PassSoFar, ReplayOne, PassOver;
    if i == 0 {
      NothingPassed(ctx, st);
      assert [] + waiting[0..] == waiting;
    } else {
      PassFacts(ctx, rows, st, waiting, i - 1);
      var p := PassOver(ctx, st, waiting[..i - 1]);
      assert waiting[i - 1..] == [waiting[i - 1]] + waiting[i..];
      PassStep(ctx, st, waiting, i - 1);
      ReplayOneFacts(ctx, rows, p, waiting[i - 1], waiting[i..]);
      WaitersProper(ctx, rows, st, waiting, waiting[i - 1]);
      PassOneMore(ctx, st, p, i - 1, waiting[i - 1]);
    }
  }

  lemma WaitersProper(ctx: Context, rows: seq<Row>, st: State, waiting: seq<Row>, row: Row)
    requires ReplayFacts(ctx, rows, st, waiting) && row in waiting
    ensures Proper(ctx, row) && HasParents(ctx, row)
  {
  }

  lemma WholePass(ctx: Context, rows: seq<Row>, st: State, waiting: seq<Row>)
    requires ReplayFacts(ctx, rows, st, waiting)
    ensures var p := PassOver(ctx, st, waiting);
      ReplayFacts(ctx, rows, p.st, p.next) && PassSoFar(ctx, st, p, |waiting|)
  {
    hide ReplayFacts, PassSoFar, PassOver;
    PassFacts(ctx, rows, st, waiting, |waiting|);
    assert waiting[..|waiting|] == waiting;
    assert PassOver(ctx, st, waiting).next + waiting[|waiting|..] == PassOver(ctx, st, waiting).next;
  }

  // ---------------------------------------------------------------- the end

  /** What a finished replay guarantees. */
  ghost predicate Finished(ctx: Context, rows: seq<Row>, st: State) {
    Ended(ctx, rows, st) && CountsAgree(st)
  }

  ghost predicate GivingUp(ctx: Context, rows: seq<Row>, st: State, left: seq<Row>) {
    && Inv(ctx, st)
    && CountsAgree(st)
    && Partition(rows, st, left)
    && RefusalsFinal(ctx, st.refused, st.index)
    && StillPending(ctx, left, st.index)
  }

  lemma GiveUpOne(ctx: Context, rows: seq<Row>, st: State, row: Row, rest: seq<Row>)
    requires GivingUp(ctx, rows, st, [row] + rest)
    ensures GivingUp(ctx, rows, RejectRow(st, row, RelationshipUnproven), rest)
  {
    hide Partition, CountsAgree, VerdictOn, Lawful, IndexOf, RootsFirst, Proper;
    assert row in [row] + rest;
    assert forall x :: x in rest ==> x in [row] + rest;
    assert [] + ([row] + rest) == [row] + rest && [] + rest == rest;
    RejectCounts(st, row, RelationshipUnproven);
    RejectMoves(rows, st, row, RelationshipUnproven, [], rest);
  }

  /** After a pass without progress all that is left is refused as unproven. */
  lemma {:induction false} RejectAllFacts(ctx: Context, rows: seq<Row>, st: State, left: seq<Row>, i: nat)
    requires GivingUp(ctx, rows, st, left) && i <= |left|
    ensures var st' := RejectAll(st, left[..i]);
      GivingUp(ctx, rows, st', left[i..]) && st'.accepted == st.accepted && st'.index == st.index
  {
    hide GivingUp;
    if i == 0 {
      assert left[0..] == left;
    } else {
      RejectAllFacts(ctx, rows, st, left, i - 1);
      assert left[i - 1..] == [left[i - 1]] + left[i..];
      assert left[..i][..i - 1] == left[..i - 1];
      GiveUpOne(ctx, rows, RejectAll(st, left[..i - 1]), left[i - 1], left[i..]);
    }
  }

  lemma AllRejected(ctx: Context, rows: seq<Row>, st: State, left: seq<Row>)
    requires GivingUp(ctx, rows, st, left)
    ensures Finished(ctx, rows, RejectAll(st, left)) && RejectAll(st, left).accepted == st.accepted
  {
    RejectAllFacts(ctx, rows, st, left, |left|);
    assert left[..|left|] == left && left[|left|..] == [];
  }

  lemma ReplayDone(ctx: Context, rows: seq<Row>, st: State, waiting: seq<Row>)
    requires ReplayFacts(ctx, rows, st, waiting)
    ensures waiting == [] ==> Finished(ctx, rows, st)
    ensures StillPending(ctx, waiting, st.index) ==> GivingUp(ctx, rows, st, waiting)
  {
  }

  /** All passes: without the limit error everything is decided, and with no more
      waiting rows than passes the limit cannot strike. */
  lemma {:induction false} ReplayEnds(ctx: Context, rows: seq<Row>, st: State, waiting: seq<Row>, passes: nat)
    requires ReplayFacts(ctx, rows, st, waiting)
    ensures var (st', limited) := ReplayFrom(ctx, st, waiting, passes);
      && st.accepted <= st'.accepted
      && (!limited ==> Finished(ctx, rows, st'))
      && (|waiting| <= passes ==> !limited)
    decreases passes
  {
    hide ReplayFacts, Finished, GivingUp, PassOver, RejectAll, StillPending;
    ReplayDone(ctx, rows, st, waiting);
    if waiting != [] && passes > 0 {
      var p := PassOver(ctx, st, waiting);
      WholePass(ctx, rows, st, waiting);
      if p.progress {
        ReplayEnds(ctx, rows, p.st, p.next, passes - 1);
      } else {
        ReplayDone(ctx, rows, p.st, p.next);
        AllRejected(ctx, rows, p.st, p.next);
      }
    }
  }

  /** The whole run. */
  lemma FilterEnds(ctx: Context, rows: seq<Row>, passes: nat)
    ensures var (st, limited) := Filter(ctx, rows, passes);
      && (!limited ==> Finished(ctx, rows, st))
      && (|rows| <= passes ==> !limited)
      && ReadAll(ctx, rows).st.accepted <= st.accepted
  {
    hide ReplayFacts, Finished, ReadAll, ReplayFrom, IndexOf;
    IndexedFacts(ctx, rows);
    var r := ReadAll(ctx, rows);
    ReplayEnds(ctx, rows, Indexed(ctx, r.st), r.waiting, passes);
    AtMost(ctx, rows, Indexed(ctx, r.st), r.waiting);
  }

  lemma AtMost(ctx: Context, rows: seq<Row>, st: State, waiting: seq<Row>)
    requires ReplayFacts(ctx, rows, st, waiting)
    ensures |waiting| <= |rows|
  {
    assert |multiset(rows)| == |rows| && |multiset(waiting)| == |waiting|;
    assert multiset(waiting) <= multiset(rows);
  }

  /** The places that hold a row of a table. */
  ghost function PlacesOf(rows: seq<Row>, table: string): set<int> {
    set i | 0 <= i < |rows| && rows[i].table == table
  }

  lemma OneMoreRow(rows: seq<Row>, table: string)
    requires rows != []
    ensures var last := |rows| - 1;
      && last !in PlacesOf(rows[..last], table)
      && PlacesOf(rows, table) == PlacesOf(rows[..last], table) + if rows[last].table == table then {last} else {}
  {
  }

  /** The number of rows of a table, counted by their places. */
  lemma {:induction false} InTableIs(rows: seq<Row>, table: string)
    ensures InTable(rows, table) == |PlacesOf(rows, table)|
  {
    hide PlacesOf;
    if rows != [] {
      InTableIs(rows[..|rows| - 1], table);
      OneMoreRow(rows, table);
    } else {
      NoRows(table);
    }
  }

  lemma NoRows(table: string)
    ensures PlacesOf([], table) == {}
  {
  }

  /** Why a proper row was refused: its number is no target, its keys or numbers clash,
      or it has neither number nor parents, or a key of it never found a parent. */
  lemma RefusalMeans(ctx: Context, rows: seq<Row>, st: State, i: nat)
    requires Finished(ctx, rows, st) && i < |st.refused| && Proper(ctx, st.refused[i].row)
    ensures var row := st.refused[i].row; var reason := st.refused[i].reason;
      var fks := ctx.schemas[row.table].foreignKeys;
      && (reason == RelationshipConflict <==> Clashes(fks, row, st.index))
      && (reason == SeqNotTarget <==>
            !HasParents(ctx, row) && exists n :: "seqno" in row.fields && row.fields["seqno"] == Int(n) && n !in ctx.targets)
      && (reason == RelationshipUnproven <==>
            !Clashes(fks, row, st.index) &&
            (Waits(fks, row, st.index) || (!HasParents(ctx, row) && forall n :: !Says(fks, row, st.index, n))))
  {
    hide Lawful, IndexOf, RootsFirst, Partition, CountsAgree, Clashes, Waits, Says;
    var r := st.refused[i];
    var fks := ctx.schemas[r.row.table].foreignKeys;
    assert Justified(ctx, r, st.index) || GivenUp(ctx, r, st.index);
    VerdictIff(fks, r.row, ctx.targets, st.index);
    IndexHoldsTargets(ctx, st.accepted);
    var v := VerdictOn(ctx, r.row, st.index);
    if v.NotTarget? || v.Unproven? {
      NothingToAsk(ctx, r.row, st.index);
    }
    if !HasParents(ctx, r.row) {
      OwnNumber(ctx, r.row, st.index);
    }
  }

  /** Without parents a row has no number but its own. */
  lemma OwnNumber(ctx: Context, row: Row, index: Index)
    requires Proper(ctx, row) && !HasParents(ctx, row)
    ensures forall n :: Says(ctx.schemas[row.table].foreignKeys, row, index, n) <==>
      "seqno" in row.fields && row.fields["seqno"] == Int(n)
    ensures !Waits(ctx.schemas[row.table].foreignKeys, row, index)
    ensures !Clashes(ctx.schemas[row.table].foreignKeys, row, index)
  {
    forall fk | fk in ctx.schemas[row.table].foreignKeys
      ensures !Filled(row, fk.local)
    {
      assert !Active(fk, row);
    }
  }

  /** What a run has done, in terms of the dump alone: the counts of every table are
      those of the rows kept and refused and add up; every refusal has the reason that the final index gives; no row outside the
      least closed set is kept; where rows without parents contest the keys, the rows
      kept are that set exactly when none of its rows leads to a contested key; and
      when none does, every copy of its rows is kept. */
  ghost predicate Meaning(ctx: Context, rows: seq<Row>, st: State) {
    var least := Least(ctx, Elements(rows));
    && (forall table ::
          && Tally(st.counts, table) ==
               Counts(InTable(KeptRows(st.accepted), table), InTable(RefusedRows(st.refused), table))
          && Tally(st.counts, table).accepted + Tally(st.counts, table).rejected == InTable(rows, table))
    && RefusalsFinal(ctx, st.refused, st.index)
    && Elements(st.accepted) <= least
    && (RootsContestAll(ctx, least) ==> (Elements(st.accepted) == least <==> AllClear(ctx, least)))
    && (AllClear(ctx, least) ==>
          forall k :: multiset(st.accepted)[k] == if k in least then multiset(rows)[k.row] else 0)
  }

  lemma CountsAre(st: State, table: string)
    requires CountsAgree(st)
    ensures Tally(st.counts, table) ==
      Counts(InTable(KeptRows(st.accepted), table), InTable(RefusedRows(st.refused), table))
  {
  }

  lemma Conclusion(ctx: Context, rows: seq<Row>, st: State)
    requires Finished(ctx, rows, st)
    ensures Meaning(ctx, rows, st)
  {
    hide Least, AllClear, RootsContestAll, CountsAgree, Inv, RefusalsFinal;
    forall table
      ensures Tally(st.counts, table) ==
        Counts(InTable(KeptRows(st.accepted), table), InTable(RefusedRows(st.refused), table))
      ensures Tally(st.counts, table).accepted + Tally(st.counts, table).rejected == InTable(rows, table)
    {
      CountsConserved(rows, st, [], table);
      CountsAre(st, table);
    }
    KeptAtMostLeast(ctx, rows, st);
    if RootsContestAll(ctx, Least(ctx, Elements(rows))) {
      KeptIsLeastIff(ctx, rows, st);
    }
    if AllClear(ctx, Least(ctx, Elements(rows))) {
      forall k
        ensures multiset(st.accepted)[k] == if k in Least(ctx, Elements(rows)) then multiset(rows)[k.row] else 0
      {
        KeptTimes(ctx, rows, st, k);
      }
    }
  }
}
