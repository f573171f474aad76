/** What the order of the dump can change.

    A list of kept rows in which each row is accepted by the index of those before
    it is the result of some order of the dump, within two passes.  So every order
    keeps the least closed set exactly when no row of that set leads to a contested
    key. */
module RunOrders {
  import opened RelationshipIndex
  import opened ProvenRows
  import opened DumpRun

  // ---------------------------------------------------------------- what reading does

  ghost function Wait(ctx: Context, row: Row): seq<Row> {
    if Proper(ctx, row) && HasParents(ctx, row) then [row] else []
  }

  ghost function Root(ctx: Context, row: Row): seq<Kept> {
    var v := VerdictOn(ctx, row, map[]);
    if Proper(ctx, row) && v.Accepted? then [Kept(row, v.n)] else []
  }

  /** The rows that wait, in the order of the dump. */
  ghost function Waiters(ctx: Context, rows: seq<Row>): seq<Row> {
    if rows == [] then [] else Waiters(ctx, rows[..|rows| - 1]) + Wait(ctx, rows[|rows| - 1])
  }

  /** The rows kept while reading. */
  ghost function Roots(ctx: Context, rows: seq<Row>): seq<Kept> {
    if rows == [] then [] else Roots(ctx, rows[..|rows| - 1]) + Root(ctx, rows[|rows| - 1])
  }

  lemma SplitOneMore(ctx: Context, rows: seq<Row>, row: Row)
    ensures Waiters(ctx, rows + [row]) == Waiters(ctx, rows) + Wait(ctx, row)
    ensures Roots(ctx, rows + [row]) == Roots(ctx, rows) + Root(ctx, row)
  {
    hide Wait, Root;
    assert (rows + [row])[..|rows|] == rows;
  }

  lemma NothingToSplit(ctx: Context)
    ensures Waiters(ctx, []) == [] && Roots(ctx, []) == []
  {
  }

  lemma {:induction false} ReadSplits(ctx: Context, rows: seq<Row>)
    ensures ReadAll(ctx, rows).waiting == Waiters(ctx, rows)
    ensures ReadAll(ctx, rows).st.accepted == Roots(ctx, rows)
    ensures ReadAll(ctx, rows).st.index == map[]
  {
    if rows != [] {
      hide VerdictOn, HasParents;
      var row := rows[|rows| - 1];
      ReadSplits(ctx, rows[..|rows| - 1]);
      if Proper(ctx, row) {
        EmptyIndex(ctx, row);
      }
    }
  }

  lemma {:induction false} SplitConcat(ctx: Context, a: seq<Row>, b: seq<Row>)
    ensures Waiters(ctx, a + b) == Waiters(ctx, a) + Waiters(ctx, b)
    ensures Roots(ctx, a + b) == Roots(ctx, a) + Roots(ctx, b)
  {
    hide Waiters, Roots, Wait, Root;
    if b == [] {
      NothingToSplit(ctx);
      assert a + b == a;
    } else {
      var init, row := b[..|b| - 1], b[|b| - 1];
      SplitConcat(ctx, a, init);
      assert b == init + [row] && a + b == (a + init) + [row];
      SplitOneMore(ctx, init, row);
      SplitOneMore(ctx, a + init, row);
    }
  }

  lemma {:induction false} WaitersAre(ctx: Context, rows: seq<Row>, row: Row)
    ensures row in Waiters(ctx, rows) <==> row in rows && Proper(ctx, row) && HasParents(ctx, row)
  {
    if rows != [] {
      hide HasParents, Proper;
      WaitersAre(ctx, rows[..|rows| - 1], row);
      assert row in rows <==> row in rows[..|rows| - 1] || row == rows[|rows| - 1];
    }
  }

  lemma {:induction false} AllWait(ctx: Context, rows: seq<Row>)
    requires AllWaiters(ctx, rows)
    ensures Waiters(ctx, rows) == rows && Roots(ctx, rows) == []
  {
    hide Waiters, Roots, Wait, Root, AllWaiters;
    if rows == [] {
      NothingToSplit(ctx);
    } else {
      var init, row := rows[..|rows| - 1], rows[|rows| - 1];
      assert rows == init + [row];
      OneWaits(ctx, init, row);
      AllWait(ctx, init);
      SplitOneMore(ctx, init, row);
    }
  }

  lemma OneWaits(ctx: Context, init: seq<Row>, row: Row)
    requires AllWaiters(ctx, init + [row])
    ensures AllWaiters(ctx, init) && Wait(ctx, row) == [row] && Root(ctx, row) == []
  {
    hide VerdictOn, HasParents;
    assert row in init + [row];
    assert forall x :: x in init ==> x in init + [row];
    EmptyIndex(ctx, row);
  }

  lemma {:induction false} NoneWait(ctx: Context, accepted: seq<Kept>)
    requires AllRoots(ctx, accepted)
    ensures Waiters(ctx, KeptRows(accepted)) == [] && Roots(ctx, KeptRows(accepted)) == accepted
  {
    hide Waiters, Roots, Wait, Root, AllRoots;
    if accepted == [] {
      NothingToSplit(ctx);
      assert KeptRows(accepted) == [];
    } else {
      var init, k := accepted[..|accepted| - 1], accepted[|accepted| - 1];
      assert accepted == init + [k] && KeptRows(accepted) == KeptRows(init) + [k.row];
      OneIsKept(ctx, init, k);
      NoneWait(ctx, init);
      SplitOneMore(ctx, KeptRows(init), k.row);
    }
  }

  lemma OneIsKept(ctx: Context, init: seq<Kept>, k: Kept)
    requires AllRoots(ctx, init + [k])
    ensures AllRoots(ctx, init) && Wait(ctx, k.row) == [] && Root(ctx, k.row) == [k]
  {
    hide VerdictOn, HasParents;
    assert k in init + [k];
    assert forall x :: x in init ==> x in init + [k];
  }

  lemma {:induction false} RootsHas(ctx: Context, rows: seq<Row>, k: Kept)
    ensures k in Roots(ctx, rows) <==>
      k.row in rows && Proper(ctx, k.row) && VerdictOn(ctx, k.row, map[]) == Accepted(k.n)
  {
    if rows != [] {
      hide VerdictOn, Proper;
      RootsHas(ctx, rows[..|rows| - 1], k);
      assert k.row in rows <==> k.row in rows[..|rows| - 1] || k.row == rows[|rows| - 1];
    }
  }

  // ---------------------------------------------------------------- a lawful list is the result of some order

  /** Where the rows with parents begin. */
  lemma {:induction false} Divide(ctx: Context, accepted: seq<Kept>) returns (m: nat)
    requires RootsFirst(ctx, accepted)
    ensures m <= |accepted|
    ensures forall i :: 0 <= i < |accepted| ==> (HasParents(ctx, accepted[i].row) <==> m <= i)
  {
    if accepted == [] {
      m := 0;
    } else {
      hide HasParents;
      var last := |accepted| - 1;
      m := Divide(ctx, accepted[..last]);
      if m == last && !HasParents(ctx, accepted[last].row) {
        m := |accepted|;
      } else if m < last {
        assert HasParents(ctx, accepted[m].row) by {
          assert accepted[..last][m] == accepted[m];
        }
      }
    }
  }

  ghost predicate DividedAt(ctx: Context, accepted: seq<Kept>, m: nat) {
    && m <= |accepted|
    && (forall i :: 0 <= i < |accepted| ==> (HasParents(ctx, accepted[i].row) <==> m <= i))
  }

  lemma KeptParts(ctx: Context, accepted: seq<Kept>, m: nat)
    requires Lawful(ctx, accepted) && DividedAt(ctx, accepted, m)
    ensures AllRoots(ctx, accepted[..m]) && AllWaiters(ctx, KeptRows(accepted[m..]))
  {
    hide VerdictOn, HasParents, IndexOf;
    forall k | k in accepted[..m]
      ensures Proper(ctx, k.row) && !HasParents(ctx, k.row) && VerdictOn(ctx, k.row, map[]) == Accepted(k.n)
    {
      var i :| 0 <= i < m && accepted[i] == k;
      assert AcceptedAt(ctx, accepted, i);
      IndexIgnored(ctx, k.row, IndexOf(ctx, accepted[..i]), map[]);
    }
    forall row | row in KeptRows(accepted[m..])
      ensures Proper(ctx, row) && HasParents(ctx, row)
    {
      var i :| 0 <= i < |accepted| - m && KeptRows(accepted[m..])[i] == row;
      assert AcceptedAt(ctx, accepted, m + i);
    }
  }

  /** Reading the kept rows in their order: those without parents are kept at once,
      the others wait. */
  lemma KeptSplit(ctx: Context, accepted: seq<Kept>, m: nat)
    requires Lawful(ctx, accepted) && DividedAt(ctx, accepted, m)
    ensures Waiters(ctx, KeptRows(accepted)) == KeptRows(accepted[m..])
    ensures Roots(ctx, KeptRows(accepted)) == accepted[..m]
  {
    hide Waiters, Roots, Lawful, AllWaiters, AllRoots, HasParents;
    KeptParts(ctx, accepted, m);
    AllWait(ctx, KeptRows(accepted[m..]));
    NoneWait(ctx, accepted[..m]);
    SplitConcat(ctx, KeptRows(accepted[..m]), KeptRows(accepted[m..]));
    assert KeptRows(accepted) == KeptRows(accepted[..m]) + KeptRows(accepted[m..]);
  }

  /** Rows that the index does not accept. */
  ghost predicate NoneAccepted(ctx: Context, rows: seq<Row>, index: Index) {
    forall row :: row in rows ==> !Proper(ctx, row) || !VerdictOn(ctx, row, index).Accepted?
  }

  lemma NoRootLeft(ctx: Context, rest: seq<Row>, index: Index)
    requires NoneAccepted(ctx, rest, index)
    ensures Roots(ctx, rest) == []
  {
    hide VerdictOn, HasParents, Roots;
    if Roots(ctx, rest) != [] {
      var k := Roots(ctx, rest)[0];
      RootsHas(ctx, rest, k);
      EmptyIndex(ctx, k.row);
      IndexIgnored(ctx, k.row, map[], index);
    }
  }

  lemma PassSnoc(ctx: Context, st: State, waiting: seq<Row>, row: Row)
    ensures PassOver(ctx, st, waiting + [row]) == ReplayOne(ctx, PassOver(ctx, st, waiting), row)
  {
    hide ReplayOne;
    assert (waiting + [row])[..|waiting|] == waiting;
  }

  /** A pass over the rows with parents, in the order in which they were kept, keeps
      them again. */
  lemma {:induction false} PassKeeps(ctx: Context, st: State, accepted: seq<Kept>, m: nat, j: nat)
    requires Lawful(ctx, accepted) && DividedAt(ctx, accepted, m) && m <= j <= |accepted|
    requires st.accepted == accepted[..m] && st.index == IndexOf(ctx, accepted[..m])
    ensures var p := PassOver(ctx, st, KeptRows(accepted[m..j]));
      && p.st.accepted == accepted[..j] && p.st.index == IndexOf(ctx, accepted[..j])
      && p.next == [] && p.progress == (m < j)
  {
    hide PassOver, ReplayOne, Lawful, HasParents, IndexOf;
    if j == m {
      NothingPassed(ctx, st);
      assert KeptRows(accepted[m..j]) == [];
    } else {
      var k := accepted[j - 1];
      PassKeeps(ctx, st, accepted, m, j - 1);
      assert accepted[m..j] == accepted[m..j - 1] + [k];
      assert KeptRows(accepted[m..j]) == KeptRows(accepted[m..j - 1]) + [k.row];
      PassSnoc(ctx, st, KeptRows(accepted[m..j - 1]), k.row);
      KeptAgain(ctx, PassOver(ctx, st, KeptRows(accepted[m..j - 1])), accepted, j - 1);
    }
  }

  lemma KeptAgain(ctx: Context, p: Pass, accepted: seq<Kept>, i: nat)
    requires Lawful(ctx, accepted) && i < |accepted| && HasParents(ctx, accepted[i].row)
    requires p.st.accepted == accepted[..i] && p.st.index == IndexOf(ctx, accepted[..i])
    ensures var q := ReplayOne(ctx, p, accepted[i].row);
      && q.st.accepted == accepted[..i + 1] && q.st.index == IndexOf(ctx, accepted[..i + 1])
      && q.next == p.next && q.progress
  {
    hide VerdictOn, HasParents, Enter;
    assert AcceptedAt(ctx, accepted, i);
    assert accepted[..i + 1] == accepted[..i] + [accepted[i]] && accepted[..i + 1][..i] == accepted[..i];
    assert AsIndexed(ctx, accepted[i]) == accepted[i].row;
  }

  /** Rows that the index does not accept change neither the kept rows nor the index. */
  lemma {:induction false} PassIdle(ctx: Context, st: State, first: seq<Row>, more: seq<Row>)
    requires forall row :: row in more ==> Proper(ctx, row)
    requires NoneAccepted(ctx, more, PassOver(ctx, st, first).st.index)
    ensures var p := PassOver(ctx, st, first); var q := PassOver(ctx, st, first + more);
      && q.st.accepted == p.st.accepted && q.st.index == p.st.index && q.progress == p.progress
      && (forall row :: row in q.next ==> row in p.next || row in more)
  {
    if more == [] {
      assert first + more == first;
    } else {
      hide PassOver, ReplayOne, NoneAccepted, Proper;
      var init, row := more[..|more| - 1], more[|more| - 1];
      assert more == init + [row] && first + more == (first + init) + [row];
      assert forall x :: x in init ==> x in more;
      PassIdle(ctx, st, first, init);
      PassSnoc(ctx, st, first + init, row);
      IdleOne(ctx, PassOver(ctx, st, first + init), row);
    }
  }

  lemma IdleOne(ctx: Context, p: Pass, row: Row)
    requires !VerdictOn(ctx, row, p.st.index).Accepted?
    ensures var q := ReplayOne(ctx, p, row);
      && q.st.accepted == p.st.accepted && q.st.index == p.st.index && q.progress == p.progress
      && (forall x :: x in q.next ==> x in p.next || x == row)
  {
    hide VerdictOn;
  }

  lemma {:induction false} RejectAllKeeps(st: State, left: seq<Row>)
    ensures RejectAll(st, left).accepted == st.accepted && RejectAll(st, left).index == st.index
  {
    if left != [] {
      RejectAllKeeps(st, left[..|left| - 1]);
    }
  }

  /** A pass that keeps nothing ends the replay. */
  lemma IdleEnds(ctx: Context, st: State, waiting: seq<Row>, passes: nat)
    requires passes > 0 && (forall row :: row in waiting ==> Proper(ctx, row))
    requires NoneAccepted(ctx, waiting, st.index)
    ensures !ReplayFrom(ctx, st, waiting, passes).1 && ReplayFrom(ctx, st, waiting, passes).0.accepted == st.accepted
  {
    hide NoneAccepted, Proper;
    assert PassOver(ctx, st, []) == Pass(st, [], false);
    PassIdle(ctx, st, [], waiting);
    assert [] + waiting == waiting;
    RejectAllKeeps(PassOver(ctx, st, waiting).st, PassOver(ctx, st, waiting).next);
  }

  lemma ReadAgain(ctx: Context, accepted: seq<Kept>, rest: seq<Row>, m: nat)
    requires Lawful(ctx, accepted) && DividedAt(ctx, accepted, m)
    requires NoneAccepted(ctx, rest, IndexOf(ctx, accepted))
    ensures var r := ReadAll(ctx, KeptRows(accepted) + rest);
      r.st.accepted == accepted[..m] && r.waiting == KeptRows(accepted[m..]) + Waiters(ctx, rest)
  {
    hide Lawful, DividedAt, NoneAccepted, Waiters, Roots, ReadAll, IndexOf;
    KeptSplit(ctx, accepted, m);
    SplitConcat(ctx, KeptRows(accepted), rest);
    NoRootLeft(ctx, rest, IndexOf(ctx, accepted));
    ReadSplits(ctx, KeptRows(accepted) + rest);
  }

  /** The dump that lists the kept rows in the order in which they were kept, and
      then all others, is decided in two passes, with the same result. */
  lemma Rerun(ctx: Context, accepted: seq<Kept>, rest: seq<Row>, passes: nat)
    requires Lawful(ctx, accepted) && RootsFirst(ctx, accepted) && passes >= 2
    requires NoneAccepted(ctx, rest, IndexOf(ctx, accepted))
    ensures var (st, limited) := Filter(ctx, KeptRows(accepted) + rest, passes);
      !limited && st.accepted == accepted
  {
    hide Lawful, ReadAll, PassOver, Waiters, IndexOf, RootsFirst, HasParents, Proper;
    var m := Divide(ctx, accepted);
    ReadAgain(ctx, accepted, rest, m);
    var r := ReadAll(ctx, KeptRows(accepted) + rest);
    var st := Indexed(ctx, r.st);
    var first, more := KeptRows(accepted[m..]), Waiters(ctx, rest);
    assert accepted[m..|accepted|] == accepted[m..] && accepted[..|accepted|] == accepted;
    PassKeeps(ctx, st, accepted, m, |accepted|);
    forall row | row in more
      ensures row in rest && Proper(ctx, row)
    {
      WaitersAre(ctx, rest, row);
    }
    PassIdle(ctx, st, first, more);
    var p := PassOver(ctx, st, first + more);
    RejectAllKeeps(p.st, p.next);
    if p.progress {
      IdleEnds(ctx, p.st, p.next, passes - 1);
    }
    if first + more == [] {
      assert KeptRows(accepted[m..]) == [] && |accepted[m..]| == 0;
      assert accepted[..m] == accepted;
    }
  }

  /** Whatever some order leads to, given enough passes, another order leads to in two. */
  lemma Settle(ctx: Context, rows: seq<Row>, passes: nat) returns (order: seq<Row>)
    requires passes >= 2
    ensures multiset(order) == multiset(rows)
    ensures !Filter(ctx, order, passes).1
    ensures Filter(ctx, order, passes).0.accepted == Filter(ctx, rows, |rows|).0.accepted
  {
    hide Filter, Lawful, IndexOf, RootsFirst;
    var st := Filter(ctx, rows, |rows|).0;
    FilterEnds(ctx, rows, |rows|);
    order := KeptRows(st.accepted) + RefusedRows(st.refused);
    forall row | row in RefusedRows(st.refused)
      ensures !Proper(ctx, row) || !VerdictOn(ctx, row, st.index).Accepted?
    {
    }
    Rerun(ctx, st.accepted, RefusedRows(st.refused), passes);
  }
}
