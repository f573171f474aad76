/** Every order of the dump keeps the least closed set exactly when no row of that
    set leads to a contested key.

    For the hard half: if k leads to a contested key, the number of k's rivals has a
    derivation that does not use k's row, since all ancestors of a proven pair carry
    its number.  A dump that lists that derivation first decides k too late. */
module EveryOrder {
  import opened Options
  import opened RelationshipIndex
  import opened ProvenRows
  import opened DumpRun
  import opened RunOrders

  // ---------------------------------------------------------------- a derivation without one row

  /** The proven rows with number n that have no parents. */
  ghost function Base(ctx: Context, least: set<Kept>, n: int): set<Kept> {
    set p | p in least && p.n == n && !HasParents(ctx, p.row)
  }

  /** Rows with number n, without `row`, each following from those before it. */
  ghost predicate Chain(ctx: Context, least: set<Kept>, n: int, row: Row, chain: seq<Kept>) {
    forall i :: 0 <= i < |chain| ==>
      && chain[i] in least && chain[i].n == n && chain[i].row != row && HasParents(ctx, chain[i].row)
      && chain[i] !in chain[..i]
      && Rule(ctx, chain[i], Base(ctx, least, n) + Elements(chain[..i]))
  }

  ghost predicate Continues(ctx: Context, rows: set<Row>, least: set<Kept>, row: Row, chain: seq<Kept>, x: Kept) {
    && x.row in rows && x.row != row && x !in chain && HasParents(ctx, x.row)
    && Rule(ctx, x, Base(ctx, least, x.n) + Elements(chain))
  }

  ghost predicate Saturated(ctx: Context, rows: set<Row>, least: set<Kept>, n: int, row: Row, chain: seq<Kept>) {
    forall x: Kept :: x.n == n ==> !Continues(ctx, rows, least, row, chain, x)
  }

  lemma InLeast(ctx: Context, rows: set<Row>, n: int, row: Row, chain: seq<Kept>)
    requires Chain(ctx, Least(ctx, rows), n, row, chain)
    ensures Base(ctx, Least(ctx, rows), n) + Elements(chain) <= Least(ctx, rows)
  {
    hide Least, Rule, HasParents;
    forall k | k in chain
      ensures k in Least(ctx, rows)
    {
      var i :| 0 <= i < |chain| && chain[i] == k;
    }
  }

  lemma ChainOneMore(ctx: Context, rows: set<Row>, n: int, row: Row, chain: seq<Kept>, x: Kept)
    requires Chain(ctx, Least(ctx, rows), n, row, chain)
    requires x.n == n && Continues(ctx, rows, Least(ctx, rows), row, chain, x)
    ensures Chain(ctx, Least(ctx, rows), n, row, chain + [x])
    ensures x in Least(ctx, rows)
  {
    hide Least, Rule, HasParents, Base;
    var least := Least(ctx, rows);
    InLeast(ctx, rows, n, row, chain);
    RuleMonotone(ctx, x, Base(ctx, least, n) + Elements(chain), least);
    LeastIsLeast(ctx, rows);
    var more := chain + [x];
    forall i | 0 <= i < |more|
      ensures more[..i] == if i < |chain| then chain[..i] else chain
    {
    }
  }

  /** As long a derivation as there is. */
  lemma {:induction false} Saturate(ctx: Context, rows: set<Row>, n: int, row: Row, chain: seq<Kept>) returns (all: seq<Kept>)
    requires Chain(ctx, Least(ctx, rows), n, row, chain)
    ensures Chain(ctx, Least(ctx, rows), n, row, all) && Saturated(ctx, rows, Least(ctx, rows), n, row, all)
    decreases Least(ctx, rows) - Elements(chain)
  {
    hide Least, Chain, Continues;
    if x: Kept :| x.n == n && Continues(ctx, rows, Least(ctx, rows), row, chain, x) {
      ChainOneMore(ctx, rows, n, row, chain, x);
      NotYet(ctx, rows, row, chain, x);
      assert x in Elements(chain + [x]);
      assert forall k :: k in chain ==> k in chain + [x];
      all := Saturate(ctx, rows, n, row, chain + [x]);
    } else {
      all := chain;
    }
  }

  lemma NotYet(ctx: Context, rows: set<Row>, row: Row, chain: seq<Kept>, x: Kept)
    requires Continues(ctx, rows, Least(ctx, rows), row, chain, x)
    ensures x !in Elements(chain)
  {
  }

  /** If no rule of the row could use the derivation, the derivation has all pairs
      with its number. */
  lemma Exhausts(ctx: Context, rows: set<Row>, n: int, row: Row, chain: seq<Kept>)
    requires Chain(ctx, Least(ctx, rows), n, row, chain) && Saturated(ctx, rows, Least(ctx, rows), n, row, chain)
    requires !Rule(ctx, Kept(row, n), Base(ctx, Least(ctx, rows), n) + Elements(chain))
    ensures forall q :: q in Least(ctx, rows) && q.n == n ==> q in Base(ctx, Least(ctx, rows), n) + Elements(chain)
  {
    hide Least, Chain, Base;
    var least := Least(ctx, rows);
    var used := Base(ctx, least, n) + Elements(chain);
    var others := set x | x in least && x.n != n;
    InLeast(ctx, rows, n, row, chain);
    LeastIsLeast(ctx, rows);
    forall y: Kept | y.row in rows && Rule(ctx, y, others + used)
      ensures y in others + used
    {
      RuleMonotone(ctx, y, others + used, least);
      if y.n == n {
        OwnNumber(ctx, y, others, used);
        if HasParents(ctx, y.row) {
          assert !Continues(ctx, rows, least, row, chain, y);
        } else {
          InBase(ctx, least, y);
        }
      }
    }
    assert least <= others + used;
  }

  lemma InBase(ctx: Context, least: set<Kept>, y: Kept)
    requires y in least && !HasParents(ctx, y.row)
    ensures y in Base(ctx, least, y.n)
  {
  }

  /** Only pairs with its own number support a pair. */
  lemma OwnNumber(ctx: Context, y: Kept, others: set<Kept>, used: set<Kept>)
    requires Rule(ctx, y, others + used) && forall x :: x in others ==> x.n != y.n
    ensures Rule(ctx, y, used)
  {
    hide Carries, Admissible;
    forall fk | fk in ForeignKeys(ctx, y.row) && Active(fk, y.row)
      ensures Supported(ctx, y, Asks(fk, y.row), used)
    {
      assert Supported(ctx, y, Asks(fk, y.row), others + used);
    }
  }

  /** Some pair of a saturated derivation without the row of k carries the key that k
      leads to, if any pair with that number does. */
  lemma Reaches(ctx: Context, rows: set<Row>, n: int, row: Row, chain: seq<Kept>, fk: ForeignKey, q: Kept) returns (d: Kept)
    requires Chain(ctx, Least(ctx, rows), n, row, chain) && Saturated(ctx, rows, Least(ctx, rows), n, row, chain)
    requires fk in ForeignKeys(ctx, row) && Active(fk, row)
    requires q in Least(ctx, rows) && q.n == n && Carries(ctx, q, Asks(fk, row))
    ensures d in Base(ctx, Least(ctx, rows), n) + Elements(chain) && Carries(ctx, d, Asks(fk, row))
  {
    hide Least, Chain, Base, Saturated, Carries;
    var used := Base(ctx, Least(ctx, rows), n) + Elements(chain);
    if Rule(ctx, Kept(row, n), used) {
      assert Supported(ctx, Kept(row, n), Asks(fk, row), used);
      d :| d in used && d.n == n && Carries(ctx, d, Asks(fk, row));
    } else {
      Exhausts(ctx, rows, n, row, chain);
      d := q;
    }
  }

  // ---------------------------------------------------------------- the derivation first

  /** Taking rows out of a dump. */
  lemma {:induction false} TakeAway(rows: seq<Row>, part: seq<Row>) returns (rest: seq<Row>)
    requires multiset(part) <= multiset(rows)
    ensures multiset(part + rest) == multiset(rows)
    decreases |part|
  {
    if part == [] {
      rest := rows;
      assert part + rest == rows;
    } else {
      var init, row := part[..|part| - 1], part[|part| - 1];
      assert part == init + [row];
      rest := TakeAway(rows, init);
      Counted(init, row, rest, rows);
      var j :| 0 <= j < |rest| && rest[j] == row;
      Moved(init, rest, j);
      rest := rest[..j] + rest[j + 1..];
    }
  }

  lemma Moved(init: seq<Row>, rest: seq<Row>, j: nat)
    requires j < |rest|
    ensures multiset((init + [rest[j]]) + (rest[..j] + rest[j + 1..])) == multiset(init + rest)
  {
    assert rest == rest[..j] + [rest[j]] + rest[j + 1..];
  }

  lemma Counted(init: seq<Row>, row: Row, rest: seq<Row>, rows: seq<Row>)
    requires multiset(init + rest) == multiset(rows) && multiset(init + [row]) <= multiset(rows)
    ensures row in rest
  {
    assert multiset(init + [row])[row] == multiset(init)[row] + 1;
    assert multiset(init + rest)[row] == multiset(init)[row] + multiset(rest)[row];
  }

  /** The rows of a derivation occur in the dump, each at least once. */
  lemma ChainFits(ctx: Context, rows: seq<Row>, n: int, row: Row, chain: seq<Kept>)
    requires Chain(ctx, Least(ctx, Elements(rows)), n, row, chain)
    ensures multiset(KeptRows(chain)) <= multiset(rows)
    ensures AllWaiters(ctx, KeptRows(chain)) && row !in KeptRows(chain)
  {
    hide Least, HasParents;
    forall x | x in KeptRows(chain)
      ensures x in rows && x != row && Proper(ctx, x) && HasParents(ctx, x)
    {
      var i :| 0 <= i < |chain| && KeptRows(chain)[i] == x;
      LeastByRule(ctx, Elements(rows), chain[i]);
    }
    forall i, j | 0 <= i < j < |chain|
      ensures KeptRows(chain)[i] != KeptRows(chain)[j]
    {
      assert chain[i] in chain[..j];
    }
    OnceEach(KeptRows(chain), rows);
  }

  lemma {:induction false} OnceEach(part: seq<Row>, rows: seq<Row>)
    requires forall i, j :: 0 <= i < j < |part| ==> part[i] != part[j]
    requires forall x :: x in part ==> x in rows
    ensures multiset(part) <= multiset(rows)
  {
    forall x
      ensures multiset(part)[x] <= multiset(rows)[x]
    {
      AtMostOnce(part, x);
      assert x in multiset(rows) <==> x in rows;
      assert x in multiset(part) <==> x in part;
    }
  }

  lemma {:induction false} AtMostOnce(part: seq<Row>, x: Row)
    requires forall i, j :: 0 <= i < j < |part| ==> part[i] != part[j]
    ensures multiset(part)[x] <= 1
  {
    if part != [] {
      var init, row := part[..|part| - 1], part[|part| - 1];
      AtMostOnce(init, x);
      assert part == init + [row];
      assert row in multiset(init) <==> row in init;
    }
  }

  /** A pair supported by kept rows is accepted with its number or in conflict. */
  lemma SupportedVerdict(ctx: Context, accepted: seq<Kept>, k: Kept)
    requires Rule(ctx, k, Elements(accepted))
    ensures VerdictOn(ctx, k.row, IndexOf(ctx, accepted)) == Accepted(k.n)
         || VerdictOn(ctx, k.row, IndexOf(ctx, accepted)) == Conflicting
  {
    hide IndexOf, Carries, Admissible, Proofs;
    var index := IndexOf(ctx, accepted);
    forall fk | fk in ForeignKeys(ctx, k.row) && Active(fk, k.row)
      ensures Get(index, Asks(fk, k.row)) == Some(Seq(k.n)) || Get(index, Asks(fk, k.row)) == Some(Conflict)
    {
      assert Supported(ctx, k, Asks(fk, k.row), Elements(accepted));
      var p :| p in Elements(accepted) && p.n == k.n && Carries(ctx, p, Asks(fk, k.row));
      CarriedSlot(ctx, accepted, Asks(fk, k.row), p);
    }
    if fk :| fk in ForeignKeys(ctx, k.row) && Ambiguous(fk, k.row, index) {
      assert AnyAmbiguous(ForeignKeys(ctx, k.row), k.row, index);
    } else {
      AllSayN(ctx, k, index);
    }
  }

  lemma CarriedSlot(ctx: Context, accepted: seq<Kept>, slot: Slot, p: Kept)
    requires DemandedSlot(ctx, slot) && p in accepted && Carries(ctx, p, slot)
    ensures Get(IndexOf(ctx, accepted), slot) in {Some(Seq(p.n)), Some(Conflict)}
  {
    hide IndexOf, Supplies, AsIndexed;
    var i :| 0 <= i < |accepted| && accepted[i] == p;
    var indexed := Mirror(ctx, accepted);
    IndexIsScan(ctx, accepted);
    assert Agrees(Get(IndexOf(ctx, accepted), slot), indexed, slot);
    assert indexed[i] == Kept(AsIndexed(ctx, p), p.n) && Supplies(indexed[i].row, slot);
  }

  /** A row in conflict that is kept in the end was kept before. */
  lemma ConflictMeansEarlier(ctx: Context, final: seq<Kept>, i: nat, k: Kept)
    requires Lawful(ctx, final) && i <= |final| && k in final
    requires VerdictOn(ctx, k.row, IndexOf(ctx, final[..i])).Conflicting?
    ensures k in final[..i]
  {
    hide VerdictOn, IndexOf;
    var j :| 0 <= j < |final| && final[j] == k;
    if j >= i {
      assert AcceptedAt(ctx, final, j);
      assert final[..j][..i] == final[..i];
      IndexGrows(ctx, final[..j], i);
      ConflictStands(ctx, k.row, IndexOf(ctx, final[..i]), IndexOf(ctx, final[..j]));
    }
  }

  /** What a pass has kept so far belongs to the end result. */
  lemma {:induction false} PassPrefix(ctx: Context, st: State, first: seq<Row>, more: seq<Row>)
    ensures PassOver(ctx, st, first).st.accepted <= PassOver(ctx, st, first + more).st.accepted
  {
    hide PassOver, ReplayOne;
    if more == [] {
      assert first + more == first;
    } else {
      var init, row := more[..|more| - 1], more[|more| - 1];
      assert first + more == (first + init) + [row];
      PassPrefix(ctx, st, first, init);
      PassSnoc(ctx, st, first + init, row);
      OnlyGrows(ctx, PassOver(ctx, st, first + init), row);
    }
  }

  lemma OnlyGrows(ctx: Context, p: Pass, row: Row)
    ensures p.st.accepted <= ReplayOne(ctx, p, row).st.accepted
  {
    hide VerdictOn, Enter;
  }

  lemma {:induction false} ReplayPrefix(ctx: Context, st: State, waiting: seq<Row>, passes: nat)
    ensures st.accepted <= ReplayFrom(ctx, st, waiting, passes).0.accepted
    ensures waiting != [] && passes > 0 ==>
      PassOver(ctx, st, waiting).st.accepted <= ReplayFrom(ctx, st, waiting, passes).0.accepted
    decreases passes
  {
    hide PassOver, RejectAll;
    if waiting != [] && passes > 0 {
      var p := PassOver(ctx, st, waiting);
      NothingPassed(ctx, st);
      PassPrefix(ctx, st, [], waiting);
      assert [] + waiting == waiting;
      RejectAllKeeps(p.st, p.next);
      if p.progress {
        ReplayPrefix(ctx, p.st, p.next, passes - 1);
      }
    }
  }

  // ---------------------------------------------------------------- the rival is kept first

  /** The derivation stands at the head of the dump: its first j rows, judged in the
      first pass, are all kept, if the run keeps the whole least set in the end. */
  ghost predicate KeptSoFar(ctx: Context, least: set<Kept>, n: int, row: Row, chain: seq<Kept>, j: nat, accepted: seq<Kept>)
    requires j <= |chain|
  {
    && Base(ctx, least, n) + Elements(chain[..j]) <= Elements(accepted)
    && row !in KeptRows(accepted)
  }

  lemma ChainStep(ctx: Context, least: set<Kept>, n: int, row: Row, chain: seq<Kept>, j: nat, p: Pass, final: seq<Kept>)
    requires Chain(ctx, least, n, row, chain) && j < |chain|
    requires KeptSoFar(ctx, least, n, row, chain, j, p.st.accepted)
    requires p.st.index == IndexOf(ctx, p.st.accepted)
    requires Lawful(ctx, final) && Elements(final) == least && p.st.accepted <= final
    ensures KeptSoFar(ctx, least, n, row, chain, j + 1, ReplayOne(ctx, p, chain[j].row).st.accepted)
  {
    hide VerdictOn, IndexOf, Base, Rule, Lawful, HasParents, ReplayOne, KeptSoFar;
    var k := chain[j];
    var accepted := p.st.accepted;
    SupportedSoFar(ctx, least, n, row, chain, j, accepted);
    SupportedVerdict(ctx, accepted, k);
    Outcome(ctx, p, k);
    if VerdictOn(ctx, k.row, p.st.index).Conflicting? {
      assert k in Elements(final);
      assert final[..|accepted|] == accepted;
      ConflictMeansEarlier(ctx, final, |accepted|, k);
    }
    KeptOneMore(ctx, least, n, row, chain, j, accepted, ReplayOne(ctx, p, k.row).st.accepted);
  }

  lemma SupportedSoFar(ctx: Context, least: set<Kept>, n: int, row: Row, chain: seq<Kept>, j: nat, accepted: seq<Kept>)
    requires Chain(ctx, least, n, row, chain) && j < |chain|
    requires KeptSoFar(ctx, least, n, row, chain, j, accepted)
    ensures Rule(ctx, chain[j], Elements(accepted))
  {
    hide Base, Rule, HasParents;
    RuleMonotone(ctx, chain[j], Base(ctx, least, n) + Elements(chain[..j]), Elements(accepted));
  }

  lemma Outcome(ctx: Context, p: Pass, k: Kept)
    ensures VerdictOn(ctx, k.row, p.st.index) == Accepted(k.n) ==> ReplayOne(ctx, p, k.row).st.accepted == p.st.accepted + [k]
    ensures VerdictOn(ctx, k.row, p.st.index).Conflicting? ==> ReplayOne(ctx, p, k.row).st.accepted == p.st.accepted
  {
    hide VerdictOn, Enter;
  }

  lemma KeptOneMore(ctx: Context, least: set<Kept>, n: int, row: Row, chain: seq<Kept>, j: nat, accepted: seq<Kept>, more: seq<Kept>)
    requires j < |chain| && chain[j].row != row && KeptSoFar(ctx, least, n, row, chain, j, accepted)
    requires more == accepted + [chain[j]] || (more == accepted && chain[j] in accepted)
    ensures KeptSoFar(ctx, least, n, row, chain, j + 1, more)
  {
    hide Base;
    assert chain[..j + 1] == chain[..j] + [chain[j]];
    if more == accepted + [chain[j]] {
      assert KeptRows(more) == KeptRows(accepted) + [chain[j].row];
    }
    forall x | x in Base(ctx, least, n) + Elements(chain[..j + 1])
      ensures x in Elements(more)
    {
      assert x in Base(ctx, least, n) + Elements(chain[..j]) || x == chain[j];
      assert x in Elements(accepted) || x == chain[j];
    }
  }

  lemma {:induction false} ChainKept(ctx: Context, least: set<Kept>, n: int, row: Row, chain: seq<Kept>, j: nat, rows: seq<Row>,
                                     st: State, rest: seq<Row>, final: seq<Kept>)
    requires Chain(ctx, least, n, row, chain) && j <= |chain|
    requires KeptSoFar(ctx, least, n, row, chain, 0, st.accepted)
    requires ReplayFacts(ctx, rows, st, KeptRows(chain) + rest)
    requires Lawful(ctx, final) && Elements(final) == least
    requires PassOver(ctx, st, KeptRows(chain) + rest).st.accepted <= final
    ensures KeptSoFar(ctx, least, n, row, chain, j, PassOver(ctx, st, KeptRows(chain)[..j]).st.accepted)
  {
    hide PassOver, ReplayOne, KeptSoFar, Chain, Lawful, ReplayFacts;
    var waiting := KeptRows(chain) + rest;
    if j == 0 {
      NothingPassed(ctx, st);
      assert KeptRows(chain)[..0] == [];
    } else {
      ChainKept(ctx, least, n, row, chain, j - 1, rows, st, rest, final);
      var p := PassOver(ctx, st, KeptRows(chain)[..j - 1]);
      assert KeptRows(chain)[..j - 1] == waiting[..j - 1] && KeptRows(chain)[..j] == waiting[..j];
      assert waiting == waiting[..j - 1] + waiting[j - 1..];
      PassFacts(ctx, rows, st, waiting, j - 1);
      IndexThen(ctx, rows, p.st, p.next + waiting[j - 1..]);
      PassPrefix(ctx, st, waiting[..j - 1], waiting[j - 1..]);
      PassStep(ctx, st, waiting, j - 1);
      ChainStep(ctx, least, n, row, chain, j - 1, p, final);
    }
  }

  lemma IndexThen(ctx: Context, rows: seq<Row>, st: State, waiting: seq<Row>)
    requires ReplayFacts(ctx, rows, st, waiting)
    ensures st.index == IndexOf(ctx, st.accepted)
  {
  }

  /** All rows without parents in the least set are kept while reading. */
  lemma BaseIsRead(ctx: Context, rows: seq<Row>, n: int, row: Row)
    requires HasParents(ctx, row)
    ensures Base(ctx, Least(ctx, Elements(rows)), n) <= Elements(Roots(ctx, rows))
    ensures row !in KeptRows(Roots(ctx, rows))
  {
    hide VerdictOn, HasParents, Least, Roots;
    forall p | p in Base(ctx, Least(ctx, Elements(rows)), n)
      ensures p in Roots(ctx, rows)
    {
      LeastByRule(ctx, Elements(rows), p);
      RootVerdict(ctx, p);
      RootsHas(ctx, rows, p);
    }
    forall i | 0 <= i < |Roots(ctx, rows)|
      ensures Roots(ctx, rows)[i].row != row
    {
      var k := Roots(ctx, rows)[i];
      RootsHas(ctx, rows, k);
      EmptyIndex(ctx, k.row);
    }
  }

  lemma RootVerdict(ctx: Context, p: Kept)
    requires Admissible(ctx, p) && !HasParents(ctx, p.row)
    ensures VerdictOn(ctx, p.row, map[]) == Accepted(p.n)
  {
    hide VerdictOn;
    AllSayN(ctx, p, map[]);
  }

  /** If the run over a dump with the derivation at its head keeps the least set, it
      keeps a rival of k before k. */
  lemma RivalFirst(ctx: Context, n: int, chain: seq<Kept>, rest: seq<Row>, k: Kept, fk: ForeignKey, d: Kept)
    requires var order := KeptRows(chain) + rest; var least := Least(ctx, Elements(order));
      && Chain(ctx, least, n, k.row, chain) && AllWaiters(ctx, KeptRows(chain))
      && k in least && k.n != n && d in Base(ctx, least, n) + Elements(chain)
    requires fk in ForeignKeys(ctx, k.row) && Active(fk, k.row) && Carries(ctx, d, Asks(fk, k.row))
    ensures var order := KeptRows(chain) + rest;
      Elements(Filter(ctx, order, |order|).0.accepted) != Least(ctx, Elements(order))
  {
    hide Least, Chain, Filter, AllWaiters, Carries, Asks, Active, Lawful, KeptSoFar, PassOver, Waiters, ReadAll, Indexed;
    var order := KeptRows(chain) + rest;
    var least := Least(ctx, Elements(order));
    var final := Filter(ctx, order, |order|).0.accepted;
    if Elements(final) == least {
      FilterLawful(ctx, order);
      LeastByRule(ctx, Elements(order), k);
      FirstPass(ctx, n, chain, rest, k.row, final);
      var st := Indexed(ctx, ReadAll(ctx, order).st);
      RivalBefore(ctx, least, n, chain, final, PassOver(ctx, st, KeptRows(chain)).st.accepted, k, fk, d);
      HasNumber(ctx, least, n, k.row, chain, d);
    }
  }

  lemma HasNumber(ctx: Context, least: set<Kept>, n: int, row: Row, chain: seq<Kept>, d: Kept)
    requires Chain(ctx, least, n, row, chain) && d in Base(ctx, least, n) + Elements(chain)
    ensures d.n == n
  {
    hide Rule, HasParents;
  }

  /** The first pass over that dump keeps the whole derivation, and not the row. */
  lemma FirstPass(ctx: Context, n: int, chain: seq<Kept>, rest: seq<Row>, row: Row, final: seq<Kept>)
    requires var order := KeptRows(chain) + rest; var least := Least(ctx, Elements(order));
      && Chain(ctx, least, n, row, chain) && AllWaiters(ctx, KeptRows(chain)) && row in order && HasParents(ctx, row)
      && final == Filter(ctx, order, |order|).0.accepted && Lawful(ctx, final) && Elements(final) == least
    ensures var order := KeptRows(chain) + rest; var st := Indexed(ctx, ReadAll(ctx, order).st);
      var first := PassOver(ctx, st, KeptRows(chain)).st.accepted;
      first <= final && KeptSoFar(ctx, Least(ctx, Elements(order)), n, row, chain, |chain|, first)
  {
    hide Least, Chain, ReadAll, ReplayFrom, KeptSoFar, Waiters, Roots, IndexOf, ReplayFacts, Lawful, AllWaiters, PassOver,
      HasParents;
    var order := KeptRows(chain) + rest;
    var least := Least(ctx, Elements(order));
    var st := Indexed(ctx, ReadAll(ctx, order).st);
    ReadSplits(ctx, order);
    SplitConcat(ctx, KeptRows(chain), rest);
    AllWait(ctx, KeptRows(chain));
    IndexedFacts(ctx, order);
    BaseIsRead(ctx, order, n, row);
    StartsKept(ctx, least, n, row, chain, st.accepted);
    FirstPassStays(ctx, st, KeptRows(chain) + Waiters(ctx, rest), |order|);
    ChainKept(ctx, least, n, row, chain, |chain|, order, st, Waiters(ctx, rest), final);
    assert KeptRows(chain)[..|chain|] == KeptRows(chain);
    PassPrefix(ctx, st, KeptRows(chain), Waiters(ctx, rest));
  }

  lemma FilterLawful(ctx: Context, order: seq<Row>)
    ensures Lawful(ctx, Filter(ctx, order, |order|).0.accepted)
  {
    hide Lawful, Filter, IndexOf, RootsFirst, RefusalsFinal;
    FilterEnds(ctx, order, |order|);
  }

  lemma StartsKept(ctx: Context, least: set<Kept>, n: int, row: Row, chain: seq<Kept>, accepted: seq<Kept>)
    requires Base(ctx, least, n) <= Elements(accepted) && row !in KeptRows(accepted)
    ensures KeptSoFar(ctx, least, n, row, chain, 0, accepted)
  {
    hide Base;
    assert chain[..0] == [];
  }

  lemma FirstPassStays(ctx: Context, st: State, waiting: seq<Row>, passes: nat)
    requires passes > 0
    ensures PassOver(ctx, st, waiting).st.accepted <= ReplayFrom(ctx, st, waiting, passes).0.accepted
  {
    hide PassOver, ReplayFrom;
    ReplayPrefix(ctx, st, waiting, passes);
    NothingPassed(ctx, st);
  }

  lemma RivalBefore(ctx: Context, least: set<Kept>, n: int, chain: seq<Kept>, final: seq<Kept>, first: seq<Kept>,
                    k: Kept, fk: ForeignKey, d: Kept)
    requires Lawful(ctx, final) && Elements(final) == least && first <= final
    requires KeptSoFar(ctx, least, n, k.row, chain, |chain|, first)
    requires k in least && d in Base(ctx, least, n) + Elements(chain)
    requires fk in ForeignKeys(ctx, k.row) && Active(fk, k.row) && Carries(ctx, d, Asks(fk, k.row))
    ensures d.n == k.n
  {
    hide Lawful, Base, Carries, Asks, Active;
    assert chain[..|chain|] == chain;
    assert d in Elements(first);
    var j :| 0 <= j < |first| && first[j] == d;
    assert k in Elements(final);
    var i :| 0 <= i < |final| && final[i] == k;
    assert forall x :: 0 <= x < |first| ==> KeptRows(first)[x] == final[x].row;
    assert final[j] == first[j];
    EarlierAgrees(ctx, final, i, j, fk);
  }

  // ---------------------------------------------------------------- every order

  ghost predicate EveryOrderKeepsLeast(ctx: Context, rows: seq<Row>, passes: nat) {
    forall order :: multiset(order) == multiset(rows) && !Filter(ctx, order, passes).1 ==>
      Elements(Filter(ctx, order, passes).0.accepted) == Least(ctx, Elements(rows))
  }

  lemma SameElements(a: seq<Row>, b: seq<Row>)
    requires multiset(a) == multiset(b)
    ensures Elements(a) == Elements(b) && |a| == |b|
  {
    forall x
      ensures x in a <==> x in b
    {
      assert x in a <==> x in multiset(a);
      assert x in b <==> x in multiset(b);
    }
    assert |multiset(a)| == |a| && |multiset(b)| == |b|;
  }

  /** A row that leads to a contested key: some order of the dump ends without error
      and does not keep the least set. */
  lemma BadOrder(ctx: Context, rows: seq<Row>, k: Kept, fk: ForeignKey, passes: nat) returns (order: seq<Row>)
    requires passes >= 2 && k in Least(ctx, Elements(rows)) && fk in ForeignKeys(ctx, k.row) && Active(fk, k.row)
    requires Contested(ctx, Least(ctx, Elements(rows)), Asks(fk, k.row))
    ensures multiset(order) == multiset(rows) && !Filter(ctx, order, passes).1
    ensures Elements(Filter(ctx, order, passes).0.accepted) != Least(ctx, Elements(rows))
  {
    hide Least, Chain, Filter, Carries, Saturated, AllWaiters, Base, Active;
    var present := Elements(rows);
    var least := Least(ctx, present);
    var q := Rival(ctx, least, k, Asks(fk, k.row));
    NoChain(ctx, least, q.n, k.row);
    var chain := Saturate(ctx, present, q.n, k.row, []);
    var d := Reaches(ctx, present, q.n, k.row, chain, fk, q);
    ChainFits(ctx, rows, q.n, k.row, chain);
    var rest := TakeAway(rows, KeptRows(chain));
    SameElements(KeptRows(chain) + rest, rows);
    RivalFirst(ctx, q.n, chain, rest, k, fk, d);
    order := Settle(ctx, KeptRows(chain) + rest, passes);
  }

  lemma Rival(ctx: Context, least: set<Kept>, k: Kept, slot: Slot) returns (q: Kept)
    requires Contested(ctx, least, slot)
    ensures q in least && q.n != k.n && Carries(ctx, q, slot)
  {
    hide Carries;
    var p, r :| p in least && r in least && Carries(ctx, p, slot) && Carries(ctx, r, slot) && p.n != r.n;
    q := if p.n != k.n then p else r;
  }

  lemma NoChain(ctx: Context, least: set<Kept>, n: int, row: Row)
    ensures Chain(ctx, least, n, row, [])
  {
  }

  /** Every order of the dump that ends without error keeps the least closed set,
      exactly when no row of that set leads to a contested key. */
  lemma EveryOrderIff(ctx: Context, rows: seq<Row>, passes: nat)
    requires passes >= 2
    ensures EveryOrderKeepsLeast(ctx, rows, passes) <==> AllClear(ctx, Least(ctx, Elements(rows)))
  {
    hide Least, Filter, Contested, Active, Finished;
    var least := Least(ctx, Elements(rows));
    if AllClear(ctx, least) {
      forall order | multiset(order) == multiset(rows) && !Filter(ctx, order, passes).1
        ensures Elements(Filter(ctx, order, passes).0.accepted) == least
      {
        SameElements(order, rows);
        FilterEnds(ctx, order, passes);
        EndKeepsLeast(ctx, order, Filter(ctx, order, passes).0);
      }
    } else {
      var k :| k in least && !Clear(ctx, k.row, least);
      var fk :| fk in ForeignKeys(ctx, k.row) && Active(fk, k.row) && Contested(ctx, least, Asks(fk, k.row));
      var order := BadOrder(ctx, rows, k, fk, passes);
    }
  }

  lemma EndKeepsLeast(ctx: Context, rows: seq<Row>, st: State)
    requires Finished(ctx, rows, st) && AllClear(ctx, Least(ctx, Elements(rows)))
    ensures Elements(st.accepted) == Least(ctx, Elements(rows))
  {
    KeptIsLeast(ctx, rows, st);
  }
}
