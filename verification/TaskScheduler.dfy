/** Handing out recompression tasks: round robin over the storage roots, shards of
    the flows, and a bounded window of tasks in flight. */
module TaskScheduler {
  import Picking

  // ---------------------------------------------------------------- round robin over the roots

  /** The pos-th task of a root. */
  datatype Slot = Slot(root: nat, pos: nat)

  predicate Exists(lengths: seq<nat>, s: Slot) {
    s.root < |lengths| && s.pos < lengths[s.root]
  }

  /** Round by round, and inside a round root by root. */
  predicate Before(a: Slot, b: Slot) {
    a.pos < b.pos || (a.pos == b.pos && a.root < b.root)
  }

  predicate InOrder(s: seq<Slot>) {
    forall i, j :: 0 <= i < j < |s| ==> Before(s[i], s[j])
  }

  /** The deque of iterators: at most one round apart, those already moved on to
      the next round behind the others and with smaller roots. */
  ghost predicate Rotating(lengths: seq<nat>, iterators: seq<Slot>) {
    && InOrder(iterators)
    && (forall j :: 0 <= j < |iterators| ==> iterators[j].root < |lengths| && iterators[j].pos <= lengths[iterators[j].root])
    && (forall j :: 0 <= j < |iterators| ==> iterators[j].pos <= iterators[0].pos + 1)
    && (forall j, k :: 0 <= j < |iterators| && 0 <= k < |iterators| && iterators[k].pos == iterators[j].pos + 1 ==>
          iterators[k].root < iterators[j].root)
  }

  /** What has been handed out is what lies behind the iterators. */
  ghost predicate HandedOut(lengths: seq<nat>, iterators: seq<Slot>, out: seq<Slot>) {
    && InOrder(out)
    && (forall i :: 0 <= i < |out| ==> Exists(lengths, out[i]))
    && (forall i, j :: 0 <= i < |out| && 0 <= j < |iterators| ==> Before(out[i], iterators[j]))
    && (forall s :: Exists(lengths, s) ==> s in out || exists j :: Waiting(iterators, s, j))
  }

  predicate Waiting(iterators: seq<Slot>, s: Slot, j: nat) {
    j < |iterators| && iterators[j].root == s.root && iterators[j].pos <= s.pos
  }

  /** The first iterator is exhausted and dropped. */
  lemma DropFirst(lengths: seq<nat>, iterators: seq<Slot>, out: seq<Slot>)
    requires iterators != [] && Rotating(lengths, iterators) && HandedOut(lengths, iterators, out)
    requires !Exists(lengths, iterators[0])
    ensures Rotating(lengths, iterators[1..]) && HandedOut(lengths, iterators[1..], out)
  {
    var rest := iterators[1..];
    assert forall j :: 0 <= j < |rest| ==> rest[j] == iterators[j + 1];
    forall s | Exists(lengths, s) && s !in out
      ensures exists j :: Waiting(rest, s, j)
    {
      var j: nat :| Waiting(iterators, s, j);
      assert Waiting(rest, s, j - 1);
    }
  }

  /** The first iterator hands out a task and goes to the back. */
  lemma TakeFirst(lengths: seq<nat>, iterators: seq<Slot>, out: seq<Slot>)
    requires iterators != [] && Rotating(lengths, iterators) && HandedOut(lengths, iterators, out)
    requires Exists(lengths, iterators[0])
    ensures var s := iterators[0]; var next := iterators[1..] + [Slot(s.root, s.pos + 1)];
      Rotating(lengths, next) && HandedOut(lengths, next, out + [s])
  {
    hide Waiting, Exists, Before;
    RotateOnce(lengths, iterators);
    HandOn(lengths, iterators, out);
    var s := iterators[0];
    var next := iterators[1..] + [Slot(s.root, s.pos + 1)];
    forall x | Exists(lengths, x) && x !in out + [s]
      ensures exists j :: Waiting(next, x, j)
    {
      assert x !in out && x != s;
      var j: nat :| Waiting(iterators, x, j);
      var k := StillWaiting(iterators, x, j);
    }
  }

  lemma StillWaiting(iterators: seq<Slot>, x: Slot, j: nat) returns (k: nat)
    requires Waiting(iterators, x, j) && x != iterators[0]
    ensures Waiting(iterators[1..] + [Slot(iterators[0].root, iterators[0].pos + 1)], x, k)
  {
    k := if j == 0 then |iterators| - 1 else j - 1;
  }

  /** The task handed out comes behind the others and before all that are left. */
  lemma HandOn(lengths: seq<nat>, iterators: seq<Slot>, out: seq<Slot>)
    requires iterators != [] && InOrder(iterators) && InOrder(out)
    requires forall i, j :: 0 <= i < |out| && 0 <= j < |iterators| ==> Before(out[i], iterators[j])
    ensures var s := iterators[0]; var next := iterators[1..] + [Slot(s.root, s.pos + 1)];
      && InOrder(out + [s])
      && forall i, j :: 0 <= i < |out + [s]| && 0 <= j < |next| ==> Before((out + [s])[i], next[j])
  {
    var s := iterators[0];
    var next := iterators[1..] + [Slot(s.root, s.pos + 1)];
    forall i, j | 0 <= i < |out + [s]| && 0 <= j < |next|
      ensures Before((out + [s])[i], next[j])
    {
      assert i < |out| ==> Before(out[i], s);
      assert j < |next| - 1 ==> next[j] == iterators[j + 1] && Before(s, next[j]);
    }
    forall i, j | 0 <= i < j < |out + [s]|
      ensures Before((out + [s])[i], (out + [s])[j])
    {
    }
  }

  lemma RotateOnce(lengths: seq<nat>, iterators: seq<Slot>)
    requires iterators != [] && Rotating(lengths, iterators) && Exists(lengths, iterators[0])
    ensures Rotating(lengths, iterators[1..] + [Slot(iterators[0].root, iterators[0].pos + 1)])
  {
    var s := iterators[0];
    var next := iterators[1..] + [Slot(s.root, s.pos + 1)];
    forall j | 0 <= j < |next|
      ensures j < |next| - 1 ==> next[j] == iterators[j + 1] && Before(s, next[j])
      ensures j == |next| - 1 ==> next[j] == Slot(s.root, s.pos + 1)
    {
    }
  }

  lemma AtStart(lengths: seq<nat>, iterators: seq<Slot>)
    requires |iterators| == |lengths| && forall r :: 0 <= r < |lengths| ==> iterators[r] == Slot(r, 0)
    ensures Rotating(lengths, iterators) && HandedOut(lengths, iterators, [])
  {
    forall s | Exists(lengths, s)
      ensures exists j :: Waiting(iterators, s, j)
    {
      assert Waiting(iterators, s, s.root);
    }
  }

  function Left(lengths: seq<nat>, s: Slot): nat {
    if Exists(lengths, s) then lengths[s.root] - s.pos else 0
  }

  function Remaining(lengths: seq<nat>, iterators: seq<Slot>): nat {
    if iterators == [] then 0 else Left(lengths, iterators[0]) + Remaining(lengths, iterators[1..])
  }

  lemma {:induction false} RemainingAppend(lengths: seq<nat>, iterators: seq<Slot>, s: Slot)
    ensures Remaining(lengths, iterators + [s]) == Remaining(lengths, iterators) + Left(lengths, s)
  {
    if iterators != [] {
      assert (iterators + [s])[1..] == iterators[1..] + [s];
      RemainingAppend(lengths, iterators[1..], s);
    }
  }

  /** Every task of every root once, round by round. */
  method IterTasks(lengths: seq<nat>) returns (out: seq<Slot>)
    ensures InOrder(out)
    ensures forall i, j :: 0 <= i < j < |out| ==>
      out[i].pos < out[j].pos || (out[i].pos == out[j].pos && out[i].root < out[j].root)
    ensures forall s :: s in out <==> Exists(lengths, s)
    ensures forall r: nat, p: nat :: Slot(r, p) in out <==> r < |lengths| && p < lengths[r]
  {
    var iterators := seq(|lengths|, (r: nat) => Slot(r, 0));
    out := [];
    AtStart(lengths, iterators);
    hide Rotating, HandedOut, Before, InOrder, Remaining, Left;
    while iterators != []
      invariant Rotating(lengths, iterators) && HandedOut(lengths, iterators, out)
      decreases Remaining(lengths, iterators), |iterators|
    {
      var current := iterators[0];
      InRange(lengths, iterators);
      if current.pos >= lengths[current.root] {
        DropFirst(lengths, iterators, out);
        FirstCounts(lengths, iterators);
        iterators := iterators[1..];
      } else {
        TakeFirst(lengths, iterators, out);
        FirstCounts(lengths, iterators);
        RemainingAppend(lengths, iterators[1..], Slot(current.root, current.pos + 1));
        out := out + [current];
        iterators := iterators[1..] + [Slot(current.root, current.pos + 1)];
      }
    }
    Finished(lengths, out);
    TasksAre(lengths, out);
  }

  lemma TasksAre(lengths: seq<nat>, out: seq<Slot>)
    requires InOrder(out) && forall s :: s in out <==> Exists(lengths, s)
    ensures forall i, j :: 0 <= i < j < |out| ==>
      out[i].pos < out[j].pos || (out[i].pos == out[j].pos && out[i].root < out[j].root)
    ensures forall r: nat, p: nat :: Slot(r, p) in out <==> r < |lengths| && p < lengths[r]
  {
  }

  lemma FirstCounts(lengths: seq<nat>, iterators: seq<Slot>)
    requires iterators != []
    ensures var s := iterators[0];
      && Remaining(lengths, iterators) == Left(lengths, s) + Remaining(lengths, iterators[1..])
      && (Exists(lengths, s) ==> Left(lengths, Slot(s.root, s.pos + 1)) == Left(lengths, s) - 1)
  {
  }

  lemma InRange(lengths: seq<nat>, iterators: seq<Slot>)
    requires iterators != [] && Rotating(lengths, iterators)
    ensures iterators[0].root < |lengths| && iterators[0].pos <= lengths[iterators[0].root]
  {
  }

  lemma Finished(lengths: seq<nat>, out: seq<Slot>)
    requires HandedOut(lengths, [], out)
    ensures InOrder(out) && forall s :: s in out <==> Exists(lengths, s)
  {
  }

  lemma EarlierInPrefix(out: seq<Slot>, n: nat, a: Slot, b: Slot)
    requires InOrder(out) && n <= |out|
    requires a in out && b in out[..n] && Before(a, b)
    ensures a in out[..n]
  {
    var i :| 0 <= i < |out| && out[i] == a;
    var j :| 0 <= j < n && out[j] == b;
    assert out[..n][i] == a;
  }

  /** After n tasks root r has handed out its first c. */
  ghost predicate Reached(out: seq<Slot>, n: nat, r: nat, c: nat)
    requires n <= |out|
  {
    forall p: nat :: Slot(r, p) in out[..n] <==> p < c
  }

  /** Each root's tasks are handed out in its own order. */
  lemma ReachedSome(lengths: seq<nat>, out: seq<Slot>, n: nat, r: nat) returns (c: nat)
    requires InOrder(out) && (forall s :: s in out <==> Exists(lengths, s)) && n <= |out| && r < |lengths|
    ensures c <= lengths[r] && Reached(out, n, r, c)
  {
    c := 0;
    while c < lengths[r] && Slot(r, c) in out[..n]
      invariant c <= lengths[r] && forall p: nat :: p < c ==> Slot(r, p) in out[..n]
    {
      c := c + 1;
    }
    forall p: nat | Slot(r, p) in out[..n]
      ensures p < c
    {
      assert Slot(r, p) in out;
      if p >= c {
        assert Exists(lengths, Slot(r, c));
        if p > c {
          EarlierInPrefix(out, n, Slot(r, c), Slot(r, p));
        }
      }
    }
  }

  /** At any moment two roots that still have tasks are at most one task apart. */
  lemma Fair(lengths: seq<nat>, out: seq<Slot>, n: nat, r: nat, c: nat, q: nat, d: nat)
    requires InOrder(out) && (forall s :: s in out <==> Exists(lengths, s)) && n <= |out|
    requires r < |lengths| && q < |lengths| && c < lengths[r] && d < lengths[q]
    requires Reached(out, n, r, c) && Reached(out, n, q, d)
    ensures -1 <= c - d <= 1
  {
    if c > d + 1 {
      Ahead(lengths, out, n, r, c, q, d);
    }
    if d > c + 1 {
      Ahead(lengths, out, n, q, d, r, c);
    }
  }

  lemma Ahead(lengths: seq<nat>, out: seq<Slot>, n: nat, r: nat, c: nat, q: nat, d: nat)
    requires InOrder(out) && (forall s :: s in out <==> Exists(lengths, s)) && n <= |out|
    requires q < |lengths| && d < lengths[q]
    requires Reached(out, n, r, c) && Reached(out, n, q, d)
    ensures c <= d + 1
  {
    if c > d + 1 {
      assert Exists(lengths, Slot(q, d));
      assert Slot(r, d + 1) in out[..n];
      EarlierInPrefix(out, n, Slot(q, d), Slot(r, d + 1));
    }
  }

  // ---------------------------------------------------------------- shards

  /** The flows of one shard, in their order. */
  function Shard(flows: seq<nat>, count: nat, index: nat): seq<nat>
    requires count > 0
  {
    if flows == [] then []
    else Shard(flows[..|flows| - 1], count, index) +
         if flows[|flows| - 1] % count == index then [flows[|flows| - 1]] else []
  }

  /** A flow is in the shard of its remainder, as often as it was listed, and in
      no other. */
  lemma {:induction false} ShardHolds(flows: seq<nat>, count: nat, index: nat, f: nat)
    requires count > 0
    ensures multiset(Shard(flows, count, index))[f] == if f % count == index then multiset(flows)[f] else 0
  {
    if flows != [] {
      var last := |flows| - 1;
      ShardHolds(flows[..last], count, index, f);
      assert flows == flows[..last] + [flows[last]];
    }
  }

  /** A shard lists its flows in the order of the directory. */
  lemma {:induction false} ShardConcat(a: seq<nat>, b: seq<nat>, count: nat, index: nat)
    requires count > 0
    ensures Shard(a + b, count, index) == Shard(a, count, index) + Shard(b, count, index)
    ensures |b| == 1 ==> Shard(b, count, index) == if b[0] % count == index then b else []
  {
    if b == [] {
      assert a + b == a;
    } else {
      var last := |b| - 1;
      ShardConcat(a, b[..last], count, index);
      assert (a + b)[..|a + b| - 1] == a + b[..last];
    }
  }

  function AllShards(flows: seq<nat>, count: nat, upTo: nat): multiset<nat>
    requires count > 0
  {
    if upTo == 0 then multiset{} else AllShards(flows, count, upTo - 1) + multiset(Shard(flows, count, upTo - 1))
  }

  lemma {:induction false} AllShardsHold(flows: seq<nat>, count: nat, upTo: nat, f: nat)
    requires count > 0
    ensures AllShards(flows, count, upTo)[f] == if f % count < upTo then multiset(flows)[f] else 0
  {
    hide Shard;
    if upTo > 0 {
      AllShardsHold(flows, count, upTo - 1, f);
      ShardHolds(flows, count, upTo - 1, f);
    }
  }

  /** The shards together are the flows: none shared, none missed. */
  lemma ShardsSplitFlows(flows: seq<nat>, count: nat)
    requires count > 0
    ensures AllShards(flows, count, count) == multiset(flows)
  {
    forall f: nat
      ensures AllShards(flows, count, count)[f] == multiset(flows)[f]
    {
      AllShardsHold(flows, count, count, f);
    }
  }

  // ---------------------------------------------------------------- the bounded window

  function Elements(s: seq<nat>): set<nat> {
    set x | x in s
  }

  predicate Distinct(s: seq<nat>) {
    forall i, j :: 0 <= i < j < |s| ==> s[i] != s[j]
  }

  ghost function UpTo(n: nat): (s: set<nat>)
    ensures |s| == n && forall x :: x in s <==> 0 <= x < n
  {
    if n == 0 then {} else UpTo(n - 1) + {n - 1}
  }

  lemma OneMore(s: seq<nat>, x: nat)
    requires Distinct(s) && x !in Elements(s)
    ensures Distinct(s + [x]) && Elements(s + [x]) == Elements(s) + {x}
  {
  }

  lemma Split(s: set<nat>, part: set<nat>)
    requires part <= s
    ensures |s - part| + |part| == |s|
  {
    assert s == (s - part) + part;
  }

  /** Every submitted task is in exactly one of three places. */
  ghost predicate Accounted(next: nat, pending: set<nat>, done: set<nat>, yielded: set<nat>) {
    && pending !! done && pending !! yielded && done !! yielded
    && (forall x :: x in pending || x in done || x in yielded <==> 0 <= x < next)
  }

  /** `done` are completed tasks whose result has not been yielded yet.  The window
      is never over its size, and when it is not full there is nothing left to
      submit. */
  ghost predicate WindowIs(total: nat, maximum: int, next: nat, pending: set<nat>, results: seq<nat>, done: set<nat>) {
    && next <= total
    && Distinct(results)
    && Accounted(next, pending, done, Elements(results))
    && (|pending| + |done| == 0 || |pending| + |done| <= maximum)
    && (|pending| + |done| < maximum ==> next == total)
  }

  /** A result is yielded and the next task, if there is one, submitted. */
  lemma Refilled(total: nat, maximum: int, next: nat, pending: set<nat>, results: seq<nat>, done: set<nat>, future: nat)
    requires WindowIs(total, maximum, next, pending, results, done) && future in done
    ensures next < total ==> WindowIs(total, maximum, next + 1, pending + {next}, results + [future], done - {future})
    ensures next == total ==> WindowIs(total, maximum, next, pending, results + [future], done - {future})
    ensures Elements(results + [future]) == Elements(results) + {future} && future !in Elements(results)
  {
    OneMore(results, future);
    Moves(next, pending, done, Elements(results), future);
    Submits(next, pending, done - {future}, Elements(results) + {future});
    hide Distinct, Elements, Accounted;
    assert |done - {future}| == |done| - 1;
  }

  lemma Moves(next: nat, pending: set<nat>, done: set<nat>, yielded: set<nat>, future: nat)
    requires Accounted(next, pending, done, yielded) && future in done
    ensures Accounted(next, pending, done - {future}, yielded + {future}) && future !in yielded
  {
  }

  lemma Submits(next: nat, pending: set<nat>, done: set<nat>, yielded: set<nat>)
    requires Accounted(next, pending, done, yielded)
    ensures Accounted(next + 1, pending + {next}, done, yielded) && |pending + {next}| == |pending| + 1
  {
  }

  lemma Waited(total: nat, maximum: int, next: nat, pending: set<nat>, results: seq<nat>, completed: set<nat>)
    requires WindowIs(total, maximum, next, pending, results, {}) && completed <= pending
    ensures WindowIs(total, maximum, next, pending - completed, results, completed)
  {
    Split(pending, completed);
  }

  lemma {:induction false} DistinctCount(s: seq<nat>)
    requires Distinct(s)
    ensures |Elements(s)| == |s|
  {
    if s != [] {
      var last := |s| - 1;
      DistinctCount(s[..last]);
      OneMore(s[..last], s[last]);
      assert s == s[..last] + [s[last]];
    }
  }

  lemma NotTooMany(total: nat, maximum: int, next: nat, pending: set<nat>, results: seq<nat>)
    requires WindowIs(total, maximum, next, pending, results, {})
    ensures |results| <= total
  {
    DistinctCount(results);
    assert Elements(results) <= UpTo(total);
    Split(UpTo(total), Elements(results));
  }

  lemma AllThere(total: nat, maximum: int, next: nat, results: seq<nat>)
    requires WindowIs(total, maximum, next, {}, results, {})
    ensures Distinct(results) && (maximum > 0 ==> Elements(results) == UpTo(total))
  {
  }

  /** The generator's state: tasks are numbered in their order, `next` is the
      first one not submitted, `results` the tasks whose result was yielded. */
  class ResultWindow {
    const total: nat
    const maximumPending: int
    var next: nat
    var pending: set<nat>
    var results: seq<nat>

    ghost predicate Window(done: set<nat>)
      reads this
    {
      WindowIs(total, maximumPending, next, pending, results, done)
    }

    constructor (total: nat, maximumPending: int)
      ensures this.total == total && this.maximumPending == maximumPending
      ensures next == 0 && pending == {} && results == []
    {
      this.total, this.maximumPending := total, maximumPending;
      next, pending, results := 0, {}, [];
    }

    method SubmitOne() returns (submitted: bool)
      modifies this`next, this`pending
      ensures submitted <==> old(next) < total
      ensures submitted ==> next == old(next) + 1 && pending == old(pending) + {old(next)}
      ensures !submitted ==> next == old(next) && pending == old(pending)
    {
      if next >= total {
        return false;
      }
      pending, next := pending + {next}, next + 1;
      submitted := true;
    }

    /** Filling the window at the start. */
    method Fill()
      requires next == 0 && pending == {} && results == []
      modifies this`next, this`pending
      ensures Window({})
    {
      while |pending| < maximumPending
        invariant next <= total && pending == UpTo(next) && |pending| == next
        invariant next > 0 ==> next <= maximumPending
        decreases maximumPending - |pending|
      {
        var submitted := SubmitOne();
        if !submitted {
          break;
        }
      }
    }

    /** One completed task: its result is yielded and a new task takes its place. */
    method YieldOne(future: nat, ghost done: set<nat>)
      requires Window(done) && future in done
      modifies this
      ensures Window(done - {future})
      ensures results == old(results) + [future]
    {
      Refilled(total, maximumPending, next, pending, results, done, future);
      assert next <= total;
      hide WindowIs;
      results := results + [future];
      var submitted := SubmitOne();
    }

    /** One wait: some tasks have completed, in no particular order. */
    method CollectRound()
      requires Window({}) && pending != {}
      modifies this
      ensures Window({})
      ensures |old(results)| < |results|
    {
      ghost var any := Picking.Any(pending);
      var completed: set<nat> :| completed != {} && completed <= pending;
      Waited(total, maximumPending, next, pending, results, completed);
      pending := pending - completed;
      hide WindowIs;
      while completed != {}
        invariant Window(completed)
        invariant |results| >= |old(results)| && (completed == {} ==> |results| > |old(results)|)
        decreases |completed|
      {
        any := Picking.Any(completed);
        var future :| future in completed;
        YieldOne(future, completed);
        completed := completed - {future};
      }
    }

    /** Every task yields exactly one result, in whatever order they complete;
        with no window at all nothing is submitted. */
    method BoundedResults()
      requires next == 0 && pending == {} && results == []
      modifies this
      ensures Distinct(results)
      ensures maximumPending > 0 ==> Elements(results) == UpTo(total)
      ensures maximumPending <= 0 ==> results == []
    {
      Fill();
      while pending != {}
        invariant Window({})
        invariant maximumPending <= 0 ==> pending == {} && results == []
        decreases total - |results|
      {
        CollectRound();
        NotTooMany(total, maximumPending, next, pending, results);
      }
      AllThere(total, maximumPending, next, results);
    }
  }
}
