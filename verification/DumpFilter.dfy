/** The loops of the filter: they compute the run that DumpRun describes. */
module DumpFilter {
  import opened RelationshipIndex
  import opened ProvenRows
  import opened DumpRun
  import opened PassLimit

  /** One parsed row while the dump is read. */
  method ReadRow(ctx: Context, row: Row, st: State, waiting: seq<Row>) returns (st': State, waiting': seq<Row>)
    ensures Reading(st', waiting') == ReadOne(ctx, Reading(st, waiting), row)
  {
    st', waiting' := st, waiting;
    if row.table !in ctx.schemas {
      st' := RejectRow(st, row, SchemaUnknown);
      return;
    }
    if row.fault.Some? {
      st' := RejectRow(st, row, row.fault.value);
      return;
    }
    var v := RowTargetSeq(ctx.schemas[row.table].foreignKeys, row, ctx.targets, st.index);
    if v.Accepted? {
      st' := AcceptRow(st, row, v.n);
    } else if v.Pending? {
      waiting' := waiting + [row];
    } else {
      st' := RejectRow(st, row, ReasonFor(v));
    }
  }

  method ReadRows(ctx: Context, rows: seq<Row>) returns (st: State, waiting: seq<Row>)
    ensures Reading(st, waiting) == ReadAll(ctx, rows)
    ensures ReadFacts(ctx, Reading(st, waiting)) && Partition(rows, st, waiting)
  {
    hide ReadOne, ReadFacts, Partition;
    st, waiting := Empty(), [];
    for i := 0 to |rows|
      invariant Reading(st, waiting) == ReadAll(ctx, rows[..i])
    {
      assert rows[..i + 1][..i] == rows[..i];
      st, waiting := ReadRow(ctx, rows[i], st, waiting);
    }
    assert rows[..|rows|] == rows;
    ReadAllFacts(ctx, rows);
  }

  /** Indexing the rows kept so far, from the written output. */
  method IndexAccepted(ctx: Context, st: State) returns (st': State)
    requires AllRoots(ctx, st.accepted)
    ensures st' == Indexed(ctx, st)
    ensures IndexAgrees(ctx, st'.index, Mirror(ctx, st.accepted))
  {
    hide Enter, Stamped;
    var index := map[];
    for i := 0 to |st.accepted|
      invariant index == IndexOf(ctx, st.accepted[..i])
    {
      assert st.accepted[..i + 1][..i] == st.accepted[..i];
      assert AsIndexed(ctx, st.accepted[i]) == Stamped(st.accepted[i]);
      index := AddRelationships(ctx, index, Kept(Stamped(st.accepted[i]), st.accepted[i].n));
    }
    assert st.accepted[..|st.accepted|] == st.accepted;
    st' := st.(index := index);
    IndexIsScan(ctx, st.accepted);
  }

  /** One waiting row of a pass. */
  method ReplayRow(ctx: Context, st: State, row: Row, next: seq<Row>, progress: bool)
    returns (st': State, next': seq<Row>, progress': bool)
    requires Proper(ctx, row)
    ensures Pass(st', next', progress') == ReplayOne(ctx, Pass(st, next, progress), row)
  {
    st', next', progress' := st, next, progress;
    var v := RowTargetSeq(ctx.schemas[row.table].foreignKeys, row, ctx.targets, st.index);
    if v.Accepted? {
      var index := AddRelationships(ctx, st.index, Kept(row, v.n));
      st', progress' := AcceptRow(st, row, v.n).(index := index), true;
    } else if v.Pending? {
      next' := next + [row];
    } else {
      st' := RejectRow(st, row, ReasonFor(v));
    }
  }

  /** One pass over the waiting rows. */
  method ReplayPass(ctx: Context, st: State, waiting: seq<Row>, ghost rows: seq<Row>)
    returns (st': State, next: seq<Row>, progress: bool)
    requires ReplayFacts(ctx, rows, st, waiting)
    ensures Pass(st', next, progress) == PassOver(ctx, st, waiting)
    ensures ReplayFacts(ctx, rows, st', next)
    ensures |next| <= |waiting| && (progress ==> |next| < |waiting|)
    ensures !progress ==> st'.index == st.index && StillPending(ctx, next, st'.index)
  {
    hide ReplayFacts, ReplayOne;
    st', next, progress := st, [], false;
    for i := 0 to |waiting|
      invariant Pass(st', next, progress) == PassOver(ctx, st, waiting[..i])
    {
      assert waiting[..i + 1][..i] == waiting[..i];
      WaitersProper(ctx, rows, st, waiting, waiting[i]);
      st', next, progress := ReplayRow(ctx, st', waiting[i], next, progress);
    }
    assert waiting[..|waiting|] == waiting;
    WholePass(ctx, rows, st, waiting);
  }

  method RejectLeft(st: State, left: seq<Row>) returns (st': State)
    ensures st' == RejectAll(st, left)
  {
    st' := st;
    for i := 0 to |left|
      invariant st' == RejectAll(st, left[..i])
    {
      assert left[..i + 1][..i] == left[..i];
      st' := RejectRow(st', left[i], RelationshipUnproven);
    }
    assert left[..|left|] == left;
  }

  /** All passes.  `limited` is the error for too many passes. */
  method Replay(ctx: Context, st: State, waiting: seq<Row>, maxPasses: nat, ghost rows: seq<Row>)
    returns (st': State, limited: bool)
    requires ReplayFacts(ctx, rows, st, waiting)
    ensures (st', limited) == ReplayFrom(ctx, st, waiting, maxPasses)
  {
    hide ReplayFacts, PassOver, RejectAll, StillPending;
    st' := st;
    var current := waiting;
    for pass := 0 to maxPasses
      invariant ReplayFacts(ctx, rows, st', current)
      invariant ReplayFrom(ctx, st, waiting, maxPasses) == ReplayFrom(ctx, st', current, maxPasses - pass)
    {
      if current == [] {
        return st', false;
      }
      var progress;
      st', current, progress := ReplayPass(ctx, st', current, rows);
      if !progress {
        st' := RejectLeft(st', current);
        return st', false;
      }
    }
    limited := current != [];
  }

  const MAX_SQL_PENDING_REPLAY_PASSES: nat := 32

  /** The whole filter, with the meaning of a run that ends without the limit error;
      nothing in that meaning depends on the order of the rows. */
  method FilterSqlDump(ctx: Context, rows: seq<Row>) returns (st: State, limited: bool)
    ensures st == Filter(ctx, rows, 32).0
    ensures limited == Filter(ctx, rows, 32).1
    ensures !limited ==> Meaning(ctx, rows, st)
    ensures |rows| <= 32 ==> !limited
    ensures Acyclic(ctx) && |ctx.schemas| < 32 ==> !limited
  {
    hide Acyclic, Finished, ReplayFacts, ReplayFrom, ReadAll, Meaning;
    var waiting;
    st, waiting := ReadRows(ctx, rows);
    st := IndexAccepted(ctx, st);
    IndexedFacts(ctx, rows);
    st, limited := Replay(ctx, st, waiting, MAX_SQL_PENDING_REPLAY_PASSES, rows);
    FilterEnds(ctx, rows, MAX_SQL_PENDING_REPLAY_PASSES);
    if !limited {
      Conclusion(ctx, rows, st);
    }
    if Acyclic(ctx) && |ctx.schemas| < MAX_SQL_PENDING_REPLAY_PASSES {
      AcyclicEnds(ctx, rows, MAX_SQL_PENDING_REPLAY_PASSES);
    }
  }
}
