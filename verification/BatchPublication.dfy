/** Publishing staged batches: every run of the stager builds its own incoming
    directory, marks it prepared, verifies it, renames it to the batch directory
    and commits it; any step may fail, and any run may halt for good anywhere.

    The model is for one batch id, with any number of runs interleaved. */
module BatchPublication {
  import opened Options

  // ---------------------------------------------------------------- what is on disk

  datatype Name = Incoming(run: nat) | Final | FailedEvidence(run: nat)

  datatype Status = Ready | Partial | Failed

  /** `files` stands for the digests of everything the manifest lists. */
  datatype Manifest = Manifest(content: Option<nat>, status: Status, files: nat)

  datatype MarkerState = Prepared | MarkedFailed | Committed

  datatype Marker = Marker(state: MarkerState, content: Option<nat>)

  datatype Dir = Dir(marker: Option<Marker>, manifest: Option<Manifest>, files: nat)

  /** The verifier: the marker is in the expected state and bound to the
      manifest, and the manifest describes the files. */
  predicate Passes(d: Dir, expected: MarkerState) {
    && d.marker.Some? && d.manifest.Some?
    && d.marker.value == Marker(expected, d.manifest.value.content)
    && d.manifest.value.files == d.files
    && (expected.MarkedFailed? <==> d.manifest.value.status.Failed?)
  }

  // ---------------------------------------------------------------- runs

  /** Where a run stands.  In `Moved` the directory is renamed and the run has not
      noted it yet; `Failing(k)` is step k of the failure handler. */
  datatype Phase =
    | Started | Building | Described | Marked | Verified | Moved | Renamed | Done
    | CommittedNow | Failing(k: nat) | Halted

  /** A run acts on its incoming directory until it has noted the rename. */
  datatype Run = Run(phase: Phase, renamed: bool)

  /** `verified` remembers the manifests that passed verification while marked
      prepared; `owner` is the run that renamed to the batch directory. */
  datatype World = World(dirs: map<Name, Dir>, runs: map<nat, Run>, verified: set<Manifest>, owner: Option<nat>)

  datatype Step =
    | Begin(r: nat) | Proceed(r: nat) | Work(r: nat, files: nat) | Describe(r: nat, m: Manifest) | MarkPrepared(r: nat)
    | Verify(r: nat) | Rename(r: nat) | Note(r: nat) | Commit(r: nat) | Return(r: nat) | ReturnExisting(r: nat)
    | Raise(r: nat) | MarkFailed(r: nat) | Unlink(r: nat) | Tidy(r: nat, files: nat) | DescribeFailure(r: nat, m: Manifest)
    | MoveEvidence(r: nat) | Halt(r: nat)

  function Source(w: World, r: nat): Name
    requires r in w.runs
  {
    if w.runs[r].renamed then Final else Incoming(r)
  }

  predicate Active(p: Phase) {
    !p.Done? && !p.Halted? && !p.Failing?
  }

  predicate Enabled(w: World, s: Step) {
    if s.Begin? then s.r !in w.runs && Incoming(s.r) !in w.dirs
    else
      && s.r in w.runs
      && var phase := w.runs[s.r].phase; var source := Source(w, s.r);
         match s
         case Proceed(_) => phase.Started? && Final !in w.dirs
         case Work(_, _) => phase.Building? && source in w.dirs
         case Describe(_, m) => phase.Building? && source in w.dirs && !m.status.Failed? && m.content.Some?
         case MarkPrepared(_) => phase.Described? && source in w.dirs && w.dirs[source].manifest.Some?
         case Verify(_) => phase.Marked? && source in w.dirs && Passes(w.dirs[source], Prepared)
         case Rename(_) => phase.Verified? && source in w.dirs && Final !in w.dirs
         case Note(_) => phase.Moved?
         case Commit(_) => phase.Renamed? && source in w.dirs && w.dirs[source].manifest.Some?
         case Return(_) => phase.CommittedNow?
         case ReturnExisting(_) => phase.Started? && Final in w.dirs && Passes(w.dirs[Final], Committed)
         case Raise(_) => Active(phase)
         case MarkFailed(_) => phase == Failing(0) && source in w.dirs
         case Unlink(_) => phase == Failing(1) && source in w.dirs
         case Tidy(_, _) => phase == Failing(2) && source in w.dirs
         case DescribeFailure(_, m) => phase == Failing(2) && source in w.dirs && m.status.Failed? && m.content.None?
         case MoveEvidence(_) =>
           phase == Failing(3) && source in w.dirs && Passes(w.dirs[source], MarkedFailed) && FailedEvidence(s.r) !in w.dirs
         case Halt(_) => !phase.Done?
  }

  function SetPhase(w: World, r: nat, p: Phase): World
    requires r in w.runs
  {
    w.(runs := w.runs[r := w.runs[r].(phase := p)])
  }

  function SetDir(w: World, n: Name, d: Dir): World {
    w.(dirs := w.dirs[n := d])
  }

  function Next(w: World, s: Step): World
    requires Enabled(w, s)
  {
    if s.Begin? then
      w.(dirs := w.dirs[Incoming(s.r) := Dir(None, None, 0)], runs := w.runs[s.r := Run(Started, false)])
    else
      var n := Source(w, s.r);
      match s
      case Proceed(r) => SetPhase(w, r, Building)
      case Work(r, files) => SetDir(w, n, w.dirs[n].(files := files))
      case Describe(r, m) => SetPhase(SetDir(w, n, w.dirs[n].(manifest := Some(m))), r, Described)
      case MarkPrepared(r) =>
        SetPhase(SetDir(w, n, w.dirs[n].(marker := Some(Marker(Prepared, w.dirs[n].manifest.value.content)))), r, Marked)
      case Verify(r) => SetPhase(w.(verified := w.verified + {w.dirs[n].manifest.value}), r, Verified)
      case Rename(r) =>
        w.(dirs := (w.dirs - {n})[Final := w.dirs[n]], runs := w.runs[r := Run(Moved, false)], owner := Some(r))
      case Note(r) => w.(runs := w.runs[r := Run(Renamed, true)])
      case Commit(r) =>
        SetPhase(SetDir(w, n, w.dirs[n].(marker := Some(Marker(Committed, w.dirs[n].manifest.value.content)))), r, CommittedNow)
      case Return(r) => SetPhase(w, r, Done)
      case ReturnExisting(r) => SetPhase(w.(dirs := w.dirs - {n}), r, Done)
      case Raise(r) => SetPhase(w, r, Failing(0))
      case MarkFailed(r) => SetPhase(SetDir(w, n, w.dirs[n].(marker := Some(Marker(MarkedFailed, None)))), r, Failing(1))
      case Unlink(r) => SetPhase(SetDir(w, n, w.dirs[n].(manifest := None)), r, Failing(2))
      case Tidy(r, files) => SetDir(w, n, w.dirs[n].(files := files))
      case DescribeFailure(r, m) => SetPhase(SetDir(w, n, w.dirs[n].(manifest := Some(m))), r, Failing(3))
      case MoveEvidence(r) =>
        SetPhase(w.(dirs := (w.dirs - {n})[FailedEvidence(r) := w.dirs[n]],
                    owner := if n.Final? then None else w.owner), r, Done)
      case Halt(r) => SetPhase(w, r, Halted)
  }

  function Empty(): World {
    World(map[], map[], {}, None)
  }

  // ---------------------------------------------------------------- the invariant

  predicate IsCommitted(d: Dir) {
    d.marker.Some? && d.marker.value.state.Committed?
  }

  predicate IsFailed(d: Dir) {
    d.marker == Some(Marker(MarkedFailed, None))
  }

  /** The manifest in the directory passed verification while marked prepared,
      and the directory still is what was verified. */
  predicate Backed(w: World, d: Dir, state: MarkerState) {
    Passes(d, state) && d.manifest.value in w.verified
  }

  /** The run is the one that renamed to the batch directory and still acts there. */
  predicate OwnsFinal(w: World, r: nat) {
    w.owner == Some(r) && Final in w.dirs
  }

  predicate RunOk(w: World, r: nat)
    requires r in w.runs
  {
    var run := w.runs[r];
    match run.phase
    case Verified =>
      !run.renamed && w.owner != Some(r) && Incoming(r) in w.dirs && Backed(w, w.dirs[Incoming(r)], Prepared)
    case Moved => !run.renamed && OwnsFinal(w, r) && Incoming(r) !in w.dirs && Backed(w, w.dirs[Final], Prepared)
    case Renamed => run.renamed && OwnsFinal(w, r) && Backed(w, w.dirs[Final], Prepared)
    case CommittedNow => run.renamed && OwnsFinal(w, r) && Backed(w, w.dirs[Final], Committed)
    case Failing(k) =>
      && (run.renamed ==> OwnsFinal(w, r))
      && (!run.renamed && w.owner == Some(r) ==> Incoming(r) !in w.dirs)
      && (k > 0 && Source(w, r) in w.dirs ==> IsFailed(w.dirs[Source(w, r)]))
    case Done => true
    case Halted => true
    case _ => !run.renamed && w.owner != Some(r)
  }

  ghost predicate Inv(w: World) {
    && (forall n :: n in w.dirs && IsCommitted(w.dirs[n]) ==> n == Final && Backed(w, w.dirs[n], Committed))
    && (forall r :: r in w.runs ==> RunOk(w, r))
    && (forall r :: Incoming(r) in w.dirs ==> r in w.runs)
    && (w.owner.Some? ==> w.owner.value in w.runs)
  }

  /** Only the run that renamed it may touch the batch directory. */
  lemma OnlyOwnerTouches(w: World, s: Step)
    requires Inv(w) && Enabled(w, s)
    requires Final in w.dirs && w.owner != Some(s.r)
    ensures Final in Next(w, s).dirs && Next(w, s).dirs[Final] == w.dirs[Final]
    ensures Next(w, s).owner == w.owner
  {
    if !s.Begin? {
      assert RunOk(w, s.r);
    }
  }

  /** What a step leaves alone of a run that does not act. */
  lemma StepElsewhere(w: World, s: Step, r: nat)
    requires Inv(w) && Enabled(w, s) && r in w.runs && r != s.r
    ensures var w' := Next(w, s);
      && r in w'.runs && w'.runs[r] == w.runs[r] && w.verified <= w'.verified
      && (Incoming(r) in w'.dirs <==> Incoming(r) in w.dirs)
      && (Incoming(r) in w.dirs ==> w'.dirs[Incoming(r)] == w.dirs[Incoming(r)])
      && (w'.owner == Some(r) ==> w.owner == Some(r))
  {
    hide RunOk, Passes;
  }

  /** A run that does not act keeps its standing. */
  lemma OtherRunOk(w: World, s: Step, r: nat)
    requires Inv(w) && Enabled(w, s) && r in w.runs && r != s.r
    ensures r in Next(w, s).runs && RunOk(Next(w, s), r)
  {
    hide Next, Enabled;
    StepElsewhere(w, s, r);
    assert RunOk(w, r);
    if OwnsFinal(w, r) {
      OnlyOwnerTouches(w, s);
    }
  }

  lemma ActingRunOk(w: World, s: Step)
    requires Inv(w) && Enabled(w, s)
    ensures s.r in Next(w, s).runs && RunOk(Next(w, s), s.r)
  {
    if !s.Begin? {
      assert RunOk(w, s.r);
    }
  }

  lemma DirsOk(w: World, s: Step, n: Name)
    requires Inv(w) && Enabled(w, s)
    requires n in Next(w, s).dirs && IsCommitted(Next(w, s).dirs[n])
    ensures n == Final && Backed(Next(w, s), Next(w, s).dirs[n], Committed)
  {
    if !s.Begin? {
      assert RunOk(w, s.r);
    }
  }

  /** Every step of every run keeps the invariant. */
  lemma StepKeepsInv(w: World, s: Step)
    requires Inv(w) && Enabled(w, s)
    ensures Inv(Next(w, s))
  {
    var w' := Next(w, s);
    forall r | r in w'.runs
      ensures RunOk(w', r)
    {
      if r == s.r {
        ActingRunOk(w, s);
      } else {
        OtherRunOk(w, s, r);
      }
    }
    forall n | n in w'.dirs && IsCommitted(w'.dirs[n])
      ensures n == Final && Backed(w', w'.dirs[n], Committed)
    {
      DirsOk(w, s, n);
    }
    hide RunOk, Backed, IsCommitted;
  }

  // ---------------------------------------------------------------- whole behaviours

  /** From an empty output directory, any steps of any runs in any order. */
  ghost predicate Behaviour(ws: seq<World>, steps: seq<Step>) {
    && |ws| == |steps| + 1 && ws[0] == Empty()
    && (forall i :: 0 <= i < |steps| ==> Enabled(ws[i], steps[i]) && ws[i + 1] == Next(ws[i], steps[i]))
  }

  lemma {:induction false} AlwaysInv(ws: seq<World>, steps: seq<Step>, i: nat)
    requires Behaviour(ws, steps) && i < |ws|
    ensures Inv(ws[i])
  {
    if i > 0 {
      AlwaysInv(ws, steps, i - 1);
      StepKeepsInv(ws[i - 1], steps[i - 1]);
    }
  }

  /** A manifest enters `verified` only by passing verification while marked prepared. */
  lemma {:induction false} VerifiedEarlier(ws: seq<World>, steps: seq<Step>, i: nat, m: Manifest) returns (j: nat)
    requires Behaviour(ws, steps) && i < |ws| && m in ws[i].verified
    ensures j < i && steps[j].Verify?
    ensures var d := ws[j].dirs[Source(ws[j], steps[j].r)]; Passes(d, Prepared) && d.manifest == Some(m)
  {
    assert Enabled(ws[i - 1], steps[i - 1]) && ws[i] == Next(ws[i - 1], steps[i - 1]);
    if m in ws[i - 1].verified {
      j := VerifiedEarlier(ws, steps, i - 1, m);
    } else {
      j := i - 1;
    }
  }

  /** A committed directory is the batch directory, and its manifest was verified
      earlier, over the same files, while it was marked prepared. */
  lemma CommittedWasVerified(ws: seq<World>, steps: seq<Step>, i: nat, n: Name) returns (j: nat)
    requires Behaviour(ws, steps) && i < |ws|
    requires n in ws[i].dirs && IsCommitted(ws[i].dirs[n])
    ensures n == Final && Passes(ws[i].dirs[n], Committed)
    ensures j < i && steps[j].Verify?
    ensures var d := ws[j].dirs[Source(ws[j], steps[j].r)];
      Passes(d, Prepared) && d.manifest == ws[i].dirs[n].manifest && d.files == ws[i].dirs[n].files
  {
    AlwaysInv(ws, steps, i);
    j := VerifiedEarlier(ws, steps, i, ws[i].dirs[n].manifest.value);
  }

  predicate Over(w: World, r: nat) {
    r in w.runs && (w.runs[r].phase.Done? || w.runs[r].phase.Halted?)
  }

  /** The run is over, or it was interrupted before it noted its rename, so that its
      handler looks for a directory that is gone. */
  predicate GivenUp(w: World, r: nat) {
    Over(w, r) || (r in w.runs && w.runs[r].phase.Failing? && !w.runs[r].renamed)
  }

  lemma StaysGivenUp(w: World, s: Step, r: nat)
    requires Inv(w) && Enabled(w, s) && GivenUp(w, r) && w.owner == Some(r) && Final in w.dirs
    ensures GivenUp(Next(w, s), r) && (s.r == r ==> Next(w, s).dirs == w.dirs && Next(w, s).owner == w.owner)
  {
    assert RunOk(w, r);
  }

  /** The batch directory has an owner; while it is committed the owner has just
      committed it, has just been interrupted, or is over. */
  predicate Owned(w: World) {
    Final in w.dirs ==>
      && w.owner.Some? && w.owner.value in w.runs
      && (IsCommitted(w.dirs[Final]) ==>
            var run := w.runs[w.owner.value];
            run.renamed && (run.phase.CommittedNow? || run.phase == Failing(0) || run.phase.Done? || run.phase.Halted?))
  }

  lemma StepKeepsOwned(w: World, s: Step)
    requires Inv(w) && Owned(w) && Enabled(w, s)
    ensures Owned(Next(w, s))
  {
    if !s.Begin? {
      assert RunOk(w, s.r);
    }
  }

  lemma {:induction false} AlwaysOwned(ws: seq<World>, steps: seq<Step>, i: nat)
    requires Behaviour(ws, steps) && i < |ws|
    ensures Owned(ws[i])
  {
    if i > 0 {
      hide Inv, Owned, Enabled, Next;
      AlwaysInv(ws, steps, i - 1);
      AlwaysOwned(ws, steps, i - 1);
      StepKeepsOwned(ws[i - 1], steps[i - 1]);
    }
  }

  predicate Published(w: World) {
    Final in w.dirs && IsCommitted(w.dirs[Final])
  }

  /** Once the run that renamed a batch has given up, no later step of any run changes
      the batch. */
  lemma {:induction false} GivenUpIsFrozen(ws: seq<World>, steps: seq<Step>, i: nat, j: nat)
    requires Behaviour(ws, steps) && i <= j < |ws|
    requires Final in ws[i].dirs && (ws[i].owner.Some? ==> GivenUp(ws[i], ws[i].owner.value))
    ensures Final in ws[j].dirs && ws[j].dirs[Final] == ws[i].dirs[Final]
    ensures ws[i].owner.Some? && ws[j].owner == ws[i].owner && GivenUp(ws[j], ws[i].owner.value)
    decreases j
  {
    hide Inv, GivenUp, Enabled, Next;
    AlwaysOwned(ws, steps, i);
    if i < j {
      GivenUpIsFrozen(ws, steps, i, j - 1);
      AlwaysInv(ws, steps, j - 1);
      StaysGivenUp(ws[j - 1], steps[j - 1], ws[i].owner.value);
      if steps[j - 1].r != ws[i].owner.value {
        OnlyOwnerTouches(ws[j - 1], steps[j - 1]);
      }
    }
  }

  /** A behaviour that goes on from another one. */
  ghost predicate GoesOn(ws: seq<World>, steps: seq<Step>, ws': seq<World>, steps': seq<Step>) {
    Behaviour(ws', steps') && ws <= ws' && steps <= steps'
  }

  /** However the behaviour goes on, the batch directory stays as it is. */
  ghost predicate StaysAsIs(ws: seq<World>, steps: seq<Step>)
    requires |ws| > 0 && Final in ws[|ws| - 1].dirs
  {
    forall ws': seq<World>, steps': seq<Step> :: GoesOn(ws, steps, ws', steps') ==>
      Final in ws'[|ws'| - 1].dirs && ws'[|ws'| - 1].dirs[Final] == ws[|ws| - 1].dirs[Final]
  }

  lemma Continue(ws: seq<World>, steps: seq<Step>, s: Step) returns (ws': seq<World>, steps': seq<Step>)
    requires Behaviour(ws, steps) && Enabled(ws[|ws| - 1], s)
    ensures GoesOn(ws, steps, ws', steps') && |ws'| > 0 && ws'[|ws'| - 1] == Next(ws[|ws| - 1], s)
  {
    hide Enabled, Next;
    ws', steps' := ws + [Next(ws[|ws| - 1], s)], steps + [s];
  }

  /** As long as its run has not given up, an interrupt can make the run's own handler
      take the commit back. */
  lemma TakenBack(ws: seq<World>, steps: seq<Step>) returns (ws': seq<World>, steps': seq<Step>)
    requires Behaviour(ws, steps) && Published(ws[|ws| - 1])
    requires ws[|ws| - 1].owner.Some? ==> !GivenUp(ws[|ws| - 1], ws[|ws| - 1].owner.value)
    ensures GoesOn(ws, steps, ws', steps') && |ws'| > 0
    ensures Final in ws'[|ws'| - 1].dirs && !IsCommitted(ws'[|ws'| - 1].dirs[Final])
  {
    var w := ws[|ws| - 1];
    AlwaysOwned(ws, steps, |ws| - 1);
    var r := w.owner.value;
    ws', steps' := ws, steps;
    if w.runs[r].phase.CommittedNow? {
      ws', steps' := Continue(ws, steps, Raise(r));
    }
    assert ws'[|ws'| - 1].dirs == w.dirs && ws'[|ws'| - 1].runs[r] == Run(Failing(0), true);
    var ws1, steps1 := ws', steps';
    ws', steps' := Continue(ws1, steps1, MarkFailed(r));
  }

  /** As long as its run has not given up, a prepared batch can still be committed or
      marked failed. */
  lemma StillMoves(ws: seq<World>, steps: seq<Step>) returns (ws': seq<World>, steps': seq<Step>)
    requires Behaviour(ws, steps) && Final in ws[|ws| - 1].dirs
    requires !IsCommitted(ws[|ws| - 1].dirs[Final]) && !IsFailed(ws[|ws| - 1].dirs[Final])
    requires ws[|ws| - 1].owner.Some? ==> !GivenUp(ws[|ws| - 1], ws[|ws| - 1].owner.value)
    ensures GoesOn(ws, steps, ws', steps') && |ws'| > 0
    ensures Final in ws'[|ws'| - 1].dirs
    ensures IsCommitted(ws'[|ws'| - 1].dirs[Final]) || IsFailed(ws'[|ws'| - 1].dirs[Final])
  {
    var w := ws[|ws| - 1];
    AlwaysOwned(ws, steps, |ws| - 1);
    AlwaysInv(ws, steps, |ws| - 1);
    var r := w.owner.value;
    assert RunOk(w, r);
    if w.runs[r].phase.Failing? {
      ws', steps' := Continue(ws, steps, MarkFailed(r));
    } else {
      ws', steps' := ws, steps;
      if w.runs[r].phase.Moved? {
        ws', steps' := Continue(ws, steps, Note(r));
      }
      assert ws'[|ws'| - 1].dirs == w.dirs && ws'[|ws'| - 1].runs[r] == Run(Renamed, true);
      var ws1, steps1 := ws', steps';
      ws', steps' := Continue(ws1, steps1, Commit(r));
    }
  }

  /** In every behaviour: a batch that is not marked failed, committed or not, stays as
      it is, whatever happens next, exactly when the run that renamed it has given up. */
  lemma FrozenIff(ws: seq<World>, steps: seq<Step>)
    requires Behaviour(ws, steps) && Final in ws[|ws| - 1].dirs && !IsFailed(ws[|ws| - 1].dirs[Final])
    ensures ws[|ws| - 1].owner.Some?
    ensures StaysAsIs(ws, steps) <==> GivenUp(ws[|ws| - 1], ws[|ws| - 1].owner.value)
    ensures Published(ws[|ws| - 1]) ==>
      (GivenUp(ws[|ws| - 1], ws[|ws| - 1].owner.value) <==> Over(ws[|ws| - 1], ws[|ws| - 1].owner.value))
  {
    hide Enabled, Next, GivenUp;
    var w := ws[|ws| - 1];
    OwnerThere(ws, steps);
    if GivenUp(w, w.owner.value) {
      forall ws': seq<World>, steps': seq<Step> | GoesOn(ws, steps, ws', steps')
        ensures Final in ws'[|ws'| - 1].dirs && ws'[|ws'| - 1].dirs[Final] == w.dirs[Final]
      {
        GivenUpIsFrozen(ws', steps', |ws| - 1, |ws'| - 1);
      }
    } else if IsCommitted(w.dirs[Final]) {
      var ws', steps' := TakenBack(ws, steps);
    } else {
      var ws', steps' := StillMoves(ws, steps);
    }
  }

  lemma OwnerThere(ws: seq<World>, steps: seq<Step>)
    requires Behaviour(ws, steps) && |ws| > 0 && Final in ws[|ws| - 1].dirs
    ensures ws[|ws| - 1].owner.Some?
    ensures Published(ws[|ws| - 1]) ==>
      (GivenUp(ws[|ws| - 1], ws[|ws| - 1].owner.value) <==> Over(ws[|ws| - 1], ws[|ws| - 1].owner.value))
  {
    AlwaysOwned(ws, steps, |ws| - 1);
  }

  // ---------------------------------------------------------------- evidence of failures

  /** Failure evidence is marked failed, without content, over a manifest that says so and
      describes the files; its run is done. */
  predicate IsEvidence(w: World, r: nat) {
    FailedEvidence(r) in w.dirs ==>
      var d := w.dirs[FailedEvidence(r)];
      && d.marker == Some(Marker(MarkedFailed, None)) && d.manifest.Some?
      && d.manifest.value.content == None && d.manifest.value.status == Failed && d.manifest.value.files == d.files
      && r in w.runs && w.runs[r].phase == Done
  }

  lemma StepKeepsEvidence(w: World, s: Step, r: nat)
    requires Inv(w) && Enabled(w, s) && IsEvidence(w, r)
    ensures IsEvidence(Next(w, s), r)
    ensures FailedEvidence(r) in w.dirs ==>
      FailedEvidence(r) in Next(w, s).dirs && Next(w, s).dirs[FailedEvidence(r)] == w.dirs[FailedEvidence(r)]
  {
    if !s.Begin? {
      assert RunOk(w, s.r);
    }
  }

  lemma {:induction false} AlwaysEvidence(ws: seq<World>, steps: seq<Step>, i: nat, r: nat)
    requires Behaviour(ws, steps) && i < |ws|
    ensures IsEvidence(ws[i], r)
  {
    if i > 0 {
      hide IsEvidence, Enabled, Next, Inv;
      AlwaysEvidence(ws, steps, i - 1, r);
      AlwaysInv(ws, steps, i - 1);
      StepKeepsEvidence(ws[i - 1], steps[i - 1], r);
    }
  }

  /** Failure evidence, once there, is never changed or removed. */
  lemma {:induction false} EvidenceStays(ws: seq<World>, steps: seq<Step>, i: nat, j: nat, r: nat)
    requires Behaviour(ws, steps) && i <= j < |ws| && FailedEvidence(r) in ws[i].dirs
    ensures FailedEvidence(r) in ws[j].dirs && ws[j].dirs[FailedEvidence(r)] == ws[i].dirs[FailedEvidence(r)]
    decreases j
  {
    if i < j {
      hide IsEvidence, Enabled, Next, Inv;
      EvidenceStays(ws, steps, i, j - 1, r);
      AlwaysEvidence(ws, steps, j - 1, r);
      AlwaysInv(ws, steps, j - 1);
      StepKeepsEvidence(ws[j - 1], steps[j - 1], r);
    }
  }

  /** A run whose handler ends leaves all that it had in the evidence, and nothing under
      the name where it was. */
  lemma HandlerEnds(ws: seq<World>, steps: seq<Step>, i: nat)
    requires Behaviour(ws, steps) && i < |steps| && steps[i].MoveEvidence?
    ensures var r := steps[i].r; var source := if ws[i].runs[r].renamed then Final else Incoming(r);
      && source in ws[i].dirs && source !in ws[i + 1].dirs
      && FailedEvidence(r) in ws[i + 1].dirs && ws[i + 1].dirs[FailedEvidence(r)] == ws[i].dirs[source]
      && (forall n :: n != source && n != FailedEvidence(r) ==>
            (n in ws[i + 1].dirs <==> n in ws[i].dirs) && (n in ws[i].dirs ==> ws[i + 1].dirs[n] == ws[i].dirs[n]))
  {
    assert Enabled(ws[i], steps[i]) && ws[i + 1] == Next(ws[i], steps[i]);
  }

  // ---------------------------------------------------------------- the import gate

  datatype Reason =
    | ExpectedContentIdRequired | ManifestUnreadable | ContentIdMismatch | ValidationFailed
    | PartialReviewRequired | StatusNotImportable | Importable

  /** `sources` says that the deep check of the original archives passes. */
  function ImportabilityReason(d: Dir, expected: Option<nat>, reviewedPartial: bool, sources: bool): Reason {
    if expected.None? then ExpectedContentIdRequired
    else if d.manifest.None? then ManifestUnreadable
    else if d.manifest.value.content != expected then ContentIdMismatch
    else if !Passes(d, Committed) || !sources then ValidationFailed
    else
      match d.manifest.value.status
      case Ready => Importable
      case Partial => if reviewedPartial then Importable else PartialReviewRequired
      case Failed => StatusNotImportable
  }

  /** Every refusal of the gate names its cause, and the causes before it do not hold. */
  lemma GateReasons(d: Dir, expected: Option<nat>, reviewedPartial: bool, sources: bool)
    ensures var reason := ImportabilityReason(d, expected, reviewedPartial, sources);
      var bound := d.marker.Some? && d.manifest.Some? && d.marker.value == Marker(Committed, d.manifest.value.content)
        && d.manifest.value.files == d.files && d.manifest.value.status != Failed && sources;
      && (reason == ExpectedContentIdRequired <==> expected == None)
      && (reason == ManifestUnreadable <==> expected != None && d.manifest == None)
      && (reason == ContentIdMismatch <==> expected != None && d.manifest.Some? && d.manifest.value.content != expected)
      && (reason == ValidationFailed <==>
            expected != None && d.manifest.Some? && d.manifest.value.content == expected && !bound)
      && (reason == PartialReviewRequired <==>
            expected != None && bound && d.manifest.value.content == expected
            && d.manifest.value.status == Partial && !reviewedPartial)
      && reason != StatusNotImportable
  {
  }

  /** In every behaviour, what can be imported is the committed batch directory,
      with the expected content, verified before it was committed. */
  lemma OnlyCommittedImportable(ws: seq<World>, steps: seq<Step>, i: nat, n: Name,
                                expected: Option<nat>, reviewedPartial: bool, sources: bool)
    requires Behaviour(ws, steps) && i < |ws| && n in ws[i].dirs
    requires ImportabilityReason(ws[i].dirs[n], expected, reviewedPartial, sources) == Importable
    ensures n == Final && IsCommitted(ws[i].dirs[n])
    ensures ws[i].dirs[n].manifest.Some? && ws[i].dirs[n].manifest.value.content == expected
    ensures ws[i].dirs[n].manifest.value in ws[i].verified
    ensures ws[i].dirs[n].manifest.value.status.Ready? || reviewedPartial
  {
    AlwaysInv(ws, steps, i);
  }

  /** In every behaviour a directory can be imported exactly when it is committed,
      has the expected content, its archives check out, and its status is ready, or
      partial and reviewed. */
  lemma ImportableIff(ws: seq<World>, steps: seq<Step>, i: nat, n: Name,
                      expected: Option<nat>, reviewedPartial: bool, sources: bool)
    requires Behaviour(ws, steps) && i < |ws| && n in ws[i].dirs
    ensures var d := ws[i].dirs[n];
      ImportabilityReason(d, expected, reviewedPartial, sources) == Importable <==>
      && IsCommitted(d) && sources && expected.Some? && d.manifest.Some? && d.manifest.value.content == expected
      && (d.manifest.value.status.Ready? || (d.manifest.value.status.Partial? && reviewedPartial))
  {
    if IsCommitted(ws[i].dirs[n]) {
      var _ := CommittedWasVerified(ws, steps, i, n);
    }
  }

  // ---------------------------------------------------------------- what can happen

  /** The world of run 0 alone. */
  function Alone(n: Name, d: Dir, phase: Phase, verified: set<Manifest>): World {
    World(map[n := d], map[0 := Run(phase, n.Final?)], verified, if n.Final? then Some(0) else None)
  }

  lemma AloneUntilMarked(m: Manifest) returns (ws: seq<World>, steps: seq<Step>)
    requires m.content.Some? && !m.status.Failed?
    ensures Behaviour(ws, steps)
    ensures ws[|ws| - 1] == Alone(Incoming(0), Dir(Some(Marker(Prepared, m.content)), Some(m), m.files), Marked, {})
  {
    ws, steps := [Empty()], [];
    ws, steps := Continue(ws, steps, Begin(0));
    assert ws[|ws| - 1] == Alone(Incoming(0), Dir(None, None, 0), Started, {});
    ws, steps := Continue(ws, steps, Proceed(0));
    assert ws[|ws| - 1] == Alone(Incoming(0), Dir(None, None, 0), Building, {});
    ws, steps := Continue(ws, steps, Work(0, m.files));
    assert ws[|ws| - 1] == Alone(Incoming(0), Dir(None, None, m.files), Building, {});
    ws, steps := Continue(ws, steps, Describe(0, m));
    assert ws[|ws| - 1] == Alone(Incoming(0), Dir(None, Some(m), m.files), Described, {});
    ws, steps := Continue(ws, steps, MarkPrepared(0));
  }

  lemma AloneUntilMoved(m: Manifest) returns (ws: seq<World>, steps: seq<Step>)
    requires m.content.Some? && !m.status.Failed?
    ensures Behaviour(ws, steps)
    ensures ws[|ws| - 1] == World(map[Final := Dir(Some(Marker(Prepared, m.content)), Some(m), m.files)],
                                  map[0 := Run(Moved, false)], {m}, Some(0))
  {
    ws, steps := AloneUntilMarked(m);
    var d := Dir(Some(Marker(Prepared, m.content)), Some(m), m.files);
    ws, steps := Continue(ws, steps, Verify(0));
    assert ws[|ws| - 1] == Alone(Incoming(0), d, Verified, {m});
    ws, steps := Continue(ws, steps, Rename(0));
  }

  lemma AloneUntilCommitted(m: Manifest) returns (ws: seq<World>, steps: seq<Step>)
    requires m.content.Some? && !m.status.Failed?
    ensures Behaviour(ws, steps)
    ensures ws[|ws| - 1] == Alone(Final, Dir(Some(Marker(Committed, m.content)), Some(m), m.files), CommittedNow, {m})
  {
    ws, steps := AloneUntilMoved(m);
    ws, steps := Continue(ws, steps, Note(0));
    assert ws[|ws| - 1] == Alone(Final, Dir(Some(Marker(Prepared, m.content)), Some(m), m.files), Renamed, {m});
    ws, steps := Continue(ws, steps, Commit(0));
  }

  /** A run on its own that nothing disturbs commits its batch. */
  lemma SoloRunCommits(m: Manifest) returns (ws: seq<World>, steps: seq<Step>)
    requires m.content.Some? && !m.status.Failed?
    ensures Behaviour(ws, steps)
    ensures ws[|ws| - 1] == Alone(Final, Dir(Some(Marker(Committed, m.content)), Some(m), m.files), Done, {m})
  {
    ws, steps := AloneUntilCommitted(m);
    ws, steps := Continue(ws, steps, Return(0));
  }

  /** A behaviour in which a committed batch is taken back: an interrupt between the
      committed marker and the return. */
  lemma InterruptAfterCommit(m: Manifest) returns (ws: seq<World>, steps: seq<Step>, i: nat)
    requires m.content.Some? && !m.status.Failed?
    ensures Behaviour(ws, steps) && i < |ws| && Published(ws[i])
    ensures Final in ws[|ws| - 1].dirs && !IsCommitted(ws[|ws| - 1].dirs[Final])
  {
    var ws0, steps0 := AloneUntilCommitted(m);
    i := |ws0| - 1;
    ws, steps := TakenBack(ws0, steps0);
    assert ws[i] == ws0[i];
  }

  /** A behaviour in which a verified batch is lost: an interrupt between the rename and
      its note sends the handler to the incoming directory, which is gone; the batch
      directory stays prepared, whatever any run does. */
  lemma InterruptAfterRename(m: Manifest) returns (ws: seq<World>, steps: seq<Step>)
    requires m.content.Some? && !m.status.Failed?
    ensures Behaviour(ws, steps) && Final in ws[|ws| - 1].dirs && Backed(ws[|ws| - 1], ws[|ws| - 1].dirs[Final], Prepared)
    ensures StaysAsIs(ws, steps)
  {
    ws, steps := AloneUntilMoved(m);
    ws, steps := Continue(ws, steps, Raise(0));
    FrozenIff(ws, steps);
  }

  /** A second run finds the committed batch, removes what it had itself and leaves the
      batch as it is. */
  lemma SecondRunReturns(m: Manifest) returns (ws: seq<World>, steps: seq<Step>)
    requires m.content.Some? && !m.status.Failed?
    ensures Behaviour(ws, steps)
    ensures ws[|ws| - 1].dirs == map[Final := Dir(Some(Marker(Committed, m.content)), Some(m), m.files)]
    ensures 1 in ws[|ws| - 1].runs && ws[|ws| - 1].runs[1].phase == Done
  {
    ws, steps := SoloRunCommits(m);
    ws, steps := Continue(ws, steps, Begin(1));
    ws, steps := Continue(ws, steps, ReturnExisting(1));
  }

  lemma AloneUntilFailing() returns (ws: seq<World>, steps: seq<Step>)
    ensures Behaviour(ws, steps)
    ensures ws[|ws| - 1] == Alone(Incoming(0), Dir(Some(Marker(MarkedFailed, None)), None, 0), Failing(1), {})
  {
    ws, steps := [Empty()], [];
    ws, steps := Continue(ws, steps, Begin(0));
    ws, steps := Continue(ws, steps, Proceed(0));
    assert ws[|ws| - 1] == Alone(Incoming(0), Dir(None, None, 0), Building, {});
    ws, steps := Continue(ws, steps, Raise(0));
    ws, steps := Continue(ws, steps, MarkFailed(0));
  }

  lemma AloneUntilTidied(files: nat) returns (ws: seq<World>, steps: seq<Step>)
    ensures Behaviour(ws, steps)
    ensures ws[|ws| - 1] == Alone(Incoming(0), Dir(Some(Marker(MarkedFailed, None)), None, files), Failing(2), {})
  {
    ws, steps := AloneUntilFailing();
    ws, steps := Continue(ws, steps, Unlink(0));
    ws, steps := Continue(ws, steps, Tidy(0, files));
  }

  /** A run that fails while it works ends with its evidence and nothing else. */
  lemma SoloRunFails(files: nat, m: Manifest) returns (ws: seq<World>, steps: seq<Step>)
    requires m.content.None? && m.status.Failed? && m.files == files
    ensures Behaviour(ws, steps)
    ensures ws[|ws| - 1] ==
      World(map[FailedEvidence(0) := Dir(Some(Marker(MarkedFailed, None)), Some(m), files)], map[0 := Run(Done, false)], {}, None)
  {
    ws, steps := AloneUntilTidied(files);
    ws, steps := Continue(ws, steps, DescribeFailure(0, m));
    assert ws[|ws| - 1] == Alone(Incoming(0), Dir(Some(Marker(MarkedFailed, None)), Some(m), files), Failing(3), {});
    ws, steps := Continue(ws, steps, MoveEvidence(0));
  }

  /** There is an owner exactly while there is a batch directory. */
  lemma {:induction false} OwnerIff(ws: seq<World>, steps: seq<Step>, i: nat)
    requires Behaviour(ws, steps) && i < |ws|
    ensures ws[i].owner.Some? <==> Final in ws[i].dirs
  {
    if i > 0 {
      OwnerIff(ws, steps, i - 1);
      AlwaysInv(ws, steps, i - 1);
      StepKeepsOwner(ws[i - 1], steps[i - 1]);
    }
  }

  lemma StepKeepsOwner(w: World, s: Step)
    requires Inv(w) && Enabled(w, s) && (w.owner.Some? <==> Final in w.dirs)
    ensures var w' := Next(w, s); w'.owner.Some? <==> Final in w'.dirs
  {
  }
}
