/** Publishing one normalized inspection record: a record directory, a tile
    cache, and the catalog row that names them.

    Each disk operation is one step and the process may stop between any two.
    Removing a tree takes two steps: it is first damaged, then gone. */
module RecordPublish {
  import opened Options
  import Picking

  /** A record directory: the source hash in its provenance, whether record.json
      has the current schema, and whether nothing of it has been deleted. */
  datatype Dir = Dir(hash: nat, standard: bool, whole: bool)

  /** What is on disk for one inspection.  `backups` are the replaced directories
      by job; `caches` maps a hash to whether that cache is whole. */
  datatype Disk = Disk(
    record: Option<Dir>,
    backups: map<nat, Dir>,
    stage: Option<Dir>,
    stagedCache: bool,
    caches: map<nat, bool>,
    catalog: Option<nat>)

  function New(h: nat): Dir {
    Dir(h, true, true)
  }

  // ---------------------------------------------------------------- steps

  datatype Action =
    | BackUp(job: nat) | PlaceRecord | DamageStage | DropStage
    | DamageCache(h: nat) | DropCache(h: nat) | PlaceCache(h: nat)
    | Commit(h: nat)
    | DamageBackup(job: nat) | DropBackup(job: nat) | DropOtherCaches(h: nat)
    | DamageRecord | DropRecord | Restore(job: nat)

  function Damaged(d: Dir): Dir {
    d.(whole := false)
  }

  function Apply(d: Disk, a: Action): Disk {
    match a
    case BackUp(job) => if d.record.Some? then d.(record := None, backups := d.backups[job := d.record.value]) else d
    case PlaceRecord => d.(record := d.stage, stage := None)
    case DamageStage => if d.stage.Some? then d.(stage := Some(Damaged(d.stage.value))) else d
    case DropStage => d.(stage := None)
    case DamageCache(h) => d.(caches := d.caches[h := false])
    case DropCache(h) => d.(caches := d.caches - {h})
    case PlaceCache(h) => d.(caches := d.caches[h := true], stagedCache := false)
    case Commit(h) => d.(catalog := Some(h))
    case DamageBackup(job) => if job in d.backups then d.(backups := d.backups[job := Damaged(d.backups[job])]) else d
    case DropBackup(job) => d.(backups := d.backups - {job})
    case DropOtherCaches(h) => d.(caches := map x | x in d.caches && x == h :: d.caches[x])
    case DamageRecord => if d.record.Some? then d.(record := Some(Damaged(d.record.value))) else d
    case DropRecord => d.(record := None)
    case Restore(job) => if job in d.backups then d.(record := Some(d.backups[job]), backups := d.backups - {job}) else d
  }

  /** The first n actions of a plan. */
  function Run(d: Disk, plan: seq<Action>, n: nat): Disk
    decreases |plan|
  {
    if plan == [] || n == 0 then d else Run(Apply(d, plan[0]), plan[1..], n - 1)
  }

  lemma {:induction false} RunSplit(d: Disk, p: seq<Action>, q: seq<Action>, n: nat)
    ensures Run(d, p + q, n) == if n <= |p| then Run(d, p, n) else Run(Run(d, p, |p|), q, n - |p|)
    decreases |p|
  {
    if p == [] {
      assert p + q == q;
    } else if n > 0 {
      assert (p + q)[1..] == p[1..] + q;
      RunSplit(Apply(d, p[0]), p[1..], q, n - 1);
    }
  }

  // ---------------------------------------------------------------- the plan of a publish

  /** The published directory already is this record: no backup is made. */
  predicate SameRecord(d: Disk, h: nat) {
    d.record.Some? && d.record.value.hash == h && d.record.value.standard
  }

  predicate Replaces(d: Disk, h: nat) {
    d.record.Some? && !SameRecord(d, h)
  }

  function RecordPlan(d: Disk, job: nat, h: nat): seq<Action> {
    if SameRecord(d, h) then [DamageStage, DropStage]
    else if d.record.Some? then [BackUp(job), PlaceRecord]
    else [PlaceRecord]
  }

  function CachePlan(d: Disk, h: nat): seq<Action> {
    (if h in d.caches then [DamageCache(h), DropCache(h)] else []) + [PlaceCache(h)]
  }

  function CleanPlan(d: Disk, job: nat, h: nat): seq<Action> {
    (if Replaces(d, h) then [DamageBackup(job), DropBackup(job)] else []) + [DropOtherCaches(h)]
  }

  /** Everything before the catalog transaction. */
  function FilePlan(d: Disk, job: nat, h: nat): seq<Action> {
    RecordPlan(d, job, h) + CachePlan(d, h)
  }

  function Plan(d: Disk, job: nat, h: nat): seq<Action> {
    FilePlan(d, job, h) + ([Commit(h)] + CleanPlan(d, job, h))
  }

  /** What the handler of a failed transaction does. */
  function UndoPlan(d: Disk, job: nat, h: nat): seq<Action> {
    [DamageCache(h), DropCache(h)] + ([DamageRecord, DropRecord] + if Replaces(d, h) then [Restore(job)] else [])
  }

  function Staged(d: Disk, h: nat): Disk {
    d.(stage := Some(New(h)), stagedCache := true)
  }

  /** Staged, then n steps of the publish. */
  function Publish(d: Disk, job: nat, h: nat, n: nat): Disk {
    Run(Staged(d, h), Plan(d, job, h), n)
  }

  function PublishAll(d: Disk, job: nat, h: nat): Disk {
    Publish(d, job, h, |Plan(d, job, h)|)
  }

  /** Staged, all file steps, the transaction fails, and n steps of its handler. */
  function FailedPublish(d: Disk, job: nat, h: nat, n: nat): Disk {
    var files := Run(Staged(d, h), FilePlan(d, job, h), |FilePlan(d, job, h)|);
    Run(files, UndoPlan(d, job, h), n)
  }

  /** The whole handler. */
  function RolledBackPublish(d: Disk, job: nat, h: nat): Disk {
    FailedPublish(d, job, h, |UndoPlan(d, job, h)|)
  }

  /** The skip test: the catalog names the hash and record.json is current.  The
      directory's own hash and the cache are not looked at. */
  predicate IsCurrent(d: Disk, h: nat) {
    d.catalog == Some(h) && d.record.Some? && d.record.value.standard && d.record.value.whole
  }

  predicate Whole(d: Disk) {
    d.record.Some? ==> d.record.value.whole
  }

  /** The publish raises before its first step: the record there cannot be read, or its
      backup would take the place of one that the same job left before. */
  predicate Refused(d: Disk, job: nat, h: nat) {
    !Whole(d) || (Replaces(d, h) && job in d.backups)
  }

  /** A run gets as far as the first step of its publish. */
  predicate Acts(d: Disk, job: nat, h: nat) {
    !IsCurrent(d, h) && !Refused(d, job, h)
  }

  /** One run that may stop after n steps. */
  function Attempt(d: Disk, job: nat, h: nat, n: nat): Disk {
    if IsCurrent(d, h) then d else if Refused(d, job, h) then Staged(d, h) else Publish(d, job, h, n)
  }

  function CleanRun(d: Disk, job: nat, h: nat): Disk {
    if IsCurrent(d, h) then d else if Refused(d, job, h) then Staged(d, h) else PublishAll(d, job, h)
  }

  /** Recovery at the next start: if there is no record some backup returns, whichever
      the directory listing gives first, and all the others are dropped. */
  ghost predicate Recovers(s: Disk, r: Disk) {
    && r == s.(backups := map[], record := r.record)
    && (if s.record.Some? || s.backups == map[] then r.record == s.record
        else exists j :: j in s.backups && r.record == Some(s.backups[j]))
  }

  /** A recovery that may have been left part-way: nothing done yet, or a record is
      there and some backups are dropped or damaged. */
  ghost predicate Recovering(s: Disk, t: Disk) {
    && t == s.(backups := t.backups, record := t.record)
    && t.backups.Keys <= s.backups.Keys
    && (if t.record.None? then t == s
        else if s.record.Some? then t.record == s.record
        else exists j :: j in s.backups && t.record == Some(s.backups[j]))
  }

  /** Stopping a recovery is harmless: the next one ends as one recovery could. */
  lemma RecoverAgain(s: Disk, t: Disk, r: Disk)
    requires Recovering(s, t) && Recovers(t, r)
    ensures Recovers(s, r)
  {
    if t.record.Some? && s.record.None? {
      var j :| j in s.backups && t.record == Some(s.backups[j]);
      assert r.record == Some(s.backups[j]);
    }
  }

  /** Recovery that takes backup j, if it needs one. */
  function RecoveredFrom(s: Disk, j: nat): Disk {
    s.(backups := map[], record := if s.record.None? && j in s.backups then Some(s.backups[j]) else s.record)
  }

  lemma CanRecover(s: Disk, j: nat)
    requires s.record.Some? || s.backups == map[] || j in s.backups
    ensures Recovers(s, RecoveredFrom(s, j))
  {
    if s.record.None? && j in s.backups {
      assert RecoveredFrom(s, j).record == Some(s.backups[j]);
    }
  }

  // ---------------------------------------------------------------- states between runs

  /** Between runs: no backup is left and the record, if any, is complete. */
  predicate Settled(d: Disk) {
    d.backups == map[] && (d.record.Some? ==> d.record.value.whole)
  }

  /** Catalog, record directory and tile cache are all at h. */
  predicate AllAt(d: Disk, h: nat) {
    d.catalog == Some(h) && d.record == Some(New(h)) && h in d.caches && d.caches[h]
  }

  lemma RunOne(d: Disk, a: Action, n: nat)
    ensures Run(d, [a], n) == if n == 0 then d else Apply(d, a)
  {
    assert [a][1..] == [];
  }

  lemma RunTwo(d: Disk, a: Action, b: Action, n: nat)
    ensures Run(d, [a, b], n) == if n == 0 then d else if n == 1 then Apply(d, a) else Apply(Apply(d, a), b)
  {
    assert [a, b][1..] == [b];
    if n > 0 {
      RunOne(Apply(d, a), b, n - 1);
    }
  }

  predicate Same<T(==)>(x: nat, a: map<nat, T>, b: map<nat, T>) {
    (x in a <==> x in b) && (x in a ==> a[x] == b[x])
  }

  /** The record directory and its backup: untouched, moved aside, or replaced. */
  predicate Untouched(d: Disk, s: Disk) {
    s.record == d.record && s.backups == d.backups
  }

  predicate MovedAside(d: Disk, s: Disk, job: nat, h: nat) {
    Replaces(d, h) && s.record == None && s.backups == d.backups[job := d.record.value]
  }

  ghost predicate Placed(d: Disk, s: Disk, job: nat, h: nat) {
    && s.record == Some(New(h))
    && (forall j :: j != job ==> Same(j, d.backups, s.backups))
    && (!Replaces(d, h) ==> s.backups == d.backups)
  }

  predicate CacheWhole(d: Disk, h: nat) {
    h in d.caches && d.caches[h]
  }

  lemma RecordThere(d: Disk, s: Disk, job: nat, h: nat)
    ensures Placed(d, s, job, h) ==> s.record == Some(New(h))
  {
  }

  // ---------------------------------------------------------------- step by step

  /** What lies under h after n steps of replacing the cache. */
  function CachesAfter(caches: map<nat, bool>, h: nat, n: nat): map<nat, bool> {
    if n == 0 then caches
    else if h !in caches || n >= 3 then caches[h := true]
    else if n == 1 then caches[h := false]
    else caches - {h}
  }

  lemma CacheTable(s: Disk, h: nat, n: nat)
    ensures var size := if h in s.caches then 3 else 1;
      && |CachePlan(s, h)| == size
      && Run(s, CachePlan(s, h), n) ==
           s.(caches := CachesAfter(s.caches, h, n), stagedCache := if n < size then s.stagedCache else false)
  {
    var drop := if h in s.caches then [DamageCache(h), DropCache(h)] else [];
    RunSplit(s, drop, [PlaceCache(h)], n);
    if h in s.caches {
      RunTwo(s, DamageCache(h), DropCache(h), n);
      RunTwo(s, DamageCache(h), DropCache(h), 2);
      assert s.caches[h := false] - {h} == s.caches - {h};
      assert (s.caches - {h})[h := true] == s.caches[h := true];
    }
    RunOne(Run(s, drop, |drop|), PlaceCache(h), if n > |drop| then n - |drop| else 0);
  }

  /** The record there has this hash and the current schema. */
  predicate Kept(d: Disk, h: nat) {
    d.record.Some? && d.record.value.hash == h && d.record.value.standard
  }

  lemma RecordTable(d: Disk, job: nat, h: nat, n: nat)
    requires Whole(d)
    ensures var s := Run(Staged(d, h), RecordPlan(d, job, h), n);
      && |RecordPlan(d, job, h)| == (if d.record.Some? then 2 else 1)
      && s.stagedCache && s.caches == d.caches && s.catalog == d.catalog
      && (Kept(d, h) ==>
            && s.record == d.record && s.backups == d.backups
            && s.stage == if n == 0 then Some(Dir(h, true, true)) else if n == 1 then Some(Dir(h, true, false)) else None)
      && (d.record.Some? && !Kept(d, h) ==>
            && s.record == (if n == 0 then d.record else if n == 1 then None else Some(Dir(h, true, true)))
            && s.backups == (if n == 0 then d.backups else d.backups[job := d.record.value])
            && s.stage == if n < 2 then Some(Dir(h, true, true)) else None)
      && (d.record.None? ==>
            && s.record == (if n == 0 then None else Some(Dir(h, true, true))) && s.backups == d.backups
            && s.stage == if n == 0 then Some(Dir(h, true, true)) else None)
  {
    var s0 := Staged(d, h);
    if SameRecord(d, h) {
      RunTwo(s0, DamageStage, DropStage, n);
    } else if d.record.Some? {
      RunTwo(s0, BackUp(job), PlaceRecord, n);
    } else {
      RunOne(s0, PlaceRecord, n);
    }
  }

  /** The rest of a publish: the commit, the backup damaged and gone, the other caches. */
  lemma CleanTable(d: Disk, s: Disk, job: nat, h: nat, n: nat)
    requires h in s.caches && s.caches[h] && (Replaces(d, h) ==> job in s.backups)
    ensures var p := [Commit(h)] + CleanPlan(d, job, h); var size := if Replaces(d, h) then 4 else 2;
      var t := Run(s, p, n);
      && |p| == size
      && t.record == s.record && t.stage == s.stage && t.stagedCache == s.stagedCache
      && t.catalog == (if n == 0 then s.catalog else Some(h))
      && t.caches == (if n < size then s.caches else map[h := true])
      && t.backups == (if !Replaces(d, h) || n < 2 then s.backups
                       else if n == 2 then s.backups[job := Damaged(s.backups[job])] else s.backups - {job})
  {
    var left := if n > 1 then n - 1 else 0;
    RunSplit(s, [Commit(h)], CleanPlan(d, job, h), n);
    RunOne(s, Commit(h), n);
    RunOne(s, Commit(h), 1);
    DropTable(d, Apply(s, Commit(h)), job, h, left);
  }

  /** The backup damaged and gone, then the other caches. */
  lemma DropTable(d: Disk, s: Disk, job: nat, h: nat, n: nat)
    requires h in s.caches && s.caches[h] && (Replaces(d, h) ==> job in s.backups)
    ensures var p := CleanPlan(d, job, h); var size := if Replaces(d, h) then 3 else 1;
      var t := Run(s, p, n);
      && |p| == size
      && t.record == s.record && t.stage == s.stage && t.stagedCache == s.stagedCache && t.catalog == s.catalog
      && t.caches == (if n < size then s.caches else map[h := true])
      && t.backups == (if !Replaces(d, h) || n == 0 then s.backups
                       else if n == 1 then s.backups[job := Damaged(s.backups[job])] else s.backups - {job})
  {
    var drop := if Replaces(d, h) then [DamageBackup(job), DropBackup(job)] else [];
    RunSplit(s, drop, [DropOtherCaches(h)], n);
    if Replaces(d, h) {
      RunTwo(s, DamageBackup(job), DropBackup(job), n);
      RunTwo(s, DamageBackup(job), DropBackup(job), 2);
      assert s.backups[job := Damaged(s.backups[job])] - {job} == s.backups - {job};
    }
    RunOne(Run(s, drop, |drop|), DropOtherCaches(h), if n > |drop| then n - |drop| else 0);
    assert (map x | x in s.caches && x == h :: s.caches[x]) == map[h := true];
  }

  /** Where the parts of a publish end: the record in place, the cache in place, the
      commit done, the backup gone. */
  datatype Ends = Ends(record: nat, cache: nat, commit: nat, backup: nat)

  function EndsOf(d: Disk, h: nat): Ends {
    var record := if d.record.Some? then 2 else 1;
    var cache := record + if h in d.caches then 3 else 1;
    Ends(record, cache, cache + 1, cache + 1 + if d.record.Some? && !Kept(d, h) then 2 else 0)
  }

  /** The disk after n steps of a publish, thing by thing and without naming the steps.
      The last step removes the caches of other hashes; until then they are as they
      were. */
  lemma PublishTable(d: Disk, job: nat, h: nat, n: nat)
    requires !Refused(d, job, h)
    ensures var s := Publish(d, job, h, n); var at := EndsOf(d, h); var replaced := d.record.Some? && !Kept(d, h);
      && |Plan(d, job, h)| == at.backup + 1
      && s.record == (if Kept(d, h) || n == 0 then d.record else if n < at.record then None else Some(Dir(h, true, true)))
      && s.stage == (if n >= at.record then None
                     else if Kept(d, h) && n == 1 then Some(Dir(h, true, false)) else Some(Dir(h, true, true)))
      && s.caches == (if n <= at.record then d.caches
                      else if n <= at.backup then CachesAfter(d.caches, h, n - at.record) else map[h := true])
      && s.stagedCache == (n < at.cache)
      && s.catalog == (if n < at.commit then d.catalog else Some(h))
      && s.backups == (if !replaced || n == 0 || n >= at.backup then d.backups
                       else if n <= at.commit then d.backups[job := d.record.value]
                       else d.backups[job := d.record.value.(whole := false)])
  {
    hide Run, Apply, RecordPlan, CachePlan, CleanPlan, Staged;
    var p, q, r := RecordPlan(d, job, h), CachePlan(d, h), [Commit(h)] + CleanPlan(d, job, h);
    RunSplit(Staged(d, h), p + q, r, n);
    RunSplit(Staged(d, h), p, q, n);
    RunSplit(Staged(d, h), p, q, |p + q|);
    RecordTable(d, job, h, n);
    RecordTable(d, job, h, |p|);
    var placed := Run(Staged(d, h), p, |p|);
    SameCachePlan(d, placed, h);
    CacheTable(placed, h, if n > |p| then n - |p| else 0);
    CacheTable(placed, h, |q|);
    var files := Run(placed, q, |q|);
    CleanTable(d, files, job, h, if n > |p + q| then n - |p + q| else 0);
    if d.record.Some? && !Kept(d, h) {
      assert d.backups[job := d.record.value] - {job} == d.backups;
    }
    RunNone(files, r);
  }

  lemma SameCachePlan(d: Disk, s: Disk, h: nat)
    requires s.caches == d.caches
    ensures CachePlan(s, h) == CachePlan(d, h)
  {
  }

  /** Where a publish can stand, whenever it stops; backups of other jobs stay. */
  lemma Stops(d: Disk, job: nat, h: nat, n: nat)
    requires !Refused(d, job, h)
    ensures var s := Publish(d, job, h, n);
      && (Untouched(d, s) || MovedAside(d, s, job, h) || Placed(d, s, job, h))
      && (s.catalog == d.catalog || (s.catalog == Some(h) && Placed(d, s, job, h) && CacheWhole(s, h)))
      && (n >= |Plan(d, job, h)| ==> AllAt(s, h) && (Replaces(d, h) ==> job !in s.backups))
  {
    hide Publish, Plan;
    PublishTable(d, job, h, n);
  }

  /** A publish that ran to its end leaves the new record, its cache and no other, the
      catalog at it, nothing staged, and the backups of other jobs. */
  lemma PublishEnds(d: Disk, job: nat, h: nat)
    requires !Refused(d, job, h)
    ensures PublishAll(d, job, h) == Disk(Some(Dir(h, true, true)), d.backups, None, false, map[h := true], Some(h))
  {
    PublishTable(d, job, h, |Plan(d, job, h)|);
  }

  /** A run, by what is on disk: nothing happens when catalog and record.json say that
      the hash is there; it only stages when the record cannot be read or its backup
      would meet one of the same job; else it publishes. */
  lemma AttemptIs(d: Disk, job: nat, h: nat, n: nat)
    ensures var current := d.catalog == Some(h) && d.record.Some? && d.record.value.standard && d.record.value.whole;
      var refused := d.record.Some? && (!d.record.value.whole || (!Kept(d, h) && job in d.backups));
      && (current ==> Attempt(d, job, h, n) == d)
      && (!current && refused ==>
            Attempt(d, job, h, n) == d.(stage := Some(Dir(h, true, true)), stagedCache := true))
      && (!current && !refused ==> Attempt(d, job, h, n) == Publish(d, job, h, n) && !Refused(d, job, h))
  {
  }

  // ---------------------------------------------------------------- stopping and starting again

  /** With one backup at most, recovery has one outcome. */
  lemma RecoverOne(s: Disk, job: nat, r: Disk)
    requires s.backups.Keys <= {job}
    ensures Recovers(s, r) <==> r == RecoveredFrom(s, job)
  {
    if Recovers(s, r) && s.record.None? && s.backups != map[] {
      var j :| j in s.backups && r.record == Some(s.backups[j]);
      assert j == job;
    }
    if r == RecoveredFrom(s, job) {
      if job in s.backups {
        CanRecover(s, job);
      } else {
        assert s.backups == map[];
      }
    }
  }

  lemma OnlyThisJob(d: Disk, s: Disk, job: nat, h: nat)
    requires d.backups == map[] && Placed(d, s, job, h)
    ensures s.backups.Keys <= {job}
  {
    forall j | j in s.backups
      ensures j == job
    {
      assert j != job ==> Same(j, d.backups, s.backups);
    }
  }

  /** Recovery leaves one complete record directory, the old one or the new one. */
  lemma OldOrNew(d: Disk, job: nat, h: nat, n: nat, r: Disk)
    requires Settled(d) && Recovers(Publish(d, job, h, n), r)
    ensures Settled(r) && (r.record == d.record || r.record == Some(New(h)))
  {
    hide Publish, Recovers;
    var s := Publish(d, job, h, n);
    Stops(d, job, h, n);
    if Placed(d, s, job, h) {
      OnlyThisJob(d, s, job, h);
    }
    RecoverOne(s, job, r);
  }

  /** One run: its job and hash, after how many steps it breaks off, and whether the
      process ended, so that recovery follows, or an error was reported and the
      process goes on without. */
  datatype Broken = Broken(job: nat, h: nat, steps: nat, restart: bool)

  ghost predicate BreaksOff(s: Disk, b: Broken, s': Disk) {
    var t := Attempt(s, b.job, b.h, b.steps);
    if b.restart then Recovers(t, s') else s' == t
  }

  /** Any number of runs, each broken off somewhere, and the states between them. */
  ghost predicate History(runs: seq<Broken>, states: seq<Disk>) {
    && |states| == |runs| + 1
    && forall i :: 0 <= i < |runs| ==> BreaksOff(states[i], runs[i], states[i + 1])
  }

  /** Runs on any hashes, each followed by recovery: at every moment the record is
      complete, and it is the one before or the one just published. */
  lemma {:induction false} AlwaysComplete(runs: seq<Broken>, states: seq<Disk>, i: nat)
    requires History(runs, states) && Settled(states[0]) && forall b :: b in runs ==> b.restart
    requires i < |states|
    ensures Settled(states[i])
    ensures i > 0 ==>
      states[i].record == states[i - 1].record || states[i].record == Some(New(runs[i - 1].h))
  {
    if i > 0 {
      hide Settled, Recovers, Publish;
      AlwaysComplete(runs, states, i - 1);
      var s, b := states[i - 1], runs[i - 1];
      assert BreaksOff(s, b, states[i]);
      SettledActs(s, b.job, b.h);
      if IsCurrent(s, b.h) {
        NothingToRecover(s, states[i]);
      } else {
        OldOrNew(s, b.job, b.h, b.steps, states[i]);
      }
    }
  }

  lemma SettledActs(d: Disk, job: nat, h: nat)
    requires Settled(d)
    ensures !Refused(d, job, h)
  {
  }

  lemma NothingToRecover(s: Disk, r: Disk)
    requires Settled(s) && Recovers(s, r)
    ensures Settled(r) && r.record == s.record
  {
  }

  /** Between any two runs on hash h that began with d: the record is old or new, or
      every backup is the old one; an old record that has to be replaced has no backup;
      the catalog names h only when all is at h. */
  ghost predicate Between(d: Disk, s: Disk, h: nat) {
    && (s.record == d.record || s.record == Some(New(h)) || s.record == None)
    && (s.record == None && d.record.Some? ==> s.backups != map[])
    && (Replaces(s, h) ==> s.backups == map[])
    && (s.record != Some(New(h)) ==> forall j :: j in s.backups ==> Some(s.backups[j]) == d.record)
    && (s.catalog == d.catalog || AllAt(s, h))
  }

  lemma RunStaysBetween(d: Disk, s: Disk, job: nat, h: nat, n: nat)
    requires Settled(d) && Between(d, s, h) && !IsCurrent(s, h)
    ensures !Refused(s, job, h) && Between(d, Publish(s, job, h, n), h)
  {
    hide Publish;
    Stops(s, job, h, n);
    var t := Publish(s, job, h, n);
    if MovedAside(s, t, job, h) {
      assert job in t.backups;
    }
  }

  lemma RecoveryStaysBetween(d: Disk, s: Disk, h: nat, r: Disk)
    requires Settled(d) && Between(d, s, h) && Recovers(s, r)
    ensures Between(d, r, h) && Settled(r) && (r.record == d.record || r.record == Some(New(h)))
  {
    if s.record.None? && s.backups != map[] {
      var j :| j in s.backups && r.record == Some(s.backups[j]);
    }
  }

  lemma {:induction false} StaysBetween(d: Disk, h: nat, runs: seq<Broken>, states: seq<Disk>, i: nat)
    requires Settled(d) && d.catalog != Some(h)
    requires History(runs, states) && states[0] == d && forall b :: b in runs ==> b.h == h
    requires i < |states|
    ensures Between(d, states[i], h)
  {
    if i > 0 {
      hide Publish, Between, Recovers;
      StaysBetween(d, h, runs, states, i - 1);
      var s, b := states[i - 1], runs[i - 1];
      assert BreaksOff(s, b, states[i]) && b in runs;
      if !IsCurrent(s, h) {
        RunStaysBetween(d, s, b.job, h, b.steps);
      }
      if b.restart {
        RecoveryStaysBetween(d, Attempt(s, b.job, h, b.steps), h, states[i]);
      }
    }
  }

  /** However often runs on one hash broke off, the next recovery leaves one complete
      record, old or new, and one run without a fault ends with catalog, record
      directory and tile cache at h. */
  lemma CleanRunFinishes(d: Disk, h: nat, runs: seq<Broken>, states: seq<Disk>, job: nat)
    requires Settled(d) && d.catalog != Some(h)
    requires History(runs, states) && states[0] == d && forall b :: b in runs ==> b.h == h
    ensures forall r :: Recovers(states[|runs|], r) ==>
      Settled(r) && (r.record == d.record || r.record == Some(New(h)))
    ensures AllAt(CleanRun(states[|runs|], job, h), h)
  {
    var s := states[|runs|];
    StaysBetween(d, h, runs, states, |runs|);
    forall r | Recovers(s, r)
      ensures Settled(r) && (r.record == d.record || r.record == Some(New(h)))
    {
      RecoveryStaysBetween(d, s, h, r);
    }
    if !IsCurrent(s, h) {
      RunStaysBetween(d, s, job, h, 0);
      Stops(s, job, h, |Plan(s, job, h)|);
    }
  }

  /** A damaged record stays: no run replaces it, and no recovery. */
  lemma {:induction false} DamagedStays(runs: seq<Broken>, states: seq<Disk>, i: nat)
    requires History(runs, states) && !Whole(states[0]) && i < |states|
    ensures states[i].record == states[0].record && states[i].catalog == states[0].catalog
  {
    if i > 0 {
      DamagedStays(runs, states, i - 1);
      assert BreaksOff(states[i - 1], runs[i - 1], states[i]);
    }
  }

  // ---------------------------------------------------------------- several backups

  lemma FirstStep(d: Disk, job: nat, h: nat)
    requires Whole(d) && !SameRecord(d, h)
    ensures Publish(d, job, h, 1) == Apply(Staged(d, h), if d.record.Some? then BackUp(job) else PlaceRecord)
  {
    var a := RecordPlan(d, job, h)[0];
    assert Plan(d, job, h)[0] == a;
    assert Run(Staged(d, h), Plan(d, job, h), 1) == Run(Apply(Staged(d, h), a), Plan(d, job, h)[1..], 0);
  }

  lemma NoStep(d: Disk, job: nat, h: nat)
    ensures Publish(d, job, h, 0) == Staged(d, h)
  {
  }

  /** Recovery has two different outcomes. */
  ghost predicate Ambiguous(s: Disk) {
    s.record.None? && exists i, j :: i in s.backups && j in s.backups && s.backups[i] != s.backups[j]
  }

  lemma AmbiguousMeans(s: Disk)
    ensures Ambiguous(s) <==> exists r, r' :: Recovers(s, r) && Recovers(s, r') && r.record != r'.record
  {
    if Ambiguous(s) {
      var i, j :| i in s.backups && j in s.backups && s.backups[i] != s.backups[j];
      CanRecover(s, i);
      CanRecover(s, j);
      assert RecoveredFrom(s, i).record != RecoveredFrom(s, j).record;
    }
  }

  /** The backups left over all hold the record that is there. */
  ghost predicate AllTheSame(d: Disk) {
    d.record.Some? ==> forall j :: j in d.backups ==> d.backups[j] == d.record.value
  }

  /** A run can stop where recovery has two outcomes exactly when it started there, or
      replaces a record while a different one is left over. */
  lemma AmbiguousIff(d: Disk, job: nat, h: nat)
    ensures (exists n: nat :: Ambiguous(Attempt(d, job, h, n))) <==>
      Ambiguous(d) || (Acts(d, job, h) && Replaces(d, h) && !AllTheSame(d))
  {
    hide Publish;
    NoStep(d, job, h);
    if Ambiguous(d) {
      assert Ambiguous(Attempt(d, job, h, 0));
    } else if Acts(d, job, h) && Replaces(d, h) && !AllTheSame(d) {
      FirstStep(d, job, h);
      var s := Attempt(d, job, h, 1);
      var j :| j in d.backups && d.backups[j] != d.record.value;
      assert s.backups[j] != s.backups[job];
    } else {
      forall n: nat
        ensures !Ambiguous(Attempt(d, job, h, n))
      {
        if Acts(d, job, h) {
          Stops(d, job, h, n);
        }
      }
    }
  }

  /** Every backup left over holds the record that is there, or the one of hash h. */
  ghost predicate BackupsFit(d: Disk, h: nat) {
    forall j :: j in d.backups ==> Some(d.backups[j]) == d.record || d.backups[j] == New(h)
  }

  /** Whatever recovery does after a stop of a run, the record that was there, or the
      new one, is there again: exactly when the run does not act, keeps the record in
      place, or every backup left over holds one of the two. */
  lemma LastRecordIff(d: Disk, job: nat, h: nat)
    ensures (forall n: nat, r :: Recovers(Attempt(d, job, h, n), r) ==> r.record == d.record || r.record == Some(New(h)))
      <==> !Acts(d, job, h) || SameRecord(d, h) || BackupsFit(d, h)
  {
    hide Publish, Placed;
    NoStep(d, job, h);
    if !Acts(d, job, h) || SameRecord(d, h) || BackupsFit(d, h) {
      forall n: nat, r | Recovers(Attempt(d, job, h, n), r)
        ensures r.record == d.record || r.record == Some(New(h))
      {
        var s := Attempt(d, job, h, n);
        if Acts(d, job, h) {
          Stops(d, job, h, n);
          RecordThere(d, s, job, h);
          assert MovedAside(d, s, job, h) ==> job in s.backups;
          if s.record.None? && s.backups != map[] {
            var j :| j in s.backups && r.record == Some(s.backups[j]);
          }
        }
      }
    } else {
      var j :| j in d.backups && Some(d.backups[j]) != d.record && d.backups[j] != New(h);
      var n := if d.record.Some? then 1 else 0;
      FirstStep(d, job, h);
      var s := Attempt(d, job, h, n);
      CanRecover(s, j);
      assert s.record.None? && s.backups[j] == d.backups[j];
      assert Recovers(s, RecoveredFrom(s, j));
    }
  }

  /** Whatever recovery does after a stop of a run, the record is complete: exactly
      when it was, and the run does not act, keeps it in place, or every backup left
      over is complete. */
  lemma CompleteIff(d: Disk, job: nat, h: nat)
    ensures (forall n: nat, r :: Recovers(Attempt(d, job, h, n), r) ==> Whole(r)) <==>
      Whole(d) && (!Acts(d, job, h) || SameRecord(d, h) || forall j :: j in d.backups ==> d.backups[j].whole)
  {
    hide Publish, Placed;
    NoStep(d, job, h);
    if !Whole(d) {
      var s := Attempt(d, job, h, 0);
      CanRecover(s, 0);
      assert Recovers(s, RecoveredFrom(s, 0)) && !Whole(RecoveredFrom(s, 0));
    } else if !Acts(d, job, h) || SameRecord(d, h) || forall j :: j in d.backups ==> d.backups[j].whole {
      forall n: nat, r | Recovers(Attempt(d, job, h, n), r)
        ensures Whole(r)
      {
        if Acts(d, job, h) {
          Stops(d, job, h, n);
          RecordThere(d, Attempt(d, job, h, n), job, h);
        }
      }
    } else {
      var j :| j in d.backups && !d.backups[j].whole;
      var n := if d.record.Some? then 1 else 0;
      FirstStep(d, job, h);
      var s := Attempt(d, job, h, n);
      CanRecover(s, j);
      assert s.record.None? && s.backups[j] == d.backups[j];
      assert Recovers(s, RecoveredFrom(s, j)) && !Whole(RecoveredFrom(s, j));
    }
  }

  /** A published record. */
  function Fresh(a: nat): Disk {
    Disk(Some(New(a)), map[], None, false, map[], Some(a))
  }

  /** Runs on b and c that break off without recovery: the record of b was there last,
      and recovery may bring back the one of a instead. */
  lemma TwoBackups(a: nat, b: nat, c: nat)
    requires a != b && b != c && a != c
    ensures var s1 := Attempt(Fresh(a), 1, b, 1); var s2 := Attempt(s1, 2, b, 1); var s := Attempt(s2, 3, c, 1);
      && s2.record == Some(New(b)) && s.record == None && s.backups == map[1 := New(a), 3 := New(b)]
      && Recovers(s, RecoveredFrom(s, 1)) && RecoveredFrom(s, 1).record == Some(New(a))
      && Recovers(s, RecoveredFrom(s, 3)) && RecoveredFrom(s, 3).record == Some(New(b))
  {
    hide Publish;
    FirstStep(Fresh(a), 1, b);
    var s1 := Attempt(Fresh(a), 1, b, 1);
    FirstStep(s1, 2, b);
    var s2 := Attempt(s1, 2, b, 1);
    FirstStep(s2, 3, c);
    var s := Attempt(s2, 3, c, 1);
    CanRecover(s, 1);
    CanRecover(s, 3);
  }

  /** An error while the backup is removed after the commit leaves it damaged; if a run
      on another hash then breaks off, recovery may publish the damaged directory. */
  lemma DamagedBackup(a: nat, b: nat, c: nat)
    requires a != b && b != c && a != c
    ensures var s1 := Attempt(Fresh(a), 1, b, 5); var s := Attempt(s1, 3, c, 1);
      && s1.catalog == Some(b) && s1.record == Some(New(b))
      && s.record == None && s.backups == map[1 := Damaged(New(a)), 3 := New(b)]
      && Recovers(s, RecoveredFrom(s, 1)) && RecoveredFrom(s, 1).record == Some(Damaged(New(a)))
      && Recovers(s, RecoveredFrom(s, 3)) && RecoveredFrom(s, 3).record == Some(New(b))
  {
    hide Publish;
    UntilDamaged(a, b);
    var s1 := Attempt(Fresh(a), 1, b, 5);
    FirstStep(s1, 3, c);
    var s := Attempt(s1, 3, c, 1);
    CanRecover(s, 1);
    CanRecover(s, 3);
  }

  lemma UntilDamaged(a: nat, b: nat)
    requires a != b
    ensures Publish(Fresh(a), 1, b, 5) ==
      Disk(Some(New(b)), map[1 := Damaged(New(a))], None, false, map[b := true], Some(b))
  {
    hide Publish;
    PublishTable(Fresh(a), 1, b, 5);
  }

  // ---------------------------------------------------------------- when the next run repairs

  /** If the catalog already names h, some stop makes the next run skip a record
      whose cache is missing or damaged. */
  lemma CatalogNamesHash(d: Disk, job: nat, h: nat, next: nat) returns (n: nat, r: Disk)
    requires Settled(d) && d.catalog == Some(h) && !IsCurrent(d, h)
    ensures Recovers(Attempt(d, job, h, n), r) && !AllAt(CleanRun(r, next, h), h)
  {
    hide Publish;
    n := EndsOf(d, h).record + if h in d.caches then 1 else 0;
    PublishTable(d, job, h, n);
    r := RecoveredFrom(Publish(d, job, h, n), job);
    RecoverOne(Publish(d, job, h, n), job, r);
  }

  /** A stopped run followed by recovery and a clean run under another job always ends
      with all at h exactly when the catalog did not name h before. */
  lemma StopIsHarmless(d: Disk, job: nat, h: nat, next: nat)
    requires Settled(d) && !IsCurrent(d, h)
    ensures (forall n: nat, r :: Recovers(Attempt(d, job, h, n), r) ==> AllAt(CleanRun(r, next, h), h))
      <==> d.catalog != Some(h)
  {
    hide Attempt, Recovers, CleanRun;
    if d.catalog == Some(h) {
      var n, r := CatalogNamesHash(d, job, h, next);
    } else {
      forall n: nat, r | Recovers(Attempt(d, job, h, n), r)
        ensures AllAt(CleanRun(r, next, h), h)
      {
        var b := Broken(job, h, n, true);
        assert BreaksOff(d, b, r);
        CleanRunFinishes(d, h, [b], [d, r], next);
      }
    }
  }

  // ---------------------------------------------------------------- a failed transaction

  /** Catalog and record directory name the same hash, or are both absent. */
  predicate Agree(d: Disk) {
    match (d.catalog, d.record)
    case (None, None) => true
    case (Some(c), Some(r)) => c == r.hash
    case _ => false
  }

  /** The backups once the record has been replaced. */
  function WithBackup(d: Disk, job: nat, h: nat): map<nat, Dir> {
    if Replaces(d, h) then d.backups[job := d.record.value] else d.backups
  }

  /** The disk after n steps of the handler, without naming the steps. */
  function Undone(s: Disk, job: nat, h: nat, replaced: bool, n: nat): Disk
    requires s.record.Some? && (replaced ==> job in s.backups)
  {
    if n == 0 then s
    else if n == 1 then s.(caches := s.caches[h := false])
    else
      var t := s.(caches := s.caches - {h});
      if n == 2 then t
      else if n == 3 then t.(record := Some(Damaged(s.record.value)))
      else if n == 4 || !replaced then t.(record := None)
      else t.(record := Some(s.backups[job]), backups := s.backups - {job})
  }

  lemma UndoRecord(s: Disk, rest: seq<Action>, job: nat, n: nat)
    requires s.record.Some? && (rest == [] || (rest == [Restore(job)] && job in s.backups))
    ensures Run(s, [DamageRecord, DropRecord] + rest, n) ==
      if n == 0 then s
      else if n == 1 then s.(record := Some(Damaged(s.record.value)))
      else if n == 2 || rest == [] then s.(record := None)
      else s.(record := Some(s.backups[job]), backups := s.backups - {job})
  {
    RunSplit(s, [DamageRecord, DropRecord], rest, n);
    RunTwo(s, DamageRecord, DropRecord, n);
    RunTwo(s, DamageRecord, DropRecord, 2);
    if n > 2 && rest != [] {
      RunOne(s.(record := None), Restore(job), n - 2);
    }
  }

  lemma UndoSteps(s: Disk, d: Disk, job: nat, h: nat, n: nat)
    requires s.record.Some? && (Replaces(d, h) ==> job in s.backups)
    ensures Run(s, UndoPlan(d, job, h), n) == Undone(s, job, h, Replaces(d, h), n)
    ensures |UndoPlan(d, job, h)| == if Replaces(d, h) then 5 else 4
  {
    var rest := if Replaces(d, h) then [Restore(job)] else [];
    var caches := [DamageCache(h), DropCache(h)];
    RunSplit(s, caches, [DamageRecord, DropRecord] + rest, n);
    RunTwo(s, DamageCache(h), DropCache(h), n);
    RunTwo(s, DamageCache(h), DropCache(h), 2);
    assert s.caches[h := false] - {h} == s.caches - {h};
    if n > 2 {
      UndoRecord(s.(caches := s.caches - {h}), rest, job, n - 2);
    }
  }

  /** Where the handler of a failed transaction can stand, whenever it stops. */
  lemma HandlerSteps(d: Disk, job: nat, h: nat, n: nat)
    requires !Refused(d, job, h)
    ensures var s := FailedPublish(d, job, h, n); var replaced := d.record.Some? && !Kept(d, h);
      && |UndoPlan(d, job, h)| == (if replaced then 5 else 4)
      && s.catalog == d.catalog && s.stage == None && !s.stagedCache
      && s.caches == (if n == 0 then d.caches[h := true] else if n == 1 then d.caches[h := false] else d.caches - {h})
      && s.record == (if n < 3 then Some(Dir(h, true, true))
                      else if n == 3 then Some(Dir(h, true, false))
                      else if n == 4 || !replaced then None else d.record)
      && s.backups == (if replaced && n < 5 then d.backups[job := d.record.value] else d.backups)
  {
    hide FilePlan, Run, Apply, UndoPlan;
    FilesTable(d, job, h);
    var files := Run(Staged(d, h), FilePlan(d, job, h), |FilePlan(d, job, h)|);
    UndoSteps(files, d, job, h, n);
    assert d.caches[h := true][h := false] == d.caches[h := false];
    assert d.caches[h := true] - {h} == d.caches - {h};
    if Replaces(d, h) {
      assert d.backups[job := d.record.value] - {job} == d.backups;
    }
  }

  /** All steps before the transaction. */
  lemma FilesTable(d: Disk, job: nat, h: nat)
    requires !Refused(d, job, h)
    ensures var f := Run(Staged(d, h), FilePlan(d, job, h), |FilePlan(d, job, h)|);
      f == Disk(Some(Dir(h, true, true)), WithBackup(d, job, h), None, false, d.caches[h := true], d.catalog)
  {
    hide Run, Apply, RecordPlan, CachePlan, Staged;
    var p, q := RecordPlan(d, job, h), CachePlan(d, h);
    RunSplit(Staged(d, h), p, q, |p + q|);
    RecordTable(d, job, h, |p|);
    var placed := Run(Staged(d, h), p, |p|);
    SameCachePlan(d, placed, h);
    CacheTable(placed, h, |q|);
  }

  /** A failed transaction leaves catalog and backups as they were, the record exactly
      when the publish was not one of the record already there, and the caches exactly
      when there was none for this hash. */
  lemma FailedTransaction(d: Disk, job: nat, h: nat)
    requires !Refused(d, job, h)
    ensures var s := RolledBackPublish(d, job, h);
      && (s.record == d.record <==> !SameRecord(d, h))
      && s.catalog == d.catalog && s.backups == d.backups
      && s.caches == d.caches - {h} && (s.caches == d.caches <==> h !in d.caches)
  {
    HandlerSteps(d, job, h, |UndoPlan(d, job, h)|);
    OthersStay(d.caches, d.caches, h);
  }

  /** If the handler stops after n steps, every recovery leaves a complete record, the
      old or the new one, exactly when the stop is before the record is touched, or
      behind the return of the backup, or in between with the record gone, if every
      backup left over fits and there is one. */
  lemma HandlerStopIff(d: Disk, job: nat, h: nat, n: nat)
    requires !Refused(d, job, h)
    ensures (forall r :: Recovers(FailedPublish(d, job, h, n), r) ==>
               Settled(r) && (r.record == d.record || r.record == Some(New(h))))
      <==>
      || n < 3
      || (n > 4 && Replaces(d, h))
      || (n > 3 && BackupsFit(d, h) && (SameRecord(d, h) ==> d.backups != map[]))
  {
    hide FailedPublish;
    var s := FailedPublish(d, job, h, n);
    HandlerSteps(d, job, h, n);
    assert Replaces(d, h) ==> job in WithBackup(d, job, h);
    if s.record.Some? || s.backups == map[] {
      CanRecover(s, 0);
      assert Recovers(s, RecoveredFrom(s, 0));
      assert forall r :: Recovers(s, r) ==> r.record == s.record && r.backups == map[];
    } else {
      GoneRecord(d, job, h, s);
    }
  }

  /** With the record gone, recovery has as many outcomes as there are backups. */
  lemma GoneRecord(d: Disk, job: nat, h: nat, s: Disk)
    requires !Refused(d, job, h) && s.record.None? && s.backups == WithBackup(d, job, h) && s.backups != map[]
    ensures (forall r :: Recovers(s, r) ==> Settled(r) && (r.record == d.record || r.record == Some(New(h))))
      <==> BackupsFit(d, h)
  {
    if BackupsFit(d, h) {
      forall r | Recovers(s, r)
        ensures Settled(r) && (r.record == d.record || r.record == Some(New(h)))
      {
        var j :| j in s.backups && r.record == Some(s.backups[j]);
      }
    } else {
      var j :| j in d.backups && Some(d.backups[j]) != d.record && d.backups[j] != New(h);
      assert j in s.backups && s.backups[j] == d.backups[j];
      CanRecover(s, j);
      assert Recovers(s, RecoveredFrom(s, j));
    }
  }

  lemma OthersStay(a: map<nat, bool>, b: map<nat, bool>, h: nat)
    requires forall x :: x != h ==> Same(x, a, b)
    ensures b - {h} == a - {h} && (a - {h} == a <==> h !in a)
  {
    forall x
      ensures x in b - {h} <==> x in a - {h}
      ensures x in b - {h} && x in a - {h} ==> (b - {h})[x] == (a - {h})[x]
    {
      assert x != h ==> Same(x, a, b);
    }
    if h in a {
      assert h !in a - {h};
    }
  }

  /** From an agreeing state the skip test rules that case out. */
  lemma AgreeingIsSafe(d: Disk, job: nat, h: nat)
    requires Acts(d, job, h) && Agree(d)
    ensures var s := RolledBackPublish(d, job, h);
      s.record == d.record && s.catalog == d.catalog && s.backups == d.backups
  {
    FailedTransaction(d, job, h);
  }

  lemma SameRecordLost(d: Disk, job: nat, h: nat)
    requires Whole(d) && SameRecord(d, h)
    ensures RolledBackPublish(d, job, h).record == None
  {
    HandlerSteps(d, job, h, |UndoPlan(d, job, h)|);
  }

  /** A stop after the new directory is in place. */
  lemma StopAfterPlacing(a: nat, h: nat, job: nat) returns (r: Disk)
    requires a != h
    ensures Recovers(Attempt(Fresh(a), job, h, 2), r)
    ensures Settled(r) && r.record == Some(New(h)) && r.catalog == Some(a)
  {
    hide Publish;
    PublishTable(Fresh(a), job, h, 2);
    var s := Attempt(Fresh(a), job, h, 2);
    r := RecoveredFrom(s, job);
    RecoverOne(s, job, r);
  }

  /** It leaves a disagreeing state behind, from which a failed transaction deletes
      the record that the catalog still lists under its old hash. */
  lemma StopThenFailedTransaction(a: nat, h: nat, job: nat, next: nat) returns (r: Disk)
    requires a != h
    ensures Settled(Fresh(a)) && Agree(Fresh(a)) && Recovers(Attempt(Fresh(a), job, h, 2), r) && !IsCurrent(r, h)
    ensures RolledBackPublish(r, next, h).record == None && RolledBackPublish(r, next, h).catalog == Some(a)
  {
    r := StopAfterPlacing(a, h, job);
    FailedTransaction(r, next, h);
    SameRecordLost(r, next, h);
  }

  /** A run without a fault ends with all at h exactly when it publishes, or it is
      skipped and directory and cache are at h already: the skip test looks at neither. */
  lemma SkipIff(d: Disk, job: nat, h: nat)
    ensures AllAt(CleanRun(d, job, h), h) <==>
      if IsCurrent(d, h) then d.record.value.hash == h && CacheWhole(d, h) else !Refused(d, job, h)
  {
    if Acts(d, job, h) {
      Stops(d, job, h, |Plan(d, job, h)|);
    }
  }

  /** Such a state is within reach: after a stop on h, going back to the old source
      is skipped although the directory holds h. */
  lemma RevertedSourceIsSkipped(a: nat, h: nat, job: nat, next: nat) returns (r: Disk)
    requires a != h
    ensures Recovers(Attempt(Fresh(a), job, h, 2), r)
    ensures CleanRun(r, next, a) == r && r.record == Some(New(h)) && r.catalog == Some(a)
  {
    r := StopAfterPlacing(a, h, job);
  }

  // ---------------------------------------------------------------- the service

  /** The last three are errors before the first step. */
  datatype Outcome = Published | Stopped | RolledBack | Incomplete | Unreadable | Occupied

  /** The files and the catalog row of one inspection, changed in place. */
  class Store {
    var record: Option<Dir>
    var backups: map<nat, Dir>
    var stage: Option<Dir>
    var stagedCache: bool
    var caches: map<nat, bool>
    var catalog: Option<nat>

    function View(): Disk
      reads this
    {
      Disk(record, backups, stage, stagedCache, caches, catalog)
    }

    constructor (d: Disk)
      ensures View() == d
    {
      record, backups, stage := d.record, d.backups, d.stage;
      stagedCache, caches, catalog := d.stagedCache, d.caches, d.catalog;
    }

    /** Start-up recovery over every backup that earlier jobs left, in any order.  The
        process stops after `left` steps. */
    method RecoverReplacedRecords(left: nat) returns (stopped: bool)
      modifies this
      ensures Recovering(old(View()), View())
      ensures !stopped ==> Recovers(old(View()), View())
      ensures left >= 2 * |old(backups)| ==> !stopped
    {
      var left' := left;
      while backups.Keys != {}
        invariant Recovering(old(View()), View())
        invariant left' + 2 * |old(backups)| >= left + 2 * |backups|
        decreases |backups.Keys|
      {
        ghost var any := Picking.Any(backups.Keys);
        var job :| job in backups.Keys;
        Fewer(backups, job);
        if left' < 1 { return true; }
        if record.Some? {
          backups := backups[job := Damaged(backups[job])];
          if left' < 2 { return true; }
          backups := backups - {job};
          left' := left' - 2;
        } else {
          record, backups := Some(backups[job]), backups - {job};
          left' := left' - 1;
        }
      }
      stopped := false;
    }

    /** Moving the staged directory into place, or dropping it when the record is
        already there. */
    method PlaceRecordFiles(job: nat, h: nat, left: nat) returns (left': nat, replaced: bool, stopped: bool)
      modifies this
      ensures View() == old(Run(View(), RecordPlan(View(), job, h), left))
      ensures replaced == old(Replaces(View(), h))
      ensures var size := |old(RecordPlan(View(), job, h))|;
        stopped == (left < size) && (!stopped ==> left' == left - size)
    {
      left', stopped := left, false;
      replaced := record.Some? && !(record.value.hash == h && record.value.standard);
      if record.Some? && !replaced {
        RunTwo(View(), DamageStage, DropStage, left);
        if left < 1 { return left, replaced, true; }
        if stage.Some? { stage := Some(Damaged(stage.value)); }
        if left < 2 { return left, replaced, true; }
        stage := None;
        left' := left - 2;
      } else if replaced {
        RunTwo(View(), BackUp(job), PlaceRecord, left);
        if left < 1 { return left, replaced, true; }
        record, backups := None, backups[job := record.value];
        if left < 2 { return left, replaced, true; }
        record, stage := stage, None;
        left' := left - 2;
      } else {
        RunOne(View(), PlaceRecord, left);
        if left < 1 { return left, replaced, true; }
        record, stage := stage, None;
        left' := left - 1;
      }
    }

    /** Replacing the tile cache of this hash. */
    method PlaceCacheFiles(h: nat, left: nat) returns (left': nat, stopped: bool)
      modifies this
      ensures View() == old(Run(View(), CachePlan(View(), h), left))
      ensures var size := |old(CachePlan(View(), h))|;
        stopped == (left < size) && (!stopped ==> left' == left - size)
    {
      left', stopped := left, false;
      ghost var d := View();
      RunSplit(d, if h in caches then [DamageCache(h), DropCache(h)] else [], [PlaceCache(h)], left);
      if h in caches {
        RunTwo(d, DamageCache(h), DropCache(h), left);
        RunTwo(d, DamageCache(h), DropCache(h), 2);
        if left < 1 { return left, true; }
        caches := caches[h := false];
        if left < 2 { return left, true; }
        caches := caches - {h};
        left' := left - 2;
      }
      RunOne(View(), PlaceCache(h), left');
      if left' < 1 { return left', true; }
      caches, stagedCache := caches[h := true], false;
      left' := left' - 1;
    }

    /** Dropping the backup and the caches of other hashes after the commit. */
    method CleanUp(job: nat, h: nat, replaced: bool, left: nat, ghost d: Disk) returns (stopped: bool)
      requires replaced == Replaces(d, h) && (replaced ==> job in backups)
      modifies this
      ensures View() == old(Run(View(), CleanPlan(d, job, h), left))
      ensures stopped == (left < |CleanPlan(d, job, h)|)
    {
      var left' := left;
      ghost var s := View();
      RunSplit(s, if replaced then [DamageBackup(job), DropBackup(job)] else [], [DropOtherCaches(h)], left);
      if replaced {
        RunTwo(s, DamageBackup(job), DropBackup(job), left);
        RunTwo(s, DamageBackup(job), DropBackup(job), 2);
        if left < 1 { return true; }
        backups := backups[job := Damaged(backups[job])];
        if left < 2 { return true; }
        backups := backups - {job};
        left' := left - 2;
      }
      RunOne(View(), DropOtherCaches(h), left');
      if left' < 1 { return true; }
      caches := map x | x in caches && x == h :: caches[x];
      stopped := false;
    }

    /** The handler of a failed transaction: cache and record go, the backup returns. */
    method Undo(job: nat, h: nat, replaced: bool, left: nat, ghost d: Disk) returns (stopped: bool)
      requires replaced == Replaces(d, h) && (replaced ==> job in backups) && record.Some?
      modifies this
      ensures View() == old(Run(View(), UndoPlan(d, job, h), left))
      ensures stopped == (left < |UndoPlan(d, job, h)|)
    {
      hide Run, Apply;
      UndoSteps(View(), d, job, h, left);
      if left < 1 { return true; }
      caches := caches[h := false];
      if left < 2 { return true; }
      caches := caches - {h};
      if left < 3 { return true; }
      record := Some(Damaged(record.value));
      if left < 4 { return true; }
      record := None;
      if replaced {
        if left < 5 { return true; }
        record, backups := Some(backups[job]), backups - {job};
      }
      stopped := false;
    }

    /** The steps of a publish that is not refused. */
    method PublishSteps(job: nat, h: nat, left: nat, commitFails: bool) returns (outcome: Outcome)
      requires stage == Some(New(h)) && !Refused(View(), job, h)
      modifies this
      ensures !commitFails ==>
        && View() == old(Run(View(), Plan(View(), job, h), left))
        && outcome == (if left < |old(Plan(View(), job, h))| then Stopped else Published)
      ensures commitFails ==>
        && View() == old(Run(View(), FilePlan(View(), job, h) + UndoPlan(View(), job, h), left))
        && outcome == (if left < |old(FilePlan(View(), job, h) + UndoPlan(View(), job, h))| then Stopped else RolledBack)
    {
      hide Run, Apply;
      ghost var d := View();
      ghost var p, q := RecordPlan(d, job, h), CachePlan(d, h);
      ghost var r := [Commit(h)] + CleanPlan(d, job, h);
      RunSplit(d, p + q, r, left);
      RunSplit(d, p + q, UndoPlan(d, job, h), left);
      RunSplit(d, p, q, left);
      RunSplit(d, p, q, |p + q|);
      var left', replaced, stopped := PlaceRecordFiles(job, h, left);
      if stopped {
        return Stopped;
      }
      ghost var placed := View();
      RecordPlanDone(d, job, h, left);
      RunNone(placed, q);
      left', stopped := PlaceCacheFiles(h, left');
      if stopped {
        return Stopped;
      }
      CachePlanDone(placed, h, left - |p|);
      ghost var files := View();
      if commitFails {
        RunNone(files, UndoPlan(d, job, h));
        stopped := Undo(job, h, replaced, left', d);
        return if stopped then Stopped else RolledBack;
      }
      RunSplit(files, [Commit(h)], CleanPlan(d, job, h), left');
      RunOne(files, Commit(h), left');
      RunOne(files, Commit(h), 1);
      if left' < 1 {
        return Stopped;
      }
      catalog := Some(h);
      CommitIs(files, View(), h);
      RunNone(View(), CleanPlan(d, job, h));
      stopped := CleanUp(job, h, replaced, left' - 1, d);
      outcome := if stopped then Stopped else Published;
    }

    /** Publishing a staged record.  The process stops after `left` steps;
        `commitFails` says that the catalog transaction raises. */
    method PublishRecord(job: nat, h: nat, left: nat, commitFails: bool) returns (outcome: Outcome)
      requires stage == Some(New(h))
      modifies this
      ensures outcome == Incomplete <==> !old(stagedCache)
      ensures outcome == Unreadable <==> old(stagedCache) && !old(Whole(View()))
      ensures outcome == Occupied <==> old(stagedCache) && old(Whole(View())) && old(Refused(View(), job, h))
      ensures !old(stagedCache) || old(Refused(View(), job, h)) ==> View() == old(View())
      ensures old(stagedCache) && !old(Refused(View(), job, h)) && !commitFails ==>
        && View() == old(Run(View(), Plan(View(), job, h), left))
        && outcome == (if left < |old(Plan(View(), job, h))| then Stopped else Published)
      ensures old(stagedCache) && !old(Refused(View(), job, h)) && commitFails ==>
        && View() == old(Run(View(), FilePlan(View(), job, h) + UndoPlan(View(), job, h), left))
        && outcome == (if left < |old(FilePlan(View(), job, h) + UndoPlan(View(), job, h))| then Stopped else RolledBack)
    {
      hide Run, Apply, Plan, FilePlan, UndoPlan;
      if !stagedCache {
        return Incomplete;
      }
      if record.Some? && !record.value.whole {
        return Unreadable;
      }
      if record.Some? && !(record.value.hash == h && record.value.standard) && job in backups {
        return Occupied;
      }
      outcome := PublishSteps(job, h, left, commitFails);
    }

    /** One run: the skip test, the staging, and the publish. */
    method ImportRecord(job: nat, h: nat, left: nat, commitFails: bool) returns (skipped: bool)
      modifies this
      ensures skipped == old(IsCurrent(View(), h))
      ensures !commitFails || !old(Acts(View(), job, h)) ==> View() == old(Attempt(View(), job, h, left))
      ensures commitFails && old(Acts(View(), job, h)) ==>
        var files := |old(FilePlan(View(), job, h))|;
        if left < files then View() == old(Attempt(View(), job, h, left))
        else View() == old(FailedPublish(View(), job, h, left - files))
    {
      hide Run, Apply;
      skipped := catalog == Some(h) && record.Some? && record.value.standard && record.value.whole;
      if skipped {
        return;
      }
      ghost var d := View();
      stage, stagedCache := Some(New(h)), true;
      SamePlans(d, job, h);
      RunSplit(View(), FilePlan(d, job, h), UndoPlan(d, job, h), left);
      RunSplit(View(), FilePlan(d, job, h), [Commit(h)] + CleanPlan(d, job, h), left);
      RunNone(Run(View(), FilePlan(d, job, h), |FilePlan(d, job, h)|), UndoPlan(d, job, h));
      var outcome := PublishRecord(job, h, left, commitFails);
    }
  }

  lemma Fewer(backups: map<nat, Dir>, job: nat)
    requires job in backups
    ensures |backups - {job}| == |backups| - 1
  {
    assert (backups - {job}).Keys == backups.Keys - {job};
    assert |backups.Keys| == |backups| && |(backups - {job}).Keys| == |backups - {job}|;
  }

  /** Staging changes no plan. */
  lemma SamePlans(d: Disk, job: nat, h: nat)
    ensures FilePlan(Staged(d, h), job, h) == FilePlan(d, job, h)
    ensures Plan(Staged(d, h), job, h) == Plan(d, job, h)
    ensures UndoPlan(Staged(d, h), job, h) == UndoPlan(d, job, h)
    ensures Refused(Staged(d, h), job, h) <==> Refused(d, job, h)
  {
  }

  lemma RunNone(d: Disk, plan: seq<Action>)
    ensures Run(d, plan, 0) == d
  {
  }

  lemma CommitIs(s: Disk, t: Disk, h: nat)
    requires t == s.(catalog := Some(h))
    ensures t == Apply(s, Commit(h))
  {
  }

  /** All steps of the record plan: the caches are still those of the start. */
  lemma RecordPlanDone(d: Disk, job: nat, h: nat, n: nat)
    requires d.record.Some? ==> d.record.value.whole
    requires d.stage == Some(New(h)) && n >= |RecordPlan(d, job, h)|
    ensures var p := RecordPlan(d, job, h); var s := Run(d, p, n);
      s == Run(d, p, |p|) && s.caches == d.caches && s.record.Some? && (Replaces(d, h) ==> job in s.backups)
  {
    if SameRecord(d, h) {
      RunTwo(d, DamageStage, DropStage, n);
      RunTwo(d, DamageStage, DropStage, 2);
    } else if d.record.Some? {
      RunTwo(d, BackUp(job), PlaceRecord, n);
      RunTwo(d, BackUp(job), PlaceRecord, 2);
    } else {
      RunOne(d, PlaceRecord, n);
      RunOne(d, PlaceRecord, 1);
    }
  }

  lemma CachePlanDone(s: Disk, h: nat, n: nat)
    requires n >= |CachePlan(s, h)|
    ensures var q := CachePlan(s, h); var t := Run(s, q, n);
      t == Run(s, q, |q|) && t.backups == s.backups && t.record == s.record
  {
    CacheTable(s, h, n);
    CacheTable(s, h, |CachePlan(s, h)|);
  }
}
