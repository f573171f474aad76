/** The manifest of a staged batch and its verification.

    The stager writes down what it found while copying; the verifier derives the
    same from the copies: the source inventory, the pointer to the normalized
    tables, the tables themselves and the artifact files.  A fresh batch passes. */
module StagedBatch {
  import opened Options
  import opened CameraInventory

  // ---------------------------------------------------------------- data

  datatype Label = Flat | Deep

  datatype Extension = Jpg | D3img | Dat

  /** What the name of an archive member says. */
  datatype Meta = Meta(camera: nat, seqNo: nat, flatness: Label, extension: Extension)

  /** A value of the inventory document. */
  datatype Json = Str(s: string) | List(items: seq<Json>) | Other(id: nat)

  /** The checksums of a member, in upper case and empty if there is none, and all else
      that its two metadata documents say. */
  datatype Details = Details(crc: string, volumeCrcs: map<string, string>, rest: nat)

  /** The archive fields of an entry; `parts` may be missing. */
  datatype Archive = Archive(part: Json, parts: Option<Json>, details: Details)

  /** An image entry of the source inventory. */
  datatype Image = Image(member: string, meta: Meta, archive: Archive)

  datatype Depth = Decoded | Unsupported | InvalidDepth

  /** An artifact of the manifest. */
  datatype Evidence = Evidence(
    member: string, meta: Meta, part: string, parts: Json, details: Details, path: string, depth: Option<Depth>)

  datatype Counts = Counts(accepted: nat, rejected: nat, unknown: nat)

  /** The pointer to the normalized tables: lines per file, and the evidence of the
      filter run. */
  datatype Pointer = Pointer(
    files: map<string, nat>, counts: map<string, Counts>,
    integrity: string, diameterComplete: bool, parseRejected: nat)

  /** What a batch is staged from; `statuses` are those of the database members. */
  datatype Source = Source(images: seq<Image>, statuses: seq<string>, pointer: Pointer)

  datatype Status = Ready | Partial

  datatype Integrity = Integrity(
    statuses: seq<string>, membersVerified: bool, generationVerified: bool, crcFailed: bool,
    normalization: string, diameterComplete: bool, parseRejected: nat)

  datatype Manifest = Manifest(
    status: Status, importEligible: bool, reviewRequired: bool, contentId: nat,
    inventory: Inventory, present: seq<nat>, coverage: Coverage, coverageComplete: bool,
    integrity: Integrity,
    acceptedArtifacts: nat, acceptedRows: nat, rejectedRows: nat, rowsByTable: map<string, nat>,
    normalized: seq<(string, nat)>, artifacts: seq<Evidence>)

  /** What lies in the batch directory: lines per table, and the artifact paths. */
  datatype Files = Files(tables: map<string, nat>, artifacts: set<string>)

  /** The outside world: the reading of member names, the probe of a depth file, the
      key under which paths collide, and the digest of a batch. */
  datatype Outside = Outside(
    read: string -> Option<Meta>, probe: string -> Depth, fold: string -> string,
    digest: (Pointer, seq<Evidence>) -> nat)

  const TABLES: seq<string> := ["allexcel", "checkrecord", "defect", "defectclass", "diameter"]

  // ---------------------------------------------------------------- which archive an image comes from

  const ARCHIVE_PARTS := {"image-part1", "image-part2"}

  predicate AllStr(items: seq<Json>) {
    forall i :: 0 <= i < |items| ==> items[i].Str?
  }

  function Strings(items: seq<Json>): (names: seq<string>)
    requires AllStr(items)
    ensures |names| == |items| && forall i :: 0 <= i < |items| ==> items[i] == Str(names[i])
  {
    seq(|items|, i requires 0 <= i < |items| => items[i].s)
  }

  /** The parts named by the entry: a non-empty list of names, or else the single one. */
  function NamedParts(a: Archive): seq<string> {
    if a.parts.Some? && a.parts.value.List? && a.parts.value.items != [] && AllStr(a.parts.value.items) then
      Strings(a.parts.value.items)
    else if a.part.Str? then [a.part.s]
    else []
  }

  predicate Holds(d: Details, part: string) {
    part in d.volumeCrcs && d.volumeCrcs[part] == d.crc
  }

  /** The parts whose own checksum is that of the member. */
  function Matches(d: Details, parts: seq<string>): seq<string> {
    if parts == [] then []
    else
      var last := |parts| - 1;
      Matches(d, parts[..last]) + if Holds(d, parts[last]) then [parts[last]] else []
  }

  function Select(a: Archive): Option<string> {
    var parts := NamedParts(a);
    if parts == [] || exists i :: 0 <= i < |parts| && parts[i] !in ARCHIVE_PARTS then None
    else if a.details.crc != "" && Matches(a.details, parts) != [] then Some(Matches(a.details, parts)[0])
    else if a.details.crc != "" && |parts| > 1 then None
    else Some(parts[|parts| - 1])
  }

  method SelectArchivePart(a: Archive) returns (r: Option<string>)
    ensures r == Select(a)
    ensures r.Some? ==> r.value in NamedParts(a) && r.value in ARCHIVE_PARTS
    ensures r.Some? && a.details.crc != "" && |NamedParts(a)| > 1 ==> Holds(a.details, r.value)
  {
    var parts := NamedParts(a);
    if parts == [] {
      return None;
    }
    for i := 0 to |parts|
      invariant forall k :: 0 <= k < i ==> parts[k] in ARCHIVE_PARTS
    {
      if parts[i] !in ARCHIVE_PARTS {
        return None;
      }
    }
    if a.details.crc != "" {
      var matches := [];
      for i := 0 to |parts|
        invariant matches == Matches(a.details, parts[..i])
        invariant forall m :: m in matches ==> m in parts && Holds(a.details, m)
      {
        assert parts[..i + 1][..i] == parts[..i];
        if Holds(a.details, parts[i]) {
          matches := matches + [parts[i]];
        }
      }
      assert parts[..|parts|] == parts;
      if matches != [] {
        assert matches[0] in matches;
        return Some(matches[0]);
      }
      if |parts| > 1 {
        return None;
      }
    }
    r := Some(parts[|parts| - 1]);
  }

  lemma {:induction false} FirstMatch(d: Details, parts: seq<string>)
    ensures Matches(d, parts) == [] <==> forall i :: 0 <= i < |parts| ==> !Holds(d, parts[i])
    ensures Matches(d, parts) != [] ==> exists i ::
      0 <= i < |parts| && Matches(d, parts)[0] == parts[i] && Holds(d, parts[i]) && forall j :: 0 <= j < i ==> !Holds(d, parts[j])
  {
    if parts != [] {
      var last := |parts| - 1;
      FirstMatch(d, parts[..last]);
      if Matches(d, parts[..last]) != [] {
        var i :| 0 <= i < last && Matches(d, parts[..last])[0] == parts[..last][i] && Holds(d, parts[..last][i])
          && forall j :: 0 <= j < i ==> !Holds(d, parts[..last][j]);
        assert Matches(d, parts)[0] == parts[i] && Holds(d, parts[i]);
        assert forall j :: 0 <= j < i ==> parts[..last][j] == parts[j];
      } else {
        assert forall j :: 0 <= j < last ==> parts[..last][j] == parts[j];
      }
    }
  }

  /** The part of index i has the checksum of the member, and none before it has. */
  ghost predicate FirstWithChecksum(d: Details, parts: seq<string>, i: int) {
    && 0 <= i < |parts| && parts[i] in d.volumeCrcs && d.volumeCrcs[parts[i]] == d.crc
    && forall j :: 0 <= j < i ==> parts[j] !in d.volumeCrcs || d.volumeCrcs[parts[j]] != d.crc
  }

  /** Which part is taken: without a checksum the last one named; with one the first that
      has it, or the only one; and none in all other cases. */
  lemma SelectIs(a: Archive)
    ensures var parts := NamedParts(a); var known := parts != [] && forall i :: 0 <= i < |parts| ==> parts[i] in ["image-part1", "image-part2"];
      && (!known ==> Select(a) == None)
      && (known && a.details.crc == "" ==> Select(a) == Some(parts[|parts| - 1]))
      && (known && a.details.crc != "" ==>
            if exists i :: FirstWithChecksum(a.details, parts, i) then
              exists i :: FirstWithChecksum(a.details, parts, i) && Select(a) == Some(parts[i])
            else Select(a) == if |parts| == 1 then Some(parts[0]) else None)
  {
    var parts := NamedParts(a);
    FirstMatch(a.details, parts);
    if Matches(a.details, parts) != [] {
      var i :| 0 <= i < |parts| && Matches(a.details, parts)[0] == parts[i] && Holds(a.details, parts[i])
        && forall j :: 0 <= j < i ==> !Holds(a.details, parts[j]);
      assert FirstWithChecksum(a.details, parts, i);
    } else {
      assert forall i :: 0 <= i < |parts| ==> !Holds(a.details, parts[i]);
      assert !exists i :: FirstWithChecksum(a.details, parts, i);
    }
  }

  ghost predicate ListOf(j: Json, names: seq<string>) {
    j.List? && |j.items| == |names| && forall i :: 0 <= i < |names| ==> j.items[i] == Str(names[i])
  }

  /** The names: the entries of a non-empty list of texts, else the single part, if it is
      a text. */
  lemma NamedPartsAre(a: Archive, names: seq<string>)
    ensures a.parts.Some? && names != [] && ListOf(a.parts.value, names) ==> NamedParts(a) == names
    ensures (a.parts.Some? ==> forall other: seq<string> :: other != [] ==> !ListOf(a.parts.value, other)) ==>
      NamedParts(a) == if a.part.Str? then [a.part.s] else []
  {
    if a.parts.Some? && names != [] && ListOf(a.parts.value, names) {
      assert NamedParts(a) == names;
    }
    if a.parts.Some? && a.parts.value.List? && a.parts.value.items != [] && AllStr(a.parts.value.items) {
      assert ListOf(a.parts.value, Strings(a.parts.value.items));
    }
  }

  /** The list of parts as the stager copies it, and as the verifier expects it. */
  function CopiedParts(a: Archive): Json {
    if a.parts.Some? then a.parts.value else List([a.part])
  }

  function ExpectedParts(a: Archive): Json {
    if a.parts.Some? && a.parts.value.List? then a.parts.value else List([a.part])
  }

  /** The parts of the entry are missing or a list, not null or another value. */
  predicate Listed(a: Archive) {
    a.parts.Some? ==> a.parts.value.List?
  }

  // ---------------------------------------------------------------- where an image goes

  /** Member names give cameras 1 to 6 and target numbers only. */
  ghost predicate Sound(o: Outside) {
    forall m :: o.read(m).Some? ==> 1 <= o.read(m).value.camera <= 6 && IsTarget(o.read(m).value.seqNo)
  }

  function DestinationKind(m: Meta): Option<Kind> {
    match m.extension
    case Dat => Some(Metadata)
    case Jpg => if m.flatness.Flat? then Some(TwoD) else None
    case D3img => if m.flatness.Deep? then Some(ThreeD) else None
  }

  /** The part behind the last slash. */
  function FileName(member: string): (f: string)
    ensures NoSlash(f)
    decreases |member|
  {
    var h := Head(member);
    if |h| == |member| then h else FileName(member[|h| + 1..])
  }

  /** The file name is what stands behind the last slash. */
  lemma {:induction false} FileNameIs(member: string) returns (before: string)
    ensures member == before + FileName(member) && (before == "" || before[|before| - 1] == '/')
    decreases |member|
  {
    var h := Head(member);
    if |h| == |member| {
      before := "";
    } else {
      var rest := FileNameIs(member[|h| + 1..]);
      HeadEnds(member);
      before := h + "/" + rest;
      Regroup(h, rest, FileName(member));
    }
  }

  lemma Regroup(h: string, rest: string, f: string)
    requires rest == "" || rest[|rest| - 1] == '/'
    ensures h + "/" + (rest + f) == (h + "/" + rest) + f && (h + "/" + rest)[|h + "/" + rest| - 1] == '/'
  {
  }

  lemma {:induction false} HeadEnds(s: string)
    requires |Head(s)| < |s|
    ensures s == Head(s) + "/" + s[|Head(s)| + 1..]
  {
    if s[0] != '/' {
      HeadEnds(s[1..]);
    }
  }

  /** The entry agrees with its member name, its kind is one that is staged, and an
      archive part can be selected for it. */
  predicate Fits(o: Outside, i: Image) {
    o.read(i.member) == Some(i.meta) && DestinationKind(i.meta).Some? && Select(i.archive).Some?
  }

  /** Flat pictures, depth files and metadata are staged, and nothing else. */
  lemma FitsIff(o: Outside, i: Image)
    ensures Fits(o, i) <==>
      && o.read(i.member) == Some(i.meta) && Select(i.archive).Some?
      && (|| i.meta.extension == Dat
          || (i.meta.extension == Jpg && i.meta.flatness == Flat)
          || (i.meta.extension == D3img && i.meta.flatness == Deep))
    ensures Fits(o, i) ==>
      EntryOf(i) == Entry(i.meta.camera, i.meta.seqNo,
                          if i.meta.extension == Dat then Metadata else if i.meta.extension == Jpg then TwoD else ThreeD)
  {
  }

  function EntryOf(i: Image): Entry
    requires DestinationKind(i.meta).Some?
  {
    Entry(i.meta.camera, i.meta.seqNo, DestinationKind(i.meta).value)
  }

  function Destination(o: Outside, i: Image): string
    requires Fits(o, i)
  {
    RelativePath(EntryOf(i), FileName(i.member))
  }

  // ---------------------------------------------------------------- staging the artifacts

  predicate AllFit(o: Outside, images: seq<Image>) {
    forall i :: 0 <= i < |images| ==> Fits(o, images[i])
  }

  /** All images can be staged, and no two collide. */
  ghost predicate Plannable(o: Outside, images: seq<Image>) {
    && AllFit(o, images)
    && (forall i, j :: 0 <= i < j < |images| ==>
          o.fold(Destination(o, images[i])) != o.fold(Destination(o, images[j])))
  }

  function Extracted(o: Outside, i: Image): Evidence
    requires Fits(o, i)
  {
    var path := Destination(o, i);
    Evidence(i.member, i.meta, Select(i.archive).value, CopiedParts(i.archive), i.archive.details, path,
             if i.meta.extension.D3img? then Some(o.probe(path)) else None)
  }

  function AllExtracted(o: Outside, images: seq<Image>): (artifacts: seq<Evidence>)
    requires AllFit(o, images)
    ensures |artifacts| == |images|
    ensures forall i :: 0 <= i < |images| ==> artifacts[i] == Extracted(o, images[i])
  {
    seq(|images|, i requires 0 <= i < |images| => Extracted(o, images[i]))
  }

  /** The planning loop with its collision test, and the extraction. */
  method StageArtifacts(o: Outside, images: seq<Image>) returns (r: Option<seq<Evidence>>)
    ensures r.Some? <==> Plannable(o, images)
    ensures r.Some? ==> r.value == AllExtracted(o, images)
  {
    hide Fits, Destination, Extracted, Select;
    var keys: set<string> := {};
    var artifacts: seq<Evidence> := [];
    for i := 0 to |images|
      invariant forall k :: 0 <= k < i ==> Fits(o, images[k])
      invariant |artifacts| == i && forall k :: 0 <= k < i ==> artifacts[k] == Extracted(o, images[k])
      invariant keys == set k | 0 <= k < i :: o.fold(Destination(o, images[k]))
      invariant forall k, l :: 0 <= k < l < i ==>
        o.fold(Destination(o, images[k])) != o.fold(Destination(o, images[l]))
    {
      var part := SelectArchivePart(images[i].archive);
      var fits := o.read(images[i].member) == Some(images[i].meta) && DestinationKind(images[i].meta).Some? && part.Some?;
      FitsIs(o, images[i]);
      if !fits {
        return None;
      }
      var path := Destination(o, images[i]);
      if o.fold(path) in keys {
        return None;
      }
      keys := keys + {o.fold(path)};
      artifacts := artifacts + [Extracted(o, images[i])];
    }
    r := Some(artifacts);
  }

  lemma FitsIs(o: Outside, i: Image)
    ensures Fits(o, i) <==>
      o.read(i.member) == Some(i.meta) && DestinationKind(i.meta).Some? && Select(i.archive).Some?
  {
  }

  // ---------------------------------------------------------------- the stager's manifest

  function SumRejected(p: Pointer, tables: seq<string>): nat
    requires forall t :: t in tables ==> t in p.counts
  {
    if tables == [] then 0
    else
      var t := tables[|tables| - 1];
      SumRejected(p, tables[..|tables| - 1]) + p.counts[t].rejected + p.counts[t].unknown
  }

  function SumRows(rows: map<string, nat>, tables: seq<string>): nat
    requires forall t :: t in tables ==> t in rows
  {
    if tables == [] then 0 else SumRows(rows, tables[..|tables| - 1]) + rows[tables[|tables| - 1]]
  }

  /** The validation of the pointer: five tables, and as many rows accepted as lines. */
  ghost predicate ValidPointer(p: Pointer) {
    && (forall t :: t in p.files <==> t in TABLES) && (forall t :: t in p.counts <==> t in TABLES)
    && (forall t :: t in TABLES ==> p.counts[t].accepted == p.files[t])
  }

  function Basic(artifacts: seq<Evidence>): (basic: seq<Artifact>)
    ensures |basic| == |artifacts|
    ensures forall i :: 0 <= i < |basic| ==>
      basic[i] == Artifact(artifacts[i].meta.camera, artifacts[i].meta.seqNo, artifacts[i].path)
  {
    seq(|artifacts|, i requires 0 <= i < |artifacts| =>
      Artifact(artifacts[i].meta.camera, artifacts[i].meta.seqNo, artifacts[i].path))
  }

  predicate AllOk(statuses: seq<string>) {
    statuses != [] && forall i :: 0 <= i < |statuses| ==> statuses[i] == "ok"
  }

  predicate DepthsValid(artifacts: seq<Evidence>) {
    forall i :: 0 <= i < |artifacts| ==>
      !artifacts[i].meta.extension.D3img?
      || (artifacts[i].depth.Some? && artifacts[i].depth.value != InvalidDepth)
  }

  /** The stager asks of the filter run only what its evidence says. */
  predicate RunComplete(p: Pointer)
    requires forall t :: t in TABLES ==> t in p.counts
  {
    p.integrity == "ok" && p.diameterComplete && p.parseRejected == 0 && SumRejected(p, TABLES) == 0
  }

  /** The manifest, from what was counted while extracting. */
  function Describe(o: Outside, src: Source, artifacts: seq<Evidence>, inv: Inventory): Manifest
    requires Shaped(inv) && forall t :: t in TABLES ==> t in src.pointer.counts && t in src.pointer.files
  {
    var p := src.pointer;
    var coverage := CoverageOf(inv, Present(Basic(artifacts)));
    var ready := AllOk(src.statuses) && coverage.complete && RunComplete(p) && DepthsValid(artifacts);
    var rows := map t | t in TABLES :: p.counts[t].accepted;
    Manifest(if ready then Ready else Partial, ready, !ready, o.digest(p, artifacts),
             inv, coverage.present, coverage, coverage.complete,
             Integrity(src.statuses, AllOk(src.statuses), true, "crc-failed" in src.statuses,
                       p.integrity, p.diameterComplete, p.parseRejected),
             |artifacts|, SumRows(rows, TABLES), SumRejected(p, TABLES), rows,
             seq(|TABLES|, i requires 0 <= i < |TABLES| => (TABLES[i], p.files[TABLES[i]])), artifacts)
  }

  // ---------------------------------------------------------------- the verifier

  /** The manifest names the five tables, and each copied table has the lines that
      pointer and manifest say. */
  ghost predicate TablesPass(normalized: seq<(string, nat)>, p: Pointer, tables: map<string, nat>) {
    && |normalized| == |TABLES|
    && (set i | 0 <= i < |normalized| :: normalized[i].0) == (set t | t in TABLES)
    && forall i :: 0 <= i < |normalized| ==> TablePasses(normalized[i], p, tables)
  }

  predicate TablePasses(item: (string, nat), p: Pointer, tables: map<string, nat>) {
    item.0 in tables && item.0 in p.files && tables[item.0] == p.files[item.0] == item.1
  }

  /** The loop over the tables: rows by table, and the tables found. */
  method VerifyTables(normalized: seq<(string, nat)>, p: Pointer, tables: map<string, nat>)
    returns (r: Option<(map<string, nat>, set<string>)>)
    requires forall t :: t in p.files <==> t in TABLES
    ensures r.Some? <==> TablesPass(normalized, p, tables)
    ensures r.Some? ==> r.value.0 == p.files && r.value.1 == set t | t in TABLES
  {
    if |normalized| != |TABLES| {
      return None;
    }
    if (set i | 0 <= i < |normalized| :: normalized[i].0) != (set t | t in TABLES) {
      return None;
    }
    hide TablePasses;
    var rows: map<string, nat> := map[];
    var available: set<string> := {};
    for i := 0 to |normalized|
      invariant forall k :: 0 <= k < i ==> TablePasses(normalized[k], p, tables)
      invariant available == set k | 0 <= k < i :: normalized[k].0
      invariant rows.Keys == available && forall t :: t in rows ==> t in p.files && rows[t] == p.files[t]
    {
      var item := normalized[i];
      TablePassesIs(item, p, tables);
      if item.0 !in tables || item.0 !in p.files || tables[item.0] != p.files[item.0] || item.1 != tables[item.0] {
        return None;
      }
      rows, available := rows[item.0 := tables[item.0]], available + {item.0};
    }
    assert available == set t | t in TABLES;
    assert p.files.Keys == available;
    r := Some((rows, available));
  }

  lemma TablePassesIs(item: (string, nat), p: Pointer, tables: map<string, nat>)
    ensures TablePasses(item, p, tables) <==>
      item.0 in tables && item.0 in p.files && tables[item.0] == p.files[item.0] == item.1
  {
  }

  /** The image that the dictionary of members holds: the last of that name. */
  function Member(images: seq<Image>, member: string): Option<Image> {
    if images == [] then None
    else if images[|images| - 1].member == member then Some(images[|images| - 1])
    else Member(images[..|images| - 1], member)
  }

  /** Of several entries with a member name the dictionary holds the last. */
  lemma {:induction false} MemberIs(images: seq<Image>, member: string)
    ensures match Member(images, member)
      case None => forall i :: 0 <= i < |images| ==> images[i].member != member
      case Some(image) => exists i ::
        && 0 <= i < |images| && images[i] == image && image.member == member
        && forall j :: i < j < |images| ==> images[j].member != member
  {
    if images != [] {
      var last := |images| - 1;
      if images[last].member != member {
        MemberIs(images[..last], member);
      }
    }
  }

  /** One artifact against the disk, its own path and the inventory. */
  predicate ArtifactPasses(o: Outside, src: Source, e: Evidence) {
    && e.depth == (if e.meta.extension.D3img? then Some(o.probe(e.path)) else None)
    && Consistent(Artifact(e.meta.camera, e.meta.seqNo, e.path))
    && var found := Member(src.images, e.member);
       && found.Some? && Fits(o, found.value) && Destination(o, found.value) == e.path
       && e.meta == found.value.meta && Some(e.part) == Select(found.value.archive)
       && e.parts == ExpectedParts(found.value.archive) && e.details == found.value.archive.details
  }

  ghost predicate ArtifactsPass(o: Outside, src: Source, artifacts: seq<Evidence>, disk: set<string>) {
    && (forall i, j :: 0 <= i < j < |artifacts| ==> o.fold(artifacts[i].path) != o.fold(artifacts[j].path))
    && disk == (set i | 0 <= i < |artifacts| :: artifacts[i].path)
    && forall i :: 0 <= i < |artifacts| ==> ArtifactPasses(o, src, artifacts[i])
  }

  method VerifyArtifacts(o: Outside, src: Source, artifacts: seq<Evidence>, disk: set<string>) returns (ok: bool)
    ensures ok <==> ArtifactsPass(o, src, artifacts, disk)
  {
    hide ArtifactPasses;
    var seen: set<string> := {};
    var declared: set<string> := {};
    for i := 0 to |artifacts|
      invariant seen == set k | 0 <= k < i :: o.fold(artifacts[k].path)
      invariant declared == set k | 0 <= k < i :: artifacts[k].path
      invariant forall k, l :: 0 <= k < l < i ==> o.fold(artifacts[k].path) != o.fold(artifacts[l].path)
    {
      var key := o.fold(artifacts[i].path);
      if key in seen {
        return false;
      }
      seen, declared := seen + {key}, declared + {artifacts[i].path};
    }
    if disk != declared {
      return false;
    }
    for i := 0 to |artifacts|
      invariant forall k :: 0 <= k < i ==> ArtifactPasses(o, src, artifacts[k])
    {
      if !ArtifactPasses(o, src, artifacts[i]) {
        return false;
      }
    }
    ok := true;
  }

  /** The verifier asks in addition that all five tables were found. */
  predicate NormalizationComplete(p: Pointer, available: set<string>)
    requires forall t :: t in TABLES ==> t in p.counts
  {
    available == (set t | t in TABLES) && RunComplete(p)
  }

  /** Everything that the verifier derives from the copies and compares. */
  ghost predicate Verified(o: Outside, m: Manifest, src: Source, files: Files) {
    && ValidPointer(src.pointer)
    && TablesPass(m.normalized, src.pointer, files.tables)
    && ArtifactsPass(o, src, m.artifacts, files.artifacts)
    && AllConsistent(Basic(m.artifacts))
    && var p := src.pointer;
       var available := set t | t in TABLES;
       var inv := SortCameras(Tally(Entries(Basic(m.artifacts))));
       var present := Present(Basic(m.artifacts));
       var derived := CoverageOf(inv, present);
       var ready := AllOk(src.statuses) && NormalizationComplete(p, available) && derived.complete && DepthsValid(m.artifacts);
       && m.inventory == inv && m.present == Ascending(present, FIRST_SEQ)
       && m.coverage == derived && m.coverageComplete == derived.complete
       && m.integrity == Integrity(src.statuses, AllOk(src.statuses), available == (set t | t in TABLES),
                                   "crc-failed" in src.statuses, p.integrity, p.diameterComplete, p.parseRejected)
       && m.acceptedArtifacts == |m.artifacts| && m.acceptedRows == SumRows(p.files, TABLES)
       && m.rejectedRows == SumRejected(p, TABLES) && m.rowsByTable == p.files
       && m.status == (if ready then Ready else Partial) && m.importEligible == ready
       && m.contentId == o.digest(p, m.artifacts) && m.reviewRequired == m.status.Partial?
  }

  // ---------------------------------------------------------------- a fresh batch passes

  /** Distinct paths mean distinct members, so the dictionary finds each image. */
  lemma {:induction false} MemberFound(o: Outside, images: seq<Image>, i: nat)
    requires Plannable(o, images) && i < |images|
    ensures Member(images, images[i].member) == Some(images[i])
    decreases |images|
  {
    hide Fits, Destination;
    var last := |images| - 1;
    if i < last {
      MembersDiffer(o, images, i, last);
      assert images[..last][i] == images[i];
      Fewer(o, images, last);
      MemberFound(o, images[..last], i);
    }
  }

  lemma MembersDiffer(o: Outside, images: seq<Image>, i: nat, j: nat)
    requires Plannable(o, images) && i < j < |images|
    ensures images[i].member != images[j].member
  {
    assert Fits(o, images[i]) && Fits(o, images[j]);
    assert o.fold(Destination(o, images[i])) != o.fold(Destination(o, images[j]));
  }

  lemma Fewer(o: Outside, images: seq<Image>, n: nat)
    requires Plannable(o, images) && n <= |images|
    ensures Plannable(o, images[..n])
  {
  }

  function EntriesOf(o: Outside, images: seq<Image>): (es: seq<Entry>)
    requires AllFit(o, images)
    ensures |es| == |images|
    ensures forall i :: 0 <= i < |images| ==> Fits(o, images[i]) && es[i] == EntryOf(images[i])
  {
    seq(|images|, i requires 0 <= i < |images| => assert Fits(o, images[i]); EntryOf(images[i]))
  }

  ghost function FileNames(images: seq<Image>): (files: seq<string>)
    ensures |files| == |images| && forall i :: 0 <= i < |images| ==> files[i] == FileName(images[i].member)
  {
    seq(|images|, i requires 0 <= i < |images| => FileName(images[i].member))
  }

  lemma PutWhereSaid(o: Outside, images: seq<Image>)
    requires Sound(o) && Plannable(o, images)
    ensures AllPut(Basic(AllExtracted(o, images)), EntriesOf(o, images), FileNames(images))
  {
    hide RelativePath, FileName, NoSlash;
    var artifacts := Basic(AllExtracted(o, images));
    forall i | 0 <= i < |images|
      ensures PutAt(artifacts[i], EntriesOf(o, images)[i], FileNames(images)[i])
    {
      assert Fits(o, images[i]);
      NameHasNoSlash(images[i].member);
    }
  }

  lemma NameHasNoSlash(member: string)
    ensures NoSlash(FileName(member))
  {
  }

  /** The paths of the extracted artifacts are the files put on disk. */
  ghost function Written(o: Outside, images: seq<Image>): set<string>
    requires AllFit(o, images)
  {
    set i | 0 <= i < |images| :: Destination(o, images[i])
  }

  ghost predicate AllListed(images: seq<Image>) {
    forall i :: 0 <= i < |images| ==> Listed(images[i].archive)
  }

  lemma ArtifactsFresh(o: Outside, src: Source)
    requires Sound(o) && Plannable(o, src.images)
    ensures ArtifactsPass(o, src, AllExtracted(o, src.images), Written(o, src.images)) <==> AllListed(src.images)
  {
    hide Destination, Member, Consistent, ArtifactPasses, Fits, Basic, Extracted, Listed;
    var artifacts := AllExtracted(o, src.images);
    PutWhereSaid(o, src.images);
    FreshEntries(Basic(artifacts), EntriesOf(o, src.images), FileNames(src.images));
    forall i | 0 <= i < |artifacts|
      ensures ArtifactPasses(o, src, artifacts[i]) <==> Listed(src.images[i].archive)
      ensures artifacts[i].path == Destination(o, src.images[i])
    {
      MemberFound(o, src.images, i);
      assert Consistent(Basic(artifacts)[i]);
      ArtifactFresh(o, src, src.images[i]);
    }
    SamePaths(o, src.images);
  }

  /** One fresh artifact passes exactly when its parts are missing or a list. */
  lemma ArtifactFresh(o: Outside, src: Source, i: Image)
    requires Fits(o, i) && Member(src.images, i.member) == Some(i)
    ensures Extracted(o, i).path == Destination(o, i)
    ensures Extracted(o, i).meta == i.meta
    ensures Consistent(Artifact(i.meta.camera, i.meta.seqNo, Destination(o, i))) ==>
      (ArtifactPasses(o, src, Extracted(o, i)) <==> Listed(i.archive))
  {
    hide Destination, Member, Consistent, Select;
  }

  lemma SamePaths(o: Outside, images: seq<Image>)
    requires AllFit(o, images)
    ensures Written(o, images) == set i | 0 <= i < |images| :: AllExtracted(o, images)[i].path
  {
    hide Destination, Fits, Select;
    forall i | 0 <= i < |images|
      ensures AllExtracted(o, images)[i].path == Destination(o, images[i])
    {
    }
  }

  lemma TablesFresh(p: Pointer, normalized: seq<(string, nat)>)
    requires ValidPointer(p)
    requires |normalized| == |TABLES| && forall i :: 0 <= i < |TABLES| ==> normalized[i] == (TABLES[i], p.files[TABLES[i]])
    ensures TablesPass(normalized, p, p.files)
  {
    forall t | t in TABLES
      ensures t in set i | 0 <= i < |normalized| :: normalized[i].0
    {
      var i :| 0 <= i < |TABLES| && TABLES[i] == t;
      assert normalized[i].0 == t;
    }
  }

  lemma EntriesProper(o: Outside, images: seq<Image>)
    requires Sound(o) && AllFit(o, images)
    ensures AllProper(EntriesOf(o, images)) && Shaped(SortCameras(Tally(EntriesOf(o, images))))
  {
    hide Tally, SortCameras, Shaped;
    forall i | 0 <= i < |images|
      ensures Proper(EntriesOf(o, images)[i])
    {
      assert Fits(o, images[i]);
    }
    ShapedSorted(EntriesOf(o, images));
  }

  /** What a batch can be staged from without error. */
  ghost predicate Stageable(o: Outside, src: Source) {
    Sound(o) && ValidPointer(src.pointer) && Plannable(o, src.images)
  }

  /** The manifest of a fresh batch. */
  ghost function FreshManifest(o: Outside, src: Source): Manifest
    requires Stageable(o, src)
  {
    EntriesProper(o, src.images);
    Describe(o, src, AllExtracted(o, src.images), SortCameras(Tally(EntriesOf(o, src.images))))
  }

  /** Staging, from the planning loop to the manifest. */
  method StageBatch(o: Outside, src: Source) returns (m: Option<Manifest>)
    requires Sound(o) && ValidPointer(src.pointer)
    ensures m.Some? <==> Plannable(o, src.images)
    ensures m.Some? ==> m.value == FreshManifest(o, src)
  {
    hide Sound, Describe, Tally, SortCameras, Shaped, AllPut, AllProper;
    var artifacts := StageArtifacts(o, src.images);
    if artifacts.None? {
      return None;
    }
    EntriesProper(o, src.images);
    PutWhereSaid(o, src.images);
    var inv := StageInventory(Basic(artifacts.value), EntriesOf(o, src.images), FileNames(src.images));
    m := Some(Describe(o, src, artifacts.value, inv));
  }

  /** A fresh batch passes the verifier exactly when no entry has archive parts that are
      not a list; it is ready exactly when all database members are ok, the filter run
      was complete, every depth file is valid, and every camera has an artifact of
      every target number. */
  lemma FreshBatchAccepted(o: Outside, src: Source)
    requires Stageable(o, src)
    ensures Verified(o, FreshManifest(o, src), src, Files(src.pointer.files, Written(o, src.images))) <==>
      AllListed(src.images)
    ensures FreshManifest(o, src).status.Ready? <==>
      && AllOk(src.statuses) && RunComplete(src.pointer)
      && DepthsValid(AllExtracted(o, src.images)) && FullyCovered(EntriesOf(o, src.images))
  {
    hide Tally, CoverageOf, FullyCovered, Entries, SortCameras, AllConsistent, AllPut, Present, AllProper, ArtifactsPass,
      TablesPass, AllFit, SumRejected, SumRows, DepthsValid, AllOk, RunComplete, Written, Basic, Shaped, Sound, AllListed;
    var artifacts, es := AllExtracted(o, src.images), EntriesOf(o, src.images);
    EntriesProper(o, src.images);
    PutWhereSaid(o, src.images);
    FreshCoverage(Basic(artifacts), es, FileNames(src.images));
    ArtifactsFresh(o, src);
    var m := FreshManifest(o, src);
    TablesFresh(src.pointer, m.normalized);
    assert m.rowsByTable == src.pointer.files;
  }

  /** The five tables. */
  lemma TablesAre()
    ensures |TABLES| == 5 && TABLES[0] == "allexcel" && TABLES[1] == "checkrecord" && TABLES[2] == "defect"
    ensures TABLES[3] == "defectclass" && TABLES[4] == "diameter"
  {
  }

  /** All rows refused or unknown, table by table. */
  function Refusals(p: Pointer, i: nat): nat
    requires ValidPointer(p) && i < 5
  {
    p.counts[TABLES[i]].rejected + p.counts[TABLES[i]].unknown
  }

  lemma SumStep(p: Pointer, i: nat)
    requires ValidPointer(p) && i < 5
    ensures SumRejected(p, TABLES[..i + 1]) == SumRejected(p, TABLES[..i]) + Refusals(p, i)
    ensures SumRows(p.files, TABLES[..i + 1]) == SumRows(p.files, TABLES[..i]) + p.files[TABLES[i]]
  {
    assert TABLES[..i + 1][..i] == TABLES[..i];
  }

  lemma SumsAre(p: Pointer)
    requires ValidPointer(p)
    ensures SumRejected(p, TABLES) == Refusals(p, 0) + Refusals(p, 1) + Refusals(p, 2) + Refusals(p, 3) + Refusals(p, 4)
    ensures SumRows(p.files, TABLES) ==
      p.files[TABLES[0]] + p.files[TABLES[1]] + p.files[TABLES[2]] + p.files[TABLES[3]] + p.files[TABLES[4]]
  {
    hide Refusals;
    assert SumRejected(p, TABLES[..0]) == 0 && SumRows(p.files, TABLES[..0]) == 0;
    hide SumRejected, SumRows;
    SumStep(p, 0);
    SumStep(p, 1);
    SumStep(p, 2);
    SumStep(p, 3);
    SumStep(p, 4);
    assert TABLES[..5] == TABLES;
  }

  lemma RejectedNothing(p: Pointer)
    requires ValidPointer(p)
    ensures SumRejected(p, TABLES) == 0 <==>
      forall t :: t in p.counts ==> p.counts[t].rejected == 0 && p.counts[t].unknown == 0
  {
    hide SumRejected;
    SumsAre(p);
    if SumRejected(p, TABLES) == 0 {
      forall t | t in p.counts
        ensures p.counts[t].rejected == 0 && p.counts[t].unknown == 0
      {
        var i :| 0 <= i < |TABLES| && TABLES[i] == t;
        assert Refusals(p, i) == 0;
      }
    } else {
      var i: nat :| i < 5 && Refusals(p, i) > 0;
      assert TABLES[i] in p.counts;
    }
  }

  /** The counts and the evidence of a fresh manifest, in terms of what it is made from. */
  lemma ManifestIs(o: Outside, src: Source)
    requires Stageable(o, src)
    ensures var m, p := FreshManifest(o, src), src.pointer;
      && m.acceptedArtifacts == |src.images| == |m.artifacts|
      && m.acceptedRows ==
           p.files[TABLES[0]] + p.files[TABLES[1]] + p.files[TABLES[2]] + p.files[TABLES[3]] + p.files[TABLES[4]]
      && m.rejectedRows == Refusals(p, 0) + Refusals(p, 1) + Refusals(p, 2) + Refusals(p, 3) + Refusals(p, 4)
      && m.rowsByTable == p.files
      && m.importEligible == m.status.Ready? == !m.reviewRequired
  {
    hide Tally, CoverageOf, SortCameras, AllFit, Shaped, Basic, Present, SumRejected, SumRows, EntriesOf, DepthsValid,
      Refusals, AllOk, RunComplete;
    EntriesProper(o, src.images);
    SumsAre(src.pointer);
    assert FreshManifest(o, src).rowsByTable == src.pointer.files;
  }

  /** The evidence on the database members and on the filter run. */
  lemma IntegrityIs(o: Outside, src: Source)
    requires Stageable(o, src)
    ensures var i := FreshManifest(o, src).integrity;
      && i.statuses == src.statuses && i.generationVerified
      && (i.membersVerified <==> src.statuses != [] && forall k :: 0 <= k < |src.statuses| ==> src.statuses[k] == "ok")
      && (i.crcFailed <==> exists k :: 0 <= k < |src.statuses| && src.statuses[k] == "crc-failed")
      && i.normalization == src.pointer.integrity && i.diameterComplete == src.pointer.diameterComplete
      && i.parseRejected == src.pointer.parseRejected
  {
    hide Tally, CoverageOf, SortCameras, AllFit, Shaped, Basic, Present, SumRejected, SumRows, EntriesOf, DepthsValid, RunComplete;
    EntriesProper(o, src.images);
  }

  /** Some image is of this camera and number. */
  ghost predicate Photographed(images: seq<Image>, c: int, s: int) {
    exists i :: 0 <= i < |images| && images[i].meta.camera == c && images[i].meta.seqNo == s
  }

  /** When a fresh batch is ready, without any of the sums and summaries. */
  lemma ReadyIff(o: Outside, src: Source)
    requires Stageable(o, src)
    ensures FreshManifest(o, src).status.Ready? <==>
      && src.statuses != [] && (forall i :: 0 <= i < |src.statuses| ==> src.statuses[i] == "ok")
      && src.pointer.integrity == "ok" && src.pointer.diameterComplete && src.pointer.parseRejected == 0
      && (forall t :: t in src.pointer.counts ==> src.pointer.counts[t].rejected == 0 && src.pointer.counts[t].unknown == 0)
      && (forall i :: 0 <= i < |src.images| && src.images[i].meta.extension == D3img ==>
            Fits(o, src.images[i]) && o.probe(Destination(o, src.images[i])) != InvalidDepth)
      && (forall c, s :: 1 <= c <= 6 && 1893700 <= s < 1893711 ==> Photographed(src.images, c, s))
  {
    hide Tally, CoverageOf, SortCameras, Shaped, Basic, Present, SumRejected, SumRows, FreshManifest, Verified, Destination,
      Select, Photographed, FullyCovered, DepthsValid, Fits, AllListed;
    FreshBatchAccepted(o, src);
    RejectedNothing(src.pointer);
    DepthsAre(o, src.images);
    CoveredIs(o, src.images);
  }

  lemma DepthsAre(o: Outside, images: seq<Image>)
    requires AllFit(o, images)
    ensures DepthsValid(AllExtracted(o, images)) <==>
      forall i :: 0 <= i < |images| && images[i].meta.extension == D3img ==>
        Fits(o, images[i]) && o.probe(Destination(o, images[i])) != InvalidDepth
  {
    hide Destination, Select, Fits;
    var artifacts := AllExtracted(o, images);
    forall i | 0 <= i < |images|
      ensures Fits(o, images[i]) && artifacts[i].meta == images[i].meta
      ensures images[i].meta.extension.D3img? ==> artifacts[i].depth == Some(o.probe(Destination(o, images[i])))
    {
    }
  }

  lemma CoveredIs(o: Outside, images: seq<Image>)
    requires AllFit(o, images)
    ensures FullyCovered(EntriesOf(o, images)) <==>
      forall c, s :: 1 <= c <= 6 && 1893700 <= s < 1893711 ==> Photographed(images, c, s)
  {
    hide Fits, Select;
    var es := EntriesOf(o, images);
    forall i | 0 <= i < |images|
      ensures es[i].camera == images[i].meta.camera && es[i].seqNo == images[i].meta.seqNo
    {
      FitsIff(o, images[i]);
    }
    forall c: nat, s: nat
      ensures Occurs(es, c, s) <==> Photographed(images, c, s)
    {
      if Occurs(es, c, s) {
        var i :| 0 <= i < |es| && es[i].camera == c && es[i].seqNo == s;
        assert images[i].meta.camera == c;
      }
      if Photographed(images, c, s) {
        var i :| 0 <= i < |images| && images[i].meta.camera == c && images[i].meta.seqNo == s;
        assert es[i].camera == c;
      }
    }
  }

  /** One image whose archiveParts is null: the stager takes it, and the batch that it
      writes fails its own verification. */
  lemma NullParts() returns (o: Outside, src: Source)
    ensures |src.images| == 1 && src.images[0].archive.parts == Some(Other(0))
    ensures Stageable(o, src)
    ensures !Verified(o, FreshManifest(o, src), src, Files(src.pointer.files, Written(o, src.images)))
  {
    var meta := Meta(1, FIRST_SEQ, Flat, Jpg);
    var image := Image("a", meta, Archive(Str("image-part1"), Some(Other(0)), Details("", map[], 0)));
    o := Outside(m => Some(meta), p => Decoded, p => p, (p, e) => 0);
    src := Source([image], [], Pointer(map t | t in TABLES :: 0, map t | t in TABLES :: Counts(0, 0, 0), "", false, 0));
    assert NamedParts(image.archive) == ["image-part1"];
    assert Select(image.archive) == Some("image-part1");
    assert Fits(o, image);
    assert Stageable(o, src);
    hide Verified, Stageable, FreshManifest, Written;
    FreshBatchAccepted(o, src);
    assert !Listed(src.images[0].archive);
  }

  lemma ShapedSorted(es: seq<Entry>)
    requires AllProper(es)
    ensures Shaped(SortCameras(Tally(es)))
  {
    hide Tally, AllProper;
    SortingKeepsCoverage(Tally(es), {});
  }

  // ---------------------------------------------------------------- what passes is what the stager writes

  /** An image that fits is put where its path says. */
  lemma DestinationConsistent(o: Outside, i: Image)
    requires Sound(o) && Fits(o, i)
    ensures Consistent(Artifact(i.meta.camera, i.meta.seqNo, Destination(o, i)))
  {
    hide Sound, Fits, Destination, Consistent, AllPut, FileName;
    var images := [i];
    assert Plannable(o, images);
    PutWhereSaid(o, images);
    FreshEntries(Basic(AllExtracted(o, images)), EntriesOf(o, images), FileNames(images));
    assert Consistent(Basic(AllExtracted(o, images))[0]);
  }

  /** An artifact passes exactly when it is what extracting the image of its member gives,
      with the parts that the verifier expects. */
  lemma ArtifactIff(o: Outside, src: Source, e: Evidence)
    requires Sound(o)
    ensures var found := Member(src.images, e.member);
      ArtifactPasses(o, src, e) <==>
        && found.Some? && Fits(o, found.value)
        && e == Extracted(o, found.value).(parts := ExpectedParts(found.value.archive))
  {
    hide Sound, Fits, Destination, Consistent, Select, ExpectedParts, Member;
    var found := Member(src.images, e.member);
    MemberIs(src.images, e.member);
    if found.Some? && Fits(o, found.value) {
      FitsIs(o, found.value);
      DestinationConsistent(o, found.value);
    }
  }

  /** The tables pass exactly when each of the five is named, nothing else is, and the
      lines named are those of the copy and of the pointer. */
  lemma TablesIff(normalized: seq<(string, nat)>, p: Pointer, tables: map<string, nat>)
    ensures TablesPass(normalized, p, tables) <==>
      && |normalized| == 5
      && (forall k :: 0 <= k < 5 ==> exists i :: 0 <= i < |normalized| && normalized[i].0 == TABLES[k])
      && (forall i :: 0 <= i < |normalized| ==>
            && normalized[i].0 in TABLES && normalized[i].0 in tables && normalized[i].0 in p.files
            && normalized[i].1 == tables[normalized[i].0] == p.files[normalized[i].0])
  {
    hide TablePasses;
    TablesAre();
    NamesIff(normalized);
    forall i | 0 <= i < |normalized|
      ensures TablePasses(normalized[i], p, tables) <==>
        && normalized[i].0 in tables && normalized[i].0 in p.files
        && normalized[i].1 == tables[normalized[i].0] == p.files[normalized[i].0]
    {
      TablePassesIs(normalized[i], p, tables);
    }
  }

  lemma NamesIff(normalized: seq<(string, nat)>)
    ensures (set i | 0 <= i < |normalized| :: normalized[i].0) == (set t | t in TABLES) <==>
      && (forall k :: 0 <= k < 5 ==> exists i :: 0 <= i < |normalized| && normalized[i].0 == TABLES[k])
      && (forall i :: 0 <= i < |normalized| ==> normalized[i].0 in TABLES)
  {
    var names, all := set i | 0 <= i < |normalized| :: normalized[i].0, set t | t in TABLES;
    assert forall k :: 0 <= k < 5 ==> TABLES[k] in all;
    assert forall i :: 0 <= i < |normalized| ==> normalized[i].0 in names;
    if forall k :: 0 <= k < 5 ==> exists i :: 0 <= i < |normalized| && normalized[i].0 == TABLES[k] {
      forall t | t in all
        ensures t in names
      {
        var k :| 0 <= k < 5 && TABLES[k] == t;
      }
    }
  }

  /** A manifest passes exactly when its tables and artifacts do and all the rest is what
      the stager writes for these artifacts. */
  lemma VerifiedIff(o: Outside, m: Manifest, src: Source, files: Files)
    ensures Verified(o, m, src, files) <==>
      && ValidPointer(src.pointer) && TablesPass(m.normalized, src.pointer, files.tables)
      && ArtifactsPass(o, src, m.artifacts, files.artifacts) && AllConsistent(Basic(m.artifacts))
      && var inv := SortCameras(Tally(Entries(Basic(m.artifacts))));
         m == Describe(o, src, m.artifacts, inv).(normalized := m.normalized)
  {
    hide TablesPass, ArtifactsPass, Tally, SortCameras, Entries, AllConsistent, Present, Ascending, MissingFrom,
      DepthsValid, AllOk, SumRejected, SumRows, Basic, RunComplete;
    var p := src.pointer;
    if ValidPointer(p) {
      assert (map t | t in TABLES :: p.counts[t].accepted) == p.files;
    }
  }
}
