/** The camera inventory of a staged batch.

    The stager counts artifacts while it extracts them; the verifier later counts
    them again from the paths in the manifest.  Both arrive at the same inventory
    and the same coverage. */
module CameraInventory {
  import opened Options
  import Decimal

  const FIRST_SEQ: nat := 1_893_700
  const END_SEQ: nat := 1_893_711

  predicate IsTarget(seqNo: nat) {
    FIRST_SEQ <= seqNo < END_SEQ
  }

  /** One extracted artifact: its metadata and where it was put. */
  datatype Artifact = Artifact(camera: nat, seqNo: nat, path: string)

  datatype Kind = TwoD | ThreeD | Metadata

  function KindName(k: Kind): string {
    match k
    case TwoD => "2d"
    case ThreeD => "3d"
    case Metadata => "metadata"
  }

  function KindNamed(name: string): Option<Kind> {
    if name == "2d" then Some(TwoD) else if name == "3d" then Some(ThreeD)
    else if name == "metadata" then Some(Metadata) else None
  }

  datatype KindCounts = KindCounts(twoD: nat, threeD: nat, metadata: nat) {
    function Of(k: Kind): nat {
      match k case TwoD => twoD case ThreeD => threeD case Metadata => metadata
    }

    function Plus(k: Kind): KindCounts {
      match k
      case TwoD => this.(twoD := twoD + 1)
      case ThreeD => this.(threeD := threeD + 1)
      case Metadata => this.(metadata := metadata + 1)
    }

    function Sum(): nat {
      twoD + threeD + metadata
    }
  }

  /** `matrix` has one entry per target number. */
  datatype Camera = Camera(artifactCount: nat, seqNos: seq<nat>, countsByKind: KindCounts, matrix: seq<KindCounts>)

  /** Cameras 1 to 6, in that order. */
  type Inventory = seq<Camera>

  /** What one artifact is counted under. */
  datatype Entry = Entry(camera: nat, seqNo: nat, kind: Kind)

  predicate Proper(e: Entry) {
    1 <= e.camera <= 6 && IsTarget(e.seqNo)
  }

  // ---------------------------------------------------------------- paths

  /** artifacts/camera<n>/<seq>/<kind>/<file> */
  function RelativePath(e: Entry, file: string): string {
    "artifacts/" + ("camera" + Decimal.PrintNat(e.camera) + "/" +
    (Decimal.PrintNat(e.seqNo) + "/" + (KindName(e.kind) + "/" + file)))
  }

  predicate NoSlash(s: string) {
    forall i :: 0 <= i < |s| ==> s[i] != '/'
  }

  /** The text before the first slash. */
  function Head(s: string): (h: string)
    ensures |h| <= |s| && h == s[..|h|] && NoSlash(h)
  {
    if s == [] || s[0] == '/' then [] else [s[0]] + Head(s[1..])
  }

  function Parts(s: string): (p: seq<string>)
    ensures p != []
    decreases |s|
  {
    var h := Head(s);
    if |h| == |s| then [s] else [h] + Parts(s[|h| + 1..])
  }

  lemma {:induction false} HeadIs(a: string, b: string)
    requires NoSlash(a)
    ensures Head(a + "/" + b) == a
  {
    if a == [] {
      assert a + "/" + b == "/" + b;
    } else {
      assert (a + "/" + b)[1..] == a[1..] + "/" + b;
      HeadIs(a[1..], b);
    }
  }

  lemma {:induction false} HeadAll(a: string)
    requires NoSlash(a)
    ensures Head(a) == a
  {
    if a != [] {
      HeadAll(a[1..]);
    }
  }

  lemma PartsStep(a: string, b: string)
    requires NoSlash(a)
    ensures Parts(a + "/" + b) == [a] + Parts(b)
  {
    HeadIs(a, b);
    assert (a + "/" + b)[|a| + 1..] == b;
  }

  lemma NamesHaveNoSlash(e: Entry)
    ensures NoSlash("artifacts") && NoSlash("camera" + Decimal.PrintNat(e.camera))
    ensures NoSlash(Decimal.PrintNat(e.seqNo)) && NoSlash(KindName(e.kind))
  {
  }

  lemma FourSlashes(a: string, b: string, c: string, d: string, e: string)
    requires NoSlash(a) && NoSlash(b) && NoSlash(c) && NoSlash(d) && NoSlash(e)
    ensures Parts(a + "/" + (b + "/" + (c + "/" + (d + "/" + e)))) == [a, b, c, d, e]
  {
    PartsStep(a, b + "/" + (c + "/" + (d + "/" + e)));
    PartsStep(b, c + "/" + (d + "/" + e));
    PartsStep(c, d + "/" + e);
    PartsStep(d, e);
    HeadAll(e);
    assert Parts(e) == [e];
  }

  /** A printed path splits into its five parts. */
  lemma PathParts(e: Entry, file: string)
    requires NoSlash(file)
    ensures Parts(RelativePath(e, file)) ==
            ["artifacts", "camera" + Decimal.PrintNat(e.camera), Decimal.PrintNat(e.seqNo), KindName(e.kind), file]
  {
    hide Parts, NoSlash, KindName;
    NamesHaveNoSlash(e);
    FourSlashes("artifacts", "camera" + Decimal.PrintNat(e.camera), Decimal.PrintNat(e.seqNo), KindName(e.kind), file);
    assert "artifacts/" == "artifacts" + "/";
  }

  /** The directory of each kind. */
  lemma KindDirectory(e: Entry, file: string)
    requires NoSlash(file)
    ensures var parts := Parts(RelativePath(e, file));
      && |parts| == 5
      && parts[3] == (match e.kind case TwoD => "2d" case ThreeD => "3d" case Metadata => "metadata")
  {
    hide Parts, RelativePath, NoSlash;
    PathParts(e, file);
  }

  /** The verifier's reading of a path: five parts, camera1 to camera6, a target
      number and a known kind. */
  function ParsePath(path: string): Option<Entry> {
    var parts := Parts(path);
    if |parts| == 5 && |parts[1]| == 7 && parts[1][..6] == "camera" && '1' <= parts[1][6] <= '6'
      && Decimal.AllDigits(parts[2]) && IsTarget(Decimal.ReadNat(parts[2])) && KindNamed(parts[3]).Some?
    then Some(Entry(Decimal.DigitValue(parts[1][6]), Decimal.ReadNat(parts[2]), KindNamed(parts[3]).value))
    else None
  }

  lemma ParseRelativePath(e: Entry, file: string)
    requires Proper(e) && NoSlash(file)
    ensures ParsePath(RelativePath(e, file)) == Some(e)
  {
    hide Parts, RelativePath, NoSlash;
    PathParts(e, file);
    Decimal.ReadPrintNat(e.seqNo);
    assert Decimal.PrintNat(e.camera) == [Decimal.DigitChar(e.camera)];
    var part := "camera" + Decimal.PrintNat(e.camera);
    assert part[..6] == "camera" && part[6] == Decimal.DigitChar(e.camera);
  }

  // ---------------------------------------------------------------- counting

  const TARGETS: nat := END_SEQ - FIRST_SEQ

  function EmptyInventory(): Inventory {
    seq(6, i => Camera(0, [], KindCounts(0, 0, 0), seq(TARGETS, j => KindCounts(0, 0, 0))))
  }

  predicate Shaped(inv: Inventory) {
    |inv| == 6 && forall c :: 0 <= c < 6 ==> |inv[c].matrix| == TARGETS
  }

  /** One more artifact for its camera. */
  function CountIn(cam: Camera, e: Entry): Camera
    requires Proper(e) && |cam.matrix| == TARGETS
  {
    var s := e.seqNo - FIRST_SEQ;
    Camera(
      cam.artifactCount + 1,
      if e.seqNo in cam.seqNos then cam.seqNos else cam.seqNos + [e.seqNo],
      cam.countsByKind.Plus(e.kind),
      cam.matrix[s := cam.matrix[s].Plus(e.kind)])
  }

  function AddEntry(inv: Inventory, e: Entry): (inv': Inventory)
    requires Shaped(inv) && Proper(e)
    ensures Shaped(inv')
  {
    inv[e.camera - 1 := CountIn(inv[e.camera - 1], e)]
  }

  predicate AllProper(es: seq<Entry>) {
    forall i :: 0 <= i < |es| ==> Proper(es[i])
  }

  function Tally(es: seq<Entry>): (inv: Inventory)
    requires AllProper(es)
    ensures Shaped(inv)
  {
    if es == [] then EmptyInventory() else AddEntry(Tally(es[..|es| - 1]), es[|es| - 1])
  }

  function Cell(inv: Inventory, camera: nat, seqNo: nat): KindCounts
    requires Shaped(inv) && 1 <= camera <= 6 && IsTarget(seqNo)
  {
    inv[camera - 1].matrix[seqNo - FIRST_SEQ]
  }

  lemma CellStep(inv: Inventory, e: Entry, camera: nat, seqNo: nat)
    requires Shaped(inv) && Proper(e) && 1 <= camera <= 6 && IsTarget(seqNo)
    ensures Cell(AddEntry(inv, e), camera, seqNo) ==
            if e.camera == camera && e.seqNo == seqNo then Cell(inv, camera, seqNo).Plus(e.kind)
            else Cell(inv, camera, seqNo)
  {
  }

  lemma CellAtStart(camera: nat, seqNo: nat)
    requires 1 <= camera <= 6 && IsTarget(seqNo)
    ensures Cell(EmptyInventory(), camera, seqNo) == KindCounts(0, 0, 0)
  {
  }

  /** The matrix counts exactly the artifacts with that camera, number and kind. */
  lemma {:induction false} MatrixCounts(es: seq<Entry>, e: Entry)
    requires AllProper(es) && Proper(e)
    ensures Cell(Tally(es), e.camera, e.seqNo).Of(e.kind) == multiset(es)[e]
  {
    hide Cell, AddEntry, EmptyInventory, IsTarget;
    if es == [] {
      CellAtStart(e.camera, e.seqNo);
    } else {
      var last := |es| - 1;
      MatrixCounts(es[..last], e);
      CellStep(Tally(es[..last]), es[last], e.camera, e.seqNo);
      assert es == es[..last] + [es[last]];
    }
  }

  ghost predicate Occurs(es: seq<Entry>, camera: nat, seqNo: nat) {
    exists i :: 0 <= i < |es| && es[i].camera == camera && es[i].seqNo == seqNo
  }

  predicate Distinct(s: seq<nat>) {
    forall i, j :: 0 <= i < j < |s| ==> s[i] != s[j]
  }

  lemma OccursStep(es: seq<Entry>, e: Entry, camera: nat, seqNo: nat)
    ensures Occurs(es + [e], camera, seqNo) <==> Occurs(es, camera, seqNo) || (e.camera == camera && e.seqNo == seqNo)
  {
    var more := es + [e];
    assert more[|es|] == e;
    if Occurs(es, camera, seqNo) {
      var i :| 0 <= i < |es| && es[i].camera == camera && es[i].seqNo == seqNo;
      assert more[i] == es[i];
    }
  }

  lemma NothingOccurs(camera: nat, seqNo: nat)
    ensures !Occurs([], camera, seqNo)
  {
  }

  lemma SeqNosAtStart(camera: nat)
    requires 1 <= camera <= 6
    ensures EmptyInventory()[camera - 1].seqNos == []
  {
  }

  lemma SeqNosStep(inv: Inventory, e: Entry, camera: nat)
    requires Shaped(inv) && Proper(e) && 1 <= camera <= 6
    ensures var seqNos := inv[camera - 1].seqNos;
      AddEntry(inv, e)[camera - 1].seqNos ==
      if e.camera == camera && e.seqNo !in seqNos then seqNos + [e.seqNo] else seqNos
  {
  }

  /** The list of numbers of a camera has each number that occurs, once. */
  lemma {:induction false} SeqNosAre(es: seq<Entry>, camera: nat, seqNo: nat)
    requires AllProper(es) && 1 <= camera <= 6
    ensures Distinct(Tally(es)[camera - 1].seqNos)
    ensures seqNo in Tally(es)[camera - 1].seqNos <==> Occurs(es, camera, seqNo)
  {
    hide AddEntry, EmptyInventory, Occurs, IsTarget;
    if es == [] {
      NothingOccurs(camera, seqNo);
      SeqNosAtStart(camera);
    } else {
      var last := |es| - 1;
      SeqNosAre(es[..last], camera, seqNo);
      SeqNosStep(Tally(es[..last]), es[last], camera);
      assert es == es[..last] + [es[last]];
      OccursStep(es[..last], es[last], camera, seqNo);
    }
  }

  /** A cell of the matrix is empty exactly when no artifact belongs there. */
  lemma {:induction false} CellEmpty(es: seq<Entry>, camera: nat, seqNo: nat)
    requires AllProper(es) && 1 <= camera <= 6 && IsTarget(seqNo)
    ensures Cell(Tally(es), camera, seqNo).Sum() == 0 <==> !Occurs(es, camera, seqNo)
  {
    hide Cell, AddEntry, EmptyInventory, Occurs, IsTarget;
    if es == [] {
      CellAtStart(camera, seqNo);
      NothingOccurs(camera, seqNo);
    } else {
      var last := |es| - 1;
      CellEmpty(es[..last], camera, seqNo);
      CellStep(Tally(es[..last]), es[last], camera, seqNo);
      assert es == es[..last] + [es[last]];
      OccursStep(es[..last], es[last], camera, seqNo);
    }
  }

  /** The places of the entries of one camera, and of one kind among them. */
  ghost function OfCamera(es: seq<Entry>, camera: nat): set<int> {
    set i | 0 <= i < |es| && es[i].camera == camera
  }

  ghost function OfKind(es: seq<Entry>, camera: nat, k: Kind): set<int> {
    set i | 0 <= i < |es| && es[i].camera == camera && es[i].kind == k
  }

  ghost function OfCell(es: seq<Entry>, camera: nat, seqNo: nat, k: Kind): set<int> {
    set i | 0 <= i < |es| && es[i].camera == camera && es[i].seqNo == seqNo && es[i].kind == k
  }

  lemma OneMorePlace(a: set<int>, b: set<int>, x: int, there: bool)
    requires x !in a && b == a + if there then {x} else {}
    ensures |b| == |a| + if there then 1 else 0
  {
  }

  lemma CameraPlaces(es: seq<Entry>, e: Entry, camera: nat)
    ensures |OfCamera(es + [e], camera)| == |OfCamera(es, camera)| + if e.camera == camera then 1 else 0
  {
    OneMorePlace(OfCamera(es, camera), OfCamera(es + [e], camera), |es|, e.camera == camera);
  }

  lemma KindPlaces(es: seq<Entry>, e: Entry, camera: nat, k: Kind)
    ensures |OfKind(es + [e], camera, k)| == |OfKind(es, camera, k)| + if e.camera == camera && e.kind == k then 1 else 0
  {
    OneMorePlace(OfKind(es, camera, k), OfKind(es + [e], camera, k), |es|, e.camera == camera && e.kind == k);
  }

  lemma CellPlaces(es: seq<Entry>, e: Entry, camera: nat, seqNo: nat, k: Kind)
    ensures |OfCell(es + [e], camera, seqNo, k)| ==
      |OfCell(es, camera, seqNo, k)| + if e == Entry(camera, seqNo, k) then 1 else 0
  {
    OneMorePlace(OfCell(es, camera, seqNo, k), OfCell(es + [e], camera, seqNo, k), |es|, e == Entry(camera, seqNo, k));
  }

  lemma TallyStep(es: seq<Entry>, camera: nat)
    requires AllProper(es) && es != [] && 1 <= camera <= 6
    ensures AllProper(es[..|es| - 1])
    ensures es[|es| - 1].camera == camera ==>
      Tally(es)[camera - 1] == CountIn(Tally(es[..|es| - 1])[camera - 1], es[|es| - 1])
    ensures es[|es| - 1].camera != camera ==> Tally(es)[camera - 1] == Tally(es[..|es| - 1])[camera - 1]
  {
  }

  lemma NothingCounted(camera: nat)
    requires 1 <= camera <= 6
    ensures var c := Tally([])[camera - 1];
      c.artifactCount == 0 && c.countsByKind == KindCounts(0, 0, 0)
      && forall i :: 0 <= i < |c.matrix| ==> c.matrix[i] == KindCounts(0, 0, 0)
  {
  }

  /** The count of a camera is the number of its artifacts. */
  lemma {:induction false} ArtifactCountIs(es: seq<Entry>, camera: nat)
    requires AllProper(es) && 1 <= camera <= 6
    ensures Tally(es)[camera - 1].artifactCount == |OfCamera(es, camera)|
  {
    hide Tally, OfCamera;
    if es == [] {
      NothingCounted(camera);
      NoPlaces(camera, 0, TwoD);
    } else {
      var last := |es| - 1;
      ArtifactCountIs(es[..last], camera);
      TallyStep(es, camera);
      assert es == es[..last] + [es[last]];
      CameraPlaces(es[..last], es[last], camera);
    }
  }

  lemma NoPlaces(camera: nat, seqNo: nat, k: Kind)
    ensures OfCamera([], camera) == {} && OfKind([], camera, k) == {} && OfCell([], camera, seqNo, k) == {}
  {
  }

  /** The field of one kind. */
  function Field(c: KindCounts, k: Kind): nat {
    if k.TwoD? then c.twoD else if k.ThreeD? then c.threeD else c.metadata
  }

  /** The count by kind of a camera is the number of its artifacts of that kind. */
  lemma {:induction false} KindCountIs(es: seq<Entry>, camera: nat, k: Kind)
    requires AllProper(es) && 1 <= camera <= 6
    ensures Field(Tally(es)[camera - 1].countsByKind, k) == |OfKind(es, camera, k)|
  {
    hide Tally, OfKind;
    if es == [] {
      NothingCounted(camera);
      NoPlaces(camera, 0, k);
    } else {
      var last := |es| - 1;
      KindCountIs(es[..last], camera, k);
      TallyStep(es, camera);
      assert es == es[..last] + [es[last]];
      KindPlaces(es[..last], es[last], camera, k);
    }
  }

  /** A cell of the matrix is the number of artifacts with that number and kind. */
  lemma {:induction false} CellCountIs(es: seq<Entry>, camera: nat, seqNo: nat, k: Kind)
    requires AllProper(es) && 1 <= camera <= 6 && 1893700 <= seqNo < 1893711
    ensures Field(Tally(es)[camera - 1].matrix[seqNo - 1893700], k) == |OfCell(es, camera, seqNo, k)|
  {
    hide Tally, OfCell;
    if es == [] {
      NothingCounted(camera);
      NoPlaces(camera, seqNo, k);
    } else {
      var last := |es| - 1;
      CellCountIs(es[..last], camera, seqNo, k);
      TallyStep(es, camera);
      assert es == es[..last] + [es[last]];
      CellPlaces(es[..last], es[last], camera, seqNo, k);
    }
  }

  /** The sum of one kind over the target numbers from `from` on. */
  function KindOver(matrix: seq<KindCounts>, k: Kind, from: nat): nat
    requires from <= |matrix|
    decreases |matrix| - from
  {
    if from == |matrix| then 0 else matrix[from].Of(k) + KindOver(matrix, k, from + 1)
  }

  lemma {:induction false} KindOverStep(matrix: seq<KindCounts>, k: Kind, from: nat, s: nat, kind: Kind)
    requires from <= |matrix| && s < |matrix|
    ensures KindOver(matrix[s := matrix[s].Plus(kind)], k, from) ==
      KindOver(matrix, k, from) + if kind == k && s >= from then 1 else 0
    decreases |matrix| - from
  {
    if from < |matrix| {
      KindOverStep(matrix, k, from + 1, s, kind);
    }
  }

  lemma {:induction false} KindOverNothing(matrix: seq<KindCounts>, k: Kind, from: nat)
    requires from <= |matrix| && forall i :: 0 <= i < |matrix| ==> matrix[i] == KindCounts(0, 0, 0)
    ensures KindOver(matrix, k, from) == 0
    decreases |matrix| - from
  {
    if from < |matrix| {
      KindOverNothing(matrix, k, from + 1);
    }
  }

  /** The counts by kind of a camera are the sums over its matrix. */
  lemma {:induction false} KindsAddUp(es: seq<Entry>, camera: nat, k: Kind)
    requires AllProper(es) && 1 <= camera <= 6
    ensures Tally(es)[camera - 1].countsByKind.Of(k) == KindOver(Tally(es)[camera - 1].matrix, k, 0)
  {
    hide Tally, KindOver;
    if es == [] {
      NothingCounted(camera);
      KindOverNothing(Tally([])[camera - 1].matrix, k, 0);
    } else {
      var last := |es| - 1;
      KindsAddUp(es[..last], camera, k);
      TallyStep(es, camera);
      if es[last].camera == camera {
        KindOverStep(Tally(es[..last])[camera - 1].matrix, k, 0, es[last].seqNo - FIRST_SEQ, es[last].kind);
      }
    }
  }

  /** Sorting the numbers of a camera changes none of its counts. */
  lemma SortingKeepsCounts(inv: Inventory, camera: nat)
    requires Shaped(inv) && 1 <= camera <= 6
    ensures var c, sorted := inv[camera - 1], SortCameras(inv)[camera - 1];
      && sorted.artifactCount == c.artifactCount && sorted.countsByKind == c.countsByKind && sorted.matrix == c.matrix
      && IsAscending(sorted.seqNos)
      && ((forall x :: x in c.seqNos ==> IsTarget(x)) ==> forall x :: x in sorted.seqNos <==> x in c.seqNos)
  {
  }

  // ---------------------------------------------------------------- the manifest's summary

  /** The elements of s in ascending order, for a set of target numbers. */
  function Ascending(s: set<nat>, from: nat): (r: seq<nat>)
    requires from <= END_SEQ
    ensures forall x :: x in r <==> x in s && from <= x < END_SEQ
    ensures forall i, j :: 0 <= i < j < |r| ==> r[i] < r[j]
    decreases END_SEQ - from
  {
    if from == END_SEQ then []
    else
      var rest := Ascending(s, from + 1);
      assert forall i :: 0 <= i < |rest| ==> rest[i] in rest;
      if from in s then [from] + rest else rest
  }

  function Sorted(s: seq<nat>): seq<nat> {
    Ascending((set x | x in s), FIRST_SEQ)
  }

  /** The last touch of both sides: each camera's numbers in order. */
  function SortCameras(inv: Inventory): Inventory
    requires Shaped(inv)
  {
    seq(6, c requires 0 <= c < 6 => inv[c].(seqNos := Sorted(inv[c].seqNos)))
  }

  function SeqNos(es: seq<Entry>): set<nat> {
    set i | 0 <= i < |es| :: es[i].seqNo
  }

  /** Cameras and numbers without an artifact, camera by camera. */
  function MissingFrom(inv: Inventory, camera: nat, seqNo: nat): (r: seq<(nat, nat)>)
    requires Shaped(inv) && 1 <= camera <= 7 && FIRST_SEQ <= seqNo <= END_SEQ
    ensures forall c: nat, s: nat :: (c, s) in r <==>
      c <= 6 && IsTarget(s) && (c > camera || (c == camera && s >= seqNo)) && Cell(inv, c, s).Sum() == 0
    decreases 7 - camera, END_SEQ - seqNo
  {
    if camera == 7 then []
    else if seqNo == END_SEQ then MissingFrom(inv, camera + 1, FIRST_SEQ)
    else (if Cell(inv, camera, seqNo).Sum() == 0 then [(camera, seqNo)] else []) + MissingFrom(inv, camera, seqNo + 1)
  }

  datatype Coverage = Coverage(complete: bool, present: seq<nat>, missing: seq<nat>, missingPairs: seq<(nat, nat)>)

  function CoverageOf(inv: Inventory, present: set<nat>): Coverage
    requires Shaped(inv)
  {
    var seqNos := Ascending(present, FIRST_SEQ);
    var pairs := MissingFrom(inv, 1, FIRST_SEQ);
    Coverage(seqNos == AllTargets() && pairs == [], seqNos, Ascending(Absent(present), FIRST_SEQ), pairs)
  }

  function Absent(present: set<nat>): set<nat> {
    set x | x in AllTargets() && x !in present
  }

  function AllTargets(): (all: seq<nat>)
    ensures |all| == TARGETS
  {
    seq(TARGETS, i => FIRST_SEQ + i)
  }

  lemma TargetsFrom(from: nat)
    requires FIRST_SEQ <= from < END_SEQ
    ensures AllTargets()[from - FIRST_SEQ..] == [from] + AllTargets()[from + 1 - FIRST_SEQ..]
  {
  }

  lemma {:induction false} AscendingAll(s: set<nat>, from: nat)
    requires FIRST_SEQ <= from <= END_SEQ
    requires forall x :: from <= x < END_SEQ ==> x in s
    ensures Ascending(s, from) == AllTargets()[from - FIRST_SEQ..]
    decreases END_SEQ - from
  {
    hide AllTargets;
    if from < END_SEQ {
      AscendingAll(s, from + 1);
      TargetsFrom(from);
    }
  }

  ghost predicate FullyCovered(es: seq<Entry>) {
    forall c, s :: 1 <= c <= 6 && IsTarget(s) ==> Occurs(es, c, s)
  }

  lemma MissingPairs(es: seq<Entry>)
    requires AllProper(es)
    ensures MissingFrom(Tally(es), 1, FIRST_SEQ) == [] <==> FullyCovered(es)
  {
    hide Tally, Cell, Occurs, MissingFrom;
    var pairs := MissingFrom(Tally(es), 1, FIRST_SEQ);
    forall c: nat, s: nat | 1 <= c <= 6 && IsTarget(s)
      ensures (c, s) in pairs <==> !Occurs(es, c, s)
    {
      CellEmpty(es, c, s);
    }
    if pairs != [] {
      assert (pairs[0].0, pairs[0].1) in pairs;
    }
  }

  lemma AllPresent(es: seq<Entry>)
    requires AllProper(es) && FullyCovered(es)
    ensures Ascending(SeqNos(es), FIRST_SEQ) == AllTargets()
  {
    forall x | FIRST_SEQ <= x < END_SEQ
      ensures x in SeqNos(es)
    {
      assert Occurs(es, 1, x);
    }
    AscendingAll(SeqNos(es), FIRST_SEQ);
  }

  /** Coverage is complete exactly when every camera has an artifact of every
      target number; the separate test on the present numbers adds nothing. */
  lemma CompleteIff(es: seq<Entry>)
    requires AllProper(es)
    ensures CoverageOf(Tally(es), SeqNos(es)).complete <==> FullyCovered(es)
  {
    hide Tally, MissingFrom, FullyCovered, AllTargets;
    MissingPairs(es);
    if FullyCovered(es) {
      AllPresent(es);
    }
  }

  ghost predicate PairsAscend(pairs: seq<(nat, nat)>) {
    forall i, j :: 0 <= i < j < |pairs| ==> After(pairs[i], pairs[j])
  }

  lemma {:induction false} MissingAscend(inv: Inventory, camera: nat, seqNo: nat)
    requires Shaped(inv) && 1 <= camera <= 7 && FIRST_SEQ <= seqNo <= END_SEQ
    ensures PairsAscend(MissingFrom(inv, camera, seqNo))
    decreases 7 - camera, END_SEQ - seqNo
  {
    hide Cell, MissingFrom, PairsAscend;
    if camera < 7 {
      if seqNo == END_SEQ {
        NextCamera(inv, camera);
        MissingAscend(inv, camera + 1, FIRST_SEQ);
      } else {
        NextNumber(inv, camera, seqNo);
        MissingAscend(inv, camera, seqNo + 1);
        AllAfter(inv, camera, seqNo);
        OneInFront((camera, seqNo), MissingFrom(inv, camera, seqNo + 1));
      }
    } else {
      NoCamera(inv, seqNo);
    }
  }

  predicate After(p: (nat, nat), q: (nat, nat)) {
    p.0 < q.0 || (p.0 == q.0 && p.1 < q.1)
  }

  lemma NoCamera(inv: Inventory, seqNo: nat)
    requires Shaped(inv) && FIRST_SEQ <= seqNo <= END_SEQ
    ensures PairsAscend(MissingFrom(inv, 7, seqNo))
  {
  }

  lemma NextCamera(inv: Inventory, camera: nat)
    requires Shaped(inv) && 1 <= camera < 7
    ensures MissingFrom(inv, camera, END_SEQ) == MissingFrom(inv, camera + 1, FIRST_SEQ)
  {
    hide Cell;
  }

  lemma NextNumber(inv: Inventory, camera: nat, seqNo: nat)
    requires Shaped(inv) && 1 <= camera < 7 && FIRST_SEQ <= seqNo < END_SEQ
    ensures MissingFrom(inv, camera, seqNo) == MissingFrom(inv, camera, seqNo + 1)
         || MissingFrom(inv, camera, seqNo) == [(camera, seqNo)] + MissingFrom(inv, camera, seqNo + 1)
  {
    hide Cell;
    assert [] + MissingFrom(inv, camera, seqNo + 1) == MissingFrom(inv, camera, seqNo + 1);
  }

  lemma AllAfter(inv: Inventory, camera: nat, seqNo: nat)
    requires Shaped(inv) && 1 <= camera < 7 && FIRST_SEQ <= seqNo < END_SEQ
    ensures var rest := MissingFrom(inv, camera, seqNo + 1);
      forall i :: 0 <= i < |rest| ==> After((camera, seqNo), rest[i])
  {
    hide Cell, MissingFrom;
    var rest := MissingFrom(inv, camera, seqNo + 1);
    forall i | 0 <= i < |rest|
      ensures After((camera, seqNo), rest[i])
    {
      assert (rest[i].0, rest[i].1) in rest;
    }
  }

  lemma OneInFront(first: (nat, nat), rest: seq<(nat, nat)>)
    requires PairsAscend(rest) && forall i :: 0 <= i < |rest| ==> After(first, rest[i])
    ensures PairsAscend([first] + rest)
  {
    var all := [first] + rest;
    forall i, j | 0 <= i < j < |all|
      ensures After(all[i], all[j])
    {
      assert all[j] == rest[j - 1];
      if i > 0 {
        assert all[i] == rest[i - 1];
      }
    }
  }

  ghost predicate IsAscending(s: seq<nat>) {
    forall i, j :: 0 <= i < j < |s| ==> s[i] < s[j]
  }

  /** What the coverage says, in terms of the entries: the numbers that occur, the
      target numbers that do not, and the pairs of camera and target number without an
      artifact, each list in ascending order. */
  lemma CoverageIs(es: seq<Entry>, x: nat, camera: nat)
    requires AllProper(es)
    ensures var c := CoverageOf(Tally(es), SeqNos(es));
      && IsAscending(c.present) && IsAscending(c.missing) && PairsAscend(c.missingPairs)
      && (x in c.present <==> exists i :: 0 <= i < |es| && es[i].seqNo == x)
      && (x in c.missing <==> 1893700 <= x < 1893711 && forall i :: 0 <= i < |es| ==> es[i].seqNo != x)
      && ((camera, x) in c.missingPairs <==>
            && 1 <= camera <= 6 && 1893700 <= x < 1893711
            && forall i :: 0 <= i < |es| ==> es[i].camera != camera || es[i].seqNo != x)
  {
    hide Tally, Cell, MissingFrom;
    MissingAscend(Tally(es), 1, FIRST_SEQ);
    if 1 <= camera <= 6 && IsTarget(x) {
      CellEmpty(es, camera, x);
    }
    assert x in AllTargets() <==> 1893700 <= x < 1893711 by {
      if 1893700 <= x < 1893711 {
        assert AllTargets()[x - 1893700] == x;
      }
    }
    if exists i :: 0 <= i < |es| && es[i].seqNo == x {
      var i :| 0 <= i < |es| && es[i].seqNo == x;
      assert Proper(es[i]);
    }
  }

  // ---------------------------------------------------------------- the stager

  /** The artifact was put where its metadata says, under file name `file`. */
  predicate PutAt(a: Artifact, e: Entry, file: string) {
    Proper(e) && NoSlash(file) && a == Artifact(e.camera, e.seqNo, RelativePath(e, file))
  }

  predicate AllPut(artifacts: seq<Artifact>, es: seq<Entry>, files: seq<string>) {
    |artifacts| == |es| == |files| && forall i :: 0 <= i < |es| ==> PutAt(artifacts[i], es[i], files[i])
  }

  lemma KindFromPath(e: Entry, file: string)
    requires NoSlash(file)
    ensures var parts := Parts(RelativePath(e, file));
      |parts| == 5 && KindNamed(parts[|parts| - 2]) == Some(e.kind)
  {
    PathParts(e, file);
  }

  /** Counting while extracting: the camera and number come from the metadata, the
      kind from the last directory of the path. */
  method StageInventory(artifacts: seq<Artifact>, ghost es: seq<Entry>, ghost files: seq<string>) returns (inv: Inventory)
    requires AllPut(artifacts, es, files)
    ensures AllProper(es) && inv == SortCameras(Tally(es))
  {
    hide RelativePath, Parts, Tally, EmptyInventory, NoSlash;
    inv := EmptyInventory();
    TallyNothing(es[..0]);
    for i := 0 to |artifacts|
      invariant AllProper(es[..i]) && inv == Tally(es[..i])
    {
      var a := artifacts[i];
      assert PutAt(a, es[i], files[i]);
      KindFromPath(es[i], files[i]);
      var parts := Parts(a.path);
      var kind := KindNamed(parts[|parts| - 2]).value;
      TallyOne(es, i);
      inv := AddEntry(inv, Entry(a.camera, a.seqNo, kind));
    }
    assert es[..|es|] == es;
    inv := SortCameras(inv);
  }

  lemma TallyNothing(es: seq<Entry>)
    requires es == []
    ensures Tally(es) == EmptyInventory()
  {
  }

  lemma TallyOne(es: seq<Entry>, i: nat)
    requires i < |es| && AllProper(es[..i]) && Proper(es[i])
    ensures AllProper(es[..i + 1]) && Tally(es[..i + 1]) == AddEntry(Tally(es[..i]), es[i])
  {
    assert es[..i + 1][..i] == es[..i];
  }

  // ---------------------------------------------------------------- the verifier

  /** The path says the same camera and number as the artifact. */
  predicate Consistent(a: Artifact) {
    var e := ParsePath(a.path);
    e.Some? && e.value.camera == a.camera && e.value.seqNo == a.seqNo
  }

  predicate AllConsistent(artifacts: seq<Artifact>) {
    forall i :: 0 <= i < |artifacts| ==> Consistent(artifacts[i])
  }

  function Entries(artifacts: seq<Artifact>): (es: seq<Entry>)
    requires AllConsistent(artifacts)
    ensures |es| == |artifacts| && AllProper(es)
    ensures forall i :: 0 <= i < |es| ==> Some(es[i]) == ParsePath(artifacts[i].path)
  {
    if artifacts == [] then []
    else
      var last := |artifacts| - 1;
      assert Consistent(artifacts[last]);
      Entries(artifacts[..last]) + [ParsePath(artifacts[last].path).value]
  }

  /** Counting again from the paths; an inconsistent path is an error. */
  method DeriveInventory(artifacts: seq<Artifact>) returns (r: Option<Inventory>)
    ensures r.Some? <==> AllConsistent(artifacts)
    ensures r.Some? ==> r.value == SortCameras(Tally(Entries(artifacts)))
  {
    hide ParsePath, Tally, EmptyInventory;
    var inv := EmptyInventory();
    TallyNothing(Entries(artifacts[..0]));
    for i := 0 to |artifacts|
      invariant AllConsistent(artifacts[..i]) && inv == Tally(Entries(artifacts[..i]))
    {
      var e := ParsePath(artifacts[i].path);
      if e.None? || e.value.camera != artifacts[i].camera || e.value.seqNo != artifacts[i].seqNo {
        assert !Consistent(artifacts[i]);
        return None;
      }
      EntriesOne(artifacts, i);
      inv := AddEntry(inv, e.value);
    }
    assert artifacts[..|artifacts|] == artifacts;
    r := Some(SortCameras(inv));
  }

  lemma EntriesOne(artifacts: seq<Artifact>, i: nat)
    requires i < |artifacts| && AllConsistent(artifacts[..i]) && Consistent(artifacts[i])
    ensures AllConsistent(artifacts[..i + 1]) && Proper(ParsePath(artifacts[i].path).value)
    ensures Tally(Entries(artifacts[..i + 1])) ==
            AddEntry(Tally(Entries(artifacts[..i])), ParsePath(artifacts[i].path).value)
  {
    var more, e := artifacts[..i + 1], ParsePath(artifacts[i].path).value;
    forall k | 0 <= k < |more|
      ensures Consistent(more[k])
    {
      if k < i {
        assert more[k] == artifacts[..i][k];
      }
    }
    assert more[..i] == artifacts[..i];
    assert Entries(more) == Entries(artifacts[..i]) + [e];
    assert Entries(more)[..i] == Entries(artifacts[..i]);
  }

  /** The verifier reads from the paths what the stager counted. */
  lemma FreshEntries(artifacts: seq<Artifact>, es: seq<Entry>, files: seq<string>)
    requires AllPut(artifacts, es, files)
    ensures AllConsistent(artifacts) && Entries(artifacts) == es
  {
    forall i | 0 <= i < |artifacts|
      ensures ParsePath(artifacts[i].path) == Some(es[i]) && Consistent(artifacts[i])
    {
      assert PutAt(artifacts[i], es[i], files[i]);
      ParseRelativePath(es[i], files[i]);
    }
  }

  // ---------------------------------------------------------------- a fresh batch

  function Present(artifacts: seq<Artifact>): set<nat> {
    set i | 0 <= i < |artifacts| :: artifacts[i].seqNo
  }

  /** The verifier's inventory, present numbers and coverage of a fresh batch are the
      stager's, and coverage is complete exactly when every camera has an artifact of
      every target number. */
  lemma FreshCoverage(artifacts: seq<Artifact>, es: seq<Entry>, files: seq<string>)
    requires AllPut(artifacts, es, files)
    ensures AllProper(es) && AllConsistent(artifacts)
    ensures var counted, derived := SortCameras(Tally(es)), SortCameras(Tally(Entries(artifacts)));
      && counted == derived
      && CoverageOf(counted, Present(artifacts)).present == Ascending(Present(artifacts), FIRST_SEQ)
      && (CoverageOf(counted, Present(artifacts)).complete <==> FullyCovered(es))
  {
    hide Tally, CoverageOf, FullyCovered, Entries, SortCameras, AllConsistent, AllPut, Present, SeqNos, Shaped, AllProper;
    FreshEntries(artifacts, es, files);
    PutProperly(artifacts, es, files);
    SortingKeepsCoverage(Tally(es), SeqNos(es));
    CompleteIff(es);
    CoveragePresent(SortCameras(Tally(es)), SeqNos(es));
  }

  lemma CoveragePresent(inv: Inventory, present: set<nat>)
    requires Shaped(inv)
    ensures CoverageOf(inv, present).present == Ascending(present, FIRST_SEQ)
  {
  }

  lemma PutProperly(artifacts: seq<Artifact>, es: seq<Entry>, files: seq<string>)
    requires AllPut(artifacts, es, files)
    ensures AllProper(es) && Present(artifacts) == SeqNos(es)
  {
    forall i | 0 <= i < |es|
      ensures artifacts[i].seqNo == es[i].seqNo && Proper(es[i])
    {
      assert PutAt(artifacts[i], es[i], files[i]);
    }
  }

  lemma SortingKeepsCoverage(inv: Inventory, present: set<nat>)
    requires Shaped(inv)
    ensures Shaped(SortCameras(inv)) && CoverageOf(SortCameras(inv), present) == CoverageOf(inv, present)
  {
    SortingKeepsMissing(inv, 1, FIRST_SEQ);
  }

  lemma CellSorted(inv: Inventory, camera: nat, seqNo: nat)
    requires Shaped(inv) && 1 <= camera <= 6 && IsTarget(seqNo)
    ensures Cell(SortCameras(inv), camera, seqNo) == Cell(inv, camera, seqNo)
  {
  }

  lemma {:induction false} SortingKeepsMissing(inv: Inventory, camera: nat, seqNo: nat)
    requires Shaped(inv) && Shaped(SortCameras(inv)) && 1 <= camera <= 7 && FIRST_SEQ <= seqNo <= END_SEQ
    ensures MissingFrom(SortCameras(inv), camera, seqNo) == MissingFrom(inv, camera, seqNo)
    decreases 7 - camera, END_SEQ - seqNo
  {
    hide SortCameras, Cell;
    if camera < 7 {
      if seqNo == END_SEQ {
        SortingKeepsMissing(inv, camera + 1, FIRST_SEQ);
      } else {
        CellSorted(inv, camera, seqNo);
        SortingKeepsMissing(inv, camera, seqNo + 1);
      }
    }
  }
}
