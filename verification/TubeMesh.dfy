/** The triangles of the tube surface: quads between neighbouring rows, columns
    wrapping round, two triangles per quad that is not skipped. */
module TubeMesh {

  /** rows x cols vertices; `valid` per vertex, `edge` the distance of two
      vertices, maxEdge the longest edge kept (no limit when it is not positive). */
  datatype Surface = Surface(rows: nat, cols: nat, valid: seq<bool>, edge: (int, int) -> real, maxEdge: real)

  predicate Shaped(s: Surface) {
    s.cols > 0 && |s.valid| == s.rows * s.cols
  }

  /** A vertex by its place on the tube. */
  datatype Vertex = Vertex(row: int, col: int)

  function Id(cols: nat, v: Vertex): int {
    v.row * cols + v.col
  }

  function Right(cols: nat, col: int): int
    requires cols > 0
  {
    (col + 1) % cols
  }

  predicate InTube(rows: nat, cols: nat, v: Vertex) {
    0 <= v.row < rows && 0 <= v.col < cols
  }

  predicate IsQuad(rows: nat, cols: nat, q: Vertex) {
    0 <= q.row < rows - 1 && 0 <= q.col < cols
  }

  /** The corners of the quad with upper left corner q: a b above, c d below. */
  function A(q: Vertex): Vertex { q }
  function B(cols: nat, q: Vertex): Vertex requires cols > 0 { Vertex(q.row, Right(cols, q.col)) }
  function C(q: Vertex): Vertex { Vertex(q.row + 1, q.col) }
  function D(cols: nat, q: Vertex): Vertex requires cols > 0 { Vertex(q.row + 1, Right(cols, q.col)) }

  lemma RightIs(cols: nat, col: int)
    requires 0 <= col < cols
    ensures Right(cols, col) == if col == cols - 1 then 0 else col + 1
  {
  }

  lemma IdBounds(rows: nat, cols: nat, v: Vertex)
    requires InTube(rows, cols, v)
    ensures 0 <= Id(cols, v) < rows * cols
    ensures Id(cols, v) / cols == v.row && Id(cols, v) % cols == v.col
  {
    MulMonotone(v.row, rows - 1, cols);
    assert (rows - 1) * cols + cols == rows * cols;
    DivideBack(v.row, cols, v.col);
  }

  lemma MulMonotone(x: int, y: int, n: nat)
    requires x <= y
    ensures x * n <= y * n
  {
  }

  lemma DivideBack(row: nat, cols: nat, col: nat)
    requires col < cols
    ensures (row * cols + col) / cols == row && (row * cols + col) % cols == col
  {
    var n := row * cols + col;
    assert n == (n / cols) * cols + n % cols;
    var d := n / cols - row;
    assert d * cols == col - n % cols;
    if d >= 1 {
      MulMonotone(1, d, cols);
    }
    if d <= -1 {
      MulMonotone(d, -1, cols);
    }
  }

  /** Different vertices have different numbers. */
  lemma IdInjective(rows: nat, cols: nat, v: Vertex, w: Vertex)
    requires InTube(rows, cols, v) && InTube(rows, cols, w) && Id(cols, v) == Id(cols, w)
    ensures v == w
  {
    IdBounds(rows, cols, v);
    IdBounds(rows, cols, w);
  }

  // ---------------------------------------------------------------- quads kept and skipped

  datatype Fate = Kept | Invalid | Gap

  predicate AllValid(s: Surface, a: int, b: int, c: int, d: int)
    requires Shaped(s)
    requires 0 <= a < |s.valid| && 0 <= b < |s.valid| && 0 <= c < |s.valid| && 0 <= d < |s.valid|
  {
    s.valid[a] && s.valid[b] && s.valid[c] && s.valid[d]
  }

  /** The test of one quad by its vertex numbers. */
  function FateOf(s: Surface, a: int, b: int, c: int, d: int): Fate
    requires Shaped(s)
    requires 0 <= a < |s.valid| && 0 <= b < |s.valid| && 0 <= c < |s.valid| && 0 <= d < |s.valid|
  {
    if !AllValid(s, a, b, c, d) then Invalid
    else if s.maxEdge <= 0.0 then Kept
    else if s.edge(a, b) > s.maxEdge || s.edge(a, c) > s.maxEdge || s.edge(b, d) > s.maxEdge
         || s.edge(c, d) > s.maxEdge || s.edge(b, c) > s.maxEdge then Gap
    else Kept
  }

  function QuadFate(s: Surface, q: Vertex): Fate
    requires Shaped(s) && IsQuad(s.rows, s.cols, q)
  {
    CornersInRange(s, q);
    FateOf(s, Id(s.cols, A(q)), Id(s.cols, B(s.cols, q)), Id(s.cols, C(q)), Id(s.cols, D(s.cols, q)))
  }

  lemma CornersInRange(s: Surface, q: Vertex)
    requires Shaped(s) && IsQuad(s.rows, s.cols, q)
    ensures forall v :: v in {A(q), B(s.cols, q), C(q), D(s.cols, q)} ==>
      InTube(s.rows, s.cols, v) && 0 <= Id(s.cols, v) < |s.valid|
  {
    RightIs(s.cols, q.col);
    IdBounds(s.rows, s.cols, A(q));
    IdBounds(s.rows, s.cols, B(s.cols, q));
    IdBounds(s.rows, s.cols, C(q));
    IdBounds(s.rows, s.cols, D(s.cols, q));
  }

  function QuadCount(rows: nat, cols: nat): nat {
    if rows == 0 then 0 else (rows - 1) * cols
  }

  /** Quad number n in the order of the loops. */
  function QuadAt(cols: nat, n: nat): Vertex
    requires cols > 0
  {
    Vertex(n / cols, n % cols)
  }

  lemma QuadAtIs(rows: nat, cols: nat, n: nat)
    requires cols > 0 && n < QuadCount(rows, cols)
    ensures IsQuad(rows, cols, QuadAt(cols, n)) && Id(cols, QuadAt(cols, n)) == n
  {
    var row := n / cols;
    assert n == row * cols + n % cols;
    if row >= rows - 1 {
      MulMonotone(rows - 1, row, cols);
    }
  }

  /** The kept quads among the first n. */
  function KeptQuads(s: Surface, n: nat): seq<Vertex>
    requires Shaped(s) && n <= QuadCount(s.rows, s.cols)
  {
    if n == 0 then []
    else
      QuadAtIs(s.rows, s.cols, n - 1);
      var q := QuadAt(s.cols, n - 1);
      KeptQuads(s, n - 1) + if QuadFate(s, q).Kept? then [q] else []
  }

  function CountFate(s: Surface, n: nat, f: Fate): nat
    requires Shaped(s) && n <= QuadCount(s.rows, s.cols)
  {
    if n == 0 then 0
    else
      QuadAtIs(s.rows, s.cols, n - 1);
      CountFate(s, n - 1, f) + if QuadFate(s, QuadAt(s.cols, n - 1)) == f then 1 else 0
  }

  /** The two triangles of a quad, a c b and b c d. */
  function QuadIndices(cols: nat, q: Vertex): seq<int>
    requires cols > 0
  {
    var a, b, c, d := Id(cols, A(q)), Id(cols, B(cols, q)), Id(cols, C(q)), Id(cols, D(cols, q));
    [a, c, b, b, c, d]
  }

  function Indices(cols: nat, quads: seq<Vertex>): (r: seq<int>)
    requires cols > 0
    ensures |r| == 6 * |quads| && |r| % 3 == 0
  {
    if quads == [] then [] else Indices(cols, quads[..|quads| - 1]) + QuadIndices(cols, quads[|quads| - 1])
  }

  // ---------------------------------------------------------------- directed edges

  /** Corner `slot` of a quad's six indices, 0 1 2 and 3 4 5 being triangles. */
  function Corner(cols: nat, q: Vertex, slot: nat): Vertex
    requires cols > 0 && slot < 6
  {
    match slot
    case 0 => A(q)
    case 1 => C(q)
    case 2 => B(cols, q)
    case 3 => B(cols, q)
    case 4 => C(q)
    case _ => D(cols, q)
  }

  /** The next corner of the same triangle. */
  function Next(slot: nat): (n: nat)
    ensures slot < 6 ==> n < 6
  {
    if slot % 3 == 2 then slot - 2 else slot + 1
  }

  function Edge(cols: nat, q: Vertex, slot: nat): (Vertex, Vertex)
    requires cols > 0 && slot < 6
  {
    (Corner(cols, q, slot), Corner(cols, q, Next(slot)))
  }

  /** With three or more columns a directed edge names its quad and corner. */
  lemma EdgeUnique(rows: nat, cols: nat, p: Vertex, i: nat, q: Vertex, j: nat)
    requires cols >= 3 && IsQuad(rows, cols, p) && IsQuad(rows, cols, q) && i < 6 && j < 6
    requires Edge(cols, p, i) == Edge(cols, q, j)
    ensures p == q && i == j
  {
    RightIs(cols, p.col);
    RightIs(cols, q.col);
  }

  /** With two columns a row edge belongs to two quads: the quad below and beside
      uses it in the same direction. */
  function Twin(q: Vertex): Vertex {
    Vertex(q.row + 1, 1 - q.col)
  }

  lemma TwoColumns(rows: nat, p: Vertex, i: nat, q: Vertex, j: nat)
    requires IsQuad(rows, 2, p) && IsQuad(rows, 2, q) && i < 6 && j < 6
    ensures Edge(2, p, i) == Edge(2, q, j) <==>
      (p == q && i == j) || (q == Twin(p) && i == 4 && j == 2) || (p == Twin(q) && i == 2 && j == 4)
  {
    RightIs(2, p.col);
    RightIs(2, q.col);
  }

  function Left(cols: nat, col: int): int {
    if col == 0 then cols - 1 else col - 1
  }

  /** The quad and corner on the other side of an edge. */
  function Across(cols: nat, q: Vertex, slot: nat): (r: (Vertex, nat))
    requires cols > 0 && slot < 6
    ensures r.1 < 6
  {
    match slot
    case 0 => (Vertex(q.row, Left(cols, q.col)), 5)
    case 1 => (q, 3)
    case 2 => (Vertex(q.row - 1, q.col), 4)
    case 3 => (q, 1)
    case 4 => (Vertex(q.row + 1, q.col), 2)
    case _ => (Vertex(q.row, Right(cols, q.col)), 0)
  }

  function Reversed(e: (Vertex, Vertex)): (Vertex, Vertex) {
    (e.1, e.0)
  }

  /** The quad across runs through the shared edge the other way. */
  lemma AcrossReverses(rows: nat, cols: nat, q: Vertex, slot: nat)
    requires cols > 0 && IsQuad(rows, cols, q) && slot < 6
    ensures var (p, i) := Across(cols, q, slot); Edge(cols, p, i) == Reversed(Edge(cols, q, slot))
  {
    RightIs(cols, q.col);
    RightIs(cols, Left(cols, q.col));
  }

  // ---------------------------------------------------------------- the index list

  lemma {:induction false} IndicesAt(cols: nat, quads: seq<Vertex>, k: nat, slot: nat)
    requires cols > 0 && k < |quads| && slot < 6
    ensures Indices(cols, quads)[6 * k + slot] == Id(cols, Corner(cols, quads[k], slot))
    decreases |quads|
  {
    if k < |quads| - 1 {
      IndicesAt(cols, quads[..|quads| - 1], k, slot);
    }
  }

  /** The directed edge that starts at position e of the index list. */
  function EdgeAt(indices: seq<int>, e: nat): (int, int)
    requires e < |indices| && |indices| % 3 == 0
  {
    (indices[e], indices[if e % 3 == 2 then e - 2 else e + 1])
  }

  lemma EdgeAtIs(cols: nat, quads: seq<Vertex>, k: nat, slot: nat)
    requires cols > 0 && k < |quads| && slot < 6
    ensures EdgeAt(Indices(cols, quads), 6 * k + slot) ==
            (Id(cols, Edge(cols, quads[k], slot).0), Id(cols, Edge(cols, quads[k], slot).1))
  {
    hide Indices, Corner, Id, Next;
    IndicesAt(cols, quads, k, slot);
    IndicesAt(cols, quads, k, Next(slot));
    NextPosition(k, slot);
  }

  lemma NextPosition(k: nat, slot: nat)
    requires slot < 6
    ensures 6 * k + Next(slot) == if (6 * k + slot) % 3 == 2 then 6 * k + slot - 2 else 6 * k + slot + 1
  {
    if slot < 3 {
      PlaceInThree(2 * k, slot);
    } else {
      PlaceInThree(2 * k + 1, slot - 3);
    }
  }

  lemma PlaceInThree(n: nat, r: nat)
    requires r < 3
    ensures (3 * n + r) % 3 == r
  {
  }

  predicate ProperQuads(rows: nat, cols: nat, quads: seq<Vertex>) {
    && (forall k :: 0 <= k < |quads| ==> IsQuad(rows, cols, quads[k]))
    && (forall j, k :: 0 <= j < k < |quads| ==> quads[j] != quads[k])
  }

  lemma CornerInTube(rows: nat, cols: nat, q: Vertex, slot: nat)
    requires IsQuad(rows, cols, q) && slot < 6
    ensures InTube(rows, cols, Corner(cols, q, slot))
  {
    RightIs(cols, q.col);
  }

  lemma SameEdge(rows: nat, cols: nat, p: Vertex, i: nat, e: (Vertex, Vertex))
    requires IsQuad(rows, cols, p) && i < 6 && InTube(rows, cols, e.0) && InTube(rows, cols, e.1)
    requires (Id(cols, Edge(cols, p, i).0), Id(cols, Edge(cols, p, i).1)) == (Id(cols, e.0), Id(cols, e.1))
    ensures Edge(cols, p, i) == e
  {
    CornerInTube(rows, cols, p, i);
    CornerInTube(rows, cols, p, Next(i));
    IdInjective(rows, cols, Edge(cols, p, i).0, e.0);
    IdInjective(rows, cols, Edge(cols, p, i).1, e.1);
  }

  /** No directed edge occurs twice, whatever quads are kept. */
  lemma NoEdgeTwice(rows: nat, cols: nat, quads: seq<Vertex>, e: nat, f: nat)
    requires cols >= 3 && ProperQuads(rows, cols, quads)
    requires e < 6 * |quads| && f < 6 * |quads|
    requires EdgeAt(Indices(cols, quads), e) == EdgeAt(Indices(cols, quads), f)
    ensures e == f
  {
    hide Indices, Corner, Id, EdgeAt, InTube, Next;
    var j, k := e / 6, f / 6;
    EdgeAtIs(cols, quads, j, e % 6);
    EdgeAtIs(cols, quads, k, f % 6);
    CornerInTube(rows, cols, quads[k], f % 6);
    CornerInTube(rows, cols, quads[k], Next(f % 6));
    SameEdge(rows, cols, quads[j], e % 6, Edge(cols, quads[k], f % 6));
    EdgeUnique(rows, cols, quads[j], e % 6, quads[k], f % 6);
  }

  /** An edge is used in the other direction as well exactly when the quad across
      it is kept: kept neighbours agree on orientation, and the border of the mesh
      is the border of the kept quads. */
  lemma SharedEdges(rows: nat, cols: nat, quads: seq<Vertex>, k: nat, slot: nat)
    requires cols >= 3 && ProperQuads(rows, cols, quads) && k < |quads| && slot < 6
    ensures var (u, v) := EdgeAt(Indices(cols, quads), 6 * k + slot);
      (exists f :: 0 <= f < 6 * |quads| && EdgeAt(Indices(cols, quads), f) == (v, u))
      <==> Across(cols, quads[k], slot).0 in quads
  {
    var q := quads[k];
    var (p, i) := Across(cols, q, slot);
    var (u, v) := EdgeAt(Indices(cols, quads), 6 * k + slot);
    EdgeAtIs(cols, quads, k, slot);
    AcrossReverses(rows, cols, q, slot);
    if p in quads {
      var j :| 0 <= j < |quads| && quads[j] == p;
      EdgeAtIs(cols, quads, j, i);
      assert EdgeAt(Indices(cols, quads), 6 * j + i) == (v, u);
    }
    if f :| 0 <= f < 6 * |quads| && EdgeAt(Indices(cols, quads), f) == (v, u) {
      ReverseIsAcross(rows, cols, quads, k, slot, f);
    }
  }

  lemma ReverseIsAcross(rows: nat, cols: nat, quads: seq<Vertex>, k: nat, slot: nat, f: nat)
    requires cols >= 3 && ProperQuads(rows, cols, quads) && k < |quads| && slot < 6 && f < 6 * |quads|
    requires var e := EdgeAt(Indices(cols, quads), 6 * k + slot); EdgeAt(Indices(cols, quads), f) == (e.1, e.0)
    ensures quads[f / 6] == Across(cols, quads[k], slot).0
  {
    var q := quads[k];
    EdgeAtIs(cols, quads, k, slot);
    EdgeAtIs(cols, quads, f / 6, f % 6);
    AcrossReverses(rows, cols, q, slot);
    CornerInTube(rows, cols, q, slot);
    CornerInTube(rows, cols, q, Next(slot));
    SameEdge(rows, cols, quads[f / 6], f % 6, Reversed(Edge(cols, q, slot)));
    AcrossOrOutside(rows, cols, q, slot, quads[f / 6], f % 6);
  }

  /** Only the quad across can run through the edge the other way. */
  lemma AcrossOrOutside(rows: nat, cols: nat, q: Vertex, slot: nat, p: Vertex, i: nat)
    requires cols >= 3 && IsQuad(rows, cols, q) && IsQuad(rows, cols, p) && slot < 6 && i < 6
    requires Edge(cols, p, i) == Reversed(Edge(cols, q, slot))
    ensures (p, i) == Across(cols, q, slot)
  {
    RightIs(cols, p.col);
    RightIs(cols, q.col);
  }

  // ---------------------------------------------------------------- when edges repeat

  predicate DistinctEdges(indices: seq<int>)
    requires |indices| % 3 == 0
  {
    forall e, f :: 0 <= e < f < |indices| ==> EdgeAt(indices, e) != EdgeAt(indices, f)
  }

  /** The kept quads share no directed edge. */
  predicate Untwinned(cols: nat, quads: seq<Vertex>) {
    cols >= 3 || (cols == 2 && forall q :: q in quads ==> Twin(q) !in quads) || (cols == 1 && quads == [])
  }

  lemma EdgesApart(rows: nat, quads: seq<Vertex>, e: nat, f: nat)
    requires ProperQuads(rows, 2, quads) && Untwinned(2, quads)
    requires e < 6 * |quads| && f < 6 * |quads|
    requires EdgeAt(Indices(2, quads), e) == EdgeAt(Indices(2, quads), f)
    ensures e == f
  {
    hide Indices, Corner, Id, EdgeAt, Next, InTube, Twin;
    var p, q := quads[e / 6], quads[f / 6];
    EdgeAtIs(2, quads, e / 6, e % 6);
    EdgeAtIs(2, quads, f / 6, f % 6);
    CornerInTube(rows, 2, q, f % 6);
    CornerInTube(rows, 2, q, Next(f % 6));
    SameEdge(rows, 2, p, e % 6, Edge(2, q, f % 6));
    TwoColumns(rows, p, e % 6, q, f % 6);
    assert p in quads && q in quads;
  }

  /** One column: both triangles of a quad run from a to c. */
  lemma OneColumn(rows: nat, quads: seq<Vertex>)
    requires ProperQuads(rows, 1, quads) && quads != []
    ensures EdgeAt(Indices(1, quads), 0) == EdgeAt(Indices(1, quads), 3)
  {
    hide Indices, EdgeAt, Id;
    EdgeAtIs(1, quads, 0, 0);
    EdgeAtIs(1, quads, 0, 3);
    RightIs(1, 0);
    assert Edge(1, quads[0], 0) == Edge(1, quads[0], 3);
  }

  lemma TwinsRepeat(rows: nat, quads: seq<Vertex>, j: nat, k: nat)
    requires ProperQuads(rows, 2, quads) && j < |quads| && k < |quads| && quads[k] == Twin(quads[j])
    ensures j != k && EdgeAt(Indices(2, quads), 6 * j + 4) == EdgeAt(Indices(2, quads), 6 * k + 2)
  {
    EdgeAtIs(2, quads, j, 4);
    EdgeAtIs(2, quads, k, 2);
    TwoColumns(rows, quads[j], 4, quads[k], 2);
  }

  /** Exactly when a mesh repeats a directed edge. */
  lemma RepeatsIff(rows: nat, cols: nat, quads: seq<Vertex>)
    requires cols > 0 && ProperQuads(rows, cols, quads)
    ensures DistinctEdges(Indices(cols, quads)) <==> Untwinned(cols, quads)
  {
    hide Indices, EdgeAt, ProperQuads;
    var indices := Indices(cols, quads);
    if Untwinned(cols, quads) {
      forall e, f | 0 <= e < f < |indices|
        ensures EdgeAt(indices, e) != EdgeAt(indices, f)
      {
        if EdgeAt(indices, e) == EdgeAt(indices, f) {
          if cols >= 3 {
            NoEdgeTwice(rows, cols, quads, e, f);
          } else {
            EdgesApart(rows, quads, e, f);
          }
        }
      }
    } else if cols == 1 {
      OneColumn(rows, quads);
    } else {
      var q :| q in quads && Twin(q) in quads;
      var j :| 0 <= j < |quads| && quads[j] == q;
      var k :| 0 <= k < |quads| && quads[k] == Twin(q);
      TwinsRepeat(rows, quads, j, k);
      assert 6 * j + 4 < |indices| && 6 * k + 2 < |indices|;
    }
  }

  // ---------------------------------------------------------------- the loops

  /** The kept quads are quads, each once, all with a kept fate; nothing else is kept. */
  lemma {:induction false} KeptQuadsAre(s: Surface, n: nat)
    requires Shaped(s) && n <= QuadCount(s.rows, s.cols)
    ensures ProperQuads(s.rows, s.cols, KeptQuads(s, n))
    ensures forall q :: q in KeptQuads(s, n) <==>
      IsQuad(s.rows, s.cols, q) && Id(s.cols, q) < n && QuadFate(s, q).Kept?
  {
    hide Id, QuadAt, QuadFate, QuadCount, KeptQuads;
    if n == 0 {
      NoneKept(s);
    } else {
      KeptQuadsAre(s, n - 1);
      OneMoreKept(s, n - 1);
      var q := QuadAt(s.cols, n - 1);
      assert q !in KeptQuads(s, n - 1);
      forall p | IsQuad(s.rows, s.cols, p) && Id(s.cols, p) == n - 1
        ensures p == q
      {
        IdInjective(s.rows, s.cols, p, q);
      }
    }
  }

  lemma NoneKept(s: Surface)
    requires Shaped(s)
    ensures 0 <= QuadCount(s.rows, s.cols) && KeptQuads(s, 0) == []
    ensures forall q :: IsQuad(s.rows, s.cols, q) ==> Id(s.cols, q) >= 0
  {
    forall q | IsQuad(s.rows, s.cols, q)
      ensures Id(s.cols, q) >= 0
    {
      IdBounds(s.rows, s.cols, q);
    }
  }

  lemma OneMoreKept(s: Surface, n: nat)
    requires Shaped(s) && n < QuadCount(s.rows, s.cols)
    ensures var q := QuadAt(s.cols, n);
      && IsQuad(s.rows, s.cols, q) && Id(s.cols, q) == n
      && KeptQuads(s, n + 1) == KeptQuads(s, n) + if QuadFate(s, q).Kept? then [q] else []
  {
    hide Id, QuadAt, QuadFate, QuadCount;
    QuadAtIs(s.rows, s.cols, n);
  }

  /** Kept, invalid and gap quads add up to the candidates. */
  lemma {:induction false} FatesAddUp(s: Surface, n: nat)
    requires Shaped(s) && n <= QuadCount(s.rows, s.cols)
    ensures |KeptQuads(s, n)| + CountFate(s, n, Invalid) + CountFate(s, n, Gap) == n
  {
    if n > 0 {
      FatesAddUp(s, n - 1);
      QuadAtIs(s.rows, s.cols, n - 1);
    }
  }

  /** Every index is in range and names a valid vertex. */
  lemma IndicesValid(s: Surface, n: nat, e: nat)
    requires Shaped(s) && n <= QuadCount(s.rows, s.cols)
    requires e < |Indices(s.cols, KeptQuads(s, n))|
    ensures var x := Indices(s.cols, KeptQuads(s, n))[e]; 0 <= x < s.rows * s.cols && s.valid[x]
  {
    hide KeptQuads, Indices, QuadCount, QuadFate, Corner;
    var quads := KeptQuads(s, n);
    KeptQuadsAre(s, n);
    var q := quads[e / 6];
    assert q in quads;
    IndicesAt(s.cols, quads, e / 6, e % 6);
    KeptCorners(s, q, e % 6);
  }

  lemma KeptCorners(s: Surface, q: Vertex, slot: nat)
    requires Shaped(s) && IsQuad(s.rows, s.cols, q) && QuadFate(s, q).Kept? && slot < 6
    ensures 0 <= Id(s.cols, Corner(s.cols, q, slot)) < s.rows * s.cols
    ensures s.valid[Id(s.cols, Corner(s.cols, q, slot))]
  {
    CornersInRange(s, q);
  }

  /** Sizes at which no surface repeats a directed edge. */
  predicate NeverRepeats(rows: nat, cols: nat) {
    cols >= 3 || rows <= 1 || (cols == 2 && rows == 2)
  }

  function Quads(s: Surface): seq<Vertex>
    requires Shaped(s)
  {
    KeptQuads(s, QuadCount(s.rows, s.cols))
  }

  lemma SizeUntwins(s: Surface)
    requires Shaped(s) && NeverRepeats(s.rows, s.cols)
    ensures Untwinned(s.cols, Quads(s))
  {
    if s.rows > 1 {
      hide KeptQuads, QuadFate;
      KeptQuadsAre(s, QuadCount(s.rows, s.cols));
    }
  }

  /** All vertices valid and no limit on edges. */
  function FullSurface(rows: nat, cols: nat): Surface {
    Surface(rows, cols, seq(rows * cols, _ => true), (a, b) => 0.0, 0.0)
  }

  lemma FullKeeps(rows: nat, cols: nat, q: Vertex)
    requires cols > 0 && IsQuad(rows, cols, q)
    ensures Shaped(FullSurface(rows, cols)) && q in Quads(FullSurface(rows, cols))
  {
    hide KeptQuads;
    var s := FullSurface(rows, cols);
    OneMoreQuad(s, q);
    CornersInRange(s, q);
    KeptQuadsAre(s, QuadCount(rows, cols));
  }

  lemma FullTwins(rows: nat, cols: nat)
    requires cols > 0 && !NeverRepeats(rows, cols)
    ensures Shaped(FullSurface(rows, cols)) && !Untwinned(cols, Quads(FullSurface(rows, cols)))
  {
    hide KeptQuads, Quads;
    FullKeeps(rows, cols, Vertex(0, 0));
    if cols == 2 {
      FullKeeps(rows, cols, Twin(Vertex(0, 0)));
    }
  }

  /** No surface of a size gives a mesh that repeats a directed edge, exactly for
      three or more columns, fewer than two rows, or two by two. */
  lemma SizeIff(rows: nat, cols: nat)
    requires cols > 0
    ensures (forall s: Surface :: Shaped(s) && s.rows == rows && s.cols == cols ==> DistinctEdges(Indices(cols, Quads(s))))
            <==> NeverRepeats(rows, cols)
  {
    hide Quads, Indices, EdgeAt, DistinctEdges, ProperQuads, Untwinned;
    if NeverRepeats(rows, cols) {
      forall s: Surface | Shaped(s) && s.rows == rows && s.cols == cols
        ensures DistinctEdges(Indices(cols, Quads(s)))
      {
        SizeUntwins(s);
        QuadsProper(s);
        RepeatsIff(rows, cols, Quads(s));
      }
    } else {
      var s := FullSurface(rows, cols);
      FullTwins(rows, cols);
      QuadsProper(s);
      RepeatsIff(rows, cols, Quads(s));
    }
  }

  lemma QuadsProper(s: Surface)
    requires Shaped(s)
    ensures ProperQuads(s.rows, s.cols, Quads(s))
  {
    KeptQuadsAre(s, QuadCount(s.rows, s.cols));
  }

  datatype Mesh = Mesh(indices: seq<int>, candidate: nat, skippedInvalid: nat, skippedGap: nat)

  /** The mesh after the first n quads. */
  ghost predicate Built(s: Surface, n: nat, m: Mesh)
    requires Shaped(s)
  {
    && n <= QuadCount(s.rows, s.cols)
    && m.indices == Indices(s.cols, KeptQuads(s, n))
    && m.candidate == n
    && m.skippedInvalid == CountFate(s, n, Invalid)
    && m.skippedGap == CountFate(s, n, Gap)
  }

  method CanConnectQuad(s: Surface, m: Mesh, a: int, b: int, c: int, d: int) returns (ok: bool, m': Mesh)
    requires Shaped(s)
    requires 0 <= a < |s.valid| && 0 <= b < |s.valid| && 0 <= c < |s.valid| && 0 <= d < |s.valid|
    ensures ok <==> FateOf(s, a, b, c, d).Kept?
    ensures m' == Mesh(m.indices, m.candidate + 1,
                       m.skippedInvalid + (if FateOf(s, a, b, c, d).Invalid? then 1 else 0),
                       m.skippedGap + (if FateOf(s, a, b, c, d).Gap? then 1 else 0))
  {
    m' := m.(candidate := m.candidate + 1);
    if !(s.valid[a] && s.valid[b] && s.valid[c] && s.valid[d]) {
      return false, m'.(skippedInvalid := m.skippedInvalid + 1);
    }
    if s.maxEdge <= 0.0 {
      return true, m';
    }
    var lengths := [s.edge(a, b), s.edge(a, c), s.edge(b, d), s.edge(c, d), s.edge(b, c)];
    for i := 0 to 5
      invariant forall j :: 0 <= j < i ==> lengths[j] <= s.maxEdge
    {
      if lengths[i] > s.maxEdge {
        return false, m'.(skippedGap := m.skippedGap + 1);
      }
    }
    assert lengths[0] <= s.maxEdge && lengths[1] <= s.maxEdge && lengths[2] <= s.maxEdge;
    assert lengths[3] <= s.maxEdge && lengths[4] <= s.maxEdge;
    ok := true;
  }

  lemma OneMoreQuad(s: Surface, q: Vertex)
    requires Shaped(s) && IsQuad(s.rows, s.cols, q)
    ensures 0 <= Id(s.cols, q) < QuadCount(s.rows, s.cols) && QuadAt(s.cols, Id(s.cols, q)) == q
  {
    IdBounds(s.rows - 1, s.cols, q);
  }

  method AddQuad(s: Surface, m: Mesh, row: nat, col: nat) returns (m': Mesh)
    requires Shaped(s) && row + 1 < s.rows && col < s.cols
    requires Built(s, row * s.cols + col, m)
    ensures Built(s, row * s.cols + col + 1, m')
  {
    ghost var q := Vertex(row, col);
    hide FateOf, Indices, KeptQuads, CountFate;
    OneMoreQuad(s, q);
    CornersInRange(s, q);
    var base, nextBase := row * s.cols, (row + 1) * s.cols;
    var right := (col + 1) % s.cols;
    var a, b, c, d := base + col, base + right, nextBase + col, nextBase + right;
    assert (a, b, c, d) == (Id(s.cols, A(q)), Id(s.cols, B(s.cols, q)), Id(s.cols, C(q)), Id(s.cols, D(s.cols, q)));
    var ok;
    ok, m' := CanConnectQuad(s, m, a, b, c, d);
    assert FateOf(s, a, b, c, d) == QuadFate(s, q);
    if ok {
      m' := m'.(indices := m'.indices + [a, c, b, b, c, d]);
    }
    QuadBuilt(s, q, m, m');
  }

  /** The next quad, with its indices if it is kept, and its fate counted. */
  lemma QuadBuilt(s: Surface, q: Vertex, m: Mesh, m': Mesh)
    requires Shaped(s) && IsQuad(s.rows, s.cols, q) && Id(s.cols, q) >= 0 && Built(s, Id(s.cols, q), m)
    requires m' == Mesh(m.indices + (if QuadFate(s, q).Kept? then QuadIndices(s.cols, q) else []), m.candidate + 1,
                        m.skippedInvalid + (if QuadFate(s, q).Invalid? then 1 else 0),
                        m.skippedGap + (if QuadFate(s, q).Gap? then 1 else 0))
    ensures Built(s, Id(s.cols, q) + 1, m')
  {
    hide Id, QuadFate, QuadAt, QuadCount, QuadIndices;
    OneMoreQuad(s, q);
    OneMoreKept(s, Id(s.cols, q));
    var before := KeptQuads(s, Id(s.cols, q));
    assert before + [] == before && (before + [q])[..|before|] == before;
  }

  // ---------------------------------------------------------------- the mesh in plain numbers

  /** The four vertex numbers of the quad at row r and column c. */
  function Around(s: Surface, r: nat, c: nat): (int, int, int, int)
    requires s.cols > 0
  {
    var right := if c + 1 == s.cols then 0 else c + 1;
    (r * s.cols + c, r * s.cols + right, (r + 1) * s.cols + c, (r + 1) * s.cols + right)
  }

  /** All four vertices are valid. */
  ghost predicate Sound(s: Surface, r: nat, c: nat)
    requires Shaped(s) && r + 1 < s.rows && c < s.cols
  {
    var (x, y, z, w) := Around(s, r, c);
    forall v :: v in [x, y, z, w] ==> 0 <= v < |s.valid| && s.valid[v]
  }

  /** No limit, or the four sides and the diagonal between upper right and lower left are
      within it. */
  ghost predicate Short(s: Surface, r: nat, c: nat)
    requires Shaped(s)
  {
    var (x, y, z, w) := Around(s, r, c);
    s.maxEdge <= 0.0 || forall e :: e in [(x, y), (x, z), (y, w), (z, w), (y, z)] ==> s.edge(e.0, e.1) <= s.maxEdge
  }

  lemma AroundIs(s: Surface, r: nat, c: nat)
    requires Shaped(s) && r + 1 < s.rows && c < s.cols
    ensures var q := Vertex(r, c);
      && IsQuad(s.rows, s.cols, q)
      && Around(s, r, c) == (Id(s.cols, A(q)), Id(s.cols, B(s.cols, q)), Id(s.cols, C(q)), Id(s.cols, D(s.cols, q)))
  {
    RightIs(s.cols, c);
  }

  lemma FateIs(s: Surface, x: int, y: int, z: int, w: int)
    requires Shaped(s)
    requires 0 <= x < |s.valid| && 0 <= y < |s.valid| && 0 <= z < |s.valid| && 0 <= w < |s.valid|
    ensures var sound := forall v :: v in [x, y, z, w] ==> 0 <= v < |s.valid| && s.valid[v];
      var short := s.maxEdge <= 0.0 || forall e :: e in [(x, y), (x, z), (y, w), (z, w), (y, z)] ==> s.edge(e.0, e.1) <= s.maxEdge;
      FateOf(s, x, y, z, w) == if !sound then Invalid else if short then Kept else Gap
  {
    var corners, edges := [x, y, z, w], [(x, y), (x, z), (y, w), (z, w), (y, z)];
    assert corners[0] in corners && corners[1] in corners && corners[2] in corners && corners[3] in corners;
    assert edges[0] in edges && edges[1] in edges && edges[2] in edges && edges[3] in edges && edges[4] in edges;
  }

  /** What becomes of a quad, by its place. */
  lemma QuadFateIs(s: Surface, r: nat, c: nat)
    requires Shaped(s) && r + 1 < s.rows && c < s.cols
    ensures IsQuad(s.rows, s.cols, Vertex(r, c))
    ensures QuadFate(s, Vertex(r, c)) == if !Sound(s, r, c) then Invalid else if Short(s, r, c) then Kept else Gap
  {
    hide Id, FateOf, Around;
    AroundIs(s, r, c);
    CornersInRange(s, Vertex(r, c));
    var (x, y, z, w) := Around(s, r, c);
    FateIs(s, x, y, z, w);
  }

  /** The six indices of the quad at row r and column c: two triangles that share the
      diagonal. */
  function Block(s: Surface, r: nat, c: nat): seq<int>
    requires s.cols > 0
  {
    var (x, y, z, w) := Around(s, r, c);
    [x, z, y, y, z, w]
  }

  /** The k-th six indices of a mesh. */
  function BlockAt(indices: seq<int>, k: nat): seq<int>
    requires 6 * k + 6 <= |indices|
  {
    indices[6 * k..6 * k + 6]
  }

  lemma {:induction false} BlockIs(s: Surface, quads: seq<Vertex>, k: nat)
    requires s.cols > 0 && k < |quads|
    ensures BlockAt(Indices(s.cols, quads), k) == QuadIndices(s.cols, quads[k])
    decreases |quads|
  {
    hide QuadIndices;
    var last := |quads| - 1;
    QuadHasSix(s.cols, quads[last]);
    if k < last {
      BlockIs(s, quads[..last], k);
      assert Indices(s.cols, quads)[6 * k..6 * k + 6] == Indices(s.cols, quads[..last])[6 * k..6 * k + 6];
    }
  }

  lemma QuadHasSix(cols: nat, q: Vertex)
    requires cols > 0
    ensures |QuadIndices(cols, q)| == 6
  {
  }

  /** The quads of a mesh come row by row and column by column. */
  ghost predicate InRowOrder(quads: seq<Vertex>) {
    forall j, k :: 0 <= j < k < |quads| ==>
      quads[j].row < quads[k].row || (quads[j].row == quads[k].row && quads[j].col < quads[k].col)
  }

  lemma RowOrder(rows: nat, cols: nat, p: Vertex, q: Vertex)
    requires IsQuad(rows, cols, p) && IsQuad(rows, cols, q) && Id(cols, p) < Id(cols, q)
    ensures p.row < q.row || (p.row == q.row && p.col < q.col)
  {
    assert (q.row + 1) * cols == q.row * cols + cols;
    if p.row > q.row {
      MulMonotone(q.row + 1, p.row, cols);
    }
  }

  lemma {:induction false} KeptInOrder(s: Surface, n: nat)
    requires Shaped(s) && n <= QuadCount(s.rows, s.cols)
    ensures InRowOrder(KeptQuads(s, n))
  {
    hide Id, QuadAt, QuadFate, QuadCount, KeptQuads;
    if n == 0 {
      NoneKept(s);
    } else {
      KeptInOrder(s, n - 1);
      KeptQuadsAre(s, n - 1);
      OneMoreKept(s, n - 1);
      var q, before := QuadAt(s.cols, n - 1), KeptQuads(s, n - 1);
      forall j | 0 <= j < |before|
        ensures before[j].row < q.row || (before[j].row == q.row && before[j].col < q.col)
      {
        assert before[j] in before;
        RowOrder(s.rows, s.cols, before[j], q);
      }
    }
  }

  /** The places of the quads with a given fate. */
  ghost function Places(s: Surface, f: Fate): set<(int, int)>
    requires Shaped(s)
  {
    set r, c | 0 <= r < s.rows - 1 && 0 <= c < s.cols
      && f == (if !Sound(s, r, c) then Invalid else if Short(s, r, c) then Kept else Gap) :: (r, c)
  }

  ghost function PlacesUpTo(s: Surface, n: nat, f: Fate): set<(int, int)>
    requires Shaped(s)
  {
    set r, c | 0 <= r < s.rows - 1 && 0 <= c < s.cols && Id(s.cols, Vertex(r, c)) < n
      && QuadFate(s, Vertex(r, c)) == f :: (r, c)
  }

  lemma {:induction false} FatesCounted(s: Surface, n: nat, f: Fate)
    requires Shaped(s) && n <= QuadCount(s.rows, s.cols)
    ensures |PlacesUpTo(s, n, f)| == CountFate(s, n, f)
  {
    hide Id, QuadAt, QuadFate, QuadCount;
    if n == 0 {
      NoneKept(s);
      assert PlacesUpTo(s, 0, f) == {};
    } else {
      FatesCounted(s, n - 1, f);
      OneMorePlace(s, n - 1, f);
    }
  }

  lemma OneMorePlace(s: Surface, n: nat, f: Fate)
    requires Shaped(s) && n < QuadCount(s.rows, s.cols)
    ensures IsQuad(s.rows, s.cols, QuadAt(s.cols, n))
    ensures |PlacesUpTo(s, n + 1, f)| == |PlacesUpTo(s, n, f)| + if QuadFate(s, QuadAt(s.cols, n)) == f then 1 else 0
  {
    hide Id, QuadAt, QuadFate, QuadCount;
    QuadAtIs(s.rows, s.cols, n);
    var q := QuadAt(s.cols, n);
    var a, b := PlacesUpTo(s, n, f), PlacesUpTo(s, n + 1, f);
    assert q == Vertex(q.row, q.col);
    forall x: (int, int)
      ensures x in b <==> x in a || (QuadFate(s, q) == f && x == (q.row, q.col))
      ensures x == (q.row, q.col) ==> x !in a
    {
      if IsQuad(s.rows, s.cols, Vertex(x.0, x.1)) && Id(s.cols, Vertex(x.0, x.1)) == n {
        IdInjective(s.rows, s.cols, Vertex(x.0, x.1), q);
      }
    }
    AddOne(a, b, (q.row, q.col), QuadFate(s, q) == f);
  }

  lemma AddOne(a: set<(int, int)>, b: set<(int, int)>, x: (int, int), there: bool)
    requires x !in a && forall y :: y in b <==> y in a || (there && y == x)
    ensures |b| == |a| + if there then 1 else 0
  {
    assert b == if there then a + {x} else a;
  }

  lemma AllPlaces(s: Surface, f: Fate)
    requires Shaped(s)
    ensures PlacesUpTo(s, QuadCount(s.rows, s.cols), f) == Places(s, f)
  {
    hide Id, QuadFate, QuadCount, Sound, Short;
    forall r, c | 0 <= r < s.rows - 1 && 0 <= c < s.cols
      ensures (r, c) in PlacesUpTo(s, QuadCount(s.rows, s.cols), f) <==> (r, c) in Places(s, f)
    {
      OneMoreQuad(s, Vertex(r, c));
      QuadFateIs(s, r, c);
    }
  }

  /** What a mesh of a surface is, in plain numbers: the k-th six indices belong to the
      k-th sound and short quad, row by row; the two counters are the numbers of quads
      with an invalid vertex, and of the others that are not short. */
  ghost predicate IsMeshOf(s: Surface, m: Mesh)
    requires Shaped(s)
  {
    exists places: seq<(nat, nat)> ::
      && |m.indices| == 6 * |places|
      && (forall k :: 0 <= k < |places| ==>
            places[k].0 + 1 < s.rows && places[k].1 < s.cols && BlockAt(m.indices, k) == Block(s, places[k].0, places[k].1))
      && (forall j, k :: 0 <= j < k < |places| ==>
            places[j].0 < places[k].0 || (places[j].0 == places[k].0 && places[j].1 < places[k].1))
      && (forall r: nat, c: nat :: r + 1 < s.rows && c < s.cols ==> ((r, c) in places <==> Sound(s, r, c) && Short(s, r, c)))
      && m.skippedInvalid == |Places(s, Invalid)| && m.skippedGap == |Places(s, Gap)|
  }

  ghost function PlacesOf(quads: seq<Vertex>): (places: seq<(nat, nat)>)
    requires forall q :: q in quads ==> q.row >= 0 && q.col >= 0
    ensures |places| == |quads| && forall k :: 0 <= k < |quads| ==> places[k] == (quads[k].row, quads[k].col)
  {
    seq(|quads|, k requires 0 <= k < |quads| => assert quads[k] in quads; (quads[k].row, quads[k].col))
  }

  lemma MeshIs(s: Surface, m: Mesh)
    requires Shaped(s) && Built(s, QuadCount(s.rows, s.cols), m)
    ensures IsMeshOf(s, m)
  {
    hide Id, QuadFate, QuadCount, Sound, Short, KeptQuads, Indices, Places, PlacesUpTo, CountFate, Block, BlockAt, QuadIndices;
    var n := QuadCount(s.rows, s.cols);
    var quads := KeptQuads(s, n);
    KeptQuadsAre(s, n);
    KeptInOrder(s, n);
    var places := PlacesOf(quads);
    forall k | 0 <= k < |quads|
      ensures places[k].0 + 1 < s.rows && places[k].1 < s.cols
      ensures BlockAt(m.indices, k) == Block(s, places[k].0, places[k].1)
    {
      assert quads[k] in quads;
      BlockIs(s, quads, k);
      SameBlock(s, places[k].0, places[k].1);
      assert quads[k] == Vertex(places[k].0, places[k].1);
    }
    forall r: nat, c: nat | r + 1 < s.rows && c < s.cols
      ensures (r, c) in places <==> Sound(s, r, c) && Short(s, r, c)
    {
      OneMoreQuad(s, Vertex(r, c));
      QuadFateIs(s, r, c);
      PlaceOfQuad(quads, r, c);
    }
    FatesCounted(s, n, Invalid);
    FatesCounted(s, n, Gap);
    AllPlaces(s, Invalid);
    AllPlaces(s, Gap);
  }

  lemma PlaceOfQuad(quads: seq<Vertex>, r: nat, c: nat)
    requires forall q :: q in quads ==> q.row >= 0 && q.col >= 0
    ensures (r, c) in PlacesOf(quads) <==> Vertex(r, c) in quads
  {
    var places := PlacesOf(quads);
    if (r, c) in places {
      var k :| 0 <= k < |places| && places[k] == (r, c);
      assert quads[k] == Vertex(r, c);
    }
    if Vertex(r, c) in quads {
      var k :| 0 <= k < |quads| && quads[k] == Vertex(r, c);
      assert places[k] == (r, c);
    }
  }

  lemma SameBlock(s: Surface, r: nat, c: nat)
    requires Shaped(s) && r + 1 < s.rows && c < s.cols
    ensures QuadIndices(s.cols, Vertex(r, c)) == Block(s, r, c)
  {
    hide Id, Around;
    AroundIs(s, r, c);
  }

  /** Lengths do not depend on the direction. */
  ghost predicate Symmetric(s: Surface) {
    forall u, v :: s.edge(u, v) == s.edge(v, u)
  }

  /** With a limit, no edge of the mesh is longer than it. */
  lemma EdgesWithinLimit(s: Surface, m: Mesh, e: nat)
    requires Shaped(s) && Symmetric(s) && s.maxEdge > 0.0 && IsMeshOf(s, m) && e < |m.indices|
    ensures |m.indices| % 3 == 0 && var (u, v) := EdgeAt(m.indices, e); s.edge(u, v) <= s.maxEdge
  {
    hide IsMeshOf, Short, Block, EdgeAt;
    var k, slot := e / 6, e % 6;
    MeshSize(s, m);
    var r, c := BlockOf(s, m, k);
    EdgeInBlock(m.indices, k, slot);
    ShortEdges(s, r, c, slot);
  }

  lemma MeshSize(s: Surface, m: Mesh)
    requires Shaped(s) && IsMeshOf(s, m)
    ensures |m.indices| % 6 == 0
  {
    hide BlockAt, Block, Sound, Short, Places;
  }

  lemma BlockOf(s: Surface, m: Mesh, k: nat) returns (r: nat, c: nat)
    requires Shaped(s) && IsMeshOf(s, m) && 6 * k + 6 <= |m.indices|
    ensures r + 1 < s.rows && c < s.cols && Short(s, r, c) && BlockAt(m.indices, k) == Block(s, r, c)
  {
    hide BlockAt, Block, Sound, Short, Places;
    var places: seq<(nat, nat)> :|
      && |m.indices| == 6 * |places|
      && (forall k :: 0 <= k < |places| ==>
            places[k].0 + 1 < s.rows && places[k].1 < s.cols && BlockAt(m.indices, k) == Block(s, places[k].0, places[k].1))
      && (forall r: nat, c: nat :: r + 1 < s.rows && c < s.cols ==> ((r, c) in places <==> Sound(s, r, c) && Short(s, r, c)));
    r, c := places[k].0, places[k].1;
    assert (r, c) == places[k];
  }

  lemma EdgeInBlock(indices: seq<int>, k: nat, slot: nat)
    requires 6 * k + 6 <= |indices| && |indices| % 6 == 0 && slot < 6
    ensures |indices| % 3 == 0
    ensures EdgeAt(indices, 6 * k + slot) == (BlockAt(indices, k)[slot], BlockAt(indices, k)[Next(slot)])
  {
    hide Next;
    NextPosition(k, slot);
  }

  lemma ShortEdges(s: Surface, r: nat, c: nat, slot: nat)
    requires Shaped(s) && Symmetric(s) && s.maxEdge > 0.0 && Short(s, r, c) && slot < 6
    ensures s.edge(Block(s, r, c)[slot], Block(s, r, c)[Next(slot)]) <= s.maxEdge
  {
    var (x, y, z, w) := Around(s, r, c);
    var edges := [(x, y), (x, z), (y, w), (z, w), (y, z)];
    assert edges[0] in edges && edges[1] in edges && edges[2] in edges && edges[3] in edges && edges[4] in edges;
  }

  method BuildMesh(s: Surface) returns (m: Mesh)
    requires Shaped(s)
    ensures Built(s, QuadCount(s.rows, s.cols), m)
    ensures |m.indices| % 6 == 0
    ensures |m.indices| / 6 + m.skippedInvalid + m.skippedGap == m.candidate == QuadCount(s.rows, s.cols)
    ensures forall e :: 0 <= e < |m.indices| ==> 0 <= m.indices[e] < s.rows * s.cols && s.valid[m.indices[e]]
    ensures DistinctEdges(m.indices) <==> Untwinned(s.cols, Quads(s))
    ensures NeverRepeats(s.rows, s.cols) ==> DistinctEdges(m.indices)
    ensures IsMeshOf(s, m)
  {
    hide IsMeshOf;
    m := Mesh([], 0, 0, 0);
    assert Built(s, 0, m);
    hide Built, DistinctEdges, Untwinned;
    for row := 0 to if s.rows == 0 then 0 else s.rows - 1
      invariant Built(s, row * s.cols, m)
    {
      for col := 0 to s.cols
        invariant Built(s, row * s.cols + col, m)
      {
        m := AddQuad(s, m, row, col);
      }
      assert row * s.cols + s.cols == (row + 1) * s.cols;
    }
    assert Built(s, QuadCount(s.rows, s.cols), m);
    Summary(s, m);
    MeshIs(s, m);
  }

  lemma Summary(s: Surface, m: Mesh)
    requires Shaped(s) && Built(s, QuadCount(s.rows, s.cols), m)
    ensures |m.indices| % 6 == 0
    ensures |m.indices| / 6 + m.skippedInvalid + m.skippedGap == m.candidate == QuadCount(s.rows, s.cols)
    ensures forall e :: 0 <= e < |m.indices| ==> 0 <= m.indices[e] < s.rows * s.cols && s.valid[m.indices[e]]
    ensures DistinctEdges(m.indices) <==> Untwinned(s.cols, Quads(s))
    ensures NeverRepeats(s.rows, s.cols) ==> DistinctEdges(m.indices)
  {
    hide KeptQuads, Indices, QuadCount, CountFate, DistinctEdges, QuadFate, IsQuad, ProperQuads, Untwinned;
    var n := QuadCount(s.rows, s.cols);
    FatesAddUp(s, n);
    KeptQuadsAre(s, n);
    forall e | 0 <= e < |m.indices|
      ensures 0 <= m.indices[e] < s.rows * s.cols && s.valid[m.indices[e]]
    {
      IndicesValid(s, n, e);
    }
    RepeatsIff(s.rows, s.cols, Quads(s));
    if NeverRepeats(s.rows, s.cols) {
      SizeUntwins(s);
    }
  }
}
