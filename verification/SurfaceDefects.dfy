/** The component search of the surface defect detector.

    The mesh is a tube: columns wrap round, rows do not.  Candidate cells that
    touch, also across a corner, belong to one defect. */
module SurfaceDefects {

  datatype Cell = Cell(row: int, col: int)

  datatype Grid = Grid(rows: nat, cols: nat, candidate: seq<seq<bool>>)

  predicate Rectangular(g: Grid) {
    |g.candidate| == g.rows && forall r :: 0 <= r < g.rows ==> |g.candidate[r]| == g.cols
  }

  predicate Candidate(g: Grid, c: Cell)
    requires Rectangular(g)
  {
    0 <= c.row < g.rows && 0 <= c.col < g.cols && g.candidate[c.row][c.col]
  }

  // ---------------------------------------------------------------- touching and being joined

  function Step(g: Grid, c: Cell, dr: int, dc: int): Cell
    requires g.cols > 0
  {
    Cell(c.row + dr, (c.col + dc) % g.cols)
  }

  predicate Offset(dr: int, dc: int) {
    -1 <= dr <= 1 && -1 <= dc <= 1 && (dr != 0 || dc != 0)
  }

  /** Two candidate cells, the second an 8-neighbour of the first round the tube. */
  ghost predicate Touch(g: Grid, a: Cell, b: Cell)
    requires Rectangular(g)
  {
    && Candidate(g, a) && Candidate(g, b)
    && (exists dr, dc :: Offset(dr, dc) && b == Step(g, a, dr, dc))
  }

  ghost predicate IsPath(g: Grid, p: seq<Cell>)
    requires Rectangular(g)
  {
    && p != [] && Candidate(g, p[0])
    && (forall i :: 0 <= i < |p| - 1 ==> Touch(g, p[i], p[i + 1]))
  }

  ghost predicate Joins(g: Grid, a: Cell, b: Cell, p: seq<Cell>)
    requires Rectangular(g)
  {
    IsPath(g, p) && p[0] == a && p[|p| - 1] == b
  }

  ghost predicate Joined(g: Grid, a: Cell, b: Cell)
    requires Rectangular(g)
  {
    exists p :: Joins(g, a, b, p)
  }

  ghost function Candidates(g: Grid): set<Cell>
    requires Rectangular(g)
  {
    set r, c | 0 <= r < g.rows && 0 <= c < g.cols && g.candidate[r][c] :: Cell(r, c)
  }

  /** The cells joined to a. */
  ghost function Component(g: Grid, a: Cell): set<Cell>
    requires Rectangular(g)
  {
    set c | c in Candidates(g) && Joined(g, a, c)
  }

  lemma Wrapped(x: int, cols: int)
    requires 0 < cols && -1 <= x <= cols
    ensures x % cols == if x < 0 then cols - 1 else if x == cols then 0 else x
  {
    if x < 0 {
      assert x == -1 * cols + (cols - 1);
    }
  }

  lemma WrapBack(col: int, dc: int, cols: int)
    requires 0 <= col < cols && -1 <= dc <= 1
    ensures 0 <= (col + dc) % cols < cols
    ensures ((col + dc) % cols + -dc) % cols == col
  {
    Wrapped(col + dc, cols);
    Wrapped((col + dc) % cols - dc, cols);
  }

  lemma StepBack(g: Grid, a: Cell, dr: int, dc: int)
    requires 0 <= a.col < g.cols && -1 <= dc <= 1
    ensures Step(g, Step(g, a, dr, dc), -dr, -dc) == a
  {
    WrapBack(a.col, dc, g.cols);
  }

  lemma TouchSymmetric(g: Grid, a: Cell, b: Cell)
    requires Rectangular(g) && Touch(g, a, b)
    ensures Touch(g, b, a)
  {
    hide Step;
    var dr, dc :| Offset(dr, dc) && b == Step(g, a, dr, dc);
    StepBack(g, a, dr, dc);
    assert Offset(-dr, -dc) && a == Step(g, b, -dr, -dc);
  }

  /** A candidate by the numbers of its row and column. */
  predicate Marked(g: Grid, r: int, c: int)
    requires Rectangular(g)
  {
    0 <= r < g.rows && 0 <= c < g.cols && g.candidate[r][c]
  }

  /** Two different cells touch exactly when both are candidates, their rows are at most
      one apart, and so are their columns, the first and the last being neighbours. */
  lemma TouchIff(g: Grid, a: Cell, b: Cell)
    requires Rectangular(g) && a != b
    ensures Touch(g, a, b) <==>
      && Marked(g, a.row, a.col) && Marked(g, b.row, b.col)
      && -1 <= b.row - a.row <= 1
      && (-1 <= b.col - a.col <= 1 || b.col - a.col == g.cols - 1 || a.col - b.col == g.cols - 1)
  {
    if Touch(g, a, b) {
      var dr, dc :| Offset(dr, dc) && b == Step(g, a, dr, dc);
      Wrapped(a.col + dc, g.cols);
    } else if Marked(g, a.row, a.col) && Marked(g, b.row, b.col) && -1 <= b.row - a.row <= 1 {
      var d := b.col - a.col;
      if -1 <= d <= 1 {
        StepsTo(g, a, b, d);
      } else if d == g.cols - 1 {
        StepsTo(g, a, b, -1);
      } else if d == 1 - g.cols {
        StepsTo(g, a, b, 1);
      }
    }
  }

  lemma StepsTo(g: Grid, a: Cell, b: Cell, dc: int)
    requires Rectangular(g) && a != b && Candidate(g, a) && Candidate(g, b)
    requires -1 <= b.row - a.row <= 1 && -1 <= dc <= 1
    requires b.col == if a.col + dc < 0 then g.cols - 1 else if a.col + dc == g.cols then 0 else a.col + dc
    ensures Touch(g, a, b)
  {
    Wrapped(a.col + dc, g.cols);
    assert Offset(b.row - a.row, dc) && b == Step(g, a, b.row - a.row, dc);
  }

  lemma {:induction false} PathBack(g: Grid, p: seq<Cell>) returns (q: seq<Cell>)
    requires Rectangular(g) && IsPath(g, p)
    ensures Joins(g, p[|p| - 1], p[0], q)
    decreases |p|
  {
    if |p| == 1 {
      q := p;
    } else {
      var rest := PathBack(g, p[1..]);
      TouchSymmetric(g, p[0], p[1]);
      q := rest + [p[0]];
    }
  }

  /** Being joined is an equivalence on the candidate cells. */
  lemma JoinedEquivalence(g: Grid, a: Cell, b: Cell, c: Cell)
    requires Rectangular(g)
    ensures Candidate(g, a) ==> Joined(g, a, a)
    ensures Joined(g, a, b) ==> Joined(g, b, a) && Candidate(g, a) && Candidate(g, b)
    ensures Joined(g, a, b) && Joined(g, b, c) ==> Joined(g, a, c)
  {
    if Candidate(g, a) {
      assert Joins(g, a, a, [a]);
    }
    if Joined(g, a, b) {
      var p :| Joins(g, a, b, p);
      var q := PathBack(g, p);
      if Joined(g, b, c) {
        var r :| Joins(g, b, c, r);
        assert Joins(g, a, c, p + r[1..]);
      }
    }
  }

  // ---------------------------------------------------------------- closed sets of cells

  ghost predicate Closed(g: Grid, s: set<Cell>)
    requires Rectangular(g)
  {
    s <= Candidates(g) && forall a, b :: a in s && Touch(g, a, b) ==> b in s
  }

  lemma {:induction false} ClosedKeepsPaths(g: Grid, s: set<Cell>, p: seq<Cell>)
    requires Rectangular(g) && Closed(g, s) && IsPath(g, p) && p[0] in s
    ensures p[|p| - 1] in s
    decreases |p|
  {
    if |p| > 1 {
      assert Touch(g, p[0], p[1]);
      ClosedKeepsPaths(g, s, p[1..]);
    }
  }

  /** A closed set whose cells are all joined to one of them is its component. */
  lemma ClosedIsComponent(g: Grid, seed: Cell, s: set<Cell>)
    requires Rectangular(g) && Closed(g, s) && seed in s
    requires forall c :: c in s ==> Joined(g, seed, c)
    ensures s == Component(g, seed)
  {
    forall c | c in Component(g, seed)
      ensures c in s
    {
      var p :| Joins(g, seed, c, p);
      ClosedKeepsPaths(g, s, p);
    }
  }

  lemma JoinTouch(g: Grid, seed: Cell, a: Cell, b: Cell)
    requires Rectangular(g) && Joined(g, seed, a) && Touch(g, a, b)
    ensures Joined(g, seed, b)
  {
    assert Joins(g, a, b, [a, b]);
    JoinedEquivalence(g, seed, a, b);
  }

  // ---------------------------------------------------------------- the search

  function Elements(s: seq<Cell>): set<Cell> {
    set c | c in s
  }

  predicate NoDuplicates(s: seq<Cell>) {
    forall i, j :: 0 <= i < j < |s| ==> s[i] != s[j]
  }

  ghost predicate Marks(g: Grid, visited: array2<bool>, v: set<Cell>)
    reads visited
  {
    && visited.Length0 == g.rows && visited.Length1 == g.cols
    && (forall r, c :: 0 <= r < g.rows && 0 <= c < g.cols ==> (visited[r, c] <==> Cell(r, c) in v))
  }

  /** The offsets the two inner loops have covered when they stand at (dr, dc). */
  predicate Covered(dr: int, dc: int, x: int, y: int) {
    x < dr || (x == dr && y < dc)
  }

  /** Every neighbour of c at a covered offset has been visited. */
  ghost predicate NeighboursDone(g: Grid, c: Cell, v: set<Cell>, dr: int, dc: int)
    requires Rectangular(g)
  {
    g.cols > 0 && forall x, y :: Offset(x, y) && Covered(dr, dc, x, y) && Candidate(g, Step(g, c, x, y)) ==> Step(g, c, x, y) in v
  }

  /** The cells pushed are new, and each is touched from c. */
  ghost predicate Pushed(g: Grid, c: Cell, v: set<Cell>, stack: seq<Cell>, v': set<Cell>, stack': seq<Cell>)
    requires Rectangular(g)
  {
    && |stack| <= |stack'| && stack'[..|stack|] == stack
    && v' == v + Elements(stack'[|stack|..])
    && NoDuplicates(stack'[|stack|..]) && Elements(stack'[|stack|..]) !! v
    && (forall b :: b in stack'[|stack|..] ==> Touch(g, c, b))
  }

  lemma PushOne(g: Grid, c: Cell, v: set<Cell>, stack: seq<Cell>, v': set<Cell>, stack': seq<Cell>, b: Cell)
    requires Rectangular(g) && Pushed(g, c, v, stack, v', stack')
    requires Touch(g, c, b) && b !in v'
    ensures Pushed(g, c, v, stack, v' + {b}, stack' + [b])
  {
    var n := |stack|;
    assert (stack' + [b])[n..] == stack'[n..] + [b];
    assert Elements(stack'[n..] + [b]) == Elements(stack'[n..]) + {b};
    assert b !in stack'[n..];
  }

  /** The body of the inner loops for one offset. */
  method TryNeighbour(g: Grid, visited: array2<bool>, c: Cell, dr: int, dc: int, stack0: seq<Cell>, ghost v0: set<Cell>,
                      stack: seq<Cell>, ghost v: set<Cell>)
    returns (stack': seq<Cell>, ghost v': set<Cell>)
    requires Rectangular(g) && Candidate(g, c) && Marks(g, visited, v) && -1 <= dr <= 1 && -1 <= dc <= 1
    requires Pushed(g, c, v0, stack0, v, stack) && NeighboursDone(g, c, v, dr, dc)
    modifies visited
    ensures Marks(g, visited, v') && Pushed(g, c, v0, stack0, v', stack') && NeighboursDone(g, c, v', dr, dc + 1)
  {
    stack', v' := stack, v;
    if dr == 0 && dc == 0 {
      return;
    }
    WrapBack(c.col, dc, g.cols);
    var nextRow, nextCol := c.row + dr, (c.col + dc) % g.cols;
    ghost var b := Step(g, c, dr, dc);
    if 0 <= nextRow < g.rows && g.candidate[nextRow][nextCol] && !visited[nextRow, nextCol] {
      assert Touch(g, c, b);
      PushOne(g, c, v0, stack0, v, stack, b);
      visited[nextRow, nextCol] := true;
      stack', v' := stack + [Cell(nextRow, nextCol)], v + {b};
    }
  }

  method PushNeighbours(g: Grid, visited: array2<bool>, c: Cell, stack: seq<Cell>, ghost v: set<Cell>)
    returns (stack': seq<Cell>, ghost v': set<Cell>)
    requires Rectangular(g) && Candidate(g, c) && Marks(g, visited, v)
    modifies visited
    ensures Marks(g, visited, v') && Pushed(g, c, v, stack, v', stack')
    ensures forall b :: Touch(g, c, b) ==> b in v'
  {
    stack', v' := stack, v;
    for dr := -1 to 2
      invariant Marks(g, visited, v') && Pushed(g, c, v, stack, v', stack')
      invariant NeighboursDone(g, c, v', dr, -1)
    {
      for dc := -1 to 2
        invariant Marks(g, visited, v') && Pushed(g, c, v, stack, v', stack')
        invariant NeighboursDone(g, c, v', dr, dc)
      {
        stack', v' := TryNeighbour(g, visited, c, dr, dc, stack, v, stack', v');
      }
    }
  }

  /** The state of one flood: `component` is popped, `stack` still to be popped. */
  ghost predicate Searching(g: Grid, seed: Cell, v0: set<Cell>, v: set<Cell>, component: seq<Cell>, stack: seq<Cell>)
    requires Rectangular(g)
  {
    && NoDuplicates(component) && NoDuplicates(stack) && Elements(component) !! Elements(stack)
    && v == v0 + Elements(component) + Elements(stack)
    && Elements(component) !! v0 && Elements(stack) !! v0
    && (forall c :: c in component || c in stack ==> Candidate(g, c) && Joined(g, seed, c))
    && (forall a, b :: a in component && Touch(g, a, b) ==> b in v)
    && (if component == [] then stack == [seed] else component[0] == seed)
  }

  lemma Popped(s: seq<Cell>)
    requires s != [] && NoDuplicates(s)
    ensures NoDuplicates(s[..|s| - 1]) && s[|s| - 1] !in s[..|s| - 1]
    ensures Elements(s) == Elements(s[..|s| - 1]) + {s[|s| - 1]}
  {
    assert s == s[..|s| - 1] + [s[|s| - 1]];
  }

  lemma Appended(a: seq<Cell>, b: seq<Cell>)
    requires NoDuplicates(a) && NoDuplicates(b) && Elements(a) !! Elements(b)
    ensures NoDuplicates(a + b) && Elements(a + b) == Elements(a) + Elements(b)
  {
    assert forall c :: c in a + b <==> c in a || c in b;
    forall i, j | 0 <= i < j < |a + b|
      ensures (a + b)[i] != (a + b)[j]
    {
      if i < |a| <= j {
        assert a[i] in Elements(a) && b[j - |a|] in Elements(b);
      }
    }
  }

  /** Popping a cell and pushing its unvisited neighbours keeps the state. */
  lemma PopAndPush(g: Grid, seed: Cell, v0: set<Cell>, v: set<Cell>, component: seq<Cell>, stack: seq<Cell>,
                   v': set<Cell>, stack': seq<Cell>)
    requires Rectangular(g) && stack != [] && Searching(g, seed, v0, v, component, stack)
    requires Pushed(g, stack[|stack| - 1], v, stack[..|stack| - 1], v', stack')
    requires forall b :: Touch(g, stack[|stack| - 1], b) ==> b in v'
    ensures Searching(g, seed, v0, v', component + [stack[|stack| - 1]], stack')
  {
    var c, kept := stack[|stack| - 1], stack[..|stack| - 1];
    var added := stack'[|kept|..];
    Popped(stack);
    assert stack' == kept + added;
    Appended(kept, added);
    Appended(component, [c]);
    forall b | b in added
      ensures Candidate(g, b) && Joined(g, seed, b)
    {
      JoinTouch(g, seed, c, b);
    }
    assert forall x :: x in kept ==> x in stack;
    assert forall x :: x in stack' <==> x in kept || x in added;
    assert forall x :: x in component + [c] <==> x in component || x == c;
  }

  lemma FloodEnds(g: Grid, seed: Cell, v0: set<Cell>, v: set<Cell>, component: seq<Cell>)
    requires Rectangular(g) && Closed(g, v0) && Searching(g, seed, v0, v, component, [])
    ensures Elements(component) == Component(g, seed) && Closed(g, v)
    ensures v == v0 + Elements(component) && Elements(component) !! v0
    ensures component != [] && component[0] == seed && NoDuplicates(component)
  {
    forall a, b | a in Elements(component) && Touch(g, a, b)
      ensures b in Elements(component)
    {
      TouchSymmetric(g, a, b);
    }
    ClosedIsComponent(g, seed, Elements(component));
  }

  lemma Shrinks(g: Grid, c: Cell, v: set<Cell>, stack: seq<Cell>, v': set<Cell>, stack': seq<Cell>)
    requires Rectangular(g) && Pushed(g, c, v, stack, v', stack')
    ensures |Candidates(g) - v'| < |Candidates(g) - v| || stack' == stack
    ensures |Candidates(g) - v'| <= |Candidates(g) - v|
  {
    assert Candidates(g) - v' <= Candidates(g) - v;
    Smaller(Candidates(g) - v', Candidates(g) - v);
    if |stack'| > |stack| {
      var b := stack'[|stack|];
      assert b in stack'[|stack|..];
      assert Touch(g, c, b);
      Smaller(Candidates(g) - v', Candidates(g) - v - {b});
    }
  }

  lemma Smaller(a: set<Cell>, b: set<Cell>)
    requires a <= b
    ensures |a| <= |b|
  {
    assert b == a + (b - a);
  }

  lemma SearchStarts(g: Grid, seed: Cell, v0: set<Cell>)
    requires Rectangular(g) && Candidate(g, seed) && seed !in v0
    ensures Searching(g, seed, v0, v0 + {seed}, [], [seed])
  {
    JoinedEquivalence(g, seed, seed, seed);
  }

  lemma OnTop(g: Grid, seed: Cell, v0: set<Cell>, v: set<Cell>, component: seq<Cell>, stack: seq<Cell>)
    requires Rectangular(g) && stack != [] && Searching(g, seed, v0, v, component, stack)
    ensures Candidate(g, stack[|stack| - 1])
  {
  }

  /** The flood from an unvisited candidate collects its component, each cell once. */
  method Flood(g: Grid, visited: array2<bool>, seed: Cell, ghost v0: set<Cell>)
    returns (component: seq<Cell>, ghost v: set<Cell>)
    requires Rectangular(g) && Candidate(g, seed) && seed !in v0
    requires Marks(g, visited, v0) && Closed(g, v0)
    modifies visited
    ensures Marks(g, visited, v) && Closed(g, v) && v == v0 + Elements(component)
    ensures component != [] && component[0] == seed && NoDuplicates(component)
    ensures Elements(component) == Component(g, seed) && Elements(component) !! v0
  {
    hide Closed, Searching, Pushed;
    var stack := [seed];
    visited[seed.row, seed.col] := true;
    component, v := [], v0 + {seed};
    SearchStarts(g, seed, v0);
    while stack != []
      invariant Marks(g, visited, v)
      invariant Searching(g, seed, v0, v, component, stack)
      decreases |Candidates(g) - v|, |stack|
    {
      var c, kept := stack[|stack| - 1], stack[..|stack| - 1];
      ghost var before, v1 := stack, v;
      OnTop(g, seed, v0, v, component, stack);
      stack, v := PushNeighbours(g, visited, c, kept, v);
      PopAndPush(g, seed, v0, v1, component, before, v, stack);
      Shrinks(g, c, v1, kept, v, stack);
      component := component + [c];
    }
    FloodEnds(g, seed, v0, v, component);
  }

  // ---------------------------------------------------------------- the defects of a grid

  function MinimumArea(minAreaPoints: int): nat {
    if minAreaPoints > 1 then minAreaPoints else 1
  }

  ghost predicate Large(g: Grid, c: Cell, area: nat)
    requires Rectangular(g)
  {
    |Component(g, c)| >= area
  }

  predicate ScannedBefore(a: Cell, b: Cell) {
    a.row < b.row || (a.row == b.row && a.col < b.col)
  }

  /** The list begins with its first cell in the order of the scan. */
  ghost predicate FirstLeads(d: seq<Cell>)
    requires d != []
  {
    forall c :: c in d ==> !ScannedBefore(c, d[0])
  }

  /** One reported defect: the cells of one component, each once, the first of the
      scan in front, large enough. */
  ghost predicate Reported(g: Grid, d: seq<Cell>, area: nat)
    requires Rectangular(g)
  {
    d != [] && NoDuplicates(d) && Elements(d) == Component(g, d[0]) && FirstLeads(d) && |d| >= area
  }

  ghost predicate InSome(defects: seq<seq<Cell>>, c: Cell) {
    exists i :: 0 <= i < |defects| && c in defects[i]
  }

  predicate InScanOrder(defects: seq<seq<Cell>>) {
    forall i, j :: 0 <= i < j < |defects| ==>
      defects[i] != [] && defects[j] != [] && ScannedBefore(defects[i][0], defects[j][0])
  }

  /** What is known after the cells of v have been dealt with. */
  ghost predicate Found(g: Grid, area: nat, v: set<Cell>, defects: seq<seq<Cell>>)
    requires Rectangular(g)
  {
    && (forall i :: 0 <= i < |defects| ==> Reported(g, defects[i], area) && Elements(defects[i]) <= v)
    && (forall i, j :: 0 <= i < j < |defects| ==> Elements(defects[i]) !! Elements(defects[j]))
    && InScanOrder(defects)
    && (forall c :: c in v && Large(g, c, area) ==> InSome(defects, c))
  }

  lemma {:induction false} DistinctCount(s: seq<Cell>)
    requires NoDuplicates(s)
    ensures |Elements(s)| == |s|
  {
    if s != [] {
      Popped(s);
      DistinctCount(s[..|s| - 1]);
    }
  }

  lemma SameComponent(g: Grid, seed: Cell, c: Cell)
    requires Rectangular(g) && c in Component(g, seed)
    ensures Component(g, c) == Component(g, seed)
  {
    forall x
      ensures Joined(g, c, x) <==> Joined(g, seed, x)
    {
      JoinedEquivalence(g, seed, c, x);
      JoinedEquivalence(g, c, seed, x);
    }
  }

  lemma StillInSome(g: Grid, area: nat, v: set<Cell>, defects: seq<seq<Cell>>, d: seq<Cell>, c: Cell)
    requires Rectangular(g) && Found(g, area, v, defects)
    requires d != [] && NoDuplicates(d) && Elements(d) == Component(g, d[0])
    requires c in v + Elements(d) && Large(g, c, area)
    ensures InSome(if |d| < area then defects else defects + [d], c)
  {
    var defects' := if |d| < area then defects else defects + [d];
    if c in v {
      var i :| 0 <= i < |defects| && c in defects[i];
      assert defects'[i] == defects[i];
    } else {
      DistinctCount(d);
      SameComponent(g, d[0], c);
      assert defects'[|defects|] == d;
    }
  }

  lemma AddComponent(g: Grid, area: nat, v: set<Cell>, defects: seq<seq<Cell>>, d: seq<Cell>)
    requires Rectangular(g) && Found(g, area, v, defects)
    requires d != [] && NoDuplicates(d) && Elements(d) == Component(g, d[0]) && FirstLeads(d) && Elements(d) !! v
    requires forall i :: 0 <= i < |defects| ==> ScannedBefore(defects[i][0], d[0])
    ensures Found(g, area, v + Elements(d), if |d| < area then defects else defects + [d])
  {
    hide Component, Large, InSome, Elements, NoDuplicates, FirstLeads, ScannedBefore;
    forall c | c in v + Elements(d) && Large(g, c, area)
      ensures InSome(if |d| < area then defects else defects + [d], c)
    {
      StillInSome(g, area, v, defects, d, c);
    }
  }

  ghost predicate Scanned(g: Grid, v: set<Cell>, row: int, col: int)
    requires Rectangular(g)
  {
    forall c :: Candidate(g, c) && ScannedBefore(c, Cell(row, col)) ==> c in v
  }

  /** The seeds of the defects so far lie before the scan. */
  ghost predicate SeedsBefore(defects: seq<seq<Cell>>, row: int, col: int) {
    forall i :: 0 <= i < |defects| ==> defects[i] != [] && ScannedBefore(defects[i][0], Cell(row, col))
  }

  /** Everything before the scan is visited, so an unvisited component begins at
      its seed. */
  lemma SeedLeads(g: Grid, v: set<Cell>, row: nat, col: nat, component: seq<Cell>)
    requires Rectangular(g) && Scanned(g, v, row, col)
    requires component != [] && component[0] == Cell(row, col)
    requires Elements(component) == Component(g, component[0]) && Elements(component) !! v
    ensures FirstLeads(component)
  {
    forall c | c in component
      ensures !ScannedBefore(c, component[0])
    {
      assert c in Elements(component) && Joined(g, component[0], c);
      JoinedEquivalence(g, component[0], c, c);
    }
  }

  /** One seed position of the scan. */
  method TrySeed(g: Grid, visited: array2<bool>, area: nat, row: nat, col: nat, defects: seq<seq<Cell>>, ghost v: set<Cell>)
    returns (defects': seq<seq<Cell>>, ghost v': set<Cell>)
    requires Rectangular(g) && row < g.rows && col < g.cols
    requires Marks(g, visited, v) && Closed(g, v) && Found(g, area, v, defects) && Scanned(g, v, row, col)
    requires SeedsBefore(defects, row, col)
    modifies visited
    ensures Marks(g, visited, v') && Closed(g, v') && Found(g, area, v', defects') && Scanned(g, v', row, col + 1)
    ensures SeedsBefore(defects', row, col + 1)
  {
    hide Closed, Found;
    defects', v' := defects, v;
    if !g.candidate[row][col] || visited[row, col] {
      return;
    }
    var component;
    component, v' := Flood(g, visited, Cell(row, col), v);
    SeedLeads(g, v, row, col, component);
    AddComponent(g, area, v, defects, component);
    assert Cell(row, col) in Elements(component);
    if |component| < area {
      return;
    }
    defects' := defects + [component];
  }

  /** The defects are exactly the components with at least the minimum area, in the
      order in which the scan meets them. */
  method DetectComponents(g: Grid, minAreaPoints: int) returns (defects: seq<seq<Cell>>)
    requires Rectangular(g)
    ensures forall i :: 0 <= i < |defects| ==> Reported(g, defects[i], 1) && |defects[i]| >= minAreaPoints
    ensures forall i, j :: 0 <= i < j < |defects| ==> Elements(defects[i]) !! Elements(defects[j])
    ensures forall i, j :: 0 <= i < j < |defects| ==>
      && defects[i] != [] && defects[j] != []
      && (|| defects[i][0].row < defects[j][0].row
          || (defects[i][0].row == defects[j][0].row && defects[i][0].col < defects[j][0].col))
    ensures forall c :: Candidate(g, c) && |Component(g, c)| >= minAreaPoints ==> InSome(defects, c)
  {
    var visited := new bool[g.rows, g.cols]((r, c) => false);
    defects := [];
    ghost var v := {};
    var area := MinimumArea(minAreaPoints);
    for row := 0 to g.rows
      invariant Marks(g, visited, v) && Closed(g, v) && Found(g, area, v, defects) && Scanned(g, v, row, 0)
      invariant SeedsBefore(defects, row, 0)
    {
      for col := 0 to g.cols
        invariant Marks(g, visited, v) && Closed(g, v) && Found(g, area, v, defects) && Scanned(g, v, row, col)
        invariant SeedsBefore(defects, row, col)
      {
        defects, v := TrySeed(g, visited, area, row, col, defects, v);
      }
    }
    forall c | Candidate(g, c) && |Component(g, c)| >= minAreaPoints
      ensures InSome(defects, c)
    {
      OwnComponent(g, c);
      assert Large(g, c, area);
    }
  }

  lemma OwnComponent(g: Grid, c: Cell)
    requires Rectangular(g) && Candidate(g, c)
    ensures |Component(g, c)| >= 1
  {
    JoinedEquivalence(g, c, c, c);
    assert c in Component(g, c);
  }
}
