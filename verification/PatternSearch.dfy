/** The translation search of the calibration fit: try eight neighbours at the
    current step, move while a neighbour is better, then halve the step. */
module PatternSearch {
  import opened Options

  datatype Point = Point(x: real, z: real)

  const EPSILON: real := 0.000000001
  const MIN_STEP: real := 0.01

  /** The eight directions, in the order they are tried. */
  const DIRECTIONS: seq<(real, real)> :=
    [(1.0, 0.0), (-1.0, 0.0), (0.0, 1.0), (0.0, -1.0), (1.0, 1.0), (1.0, -1.0), (-1.0, 1.0), (-1.0, -1.0)]

  function Neighbour(p: Point, d: int, step: real): Point
    requires 0 <= d < 8
  {
    Point(p.x + DIRECTIONS[d].0 * step, p.z + DIRECTIONS[d].1 * step)
  }

  /** The shift is longer than the limit; a length is never negative. */
  predicate TooFar(p: Point, maxShift: real) {
    maxShift < 0.0 || p.x * p.x + p.z * p.z > maxShift * maxShift
  }

  ghost predicate NonNegative(score: Point -> real) {
    forall p :: score(p) >= 0.0
  }

  /** No allowed neighbour among the first n is better by more than EPSILON. */
  ghost predicate NoBetter(score: Point -> real, maxShift: real, p: Point, step: real, n: int) {
    forall d :: 0 <= d < n && d < 8 ==>
      TooFar(Neighbour(p, d, step), maxShift) || score(Neighbour(p, d, step)) + EPSILON >= score(p)
  }

  predicate Allowed(p: Point, maxShift: real) {
    p == Point(0.0, 0.0) || !TooFar(p, maxShift)
  }

  /** One round over the eight directions; a move is taken at once. */
  method TryDirections(score: Point -> real, maxShift: real, start: Point, best0: real, step: real)
    returns (p: Point, best: real, improved: bool)
    requires best0 == score(start) && Allowed(start, maxShift)
    ensures best == score(p) && Allowed(p, maxShift)
    ensures improved ==> best + EPSILON < best0
    ensures !improved ==> p == start && NoBetter(score, maxShift, p, step, 8)
  {
    p, best, improved := start, best0, false;
    for d := 0 to 8
      invariant best == score(p) && Allowed(p, maxShift)
      invariant improved ==> best + EPSILON < best0
      invariant !improved ==> p == start && best == best0 && NoBetter(score, maxShift, p, step, d)
    {
      var next := Neighbour(p, d, step);
      if TooFar(next, maxShift) {
        continue;
      }
      var s := score(next);
      if s + EPSILON < best {
        p, best, improved := next, s, true;
      }
    }
  }

  ghost function Units(best: real): nat
    requires best >= 0.0
  {
    (best / EPSILON).Floor
  }

  lemma UnitsDrop(a: real, b: real)
    requires 0.0 <= a && a + EPSILON < b
    ensures Units(a) < Units(b)
  {
    assert b / EPSILON > a / EPSILON + 1.0;
  }

  /** All moves at one step size. */
  method Descend(score: Point -> real, maxShift: real, start: Point, best0: real, step: real)
    returns (p: Point, best: real)
    requires NonNegative(score) && best0 == score(start) && Allowed(start, maxShift)
    ensures best == score(p) && Allowed(p, maxShift) && best <= best0
    ensures NoBetter(score, maxShift, p, step, 8)
  {
    p, best := start, best0;
    var improved := true;
    while improved
      invariant best == score(p) && best >= 0.0 && Allowed(p, maxShift) && best <= best0
      invariant !improved ==> NoBetter(score, maxShift, p, step, 8)
      decreases Units(best), improved
    {
      ghost var before := best;
      p, best, improved := TryDirections(score, maxShift, p, best, step);
      if improved {
        UnitsDrop(best, before);
      }
    }
  }

  function InitialStep(maxShift: real): real {
    var half := if maxShift > 0.0 then maxShift / 2.0 else 2.0;
    if half < 2.0 then half else 2.0
  }

  lemma StepDrop(step: real)
    requires step >= MIN_STEP
    ensures (step * 0.5 * 100.0).Floor < (step * 100.0).Floor
  {
  }

  function Halvings(k: nat): real {
    if k == 0 then 1.0 else 0.5 * Halvings(k - 1)
  }

  /** The point sx steps along and sz steps across. */
  function Beside(p: Point, step: real, sx: int, sz: int): Point {
    Point(p.x + sx as real * step, p.z + sz as real * step)
  }

  lemma EightNeighbours(p: Point, step: real, sx: int, sz: int) returns (d: int)
    requires -1 <= sx <= 1 && -1 <= sz <= 1 && (sx != 0 || sz != 0)
    ensures 0 <= d < 8 && Neighbour(p, d, step) == Beside(p, step, sx, sz)
  {
    d := if sz == 0 then (if sx == 1 then 0 else 1)
         else if sx == 0 then (if sz == 1 then 2 else 3)
         else if sx == 1 then (if sz == 1 then 4 else 5)
         else (if sz == 1 then 6 else 7);
  }

  predicate Inside(p: Point, maxShift: real) {
    maxShift >= 0.0 && p.x * p.x + p.z * p.z <= maxShift * maxShift
  }

  /** No other point at most one step away along and across is inside the limit and
      better. */
  ghost predicate LocallyBest(score: Point -> real, maxShift: real, p: Point, step: real) {
    forall sx, sz :: -1 <= sx <= 1 && -1 <= sz <= 1 && (sx != 0 || sz != 0) && Inside(Beside(p, step, sx, sz), maxShift) ==>
      score(Beside(p, step, sx, sz)) + 0.000000001 >= score(p)
  }

  lemma NoBetterIsBest(score: Point -> real, maxShift: real, p: Point, step: real)
    requires NoBetter(score, maxShift, p, step, 8)
    ensures LocallyBest(score, maxShift, p, step)
  {
    hide Beside, Neighbour;
    forall sx, sz | -1 <= sx <= 1 && -1 <= sz <= 1 && (sx != 0 || sz != 0) && Inside(Beside(p, step, sx, sz), maxShift)
      ensures score(Beside(p, step, sx, sz)) + 0.000000001 >= score(p)
    {
      var d := EightNeighbours(p, step, sx, sz);
      assert TooFar(Neighbour(p, d, step), maxShift) || score(Neighbour(p, d, step)) + EPSILON >= score(p);
    }
  }

  /** The first step: the smaller of 2 and half the limit, 2 without a limit. */
  lemma FirstStep(maxShift: real)
    ensures InitialStep(maxShift) == if 0.0 < maxShift < 4.0 then maxShift * 0.5 else 2.0
    ensures InitialStep(maxShift) > 0.0
    ensures InitialStep(maxShift) < MIN_STEP <==> 0.0 < maxShift < 0.02
  {
  }

  /** `first` halved some number of times. */
  ghost predicate Halved(first: real, step: real) {
    exists k: nat :: step == first * Halvings(k)
  }

  lemma HalfAgain(first: real, step: real)
    ensures Halved(first, first)
    ensures Halved(first, step) ==> Halved(first, step * 0.5)
  {
    assert first == first * Halvings(0);
    if Halved(first, step) {
      var k: nat :| step == first * Halvings(k);
      Product(first, Halvings(k));
      assert step * 0.5 == first * Halvings(k + 1);
    }
  }

  lemma Product(x: real, y: real)
    ensures (x * y) * 0.5 == x * (0.5 * y)
  {
  }

  /** The search ends; its result is no worse than no shift, stays within a
      non-negative limit, and at the last step size tried it is locally best.  The
      steps are halvings of the first one, down to 0.01. */
  method OptimizeTranslation(score: Point -> real, maxShift: real)
    returns (p: Point, best: real, lastStep: Option<real>)
    requires NonNegative(score)
    ensures best == score(p) && best <= score(Point(0.0, 0.0))
    ensures maxShift >= 0.0 ==> Inside(p, maxShift)
    ensures maxShift < 0.0 ==> p == Point(0.0, 0.0)
    ensures lastStep.None? <==> 0.0 < maxShift < 0.02
    ensures lastStep.None? ==> p == Point(0.0, 0.0)
    ensures lastStep.Some? ==> 0.01 <= lastStep.value < 0.02 && LocallyBest(score, maxShift, p, lastStep.value)
    ensures lastStep.Some? ==> Halved(InitialStep(maxShift), lastStep.value)
  {
    p := Point(0.0, 0.0);
    best := score(p);
    lastStep := None;
    var step := InitialStep(maxShift);
    ghost var first := step;
    FirstStep(maxShift);
    HalfAgain(first, first);
    hide InitialStep, Halved, TooFar, Inside, NoBetter, LocallyBest;
    while step >= MIN_STEP
      invariant best == score(p) && best <= score(Point(0.0, 0.0)) && Allowed(p, maxShift) && step > 0.0
      invariant Halved(first, step)
      invariant lastStep.None? ==> step == first && p == Point(0.0, 0.0)
      invariant lastStep.Some? ==>
        && first >= MIN_STEP && lastStep.value >= MIN_STEP
        && step == lastStep.value * 0.5 && NoBetter(score, maxShift, p, lastStep.value, 8)
        && Halved(first, lastStep.value)
      decreases (step * 100.0).Floor
    {
      p, best := Descend(score, maxShift, p, best, step);
      StepDrop(step);
      HalfAgain(first, step);
      lastStep, step := Some(step), step * 0.5;
    }
    Stays(p, maxShift);
    if lastStep.Some? {
      NoBetterIsBest(score, maxShift, p, lastStep.value);
    }
  }

  lemma Stays(p: Point, maxShift: real)
    requires Allowed(p, maxShift)
    ensures maxShift >= 0.0 ==> Inside(p, maxShift)
    ensures maxShift < 0.0 ==> p == Point(0.0, 0.0)
  {
    if p == Point(0.0, 0.0) && maxShift >= 0.0 {
      assert maxShift * maxShift >= 0.0;
    }
  }
}
