/** Finding the head of the bar: the first row of the stacked frames from which
    eight rows in a row are occupied. */
module HeadDetector {

  const STABLE_ROWS: nat := 8

  predicate Occupied(occupancy: real) {
    occupancy >= 0.12
  }

  /** The frames one below the other; a row is given by its occupancy. */
  function Stacked(frames: seq<seq<real>>): seq<real> {
    if frames == [] then [] else Stacked(frames[..|frames| - 1]) + frames[|frames| - 1]
  }

  predicate SameHeight(frames: seq<seq<real>>, height: nat) {
    forall f :: 0 <= f < |frames| ==> |frames[f]| == height
  }

  lemma {:induction false} StackedSize(frames: seq<seq<real>>, height: nat)
    requires SameHeight(frames, height)
    ensures |Stacked(frames)| == |frames| * height
  {
    if frames != [] {
      StackedSize(frames[..|frames| - 1], height);
      assert (|frames| - 1) * height + height == |frames| * height;
    }
  }

  /** Row y of frame f is row f * height + y of the stack. */
  lemma {:induction false} StackedAt(frames: seq<seq<real>>, height: nat, f: nat, y: nat)
    requires SameHeight(frames, height) && f < |frames| && y < height
    ensures 0 <= f * height + y < |Stacked(frames)| && Stacked(frames)[f * height + y] == frames[f][y]
    decreases |frames|
  {
    var last := |frames| - 1;
    StackedSize(frames[..last], height);
    if f < last {
      StackedAt(frames[..last], height, f, y);
    }
  }

  /** Eight occupied rows from i on. */
  predicate Starts(rows: seq<real>, i: int) {
    0 <= i && i + STABLE_ROWS <= |rows| && forall k :: i <= k < i + STABLE_ROWS ==> Occupied(rows[k])
  }

  /** The answer: the earliest such row, or 0 if there is none. */
  ghost predicate IsHead(rows: seq<real>, offset: int) {
    || (Starts(rows, offset) && forall i :: Starts(rows, i) ==> offset <= i)
    || (offset == 0 && forall i :: !Starts(rows, i))
  }

  ghost predicate EightFrom(rows: seq<real>, i: int) {
    0 <= i && i + 8 <= |rows| && forall k :: i <= k < i + 8 ==> rows[k] >= 0.12
  }

  /** In numbers: eight rows in a row with an occupancy of at least 0.12, the earliest
      such place, and 0 if there is none. */
  lemma HeadIs(rows: seq<real>, offset: int)
    ensures IsHead(rows, offset) <==>
      if exists i :: EightFrom(rows, i) then EightFrom(rows, offset) && forall i :: EightFrom(rows, i) ==> offset <= i
      else offset == 0
  {
    assert forall i :: EightFrom(rows, i) <==> Starts(rows, i);
  }

  /** After g rows: the last n of them are the occupied run in progress, and no
      stretch of eight has ended yet. */
  ghost predicate Scanned(rows: seq<real>, g: nat, n: nat) {
    && n <= g <= |rows| && n < STABLE_ROWS
    && (forall k :: g - n <= k < g ==> Occupied(rows[k]))
    && (g > n ==> !Occupied(rows[g - n - 1]))
    && (forall i :: i + STABLE_ROWS <= g ==> !Starts(rows, i))
  }

  lemma NextRow(rows: seq<real>, g: nat, n: nat)
    requires Scanned(rows, g, n) && g < |rows|
    ensures !Occupied(rows[g]) ==> Scanned(rows, g + 1, 0)
    ensures Occupied(rows[g]) && n + 1 < STABLE_ROWS ==> Scanned(rows, g + 1, n + 1)
    ensures Occupied(rows[g]) && n + 1 == STABLE_ROWS ==> IsHead(rows, g + 1 - STABLE_ROWS)
  {
  }

  /** At most the last eight. */
  function LastRows(stable: seq<real>): seq<real> {
    if |stable| > STABLE_ROWS then stable[|stable| - STABLE_ROWS..] else stable
  }

  /** The window of occupied rows is carried over from frame to frame. */
  method DetectHeadOffset(frames: seq<seq<real>>, height: nat) returns (offset: int)
    requires SameHeight(frames, height)
    ensures IsHead(Stacked(frames), offset)
  {
    hide Stacked, Scanned, IsHead;
    var stable: seq<real> := [];
    ghost var rows := Stacked(frames);
    NoRows(rows);
    for f := 0 to |frames|
      invariant |stable| < STABLE_ROWS && Scanned(rows, f * height, |stable|)
    {
      for y := 0 to height
        invariant |stable| < STABLE_ROWS && Scanned(rows, f * height + y, |stable|)
      {
        StackedAt(frames, height, f, y);
        NextRow(rows, f * height + y, |stable|);
        var occupancy := frames[f][y];
        if occupancy >= 0.12 {
          stable := stable + [occupancy];
          stable := LastRows(stable);
          if |stable| == STABLE_ROWS {
            return f * height + y + 1 - STABLE_ROWS;
          }
        } else {
          stable := [];
        }
      }
      assert f * height + height == (f + 1) * height;
    }
    StackedSize(frames, height);
    NoHead(rows, |stable|);
    offset := 0;
  }

  lemma NoRows(rows: seq<real>)
    ensures Scanned(rows, 0, 0)
  {
  }

  lemma NoHead(rows: seq<real>, n: nat)
    requires Scanned(rows, |rows|, n)
    ensures IsHead(rows, 0)
  {
  }

  /** What is left below the head is never empty. */
  lemma AlignedHeightPositive(frames: seq<seq<real>>, height: nat, offset: int)
    requires SameHeight(frames, height) && frames != [] && height > 0
    requires IsHead(Stacked(frames), offset)
    ensures height * |frames| - offset > 0
  {
    StackedSize(frames, height);
  }
}
