/** The tile pyramid of an inspection world: image sizes per level, the number of
    levels, and the tiles of each level. */
module TilePyramid {

  const TILE_SIZE: nat := 128

  function Pow2(k: nat): (p: nat)
    ensures p > 0
  {
    if k == 0 then 1 else 2 * Pow2(k - 1)
  }

  lemma {:induction false} PowersOfTwo(j: nat, k: nat)
    ensures Pow2(0) == 1 && Pow2(1) == 2 && Pow2(j + k) == Pow2(j) * Pow2(k)
  {
    assert Pow2(1) == 2 * Pow2(0);
    if k > 0 {
      PowersOfTwo(j, k - 1);
      assert Pow2(j + k) == 2 * Pow2(j + k - 1);
      var x, y := Pow2(j), Pow2(k - 1);
      assert 2 * (x * y) == x * (2 * y);
    }
  }

  function CeilDiv(x: nat, y: nat): nat
    requires y > 0
  {
    (x + y - 1) / y
  }

  function Halve(x: nat): nat {
    (x + 1) / 2
  }

  /** A side after k halvings, as the loops compute it. */
  function SideAt(x: nat, k: nat): nat {
    if k == 0 then x else Halve(SideAt(x, k - 1))
  }

  lemma CeilIs(x: nat, y: nat, q: nat)
    requires y > 0 && x <= q * y && (q == 0 || (q - 1) * y < x)
    ensures CeilDiv(x, y) == q
  {
    var n := x + y - 1;
    if q == 0 {
      assert n == y - 1;
    } else {
      assert (q - 1) * y + y == q * y;
      assert q * y <= n < q * y + y;
      DivIs(n, y, q);
    }
  }

  lemma DivIs(n: nat, y: nat, q: nat)
    requires y > 0 && q * y <= n < q * y + y
    ensures n / y == q
  {
    var d := n / y - q;
    assert n == (n / y) * y + n % y;
    assert (n / y) * y == q * y + d * y;
    if d >= 1 {
      MulAtLeast(d, y);
    }
    if d <= -1 {
      MulAtMost(d, y);
    }
  }

  lemma MulAtLeast(d: int, y: nat)
    requires d >= 1
    ensures d * y >= y
  {
  }

  lemma MulAtMost(d: int, y: nat)
    requires d <= -1
    ensures d * y <= 0 - y
  {
  }

  lemma CeilBounds(x: nat, y: nat)
    requires y > 0
    ensures var q := CeilDiv(x, y); x <= q * y && (q == 0 || (q - 1) * y < x)
  {
    var n := x + y - 1;
    var q := n / y;
    assert n == q * y + n % y;
    assert (q - 1) * y == q * y - y;
  }

  /** Halving k times is dividing by 2^k and rounding up. */
  lemma {:induction false} SideIsCeil(x: nat, k: nat)
    ensures SideAt(x, k) == CeilDiv(x, Pow2(k))
  {
    if k > 0 {
      SideIsCeil(x, k - 1);
      var y := Pow2(k - 1);
      CeilBounds(x, y);
      HalveCeil(x, y);
    }
  }

  lemma HalveCeil(x: nat, y: nat)
    requires y > 0
    ensures Halve(CeilDiv(x, y)) == CeilDiv(x, 2 * y)
  {
    var q := CeilDiv(x, y);
    var h := Halve(q);
    CeilBounds(x, y);
    Doubled(x, y, q, h);
    CeilIs(x, 2 * y, h);
  }

  lemma Doubled(x: nat, y: nat, q: nat, h: nat)
    requires x <= q * y && (q == 0 || (q - 1) * y < x) && (q == 2 * h || q == 2 * h - 1)
    ensures x <= h * (2 * y) && (h == 0 || (h - 1) * (2 * y) < x)
  {
    var p := h * y;
    assert h * (2 * y) == 2 * p;
    assert (h - 1) * (2 * y) == 2 * p - 2 * y;
    if q == 2 * h {
      assert q * y == 2 * p && (q - 1) * y == 2 * p - y;
    } else {
      assert q * y == 2 * p - y && (q - 1) * y == 2 * p - 2 * y;
    }
  }

  // ---------------------------------------------------------------- levels

  lemma {:induction false} SideMonotone(x: nat, y: nat, k: nat)
    requires x <= y
    ensures SideAt(x, k) <= SideAt(y, k)
    ensures x > 0 ==> SideAt(x, k) > 0
  {
    if k > 0 {
      SideMonotone(x, y, k - 1);
    }
  }

  /** The level loop. */
  method MaxLevel(longestSide: nat) returns (level: nat)
    ensures SideAt(longestSide, level) <= 1
    ensures forall k :: 0 <= k < level ==> SideAt(longestSide, k) > 1
  {
    var side := longestSide;
    level := 0;
    while side > 1
      invariant side == SideAt(longestSide, level)
      invariant forall k :: 0 <= k < level ==> SideAt(longestSide, k) > 1
      decreases side
    {
      side := (side + 1) / 2;
      level := level + 1;
    }
  }

  datatype Size = Size(width: nat, height: nat)

  function TotalWidth(cameras: seq<Size>): nat {
    if cameras == [] then 0 else TotalWidth(cameras[..|cameras| - 1]) + cameras[|cameras| - 1].width
  }

  lemma {:induction false} WidthAdds(a: seq<Size>, b: seq<Size>)
    ensures TotalWidth(a + b) == TotalWidth(a) + TotalWidth(b)
    ensures |b| == 1 ==> TotalWidth(b) == b[0].width
  {
    if b == [] {
      assert a + b == a;
    } else {
      var last := |b| - 1;
      WidthAdds(a, b[..last]);
      assert (a + b)[..|a + b| - 1] == a + b[..last];
    }
  }

  /** The world: cameras side by side, as high as the highest. */
  method WorldSize(cameras: seq<Size>) returns (world: Size)
    ensures world.width == TotalWidth(cameras)
    ensures world.height == 0 || exists i :: 0 <= i < |cameras| && cameras[i].height == world.height
    ensures forall i :: 0 <= i < |cameras| ==> cameras[i].width <= world.width && cameras[i].height <= world.height
  {
    world := Size(0, 0);
    for i := 0 to |cameras|
      invariant world.width == TotalWidth(cameras[..i])
      invariant world.height == 0 || exists j :: 0 <= j < i && cameras[j].height == world.height
      invariant forall j :: 0 <= j < i ==> cameras[j].width <= world.width && cameras[j].height <= world.height
    {
      var c := cameras[i];
      world := Size(world.width + c.width, if c.height > world.height then c.height else world.height);
      assert cameras[..i + 1][..i] == cameras[..i];
    }
    assert cameras[..|cameras|] == cameras;
  }

  function Longest(world: Size): nat {
    if world.width > world.height then world.width else world.height
  }

  function SizeAt(s: Size, level: nat): Size {
    Size(SideAt(s.width, level), SideAt(s.height, level))
  }

  /** At the level where the world has shrunk to one pixel, so has every camera,
      and its only tile is that pixel. */
  lemma TopIsOnePixel(camera: Size, world: Size, level: nat)
    requires 0 < camera.width <= world.width && 0 < camera.height <= world.height
    requires SideAt(Longest(world), level) <= 1
    ensures SizeAt(camera, level) == Size(1, 1)
    ensures TilesAcross(SizeAt(camera, level).width) == 1 && TilesAcross(SizeAt(camera, level).height) == 1
  {
    SideMonotone(camera.width, Longest(world), level);
    SideMonotone(camera.height, Longest(world), level);
  }

  // ---------------------------------------------------------------- the tiles of one image

  function Max1(x: nat): nat {
    if x > 1 then x else 1
  }

  function TilesAcross(side: nat): nat {
    Max1((side + TILE_SIZE - 1) / TILE_SIZE)
  }

  function Min(x: nat, y: nat): nat {
    if x < y then x else y
  }

  /** The pixels of tile number t along one side. */
  predicate InTile(side: nat, t: nat, x: nat) {
    t * TILE_SIZE <= x < Min(t * TILE_SIZE + TILE_SIZE, side)
  }

  /** Every pixel of a side lies in exactly one of its tiles, and no tile is empty. */
  lemma TilesCoverOnce(side: nat, x: nat)
    requires x < side
    ensures x / TILE_SIZE < TilesAcross(side) && InTile(side, x / TILE_SIZE, x)
    ensures forall t: nat :: InTile(side, t, x) ==> t == x / TILE_SIZE
  {
  }

  lemma TilesNotEmpty(side: nat, t: nat)
    requires side > 0 && t < TilesAcross(side)
    ensures InTile(side, t, t * TILE_SIZE)
  {
  }

  /** A side has a tile wherever one can begin, and at least one. */
  lemma TilesAre(side: nat, t: nat)
    ensures t < TilesAcross(side) <==> t == 0 || t * 128 < side
  {
  }

  datatype Tile = Tile(level: nat, x: nat, y: nat, left: nat, top: nat, right: nat, bottom: nat)

  function TileOf(size: Size, level: nat, x: nat, y: nat): Tile {
    Tile(level, x, y, x * TILE_SIZE, y * TILE_SIZE,
         Min(x * TILE_SIZE + TILE_SIZE, size.width), Min(y * TILE_SIZE + TILE_SIZE, size.height))
  }

  predicate PixelIn(t: Tile, px: nat, py: nat) {
    t.left <= px < t.right && t.top <= py < t.bottom
  }

  /** Two-dimensional covering: one and only one tile of a level has a pixel of it, and no
      tile has any other. */
  lemma PixelInOneTile(size: Size, level: nat, px: nat, py: nat, x: nat, y: nat)
    ensures PixelIn(TileOf(size, level, x, y), px, py) <==>
      px < size.width && py < size.height && x == px / 128 && y == py / 128
    ensures px < size.width && py < size.height ==>
      px / 128 < TilesAcross(size.width) && py / 128 < TilesAcross(size.height)
  {
    if px < size.width && py < size.height {
      TilesCoverOnce(size.width, px);
      TilesCoverOnce(size.height, py);
    }
    assert InTile(size.width, x, px) <==> x * TILE_SIZE <= px < Min(x * TILE_SIZE + TILE_SIZE, size.width);
    assert InTile(size.height, y, py) <==> y * TILE_SIZE <= py < Min(y * TILE_SIZE + TILE_SIZE, size.height);
  }

  // ---------------------------------------------------------------- the loops

  function Column(size: Size, level: nat, x: nat, n: nat): seq<Tile> {
    if n == 0 then [] else Column(size, level, x, n - 1) + [TileOf(size, level, x, n - 1)]
  }

  /** The first n columns of tiles of one level. */
  function Level(size: Size, level: nat, n: nat): seq<Tile> {
    if n == 0 then []
    else Level(size, level, n - 1) + Column(size, level, n - 1, TilesAcross(size.height))
  }

  function Pyramid(camera: Size, levels: nat): seq<Tile> {
    if levels == 0 then []
    else
      var size := SizeAt(camera, levels - 1);
      Pyramid(camera, levels - 1) + Level(size, levels - 1, TilesAcross(size.width))
  }

  lemma {:induction false} ColumnHas(size: Size, level: nat, x: nat, n: nat, t: Tile)
    ensures t in Column(size, level, x, n) <==> t.y < n && t == TileOf(size, level, x, t.y)
    ensures |Column(size, level, x, n)| == n
  {
    if n > 0 {
      ColumnHas(size, level, x, n - 1, t);
    }
  }

  lemma {:induction false} LevelHas(size: Size, level: nat, n: nat, t: Tile)
    ensures t in Level(size, level, n) <==>
            t.x < n && t.y < TilesAcross(size.height) && t == TileOf(size, level, t.x, t.y)
    ensures |Level(size, level, n)| == n * TilesAcross(size.height)
  {
    if n > 0 {
      LevelHas(size, level, n - 1, t);
      ColumnHas(size, level, n - 1, TilesAcross(size.height), t);
      assert (n - 1) * TilesAcross(size.height) + TilesAcross(size.height) == n * TilesAcross(size.height);
    }
  }

  /** The tiles of a level come column by column. */
  lemma {:induction false} LevelAt(size: Size, level: nat, n: nat, x: nat, y: nat)
    requires x < n && y < TilesAcross(size.height)
    ensures var rows := TilesAcross(size.height);
      && 0 <= x * rows + y < |Level(size, level, n)|
      && Level(size, level, n)[x * rows + y] == TileOf(size, level, x, y)
  {
    hide TilesAcross, TileOf, Column;
    var rows := TilesAcross(size.height);
    LevelHas(size, level, n - 1, TileOf(size, level, 0, 0));
    ColumnAt(size, level, n - 1, rows, y);
    if x < n - 1 {
      LevelAt(size, level, n - 1, x, y);
    }
  }

  lemma {:induction false} ColumnAt(size: Size, level: nat, x: nat, n: nat, y: nat)
    requires y < n
    ensures |Column(size, level, x, n)| == n && Column(size, level, x, n)[y] == TileOf(size, level, x, y)
  {
    ColumnHas(size, level, x, n, TileOf(size, level, x, 0));
    ColumnHas(size, level, x, n - 1, TileOf(size, level, x, 0));
    if y < n - 1 {
      ColumnAt(size, level, x, n - 1, y);
    }
  }

  /** The pyramid has exactly the tiles of every level. */
  lemma {:induction false} PyramidHas(camera: Size, levels: nat, t: Tile)
    ensures t in Pyramid(camera, levels) <==>
      var size := SizeAt(camera, t.level);
      && t.level < levels && t.x < TilesAcross(size.width) && t.y < TilesAcross(size.height)
      && t == TileOf(size, t.level, t.x, t.y)
  {
    if levels > 0 {
      hide Level, TilesAcross, TileOf;
      PyramidHas(camera, levels - 1, t);
      var size := SizeAt(camera, levels - 1);
      LevelHas(size, levels - 1, TilesAcross(size.width), t);
    }
  }

  predicate Distinct(s: seq<Tile>) {
    forall i, j :: 0 <= i < j < |s| ==> s[i] != s[j]
  }

  lemma Joined(a: seq<Tile>, b: seq<Tile>)
    requires Distinct(a) && Distinct(b) && forall t :: t in a ==> t !in b
    ensures Distinct(a + b)
  {
    forall i, j | 0 <= i < j < |a + b|
      ensures (a + b)[i] != (a + b)[j]
    {
      if i < |a| <= j {
        assert a[i] in a && b[j - |a|] in b;
      }
    }
  }

  lemma {:induction false} ColumnDistinct(size: Size, level: nat, x: nat, n: nat)
    ensures Distinct(Column(size, level, x, n))
  {
    if n > 0 {
      ColumnDistinct(size, level, x, n - 1);
      ColumnHas(size, level, x, n - 1, TileOf(size, level, x, n - 1));
    }
  }

  lemma {:induction false} LevelDistinct(size: Size, level: nat, n: nat)
    ensures Distinct(Level(size, level, n))
  {
    if n > 0 {
      hide TilesAcross, TileOf, Column, Distinct;
      LevelDistinct(size, level, n - 1);
      ColumnDistinct(size, level, n - 1, TilesAcross(size.height));
      var a, b := Level(size, level, n - 1), Column(size, level, n - 1, TilesAcross(size.height));
      forall t | t in a
        ensures t !in b
      {
        LevelHas(size, level, n - 1, t);
        ColumnHas(size, level, n - 1, TilesAcross(size.height), t);
      }
      Joined(a, b);
    }
  }

  lemma LevelsApart(camera: Size, levels: nat, t: Tile)
    requires t in Pyramid(camera, levels)
    ensures t !in Level(SizeAt(camera, levels), levels, TilesAcross(SizeAt(camera, levels).width))
  {
    hide Level, Pyramid, TilesAcross, SizeAt;
    PyramidHas(camera, levels, t);
    LevelHas(SizeAt(camera, levels), levels, TilesAcross(SizeAt(camera, levels).width), t);
  }

  /** No tile is written twice. */
  lemma {:induction false} PyramidDistinct(camera: Size, levels: nat)
    ensures Distinct(Pyramid(camera, levels))
  {
    if levels > 0 {
      hide Level, TilesAcross, SizeAt, Distinct;
      PyramidDistinct(camera, levels - 1);
      var size := SizeAt(camera, levels - 1);
      LevelDistinct(size, levels - 1, TilesAcross(size.width));
      var a, b := Pyramid(camera, levels - 1), Level(size, levels - 1, TilesAcross(size.width));
      forall t | t in a
        ensures t !in b
      {
        LevelsApart(camera, levels - 1, t);
      }
      Joined(a, b);
    }
  }

  lemma PyramidStep(camera: Size, level: nat)
    ensures var size := SizeAt(camera, level);
      && Pyramid(camera, level + 1) == Pyramid(camera, level) + Level(size, level, TilesAcross(size.width))
      && |Level(size, level, TilesAcross(size.width))| == TilesAcross(size.width) * TilesAcross(size.height)
  {
    var size := SizeAt(camera, level);
    LevelHas(size, level, TilesAcross(size.width), TileOf(size, level, 0, 0));
  }

  method StageLevel(size: Size, level: nat) returns (tiles: seq<Tile>)
    ensures tiles == Level(size, level, TilesAcross(size.width))
  {
    tiles := [];
    var tilesX, tilesY := TilesAcross(size.width), TilesAcross(size.height);
    for x := 0 to tilesX
      invariant tiles == Level(size, level, x)
    {
      ghost var before := tiles;
      for y := 0 to tilesY
        invariant tiles == before + Column(size, level, x, y)
      {
        var left, top := x * TILE_SIZE, y * TILE_SIZE;
        tiles := tiles + [Tile(level, x, y, left, top, Min(left + TILE_SIZE, size.width), Min(top + TILE_SIZE, size.height))];
      }
    }
  }

  lemma NoLevels(camera: Size)
    ensures Pyramid(camera, 0) == []
  {
  }

  /** All levels of one camera: the tiles written are the pyramid, and the expected
      number of tiles is the number written. */
  method StageCamera(camera: Size, maxLevel: nat) returns (tiles: seq<Tile>, expected: nat, actual: nat)
    requires camera.width > 0 && camera.height > 0
    ensures tiles == Pyramid(camera, maxLevel + 1) && Distinct(tiles)
    ensures expected == actual == |tiles|
  {
    hide Pyramid, Level, TilesAcross;
    NoLevels(camera);
    var current := camera;
    tiles, expected, actual := [], 0, 0;
    for level := 0 to maxLevel + 1
      invariant level > 0 ==> current == SizeAt(camera, level - 1)
      invariant level == 0 ==> current == camera
      invariant tiles == Pyramid(camera, level)
      invariant expected == actual == |tiles|
    {
      if level > 0 {
        SideMonotone(camera.width, camera.width, level);
        SideMonotone(camera.height, camera.height, level);
        current := Size(Max1((current.width + 1) / 2), Max1((current.height + 1) / 2));
      }
      assert current == SizeAt(camera, level);
      expected := expected + TilesAcross(current.width) * TilesAcross(current.height);
      var more := StageLevel(current, level);
      PyramidStep(camera, level);
      tiles, actual := tiles + more, actual + |more|;
    }
    PyramidDistinct(camera, maxLevel + 1);
  }
}
