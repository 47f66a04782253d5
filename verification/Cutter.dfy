/** The tile cutter of `yolox_runtime.cpp`: which tiles a frame is cut into, and who gets which. */
module Cutter {
  import opened Basics
  import opened Detect

  // ------------------------------------------------------------------ tile counts

  /** How many whole strides it takes to cover a distance, rounded up. */
  function CeilDiv(a: nat, b: nat): nat
    requires b > 0
  {
    if a % b == 0 then a / b else a / b + 1
  }

  lemma CeilDivBounds(a: nat, b: nat)
    requires b > 0
    ensures (CeilDiv(a, b) - 1) * b < a <= CeilDiv(a, b) * b || a == CeilDiv(a, b) == 0
  {
    var q := a / b;
    assert a == q * b + a % b;
    assert (q + 1) * b == q * b + b && (q - 1) * b == q * b - b;
  }

  /** `std::ceil` of a non-negative quotient. */
  ghost predicate IsCeil(y: real, n: int) {
    n as real - 1.0 < y <= n as real
  }

  /** The source divides two floats and takes the ceiling. A correctly rounded quotient of numbers
      below 2^24 is within 2^-24 of the exact one and is exact when the exact one is an integer;
      its ceiling is then the integer ceiling. */
  lemma FloatCeilingIsExact(a: nat, b: nat, y: real)
    requires 0 < b && a < 0x100_0000
    requires -(a as real) <= (y * b as real - a as real) * 16777216.0 <= a as real
    requires a % b == 0 ==> y == (a / b) as real
    ensures IsCeil(y, CeilDiv(a, b))
  {
    var q, r := a / b, a % b;
    assert a == q * b + r;
    var d := y * b as real - a as real;
    assert -1.0 < d < 1.0;
    if r > 0 {
      assert a as real == q as real * b as real + r as real;
      Between(y, q as real, r as real + d, b as real);
    }
  }

  lemma Between(y: real, q: real, r: real, b: real)
    requires b > 0.0 && y * b == q * b + r && 0.0 < r < b
    ensures q < y < q + 1.0
  {
    var t, u := q - y, y - q - 1.0;
    assert t * b == -r;
    assert u * b == y * b - q * b - b;
    Negative(t, b);
    Negative(u, b);
  }

  lemma Negative(x: real, b: real)
    requires b > 0.0 && x * b < 0.0
    ensures x < 0.0
  {
  }

  // ------------------------------------------------------------------ the grid

  /** A frame cut into `crop` by `crop` tiles, `stride` apart. */
  datatype Grid = Grid(width: nat, height: nat, crop: nat, stride: nat)
  {
    /** What `infer_gray8` has checked before it builds a cutter. */
    predicate Valid() {
      1 <= stride <= crop <= width && crop <= height
    }

    function MaxX(): (r: nat)
      requires Valid()
      ensures r > 0
    {
      CeilDiv(width - crop, stride) + 1
    }

    function MaxY(): (r: nat)
      requires Valid()
      ensures r > 0
    {
      CeilDiv(height - crop, stride) + 1
    }

    function Count(): nat
      requires Valid()
    {
      MaxX() * MaxY()
    }

    function Tile(k: nat): ImageInfo
      requires Valid()
    {
      ImageInfo(Clip((k % MaxX()) * stride, width, crop), Clip((k / MaxX()) * stride, height, crop))
    }

    /** All tiles, row by row. */
    function Tiles(): (r: seq<ImageInfo>)
      requires Valid()
      ensures |r| == Count()
      ensures forall k :: 0 <= k < Count() ==> r[k] == Tile(k)
    {
      seq(Count(), k requires 0 <= k < Count() => Tile(k))
    }
  }

  function Clip(offset: nat, size: nat, crop: nat): nat
    requires crop <= size
  {
    if offset + crop > size then size - crop else offset
  }

  /** One critical section: the next index, and the tile if there is one left. */
  function GetStep(g: Grid, index: nat): (nat, Option<ImageInfo>)
    requires g.Valid()
  {
    (index + 1, if index < g.Count() then Some(g.Tile(index)) else None)
  }

  class Cutter {
    const grid: Grid
    var index: nat

    ghost predicate Valid()
      reads this
    {
      grid.Valid()
    }

    constructor (width: nat, height: nat, crop: nat, stride: nat)
      requires Grid(width, height, crop, stride).Valid()
      ensures Valid() && grid == Grid(width, height, crop, stride) && index == 0
    {
      grid := Grid(width, height, crop, stride);
      index := 0;
    }

    method GetNext() returns (ok: bool, res: ImageInfo)
      requires Valid()
      modifies this
      ensures (index, if ok then Some(res) else None) == GetStep(grid, old(index))
    {
      hide CeilDiv, Clip;
      var maxX := CeilDiv(grid.width - grid.crop, grid.stride) + 1;
      var maxY := CeilDiv(grid.height - grid.crop, grid.stride) + 1;
      var k := index;
      index := k + 1;
      if k + 1 > maxX * maxY {
        return false, ImageInfo(0, 0);
      }
      res := ImageInfo((k % maxX) * grid.stride, (k / maxX) * grid.stride);
      res := ImageInfo(Clip(res.xOffset, grid.width, grid.crop), Clip(res.yOffset, grid.height, grid.crop));
      ok := true;
    }
  }

  // ------------------------------------------------------------------ several callers

  /** What a sequence of `get_next` calls, by whatever callers, hands out: the mutex makes them one
      critical section after another. */
  function Handed<Caller>(g: Grid, index: nat, callers: seq<Caller>): (r: seq<(Caller, Option<ImageInfo>)>)
    requires g.Valid()
    ensures |r| == |callers|
    decreases |callers|
  {
    if callers == [] then []
    else
      var (next, tile) := GetStep(g, index);
      [(callers[0], tile)] + Handed(g, next, callers[1..])
  }

  /** The calls themselves, on one cutter. */
  method CallAll<Caller>(cutter: Cutter, callers: seq<Caller>) returns (handed: seq<(Caller, Option<ImageInfo>)>)
    requires cutter.Valid()
    modifies cutter
    ensures handed == Handed(cutter.grid, old(cutter.index), callers)
  {
    handed := [];
    var i := 0;
    ghost var from := cutter.index;
    while i < |callers|
      invariant 0 <= i <= |callers|
      invariant handed + Handed(cutter.grid, cutter.index, callers[i..]) == Handed(cutter.grid, from, callers)
    {
      hide GetStep;
      ghost var before := cutter.index;
      var ok, tile := cutter.GetNext();
      var item := (callers[i], if ok then Some(tile) else None);
      assert callers[i..][1..] == callers[i + 1..];
      assert Handed(cutter.grid, before, callers[i..]) == [item] + Handed(cutter.grid, cutter.index, callers[i + 1..]);
      handed := handed + [item];
      i := i + 1;
    }
    assert callers[i..] == [];
  }

  /** However the callers interleave, the i-th call gets the i-th tile. */
  lemma {:induction false} HandedInOrder<Caller>(g: Grid, index: nat, callers: seq<Caller>, i: nat)
    requires g.Valid() && i < |callers|
    ensures Handed(g, index, callers)[i] == (callers[i], GetStep(g, index + i).1)
    decreases |callers|
  {
    hide GetStep;
    StepNext(g, index);
    if i > 0 {
      HandedInOrder(g, index + 1, callers[1..], i - 1);
      assert index + 1 + (i - 1) == index + i;
    }
  }

  lemma StepNext(g: Grid, index: nat)
    requires g.Valid()
    ensures GetStep(g, index).0 == index + 1
  {
  }

  /** Once there have been at least as many calls as tiles, each tile of the grid has been handed out by
      exactly one of them, and the calls beyond get nothing. */
  lemma EachTileOnce<Caller>(g: Grid, callers: seq<Caller>)
    requires g.Valid() && |callers| >= g.Count()
    ensures var handed := Handed(g, 0, callers);
            && (forall k: nat :: k < g.Count() ==>
                  handed[k].1 == Some(g.Tile(k)) &&
                  forall i :: 0 <= i < |handed| && handed[i].1 == Some(g.Tile(k)) ==> i == k)
            && (forall i: nat :: g.Count() <= i < |handed| ==> handed[i].1 == None)
  {
    hide Handed, Grid.Tile, Grid.Count;
    var handed := Handed(g, 0, callers);
    forall i: nat | i < |callers| ensures handed[i].1 == if i < g.Count() then Some(g.Tile(i)) else None {
      HandedInOrder(g, 0, callers, i);
    }
    forall k: nat, i: nat | k < g.Count() && i < g.Count() && g.Tile(i) == g.Tile(k) ensures i == k {
      if i < k {
        TilesDistinct(g, i, k);
      } else if k < i {
        TilesDistinct(g, k, i);
      }
    }
  }

  // ------------------------------------------------------------------ one axis

  /** Along one axis, tile number `i` of the `CeilDiv(size - crop, stride) + 1` starts at: */
  function At(i: nat, size: nat, crop: nat, stride: nat): nat
    requires crop <= size
  {
    Clip(i * stride, size, crop)
  }

  lemma AxisIncreasing(i: nat, j: nat, size: nat, crop: nat, stride: nat)
    requires 1 <= stride <= crop <= size
    requires i < j <= CeilDiv(size - crop, stride)
    ensures At(i, size, crop, stride) < At(j, size, crop, stride)
  {
    CeilDivBounds(size - crop, stride);
    var n := CeilDiv(size - crop, stride);
    assert i * stride <= (n - 1) * stride by { assert i <= n - 1; Times(i, n - 1, stride); }
    assert i * stride < j * stride by { Times(i + 1, j, stride); assert (i + 1) * stride == i * stride + stride; }
  }

  /** A whole number along the axis: some tile starts at or before it, and then either less than a stride
      before it or at the end of the axis. */
  lemma AxisReaches(f: nat, size: nat, crop: nat, stride: nat) returns (i: nat)
    requires 1 <= stride <= crop <= size
    ensures i <= CeilDiv(size - crop, stride)
    ensures At(i, size, crop, stride) <= f && (f + 1 <= At(i, size, crop, stride) + stride || At(i, size, crop, stride) + crop == size)
  {
    CeilDivBounds(size - crop, stride);
    var n, k := CeilDiv(size - crop, stride), f / stride;
    hide CeilDiv;
    assert f == k * stride + f % stride;
    if k <= n {
      i := k;
    } else {
      i := n;
      Times(n, k, stride);
    }
  }

  /** An interval no longer than `crop - stride` lies wholly inside some tile. */
  lemma AxisContains(lo: real, hi: real, size: nat, crop: nat, stride: nat) returns (i: nat)
    requires 1 <= stride <= crop <= size
    requires 0.0 <= lo <= hi <= size as real && hi - lo <= (crop - stride) as real
    ensures i <= CeilDiv(size - crop, stride)
    ensures At(i, size, crop, stride) as real <= lo && hi <= (At(i, size, crop, stride) + crop) as real
  {
    hide CeilDiv, At;
    i := AxisReaches(lo.Floor, size, crop, stride);
  }

  /** The last tile of an axis ends exactly at the edge of the frame. */
  lemma AxisReachesEnd(size: nat, crop: nat, stride: nat)
    requires 1 <= stride <= crop <= size
    ensures At(CeilDiv(size - crop, stride), size, crop, stride) == size - crop
  {
    CeilDivBounds(size - crop, stride);
  }

  // ------------------------------------------------------------------ the whole grid

  lemma QuotientUnique(q: int, r: nat, p: int, t: nat, n: nat)
    requires r < n && t < n && q * n + r == p * n + t
    ensures q == p && r == t
  {
    assert (q + 1) * n == q * n + n && (p + 1) * n == p * n + n;
    if q < p {
      Times(q + 1, p, n);
    } else if p < q {
      Times(p + 1, q, n);
    }
  }

  lemma RowsOrdered(k: nat, l: nat, n: nat)
    requires n > 0 && k <= l
    ensures k / n <= l / n
  {
    assert k == (k / n) * n + k % n && l == (l / n) * n + l % n;
    assert (l / n + 1) * n == (l / n) * n + n;
    if l / n < k / n {
      Times(l / n + 1, k / n, n);
    }
  }

  lemma TileInGrid(g: Grid, i: nat, j: nat)
    requires g.Valid() && i < g.MaxX() && j < g.MaxY()
    ensures j * g.MaxX() + i < g.Count()
    ensures g.Tile(j * g.MaxX() + i) == ImageInfo(At(i, g.width, g.crop, g.stride), At(j, g.height, g.crop, g.stride))
  {
    var k, n := j * g.MaxX() + i, g.MaxX();
    assert k == (k / n) * n + k % n;
    QuotientUnique(k / n, k % n, j, i, n);
    Times(j + 1, g.MaxY(), g.MaxX());
    assert (j + 1) * g.MaxX() == j * g.MaxX() + g.MaxX();
    assert g.MaxY() * g.MaxX() == g.Count();
  }

  /** The tiles go row by row; each is a multiple of the stride from the corner of the frame, unless that
      leaves the frame, and then it ends at the edge. A row or column of tiles ends with the first that
      reaches the edge. */
  lemma TileAt(g: Grid, i: nat, j: nat)
    requires g.Valid()
    ensures (g.MaxX() - 1) * g.stride >= g.width - g.crop && (g.MaxY() - 1) * g.stride >= g.height - g.crop
    ensures i + 1 < g.MaxX() ==> i * g.stride + g.crop < g.width
    ensures j + 1 < g.MaxY() ==> j * g.stride + g.crop < g.height
    ensures i < g.MaxX() && j < g.MaxY() ==>
              && j * g.MaxX() + i < g.Count() == g.MaxX() * g.MaxY()
              && g.Tile(j * g.MaxX() + i) ==
                 ImageInfo(if i * g.stride + g.crop <= g.width then i * g.stride else g.width - g.crop,
                           if j * g.stride + g.crop <= g.height then j * g.stride else g.height - g.crop)
  {
    CeilDivBounds(g.width - g.crop, g.stride);
    CeilDivBounds(g.height - g.crop, g.stride);
    hide CeilDiv, Grid.Tile, Grid.Count;
    if i + 1 < g.MaxX() {
      Times(i, g.MaxX() - 2, g.stride);
    }
    if j + 1 < g.MaxY() {
      Times(j, g.MaxY() - 2, g.stride);
    }
    if i < g.MaxX() && j < g.MaxY() {
      TileInGrid(g, i, j);
      CountIs(g);
    }
  }

  lemma CountIs(g: Grid)
    requires g.Valid()
    ensures g.Count() == g.MaxX() * g.MaxY()
  {
  }

  /** Every tile of the grid is `crop` by `crop` pixels inside the frame. */
  lemma TilesInFrame(g: Grid, k: nat)
    requires g.Valid() && k < g.Count()
    ensures g.Tile(k).xOffset + g.crop <= g.width && g.Tile(k).yOffset + g.crop <= g.height
  {
  }

  /** No two tiles are the same. */
  lemma TilesDistinct(g: Grid, k: nat, l: nat)
    requires g.Valid() && k < l < g.Count()
    ensures g.Tile(k) != g.Tile(l)
  {
    hide CeilDiv, Clip, Grid.Count;
    var n := g.MaxX();
    assert k == (k / n) * n + k % n && l == (l / n) * n + l % n;
    RowInGrid(g, l);
    RowsOrdered(k, l, n);
    if k / n == l / n {
      AxisIncreasing(k % n, l % n, g.width, g.crop, g.stride);
    } else {
      AxisIncreasing(k / n, l / n, g.height, g.crop, g.stride);
    }
  }

  lemma RowInGrid(g: Grid, k: nat)
    requires g.Valid() && k < g.Count()
    ensures k / g.MaxX() < g.MaxY()
  {
    var n := g.MaxX();
    assert k == (k / n) * n + k % n;
    assert g.MaxY() * n == g.Count();
    if k / n >= g.MaxY() {
      Times(g.MaxY(), k / n, n);
    }
  }

  /** Every box with both sides at most `crop - stride` lies wholly inside some tile. */
  lemma BoxInSomeTile(g: Grid, b: Bbox) returns (k: nat)
    requires g.Valid()
    requires 0.0 <= b.xmin <= b.xmax <= g.width as real && b.xmax - b.xmin <= (g.crop - g.stride) as real
    requires 0.0 <= b.ymin <= b.ymax <= g.height as real && b.ymax - b.ymin <= (g.crop - g.stride) as real
    ensures k < g.Count()
    ensures g.Tile(k).xOffset as real <= b.xmin && b.xmax <= (g.Tile(k).xOffset + g.crop) as real
    ensures g.Tile(k).yOffset as real <= b.ymin && b.ymax <= (g.Tile(k).yOffset + g.crop) as real
  {
    var i := AxisContains(b.xmin, b.xmax, g.width, g.crop, g.stride);
    var j := AxisContains(b.ymin, b.ymax, g.height, g.crop, g.stride);
    TileInGrid(g, i, j);
    k := j * g.MaxX() + i;
  }

  /** Every pixel of an axis is in some tile. */
  lemma AxisCovers(p: nat, size: nat, crop: nat, stride: nat) returns (i: nat)
    requires 1 <= stride <= crop <= size && p < size
    ensures i <= CeilDiv(size - crop, stride)
    ensures At(i, size, crop, stride) <= p < At(i, size, crop, stride) + crop
  {
    CeilDivBounds(size - crop, stride);
    var n, k := CeilDiv(size - crop, stride), p / stride;
    assert p == k * stride + p % stride;
    if k <= n {
      i := k;
    } else {
      i := n;
      Times(n, k, stride);
    }
  }

  /** The stride that `infer_gray8` chooses: `round(crop * 0.78125)`, halves away from zero. */
  function StridePx(crop: nat): nat {
    (50 * crop + 32) / 64
  }

  /** It is the nearest integer, and it always leaves a usable grid. */
  lemma StrideIsUsable(crop: nat)
    ensures StridePx(crop) as real - 0.5 <= crop as real * 0.78125 < StridePx(crop) as real + 0.5
    ensures 1 <= crop ==> 1 <= StridePx(crop) <= crop
  {
    var s := StridePx(crop);
    assert 64 * s <= 50 * crop + 32 < 64 * s + 64;
    assert (64 * s) as real == 64.0 * s as real && (50 * crop) as real == 50.0 * crop as real;
  }

  // ------------------------------------------------------------------ what the producer reads

  /** The producer reads `model_width` by `model_height` pixels at each tile's corner, but the cutter
      is built from the model's width alone. */
  predicate FitsFrame(g: Grid, modelHeight: nat, k: nat)
    requires g.Valid()
  {
    g.Tile(k).xOffset + g.crop <= g.width && g.Tile(k).yOffset + modelHeight <= g.height
  }

  ghost predicate InFrame(g: Grid, modelHeight: nat)
    requires g.Valid()
  {
    forall k: nat :: k < g.Count() ==> FitsFrame(g, modelHeight, k)
  }

  predicate Reads(g: Grid, modelHeight: nat, k: nat, x: nat, y: nat)
    requires g.Valid()
  {
    && k < g.Count()
    && g.Tile(k).xOffset <= x < g.Tile(k).xOffset + g.crop
    && g.Tile(k).yOffset <= y < g.Tile(k).yOffset + modelHeight
  }

  ghost predicate IsRead(g: Grid, modelHeight: nat, x: nat, y: nat)
    requires g.Valid()
  {
    exists k: nat :: Reads(g, modelHeight, k, x, y)
  }

  ghost predicate Covers(g: Grid, modelHeight: nat)
    requires g.Valid()
  {
    forall x: nat, y: nat :: x < g.width && y < g.height ==> IsRead(g, modelHeight, x, y)
  }

  lemma TileReads(g: Grid, i: nat, j: nat, x: nat, y: nat)
    requires g.Valid() && i < g.MaxX() && j < g.MaxY()
    requires At(i, g.width, g.crop, g.stride) <= x < At(i, g.width, g.crop, g.stride) + g.crop
    requires At(j, g.height, g.crop, g.stride) <= y < At(j, g.height, g.crop, g.stride) + g.crop
    ensures IsRead(g, g.crop, x, y)
  {
    hide At, CeilDiv, Grid.MaxX, Grid.MaxY;
    TileInGrid(g, i, j);
    hide Grid.Tile, Grid.Count;
    var k := j * g.MaxX() + i;
    assert Reads(g, g.crop, k, x, y);
  }

  lemma SquareReads(g: Grid, x: nat, y: nat)
    requires g.Valid() && x < g.width && y < g.height
    ensures IsRead(g, g.crop, x, y)
  {
    hide At, CeilDiv, IsRead;
    var i := AxisCovers(x, g.width, g.crop, g.stride);
    var j := AxisCovers(y, g.height, g.crop, g.stride);
    TileReads(g, i, j, x, y);
  }

  lemma TallOverruns(g: Grid, modelHeight: nat)
    requires g.Valid() && modelHeight > g.crop
    ensures !InFrame(g, modelHeight)
  {
    TileInGrid(g, 0, g.MaxY() - 1);
    AxisReachesEnd(g.height, g.crop, g.stride);
    assert !FitsFrame(g, modelHeight, (g.MaxY() - 1) * g.MaxX() + 0);
  }

  lemma ShortLeavesGap(g: Grid, modelHeight: nat)
    requires g.Valid() && modelHeight < g.crop
    ensures !IsRead(g, modelHeight, 0, g.height - 1)
  {
    var x: nat, y: nat := 0, g.height - 1;
    forall k: nat | k < g.Count() ensures !Reads(g, modelHeight, k, x, y) {
      TilesInFrame(g, k);
    }
  }

  /** Every tile the producer reads is inside the frame and every pixel of the frame is read, exactly
      when the model input is square. */
  lemma TilingIsSoundIffSquare(g: Grid, modelHeight: nat)
    requires g.Valid()
    ensures InFrame(g, modelHeight) && Covers(g, modelHeight) <==> modelHeight == g.crop
  {
    hide Reads, IsRead, FitsFrame;
    if modelHeight > g.crop {
      TallOverruns(g, modelHeight);
    } else if modelHeight < g.crop {
      ShortLeavesGap(g, modelHeight);
    } else {
      forall x: nat, y: nat | x < g.width && y < g.height ensures IsRead(g, modelHeight, x, y) {
        SquareReads(g, x, y);
      }
      SquareFits(g);
    }
  }

  lemma SquareFits(g: Grid)
    requires g.Valid()
    ensures InFrame(g, g.crop)
  {
    forall k: nat | k < g.Count() ensures FitsFrame(g, g.crop, k) {
      TilesInFrame(g, k);
    }
  }
}
