/** The geometry filter of `geometry_normalize.cpp` and the way back that `text_sink.cpp` takes:
    x' = scale * x + offset along each axis. Doubles are modelled by reals. */
module Geometry {
  import opened Basics
  import opened Bytes
  import opened Detect

  datatype Geometry = Geometry(originalWidth: nat, originalHeight: nat, filterWidth: nat, filterHeight: nat,
                               scaleX: real, scaleY: real, offsetX: real, offsetY: real)
  {
    /** `valid_geometry`, without the ABI fields and the identifier. */
    predicate Valid() {
      1 <= originalWidth && 1 <= originalHeight && 1 <= filterWidth && 1 <= filterHeight && scaleX > 0.0 && scaleY > 0.0
    }

    /** `set_caps` selects the in-place path, which leaves the pixels alone, under this condition. */
    predicate InPlace() {
      && filterWidth == originalWidth && filterHeight == originalHeight
      && scaleX == 1.0 && scaleY == 1.0 && offsetX == 0.0 && offsetY == 0.0
    }

    function Forward(b: Bbox): Bbox {
      Bbox(scaleX * b.xmin + offsetX, scaleY * b.ymin + offsetY, scaleX * b.xmax + offsetX, scaleY * b.ymax + offsetY)
    }
  }

  predicate Upright(b: Bbox) {
    b.xmin < b.xmax && b.ymin < b.ymax
  }

  // ------------------------------------------------------------------ boxes

  function Back(x: real, offset: real, scale: real): real
    requires scale > 0.0
  {
    (x - offset) / scale
  }

  predicate BboxInFilter(b: Bbox, g: Geometry) {
    0.0 <= b.xmin && 0.0 <= b.ymin && b.xmax <= g.filterWidth as real && b.ymax <= g.filterHeight as real && Upright(b)
  }

  predicate InImage(b: Bbox, g: Geometry) {
    0.0 <= b.xmin && 0.0 <= b.ymin && b.xmax <= g.originalWidth as real && b.ymax <= g.originalHeight as real && Upright(b)
  }

  /** `inverse_bbox`: maps the four corners back and takes their bounding box, if it is in the image. */
  function InverseBbox(b: Bbox, g: Geometry): Option<Bbox>
    requires g.Valid()
  {
    var x0, y0 := Back(b.xmin, g.offsetX, g.scaleX), Back(b.ymin, g.offsetY, g.scaleY);
    var x1, y1 := Back(b.xmax, g.offsetX, g.scaleX), Back(b.ymin, g.offsetY, g.scaleY);
    var x2, y2 := Back(b.xmin, g.offsetX, g.scaleX), Back(b.ymax, g.offsetY, g.scaleY);
    var x3, y3 := Back(b.xmax, g.offsetX, g.scaleX), Back(b.ymax, g.offsetY, g.scaleY);
    var r := Bbox(MinReal(MinReal(x0, x1), MinReal(x2, x3)), MinReal(MinReal(y0, y1), MinReal(y2, y3)),
                  MaxReal(MaxReal(x0, x1), MaxReal(x2, x3)), MaxReal(MaxReal(y0, y1), MaxReal(y2, y3)));
    if r.xmin < 0.0 || r.ymin < 0.0 || r.xmax > g.originalWidth as real || r.ymax > g.originalHeight as real
       || r.xmin >= r.xmax || r.ymin >= r.ymax
    then None
    else Some(r)
  }

  lemma BackForward(x: real, offset: real, scale: real)
    requires scale > 0.0
    ensures Back(scale * x + offset, offset, scale) == x
  {
    var y := scale * x;
    assert y / scale == x;
  }

  lemma ForwardBack(x: real, offset: real, scale: real)
    requires scale > 0.0
    ensures scale * Back(x, offset, scale) + offset == x
  {
  }

  /** Mapping back keeps the order. */
  lemma BackOrder(x: real, y: real, offset: real, scale: real)
    requires scale > 0.0
    ensures Back(x, offset, scale) <= Back(y, offset, scale) <==> x <= y
    ensures Back(x, offset, scale) < Back(y, offset, scale) <==> x < y
  {
    var p, q := Back(x, offset, scale), Back(y, offset, scale);
    ForwardBack(x, offset, scale);
    ForwardBack(y, offset, scale);
    Scaled(p, q, scale);
  }

  lemma Scaled(p: real, q: real, scale: real)
    requires scale > 0.0
    ensures scale * p <= scale * q <==> p <= q
    ensures scale * p < scale * q <==> p < q
  {
    var d := q - p;
    assert scale * q - scale * p == scale * d;
    assert (d > 0.0 ==> scale * d > 0.0) && (d < 0.0 ==> scale * d < 0.0);
  }

  lemma InverseOfUpright(b: Bbox, g: Geometry)
    requires g.Valid() && Upright(b)
    ensures var r := Bbox(Back(b.xmin, g.offsetX, g.scaleX), Back(b.ymin, g.offsetY, g.scaleY),
                          Back(b.xmax, g.offsetX, g.scaleX), Back(b.ymax, g.offsetY, g.scaleY));
            InverseBbox(b, g) == if InImage(r, g) then Some(r) else None
  {
    hide Back;
    BackOrder(b.xmin, b.xmax, g.offsetX, g.scaleX);
    BackOrder(b.ymin, b.ymax, g.offsetY, g.scaleY);
  }

  lemma BackBoxForward(b: Bbox, g: Geometry)
    requires g.Valid()
    ensures var f := g.Forward(b);
            && Back(f.xmin, g.offsetX, g.scaleX) == b.xmin && Back(f.ymin, g.offsetY, g.scaleY) == b.ymin
            && Back(f.xmax, g.offsetX, g.scaleX) == b.xmax && Back(f.ymax, g.offsetY, g.scaleY) == b.ymax
  {
    BackForward(b.xmin, g.offsetX, g.scaleX);
    BackForward(b.ymin, g.offsetY, g.scaleY);
    BackForward(b.xmax, g.offsetX, g.scaleX);
    BackForward(b.ymax, g.offsetY, g.scaleY);
  }

  /** `inverse_bbox` undoes the forward map exactly on the upright boxes of the original image. */
  lemma InverseUndoesForward(b: Bbox, g: Geometry)
    requires g.Valid()
    ensures InverseBbox(g.Forward(b), g) == Some(b) <==> InImage(b, g)
  {
    hide Back, Geometry.Forward;
    BackBoxForward(b, g);
  }

  /** And whatever it reports of an upright box is mapped forward to that box. */
  lemma ForwardUndoesInverse(b: Bbox, g: Geometry)
    requires g.Valid() && Upright(b) && InverseBbox(b, g).Some?
    ensures g.Forward(InverseBbox(b, g).value) == b && InImage(InverseBbox(b, g).value, g)
  {
    hide InverseBbox, Back;
    InverseOfUpright(b, g);
    ForwardBack(b.xmin, g.offsetX, g.scaleX);
    ForwardBack(b.ymin, g.offsetY, g.scaleY);
    ForwardBack(b.xmax, g.offsetX, g.scaleX);
    ForwardBack(b.ymax, g.offsetY, g.scaleY);
  }

  /** Without a change of geometry the filter's boxes are the image's boxes. */
  lemma InverseInPlace(b: Bbox, g: Geometry)
    requires g.Valid() && g.InPlace() && BboxInFilter(b, g)
    ensures InverseBbox(b, g) == Some(b)
  {
    assert g.Forward(b) == b;
    InverseUndoesForward(b, g);
  }

  // ------------------------------------------------------------------ resampling

  /** Where filter pixel (x, y) is sampled from. */
  function SourceX(g: Geometry, x: int): real
    requires g.Valid()
  {
    Back(x as real, g.offsetX, g.scaleX)
  }

  function SourceY(g: Geometry, y: int): real
    requires g.Valid()
  {
    Back(y as real, g.offsetY, g.scaleY)
  }

  predicate Sampled(g: Geometry, x: int, y: int)
    requires g.Valid()
  {
    0.0 <= SourceX(g, x) < g.originalWidth as real && 0.0 <= SourceY(g, y) < g.originalHeight as real
  }

  lemma IndexInside(r: nat, c: nat, width: nat, height: nat)
    requires r < height && c < width
    ensures 0 <= r * width + c < height * width
  {
    var d: nat := height - r - 1;
    assert height * width == r * width + width + d * width;
  }

  /** The row and the column that a sampled pixel is read from. */
  lemma FloorInside(v: real, n: nat)
    requires 0.0 <= v < n as real
    ensures 0 <= v.Floor < n
  {
  }

  /** The value of filter pixel (x, y). */
  function Resampled(input: seq<Byte>, g: Geometry, x: int, y: int): Byte
    requires g.Valid() && |input| >= g.originalHeight * g.originalWidth
  {
    if Sampled(g, x, y) then
      FloorInside(SourceX(g, x), g.originalWidth);
      FloorInside(SourceY(g, y), g.originalHeight);
      IndexInside(SourceY(g, y).Floor, SourceX(g, x).Floor, g.originalWidth, g.originalHeight);
      input[SourceY(g, y).Floor * g.originalWidth + SourceX(g, x).Floor]
    else 0
  }

  function ResampledRow(input: seq<Byte>, g: Geometry, y: int, n: nat): (r: seq<Byte>)
    requires g.Valid() && |input| >= g.originalHeight * g.originalWidth
    ensures |r| == n && forall x :: 0 <= x < n ==> r[x] == Resampled(input, g, x, y)
  {
    seq(n, x requires 0 <= x < n => Resampled(input, g, x, y))
  }

  /** The first `n` rows of the output. */
  function ResampledRows(input: seq<Byte>, g: Geometry, n: nat): (r: seq<Byte>)
    requires g.Valid() && |input| >= g.originalHeight * g.originalWidth
    ensures |r| == n * g.filterWidth
  {
    if n == 0 then []
    else
      assert n * g.filterWidth == (n - 1) * g.filterWidth + g.filterWidth;
      ResampledRows(input, g, n - 1) + ResampledRow(input, g, n - 1, g.filterWidth)
  }

  /** The buffer that the loop leaves, cleared beyond the pixels it writes. */
  function Output(input: seq<Byte>, g: Geometry, size: nat): (r: seq<Byte>)
    requires g.Valid() && |input| >= g.originalHeight * g.originalWidth && size >= g.filterHeight * g.filterWidth
    ensures |r| == size
  {
    ResampledRows(input, g, g.filterHeight) + Zeros(size - g.filterHeight * g.filterWidth)
  }

  /** The resampling loop of `transform`. Both buffers hold at least the pixels, and may be larger. */
  method Transform(input: seq<Byte>, g: Geometry, size: nat) returns (output: array<Byte>)
    requires g.Valid() && |input| >= g.originalHeight * g.originalWidth && size >= g.filterHeight * g.filterWidth
    ensures fresh(output) && output[..] == Output(input, g, size)
  {
    hide Back;
    output := new Byte[size](_ => 0);
    var y := 0;
    while y < g.filterHeight
      invariant 0 <= y <= g.filterHeight && 0 <= y * g.filterWidth <= g.filterHeight * g.filterWidth <= output.Length
      invariant output[..y * g.filterWidth] == ResampledRows(input, g, y)
      invariant forall k :: y * g.filterWidth <= k < output.Length ==> output[k] == 0
    {
      IndexInside(y, g.filterWidth - 1, g.filterWidth, g.filterHeight);
      TransformRow(input, g, y, y * g.filterWidth, output);
      assert (y + 1) * g.filterWidth == y * g.filterWidth + g.filterWidth;
      y := y + 1;
    }
    assert output[..] == output[..y * g.filterWidth] + output[y * g.filterWidth..];
    assert output[y * g.filterWidth..] == Zeros(size - g.filterHeight * g.filterWidth);
  }

  method TransformRow(input: seq<Byte>, g: Geometry, y: nat, at: nat, output: array<Byte>)
    requires g.Valid() && |input| >= g.originalHeight * g.originalWidth
    requires at + g.filterWidth <= output.Length
    requires forall k :: at <= k < output.Length ==> output[k] == 0
    modifies output
    ensures output[..at + g.filterWidth] == old(output[..at]) + ResampledRow(input, g, y, g.filterWidth)
    ensures forall k :: at + g.filterWidth <= k < output.Length ==> output[k] == 0
  {
    hide Back;
    var x := 0;
    while x < g.filterWidth
      invariant 0 <= x <= g.filterWidth
      invariant forall k :: 0 <= k < at ==> output[k] == old(output[k])
      invariant forall k :: at <= k < at + x ==> output[k] == Resampled(input, g, k - at, y)
      invariant forall k :: at + x <= k < output.Length ==> output[k] == 0
    {
      var srcX := (x as real - g.offsetX) / g.scaleX;
      var srcY := (y as real - g.offsetY) / g.scaleY;
      SourceIs(g, x, y);
      if !(srcX < 0.0 || srcY < 0.0 || srcX >= g.originalWidth as real || srcY >= g.originalHeight as real) {
        var ix, iy := srcX.Floor, srcY.Floor;
        IndexInside(iy, ix, g.originalWidth, g.originalHeight);
        output[at + x] := input[iy * g.originalWidth + ix];
      }
      x := x + 1;
    }
  }

  lemma SourceIs(g: Geometry, x: int, y: int)
    requires g.Valid()
    ensures SourceX(g, x) == (x as real - g.offsetX) / g.scaleX && SourceY(g, y) == (y as real - g.offsetY) / g.scaleY
  {
  }

  /** With identity parameters the loop copies the pixels: into a buffer of the same size it computes
      exactly what the in-place path leaves, unless there are bytes beyond the pixels. */
  lemma TransformInPlace(input: seq<Byte>, g: Geometry)
    requires g.Valid() && g.InPlace() && |input| >= g.originalHeight * g.originalWidth
    ensures Output(input, g, |input|) == input <==>
            forall k :: g.originalHeight * g.originalWidth <= k < |input| ==> input[k] == 0
  {
    hide ResampledRows;
    RowsInPlace(input, g, g.filterHeight);
    var n := g.filterHeight * g.filterWidth;
    var output := Output(input, g, |input|);
    assert output[..n] == input[..n];
    forall k | n <= k < |input| ensures output[k] == 0 {
    }
  }

  lemma {:induction false} RowsInPlace(input: seq<Byte>, g: Geometry, n: nat)
    requires g.Valid() && g.InPlace() && |input| >= g.originalHeight * g.originalWidth && n <= g.filterHeight
    ensures 0 <= n * g.filterWidth <= |input|
    ensures ResampledRows(input, g, n) == input[..n * g.filterWidth]
    decreases n
  {
    if n > 0 {
      RowsInPlace(input, g, n - 1);
      IndexInside(n - 1, g.filterWidth - 1, g.filterWidth, g.filterHeight);
      assert n * g.filterWidth == (n - 1) * g.filterWidth + g.filterWidth;
      RowInPlace(input, g, n - 1, (n - 1) * g.filterWidth);
    }
  }

  lemma RowInPlace(input: seq<Byte>, g: Geometry, y: nat, at: nat)
    requires g.Valid() && g.InPlace() && |input| >= g.originalHeight * g.originalWidth
    requires y < g.originalHeight && at == y * g.originalWidth && at + g.originalWidth <= |input|
    ensures ResampledRow(input, g, y, g.filterWidth) == input[at..at + g.filterWidth]
  {
    forall x | 0 <= x < g.filterWidth ensures Resampled(input, g, x, y) == input[at + x] {
      assert SourceX(g, x) == x as real && SourceY(g, y) == y as real;
    }
  }

  /** Pixel (x, y) of the output. */
  lemma {:induction false} OutputPixel(input: seq<Byte>, g: Geometry, n: nat, x: nat, y: nat)
    requires g.Valid() && |input| >= g.originalHeight * g.originalWidth && y < n && x < g.filterWidth
    ensures 0 <= y * g.filterWidth + x < n * g.filterWidth
    ensures ResampledRows(input, g, n)[y * g.filterWidth + x] == Resampled(input, g, x, y)
    decreases n
  {
    hide Resampled;
    IndexInside(y, x, g.filterWidth, n);
    assert n * g.filterWidth == (n - 1) * g.filterWidth + g.filterWidth;
    if y < n - 1 {
      OutputPixel(input, g, n - 1, x, y);
    }
  }

  /** Source column `i` fills the stretch from scale * i + offset to scale * (i + 1) + offset, and nothing
      is beside the stretches of all columns. */
  lemma BackCell(v: real, i: nat, n: nat, offset: real, scale: real)
    requires scale > 0.0 && i < n
    ensures Back(v, offset, scale).Floor == i <==> scale * i as real + offset <= v < scale * (i + 1) as real + offset
    ensures 0.0 <= Back(v, offset, scale) < n as real <==> offset <= v < scale * n as real + offset
  {
    BackReaches(v, i as real, offset, scale);
    BackReaches(v, (i + 1) as real, offset, scale);
    BackReaches(v, 0.0, offset, scale);
    BackReaches(v, n as real, offset, scale);
    hide Back;
    FloorIs(Back(v, offset, scale), i);
    assert scale * 0.0 + offset == offset;
  }

  lemma FloorIs(x: real, i: int)
    ensures x.Floor == i <==> i as real <= x < (i + 1) as real
  {
  }

  lemma BackReaches(v: real, c: real, offset: real, scale: real)
    requires scale > 0.0
    ensures c <= Back(v, offset, scale) <==> scale * c + offset <= v
  {
    BackForward(c, offset, scale);
    BackOrder(scale * c + offset, v, offset, scale);
  }

  /** Output pixel (x, y) shows the source pixel (ix, iy) that the filter's map spreads over it ... */
  lemma OutputShows(input: seq<Byte>, g: Geometry, size: nat, x: nat, y: nat, ix: nat, iy: nat)
    requires g.Valid() && |input| >= g.originalHeight * g.originalWidth && size >= g.filterHeight * g.filterWidth
    requires x < g.filterWidth && y < g.filterHeight && ix < g.originalWidth && iy < g.originalHeight
    requires g.scaleX * ix as real + g.offsetX <= x as real < g.scaleX * (ix + 1) as real + g.offsetX
    requires g.scaleY * iy as real + g.offsetY <= y as real < g.scaleY * (iy + 1) as real + g.offsetY
    ensures 0 <= y * g.filterWidth + x < size && 0 <= iy * g.originalWidth + ix < |input|
    ensures Output(input, g, size)[y * g.filterWidth + x] == input[iy * g.originalWidth + ix]
  {
    hide Back, ResampledRows;
    BackCell(x as real, ix, g.originalWidth, g.offsetX, g.scaleX);
    BackCell(y as real, iy, g.originalHeight, g.offsetY, g.scaleY);
    IndexInside(iy, ix, g.originalWidth, g.originalHeight);
    OutputPixel(input, g, g.filterHeight, x, y);
    InsideColumn(x as real, ix, g.originalWidth, g.offsetX, g.scaleX);
    InsideColumn(y as real, iy, g.originalHeight, g.offsetY, g.scaleY);
  }

  lemma InsideColumn(v: real, i: nat, n: nat, offset: real, scale: real)
    requires scale > 0.0 && i < n && Back(v, offset, scale).Floor == i
    ensures 0.0 <= Back(v, offset, scale) < n as real
  {
    hide Back;
  }

  /** ... and is black where the map puts no source pixel. */
  lemma OutputBlack(input: seq<Byte>, g: Geometry, size: nat, x: nat, y: nat)
    requires g.Valid() && |input| >= g.originalHeight * g.originalWidth && size >= g.filterHeight * g.filterWidth
    requires x < g.filterWidth && y < g.filterHeight
    requires !(g.offsetX <= x as real < g.scaleX * g.originalWidth as real + g.offsetX)
             || !(g.offsetY <= y as real < g.scaleY * g.originalHeight as real + g.offsetY)
    ensures 0 <= y * g.filterWidth + x < size && Output(input, g, size)[y * g.filterWidth + x] == 0
  {
    hide Back, ResampledRows;
    BackCell(x as real, 0, g.originalWidth, g.offsetX, g.scaleX);
    BackCell(y as real, 0, g.originalHeight, g.offsetY, g.scaleY);
    OutputPixel(input, g, g.filterHeight, x, y);
  }

  /** The sink and the filter agree: a pixel inside a box is sampled from inside the reported box. */
  lemma PixelInReportedBox(g: Geometry, b: Bbox, x: int, y: int)
    requires g.Valid() && Upright(b) && InverseBbox(b, g).Some?
    ensures var r := InverseBbox(b, g).value;
            (b.xmin <= x as real <= b.xmax && b.ymin <= y as real <= b.ymax)
            <==> (r.xmin <= SourceX(g, x) <= r.xmax && r.ymin <= SourceY(g, y) <= r.ymax)
  {
    hide Back, InverseBbox;
    InverseOfUpright(b, g);
    BackOrder(b.xmin, x as real, g.offsetX, g.scaleX);
    BackOrder(x as real, b.xmax, g.offsetX, g.scaleX);
    BackOrder(b.ymin, y as real, g.offsetY, g.scaleY);
    BackOrder(y as real, b.ymax, g.offsetY, g.scaleY);
  }
}
