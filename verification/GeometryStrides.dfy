/** Row strides. The resampling loop of `geometry_normalize.cpp` indexes both buffers by the width of the
    picture; the elements after it read rows at the stride of the plane, which for 8-bit grey is by
    default the width rounded up to a multiple of four. */
module GeometryStrides {
  import opened Basics
  import opened Bytes
  import opened Geometry

  /** The bytes between the starts of two rows, in the plane read and in the plane written. */
  datatype Strides = Strides(input: nat, output: nat)
  {
    predicate Fit(g: Geometry) {
      g.originalWidth <= input && g.filterWidth <= output
    }

    /** Rows without padding. */
    predicate Tight(g: Geometry) {
      input == g.originalWidth && output == g.filterWidth
    }
  }

  function RoundUp4(n: nat): nat {
    (n + 3) / 4 * 4
  }

  function DefaultStrides(g: Geometry): Strides {
    Strides(RoundUp4(g.originalWidth), RoundUp4(g.filterWidth))
  }

  // ------------------------------------------------------------------ where a byte comes from

  /** The input byte that the pixel (x, y) of the filter plane is meant to show, if it shows one, in a
      plane of the given stride. */
  function Source(g: Geometry, stride: nat, x: int, y: int): Option<int>
    requires g.Valid()
  {
    if Sampled(g, x, y) then Some(SourceY(g, y).Floor * stride + SourceX(g, x).Floor) else None
  }

  /** In plain numbers: row `iy` and column `ix` of the plane, if the filter's map spreads that pixel over
      (x, y), and nothing if it puts none there. */
  lemma SourceIs(g: Geometry, stride: nat, x: nat, y: nat, ix: nat, iy: nat)
    requires g.Valid() && ix < g.originalWidth && iy < g.originalHeight
    ensures g.scaleX * ix as real + g.offsetX <= x as real < g.scaleX * (ix + 1) as real + g.offsetX
            && g.scaleY * iy as real + g.offsetY <= y as real < g.scaleY * (iy + 1) as real + g.offsetY ==>
              Source(g, stride, x, y) == Some(iy * stride + ix)
    ensures Source(g, stride, x, y).Some? <==>
              && g.offsetX <= x as real < g.scaleX * g.originalWidth as real + g.offsetX
              && g.offsetY <= y as real < g.scaleY * g.originalHeight as real + g.offsetY
  {
    hide Back;
    BackCell(x as real, ix, g.originalWidth, g.offsetX, g.scaleX);
    BackCell(y as real, iy, g.originalHeight, g.offsetY, g.scaleY);
  }

  /** The input byte that the loop puts at position `p` of its output. */
  function Written(g: Geometry, p: nat): Option<int>
    requires g.Valid()
  {
    if p < g.filterHeight * g.filterWidth then Source(g, g.originalWidth, p % g.filterWidth, p / g.filterWidth) else None
  }

  function Fetch(input: seq<Byte>, source: Option<int>): Byte {
    if source.Some? && 0 <= source.value < |input| then input[source.value] else 0
  }

  lemma SourceInside(g: Geometry, stride: nat, x: int, y: int)
    requires g.Valid() && stride >= g.originalWidth && Source(g, stride, x, y).Some?
    ensures 0 <= Source(g, stride, x, y).value < g.originalHeight * stride
  {
    hide Sampled;
    SampledInside(g, x, y);
    IndexInside(SourceY(g, y).Floor, SourceX(g, x).Floor, stride, g.originalHeight);
  }

  lemma SampledInside(g: Geometry, x: int, y: int)
    requires g.Valid() && Sampled(g, x, y)
    ensures 0 <= SourceX(g, x).Floor < g.originalWidth && 0 <= SourceY(g, y).Floor < g.originalHeight
  {
    FloorInside(SourceX(g, x), g.originalWidth);
    FloorInside(SourceY(g, y), g.originalHeight);
  }

  lemma Larger(g: Geometry, strides: Strides)
    requires strides.Fit(g)
    ensures g.originalHeight * g.originalWidth <= g.originalHeight * strides.input
    ensures g.filterHeight * g.filterWidth <= g.filterHeight * strides.output
  {
    Times(g.originalWidth, strides.input, g.originalHeight);
    Times(g.filterWidth, strides.output, g.filterHeight);
  }

  /** Byte `p` of the output. */
  lemma OutputByte(input: seq<Byte>, g: Geometry, size: nat, p: nat)
    requires g.Valid() && |input| >= g.originalHeight * g.originalWidth && size >= g.filterHeight * g.filterWidth && p < size
    ensures Output(input, g, size)[p] == Fetch(input, Written(g, p))
  {
    hide Sampled, SourceX, SourceY, ResampledRows;
    if p < g.filterHeight * g.filterWidth {
      var x, y := p % g.filterWidth, p / g.filterWidth;
      assert p == y * g.filterWidth + x;
      RowInside(y, x, g.filterWidth, g.filterHeight);
      OutputPixel(input, g, g.filterHeight, x, y);
      ResampledIs(input, g, x, y);
    }
  }

  lemma RowInside(y: nat, x: nat, width: nat, height: nat)
    requires x < width && y * width + x < height * width
    ensures y < height
  {
    if y >= height {
      Times(height, y, width);
    }
  }

  lemma ResampledIs(input: seq<Byte>, g: Geometry, x: int, y: int)
    requires g.Valid() && |input| >= g.originalHeight * g.originalWidth
    ensures Resampled(input, g, x, y) == Fetch(input, Source(g, g.originalWidth, x, y))
  {
    if Sampled(g, x, y) {
      SourceInside(g, g.originalWidth, x, y);
    }
  }

  // ------------------------------------------------------------------ what a reader sees

  /** The byte that a reader of the output plane takes for pixel (x, y). */
  function Seen(input: seq<Byte>, g: Geometry, strides: Strides, x: nat, y: nat): Byte
    requires g.Valid() && strides.Fit(g) && |input| == g.originalHeight * strides.input
    requires x < g.filterWidth && y < g.filterHeight
  {
    Larger(g, strides);
    IndexInside(y, x, strides.output, g.filterHeight);
    Output(input, g, g.filterHeight * strides.output)[y * strides.output + x]
  }

  /** It is the right one: the pixel of the input plane under the back-mapped position, or zero. */
  ghost predicate Right(input: seq<Byte>, g: Geometry, strides: Strides, x: nat, y: nat)
    requires g.Valid() && strides.Fit(g) && |input| == g.originalHeight * strides.input
    requires x < g.filterWidth && y < g.filterHeight
  {
    Seen(input, g, strides, x, y) == Fetch(input, Source(g, strides.input, x, y))
  }

  /** Every pixel of every picture is right. */
  ghost predicate AlwaysRight(g: Geometry, strides: Strides)
    requires g.Valid() && strides.Fit(g)
  {
    forall x: nat, y: nat, input: seq<Byte> ::
      x < g.filterWidth && y < g.filterHeight && |input| == g.originalHeight * strides.input ==>
        Right(input, g, strides, x, y)
  }

  /** The loop wrote the byte that the reader means. */
  predicate SameSource(g: Geometry, strides: Strides, x: nat, y: nat)
    requires g.Valid()
  {
    Written(g, y * strides.output + x) == Source(g, strides.input, x, y)
  }

  lemma SeenIs(input: seq<Byte>, g: Geometry, strides: Strides, x: nat, y: nat)
    requires g.Valid() && strides.Fit(g) && |input| == g.originalHeight * strides.input
    requires x < g.filterWidth && y < g.filterHeight
    ensures Seen(input, g, strides, x, y) == Fetch(input, Written(g, y * strides.output + x))
  {
    hide Written, Output, Fetch;
    Larger(g, strides);
    IndexInside(y, x, strides.output, g.filterHeight);
    OutputByte(input, g, g.filterHeight * strides.output, y * strides.output + x);
  }

  /** A picture with one bright byte. */
  function Spot(n: nat, k: int): (r: seq<Byte>)
    ensures |r| == n && forall i :: 0 <= i < n ==> r[i] == if i == k then 1 else 0
  {
    seq(n, i => if i == k then 1 else 0)
  }

  lemma WrongSource(g: Geometry, strides: Strides, x: nat, y: nat)
    requires g.Valid() && strides.Fit(g) && x < g.filterWidth && y < g.filterHeight && !SameSource(g, strides, x, y)
    ensures !AlwaysRight(g, strides)
  {
    hide Sampled, Seen, AlwaysRight;
    var written, meant := Written(g, y * strides.output + x), Source(g, strides.input, x, y);
    if written.Some? {
      WrittenInside(g, strides, y * strides.output + x);
    }
    if meant.Some? {
      SourceInside(g, strides.input, x, y);
    }
    var input := Spot(g.originalHeight * strides.input, if meant.Some? then meant.value else written.value);
    SeenIs(input, g, strides, x, y);
    Unequal(input, written, meant);
    NotRight(input, g, strides, x, y);
  }

  lemma NotRight(input: seq<Byte>, g: Geometry, strides: Strides, x: nat, y: nat)
    requires g.Valid() && strides.Fit(g) && |input| == g.originalHeight * strides.input
    requires x < g.filterWidth && y < g.filterHeight && !Right(input, g, strides, x, y)
    ensures !AlwaysRight(g, strides)
  {
    hide Right;
  }

  lemma WrittenInside(g: Geometry, strides: Strides, p: nat)
    requires g.Valid() && strides.Fit(g) && Written(g, p).Some?
    ensures 0 <= Written(g, p).value < g.originalHeight * strides.input
  {
    hide Sampled;
    SourceInside(g, g.originalWidth, p % g.filterWidth, p / g.filterWidth);
    Larger(g, strides);
  }

  lemma Unequal(input: seq<Byte>, a: Option<int>, b: Option<int>)
    requires a != b && (a.Some? ==> 0 <= a.value < |input|) && (b.Some? ==> 0 <= b.value < |input|)
    requires input == Spot(|input|, if b.Some? then b.value else if a.Some? then a.value else 0)
    ensures Fetch(input, a) != Fetch(input, b)
  {
  }

  /** Every pixel of every picture is right exactly when each has the source that its reader means. */
  lemma AlwaysRightIff(g: Geometry, strides: Strides)
    requires g.Valid() && strides.Fit(g)
    ensures AlwaysRight(g, strides) <==>
            forall x: nat, y: nat :: x < g.filterWidth && y < g.filterHeight ==> SameSource(g, strides, x, y)
  {
    hide Seen, Written, Source, Fetch;
    if forall x: nat, y: nat :: x < g.filterWidth && y < g.filterHeight ==> SameSource(g, strides, x, y) {
      forall x: nat, y: nat, input: seq<Byte> |
        x < g.filterWidth && y < g.filterHeight && |input| == g.originalHeight * strides.input
        ensures Right(input, g, strides, x, y)
      {
        SeenIs(input, g, strides, x, y);
        assert SameSource(g, strides, x, y);
      }
    } else {
      var x: nat, y: nat :| x < g.filterWidth && y < g.filterHeight && !SameSource(g, strides, x, y);
      WrongSource(g, strides, x, y);
    }
  }

  // ------------------------------------------------------------------ when that is so

  lemma Position(x: nat, y: nat, width: nat)
    requires x < width
    ensures (y * width + x) % width == x && (y * width + x) / width == y
  {
    var p := y * width + x;
    var q, r := p / width, p % width;
    assert p == q * width + r;
    assert (q + 1) * width == q * width + width && (y + 1) * width == y * width + width;
    if q < y {
      Times(q + 1, y, width);
    } else if y < q {
      Times(y + 1, q, width);
    }
  }

  /** Without output padding, or with a single row, the loop and the reader mean the same position. */
  lemma WrittenAt(g: Geometry, strides: Strides, x: nat, y: nat)
    requires g.Valid() && strides.Fit(g) && x < g.filterWidth && y < g.filterHeight
    requires strides.output == g.filterWidth || g.filterHeight == 1
    ensures Written(g, y * strides.output + x) == Source(g, g.originalWidth, x, y)
  {
    hide Source;
    assert y * strides.output == y * g.filterWidth;
    Position(x, y, g.filterWidth);
    IndexInside(y, x, g.filterWidth, g.filterHeight);
  }

  /** Nothing below the first row of the input is ever sampled. */
  ghost predicate FirstRowOnly(g: Geometry)
    requires g.Valid()
  {
    forall x: nat, y: nat :: x < g.filterWidth && y < g.filterHeight && Sampled(g, x, y) ==> SourceY(g, y).Floor == 0
  }

  lemma SameSourceIff(g: Geometry, strides: Strides, x: nat, y: nat)
    requires g.Valid() && strides.Fit(g) && x < g.filterWidth && y < g.filterHeight
    requires strides.output == g.filterWidth || g.filterHeight == 1
    ensures SameSource(g, strides, x, y) <==>
            strides.input == g.originalWidth || !Sampled(g, x, y) || SourceY(g, y).Floor == 0
  {
    hide Sampled, SourceX, SourceY, Written;
    WrittenAt(g, strides, x, y);
    if Sampled(g, x, y) {
      SampledInside(g, x, y);
      RowsApart(SourceY(g, y).Floor, g.originalWidth, strides.input);
    }
  }

  lemma RowsApart(row: nat, width: nat, stride: nat)
    requires width <= stride
    ensures row * width == row * stride <==> width == stride || row == 0
  {
    var d: nat := stride - width;
    assert row * stride == row * width + row * d;
    if row > 0 && d > 0 {
      Times(1, row, d);
    }
  }

  /** With unpadded output rows everything is right exactly when the input rows are unpadded too, or
      nothing below the first of them is sampled. */
  lemma UnpaddedOutputIff(g: Geometry, strides: Strides)
    requires g.Valid() && strides.Fit(g) && (strides.output == g.filterWidth || g.filterHeight == 1)
    ensures AlwaysRight(g, strides) <==> strides.input == g.originalWidth || FirstRowOnly(g)
  {
    hide AlwaysRight, SameSource, Sampled, SourceY;
    AlwaysRightIff(g, strides);
    forall x: nat, y: nat | x < g.filterWidth && y < g.filterHeight
      ensures SameSource(g, strides, x, y) <==>
              strides.input == g.originalWidth || !Sampled(g, x, y) || SourceY(g, y).Floor == 0
    {
      SameSourceIff(g, strides, x, y);
    }
  }

  /** Rows that are not padded are always right. */
  lemma TightIsRight(g: Geometry, strides: Strides)
    requires g.Valid() && strides.Tight(g)
    ensures AlwaysRight(g, strides)
  {
    hide AlwaysRight;
    UnpaddedOutputIff(g, strides);
  }

  /** With padded output rows the reader takes the last pixel from behind everything that was written. */
  lemma LastPixelLost(g: Geometry, strides: Strides)
    requires g.Valid() && strides.Fit(g) && g.filterHeight > 1 && strides.output > g.filterWidth
    requires Sampled(g, g.filterWidth - 1, g.filterHeight - 1)
    ensures !SameSource(g, strides, g.filterWidth - 1, g.filterHeight - 1)
  {
    hide Sampled;
    var d: nat := strides.output - g.filterWidth;
    var last: nat := g.filterHeight - 1;
    Times(1, last, d);
    assert last * strides.output == last * g.filterWidth + last * d;
    assert g.filterHeight * g.filterWidth == last * g.filterWidth + g.filterWidth;
  }

  lemma FirstRowOnlyIff(g: Geometry)
    requires g.Valid() && Sampled(g, g.filterWidth - 1, g.filterHeight - 1)
    ensures FirstRowOnly(g) <==> SourceY(g, g.filterHeight - 1) < 1.0
  {
    hide Back;
    forall x: nat, y: nat | x < g.filterWidth && y < g.filterHeight && Sampled(g, x, y)
      ensures SourceY(g, y) <= SourceY(g, g.filterHeight - 1)
    {
      BackOrder(y as real, (g.filterHeight - 1) as real, g.offsetY, g.scaleY);
    }
  }

  /** When the last pixel of the filter plane shows something, every pixel of every picture is right
      exactly when neither plane has padded rows, leaving aside an output of a single row and an input
      of which only the first row is sampled. */
  lemma StridesRightIff(g: Geometry, strides: Strides)
    requires g.Valid() && strides.Fit(g) && Sampled(g, g.filterWidth - 1, g.filterHeight - 1)
    ensures AlwaysRight(g, strides) <==>
            && (strides.output == g.filterWidth || g.filterHeight == 1)
            && (strides.input == g.originalWidth || SourceY(g, g.filterHeight - 1) < 1.0)
  {
    hide AlwaysRight, SameSource, Sampled, SourceY, FirstRowOnly;
    if strides.output == g.filterWidth || g.filterHeight == 1 {
      UnpaddedOutputIff(g, strides);
      FirstRowOnlyIff(g);
    } else {
      LastPixelLost(g, strides);
      WrongSource(g, strides, g.filterWidth - 1, g.filterHeight - 1);
    }
  }

  /** At the default strides: exactly when both widths are multiples of four. */
  lemma DefaultStridesRightIff(g: Geometry)
    requires g.Valid() && Sampled(g, g.filterWidth - 1, g.filterHeight - 1)
    requires g.filterHeight > 1 && SourceY(g, g.filterHeight - 1) >= 1.0
    ensures DefaultStrides(g).Fit(g)
    ensures AlwaysRight(g, DefaultStrides(g)) <==> g.originalWidth % 4 == 0 && g.filterWidth % 4 == 0
  {
    hide AlwaysRight, Sampled, SourceY;
    StridesRightIff(g, DefaultStrides(g));
  }

  /** Such a filter: 1001 of 1004 columns. The reader's pixel (0, 1) is what was written as (3, 1). */
  lemma PaddedWidth()
    ensures var g := Geometry(1004, 2, 1001, 2, 1.0, 1.0, 0.0, 0.0);
            && g.Valid() && !g.InPlace() && DefaultStrides(g) == Strides(1004, 1004)
            && Source(g, 1004, 0, 1) == Some(1004) && Written(g, 1004) == Source(g, 1004, 3, 1) == Some(1007)
            && !AlwaysRight(g, DefaultStrides(g))
  {
    var g := Geometry(1004, 2, 1001, 2, 1.0, 1.0, 0.0, 0.0);
    assert SourceY(g, 1) == 1.0 && SourceX(g, 0) == 0.0 && SourceX(g, 3) == 3.0 && SourceX(g, 1000) == 1000.0;
    hide AlwaysRight;
    DefaultStridesRightIff(g);
  }
}
