/** The sliding-window source of `cdg00_src.cpp`: each `create` decodes one window of lines and moves
    on by `stride_lines`. The input file does not change while it is read. */
module Cdg00Src {
  import opened Basics
  import opened Bytes
  import opened Cdg00
  import opened Cdg00Window

  /** A pushed frame carries its number, the decoded image and the two samples of its metadata. */
  datatype Flow = Eos | Failed | Pushed(number: nat, pixels: seq<Byte>, windowStart: Sample, windowEnd: Sample)

  datatype Source = Source(file: seq<Byte>, height: nat, stride: nat)
  {
    /** The ranges that the element's properties allow. */
    predicate Valid() {
      1 <= height && 1 <= stride
    }

    /** Whole lines in the file; a partial line may follow them. */
    function Lines(): nat {
      |file| / LINE_SIZE
    }

    function Block(offset: nat): seq<Byte>
      requires offset <= |file|
    {
      file[offset..offset + Min(LINE_SIZE * height, |file| - offset)]
    }

    /** Some line of the window is valid. */
    ghost predicate Decodes(raw: seq<Byte>) {
      height > 0 && exists i: nat :: ValidLine(raw, i)
    }

    function Frame(number: nat, raw: seq<Byte>): Flow {
      Pushed(number, Image(raw, LineCount(raw), height), First(raw, LineCount(raw)), Last(raw, LineCount(raw)))
    }

    /** One `create`: the outcome, the new offset and the new frame number. */
    ghost function Step(offset: nat, number: nat): (Flow, nat, nat) {
      if offset >= |file| || Min(LINE_SIZE * height, |file| - offset) < LINE_SIZE then (Eos, offset, number)
      else if !Decodes(Block(offset)) then (Failed, offset + LINE_SIZE * stride, number)
      else (Frame(number, Block(offset)), offset + LINE_SIZE * stride, number + 1)
    }

    /** How many frames: the lines in strides, rounded up. */
    function Frames(): nat
      requires Valid()
    {
      (Lines() + stride - 1) / stride
    }

    /** The lines of frame `k`: `[k * stride, End(k))`. */
    function End(k: nat): nat {
      Min(k * stride + height, Lines())
    }
  }

  class Cdg00Source {
    const source: Source
    var offset: nat
    var frameNumber: nat

    constructor (source: Source)
      ensures this.source == source && offset == 0 && frameNumber == 0
    {
      this.source := source;
      offset, frameNumber := 0, 0;
    }

    method Create() returns (flow: Flow)
      modifies this
      ensures (flow, offset, frameNumber) == source.Step(old(offset), old(frameNumber))
    {
      hide Image, First, Last, ValidLine;
      if offset >= |source.file| {
        return Eos;
      }
      var available := Min(LINE_SIZE * source.height, |source.file| - offset);
      if available < LINE_SIZE {
        return Eos;
      }
      var raw := source.file[offset..offset + available];
      offset := offset + LINE_SIZE * source.stride;
      var ok, pixels, windowStart, windowEnd := DecodeWindow(raw, source.height);
      if !ok {
        return Failed;
      }
      flow := Pushed(frameNumber, pixels[..], windowStart, windowEnd);
      frameNumber := frameNumber + 1;
    }
  }

  // ------------------------------------------------------------------ whole runs

  /** The flows of `calls` calls of `create`. */
  ghost function Run(s: Source, calls: nat, offset: nat, number: nat): seq<Flow> {
    if calls == 0 then []
    else
      var (flow, o, n) := s.Step(offset, number);
      [flow] + Run(s, calls - 1, o, n)
  }

  /** `n / stride`, rounded up, is the least number of strides that reaches `n`. */
  lemma FrameCount(s: Source, k: nat)
    requires s.Valid()
    ensures k < s.Frames() <==> k * s.stride < s.Lines()
  {
    var m := s.Lines() + s.stride - 1;
    assert m == s.Frames() * s.stride + m % s.stride;
    if k < s.Frames() {
      Times(k + 1, s.Frames(), s.stride);
    } else {
      Times(s.Frames(), k, s.stride);
    }
    assert (k + 1) * s.stride == k * s.stride + s.stride;
  }

  /** The window of frame `k` is made of whole lines of the file from `k * stride` on, never more than
      the image has rows, so decoding drops none of them. */
  lemma WindowLines(s: Source, k: nat, i: nat)
    requires s.Valid() && k < s.Frames()
    requires LINE_SIZE * (k * s.stride) <= |s.file|
    ensures var raw := s.Block(LINE_SIZE * (k * s.stride));
            && LineCount(raw) == s.End(k) - k * s.stride <= s.height
            && (i < LineCount(raw) ==>
                  raw[i * LINE_SIZE..(i + 1) * LINE_SIZE] ==
                  s.file[(k * s.stride + i) * LINE_SIZE..(k * s.stride + i + 1) * LINE_SIZE])
  {
    FrameCount(s, k);
    var first := k * s.stride;
    var raw := s.Block(LINE_SIZE * first);
    WholeLines(|s.file|, first, s.height);
    if i < LineCount(raw) {
      Subslice(s.file, LINE_SIZE * first, |raw|, i * LINE_SIZE, (i + 1) * LINE_SIZE);
    }
  }

  lemma Subslice(f: seq<Byte>, at: nat, length: nat, i: nat, j: nat)
    requires i <= j <= length && at + length <= |f|
    ensures f[at..at + length][i..j] == f[at + i..at + j]
  {
    var inner := f[at..at + length];
    forall k | 0 <= k < j - i ensures inner[i..j][k] == f[at + i..at + j][k] {
      assert inner[i..j][k] == inner[i + k] == f[at + (i + k)];
    }
  }

  lemma WholeLines(size: nat, first: nat, height: nat)
    requires LINE_SIZE * first <= size
    ensures Min(LINE_SIZE * height, size - LINE_SIZE * first) / LINE_SIZE == Min(first + height, size / LINE_SIZE) - first
  {
  }

  lemma AllRowsKept(raw: seq<Byte>, n: nat, height: nat)
    requires n <= height
    ensures Kept(raw, n, height) == ValidLines(raw, n)
  {
    AtMost(raw, n);
  }

  lemma {:induction false} AtMost(raw: seq<Byte>, n: nat)
    ensures |ValidLines(raw, n)| <= n
  {
    if n > 0 {
      AtMost(raw, n - 1);
    }
  }

  ghost predicate AllDecode(s: Source)
    requires s.Valid()
  {
    forall k: nat :: k < s.Frames() ==> LINE_SIZE * (k * s.stride) <= |s.file| && s.Decodes(s.Block(LINE_SIZE * (k * s.stride)))
  }

  /** The offset after `k` calls: it stops moving at the end of the stream. */
  function Offset(s: Source, k: nat): nat
    requires s.Valid()
  {
    LINE_SIZE * (Min(k, s.Frames()) * s.stride)
  }

  /** What call number `k` returns. */
  ghost function Expected(s: Source, k: nat): Flow
    requires s.Valid() && AllDecode(s)
  {
    if k < s.Frames() then s.Frame(k, s.Block(LINE_SIZE * (k * s.stride))) else Eos
  }

  lemma EnoughBytes(size: nat, first: nat)
    ensures first < size / LINE_SIZE <==> LINE_SIZE * first + LINE_SIZE <= size
  {
  }

  lemma StepIs(s: Source, k: nat)
    requires s.Valid() && AllDecode(s)
    ensures s.Step(Offset(s, k), Min(k, s.Frames())) == (Expected(s, k), Offset(s, k + 1), Min(k + 1, s.Frames()))
  {
    hide Source.Frame, Source.Decodes;
    var m := Min(k, s.Frames());
    FrameCount(s, m);
    EnoughBytes(|s.file|, m * s.stride);
    assert (m + 1) * s.stride == m * s.stride + s.stride;
    if k < s.Frames() {
      assert s.Decodes(s.Block(LINE_SIZE * (k * s.stride)));
    }
  }

  lemma {:induction false} RunFrom(s: Source, calls: nat, k: nat, i: nat)
    requires s.Valid() && AllDecode(s) && i < calls
    ensures |Run(s, calls, Offset(s, k), Min(k, s.Frames()))| == calls
    ensures Run(s, calls, Offset(s, k), Min(k, s.Frames()))[i] == Expected(s, k + i)
    decreases calls
  {
    hide Source.Frames, Source.Step, Expected, Offset, Min, AllDecode;
    StepIs(s, k);
    if calls > 1 {
      RunFrom(s, calls - 1, k + 1, if i > 0 then i - 1 else 0);
    }
  }

  /** A file whose windows all decode gives exactly `ceil(lines / stride)` frames, frame `k` from line
      `k * stride` on, and then the end of the stream, however often `create` is called again. */
  lemma RunIs(s: Source, calls: nat, i: nat)
    requires s.Valid() && AllDecode(s) && i < calls
    ensures |Run(s, calls, 0, 0)| == calls
    ensures i < s.Frames() ==> Run(s, calls, 0, 0)[i] == s.Frame(i, s.Block(LINE_SIZE * (i * s.stride)))
    ensures i >= s.Frames() ==> Run(s, calls, 0, 0)[i] == Eos
  {
    hide Run, Source.Frame, AllDecode;
    RunFrom(s, calls, 0, i);
  }

  lemma OffsetInFile(s: Source, k: nat)
    requires s.Valid() && k < s.Frames()
    ensures LINE_SIZE * (k * s.stride) + LINE_SIZE <= |s.file|
  {
    FrameCount(s, k);
    EnoughBytes(|s.file|, k * s.stride);
  }

  function Window(s: Source, k: nat): seq<Byte>
    requires s.Valid() && k < s.Frames()
  {
    OffsetInFile(s, k);
    s.Block(LINE_SIZE * (k * s.stride))
  }

  /** Window `k` decodes. */
  ghost predicate Good(s: Source, k: nat)
    requires s.Valid() && k < s.Frames()
  {
    s.Decodes(Window(s, k))
  }

  lemma StepGood(s: Source, k: nat)
    requires s.Valid() && k < s.Frames()
    ensures var (flow, offset, number) := s.Step(LINE_SIZE * (k * s.stride), k);
            if Good(s, k) then flow == s.Frame(k, Window(s, k)) && offset == LINE_SIZE * ((k + 1) * s.stride) && number == k + 1
            else flow == Failed
  {
    hide Source.Decodes, Source.Frame;
    OffsetInFile(s, k);
    assert (k + 1) * s.stride == k * s.stride + s.stride;
  }

  /** When window `n` is the first that does not decode, `create` gives the frames before it and then
      reports the failure. */
  lemma {:induction false} RunFailsAt(s: Source, n: nat, k: nat, i: nat)
    requires s.Valid() && k <= n < s.Frames() && i <= n - k
    requires !Good(s, n) && forall j: nat :: j < n ==> Good(s, j)
    ensures var run := Run(s, n - k + 1, LINE_SIZE * (k * s.stride), k);
            |run| == n - k + 1 && if i < n - k then run[i] == s.Frame(k + i, Window(s, k + i)) else run[i] == Failed
    decreases n - k
  {
    hide Source.Frames, Source.Step, Source.Frame, Window, Good;
    StepGood(s, k);
    if k < n {
      RunFailsAt(s, n, k + 1, if i > 0 then i - 1 else 0);
    }
  }

  // ------------------------------------------------------------------ coverage

  /** Line `l` is one of the lines of frame `k`. */
  predicate Shows(s: Source, k: nat, l: nat)
    requires s.Valid()
  {
    k < s.Frames() && k * s.stride <= l < s.End(k)
  }

  ghost predicate Shown(s: Source, l: nat)
    requires s.Valid()
  {
    exists k: nat :: Shows(s, k, l)
  }

  ghost predicate ShownOnce(s: Source, l: nat)
    requires s.Valid()
  {
    Shown(s, l) && forall j: nat, k: nat :: Shows(s, j, l) && Shows(s, k, l) ==> j == k
  }

  lemma LastFrameFrom(s: Source, l: nat) returns (k: nat)
    requires s.Valid() && l < s.Lines()
    ensures k < s.Frames() && k * s.stride <= l < (k + 1) * s.stride
  {
    k := l / s.stride;
    assert l == k * s.stride + l % s.stride;
    assert (k + 1) * s.stride == k * s.stride + s.stride;
    FrameCount(s, k);
  }

  /** Every line is in some frame exactly when the stride does not exceed the height, or one frame
      already holds the whole file. */
  lemma EveryLineShown(s: Source)
    requires s.Valid()
    ensures (forall l: nat :: l < s.Lines() ==> Shown(s, l)) <==> s.stride <= s.height || s.Lines() <= s.height
  {
    hide Source.Frames, Shown;
    if s.stride <= s.height || s.Lines() <= s.height {
      forall l: nat | l < s.Lines() ensures Shown(s, l) {
        LineShown(s, l);
      }
    } else {
      LineSkipped(s);
    }
  }

  lemma LineShown(s: Source, l: nat)
    requires s.Valid() && l < s.Lines() && (s.stride <= s.height || s.Lines() <= s.height)
    ensures Shown(s, l)
  {
    hide Source.Frames;
    var k := LastFrameFrom(s, l);
    assert (k + 1) * s.stride == k * s.stride + s.stride;
    if s.stride <= s.height {
      assert Shows(s, k, l);
    } else {
      FrameCount(s, 0);
      assert Shows(s, 0, l);
    }
  }

  lemma LineSkipped(s: Source)
    requires s.Valid() && s.height < s.stride && s.height < s.Lines()
    ensures !Shown(s, s.height)
  {
    hide Source.Frames;
    forall k: nat ensures !Shows(s, k, s.height) {
      if k > 0 {
        Times(1, k, s.stride);
      }
    }
  }

  /** Every line is in exactly one frame exactly when the windows abut, or one frame is all there is. */
  lemma EveryLineShownOnce(s: Source)
    requires s.Valid()
    ensures (forall l: nat :: l < s.Lines() ==> ShownOnce(s, l)) <==>
            s.stride == s.height || s.Lines() <= Min(s.stride, s.height)
  {
    hide Source.Frames, Shown, Shows;
    if s.stride == s.height || s.Lines() <= Min(s.stride, s.height) {
      forall l: nat | l < s.Lines() ensures ShownOnce(s, l) {
        LineShown(s, l);
        forall j: nat, k: nat | Shows(s, j, l) && Shows(s, k, l) ensures j == k {
          OneFrame(s, j, k, l);
          OneFrame(s, k, j, l);
        }
      }
    } else if s.height < s.stride {
      LineSkipped(s);
      assert !ShownOnce(s, s.height);
    } else {
      LineRepeated(s);
    }
  }

  lemma OneFrame(s: Source, j: nat, k: nat, l: nat)
    requires s.Valid() && Shows(s, j, l) && Shows(s, k, l) && l < s.Lines()
    requires s.stride == s.height || s.Lines() <= Min(s.stride, s.height)
    ensures j >= k
  {
    hide Source.Frames;
    assert (j + 1) * s.stride == j * s.stride + s.stride && j * s.stride >= 0;
    if j < k {
      Times(j + 1, k, s.stride);
    }
  }

  lemma LineRepeated(s: Source)
    requires s.Valid() && s.stride < s.height && s.stride < s.Lines()
    ensures !ShownOnce(s, s.stride)
  {
    hide Source.Frames;
    FrameCount(s, 0);
    FrameCount(s, 1);
    assert Shows(s, 0, s.stride) && Shows(s, 1, s.stride);
  }

  // ------------------------------------------------------------------ pixels

  /** Row `r` of an image shows line `l` of a block, pixel for pixel. */
  predicate RowShows(pixels: seq<Byte>, r: nat, raw: seq<Byte>, l: nat) {
    && l < LineCount(raw) && (r + 1) * IMAGE_WIDTH <= |pixels|
    && forall c: nat :: c < IMAGE_WIDTH ==> PixelShows(pixels, r, c, raw, l)
  }

  predicate PixelShows(pixels: seq<Byte>, r: nat, c: nat, raw: seq<Byte>, l: nat)
    requires l < LineCount(raw) && (r + 1) * IMAGE_WIDTH <= |pixels| && c < IMAGE_WIDTH
  {
    pixels[r * IMAGE_WIDTH + c] == Symbol(Payload(raw, l), c) / 4
  }

  lemma SameLine(raw: seq<Byte>, i: nat, file: seq<Byte>, l: nat)
    requires i < LineCount(raw) && l < LineCount(file)
    requires raw[i * LINE_SIZE..(i + 1) * LINE_SIZE] == file[l * LINE_SIZE..(l + 1) * LINE_SIZE]
    ensures ValidLine(raw, i) == ValidLine(file, l) && Payload(raw, i) == Payload(file, l)
  {
    var line := raw[i * LINE_SIZE..(i + 1) * LINE_SIZE];
    var skip := LINE_HEADER_SIZE + LINE_PARAM_SIZE;
    Subslice(raw, i * LINE_SIZE, LINE_SIZE, 0, |MAGIC|);
    Subslice(file, l * LINE_SIZE, LINE_SIZE, 0, |MAGIC|);
    Subslice(raw, i * LINE_SIZE, LINE_SIZE, skip, skip + PACKED_LINE_SIZE);
    Subslice(file, l * LINE_SIZE, LINE_SIZE, skip, skip + PACKED_LINE_SIZE);
  }

  lemma WindowRow(raw: seq<Byte>, height: nat, i: nat) returns (r: nat)
    requires ValidLine(raw, i) && LineCount(raw) <= height
    ensures r < height && RowShows(Image(raw, LineCount(raw), height), r, raw, i)
  {
    hide ValidLine, Payload, Symbol, Image;
    var n := LineCount(raw);
    ValidLinesAre(raw, n);
    AtMost(raw, n);
    InRange(raw, i);
    var v := ValidLines(raw, n);
    r :| 0 <= r < |v| && v[r] == i;
    forall c: nat | c < IMAGE_WIDTH ensures PixelShows(Image(raw, n, height), r, c, raw, i) {
      ImageAt(raw, height, r, c);
    }
  }

  lemma RowMoves(pixels: seq<Byte>, r: nat, raw: seq<Byte>, i: nat, file: seq<Byte>, l: nat)
    requires RowShows(pixels, r, raw, i) && l < LineCount(file) && Payload(raw, i) == Payload(file, l)
    ensures RowShows(pixels, r, file, l)
  {
    hide Payload, Symbol;
    forall c: nat | c < IMAGE_WIDTH ensures PixelShows(pixels, r, c, file, l) {
      assert PixelShows(pixels, r, c, raw, i);
    }
  }

  /** Line `l` of the file is line `i` of the window of every frame that shows it. */
  lemma WindowOfLine(s: Source, k: nat, l: nat) returns (i: nat)
    requires s.Valid() && Shows(s, k, l)
    ensures i < LineCount(Window(s, k)) <= s.height && l < LineCount(s.file)
    ensures ValidLine(Window(s, k), i) == ValidLine(s.file, l) && Payload(Window(s, k), i) == Payload(s.file, l)
  {
    hide ValidLine, Payload, Source.Frames, Source.Block;
    OffsetInFile(s, k);
    i := l - k * s.stride;
    WindowLines(s, k, i);
    SameLine(Window(s, k), i, s.file, l);
  }

  lemma FrameOfRun(s: Source, k: nat)
    requires s.Valid() && AllDecode(s) && k < s.Frames()
    ensures |Run(s, s.Frames(), 0, 0)| == s.Frames()
    ensures Run(s, s.Frames(), 0, 0)[k] == s.Frame(k, Window(s, k))
  {
    hide Run, Source.Frame, Source.Frames, Source.Block, AllDecode;
    RunIs(s, s.Frames(), k);
  }

  /** Unless lines are skipped, every valid line of the file is a row of pixels in some pushed frame. */
  lemma EveryValidLineShown(s: Source, l: nat) returns (k: nat, r: nat)
    requires s.Valid() && AllDecode(s) && ValidLine(s.file, l) && (s.stride <= s.height || s.Lines() <= s.height)
    ensures k < s.Frames() && r < s.height && |Run(s, s.Frames(), 0, 0)| == s.Frames()
    ensures var flow := Run(s, s.Frames(), 0, 0)[k];
            flow.Pushed? && flow.number == k && RowShows(flow.pixels, r, s.file, l)
  {
    hide ValidLine, Run, RowShows, Image, First, Last, Source.Frames, Source.Block, Source.End, Payload, Window, AllDecode;
    InRange(s.file, l);
    LineShown(s, l);
    k :| Shows(s, k, l);
    hide Source.Valid, Shows;
    FrameOfRun(s, k);
    var i := WindowOfLine(s, k, l);
    r := WindowRow(Window(s, k), s.height, i);
    RowMoves(Image(Window(s, k), LineCount(Window(s, k)), s.height), r, Window(s, k), i, s.file, l);
  }
}
