/** A whole CDG0.0 file turned into a product: the sliding-window source, the unchanged geometry, the
    detector and the sink. */
module CdgProduct {
  import opened Basics
  import opened Bytes
  import opened Cdg00
  import opened Cdg00Window
  import opened Cdg00Src
  import opened CameraLines
  import opened CameraFile
  import opened Detect
  import opened Geometry
  import opened Metadata
  import Cutter
  import Detector
  import opened DetectorToSink
  import SinkRecords
  import Product
  import Pipeline
  import Runtime
  import TextSink
  import TextSinkRuns

  // ------------------------------------------------------------------ times

  /** The camera clock that the sink takes from the start sample of a window. */
  function ClockFrom(s: Sample): Clock {
    Clock(s.valid, s.cameraSeconds, s.cameraMicroseconds, s.exposureTimeNs)
  }

  /** A window has a usable time: its first row-zero line with sixteen lines from itself on says less than
      a million microseconds. */
  ghost predicate Timed(raw: seq<Byte>) {
    exists i: nat :: TimedBy(raw, i)
  }

  ghost predicate TimedBy(raw: seq<Byte>, i: nat) {
    SampleLine(raw, i) && (forall k: nat :: k < i ==> !SampleLine(raw, k)) && SampleAt(raw, i).cameraMicroseconds <= 999999
  }

  lemma TimedIff(raw: seq<Byte>)
    ensures Timed(raw) <==> Usable(ClockFrom(First(raw, LineCount(raw))))
  {
    hide SampleLine, SampleAt;
    var n := LineCount(raw);
    SampleLinesAre(raw, n);
    NoWindowEnds(raw);
    var s := SampleLines(raw, n);
    if s != [] {
      SampleIsValid(raw, s[0]);
      forall k: nat | k < s[0] ensures !SampleLine(raw, k) {
        assert SampleLine(raw, k) ==> k in s;
      }
      if Usable(ClockFrom(First(raw, n))) {
        assert TimedBy(raw, s[0]);
      }
    }
    if i: nat :| TimedBy(raw, i) {
      InBlock(raw, i);
      assert i in s;
      assert s[0] == i;
    }
  }

  lemma SampleIsValid(raw: seq<Byte>, i: nat)
    requires SampleLine(raw, i)
    ensures SampleAt(raw, i).valid
  {
  }

  /** The clock that sample line `i` of a window gives, in plain numbers: four bytes of seconds, three of
      microseconds, and the exposure in ticks of 12.5 ns, rounded down. */
  predicate ClockIs(c: Clock, raw: seq<Byte>, i: nat) {
    && i * 6448 + 23 <= |raw| && c.valid
    && c.seconds == Field(raw, i * 6448 + 16, 4) && c.microseconds == Field(raw, i * 6448 + 10, 3)
    && 2 * c.exposureNs <= 25 * Field(raw, i * 6448 + 20, 3) < 2 * c.exposureNs + 2
  }

  ghost predicate FirstSample(raw: seq<Byte>, i: nat) {
    SampleLine(raw, i) && forall k: nat :: k < i ==> !SampleLine(raw, k)
  }

  /** The time of a window is that of its first sample line. */
  lemma ClockOfWindow(raw: seq<Byte>, i: nat)
    requires FirstSample(raw, i)
    ensures ClockIs(ClockFrom(First(raw, LineCount(raw))), raw, i)
  {
    hide SampleLine, SampleAt, Field;
    var n := LineCount(raw);
    SampleLinesAre(raw, n);
    InBlock(raw, i);
    var s := SampleLines(raw, n);
    assert i in s && SampleLine(raw, s[0]);
    SampleReads(raw, i);
  }

  /** A window of fewer than sixteen lines has no time. */
  lemma ShortWindowUntimed(raw: seq<Byte>)
    requires LineCount(raw) < 16
    ensures !Timed(raw)
  {
  }

  // ------------------------------------------------------------------ frames

  /** The pixels of a pushed frame, row by row. */
  function FrameOf(pixels: seq<Byte>, height: nat): (r: Pipeline.Pixels)
    requires |pixels| == height * IMAGE_WIDTH
    ensures |r| == height && forall row <- r :: |row| == IMAGE_WIDTH
  {
    seq(height, y requires 0 <= y < height => pixels[y * IMAGE_WIDTH..(y + 1) * IMAGE_WIDTH])
  }

  function WindowFrame(source: Source, k: nat): Pipeline.Pixels
    requires source.Valid() && k < source.Frames()
  {
    var raw := Window(source, k);
    FrameOf(Image(raw, LineCount(raw), source.height), source.height)
  }

  /** The geometry metadata of a filter that changes nothing. */
  function Unchanged(height: nat): Geometry {
    Geometry(IMAGE_WIDTH, height, IMAGE_WIDTH, height, 1.0, 1.0, 0.0, 0.0)
  }

  /** Frame `k` of the file on its way: the source's metadata, the geometry's, and the runtime's answer to
      the frame's pixels. */
  ghost predicate Takes(source: Source, flow: Flow, shot: Shot, run: Product.FrameRun) {
    && flow.Pushed? && |flow.pixels| == source.height * IMAGE_WIDTH
    && shot.metas == [Cdg00Meta(ClockFrom(flow.windowStart)), GeometryMeta(Unchanged(source.height))]
    && shot.geometry == Unchanged(source.height) && shot.clock == ClockFrom(flow.windowStart)
    && run.frame == FrameOf(flow.pixels, source.height)
  }

  lemma FindTwo(a: Meta, b: Meta, kind: Kind)
    ensures Find([a, b], kind) == if a.Is() == kind then Some(a) else if b.Is() == kind then Some(b) else None
  {
    assert [a, b][1..] == [b] && [b][1..] == [];
    assert Find([b], kind) == if b.Is() == kind then Some(b) else Find([], kind);
  }

  lemma TakenIsPlain(source: Source, flow: Flow, shot: Shot, run: Product.FrameRun)
    requires source.Valid() && Takes(source, flow, shot, run)
    ensures shot.Plain() && AllMapBack(shot)
  {
    hide Find, AllMapBack;
    AllInImage(shot);
    var a, b := Cdg00Meta(shot.clock), GeometryMeta(shot.geometry);
    FindTwo(a, b, GeometryKind);
    FindTwo(a, b, Cdg00Kind);
    FindTwo(a, b, DetectionKind);
    FindTwo(a, b, TrackingKind);
  }

  /** The stream of the first `|shots|` frames that `create` pushes. */
  ghost predicate FromFile(source: Source, shots: seq<Shot>, runs: seq<Product.FrameRun>)
    requires source.Valid()
  {
    var flows := Cdg00Src.Run(source, |shots|, 0, 0);
    && |flows| == |runs| == |shots| <= source.Frames()
    && forall k :: 0 <= k < |shots| ==> Takes(source, flows[k], shots[k], runs[k])
  }

  lemma TakenWindow(source: Source, shots: seq<Shot>, runs: seq<Product.FrameRun>, k: nat)
    requires source.Valid() && AllDecode(source) && FromFile(source, shots, runs) && k < |shots|
    ensures shots[k].Plain() && runs[k].frame == WindowFrame(source, k)
    ensures shots[k].clock == ClockFrom(First(Window(source, k), LineCount(Window(source, k))))
    ensures Presentable(shots[k]) <==> Timed(Window(source, k))
  {
    hide AllMapBack, Image, First, Cdg00Src.Run, Timed, AllDecode, Source.Frames, Shot.Plain, FrameOf;
    RunIs(source, |shots|, k);
    TakenIsPlain(source, Cdg00Src.Run(source, |shots|, 0, 0)[k], shots[k], runs[k]);
    TimedIff(Window(source, k));
  }

  ghost predicate AllTimed(source: Source, n: nat)
    requires source.Valid() && n <= source.Frames()
  {
    forall k: nat :: k < n ==> Timed(Window(source, k))
  }

  /** A run from a file to a product: the source's frames, a completed run of the threads on each, and what
    the detector and the sink leave behind. */
  ghost predicate Processed(s: TextSink.State, config: TextSink.Config, m: Runtime.Model, grid: Cutter.Grid, source: Source,
                            runs: seq<Product.FrameRun>, shots: seq<Shot>)
    requires grid.Valid() && m.crop == grid.crop && source.Valid()
  {
    && grid.width == IMAGE_WIDTH && grid.height == source.height
    && FromFile(source, shots, runs) && Product.Feeds(m, grid, runs, shots)
    && TextSinkRuns.Fresh(s) && forall k :: 0 <= k < |shots| ==> shots[k].Equipped(config)
  }

  /** The first `n` frames of a file whose windows all decode become a product exactly when n is not zero,
      at most 2^32, and each of the n windows has a usable time. Record k then shows exactly the detector's
      selection from the detections that the pixels of window k determine. */
  lemma FileDelivered(s: TextSink.State, config: TextSink.Config, m: Runtime.Model, grid: Cutter.Grid,
                      source: Source, runs: seq<Product.FrameRun>, shots: seq<Shot>)
    requires grid.Valid() && m.crop == grid.crop && source.Valid()
    requires AllDecode(source) && Processed(s, config, m, grid, source, runs, shots)
    ensures |shots| == |runs| <= source.Frames()
    ensures TextSink.RoleFinal in DetectorToSink.Product(s, config, shots) <==>
            0 < |shots| <= 0x1_0000_0000 && AllTimed(source, |shots|)
    ensures TextSink.RoleFinal in DetectorToSink.Product(s, config, shots) ==>
              var files := DetectorToSink.Product(s, config, shots);
              && TextSink.MetaFinal in files
              && Product.ShowsFrames(files[TextSink.RoleFinal], files[TextSink.MetaFinal], m, grid, runs, shots, config)
              && forall k :: 0 <= k < |runs| ==> runs[k].frame == WindowFrame(source, k)
  {
    hide DetectorToSink.Product, Product.Feeds, Product.ShowsFrames, FromFile, AllDecode, Timed, Window, WindowFrame;
    hide Shot.Plain, Shot.Equipped, Presentable, Source.Frames;
    SameLength(source, shots, runs);
    forall k: nat | k < |shots|
      ensures shots[k].Plain() && runs[k].frame == WindowFrame(source, k)
      ensures Presentable(shots[k]) <==> Timed(Window(source, k))
    {
      TakenWindow(source, shots, runs, k);
    }
    Product.FramesDelivered(s, config, m, grid, runs, shots);
  }

  lemma SameLength(source: Source, shots: seq<Shot>, runs: seq<Product.FrameRun>)
    requires source.Valid() && FromFile(source, shots, runs)
    ensures |runs| == |shots| <= source.Frames()
  {
  }

  // ------------------------------------------------------------------ from the camera to the product

  /** The frame shows these picture lines, without the two low bits of their pixels, and black below them. */
  ghost predicate IsPicture(frame: Pipeline.Pixels, lines: seq<seq<Pixel10>>, height: nat) {
    |frame| == height && forall y: nat :: y < height ==> IsPictureRow(frame[y], lines, y)
  }

  ghost predicate IsPictureRow(row: seq<int>, lines: seq<seq<Pixel10>>, y: nat) {
    |row| == 4096 && forall x: nat :: x < 4096 ==> row[x] == if y < |lines| && x < |lines[y]| then lines[y][x] / 4 else 0
  }

  /** The frame that the runtime gets for window `k` shows the picture lines of that window. */
  lemma WindowShows(source: Source, lines: seq<Line>, tail: seq<Byte>, k: nat)
    requires source.Valid() && Regular(lines) && |tail| < 6448 && source.file == Block(lines) + tail && k < source.Frames()
    ensures k * source.stride < |lines| && Regular(WindowOf(lines, source.stride, source.height, k))
    ensures IsPicture(WindowFrame(source, k), Pictures(WindowOf(lines, source.stride, source.height, k)), source.height)
  {
    hide Block, Pictures, Image, Regular, Source.Frames, Window, WindowOf, FrameOf, IsPicture;
    var rest := WindowIsBlock(source, lines, tail, k);
    var window := WindowOf(lines, source.stride, source.height, k);
    BlockPictured(window, rest, source.height);
    assert LineCount(Block(window) + rest) == |window|;
    assert WindowFrame(source, k) == Pictured(window, rest, source.height);
  }

  lemma FramePixel(pixels: seq<Byte>, height: nat, y: nat, x: nat)
    requires |pixels| == height * 4096 && y < height && x < 4096
    ensures |FrameOf(pixels, height)[y]| == 4096 && FrameOf(pixels, height)[y][x] == pixels[y * 4096 + x]
  {
  }

  function Pictured(lines: seq<Line>, rest: seq<Byte>, height: nat): (r: Pipeline.Pixels)
    requires Regular(lines) && |rest| < 6448
    ensures |r| == height
  {
    assert LineCount(Block(lines) + rest) == |lines|;
    FrameOf(Image(Block(lines) + rest, |lines|, height), height)
  }

  lemma PixelPictured(lines: seq<Line>, rest: seq<Byte>, height: nat, y: nat, x: nat)
    requires Regular(lines) && |rest| < 6448 && y < height && x < 4096
    ensures var row, p := Pictured(lines, rest, height)[y], Pictures(lines);
            |row| == 4096 && row[x] == if y < |p| && x < |p[y]| then p[y][x] / 4 else 0
  {
    hide Block, Pictures, Image, Regular, FrameOf;
    BlockShows(lines, rest, height, y, x);
    FramePixel(Image(Block(lines) + rest, |lines|, height), height, y, x);
  }

  lemma RowPictured(lines: seq<Line>, rest: seq<Byte>, height: nat, y: nat)
    requires Regular(lines) && |rest| < 6448 && y < height
    ensures IsPictureRow(Pictured(lines, rest, height)[y], Pictures(lines), y)
  {
    hide Regular, Pictured, Pictures;
    PixelPictured(lines, rest, height, y, 0);
    var row := Pictured(lines, rest, height)[y];
    forall x: nat | x < 4096
      ensures row[x] == if y < |Pictures(lines)| && x < |Pictures(lines)[y]| then Pictures(lines)[y][x] / 4 else 0
    {
      PixelPictured(lines, rest, height, y, x);
    }
  }

  lemma BlockPictured(lines: seq<Line>, rest: seq<Byte>, height: nat)
    requires Regular(lines) && |rest| < 6448
    ensures IsPicture(Pictured(lines, rest, height), Pictures(lines), height)
  {
    hide Regular, Pictured, Pictures, IsPictureRow;
    forall y: nat | y < height ensures IsPictureRow(Pictured(lines, rest, height)[y], Pictures(lines), y) {
      RowPictured(lines, rest, height, y);
    }
  }

  /** The model sees these objects in whatever frame shows the picture lines. */
  ghost predicate SeenIn(m: Runtime.Model, grid: Cutter.Grid, lines: seq<seq<Pixel10>>, height: nat, objects: seq<Detection>)
    requires grid.Valid()
  {
    forall frame: Pipeline.Pixels :: IsPicture(frame, lines, height) ==> Product.SceneOf(m, frame, grid, objects)
  }

  /** THE result: when a product of a camera's file is published, record k lists the objects that the picture
      lines k * stride to k * stride + height show, each exactly once. */
  lemma CameraToProduct(s: TextSink.State, config: TextSink.Config, m: Runtime.Model, grid: Cutter.Grid, source: Source,
                        lines: seq<Line>, tail: seq<Byte>, runs: seq<Product.FrameRun>, shots: seq<Shot>,
                        k: nat, objects: seq<Detection>)
    requires grid.Valid() && m.crop == grid.crop && source.Valid() && Processed(s, config, m, grid, source, runs, shots)
    requires Regular(lines) && |tail| < 6448 && source.file == Block(lines) + tail && NoDarkWindow(source, lines)
    requires k < |shots| && k * source.stride < |lines| && Regular(WindowOf(lines, source.stride, source.height, k))
    requires SeenIn(m, grid, Pictures(WindowOf(lines, source.stride, source.height, k)), source.height, objects)
    ensures |shots| == |runs| <= source.Frames()
    ensures var files := DetectorToSink.Product(s, config, shots);
            && (TextSink.RoleFinal in files <==> |shots| <= 0x1_0000_0000 && AllTimed(source, |shots|))
            && (TextSink.RoleFinal in files ==>
                  var role := files[TextSink.RoleFinal];
                  && |role| == |shots| && role[k].RoleRecord? && role[k].frameId == k
                  && (forall i: nat :: FirstSample(Window(source, k), i) ==> ClockIs(role[k].clock, Window(source, k), i))
                  && Product.ListsObjects(role[k].items, objects, Unchanged(source.height), config))
  {
    hide DetectorToSink.Product, Product.Feeds, FromFile, AllDecode, AllTimed, WindowFrame, Shot.Plain, Shot.Equipped;
    hide FirstSample, ClockIs, Window, First, Source.Frames, Block, Pictures, WindowOf, Regular, NoDarkWindow;
    hide Product.SceneOf, Product.ListsObjects, Presentable, IsPicture;
    CameraDecodes(source, lines, tail);
    FileDelivered(s, config, m, grid, source, runs, shots);
    SameLength(source, shots, runs);
    TakenWindow(source, shots, runs, k);
    WindowShows(source, lines, tail, k);
    forall j | 0 <= j < |shots| ensures shots[j].Plain() {
      TakenWindow(source, shots, runs, j);
    }
    GeometryTaken(source, shots, runs, k);
    forall i: nat | FirstSample(Window(source, k), i)
      ensures ClockIs(ClockFrom(First(Window(source, k), LineCount(Window(source, k)))), Window(source, k), i)
    {
      ClockOfWindow(Window(source, k), i);
    }
    Product.ObjectsDelivered(s, config, m, grid, runs, shots, k, objects);
  }

  lemma GeometryTaken(source: Source, shots: seq<Shot>, runs: seq<Product.FrameRun>, k: nat)
    requires source.Valid() && FromFile(source, shots, runs) && k < |shots|
    ensures shots[k].geometry == Unchanged(source.height)
  {
    hide Cdg00Src.Run;
  }

  /** Where the geometry is unchanged an item shows a box exactly as it is. */
  lemma UnchangedShows(b: Bbox, filtered: Bbox, height: nat)
    ensures SinkRecords.Shows(b, filtered, Unchanged(height)) ==> b == filtered
  {
  }

  // ------------------------------------------------------------------ the end of a file

  /** How many lines the last window of a file has. */
  lemma LastWindow(source: Source)
    requires source.Valid() && source.Lines() > 0
    ensures source.Frames() > 0
    ensures LineCount(Window(source, source.Frames() - 1)) == Min(source.height, (source.Lines() - 1) % source.stride + 1)
  {
    var n, stride := source.Lines() - 1, source.stride;
    FrameCount(source, 0);
    var k := LastFrameFrom(source, n);
    FrameCount(source, k + 1);
    FrameCount(source, source.Frames() - 1);
    assert k == source.Frames() - 1;
    OffsetInFile(source, k);
    WindowLines(source, k, 0);
    Remainder(n, k, stride);
  }

  lemma Remainder(n: nat, k: nat, stride: nat)
    requires stride > 0 && k * stride <= n < (k + 1) * stride
    ensures n - k * stride == n % stride
  {
    assert (k + 1) * stride == k * stride + stride;
    var q := n / stride;
    assert n == q * stride + n % stride;
    assert (q + 1) * stride == q * stride + stride;
    if q < k {
      Times(q + 1, k, stride);
    } else if k < q {
      Times(k + 1, q, stride);
    }
  }

  /** So a file is never published whole when fewer than sixteen lines are left for its last window. */
  lemma ShortTail(source: Source)
    requires source.Valid() && source.Lines() > 0
    requires Min(source.height, (source.Lines() - 1) % source.stride + 1) < 16
    ensures !AllTimed(source, source.Frames())
  {
    hide Timed;
    LastWindow(source);
    ShortWindowUntimed(Window(source, source.Frames() - 1));
    assert !Timed(Window(source, source.Frames() - 1));
  }
}
