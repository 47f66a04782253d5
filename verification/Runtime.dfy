/** `YoloxRuntime::infer_gray8` as a whole: cutter, pipeline, decoders and the final suppression. */
module Runtime {
  import opened Detect
  import opened Cutter
  import opened Pipeline
  import PipelineRuns
  import Nms
  import YoloDecode

  const POOL_SLOTS: nat := 20

  /** The fixed parts of a runtime: the model's square input size, its class count, the thresholds,
      the device, and how a 16-bit pattern reads as a number. */
  datatype Model = Model(crop: nat, classNum: nat, scoreThreshold: real, nmsThreshold: real, topK: int,
                         channelsFirst: bool, device: Pixels -> Tensor, half: int -> real)
  {
    /** What `post_process_one` fills in: the tile is its own original image. */
    function Post(): YoloDecode.PostInfo {
      YoloDecode.PostInfo(crop, crop, crop, crop, scoreThreshold, nmsThreshold, topK, true, classNum)
    }

    function Rows(out: Tensor): seq<seq<real>>
      requires |out| == YoloDecode.KNUM_DETECTIONS * (classNum + 4)
    {
      if channelsFirst then YoloDecode.RowsV9(out, YoloDecode.KNUM_DETECTIONS, classNum + 4, half)
      else YoloDecode.RowsV8(out, YoloDecode.KNUM_DETECTIONS, classNum + 4, half)
    }

    /** The boxes of one tile. (A device that returns a tensor of another size is not modelled.) */
    ghost function Decode(out: Tensor): seq<Detection>
      requires crop > 0
    {
      if |out| == YoloDecode.KNUM_DETECTIONS * (classNum + 4) then
        Nms.Nms(YoloDecode.Candidates(Post(), Rows(out)), nmsThreshold, false)
      else []
    }
  }

  /** `post_process_one`: the decoder of the model's layout. */
  method PostProcessOne(m: Model, out: Tensor) returns (tiles: seq<Detection>)
    requires m.crop > 0 && |out| == YoloDecode.KNUM_DETECTIONS * (m.classNum + 4)
    ensures tiles == m.Decode(out)
  {
    if m.channelsFirst {
      tiles := YoloDecode.Yolov9sPostProcess(m.Post(), out, m.half);
    } else {
      tiles := YoloDecode.Yolov8sPostProcess(m.Post(), out, m.half);
    }
  }

  /** The loop of `post_process_thread` that moves the boxes of a tile. */
  method MoveTile(tiles: array<Detection>, at: ImageInfo)
    modifies tiles
    ensures tiles[..] == ShiftAll(old(tiles[..]), at)
  {
    var i := 0;
    while i < tiles.Length
      invariant 0 <= i <= tiles.Length
      invariant forall j :: 0 <= j < i ==> tiles[j] == Shift(old(tiles[j]), at)
      invariant forall j :: i <= j < tiles.Length ==> tiles[j] == old(tiles[j])
    {
      var b := tiles[i].bbox;
      tiles[i] := tiles[i].(bbox := Bbox(b.xmin + at.xOffset as real, b.ymin + at.yOffset as real,
                                         b.xmax + at.xOffset as real, b.ymax + at.yOffset as real));
      i := i + 1;
    }
  }

  /** The pixels of one tile. */
  function Roi(frame: Pixels, crop: nat, at: ImageInfo): Pixels
    requires at.yOffset + crop <= |frame|
    requires forall row <- frame :: at.xOffset + crop <= |row|
  {
    seq(crop, i requires 0 <= i < crop =>
      assert frame[at.yOffset + i] in frame;
      frame[at.yOffset + i][at.xOffset..at.xOffset + crop])
  }

  ghost predicate IsFrame(frame: Pixels, g: Grid) {
    |frame| == g.height && forall row <- frame :: |row| == g.width
  }

  /** Pixel (x, y) of a tile is the frame's pixel that far from the tile's corner. */
  ghost predicate IsTile(tile: Pixels, frame: Pixels, crop: nat, at: ImageInfo) {
    && |tile| == crop && at.yOffset + crop <= |frame|
    && forall y: nat :: y < crop ==> IsTileRow(tile[y], frame[at.yOffset + y], crop, at.xOffset)
  }

  ghost predicate IsTileRow(row: seq<int>, line: seq<int>, crop: nat, xOffset: nat) {
    && |row| == crop && xOffset + crop <= |line|
    && forall x: nat :: x < crop ==> row[x] == line[xOffset + x]
  }

  ghost function JobFor(m: Model, frame: Pixels, g: Grid): Job
    requires g.Valid() && m.crop == g.crop && IsFrame(frame, g)
  {
    Job(POOL_SLOTS, g.Tiles(),
        (at: ImageInfo) => if at.xOffset + g.crop <= g.width && at.yOffset + g.crop <= g.height then Roi(frame, g.crop, at) else [],
        m.device,
        out => m.Decode(out))
  }

  /** The producer hands the device the tiles of the grid, in its order. */
  lemma TileCut(m: Model, frame: Pixels, g: Grid, k: nat)
    requires g.Valid() && m.crop == g.crop && IsFrame(frame, g) && k < g.Count()
    ensures var job := JobFor(m, frame, g);
            && job.slots == 20 && |job.tiles| == g.Count() && job.tiles[k] == g.Tile(k)
            && IsTile(job.cut(g.Tile(k)), frame, g.crop, g.Tile(k))
            && job.Sequential(k + 1) == job.Sequential(k) + job.TileDetections(g.Tile(k))
            && job.TileDetections(g.Tile(k)) == ShiftAll(m.Decode(m.device(job.cut(g.Tile(k)))), g.Tile(k))
  {
    TilesInFrame(g, k);
    var at := g.Tile(k);
    hide Grid.Tile, Grid.Valid, Grid.Tiles;
    var tile := JobFor(m, frame, g).cut(at);
    assert tile == Roi(frame, g.crop, at);
    forall y: nat | y < g.crop ensures IsTileRow(tile[y], frame[at.yOffset + y], g.crop, at.xOffset) {
      assert frame[at.yOffset + y] in frame;
    }
  }

  /** What `infer_gray8` returns: a function of the frame. */
  ghost function Detections(m: Model, frame: Pixels, g: Grid): seq<Detection>
    requires g.Valid() && m.crop == g.crop && IsFrame(frame, g)
  {
    var job := JobFor(m, frame, g);
    Nms.Nms(job.Sequential(|job.tiles|), m.nmsThreshold, false)
  }

  /** Under every interleaving, once the caller has joined the threads and applied the final
      suppression, it holds the one list that the frame determines. */
  lemma InferenceIsAFunction(m: Model, frame: Pixels, g: Grid, s: State, schedule: seq<PipelineRuns.Action>, end: State)
    requires g.Valid() && m.crop == g.crop && IsFrame(frame, g)
    requires Init(JobFor(m, frame, g), s) && PipelineRuns.Runs(JobFor(m, frame, g), s, schedule, end)
    ensures end.caller.CallerDone? ==> Nms.Nms(end.detections, m.nmsThreshold, false) == Detections(m, frame, g)
    ensures !end.caller.CallerDone? ==> exists a: PipelineRuns.Action :: a.Act? && PipelineRuns.CanDo(end, a)
    ensures |schedule| <= 40 * g.Count() + 56 + 3 * PipelineRuns.Spuriouses(schedule)
  {
    PipelineRuns.PipelineRefinesSequential(JobFor(m, frame, g), s, schedule, end);
  }

  ghost predicate InFrame(d: Detection, g: Grid) {
    0.0 <= d.bbox.xmin && 0.0 <= d.bbox.ymin && d.bbox.xmax <= g.width as real - 1.0 && d.bbox.ymax <= g.height as real - 1.0
  }

  ghost predicate AllInFrame(ds: seq<Detection>, g: Grid) {
    forall d <- ds :: InFrame(d, g)
  }

  lemma TileDetectionsInFrame(m: Model, frame: Pixels, g: Grid, k: nat)
    requires g.Valid() && m.crop == g.crop && IsFrame(frame, g) && k < g.Count()
    ensures AllInFrame(JobFor(m, frame, g).TileDetections(g.Tile(k)), g)
  {
    var job, at := JobFor(m, frame, g), g.Tile(k);
    var out := job.Output(at);
    TilesInFrame(g, k);
    if |out| == YoloDecode.KNUM_DETECTIONS * (m.classNum + 4) {
      YoloDecode.ResultWithin(m.Post(), m.Rows(out));
    }
    var local, shifted := job.decode(out), job.TileDetections(at);
    forall i | 0 <= i < |shifted| ensures InFrame(shifted[i], g) {
      assert local[i] in m.Decode(out);
      YoloDecode.ShiftedWithin(m.Post(), local[i], at, g.width, g.height);
    }
  }

  lemma AllInFrameConcat(a: seq<Detection>, b: seq<Detection>, g: Grid)
    requires AllInFrame(a, g) && AllInFrame(b, g)
    ensures AllInFrame(a + b, g)
  {
    hide InFrame;
  }

  lemma {:induction false} SequentialInFrame(job: Job, g: Grid, k: nat)
    requires k <= |job.tiles|
    requires forall i :: 0 <= i < |job.tiles| ==> AllInFrame(job.TileDetections(job.tiles[i]), g)
    ensures AllInFrame(job.Sequential(k), g)
  {
    hide AllInFrame, Job.TileDetections;
    if k > 0 {
      SequentialInFrame(job, g, k - 1);
      AllInFrameConcat(job.Sequential(k - 1), job.TileDetections(job.tiles[k - 1]), g);
    } else {
      AllInFrameEmpty(g);
    }
  }

  lemma AllInFrameEmpty(g: Grid)
    ensures AllInFrame([], g)
  {
  }

  /** Every returned detection respects the frame: its lower corner is not negative and its upper
      corner is at most the last pixel. */
  lemma DetectionsInFrame(m: Model, frame: Pixels, g: Grid)
    requires g.Valid() && m.crop == g.crop && IsFrame(frame, g)
    ensures forall d <- Detections(m, frame, g) :: InFrame(d, g)
  {
    var job := JobFor(m, frame, g);
    var all := job.Sequential(|job.tiles|);
    forall k | 0 <= k < |job.tiles| ensures AllInFrame(job.TileDetections(job.tiles[k]), g) {
      TileDetectionsInFrame(m, frame, g, k);
    }
    SequentialInFrame(job, g, |job.tiles|);
    Nms.StableSortSorted(all);
    Nms.KeepSorted(Nms.StableSort(all), m.nmsThreshold, false);
    forall d <- Detections(m, frame, g) ensures InFrame(d, g) {
      assert d in multiset(Nms.StableSort(all));
      assert d in multiset(all);
    }
  }

  /** The layout of the tensor does not matter: a device that returns the transposed tensor to a model
      that reads it channels first gives the same boxes. */
  lemma LayoutIndependent(m: Model, v8: Tensor, v9: Tensor)
    requires m.crop > 0
    requires |v8| == |v9| == YoloDecode.KNUM_DETECTIONS * (m.classNum + 4)
    requires YoloDecode.Transposed(v8, v9, YoloDecode.KNUM_DETECTIONS, m.classNum + 4)
    ensures m.(channelsFirst := false).Decode(v8) == m.(channelsFirst := true).Decode(v9)
  {
    YoloDecode.SameRows(v8, v9, YoloDecode.KNUM_DETECTIONS, m.classNum + 4, m.half);
  }
}
