/** What the tiled detector is for: on a device that sees the objects of each tile, `infer_gray8` returns
    the objects of the frame, each once, however many tiles show it. */
module Scene {
  import opened Basics
  import opened Detect
  import opened Cutter
  import opened Pipeline
  import PipelineRuns
  import Nms
  import NmsMeaning
  import YoloDecode
  import opened Runtime

  // ------------------------------------------------------------------ one anchor

  /** Value `c` of anchor `i` in the tensor of either layout. */
  function Value(m: Model, out: Tensor, i: nat, c: nat): real
    requires |out| == 8400 * (m.classNum + 4) && i < 8400 && c < m.classNum + 4
  {
    YoloDecode.FlatIndex(i, c, 8400, m.classNum + 4);
    YoloDecode.FlatIndex(c, i, m.classNum + 4, 8400);
    m.half(out[if m.channelsFirst then c * 8400 + i else i * (m.classNum + 4) + c])
  }

  function Anchor(m: Model, out: Tensor, i: nat): (row: seq<real>)
    requires |out| == 8400 * (m.classNum + 4) && i < 8400
    ensures |row| == m.classNum + 4 && forall c :: 0 <= c < |row| ==> row[c] == Value(m, out, i, c)
  {
    seq(m.classNum + 4, c requires 0 <= c < m.classNum + 4 => Value(m, out, i, c))
  }

  lemma AnchorIsRow(m: Model, out: Tensor, i: nat)
    requires |out| == 8400 * (m.classNum + 4) && i < 8400
    ensures |m.Rows(out)| == 8400 && m.Rows(out)[i] == Anchor(m, out, i)
  {
    hide YoloDecode.RowsV8, YoloDecode.RowsV9;
    var n, w := 8400, m.classNum + 4;
    forall c: nat | c < w ensures m.Rows(out)[i][c] == Value(m, out, i, c) {
      YoloDecode.RowsV8At(out, n, w, m.half, i, c);
      YoloDecode.RowsV9At(out, n, w, m.half, i, c);
    }
  }

  /** The box lies between the first and the last pixel of the tile. */
  predicate InTile(b: Bbox, at: ImageInfo, crop: nat) {
    && at.xOffset as real <= b.xmin && b.xmax <= at.xOffset as real + crop as real - 1.0
    && at.yOffset as real <= b.ymin && b.ymax <= at.yOffset as real + crop as real - 1.0
  }

  /** The anchor shows object `o`: the centre of its box relative to the tile's corner, the sides of its box,
      and its class ahead of all others. */
  predicate Says(row: seq<real>, o: Detection, at: ImageInfo) {
    && 0 <= o.id && 4 + o.id < |row|
    && row[0] == (o.bbox.xmin + o.bbox.xmax) / 2.0 - at.xOffset as real
    && row[1] == (o.bbox.ymin + o.bbox.ymax) / 2.0 - at.yOffset as real
    && row[2] == o.bbox.xmax - o.bbox.xmin && row[3] == o.bbox.ymax - o.bbox.ymin
    && row[4 + o.id] == o.score && forall c :: 4 <= c < |row| && c != 4 + o.id ==> row[c] < o.score
  }

  /** The anchor is confident of nothing. */
  predicate Silent(row: seq<real>, threshold: real) {
    forall c :: 4 <= c < |row| ==> row[c] < threshold
  }

  /** The object's box relative to the tile's corner. */
  function Local(o: Detection, at: ImageInfo): Detection {
    var x, y := at.xOffset as real, at.yOffset as real;
    o.(bbox := Bbox(o.bbox.xmin - x, o.bbox.ymin - y, o.bbox.xmax - x, o.bbox.ymax - y))
  }

  /** An anchor that shows an object of the tile is decoded to just that, in the tile's coordinates. */
  lemma SaysDecodes(m: Model, row: seq<real>, o: Detection, at: ImageInfo)
    requires m.crop > 0 && |row| == m.classNum + 4 && Says(row, o, at) && InTile(o.bbox, at, m.crop)
    requires Nms.Proper(o.bbox) && o.score >= m.scoreThreshold > 0.0
    ensures YoloDecode.Accepted(m.Post(), row) && YoloDecode.Decoded(m.Post(), row) == Local(o, at)
  {
    hide YoloDecode.Accepted, YoloDecode.Decoded, YoloDecode.Letterboxed;
    var b, scores := Local(o, at).bbox, row[4..];
    SquareLetterbox(m, b);
    assert row == YoloDecode.Letterboxed(m.Post(), b) + scores;
    YoloDecode.AnchorDecoded(m.Post(), b, scores);
    assert scores[o.id] in scores;
    forall c | 0 <= c < |scores| && c != o.id ensures scores[c] < o.score {
      assert scores[c] == row[4 + c];
    }
    var d := YoloDecode.Decoded(m.Post(), row);
    assert d.id >= 0 && d.id == o.id;
  }

  /** A tile is its own original image: nothing is scaled and nothing padded. */
  lemma SquareLetterbox(m: Model, b: Bbox)
    requires m.crop > 0
    ensures YoloDecode.Letterboxed(m.Post(), b) == [(b.xmin + b.xmax) / 2.0, (b.ymin + b.ymax) / 2.0, b.xmax - b.xmin, b.ymax - b.ymin]
  {
    Itself(m.crop as real);
    assert m.Post().WidthRatio() == 1.0 && m.Post().HeightRatio() == 1.0;
    OneToOne(b.xmin, b.xmax, m.crop as real);
    OneToOne(b.ymin, b.ymax, m.crop as real);
    hide YoloDecode.Centre, YoloDecode.Side, YoloDecode.PostInfo.WidthRatio, YoloDecode.PostInfo.HeightRatio;
  }

  lemma Itself(x: real)
    requires x > 0.0
    ensures x / x == 1.0
  {
  }

  lemma OneToOne(low: real, high: real, n: real)
    ensures YoloDecode.Centre(1.0, low, high, n, n) == (low + high) / 2.0 && YoloDecode.Side(1.0, low, high) == high - low
  {
  }

  lemma SilentRejected(m: Model, row: seq<real>)
    requires m.crop > 0 && |row| == m.classNum + 4 && Silent(row, m.scoreThreshold) && m.scoreThreshold > 0.0
    ensures !YoloDecode.Accepted(m.Post(), row)
  {
    hide YoloDecode.Corners, YoloDecode.Best;
    YoloDecode.BestIsFirstMaximum(row, m.classNum);
  }

  lemma {:induction false} CandidatesAre(info: YoloDecode.PostInfo, rows: seq<seq<real>>, d: Detection)
    requires info.Valid() && YoloDecode.Shaped(info, rows)
    ensures d in YoloDecode.Candidates(info, rows) <==>
            exists i :: 0 <= i < |rows| && YoloDecode.Accepted(info, rows[i]) && d == YoloDecode.Decoded(info, rows[i])
  {
    hide YoloDecode.Accepted, YoloDecode.Decoded;
    if rows != [] {
      var n := |rows| - 1;
      CandidatesAre(info, rows[..n], d);
    }
  }

  // ------------------------------------------------------------------ one tile

  /** The tensor shows exactly the objects of the tile: every anchor shows one of them or is silent, and
      each of them is shown by some anchor. */
  ghost predicate Reports(m: Model, out: Tensor, at: ImageInfo, objects: seq<Detection>) {
    && |out| == 8400 * (m.classNum + 4)
    && (forall i: nat :: i < 8400 ==> SaysSome(m, out, i, at, objects))
    && (forall o <- objects :: InTile(o.bbox, at, m.crop) ==> Shown(m, out, at, o))
  }

  ghost predicate SaysSome(m: Model, out: Tensor, i: nat, at: ImageInfo, objects: seq<Detection>)
    requires |out| == 8400 * (m.classNum + 4) && i < 8400
  {
    Silent(Anchor(m, out, i), m.scoreThreshold)
    || exists o <- objects :: InTile(o.bbox, at, m.crop) && Says(Anchor(m, out, i), o, at)
  }

  ghost predicate Shown(m: Model, out: Tensor, at: ImageInfo, o: Detection)
    requires |out| == 8400 * (m.classNum + 4)
  {
    exists i: nat :: i < 8400 && Says(Anchor(m, out, i), o, at)
  }

  /** Objects that a model can tell from one another: confident ones, with boxes that overlap others of
      their class by no more than the threshold of the suppression. */
  ghost predicate Tellable(m: Model, objects: seq<Detection>) {
    && 0.0 < m.scoreThreshold && m.nmsThreshold < 1.0
    && NmsMeaning.Distinct(objects) && NmsMeaning.Spaced(objects, m.nmsThreshold)
    && forall o <- objects :: o.score >= m.scoreThreshold
  }

  lemma CandidatesOfTile(m: Model, out: Tensor, at: ImageInfo, objects: seq<Detection>, d: Detection)
    requires m.crop > 0 && Tellable(m, objects) && Reports(m, out, at, objects)
    ensures d in YoloDecode.Candidates(m.Post(), m.Rows(out)) <==>
            exists o <- objects :: InTile(o.bbox, at, m.crop) && d == Local(o, at)
  {
    hide Says, Silent, YoloDecode.Accepted, YoloDecode.Decoded, InTile, Local, YoloDecode.Candidates, Nms.Proper, NmsMeaning.Apart;
    CandidatesAre(m.Post(), m.Rows(out), d);
    var rows := m.Rows(out);
    if d in YoloDecode.Candidates(m.Post(), rows) {
      var i :| 0 <= i < |rows| && YoloDecode.Accepted(m.Post(), rows[i]) && d == YoloDecode.Decoded(m.Post(), rows[i]);
      AnchorIsRow(m, out, i);
      assert SaysSome(m, out, i, at, objects);
      if Silent(Anchor(m, out, i), m.scoreThreshold) {
        SilentRejected(m, rows[i]);
      } else {
        var o :| o in objects && InTile(o.bbox, at, m.crop) && Says(Anchor(m, out, i), o, at);
        SaysDecodes(m, rows[i], o, at);
      }
    }
    if o :| o in objects && InTile(o.bbox, at, m.crop) && d == Local(o, at) {
      assert Shown(m, out, at, o);
      var i: nat :| i < 8400 && Says(Anchor(m, out, i), o, at);
      AnchorIsRow(m, out, i);
      SaysDecodes(m, rows[i], o, at);
    }
  }

  /** Tile coordinates are frame coordinates up to the origin, so local boxes overlap as the objects do. */
  lemma LocalApart(a: Detection, b: Detection, at: ImageInfo, threshold: real)
    requires Nms.Proper(a.bbox)
    ensures Nms.Proper(Local(a, at).bbox)
    ensures NmsMeaning.Apart(a, b, threshold) ==> NmsMeaning.Apart(Local(a, at), Local(b, at), threshold)
  {
    var x, y := at.xOffset as real, at.yOffset as real;
    NmsMeaning.IouScales(a.bbox, b.bbox, 1.0, -x, -y);
    assert Local(a, at).bbox == NmsMeaning.Affine(a.bbox, 1.0, -x, -y);
    assert Local(b, at).bbox == NmsMeaning.Affine(b.bbox, 1.0, -x, -y);
  }

  lemma LocalBack(o: Detection, at: ImageInfo)
    ensures Shift(Local(o, at), at) == o
  {
    var b := o.bbox;
    ShiftBack(o.id, o.score, b.xmin, b.ymin, b.xmax, b.ymax, at.xOffset, at.yOffset);
  }

  lemma ShiftInjective(a: Detection, b: Detection, at: ImageInfo)
    ensures Shift(a, at) == Shift(b, at) ==> a == b
  {
  }

  lemma ShiftedDistinct(ds: seq<Detection>, at: ImageInfo)
    requires NmsMeaning.Distinct(ds)
    ensures NmsMeaning.Distinct(ShiftAll(ds, at))
  {
    hide Shift;
    var r := ShiftAll(ds, at);
    forall i, j | 0 <= i < j < |r| ensures r[i] != r[j] {
      ShiftInjective(ds[i], ds[j], at);
    }
  }

  lemma DecodeOfTile(m: Model, out: Tensor, at: ImageInfo, objects: seq<Detection>, d: Detection)
    requires m.crop > 0 && Tellable(m, objects) && Reports(m, out, at, objects)
    ensures NmsMeaning.Distinct(m.Decode(out))
    ensures d in m.Decode(out) <==> exists o <- objects :: InTile(o.bbox, at, m.crop) && d == Local(o, at)
  {
    assert |out| == 8400 * (m.classNum + 4);
    hide InTile, Local, YoloDecode.Candidates, Nms.Proper, NmsMeaning.Apart, Reports, Nms.Nms, NmsMeaning.Distinct;
    var c := YoloDecode.Candidates(m.Post(), m.Rows(out));
    forall e ensures e in c <==> exists o <- objects :: InTile(o.bbox, at, m.crop) && e == Local(o, at) {
      CandidatesOfTile(m, out, at, objects, e);
    }
    forall e | e in c ensures Nms.Proper(e.bbox) {
      var o :| o in objects && e == Local(o, at);
      LocalApart(o, o, at, m.nmsThreshold);
    }
    forall e, f | e in c && f in c && e != f ensures NmsMeaning.Apart(e, f, m.nmsThreshold) {
      var o :| o in objects && e == Local(o, at);
      var p :| p in objects && f == Local(p, at);
      LocalApart(o, p, at, m.nmsThreshold);
    }
    NmsMeaning.NmsDropsRepetitions(c, m.nmsThreshold);
  }

  // ------------------------------------------------------------------ one frame

  /** On whatever picture shows the pixels of a tile, the device reports the objects of that tile. */
  ghost predicate Sees(m: Model, frame: Pixels, g: Grid, objects: seq<Detection>)
    requires g.Valid()
  {
    forall k: nat, tile: Pixels :: k < g.Count() && IsTile(tile, frame, g.crop, g.Tile(k)) ==>
      Reports(m, m.device(tile), g.Tile(k), objects)
  }

  ghost predicate InSomeTile(b: Bbox, g: Grid, n: nat)
    requires g.Valid()
  {
    exists k: nat :: k < n && InTile(b, g.Tile(k), g.crop)
  }

  lemma TileDetectionsAre(m: Model, frame: Pixels, g: Grid, objects: seq<Detection>, k: nat, d: Detection)
    requires g.Valid() && m.crop == g.crop && IsFrame(frame, g) && k < g.Count()
    requires Tellable(m, objects) && Sees(m, frame, g, objects)
    ensures NmsMeaning.Distinct(JobFor(m, frame, g).TileDetections(g.Tile(k)))
    ensures d in JobFor(m, frame, g).TileDetections(g.Tile(k)) <==> d in objects && InTile(d.bbox, g.Tile(k), g.crop)
  {
    hide InTile, Tellable, Reports, Model.Decode, Shift, Local, Grid.Tile, IsTile;
    var job, at := JobFor(m, frame, g), g.Tile(k);
    TileCut(m, frame, g, k);
    var local, shifted := job.decode(job.Output(at)), job.TileDetections(at);
    assert local == m.Decode(m.device(job.cut(at)));
    forall e ensures e in local <==> exists o <- objects :: InTile(o.bbox, at, m.crop) && e == Local(o, at) {
      DecodeOfTile(m, job.Output(at), at, objects, e);
    }
    DecodeOfTile(m, job.Output(at), at, objects, d);
    ShiftedDistinct(local, at);
    hide NmsMeaning.Distinct;
    if d in shifted {
      var i :| 0 <= i < |shifted| && shifted[i] == d;
      assert local[i] in local;
      var o :| o in objects && InTile(o.bbox, at, m.crop) && local[i] == Local(o, at);
      LocalBack(o, at);
    }
    if d in objects && InTile(d.bbox, at, m.crop) {
      assert Local(d, at) in local;
      var i :| 0 <= i < |local| && local[i] == Local(d, at);
      LocalBack(d, at);
      assert shifted[i] == d;
    }
  }

  lemma {:induction false} SequentialAre(m: Model, frame: Pixels, g: Grid, objects: seq<Detection>, n: nat, d: Detection)
    requires g.Valid() && m.crop == g.crop && IsFrame(frame, g) && n <= g.Count()
    requires Tellable(m, objects) && Sees(m, frame, g, objects)
    ensures n <= |JobFor(m, frame, g).tiles|
    ensures d in JobFor(m, frame, g).Sequential(n) <==> d in objects && InSomeTile(d.bbox, g, n)
  {
    hide InTile, Tellable, Sees, Job.TileDetections, Grid.Tile, IsFrame;
    if n > 0 {
      SequentialAre(m, frame, g, objects, n - 1, d);
      TileDetectionsAre(m, frame, g, objects, n - 1, d);
      assert InSomeTile(d.bbox, g, n) <==> InSomeTile(d.bbox, g, n - 1) || InTile(d.bbox, g.Tile(n - 1), g.crop);
    }
  }

  /** On a device that sees the objects, the detector returns exactly those that lie in some tile, each once,
      whatever the number of tiles and anchors that show it. */
  lemma SceneDetected(m: Model, frame: Pixels, g: Grid, objects: seq<Detection>)
    requires g.Valid() && m.crop == g.crop && IsFrame(frame, g)
    requires Tellable(m, objects) && Sees(m, frame, g, objects)
    ensures NmsMeaning.Distinct(Detections(m, frame, g))
    ensures forall d :: d in Detections(m, frame, g) <==> d in objects && InSomeTile(d.bbox, g, g.Count())
  {
    hide InSomeTile, Sees, Nms.Nms, Nms.Proper, NmsMeaning.Apart, NmsMeaning.Distinct, JobFor;
    var job := JobFor(m, frame, g);
    TileCount(m, frame, g);
    var all := job.Sequential(|job.tiles|);
    forall d ensures d in all <==> d in objects && InSomeTile(d.bbox, g, g.Count()) {
      SequentialAre(m, frame, g, objects, g.Count(), d);
    }
    NmsMeaning.NmsDropsRepetitions(all, m.nmsThreshold);
  }

  lemma TileCount(m: Model, frame: Pixels, g: Grid)
    requires g.Valid() && m.crop == g.crop && IsFrame(frame, g)
    ensures |JobFor(m, frame, g).tiles| == g.Count()
  {
  }

  /** The object lies between the first and the last pixel of the frame and is smaller than what two
      neighbouring tiles share. */
  predicate Small(b: Bbox, g: Grid) {
    && 0.0 <= b.xmin <= b.xmax <= g.width as real - 1.0 && b.xmax - b.xmin <= g.crop as real - g.stride as real - 1.0
    && 0.0 <= b.ymin <= b.ymax <= g.height as real - 1.0 && b.ymax - b.ymin <= g.crop as real - g.stride as real - 1.0
  }

  lemma SmallInTile(b: Bbox, g: Grid)
    requires g.Valid() && Small(b, g)
    ensures InSomeTile(b, g, g.Count())
  {
    var k := BoxInSomeTile(g, b.(xmax := b.xmax + 1.0, ymax := b.ymax + 1.0));
    assert InTile(b, g.Tile(k), g.crop);
  }

  /** When all objects are small, the result is a permutation of them. */
  lemma SceneIsPermuted(m: Model, frame: Pixels, g: Grid, objects: seq<Detection>)
    requires g.Valid() && m.crop == g.crop && IsFrame(frame, g)
    requires Tellable(m, objects) && Sees(m, frame, g, objects) && forall o <- objects :: Small(o.bbox, g)
    ensures multiset(Detections(m, frame, g)) == multiset(objects)
  {
    hide JobFor, Sees, InSomeTile, Small, Detections, NmsMeaning.Spaced, NmsMeaning.Distinct;
    var r := Detections(m, frame, g);
    SceneDetected(m, frame, g, objects);
    forall d ensures d in r <==> d in objects {
      if d in objects {
        SmallInTile(d.bbox, g);
      }
    }
    NmsMeaning.SameMembers(r, objects);
  }

  /** THE result: under every schedule of the threads, what `infer_gray8` returns is a permutation of the
      objects of the frame, the highest class first and within a class the most confident. */
  lemma EveryObjectOnce(m: Model, frame: Pixels, g: Grid, objects: seq<Detection>,
                        s: State, schedule: seq<PipelineRuns.Action>, end: State)
    requires g.Valid() && m.crop == g.crop && IsFrame(frame, g)
    requires Tellable(m, objects) && Sees(m, frame, g, objects) && forall o <- objects :: Small(o.bbox, g)
    requires Init(JobFor(m, frame, g), s) && PipelineRuns.Runs(JobFor(m, frame, g), s, schedule, end) && end.caller.CallerDone?
    ensures var r := Nms.Nms(end.detections, m.nmsThreshold, false);
            && multiset(r) == multiset(objects)
            && forall i, j :: 0 <= i < j < |r| ==> r[i].id as real + r[i].score >= r[j].id as real + r[j].score
  {
    hide JobFor, Sees, Init, PipelineRuns.Runs, Small, Detections, Nms.Nms, Tellable;
    InferenceIsAFunction(m, frame, g, s, schedule, end);
    SceneIsPermuted(m, frame, g, objects);
    NmsMeaning.NmsLeaves(end.detections, m.nmsThreshold);
  }
}
