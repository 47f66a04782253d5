/** From frames to the product: detector runtime, detector element and sink put together, and what that
    means for the objects that the frames show. */
module Product {
  import opened Detect
  import opened Geometry
  import opened Metadata
  import Cutter
  import Detector
  import opened DetectorToSink
  import NmsMeaning
  import Scene
  import opened SinkRecords
  import Nms
  import Pipeline
  import PipelineRuns
  import Runtime
  import TextSink
  import TextSinkRuns

  // ------------------------------------------------------------------ boxes

  /** The clamp of the detector element leaves the upright boxes of a frame as they are. */
  lemma ClampInFrame(d: Detection, grid: Cutter.Grid, g: Geometry)
    requires Runtime.InFrame(d, grid) && g.filterWidth == grid.width && g.filterHeight == grid.height
    ensures Upright(d.bbox) ==> Detector.ClampBbox(d, g) == d.bbox
  {
  }

  /** So does the whole way to the targets: target `i` is the i-th reported detection, with its own box if
      that is upright. */
  lemma TargetOfFrame(m: Runtime.Model, frame: Pipeline.Pixels, grid: Cutter.Grid, g: Geometry, i: nat)
    requires grid.Valid() && m.crop == grid.crop && Runtime.IsFrame(frame, grid)
    requires g.filterWidth == grid.width && g.filterHeight == grid.height
    requires i < |Detector.Targets(Runtime.Detections(m, frame, grid), g)|
    ensures var ds := Runtime.Detections(m, frame, grid);
            var at, t := Detector.ReportedAt(ds, g), Detector.Targets(ds, g)[i];
            && |Detector.Targets(ds, g)| == (if |at| < 256 then |at| else 256)
            && i < |at| && at[i] < |ds| && t.classIndex == ds[at[i]].id && t.confidence == ds[at[i]].score
            && (Upright(ds[at[i]].bbox) ==> t.bbox == ds[at[i]].bbox)
  {
    hide Runtime.Detections, Runtime.IsFrame, Runtime.InFrame, Detector.ClampBbox, Detector.Targets;
    var ds := Runtime.Detections(m, frame, grid);
    assert Detector.IsSelection(ds, g, Detector.Targets(ds, g));
    Runtime.DetectionsInFrame(m, frame, grid);
    var d := ds[Detector.ReportedAt(ds, g)[i]];
    assert d in ds;
    ClampInFrame(d, grid, g);
  }

  // ------------------------------------------------------------------ one run of the threads for each frame

  /** A run of the runtime's threads on one frame. */
  datatype FrameRun = FrameRun(frame: Pipeline.Pixels, start: Pipeline.State, schedule: seq<PipelineRuns.Action>, end: Pipeline.State)
  {
    /** From the initial state, under some schedule, to the point where the caller has the result. */
    ghost predicate Completed(m: Runtime.Model, grid: Cutter.Grid)
      requires grid.Valid() && m.crop == grid.crop
    {
      && Runtime.IsFrame(frame, grid)
      && Pipeline.Init(Runtime.JobFor(m, frame, grid), start)
      && PipelineRuns.Runs(Runtime.JobFor(m, frame, grid), start, schedule, end) && end.caller.CallerDone?
    }

    /** What `infer_gray8` then returns. */
    ghost function Result(m: Runtime.Model): seq<Detection> {
      Nms.Nms(end.detections, m.nmsThreshold, false)
    }
  }

  lemma ResultOfRun(m: Runtime.Model, grid: Cutter.Grid, run: FrameRun)
    requires grid.Valid() && m.crop == grid.crop && run.Completed(m, grid)
    ensures run.Result(m) == Runtime.Detections(m, run.frame, grid)
  {
    hide Runtime.JobFor, Runtime.Detections, Pipeline.Init, PipelineRuns.Runs, Nms.Nms;
    Runtime.InferenceIsAFunction(m, run.frame, grid, run.start, run.schedule, run.end);
  }

  /** The i-th frame on its way to the sink carries what the i-th run returned. */
  ghost predicate Feeds(m: Runtime.Model, grid: Cutter.Grid, runs: seq<FrameRun>, shots: seq<Shot>)
    requires grid.Valid() && m.crop == grid.crop
  {
    |runs| == |shots| && forall i :: 0 <= i < |runs| ==> runs[i].Completed(m, grid) && shots[i].detections == runs[i].Result(m)
  }

  /** Records `i` are of frame `i`, its time and its geometry, and the items are exactly the reported
      detections of the one list that frame `i` determines, in order, once each, the first 256 if there are
      more, in coordinates of the original image. */
  ghost predicate ShowsFrames(role: seq<TextSink.Record>, meta: seq<TextSink.Record>, m: Runtime.Model, grid: Cutter.Grid,
                              runs: seq<FrameRun>, shots: seq<Shot>, config: TextSink.Config)
    requires grid.Valid() && m.crop == grid.crop
  {
    && |role| == |meta| == |runs| == |shots|
    && forall i :: 0 <= i < |role| ==>
         && Runtime.IsFrame(runs[i].frame, grid)
         && role[i].RoleRecord? && role[i].frameId == i && role[i].clock == shots[i].clock
         && meta[i] == TextSink.MetaRecord(i, shots[i].clock, shots[i].geometry, |role[i].items|)
         && ShowsTargets(role[i].items, Detector.Targets(Runtime.Detections(m, runs[i].frame, grid), shots[i].geometry),
                         shots[i].geometry, config)
  }

  /** Whatever the schedules of the threads were: the product is published exactly when there are frames,
      at most 2^32, all presentable, and then it shows all of them. */
  lemma FramesDelivered(s: TextSink.State, config: TextSink.Config, m: Runtime.Model, grid: Cutter.Grid,
                        runs: seq<FrameRun>, shots: seq<Shot>)
    requires grid.Valid() && m.crop == grid.crop && Feeds(m, grid, runs, shots)
    requires TextSinkRuns.Fresh(s) && Supported(config, shots)
    ensures TextSink.RoleFinal in DetectorToSink.Product(s, config, shots) <==>
            shots != [] && |shots| <= 0x1_0000_0000 && AllPresentable(shots)
    ensures TextSink.RoleFinal in DetectorToSink.Product(s, config, shots) ==>
              var files := DetectorToSink.Product(s, config, shots);
              TextSink.MetaFinal in files
              && ShowsFrames(files[TextSink.RoleFinal], files[TextSink.MetaFinal], m, grid, runs, shots, config)
  {
    hide DetectorToSink.Product, FrameRun.Result, FrameRun.Completed, Runtime.Detections, Detector.Targets, ShowsTarget;
    hide Supported, AllPresentable, Runtime.IsFrame;
    StreamDelivered(s, config, shots);
    forall i | 0 <= i < |runs|
      ensures Runtime.IsFrame(runs[i].frame, grid)
      ensures shots[i].Targets() == Detector.Targets(Runtime.Detections(m, runs[i].frame, grid), shots[i].geometry)
    {
      ResultOfRun(m, grid, runs[i]);
      FrameOfRun(m, grid, runs[i]);
    }
  }

  lemma FrameOfRun(m: Runtime.Model, grid: Cutter.Grid, run: FrameRun)
    requires grid.Valid() && m.crop == grid.crop && run.Completed(m, grid)
    ensures Runtime.IsFrame(run.frame, grid)
  {
  }

  // ------------------------------------------------------------------ objects

  /** What a frame shows: objects that the model sees and can tell from one another, small enough for the
      tiles, and no more than the metadata holds. */
  ghost predicate SceneOf(m: Runtime.Model, frame: Pipeline.Pixels, grid: Cutter.Grid, objects: seq<Detection>)
    requires grid.Valid()
  {
    && Scene.Tellable(m, objects) && Scene.Sees(m, frame, grid, objects) && |objects| <= 256
    && forall o <- objects :: Scene.Small(o.bbox, grid) && 0 <= o.id && o.score <= 1.0
  }

  /** The item is number `i` and shows object `o`: class, score, and the box of the original image that the
      filter maps to the object's box in the frame. */
  predicate ShowsObject(item: TextSink.Item, i: nat, o: Detection, g: Geometry, config: TextSink.Config) {
    && item.TargetItem? && item.index == i && item.confidence == o.score && item.classIndex == o.id
    && item.classIndex in config.types && item.classType == config.types[item.classIndex] && Shows(item.bbox, o.bbox, g)
  }

  /** The items show the objects, each once, in some order. */
  ghost predicate ListsObjects(items: seq<TextSink.Item>, objects: seq<Detection>, g: Geometry, config: TextSink.Config) {
    exists order: seq<Detection> :: multiset(order) == multiset(objects) && ShowInOrder(items, order, g, config)
  }

  predicate ShowInOrder(items: seq<TextSink.Item>, order: seq<Detection>, g: Geometry, config: TextSink.Config) {
    |items| == |order| && forall i :: 0 <= i < |items| ==> ShowsObject(items[i], i, order[i], g, config)
  }

  /** Objects that the detector element reports as they are. */
  ghost predicate Reportable(objects: seq<Detection>, grid: Cutter.Grid) {
    && |objects| <= 256
    && forall o <- objects :: Scene.Small(o.bbox, grid) && Upright(o.bbox) && 0 <= o.id && 0.0 <= o.score <= 1.0
  }

  lemma SceneReportable(m: Runtime.Model, frame: Pipeline.Pixels, grid: Cutter.Grid, objects: seq<Detection>)
    requires grid.Valid() && SceneOf(m, frame, grid, objects)
    ensures Reportable(objects, grid)
  {
    hide Scene.Sees, Scene.Small, NmsMeaning.Distinct;
    forall o | o in objects ensures Upright(o.bbox) && 0.0 <= o.score {
      assert Nms.Proper(o.bbox) && o.score >= m.scoreThreshold;
    }
  }

  lemma ObjectReported(o: Detection, grid: Cutter.Grid, g: Geometry)
    requires Scene.Small(o.bbox, grid) && Upright(o.bbox) && 0 <= o.id && 0.0 <= o.score <= 1.0
    requires g.filterWidth == grid.width && g.filterHeight == grid.height
    ensures Detector.Reported(o, g) && Detector.TargetOf(o, g) == DetectionTarget(o.id, o.score, o.bbox)
  {
  }

  lemma SameBag(a: seq<Detection>, b: seq<Detection>, d: Detection)
    requires multiset(a) == multiset(b)
    ensures |a| == |b| && (d in a ==> d in b)
  {
    assert |multiset(a)| == |a| && |multiset(b)| == |b|;
    assert d in a ==> d in multiset(a);
  }

  /** It makes one target of each, in their order. */
  lemma TargetsOfScene(ds: seq<Detection>, objects: seq<Detection>, grid: Cutter.Grid, g: Geometry, i: nat)
    requires multiset(ds) == multiset(objects) && Reportable(objects, grid)
    requires g.filterWidth == grid.width && g.filterHeight == grid.height
    ensures |Detector.Targets(ds, g)| == |ds|
    ensures i < |ds| ==>
              var t := Detector.Targets(ds, g)[i];
              t.classIndex == ds[i].id && t.confidence == ds[i].score && t.bbox == ds[i].bbox
  {
    hide Scene.Small, Detector.Reported, Detector.TargetOf, Detector.Targets;
    forall d | d in ds
      ensures Detector.Reported(d, g) && 0 <= d.id && Detector.TargetOf(d, g) == DetectionTarget(d.id, d.score, d.bbox)
    {
      SameBag(ds, objects, d);
      ObjectReported(d, grid, g);
    }
    assert Detector.IsSelection(ds, g, Detector.Targets(ds, g));
    if ds != [] {
      SameBag(ds, objects, ds[0]);
      Detector.AllReported(ds, g, if i < |ds| then i else 0);
    }
  }

  lemma ObjectsListed(items: seq<TextSink.Item>, m: Runtime.Model, frame: Pipeline.Pixels, grid: Cutter.Grid, g: Geometry,
                      config: TextSink.Config, objects: seq<Detection>)
    requires grid.Valid() && m.crop == grid.crop && Runtime.IsFrame(frame, grid) && SceneOf(m, frame, grid, objects)
    requires g.filterWidth == grid.width && g.filterHeight == grid.height
    requires ShowsTargets(items, Detector.Targets(Runtime.Detections(m, frame, grid), g), g, config)
    ensures ListsObjects(items, objects, g, config)
  {
    hide Runtime.Detections, Runtime.IsFrame, SceneOf, Detector.Targets, Shows;
    var ds := Runtime.Detections(m, frame, grid);
    PermutedScene(m, frame, grid, objects);
    SceneReportable(m, frame, grid, objects);
    hide Reportable;
    TargetsOfScene(ds, objects, grid, g, 0);
    forall i | 0 <= i < |items| ensures ShowsObject(items[i], i, ds[i], g, config) {
      TargetsOfScene(ds, objects, grid, g, i);
    }
    assert ShowInOrder(items, ds, g, config);
  }

  lemma PermutedScene(m: Runtime.Model, frame: Pipeline.Pixels, grid: Cutter.Grid, objects: seq<Detection>)
    requires grid.Valid() && m.crop == grid.crop && Runtime.IsFrame(frame, grid) && SceneOf(m, frame, grid, objects)
    ensures multiset(Runtime.Detections(m, frame, grid)) == multiset(objects)
  {
    hide Runtime.Detections, Runtime.IsFrame, Scene.Sees, Scene.Small, Scene.Tellable;
    Scene.SceneIsPermuted(m, frame, grid, objects);
  }

  /** THE result: whatever the schedules and the geometry were, record i of a published product lists the
      objects of frame i, each exactly once, with the boxes of the original image that show them. */
  lemma ObjectsDelivered(s: TextSink.State, config: TextSink.Config, m: Runtime.Model, grid: Cutter.Grid,
                         runs: seq<FrameRun>, shots: seq<Shot>, i: nat, objects: seq<Detection>)
    requires grid.Valid() && m.crop == grid.crop && Feeds(m, grid, runs, shots)
    requires TextSinkRuns.Fresh(s) && Supported(config, shots)
    requires i < |shots| && SceneOf(m, runs[i].frame, grid, objects)
    requires shots[i].geometry.filterWidth == grid.width && shots[i].geometry.filterHeight == grid.height
    ensures var files := DetectorToSink.Product(s, config, shots);
            TextSink.RoleFinal in files ==>
              var role := files[TextSink.RoleFinal];
              && i < |role| && role[i].RoleRecord? && role[i].frameId == i && role[i].clock == shots[i].clock
              && ListsObjects(role[i].items, objects, shots[i].geometry, config)
  {
    hide DetectorToSink.Product, Feeds, Supported, AllPresentable, SceneOf, ListsObjects, ShowsTargets, Runtime.Detections;
    hide Runtime.IsFrame, Detector.Targets;
    FramesDelivered(s, config, m, grid, runs, shots);
    var files := DetectorToSink.Product(s, config, shots);
    if TextSink.RoleFinal in files {
      var role: seq<TextSink.Record> := files[TextSink.RoleFinal];
      ObjectsListed(role[i].items, m, runs[i].frame, grid, shots[i].geometry, config, objects);
    }
  }
}
