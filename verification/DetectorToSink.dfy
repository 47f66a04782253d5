/** The detector element feeding the product sink, frame after frame, whatever the geometry filter between
    the source and the detector does. */
module DetectorToSink {
  import opened Basics
  import opened Detect
  import opened Geometry
  import opened Metadata
  import Detector
  import opened TextSink
  import opened TextSinkRuns
  import opened SinkRecords

  /** The items show the targets, in order, in coordinates of the original image. */
  predicate ShowsTargets(items: seq<Item>, targets: seq<DetectionTarget>, g: Geometry, config: Config) {
    && |items| == |targets|
    && forall i :: 0 <= i < |items| ==> ShowsTarget(items[i], i, targets[i], g, config)
  }

  /** A camera clock that the sink takes. */
  predicate Usable(c: Clock) {
    c.valid && c.microseconds <= 999999
  }

  // ------------------------------------------------------------------ one frame

  /** A frame on its way: what its buffer carries when it reaches the detector, the detections of the
      runtime, and what mapping it and writing its crops will answer. */
  datatype Shot = Shot(metas: seq<Meta>, geometry: Geometry, clock: Clock, detections: seq<Detection>,
                       maps: bool, badCrops: set<nat>)
  {
    ghost predicate Plain() {
      && geometry.Valid() && GetGeometry(metas) == Some(geometry) && GetCdg00(metas) == Some(clock)
      && Find(metas, DetectionKind).None? && GetTrackingFrame(metas).None?
    }

    /** What the sink needs besides a clock: known classes, and crops that can be written. */
    ghost predicate Equipped(config: Config) {
      && config.mode == TargetsMode
      && (forall i :: 0 <= i < |detections| && Detector.Reported(detections[i], geometry) ==> detections[i].id in config.types)
      && (config.crops ==> maps && badCrops == {})
    }

    function Targets(): seq<DetectionTarget> {
      Detector.Targets(detections, geometry)
    }

    function Call(): Detector.Call {
      Detector.Call(metas, Some(detections))
    }

    /** The sink's view of the buffer once the detector has left these metadata on it. */
    function Arriving(after: seq<Meta>): Input {
      Input(Some(Caps(geometry.filterWidth, geometry.filterHeight)), after, maps, badCrops)
    }
  }

  lemma PlainSucceeds(shot: Shot)
    requires shot.Plain()
    ensures shot.Call().Succeeds() && GetGeometry(shot.metas).value == shot.geometry
  {
  }

  lemma KnownClass(shot: Shot, config: Config, i: nat)
    requires shot.Equipped(config) && i < |shot.Targets()|
    ensures shot.Targets()[i].classIndex in config.types
  {
    hide Detector.Reported;
    assert Detector.IsSelection(shot.detections, shot.geometry, shot.Targets());
  }

  /** Every target's box comes from a box of the image. */
  ghost predicate AllMapBack(shot: Shot) {
    forall i :: 0 <= i < |shot.Targets()| ==> MapsBack(shot.Targets()[i].bbox, shot.geometry)
  }

  /** The filter's plane shows nothing but the image: every upright box in it comes from a box of the image. */
  predicate PlaneInImage(g: Geometry) {
    && g.offsetX <= 0.0 && g.filterWidth as real <= g.scaleX * g.originalWidth as real + g.offsetX
    && g.offsetY <= 0.0 && g.filterHeight as real <= g.scaleY * g.originalHeight as real + g.offsetY
  }

  lemma AxisInImage(lo: real, hi: real, plane: real, size: real, offset: real, scale: real)
    requires scale > 0.0 && 0.0 <= lo < hi <= plane && offset <= 0.0 && plane <= scale * size + offset
    ensures 0.0 <= Back(lo, offset, scale) < Back(hi, offset, scale) <= size
  {
    BackOrder(offset, lo, offset, scale);
    BackOrder(lo, hi, offset, scale);
    BackOrder(hi, scale * size + offset, offset, scale);
    BackForward(size, offset, scale);
    BackForward(0.0, offset, scale);
  }

  lemma BoxInImage(b: Bbox, g: Geometry)
    requires g.Valid() && PlaneInImage(g) && BboxInFilter(b, g)
    ensures MapsBack(b, g)
  {
    hide Back;
    AxisInImage(b.xmin, b.xmax, g.filterWidth as real, g.originalWidth as real, g.offsetX, g.scaleX);
    AxisInImage(b.ymin, b.ymax, g.filterHeight as real, g.originalHeight as real, g.offsetY, g.scaleY);
    ForwardBack(b.xmin, g.offsetX, g.scaleX);
    ForwardBack(b.xmax, g.offsetX, g.scaleX);
    ForwardBack(b.ymin, g.offsetY, g.scaleY);
    ForwardBack(b.ymax, g.offsetY, g.scaleY);
    assert Shows(Bbox(Back(b.xmin, g.offsetX, g.scaleX), Back(b.ymin, g.offsetY, g.scaleY),
                      Back(b.xmax, g.offsetX, g.scaleX), Back(b.ymax, g.offsetY, g.scaleY)), b, g);
  }

  lemma PlaneOutside(g: Geometry)
    requires g.Valid() && MapsBack(Bbox(0.0, 0.0, g.filterWidth as real, g.filterHeight as real), g)
    ensures PlaneInImage(g)
  {
    var b: Bbox :| Shows(b, Bbox(0.0, 0.0, g.filterWidth as real, g.filterHeight as real), g);
    Scaled(0.0, b.xmin, g.scaleX);
    Scaled(0.0, b.ymin, g.scaleY);
    Scaled(b.xmax, g.originalWidth as real, g.scaleX);
    Scaled(b.ymax, g.originalHeight as real, g.scaleY);
  }

  /** The sink can show every box of the filter's plane exactly when the plane shows nothing beside the
      image: any detection in a margin that the filter has left black makes it refuse the frame. */
  lemma PlaneInImageIff(g: Geometry)
    requires g.Valid()
    ensures PlaneInImage(g) <==> forall b: Bbox :: BboxInFilter(b, g) ==> MapsBack(b, g)
  {
    hide MapsBack;
    if PlaneInImage(g) {
      forall b: Bbox | BboxInFilter(b, g) ensures MapsBack(b, g) {
        BoxInImage(b, g);
      }
    } else {
      var plane := Bbox(0.0, 0.0, g.filterWidth as real, g.filterHeight as real);
      assert BboxInFilter(plane, g);
      if MapsBack(plane, g) {
        PlaneOutside(g);
      }
    }
  }

  lemma AllInImage(shot: Shot)
    requires shot.geometry.Valid() && PlaneInImage(shot.geometry)
    ensures AllMapBack(shot)
  {
    hide Detector.Targets, Detector.IsSelection, MapsBack, PlaneInImage;
    forall i | 0 <= i < |shot.Targets()| ensures MapsBack(shot.Targets()[i].bbox, shot.geometry) {
      Detector.SelectionAccepted(shot.detections, shot.geometry, shot.Targets(), i);
      BoxInImage(shot.Targets()[i].bbox, shot.geometry);
    }
  }

  /** The detector's targets pass all the sink's tests but one. */
  lemma GoodTargetIff(shot: Shot, config: Config, input: Input, i: nat)
    requires shot.Plain() && shot.Equipped(config) && i < |shot.Targets()|
    requires input.badCrops == shot.badCrops && GetDetectionTarget(input.metas, i) == Some(shot.Targets()[i])
    ensures GoodTarget(config, input, shot.geometry, i) <==> MapsBack(shot.Targets()[i].bbox, shot.geometry)
  {
    hide GetDetectionTarget, MapsBack, Find, Detector.IsSelection, Detector.Reported, Detector.Targets;
    Detector.SelectionAccepted(shot.detections, shot.geometry, shot.Targets(), i);
    KnownClass(shot, config, i);
  }

  /** What the sink makes of a buffer that the detector has worked on. */
  lemma Reached(shot: Shot, config: Config, id: nat, input: Input)
    requires shot.Plain() && shot.Equipped(config)
    requires input == shot.Arriving(Detector.Attached(shot.metas, id, shot.detections, shot.geometry))
    ensures var frame := Frame(id, |shot.Targets()|);
            && (forall next :: Timely(config, next, input, shot.geometry, shot.clock, frame) <==> id == next && Usable(shot.clock))
            && (AllGood(config, input, shot.geometry, |shot.Targets()|) <==> AllMapBack(shot))
            && GetGeometry(input.metas) == Some(shot.geometry) && GetCdg00(input.metas) == Some(shot.clock)
            && GetDetectionFrame(input.metas) == Some(frame)
            && forall i: nat :: i < |shot.Targets()| ==> GetDetectionTarget(input.metas, i) == Some(shot.Targets()[i])
  {
    hide Find, MapsBack, GoodTarget, GetDetectionTarget, Detector.IsSelection, Detector.Targets, Detector.Reported;
    var targets := shot.Targets();
    Detector.AllAccepted(shot.detections, shot.geometry);
    AddThenGet(shot.metas, Frame(id, |targets|), targets);
    forall i: nat | i < |targets|
      ensures GoodTarget(config, input, shot.geometry, i) <==> MapsBack(targets[i].bbox, shot.geometry)
    {
      GoodTargetIff(shot, config, input, i);
    }
  }

  /** Both records of an accepted frame: its number, time and geometry, and the detector's targets. */
  predicate RecordsOf(role: Record, meta: Record, next: nat, shot: Shot, config: Config) {
    && role.RoleRecord? && role.frameId == next && role.clock == shot.clock
    && ShowsTargets(role.items, shot.Targets(), shot.geometry, config)
    && meta == MetaRecord(next, shot.clock, shot.geometry, |shot.Targets()|)
  }

  /** The sink accepts what the detector attached exactly when the frame numbers agree, the clock is usable
      and every target comes from a box of the image; every target then becomes an item, in order. */
  lemma FrameAccepted(shot: Shot, config: Config, next: nat, id: nat, input: Input)
    requires shot.Plain() && shot.Equipped(config)
    requires input == shot.Arriving(Detector.Attached(shot.metas, id, shot.detections, shot.geometry))
    ensures Accept(config, next, input).Some? <==> id == next && Usable(shot.clock) && AllMapBack(shot)
    ensures Accept(config, next, input).Some? ==>
              RecordsOf(Accept(config, next, input).value.0, Accept(config, next, input).value.1, next, shot, config)
  {
    hide Find, Accept, Timely, AllGood, Detector.Targets, AllMapBack, Usable, GetDetectionTarget, ShowsTarget;
    Reached(shot, config, id, input);
    AcceptIff(config, next, input);
    var frame := Frame(id, |shot.Targets()|);
    TimelyUnique(config, next, input, shot.geometry, shot.clock, frame);
    assert Timely(config, next, input, shot.geometry, shot.clock, frame) && AllGood(config, input, shot.geometry, frame.targetCount)
           <==> id == next && Usable(shot.clock) && AllMapBack(shot);
    if Accept(config, next, input).Some? {
      AcceptShows(config, next, input, shot.geometry, shot.clock, frame);
      var items := Accept(config, next, input).value.0.items;
      forall i: nat | i < |items| ensures ShowsTarget(items[i], i, shot.Targets()[i], shot.geometry, config) {
        assert TargetShown(items, config, input, shot.geometry, i);
      }
    }
  }

  /** A buffer has only one geometry, time and frame to be taken with. */
  lemma TimelyUnique(config: Config, next: nat, input: Input, g: Geometry, clock: Clock, frame: Frame)
    requires config.mode == TargetsMode && GetGeometry(input.metas) == Some(g) && GetCdg00(input.metas) == Some(clock)
    requires GetDetectionFrame(input.metas) == Some(frame)
    ensures forall g': Geometry, c: Clock, f: Frame :: Timely(config, next, input, g', c, f) ==> g' == g && c == clock && f == frame
  {
  }

  // ------------------------------------------------------------------ a stream of frames

  ghost predicate Supported(config: Config, shots: seq<Shot>) {
    forall i :: 0 <= i < |shots| ==> shots[i].Plain() && shots[i].Equipped(config)
  }

  function Calls(shots: seq<Shot>): (r: seq<Detector.Call>)
    ensures |r| == |shots| && forall i :: 0 <= i < |shots| ==> r[i] == shots[i].Call()
  {
    seq(|shots|, i requires 0 <= i < |shots| => shots[i].Call())
  }

  /** The buffers that one run of the detector hands to the sink. */
  function Inputs(shots: seq<Shot>): (r: seq<Input>)
    ensures |r| == |shots|
    ensures forall i :: 0 <= i < |shots| ==> r[i] == shots[i].Arriving(Detector.Run(Calls(shots)).1[i].0)
  {
    seq(|shots|, i requires 0 <= i < |shots| => shots[i].Arriving(Detector.Run(Calls(shots)).1[i].0))
  }

  lemma InputOfRun(config: Config, shots: seq<Shot>, i: nat)
    requires Supported(config, shots) && i < |shots|
    ensures Inputs(shots)[i] ==
            shots[i].Arriving(Detector.Attached(shots[i].metas, Detector.FrameId(i), shots[i].detections, shots[i].geometry))
  {
    hide Shot.Plain, Shot.Equipped, Detector.Run, Detector.Attached, Detector.Call.Succeeds;
    forall j | 0 <= j < |shots| ensures Calls(shots)[j].Succeeds() {
      PlainSucceeds(shots[j]);
    }
    PlainSucceeds(shots[i]);
    Detector.SuccessfulRun(Calls(shots), i);
  }

  /** The frame has a usable clock, and all its targets come from boxes of the image. */
  ghost predicate Presentable(shot: Shot) {
    Usable(shot.clock) && AllMapBack(shot)
  }

  ghost predicate AllPresentable(shots: seq<Shot>) {
    forall i :: 0 <= i < |shots| ==> Presentable(shots[i])
  }

  /** Frame `i` of a run of the detector, met by a sink that has accepted the i before it. */
  lemma StreamFrame(config: Config, shots: seq<Shot>, i: nat)
    requires Supported(config, shots) && i < |shots|
    ensures Accept(config, i, Inputs(shots)[i]).Some? <==> i < 0x1_0000_0000 && Presentable(shots[i])
    ensures Accept(config, i, Inputs(shots)[i]).Some? ==>
              RecordsOf(Accept(config, i, Inputs(shots)[i]).value.0, Accept(config, i, Inputs(shots)[i]).value.1, i, shots[i], config)
  {
    hide Shot.Plain, Shot.Equipped, Shot.Arriving, Accept, Inputs, Detector.Attached, RecordsOf, AllMapBack, Usable;
    InputOfRun(config, shots, i);
    assert shots[i].Plain() && shots[i].Equipped(config);
    FrameAccepted(shots[i], config, i, Detector.FrameId(i), Inputs(shots)[i]);
  }


  /** The sink accepts a whole run of the detector exactly up to 2^32 frames, all presentable: frame
      2^32 is numbered zero again. */
  lemma StreamAccepted(config: Config, shots: seq<Shot>)
    requires Supported(config, shots)
    ensures AllAccepted(config, Inputs(shots)) <==> |shots| <= 0x1_0000_0000 && AllPresentable(shots)
  {
    hide Accept, Inputs, Presentable, Supported;
    forall i: nat | i < |shots|
      ensures Accept(config, i, Inputs(shots)[i]).Some? <==> i < 0x1_0000_0000 && Presentable(shots[i])
    {
      StreamFrame(config, shots, i);
    }
    if |shots| > 0x1_0000_0000 {
      assert Accept(config, 0x1_0000_0000, Inputs(shots)[0x1_0000_0000]).None?;
    }
  }

  /** What the two elements leave behind after `shots` and one end of stream. */
  function Product(s: State, config: Config, shots: seq<Shot>): Files {
    StopStep(TextSinkRuns.Run(StartStep(s, config), Buffers(Inputs(shots)) + [Eos(true, true, true, true)])).files
  }

  /** Records `i` of both files are of frame `i` and show the detector's selection of its detections. */
  ghost predicate Records(role: seq<Record>, meta: seq<Record>, shots: seq<Shot>, config: Config) {
    |role| == |meta| == |shots| && forall i :: 0 <= i < |role| ==> RecordsOf(role[i], meta[i], i, shots[i], config)
  }

  /** The product of a run of the detector is published exactly when there are frames, at most 2^32, all
      presentable; it then records every frame. */
  lemma StreamDelivered(s: State, config: Config, shots: seq<Shot>)
    requires Fresh(s) && Supported(config, shots)
    ensures RoleFinal in Product(s, config, shots) <==> shots != [] && |shots| <= 0x1_0000_0000 && AllPresentable(shots)
    ensures RoleFinal in Product(s, config, shots) ==>
              var files := Product(s, config, shots);
              MetaFinal in files && Records(files[RoleFinal], files[MetaFinal], shots, config)
  {
    hide Accept, StartStep, StopStep, TextSinkRuns.Run, AllAccepted, AllPresentable, Supported, RecordsOf;
    StreamAccepted(config, shots);
    DeliversIff(s, config, Inputs(shots));
    if RoleFinal in Product(s, config, shots) {
      CompleteRunDelivers(s, config, Inputs(shots));
      RecordsAre(config, shots);
    }
  }

  lemma RecordsAre(config: Config, shots: seq<Shot>)
    requires Supported(config, shots) && AllAccepted(config, Inputs(shots))
    ensures Records(RoleRecords(config, Inputs(shots)), MetaRecords(config, Inputs(shots)), shots, config)
  {
    hide Accept, Inputs, RecordsOf, Supported;
    forall i: nat | i < |shots|
      ensures RecordsOf(RoleRecords(config, Inputs(shots))[i], MetaRecords(config, Inputs(shots))[i], i, shots[i], config)
    {
      assert Accept(config, i, Inputs(shots)[i]).Some?;
      StreamFrame(config, shots, i);
    }
  }
}
