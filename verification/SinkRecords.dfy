/** What the records of the product sink say about the buffers they were made from, in both modes and for
    every geometry. */
module SinkRecords {
  import opened Basics
  import opened Detect
  import opened Geometry
  import opened Metadata
  import opened TextSink
  import opened TextSinkRuns

  // ------------------------------------------------------------------ one target

  /** The box `b` is in the original image, and the filter's map takes it to `filtered`. */
  predicate Shows(b: Bbox, filtered: Bbox, g: Geometry) {
    && 0.0 <= b.xmin < b.xmax <= g.originalWidth as real && 0.0 <= b.ymin < b.ymax <= g.originalHeight as real
    && g.scaleX * b.xmin + g.offsetX == filtered.xmin && g.scaleX * b.xmax + g.offsetX == filtered.xmax
    && g.scaleY * b.ymin + g.offsetY == filtered.ymin && g.scaleY * b.ymax + g.offsetY == filtered.ymax
  }

  /** Some box of the image does. */
  ghost predicate MapsBack(filtered: Bbox, g: Geometry) {
    exists b: Bbox :: Shows(b, filtered, g)
  }

  /** The item is of class `kind`, known to the category map, and gives the middle of its box. */
  predicate Labelled(item: Item, kind: nat, c: Config) {
    && item.classIndex == kind && kind in c.types && item.classType == c.types[kind]
    && 2.0 * item.centerX == item.bbox.xmin + item.bbox.xmax && 2.0 * item.centerY == item.bbox.ymin + item.bbox.ymax
  }

  /** The item is of detection target `i`: its number, class and score, and the image's box that the filter
      maps to the target's. */
  predicate ShowsTarget(item: Item, i: nat, t: DetectionTarget, g: Geometry, c: Config) {
    item.TargetItem? && item.index == i && item.confidence == t.confidence && Labelled(item, t.classIndex, c) && Shows(item.bbox, t.bbox, g)
  }

  /** The item is of a track: its number and class, and the image's box that the filter maps to the
      track's. */
  predicate ShowsTrack(item: Item, t: TrackingTarget, g: Geometry, c: Config) {
    item.TrackItem? && item.trackId == t.trackId && Labelled(item, t.classIndex, c) && Shows(item.bbox, t.bbox, g)
  }

  /** The sink can show a box of this class: it is upright and in the filter's plane, comes from a box of the
      image, and has a known class. */
  ghost predicate Showable(box: Bbox, kind: nat, g: Geometry, c: Config) {
    && 0.0 <= box.xmin < box.xmax <= g.filterWidth as real && 0.0 <= box.ymin < box.ymax <= g.filterHeight as real
    && MapsBack(box, g) && kind in c.types
  }

  lemma InverseIff(box: Bbox, g: Geometry)
    requires g.Valid() && Upright(box)
    ensures InverseBbox(box, g).Some? <==> MapsBack(box, g)
    ensures InverseBbox(box, g).Some? ==> Shows(InverseBbox(box, g).value, box, g)
  {
    hide InverseBbox;
    if InverseBbox(box, g).Some? {
      ForwardUndoesInverse(box, g);
      assert Shows(InverseBbox(box, g).value, box, g);
    }
    if b: Bbox :| Shows(b, box, g) {
      assert g.Forward(b) == box;
      InverseUndoesForward(b, g);
    }
  }

  /** Target `i` becomes an item exactly when there is one, it can be shown, and its crop can be written if
      crops are asked for; the item then shows it. */
  lemma TargetItemIff(c: Config, input: Input, g: Geometry, i: nat, seen: set<nat>)
    requires g.Valid() && c.mode == TargetsMode
    ensures var t, item := GetDetectionTarget(input.metas, i), ItemAt(c, input, g, i, seen);
            && (item.Some? <==> t.Some? && Showable(t.value.bbox, t.value.classIndex, g, c) && (c.crops ==> i !in input.badCrops))
            && (item.Some? ==> ShowsTarget(item.value, i, t.value, g, c))
  {
    hide GetDetectionTarget, InverseBbox, MapsBack, Shows;
    var t := GetDetectionTarget(input.metas, i);
    if t.Some? && Upright(t.value.bbox) {
      InverseIff(t.value.bbox, g);
    }
  }

  lemma TrackItemIff(c: Config, input: Input, g: Geometry, i: nat, seen: set<nat>)
    requires g.Valid() && c.mode == TracksMode
    ensures var t, item := GetTrackingTarget(input.metas, i), ItemAt(c, input, g, i, seen);
            && (item.Some? <==> t.Some? && t.value.trackId !in seen && Showable(t.value.bbox, t.value.classIndex, g, c)
                                && (c.crops ==> i !in input.badCrops))
            && (item.Some? ==> ShowsTrack(item.value, t.value, g, c))
  {
    hide GetTrackingTarget, InverseBbox, MapsBack, Shows;
    var t := GetTrackingTarget(input.metas, i);
    if t.Some? && Upright(t.value.bbox) {
      InverseIff(t.value.bbox, g);
    }
  }

  // ------------------------------------------------------------------ all targets

  /** Target `i` is there and can be shown. */
  ghost predicate GoodTarget(c: Config, input: Input, g: Geometry, i: nat) {
    var t := GetDetectionTarget(input.metas, i);
    t.Some? && Showable(t.value.bbox, t.value.classIndex, g, c) && (c.crops ==> i !in input.badCrops)
  }

  ghost predicate GoodTrack(c: Config, input: Input, g: Geometry, i: nat) {
    var t := GetTrackingTarget(input.metas, i);
    t.Some? && Showable(t.value.bbox, t.value.classIndex, g, c) && (c.crops ==> i !in input.badCrops)
  }

  predicate SameTrack(input: Input, i: nat, j: nat) {
    var a, b := GetTrackingTarget(input.metas, i), GetTrackingTarget(input.metas, j);
    a.Some? && b.Some? && a.value.trackId == b.value.trackId
  }

  /** An earlier track has the number of track `n`. */
  ghost predicate NumberSeen(input: Input, n: nat) {
    exists i: nat :: i < n && SameTrack(input, i, n)
  }

  ghost predicate TrackNumbersDiffer(input: Input, n: nat) {
    forall i: nat, j: nat :: i < j < n ==> !SameTrack(input, i, j)
  }

  /** Item `i` shows target `i`. */
  predicate TargetShown(items: seq<Item>, c: Config, input: Input, g: Geometry, i: nat) {
    var t := GetDetectionTarget(input.metas, i);
    i < |items| && t.Some? && ShowsTarget(items[i], i, t.value, g, c)
  }

  predicate TrackShown(items: seq<Item>, c: Config, input: Input, g: Geometry, i: nat) {
    var t := GetTrackingTarget(input.metas, i);
    i < |items| && t.Some? && ShowsTrack(items[i], t.value, g, c)
  }

  predicate TargetsShown(items: seq<Item>, c: Config, input: Input, g: Geometry) {
    forall i: nat :: i < |items| ==> TargetShown(items, c, input, g, i)
  }

  predicate TracksShown(items: seq<Item>, c: Config, input: Input, g: Geometry) {
    forall i: nat :: i < |items| ==> TrackShown(items, c, input, g, i)
  }

  lemma OneMoreTarget(items: seq<Item>, item: Item, c: Config, input: Input, g: Geometry)
    requires TargetsShown(items, c, input, g) && GetDetectionTarget(input.metas, |items|).Some?
    requires ShowsTarget(item, |items|, GetDetectionTarget(input.metas, |items|).value, g, c)
    ensures TargetsShown(items + [item], c, input, g)
  {
    hide GetDetectionTarget, ShowsTarget;
    forall i: nat | i < |items| + 1 ensures TargetShown(items + [item], c, input, g, i) {
      assert i < |items| ==> TargetShown(items, c, input, g, i);
    }
  }

  lemma OneMoreTrack(items: seq<Item>, item: Item, c: Config, input: Input, g: Geometry)
    requires TracksShown(items, c, input, g) && GetTrackingTarget(input.metas, |items|).Some?
    requires ShowsTrack(item, GetTrackingTarget(input.metas, |items|).value, g, c)
    ensures TracksShown(items + [item], c, input, g)
  {
    hide GetTrackingTarget, ShowsTrack;
    forall i: nat | i < |items| + 1 ensures TrackShown(items + [item], c, input, g, i) {
      assert i < |items| ==> TrackShown(items, c, input, g, i);
    }
  }

  /** All targets are shown, in order, or the buffer is refused: in targets mode exactly when each can be
      shown ... */
  lemma {:induction false} TargetItemsIff(c: Config, input: Input, g: Geometry, n: nat)
    requires g.Valid() && c.mode == TargetsMode
    ensures Items(c, input, g, n).Some? <==> forall i: nat :: i < n ==> GoodTarget(c, input, g, i)
    ensures Items(c, input, g, n).Some? ==> TargetsShown(Items(c, input, g, n).value, c, input, g)
  {
    hide ItemAt, GetDetectionTarget, Showable, ShowsTarget, TargetsShown;
    if n > 0 {
      TargetItemsIff(c, input, g, n - 1);
      var before := Items(c, input, g, n - 1);
      if before.Some? {
        var item := ItemAt(c, input, g, n - 1, TracksOf(before.value));
        TargetItemIff(c, input, g, n - 1, TracksOf(before.value));
        assert item.Some? <==> GoodTarget(c, input, g, n - 1);
        if item.Some? {
          OneMoreTarget(before.value, item.value, c, input, g);
        }
      }
    } else {
      NothingShown(c, input, g);
    }
  }

  lemma NothingShown(c: Config, input: Input, g: Geometry)
    ensures TargetsShown([], c, input, g) && TracksShown([], c, input, g)
  {
  }

  /** ... and in tracks mode exactly when each can be shown and no two have one number. */
  lemma {:induction false} TrackItemsIff(c: Config, input: Input, g: Geometry, n: nat)
    requires g.Valid() && c.mode == TracksMode
    ensures Items(c, input, g, n).Some? <==>
              (forall i: nat :: i < n ==> GoodTrack(c, input, g, i)) && TrackNumbersDiffer(input, n)
    ensures Items(c, input, g, n).Some? ==> TracksShown(Items(c, input, g, n).value, c, input, g)
  {
    hide ItemAt, GetTrackingTarget, Showable, ShowsTrack, TracksShown, SameTrack, TracksOf;
    if n > 0 {
      TrackItemsIff(c, input, g, n - 1);
      var before := Items(c, input, g, n - 1);
      NumbersSoFar(input, n - 1);
      if before.Some? {
        var item := ItemAt(c, input, g, n - 1, TracksOf(before.value));
        TrackItemIff(c, input, g, n - 1, TracksOf(before.value));
        if GetTrackingTarget(input.metas, n - 1).Some? {
          SeenBefore(before.value, c, input, g);
        }
        assert item.Some? <==> GoodTrack(c, input, g, n - 1) && !NumberSeen(input, n - 1);
        if item.Some? {
          OneMoreTrack(before.value, item.value, c, input, g);
        }
      }
    } else {
      NothingShown(c, input, g);
    }
  }

  lemma NumbersSoFar(input: Input, n: nat)
    ensures TrackNumbersDiffer(input, n + 1) <==> TrackNumbersDiffer(input, n) && !NumberSeen(input, n)
  {
    hide SameTrack;
  }

  /** A track number has been seen exactly when an earlier track has it. */
  lemma SeenBefore(items: seq<Item>, c: Config, input: Input, g: Geometry)
    requires TracksShown(items, c, input, g) && GetTrackingTarget(input.metas, |items|).Some?
    ensures GetTrackingTarget(input.metas, |items|).value.trackId in TracksOf(items) <==> NumberSeen(input, |items|)
  {
    hide GetTrackingTarget, Labelled, Shows;
    var n, id := |items|, GetTrackingTarget(input.metas, |items|).value.trackId;
    if id in TracksOf(items) {
      var x :| x in items && x.TrackItem? && x.trackId == id;
      var i: nat :| i < n && items[i] == x;
      assert TrackShown(items, c, input, g, i);
      assert SameTrack(input, i, n);
    }
    if i: nat :| i < n && SameTrack(input, i, n) {
      assert TrackShown(items, c, input, g, i);
      assert items[i] in items;
    }
  }

  // ------------------------------------------------------------------ one buffer

  /** The buffer is one the sink can take as its next: filtered picture and geometry agree, exactly the
      metadata of the mode is there, with this number, and the time is usable. */
  ghost predicate Timely(c: Config, next: nat, input: Input, g: Geometry, clock: Clock, frame: Frame) {
    && GetGeometry(input.metas) == Some(g) && input.caps == Some(Caps(g.filterWidth, g.filterHeight))
    && (match c.mode
        case TargetsMode =>
          GetDetectionFrame(input.metas) == Some(frame) && GetTrackingFrame(input.metas).None? && GetCdg00(input.metas) == Some(clock)
        case TracksMode =>
          GetTrackingFrame(input.metas) == Some(frame) && GetDetectionFrame(input.metas).None? && GetAreaFrame(input.metas) == Some(clock))
    && clock.valid && clock.microseconds <= 999999 && frame.frameId == next && (c.crops ==> input.maps)
  }

  ghost predicate AllGood(c: Config, input: Input, g: Geometry, n: nat) {
    match c.mode
    case TargetsMode => forall i: nat :: i < n ==> GoodTarget(c, input, g, i)
    case TracksMode => (forall i: nat :: i < n ==> GoodTrack(c, input, g, i)) && TrackNumbersDiffer(input, n)
  }

  /** A buffer is accepted exactly when it is timely and all its targets are good, and then its two records
      are of this frame, time and geometry, and show all its targets in order. */
  lemma AcceptIff(c: Config, next: nat, input: Input)
    ensures Accept(c, next, input).Some? <==>
            exists g: Geometry, clock: Clock, frame: Frame ::
              Timely(c, next, input, g, clock, frame) && AllGood(c, input, g, frame.targetCount)
  {
    hide Find, Items, GoodTarget, GoodTrack, TrackNumbersDiffer;
    var g, clock, frame := GetGeometry(input.metas), ClockOf(c.mode, input.metas), FrameOf(c.mode, input.metas);
    if g.Some? && clock.Some? && frame.Some? {
      if c.mode == TargetsMode {
        TargetItemsIff(c, input, g.value, frame.value.targetCount);
      } else {
        TrackItemsIff(c, input, g.value, frame.value.targetCount);
      }
      if Accept(c, next, input).Some? {
        assert Timely(c, next, input, g.value, clock.value, frame.value);
      }
    }
  }

  lemma AcceptShows(c: Config, next: nat, input: Input, g: Geometry, clock: Clock, frame: Frame)
    requires Accept(c, next, input).Some? && Timely(c, next, input, g, clock, frame)
    ensures var (role, meta) := Accept(c, next, input).value;
            && meta == MetaRecord(next, clock, g, frame.targetCount)
            && role == RoleRecord(next, clock, role.items) && |role.items| == frame.targetCount
            && (c.mode == TargetsMode ==> TargetsShown(role.items, c, input, g))
            && (c.mode == TracksMode ==> TracksShown(role.items, c, input, g))
  {
    hide Find, Items, TargetsShown, TracksShown, GoodTarget, GoodTrack;
    if c.mode == TargetsMode {
      TargetItemsIff(c, input, g, frame.targetCount);
    } else {
      TrackItemsIff(c, input, g, frame.targetCount);
    }
  }

  // ------------------------------------------------------------------ a stream of buffers

  ghost predicate Acceptable(c: Config, next: nat, input: Input) {
    exists g: Geometry, clock: Clock, frame: Frame ::
      Timely(c, next, input, g, clock, frame) && AllGood(c, input, g, frame.targetCount)
  }

  /** The two records are of this buffer: its time and geometry, and all its targets in order. */
  ghost predicate RecordsShow(role: Record, meta: Record, c: Config, next: nat, input: Input) {
    exists g: Geometry, clock: Clock, frame: Frame ::
      Timely(c, next, input, g, clock, frame) && RecordsAre(role, meta, c, next, input, g, clock, frame)
  }

  predicate RecordsAre(role: Record, meta: Record, c: Config, next: nat, input: Input, g: Geometry, clock: Clock, frame: Frame) {
    && meta == MetaRecord(next, clock, g, frame.targetCount)
    && role.RoleRecord? && role.frameId == next && role.clock == clock && |role.items| == frame.targetCount
    && match c.mode
       case TargetsMode => TargetsShown(role.items, c, input, g)
       case TracksMode => TracksShown(role.items, c, input, g)
  }

  lemma AcceptedShown(c: Config, next: nat, input: Input)
    ensures Accept(c, next, input).Some? <==> Acceptable(c, next, input)
    ensures Accept(c, next, input).Some? ==> RecordsShow(Accept(c, next, input).value.0, Accept(c, next, input).value.1, c, next, input)
  {
    hide Accept, Timely, AllGood, TargetsShown, TracksShown;
    AcceptIff(c, next, input);
    if Accept(c, next, input).Some? {
      var g: Geometry, clock: Clock, frame: Frame :| Timely(c, next, input, g, clock, frame) && AllGood(c, input, g, frame.targetCount);
      AcceptShows(c, next, input, g, clock, frame);
      var r := Accept(c, next, input).value;
      assert RecordsAre(r.0, r.1, c, next, input, g, clock, frame);
    }
  }

  /** Buffers on which every file operation succeeds, and one end of stream, publish a product exactly when
      there is a buffer and each is acceptable as the next; records i of both files are then of buffer i. */
  lemma StreamShown(s: State, c: Config, inputs: seq<Input>)
    requires Fresh(s)
    ensures var files := StopStep(TextSinkRuns.Run(StartStep(s, c), Buffers(inputs) + [Eos(true, true, true, true)])).files;
            && (RoleFinal in files <==> inputs != [] && forall i: nat :: i < |inputs| ==> Acceptable(c, i, inputs[i]))
            && (RoleFinal in files ==>
                  && MetaFinal in files && |files[RoleFinal]| == |files[MetaFinal]| == |inputs|
                  && forall i: nat :: i < |inputs| ==> RecordsShow(files[RoleFinal][i], files[MetaFinal][i], c, i, inputs[i]))
  {
    hide Accept, Acceptable, RecordsShow, StartStep, StopStep, TextSinkRuns.Run;
    forall i: nat | i < |inputs|
      ensures Accept(c, i, inputs[i]).Some? <==> Acceptable(c, i, inputs[i])
      ensures Accept(c, i, inputs[i]).Some? ==> RecordsShow(Accept(c, i, inputs[i]).value.0, Accept(c, i, inputs[i]).value.1, c, i, inputs[i])
    {
      AcceptedShown(c, i, inputs[i]);
    }
    DeliversIff(s, c, inputs);
    if inputs != [] && AllAccepted(c, inputs) {
      CompleteRunDelivers(s, c, inputs);
    }
  }
}
