/** Buffer metadata: `gst_meta_v1.cpp`. ABI version and size fields, which every writer sets and every
    reader checks against the same constants, are not modelled; neither are non-finite numbers. */
module Metadata {
  import opened Basics
  import opened Detect
  import opened Geometry

  const MAX_TARGETS: nat := 256

  datatype Frame = Frame(frameId: nat, targetCount: nat)

  datatype DetectionTarget = DetectionTarget(classIndex: nat, confidence: real, bbox: Bbox)

  datatype TrackingTarget = TrackingTarget(trackId: nat, classIndex: nat, bbox: Bbox)

  datatype Clock = Clock(valid: bool, seconds: nat, microseconds: nat, exposureNs: nat)

  datatype Kind = GeometryKind | Cdg00Kind | AreaFrameKind | DetectionKind | TrackingKind

  datatype Meta =
    | GeometryMeta(geometry: Geometry)
    | Cdg00Meta(windowStart: Clock)
    | AreaFrameMeta(clock: Clock)
    | DetectionMeta(frame: Frame, targets: seq<DetectionTarget>)
    | TrackingMeta(trackingFrame: Frame, tracks: seq<TrackingTarget>)
  {
    function Is(): Kind {
      match this
      case GeometryMeta(_) => GeometryKind
      case Cdg00Meta(_) => Cdg00Kind
      case AreaFrameMeta(_) => AreaFrameKind
      case DetectionMeta(_, _) => DetectionKind
      case TrackingMeta(_, _) => TrackingKind
    }
  }

  predicate ValidFrame(f: Frame) {
    f.targetCount <= MAX_TARGETS
  }

  predicate ValidDetectionTarget(t: DetectionTarget) {
    0.0 <= t.confidence <= 1.0 && Upright(t.bbox)
  }

  predicate ValidTrackingTarget(t: TrackingTarget) {
    Upright(t.bbox)
  }

  /** The first metadata record of a kind. */
  function Find(metas: seq<Meta>, kind: Kind): (r: Option<Meta>)
    ensures r.Some? ==> r.value.Is() == kind
  {
    if metas == [] then None else if metas[0].Is() == kind then Some(metas[0]) else Find(metas[1..], kind)
  }

  function GetGeometry(metas: seq<Meta>): Option<Geometry> {
    match Find(metas, GeometryKind)
    case Some(GeometryMeta(g)) => if g.Valid() then Some(g) else None
    case _ => None
  }

  function GetCdg00(metas: seq<Meta>): Option<Clock> {
    match Find(metas, Cdg00Kind)
    case Some(Cdg00Meta(c)) => Some(c)
    case _ => None
  }

  function GetAreaFrame(metas: seq<Meta>): Option<Clock> {
    match Find(metas, AreaFrameKind)
    case Some(AreaFrameMeta(c)) => Some(c)
    case _ => None
  }

  function GetDetectionFrame(metas: seq<Meta>): Option<Frame> {
    match Find(metas, DetectionKind)
    case Some(DetectionMeta(f, _)) => if ValidFrame(f) then Some(f) else None
    case _ => None
  }

  function GetDetectionTarget(metas: seq<Meta>, i: nat): Option<DetectionTarget> {
    match Find(metas, DetectionKind)
    case Some(DetectionMeta(f, ts)) =>
      if ValidFrame(f) && i < f.targetCount && i < |ts| && ValidDetectionTarget(ts[i]) then Some(ts[i]) else None
    case _ => None
  }

  function GetTrackingFrame(metas: seq<Meta>): Option<Frame> {
    match Find(metas, TrackingKind)
    case Some(TrackingMeta(f, _)) => if ValidFrame(f) then Some(f) else None
    case _ => None
  }

  function GetTrackingTarget(metas: seq<Meta>, i: nat): Option<TrackingTarget> {
    match Find(metas, TrackingKind)
    case Some(TrackingMeta(f, ts)) =>
      if ValidFrame(f) && i < f.targetCount && i < |ts| && ValidTrackingTarget(ts[i]) then Some(ts[i]) else None
    case _ => None
  }

  predicate AllValid(targets: seq<DetectionTarget>, n: nat)
    requires n <= |targets|
  {
    forall i :: 0 <= i < n ==> ValidDetectionTarget(targets[i])
  }

  class Buffer {
    var metas: seq<Meta>

    constructor (metas: seq<Meta>)
      ensures this.metas == metas
    {
      this.metas := metas;
    }

    method FindMeta(kind: Kind) returns (r: Option<Meta>)
      ensures r == Find(metas, kind)
    {
      var i := 0;
      while i < |metas|
        invariant 0 <= i <= |metas| && Find(metas, kind) == Find(metas[i..], kind)
      {
        if metas[i].Is() == kind {
          return Some(metas[i]);
        }
        i := i + 1;
      }
      r := None;
    }

    /** `ip_buffer_add_detection_meta`: nothing is attached beside an earlier detection record, or when
        the count or some target is not valid. */
    method AddDetectionMeta(frame: Frame, targets: seq<DetectionTarget>) returns (ok: bool)
      requires frame.targetCount <= |targets|
      modifies this
      ensures ok <==> ValidFrame(frame) && Find(old(metas), DetectionKind).None? && AllValid(targets, frame.targetCount)
      ensures metas == if ok then old(metas) + [DetectionMeta(frame, targets[..frame.targetCount])] else old(metas)
    {
      if !ValidFrame(frame) {
        return false;
      }
      var existing := FindMeta(DetectionKind);
      if existing.Some? {
        return false;
      }
      var i := 0;
      while i < frame.targetCount
        invariant 0 <= i <= frame.targetCount && AllValid(targets, i)
        invariant metas == old(metas)
      {
        if !ValidDetectionTarget(targets[i]) {
          return false;
        }
        i := i + 1;
      }
      metas := metas + [DetectionMeta(frame, targets[..frame.targetCount])];
      ok := true;
    }
  }

  lemma {:induction false} FindAppended(metas: seq<Meta>, m: Meta, kind: Kind)
    ensures Find(metas + [m], kind) ==
            if Find(metas, kind).Some? then Find(metas, kind) else if m.Is() == kind then Some(m) else None
  {
    if metas == [] {
      assert metas + [m] == [m];
    } else {
      assert (metas + [m])[1..] == metas[1..] + [m];
      FindAppended(metas[1..], m, kind);
    }
  }

  /** What was attached is what is read: the frame and each of its targets. */
  lemma AddThenGet(metas: seq<Meta>, frame: Frame, targets: seq<DetectionTarget>)
    requires ValidFrame(frame) && Find(metas, DetectionKind).None?
    requires frame.targetCount == |targets| && AllValid(targets, |targets|)
    ensures var more := metas + [DetectionMeta(frame, targets)];
            && GetDetectionFrame(more) == Some(frame)
            && (forall i: nat :: i < |targets| ==> GetDetectionTarget(more, i) == Some(targets[i]))
            && (forall kind :: kind != DetectionKind ==> Find(more, kind) == Find(metas, kind))
  {
    hide Find;
    var m := DetectionMeta(frame, targets);
    FindAppended(metas, m, DetectionKind);
    forall kind | kind != DetectionKind ensures Find(metas + [m], kind) == Find(metas, kind) {
      FindAppended(metas, m, kind);
    }
  }

  lemma {:induction false} FindFirst(metas: seq<Meta>, kind: Kind, p: nat)
    requires p < |metas| && metas[p].Is() == kind && forall q :: 0 <= q < p ==> metas[q].Is() != kind
    ensures Find(metas, kind) == Some(metas[p])
  {
    if p > 0 {
      FindFirst(metas[1..], kind, p - 1);
    }
  }

  /** The accessors read the first record of their kind, and only a valid one. */
  lemma ReadsFirst(metas: seq<Meta>, p: nat)
    requires p < |metas| && forall q :: 0 <= q < p ==> metas[q].Is() != metas[p].Is()
    ensures metas[p].GeometryMeta? ==>
              var g := metas[p].geometry;
              GetGeometry(metas) == (if g.originalWidth > 0 && g.originalHeight > 0 && g.filterWidth > 0 && g.filterHeight > 0
                                        && g.scaleX > 0.0 && g.scaleY > 0.0 then Some(g) else None)
    ensures metas[p].Cdg00Meta? ==> GetCdg00(metas) == Some(metas[p].windowStart)
    ensures metas[p].AreaFrameMeta? ==> GetAreaFrame(metas) == Some(metas[p].clock)
    ensures metas[p].DetectionMeta? ==>
              GetDetectionFrame(metas) == if metas[p].frame.targetCount <= 256 then Some(metas[p].frame) else None
    ensures metas[p].TrackingMeta? ==>
              GetTrackingFrame(metas) == if metas[p].trackingFrame.targetCount <= 256 then Some(metas[p].trackingFrame) else None
  {
    FindFirst(metas, metas[p].Is(), p);
  }

  /** Target `i` of such a record is read if the record counts it, has it, and it is a valid one. */
  lemma ReadsTarget(metas: seq<Meta>, p: nat, i: nat)
    requires p < |metas| && forall q :: 0 <= q < p ==> metas[q].Is() != metas[p].Is()
    ensures metas[p].DetectionMeta? ==>
              var f, ts := metas[p].frame, metas[p].targets;
              GetDetectionTarget(metas, i) ==
              (if f.targetCount <= 256 && i < f.targetCount && i < |ts| && 0.0 <= ts[i].confidence <= 1.0
                  && ts[i].bbox.xmin < ts[i].bbox.xmax && ts[i].bbox.ymin < ts[i].bbox.ymax then Some(ts[i]) else None)
    ensures metas[p].TrackingMeta? ==>
              var f, ts := metas[p].trackingFrame, metas[p].tracks;
              GetTrackingTarget(metas, i) ==
              (if f.targetCount <= 256 && i < f.targetCount && i < |ts|
                  && ts[i].bbox.xmin < ts[i].bbox.xmax && ts[i].bbox.ymin < ts[i].bbox.ymax then Some(ts[i]) else None)
  {
    FindFirst(metas, metas[p].Is(), p);
  }
}
