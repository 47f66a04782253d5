/** The detector element of `lynxi_detector.cpp`: which detections become targets, and how frames are
    numbered. */
module Detector {
  import opened Basics
  import opened Detect
  import opened Geometry
  import opened Metadata

  const UINT32: nat := 0x1_0000_0000

  // ------------------------------------------------------------------ one detection

  /** `clamp_bbox`: puts the corners in order and cuts the box to the filter plane. */
  function ClampBbox(d: Detection, g: Geometry): Bbox {
    var b := d.bbox;
    Bbox(MaxReal(0.0, MinReal(b.xmin, b.xmax)), MaxReal(0.0, MinReal(b.ymin, b.ymax)),
         MinReal(g.filterWidth as real, MaxReal(b.xmin, b.xmax)), MinReal(g.filterHeight as real, MaxReal(b.ymin, b.ymax)))
  }

  /** A detection is reported unless its class or score is out of range or nothing of its box is left. */
  predicate Reported(d: Detection, g: Geometry) {
    0 <= d.id && 0.0 <= d.score <= 1.0 && Upright(ClampBbox(d, g))
  }

  function TargetOf(d: Detection, g: Geometry): DetectionTarget
    requires Reported(d, g)
  {
    DetectionTarget(d.id, d.score, ClampBbox(d, g))
  }

  /** The clamped box keeps exactly the part of the plane that the two corners span. */
  lemma ClampKeeps(d: Detection, g: Geometry, x: real, y: real)
    requires 0.0 <= x <= g.filterWidth as real && 0.0 <= y <= g.filterHeight as real
    ensures var b, c := d.bbox, ClampBbox(d, g);
            (c.xmin <= x <= c.xmax && c.ymin <= y <= c.ymax) <==>
            (MinReal(b.xmin, b.xmax) <= x <= MaxReal(b.xmin, b.xmax) && MinReal(b.ymin, b.ymax) <= y <= MaxReal(b.ymin, b.ymax))
  {
  }

  /** `x` lies strictly between `a` and `b`, in whatever order they come. */
  predicate Between(a: real, x: real, b: real) {
    a < x < b || b < x < a
  }

  /** A detection is reported exactly when its class and score are in range and the box that its corners span
      has a point inside the plane. */
  lemma ReportedIff(d: Detection, g: Geometry)
    ensures Reported(d, g) <==>
              && 0 <= d.id && 0.0 <= d.score <= 1.0
              && (exists x: real :: Between(d.bbox.xmin, x, d.bbox.xmax) && Between(0.0, x, g.filterWidth as real))
              && (exists y: real :: Between(d.bbox.ymin, y, d.bbox.ymax) && Between(0.0, y, g.filterHeight as real))
  {
    var c := ClampBbox(d, g);
    var x, y := (c.xmin + c.xmax) / 2.0, (c.ymin + c.ymax) / 2.0;
    assert c.xmin < c.xmax ==> Between(d.bbox.xmin, x, d.bbox.xmax) && Between(0.0, x, g.filterWidth as real);
    assert c.ymin < c.ymax ==> Between(d.bbox.ymin, y, d.bbox.ymax) && Between(0.0, y, g.filterHeight as real);
  }

  // ------------------------------------------------------------------ a list of detections

  /** The positions of the reported detections, in order. */
  function ReportedAt(ds: seq<Detection>, g: Geometry): seq<nat> {
    if ds == [] then []
    else ReportedAt(ds[..|ds| - 1], g) + if Reported(ds[|ds| - 1], g) then [|ds| - 1] else []
  }

  lemma {:induction false} ReportedAtAre(ds: seq<Detection>, g: Geometry)
    ensures forall i :: 0 <= i < |ReportedAt(ds, g)| ==> ReportedAt(ds, g)[i] < |ds| && Reported(ds[ReportedAt(ds, g)[i]], g)
    ensures forall i, j :: 0 <= i < j < |ReportedAt(ds, g)| ==> ReportedAt(ds, g)[i] < ReportedAt(ds, g)[j]
    ensures forall k: nat :: k < |ds| && Reported(ds[k], g) ==> k in ReportedAt(ds, g)
  {
    hide Reported;
    if ds != [] {
      var n := |ds| - 1;
      ReportedAtAre(ds[..n], g);
      var before := ReportedAt(ds[..n], g);
      assert forall i :: 0 <= i < |before| ==> ds[..n][before[i]] == ds[before[i]];
      assert forall k: nat :: k < n ==> ds[..n][k] == ds[k];
    }
  }

  /** When all are reported the positions are all positions. */
  lemma {:induction false} AllReported(ds: seq<Detection>, g: Geometry, i: nat)
    requires i < |ds| && forall d <- ds :: Reported(d, g)
    ensures |ReportedAt(ds, g)| == |ds| && ReportedAt(ds, g)[i] == i
  {
    hide Reported;
    var n := |ds| - 1;
    if n > 0 {
      AllReported(ds[..n], g, if i < n then i else 0);
    }
  }

  /** `targets` is the selection: reported detections in their order, the first 256 if there are more. */
  ghost predicate IsSelection(ds: seq<Detection>, g: Geometry, targets: seq<DetectionTarget>) {
    var at := ReportedAt(ds, g);
    && |targets| == (if |at| < MAX_TARGETS then |at| else MAX_TARGETS)
    && forall i :: 0 <= i < |targets| ==> at[i] < |ds| && Reported(ds[at[i]], g) && targets[i] == TargetOf(ds[at[i]], g)
  }

  /** The loop of `transform_ip`: it stops at 256 targets. */
  method SelectTargets(ds: seq<Detection>, g: Geometry) returns (targets: seq<DetectionTarget>)
    ensures IsSelection(ds, g, targets)
  {
    targets := [];
    var i := 0;
    while i < |ds| && |targets| < MAX_TARGETS
      invariant 0 <= i <= |ds| && |targets| <= MAX_TARGETS
      invariant IsSelection(ds[..i], g, targets)
    {
      var d := ds[i];
      NextSelection(ds, g, targets, i);
      if d.id < 0 || d.score < 0.0 || d.score > 1.0 {
        i := i + 1;
        continue;
      }
      var target := DetectionTarget(d.id, d.score, ClampBbox(d, g));
      if target.bbox.xmin >= target.bbox.xmax || target.bbox.ymin >= target.bbox.ymax {
        i := i + 1;
        continue;
      }
      targets := targets + [target];
      i := i + 1;
    }
    EnoughSelected(ds, g, targets, i);
  }

  /** The selection as a value. */
  function Targets(ds: seq<Detection>, g: Geometry): (r: seq<DetectionTarget>)
    ensures IsSelection(ds, g, r)
  {
    ReportedAtAre(ds, g);
    var at := ReportedAt(ds, g);
    var n := if |at| < MAX_TARGETS then |at| else MAX_TARGETS;
    seq(n, i requires 0 <= i < n => TargetOf(ds[at[i]], g))
  }

  lemma SelectionUnique(ds: seq<Detection>, g: Geometry, targets: seq<DetectionTarget>)
    requires IsSelection(ds, g, targets)
    ensures targets == Targets(ds, g)
  {
    hide Reported, TargetOf, ReportedAt;
  }

  lemma NextSelection(ds: seq<Detection>, g: Geometry, targets: seq<DetectionTarget>, i: nat)
    requires i < |ds| && |targets| < MAX_TARGETS && IsSelection(ds[..i], g, targets)
    ensures Reported(ds[i], g) ==> IsSelection(ds[..i + 1], g, targets + [TargetOf(ds[i], g)])
    ensures !Reported(ds[i], g) ==> IsSelection(ds[..i + 1], g, targets)
  {
    hide Reported, TargetOf;
    var before, after := ReportedAt(ds[..i], g), ReportedAt(ds[..i + 1], g);
    assert ds[..i + 1][..i] == ds[..i];
    assert after == before + if Reported(ds[i], g) then [i] else [];
    ReportedAtAre(ds[..i], g);
    hide ReportedAt;
    assert forall j :: 0 <= j < |before| ==> ds[..i][before[j]] == ds[before[j]] == ds[..i + 1][before[j]];
  }

  lemma {:induction false} EnoughSelected(ds: seq<Detection>, g: Geometry, targets: seq<DetectionTarget>, i: nat)
    requires i <= |ds| && IsSelection(ds[..i], g, targets) && (i == |ds| || |targets| == MAX_TARGETS)
    ensures IsSelection(ds, g, targets)
    decreases |ds|
  {
    hide Reported, TargetOf;
    if i == |ds| {
      assert ds[..i] == ds;
    } else {
      var n := |ds| - 1;
      assert ds[..n][..i] == ds[..i];
      EnoughSelected(ds[..n], g, targets, i);
      ReportedAtAre(ds[..n], g);
    }
  }

  /** Whatever the detections were, the targets pass the metadata validation and the sink's filter test,
      and with an unchanged geometry the sink reports their boxes as they are. */
  lemma SelectionAccepted(ds: seq<Detection>, g: Geometry, targets: seq<DetectionTarget>, i: nat)
    requires g.Valid() && IsSelection(ds, g, targets) && i < |targets|
    ensures |targets| <= MAX_TARGETS && ValidDetectionTarget(targets[i]) && BboxInFilter(targets[i].bbox, g)
    ensures g.InPlace() ==> InverseBbox(targets[i].bbox, g) == Some(targets[i].bbox)
  {
    hide InverseBbox;
    var d := ds[ReportedAt(ds, g)[i]];
    assert targets[i] == TargetOf(d, g);
    if g.InPlace() {
      InverseInPlace(targets[i].bbox, g);
    }
  }

  lemma AllAccepted(ds: seq<Detection>, g: Geometry)
    requires g.Valid()
    ensures |Targets(ds, g)| <= MAX_TARGETS && AllValid(Targets(ds, g), |Targets(ds, g)|)
  {
    hide IsSelection, Targets;
    var targets := Targets(ds, g);
    SelectionSize(ds, g, targets);
    forall i | 0 <= i < |targets| ensures ValidDetectionTarget(targets[i]) {
      SelectionAccepted(ds, g, targets, i);
    }
  }

  lemma SelectionSize(ds: seq<Detection>, g: Geometry, targets: seq<DetectionTarget>)
    requires IsSelection(ds, g, targets)
    ensures |targets| <= MAX_TARGETS
  {
  }

  // ------------------------------------------------------------------ one frame

  /** What reaches the element: the buffer's metadata, and the runtime's answer or its failure. */
  datatype Call = Call(metas: seq<Meta>, answer: Option<seq<Detection>>)
  {
    /** The buffer can be worked on and the inference succeeds: the frame uses up a number. */
    predicate Ready() {
      && GetGeometry(metas).Some? && GetCdg00(metas).Some? && GetDetectionFrame(metas).None?
      && GetTrackingFrame(metas).None? && answer.Some?
    }

    /** And nothing stands in the way of attaching the result. */
    predicate Succeeds() {
      Ready() && Find(metas, DetectionKind).None?
    }
  }

  /** The one record that a successful frame adds. */
  function Attached(metas: seq<Meta>, frameId: nat, ds: seq<Detection>, g: Geometry): seq<Meta> {
    metas + [DetectionMeta(Frame(frameId, |Targets(ds, g)|), Targets(ds, g))]
  }

  /** `transform_ip` on the frame number: the next number, the buffer's new metadata, and success. */
  function TransformStep(next: nat, c: Call): (nat, seq<Meta>, bool) {
    if !c.Ready() then (next, c.metas, false)
    else if !c.Succeeds() then ((next + 1) % UINT32, c.metas, false)
    else ((next + 1) % UINT32, Attached(c.metas, next, c.answer.value, GetGeometry(c.metas).value), true)
  }

  class LynxiDetector {
    var nextFrameId: nat

    constructor ()
      ensures nextFrameId == 0
    {
      nextFrameId := 0;
    }

    method TransformIp(buffer: Buffer, detections: Option<seq<Detection>>) returns (ok: bool)
      modifies this, buffer
      ensures (nextFrameId, buffer.metas, ok) == TransformStep(old(nextFrameId), Call(old(buffer.metas), detections))
      ensures var metas := old(buffer.metas);
              var ready := GetGeometry(metas).Some? && GetCdg00(metas).Some? && GetDetectionFrame(metas).None?
                           && GetTrackingFrame(metas).None? && detections.Some?;
              && (ok <==> ready && Find(metas, DetectionKind).None?)
              && nextFrameId == (if ready then (old(nextFrameId) + 1) % 0x1_0000_0000 else old(nextFrameId))
              && (!ok ==> buffer.metas == metas)
    {
      hide Find, Targets, IsSelection;
      var geometry := GetGeometry(buffer.metas);
      if geometry.None? || GetCdg00(buffer.metas).None? {
        return false;
      }
      if GetDetectionFrame(buffer.metas).Some? || GetTrackingFrame(buffer.metas).Some? {
        return false;
      }
      if detections.None? {
        return false;
      }
      var targets := SelectTargets(detections.value, geometry.value);
      SelectionUnique(detections.value, geometry.value, targets);
      AllAccepted(detections.value, geometry.value);
      var frame := Frame(nextFrameId, |targets|);
      nextFrameId := (nextFrameId + 1) % UINT32;
      ok := buffer.AddDetectionMeta(frame, targets);
      assert targets[..|targets|] == targets;
    }
  }

  // ------------------------------------------------------------------ whole runs

  /** A run of the element from its start: the next number, and each buffer as it leaves. */
  function Run(calls: seq<Call>): (r: (nat, seq<(seq<Meta>, bool)>))
    ensures |r.1| == |calls|
  {
    if calls == [] then (0, [])
    else
      var (next, before) := Run(calls[..|calls| - 1]);
      var (next', metas, ok) := TransformStep(next, calls[|calls| - 1]);
      (next', before + [(metas, ok)])
  }

  function ReadyCount(calls: seq<Call>): (n: nat)
    ensures n <= |calls|
  {
    if calls == [] then 0
    else ReadyCount(calls[..|calls| - 1]) + if calls[|calls| - 1].Ready() then 1 else 0
  }

  /** The 32-bit number of the frame after `n` that used one up. */
  function FrameId(n: nat): (id: nat)
    ensures id < UINT32
  {
    n % UINT32
  }

  lemma FrameIdSteps(n: nat)
    ensures FrameId(n + 1) == (FrameId(n) + 1) % UINT32 && FrameId(0) == 0
  {
  }

  /** After any run the counter is the number of frames that used one up, modulo 2^32. */
  lemma {:induction false} RunCounts(calls: seq<Call>)
    ensures Run(calls).0 == FrameId(ReadyCount(calls))
  {
    hide Call.Ready, Call.Succeeds, Attached;
    FrameIdSteps(0);
    if calls != [] {
      RunCounts(calls[..|calls| - 1]);
      FrameIdSteps(ReadyCount(calls[..|calls| - 1]));
    }
  }

  /** Call `i` of a run is one step on the number that the calls before it have left. */
  lemma {:induction false} RunAt(calls: seq<Call>, i: nat)
    requires i < |calls|
    ensures var (_, metas, ok) := TransformStep(FrameId(ReadyCount(calls[..i])), calls[i]);
            Run(calls).1[i] == (metas, ok)
  {
    hide TransformStep;
    var n := |calls| - 1;
    if i < n {
      RunAt(calls[..n], i);
      assert calls[..n][..i] == calls[..i];
    } else {
      RunCounts(calls[..n]);
    }
  }

  /** In a run without failures frame `i` carries the number FrameId(i) and the selection of its own
      detections. */
  lemma SuccessfulRun(calls: seq<Call>, i: nat)
    requires i < |calls| && forall j :: 0 <= j < |calls| ==> calls[j].Succeeds()
    ensures calls[i].Succeeds()
    ensures Run(calls).1[i] ==
            (Attached(calls[i].metas, FrameId(i), calls[i].answer.value, GetGeometry(calls[i].metas).value), true)
  {
    hide Attached, Run;
    RunAt(calls, i);
    AllReady(calls, i);
    assert calls[i].Succeeds();
  }

  lemma {:induction false} AllReady(calls: seq<Call>, n: nat)
    requires n <= |calls| && forall j :: 0 <= j < |calls| ==> calls[j].Succeeds()
    ensures ReadyCount(calls[..n]) == n
  {
    if n > 0 {
      AllReady(calls, n - 1);
      assert calls[..n][..n - 1] == calls[..n - 1];
      assert calls[n - 1].Succeeds();
    }
  }
}
