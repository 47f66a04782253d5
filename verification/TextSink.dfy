/** The product sink of `text_sink.cpp`: two record files written in lock-step as partials and published
    together at the end of the stream, or not at all.

    JSON text is replaced by records. What the file system answers (does a write, a flush, an fsync with
    rename succeed) is an argument; removing a file succeeds. A failed write adds nothing to its file. */
module TextSink {
  import opened Basics
  import opened Detect
  import opened Geometry
  import opened Metadata

  datatype Mode = TargetsMode | TracksMode

  /** The category map gives each known class its type; crops are written if `crops` is set. */
  datatype Config = Config(mode: Mode, types: map<nat, string>, crops: bool)

  datatype Item =
    | TargetItem(bbox: Bbox, centerX: real, centerY: real, classIndex: nat, classType: string, index: nat, confidence: real)
    | TrackItem(bbox: Bbox, centerX: real, centerY: real, classIndex: nat, classType: string, trackId: nat)

  datatype Record =
    | RoleRecord(frameId: nat, clock: Clock, items: seq<Item>)
    | MetaRecord(frameId: nat, clock: Clock, geometry: Geometry, count: nat)

  datatype Caps = Caps(width: nat, height: nat)

  /** One buffer: its caps, its metadata, and what mapping it and writing crops will answer. */
  datatype Input = Input(caps: Option<Caps>, metas: seq<Meta>, maps: bool, badCrops: set<nat>)

  // ------------------------------------------------------------------ one buffer

  /** The role of target `i`: its box and class, and its track number in tracks mode. */
  datatype Role = Role(bbox: Bbox, classIndex: nat, confidence: real, trackId: nat)

  function RoleAt(mode: Mode, metas: seq<Meta>, i: nat): Option<Role> {
    match mode
    case TargetsMode =>
      (match GetDetectionTarget(metas, i)
       case Some(t) => Some(Role(t.bbox, t.classIndex, t.confidence, 0))
       case None => None)
    case TracksMode =>
      (match GetTrackingTarget(metas, i)
       case Some(t) => Some(Role(t.bbox, t.classIndex, 0.0, t.trackId))
       case None => None)
  }

  function ItemOf(c: Config, i: nat, r: Role, original: Bbox): Item
    requires r.classIndex in c.types
  {
    var x, y := (original.xmin + original.xmax) / 2.0, (original.ymin + original.ymax) / 2.0;
    match c.mode
    case TargetsMode => TargetItem(original, x, y, r.classIndex, c.types[r.classIndex], i, r.confidence)
    case TracksMode => TrackItem(original, x, y, r.classIndex, c.types[r.classIndex], r.trackId)
  }

  /** Target `i` as an item, unless it is refused; `seen` are the track numbers before it. */
  function ItemAt(c: Config, input: Input, g: Geometry, i: nat, seen: set<nat>): Option<Item>
    requires g.Valid()
  {
    var r := RoleAt(c.mode, input.metas, i);
    if r.None? || (c.mode.TracksMode? && r.value.trackId in seen) then None
    else if !BboxInFilter(r.value.bbox, g) || r.value.classIndex !in c.types then None
    else
      var original := InverseBbox(r.value.bbox, g);
      if original.None? || (c.crops && i in input.badCrops) then None
      else Some(ItemOf(c, i, r.value, original.value))
  }

  function TracksOf(items: seq<Item>): set<nat> {
    set x <- items | x.TrackItem? :: x.trackId
  }

  /** The first `n` targets as items. */
  function Items(c: Config, input: Input, g: Geometry, n: nat): (r: Option<seq<Item>>)
    requires g.Valid()
    ensures r.Some? ==> |r.value| == n
  {
    if n == 0 then Some([])
    else
      var before := Items(c, input, g, n - 1);
      if before.None? then None
      else
        var item := ItemAt(c, input, g, n - 1, TracksOf(before.value));
        if item.None? then None else Some(before.value + [item.value])
  }

  function ClockOf(mode: Mode, metas: seq<Meta>): Option<Clock> {
    if mode == TargetsMode then GetCdg00(metas) else GetAreaFrame(metas)
  }

  function FrameOf(mode: Mode, metas: seq<Meta>): Option<Frame> {
    if mode == TargetsMode then GetDetectionFrame(metas) else GetTrackingFrame(metas)
  }

  /** The two records of a buffer, unless `render` refuses it. */
  function Accept(c: Config, next: nat, input: Input): Option<(Record, Record)> {
    var g, clock, frame := GetGeometry(input.metas), ClockOf(c.mode, input.metas), FrameOf(c.mode, input.metas);
    if input.caps.None? || g.None? then None
    else if g.value.filterWidth != input.caps.value.width || g.value.filterHeight != input.caps.value.height then None
    else if GetDetectionFrame(input.metas).Some? == GetTrackingFrame(input.metas).Some? || frame.None? then None
    else if clock.None? || !clock.value.valid || clock.value.microseconds > 999999 then None
    else if frame.value.frameId != next || (c.crops && !input.maps) then None
    else
      var items := Items(c, input, g.value, frame.value.targetCount);
      if items.None? then None
      else Some((RoleRecord(next, clock.value, items.value), MetaRecord(next, clock.value, g.value, |items.value|)))
  }

  // ------------------------------------------------------------------ files and streams

  datatype Path = RolePartial | RoleFinal | MetaPartial | MetaFinal

  type Files = map<Path, seq<Record>>

  /** An output stream: is it open, and has nothing failed on it. */
  datatype Stream = Stream(open: bool, good: bool)
  {
    /** Closing a stream that is not open is a failure. */
    function Close(): Stream {
      Stream(false, good && open)
    }

    function Flush(ok: bool): Stream {
      Stream(open, good && (!open || ok))
    }
  }

  /** Writing to a closed stream fails; a stream that has failed writes nothing. */
  function Write(files: Files, out: Stream, path: Path, x: Record, ok: bool): (Files, Stream) {
    if !out.good then (files, out)
    else if !out.open || !ok || path !in files then (files, out.(good := false))
    else (files[path := files[path] + [x]], out)
  }

  function Rename(files: Files, partial: Path, final: Path, ok: bool): (Files, bool) {
    if ok && partial in files then (files[final := files[partial]] - {partial}, true) else (files, false)
  }

  datatype State = State(config: Config, files: Files, roleOut: Stream, metaOut: Stream, frameCount: nat,
                         nextFrameId: nat, started: bool, published: bool, failed: bool)

  function Discard(s: State): State {
    s.(roleOut := s.roleOut.Close(), metaOut := s.metaOut.Close(), files := s.files - {RolePartial, MetaPartial})
  }

  /** `start` once its settings and its category map are accepted: both partials are created empty. */
  function StartStep(s: State, config: Config): State {
    State(config, s.files[RolePartial := []][MetaPartial := []], Stream(true, true), Stream(true, true), 0, 0, true, false, false)
  }

  /** One record to each stream; both counters advance if neither has failed. */
  function WriteStep(s: State, role: Record, meta: Record, roleOk: bool, metaOk: bool): (State, bool) {
    var (files, roleOut) := Write(s.files, s.roleOut, RolePartial, role, roleOk);
    var (files', metaOut) := Write(files, s.metaOut, MetaPartial, meta, metaOk);
    var t := s.(files := files', roleOut := roleOut, metaOut := metaOut);
    if !roleOut.good || !metaOut.good then (t.(failed := true), false)
    else (t.(frameCount := s.frameCount + 1, nextFrameId := s.nextFrameId + 1), true)
  }

  function RenderStep(s: State, input: Input, roleOk: bool, metaOk: bool): (State, bool) {
    var records := Accept(s.config, s.nextFrameId, input);
    if records.None? then (s.(failed := true), false)
    else WriteStep(s, records.value.0, records.value.1, roleOk, metaOk)
  }

  /** Both renames, or neither file. */
  function RenameStep(s: State, syncRole: bool, syncMeta: bool): (State, bool) {
    var (files, roleDone) := Rename(s.files, RolePartial, RoleFinal, syncRole);
    var (files', metaDone) := if roleDone then Rename(files, MetaPartial, MetaFinal, syncMeta) else (files, false);
    if !roleDone || !metaDone then (Discard(s.(files := files' - {RoleFinal, MetaFinal})), false)
    else (s.(files := files', published := true), true)
  }

  function PublishStep(s: State, flushRole: bool, flushMeta: bool, syncRole: bool, syncMeta: bool): (State, bool) {
    if s.failed then (s, false)
    else if s.frameCount == 0 then (Discard(s), true)
    else
      var t := s.(roleOut := s.roleOut.Flush(flushRole), metaOut := s.metaOut.Flush(flushMeta));
      if !t.roleOut.good || !t.metaOut.good then (Discard(t), false)
      else RenameStep(t.(roleOut := t.roleOut.Close(), metaOut := t.metaOut.Close()), syncRole, syncMeta)
  }

  function StopStep(s: State): State {
    (if s.published then s else Discard(s)).(started := false)
  }

  // ------------------------------------------------------------------ the element

  class TextSink {
    var config: Config
    var files: Files
    var roleOut: Stream
    var metaOut: Stream
    var frameCount: nat
    var nextFrameId: nat
    var started: bool
    var published: bool
    var failed: bool

    function Now(): State
      reads this
    {
      State(config, files, roleOut, metaOut, frameCount, nextFrameId, started, published, failed)
    }

    /** A new element, over the files that are there. */
    constructor (files: Files)
      ensures this.files == files && !started
    {
      this.files := files;
      config := Config(TargetsMode, map[], false);
      roleOut, metaOut := Stream(false, true), Stream(false, true);
      frameCount, nextFrameId := 0, 0;
      started, published, failed := false, false, false;
    }

    method Start(config: Config)
      modifies this
      ensures Now() == StartStep(old(Now()), config)
    {
      frameCount, nextFrameId := 0, 0;
      published, failed := false, false;
      this.config := config;
      files := files[RolePartial := []];
      roleOut := Stream(true, true);
      files := files[MetaPartial := []];
      metaOut := Stream(true, true);
      started := true;
    }

    method DiscardPartials()
      modifies this
      ensures Now() == Discard(old(Now()))
    {
      roleOut := roleOut.Close();
      metaOut := metaOut.Close();
      files := files - {RolePartial};
      files := files - {MetaPartial};
    }

    method Stop()
      modifies this
      ensures Now() == StopStep(old(Now()))
    {
      if !published {
        DiscardPartials();
      }
      started := false;
    }

    method Publish(flushRole: bool, flushMeta: bool, syncRole: bool, syncMeta: bool) returns (ok: bool)
      modifies this
      ensures (Now(), ok) == PublishStep(old(Now()), flushRole, flushMeta, syncRole, syncMeta)
    {
      hide RenameStep, Discard, Stream.Close, Stream.Flush;
      if failed {
        return false;
      }
      if frameCount == 0 {
        DiscardPartials();
        return true;
      }
      roleOut := roleOut.Flush(flushRole);
      metaOut := metaOut.Flush(flushMeta);
      if !roleOut.good || !metaOut.good {
        DiscardPartials();
        return false;
      }
      roleOut := roleOut.Close();
      metaOut := metaOut.Close();
      ok := RenameBoth(syncRole, syncMeta);
    }

    method RenameBoth(syncRole: bool, syncMeta: bool) returns (ok: bool)
      modifies this
      ensures (Now(), ok) == RenameStep(old(Now()), syncRole, syncMeta)
    {
      hide Rename, Discard;
      var (renamed, done) := Rename(files, RolePartial, RoleFinal, syncRole);
      files := renamed;
      if done {
        var (renamed', done') := Rename(files, MetaPartial, MetaFinal, syncMeta);
        files, done := renamed', done';
      }
      if !done {
        assert files - {RoleFinal} - {MetaFinal} == files - {RoleFinal, MetaFinal};
        files := files - {RoleFinal};
        files := files - {MetaFinal};
        DiscardPartials();
        return false;
      }
      published := true;
      ok := true;
    }

    method Render(input: Input, roleOk: bool, metaOk: bool) returns (ok: bool)
      modifies this
      ensures (Now(), ok) == RenderStep(old(Now()), input, roleOk, metaOk)
    {
      hide Items, WriteStep, Find, GetDetectionFrame, GetTrackingFrame, ClockOf, FrameOf;
      var g := GetGeometry(input.metas);
      if input.caps.None? || g.None? {
        failed := true;
        return false;
      }
      if g.value.filterWidth != input.caps.value.width || g.value.filterHeight != input.caps.value.height {
        failed := true;
        return false;
      }
      var hasDetection := GetDetectionFrame(input.metas).Some?;
      var frame := FrameOf(config.mode, input.metas);
      if hasDetection == GetTrackingFrame(input.metas).Some? || frame.None? {
        failed := true;
        return false;
      }
      var clock := ClockOf(config.mode, input.metas);
      if clock.None? || !clock.value.valid || clock.value.microseconds > 999999 {
        failed := true;
        return false;
      }
      if frame.value.frameId != nextFrameId || (config.crops && !input.maps) {
        failed := true;
        return false;
      }
      var items := CollectItems(config, input, g.value, frame.value.targetCount);
      if items.None? {
        failed := true;
        return false;
      }
      var role := RoleRecord(frame.value.frameId, clock.value, items.value);
      var meta := MetaRecord(frame.value.frameId, clock.value, g.value, |items.value|);
      ok := WriteRecords(role, meta, roleOk, metaOk);
    }

    method WriteRecords(role: Record, meta: Record, roleOk: bool, metaOk: bool) returns (ok: bool)
      modifies this
      ensures (Now(), ok) == WriteStep(old(Now()), role, meta, roleOk, metaOk)
    {
      hide Write;
      var (f, r) := Write(files, roleOut, RolePartial, role, roleOk);
      files, roleOut := f, r;
      var (f', m) := Write(files, metaOut, MetaPartial, meta, metaOk);
      files, metaOut := f', m;
      if !roleOut.good || !metaOut.good {
        failed := true;
        return false;
      }
      frameCount := frameCount + 1;
      nextFrameId := nextFrameId + 1;
      ok := true;
    }
  }

  /** The loop over the targets; track numbers seen so far are kept in a set. */
  method CollectItems(c: Config, input: Input, g: Geometry, n: nat) returns (r: Option<seq<Item>>)
    requires g.Valid()
    ensures r == Items(c, input, g, n)
  {
    hide RoleAt, InverseBbox, BboxInFilter;
    var items: seq<Item> := [];
    var seen: set<nat> := {};
    var i := 0;
    while i < n
      invariant 0 <= i <= n && Items(c, input, g, i) == Some(items)
      invariant seen == TracksOf(items)
    {
      var role := RoleAt(c.mode, input.metas, i);
      if role.None? || (c.mode.TracksMode? && role.value.trackId in seen)
         || !BboxInFilter(role.value.bbox, g) || role.value.classIndex !in c.types {
        Refused(c, input, g, i, n);
        return None;
      }
      var original := InverseBbox(role.value.bbox, g);
      if original.None? || (c.crops && i in input.badCrops) {
        Refused(c, input, g, i, n);
        return None;
      }
      var item := ItemOf(c, i, role.value, original.value);
      TracksGrow(items, item);
      items := items + [item];
      if c.mode.TracksMode? {
        seen := seen + {role.value.trackId};
      }
      i := i + 1;
    }
    r := Some(items);
  }

  lemma TracksGrow(items: seq<Item>, item: Item)
    ensures TracksOf(items + [item]) == TracksOf(items) + if item.TrackItem? then {item.trackId} else {}
  {
    var more := items + [item];
    assert more[|items|] == item;
    assert forall x <- items :: x in more;
  }

  lemma {:induction false} Refused(c: Config, input: Input, g: Geometry, i: nat, n: nat)
    requires g.Valid() && i < n && Items(c, input, g, i + 1).None?
    ensures Items(c, input, g, n).None?
  {
    hide ItemAt;
    if i + 1 < n {
      Refused(c, input, g, i, n - 1);
    }
  }
}
