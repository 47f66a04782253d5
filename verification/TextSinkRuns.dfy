/** What the product sink keeps over every run: any number of buffers and end-of-stream events, in any
    order, with any answers of the file system. */
module TextSinkRuns {
  import opened Basics
  import opened Detect
  import opened Geometry
  import opened Metadata
  import opened TextSink

  datatype Event =
    | Buffer(input: Input, roleOk: bool, metaOk: bool)
    | Eos(flushRole: bool, flushMeta: bool, syncRole: bool, syncMeta: bool)

  function Step(s: State, e: Event): State {
    match e
    case Buffer(input, roleOk, metaOk) => RenderStep(s, input, roleOk, metaOk).0
    case Eos(flushRole, flushMeta, syncRole, syncMeta) => PublishStep(s, flushRole, flushMeta, syncRole, syncMeta).0
  }

  function Run(s: State, events: seq<Event>): State {
    if events == [] then s else Step(Run(s, events[..|events| - 1]), events[|events| - 1])
  }

  // ------------------------------------------------------------------ the invariant

  /** Record `i` of the one file and record `i` of the other describe frame `i`: same time, same count. */
  predicate Pair(role: Record, meta: Record, i: nat) {
    && role.RoleRecord? && meta.MetaRecord? && role.frameId == meta.frameId == i
    && role.clock == meta.clock && role.clock.valid && meta.count == |role.items|
  }

  predicate LockStep(role: seq<Record>, meta: seq<Record>, n: nat) {
    |role| == |meta| == n && forall i :: 0 <= i < n ==> Pair(role[i], meta[i], i)
  }

  /** The partials are there exactly as long as the streams are open, and while nothing has failed they
      hold every accepted frame. */
  predicate Partials(s: State) {
    && s.roleOut.open == s.metaOut.open == (RolePartial in s.files) == (MetaPartial in s.files)
    && (s.roleOut.open && !s.failed ==>
          s.roleOut.good && s.metaOut.good && LockStep(s.files[RolePartial], s.files[MetaPartial], s.frameCount))
  }

  /** The final files are there together or not at all, and then complete. */
  predicate Finals(s: State) {
    && (RoleFinal in s.files <==> MetaFinal in s.files)
    && (RoleFinal in s.files ==>
          s.published && s.frameCount > 0 && LockStep(s.files[RoleFinal], s.files[MetaFinal], s.frameCount))
    && (s.roleOut.open ==> !s.published && RoleFinal !in s.files)
    && (RoleFinal in s.files && !s.failed ==> s.roleOut.good && s.metaOut.good)
  }

  predicate Inv(s: State) {
    s.frameCount == s.nextFrameId && Partials(s) && Finals(s)
  }

  /** The paths that the tool checks before it starts the pipeline. */
  predicate Fresh(s: State) {
    s.files.Keys !! {RolePartial, RoleFinal, MetaPartial, MetaFinal}
  }

  lemma StartInv(s: State, config: Config)
    requires Fresh(s)
    ensures Inv(StartStep(s, config))
  {
  }

  lemma AcceptPair(c: Config, next: nat, input: Input)
    ensures Accept(c, next, input).Some? ==> Pair(Accept(c, next, input).value.0, Accept(c, next, input).value.1, next)
  {
    hide Items;
  }

  lemma Appended(role: seq<Record>, meta: seq<Record>, n: nat, x: Record, y: Record)
    requires LockStep(role, meta, n) && Pair(x, y, n)
    ensures LockStep(role + [x], meta + [y], n + 1)
  {
    hide Pair;
  }

  lemma RenderInv(s: State, input: Input, roleOk: bool, metaOk: bool)
    requires Inv(s)
    ensures Inv(RenderStep(s, input, roleOk, metaOk).0)
  {
    hide Accept, LockStep, Pair;
    AcceptPair(s.config, s.nextFrameId, input);
    var r := Accept(s.config, s.nextFrameId, input);
    if r.Some? && s.roleOut.open && !s.failed {
      Appended(s.files[RolePartial], s.files[MetaPartial], s.frameCount, r.value.0, r.value.1);
    }
  }

  lemma RenameInv(s: State, syncRole: bool, syncMeta: bool)
    requires s.frameCount == s.nextFrameId && s.frameCount > 0 && !s.failed && !s.roleOut.open && !s.metaOut.open
    requires RolePartial in s.files <==> MetaPartial in s.files
    requires RolePartial in s.files ==>
               LockStep(s.files[RolePartial], s.files[MetaPartial], s.frameCount) && s.roleOut.good && s.metaOut.good
    ensures Inv(RenameStep(s, syncRole, syncMeta).0)
  {
    hide LockStep;
  }

  lemma DiscardInv(s: State)
    requires Inv(s) && s.frameCount == 0
    ensures Inv(Discard(s))
  {
    hide LockStep;
  }

  lemma PublishInv(s: State, flushRole: bool, flushMeta: bool, syncRole: bool, syncMeta: bool)
    requires Inv(s)
    ensures Inv(PublishStep(s, flushRole, flushMeta, syncRole, syncMeta).0)
  {
    hide LockStep, RenameStep, Discard;
    if !s.failed {
      if s.frameCount == 0 {
        DiscardInv(s);
      } else {
        var t := s.(roleOut := s.roleOut.Flush(flushRole), metaOut := s.metaOut.Flush(flushMeta));
        if !t.roleOut.good || !t.metaOut.good {
          DiscardAfterFlush(s, t);
        } else {
          RenameInv(t.(roleOut := t.roleOut.Close(), metaOut := t.metaOut.Close()), syncRole, syncMeta);
        }
      }
    }
  }

  lemma DiscardAfterFlush(s: State, t: State)
    requires Inv(s) && !s.failed && (!t.roleOut.good || !t.metaOut.good)
    requires exists a: bool, b: bool :: t == s.(roleOut := s.roleOut.Flush(a), metaOut := s.metaOut.Flush(b))
    ensures Inv(Discard(t))
  {
    hide LockStep;
  }

  /** The invariant holds in every reachable state. */
  lemma {:induction false} RunInv(s: State, events: seq<Event>)
    requires Inv(s)
    ensures Inv(Run(s, events))
  {
    hide Inv;
    if events != [] {
      var n := |events| - 1;
      RunInv(s, events[..n]);
      match events[n]
      case Buffer(input, roleOk, metaOk) => RenderInv(Run(s, events[..n]), input, roleOk, metaOk);
      case Eos(flushRole, flushMeta, syncRole, syncMeta) =>
        PublishInv(Run(s, events[..n]), flushRole, flushMeta, syncRole, syncMeta);
    }
  }

  // ------------------------------------------------------------------ what a run leaves behind

  /** Whatever happened, once the sink has stopped there is no partial, and there are both final files,
      in lock-step and with every accepted frame, or neither. */
  lemma AllOrNothing(s: State, config: Config, events: seq<Event>)
    requires Fresh(s)
    ensures var t := StopStep(Run(StartStep(s, config), events));
            && RolePartial !in t.files && MetaPartial !in t.files
            && (RoleFinal in t.files <==> MetaFinal in t.files)
            && (RoleFinal in t.files ==> t.frameCount > 0 && LockStep(t.files[RoleFinal], t.files[MetaFinal], t.frameCount))
  {
    hide LockStep, Run, StartStep;
    StartInv(s, config);
    RunInv(StartStep(s, config), events);
  }

  predicate SameFinals(a: Files, b: Files) {
    && (RoleFinal in a <==> RoleFinal in b) && (MetaFinal in a <==> MetaFinal in b)
    && (RoleFinal in a && RoleFinal in b ==> a[RoleFinal] == b[RoleFinal])
    && (MetaFinal in a && MetaFinal in b ==> a[MetaFinal] == b[MetaFinal])
  }

  /** Once a buffer has been refused or a write has failed nothing is published and nothing retracted:
      the final files stay exactly as they are, whatever follows. */
  lemma {:induction false} FailedStaysClosed(s: State, events: seq<Event>)
    requires s.failed
    ensures Run(s, events).failed && SameFinals(s.files, Run(s, events).files)
  {
    if events != [] {
      var n := |events| - 1;
      FailedStaysClosed(s, events[..n]);
      FailedStep(Run(s, events[..n]), events[n]);
    }
  }

  lemma WriteKeepsFinals(s: State, role: Record, meta: Record, roleOk: bool, metaOk: bool)
    requires s.failed
    ensures var t := WriteStep(s, role, meta, roleOk, metaOk).0; t.failed && SameFinals(s.files, t.files)
  {
  }

  lemma FailedStep(s: State, e: Event)
    requires s.failed
    ensures Step(s, e).failed && SameFinals(s.files, Step(s, e).files)
  {
    hide Accept, WriteStep, RenameStep, Discard;
    if e.Buffer? {
      var records := Accept(s.config, s.nextFrameId, e.input);
      if records.Some? {
        WriteKeepsFinals(s, records.value.0, records.value.1, e.roleOk, e.metaOk);
      }
    }
  }

  /** An end of stream publishes exactly when nothing has failed, there are frames, and both flushes and
      both renames succeed. */
  lemma PublishesIff(s: State, flushRole: bool, flushMeta: bool, syncRole: bool, syncMeta: bool)
    requires Inv(s) && s.roleOut.open
    ensures RoleFinal in PublishStep(s, flushRole, flushMeta, syncRole, syncMeta).0.files <==>
            !s.failed && s.frameCount > 0 && flushRole && flushMeta && syncRole && syncMeta
  {
    hide LockStep;
  }

  /** A published product survives exactly when it is not followed at once by another end of stream: that
      would find no partial to rename and remove the final files again. A buffer in between is refused,
      and then the sink is closed for good. */
  lemma PublishedSurvivesIff(s: State, events: seq<Event>)
    requires Inv(s) && !s.failed && RoleFinal in s.files
    ensures RoleFinal in Run(s, events).files <==> events == [] || events[0].Buffer?
  {
    hide LockStep, Accept;
    if events != [] {
      var t := Step(s, events[0]);
      RunSplit(s, events);
      if events[0].Buffer? {
        FailedStaysClosed(t, events[1..]);
      } else {
        Retracted(s, events[0]);
        NeverAgain(t, events[1..]);
      }
    }
  }

  lemma {:induction false} RunSplit(s: State, events: seq<Event>)
    requires events != []
    ensures Run(s, events) == Run(Step(s, events[0]), events[1..])
  {
    hide Step;
    var n := |events| - 1;
    if n == 0 {
      assert events[..0] == [];
    } else {
      RunSplit(s, events[..n]);
      assert events[1..][..n - 1] == events[..n][1..];
    }
  }

  /** Nothing can be published any more: the streams are closed and there is no partial. */
  predicate Spent(s: State) {
    !s.roleOut.open && !s.metaOut.open && RolePartial !in s.files && RoleFinal !in s.files
  }

  lemma Retracted(s: State, e: Event)
    requires Inv(s) && !s.failed && RoleFinal in s.files && e.Eos?
    ensures Spent(Step(s, e)) && MetaFinal !in Step(s, e).files
  {
    hide LockStep;
  }

  lemma {:induction false} NeverAgain(s: State, events: seq<Event>)
    requires Spent(s)
    ensures Spent(Run(s, events))
  {
    if events != [] {
      var n := |events| - 1;
      NeverAgain(s, events[..n]);
      SpentStep(Run(s, events[..n]), events[n]);
    }
  }

  lemma SpentWrites(s: State, role: Record, meta: Record, roleOk: bool, metaOk: bool)
    requires Spent(s)
    ensures Spent(WriteStep(s, role, meta, roleOk, metaOk).0)
  {
  }

  lemma SpentDiscards(s: State)
    requires Spent(s)
    ensures Spent(Discard(s))
  {
  }

  lemma SpentRenames(s: State, syncRole: bool, syncMeta: bool)
    requires Spent(s)
    ensures Spent(RenameStep(s, syncRole, syncMeta).0)
  {
  }

  lemma SpentPublishes(s: State, flushRole: bool, flushMeta: bool, syncRole: bool, syncMeta: bool)
    requires Spent(s)
    ensures Spent(PublishStep(s, flushRole, flushMeta, syncRole, syncMeta).0)
  {
    hide RenameStep, Discard;
    SpentDiscards(s);
    var t := s.(roleOut := s.roleOut.Flush(flushRole), metaOut := s.metaOut.Flush(flushMeta));
    SpentDiscards(t);
    SpentRenames(t.(roleOut := t.roleOut.Close(), metaOut := t.metaOut.Close()), syncRole, syncMeta);
  }

  lemma SpentStep(s: State, e: Event)
    requires Spent(s)
    ensures Spent(Step(s, e))
  {
    hide Accept, WriteStep, PublishStep;
    match e
    case Buffer(input, roleOk, metaOk) =>
      var records := Accept(s.config, s.nextFrameId, input);
      if records.Some? {
        SpentWrites(s, records.value.0, records.value.1, roleOk, metaOk);
      }
    case Eos(flushRole, flushMeta, syncRole, syncMeta) => SpentPublishes(s, flushRole, flushMeta, syncRole, syncMeta);
  }

  // ------------------------------------------------------------------ a run without failures

  predicate AllAccepted(config: Config, inputs: seq<Input>) {
    forall i :: 0 <= i < |inputs| ==> Accept(config, i, inputs[i]).Some?
  }

  function Buffers(inputs: seq<Input>): (r: seq<Event>)
    ensures |r| == |inputs| && forall i :: 0 <= i < |inputs| ==> r[i] == Buffer(inputs[i], true, true)
  {
    seq(|inputs|, i requires 0 <= i < |inputs| => Buffer(inputs[i], true, true))
  }

  function RoleRecords(config: Config, inputs: seq<Input>): (r: seq<Record>)
    requires AllAccepted(config, inputs)
    ensures |r| == |inputs| && forall i :: 0 <= i < |inputs| ==> r[i] == Accept(config, i, inputs[i]).value.0
  {
    seq(|inputs|, i requires 0 <= i < |inputs| => Accept(config, i, inputs[i]).value.0)
  }

  function MetaRecords(config: Config, inputs: seq<Input>): (r: seq<Record>)
    requires AllAccepted(config, inputs)
    ensures |r| == |inputs| && forall i :: 0 <= i < |inputs| ==> r[i] == Accept(config, i, inputs[i]).value.1
  {
    seq(|inputs|, i requires 0 <= i < |inputs| => Accept(config, i, inputs[i]).value.1)
  }

  /** After `n` accepted buffers: everything is open and well, and the records are in the partials. */
  predicate Appending(t: State, config: Config, n: nat, role: seq<Record>, meta: seq<Record>) {
    && t.config == config && !t.failed && t.nextFrameId == t.frameCount == n
    && t.roleOut == t.metaOut == Stream(true, true)
    && RolePartial in t.files && MetaPartial in t.files && t.files[RolePartial] == role && t.files[MetaPartial] == meta
  }

  lemma AppendOne(t: State, config: Config, n: nat, role: seq<Record>, meta: seq<Record>, input: Input)
    requires Appending(t, config, n, role, meta) && Accept(config, n, input).Some?
    ensures var r := Accept(config, n, input).value;
            Appending(Step(t, Buffer(input, true, true)), config, n + 1, role + [r.0], meta + [r.1])
  {
    hide Accept;
  }

  lemma AppendingStart(s: State, config: Config)
    ensures Appending(StartStep(s, config), config, 0, [], [])
  {
  }

  lemma {:induction false} BuffersAppend(s: State, config: Config, inputs: seq<Input>)
    requires AllAccepted(config, inputs)
    ensures Appending(Run(StartStep(s, config), Buffers(inputs)), config, |inputs|, RoleRecords(config, inputs), MetaRecords(config, inputs))
  {
    hide Accept, Appending, StartStep, Step;
    if inputs == [] {
      AppendingStart(s, config);
    } else {
      var n := |inputs| - 1;
      BuffersAppend(s, config, inputs[..n]);
      assert Buffers(inputs)[..n] == Buffers(inputs[..n]);
      AppendOne(Run(StartStep(s, config), Buffers(inputs[..n])), config, n, RoleRecords(config, inputs[..n]),
                MetaRecords(config, inputs[..n]), inputs[n]);
      assert RoleRecords(config, inputs) == RoleRecords(config, inputs[..n]) + [Accept(config, n, inputs[n]).value.0];
      assert MetaRecords(config, inputs) == MetaRecords(config, inputs[..n]) + [Accept(config, n, inputs[n]).value.1];
    }
  }

  /** When every buffer is accepted and every operation succeeds, one end of stream publishes the records
      of all frames, in order. */
  lemma CompleteRunDelivers(s: State, config: Config, inputs: seq<Input>)
    requires Fresh(s) && inputs != [] && AllAccepted(config, inputs)
    ensures var t := StopStep(Run(StartStep(s, config), Buffers(inputs) + [Eos(true, true, true, true)]));
            && RoleFinal in t.files && t.files[RoleFinal] == RoleRecords(config, inputs)
            && MetaFinal in t.files && t.files[MetaFinal] == MetaRecords(config, inputs)
  {
    hide Accept, StartStep;
    BuffersAppend(s, config, inputs);
    var events := Buffers(inputs) + [Eos(true, true, true, true)];
    assert events[..|inputs|] == Buffers(inputs);
  }

  lemma {:induction false} RunPrefix(s: State, events: seq<Event>, n: nat)
    requires n <= |events|
    ensures Run(s, events) == Run(Run(s, events[..n]), events[n..])
  {
    hide Step;
    if n == |events| {
      assert events[..n] == events && events[n..] == [];
    } else {
      var m := |events| - 1;
      RunPrefix(s, events[..m], n);
      assert events[..m][..n] == events[..n] && events[..m][n..] == events[n..][..m - n];
    }
  }

  /** The first buffer that is refused fails the sink for good. */
  lemma RefusedBufferFails(s: State, config: Config, inputs: seq<Input>, k: nat, rest: seq<Event>)
    requires k < |inputs| && AllAccepted(config, inputs[..k]) && Accept(config, k, inputs[k]).None?
    requires Fresh(s)
    ensures RoleFinal !in Run(StartStep(s, config), Buffers(inputs) + rest).files
  {
    hide Accept, Inv, LockStep;
    var start, events := StartStep(s, config), Buffers(inputs) + rest;
    BuffersAppend(s, config, inputs[..k]);
    assert events[..k] == Buffers(inputs[..k]);
    var t := Run(start, events[..k]);
    assert Step(t, events[k]) == t.(failed := true);
    StartInv(s, config);
    RunInv(start, events[..k]);
    OpenMeansUnpublished(t);
    RunPrefix(start, events, k);
    RunSplit(t, events[k..]);
    FailedStaysClosed(t.(failed := true), events[k..][1..]);
  }

  lemma OpenMeansUnpublished(s: State)
    requires Inv(s) && s.roleOut.open
    ensures RoleFinal !in s.files
  {
  }

  lemma FirstRefused(config: Config, inputs: seq<Input>) returns (k: nat)
    requires !AllAccepted(config, inputs)
    ensures k < |inputs| && AllAccepted(config, inputs[..k]) && Accept(config, k, inputs[k]).None?
  {
    hide Accept;
    k := 0;
    while k < |inputs| && Accept(config, k, inputs[k]).Some?
      invariant k <= |inputs| && AllAccepted(config, inputs[..k])
    {
      k := k + 1;
    }
  }

  /** A run of buffers on which every operation succeeds, ended by one end of stream, publishes exactly
      when there is a buffer and every buffer is accepted in its turn. */
  lemma DeliversIff(s: State, config: Config, inputs: seq<Input>)
    requires Fresh(s)
    ensures RoleFinal in StopStep(Run(StartStep(s, config), Buffers(inputs) + [Eos(true, true, true, true)])).files
            <==> inputs != [] && AllAccepted(config, inputs)
  {
    hide Accept, Run, StartStep;
    if !AllAccepted(config, inputs) {
      var k := FirstRefused(config, inputs);
      RefusedBufferFails(s, config, inputs, k, [Eos(true, true, true, true)]);
    } else if inputs != [] {
      CompleteRunDelivers(s, config, inputs);
    } else {
      NothingToDeliver(s, config);
      assert Buffers(inputs) + [Eos(true, true, true, true)] == [Eos(true, true, true, true)];
    }
  }

  lemma NothingToDeliver(s: State, config: Config)
    requires Fresh(s)
    ensures RoleFinal !in Run(StartStep(s, config), [Eos(true, true, true, true)]).files
  {
    var events := [Eos(true, true, true, true)];
    assert events[..0] == [];
  }
}
