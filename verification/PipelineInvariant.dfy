/** What every reachable state of the pipeline satisfies, and that every step of every thread, and
    every spurious wakeup, keeps it. */
module PipelineInvariant {
  import opened Basics
  import opened Detect
  import opened BlockingQueue
  import opened Pipeline
  import opened PipelineLedger

  // ------------------------------------------------------------------ mutexes

  predicate CallerHoldsPre(c: CallerPc) { c.SetPre? || c.SizePre? || c.ClosePre? || c.UnlockPre? }

  predicate CallerHoldsInf(c: CallerPc) { c.SetInf? || c.SizeInf? || c.CloseInf? || c.UnlockInf? }

  ghost predicate Locks(s: State) {
    && (s.inf.InfSize? || s.inf.InfCheck? ==> s.preMutex == Some(Infer))
    && (CallerHoldsPre(s.caller) ==> s.preMutex == Some(Caller))
    && (s.post.PostSize? || s.post.PostCheck? ==> s.inferMutex == Some(Post))
    && (CallerHoldsInf(s.caller) ==> s.inferMutex == Some(Caller))
    && (s.preMutex.Some? ==> s.inf.InfSize? || s.inf.InfCheck? || CallerHoldsPre(s.caller))
    && (s.inferMutex.Some? ==> s.post.PostSize? || s.post.PostCheck? || CallerHoldsInf(s.caller))
  }

  // ------------------------------------------------------------------ condition variables

  /** Nobody sleeps un-notified while the predicate it waits for holds; in particular the producer
      and the consumer never sleep on `qImage` together. */
  ghost predicate Sleepers(s: State) {
    && (forall t <- s.qImage.asleep :: t == Pre || t == Infer)
    && (Pre in s.qImage.asleep ==> s.pre.PreAsleep? && s.qImage.items != [] && !s.qImage.closed)
    && (Infer in s.qImage.asleep ==> s.inf.InfAsleep? && s.qImage.items == [] && !s.qImage.closed)
    && (forall t <- s.qInfer.asleep :: t == Post)
    && (Post in s.qInfer.asleep ==> s.post.PostAsleep? && s.qInfer.items == [] && !s.qInfer.closed)
    && (forall t <- s.pool.asleep :: t == Infer)
    && (Infer in s.pool.asleep ==> s.inf.InfTakeAsleep? && s.pool.items == [])
    && |s.qImage.items| <= 1
    && (s.pre.PrePut? ==> s.qImage.items == [])
  }

  // ------------------------------------------------------------------ shutdown

  predicate PastPre(c: CallerPc) { !c.JoinPre? }

  predicate FlagPre(c: CallerPc) { !c.JoinPre? && !c.LockPre? && !c.SetPre? }

  predicate ShutPre(c: CallerPc) { FlagPre(c) && !c.SizePre? && !c.ClosePre? }

  predicate PastInf(c: CallerPc) { ShutPre(c) && !c.UnlockPre? && !c.JoinInf? }

  predicate FlagInf(c: CallerPc) { PastInf(c) && !c.LockInf? && !c.SetInf? }

  predicate ShutInf(c: CallerPc) { FlagInf(c) && !c.SizeInf? && !c.CloseInf? }

  /** The two handshakes: an exit flag rises only after the upstream thread is done, a queue closes
      only when it will stay empty, and a consumer that passed the check after the flag rose without
      the queue being closed has an item waiting for it. */
  ghost predicate Handshake(job: Job, s: State) {
    && !s.pre.PreThrew? && !s.inf.InfThrew? && !s.pool.closed
    && (s.pre.PreDone? <==> s.index == |job.tiles| + 1)
    && s.index <= |job.tiles| + 1
    && (PastPre(s.caller) ==> s.pre.PreDone?)
    && (s.preExit <==> FlagPre(s.caller))
    && (s.qImage.closed ==> ShutPre(s.caller) && s.qImage.items == [])
    && (s.caller.ClosePre? && s.caller.empty ==> s.qImage.items == [])
    && (s.caller.ClosePre? && !s.caller.empty && (s.inf.InfGet? || s.inf.InfAsleep?) ==> s.qImage.items != [])
    && (s.inf.InfCheck? && s.preExit ==> (s.inf.empty <==> s.qImage.items == []))
    && (s.inf.InfCheck? && !s.inf.empty ==> s.qImage.items != [])
    && (ShutPre(s.caller) && !s.qImage.closed && (s.inf.InfGet? || s.inf.InfAsleep?) ==> s.qImage.items != [])
    && (s.inf.InfDone? ==> s.pre.PreDone? && s.qImage.items == [])
    && (PastInf(s.caller) ==> s.inf.InfDone?)
    && (s.inferExit <==> FlagInf(s.caller))
    && (s.qInfer.closed ==> ShutInf(s.caller) && s.qInfer.items == [])
    && (s.caller.CloseInf? && s.caller.empty ==> s.qInfer.items == [])
    && (s.caller.CloseInf? && !s.caller.empty && (s.post.PostGet? || s.post.PostAsleep?) ==> s.qInfer.items != [])
    && (s.post.PostCheck? && s.inferExit ==> (s.post.empty <==> s.qInfer.items == []))
    && (s.post.PostCheck? && !s.post.empty ==> s.qInfer.items != [])
    && (ShutInf(s.caller) && !s.qInfer.closed && (s.post.PostGet? || s.post.PostAsleep?) ==> s.qInfer.items != [])
    && (s.post.PostDone? ==> s.inf.InfDone? && s.qInfer.items == [])
    && (s.caller.CallerDone? ==> s.post.PostDone?)
  }

  // ------------------------------------------------------------------ result buffers

  /** The slots of the queued result objects. */
  function SlotBag(items: seq<InferRes>): multiset<nat> {
    if items == [] then multiset{}
    else SlotBag(items[..|items| - 1]) + multiset{items[|items| - 1].slot}
  }

  /** References to result objects: the inference thread's local and the post thread's local. */
  function InferRef(pc: InferPc): multiset<nat> {
    match pc
    case InfRead(res, _) => multiset{res.slot}
    case InfPut(res) => multiset{res.slot}
    case InfDrop(slot) => multiset{slot}
    case _ => multiset{}
  }

  function PostRef(pc: PostPc): multiset<nat> {
    match pc
    case PostDecode(res) => multiset{res.slot}
    case PostAppend(res, _) => multiset{res.slot}
    case PostDrop(slot) => multiset{slot}
    case _ => multiset{}
  }

  /** Buffers whose deleter is running. */
  function InferBack(pc: InferPc): multiset<nat> {
    if pc.InfFree? then multiset{pc.slot} else multiset{}
  }

  function PostBack(pc: PostPc): multiset<nat> {
    if pc.PostFree? then multiset{pc.slot} else multiset{}
  }

  function All(job: Job): multiset<nat> {
    multiset(AllSlots(job.slots))
  }

  ghost predicate Books(all: multiset<nat>, free: seq<nat>, queued: seq<InferRes>, refs: multiset<nat>, inf: InferPc, post: PostPc) {
    Ledger(all, multiset(free), InferBack(inf) + PostBack(post),
           InferRef(inf), inf.InfDrop?, SlotBag(queued) + PostRef(post), refs)
  }

  /** Every buffer is in exactly one place, and the reference counts are right. */
  ghost predicate Buffers(job: Job, s: State) {
    Books(All(job), s.pool.items, s.qInfer.items, s.refs, s.inf, s.post)
  }

  // ------------------------------------------------------------------ data

  function Infos(items: seq<InferRes>): (r: seq<ImageInfo>)
    ensures |r| == |items|
    ensures forall i :: 0 <= i < |items| ==> r[i] == items[i].info
  {
    seq(|items|, i requires 0 <= i < |items| => items[i].info)
  }

  function PreHeld(pc: PrePc): seq<ImageInfo> {
    match pc
    case PreWait(img) => [img.info]
    case PreAsleep(img) => [img.info]
    case PrePut(img) => [img.info]
    case _ => []
  }

  function Queued(items: seq<Image>): seq<ImageInfo> {
    if items == [] then [] else [items[0].info]
  }

  function InferHeld(pc: InferPc): seq<ImageInfo> {
    match pc
    case InfPredict(img) => [img.info]
    case InfTake(info, _) => [info]
    case InfTakeAsleep(info, _) => [info]
    case InfRead(res, _) => [res.info]
    case InfPut(res) => [res.info]
    case _ => []
  }

  function PostHeld(pc: PostPc): seq<ImageInfo> {
    match pc
    case PostDecode(res) => [res.info]
    case PostAppend(res, _) => [res.info]
    case _ => []
  }

  /** The tiles that were handed out and are not in the result yet, oldest first. */
  function Flight(post: PostPc, queued: seq<InferRes>, inf: InferPc, images: seq<Image>, pre: PrePc): seq<ImageInfo> {
    PostHeld(post) + Infos(queued) + InferHeld(inf) + Queued(images) + PreHeld(pre)
  }

  function HandedOut(job: Job, index: nat): nat {
    if index <= |job.tiles| then index else |job.tiles|
  }

  /** `flight` is the stretch of tiles that ends at `handed`, and the result is the sequential one
      up to where it starts: no tile is lost, duplicated or overtaken. */
  ghost predicate Chain(job: Job, handed: nat, flight: seq<ImageInfo>, detections: seq<Detection>)
    requires handed <= |job.tiles|
  {
    && |flight| <= handed
    && flight == job.tiles[handed - |flight|..handed]
    && detections == job.Sequential(handed - |flight|)
  }

  ghost predicate Order(job: Job, s: State) {
    Chain(job, HandedOut(job, s.index), Flight(s.post, s.qInfer.items, s.inf, s.qImage.items, s.pre), s.detections)
  }

  ghost predicate PreData(job: Job, pc: PrePc) {
    match pc
    case PreWait(img) => img.data == job.cut(img.info)
    case PreAsleep(img) => img.data == job.cut(img.info)
    case PrePut(img) => img.data == job.cut(img.info)
    case _ => true
  }

  ghost predicate ImageData(job: Job, images: seq<Image>) {
    forall img <- images :: img.data == job.cut(img.info)
  }

  ghost predicate InferData(job: Job, mem: map<nat, Tensor>, pc: InferPc) {
    match pc
    case InfPredict(img) => img.data == job.cut(img.info)
    case InfTake(info, out) => out == job.Output(info)
    case InfTakeAsleep(info, out) => out == job.Output(info)
    case InfRead(res, out) => out == job.Output(res.info)
    case InfPut(res) => Load(mem, res.slot) == job.Output(res.info)
    case _ => true
  }

  ghost predicate QueueData(job: Job, mem: map<nat, Tensor>, queued: seq<InferRes>) {
    forall i :: 0 <= i < |queued| ==> Load(mem, queued[i].slot) == job.Output(queued[i].info)
  }

  ghost predicate PostData(job: Job, mem: map<nat, Tensor>, pc: PostPc) {
    match pc
    case PostDecode(res) => Load(mem, res.slot) == job.Output(res.info)
    case PostAppend(res, dets) => dets == job.TileDetections(res.info)
    case _ => true
  }

  /** Every tile travels with its own data, through the shared buffers too. */
  ghost predicate Data(job: Job, s: State) {
    && PreData(job, s.pre) && ImageData(job, s.qImage.items) && InferData(job, s.mem, s.inf)
    && QueueData(job, s.mem, s.qInfer.items) && PostData(job, s.mem, s.post)
  }

  ghost predicate Control(job: Job, s: State) {
    Locks(s) && Sleepers(s) && Handshake(job, s)
  }

  ghost predicate Cargo(job: Job, s: State) {
    Buffers(job, s) && Order(job, s) && Data(job, s)
  }

  ghost predicate Inv(job: Job, s: State) {
    Control(job, s) && Cargo(job, s)
  }

  // ------------------------------------------------------------------ facts about the parts

  lemma {:induction false} AllSlotsOnce(n: nat, j: nat)
    ensures multiset(AllSlots(n))[j] == if j < n then 1 else 0
  {
    if n > 0 {
      AllSlotsOnce(n - 1, j);
    }
  }

  lemma {:induction false} SlotBagPush(items: seq<InferRes>, res: InferRes)
    ensures SlotBag(items + [res]) == SlotBag(items) + multiset{res.slot}
  {
    assert (items + [res])[..|items|] == items;
  }

  lemma {:induction false} SlotBagPop(items: seq<InferRes>)
    requires items != []
    ensures SlotBag(items) == SlotBag(items[1..]) + multiset{items[0].slot}
  {
    if |items| > 1 {
      var init := items[..|items| - 1];
      SlotBagPop(init);
      assert init[1..] == items[1..][..|items| - 2];
    } else {
      assert items[..0] == [];
    }
  }

  lemma {:induction false} SlotBagHas(items: seq<InferRes>, i: nat)
    requires i < |items|
    ensures items[i].slot in SlotBag(items)
  {
    if i < |items| - 1 {
      SlotBagHas(items[..|items| - 1], i);
    }
  }

  lemma InitInv(job: Job, s: State)
    requires Init(job, s)
    ensures Inv(job, s)
  {
    assert job.tiles[0..0] == [];
  }
}
