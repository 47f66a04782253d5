/** Every step of every thread keeps the invariant. One lemma for each phase of each thread. */
module PipelineSteps {
  import opened Detect
  import opened BlockingQueue
  import opened Pipeline
  import opened PipelineInvariant
  import L = PipelineLedger

  ghost predicate CanStep(s: State, t: Thread, wake: Thread) {
    Enabled(s, t) && CanWake(Notified(s, t), wake)
  }

  lemma TakeSlotEffect(s: State, info: ImageInfo, out: Tensor, wake: Thread)
    requires !s.pool.closed
    ensures s.pool.items == [] ==>
              TakeSlot(s, info, out, wake) ==
              s.(pool := s.pool.(asleep := s.pool.asleep + {Infer}), inf := InfTakeAsleep(info, out))
    ensures s.pool.items != [] ==>
              var slot := s.pool.items[0];
              TakeSlot(s, info, out, wake) ==
              s.(pool := s.pool.(items := s.pool.items[1..], asleep := s.pool.asleep - {wake}),
                 refs := s.refs + multiset{slot}, inf := InfRead(InferRes(slot, info), out))
  {
  }

  // ------------------------------------------------------------------ control

  lemma ControlInferCheck(job: Job, s: State, wake: Thread)
    requires s.inf.InfLock? || s.inf.InfSize? || s.inf.InfCheck?
    requires Control(job, s) && CanStep(s, Infer, wake)
    ensures Control(job, NextInfer(job, s, wake))
  {
  }

  lemma ControlInferTakeImage(job: Job, s: State, wake: Thread)
    requires s.inf.InfGet? || s.inf.InfAsleep?
    requires Control(job, s) && CanStep(s, Infer, wake)
    ensures Control(job, NextInfer(job, s, wake))
  {
  }

  lemma ControlInferPredict(job: Job, s: State, wake: Thread)
    requires s.inf.InfPredict?
    requires Control(job, s) && CanStep(s, Infer, wake)
    ensures Control(job, NextInfer(job, s, wake))
  {
  }

  lemma ControlInferNoSlot(job: Job, s: State, wake: Thread)
    requires (s.inf.InfTake? || s.inf.InfTakeAsleep?) && s.pool.items == []
    requires Control(job, s) && CanStep(s, Infer, wake)
    ensures Control(job, TakeSlot(s, s.inf.info, s.inf.out, wake))
  {
    hide TakeSlot;
    TakeSlotEffect(s, s.inf.info, s.inf.out, wake);
  }

  lemma ControlInferSlot(job: Job, s: State, wake: Thread)
    requires (s.inf.InfTake? || s.inf.InfTakeAsleep?) && s.pool.items != []
    requires Control(job, s) && CanStep(s, Infer, wake)
    ensures Control(job, TakeSlot(s, s.inf.info, s.inf.out, wake))
  {
    hide TakeSlot;
    TakeSlotEffect(s, s.inf.info, s.inf.out, wake);
  }

  lemma ControlInferTakeSlot(job: Job, s: State, wake: Thread)
    requires s.inf.InfTake? || s.inf.InfTakeAsleep?
    requires Control(job, s) && CanStep(s, Infer, wake)
    ensures Control(job, NextInfer(job, s, wake))
  {
    hide Control, TakeSlot, CanStep;
    if s.pool.items == [] { ControlInferNoSlot(job, s, wake); } else { ControlInferSlot(job, s, wake); }
  }

  lemma ControlInferRead(job: Job, s: State, wake: Thread)
    requires s.inf.InfRead? && Control(job, s) && CanStep(s, Infer, wake)
    ensures Control(job, NextInfer(job, s, wake))
  {
  }

  lemma ControlInferPut(job: Job, s: State, wake: Thread)
    requires s.inf.InfPut? && Control(job, s) && CanStep(s, Infer, wake)
    ensures Control(job, NextInfer(job, s, wake))
  {
  }

  lemma ControlInferDrop(job: Job, s: State, wake: Thread)
    requires s.inf.InfDrop? && Control(job, s) && CanStep(s, Infer, wake)
    ensures Control(job, NextInfer(job, s, wake))
  {
  }

  lemma ControlInferFree(job: Job, s: State, wake: Thread)
    requires s.inf.InfFree? && Control(job, s) && CanStep(s, Infer, wake)
    ensures Control(job, NextInfer(job, s, wake))
  {
  }

  lemma ControlInferRelease(job: Job, s: State, wake: Thread)
    requires s.inf.InfDrop? || s.inf.InfFree?
    requires Control(job, s) && CanStep(s, Infer, wake)
    ensures Control(job, NextInfer(job, s, wake))
  {
    hide Control, NextInfer, CanStep;
    if s.inf.InfDrop? { ControlInferDrop(job, s, wake); } else { ControlInferFree(job, s, wake); }
  }

  lemma ControlPostCheck(job: Job, s: State, wake: Thread)
    requires s.post.PostLock? || s.post.PostSize? || s.post.PostCheck?
    requires Control(job, s) && CanStep(s, Post, wake)
    ensures Control(job, NextPost(job, s, wake))
  {
  }

  lemma ControlPostTakeResult(job: Job, s: State, wake: Thread)
    requires s.post.PostGet? || s.post.PostAsleep?
    requires Control(job, s) && CanStep(s, Post, wake)
    ensures Control(job, NextPost(job, s, wake))
  {
  }

  lemma ControlPostAppend(job: Job, s: State, wake: Thread)
    requires s.post.PostDecode? || s.post.PostAppend?
    requires Control(job, s) && CanStep(s, Post, wake)
    ensures Control(job, NextPost(job, s, wake))
  {
  }

  lemma ControlPostDrop(job: Job, s: State, wake: Thread)
    requires s.post.PostDrop? && Control(job, s) && CanStep(s, Post, wake)
    ensures Control(job, NextPost(job, s, wake))
  {
  }

  lemma ControlPostFree(job: Job, s: State, wake: Thread)
    requires s.post.PostFree? && Control(job, s) && CanStep(s, Post, wake)
    ensures Control(job, NextPost(job, s, wake))
  {
  }

  lemma ControlPostRelease(job: Job, s: State, wake: Thread)
    requires s.post.PostDrop? || s.post.PostFree?
    requires Control(job, s) && CanStep(s, Post, wake)
    ensures Control(job, NextPost(job, s, wake))
  {
    hide Control, NextPost, CanStep;
    if s.post.PostDrop? { ControlPostDrop(job, s, wake); } else { ControlPostFree(job, s, wake); }
  }

  lemma ControlPreNext(job: Job, s: State, wake: Thread)
    requires s.pre.PreNext? || s.pre.PrePut?
    requires Control(job, s) && CanStep(s, Pre, wake)
    ensures Control(job, NextPre(job, s, wake))
  {
  }

  lemma ControlPreWait(job: Job, s: State, wake: Thread)
    requires s.pre.PreWait? || s.pre.PreAsleep?
    requires Control(job, s) && CanStep(s, Pre, wake)
    ensures Control(job, NextPre(job, s, wake))
  {
  }

  lemma ControlPre(job: Job, s: State, wake: Thread)
    requires Control(job, s) && CanStep(s, Pre, wake)
    ensures Control(job, NextPre(job, s, wake))
  {
    hide Control, NextPre;
    if s.pre.PreWait? || s.pre.PreAsleep? { ControlPreWait(job, s, wake); } else { ControlPreNext(job, s, wake); }
  }

  lemma ControlCallerFlagPre(job: Job, s: State, wake: Thread)
    requires s.caller.JoinPre? || s.caller.LockPre? || s.caller.SetPre?
    requires Control(job, s) && CanStep(s, Caller, wake)
    ensures Control(job, NextCaller(s))
  {
  }

  lemma ControlCallerShutPre(job: Job, s: State, wake: Thread)
    requires s.caller.SizePre? || s.caller.ClosePre? || s.caller.UnlockPre?
    requires Control(job, s) && CanStep(s, Caller, wake)
    ensures Control(job, NextCaller(s))
  {
  }

  lemma ControlCallerFlagInf(job: Job, s: State, wake: Thread)
    requires s.caller.JoinInf? || s.caller.LockInf? || s.caller.SetInf?
    requires Control(job, s) && CanStep(s, Caller, wake)
    ensures Control(job, NextCaller(s))
  {
  }

  lemma ControlCallerShutInf(job: Job, s: State, wake: Thread)
    requires s.caller.SizeInf? || s.caller.CloseInf? || s.caller.UnlockInf? || s.caller.JoinPost?
    requires Control(job, s) && CanStep(s, Caller, wake)
    ensures Control(job, NextCaller(s))
  {
  }

  // ------------------------------------------------------------------ buffers

  /** The parts of the books that a step leaves alone when it touches no buffer. */
  lemma BooksSame(all: multiset<nat>, free: seq<nat>, queued: seq<InferRes>, refs: multiset<nat>,
                  inf: InferPc, post: PostPc, inf': InferPc, post': PostPc)
    requires Books(all, free, queued, refs, inf, post)
    requires InferRef(inf) == InferRef(inf') && InferBack(inf) == InferBack(inf') && inf.InfDrop? == inf'.InfDrop?
    requires PostRef(post) == PostRef(post') && PostBack(post) == PostBack(post')
    ensures Books(all, free, queued, refs, inf', post')
  {
    hide L.Ledger;
  }

  lemma BooksTakeSlot(all: multiset<nat>, free: seq<nat>, queued: seq<InferRes>, refs: multiset<nat>,
                      inf: InferPc, post: PostPc, inf': InferPc)
    requires free != [] && (inf.InfTake? || inf.InfTakeAsleep?)
    requires inf'.InfRead? && inf'.res.slot == free[0]
    requires Books(all, free, queued, refs, inf, post)
    ensures Books(all, free[1..], queued, refs + multiset{free[0]}, inf', post)
  {
    assert free == [free[0]] + free[1..];
    assert multiset(free) == multiset(free[1..]) + multiset{free[0]};
    L.Take(all, multiset(free[1..]), InferBack(inf) + PostBack(post), SlotBag(queued) + PostRef(post), refs, free[0]);
  }

  lemma BooksPublish(all: multiset<nat>, free: seq<nat>, queued: seq<InferRes>, refs: multiset<nat>, res: InferRes, post: PostPc)
    requires Books(all, free, queued, refs, InfPut(res), post)
    ensures Books(all, free, queued + [res], refs + multiset{res.slot}, InfDrop(res.slot), post)
  {
    hide L.Ledger, SlotBag, PostRef, PostBack;
    SlotBagPush(queued, res);
    L.Publish(all, multiset(free), multiset{} + PostBack(post), SlotBag(queued) + PostRef(post), refs, res.slot);
    assert SlotBag(queued + [res]) + PostRef(post) == SlotBag(queued) + PostRef(post) + multiset{res.slot};
  }

  lemma BooksInferDrop(all: multiset<nat>, free: seq<nat>, queued: seq<InferRes>, refs: multiset<nat>, slot: nat, post: PostPc)
    requires Books(all, free, queued, refs, InfDrop(slot), post)
    ensures var left := refs - multiset{slot};
            if slot in left then Books(all, free, queued, left, InfLock, post)
            else Books(all, free, queued, left, InfFree(slot), post)
  {
    hide L.Ledger, PostRef, PostBack, SlotBag;
    var down := SlotBag(queued) + PostRef(post);
    L.OwnDrop(all, multiset(free), multiset{} + PostBack(post), down, refs, slot);
    if slot !in down {
      assert multiset{slot} + PostBack(post) == multiset{} + PostBack(post) + multiset{slot};
    }
  }

  lemma BooksInferFree(all: multiset<nat>, free: seq<nat>, queued: seq<InferRes>, refs: multiset<nat>, slot: nat, post: PostPc)
    requires Books(all, free, queued, refs, InfFree(slot), post)
    ensures Books(all, free + [slot], queued, refs, InfLock, post)
  {
    hide L.Ledger, PostRef, PostBack, SlotBag;
    assert multiset{slot} + PostBack(post) == multiset{} + PostBack(post) + multiset{slot};
    L.Free(all, multiset(free), multiset{} + PostBack(post), multiset{}, false, SlotBag(queued) + PostRef(post), refs, slot);
    assert multiset(free + [slot]) == multiset(free) + multiset{slot};
  }

  lemma BooksTakeResult(all: multiset<nat>, free: seq<nat>, queued: seq<InferRes>, refs: multiset<nat>, inf: InferPc, post: PostPc)
    requires queued != [] && (post.PostGet? || post.PostAsleep?)
    requires Books(all, free, queued, refs, inf, post)
    ensures Books(all, free, queued[1..], refs, inf, PostDecode(queued[0]))
  {
    SlotBagPop(queued);
    assert SlotBag(queued[1..]) + multiset{queued[0].slot} == SlotBag(queued) + multiset{};
  }

  lemma InferRefSmall(inf: InferPc)
    ensures |InferRef(inf)| <= 1
  {
  }

  lemma BooksPostDrop(all: multiset<nat>, free: seq<nat>, queued: seq<InferRes>, refs: multiset<nat>, inf: InferPc, slot: nat)
    requires forall j :: all[j] <= 1
    requires Books(all, free, queued, refs, inf, PostDrop(slot))
    ensures var left := refs - multiset{slot};
            if slot in left then Books(all, free, queued, left, inf, PostLock)
            else Books(all, free, queued, left, inf, PostFree(slot))
  {
    hide L.Ledger, InferRef, InferBack, SlotBag;
    InferRefSmall(inf);
    var own, down := InferRef(inf), SlotBag(queued);
    L.DownDrop(all, multiset(free), InferBack(inf) + multiset{}, own, inf.InfDrop?, down, refs, slot);
    assert down + multiset{} == down;
    if slot !in own + down {
      assert InferBack(inf) + multiset{slot} == InferBack(inf) + multiset{} + multiset{slot};
    }
  }

  lemma BooksPostFree(all: multiset<nat>, free: seq<nat>, queued: seq<InferRes>, refs: multiset<nat>, inf: InferPc, slot: nat)
    requires Books(all, free, queued, refs, inf, PostFree(slot))
    ensures Books(all, free + [slot], queued, refs, inf, PostLock)
  {
    hide L.Ledger, InferRef, InferBack, SlotBag;
    assert InferBack(inf) + multiset{slot} == InferBack(inf) + multiset{} + multiset{slot};
    L.Free(all, multiset(free), InferBack(inf) + multiset{}, InferRef(inf), inf.InfDrop?, SlotBag(queued) + multiset{}, refs, slot);
    assert multiset(free + [slot]) == multiset(free) + multiset{slot};
  }

  // ------------------------------------------------------------------ order

  lemma ChainStart(job: Job, handed: nat, flight: seq<ImageInfo>, detections: seq<Detection>)
    requires handed < |job.tiles| && Chain(job, handed, flight, detections)
    ensures Chain(job, handed + 1, flight + [job.tiles[handed]], detections)
  {
  }

  lemma ChainFinish(job: Job, handed: nat, flight: seq<ImageInfo>, detections: seq<Detection>)
    requires handed <= |job.tiles| && flight != [] && Chain(job, handed, flight, detections)
    ensures Chain(job, handed, flight[1..], detections + job.TileDetections(flight[0]))
  {
  }

  lemma FlightSame(post: PostPc, queued: seq<InferRes>, inf: InferPc, images: seq<Image>, pre: PrePc,
                   post': PostPc, inf': InferPc, pre': PrePc)
    requires PostHeld(post) == PostHeld(post') && InferHeld(inf) == InferHeld(inf') && PreHeld(pre) == PreHeld(pre')
    ensures Flight(post', queued, inf', images, pre') == Flight(post, queued, inf, images, pre)
  {
  }

  lemma FlightStart(post: PostPc, queued: seq<InferRes>, inf: InferPc, images: seq<Image>, img: Image)
    ensures Flight(post, queued, inf, images, PreWait(img)) == Flight(post, queued, inf, images, PreNext) + [img.info]
  {
  }

  lemma FlightPut(post: PostPc, queued: seq<InferRes>, inf: InferPc, img: Image)
    ensures Flight(post, queued, inf, [] + [img], PreNext) == Flight(post, queued, inf, [], PrePut(img))
  {
  }

  lemma FlightTakeImage(post: PostPc, queued: seq<InferRes>, inf: InferPc, img: Image, pre: PrePc)
    requires InferHeld(inf) == []
    ensures Flight(post, queued, InfPredict(img), [], pre) == Flight(post, queued, inf, [img], pre)
  {
  }

  lemma FlightPublish(post: PostPc, queued: seq<InferRes>, res: InferRes, images: seq<Image>, pre: PrePc)
    ensures Flight(post, queued + [res], InfDrop(res.slot), images, pre) == Flight(post, queued, InfPut(res), images, pre)
  {
    assert Infos(queued + [res]) == Infos(queued) + [res.info];
    assert PostHeld(post) + (Infos(queued) + [res.info]) == PostHeld(post) + Infos(queued) + [res.info];
  }

  lemma FlightTakeResult(post: PostPc, queued: seq<InferRes>, inf: InferPc, images: seq<Image>, pre: PrePc)
    requires queued != [] && PostHeld(post) == []
    ensures Flight(PostDecode(queued[0]), queued[1..], inf, images, pre) == Flight(post, queued, inf, images, pre)
  {
    assert Infos(queued) == [queued[0].info] + Infos(queued[1..]);
    assert [] + Infos(queued) == Infos(queued);
  }

  lemma FlightAppend(queued: seq<InferRes>, inf: InferPc, images: seq<Image>, pre: PrePc, res: InferRes, dets: seq<Detection>)
    ensures var flight := Flight(PostAppend(res, dets), queued, inf, images, pre);
            flight != [] && flight[0] == res.info && flight[1..] == Flight(PostDrop(res.slot), queued, inf, images, pre)
  {
    hide Infos, InferHeld, Queued, PreHeld;
    var rest := Infos(queued) + InferHeld(inf) + Queued(images) + PreHeld(pre);
    assert Flight(PostAppend(res, dets), queued, inf, images, pre) == [res.info] + rest;
    assert Flight(PostDrop(res.slot), queued, inf, images, pre) == rest;
  }

  // ------------------------------------------------------------------ cargo: buffers, order and data together

  lemma AllOnce(job: Job)
    ensures forall j :: All(job)[j] <= 1
  {
    forall j ensures All(job)[j] <= 1 {
      AllSlotsOnce(job.slots, j);
    }
  }

  /** The buffer that the device output is copied into is in no other live result object. */
  lemma SlotPrivate(all: multiset<nat>, free: seq<nat>, queued: seq<InferRes>, refs: multiset<nat>,
                    res: InferRes, out: Tensor, post: PostPc)
    requires forall j :: all[j] <= 1
    requires Books(all, free, queued, refs, InfRead(res, out), post)
    ensures forall i :: 0 <= i < |queued| ==> queued[i].slot != res.slot
    ensures res.slot !in PostRef(post)
  {
    assert all[res.slot] <= 1;
    forall i | 0 <= i < |queued| ensures queued[i].slot != res.slot {
      SlotBagHas(queued, i);
    }
  }

  /** All cargo but what the producer holds and has put. */
  ghost predicate SameBesidesPre(s: State, n: State) {
    && n.inf == s.inf && n.post == s.post && n.pool == s.pool && n.qInfer == s.qInfer && n.refs == s.refs
    && n.detections == s.detections && n.mem == s.mem
  }

  lemma PreFrame(job: Job, s: State, wake: Thread)
    ensures SameBesidesPre(s, NextPre(job, s, wake))
  {
  }

  lemma PreStartEffect(job: Job, s: State, wake: Thread)
    requires s.pre.PreNext? && s.index < |job.tiles|
    ensures var n, info := NextPre(job, s, wake), job.tiles[s.index];
            && n.pre == PreWait(Image(job.cut(info), info)) && n.index == s.index + 1 && n.qImage == s.qImage
  {
  }

  lemma CargoPreStart(job: Job, s: State, wake: Thread)
    requires s.pre.PreNext? && s.index < |job.tiles| && Cargo(job, s)
    ensures Cargo(job, NextPre(job, s, wake))
  {
    hide Books, Flight, Chain, All, ImageData, InferData, QueueData, PostData, NextPre;
    PreFrame(job, s, wake);
    PreStartEffect(job, s, wake);
    var n := NextPre(job, s, wake);
    FlightStart(s.post, s.qInfer.items, s.inf, s.qImage.items, n.pre.img);
    ChainStart(job, s.index, Flight(s.post, s.qInfer.items, s.inf, s.qImage.items, s.pre), s.detections);
  }

  lemma PrePutEffect(job: Job, s: State, wake: Thread)
    requires s.pre.PrePut? && !s.qImage.closed
    ensures var n := NextPre(job, s, wake);
            n.pre == PreNext && n.index == s.index && n.qImage.items == s.qImage.items + [s.pre.img]
  {
  }

  lemma CargoPrePut(job: Job, s: State, wake: Thread)
    requires s.pre.PrePut? && !s.qImage.closed && s.qImage.items == [] && Cargo(job, s)
    ensures Cargo(job, NextPre(job, s, wake))
  {
    hide Books, Flight, Chain, All, InferData, QueueData, PostData, NextPre;
    PreFrame(job, s, wake);
    PrePutEffect(job, s, wake);
    FlightPut(s.post, s.qInfer.items, s.inf, s.pre.img);
  }

  lemma PreIdleEffect(job: Job, s: State, wake: Thread)
    requires !s.qImage.closed && (s.pre.PreWait? || s.pre.PreAsleep? || (s.pre.PreNext? && s.index == |job.tiles|))
    ensures var n := NextPre(job, s, wake);
            && PreHeld(n.pre) == PreHeld(s.pre) && n.qImage.items == s.qImage.items
            && HandedOut(job, n.index) == HandedOut(job, s.index) && (PreData(job, s.pre) ==> PreData(job, n.pre))
  {
  }

  lemma CargoPreIdle(job: Job, s: State, wake: Thread)
    requires !s.qImage.closed && (s.pre.PreWait? || s.pre.PreAsleep? || (s.pre.PreNext? && s.index == |job.tiles|))
    requires Cargo(job, s)
    ensures Cargo(job, NextPre(job, s, wake))
  {
    hide Books, Flight, Chain, All, PreData, ImageData, InferData, QueueData, PostData, NextPre, PreHeld, HandedOut;
    PreFrame(job, s, wake);
    PreIdleEffect(job, s, wake);
    FlightSame(s.post, s.qInfer.items, s.inf, s.qImage.items, s.pre, s.post, s.inf, NextPre(job, s, wake).pre);
  }

  lemma CargoPre(job: Job, s: State, wake: Thread)
    requires Control(job, s) && Cargo(job, s) && CanStep(s, Pre, wake)
    ensures Cargo(job, NextPre(job, s, wake))
  {
    assert !s.qImage.closed && s.index <= |job.tiles| && (s.pre.PrePut? ==> s.qImage.items == []);
    assert !s.pre.PreDone? && !s.pre.PreThrew?;
    hide Control, Cargo, CanStep, NextPre;
    if s.pre.PreNext? && s.index < |job.tiles| {
      CargoPreStart(job, s, wake);
    } else if s.pre.PrePut? {
      CargoPrePut(job, s, wake);
    } else {
      CargoPreIdle(job, s, wake);
    }
  }

  /** The caller moves no cargo. */
  ghost predicate SameCargo(s: State, n: State) {
    && n.inf == s.inf && n.post == s.post && n.pre == s.pre && n.pool == s.pool && n.refs == s.refs && n.mem == s.mem
    && n.qInfer.items == s.qInfer.items && n.qImage.items == s.qImage.items
    && n.index == s.index && n.detections == s.detections
  }

  lemma CallerFrameFlagPre(s: State)
    requires s.caller.JoinPre? || s.caller.LockPre? || s.caller.SetPre?
    ensures SameCargo(s, NextCaller(s))
  {
  }

  lemma CallerFrameShutPre(s: State)
    requires s.caller.SizePre? || s.caller.ClosePre? || s.caller.UnlockPre?
    ensures SameCargo(s, NextCaller(s))
  {
  }

  lemma CallerFrameFlagInf(s: State)
    requires s.caller.JoinInf? || s.caller.LockInf? || s.caller.SetInf?
    ensures SameCargo(s, NextCaller(s))
  {
  }

  lemma CallerFrameShutInf(s: State)
    requires s.caller.SizeInf? || s.caller.CloseInf? || s.caller.UnlockInf? || s.caller.JoinPost? || s.caller.CallerDone?
    ensures SameCargo(s, NextCaller(s))
  {
  }

  lemma CallerFrame(s: State)
    ensures SameCargo(s, NextCaller(s))
  {
    hide NextCaller, SameCargo;
    if s.caller.JoinPre? || s.caller.LockPre? || s.caller.SetPre? {
      CallerFrameFlagPre(s);
    } else if s.caller.SizePre? || s.caller.ClosePre? || s.caller.UnlockPre? {
      CallerFrameShutPre(s);
    } else if s.caller.JoinInf? || s.caller.LockInf? || s.caller.SetInf? {
      CallerFrameFlagInf(s);
    } else {
      CallerFrameShutInf(s);
    }
  }

  lemma CargoCaller(job: Job, s: State)
    requires Cargo(job, s)
    ensures Cargo(job, NextCaller(s))
  {
    hide Books, Flight, Chain, All, PreData, ImageData, InferData, QueueData, PostData, NextCaller;
    CallerFrame(s);
  }

  /** All cargo but what the inference thread holds. */
  ghost predicate SameBesidesInfer(s: State, n: State) {
    && n.post == s.post && n.pre == s.pre && n.pool.items == s.pool.items && n.refs == s.refs && n.mem == s.mem
    && n.qInfer.items == s.qInfer.items && n.qImage.items == s.qImage.items
    && n.index == s.index && n.detections == s.detections
  }

  ghost predicate SameBesidesPost(s: State, n: State) {
    && n.inf == s.inf && n.pre == s.pre && n.pool.items == s.pool.items && n.refs == s.refs && n.mem == s.mem
    && n.qInfer.items == s.qInfer.items && n.qImage.items == s.qImage.items
    && n.index == s.index && n.detections == s.detections
  }

  lemma InferIdleEffect(job: Job, s: State, wake: Thread)
    requires s.inf.InfLock? || s.inf.InfSize? || s.inf.InfCheck? || s.inf.InfPredict?
    ensures var n := NextInfer(job, s, wake);
            && SameBesidesInfer(s, n) && InferHeld(n.inf) == InferHeld(s.inf)
            && InferRef(n.inf) == InferRef(s.inf) && InferBack(n.inf) == InferBack(s.inf) && n.inf.InfDrop? == s.inf.InfDrop?
            && (InferData(job, s.mem, s.inf) ==> InferData(job, s.mem, n.inf))
  {
  }

  lemma CargoInferIdle(job: Job, s: State, wake: Thread)
    requires s.inf.InfLock? || s.inf.InfSize? || s.inf.InfCheck? || s.inf.InfPredict?
    requires Cargo(job, s)
    ensures Cargo(job, NextInfer(job, s, wake))
  {
    hide Books, Flight, Chain, All, PreData, ImageData, InferData, QueueData, PostData, NextInfer;
    hide InferHeld, InferRef, InferBack, PostRef, PostBack, PostHeld, PreHeld;
    var n := NextInfer(job, s, wake);
    InferIdleEffect(job, s, wake);
    BooksSame(All(job), s.pool.items, s.qInfer.items, s.refs, s.inf, s.post, n.inf, s.post);
    FlightSame(s.post, s.qInfer.items, s.inf, s.qImage.items, s.pre, s.post, n.inf, s.pre);
  }

  lemma CargoNoImage(job: Job, s: State, wake: Thread)
    requires s.inf.InfGet? || s.inf.InfAsleep?
    requires s.qImage.items == [] && Cargo(job, s)
    ensures Cargo(job, TakeImage(s, wake))
  {
    hide Books, Flight, Chain, All, PreData, ImageData, QueueData, PostData;
    var n := TakeImage(s, wake);
    BooksSame(All(job), s.pool.items, s.qInfer.items, s.refs, s.inf, s.post, n.inf, s.post);
    FlightSame(s.post, s.qInfer.items, s.inf, [], s.pre, s.post, n.inf, s.pre);
  }

  lemma CargoImageTaken(job: Job, s: State, wake: Thread)
    requires s.inf.InfGet? || s.inf.InfAsleep?
    requires |s.qImage.items| == 1 && Cargo(job, s)
    ensures Cargo(job, TakeImage(s, wake))
  {
    hide Books, Flight, Chain, All, PreData, QueueData, PostData;
    var img := s.qImage.items[0];
    BooksSame(All(job), s.pool.items, s.qInfer.items, s.refs, s.inf, s.post, InfPredict(img), s.post);
    assert s.qImage.items == [img] && s.qImage.items[1..] == [];
    FlightTakeImage(s.post, s.qInfer.items, s.inf, img, s.pre);
  }

  lemma CargoSlotTaken(job: Job, s: State, info: ImageInfo, out: Tensor, wake: Thread)
    requires s.inf == InfTake(info, out) || s.inf == InfTakeAsleep(info, out)
    requires !s.pool.closed && s.pool.items != [] && Cargo(job, s)
    ensures Cargo(job, TakeSlot(s, info, out, wake))
  {
    hide Books, Flight, Chain, All, PreData, ImageData, QueueData, PostData;
    var inf := InfRead(InferRes(s.pool.items[0], info), out);
    FlightSame(s.post, s.qInfer.items, s.inf, s.qImage.items, s.pre, s.post, inf, s.pre);
    BooksTakeSlot(All(job), s.pool.items, s.qInfer.items, s.refs, s.inf, s.post, inf);
  }

  lemma CargoNoSlot(job: Job, s: State, info: ImageInfo, out: Tensor, wake: Thread)
    requires s.inf == InfTake(info, out) || s.inf == InfTakeAsleep(info, out)
    requires !s.pool.closed && s.pool.items == [] && Cargo(job, s)
    ensures Cargo(job, TakeSlot(s, info, out, wake))
  {
    hide Books, Flight, Chain, All, PreData, ImageData, QueueData, PostData;
    var inf := InfTakeAsleep(info, out);
    FlightSame(s.post, s.qInfer.items, s.inf, s.qImage.items, s.pre, s.post, inf, s.pre);
    BooksSame(All(job), s.pool.items, s.qInfer.items, s.refs, s.inf, s.post, inf, s.post);
  }

  /** Writing a private buffer changes no tensor that anybody else will read. */
  lemma DataAfterRead(job: Job, mem: map<nat, Tensor>, queued: seq<InferRes>, post: PostPc, res: InferRes, out: Tensor)
    requires QueueData(job, mem, queued) && PostData(job, mem, post) && InferData(job, mem, InfRead(res, out))
    requires forall i :: 0 <= i < |queued| ==> queued[i].slot != res.slot
    requires res.slot !in PostRef(post)
    ensures var mem' := mem[res.slot := out];
            QueueData(job, mem', queued) && PostData(job, mem', post) && InferData(job, mem', InfPut(res))
  {
  }

  lemma CargoInferRead(job: Job, s: State, wake: Thread)
    requires s.inf.InfRead? && Cargo(job, s)
    ensures Cargo(job, NextInfer(job, s, wake))
  {
    hide Books, Flight, Chain, All, PreData, ImageData, InferData, QueueData, PostData;
    var res, out := s.inf.res, s.inf.out;
    AllOnce(job);
    SlotPrivate(All(job), s.pool.items, s.qInfer.items, s.refs, res, out, s.post);
    DataAfterRead(job, s.mem, s.qInfer.items, s.post, res, out);
    FlightSame(s.post, s.qInfer.items, s.inf, s.qImage.items, s.pre, s.post, InfPut(res), s.pre);
    BooksSame(All(job), s.pool.items, s.qInfer.items, s.refs, s.inf, s.post, InfPut(res), s.post);
  }

  lemma CargoInferPut(job: Job, s: State, wake: Thread)
    requires s.inf.InfPut? && !s.qInfer.closed && Cargo(job, s)
    ensures Cargo(job, NextInfer(job, s, wake))
  {
    hide Books, Flight, Chain, All, PreData, ImageData, PostData;
    BooksPublish(All(job), s.pool.items, s.qInfer.items, s.refs, s.inf.res, s.post);
    FlightPublish(s.post, s.qInfer.items, s.inf.res, s.qImage.items, s.pre);
  }

  lemma CargoInferRelease(job: Job, s: State, wake: Thread)
    requires s.inf.InfDrop? || s.inf.InfFree?
    requires !s.pool.closed && Cargo(job, s)
    ensures Cargo(job, NextInfer(job, s, wake))
  {
    hide Books, Flight, Chain, All, PreData, ImageData, QueueData, PostData;
    var n := NextInfer(job, s, wake);
    FlightSame(s.post, s.qInfer.items, s.inf, s.qImage.items, s.pre, s.post, n.inf, s.pre);
    if s.inf.InfDrop? {
      BooksInferDrop(All(job), s.pool.items, s.qInfer.items, s.refs, s.inf.slot, s.post);
    } else {
      BooksInferFree(All(job), s.pool.items, s.qInfer.items, s.refs, s.inf.slot, s.post);
    }
  }

  /** What an idle step of the post thread leaves alone. */
  ghost predicate PostIdles(job: Job, s: State, n: State) {
    && SameBesidesPost(s, n) && PostHeld(n.post) == PostHeld(s.post)
    && PostRef(n.post) == PostRef(s.post) && PostBack(n.post) == PostBack(s.post)
    && (PostData(job, s.mem, s.post) ==> PostData(job, s.mem, n.post))
  }

  lemma PostCheckEffect(job: Job, s: State, wake: Thread)
    requires s.post.PostLock? || s.post.PostSize? || s.post.PostCheck?
    ensures PostIdles(job, s, NextPost(job, s, wake))
  {
    hide Load;
  }

  lemma PostDecodeEffect(job: Job, s: State, wake: Thread)
    requires s.post.PostDecode?
    ensures PostIdles(job, s, NextPost(job, s, wake))
  {
    hide Load;
  }

  lemma PostIdleEffect(job: Job, s: State, wake: Thread)
    requires s.post.PostLock? || s.post.PostSize? || s.post.PostCheck? || s.post.PostDecode?
    ensures PostIdles(job, s, NextPost(job, s, wake))
  {
    hide PostIdles, NextPost;
    if s.post.PostDecode? { PostDecodeEffect(job, s, wake); } else { PostCheckEffect(job, s, wake); }
  }

  lemma CargoPostIdle(job: Job, s: State, wake: Thread)
    requires s.post.PostLock? || s.post.PostSize? || s.post.PostCheck? || s.post.PostDecode?
    requires Cargo(job, s)
    ensures Cargo(job, NextPost(job, s, wake))
  {
    hide Books, Flight, Chain, All, PreData, ImageData, InferData, QueueData, PostData, NextPost;
    hide InferHeld, InferRef, InferBack, PostRef, PostBack, PostHeld, PreHeld;
    var n := NextPost(job, s, wake);
    PostIdleEffect(job, s, wake);
    BooksSame(All(job), s.pool.items, s.qInfer.items, s.refs, s.inf, s.post, s.inf, n.post);
    FlightSame(s.post, s.qInfer.items, s.inf, s.qImage.items, s.pre, n.post, s.inf, s.pre);
  }

  lemma CargoPostTakeResult(job: Job, s: State, wake: Thread)
    requires s.post.PostGet? || s.post.PostAsleep?
    requires Cargo(job, s)
    ensures Cargo(job, NextPost(job, s, wake))
  {
    hide Books, Flight, Chain, All, PreData, ImageData, InferData;
    var n := NextPost(job, s, wake);
    if s.qInfer.items == [] {
      BooksSame(All(job), s.pool.items, s.qInfer.items, s.refs, s.inf, s.post, s.inf, n.post);
      FlightSame(s.post, s.qInfer.items, s.inf, s.qImage.items, s.pre, n.post, s.inf, s.pre);
    } else {
      BooksTakeResult(All(job), s.pool.items, s.qInfer.items, s.refs, s.inf, s.post);
      FlightTakeResult(s.post, s.qInfer.items, s.inf, s.qImage.items, s.pre);
    }
  }

  lemma CargoPostAppend(job: Job, s: State, wake: Thread)
    requires s.post.PostAppend?
    requires Cargo(job, s)
    ensures Cargo(job, NextPost(job, s, wake))
  {
    hide Books, Flight, Chain, All, PreData, ImageData, QueueData, InferData;
    var n := NextPost(job, s, wake);
    BooksSame(All(job), s.pool.items, s.qInfer.items, s.refs, s.inf, s.post, s.inf, n.post);
    FlightAppend(s.qInfer.items, s.inf, s.qImage.items, s.pre, s.post.res, s.post.dets);
    ChainFinish(job, HandedOut(job, s.index), Flight(s.post, s.qInfer.items, s.inf, s.qImage.items, s.pre), s.detections);
  }

  lemma CargoPostRelease(job: Job, s: State, wake: Thread)
    requires s.post.PostDrop? || s.post.PostFree?
    requires !s.pool.closed && Cargo(job, s)
    ensures Cargo(job, NextPost(job, s, wake))
  {
    hide Books, Flight, Chain, All, PreData, ImageData, QueueData, InferData;
    var n := NextPost(job, s, wake);
    FlightSame(s.post, s.qInfer.items, s.inf, s.qImage.items, s.pre, n.post, s.inf, s.pre);
    if s.post.PostDrop? {
      AllOnce(job);
      BooksPostDrop(All(job), s.pool.items, s.qInfer.items, s.refs, s.inf, s.post.slot);
    } else {
      BooksPostFree(All(job), s.pool.items, s.qInfer.items, s.refs, s.inf, s.post.slot);
    }
  }

  // ------------------------------------------------------------------ the step theorem

  lemma PreKeeps(job: Job, s: State, wake: Thread)
    requires Inv(job, s) && CanStep(s, Pre, wake)
    ensures Inv(job, NextPre(job, s, wake))
  {
    hide Locks, Sleepers, Handshake, Buffers, Order, Data, NextPre;
    ControlPre(job, s, wake);
    CargoPre(job, s, wake);
  }

  lemma ControlInfer(job: Job, s: State, wake: Thread)
    requires Control(job, s) && CanStep(s, Infer, wake)
    ensures Control(job, NextInfer(job, s, wake))
  {
    assert !s.inf.InfDone? && !s.inf.InfThrew?;
    hide Control, NextInfer, CanStep;
    if s.inf.InfLock? || s.inf.InfSize? || s.inf.InfCheck? { ControlInferCheck(job, s, wake); }
    else if s.inf.InfGet? || s.inf.InfAsleep? { ControlInferTakeImage(job, s, wake); }
    else if s.inf.InfPredict? { ControlInferPredict(job, s, wake); }
    else if s.inf.InfTake? || s.inf.InfTakeAsleep? { ControlInferTakeSlot(job, s, wake); }
    else if s.inf.InfRead? { ControlInferRead(job, s, wake); }
    else if s.inf.InfPut? { ControlInferPut(job, s, wake); }
    else { ControlInferRelease(job, s, wake); }
  }

  lemma CargoTakeImage(job: Job, s: State, wake: Thread)
    requires s.inf.InfGet? || s.inf.InfAsleep?
    requires |s.qImage.items| <= 1 && Cargo(job, s)
    ensures Cargo(job, NextInfer(job, s, wake))
  {
    hide Cargo, TakeImage;
    if s.qImage.items == [] { CargoNoImage(job, s, wake); } else { CargoImageTaken(job, s, wake); }
  }

  lemma CargoTakeSlot(job: Job, s: State, wake: Thread)
    requires s.inf.InfTake? || s.inf.InfTakeAsleep?
    requires !s.pool.closed && Cargo(job, s)
    ensures Cargo(job, NextInfer(job, s, wake))
  {
    hide Cargo, TakeSlot;
    var info, out := s.inf.info, s.inf.out;
    if s.pool.items == [] { CargoNoSlot(job, s, info, out, wake); } else { CargoSlotTaken(job, s, info, out, wake); }
  }

  lemma CargoInfer(job: Job, s: State, wake: Thread)
    requires Control(job, s) && Cargo(job, s) && CanStep(s, Infer, wake)
    ensures Cargo(job, NextInfer(job, s, wake))
  {
    assert !s.inf.InfDone? && !s.inf.InfThrew?;
    assert !s.pool.closed && |s.qImage.items| <= 1 && (s.inf.InfPut? ==> !s.qInfer.closed);
    hide Control, Cargo, NextInfer, CanStep;
    if s.inf.InfLock? || s.inf.InfSize? || s.inf.InfCheck? || s.inf.InfPredict? { CargoInferIdle(job, s, wake); }
    else if s.inf.InfGet? || s.inf.InfAsleep? { CargoTakeImage(job, s, wake); }
    else if s.inf.InfTake? || s.inf.InfTakeAsleep? { CargoTakeSlot(job, s, wake); }
    else if s.inf.InfRead? { CargoInferRead(job, s, wake); }
    else if s.inf.InfPut? { CargoInferPut(job, s, wake); }
    else { CargoInferRelease(job, s, wake); }
  }

  lemma InferKeeps(job: Job, s: State, wake: Thread)
    requires Inv(job, s) && CanStep(s, Infer, wake)
    ensures Inv(job, NextInfer(job, s, wake))
  {
    hide Control, Cargo, NextInfer;
    ControlInfer(job, s, wake);
    CargoInfer(job, s, wake);
  }

  lemma ControlPost(job: Job, s: State, wake: Thread)
    requires Control(job, s) && CanStep(s, Post, wake)
    ensures Control(job, NextPost(job, s, wake))
  {
    assert !s.post.PostDone?;
    hide Control, NextPost, CanStep;
    if s.post.PostLock? || s.post.PostSize? || s.post.PostCheck? { ControlPostCheck(job, s, wake); }
    else if s.post.PostGet? || s.post.PostAsleep? { ControlPostTakeResult(job, s, wake); }
    else if s.post.PostDecode? || s.post.PostAppend? { ControlPostAppend(job, s, wake); }
    else { ControlPostRelease(job, s, wake); }
  }

  lemma CargoPost(job: Job, s: State, wake: Thread)
    requires Control(job, s) && Cargo(job, s) && CanStep(s, Post, wake)
    ensures Cargo(job, NextPost(job, s, wake))
  {
    assert !s.post.PostDone? && !s.pool.closed;
    hide Control, Cargo, NextPost, CanStep;
    if s.post.PostLock? || s.post.PostSize? || s.post.PostCheck? || s.post.PostDecode? { CargoPostIdle(job, s, wake); }
    else if s.post.PostGet? || s.post.PostAsleep? { CargoPostTakeResult(job, s, wake); }
    else if s.post.PostAppend? { CargoPostAppend(job, s, wake); }
    else { CargoPostRelease(job, s, wake); }
  }

  lemma PostKeeps(job: Job, s: State, wake: Thread)
    requires Inv(job, s) && CanStep(s, Post, wake)
    ensures Inv(job, NextPost(job, s, wake))
  {
    hide Control, Cargo, NextPost;
    ControlPost(job, s, wake);
    CargoPost(job, s, wake);
  }

  lemma CallerKeeps(job: Job, s: State, wake: Thread)
    requires Inv(job, s) && CanStep(s, Caller, wake)
    ensures Inv(job, NextCaller(s))
  {
    hide Locks, Sleepers, Handshake, Buffers, Order, Data, NextCaller;
    CargoCaller(job, s);
    if s.caller.JoinPre? || s.caller.LockPre? || s.caller.SetPre? {
      ControlCallerFlagPre(job, s, wake);
    } else if s.caller.SizePre? || s.caller.ClosePre? || s.caller.UnlockPre? {
      ControlCallerShutPre(job, s, wake);
    } else if s.caller.JoinInf? || s.caller.LockInf? || s.caller.SetInf? {
      ControlCallerFlagInf(job, s, wake);
    } else {
      ControlCallerShutInf(job, s, wake);
    }
  }

  /** Whatever thread steps, and whichever sleeper its notification picks, the invariant holds after. */
  lemma StepKeeps(job: Job, s: State, t: Thread, wake: Thread)
    requires Inv(job, s) && CanStep(s, t, wake)
    ensures Inv(job, Next(job, s, t, wake))
  {
    hide Inv, NextPre, NextInfer, NextPost, NextCaller;
    match t
    case Pre => PreKeeps(job, s, wake);
    case Infer => InferKeeps(job, s, wake);
    case Post => PostKeeps(job, s, wake);
    case Caller => CallerKeeps(job, s, wake);
  }

  lemma SpuriousKeeps(job: Job, s: State, t: Thread)
    requires Inv(job, s)
    ensures Inv(job, Spurious(s, t))
  {
    hide Books, Flight, Chain, PreData, ImageData, InferData, QueueData, PostData;
  }
}
