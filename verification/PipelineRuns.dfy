/** What the invariant means for whole runs of the pipeline: no deadlock, no lost wakeup, bounded
    length, no buffer lost, and the sequential result under every interleaving. */
module PipelineRuns {
  import opened Detect
  import opened BlockingQueue
  import opened Pipeline
  import opened PipelineInvariant
  import opened PipelineSteps

  // ------------------------------------------------------------------ safety, state by state

  /** No lost wakeup: a sleeper that nobody has notified waits for something that is false now; the
      producer and the consumer never sleep on one queue together; nothing is put on a closed queue. */
  lemma NoLostWakeup(job: Job, s: State)
    requires Inv(job, s)
    ensures !(Pre in s.qImage.asleep && Infer in s.qImage.asleep)
    ensures Pre in s.qImage.asleep ==> WaitStep(s.qImage, Pre).1 == Waits
    ensures Infer in s.qImage.asleep ==> GetStep(s.qImage, Infer, Infer).1 == Blocked
    ensures Post in s.qInfer.asleep ==> GetStep(s.qInfer, Post, Post).1 == Blocked
    ensures Infer in s.pool.asleep ==> GetStep(s.pool, Infer, Infer).1 == Blocked
    ensures |s.qImage.items| <= 1
    ensures s.pre.PrePut? ==> !s.qImage.closed
    ensures s.inf.InfPut? ==> !s.qInfer.closed
    ensures !s.pre.PreThrew? && !s.inf.InfThrew? && !s.pool.closed
  {
  }

  lemma {:induction false} AllSlotsSize(n: nat)
    ensures |AllSlots(n)| == n
  {
    if n > 0 {
      AllSlotsSize(n - 1);
    }
  }

  /** What the inference thread alone still holds. */
  function Private(s: State): multiset<nat> {
    if s.inf.InfDrop? && InferRef(s.inf) <= SlotBag(s.qInfer.items) + PostRef(s.post) then multiset{} else InferRef(s.inf)
  }

  /** Free, on its way back, held by the inference thread, queued or held by the post thread. */
  function Places(s: State): multiset<nat> {
    multiset(s.pool.items) + (InferBack(s.inf) + PostBack(s.post)) + Private(s) + (SlotBag(s.qInfer.items) + PostRef(s.post))
  }

  /** No buffer is ever in two places or in none. */
  lemma BuffersInOnePlace(job: Job, s: State, j: nat)
    requires Inv(job, s)
    ensures Places(s)[j] == if j < job.slots then 1 else 0
  {
    AllSlotsOnce(job.slots, j);
    assert Places(s) == All(job);
  }

  /** So the counts always add up to the size of the pool. */
  lemma BuffersConserved(job: Job, s: State)
    requires Inv(job, s)
    ensures |s.pool.items| + |InferBack(s.inf)| + |PostBack(s.post)| + |Private(s)|
            + |SlotBag(s.qInfer.items)| + |PostRef(s.post)| == job.slots
  {
    AllSlotsSize(job.slots);
    assert Places(s) == All(job);
    hide InferRef, PostRef, InferBack, PostBack, SlotBag, Private, AllSlots;
    assert |multiset(s.pool.items)| == |s.pool.items|;
    assert |All(job)| == job.slots;
  }

  // ------------------------------------------------------------------ progress

  lemma PoolOrPost(job: Job, s: State)
    requires Inv(job, s) && job.slots > 0 && s.inf.InfTakeAsleep? && s.pool.items == []
    ensures s.qInfer.items != [] || !(s.post.PostLock? || s.post.PostSize? || s.post.PostCheck? || s.post.PostGet? || s.post.PostAsleep? || s.post.PostDone?)
  {
    AllSlotsOnce(job.slots, 0);
    assert All(job)[0] == 1;
  }

  /** Deadlock freedom: until the caller has the result, some thread can step. */
  lemma NoDeadlock(job: Job, s: State)
    requires Inv(job, s) && job.slots > 0 && !s.caller.CallerDone?
    ensures exists t: Thread, wake: Thread :: CanStep(s, t, wake)
  {
    hide Books, Flight, Chain, PreData, ImageData, InferData, QueueData, PostData;
    if s.inf.InfTakeAsleep? && s.pool.items == [] {
      PoolOrPost(job, s);
    }
    assert Enabled(s, Caller) || Enabled(s, Pre) || Enabled(s, Infer) || Enabled(s, Post);
    var t := if Enabled(s, Caller) then Caller else if Enabled(s, Pre) then Pre else if Enabled(s, Infer) then Infer else Post;
    var wake :| CanWake(Notified(s, t), wake);
    assert CanStep(s, t, wake);
  }

  // ------------------------------------------------------------------ termination

  function Token(t: Thread, asleep: set<Thread>): nat {
    if t in asleep then 0 else 1
  }

  /** Each waiter that is not asleep un-notified has one step in hand: to look at its predicate. */
  function Awake(images: set<Thread>, results: set<Thread>, pool: set<Thread>): nat {
    Token(Pre, images) + Token(Infer, images) + Token(Post, results) + Token(Infer, pool)
  }

  function PreRank(pc: PrePc): nat {
    match pc
    case PreNext => 1
    case PreWait(_) => 37
    case PreAsleep(_) => 35
    case PrePut(_) => 34
    case PreDone => 0
    case PreThrew => 0
  }

  function InferRank(pc: InferPc): nat {
    match pc
    case InfLock => 6
    case InfSize => 5
    case InfCheck(_) => 4
    case InfGet => 3
    case InfAsleep => 1
    case InfPredict(_) => 29
    case InfTake(_, _) => 28
    case InfTakeAsleep(_, _) => 26
    case InfRead(_, _) => 25
    case InfPut(_) => 24
    case InfDrop(_) => 9
    case InfFree(_) => 8
    case InfDone => 0
    case InfThrew => 0
  }

  function PostRank(pc: PostPc): nat {
    match pc
    case PostLock => 6
    case PostSize => 5
    case PostCheck(_) => 4
    case PostGet => 3
    case PostAsleep => 1
    case PostDecode(_) => 11
    case PostAppend(_, _) => 10
    case PostDrop(_) => 9
    case PostFree(_) => 8
    case PostDone => 0
  }

  function CallerRank(pc: CallerPc): nat {
    match pc
    case JoinPre => 39
    case LockPre => 36
    case SetPre => 33
    case SizePre => 30
    case ClosePre(_) => 27
    case UnlockPre => 24
    case JoinInf => 21
    case LockInf => 18
    case SetInf => 15
    case SizeInf => 12
    case CloseInf(_) => 9
    case UnlockInf => 6
    case JoinPost => 3
    case CallerDone => 0
  }

  /** What is still to do: tiles to hand out, items in the queues, and each thread's place in its loop. */
  function Potential(job: Job, s: State): nat {
    40 * (|job.tiles| - HandedOut(job, s.index)) + 30 * |s.qImage.items| + 12 * |s.qInfer.items|
    + PreRank(s.pre) + InferRank(s.inf) + PostRank(s.post) + CallerRank(s.caller)
    + Awake(s.qImage.asleep, s.qInfer.asleep, s.pool.asleep)
  }

  lemma PreNextProgress(job: Job, s: State, wake: Thread)
    requires s.pre.PreNext? && s.index <= |job.tiles|
    ensures Potential(job, NextPre(job, s, wake)) < Potential(job, s)
  {
    hide InferRank, PostRank, CallerRank, Awake;
  }

  lemma PreWaitProgress(job: Job, s: State, wake: Thread)
    requires s.pre.PreWait? || s.pre.PreAsleep?
    requires CanStep(s, Pre, wake) && !s.qImage.closed
    ensures Potential(job, NextPre(job, s, wake)) < Potential(job, s)
  {
    hide InferRank, PostRank, CallerRank;
  }

  lemma PreProgress(job: Job, s: State, wake: Thread)
    requires !s.pre.PrePut?
    requires CanStep(s, Pre, wake) && !s.qImage.closed && s.index <= |job.tiles|
    ensures Potential(job, NextPre(job, s, wake)) < Potential(job, s)
  {
    hide Potential, NextPre;
    if s.pre.PreNext? { PreNextProgress(job, s, wake); } else { PreWaitProgress(job, s, wake); }
  }

  lemma PrePutProgress(job: Job, s: State, wake: Thread)
    requires s.pre.PrePut? && !s.qImage.closed
    ensures Potential(job, NextPre(job, s, wake)) < Potential(job, s)
  {
    hide InferRank, PostRank, CallerRank;
  }

  lemma InferCheckProgress(job: Job, s: State, wake: Thread)
    requires s.inf.InfLock? || s.inf.InfSize? || s.inf.InfCheck? || s.inf.InfPredict? || s.inf.InfRead? || s.inf.InfDrop?
    ensures Potential(job, NextInfer(job, s, wake)) < Potential(job, s)
  {
    hide PreRank, PostRank, CallerRank;
  }

  lemma InferTakeProgress(job: Job, s: State, wake: Thread)
    requires s.inf.InfGet? || s.inf.InfAsleep?
    requires CanStep(s, Infer, wake)
    ensures Potential(job, NextInfer(job, s, wake)) < Potential(job, s)
  {
    hide PreRank, PostRank, CallerRank;
  }

  lemma InferSlotProgress(job: Job, s: State, info: ImageInfo, out: Tensor, wake: Thread)
    requires s.inf == InfTake(info, out) || s.inf == InfTakeAsleep(info, out)
    requires CanStep(s, Infer, wake) && s.pool.items != []
    ensures Potential(job, TakeSlot(s, info, out, wake)) < Potential(job, s)
  {
    hide PreRank, PostRank, CallerRank;
  }

  lemma InferNoSlotProgress(job: Job, s: State, info: ImageInfo, out: Tensor, wake: Thread)
    requires s.inf == InfTake(info, out) || s.inf == InfTakeAsleep(info, out)
    requires CanStep(s, Infer, wake) && s.pool.items == [] && !s.pool.closed
    ensures Potential(job, TakeSlot(s, info, out, wake)) < Potential(job, s)
  {
    hide PreRank, PostRank, CallerRank;
  }

  lemma InferFreeProgress(job: Job, s: State, wake: Thread)
    requires s.inf.InfFree? && !s.pool.closed
    ensures Potential(job, NextInfer(job, s, wake)) < Potential(job, s)
  {
    hide PreRank, PostRank, CallerRank;
  }

  lemma InferPutProgress(job: Job, s: State, wake: Thread)
    requires s.inf.InfPut? && !s.qInfer.closed
    ensures Potential(job, NextInfer(job, s, wake)) < Potential(job, s)
  {
    hide PreRank, PostRank, CallerRank;
  }

  lemma PostCheckProgress(job: Job, s: State, wake: Thread)
    requires s.post.PostLock? || s.post.PostSize? || s.post.PostCheck? || s.post.PostDecode? || s.post.PostAppend? || s.post.PostDrop?
    ensures Potential(job, NextPost(job, s, wake)) < Potential(job, s)
  {
    hide PreRank, InferRank, CallerRank;
  }

  lemma PostTakeProgress(job: Job, s: State, wake: Thread)
    requires s.post.PostGet? || s.post.PostAsleep?
    requires CanStep(s, Post, wake)
    ensures Potential(job, NextPost(job, s, wake)) < Potential(job, s)
  {
    hide PreRank, InferRank, CallerRank;
  }

  lemma PostFreeProgress(job: Job, s: State, wake: Thread)
    requires s.post.PostFree? && !s.pool.closed
    ensures Potential(job, NextPost(job, s, wake)) < Potential(job, s)
  {
    hide PreRank, InferRank, CallerRank;
  }

  lemma CallerProgress(job: Job, s: State)
    requires !s.caller.ClosePre? && !s.caller.CloseInf? && !s.caller.CallerDone?
    ensures Potential(job, NextCaller(s)) < Potential(job, s)
  {
    hide PreRank, InferRank, PostRank, Awake;
    CallerFrame(s);
  }

  lemma CallerCloseProgress(job: Job, s: State)
    requires s.caller.ClosePre? || s.caller.CloseInf?
    ensures Potential(job, NextCaller(s)) < Potential(job, s)
  {
    hide PreRank, InferRank, PostRank;
  }

  lemma InferProgress(job: Job, s: State, wake: Thread)
    requires CanStep(s, Infer, wake) && !s.pool.closed && (s.inf.InfPut? ==> !s.qInfer.closed)
    ensures Potential(job, NextInfer(job, s, wake)) < Potential(job, s)
  {
    assert !s.inf.InfDone? && !s.inf.InfThrew?;
    hide Potential, TakeSlot, CanStep;
    if s.inf.InfGet? || s.inf.InfAsleep? { hide NextInfer; InferTakeProgress(job, s, wake); }
    else if s.inf.InfTake? || s.inf.InfTakeAsleep? {
      if s.pool.items == [] { InferNoSlotProgress(job, s, s.inf.info, s.inf.out, wake); }
      else { InferSlotProgress(job, s, s.inf.info, s.inf.out, wake); }
    }
    else if s.inf.InfPut? { hide NextInfer; InferPutProgress(job, s, wake); }
    else if s.inf.InfFree? { hide NextInfer; InferFreeProgress(job, s, wake); }
    else { hide NextInfer; InferCheckProgress(job, s, wake); }
  }

  lemma PostProgress(job: Job, s: State, wake: Thread)
    requires CanStep(s, Post, wake) && !s.pool.closed
    ensures Potential(job, NextPost(job, s, wake)) < Potential(job, s)
  {
    assert !s.post.PostDone?;
    hide Potential, NextPost, CanStep;
    if s.post.PostGet? || s.post.PostAsleep? { PostTakeProgress(job, s, wake); }
    else if s.post.PostFree? { PostFreeProgress(job, s, wake); }
    else { PostCheckProgress(job, s, wake); }
  }

  /** Every step of every thread brings the end nearer, whatever the others have done. */
  lemma Progress(job: Job, s: State, t: Thread, wake: Thread)
    requires Inv(job, s) && CanStep(s, t, wake)
    ensures Potential(job, Next(job, s, t, wake)) < Potential(job, s)
  {
    assert !s.pool.closed && (s.inf.InfPut? ==> !s.qInfer.closed);
    assert t == Pre ==> !s.qImage.closed && s.index <= |job.tiles|;
    assert t == Caller ==> !s.caller.CallerDone?;
    hide Inv, Potential, NextPre, NextInfer, NextPost, NextCaller, CanStep;
    match t {
      case Pre => if s.pre.PrePut? { PrePutProgress(job, s, wake); } else { PreProgress(job, s, wake); }
      case Infer => InferProgress(job, s, wake);
      case Post => PostProgress(job, s, wake);
      case Caller =>
        if s.caller.ClosePre? || s.caller.CloseInf? { CallerCloseProgress(job, s); } else { CallerProgress(job, s); }
    }
  }

  // ------------------------------------------------------------------ runs

  datatype Action = Act(thread: Thread, wake: Thread) | WakeUp(thread: Thread)

  ghost predicate CanDo(s: State, a: Action) {
    match a
    case Act(t, wake) => CanStep(s, t, wake)
    case WakeUp(t) => t in s.qImage.asleep || t in s.qInfer.asleep || t in s.pool.asleep
  }

  function Do(job: Job, s: State, a: Action): State {
    match a
    case Act(t, wake) => Next(job, s, t, wake)
    case WakeUp(t) => Spurious(s, t)
  }

  /** The state after a schedule; each action must be possible where it happens. */
  ghost predicate Runs(job: Job, s: State, schedule: seq<Action>, end: State)
    decreases |schedule|
  {
    if schedule == [] then end == s
    else CanDo(s, schedule[0]) && Runs(job, Do(job, s, schedule[0]), schedule[1..], end)
  }

  function Spuriouses(schedule: seq<Action>): nat {
    if schedule == [] then 0 else (if schedule[0].WakeUp? then 1 else 0) + Spuriouses(schedule[1..])
  }

  lemma AwakeAfter(images: set<Thread>, results: set<Thread>, pool: set<Thread>, t: Thread)
    ensures Awake(images - {t}, results - {t}, pool - {t}) <= Awake(images, results, pool) + 2
  {
  }

  lemma SpuriousPotential(job: Job, s: State, t: Thread)
    ensures Potential(job, Spurious(s, t)) <= Potential(job, s) + 2
  {
    hide PreRank, InferRank, PostRank, CallerRank, Awake, HandedOut;
    AwakeAfter(s.qImage.asleep, s.qInfer.asleep, s.pool.asleep, t);
  }

  /** Every state on every run satisfies the invariant, and a run cannot be longer than its spurious
      wakeups allow: the pipeline terminates under every scheduler. */
  lemma {:induction false} RunBound(job: Job, s: State, schedule: seq<Action>, end: State)
    requires Inv(job, s) && Runs(job, s, schedule, end)
    ensures Inv(job, end)
    ensures |schedule| + Potential(job, end) <= Potential(job, s) + 3 * Spuriouses(schedule)
    decreases schedule
  {
    hide Inv, Potential, Next;
    if schedule != [] {
      var a := schedule[0];
      match a {
        case Act(t, wake) => StepKeeps(job, s, t, wake); Progress(job, s, t, wake);
        case WakeUp(t) => SpuriousKeeps(job, s, t); SpuriousPotential(job, s, t);
      }
      RunBound(job, Do(job, s, a), schedule[1..], end);
    }
  }

  /** When the caller has joined all three threads, all tiles are in the result, in Cutter order. */
  lemma FinishResult(job: Job, s: State)
    requires Inv(job, s) && s.caller.CallerDone?
    ensures s.detections == job.Sequential(|job.tiles|)
    ensures s.qImage.items == [] && s.qInfer.items == []
  {
    hide Books, PreData, ImageData, InferData, QueueData, PostData, Locks, Sleepers;
  }

  /** ... and every buffer is back in the pool. */
  lemma FinishBuffers(job: Job, s: State)
    requires Inv(job, s) && s.caller.CallerDone?
    ensures multiset(s.pool.items) == All(job) && s.refs == multiset{}
  {
    hide All, Flight, Chain, PreData, ImageData, InferData, QueueData, PostData, Locks, Sleepers;
    assert s.inf.InfDone? && s.post.PostDone? && s.qInfer.items == [];
  }

  /** THE refinement: from the initial state, under every interleaving of the four threads and every
      choice of the notifications, a run either can go on or has ended with the sequential result. */
  lemma PipelineRefinesSequential(job: Job, s: State, schedule: seq<Action>, end: State)
    requires Init(job, s) && job.slots > 0 && Runs(job, s, schedule, end)
    ensures end.caller.CallerDone? ==> end.detections == job.Sequential(|job.tiles|)
    ensures !end.caller.CallerDone? ==> exists a: Action :: a.Act? && CanDo(end, a)
    ensures |schedule| <= Potential(job, s) + 3 * Spuriouses(schedule)
  {
    InitInv(job, s);
    RunBound(job, s, schedule, end);
    if end.caller.CallerDone? {
      FinishResult(job, end);
    } else {
      NoDeadlock(job, end);
      var t: Thread, wake: Thread :| CanStep(end, t, wake);
      assert CanDo(end, Act(t, wake));
    }
  }

  lemma TakingWritesNothing(s: State, info: ImageInfo, out: Tensor, wake: Thread)
    ensures TakeImage(s, wake).detections == s.detections && TakeSlot(s, info, out, wake).detections == s.detections
  {
  }

  lemma InferWritesNothing(job: Job, s: State, wake: Thread)
    ensures NextInfer(job, s, wake).detections == s.detections
  {
    hide TakeImage, TakeSlot, BlockingQueue.PutStep;
    if s.inf.InfTake? || s.inf.InfTakeAsleep? {
      TakingWritesNothing(s, s.inf.info, s.inf.out, wake);
    } else {
      TakingWritesNothing(s, ImageInfo(0, 0), [], wake);
    }
  }

  lemma PostWritesNothing(job: Job, s: State, wake: Thread)
    requires !s.post.PostAppend?
    ensures NextPost(job, s, wake).detections == s.detections
  {
  }

  lemma OnlyAppendWrites(job: Job, s: State, t: Thread, wake: Thread)
    requires !(t == Post && s.post.PostAppend?)
    ensures Next(job, s, t, wake).detections == s.detections
  {
    hide NextInfer, NextPost;
    if t == Infer {
      InferWritesNothing(job, s, wake);
    } else if t == Post {
      PostWritesNothing(job, s, wake);
    }
  }

  /** How many tiles the result covers. */
  function Covered(job: Job, s: State): int {
    HandedOut(job, s.index) - |Flight(s.post, s.qInfer.items, s.inf, s.qImage.items, s.pre)|
  }

  lemma AppendWritesNext(job: Job, s: State, wake: Thread)
    requires Order(job, s) && PostData(job, s.mem, s.post) && s.post.PostAppend?
    ensures var k := Covered(job, s);
            0 <= k < |job.tiles| && NextPost(job, s, wake).detections == job.Sequential(k + 1)
  {
    hide Flight;
    FlightAppend(s.qInfer.items, s.inf, s.qImage.items, s.pre, s.post.res, s.post.dets);
    ChainFinish(job, HandedOut(job, s.index), Flight(s.post, s.qInfer.items, s.inf, s.qImage.items, s.pre), s.detections);
  }

  lemma OrderCovers(job: Job, s: State)
    requires Order(job, s)
    ensures 0 <= Covered(job, s) <= |job.tiles| && s.detections == job.Sequential(Covered(job, s))
  {
    hide Flight;
  }

  /** Forward simulation: a step adds nothing to the result, or exactly the boxes of the next tile. */
  lemma StepSimulates(job: Job, s: State, t: Thread, wake: Thread)
    requires Inv(job, s) && CanStep(s, t, wake)
    ensures var n, k := Next(job, s, t, wake), Covered(job, s);
            && 0 <= k <= |job.tiles| && s.detections == job.Sequential(k)
            && (n.detections == job.Sequential(k) || (k < |job.tiles| && n.detections == job.Sequential(k + 1)))
  {
    assert Order(job, s) && PostData(job, s.mem, s.post);
    hide Inv, Order, PostData, Covered, NextPre, NextInfer, NextPost, NextCaller;
    OrderCovers(job, s);
    if t == Post && s.post.PostAppend? {
      AppendWritesNext(job, s, wake);
    } else {
      OnlyAppendWrites(job, s, t, wake);
    }
  }
}
