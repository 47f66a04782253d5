/** The tile pipeline inside `YoloxRuntime::infer_gray8`: a producer, an inference thread and a post
    thread over two blocking queues and a pool of twenty result buffers, shut down by two
    flag-and-close handshakes. A step of one thread is one critical section or one local action. */
module Pipeline {
  import opened Basics
  import opened Detect
  import opened BlockingQueue

  type Pixels = seq<seq<int>>
  type Tensor = seq<int>

  /** What one call works on. The device is an uninterpreted function of the tile; the pool holds
      `slots` result buffers (20 in the source). */
  datatype Job = Job(slots: nat,
                     tiles: seq<ImageInfo>,
                     cut: ImageInfo -> Pixels,
                     device: Pixels -> Tensor,
                     decode: Tensor -> seq<Detection>)
  {
    function Output(info: ImageInfo): Tensor {
      device(cut(info))
    }

    /** The boxes of one tile in frame coordinates. */
    function TileDetections(info: ImageInfo): seq<Detection> {
      ShiftAll(decode(Output(info)), info)
    }

    /** The sequential program: tiles one after the other, in Cutter order. */
    function Sequential(k: nat): seq<Detection>
      requires k <= |tiles|
    {
      if k == 0 then [] else Sequential(k - 1) + TileDetections(tiles[k - 1])
    }
  }

  datatype Image = Image(data: Pixels, info: ImageInfo)

  /** A handle on a pooled buffer: the tensor itself sits in the shared memory `mem[slot]`. */
  datatype InferRes = InferRes(slot: nat, info: ImageInfo)

  datatype PrePc = PreNext | PreWait(img: Image) | PreAsleep(img: Image) | PrePut(img: Image) | PreDone | PreThrew

  datatype InferPc =
    | InfLock | InfSize | InfCheck(empty: bool) | InfGet | InfAsleep
    | InfPredict(img: Image)
    | InfTake(info: ImageInfo, out: Tensor) | InfTakeAsleep(info: ImageInfo, out: Tensor)
    | InfRead(res: InferRes, out: Tensor) | InfPut(res: InferRes)
    | InfDrop(slot: nat) | InfFree(slot: nat)
    | InfDone | InfThrew

  datatype PostPc =
    | PostLock | PostSize | PostCheck(empty: bool) | PostGet | PostAsleep
    | PostDecode(res: InferRes) | PostAppend(res: InferRes, dets: seq<Detection>)
    | PostDrop(slot: nat) | PostFree(slot: nat)
    | PostDone

  datatype CallerPc =
    | JoinPre | LockPre | SetPre | SizePre | ClosePre(empty: bool) | UnlockPre
    | JoinInf | LockInf | SetInf | SizeInf | CloseInf(empty: bool) | UnlockInf
    | JoinPost | CallerDone

  datatype State = State(
    index: nat,
    preExit: bool, inferExit: bool,
    preMutex: Option<Thread>, inferMutex: Option<Thread>,
    qImage: QueueState<Image>, qInfer: QueueState<InferRes>, pool: QueueState<nat>,
    mem: map<nat, Tensor>, refs: multiset<nat>,
    detections: seq<Detection>,
    pre: PrePc, inf: InferPc, post: PostPc, caller: CallerPc)

  function AllSlots(n: nat): seq<nat> {
    if n == 0 then [] else AllSlots(n - 1) + [n - 1]
  }

  ghost predicate Init(job: Job, s: State) {
    && s.index == 0 && !s.preExit && !s.inferExit
    && s.preMutex == None && s.inferMutex == None
    && s.qImage == Opened() && s.qInfer == Opened()
    && s.pool == QueueState(AllSlots(job.slots), false, {})
    && s.mem == map[] && s.refs == multiset{}
    && s.detections == []
    && s.pre == PreNext && s.inf == InfLock && s.post == PostLock && s.caller == JoinPre
  }

  // ------------------------------------------------------------------ steps

  predicate Enabled(s: State, t: Thread) {
    match t
    case Pre =>
      (match s.pre
       case PreAsleep(_) => Pre !in s.qImage.asleep
       case _ => !s.pre.PreDone? && !s.pre.PreThrew?)
    case Infer =>
      (match s.inf
       case InfLock => s.preMutex == None
       case InfAsleep => Infer !in s.qImage.asleep
       case InfTakeAsleep(_, _) => Infer !in s.pool.asleep
       case _ => !s.inf.InfDone? && !s.inf.InfThrew?)
    case Post =>
      (match s.post
       case PostLock => s.inferMutex == None
       case PostAsleep => Post !in s.qInfer.asleep
       case _ => !s.post.PostDone?)
    case Caller =>
      (match s.caller
       case JoinPre => s.pre.PreDone? || s.pre.PreThrew?
       case LockPre => s.preMutex == None
       case JoinInf => s.inf.InfDone? || s.inf.InfThrew?
       case LockInf => s.inferMutex == None
       case JoinPost => s.post.PostDone?
       case _ => !s.caller.CallerDone?)
  }

  /** The wait set that the step of `t` notifies, if it notifies one. */
  function Notified(s: State, t: Thread): set<Thread> {
    match t
    case Pre => if s.pre.PrePut? then s.qImage.asleep else {}
    case Infer =>
      if s.inf.InfGet? || s.inf.InfAsleep? then s.qImage.asleep
      else if s.inf.InfTake? || s.inf.InfTakeAsleep? || s.inf.InfFree? then s.pool.asleep
      else if s.inf.InfPut? then s.qInfer.asleep
      else {}
    case Post =>
      if s.post.PostGet? || s.post.PostAsleep? then s.qInfer.asleep
      else if s.post.PostFree? then s.pool.asleep
      else {}
    case Caller => {}
  }

  function NextPre(job: Job, s: State, wake: Thread): State {
    match s.pre
    case PreNext =>
      if s.index < |job.tiles| then
        var info := job.tiles[s.index];
        s.(index := s.index + 1, pre := PreWait(Image(job.cut(info), info)))
      else s.(index := s.index + 1, pre := PreDone)
    case PreWait(img) => Waiting(s, img)
    case PreAsleep(img) => Waiting(s, img)
    case PrePut(img) =>
      var (q, r) := PutStep(s.qImage, img, wake);
      s.(qImage := q, pre := if r.Threw? then PreThrew else PreNext)
    case PreDone => s
    case PreThrew => s
  }

  function Waiting(s: State, img: Image): State {
    var (q, r) := WaitStep(s.qImage, Pre);
    s.(qImage := q,
       pre := match r case Passed => PrePut(img) case Waits => PreAsleep(img) case Threw => PreThrew)
  }

  function NextInfer(job: Job, s: State, wake: Thread): State
  {
    match s.inf
    case InfLock => s.(preMutex := Some(Infer), inf := InfSize)
    case InfSize => s.(inf := InfCheck(s.qImage.items == []))
    case InfCheck(empty) => s.(preMutex := None, inf := if empty && s.preExit then InfDone else InfGet)
    case InfGet => TakeImage(s, wake)
    case InfAsleep => TakeImage(s, wake)
    case InfPredict(img) => s.(inf := InfTake(img.info, job.device(img.data)))
    case InfTake(info, out) => TakeSlot(s, info, out, wake)
    case InfTakeAsleep(info, out) => TakeSlot(s, info, out, wake)
    case InfRead(res, out) => s.(mem := s.mem[res.slot := out], inf := InfPut(res))
    case InfPut(res) =>
      var (q, r) := PutStep(s.qInfer, res, wake);
      if r.Threw? then s.(inf := InfThrew)
      else s.(qInfer := q, refs := s.refs + multiset{res.slot}, inf := InfDrop(res.slot))
    case InfDrop(slot) =>
      // the shared_ptr count goes down; whoever takes it to zero runs the deleter
      var left := s.refs - multiset{slot};
      s.(refs := left, inf := if slot in left then InfLock else InfFree(slot))
    case InfFree(slot) => s.(pool := PutStep(s.pool, slot, wake).0, inf := InfLock)
    case InfDone => s
    case InfThrew => s
  }

  function TakeImage(s: State, wake: Thread): State {
    var (q, r) := GetStep(s.qImage, Infer, wake);
    s.(qImage := q,
       inf := match r case Got(img) => InfPredict(img) case Blocked => InfAsleep case QueueClosed => InfDone)
  }

  function TakeSlot(s: State, info: ImageInfo, out: Tensor, wake: Thread): State
  {
    var (q, r) := GetStep(s.pool, Infer, wake);
    match r
    case Got(slot) => s.(pool := q, refs := s.refs + multiset{slot}, inf := InfRead(InferRes(slot, info), out))
    case Blocked => s.(pool := q, inf := InfTakeAsleep(info, out))
    case QueueClosed => s.(pool := q, inf := InfThrew)
  }

  function Load(mem: map<nat, Tensor>, slot: nat): Tensor {
    if slot in mem then mem[slot] else []
  }

  function NextPost(job: Job, s: State, wake: Thread): State
  {
    match s.post
    case PostLock => s.(inferMutex := Some(Post), post := PostSize)
    case PostSize => s.(post := PostCheck(s.qInfer.items == []))
    case PostCheck(empty) => s.(inferMutex := None, post := if empty && s.inferExit then PostDone else PostGet)
    case PostGet => TakeResult(s, wake)
    case PostAsleep => TakeResult(s, wake)
    case PostDecode(res) => s.(post := PostAppend(res, ShiftAll(job.decode(Load(s.mem, res.slot)), res.info)))
    case PostAppend(res, dets) => s.(detections := s.detections + dets, post := PostDrop(res.slot))
    case PostDrop(slot) =>
      var left := s.refs - multiset{slot};
      s.(refs := left, post := if slot in left then PostLock else PostFree(slot))
    case PostFree(slot) => s.(pool := PutStep(s.pool, slot, wake).0, post := PostLock)
    case PostDone => s
  }

  function TakeResult(s: State, wake: Thread): State {
    var (q, r) := GetStep(s.qInfer, Post, wake);
    s.(qInfer := q,
       post := match r case Got(res) => PostDecode(res) case Blocked => PostAsleep case QueueClosed => PostDone)
  }

  function NextCaller(s: State): State {
    match s.caller
    case JoinPre => s.(caller := LockPre)
    case LockPre => s.(preMutex := Some(Caller), caller := SetPre)
    case SetPre => s.(preExit := true, caller := SizePre)
    case SizePre => s.(caller := ClosePre(s.qImage.items == []))
    case ClosePre(empty) => s.(qImage := if empty then CloseStep(s.qImage) else s.qImage, caller := UnlockPre)
    case UnlockPre => s.(preMutex := None, caller := JoinInf)
    case JoinInf => s.(caller := LockInf)
    case LockInf => s.(inferMutex := Some(Caller), caller := SetInf)
    case SetInf => s.(inferExit := true, caller := SizeInf)
    case SizeInf => s.(caller := CloseInf(s.qInfer.items == []))
    case CloseInf(empty) => s.(qInfer := if empty then CloseStep(s.qInfer) else s.qInfer, caller := UnlockInf)
    case UnlockInf => s.(inferMutex := None, caller := JoinPost)
    case JoinPost => s.(caller := CallerDone)
    case CallerDone => s
  }

  function Next(job: Job, s: State, t: Thread, wake: Thread): State
  {
    match t
    case Pre => NextPre(job, s, wake)
    case Infer => NextInfer(job, s, wake)
    case Post => NextPost(job, s, wake)
    case Caller => NextCaller(s)
  }

  /** A condition variable may wake a sleeper for no reason at all. */
  function Spurious(s: State, t: Thread): State {
    s.(qImage := s.qImage.(asleep := s.qImage.asleep - {t}),
       qInfer := s.qInfer.(asleep := s.qInfer.asleep - {t}),
       pool := s.pool.(asleep := s.pool.asleep - {t}))
  }
}
