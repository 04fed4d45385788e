/** The teardown read off a run's events alone: what was put, begun, submitted and
    finished, without the counters the steps themselves keep. */
module TeardownTraces {
  import opened Teardown

  // ----- RTD sends

  /** The sends goroutine g has begun and not ended; `open` of them before. */
  function OpenSends(acts: seq<Action>, g: nat, open: nat): nat {
    if acts == [] then open
    else
      var now := match acts[0]
        case OnRtd(BeginSends(h, n)) => if h == g then n else open
        case OnRtd(EndSends(h)) => if h == g then 0 else open
        case _ => open;
      OpenSends(acts[1..], g, now)
  }

  /** Whether a client is set after the run. */
  function Connected(acts: seq<Action>, before: bool): bool {
    if acts == [] then before
    else Connected(acts[1..], match acts[0] case OnRtd(SetClient(c)) => c case _ => before)
  }

  function Held(x: Rtd, g: nat): nat { if g in x.senders then x.senders[g] else 0 }

  ghost predicate Counted(x: Rtd) { forall g :: g in x.senders ==> x.senders[g] > 0 }

  lemma {:induction false} SendsFollow(y: Sys, acts: seq<Action>, g: nat)
    requires Counted(y.rtd) && ValidRun(y, acts)
    ensures var x := After(y, acts).rtd;
      && Counted(x) && Held(x, g) == OpenSends(acts, g, Held(y.rtd, g))
      && x.connected == Connected(acts, y.rtd.connected)
      && (x.stopped <==> y.rtd.stopped || LatchRtd in acts)
    decreases |acts|
  {
    if acts != [] {
      assert acts == [acts[0]] + acts[1..];
      SendsFollow(Do(y, acts[0]), acts[1..], g);
    }
  }

  /** After any run, goroutine g may begin n sends if and only if a client is set,
      the gate has not been latched, and g has none open. */
  lemma SendMayBeginIff(size: nat, acts: seq<Action>, g: nat, n: nat)
    requires ValidRun(Initial(size), acts)
    ensures Enabled(After(Initial(size), acts), OnRtd(BeginSends(g, n)))
      <==> n > 0 && Connected(acts, false) && LatchRtd !in acts && OpenSends(acts, g, 0) == 0
  {
    SendsFollow(Initial(size), acts, g);
  }

  // ----- counting events

  function Count(acts: seq<Action>, p: Action -> bool): nat {
    if acts == [] then 0 else (if p(acts[0]) then 1 else 0) + Count(acts[1..], p)
  }

  predicate IsSubmit(a: Action) { a == OnPool(Submit) }
  predicate IsTake(a: Action) { a.OnPool? && a.pool.TakeJob? }
  predicate IsFinish(a: Action) { a.OnPool? && a.pool.FinishJob? }
  predicate FlushBegins(a: Action) { a == OnBatcher(FillDone) }
  predicate FlushEnds(a: Action) { a == OnBatcher(FlushDone) }

  lemma FinishCounts(p: Pool, w: nat)
    requires JobsConserved(p) && PoolEnabled(p, FinishJob(w))
    ensures |PoolDo(p, FinishJob(w)).finished| == |p.finished| + 1
  {
    assert RunsOn(p, p.running[w]);
  }

  function One(b: bool): nat { if b then 1 else 0 }

  lemma StepCounts(y: Sys, a: Action)
    requires JobsConserved(y.pool) && Enabled(y, a)
    ensures var p, p' := y.pool, Do(y, a).pool;
      && p'.jobs == p.jobs + One(IsSubmit(a)) && p'.taken == p.taken + One(IsTake(a))
      && |p'.finished| == |p.finished| + One(IsFinish(a)) && p'.size == p.size
  {
    if IsFinish(a) {
      FinishCounts(y.pool, a.pool.w);
    }
  }

  lemma {:induction false} JobsFollow(y: Sys, acts: seq<Action>)
    requires Inv(y) && ValidRun(y, acts)
    ensures var p := After(y, acts).pool;
      && p.jobs == y.pool.jobs + Count(acts, IsSubmit) && p.taken == y.pool.taken + Count(acts, IsTake)
      && |p.finished| == |y.pool.finished| + Count(acts, IsFinish) && p.size == y.pool.size
    decreases |acts|
  {
    if acts != [] {
      StepKeeps(y, acts[0]);
      StepCounts(y, acts[0]);
      JobsFollow(Do(y, acts[0]), acts[1..]);
    }
  }

  /** A job is accepted if and only if the server is serving and fewer jobs than
      there are workers have been submitted and not yet taken. */
  lemma SubmitAcceptedIff(size: nat, acts: seq<Action>)
    requires 0 < size && ValidRun(Initial(size), acts)
    ensures Enabled(After(Initial(size), acts), OnPool(Submit))
      <==> After(Initial(size), acts).main.Serving? && Count(acts, IsSubmit) < Count(acts, IsTake) + size
  {
    InitialInv(size);
    RunKeeps(Initial(size), acts);
    JobsFollow(Initial(size), acts);
  }

  lemma StepFlushes(b: Batcher, a: BatcherStep)
    requires BatcherEnabled(b, a)
    ensures var b' := BatcherDo(b, a);
      && |b'.flushed| == |b.flushed| + One(a.FlushDone?)
      && |b'.flushed| + One(b'.worker.Flushing?) == |b.flushed| + One(b.worker.Flushing?) + One(a.FillDone?)
  {
  }

  lemma ActFlushes(y: Sys, a: Action)
    requires Enabled(y, a)
    ensures var b, b' := y.batcher, Do(y, a).batcher;
      && |b'.flushed| == |b.flushed| + One(FlushEnds(a))
      && |b'.flushed| + One(b'.worker.Flushing?) == |b.flushed| + One(b.worker.Flushing?) + One(FlushBegins(a))
  {
    match a
    case OnBatcher(step) => StepFlushes(y.batcher, step);
    case LatchAsync => StepFlushes(y.batcher, LatchGate);
    case SignalStop => StepFlushes(y.batcher, CloseStop);
    case _ =>
  }

  lemma {:induction false} FlushesFollow(y: Sys, acts: seq<Action>)
    requires ValidRun(y, acts)
    ensures var b, b' := y.batcher, After(y, acts).batcher;
      && |b'.flushed| == |b.flushed| + Count(acts, FlushEnds)
      && |b'.flushed| + One(b'.worker.Flushing?) == |b.flushed| + One(b.worker.Flushing?) + Count(acts, FlushBegins)
    decreases |acts|
  {
    if acts != [] {
      ActFlushes(y, acts[0]);
      FlushesFollow(Do(y, acts[0]), acts[1..]);
    }
  }

  lemma {:induction false} SubsetFull(s: set<nat>, n: nat)
    requires forall j :: j in s ==> j < n
    ensures |s| <= n && (|s| == n <==> forall j: nat :: j < n ==> j in s)
    decreases n
  {
    if n == 0 {
      assert s == {};
    } else {
      var rest := s - {n - 1};
      SubsetFull(rest, n - 1);
      if n - 1 in s {
        assert |rest| == |s| - 1;
        assert forall j: nat :: j < n - 1 ==> (j in rest <==> j in s);
      } else {
        assert rest == s;
      }
    }
  }

  /** As many jobs submitted as finished means all of them are. */
  lemma AllDoneIff(p: Pool)
    requires JobsConserved(p)
    ensures AllJobsDone(p) <==> |p.finished| == p.jobs
  {
    SubsetFull(p.finished, p.jobs);
    if AllJobsDone(p) {
    } else if |p.finished| == p.jobs {
      var w :| w in p.running;
      assert RunsOn(p, p.running[w]);
    }
  }

  /** The release read off the events: behind it no goroutine has a send open, as
      many flushes have ended as begun, and, when the main goroutine releases, as
      many jobs have finished as were submitted. */
  lemma ReleaseBehindEvents(size: nat, acts: seq<Action>, g: nat)
    requires 0 < size && ValidRun(Initial(size), acts) && After(Initial(size), acts).closes > 0
    ensures OpenSends(acts, g, 0) == 0
    ensures Count(acts, FlushBegins) == Count(acts, FlushEnds)
    ensures After(Initial(size), acts).who == Main ==> Count(acts, IsSubmit) == Count(acts, IsFinish)
  {
    InitialInv(size);
    RunKeeps(Initial(size), acts);
    NoUnmapUnderASender(size, acts);
    SendsFollow(Initial(size), acts, g);
    FlushesFollow(Initial(size), acts);
    JobsFollow(Initial(size), acts);
    AllDoneIff(After(Initial(size), acts).pool);
  }

  // ----- what is accepted

  /** What one step puts: a result, unless it meets 1024 queued ones. */
  function Put(b: Batcher, a: Action): seq<Result> {
    match a
    case OnBatcher(QueuePut(_, r)) => if |b.queue| < 1024 then [r] else []
    case _ => []
  }

  /** The results put, in order, without those whose put met 1024 queued ones. */
  function PutWithRoom(y: Sys, acts: seq<Action>): seq<Result>
    requires ValidRun(y, acts)
    decreases |acts|
  {
    if acts == [] then [] else Put(y.batcher, acts[0]) + PutWithRoom(Do(y, acts[0]), acts[1..])
  }

  lemma StepAccepts(y: Sys, a: Action)
    requires Enabled(y, a)
    ensures Do(y, a).batcher.accepted == y.batcher.accepted + Put(y.batcher, a)
  {
  }

  lemma {:induction false} AcceptedFollow(y: Sys, acts: seq<Action>)
    requires ValidRun(y, acts)
    ensures After(y, acts).batcher.accepted == y.batcher.accepted + PutWithRoom(y, acts)
    decreases |acts|
  {
    if acts == [] {
      assert y.batcher.accepted + [] == y.batcher.accepted;
    } else {
      StepAccepts(y, acts[0]);
      AcceptedFollow(Do(y, acts[0]), acts[1..]);
      Joined(y.batcher.accepted, Put(y.batcher, acts[0]), PutWithRoom(Do(y, acts[0]), acts[1..]));
    }
  }

  lemma Joined(a: seq<Result>, b: seq<Result>, c: seq<Result>)
    ensures (a + b) + c == a + (b + c)
  {
  }

  lemma StepFlags(y: Sys, a: Action)
    requires Enabled(y, a)
    ensures Do(y, a).batcher.gateLatched <==> y.batcher.gateLatched || a == LatchAsync
    ensures Do(y, a).batcher.stopClosed <==> y.batcher.stopClosed || a == SignalStop
    ensures Do(y, a).batcher.started <==> y.batcher.started || a == OnBatcher(StartWorker)
  {
  }

  lemma {:induction false} FlagsFollow(y: Sys, acts: seq<Action>)
    requires ValidRun(y, acts)
    ensures After(y, acts).batcher.gateLatched <==> y.batcher.gateLatched || LatchAsync in acts
    ensures After(y, acts).batcher.stopClosed <==> y.batcher.stopClosed || SignalStop in acts
    ensures After(y, acts).batcher.started <==> y.batcher.started || OnBatcher(StartWorker) in acts
    decreases |acts|
  {
    if acts != [] {
      assert forall a :: a in acts <==> a == acts[0] || a in acts[1..];
      StepFlags(y, acts[0]);
      FlagsFollow(Do(y, acts[0]), acts[1..]);
    }
  }

  /** Whether caller g is past QueueResult's check and has not put its result. */
  function PastCheck(acts: seq<Action>, g: nat, before: bool): bool {
    if acts == [] then before
    else
      var now := match acts[0]
        case OnBatcher(QueueCheck(h)) => before || h == g
        case OnBatcher(QueuePut(h, _)) => before && h != g
        case _ => before;
      PastCheck(acts[1..], g, now)
  }

  lemma {:induction false} ChecksFollow(y: Sys, acts: seq<Action>, g: nat)
    requires ValidRun(y, acts)
    ensures g in After(y, acts).batcher.passed <==> PastCheck(acts, g, g in y.batcher.passed)
    decreases |acts|
  {
    if acts != [] {
      ChecksFollow(Do(y, acts[0]), acts[1..], g);
    }
  }

  /** After any run a caller may pass QueueResult's gate if and only if the gate
      has not been latched and it is not already past it; past it, it may put its
      result, latched or not. */
  lemma QueueMayPassIff(size: nat, acts: seq<Action>, g: nat, r: Result)
    requires ValidRun(Initial(size), acts)
    ensures Enabled(After(Initial(size), acts), OnBatcher(QueueCheck(g)))
      <==> LatchAsync !in acts && !PastCheck(acts, g, false)
    ensures Enabled(After(Initial(size), acts), OnBatcher(QueuePut(g, r))) <==> PastCheck(acts, g, false)
  {
    FlagsFollow(Initial(size), acts);
    ChecksFollow(Initial(size), acts, g);
  }

  /** Over any run: the flushed batches, the batch at hand and the queue are the
      results put, in order, except those whose put met 1024 queued results. */
  lemma PutsAreAccepted(size: nat, acts: seq<Action>)
    requires 0 < size && ValidRun(Initial(size), acts)
    ensures var b := After(Initial(size), acts).batcher;
      Concat(b.flushed) + b.batch + b.queue == PutWithRoom(Initial(size), acts)
  {
    InitialInv(size);
    RunKeeps(Initial(size), acts);
    AcceptedFollow(Initial(size), acts);
    assert [] + PutWithRoom(Initial(size), acts) == PutWithRoom(Initial(size), acts);
  }

  // ----- the worker left to itself

  /** The worker's next step while it has something to do. */
  function NextStep(b: Batcher): BatcherStep
    requires !b.worker.NotStarted? && !b.worker.Exited? && (b.worker.Waiting? ==> b.queue != [])
  {
    match b.worker
    case Launching => Launch
    case AtGate => CheckGate
    case Waiting => Receive
    case Filling => if |b.batch| < 256 && b.queue != [] then Fill else FillDone
    case Flushing => FlushDone
  }

  function WorkAhead(b: Batcher): nat {
    4 * |b.queue| + match b.worker
      case Launching => 2
      case AtGate => 1
      case Filling => 3
      case Flushing => 2
      case _ => 0
  }

  ghost predicate WorkerOnly(acts: seq<Action>) {
    forall a :: a in acts ==> a.OnBatcher? && !a.batcher.QueueCheck? && !a.batcher.QueuePut? && !a.batcher.StartWorker?
  }

  lemma NextIsEnabled(y: Sys)
    requires Fifo(y.batcher) && !y.batcher.stopClosed && !y.batcher.worker.NotStarted? && !y.batcher.worker.Exited?
    requires y.batcher.worker.Waiting? ==> y.batcher.queue != []
    ensures var a := OnBatcher(NextStep(y.batcher));
      && Enabled(y, a) && WorkAhead(Do(y, a).batcher) < WorkAhead(y.batcher)
      && !Do(y, a).batcher.stopClosed && !Do(y, a).batcher.worker.NotStarted? && !Do(y, a).batcher.worker.Exited?
      && Do(y, a).batcher.accepted == y.batcher.accepted && Fifo(Do(y, a).batcher)
  {
    FifoKept(y.batcher, NextStep(y.batcher));
  }

  lemma FlushedAll(b: Batcher)
    requires Fifo(b) && b.worker.Waiting? && b.queue == []
    ensures b.accepted == Concat(b.flushed)
  {
    assert Concat(b.flushed) + [] + [] == Concat(b.flushed);
  }

  /** A worker that has not left and is not stopped can flush all there is. */
  lemma {:induction false} WorkerDrains(y: Sys) returns (acts: seq<Action>)
    requires Fifo(y.batcher) && !y.batcher.stopClosed && !y.batcher.worker.NotStarted? && !y.batcher.worker.Exited?
    ensures ValidRun(y, acts) && WorkerOnly(acts)
    ensures var b := After(y, acts).batcher;
      && b.accepted == y.batcher.accepted == Concat(b.flushed) && b.queue == [] && b.worker.Waiting?
    decreases WorkAhead(y.batcher)
  {
    acts := [];
    if !(y.batcher.worker.Waiting? && y.batcher.queue == []) {
      var a := OnBatcher(NextStep(y.batcher));
      NextIsEnabled(y);
      var rest := WorkerDrains(Do(y, a));
      Then(y, a, rest);
      acts := [a] + rest;
    } else {
      FlushedAll(y.batcher);
    }
  }

  /** While stop is open a started worker has not left. */
  lemma {:induction false} WorkerStays(y: Sys, acts: seq<Action>)
    requires ValidRun(y, acts) && (y.batcher.worker.Exited? ==> y.batcher.stopClosed)
    ensures After(y, acts).batcher.worker.Exited? ==> After(y, acts).batcher.stopClosed
    decreases |acts|
  {
    if acts != [] {
      WorkerStays(Do(y, acts[0]), acts[1..]);
    }
  }

  /** Nothing accepted is stuck: from any run that has started the worker and not
      signalled stop, worker steps alone flush every result put with room. */
  lemma AcceptedCanBeFlushed(size: nat, before: seq<Action>) returns (acts: seq<Action>)
    requires 0 < size && ValidRun(Initial(size), before)
    requires OnBatcher(StartWorker) in before && SignalStop !in before
    ensures var y := After(Initial(size), before);
      ValidRun(y, acts) && WorkerOnly(acts) && Concat(After(y, acts).batcher.flushed) == PutWithRoom(Initial(size), before)
  {
    InitialInv(size);
    RunKeeps(Initial(size), before);
    AcceptedFollow(Initial(size), before);
    FlagsFollow(Initial(size), before);
    WorkerStays(Initial(size), before);
    acts := WorkerDrains(After(Initial(size), before));
    assert [] + PutWithRoom(Initial(size), before) == PutWithRoom(Initial(size), before);
  }

  // ----- how batches are cut

  /** How many queued results the batch at hand still takes. */
  function Takes(b: Batcher): (n: nat)
    requires |b.batch| <= 256
    ensures n <= |b.queue|
  {
    if |b.batch| + |b.queue| < 256 then |b.queue| else 256 - |b.batch|
  }

  /** The batch at hand, filled up and flushed. */
  function Cut(b: Batcher): Batcher
    requires |b.batch| <= 256
  {
    b.(worker := AtGate, batch := [], flushed := b.flushed + [b.batch + b.queue[..Takes(b)]], queue := b.queue[Takes(b)..])
  }

  lemma FillKeepsCut(b: Batcher)
    requires b.worker.Filling? && |b.batch| < 256 && b.queue != []
    ensures BatcherEnabled(b, Fill) && Cut(BatcherDo(b, Fill)) == Cut(b)
  {
    var n := Takes(b);
    assert (b.batch + [b.queue[0]]) + b.queue[1..][..n - 1] == b.batch + b.queue[..n];
    assert b.queue[1..][n - 1..] == b.queue[n..];
  }

  lemma FullIsCut(y: Sys)
    requires y.batcher.worker.Filling? && |y.batcher.batch| <= 256 && (|y.batcher.batch| == 256 || y.batcher.queue == [])
    ensures var acts := [OnBatcher(FillDone)] + ([OnBatcher(FlushDone)] + []);
      ValidRun(y, acts) && After(y, acts).batcher == Cut(y.batcher)
  {
    var y1 := Do(y, OnBatcher(FillDone));
    Then(y1, OnBatcher(FlushDone), []);
    Then(y, OnBatcher(FillDone), [OnBatcher(FlushDone)] + []);
    assert y.batcher.batch + y.batcher.queue[..0] == y.batcher.batch && y.batcher.queue[0..] == y.batcher.queue;
  }

  /** A worker filling its batch takes results until it has 256 of them or the
      queue is empty, and flushes them as one batch. */
  lemma {:induction false} FillsUp(y: Sys) returns (acts: seq<Action>)
    requires y.batcher.worker.Filling? && |y.batcher.batch| <= 256
    ensures ValidRun(y, acts) && WorkerOnly(acts) && After(y, acts).batcher == Cut(y.batcher)
    decreases |y.batcher.queue|
  {
    if |y.batcher.batch| < 256 && y.batcher.queue != [] {
      FillKeepsCut(y.batcher);
      var rest := FillsUp(Do(y, OnBatcher(Fill)));
      Then(y, OnBatcher(Fill), rest);
      acts := [OnBatcher(Fill)] + rest;
    } else {
      FullIsCut(y);
      acts := [OnBatcher(FillDone)] + ([OnBatcher(FlushDone)] + []);
    }
  }

  /** A batch is handed over with fewer than 256 results only when the queue had
      no more. */
  lemma BatchIsFull(y: Sys)
    requires Fifo(y.batcher) && Enabled(y, OnBatcher(FillDone))
    ensures |y.batcher.batch| == 256 || (|y.batcher.batch| < 256 && y.batcher.queue == [])
  {
  }

  // ----- the pool left to itself

  ghost predicate PoolOnly(acts: seq<Action>) {
    forall a :: a in acts ==> a.OnPool? && !a.pool.Submit?
  }

  function JobsAhead(p: Pool): int { 2 * (p.jobs - p.taken) + |p.running| + |p.alive| }

  lemma OneLess(m: map<nat, nat>, w: nat)
    requires w in m
    ensures |m - {w}| == |m| - 1
  {
    assert (m - {w}).Keys == m.Keys - {w};
    assert |m| == |m.Keys| && |m - {w}| == |(m - {w}).Keys|;
  }

  lemma OneMore(m: map<nat, nat>, w: nat, j: nat)
    requires w !in m
    ensures |m[w := j]| == |m| + 1
  {
    assert m[w := j].Keys == m.Keys + {w};
    assert |m| == |m.Keys| && |m[w := j]| == |m[w := j].Keys|;
  }

  /** With the queue closed some worker has a step to take until all have left. */
  lemma PoolStepOn(p: Pool) returns (a: PoolStep)
    requires JobsConserved(p) && p.closed && p.alive != {}
    ensures !a.Submit? && !a.CloseQueue? && PoolEnabled(p, a)
    ensures 0 <= JobsAhead(PoolDo(p, a)) < JobsAhead(p) && PoolDo(p, a).closed && PoolDo(p, a).jobs == p.jobs
  {
    if w :| w in p.running {
      OneLess(p.running, w);
      a := FinishJob(w);
    } else if p.taken < p.jobs {
      var w :| w in p.alive;
      OneMore(p.running, w, p.taken);
      a := TakeJob(w);
    } else {
      var w :| w in p.alive;
      a := ExitWorker(w);
    }
  }

  /** Draining can succeed: from any run that has closed the queue, the workers
      alone finish every accepted job and leave. */
  lemma {:induction false} PoolDrains(y: Sys) returns (acts: seq<Action>)
    requires Inv(y) && y.pool.closed
    ensures ValidRun(y, acts) && PoolOnly(acts)
    ensures var y' := After(y, acts);
      && y'.pool.alive == {} && y'.pool.jobs == y.pool.jobs && AllJobsDone(y'.pool) && y'.main == y.main
      && y'.shutdown == y.shutdown && y'.jobDrainFailed == y.jobDrainFailed && y'.closes == y.closes
    decreases JobsAhead(y.pool)
  {
    acts := [];
    if y.pool.alive == {} {
      DoneIsDone(y.pool);
    } else {
      var step := PoolStepOn(y.pool);
      var a := OnPool(step);
      StepKeeps(y, a);
      var rest := PoolDrains(Do(y, a));
      Then(y, a, rest);
      acts := [a] + rest;
    }
  }

  /** So RunAndDrain can return clean from wherever its drain has begun. */
  lemma DrainCanSucceed(size: nat, before: seq<Action>) returns (acts: seq<Action>)
    requires 0 < size && ValidRun(Initial(size), before) && After(Initial(size), before).main.Draining?
    ensures var y := After(Initial(size), before);
      ValidRun(y, acts) && PoolOnly(acts) && Enabled(After(y, acts), DrainReturns(true)) && AllJobsDone(After(y, acts).pool)
  {
    InitialInv(size);
    RunKeeps(Initial(size), before);
    ClosedWhileDraining(Initial(size), before);
    acts := PoolDrains(After(Initial(size), before));
  }

  lemma {:induction false} ClosedWhileDraining(y: Sys, acts: seq<Action>)
    requires ValidRun(y, acts) && (y.main.Draining? ==> y.pool.closed)
    ensures After(y, acts).main.Draining? ==> After(y, acts).pool.closed
    decreases |acts|
  {
    if acts != [] {
      ClosedWhileDraining(Do(y, acts[0]), acts[1..]);
    }
  }

  /** An ordinary end: while the server serves and no shutdown has begun, the main
      goroutine can drain the pool and release the mapping behind the last job. */
  lemma OrdinaryEnd(size: nat, before: seq<Action>) returns (acts: seq<Action>)
    requires 0 < size && ValidRun(Initial(size), before)
    requires After(Initial(size), before).main.Serving? && After(Initial(size), before).shutdown.Open?
    ensures ValidRun(After(Initial(size), before), acts)
    ensures var y := After(After(Initial(size), before), acts); y.closes == 1 && y.who == Main && AllJobsDone(y.pool)
  {
    var y0 := After(Initial(size), before);
    InitialInv(size);
    RunKeeps(Initial(size), before);
    StepKeeps(y0, WaitReturns);
    var y1 := Do(y0, WaitReturns);
    StepKeeps(y1, CloseJobs);
    var y2 := Do(y1, CloseJobs);
    var drain := PoolDrains(y2);
    RunKeeps(y2, drain);
    var end := ReleaseDrained(After(y2, drain));
    RunOn(y2, drain, end);
    Then(y1, CloseJobs, drain + end);
    Then(y0, WaitReturns, [CloseJobs] + (drain + end));
    acts := [WaitReturns] + ([CloseJobs] + (drain + end));
  }

  lemma ReleaseDrained(y: Sys) returns (acts: seq<Action>)
    requires Inv(y) && y.main.Draining? && y.pool.alive == {} && y.shutdown.Open? && AllJobsDone(y.pool)
    ensures ValidRun(y, acts)
    ensures After(y, acts).closes == 1 && After(y, acts).who == Main && AllJobsDone(After(y, acts).pool)
  {
    StepKeeps(y, DrainReturns(true));
    var y1 := Do(y, DrainReturns(true));
    StepKeeps(y1, EnterShutdown(Main));
    var rest := Finishes(Do(y1, EnterShutdown(Main)));
    Then(y1, EnterShutdown(Main), rest);
    Then(y, DrainReturns(true), [EnterShutdown(Main)] + rest);
    acts := [DrainReturns(true)] + ([EnterShutdown(Main)] + rest);
  }
}
