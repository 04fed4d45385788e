/** The guest-to-host send paths against the teardown that unmaps shared memory
    under them: RtdManager's send gate, the async batch worker, the job pool, the
    lifecycle's drains and the server's main goroutine, one atomic step at a time. */
module Teardown {

  const QUEUE_CAP := 1024
  const MAX_BATCH := 256

  type Result = int

  // ----- RtdManager's gate

  /** senders holds each goroutine between beginSend(s) and endSend(s), with the
      sends it registered; sendWG is their sum. */
  datatype Rtd = Rtd(stopped: bool, connected: bool, senders: map<nat, nat>)

  datatype RtdStep = SetClient(connected: bool) | BeginSends(g: nat, n: nat) | EndSends(g: nat) | LatchStopped

  predicate RtdEnabled(x: Rtd, a: RtdStep) {
    match a
    case BeginSends(g, n) => g !in x.senders && n > 0 && !x.stopped && x.connected
    case EndSends(g) => g in x.senders
    case _ => true
  }

  function RtdDo(x: Rtd, a: RtdStep): Rtd {
    match a
    case SetClient(c) => x.(connected := c)
    case BeginSends(g, n) => x.(senders := x.senders[g := n])
    case EndSends(g) => x.(senders := x.senders - {g})
    case LatchStopped => x.(stopped := true)
  }

  predicate RtdQuiet(x: Rtd) { x.stopped && x.senders == map[] }

  /** Once the gate is latched and the count has fallen to zero it stays there. */
  lemma RtdStaysQuiet(x: Rtd, a: RtdStep)
    requires RtdEnabled(x, a)
    ensures RtdQuiet(x) ==> RtdQuiet(RtdDo(x, a))
    ensures x.stopped ==> RtdDo(x, a).stopped
  {
  }

  // ----- the async batch worker

  datatype Worker =
    | NotStarted
    | Launching  // started is set, the goroutine not yet running
    | AtGate     // before the non-blocking check of stop
    | Waiting    // in the blocking select
    | Filling
    | Flushing   // inside flushFunc, may be inside SendGuestCall
    | Exited

  /** passed holds callers of QueueResult between the stopped check and the send
      on the channel. */
  datatype Batcher = Batcher(
    gateLatched: bool, stopClosed: bool, started: bool, worker: Worker, passed: set<nat>,
    queue: seq<Result>, batch: seq<Result>, flushed: seq<seq<Result>>, accepted: seq<Result>)

  datatype BatcherStep =
    | QueueCheck(g: nat)
    | QueuePut(g: nat, r: Result)
    | StartWorker
    | Launch
    | CheckGate
    | Receive
    | SeeStop
    | Fill
    | FillDone
    | FlushDone
    | LatchGate
    | CloseStop

  predicate BatcherEnabled(b: Batcher, a: BatcherStep) {
    match a
    case QueueCheck(g) => g !in b.passed && !b.gateLatched
    case QueuePut(g, _) => g in b.passed
    case StartWorker => b.worker.NotStarted?
    case Launch => b.worker.Launching?
    case CheckGate => b.worker.AtGate?
    case Receive => b.worker.Waiting? && b.queue != []
    case SeeStop => b.worker.Waiting? && b.stopClosed
    case Fill => b.worker.Filling? && |b.batch| < MAX_BATCH && b.queue != []
    case FillDone => b.worker.Filling? && (|b.batch| == MAX_BATCH || b.queue == [])
    case FlushDone => b.worker.Flushing?
    case LatchGate => true
    case CloseStop => true
  }

  function BatcherDo(b: Batcher, a: BatcherStep): Batcher
    requires BatcherEnabled(b, a)
  {
    match a
    case QueueCheck(g) => b.(passed := b.passed + {g})
    case QueuePut(g, r) =>
      if |b.queue| < QUEUE_CAP
      then b.(passed := b.passed - {g}, queue := b.queue + [r], accepted := b.accepted + [r])
      else b.(passed := b.passed - {g})
    case StartWorker => b.(started := true, worker := Launching)
    case Launch => b.(worker := AtGate)
    case CheckGate => b.(worker := if b.stopClosed then Exited else Waiting)
    case Receive => b.(worker := Filling, batch := [b.queue[0]], queue := b.queue[1..])
    case SeeStop => b.(worker := Exited)
    case Fill => b.(batch := b.batch + [b.queue[0]], queue := b.queue[1..])
    case FillDone => b.(worker := Flushing)
    case FlushDone => b.(worker := AtGate, flushed := b.flushed + [b.batch], batch := [])
    case LatchGate => b.(gateLatched := true)
    case CloseStop => b.(stopClosed := true)
  }

  /** No flush is under way and none can start. */
  predicate BatcherQuiet(b: Batcher) {
    b.stopClosed && (b.worker.NotStarted? || b.worker.Launching? || b.worker.AtGate? || b.worker.Exited?)
  }

  lemma BatcherStaysQuiet(b: Batcher, a: BatcherStep)
    requires BatcherEnabled(b, a) && (b.started <==> !b.worker.NotStarted?)
    ensures BatcherQuiet(b) ==> BatcherQuiet(BatcherDo(b, a))
    ensures b.stopClosed ==> BatcherDo(b, a).stopClosed
    ensures BatcherDo(b, a).started <==> !BatcherDo(b, a).worker.NotStarted?
  {
  }

  function Concat(bs: seq<seq<Result>>): seq<Result> {
    if bs == [] then [] else Concat(bs[..|bs| - 1]) + bs[|bs| - 1]
  }

  /** Accepted results sit, in order, in the flushed batches, the batch at hand
      and the queue. */
  predicate Fifo(b: Batcher) {
    && b.accepted == Concat(b.flushed) + b.batch + b.queue
    && |b.queue| <= QUEUE_CAP
    && (forall f :: f in b.flushed ==> 1 <= |f| <= MAX_BATCH)
    && (if b.worker.Filling? || b.worker.Flushing? then 1 <= |b.batch| <= MAX_BATCH else b.batch == [])
  }

  /** Moving the first of the queue to the end of the batch keeps the order. */
  lemma Shift(done: seq<Result>, batch: seq<Result>, queue: seq<Result>)
    requires queue != []
    ensures done + (batch + [queue[0]]) + queue[1..] == done + batch + queue
  {
  }

  lemma ConcatOne(bs: seq<seq<Result>>, b: seq<Result>)
    ensures Concat(bs + [b]) == Concat(bs) + b
  {
    assert (bs + [b])[..|bs|] == bs;
  }

  lemma FifoKept(b: Batcher, a: BatcherStep)
    requires Fifo(b) && BatcherEnabled(b, a)
    ensures Fifo(BatcherDo(b, a))
  {
    match a
    case Receive =>
      Shift(Concat(b.flushed), [], b.queue);
      assert b.batch + [b.queue[0]] == [b.queue[0]];
    case Fill => Shift(Concat(b.flushed), b.batch, b.queue);
    case FlushDone =>
      ConcatOne(b.flushed, b.batch);
      assert Concat(b.flushed) + b.batch + [] == Concat(b.flushed) + b.batch;
    case QueuePut(_, r) =>
      assert b.accepted + [r] == Concat(b.flushed) + b.batch + (b.queue + [r]);
    case _ =>
  }

  // ----- the job pool

  /** Jobs are numbered as they are accepted; the channel holds [taken, jobs). */
  datatype Pool = Pool(size: nat, jobs: nat, taken: nat, closed: bool, alive: set<nat>,
                       running: map<nat, nat>, finished: set<nat>)

  datatype PoolStep = Submit | TakeJob(w: nat) | FinishJob(w: nat) | ExitWorker(w: nat) | CloseQueue

  predicate PoolEnabled(p: Pool, a: PoolStep) {
    match a
    case Submit => !p.closed && p.jobs - p.taken < p.size
    case TakeJob(w) => w in p.alive && w !in p.running && p.taken < p.jobs
    case FinishJob(w) => w in p.running
    case ExitWorker(w) => w in p.alive && w !in p.running && p.closed && p.taken == p.jobs
    case CloseQueue => true
  }

  function PoolDo(p: Pool, a: PoolStep): Pool
    requires PoolEnabled(p, a)
  {
    match a
    case Submit => p.(jobs := p.jobs + 1)
    case TakeJob(w) => p.(running := p.running[w := p.taken], taken := p.taken + 1)
    case FinishJob(w) => p.(finished := p.finished + {p.running[w]}, running := p.running - {w})
    case ExitWorker(w) => p.(alive := p.alive - {w})
    case CloseQueue => p.(closed := true)
  }

  ghost predicate RunsOn(p: Pool, j: nat) { exists w :: w in p.running && p.running[w] == j }

  /** Each accepted job is queued, running on one worker, or finished; a worker
      leaves only a closed, empty queue. */
  ghost predicate JobsConserved(p: Pool) {
    && 0 < p.size && p.taken <= p.jobs && p.running.Keys <= p.alive
    && (forall j :: j in p.finished ==> j < p.taken && !RunsOn(p, j))
    && (forall j: nat :: j < p.taken && j !in p.finished ==> RunsOn(p, j))
    && (forall w :: w in p.running ==> p.running[w] < p.taken)
    && (forall w, v :: w in p.running && v in p.running && w != v ==> p.running[w] != p.running[v])
    && (0 in p.alive || (p.closed && p.taken == p.jobs))
  }

  lemma JobsKept(p: Pool, a: PoolStep)
    requires JobsConserved(p) && PoolEnabled(p, a)
    ensures JobsConserved(PoolDo(p, a))
  {
    match a
    case TakeJob(w) => TakeKept(p, w);
    case FinishJob(w) => FinishKept(p, w);
    case _ =>
      assert forall j :: RunsOn(PoolDo(p, a), j) <==> RunsOn(p, j);
  }

  lemma TakeKept(p: Pool, w: nat)
    requires JobsConserved(p) && PoolEnabled(p, TakeJob(w))
    ensures JobsConserved(PoolDo(p, TakeJob(w)))
  {
    var p' := PoolDo(p, TakeJob(w));
    assert p'.running[w] == p.taken;
    forall j ensures RunsOn(p', j) <==> RunsOn(p, j) || j == p.taken {
      if RunsOn(p, j) {
        var v :| v in p.running && p.running[v] == j;
        assert p'.running[v] == j;
      }
    }
  }

  lemma FinishKept(p: Pool, w: nat)
    requires JobsConserved(p) && PoolEnabled(p, FinishJob(w))
    ensures JobsConserved(PoolDo(p, FinishJob(w)))
  {
    var p' := PoolDo(p, FinishJob(w));
    forall j ensures RunsOn(p', j) <==> RunsOn(p, j) && j != p.running[w] {
      if RunsOn(p, j) && j != p.running[w] {
        var v :| v in p.running && p.running[v] == j;
        assert v in p'.running && p'.running[v] == j;
      }
    }
  }

  /** When every worker has left, every accepted job has finished. */
  lemma DoneIsDone(p: Pool)
    requires JobsConserved(p) && p.alive == {}
    ensures p.running == map[] && p.closed && forall j: nat :: j < p.jobs <==> j in p.finished
  {
    assert p.running.Keys == {};
  }

  // ----- run, lifecycle, and everything together

  datatype MainPc =
    | Starting
    | Serving      // shm's workers dispatch, and only they submit jobs
    | Waited       // client.Wait returned
    | Draining     // Drain has closed the queue
    | DrainFailed  // before MarkJobDrainFailed
    | Returned     // RunAndDrain is over, deferred ShutdownAndClose next

  /** Where the one execution of once.Do stands; the drains' verdict travels along. */
  datatype Shutdown =
    | Open
    | Begun
    | Signalled
    | GateLatched
    | StopSent
    | AsyncDrained(ok: bool)
    | RtdLatched(ok: bool)
    | RtdDrained(ok: bool)
    | Decided(unmap: bool)
    | Over

  datatype Who = Nobody | Main | Watcher

  datatype Sys = Sys(rtd: Rtd, batcher: Batcher, pool: Pool, main: MainPc, jobDrainFailed: bool,
                     shutdown: Shutdown, who: Who, closes: nat)

  datatype Action =
    | OnRtd(rtd: RtdStep)
    | OnBatcher(batcher: BatcherStep)
    | OnPool(pool: PoolStep)
    | StartServing(ok: bool)
    | WaitReturns
    | CloseJobs
    | DrainReturns(ok: bool)
    | MarkFailed
    | EnterShutdown(who: Who)
    | CloseDone
    | LatchAsync
    | SignalStop
    | AsyncReturns(ok: bool)
    | LatchRtd
    | RtdReturns(ok: bool)
    | Decide
    | Unmap

  predicate Enabled(y: Sys, a: Action) {
    match a
    case OnRtd(r) => !r.LatchStopped? && RtdEnabled(y.rtd, r)
    case OnBatcher(b) => !b.LatchGate? && !b.CloseStop? && BatcherEnabled(y.batcher, b)
    case OnPool(p) => !p.CloseQueue? && (p.Submit? ==> y.main.Serving?) && PoolEnabled(y.pool, p)
    case StartServing(_) => y.main.Starting?
    case WaitReturns => y.main.Serving?
    case CloseJobs => y.main.Waited?
    case DrainReturns(ok) => y.main.Draining? && (ok ==> y.pool.alive == {})
    case MarkFailed => y.main.DrainFailed?
    case EnterShutdown(who) => y.shutdown.Open? && !who.Nobody? && (who.Main? ==> y.main.Returned?)
    case CloseDone => y.shutdown.Begun?
    case LatchAsync => y.shutdown.Signalled?
    case SignalStop => y.shutdown.GateLatched?
    case AsyncReturns(ok) =>
      y.shutdown.StopSent? && (if ok then !y.batcher.started || y.batcher.worker.Exited? else y.batcher.started)
    case LatchRtd => y.shutdown.AsyncDrained?
    case RtdReturns(ok) => y.shutdown.RtdLatched? && (ok ==> y.rtd.senders == map[])
    case Decide => y.shutdown.RtdDrained?
    case Unmap => y.shutdown.Decided?
  }

  function Do(y: Sys, a: Action): Sys
    requires Enabled(y, a)
  {
    match a
    case OnRtd(r) => y.(rtd := RtdDo(y.rtd, r))
    case OnBatcher(b) => y.(batcher := BatcherDo(y.batcher, b))
    case OnPool(p) => y.(pool := PoolDo(y.pool, p))
    case StartServing(ok) => y.(main := if ok then Serving else Returned)
    case WaitReturns => y.(main := Waited)
    case CloseJobs => y.(main := Draining, pool := PoolDo(y.pool, CloseQueue))
    case DrainReturns(ok) => y.(main := if ok then Returned else DrainFailed)
    case MarkFailed => y.(main := Returned, jobDrainFailed := true)
    case EnterShutdown(who) => y.(shutdown := Begun, who := who)
    case CloseDone => y.(shutdown := Signalled)
    case LatchAsync => y.(shutdown := GateLatched, batcher := BatcherDo(y.batcher, LatchGate))
    case SignalStop => y.(shutdown := StopSent, batcher := BatcherDo(y.batcher, CloseStop))
    case AsyncReturns(ok) => y.(shutdown := AsyncDrained(ok))
    case LatchRtd => y.(shutdown := RtdLatched(y.shutdown.ok), rtd := RtdDo(y.rtd, LatchStopped))
    case RtdReturns(ok) => y.(shutdown := RtdDrained(y.shutdown.ok && ok))
    case Decide => y.(shutdown := Decided(y.shutdown.ok && !y.jobDrainFailed))
    case Unmap => y.(shutdown := Over, closes := if y.shutdown.unmap then y.closes + 1 else y.closes)
  }

  function Workers(n: nat): (s: set<nat>)
    ensures forall w: nat :: w in s <==> w < n
  {
    if n == 0 then {} else Workers(n - 1) + {n - 1}
  }

  /** NewJobPool starts at least one worker. */
  function Initial(size: nat): Sys {
    Sys(Rtd(false, false, map[]),
        Batcher(false, false, false, NotStarted, {}, [], [], [], []),
        Pool(size, 0, 0, false, Workers(size), map[], {}),
        Starting, false, Open, Nobody, 0)
  }

  /** What the shutdown has established so far about the two send paths. */
  predicate Gates(y: Sys) {
    && (y.batcher.started <==> !y.batcher.worker.NotStarted?)
    && (y.shutdown.StopSent? ==> y.batcher.stopClosed)
    && (y.shutdown.AsyncDrained? && y.shutdown.ok ==> BatcherQuiet(y.batcher))
    && (y.shutdown.RtdLatched? ==> y.rtd.stopped && (y.shutdown.ok ==> BatcherQuiet(y.batcher)))
    && (y.shutdown.RtdDrained? && y.shutdown.ok ==> BatcherQuiet(y.batcher) && RtdQuiet(y.rtd))
    && (y.shutdown.Decided? && y.shutdown.unmap ==> BatcherQuiet(y.batcher) && RtdQuiet(y.rtd))
    && (y.closes > 0 ==> y.closes == 1 && y.shutdown.Over? && BatcherQuiet(y.batcher) && RtdQuiet(y.rtd))
  }

  lemma GatesKept(y: Sys, a: Action)
    requires Gates(y) && Enabled(y, a)
    ensures Gates(Do(y, a))
  {
    match a
    case OnRtd(r) => RtdStaysQuiet(y.rtd, r);
    case OnBatcher(b) => BatcherStaysQuiet(y.batcher, b);
    case _ =>
  }

  ghost predicate AllJobsDone(p: Pool) { p.running == map[] && forall j: nat :: j < p.jobs ==> j in p.finished }

  /** RunAndDrain returns clean only behind the last job. */
  ghost predicate DrainHonest(y: Sys) {
    && JobsConserved(y.pool)
    && (y.main.Starting? ==> y.pool.jobs == 0)
    && (y.main.Starting? || y.main.Serving? || y.main.Waited? ==> !y.pool.closed)
    && (y.main.Returned? && !y.jobDrainFailed ==> AllJobsDone(y.pool))
    && (y.jobDrainFailed ==> y.main.Returned?)
    && (y.who.Main? ==> y.main.Returned?)
    && (y.who.Nobody? <==> y.shutdown.Open?)
    && (y.closes > 0 ==> y.shutdown.Over?)
    && (y.who.Main? && ((y.shutdown.Decided? && y.shutdown.unmap) || y.closes > 0) ==> !y.jobDrainFailed)
  }

  lemma DrainKept(y: Sys, a: Action)
    requires DrainHonest(y) && Enabled(y, a)
    ensures DrainHonest(Do(y, a))
  {
    match a
    case OnPool(p) =>
      JobsKept(y.pool, p);
      if y.main.Returned? && !y.jobDrainFailed {
        DoneStays(y.pool, p);
      }
    case CloseJobs => JobsKept(y.pool, CloseQueue);
    case StartServing(ok) => NoJobsDone(y.pool);
    case DrainReturns(ok) => if ok { DoneIsDone(y.pool); }
    case _ =>
  }

  lemma NoJobsDone(p: Pool)
    requires JobsConserved(p)
    ensures p.jobs == 0 ==> AllJobsDone(p)
  {
    if p.jobs == 0 {
      assert forall w :: w !in p.running;
    }
  }

  lemma DoneStays(p: Pool, a: PoolStep)
    requires JobsConserved(p) && PoolEnabled(p, a) && AllJobsDone(p) && !a.Submit?
    ensures AllJobsDone(PoolDo(p, a))
  {
    assert p.taken < p.jobs ==> p.taken in p.finished;
  }

  ghost predicate Inv(y: Sys) { Gates(y) && DrainHonest(y) && Fifo(y.batcher) }

  lemma StepKeeps(y: Sys, a: Action)
    requires Inv(y) && Enabled(y, a)
    ensures Inv(Do(y, a))
  {
    GatesKept(y, a);
    DrainKept(y, a);
    match a
    case OnBatcher(b) => FifoKept(y.batcher, b);
    case LatchAsync => FifoKept(y.batcher, LatchGate);
    case SignalStop => FifoKept(y.batcher, CloseStop);
    case _ =>
  }

  predicate ValidRun(y: Sys, acts: seq<Action>)
    decreases |acts|
  {
    acts == [] || (Enabled(y, acts[0]) && ValidRun(Do(y, acts[0]), acts[1..]))
  }

  function After(y: Sys, acts: seq<Action>): Sys
    requires ValidRun(y, acts)
    decreases |acts|
  {
    if acts == [] then y else After(Do(y, acts[0]), acts[1..])
  }

  lemma {:induction false} RunKeeps(y: Sys, acts: seq<Action>)
    requires Inv(y) && ValidRun(y, acts)
    ensures Inv(After(y, acts))
    decreases |acts|
  {
    if acts != [] {
      StepKeeps(y, acts[0]);
      RunKeeps(Do(y, acts[0]), acts[1..]);
    }
  }

  lemma InitialInv(size: nat)
    requires 0 < size
    ensures Inv(Initial(size))
  {
    assert 0 in Workers(size);
  }

  /** In every interleaving the mapping is released at most once, and from that
      moment on no RTD send is in flight, no flush is, and none of either starts;
      a release by the main goroutine also finds every accepted job finished. */
  lemma NoUnmapUnderASender(size: nat, acts: seq<Action>)
    requires 0 < size && ValidRun(Initial(size), acts)
    ensures var y := After(Initial(size), acts);
      && y.closes <= 1
      && (y.closes == 1 ==> y.rtd.senders == map[] && !y.batcher.worker.Flushing?)
      && (y.closes == 1 && y.who == Main ==> AllJobsDone(y.pool))
      && (y.closes == 1 ==> forall g, n :: !Enabled(y, OnRtd(BeginSends(g, n))))
      && (y.closes == 1 ==> !Enabled(y, OnBatcher(FillDone)))
  {
    InitialInv(size);
    RunKeeps(Initial(size), acts);
  }

  /** Nothing accepted is lost or reordered on the way to a flush, and every job
      taken has its one run. */
  lemma WorkIsConserved(size: nat, acts: seq<Action>)
    requires 0 < size && ValidRun(Initial(size), acts)
    ensures var y := After(Initial(size), acts);
      && Concat(y.batcher.flushed) + y.batcher.batch + y.batcher.queue == y.batcher.accepted
      && (forall f :: f in y.batcher.flushed ==> 1 <= |f| <= MAX_BATCH)
      && (y.batcher.worker.Exited? || y.batcher.worker.AtGate? ==> y.batcher.batch == [])
      && (forall j: nat :: j < y.pool.taken ==> (j in y.pool.finished <==> !RunsOn(y.pool, j)))
      && (y.main.Returned? && !y.jobDrainFailed ==> AllJobsDone(y.pool))
  {
    InitialInv(size);
    RunKeeps(Initial(size), acts);
  }

  lemma Then(y: Sys, a: Action, rest: seq<Action>)
    requires Enabled(y, a) && ValidRun(Do(y, a), rest)
    ensures ValidRun(y, [a] + rest) && After(y, [a] + rest) == After(Do(y, a), rest)
  {
    assert ([a] + rest)[1..] == rest;
  }

  // ----- exactly when the release is behind the last job

  /** A step of the worker on its way out, once stop is closed. */
  function WayOut(b: Batcher): BatcherStep
    requires !b.worker.NotStarted? && !b.worker.Exited?
  {
    match b.worker
    case Launching => Launch
    case AtGate => CheckGate
    case Waiting => SeeStop
    case Filling => if |b.batch| < MAX_BATCH && b.queue != [] then Fill else FillDone
    case Flushing => FlushDone
  }

  function StepsOut(b: Batcher): nat {
    match b.worker
    case Filling => if |b.batch| < MAX_BATCH then 3 + MAX_BATCH - |b.batch| else 3
    case Launching => 2
    case Flushing => 2
    case AtGate => 1
    case Waiting => 1
    case _ => 0
  }

  lemma WorkerLeaves(b: Batcher)
    requires Fifo(b) && b.stopClosed && !b.worker.NotStarted? && !b.worker.Exited?
    ensures BatcherEnabled(b, WayOut(b)) && StepsOut(BatcherDo(b, WayOut(b))) < StepsOut(b)
    ensures !WayOut(b).LatchGate? && !WayOut(b).CloseStop?
  {
  }

  function StageLeft(y: Sys): nat {
    match y.shutdown
    case Open => 9
    case Begun => 8
    case Signalled => 7
    case GateLatched => 6
    case StopSent => 5
    case AsyncDrained(_) => 4
    case RtdLatched(_) => 3
    case RtdDrained(_) => 2
    case Decided(_) => 1
    case Over => 0
  }

  /** The drains so far have succeeded and no job drain has failed. */
  predicate OnCourse(y: Sys) {
    && !y.shutdown.Open? && !y.shutdown.Over? && !y.jobDrainFailed
    && (y.shutdown.AsyncDrained? || y.shutdown.RtdLatched? || y.shutdown.RtdDrained? ==> y.shutdown.ok)
    && (y.shutdown.Decided? ==> y.shutdown.unmap)
  }

  function WorkLeft(y: Sys): nat { StepsOut(y.batcher) + |y.rtd.senders| }

  /** a takes a shutdown on course a step nearer the release. */
  ghost predicate Nearer(y: Sys, a: Action) {
    && Enabled(y, a)
    && var y' := Do(y, a);
      && y'.pool == y.pool && y'.who == y.who && !y'.jobDrainFailed
      && (a == Unmap <==> y.shutdown.Decided?)
      && (if a == Unmap then y'.closes == y.closes + 1 else OnCourse(y') && y'.closes == y.closes)
      && (StageLeft(y') < StageLeft(y) || (StageLeft(y') == StageLeft(y) && WorkLeft(y') < WorkLeft(y)))
  }

  lemma WorkerStepsOut(y: Sys)
    requires Inv(y) && OnCourse(y) && y.shutdown.StopSent? && y.batcher.started && !y.batcher.worker.Exited?
    ensures Nearer(y, OnBatcher(WayOut(y.batcher)))
  {
    WorkerLeaves(y.batcher);
  }

  lemma SenderEnds(y: Sys, g: nat)
    requires OnCourse(y) && y.shutdown.RtdLatched? && g in y.rtd.senders
    ensures Nearer(y, OnRtd(EndSends(g)))
  {
    FewerSenders(y.rtd.senders, g);
  }

  lemma OneStepOn(y: Sys) returns (a: Action)
    requires Inv(y) && OnCourse(y)
    ensures Nearer(y, a)
  {
    match y.shutdown
    case Begun => a := CloseDone;
    case Signalled => a := LatchAsync;
    case GateLatched => a := SignalStop;
    case StopSent =>
      if !y.batcher.started || y.batcher.worker.Exited? {
        a := AsyncReturns(true);
      } else {
        a := OnBatcher(WayOut(y.batcher));
        WorkerStepsOut(y);
      }
    case AsyncDrained(_) => a := LatchRtd;
    case RtdLatched(_) =>
      if y.rtd.senders == map[] {
        a := RtdReturns(true);
      } else {
        var g :| g in y.rtd.senders;
        a := OnRtd(EndSends(g));
        SenderEnds(y, g);
      }
    case RtdDrained(_) => a := Decide;
    case Decided(_) => a := Unmap;
  }

  lemma FewerSenders(senders: map<nat, nat>, g: nat)
    requires g in senders
    ensures |senders - {g}| < |senders|
  {
    assert (senders - {g}).Keys == senders.Keys - {g};
    assert |senders| == |senders.Keys| && |senders - {g}| == |(senders - {g}).Keys|;
  }

  /** Left to itself, a shutdown on course ends in the release. */
  lemma {:induction false} Finishes(y: Sys) returns (acts: seq<Action>)
    requires Inv(y) && OnCourse(y)
    ensures ValidRun(y, acts) && acts != [] && acts[|acts| - 1] == Unmap
    ensures var y' := After(y, acts); y'.closes == y.closes + 1 && y'.who == y.who && y'.pool == y.pool
    decreases StageLeft(y), WorkLeft(y)
  {
    var a := OneStepOn(y);
    var rest := [];
    if a != Unmap {
      StepKeeps(y, a);
      rest := Finishes(Do(y, a));
    }
    Then(y, a, rest);
    acts := [a] + rest;
  }

  /** No job is queued or running, and none can be accepted any more. */
  ghost predicate LastJobDone(y: Sys) { AllJobsDone(y.pool) && !y.main.Starting? && !y.main.Serving? }

  /** The release, if it comes, comes behind the last job. */
  ghost predicate Settled(y: Sys) {
    LastJobDone(y) || (y.jobDrainFailed && y.closes == 0 && !(y.shutdown.Decided? && y.shutdown.unmap))
  }

  lemma SettledStays(y: Sys, a: Action)
    requires Inv(y) && Settled(y) && Enabled(y, a)
    ensures Settled(Do(y, a))
  {
    if LastJobDone(y) && a.OnPool? {
      DoneStays(y.pool, a.pool);
    }
  }

  lemma {:induction false} SettledRun(y: Sys, acts: seq<Action>)
    requires Inv(y) && Settled(y) && ValidRun(y, acts)
    ensures Settled(After(y, acts))
    decreases |acts|
  {
    if acts != [] {
      StepKeeps(y, acts[0]);
      SettledStays(y, acts[0]);
      SettledRun(Do(y, acts[0]), acts[1..]);
    }
  }

  /** A job that the release does not wait for. */
  lemma OneMoreJob(y: Sys) returns (acts: seq<Action>)
    requires Inv(y) && !y.jobDrainFailed && !LastJobDone(y)
    ensures ValidRun(y, acts)
    ensures var y' := After(y, acts);
      && !AllJobsDone(y'.pool) && y'.shutdown == y.shutdown && y'.who == y.who && y'.closes == y.closes && !y'.jobDrainFailed
  {
    acts := [];
    if AllJobsDone(y.pool) {
      assert y.pool.taken == y.pool.jobs by {
        assert y.pool.taken < y.pool.jobs ==> y.pool.taken in y.pool.finished;
      }
      var y1 := if y.main.Starting? then Do(y, StartServing(true)) else y;
      Then(y1, OnPool(Submit), []);
      acts := [OnPool(Submit)] + [];
      assert y.pool.jobs !in Do(y1, OnPool(Submit)).pool.finished;
      if y.main.Starting? {
        Then(y, StartServing(true), acts);
        acts := [StartServing(true)] + acts;
      }
    }
  }

  lemma {:induction false} RunOn(y: Sys, a: seq<Action>, b: seq<Action>)
    requires ValidRun(y, a) && ValidRun(After(y, a), b)
    ensures ValidRun(y, a + b) && After(y, a + b) == After(After(y, a), b)
    decreases |a|
  {
    if a == [] {
      assert a + b == b;
    } else {
      RunOn(Do(y, a[0]), a[1..], b);
      assert (a + b)[1..] == a[1..] + b;
    }
  }

  /** Unless it is settled, the shutdown can end with the release under a job. */
  lemma ReleaseUnderAJob(y: Sys, who: Who) returns (acts: seq<Action>)
    requires Inv(y) && Enabled(y, EnterShutdown(who)) && !Settled(Do(y, EnterShutdown(who)))
    ensures var y0 := Do(y, EnterShutdown(who));
      && ValidRun(y0, acts) && acts != [] && acts[|acts| - 1] == Unmap
      && After(y0, acts).closes == 1 && After(y0, acts).who == who && !AllJobsDone(After(y0, acts).pool)
  {
    var y0 := Do(y, EnterShutdown(who));
    StepKeeps(y, EnterShutdown(who));
    var first := OneMoreJob(y0);
    RunKeeps(y0, first);
    var rest := Finishes(After(y0, first));
    RunOn(y0, first, rest);
    acts := first + rest;
  }

  /** Wherever a shutdown begins, whoever begins it: every release it can end in
      has all accepted jobs behind it, then and ever after, if and only if by then
      the main goroutine has reported a failed drain, so that nothing is released,
      or has stopped serving and no accepted job is unfinished. */
  lemma ReleaseBehindJobsIff(size: nat, before: seq<Action>, who: Who)
    requires 0 < size && ValidRun(Initial(size), before)
    requires Enabled(After(Initial(size), before), EnterShutdown(who))
    ensures var y := After(Initial(size), before); var y0 := Do(y, EnterShutdown(who));
      (forall acts :: ValidRun(y0, acts) && After(y0, acts).closes == 1 ==> AllJobsDone(After(y0, acts).pool))
      <==> y.jobDrainFailed || LastJobDone(y)
  {
    var y := After(Initial(size), before);
    var y0 := Do(y, EnterShutdown(who));
    InitialInv(size);
    RunKeeps(Initial(size), before);
    StepKeeps(y, EnterShutdown(who));
    assert y.closes == 0;
    if Settled(y0) {
      forall acts | ValidRun(y0, acts) && After(y0, acts).closes == 1 ensures AllJobsDone(After(y0, acts).pool) {
        SettledRun(y0, acts);
      }
    } else {
      var acts := ReleaseUnderAJob(y, who);
    }
  }

  /** A served call has put a job on a worker when the watcher enters shutdown. */
  function UnderAJob(size: nat): Sys {
    Initial(size).(main := Serving, shutdown := Begun, who := Watcher,
                   pool := Pool(size, 1, 1, false, Workers(size), map[0 := 0], {}))
  }

  lemma ReachesUnderAJob(size: nat, rest: seq<Action>)
    requires 0 < size && ValidRun(UnderAJob(size), rest)
    ensures var start := [StartServing(true)] + ([OnPool(Submit)] + ([OnPool(TakeJob(0))] + ([EnterShutdown(Watcher)] + rest)));
      ValidRun(Initial(size), start) && After(Initial(size), start) == After(UnderAJob(size), rest)
  {
    var y1 := Do(Initial(size), StartServing(true));
    var y2 := Do(y1, OnPool(Submit));
    var y3 := Do(y2, OnPool(TakeJob(0)));
    assert Do(y3, EnterShutdown(Watcher)) == UnderAJob(size);
    Then(y3, EnterShutdown(Watcher), rest);
    Then(y2, OnPool(TakeJob(0)), [EnterShutdown(Watcher)] + rest);
    Then(y1, OnPool(Submit), [OnPool(TakeJob(0))] + ([EnterShutdown(Watcher)] + rest));
    Then(Initial(size), StartServing(true), [OnPool(Submit)] + ([OnPool(TakeJob(0))] + ([EnterShutdown(Watcher)] + rest)));
  }

  lemma UnderAJobInv(size: nat)
    requires 0 < size
    ensures Inv(UnderAJob(size))
  {
    var p := UnderAJob(size).pool;
    assert 0 in Workers(size) && p.running[0] == 0;
    assert RunsOn(p, 0);
  }

  /** The job half of the guarantee is the main path's alone: the parent-death
      watcher can release the mapping while a job is still running. */
  lemma WatcherMayUnmapUnderAJob(size: nat) returns (acts: seq<Action>)
    requires 0 < size
    ensures ValidRun(Initial(size), acts)
    ensures var y := After(Initial(size), acts);
      y.closes == 1 && y.who == Watcher && y.pool.running == map[0 := 0] && !AllJobsDone(y.pool)
  {
    UnderAJobInv(size);
    var rest := Finishes(UnderAJob(size));
    ReachesUnderAJob(size, rest);
    acts := [StartServing(true)] + ([OnPool(Submit)] + ([OnPool(TakeJob(0))] + ([EnterShutdown(Watcher)] + rest)));
    assert 0 in UnderAJob(size).pool.running;
  }
}
