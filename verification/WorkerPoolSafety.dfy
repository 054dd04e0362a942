/** What every interleaving of the worker pool keeps. */
module WorkerPoolSafety {
  import opened Options
  import opened Counting
  import opened WorkerPool

  function HoldsRead(m: Submit): nat {
    if m.pc.Locked? || m.pc.Polled? || m.pc.Waiting? || m.pc.Leaving? then 1 else 0
  }

  function InlineTask(m: Submit): nat {
    if m.stage.Spawned? || m.stage == Running(false) then 1 else 0
  }

  function WorkerTask(w: Worker): nat {
    if w.Launching? || w.Idle? || w.Busy? then 1 else 0
  }

  predicate InStartSection(pc: StartPc) { pc.StartLocked? || pc.StartPolled? }

  predicate StartInv(pc: StartPc, mine: bool, writer: Writer, stopped: bool) {
    && (mine <==> !pc.StartCalled? && !pc.Started?)
    && (InStartSection(pc) ==> writer == ByStart)
    && (pc.StartPolled? ==> !stopped)
  }

  predicate StopInv(pc: StopPc, mine: bool, writer: Writer, signal: bool, stopped: bool) {
    && (mine <==> pc.StopWantsLock? || pc.Closing?)
    && (pc.Closing? ==> writer == ByStop)
    && (!pc.StopCalled? ==> signal)
    && (pc.AwaitingTasks? || pc.StopReturned? ==> stopped)
  }

  /** Each Once is in progress in exactly one caller, and the writer is the caller in its critical section. */
  ghost predicate GateInv(g: Gate) {
    && (g.startOnce.InProgress? ==> g.startOnce.caller < |g.starts|)
    && (g.stopOnce.InProgress? ==> g.stopOnce.caller < |g.stops|)
    && (forall j :: 0 <= j < |g.starts| ==>
          StartInv(g.starts[j], g.startOnce == InProgress(j), g.writer, g.stopOnce.Done?))
    && (forall j :: 0 <= j < |g.stops| ==>
          StopInv(g.stops[j], g.stopOnce == InProgress(j), g.writer, g.stopSignal, g.stopOnce.Done?))
    && (g.writer == ByStart ==> g.startOnce.InProgress? && InStartSection(g.starts[g.startOnce.caller]))
    && (g.writer == ByStop ==> IsClosing(g))
    && (g.stopOnce != Fresh ==> g.stopSignal)
    && (g.stopOnce.Done? ==> !g.started)
    && (g.started ==> g.startOnce.Done? || IsSpawning(g))
    && (IsSpawning(g) && !g.stopOnce.Done? ==> g.started)
  }

  predicate IsClosing(g: Gate) {
    g.stopOnce.InProgress? && g.stopOnce.caller < |g.stops| && g.stops[g.stopOnce.caller].Closing?
  }

  predicate IsSpawning(g: Gate) {
    g.startOnce.InProgress? && g.startOnce.caller < |g.starts| && g.starts[g.startOnce.caller].Spawning?
  }

  /** How many queues are closed. */
  function ClosedQueues(g: Gate, size: nat): nat {
    if g.stopOnce.Done? then size else if IsClosing(g) then g.stops[g.stopOnce.caller].next else 0
  }

  /** How many workers are launched: all of them but while the starting caller is spawning. */
  function LaunchedWorkers(g: Gate, size: nat): nat {
    if IsSpawning(g) then g.starts[g.startOnce.caller].next else size
  }

  predicate Made(queues: seq<Queue>) { |queues| > 0 && queues[0].Chan? }

  predicate LaneInv(q: Queue, w: Worker, made: bool, closed: bool, launched: bool) {
    && (q.Chan? <==> made)
    && (w.Unstarted? <==> !made)
    && (q.Chan? ==> q.closed == closed)
    && (w.Launching? <==> made && !launched)
    && (w.Exited? ==> q.Chan? && q.closed && q.items == [])
  }

  ghost predicate QueueInv(g: Gate, size: nat, queues: seq<Queue>, workers: seq<Worker>) {
    && |queues| == |workers| == size
    && (g.started ==> Made(queues))
    && (Made(queues) ==> g.startOnce.Done? || IsSpawning(g))
    && (IsSpawning(g) ==> Made(queues))
    && (Made(queues) && !g.stopOnce.Done? ==> g.started)
    && ClosedQueues(g, size) <= size
    && LaunchedWorkers(g, size) <= size
    && (!g.started && !g.stopOnce.Done? ==> ClosedQueues(g, size) == 0)
    && (g.startOnce != Fresh ==> size > 0)
    && forall i :: 0 <= i < size ==>
         LaneInv(queues[i], workers[i], Made(queues), i < ClosedQueues(g, size), i < LaunchedWorkers(g, size))
  }

  predicate SubmitInv(m: Submit, started: bool, stopped: bool) {
    && (m.pc.Polled? || m.pc.Waiting? ==> !stopped)
    && (m.pc.Waiting? ==> started)
    && ((m.pc == Leaving(Accepted) || m.pc == Returned(Accepted)) <==> !m.stage.Unaccepted?)
  }

  ghost predicate SubmitsInv(g: Gate, submits: seq<Submit>) {
    forall p :: 0 <= p < |submits| ==> SubmitInv(submits[p], g.started, g.stopOnce.Done?)
  }

  /** Readers and writer exclude each other. */
  ghost predicate ReadersInv(s: Pool) {
    && s.readers == Sum(s.submits, HoldsRead)
    && (s.gate.writer != Nobody ==> s.readers == 0)
  }

  ghost predicate WaitInv(s: Pool) {
    s.waitGroup == Sum(s.workers, WorkerTask) + Sum(s.submits, InlineTask)
  }

  ghost predicate ControlInv(s: Pool) {
    && !s.panicked
    && GateInv(s.gate)
    && QueueInv(s.gate, s.size, s.queues, s.workers)
    && SubmitsInv(s.gate, s.submits)
    && ReadersInv(s)
    && WaitInv(s)
  }

  predicate IsSubmitAction(a: Action) {
    a.AcquireRead? || a.PollStop? || a.Branch? || a.Enqueue? || a.GiveUp? || a.ReleaseRead?
    || a.InlineBegin? || a.InlineEnd?
  }

  predicate IsStartAction(a: Action) {
    a.StartEnter? || a.StartLock? || a.StartPoll? || a.StartMake? || a.StartSpawn?
  }

  predicate IsStopAction(a: Action) {
    a.StopSignal? || a.StopEnter? || a.StopLock? || a.StopClose? || a.StopWait?
  }

  lemma ControlInit(size: nat, capacity: nat)
    ensures ControlInv(Init(size, capacity))
  {
    SumConstant(Init(size, capacity).workers, WorkerTask, 0);
  }

  lemma GateCalls(s: Pool, a: Action)
    requires ControlInv(s) && (a.CallStart? || a.CallStop? || a.CallBeginStop?)
    ensures ControlInv(Next(s, a).value)
  {
    hide Sum;
    var t := Next(s, a).value;
    assert GateInv(t.gate);
    assert IsClosing(t.gate) == IsClosing(s.gate) && IsSpawning(t.gate) == IsSpawning(s.gate);
  }

  lemma ControlCalls(s: Pool, a: Action)
    requires ControlInv(s) && (a.Submitting? || a.CallStart? || a.CallStop? || a.CallBeginStop?)
    ensures ControlInv(Next(s, a).value)
  {
    if a.Submitting? {
      SumAppend(s.submits, Submit(a.conn, a.blocking, Calling, Unaccepted), HoldsRead);
      SumAppend(s.submits, Submit(a.conn, a.blocking, Calling, Unaccepted), InlineTask);
    } else {
      GateCalls(s, a);
    }
  }

  lemma CountsSubmit(s: Pool, a: Action)
    requires ControlInv(s) && IsSubmitAction(a) && a.p < |s.submits| && NextSubmit(s, a).Some?
    ensures ReadersInv(NextSubmit(s, a).value) && WaitInv(NextSubmit(s, a).value)
    ensures !NextSubmit(s, a).value.panicked
  {
    hide Sum;
    var t := NextSubmit(s, a).value;
    SumBounds(s.submits, a.p, HoldsRead);
    SumBounds(s.submits, a.p, InlineTask);
    SumUpdate(s.submits, a.p, t.submits[a.p], HoldsRead);
    SumUpdate(s.submits, a.p, t.submits[a.p], InlineTask);
    assert t.submits == s.submits[a.p := t.submits[a.p]];
    if a.Enqueue? {
      assert SubmitInv(s.submits[a.p], s.gate.started, s.gate.stopOnce.Done?);
    }
  }

  lemma QueueSubmit(s: Pool, a: Action)
    requires ControlInv(s) && IsSubmitAction(a) && a.p < |s.submits| && NextSubmit(s, a).Some?
    ensures var t := NextSubmit(s, a).value; t.gate == s.gate && QueueInv(t.gate, t.size, t.queues, t.workers)
  {
  }

  lemma ControlSubmit(s: Pool, a: Action)
    requires ControlInv(s) && IsSubmitAction(a) && a.p < |s.submits| && NextSubmit(s, a).Some?
    ensures ControlInv(NextSubmit(s, a).value)
  {
    hide QueueInv, ReadersInv, WaitInv, Sum;
    CountsSubmit(s, a);
    QueueSubmit(s, a);
    assert SubmitInv(s.submits[a.p], s.gate.started, s.gate.stopOnce.Done?);
  }

  predicate IsWorkerAction(a: Action) { a.Receive? || a.Finish? || a.Quit? }

  function NextWorker(s: Pool, a: Action): Option<Pool>
    requires IsWorkerAction(a)
  {
    match a case Receive(i) => NextReceive(s, i) case Finish(i) => NextFinish(s, i) case Quit(i) => NextQuit(s, i)
  }

  /** The request a worker action is about. */
  function TaskOf(s: Pool, a: Action): nat
    requires IsWorkerAction(a) && NextWorker(s, a).Some? && !a.Quit?
  {
    if a.Receive? then s.queues[a.i].items[0].id else s.workers[a.i].req.id
  }

  /** The requests in a queue are marked Queued, and the one a worker is busy with is marked Running. */
  predicate TaskMarked(s: Pool, a: Action)
    requires IsWorkerAction(a) && NextWorker(s, a).Some?
  {
    !a.Quit? ==> s.submits[TaskOf(s, a)].stage == (if a.Receive? then Queued else Running(true))
  }

  lemma CountsWorker(s: Pool, a: Action)
    requires ControlInv(s) && IsWorkerAction(a) && NextWorker(s, a).Some? && TaskMarked(s, a)
    ensures ReadersInv(NextWorker(s, a).value) && WaitInv(NextWorker(s, a).value)
    ensures !NextWorker(s, a).value.panicked
  {
    hide GateInv, QueueInv, SubmitsInv, Sum;
    var t := NextWorker(s, a).value;
    SumBounds(s.workers, a.i, WorkerTask);
    SumUpdate(s.workers, a.i, t.workers[a.i], WorkerTask);
    if !a.Quit? {
      SumUpdate(s.submits, TaskOf(s, a), t.submits[TaskOf(s, a)], HoldsRead);
      SumUpdate(s.submits, TaskOf(s, a), t.submits[TaskOf(s, a)], InlineTask);
    }
  }

  lemma ControlWorker(s: Pool, a: Action)
    requires ControlInv(s) && IsWorkerAction(a) && NextWorker(s, a).Some? && TaskMarked(s, a)
    ensures ControlInv(NextWorker(s, a).value)
  {
    hide ReadersInv, WaitInv, GateInv;
    CountsWorker(s, a);
  }

  /** The start callers other than j keep their invariant when j moves on. */
  lemma OtherStarts(g: Gate, t: Gate, j: nat)
    requires GateInv(g) && j < |g.starts| == |t.starts|
    requires forall i :: 0 <= i < |g.starts| && i != j ==> t.starts[i] == g.starts[i]
    requires t.stopOnce == g.stopOnce && (t.startOnce == g.startOnce || g.startOnce == InProgress(j)
                                          || (g.startOnce.Fresh? && t.startOnce == InProgress(j)))
    requires t.startOnce == g.startOnce || t.startOnce.Done? || t.startOnce == InProgress(j)
    requires t.writer == g.writer || g.writer.Nobody? || (g.writer == ByStart && g.startOnce == InProgress(j))
    ensures forall i :: 0 <= i < |g.starts| && i != j ==>
              StartInv(t.starts[i], t.startOnce == InProgress(i), t.writer, t.stopOnce.Done?)
  {
  }

  lemma GateStart(s: Pool, a: Action)
    requires ControlInv(s) && IsStartAction(a) && !a.StartMake? && NextStart(s, a).Some?
    ensures GateInv(NextStart(s, a).value.gate)
  {
    hide QueueInv, SubmitsInv, WaitInv, Sum;
    var g, t := s.gate, NextStart(s, a).value.gate;
    assert StartInv(g.starts[a.j], g.startOnce == InProgress(a.j), g.writer, g.stopOnce.Done?);
    OtherStarts(g, t, a.j);
  }

  lemma ControlStart(s: Pool, a: Action)
    requires ControlInv(s) && IsStartAction(a) && NextStart(s, a).Some?
    ensures ControlInv(NextStart(s, a).value)
  {
    if a.StartMake? {
      ControlMake(s, a.j);
    } else if a.StartSpawn? {
      ControlSpawn(s, a.j);
    } else {
      hide Sum;
      var t := NextStart(s, a).value;
      GateStart(s, a);
      assert StartInv(s.gate.starts[a.j], s.gate.startOnce == InProgress(a.j), s.gate.writer, s.gate.stopOnce.Done?);
      assert IsClosing(t.gate) == IsClosing(s.gate) && !IsSpawning(t.gate) && !IsSpawning(s.gate);
    }
  }

  lemma ControlMake(s: Pool, j: nat)
    requires ControlInv(s) && NextStart(s, StartMake(j)).Some?
    ensures ControlInv(NextStart(s, StartMake(j)).value)
  {
    hide Sum;
    var t := NextStart(s, StartMake(j)).value;
    assert StartInv(s.gate.starts[j], s.gate.startOnce == InProgress(j), s.gate.writer, s.gate.stopOnce.Done?);
    assert !Made(s.queues);
    SumConstant(s.workers, WorkerTask, 0);
    SumConstant(t.workers, WorkerTask, 1);
    assert !IsClosing(s.gate);
  }

  lemma ControlSpawn(s: Pool, j: nat)
    requires ControlInv(s) && NextStart(s, StartSpawn(j)).Some?
    ensures ControlInv(NextStart(s, StartSpawn(j)).value)
  {
    hide Sum;
    var t := NextStart(s, StartSpawn(j)).value;
    var k := s.gate.starts[j].next;
    GateStart(s, StartSpawn(j));
    assert StartInv(s.gate.starts[j], s.gate.startOnce == InProgress(j), s.gate.writer, s.gate.stopOnce.Done?);
    assert IsClosing(t.gate) == IsClosing(s.gate);
    if k < |s.workers| {
      SumUpdate(s.workers, k, Idle, WorkerTask);
    }
  }

  lemma GateStop(s: Pool, a: Action)
    requires ControlInv(s) && IsStopAction(a) && NextStop(s, a).Some?
    ensures GateInv(NextStop(s, a).value.gate)
  {
    hide QueueInv, SubmitsInv, WaitInv, Sum;
    assert StopInv(s.gate.stops[a.j], s.gate.stopOnce == InProgress(a.j), s.gate.writer, s.gate.stopSignal,
                   s.gate.stopOnce.Done?);
  }

  lemma QueueStop(s: Pool, a: Action)
    requires ControlInv(s) && IsStopAction(a) && NextStop(s, a).Some?
    ensures var t := NextStop(s, a).value; QueueInv(t.gate, t.size, t.queues, t.workers) && !t.panicked
  {
    hide SubmitsInv, ReadersInv, WaitInv, Sum;
    var t := NextStop(s, a).value;
    GateStop(s, a);
    assert StopInv(s.gate.stops[a.j], s.gate.stopOnce == InProgress(a.j), s.gate.writer, s.gate.stopSignal,
                   s.gate.stopOnce.Done?);
    assert IsSpawning(t.gate) == IsSpawning(s.gate);
  }

  lemma ControlStop(s: Pool, a: Action)
    requires ControlInv(s) && IsStopAction(a) && NextStop(s, a).Some?
    ensures ControlInv(NextStop(s, a).value)
  {
    hide GateInv, QueueInv, SubmitsInv, Sum;
    GateStop(s, a);
    QueueStop(s, a);
    SubmitsStop(s, a);
  }

  lemma SubmitsStop(s: Pool, a: Action)
    requires ControlInv(s) && IsStopAction(a) && NextStop(s, a).Some?
    ensures SubmitsInv(NextStop(s, a).value.gate, s.submits)
  {
    SumZero(s.submits, HoldsRead);
    assert s.gate.writer == ByStop ==> forall p :: 0 <= p < |s.submits| ==> HoldsRead(s.submits[p]) == 0;
  }
}
