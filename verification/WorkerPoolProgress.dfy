/** Stopping the pool completes: once a stop has begun some step can always be taken until every stop
    caller has returned, and no run of steps is longer than a measure of the state. */
module WorkerPoolProgress {
  import opened Options
  import opened Counting
  import opened WorkerPool
  import opened WorkerPoolSafety
  import opened WorkerPoolHistory
  import opened WorkerPoolTheorems

  function SubmitWeight(m: Submit): nat {
    (match m.pc
     case Calling => 9
     case Locked => 8
     case Polled => 7
     case Waiting => 6
     case Leaving(_) => 1
     case Returned(_) => 0)
    + (match m.stage case Unaccepted => 0 case Spawned => 2 case Queued => 2 case Running(_) => 1 case Handled => 0)
  }

  function WorkerWeight(w: Worker): nat {
    match w case Unstarted => 0 case Launching => 2 case Idle => 1 case Busy(_) => 1 case Exited => 0
  }

  function Rest(size: nat, k: nat): nat { if k <= size then size - k else 0 }

  function StartWeight(pc: StartPc, size: nat): nat {
    match pc
    case StartCalled => 3 * size + 6
    case StartWantsLock => 3 * size + 5
    case StartLocked => 3 * size + 4
    case StartPolled => 3 * size + 3
    case Spawning(k) => Rest(size, k) + 1
    case Started => 0
  }

  function StopWeight(pc: StopPc, size: nat): nat {
    match pc
    case StopCalled => size + 6
    case Signalled => size + 5
    case StopWantsLock => size + 4
    case Closing(k) => Rest(size, k) + 2
    case AwaitingTasks => 1
    case StopReturned => 0
  }

  function StartWeights(size: nat): StartPc -> nat { pc => StartWeight(pc, size) }
  function StopWeights(size: nat): StopPc -> nat { pc => StopWeight(pc, size) }

  /** The steps still to be taken by the present callers, workers and requests, at most. */
  function Measure(s: Pool): nat {
    Sum(s.submits, SubmitWeight) + Sum(s.workers, WorkerWeight)
    + Sum(s.gate.starts, StartWeights(s.size)) + Sum(s.gate.stops, StopWeights(s.size))
  }

  /** Every action but a new call from the environment. */
  predicate IsInternal(a: Action) {
    IsSubmitAction(a) || IsWorkerAction(a) || IsStartAction(a) || IsStopAction(a)
  }

  lemma SubmitFalls(s: Pool, a: Action)
    requires Inv(s) && IsSubmitAction(a) && Next(s, a).Some?
    ensures Measure(Next(s, a).value) < Measure(s)
  {
    hide GateInv, QueueInv, TaskInv, ReadersInv, WaitInv, Sum;
    var t := Next(s, a).value;
    CountsSubmit(s, a);
    assert SubmitInv(s.submits[a.p], s.gate.started, s.gate.stopOnce.Done?);
    assert t.submits == s.submits[a.p := t.submits[a.p]];
    SumUpdate(s.submits, a.p, t.submits[a.p], SubmitWeight);
  }

  lemma WorkerFalls(s: Pool, a: Action)
    requires Inv(s) && IsWorkerAction(a) && Next(s, a).Some?
    ensures Measure(Next(s, a).value) < Measure(s)
  {
    hide ControlInv, TaskInv, Sum;
    var t := NextWorker(s, a).value;
    TaskWorker(s, a);
    CountsWorker(s, a);
    hide ReadersInv, WaitInv;
    SumUpdate(s.workers, a.i, t.workers[a.i], WorkerWeight);
    if !a.Quit? {
      SumUpdate(s.submits, TaskOf(s, a), t.submits[TaskOf(s, a)], SubmitWeight);
    }
  }

  lemma StartFalls(s: Pool, a: Action)
    requires Inv(s) && IsStartAction(a) && Next(s, a).Some?
    ensures Measure(Next(s, a).value) < Measure(s)
  {
    hide TaskInv, SubmitsInv, ReadersInv, WaitInv, Sum;
    var g, t := s.gate, NextStart(s, a).value;
    assert StartInv(g.starts[a.j], g.startOnce == InProgress(a.j), g.writer, g.stopOnce.Done?);
    SumUpdate(g.starts, a.j, t.gate.starts[a.j], StartWeights(s.size));
    if a.StartMake? {
      assert !Made(s.queues);
      SumConstant(s.workers, WorkerWeight, 0);
      SumConstant(t.workers, WorkerWeight, 2);
    } else if a.StartSpawn? && g.starts[a.j].next < |s.workers| {
      SumUpdate(s.workers, g.starts[a.j].next, Idle, WorkerWeight);
    }
  }

  lemma StopFalls(s: Pool, a: Action)
    requires Inv(s) && IsStopAction(a) && Next(s, a).Some?
    ensures Measure(Next(s, a).value) < Measure(s)
  {
    hide GateInv, TaskInv, SubmitsInv, ReadersInv, WaitInv, Sum;
    QueueStop(s, a);
    var t := NextStop(s, a).value;
    SumUpdate(s.gate.stops, a.j, t.gate.stops[a.j], StopWeights(s.size));
  }

  lemma StepFalls(s: Pool, a: Action)
    requires Inv(s) && IsInternal(a) && Next(s, a).Some?
    ensures Measure(Next(s, a).value) < Measure(s)
  {
    hide Inv, Measure, Next;
    if IsSubmitAction(a) {
      SubmitFalls(s, a);
    } else if IsWorkerAction(a) {
      WorkerFalls(s, a);
    } else if IsStartAction(a) {
      StartFalls(s, a);
    } else {
      StopFalls(s, a);
    }
  }

  /** Any continuation without new calls is at most Measure(s) steps long. */
  lemma {:induction false} RunsAreBounded(s: Pool, actions: seq<Action>)
    requires Inv(s) && Run(s, actions).Some?
    requires forall a :: a in actions ==> IsInternal(a)
    ensures |actions| + Measure(Run(s, actions).value) <= Measure(s)
    decreases |actions|
  {
    hide Inv, Measure;
    if actions != [] {
      InvStep(s, actions[0]);
      StepFalls(s, actions[0]);
      RunsAreBounded(Next(s, actions[0]).value, actions[1..]);
    }
  }

  /** Someone holding the read lock can always move: a blocked send sees the stop signal, and before that its
      own timer. */
  lemma ReaderMoves(s: Pool, p: nat) returns (a: Action)
    requires Inv(s) && p < |s.submits| && HoldsRead(s.submits[p]) == 1
    ensures IsInternal(a) && !a.AcquireRead? && Next(s, a).Some?
    ensures a.GiveUp? && s.gate.stopSignal && s.submits[p].blocking ==> a.p == p && a.byStop
  {
    hide GateInv, TaskInv, WaitInv;
    var m := s.submits[p];
    assert SubmitInv(m, s.gate.started, s.gate.stopOnce.Done?);
    match m.pc
    case Locked => a := PollStop(p);
    case Polled => a := Branch(p);
    case Leaving(_) => a := ReleaseRead(p);
    case Waiting =>
      if m.blocking {
        a := GiveUp(p, s.gate.stopSignal);
      } else {
        var q := Lane(m.conn, s.size);
        a := if CanSend(s, q) || s.queues[q].closed then Enqueue(p) else GiveUp(p, false);
      }
  }

  /** Whoever waits for the write lock, or another step to release it: that step is enabled. */
  lemma WriterMoves(s: Pool, wanted: Action) returns (a: Action)
    requires Inv(s) && (wanted.StartLock? || wanted.StopLock?)
    requires s.gate.writer.Nobody? && s.readers == 0 ==> Next(s, wanted).Some?
    ensures IsInternal(a) && !a.AcquireRead? && Next(s, a).Some?
  {
    hide QueueInv, SubmitsInv, TaskInv, WaitInv, Sum;
    if s.readers > 0 {
      SumZero(s.submits, HoldsRead);
      var p :| 0 <= p < |s.submits| && HoldsRead(s.submits[p]) != 0;
      a := ReaderMoves(s, p);
    } else if s.gate.writer.Nobody? {
      a := wanted;
    } else if s.gate.writer.ByStart? {
      var j := s.gate.startOnce.caller;
      a := if s.gate.starts[j].StartLocked? then StartPoll(j) else StartMake(j);
    } else {
      a := StopClose(s.gate.stopOnce.caller);
    }
  }

  lemma LiveWorkerMoves(s: Pool, i: nat) returns (a: Action)
    requires Inv(s) && s.gate.stopOnce.Done? && i < s.size && WorkerTask(s.workers[i]) != 0
    ensures IsInternal(a) && !a.AcquireRead? && Next(s, a).Some?
  {
    hide SubmitsInv, ReadersInv, WaitInv, CountInv, OrderInv;
    assert LaneInv(s.queues[i], s.workers[i], Made(s.queues), true, i < LaunchedWorkers(s.gate, s.size));
    match s.workers[i]
    case Launching => a := StartSpawn(s.gate.startOnce.caller);
    case Busy(_) => a := Finish(i);
    case Idle =>
      if s.queues[i].items != [] {
        assert s.queues[i].items[0] in Items(s.queues[i]);
        a := Receive(i);
      } else {
        a := Quit(i);
      }
  }

  /** With the queues closed and tasks outstanding, a worker, a starter or a request goroutine can move. */
  lemma TaskMoves(s: Pool) returns (a: Action)
    requires Inv(s) && s.gate.stopOnce.Done? && s.waitGroup > 0
    ensures IsInternal(a) && !a.AcquireRead? && Next(s, a).Some?
  {
    hide ReadersInv, GateInv, SubmitsInv, TaskInv;
    SumZero(s.workers, WorkerTask);
    SumZero(s.submits, InlineTask);
    if i :| 0 <= i < s.size && WorkerTask(s.workers[i]) != 0 {
      a := LiveWorkerMoves(s, i);
    } else {
      assert forall i :: 0 <= i < s.size ==> WorkerTask(s.workers[i]) == 0;
      var p :| 0 <= p < |s.submits| && InlineTask(s.submits[p]) != 0;
      a := if s.submits[p].stage.Spawned? then InlineBegin(p) else InlineEnd(p);
    }
  }

  /** No deadlock: while some stop caller has not returned, a step other than taking a new read lock
      is enabled, so writer preference of the lock cannot block it. */
  lemma StopNeverBlocks(s: Pool, j: nat) returns (a: Action)
    requires Inv(s) && j < |s.gate.stops| && !s.gate.stops[j].StopReturned?
    ensures IsInternal(a) && !a.AcquireRead? && Next(s, a).Some?
  {
    hide QueueInv, SubmitsInv, TaskInv, ReadersInv, WaitInv;
    var g := s.gate;
    assert StopInv(g.stops[j], g.stopOnce == InProgress(j), g.writer, g.stopSignal, g.stopOnce.Done?);
    match g.stops[j]
    case StopCalled => a := StopSignal(j);
    case Signalled =>
      if g.stopOnce.InProgress? {
        var k := g.stopOnce.caller;
        assert StopInv(g.stops[k], true, g.writer, g.stopSignal, g.stopOnce.Done?);
        if g.stops[k].Closing? {
          a := StopClose(k);
        } else {
          a := WriterMoves(s, StopLock(k));
        }
      } else {
        a := StopEnter(j);
      }
    case StopWantsLock => a := WriterMoves(s, StopLock(j));
    case Closing(_) => a := StopClose(j);
    case AwaitingTasks =>
      if s.waitGroup == 0 {
        a := StopWait(j);
      } else {
        a := TaskMoves(s);
      }
  }

  /** The same for a caller of StartWorkerPool. */
  lemma StartNeverBlocks(s: Pool, j: nat) returns (a: Action)
    requires Inv(s) && j < |s.gate.starts| && !s.gate.starts[j].Started?
    ensures IsInternal(a) && !a.AcquireRead? && Next(s, a).Some?
  {
    hide QueueInv, SubmitsInv, TaskInv, ReadersInv, WaitInv;
    var g := s.gate;
    var k := if g.starts[j].StartCalled? && g.startOnce.InProgress? then g.startOnce.caller else j;
    assert StartInv(g.starts[k], g.startOnce == InProgress(k), g.writer, g.stopOnce.Done?);
    match g.starts[k]
    case StartCalled => a := StartEnter(k);
    case StartWantsLock => a := WriterMoves(s, StartLock(k));
    case StartLocked => a := StartPoll(k);
    case StartPolled => a := StartMake(k);
    case Spawning(_) => a := StartSpawn(k);
  }

  /** A run that can only be extended by new calls has let every stop caller return. */
  lemma StopCompletes(size: nat, capacity: nat, actions: seq<Action>)
    requires Run(Init(size, capacity), actions).Some?
    requires var s := Run(Init(size, capacity), actions).value;
             forall a :: IsInternal(a) && !a.AcquireRead? ==> Next(s, a).None?
    ensures var s := Run(Init(size, capacity), actions).value;
            forall j :: 0 <= j < |s.gate.stops| ==> s.gate.stops[j].StopReturned?
  {
    TaskInit(size, capacity);
    InvRun(Init(size, capacity), actions);
    var s := Run(Init(size, capacity), actions).value;
    if j :| 0 <= j < |s.gate.stops| && !s.gate.stops[j].StopReturned? {
      var a := StopNeverBlocks(s, j);
      assert false;
    }
  }
}
