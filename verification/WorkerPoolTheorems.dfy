/** The promises of the worker pool, for every interleaving. */
module WorkerPoolTheorems {
  import opened Options
  import opened Counting
  import opened WorkerPool
  import opened WorkerPoolSafety
  import opened WorkerPoolHistory

  predicate Drained(s: Pool) { s.gate.stopOnce.Done? && s.waitGroup == 0 }

  /** Whoever returned from StopWorkerPool returned to a drained pool. */
  ghost predicate DrainInv(s: Pool) {
    forall j :: 0 <= j < |s.gate.stops| && s.gate.stops[j].StopReturned? ==> Drained(s)
  }

  /** With the pool stopped and no task counted, every accepted request has been handled. */
  lemma DrainedMeansHandled(s: Pool)
    requires Inv(s) && Drained(s)
    ensures forall p :: 0 <= p < |s.submits| ==> s.submits[p].stage.Unaccepted? || s.submits[p].stage.Handled?
    ensures forall i :: 0 <= i < s.size ==> s.workers[i].Unstarted? || s.workers[i].Exited?
  {
    hide GateInv, CountInv, OrderInv;
    SumZero(s.workers, WorkerTask);
    SumZero(s.submits, InlineTask);
    assert forall i :: 0 <= i < s.size ==> WorkerTask(s.workers[i]) == 0;
    assert forall i :: 0 <= i < s.size ==> Items(s.queues[i]) == [];
    assert forall p :: 0 <= p < |s.submits| ==> InlineTask(s.submits[p]) == 0;
  }

  /** A drained pool stays drained and never handles anything again. */
  lemma DrainedStep(s: Pool, a: Action)
    requires Inv(s) && Drained(s) && Next(s, a).Some?
    ensures Drained(Next(s, a).value) && Next(s, a).value.log == s.log
  {
    DrainedMeansHandled(s);
    DrainedStepAux(s, a);
  }

  lemma DrainedStepAux(s: Pool, a: Action)
    requires Inv(s) && Drained(s) && Next(s, a).Some?
    requires forall p :: 0 <= p < |s.submits| ==> s.submits[p].stage.Unaccepted? || s.submits[p].stage.Handled?
    requires forall i :: 0 <= i < s.size ==> s.workers[i].Unstarted? || s.workers[i].Exited?
    ensures Drained(Next(s, a).value) && Next(s, a).value.log == s.log
  {
    hide CountInv, OrderInv, ReadersInv, WaitInv, PlaceInv;
    if IsSubmitAction(a) {
      assert SubmitInv(s.submits[a.p], s.gate.started, s.gate.stopOnce.Done?);
    } else if IsStartAction(a) {
      assert StartInv(s.gate.starts[a.j], s.gate.startOnce == InProgress(a.j), s.gate.writer, s.gate.stopOnce.Done?);
    } else if IsStopAction(a) {
      assert StopInv(s.gate.stops[a.j], s.gate.stopOnce == InProgress(a.j), s.gate.writer, s.gate.stopSignal,
                     s.gate.stopOnce.Done?);
    }
  }

  /** A stop call returns only once the pool is drained. */
  lemma ReturnsDrained(s: Pool, a: Action, j: nat)
    requires Inv(s) && Next(s, a).Some?
    requires j < |Next(s, a).value.gate.stops| && Next(s, a).value.gate.stops[j].StopReturned?
    ensures (j < |s.gate.stops| && s.gate.stops[j].StopReturned?) || Drained(Next(s, a).value)
  {
    hide TaskInv, QueueInv, SubmitsInv, ReadersInv, WaitInv, GateInv, Next;
    if IsStopAction(a) {
      StopReturnsDrained(s, a, j);
    } else {
      StopsStay(s, a, j);
    }
  }

  lemma StopReturnsDrained(s: Pool, a: Action, j: nat)
    requires GateInv(s.gate) && IsStopAction(a) && Next(s, a).Some?
    requires j < |Next(s, a).value.gate.stops| && Next(s, a).value.gate.stops[j].StopReturned?
    ensures (j < |s.gate.stops| && s.gate.stops[j].StopReturned?) || Drained(Next(s, a).value)
  {
    assert StopInv(s.gate.stops[a.j], s.gate.stopOnce == InProgress(a.j), s.gate.writer, s.gate.stopSignal,
                   s.gate.stopOnce.Done?);
  }

  lemma StopsStay(s: Pool, a: Action, j: nat)
    requires !IsStopAction(a) && Next(s, a).Some?
    requires j < |Next(s, a).value.gate.stops| && Next(s, a).value.gate.stops[j].StopReturned?
    ensures j < |s.gate.stops| && s.gate.stops[j].StopReturned?
  {
  }

  lemma DrainStep(s: Pool, a: Action)
    requires Inv(s) && DrainInv(s) && Next(s, a).Some?
    ensures DrainInv(Next(s, a).value)
  {
    hide Inv, Next, Drained;
    if Drained(s) {
      DrainedStep(s, a);
    }
    var t := Next(s, a).value;
    forall j | 0 <= j < |t.gate.stops| && t.gate.stops[j].StopReturned? ensures Drained(t) {
      ReturnsDrained(s, a, j);
    }
  }

  lemma {:induction false} DrainRun(s: Pool, actions: seq<Action>)
    requires Inv(s) && DrainInv(s) && Run(s, actions).Some?
    ensures Inv(Run(s, actions).value) && DrainInv(Run(s, actions).value)
    ensures Drained(s) ==> Drained(Run(s, actions).value) && Run(s, actions).value.log == s.log
    decreases |actions|
  {
    hide Inv, DrainInv;
    if actions != [] {
      InvStep(s, actions[0]);
      DrainStep(s, actions[0]);
      if Drained(s) {
        DrainedStep(s, actions[0]);
      }
      DrainRun(Next(s, actions[0]).value, actions[1..]);
    }
  }

  /** No interleaving sends on a closed queue, closes one twice, or drives the wait group negative. */
  lemma NeverPanics(size: nat, capacity: nat, actions: seq<Action>)
    requires Run(Init(size, capacity), actions).Some?
    ensures !Run(Init(size, capacity), actions).value.panicked
  {
    TaskInit(size, capacity);
    InvRun(Init(size, capacity), actions);
  }

  /** A submission that returned nil is accepted exactly once and handled at most once; one that
      returned an error is never handled. */
  lemma HandledAtMostOnce(size: nat, capacity: nat, actions: seq<Action>, p: nat)
    requires Run(Init(size, capacity), actions).Some?
    requires p < |Run(Init(size, capacity), actions).value.submits|
    ensures var s := Run(Init(size, capacity), actions).value;
            && (s.submits[p].pc == Returned(Accepted) ==> Count(s.log, Accept, p) == 1)
            && Count(s.log, End, p) <= Count(s.log, Begin, p) <= Count(s.log, Accept, p) <= 1
            && (s.submits[p].pc.Returned? && s.submits[p].pc.outcome != Accepted ==> Count(s.log, Accept, p) == 0)
  {
    TaskInit(size, capacity);
    InvRun(Init(size, capacity), actions);
    var s := Run(Init(size, capacity), actions).value;
    assert SubmitInv(s.submits[p], s.gate.started, s.gate.stopOnce.Done?);
  }

  /** Before any StopWorkerPool call returns, every request whose submission returned nil has been
      handled exactly once, and no handler begins or ends in any continuation of the run. */
  lemma StopReturnsAfterAllHandled(size: nat, capacity: nat, actions: seq<Action>, j: nat, later: seq<Action>)
    requires Run(Init(size, capacity), actions).Some?
    requires var s := Run(Init(size, capacity), actions).value;
             j < |s.gate.stops| && s.gate.stops[j].StopReturned? && Run(s, later).Some?
    ensures var s := Run(Init(size, capacity), actions).value;
            && Run(s, later).value.log == s.log
            && forall p :: 0 <= p < |s.submits| && s.submits[p].pc == Returned(Accepted) ==>
                 Count(s.log, Begin, p) == 1 && Count(s.log, End, p) == 1
  {
    TaskInit(size, capacity);
    DrainRun(Init(size, capacity), actions);
    var s := Run(Init(size, capacity), actions).value;
    DrainRun(s, later);
    DrainedMeansHandled(s);
    forall p | 0 <= p < |s.submits| && s.submits[p].pc == Returned(Accepted)
      ensures Count(s.log, Begin, p) == 1 && Count(s.log, End, p) == 1
    {
      assert SubmitInv(s.submits[p], s.gate.started, s.gate.stopOnce.Done?);
    }
  }

  /** The requests of one connection that went through the queues are handled in the order they were
      accepted, and one at a time. */
  lemma QueueOrderAt(s: Pool, c: nat)
    requires Inv(s)
    ensures ConnHistory(s.log, End, c) <= ConnHistory(s.log, Begin, c) <= ConnHistory(s.log, Accept, c)
    ensures |ConnHistory(s.log, Begin, c)| <= |ConnHistory(s.log, End, c)| + 1
  {
    if s.size > 0 {
      assert ConnOrder(s, c);
    } else {
      assert NothingQueued(s.log, c);
    }
  }
}
