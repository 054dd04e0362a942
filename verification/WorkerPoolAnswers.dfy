/** What callers of the pool are answered, and when: a lone caller's answer is decided by the state it finds, every
    refusal has its reason, and a pool that comes to rest has handled what it accepted. */
module WorkerPoolAnswers {
  import opened Options
  import opened Counting
  import opened WorkerPool
  import opened WorkerPoolSafety
  import opened WorkerPoolHistory
  import opened WorkerPoolTheorems
  import opened WorkerPoolProgress

  predicate Told(pc: SubmitPc, outcome: Outcome) { pc == Leaving(outcome) || pc == Returned(outcome) }

  /** The queue of this connection takes a request at once: it has room, or its worker waits at it. */
  predicate HasRoom(s: Pool, conn: nat) {
    s.size > 0 && |s.queues| == |s.workers| == s.size && s.queues[conn % s.size].Chan?
    && (|s.queues[conn % s.size].items| < s.capacity
        || (s.queues[conn % s.size].items == [] && s.workers[conn % s.size].Idle?))
  }

  // The answer to a lone caller

  /** The steps of call p itself, up to its return. */
  predicate Own(a: Action, p: nat) {
    (a.AcquireRead? || a.PollStop? || a.Branch? || a.Enqueue? || a.GiveUp? || a.ReleaseRead?) && a.p == p
  }

  predicate Undecided(pc: SubmitPc) { pc.Calling? || pc.Locked? || pc.Polled? || pc.Waiting? }

  /** What call p is to be answered, by the state it finds. */
  function Verdict(s: Pool, p: nat): Outcome
    requires p < |s.submits|
  {
    var m := s.submits[p];
    if (m.pc.Calling? || m.pc.Locked?) && s.gate.stopSignal then Stopped
    else if s.gate.started && !HasRoom(s, m.conn) then Refused
    else Accepted
  }

  /** The log and the queues after that answer. */
  function LogAfter(s: Pool, p: nat, outcome: Outcome): seq<Event>
    requires p < |s.submits|
  {
    if outcome.Accepted? then s.log + [Event(Accept, Request(p, s.submits[p].conn), s.gate.started)] else s.log
  }

  function ItemsAfter(s: Pool, p: nat, outcome: Outcome, i: nat): seq<Request>
    requires p < |s.submits| && i < |s.queues|
  {
    Items(s.queues[i])
    + if outcome.Accepted? && s.gate.started && s.size > 0 && i == s.submits[p].conn % s.size
      then [Request(p, s.submits[p].conn)] else []
  }

  predicate Unchanged(s: Pool, t: Pool, p: nat) {
    && |t.submits| == |s.submits| && p < |s.submits|
    && t.submits[p].conn == s.submits[p].conn && t.submits[p].blocking == s.submits[p].blocking
    && t.size == s.size && t.capacity == s.capacity && t.gate == s.gate && t.workers == s.workers
    && |t.queues| == |s.queues|
  }

  /** Call p has been told this, and no more than this has happened. */
  predicate Answered(s: Pool, t: Pool, p: nat, outcome: Outcome) {
    && Unchanged(s, t, p) && Told(t.submits[p].pc, outcome)
    && t.log == LogAfter(s, p, outcome)
    && forall i :: 0 <= i < |s.queues| ==> Items(t.queues[i]) == ItemsAfter(s, p, outcome, i)
  }

  /** A caller that waits for a queue finds it open. */
  lemma LaneOpen(s: Pool, p: nat)
    requires ControlInv(s) && p < |s.submits| && s.submits[p].pc.Waiting?
    ensures s.gate.started && s.size > 0 && |s.queues| == |s.workers| == s.size
    ensures var q := s.submits[p].conn % s.size; s.queues[q].Chan? && !s.queues[q].closed
  {
    hide GateInv, WaitInv, Sum;
    SumBounds(s.submits, p, HoldsRead);
    assert SubmitInv(s.submits[p], s.gate.started, s.gate.stopOnce.Done?);
    assert s.readers > 0;
    NotClosing(s.gate);
    var q := s.submits[p].conn % s.size;
    assert LaneInv(s.queues[q], s.workers[q], Made(s.queues), q < ClosedQueues(s.gate, s.size),
                   q < LaunchedWorkers(s.gate, s.size)) by {
      OneLane(s, q);
    }
  }

  lemma NotClosing(g: Gate)
    ensures GateInv(g) && g.writer.Nobody? ==> !IsClosing(g)
  {
  }

  lemma OneLane(s: Pool, q: nat)
    requires QueueInv(s.gate, s.size, s.queues, s.workers) && q < s.size
    ensures LaneInv(s.queues[q], s.workers[q], Made(s.queues), q < ClosedQueues(s.gate, s.size),
                    q < LaunchedWorkers(s.gate, s.size))
  {
  }

  /** What may become of call p: its verdict, or for a call that waits for a full queue the end of its patience. */
  predicate Fair(s: Pool, p: nat, outcome: Outcome)
    requires p < |s.submits|
  {
    outcome == Verdict(s, p) || (s.submits[p].blocking && s.gate.started && !outcome.Accepted?)
  }

  predicate StillWaits(s: Pool, t: Pool, p: nat) {
    && Unchanged(s, t, p) && t.queues == s.queues && t.log == s.log
    && Undecided(t.submits[p].pc) && Verdict(t, p) == Verdict(s, p)
  }

  lemma AnswerStep(s: Pool, a: Action, p: nat)
    requires Inv(s) && p < |s.submits| && Undecided(s.submits[p].pc) && Own(a, p) && Next(s, a).Some?
    ensures var t := Next(s, a).value;
            StillWaits(s, t, p)
            || (Told(t.submits[p].pc, Accepted) && Fair(s, p, Accepted) && Answered(s, t, p, Accepted))
            || (Told(t.submits[p].pc, Refused) && Fair(s, p, Refused) && Answered(s, t, p, Refused))
            || (Told(t.submits[p].pc, Stopped) && Fair(s, p, Stopped) && Answered(s, t, p, Stopped))
  {
    hide GateInv, QueueInv, ReadersInv, WaitInv, TaskInv, Sum;
    NotPanicked(s, a);
    if s.submits[p].pc.Waiting? {
      LaneOpen(s, p);
    }
  }

  lemma NotPanicked(s: Pool, a: Action)
    requires Inv(s) && Next(s, a).Some?
    ensures !s.panicked && !Next(s, a).value.panicked
  {
    hide TaskInv, Next;
    InvStep(s, a);
  }

  lemma ToldStep(s: Pool, a: Action, p: nat, outcome: Outcome)
    requires Inv(s) && p < |s.submits| && Told(s.submits[p].pc, outcome) && Own(a, p) && Next(s, a).Some?
    ensures var t := Next(s, a).value;
            Unchanged(s, t, p) && t.queues == s.queues && t.log == s.log && Told(t.submits[p].pc, outcome)
  {
    hide ControlInv, TaskInv;
    NotPanicked(s, a);
  }

  lemma {:induction false} ToldRun(s: Pool, actions: seq<Action>, p: nat, outcome: Outcome)
    requires Inv(s) && p < |s.submits| && Told(s.submits[p].pc, outcome)
    requires (forall a :: a in actions ==> Own(a, p)) && Run(s, actions).Some?
    ensures var t := Run(s, actions).value;
            Unchanged(s, t, p) && t.queues == s.queues && t.log == s.log && Told(t.submits[p].pc, outcome)
    decreases |actions|
  {
    hide Inv, Next;
    if actions != [] {
      InvStep(s, actions[0]);
      ToldStep(s, actions[0], p, outcome);
      ToldRun(Next(s, actions[0]).value, actions[1..], p, outcome);
    }
  }

  /** A call that runs alone gets the answer that the state it finds decides: stopped under the stop signal;
      otherwise, with the pool started, refused exactly when its queue has no room, and accepted if it has;
      and accepted when the pool is not started. The queue of its connection gets the request exactly when it is
      accepted by a started pool, and nothing else changes. Only a blocking call to a started pool may also give up. */
  lemma {:induction false} AnswerIsExact(s: Pool, actions: seq<Action>, p: nat)
    requires Inv(s) && p < |s.submits| && Undecided(s.submits[p].pc)
    requires (forall a :: a in actions ==> Own(a, p)) && Run(s, actions).Some?
    requires p < |Run(s, actions).value.submits| && Run(s, actions).value.submits[p].pc.Returned?
    ensures var t := Run(s, actions).value;
            var outcome := t.submits[p].pc.outcome;
            && Answered(s, t, p, outcome)
            && (outcome == Verdict(s, p) || (s.submits[p].blocking && s.gate.started && !outcome.Accepted?))
    decreases |actions|
  {
    hide Inv, Next, Verdict, Items;
    if actions != [] {
      var t := Next(s, actions[0]).value;
      InvStep(s, actions[0]);
      AnswerStep(s, actions[0], p);
      if Undecided(t.submits[p].pc) {
        AnswerIsExact(t, actions[1..], p);
      } else {
        ToldRun(t, actions[1..], p, t.submits[p].pc.outcome);
      }
    }
  }

  /** The step of a call that does not give up while its queue has room. */
  lemma OwnMove(s: Pool, p: nat) returns (a: Action)
    requires Inv(s) && p < |s.submits| && Undecided(s.submits[p].pc)
    requires s.submits[p].pc.Calling? ==> s.gate.writer.Nobody?
    ensures Own(a, p) && Next(s, a).Some?
    ensures var t := Next(s, a).value;
            && p < |t.submits|
            && if Undecided(t.submits[p].pc) then
                 !t.submits[p].pc.Calling? && Verdict(t, p) == Verdict(s, p)
                 && SubmitWeight(t.submits[p]) < SubmitWeight(s.submits[p])
               else t.submits[p].pc == Leaving(Verdict(s, p))
  {
    hide TaskInv, WaitInv, QueueInv, GateInv, ReadersInv, Sum;
    var m := s.submits[p];
    a := match m.pc
      case Calling => AcquireRead(p)
      case Locked => PollStop(p)
      case Polled => Branch(p)
      case _ => if HasRoom(s, m.conn) then Enqueue(p) else GiveUp(p, false);
    assert SubmitInv(m, s.gate.started, s.gate.stopOnce.Done?);
    if m.pc.Waiting? {
      LaneOpen(s, p);
    }
  }

  /** And there is nothing that such a call has to wait for but the lock. */
  lemma {:induction false} AnswerReached(s: Pool, p: nat) returns (actions: seq<Action>)
    requires Inv(s) && p < |s.submits| && Undecided(s.submits[p].pc)
    requires s.submits[p].pc.Calling? ==> s.gate.writer.Nobody?
    ensures (forall a :: a in actions ==> Own(a, p)) && Run(s, actions).Some?
    ensures p < |Run(s, actions).value.submits| && Run(s, actions).value.submits[p].pc == Returned(Verdict(s, p))
    decreases SubmitWeight(s.submits[p])
  {
    hide Inv, Next, Verdict, SubmitWeight;
    var a := OwnMove(s, p);
    var t := Next(s, a).value;
    InvStep(s, a);
    if Undecided(t.submits[p].pc) {
      var rest := AnswerReached(t, p);
      actions := [a] + rest;
    } else {
      var u := Released(t, p);
      actions := [a, ReleaseRead(p)];
      assert actions[1..] == [ReleaseRead(p)] && [ReleaseRead(p)][1..] == [];
      assert Run(t, [ReleaseRead(p)]) == Run(u, []);
    }
  }

  lemma Released(s: Pool, p: nat) returns (t: Pool)
    requires Inv(s) && p < |s.submits| && s.submits[p].pc.Leaving?
    ensures Next(s, ReleaseRead(p)) == Some(t)
    ensures p < |t.submits| && t.submits[p].pc == Returned(s.submits[p].pc.outcome)
  {
    hide TaskInv;
    HoldersRead(s, p);
    t := Next(s, ReleaseRead(p)).value;
  }

  lemma HoldersRead(s: Pool, p: nat)
    requires ControlInv(s) && p < |s.submits| && HoldsRead(s.submits[p]) == 1
    ensures s.readers > 0
  {
    hide GateInv, QueueInv, WaitInv, Sum;
    SumBounds(s.submits, p, HoldsRead);
  }

  // Every refusal has its reason

  /** The queue of this connection is full, and no worker waits at it. */
  predicate Full(s: Pool, conn: nat) {
    s.size > 0 && |s.queues| == |s.workers| == s.size
    && s.queues[conn % s.size].Chan? && !s.queues[conn % s.size].closed
    && |s.queues[conn % s.size].items| >= s.capacity
    && (s.queues[conn % s.size].items != [] || !s.workers[conn % s.size].Idle?)
  }

  /** A call is refused only by a started pool, and one that does not wait only where its queue is full. */
  lemma RefusedWhenFull(s: Pool, a: Action, p: nat)
    requires Inv(s) && Next(s, a).Some? && (p < |s.submits| ==> !Told(s.submits[p].pc, Refused))
    requires p < |Next(s, a).value.submits| && Told(Next(s, a).value.submits[p].pc, Refused)
    ensures p < |s.submits| && s.gate.started && (!s.submits[p].blocking ==> Full(s, s.submits[p].conn))
  {
    hide ControlInv, TaskInv, Next;
    NewlyRefused(s, a, p);
    LaneOpen(s, p);
  }

  /** A call becomes refused where it waits for its queue and gives up. */
  lemma NewlyRefused(s: Pool, a: Action, p: nat)
    requires Next(s, a).Some? && (p < |s.submits| ==> !Told(s.submits[p].pc, Refused))
    requires p < |Next(s, a).value.submits| && Told(Next(s, a).value.submits[p].pc, Refused)
    ensures p < |s.submits| && s.submits[p].pc.Waiting? && s.size > 0
    ensures var q := s.submits[p].conn % s.size;
            !s.submits[p].blocking && q < |s.queues| && s.queues[q].Chan? ==> !s.queues[q].closed && !CanSend(s, q)
  {
    hide NextStart, NextStop, NextReceive, NextFinish, NextQuit;
    if p < |s.submits| {
      PcsStay(s, a, p);
    } else {
      NewCalls(s, a, p);
    }
  }

  lemma NewCalls(s: Pool, a: Action, p: nat)
    requires Next(s, a).Some? && |s.submits| <= p < |Next(s, a).value.submits|
    ensures Next(s, a).value.submits[p].pc.Calling?
  {
  }

  /** Only a call's own steps move it. */
  lemma PcsStay(s: Pool, a: Action, p: nat)
    requires Next(s, a).Some? && p < |s.submits|
    ensures p < |Next(s, a).value.submits|
    ensures Own(a, p) || Next(s, a).value.submits[p].pc == s.submits[p].pc
  {
  }

  ghost predicate StoppedInv(s: Pool) {
    forall p :: 0 <= p < |s.submits| && Told(s.submits[p].pc, Stopped) ==> s.gate.stopSignal
  }

  predicate StartedInv(g: Gate, size: nat) {
    && (size > 0 ==> forall j :: 0 <= j < |g.starts| && g.starts[j].Started? ==> g.startOnce.Done?)
    && (g.startOnce.Done? && !g.stopSignal ==> g.started)
  }

  /** A queue is within its capacity, but for one request on its way to a waiting worker. */
  predicate Within(q: Queue, w: Worker, capacity: nat) {
    |Items(q)| <= capacity || (|Items(q)| == 1 && w.Idle?)
  }

  ghost predicate ReasonInv(s: Pool) {
    StoppedInv(s) && StartedInv(s.gate, s.size) && AllWithin(s)
  }

  lemma StoppedStep(s: Pool, a: Action)
    requires StoppedInv(s) && Next(s, a).Some?
    ensures StoppedInv(Next(s, a).value)
  {
  }

  lemma StartedStep(s: Pool, a: Action)
    requires Inv(s) && StartedInv(s.gate, s.size) && Next(s, a).Some?
    ensures StartedInv(Next(s, a).value.gate, Next(s, a).value.size)
  {
    hide TaskInv, QueueInv, SubmitsInv, ReadersInv, WaitInv, Sum, StartedInv, NextStart, NextStop;
    if IsStartAction(a) {
      StartedByStart(s, a);
    } else if IsStopAction(a) {
      StartedByStop(s, a);
    } else {
      StartedByOthers(s, a);
    }
  }

  lemma StartedByStart(s: Pool, a: Action)
    requires GateInv(s.gate) && StartedInv(s.gate, s.size) && IsStartAction(a) && NextStart(s, a).Some?
    ensures StartedInv(NextStart(s, a).value.gate, NextStart(s, a).value.size)
  {
    assert StartInv(s.gate.starts[a.j], s.gate.startOnce == InProgress(a.j), s.gate.writer, s.gate.stopOnce.Done?);
  }

  lemma StartedByStop(s: Pool, a: Action)
    requires GateInv(s.gate) && StartedInv(s.gate, s.size) && IsStopAction(a) && NextStop(s, a).Some?
    ensures StartedInv(NextStop(s, a).value.gate, NextStop(s, a).value.size)
  {
    assert StopInv(s.gate.stops[a.j], s.gate.stopOnce == InProgress(a.j), s.gate.writer, s.gate.stopSignal,
                   s.gate.stopOnce.Done?);
  }

  lemma StartedByOthers(s: Pool, a: Action)
    requires StartedInv(s.gate, s.size) && Next(s, a).Some? && !IsStartAction(a) && !IsStopAction(a)
    ensures StartedInv(Next(s, a).value.gate, Next(s, a).value.size)
  {
    hide NextStart, NextStop;
  }

  ghost predicate AllWithin(s: Pool) {
    |s.queues| == |s.workers| == s.size && forall i :: 0 <= i < s.size ==> Within(s.queues[i], s.workers[i], s.capacity)
  }

  lemma WithinStep(s: Pool, a: Action)
    requires Inv(s) && AllWithin(s) && Next(s, a).Some?
    ensures AllWithin(Next(s, a).value)
  {
    hide TaskInv, GateInv, SubmitsInv, ReadersInv, WaitInv, Sum, NextStart, NextStop, AllWithin;
    if IsStartAction(a) {
      WithinStart(s, a);
    } else if IsStopAction(a) {
      WithinStop(s, a);
    } else {
      WithinCalls(s, a);
    }
  }

  lemma WithinStart(s: Pool, a: Action)
    requires QueueInv(s.gate, s.size, s.queues, s.workers) && AllWithin(s)
    requires IsStartAction(a) && NextStart(s, a).Some?
    ensures AllWithin(NextStart(s, a).value)
  {
  }

  lemma WithinStop(s: Pool, a: Action)
    requires AllWithin(s) && IsStopAction(a) && NextStop(s, a).Some?
    ensures AllWithin(NextStop(s, a).value)
  {
  }

  lemma WithinCalls(s: Pool, a: Action)
    requires AllWithin(s) && Next(s, a).Some? && !IsStartAction(a) && !IsStopAction(a)
    ensures AllWithin(Next(s, a).value)
  {
    hide NextStart, NextStop;
  }

  lemma SizesStay(s: Pool, a: Action)
    requires Next(s, a).Some?
    ensures Next(s, a).value.size == s.size && Next(s, a).value.capacity == s.capacity
  {
  }

  lemma {:induction false} ReasonRun(s: Pool, actions: seq<Action>)
    requires Inv(s) && ReasonInv(s) && Run(s, actions).Some?
    ensures var t := Run(s, actions).value;
            ReasonInv(t) && Inv(t) && t.size == s.size && t.capacity == s.capacity
    decreases |actions|
  {
    hide Inv, Next, AllWithin, StoppedInv, StartedInv;
    if actions != [] {
      InvStep(s, actions[0]);
      StoppedStep(s, actions[0]);
      StartedStep(s, actions[0]);
      WithinStep(s, actions[0]);
      SizesStay(s, actions[0]);
      ReasonRun(Next(s, actions[0]).value, actions[1..]);
    }
  }

  /** In every reachable state: who was told that the pool stops was told so under the stop signal; once a start
      call has returned and without the stop signal, the pool is started, its queues are open and its workers run;
      and no queue holds more than its capacity, or one request for a waiting worker. */
  lemma ReasonsHold(size: nat, capacity: nat, actions: seq<Action>)
    requires Run(Init(size, capacity), actions).Some?
    ensures var s := Run(Init(size, capacity), actions).value;
            && (forall p :: 0 <= p < |s.submits| && s.submits[p].pc == Returned(Stopped) ==> s.gate.stopSignal)
            && (size > 0 && !s.gate.stopSignal && (exists j :: 0 <= j < |s.gate.starts| && s.gate.starts[j].Started?)
                ==> s.gate.started && |s.queues| == |s.workers| == size
                    && forall i :: 0 <= i < size ==>
                         s.queues[i].Chan? && !s.queues[i].closed && (s.workers[i].Idle? || s.workers[i].Busy?))
            && (forall i :: 0 <= i < |s.queues| ==> |Items(s.queues[i])| <= if capacity == 0 then 1 else capacity)
  {
    hide Inv, ReasonInv, Next;
    TaskInit(size, capacity);
    ReasonInit(size, capacity);
    ReasonRun(Init(size, capacity), actions);
    ReasonsAt(Run(Init(size, capacity), actions).value);
  }

  lemma ReasonInit(size: nat, capacity: nat)
    ensures ReasonInv(Init(size, capacity))
  {
  }

  lemma ReasonsAt(s: Pool)
    requires Inv(s) && ReasonInv(s)
    ensures forall p :: 0 <= p < |s.submits| && s.submits[p].pc == Returned(Stopped) ==> s.gate.stopSignal
    ensures s.size > 0 && !s.gate.stopSignal && (exists j :: 0 <= j < |s.gate.starts| && s.gate.starts[j].Started?)
            ==> s.gate.started && |s.queues| == |s.workers| == s.size
                && forall i :: 0 <= i < s.size ==>
                     s.queues[i].Chan? && !s.queues[i].closed && (s.workers[i].Idle? || s.workers[i].Busy?)
    ensures forall i :: 0 <= i < |s.queues| ==> |Items(s.queues[i])| <= if s.capacity == 0 then 1 else s.capacity
  {
    hide TaskInv, SubmitsInv, ReadersInv, WaitInv, Sum;
    assert s.gate.startOnce.Done? ==> !IsSpawning(s.gate);
    assert !s.gate.stopSignal ==> !IsClosing(s.gate);
  }

  // A pool at rest

  /** The worker of a queue that is not empty can move, once it is launched. */
  lemma WorkerMoves(s: Pool, q: nat) returns (a: Action)
    requires ControlInv(s) && q < s.size == |s.queues| == |s.workers| && s.queues[q].Chan? && s.queues[q].items != []
    requires s.queues[q].items[0].id < |s.submits|
    requires s.workers[q].Busy? ==> s.workers[q].req.id < |s.submits|
    ensures (IsWorkerAction(a) || a.StartSpawn?) && Next(s, a).Some?
  {
    hide SubmitsInv, ReadersInv, WaitInv, Sum;
    OneLane(s, q);
    match s.workers[q]
    case Launching => a := StartSpawn(s.gate.startOnce.caller);
    case Busy(_) => a := Finish(q);
    case Idle => a := Receive(q);
  }

  /** A request that is accepted and not yet handled: a worker, its own goroutine or the start call can move. */
  lemma AcceptedMoves(s: Pool, p: nat) returns (a: Action)
    requires Inv(s) && p < |s.submits| && !s.submits[p].stage.Unaccepted? && !s.submits[p].stage.Handled?
    ensures (IsWorkerAction(a) || a.InlineBegin? || a.InlineEnd? || a.StartSpawn?) && Next(s, a).Some?
  {
    hide ControlInv, CountInv, OrderInv;
    match s.submits[p].stage
    case Spawned => a := InlineBegin(p);
    case Running(onWorker) => a := if onWorker then Finish(Lane(s.submits[p].conn, s.size)) else InlineEnd(p);
    case Queued =>
      var q := Lane(s.submits[p].conn, s.size);
      assert LanePlaced(Items(s.queues[q]), q, s.size, s.submits);
      assert s.queues[q].items[0] in Items(s.queues[q]);
      a := WorkerMoves(s, q);
  }

  /** Where neither a worker, nor a request's own goroutine, nor a start call that launches workers can move, every
      request that was accepted has been handled exactly once. */
  lemma QuietMeansHandled(size: nat, capacity: nat, actions: seq<Action>, p: nat)
    requires Run(Init(size, capacity), actions).Some?
    requires var s := Run(Init(size, capacity), actions).value;
             p < |s.submits|
             && forall a :: IsWorkerAction(a) || a.InlineBegin? || a.InlineEnd? || a.StartSpawn? ==> Next(s, a).None?
    ensures var s := Run(Init(size, capacity), actions).value;
            Count(s.log, Accept, p) == Count(s.log, Begin, p) == Count(s.log, End, p)
  {
    hide ControlInv, PlaceInv, OrderInv, Next;
    TaskInit(size, capacity);
    InvRun(Init(size, capacity), actions);
    var s := Run(Init(size, capacity), actions).value;
    if !s.submits[p].stage.Unaccepted? && !s.submits[p].stage.Handled? {
      var a := AcceptedMoves(s, p);
      assert false;
    }
  }
}
