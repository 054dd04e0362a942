/** The worker pool of gnet/msghandler.go as a transition system.

    Every goroutine that calls StartWorkerPool, StopWorkerPool or SendMsgToTaskQueue is an actor; an
    action is one step of one actor, cut at the lock, channel, atomic and wait-group operations of the
    source. Next gives the effect of an action, or None when the actor cannot take that step. The
    panics of the Go runtime (send on a closed channel, closing a nil or closed channel, a negative
    wait-group counter) are steps too: they set `panicked`. */
module WorkerPool {
  import opened Options
  import opened Counting

  datatype Outcome = Accepted | Stopped | Refused

  /** Where a caller of SendMsgToTaskQueue is; from Locked to Leaving it holds the read lock. */
  datatype SubmitPc =
    | Calling
    | Locked
    | Polled
    | Waiting
    | Leaving(outcome: Outcome)
    | Returned(outcome: Outcome)

  /** What has happened to the request itself. Spawned: its own goroutine was started because the
      pool was not; Queued: it was sent to a task queue. */
  datatype Stage = Unaccepted | Spawned | Queued | Running(onWorker: bool) | Handled

  datatype Submit = Submit(conn: nat, blocking: bool, pc: SubmitPc, stage: Stage)

  /** A request names the call that submits it and its connection. */
  datatype Request = Request(id: nat, conn: nat)

  datatype Worker = Unstarted | Launching | Idle | Busy(req: Request) | Exited

  datatype Queue = NilChan | Chan(items: seq<Request>, closed: bool)

  /** A sync.Once: not called, running its function in `caller`, or completed. */
  datatype Once = Fresh | InProgress(caller: nat) | Done

  datatype StartPc = StartCalled | StartWantsLock | StartLocked | StartPolled | Spawning(next: nat) | Started

  datatype StopPc = StopCalled | Signalled | StopWantsLock | Closing(next: nat) | AwaitingTasks | StopReturned

  /** History of the run: a request is accepted, its handler begins and ends, through a task queue or,
      without a pool, on a goroutine of its own. */
  datatype Kind = Accept | Begin | End
  datatype Event = Event(kind: Kind, req: Request, queued: bool)

  datatype Writer = Nobody | ByStart | ByStop

  /** The flags and sync.Once values of the pool, the holder of the write lock, and the callers of
      StartWorkerPool and StopWorkerPool. */
  datatype Gate = Gate(
    stopSignal: bool,
    started: bool,
    writer: Writer,
    startOnce: Once,
    starts: seq<StartPc>,
    stopOnce: Once,
    stops: seq<StopPc>)

  datatype Pool = Pool(
    size: nat,
    capacity: nat,
    gate: Gate,
    queues: seq<Queue>,
    workers: seq<Worker>,
    readers: nat,
    waitGroup: nat,
    submits: seq<Submit>,
    log: seq<Event>,
    panicked: bool)

  datatype Action =
    // calls made by the environment
    | Submitting(conn: nat, blocking: bool)
    | CallStart
    | CallStop
    | CallBeginStop
    // SendMsgToTaskQueue, caller p
    | AcquireRead(p: nat)
    | PollStop(p: nat)
    | Branch(p: nat)
    | Enqueue(p: nat)
    | GiveUp(p: nat, byStop: bool)
    | ReleaseRead(p: nat)
    // the goroutine of request p when there is no pool
    | InlineBegin(p: nat)
    | InlineEnd(p: nat)
    // worker i
    | Receive(i: nat)
    | Finish(i: nat)
    | Quit(i: nat)
    // StartWorkerPool, caller j
    | StartEnter(j: nat)
    | StartLock(j: nat)
    | StartPoll(j: nat)
    | StartMake(j: nat)
    | StartSpawn(j: nat)
    // StopWorkerPool, caller j
    | StopSignal(j: nat)
    | StopEnter(j: nat)
    | StopLock(j: nat)
    | StopClose(j: nat)
    | StopWait(j: nat)

  function Init(size: nat, capacity: nat): Pool {
    Pool(size, capacity, Gate(false, false, Nobody, Fresh, [], Fresh, []),
         seq(size, i => NilChan), seq(size, i => Unstarted), 0, 0, [], [], false)
  }

  /** The task queue of a connection: ConnID modulo the number of workers. */
  function Lane(conn: nat, size: nat): nat
    requires size > 0
  {
    conn % size
  }

  function SetPc(s: Pool, p: nat, pc: SubmitPc): Pool
    requires p < |s.submits|
  {
    s.(submits := s.submits[p := s.submits[p].(pc := pc)])
  }

  function SetStage(s: Pool, p: nat, stage: Stage): Pool
    requires p < |s.submits|
  {
    s.(submits := s.submits[p := s.submits[p].(stage := stage)])
  }

  function WaitGroupDone(s: Pool): Pool {
    if s.waitGroup == 0 then s.(panicked := true) else s.(waitGroup := s.waitGroup - 1)
  }

  /** A send can proceed when the buffer has room or the receiver is waiting at the empty channel. */
  predicate CanSend(s: Pool, q: nat)
    requires q < |s.queues| && s.queues[q].Chan?
  {
    |s.queues[q].items| < s.capacity
    || (s.queues[q].items == [] && q < |s.workers| && s.workers[q].Idle?)
  }

  function Next(s: Pool, a: Action): Option<Pool> {
    match a
    case Submitting(conn, blocking) =>
      Some(s.(submits := s.submits + [Submit(conn, blocking, Calling, Unaccepted)]))
    case CallStart => Some(s.(gate := s.gate.(starts := s.gate.starts + [StartCalled])))
    case CallStop => Some(s.(gate := s.gate.(stops := s.gate.stops + [StopCalled])))
    case CallBeginStop => Some(s.(gate := s.gate.(stopSignal := true)))
    case Receive(i) => NextReceive(s, i)
    case Finish(i) => NextFinish(s, i)
    case Quit(i) => NextQuit(s, i)
    case StartEnter(_) => NextStart(s, a)
    case StartLock(_) => NextStart(s, a)
    case StartPoll(_) => NextStart(s, a)
    case StartMake(_) => NextStart(s, a)
    case StartSpawn(_) => NextStart(s, a)
    case StopSignal(_) => NextStop(s, a)
    case StopEnter(_) => NextStop(s, a)
    case StopLock(_) => NextStop(s, a)
    case StopClose(_) => NextStop(s, a)
    case StopWait(_) => NextStop(s, a)
    case _ => if a.p < |s.submits| then NextSubmit(s, a) else None
  }

  function NextSubmit(s: Pool, a: Action): Option<Pool>
    requires a.AcquireRead? || a.PollStop? || a.Branch? || a.Enqueue? || a.GiveUp? || a.ReleaseRead?
             || a.InlineBegin? || a.InlineEnd?
    requires a.p < |s.submits|
  {
    var p := a.p;
    var me := s.submits[p];
    match a
    case AcquireRead(_) =>
      if me.pc.Calling? && s.gate.writer.Nobody? then Some(SetPc(s, p, Locked).(readers := s.readers + 1)) else None
    case PollStop(_) =>
      if !me.pc.Locked? then None
      else Some(SetPc(s, p, if s.gate.stopSignal then Leaving(Stopped) else Polled))
    case Branch(_) =>
      if !me.pc.Polled? then None
      else if s.gate.started then Some(SetPc(s, p, Waiting))
      else Some(SetStage(SetPc(s, p, Leaving(Accepted)), p, Spawned)
                .(waitGroup := s.waitGroup + 1, log := s.log + [Event(Accept, Request(p, me.conn), false)]))
    case Enqueue(_) =>
      if !me.pc.Waiting? || s.size == 0 then None
      else
        var q := Lane(me.conn, s.size);
        if |s.queues| <= q || s.queues[q].NilChan? then None
        else if s.queues[q].closed then Some(s.(panicked := true))
        else if !CanSend(s, q) then None
        else Some(SetStage(SetPc(s, p, Leaving(Accepted)), p, Queued)
                  .(queues := s.queues[q := Chan(s.queues[q].items + [Request(p, me.conn)], false)],
                    log := s.log + [Event(Accept, Request(p, me.conn), true)]))
    case GiveUp(_, byStop) =>
      if !me.pc.Waiting? || s.size == 0 then None
      else if byStop then
        if me.blocking && s.gate.stopSignal then Some(SetPc(s, p, Leaving(Stopped))) else None
      else
        var q := Lane(me.conn, s.size);
        // the default case of the non-blocking select is taken only if the send cannot proceed
        if !me.blocking && q < |s.queues| && s.queues[q].Chan? && (s.queues[q].closed || CanSend(s, q)) then None
        else Some(SetPc(s, p, Leaving(Refused)))
    case ReleaseRead(_) =>
      if !me.pc.Leaving? then None
      else if s.readers == 0 then Some(s.(panicked := true))
      else Some(SetPc(s, p, Returned(me.pc.outcome)).(readers := s.readers - 1))
    case InlineBegin(_) =>
      if !me.stage.Spawned? then None
      else Some(SetStage(s, p, Running(false)).(log := s.log + [Event(Begin, Request(p, me.conn), false)]))
    case InlineEnd(_) =>
      if me.stage != Running(false) then None
      else Some(WaitGroupDone(SetStage(s, p, Handled)).(log := s.log + [Event(End, Request(p, me.conn), false)]))
  }

  function NextReceive(s: Pool, i: nat): Option<Pool> {
    if i < |s.workers| && i < |s.queues| && s.workers[i].Idle? && s.queues[i].Chan? && s.queues[i].items != [] then
      var r := s.queues[i].items[0];
      if r.id >= |s.submits| then None
      else Some(SetStage(s, r.id, Running(true))
                .(queues := s.queues[i := Chan(s.queues[i].items[1..], s.queues[i].closed)],
                  workers := s.workers[i := Busy(r)],
                  log := s.log + [Event(Begin, r, true)]))
    else None
  }

  function NextFinish(s: Pool, i: nat): Option<Pool> {
    if i < |s.workers| && s.workers[i].Busy? && s.workers[i].req.id < |s.submits| then
      Some(SetStage(s, s.workers[i].req.id, Handled)
           .(workers := s.workers[i := Idle], log := s.log + [Event(End, s.workers[i].req, true)]))
    else None
  }

  function NextQuit(s: Pool, i: nat): Option<Pool> {
    if i < |s.workers| && i < |s.queues| && s.workers[i].Idle? && s.queues[i].Chan? && s.queues[i].closed
       && s.queues[i].items == [] then
      Some(WaitGroupDone(s.(workers := s.workers[i := Exited])))
    else None
  }

  function NextStart(s: Pool, a: Action): Option<Pool>
    requires a.StartEnter? || a.StartLock? || a.StartPoll? || a.StartMake? || a.StartSpawn?
  {
    var g, j := s.gate, a.j;
    if j >= |g.starts| then None
    else
      match a
      case StartEnter(_) =>
        if !g.starts[j].StartCalled? then None
        else if s.size == 0 || g.startOnce.Done? then Some(s.(gate := g.(starts := g.starts[j := Started])))
        else if g.startOnce.InProgress? then None
        else Some(s.(gate := g.(starts := g.starts[j := StartWantsLock], startOnce := InProgress(j))))
      case StartLock(_) =>
        if g.starts[j].StartWantsLock? && g.writer.Nobody? && s.readers == 0
        then Some(s.(gate := g.(starts := g.starts[j := StartLocked], writer := ByStart))) else None
      case StartPoll(_) =>
        if !g.starts[j].StartLocked? then None
        else if g.stopSignal then
          Some(s.(gate := g.(starts := g.starts[j := Started], startOnce := Done, writer := Nobody)))
        else Some(s.(gate := g.(starts := g.starts[j := StartPolled])))
      case StartMake(_) =>
        if !g.starts[j].StartPolled? then None
        else Some(s.(gate := g.(starts := g.starts[j := Spawning(0)], writer := Nobody, started := true),
                     waitGroup := s.waitGroup + s.size,
                     queues := seq(s.size, i => Chan([], false)),
                     workers := seq(s.size, i => Launching)))
      case StartSpawn(_) =>
        if !g.starts[j].Spawning? then None
        else
          var k := g.starts[j].next;
          if k < |s.workers| then
            Some(s.(gate := g.(starts := g.starts[j := Spawning(k + 1)]), workers := s.workers[k := Idle]))
          else Some(s.(gate := g.(starts := g.starts[j := Started], startOnce := Done)))
  }

  function NextStop(s: Pool, a: Action): Option<Pool>
    requires a.StopSignal? || a.StopEnter? || a.StopLock? || a.StopClose? || a.StopWait?
  {
    var g, j := s.gate, a.j;
    if j >= |g.stops| then None
    else
      match a
      case StopSignal(_) =>
        if g.stops[j].StopCalled?
        then Some(s.(gate := g.(stops := g.stops[j := Signalled], stopSignal := true))) else None
      case StopEnter(_) =>
        if !g.stops[j].Signalled? || g.stopOnce.InProgress? then None
        else if g.stopOnce.Done? then Some(s.(gate := g.(stops := g.stops[j := AwaitingTasks])))
        else Some(s.(gate := g.(stops := g.stops[j := StopWantsLock], stopOnce := InProgress(j))))
      case StopLock(_) =>
        if g.stops[j].StopWantsLock? && g.writer.Nobody? && s.readers == 0
        then Some(s.(gate := g.(stops := g.stops[j := Closing(0)], writer := ByStop))) else None
      case StopClose(_) =>
        if !g.stops[j].Closing? then None
        else
          var k := g.stops[j].next;
          if g.started && k < |s.queues| then
            if s.queues[k].NilChan? || s.queues[k].closed then Some(s.(panicked := true))
            else Some(s.(gate := g.(stops := g.stops[j := Closing(k + 1)]),
                         queues := s.queues[k := Chan(s.queues[k].items, true)]))
          else Some(s.(gate := g.(stops := g.stops[j := AwaitingTasks], started := false, writer := Nobody,
                                  stopOnce := Done)))
      case StopWait(_) =>
        if g.stops[j].AwaitingTasks? && s.waitGroup == 0
        then Some(s.(gate := g.(stops := g.stops[j := StopReturned]))) else None
  }

  /** The state after a sequence of actions, if each of them could be taken. */
  function Run(s: Pool, actions: seq<Action>): Option<Pool>
    decreases |actions|
  {
    if actions == [] then Some(s)
    else
      match Next(s, actions[0])
      case None => None
      case Some(t) => Run(t, actions[1..])
  }
}
