/** What happens to each accepted request, over whole runs of the worker pool. */
module WorkerPoolHistory {
  import opened Options
  import opened Counting
  import opened WorkerPool
  import opened WorkerPoolSafety

  /** How often an event of this kind was logged for the request of call p. */
  function Count(log: seq<Event>, kind: Kind, p: nat): nat {
    if log == [] then 0
    else
      var e := log[|log| - 1];
      Count(log[..|log| - 1], kind, p) + if e.kind == kind && e.req.id == p then 1 else 0
  }

  /** The requests of connection c that were accepted into (or begun, or ended from) a task queue, in order. */
  function ConnHistory(log: seq<Event>, kind: Kind, c: nat): seq<Request> {
    if log == [] then []
    else
      var e := log[|log| - 1];
      ConnHistory(log[..|log| - 1], kind, c) + if e.kind == kind && e.queued && e.req.conn == c then [e.req] else []
  }

  /** The requests of connection c among these. */
  function OfConn(items: seq<Request>, c: nat): seq<Request> {
    if items == [] then []
    else OfConn(items[..|items| - 1], c) + if items[|items| - 1].conn == c then [items[|items| - 1]] else []
  }

  lemma LogAppend(log: seq<Event>, e: Event)
    ensures forall k, p :: Count(log + [e], k, p) == Count(log, k, p) + if e.kind == k && e.req.id == p then 1 else 0
    ensures forall k, c :: ConnHistory(log + [e], k, c)
                           == ConnHistory(log, k, c)
                              + if e.kind == k && e.queued && e.req.conn == c then [e.req] else []
  {
    assert (log + [e])[..|log|] == log;
  }

  lemma OfConnAppend(items: seq<Request>, r: Request)
    ensures forall c :: OfConn(items + [r], c) == OfConn(items, c) + if r.conn == c then [r] else []
  {
    assert (items + [r])[..|items|] == items;
  }

  lemma {:induction false} OfConnHead(items: seq<Request>, c: nat)
    requires items != []
    ensures OfConn(items, c) == (if items[0].conn == c then [items[0]] else []) + OfConn(items[1..], c)
  {
    var last := |items| - 1;
    if last > 0 {
      OfConnHead(items[..last], c);
      assert items[1..][..last - 1] == items[..last][1..];
      assert items[1..][last - 1] == items[last];
    } else {
      assert items[..last] == [] && items[1..] == [];
    }
  }

  predicate Marked(m: Submit, r: Request, stage: Stage) { m.conn == r.conn && m.stage == stage }

  function Items(q: Queue): seq<Request> { if q.Chan? then q.items else [] }

  /** The requests in queue i: each marked Queued, each belonging to lane i, none twice. */
  ghost predicate LanePlaced(items: seq<Request>, i: nat, size: nat, submits: seq<Submit>) {
    && (forall r :: r in items ==>
          size > 0 && r.id < |submits| && Marked(submits[r.id], r, Queued) && Lane(r.conn, size) == i)
    && (forall k, l :: 0 <= k < l < |items| ==> items[k] != items[l])
  }

  /** The queues and workers hold exactly the requests marked Queued and Running, each in the lane of
      its connection and once. */
  ghost predicate PlaceInv(size: nat, queues: seq<Queue>, workers: seq<Worker>, submits: seq<Submit>) {
    && |queues| == |workers| == size
    && (forall i :: 0 <= i < size ==> LanePlaced(Items(queues[i]), i, size, submits))
    && (forall i :: 0 <= i < size && workers[i].Busy? ==>
          var r := workers[i].req;
          r.id < |submits| && Marked(submits[r.id], r, Running(true)) && Lane(r.conn, size) == i)
    && (forall p :: 0 <= p < |submits| && submits[p].stage.Queued? ==>
          size > 0 && Request(p, submits[p].conn) in Items(queues[Lane(submits[p].conn, size)]))
    && (forall p :: 0 <= p < |submits| && submits[p].stage == Running(true) ==>
          size > 0 && workers[Lane(submits[p].conn, size)] == Busy(Request(p, submits[p].conn)))
  }

  lemma LaneAppend(items: seq<Request>, r: Request, i: nat, size: nat, submits: seq<Submit>, m: Submit)
    requires LanePlaced(items, i, size, submits)
    requires r.id < |submits| && submits[r.id].stage.Unaccepted?
    requires size > 0 && Marked(m, r, Queued) && Lane(r.conn, size) == i
    ensures LanePlaced(items + [r], i, size, submits[r.id := m])
  {
    assert r !in items;
  }

  lemma LaneTail(items: seq<Request>, i: nat, size: nat, submits: seq<Submit>, m: Submit)
    requires LanePlaced(items, i, size, submits) && items != [] && m.conn == items[0].conn
    ensures items[0] in items && items[0].id < |submits|
    ensures LanePlaced(items[1..], i, size, submits[items[0].id := m])
  {
    assert items[0] in items;
    assert forall r :: r in items[1..] ==> r in items;
    assert items[0] !in items[1..];
    forall r | r in items[1..] ensures r.id != items[0].id {
      assert submits[r.id].conn == r.conn && submits[items[0].id].conn == items[0].conn;
    }
  }

  predicate StageCounts(stage: Stage, accepts: nat, begins: nat, ends: nat) {
    && accepts == (if stage.Unaccepted? then 0 else 1)
    && begins == (if stage.Running? || stage.Handled? then 1 else 0)
    && ends == (if stage.Handled? then 1 else 0)
  }

  ghost predicate CountInv(log: seq<Event>, submits: seq<Submit>) {
    && (forall p :: 0 <= p < |submits| ==>
          StageCounts(submits[p].stage, Count(log, Accept, p), Count(log, Begin, p), Count(log, End, p)))
    && (forall k, p :: p >= |submits| ==> Count(log, k, p) == 0)
  }

  /** For each connection: accepted = begun ++ still queued, and begun = ended ++ the one being handled. */
  ghost predicate OrderInv(s: Pool)
    requires |s.queues| == |s.workers| == s.size
  {
    forall c: nat :: if s.size > 0 then ConnOrder(s, c) else NothingQueued(s.log, c)
  }

  predicate NothingQueued(log: seq<Event>, c: nat) {
    ConnHistory(log, Accept, c) == ConnHistory(log, Begin, c) == ConnHistory(log, End, c) == []
  }

  predicate ConnOrder(s: Pool, c: nat)
    requires s.size > 0 && |s.queues| == |s.workers| == s.size
  {
    var i := Lane(c, s.size);
    && ConnHistory(s.log, Accept, c) == ConnHistory(s.log, Begin, c) + OfConn(Items(s.queues[i]), c)
    && ConnHistory(s.log, Begin, c) == ConnHistory(s.log, End, c)
       + if s.workers[i].Busy? && s.workers[i].req.conn == c then [s.workers[i].req] else []
  }

  ghost predicate TaskInv(s: Pool) {
    && PlaceInv(s.size, s.queues, s.workers, s.submits)
    && CountInv(s.log, s.submits)
    && OrderInv(s)
  }

  ghost predicate Inv(s: Pool) { ControlInv(s) && TaskInv(s) }

  lemma TaskInit(size: nat, capacity: nat)
    ensures Inv(Init(size, capacity))
  {
    ControlInit(size, capacity);
  }

  predicate OnLane(stage: Stage) { stage.Queued? || stage == Running(true) }

  /** A step of a request that is neither in a queue nor on a worker, before or after. */
  lemma PlaceElsewhere(size: nat, queues: seq<Queue>, workers: seq<Worker>, submits: seq<Submit>, p: nat, m: Submit)
    requires PlaceInv(size, queues, workers, submits)
    requires p < |submits| && m.conn == submits[p].conn
    requires m.stage == submits[p].stage || (!OnLane(m.stage) && !OnLane(submits[p].stage))
    ensures PlaceInv(size, queues, workers, submits[p := m])
  {
  }

  lemma PlaceEnqueue(size: nat, queues: seq<Queue>, workers: seq<Worker>, submits: seq<Submit>, p: nat, m: Submit)
    requires PlaceInv(size, queues, workers, submits)
    requires p < |submits| && m.conn == submits[p].conn && submits[p].stage.Unaccepted? && m.stage.Queued?
    requires size > 0 && queues[Lane(m.conn, size)].Chan?
    ensures var q := Lane(m.conn, size);
            PlaceInv(size, queues[q := Chan(queues[q].items + [Request(p, m.conn)], queues[q].closed)], workers,
                     submits[p := m])
  {
    var q, r := Lane(m.conn, size), Request(p, m.conn);
    var after := queues[q := Chan(queues[q].items + [r], queues[q].closed)];
    LaneAppend(Items(queues[q]), r, q, size, submits, m);
    forall i | 0 <= i < size && i != q ensures LanePlaced(Items(after[i]), i, size, submits[p := m]) {
      assert LanePlaced(Items(queues[i]), i, size, submits);
    }
    forall k | 0 <= k < |submits| && k != p && submits[k].stage.Queued?
      ensures Request(k, submits[k].conn) in Items(after[Lane(submits[k].conn, size)])
    {
      assert Request(k, submits[k].conn) in Items(queues[Lane(submits[k].conn, size)]);
    }
  }

  lemma PlaceReceive(size: nat, queues: seq<Queue>, workers: seq<Worker>, submits: seq<Submit>, i: nat)
    requires PlaceInv(size, queues, workers, submits)
    requires i < size && workers[i].Idle? && queues[i].Chan? && queues[i].items != []
    ensures var r := queues[i].items[0];
            r.id < |submits| && submits[r.id].stage.Queued? && Lane(r.conn, size) == i
            && PlaceInv(size, queues[i := Chan(queues[i].items[1..], queues[i].closed)], workers[i := Busy(r)],
                        submits[r.id := submits[r.id].(stage := Running(true))])
  {
    var r := queues[i].items[0];
    var after := queues[i := Chan(queues[i].items[1..], queues[i].closed)];
    assert LanePlaced(Items(queues[i]), i, size, submits);
    LaneTail(Items(queues[i]), i, size, submits, submits[r.id].(stage := Running(true)));
    var later := submits[r.id := submits[r.id].(stage := Running(true))];
    forall l | 0 <= l < size && l != i ensures LanePlaced(Items(after[l]), l, size, later) {
      assert LanePlaced(Items(queues[l]), l, size, submits);
    }
    forall p | 0 <= p < |submits| && p != r.id && submits[p].stage.Queued?
      ensures Request(p, submits[p].conn) in Items(after[Lane(submits[p].conn, size)])
    {
      var x := Request(p, submits[p].conn);
      assert x in Items(queues[Lane(x.conn, size)]);
      assert queues[i].items == [r] + queues[i].items[1..];
    }
  }

  lemma PlaceFinish(size: nat, queues: seq<Queue>, workers: seq<Worker>, submits: seq<Submit>, i: nat)
    requires PlaceInv(size, queues, workers, submits)
    requires i < size && workers[i].Busy?
    ensures var r := workers[i].req;
            r.id < |submits| && submits[r.id].stage == Running(true)
            && PlaceInv(size, queues, workers[i := Idle], submits[r.id := submits[r.id].(stage := Handled)])
  {
  }

  predicate StageStep(kind: Kind, before: Stage, after: Stage) {
    match kind
    case Accept => before.Unaccepted? && (after.Queued? || after.Spawned?)
    case Begin => (before.Queued? || before.Spawned?) && after.Running?
    case End => before.Running? && after.Handled?
  }

  /** An event for request p together with its new stage. */
  lemma CountStep(log: seq<Event>, submits: seq<Submit>, e: Event, m: Submit)
    requires CountInv(log, submits) && e.req.id < |submits|
    requires StageStep(e.kind, submits[e.req.id].stage, m.stage)
    ensures CountInv(log + [e], submits[e.req.id := m])
  {
    LogAppend(log, e);
  }

  /** Growing the history and the queues of one connection keeps the order of all connections. */
  lemma OrderEnqueue(s: Pool, t: Pool, r: Request)
    requires |s.queues| == |s.workers| == s.size == t.size && s.size > 0 && OrderInv(s)
    requires t.workers == s.workers && s.queues[Lane(r.conn, s.size)].Chan?
    requires t.log == s.log + [Event(Accept, r, true)]
    requires var q := Lane(r.conn, s.size);
             t.queues == s.queues[q := Chan(s.queues[q].items + [r], s.queues[q].closed)]
    ensures OrderInv(t)
  {
    LogAppend(s.log, Event(Accept, r, true));
    OfConnAppend(Items(s.queues[Lane(r.conn, s.size)]), r);
    forall c: nat ensures ConnOrder(t, c) {
      assert ConnOrder(s, c);
      if Lane(c, s.size) != Lane(r.conn, s.size) {
        assert t.queues[Lane(c, s.size)] == s.queues[Lane(c, s.size)];
      }
    }
  }

  lemma OrderReceive(s: Pool, t: Pool, i: nat)
    requires |s.queues| == |s.workers| == s.size == t.size && i < s.size && OrderInv(s)
    requires s.workers[i].Idle? && s.queues[i].Chan? && s.queues[i].items != []
    requires Lane(s.queues[i].items[0].conn, s.size) == i
    requires t.queues == s.queues[i := Chan(s.queues[i].items[1..], s.queues[i].closed)]
    requires t.workers == s.workers[i := Busy(s.queues[i].items[0])]
    requires t.log == s.log + [Event(Begin, s.queues[i].items[0], true)]
    ensures OrderInv(t)
  {
    LogAppend(s.log, Event(Begin, s.queues[i].items[0], true));
    forall c: nat ensures ConnOrder(t, c) {
      assert ConnOrder(s, c);
      if Lane(c, s.size) == i {
        OfConnHead(s.queues[i].items, c);
      }
    }
  }

  lemma OrderFinish(s: Pool, t: Pool, i: nat)
    requires |s.queues| == |s.workers| == s.size == t.size && i < s.size && OrderInv(s)
    requires s.workers[i].Busy? && Lane(s.workers[i].req.conn, s.size) == i
    requires t.queues == s.queues && t.workers == s.workers[i := Idle]
    requires t.log == s.log + [Event(End, s.workers[i].req, true)]
    ensures OrderInv(t)
  {
    LogAppend(s.log, Event(End, s.workers[i].req, true));
    forall c: nat ensures ConnOrder(t, c) {
      assert ConnOrder(s, c);
    }
  }

  /** Steps that log nothing for a queue and move no request. */
  lemma OrderSame(s: Pool, t: Pool)
    requires |s.queues| == |s.workers| == s.size == t.size == |t.queues| == |t.workers| && OrderInv(s)
    requires t.log == s.log || exists e :: t.log == s.log + [e] && !e.queued
    requires forall i :: 0 <= i < s.size ==> Items(t.queues[i]) == Items(s.queues[i])
    requires forall i :: 0 <= i < s.size ==>
               t.workers[i] == s.workers[i] || (!t.workers[i].Busy? && !s.workers[i].Busy?)
    ensures OrderInv(t)
  {
    if t.log != s.log {
      var e :| t.log == s.log + [e] && !e.queued;
      LogAppend(s.log, e);
    }
    forall c: nat ensures if t.size > 0 then ConnOrder(t, c) else NothingQueued(t.log, c) {
      if s.size > 0 {
        assert ConnOrder(s, c);
        var i := Lane(c, s.size);
        assert Items(t.queues[i]) == Items(s.queues[i]);
      } else {
        assert NothingQueued(s.log, c);
      }
    }
  }

  lemma TaskSubmit(s: Pool, a: Action)
    requires Inv(s) && IsSubmitAction(a) && a.p < |s.submits| && NextSubmit(s, a).Some?
    ensures TaskInv(NextSubmit(s, a).value)
  {
    hide GateInv, PlaceInv, OrderInv, ReadersInv, WaitInv;
    var t, p := NextSubmit(s, a).value, a.p;
    var me, m := s.submits[p], t.submits[p];
    assert SubmitInv(me, s.gate.started, s.gate.stopOnce.Done?);
    CountsSubmit(s, a);
    if t.log == s.log {
      PlaceElsewhere(s.size, s.queues, s.workers, s.submits, p, m);
      OrderSame(s, t);
    } else {
      var e := t.log[|s.log|];
      CountStep(s.log, s.submits, e, m);
      assert t.submits == s.submits[p := m];
      if a.Enqueue? {
        PlaceEnqueue(s.size, s.queues, s.workers, s.submits, p, m);
        OrderEnqueue(s, t, e.req);
      } else {
        PlaceElsewhere(s.size, s.queues, s.workers, s.submits, p, m);
        OrderSame(s, t);
      }
    }
  }

  lemma TaskWorker(s: Pool, a: Action)
    requires Inv(s) && IsWorkerAction(a) && NextWorker(s, a).Some?
    ensures TaskMarked(s, a) && TaskInv(NextWorker(s, a).value)
  {
    hide ControlInv, OrderInv;
    match a
    case Receive(i) => TaskReceive(s, i);
    case Finish(i) => TaskFinish(s, i);
    case Quit(i) => OrderSame(s, NextWorker(s, a).value);
  }

  lemma TaskReceive(s: Pool, i: nat)
    requires Inv(s) && NextReceive(s, i).Some?
    ensures TaskMarked(s, Receive(i)) && TaskInv(NextReceive(s, i).value)
  {
    hide GateInv, SubmitsInv, ReadersInv, WaitInv, OrderInv;
    var t := NextReceive(s, i).value;
    PlaceReceive(s.size, s.queues, s.workers, s.submits, i);
    CountStep(s.log, s.submits, t.log[|s.log|], t.submits[TaskOf(s, Receive(i))]);
    OrderReceive(s, t, i);
  }

  lemma TaskFinish(s: Pool, i: nat)
    requires Inv(s) && NextFinish(s, i).Some?
    ensures TaskMarked(s, Finish(i)) && TaskInv(NextFinish(s, i).value)
  {
    hide GateInv, SubmitsInv, ReadersInv, WaitInv, OrderInv;
    var t := NextFinish(s, i).value;
    PlaceFinish(s.size, s.queues, s.workers, s.submits, i);
    CountStep(s.log, s.submits, t.log[|s.log|], t.submits[TaskOf(s, Finish(i))]);
    OrderFinish(s, t, i);
  }

  /** Starting and stopping move no request: the queues are made empty, and closing keeps their contents. */
  lemma TaskGate(s: Pool, a: Action, t: Pool)
    requires Inv(s) && (IsStartAction(a) || IsStopAction(a)) && Next(s, a) == Some(t)
    ensures TaskInv(t)
  {
    hide PlaceInv, CountInv, OrderInv, ReadersInv, WaitInv;
    ContentsKept(s, a, t);
    PlaceSame(s, t);
    OrderSame(s, t);
  }

  lemma ContentsKept(s: Pool, a: Action, t: Pool)
    requires Inv(s) && (IsStartAction(a) || IsStopAction(a)) && Next(s, a) == Some(t)
    ensures t.size == s.size == |t.queues| == |t.workers| && t.submits == s.submits && t.log == s.log
    ensures forall i :: 0 <= i < s.size ==> Items(t.queues[i]) == Items(s.queues[i])
    ensures forall i :: 0 <= i < s.size ==> t.workers[i] == s.workers[i] || (!t.workers[i].Busy? && !s.workers[i].Busy?)
  {
    hide PlaceInv, CountInv, OrderInv, ReadersInv, WaitInv;
    if IsStartAction(a) {
      assert StartInv(s.gate.starts[a.j], s.gate.startOnce == InProgress(a.j), s.gate.writer, s.gate.stopOnce.Done?);
    }
  }

  lemma PlaceSame(s: Pool, t: Pool)
    requires PlaceInv(s.size, s.queues, s.workers, s.submits) && t.submits == s.submits
    requires t.size == s.size == |t.queues| == |t.workers|
    requires forall i :: 0 <= i < s.size ==> Items(t.queues[i]) == Items(s.queues[i])
    requires forall i :: 0 <= i < s.size ==>
               t.workers[i] == s.workers[i] || (!t.workers[i].Busy? && !s.workers[i].Busy?)
    ensures PlaceInv(t.size, t.queues, t.workers, t.submits)
  {
    forall i | 0 <= i < t.size ensures LanePlaced(Items(t.queues[i]), i, t.size, t.submits) {
      assert LanePlaced(Items(s.queues[i]), i, s.size, s.submits);
    }
  }

  lemma TaskCalls(s: Pool, a: Action)
    requires Inv(s) && (a.Submitting? || a.CallStart? || a.CallStop? || a.CallBeginStop?)
    ensures TaskInv(Next(s, a).value)
  {
    hide ControlInv, PlaceInv, CountInv, OrderInv;
    var t := Next(s, a).value;
    assert |s.queues| == |s.workers| == s.size by { Sized(s); }
    match a
    case Submitting(conn, blocking) =>
      PlaceMore(s.size, s.queues, s.workers, s.submits, Submit(conn, blocking, Calling, Unaccepted));
      CountMore(s.log, s.submits, Submit(conn, blocking, Calling, Unaccepted));
      OrderSame(s, t);
    case _ =>
      OrderSame(s, t);
  }

  lemma Sized(s: Pool)
    requires PlaceInv(s.size, s.queues, s.workers, s.submits)
    ensures |s.queues| == |s.workers| == s.size
  {
  }

  /** A call that has just begun has no request anywhere. */
  lemma PlaceMore(size: nat, queues: seq<Queue>, workers: seq<Worker>, submits: seq<Submit>, m: Submit)
    requires PlaceInv(size, queues, workers, submits) && m.stage.Unaccepted?
    ensures PlaceInv(size, queues, workers, submits + [m])
  {
    forall i | 0 <= i < size ensures LanePlaced(Items(queues[i]), i, size, submits + [m]) {
      assert LanePlaced(Items(queues[i]), i, size, submits);
    }
  }

  lemma CountMore(log: seq<Event>, submits: seq<Submit>, m: Submit)
    requires CountInv(log, submits) && m.stage.Unaccepted?
    ensures CountInv(log, submits + [m])
  {
  }

  lemma InvStep(s: Pool, a: Action)
    requires Inv(s) && Next(s, a).Some?
    ensures Inv(Next(s, a).value)
  {
    hide ControlInv, TaskInv;
    if IsSubmitAction(a) {
      TaskSubmit(s, a);
      ControlSubmit(s, a);
    } else if IsWorkerAction(a) {
      TaskWorker(s, a);
      ControlWorker(s, a);
    } else if IsStartAction(a) {
      ControlStart(s, a);
      TaskGate(s, a, Next(s, a).value);
    } else if IsStopAction(a) {
      ControlStop(s, a);
      TaskGate(s, a, Next(s, a).value);
    } else {
      ControlCalls(s, a);
      TaskCalls(s, a);
    }
  }

  lemma {:induction false} InvRun(s: Pool, actions: seq<Action>)
    requires Inv(s) && Run(s, actions).Some?
    ensures Inv(Run(s, actions).value)
    decreases |actions|
  {
    hide ControlInv, TaskInv;
    if actions != [] {
      InvStep(s, actions[0]);
      InvRun(Next(s, actions[0]).value, actions[1..]);
    }
  }
}
