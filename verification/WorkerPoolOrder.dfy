/** The order of the requests of one connection, once the pool has started. */
module WorkerPoolOrder {
  import opened Options
  import opened WorkerPool
  import opened WorkerPoolSafety
  import opened WorkerPoolHistory
  import opened WorkerPoolTheorems

  /** The requests with these ids in the order in which they were accepted (or begun, or ended), whether
      they went through a queue or not. */
  function History(log: seq<Event>, kind: Kind, ids: set<nat>): seq<Request> {
    if log == [] then []
    else
      var e := log[|log| - 1];
      History(log[..|log| - 1], kind, ids) + if e.kind == kind && e.req.id in ids then [e.req] else []
  }

  /** The ids of the requests of connection c that were accepted after the first n events. */
  function AcceptedAfter(log: seq<Event>, n: nat, c: nat): set<nat> {
    set i | n <= i < |log| && log[i].kind == Accept && log[i].req.conn == c :: log[i].req.id
  }

  // Every event of a request tells the same way of handling

  /** What a stage says about the way. */
  predicate FlagFits(stage: Stage, queued: bool) {
    match stage
    case Unaccepted => false
    case Spawned => !queued
    case Queued => queued
    case Running(onWorker) => onWorker == queued
    case Handled => true
  }

  ghost predicate FlagInv(log: seq<Event>, submits: seq<Submit>) {
    && (forall i :: 0 <= i < |log| ==>
          && log[i].req.id < |submits| && submits[log[i].req.id].conn == log[i].req.conn
          && FlagFits(submits[log[i].req.id].stage, log[i].queued))
    && (forall i, j :: 0 <= i < |log| && 0 <= j < |log| && log[i].req.id == log[j].req.id ==>
          log[i].queued == log[j].queued)
  }

  lemma FlagEvent(log: seq<Event>, submits: seq<Submit>, e: Event, m: Submit)
    requires FlagInv(log, submits) && e.req.id < |submits|
    requires m.conn == submits[e.req.id].conn == e.req.conn
    requires submits[e.req.id].stage.Unaccepted? || FlagFits(submits[e.req.id].stage, e.queued)
    requires !submits[e.req.id].stage.Handled? && FlagFits(m.stage, e.queued)
    ensures FlagInv(log + [e], submits[e.req.id := m])
  {
    var more, n := log + [e], |log|;
    assert more[n] == e;
    forall i | 0 <= i < n && log[i].req.id == e.req.id ensures log[i].queued == e.queued {
      assert FlagFits(submits[log[i].req.id].stage, log[i].queued);
    }
  }

  lemma FlagSame(log: seq<Event>, submits: seq<Submit>, after: seq<Submit>)
    requires FlagInv(log, submits) && |submits| <= |after|
    requires forall p :: 0 <= p < |submits| ==> after[p].conn == submits[p].conn && after[p].stage == submits[p].stage
    ensures FlagInv(log, after)
  {
  }

  lemma FlagSubmit(s: Pool, a: Action)
    requires FlagInv(s.log, s.submits) && SubmitsInv(s.gate, s.submits)
    requires IsSubmitAction(a) && a.p < |s.submits| && NextSubmit(s, a).Some?
    ensures FlagInv(NextSubmit(s, a).value.log, NextSubmit(s, a).value.submits)
  {
    hide FlagInv;
    var t := NextSubmit(s, a).value;
    assert SubmitInv(s.submits[a.p], s.gate.started, s.gate.stopOnce.Done?);
    if t.log == s.log {
      FlagSame(s.log, s.submits, t.submits);
    } else {
      assert t.log == s.log + [t.log[|s.log|]] && t.submits == s.submits[a.p := t.submits[a.p]];
      FlagEvent(s.log, s.submits, t.log[|s.log|], t.submits[a.p]);
    }
  }

  /** What a worker takes or has taken belongs to the connection it says. */
  lemma TaskConn(s: Pool, a: Action)
    requires PlaceInv(s.size, s.queues, s.workers, s.submits)
    requires IsWorkerAction(a) && NextWorker(s, a).Some? && !a.Quit?
    ensures TaskOf(s, a) < |s.submits|
    ensures var r := if a.Receive? then s.queues[a.i].items[0] else s.workers[a.i].req;
            s.submits[TaskOf(s, a)].conn == r.conn
  {
    if a.Receive? {
      assert LanePlaced(Items(s.queues[a.i]), a.i, s.size, s.submits);
      assert s.queues[a.i].items[0] in Items(s.queues[a.i]);
    }
  }

  lemma FlagWorker(s: Pool, a: Action)
    requires Inv(s) && FlagInv(s.log, s.submits) && IsWorkerAction(a) && NextWorker(s, a).Some?
    ensures FlagInv(NextWorker(s, a).value.log, NextWorker(s, a).value.submits)
  {
    hide FlagInv, ControlInv, CountInv, OrderInv;
    TaskWorker(s, a);
    if !a.Quit? {
      TaskConn(s, a);
      hide PlaceInv;
      var t := NextWorker(s, a).value;
      FlagEvent(s.log, s.submits, t.log[|s.log|], t.submits[TaskOf(s, a)]);
    }
  }

  lemma FlagGate(s: Pool, a: Action)
    requires (IsStartAction(a) || IsStopAction(a)) && Next(s, a).Some?
    ensures Next(s, a).value.log == s.log && Next(s, a).value.submits == s.submits
  {
  }

  lemma FlagStep(s: Pool, a: Action)
    requires Inv(s) && FlagInv(s.log, s.submits) && Next(s, a).Some?
    ensures FlagInv(Next(s, a).value.log, Next(s, a).value.submits)
  {
    hide FlagInv, TaskInv, NextSubmit, NextStart, NextStop, GateInv, QueueInv, ReadersInv, WaitInv, SubmitsInv;
    if IsSubmitAction(a) {
      FlagSubmit(s, a);
    } else if IsWorkerAction(a) {
      FlagWorker(s, a);
    } else if IsStartAction(a) || IsStopAction(a) {
      FlagGate(s, a);
    } else {
      FlagSame(s.log, s.submits, Next(s, a).value.submits);
    }
  }

  // Once the queues are made, acceptance means being queued

  lemma MadeStays(s: Pool, a: Action)
    requires QueueInv(s.gate, s.size, s.queues, s.workers) && Made(s.queues) && Next(s, a).Some?
    ensures Made(Next(s, a).value.queues)
  {
  }

  /** A request that is accepted after the pool has started goes through a queue. */
  lemma AcceptedIsQueued(s: Pool, a: Action)
    requires Inv(s) && Made(s.queues) && Next(s, a).Some?
    ensures var t := Next(s, a).value;
            s.log <= t.log && |t.log| <= |s.log| + 1
            && forall i :: |s.log| <= i < |t.log| && t.log[i].kind == Accept ==> t.log[i].queued
  {
    hide TaskInv, ReadersInv, WaitInv, GateInv;
    if IsSubmitAction(a) {
      assert SubmitInv(s.submits[a.p], s.gate.started, s.gate.stopOnce.Done?);
    }
  }

  lemma {:induction false} LaterAreQueued(s: Pool, actions: seq<Action>)
    requires Inv(s) && FlagInv(s.log, s.submits) && Made(s.queues) && Run(s, actions).Some?
    ensures var t := Run(s, actions).value;
            s.log <= t.log && Inv(t) && FlagInv(t.log, t.submits)
            && forall i :: |s.log| <= i < |t.log| && t.log[i].kind == Accept ==> t.log[i].queued
    decreases |actions|
  {
    hide FlagInv, ControlInv, TaskInv, Next, Made;
    if actions != [] {
      var t := Next(s, actions[0]).value;
      InvStep(s, actions[0]);
      FlagStep(s, actions[0]);
      QueuesOf(s);
      MadeStays(s, actions[0]);
      AcceptedIsQueued(s, actions[0]);
      LaterAreQueued(t, actions[1..]);
      var u := Run(t, actions[1..]).value;
      forall i | |s.log| <= i < |u.log| && u.log[i].kind == Accept ensures u.log[i].queued {
        if i < |t.log| {
          assert u.log[i] == t.log[i];
        }
      }
    }
  }

  lemma QueuesOf(s: Pool)
    requires ControlInv(s)
    ensures QueueInv(s.gate, s.size, s.queues, s.workers) && (s.gate.started ==> Made(s.queues))
  {
  }

  lemma {:induction false} FlagRun(s: Pool, actions: seq<Action>)
    requires Inv(s) && FlagInv(s.log, s.submits) && Run(s, actions).Some?
    ensures var t := Run(s, actions).value; Inv(t) && FlagInv(t.log, t.submits)
    decreases |actions|
  {
    hide FlagInv, Inv, Next;
    if actions != [] {
      InvStep(s, actions[0]);
      FlagStep(s, actions[0]);
      FlagRun(Next(s, actions[0]).value, actions[1..]);
    }
  }

  // Order

  /** The requests with these ids among these. */
  function Keep(items: seq<Request>, ids: set<nat>): seq<Request> {
    if items == [] then []
    else Keep(items[..|items| - 1], ids) + if items[|items| - 1].id in ids then [items[|items| - 1]] else []
  }

  lemma {:induction false} KeepAppend(a: seq<Request>, b: seq<Request>, ids: set<nat>)
    ensures Keep(a + b, ids) == Keep(a, ids) + Keep(b, ids) && |Keep(b, ids)| <= |b|
    decreases |b|
  {
    if b == [] {
      assert a + b == a;
    } else {
      var n := |b| - 1;
      assert (a + b)[..|a + b| - 1] == a + b[..n];
      KeepAppend(a, b[..n], ids);
    }
  }

  lemma KeepOne(items: seq<Request>, r: Request, ids: set<nat>)
    ensures Keep(items + [r], ids) == Keep(items, ids) + if r.id in ids then [r] else []
  {
    assert (items + [r])[..|items|] == items;
  }

  /** Queued requests of one connection: their history is part of the history of its queue. */
  lemma {:induction false} HistoryOfQueue(log: seq<Event>, kind: Kind, ids: set<nat>, c: nat)
    requires forall i :: 0 <= i < |log| && log[i].req.id in ids ==> log[i].queued && log[i].req.conn == c
    ensures History(log, kind, ids) == Keep(ConnHistory(log, kind, c), ids)
  {
    if log != [] {
      var n := |log| - 1;
      HistoryOfQueue(log[..n], kind, ids, c);
      var e, before := log[n], ConnHistory(log[..n], kind, c);
      KeepOne(before, e.req, ids);
      assert before + [] == before;
    }
  }

  lemma KeepOrder(ended: seq<Request>, begun: seq<Request>, accepted: seq<Request>, ids: set<nat>)
    requires ended <= begun <= accepted && |begun| <= |ended| + 1
    ensures Keep(ended, ids) <= Keep(begun, ids) <= Keep(accepted, ids) && |Keep(begun, ids)| <= |Keep(ended, ids)| + 1
  {
    hide Keep;
    var b, a := begun[|ended|..], accepted[|begun|..];
    assert begun == ended + b && accepted == begun + a;
    KeepAppend(ended, b, ids);
    KeepAppend(begun, a, ids);
  }

  /** The requests of one connection that are accepted after the pool has started are handled in the order
      of their acceptance, and one at a time. */
  lemma ConnectionOrder(size: nat, capacity: nat, actions: seq<Action>, later: seq<Action>, c: nat)
    requires Run(Init(size, capacity), actions).Some?
    requires var s := Run(Init(size, capacity), actions).value; s.gate.started && Run(s, later).Some?
    ensures var s := Run(Init(size, capacity), actions).value;
            var log := Run(s, later).value.log;
            var ids := AcceptedAfter(log, |s.log|, c);
            && s.log <= log
            && History(log, End, ids) <= History(log, Begin, ids) <= History(log, Accept, ids)
            && |History(log, Begin, ids)| <= |History(log, End, ids)| + 1
  {
    hide FlagInv, ControlInv, TaskInv, Made, Keep, History, ConnHistory;
    TaskInit(size, capacity);
    FlagNone(Init(size, capacity).submits);
    FlagRun(Init(size, capacity), actions);
    var s := Run(Init(size, capacity), actions).value;
    QueuesOf(s);
    LaterAreQueued(s, later);
    var t := Run(s, later).value;
    var ids := AcceptedAfter(t.log, |s.log|, c);
    OfOneConnection(t.log, t.submits, |s.log|, c);
    QueueOrderAt(t, c);
    HistoryOfQueue(t.log, Accept, ids, c);
    HistoryOfQueue(t.log, Begin, ids, c);
    HistoryOfQueue(t.log, End, ids, c);
    KeepOrder(ConnHistory(t.log, End, c), ConnHistory(t.log, Begin, c), ConnHistory(t.log, Accept, c), ids);
  }

  lemma FlagNone(submits: seq<Submit>)
    ensures FlagInv([], submits)
  {
  }

  lemma OfOneConnection(log: seq<Event>, submits: seq<Submit>, n: nat, c: nat)
    requires FlagInv(log, submits)
    requires forall i :: n <= i < |log| && log[i].kind == Accept ==> log[i].queued
    ensures forall i :: 0 <= i < |log| && log[i].req.id in AcceptedAfter(log, n, c) ==>
              log[i].queued && log[i].req.conn == c
  {
  }
}
