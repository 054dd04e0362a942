/** What every interleaving of start, accept, connections and shutdown keeps. */
module ServerSafety {
  import opened Options
  import opened Counting
  import WP = WorkerPool
  import WPS = WorkerPoolSafety
  import WPH = WorkerPoolHistory
  import WPT = WorkerPoolTheorems
  import opened ServerLifecycle

  predicate StartHolds(pc: StarterPc) { pc.StartChecked? || pc.StartListened? || pc.StartsPool? }

  /** The shutdown goroutine has been through its section under the listener lock. */
  predicate PastLock(pc: ShutPc) { !pc.ShutIdle? && !pc.ShutSignalled? && !pc.ShutWants? }

  predicate PastClose(pc: ShutPc) { PastLock(pc) && !pc.ShutClosesListener? }

  predicate Cleared(pc: ShutPc) { PastClose(pc) && !pc.ShutClears? }

  predicate ConnsOver(pc: ShutPc) { pc.ShutStopsPool? || pc.ShutDone? }

  predicate LifeInv(l: Life, accept: AcceptPc) {
    && (l.lock == HeldByStart <==> StartHolds(l.starter))
    && (l.lock == HeldByAccept <==> accept.Registering?)
    && (!accept.NotAccepting? ==> l.starter.StartReturned? && !l.listener.Unbound?)
    && (l.starter.StartIdle? || l.starter.StartWants? || l.starter.StartChecked? ==> l.listener.Unbound?)
    && (l.starter.StartListened? || l.starter.StartsPool? ==> l.listener.Listening?)
    && (!l.shutdown.ShutIdle? ==> l.stopped)
    && (PastLock(l.shutdown) ==> l.lock == Free && !l.field)
    && (l.listener.Listening? <==> l.field || l.shutdown == ShutClosesListener(true))
    && (PastClose(l.shutdown) ==> !l.listener.Listening?)
  }

  predicate ReaderLive(pc: ReaderPc) { pc.Reading? || pc.Submitted? || pc.ReaderStops? }
  predicate WriterLive(pc: WriterPc) { pc.Writing? || pc.WriterStops? }
  predicate AfterIo(pc: MainPc) { pc.InStopHook? || pc.Removes? || pc.Removed? || pc.Ended? }

  predicate ConnInv(k: Conn, submits: nat) {
    && k.io == (if ReaderLive(k.reader) then 1 else 0) + (if WriterLive(k.writer) then 1 else 0)
    && (k.main.Launched? <==> k.writer.NoWriter?)
    && (k.main.Launched? || k.main.InStartHook? <==> k.reader.NoReader?)
    && (AfterIo(k.main) ==> k.reader.ReaderExited? && k.writer.WriterExited?)
    && (k.main.AwaitsIo? || AfterIo(k.main) ==> k.stopped)
    && (k.reader.ReaderStops? || k.reader.ReaderExited? ==> k.stopped)
    && (k.writer.WriterStops? || k.writer.WriterExited? ==> k.stopped)
    && k.starts == (if k.main.Launched? then 0 else 1)
    && k.stops == (if AfterIo(k.main) then 1 else 0)
    && (k.reader.Submitted? ==> k.reader.p < submits)
  }

  ghost predicate ConnsInv(conns: seq<Conn>, submits: nat) {
    forall i :: 0 <= i < |conns| ==> ConnInv(conns[i], submits)
  }

  predicate IsRegistered(k: Conn) { !k.main.Removed? && !k.main.Ended? }

  function Registered(k: Conn): nat { if IsRegistered(k) then 1 else 0 }

  function LiveConn(k: Conn): nat { if k.main.Ended? then 0 else 1 }

  function LiveAccept(pc: AcceptPc): nat { if pc.NotAccepting? || pc.AcceptExited? then 0 else 1 }

  /** Until shutdown empties it, the registry maps exactly the registered connections by their ids. */
  ghost predicate RegistryInv(conns: seq<Conn>, registry: map<nat, nat>, pc: ShutPc) {
    && (forall cid :: cid in registry ==>
          registry[cid] < |conns| && conns[registry[cid]].cid == cid && IsRegistered(conns[registry[cid]]))
    && (!Cleared(pc) ==> forall i :: 0 <= i < |conns| && IsRegistered(conns[i]) ==>
          conns[i].cid in registry && registry[conns[i].cid] == i)
    && (Cleared(pc) ==> registry == map[])
    && (pc.ShutStops? ==> forall i :: i in pc.left ==> i < |conns|)
    && (Cleared(pc) ==> forall i :: 0 <= i < |conns| ==> conns[i].stopped || (pc.ShutStops? && i in pc.left))
  }

  ghost predicate CountsInv(s: Server) {
    && !s.panicked
    && s.gauge == Sum(s.conns, Registered)
    && s.connWait == Sum(s.conns, LiveConn) + LiveAccept(s.accept)
    && (ConnsOver(s.life.shutdown) ==> s.connWait == 0)
  }

  /** How the server uses its pool: one start call, one stop call, and the stop signal before both locks. */
  ghost predicate UseInv(l: Life, pool: WP.Pool) {
    && (PastLock(l.shutdown) || l.shutdown.ShutWants? ==> pool.gate.stopSignal)
    && (!ConnsOver(l.shutdown) ==> pool.gate.stops == [])
    && (l.shutdown.ShutStopsPool? ==> l.shutdown.j < |pool.gate.stops|)
    && (l.shutdown.ShutDone? ==> WPT.Drained(pool))
    && (!l.starter.StartsPool? && !l.starter.StartReturned? ==> pool.gate.starts == [])
    && (l.starter.StartsPool? ==> |pool.gate.starts| == 1 && l.starter.j == 0)
    && (l.starter.StartReturned? ==> forall j :: 0 <= j < |pool.gate.starts| ==> pool.gate.starts[j].Started?)
  }

  ghost predicate PoolInv(pool: WP.Pool) { WPH.Inv(pool) && WPT.DrainInv(pool) }

  ghost predicate Inv(s: Server) {
    && PoolInv(s.pool)
    && UseInv(s.life, s.pool)
    && LifeInv(s.life, s.accept)
    && ConnsInv(s.conns, |s.pool.submits|)
    && RegistryInv(s.conns, s.registry, s.life.shutdown)
    && CountsInv(s)
  }

  lemma InitInv(size: nat, capacity: nat, maxConn: int)
    ensures Inv(Init(size, capacity, maxConn))
  {
    WPH.TaskInit(size, capacity);
  }

  /** Pool steps only add to the submissions and move the callers already there. */
  lemma PoolFrame(pool: WP.Pool, a: WP.Action)
    requires WPS.ControlInv(pool) && WP.Next(pool, a).Some?
    requires !a.Submitting? && !a.CallStart? && !a.CallStop? && !a.CallBeginStop?
    ensures var t := WP.Next(pool, a).value;
            && |t.submits| == |pool.submits| && |t.gate.stops| == |pool.gate.stops|
            && |t.gate.starts| == |pool.gate.starts|
            && (pool.gate.stopSignal ==> t.gate.stopSignal)
            && (forall j :: 0 <= j < |t.gate.starts| && pool.gate.starts[j].Started? ==> t.gate.starts[j].Started?)
  {
    hide WPS.ControlInv;
  }

  lemma PoolCallInv(pool: WP.Pool, a: WP.Action)
    requires PoolInv(pool) && (a.Submitting? || a.CallStart? || a.CallStop? || a.CallBeginStop?)
    ensures PoolInv(PoolCall(pool, a))
  {
    WPH.InvStep(pool, a);
    WPT.DrainStep(pool, a);
  }

  lemma PoolKeeps(s: Server, a: WP.Action)
    requires Inv(s) && NextPool(s, a).Some?
    ensures Inv(NextPool(s, a).value)
  {
    hide LifeInv, ConnInv, RegistryInv, WPH.TaskInv, WPT.DrainInv, Sum;
    var t := NextPool(s, a).value;
    WPH.InvStep(s.pool, a);
    WPT.DrainStep(s.pool, a);
    PoolFrame(s.pool, a);
    if s.life.shutdown.ShutDone? {
      WPT.DrainedStep(s.pool, a);
    }
  }

  lemma StartKeeps(s: Server, a: Action)
    requires Inv(s) && IsStart(a) && NextStart(s, a).Some?
    ensures Inv(NextStart(s, a).value)
  {
    hide ConnsInv, RegistryInv, PoolInv, Sum;
    if a.StartPool? {
      PoolCallInv(s.pool, WP.CallStart);
    }
  }

  lemma AcceptKeeps(s: Server, a: Action)
    requires Inv(s) && IsAccept(a) && NextAccept(s, a).Some?
    ensures Inv(NextAccept(s, a).value)
  {
    hide PoolInv, Sum;
    var t := NextAccept(s, a).value;
    if t.conns != s.conns {
      var k := Conn(s.nextCid % CONN_IDS, Launched, NoReader, NoWriter, 0, false, 0, 0);
      SumAppend(s.conns, k, Registered);
      SumAppend(s.conns, k, LiveConn);
    } else {
      hide ConnsInv;
    }
  }

  lemma ConnChange(s: Server, c: nat, k: Conn)
    requires Inv(s) && c < |s.conns|
    ensures Sum(s.conns[c := k], Registered) + Registered(s.conns[c]) == Sum(s.conns, Registered) + Registered(k)
    ensures Sum(s.conns[c := k], LiveConn) + LiveConn(s.conns[c]) == Sum(s.conns, LiveConn) + LiveConn(k)
    ensures LiveConn(s.conns[c]) <= s.connWait
    ensures ConnInv(s.conns[c], |s.pool.submits|)
  {
    hide PoolInv, UseInv, RegistryInv, LifeInv;
    SumUpdate(s.conns, c, k, Registered);
    SumUpdate(s.conns, c, k, LiveConn);
    SumBounds(s.conns, c, LiveConn);
  }

  /** A connection that stays registered, or not, and stays stopped leaves the registry alone. */
  lemma RegistrySame(s: Server, c: nat, k: Conn)
    requires RegistryInv(s.conns, s.registry, s.life.shutdown) && c < |s.conns|
    requires k.cid == s.conns[c].cid && (s.conns[c].stopped ==> k.stopped)
    requires IsRegistered(k) == IsRegistered(s.conns[c])
    ensures RegistryInv(s.conns[c := k], s.registry, s.life.shutdown)
  {
  }

  lemma MainKeeps(s: Server, a: Action)
    requires Inv(s) && IsMain(a) && NextMain(s, a).Some?
    ensures Inv(NextMain(s, a).value)
  {
    hide PoolInv, UseInv, LifeInv, Sum;
    var t := NextMain(s, a).value;
    ConnChange(s, a.c, t.conns[a.c]);
    if !a.ConnRemove? {
      hide RegistryInv;
      RegistrySame(s, a.c, t.conns[a.c]);
    }
  }

  lemma IoKeeps(s: Server, a: Action)
    requires Inv(s) && IsIo(a) && NextIo(s, a).Some?
    ensures Inv(NextIo(s, a).value)
  {
    hide PoolInv, LifeInv, RegistryInv, Sum;
    var t := NextIo(s, a).value;
    ConnChange(s, a.c, t.conns[a.c]);
    RegistrySame(s, a.c, t.conns[a.c]);
    if a.ReadMessage? {
      PoolCallInv(s.pool, WP.Submitting(s.conns[a.c].cid, a.blocking));
    }
  }

  /** Every connection not registered any more has been stopped, so the snapshot covers the others. */
  lemma ClearKeeps(s: Server)
    requires ConnsInv(s.conns, |s.pool.submits|) && s.life.shutdown.ShutClears?
    requires RegistryInv(s.conns, s.registry, s.life.shutdown)
    ensures RegistryInv(s.conns, map[], ShutStops(s.registry.Values))
  {
    forall i | 0 <= i < |s.conns| ensures s.conns[i].stopped || i in s.registry.Values {
      if IsRegistered(s.conns[i]) {
        assert s.registry[s.conns[i].cid] == i;
      } else {
        assert ConnInv(s.conns[i], |s.pool.submits|);
      }
    }
  }

  lemma ShutStopKeeps(s: Server, c: nat)
    requires Inv(s) && NextShut(s, ShutStop(c)).Some?
    ensures Inv(NextShut(s, ShutStop(c)).value)
  {
    hide PoolInv, Sum;
    ConnChange(s, c, s.conns[c].(stopped := true));
  }

  lemma ShutLife(s: Server, a: Action)
    requires Inv(s) && IsShut(a) && NextShut(s, a).Some?
    ensures var t := NextShut(s, a).value; LifeInv(t.life, t.accept) && UseInv(t.life, t.pool)
  {
    hide PoolInv, ConnsInv, RegistryInv, CountsInv;
    if a.ShutFinish? {
      DrainedAtFinish(s);
    }
  }

  lemma ShutPool(s: Server, a: Action)
    requires PoolInv(s.pool) && IsShut(a) && NextShut(s, a).Some?
    ensures PoolInv(NextShut(s, a).value.pool)
  {
    hide PoolInv;
    if a.ShutBegin? {
      PoolCallInv(s.pool, WP.CallBeginStop);
    } else if a.ShutAwait? {
      PoolCallInv(s.pool, WP.CallStop);
    }
  }

  lemma ShutKeeps(s: Server, a: Action)
    requires Inv(s) && IsShut(a) && NextShut(s, a).Some?
    ensures Inv(NextShut(s, a).value)
  {
    hide PoolInv, ConnsInv, LifeInv, UseInv, Sum;
    if a.ShutStop? {
      ShutStopKeeps(s, a.c);
    } else {
      ShutLife(s, a);
      ShutPool(s, a);
      if a.ShutClear? {
        ClearKeeps(s);
      }
    }
  }

  lemma DrainedAtFinish(s: Server)
    requires PoolInv(s.pool) && s.life.shutdown.ShutStopsPool? && s.life.shutdown.j < |s.pool.gate.stops|
    requires s.pool.gate.stops[s.life.shutdown.j].StopReturned?
    ensures WPT.Drained(s.pool)
  {
  }

  lemma InvStep(s: Server, a: Action)
    requires Inv(s) && Next(s, a).Some?
    ensures Inv(Next(s, a).value)
  {
    hide Inv, NextPool, NextStart, NextAccept, NextMain, NextIo, NextShut;
    if a.PoolStep? {
      PoolKeeps(s, a.a);
    } else if IsStart(a) {
      StartKeeps(s, a);
    } else if IsAccept(a) {
      AcceptKeeps(s, a);
    } else if IsMain(a) {
      MainKeeps(s, a);
    } else if IsIo(a) {
      IoKeeps(s, a);
    } else {
      ShutKeeps(s, a);
    }
  }

  lemma {:induction false} InvRun(s: Server, actions: seq<Action>)
    requires Inv(s) && Run(s, actions).Some?
    ensures Inv(Run(s, actions).value)
    decreases |actions|
  {
    hide Inv, Next;
    if actions != [] {
      InvStep(s, actions[0]);
      InvRun(Next(s, actions[0]).value, actions[1..]);
    }
  }
}
