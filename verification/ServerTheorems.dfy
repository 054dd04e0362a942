/** The promises of the server lifecycle, for every interleaving. */
module ServerTheorems {
  import opened Options
  import opened Counting
  import WP = WorkerPool
  import WPH = WorkerPoolHistory
  import WPT = WorkerPoolTheorems
  import opened ServerLifecycle
  import opened ServerSafety

  /** No wait group of the server or its connections goes negative, and the pool never panics. */
  lemma NeverPanics(size: nat, capacity: nat, maxConn: int, actions: seq<Action>)
    requires Run(Init(size, capacity, maxConn), actions).Some?
    ensures var s := Run(Init(size, capacity, maxConn), actions).value; !s.panicked && !s.pool.panicked
  {
    InitInv(size, capacity, maxConn);
    InvRun(Init(size, capacity, maxConn), actions);
  }

  /** A connection runs its start hook once, before its stop hook, and its stop hook at most once, after
      it was stopped and its reader and writer are gone. When its goroutine ends it has run both. */
  lemma HooksRunOnce(size: nat, capacity: nat, maxConn: int, actions: seq<Action>, c: nat)
    requires Run(Init(size, capacity, maxConn), actions).Some?
    requires c < |Run(Init(size, capacity, maxConn), actions).value.conns|
    ensures var k := Run(Init(size, capacity, maxConn), actions).value.conns[c];
            && k.stops <= k.starts <= 1
            && (k.stops == 1 ==> k.stopped && k.reader.ReaderExited? && k.writer.WriterExited?)
            && (k.main.Ended? ==> k.starts == k.stops == 1)
  {
    InitInv(size, capacity, maxConn);
    InvRun(Init(size, capacity, maxConn), actions);
    var s := Run(Init(size, capacity, maxConn), actions).value;
    assert ConnInv(s.conns[c], |s.pool.submits|);
  }

  /** The server after shutdownDone is closed: every connection has ended, none is counted or registered. */
  predicate Over(s: Server) {
    && s.life.shutdown.ShutDone?
    && s.gauge == 0 && s.connWait == 0 && s.registry == map[]
    && WPT.Drained(s.pool)
    && (forall i :: 0 <= i < |s.conns| ==> s.conns[i].main.Ended? && s.conns[i].starts == s.conns[i].stops == 1)
  }

  lemma DoneMeansOver(s: Server)
    requires Inv(s) && s.life.shutdown.ShutDone?
    ensures Over(s)
  {
    hide PoolInv;
    SumZero(s.conns, LiveConn);
    forall i | 0 <= i < |s.conns| ensures s.conns[i].main.Ended? && s.conns[i].starts == s.conns[i].stops == 1 {
      assert LiveConn(s.conns[i]) == 0;
      assert ConnInv(s.conns[i], |s.pool.submits|);
    }
    SumZero(s.conns, Registered);
  }

  lemma OverStep(s: Server, a: Action)
    requires Inv(s) && Over(s) && Next(s, a).Some?
    ensures var t := Next(s, a).value;
            t.life.shutdown.ShutDone? && t.conns == s.conns && t.pool.log == s.pool.log
  {
    hide CountsInv, PoolInv, RegistryInv, ConnsInv, UseInv, WP.Next, NextMain, NextIo, PoolCall;
    OverActors(s);
    if a.PoolStep? {
      OverPool(s, a.a);
    } else if IsMain(a) || IsIo(a) {
      OverConn(s, a);
    }
  }

  lemma OverConn(s: Server, a: Action)
    requires Over(s) && (IsMain(a) || IsIo(a))
    requires forall i :: 0 <= i < |s.conns| ==>
               s.conns[i].reader.ReaderExited? && s.conns[i].writer.WriterExited? && s.conns[i].stopped
    ensures Next(s, a).None?
  {
  }

  lemma OverPool(s: Server, a: WP.Action)
    requires PoolInv(s.pool) && WPT.Drained(s.pool) && NextPool(s, a).Some?
    ensures NextPool(s, a).value.pool.log == s.pool.log
  {
    WPT.DrainedStep(s.pool, a);
  }

  /** No goroutine of the server is left. */
  lemma OverActors(s: Server)
    requires Inv(s) && Over(s)
    ensures s.accept.NotAccepting? || s.accept.AcceptExited?
    ensures forall i :: 0 <= i < |s.conns| ==>
              s.conns[i].reader.ReaderExited? && s.conns[i].writer.WriterExited? && s.conns[i].stopped
  {
    hide PoolInv, UseInv, RegistryInv, LifeInv;
    assert forall i :: 0 <= i < |s.conns| ==> ConnInv(s.conns[i], |s.pool.submits|);
  }

  lemma {:induction false} OverRun(s: Server, actions: seq<Action>)
    requires Inv(s) && s.life.shutdown.ShutDone? && Run(s, actions).Some?
    ensures var t := Run(s, actions).value;
            Inv(t) && t.life.shutdown.ShutDone? && t.conns == s.conns && t.pool.log == s.pool.log
    decreases |actions|
  {
    hide Inv, Next;
    if actions != [] {
      DoneMeansOver(s);
      OverStep(s, actions[0]);
      InvStep(s, actions[0]);
      OverRun(Next(s, actions[0]).value, actions[1..]);
    }
  }

  /** Once shutdownDone is closed every registered connection has run both hooks, the gauge is 0, no
      connection is registered, every accepted request has been handled exactly once, and in no
      continuation does a hook or a handler begin or end. */
  lemma ShutdownIsFinal(size: nat, capacity: nat, maxConn: int, actions: seq<Action>, later: seq<Action>)
    requires Run(Init(size, capacity, maxConn), actions).Some?
    requires var s := Run(Init(size, capacity, maxConn), actions).value;
             s.life.shutdown.ShutDone? && Run(s, later).Some?
    ensures var s := Run(Init(size, capacity, maxConn), actions).value;
            && Over(s)
            && (forall p :: 0 <= p < |s.pool.submits| && s.pool.submits[p].pc == WP.Returned(WP.Accepted) ==>
                  WPH.Count(s.pool.log, WP.Begin, p) == WPH.Count(s.pool.log, WP.End, p) == 1)
            && Over(Run(s, later).value)
            && Run(s, later).value.conns == s.conns
            && Run(s, later).value.pool.log == s.pool.log
  {
    InitInv(size, capacity, maxConn);
    InvRun(Init(size, capacity, maxConn), actions);
    var s := Run(Init(size, capacity, maxConn), actions).value;
    DoneMeansOver(s);
    OverRun(s, later);
    DoneMeansOver(Run(s, later).value);
    AllHandled(s.pool);
  }

  lemma AllHandled(pool: WP.Pool)
    requires PoolInv(pool) && WPT.Drained(pool)
    ensures forall p :: 0 <= p < |pool.submits| && pool.submits[p].pc == WP.Returned(WP.Accepted) ==>
              WPH.Count(pool.log, WP.Begin, p) == WPH.Count(pool.log, WP.End, p) == 1
  {
    WPT.DrainedMeansHandled(pool);
  }
}
