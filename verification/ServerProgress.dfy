/** Shutdown completes: from the moment its stop signals are out, every step of the server, its peers or
    its pool lowers a measure, and until shutdownDone is closed some step that needs no peer is enabled. */
module ServerProgress {
  import opened Options
  import opened Counting
  import WP = WorkerPool
  import WPS = WorkerPoolSafety
  import WPH = WorkerPoolHistory
  import WPP = WorkerPoolProgress
  import opened ServerLifecycle
  import opened ServerSafety
  import opened ServerTheorems

  /** A submission that may still be accepted after the stop signal: it passed the first check before. */
  predicate Hopeful(m: WP.Submit) {
    m.pc.Polled? || m.pc.Waiting? || m.pc == WP.Leaving(WP.Accepted) || m.pc == WP.Returned(WP.Accepted)
  }

  function MainWeight(pc: MainPc): nat {
    match pc
    case Launched => 30 case InStartHook => 27 case AwaitsExit => 6 case AwaitsIo => 5
    case InStopHook => 4 case Removes => 3 case Removed => 2 case Ended => 0
  }

  function ReaderWeight(pc: ReaderPc, submits: seq<WP.Submit>): nat {
    match pc
    case NoReader => 0
    case Reading => 20
    case Submitted(p) => if p < |submits| && Hopeful(submits[p]) then 21 else 3
    case ReaderStops => 1
    case ReaderExited => 0
  }

  function WriterWeight(pc: WriterPc): nat {
    match pc case NoWriter => 0 case Writing => 2 case WriterStops => 1 case WriterExited => 0
  }

  function ConnWeight(k: Conn, submits: seq<WP.Submit>): nat {
    MainWeight(k.main) + ReaderWeight(k.reader, submits) + WriterWeight(k.writer) + if k.stopped then 0 else 1
  }

  function ConnWeights(submits: seq<WP.Submit>): Conn -> nat { k => ConnWeight(k, submits) }

  function AcceptWeight(pc: AcceptPc): nat {
    match pc
    case NotAccepting => 0 case AtAccept => 3 case AcceptChecks => 2 case AcceptWants => 2
    case Registering => 36 case AcceptExited => 0
  }

  function StarterWeight(pc: StarterPc, size: nat): nat {
    match pc
    case StartIdle => 3 * size + 15
    case StartWants => 3 * size + 14
    case StartChecked => 3 * size + 13
    case StartListened => 3 * size + 12
    case StartsPool(_) => 5
    case StartReturned => 0
  }

  function ShutWeight(pc: ShutPc, conns: nat, size: nat): nat {
    match pc
    case ShutIdle => 0
    case ShutSignalled => 0
    case ShutWants => size + 12 + conns
    case ShutClosesListener(_) => size + 11 + conns
    case ShutClears => size + 10 + conns
    case ShutStops(left) => size + 9 + |left|
    case ShutAwaitsConns => size + 8
    case ShutStopsPool(_) => 1
    case ShutDone => 0
  }

  function Measure(s: Server): nat {
    WPP.Measure(s.pool) + Sum(s.conns, ConnWeights(s.pool.submits)) + AcceptWeight(s.accept)
    + StarterWeight(s.life.starter, s.pool.size) + ShutWeight(s.life.shutdown, |s.conns|, s.pool.size)
  }

  /** The shutdown goroutine is running. */
  predicate Stopping(pc: ShutPc) { pc.ShutWants? || PastLock(pc) }

  /** Under the stop signal no submission becomes hopeful. */
  lemma HopeFades(pool: WP.Pool, a: WP.Action, p: nat)
    requires pool.gate.stopSignal && WP.Next(pool, a).Some? && p < |pool.submits|
    ensures p < |WP.Next(pool, a).value.submits|
    ensures Hopeful(WP.Next(pool, a).value.submits[p]) ==> Hopeful(pool.submits[p])
  {
    hide WP.NextStart, WP.NextStop;
    StartKeepsSubmits(pool, a);
    StopKeepsSubmits(pool, a);
  }

  lemma StartKeepsSubmits(pool: WP.Pool, a: WP.Action)
    ensures (a.StartEnter? || a.StartLock? || a.StartPoll? || a.StartMake? || a.StartSpawn?)
            && WP.NextStart(pool, a).Some?
            ==> WP.NextStart(pool, a).value.submits == pool.submits
  {
  }

  lemma StopKeepsSubmits(pool: WP.Pool, a: WP.Action)
    ensures (a.StopSignal? || a.StopEnter? || a.StopLock? || a.StopClose? || a.StopWait?) && WP.NextStop(pool, a).Some?
            ==> WP.NextStop(pool, a).value.submits == pool.submits
  {
  }

  lemma PoolSizeKept(pool: WP.Pool, a: WP.Action)
    requires WP.Next(pool, a).Some?
    ensures WP.Next(pool, a).value.size == pool.size
  {
  }

  lemma PoolFalls(s: Server, a: WP.Action)
    requires Inv(s) && Stopping(s.life.shutdown) && NextPool(s, a).Some?
    ensures Measure(NextPool(s, a).value) < Measure(s)
  {
    hide LifeInv, CountsInv, RegistryInv, WPP.Measure, WP.Next, Sum, WPH.Inv;
    var pool := WP.Next(s.pool, a).value;
    WPP.StepFalls(s.pool, a);
    PoolSizeKept(s.pool, a);
    forall i | 0 <= i < |s.conns|
      ensures ConnWeights(pool.submits)(s.conns[i]) <= ConnWeights(s.pool.submits)(s.conns[i])
    {
      assert ConnInv(s.conns[i], |s.pool.submits|);
      if s.conns[i].reader.Submitted? {
        HopeFades(s.pool, a, s.conns[i].reader.p);
      }
    }
    SumMonotone(s.conns, ConnWeights(pool.submits), ConnWeights(s.pool.submits));
  }

  /** What calls add to the measure of the pool. */
  lemma PoolCallGrows(pool: WP.Pool, a: WP.Action)
    requires a.Submitting? || a.CallStart? || a.CallStop? || a.CallBeginStop?
    ensures var t := PoolCall(pool, a);
            t.size == pool.size
            && WPP.Measure(t) == WPP.Measure(pool) + (match a case Submitting(_, _) => 9
                                                             case CallStart => 3 * pool.size + 6
                                                             case CallStop => pool.size + 6
                                                             case _ => 0)
  {
    hide Sum;
    match a
    case Submitting(conn, blocking) =>
      SumAppend(pool.submits, WP.Submit(conn, blocking, WP.Calling, WP.Unaccepted), WPP.SubmitWeight);
    case CallStart => SumAppend(pool.gate.starts, WP.StartCalled, WPP.StartWeights(pool.size));
    case CallStop => SumAppend(pool.gate.stops, WP.StopCalled, WPP.StopWeights(pool.size));
    case _ =>
  }

  lemma StartFalls(s: Server, a: Action)
    requires Inv(s) && Stopping(s.life.shutdown) && IsStart(a) && NextStart(s, a).Some?
    ensures Measure(NextStart(s, a).value) < Measure(s)
  {
    hide PoolInv, CountsInv, RegistryInv, WPP.Measure, Sum;
    if a.StartPool? {
      PoolCallGrows(s.pool, WP.CallStart);
    }
  }

  lemma AcceptFalls(s: Server, a: Action)
    requires Inv(s) && Stopping(s.life.shutdown) && IsAccept(a) && NextAccept(s, a).Some?
    ensures Measure(NextAccept(s, a).value) < Measure(s)
  {
    hide Inv, NextAccept, Measure, Stopping;
    StoppedWhenStopping(s);
    AcceptKeeps(s, a);
    InvNotPanicked(NextAccept(s, a).value);
    InvNotPanicked(s);
    AcceptLowers(s, a);
  }

  lemma AcceptLowers(s: Server, a: Action)
    requires IsAccept(a) && NextAccept(s, a).Some? && !s.panicked && !NextAccept(s, a).value.panicked
    requires s.life.stopped && (PastLock(s.life.shutdown) ==> !s.accept.Registering?)
    ensures Measure(NextAccept(s, a).value) < Measure(s)
  {
    hide Sum, WPP.Measure, ConnWeight, StarterWeight;
    var t := NextAccept(s, a).value;
    if t.conns != s.conns {
      var k := t.conns[|s.conns|];
      SumAppend(s.conns, k, ConnWeights(s.pool.submits));
      FreshWeight(k, s.pool.submits);
    }
  }

  lemma StoppedWhenStopping(s: Server)
    requires Inv(s) && Stopping(s.life.shutdown)
    ensures s.life.stopped && (PastLock(s.life.shutdown) ==> !s.accept.Registering?)
  {
  }

  lemma InvNotPanicked(s: Server)
    requires Inv(s)
    ensures !s.panicked
  {
  }

  lemma FreshWeight(k: Conn, submits: seq<WP.Submit>)
    requires k.main.Launched? && k.reader.NoReader? && k.writer.NoWriter? && !k.stopped
    ensures ConnWeight(k, submits) == 31
  {
  }

  /** A step of one connection that lowers its weight and touches no other actor. */
  predicate OnlyConn(s: Server, t: Server, c: nat) {
    && c < |s.conns| == |t.conns| && t.conns == s.conns[c := t.conns[c]]
    && ConnWeight(t.conns[c], s.pool.submits) < ConnWeight(s.conns[c], s.pool.submits)
    && t.pool == s.pool && t.life == s.life && t.accept == s.accept
  }

  lemma OnlyConnFalls(s: Server, t: Server, c: nat)
    requires OnlyConn(s, t, c)
    ensures Measure(t) < Measure(s)
  {
    hide Sum, ConnWeight, WPP.Measure, StarterWeight, ShutWeight, AcceptWeight;
    SumUpdate(s.conns, c, t.conns[c], ConnWeights(s.pool.submits));
  }

  lemma MainOnlyConn(s: Server, a: Action)
    requires IsMain(a) && NextMain(s, a).Some? && !NextMain(s, a).value.panicked
    requires !s.panicked && ConnsInv(s.conns, |s.pool.submits|)
    ensures OnlyConn(s, NextMain(s, a).value, a.c)
  {
  }

  lemma MainFalls(s: Server, a: Action)
    requires Inv(s) && IsMain(a) && NextMain(s, a).Some?
    ensures Measure(NextMain(s, a).value) < Measure(s)
  {
    hide Measure, NextMain, PoolInv, UseInv, LifeInv, RegistryInv, Sum;
    MainKeeps(s, a);
    MainOnlyConn(s, a);
    OnlyConnFalls(s, NextMain(s, a).value, a.c);
  }

  lemma IoOnlyConn(s: Server, a: Action)
    requires IsIo(a) && !a.ReadMessage? && NextIo(s, a).Some? && !NextIo(s, a).value.panicked
    requires !s.panicked
    ensures OnlyConn(s, NextIo(s, a).value, a.c)
  {
  }

  lemma IoFalls(s: Server, a: Action)
    requires Inv(s) && IsIo(a) && NextIo(s, a).Some?
    ensures Measure(NextIo(s, a).value) < Measure(s)
  {
    hide Measure, NextIo, PoolInv, UseInv, LifeInv, RegistryInv, ConnsInv, Sum;
    if a.ReadMessage? {
      ReadFalls(s, a);
    } else {
      IoKeeps(s, a);
      IoOnlyConn(s, a);
      OnlyConnFalls(s, NextIo(s, a).value, a.c);
    }
  }

  lemma ReadFalls(s: Server, a: Action)
    requires Inv(s) && a.ReadMessage? && NextIo(s, a).Some?
    ensures Measure(NextIo(s, a).value) < Measure(s)
  {
    hide PoolInv, RegistryInv, LifeInv, UseInv, CountsInv, Sum, WPP.Measure, StarterWeight, ShutWeight, AcceptWeight;
    var t := NextIo(s, a).value;
    SumUpdate(s.conns, a.c, t.conns[a.c], ConnWeights(s.pool.submits));
    PoolCallGrows(s.pool, WP.Submitting(s.conns[a.c].cid, a.blocking));
    forall i | 0 <= i < |t.conns|
      ensures ConnWeights(t.pool.submits)(t.conns[i]) <= ConnWeights(s.pool.submits)(t.conns[i])
    {
      if i != a.c {
        assert ConnInv(s.conns[i], |s.pool.submits|);
      }
    }
    SumMonotone(t.conns, ConnWeights(t.pool.submits), ConnWeights(s.pool.submits));
  }

  /** A set of indices below n has at most n elements. */
  lemma {:induction false} IndexSet(indices: set<nat>, n: nat)
    requires forall i :: i in indices ==> i < n
    ensures |indices| <= n
  {
    if n == 0 {
      assert indices == {};
    } else {
      IndexSet(indices - {n - 1}, n - 1);
      if n - 1 in indices {
        assert indices == (indices - {n - 1}) + {n - 1};
      } else {
        assert indices == indices - {n - 1};
      }
    }
  }

  lemma ShutFalls(s: Server, a: Action)
    requires Inv(s) && Stopping(s.life.shutdown) && IsShut(a) && NextShut(s, a).Some?
    ensures Measure(NextShut(s, a).value) < Measure(s)
  {
    hide PoolInv, LifeInv, UseInv, CountsInv, WPP.Measure, Sum;
    var t := NextShut(s, a).value;
    if a.ShutClear? {
      IndexSet(s.registry.Values, |s.conns|);
    } else if a.ShutStop? {
      SumUpdate(s.conns, a.c, t.conns[a.c], ConnWeights(s.pool.submits));
    } else if a.ShutAwait? {
      PoolCallGrows(s.pool, WP.CallStop);
    }
  }

  lemma StepFalls(s: Server, a: Action)
    requires Inv(s) && Stopping(s.life.shutdown) && Next(s, a).Some?
    ensures Stopping(Next(s, a).value.life.shutdown) && Measure(Next(s, a).value) < Measure(s)
  {
    StaysStopping(s, a);
    hide Inv, Measure, NextPool, NextStart, NextAccept, NextMain, NextIo, NextShut, Stopping;
    if a.PoolStep? {
      PoolFalls(s, a.a);
    } else if IsStart(a) {
      StartFalls(s, a);
    } else if IsAccept(a) {
      AcceptFalls(s, a);
    } else if IsMain(a) {
      MainFalls(s, a);
    } else if IsIo(a) {
      IoFalls(s, a);
    } else {
      ShutFalls(s, a);
    }
  }

  lemma StaysStopping(s: Server, a: Action)
    requires Stopping(s.life.shutdown) && Next(s, a).Some?
    ensures Stopping(Next(s, a).value.life.shutdown)
  {
    hide WP.Next, PoolCall, NextMain, NextIo;
    ConnKeepsLife(s, a);
  }

  lemma ConnKeepsLife(s: Server, a: Action)
    requires Next(s, a).Some?
    ensures IsMain(a) ==> NextMain(s, a).value.life == s.life
    ensures IsIo(a) ==> NextIo(s, a).value.life == s.life
  {
    hide PoolCall, NextPool, NextStart, NextAccept, NextShut;
  }

  /** From the stop signals on, a run of the server, peers and pool included, is at most Measure(s) steps. */
  lemma {:induction false} RunsAreBounded(s: Server, actions: seq<Action>)
    requires Inv(s) && Stopping(s.life.shutdown) && Run(s, actions).Some?
    ensures |actions| + Measure(Run(s, actions).value) <= Measure(s)
    decreases |actions|
  {
    hide Inv, Measure, Next, Stopping;
    if actions != [] {
      InvStep(s, actions[0]);
      StepFalls(s, actions[0]);
      RunsAreBounded(Next(s, actions[0]).value, actions[1..]);
    }
  }
}
