/** Shutdown cannot get stuck: until shutdownDone is closed there is a step that waits for no peer. */
module ServerCompletion {
  import opened Options
  import opened Counting
  import WP = WorkerPool
  import WPS = WorkerPoolSafety
  import WPH = WorkerPoolHistory
  import WPP = WorkerPoolProgress
  import opened ServerLifecycle
  import opened ServerSafety
  import opened ServerProgress

  ghost predicate NoWriterWaits(g: WP.Gate) {
    && (forall j :: 0 <= j < |g.starts| ==> !g.starts[j].StartWantsLock?)
    && (forall j :: 0 <= j < |g.stops| ==> !g.stops[j].StopWantsLock?)
  }

  /** Steps the program takes by itself once handlers and hooks return. Socket errors count only where
      the socket is closed, and a new read lock only where no writer is waiting for it. */
  ghost predicate NeedsNoPeer(s: Server, a: Action) {
    && !a.AcceptOk? && !a.ReadMessage? && !a.StopConn? && !a.StartCall? && !a.ShutCall?
    && (a.AcceptError? ==> !s.life.listener.Listening?)
    && (a.ReadError? || a.WriterQuit? ==> a.c < |s.conns| && s.conns[a.c].stopped)
    && (a.PoolStep? && a.a.AcquireRead? ==> NoWriterWaits(s.pool.gate))
  }

  ghost predicate CanMove(s: Server, a: Action) { NeedsNoPeer(s, a) && Next(s, a).Some? }

  /** A step of the pool, seen from the server. */
  lemma PoolMove(s: Server, a: WP.Action)
    requires WPP.IsInternal(a) && !a.AcquireRead? && WP.Next(s.pool, a).Some?
    ensures CanMove(s, PoolStep(a))
  {
    hide WP.Next;
  }

  /** Whoever holds or waits for the write lock of the pool: a step towards its release is enabled. */
  lemma LockMoves(s: Server) returns (a: WP.Action)
    requires Inv(s) && !(s.pool.gate.writer.Nobody? && NoWriterWaits(s.pool.gate))
    ensures CanMove(s, PoolStep(a))
  {
    hide ConnsInv, RegistryInv, CountsInv, UseInv, LifeInv, WPH.TaskInv, CanMove, WPS.ControlInv;
    if j :| 0 <= j < |s.pool.gate.starts| && s.pool.gate.starts[j].StartWantsLock? {
      a := WPP.WriterMoves(s.pool, WP.StartLock(j));
    } else if j :| 0 <= j < |s.pool.gate.stops| && s.pool.gate.stops[j].StopWantsLock? {
      a := WPP.WriterMoves(s.pool, WP.StopLock(j));
    } else {
      a := WPP.WriterMoves(s.pool, WP.StopLock(0));
    }
    PoolMove(s, a);
  }

  /** The submission a reader waits for returns: the pool can move it. */
  lemma SubmissionMoves(s: Server, p: nat) returns (a: WP.Action)
    requires Inv(s) && p < |s.pool.submits| && !s.pool.submits[p].pc.Returned?
    ensures CanMove(s, PoolStep(a))
  {
    hide ConnsInv, RegistryInv, CountsInv, UseInv, LifeInv, WPH.TaskInv, WPS.ControlInv;
    if !s.pool.submits[p].pc.Calling? {
      a := WPP.ReaderMoves(s.pool, p);
      PoolMove(s, a);
    } else if s.pool.gate.writer.Nobody? && NoWriterWaits(s.pool.gate) {
      a := WP.AcquireRead(p);
    } else {
      a := LockMoves(s);
    }
  }

  /** A connection in service: nothing has stopped it, and it waits for its peer. */
  predicate Serving(k: Conn) { k.main.AwaitsExit? && k.reader.Reading? && k.writer.Writing? && !k.stopped }

  /** Any other connection can move until it has ended. */
  lemma ConnMoves(s: Server, c: nat) returns (a: Action)
    requires Inv(s) && c < |s.conns| && !s.conns[c].main.Ended? && !Serving(s.conns[c])
    ensures CanMove(s, a)
  {
    hide PoolInv, CountsInv, LifeInv, UseInv, RegistryInv, WP.Next, Sum;
    var k := s.conns[c];
    assert ConnInv(k, |s.pool.submits|);
    ConnLives(s, c);
    match k.main
    case Launched => a := ConnLaunch(c);
    case InStartHook => a := ConnStarted(c);
    case AwaitsExit => if k.stopped { a := ConnExit(c); } else { a := ReaderMoves(s, c); }
    case InStopHook => a := ConnStopped(c);
    case Removes => a := ConnRemove(c);
    case Removed => a := ConnEnd(c);
    case AwaitsIo =>
      if k.io == 0 {
        a := ConnIoDone(c);
      } else if WriterLive(k.writer) {
        a := if k.writer.Writing? then WriterQuit(c) else WriterDone(c);
      } else {
        a := ReaderMoves(s, c);
      }
  }

  lemma ConnLives(s: Server, c: nat)
    requires Inv(s) && c < |s.conns| && !s.conns[c].main.Ended?
    ensures s.connWait > 0
  {
    hide PoolInv, UseInv, LifeInv, ConnsInv, RegistryInv;
    SumBounds(s.conns, c, LiveConn);
  }

  lemma ReaderMoves(s: Server, c: nat) returns (a: Action)
    requires Inv(s) && c < |s.conns| && ReaderLive(s.conns[c].reader) && s.conns[c].io > 0
    requires s.conns[c].reader.Reading? ==> s.conns[c].stopped
    ensures CanMove(s, a)
  {
    hide CountsInv, RegistryInv, LifeInv, UseInv, PoolInv, WP.Next;
    var k := s.conns[c];
    assert ConnInv(k, |s.pool.submits|);
    match k.reader
    case Reading => a := ReadError(c);
    case ReaderStops => a := ReaderDone(c);
    case Submitted(p) =>
      if s.pool.submits[p].pc.Returned? {
        a := ReadResume(c);
      } else {
        var x := SubmissionMoves(s, p);
        a := PoolStep(x);
      }
  }

  /** The accept loop waits only for peers and for the listener lock. */
  lemma AcceptMoves(s: Server) returns (a: Action)
    requires Inv(s) && LiveAccept(s.accept) == 1 && !(s.accept.AtAccept? && s.life.listener.Listening?)
    ensures CanMove(s, a)
  {
    hide PoolInv, UseInv, ConnsInv, RegistryInv, CountsInv, WP.Next;
    match s.accept
    case AtAccept => a := AcceptError;
    case AcceptChecks => a := AcceptCheck;
    case AcceptWants => if s.life.lock == Free { a := AcceptLock; } else { a := HolderMoves(s); }
    case Registering => a := AcceptRegister;
  }

  /** The holder of the listener lock can move until it releases it. */
  lemma HolderMoves(s: Server) returns (a: Action)
    requires Inv(s) && s.life.lock != Free
    ensures CanMove(s, a)
  {
    hide ConnsInv, RegistryInv, CountsInv, WPH.TaskInv, WPS.ControlInv, WP.Next;
    if s.accept.Registering? {
      a := AcceptRegister;
    } else {
      match s.life.starter
      case StartChecked => a := StartListen(true);
      case StartListened => a := StartPool;
      case StartsPool(j) =>
        if s.pool.gate.starts[j].Started? {
          a := StartAccept;
        } else {
          var x := WPP.StartNeverBlocks(s.pool, j);
          PoolMove(s, x);
          a := PoolStep(x);
        }
    }
  }

  /** When shutdown waits for the connections, the listener is closed and all of them have been stopped. */
  lemma AllStopped(s: Server)
    requires Inv(s) && s.life.shutdown.ShutAwaitsConns?
    ensures !s.life.listener.Listening? && forall i :: 0 <= i < |s.conns| ==> s.conns[i].stopped
  {
    hide PoolInv, UseInv, ConnsInv, CountsInv;
  }

  /** It waits for the accept loop and for every connection that has not ended. */
  lemma AwaitedParts(s: Server)
    requires CountsInv(s) && s.connWait > 0
    ensures LiveAccept(s.accept) == 1 || exists c :: 0 <= c < |s.conns| && LiveConn(s.conns[c]) != 0
  {
    SumZero(s.conns, LiveConn);
  }

  lemma AwaitMoves(s: Server)
    requires s.life.shutdown.ShutAwaitsConns? && s.connWait == 0
    ensures CanMove(s, ShutAwait)
  {
    hide WP.Next;
  }

  lemma WaitMoves(s: Server) returns (a: Action)
    requires Inv(s) && s.life.shutdown.ShutAwaitsConns?
    ensures CanMove(s, a)
  {
    hide PoolInv, UseInv, LifeInv, ConnsInv, RegistryInv, CountsInv, CanMove;
    AllStopped(s);
    if s.connWait == 0 {
      AwaitMoves(s);
      a := ShutAwait;
    } else {
      AwaitedParts(s);
      if LiveAccept(s.accept) == 1 {
        a := AcceptMoves(s);
      } else {
        var c :| 0 <= c < |s.conns| && LiveConn(s.conns[c]) != 0;
        a := ConnMoves(s, c);
      }
    }
  }

  /** The steps of Shutdown that wait for nothing but the listener lock. */
  lemma ShutMoves(s: Server) returns (a: Action)
    requires Inv(s) && !s.life.shutdown.ShutIdle? && !s.life.shutdown.ShutDone?
    requires !s.life.shutdown.ShutAwaitsConns? && !s.life.shutdown.ShutStopsPool?
    ensures CanMove(s, a)
  {
    hide ConnsInv, CountsInv, WPH.Inv, WP.Next, PoolCall;
    match s.life.shutdown
    case ShutSignalled => a := ShutBegin;
    case ShutWants =>
      if s.life.lock == Free {
        a := ShutLock;
      } else {
        a := HolderMoves(s);
      }
    case ShutClosesListener(_) => a := ShutCloseListener;
    case ShutClears => a := ShutClear;
    case ShutStops(left) =>
      if left == {} {
        a := ShutStopped;
      } else {
        var c :| c in left;
        a := ShutStop(c);
      }
  }

  lemma PoolStopMoves(s: Server) returns (a: Action)
    requires Inv(s) && s.life.shutdown.ShutStopsPool?
    ensures CanMove(s, a)
  {
    hide ConnsInv, CountsInv, WPH.Inv, WP.Next, PoolCall, RegistryInv;
    var j := s.life.shutdown.j;
    if s.pool.gate.stops[j].StopReturned? {
      a := ShutFinish;
    } else {
      var x := WPP.StopNeverBlocks(s.pool, j);
      PoolMove(s, x);
      a := PoolStep(x);
    }
  }

  /** No deadlock: once Shutdown was called, some step that waits for no peer is enabled until shutdownDone. */
  lemma ShutdownNeverBlocks(s: Server) returns (a: Action)
    requires Inv(s) && !s.life.shutdown.ShutIdle? && !s.life.shutdown.ShutDone?
    ensures CanMove(s, a)
  {
    hide Inv, CanMove;
    if s.life.shutdown.ShutAwaitsConns? {
      a := WaitMoves(s);
    } else if s.life.shutdown.ShutStopsPool? {
      a := PoolStopMoves(s);
    } else {
      a := ShutMoves(s);
    }
  }

  /** Where no step is left but a peer's, a called Shutdown has closed shutdownDone; and after its stop
      signals, no run, whatever the peers do, is longer than the measure. */
  lemma ShutdownCompletes(size: nat, capacity: nat, maxConn: int, actions: seq<Action>, later: seq<Action>)
    requires Run(Init(size, capacity, maxConn), actions).Some?
    requires var s := Run(Init(size, capacity, maxConn), actions).value;
             Stopping(s.life.shutdown) && Run(s, later).Some?
    ensures var s := Run(Init(size, capacity, maxConn), actions).value;
            && |later| <= Measure(s)
            && ((forall a :: !CanMove(Run(s, later).value, a)) ==> Run(s, later).value.life.shutdown.ShutDone?)
  {
    InitInv(size, capacity, maxConn);
    InvRun(Init(size, capacity, maxConn), actions);
    var s := Run(Init(size, capacity, maxConn), actions).value;
    RunsAreBounded(s, later);
    InvRun(s, later);
    StoppingRun(s, later);
    var t := Run(s, later).value;
    if !t.life.shutdown.ShutDone? {
      var a := ShutdownNeverBlocks(t);
      assert CanMove(t, a);
    }
  }

  lemma {:induction false} StoppingRun(s: Server, actions: seq<Action>)
    requires Stopping(s.life.shutdown) && Run(s, actions).Some?
    ensures Stopping(Run(s, actions).value.life.shutdown)
    decreases |actions|
  {
    hide Stopping, Next;
    if actions != [] {
      StaysStopping(s, actions[0]);
      StoppingRun(Next(s, actions[0]).value, actions[1..]);
    }
  }
}
