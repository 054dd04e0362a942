/** What the server does for its peers: which sockets it takes, why it stops a connection, and what it has done when
    there is nothing left for it to do. */
module ServerService {
  import opened Options
  import opened Counting
  import WP = WorkerPool
  import WPS = WorkerPoolSafety
  import WPH = WorkerPoolHistory
  import WPP = WorkerPoolProgress
  import WPA = WorkerPoolAnswers
  import opened ServerLifecycle
  import opened ServerSafety
  import opened ServerTheorems
  import opened ServerProgress
  import opened ServerCompletion

  // Taking a socket

  /** There is a place for a connection with the next id. */
  predicate HasPlace(s: Server) {
    s.nextCid % CONN_IDS !in s.registry && (s.maxConn <= 0 || |s.registry| < s.maxConn)
  }

  /** One connection more, registered under the next id, counted and waited for. */
  predicate TookOne(s: Server, t: Server) {
    && |t.conns| == |s.conns| + 1 && s.conns <= t.conns
    && t.registry == s.registry[s.nextCid % CONN_IDS := |s.conns|]
    && |t.registry| == |s.registry| + 1 && t.gauge == s.gauge + 1 && t.connWait == s.connWait + 1
    && var k := t.conns[|s.conns|];
       k.cid == s.nextCid % CONN_IDS && !k.stopped && k.starts == k.stops == 0 && !k.main.Ended?
  }

  predicate TookNone(s: Server, t: Server) {
    t.conns == s.conns && t.registry == s.registry && t.gauge == s.gauge && t.connWait == s.connWait
  }

  lemma RegistryGrows(registry: map<nat, nat>, cid: nat, c: nat)
    ensures cid !in registry ==> |registry[cid := c]| == |registry| + 1
  {
    assert registry[cid := c].Keys == registry.Keys + {cid};
  }

  lemma RegistryShrinks(registry: map<nat, nat>, cid: nat)
    ensures |registry - {cid}| == |registry| - if cid in registry then 1 else 0
  {
    if cid in registry {
      assert registry.Keys == (registry - {cid}).Keys + {cid};
    } else {
      assert registry - {cid} == registry;
    }
  }

  /** Whatever the others do between a peer's connecting and its registration: the accept loop takes the socket
      exactly if there is a place for it. */
  lemma TakesExactly(s: Server)
    requires Next(s, AcceptRegister).Some?
    ensures var t := Next(s, AcceptRegister).value;
            && t.nextCid == s.nextCid + 1 && t.accept.AtAccept?
            && if HasPlace(s) then TookOne(s, t) else TookNone(s, t)
  {
    RegistryGrows(s.registry, s.nextCid % CONN_IDS, |s.conns|);
  }

  /** An accept loop that is left alone takes the next socket to its end. */
  lemma SocketIsTaken(s: Server)
    requires s.accept.AtAccept? && s.life.listener.Listening? && !s.life.stopped && s.life.lock == Free
    ensures var run := Run(s, [AcceptOk, AcceptCheck, AcceptLock, AcceptRegister]);
            && run.Some? && run.value.nextCid == s.nextCid + 1 && run.value.accept.AtAccept?
            && if HasPlace(s) then TookOne(s, run.value) else TookNone(s, run.value)
  {
    var a := Next(s, AcceptOk).value;
    var b := Next(a, AcceptCheck).value;
    var c := Next(b, AcceptLock).value;
    var d := Next(c, AcceptRegister).value;
    RunFour(s, AcceptOk, AcceptCheck, AcceptLock, AcceptRegister, a, b, c, d);
    TakesExactly(c);
  }

  lemma RunFour(s: Server, w: Action, x: Action, y: Action, z: Action, a: Server, b: Server, c: Server, d: Server)
    requires Next(s, w) == Some(a) && Next(a, x) == Some(b) && Next(b, y) == Some(c) && Next(c, z) == Some(d)
    ensures Run(s, [w, x, y, z]) == Some(d)
  {
    hide Next;
    RunThree(a, x, y, z, b, c, d);
    assert [w, x, y, z][1..] == [x, y, z];
  }

  // What every interleaving keeps of it

  /** No more connections than allowed; the gauge counts the registered ones, until shutdown forgets them. */
  predicate PlacesInv(s: Server) {
    && (s.maxConn > 0 ==> |s.registry| <= s.maxConn)
    && (!Cleared(s.life.shutdown) ==> s.gauge == |s.registry|)
  }

  /** The accept loop runs once the server has started, and ends only with the server. */
  predicate LoopInv(s: Server) {
    && (s.accept.AcceptExited? ==> s.life.stopped)
    && (s.life.starter.StartReturned? && s.accept.NotAccepting? ==> s.life.stopped)
  }

  /** A reader waits for a submission of its own connection, and for no other reader's. */
  ghost predicate ReadersInv(conns: seq<Conn>, submits: seq<WP.Submit>) {
    && (forall c :: 0 <= c < |conns| && conns[c].reader.Submitted? ==>
          conns[c].reader.p < |submits| && submits[conns[c].reader.p].conn == conns[c].cid)
    && (forall c, d :: 0 <= c < d < |conns| && conns[c].reader.Submitted? && conns[d].reader.Submitted? ==>
          conns[c].reader.p != conns[d].reader.p)
  }

  ghost predicate FrontInv(s: Server) { PlacesInv(s) && LoopInv(s) && ReadersInv(s.conns, s.pool.submits) }

  ghost predicate ServiceInv(s: Server) { FrontInv(s) && WPA.ReasonInv(s.pool) }

  lemma ServiceInit(size: nat, capacity: nat, maxConn: int)
    ensures ServiceInv(Init(size, capacity, maxConn))
  {
  }

  lemma ReasonStep(pool: WP.Pool, a: WP.Action)
    requires WPH.Inv(pool) && WPA.ReasonInv(pool) && WP.Next(pool, a).Some?
    ensures WPA.ReasonInv(WP.Next(pool, a).value)
  {
    hide WPH.Inv, WP.Next, WPA.StoppedInv, WPA.StartedInv, WPA.Within;
    WPA.StoppedStep(pool, a);
    WPA.StartedStep(pool, a);
    WPA.WithinStep(pool, a);
  }

  /** Submissions keep their connection. */
  lemma ConnsStay(pool: WP.Pool, a: WP.Action)
    requires WP.Next(pool, a).Some?
    ensures var t := WP.Next(pool, a).value;
            |pool.submits| <= |t.submits|
            && forall p :: 0 <= p < |pool.submits| ==> t.submits[p].conn == pool.submits[p].conn
  {
  }

  lemma FrontPool(s: Server, a: WP.Action)
    requires FrontInv(s) && NextPool(s, a).Some?
    ensures FrontInv(NextPool(s, a).value) && NextPool(s, a).value.maxConn == s.maxConn
  {
    hide WP.Next;
    ConnsStay(s.pool, a);
  }

  lemma FrontStart(s: Server, a: Action)
    requires FrontInv(s) && IsStart(a) && NextStart(s, a).Some?
    ensures FrontInv(NextStart(s, a).value) && NextStart(s, a).value.maxConn == s.maxConn
  {
    hide PoolCall;
    if a.StartPool? {
      CallAdds(s.pool, WP.CallStart);
    }
  }

  lemma FrontAccept(s: Server, a: Action)
    requires FrontInv(s) && IsAccept(a) && NextAccept(s, a).Some? && !NextAccept(s, a).value.panicked
    requires s.accept.Registering? ==> !Cleared(s.life.shutdown)
    requires !s.panicked && (!s.accept.NotAccepting? ==> s.life.starter.StartReturned?)
    ensures FrontInv(NextAccept(s, a).value) && NextAccept(s, a).value.maxConn == s.maxConn
  {
    RegistryGrows(s.registry, s.nextCid % CONN_IDS, |s.conns|);
  }

  lemma FrontMain(s: Server, a: Action)
    requires FrontInv(s) && IsMain(a) && NextMain(s, a).Some?
    requires forall c :: 0 <= c < |s.conns| && s.conns[c].main.Removes? && !Cleared(s.life.shutdown) ==>
               s.conns[c].cid in s.registry
    requires forall c :: 0 <= c < |s.conns| && (s.conns[c].main.InStartHook? || s.conns[c].main.Launched?) ==>
               s.conns[c].reader.NoReader?
    ensures FrontInv(NextMain(s, a).value) && NextMain(s, a).value.maxConn == s.maxConn
  {
    if a.ConnRemove? && a.c < |s.conns| {
      RegistryShrinks(s.registry, s.conns[a.c].cid);
    }
  }

  /** One connection changes, and submissions are only added: its reader waits as before, for a new one, or not. */
  lemma ReadersWith(conns: seq<Conn>, submits: seq<WP.Submit>, c: nat, k: Conn, after: seq<WP.Submit>)
    requires ReadersInv(conns, submits) && c < |conns| && k.cid == conns[c].cid && submits <= after
    requires k.reader.Submitted? ==>
               k.reader == conns[c].reader
               || (k.reader.p == |submits| && |submits| < |after| && after[|submits|].conn == k.cid)
    ensures ReadersInv(conns[c := k], after)
  {
  }

  lemma FrontIo(s: Server, a: Action)
    requires FrontInv(s) && IsIo(a) && NextIo(s, a).Some?
    ensures FrontInv(NextIo(s, a).value) && NextIo(s, a).value.maxConn == s.maxConn
  {
    hide PoolCall, ReadersInv;
    var t := NextIo(s, a).value;
    if a.ReadMessage? {
      CallAdds(s.pool, WP.Submitting(s.conns[a.c].cid, a.blocking));
    }
    assert t.conns == s.conns[a.c := t.conns[a.c]];
    ReadersWith(s.conns, s.pool.submits, a.c, t.conns[a.c], t.pool.submits);
  }

  lemma FrontShut(s: Server, a: Action)
    requires FrontInv(s) && IsShut(a) && NextShut(s, a).Some?
    ensures FrontInv(NextShut(s, a).value) && NextShut(s, a).value.maxConn == s.maxConn
  {
    hide PoolCall;
    if a.ShutBegin? {
      CallAdds(s.pool, WP.CallBeginStop);
    } else if a.ShutAwait? {
      CallAdds(s.pool, WP.CallStop);
    }
  }

  lemma FrontStep(s: Server, a: Action)
    requires Inv(s) && FrontInv(s) && Next(s, a).Some?
    ensures FrontInv(Next(s, a).value) && Next(s, a).value.maxConn == s.maxConn
  {
    hide Inv, FrontInv, NextPool, NextStart, NextAccept, NextMain, NextIo, NextShut;
    FrontFacts(s);
    StaysWell(s, a);
    if a.PoolStep? {
      FrontPool(s, a.a);
    } else if IsStart(a) {
      FrontStart(s, a);
    } else if IsAccept(a) {
      FrontAccept(s, a);
    } else if IsMain(a) {
      FrontMain(s, a);
    } else if IsIo(a) {
      FrontIo(s, a);
    } else {
      FrontShut(s, a);
    }
  }

  lemma StaysWell(s: Server, a: Action)
    requires Inv(s) && Next(s, a).Some?
    ensures !Next(s, a).value.panicked
  {
    hide Next, PoolInv, UseInv, LifeInv, ConnsInv, RegistryInv;
    InvStep(s, a);
  }

  /** What the steps above need of the joint invariant. */
  lemma FrontFacts(s: Server)
    requires Inv(s)
    ensures !s.panicked && (s.accept.Registering? ==> !Cleared(s.life.shutdown))
    ensures !s.accept.NotAccepting? ==> s.life.starter.StartReturned?
    ensures forall c :: 0 <= c < |s.conns| && s.conns[c].main.Removes? && !Cleared(s.life.shutdown) ==>
              s.conns[c].cid in s.registry
    ensures forall c :: 0 <= c < |s.conns| && (s.conns[c].main.InStartHook? || s.conns[c].main.Launched?) ==>
              s.conns[c].reader.NoReader?
  {
    hide PoolInv, UseInv;
    assert forall c :: 0 <= c < |s.conns| ==> ConnInv(s.conns[c], |s.pool.submits|);
  }

  lemma CallAdds(pool: WP.Pool, a: WP.Action)
    requires a.Submitting? || a.CallStart? || a.CallStop? || a.CallBeginStop?
    ensures PoolCall(pool, a).submits
            == pool.submits + if a.Submitting? then [WP.Submit(a.conn, a.blocking, WP.Calling, WP.Unaccepted)] else []
  {
  }

  /** What a step of the server does to its pool: nothing, one step of it, or one call. */
  lemma PoolActs(s: Server, a: Action) returns (x: Option<WP.Action>)
    requires Next(s, a).Some?
    ensures if x.None? then Next(s, a).value.pool == s.pool
            else WP.Next(s.pool, x.value) == Some(Next(s, a).value.pool)
  {
    hide WP.Next, NextMain, NextIo, NextAccept;
    ConnActs(s, a);
    if IsIo(a) {
      IoActs(s, a);
    }
    x := if a.PoolStep? then Some(a.a)
         else if a.StartPool? then Some(WP.CallStart)
         else if a.ShutBegin? then Some(WP.CallBeginStop)
         else if a.ShutAwait? then Some(WP.CallStop)
         else if a.ReadMessage? then Some(WP.Submitting(s.conns[a.c].cid, a.blocking)) else None;
    if x.Some? && !a.PoolStep? {
      CallPossible(s.pool, x.value);
    }
  }

  lemma ConnActs(s: Server, a: Action)
    ensures IsAccept(a) && NextAccept(s, a).Some? ==> NextAccept(s, a).value.pool == s.pool
    ensures IsMain(a) && NextMain(s, a).Some? ==> NextMain(s, a).value.pool == s.pool
  {
  }

  lemma IoActs(s: Server, a: Action)
    requires IsIo(a) && NextIo(s, a).Some?
    ensures if a.ReadMessage? then
              a.c < |s.conns|
              && NextIo(s, a).value.pool == PoolCall(s.pool, WP.Submitting(s.conns[a.c].cid, a.blocking))
            else NextIo(s, a).value.pool == s.pool
  {
    hide PoolCall;
  }

  lemma CallPossible(pool: WP.Pool, a: WP.Action)
    requires a.Submitting? || a.CallStart? || a.CallStop? || a.CallBeginStop?
    ensures WP.Next(pool, a).Some?
  {
  }

  lemma PoolReasons(s: Server, a: Action)
    requires Inv(s) && WPA.ReasonInv(s.pool) && Next(s, a).Some?
    ensures WPA.ReasonInv(Next(s, a).value.pool)
  {
    hide Inv, Next, WP.Next, WPA.ReasonInv, WPH.Inv;
    PoolOf(s);
    var x := PoolActs(s, a);
    if x.Some? {
      ReasonStep(s.pool, x.value);
    }
  }

  lemma PoolOf(s: Server)
    requires Inv(s)
    ensures WPH.Inv(s.pool)
  {
    hide UseInv, LifeInv, ConnsInv, RegistryInv, CountsInv;
  }

  lemma {:induction false} ServiceRun(s: Server, actions: seq<Action>)
    requires Inv(s) && ServiceInv(s) && Run(s, actions).Some?
    ensures var t := Run(s, actions).value; Inv(t) && ServiceInv(t) && t.maxConn == s.maxConn
    decreases |actions|
  {
    hide Inv, Next, FrontInv, WPA.ReasonInv;
    if actions != [] {
      InvStep(s, actions[0]);
      FrontStep(s, actions[0]);
      PoolReasons(s, actions[0]);
      ServiceRun(Next(s, actions[0]).value, actions[1..]);
    }
  }

  /** In every reachable state: at most maxConn connections are registered; until shutdown forgets them, the gauge
      counts them; the accept loop runs from the start of the server to its stop; every reader waits for a
      submission of its own. */
  lemma ServiceHolds(size: nat, capacity: nat, maxConn: int, actions: seq<Action>)
    requires Run(Init(size, capacity, maxConn), actions).Some?
    ensures var s := Run(Init(size, capacity, maxConn), actions).value;
            && (maxConn > 0 ==> |s.registry| <= maxConn)
            && (s.life.shutdown.ShutIdle? ==> s.gauge == |s.registry|)
            && (s.life.starter.StartReturned? && !s.life.stopped ==>
                  !s.accept.NotAccepting? && !s.accept.AcceptExited?)
            && ReadersInv(s.conns, s.pool.submits)
  {
    hide Inv, Next, ReadersInv, WPA.ReasonInv;
    InitInv(size, capacity, maxConn);
    ServiceInit(size, capacity, maxConn);
    ServiceRun(Init(size, capacity, maxConn), actions);
  }

  // Stopping a connection

  /** A connection is stopped by its peer, by who holds it, by shutdown, or because a request of it was not
      accepted; and that was so under the stop signal, or after its queue was full. */
  lemma StopReasons(s: Server, a: Action, c: nat)
    requires Inv(s) && ServiceInv(s) && Next(s, a).Some? && c < |s.conns| && !s.conns[c].stopped
    requires c < |Next(s, a).value.conns| && Next(s, a).value.conns[c].stopped
    ensures a in {ReadError(c), WriterQuit(c), StopConn(c), ShutStop(c)}
            || (a == ReadResume(c) && s.conns[c].reader.Submitted? && s.conns[c].reader.p < |s.pool.submits|
                && var m := s.pool.submits[s.conns[c].reader.p];
                   m.conn == s.conns[c].cid && m.pc.Returned? && !m.pc.outcome.Accepted?
                   && (m.pc.outcome.Stopped? ==> s.pool.gate.stopSignal))
  {
    hide Inv, NextPool, NextStart, NextAccept, NextMain, NextIo, PoolCall, PlacesInv, LoopInv, WPA.StartedInv,
         WPA.Within;
    if IsIo(a) {
      IoStops(s, a, c);
    } else if IsMain(a) {
      MainStopsNobody(s, a);
    } else {
      OthersStopNobody(s, a);
    }
  }

  /** The writer of a connection runs from before its start hook, its reader only from after it. */
  lemma ReaderAfterHook(s: Server, a: Action, t: Server, c: nat)
    requires IsMain(a) && NextMain(s, a) == Some(t) && c < |s.conns| == |t.conns|
    ensures var k, k' := s.conns[c], t.conns[c];
            && (k.starts < k'.starts ==> k'.writer.Writing? && k'.reader == k.reader)
            && (k.reader != k'.reader ==> k.main.InStartHook? && k'.main.AwaitsExit? && k'.reader.Reading?)
  {
  }

  /** Whoever holds a connection can stop it. */
  lemma StopTakes(s: Server, c: nat)
    requires c < |s.conns| && !s.conns[c].stopped
    ensures Next(s, StopConn(c)) == Some(SetConn(s, c, s.conns[c].(stopped := true)))
  {
  }

  /** A reader goes on after an accepted request, and ends its connection after one that was not. */
  lemma ReadsOnOrEnds(s: Server, c: nat)
    requires Next(s, ReadResume(c)).Some? && c < |s.conns|
    ensures var k, k' := s.conns[c], Next(s, ReadResume(c)).value.conns[c];
            && k.reader.Submitted? && k.reader.p < |s.pool.submits| && s.pool.submits[k.reader.p].pc.Returned?
            && if s.pool.submits[k.reader.p].pc.outcome.Accepted? then k' == k.(reader := Reading)
               else k'.stopped && k'.reader.ReaderStops?
  {
  }

  lemma IoStops(s: Server, a: Action, c: nat)
    requires IsIo(a) && NextIo(s, a).Some? && c < |s.conns| && !s.conns[c].stopped
    requires c < |NextIo(s, a).value.conns| && NextIo(s, a).value.conns[c].stopped
    ensures a in {ReadError(c), WriterQuit(c), StopConn(c)}
            || (a == ReadResume(c) && s.conns[c].reader.Submitted? && s.conns[c].reader.p < |s.pool.submits|
                && var m := s.pool.submits[s.conns[c].reader.p]; m.pc.Returned? && !m.pc.outcome.Accepted?)
  {
    hide PoolCall;
  }

  lemma MainStopsNobody(s: Server, a: Action)
    requires IsMain(a) && NextMain(s, a).Some?
    ensures |NextMain(s, a).value.conns| == |s.conns|
    ensures forall c :: 0 <= c < |s.conns| ==> NextMain(s, a).value.conns[c].stopped == s.conns[c].stopped
  {
  }

  lemma OthersStopNobody(s: Server, a: Action)
    ensures a.PoolStep? && NextPool(s, a.a).Some? ==> NextPool(s, a.a).value.conns == s.conns
    ensures IsStart(a) && NextStart(s, a).Some? ==> NextStart(s, a).value.conns == s.conns
    ensures IsAccept(a) && NextAccept(s, a).Some? ==> s.conns <= NextAccept(s, a).value.conns
  {
    hide WP.Next, PoolCall;
  }

  // A server at rest

  /** Where only peers can move: every connection has ended or is in service, every accepted request has been handled
      exactly once, the accept loop waits for sockets or is over, and a start or shutdown that was called is over. */
  lemma RestingServer(size: nat, capacity: nat, maxConn: int, actions: seq<Action>)
    requires Run(Init(size, capacity, maxConn), actions).Some?
    requires forall a :: !CanMove(Run(Init(size, capacity, maxConn), actions).value, a)
    ensures var s := Run(Init(size, capacity, maxConn), actions).value;
            && (forall c :: 0 <= c < |s.conns| ==>
                  if Serving(s.conns[c]) then s.life.shutdown.ShutIdle? ==> IsEntered(s, c)
                  else s.conns[c].main.Ended? && s.conns[c].starts == s.conns[c].stops == 1)
            && (forall p :: 0 <= p < |s.pool.submits| ==>
                  WPH.Count(s.pool.log, WP.Accept, p) == WPH.Count(s.pool.log, WP.Begin, p)
                  == WPH.Count(s.pool.log, WP.End, p))
            && (s.accept.NotAccepting? || s.accept.AcceptExited?
                || (s.accept.AtAccept? && s.life.listener.Listening?))
            && (s.life.starter.StartIdle? || s.life.starter.StartReturned?)
            && (s.life.shutdown.ShutIdle? || s.life.shutdown.ShutDone?)
  {
    hide Inv, CanMove;
    InitInv(size, capacity, maxConn);
    InvRun(Init(size, capacity, maxConn), actions);
    var s := Run(Init(size, capacity, maxConn), actions).value;
    forall c | 0 <= c < |s.conns|
      ensures if Serving(s.conns[c]) then s.life.shutdown.ShutIdle? ==> IsEntered(s, c)
              else s.conns[c].main.Ended? && s.conns[c].starts == s.conns[c].stops == 1
    {
      if !Serving(s.conns[c]) && !s.conns[c].main.Ended? {
        var a := ConnMoves(s, c);
      }
      ConnFacts(s, c);
    }
    forall p | 0 <= p < |s.pool.submits|
      ensures WPH.Count(s.pool.log, WP.Accept, p) == WPH.Count(s.pool.log, WP.Begin, p)
              == WPH.Count(s.pool.log, WP.End, p)
    {
      RequestRests(s, p);
    }
    if LiveAccept(s.accept) == 1 && !(s.accept.AtAccept? && s.life.listener.Listening?) {
      var a := AcceptMoves(s);
    }
    if !s.life.starter.StartIdle? && !s.life.starter.StartReturned? {
      var a := StarterMoves(s);
    }
    if !s.life.shutdown.ShutIdle? && !s.life.shutdown.ShutDone? {
      var a := ShutdownNeverBlocks(s);
    }
  }

  /** The registry knows this connection. */
  predicate IsEntered(s: Server, c: nat)
    requires c < |s.conns|
  {
    s.conns[c].cid in s.registry && s.registry[s.conns[c].cid] == c
  }

  lemma ConnFacts(s: Server, c: nat)
    requires Inv(s) && c < |s.conns|
    ensures Serving(s.conns[c]) && s.life.shutdown.ShutIdle? ==> IsEntered(s, c)
    ensures s.conns[c].main.Ended? ==> s.conns[c].starts == s.conns[c].stops == 1
  {
    hide PoolInv, UseInv, LifeInv, CountsInv;
    assert ConnInv(s.conns[c], |s.pool.submits|);
  }

  lemma RequestRests(s: Server, p: nat)
    requires Inv(s) && p < |s.pool.submits| && forall a :: !CanMove(s, a)
    ensures WPH.Count(s.pool.log, WP.Accept, p) == WPH.Count(s.pool.log, WP.Begin, p)
            == WPH.Count(s.pool.log, WP.End, p)
  {
    hide UseInv, LifeInv, ConnsInv, RegistryInv, CountsInv, CanMove, WPS.ControlInv, WPH.PlaceInv, WPH.OrderInv,
         WP.Next;
    var m := s.pool.submits[p];
    if !m.stage.Unaccepted? && !m.stage.Handled? {
      var a := WPA.AcceptedMoves(s.pool, p);
      PoolMove(s, a);
      assert false;
    }
  }

  lemma StarterMoves(s: Server) returns (a: Action)
    requires Inv(s) && !s.life.starter.StartIdle? && !s.life.starter.StartReturned?
    ensures CanMove(s, a)
  {
    hide PoolInv, UseInv, ConnsInv, RegistryInv, CountsInv, WP.Next;
    if s.life.lock == Free {
      a := StartLock;
    } else {
      a := HolderMoves(s);
    }
  }

  /** What a peer in service sends is submitted once, for its own connection. */
  lemma MessageIsSubmitted(s: Server, c: nat, blocking: bool)
    requires c < |s.conns| && Serving(s.conns[c])
    ensures var t := Next(s, ReadMessage(c, blocking));
            && t.Some? && |t.value.pool.submits| == |s.pool.submits| + 1 && s.pool.submits <= t.value.pool.submits
            && t.value.conns[c].reader == Submitted(|s.pool.submits|)
            && var m := t.value.pool.submits[|s.pool.submits|];
               m.conn == s.conns[c].cid && m.blocking == blocking && m.pc.Calling? && m.stage.Unaccepted?
  {
    CallAdds(s.pool, WP.Submitting(s.conns[c].cid, blocking));
  }

  /** Shutdown can be called at any time, and has then signalled accept loop and pool. */
  lemma ShutdownBegins(s: Server)
    requires s.life.shutdown.ShutIdle?
    ensures var run := Run(s, [ShutCall, ShutBegin]);
            run.Some? && Stopping(run.value.life.shutdown) && run.value.life.stopped && run.value.pool.gate.stopSignal
  {
    var a := Next(s, ShutCall).value;
    assert [ShutCall, ShutBegin][1..] == [ShutBegin];
    RunOne(a, ShutBegin);
  }

  // Coming into service

  /** A start that finds the listener lock free comes to serve: it listens, accepts, and has started its pool. */
  lemma StartServes(s: Server) returns (actions: seq<Action>)
    requires Inv(s) && ServiceInv(s) && s.life.starter.StartWants? && s.life.lock == Free && !s.life.stopped
    ensures Run(s, actions).Some?
    ensures var t := Run(s, actions).value;
            t.life.starter.StartReturned? && t.life.lock == Free && t.life.listener.Listening? && t.accept.AtAccept?
            && !t.life.stopped && (t.pool.size > 0 && !t.pool.gate.stopSignal ==> t.pool.gate.started)
  {
    hide Inv, WP.Next, PoolCall, FrontInv, WPA.ReasonInv;
    var a := Next(s, StartLock).value;
    var b := Next(a, StartListen(true)).value;
    var c := Next(b, StartPool).value;
    InvStep(s, StartLock);
    InvStep(a, StartListen(true));
    InvStep(b, StartPool);
    PoolReasons(b, StartPool);
    var rest := PoolStarts(c);
    var d := Run(c, rest).value;
    var e := Next(d, StartAccept).value;
    RunThree(s, StartLock, StartListen(true), StartPool, a, b, c);
    RunAppend(s, [StartLock, StartListen(true), StartPool], rest);
    RunAppend(s, [StartLock, StartListen(true), StartPool] + rest, [StartAccept]);
    RunOne(d, StartAccept);
    actions := [StartLock, StartListen(true), StartPool] + rest + [StartAccept];
    StartedPool(d);
  }

  lemma StartedPool(s: Server)
    requires Inv(s) && WPA.ReasonInv(s.pool) && s.life.starter.StartsPool?
    requires s.life.starter.j < |s.pool.gate.starts| && s.pool.gate.starts[s.life.starter.j].Started?
    ensures s.pool.size > 0 && !s.pool.gate.stopSignal ==> s.pool.gate.started
  {
    hide LifeInv, ConnsInv, RegistryInv, CountsInv, UseInv;
    WPA.ReasonsAt(s.pool);
  }

  lemma PoolStartStep(s: Server) returns (x: Action, t: Server)
    requires Inv(s) && WPA.ReasonInv(s.pool) && s.life.starter.StartsPool?
    requires s.life.starter.j < |s.pool.gate.starts| && !s.pool.gate.starts[s.life.starter.j].Started?
    ensures Next(s, x) == Some(t) && Inv(t) && WPA.ReasonInv(t.pool) && t.life == s.life && t.accept == s.accept
    ensures WPP.Measure(t.pool) < WPP.Measure(s.pool)
  {
    hide Inv, WP.Next, WPP.Measure, WPA.ReasonInv, NextStart, NextAccept, NextMain, NextIo, NextShut;
    PoolOf(s);
    var a := WPP.StartNeverBlocks(s.pool, s.life.starter.j);
    WPP.StepFalls(s.pool, a);
    x, t := PoolStep(a), Next(s, PoolStep(a)).value;
    InvStep(s, x);
    PoolReasons(s, x);
  }

  /** The call of StartWorkerPool returns, whatever else the pool is doing. */
  lemma {:induction false} PoolStarts(s: Server) returns (actions: seq<Action>)
    requires Inv(s) && WPA.ReasonInv(s.pool) && s.life.starter.StartsPool?
    ensures Run(s, actions).Some?
    ensures var t := Run(s, actions).value;
            && Inv(t) && t.life == s.life && t.accept == s.accept && t.life.starter.j < |t.pool.gate.starts|
            && t.pool.gate.starts[t.life.starter.j].Started? && WPA.ReasonInv(t.pool)
    decreases WPP.Measure(s.pool)
  {
    StarterJ(s);
    hide Inv, Next, WPP.Measure, WPA.ReasonInv;
    if s.pool.gate.starts[s.life.starter.j].Started? {
      actions := [];
    } else {
      var x, t := PoolStartStep(s);
      var rest := PoolStarts(t);
      actions := [x] + rest;
    }
  }

  lemma StarterJ(s: Server)
    requires Inv(s) && s.life.starter.StartsPool?
    ensures s.life.starter.j < |s.pool.gate.starts|
  {
    hide PoolInv, LifeInv, ConnsInv, RegistryInv, CountsInv;
  }

  lemma RunOne(s: Server, a: Action)
    ensures Run(s, [a]) == Next(s, a)
  {
    hide Next;
    assert [a][1..] == [];
    if Next(s, a).Some? {
      assert Run(Next(s, a).value, []) == Next(s, a);
    }
  }

  lemma RunThree(s: Server, x: Action, y: Action, z: Action, a: Server, b: Server, c: Server)
    requires Next(s, x) == Some(a) && Next(a, y) == Some(b) && Next(b, z) == Some(c)
    ensures Run(s, [x, y, z]) == Some(c)
  {
    hide Next;
    RunOne(b, z);
    assert [x, y, z][1..] == [y, z] && [y, z][1..] == [z];
    assert Run(a, [y, z]) == Run(b, [z]);
  }

  lemma {:induction false} RunAppend(s: Server, first: seq<Action>, second: seq<Action>)
    requires Run(s, first).Some?
    ensures Run(s, first + second) == Run(Run(s, first).value, second)
    decreases |first|
  {
    hide Next;
    if first == [] {
      assert first + second == second;
    } else {
      assert (first + second)[1..] == first[1..] + second;
      RunAppend(Next(s, first[0]).value, first[1..], second);
    }
  }
}
