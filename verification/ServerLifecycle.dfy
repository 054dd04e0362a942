/** The lifecycle of gnet/server.go as a transition system over the worker pool of WorkerPool.

    The actors are the one caller that runs StartWithError's sync.Once body, the accept goroutine, one
    startConnection goroutine with a reader and a writer goroutine for each registered connection, and
    the shutdown goroutine. Sockets are nondeterministic: accepting, reading and writing may fail at
    any time, and must fail once their socket is closed. Hooks and handlers are arbitrary code that
    returns: it may stop connections, but not the server. */
module ServerLifecycle {
  import opened Options
  import WP = WorkerPool

  const CONN_IDS: nat := 0x1_0000_0000

  datatype StarterPc = StartIdle | StartWants | StartChecked | StartListened | StartsPool(j: nat) | StartReturned

  datatype ShutPc =
    | ShutIdle
    | ShutSignalled
    | ShutWants
    | ShutClosesListener(had: bool)
    | ShutClears
    | ShutStops(left: set<nat>)
    | ShutAwaitsConns
    | ShutStopsPool(j: nat)
    | ShutDone

  datatype Holder = Free | HeldByStart | HeldByAccept

  datatype Listener = Unbound | Listening | ListenerClosed

  /** The stop flag, the listener and its lock, and the callers of Start and Shutdown. The field says
      whether s.listener is set. */
  datatype Life = Life(
    stopped: bool,
    lock: Holder,
    listener: Listener,
    field: bool,
    starter: StarterPc,
    shutdown: ShutPc)

  datatype AcceptPc = NotAccepting | AtAccept | AcceptChecks | AcceptWants | Registering | AcceptExited

  datatype MainPc = Launched | InStartHook | AwaitsExit | AwaitsIo | InStopHook | Removes | Removed | Ended
  datatype ReaderPc = NoReader | Reading | Submitted(p: nat) | ReaderStops | ReaderExited
  datatype WriterPc = NoWriter | Writing | WriterStops | WriterExited

  /** A registered connection; starts and stops count the runs of its hooks. */
  datatype Conn = Conn(
    cid: nat,
    main: MainPc,
    reader: ReaderPc,
    writer: WriterPc,
    io: nat,
    stopped: bool,
    starts: nat,
    stops: nat)

  datatype Server = Server(
    pool: WP.Pool,
    maxConn: int,
    life: Life,
    accept: AcceptPc,
    nextCid: nat,
    conns: seq<Conn>,
    registry: map<nat, nat>,
    gauge: int,
    connWait: nat,
    panicked: bool)

  datatype Action =
    // the worker pool, without new calls
    | PoolStep(a: WP.Action)
    // StartWithError
    | StartCall
    | StartLock
    | StartListen(ok: bool)
    | StartPool
    | StartAccept
    // startAccept
    | AcceptOk
    | AcceptError
    | AcceptCheck
    | AcceptLock
    | AcceptRegister
    // startConnection, its reader and its writer, for connection c
    | ConnLaunch(c: nat)
    | ConnStarted(c: nat)
    | ConnExit(c: nat)
    | ConnIoDone(c: nat)
    | ConnStopped(c: nat)
    | ConnRemove(c: nat)
    | ConnEnd(c: nat)
    | ReadMessage(c: nat, blocking: bool)
    | ReadError(c: nat)
    | ReadResume(c: nat)
    | ReaderDone(c: nat)
    | WriterQuit(c: nat)
    | WriterDone(c: nat)
    | StopConn(c: nat)
    // Shutdown
    | ShutCall
    | ShutBegin
    | ShutLock
    | ShutCloseListener
    | ShutClear
    | ShutStop(c: nat)
    | ShutStopped
    | ShutAwait
    | ShutFinish

  function Init(size: nat, capacity: nat, maxConn: int): Server {
    Server(WP.Init(size, capacity), maxConn, Life(false, Free, Unbound, false, StartIdle, ShutIdle), NotAccepting,
           0, [], map[], 0, 0, false)
  }

  predicate IsStart(a: Action) { a.StartCall? || a.StartLock? || a.StartListen? || a.StartPool? || a.StartAccept? }

  predicate IsAccept(a: Action) {
    a.AcceptOk? || a.AcceptError? || a.AcceptCheck? || a.AcceptLock? || a.AcceptRegister?
  }

  predicate IsMain(a: Action) {
    a.ConnLaunch? || a.ConnStarted? || a.ConnExit? || a.ConnIoDone? || a.ConnStopped? || a.ConnRemove? || a.ConnEnd?
  }

  predicate IsIo(a: Action) {
    a.ReadMessage? || a.ReadError? || a.ReadResume? || a.ReaderDone? || a.WriterQuit? || a.WriterDone? || a.StopConn?
  }

  predicate IsShut(a: Action) {
    a.ShutCall? || a.ShutBegin? || a.ShutLock? || a.ShutCloseListener? || a.ShutClear? || a.ShutStop?
    || a.ShutStopped? || a.ShutAwait? || a.ShutFinish?
  }

  function Next(s: Server, a: Action): Option<Server> {
    if a.PoolStep? then NextPool(s, a.a)
    else if IsStart(a) then NextStart(s, a)
    else if IsAccept(a) then NextAccept(s, a)
    else if IsMain(a) then NextMain(s, a)
    else if IsIo(a) then NextIo(s, a)
    else NextShut(s, a)
  }

  function NextPool(s: Server, a: WP.Action): Option<Server> {
    if a.Submitting? || a.CallStart? || a.CallStop? || a.CallBeginStop? then None
    else
      match WP.Next(s.pool, a)
      case None => None
      case Some(pool) => Some(s.(pool := pool))
  }

  /** The pool after a new call, which can always be made. */
  function PoolCall(pool: WP.Pool, a: WP.Action): WP.Pool
    requires a.Submitting? || a.CallStart? || a.CallStop? || a.CallBeginStop?
  {
    WP.Next(pool, a).value
  }

  function NextStart(s: Server, a: Action): Option<Server>
    requires IsStart(a)
  {
    var l := s.life;
    match a
    case StartCall => if l.starter.StartIdle? then Some(s.(life := l.(starter := StartWants))) else None
    case StartLock =>
      if !l.starter.StartWants? || l.lock != Free then None
      else if l.stopped then Some(s.(life := l.(starter := StartReturned)))
      else Some(s.(life := l.(starter := StartChecked, lock := HeldByStart)))
    case StartListen(ok) =>
      if !l.starter.StartChecked? then None
      else if ok then Some(s.(life := l.(starter := StartListened, listener := Listening, field := true)))
      else Some(s.(life := l.(starter := StartReturned, stopped := true, lock := Free)))
    case StartPool =>
      if !l.starter.StartListened? then None
      else Some(s.(life := l.(starter := StartsPool(|s.pool.gate.starts|)), pool := PoolCall(s.pool, WP.CallStart)))
    case StartAccept =>
      if l.starter.StartsPool? && l.starter.j < |s.pool.gate.starts| && s.pool.gate.starts[l.starter.j].Started? then
        Some(s.(life := l.(starter := StartReturned, lock := Free), accept := AtAccept, connWait := s.connWait + 1))
      else None
  }

  /** The accept goroutine returns: its deferred connWait.Done runs. */
  function AcceptExit(s: Server): Server {
    if s.connWait == 0 then s.(panicked := true)
    else s.(accept := AcceptExited, connWait := s.connWait - 1)
  }

  function NextAccept(s: Server, a: Action): Option<Server>
    requires IsAccept(a)
  {
    var l := s.life;
    match a
    case AcceptOk => if s.accept.AtAccept? && l.listener.Listening? then Some(s.(accept := AcceptChecks)) else None
    case AcceptError =>
      if !s.accept.AtAccept? then None
      else Some(if l.stopped then AcceptExit(s) else s)
    case AcceptCheck =>
      if !s.accept.AcceptChecks? then None
      else if l.stopped then Some(AcceptExit(s))
      else Some(s.(accept := AcceptWants))
    case AcceptLock =>
      if !s.accept.AcceptWants? || l.lock != Free then None
      else if l.stopped then Some(AcceptExit(s.(nextCid := s.nextCid + 1)))
      else Some(s.(accept := Registering, life := l.(lock := HeldByAccept)))
    case AcceptRegister =>
      if !s.accept.Registering? then None
      else
        var cid := s.nextCid % CONN_IDS;
        var t := s.(accept := AtAccept, nextCid := s.nextCid + 1, life := l.(lock := Free));
        if cid in s.registry || (s.maxConn > 0 && |s.registry| >= s.maxConn) then Some(t)
        else Some(t.(conns := s.conns + [Conn(cid, Launched, NoReader, NoWriter, 0, false, 0, 0)],
                     registry := s.registry[cid := |s.conns|], gauge := s.gauge + 1, connWait := s.connWait + 1))
  }

  function SetConn(s: Server, c: nat, k: Conn): Server
    requires c < |s.conns|
  {
    s.(conns := s.conns[c := k])
  }

  function NextMain(s: Server, a: Action): Option<Server>
    requires IsMain(a)
  {
    if a.c >= |s.conns| then None
    else
      var k := s.conns[a.c];
      match a
      case ConnLaunch(c) =>
        if !k.main.Launched? then None
        else Some(SetConn(s, c, k.(main := InStartHook, writer := Writing, io := k.io + 1, starts := k.starts + 1)))
      case ConnStarted(c) =>
        if !k.main.InStartHook? then None
        else Some(SetConn(s, c, k.(main := AwaitsExit, reader := Reading, io := k.io + 1)))
      case ConnExit(c) =>
        if k.main.AwaitsExit? && k.stopped then Some(SetConn(s, c, k.(main := AwaitsIo))) else None
      case ConnIoDone(c) =>
        if k.main.AwaitsIo? && k.io == 0 then Some(SetConn(s, c, k.(main := InStopHook, stops := k.stops + 1)))
        else None
      case ConnStopped(c) =>
        if k.main.InStopHook? then Some(SetConn(s, c, k.(main := Removes))) else None
      case ConnRemove(c) =>
        if !k.main.Removes? then None
        else Some(SetConn(s, c, k.(main := Removed)).(registry := s.registry - {k.cid}, gauge := s.gauge - 1))
      case ConnEnd(c) =>
        if !k.main.Removed? then None
        else if s.connWait == 0 then Some(s.(panicked := true))
        else Some(SetConn(s, c, k.(main := Ended)).(connWait := s.connWait - 1))
  }

  function NextIo(s: Server, a: Action): Option<Server>
    requires IsIo(a)
  {
    if a.c >= |s.conns| then None
    else
      var k := s.conns[a.c];
      match a
      case ReadMessage(c, blocking) =>
        if !k.reader.Reading? || k.stopped then None
        else Some(SetConn(s, c, k.(reader := Submitted(|s.pool.submits|)))
                  .(pool := PoolCall(s.pool, WP.Submitting(k.cid, blocking))))
      case ReadError(c) =>
        if k.reader.Reading? then Some(SetConn(s, c, k.(reader := ReaderStops, stopped := true))) else None
      case ReadResume(c) =>
        if k.reader.Submitted? && k.reader.p < |s.pool.submits| && s.pool.submits[k.reader.p].pc.Returned? then
          if s.pool.submits[k.reader.p].pc.outcome.Accepted? then Some(SetConn(s, c, k.(reader := Reading)))
          else Some(SetConn(s, c, k.(reader := ReaderStops, stopped := true)))
        else None
      case ReaderDone(c) =>
        if !k.reader.ReaderStops? then None
        else if k.io == 0 then Some(s.(panicked := true))
        else Some(SetConn(s, c, k.(reader := ReaderExited, io := k.io - 1)))
      case WriterQuit(c) =>
        if k.writer.Writing? then Some(SetConn(s, c, k.(writer := WriterStops, stopped := true))) else None
      case WriterDone(c) =>
        if !k.writer.WriterStops? then None
        else if k.io == 0 then Some(s.(panicked := true))
        else Some(SetConn(s, c, k.(writer := WriterExited, io := k.io - 1)))
      case StopConn(c) => if k.stopped then None else Some(SetConn(s, c, k.(stopped := true)))
  }

  function NextShut(s: Server, a: Action): Option<Server>
    requires IsShut(a)
  {
    var l := s.life;
    match a
    case ShutCall =>
      if l.shutdown.ShutIdle? then Some(s.(life := l.(shutdown := ShutSignalled, stopped := true))) else None
    case ShutBegin =>
      if !l.shutdown.ShutSignalled? then None
      else Some(s.(life := l.(shutdown := ShutWants), pool := PoolCall(s.pool, WP.CallBeginStop)))
    case ShutLock =>
      if l.shutdown.ShutWants? && l.lock == Free
      then Some(s.(life := l.(shutdown := ShutClosesListener(l.field), field := false))) else None
    case ShutCloseListener =>
      if !l.shutdown.ShutClosesListener? then None
      else Some(s.(life := l.(shutdown := ShutClears,
                              listener := if l.shutdown.had then ListenerClosed else l.listener)))
    case ShutClear =>
      if !l.shutdown.ShutClears? then None
      else Some(s.(life := l.(shutdown := ShutStops(s.registry.Values)), registry := map[]))
    case ShutStop(c) =>
      if l.shutdown.ShutStops? && c in l.shutdown.left && c < |s.conns| then
        Some(SetConn(s, c, s.conns[c].(stopped := true)).(life := l.(shutdown := ShutStops(l.shutdown.left - {c}))))
      else None
    case ShutStopped =>
      if l.shutdown == ShutStops({}) then Some(s.(life := l.(shutdown := ShutAwaitsConns))) else None
    case ShutAwait =>
      if l.shutdown.ShutAwaitsConns? && s.connWait == 0
      then Some(s.(life := l.(shutdown := ShutStopsPool(|s.pool.gate.stops|)), pool := PoolCall(s.pool, WP.CallStop)))
      else None
    case ShutFinish =>
      if l.shutdown.ShutStopsPool? && l.shutdown.j < |s.pool.gate.stops|
         && s.pool.gate.stops[l.shutdown.j].StopReturned?
      then Some(s.(life := l.(shutdown := ShutDone))) else None
  }

  function Run(s: Server, actions: seq<Action>): Option<Server>
    decreases |actions|
  {
    if actions == [] then Some(s)
    else
      match Next(s, actions[0])
      case None => None
      case Some(t) => Run(t, actions[1..])
  }
}
