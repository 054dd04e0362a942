/** The game service of examples/gameapp/service.go on values: what each operation does to sessions, rooms
    and connections together, stated without following the code's order of work. */
module GameState {
  import opened Binary
  import opened Options
  import S = SessionTable
  import R = Rooms

  datatype Conn = Conn(roomId: uint32, authDeadline: Option<int>)

  /** `stopped` records the connections whose Stop the service has called. */
  datatype Game = Game(
    sessions: S.State, rooms: map<uint32, R.RoomView>, conns: map<uint32, Conn>, closed: bool, stopped: set<uint32>)

  datatype GameError = Unauthorized | RoomNotFound | RoomUnavailable | StoreFailed | Session(error: S.SessionError)

  const AUTH_SECONDS := 30

  // Operations

  function RoomsWithout(rooms: map<uint32, R.RoomView>, cs: set<uint32>): map<uint32, R.RoomView> {
    map r | r in rooms :: rooms[r].(members := rooms[r].members - cs)
  }

  function TableWithout(t: S.Table, cs: set<uint32>): S.Table {
    map k | k in t && !(t[k].bound && t[k].connId in cs) :: t[k]
  }

  /** These connections vanish from everywhere. */
  function Evict(g: Game, cs: set<uint32>): Game {
    g.(sessions := g.sessions.(table := TableWithout(g.sessions.table, cs)),
       rooms := RoomsWithout(g.rooms, cs),
       conns := g.conns - cs)
  }

  function Stop(g: Game, cs: set<uint32>): Game { Evict(g, cs).(stopped := g.stopped + cs) }

  /** The connection a session of this account is bound to, if any. */
  function ConnsOf(t: S.Table, account: string): set<uint32> {
    set k | k in t && t[k].accountId == account && t[k].bound :: t[k].connId
  }

  /** Login of a configured account with a good password, once the store has answered. */
  function Login(g: Game, token: Option<S.Token>, account: string, player: uint64, ttl: int, now: int): Game {
    if g.closed || S.IssueError(g.sessions, token, account, player, ttl, now).Some? then g
    else Stop(g.(sessions := S.Issue(g.sessions, token, account, player, ttl, now)), ConnsOf(g.sessions.table, account))
  }

  function Connected(g: Game, c: uint32, now: int): Game {
    if g.closed then g.(stopped := g.stopped + {c})
    else g.(conns := g.conns[c := Conn(0, Some(now + AUTH_SECONDS))])
  }

  function Disconnected(g: Game, c: uint32): Game {
    if c in g.conns then Evict(g, {c}) else g
  }

  /** The deadline is checked at one reading of the clock, the token at a second. */
  predicate CanAuthenticate(g: Game, c: uint32, token: S.Token, now: int, later: int) {
    && !g.closed && c in g.conns
    && !(g.conns[c].authDeadline.Some? && g.conns[c].authDeadline.value <= now)
    && S.BindError(g.sessions, token, c, later).None?
  }

  function Authenticate(g: Game, c: uint32, token: S.Token, now: int, later: int): Game {
    if !CanAuthenticate(g, c, token, now, later) then g
    else g.(sessions := S.Bind(g.sessions, token, c, later), conns := g.conns[c := g.conns[c].(authDeadline := None)])
  }

  predicate Authenticated(g: Game, c: uint32, now: int) {
    !g.closed && c in g.conns && S.HasLive(g.sessions.table, c, now)
  }

  function JoinError(g: Game, c: uint32, r: uint32, now: int): Option<GameError> {
    if !Authenticated(g, c, now) then Some(Unauthorized)
    else if r !in g.rooms then Some(RoomNotFound)
    else if g.conns[c].roomId != r && R.JoinError(g.rooms[r], c).Some? then Some(RoomUnavailable)
    else None
  }

  function Moved(rooms: map<uint32, R.RoomView>, c: uint32, r: uint32): map<uint32, R.RoomView> {
    map q | q in rooms :: rooms[q].(members := rooms[q].members - {c} + if q == r then {c} else {})
  }

  /** A member of one room is a member of no other. */
  function Place(g: Game, c: uint32, r: uint32): Game
    requires c in g.conns
  {
    g.(rooms := Moved(g.rooms, c, r),
       conns := g.conns[c := g.conns[c].(roomId := r)])
  }

  function Join(g: Game, c: uint32, r: uint32, now: int): Game {
    if JoinError(g, c, r, now).Some? || c !in g.conns then g else Place(g, c, r)
  }

  function Leave(g: Game, c: uint32, now: int): Game {
    if !Authenticated(g, c, now) then g else Place(g, c, 0)
  }

  predicate HasExpired(t: S.Table, c: uint32, now: int) {
    exists k :: k in t && t[k].bound && t[k].connId == c && S.Expired(t[k], now)
  }

  /** Those whose session has expired, and those that are late to authenticate. */
  function Overdue(g: Game, now: int): set<uint32> {
    set c | c in g.conns && (HasExpired(g.sessions.table, c, now)
                             || (g.conns[c].authDeadline.Some? && g.conns[c].authDeadline.value <= now))
  }

  function Sweep(g: Game, now: int): Game {
    Stop(g.(sessions := S.RemoveExpired(g.sessions, now)), Overdue(g, now))
  }

  function Close(g: Game): Game { Stop(g.(closed := true), g.conns.Keys) }

  // The invariant

  /** A connection has room r if and only if room r holds it. */
  predicate RoomsMatch(rooms: map<uint32, R.RoomView>, conns: map<uint32, Conn>) {
    && 0 !in rooms
    && (forall c :: c in conns && conns[c].roomId != 0 ==>
          conns[c].roomId in rooms && c in rooms[conns[c].roomId].members)
    && (forall r, c :: r in rooms && c in rooms[r].members ==> c in conns && conns[c].roomId == r)
  }

  /** The configured rooms stay open and within their capacity. */
  predicate RoomsFit(rooms: map<uint32, R.RoomView>) {
    forall r :: r in rooms ==> rooms[r].id == r && rooms[r].state != R.Closed && 0 < rooms[r].maxPlayers
                               && R.RoomFits(rooms[r])
  }

  /** Exactly the connections that are bound to a session have no deadline; room members are among them. */
  predicate AuthMatches(t: S.Table, conns: map<uint32, Conn>) {
    && (forall k :: k in t && t[k].bound ==> t[k].connId in conns)
    && (forall c :: c in conns ==> (conns[c].authDeadline.None? <==> S.HasConn(t, c)))
    && (forall c :: c in conns && conns[c].roomId != 0 ==> conns[c].authDeadline.None?)
  }

  /** Sessions belong to configured accounts, whose player ids differ. */
  predicate Identities(t: S.Table, accounts: map<string, uint64>) {
    && (forall k :: k in t ==> t[k].accountId in accounts && accounts[t[k].accountId] == t[k].playerId)
    && (forall a, b :: a in accounts && b in accounts && accounts[a] == accounts[b] ==> a == b)
    && (forall a :: a in accounts ==> a != "" && accounts[a] != 0)
  }

  predicate Inv(g: Game, accounts: map<string, uint64>) {
    && S.Unique(g.sessions.table) && g.sessions.policy == S.ReplaceExisting && g.sessions.last.None?
    && RoomsMatch(g.rooms, g.conns) && RoomsFit(g.rooms)
    && AuthMatches(g.sessions.table, g.conns) && Identities(g.sessions.table, accounts)
    && (g.closed ==> g.conns == map[])
  }

  // Evicting

  lemma EvictKeeps(g: Game, cs: set<uint32>, accounts: map<string, uint64>)
    requires Inv(g, accounts)
    ensures Inv(Evict(g, cs), accounts) && Inv(Stop(g, cs), accounts)
  {
    hide S.HasConn, R.RoomFits;
    var e := Evict(g, cs);
    EvictRooms(g.rooms, g.conns, cs);
    EvictFit(g.rooms, cs);
    EvictAuth(g.sessions.table, g.conns, cs);
    S.UniqueLess(g.sessions.table, e.sessions.table);
  }

  lemma EvictRooms(rooms: map<uint32, R.RoomView>, conns: map<uint32, Conn>, cs: set<uint32>)
    requires RoomsMatch(rooms, conns)
    ensures RoomsMatch(RoomsWithout(rooms, cs), conns - cs)
  {
  }

  lemma Fewer(a: set<uint32>, b: set<uint32>)
    requires a <= b
    ensures |a| <= |b|
  {
    assert b == a + (b - a);
  }

  lemma EvictFit(rooms: map<uint32, R.RoomView>, cs: set<uint32>)
    requires RoomsFit(rooms)
    ensures RoomsFit(RoomsWithout(rooms, cs))
  {
    forall r | r in rooms ensures |rooms[r].members - cs| <= |rooms[r].members| {
      Fewer(rooms[r].members - cs, rooms[r].members);
    }
  }

  lemma EvictAuth(t: S.Table, conns: map<uint32, Conn>, cs: set<uint32>)
    requires AuthMatches(t, conns)
    ensures AuthMatches(TableWithout(t, cs), conns - cs)
  {
    forall c | c in conns - cs ensures S.HasConn(TableWithout(t, cs), c) <==> S.HasConn(t, c) {
      HasConnWithout(t, cs, c);
    }
  }

  lemma HasConnWithout(t: S.Table, cs: set<uint32>, c: uint32)
    ensures S.HasConn(TableWithout(t, cs), c) <==> c !in cs && S.HasConn(t, c)
  {
    if c !in cs && S.HasConn(t, c) {
      var k :| k in t && t[k].bound && t[k].connId == c;
      assert k in TableWithout(t, cs);
    }
  }

  // Each operation keeps the invariant

  predicate Configured(account: string, player: uint64, accounts: map<string, uint64>) {
    account in accounts && accounts[account] == player
  }

  /** A configured account is never refused a session. */
  lemma LoginNeverRefused(g: Game, token: S.Token, account: string, player: uint64, ttl: int, now: int,
                          accounts: map<string, uint64>)
    requires Inv(g, accounts) && Configured(account, player, accounts) && ttl > 0
    ensures S.IssueError(g.sessions, Some(token), account, player, ttl, now).None?
  {
    forall k | k in g.sessions.table && g.sessions.table[k].playerId == player
      ensures g.sessions.table[k].accountId == account
    {
    }
  }

  lemma LoginAuth(t: S.Table, conns: map<uint32, Conn>, account: string, v: S.Session)
    requires S.Unique(t) && AuthMatches(t, conns) && v.token !in t && !v.bound
    ensures AuthMatches(TableWithout(S.WithoutAccount(t, account)[v.token := v], ConnsOf(t, account)),
                        conns - ConnsOf(t, account))
  {
    var cs := ConnsOf(t, account);
    var after := TableWithout(S.WithoutAccount(t, account)[v.token := v], cs);
    forall c | c in conns - cs ensures S.HasConn(after, c) <==> S.HasConn(t, c) {
      LoginConn(t, account, v, c);
    }
    assert forall k :: k in after && after[k].bound ==> k in t && after[k] == t[k] && t[k].connId !in cs;
    hide S.Unique, S.HasConn;
  }

  lemma LoginConn(t: S.Table, account: string, v: S.Session, c: uint32)
    requires v.token !in t && !v.bound && c !in ConnsOf(t, account)
    ensures S.HasConn(TableWithout(S.WithoutAccount(t, account)[v.token := v], ConnsOf(t, account)), c)
            <==> S.HasConn(t, c)
  {
    var after := TableWithout(S.WithoutAccount(t, account)[v.token := v], ConnsOf(t, account));
    if S.HasConn(t, c) {
      var k :| k in t && t[k].bound && t[k].connId == c;
      assert t[k].accountId != account;
      assert k in after && after[k] == t[k];
    }
  }

  lemma LoginKeeps(g: Game, token: Option<S.Token>, account: string, player: uint64, ttl: int, now: int,
                   accounts: map<string, uint64>)
    requires Inv(g, accounts) && Configured(account, player, accounts)
    requires token.Some? ==> token.value !in g.sessions.table
    ensures Inv(Login(g, token, account, player, ttl, now), accounts)
  {
    hide S.HasConn, R.RoomFits, S.IssueError, S.Unique, AuthMatches;
    if !g.closed && S.IssueError(g.sessions, token, account, player, ttl, now).None? && token.Some? {
      var cs := ConnsOf(g.sessions.table, account);
      var issued := S.Issue(g.sessions, token, account, player, ttl, now);
      S.UniqueStep(g.sessions, S.IssueOp(token, account, player, ttl, now));
      S.UniqueLess(issued.table, TableWithout(issued.table, cs));
      LoginAuth(g.sessions.table, g.conns, account, S.Fresh(token.value, account, player, now, ttl));
      EvictRooms(g.rooms, g.conns, cs);
      EvictFit(g.rooms, cs);
    } else {
      Unissued(g, token, account, player, ttl, now);
    }
  }

  lemma Unissued(g: Game, token: Option<S.Token>, account: string, player: uint64, ttl: int, now: int)
    ensures token.None? ==> S.IssueError(g.sessions, token, account, player, ttl, now).Some?
  {
  }

  lemma ConnectedKeeps(g: Game, c: uint32, now: int, accounts: map<string, uint64>)
    requires Inv(g, accounts) && c !in g.conns
    ensures Inv(Connected(g, c, now), accounts)
  {
    hide R.RoomFits, S.Unique;
  }

  lemma AuthenticateKeeps(g: Game, c: uint32, token: S.Token, now: int, later: int, accounts: map<string, uint64>)
    requires Inv(g, accounts)
    ensures Inv(Authenticate(g, c, token, now, later), accounts)
  {
    hide R.RoomFits, RoomsFit, S.BindError, S.Unique, AuthMatches, RoomsMatch;
    AuthenticateRooms(g.rooms, g.conns, c);
    if CanAuthenticate(g, c, token, now, later) {
      S.UniqueStep(g.sessions, S.BindOp(token, c, later));
      S.Bindable(g.sessions, token, c, later);
      BindAuth(g.sessions.table, g.conns, token, c, later);
    }
  }

  lemma AuthenticateRooms(rooms: map<uint32, R.RoomView>, conns: map<uint32, Conn>, c: uint32)
    requires RoomsMatch(rooms, conns)
    ensures c in conns ==> RoomsMatch(rooms, conns[c := conns[c].(authDeadline := None)])
  {
  }

  lemma BindAuth(t: S.Table, conns: map<uint32, Conn>, token: S.Token, c: uint32, now: int)
    requires AuthMatches(t, conns) && token in t && c in conns && (t[token].bound ==> t[token].connId == c)
    ensures AuthMatches(t[token := t[token].(connId := c, bound := true, updatedAt := now)],
                        conns[c := conns[c].(authDeadline := None)])
  {
    var after := t[token := t[token].(connId := c, bound := true, updatedAt := now)];
    assert after[token].bound && after[token].connId == c;
    forall d | d in conns && d != c ensures S.HasConn(after, d) <==> S.HasConn(t, d) {
      if S.HasConn(t, d) {
        var k :| k in t && t[k].bound && t[k].connId == d;
        assert after[k] == t[k];
      }
    }
  }

  lemma PlaceKeeps(g: Game, c: uint32, r: uint32, accounts: map<string, uint64>)
    requires Inv(g, accounts) && c in g.conns && g.conns[c].authDeadline.None?
    requires r == 0 || (r in g.rooms && (g.conns[c].roomId == r || R.JoinError(g.rooms[r], c).None?))
    ensures Inv(Place(g, c, r), accounts)
  {
    hide S.Unique, Identities, RoomsMatch, RoomsFit, AuthMatches, Moved;
    MovedMatch(g.rooms, g.conns, c, r);
    MemberOf(g.rooms, g.conns, c);
    MovedFit(g.rooms, c, r);
    MovedAuth(g.sessions.table, g.conns, c, r);
  }

  lemma MemberOf(rooms: map<uint32, R.RoomView>, conns: map<uint32, Conn>, c: uint32)
    requires RoomsMatch(rooms, conns) && c in conns
    ensures conns[c].roomId != 0 ==> conns[c].roomId in rooms && c in rooms[conns[c].roomId].members
    ensures 0 !in rooms
  {
  }

  lemma MovedMatch(rooms: map<uint32, R.RoomView>, conns: map<uint32, Conn>, c: uint32, r: uint32)
    requires RoomsMatch(rooms, conns) && c in conns && (r == 0 || r in rooms)
    ensures RoomsMatch(Moved(rooms, c, r), conns[c := conns[c].(roomId := r)])
  {
  }

  lemma MovedAuth(t: S.Table, conns: map<uint32, Conn>, c: uint32, r: uint32)
    requires AuthMatches(t, conns) && c in conns && conns[c].authDeadline.None?
    ensures AuthMatches(t, conns[c := conns[c].(roomId := r)])
  {
    hide S.HasConn;
  }

  lemma MovedFit(rooms: map<uint32, R.RoomView>, c: uint32, r: uint32)
    requires RoomsFit(rooms) && (r in rooms ==> c in rooms[r].members || R.JoinError(rooms[r], c).None?)
    ensures RoomsFit(Moved(rooms, c, r))
  {
    hide R.RoomFits, R.JoinError;
    forall q | q in rooms ensures R.RoomFits(Moved(rooms, c, r)[q]) {
      MovedRoomFits(rooms[q], c, q == r);
    }
  }

  lemma MovedRoomFits(room: R.RoomView, c: uint32, comes: bool)
    requires R.RoomFits(room) && room.state != R.Closed && 0 < room.maxPlayers
    requires comes ==> c in room.members || R.JoinError(room, c).None?
    ensures R.RoomFits(room.(members := room.members - {c} + if comes then {c} else {}))
  {
    var members := room.members;
    Fewer(members - {c}, members);
    if comes && c in members {
      assert members - {c} + {c} == members;
    } else if comes {
      assert members - {c} == members;
      assert |members + {c}| == |members| + 1;
    } else {
      assert members - {c} + {} == members - {c};
    }
  }

  /** A live session of a connection means that it has authenticated. */
  lemma AuthenticatedHasNoDeadline(g: Game, c: uint32, now: int, accounts: map<string, uint64>)
    requires Inv(g, accounts) && Authenticated(g, c, now)
    ensures g.conns[c].authDeadline.None?
  {
  }

  lemma SweepAuth(g: Game, now: int)
    requires AuthMatches(g.sessions.table, g.conns)
    ensures AuthMatches(TableWithout(S.Living(g.sessions.table, now), Overdue(g, now)), g.conns - Overdue(g, now))
  {
    var t := g.sessions.table;
    var after := TableWithout(S.Living(t, now), Overdue(g, now));
    forall c | c in g.conns - Overdue(g, now) ensures S.HasConn(after, c) <==> S.HasConn(t, c) {
      if S.HasConn(t, c) {
        var k :| k in t && t[k].bound && t[k].connId == c;
        assert !S.Expired(t[k], now);
        assert k in after && after[k] == t[k];
      }
    }
  }

  lemma SweepKeeps(g: Game, now: int, accounts: map<string, uint64>)
    requires Inv(g, accounts)
    ensures Inv(Sweep(g, now), accounts)
  {
    hide R.RoomFits, AuthMatches, S.Unique, Overdue;
    var cs := Overdue(g, now);
    SweepAuth(g, now);
    EvictRooms(g.rooms, g.conns, cs);
    EvictFit(g.rooms, cs);
    S.UniqueLess(g.sessions.table, Sweep(g, now).sessions.table);
  }

  // Runs

  datatype Op =
    | LoginOp(token: Option<S.Token>, account: string, player: uint64, ttl: int, now: int)
    | ConnectedOp(c: uint32, now: int)
    | DisconnectedOp(c: uint32)
    | AuthenticateOp(c: uint32, presented: S.Token, now: int, later: int)
    | JoinOp(c: uint32, room: uint32, now: int)
    | LeaveOp(c: uint32, now: int)
    | SweepOp(now: int)
    | CloseOp

  function Step(g: Game, op: Op): Game {
    match op
    case LoginOp(token, account, player, ttl, now) => Login(g, token, account, player, ttl, now)
    case ConnectedOp(c, now) => Connected(g, c, now)
    case DisconnectedOp(c) => Disconnected(g, c)
    case AuthenticateOp(c, token, now, later) => Authenticate(g, c, token, now, later)
    case JoinOp(c, r, now) => Join(g, c, r, now)
    case LeaveOp(c, now) => Leave(g, c, now)
    case SweepOp(now) => Sweep(g, now)
    case CloseOp => Close(g)
  }

  /** Tokens and connection ids are fresh; only configured accounts get as far as a session. */
  predicate Proper(g: Game, op: Op, accounts: map<string, uint64>) {
    && (op.LoginOp? ==> Configured(op.account, op.player, accounts)
                        && (op.token.Some? ==> op.token.value !in g.sessions.table))
    && (op.ConnectedOp? ==> op.c !in g.conns)
  }

  lemma InvStep(g: Game, op: Op, accounts: map<string, uint64>)
    requires Inv(g, accounts) && Proper(g, op, accounts)
    ensures Inv(Step(g, op), accounts)
  {
    hide Inv, Evict, Stop, Sweep, Place;
    match op
    case LoginOp(token, account, player, ttl, now) => LoginKeeps(g, token, account, player, ttl, now, accounts);
    case ConnectedOp(c, now) => ConnectedKeeps(g, c, now, accounts);
    case DisconnectedOp(c) => EvictKeeps(g, {c}, accounts);
    case AuthenticateOp(c, token, now, later) => AuthenticateKeeps(g, c, token, now, later, accounts);
    case JoinOp(c, r, now) =>
      if JoinError(g, c, r, now).None? {
        AuthenticatedHasNoDeadline(g, c, now, accounts);
        PlaceKeeps(g, c, r, accounts);
      }
    case LeaveOp(c, now) =>
      if Authenticated(g, c, now) {
        AuthenticatedHasNoDeadline(g, c, now, accounts);
        PlaceKeeps(g, c, 0, accounts);
      }
    case SweepOp(now) => SweepKeeps(g, now, accounts);
    case CloseOp => CloseKeeps(g, accounts);
  }

  lemma CloseKeeps(g: Game, accounts: map<string, uint64>)
    requires Inv(g, accounts)
    ensures Inv(Close(g), accounts)
  {
    hide RoomsMatch, RoomsFit, AuthMatches, S.Unique;
    EvictKeeps(g, g.conns.Keys, accounts);
    assert g.conns - g.conns.Keys == map[];
  }

  function Run(g: Game, ops: seq<Op>): Game
    decreases |ops|
  {
    if ops == [] then g else Run(Step(g, ops[0]), ops[1..])
  }

  predicate AllProper(g: Game, ops: seq<Op>, accounts: map<string, uint64>)
    decreases |ops|
  {
    ops == [] || (Proper(g, ops[0], accounts) && AllProper(Step(g, ops[0]), ops[1..], accounts))
  }

  lemma {:induction false} InvRun(g: Game, ops: seq<Op>, accounts: map<string, uint64>)
    requires Inv(g, accounts) && AllProper(g, ops, accounts)
    ensures Inv(Run(g, ops), accounts)
    decreases |ops|
  {
    hide Step, Inv, Proper;
    if ops != [] {
      InvStep(g, ops[0], accounts);
      InvRun(Step(g, ops[0]), ops[1..], accounts);
    }
  }

  // Consequences

  /** After a sweep, every connection that is left is bound to a session that has not expired or is still
      before its deadline; whoever is gone was neither; and no expired session is left. */
  lemma SweepLeavesTheLive(g: Game, now: int, accounts: map<string, uint64>)
    requires Inv(g, accounts)
    ensures var after := Sweep(g, now);
            && (forall c :: c in after.conns <==>
                  c in g.conns && (if g.conns[c].authDeadline.Some? then g.conns[c].authDeadline.value > now
                                   else S.HasLive(g.sessions.table, c, now)))
            && (forall c :: c in after.conns && after.conns[c].authDeadline.None? ==>
                  S.HasLive(after.sessions.table, c, now))
            && (forall k :: k in after.sessions.table ==> !S.Expired(after.sessions.table[k], now))
  {
    hide RoomsMatch, RoomsFit, Identities, RoomsWithout, S.Expired;
    var t, after := g.sessions.table, Sweep(g, now);
    forall c | c in g.conns
      ensures c !in Overdue(g, now)
              <==> if g.conns[c].authDeadline.Some? then g.conns[c].authDeadline.value > now else S.HasLive(t, c, now)
    {
      if g.conns[c].authDeadline.None? {
        var k :| k in t && t[k].bound && t[k].connId == c;
      } else {
        assert !S.HasConn(t, c);
      }
    }
    forall c | c in after.conns && after.conns[c].authDeadline.None? ensures S.HasLive(after.sessions.table, c, now) {
      var k :| k in t && t[k].bound && t[k].connId == c && !S.Expired(t[k], now);
      assert k in after.sessions.table && after.sessions.table[k] == t[k];
    }
  }

  lemma MembersAreConnected(rooms: map<uint32, R.RoomView>, conns: map<uint32, Conn>, r: uint32)
    requires RoomsMatch(rooms, conns) && r in rooms
    ensures rooms[r].members <= conns.Keys
  {
  }

  /** Every room member is bound to a session in the manager. */
  lemma MembersAreBound(g: Game, r: uint32, c: uint32, accounts: map<string, uint64>)
    requires Inv(g, accounts) && r in g.rooms && c in g.rooms[r].members
    ensures exists k :: k in g.sessions.table && g.sessions.table[k].bound && g.sessions.table[k].connId == c
  {
    assert S.HasConn(g.sessions.table, c);
  }

  /** Once closed, the service has no connection and no room has a member, whatever is called later. */
  lemma {:induction false} ClosedForever(g: Game, ops: seq<Op>, accounts: map<string, uint64>)
    requires Inv(g, accounts) && g.closed && AllProper(g, ops, accounts)
    ensures var later := Run(g, ops);
            later.closed && later.conns == map[] && forall r :: r in later.rooms ==> later.rooms[r].members == {}
    decreases |ops|
  {
    if ops == [] {
      forall r | r in g.rooms ensures g.rooms[r].members == {} {
        MembersAreConnected(g.rooms, g.conns, r);
      }
    } else {
      hide Inv, Proper;
      InvStep(g, ops[0], accounts);
      ClosedForever(Step(g, ops[0]), ops[1..], accounts);
    }
  }

  // The code's way of working and the above agree

  /** Leaving the one room a connection says it is in is leaving all rooms. */
  lemma OneRoomIsAll(rooms: map<uint32, R.RoomView>, conns: map<uint32, Conn>, c: uint32)
    requires RoomsMatch(rooms, conns) && c in conns
    ensures RoomsWithout(rooms, {c}) == WithoutMember(rooms, conns[c].roomId, c)
  {
    var without := RoomsWithout(rooms, {c});
    forall r | r in rooms ensures without[r] == WithoutMember(rooms, conns[c].roomId, c)[r] {
      if c !in rooms[r].members {
        assert rooms[r].members - {c} == rooms[r].members;
      }
    }
  }

  function WithoutMember(rooms: map<uint32, R.RoomView>, r: uint32, c: uint32): map<uint32, R.RoomView> {
    if r in rooms then rooms[r := rooms[r].(members := rooms[r].members - {c})] else rooms
  }

  function WithMember(rooms: map<uint32, R.RoomView>, r: uint32, c: uint32): map<uint32, R.RoomView> {
    if r in rooms then rooms[r := rooms[r].(members := rooms[r].members + {c})] else rooms
  }

  /** Joining the new room and then leaving the old one is moving. */
  lemma JoinThenLeave(rooms: map<uint32, R.RoomView>, conns: map<uint32, Conn>, c: uint32, r: uint32)
    requires RoomsMatch(rooms, conns) && c in conns && r in rooms && conns[c].roomId != r
    ensures Moved(rooms, c, r) == WithoutMember(WithMember(rooms, r, c), conns[c].roomId, c)
    ensures conns[c].roomId != 0 ==> conns[c].roomId in rooms && c in WithMember(rooms, r, c)[conns[c].roomId].members
  {
    var moved := Moved(rooms, c, r);
    forall q | q in rooms ensures moved[q] == WithoutMember(WithMember(rooms, r, c), conns[c].roomId, c)[q] {
      if c !in rooms[q].members {
        assert rooms[q].members - {c} == rooms[q].members;
      }
    }
  }

  /** Joining the room one is in changes nothing. */
  lemma JoinAgain(g: Game, c: uint32)
    requires RoomsMatch(g.rooms, g.conns) && c in g.conns && g.conns[c].roomId in g.rooms
    ensures Place(g, c, g.conns[c].roomId) == g
  {
    var moved := Moved(g.rooms, c, g.conns[c].roomId);
    forall q | q in g.rooms ensures moved[q] == g.rooms[q] {
      if c !in g.rooms[q].members {
        assert g.rooms[q].members - {c} == g.rooms[q].members;
      } else {
        assert g.rooms[q].members - {c} + {c} == g.rooms[q].members;
      }
    }
  }

  lemma LeaveIsPlace(rooms: map<uint32, R.RoomView>, conns: map<uint32, Conn>, c: uint32)
    requires RoomsMatch(rooms, conns) && c in conns
    ensures Moved(rooms, c, 0) == WithoutMember(rooms, conns[c].roomId, c)
  {
    OneRoomIsAll(rooms, conns, c);
    var moved := Moved(rooms, c, 0);
    forall r | r in rooms ensures moved[r] == RoomsWithout(rooms, {c})[r] {
      assert rooms[r].members - {c} + {} == rooms[r].members - {c};
    }
  }

  /** Evicting one after the other. */
  lemma EvictMore(g: Game, a: set<uint32>, b: set<uint32>)
    ensures Evict(Evict(g, a), b) == Evict(g, a + b) && Stop(Stop(g, a), b) == Stop(g, a + b)
  {
    var rooms := RoomsWithout(RoomsWithout(g.rooms, a), b);
    forall r | r in g.rooms ensures rooms[r] == RoomsWithout(g.rooms, a + b)[r] {
      assert g.rooms[r].members - a - b == g.rooms[r].members - (a + b);
    }
    assert g.conns - a - b == g.conns - (a + b);
    assert g.stopped + a + b == g.stopped + (a + b);
    assert TableWithout(TableWithout(g.sessions.table, a), b) == TableWithout(g.sessions.table, a + b);
  }

  lemma EvictNone(g: Game)
    ensures Evict(g, {}) == g && Stop(g, {}) == g
  {
    assert forall r :: r in g.rooms ==> g.rooms[r].members - {} == g.rooms[r].members;
    assert RoomsWithout(g.rooms, {}) == g.rooms;
    assert TableWithout(g.sessions.table, {}) == g.sessions.table;
  }
}
