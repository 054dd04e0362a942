/** examples/gameapp/service.go: the Service over a session manager, room objects and its own table of
    connections. Each operation does what GameState says. Passwords, the player store, tokens and the clock
    are parameters; a connection is its id. */
module GameService {
  import opened Binary
  import opened Options
  import S = SessionTable
  import Sessions
  import R = Rooms
  import opened G = GameState

  /** hashOk: the stored hash is a bcrypt hash of a supported cost. */
  datatype Account = Account(accountId: string, playerId: uint64, hashOk: bool)

  datatype RoomConfig = RoomConfig(id: uint32, maxPlayers: int)

  predicate GoodAccounts(accounts: seq<Account>) {
    && (forall i :: 0 <= i < |accounts| ==>
          accounts[i].accountId != "" && |accounts[i].accountId| <= 128 && accounts[i].playerId != 0
          && accounts[i].hashOk)
    && (forall i, j :: 0 <= i < j < |accounts| ==>
          accounts[i].accountId != accounts[j].accountId && accounts[i].playerId != accounts[j].playerId)
  }

  predicate GoodRooms(configs: seq<RoomConfig>) {
    && (forall i :: 0 <= i < |configs| ==> configs[i].id != 0 && configs[i].maxPlayers > 0)
    && (forall i, j :: 0 <= i < j < |configs| ==> configs[i].id != configs[j].id)
  }

  /** Exactly the listed accounts. */
  predicate Listed(table: map<string, uint64>, accounts: seq<Account>) {
    && (forall i :: 0 <= i < |accounts| ==>
          accounts[i].accountId in table && table[accounts[i].accountId] == accounts[i].playerId)
    && (forall a :: a in table ==> exists i :: 0 <= i < |accounts| && accounts[i].accountId == a)
  }

  /** Exactly the listed rooms, empty and waiting. */
  predicate Opened(rooms: map<uint32, R.RoomView>, configs: seq<RoomConfig>) {
    && (forall i :: 0 <= i < |configs| ==>
          configs[i].id in rooms
          && rooms[configs[i].id] == R.RoomView(configs[i].id, configs[i].maxPlayers, R.Waiting, {}))
    && (forall r :: r in rooms ==> exists i :: 0 <= i < |configs| && configs[i].id == r)
  }

  function PlayersOf(accounts: seq<Account>): set<uint64> {
    set i | 0 <= i < |accounts| :: accounts[i].playerId
  }

  lemma AccountsNone()
    ensures GoodAccounts([]) && Listed(map[], []) && PlayersOf([]) == {}
  {
  }

  lemma AccountsMore(found: map<string, uint64>, accounts: seq<Account>, i: nat)
    requires i < |accounts| && GoodAccounts(accounts[..i]) && Listed(found, accounts[..i])
    ensures var a := accounts[i];
            && (a.accountId !in found ==> Listed(found[a.accountId := a.playerId], accounts[..i + 1]))
            && PlayersOf(accounts[..i + 1]) == PlayersOf(accounts[..i]) + {a.playerId}
            && (GoodAccounts(accounts[..i + 1]) <==>
                  a.accountId != "" && |a.accountId| <= 128 && a.playerId != 0 && a.hashOk
                  && a.accountId !in found && a.playerId !in PlayersOf(accounts[..i]))
            && (GoodAccounts(accounts) ==> GoodAccounts(accounts[..i + 1]))
  {
    hide GoodAccounts, Listed;
    assert accounts[..i + 1] == accounts[..i] + [accounts[i]];
    ListedMore(found, accounts[..i], accounts[i]);
    GoodMore(found, accounts[..i], accounts[i]);
    if GoodAccounts(accounts) {
      GoodPrefix(accounts, i + 1);
    }
  }

  lemma GoodPrefix(accounts: seq<Account>, i: nat)
    requires i <= |accounts| && GoodAccounts(accounts)
    ensures GoodAccounts(accounts[..i])
  {
  }

  lemma ListedMore(found: map<string, uint64>, before: seq<Account>, a: Account)
    requires Listed(found, before)
    ensures a.accountId !in found ==> Listed(found[a.accountId := a.playerId], before + [a])
    ensures PlayersOf(before + [a]) == PlayersOf(before) + {a.playerId}
  {
    var now, table := before + [a], found[a.accountId := a.playerId];
    assert now[|before|] == a;
    assert forall j :: 0 <= j < |before| ==> now[j] == before[j];
    forall b | b in table ensures exists j :: 0 <= j < |now| && now[j].accountId == b {
      if b == a.accountId {
        assert now[|before|].accountId == b;
      } else {
        var j :| 0 <= j < |before| && before[j].accountId == b;
        assert now[j].accountId == b;
      }
    }
  }

  lemma GoodMore(found: map<string, uint64>, before: seq<Account>, a: Account)
    requires GoodAccounts(before) && Listed(found, before)
    ensures GoodAccounts(before + [a]) <==>
              a.accountId != "" && |a.accountId| <= 128 && a.playerId != 0 && a.hashOk
              && a.accountId !in found && a.playerId !in PlayersOf(before)
  {
    var now, n := before + [a], |before|;
    assert now[n] == a;
    assert forall j :: 0 <= j < n ==> now[j] == before[j];
    if a.accountId in found {
      var j :| 0 <= j < n && before[j].accountId == a.accountId;
      assert now[j].accountId == now[n].accountId;
    }
    if a.playerId in PlayersOf(before) {
      var j :| 0 <= j < n && before[j].playerId == a.playerId;
      assert now[j].playerId == now[n].playerId;
    }
  }

  lemma RoomsNone()
    ensures GoodRooms([]) && Opened(map[], [])
  {
  }

  lemma RoomsMore(rooms: map<uint32, R.RoomView>, configs: seq<RoomConfig>, i: nat)
    requires i < |configs| && GoodRooms(configs[..i]) && Opened(rooms, configs[..i])
    ensures var c := configs[i];
            && (c.id !in rooms ==> Opened(rooms[c.id := R.RoomView(c.id, c.maxPlayers, R.Waiting, {})],
                                          configs[..i + 1]))
            && (GoodRooms(configs[..i + 1]) <==> c.id != 0 && c.maxPlayers > 0 && c.id !in rooms)
            && (GoodRooms(configs) ==> GoodRooms(configs[..i + 1]))
  {
    hide GoodRooms, Opened;
    assert configs[..i + 1] == configs[..i] + [configs[i]];
    OpenedMore(rooms, configs[..i], configs[i]);
    GoodRoomsMore(rooms, configs[..i], configs[i]);
    if GoodRooms(configs) {
      GoodRoomsPrefix(configs, i + 1);
    }
  }

  lemma GoodRoomsPrefix(configs: seq<RoomConfig>, i: nat)
    requires i <= |configs| && GoodRooms(configs)
    ensures GoodRooms(configs[..i])
  {
  }

  lemma OpenedMore(rooms: map<uint32, R.RoomView>, before: seq<RoomConfig>, c: RoomConfig)
    requires Opened(rooms, before)
    ensures c.id !in rooms ==> Opened(rooms[c.id := R.RoomView(c.id, c.maxPlayers, R.Waiting, {})], before + [c])
  {
    var now, after := before + [c], rooms[c.id := R.RoomView(c.id, c.maxPlayers, R.Waiting, {})];
    assert now[|before|] == c;
    assert forall j :: 0 <= j < |before| ==> now[j] == before[j];
    forall r | r in after ensures exists j :: 0 <= j < |now| && now[j].id == r {
      if r == c.id {
        assert now[|before|].id == r;
      } else {
        var j :| 0 <= j < |before| && before[j].id == r;
        assert now[j].id == r;
      }
    }
  }

  lemma GoodRoomsMore(rooms: map<uint32, R.RoomView>, before: seq<RoomConfig>, c: RoomConfig)
    requires GoodRooms(before) && Opened(rooms, before)
    ensures GoodRooms(before + [c]) <==> c.id != 0 && c.maxPlayers > 0 && c.id !in rooms
  {
    var now, n := before + [c], |before|;
    assert now[n] == c;
    assert forall j :: 0 <= j < n ==> now[j] == before[j];
    if c.id in rooms {
      var j :| 0 <= j < n && before[j].id == c.id;
      assert now[j].id == now[n].id;
    }
  }

  lemma NewInv(rooms: map<uint32, R.RoomView>, configs: seq<RoomConfig>, table: map<string, uint64>,
               accounts: seq<Account>)
    requires GoodRooms(configs) && Opened(rooms, configs) && GoodAccounts(accounts) && Listed(table, accounts)
    ensures Inv(Game(S.State(S.ReplaceExisting, map[], None), rooms, map[], false, {}), table)
  {
    forall r | r in rooms
      ensures r != 0 && rooms[r] == R.RoomView(r, rooms[r].maxPlayers, R.Waiting, {}) && rooms[r].maxPlayers > 0
    {
      var i :| 0 <= i < |configs| && configs[i].id == r;
    }
    assert RoomsFit(rooms);
    forall a | a in table ensures a != "" && table[a] != 0 {
      var i :| 0 <= i < |accounts| && accounts[i].accountId == a;
    }
    forall a, b | a in table && b in table && table[a] == table[b] ensures a == b {
      var i :| 0 <= i < |accounts| && accounts[i].accountId == a;
      var j :| 0 <= j < |accounts| && accounts[j].accountId == b;
    }
  }

  class Service {
    const accounts: map<string, uint64>
    const sessions: Sessions.Manager
    const rooms: R.RoomManager
    const ttl: int
    var conns: map<uint32, Conn>
    var closed: bool
    var stopped: set<uint32>

    ghost function View(): Game reads this, sessions, rooms, rooms.rooms.Values {
      Game(sessions.View(), rooms.View(), conns, closed, stopped)
    }

    /** The parts are sound, whether or not they agree. */
    ghost predicate Sound() reads this, sessions, rooms, rooms.rooms.Values {
      sessions.Valid() && rooms.Valid() && ttl > 0
    }

    ghost predicate Valid() reads this, sessions, rooms, rooms.rooms.Values {
      Sound() && Inv(View(), accounts)
    }

    constructor (accounts: map<string, uint64>, rooms: R.RoomManager, ttl: int)
      requires ttl > 0 && rooms.Valid()
      requires Inv(Game(S.State(S.ReplaceExisting, map[], None), rooms.View(), map[], false, {}), accounts)
      ensures Valid() && this.accounts == accounts && this.rooms == rooms && fresh(sessions)
      ensures View() == Game(S.State(S.ReplaceExisting, map[], None), rooms.View(), map[], false, {})
    {
      hide Inv, R.Room.Valid, Sessions.Manager.Valid;
      this.accounts, this.rooms, this.ttl := accounts, rooms, ttl;
      sessions := new Sessions.Manager(S.ReplaceExisting);
      conns, closed, stopped := map[], false, {};
    }

    /** New: null stands for its errors. */
    static method New(accounts: seq<Account>, ttl: int, configs: seq<RoomConfig>) returns (s: Service?)
      ensures s != null <==> accounts != [] && ttl > 0 && GoodAccounts(accounts) && GoodRooms(configs)
      ensures s != null ==>
                && fresh(s) && s.Valid() && Listed(s.accounts, accounts) && Opened(s.rooms.View(), configs)
                && s.View() == Game(S.State(S.ReplaceExisting, map[], None), s.rooms.View(), map[], false, {})
    {
      if |accounts| == 0 || ttl <= 0 {
        return null;
      }
      var table := ReadAccounts(accounts);
      if table.None? {
        return null;
      }
      var rooms := OpenRooms(configs);
      if rooms == null {
        return null;
      }
      NewInv(rooms.View(), configs, table.value, accounts);
      s := new Service(table.value, rooms, ttl);
    }

    static method OpenRooms(configs: seq<RoomConfig>) returns (rooms: R.RoomManager?)
      ensures rooms != null <==> GoodRooms(configs)
      ensures rooms != null ==> fresh(rooms) && rooms.Valid() && Opened(rooms.View(), configs)
    {
      hide GoodRooms, Opened, R.Room.Valid;
      var manager := new R.RoomManager();
      RoomsNone();
      for i := 0 to |configs|
        invariant fresh(manager) && (forall r :: r in manager.rooms ==> fresh(manager.rooms[r])) && manager.Valid()
        invariant GoodRooms(configs[..i]) && Opened(manager.View(), configs[..i])
      {
        RoomsMore(manager.View(), configs, i);
        if configs[i].id == 0 || configs[i].maxPlayers <= 0 {
          return null;
        }
        assert manager.View().Keys == manager.rooms.Keys;
        var created := manager.CreateRoom(configs[i].id, configs[i].maxPlayers);
        if created.Err? {
          return null;
        }
      }
      assert configs[..|configs|] == configs;
      rooms := manager;
    }

    static method ReadAccounts(accounts: seq<Account>) returns (table: Option<map<string, uint64>>)
      ensures table.Some? <==> GoodAccounts(accounts)
      ensures table.Some? ==> Listed(table.value, accounts)
    {
      hide GoodAccounts, Listed;
      var players: set<uint64> := {};
      var found: map<string, uint64> := map[];
      AccountsNone();
      for i := 0 to |accounts|
        invariant GoodAccounts(accounts[..i]) && Listed(found, accounts[..i]) && players == PlayersOf(accounts[..i])
      {
        var account := accounts[i];
        AccountsMore(found, accounts, i);
        if account.accountId == "" || |account.accountId| > 128 || account.playerId == 0
           || account.playerId in players
        {
          return None;
        }
        if account.accountId in found {
          return None;
        }
        if !account.hashOk {
          return None;
        }
        found := found[account.accountId := account.playerId];
        players := players + {account.playerId};
      }
      assert accounts[..|accounts|] == accounts;
      table := Some(found);
    }

    /** room.Leave on the room a connection says it is in, if there is one. */
    method LeaveRoom(id: uint32, c: uint32)
      requires rooms.Valid()
      modifies rooms.rooms.Values
      ensures rooms.Valid() && rooms.View() == WithoutMember(old(rooms.View()), id, c)
    {
      if id in rooms.rooms {
        var err := rooms.rooms[id].Leave(c);
      }
    }

    method JoinRoom(id: uint32, c: uint32) returns (err: Option<R.RoomError>)
      requires rooms.Valid() && id in rooms.rooms
      modifies rooms.rooms.Values
      ensures rooms.Valid() && err == R.JoinError(old(rooms.View())[id], c)
      ensures rooms.View() == if err.None? then WithMember(old(rooms.View()), id, c) else old(rooms.View())
    {
      err := rooms.rooms[id].Join(c);
    }

    /** disconnectLocked. */
    method DisconnectLocked(c: uint32, stop: bool)
      requires Sound() && RoomsMatch(rooms.View(), conns)
      modifies this`conns, this`stopped, sessions, rooms.rooms.Values
      ensures Sound() && RoomsMatch(rooms.View(), conns)
      ensures View() == if c !in old(conns) then old(View())
                        else if stop then G.Stop(old(View()), {c}) else Evict(old(View()), {c})
    {
      hide RoomsMatch, RoomsWithout, Sessions.Manager.Valid, R.RoomManager.Valid, S.WithoutConn, TableWithout,
           S.HasConn;
      if c !in conns {
        return;
      }
      ghost var before := View();
      OneRoomIsAll(before.rooms, conns, c);
      EvictRooms(before.rooms, conns, {c});
      if conns[c].roomId != 0 {
        LeaveRoom(conns[c].roomId, c);
      } else {
        NoRoomZero(before.rooms, conns);
      }
      var gone := sessions.LogoutByConnId(c);
      WithoutConnIsTableWithout(before.sessions.table, c);
      conns := conns - {c};
      if stop {
        stopped := stopped + {c};
      }
    }

    method Disconnected(c: uint32)
      requires Valid()
      modifies this`conns, this`stopped, sessions, rooms.rooms.Values
      ensures Valid() && View() == G.Disconnected(old(View()), c)
    {
      hide RoomsMatch, RoomsWithout, Sessions.Manager.Valid, R.RoomManager.Valid, Inv, Evict;
      InvParts(View(), accounts);
      EvictKeeps(View(), {c}, accounts);
      DisconnectLocked(c, false);
    }

    /** The connection hook; connection ids are fresh. */
    method Connected(c: uint32, now: int)
      requires Valid() && c !in conns
      modifies this`conns, this`stopped
      ensures Valid() && View() == G.Connected(old(View()), c, now)
    {
      hide Inv;
      ConnectedKeeps(View(), c, now, accounts);
      if closed {
        stopped := stopped + {c};
        return;
      }
      conns := conns[c := Conn(0, Some(now + AUTH_SECONDS))];
    }

    /** Login, after the password check; store tells whether the player could be loaded or created. */
    method Login(token: Option<S.Token>, account: string, verified: bool, store: bool, now: int)
        returns (r: Result<S.Session, GameError>)
      requires Valid() && (token.Some? ==> token.value !in sessions.byToken)
      modifies this`conns, this`stopped, sessions, rooms.rooms.Values
      ensures Valid()
      ensures r.Ok? <==> account in accounts && verified && !closed && store && token.Some?
      ensures account !in accounts || !verified || closed ==> r == Err(Unauthorized)
      ensures r.Err? ==> View() == old(View())
      ensures r.Ok? ==> View() == G.Login(old(View()), token, account, accounts[account], ttl, now)
      ensures r.Ok? ==> S.Opens(sessions.byToken, r.value, token.value, account, accounts[account], now + ttl)
    {
      hide Inv, RoomsMatch, Sessions.Manager.Valid, R.RoomManager.Valid, S.IssueError, S.Unique, G.Stop;
      if account !in accounts || !verified {
        return Err(Unauthorized);
      }
      if closed {
        return Err(Unauthorized);
      }
      if !store {
        return Err(StoreFailed);
      }
      ghost var g := View();
      LoginKeeps(g, token, account, accounts[account], ttl, now, accounts);
      InvParts(g, accounts);
      if token.Some? {
        LoginNeverRefused(g, token.value, account, accounts[account], ttl, now, accounts);
      } else {
        Unissued(g, token, account, accounts[account], ttl, now);
      }
      var issued := sessions.Issue(token, account, accounts[account], ttl, now);
      if issued.Err? {
        return Err(Session(issued.error));
      }
      ghost var g' := View();
      var replaced := issued.value.1;
      ReplacedConns(g, account, replaced, accounts);
      if replaced.Some? && replaced.value.bound {
        OpensStill(g', {replaced.value.connId}, issued.value.0, token.value, account, accounts[account], now + ttl);
        DisconnectLocked(replaced.value.connId, true);
      } else {
        EvictNone(g');
      }
      r := Ok(issued.value.0);
    }

    /** Authenticate, with its two readings of the clock: for the deadline, and for the token in Bind. */
    method Authenticate(c: uint32, token: S.Token, now: int, later: int) returns (r: Result<uint64, GameError>)
      requires Valid()
      modifies this`conns, sessions
      ensures Valid() && View() == G.Authenticate(old(View()), c, token, now, later)
      ensures r.Ok? <==> CanAuthenticate(old(View()), c, token, now, later)
      ensures r.Err? ==> r == Err(Unauthorized)
      ensures r.Ok? ==> token in sessions.byToken && r.value == sessions.byToken[token].playerId
    {
      hide Inv, Sessions.Manager.Valid, R.RoomManager.Valid, S.BindError, R.Room.Valid;
      AuthenticateKeeps(View(), c, token, now, later, accounts);
      if closed || c !in conns || (conns[c].authDeadline.Some? && conns[c].authDeadline.value <= now) {
        return Err(Unauthorized);
      }
      var bound := sessions.Bind(token, c, later);
      if bound.Err? {
        return Err(Unauthorized);
      }
      conns := conns[c := conns[c].(authDeadline := None)];
      r := Ok(bound.value.playerId);
    }

    /** authenticatedLocked. */
    method AuthenticatedLocked(c: uint32, now: int) returns (ok: bool)
      requires Sound()
      ensures ok == Authenticated(View(), c, now)
    {
      if closed || c !in conns {
        return false;
      }
      var found := sessions.GetByConnId(c, now);
      ok := found.Ok?;
    }

    /** Join: a refused switch keeps the old room; leaving the old room cannot fail. */
    method Join(c: uint32, room: uint32, now: int) returns (err: Option<GameError>)
      requires Valid()
      modifies this`conns, rooms.rooms.Values
      ensures Valid() && View() == G.Join(old(View()), c, room, now)
      ensures err == JoinError(old(View()), c, room, now)
    {
      hide Inv, Sessions.Manager.Valid, RoomsMatch, R.JoinError, R.RoomManager.Valid, Moved, S.HasLive, WithMember,
           WithoutMember;
      ghost var g := View();
      InvParts(g, accounts);
      InvStep(g, JoinOp(c, room, now), accounts);
      var ok := AuthenticatedLocked(c, now);
      if !ok {
        return Some(Unauthorized);
      }
      if room !in rooms.rooms {
        return Some(RoomNotFound);
      }
      if conns[c].roomId != room {
        var switched := SwitchRoom(c, room);
        if !switched {
          return Some(RoomUnavailable);
        }
      } else {
        JoinAgain(g, c);
      }
      err := None;
    }

    /** Joining the new room before leaving the old one. */
    method SwitchRoom(c: uint32, room: uint32) returns (ok: bool)
      requires Sound() && RoomsMatch(rooms.View(), conns) && c in conns && room in rooms.rooms
      requires conns[c].roomId != room
      modifies this`conns, rooms.rooms.Values
      ensures Sound() && ok == R.JoinError(old(rooms.View())[room], c).None?
      ensures View() == if ok then Place(old(View()), c, room) else old(View())
    {
      hide Sessions.Manager.Valid, RoomsMatch, R.JoinError, R.RoomManager.Valid, Moved, WithMember, WithoutMember;
      ghost var g := View();
      var full := JoinRoom(room, c);
      if full.Some? {
        return false;
      }
      JoinThenLeave(g.rooms, g.conns, c, room);
      LeaveRoom(conns[c].roomId, c);
      conns := conns[c := conns[c].(roomId := room)];
      ok := true;
    }

    method Leave(c: uint32, now: int) returns (err: Option<GameError>)
      requires Valid()
      modifies this`conns, rooms.rooms.Values
      ensures Valid() && View() == G.Leave(old(View()), c, now)
      ensures err == if Authenticated(old(View()), c, now) then None else Some(Unauthorized)
    {
      hide Inv, Sessions.Manager.Valid, RoomsMatch, R.RoomManager.Valid, S.HasLive, Place;
      ghost var g := View();
      InvParts(g, accounts);
      InvStep(g, LeaveOp(c, now), accounts);
      var ok := AuthenticatedLocked(c, now);
      if !ok {
        return Some(Unauthorized);
      }
      LeaveCurrent(c);
      err := None;
    }

    /** Leaving the room one is in, if any. */
    method LeaveCurrent(c: uint32)
      requires Sound() && RoomsMatch(rooms.View(), conns) && c in conns
      modifies this`conns, rooms.rooms.Values
      ensures Sound() && View() == Place(old(View()), c, 0)
    {
      hide Sessions.Manager.Valid, RoomsMatch, R.RoomManager.Valid, Moved;
      ghost var g := View();
      LeaveIsPlace(g.rooms, g.conns, c);
      if conns[c].roomId != 0 {
        LeaveRoom(conns[c].roomId, c);
        conns := conns[c := conns[c].(roomId := 0)];
      } else {
        NoRoomZero(g.rooms, g.conns);
        assert conns[c := conns[c].(roomId := 0)] == conns;
      }
    }

    /** Sweep: the sessions that have expired, then the connections that are late, in whatever order. */
    method Sweep(now: int)
      requires Valid()
      modifies this`conns, this`stopped, sessions, rooms.rooms.Values
      ensures Valid() && View() == G.Sweep(old(View()), now)
    {
      hide Inv, Sessions.Manager.Valid, R.RoomManager.Valid, RoomsMatch, G.Stop, Overdue, BoundConns, S.Expired;
      ghost var g := View();
      InvParts(g, accounts);
      SweepKeeps(g, now, accounts);
      var removed := sessions.RemoveExpired(now);
      ghost var swept := View();
      EvictNone(swept);
      BoundNone();
      for i := 0 to |removed|
        invariant Sound() && RoomsMatch(rooms.View(), conns) && View() == G.Stop(swept, BoundConns(removed[..i]))
      {
        StopConns(swept, BoundConns(removed[..i]));
        BoundMore(g, removed, i, now, accounts);
        if removed[i].bound {
          EvictMore(swept, BoundConns(removed[..i]), {removed[i].connId});
          DisconnectLocked(removed[i].connId, true);
        } else {
          assert BoundConns(removed[..i]) + {} == BoundConns(removed[..i]);
        }
      }
      assert removed[..|removed|] == removed;
      StopConns(swept, BoundConns(removed));
      ghost var late := set c | c in conns && IsLate(conns, c, now);
      assert late == set c | c in g.conns - BoundConns(removed) && IsLate(g.conns, c, now);
      DisconnectLate(now);
      EvictMore(swept, BoundConns(removed), late);
      OverdueIs(g, removed, late, now, accounts);
    }

    /** The second loop of Sweep. */
    method DisconnectLate(now: int)
      requires Sound() && RoomsMatch(rooms.View(), conns)
      modifies this`conns, this`stopped, sessions, rooms.rooms.Values
      ensures Sound() && View() == G.Stop(old(View()), set c | c in old(conns) && IsLate(old(conns), c, now))
    {
      hide Sessions.Manager.Valid, R.RoomManager.Valid, RoomsMatch, G.Stop;
      ghost var g := View();
      var rest := conns.Keys;
      ghost var done: set<uint32> := {};
      EvictNone(g);
      while rest != {}
        invariant Sound() && RoomsMatch(rooms.View(), conns) && View() == G.Stop(g, done)
        invariant rest <= conns.Keys && conns == g.conns - done
        invariant done == set c | c in g.conns && c !in rest && IsLate(g.conns, c, now)
        decreases rest
      {
        var c :| c in rest;
        rest := rest - {c};
        if conns[c].authDeadline.Some? && conns[c].authDeadline.value <= now {
          EvictMore(g, done, {c});
          DisconnectLocked(c, true);
          done := done + {c};
          StopConns(g, done);
        }
      }
      assert done == set c | c in g.conns && IsLate(g.conns, c, now);
    }

    /** Close disconnects every connection, in some order. */
    method Close()
      requires Valid()
      modifies this`conns, this`stopped, this`closed, sessions, rooms.rooms.Values
      ensures Valid() && View() == G.Close(old(View()))
    {
      hide Inv, Sessions.Manager.Valid, R.RoomManager.Valid, RoomsMatch, G.Stop;
      ghost var g := View().(closed := true);
      InvParts(View(), accounts);
      InvStep(View(), CloseOp, accounts);
      closed := true;
      var rest := conns.Keys;
      EvictNone(g);
      assert g.conns.Keys - rest == {};
      while rest != {}
        invariant Sound() && RoomsMatch(rooms.View(), conns)
        invariant rest <= g.conns.Keys && conns == g.conns - (g.conns.Keys - rest)
        invariant View() == G.Stop(g, g.conns.Keys - rest)
        decreases rest
      {
        var c :| c in rest;
        ghost var done := g.conns.Keys - rest;
        rest := rest - {c};
        DisconnectLocked(c, true);
        EvictMore(g, done, {c});
        StopConns(G.Stop(g, done), {c});
        assert done + {c} == g.conns.Keys - rest;
      }
      assert g.conns.Keys - {} == g.conns.Keys;
    }
  }

  lemma InvParts(g: Game, accounts: map<string, uint64>)
    requires Inv(g, accounts)
    ensures RoomsMatch(g.rooms, g.conns)
  {
  }

  lemma NoRoomZero(rooms: map<uint32, R.RoomView>, conns: map<uint32, Conn>)
    requires RoomsMatch(rooms, conns)
    ensures 0 !in rooms
  {
  }

  lemma WithoutConnIsTableWithout(t: S.Table, c: uint32)
    ensures S.WithoutConn(t, c) == TableWithout(t, {c})
  {
  }

  lemma StopConns(g: Game, cs: set<uint32>)
    ensures G.Stop(g, cs).conns == g.conns - cs
  {
  }

  /** A session that no connection is bound to outlasts their end. */
  lemma OpensStill(g: Game, cs: set<uint32>, v: S.Session, token: S.Token, account: string, player: uint64, until: int)
    requires S.Opens(g.sessions.table, v, token, account, player, until)
    ensures S.Opens(G.Stop(g, cs).sessions.table, v, token, account, player, until)
  {
    var after := G.Stop(g, cs).sessions.table;
    assert S.Find(g.sessions.table, token, until - 1) == Some(v);
    forall at ensures S.Find(after, token, at) == if at < until then Some(v) else None {
      assert S.Find(g.sessions.table, token, at) == if at < until then Some(v) else None;
    }
  }

  /** The session that a login replaces tells which connection to stop. */
  lemma ReplacedConns(g: Game, account: string, replaced: Option<S.Session>, accounts: map<string, uint64>)
    requires Inv(g, accounts)
    requires replaced.Some? ==> replaced.value in g.sessions.table.Values && replaced.value.accountId == account
    requires replaced.None? ==> !S.HasAccount(g.sessions.table, account)
    ensures ConnsOf(g.sessions.table, account)
            == if replaced.Some? && replaced.value.bound then {replaced.value.connId} else {}
    ensures replaced.Some? && replaced.value.bound ==> replaced.value.connId in g.conns
  {
    var t := g.sessions.table;
    if replaced.Some? {
      var k :| k in t && t[k] == replaced.value;
      assert forall j :: j in t && t[j].accountId == account ==> j == k;
    }
  }

  // The sets of connections that a sweep goes through

  predicate IsLate(conns: map<uint32, Conn>, c: uint32, now: int) {
    c in conns && conns[c].authDeadline.Some? && conns[c].authDeadline.value <= now
  }

  function BoundConns(list: seq<S.Session>): set<uint32> { set v | v in list && v.bound :: v.connId }

  lemma BoundNone()
    ensures forall list: seq<S.Session> :: BoundConns(list[..0]) == {}
  {
  }

  /** The sessions that a sweep removes, each once. */
  ghost predicate Removed(g: Game, removed: seq<S.Session>, now: int) {
    && (forall v :: v in removed <==>
                    v.token in g.sessions.table && g.sessions.table[v.token] == v && S.Expired(v, now))
    && (forall i, j :: 0 <= i < j < |removed| ==> removed[i].token != removed[j].token)
  }

  lemma BoundMore(g: Game, removed: seq<S.Session>, i: nat, now: int, accounts: map<string, uint64>)
    requires Inv(g, accounts) && Removed(g, removed, now) && i < |removed|
    ensures BoundConns(removed[..i + 1])
            == BoundConns(removed[..i]) + if removed[i].bound then {removed[i].connId} else {}
    ensures removed[i].bound ==> removed[i].connId in g.conns && removed[i].connId !in BoundConns(removed[..i])
  {
    assert removed[..i + 1] == removed[..i] + [removed[i]];
    var v := removed[i];
    assert v in removed;
    if v.bound {
      forall w | w in removed[..i] && w.bound ensures w.connId != v.connId {
        var j :| 0 <= j < i && removed[j] == w;
        assert w in removed && w.token != v.token;
      }
    }
  }

  lemma OverdueIs(g: Game, removed: seq<S.Session>, late: set<uint32>, now: int, accounts: map<string, uint64>)
    requires Inv(g, accounts) && Removed(g, removed, now)
    requires late == set c | c in g.conns - BoundConns(removed) && IsLate(g.conns, c, now)
    ensures BoundConns(removed) + late == Overdue(g, now)
  {
    var t := g.sessions.table;
    forall c | c in g.conns
      ensures c in BoundConns(removed) <==> HasExpired(t, c, now)
    {
      if k :| k in t && t[k].bound && t[k].connId == c && S.Expired(t[k], now) {
        assert t[k] in removed;
      }
    }
    assert BoundConns(removed) <= g.conns.Keys;
  }
}
