/** examples/webgame/server/world.go: the World over its session manager and its two arenas, each a room, a
    grid and the crystals in hiding. Rooms and grids are kept to what the players say. What clients are sent
    is not part of this model; decoded request bodies, tokens and the clock are parameters. */
module ArenaWorld {
  import opened Binary
  import opened Options
  import opened Sorting
  import opened ArenaSim
  import opened L = ArenaLaws
  import opened ArenaPlaces
  import S = SessionTable
  import Sessions
  import R = Rooms
  import A = AoiGrid

  datatype Reply = Silent | InvalidRequest | Unauthorized | RoomNotFound | RoomIsFull | InvalidInput | NotInRoom | Done

  datatype Input = Input(dx: real, dy: real, seqNo: uint32)

  class Arena {
    const room: R.Room
    const aoi: A.AOIManager
    var respawn: map<nat, int>

    ghost predicate Holds(players: map<uint32, Player>, r: uint32)
      requires r != 0
      reads room, aoi
    {
      && Tuned(players) && aoi.Valid() && aoi.size == SIZE
      && room.View() == R.RoomView(r, CAPACITY, R.Running, MembersOf(players, r)) && room.Valid()
      && aoi.entities == EntitiesOf(players, r)
    }

    constructor (id: uint32)
      requires id != 0
      ensures Holds(map[], id) && respawn == map[] && fresh(room) && fresh(aoi)
    {
      room := new R.Room(id, CAPACITY);
      aoi := new A.AOIManager(SIZE);
      respawn := map[];
      new;
      var err := room.Start();
    }

    /** room.Leave and aoi.RemoveEntity in World.leave: neither can fail. */
    method Remove(c: uint32, ghost players: map<uint32, Player>, ghost r: uint32)
      requires r != 0 && Holds(players, r) && c in players && players[c].roomId == r
      modifies room`members, aoi
      ensures Holds(players[c := Gone(players[c])], r)
    {
      hide InBox, UnitSpeed, EntitiesOf, Tuned, A.CellFor;
      GoneIsTuned(players[c]);
      TunedWith(players, c, Gone(players[c]));
      MembersWith(players, c, Gone(players[c]), r);
      EntitiesWith(players, c, Gone(players[c]), r);
      Located(players, c, r);
      var notMember := room.Leave(c);
      assert notMember.None?;
      var notEntity := aoi.RemoveEntity(c);
      assert notEntity.Ok?;
    }

    /** The player has joined the room, but is not in the grid yet. */
    ghost predicate Awaits(players: map<uint32, Player>, r: uint32, c: uint32)
      requires r != 0
      reads room, aoi
    {
      && Tuned(players) && aoi.Valid() && aoi.size == SIZE
      && room.View() == R.RoomView(r, CAPACITY, R.Running, MembersOf(players, r) + {c}) && room.Valid()
      && aoi.entities == EntitiesOf(players, r)
    }

    /** room.Join: refused only when the room is full. */
    method Admit(c: uint32, ghost players: map<uint32, Player>, ghost r: uint32) returns (full: bool)
      requires r != 0 && Holds(players, r) && c in players && players[c].roomId != r
      modifies room`members
      ensures full == (|MembersOf(players, r)| >= CAPACITY)
      ensures if full then Holds(players, r) else Awaits(players, r, c)
    {
      hide Tuned, EntitiesOf, A.AOIManager.Valid;
      NotLocated(players, c, r);
      var err := room.Join(c);
      full := err.Some?;
      assert full ==> MembersOf(players, r) + {} == MembersOf(players, r);
    }

    /** aoi.AddEntity: it cannot fail. */
    method Place(c: uint32, p: Player, ghost players: map<uint32, Player>, ghost r: uint32)
      requires 0 < r <= 2 && p.roomId == r && InBox(p) && UnitSpeed(p) && (c in players ==> players[c].roomId != r)
      requires Awaits(players, r, c)
      modifies aoi
      ensures Holds(players[c := p], r)
    {
      hide InBox, UnitSpeed, EntitiesOf, Tuned, A.CellFor;
      TunedWith(players, c, p);
      MembersWith(players, c, p, r);
      EntitiesWith(players, c, p, r);
      NotLocated(players, c, r);
      BoxIsPlaced(p);
      var added := aoi.AddEntity(c, ArenaPlaces.Place(p));
      assert added.Ok?;
    }

    /** aoi.MoveEntity in a step: it cannot fail. */
    method Move(c: uint32, p: Player, ghost players: map<uint32, Player>, ghost r: uint32)
      requires r != 0 && Holds(players, r) && c in players && players[c].roomId == r
      requires p.roomId == r && InBox(p) && UnitSpeed(p)
      modifies aoi
      ensures Holds(players[c := p], r)
    {
      hide InBox, UnitSpeed, EntitiesOf, Tuned, A.CellFor, A.Around;
      RoomBound(players, c);
      TunedWith(players, c, p);
      MembersWith(players, c, p, r);
      EntitiesWith(players, c, p, r);
      Located(players, c, r);
      BoxIsPlaced(p);
      var moved := aoi.MoveEntity(c, ArenaPlaces.Place(p));
      assert moved.Ok?;
    }
  }

  lemma RoomBound(players: map<uint32, Player>, c: uint32)
    requires Tuned(players) && c in players
    ensures players[c].roomId <= 2 && (players[c].roomId != 0 ==> InBox(players[c])) && UnitSpeed(players[c])
  {
  }

  lemma Located(players: map<uint32, Player>, c: uint32, r: uint32)
    requires Tuned(players) && r != 0 && c in players && players[c].roomId == r
    ensures c in MembersOf(players, r) && c in EntitiesOf(players, r)
  {
    hide EntityOf, InBox, UnitSpeed;
  }

  lemma NotLocated(players: map<uint32, Player>, c: uint32, r: uint32)
    requires Tuned(players) && r != 0 && (c in players ==> players[c].roomId != r)
    ensures c !in MembersOf(players, r) && c !in EntitiesOf(players, r)
  {
    hide EntityOf, InBox, UnitSpeed;
  }

  /** A change of a player that stays out of an arena, or in it at its place, is nothing to the arena. */
  lemma HoldsOn(a: Arena, players: map<uint32, Player>, c: uint32, p: Player, r: uint32)
    requires r != 0 && a.Holds(players, r) && p.roomId <= 2 && UnitSpeed(p) && (p.roomId != 0 ==> InBox(p))
    requires c in players ==> (p.roomId == r <==> players[c].roomId == r)
    requires c !in players ==> p.roomId != r
    requires c in players && p.roomId == r ==> p.x == players[c].x && p.y == players[c].y
    ensures a.Holds(players[c := p], r)
  {
    hide InBox, UnitSpeed, EntitiesOf, Tuned, A.CellFor;
    TunedWith(players, c, p);
    MembersWith(players, c, p, r);
    EntitiesWith(players, c, p, r);
    if c in players && p.roomId == r {
      Located(players, c, r);
      EntityAt(players, c, r);
      assert EntitiesOf(players, r)[c := EntityOf(p)] == EntitiesOf(players, r);
      assert MembersOf(players, r) - {c} + {c} == MembersOf(players, r);
    } else {
      NotLocated(players, c, r);
      assert EntitiesOf(players, r) - {c} == EntitiesOf(players, r);
      assert MembersOf(players, r) - {c} + {} == MembersOf(players, r);
    }
  }

  lemma EntityAt(players: map<uint32, Player>, c: uint32, r: uint32)
    requires Tuned(players) && r != 0 && c in players && players[c].roomId == r
    ensures InBox(players[c]) && c in EntitiesOf(players, r) && EntitiesOf(players, r)[c] == EntityOf(players[c])
  {
    hide EntityOf, InBox, UnitSpeed;
  }

  class World {
    const sessions: Sessions.Manager
    const one: Arena
    const two: Arena
    var names: map<uint64, string>
    var nextGuest: uint64
    var players: map<uint32, Player>
    var tick: uint64
    var closed: bool
    var stopped: set<uint32>
    /** Every crystal that was ever taken. */
    ghost var log: seq<Collection>
    /** The time of the last step, and whether the times of the steps have never gone back. */
    ghost var clock: Option<int>
    ghost var steady: bool
    /** The sequence numbers of the inputs accepted from each player, and how much had been collected when it last
        entered an arena. */
    ghost var inputs: map<uint32, seq<uint32>>
    ghost var since: map<uint32, nat>

    /** Both arenas hold exactly what the players say. */
    ghost predicate Placed() reads this`players, one.room, one.aoi, two.room, two.aoi {
      && one != two && one.room != two.room && one.aoi != two.aoi
      && one.Holds(players, 1) && two.Holds(players, 2)
    }

    /** The names are those of the sessions. */
    ghost predicate Named() reads this`names, sessions {
      sessions.Valid() && sessions.policy == S.RejectExisting && NamesMatch(sessions.byToken, names)
    }

    /** With a clock that never goes back, crystals rest as long as they should. */
    ghost predicate Rested() reads this`log, this`clock, this`steady, one`respawn, two`respawn {
      steady ==>
        if clock.None? then log == [] && one.respawn == map[] && two.respawn == map[]
        else CrystalInv(Sim(map[], map[1 := one.respawn, 2 := two.respawn], log, {}), clock.value)
    }

    /** Inputs, scores and hidden crystals are what is remembered of them. */
    ghost predicate Recorded() reads this`players, this`log, this`inputs, this`since, one`respawn, two`respawn {
      && Heard(players, inputs) && Scored(players, log, since)
      && HiddenInv(Sim(map[], map[1 := one.respawn, 2 := two.respawn], log, {}))
    }

    ghost predicate Valid()
      reads this`players, this`names, this`log, this`clock, this`steady, this`inputs, this`since
      reads one`respawn, two`respawn, sessions, one.room, one.aoi, two.room, two.aoi
    {
      Placed() && Named() && Rested() && Recorded()
    }

    ghost function View(): Sim reads this, one, two {
      Sim(players, map[1 := one.respawn, 2 := two.respawn], log, stopped)
    }

    constructor ()
      ensures Valid() && View() == Sim(map[], map[1 := map[], 2 := map[]], [], {}) && clock.None? && steady
      ensures fresh(one) && fresh(one.room) && fresh(one.aoi) && fresh(two) && fresh(two.room) && fresh(two.aoi)
      ensures fresh(sessions)
    {
      hide Arena.Holds, Sessions.Manager.Valid, CrystalInv;
      sessions := new Sessions.Manager(S.RejectExisting);
      one := new Arena(1);
      two := new Arena(2);
      names, nextGuest, players, tick, closed, stopped := map[], 0, map[], 0, false, {};
      log, clock, steady, inputs, since := [], None, true, map[], map[];
    }

    function ArenaAt(r: uint32): Arena? { if r == 1 then one else if r == 2 then two else null }

    function OtherArena(r: uint32): Arena { if r == 1 then two else one }

    /** World.leave. */
    method LeaveArena(c: uint32)
      requires Placed() && c in players
      modifies this`players, one.room`members, one.aoi, two.room`members, two.aoi
      ensures Placed() && players == old(players)[c := Gone(old(players)[c])]
    {
      hide InBox, UnitSpeed, Tuned, A.AOIManager.Valid, R.Room.Valid;
      var p := players[c];
      GoneIsTuned(p);
      if p.roomId == 1 {
        one.Remove(c, players, 1);
        HoldsOn(two, players, c, Gone(p), 2);
      } else if p.roomId == 2 {
        HoldsOn(one, players, c, Gone(p), 1);
        two.Remove(c, players, 2);
      } else {
        HoldsOn(one, players, c, Gone(p), 1);
        HoldsOn(two, players, c, Gone(p), 2);
      }
      players := players[c := Gone(p)];
    }

    /** A change of a player that keeps its room and its place. */
    method Update(c: uint32, p: Player)
      requires Placed() && UnitSpeed(p)
      requires if c in players then p.roomId == players[c].roomId && p.x == players[c].x && p.y == players[c].y
               else p.roomId == 0
      modifies this`players
      ensures Placed() && players == old(players)[c := p]
    {
      hide InBox, UnitSpeed, A.AOIManager.Valid, R.Room.Valid;
      if c in players {
        RoomBound(players, c);
        SameBox(players[c], p);
      }
      HoldsOn(one, players, c, p, 1);
      HoldsOn(two, players, c, p, 2);
      players := players[c := p];
    }

    /** The connection hook; connection ids are fresh. */
    method Connected(c: uint32, now: int)
      requires Valid() && c !in players
      modifies this`players, this`stopped, this`inputs, this`since
      ensures Valid()
      ensures closed ==> players == old(players) && stopped == old(stopped) + {c} && inputs == old(inputs)
      ensures !closed ==>
                && c in players && players == old(players)[c := players[c]] && stopped == old(stopped)
                && players[c].name == "" && players[c].roomId == 0 && players[c].seqNo == 0
                && players[c].connectedAt == now && inputs == old(inputs)[c := []]
    {
      hide Sessions.Manager.Valid, HiddenInv, Heard, Scored;
      if closed {
        stopped := stopped + {c};
        return;
      }
      NewRecord(players, inputs, log, since, c, NewPlayer(now));
      inputs, since := inputs[c := []], since[c := |log|];
      Update(c, NewPlayer(now));
    }

    /** The disconnection hook. */
    method Disconnected(c: uint32)
      requires Valid()
      modifies this`players, this`names, this`inputs, this`since
      modifies sessions, one.room`members, one.aoi, two.room`members, two.aoi
      ensures Valid() && players == old(players) - {c} && inputs == old(inputs) - {c}
      ensures sessions.View() == S.LogoutByConn(old(sessions.View()), c)
    {
      hide Arena.Holds, Sessions.Manager.Valid, NamesMatch, S.LogoutByConn, HiddenInv, Heard, Scored;
      FewerRecorded(players, inputs, log, since, c);
      inputs, since := inputs - {c}, since - {c};
      if c in players {
        LeaveArena(c);
        Forget(c);
      } else {
        assert players - {c} == players;
      }
      assert players == old(players) - {c};
      EndSession(c);
    }

    /** Deleting a player that is in no room. */
    method Forget(c: uint32)
      requires Placed() && c in players && players[c].roomId == 0
      modifies this`players
      ensures Placed() && players == old(players) - {c}
    {
      hide Tuned, A.AOIManager.Valid, R.Room.Valid;
      WithoutOutsider(players, c, 1);
      WithoutOutsider(players, c, 2);
      players := players - {c};
    }

    method EndSession(c: uint32)
      requires Named()
      modifies this`names, sessions
      ensures Named() && sessions.View() == S.LogoutByConn(old(sessions.View()), c)
    {
      hide NamesMatch;
      Sessions.IndexedUnique(sessions.byToken, sessions.byAccountId, sessions.byPlayerId, sessions.byConnId);
      Sessions.ConnLookup(sessions.byToken, sessions.byAccountId, sessions.byPlayerId, sessions.byConnId, c);
      hide Sessions.Indexed, S.HasConn, S.Unique;
      ghost var table := sessions.byToken;
      var session := sessions.LogoutByConnId(c);
      if session.Ok? {
        OneConn(table, c, session.value.token);
        NamesLess(table, names, session.value.token);
        names := names - {session.value.playerId};
      } else {
        NoConn(table, c);
      }
    }

    /** Guest: a new number, a new account and a name. Whether the name is free of control characters is a
        parameter; the name is already trimmed. */
    method Guest(name: string, clean: bool, token: Option<S.Token>, now: int) returns (r: Option<S.Session>)
      requires Valid() && (token.Some? ==> token.value !in sessions.byToken)
      modifies this`names, this`nextGuest, sessions
      ensures Valid()
      ensures nextGuest == if 1 <= |name| <= 16 && clean && !closed && |old(sessions.byToken)| < 256
                           then (old(nextGuest) + 1) % TWO64 else old(nextGuest)
      ensures var n := (old(nextGuest) + 1) % TWO64;
              && (r.Some? <==> 1 <= |name| <= 16 && clean && !closed && |old(sessions.byToken)| < 256 && token.Some?
                               && NumberFree(old(sessions.byToken), n, now))
              && (r.Some? ==> S.Opens(sessions.byToken, r.value, token.value, GuestAccount(n), n,
                                      now + 1_800_000_000_000)
                              && names == old(names)[n := name])
              && (r.None? ==> names == old(names) && sessions.View() == old(sessions.View()))
    {
      hide Placed, Named, NumberFree, GuestAccount;
      if |name| < 1 || |name| > 16 || !clean {
        return None;
      }
      if closed || |sessions.byToken| >= 256 {
        return None;
      }
      nextGuest := if nextGuest + 1 == TWO64 then 0 else nextGuest + 1;
      r := IssueGuest(nextGuest, name, token, now);
    }

    method IssueGuest(n: uint64, name: string, token: Option<S.Token>, now: int) returns (r: Option<S.Session>)
      requires Named() && (token.Some? ==> token.value !in sessions.byToken) && name != ""
      modifies this`names, sessions
      ensures Named()
      ensures r.Some? <==> token.Some? && NumberFree(old(sessions.byToken), n, now)
      ensures r.Some? ==> S.Opens(sessions.byToken, r.value, token.value, GuestAccount(n), n, now + 1_800_000_000_000)
                          && names == old(names)[n := name]
      ensures r.None? ==> names == old(names) && sessions.View() == old(sessions.View())
    {
      hide NamesMatch, S.IssueError, GuestAccount, NumberFree, S.HasAccount, S.WithoutAccount;
      var ttl := 30 * 60 * SECOND;
      Sessions.IndexedUnique(sessions.byToken, sessions.byAccountId, sessions.byPlayerId, sessions.byConnId);
      hide Sessions.Indexed, S.Unique;
      if token.Some? {
        GuestIssue(sessions.View(), token.value, n, ttl, now, names);
        NamesIssue(sessions.byToken, names, token.value, S.Fresh(token.value, GuestAccount(n), n, now, ttl), name);
      }
      TokenNeeded(sessions.View(), GuestAccount(n), n, ttl, now);
      var issued := sessions.Issue(token, GuestAccount(n), n, ttl, now);
      if issued.Err? {
        return None;
      }
      names := names[n := name];
      r := Some(issued.value.0);
    }

    /** MsgAuthenticate; None stands for a body that does not decode. */
    method Authenticate(c: uint32, body: Option<S.Token>, now: int) returns (reply: Reply)
      requires Valid()
      modifies this`players, sessions
      ensures Valid()
      ensures reply == Silent <==> closed || c !in old(players)
      ensures reply == InvalidRequest <==> !closed && c in old(players) && (body.None? || |body.value| != 48)
      ensures reply == Done <==> && !closed && c in old(players) && body.Some? && |body.value| == 48
                                 && S.BindError(old(sessions.View()), body.value, c, now).None?
      ensures reply in {Silent, InvalidRequest, Unauthorized, Done}
      ensures reply != Done ==> players == old(players) && sessions.View() == old(sessions.View())
      ensures reply == Done ==>
                && sessions.View() == S.Bind(old(sessions.View()), body.value, c, now)
                && body.value in sessions.byToken && sessions.byToken[body.value].playerId in names
                && players == old(players)[c := old(players)[c].(name := names[sessions.byToken[body.value].playerId])]
                && players[c].name != ""
    {
      hide NamesMatch, S.BindError, Sessions.Indexed, Arena.Holds, UnitSpeed, HiddenInv, Heard, Scored;
      if c !in players || closed {
        return Silent;
      }
      if body.None? || |body.value| != 48 {
        return InvalidRequest;
      }
      ghost var table := sessions.byToken;
      var bound := sessions.Bind(body.value, c, now);
      if bound.Err? {
        return Unauthorized;
      }
      S.Bindable(S.State(sessions.policy, table, sessions.last), body.value, c, now);
      NamesBind(table, names, body.value, bound.value);
      Name(sessions.byToken, names, body.value);
      TunedPlayer(this, c);
      SameSpeed(players[c], players[c].(name := names[bound.value.playerId]));
      StillRecorded(players, inputs, log, since, c, players[c].(name := names[bound.value.playerId]));
      Update(c, players[c].(name := names[bound.value.playerId]));
      reply := Done;
    }

    /** The check before every other request. */
    method CheckSession(c: uint32, now: int) returns (reply: Reply)
      requires Named()
      ensures reply == if closed || c !in players then Silent
                       else if S.HasLive(sessions.byToken, c, now) then Done else Unauthorized
    {
      if c !in players || closed {
        return Silent;
      }
      var session := sessions.GetByConnId(c, now);
      reply := if session.Err? then Unauthorized else Done;
    }

    /** MsgLeave. */
    method Leave(c: uint32, wellFormed: bool, now: int) returns (reply: Reply)
      requires Valid()
      modifies this`players, one.room`members, one.aoi, two.room`members, two.aoi
      ensures Valid()
      ensures reply == if closed || c !in old(players) then Silent
                       else if !S.HasLive(sessions.byToken, c, now) then Unauthorized
                       else if !wellFormed then InvalidRequest else Done
      ensures players == if reply == Done
                         then old(players)[c := old(players)[c].(roomId := 0, dx := 0.0, dy := 0.0)] else old(players)
    {
      hide NamesMatch, Sessions.Indexed, Arena.Holds, S.HasLive, HiddenInv, Heard, Scored;
      reply := CheckSession(c, now);
      if reply != Done {
        return;
      }
      if !wellFormed {
        return InvalidRequest;
      }
      StillRecorded(players, inputs, log, since, c, Gone(players[c]));
      LeaveArena(c);
    }

    /** MsgJoin. The player joins the new room before it leaves the old one; a full room leaves all as it was. */
    method Join(c: uint32, body: Option<uint32>, now: int) returns (reply: Reply)
      requires Valid()
      modifies this`players, this`since, one.room`members, one.aoi, two.room`members, two.aoi
      ensures Valid()
      ensures reply == if closed || c !in old(players) then Silent
                       else if !S.HasLive(sessions.byToken, c, now) then Unauthorized
                       else if body.None? then InvalidRequest
                       else if body.value != 1 && body.value != 2 then RoomNotFound
                       else if old(players)[c].roomId != body.value && |MembersOf(old(players), body.value)| >= 8
                         then RoomIsFull
                       else Done
      ensures players == if reply == Done && old(players)[c].roomId != body.value
                         then old(players)[c := old(players)[c].(roomId := body.value, x := 130.0, y := 270.0,
                                                                 score := 0, dx := 0.0, dy := 0.0)]
                         else old(players)
    {
      hide Named, S.HasLive, Arena.Holds, HiddenInv, Heard, Scored;
      reply := CheckSession(c, now);
      if reply != Done {
        return;
      }
      if body.None? {
        return InvalidRequest;
      }
      var a := ArenaAt(body.value);
      if a == null {
        return RoomNotFound;
      }
      if players[c].roomId != body.value {
        NewRecord(players, inputs, log, since, c, Entered(players[c], body.value));
        var full := Transfer(c, body.value);
        if full {
          return RoomIsFull;
        }
        since := since[c := |log|];
      }
      reply := Done;
    }

    method Transfer(c: uint32, r: uint32) returns (full: bool)
      requires Placed() && c in players && (r == 1 || r == 2) && players[c].roomId != r
      modifies this`players, one.room`members, one.aoi, two.room`members, two.aoi
      ensures Placed() && full == (|MembersOf(old(players), r)| >= CAPACITY)
      ensures players == if full then old(players) else old(players)[c := Entered(old(players)[c], r)]
    {
      hide InBox, UnitSpeed, Arena.Holds, Arena.Awaits, MembersOf, Entered, Gone;
      var a := ArenaAt(r);
      ghost var other := OtherArena(r);
      ghost var before := players;
      full := a.Admit(c, players, r);
      if full {
        return;
      }
      LeaveOther(c, r);
      AwaitsOn(a, before, c, r);
      var p := Entered(players[c], r);
      EnteredIsTuned(before[c], r);
      GoneIsTuned(before[c]);
      a.Place(c, p, players, r);
      HoldsOn(other, players, c, p, if r == 1 then 2 else 1);
      players := players[c := p];
      assert players == before[c := p];
    }

    /** World.leave when the player has already joined room r. */
    method LeaveOther(c: uint32, ghost r: uint32)
      requires one != two && one.room != two.room && one.aoi != two.aoi
      requires c in players && (r == 1 || r == 2) && players[c].roomId != r
      requires if r == 1 then two.Holds(players, 2) else one.Holds(players, 1)
      modifies this`players, OtherArena(r).room`members, OtherArena(r).aoi
      ensures players == old(players)[c := Gone(old(players)[c])]
      ensures if r == 1 then two.Holds(players, 2) else one.Holds(players, 1)
    {
      hide InBox, UnitSpeed, Tuned, A.AOIManager.Valid, R.Room.Valid, Arena.Holds;
      var p := players[c];
      GoneIsTuned(p);
      if p.roomId == 1 {
        one.Remove(c, players, 1);
      } else if p.roomId == 2 {
        two.Remove(c, players, 2);
      } else if r == 1 {
        HoldsOn(two, players, c, Gone(p), 2);
      } else {
        HoldsOn(one, players, c, Gone(p), 1);
      }
      players := players[c := Gone(p)];
    }

    /** MsgInput. length is what math.Hypot gives for the two components. */
    method HandleInput(c: uint32, body: Option<Input>, length: real, now: int) returns (reply: Reply)
      requires Valid()
      requires body.Some? ==> length >= 0.0 && length * length == Square(body.value.dx) + Square(body.value.dy)
      modifies this`players, this`inputs
      ensures Valid()
      ensures reply == if closed || c !in old(players) then Silent
                       else if !S.HasLive(sessions.byToken, c, now) then Unauthorized
                       else if body.None? || !Acceptable(body.value) then InvalidInput
                       else if old(players)[c].roomId == 0 then NotInRoom
                       else if c in old(inputs) && exists n :: n in old(inputs)[c] && body.value.seqNo <= n then Silent
                       else Done
      ensures players == if reply == Done
                         then old(players)[c := Steered(old(players)[c], body.value, length, now)]
                         else old(players)
      ensures inputs == if reply == Done && c in old(inputs)
                        then old(inputs)[c := old(inputs)[c] + [body.value.seqNo]] else old(inputs)
    {
      hide Named, S.HasLive, Arena.Holds, UnitSpeed, Square, Placed, HiddenInv, Heard, Scored;
      reply := CheckSession(c, now);
      if reply != Done {
        return;
      }
      if body.None? || body.value.dx > 1.0 || -body.value.dx > 1.0 || body.value.dy > 1.0 || -body.value.dy > 1.0
         || body.value.seqNo == 0
      {
        return InvalidInput;
      }
      var p := players[c];
      if p.roomId == 0 {
        return NotInRoom;
      }
      HeardBefore(players, inputs, c, body.value.seqNo);
      if body.value.seqNo <= p.seqNo {
        return Silent;
      }
      var dx, dy := body.value.dx, body.value.dy;
      DirectionIsUnit(dx, dy, length);
      if length > 1.0 {
        dx := dx / length;
        dy := dy / length;
      }
      var q := p.(dx := dx, dy := dy, seqNo := body.value.seqNo, inputAt := Some(now));
      SpeedOf(q, body.value, length);
      InputRecorded(players, inputs, log, since, c, q);
      inputs := inputs[c := inputs[c] + [body.value.seqNo]];
      Update(c, q);
    }

    // A step

    /** A player whose session has expired leaves its arena and is stopped. */
    method Expel(c: uint32)
      requires Placed() && c in players
      modifies this`players, this`stopped, one.room`members, one.aoi, two.room`members, two.aoi
      ensures Placed() && players.Keys == old(players).Keys
      ensures View() == old(View()).(players := old(players)[c := Gone(old(players)[c])], stopped := old(stopped) + {c})
    {
      hide Arena.Holds;
      LeaveArena(c);
      stopped := stopped + {c};
    }

    /** The loop over the expired sessions. */
    method Sweep(now: int)
      requires Placed() && Named()
      modifies this`players, this`names, this`stopped, sessions, one.room`members, one.aoi, two.room`members, two.aoi
      ensures Placed() && Named() && sessions.View() == S.RemoveExpired(old(sessions.View()), now)
      ensures View() == Dismiss(old(View()), ExpiredConns(old(sessions.byToken), old(players), now))
    {
      Sessions.IndexedUnique(sessions.byToken, sessions.byAccountId, sessions.byPlayerId, sessions.byConnId);
      hide Placed, Sessions.Manager.Valid, NamesMatch, S.Expired, S.Unique, Dismiss, ConnsOf, IdsOf, ExpiredConns,
           S.Living;
      ghost var table, s, oldNames := sessions.byToken, View(), names;
      var removed := sessions.RemoveExpired(now);
      RemovedConns(table, removed, s.players, now);
      NamesSweep(table, oldNames, now, IdsOf(removed));
      ExpelAll(removed);
    }

    method ExpelAll(removed: seq<S.Session>)
      requires Placed()
      modifies this`players, this`names, this`stopped, one.room`members, one.aoi, two.room`members, two.aoi
      ensures Placed() && View() == Dismiss(old(View()), ConnsOf(removed, old(players)))
      ensures names == old(names) - IdsOf(removed)
    {
      hide Placed, Dismiss, ConnsOf, IdsOf, Gone;
      ghost var s := View();
      DismissNone(s);
      assert removed[..0] == [];
      for i := 0 to |removed|
        invariant Placed() && players.Keys == s.players.Keys && View() == Dismiss(s, ConnsOf(removed[..i], s.players))
        invariant names == old(names) - IdsOf(removed[..i])
      {
        ConnsMore(removed, i, s.players);
        assert old(names) - IdsOf(removed[..i]) - {removed[i].playerId}
            == old(names) - (IdsOf(removed[..i]) + {removed[i].playerId});
        names := names - {removed[i].playerId};
        if removed[i].bound && removed[i].connId in players {
          DismissMore(s, ConnsOf(removed[..i], s.players), removed[i].connId);
          Expel(removed[i].connId);
        }
      }
      assert removed[..|removed|] == removed;
    }

    /** The move of a player whose input is fresh. */
    method MovePlayer(c: uint32, now: int)
      requires Placed() && c in players && (players[c].roomId == 1 || players[c].roomId == 2)
      modifies this`players, one.aoi, two.aoi
      ensures Placed() && players == old(players)[c := Moved(old(players)[c], now)]
    {
      hide InBox, UnitSpeed, A.AOIManager.Valid, R.Room.Valid, Tuned;
      var p := players[c];
      TunedHere(this, c);
      StepLength(p, now);
      assert p.inputAt.None? ==> Moved(p, now) == p;
      if p.inputAt.Some? && now - p.inputAt.value <= INPUT_LIFE {
        var q := p.(x := Clamp(MARGIN, WORLD_WIDTH - MARGIN, p.x + p.dx * SPEED / TICK_RATE),
                    y := Clamp(MARGIN, WORLD_HEIGHT - MARGIN, p.y + p.dy * SPEED / TICK_RATE));
        assert q == Moved(p, now);
        hide Moved, Clamp;
        if p.roomId == 1 {
          one.Move(c, q, players, 1);
          HoldsOn(two, players, c, q, 2);
        } else {
          HoldsOn(one, players, c, q, 1);
          two.Move(c, q, players, 2);
        }
        players := players[c := q];
      } else {
        assert players[c := p] == players;
      }
    }

    /** The loop over the crystals of an arena. */
    method CollectCrystals(a: Arena, c: uint32, now: int) returns (ghost taken: seq<nat>, count: nat)
      requires c in players
      modifies a`respawn
      ensures taken == Taken(players[c], CRYSTALS, old(a.respawn)) && count == |taken|
      ensures a.respawn == Hide(old(a.respawn), taken, now + RESPAWN)
    {
      hide InReach;
      taken, count := [], 0;
      var p := players[c];
      HideNothing(a.respawn, now + RESPAWN);
      for i := 0 to |CRYSTALS|
        invariant taken == Taken(p, CRYSTALS[..i], old(a.respawn)) && count == |taken|
        invariant a.respawn == Hide(old(a.respawn), taken, now + RESPAWN)
      {
        var crystal := CRYSTALS[i];
        assert CRYSTALS[..i + 1][..i] == CRYSTALS[..i];
        if crystal.id !in a.respawn && InReach(p, crystal) {
          HideMore(old(a.respawn), taken, crystal.id, now + RESPAWN);
          count := count + 1;
          a.respawn := a.respawn[crystal.id := now + RESPAWN];
          taken := taken + [crystal.id];
        }
      }
      assert CRYSTALS[..|CRYSTALS|] == CRYSTALS;
    }

    /** One player's turn. */
    method VisitPlayer(c: uint32, now: int)
      requires Placed() && c in players
      modifies this`players, this`stopped, this`log, one, two, one.aoi, two.aoi
      ensures Placed() && View() == Visit(old(View()), c, now)
    {
      hide InBox, UnitSpeed, Placed, Taken, Moved, InReach, Hide, Entries;
      ghost var s := View();
      VisitParts(s, c, now);
      hide Visit;
      var p := players[c];
      TunedHere(this, c);
      if p.name == "" && now - p.connectedAt > 10 * SECOND {
        stopped := stopped + {c};
        return;
      }
      var a := ArenaAt(p.roomId);
      if a == null {
        return;
      }
      MovePlayer(c, now);
      var taken, count := CollectCrystals(a, c, now);
      log := log + Entries(p.roomId, taken, now, c);
      var q := players[c].(score := players[c].score + count);
      TunedHere(this, c);
      SameSpeed(players[c], q);
      Update(c, q);
    }

    /** The connected players in ascending order, whatever order the map is walked in. */
    method Connections() returns (ids: seq<uint32>)
      ensures ListOf(ids, players.Keys)
    {
      var found: seq<uint32> := [];
      var rest := players.Keys;
      while rest != {}
        invariant rest <= players.Keys && Distinct(found)
        invariant forall x :: x in found <==> x in players && x !in rest
        decreases rest
      {
        var c :| c in rest;
        rest := rest - {c};
        found := found + [c];
      }
      SortKeeps(found);
      ids := A.AOIManager.SortIds(found);
    }

    /** Crystals whose time has come are there again. */
    method Revive(a: Arena, now: int)
      modifies a`respawn
      ensures a.respawn == StillHidden(old(a.respawn), now)
    {
      var hidden := a.respawn;
      var rest := hidden.Keys;
      assert hidden == map c | c in hidden :: hidden[c];
      while rest != {}
        invariant rest <= hidden.Keys
        invariant a.respawn == map c | c in hidden && (c in rest || now < hidden[c]) :: hidden[c]
        decreases rest
      {
        var c :| c in rest;
        rest := rest - {c};
        if now >= hidden[c] {
          a.respawn := a.respawn - {c};
        }
      }
    }

    /** The turns of all players, in rotation. */
    method VisitEveryone(ids: seq<uint32>, now: int)
      requires Placed() && forall i :: 0 <= i < |ids| ==> ids[i] in players
      modifies this`players, this`stopped, this`log, one, two, one.aoi, two.aoi
      ensures Placed() && players.Keys == old(players).Keys
      ensures forall i :: 0 <= i < |Rotation(ids, tick)| ==> Rotation(ids, tick)[i] in old(players)
      ensures View() == VisitAll(old(View()), Rotation(ids, tick), now)
    {
      hide Placed, Visit, VisitAll, Rotation;
      ghost var s, order := View(), Rotation(ids, tick);
      RotationIn(ids, tick, players.Keys);
      VisitNone(s, now);
      assert order[..0] == [];
      for offset := 0 to |ids|
        invariant Placed() && players.Keys == s.players.Keys
        invariant View() == VisitAll(s, order[..offset], now)
      {
        VisitMore(s, order, offset, now);
        VisitPlayer(ids[(offset + tick % |ids|) % |ids|], now);
      }
      assert order[..|ids|] == order;
    }

    /** step: sweep the sessions, give every player its turn, let crystals come back. */
    method Step(now: int) returns (ghost order: seq<uint32>)
      requires Valid()
      modifies this`players, this`names, this`stopped, this`log, this`tick, this`clock, this`steady, sessions
      modifies one, two, one.room`members, one.aoi, two.room`members, two.aoi
      ensures Valid()
      ensures closed ==> View() == old(View()) && tick == old(tick) && sessions.View() == old(sessions.View())
                         && clock == old(clock) && steady == old(steady)
      ensures !closed ==>
                && tick == TickAfter(old(tick), 1)
                && clock == Some(now) && steady == (old(steady) && (old(clock).Some? ==> old(clock).value <= now))
                && sessions.View() == S.RemoveExpired(old(sessions.View()), now)
                && (exists ids: seq<uint32> :: ListOf(ids, old(players).Keys) && order == Rotation(ids, tick))
                && var s := Dismiss(old(View()), ExpiredConns(old(sessions.byToken), old(players), now));
                   (forall i :: 0 <= i < |order| ==> order[i] in s.players) && View() == Tick(s, order, now)
    {
      hide Placed, Named, Tick, Dismiss, ListOf, S.RemoveExpired, Rotation, ExpiredConns, CrystalInv, HiddenInv, Heard,
           Scored, Distinct;
      order := [];
      if closed {
        return;
      }
      tick := if tick + 1 < TWO64 then tick + 1 else 0;
      ghost var before, gone := View(), ExpiredConns(sessions.byToken, players, now);
      order := SweepAndTurn(now);
      StepRecorded(before, gone, order, now, inputs, since);
      steady := steady && (clock.Some? ==> clock.value <= now);
      if steady {
        RestsOn(before, Dismiss(before, gone), clock, order, now);
      }
      clock := Some(now);
    }

    method SweepAndTurn(now: int) returns (ghost order: seq<uint32>)
      requires Placed() && Named()
      modifies this`players, this`names, this`stopped, this`log, sessions
      modifies one, two, one.room`members, one.aoi, two.room`members, two.aoi
      ensures Placed() && Named() && sessions.View() == S.RemoveExpired(old(sessions.View()), now)
      ensures Distinct(order)
              && exists ids: seq<uint32> :: ListOf(ids, old(players).Keys) && order == Rotation(ids, tick)
      ensures var s := Dismiss(old(View()), ExpiredConns(old(sessions.byToken), old(players), now));
              && s.respawn == old(View()).respawn && s.log == old(View()).log && s.players.Keys == old(players).Keys
              && (forall i :: 0 <= i < |order| ==> order[i] in s.players) && View() == Tick(s, order, now)
    {
      hide Placed, Named, Tick, Dismiss, ListOf, S.RemoveExpired, Rotation, ExpiredConns, Distinct;
      DismissKeys(View(), ExpiredConns(sessions.byToken, players, now));
      Sweep(now);
      order := TakeTurns(now);
    }

    /** The part of a step after the sweep. */
    method TakeTurns(now: int) returns (ghost order: seq<uint32>)
      requires Placed()
      modifies this`players, this`stopped, this`log, one, two, one.aoi, two.aoi
      ensures Placed() && Distinct(order) && forall i :: 0 <= i < |order| ==> order[i] in old(players)
      ensures exists ids: seq<uint32> :: ListOf(ids, old(players).Keys) && order == Rotation(ids, tick)
      ensures View() == Tick(old(View()), order, now)
    {
      hide Placed, VisitAll, Ascending, Rotation, StillHidden;
      ArenasDiffer(this);
      var ids := Connections();
      forall i | 0 <= i < |ids| ensures ids[i] in players {
        assert ids[i] in ids;
      }
      order := Rotation(ids, tick);
      TurnsAreDistinct(ids, players.Keys, tick);
      VisitEveryone(ids, now);
      Revive(one, now);
      Revive(two, now);
    }

    /** An arena of a world whose clock never went back yields at most 8 * (1 + T / 5s) points in any window of
        length T. */
    lemma PointsBound(room: uint32, from: int, to: int)
      requires Valid() && steady && from <= to
      ensures RoomPoints(log, room, from, to) <= 8 * (1 + (to - from) / 5_000_000_000)
    {
      hide Placed, Named;
      if clock.None? {
        CrystalIds();
      } else {
        LogBound(log, room, from, to);
      }
    }

    /** So is the score of a player since it entered its arena, in a window that holds all it collected there. */
    lemma ScoreBound(c: uint32, from: int, to: int)
      requires Valid() && steady && c in players && c in since && since[c] <= |log| && from <= to
      requires forall i :: since[c] <= i < |log| && log[i].player == c ==> from <= log[i].time <= to
      ensures players[c].score <= 8 * (1 + (to - from) / 5_000_000_000)
    {
      hide Placed, Named, HiddenInv;
      var mine := log[since[c]..];
      assert players[c].score == Credits(mine, c);
      if Credits(mine, c) == 0 {
        NoPoints(from, to);
      } else {
        assert clock.Some?;
        OneArena(players[c], mine, c, from, to);
        LogTail(log, since[c]);
        var room :| Credits(mine, c) <= RoomPoints(mine, room, from, to);
        LogBound(mine, room, from, to);
      }
    }

    method Close()
      requires Valid()
      modifies this`closed, this`stopped
      ensures Valid() && closed && stopped == old(stopped) + players.Keys
    {
      hide Placed, Named, Recorded, Rested;
      closed := true;
      ghost var before := stopped;
      var rest := players.Keys;
      while rest != {}
        invariant rest <= players.Keys && stopped == before + (players.Keys - rest) && Valid() && closed
        decreases rest
      {
        var c :| c in rest;
        rest := rest - {c};
        stopped := stopped + {c};
      }
    }
  }

  lemma TunedPlayer(w: World, c: uint32)
    requires w.Placed() && c in w.players
    ensures UnitSpeed(w.players[c])
  {
  }

  lemma SameSpeed(p: Player, q: Player)
    requires p.dx == q.dx && p.dy == q.dy
    ensures UnitSpeed(p) <==> UnitSpeed(q)
  {
  }

  lemma SameBox(p: Player, q: Player)
    requires p.x == q.x && p.y == q.y
    ensures InBox(p) <==> InBox(q)
  {
  }

  lemma OneConn(t: S.Table, c: uint32, k: S.Token)
    requires S.Unique(t) && k in t && t[k].bound && t[k].connId == c
    ensures S.WithoutConn(t, c) == t - {k}
  {
  }

  lemma NoConn(t: S.Table, c: uint32)
    requires !S.HasConn(t, c)
    ensures S.WithoutConn(t, c) == t
  {
  }

  lemma TokenNeeded(s: S.State, account: string, n: uint64, ttl: int, now: int)
    ensures S.IssueError(s, None, account, n, ttl, now).Some?
  {
  }

  lemma Name(t: S.Table, names: map<uint64, string>, token: S.Token)
    requires NamesMatch(t, names) && token in t
    ensures t[token].playerId in names && names[t[token].playerId] != ""
  {
  }

  /** The bounds on an input; NaN cannot be decoded. */
  predicate Acceptable(b: Input) { -1.0 <= b.dx <= 1.0 && -1.0 <= b.dy <= 1.0 && b.seqNo != 0 }

  /** An accepted input: a direction of length at most one, a higher sequence number. */
  function Steered(p: Player, b: Input, length: real, now: int): Player {
    var d := Direction(b.dx, b.dy, length);
    p.(dx := d.0, dy := d.1, seqNo := b.seqNo, inputAt := Some(now))
  }

  lemma SpeedOf(q: Player, b: Input, length: real)
    requires Square(Direction(b.dx, b.dy, length).0) + Square(Direction(b.dx, b.dy, length).1) <= 1.0
    requires (q.dx, q.dy) == Direction(b.dx, b.dy, length)
    ensures UnitSpeed(q)
  {
  }

  lemma StillMembers(players: map<uint32, Player>, c: uint32, r: uint32)
    requires Tuned(players) && r != 0 && c in players && players[c].roomId != r
    ensures Tuned(players[c := Gone(players[c])])
    ensures MembersOf(players[c := Gone(players[c])], r) == MembersOf(players, r)
    ensures EntitiesOf(players[c := Gone(players[c])], r) == EntitiesOf(players, r)
  {
    GoneIsTuned(players[c]);
    TunedWith(players, c, Gone(players[c]));
    MembersWith(players, c, Gone(players[c]), r);
    EntitiesWith(players, c, Gone(players[c]), r);
    NotLocated(players, c, r);
    hide Tuned, EntitiesOf, MembersOf;
    assert MembersOf(players, r) - {c} + {} == MembersOf(players, r);
    assert EntitiesOf(players, r) - {c} == EntitiesOf(players, r);
  }

  lemma AwaitsOn(a: Arena, players: map<uint32, Player>, c: uint32, r: uint32)
    requires r != 0 && a.Awaits(players, r, c) && c in players && players[c].roomId != r
    ensures a.Awaits(players[c := Gone(players[c])], r, c)
  {
    StillMembers(players, c, r);
  }

  // The sets that a sweep goes through

  function ConnsOf(list: seq<S.Session>, players: map<uint32, Player>): set<uint32> {
    set v | v in list && v.bound && v.connId in players :: v.connId
  }

  function IdsOf(list: seq<S.Session>): set<uint64> { set v | v in list :: v.playerId }

  lemma ConnsMore(list: seq<S.Session>, i: nat, players: map<uint32, Player>)
    requires i < |list|
    ensures IdsOf(list[..i + 1]) == IdsOf(list[..i]) + {list[i].playerId}
    ensures ConnsOf(list[..i + 1], players)
            == if list[i].bound && list[i].connId in players then ConnsOf(list[..i], players) + {list[i].connId}
               else ConnsOf(list[..i], players)
  {
    assert list[..i + 1] == list[..i] + [list[i]];
  }

  lemma DismissNone(s: Sim)
    ensures Dismiss(s, ConnsOf([], s.players)) == s && IdsOf([]) == {}
  {
    assert ConnsOf([], s.players) == {};
  }

  lemma DismissMore(s: Sim, gone: set<uint32>, c: uint32)
    requires c in s.players
    ensures var d := Dismiss(s, gone);
            && c in d.players
            && Dismiss(s, gone + {c}) == d.(players := d.players[c := Gone(d.players[c])], stopped := d.stopped + {c})
  {
    var d := Dismiss(s, gone);
    assert s.stopped + (gone + {c}) == s.stopped + gone + {c};
    assert Dismiss(s, gone + {c}).players == d.players[c := Gone(d.players[c])];
  }

  lemma RemovedConns(t: S.Table, removed: seq<S.Session>, players: map<uint32, Player>, now: int)
    requires S.Unique(t)
    requires forall v :: v in removed <==> v.token in t && t[v.token] == v && S.Expired(v, now)
    ensures ConnsOf(removed, players) == ExpiredConns(t, players, now)
    ensures forall n :: n in IdsOf(removed) <==> exists k :: k in t && t[k].playerId == n && S.Expired(t[k], now)
  {
    forall k | k in t && S.Expired(t[k], now) ensures t[k] in removed {
    }
  }

  lemma VisitParts(s: Sim, c: uint32, now: int)
    requires c in s.players
    ensures LateToAuthenticate(s.players[c], now) ==> Visit(s, c, now) == s.(stopped := s.stopped + {c})
    ensures !LateToAuthenticate(s.players[c], now) && s.players[c].roomId !in s.respawn ==> Visit(s, c, now) == s
    ensures !LateToAuthenticate(s.players[c], now) && s.players[c].roomId in s.respawn ==>
              var m, r := Moved(s.players[c], now), s.players[c].roomId;
              var taken := Taken(m, CRYSTALS, s.respawn[r]);
              Visit(s, c, now) == Sim(s.players[c := m][c := m.(score := m.score + |taken|)],
                                      s.respawn[r := Hide(s.respawn[r], taken, now + RESPAWN)],
                                      s.log + Entries(r, taken, now, c), s.stopped)
  {
    hide Moved, Taken, Hide, Entries;
  }

  lemma HideNothing(hidden: map<nat, int>, until: int)
    ensures Hide(hidden, [], until) == hidden
  {
  }

  lemma HideMore(hidden: map<nat, int>, taken: seq<nat>, c: nat, until: int)
    ensures Hide(hidden, taken + [c], until) == Hide(hidden, taken, until)[c := until]
    ensures forall x :: x in Hide(hidden, taken, until) <==> x in hidden || x in taken
  {
  }

  /** A step at a time that is not before the last one keeps the crystals at rest. */
  lemma RestsOn(before: Sim, swept: Sim, clock: Option<int>, order: seq<uint32>, now: int)
    requires swept.respawn == before.respawn && swept.log == before.log
    requires clock.Some? ==> clock.value <= now && CrystalInv(Sim(map[], before.respawn, before.log, {}), clock.value)
    requires clock.None? ==> before.log == []
    requires forall i :: 0 <= i < |order| ==> order[i] in swept.players
    ensures var after := Tick(swept, order, now); CrystalInv(Sim(map[], after.respawn, after.log, {}), now)
  {
    hide Tick;
    TickKeeps(swept, order, if clock.Some? then clock.value else now, now);
  }

  lemma RotationIn(ids: seq<uint32>, tick: uint64, keys: set<uint32>)
    requires forall i :: 0 <= i < |ids| ==> ids[i] in keys
    ensures forall i :: 0 <= i < |ids| ==>
              Rotation(ids, tick)[i] in keys && Rotation(ids, tick)[i] == ids[(i + tick % |ids|) % |ids|]
  {
  }

  lemma VisitNone(s: Sim, now: int)
    ensures VisitAll(s, [], now) == s
  {
  }

  lemma VisitMore(s: Sim, order: seq<uint32>, k: nat, now: int)
    requires k < |order| && forall i :: 0 <= i < |order| ==> order[i] in s.players
    ensures VisitAll(s, order[..k + 1], now) == Visit(VisitAll(s, order[..k], now), order[k], now)
  {
    assert order[..k + 1][..k] == order[..k];
  }

  lemma ArenasDiffer(w: World)
    requires w.Placed()
    ensures w.one != w.two
  {
  }

  /** Dismissed players keep what is remembered of them. */
  lemma DismissRecorded(s: Sim, gone: set<uint32>, inputs: map<uint32, seq<uint32>>, since: map<uint32, nat>)
    requires Heard(s.players, inputs) && Scored(s.players, s.log, since)
    ensures Heard(Dismiss(s, gone).players, inputs) && Scored(Dismiss(s, gone).players, s.log, since)
  {
    hide Increasing, Credits;
  }

  /** A hidden crystal is hidden whoever is in the arena. */
  lemma HiddenAnyway(s: Sim, t: Sim)
    requires s.respawn == t.respawn && s.log == t.log && HiddenInv(s)
    ensures HiddenInv(t)
  {
    forall r, c | r in t.respawn && c in t.respawn[r] ensures exists i :: IsReason(t, r, c, i) {
      var i: nat :| IsReason(s, r, c, i);
      assert IsReason(t, r, c, i);
    }
  }

  lemma TickRecorded(s: Sim, order: seq<uint32>, now: int, inputs: map<uint32, seq<uint32>>, since: map<uint32, nat>)
    requires (forall i :: 0 <= i < |order| ==> order[i] in s.players) && Distinct(order) && 0 !in s.respawn
    requires Heard(s.players, inputs) && Scored(s.players, s.log, since)
    requires HiddenInv(Sim(map[], s.respawn, s.log, {}))
    ensures var t := Tick(s, order, now);
            Heard(t.players, inputs) && Scored(t.players, t.log, since) && HiddenInv(Sim(map[], t.respawn, t.log, {}))
  {
    hide VisitAll, HiddenInv, Heard, Scored, Turned;
    var u := VisitAll(s, order, now);
    TurnsGive(s, order, now);
    TurnsRecorded(s, u, order, now, inputs, since);
    HiddenAnyway(Sim(map[], s.respawn, s.log, {}), s);
    VisitsHide(s, order, now);
    EndHides(u, now);
    var t := Tick(s, order, now);
    HiddenAnyway(t, Sim(map[], t.respawn, t.log, {}));
  }

  lemma StepRecorded(s: Sim, gone: set<uint32>, order: seq<uint32>, now: int, inputs: map<uint32, seq<uint32>>,
                     since: map<uint32, nat>)
    requires (forall i :: 0 <= i < |order| ==> order[i] in Dismiss(s, gone).players) && Distinct(order)
    requires Heard(s.players, inputs) && Scored(s.players, s.log, since) && 0 !in s.respawn
    requires HiddenInv(Sim(map[], s.respawn, s.log, {}))
    ensures var t := Tick(Dismiss(s, gone), order, now);
            Heard(t.players, inputs) && Scored(t.players, t.log, since) && HiddenInv(Sim(map[], t.respawn, t.log, {}))
  {
    hide Tick, HiddenInv, Heard, Scored;
    DismissRecorded(s, gone, inputs, since);
    TickRecorded(Dismiss(s, gone), order, now, inputs, since);
  }

  lemma TurnsAreDistinct(ids: seq<uint32>, keys: set<uint32>, tick: uint64)
    requires ListOf(ids, keys)
    ensures Distinct(Rotation(ids, tick))
  {
    hide Rotation;
    assert Distinct(ids);
    forall i, j | 0 <= i < j < |ids| ensures Rotation(ids, tick)[i] != Rotation(ids, tick)[j] {
      RotationAt(ids, tick, i);
      RotationAt(ids, tick, j);
    }
  }

  lemma NoPoints(from: int, to: int)
    requires from <= to
    ensures 0 <= 8 * (1 + (to - from) / 5_000_000_000)
  {
  }

  /** All that a player collected since it entered is in one arena. */
  lemma OneArena(p: Player, mine: seq<Collection>, c: uint32, from: int, to: int)
    requires ScoredSince(p, mine, c)
    requires forall i :: 0 <= i < |mine| && mine[i].player == c ==> from <= mine[i].time <= to
    ensures exists room :: Credits(mine, c) <= RoomPoints(mine, room, from, to)
  {
    hide Credits, RoomPoints;
    var room := if k :| 0 <= k < |mine| && mine[k].player == c then mine[k].room else 0;
    CreditsAreRoomPoints(mine, c, room, from, to);
  }

  lemma LogTail(log: seq<Collection>, n: nat)
    requires FiveSecondsApart(log) && OnlyThese(log, CRYSTALS) && n <= |log|
    ensures FiveSecondsApart(log[n..]) && OnlyThese(log[n..], CRYSTALS)
  {
    hide IsOneOf;
    var tail := log[n..];
    assert forall i :: 0 <= i < |tail| ==> tail[i] == log[n + i];
  }

  /** Where an accepted input takes a player that has room to move: 9 units of the direction a step, nowhere any more
      once the input is a quarter of a second old. An input of more than length one takes it 9 units far. */
  lemma InputSteers(p: Player, b: Input, length: real, at: int, now: int)
    requires length >= 0.0 && length * length == Square(b.dx) + Square(b.dy)
    requires 33.0 <= p.x <= 927.0 && 33.0 <= p.y <= 507.0
    ensures var q := Moved(Steered(p, b, length, at), now);
            if now - at > 250_000_000 then q.x == p.x && q.y == p.y
            else if length <= 1.0 then q.x == p.x + 9.0 * b.dx && q.y == p.y + 9.0 * b.dy
            else (q.x - p.x) * length == 9.0 * b.dx && (q.y - p.y) * length == 9.0 * b.dy
  {
    var d := Direction(b.dx, b.dy, length);
    hide Square;
    DirectionIsUnit(b.dx, b.dy, length);
    UnitParts(d.0, d.1);
    var q := Steered(p, b, length, at);
    FaresIs(q, now, 0);
    var u, v := 9.0 * d.0, 9.0 * d.1;
    if length > 1.0 {
      assert d.0 * length == b.dx && d.1 * length == b.dy;
      assert u * length == 9.0 * b.dx && v * length == 9.0 * b.dy;
    }
  }

  lemma UnitParts(x: real, y: real)
    requires Square(x) + Square(y) <= 1.0
    ensures -1.0 <= x <= 1.0 && -1.0 <= y <= 1.0
  {
    assert Square(x) >= 0.0 && Square(y) >= 0.0;
    OneAtMost(x);
    OneAtMost(y);
  }

  lemma OneAtMost(x: real)
    requires Square(x) <= 1.0
    ensures -1.0 <= x <= 1.0
  {
    assert Square(x - 1.0) >= 0.0 && Square(x + 1.0) >= 0.0;
    assert Square(x) == 1.0 + 2.0 * (x - 1.0) + Square(x - 1.0);
    assert Square(x) == 1.0 - 2.0 * (x + 1.0) + Square(x + 1.0);
  }

  /** The session of player c is over. */
  predicate IsOver(t: S.Table, c: uint32, now: int) {
    exists k :: k in t && t[k].bound && t[k].connId == c && S.Find(t, k, now).None?
  }

  /** What has become of player c, whose session is over or not. */
  predicate Becomes(s: Sim, t: Sim, now: int, c: uint32, over: bool) {
    && s.log <= t.log && t.players.Keys == s.players.Keys
    && (c in t.stopped <==> c in s.stopped || (c in s.players && (over || IsLate(s.players[c], now))))
    && (c in s.players ==>
          if over then t.players[c] == s.players[c].(roomId := 0, dx := 0.0, dy := 0.0)
          else if !IsLate(s.players[c], now) && s.players[c].roomId in s.respawn
          then Fares(s.players[c], t.players[c], now, Credits(t.log[|s.log|..], c))
          else t.players[c] == s.players[c])
  }

  /** What a step makes of each player: one whose session is over leaves its arena where it is and is stopped; of the
      others those without a name for more than ten seconds are stopped, and each in an arena moves and scores. */
  lemma StepGives(s: Sim, t: S.Table, ids: seq<uint32>, tick: uint64, now: int, c: uint32)
    requires ListOf(ids, s.players.Keys) && 0 !in s.respawn
    requires forall i :: 0 <= i < |Rotation(ids, tick)| ==> Rotation(ids, tick)[i] in s.players
    ensures Becomes(s, Tick(Dismiss(s, ExpiredConns(t, s.players, now)), Rotation(ids, tick), now), now, c,
                    IsOver(t, c, now))
  {
    hide Rotation, VisitAll, Turned, Becomes, Distinct, Ascending, ListOf, ExpiredConns, IsOver;
    var gone, order := ExpiredConns(t, s.players, now), Rotation(ids, tick);
    TurnsAreDistinct(ids, s.players.Keys, tick);
    OneTurnEach(ids, s.players.Keys, tick, c);
    assert c in s.players.Keys <==> c in order;
    TurnsGive(Dismiss(s, gone), order, now);
    GoneIsOver(t, s.players, now, c);
    DismissGives(s, gone, now, c);
    var u := VisitAll(Dismiss(s, gone), order, now);
    BecomesSo(s, gone, u, order, now, c);
    EndBecomes(s, u, now, c, c in gone);
    BecomesOver(s, EndStep(u, now), now, c, c in gone, IsOver(t, c, now));
  }

  lemma BecomesSo(s: Sim, gone: set<uint32>, u: Sim, order: seq<uint32>, now: int, c: uint32)
    requires Turned(Dismiss(s, gone), u, order, now) && (c in s.players <==> c in order)
    requires 0 !in s.respawn && (c in gone ==> c in s.players)
    ensures Becomes(s, u, now, c, c in gone)
  {
    DismissGives(s, gone, now, c);
    hide Dismiss;
    TurnedGives(Dismiss(s, gone), u, order, now, c);
    hide Turned, Fares, Credits, IsLate;
  }

  /** The end of a step lets crystals come back, and touches nothing else. */
  lemma EndBecomes(s: Sim, u: Sim, now: int, c: uint32, over: bool)
    requires Becomes(s, u, now, c, over)
    ensures Becomes(s, EndStep(u, now), now, c, over)
  {
    hide Fares, Credits, IsLate;
  }

  lemma BecomesOver(s: Sim, t: Sim, now: int, c: uint32, gone: bool, over: bool)
    requires Becomes(s, t, now, c, gone) && (gone <==> c in s.players && over)
    ensures Becomes(s, t, now, c, over)
  {
    hide Fares, Credits, IsLate;
  }

  lemma GoneIsOver(t: S.Table, players: map<uint32, Player>, now: int, c: uint32)
    ensures c in ExpiredConns(t, players, now) <==> c in players && IsOver(t, c, now)
  {
    if k :| k in t && t[k].bound && t[k].connId == c && S.Find(t, k, now).None? {
      assert S.Expired(t[k], now);
    }
    if k :| k in t && t[k].bound && S.Expired(t[k], now) && t[k].connId == c {
      assert S.Find(t, k, now).None?;
    }
  }

  lemma DismissGives(s: Sim, gone: set<uint32>, now: int, c: uint32)
    ensures var d := Dismiss(s, gone);
            && d.players.Keys == s.players.Keys && d.respawn == s.respawn && d.log == s.log
            && (c in d.stopped <==> c in s.stopped || c in gone)
            && (c in s.players ==>
                  && d.players[c] == (if c in gone then s.players[c].(roomId := 0, dx := 0.0, dy := 0.0)
                                      else s.players[c])
                  && (IsLate(d.players[c], now) <==> IsLate(s.players[c], now)))
  {
  }

  lemma TurnedGives(s: Sim, t: Sim, order: seq<uint32>, now: int, c: uint32)
    requires Turned(s, t, order, now) && (c in s.players <==> c in order)
    ensures s.log <= t.log && t.players.Keys == s.players.Keys
    ensures c in t.stopped <==> c in s.stopped || (c in s.players && IsLate(s.players[c], now))
    ensures c in s.players ==>
              if Plays(s, c, now) then Fares(s.players[c], t.players[c], now, Credits(t.log[|s.log|..], c))
              else t.players[c] == s.players[c]
  {
    hide Fares, Credits, IsLate, IsEntry;
  }

  lemma DismissKeys(s: Sim, gone: set<uint32>)
    ensures Dismiss(s, gone).players.Keys == s.players.Keys
    ensures Dismiss(s, gone).respawn == s.respawn && Dismiss(s, gone).log == s.log
  {
  }

  lemma TunedHere(w: World, c: uint32)
    requires w.Placed() && c in w.players
    ensures w.one != w.two
    ensures w.players[c].roomId <= 2 && UnitSpeed(w.players[c]) && (w.players[c].roomId != 0 ==> InBox(w.players[c]))
  {
  }
}
