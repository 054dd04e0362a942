/** The hooks and routers of examples/unityserver/server.go as operations on the world and on the
    packets each connection has been sent. Sends succeed; each hook and each route is one step. */
module UnityServer {
  import opened Options
  import opened Binary
  import F = UnityFields
  import A = AoiGrid
  import M = UnityMessages
  import W = UnityWorld
  import opened V = Visibility

  type Inbox = map<uint32, seq<Packet>>

  /** One more packet in the queue of an open connection. */
  function Plus(inbox: Inbox, c: uint32, p: Packet): Inbox {
    if c in inbox then inbox[c := inbox[c] + [p]] else inbox
  }

  /** The same connections, each with these packets appended. */
  ghost predicate Appended(before: Inbox, after: Inbox, packets: map<uint32, seq<Packet>>) {
    && after.Keys == before.Keys && packets.Keys == before.Keys
    && forall k :: k in before ==> after[k] == before[k] + packets[k]
  }

  /** The packet goes to each player of the list. */
  function ToAll(inbox: Inbox, list: seq<W.WorldPlayer>, p: Packet): map<uint32, seq<Packet>> {
    map k | k in inbox :: if k in Conns(list) then [p] else []
  }

  /** Two packets for each player of the list: one to it, and one about it to connection c. */
  function Exchange(inbox: Inbox, list: seq<W.WorldPlayer>, p: Packet, c: uint32,
                    about: seq<Packet>): map<uint32, seq<Packet>> {
    map k | k in inbox :: if k == c then about else if k in Conns(list) then [p] else []
  }

  lemma ConnsSnoc(list: seq<W.WorldPlayer>, players: map<uint32, W.WorldPlayer>, i: nat)
    requires Listed(list, players) && i < |list|
    ensures list[i] in list && list[i].connId in players
    ensures Conns(list[..i + 1]) == Conns(list[..i]) + {list[i].connId} && list[i].connId !in Conns(list[..i])
  {
    assert list[..i + 1] == list[..i] + [list[i]];
    forall p | p in list[..i] ensures p.connId != list[i].connId {
      var j :| 0 <= j < i && list[j] == p;
      assert W.PidBefore(list[j], list[i]);
    }
  }

  /** The three parts of a move together. */
  lemma MoveSum(m: W.WorldPlayer, entered: seq<W.WorldPlayer>, left: seq<W.WorldPlayer>, older: set<uint32>,
                newer: set<uint32>, boxes: Inbox, introduced: Inbox, separated: Inbox, after: Inbox)
    requires m.connId in boxes && Conns(entered) == newer - older && Conns(left) == older - newer
    requires Appended(boxes, introduced, Exchange(boxes, entered, Joined(m), m.connId, Arrivals(entered)))
    requires Appended(introduced, separated, Exchange(introduced, left, Leave(m.pid), m.connId, Farewells(left)))
    requires Appended(separated, after,
                      map k | k in separated :: if k == m.connId || k in newer then [Moved(m)] else [])
    ensures after.Keys == boxes.Keys && after[m.connId] == boxes[m.connId] + MoverTold(m, entered, left)
    ensures forall k :: k in after && k != m.connId ==> after[k] == boxes[k] + MoveTells(m, k in older, k in newer)
  {
    hide Conns, Joined, Leave, Moved, Arrivals, Farewells;
    var c := m.connId;
    var a, b, d := Arrivals(entered), Farewells(left), [Moved(m)];
    assert boxes[c] + a + b + d == boxes[c] + (a + b + d);
    forall k | k in after && k != c ensures after[k] == boxes[k] + MoveTells(m, k in older, k in newer) {
      var e := if k in newer - older then [Joined(m)] else [];
      var l := if k in older - newer then [Leave(m.pid)] else [];
      var v := if k in newer then [Moved(m)] else [];
      assert after[k] == boxes[k] + e + l + v;
      assert e + l + v == MoveTells(m, k in older, k in newer);
    }
  }

  lemma ExchangeNone(boxes: Inbox, p: Packet, c: uint32)
    ensures Appended(boxes, boxes, Exchange(boxes, [], p, c, []))
  {
    forall k | k in boxes ensures boxes[k] == boxes[k] + Exchange(boxes, [], p, c, [])[k] {
      assert boxes[k] + [] == boxes[k];
    }
  }

  /** One round of an exchange with a listing of players. */
  lemma ExchangeStep(boxes: Inbox, now: Inbox, list: seq<W.WorldPlayer>, players: map<uint32, W.WorldPlayer>, i: nat,
                     p: Packet, c: uint32, about: seq<Packet>, extra: Packet)
    requires Listed(list, players) && c !in Conns(list) && i < |list|
    requires Appended(boxes, now, Exchange(boxes, list[..i], p, c, about))
    ensures Appended(boxes, Plus(Plus(now, list[i].connId, p), c, extra),
                     Exchange(boxes, list[..i + 1], p, c, about + [extra]))
  {
    hide Conns, Listed;
    ConnsSnoc(list, players, i);
    var k := list[i].connId;
    assert k != c by {
      assert list[i].connId in Conns(list) by { ConnsHas(list, i); }
    }
    ExchangeMore(boxes, now, Conns(list[..i]), k, p, c, about, extra);
    assert Exchange(boxes, list[..i + 1], p, c, about + [extra])
        == map j | j in boxes :: if j == c then about + [extra] else if j in Conns(list[..i]) + {k} then [p] else [];
  }

  lemma ConnsHas(list: seq<W.WorldPlayer>, i: nat)
    requires i < |list|
    ensures list[i].connId in Conns(list)
  {
    assert list[i] in list;
  }

  lemma ExchangeMore(boxes: Inbox, now: Inbox, served: set<uint32>, k: uint32, p: Packet, c: uint32,
                     about: seq<Packet>, extra: Packet)
    requires k != c && k !in served
    requires Appended(boxes, now, map j | j in boxes :: if j == c then about else if j in served then [p] else [])
    ensures Appended(boxes, Plus(Plus(now, k, p), c, extra),
                     map j | j in boxes :: if j == c then about + [extra] else if j in served + {k} then [p] else [])
  {
    hide Plus;
    var after := Plus(Plus(now, k, p), c, extra);
    PlusTwo(now, k, p, c, extra);
    forall j | j in boxes
      ensures after[j] == boxes[j] + if j == c then about + [extra] else if j in served + {k} then [p] else []
    {
      if j == c {
        assert after[j] == now[j] + [extra] && now[j] == boxes[j] + about;
        Assoc(boxes[j], about, extra);
      } else if j == k {
        assert after[j] == now[j] + [p] && now[j] == boxes[j] + [];
        Assoc(boxes[j], [], p);
        assert [] + [p] == [p];
      } else {
        assert after[j] == now[j];
      }
    }
  }

  lemma PlusTwo(now: Inbox, k: uint32, p: Packet, c: uint32, extra: Packet)
    requires k != c
    ensures var after := Plus(Plus(now, k, p), c, extra);
            && after.Keys == now.Keys
            && (c in now ==> after[c] == now[c] + [extra])
            && (k in now ==> after[k] == now[k] + [p])
            && forall j :: j in now && j != c && j != k ==> after[j] == now[j]
  {
  }

  lemma Assoc(a: seq<Packet>, b: seq<Packet>, p: Packet)
    ensures a + b + [p] == a + (b + [p])
  {
  }

  lemma {:induction false} ArrivalsSnoc(list: seq<W.WorldPlayer>, p: W.WorldPlayer)
    ensures Arrivals(list + [p]) == Arrivals(list) + [Joined(p)]
  {
    hide Joined;
    if list == [] {
      assert list + [p] == [p] && [p][1..] == [];
    } else {
      assert (list + [p])[1..] == list[1..] + [p];
      ArrivalsSnoc(list[1..], p);
    }
  }

  lemma {:induction false} FarewellsSnoc(list: seq<W.WorldPlayer>, p: W.WorldPlayer)
    ensures Farewells(list + [p]) == Farewells(list) + [Leave(p.pid)]
  {
    hide Leave;
    if list == [] {
      assert list + [p] == [p] && [p][1..] == [];
    } else {
      assert (list + [p])[1..] == list[1..] + [p];
      FarewellsSnoc(list[1..], p);
    }
  }

  /** Every client knows the truth. */
  ghost predicate AllKnowTruth(z: A.Size, players: map<uint32, W.WorldPlayer>, inbox: Inbox)
    requires W.AllPlaced(z, players) && W.DistinctPids(players)
  {
    forall k :: k in players ==> k in inbox && Feed(NOTHING, inbox[k]) == Some(Truth(z, players, k))
  }

  class Server {
    const world: W.World
    /** What each connection has been sent since it was opened. */
    var inbox: Inbox
    var nextPlayerId: uint64

    /** In every reachable state, whatever a client makes of its packets is its true neighbourhood. */
    ghost predicate Valid() reads this, world, world.aoi {
      world.Valid() && inbox.Keys == world.players.Keys && AllKnowTruth(world.aoi.size, world.players, inbox)
    }

    constructor (size: A.Size)
      requires A.PositiveSize(size)
      ensures Valid() && world.players == map[] && nextPlayerId == 1000 && fresh(world) && fresh(world.aoi)
    {
      world := new W.World(size);
      inbox := map[];
      nextPlayerId := 1000;
    }

    method SendBuffMsg(c: uint32, p: Packet)
      modifies this`inbox
      ensures inbox == Plus(old(inbox), c, p)
    {
      if c in inbox {
        inbox := inbox[c := inbox[c] + [p]];
      }
    }

    /** The loop of BroadcastVisible over a listing of players. */
    method SendToAll(list: seq<W.WorldPlayer>, p: Packet)
      requires Listed(list, world.players)
      modifies this`inbox
      ensures Appended(old(inbox), inbox, ToAll(old(inbox), list, p))
    {
      for i := 0 to |list|
        invariant Appended(old(inbox), inbox, ToAll(old(inbox), list[..i], p))
      {
        ConnsSnoc(list, world.players, i);
        SendBuffMsg(list[i].connId, p);
      }
      assert list[..|list|] == list;
    }

    /** BroadcastVisible, including the player itself. */
    method BroadcastVisible(c: uint32, p: Packet)
      requires world.Valid() && c in world.players
      modifies this`inbox
      ensures Appended(old(inbox), inbox,
                       map k | k in old(inbox) ::
                         if k == c || k in W.Sees(world.aoi.size, world.players, c) then [p] else [])
    {
      hide W.World.Valid, A.CellFor, W.FloatValue, W.AllPlaced, W.Sees, W.PlayerList, Listed, Conns, W.DistinctPids;
      world.Consistent();
      var nearby := world.NearbyPlayers(c);
      SeesPlayers(world.aoi.size, world.players, c);
      ListedConns(nearby, world.players, W.Sees(world.aoi.size, world.players, c));
      SendToAll(nearby, p);
      SendBuffMsg(c, p);
    }

    /** The first packets of a newcomer, and what its neighbours are told of it. */
    method Greet(p: W.WorldPlayer, nearby: seq<W.WorldPlayer>)
      requires world.Valid() && p.connId in world.players
      modifies this`inbox
      ensures inbox.Keys == old(inbox).Keys + {p.connId}
      ensures inbox[p.connId] == [SyncPid(p.pid), SyncPlayers(nearby), Joined(p)]
      ensures forall k :: k in old(inbox) && k != p.connId ==>
                inbox[k] == old(inbox)[k]
                  + if k in W.Sees(world.aoi.size, world.players, p.connId) then [Joined(p)] else []
    {
      hide W.World.Valid, W.Sees, W.AllPlaced;
      world.Consistent();
      inbox := inbox[p.connId := []];
      SendBuffMsg(p.connId, SyncPid(p.pid));
      SendBuffMsg(p.connId, SyncPlayers(nearby));
      BroadcastVisible(p.connId, Joined(p));
    }

    /** SetOnConnStart. Whether the session could be issued and bound is a parameter. */
    method Connect(c: uint32, sessionOk: bool) returns (joined: Option<seq<W.WorldPlayer>>)
      requires Valid()
      modifies this, world, world.aoi
      ensures Valid()
      ensures nextPlayerId == (old(nextPlayerId) + 1) % TWO64
      ensures joined.Some? <==>
                sessionOk && c !in old(world.players) && M.ToInt32(nextPlayerId) !in old(world.playerIds)
      ensures joined.None? ==> world.players == old(world.players) && inbox == old(inbox)
      ensures joined.Some? ==>
                var p := W.WorldPlayer(M.ToInt32(nextPlayerId), c, M.ORIGIN, 0);
                && world.players == old(world.players)[c := p]
                && var sees := W.Sees(world.aoi.size, world.players, c);
                && W.PlayerList(joined.value, world.players, sees)
                && inbox.Keys == world.players.Keys
                && inbox[c] == [SyncPid(p.pid), SyncPlayers(joined.value), Joined(p)]
                && forall k :: k in old(inbox) ==> inbox[k] == old(inbox)[k] + if k in sees then [Joined(p)] else []
    {
      hide W.World.Valid, A.CellFor, W.FloatValue, W.AllPlaced, W.Sees, W.PlayerList, Listed, Conns, W.DistinctPids,
           AllKnowTruth;
      world.Consistent();
      nextPlayerId := (nextPlayerId + 1) % TWO64;
      if !sessionOk {
        return None;
      }
      ghost var z, before, boxes := world.aoi.size, world.players, inbox;
      var added := world.AddPlayerWithPid(c, M.ToInt32(nextPlayerId));
      world.Consistent();
      if added.Err? {
        return None;
      }
      var p, nearby := added.value.0, added.value.1;
      Greet(p, nearby);
      joined := Some(nearby);
      ConnectKeepsTruth(z, before, boxes, p, nearby, inbox);
    }

    /** SetOnConnStop. */
    method Disconnect(c: uint32)
      requires Valid()
      modifies this, world, world.aoi
      ensures Valid()
      ensures world.players == old(world.players) - {c} && inbox.Keys == world.players.Keys
      ensures nextPlayerId == old(nextPlayerId)
      ensures forall k :: k in inbox ==>
                inbox[k] == old(inbox)[k]
                  + if c in old(world.players) && k in W.Sees(world.aoi.size, old(world.players), c)
                    then [Leave(old(world.players)[c].pid)] else []
    {
      hide W.World.Valid, A.CellFor, W.FloatValue, W.AllPlaced, W.Sees, W.PlayerList, Listed, Conns, W.DistinctPids,
           AllKnowTruth;
      world.Consistent();
      ghost var z, before, boxes := world.aoi.size, world.players, inbox;
      var removed := world.RemovePlayerWithVisibility(c);
      if removed.Err? {
        assert before - {c} == before;
        return;
      }
      world.Consistent();
      SeesPlayers(z, before, c);
      ListedConns(removed.value.1, before, W.Sees(z, before, c));
      StillListed(removed.value.1, before, c);
      SendToAll(removed.value.1, Leave(removed.value.0.pid));
      inbox := inbox - {c};
      DisconnectKeepsTruth(z, before, boxes, c, inbox);
    }

    /** The loop over the players that came into view. */
    method Introduce(m: W.WorldPlayer, entered: seq<W.WorldPlayer>)
      requires Listed(entered, world.players) && m.connId !in Conns(entered)
      modifies this`inbox
      ensures Appended(old(inbox), inbox, Exchange(old(inbox), entered, Joined(m), m.connId, Arrivals(entered)))
    {
      hide Joined, Plus, Listed, Conns, Exchange;
      ExchangeNone(inbox, Joined(m), m.connId);
      assert entered[..0] == [];
      for i := 0 to |entered|
        invariant Appended(old(inbox), inbox,
                           Exchange(old(inbox), entered[..i], Joined(m), m.connId, Arrivals(entered[..i])))
      {
        ExchangeStep(old(inbox), inbox, entered, world.players, i, Joined(m), m.connId, Arrivals(entered[..i]),
                     Joined(entered[i]));
        ArrivalsSnoc(entered[..i], entered[i]);
        assert entered[..i + 1] == entered[..i] + [entered[i]];
        SendBuffMsg(entered[i].connId, Joined(m));
        SendBuffMsg(m.connId, Joined(entered[i]));
      }
      assert entered[..|entered|] == entered;
    }

    /** The loop over the players that went out of view. */
    method Separate(m: W.WorldPlayer, left: seq<W.WorldPlayer>)
      requires Listed(left, world.players) && m.connId !in Conns(left)
      modifies this`inbox
      ensures Appended(old(inbox), inbox, Exchange(old(inbox), left, Leave(m.pid), m.connId, Farewells(left)))
    {
      hide Leave, Plus, Listed, Conns, Exchange;
      ExchangeNone(inbox, Leave(m.pid), m.connId);
      assert left[..0] == [];
      for i := 0 to |left|
        invariant Appended(old(inbox), inbox,
                           Exchange(old(inbox), left[..i], Leave(m.pid), m.connId, Farewells(left[..i])))
      {
        ExchangeStep(old(inbox), inbox, left, world.players, i, Leave(m.pid), m.connId, Farewells(left[..i]),
                     Leave(left[i].pid));
        FarewellsSnoc(left[..i], left[i]);
        assert left[..i + 1] == left[..i] + [left[i]];
        SendBuffMsg(left[i].connId, Leave(m.pid));
        SendBuffMsg(m.connId, Leave(left[i].pid));
      }
      assert left[..|left|] == left;
    }

    /** All packets of a move. */
    method TellMove(m: W.WorldPlayer, entered: seq<W.WorldPlayer>, left: seq<W.WorldPlayer>, ghost older: set<uint32>)
      requires world.Valid() && inbox.Keys == world.players.Keys && m.connId in world.players
      requires older <= world.players.Keys - {m.connId}
      requires W.PlayerList(entered, world.players, W.Sees(world.aoi.size, world.players, m.connId) - older)
      requires W.PlayerList(left, world.players, older - W.Sees(world.aoi.size, world.players, m.connId))
      modifies this`inbox
      ensures inbox.Keys == old(inbox).Keys
      ensures inbox[m.connId] == old(inbox)[m.connId] + MoverTold(m, entered, left)
      ensures forall k :: k in inbox && k != m.connId ==>
                inbox[k] == old(inbox)[k]
                  + MoveTells(m, k in older, k in W.Sees(world.aoi.size, world.players, m.connId))
    {
      hide W.World.Valid, A.CellFor, W.FloatValue, W.AllPlaced, W.Sees, W.PlayerList, Listed, Conns, W.DistinctPids,
           Joined, Leave, Moved, Arrivals, Farewells;
      world.Consistent();
      ghost var newer := W.Sees(world.aoi.size, world.players, m.connId);
      SeesPlayers(world.aoi.size, world.players, m.connId);
      ListedConns(entered, world.players, newer - older);
      ListedConns(left, world.players, older - newer);
      Introduce(m, entered);
      ghost var introduced := inbox;
      Separate(m, left);
      ghost var separated := inbox;
      BroadcastVisible(m.connId, Moved(m));
      MoveSum(m, entered, left, older, newer, old(inbox), introduced, separated, inbox);
    }

    /** UnityMoveRouter.Handle: undecodable data and positions outside the world change nothing. */
    method HandleMove(c: uint32, data: seq<byte>) returns (r: Option<W.MoveResult>)
      requires Valid()
      modifies this, world, world.aoi
      ensures Valid()
      ensures nextPlayerId == old(nextPlayerId)
      ensures r.Some? <==> && F.Decode(data, M.ORIGIN, M.PositionField).err.None? && c in old(world.players)
                           && A.CellFor(world.aoi.size,
                                        W.AoiPosition(F.Decode(data, M.ORIGIN, M.PositionField).msg)).Ok?
      ensures r.None? ==> world.players == old(world.players) && inbox == old(inbox)
      ensures r.Some? ==>
                && r.value.player == old(world.players)[c].(position := F.Decode(data, M.ORIGIN, M.PositionField).msg,
                                                            actionData := 0)
                && world.players == old(world.players)[c := r.value.player] && inbox.Keys == world.players.Keys
                && var z := world.aoi.size;
                   var older, newer := W.Sees(z, old(world.players), c), W.Sees(z, world.players, c);
                   && W.PlayerList(r.value.entered, world.players, newer - older)
                   && W.PlayerList(r.value.left, world.players, older - newer)
                   && inbox[c] == old(inbox)[c] + MoverTold(r.value.player, r.value.entered, r.value.left)
                   && forall k :: k in inbox && k != c ==>
                        inbox[k] == old(inbox)[k] + MoveTells(r.value.player, k in older, k in newer)
    {
      hide W.World.Valid, A.CellFor, W.FloatValue, W.AllPlaced, W.Sees, W.PlayerList, Listed, Conns, AllKnowTruth,
           F.Decode, MoverTold, MoveTells;
      world.Consistent();
      var position := F.Decode(data, M.ORIGIN, M.PositionField);
      if position.err.Some? {
        return None;
      }
      ghost var z, before, boxes := world.aoi.size, world.players, inbox;
      var moved := world.UpdatePlayerWithVisibility(c, position.msg, 0);
      world.Consistent();
      if moved.Err? {
        return None;
      }
      var m := moved.value.player;
      ghost var older := W.Sees(z, before, c);
      SeesPlayers(z, before, c);
      TellMove(m, moved.value.entered, moved.value.left, older);
      MoveKeepsTruth(z, before, boxes, m, moved.value.entered, moved.value.left, inbox);
      r := Some(moved.value);
    }

    /** World.Broadcast, to all players in some order. */
    method SendToEverybody(p: Packet)
      modifies this`inbox
      ensures Appended(old(inbox), inbox, map k | k in old(inbox) :: [p])
    {
      var rest := inbox.Keys;
      while rest != {}
        invariant rest <= old(inbox).Keys
        invariant Appended(old(inbox), inbox, map k | k in old(inbox) :: if k in rest then [] else [p])
        decreases rest
      {
        var k :| k in rest;
        rest := rest - {k};
        SendBuffMsg(k, p);
      }
    }

    /** UnityChatRouter.Handle: what is said goes to everybody, and is no news about who is near. */
    method HandleTalk(c: uint32, data: seq<byte>)
      requires Valid() && M.InMemory(F.Decode(data, M.Talk([]), M.TalkField).msg.content)
      modifies this`inbox
      ensures Valid()
      ensures F.Decode(data, M.Talk([]), M.TalkField).err.Some? ==> inbox == old(inbox)
      ensures F.Decode(data, M.Talk([]), M.TalkField).err.None? ==>
                Appended(old(inbox), inbox,
                         map k | k in old(inbox) :: [Said(c, F.Decode(data, M.Talk([]), M.TalkField).msg.content)])
    {
      hide W.World.Valid, A.CellFor, W.FloatValue, W.AllPlaced, W.Sees, F.Decode, Said, Truth, Feed, W.DistinctPids;
      world.Consistent();
      var talk := F.Decode(data, M.Talk([]), M.TalkField);
      if talk.err.Some? {
        return;
      }
      var said := Said(c, talk.msg.content);
      SendToEverybody(said);
      TalkKeepsTruth(world.aoi.size, world.players, old(inbox), c, talk.msg.content, inbox);
    }
  }

  lemma StillListed(list: seq<W.WorldPlayer>, players: map<uint32, W.WorldPlayer>, c: uint32)
    requires Listed(list, players) && c !in Conns(list)
    ensures Listed(list, players - {c})
  {
    forall p | p in list ensures p.connId in players - {c} && (players - {c})[p.connId] == p {
      assert p.connId in Conns(list);
    }
  }

  // Each event keeps every client's knowledge true

  /** What was fed is extended by what is fed next. */
  lemma FedTruth(log: seq<Packet>, more: seq<Packet>, v: View, v': View)
    requires Feed(NOTHING, log) == Some(v) && Feed(v, more) == Some(v')
    ensures Feed(NOTHING, log + more) == Some(v')
  {
    FeedAppend(NOTHING, log, more);
  }

  lemma ConnectKeepsTruth(z: A.Size, before: map<uint32, W.WorldPlayer>, boxes: Inbox, p: W.WorldPlayer,
                          nearby: seq<W.WorldPlayer>, after: Inbox)
    requires W.AllPlaced(z, before) && W.DistinctPids(before) && boxes.Keys == before.Keys
    requires AllKnowTruth(z, before, boxes)
    requires p.connId !in before && W.DistinctPids(before[p.connId := p]) && W.AllPlaced(z, before[p.connId := p])
    requires var players := before[p.connId := p];
             && after.Keys == players.Keys
             && W.PlayerList(nearby, players, W.Sees(z, players, p.connId))
             && after[p.connId] == [SyncPid(p.pid), SyncPlayers(nearby), Joined(p)]
             && forall k :: k in boxes ==>
                  after[k] == boxes[k] + if k in W.Sees(z, players, p.connId) then [Joined(p)] else []
    ensures AllKnowTruth(z, before[p.connId := p], after)
  {
    hide W.FloatValue, W.Sees, W.PlayerList, Feed, Truth, Joined, SyncPid, SyncPlayers, W.DistinctPids;
    var players := before[p.connId := p];
    NewcomerLearnsTruth(z, players, p.connId, nearby);
    forall k | k in players && k != p.connId ensures Feed(NOTHING, after[k]) == Some(Truth(z, players, k)) {
      OthersLearnTruth(z, before, p, k);
      var more := if k in W.Sees(z, players, p.connId) then [Joined(p)] else [];
      FedTruth(boxes[k], more, Truth(z, before, k), Truth(z, players, k));
    }
  }

  lemma DisconnectKeepsTruth(z: A.Size, before: map<uint32, W.WorldPlayer>, boxes: Inbox, c: uint32, after: Inbox)
    requires W.AllPlaced(z, before) && W.DistinctPids(before) && boxes.Keys == before.Keys
    requires AllKnowTruth(z, before, boxes)
    requires c in before && W.DistinctPids(before - {c}) && W.AllPlaced(z, before - {c})
    requires after.Keys == before.Keys - {c}
    requires forall k :: k in after ==>
               after[k] == boxes[k] + if k in W.Sees(z, before, c) then [Leave(before[c].pid)] else []
    ensures AllKnowTruth(z, before - {c}, after)
  {
    hide W.FloatValue, W.Sees, Feed, Truth, Leave, W.DistinctPids;
    var players := before - {c};
    forall k | k in players ensures Feed(NOTHING, after[k]) == Some(Truth(z, players, k)) {
      RestLearnTruth(z, before, c, k);
      var more := if k in W.Sees(z, before, c) then [Leave(before[c].pid)] else [];
      FedTruth(boxes[k], more, Truth(z, before, k), Truth(z, players, k));
    }
  }

  lemma MoveKeepsTruth(z: A.Size, before: map<uint32, W.WorldPlayer>, boxes: Inbox, m: W.WorldPlayer,
                       entered: seq<W.WorldPlayer>, left: seq<W.WorldPlayer>, after: Inbox)
    requires W.AllPlaced(z, before) && W.DistinctPids(before) && boxes.Keys == before.Keys
    requires AllKnowTruth(z, before, boxes)
    requires m.connId in before && before[m.connId].pid == m.pid
    requires W.DistinctPids(before[m.connId := m]) && W.AllPlaced(z, before[m.connId := m]) && after.Keys == before.Keys
    requires var c, players := m.connId, before[m.connId := m];
             var older, newer := W.Sees(z, before, c), W.Sees(z, players, c);
             && W.PlayerList(entered, players, newer - older)
             && W.PlayerList(left, players, older - newer)
             && after[c] == boxes[c] + MoverTold(m, entered, left)
             && forall k :: k in after && k != c ==> after[k] == boxes[k] + MoveTells(m, k in older, k in newer)
    ensures AllKnowTruth(z, before[m.connId := m], after)
  {
    hide W.FloatValue, W.Sees, W.PlayerList, Feed, Truth, MoverTold, MoveTells, W.DistinctPids;
    var c, players := m.connId, before[m.connId := m];
    assert A.CellFor(z, W.AoiPosition(players[c].position)).Ok?;
    MoverLearnsTruth(z, before, m, entered, left);
    FedTruth(boxes[c], MoverTold(m, entered, left), Truth(z, before, c), Truth(z, players, c));
    forall k | k in players && k != c ensures Feed(NOTHING, after[k]) == Some(Truth(z, players, k)) {
      OthersLearnTruth(z, before, m, k);
      var tells := MoveTells(m, k in W.Sees(z, before, c), k in W.Sees(z, players, c));
      FedTruth(boxes[k], tells, Truth(z, before, k), Truth(z, players, k));
    }
  }

  lemma TalkKeepsTruth(z: A.Size, players: map<uint32, W.WorldPlayer>, boxes: Inbox, c: uint32, content: M.Text,
                       after: Inbox)
    requires W.AllPlaced(z, players) && W.DistinctPids(players) && boxes.Keys == players.Keys
    requires AllKnowTruth(z, players, boxes)
    requires M.InMemory(content) && Appended(boxes, after, map k | k in boxes :: [Said(c, content)])
    ensures AllKnowTruth(z, players, after)
  {
    hide W.FloatValue, W.Sees, Feed, Truth, W.DistinctPids, W.AllPlaced, Said;
    forall k | k in players ensures k in after && Feed(NOTHING, after[k]) == Some(Truth(z, players, k)) {
      var v := Truth(z, players, k);
      ReceiveSaid(v, c, content);
      FeedOne(v, Said(c, content));
      FedTruth(boxes[k], [Said(c, content)], v, v);
    }
  }
}