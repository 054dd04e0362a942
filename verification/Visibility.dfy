/** What the clients of examples/unityserver are told, packet by packet, and what a client that decodes
    its packets makes of it. */
module Visibility {
  import opened Options
  import opened Binary
  import opened Sorting
  import F = UnityFields
  import A = AoiGrid
  import M = UnityMessages
  import W = UnityWorld

  datatype Packet = Packet(id: uint32, data: seq<byte>)

  /** One SendBuffMsg: a packet put in the queue of one connection. */
  datatype Send = Send(to: uint32, packet: Packet)

  // The packets the server builds

  function SyncPid(pid: M.int32): Packet { Packet(1, M.MarshalSyncPid(M.SyncPid(pid))) }

  function Leave(pid: M.int32): Packet { Packet(201, M.MarshalSyncPid(M.SyncPid(pid))) }

  function Snapshot(list: seq<W.WorldPlayer>): seq<M.Player> {
    if list == [] then [] else [M.Player(list[0].pid, list[0].position)] + Snapshot(list[1..])
  }

  function SyncPlayers(list: seq<W.WorldPlayer>): Packet {
    Packet(202, M.MarshalSyncPlayers(M.SyncPlayers(Snapshot(list))))
  }

  function Broadcast(pid: M.int32, tp: M.int32, content: M.Text, p: Option<M.Position>, actionData: M.int32): Packet {
    Packet(200, M.MarshalBroadCast(M.BroadCast(pid, tp, content, p, actionData)))
  }

  /** TP = 2: a player that has come into view. */
  function Joined(p: W.WorldPlayer): Packet { Broadcast(p.pid, 2, [], Some(p.position), p.actionData) }

  /** TP = 3: a player in view that has moved. */
  function Moved(p: W.WorldPlayer): Packet { Broadcast(p.pid, 3, [], Some(p.position), p.actionData) }

  /** TP = 1: something said; its pid is the connection id of the speaker. */
  function Said(c: uint32, content: M.Text): Packet { Broadcast(M.ToInt32(c), 1, content, None, 0) }

  // A client

  /** What a client has been told: its own player id, and the other players and where they are. */
  datatype View = View(own: Option<M.int32>, known: map<M.int32, M.Position>)

  const NOTHING := View(None, map[])

  datatype Notice = OwnPid(pid: M.int32) | Nearby(players: seq<M.Player>) | Told(b: M.BroadCast) | Gone(pid: M.int32)

  /** The client's decoder. */
  function Open(p: Packet): Option<Notice> {
    if p.id == 1 || p.id == 201 then
      var d := F.Decode(p.data, M.SyncPid(0), M.SyncPidField);
      if d.err.Some? then None else Some(if p.id == 1 then OwnPid(d.msg.pid) else Gone(d.msg.pid))
    else if p.id == 200 then
      var d := F.Decode(p.data, M.BroadCast(0, 0, [], None, 0), M.BroadCastField);
      if d.err.Some? then None else Some(Told(d.msg))
    else if p.id == 202 then
      var d := M.UnmarshalSyncPlayers(p.data, M.SyncPlayers([]));
      if d.err.Some? then None else Some(Nearby(d.msg.players))
    else None
  }

  /** New players, none of which may be known already. */
  function Learn(v: View, players: seq<M.Player>): Option<View>
    decreases |players|
  {
    if players == [] then Some(v)
    else if v.own == Some(players[0].pid) || players[0].pid in v.known then None
    else Learn(v.(known := v.known[players[0].pid := players[0].p]), players[1..])
  }

  /** The strict client: None as soon as it is told something that makes no sense, such as a move of, or
      farewell from, a player it does not know, or the arrival of one it knows already. */
  function Apply(v: View, n: Notice): Option<View> {
    match n
    case OwnPid(pid) => if v.own.Some? then None else Some(v.(own := Some(pid)))
    case Nearby(players) => if v.own.None? then None else Learn(v, players)
    case Gone(pid) => if pid !in v.known then None else Some(v.(known := v.known - {pid}))
    case Told(b) =>
      if b.tp == 1 || v.own == Some(b.pid) then Some(v)
      else if b.p.None? then None
      else if b.tp == 2 then (if b.pid in v.known then None else Some(v.(known := v.known[b.pid := b.p.value])))
      else if b.tp == 3 then (if b.pid !in v.known then None else Some(v.(known := v.known[b.pid := b.p.value])))
      else None
  }

  function Receive(v: View, p: Packet): Option<View> {
    var n := Open(p);
    if n.None? then None else Apply(v, n.value)
  }

  /** Reading packets in order. */
  function Feed(v: View, packets: seq<Packet>): Option<View>
    decreases |packets|
  {
    if packets == [] then Some(v)
    else
      var next := Receive(v, packets[0]);
      if next.None? then None else Feed(next.value, packets[1..])
  }

  lemma {:induction false} FeedAppend(v: View, a: seq<Packet>, b: seq<Packet>)
    requires Feed(v, a).Some?
    ensures Feed(v, a + b) == Feed(Feed(v, a).value, b)
    decreases |a|
  {
    hide Receive;
    if a == [] {
      assert a + b == b;
    } else {
      assert (a + b)[0] == a[0] && (a + b)[1..] == a[1..] + b;
      FeedAppend(Receive(v, a[0]).value, a[1..], b);
    }
  }

  lemma FeedOne(v: View, p: Packet)
    ensures Feed(v, [p]) == Receive(v, p)
  {
    hide Receive;
    assert [p][1..] == [];
  }

  /** The client decodes what the server encoded. */
  lemma Opens(pid: M.int32)
    ensures Open(SyncPid(pid)) == Some(OwnPid(pid)) && Open(Leave(pid)) == Some(Gone(pid))
  {
    hide F.Decode, M.MarshalSyncPid;
    M.SyncPidRoundTrip(M.SyncPid(pid));
  }

  lemma OpensBroadcast(pid: M.int32, tp: M.int32, content: M.Text, p: Option<M.Position>, actionData: M.int32)
    requires M.InMemory(content)
    ensures Open(Broadcast(pid, tp, content, p, actionData)) == Some(Told(M.BroadCast(pid, tp, content, p, actionData)))
  {
    hide F.Decode, M.MarshalBroadCast;
    M.BroadCastRoundTrip(M.BroadCast(pid, tp, content, p, actionData));
  }

  lemma OpensPlayers(list: seq<W.WorldPlayer>)
    ensures Open(SyncPlayers(list)) == Some(Nearby(Snapshot(list)))
  {
    hide M.UnmarshalSyncPlayers, M.MarshalSyncPlayers;
    M.SyncPlayersRoundTrip(M.SyncPlayers(Snapshot(list)), M.SyncPlayers([]));
  }

  lemma ReceiveJoined(v: View, p: W.WorldPlayer)
    requires v.own != Some(p.pid) && p.pid !in v.known
    ensures Receive(v, Joined(p)) == Some(v.(known := v.known[p.pid := p.position]))
  {
    hide Open, Broadcast;
    OpensBroadcast(p.pid, 2, [], Some(p.position), p.actionData);
  }

  lemma ReceiveMoved(v: View, p: W.WorldPlayer)
    requires v.own != Some(p.pid) && p.pid in v.known
    ensures Receive(v, Moved(p)) == Some(v.(known := v.known[p.pid := p.position]))
  {
    hide Open, Broadcast;
    OpensBroadcast(p.pid, 3, [], Some(p.position), p.actionData);
  }

  lemma ReceiveEcho(v: View, p: W.WorldPlayer)
    requires v.own == Some(p.pid)
    ensures Receive(v, Joined(p)) == Some(v) && Receive(v, Moved(p)) == Some(v)
  {
    hide Open, Broadcast;
    OpensBroadcast(p.pid, 2, [], Some(p.position), p.actionData);
    OpensBroadcast(p.pid, 3, [], Some(p.position), p.actionData);
  }

  lemma ReceiveSaid(v: View, c: uint32, content: M.Text)
    requires M.InMemory(content)
    ensures Receive(v, Said(c, content)) == Some(v)
  {
    hide Open, Broadcast;
    OpensBroadcast(M.ToInt32(c), 1, content, None, 0);
  }

  lemma ReceiveLeave(v: View, pid: M.int32)
    requires pid in v.known
    ensures Receive(v, Leave(pid)) == Some(v.(known := v.known - {pid}))
  {
    hide Open;
    Opens(pid);
  }

  // The truth

  /** These players by player id, with their positions. */
  function Positions(players: map<uint32, W.WorldPlayer>, ids: set<uint32>): map<M.int32, M.Position>
    requires W.DistinctPids(players)
  {
    map k | k in ids && k in players :: players[k].pid := players[k].position
  }

  /** What a client ought to know: exactly the players its player sees, and where each of them is. */
  function Truth(z: A.Size, players: map<uint32, W.WorldPlayer>, c: uint32): View
    requires W.AllPlaced(z, players) && W.DistinctPids(players) && c in players
  {
    View(Some(players[c].pid), Positions(players, W.Sees(z, players, c)))
  }

  lemma PositionsAt(players: map<uint32, W.WorldPlayer>, ids: set<uint32>, k: uint32)
    requires W.DistinctPids(players) && k in players
    ensures players[k].pid in Positions(players, ids) <==> k in ids
    ensures k in ids ==> Positions(players, ids)[players[k].pid] == players[k].position
  {
  }

  /** Another player's change of place is no news to those who do not see it. */
  lemma PositionsIgnore(players: map<uint32, W.WorldPlayer>, p: W.WorldPlayer, ids: set<uint32>)
    requires W.DistinctPids(players) && W.DistinctPids(players[p.connId := p]) && p.connId !in ids
    ensures Positions(players[p.connId := p], ids) == Positions(players, ids)
  {
    var after := players[p.connId := p];
    assert forall k :: k in ids && k in players <==> k in ids && k in after;
    assert forall k :: k in ids && k in players ==> after[k] == players[k];
  }

  lemma PositionsAdd(players: map<uint32, W.WorldPlayer>, ids: set<uint32>, k: uint32)
    requires W.DistinctPids(players) && k in players
    ensures Positions(players, ids + {k}) == Positions(players, ids)[players[k].pid := players[k].position]
    ensures Positions(players, ids - {k}) == Positions(players, ids) - {players[k].pid}
  {
    PositionsMore(players, ids, k);
    PositionsLess(players, ids, k);
  }

  lemma PositionsMore(players: map<uint32, W.WorldPlayer>, ids: set<uint32>, k: uint32)
    requires W.DistinctPids(players) && k in players
    ensures Positions(players, ids + {k}) == Positions(players, ids)[players[k].pid := players[k].position]
  {
    var a, b := Positions(players, ids + {k}), Positions(players, ids)[players[k].pid := players[k].position];
    forall pid ensures pid in a <==> pid in b {
    }
  }

  lemma PositionsLess(players: map<uint32, W.WorldPlayer>, ids: set<uint32>, k: uint32)
    requires W.DistinctPids(players) && k in players
    ensures Positions(players, ids - {k}) == Positions(players, ids) - {players[k].pid}
  {
    var a, b := Positions(players, ids - {k}), Positions(players, ids) - {players[k].pid};
    forall pid ensures pid in a <==> pid in b {
    }
  }

  // Lists of players, as the loops of the handlers go through them

  /** A part of a listing of players: ascending player ids, each filed under its connection. */
  predicate Listed(list: seq<W.WorldPlayer>, players: map<uint32, W.WorldPlayer>) {
    AscendingBy(list, W.PidBefore) && forall p :: p in list ==> p.connId in players && players[p.connId] == p
  }

  function Conns(list: seq<W.WorldPlayer>): set<uint32> { set p | p in list :: p.connId }

  lemma ListedConns(list: seq<W.WorldPlayer>, players: map<uint32, W.WorldPlayer>, ids: set<uint32>)
    requires W.PlayerList(list, players, ids) && W.DistinctPids(players) && ids <= players.Keys
    ensures Listed(list, players) && Conns(list) == ids
  {
    forall k | k in ids ensures k in Conns(list) {
      assert players[k] in list && players[k].connId == k;
    }
  }

  lemma ListedTail(list: seq<W.WorldPlayer>, players: map<uint32, W.WorldPlayer>)
    requires Listed(list, players) && list != []
    ensures list[0] in list && list[0].connId in players
    ensures Listed(list[1..], players) && Conns(list) == Conns(list[1..]) + {list[0].connId}
    ensures list[0].connId !in Conns(list[1..])
  {
    var rest := list[1..];
    assert forall i :: 0 <= i < |rest| ==> rest[i] == list[i + 1];
    assert forall p :: p in list <==> p == list[0] || p in rest;
    forall i, j | 0 <= i < j < |rest| ensures W.PidBefore(rest[i], rest[j]) {
      assert W.PidBefore(list[i + 1], list[j + 1]);
    }
    forall p | p in rest ensures p.connId != list[0].connId {
      var i :| 0 <= i < |rest| && rest[i] == p;
      assert W.PidBefore(list[0], list[i + 1]);
    }
  }

  /** The arrivals a client is told of one after the other. */
  function Arrivals(list: seq<W.WorldPlayer>): seq<Packet> {
    if list == [] then [] else [Joined(list[0])] + Arrivals(list[1..])
  }

  function Farewells(list: seq<W.WorldPlayer>): seq<Packet> {
    if list == [] then [] else [Leave(list[0].pid)] + Farewells(list[1..])
  }

  /** Telling a client of players it does not know adds exactly them. */
  lemma {:induction false} FeedArrivals(own: M.int32, players: map<uint32, W.WorldPlayer>, ids: set<uint32>,
                                        list: seq<W.WorldPlayer>)
    requires W.DistinctPids(players) && Listed(list, players) && ids !! Conns(list)
    requires forall k :: k in Conns(list) ==> players[k].pid != own
    ensures Feed(View(Some(own), Positions(players, ids)), Arrivals(list))
            == Some(View(Some(own), Positions(players, ids + Conns(list))))
    decreases |list|
  {
    hide Receive, Positions;
    if list == [] {
      assert ids + Conns(list) == ids;
    } else {
      ListedTail(list, players);
      var v, p := View(Some(own), Positions(players, ids)), list[0];
      PositionsAt(players, ids, p.connId);
      PositionsAdd(players, ids, p.connId);
      ReceiveJoined(v, p);
      FeedArrivals(own, players, ids + {p.connId}, list[1..]);
      assert ids + {p.connId} + Conns(list[1..]) == ids + Conns(list);
      assert Arrivals(list)[1..] == Arrivals(list[1..]);
    }
  }

  /** The same in one snapshot. */
  lemma {:induction false} LearnAll(own: M.int32, players: map<uint32, W.WorldPlayer>, ids: set<uint32>,
                                    list: seq<W.WorldPlayer>)
    requires W.DistinctPids(players) && Listed(list, players) && ids !! Conns(list)
    requires forall k :: k in Conns(list) ==> players[k].pid != own
    ensures Learn(View(Some(own), Positions(players, ids)), Snapshot(list))
            == Some(View(Some(own), Positions(players, ids + Conns(list))))
    decreases |list|
  {
    hide Positions;
    if list == [] {
      assert ids + Conns(list) == ids;
    } else {
      ListedTail(list, players);
      var p := list[0];
      PositionsAt(players, ids, p.connId);
      PositionsAdd(players, ids, p.connId);
      LearnAll(own, players, ids + {p.connId}, list[1..]);
      assert ids + {p.connId} + Conns(list[1..]) == ids + Conns(list);
      assert Snapshot(list)[1..] == Snapshot(list[1..]);
    }
  }

  /** Telling a client that players it knows are gone removes exactly them. */
  lemma {:induction false} FeedFarewells(own: M.int32, players: map<uint32, W.WorldPlayer>, ids: set<uint32>,
                                         list: seq<W.WorldPlayer>)
    requires W.DistinctPids(players) && Listed(list, players) && Conns(list) <= ids
    ensures Feed(View(Some(own), Positions(players, ids)), Farewells(list))
            == Some(View(Some(own), Positions(players, ids - Conns(list))))
    decreases |list|
  {
    hide Receive, Positions;
    if list == [] {
      assert ids - Conns(list) == ids;
    } else {
      ListedTail(list, players);
      var v, p := View(Some(own), Positions(players, ids)), list[0];
      PositionsAt(players, ids, p.connId);
      PositionsAdd(players, ids, p.connId);
      ReceiveLeave(v, p.pid);
      FeedFarewells(own, players, ids - {p.connId}, list[1..]);
      assert ids - {p.connId} - Conns(list[1..]) == ids - Conns(list);
      assert Farewells(list)[1..] == Farewells(list[1..]);
    }
  }

  // Who sees whom after a change

  /** When a player appears or moves, the others keep seeing each other, and seeing it is mutual. */
  lemma SeesWith(z: A.Size, players: map<uint32, W.WorldPlayer>, p: W.WorldPlayer, k: uint32)
    requires W.AllPlaced(z, players) && A.CellFor(z, W.AoiPosition(p.position)).Ok?
    requires k in players && k != p.connId
    ensures W.AllPlaced(z, players[p.connId := p])
    ensures var after := players[p.connId := p];
            && W.Sees(z, after, k) - {p.connId} == W.Sees(z, players, k) - {p.connId}
            && (p.connId in W.Sees(z, after, k) <==> k in W.Sees(z, after, p.connId))
            && (p.connId in players ==> (p.connId in W.Sees(z, players, k) <==> k in W.Sees(z, players, p.connId)))
  {
    hide A.CellFor, W.FloatValue, W.EntitiesOf, A.Around;
    var after := players[p.connId := p];
    W.EntitiesWith(z, players, p.connId, p);
    var e, e' := W.EntitiesOf(z, players), W.EntitiesOf(z, after);
    A.AroundOthers(e, p.connId, W.Placed(z, p.position), k);
    A.AroundSymmetric(e', k, p.connId);
    if p.connId in players {
      A.AroundSymmetric(e, k, p.connId);
    }
  }

  lemma SeesWithout(z: A.Size, players: map<uint32, W.WorldPlayer>, c: uint32, k: uint32)
    requires W.AllPlaced(z, players) && c in players && k in players && k != c
    ensures W.AllPlaced(z, players - {c})
    ensures W.Sees(z, players - {c}, k) == W.Sees(z, players, k) - {c}
    ensures c in W.Sees(z, players, k) <==> k in W.Sees(z, players, c)
  {
    hide A.CellFor, W.FloatValue, W.EntitiesOf, W.AllPlaced;
    W.EntitiesWithout(z, players, c);
    A.AroundSymmetric(W.EntitiesOf(z, players), k, c);
  }

  lemma SeesPlayers(z: A.Size, players: map<uint32, W.WorldPlayer>, c: uint32)
    requires W.AllPlaced(z, players) && c in players
    ensures W.Sees(z, players, c) <= players.Keys - {c}
  {
    hide A.CellFor, W.FloatValue, W.AllPlaced;
  }

  // What one event tells each client

  /** The part of a move that concerns another client, as packets. */
  function MoveTells(m: W.WorldPlayer, older: bool, newer: bool): seq<Packet> {
    if newer then (if older then [Moved(m)] else [Joined(m), Moved(m)])
    else if older then [Leave(m.pid)]
    else []
  }

  /** The part that concerns the mover. */
  function MoverTold(m: W.WorldPlayer, entered: seq<W.WorldPlayer>, left: seq<W.WorldPlayer>): seq<Packet> {
    Arrivals(entered) + Farewells(left) + [Moved(m)]
  }

  /** A client that knew the truth, and is told of a change of another player, knows the truth. */
  lemma OthersLearnTruth(z: A.Size, players: map<uint32, W.WorldPlayer>, m: W.WorldPlayer, k: uint32)
    requires W.AllPlaced(z, players) && W.DistinctPids(players) && W.DistinctPids(players[m.connId := m])
    requires A.CellFor(z, W.AoiPosition(m.position)).Ok? && k in players && k != m.connId
    requires m.connId in players ==> players[m.connId].pid == m.pid
    ensures W.AllPlaced(z, players[m.connId := m])
    ensures var after := players[m.connId := m];
            var older := m.connId in players && k in W.Sees(z, players, m.connId);
            var newer := k in W.Sees(z, after, m.connId);
            && Feed(Truth(z, players, k), MoveTells(m, older, newer)) == Some(Truth(z, after, k))
            && (!older && newer ==> Feed(Truth(z, players, k), [Joined(m)]) == Some(Truth(z, after, k)))
  {
    hide A.CellFor, W.FloatValue, W.AllPlaced, W.Sees, Receive, Positions, Joined, Moved, Leave;
    SeesWith(z, players, m, k);
    SeesPlayers(z, players, k);
    var c, after := m.connId, players[m.connId := m];
    var before, now := W.Sees(z, players, k), W.Sees(z, after, k);
    var rest := before - {c};
    PositionsIgnore(players, m, rest);
    PositionsAdd(after, rest, c);
    PositionsAdd(after, rest + {c}, c);
    assert now == (if c in now then rest + {c} else rest);
    assert before == (if c in before then rest + {c} else rest);
    assert after[k] == players[k] && m.pid != players[k].pid;
    var v := Truth(z, players, k);
    if c in before {
      PositionsAdd(players, rest, c);
      PositionsAt(players, rest, c);
      var known := Positions(players, rest);
      Overwrite(known, m.pid, players[c].position, m.position);
      assert v.known == known[m.pid := players[c].position];
      ReceiveMoved(v, m);
      ReceiveLeave(v, m.pid);
      FeedOne(v, Moved(m));
      FeedOne(v, Leave(m.pid));
    } else {
      if c in players {
        PositionsAt(players, rest, c);
      }
      Unknown(players, m, rest);
      assert m.pid !in v.known;
      ReceiveJoined(v, m);
      FeedOne(v, Joined(m));
      var v' := Receive(v, Joined(m)).value;
      ReceiveMoved(v', m);
      assert [Joined(m), Moved(m)][1..] == [Moved(m)];
      FeedOne(v', Moved(m));
      assert v'.(known := v'.known[m.pid := m.position]) == v';
    }
  }

  lemma Overwrite(known: map<M.int32, M.Position>, pid: M.int32, p: M.Position, q: M.Position)
    ensures known[pid := p][pid := q] == known[pid := q]
    ensures pid !in known ==> known[pid := p] - {pid} == known
  {
  }

  lemma Unknown(players: map<uint32, W.WorldPlayer>, m: W.WorldPlayer, ids: set<uint32>)
    requires W.DistinctPids(players) && W.DistinctPids(players[m.connId := m]) && m.connId !in ids
    ensures m.pid !in Positions(players, ids)
  {
    var after := players[m.connId := m];
    forall k | k in ids && k in players ensures players[k].pid != m.pid {
      assert after[k] == players[k] && after[m.connId] == m;
    }
  }

  /** The mover is told of those it comes to see and of those it no longer sees. */
  lemma MoverLearnsTruth(z: A.Size, players: map<uint32, W.WorldPlayer>, m: W.WorldPlayer,
                         entered: seq<W.WorldPlayer>, left: seq<W.WorldPlayer>)
    requires W.AllPlaced(z, players) && W.DistinctPids(players) && W.DistinctPids(players[m.connId := m])
    requires W.AllPlaced(z, players[m.connId := m]) && m.connId in players && players[m.connId].pid == m.pid
    requires var c, after := m.connId, players[m.connId := m];
             && W.PlayerList(entered, after, W.Sees(z, after, c) - W.Sees(z, players, c))
             && W.PlayerList(left, after, W.Sees(z, players, c) - W.Sees(z, after, c))
    ensures Feed(Truth(z, players, m.connId), MoverTold(m, entered, left))
            == Some(Truth(z, players[m.connId := m], m.connId))
  {
    hide A.CellFor, W.FloatValue, W.AllPlaced, W.Sees, Receive, Positions, Joined, Moved, Leave, W.PlayerList,
         Arrivals, Farewells, Listed, Conns;
    var c, after := m.connId, players[m.connId := m];
    SeesPlayers(z, players, c);
    SeesPlayers(z, after, c);
    var older, newer := W.Sees(z, players, c), W.Sees(z, after, c);
    ListedConns(entered, after, newer - older);
    ListedConns(left, after, older - newer);
    PositionsIgnore(players, m, older);
    FeedArrivals(m.pid, after, older, entered);
    FeedFarewells(m.pid, after, older + (newer - older), left);
    assert older + (newer - older) - (older - newer) == newer;
    var v := View(Some(m.pid), Positions(after, newer));
    FeedAppend(Truth(z, players, c), Arrivals(entered), Farewells(left));
    FeedAppend(Truth(z, players, c), Arrivals(entered) + Farewells(left), [Moved(m)]);
    ReceiveEcho(v, m);
    FeedOne(v, Moved(m));
  }

  /** A newcomer is told its own id and everybody it sees. */
  lemma NewcomerLearnsTruth(z: A.Size, players: map<uint32, W.WorldPlayer>, c: uint32, before: seq<W.WorldPlayer>)
    requires W.AllPlaced(z, players) && W.DistinctPids(players) && c in players
    requires W.PlayerList(before, players, W.Sees(z, players, c))
    ensures Feed(NOTHING, [SyncPid(players[c].pid), SyncPlayers(before), Joined(players[c])])
              == Some(Truth(z, players, c))
  {
    hide A.CellFor, W.FloatValue, W.AllPlaced, W.Sees, Open, Positions, Joined, SyncPid, SyncPlayers, W.PlayerList,
         Listed, Conns, Learn;
    var p := players[c];
    var sees := W.Sees(z, players, c);
    SeesPlayers(z, players, c);
    ListedConns(before, players, sees);
    Opens(p.pid);
    OpensPlayers(before);
    var v := View(Some(p.pid), map[]);
    assert Receive(NOTHING, SyncPid(p.pid)) == Some(v);
    assert Positions(players, {}) == map[] by {
      PositionsEmpty(players);
    }
    LearnAll(p.pid, players, {}, before);
    assert {} + sees == sees;
    assert Receive(v, SyncPlayers(before)) == Some(Truth(z, players, c));
    ReceiveEcho(Truth(z, players, c), p);
    var packets := [SyncPid(p.pid), SyncPlayers(before), Joined(p)];
    assert packets[1..] == [SyncPlayers(before), Joined(p)];
    assert packets[1..][1..] == [Joined(p)];
    FeedOne(Truth(z, players, c), Joined(p));
  }

  lemma PositionsWithout(players: map<uint32, W.WorldPlayer>, c: uint32, ids: set<uint32>)
    requires W.DistinctPids(players) && c !in ids
    ensures Positions(players - {c}, ids) == Positions(players, ids)
  {
    var after := players - {c};
    assert forall k :: k in ids && k in players <==> k in ids && k in after;
    assert forall k :: k in ids && k in players ==> after[k] == players[k];
  }

  lemma PositionsEmpty(players: map<uint32, W.WorldPlayer>)
    requires W.DistinctPids(players)
    ensures Positions(players, {}) == map[]
  {
  }

  /** When a player leaves, those who saw it are told so. */
  lemma RestLearnTruth(z: A.Size, players: map<uint32, W.WorldPlayer>, c: uint32, k: uint32)
    requires W.AllPlaced(z, players) && W.DistinctPids(players) && c in players && k in players && k != c
    ensures W.AllPlaced(z, players - {c})
    ensures Feed(Truth(z, players, k), if k in W.Sees(z, players, c) then [Leave(players[c].pid)] else [])
            == Some(Truth(z, players - {c}, k))
  {
    hide A.CellFor, W.FloatValue, W.AllPlaced, W.Sees, Receive, Leave, Positions;
    SeesWithout(z, players, c, k);
    var before := W.Sees(z, players, k);
    PositionsWithout(players, c, before - {c});
    var v := Truth(z, players, k);
    PositionsAdd(players, before, c);
    PositionsAt(players, before, c);
    if c in before {
      ReceiveLeave(v, players[c].pid);
      FeedOne(v, Leave(players[c].pid));
    } else {
      assert before - {c} == before;
    }
  }
}
