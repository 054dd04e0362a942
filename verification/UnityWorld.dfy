/** The online players of examples/unity/world.go: two indexes and the grid, kept aligned. */
module UnityWorld {
  import opened Options
  import opened Binary
  import opened Sorting
  import A = AoiGrid
  import M = UnityMessages

  datatype WorldPlayer = WorldPlayer(pid: M.int32, connId: uint32, position: M.Position, actionData: M.int32)

  datatype WorldError = PlayerExists | PidExists | PlayerNotFound | Aoi(error: A.AoiError)

  datatype MoveResult = MoveResult(player: WorldPlayer, entered: seq<WorldPlayer>, left: seq<WorldPlayer>,
                                   visible: seq<WorldPlayer>)

  /** Two to the power n. */
  function Pow2(n: int): real
    decreases if n < 0 then -n else n
  {
    if n == 0 then 1.0 else if n > 0 then 2.0 * Pow2(n - 1) else Pow2(n + 1) / 2.0
  }

  /** The number a float32 pattern stands for. */
  function FloatValue(bits: uint32): A.Coord {
    var exponent, fraction := bits / 0x80_0000 % 0x100, bits % 0x80_0000;
    var sign := if bits < 0x8000_0000 then 1.0 else -1.0;
    if exponent == 0xFF then A.NotFinite
    else if exponent == 0 then A.Finite(sign * fraction as real * Pow2(-149))
    else A.Finite(sign * (0x80_0000 + fraction) as real * Pow2(exponent - 150))
  }

  /** The ground plane of Unity is x and z. */
  function AoiPosition(p: M.Position): A.Position { A.Position(FloatValue(p.x), FloatValue(p.z)) }

  function Placed(z: A.Size, p: M.Position): A.Entity
    requires A.PositiveSize(z) && A.CellFor(z, AoiPosition(p)).Ok?
  {
    A.Entity(AoiPosition(p), A.CellFor(z, AoiPosition(p)).value)
  }

  predicate AllPlaced(z: A.Size, players: map<uint32, WorldPlayer>) {
    A.PositiveSize(z) && forall k :: k in players ==> A.CellFor(z, AoiPosition(players[k].position)).Ok?
  }

  /** The grid entities these players must have. */
  function EntitiesOf(z: A.Size, players: map<uint32, WorldPlayer>): (entities: map<uint32, A.Entity>)
    requires AllPlaced(z, players)
    ensures entities.Keys == players.Keys
  {
    map k | k in players :: Placed(z, players[k].position)
  }

  /** Whom a player sees: the other players near it. */
  function Sees(z: A.Size, players: map<uint32, WorldPlayer>, c: uint32): set<uint32>
    requires AllPlaced(z, players) && c in players
  {
    A.Around(EntitiesOf(z, players), c)
  }

  predicate PidBefore(p: WorldPlayer, q: WorldPlayer) { p.pid < q.pid }

  /** The players of these connections, by ascending player id. */
  ghost predicate PlayerList(list: seq<WorldPlayer>, players: map<uint32, WorldPlayer>, ids: set<uint32>) {
    && AscendingBy(list, PidBefore)
    && (forall p :: p in list ==> p.connId in ids && p.connId in players && players[p.connId] == p)
    && (forall k :: k in ids && k in players ==> players[k] in list)
  }

  /** Player ids are unique, and every player is filed under its connection. */
  predicate DistinctPids(players: map<uint32, WorldPlayer>) {
    && (forall k :: k in players ==> players[k].connId == k)
    && (forall j, k :: j in players && k in players && players[j].pid == players[k].pid ==> j == k)
  }

  /** The player-id index inverts the players. */
  predicate Indexed(players: map<uint32, WorldPlayer>, ids: map<M.int32, uint32>) {
    && DistinctPids(players)
    && (forall k :: k in players ==> players[k].pid in ids && ids[players[k].pid] == k)
    && (forall pid :: pid in ids ==> ids[pid] in players && players[ids[pid]].pid == pid)
  }

  lemma IndexedWith(players: map<uint32, WorldPlayer>, ids: map<M.int32, uint32>, p: WorldPlayer)
    requires Indexed(players, ids)
    requires if p.connId in players then players[p.connId].pid == p.pid else p.pid !in ids
    ensures Indexed(players[p.connId := p], ids[p.pid := p.connId])
    ensures p.connId in players ==> ids[p.pid := p.connId] == ids
  {
  }

  lemma IndexedWithout(players: map<uint32, WorldPlayer>, ids: map<M.int32, uint32>, c: uint32)
    requires Indexed(players, ids) && c in players
    ensures Indexed(players - {c}, ids - {players[c].pid})
  {
  }

  lemma EntitiesWith(z: A.Size, players: map<uint32, WorldPlayer>, c: uint32, p: WorldPlayer)
    requires AllPlaced(z, players) && A.CellFor(z, AoiPosition(p.position)).Ok?
    ensures AllPlaced(z, players[c := p])
    ensures EntitiesOf(z, players[c := p]) == EntitiesOf(z, players)[c := Placed(z, p.position)]
  {
    hide A.CellFor, FloatValue;
  }

  lemma EntitiesWithout(z: A.Size, players: map<uint32, WorldPlayer>, c: uint32)
    requires AllPlaced(z, players)
    ensures AllPlaced(z, players - {c}) && EntitiesOf(z, players - {c}) == EntitiesOf(z, players) - {c}
  {
    hide A.CellFor, FloatValue;
  }

  class World {
    var players: map<uint32, WorldPlayer>
    var playerIds: map<M.int32, uint32>
    const aoi: A.AOIManager

    /** The player-id index inverts the players, and the grid has exactly their positions. */
    ghost predicate Valid() reads this, aoi {
      && aoi.Valid()
      && Indexed(players, playerIds)
      && AllPlaced(aoi.size, players)
      && aoi.entities == EntitiesOf(aoi.size, players)
    }

    lemma Consistent()
      requires Valid()
      ensures DistinctPids(players) && AllPlaced(aoi.size, players)
    {
    }

    constructor (size: A.Size)
      requires A.PositiveSize(size)
      ensures Valid() && players == map[] && aoi.size == size && fresh(aoi)
    {
      players := map[];
      playerIds := map[];
      aoi := new A.AOIManager(size);
    }

    /** playersFromIDsLocked: lookup and sort by player id. */
    method PlayersFromIds(ids: seq<uint32>, ghost elements: set<uint32>) returns (list: seq<WorldPlayer>)
      requires DistinctPids(players) && ListOf(ids, elements)
      ensures PlayerList(list, players, elements)
    {
      var found: seq<WorldPlayer> := [];
      for i := 0 to |ids|
        invariant DistinctBy(found, PidBefore)
        invariant forall p :: p in found ==> p.connId in players && players[p.connId] == p && p.connId in ids[..i]
        invariant forall k :: k in ids[..i] && k in players ==> players[k] in found
      {
        assert ids[..i + 1] == ids[..i] + [ids[i]];
        if ids[i] in players {
          var p := players[ids[i]];
          forall j | 0 <= j < |found| ensures Differ(found[j], p, PidBefore) {
            assert found[j] in found;
            assert found[j].connId != ids[i];
          }
          found := found + [p];
        }
      }
      assert ids[..|ids|] == ids;
      SortByKeeps(found, PidBefore);
      list := SortBy(found, PidBefore);
      assert forall k :: k in ids <==> k in elements;
    }

    /** nearbyPlayersLocked. */
    method NearbyPlayers(c: uint32) returns (list: seq<WorldPlayer>)
      requires Valid()
      ensures c in players ==> PlayerList(list, players, Sees(aoi.size, players, c))
      ensures c !in players ==> list == []
    {
      var ids := aoi.GetNearbyEntityIDs(c);
      if ids.Err? {
        return [];
      }
      list := PlayersFromIds(ids.value, Sees(aoi.size, players, c));
    }

    /** A player enters at the origin of the world. */
    method AddPlayerWithPid(c: uint32, pid: M.int32) returns (r: Result<(WorldPlayer, seq<WorldPlayer>), WorldError>)
      requires Valid()
      modifies this, aoi
      ensures Valid()
      ensures r.Ok? <==> c !in old(players) && pid !in old(playerIds)
      ensures c in old(players) ==> r == Err(PlayerExists)
      ensures c !in old(players) && pid in old(playerIds) ==> r == Err(PidExists)
      ensures r.Err? ==> players == old(players) && playerIds == old(playerIds)
      ensures r.Ok? ==>
                && r.value.0 == WorldPlayer(pid, c, M.ORIGIN, 0)
                && players == old(players)[c := r.value.0]
                && PlayerList(r.value.1, players, Sees(aoi.size, players, c))
    {
      hide FloatValue, PlayerList, A.CellFor, A.Around, EntitiesOf, AllPlaced;
      if c in players {
        return Err(PlayerExists);
      }
      if pid in playerIds {
        return Err(PidExists);
      }
      var player := WorldPlayer(pid, c, M.ORIGIN, 0);
      OriginPlaced(aoi.size);
      var added := aoi.AddEntity(c, AoiPosition(player.position));
      IndexedWith(players, playerIds, player);
      EntitiesWith(aoi.size, players, c, player);
      players := players[c := player];
      playerIds := playerIds[pid := c];
      assert Valid();
      var nearby := NearbyPlayers(c);
      r := Ok((player, nearby));
    }

    method RemovePlayerWithVisibility(c: uint32) returns (r: Result<(WorldPlayer, seq<WorldPlayer>), WorldError>)
      requires Valid()
      modifies this, aoi
      ensures Valid()
      ensures r.Ok? <==> c in old(players)
      ensures r.Err? ==> r == Err(PlayerNotFound)
      ensures players == old(players) - {c}
      ensures r.Ok? ==>
                && r.value.0 == old(players)[c]
                && PlayerList(r.value.1, old(players), Sees(aoi.size, old(players), c))
    {
      hide FloatValue, PlayerList, A.CellFor, A.Around, EntitiesOf, AllPlaced;
      if c !in players {
        return Err(PlayerNotFound);
      }
      var player := players[c];
      var nearby := NearbyPlayers(c);
      var removed := aoi.RemoveEntity(c);
      IndexedWithout(players, playerIds, c);
      EntitiesWithout(aoi.size, players, c);
      players := players - {c};
      playerIds := playerIds - {player.pid};
      r := Ok((player, nearby));
    }

    /** A move to a position outside the world, or not finite, is rejected and changes nothing. */
    method UpdatePlayerWithVisibility(c: uint32, position: M.Position, actionData: M.int32)
        returns (r: Result<MoveResult, WorldError>)
      requires Valid()
      modifies this, aoi
      ensures Valid()
      ensures r.Ok? <==> c in old(players) && A.CellFor(aoi.size, AoiPosition(position)).Ok?
      ensures c !in old(players) ==> r == Err(PlayerNotFound)
      ensures r.Err? ==> players == old(players) && playerIds == old(playerIds)
      ensures r.Ok? ==>
                && r.value.player == old(players)[c].(position := position, actionData := actionData)
                && players == old(players)[c := r.value.player]
                && var older, newer := Sees(aoi.size, old(players), c), Sees(aoi.size, players, c);
                   && PlayerList(r.value.entered, players, newer - older)
                   && PlayerList(r.value.left, players, older - newer)
                   && PlayerList(r.value.visible, players, newer)
    {
      hide FloatValue, PlayerList, A.CellFor, A.Around, EntitiesOf, AllPlaced;
      if c !in players {
        return Err(PlayerNotFound);
      }
      ghost var before := players;
      var change := aoi.MoveEntity(c, AoiPosition(position));
      if change.Err? {
        return Err(Aoi(change.error));
      }
      var player := players[c].(position := position, actionData := actionData);
      IndexedWith(players, playerIds, player);
      EntitiesWith(aoi.size, players, c, player);
      players := players[c := player];
      ghost var older, newer := Sees(aoi.size, before, c), Sees(aoi.size, players, c);
      var entered := PlayersFromIds(change.value.entered, newer - older);
      var left := PlayersFromIds(change.value.left, older - newer);
      var visible := NearbyPlayers(c);
      r := Ok(MoveResult(player, entered, left, visible));
    }
  }

  /** A world of any positive size has a place for the origin. */
  lemma OriginPlaced(z: A.Size)
    requires A.PositiveSize(z)
    ensures A.CellFor(z, AoiPosition(M.ORIGIN)).Ok?
  {
    hide Pow2;
    assert FloatValue(0) == A.Finite(0.0) by {
      var p := Pow2(-149);
      assert 1.0 * 0 as real * p == 0.0;
    }
    assert 0.0 / z.cellWidth == 0.0 && 0.0 / z.cellHeight == 0.0;
  }

  // Seeing as a matter of distance on the ground

  /** Two players that differ by at most the cell sizes in x and z see each other, whatever their height and heading;
      players that see each other differ by less than two. */
  lemma SeesByDistance(z: A.Size, players: map<uint32, WorldPlayer>, c: uint32, k: uint32)
    requires AllPlaced(z, players) && c in players && k in players && c != k
    ensures var p, q := players[c].position, players[k].position;
            && FloatValue(p.x).Finite? && FloatValue(p.z).Finite? && FloatValue(q.x).Finite? && FloatValue(q.z).Finite?
            && var dx, dz := FloatValue(p.x).v - FloatValue(q.x).v, FloatValue(p.z).v - FloatValue(q.z).v;
               && (-z.cellWidth <= dx <= z.cellWidth && -z.cellHeight <= dz <= z.cellHeight ==>
                     k in Sees(z, players, c))
               && (k in Sees(z, players, c) ==>
                     -2.0 * z.cellWidth < dx < 2.0 * z.cellWidth && -2.0 * z.cellHeight < dz < 2.0 * z.cellHeight)
  {
    hide FloatValue;
    A.CellDistance(z, AoiPosition(players[c].position), AoiPosition(players[k].position));
  }

  // Float32 patterns

  lemma {:induction false} PowersPositive(n: int)
    ensures Pow2(n) > 0.0 && Pow2(n + 1) == 2.0 * Pow2(n)
    decreases if n < 0 then -n else n
  {
    if n > 0 {
      PowersPositive(n - 1);
    } else if n < 0 {
      PowersPositive(n + 1);
    }
  }

  function Exponent(bits: uint32): nat { bits / 0x80_0000 % 0x100 }

  function Fraction(bits: uint32): nat { bits % 0x80_0000 }

  /** A pattern and its exponent and fraction, without the sign. */
  lemma Parts(bits: uint32)
    requires bits < 0x8000_0000
    ensures bits == Exponent(bits) * 0x80_0000 + Fraction(bits) && Exponent(bits) < 0x100 && Fraction(bits) < 0x80_0000
  {
  }

  /** The next pattern is the next number. */
  lemma NextIsGreater(bits: uint32)
    requires bits + 1 < 0x7F80_0000
    ensures FloatValue(bits).Finite? && FloatValue(bits + 1).Finite?
    ensures FloatValue(bits).v < FloatValue(bits + 1).v
  {
    hide Pow2;
    Parts(bits);
    Parts(bits + 1);
    var e: int, f: int := Exponent(bits), Fraction(bits);
    PowersPositive(-149);
    PowersPositive(e - 150);
    var p := if e == 0 then Pow2(-149) else Pow2(e - 150);
    if f + 1 < 0x80_0000 {
      NextParts(bits, e, f);
      Grows(f, f + 1, p);
      Grows(0x80_0000 + f, 0x80_0000 + f + 1, p);
    } else {
      CarryParts(bits, e);
      Grows(0x7F_FFFF, 0x80_0000, p);
      Grows(0xFF_FFFF, 0x100_0000, p);
    }
  }

  lemma NextParts(bits: uint32, e: nat, f: nat)
    requires bits == e * 0x80_0000 + f && f + 1 < 0x80_0000 && e < 0x100
    ensures Exponent(bits + 1) == e && Fraction(bits + 1) == f + 1
  {
  }

  lemma CarryParts(bits: uint32, e: nat)
    requires bits == e * 0x80_0000 + 0x7F_FFFF && e < 0xFF
    ensures Exponent(bits + 1) == e + 1 && Fraction(bits + 1) == 0
  {
  }

  lemma Grows(m: nat, n: nat, p: real)
    requires m < n && p > 0.0
    ensures m as real * p < n as real * p
  {
    var d := n as real - m as real;
    assert d * p >= p;
    assert d * p == n as real * p - m as real * p;
  }

  /** The patterns of finite numbers are ordered as the numbers are. */
  lemma {:induction false} FloatsAreOrdered(a: uint32, b: uint32)
    requires a < b < 0x7F80_0000
    ensures FloatValue(a).Finite? && FloatValue(b).Finite? && FloatValue(a).v < FloatValue(b).v
    decreases b - a
  {
    hide FloatValue;
    NextIsGreater(b - 1);
    if a < b - 1 {
      FloatsAreOrdered(a, b - 1);
    }
  }

  lemma {:induction false} PowersCancel(n: int)
    requires n >= 0
    ensures Pow2(n) * Pow2(-n) == 1.0
  {
    if n > 0 {
      PowersCancel(n - 1);
      PowersPositive(-n);
      var a, b := Pow2(n - 1), Pow2(-n);
      assert Pow2(n) == 2.0 * a && Pow2(-n + 1) == 2.0 * b;
      assert (2.0 * a) * b == a * (2.0 * b);
    }
  }

  /** One is where it belongs, the sign bit negates, and the next exponent doubles: with the order, that fixes what the
      patterns stand for. */
  lemma FloatLandmarks(bits: uint32)
    ensures FloatValue(0) == A.Finite(0.0) && FloatValue(0x3F80_0000) == A.Finite(1.0)
    ensures bits < 0x7F80_0000 ==>
              FloatValue(bits).Finite? && FloatValue(bits + 0x8000_0000) == A.Finite(-FloatValue(bits).v)
    ensures 0x80_0000 <= bits < 0x7F00_0000 ==>
              FloatValue(bits).Finite? && FloatValue(bits + 0x80_0000) == A.Finite(2.0 * FloatValue(bits).v)
    ensures 0x7F80_0000 <= bits < 0x8000_0000 || 0xFF80_0000 <= bits ==> FloatValue(bits).NotFinite?
  {
    FloatOne();
    hide Pow2;
    if bits < 0x7F80_0000 {
      SignParts(bits);
    }
    if 0x80_0000 <= bits < 0x7F00_0000 {
      DoubleParts(bits);
      var e: int := Exponent(bits);
      PowersPositive(e - 150);
    }
    assert 1.0 * 0 as real * Pow2(-149) == 0.0;
  }

  lemma SignParts(bits: uint32)
    requires bits < 0x7F80_0000
    ensures (bits + 0x8000_0000) / 0x80_0000 % 0x100 == bits / 0x80_0000 % 0x100 != 0xFF
    ensures (bits + 0x8000_0000) % 0x80_0000 == bits % 0x80_0000
  {
    Parts(bits);
  }

  lemma DoubleParts(bits: uint32)
    requires 0x80_0000 <= bits < 0x7F00_0000
    ensures (bits + 0x80_0000) / 0x80_0000 % 0x100 == bits / 0x80_0000 % 0x100 + 1 < 0xFF
    ensures bits / 0x80_0000 % 0x100 > 0
    ensures (bits + 0x80_0000) % 0x80_0000 == bits % 0x80_0000
  {
    Parts(bits);
  }

  lemma FloatOne()
    ensures FloatValue(0x3F80_0000) == A.Finite(1.0)
  {
    PowersCancel(23);
    Pow23();
    hide Pow2;
    var p := Pow2(-23);
    assert 1.0 * 0x80_0000 as real * p == 1.0;
  }

  lemma Pow23()
    ensures Pow2(23) == 0x80_0000 as real
  {
    assert Pow2(4) == 16.0;
    assert Pow2(8) == 256.0;
    assert Pow2(12) == 4096.0;
    assert Pow2(16) == 65536.0;
    assert Pow2(20) == 1048576.0;
  }
}
