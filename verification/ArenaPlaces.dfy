/** Who is where in the arenas of examples/webgame/server/world.go, and the names of guests: what room
    members, grid entities and guest names must be, given players and sessions. */
module ArenaPlaces {
  import opened Binary
  import opened Options
  import opened ArenaSim
  import S = SessionTable
  import A = AoiGrid

  const SIZE := A.Size(WORLD_WIDTH, WORLD_HEIGHT, 160.0, 135.0)
  const CAPACITY := 8

  function Place(p: Player): A.Position { A.Position(A.Finite(p.x), A.Finite(p.y)) }

  /** Every place in the box is inside the world of the grid. */
  lemma BoxIsPlaced(p: Player)
    requires InBox(p)
    ensures A.PositiveSize(SIZE) && A.CellFor(SIZE, Place(p)).Ok?
  {
  }

  /** A player is in no room or in one of the two, in the box if it is in one, and never asks to be faster
      than allowed. */
  predicate Tuned(players: map<uint32, Player>) {
    forall c :: c in players ==>
      players[c].roomId <= 2 && (players[c].roomId != 0 ==> InBox(players[c])) && UnitSpeed(players[c])
  }

  function MembersOf(players: map<uint32, Player>, r: uint32): set<uint32> {
    set c | c in players && players[c].roomId == r
  }

  function EntityOf(p: Player): A.Entity
    requires InBox(p)
  {
    BoxIsPlaced(p);
    A.Entity(Place(p), A.CellFor(SIZE, Place(p)).value)
  }

  function EntitiesOf(players: map<uint32, Player>, r: uint32): map<uint32, A.Entity>
    requires Tuned(players) && r != 0
  {
    map c | c in players && players[c].roomId == r :: EntityOf(players[c])
  }

  lemma MembersWith(players: map<uint32, Player>, c: uint32, p: Player, r: uint32)
    ensures MembersOf(players[c := p], r) == MembersOf(players, r) - {c} + if p.roomId == r then {c} else {}
  {
  }

  lemma EntitiesWith(players: map<uint32, Player>, c: uint32, p: Player, r: uint32)
    requires Tuned(players) && Tuned(players[c := p]) && r != 0 && (p.roomId != 0 ==> InBox(p))
    ensures EntitiesOf(players[c := p], r)
            == if p.roomId == r then EntitiesOf(players, r)[c := EntityOf(p)] else EntitiesOf(players, r) - {c}
  {
    hide EntityOf, InBox, UnitSpeed;
    assert players[c := p][c] == p;
  }

  lemma TunedWith(players: map<uint32, Player>, c: uint32, p: Player)
    requires Tuned(players) && p.roomId <= 2 && (p.roomId != 0 ==> InBox(p)) && UnitSpeed(p)
    ensures Tuned(players[c := p])
  {
    hide InBox, UnitSpeed;
  }

  lemma WithoutOutsider(players: map<uint32, Player>, c: uint32, r: uint32)
    requires Tuned(players) && r != 0 && (c in players ==> players[c].roomId != r)
    ensures Tuned(players - {c}) && MembersOf(players - {c}, r) == MembersOf(players, r)
    ensures EntitiesOf(players - {c}, r) == EntitiesOf(players, r)
  {
    hide EntityOf, InBox, UnitSpeed;
  }

  // What operations do to a player

  function NewPlayer(now: int): Player { Player("", 0.0, 0.0, 0, 0, 0, 0.0, 0.0, None, now) }

  function Gone(p: Player): Player { p.(roomId := 0, dx := 0.0, dy := 0.0) }

  function Entered(p: Player, r: uint32): Player {
    p.(roomId := r, x := 130.0, y := 270.0, score := 0, dx := 0.0, dy := 0.0)
  }

  lemma GoneIsTuned(p: Player)
    ensures UnitSpeed(Gone(p)) && Gone(p).roomId == 0 && Gone(Gone(p)) == Gone(p)
  {
  }

  lemma EnteredIsTuned(p: Player, r: uint32)
    ensures UnitSpeed(Entered(p, r)) && InBox(Entered(p, r)) && Entered(p, r).roomId == r
    ensures Entered(Gone(p), r) == Entered(p, r)
  {
  }

  /** These players leave their arenas and are told to stop. */
  function Dismiss(s: Sim, gone: set<uint32>): Sim {
    s.(players := map c | c in s.players :: if c in gone then Gone(s.players[c]) else s.players[c],
       stopped := s.stopped + gone)
  }

  /** The players whose session has expired. */
  function ExpiredConns(t: S.Table, players: map<uint32, Player>, now: int): set<uint32> {
    set k | k in t && t[k].bound && S.Expired(t[k], now) && t[k].connId in players :: t[k].connId
  }

  // Guests

  function Digit(d: nat): char
    requires d < 10
  {
    '0' + d as char
  }

  /** %d */
  function Decimal(n: nat): string {
    if n < 10 then [Digit(n)] else Decimal(n / 10) + [Digit(n % 10)]
  }

  function GuestAccount(n: nat): string { "webguest-" + Decimal(n) }

  lemma {:induction false} DecimalInjective(m: nat, n: nat)
    requires Decimal(m) == Decimal(n)
    ensures m == n
    decreases m
  {
    var a, b := Decimal(m), Decimal(n);
    assert a[|a| - 1] == Digit(m % 10) && b[|b| - 1] == Digit(n % 10);
    DecimalLength(m);
    DecimalLength(n);
    if m >= 10 {
      assert a[..|a| - 1] == Decimal(m / 10) && b[..|b| - 1] == Decimal(n / 10);
      DecimalInjective(m / 10, n / 10);
    }
  }

  lemma {:induction false} DecimalLength(n: nat)
    ensures |Decimal(n)| >= 1 && (n >= 10 ==> |Decimal(n)| >= 2)
  {
    if n >= 10 {
      DecimalLength(n / 10);
    }
  }

  /** Guests with different numbers have different accounts. */
  lemma GuestAccountInjective(m: nat, n: nat)
    requires GuestAccount(m) == GuestAccount(n)
    ensures m == n
  {
    assert GuestAccount(m)[9..] == Decimal(m) && GuestAccount(n)[9..] == Decimal(n);
    DecimalInjective(m, n);
  }

  /** The players with a name are exactly those with a session, and each has the account of its number. */
  predicate NamesMatch(t: S.Table, names: map<uint64, string>) {
    && (forall k :: k in t ==> t[k].playerId in names && t[k].accountId == GuestAccount(t[k].playerId))
    && (forall n :: n in names ==> names[n] != "" && S.HasPlayer(t, n))
  }

  lemma NamesLess(t: S.Table, names: map<uint64, string>, k: S.Token)
    requires S.Unique(t) && NamesMatch(t, names) && k in t
    ensures NamesMatch(t - {k}, names - {t[k].playerId})
  {
    forall n | n in names - {t[k].playerId} ensures S.HasPlayer(t - {k}, n) {
      var j :| j in t && t[j].playerId == n;
      assert j in t - {k};
    }
  }

  lemma NamesIssue(t: S.Table, names: map<uint64, string>, token: S.Token, v: S.Session, name: string)
    requires NamesMatch(t, names) && token !in t && name != "" && v.accountId == GuestAccount(v.playerId)
    ensures NamesMatch(S.WithoutAccount(t, v.accountId)[token := v], names[v.playerId := name])
  {
    hide GuestAccount, S.HasPlayer;
    var after := S.WithoutAccount(t, v.accountId)[token := v];
    assert forall k :: k in after ==> k == token || (k in t && after[k] == t[k]);
    forall n | n in names[v.playerId := name] ensures S.HasPlayer(after, n) {
      if n == v.playerId {
        OwnPlayer(after, token);
      } else {
        OtherPlayer(t, names, token, v, n);
      }
    }
  }

  lemma OwnPlayer(t: S.Table, token: S.Token)
    requires token in t
    ensures S.HasPlayer(t, t[token].playerId)
  {
  }

  lemma OtherPlayer(t: S.Table, names: map<uint64, string>, token: S.Token, v: S.Session, n: uint64)
    requires NamesMatch(t, names) && token !in t && v.accountId == GuestAccount(v.playerId)
    requires n in names && n != v.playerId
    ensures S.HasPlayer(S.WithoutAccount(t, v.accountId)[token := v], n)
  {
    hide GuestAccount;
    var j :| j in t && t[j].playerId == n;
    if t[j].accountId == v.accountId {
      GuestAccountInjective(n, v.playerId);
    }
    assert S.WithoutAccount(t, v.accountId)[token := v][j] == t[j];
  }

  lemma NamesBind(t: S.Table, names: map<uint64, string>, token: S.Token, v: S.Session)
    requires NamesMatch(t, names) && token in t && v.playerId == t[token].playerId && v.accountId == t[token].accountId
    ensures NamesMatch(t[token := v], names)
  {
    var after := t[token := v];
    forall n | n in names ensures S.HasPlayer(after, n) {
      var j :| j in t && t[j].playerId == n;
      assert j in after && after[j].playerId == n;
    }
  }

  /** After a sweep of sessions, only the names of the living are left. */
  lemma NamesSweep(t: S.Table, names: map<uint64, string>, now: int, gone: set<uint64>)
    requires S.Unique(t) && NamesMatch(t, names)
    requires forall n :: n in gone <==> exists k :: k in t && t[k].playerId == n && S.Expired(t[k], now)
    ensures NamesMatch(S.Living(t, now), names - gone)
  {
    var after := S.Living(t, now);
    forall k | k in after ensures after[k].playerId in names - gone {
      assert t[k].playerId !in gone;
    }
    forall n | n in names - gone ensures S.HasPlayer(after, n) {
      var j :| j in t && t[j].playerId == n;
      assert j in after;
    }
  }

  /** No live session has this player number. */
  predicate NumberFree(t: S.Table, n: uint64, now: int) {
    n != 0 && !exists k :: k in t && t[k].playerId == n && !S.Expired(t[k], now)
  }

  /** When a guest can be given a session: the account policy rejects only a number that is zero, after the
      counter has wrapped, or still in use. */
  lemma GuestIssue(s: S.State, token: S.Token, n: uint64, ttl: int, now: int, names: map<uint64, string>)
    requires S.Unique(s.table) && NamesMatch(s.table, names) && s.policy == S.RejectExisting && ttl > 0
    ensures S.IssueError(s, Some(token), GuestAccount(n), n, ttl, now).None?
            <==> NumberFree(s.table, n, now)
  {
    assert |GuestAccount(n)| > 0;
    forall k | k in s.table && s.table[k].accountId == GuestAccount(n) ensures s.table[k].playerId == n {
      GuestAccountInjective(s.table[k].playerId, n);
    }
  }
}
