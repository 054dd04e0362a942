/** The fixed-step simulation of examples/webgame/server/world.go: what one step does to players and
    crystals, over exact numbers. Times are nanoseconds. */
module ArenaSim {
  import opened Binary
  import opened Options
  import opened Sorting

  const WORLD_WIDTH: real := 960.0
  const WORLD_HEIGHT: real := 540.0
  const TICK_RATE: real := 20.0
  const MARGIN: real := 24.0
  const SPEED: real := 180.0
  const SECOND: int := 1_000_000_000
  const INPUT_LIFE: int := 250_000_000
  const RESPAWN: int := 5 * SECOND

  datatype Crystal = Crystal(id: nat, x: real, y: real)

  const CRYSTALS: seq<Crystal> := [
    Crystal(1, 250.0, 270.0), Crystal(2, 410.0, 150.0), Crystal(3, 480.0, 390.0), Crystal(4, 640.0, 270.0),
    Crystal(5, 780.0, 130.0), Crystal(6, 810.0, 420.0), Crystal(7, 150.0, 100.0), Crystal(8, 140.0, 430.0)]

  datatype Player = Player(
    name: string, x: real, y: real, score: int, seqNo: uint32, roomId: uint32,
    dx: real, dy: real, inputAt: Option<int>, connectedAt: int)

  /** A crystal taken by a player. */
  datatype Collection = Collection(room: uint32, crystal: nat, time: int, player: uint32)

  /** Players by connection, the hidden crystals of each arena with the time they come back, everything that
      was ever collected, and the connections that were told to stop. */
  datatype Sim = Sim(players: map<uint32, Player>, respawn: map<uint32, map<nat, int>>, log: seq<Collection>,
                     stopped: set<uint32>)

  // Motion

  function Clamp(low: real, high: real, v: real): real {
    if v < low then low else if high < v then high else v
  }

  function Moved(p: Player, now: int): Player {
    if p.inputAt.Some? && now - p.inputAt.value <= INPUT_LIFE then
      p.(x := Clamp(MARGIN, WORLD_WIDTH - MARGIN, p.x + p.dx * SPEED / TICK_RATE),
         y := Clamp(MARGIN, WORLD_HEIGHT - MARGIN, p.y + p.dy * SPEED / TICK_RATE))
    else p
  }

  predicate InBox(p: Player) {
    MARGIN <= p.x <= WORLD_WIDTH - MARGIN && MARGIN <= p.y <= WORLD_HEIGHT - MARGIN
  }

  function Square(v: real): real { v * v }

  /** The speed that input asks for never exceeds one. */
  predicate UnitSpeed(p: Player) { Square(p.dx) + Square(p.dy) <= 1.0 }

  lemma SquareMonotone(a: real, b: real)
    requires 0.0 <= a <= b || b <= a <= 0.0
    ensures Square(a) <= Square(b)
  {
    var d := b - a;
    assert Square(b) == Square(a) + 2.0 * (a * d) + Square(d);
    assert a * d >= 0.0 by {
      if a <= 0.0 {
        var m, n := -a, -d;
        assert m * n >= 0.0;
        assert a * d == m * n;
      }
    }
    assert Square(d) >= 0.0;
  }

  /** One step moves a player at most 9 units, and keeps it in the box. */
  lemma StepLength(p: Player, now: int)
    requires InBox(p) && UnitSpeed(p)
    ensures InBox(Moved(p, now)) && UnitSpeed(Moved(p, now))
    ensures Square(Moved(p, now).x - p.x) + Square(Moved(p, now).y - p.y) <= 81.0
  {
    var m := Moved(p, now);
    var a, b := p.dx * 9.0, p.dy * 9.0;
    assert p.dx * SPEED / TICK_RATE == a && p.dy * SPEED / TICK_RATE == b;
    assert Square(a) == 81.0 * Square(p.dx) && Square(b) == 81.0 * Square(p.dy);
    SquareMonotone(m.x - p.x, a);
    SquareMonotone(m.y - p.y, b);
  }

  /** The direction of an accepted input; length is the value of math.Hypot(dx, dy). */
  function Direction(dx: real, dy: real, length: real): (real, real) {
    if length > 1.0 then (dx / length, dy / length) else (dx, dy)
  }

  lemma DirectionIsUnit(dx: real, dy: real, length: real)
    requires length >= 0.0 && length * length == Square(dx) + Square(dy)
    ensures Square(Direction(dx, dy, length).0) + Square(Direction(dx, dy, length).1) <= 1.0
  {
    if length > 1.0 {
      var x, y := dx / length, dy / length;
      assert x * length == dx && y * length == dy;
      var l2 := length * length;
      assert Square(dx) == Square(x) * l2 by { Scale(x, length, dx); }
      assert Square(dy) == Square(y) * l2 by { Scale(y, length, dy); }
      var s := Square(x) + Square(y);
      assert s * l2 == l2;
      assert l2 > 0.0;
      Cancel(s, l2);
    } else {
      SquareMonotone(length, 1.0);
    }
  }

  lemma Scale(x: real, l: real, d: real)
    requires x * l == d
    ensures Square(d) == Square(x) * (l * l)
  {
    assert Square(d) == (x * l) * (x * l);
    assert (x * l) * (x * l) == (x * x) * (l * l);
  }

  lemma Cancel(s: real, l: real)
    requires s * l == l && l > 0.0
    ensures s == 1.0
  {
    assert s * l / l == s;
    assert l / l == 1.0;
  }

  // Crystals

  predicate InReach(p: Player, c: Crystal) { Square(p.x - c.x) + Square(p.y - c.y) <= 25.0 * 25.0 }

  /** The crystals a player takes, in the order of the list. */
  function Taken(p: Player, cs: seq<Crystal>, hidden: map<nat, int>): seq<nat> {
    if cs == [] then []
    else if && cs[|cs| - 1].id !in hidden && cs[|cs| - 1].id !in Taken(p, cs[..|cs| - 1], hidden)
            && InReach(p, cs[|cs| - 1])
      then Taken(p, cs[..|cs| - 1], hidden) + [cs[|cs| - 1].id]
    else Taken(p, cs[..|cs| - 1], hidden)
  }

  function Hide(hidden: map<nat, int>, taken: seq<nat>, until: int): map<nat, int> {
    hidden + map c | c in taken :: until
  }

  function Entries(room: uint32, taken: seq<nat>, now: int, player: uint32): seq<Collection> {
    seq(|taken|, i requires 0 <= i < |taken| => Collection(room, taken[i], now, player))
  }

  predicate LateToAuthenticate(p: Player, now: int) { p.name == "" && now - p.connectedAt > 10 * SECOND }

  /** One player's turn in a step. */
  function Visit(s: Sim, id: uint32, now: int): Sim
    requires id in s.players
  {
    var p := s.players[id];
    if LateToAuthenticate(p, now) then s.(stopped := s.stopped + {id})
    else if p.roomId !in s.respawn then s
    else
      var m := Moved(p, now);
      var taken := Taken(m, CRYSTALS, s.respawn[p.roomId]);
      s.(players := s.players[id := m.(score := m.score + |taken|)],
         respawn := s.respawn[p.roomId := Hide(s.respawn[p.roomId], taken, now + RESPAWN)],
         log := s.log + Entries(p.roomId, taken, now, id))
  }

  function VisitAll(s: Sim, order: seq<uint32>, now: int): (after: Sim)
    requires forall i :: 0 <= i < |order| ==> order[i] in s.players
    ensures after.players.Keys == s.players.Keys && after.respawn.Keys == s.respawn.Keys
  {
    if order == [] then s
    else Visit(VisitAll(s, order[..|order| - 1], now), order[|order| - 1], now)
  }

  /** The crystals that are still hidden. */
  function StillHidden(hidden: map<nat, int>, now: int): map<nat, int> {
    map c | c in hidden && now < hidden[c] :: hidden[c]
  }

  function EndStep(s: Sim, now: int): Sim {
    s.(respawn := map r | r in s.respawn :: StillHidden(s.respawn[r], now))
  }

  /** A step after the sessions have been swept. */
  function Tick(s: Sim, order: seq<uint32>, now: int): Sim
    requires forall i :: 0 <= i < |order| ==> order[i] in s.players
  {
    EndStep(VisitAll(s, order, now), now)
  }

  // How often a crystal can be taken

  /** clock is the time of the last step. A crystal that is not hidden has not been taken for five seconds;
      a hidden one stays hidden for five seconds after it was last taken; and any two times it was taken are
      five seconds apart. */
  predicate CrystalInv(s: Sim, clock: int) {
    && (forall i :: 0 <= i < |s.log| ==> s.log[i].room in s.respawn)
    && (forall i :: 0 <= i < |s.log| && s.log[i].crystal in s.respawn[s.log[i].room] ==>
          s.log[i].time + RESPAWN <= s.respawn[s.log[i].room][s.log[i].crystal])
    && (forall i :: 0 <= i < |s.log| && s.log[i].crystal !in s.respawn[s.log[i].room] ==>
          s.log[i].time + RESPAWN <= clock)
    && FiveSecondsApart(s.log) && OnlyThese(s.log, CRYSTALS)
  }

  /** Only these crystals were ever taken. */
  predicate OnlyThese(log: seq<Collection>, cs: seq<Crystal>) {
    forall i :: 0 <= i < |log| ==> IsOneOf(log[i].crystal, cs)
  }

  predicate IsOneOf(c: nat, cs: seq<Crystal>) { exists k :: 0 <= k < |cs| && cs[k].id == c }

  predicate FiveSecondsApart(log: seq<Collection>) {
    forall i, j :: 0 <= i < j < |log| && log[i].room == log[j].room && log[i].crystal == log[j].crystal ==>
      log[i].time + 5_000_000_000 <= log[j].time
  }

  /** A player takes only crystals that are not hidden, and each once. */
  lemma {:induction false} TakenAreNew(p: Player, cs: seq<Crystal>, hidden: map<nat, int>)
    ensures forall i :: 0 <= i < |Taken(p, cs, hidden)| ==> Taken(p, cs, hidden)[i] !in hidden
    ensures forall i, j :: 0 <= i < j < |Taken(p, cs, hidden)| ==> Taken(p, cs, hidden)[i] != Taken(p, cs, hidden)[j]
    ensures forall c :: c in Taken(p, cs, hidden) ==> IsOneOf(c, cs)
  {
    if cs != [] {
      hide InReach;
      var rest := Taken(p, cs[..|cs| - 1], hidden);
      TakenAreNew(p, cs[..|cs| - 1], hidden);
      forall c | c in Taken(p, cs, hidden) ensures IsOneOf(c, cs) {
        if c in rest {
          assert IsOneOf(c, cs[..|cs| - 1]);
          var i :| 0 <= i < |cs| - 1 && cs[..|cs| - 1][i].id == c;
          assert cs[i].id == c;
        }
      }
    }
  }

  lemma TakeKeeps(s: Sim, room: uint32, taken: seq<nat>, player: uint32, clock: int, now: int)
    requires CrystalInv(s, clock) && clock <= now && room in s.respawn
    requires forall i :: 0 <= i < |taken| ==> taken[i] !in s.respawn[room]
    requires forall i, j :: 0 <= i < j < |taken| ==> taken[i] != taken[j]
    requires forall c :: c in taken ==> IsOneOf(c, CRYSTALS)
    ensures CrystalInv(s.(respawn := s.respawn[room := Hide(s.respawn[room], taken, now + RESPAWN)],
                          log := s.log + Entries(room, taken, now, player)), clock)
  {
    hide FiveSecondsApart, OnlyThese, Hide, Entries, IsOneOf;
    var entries := Entries(room, taken, now, player);
    NewEntries(s.respawn[room], room, taken, now, player);
    forall i | 0 <= i < |s.log| && s.log[i].room == room && s.log[i].crystal in taken
      ensures s.log[i].time + RESPAWN <= clock
    {
      var k :| 0 <= k < |taken| && taken[k] == s.log[i].crystal;
    }
    TakeApart(s.log, entries, room, taken, now);
    TakeOnly(s.log, entries, taken);
    var hidden := Hide(s.respawn[room], taken, now + RESPAWN);
    forall i | 0 <= i < |s.log + entries|
      ensures Rests((s.log + entries)[i], s.respawn[room := hidden], clock)
    {
      if i < |s.log| {
        RestsStill(s.log[i], s.respawn, room, taken, hidden, clock, now);
      } else {
        assert (s.log + entries)[i] == entries[i - |s.log|];
      }
    }
  }

  /** An entry whose crystal is hidden for five seconds from its time, or was taken five seconds ago. */
  predicate Rests(e: Collection, respawn: map<uint32, map<nat, int>>, clock: int) {
    && e.room in respawn
    && if e.crystal in respawn[e.room] then e.time + RESPAWN <= respawn[e.room][e.crystal]
       else e.time + RESPAWN <= clock
  }

  lemma RestsStill(e: Collection, respawn: map<uint32, map<nat, int>>, room: uint32, taken: seq<nat>,
                   hidden: map<nat, int>, clock: int, now: int)
    requires Rests(e, respawn, clock) && room in respawn && clock <= now
    requires e.room == room && e.crystal in taken ==> e.time + RESPAWN <= clock
    requires forall c :: c in taken ==> c in hidden && hidden[c] == now + RESPAWN
    requires forall c :: c !in taken ==>
               (c in hidden <==> c in respawn[room]) && (c in hidden ==> hidden[c] == respawn[room][c])
    ensures Rests(e, respawn[room := hidden], clock)
  {
  }

  lemma NewEntries(before: map<nat, int>, room: uint32, taken: seq<nat>, now: int, player: uint32)
    ensures var hidden := Hide(before, taken, now + RESPAWN);
            && (forall c :: c in taken ==> c in hidden && hidden[c] == now + RESPAWN)
            && (forall c :: c !in taken ==> (c in hidden <==> c in before) && (c in hidden ==> hidden[c] == before[c]))
            && |Entries(room, taken, now, player)| == |taken|
    ensures forall i :: 0 <= i < |taken| ==>
              Entries(room, taken, now, player)[i] == Collection(room, taken[i], now, player) && taken[i] in taken
  {
  }

  /** Crystals taken now are taken once each, and were last taken five seconds ago. */
  lemma TakeApart(log: seq<Collection>, entries: seq<Collection>, room: uint32, taken: seq<nat>, now: int)
    requires FiveSecondsApart(log) && |entries| == |taken|
    requires forall i :: 0 <= i < |taken| ==>
               entries[i].room == room && entries[i].crystal == taken[i] && entries[i].time == now
    requires forall i, j :: 0 <= i < j < |taken| ==> taken[i] != taken[j]
    requires forall i :: 0 <= i < |log| && log[i].room == room && log[i].crystal in taken ==>
               log[i].time + RESPAWN <= now
    ensures FiveSecondsApart(log + entries)
  {
    var all := log + entries;
    forall i, j | 0 <= i < j < |all| && all[i].room == all[j].room && all[i].crystal == all[j].crystal
      ensures all[i].time + RESPAWN <= all[j].time
    {
      assert j >= |log| ==> all[j] == entries[j - |log|] && all[j].crystal == taken[j - |log|];
    }
  }

  lemma TakeOnly(log: seq<Collection>, entries: seq<Collection>, taken: seq<nat>)
    requires OnlyThese(log, CRYSTALS) && |entries| == |taken|
    requires forall i :: 0 <= i < |taken| ==> entries[i].crystal == taken[i]
    requires forall c :: c in taken ==> IsOneOf(c, CRYSTALS)
    ensures OnlyThese(log + entries, CRYSTALS)
  {
    hide IsOneOf;
    var all := log + entries;
    forall i | 0 <= i < |all| ensures IsOneOf(all[i].crystal, CRYSTALS) {
      if i >= |log| {
        assert all[i] == entries[i - |log|] && taken[i - |log|] in taken;
      }
    }
  }

  lemma VisitKeeps(s: Sim, id: uint32, clock: int, now: int)
    requires CrystalInv(s, clock) && clock <= now && id in s.players
    ensures CrystalInv(Visit(s, id, now), clock)
  {
    hide Moved, Taken, Hide;
    var p := s.players[id];
    if !LateToAuthenticate(p, now) && p.roomId in s.respawn {
      var m := Moved(p, now);
      TakenAreNew(m, CRYSTALS, s.respawn[p.roomId]);
      TakeKeeps(s, p.roomId, Taken(m, CRYSTALS, s.respawn[p.roomId]), id, clock, now);
    }
  }

  lemma {:induction false} VisitAllKeeps(s: Sim, order: seq<uint32>, clock: int, now: int)
    requires CrystalInv(s, clock) && clock <= now && forall i :: 0 <= i < |order| ==> order[i] in s.players
    ensures CrystalInv(VisitAll(s, order, now), clock)
  {
    hide CrystalInv, Visit;
    if order != [] {
      VisitAllKeeps(s, order[..|order| - 1], clock, now);
      VisitKeeps(VisitAll(s, order[..|order| - 1], now), order[|order| - 1], clock, now);
    }
  }

  lemma TickKeeps(s: Sim, order: seq<uint32>, clock: int, now: int)
    requires CrystalInv(s, clock) && clock <= now && forall i :: 0 <= i < |order| ==> order[i] in s.players
    ensures CrystalInv(Tick(s, order, now), now)
  {
    hide VisitAll;
    VisitAllKeeps(s, order, clock, now);
  }

  /** What happens to a world: steps, and anything else that leaves crystals alone. */
  datatype Event = Step(order: seq<uint32>, now: int) | Other(players: map<uint32, Player>, stopped: set<uint32>)

  /** The steps visit connected players, and their times do not decrease. */
  predicate Possible(s: Sim, events: seq<Event>, clock: int)
    decreases |events|
  {
    events == [] ||
    match events[0]
    case Step(order, now) =>
      (forall i :: 0 <= i < |order| ==> order[i] in s.players) && clock <= now
      && Possible(Tick(s, order, now), events[1..], now)
    case Other(players, stopped) => Possible(s.(players := players, stopped := stopped), events[1..], clock)
  }

  function Run(s: Sim, events: seq<Event>, clock: int): Sim
    requires Possible(s, events, clock)
    decreases |events|
  {
    if events == [] then s
    else
      match events[0]
      case Step(order, now) => Run(Tick(s, order, now), events[1..], now)
      case Other(players, stopped) => Run(s.(players := players, stopped := stopped), events[1..], clock)
  }

  /** In any run, two collections of the same crystal are at least five seconds apart. In particular no step
      credits a crystal to two players. */
  lemma {:induction false} CrystalsRest(s: Sim, events: seq<Event>, clock: int)
    requires CrystalInv(s, clock) && Possible(s, events, clock)
    ensures FiveSecondsApart(Run(s, events, clock).log) && OnlyThese(Run(s, events, clock).log, CRYSTALS)
    decreases |events|
  {
    hide Tick;
    if events == [] {
    } else if events[0].Step? {
      TickKeeps(s, events[0].order, clock, events[0].now);
      CrystalsRest(Tick(s, events[0].order, events[0].now), events[1..], events[0].now);
    } else {
      CrystalsRest(s.(players := events[0].players, stopped := events[0].stopped), events[1..], clock);
    }
  }

  // Points in a window of time

  predicate Counts(e: Collection, room: uint32, from: int, to: int) { e.room == room && from <= e.time <= to }

  function CrystalPoints(log: seq<Collection>, room: uint32, c: nat, from: int, to: int): nat {
    if log == [] then 0
    else CrystalPoints(log[..|log| - 1], room, c, from, to)
         + if Counts(log[|log| - 1], room, from, to) && log[|log| - 1].crystal == c then 1 else 0
  }

  /** The points that can be made with these crystals. */
  function PointsOf(log: seq<Collection>, room: uint32, cs: seq<Crystal>, from: int, to: int): nat {
    if cs == [] then 0 else CrystalPoints(log, room, cs[0].id, from, to) + PointsOf(log, room, cs[1..], from, to)
  }

  lemma {:induction false} NoneAfter(log: seq<Collection>, room: uint32, c: nat, from: int, to: int, last: int)
    requires forall i :: 0 <= i < |log| && log[i].room == room && log[i].crystal == c ==> log[i].time <= last
    requires last <= to
    ensures CrystalPoints(log, room, c, from, to) == CrystalPoints(log, room, c, from, last)
  {
    if log != [] {
      NoneAfter(log[..|log| - 1], room, c, from, to, last);
    }
  }

  lemma {:induction false} CrystalBound(log: seq<Collection>, room: uint32, c: nat, from: int, to: int)
    requires FiveSecondsApart(log)
    ensures CrystalPoints(log, room, c, from, to) <= if from <= to then 1 + (to - from) / RESPAWN else 0
    decreases |log|
  {
    if log != [] {
      var n := |log| - 1;
      var before, e := log[..n], log[n];
      if Counts(e, room, from, to) && e.crystal == c {
        var last := e.time - RESPAWN;
        NoneAfter(before, room, c, from, to, last);
        CrystalBound(before, room, c, from, last);
        Steps(last - from, to - from);
      } else {
        CrystalBound(before, room, c, from, to);
      }
    }
  }

  lemma Steps(a: int, b: int)
    requires a + RESPAWN <= b
    ensures a >= 0 ==> 1 + a / RESPAWN <= b / RESPAWN
    ensures b >= 0 ==> b / RESPAWN >= 0
  {
    if a >= 0 {
      assert (a + RESPAWN) / RESPAWN == 1 + a / RESPAWN;
    }
  }

  /** k crystals yield at most k * (1 + T / 5s) points in any window of length T. */
  lemma {:induction false} WindowPoints(log: seq<Collection>, room: uint32, cs: seq<Crystal>, from: int, to: int)
    requires FiveSecondsApart(log) && from <= to
    ensures PointsOf(log, room, cs, from, to) <= |cs| * (1 + (to - from) / RESPAWN)
  {
    hide FiveSecondsApart;
    if cs != [] {
      var per := 1 + (to - from) / RESPAWN;
      CrystalBound(log, room, cs[0].id, from, to);
      WindowPoints(log, room, cs[1..], from, to);
      assert |cs| * per == per + |cs[1..]| * per;
    }
  }

  /** All points of an arena: its entries in the window. */
  function RoomPoints(log: seq<Collection>, room: uint32, from: int, to: int): nat {
    if log == [] then 0
    else RoomPoints(log[..|log| - 1], room, from, to) + if Counts(log[|log| - 1], room, from, to) then 1 else 0
  }

  predicate DifferentIds(cs: seq<Crystal>) { forall i, j :: 0 <= i < j < |cs| ==> cs[i].id != cs[j].id }

  lemma {:induction false} PointsSnoc(log: seq<Collection>, e: Collection, room: uint32, cs: seq<Crystal>, from: int,
                                      to: int)
    requires DifferentIds(cs)
    ensures PointsOf(log + [e], room, cs, from, to)
            == PointsOf(log, room, cs, from, to)
               + if Counts(e, room, from, to) && IsOneOf(e.crystal, cs) then 1 else 0
  {
    if cs != [] {
      assert (log + [e])[..|log|] == log;
      PointsSnoc(log, e, room, cs[1..], from, to);
      if k :| 0 <= k < |cs| && cs[k].id == e.crystal {
        if k > 0 {
          assert cs[1..][k - 1].id == e.crystal;
        } else {
          assert forall j :: 0 <= j < |cs[1..]| ==> cs[1..][j].id != cs[0].id;
        }
      }
    }
  }

  lemma {:induction false} PointsNothing(room: uint32, cs: seq<Crystal>, from: int, to: int)
    ensures PointsOf([], room, cs, from, to) == 0
  {
    if cs != [] {
      PointsNothing(room, cs[1..], from, to);
    }
  }

  lemma OnlyPrefix(log: seq<Collection>, n: nat, cs: seq<Crystal>)
    requires OnlyThese(log, cs) && n <= |log|
    ensures OnlyThese(log[..n], cs)
  {
    hide IsOneOf;
  }

  lemma {:induction false} RoomPointsByCrystal(log: seq<Collection>, room: uint32, cs: seq<Crystal>, from: int, to: int)
    requires OnlyThese(log, cs) && DifferentIds(cs)
    ensures RoomPoints(log, room, from, to) == PointsOf(log, room, cs, from, to)
  {
    hide DifferentIds;
    if log == [] {
      PointsNothing(room, cs, from, to);
    } else {
      var n := |log| - 1;
      OnlyPrefix(log, n, cs);
      RoomPointsByCrystal(log[..n], room, cs, from, to);
      assert log == log[..n] + [log[n]];
      PointsSnoc(log[..n], log[n], room, cs, from, to);
    }
  }

  /** The bound on a log of collections. */
  lemma LogBound(log: seq<Collection>, room: uint32, from: int, to: int)
    requires FiveSecondsApart(log) && OnlyThese(log, CRYSTALS) && from <= to
    ensures RoomPoints(log, room, from, to) <= 8 * (1 + (to - from) / 5_000_000_000)
  {
    hide RoomPoints, PointsOf, FiveSecondsApart, OnlyThese;
    CrystalIds();
    RoomPointsByCrystal(log, room, CRYSTALS, from, to);
    WindowPoints(log, room, CRYSTALS, from, to);
  }

  /** A new world, and whatever happens to it: an arena yields at most 8 * (1 + T / 5s) points in any window of
      length T. */
  lemma ArenaBound(s: Sim, events: seq<Event>, clock: int, room: uint32, from: int, to: int)
    requires s.log == [] && (forall r :: r in s.respawn ==> s.respawn[r] == map[])
    requires Possible(s, events, clock) && from <= to
    ensures RoomPoints(Run(s, events, clock).log, room, from, to) <= 8 * (1 + (to - from) / 5_000_000_000)
  {
    assert CrystalInv(s, clock);
    hide CrystalInv, Run, RoomPoints;
    CrystalsRest(s, events, clock);
    LogBound(Run(s, events, clock).log, room, from, to);
  }

  lemma CrystalIds()
    ensures |CRYSTALS| == 8 && DifferentIds(CRYSTALS)
  {
    assert forall i :: 0 <= i < 8 ==> CRYSTALS[i].id == i + 1;
  }

  /** In no run do two players share a crystal in one step: of two collections of one crystal the later one is
      at a later time. */
  lemma OnePlayerPerCrystal(s: Sim, events: seq<Event>, clock: int, i: nat, j: nat)
    requires CrystalInv(s, clock) && Possible(s, events, clock)
    requires i < |Run(s, events, clock).log| && j < |Run(s, events, clock).log|
    ensures var log := Run(s, events, clock).log;
            log[i].room == log[j].room && log[i].crystal == log[j].crystal ==> (log[i].time < log[j].time <==> i < j)
  {
    hide CrystalInv, Run, Possible;
    CrystalsRest(s, events, clock);
  }

  // The order of a step

  /** The connected players in ascending order, rotated by the tick. */
  function Rotation(ids: seq<uint32>, tick: uint64): (order: seq<uint32>)
    ensures |order| == |ids|
  {
    if ids == [] then []
    else seq(|ids|, i requires 0 <= i < |ids| => ids[(i + tick % |ids|) % |ids|])
  }

  /** Addition on a ring of n places. */
  function Ring(a: nat, b: nat, n: nat): nat
    requires a < n && b < n
  {
    if a + b < n then a + b else a + b - n
  }

  lemma Remainder(x: int, n: int, q: int, r: int)
    requires 0 <= r < n && x == n * q + r
    ensures x % n == r
  {
    var d := q - x / n;
    assert n * d == x % n - r by {
      assert x == n * (x / n) + x % n;
      assert n * d == n * q - n * (x / n);
    }
    Multiple(n, d);
  }

  lemma Multiple(n: int, d: int)
    requires n > 0
    ensures d >= 1 ==> n * d >= n
    ensures d <= -1 ==> n * d <= -n
  {
    if d >= 1 {
      assert n * (d - 1) >= 0;
      assert n * d == n * (d - 1) + n;
    } else if d <= -1 {
      assert n * (-d - 1) >= 0;
      assert n * d == -(n * (-d - 1)) - n;
    }
  }

  lemma RingIs(a: nat, b: nat, n: nat)
    requires a < n && b < n
    ensures (a + b) % n == Ring(a, b, n)
  {
    if a + b < n {
      Remainder(a + b, n, 0, a + b);
    } else {
      Remainder(a + b, n, 1, a + b - n);
    }
  }

  /** The player at a place of the rotation. */
  lemma RotationAt(ids: seq<uint32>, tick: uint64, i: nat)
    requires i < |ids|
    ensures Rotation(ids, tick)[i] == ids[Ring(i, tick % |ids|, |ids|)]
  {
    RingIs(i, tick % |ids|, |ids|);
  }

  /** The place that player number k of n gets. */
  function PlaceOf(k: nat, t: nat, n: nat): nat
    requires k < n && t < n
  {
    if k >= t then k - t else k - t + n
  }

  /** Each step visits every connected player exactly once. */
  lemma EveryoneOnce(ids: seq<uint32>, tick: uint64, k: nat)
    requires Distinct(ids) && k < |ids|
    ensures exists i :: 0 <= i < |ids| && Rotation(ids, tick)[i] == ids[k]
    ensures forall i, j ::
              0 <= i < |ids| && 0 <= j < |ids| && Rotation(ids, tick)[i] == Rotation(ids, tick)[j] == ids[k] ==> i == j
  {
    var n, t := |ids|, tick % |ids|;
    var order, place := Rotation(ids, tick), PlaceOf(k, t, n);
    RotationAt(ids, tick, place);
    assert order[place] == ids[k];
    forall i | 0 <= i < n && order[i] == ids[k] ensures i == place {
      RotationAt(ids, tick, i);
    }
  }

  /** So a step, which rotates the ascending listing of the connected players, gives each of them one turn
      and nobody else any. */
  lemma OneTurnEach(ids: seq<uint32>, connected: set<uint32>, tick: uint64, c: uint32)
    requires ListOf(ids, connected)
    ensures c in connected <==> exists i :: 0 <= i < |ids| && Rotation(ids, tick)[i] == c
    ensures forall i, j :: 0 <= i < j < |ids| && Rotation(ids, tick)[i] == c ==> Rotation(ids, tick)[j] != c
  {
    hide Rotation;
    assert Distinct(ids);
    if c in connected {
      var k :| 0 <= k < |ids| && ids[k] == c;
      EveryoneOnce(ids, tick, k);
    }
    forall i | 0 <= i < |ids| && Rotation(ids, tick)[i] == c ensures c in connected {
      RotationAt(ids, tick, i);
      assert c in ids;
    }
  }

  /** The tick counter d steps on; it is 64 bits wide. */
  function TickAfter(tick: uint64, d: nat): uint64
    requires d < TWO64
  {
    if tick + d < TWO64 then tick + d else tick + d - TWO64
  }

  /** Who comes first d steps on. */
  function FirstAfter(ids: seq<uint32>, tick: uint64, d: nat): uint32
    requires ids != [] && d < TWO64
  {
    Rotation(ids, TickAfter(tick, d))[0]
  }

  /** Player number k is first in exactly one of n consecutive steps. */
  predicate FirstOnce(ids: seq<uint32>, tick: uint64, k: nat)
    requires k < |ids| <= TWO32
  {
    && (exists d :: 0 <= d < |ids| && FirstAfter(ids, tick, d) == ids[k])
    && (forall d, e :: 0 <= d < e < |ids| && FirstAfter(ids, tick, d) == ids[k] ==> FirstAfter(ids, tick, e) != ids[k])
  }

  lemma FirstIndex(ids: seq<uint32>, tick: uint64, d: nat, k: nat)
    requires Distinct(ids) && k < |ids| <= TWO32 && d < |ids|
    ensures FirstAfter(ids, tick, d) == ids[k] <==> TickAfter(tick, d) % |ids| == k
  {
    var now := TickAfter(tick, d);
    RotationAt(ids, now, 0);
  }

  lemma StraightTicks(tick: nat, d: nat, n: nat)
    requires d < n
    ensures (tick + d) % n == Ring(d, tick % n, n)
  {
    var q, t := tick / n, tick % n;
    assert tick == n * q + t;
    if d + t < n {
      Remainder(tick + d, n, q, d + t);
    } else {
      assert n * (q + 1) == n * q + n;
      Remainder(tick + d, n, q + 1, d + t - n);
    }
  }

  /** Subtracting whole rounds changes no remainder. */
  lemma WholeRounds(x: nat, whole: nat, n: nat)
    requires n > 0 && whole <= x && whole % n == 0
    ensures (x - whole) % n == x % n
  {
    var q, p := x / n, whole / n;
    assert x == n * q + x % n && whole == n * p;
    assert n * (q - p) == n * q - n * p;
    Remainder(x - whole, n, q - p, x % n);
  }

  lemma InTurn(ids: seq<uint32>, tick: uint64, k: nat)
    requires Distinct(ids) && k < |ids| <= TWO32
    requires tick + |ids| <= TWO64 || TWO64 % |ids| == 0
    ensures FirstOnce(ids, tick, k)
  {
    hide FirstAfter;
    forall d | 0 <= d < |ids| ensures FirstAfter(ids, tick, d) == ids[k] <==> d == PlaceOf(k, tick % |ids|, |ids|) {
      TurnOf(ids, tick, k, d);
    }
    var place := PlaceOf(k, tick % |ids|, |ids|);
    assert FirstAfter(ids, tick, place) == ids[k];
  }

  lemma TurnOf(ids: seq<uint32>, tick: uint64, k: nat, d: nat)
    requires Distinct(ids) && k < |ids| <= TWO32 && d < |ids|
    requires tick + |ids| <= TWO64 || TWO64 % |ids| == 0
    ensures FirstAfter(ids, tick, d) == ids[k] <==> d == PlaceOf(k, tick % |ids|, |ids|)
  {
    hide Rotation, FirstAfter, Distinct;
    FirstIndex(ids, tick, d, k);
    StraightTicks(tick, d, |ids|);
    if tick + d >= TWO64 {
      WholeRounds(tick + d, TWO64, |ids|);
    }
    Opposite(d, tick % |ids|, |ids|, k);
  }

  lemma Opposite(d: nat, t: nat, n: nat, k: nat)
    requires d < n && t < n && k < n
    ensures Ring(d, t, n) == k <==> d == PlaceOf(k, t, n)
  {
  }

  /** The remainder just before the counter wraps. */
  lemma BeforeWrap(whole: nat, back: nat, n: nat)
    requires 0 < back < n <= whole
    ensures (whole - back) % n == if whole % n >= back then whole % n - back else whole % n - back + n
  {
    var q, w := whole / n, whole % n;
    assert whole == n * q + w;
    if w >= back {
      Remainder(whole - back, n, q, w - back);
    } else {
      assert n * (q - 1) == n * q - n;
      Remainder(whole - back, n, q - 1, w - back + n);
    }
  }

  lemma OutOfTurn(ids: seq<uint32>, tick: uint64)
    requires Distinct(ids) && 0 < |ids| <= TWO32 && tick + |ids| > TWO64 && TWO64 % |ids| != 0
    ensures exists k :: 0 <= k < |ids| && !FirstOnce(ids, tick, k)
  {
    hide Rotation, FirstAfter;
    var n, m, w := |ids|, TWO64 - tick, TWO64 % |ids|;
    if w >= m {
      forall d | 0 <= d < n ensures FirstAfter(ids, tick, d) != ids[n - 1] {
        FirstIndex(ids, tick, d, n - 1);
        if d < m {
          BeforeWrap(TWO64, m - d, n);
        } else {
          Remainder(d - m, n, 0, d - m);
        }
      }
      assert !FirstOnce(ids, tick, n - 1);
    } else {
      FirstIndex(ids, tick, m - w, 0);
      FirstIndex(ids, tick, m, 0);
      BeforeWrap(TWO64, w, n);
      assert TickAfter(tick, m - w) == TWO64 - w && TickAfter(tick, m) == 0;
      Remainder(0, n, 0, 0);
      assert FirstAfter(ids, tick, m - w) == ids[0] && FirstAfter(ids, tick, m) == ids[0];
      assert !FirstOnce(ids, tick, 0);
    }
  }

  /** With the same n players, each is first in exactly one of any n consecutive steps, if and only if the
      64-bit tick counter does not wrap within them or n divides 2^64. */
  lemma FirstInTurn(ids: seq<uint32>, tick: uint64)
    requires Distinct(ids) && 0 < |ids| <= TWO32
    ensures (forall k :: 0 <= k < |ids| ==> FirstOnce(ids, tick, k)) <==> (tick + |ids| <= TWO64 || TWO64 % |ids| == 0)
  {
    hide FirstOnce;
    if tick + |ids| <= TWO64 || TWO64 % |ids| == 0 {
      forall k | 0 <= k < |ids| ensures FirstOnce(ids, tick, k) {
        InTurn(ids, tick, k);
      }
    } else {
      OutOfTurn(ids, tick);
    }
  }
}
