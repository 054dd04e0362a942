/** What a step of the arena does, seen from the players and the crystals: who moves where, who collects what, who
    scores how much, which crystals are hidden, and who is stopped. */
module ArenaLaws {
  import opened Binary
  import opened Options
  import opened Sorting
  import opened ArenaSim

  // Collecting

  lemma {:induction false} TakesInReach(p: Player, cs: seq<Crystal>, hidden: map<nat, int>, k: nat)
    requires DifferentIds(cs) && k < |cs|
    ensures cs[k].id in Taken(p, cs, hidden) <==> cs[k].id !in hidden && InReach(p, cs[k])
  {
    hide InReach;
    var last := |cs| - 1;
    if k < last {
      TakesInReach(p, cs[..last], hidden, k);
      assert cs[k].id != cs[last].id;
    } else {
      TakenAreNew(p, cs[..last], hidden);
    }
  }

  /** A player takes exactly the crystals that are not hidden and within 25 units of it. */
  lemma TakesWhatIsInReach(p: Player, hidden: map<nat, int>, k: nat)
    requires k < |CRYSTALS|
    ensures var c := CRYSTALS[k];
            c.id in Taken(p, CRYSTALS, hidden)
            <==> c.id !in hidden && (p.x - c.x) * (p.x - c.x) + (p.y - c.y) * (p.y - c.y) <= 625.0
  {
    hide Taken, DifferentIds, InReach;
    CrystalIds();
    ReachIs(p, CRYSTALS[k]);
    TakesInReach(p, CRYSTALS, hidden, k);
  }

  lemma ReachIs(p: Player, c: Crystal)
    ensures InReach(p, c) <==> (p.x - c.x) * (p.x - c.x) + (p.y - c.y) * (p.y - c.y) <= 625.0
  {
  }

  /** What player c has collected. */
  function Credits(log: seq<Collection>, c: uint32): nat {
    if log == [] then 0 else Credits(log[..|log| - 1], c) + if log[|log| - 1].player == c then 1 else 0
  }

  lemma {:induction false} CreditsAppend(a: seq<Collection>, b: seq<Collection>, c: uint32)
    ensures Credits(a + b, c) == Credits(a, c) + Credits(b, c)
    decreases |b|
  {
    if b == [] {
      assert a + b == a;
    } else {
      assert (a + b)[..|a + b| - 1] == a + b[..|b| - 1];
      CreditsAppend(a, b[..|b| - 1], c);
    }
  }

  lemma {:induction false} CreditsOf(entries: seq<Collection>, player: uint32, c: uint32)
    requires forall i :: 0 <= i < |entries| ==> entries[i].player == player
    ensures Credits(entries, c) == if c == player then |entries| else 0
  {
    if entries != [] {
      CreditsOf(entries[..|entries| - 1], player, c);
    }
  }

  // What a step does to each player

  /** How a player fares in a step: a position that moves with a fresh input, up to the walls, and a score. */
  predicate Fares(p: Player, q: Player, now: int, scored: nat) {
    && q == p.(x := q.x, y := q.y, score := p.score + scored)
    && if p.inputAt.Some? && now - p.inputAt.value <= 250_000_000
       then q.x == Within(p.x + 9.0 * p.dx, 24.0, 936.0) && q.y == Within(p.y + 9.0 * p.dy, 24.0, 516.0)
       else q.x == p.x && q.y == p.y
  }

  /** The nearest value between low and high. */
  function Within(v: real, low: real, high: real): real {
    if v <= low then low else if v >= high then high else v
  }

  predicate IsLate(p: Player, now: int) { p.name == "" && now - p.connectedAt > 10_000_000_000 }

  lemma FaresIs(p: Player, now: int, scored: nat)
    ensures Fares(p, Moved(p, now).(score := p.score + scored), now, scored)
  {
    var a, b := p.dx * 9.0, p.dy * 9.0;
    assert p.dx * SPEED / TICK_RATE == a && p.dy * SPEED / TICK_RATE == b;
  }

  /** What turns of these players, one after the other, have made of s. */
  ghost predicate Turned(s: Sim, t: Sim, order: seq<uint32>, now: int) {
    && s.log <= t.log && t.players.Keys == s.players.Keys && t.respawn.Keys == s.respawn.Keys
    && (forall i :: 0 <= i < |order| ==> order[i] in s.players)
    && (forall i :: |s.log| <= i < |t.log| ==> IsEntry(t.log[i], s, order, now))
    && t.stopped == s.stopped + LateOf(s, order, now)
    && (forall c :: c in s.players ==>
          if c in order && Plays(s, c, now) then Fares(s.players[c], t.players[c], now, Credits(t.log[|s.log|..], c))
          else t.players[c] == s.players[c] && Credits(t.log[|s.log|..], c) == 0)
  }

  /** An entry of the present time, for one of these players in its arena. */
  predicate IsEntry(e: Collection, s: Sim, order: seq<uint32>, now: int) {
    e.player in order && e.player in s.players && e.time == now && e.room == s.players[e.player].roomId
  }

  function LateOf(s: Sim, order: seq<uint32>, now: int): set<uint32> {
    set c | c in order && c in s.players && IsLate(s.players[c], now)
  }

  predicate Plays(s: Sim, c: uint32, now: int)
    requires c in s.players
  {
    !IsLate(s.players[c], now) && s.players[c].roomId in s.respawn
  }

  /** One turn. */
  ghost predicate TookTurn(s: Sim, t: Sim, c: uint32, now: int) {
    && c in s.players && s.log <= t.log && t.players.Keys == s.players.Keys && t.respawn.Keys == s.respawn.Keys
    && (forall d :: d in s.players && d != c ==> t.players[d] == s.players[d])
    && (forall i :: |s.log| <= i < |t.log| ==>
          t.log[i].player == c && t.log[i].time == now && t.log[i].room == s.players[c].roomId)
    && t.stopped == s.stopped + (if IsLate(s.players[c], now) then {c} else {})
    && if Plays(s, c, now) then Fares(s.players[c], t.players[c], now, |t.log| - |s.log|)
       else t.players[c] == s.players[c] && t.log == s.log
  }

  lemma VisitIsTurn(s: Sim, c: uint32, now: int)
    requires c in s.players
    ensures TookTurn(s, Visit(s, c, now), c, now)
  {
    hide Taken, Hide, Moved, Fares;
    var p := s.players[c];
    if !LateToAuthenticate(p, now) && p.roomId in s.respawn {
      FaresIs(p, now, |Taken(Moved(p, now), CRYSTALS, s.respawn[p.roomId])|);
      MovedKeepsScore(p, now);
    }
  }

  lemma MovedKeepsScore(p: Player, now: int)
    ensures Moved(p, now).score == p.score
  {
  }

  lemma TurnedNone(s: Sim, now: int)
    ensures Turned(s, s, [], now)
  {
  }

  lemma TurnedMore(s: Sim, u: Sim, t: Sim, before: seq<uint32>, c: uint32, now: int)
    requires Turned(s, u, before, now) && TookTurn(u, t, c, now) && c !in before
    ensures Turned(s, t, before + [c], now)
  {
    var order := before + [c];
    assert u.players[c] == s.players[c];
    forall d | d in s.players
      ensures if d in order && Plays(s, d, now)
              then Fares(s.players[d], t.players[d], now, Credits(t.log[|s.log|..], d))
              else t.players[d] == s.players[d] && Credits(t.log[|s.log|..], d) == 0
    {
      PlayerTurned(s, u, t, before, c, d, now);
    }
    hide Fares, IsLate, Credits;
    forall i | |s.log| <= i < |t.log| ensures IsEntry(t.log[i], s, order, now) {
      if i < |u.log| {
        assert t.log[i] == u.log[i] && IsEntry(u.log[i], s, before, now);
      }
    }
    assert LateOf(s, order, now) == LateOf(s, before, now) + if IsLate(s.players[c], now) then {c} else {};
  }

  lemma PlayerTurned(s: Sim, u: Sim, t: Sim, before: seq<uint32>, c: uint32, d: uint32, now: int)
    requires Turned(s, u, before, now) && TookTurn(u, t, c, now) && c !in before && d in s.players
    ensures if d in before + [c] && Plays(s, d, now)
            then Fares(s.players[d], t.players[d], now, Credits(t.log[|s.log|..], d))
            else t.players[d] == s.players[d] && Credits(t.log[|s.log|..], d) == 0
  {
    hide Fares, IsLate, Credits, IsEntry, LateOf;
    var more := t.log[|u.log|..];
    assert t.log[|s.log|..] == u.log[|s.log|..] + more;
    CreditsAppend(u.log[|s.log|..], more, d);
    CreditsOf(more, c, d);
  }

  /** In a step each player has one turn: it moves with a fresh input, and scores exactly what is logged for it; every
      entry is of a player in its arena; and exactly those who are late to authenticate are stopped. */
  lemma {:induction false} TurnsGive(s: Sim, order: seq<uint32>, now: int)
    requires (forall i :: 0 <= i < |order| ==> order[i] in s.players) && Distinct(order)
    ensures Turned(s, VisitAll(s, order, now), order, now)
  {
    hide Visit, Turned, TookTurn;
    if order == [] {
      TurnedNone(s, now);
    } else {
      var last := |order| - 1;
      var c, before := order[last], order[..last];
      BeforeLast(order);
      TurnsGive(s, before, now);
      var u := VisitAll(s, before, now);
      VisitIsTurn(u, c, now);
      TurnedMore(s, u, Visit(u, c, now), before, c, now);
      assert order == before + [c];
    }
  }

  lemma BeforeLast(order: seq<uint32>)
    requires order != [] && Distinct(order)
    ensures Distinct(order[..|order| - 1]) && order[|order| - 1] !in order[..|order| - 1]
  {
    var last := |order| - 1;
    forall i | 0 <= i < last ensures order[..last][i] != order[last] {
      assert order[i] != order[last];
    }
  }

  // Hidden crystals

  /** Crystal c of arena r was taken by somebody less than five seconds before. */
  predicate TakenLately(log: seq<Collection>, r: uint32, c: nat, now: int) {
    exists i :: 0 <= i < |log| && log[i].room == r && log[i].crystal == c && now < log[i].time + 5_000_000_000
  }

  /** Whatever is hidden was taken, and comes back five seconds after that. */
  ghost predicate HiddenInv(s: Sim) {
    forall r, c :: r in s.respawn && c in s.respawn[r] ==> exists i :: IsReason(s, r, c, i)
  }

  predicate IsReason(s: Sim, r: uint32, c: nat, i: nat) {
    && i < |s.log| && s.log[i].room == r && s.log[i].crystal == c
    && r in s.respawn && c in s.respawn[r] && s.respawn[r][c] == s.log[i].time + RESPAWN
  }

  lemma VisitHides(s: Sim, c: uint32, now: int)
    requires HiddenInv(s) && c in s.players
    ensures HiddenInv(Visit(s, c, now))
  {
    hide Taken, Moved;
    var p, t := s.players[c], Visit(s, c, now);
    if !LateToAuthenticate(p, now) && p.roomId in s.respawn {
      var taken := Taken(Moved(p, now), CRYSTALS, s.respawn[p.roomId]);
      forall r, k | r in t.respawn && k in t.respawn[r] ensures exists i :: IsReason(t, r, k, i) {
        if r == p.roomId && k in taken {
          var j :| 0 <= j < |taken| && taken[j] == k;
          assert IsReason(t, r, k, |s.log| + j);
        } else {
          var i: nat :| IsReason(s, r, k, i);
          assert IsReason(t, r, k, i);
        }
      }
    } else {
      forall r, k | r in t.respawn && k in t.respawn[r] ensures exists i :: IsReason(t, r, k, i) {
        var i: nat :| IsReason(s, r, k, i);
        assert IsReason(t, r, k, i);
      }
    }
  }

  lemma {:induction false} VisitsHide(s: Sim, order: seq<uint32>, now: int)
    requires HiddenInv(s) && forall i :: 0 <= i < |order| ==> order[i] in s.players
    ensures HiddenInv(VisitAll(s, order, now))
  {
    hide Visit, HiddenInv;
    if order != [] {
      VisitsHide(s, order[..|order| - 1], now);
      VisitHides(VisitAll(s, order[..|order| - 1], now), order[|order| - 1], now);
    }
  }

  lemma EndHides(s: Sim, now: int)
    requires HiddenInv(s)
    ensures HiddenInv(EndStep(s, now))
    ensures forall r, c :: r in s.respawn && c in EndStep(s, now).respawn[r] ==> now < EndStep(s, now).respawn[r][c]
  {
    var t := EndStep(s, now);
    forall r, c | r in t.respawn && c in t.respawn[r] ensures exists i :: IsReason(t, r, c, i) {
      var i: nat :| IsReason(s, r, c, i);
      assert IsReason(t, r, c, i);
    }
  }

  /** After a step, with times that have not gone back, a crystal is hidden exactly when somebody took it less than
      five seconds before. */
  lemma HiddenExactly(s: Sim, order: seq<uint32>, clock: int, now: int, r: uint32, c: nat)
    requires HiddenInv(s) && CrystalInv(s, clock) && clock <= now && r in s.respawn
    requires forall i :: 0 <= i < |order| ==> order[i] in s.players
    ensures var t := Tick(s, order, now);
            HiddenInv(t) && r in t.respawn && (c in t.respawn[r] <==> TakenLately(t.log, r, c, now))
  {
    hide VisitAll, OnlyThese, FiveSecondsApart;
    VisitsHide(s, order, now);
    EndHides(VisitAll(s, order, now), now);
    TickKeeps(s, order, clock, now);
    HiddenIff(Tick(s, order, now), now, r, c);
  }

  lemma HiddenIff(t: Sim, now: int, r: uint32, c: nat)
    requires HiddenInv(t) && CrystalInv(t, now) && r in t.respawn
    requires forall c :: c in t.respawn[r] ==> now < t.respawn[r][c]
    ensures c in t.respawn[r] <==> TakenLately(t.log, r, c, now)
  {
    if c in t.respawn[r] {
      var i: nat :| IsReason(t, r, c, i);
      assert t.log[i].room == r;
    }
    if TakenLately(t.log, r, c, now) {
      var i :| 0 <= i < |t.log| && t.log[i].room == r && t.log[i].crystal == c
               && now < t.log[i].time + 5_000_000_000;
    }
  }

  /** In its turn a player collects exactly the crystals that were not hidden and that it has come within reach of; they
      are hidden from then on. */
  lemma VisitCollects(s: Sim, c: uint32, now: int, k: nat)
    requires c in s.players && Plays(s, c, now) && k < |CRYSTALS|
    ensures var t, r := Visit(s, c, now), s.players[c].roomId;
            var q, x := t.players[c], CRYSTALS[k];
            && c in t.players && r in t.respawn && s.log <= t.log
            && (x.id !in s.respawn[r] && (q.x - x.x) * (q.x - x.x) + (q.y - x.y) * (q.y - x.y) <= 625.0
                <==> exists i :: |s.log| <= i < |t.log| && t.log[i].crystal == x.id)
            && (x.id in t.respawn[r]
                <==> x.id in s.respawn[r] || exists i :: |s.log| <= i < |t.log| && t.log[i].crystal == x.id)
  {
    hide Taken, Moved;
    var p, t := s.players[c], Visit(s, c, now);
    var m := Moved(p, now);
    var taken := Taken(m, CRYSTALS, s.respawn[p.roomId]);
    TakesWhatIsInReach(m, s.respawn[p.roomId], k);
    var x := CRYSTALS[k].id;
    if x in taken {
      var j :| 0 <= j < |taken| && taken[j] == x;
      assert t.log[|s.log| + j].crystal == x;
    }
    if i :| |s.log| <= i < |t.log| && t.log[i].crystal == x {
      assert taken[i - |s.log|] == x;
    }
  }

  // What is remembered of each player

  function LastOf(accepted: seq<uint32>): uint32 { if accepted == [] then 0 else accepted[|accepted| - 1] }

  /** The sequence numbers of the inputs accepted from each player strictly increase, and the last one is the one that
      the next is compared with. */
  predicate Heard(players: map<uint32, Player>, inputs: map<uint32, seq<uint32>>) {
    inputs.Keys == players.Keys
    && forall c :: c in players ==> Increasing(inputs[c]) && players[c].seqNo == LastOf(inputs[c])
  }

  predicate Increasing(s: seq<uint32>) {
    (forall i :: 0 <= i < |s| ==> 0 < s[i]) && forall i, j :: 0 <= i < j < |s| ==> s[i] < s[j]
  }

  /** Every player has the score that the log has for it since it entered its arena, and collected it there. */
  predicate Scored(players: map<uint32, Player>, log: seq<Collection>, since: map<uint32, nat>) {
    since.Keys == players.Keys
    && forall c :: c in players ==> since[c] <= |log| && ScoredSince(players[c], log[since[c]..], c)
  }

  predicate ScoredSince(p: Player, log: seq<Collection>, c: uint32) {
    && p.score == Credits(log, c)
    && (forall i :: 0 <= i < |log| && log[i].player == c && p.roomId != 0 ==> log[i].room == p.roomId)
    && (forall i, j :: 0 <= i < |log| && 0 <= j < |log| && log[i].player == log[j].player == c ==>
          log[i].room == log[j].room)
  }

  /** A number is above the last accepted one exactly when it is above all. */
  lemma HeardBefore(players: map<uint32, Player>, inputs: map<uint32, seq<uint32>>, c: uint32, m: uint32)
    requires Heard(players, inputs) && c in players && m != 0
    ensures c in inputs && (m <= players[c].seqNo <==> exists n :: n in inputs[c] && m <= n)
  {
    var accepted := inputs[c];
    if accepted != [] {
      assert accepted[|accepted| - 1] in accepted;
      assert forall i :: 0 <= i < |accepted| ==> accepted[i] <= accepted[|accepted| - 1];
    }
  }

  /** A change that keeps number and score, and keeps or leaves the arena. */
  lemma StillRecorded(players: map<uint32, Player>, inputs: map<uint32, seq<uint32>>, log: seq<Collection>,
                      since: map<uint32, nat>, c: uint32, p: Player)
    requires Heard(players, inputs) && Scored(players, log, since) && c in players
    requires p.seqNo == players[c].seqNo && p.score == players[c].score
    requires p.roomId == players[c].roomId || p.roomId == 0
    ensures Heard(players[c := p], inputs) && Scored(players[c := p], log, since)
  {
    hide Increasing;
  }

  lemma NewRecord(players: map<uint32, Player>, inputs: map<uint32, seq<uint32>>, log: seq<Collection>,
                  since: map<uint32, nat>, c: uint32, p: Player)
    requires Heard(players, inputs) && Scored(players, log, since) && p.score == 0
    requires p.seqNo == if c in players then players[c].seqNo else 0
    ensures Heard(players[c := p], if c in players then inputs else inputs[c := []])
    ensures Scored(players[c := p], log, since[c := |log|])
  {
    assert log[|log|..] == [];
    var after := players[c := p];
    forall d | d in after ensures ScoredSince(after[d], log[since[c := |log|][d]..], d) {
    }
  }

  lemma IncreasingMore(s: seq<uint32>, n: uint32)
    requires Increasing(s) && n > LastOf(s)
    ensures Increasing(s + [n]) && LastOf(s + [n]) == n
  {
  }

  lemma InputRecorded(players: map<uint32, Player>, inputs: map<uint32, seq<uint32>>, log: seq<Collection>,
                      since: map<uint32, nat>, c: uint32, p: Player)
    requires Heard(players, inputs) && Scored(players, log, since) && c in players
    requires p.seqNo > players[c].seqNo && p.score == players[c].score && p.roomId == players[c].roomId
    ensures Heard(players[c := p], inputs[c := inputs[c] + [p.seqNo]]) && Scored(players[c := p], log, since)
  {
    IncreasingMore(inputs[c], p.seqNo);
    SameScore(players[c], p, log, since[c], c);
    hide Increasing, ScoredSince, LastOf;
  }

  lemma SameScore(p: Player, q: Player, log: seq<Collection>, from: nat, c: uint32)
    requires p.score == q.score && p.roomId == q.roomId && from <= |log|
    ensures ScoredSince(p, log[from..], c) <==> ScoredSince(q, log[from..], c)
  {
    hide Credits;
  }

  lemma FewerRecorded(players: map<uint32, Player>, inputs: map<uint32, seq<uint32>>, log: seq<Collection>,
                      since: map<uint32, nat>, c: uint32)
    requires Heard(players, inputs) && Scored(players, log, since)
    ensures Heard(players - {c}, inputs - {c}) && Scored(players - {c}, log, since - {c})
  {
    hide Increasing, ScoredSince;
  }

  /** What turns leave of one player. */
  lemma TurnedFor(s: Sim, t: Sim, order: seq<uint32>, now: int, c: uint32)
    requires Turned(s, t, order, now) && 0 !in s.respawn && c in s.players
    ensures s.log <= t.log && c in t.players
    ensures var p, q := s.players[c], t.players[c];
            && q.seqNo == p.seqNo && q.roomId == p.roomId && q.score == p.score + Credits(t.log[|s.log|..], c)
            && forall i :: |s.log| <= i < |t.log| && t.log[i].player == c ==> t.log[i].room == p.roomId
    ensures s.players[c].roomId == 0 ==> Credits(t.log[|s.log|..], c) == 0
  {
    hide IsLate, LateOf, Credits;
    forall i | |s.log| <= i < |t.log| && t.log[i].player == c ensures t.log[i].room == s.players[c].roomId {
      assert IsEntry(t.log[i], s, order, now);
    }
  }

  /** Turns of distinct players keep the record. */
  lemma TurnsRecorded(s: Sim, t: Sim, order: seq<uint32>, now: int, inputs: map<uint32, seq<uint32>>,
                      since: map<uint32, nat>)
    requires Turned(s, t, order, now) && 0 !in s.respawn
    requires Heard(s.players, inputs) && Scored(s.players, s.log, since)
    ensures Heard(t.players, inputs) && Scored(t.players, t.log, since)
  {
    assert t.players.Keys == s.players.Keys;
    hide Increasing, Turned, ScoredSince, LastOf, Credits;
    forall c | c in t.players
      ensures t.players[c].seqNo == s.players[c].seqNo
      ensures since[c] <= |t.log| && ScoredSince(t.players[c], t.log[since[c]..], c)
    {
      TurnedFor(s, t, order, now, c);
      ScoreGrows(s.players[c], t.players[c], s.log, t.log, since[c], c);
    }
  }

  lemma ScoreGrows(p: Player, q: Player, log: seq<Collection>, after: seq<Collection>, from: nat, c: uint32)
    requires log <= after && from <= |log| && ScoredSince(p, log[from..], c)
    requires q.roomId == p.roomId && q.score == p.score + Credits(after[|log|..], c)
    requires forall i :: |log| <= i < |after| && after[i].player == c ==> after[i].room == p.roomId
    requires p.roomId == 0 ==> Credits(after[|log|..], c) == 0
    ensures ScoredSince(q, after[from..], c)
  {
    var before, more := log[from..], after[|log|..];
    assert after[from..] == before + more;
    CreditsAppend(before, more, c);
    if p.roomId == 0 {
      NoEntries(more, c);
    }
    hide Credits;
    assert forall i :: 0 <= i < |more| ==> more[i] == after[|log| + i];
    SinceAppend(p, before, more, c);
  }

  lemma SinceAppend(p: Player, before: seq<Collection>, more: seq<Collection>, c: uint32)
    requires ScoredSince(p, before, c)
    requires forall i :: 0 <= i < |more| && more[i].player == c ==> p.roomId != 0 && more[i].room == p.roomId
    ensures forall i :: 0 <= i < |before + more| && (before + more)[i].player == c && p.roomId != 0 ==>
              (before + more)[i].room == p.roomId
    ensures forall i, j :: 0 <= i < |before + more| && 0 <= j < |before + more|
                           && (before + more)[i].player == (before + more)[j].player == c ==>
              (before + more)[i].room == (before + more)[j].room
  {
    hide Credits;
  }

  lemma {:induction false} NoEntries(log: seq<Collection>, c: uint32)
    requires Credits(log, c) == 0
    ensures forall i :: 0 <= i < |log| ==> log[i].player != c
  {
    if log != [] {
      NoEntries(log[..|log| - 1], c);
      assert forall i :: 0 <= i < |log| - 1 ==> log[..|log| - 1][i] == log[i];
    }
  }

  /** What a player scored in one arena within a window of time is part of what the arena yielded in it. */
  lemma {:induction false} CreditsAreRoomPoints(log: seq<Collection>, c: uint32, room: uint32, from: int, to: int)
    requires forall i :: 0 <= i < |log| && log[i].player == c ==> Counts(log[i], room, from, to)
    ensures Credits(log, c) <= RoomPoints(log, room, from, to)
  {
    if log != [] {
      CreditsAreRoomPoints(log[..|log| - 1], c, room, from, to);
    }
  }
}
