/** What callers of the game service can rely on: what each operation gives and takes, whom it leaves alone, and how
    long a connection has to authenticate. */
module GameLaws {
  import opened Binary
  import opened Options
  import S = SessionTable
  import SL = SessionLaws
  import R = Rooms
  import opened GameState

  // What each operation gives

  /** Connection c is in room r, in no other room, and everybody else is where they were. */
  ghost predicate MovedTo(g: Game, h: Game, c: uint32, r: uint32) {
    && h.rooms.Keys == g.rooms.Keys && h.conns.Keys == g.conns.Keys && c in g.conns
    && h.conns[c] == g.conns[c].(roomId := r)
    && (forall q :: q in g.rooms ==> (c in h.rooms[q].members <==> q == r))
    && (forall q, d :: q in g.rooms && d != c ==> (d in h.rooms[q].members <==> d in g.rooms[q].members))
    && (forall d :: d in g.conns && d != c ==> h.conns[d] == g.conns[d])
    && h.sessions == g.sessions && h.stopped == g.stopped && h.closed == g.closed
  }

  /** A join that is not refused puts the connection in the room and nowhere else. It is refused exactly without an
      open service, a connection and a session found by it; without such a room; or when the room is full and the
      connection is not in it already. */
  lemma JoinGives(g: Game, c: uint32, r: uint32, now: int, accounts: map<string, uint64>)
    requires Inv(g, accounts)
    ensures var e := JoinError(g, c, r, now);
            && (e.None? ==> MovedTo(g, Join(g, c, r, now), c, r))
            && (e.Some? ==> Join(g, c, r, now) == g)
            && (e == Some(Unauthorized) <==> g.closed || c !in g.conns || !S.HasLive(g.sessions.table, c, now))
            && (e.None? || e == Some(RoomUnavailable) ==> r in g.rooms && c in g.conns)
            && (e == Some(RoomUnavailable) ==>
                  c !in g.rooms[r].members && |g.rooms[r].members| == g.rooms[r].maxPlayers)
            && (e.None? ==> c in g.rooms[r].members || |g.rooms[r].members| < g.rooms[r].maxPlayers)
  {
    hide S.HasLive, Inv, MovedTo;
    JoinReasons(g, c, r, now, accounts);
    if JoinError(g, c, r, now).None? {
      JoinMoves(g, c, r, now, accounts);
    }
  }

  lemma JoinMoves(g: Game, c: uint32, r: uint32, now: int, accounts: map<string, uint64>)
    requires Inv(g, accounts) && JoinError(g, c, r, now).None?
    ensures MovedTo(g, Join(g, c, r, now), c, r)
  {
    hide S.HasLive, AuthMatches, Identities, S.Unique;
  }

  lemma JoinReasons(g: Game, c: uint32, r: uint32, now: int, accounts: map<string, uint64>)
    requires Inv(g, accounts)
    ensures var e := JoinError(g, c, r, now);
            && (e == Some(Unauthorized) <==> g.closed || c !in g.conns || !S.HasLive(g.sessions.table, c, now))
            && (e.None? || e == Some(RoomUnavailable) ==> r in g.rooms && c in g.conns)
            && (e == Some(RoomUnavailable) ==>
                  c !in g.rooms[r].members && |g.rooms[r].members| == g.rooms[r].maxPlayers)
            && (e.None? ==> c in g.rooms[r].members || |g.rooms[r].members| < g.rooms[r].maxPlayers)
  {
    hide S.HasLive, AuthMatches, Identities, S.Unique;
  }

  /** A new connection is known, in no room, with its deadline; a closed service stops it. Nobody else is touched. */
  lemma ConnectGives(g: Game, c: uint32, now: int)
    requires c !in g.conns
    ensures var h := Connected(g, c, now);
            && h.sessions == g.sessions && h.rooms == g.rooms && h.closed == g.closed
            && if g.closed then h.conns == g.conns && h.stopped == g.stopped + {c}
               else
                 h.conns.Keys == g.conns.Keys + {c} && h.conns[c].authDeadline == Some(now + 30)
                 && h.conns[c].roomId == 0 && h.stopped == g.stopped
                 && forall d :: d in g.conns ==> h.conns[d] == g.conns[d]
  {
  }

  /** An authenticated connection that leaves is in no room. */
  lemma LeaveGives(g: Game, c: uint32, now: int, accounts: map<string, uint64>)
    requires Inv(g, accounts)
    ensures if !g.closed && c in g.conns && S.HasLive(g.sessions.table, c, now)
            then MovedTo(g, Leave(g, c, now), c, 0) else Leave(g, c, now) == g
  {
    hide S.HasLive, AuthMatches, Identities, S.Unique;
  }

  /** Everything about these connections is gone, and nothing about the others is changed. */
  ghost predicate Gone(g: Game, h: Game, cs: set<uint32>) {
    && h.rooms.Keys == g.rooms.Keys
    && (forall d :: d in h.conns <==> d in g.conns && d !in cs)
    && (forall d :: d in h.conns ==> h.conns[d] == g.conns[d])
    && (forall q, d :: q in g.rooms ==> (d in h.rooms[q].members <==> d in g.rooms[q].members && d !in cs))
    && (forall k :: k in h.sessions.table <==>
          k in g.sessions.table && !(g.sessions.table[k].bound && g.sessions.table[k].connId in cs))
    && (forall k :: k in h.sessions.table ==> h.sessions.table[k] == g.sessions.table[k])
  }

  /** A connection that is closed is forgotten with its session and its place; closing the service stops all. */
  lemma EndGives(g: Game, c: uint32)
    ensures c in g.conns ==> Gone(g, Disconnected(g, c), {c}) && Disconnected(g, c).stopped == g.stopped
    ensures c !in g.conns ==> Disconnected(g, c) == g
    ensures Gone(g, Close(g), g.conns.Keys) && Close(g).stopped == g.stopped + g.conns.Keys && Close(g).closed
  {
  }

  /** A successful login opens a session of its account for its time to live; the connection that an older session of
      the account was bound to is stopped and forgotten. */
  lemma LoginGives(g: Game, token: S.Token, account: string, player: uint64, ttl: int, now: int,
                   accounts: map<string, uint64>)
    requires Inv(g, accounts) && Configured(account, player, accounts) && ttl > 0
    requires token !in g.sessions.table && !g.closed
    ensures var h := Login(g, Some(token), account, player, ttl, now);
            && token in h.sessions.table
            && S.Opens(h.sessions.table, h.sessions.table[token], token, account, player, now + ttl)
            && (forall k :: k in g.sessions.table && g.sessions.table[k].accountId == account ==>
                  k !in h.sessions.table
                  && (g.sessions.table[k].bound ==>
                        var d := g.sessions.table[k].connId;
                        d !in h.conns && d in h.stopped && forall q :: q in h.rooms ==> d !in h.rooms[q].members))
            && (forall k :: k in g.sessions.table && g.sessions.table[k].accountId != account ==>
                  k in h.sessions.table && h.sessions.table[k] == g.sessions.table[k])
  {
    LoginNeverRefused(g, token, account, player, ttl, now, accounts);
    LoginTable(g, token, account, player, ttl, now);
  }

  lemma LoginTable(g: Game, token: S.Token, account: string, player: uint64, ttl: int, now: int)
    requires S.Unique(g.sessions.table) && token !in g.sessions.table && !g.closed
    requires S.IssueError(g.sessions, Some(token), account, player, ttl, now).None?
    ensures var h := Login(g, Some(token), account, player, ttl, now);
            && token in h.sessions.table
            && S.Opens(h.sessions.table, h.sessions.table[token], token, account, player, now + ttl)
            && (forall k :: k in g.sessions.table && g.sessions.table[k].accountId == account ==>
                  k !in h.sessions.table
                  && (g.sessions.table[k].bound ==>
                        var d := g.sessions.table[k].connId;
                        d !in h.conns && d in h.stopped && forall q :: q in h.rooms ==> d !in h.rooms[q].members))
            && (forall k :: k in g.sessions.table && g.sessions.table[k].accountId != account ==>
                  k in h.sessions.table && h.sessions.table[k] == g.sessions.table[k])
  {
    var cs, t := ConnsOf(g.sessions.table, account), g.sessions.table;
    forall k | k in t && t[k].accountId != account ensures !(t[k].bound && t[k].connId in cs) {
    }
  }

  /** Authentication gives the connection its session for as long as the token is found, and lifts its deadline. It
      succeeds exactly in an open service, for a connection without a deadline or before it, with a token that can
      be bound to it. */
  lemma AuthenticateGives(g: Game, c: uint32, token: S.Token, now: int, later: int, accounts: map<string, uint64>)
    requires Inv(g, accounts)
    ensures var h := Authenticate(g, c, token, now, later);
            if CanAuthenticate(g, c, token, now, later) then
              && (forall at :: S.HasLive(h.sessions.table, c, at) <==> S.Find(g.sessions.table, token, at).Some?)
              && h.conns.Keys == g.conns.Keys && h.conns[c].authDeadline.None?
              && h.conns[c].roomId == g.conns[c].roomId
              && (forall d :: d in g.conns && d != c ==> h.conns[d] == g.conns[d])
              && h.rooms == g.rooms && h.stopped == g.stopped && h.closed == g.closed
            else h == g
    ensures CanAuthenticate(g, c, token, now, later) <==>
            && !g.closed && c in g.conns && S.BindError(g.sessions, token, c, later).None?
            && (S.HasConn(g.sessions.table, c)
                || (g.conns[c].authDeadline.Some? && now < g.conns[c].authDeadline.value))
  {
    hide RoomsMatch, RoomsFit, Identities, S.BindError, S.HasLive, S.HasConn;
    if CanAuthenticate(g, c, token, now, later) {
      SL.BindGives(g.sessions, token, c, later);
    }
  }

  // How long a connection has to authenticate

  /** Since it connected at time start, a connection has that deadline or none. */
  predicate DueBy(g: Game, c: uint32, start: int) {
    c in g.conns ==> g.conns[c].authDeadline.None? || g.conns[c].authDeadline == Some(start + 30)
  }

  lemma DueStep(g: Game, op: Op, c: uint32, start: int)
    requires DueBy(g, c, start) && !(op.ConnectedOp? && op.c == c)
    ensures DueBy(Step(g, op), c, start)
  {
  }

  lemma {:induction false} DueRun(g: Game, ops: seq<Op>, c: uint32, start: int)
    requires DueBy(g, c, start) && forall i :: 0 <= i < |ops| ==> !(ops[i].ConnectedOp? && ops[i].c == c)
    ensures DueBy(Run(g, ops), c, start)
    decreases |ops|
  {
    hide DueBy, Step;
    if ops != [] {
      DueStep(g, ops[0], c, start);
      DueRun(Step(g, ops[0]), ops[1..], c, start);
    }
  }

  /** Whatever happens after a connection was made, until it is made again: as long as it is not bound to a session, it
      can authenticate with a token that can be bound to it exactly within thirty seconds, and it survives exactly the
      sweeps within thirty seconds. */
  lemma ThirtySeconds(g: Game, c: uint32, start: int, ops: seq<Op>, token: S.Token, now: int, later: int,
                      accounts: map<string, uint64>)
    requires Inv(g, accounts) && !g.closed && c !in g.conns
    requires AllProper(Connected(g, c, start), ops, accounts)
    requires forall i :: 0 <= i < |ops| ==> !(ops[i].ConnectedOp? && ops[i].c == c)
    ensures var h := Run(Connected(g, c, start), ops);
            !h.closed && c in h.conns && !S.HasConn(h.sessions.table, c) ==>
              && (S.BindError(h.sessions, token, c, later).None? ==>
                    (CanAuthenticate(h, c, token, now, later) <==> now < start + 30))
              && (c in Sweep(h, now).conns <==> now < start + 30)
  {
    hide Inv, Step, S.BindError, Sweep;
    ConnectedKeeps(g, c, start, accounts);
    InvRun(Connected(g, c, start), ops, accounts);
    DueRun(Connected(g, c, start), ops, c, start);
    var h := Run(Connected(g, c, start), ops);
    if c in h.conns && !S.HasConn(h.sessions.table, c) {
      Deadlines(h, c, accounts);
      SweepLeavesTheLive(h, now, accounts);
    }
  }

  lemma Deadlines(g: Game, c: uint32, accounts: map<string, uint64>)
    requires Inv(g, accounts) && c in g.conns
    ensures g.conns[c].authDeadline.None? <==> S.HasConn(g.sessions.table, c)
  {
    hide S.HasConn, RoomsMatch, RoomsFit, Identities, S.Unique;
  }

  // Whom an operation leaves alone

  /** All the service knows about connection d is the same. */
  ghost predicate SameFor(g: Game, h: Game, d: uint32) {
    && (d in g.conns <==> d in h.conns) && (d in g.conns ==> h.conns[d] == g.conns[d])
    && h.rooms.Keys == g.rooms.Keys
    && (forall r :: r in g.rooms ==> (d in h.rooms[r].members <==> d in g.rooms[r].members))
    && (forall k :: k in g.sessions.table && g.sessions.table[k].bound && g.sessions.table[k].connId == d ==>
          k in h.sessions.table && h.sessions.table[k].bound && h.sessions.table[k].connId == d)
    && (S.HasConn(h.sessions.table, d) ==> S.HasConn(g.sessions.table, d))
    && (d in h.stopped <==> d in g.stopped)
  }

  /** The connections an operation is about: its own one, those of the account that logs in, those with a session that
      is over or with a deadline that has passed, all. */
  ghost predicate Concerns(g: Game, op: Op, d: uint32) {
    match op
    case LoginOp(_, account, _, _, _) =>
      exists k :: k in g.sessions.table && g.sessions.table[k].accountId == account
                  && g.sessions.table[k].bound && g.sessions.table[k].connId == d
    case SweepOp(now) =>
      || (exists k :: k in g.sessions.table && g.sessions.table[k].bound && g.sessions.table[k].connId == d
                      && S.Find(g.sessions.table, k, now).None?)
      || (d in g.conns && g.conns[d].authDeadline.Some? && g.conns[d].authDeadline.value <= now)
    case CloseOp => d in g.conns
    case _ => op.c == d
  }

  /** An operation changes nothing for the connections it is not about. */
  lemma OthersUntouched(g: Game, op: Op, d: uint32, accounts: map<string, uint64>)
    requires Inv(g, accounts) && Proper(g, op, accounts) && !Concerns(g, op, d)
    ensures SameFor(g, Step(g, op), d)
  {
    match op
    case LoginOp(token, account, player, ttl, now) =>
      LoginUntouched(g, token, account, player, ttl, now, d);
    case SweepOp(now) => SweepUntouched(g, now, d);
    case _ =>
      OtherUntouched(g, op, d, accounts);
  }

  lemma LoginUntouched(g: Game, token: Option<S.Token>, account: string, player: uint64, ttl: int, now: int, d: uint32)
    requires forall k ::
               k in g.sessions.table && g.sessions.table[k].accountId == account && g.sessions.table[k].bound ==>
                 g.sessions.table[k].connId != d
    requires token.Some? ==> token.value !in g.sessions.table
    ensures SameFor(g, Login(g, token, account, player, ttl, now), d)
  {
    hide S.IssueError;
    if !g.closed && S.IssueError(g.sessions, token, account, player, ttl, now).None? && token.Some? {
      assert d !in ConnsOf(g.sessions.table, account);
    }
  }

  lemma SweepUntouched(g: Game, now: int, d: uint32)
    requires !Concerns(g, SweepOp(now), d)
    ensures SameFor(g, Sweep(g, now), d)
  {
    forall k | k in g.sessions.table && g.sessions.table[k].bound && g.sessions.table[k].connId == d
      ensures !S.Expired(g.sessions.table[k], now)
    {
      assert S.Find(g.sessions.table, k, now).Some?;
    }
    assert d !in Overdue(g, now);
  }

  lemma OtherUntouched(g: Game, op: Op, d: uint32, accounts: map<string, uint64>)
    requires Inv(g, accounts) && !op.LoginOp? && !op.SweepOp? && !Concerns(g, op, d)
    ensures SameFor(g, Step(g, op), d)
  {
    hide S.Unique, Identities, RoomsFit;
    match op
    case AuthenticateOp(c, token, now, later) =>
      hide S.BindError;
      if CanAuthenticate(g, c, token, now, later) {
        S.Bindable(g.sessions, token, c, later);
      }
    case _ =>
  }
}
