/** What callers of the session manager can rely on, in terms of what they find: the tokens that are found before and
    after each operation, for how long, and when each operation is refused. */
module SessionLaws {
  import opened Binary
  import opened Options
  import opened SessionTable

  // What each operation does to what is found

  /** A new session is found under its token until its time is over, and can be bound and is kept by a sweep for
      exactly as long; the session of its account that it replaces is found no more; the others are as they were. */
  lemma IssueGives(s: State, token: Token, account: string, player: uint64, ttl: int, now: int)
    requires token !in s.table && IssueError(s, Some(token), account, player, ttl, now).None?
    ensures var after := Issue(s, Some(token), account, player, ttl, now);
            && token in after.table && Opens(after.table, after.table[token], token, account, player, now + ttl)
            && after.table[token].createdAt == after.table[token].updatedAt == now
            && (forall c, at :: !HasConn(after.table, c) ==>
                  (BindError(after, token, c, at).None? <==> at < now + ttl))
            && (forall at :: token in RemoveExpired(after, at).table <==> at < now + ttl)
            && forall k, at :: k != token ==>
                 Find(after.table, k, at)
                 == if k in s.table && s.table[k].accountId == account then None else Find(s.table, k, at)
  {
    var after := Issue(s, Some(token), account, player, ttl, now);
    forall c, at | !HasConn(after.table, c) ensures BindError(after, token, c, at).None? <==> at < now + ttl {
    }
  }

  /** When a session is issued, and what is wrong otherwise: identity, token, a player of another account, and, if
      sessions are not to be replaced, a session of the account that is still found. */
  lemma IssueAccepted(s: State, token: Option<Token>, account: string, player: uint64, ttl: int, now: int)
    ensures var e := IssueError(s, token, account, player, ttl, now);
            && (e == Some(InvalidIdentity) <==> account == "" || player == 0 || ttl <= 0)
            && (account != "" && player != 0 && ttl > 0 && token.Some? ==>
                  if exists k :: k in s.table && s.table[k].playerId == player && s.table[k].accountId != account
                  then e == Some(PlayerTaken)
                  else if s.policy == RejectExisting
                          && exists k :: k in s.table && s.table[k].accountId == account && Find(s.table, k, now).Some?
                  then e == Some(AccountActive) else e.None?)
  {
    if k :| k in s.table && s.table[k].accountId == account && !Expired(s.table[k], now) {
      assert Find(s.table, k, now).Some?;
    }
    if k :| k in s.table && s.table[k].accountId == account && Find(s.table, k, now).Some? {
      assert !Expired(s.table[k], now);
    }
  }

  /** A bound session is the same session, found as long as before, now also by its connection. */
  lemma BindGives(s: State, token: Token, c: uint32, now: int)
    requires Unique(s.table) && BindError(s, token, c, now).None?
    ensures var after := Bind(s, token, c, now).table;
            && Find(s.table, token, now).Some?
            && (forall k, at :: k != token ==> Find(after, k, at) == Find(s.table, k, at))
            && (forall at :: (Find(after, token, at).Some? <==> Find(s.table, token, at).Some?)
                             && (HasLive(after, c, at) <==> Find(s.table, token, at).Some?))
            && after[token] == s.table[token].(bound := true, connId := c, updatedAt := now)
  {
    var after := Bind(s, token, c, now).table;
    forall at ensures HasLive(after, c, at) <==> Find(s.table, token, at).Some? {
      if Find(s.table, token, at).Some? {
        assert after[token].bound && after[token].connId == c && !Expired(after[token], at);
      }
    }
  }

  /** A token is refused exactly when it is not found, is bound to another connection, or the connection is bound to
      another session. */
  lemma BindAccepted(s: State, token: Token, c: uint32, now: int)
    ensures var e := BindError(s, token, c, now);
            && (e == Some(InvalidToken) <==> Find(s.table, token, now).None?)
            && (Find(s.table, token, now).Some? ==>
                  var v := Find(s.table, token, now).value;
                  if v.bound && v.connId != c then e == Some(AlreadyBound)
                  else if exists k :: k in s.table && k != token && s.table[k].bound && s.table[k].connId == c
                  then e == Some(AlreadyAuthenticated) else e.None?)
  {
  }

  /** So no token serves two connections and no connection two tokens. */
  lemma BindOnce(s: State, token: Token, c: uint32, now: int, other: Token, d: uint32, later: int)
    requires Unique(s.table) && BindError(s, token, c, now).None?
    ensures d != c && Find(s.table, token, later).Some? ==>
              BindError(Bind(s, token, c, now), token, d, later) == Some(AlreadyBound)
    ensures other != token && Find(s.table, other, later).Some? && !s.table[other].bound ==>
              BindError(Bind(s, token, c, now), other, c, later) == Some(AlreadyAuthenticated)
  {
    var after := Bind(s, token, c, now);
    assert after.table[token].bound && after.table[token].connId == c;
    BindGives(s, token, c, now);
  }

  /** Logging out and sweeping make exactly these sessions vanish; touching changes one time stamp. */
  lemma RemovalsGive(s: State, token: Token, c: uint32, now: int, k: Token, at: int)
    ensures Find(LogoutByToken(s, token).table, k, at) == if k == token then None else Find(s.table, k, at)
    ensures Find(LogoutByConn(s, c).table, k, at)
            == if k in s.table && s.table[k].bound && s.table[k].connId == c then None else Find(s.table, k, at)
    ensures Find(RemoveExpired(s, now).table, k, at)
            == if Find(s.table, k, now).Some? then Find(s.table, k, at) else None
    ensures at >= now ==> Find(RemoveExpired(s, now).table, k, at) == Find(s.table, k, at)
    ensures Find(Touch(s, token, now).table, k, at)
            == if k == token && Find(s.table, k, now).Some? && Find(s.table, k, at).Some?
               then Some(s.table[k].(updatedAt := now)) else Find(s.table, k, at)
  {
  }

  /** An automatic login: a session bound to the connection for ever, in place of those of its account and of its
      connection, with the number after the last one. */
  lemma LoginGives(s: State, token: Token, account: string, c: uint32, now: int, k: Token, at: int)
    requires token !in s.table && account != "" && s.last.Some?
    ensures var after := Login(s, Some(token), account, c, now);
            && after.last == Some((s.last.value + 1) % TWO64)
            && HasLive(after.table, c, at)
            && Find(after.table, token, at).Some?
            && (var v := after.table[token];
                && v.token == token && v.accountId == account && v.bound && v.connId == c
                && Some(v.playerId) == after.last && v.createdAt == v.updatedAt == now)
            && (k != token ==>
                  Find(after.table, k, at)
                  == if k in s.table
                        && (s.table[k].accountId == account || (s.table[k].bound && s.table[k].connId == c))
                     then None else Find(s.table, k, at))
  {
    var after := Login(s, Some(token), account, c, now).table;
    assert after[token].bound && after[token].connId == c && !Expired(after[token], at);
  }

  // The life of a session

  /** A session vanishes only when it is logged out, swept after its time, or replaced. */
  lemma RemovalReasons(s: State, op: Op, k: Token)
    requires TokenFresh(s, op) && k in s.table && k !in Step(s, op).table
    ensures var v := s.table[k];
            match op
            case LogoutTokenOp(token) => token == k
            case LogoutConnOp(c) => v.bound && v.connId == c
            case ExpireOp(now) => v.expiresAt.Some? && v.expiresAt.value <= now
            case IssueOp(_, account, _, _, _) => v.accountId == account
            case LoginOp(_, account, c, _) => v.accountId == account || (v.bound && v.connId == c)
            case _ => false
  {
  }

  /** Tokens are always fresh. */
  predicate AllFresh(s: State, ops: seq<Op>) {
    ops == [] || (AllFresh(s, ops[..|ops| - 1]) && TokenFresh(Run(s, ops[..|ops| - 1]), ops[|ops| - 1]))
  }

  lemma {:induction false} KeptForLife(s: State, ops: seq<Op>, k: Token)
    requires AllFresh(s, ops) && k in s.table && k in Run(s, ops).table
    requires forall i :: 0 <= i < |ops| ==> NewToken(ops[i]) != Some(k)
    ensures var v, v' := s.table[k], Run(s, ops).table[k];
            v'.accountId == v.accountId && v'.playerId == v.playerId && v'.expiresAt == v.expiresAt
  {
    if ops != [] {
      hide Step;
      var last := |ops| - 1;
      var before := Run(s, ops[..last]);
      NoNewToken(before, ops[last], k);
      KeptForLife(s, ops[..last], k);
      BoundForLife(before, ops[last], k);
    }
  }

  /** A token comes into the table only when it is issued. */
  lemma NoNewToken(s: State, op: Op, k: Token)
    requires NewToken(op) != Some(k) && k in Step(s, op).table
    ensures k in s.table
  {
  }

  /** Whatever happens after a session is issued, as long as its token is in the table it is found exactly until its
      time is over, with its account and player. No session outlives its time. */
  lemma IssuedLifetime(s: State, token: Token, account: string, player: uint64, ttl: int, now: int, ops: seq<Op>,
                       at: int)
    requires token !in s.table && IssueError(s, Some(token), account, player, ttl, now).None?
    requires var issued := Issue(s, Some(token), account, player, ttl, now);
             AllFresh(issued, ops) && forall i :: 0 <= i < |ops| ==> NewToken(ops[i]) != Some(token)
    ensures var table := Run(Issue(s, Some(token), account, player, ttl, now), ops).table;
            && (Find(table, token, at).Some? <==> token in table && at < now + ttl)
            && (token in table ==> table[token].accountId == account && table[token].playerId == player)
  {
    hide Run, AllFresh;
    var issued := Issue(s, Some(token), account, player, ttl, now);
    if token in Run(issued, ops).table {
      KeptForLife(issued, ops, token);
    }
  }
}
