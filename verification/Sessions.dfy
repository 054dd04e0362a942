/** session.Manager: the token table and its three indexes, updated together. Every operation does to the
    table what SessionTable says, and keeps the indexes exact. */
module Sessions {
  import opened Binary
  import opened Options
  import opened T = SessionTable

  /** Accounts and players are bijections with the table; the connection index holds exactly the bound sessions. */
  ghost predicate Indexed(t: Table, accounts: map<string, Token>, players: map<uint64, Token>,
                          conns: map<uint32, Token>)
  {
    && (forall k :: k in t ==> t[k].token == k)
    && (forall k :: k in t ==> t[k].accountId in accounts && accounts[t[k].accountId] == k)
    && (forall a :: a in accounts ==> accounts[a] in t && t[accounts[a]].accountId == a)
    && (forall k :: k in t ==> t[k].playerId in players && players[t[k].playerId] == k)
    && (forall p :: p in players ==> players[p] in t && t[players[p]].playerId == p)
    && (forall k :: k in t && t[k].bound ==> t[k].connId in conns && conns[t[k].connId] == k)
    && (forall c :: c in conns ==> conns[c] in t && t[conns[c]].bound && t[conns[c]].connId == c)
  }

  /** Exact indexes exist only for tables in which accounts, players and connections are unique. */
  lemma IndexedUnique(t: Table, accounts: map<string, Token>, players: map<uint64, Token>, conns: map<uint32, Token>)
    requires Indexed(t, accounts, players, conns)
    ensures Unique(t)
  {
  }

  lemma IndexedTokens(t: Table, accounts: map<string, Token>, players: map<uint64, Token>, conns: map<uint32, Token>)
    requires Indexed(t, accounts, players, conns)
    ensures forall k :: k in t ==> t[k].token == k
  {
  }

  lemma IndexedWithout(t: Table, accounts: map<string, Token>, players: map<uint64, Token>, conns: map<uint32, Token>,
                       k: Token)
    requires Indexed(t, accounts, players, conns) && k in t
    ensures Indexed(t - {k}, accounts - {t[k].accountId}, players - {t[k].playerId},
                    if t[k].bound then conns - {t[k].connId} else conns)
  {
  }

  lemma IndexedIssue(t: Table, accounts: map<string, Token>, players: map<uint64, Token>, conns: map<uint32, Token>,
                     v: Session)
    requires Indexed(t, accounts, players, conns) && v.token !in t && !v.bound
    requires v.accountId !in accounts && v.playerId !in players
    ensures Indexed(t[v.token := v], accounts[v.accountId := v.token], players[v.playerId := v.token], conns)
  {
  }

  lemma IndexedLogin(t: Table, accounts: map<string, Token>, players: map<uint64, Token>, conns: map<uint32, Token>,
                     v: Session)
    requires Indexed(t, accounts, players, conns) && v.token !in t && v.bound
    requires v.accountId !in accounts && v.connId !in conns
    ensures Indexed(t[v.token := v], accounts[v.accountId := v.token], players[v.playerId := v.token],
                    conns[v.connId := v.token])
            <==> !HasPlayer(t, v.playerId)
  {
    if HasPlayer(t, v.playerId) {
      var k :| k in t && t[k].playerId == v.playerId;
      assert t[v.token := v][k] == t[k];
    }
  }

  lemma IndexedBind(t: Table, accounts: map<string, Token>, players: map<uint64, Token>, conns: map<uint32, Token>,
                    k: Token, c: uint32, now: int)
    requires Indexed(t, accounts, players, conns) && k in t && (t[k].bound ==> t[k].connId == c)
    requires c in conns ==> conns[c] == k
    ensures Indexed(t[k := t[k].(connId := c, bound := true, updatedAt := now)], accounts, players, conns[c := k])
  {
  }

  // What scanning finds, the indexes find

  lemma AccountLookup(t: Table, accounts: map<string, Token>, players: map<uint64, Token>, conns: map<uint32, Token>,
                      a: string)
    requires Indexed(t, accounts, players, conns)
    ensures HasAccount(t, a) <==> a in accounts
    ensures a in accounts ==> accounts[a] in t && t[accounts[a]].token == accounts[a] && t[accounts[a]].accountId == a
    ensures WithoutAccount(t, a) == if a in accounts then t - {accounts[a]} else t
  {
  }

  lemma ConnLookup(t: Table, accounts: map<string, Token>, players: map<uint64, Token>, conns: map<uint32, Token>,
                   c: uint32)
    requires Indexed(t, accounts, players, conns)
    ensures HasConn(t, c) <==> c in conns
    ensures c in conns ==> conns[c] in t && t[conns[c]].token == conns[c] && t[conns[c]].bound
                           && t[conns[c]].connId == c
    ensures WithoutConn(t, c) == if c in conns then t - {conns[c]} else t
  {
  }

  lemma PlayerLookup(t: Table, accounts: map<string, Token>, players: map<uint64, Token>, conns: map<uint32, Token>,
                     p: uint64)
    requires Indexed(t, accounts, players, conns)
    ensures HasPlayer(t, p) <==> p in players
    ensures p in players ==> players[p] in t && t[players[p]].token == players[p] && t[players[p]].playerId == p
  {
  }

  /** The checks of Issue, by index. */
  lemma IssueChecks(t: Table, accounts: map<string, Token>, players: map<uint64, Token>, conns: map<uint32, Token>,
                    a: string, p: uint64, now: int)
    requires Indexed(t, accounts, players, conns)
    ensures (exists k :: k in t && t[k].playerId == p && t[k].accountId != a)
            <==> p in players && players[p] in t && t[players[p]].accountId != a
    ensures (exists k :: k in t && t[k].accountId == a && !Expired(t[k], now))
            <==> a in accounts && accounts[a] in t && !Expired(t[accounts[a]], now)
    ensures p in players && players[p] in t && t[players[p]].accountId == a ==>
              a in accounts && accounts[a] == players[p]
  {
  }

  class Manager {
    const policy: Policy
    var byToken: Table
    var byAccountId: map<string, Token>
    var byPlayerId: map<uint64, Token>
    var byConnId: map<uint32, Token>
    /** The last automatic player id of a manager made by NewManager. */
    var last: Option<uint64>

    ghost predicate Valid() reads this { Indexed(byToken, byAccountId, byPlayerId, byConnId) }

    ghost function View(): State reads this { State(policy, byToken, last) }

    /** New. */
    constructor (policy: Policy)
      ensures Valid() && View() == State(policy, map[], None)
    {
      this.policy := policy;
      byToken, byAccountId, byPlayerId, byConnId, last := map[], map[], map[], map[], None;
    }

    /** NewManager. */
    constructor Legacy(startPlayerId: uint64)
      ensures Valid() && View() == State(ReplaceExisting, map[], Some(startPlayerId))
    {
      policy := ReplaceExisting;
      byToken, byAccountId, byPlayerId, byConnId, last := map[], map[], map[], map[], Some(startPlayerId);
    }

    method RemoveLocked(token: Token)
      requires Valid()
      modifies this
      ensures Valid() && View() == old(View()).(table := old(byToken) - {token})
      ensures token in old(byToken) ==>
                && byAccountId == old(byAccountId) - {old(byToken)[token].accountId}
                && byPlayerId == old(byPlayerId) - {old(byToken)[token].playerId}
                && byConnId == if old(byToken)[token].bound then old(byConnId) - {old(byToken)[token].connId}
                               else old(byConnId)
    {
      if token !in byToken {
        assert byToken - {token} == byToken;
        return;
      }
      var session := byToken[token];
      IndexedWithout(byToken, byAccountId, byPlayerId, byConnId, token);
      assert session.bound ==> byConnId[session.connId] == token;
      byToken := byToken - {token};
      byAccountId := byAccountId - {session.accountId};
      byPlayerId := byPlayerId - {session.playerId};
      if session.bound && session.connId in byConnId && byConnId[session.connId] == token {
        byConnId := byConnId - {session.connId};
      }
    }

    /** A failed Issue changes nothing. A successful one replaces the session of the account, if it has one. */
    method Issue(token: Option<Token>, accountId: string, playerId: uint64, ttl: int, now: int)
      returns (r: Result<(Session, Option<Session>), SessionError>)
      requires Valid() && (token.Some? ==> token.value !in byToken)
      modifies this
      ensures Valid()
      ensures View() == T.Issue(old(View()), token, accountId, playerId, ttl, now)
      ensures r.Err? <==> IssueError(old(View()), token, accountId, playerId, ttl, now).Some?
      ensures r.Err? ==> IssueError(old(View()), token, accountId, playerId, ttl, now) == Some(r.error)
      ensures r.Ok? ==> Opens(byToken, r.value.0, token.value, accountId, playerId, now + ttl)
      ensures r.Ok? && r.value.1.Some? ==>
                r.value.1.value in old(byToken).Values && r.value.1.value.accountId == accountId
      ensures r.Ok? && r.value.1.None? ==> !HasAccount(old(byToken), accountId)
    {
      hide Indexed, WithoutAccount, HasAccount, HasPlayer, Expired;
      if accountId == "" || playerId == 0 || ttl <= 0 {
        return Err(InvalidIdentity);
      }
      if token.None? {
        return Err(NoToken);
      }
      AccountLookup(byToken, byAccountId, byPlayerId, byConnId, accountId);
      PlayerLookup(byToken, byAccountId, byPlayerId, byConnId, playerId);
      IssueChecks(byToken, byAccountId, byPlayerId, byConnId, accountId, playerId, now);
      if playerId in byPlayerId && byToken[byPlayerId[playerId]].accountId != accountId {
        return Err(PlayerTaken);
      }
      var value := Fresh(token.value, accountId, playerId, now, ttl);
      var replaced := None;
      if accountId in byAccountId {
        var oldToken := byAccountId[accountId];
        if policy == RejectExisting && !Expired(byToken[oldToken], now) {
          return Err(AccountActive);
        }
        replaced := Some(byToken[oldToken]);
        RemoveLocked(oldToken);
      }
      assert byToken == WithoutAccount(old(byToken), accountId);
      IndexedIssue(byToken, byAccountId, byPlayerId, byConnId, value);
      byToken := byToken[token.value := value];
      byAccountId := byAccountId[accountId := token.value];
      byPlayerId := byPlayerId[playerId := token.value];
      if last.Some? && last.value < playerId {
        last := Some(playerId);
      }
      r := Ok((value, replaced));
    }

    /** A failed Bind changes nothing. */
    method Bind(token: Token, c: uint32, now: int) returns (r: Result<Session, SessionError>)
      requires Valid()
      modifies this
      ensures Valid()
      ensures View() == T.Bind(old(View()), token, c, now)
      ensures r.Err? <==> BindError(old(View()), token, c, now).Some?
      ensures r.Err? ==> BindError(old(View()), token, c, now) == Some(r.error)
      ensures r.Ok? ==> token in byToken && r.value == byToken[token] && r.value.bound && r.value.connId == c
    {
      if token !in byToken || Expired(byToken[token], now) {
        return Err(InvalidToken);
      }
      var value := byToken[token];
      if value.bound && value.connId != c {
        return Err(AlreadyBound);
      }
      if c in byConnId && byConnId[c] != token {
        assert byConnId[c] in byToken;
        return Err(AlreadyAuthenticated);
      }
      IndexedBind(byToken, byAccountId, byPlayerId, byConnId, token, c, now);
      byToken := byToken[token := value.(connId := c, bound := true, updatedAt := now)];
      byConnId := byConnId[c := token];
      r := Ok(byToken[token]);
    }

    method Touch(token: Token, now: int) returns (r: Result<(), SessionError>)
      requires Valid()
      modifies this
      ensures Valid() && View() == T.Touch(old(View()), token, now)
      ensures r == if token in old(byToken) && !Expired(old(byToken)[token], now) then Ok(()) else Err(NotFound)
    {
      if token !in byToken || Expired(byToken[token], now) {
        return Err(NotFound);
      }
      byToken := byToken[token := byToken[token].(updatedAt := now)];
      r := Ok(());
    }

    method LogoutByToken(token: Token) returns (r: Result<Session, SessionError>)
      requires Valid()
      modifies this
      ensures Valid() && View() == T.LogoutByToken(old(View()), token)
      ensures r == if token in old(byToken) then Ok(old(byToken)[token]) else Err(NotFound)
    {
      if token !in byToken {
        assert byToken - {token} == byToken;
        return Err(NotFound);
      }
      r := Ok(byToken[token]);
      RemoveLocked(token);
    }

    method LogoutByConnId(c: uint32) returns (r: Result<Session, SessionError>)
      requires Valid()
      modifies this
      ensures Valid() && View() == LogoutByConn(old(View()), c)
      ensures r.Ok? <==> HasConn(old(byToken), c)
      ensures r.Ok? ==> r.value.token in old(byToken) && old(byToken)[r.value.token] == r.value && r.value.bound
                        && r.value.connId == c
      ensures r.Err? ==> r == Err(NotFound)
    {
      ConnLookup(byToken, byAccountId, byPlayerId, byConnId, c);
      hide Indexed, HasConn, WithoutConn;
      if c !in byConnId {
        return Err(NotFound);
      }
      r := Ok(byToken[byConnId[c]]);
      RemoveLocked(byConnId[c]);
    }

    /** Removes exactly the expired sessions, and returns each of them once, in some order. */
    method RemoveExpired(now: int) returns (removed: seq<Session>)
      requires Valid()
      modifies this
      ensures Valid() && View() == T.RemoveExpired(old(View()), now)
      ensures forall v :: v in removed <==> v.token in old(byToken) && old(byToken)[v.token] == v && Expired(v, now)
      ensures forall i, j :: 0 <= i < j < |removed| ==> removed[i].token != removed[j].token
    {
      hide Indexed, Expired;
      IndexedTokens(byToken, byAccountId, byPlayerId, byConnId);
      removed := [];
      ghost var table := byToken;
      var rest := byToken.Keys;
      assert byToken == map k | k in table :: table[k];
      while rest != {}
        invariant Valid() && rest <= byToken.Keys && View() == old(View()).(table := byToken)
        invariant byToken == map k | k in table && (k in rest || !Expired(table[k], now)) :: table[k]
        invariant forall v :: v in removed <==>
                              v.token in table && v.token !in rest && table[v.token] == v && Expired(v, now)
        invariant forall i, j :: 0 <= i < j < |removed| ==> removed[i].token != removed[j].token
        decreases rest
      {
        var token :| token in rest;
        rest := rest - {token};
        var value := byToken[token];
        if Expired(value, now) {
          removed := removed + [value];
          RemoveLocked(token);
        }
      }
    }

    /** The deprecated automatic login. With the counter at its maximum the new id may be that of a live
        session; exactly then the indexes are no longer exact. */
    method Login(token: Option<Token>, accountId: string, c: uint32, now: int)
        returns (r: Result<(Session, Option<Session>), SessionError>)
      requires Valid() && (token.Some? ==> token.value !in byToken)
      modifies this
      ensures View() == T.Login(old(View()), token, accountId, c, now)
      ensures Valid() <==> !Clashes(old(View()), LoginOp(token, accountId, c, now))
      ensures r.Err? <==> LoginError(old(View()), token, accountId).Some?
      ensures r.Err? ==> LoginError(old(View()), token, accountId) == Some(r.error)
      ensures r.Ok? ==> token.value in byToken && r.value.0 == byToken[token.value]
      ensures r.Ok? && r.value.1.Some? ==>
                r.value.1.value in old(byToken).Values && r.value.1.value.accountId == accountId
      ensures r.Ok? && r.value.1.None? ==> !HasAccount(old(byToken), accountId)
    {
      hide Indexed, WithoutAccount, WithoutConn, HasAccount, HasPlayer, HasConn, Expired;
      if last.None? {
        return Err(NoAutomaticIds);
      }
      if accountId == "" {
        return Err(InvalidIdentity);
      }
      if token.None? {
        return Err(NoToken);
      }
      last := Some(NextId(last.value));
      var session := Session(token.value, accountId, last.value, c, true, None, now, now);
      var replaced := None;
      AccountLookup(byToken, byAccountId, byPlayerId, byConnId, accountId);
      if accountId in byAccountId {
        replaced := Some(byToken[byAccountId[accountId]]);
        RemoveLocked(byAccountId[accountId]);
      }
      ConnLookup(byToken, byAccountId, byPlayerId, byConnId, c);
      if c in byConnId {
        RemoveLocked(byConnId[c]);
      }
      assert byToken == Spared(old(byToken), accountId, c);
      IndexedLogin(byToken, byAccountId, byPlayerId, byConnId, session);
      byToken := byToken[token.value := session];
      byAccountId := byAccountId[accountId := token.value];
      byPlayerId := byPlayerId[session.playerId := token.value];
      byConnId := byConnId[c := token.value];
      r := Ok((session, replaced));
    }

    // Lookups never return a session that has expired

    method GetByToken(token: Token, now: int) returns (r: Result<Session, SessionError>)
      ensures r == if Find(byToken, token, now).Some? then Ok(Find(byToken, token, now).value) else Err(NotFound)
    {
      if token !in byToken || Expired(byToken[token], now) {
        return Err(NotFound);
      }
      r := Ok(byToken[token]);
    }

    method GetByConnId(c: uint32, now: int) returns (r: Result<Session, SessionError>)
      requires Valid()
      ensures r.Ok? <==> HasLive(byToken, c, now)
      ensures r.Ok? ==> r.value.token in byToken && byToken[r.value.token] == r.value && r.value.bound
                        && r.value.connId == c
    {
      if c !in byConnId {
        return Err(NotFound);
      }
      var value := byToken[byConnId[c]];
      if Expired(value, now) {
        return Err(NotFound);
      }
      r := Ok(value);
    }

    method GetByPlayerId(p: uint64, now: int) returns (r: Result<Session, SessionError>)
      requires Valid()
      ensures r.Ok? <==> exists k :: k in byToken && byToken[k].playerId == p && !Expired(byToken[k], now)
      ensures r.Ok? ==> r.value.token in byToken && byToken[r.value.token] == r.value && r.value.playerId == p
    {
      if p !in byPlayerId {
        return Err(NotFound);
      }
      var value := byToken[byPlayerId[p]];
      if Expired(value, now) {
        return Err(NotFound);
      }
      r := Ok(value);
    }
  }
}
