/** What the session manager of session/session.go and session/legacy.go means: one table of sessions,
    searched by scanning. The manager's own indexes are in Sessions. Times are numbers; fresh tokens and
    the clock are parameters. */
module SessionTable {
  import opened Binary
  import opened Options

  type Token = string

  datatype Session = Session(
    token: Token, accountId: string, playerId: uint64, connId: uint32, bound: bool,
    expiresAt: Option<int>, createdAt: int, updatedAt: int)

  datatype Policy = RejectExisting | ReplaceExisting

  datatype SessionError =
    | InvalidIdentity
    | NoToken
    | PlayerTaken
    | AccountActive
    | InvalidToken
    | AlreadyBound
    | AlreadyAuthenticated
    | NotFound
    | NoAutomaticIds

  type Table = map<Token, Session>

  predicate Expired(s: Session, now: int) { s.expiresAt.Some? && s.expiresAt.value <= now }

  /** What GetByToken finds at this time. */
  function Find(t: Table, token: Token, at: int): Option<Session> {
    if token in t && (t[token].expiresAt.None? || at < t[token].expiresAt.value) then Some(t[token]) else None
  }

  /** Under this token is the unbound session of this account and player, and it is found before that time only. */
  ghost predicate Opens(t: Table, v: Session, token: Token, account: string, player: uint64, until: int) {
    && v.token == token && v.accountId == account && v.playerId == player && !v.bound
    && forall at :: Find(t, token, at) == if at < until then Some(v) else None
  }

  // Scans

  predicate HasAccount(t: Table, account: string) { exists k :: k in t && t[k].accountId == account }

  predicate HasConn(t: Table, c: uint32) { exists k :: k in t && t[k].bound && t[k].connId == c }

  /** A session that has not expired is bound to this connection. */
  predicate HasLive(t: Table, c: uint32, now: int) {
    exists k :: k in t && t[k].bound && t[k].connId == c && !Expired(t[k], now)
  }

  predicate HasPlayer(t: Table, player: uint64) { exists k :: k in t && t[k].playerId == player }

  function WithoutAccount(t: Table, account: string): Table { map k | k in t && t[k].accountId != account :: t[k] }

  function WithoutConn(t: Table, c: uint32): Table { map k | k in t && !(t[k].bound && t[k].connId == c) :: t[k] }

  function Living(t: Table, now: int): Table { map k | k in t && !Expired(t[k], now) :: t[k] }

  /** One session per account, per player and per connection, filed under its token. */
  predicate Unique(t: Table) {
    && (forall k :: k in t ==> t[k].token == k)
    && (forall j, k :: j in t && k in t && t[j].accountId == t[k].accountId ==> j == k)
    && (forall j, k :: j in t && k in t && t[j].playerId == t[k].playerId ==> j == k)
    && (forall j, k :: j in t && k in t && t[j].bound && t[k].bound && t[j].connId == t[k].connId ==> j == k)
  }

  // Operations on the table. State: the table and, for a legacy manager, the last automatic player id.

  datatype State = State(policy: Policy, table: Table, last: Option<uint64>)

  function Fresh(token: Token, account: string, player: uint64, now: int, ttl: int): Session {
    Session(token, account, player, 0, false, Some(now + ttl), now, now)
  }

  function IssueError(s: State, token: Option<Token>, account: string, player: uint64, ttl: int, now: int)
      : Option<SessionError>
  {
    if account == "" || player == 0 || ttl <= 0 then Some(InvalidIdentity)
    else if token.None? then Some(NoToken)
    else if exists k :: k in s.table && s.table[k].playerId == player && s.table[k].accountId != account
      then Some(PlayerTaken)
    else if && s.policy == RejectExisting
            && exists k :: k in s.table && s.table[k].accountId == account && !Expired(s.table[k], now)
      then Some(AccountActive)
    else None
  }

  function Issue(s: State, token: Option<Token>, account: string, player: uint64, ttl: int, now: int): State {
    if IssueError(s, token, account, player, ttl, now).Some? || token.None? then s
    else s.(table := WithoutAccount(s.table, account)[token.value := Fresh(token.value, account, player, now, ttl)],
            last := if s.last.Some? && s.last.value < player then Some(player) else s.last)
  }

  function BindError(s: State, token: Token, c: uint32, now: int): Option<SessionError> {
    if token !in s.table || Expired(s.table[token], now) then Some(InvalidToken)
    else if s.table[token].bound && s.table[token].connId != c then Some(AlreadyBound)
    else if exists k :: k in s.table && k != token && s.table[k].bound && s.table[k].connId == c
      then Some(AlreadyAuthenticated)
    else None
  }

  function Bind(s: State, token: Token, c: uint32, now: int): State {
    if BindError(s, token, c, now).Some? then s
    else s.(table := s.table[token := s.table[token].(connId := c, bound := true, updatedAt := now)])
  }

  lemma Bindable(s: State, token: Token, c: uint32, now: int)
    requires BindError(s, token, c, now).None?
    ensures token in s.table && (s.table[token].bound ==> s.table[token].connId == c)
  {
  }

  function LogoutByToken(s: State, token: Token): State { s.(table := s.table - {token}) }

  function LogoutByConn(s: State, c: uint32): State { s.(table := WithoutConn(s.table, c)) }

  function RemoveExpired(s: State, now: int): State { s.(table := Living(s.table, now)) }

  function Touch(s: State, token: Token, now: int): State {
    if token in s.table && !Expired(s.table[token], now) then
      s.(table := s.table[token := s.table[token].(updatedAt := now)])
    else s
  }

  function LoginError(s: State, token: Option<Token>, account: string): Option<SessionError> {
    if s.last.None? then Some(NoAutomaticIds)
    else if account == "" then Some(InvalidIdentity)
    else if token.None? then Some(NoToken)
    else None
  }

  /** The id an automatic login would get: the counter is 64 bits wide. */
  function NextId(last: uint64): uint64 { if last + 1 == TWO64 then 0 else last + 1 }

  /** The sessions a login leaves in place. */
  function Spared(t: Table, account: string, c: uint32): Table { WithoutConn(WithoutAccount(t, account), c) }

  function Login(s: State, token: Option<Token>, account: string, c: uint32, now: int): State {
    if LoginError(s, token, account).Some? || token.None? || s.last.None? then s
    else
      var id := NextId(s.last.value);
      var session := Session(token.value, account, id, c, true, None, now, now);
      s.(table := Spared(s.table, account, c)[token.value := session],
         last := Some(id))
  }

  // Runs

  datatype Op =
    | IssueOp(token: Option<Token>, accountId: string, playerId: uint64, ttl: int, now: int)
    | BindOp(token': Token, connId: uint32, now: int)
    | LogoutTokenOp(token': Token)
    | LogoutConnOp(connId: uint32)
    | ExpireOp(now: int)
    | TouchOp(token': Token, now: int)
    | LoginOp(token: Option<Token>, accountId: string, connId: uint32, now: int)

  function Step(s: State, op: Op): State {
    match op
    case IssueOp(token, account, player, ttl, now) => Issue(s, token, account, player, ttl, now)
    case BindOp(token, c, now) => Bind(s, token, c, now)
    case LogoutTokenOp(token) => LogoutByToken(s, token)
    case LogoutConnOp(c) => LogoutByConn(s, c)
    case ExpireOp(now) => RemoveExpired(s, now)
    case TouchOp(token, now) => Touch(s, token, now)
    case LoginOp(token, account, c, now) => Login(s, token, account, c, now)
  }

  /** The token an operation would use for a new session. */
  function NewToken(op: Op): Option<Token> {
    if op.IssueOp? || op.LoginOp? then op.token else None
  }

  /** createToken never repeats a token that is in use. */
  predicate TokenFresh(s: State, op: Op) { NewToken(op).Some? ==> NewToken(op).value !in s.table }

  /** A login whose automatic id is that of a session it leaves in place. */
  predicate Clashes(s: State, op: Op) {
    op.LoginOp? && LoginError(s, op.token, op.accountId).None?
    && s.last.Some? && HasPlayer(Spared(s.table, op.accountId, op.connId), NextId(s.last.value))
  }

  lemma UniqueLogin(t: Table, token: Token, v: Session)
    requires Unique(t) && token !in t && v.token == token && v.bound
    requires !HasAccount(t, v.accountId) && !HasConn(t, v.connId)
    ensures Unique(t[token := v]) <==> !HasPlayer(t, v.playerId)
  {
    var after := t[token := v];
    if HasPlayer(t, v.playerId) {
      var k :| k in t && t[k].playerId == v.playerId;
      assert after[k].playerId == after[token].playerId;
    } else {
      forall j, k | j in after && k in after && after[j].playerId == after[k].playerId ensures j == k {
        assert j != token ==> after[j] == t[j];
        assert k != token ==> after[k] == t[k];
      }
      forall j, k | j in after && k in after && after[j].accountId == after[k].accountId ensures j == k {
        assert j != token ==> after[j] == t[j];
        assert k != token ==> after[k] == t[k];
      }
    }
  }

  lemma UniqueIssue(t: Table, token: Token, v: Session)
    requires Unique(t) && token !in t && v.token == token && !v.bound
    requires !HasAccount(t, v.accountId) && !HasPlayer(t, v.playerId)
    ensures Unique(t[token := v])
  {
  }

  lemma UniqueBind(t: Table, token: Token, v: Session)
    requires Unique(t) && token in t && v.token == token && v.accountId == t[token].accountId
    requires v.playerId == t[token].playerId
    requires forall k :: k in t && k != token && t[k].bound && v.bound ==> t[k].connId != v.connId
    ensures Unique(t[token := v])
  {
  }

  /** Removing sessions cannot break anything. */
  lemma UniqueLess(t: Table, less: Table)
    requires Unique(t) && forall k :: k in less ==> k in t && less[k] == t[k]
    ensures Unique(less)
  {
  }

  /** Every operation keeps accounts, players and connections unique, unless it is a login whose automatic
      id has wrapped round to that of a live session; then it never does. */
  lemma UniqueStep(s: State, op: Op)
    requires Unique(s.table) && TokenFresh(s, op)
    ensures Unique(Step(s, op).table) <==> !Clashes(s, op)
  {
    hide Unique;
    match op
    case IssueOp(token, account, player, ttl, now) =>
      if IssueError(s, token, account, player, ttl, now).None? {
        UniqueLess(s.table, WithoutAccount(s.table, account));
        UniqueIssue(WithoutAccount(s.table, account), token.value, Fresh(token.value, account, player, now, ttl));
      }
    case LoginOp(token, account, c, now) =>
      if LoginError(s, token, account).None? {
        var spared := Spared(s.table, account, c);
        UniqueLess(s.table, spared);
        UniqueLogin(spared, token.value, Session(token.value, account, NextId(s.last.value), c, true, None, now, now));
      }
    case BindOp(token, c, now) =>
      if BindError(s, token, c, now).None? {
        TokenOf(s.table, token);
        UniqueBind(s.table, token, s.table[token].(connId := c, bound := true, updatedAt := now));
      }
    case TouchOp(token, now) =>
      if token in s.table {
        TokenOf(s.table, token);
        ConnOf(s.table, token);
        UniqueBind(s.table, token, s.table[token].(updatedAt := now));
      }
    case _ =>
      UniqueLess(s.table, Step(s, op).table);
  }

  lemma TokenOf(t: Table, token: Token)
    requires Unique(t) && token in t
    ensures t[token].token == token
  {
  }

  lemma ConnOf(t: Table, token: Token)
    requires Unique(t) && token in t
    ensures t[token].bound ==> forall k :: k in t && k != token && t[k].bound ==> t[k].connId != t[token].connId
  {
  }

  /** A session keeps its account and player, and once bound its connection, for as long as it lives. */
  lemma BoundForLife(s: State, op: Op, k: Token)
    requires TokenFresh(s, op) && k in s.table && k in Step(s, op).table
    ensures var v, v' := s.table[k], Step(s, op).table[k];
            && v'.token == v.token && v'.accountId == v.accountId && v'.playerId == v.playerId
            && v'.expiresAt == v.expiresAt
            && (v.bound ==> v'.bound && v'.connId == v.connId)
            && (!v.bound && v'.bound ==> op == BindOp(k, v'.connId, op.now) && !Expired(v, op.now))
  {
    match op
    case BindOp(token, c, now) =>
    case _ =>
  }

  // Player ids

  /** The player id handed out by one operation. */
  function Handed(s: State, op: Op): set<uint64> {
    match op
    case IssueOp(token, account, player, ttl, now) =>
      if IssueError(s, token, account, player, ttl, now).None? then {player} else {}
    case LoginOp(token, account, c, now) =>
      if LoginError(s, token, account).None? && s.last.Some? then {NextId(s.last.value)} else {}
    case _ => {}
  }

  function Run(s: State, ops: seq<Op>): State {
    if ops == [] then s else Step(Run(s, ops[..|ops| - 1]), ops[|ops| - 1])
  }

  /** All ids handed out in a run. */
  function HandedBy(s: State, ops: seq<Op>): set<uint64> {
    if ops == [] then {}
    else HandedBy(s, ops[..|ops| - 1]) + Handed(Run(s, ops[..|ops| - 1]), ops[|ops| - 1])
  }

  /** A login that finds the counter at its maximum. */
  predicate Wraps(s: State, op: Op) {
    op.LoginOp? && LoginError(s, op.token, op.accountId).None? && s.last == Some(TWO64 - 1)
  }

  /** Fresh tokens, and no login with the counter at its maximum. */
  predicate Ordinary(s: State, ops: seq<Op>) {
    ops == [] ||
    var before, op := Run(s, ops[..|ops| - 1]), ops[|ops| - 1];
    Ordinary(s, ops[..|ops| - 1]) && TokenFresh(before, op) && !Wraps(before, op)
  }

  /** The counter is never below an id that was handed out; live sessions have ids that were handed out. */
  predicate Ledger(s: State, handed: set<uint64>) {
    && (s.last.Some? ==> forall id :: id in handed ==> id <= s.last.value)
    && (forall k :: k in s.table ==> s.table[k].playerId in handed)
  }

  lemma LedgerStep(s: State, op: Op, handed: set<uint64>)
    requires Ledger(s, handed) && !Wraps(s, op)
    ensures Ledger(Step(s, op), handed + Handed(s, op)) && !Clashes(s, op)
  {
  }

  /** Any mixture of explicit and automatic ids keeps a new manager's sessions unique. */
  lemma {:induction false} OrdinaryRun(s: State, ops: seq<Op>)
    requires s.table == map[] && Ordinary(s, ops)
    ensures Ledger(Run(s, ops), HandedBy(s, ops)) && Unique(Run(s, ops).table)
  {
    hide Step, Handed, Unique, Ledger, Clashes;
    if ops == [] {
      EmptyTable(s);
    } else {
      var before, op := Run(s, ops[..|ops| - 1]), ops[|ops| - 1];
      OrdinaryRun(s, ops[..|ops| - 1]);
      LedgerStep(before, op, HandedBy(s, ops[..|ops| - 1]));
      UniqueStep(before, op);
    }
  }

  lemma EmptyTable(s: State)
    requires s.table == map[]
    ensures Ledger(s, {}) && Unique(s.table)
  {
  }

  /** After any run, the next automatic id exceeds every id handed out before, automatic or explicit, exactly
      when the counter is not at its maximum or nothing was handed out. */
  lemma {:induction false} AutomaticIdIsNew(s: State, ops: seq<Op>)
    requires s.table == map[] && Ordinary(s, ops) && Run(s, ops).last.Some?
    ensures (forall id :: id in HandedBy(s, ops) ==> id < NextId(Run(s, ops).last.value))
            <==> (Run(s, ops).last != Some(TWO64 - 1) || HandedBy(s, ops) == {})
  {
    OrdinaryRun(s, ops);
    var handed := HandedBy(s, ops);
    if handed != {} {
      var id :| id in handed;
      assert id <= Run(s, ops).last.value;
    }
  }

  /** What goes wrong at the maximum: player 1 gets a second live session. */
  lemma WrappedIdsClash(now: int)
    ensures var s := State(ReplaceExisting, map[], Some(TWO64 - 1));
            var ops := [IssueOp(Some("t"), "a", 1, 9, now), LoginOp(Some("u"), "b", 7, now),
                        LoginOp(Some("v"), "c", 8, now)];
            var table := Run(s, ops).table;
            "t" in table && "v" in table && table["t"].playerId == 1 && table["v"].playerId == 1 && !Unique(table)
  {
    var s := State(ReplaceExisting, map[], Some(TWO64 - 1));
    var a, b, c := IssueOp(Some("t"), "a", 1, 9, now), LoginOp(Some("u"), "b", 7, now), LoginOp(Some("v"), "c", 8, now);
    RunMore(s, [], a);
    RunMore(s, [a], b);
    RunMore(s, [a, b], c);
    Distinctness();
    var one, two := Step(s, a), Step(Step(s, a), b);
    assert [] + [a] == [a] && [a] + [b] == [a, b] && [a, b] + [c] == [a, b, c] && Run(s, []) == s;
    hide Run;
    assert one.last == Some(TWO64 - 1);
    assert one.table["t"] == Fresh("t", "a", 1, now, 9);
    assert two.last == Some(0);
    assert two.table["t"] == one.table["t"];
    Clash(two, "t", c);
  }

  lemma RunMore(s: State, ops: seq<Op>, op: Op)
    ensures Run(s, ops + [op]) == Step(Run(s, ops), op)
  {
    assert (ops + [op])[..|ops|] == ops;
  }

  lemma Clash(s: State, k: Token, op: Op)
    requires op.LoginOp? && op.accountId != "" && op.token.Some? && op.token.value != k && s.last.Some?
    requires k in s.table && s.table[k].accountId != op.accountId && !s.table[k].bound
    requires s.table[k].playerId == NextId(s.last.value)
    ensures var table := Step(s, op).table;
            k in table && op.token.value in table
            && table[k].playerId == table[op.token.value].playerId == NextId(s.last.value)
  {
  }

  lemma Distinctness()
    ensures "a" != "b" && "a" != "c" && "t" != "u" && "t" != "v"
  {
    assert "a"[0] != "b"[0] && "a"[0] != "c"[0] && "t"[0] != "u"[0] && "t"[0] != "v"[0];
  }
}
