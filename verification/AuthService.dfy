/**
 auth.service.ts with every request run to completion before the next one starts.
 The class updates the tables as the service does; its specification is the step machine of AuthProtocol
 run with that single request, so the two models cannot drift apart.
 */
module AuthService {
  import opened Wrappers
  import opened AuthTables
  import opened AuthProtocol

  function UsedHashes(db: Tables): set<nat> {
    (set i | 0 <= i < |db.tokens| :: db.tokens[i].hash) + (set i | 0 <= i < |db.resets| :: db.resets[i].hash)
  }

  /** A request alone in the system. Five steps finish the longest call, and a finished request stays as it is. */
  function Alone(db: Tables, now: int, call: Call, nonce: nat, ttl: int): State {
    var s0 := Apply(State(db, [], now, UsedHashes(db), []), Begin(call));
    var s1 := Apply(s0, Step(0, nonce, ttl));
    var s2 := Apply(s1, Step(0, nonce, ttl));
    var s3 := Apply(s2, Step(0, nonce, ttl));
    var s4 := Apply(s3, Step(0, nonce, ttl));
    Apply(s4, Step(0, nonce, ttl))
  }

  /** Sessions and tokens are one-to-one, agree on user and expiry, and are active together. */
  ghost predicate Coherent(db: Tables) {
    && |db.sessions| == |db.tokens|
    && HashesUnique(db.tokens)
    && forall i :: 0 <= i < |db.tokens| ==> PairOk(db.sessions[i], db.tokens[i], i)
  }

  predicate PairOk(session: SessionRow, token: TokenRow, id: nat) {
    && session.token == id
    && session.user == token.user
    && session.expiresAt == token.expiresAt
    && (session.status == Active <==> token.isActive)
  }

  /** The two updates of every revocation, one after the other. */
  function Revoke(db: Tables, w: Selector): Tables {
    var tokens := DeactivateTokens(db.tokens, w);
    db.(tokens := tokens, sessions := RevokeSessions(db.(tokens := tokens), w))
  }

  /** A bulk revocation by owner, token id or hash hits both halves of every pair it touches. */
  lemma RevokingKeepsCoherence(db: Tables, w: Selector)
    requires Coherent(db)
    ensures Coherent(Revoke(db, w))
  {
    forall i | 0 <= i < |db.sessions|
      ensures SelectsSession(w, db.sessions[i], db.tokens) == SelectsToken(w, i, db.tokens[i])
    {
      assert PairOk(db.sessions[i], db.tokens[i], i);
    }
    var db' := Revoke(db, w);
    forall i | 0 <= i < |db'.tokens| ensures PairOk(db'.sessions[i], db'.tokens[i], i) {
      assert PairOk(db.sessions[i], db.tokens[i], i);
    }
  }

  /** What a token and its session look like after issueTokens. */
  function Issue(db: Tables, user: nat, hash: nat, expiresAt: int): Tables {
    db.(tokens := db.tokens + [TokenRow(user, hash, expiresAt, true)],
        sessions := db.sessions + [SessionRow(user, |db.tokens|, Active, expiresAt)])
  }

  lemma IssueKeepsCoherence(db: Tables, user: nat, hash: nat, expiresAt: int)
    requires Coherent(db) && hash !in UsedHashes(db)
    ensures Coherent(Issue(db, user, hash, expiresAt))
  {
    var db' := Issue(db, user, hash, expiresAt);
    forall i | 0 <= i < |db.tokens| ensures db.tokens[i].hash != hash { assert db.tokens[i].hash in UsedHashes(db); }
    forall i | 0 <= i < |db'.tokens| ensures PairOk(db'.sessions[i], db'.tokens[i], i) {
      if i < |db.tokens| { assert PairOk(db.sessions[i], db.tokens[i], i); }
    }
  }

  /** Each call as one atomic operation: the tables it leaves, and its outcome. */
  function Atomic(db: Tables, now: int, call: Call, nonce: nat, ttl: int): (Tables, Outcome) {
    match call
    case Login(u) => (Issue(db, u, nonce, now + ttl), Outcome.Issued)
    case Refresh(h) =>
      (match FindToken(db.tokens, h)
       case None => (db, InvalidToken)
       case Some(i) =>
         if !db.tokens[i].isActive || db.tokens[i].expiresAt < now then (db, ExpiredToken)
         else (Issue(Revoke(db, ById(i)), db.tokens[i].user, nonce, now + ttl), Outcome.Issued))
    case Logout(h) => (Revoke(db, ByHash(h)), LoggedOut)
    case LogoutAll(h) =>
      (match FindToken(db.tokens, h)
       case None => (db, LoggedOut)
       case Some(i) => (Revoke(db, ByUser(db.tokens[i].user)), LoggedOut))
    case Forgot(u) => (db.(resets := db.resets + [ResetRow(u, nonce, now + ttl, false)]), ResetSent)
    case Reset(h) =>
      (match FindReset(db.resets, h)
       case None => (db, ResetRejected)
       case Some(i) =>
         if db.resets[i].expiresAt < now || db.resets[i].consumed then (db, ResetRejected)
         else
           var consumed := db.resets[i := db.resets[i].(consumed := true)];
           (Revoke(db, ByUser(db.resets[i].user)).(resets := consumed), ResetDone))
  }

  /** The two steps of a bulk revocation, which every revoking call goes through. */
  lemma RevokeSteps(s: State, nonce: nat, ttl: int)
    requires |s.procs| == 1 && s.procs[0].pc.RevokeTokens?
    ensures var pc := s.procs[0].pc;
            Apply(Apply(s, Step(0, nonce, ttl)), Step(0, nonce, ttl))
            == At(s.(db := Revoke(s.db, pc.w)), 0,
                  if pc.reset.Some? then ConsumeReset(pc.reset.value) else Done(LoggedOut))
  {
  }

  lemma DoneStays(s: State, nonce: nat, ttl: int)
    requires |s.procs| == 1 && s.procs[0].pc.Done?
    ensures Apply(s, Step(0, nonce, ttl)) == s
  {
  }

  lemma RefreshAloneIsAtomic(db: Tables, now: int, hash: nat, nonce: nat, ttl: int)
    requires nonce !in UsedHashes(db)
    ensures var s := Alone(db, now, Refresh(hash), nonce, ttl);
            |s.procs| == 1 && (s.db, s.procs[0].pc)
              == (Atomic(db, now, Refresh(hash), nonce, ttl).0, Done(Atomic(db, now, Refresh(hash), nonce, ttl).1))
  {
    var f := FindToken(db.tokens, hash);
    if f.Some? { assert hash in UsedHashes(db) by { assert db.tokens[f.value].hash in UsedHashes(db); } }
  }

  lemma ResetAloneIsAtomic(db: Tables, now: int, hash: nat, nonce: nat, ttl: int)
    ensures var s := Alone(db, now, Reset(hash), nonce, ttl);
            |s.procs| == 1 && (s.db, s.procs[0].pc)
              == (Atomic(db, now, Reset(hash), nonce, ttl).0, Done(Atomic(db, now, Reset(hash), nonce, ttl).1))
  {
    var s1 := Apply(Apply(State(db, [], now, UsedHashes(db), []), Begin(Reset(hash))), Step(0, nonce, ttl));
    if s1.procs[0].pc.RevokeTokens? {
      RevokeSteps(s1, nonce, ttl);
    } else {
      assert s1 == s1.(procs := [Proc(Done(ResetRejected), None, None)]);
      DoneStays(s1, nonce, ttl);
    }
  }

  lemma LogoutAloneIsAtomic(db: Tables, now: int, call: Call, nonce: nat, ttl: int)
    requires call.Logout? || call.LogoutAll?
    ensures var s := Alone(db, now, call, nonce, ttl);
            |s.procs| == 1 && (s.db, s.procs[0].pc)
              == (Atomic(db, now, call, nonce, ttl).0, Done(Atomic(db, now, call, nonce, ttl).1))
  {
  }

  lemma SavingAloneIsAtomic(db: Tables, now: int, call: Call, nonce: nat, ttl: int)
    requires (call.Login? || call.Forgot?) && nonce !in UsedHashes(db)
    ensures var s := Alone(db, now, call, nonce, ttl);
            |s.procs| == 1 && (s.db, s.procs[0].pc)
              == (Atomic(db, now, call, nonce, ttl).0, Done(Atomic(db, now, call, nonce, ttl).1))
  {
  }

  /** Run without interference, the steps of every call amount to its atomic form. */
  lemma StepsRefineAtomic(db: Tables, now: int, call: Call, nonce: nat, ttl: int)
    requires nonce !in UsedHashes(db) && nonce !in Mentions(call)
    ensures var s := Alone(db, now, call, nonce, ttl);
            |s.procs| == 1 && (s.db, s.procs[0].pc)
              == (Atomic(db, now, call, nonce, ttl).0, Done(Atomic(db, now, call, nonce, ttl).1))
  {
    match call
    case Refresh(h) => RefreshAloneIsAtomic(db, now, h, nonce, ttl);
    case Reset(h) => ResetAloneIsAtomic(db, now, h, nonce, ttl);
    case Logout(_) => LogoutAloneIsAtomic(db, now, call, nonce, ttl);
    case LogoutAll(_) => LogoutAloneIsAtomic(db, now, call, nonce, ttl);
    case _ => SavingAloneIsAtomic(db, now, call, nonce, ttl);
  }

  lemma RevokingKeepsHashes(db: Tables, w: Selector)
    ensures UsedHashes(Revoke(db, w)) == UsedHashes(db)
  {
    var t := DeactivateTokens(db.tokens, w);
    assert forall i :: 0 <= i < |t| ==> t[i].hash == db.tokens[i].hash;
  }

  /** Every completed call keeps sessions and tokens coherent. */
  lemma AtomicKeepsCoherence(db: Tables, now: int, call: Call, nonce: nat, ttl: int)
    requires Coherent(db) && nonce !in UsedHashes(db)
    ensures Coherent(Atomic(db, now, call, nonce, ttl).0)
  {
    var db' := Atomic(db, now, call, nonce, ttl).0;
    match call
    case Login(u) => IssueKeepsCoherence(db, u, nonce, now + ttl);
    case Refresh(h) =>
      var f := FindToken(db.tokens, h);
      if f.Some? && db.tokens[f.value].isActive && db.tokens[f.value].expiresAt >= now {
        RevokingKeepsCoherence(db, ById(f.value));
        RevokingKeepsHashes(db, ById(f.value));
        IssueKeepsCoherence(Revoke(db, ById(f.value)), db.tokens[f.value].user, nonce, now + ttl);
      }
    case Logout(h) => RevokingKeepsCoherence(db, ByHash(h));
    case LogoutAll(h) =>
      var f := FindToken(db.tokens, h);
      if f.Some? { RevokingKeepsCoherence(db, ByUser(db.tokens[f.value].user)); }
    case Forgot(u) => assert Coherent(db') == Coherent(db);
    case Reset(h) =>
      var f := FindReset(db.resets, h);
      if f.Some? {
        var cut := Revoke(db, ByUser(db.resets[f.value].user));
        RevokingKeepsCoherence(db, ByUser(db.resets[f.value].user));
        assert db' == db || Coherent(db') == Coherent(cut);
      }
  }

  /** A request of a sequential run, with the clock, the random value and the lifetime it sees. */
  datatype Request = Request(now: int, call: Call, nonce: nat, ttl: int)

  predicate Fresh(db: Tables, r: Request) { r.nonce !in UsedHashes(db) && r.nonce !in Mentions(r.call) }

  function Run(db: Tables, r: Request): (Tables, Outcome) { Atomic(db, r.now, r.call, r.nonce, r.ttl) }

  /** Sequential runs; a request whose random value is not new is skipped. */
  function Serve(db: Tables, rs: seq<Request>): Tables
    decreases |rs|
  {
    if rs == [] then db
    else Serve(if Fresh(db, rs[0]) then Run(db, rs[0]).0 else db, rs[1..])
  }

  lemma {:induction false} ServeKeepsCoherence(db: Tables, rs: seq<Request>)
    requires Coherent(db)
    ensures Coherent(Serve(db, rs))
    decreases |rs|
  {
    if rs != [] {
      var r := rs[0];
      if Fresh(db, r) {
        AtomicKeepsCoherence(db, r.now, r.call, r.nonce, r.ttl);
        ServeKeepsCoherence(Run(db, r).0, rs[1..]);
      } else {
        ServeKeepsCoherence(db, rs[1..]);
      }
    }
  }

  /** In every state that requests served one at a time can reach, sessions and tokens are coherent. */
  lemma SequentialStatesAreCoherent(rs: seq<Request>)
    ensures Coherent(Serve(Tables([], [], []), rs))
  {
    ServeKeepsCoherence(Tables([], [], []), rs);
  }

  /** A consumed reset row stays consumed, and an inactive token row inactive, over every sequential run. */
  lemma {:induction false} ServeIsMonotone(db: Tables, rs: seq<Request>)
    ensures var db' := Serve(db, rs);
            && |db.resets| <= |db'.resets| && |db.tokens| <= |db'.tokens|
            && (forall i :: 0 <= i < |db.resets| ==>
                 db'.resets[i].hash == db.resets[i].hash && (db.resets[i].consumed ==> db'.resets[i].consumed))
            && (forall i :: 0 <= i < |db.tokens| ==>
                 db'.tokens[i].hash == db.tokens[i].hash && (db'.tokens[i].isActive ==> db.tokens[i].isActive))
    decreases |rs|
  {
    if rs != [] {
      var r := rs[0];
      if Fresh(db, r) {
        ServeIsMonotone(Run(db, r).0, rs[1..]);
      } else {
        ServeIsMonotone(db, rs[1..]);
      }
    }
  }

  lemma FirstTokenStaysFirst(ts: seq<TokenRow>, ts': seq<TokenRow>, hash: nat)
    requires |ts| <= |ts'| && forall i :: 0 <= i < |ts| ==> ts'[i].hash == ts[i].hash
    requires FindToken(ts, hash).Some?
    ensures FindToken(ts', hash) == FindToken(ts, hash)
  {
    var i := FindToken(ts, hash).value;
    var j := FindToken(ts', hash);
    assert ts'[i].hash == hash;
  }

  lemma FirstResetStaysFirst(ts: seq<ResetRow>, ts': seq<ResetRow>, hash: nat)
    requires |ts| <= |ts'| && forall i :: 0 <= i < |ts| ==> ts'[i].hash == ts[i].hash
    requires FindReset(ts, hash).Some?
    ensures FindReset(ts', hash) == FindReset(ts, hash)
  {
    var i := FindReset(ts, hash).value;
    var j := FindReset(ts', hash);
    assert ts'[i].hash == hash;
  }

  /** A refresh token that has been exchanged once is refused ever after. */
  lemma RefreshTokenWorksOnce(db: Tables, r: Request, between: seq<Request>, again: Request)
    requires r.call.Refresh? && again.call == r.call
    requires Run(db, r).1 == Outcome.Issued
    ensures var db' := Serve(Run(db, r).0, between);
            Run(db', again).1 == ExpiredToken
  {
    var db1 := Run(db, r).0;
    ServeIsMonotone(db1, between);
    var db2 := Serve(db1, between);
    FirstTokenStaysFirst(db.tokens, db2.tokens, r.call.hash);
  }

  /** A reset token that has been used once is refused ever after. */
  lemma ResetTokenWorksOnce(db: Tables, r: Request, between: seq<Request>, again: Request)
    requires r.call.Reset? && again.call == r.call
    requires Run(db, r).1 == ResetDone
    ensures var db' := Serve(Run(db, r).0, between);
            Run(db', again).1 == ResetRejected
  {
    var db1 := Run(db, r).0;
    ServeIsMonotone(db1, between);
    var db2 := Serve(db1, between);
    FirstResetStaysFirst(db.resets, db2.resets, r.call.hash);
  }

  // ---------- The rows after each call ----------

  /** The pairs of token and session that `gone` names are revoked, and every other one stays as it was. */
  ghost predicate RevokedPairs(db: Tables, db': Tables, gone: set<nat>) {
    && |db.tokens| == |db.sessions| <= |db'.tokens| == |db'.sessions|
    && forall i :: 0 <= i < |db.tokens| ==>
         && db'.tokens[i] == (if i in gone then db.tokens[i].(isActive := false) else db.tokens[i])
         && db'.sessions[i] == if i in gone then db.sessions[i].(status := Revoked) else db.sessions[i]
  }

  function TokensOfUser(db: Tables, u: nat): set<nat> { set i | 0 <= i < |db.tokens| && db.tokens[i].user == u }

  function TokensWithHash(db: Tables, h: nat): set<nat> { set i | 0 <= i < |db.tokens| && db.tokens[i].hash == h }

  lemma RevokedByUser(db: Tables, u: nat)
    requires Coherent(db)
    ensures RevokedPairs(db, Revoke(db, ByUser(u)), TokensOfUser(db, u))
    ensures |Revoke(db, ByUser(u)).tokens| == |db.tokens|
  {
    assert forall i :: 0 <= i < |db.tokens| ==> PairOk(db.sessions[i], db.tokens[i], i);
  }

  lemma RevokedByHash(db: Tables, h: nat)
    requires Coherent(db)
    ensures RevokedPairs(db, Revoke(db, ByHash(h)), TokensWithHash(db, h))
    ensures |Revoke(db, ByHash(h)).tokens| == |db.tokens|
  {
    assert forall i :: 0 <= i < |db.tokens| ==> PairOk(db.sessions[i], db.tokens[i], i);
  }

  lemma RevokedById(db: Tables, t: nat)
    requires Coherent(db) && t < |db.tokens|
    ensures RevokedPairs(db, Revoke(db, ById(t)), {t}) && |Revoke(db, ById(t)).tokens| == |db.tokens|
  {
    assert forall i :: 0 <= i < |db.tokens| ==> PairOk(db.sessions[i], db.tokens[i], i);
  }

  /** Logging out revokes the pair with the hash; logging out everywhere revokes all pairs of its owner. */
  lemma LogoutExactly(db: Tables, now: int, h: nat, nonce: nat, ttl: int)
    requires Coherent(db)
    ensures var db' := Atomic(db, now, Logout(h), nonce, ttl).0;
            RevokedPairs(db, db', TokensWithHash(db, h)) && |db'.tokens| == |db.tokens| && db'.resets == db.resets
    ensures var db' := Atomic(db, now, LogoutAll(h), nonce, ttl).0;
            && |db'.tokens| == |db.tokens| && db'.resets == db.resets
            && forall t :: 0 <= t < |db.tokens| && db.tokens[t].hash == h ==>
                 RevokedPairs(db, db', TokensOfUser(db, db.tokens[t].user))
    ensures TokensWithHash(db, h) == {} ==> Atomic(db, now, LogoutAll(h), nonce, ttl).0 == db
  {
    RevokedByHash(db, h);
    var found := FindToken(db.tokens, h);
    if found.Some? {
      RevokedByUser(db, db.tokens[found.value].user);
      assert found.value in TokensWithHash(db, h);
    }
  }

  /**
   A refresh succeeds if and only if there is an active token with the hash that is in time. It then revokes that pair
   and adds an active one for the same user; a refused one changes nothing.
   */
  lemma RefreshExactly(db: Tables, now: int, h: nat, nonce: nat, ttl: int)
    requires Coherent(db)
    ensures var (db', outcome) := Atomic(db, now, Call.Refresh(h), nonce, ttl);
            && (outcome == Outcome.Issued
                <==> exists t :: 0 <= t < |db.tokens| && db.tokens[t].hash == h && db.tokens[t].isActive
                                 && now <= db.tokens[t].expiresAt)
            && (outcome == InvalidToken <==> TokensWithHash(db, h) == {})
            && (outcome != Outcome.Issued ==> db' == db)
            && (outcome == Outcome.Issued ==>
                  && |db'.tokens| == |db.tokens| + 1 && db'.resets == db.resets
                  && RevokedPairs(db, db', TokensWithHash(db, h))
                  && forall t :: 0 <= t < |db.tokens| && db.tokens[t].hash == h ==>
                       && db'.tokens[|db.tokens|] == TokenRow(db.tokens[t].user, nonce, now + ttl, true)
                       && db'.sessions[|db.tokens|] == SessionRow(db.tokens[t].user, |db.tokens|, Active, now + ttl))
  {
    var found := FindToken(db.tokens, h);
    if found.Some? {
      RevokedById(db, found.value);
      assert TokensWithHash(db, h) == {found.value};
    }
  }

  /**
   A reset is carried out if and only if the first row with the hash is in time and not consumed. It then revokes all
   pairs of the row's owner and consumes that row; a refused one changes nothing.
   */
  lemma ResetExactly(db: Tables, now: int, h: nat, nonce: nat, ttl: int)
    requires Coherent(db)
    ensures var (db', outcome) := Atomic(db, now, Reset(h), nonce, ttl);
            && (outcome == ResetDone
                <==> exists r :: 0 <= r < |db.resets| && db.resets[r].hash == h && !db.resets[r].consumed
                                 && now <= db.resets[r].expiresAt && forall q :: 0 <= q < r ==> db.resets[q].hash != h)
            && (outcome != ResetDone ==> db' == db && outcome == ResetRejected)
            && (outcome == ResetDone ==>
                  var r := FindReset(db.resets, h).value;
                  && RevokedPairs(db, db', TokensOfUser(db, db.resets[r].user)) && |db'.tokens| == |db.tokens|
                  && db'.resets == db.resets[r := db.resets[r].(consumed := true)])
  {
    var found := FindReset(db.resets, h);
    if found.Some? { RevokedByUser(db, db.resets[found.value].user); }
  }

  // ---------- The service object ----------

  class AuthService {
    var tokens: seq<TokenRow>
    var sessions: seq<SessionRow>
    var resets: seq<ResetRow>
    /** The password hash of every user there is. */
    var passwords: map<nat, nat>
    var refreshSuccesses: nat
    var refreshInvalid: nat
    var refreshExpired: nat

    constructor ()
      ensures Db() == Tables([], [], []) && passwords == map[]
              && refreshSuccesses == refreshInvalid == refreshExpired == 0
    {
      tokens, sessions, resets, passwords := [], [], [], map[];
      refreshSuccesses, refreshInvalid, refreshExpired := 0, 0, 0;
    }

    function Db(): Tables reads this { Tables(tokens, sessions, resets) }

    method IssueTokens(user: nat, now: int, nonce: nat, ttl: int)
      requires nonce !in UsedHashes(Db())
      modifies this`tokens, this`sessions
      ensures Db() == Issue(old(Db()), user, nonce, now + ttl)
      ensures old(Coherent(Db())) ==> Coherent(Db())
    {
      ghost var before := Db();
      var token := TokenRow(user, nonce, now + ttl, true);
      tokens := tokens + [token];
      sessions := sessions + [SessionRow(user, |tokens| - 1, Active, now + ttl)];
      if Coherent(before) { IssueKeepsCoherence(before, user, nonce, now + ttl); }
    }

    method RefreshSession(hash: nat, now: int, nonce: nat, ttl: int) returns (outcome: Outcome)
      requires nonce !in UsedHashes(Db())
      modifies this`tokens, this`sessions, this`refreshSuccesses, this`refreshInvalid, this`refreshExpired
      ensures (Db(), outcome) == Atomic(old(Db()), now, Call.Refresh(hash), nonce, ttl)
      ensures refreshInvalid == old(refreshInvalid) + (if outcome == InvalidToken then 1 else 0)
      ensures refreshExpired == old(refreshExpired) + (if outcome == ExpiredToken then 1 else 0)
      ensures refreshSuccesses == old(refreshSuccesses) + (if outcome == Outcome.Issued then 1 else 0)
      ensures old(Coherent(Db())) ==> Coherent(Db())
    {
      ghost var before := Db();
      if Coherent(before) { AtomicKeepsCoherence(before, now, Call.Refresh(hash), nonce, ttl); }
      var found := FindToken(tokens, hash);
      if found.None? {
        refreshInvalid := refreshInvalid + 1;
        return InvalidToken;
      }
      var id := found.value;
      var row := tokens[id];
      if !row.isActive || row.expiresAt < now {
        refreshExpired := refreshExpired + 1;
        return ExpiredToken;
      }
      var affected := tokens[id].isActive;
      tokens := DeactivateTokens(tokens, ById(id));
      if !affected { return AlreadyUsed; }
      sessions := RevokeSessions(Db(), ById(id));
      RevokingKeepsHashes(before, ById(id));
      assert Db() == Revoke(before, ById(id));
      IssueTokens(row.user, now, nonce, ttl);
      refreshSuccesses := refreshSuccesses + 1;
      return Outcome.Issued;
    }

    method LogoutSession(hash: Option<nat>, revokeAll: bool)
      modifies this`tokens, this`sessions
      ensures hash.None? ==> Db() == old(Db())
      ensures hash.Some? && revokeAll ==> (Db(), LoggedOut) == Atomic(old(Db()), 0, LogoutAll(hash.value), 0, 0)
      ensures hash.Some? && !revokeAll ==> (Db(), LoggedOut) == Atomic(old(Db()), 0, Logout(hash.value), 0, 0)
      ensures old(Coherent(Db())) ==> Coherent(Db())
    {
      ghost var before := Db();
      if revokeAll && hash.Some? {
        var existing := FindToken(tokens, hash.value);
        if existing.Some? {
          var user := tokens[existing.value].user;
          tokens := DeactivateTokens(tokens, ByUser(user));
          sessions := RevokeSessions(Db(), ByUser(user));
          if Coherent(before) { RevokingKeepsCoherence(before, ByUser(user)); }
        }
        return;
      }
      if hash.None? { return; }
      tokens := DeactivateTokens(tokens, ByHash(hash.value));
      sessions := RevokeSessions(Db(), ByHash(hash.value));
      if Coherent(before) { RevokingKeepsCoherence(before, ByHash(hash.value)); }
    }

    /** `user` is the owner of the address, if there is one; the caller cannot tell. */
    method ForgotPassword(user: Option<nat>, now: int, nonce: nat, ttl: int)
      modifies this`resets
      ensures user.None? ==> Db() == old(Db())
      ensures user.Some? ==> (Db(), ResetSent) == Atomic(old(Db()), now, Forgot(user.value), nonce, ttl)
      ensures old(Coherent(Db())) ==> Coherent(Db())
    {
      if user.None? { return; }
      resets := resets + [ResetRow(user.value, nonce, now + ttl, false)];
    }

    method ResetPassword(hash: nat, now: int, password: nat) returns (outcome: Outcome)
      modifies this`tokens, this`sessions, this`resets, this`passwords
      ensures var found := FindReset(old(resets), hash);
              if found.Some? && old(resets)[found.value].user !in old(passwords)
              then Db() == old(Db()) && outcome == ResetRejected
              else (Db(), outcome) == Atomic(old(Db()), now, Reset(hash), 0, 0)
      ensures passwords == if outcome != ResetDone then old(passwords)
                           else old(passwords)[old(resets)[FindReset(old(resets), hash).value].user := password]
      ensures old(Coherent(Db())) ==> Coherent(Db())
    {
      ghost var before := Db();
      var found := FindReset(resets, hash);
      if found.None? { return ResetRejected; }
      var id := found.value;
      var row := resets[id];
      if row.expiresAt < now || row.consumed { return ResetRejected; }
      if row.user !in passwords { return ResetRejected; }
      passwords := passwords[row.user := password];
      tokens := DeactivateTokens(tokens, ByUser(row.user));
      sessions := RevokeSessions(Db(), ByUser(row.user));
      if Coherent(before) { RevokingKeepsCoherence(before, ByUser(row.user)); }
      resets := resets[id := row.(consumed := true)];
      return ResetDone;
    }
  }
}
