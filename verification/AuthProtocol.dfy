/**
 The refresh-token protocol of auth.service.ts as a state machine: every awaited repository call is
 one atomic step, every request is a small program counter, and any number of requests interleave.
 An action that is not enabled leaves the state as it is, so every sequence of actions is a run.
 */
module AuthProtocol {
  import opened Wrappers
  import opened AuthTables

  /** What a client (or another service) may call. */
  datatype Call =
    | Login(user: nat)       // credentials already accepted: login, signup, createSessionForUser
    | Refresh(hash: nat)
    | Logout(hash: nat)
    | LogoutAll(hash: nat)
    | Forgot(user: nat)
    | Reset(hash: nat)

  datatype Outcome =
    | Issued
    | InvalidToken
    | ExpiredToken
    | AlreadyUsed
    | LoggedOut
    | ResetSent
    | ResetRejected
    | ResetDone
    | Crashed

  /** The next repository call of a request. */
  datatype Pc =
    | FindRefresh(hash: nat)
    | Rotate(id: nat)
    | RevokeRotated(id: nat)
    | IssueToken(user: nat)
    | IssueSession(token: nat, user: nat, expiresAt: int)
    | FindForLogoutAll(hash: nat)
    | RevokeTokens(w: Selector, reset: Option<nat>)
    | RevokeTheirSessions(w: Selector, reset: Option<nat>)
    | SaveReset(user: nat)
    | FindResetRow(hash: nat)
    | ConsumeReset(id: nat)
    | Done(outcome: Outcome)

  /** `claimed` is the token whose conditional update this request won, `issued` the token it saved. */
  datatype Proc = Proc(pc: Pc, claimed: Option<nat>, issued: Option<nat>)

  /** Which request saved a token, and which token it replaced. */
  datatype Origin = Origin(issuer: nat, parent: Option<nat>)

  /** `used` holds every hash that a row or a request has ever mentioned; `origins` runs beside the token table. */
  datatype State = State(db: Tables, procs: seq<Proc>, now: int, used: set<nat>, origins: seq<Origin>)

  datatype Action =
    | Begin(call: Call)
    | Tick(elapsed: nat)
    | Step(proc: nat, nonce: nat, ttl: int)
    | Crash(proc: nat)

  function Start(): State { State(Tables([], [], []), [], 0, {}, []) }

  function FirstPc(call: Call): Pc {
    match call
    case Login(u) => IssueToken(u)
    case Refresh(h) => FindRefresh(h)
    case Logout(h) => RevokeTokens(ByHash(h), None)
    case LogoutAll(h) => FindForLogoutAll(h)
    case Forgot(u) => SaveReset(u)
    case Reset(h) => FindResetRow(h)
  }

  function Mentions(call: Call): set<nat> {
    match call
    case Refresh(h) => {h}
    case Logout(h) => {h}
    case LogoutAll(h) => {h}
    case Reset(h) => {h}
    case _ => {}
  }

  function At(s: State, p: nat, pc: Pc): State
    requires p < |s.procs|
  {
    s.(procs := s.procs[p := s.procs[p].(pc := pc)])
  }

  /** One awaited call of request `p`; a save draws the random value `nonce` and the configured lifetime `ttl`. */
  function StepProc(s: State, p: nat, nonce: nat, ttl: int): State
    requires p < |s.procs|
  {
    match s.procs[p].pc
    case FindRefresh(h) =>
      (match FindToken(s.db.tokens, h)
       case None => At(s, p, Done(InvalidToken))
       case Some(i) =>
         if !s.db.tokens[i].isActive || s.db.tokens[i].expiresAt < s.now then At(s, p, Done(ExpiredToken))
         else At(s, p, Rotate(i)))
    case Rotate(i) =>
      if i < |s.db.tokens| && s.db.tokens[i].isActive then
        s.(db := s.db.(tokens := DeactivateTokens(s.db.tokens, ById(i))),
           procs := s.procs[p := Proc(RevokeRotated(i), Some(i), None)])
      else At(s, p, Done(AlreadyUsed))
    case RevokeRotated(i) =>
      if i < |s.db.tokens| then
        At(s.(db := s.db.(sessions := RevokeSessions(s.db, ById(i)))), p, IssueToken(s.db.tokens[i].user))
      else s
    case IssueToken(u) =>
      if nonce in s.used then s
      else
        var id := |s.db.tokens|;
        var row := TokenRow(u, nonce, s.now + ttl, true);
        s.(db := s.db.(tokens := s.db.tokens + [row]),
           procs := s.procs[p := Proc(IssueSession(id, u, s.now + ttl), s.procs[p].claimed, Some(id))],
           used := s.used + {nonce},
           origins := s.origins + [Origin(p, s.procs[p].claimed)])
    case IssueSession(t, u, e) =>
      At(s.(db := s.db.(sessions := s.db.sessions + [SessionRow(u, t, Active, e)])), p, Done(Issued))
    case FindForLogoutAll(h) =>
      (match FindToken(s.db.tokens, h)
       case None => At(s, p, Done(LoggedOut))
       case Some(i) => At(s, p, RevokeTokens(ByUser(s.db.tokens[i].user), None)))
    case RevokeTokens(w, reset) =>
      At(s.(db := s.db.(tokens := DeactivateTokens(s.db.tokens, w))), p, RevokeTheirSessions(w, reset))
    case RevokeTheirSessions(w, reset) =>
      At(s.(db := s.db.(sessions := RevokeSessions(s.db, w))), p,
         if reset.Some? then ConsumeReset(reset.value) else Done(LoggedOut))
    case SaveReset(u) =>
      if nonce in s.used then s
      else
        var resets := s.db.resets + [ResetRow(u, nonce, s.now + ttl, false)];
        At(s.(db := s.db.(resets := resets), used := s.used + {nonce}),
              p, Done(ResetSent))
    case FindResetRow(h) =>
      (match FindReset(s.db.resets, h)
       case None => At(s, p, Done(ResetRejected))
       case Some(i) =>
         var row := s.db.resets[i];
         if row.expiresAt < s.now || row.consumed then At(s, p, Done(ResetRejected))
         else At(s, p, RevokeTokens(ByUser(row.user), Some(i))))
    case ConsumeReset(i) =>
      if i < |s.db.resets| then
        At(s.(db := s.db.(resets := s.db.resets[i := s.db.resets[i].(consumed := true)])), p, Done(ResetDone))
      else s
    case Done(_) => s
  }

  function Apply(s: State, a: Action): State {
    match a
    case Begin(call) =>
      s.(procs := s.procs + [Proc(FirstPc(call), None, None)], used := s.used + Mentions(call))
    case Tick(d) => s.(now := s.now + d)
    case Step(p, nonce, ttl) => if p < |s.procs| then StepProc(s, p, nonce, ttl) else s
    case Crash(p) => if p < |s.procs| && !s.procs[p].pc.Done? then At(s, p, Done(Crashed)) else s
  }

  function Exec(s: State, acts: seq<Action>): State
    decreases |acts|
  {
    if acts == [] then s else Exec(Apply(s, acts[0]), acts[1..])
  }

  lemma {:induction false} ExecConcat(s: State, a: seq<Action>, b: seq<Action>)
    ensures Exec(s, a + b) == Exec(Exec(s, a), b)
    decreases |a|
  {
    if a == [] {
      assert a + b == b;
    } else {
      assert (a + b)[1..] == a[1..] + b;
      ExecConcat(Apply(s, a[0]), a[1..], b);
    }
  }

  // ---------- The invariant of every interleaving ----------

  ghost predicate TokenInv(s: State, b: nat)
    requires b < |s.db.tokens| == |s.origins|
  {
    var o := s.origins[b];
    && s.db.tokens[b].hash in s.used
    && o.issuer < |s.procs|
    && s.procs[o.issuer].issued == Some(b)
    && s.procs[o.issuer].claimed == o.parent
    && (o.parent.Some? ==> o.parent.value < b && s.db.tokens[o.parent.value].user == s.db.tokens[b].user)
  }

  ghost predicate ProcInv(s: State, p: nat)
    requires p < |s.procs|
  {
    var q := s.procs[p];
    && (q.claimed.Some? ==> q.claimed.value < |s.db.tokens| && !s.db.tokens[q.claimed.value].isActive)
    && (q.issued.Some? ==> q.issued.value < |s.db.tokens| == |s.origins| && s.origins[q.issued.value].issuer == p)
    && match q.pc
       case Rotate(i) => q.claimed.None? && q.issued.None? && i < |s.db.tokens|
       case RevokeRotated(i) => q.claimed == Some(i) && q.issued.None? && i < |s.db.tokens|
       case IssueToken(u) =>
         q.issued.None? && (q.claimed.Some? ==> s.db.tokens[q.claimed.value].user == u)
       case IssueSession(t, u, e) =>
         q.issued == Some(t) && s.db.tokens[t].user == u && s.db.tokens[t].expiresAt == e
       case Done(outcome) => q.issued.Some? ==> outcome == Issued || outcome == Crashed
       case _ => q.claimed.None? && q.issued.None?
  }

  ghost predicate ClaimsUnique(s: State) {
    forall p, q :: 0 <= p < |s.procs| && 0 <= q < |s.procs| && p != q && s.procs[p].claimed.Some?
                   ==> s.procs[p].claimed != s.procs[q].claimed
  }

  ghost predicate HashesUnique(tokens: seq<TokenRow>) {
    forall a, b :: 0 <= a < b < |tokens| ==> tokens[a].hash != tokens[b].hash
  }

  ghost predicate Inv(s: State) {
    && |s.origins| == |s.db.tokens|
    && (forall b :: 0 <= b < |s.db.tokens| ==> TokenInv(s, b))
    && (forall p :: 0 <= p < |s.procs| ==> ProcInv(s, p))
    && ClaimsUnique(s)
    && HashesUnique(s.db.tokens)
  }

  lemma StepKeepsTokenInv(s: State, p: nat, nonce: nat, ttl: int)
    requires Inv(s) && p < |s.procs|
    ensures var s' := StepProc(s, p, nonce, ttl);
            |s'.origins| == |s'.db.tokens| && forall b :: 0 <= b < |s'.db.tokens| ==> TokenInv(s', b)
  {
    var s' := StepProc(s, p, nonce, ttl);
    assert ProcInv(s, p);
    forall b | 0 <= b < |s'.db.tokens| ensures TokenInv(s', b) {
      if b < |s.db.tokens| { assert TokenInv(s, b); }
    }
  }

  lemma StepKeepsOwnInv(s: State, p: nat, nonce: nat, ttl: int)
    requires Inv(s) && p < |s.procs|
    ensures ProcInv(StepProc(s, p, nonce, ttl), p)
  {
    assert ProcInv(s, p);
  }

  lemma StepKeepsOtherInv(s: State, p: nat, nonce: nat, ttl: int, q: nat)
    requires Inv(s) && p < |s.procs| && q < |s.procs| && p != q
    ensures ProcInv(StepProc(s, p, nonce, ttl), q)
  {
    StepKeepsRows(s, p, nonce, ttl);
    UntouchedKeepsInv(s, StepProc(s, p, nonce, ttl), q);
  }

  /** Rows are only added or deactivated, and their origins never change. */
  ghost predicate KeepsRows(s: State, s': State) {
    && |s.db.tokens| <= |s'.db.tokens| && |s.origins| <= |s'.origins|
    && |s.db.tokens| == |s.origins| && |s'.db.tokens| == |s'.origins|
    && (forall i :: 0 <= i < |s.db.tokens| ==> Demoted(s.db.tokens[i], s'.db.tokens[i]))
    && (forall i :: 0 <= i < |s.origins| ==> s'.origins[i] == s.origins[i])
  }

  predicate Demoted(row: TokenRow, row': TokenRow) { row' == row || row' == row.(isActive := false) }

  lemma StepKeepsRows(s: State, p: nat, nonce: nat, ttl: int)
    requires p < |s.procs| && |s.db.tokens| == |s.origins|
    ensures KeepsRows(s, StepProc(s, p, nonce, ttl))
  {
  }

  lemma UntouchedKeepsInv(s: State, s': State, q: nat)
    requires KeepsRows(s, s') && q < |s.procs| <= |s'.procs| && s'.procs[q] == s.procs[q] && ProcInv(s, q)
    ensures ProcInv(s', q)
  {
  }

  lemma StepKeepsClaims(s: State, p: nat, nonce: nat, ttl: int)
    requires Inv(s) && p < |s.procs|
    ensures ClaimsUnique(StepProc(s, p, nonce, ttl))
  {
    var s' := StepProc(s, p, nonce, ttl);
    forall q | 0 <= q < |s.procs|
      ensures q != p && s'.procs[p].claimed.Some? ==> s'.procs[p].claimed != s'.procs[q].claimed
    {
      assert ProcInv(s, q);
    }
  }

  lemma StepKeepsHashes(s: State, p: nat, nonce: nat, ttl: int)
    requires Inv(s) && p < |s.procs|
    ensures HashesUnique(StepProc(s, p, nonce, ttl).db.tokens)
  {
    forall a | 0 <= a < |s.db.tokens| ensures s.db.tokens[a].hash in s.used { assert TokenInv(s, a); }
  }

  lemma StepKeepsInv(s: State, p: nat, nonce: nat, ttl: int)
    requires Inv(s) && p < |s.procs|
    ensures Inv(StepProc(s, p, nonce, ttl))
  {
    StepKeepsTokenInv(s, p, nonce, ttl);
    StepKeepsClaims(s, p, nonce, ttl);
    StepKeepsHashes(s, p, nonce, ttl);
    forall q | 0 <= q < |s.procs| ensures ProcInv(StepProc(s, p, nonce, ttl), q) {
      if p == q { StepKeepsOwnInv(s, p, nonce, ttl); } else { StepKeepsOtherInv(s, p, nonce, ttl, q); }
    }
  }

  lemma ApplyKeepsInv(s: State, a: Action)
    requires Inv(s)
    ensures Inv(Apply(s, a))
  {
    match a
    case Step(p, nonce, ttl) =>
      if p < |s.procs| { StepKeepsInv(s, p, nonce, ttl); }
    case _ =>
      var s' := Apply(s, a);
      forall b | 0 <= b < |s'.db.tokens| ensures TokenInv(s', b) { assert TokenInv(s, b); }
      forall q | 0 <= q < |s'.procs| ensures ProcInv(s', q) { if q < |s.procs| { assert ProcInv(s, q); } }
  }

  lemma {:induction false} ExecKeepsInv(s: State, acts: seq<Action>)
    requires Inv(s)
    ensures Inv(Exec(s, acts))
    decreases |acts|
  {
    if acts != [] {
      ApplyKeepsInv(s, acts[0]);
      ExecKeepsInv(Apply(s, acts[0]), acts[1..]);
    }
  }

  /** The state after any interleaving of any requests. */
  ghost function Reach(acts: seq<Action>): (s: State)
    ensures Inv(s)
  {
    ExecKeepsInv(Start(), acts);
    Exec(Start(), acts)
  }

  // ---------- One winner, one successor ----------

  /** In every run, at most one request wins the conditional update of a given token. */
  lemma OneWinner(acts: seq<Action>, p: nat, q: nat)
    requires var s := Reach(acts); p < |s.procs| && q < |s.procs|
    requires var s := Reach(acts); s.procs[p].claimed.Some? && s.procs[p].claimed == s.procs[q].claimed
    ensures p == q
    ensures var s := Reach(acts);
            s.procs[p].claimed.value < |s.db.tokens| && !s.db.tokens[s.procs[p].claimed.value].isActive
  {
    assert ProcInv(Reach(acts), p);
  }

  /** Only that winner issues a successor, and it issues at most one, to the same user. */
  lemma OnlyTheWinnerIssues(s: State, a: nat, b: nat)
    requires Inv(s) && a < |s.origins| && b < |s.origins|
    requires s.origins[b].parent.Some?
    ensures var o := s.origins[b];
            o.issuer < |s.procs| && s.procs[o.issuer].claimed == o.parent && s.procs[o.issuer].issued == Some(b)
    ensures var t := s.origins[b].parent.value;
            t < b && !s.db.tokens[t].isActive && s.db.tokens[t].user == s.db.tokens[b].user
    ensures s.origins[a].parent == s.origins[b].parent ==> a == b
  {
    assert TokenInv(s, a) && TokenInv(s, b);
    assert ProcInv(s, s.origins[b].issuer);
  }

  /** The login a token descends from. */
  ghost function Root(s: State, b: nat): (r: nat)
    requires Inv(s) && b < |s.origins|
    ensures r <= b
  {
    assert TokenInv(s, b);
    if s.origins[b].parent.None? then b else Root(s, s.origins[b].parent.value)
  }

  ghost predicate Ancestor(s: State, a: nat, b: nat)
    requires Inv(s) && b < |s.origins|
  {
    a == b || (s.origins[b].parent.Some? && (assert TokenInv(s, b); Ancestor(s, a, s.origins[b].parent.value)))
  }

  lemma {:induction false} AncestorIsInactive(s: State, a: nat, b: nat)
    requires Inv(s) && a < b < |s.origins| && Ancestor(s, a, b)
    ensures !s.db.tokens[a].isActive
    ensures exists c :: a < c <= b && s.origins[c].parent == Some(a)
  {
    OnlyTheWinnerIssues(s, b, b);
    var p := s.origins[b].parent.value;
    if p != a {
      AncestorIsBelow(s, a, p);
      AncestorIsInactive(s, a, p);
    }
  }

  lemma {:induction false} AncestorIsBelow(s: State, a: nat, b: nat)
    requires Inv(s) && b < |s.origins| && Ancestor(s, a, b)
    ensures a <= b
  {
    assert TokenInv(s, b);
    if a != b { AncestorIsBelow(s, a, s.origins[b].parent.value); }
  }

  lemma {:induction false} SameLoginIsAChain(s: State, a: nat, b: nat)
    requires Inv(s) && a <= b < |s.origins| && Root(s, a) == Root(s, b)
    ensures Ancestor(s, a, b)
    decreases a + b
  {
    assert TokenInv(s, b);
    if a < b {
      var p := s.origins[b].parent.value;
      if a <= p {
        SameLoginIsAChain(s, a, p);
      } else {
        SameLoginIsAChain(s, p, a);
        AncestorIsInactive(s, p, a);
        var c :| p < c <= a && s.origins[c].parent == Some(p);
        OnlyTheWinnerIssues(s, c, b);
      }
    }
  }

  /** In every reachable state the tokens of one login form a chain, and only its last one can be active. */
  lemma LoginChain(acts: seq<Action>, a: nat, b: nat)
    requires var s := Reach(acts); a < b < |s.origins| && Root(s, a) == Root(s, b)
    ensures var s := Reach(acts); Ancestor(s, a, b) && !s.db.tokens[a].isActive
  {
    var s := Reach(acts);
    SameLoginIsAChain(s, a, b);
    AncestorIsInactive(s, a, b);
  }

  // ---------- Revocation is permanent ----------

  /** Token rows only ever change from active to inactive, and requests only claim tokens that were active. */
  ghost predicate Evolves(s: State, s': State) {
    && |s.db.tokens| <= |s'.db.tokens|
    && |s.procs| <= |s'.procs|
    && (forall i :: 0 <= i < |s.db.tokens| ==>
          && s'.db.tokens[i].(isActive := true) == s.db.tokens[i].(isActive := true)
          && (s'.db.tokens[i].isActive ==> s.db.tokens[i].isActive))
    && (forall p, t ::
          && 0 <= p < |s'.procs| && s'.procs[p].claimed == Some(t)
          && t < |s.db.tokens| && !s.db.tokens[t].isActive
          ==> p < |s.procs| && s.procs[p].claimed == Some(t))
  }

  lemma ApplyEvolves(s: State, a: Action)
    ensures Evolves(s, Apply(s, a))
  {
    if a.Step? && a.proc < |s.procs| {
      var s' := StepProc(s, a.proc, a.nonce, a.ttl);
      match s.procs[a.proc].pc
      case FindRefresh(h) =>
      case Rotate(i) =>
      case RevokeRotated(i) =>
      case IssueToken(u) =>
      case FindForLogoutAll(h) =>
      case _ =>
    }
  }

  lemma EvolvesIsTransitive(s: State, m: State, s': State)
    requires Evolves(s, m) && Evolves(m, s')
    ensures Evolves(s, s')
  {
    forall i | 0 <= i < |s.db.tokens|
      ensures s'.db.tokens[i].(isActive := true) == s.db.tokens[i].(isActive := true)
      ensures s'.db.tokens[i].isActive ==> s.db.tokens[i].isActive
    {
      assert m.db.tokens[i].(isActive := true) == s.db.tokens[i].(isActive := true);
    }
  }

  lemma {:induction false} ExecEvolves(s: State, acts: seq<Action>)
    ensures Evolves(s, Exec(s, acts))
    decreases |acts|
  {
    if acts != [] {
      var m := Apply(s, acts[0]);
      ApplyEvolves(s, acts[0]);
      ExecEvolves(m, acts[1..]);
      EvolvesIsTransitive(s, m, Exec(s, acts));
    }
  }

  /**
   A bulk update step (password reset, logout-all or logout) ends every token it selects for good: in every later
   state each such row is inactive, and a request that has not won the row's conditional update by then never does.
   */
  lemma RevocationIsPermanent(s: State, p: nat, nonce: nat, ttl: int, later: seq<Action>, t: nat)
    requires p < |s.procs| && s.procs[p].pc.RevokeTokens?
    requires t < |s.db.tokens| && SelectsToken(s.procs[p].pc.w, t, s.db.tokens[t])
    ensures var s' := Exec(Apply(s, Step(p, nonce, ttl)), later);
            && t < |s'.db.tokens| && !s'.db.tokens[t].isActive
            && forall q :: 0 <= q < |s'.procs| && s'.procs[q].claimed == Some(t) ==>
                 q < |s.procs| && s.procs[q].claimed == Some(t)
  {
    var m := Apply(s, Step(p, nonce, ttl));
    ExecEvolves(m, later);
    assert forall q :: 0 <= q < |s.procs| ==> m.procs[q].claimed == s.procs[q].claimed;
  }

  // ---------- Sessions and tokens under interleaving ----------

  /**
   A login `p` and a bulk revocation `q` of the same user, overlapping in any order in any state. `i0 < i1` are the
   places of the login's token and session saves among the four steps, `j0 < j1` those of the revocation's updates.
   The new pair is torn apart exactly when one half of it is hit and the other is not.
   */
  lemma OverlapTearsPairExactly(s: State, p: nat, q: nat, user: nat, nonce: nat, ttl: int,
                                i0: nat, i1: nat, j0: nat, j1: nat)
    requires i0 < i1 < 4 && j0 < j1 < 4 && {i0, i1} !! {j0, j1}
    requires p < |s.procs| && q < |s.procs| && p != q && s.procs[p].pc == IssueToken(user) && nonce !in s.used
    requires s.procs[q].pc.RevokeTokens? && s.procs[q].pc.w == ByUser(user)
    ensures var who := seq(4, i => if i == i0 || i == i1 then Step(p, nonce, ttl) else Step(q, nonce, ttl));
            var s' := Exec(s, who);
            && |s'.db.tokens| == |s.db.tokens| + 1 && |s'.db.sessions| == |s.db.sessions| + 1
            && s'.db.sessions[|s.db.sessions|].token == |s.db.tokens|
            && (s'.db.tokens[|s.db.tokens|].isActive <==> j0 < i0)
            && (s'.db.sessions[|s.db.sessions|].status == Active <==> j1 < i1)
  {
    var who := seq(4, i => if i == i0 || i == i1 then Step(p, nonce, ttl) else Step(q, nonce, ttl));
    if i0 == 0 {
      assert who == Turns(p, q, true, i1 == 1, i1 == 2, i1 == 3, nonce, ttl);
      OverlapAfterLogin(s, p, q, user, nonce, ttl, i1 == 1, i1 == 2);
    } else {
      assert who == Turns(p, q, false, i0 == 1, i0 == 2 || i1 == 2, i1 == 3, nonce, ttl);
      OverlapAfterRevoke(s, p, q, user, nonce, ttl, i0 == 1, i1 == 3);
    }
  }

  /** Four steps, each of `p` or of `q`. */
  function Turns(p: nat, q: nat, a: bool, b: bool, c: bool, d: bool, nonce: nat, ttl: int): seq<Action> {
    [Turn(p, q, a, nonce, ttl), Turn(p, q, b, nonce, ttl), Turn(p, q, c, nonce, ttl), Turn(p, q, d, nonce, ttl)]
  }

  function Turn(p: nat, q: nat, login: bool, nonce: nat, ttl: int): Action { Step(if login then p else q, nonce, ttl) }

  /** The login saves its token before any update of the revocation. */
  lemma OverlapAfterLogin(s: State, p: nat, q: nat, user: nat, nonce: nat, ttl: int, second: bool, third: bool)
    requires p < |s.procs| && q < |s.procs| && p != q && s.procs[p].pc == IssueToken(user) && nonce !in s.used
    requires s.procs[q].pc.RevokeTokens? && s.procs[q].pc.w == ByUser(user) && !(second && third)
    ensures var last := !second && !third;
            var s' := Exec(s, Turns(p, q, true, second, third, last, nonce, ttl));
            && |s'.db.tokens| == |s.db.tokens| + 1 && |s'.db.sessions| == |s.db.sessions| + 1
            && s'.db.sessions[|s.db.sessions|].token == |s.db.tokens|
            && !s'.db.tokens[|s.db.tokens|].isActive
            && (s'.db.sessions[|s.db.sessions|].status == Active <==> last)
  {
    ExecFour(s, Turns(p, q, true, second, third, !second && !third, nonce, ttl));
  }

  /** The revocation updates the tokens before the login saves one. */
  lemma OverlapAfterRevoke(s: State, p: nat, q: nat, user: nat, nonce: nat, ttl: int, second: bool, last: bool)
    requires p < |s.procs| && q < |s.procs| && p != q && s.procs[p].pc == IssueToken(user) && nonce !in s.used
    requires s.procs[q].pc.RevokeTokens? && s.procs[q].pc.w == ByUser(user) && (second || last)
    ensures var third := !(second && last);
            var s' := Exec(s, Turns(p, q, false, second, third, last, nonce, ttl));
            && |s'.db.tokens| == |s.db.tokens| + 1 && |s'.db.sessions| == |s.db.sessions| + 1
            && s'.db.sessions[|s.db.sessions|].token == |s.db.tokens|
            && s'.db.tokens[|s.db.tokens|].isActive
            && (s'.db.sessions[|s.db.sessions|].status == Active <==> last)
  {
    ExecFour(s, Turns(p, q, false, second, !(second && last), last, nonce, ttl));
  }

  lemma {:induction false} ExecFour(s: State, acts: seq<Action>)
    requires |acts| == 4
    ensures Exec(s, acts) == Apply(Apply(Apply(Apply(s, acts[0]), acts[1]), acts[2]), acts[3])
  {
    var s1 := Apply(s, acts[0]);
    var s2 := Apply(s1, acts[1]);
    assert Exec(s, acts) == Exec(s1, acts[1..]);
    assert Exec(s1, acts[1..]) == Exec(s2, acts[2..]) by { assert acts[1..][1..] == acts[2..]; }
    assert Exec(s2, acts[2..]) == Exec(Apply(s2, acts[2]), acts[3..]) by { assert acts[2..][1..] == acts[3..]; }
    var s3 := Apply(s2, acts[2]);
    assert Exec(s3, acts[3..]) == Exec(Apply(s3, acts[3]), []) by { assert acts[3..][1..] == []; }
  }
}
