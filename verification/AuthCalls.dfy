/**
 What each request of a run may do, told from the call it was begun with. A request is known by its place among the
 `Begin` actions of the run.
 */
module AuthCalls {
  import opened Wrappers
  import opened AuthTables
  import opened AuthProtocol
  import opened AuthAgreement

  /** The calls of a run, in the order they begin. */
  function Calls(acts: seq<Action>): seq<Call> {
    if acts == [] then []
    else
      var last := acts[|acts| - 1];
      Calls(acts[..|acts| - 1]) + if last.Begin? then [last.call] else []
  }

  /** The time that passes in a run. */
  function Elapsed(acts: seq<Action>): nat {
    if acts == [] then 0
    else
      var last := acts[|acts| - 1];
      Elapsed(acts[..|acts| - 1]) + if last.Tick? then last.elapsed else 0
  }

  /** A login knows whom it serves, replaces no token, and goes through its two saves. */
  ghost predicate LoginInv(s: State, u: nat, q: Proc) {
    && q.claimed.None?
    && (q.issued.Some? ==> q.issued.value < |s.db.tokens| && s.db.tokens[q.issued.value].user == u)
    && match q.pc
       case IssueToken(x) => x == u && q.issued.None?
       case IssueSession(_, x, _) => x == u
       case Done(o) => o == Outcome.Issued || o == Crashed
       case _ => false
  }

  /** A refresh only ever wins a token with the hash it was called with, and saves nothing before it has. */
  ghost predicate RefreshInv(s: State, h: nat, q: Proc) {
    && (q.claimed.Some? ==> q.claimed.value < |s.db.tokens| && s.db.tokens[q.claimed.value].hash == h)
    && (q.issued.Some? ==> q.claimed.Some?)
    && match q.pc
       case FindRefresh(x) => x == h && q.claimed.None?
       case Rotate(i) => i < |s.db.tokens| && s.db.tokens[i].hash == h && q.claimed.None?
       case RevokeRotated(i) => q.claimed == Some(i)
       case IssueToken(_) => q.claimed.Some?
       case IssueSession(_, _, _) => q.claimed.Some?
       case Done(Issued) => q.claimed.Some?
       case Done(o) => o == Crashed || ((o == InvalidToken || o == ExpiredToken || o == AlreadyUsed) && q.claimed.None?)
       case _ => false
  }

  /** The user that a logout of all sessions revokes has a token with the hash it was called with. */
  ghost predicate HasToken(s: State, u: nat, h: nat) {
    exists i :: 0 <= i < |s.db.tokens| && s.db.tokens[i].user == u && s.db.tokens[i].hash == h
  }

  ghost predicate LogoutInv(s: State, h: nat, all: bool, pc: Pc) {
    match pc
    case FindForLogoutAll(x) => all && x == h
    case RevokeTokens(w, r) => r.None? && if all then w.ByUser? && HasToken(s, w.user, h) else w == ByHash(h)
    case RevokeTheirSessions(w, r) => r.None? && if all then w.ByUser? && HasToken(s, w.user, h) else w == ByHash(h)
    case Done(o) => o == LoggedOut || o == Crashed
    case _ => false
  }

  ghost predicate ResetRowIs(s: State, i: nat, h: nat, w: Selector) {
    i < |s.db.resets| && s.db.resets[i].hash == h && w == ByUser(s.db.resets[i].user)
  }

  /** A reset revokes the user of a row with the hash it was called with, and then consumes that row. */
  ghost predicate ResetInv(s: State, h: nat, pc: Pc) {
    match pc
    case FindResetRow(x) => x == h
    case RevokeTokens(w, r) => r.Some? && ResetRowIs(s, r.value, h, w)
    case RevokeTheirSessions(w, r) => r.Some? && ResetRowIs(s, r.value, h, w)
    case ConsumeReset(i) => i < |s.db.resets| && s.db.resets[i].hash == h
    case Done(o) => o == ResetRejected || o == ResetDone || o == Crashed
    case _ => false
  }

  /** Where a request may be that was begun as `call`, and what it may have won and saved. */
  ghost predicate CallInv(s: State, call: Call, p: nat)
    requires p < |s.procs|
  {
    var q := s.procs[p];
    && (!call.Login? && !call.Refresh? ==> q.claimed.None? && q.issued.None?)
    && match call
       case Login(u) => LoginInv(s, u, q)
       case Refresh(h) => RefreshInv(s, h, q)
       case Logout(h) => LogoutInv(s, h, false, q.pc)
       case LogoutAll(h) => LogoutInv(s, h, true, q.pc)
       case Forgot(u) => q.pc == SaveReset(u) || q.pc == Done(ResetSent) || q.pc == Done(Crashed)
       case Reset(h) => ResetInv(s, h, q.pc)
  }

  ghost predicate CallsInv(s: State, calls: seq<Call>) {
    |calls| == |s.procs| && forall p :: 0 <= p < |s.procs| ==> CallInv(s, calls[p], p)
  }

  /** What no action changes: who owns a row, and what its hash is. */
  ghost predicate KeepsHashes(s: State, s': State) {
    && |s.db.tokens| <= |s'.db.tokens| && |s.db.resets| <= |s'.db.resets|
    && (forall i :: 0 <= i < |s.db.tokens| ==>
          s'.db.tokens[i].hash == s.db.tokens[i].hash && s'.db.tokens[i].user == s.db.tokens[i].user)
    && (forall i :: 0 <= i < |s.db.resets| ==>
          s'.db.resets[i].hash == s.db.resets[i].hash && s'.db.resets[i].user == s.db.resets[i].user)
  }

  lemma ApplyKeepsHashes(s: State, a: Action)
    ensures KeepsHashes(s, Apply(s, a))
  {
  }

  lemma OtherKeepsCall(s: State, s': State, call: Call, p: nat)
    requires KeepsHashes(s, s') && p < |s.procs| && p < |s'.procs| && CallInv(s, call, p)
    requires s'.procs[p] == s.procs[p] || s'.procs[p] == s.procs[p].(pc := Done(Crashed))
    ensures CallInv(s', call, p)
  {
    if call.LogoutAll? && (s.procs[p].pc.RevokeTokens? || s.procs[p].pc.RevokeTheirSessions?) {
      var i :| 0 <= i < |s.db.tokens|
        && s.db.tokens[i].user == s.procs[p].pc.w.user && s.db.tokens[i].hash == call.hash;
      assert s'.db.tokens[i].hash == call.hash;
    }
  }

  lemma LoginKeepsCall(s: State, p: nat, nonce: nat, ttl: int, u: nat)
    requires Inv(s) && p < |s.procs| && LoginInv(s, u, s.procs[p])
    ensures LoginInv(StepProc(s, p, nonce, ttl), u, StepProc(s, p, nonce, ttl).procs[p])
  {
    assert ProcInv(s, p);
  }

  lemma RefreshKeepsCall(s: State, p: nat, nonce: nat, ttl: int, h: nat)
    requires Inv(s) && p < |s.procs| && RefreshInv(s, h, s.procs[p])
    ensures RefreshInv(StepProc(s, p, nonce, ttl), h, StepProc(s, p, nonce, ttl).procs[p])
  {
    assert ProcInv(s, p);
  }

  lemma LogoutKeepsCall(s: State, p: nat, nonce: nat, ttl: int, h: nat, all: bool)
    requires p < |s.procs| && LogoutInv(s, h, all, s.procs[p].pc)
    ensures LogoutInv(StepProc(s, p, nonce, ttl), h, all, StepProc(s, p, nonce, ttl).procs[p].pc)
    ensures StepProc(s, p, nonce, ttl).procs[p].(pc := s.procs[p].pc) == s.procs[p]
  {
    var s' := StepProc(s, p, nonce, ttl);
    ApplyKeepsHashes(s, Step(p, nonce, ttl));
    if all && s'.procs[p].pc.RevokeTokens? {
      var i := FindToken(s.db.tokens, h).value;
      assert s'.db.tokens[i].hash == h;
    } else if all && s'.procs[p].pc.RevokeTheirSessions? {
      var i :| 0 <= i < |s.db.tokens| && s.db.tokens[i].user == s.procs[p].pc.w.user && s.db.tokens[i].hash == h;
      assert s'.db.tokens[i].hash == h;
    }
  }

  lemma ResetKeepsCall(s: State, p: nat, nonce: nat, ttl: int, h: nat)
    requires p < |s.procs| && ResetInv(s, h, s.procs[p].pc)
    ensures ResetInv(StepProc(s, p, nonce, ttl), h, StepProc(s, p, nonce, ttl).procs[p].pc)
    ensures StepProc(s, p, nonce, ttl).procs[p].(pc := s.procs[p].pc) == s.procs[p]
  {
  }

  lemma StepKeepsCall(s: State, p: nat, nonce: nat, ttl: int, call: Call)
    requires Inv(s) && p < |s.procs| && CallInv(s, call, p)
    ensures CallInv(StepProc(s, p, nonce, ttl), call, p)
  {
    match call
    case Login(u) => LoginKeepsCall(s, p, nonce, ttl, u);
    case Refresh(h) => RefreshKeepsCall(s, p, nonce, ttl, h);
    case Logout(h) => LogoutKeepsCall(s, p, nonce, ttl, h, false);
    case LogoutAll(h) => LogoutKeepsCall(s, p, nonce, ttl, h, true);
    case Reset(h) => ResetKeepsCall(s, p, nonce, ttl, h);
    case Forgot(u) =>
  }

  lemma StepLeavesOthers(s: State, p: nat, nonce: nat, ttl: int)
    requires p < |s.procs|
    ensures var s' := StepProc(s, p, nonce, ttl);
            |s'.procs| == |s.procs| && forall q :: 0 <= q < |s.procs| && q != p ==> s'.procs[q] == s.procs[q]
  {
  }

  lemma ApplyKeepsCalls(s: State, a: Action, calls: seq<Call>)
    requires Inv(s) && CallsInv(s, calls)
    ensures CallsInv(Apply(s, a), calls + if a.Begin? then [a.call] else [])
  {
    var s' := Apply(s, a);
    ApplyKeepsHashes(s, a);
    if a.Step? && a.proc < |s.procs| { StepLeavesOthers(s, a.proc, a.nonce, a.ttl); }
    forall p | 0 <= p < |s.procs| ensures CallInv(s', calls[p], p) {
      if a.Step? && a.proc == p {
        StepKeepsCall(s, p, a.nonce, a.ttl, calls[p]);
      } else {
        OtherKeepsCall(s, s', calls[p], p);
      }
    }
  }

  /** In every reachable state, every request is where its call allows, and has won and saved only what it may. */
  lemma {:induction false} ReachKeepsCalls(acts: seq<Action>)
    ensures CallsInv(Reach(acts), Calls(acts))
  {
    if acts != [] {
      var n := |acts| - 1;
      assert acts == acts[..n] + [acts[n]];
      ExecLast(Start(), acts[..n], acts[n]);
      ReachKeepsCalls(acts[..n]);
      ApplyKeepsCalls(Reach(acts[..n]), acts[n], Calls(acts[..n]));
    }
  }

  // ---------- Who may issue a token ----------

  /**
   In every reachable state a token was saved by a login or by a refresh. It replaces no other if and only if that was a
   login, which it then serves; and a refresh replaces a token with the hash it was called with.
   */
  lemma IssuerExactly(acts: seq<Action>, b: nat)
    requires b < |Reach(acts).db.tokens|
    ensures var s := Reach(acts);
            && |s.origins| == |s.db.tokens| && |Calls(acts)| == |s.procs| && s.origins[b].issuer < |s.procs|
            && var parent, call := s.origins[b].parent, Calls(acts)[s.origins[b].issuer];
               && (parent.None? <==> call == Login(s.db.tokens[b].user))
               && (parent.Some? <==> call.Refresh?)
               && (parent.Some? ==> parent.value < b && call == Call.Refresh(s.db.tokens[parent.value].hash))
  {
    var s := Reach(acts);
    ReachKeepsCalls(acts);
    assert TokenInv(s, b);
    assert CallInv(s, Calls(acts)[s.origins[b].issuer], s.origins[b].issuer);
  }

  /** Of all the requests to refresh with one token, at most one ever saves a new token, in every interleaving. */
  lemma OneRefreshIssues(acts: seq<Action>, p: nat, q: nat)
    requires |Calls(acts)| == |Reach(acts).procs| && p < |Calls(acts)| && q < |Calls(acts)| && p != q
    requires Calls(acts)[p].Refresh? && Calls(acts)[q] == Calls(acts)[p]
    ensures var s := Reach(acts); s.procs[p].issued.None? || s.procs[q].issued.None?
    ensures var s := Reach(acts); s.procs[p].pc != Done(Outcome.Issued) || s.procs[q].pc != Done(Outcome.Issued)
  {
    var s := Reach(acts);
    ReachKeepsCalls(acts);
    assert CallInv(s, Calls(acts)[p], p) && CallInv(s, Calls(acts)[q], q);
    if s.procs[p].claimed.Some? && s.procs[q].claimed.Some? {
      SameHashSameRow(s, s.procs[p].claimed.value, s.procs[q].claimed.value);
      OneWinner(acts, p, q);
    }
  }

  lemma SameHashSameRow(s: State, i: nat, j: nat)
    requires Inv(s) && i < |s.db.tokens| && j < |s.db.tokens| && s.db.tokens[i].hash == s.db.tokens[j].hash
    ensures i == j
  {
  }

  /** The token a chain starts from was saved by a login. */
  lemma {:induction false} RootHasNoParent(s: State, b: nat)
    requires Inv(s) && b < |s.origins|
    ensures s.origins[Root(s, b)].parent.None?
  {
    assert TokenInv(s, b);
    if s.origins[b].parent.Some? { RootHasNoParent(s, s.origins[b].parent.value); }
  }

  /** In every reachable state each login request has at most one live token, however often it was refreshed. */
  lemma LoginHasOneLiveToken(acts: seq<Action>, a: nat, b: nat)
    requires var s := Reach(acts);
             a < |s.origins| && b < |s.origins| && s.db.tokens[a].isActive && s.db.tokens[b].isActive
    requires var s := Reach(acts); s.origins[Root(s, a)].issuer == s.origins[Root(s, b)].issuer
    ensures var s := Reach(acts);
            s.origins[Root(s, a)].issuer < |Calls(acts)| && Calls(acts)[s.origins[Root(s, a)].issuer].Login?
    ensures a == b
  {
    var s := Reach(acts);
    RootHasNoParent(s, a);
    IssuerExactly(acts, Root(s, a));
    assert TokenInv(s, Root(s, a)) && TokenInv(s, Root(s, b));
    if a < b { LoginChain(acts, a, b); }
    if b < a { LoginChain(acts, b, a); }
  }

  /** A call other than a login or a refresh never saves a token. */
  lemma OthersNeverIssue(acts: seq<Action>, p: nat)
    requires p < |Reach(acts).procs| == |Calls(acts)| && !Calls(acts)[p].Login? && !Calls(acts)[p].Refresh?
    ensures Reach(acts).procs[p].issued.None? && Reach(acts).procs[p].pc != Done(Outcome.Issued)
  {
    ReachKeepsCalls(acts);
    assert CallInv(Reach(acts), Calls(acts)[p], p);
  }

  // ---------- When a refresh is refused ----------

  lemma {:induction false} ClockIsElapsed(acts: seq<Action>)
    ensures Reach(acts).now == Elapsed(acts)
  {
    if acts != [] {
      var n := |acts| - 1;
      assert acts == acts[..n] + [acts[n]];
      ExecLast(Start(), acts[..n], acts[n]);
      ClockIsElapsed(acts[..n]);
    }
  }

  /** In every interleaving, a refresh passes its lookup iff its token exists, is in time, and was not hit. */
  lemma LookupExactly(acts: seq<Action>, p: nat, nonce: nat, ttl: int)
    requires p < |Reach(acts).procs| && Reach(acts).procs[p].pc.FindRefresh?
    ensures var s := Reach(acts);
            var found := FindToken(s.db.tokens, s.procs[p].pc.hash);
            Apply(s, Step(p, nonce, ttl)) ==
              At(s, p,
                 if found.None? then Done(InvalidToken)
                 else if TokenHit(Start(), acts, found.value) || s.db.tokens[found.value].expiresAt < Elapsed(acts)
                 then Done(ExpiredToken)
                 else Rotate(found.value))
  {
    var s := Reach(acts);
    var found := FindToken(s.db.tokens, s.procs[p].pc.hash);
    ClockIsElapsed(acts);
    if found.Some? { TokenActiveExactly(Start(), acts, found.value); }
  }

  /**
   The conditional update is lost if and only if some earlier step of the run hit the token; a request that loses it is
   done, and leaves the tables as they are.
   */
  lemma RotationExactly(acts: seq<Action>, p: nat, nonce: nat, ttl: int)
    requires p < |Reach(acts).procs| && Reach(acts).procs[p].pc.Rotate?
    ensures var s, t := Reach(acts), Reach(acts).procs[p].pc.id;
            var s' := Apply(s, Step(p, nonce, ttl));
            && t < |s.db.tokens|
            && (s'.procs[p].pc == RevokeRotated(t) <==> !TokenHit(Start(), acts, t))
            && (TokenHit(Start(), acts, t) ==> s' == At(s, p, Done(AlreadyUsed)))
  {
    var s := Reach(acts);
    assert ProcInv(s, p);
    TokenActiveExactly(Start(), acts, s.procs[p].pc.id);
  }
}
