/**
 When sessions and refresh tokens agree under interleaving, exactly: over every run of any number of requests, crashes
 included. The same for the question whether a reset token is still accepted.
 */
module AuthAgreement {
  import opened Wrappers
  import opened AuthTables
  import opened AuthProtocol
  import opened AuthService

  // ---------- Which steps deactivate a row ----------

  /** The action deactivates token row `t`: a refresh rotating it, or a bulk update that selects it. */
  predicate HitsToken(s: State, a: Action, t: nat) {
    && a.Step? && a.proc < |s.procs| && t < |s.db.tokens|
    && match s.procs[a.proc].pc
       case Rotate(i) => i == t
       case RevokeTokens(w, _) => SelectsToken(w, t, s.db.tokens[t])
       case _ => false
  }

  /** The action revokes session row `j`. */
  predicate HitsSession(s: State, a: Action, j: nat) {
    && a.Step? && a.proc < |s.procs| && j < |s.db.sessions|
    && match s.procs[a.proc].pc
       case RevokeRotated(i) => i < |s.db.tokens| && s.db.sessions[j].token == i
       case RevokeTheirSessions(w, _) => SelectsSession(w, s.db.sessions[j], s.db.tokens)
       case _ => false
  }

  /** The action consumes reset row `i`. */
  predicate Consumes(s: State, a: Action, i: nat) {
    a.Step? && a.proc < |s.procs| && i < |s.db.resets| && s.procs[a.proc].pc == ConsumeReset(i)
  }

  predicate TokenHit(s: State, acts: seq<Action>, t: nat)
    decreases |acts|
  {
    acts != [] && (HitsToken(s, acts[0], t) || TokenHit(Apply(s, acts[0]), acts[1..], t))
  }

  predicate SessionHit(s: State, acts: seq<Action>, j: nat)
    decreases |acts|
  {
    acts != [] && (HitsSession(s, acts[0], j) || SessionHit(Apply(s, acts[0]), acts[1..], j))
  }

  predicate Consumed(s: State, acts: seq<Action>, i: nat)
    decreases |acts|
  {
    acts != [] && (Consumes(s, acts[0], i) || Consumed(Apply(s, acts[0]), acts[1..], i))
  }

  lemma ApplyGrows(s: State, a: Action)
    ensures var s' := Apply(s, a);
            |s.db.tokens| <= |s'.db.tokens| && |s.db.sessions| <= |s'.db.sessions| && |s.db.resets| <= |s'.db.resets|
  {
  }

  lemma ApplyTokenActive(s: State, a: Action, t: nat)
    requires t < |Apply(s, a).db.tokens|
    ensures Apply(s, a).db.tokens[t].isActive
            <==> (t < |s.db.tokens| ==> s.db.tokens[t].isActive) && !HitsToken(s, a, t)
  {
  }

  lemma ApplySessionActive(s: State, a: Action, j: nat)
    requires j < |Apply(s, a).db.sessions|
    ensures Apply(s, a).db.sessions[j].status == Active
            <==> (j < |s.db.sessions| ==> s.db.sessions[j].status == Active) && !HitsSession(s, a, j)
  {
  }

  lemma ApplyConsumed(s: State, a: Action, i: nat)
    requires i < |Apply(s, a).db.resets|
    ensures Apply(s, a).db.resets[i].consumed
            <==> (i < |s.db.resets| && s.db.resets[i].consumed) || Consumes(s, a, i)
  {
  }

  /** From any state, over every run: a token row is active exactly if it started so, or is new, and no step hit it. */
  lemma {:induction false} TokenActiveExactly(s: State, acts: seq<Action>, t: nat)
    requires t < |Exec(s, acts).db.tokens|
    ensures Exec(s, acts).db.tokens[t].isActive
            <==> (t < |s.db.tokens| ==> s.db.tokens[t].isActive) && !TokenHit(s, acts, t)
    decreases |acts|
  {
    if acts != [] {
      var m := Apply(s, acts[0]);
      ApplyGrows(s, acts[0]);
      TokenActiveExactly(m, acts[1..], t);
      if t < |m.db.tokens| { ApplyTokenActive(s, acts[0], t); }
    }
  }

  /** The same for session rows. */
  lemma {:induction false} SessionActiveExactly(s: State, acts: seq<Action>, j: nat)
    requires j < |Exec(s, acts).db.sessions|
    ensures Exec(s, acts).db.sessions[j].status == Active
            <==> (j < |s.db.sessions| ==> s.db.sessions[j].status == Active) && !SessionHit(s, acts, j)
    decreases |acts|
  {
    if acts != [] {
      var m := Apply(s, acts[0]);
      ApplyGrows(s, acts[0]);
      SessionActiveExactly(m, acts[1..], j);
      if j < |m.db.sessions| { ApplySessionActive(s, acts[0], j); }
    }
  }

  /** A reset row is consumed exactly if it was, or some step consumed it. */
  lemma {:induction false} ConsumedExactly(s: State, acts: seq<Action>, i: nat)
    requires i < |Exec(s, acts).db.resets|
    ensures Exec(s, acts).db.resets[i].consumed
            <==> (i < |s.db.resets| && s.db.resets[i].consumed) || Consumed(s, acts, i)
    decreases |acts|
  {
    if acts != [] {
      var m := Apply(s, acts[0]);
      ApplyGrows(s, acts[0]);
      ConsumedExactly(m, acts[1..], i);
      if i < |m.db.resets| { ApplyConsumed(s, acts[0], i); }
    }
  }

  // ---------- Which tokens have a session ----------

  /** The request that saved token `t` went on to save its session. */
  ghost predicate SessionSaved(s: State, t: nat)
    requires Inv(s) && t < |s.db.tokens|
  {
    assert TokenInv(s, t);
    s.procs[s.origins[t].issuer].pc == Done(Outcome.Issued)
  }

  predicate HasSession(s: State, t: nat) { exists j :: 0 <= j < |s.db.sessions| && s.db.sessions[j].token == t }

  /** Session `j` belongs to a token, agrees with it on user and expiry, and was saved by the token's issuer. */
  ghost predicate SessionOk(s: State, j: nat)
    requires Inv(s) && j < |s.db.sessions|
  {
    var row := s.db.sessions[j];
    && row.token < |s.db.tokens| && SessionSaved(s, row.token)
    && row.user == s.db.tokens[row.token].user && row.expiresAt == s.db.tokens[row.token].expiresAt
  }

  ghost predicate SessionsInv(s: State)
    requires Inv(s)
  {
    && (forall j :: 0 <= j < |s.db.sessions| ==> SessionOk(s, j))
    && (forall j, k :: 0 <= j < k < |s.db.sessions| ==> s.db.sessions[j].token != s.db.sessions[k].token)
    && (forall t :: 0 <= t < |s.db.tokens| && SessionSaved(s, t) ==> HasSession(s, t))
  }

  /** No action changes whom a session belongs to, and a finished request stays finished. */
  lemma ApplyKeepsSessions(s: State, a: Action)
    ensures var s' := Apply(s, a);
            && |s.db.sessions| <= |s'.db.sessions| <= |s.db.sessions| + 1 && |s.procs| <= |s'.procs|
            && (forall j :: 0 <= j < |s.db.sessions| ==>
                  s'.db.sessions[j].(status := Active) == s.db.sessions[j].(status := Active))
            && (forall p :: 0 <= p < |s.procs| && s.procs[p].pc.Done? ==> s'.procs[p] == s.procs[p])
  {
  }

  /** A session is added only by the step that finishes its issuer. */
  predicate SavesSession(s: State, a: Action) {
    a.Step? && a.proc < |s.procs| && s.procs[a.proc].pc.IssueSession?
  }

  lemma ApplyAddsSession(s: State, a: Action)
    ensures var s' := Apply(s, a);
            SavesSession(s, a) ==>
              && s'.db.tokens == s.db.tokens && s'.origins == s.origins
              && s'.procs[a.proc].pc == Done(Outcome.Issued)
              && var pc := s.procs[a.proc].pc;
                 s'.db.sessions == s.db.sessions + [SessionRow(pc.user, pc.token, Active, pc.expiresAt)]
    ensures var s' := Apply(s, a);
            !SavesSession(s, a) ==>
              && |s'.db.sessions| == |s.db.sessions|
              && forall p :: 0 <= p < |s'.procs| && s'.procs[p].pc == Done(Outcome.Issued) ==>
                   p < |s.procs| && s.procs[p].pc == Done(Outcome.Issued)
  {
  }

  lemma ApplyKeepsRows(s: State, a: Action)
    requires |s.db.tokens| == |s.origins|
    ensures KeepsRows(s, Apply(s, a))
  {
    if a.Step? && a.proc < |s.procs| { StepKeepsRows(s, a.proc, a.nonce, a.ttl); }
  }

  /** What was saved stays saved. */
  lemma SavedStays(s: State, a: Action, t: nat)
    requires Inv(s) && t < |s.db.tokens| && SessionSaved(s, t)
    ensures Inv(Apply(s, a)) && t < |Apply(s, a).db.tokens| && SessionSaved(Apply(s, a), t)
  {
    ApplyKeepsInv(s, a);
    ApplyKeepsRows(s, a);
    ApplyKeepsSessions(s, a);
    assert TokenInv(s, t);
    var p := s.origins[t].issuer;
    assert s.procs[p].pc.Done?;
  }

  lemma OldSessionsOk(s: State, a: Action, j: nat)
    requires Inv(s) && SessionsInv(s) && j < |s.db.sessions|
    ensures Inv(Apply(s, a)) && j < |Apply(s, a).db.sessions| && SessionOk(Apply(s, a), j)
    ensures Apply(s, a).db.sessions[j].token == s.db.sessions[j].token
  {
    assert SessionOk(s, j);
    var t := s.db.sessions[j].token;
    SavedStays(s, a, t);
    ApplyKeepsRows(s, a);
    ApplyKeepsSessions(s, a);
    var s' := Apply(s, a);
    assert Demoted(s.db.tokens[t], s'.db.tokens[t]);
    assert s'.db.sessions[j].(status := Active) == s.db.sessions[j].(status := Active);
  }

  lemma OldSessionFound(s: State, a: Action, t: nat)
    requires HasSession(s, t)
    ensures HasSession(Apply(s, a), t)
  {
    ApplyKeepsSessions(s, a);
    var j :| 0 <= j < |s.db.sessions| && s.db.sessions[j].token == t;
    var s' := Apply(s, a);
    assert s'.db.sessions[j].(status := Active) == s.db.sessions[j].(status := Active);
  }

  /** A token whose issuer is done after an action has a session after it. */
  lemma SavedHasSession(s: State, a: Action, t: nat)
    requires Inv(s) && SessionsInv(s) && Inv(Apply(s, a)) && t < |Apply(s, a).db.tokens| && SessionSaved(Apply(s, a), t)
    ensures HasSession(Apply(s, a), t)
  {
    var s' := Apply(s, a);
    ApplyKeepsRows(s, a);
    ApplyKeepsSessions(s, a);
    ApplyAddsSession(s, a);
    assert TokenInv(s', t);
    var p := s'.origins[t].issuer;
    if SavesSession(s, a) && p == a.proc {
      assert TokenInv(s, t) && ProcInv(s, p);
      assert s'.db.sessions[|s.db.sessions|].token == t;
    } else {
      assert p < |s.procs| && s.procs[p].pc == Done(Outcome.Issued) by { StaysDone(s, a, p); }
      assert ProcInv(s, p);
      assert TokenInv(s, t) && SessionSaved(s, t);
      OldSessionFound(s, a, t);
    }
  }

  /** A request that is done issuing was so before, unless this very action finished it. */
  lemma StaysDone(s: State, a: Action, p: nat)
    requires p < |Apply(s, a).procs| && Apply(s, a).procs[p].pc == Done(Outcome.Issued)
    ensures (SavesSession(s, a) && p == a.proc) || (p < |s.procs| && s.procs[p].pc == Done(Outcome.Issued))
  {
  }

  lemma NewSessionOk(s: State, a: Action)
    requires Inv(s) && SessionsInv(s) && SavesSession(s, a) && Inv(Apply(s, a))
    ensures var s', j := Apply(s, a), |s.db.sessions|;
            && |s'.db.sessions| == j + 1 && SessionOk(s', j)
            && forall k :: 0 <= k < j ==> s.db.sessions[k].token != s'.db.sessions[j].token
  {
    ApplyAddsSession(s, a);
    assert ProcInv(s, a.proc);
    var t := s.procs[a.proc].pc.token;
    assert TokenInv(s, t);
    forall k | 0 <= k < |s.db.sessions| ensures s.db.sessions[k].token != t {
      assert SessionOk(s, k);
    }
  }

  lemma ApplyKeepsSessionsInv(s: State, a: Action)
    requires Inv(s) && SessionsInv(s)
    ensures Inv(Apply(s, a)) && SessionsInv(Apply(s, a))
  {
    var s' := Apply(s, a);
    ApplyKeepsInv(s, a);
    ApplyAddsSession(s, a);
    if SavesSession(s, a) { NewSessionOk(s, a); }
    forall j | 0 <= j < |s.db.sessions|
      ensures SessionOk(s', j) && s'.db.sessions[j].token == s.db.sessions[j].token
    {
      OldSessionsOk(s, a, j);
    }
    forall t | 0 <= t < |s'.db.tokens| && SessionSaved(s', t) ensures HasSession(s', t) { SavedHasSession(s, a, t); }
  }

  lemma {:induction false} ExecKeepsSessionsInv(s: State, acts: seq<Action>)
    requires Inv(s) && SessionsInv(s)
    ensures Inv(Exec(s, acts)) && SessionsInv(Exec(s, acts))
    decreases |acts|
  {
    if acts != [] {
      ApplyKeepsSessionsInv(s, acts[0]);
      ExecKeepsSessionsInv(Apply(s, acts[0]), acts[1..]);
    }
  }

  /**
   In every reachable state every session has a token of its own with the same user and expiry, and a token has a
   session if and only if its issuer went on to save one: otherwise that request is still before the save, or crashed.
   */
  lemma TokenHasSessionExactly(acts: seq<Action>, t: nat)
    requires t < |Reach(acts).db.tokens|
    ensures SessionsInv(Reach(acts))
    ensures var s := Reach(acts); HasSession(s, t) <==> SessionSaved(s, t)
    ensures var s := Reach(acts);
            !HasSession(s, t) ==>
              var pc := (assert TokenInv(s, t); s.procs[s.origins[t].issuer].pc);
              pc == Done(Crashed) || (pc.IssueSession? && pc.token == t)
  {
    var s := Reach(acts);
    ExecKeepsSessionsInv(Start(), acts);
    assert TokenInv(s, t);
    assert ProcInv(s, s.origins[t].issuer);
    if HasSession(s, t) {
      var j :| 0 <= j < |s.db.sessions| && s.db.sessions[j].token == t;
      assert SessionOk(s, j);
    }
  }

  // ---------- When a pair agrees ----------

  /** Token `t` has a session that agrees with it on everything, activity included. */
  ghost predicate Agrees(s: State, t: nat)
    requires t < |s.db.tokens|
  {
    exists j :: 0 <= j < |s.db.sessions| && PairOk(s.db.sessions[j], s.db.tokens[t], t)
  }

  /** Over the run both rows were hit, or neither was. */
  predicate HitAlike(acts: seq<Action>, t: nat, j: nat) {
    TokenHit(Start(), acts, t) <==> SessionHit(Start(), acts, j)
  }

  /**
   Over every run of any number of requests, a token has an agreeing session if and only if its issuer went on to save
   one and the run deactivated both halves or neither.
   */
  lemma PairAgreesExactly(acts: seq<Action>, t: nat)
    requires t < |Reach(acts).db.tokens|
    ensures var s := Reach(acts);
            Agrees(s, t) <==>
              && SessionSaved(s, t)
              && forall j :: 0 <= j < |s.db.sessions| && s.db.sessions[j].token == t ==> HitAlike(acts, t, j)
  {
    var s := Reach(acts);
    TokenHasSessionExactly(acts, t);
    TokenActiveExactly(Start(), acts, t);
    forall j | 0 <= j < |s.db.sessions| && s.db.sessions[j].token == t
      ensures PairOk(s.db.sessions[j], s.db.tokens[t], t) <==> HitAlike(acts, t, j)
    {
      assert SessionOk(s, j);
      SessionActiveExactly(Start(), acts, j);
    }
  }

  // ---------- Runs that tear a pair apart ----------

  lemma ExecOne(s: State, a: Action)
    ensures Exec(s, [a]) == Apply(s, a)
  {
    assert Exec(Apply(s, a), [a][1..]) == Apply(s, a);
  }

  lemma {:induction false} ExecLast(s: State, acts: seq<Action>, a: Action)
    ensures Exec(s, acts + [a]) == Apply(Exec(s, acts), a)
  {
    ExecConcat(s, acts, [a]);
    ExecOne(Exec(s, acts), a);
  }

  /** A password reset that has been looked up, with `others` begun before its lookup. */
  function ResetBegun(others: seq<Action>): seq<Action> {
    [Begin(Forgot(1))] + [Step(0, 5, 1)] + [Begin(Call.Reset(5))] + others + [Step(1, 0, 0)]
  }

  lemma ResetAsked()
    ensures Exec(Start(), [Begin(Forgot(1))] + [Step(0, 5, 1)] + [Begin(Call.Reset(5))])
            == State(Tables([], [], [ResetRow(1, 5, 1, false)]),
                     [Proc(Done(ResetSent), None, None), Proc(FindResetRow(5), None, None)], 0, {5}, [])
  {
    ExecOne(Start(), Begin(Forgot(1)));
    ExecLast(Start(), [Begin(Forgot(1))], Step(0, 5, 1));
    ExecLast(Start(), [Begin(Forgot(1))] + [Step(0, 5, 1)], Begin(Call.Reset(5)));
  }

  /** With one more request begun meanwhile, the reset has passed its lookup. */
  lemma ResetPasses(call: Call)
    requires call == Login(1) || call == Call.Reset(5)
    ensures Exec(Start(), ResetBegun([Begin(call)]))
            == State(Tables([], [], [ResetRow(1, 5, 1, false)]),
                     [Proc(Done(ResetSent), None, None), Proc(RevokeTokens(ByUser(1), Some(0)), None, None),
                      Proc(FirstPc(call), None, None)], 0, {5}, [])
  {
    ResetAsked();
    var asked := [Begin(Forgot(1))] + [Step(0, 5, 1)] + [Begin(Call.Reset(5))];
    ExecLast(Start(), asked, Begin(call));
    ExecLast(Start(), asked + [Begin(call)], Step(1, 0, 0));
    var found := FindReset([ResetRow(1, 5, 1, false)], 5);
    assert found == Some(0);
  }

  /** A login whose token is hit by a reset, and whose session is saved after it. */
  lemma TornPairIsReachable()
    ensures var save, revoke := Step(2, 7, 1), Step(1, 7, 1);
            var s := Reach(ResetBegun([Begin(Login(1))]) + [save, revoke, revoke, save]);
            && |s.db.tokens| == 1 && !s.db.tokens[0].isActive
            && |s.db.sessions| == 1 && s.db.sessions[0].token == 0 && s.db.sessions[0].status == Active
  {
    var save, revoke := Step(2, 7, 1), Step(1, 7, 1);
    var before := ResetBegun([Begin(Login(1))]);
    ResetPasses(Login(1));
    ExecConcat(Start(), before, [save, revoke, revoke, save]);
    assert seq(4, i => if i == 0 || i == 3 then save else revoke) == [save, revoke, revoke, save];
    OverlapTearsPairExactly(Exec(Start(), before), 2, 1, 1, 7, 1, 0, 3, 1, 2);
  }

  /** A login that crashes between its two saves: a live token without a session. */
  lemma CrashLeavesTokenAlone()
    ensures var s := Reach([Begin(Login(1))] + [Step(0, 7, 1)] + [Crash(0)]);
            s.db.tokens == [TokenRow(1, 7, 1, true)] && s.db.sessions == []
  {
    ExecOne(Start(), Begin(Login(1)));
    ExecLast(Start(), [Begin(Login(1))], Step(0, 7, 1));
    ExecLast(Start(), [Begin(Login(1))] + [Step(0, 7, 1)], Crash(0));
  }

  // ---------- When a reset token is refused ----------

  /**
   In every interleaving, a reset is refused at its lookup if and only if its row is unknown, expired, or consumed by an
   earlier step of the run.
   */
  lemma ResetRefusedExactly(acts: seq<Action>, p: nat, nonce: nat, ttl: int)
    requires p < |Reach(acts).procs| && Reach(acts).procs[p].pc.FindResetRow?
    ensures var s := Reach(acts);
            var found := FindReset(s.db.resets, s.procs[p].pc.hash);
            var pc := Apply(s, Step(p, nonce, ttl)).procs[p].pc;
            if found.None? || s.db.resets[found.value].expiresAt < s.now || Consumed(Start(), acts, found.value)
            then pc == Done(ResetRejected)
            else pc == RevokeTokens(ByUser(s.db.resets[found.value].user), Some(found.value))
  {
    var s := Reach(acts);
    var found := FindReset(s.db.resets, s.procs[p].pc.hash);
    if found.Some? { ConsumedExactly(Start(), acts, found.value); }
  }

  /** A reset that has passed its lookup is not refused any more: it is under way, done, or has crashed. */
  predicate PassedLookup(pc: Pc) {
    || (pc.RevokeTokens? && pc.reset.Some?) || (pc.RevokeTheirSessions? && pc.reset.Some?) || pc.ConsumeReset?
    || pc == Done(ResetDone) || pc == Done(Crashed)
  }

  lemma {:induction false} PassedResetIsNotRefused(s: State, acts: seq<Action>, p: nat)
    requires p < |s.procs| && PassedLookup(s.procs[p].pc)
    ensures p < |Exec(s, acts).procs| && PassedLookup(Exec(s, acts).procs[p].pc)
    decreases |acts|
  {
    if acts != [] {
      assert PassedLookup(Apply(s, acts[0]).procs[p].pc) by { ApplyKeepsPassed(s, acts[0], p); }
      PassedResetIsNotRefused(Apply(s, acts[0]), acts[1..], p);
    }
  }

  lemma ApplyKeepsPassed(s: State, a: Action, p: nat)
    requires p < |s.procs| && PassedLookup(s.procs[p].pc)
    ensures p < |Apply(s, a).procs| && PassedLookup(Apply(s, a).procs[p].pc)
  {
  }

  /** The next stage of a reset that is under way. */
  function NextStage(pc: Pc): Pc
    requires PassedLookup(pc) && !pc.Done?
  {
    match pc
    case RevokeTokens(w, reset) => RevokeTheirSessions(w, reset)
    case RevokeTheirSessions(_, reset) => ConsumeReset(reset.value)
    case ConsumeReset(_) => Done(ResetDone)
  }

  lemma ResetAdvances(s: State, p: nat)
    requires p < |s.procs| && PassedLookup(s.procs[p].pc) && !s.procs[p].pc.Done?
    requires s.procs[p].pc.ConsumeReset? ==> s.procs[p].pc.id < |s.db.resets|
    ensures var s' := Apply(s, Step(p, 0, 0));
            s'.procs == s.procs[p := s.procs[p].(pc := NextStage(s.procs[p].pc))] && |s'.db.resets| == |s.db.resets|
  {
  }

  function ThreeSteps(p: nat): seq<Action> { [Step(p, 0, 0)] + [Step(p, 0, 0)] + [Step(p, 0, 0)] }

  /** Such a reset completes with three more steps, whoever consumed the row meanwhile. */
  lemma PassedResetCompletes(s: State, p: nat)
    requires p < |s.procs| && s.procs[p].pc.RevokeTokens? && s.procs[p].pc.reset.Some?
    requires s.procs[p].pc.reset.value < |s.db.resets|
    ensures var s' := Exec(s, ThreeSteps(p));
            s'.procs == s.procs[p := s.procs[p].(pc := Done(ResetDone))] && |s'.db.resets| == |s.db.resets|
  {
    var step := Step(p, 0, 0);
    ExecOne(s, step);
    ResetAdvances(s, p);
    ExecLast(s, [step], step);
    ResetAdvances(Exec(s, [step]), p);
    ExecLast(s, [step] + [step], step);
    ResetAdvances(Exec(s, [step] + [step]), p);
  }

  /** So one reset token can be used twice, by two requests that both look it up before either consumes it. */
  lemma ResetTokenCanWorkTwice()
    ensures var acts := ResetBegun([Begin(Call.Reset(5))]) + [Step(2, 0, 0)] + ThreeSteps(1) + ThreeSteps(2);
            var s := Reach(acts);
            |s.procs| == 3 && s.procs[1].pc == Done(ResetDone) && s.procs[2].pc == Done(ResetDone)
  {
    var before := ResetBegun([Begin(Call.Reset(5))]);
    ResetPasses(Call.Reset(5));
    ExecLast(Start(), before, Step(2, 0, 0));
    var both := Exec(Start(), before + [Step(2, 0, 0)]);
    assert FindReset([ResetRow(1, 5, 1, false)], 5) == Some(0);
    assert both.procs[2].pc == RevokeTokens(ByUser(1), Some(0));
    ExecConcat(Start(), before + [Step(2, 0, 0)], ThreeSteps(1));
    PassedResetCompletes(both, 1);
    ExecConcat(Start(), before + [Step(2, 0, 0)] + ThreeSteps(1), ThreeSteps(2));
    PassedResetCompletes(Exec(both, ThreeSteps(1)), 2);
  }
}
