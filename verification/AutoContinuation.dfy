/**
 malv-chat-worker-auto-continuation.util.ts: the bounded loop that asks the worker for more text, appends what is new,
 streams the same text, and records why it stopped. The worker is an arbitrary script of answers, attempt by attempt,
 and the abort signal an arbitrary schedule. What the loop does is proved for any judge of texts and metadata; the
 service's own judge is MALV.
 */
module AutoContinuation {
  import opened Wrappers
  import opened Text
  import opened Continuation
  import opened CodeFence

  const MEANINGFUL_MIN := 24

  datatype Answer = Answer(reply: Option<string>, meta: Option<Meta>)

  datatype StopReason =
    | NotTriggered
    | MaxNotReached
    | Aborted
    | Empty
    | NoMeaningfulNewText
    | Completed
    | CompletedAfterWeakAppend
    | BoundedMaxReached

  datatype Snapshot = Snapshot(
    attempt: nat, reason: Option<Continuation.Reason>, candidateChars: nat, appendChars: nat, meaningful: bool,
    weakAppendEligible: bool, incompletePrior: bool)

  /** What is recorded under `meta.malvContinuation`. */
  datatype Record = Record(
    triggered: bool, reason: Option<Continuation.Reason>, count: nat, max: int, meaningful: bool,
    stopReason: StopReason, weakAppendCount: nat, finalReason: Option<Continuation.Reason>, attempts: seq<Snapshot>)

  /** The text functions the loop calls: what is new in a candidate, whether to go on, whether a reply looks cut off. */
  datatype Judge = Judge(
    trim: string -> string,
    newText: (string, string) -> string,
    plan: (Meta, string) -> Option<Continuation.Reason>,
    incomplete: string -> bool,
    endsLine: string -> bool)

  const MALV: Judge := Judge(Trim, NewText, ContinueReason, LooksIncomplete, (s: string) => EndsWith(s, "\n"))

  function Reply(a: Answer): string { a.reply.GetOr("") }

  /** What the loop has accumulated: the reply so far, the pieces streamed, the short appends, the snapshots. */
  datatype Progress = Progress(out: Answer, streamed: seq<string>, weak: nat, snapshots: seq<Snapshot>)

  /** Everything a run depends on. `script(k)` answers attempt `k`; `aborted(k)` is the signal after `k` attempts. */
  datatype Setting = Setting(judge: Judge, initial: Answer, max: int, aborted: nat -> bool, script: nat -> Answer) {

    function Candidate(a: Answer): string { judge.trim(Reply(a)) }

    function Separator(prior: string): string { if judge.endsLine(prior) then "\n" else "\n\n" }

    function NewIn(prior: string, a: Answer): string { judge.newText(prior, Candidate(a)) }

    predicate IsMeaningful(prior: string, a: Answer) { |NewIn(prior, a)| >= MEANINGFUL_MIN }

    /** A short append, let through once when the prior reply looks cut off. */
    predicate IsWeak(prior: string, a: Answer, weakSoFar: nat) {
      && !IsMeaningful(prior, a)
      && judge.trim(NewIn(prior, a)) != ""
      && weakSoFar < 1
      && judge.incomplete(prior)
      && Candidate(a) != ""
    }

    predicate Accepts(prior: string, a: Answer, weakSoFar: nat) {
      Candidate(a) != "" && (IsMeaningful(prior, a) || IsWeak(prior, a, weakSoFar))
    }

    /** The text that an accepted answer adds to the reply and to the stream. */
    function Appendix(prior: string, a: Answer): string { Separator(prior) + NewIn(prior, a) }

    function SnapshotOf(prior: string, a: Answer, attempt: nat, weakSoFar: nat): Snapshot {
      Snapshot(attempt, InitialPlan(), |Candidate(a)|, |NewIn(prior, a)|, IsMeaningful(prior, a),
               IsWeak(prior, a, weakSoFar), judge.incomplete(prior))
    }

    /** One more attempt whose answer is appended. */
    function Grow(p: Progress, attempt: nat): Progress {
      var prior, a := Reply(p.out), script(attempt);
      var more := Appendix(prior, a);
      Progress(
        Answer(Some(prior + more),
               Some(p.out.meta.GetOr(map[]) + a.meta.GetOr(map[]) + map["malvContinuationAppended" := Flag(true)])),
        p.streamed + [more],
        p.weak + (if IsMeaningful(prior, a) then 0 else 1),
        p.snapshots + [SnapshotOf(prior, a, attempt, p.weak)])
    }

    /** The progress after the first `n` answers have been appended. */
    function After(n: nat): (p: Progress)
      ensures |p.streamed| == |p.snapshots| == n && p.weak <= n
    {
      if n == 0 then Progress(initial, [], 0, []) else Grow(After(n - 1), n)
    }

    /**
     The progress after `n` appends and `count` attempts; an attempt that was turned down leaves its snapshot only.
     */
    function Reached(n: nat, count: nat): Progress {
      var p := After(n);
      if count <= n then p else p.(snapshots := p.snapshots + [SnapshotOf(Reply(p.out), script(count), count, p.weak)])
    }

    function Grown(n: nat): string { Reply(After(n).out) }

    function InitialPlan(): Option<Continuation.Reason> { judge.plan(initial.meta.GetOr(map[]), Reply(initial)) }

    /** Attempt `k` is made, and its answer is appended. */
    predicate Appended(k: nat)
      requires k > 0
    {
      !aborted(k - 1) && Accepts(Grown(k - 1), script(k), After(k - 1).weak)
    }

    /** After attempt `k` the worker's own metadata still asks for more. */
    predicate WantsMore(k: nat)
      requires k > 0
    {
      judge.plan(script(k).meta.GetOr(map[]), Grown(k)).Some?
    }

    ghost predicate AllAppended(n: nat) { forall k :: 0 < k <= n ==> Appended(k) }

    ghost predicate AllWantMore(n: nat) { forall k :: 0 < k < n ==> WantsMore(k) }

    /** More is wanted after `n` appended answers: by the initial plan, or by the last answer's metadata. */
    predicate GoesOn(n: nat) { n > 0 ==> WantsMore(n) }

    /** What happened after `n` appended answers to make a triggered run stop for the reason `stop`. */
    predicate StopsFor(n: nat, stop: StopReason) {
      match stop
      case NotTriggered => false
      case MaxNotReached => false
      case Aborted => n < max && GoesOn(n) && aborted(n)
      case Empty => n < max && GoesOn(n) && !aborted(n) && Candidate(script(n + 1)) == ""
      case NoMeaningfulNewText =>
        && n < max && GoesOn(n) && !aborted(n)
        && Candidate(script(n + 1)) != "" && !Accepts(Grown(n), script(n + 1), After(n).weak)
      case Completed => n > 0 && !WantsMore(n) && IsMeaningful(Grown(n - 1), script(n))
      case CompletedAfterWeakAppend => n > 0 && !WantsMore(n) && !IsMeaningful(Grown(n - 1), script(n))
      case BoundedMaxReached => n == max && GoesOn(n)
    }

    /**
     A run that appended `n` answers and stopped for the reason `stop`: all `n` were acceptable, each but the last asked
     for more, and the reason is what happened next.
     */
    ghost predicate IsRun(n: nat, stop: StopReason) {
      && AllAppended(n)
      && AllWantMore(n)
      && if InitialPlan().None? || max <= 0 then n == 0 && stop == NotTriggered else n <= max && StopsFor(n, stop)
    }

    lemma OneMore(n: nat)
      requires AllAppended(n) && Appended(n + 1)
      ensures AllAppended(n + 1)
    {
    }

    lemma OneMoreWanted(n: nat)
      requires AllWantMore(n) && (n > 0 ==> WantsMore(n))
      ensures AllWantMore(n + 1) && GoesOn(n)
    {
    }

    predicate Ends(n: nat, stop: StopReason, count: nat, p: Progress) {
      count == Attempts(n, stop) && |p.streamed| == n && p == Reached(n, count)
    }

    lemma Stopped(n: nat, stop: StopReason, count: nat, p: Progress)
      requires AllAppended(n) && AllWantMore(n) && InitialPlan().Some? && 0 < max && n <= max && StopsFor(n, stop)
      requires count == Attempts(n, stop) && p == Reached(n, count)
      ensures IsRun(|p.streamed|, stop) && Ends(|p.streamed|, stop, count, p)
    {
    }

    /** A stopped run cannot have gone on. */
    lemma StopIsFinal(n: nat, stop: StopReason)
      requires StopsFor(n, stop) && n < max && Appended(n + 1)
      ensures !GoesOn(n)
    {
    }

    lemma StopIsDetermined(n: nat, stop: StopReason, stop': StopReason)
      requires StopsFor(n, stop) && StopsFor(n, stop')
      ensures stop == stop'
    {
    }

    /** The script, the abort schedule and the bound leave no choice: there is at most one run. */
    lemma RunIsUnique(n: nat, stop: StopReason, n': nat, stop': StopReason)
      requires IsRun(n, stop) && IsRun(n', stop')
      ensures n == n' && stop == stop'
    {
      if InitialPlan().Some? && max > 0 {
        if n < n' { StopIsFinal(n, stop); }
        if n' < n { StopIsFinal(n', stop'); }
        StopIsDetermined(n, stop, stop');
      }
    }

    /** An append goes to the reply and to the stream alike. */
    lemma Grows(n: nat)
      requires n > 0
      ensures var more := Appendix(Grown(n - 1), script(n));
              Grown(n) == Grown(n - 1) + more && After(n).streamed == After(n - 1).streamed + [more]
    {
    }

    /** The final reply is the initial one followed by exactly what was streamed. */
    lemma {:induction false} ReplyIsInitialPlusStream(n: nat)
      ensures Grown(n) == Reply(initial) + Concat(After(n).streamed)
    {
      if n > 0 {
        ReplyIsInitialPlusStream(n - 1);
        Grows(n);
        GoesOnWith(Reply(initial), After(n - 1).streamed, Grown(n - 1), Appendix(Grown(n - 1), script(n)));
      }
    }

    /** What answer `k` adds is not a short append. */
    predicate AddsEnough(k: nat)
      requires k > 0
    {
      |NewIn(Grown(k - 1), script(k))| >= 24
    }

    lemma WeakGrows(n: nat)
      requires n > 0
      ensures After(n).weak == After(n - 1).weak + if AddsEnough(n) then 0 else 1
    {
    }

    lemma {:induction false} NoWeakExactly(n: nat)
      ensures After(n).weak == 0 <==> forall k :: 0 < k <= n ==> AddsEnough(k)
    {
      if n == 0 {
        assert After(0).weak == 0;
      } else {
        NoWeakExactly(n - 1);
        WeakGrows(n);
      }
    }

    lemma AppendedExactly(n: nat)
      ensures var added := NewIn(Grown(n), script(n + 1));
              Appended(n + 1) <==>
                && !aborted(n) && Candidate(script(n + 1)) != ""
                && (|| |added| >= 24
                    || (judge.trim(added) != "" && judge.incomplete(Grown(n))
                        && forall k :: 0 < k <= n ==> AddsEnough(k)))
    {
      NoWeakExactly(n);
    }

    predicate BringsText(k: nat)
      requires k > 0
    {
      |NewIn(Grown(k - 1), script(k))| >= MEANINGFUL_MIN || judge.trim(NewIn(Grown(k - 1), script(k))) != ""
    }

    /** At most one append is short, and every streamed piece brings new text. */
    lemma {:induction false} AtMostOneWeakAppend(n: nat)
      requires AllAppended(n)
      ensures After(n).weak <= 1
      ensures forall k :: 0 < k <= n ==> BringsText(k)
    {
      if n > 0 {
        AtMostOneWeakAppend(n - 1);
        assert Appended(n);
      }
    }

    /** Attempts are bounded, no run ends as "max not reached", and it is untriggered if nothing could be asked. */
    lemma RunIsBounded(n: nat, stop: StopReason)
      requires IsRun(n, stop)
      ensures stop != MaxNotReached
      ensures stop == NotTriggered <==> InitialPlan().None? || max <= 0
      ensures Attempts(n, stop) <= (if max > 0 then max else 0)
    {
    }

    /** Whether an odd number of the parts of the reply pass a test, such as leaving a code fence open. */
    predicate OddParts(test: string -> bool, n: nat) {
      if n == 0 then test(Reply(initial)) else OddParts(test, n - 1) != test(NewIn(Grown(n - 1), script(n)))
    }

    lemma {:induction false} OddPartsOfGrown(test: string -> bool, n: nat)
      requires forall prior, append :: test(prior + (Separator(prior) + append)) <==> test(prior) != test(append)
      ensures test(Grown(n)) <==> OddParts(test, n)
    {
      if n > 0 { OddPartsOfGrown(test, n - 1); }
    }

    /** The reply ends inside a code block exactly when an odd number of its parts, taken alone, do. */
    lemma FinalReplyFences(n: nat)
      ensures HasOpenFence(Grown(n)) <==> OddParts(HasOpenFence, n)
    {
      forall prior, append
        ensures HasOpenFence(prior + (Separator(prior) + append)) <==> HasOpenFence(prior) != HasOpenFence(append)
      {
        FenceAfterAppendix(prior, Separator(prior), append);
      }
      OddPartsOfGrown(HasOpenFence, n);
    }
  }

  lemma GoesOnWith(first: string, parts: seq<string>, reply: string, more: string)
    requires reply == first + Concat(parts)
    ensures reply + more == first + Concat(parts + [more])
  {
    ConcatLast(first, parts, more);
  }

  lemma FenceAfterAppendix(prior: string, separator: string, append: string)
    requires separator == "\n" || separator == "\n\n"
    ensures HasOpenFence(prior + (separator + append)) <==> HasOpenFence(prior) != HasOpenFence(append)
  {
    OpenFenceAfterAppend(prior, separator, append);
    assert prior + separator + append == prior + (separator + append);
  }

  // ---------- The service's own judge ----------

  /** An appended answer brings new text, and under MALV that text is a trimmed suffix of the trimmed answer. */
  lemma MalvAppendsSuffix(s: Setting, k: nat)
    requires s.judge == MALV && k > 0 && s.Appended(k)
    ensures var answer, added := Trim(Reply(s.script(k))), s.NewIn(s.Grown(k - 1), s.script(k));
            added != "" && Trimmed(added) && exists i :: 0 <= i < |answer| && added == answer[i..]
  {
    TrimIdempotent(Reply(s.script(k)));
    var answer, added := Trim(Reply(s.script(k))), s.NewIn(s.Grown(k - 1), s.script(k));
    assert added != "" by { assert |added| >= MEANINGFUL_MIN || Trim(added) != ""; }
    SuffixOfAnswer(s.Grown(k - 1), answer);
  }

  lemma SuffixOfAnswer(prior: string, answer: string)
    requires Trim(answer) == answer
    ensures var added := NewText(prior, answer);
            Trimmed(added) && (added != "" ==> exists i :: 0 <= i < |answer| && added == answer[i..])
  {
    var gap := NewTextIsTheRest(prior, answer);
    var i :| 0 <= i <= |answer| && NewText(prior, answer) == answer[i..];
    assert i == |answer| ==> answer[i..] == "";
  }

  /** What answer `k` would add to the reply before it. */
  function Added(s: Setting, k: nat): string
    requires k > 0
  {
    NewText(s.Grown(k - 1), Trim(Reply(s.script(k))))
  }

  lemma MalvAdds(s: Setting, k: nat)
    requires s.judge == MALV && k > 0
    ensures s.NewIn(s.Grown(k - 1), s.script(k)) == Added(s, k)
    ensures s.judge.trim(Added(s, k)) == Added(s, k)
    ensures s.Candidate(s.script(k)) == "" ==> Added(s, k) == ""
  {
    var prior, answer := s.Grown(k - 1), Trim(Reply(s.script(k)));
    TrimIdempotent(Reply(s.script(k)));
    SuffixOfAnswer(prior, answer);
    TrimOfTrimmed(NewText(prior, answer));
  }

  lemma MalvSeparates(s: Setting, prior: string)
    requires s.judge == MALV
    ensures s.Separator(prior) == if prior != "" && prior[|prior| - 1] == '\n' then "\n" else "\n\n"
    ensures s.judge.incomplete(prior) == LooksIncomplete(prior)
  {
    LineEnds(prior);
  }

  /**
   Under MALV an answer is appended if and only if the run was not aborted and what is new in it has 24 characters, or
   any at all, if all answers before it had 24 and the reply looks cut off. It goes on a new line if the reply ends a
   line, and otherwise after an empty one.
   */
  lemma MalvAppendsExactly(s: Setting, n: nat)
    requires s.judge == MALV && s.AllAppended(n)
    ensures s.Appended(n + 1) <==>
              && !s.aborted(n)
              && (|| |Added(s, n + 1)| >= 24
                  || (Added(s, n + 1) != "" && LooksIncomplete(s.Grown(n))
                      && forall k :: 0 < k <= n ==> |Added(s, k)| >= 24))
    ensures var prior := s.Grown(n);
            s.Grown(n + 1) ==
              prior + ((if prior != "" && prior[|prior| - 1] == '\n' then "\n" else "\n\n") + Added(s, n + 1))
  {
    forall k | 0 < k <= n ensures s.AddsEnough(k) <==> |Added(s, k)| >= 24 { MalvAdds(s, k); }
    MalvAdds(s, n + 1);
    MalvSeparates(s, s.Grown(n));
    s.AppendedExactly(n);
    s.Grows(n + 1);
  }

  lemma LineEnds(prior: string)
    ensures EndsWith(prior, "\n") <==> prior != "" && prior[|prior| - 1] == '\n'
  {
    if prior != "" { assert prior[|prior| - 1..] == [prior[|prior| - 1]]; }
  }

  /** Answer `k`, taken alone, asks for more: by its metadata, or because what it added trails off. */
  predicate AsksAlone(s: Setting, k: nat)
    requires k > 0
  {
    ContinueReason(s.script(k).meta.GetOr(map[]), s.NewIn(s.Grown(k - 1), s.script(k))).Some?
  }

  /** Under MALV that alone decides whether the loop goes on after an append, whatever the reply held before. */
  lemma MalvGoesOnByLastAnswer(s: Setting, k: nat)
    requires s.judge == MALV && k > 0 && s.Appended(k)
    ensures s.WantsMore(k) <==> AsksAlone(s, k)
  {
    var prior := s.Grown(k - 1);
    MalvAppendsSuffix(s, k);
    s.Grows(k);
    PlanAfterAppend(s.script(k).meta.GetOr(map[]), prior, s.Separator(prior), s.NewIn(prior, s.script(k)));
  }

  /** Under MALV a run goes on exactly as long as each answer, taken alone, asks for more. */
  lemma MalvRunGoesOn(s: Setting, n: nat, stop: StopReason)
    requires s.judge == MALV && s.IsRun(n, stop)
    ensures forall k :: 0 < k < n ==> AsksAlone(s, k)
    ensures stop == Completed || stop == CompletedAfterWeakAppend <==> n > 0 && !AsksAlone(s, n)
  {
    forall k | 0 < k <= n ensures s.WantsMore(k) <==> AsksAlone(s, k) {
      assert s.Appended(k);
      MalvGoesOnByLastAnswer(s, k);
    }
    forall k | 0 < k < n ensures AsksAlone(s, k) { assert s.WantsMore(k); }
  }

  lemma DanglingAfterAppendix(s: Setting, k: nat)
    requires k > 0 && HasDanglingListMarker(s.Grown(k - 1))
    ensures HasDanglingListMarker(s.Grown(k))
  {
    s.Grows(k);
    var prior := s.Grown(k - 1);
    DanglingStays(prior, s.Separator(prior), s.NewIn(prior, s.script(k)));
  }

  lemma {:induction false} DanglingInGrown(s: Setting, n: nat)
    requires HasDanglingListMarker(Reply(s.initial))
    ensures HasDanglingListMarker(s.Grown(n))
  {
    if n > 0 {
      DanglingInGrown(s, n - 1);
      DanglingAfterAppendix(s, n);
    }
  }

  /** Under MALV a list marker left alone on a line of the first reply keeps every later reply looking cut off. */
  lemma MalvDanglingStays(s: Setting, n: nat)
    requires s.judge == MALV && s.AllAppended(n) && HasDanglingListMarker(Reply(s.initial))
    ensures HasDanglingListMarker(s.Grown(n)) && s.judge.incomplete(s.Grown(n))
  {
    DanglingInGrown(s, n);
    DanglingIsVisible(s.Grown(n));
  }

  /** The number of attempts of a run: one more than the appends when the last answer was turned down. */
  function Attempts(n: nat, stop: StopReason): nat { if stop.Empty? || stop.NoMeaningfulNewText? then n + 1 else n }

  // ---------- The loop ----------

  /** One pass of the loop body, from the worker's answer to the appended and streamed text. */
  method Attempt(s: Setting, initialPlan: Option<Continuation.Reason>, p: Progress, attempt: nat)
    returns (p': Progress, meaningful: bool, rejected: Option<StopReason>)
    requires initialPlan == s.InitialPlan()
    ensures var prior, a := Reply(p.out), s.script(attempt);
            && meaningful == s.IsMeaningful(prior, a)
            && (rejected.None? <==> s.Accepts(prior, a, p.weak))
            && (rejected.None? ==> p' == s.Grow(p, attempt) && p'.weak == p.weak + if meaningful then 0 else 1)
            && (rejected.Some? ==> p' == p.(snapshots := p.snapshots + [s.SnapshotOf(prior, a, attempt, p.weak)]))
            && (rejected.Some? ==> rejected.value == if s.Candidate(a) == "" then Empty else NoMeaningfulNewText)
  {
    var out, streamed, weakAppendCount := p.out, p.streamed, p.weak;
    var continuationRes := s.script(attempt);
    var candidate := s.judge.trim(Reply(continuationRes));
    var priorReply := Reply(out);
    var append := s.judge.newText(priorReply, candidate);
    meaningful := |append| >= MEANINGFUL_MIN;
    var hasAppend := |s.judge.trim(append)| > 0;
    var incomplete := s.judge.incomplete(priorReply);
    var weakAppendEligible := !meaningful && hasAppend && weakAppendCount < 1 && incomplete && |candidate| > 0;
    var snapshots := p.snapshots
      + [Snapshot(attempt, initialPlan, |candidate|, |append|, meaningful, weakAppendEligible, incomplete)];
    if |candidate| == 0 {
      return Progress(out, streamed, weakAppendCount, snapshots), meaningful, Some(Empty);
    }
    if !meaningful && !weakAppendEligible {
      return Progress(out, streamed, weakAppendCount, snapshots), meaningful, Some(NoMeaningfulNewText);
    }
    if weakAppendEligible { weakAppendCount := weakAppendCount + 1; }
    var separator := if s.judge.endsLine(priorReply) then "\n" else "\n\n";
    out := Answer(Some(priorReply + (separator + append)),
                  Some(out.meta.GetOr(map[]) + continuationRes.meta.GetOr(map[])
                    + map["malvContinuationAppended" := Flag(true)]));
    streamed := streamed + [separator + append];
    return Progress(out, streamed, weakAppendCount, snapshots), meaningful, None;
  }

  method Loop(s: Setting, initialPlan: Option<Continuation.Reason>)
    returns (p: Progress, count: nat, stopReason: StopReason, anyMeaningful: bool)
    requires initialPlan == s.InitialPlan()
    ensures var n := |p.streamed|;
            && s.IsRun(n, stopReason)
            && s.Ends(n, stopReason, count, p)
            && (anyMeaningful <==> p.weak < n)
  {
    count, stopReason, anyMeaningful := 0, NotTriggered, false;
    p := Progress(s.initial, [], 0, []);
    if initialPlan.Some? && s.max > 0 {
      stopReason := MaxNotReached;
    }
    while initialPlan.Some? && count < s.max
      invariant stopReason == (if initialPlan.Some? && s.max > 0 then MaxNotReached else NotTriggered)
      invariant count > 0 ==> initialPlan.Some? && count < s.max
      invariant s.AllAppended(count) && s.AllWantMore(count) && s.GoesOn(count)
      invariant p == s.After(count)
      invariant anyMeaningful <==> p.weak < count
      decreases s.max - count
    {
      ghost var n := count;
      if s.aborted(count) {
        stopReason := Aborted;
        s.Stopped(n, stopReason, count, p);
        break;
      }
      count := count + 1;
      var meaningful, rejected;
      p, meaningful, rejected := Attempt(s, initialPlan, p, count);
      if rejected.Some? {
        stopReason := rejected.value;
        s.Stopped(n, stopReason, count, p);
        break;
      }
      s.OneMore(n);
      s.OneMoreWanted(n);
      if meaningful { anyMeaningful := true; }
      var end := AfterAppend(s, Reply(p.out), count, meaningful);
      if end.Some? {
        stopReason := end.value;
        s.Stopped(count, stopReason, count, p);
        break;
      }
    }
  }

  /** The end of the loop body: whether the loop breaks after an append, and why. */
  method AfterAppend(s: Setting, reply: string, count: nat, meaningful: bool) returns (end: Option<StopReason>)
    requires 0 < count <= s.max && reply == s.Grown(count)
    requires meaningful == s.IsMeaningful(s.Grown(count - 1), s.script(count))
    ensures end.Some? ==> s.StopsFor(count, end.value) && Attempts(count, end.value) == count
    ensures end.None? ==> s.WantsMore(count) && count < s.max
  {
    var nextPlan := s.judge.plan(s.script(count).meta.GetOr(map[]), reply);
    if nextPlan.None? { return Some(if meaningful then Completed else CompletedAfterWeakAppend); }
    if count >= s.max { return Some(BoundedMaxReached); }
    return None;
  }

  /** runMalvChatWorkerAutoContinuation: the resulting answer, the pieces streamed in order, and the record kept. */
  method RunAutoContinuation(s: Setting) returns (out: Answer, streamed: seq<string>, record: Record)
    ensures var n := |streamed|;
            && s.IsRun(n, record.stopReason)
            && Progress(out, streamed, record.weakAppendCount, record.attempts) == s.Reached(n, record.count)
            && Reply(out) == Reply(s.initial) + Concat(streamed)
            && record.count == Attempts(n, record.stopReason) <= (if s.max > 0 then s.max else 0)
            && record.weakAppendCount <= 1
            && (record.meaningful <==> record.weakAppendCount < n)
    ensures record.stopReason != MaxNotReached
    ensures record.triggered <==> s.InitialPlan().Some?
    ensures record.reason == s.InitialPlan() && record.finalReason == s.judge.plan(out.meta.GetOr(map[]), Reply(out))
    ensures record.max == s.max
  {
    var initialPlan := s.judge.plan(s.initial.meta.GetOr(map[]), Reply(s.initial));
    var p, count, stopReason, meaningful := Loop(s, initialPlan);
    out, streamed := p.out, p.streamed;
    s.RunIsBounded(|streamed|, stopReason);
    s.ReplyIsInitialPlusStream(|streamed|);
    s.AtMostOneWeakAppend(|streamed|);
    if initialPlan.Some? && stopReason == MaxNotReached {
      stopReason := Completed;
    }
    var finalPlan := s.judge.plan(out.meta.GetOr(map[]), Reply(out));
    record := Record(
      initialPlan.Some?, initialPlan, count, s.max, meaningful, stopReason, p.weak, finalPlan, p.snapshots);
  }
}
