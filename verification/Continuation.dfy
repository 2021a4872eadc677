/** malv-continuation.util.ts: when to ask for more text, and what of the answer is new. */
module Continuation {
  import opened Wrappers
  import opened Spacing
  import opened Text
  import CodeFence

  // ---------- Reading the worker's metadata ----------

  datatype MetaValue = Str(text: string) | Flag(on: bool) | Null | Other

  type Meta = map<string, MetaValue>

  datatype Reason = Length | PartialDone | Truncated | StreamPartial | NonStopFinishReason

  function NormalizeReason(v: MetaValue): Option<string> {
    if v.Str? && Trim(v.text) != "" then Some(Lower(Trim(v.text))) else None
  }

  function Get(meta: Meta, key: string): MetaValue { if key in meta then meta[key] else Null }

  /** The `??` chain over the four places a finish reason may be in. */
  function FinishValue(meta: Meta): MetaValue {
    var a := Get(meta, "malvLastFinishReason");
    if a != Null then a else
    var b := Get(meta, "finishReason");
    if b != Null then b else
    var c := Get(meta, "finish_reason");
    if c != Null then c else Get(meta, "stopReason")
  }

  predicate IsTruncatedFinish(r: string) {
    r == "length" || r == "max_tokens" || r == "max_output_tokens" || r == "token_limit" || r == "context_length"
  }

  predicate IsCompleteFinish(r: string) {
    || r == "stop" || r == "completed" || r == "complete" || r == "done" || r == "success" || r == "eos"
    || r == "end_turn"
  }

  /** detectMalvContinuationPlan: `canContinue` is that there is a reason. */
  function ContinueReason(meta: Meta, reply: string): Option<Reason> {
    var finish := NormalizeReason(FinishValue(meta));
    if NormalizeReason(Get(meta, "malvTurnOutcome")) == Some("partial_done") then Some(PartialDone)
    else if NormalizeReason(Get(meta, "malvLocalInferenceExecutionMode")) == Some("stream_partial")
      then Some(StreamPartial)
    else if Get(meta, "malvTruncated") == Flag(true) || Get(meta, "truncated") == Flag(true) then Some(Truncated)
    else if finish.Some? && IsTruncatedFinish(finish.value) then Some(Length)
    else if finish.Some? && !IsCompleteFinish(finish.value) then Some(NonStopFinishReason)
    else if CodeFence.EndsWithEllipsis(Trim(reply)) then Some(Truncated)
    else None
  }

  /** The metadata value under this key, if it is a string, is the word: up to letter case and outer white space. */
  predicate Says(meta: Meta, key: string, word: string) {
    key in meta && meta[key].Str? && word != "" && Lower(Trim(meta[key].text)) == word
  }

  /** The finish reason is under the first of the four keys that is there and not null. */
  predicate FinishUnder(meta: Meta, key: string) {
    && key in meta && meta[key] != Null
    && (key == "malvLastFinishReason" || Absent(meta, "malvLastFinishReason"))
    && (key == "malvLastFinishReason" || key == "finishReason" || Absent(meta, "finishReason"))
    && (key == "stopReason" ==> Absent(meta, "finish_reason"))
    && key in {"malvLastFinishReason", "finishReason", "finish_reason", "stopReason"}
  }

  predicate Absent(meta: Meta, key: string) { key !in meta || meta[key] == Null }

  lemma NormalizeReasonSays(v: MetaValue, word: string)
    requires word != ""
    ensures NormalizeReason(v) == Some(word) <==> v.Str? && Lower(Trim(v.text)) == word
  {
    if v.Str? { assert |Lower(Trim(v.text))| == |Trim(v.text)|; }
  }

  lemma FinishValueExactly(meta: Meta, key: string)
    requires FinishUnder(meta, key)
    ensures FinishValue(meta) == meta[key]
  {
  }

  /** A reply that was flagged as partial or cut off is continued, whatever else the metadata says. */
  lemma FlaggedAsksForMore(meta: Meta, reply: string)
    requires !Unflagged(meta)
    ensures ContinueReason(meta, reply) == Some(
              if Says(meta, "malvTurnOutcome", "partial_done") then PartialDone
              else if Says(meta, "malvLocalInferenceExecutionMode", "stream_partial") then StreamPartial
              else Truncated)
  {
    NormalizeReasonSays(Get(meta, "malvTurnOutcome"), "partial_done");
    NormalizeReasonSays(Get(meta, "malvLocalInferenceExecutionMode"), "stream_partial");
  }

  /** No flag in the metadata: neither an outcome, nor a streaming mode, nor a truncation. */
  predicate Unflagged(meta: Meta) {
    && !Says(meta, "malvTurnOutcome", "partial_done")
    && !Says(meta, "malvLocalInferenceExecutionMode", "stream_partial")
    && Get(meta, "malvTruncated") != Flag(true) && Get(meta, "truncated") != Flag(true)
  }

  const CUT_WORDS := {"length", "max_tokens", "max_output_tokens", "token_limit", "context_length"}

  const DONE_WORDS := {"stop", "completed", "complete", "done", "success", "eos", "end_turn"}

  lemma FinishWords(r: string)
    ensures IsTruncatedFinish(r) <==> r in CUT_WORDS
    ensures IsCompleteFinish(r) <==> r in DONE_WORDS
    ensures r in CUT_WORDS ==> r !in DONE_WORDS
  {
  }

  /** Otherwise the finish reason decides: cut off, or any other word that does not mean completion. */
  lemma FinishReasonDecides(meta: Meta, reply: string, key: string, word: string)
    requires Unflagged(meta) && FinishUnder(meta, key) && Says(meta, key, word)
    ensures word in CUT_WORDS ==> ContinueReason(meta, reply) == Some(Length)
    ensures word !in CUT_WORDS && word !in DONE_WORDS ==> ContinueReason(meta, reply) == Some(NonStopFinishReason)
    ensures word in DONE_WORDS ==>
              ContinueReason(meta, reply)
              == if CodeFence.EndsWithEllipsis(Trim(reply)) then Some(Truncated) else None
  {
    FinishValueExactly(meta, key);
    FinishWords(word);
    NormalizeReasonSays(meta[key], word);
    NormalizeReasonSays(Get(meta, "malvTurnOutcome"), "partial_done");
    NormalizeReasonSays(Get(meta, "malvLocalInferenceExecutionMode"), "stream_partial");
  }

  /** Without a finish reason, or with one that is not a word, only a trailing ellipsis asks for more. */
  lemma NoFinishReason(meta: Meta, reply: string)
    requires Unflagged(meta)
    requires NormalizeReason(FinishValue(meta)).None?
    ensures ContinueReason(meta, reply) == if CodeFence.EndsWithEllipsis(Trim(reply)) then Some(Truncated) else None
  {
    NormalizeReasonSays(Get(meta, "malvTurnOutcome"), "partial_done");
    NormalizeReasonSays(Get(meta, "malvLocalInferenceExecutionMode"), "stream_partial");
  }

  /** Whether metadata and reply ask for more depends only on what follows the last line break of the reply. */
  lemma PlanAfterBreak(meta: Meta, x: string, added: string)
    requires x != "" && x[|x| - 1] == '\n' && added != "" && Trimmed(added)
    ensures ContinueReason(meta, x + added) == ContinueReason(meta, added)
  {
    TrimOfTrimmed(added);
    var k := TrimKeepsTail(x, added);
    TrailingTail(x, k, added);
  }

  lemma TrailingTail(x: string, k: nat, added: string)
    requires x != "" && x[|x| - 1] == '\n' && k <= |x|
    ensures CodeFence.EndsWithEllipsis(x[k..] + added) <==> CodeFence.EndsWithEllipsis(added)
  {
    if k < |x| {
      CodeFence.EllipsisAfterBreak(x[k..], added);
    } else {
      assert x[k..] + added == added;
    }
  }

  lemma PlanAfterAppend(meta: Meta, prior: string, separator: string, added: string)
    requires (separator == "\n" || separator == "\n\n") && added != "" && Trimmed(added)
    ensures ContinueReason(meta, prior + (separator + added)) == ContinueReason(meta, added)
  {
    var x := prior + separator;
    assert x[|x| - 1] == separator[|separator| - 1];
    assert prior + (separator + added) == x + added;
    PlanAfterBreak(meta, x, added);
  }

  // ---------- The new part of an answer ----------

  const MIN_OVERLAP := 24
  const MAX_OVERLAP := 240
  const RESTART_PROBE := 160

  function Min(a: nat, b: nat): nat { if a < b then a else b }

  function Window(p: string, c: string): nat { Min(MAX_OVERLAP, Min(|p|, |c|)) }

  /** The last `n` characters of `p` are the first `n` of `c`, up to case. */
  predicate Overlaps(p: string, c: string, n: nat)
    requires n <= |p| && n <= |c|
  {
    Lower(p[|p| - n..]) == Lower(c[..n])
  }

  /** The longest overlap of at least 24 and at most `n` characters, or 0. */
  function LongestOverlap(p: string, c: string, n: nat): (r: nat)
    requires n <= |p| && n <= |c|
    ensures r == 0 || (24 <= r <= n && Overlaps(p, c, r))
    ensures forall k :: 24 <= k <= n && r < k ==> !Overlaps(p, c, k)
  {
    if n < MIN_OVERLAP then 0
    else if Overlaps(p, c, n) then n
    else LongestOverlap(p, c, n - 1)
  }

  /** The candidate holds the beginning of the prior text again, up to case and spacing. */
  predicate StartsOver(p: string, c: string) {
    var prior := CollapseSpaces(Lower(p));
    Contains(CollapseSpaces(Lower(c)), prior[..Min(|prior|, RESTART_PROBE)])
  }

  function NewText(prior: string, candidate: string): string {
    var p, c := Trim(prior), Trim(candidate);
    if c == "" then ""
    else if p == "" then c
    else if c == p then ""
    else if StartsWith(c, p) then Trim(c[|p|..])
    else
      var n := LongestOverlap(p, c, Window(p, c));
      if n > 0 then Trim(c[n..])
      else if StartsOver(p, c) then ""
      else c
  }

  method ExtractMeaningfulContinuationAppend(prior0: string, candidate0: string) returns (r: string)
    ensures r == NewText(prior0, candidate0)
  {
    var prior, candidate := Trim(prior0), Trim(candidate0);
    if candidate == "" { return ""; }
    if prior == "" { return candidate; }
    if candidate == prior { return ""; }
    if StartsWith(candidate, prior) { return Trim(candidate[|prior|..]); }
    var overlapWindow := Window(prior, candidate);
    var n := overlapWindow;
    while n >= MIN_OVERLAP
      invariant 0 <= n <= overlapWindow
      invariant LongestOverlap(prior, candidate, overlapWindow) == LongestOverlap(prior, candidate, n)
    {
      var suffix := Lower(prior[|prior| - n..]);
      var prefix := Lower(candidate[..n]);
      if suffix == prefix { return Trim(candidate[n..]); }
      n := n - 1;
    }
    var priorNorm := CollapseSpaces(Lower(prior));
    var candNorm := CollapseSpaces(Lower(candidate));
    if Contains(candNorm, priorNorm[..Min(|priorNorm|, RESTART_PROBE)]) { return ""; }
    return candidate;
  }

  /** How much of the trimmed candidate is recognised as already written. */
  function Recognised(p: string, c: string): nat {
    if p == "" || c == "" then 0
    else if StartsWith(c, p) then |p|
    else LongestOverlap(p, c, Window(p, c))
  }

  lemma NewTextByRecognition(prior: string, candidate: string)
    ensures var p, c := Trim(prior), Trim(candidate);
            var n := Recognised(p, c);
            NewText(prior, candidate) ==
              if n > 0 then Trim(c[n..]) else if p != "" && c != "" && StartsOver(p, c) then "" else c
  {
    var p, c := Trim(prior), Trim(candidate);
    if c != "" && c == p { assert c[|p|..] == "" && StartsWith(c, p); }
  }

  /**
   What is appended is a trimmed suffix of the trimmed candidate. If part of the candidate is recognised, nothing
   but that part and the white space after it is dropped; otherwise the whole candidate is kept, or nothing of it
   when it starts over.
   */
  lemma NewTextIsTheRest(prior: string, candidate: string) returns (gap: string)
    ensures var p, c := Trim(prior), Trim(candidate);
            var n := Recognised(p, c);
            && n <= |c| && AllSpace(gap) && Trimmed(NewText(prior, candidate))
            && (n > 0 ==> c == c[..n] + gap + NewText(prior, candidate))
            && (n > 0 && !StartsWith(c, p) ==>
                  24 <= n <= 240 && n <= |p| && Overlaps(p, c, n)
                  && forall k :: n < k <= 240 && k <= |p| && k <= |c| ==> !Overlaps(p, c, k))
            && (n == 0 ==> NewText(prior, candidate) == if p != "" && c != "" && StartsOver(p, c) then "" else c)
    ensures exists k :: 0 <= k <= |Trim(candidate)| && NewText(prior, candidate) == Trim(candidate)[k..]
  {
    var c := Trim(candidate);
    TrimIdempotent(candidate);
    NewTextByRecognition(prior, candidate);
    gap := RestAfter(c, Recognised(Trim(prior), c));
    assert c[0..] == c && c[|c|..] == "";
  }

  lemma RestAfter(c: string, n: nat) returns (gap: string)
    requires Trimmed(c) && n <= |c|
    ensures AllSpace(gap) && Trimmed(Trim(c[n..])) && c == c[..n] + gap + Trim(c[n..])
    ensures n + |gap| <= |c| && Trim(c[n..]) == c[n + |gap|..]
  {
    var rest := c[n..];
    assert rest != "" ==> rest[|rest| - 1] == c[|c| - 1];
    gap := TrimFront(rest);
    assert c == c[..n] + rest;
  }

  /** Only the front of a text that ends visibly can lose white space to trimming. */
  lemma {:induction false} TrimFront(t: string) returns (gap: string)
    requires t == "" || !IsSpace(t[|t| - 1])
    ensures t == gap + Trim(t) && AllSpace(gap) && Trimmed(Trim(t))
    decreases |t|
  {
    gap := "";
    if t != "" && IsSpace(t[0]) {
      gap := TrimFront(t[1..]);
      gap := [t[0]] + gap;
    } else {
      TrimOfTrimmed(t);
    }
  }

  /** A candidate that carries on from the whole prior text contributes exactly what it adds. */
  lemma ExtendingCandidate(prior: string, addition: string)
    requires Trim(prior) != "" && Trimmed(Trim(prior) + addition)
    ensures NewText(prior, Trim(prior) + addition) == Trim(addition)
  {
    var p := Trim(prior);
    var c := p + addition;
    TrimOfTrimmed(c);
    assert c[..|p|] == p && c[|p|..] == addition;
    if c == p { assert addition == ""; }
  }

  lemma RepeatedOverlap(p: string, n: nat, addition: string)
    requires n <= |p|
    ensures var c := p[|p| - n..] + addition; Overlaps(p, c, n) && c[n..] == addition
  {
    assert (p[|p| - n..] + addition)[..n] == p[|p| - n..];
  }

  lemma LongestIs(p: string, c: string, n: nat, w: nat)
    requires MIN_OVERLAP <= n <= w && w <= |p| && w <= |c| && Overlaps(p, c, n)
    requires forall k :: n < k <= w ==> !Overlaps(p, c, k)
    ensures LongestOverlap(p, c, w) == n
  {
    var r := LongestOverlap(p, c, w);
  }

  /**
   A candidate that repeats the last `n` characters of the prior text before going on contributes exactly what follows
   them, unless it overlaps by even more characters, or holds the whole prior text.
   */
  lemma RepeatedTail(prior: string, n: nat, addition: string)
    requires var p := Trim(prior); 24 <= n <= |p| && n <= 240 && Trimmed(p[|p| - n..] + addition)
    requires var p := Trim(prior); var c := p[|p| - n..] + addition;
             !StartsWith(c, p) && forall k :: n < k <= 240 && k <= |p| && k <= |c| ==> !Overlaps(p, c, k)
    ensures var p := Trim(prior); NewText(prior, p[|p| - n..] + addition) == Trim(addition)
  {
    var p := Trim(prior);
    var c := p[|p| - n..] + addition;
    TrimOfTrimmed(c);
    TailIsCut(prior, p, c, n, addition);
  }

  lemma TailIsCut(prior: string, p: string, c: string, n: nat, addition: string)
    requires p == Trim(prior) && 24 <= n <= |p| && n <= 240 && c == p[|p| - n..] + addition && Trim(c) == c
    requires !StartsWith(c, p) && forall k :: n < k <= 240 && k <= |p| && k <= |c| ==> !Overlaps(p, c, k)
    ensures NewText(prior, c) == Trim(addition)
  {
    RepeatedOverlap(p, n, addition);
    LongestIs(p, c, n, Window(p, c));
    EqualStartsWith(p, c);
  }

  // ---------- Fresh text ----------

  /** The last k characters of p are not, up to the case of letters, the first k of c. */
  ghost predicate NoOverlap(p: string, c: string) {
    forall k :: 24 <= k <= 240 && k <= |p| && k <= |c| ==> Lower(p[|p| - k..]) != Lower(c[..k])
  }

  function Plain(s: string): string { CollapseSpaces(Lower(s)) }

  lemma NoOverlapFound(p: string, c: string)
    requires NoOverlap(p, c)
    ensures LongestOverlap(p, c, Window(p, c)) == 0
  {
    var r := LongestOverlap(p, c, Window(p, c));
  }

  lemma FreshTextFallsThrough(prior: string, candidate: string)
    requires Trim(prior) != "" && !StartsWith(Trim(candidate), Trim(prior)) && NoOverlap(Trim(prior), Trim(candidate))
    ensures NewText(prior, candidate) ==
              if Trim(candidate) != "" && StartsOver(Trim(prior), Trim(candidate)) then "" else Trim(candidate)
  {
    NoOverlapFound(Trim(prior), Trim(candidate));
    EqualStartsWith(Trim(prior), Trim(candidate));
  }

  function FirstChars(s: string, n: nat): string { if |s| <= n then s else s[..n] }

  lemma StartsOverExactly(p: string, c: string)
    ensures StartsOver(p, c) <==> exists i :: OccursAt(Plain(c), FirstChars(Plain(p), 160), i)
  {
    var probe := FirstChars(Plain(p), 160);
    assert Plain(p)[..Min(|Plain(p)|, 160)] == probe;
    ContainsIff(Plain(c), probe);
  }

  /**
   A candidate that neither extends nor overlaps the prior text is appended whole, unless, up to case and spacing, it
   holds the first 160 characters of the prior text, or all of them if there are fewer; then nothing is appended.
   */
  lemma FreshTextExactly(prior: string, candidate: string)
    requires Trim(prior) != "" && !StartsWith(Trim(candidate), Trim(prior)) && NoOverlap(Trim(prior), Trim(candidate))
    ensures NewText(prior, candidate) ==
              if exists i :: OccursAt(Plain(Trim(candidate)), FirstChars(Plain(Trim(prior)), 160), i) then ""
              else Trim(candidate)
  {
    FreshTextFallsThrough(prior, candidate);
    StartsOverExactly(Trim(prior), Trim(candidate));
  }

  lemma EqualStartsWith(p: string, c: string)
    ensures c == p ==> StartsWith(c, p)
  {
    assert p[..|p|] == p;
  }

  /** A candidate too short to hold that much is kept whole, and one that holds all of the prior text adds nothing. */
  lemma FreshTextCases(prior: string, candidate: string)
    requires Trim(prior) != "" && !StartsWith(Trim(candidate), Trim(prior)) && NoOverlap(Trim(prior), Trim(candidate))
    ensures var p, c := Plain(Trim(prior)), Plain(Trim(candidate));
            && (|c| < |p| && |c| < 160 ==> NewText(prior, candidate) == Trim(candidate))
            && (Contains(c, p) ==> NewText(prior, candidate) == "")
  {
    var p, c := Plain(Trim(prior)), Plain(Trim(candidate));
    FreshTextExactly(prior, candidate);
    ProbeOccurs(p, c);
  }

  lemma ProbeOccurs(p: string, c: string)
    ensures |c| < |p| && |c| < 160 ==> forall i :: !OccursAt(c, FirstChars(p, 160), i)
    ensures Contains(c, p) ==> exists i :: OccursAt(c, FirstChars(p, 160), i)
  {
    if Contains(c, p) {
      var probe, i := FirstChars(p, 160), IndexOf(c, p, 0);
      assert c[i..i + |probe|] == c[i..i + |p|][..|probe|];
      assert OccursAt(c, probe, i);
    }
  }
}
