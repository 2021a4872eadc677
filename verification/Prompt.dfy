/**
 malv-brain-prompt.ts: the prompt printer, the splitter that recovers the two chat turns from the printed text,
 and the log summary. Wording that has no structure is carried as opaque strings.
 */
module Prompt {
  import opened Wrappers
  import opened Text

  const USER_MARKER := "### [user] Message\n"
  const REPLY_MARKER := "\n\n### Your reply (MALV)\n"
  const REPLY_HEADING := "\n\n### Your reply"

  /** The caller's arguments. Absent optional blocks are None. */
  datatype PromptArgs = PromptArgs(
    userMessage: string,
    contextBlock: string,
    beastLevel: string,
    classifiedMode: string,
    reasoningTrace: Option<string>,
    superFix: bool,
    directiveExtra: Option<string>,
    toneInstructionBlock: Option<string>,
    adaptiveStyleHint: Option<string>,
    capabilityRoutingBlock: Option<string>,
    responsePlanBlock: Option<string>,
    autonomousOrchestrationBlock: Option<string>,
    serverPhasedOrchestrationNotice: Option<string>,
    attachSecurity: bool,
    economy: bool)

  /** Fixed texts, and texts other modules derive from the message: persona, mode line, answer shape, overlays. */
  datatype Wording = Wording(
    economyPersona: string, standardPersona: string, grounding: string, security: string,
    multimodal: string, videoAnalysis: string, videoRequested: bool,
    modeLine: string, stance: string, modeAdvice: string, superFixText: string,
    intentFirst: string, overlays: string, replyDiscipline: string)

  predicate Blank(s: string) { Trim(s) == "" }

  /** A block that is printed trimmed between a heading and an ending, or not at all. */
  function Block(heading: string, block: Option<string>, ending: string): string {
    if block.Some? && !Blank(block.value) then heading + Trim(block.value) + ending else ""
  }

  function JoinNonBlank(parts: seq<string>): string {
    if parts == [] then ""
    else
      var rest := JoinNonBlank(parts[1..]);
      if Blank(parts[0]) then rest
      else if rest == "" then parts[0]
      else parts[0] + "\n\n" + rest
  }

  function SystemBase(a: PromptArgs, w: Wording): string {
    var attachments := Contains(a.userMessage, "The user attached the following")
      && Contains(a.userMessage, "reference names and types");
    var video := Contains(a.userMessage, "[VIDEO_ANALYSIS_CONTEXT]") || w.videoRequested;
    "### [system] MALV base\n" + (if a.economy then w.economyPersona else w.standardPersona) + "\n" + w.grounding + "\n"
    + (if a.attachSecurity then w.security else "")
    + (if attachments then "\n" + w.multimodal + "\n" else "")
    + (if video then "\n" + w.videoAnalysis + "\n" else "")
    + (if Blank(w.overlays) then "" else "\n\n" + w.overlays + "\n")
  }

  function SystemMode(a: PromptArgs, w: Wording): string {
    "### [system] Mode\n" + w.modeLine + "\nCompute routing: " + a.classifiedMode + ". Beast level: " + a.beastLevel
      + ".\n"
    + w.stance + "\n" + w.modeAdvice + "\n"
    + Block("", a.toneInstructionBlock, "\n") + Block("", a.adaptiveStyleHint, "\n")
  }

  function SystemExtra(a: PromptArgs, w: Wording): string {
    (if a.superFix then "### Super Fix protocol\n" + w.superFixText + "\n" else "")
    + Block("### Session directive (admin-approved)\n", a.directiveExtra, "\n")
  }

  function Orchestration(a: PromptArgs): string {
    if a.serverPhasedOrchestrationNotice.Some? && !Blank(a.serverPhasedOrchestrationNotice.value) then
      Block("### Server phased orchestration\n", a.serverPhasedOrchestrationNotice, "\n\n")
    else Block("### Autonomous orchestration directives\n", a.autonomousOrchestrationBlock, "\n\n")
  }

  /** Everything that is printed before the user section. */
  function Header(a: PromptArgs, w: Wording): string {
    var contextSection := "### [system] Context summary\n"
      + (if Blank(a.contextBlock) then "(no additional structured context)" else Trim(a.contextBlock));
    JoinNonBlank([SystemBase(a, w), SystemMode(a, w), SystemExtra(a, w)]) + "\n\n"
    + w.intentFirst + "\n\n"
    + Block("", a.responsePlanBlock, "\n\n")
    + Block("### Universal capability routing\n", a.capabilityRoutingBlock, "\n\n")
    + Orchestration(a)
    + Block("### Internal reasoning trace\n", a.reasoningTrace, "\n")
    + contextSection + "\n\n"
  }

  function BuildPrompt(a: PromptArgs, w: Wording): string {
    Header(a, w) + USER_MARKER + a.userMessage + REPLY_MARKER + w.replyDiscipline
  }

  datatype ChatTurns = ChatTurns(systemInstructions: string, finalUserContent: string)

  function WithRole(role: string, rest: string): string { Trim(Trim(role) + "\n\n" + rest) }

  /** The trimmed text from `start` to the next end marker, or to the end of the prompt. */
  function Section(prompt: string, start: nat, endMarker: string): string
    requires start <= |prompt|
  {
    var i := IndexOf(prompt, endMarker, start);
    Trim(if i < 0 then prompt[start..] else prompt[start..i])
  }

  /** splitMalvChatPromptForOpenAiCompatibleChat, without the dedupe option. */
  function SplitPrompt(prompt: string, role: string): ChatTurns { SplitAt(prompt, role, USER_MARKER, REPLY_MARKER) }

  function SplitAt(prompt: string, role: string, userMarker: string, replyMarker: string): ChatTurns {
    var ui := IndexOf(prompt, userMarker, 0);
    if ui < 0 then ChatTurns(Trim(role), Trim(prompt))
    else ChatTurns(WithRole(role, Trim(prompt[..ui])), Section(prompt, ui + |userMarker|, replyMarker))
  }

  /**
   summarizeMalvPromptStructure().userMessageChars: from the first marker to the first reply heading, or to the end.
   */
  function SummaryUserChars(prompt: string): nat { SectionChars(prompt, USER_MARKER, REPLY_HEADING) }

  function SectionChars(prompt: string, userMarker: string, heading: string): nat {
    var ui := IndexOf(prompt, userMarker, 0);
    if ui < 0 then 0 else |Section(prompt, ui + |userMarker|, heading)|
  }

  // ---------- First occurrences and marker borders ----------

  /** `m` cannot overlap itself at distance `d`. */
  predicate Clash(m: string, d: nat)
    requires d <= |m|
  {
    m[..|m| - d] != m[d..]
  }

  /** A marker that can overlap itself by at most `b` characters, and shows a visible character at `v`. */
  ghost predicate Marker(m: string, b: nat, v: nat) {
    && b < |m| && v + b < |m| && !IsSpace(m[v])
    && forall d :: 0 < d < |m| - b ==> Clash(m, d)
  }

  /** The user marker has no border. */
  lemma UserMarkerHasNoBorder()
    ensures Marker(USER_MARKER, 0, 0)
  {
    var m := USER_MARKER;
    forall d | 0 < d < |m| ensures Clash(m, d) {
      assert m[..|m| - d][0] == '#' && m[d..][0] == m[d];
      if d == 1 { assert m[..|m| - 1][2] != m[1..][2]; }
      if d == 2 { assert m[..|m| - 2][1] != m[2..][1]; }
    }
  }

  /** The reply marker has exactly one border, a line break. */
  lemma ReplyMarkerBorder()
    ensures Marker(REPLY_MARKER, 1, 2) && !Clash(REPLY_MARKER, |REPLY_MARKER| - 1)
  {
    var m := REPLY_MARKER;
    forall d | 0 < d < |m| - 1 ensures Clash(m, d) {
      assert m[..|m| - d][0] == '\n' && m[d..][0] == m[d];
      if d == 1 { assert m[..|m| - 1][1] != m[1..][1]; }
    }
    assert m[..1] == "\n" == m[|m| - 1..];
  }

  /** The heading it starts with has none. */
  lemma ReplyHeadingHasNoBorder()
    ensures Marker(REPLY_HEADING, 0, 2)
  {
    var h := REPLY_HEADING;
    forall d | 0 < d < |h| ensures Clash(h, d) {
      assert h[..|h| - d][0] == '\n' && h[d..][0] == h[d];
      if d == 1 { assert h[..|h| - 1][1] != h[1..][1]; }
    }
  }

  /** Before the end of `u`, `m` occurs in `u + m + rest` only where it does in `u` and its own first `b` characters. */
  lemma OccursBefore(u: string, m: string, rest: string, b: nat, v: nat, k: nat)
    requires Marker(m, b, v) && k < |u|
    ensures OccursAt(u + m + rest, m, k) <==> OccursAt(u + m[..b], m, k)
    ensures OccursAt(u + m + rest, m, k) ==> k + v < |u| && !IsSpace(u[k + v])
  {
    var s, d := u + m + rest, |u| - k;
    if k + |m| <= |u| + b {
      assert (u + m[..b])[k..k + |m|] == s[k..k + |m|];
      if OccursAt(s, m, k) { assert s[k..k + |m|][v] == u[k + v]; }
    } else if OccursAt(s, m, k) {
      assert s[|u|..|u| + |m|] == m;
      SelfOverlap(s, m, k, |u|);
      assert false;
    }
  }

  lemma SelfOverlap(s: string, m: string, i: nat, j: nat)
    requires OccursAt(s, m, i) && OccursAt(s, m, j) && i <= j <= i + |m|
    ensures !Clash(m, j - i)
  {
    var d := j - i;
    assert m[d..] == s[i..i + |m|][d..] == s[j..i + |m|];
    assert m[..|m| - d] == s[j..j + |m|][..|m| - d] == s[j..i + |m|];
  }

  /**
   A marker `m` that can overlap itself by at most `b` characters is first found right after `u` exactly when
   it does not already occur in `u` followed by the marker's first `b` characters.
   */
  lemma FirstOccurrence(u: string, m: string, rest: string, b: nat, v: nat)
    requires Marker(m, b, v)
    ensures var i := IndexOf(u + m + rest, m, 0);
            && 0 <= i <= |u|
            && (i == |u| <==> !Contains(u + m[..b], m))
            && (i < |u| ==> i + v < |u| && !IsSpace(u[i + v]))
  {
    var i, j := IndexOf(u + m + rest, m, 0), IndexOf(u + m[..b], m, 0);
    IndexOfIsFirst(u + m + rest, m, 0);
    IndexOfIsFirst(u + m[..b], m, 0);
    assert OccursAt(u + m + rest, m, |u|);
    if i < |u| { OccursBefore(u, m, rest, b, v, i); }
    if j >= 0 { OccursBefore(u, m, rest, b, v, j); }
  }

  lemma OccursShift(p: string, s: string, pat: string, k: int)
    requires 0 <= k
    ensures OccursAt(p + s, pat, |p| + k) <==> OccursAt(s, pat, k)
  {
    if k + |pat| <= |s| { assert (p + s)[|p| + k..|p| + k + |pat|] == s[k..k + |pat|]; }
  }

  /** Reading a section of `p + s` from `|p|` on is reading it from the start of `s`. */
  lemma SectionShift(p: string, s: string, pat: string)
    ensures Section(p + s, |p|, pat) == Section(s, 0, pat)
  {
    var i, j := IndexOf(s, pat, 0), IndexOf(p + s, pat, |p|);
    IndexOfIsFirst(s, pat, 0);
    IndexOfIsFirst(p + s, pat, |p|);
    if i >= 0 { OccursShift(p, s, pat, i); }
    if j >= 0 { OccursShift(p, s, pat, j - |p|); }
    if i >= 0 && j >= 0 {
      assert j == |p| + i;
      assert (p + s)[|p|..j] == s[0..i];
    } else {
      assert (p + s)[|p|..] == s[0..];
    }
  }

  // ---------- The round trip ----------

  /** Cutting visible text off the end makes the trimmed text shorter. */
  lemma CutIsShorter(s: string, i: nat, j: nat)
    requires i <= j < |s| && !IsSpace(s[j])
    ensures |Trim(s[..i])| < |Trim(s)|
  {
    var b, a := TrimParts(s);
    var c, e := TrimParts(s[..i]);
    var r, q := Trim(s), Trim(s[..i]);
    assert forall k :: 0 <= k < |s| && !IsSpace(s[k]) ==> |b| <= k < |b| + |r|;
    if q != "" {
      assert s[..i][|c|] == q[0] == s[|c|];
      assert s[|b|] == r[0];
      assert |b| == |c|;
    }
  }

  lemma WithRoleLength(role: string, x: string)
    requires Trimmed(x)
    ensures |WithRole(role, x)| == |Trim(role)| + |x| + (if x == "" || Trim(role) == "" then 0 else 2)
  {
    TrimIdempotent(role);
    var r := Trim(role);
    if r == "" {
      assert r + "\n\n" + x == "\n\n" + x + "";
      TrimUnique("\n\n", x, "");
    } else if x == "" {
      assert r + "\n\n" + x == "" + r + "\n\n";
      TrimUnique("", r, "\n\n");
    } else {
      TrimOfTrimmed(r + "\n\n" + x);
    }
  }

  lemma CutChangesTrim(u: string, i: nat, v: nat)
    requires i <= |u| && (i < |u| ==> i + v < |u| && !IsSpace(u[i + v]))
    ensures |Trim(u[..i])| == |Trim(u)| <==> i == |u|
    ensures Trim(u[..i]) == Trim(u) <==> i == |u|
  {
    if i < |u| { CutIsShorter(u, i, i + v); } else { assert u[..i] == u; }
  }

  /** A section that starts with `u` is all of it if and only if the end marker is first found after `u`. */
  lemma SectionIsCut(s: string, u: string, m: string, i: nat, v: nat)
    requires i <= |u| <= |s| && s[..|u|] == u && IndexOf(s, m, 0) == i
    requires i < |u| ==> i + v < |u| && !IsSpace(u[i + v])
    ensures |Section(s, 0, m)| == |Trim(u)| <==> i == |u|
    ensures Section(s, 0, m) == Trim(u) <==> i == |u|
  {
    assert s[0..i] == u[..i];
    CutChangesTrim(u, i, v);
  }

  /** The section that starts with the message `u` and is followed by the end marker `m` and more. */
  lemma LeadingSection(u: string, m: string, tail: string, b: nat, v: nat)
    requires Marker(m, b, v)
    ensures var found := Section(u + m + tail, 0, m);
            && (|found| == |Trim(u)| <==> !Contains(u + m[..b], m))
            && (found == Trim(u) <==> !Contains(u + m[..b], m))
  {
    FirstOccurrence(u, m, tail, b, v);
    SectionIsCut(u + m + tail, u, m, IndexOf(u + m + tail, m, 0), v);
  }

  /** A user marker inside the header cuts the system instructions short. */
  lemma DirtyHeader(h: string, m: string, rest: string, role: string, replyMarker: string)
    requires Marker(m, 0, 0) && Contains(h, m)
    ensures |SplitAt(h + m + rest, role, m, replyMarker).systemInstructions| < |WithRole(role, Trim(h))|
  {
    var prompt := h + m + rest;
    FirstOccurrence(h, m, rest, 0, 0);
    assert h + m[..0] == h;
    var ui := IndexOf(prompt, m, 0);
    assert prompt[..ui] == h[..ui];
    CutIsShorter(h, ui, ui);
    TrimIdempotent(h);
    TrimIdempotent(h[..ui]);
    WithRoleLength(role, Trim(h));
    WithRoleLength(role, Trim(h[..ui]));
  }

  lemma CleanHeader(h: string, m: string, rest: string)
    requires Marker(m, 0, 0) && !Contains(h, m)
    ensures IndexOf(h + m + rest, m, 0) == |h| && (h + m + rest)[..|h|] == h && (h + m + rest)[|h| + |m|..] == rest
  {
    FirstOccurrence(h, m, rest, 0, 0);
    assert h + m[..0] == h;
  }

  lemma SectionOfRest(prompt: string, start: nat, pat: string)
    requires start <= |prompt|
    ensures Section(prompt, start, pat) == Section(prompt[start..], 0, pat)
  {
    assert prompt == prompt[..start] + prompt[start..];
    SectionShift(prompt[..start], prompt[start..], pat);
  }

  /** In a prompt with a clean header, both readers read the section after the first user marker. */
  lemma BothReadSection(prompt: string, role: string, m: string, r: string, h: string, t: string, clean: bool)
    requires IndexOf(prompt, m, 0) == |h| && prompt[..|h|] == h && |h| + |m| <= |prompt|
    requires |Section(prompt, |h| + |m|, r)| == |t| <==> clean
    requires Section(prompt, |h| + |m|, r) == t <==> clean
    ensures SplitAt(prompt, role, m, r) == ChatTurns(WithRole(role, Trim(h)), t) <==> clean
    ensures SectionChars(prompt, m, r) == |t| <==> clean
  {
  }

  lemma CleanPrompt(prompt: string, role: string, m: string, r: string, h: string, rest: string, t: string, clean: bool)
    requires IndexOf(prompt, m, 0) == |h| && prompt[..|h|] == h && prompt[|h| + |m|..] == rest
    requires |Section(rest, 0, r)| == |t| <==> clean
    requires Section(rest, 0, r) == t <==> clean
    ensures SplitAt(prompt, role, m, r) == ChatTurns(WithRole(role, Trim(h)), t) <==> clean
    ensures SectionChars(prompt, m, r) == |t| <==> clean
  {
    SectionOfRest(prompt, |h| + |m|, r);
    BothReadSection(prompt, role, m, r, h, t, clean);
  }

  lemma SplitExactly(h: string, m: string, u: string, r: string, tail: string, role: string, b: nat, v: nat)
    requires Marker(m, 0, 0) && Marker(r, b, v)
    ensures SplitAt(h + m + u + r + tail, role, m, r) == ChatTurns(WithRole(role, Trim(h)), Trim(u))
            <==> !Contains(h, m) && !Contains(u + r[..b], r)
  {
    var rest := u + r + tail;
    Regroup(h + m, u, r, tail);
    if Contains(h, m) {
      DirtyHeader(h, m, rest, role, r);
    } else {
      CleanHeader(h, m, rest);
      LeadingSection(u, r, tail, b, v);
      CleanPrompt(h + m + rest, role, m, r, h, rest, Trim(u), !Contains(u + r[..b], r));
    }
  }

  lemma CharsExactly(h: string, m: string, u: string, r: string, tail: string, b: nat, v: nat)
    requires Marker(m, 0, 0) && Marker(r, b, v) && !Contains(h, m)
    ensures SectionChars(h + m + u + r + tail, m, r) == |Trim(u)| <==> !Contains(u + r[..b], r)
  {
    var rest := u + r + tail;
    Regroup(h + m, u, r, tail);
    CleanHeader(h, m, rest);
    LeadingSection(u, r, tail, b, v);
    CleanPrompt(h + m + rest, "", m, r, h, rest, Trim(u), !Contains(u + r[..b], r));
  }

  lemma Regroup(p: string, x: string, y: string, z: string)
    ensures p + x + y + z == p + (x + y + z)
  {
  }

  /**
   Splitting a built prompt gives back exactly the trimmed message, and the role prompt followed by everything printed
   before the user section, if and only if the header lacks the user marker and the message, with the line break that
   follows it, lacks the reply marker.
   */
  lemma SplitInvertsBuild(a: PromptArgs, w: Wording, role: string)
    ensures SplitPrompt(BuildPrompt(a, w), role) == ChatTurns(WithRole(role, Trim(Header(a, w))), Trim(a.userMessage))
            <==> !Contains(Header(a, w), USER_MARKER) && !Contains(a.userMessage + "\n", REPLY_MARKER)
  {
    UserMarkerHasNoBorder();
    ReplyMarkerBorder();
    assert REPLY_MARKER[..1] == "\n";
    SplitExactly(Header(a, w), USER_MARKER, a.userMessage, REPLY_MARKER, w.replyDiscipline, role, 1, 2);
  }

  /**
   The logged message length is that of the trimmed message if and only if the message lacks the reply heading.
   Such a message passes the splitter unharmed too, so the two readers agree on it.
   */
  lemma SummaryMatchesMessage(a: PromptArgs, w: Wording, role: string)
    requires !Contains(Header(a, w), USER_MARKER)
    ensures SummaryUserChars(BuildPrompt(a, w)) == |Trim(a.userMessage)| <==> !Contains(a.userMessage, REPLY_HEADING)
    ensures !Contains(a.userMessage, REPLY_HEADING) ==>
              SummaryUserChars(BuildPrompt(a, w)) == |SplitPrompt(BuildPrompt(a, w), role).finalUserContent|
  {
    SummaryExactly(a, w);
    SplitInvertsBuild(a, w, role);
    if Contains(a.userMessage + "\n", REPLY_MARKER) {
      assert REPLY_MARKER[..|REPLY_HEADING|] == REPLY_HEADING;
      HeadingWithinMarker(a.userMessage, REPLY_MARKER, REPLY_HEADING);
    }
  }

  lemma SummaryExactly(a: PromptArgs, w: Wording)
    requires !Contains(Header(a, w), USER_MARKER)
    ensures SummaryUserChars(BuildPrompt(a, w)) == |Trim(a.userMessage)| <==> !Contains(a.userMessage, REPLY_HEADING)
  {
    PrintedSectionExactly(Header(a, w), a.userMessage, w.replyDiscipline);
  }

  lemma PrintedSectionExactly(h: string, u: string, tail: string)
    requires !Contains(h, USER_MARKER)
    ensures SummaryUserChars(h + USER_MARKER + u + REPLY_MARKER + tail) == |Trim(u)| <==> !Contains(u, REPLY_HEADING)
  {
    UserMarkerHasNoBorder();
    ReplyHeadingHasNoBorder();
    assert REPLY_MARKER == REPLY_HEADING + " (MALV)\n";
    HeadingSectionExactly(h, USER_MARKER, u, REPLY_HEADING, " (MALV)\n", tail);
  }

  lemma HeadingSectionExactly(h: string, m: string, u: string, r: string, x: string, tail: string)
    requires Marker(m, 0, 0) && Marker(r, 0, 2) && !Contains(h, m)
    ensures SectionChars(h + m + u + (r + x) + tail, m, r) == |Trim(u)| <==> !Contains(u, r)
  {
    assert h + m + u + (r + x) + tail == h + m + u + r + (x + tail);
    CharsExactly(h, m, u, r, x + tail, 0, 2);
    assert u + r[..0] == u;
  }

  /** A marker found in `u` and one more character starts with a heading that lies in `u` itself. */
  lemma HeadingWithinMarker(u: string, m: string, h: string)
    requires Contains(u + "\n", m) && |h| < |m| && m[..|h|] == h
    ensures Contains(u, h)
  {
    var k := IndexOf(u + "\n", m, 0);
    assert OccursAt(u + "\n", m, k);
    assert k + |m| <= |u| + 1;
    assert (u + "\n")[k..k + |m|][..|h|] == (u + "\n")[k..k + |h|] == u[k..k + |h|];
    assert OccursAt(u, h, k);
    ContainsIff(u, h);
  }

  /** A prompt without a user section becomes the user turn as a whole, and its logged length is 0. */
  lemma NoUserSection(prompt: string, role: string)
    requires !Contains(prompt, "### [user] Message\n")
    ensures SplitPrompt(prompt, role) == ChatTurns(Trim(role), Trim(prompt)) && SummaryUserChars(prompt) == 0
  {
  }

  /** A user section that no reply section follows goes on to the end of the prompt. */
  lemma NoReplySection(before: string, rest: string, role: string)
    requires !Contains(before, "### [user] Message\n")
    ensures var prompt := before + "### [user] Message\n" + rest;
            && (!Contains(rest, "\n\n### Your reply (MALV)\n") ==>
                  SplitPrompt(prompt, role) == ChatTurns(WithRole(role, Trim(before)), Trim(rest)))
            && (!Contains(rest, "\n\n### Your reply") ==> SummaryUserChars(prompt) == |Trim(rest)|)
  {
    var prompt := before + USER_MARKER + rest;
    UserMarkerHasNoBorder();
    CleanHeader(before, USER_MARKER, rest);
    SectionOfRest(prompt, |before| + |USER_MARKER|, REPLY_MARKER);
    SectionOfRest(prompt, |before| + |USER_MARKER|, REPLY_HEADING);
    assert rest[0..] == rest;
  }
}
