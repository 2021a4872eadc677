/** What a built prompt holds: every block under its heading, in order, and what the splitter hands on of it. */
module PromptLayout {
  import opened Wrappers
  import opened Text
  import opened Prompt

  /** The pieces occur in the text one after the other. */
  ghost predicate InOrder(s: string, pieces: seq<string>) {
    pieces == [] || exists i :: OccursAt(s, pieces[0], i) && InOrder(s[i + |pieces[0]|..], pieces[1..])
  }

  lemma InOrderFrom(s: string, pieces: seq<string>, i: nat)
    requires pieces != [] && OccursAt(s, pieces[0], i) && InOrder(s[i + |pieces[0]|..], pieces[1..])
    ensures InOrder(s, pieces)
  {
  }

  lemma Whole(s: string)
    ensures InOrder(s, [s])
  {
    assert OccursAt(s, [s][0], 0);
    InOrderFrom(s, [s], 0);
  }

  lemma {:induction false} Before(x: string, s: string, pieces: seq<string>)
    requires InOrder(s, pieces)
    ensures InOrder(x + s, pieces)
  {
    if pieces != [] {
      var i :| OccursAt(s, pieces[0], i) && InOrder(s[i + |pieces[0]|..], pieces[1..]);
      OccursShift(x, s, pieces[0], i);
      assert (x + s)[|x| + i + |pieces[0]|..] == s[i + |pieces[0]|..];
      InOrderFrom(x + s, pieces, |x| + i);
    }
  }

  /** Texts in a row hold their pieces in a row. */
  lemma {:induction false} InARow(x: string, ps: seq<string>, y: string, qs: seq<string>)
    requires InOrder(x, ps) && InOrder(y, qs)
    ensures InOrder(x + y, ps + qs)
    decreases |ps|
  {
    if ps == [] {
      assert ps + qs == qs;
      Before(x, y, qs);
    } else {
      var i :| OccursAt(x, ps[0], i) && InOrder(x[i + |ps[0]|..], ps[1..]);
      var n := i + |ps[0]|;
      InARow(x[n..], ps[1..], y, qs);
      assert (x + y)[i..n] == x[i..n] && (x + y)[n..] == x[n..] + y;
      assert (ps + qs)[0] == ps[0] && (ps + qs)[1..] == ps[1..] + qs;
      InOrderFrom(x + y, ps + qs, i);
    }
  }

  /** A text that goes on still holds the pieces. */
  lemma Then(x: string, ps: seq<string>, y: string)
    requires InOrder(x, ps)
    ensures InOrder(x + y, ps)
  {
    InARow(x, ps, y, []);
    assert ps + [] == ps;
  }

  lemma ThenPiece(x: string, ps: seq<string>, y: string)
    requires InOrder(x, ps)
    ensures InOrder(x + y, ps + [y])
  {
    Whole(y);
    InARow(x, ps, y, [y]);
  }

  // ---------- What is to be printed ----------

  /** A block that is there and not blank, trimmed, under its heading. */
  function Piece(heading: string, block: Option<string>): seq<string> {
    if block.Some? && Trim(block.value) != "" then [heading + Trim(block.value)] else []
  }

  function If(on: bool, text: string): seq<string> { if on then [text] else [] }

  function BasePieces(a: PromptArgs, w: Wording): seq<string> {
    ["### [system] MALV base\n" + (if a.economy then w.economyPersona else w.standardPersona)]
    + [w.grounding]
    + If(a.attachSecurity, w.security)
    + If(Contains(a.userMessage, "The user attached the following")
         && Contains(a.userMessage, "reference names and types"), w.multimodal)
    + If(Contains(a.userMessage, "[VIDEO_ANALYSIS_CONTEXT]") || w.videoRequested, w.videoAnalysis)
    + If(Trim(w.overlays) != "", w.overlays)
  }

  function ModePieces(a: PromptArgs, w: Wording): seq<string> {
    ["### [system] Mode\n" + w.modeLine]
    + ["\nCompute routing: " + a.classifiedMode + ". Beast level: " + a.beastLevel + ".\n"]
    + [w.stance] + [w.modeAdvice]
    + Piece("", a.toneInstructionBlock) + Piece("", a.adaptiveStyleHint)
  }

  function ExtraPieces(a: PromptArgs, w: Wording): seq<string> {
    If(a.superFix, "### Super Fix protocol\n" + w.superFixText)
    + Piece("### Session directive (admin-approved)\n", a.directiveExtra)
  }

  /** The phased notice, when there is one, stands in for the autonomous directives. */
  function OrchestrationPieces(a: PromptArgs): seq<string> {
    var notice := Piece("### Server phased orchestration\n", a.serverPhasedOrchestrationNotice);
    if notice != [] then notice
    else Piece("### Autonomous orchestration directives\n", a.autonomousOrchestrationBlock)
  }

  function ContextPiece(a: PromptArgs): string {
    "### [system] Context summary\n"
    + (if Trim(a.contextBlock) != "" then Trim(a.contextBlock) else "(no additional structured context)")
  }

  /** Every block of the system part, in the order the source prints them. */
  function SystemPieces(a: PromptArgs, w: Wording): seq<string> {
    BasePieces(a, w) + ModePieces(a, w) + ExtraPieces(a, w)
    + [w.intentFirst]
    + Piece("", a.responsePlanBlock)
    + Piece("### Universal capability routing\n", a.capabilityRoutingBlock)
    + OrchestrationPieces(a)
    + Piece("### Internal reasoning trace\n", a.reasoningTrace)
    + [ContextPiece(a)]
  }

  // ---------- That it is printed ----------

  lemma BlockHolds(heading: string, block: Option<string>, ending: string)
    ensures InOrder(Block(heading, block, ending), Piece(heading, block))
  {
    if block.Some? && Trim(block.value) != "" {
      Whole(heading + Trim(block.value));
      Then(heading + Trim(block.value), Piece(heading, block), ending);
    }
  }

  lemma AroundHolds(before: string, text: string, after: string)
    ensures InOrder(before + text + after, [text])
  {
    ThenPiece(before, [], text);
    assert [] + [text] == [text];
    Then(before + text, [text], after);
  }

  lemma IfHolds(on: bool, before: string, text: string, after: string)
    ensures InOrder(if on then before + text + after else "", If(on, text))
  {
    if on { AroundHolds(before, text, after); }
  }

  lemma BaseRow(p: string, g: string, x: string, xs: seq<string>, y: string, ys: seq<string>, z: string,
                zs: seq<string>, v: string, vs: seq<string>)
    requires InOrder(x, xs) && InOrder(y, ys) && InOrder(z, zs) && InOrder(v, vs)
    ensures InOrder(p + "\n" + g + "\n" + x + y + z + v, [p] + [g] + xs + ys + zs + vs)
  {
    Whole(p);
    Then(p, [p], "\n");
    ThenPiece(p + "\n", [p], g);
    Then(p + "\n" + g, [p] + [g], "\n");
    InARow(p + "\n" + g + "\n", [p] + [g], x, xs);
    InARow(p + "\n" + g + "\n" + x, [p] + [g] + xs, y, ys);
    InARow(p + "\n" + g + "\n" + x + y, [p] + [g] + xs + ys, z, zs);
    InARow(p + "\n" + g + "\n" + x + y + z, [p] + [g] + xs + ys + zs, v, vs);
  }

  lemma BaseHolds(a: PromptArgs, w: Wording)
    ensures InOrder(SystemBase(a, w), BasePieces(a, w))
  {
    var attachments := Contains(a.userMessage, "The user attached the following")
      && Contains(a.userMessage, "reference names and types");
    var video := Contains(a.userMessage, "[VIDEO_ANALYSIS_CONTEXT]") || w.videoRequested;
    var security := if a.attachSecurity then w.security else "";
    if a.attachSecurity { Whole(w.security); }
    IfHolds(attachments, "\n", w.multimodal, "\n");
    IfHolds(video, "\n", w.videoAnalysis, "\n");
    IfHolds(!Blank(w.overlays), "\n\n", w.overlays, "\n");
    BaseRow("### [system] MALV base\n" + (if a.economy then w.economyPersona else w.standardPersona), w.grounding,
            security, If(a.attachSecurity, w.security),
            if attachments then "\n" + w.multimodal + "\n" else "", If(attachments, w.multimodal),
            if video then "\n" + w.videoAnalysis + "\n" else "", If(video, w.videoAnalysis),
            if !Blank(w.overlays) then "\n\n" + w.overlays + "\n" else "", If(!Blank(w.overlays), w.overlays));
  }

  lemma FiveTogether(h: string, a: string, b: string, c: string, d: string, e: string)
    ensures h + a + b + c + d + e == h + (a + b + c + d + e)
  {
  }

  lemma ModeRow(h: string, q: string, s: string, m: string, x: string, xs: seq<string>, y: string, ys: seq<string>)
    requires InOrder(x, xs) && InOrder(y, ys)
    ensures InOrder(h + q + s + "\n" + m + "\n" + x + y, [h] + [q] + [s] + [m] + xs + ys)
  {
    Whole(h);
    ThenPiece(h, [h], q);
    ThenPiece(h + q, [h] + [q], s);
    Then(h + q + s, [h] + [q] + [s], "\n");
    ThenPiece(h + q + s + "\n", [h] + [q] + [s], m);
    Then(h + q + s + "\n" + m, [h] + [q] + [s] + [m], "\n");
    InARow(h + q + s + "\n" + m + "\n", [h] + [q] + [s] + [m], x, xs);
    InARow(h + q + s + "\n" + m + "\n" + x, [h] + [q] + [s] + [m] + xs, y, ys);
  }

  lemma ModeHolds(a: PromptArgs, w: Wording)
    ensures InOrder(SystemMode(a, w), ModePieces(a, w))
  {
    var h := "### [system] Mode\n" + w.modeLine;
    FiveTogether(h, "\nCompute routing: ", a.classifiedMode, ". Beast level: ", a.beastLevel, ".\n");
    BlockHolds("", a.toneInstructionBlock, "\n");
    BlockHolds("", a.adaptiveStyleHint, "\n");
    ModeRow(h, "\nCompute routing: " + a.classifiedMode + ". Beast level: " + a.beastLevel + ".\n", w.stance,
            w.modeAdvice, Block("", a.toneInstructionBlock, "\n"), Piece("", a.toneInstructionBlock),
            Block("", a.adaptiveStyleHint, "\n"), Piece("", a.adaptiveStyleHint));
  }

  lemma ExtraHolds(a: PromptArgs, w: Wording)
    ensures InOrder(SystemExtra(a, w), ExtraPieces(a, w))
    ensures Blank(SystemExtra(a, w)) ==> ExtraPieces(a, w) == []
  {
    var fix := if a.superFix then "### Super Fix protocol\n" + w.superFixText + "\n" else "";
    var directive := Block("### Session directive (admin-approved)\n", a.directiveExtra, "\n");
    if a.superFix {
      Whole("### Super Fix protocol\n" + w.superFixText);
      Then("### Super Fix protocol\n" + w.superFixText, ["### Super Fix protocol\n" + w.superFixText], "\n");
      NotBlank(fix + directive, 0);
    } else {
      assert fix + directive == directive;
      if directive != "" { NotBlank(directive, 0); }
    }
    BlockHolds("### Session directive (admin-approved)\n", a.directiveExtra, "\n");
    InARow(fix, If(a.superFix, "### Super Fix protocol\n" + w.superFixText), directive,
           Piece("### Session directive (admin-approved)\n", a.directiveExtra));
  }

  lemma NotBlank(s: string, i: nat)
    requires i < |s| && !IsSpace(s[i])
    ensures !Blank(s)
  {
    var b, a := TrimParts(s);
    assert Trim(s) == "" ==> s == b + a;
  }

  lemma OrchestrationHolds(a: PromptArgs)
    ensures InOrder(Orchestration(a), OrchestrationPieces(a))
  {
    BlockHolds("### Server phased orchestration\n", a.serverPhasedOrchestrationNotice, "\n\n");
    BlockHolds("### Autonomous orchestration directives\n", a.autonomousOrchestrationBlock, "\n\n");
  }

  /** The three system parts, with blank ones left out. */
  lemma PartsHold(base: string, bs: seq<string>, mode: string, ms: seq<string>, extra: string, es: seq<string>)
    requires InOrder(base, bs) && InOrder(mode, ms) && InOrder(extra, es)
    requires !Blank(base) && !Blank(mode) && (Blank(extra) ==> es == [])
    ensures InOrder(JoinNonBlank([base, mode, extra]), bs + ms + es)
    ensures |base| <= |JoinNonBlank([base, mode, extra])| && JoinNonBlank([base, mode, extra])[..|base|] == base
  {
    JoinThree(base, mode, extra);
    Then(base, bs, "\n\n");
    InARow(base + "\n\n", bs, mode, ms);
    if Blank(extra) {
      assert bs + ms + es == bs + ms;
    } else {
      Then(base + "\n\n" + mode, bs + ms, "\n\n");
      InARow(base + "\n\n" + mode + "\n\n", bs + ms, extra, es);
    }
  }

  lemma JoinThree(base: string, mode: string, extra: string)
    requires !Blank(base) && !Blank(mode)
    ensures JoinNonBlank([base, mode, extra]) ==
              base + "\n\n" + mode + (if Blank(extra) then "" else "\n\n" + extra)
    ensures !Blank(extra) ==> JoinNonBlank([base, mode, extra]) == base + "\n\n" + mode + "\n\n" + extra
  {
    var tail := JoinNonBlank([extra]);
    assert JoinNonBlank([extra][1..]) == "";
    assert [extra][1..] == [] && [mode, extra][1..] == [extra] && [base, mode, extra][1..] == [mode, extra];
    assert tail == if Blank(extra) then "" else extra;
    assert Blank("");
    assert JoinNonBlank([mode, extra]) == mode + (if Blank(extra) then "" else "\n\n" + extra);
  }

  /** The printed system part, without the blank line that ends it. */
  function Core(a: PromptArgs, w: Wording): string {
    JoinNonBlank([SystemBase(a, w), SystemMode(a, w), SystemExtra(a, w)]) + "\n\n"
    + w.intentFirst + "\n\n"
    + Block("", a.responsePlanBlock, "\n\n")
    + Block("### Universal capability routing\n", a.capabilityRoutingBlock, "\n\n")
    + Orchestration(a)
    + Block("### Internal reasoning trace\n", a.reasoningTrace, "\n")
    + ContextPiece(a)
  }

  lemma HeaderIsCore(a: PromptArgs, w: Wording)
    ensures Header(a, w) == Core(a, w) + "\n\n"
  {
  }

  lemma CoreRow(j: string, js: seq<string>, i: string, x: string, xs: seq<string>, y: string, ys: seq<string>,
                o: string, os: seq<string>, r: string, rs: seq<string>, c: string)
    requires InOrder(j, js) && InOrder(x, xs) && InOrder(y, ys) && InOrder(o, os) && InOrder(r, rs)
    ensures InOrder(j + "\n\n" + i + "\n\n" + x + y + o + r + c, js + [i] + xs + ys + os + rs + [c])
  {
    Then(j, js, "\n\n");
    ThenPiece(j + "\n\n", js, i);
    Then(j + "\n\n" + i, js + [i], "\n\n");
    var t := j + "\n\n" + i + "\n\n";
    InARow(t, js + [i], x, xs);
    InARow(t + x, js + [i] + xs, y, ys);
    InARow(t + x + y, js + [i] + xs + ys, o, os);
    InARow(t + x + y + o, js + [i] + xs + ys + os, r, rs);
    ThenPiece(t + x + y + o + r, js + [i] + xs + ys + os + rs, c);
  }

  lemma BaseStarts(a: PromptArgs, w: Wording)
    ensures SystemBase(a, w) != "" && SystemBase(a, w)[0] == '#' && !Blank(SystemBase(a, w))
  {
    NotBlank(SystemBase(a, w), 0);
  }

  lemma ModeStarts(a: PromptArgs, w: Wording)
    ensures !Blank(SystemMode(a, w))
  {
    NotBlank(SystemMode(a, w), 0);
  }

  lemma CoreHolds(a: PromptArgs, w: Wording)
    ensures InOrder(Core(a, w), SystemPieces(a, w))
    ensures Core(a, w) != "" && Core(a, w)[0] == '#' && EndsWith(Core(a, w), ContextPiece(a))
  {
    var base, mode, extra := SystemBase(a, w), SystemMode(a, w), SystemExtra(a, w);
    BaseHolds(a, w);
    ModeHolds(a, w);
    ExtraHolds(a, w);
    BaseStarts(a, w);
    ModeStarts(a, w);
    PartsHold(base, BasePieces(a, w), mode, ModePieces(a, w), extra, ExtraPieces(a, w));
    BlockHolds("", a.responsePlanBlock, "\n\n");
    BlockHolds("### Universal capability routing\n", a.capabilityRoutingBlock, "\n\n");
    OrchestrationHolds(a);
    BlockHolds("### Internal reasoning trace\n", a.reasoningTrace, "\n");
    var j := JoinNonBlank([base, mode, extra]);
    CoreRow(j, BasePieces(a, w) + ModePieces(a, w) + ExtraPieces(a, w), w.intentFirst,
            Block("", a.responsePlanBlock, "\n\n"), Piece("", a.responsePlanBlock),
            Block("### Universal capability routing\n", a.capabilityRoutingBlock, "\n\n"),
            Piece("### Universal capability routing\n", a.capabilityRoutingBlock),
            Orchestration(a), OrchestrationPieces(a),
            Block("### Internal reasoning trace\n", a.reasoningTrace, "\n"),
            Piece("### Internal reasoning trace\n", a.reasoningTrace), ContextPiece(a));
    assert j[0] == base[0];
  }

  lemma EndOfPiece(x: string, h: string, t: string)
    requires t != "" && Trimmed(t) && EndsWith(x, h + t)
    ensures x != "" && !IsSpace(x[|x| - 1])
  {
    assert (h + t)[|h + t| - 1] == t[|t| - 1];
    assert x[|x| - |h + t|..][|h + t| - 1] == (h + t)[|h + t| - 1];
  }

  lemma TrimBlankLine(core: string)
    requires Trimmed(core)
    ensures Trim(core + "\n\n") == core
  {
    TrimUnique("", core, "\n\n");
    assert "" + core + "\n\n" == core + "\n\n";
  }

  lemma ContextPieceEnds(a: PromptArgs, x: string)
    requires EndsWith(x, ContextPiece(a))
    ensures x != "" && !IsSpace(x[|x| - 1])
  {
    TrimIdempotent(a.contextBlock);
    var body := if Trim(a.contextBlock) != "" then Trim(a.contextBlock) else "(no additional structured context)";
    EndOfPiece(x, "### [system] Context summary\n", body);
  }

  lemma CoreIsTrimmed(a: PromptArgs, w: Wording)
    ensures Trimmed(Core(a, w)) && Core(a, w) != "" && Trim(Header(a, w)) == Core(a, w)
  {
    CoreHolds(a, w);
    HeaderIsCore(a, w);
    ContextPieceEnds(a, Core(a, w));
    TrimBlankLine(Core(a, w));
  }

  /** A built prompt holds every block, then the message under its heading, then the reply heading and discipline. */
  lemma PromptHoldsBlocks(a: PromptArgs, w: Wording)
    ensures InOrder(BuildPrompt(a, w), SystemPieces(a, w)
              + ["### [user] Message\n" + a.userMessage + "\n\n### Your reply (MALV)\n" + w.replyDiscipline])
  {
    CoreHolds(a, w);
    HeaderIsCore(a, w);
    var turn := "### [user] Message\n" + a.userMessage + "\n\n### Your reply (MALV)\n" + w.replyDiscipline;
    Then(Core(a, w), SystemPieces(a, w), "\n\n");
    ThenPiece(Header(a, w), SystemPieces(a, w), turn);
    FourTogether(Header(a, w), "### [user] Message\n", a.userMessage, "\n\n### Your reply (MALV)\n", w.replyDiscipline);
  }

  lemma FourTogether(h: string, a: string, b: string, c: string, d: string)
    ensures h + a + b + c + d == h + (a + b + c + d)
  {
  }

  lemma WithRoleIs(role: string, x: string)
    requires x != "" && Trimmed(x)
    ensures WithRole(role, x) == if Trim(role) == "" then x else Trim(role) + "\n\n" + x
  {
    var r := Trim(role);
    TrimIdempotent(role);
    if r == "" {
      assert r + "\n\n" + x == "\n\n" + x + "";
      TrimUnique("\n\n", x, "");
    } else {
      TrimOfTrimmed(r + "\n\n" + x);
    }
  }

  lemma RoleAndRest(r: string, x: string, pieces: seq<string>, end: string)
    requires InOrder(x, pieces) && EndsWith(x, end)
    ensures InOrder(r + "\n\n" + x, [r] + pieces) && EndsWith(r + "\n\n" + x, end)
  {
    Whole(r);
    Then(r, [r], "\n\n");
    InARow(r + "\n\n", [r], x, pieces);
    EndsWithMore(r + "\n\n", x, end);
  }

  lemma EndsWithMore(x: string, y: string, end: string)
    requires EndsWith(y, end)
    ensures EndsWith(x + y, end)
  {
    var s := x + y;
    assert s[|s| - |end|..] == y[|y| - |end|..];
  }

  lemma WithRoleHolds(role: string, x: string, pieces: seq<string>, end: string)
    requires x != "" && Trimmed(x) && InOrder(x, pieces) && EndsWith(x, end)
    ensures InOrder(WithRole(role, x), (if Trim(role) == "" then [] else [Trim(role)]) + pieces)
    ensures EndsWith(WithRole(role, x), end)
  {
    WithRoleIs(role, x);
    if Trim(role) == "" {
      assert [] + pieces == pieces;
    } else {
      RoleAndRest(Trim(role), x, pieces, end);
    }
  }

  /**
   When the markers do not occur where they should not, the splitter hands on the trimmed message, and instructions
   that hold the role prompt and then every block in order, and that end with the context summary.
   */
  lemma SystemTurnHoldsBlocks(a: PromptArgs, w: Wording, role: string)
    requires !Contains(Header(a, w), "### [user] Message\n")
    requires !Contains(a.userMessage + "\n", "\n\n### Your reply (MALV)\n")
    ensures var turns := SplitPrompt(BuildPrompt(a, w), role);
            && turns.finalUserContent == Trim(a.userMessage)
            && InOrder(turns.systemInstructions, (if Trim(role) == "" then [] else [Trim(role)]) + SystemPieces(a, w))
            && EndsWith(turns.systemInstructions, ContextPiece(a))
  {
    SplitInvertsBuild(a, w, role);
    CoreHolds(a, w);
    CoreIsTrimmed(a, w);
    WithRoleHolds(role, Core(a, w), SystemPieces(a, w), ContextPiece(a));
  }

  /** With a phased notice, the autonomous directives do not matter. */
  lemma NoticeReplacesDirectives(a: PromptArgs, w: Wording, directives: Option<string>)
    requires a.serverPhasedOrchestrationNotice.Some? && Trim(a.serverPhasedOrchestrationNotice.value) != ""
    ensures BuildPrompt(a.(autonomousOrchestrationBlock := directives), w) == BuildPrompt(a, w)
  {
    var b := a.(autonomousOrchestrationBlock := directives);
    assert Orchestration(b) == Orchestration(a);
    assert SystemBase(b, w) == SystemBase(a, w) && SystemMode(b, w) == SystemMode(a, w);
    assert SystemExtra(b, w) == SystemExtra(a, w);
  }

  /** A block without its outer white space, and none instead of a blank one. */
  function Tidied(block: Option<string>): Option<string> {
    if block.Some? && Trim(block.value) != "" then Some(Trim(block.value)) else None
  }

  function TidiedArgs(a: PromptArgs): PromptArgs {
    a.(reasoningTrace := Tidied(a.reasoningTrace), directiveExtra := Tidied(a.directiveExtra),
       toneInstructionBlock := Tidied(a.toneInstructionBlock), adaptiveStyleHint := Tidied(a.adaptiveStyleHint),
       capabilityRoutingBlock := Tidied(a.capabilityRoutingBlock), responsePlanBlock := Tidied(a.responsePlanBlock),
       autonomousOrchestrationBlock := Tidied(a.autonomousOrchestrationBlock),
       serverPhasedOrchestrationNotice := Tidied(a.serverPhasedOrchestrationNotice))
  }

  lemma BlockOfTidied(heading: string, block: Option<string>, ending: string)
    ensures Block(heading, Tidied(block), ending) == Block(heading, block, ending)
    ensures Tidied(block).None? ==> Block(heading, block, ending) == ""
  {
    if block.Some? { TrimIdempotent(block.value); }
  }

  lemma SystemPartsOfTidied(a: PromptArgs, w: Wording)
    ensures SystemBase(TidiedArgs(a), w) == SystemBase(a, w)
    ensures SystemMode(TidiedArgs(a), w) == SystemMode(a, w)
    ensures SystemExtra(TidiedArgs(a), w) == SystemExtra(a, w)
  {
    BlockOfTidied("", a.toneInstructionBlock, "\n");
    BlockOfTidied("", a.adaptiveStyleHint, "\n");
    BlockOfTidied("### Session directive (admin-approved)\n", a.directiveExtra, "\n");
  }

  lemma OrchestrationOfTidied(a: PromptArgs)
    ensures Orchestration(TidiedArgs(a)) == Orchestration(a)
  {
    if a.serverPhasedOrchestrationNotice.Some? { TrimIdempotent(a.serverPhasedOrchestrationNotice.value); }
    BlockOfTidied("### Server phased orchestration\n", a.serverPhasedOrchestrationNotice, "\n\n");
    BlockOfTidied("### Autonomous orchestration directives\n", a.autonomousOrchestrationBlock, "\n\n");
  }

  /** The prompt depends on its optional blocks only without their outer white space, and a blank one is like none. */
  lemma BlankIsAbsent(a: PromptArgs, w: Wording)
    ensures BuildPrompt(TidiedArgs(a), w) == BuildPrompt(a, w)
  {
    SystemPartsOfTidied(a, w);
    OrchestrationOfTidied(a);
    BlockOfTidied("", a.responsePlanBlock, "\n\n");
    BlockOfTidied("### Universal capability routing\n", a.capabilityRoutingBlock, "\n\n");
    BlockOfTidied("### Internal reasoning trace\n", a.reasoningTrace, "\n");
  }
}
