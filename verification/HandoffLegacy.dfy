/** What the handoff decoders accept, spelled out: the property names and the words of both versions. */
module HandoffLegacy {
  import opened Wrappers
  import opened Text
  import opened Handoff

  // ---------- An encoder that writes version 1 ----------

  function OldAction(x: ActionType): string {
    match x
    case OpenStudio => "open_studio"
    case Improve => "generic_improve"
    case AskMalv => "ask_malv"
    case ContinueInChat => "continue_in_chat"
    case OptimizeMobileAction => "optimize_mobile"
    case TightenSpacingAction => "tighten_spacing_typography"
    case EnhanceHierarchyAction => "enhance_visual_hierarchy"
    case DebugPreviewIssue => "debug_preview"
    case ExplainReviewOutcome => "explain_review"
  }

  function OldSubsurface(x: Subsurface): string {
    match x
    case Grid => "grid"
    case Detail => "detail"
    case FullscreenPreview => "fullscreen_preview"
    case CompareModeView => "compare_mode"
  }

  function OldPreview(p: Preview): Json {
    var mode := match p.mode
      case Live => "live"
      case Static => "static"
      case StructuredFallback => "structured_fallback"
      case TechnicalFallback => "technical_fallback";
    var confidence := match p.confidence case High => "high" case Medium => "medium" case Low => "low";
    Obj(map[Property.PreviewMode := Str(mode), Property.PreviewConfidence := Str(confidence)]
        + OptField(Property.ReasonCode, p.reasonCode) + OptField(Property.ReasonLabel, p.reasonLabel))
  }

  function OldPresentation(p: Presentation): Json {
    var viewport := match p.viewport
      case Fit => "fit"
      case Mobile => "mobile"
      case Tablet => "tablet"
      case Desktop => "desktop";
    Obj(map[Property.CurrentViewportMode := Str(viewport), Property.CompareModeEnabled := Bool(p.compareMode),
            Property.Fullscreen := Bool(p.fullscreen)])
  }

  function OldImprovement(i: Improvement): Json {
    var intent := match i.intent
      case GenericImprove => "generic_improve"
      case OptimizeMobile => "optimize_mobile"
      case TightenSpacing => "tighten_spacing_typography"
      case EnhanceHierarchy => "enhance_visual_hierarchy";
    Obj(map[Property.ExplicitIntent := Str(intent), Property.UserVisiblePromptSeed := Str(i.userPromptSeed)])
  }

  function OldContinuity(c: Continuity): Json {
    Obj(map[Property.RestoreUnitId := Str(c.restoreUnitId), Property.RestoreViewMode := Str(c.restoreViewport),
            Property.RestoreCompareMode := Bool(c.restoreCompareMode)])
  }

  function OldEncode(h: Context): Json {
    RecordObject(
      1.0, OldSubsurface(h.sourceSubsurface), OldAction(h.actionType), h.unitId, h.unitSessionId,
      OldPreview(h.preview), EncodeReview(h.review), OldPresentation(h.presentation), OldContinuity(h.continuity),
      if h.improvement.Some? then Some(OldImprovement(h.improvement.value)) else None)
  }

  // ---------- Reading it back ----------

  lemma OldActionReads(x: ActionType)
    ensures LegacyAction(Some(OldAction(x))) == x
  {
    if x.DebugPreviewIssue? || x.ExplainReviewOutcome? || x.Improve? {
    } else {
      OldActionIsNew(x);
      LegacyActionReads(x);
    }
  }

  lemma OldActionIsNew(x: ActionType)
    requires !x.DebugPreviewIssue? && !x.ExplainReviewOutcome? && !x.Improve?
    ensures OldAction(x) == ActionName(x)
  {
  }

  lemma OldSubsurfaceReads(x: Subsurface)
    ensures ParseSubsurface(OldSubsurface(x)) == Some(x)
  {
    SubsurfaceReads(x);
    assert OldSubsurface(x) == SubsurfaceName(x);
  }

  lemma OldPreviewReads(p: Preview)
    ensures LegacyPreview(Some(OldPreview(p))) == p <==> CanonicalPreview(p)
  {
    ModeReads(p.mode);
    ConfidenceReads(p.confidence);
    var j := OldPreview(p);
    assert GetStr(j, Property.PreviewMode) == Some(ModeName(p.mode));
    assert GetStr(j, Property.PreviewConfidence) == Some(ConfidenceName(p.confidence));
    assert GetStr(j, Property.ReasonCode) == p.reasonCode && GetStr(j, Property.ReasonLabel) == p.reasonLabel;
    NonBlankIsName(p.reasonCode);
    NonBlankIsName(p.reasonLabel);
  }

  lemma OldPresentationReads(p: Presentation)
    ensures LegacyPresentation(Some(OldPresentation(p))) == p
  {
    ViewportReads(p.viewport);
    assert GetStr(OldPresentation(p), Property.CurrentViewportMode) == Some(ViewportName(p.viewport));
  }

  lemma OldImprovementReads(i: Improvement)
    ensures LegacyImprovement(Some(OldImprovement(i))) == if Trim(i.userPromptSeed) != "" then Some(i) else None
  {
    IntentReads(i.intent);
    assert GetStr(OldImprovement(i), Property.ExplicitIntent) == Some(IntentName(i.intent));
  }

  lemma OldContinuityReads(c: Continuity, unitId: string, p: Presentation)
    requires CanonicalContinuity(c)
    ensures LegacyContinuity(Some(OldContinuity(c)), unitId, p) == c <==> Trimmed(c.restoreViewport)
  {
    TrimIsName(c.restoreUnitId);
    NonBlankIsName(Some(c.restoreUnitId));
    NonBlankIsName(Some(c.restoreViewport));
    TrimIdempotent(c.restoreViewport);
    var j := OldContinuity(c);
    assert GetStr(j, Property.RestoreViewMode) == Some(c.restoreViewport);
  }

  /**
   A canonical record written with the property names and action words of version 1 migrates to itself if and only if
   its viewport to restore is trimmed.
   */
  lemma OldEncodingMigrates(h: Context)
    requires Canonical(h)
    ensures Normalize(OldEncode(h)) == Some(h) <==> Trimmed(h.continuity.restoreViewport)
  {
    RecordFields(
      1.0, OldSubsurface(h.sourceSubsurface), OldAction(h.actionType), h.unitId, h.unitSessionId,
      OldPreview(h.preview), EncodeReview(h.review), OldPresentation(h.presentation), OldContinuity(h.continuity),
      if h.improvement.Some? then Some(OldImprovement(h.improvement.value)) else None);
    TrimIsName(h.unitId);
    TrimIsName(h.unitSessionId);
    OldActionReads(h.actionType);
    OldSubsurfaceReads(h.sourceSubsurface);
    OldPreviewReads(h.preview);
    ReviewReads(h.review);
    OldPresentationReads(h.presentation);
    if h.improvement.Some? { OldImprovementReads(h.improvement.value); }
    OldContinuityReads(h.continuity, h.unitId, h.presentation);
  }

  // ---------- Old names and new names ----------

  /** The string under the old name, or else under the new name, or else none. */
  lemma FirstStrExactly(f: map<Property, Json>, former: Property, newer: Property)
    ensures FirstStr(Obj(f), former, newer) ==
              if former in f && f[former].Str? then f[former].s
              else if newer in f && f[newer].Str? then f[newer].s
              else ""
  {
  }

  lemma PreviewByNames(j: Json, k: Json)
    requires FirstStr(j, Property.PreviewMode, Property.Mode) == FirstStr(k, Property.PreviewMode, Property.Mode)
    requires FirstStr(j, Property.PreviewConfidence, Property.Confidence)
             == FirstStr(k, Property.PreviewConfidence, Property.Confidence)
    requires GetStr(j, Property.ReasonCode) == GetStr(k, Property.ReasonCode)
    requires GetStr(j, Property.ReasonLabel) == GetStr(k, Property.ReasonLabel)
    ensures LegacyPreview(Some(j)) == LegacyPreview(Some(k))
  {
  }

  /** Two preview objects with the same strings under the old names and the same reasons migrate alike. */
  lemma OldPreviewNamesWin(f: map<Property, Json>, g: map<Property, Json>)
    requires GetStr(Obj(f), Property.PreviewMode) == GetStr(Obj(g), Property.PreviewMode) != None
    requires GetStr(Obj(f), Property.PreviewConfidence) == GetStr(Obj(g), Property.PreviewConfidence) != None
    requires GetStr(Obj(f), Property.ReasonCode) == GetStr(Obj(g), Property.ReasonCode)
    requires GetStr(Obj(f), Property.ReasonLabel) == GetStr(Obj(g), Property.ReasonLabel)
    ensures LegacyPreview(Some(Obj(f))) == LegacyPreview(Some(Obj(g)))
  {
    PreviewByNames(Obj(f), Obj(g));
  }

  lemma OldPresentationNamesWin(f: map<Property, Json>, g: map<Property, Json>)
    requires GetStr(Obj(f), Property.CurrentViewportMode) == GetStr(Obj(g), Property.CurrentViewportMode) != None
    requires IsTrue(Obj(f), Property.CompareModeEnabled) && IsTrue(Obj(g), Property.CompareModeEnabled)
    requires IsTrue(Obj(f), Property.Fullscreen) == IsTrue(Obj(g), Property.Fullscreen)
    ensures LegacyPresentation(Some(Obj(f))) == LegacyPresentation(Some(Obj(g)))
  {
    var former, newer := Property.CurrentViewportMode, Property.Viewport;
    assert FirstStr(Obj(f), former, newer) == FirstStr(Obj(g), former, newer);
  }

  lemma OldImprovementNamesWin(f: map<Property, Json>, g: map<Property, Json>)
    requires GetStr(Obj(f), Property.ExplicitIntent) == GetStr(Obj(g), Property.ExplicitIntent) != None
    requires GetStr(Obj(f), Property.UserVisiblePromptSeed) == GetStr(Obj(g), Property.UserVisiblePromptSeed) != None
    ensures LegacyImprovement(Some(Obj(f))) == LegacyImprovement(Some(Obj(g)))
  {
    var former, newer := Property.ExplicitIntent, Property.Intent;
    assert FirstStr(Obj(f), former, newer) == FirstStr(Obj(g), former, newer);
  }

  lemma OldContinuityNamesWin(f: map<Property, Json>, g: map<Property, Json>, unitId: string, p: Presentation)
    requires GetStr(Obj(f), Property.RestoreViewMode) == GetStr(Obj(g), Property.RestoreViewMode) != None
    requires GetStr(Obj(f), Property.RestoreUnitId) == GetStr(Obj(g), Property.RestoreUnitId)
    requires Get(Obj(f), Property.RestoreCompareMode) == Get(Obj(g), Property.RestoreCompareMode)
    ensures LegacyContinuity(Some(Obj(f)), unitId, p) == LegacyContinuity(Some(Obj(g)), unitId, p)
  {
    var former, newer := Property.RestoreViewMode, Property.RestoreViewport;
    assert FirstStr(Obj(f), former, newer) == FirstStr(Obj(g), former, newer);
  }

  // ---------- Defaults ----------

  /** A version 1 payload with nothing but the surface and the two ids gets every default. */
  lemma BarePayloadMigrates(j: Json, unitId: string, sessionId: string)
    requires Get(j, Property.Version) == Some(Number(1.0)) && Get(j, Property.SourceSurface) == Some(Str("explore"))
    requires GetStr(j, Property.UnitId) == Some(unitId) && Trim(unitId) != ""
    requires GetStr(j, Property.UnitSessionId) == Some(sessionId) && Trim(sessionId) != ""
    requires GetStr(j, Property.SourceSubsurface) == GetStr(j, Property.ActionType) == None
    requires GetObject(j, Property.PreviewContext) == GetObject(j, Property.ReviewContext) == None
    requires GetObject(j, Property.PresentationContext) == GetObject(j, Property.ImprovementContext) == None
    requires GetObject(j, Property.ContinuityContext) == None
    ensures Normalize(j) == Some(Context(
              Detail, OpenStudio, Trim(unitId), Trim(sessionId), Preview(TechnicalFallback, Low, None, None),
              Review("", false, false), Presentation(Fit, false, false), None,
              Continuity(Trim(unitId), "fit", false)))
  {
    SubsurfaceReads(Detail);
    assert SubsurfaceName(Detail) == "detail";
  }

  /** An action word of neither version opens the studio; an improvement with an unknown intent is a generic one. */
  lemma UnknownWords(action: string, i: Json)
    requires forall x :: action != ActionName(x) && action != OldAction(x)
    requires action != "improve"
    ensures LegacyAction(Some(action)) == OpenStudio
    ensures (forall x :: FirstStr(i, Property.ExplicitIntent, Property.Intent) != IntentName(x))
            && Trim(FirstStr(i, Property.UserVisiblePromptSeed, Property.UserPromptSeed)) != ""
            ==> LegacyImprovement(Some(i)) == Some(Improvement(
                  GenericImprove, FirstStr(i, Property.UserVisiblePromptSeed, Property.UserPromptSeed)))
  {
    assert action != OldAction(Improve) && action != OldAction(DebugPreviewIssue);
    assert action != OldAction(ExplainReviewOutcome);
  }

  // ---------- What version 2 accepts ----------

  predicate HasWord(j: Json, key: Property, words: set<string>) {
    j.Obj? && key in j.fields && j.fields[key].Str? && j.fields[key].s in words
  }

  predicate HasText(j: Json, key: Property) {
    j.Obj? && key in j.fields && j.fields[key].Str? && Trim(j.fields[key].s) != ""
  }

  predicate HasSection(j: Json, key: Property) { j.Obj? && key in j.fields && IsObject(j.fields[key]) }

  lemma WordsOfPreview(j: Json)
    ensures StrictPreview(Some(j)).Some? <==>
              && HasWord(j, Property.Mode, {"live", "static", "structured_fallback", "technical_fallback"})
              && HasWord(j, Property.Confidence, {"high", "medium", "low"})
  {
    var mode, confidence := GetStr(j, Property.Mode).GetOr(""), GetStr(j, Property.Confidence).GetOr("");
    ModeWords(mode);
    ConfidenceWords(confidence);
  }

  lemma ModeWords(s: string)
    ensures ParseMode(s).Some? <==> s in {"live", "static", "structured_fallback", "technical_fallback"}
    ensures ParseMode(s).Some? ==> s != ""
  {
    ModeReads(Live);
    ModeReads(Static);
    ModeReads(StructuredFallback);
    ModeReads(TechnicalFallback);
  }

  lemma ConfidenceWords(s: string)
    ensures ParseConfidence(s).Some? <==> s in {"high", "medium", "low"}
    ensures ParseConfidence(s).Some? ==> s != ""
  {
    ConfidenceReads(High);
    ConfidenceReads(Medium);
    ConfidenceReads(Low);
  }

  lemma ViewportWords(s: string)
    ensures ParseViewport(s).Some? <==> s in {"fit", "mobile", "tablet", "desktop"}
    ensures ParseViewport(s).Some? ==> s != ""
  {
    ViewportReads(Fit);
    ViewportReads(Mobile);
    ViewportReads(Tablet);
    ViewportReads(Desktop);
  }

  lemma SubsurfaceWords(s: string)
    ensures ParseSubsurface(s).Some? <==> s in SUBSURFACE_WORDS
    ensures ParseSubsurface(s).Some? ==> s != ""
  {
    SubsurfaceReads(Grid);
    SubsurfaceReads(Detail);
    SubsurfaceReads(FullscreenPreview);
    SubsurfaceReads(CompareModeView);
  }

  const ACTION_WORDS := {
    "open_studio", "improve", "ask_malv", "continue_in_chat", "optimize_mobile", "tighten_spacing_typography",
    "enhance_visual_hierarchy", "debug_preview_issue", "explain_review_outcome"}

  const SUBSURFACE_WORDS := {"grid", "detail", "fullscreen_preview", "compare_mode"}

  lemma ActionWords(s: string)
    ensures ParseAction(s).Some? <==> s in ACTION_WORDS
  {
    if ParseAction(s).Some? {
      assert ActionName(ParseAction(s).value) == s;
    } else {
      forall x ensures ActionName(x) != s { ActionReads(x); }
      assert ActionName(OpenStudio) != s && ActionName(Improve) != s && ActionName(AskMalv) != s;
      assert ActionName(ContinueInChat) != s && ActionName(OptimizeMobileAction) != s;
      assert ActionName(TightenSpacingAction) != s && ActionName(EnhanceHierarchyAction) != s;
      assert ActionName(DebugPreviewIssue) != s && ActionName(ExplainReviewOutcome) != s;
    }
  }

  lemma WordsOfPresentation(j: Json)
    ensures StrictPresentation(Some(j)).Some?
            <==> HasWord(j, Property.Viewport, {"fit", "mobile", "tablet", "desktop"})
  {
    ViewportWords(GetStr(j, Property.Viewport).GetOr(""));
  }

  lemma WordsOfContinuity(j: Json)
    ensures StrictContinuity(Some(j)).Some? <==>
              && HasWord(j, Property.ReturnSurface, {"explore_detail"})
              && HasText(j, Property.RestoreUnitId)
              && GetStr(j, Property.RestoreViewport).GetOr("") != ""
  {
  }

  lemma NamesAndWords(j: Json)
    ensures Get(j, Property.SourceSurface) == Some(Str("explore")) <==> HasWord(j, Property.SourceSurface, {"explore"})
    ensures Trim(GetStr(j, Property.UnitId).GetOr("")) != "" <==> HasText(j, Property.UnitId)
    ensures Trim(GetStr(j, Property.UnitSessionId).GetOr("")) != "" <==> HasText(j, Property.UnitSessionId)
    ensures ParseAction(GetStr(j, Property.ActionType).GetOr("")).Some?
            <==> HasWord(j, Property.ActionType, ACTION_WORDS)
    ensures ParseSubsurface(GetStr(j, Property.SourceSubsurface).GetOr("")).Some?
            <==> HasWord(j, Property.SourceSubsurface, SUBSURFACE_WORDS)
  {
    ActionWords(GetStr(j, Property.ActionType).GetOr(""));
    SubsurfaceWords(GetStr(j, Property.SourceSubsurface).GetOr(""));
    assert "" !in ACTION_WORDS;
  }

  /** Which version 2 payloads are accepted: by their sections, words and names. */
  lemma AcceptedExactly(j: Json)
    requires Get(j, Property.Version) == Some(Number(2.0))
    ensures Normalize(j).Some? <==>
              && HasWord(j, Property.SourceSurface, {"explore"})
              && HasText(j, Property.UnitId) && HasText(j, Property.UnitSessionId)
              && HasWord(j, Property.ActionType, ACTION_WORDS)
              && HasWord(j, Property.SourceSubsurface, SUBSURFACE_WORDS)
              && HasSection(j, Property.PreviewContext) && StrictPreview(Some(j.fields[Property.PreviewContext])).Some?
              && HasSection(j, Property.ReviewContext)
              && HasSection(j, Property.PresentationContext)
              && StrictPresentation(Some(j.fields[Property.PresentationContext])).Some?
              && HasSection(j, Property.ContinuityContext)
              && StrictContinuity(Some(j.fields[Property.ContinuityContext])).Some?
  {
    NamesAndWords(j);
    SectionFound(j, Property.PreviewContext);
    SectionFound(j, Property.ReviewContext);
    SectionFound(j, Property.PresentationContext);
    SectionFound(j, Property.ContinuityContext);
    V2Accepts(j);
  }

  lemma SectionFound(j: Json, key: Property)
    ensures GetObject(j, key) == if HasSection(j, key) then Some(j.fields[key]) else None
  {
  }

  lemma V2Accepts(j: Json)
    ensures NormalizeV2(j).Some? <==>
              && Get(j, Property.SourceSurface) == Some(Str("explore"))
              && Trim(GetStr(j, Property.UnitId).GetOr("")) != ""
              && Trim(GetStr(j, Property.UnitSessionId).GetOr("")) != ""
              && ParseAction(GetStr(j, Property.ActionType).GetOr("")).Some?
              && ParseSubsurface(GetStr(j, Property.SourceSubsurface).GetOr("")).Some?
              && StrictPreview(GetObject(j, Property.PreviewContext)).Some?
              && GetObject(j, Property.ReviewContext).Some?
              && StrictPresentation(GetObject(j, Property.PresentationContext)).Some?
              && StrictContinuity(GetObject(j, Property.ContinuityContext)).Some?
  {
  }

  /** Version 1 asks for the surface and the two ids only; any other version is refused. */
  lemma AcceptedOtherwise(j: Json)
    requires Get(j, Property.Version) != Some(Number(2.0))
    ensures Normalize(j).Some? <==>
              && Get(j, Property.Version) == Some(Number(1.0))
              && HasWord(j, Property.SourceSurface, {"explore"})
              && HasText(j, Property.UnitId) && HasText(j, Property.UnitSessionId)
  {
    NamesAndWords(j);
  }
}
