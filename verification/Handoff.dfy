/**
 packages/explore-action-handoff/src/index.ts: the versioned handoff contract. JSON is a tree of values; an absent
 property and an undefined one are the same, and an array is an object none of whose property names are read here.
 */
module Handoff {
  import opened Wrappers
  import opened Text

  /** A property name: those that are read or written here, or any other. */
  datatype Property =
    | Version | SourceSurface | SourceSubsurface | ActionType | UnitId | UnitSessionId
    | PreviewContext | ReviewContext | PresentationContext | ImprovementContext | ContinuityContext | PreviewMode
    | Mode | PreviewConfidence | Confidence | ReasonCode | ReasonLabel | Decision
    | PreviewAllowed | PublishAllowed | CurrentViewportMode | Viewport | CompareModeEnabled | CompareMode
    | Fullscreen | ExplicitIntent | Intent | UserVisiblePromptSeed | UserPromptSeed | ReturnSurface
    | RestoreUnitId | RestoreViewMode | RestoreViewport | RestoreCompareMode
    | OtherProperty(name: string)

  datatype Json =
    | Null
    | Bool(b: bool)
    | Number(n: real)
    | Str(s: string)
    | Arr(items: seq<Json>)
    | Obj(fields: map<Property, Json>)

  datatype Subsurface = Grid | Detail | FullscreenPreview | CompareModeView

  datatype ActionType =
    | OpenStudio | Improve | AskMalv | ContinueInChat | OptimizeMobileAction | TightenSpacingAction
    | EnhanceHierarchyAction | DebugPreviewIssue | ExplainReviewOutcome

  datatype PreviewMode = Live | Static | StructuredFallback | TechnicalFallback

  datatype Confidence = High | Medium | Low

  datatype Viewport = Fit | Mobile | Tablet | Desktop

  datatype Intent = GenericImprove | OptimizeMobile | TightenSpacing | EnhanceHierarchy

  datatype Preview = Preview(mode: PreviewMode, confidence: Confidence, reasonCode: Option<string>,
    reasonLabel: Option<string>)

  datatype Review = Review(decision: string, previewAllowed: bool, publishAllowed: bool)

  datatype Presentation = Presentation(viewport: Viewport, compareMode: bool, fullscreen: bool)

  datatype Improvement = Improvement(intent: Intent, userPromptSeed: string)

  datatype Continuity = Continuity(restoreUnitId: string, restoreViewport: string, restoreCompareMode: bool)

  /** The canonical record, version 2. Its constant fields (`v`, `sourceSurface`, `returnSurface`) are left implicit. */
  datatype Context = Context(
    sourceSubsurface: Subsurface,
    actionType: ActionType,
    unitId: string,
    unitSessionId: string,
    preview: Preview,
    review: Review,
    presentation: Presentation,
    improvement: Option<Improvement>,
    continuity: Continuity)

  // ---------- Enumerations and their spellings ----------

  function SubsurfaceName(x: Subsurface): string {
    match x case Grid => "grid" case Detail => "detail" case FullscreenPreview => "fullscreen_preview"
      case CompareModeView => "compare_mode"
  }

  function ActionName(x: ActionType): string {
    match x
    case OpenStudio => "open_studio" case Improve => "improve" case AskMalv => "ask_malv"
      case ContinueInChat => "continue_in_chat"
    case OptimizeMobileAction => "optimize_mobile" case TightenSpacingAction => "tighten_spacing_typography"
    case EnhanceHierarchyAction => "enhance_visual_hierarchy" case DebugPreviewIssue => "debug_preview_issue"
    case ExplainReviewOutcome => "explain_review_outcome"
  }

  function ModeName(x: PreviewMode): string {
    match x case Live => "live" case Static => "static" case StructuredFallback => "structured_fallback"
      case TechnicalFallback => "technical_fallback"
  }

  function ConfidenceName(x: Confidence): string {
    match x case High => "high" case Medium => "medium" case Low => "low"
  }

  function ViewportName(x: Viewport): string {
    match x case Fit => "fit" case Mobile => "mobile" case Tablet => "tablet" case Desktop => "desktop"
  }

  function IntentName(x: Intent): string {
    match x
    case GenericImprove => "generic_improve" case OptimizeMobile => "optimize_mobile"
    case TightenSpacing => "tighten_spacing_typography" case EnhanceHierarchy => "enhance_visual_hierarchy"
  }

  /** The value among `all` that `s` spells, if any. */
  function Spelled<T>(name: T -> string, all: seq<T>, s: string): (r: Option<T>)
    ensures r.Some? ==> name(r.value) == s && r.value in all
  {
    if all == [] then None else if name(all[0]) == s then Some(all[0]) else Spelled(name, all[1..], s)
  }

  function ParseSubsurface(s: string): Option<Subsurface> {
    Spelled(SubsurfaceName, [Grid, Detail, FullscreenPreview, CompareModeView], s)
  }

  function ParseAction(s: string): Option<ActionType> {
    Spelled(ActionName,
            [OpenStudio, Improve, AskMalv, ContinueInChat, OptimizeMobileAction, TightenSpacingAction,
             EnhanceHierarchyAction,
             DebugPreviewIssue, ExplainReviewOutcome], s)
  }

  function ParseMode(s: string): Option<PreviewMode> {
    Spelled(ModeName, [Live, Static, StructuredFallback, TechnicalFallback], s)
  }

  function ParseConfidence(s: string): Option<Confidence> { Spelled(ConfidenceName, [High, Medium, Low], s) }

  function ParseViewport(s: string): Option<Viewport> { Spelled(ViewportName, [Fit, Mobile, Tablet, Desktop], s) }

  function ParseIntent(s: string): Option<Intent> {
    Spelled(IntentName, [GenericImprove, OptimizeMobile, TightenSpacing, EnhanceHierarchy], s)
  }

  /** A spelling that no other value shares reads back as the value it spells. */
  lemma {:induction false} SpelledBack<T>(name: T -> string, all: seq<T>, x: T)
    requires x in all && forall y :: y in all && name(y) == name(x) ==> y == x
    ensures Spelled(name, all, name(x)) == Some(x)
  {
    if all[0] != x { SpelledBack(name, all[1..], x); }
  }

  lemma ActionNamesDiffer(x: ActionType, y: ActionType)
    requires ActionName(x) == ActionName(y)
    ensures x == y
  {
    assert ActionName(x)[0] == ActionName(y)[0] && ActionName(x)[1] == ActionName(y)[1];
  }

  lemma ActionReads(x: ActionType)
    ensures ParseAction(ActionName(x)) == Some(x)
  {
    var all := [OpenStudio, Improve, AskMalv, ContinueInChat, OptimizeMobileAction, TightenSpacingAction,
      EnhanceHierarchyAction,
                DebugPreviewIssue, ExplainReviewOutcome];
    assert x == all[0] || x == all[1] || x == all[2] || x == all[3] || x == all[4] || x == all[5] || x == all[6]
        || x == all[7] || x == all[8];
    forall y | y in all && ActionName(y) == ActionName(x) ensures y == x { ActionNamesDiffer(x, y); }
    SpelledBack(ActionName, all, x);
  }

  lemma SubsurfaceReads(x: Subsurface)
    ensures ParseSubsurface(SubsurfaceName(x)) == Some(x)
  {
    var all := [Grid, Detail, FullscreenPreview, CompareModeView];
    assert x == all[0] || x == all[1] || x == all[2] || x == all[3];
    forall y | y in all && SubsurfaceName(y) == SubsurfaceName(x)
      ensures y == x
    {
      assert SubsurfaceName(y)[0] == SubsurfaceName(x)[0];
    }
    SpelledBack(SubsurfaceName, all, x);
  }

  lemma ModeReads(x: PreviewMode)
    ensures ParseMode(ModeName(x)) == Some(x)
  {
    var all := [Live, Static, StructuredFallback, TechnicalFallback];
    assert x == all[0] || x == all[1] || x == all[2] || x == all[3];
    forall y | y in all && ModeName(y) == ModeName(x) ensures y == x { assert ModeName(y)[2] == ModeName(x)[2]; }
    SpelledBack(ModeName, all, x);
  }

  lemma ConfidenceReads(x: Confidence)
    ensures ParseConfidence(ConfidenceName(x)) == Some(x)
  {
    var all := [High, Medium, Low];
    assert x == all[0] || x == all[1] || x == all[2];
    forall y | y in all && ConfidenceName(y) == ConfidenceName(x)
      ensures y == x
    {
      assert ConfidenceName(y)[0] == ConfidenceName(x)[0];
    }
    SpelledBack(ConfidenceName, all, x);
  }

  lemma ViewportReads(x: Viewport)
    ensures ParseViewport(ViewportName(x)) == Some(x)
  {
    var all := [Fit, Mobile, Tablet, Desktop];
    assert x == all[0] || x == all[1] || x == all[2] || x == all[3];
    forall y | y in all && ViewportName(y) == ViewportName(x)
      ensures y == x
    {
      assert ViewportName(y)[0] == ViewportName(x)[0];
    }
    SpelledBack(ViewportName, all, x);
  }

  lemma IntentReads(x: Intent)
    ensures ParseIntent(IntentName(x)) == Some(x)
  {
    var all := [GenericImprove, OptimizeMobile, TightenSpacing, EnhanceHierarchy];
    assert x == all[0] || x == all[1] || x == all[2] || x == all[3];
    forall y | y in all && IntentName(y) == IntentName(x)
      ensures y == x
    {
      assert IntentName(y)[0] == IntentName(x)[0];
    }
    SpelledBack(IntentName, all, x);
  }

  // ---------- Property access ----------

  predicate IsObject(j: Json) { j.Obj? || j.Arr? }

  /** `j.key`, with None for undefined. */
  function Get(j: Json, key: Property): Option<Json> {
    if j.Obj? && key in j.fields then Some(j.fields[key]) else None
  }

  /** `typeof j.key === "string" ? j.key : undefined`. */
  function GetStr(j: Json, key: Property): Option<string> {
    var v := Get(j, key);
    if v.Some? && v.value.Str? then Some(v.value.s) else None
  }

  predicate IsTrue(j: Json, key: Property) { Get(j, key) == Some(Bool(true)) }

  predicate IsFalse(j: Json, key: Property) { Get(j, key) == Some(Bool(false)) }

  /** `j.key && typeof j.key === "object"`. */
  function GetObject(j: Json, key: Property): Option<Json> {
    var v := Get(j, key);
    if v.Some? && IsObject(v.value) then v else None
  }

  function NonBlank(s: Option<string>): Option<string> {
    if s.Some? && Trim(s.value) != "" then Some(Trim(s.value)) else None
  }

  /** The first of two properties that is a string, or the empty string. */
  function FirstStr(j: Json, key: Property, fallback: Property): string {
    GetStr(j, key).GetOr(GetStr(j, fallback).GetOr(""))
  }

  // ---------- Version 1 ----------

  /** normalizeActionTypeV1, with its caller's default. */
  function LegacyAction(raw: Option<string>): ActionType {
    match raw
    case None => OpenStudio
    case Some(s) =>
      if s == "generic_improve" || s == "improve" then Improve
      else if s == "debug_preview" then DebugPreviewIssue
      else if s == "explain_review" then ExplainReviewOutcome
      else ParseAction(s).GetOr(OpenStudio)
  }

  function LegacyPreview(prev: Option<Json>): Preview {
    match prev
    case None => Preview(TechnicalFallback, Low, None, None)
    case Some(p) =>
      Preview(
        ParseMode(FirstStr(p, Property.PreviewMode, Property.Mode)).GetOr(TechnicalFallback),
        ParseConfidence(FirstStr(p, Property.PreviewConfidence, Property.Confidence)).GetOr(Low),
        NonBlank(GetStr(p, Property.ReasonCode)), NonBlank(GetStr(p, Property.ReasonLabel)))
  }

  function LegacyReview(rev: Option<Json>): Review {
    match rev
    case None => Review("", false, false)
    case Some(r) => Review(GetStr(r, Property.Decision).GetOr(""), IsTrue(r, Property.PreviewAllowed),
      IsTrue(r, Property.PublishAllowed))
  }

  function LegacyPresentation(pres: Option<Json>): Presentation {
    match pres
    case None => Presentation(Fit, false, false)
    case Some(p) =>
      Presentation(
        ParseViewport(FirstStr(p, Property.CurrentViewportMode, Property.Viewport)).GetOr(Fit),
        IsTrue(p, Property.CompareModeEnabled) || IsTrue(p, Property.CompareMode), IsTrue(p, Property.Fullscreen))
  }

  function LegacyImprovement(imp: Option<Json>): Option<Improvement> {
    match imp
    case None => None
    case Some(i) =>
      var intent := ParseIntent(FirstStr(i, Property.ExplicitIntent, Property.Intent)).GetOr(GenericImprove);
      var seed := FirstStr(i, Property.UserVisiblePromptSeed, Property.UserPromptSeed);
      if Trim(seed) == "" then None else Some(Improvement(intent, seed))
  }

  function LegacyContinuity(cont: Option<Json>, unitId: string, presentation: Presentation): Continuity {
    var viewport := ViewportName(presentation.viewport);
    match cont
    case None => Continuity(unitId, viewport, presentation.compareMode)
    case Some(c) =>
      Continuity(
        NonBlank(GetStr(c, Property.RestoreUnitId)).GetOr(unitId),
        NonBlank(Some(FirstStr(c, Property.RestoreViewMode, Property.RestoreViewport))).GetOr(viewport),
        if IsTrue(c, Property.RestoreCompareMode) then true
        else if IsFalse(c, Property.RestoreCompareMode) then false
        else presentation.compareMode)
  }

  function MigrateV1(r: Json): Option<Context> {
    var unitId, sessionId := Trim(GetStr(r, Property.UnitId).GetOr("")),
      Trim(GetStr(r, Property.UnitSessionId).GetOr(""));
    if Get(r, Property.SourceSurface) != Some(Str("explore")) || unitId == "" || sessionId == "" then None
    else
      var presentation := LegacyPresentation(GetObject(r, Property.PresentationContext));
      Some(Context(
        ParseSubsurface(GetStr(r, Property.SourceSubsurface).GetOr("detail")).GetOr(Detail),
        LegacyAction(GetStr(r, Property.ActionType)),
        unitId, sessionId,
        LegacyPreview(GetObject(r, Property.PreviewContext)),
        LegacyReview(GetObject(r, Property.ReviewContext)),
        presentation,
        LegacyImprovement(GetObject(r, Property.ImprovementContext)),
        LegacyContinuity(GetObject(r, Property.ContinuityContext), unitId, presentation)))
  }

  method MigratePreviewFields(prev: Option<Json>) returns (p: Preview)
    ensures p == LegacyPreview(prev)
  {
    var mode, confidence, reasonCode, reasonLabel := TechnicalFallback, Low, None, None;
    if prev.Some? {
      var pm := ParseMode(FirstStr(prev.value, Property.PreviewMode, Property.Mode));
      if pm.Some? { mode := pm.value; }
      var cf := ParseConfidence(FirstStr(prev.value, Property.PreviewConfidence, Property.Confidence));
      if cf.Some? { confidence := cf.value; }
      reasonCode := NonBlank(GetStr(prev.value, Property.ReasonCode));
      reasonLabel := NonBlank(GetStr(prev.value, Property.ReasonLabel));
    }
    return Preview(mode, confidence, reasonCode, reasonLabel);
  }

  method MigrateReviewFields(rev: Option<Json>) returns (r: Review)
    ensures r == LegacyReview(rev)
  {
    var decision, previewAllowed, publishAllowed := "", false, false;
    if rev.Some? {
      decision := GetStr(rev.value, Property.Decision).GetOr("");
      if IsTrue(rev.value, Property.PreviewAllowed) { previewAllowed := true; }
      if IsTrue(rev.value, Property.PublishAllowed) { publishAllowed := true; }
    }
    return Review(decision, previewAllowed, publishAllowed);
  }

  method MigratePresentationFields(pres: Option<Json>) returns (p: Presentation)
    ensures p == LegacyPresentation(pres)
  {
    var viewport, compareMode, fullscreen := Fit, false, false;
    if pres.Some? {
      var vm := ParseViewport(FirstStr(pres.value, Property.CurrentViewportMode, Property.Viewport));
      if vm.Some? { viewport := vm.value; }
      if IsTrue(pres.value, Property.CompareModeEnabled) || IsTrue(pres.value, Property.CompareMode) {
        compareMode := true;
      }
      if IsTrue(pres.value, Property.Fullscreen) { fullscreen := true; }
    }
    return Presentation(viewport, compareMode, fullscreen);
  }

  method MigrateContinuityFields(cont: Option<Json>, unitId: string, presentation: Presentation) returns (c: Continuity)
    ensures c == LegacyContinuity(cont, unitId, presentation)
  {
    var restoreUnitId, restoreViewport := unitId, ViewportName(presentation.viewport);
    var restoreCompareMode := presentation.compareMode;
    if cont.Some? {
      var id := NonBlank(GetStr(cont.value, Property.RestoreUnitId));
      if id.Some? { restoreUnitId := id.value; }
      var rv := NonBlank(Some(FirstStr(cont.value, Property.RestoreViewMode, Property.RestoreViewport)));
      if rv.Some? { restoreViewport := rv.value; }
      if IsTrue(cont.value, Property.RestoreCompareMode) { restoreCompareMode := true; }
      else if IsFalse(cont.value, Property.RestoreCompareMode) { restoreCompareMode := false; }
    }
    return Continuity(restoreUnitId, restoreViewport, restoreCompareMode);
  }

  /** migrateV1ToV2 as the source writes it: defaults first, then section by section. */
  method MigrateV1ToV2(r: Json) returns (h: Option<Context>)
    ensures h == MigrateV1(r)
  {
    if Get(r, Property.SourceSurface) != Some(Str("explore")) { return None; }
    var unitId := Trim(GetStr(r, Property.UnitId).GetOr(""));
    var unitSessionId := Trim(GetStr(r, Property.UnitSessionId).GetOr(""));
    if unitId == "" || unitSessionId == "" { return None; }
    var actionType := LegacyAction(GetStr(r, Property.ActionType));
    var sourceSubsurface := ParseSubsurface(GetStr(r, Property.SourceSubsurface).GetOr("detail")).GetOr(Detail);
    var preview := MigratePreviewFields(GetObject(r, Property.PreviewContext));
    var review := MigrateReviewFields(GetObject(r, Property.ReviewContext));
    var presentation := MigratePresentationFields(GetObject(r, Property.PresentationContext));
    var improvement := LegacyImprovement(GetObject(r, Property.ImprovementContext));
    var continuity := MigrateContinuityFields(GetObject(r, Property.ContinuityContext), unitId, presentation);
    h := Some(Context(sourceSubsurface, actionType, unitId, unitSessionId, preview, review, presentation,
      improvement, continuity));
  }

  // ---------- Version 2 ----------

  function StrictPreview(j: Option<Json>): Option<Preview> {
    match j
    case None => None
    case Some(p) =>
      var mode, confidence := ParseMode(GetStr(p, Property.Mode).GetOr("")),
        ParseConfidence(GetStr(p, Property.Confidence).GetOr(""));
      if mode.None? || confidence.None? then None
      else Some(Preview(mode.value, confidence.value, NonBlank(GetStr(p, Property.ReasonCode)),
        NonBlank(GetStr(p, Property.ReasonLabel))))
  }

  function StrictPresentation(j: Option<Json>): Option<Presentation> {
    match j
    case None => None
    case Some(p) =>
      var viewport := ParseViewport(GetStr(p, Property.Viewport).GetOr(""));
      if viewport.None? then None
      else Some(Presentation(viewport.value, IsTrue(p, Property.CompareMode), IsTrue(p, Property.Fullscreen)))
  }

  function StrictContinuity(j: Option<Json>): Option<Continuity> {
    match j
    case None => None
    case Some(c) =>
      var unitId, viewport := Trim(GetStr(c, Property.RestoreUnitId).GetOr("")),
        GetStr(c, Property.RestoreViewport).GetOr("");
      if Get(c, Property.ReturnSurface) != Some(Str("explore_detail")) || unitId == "" || viewport == "" then None
      else Some(Continuity(unitId, viewport, IsTrue(c, Property.RestoreCompareMode)))
  }

  function StrictImprovement(j: Option<Json>): Option<Improvement> {
    match j
    case None => None
    case Some(i) =>
      var intent, seed := ParseIntent(GetStr(i, Property.Intent).GetOr("")),
        GetStr(i, Property.UserPromptSeed).GetOr("");
      if intent.None? || Trim(seed) == "" then None else Some(Improvement(intent.value, seed))
  }

  function NormalizeV2(r: Json): Option<Context> {
    var unitId, sessionId := Trim(GetStr(r, Property.UnitId).GetOr("")),
      Trim(GetStr(r, Property.UnitSessionId).GetOr(""));
    var action := ParseAction(GetStr(r, Property.ActionType).GetOr(""));
    var sub := ParseSubsurface(GetStr(r, Property.SourceSubsurface).GetOr(""));
    var preview := StrictPreview(GetObject(r, Property.PreviewContext));
    var review := GetObject(r, Property.ReviewContext);
    var presentation := StrictPresentation(GetObject(r, Property.PresentationContext));
    var continuity := StrictContinuity(GetObject(r, Property.ContinuityContext));
    if Get(r, Property.SourceSurface) != Some(Str("explore")) || unitId == "" || sessionId == "" then None
    else if action.None? || sub.None? || preview.None? || review.None? || presentation.None? || continuity.None?
      then None
    else
      Some(Context(
        sub.value, action.value, unitId, sessionId, preview.value, LegacyReview(review), presentation.value,
        StrictImprovement(GetObject(r, Property.ImprovementContext)), continuity.value))
  }

  /** normalizeExploreHandoffPayload. */
  function Normalize(input: Json): Option<Context> {
    if !IsObject(input) then None
    else if Get(input, Property.Version) == Some(Number(1.0)) then MigrateV1(input)
    else if Get(input, Property.Version) == Some(Number(2.0)) then NormalizeV2(input)
    else None
  }

  // ---------- Encoding ----------

  function OptField(key: Property, v: Option<string>): map<Property, Json> {
    if v.Some? then map[key := Str(v.value)] else map[]
  }

  function PreviewObject(mode: string, confidence: string, code: Option<string>, legend: Option<string>): Json {
    Obj(map[Property.Mode := Str(mode), Property.Confidence := Str(confidence)]
        + OptField(Property.ReasonCode, code) + OptField(Property.ReasonLabel, legend))
  }

  function EncodePreview(p: Preview): Json {
    PreviewObject(ModeName(p.mode), ConfidenceName(p.confidence), p.reasonCode, p.reasonLabel)
  }

  function EncodeReview(r: Review): Json {
    Obj(map[Property.Decision := Str(r.decision), Property.PreviewAllowed := Bool(r.previewAllowed),
      Property.PublishAllowed := Bool(r.publishAllowed)])
  }

  function EncodePresentation(p: Presentation): Json {
    Obj(map[Property.Viewport := Str(ViewportName(p.viewport)), Property.CompareMode := Bool(p.compareMode),
      Property.Fullscreen := Bool(p.fullscreen)])
  }

  function EncodeImprovement(i: Improvement): Json {
    Obj(map[Property.Intent := Str(IntentName(i.intent)), Property.UserPromptSeed := Str(i.userPromptSeed)])
  }

  function EncodeContinuity(c: Continuity): Json {
    Obj(map[Property.ReturnSurface := Str("explore_detail"), Property.RestoreUnitId := Str(c.restoreUnitId),
            Property.RestoreViewport := Str(c.restoreViewport),
            Property.RestoreCompareMode := Bool(c.restoreCompareMode)])
  }

  function RecordObject(version: real, sub: string, action: string, unitId: string, sessionId: string,
                        preview: Json, review: Json, presentation: Json, continuity: Json,
                        improvement: Option<Json>): Json {
    var fields := map[
      Property.Version := Number(version), Property.SourceSurface := Str("explore"),
      Property.SourceSubsurface := Str(sub), Property.ActionType := Str(action),
      Property.UnitId := Str(unitId), Property.UnitSessionId := Str(sessionId),
      Property.PreviewContext := preview, Property.ReviewContext := review,
      Property.PresentationContext := presentation, Property.ContinuityContext := continuity];
    Obj(if improvement.Some? then fields[Property.ImprovementContext := improvement.value] else fields)
  }

  /** serializeExploreHandoffForMalvTransport at the level of values, tagged with a version. */
  function EncodeAs(version: real, h: Context): Json {
    RecordObject(
      version, SubsurfaceName(h.sourceSubsurface), ActionName(h.actionType), h.unitId, h.unitSessionId,
      EncodePreview(h.preview), EncodeReview(h.review), EncodePresentation(h.presentation),
      EncodeContinuity(h.continuity),
      if h.improvement.Some? then Some(EncodeImprovement(h.improvement.value)) else None)
  }

  function Encode(h: Context): Json { EncodeAs(2.0, h) }

  // ---------- Canonical records ----------

  ghost predicate Name(s: string) { s != "" && Trimmed(s) }

  ghost predicate CanonicalPreview(p: Preview) {
    (p.reasonCode.Some? ==> Name(p.reasonCode.value)) && (p.reasonLabel.Some? ==> Name(p.reasonLabel.value))
  }

  ghost predicate CanonicalContinuity(c: Continuity) { Name(c.restoreUnitId) && c.restoreViewport != "" }

  /** The records that the decoders produce. */
  ghost predicate Canonical(h: Context) {
    && Name(h.unitId) && Name(h.unitSessionId)
    && CanonicalPreview(h.preview) && CanonicalContinuity(h.continuity)
    && (h.improvement.Some? ==> Trim(h.improvement.value.userPromptSeed) != "")
  }

  lemma NonBlankIsName(s: Option<string>)
    ensures NonBlank(s).Some? ==> Name(NonBlank(s).value)
    ensures NonBlank(s) == s <==> s.None? || Name(s.value)
  {
    if s.Some? {
      TrimIdempotent(s.value);
      if Trimmed(s.value) { TrimOfTrimmed(s.value); }
    }
  }

  lemma TrimIsName(s: string)
    ensures Trim(s) != "" ==> Name(Trim(s))
    ensures Trim(s) != "" && Trim(s) == s <==> Name(s)
  {
    NonBlankIsName(Some(s));
  }

  lemma MigratedIsCanonical(r: Json)
    ensures MigrateV1(r).Some? ==> Canonical(MigrateV1(r).value)
  {
    TrimIsName(GetStr(r, Property.UnitId).GetOr(""));
    TrimIsName(GetStr(r, Property.UnitSessionId).GetOr(""));
    if MigrateV1(r).Some? {
      LegacyPartsAreCanonical(
        GetObject(r, Property.PreviewContext), GetObject(r, Property.ContinuityContext),
        MigrateV1(r).value.unitId, MigrateV1(r).value.presentation);
    }
  }

  lemma LegacyPartsAreCanonical(p: Option<Json>, c: Option<Json>, unitId: string, presentation: Presentation)
    requires Name(unitId)
    ensures CanonicalPreview(LegacyPreview(p)) && CanonicalContinuity(LegacyContinuity(c, unitId, presentation))
  {
    if p.Some? {
      NonBlankIsName(GetStr(p.value, Property.ReasonCode));
      NonBlankIsName(GetStr(p.value, Property.ReasonLabel));
    }
    if c.Some? {
      NonBlankIsName(GetStr(c.value, Property.RestoreUnitId));
      NonBlankIsName(Some(FirstStr(c.value, Property.RestoreViewMode, Property.RestoreViewport)));
    }
  }

  lemma StrictPartsAreCanonical(p: Option<Json>, c: Option<Json>)
    ensures StrictPreview(p).Some? ==> CanonicalPreview(StrictPreview(p).value)
    ensures StrictContinuity(c).Some? ==> CanonicalContinuity(StrictContinuity(c).value)
  {
    if p.Some? {
      NonBlankIsName(GetStr(p.value, Property.ReasonCode));
      NonBlankIsName(GetStr(p.value, Property.ReasonLabel));
    }
    if c.Some? { TrimIsName(GetStr(c.value, Property.RestoreUnitId).GetOr("")); }
  }

  lemma NormalizedV2IsCanonical(r: Json)
    ensures NormalizeV2(r).Some? ==> Canonical(NormalizeV2(r).value)
  {
    TrimIsName(GetStr(r, Property.UnitId).GetOr(""));
    TrimIsName(GetStr(r, Property.UnitSessionId).GetOr(""));
    StrictPartsAreCanonical(GetObject(r, Property.PreviewContext), GetObject(r, Property.ContinuityContext));
  }

  /** Whatever either decoder accepts is canonical. */
  lemma NormalizedIsCanonical(input: Json)
    ensures Normalize(input).Some? ==> Canonical(Normalize(input).value)
  {
    MigratedIsCanonical(input);
    NormalizedV2IsCanonical(input);
  }

  lemma PreviewFields(mode: string, confidence: string, code: Option<string>, legend: Option<string>)
    ensures var j := PreviewObject(mode, confidence, code, legend);
            && GetStr(j, Property.Mode) == Some(mode) == Some(FirstStr(j, Property.PreviewMode, Property.Mode))
            && GetStr(j, Property.Confidence) == Some(confidence)
               == Some(FirstStr(j, Property.PreviewConfidence, Property.Confidence))
            && GetStr(j, Property.ReasonCode) == code && GetStr(j, Property.ReasonLabel) == legend
  {
  }

  lemma PreviewReads(p: Preview)
    ensures StrictPreview(Some(EncodePreview(p))) == Some(LegacyPreview(Some(EncodePreview(p))))
    ensures LegacyPreview(Some(EncodePreview(p))) == p <==> CanonicalPreview(p)
  {
    PreviewFields(ModeName(p.mode), ConfidenceName(p.confidence), p.reasonCode, p.reasonLabel);
    ModeReads(p.mode);
    ConfidenceReads(p.confidence);
    NonBlankIsName(p.reasonCode);
    NonBlankIsName(p.reasonLabel);
  }

  lemma PresentationReads(p: Presentation)
    ensures StrictPresentation(Some(EncodePresentation(p))) == Some(p)
    ensures LegacyPresentation(Some(EncodePresentation(p))) == p
  {
    ViewportReads(p.viewport);
  }

  lemma ImprovementReads(i: Improvement)
    ensures StrictImprovement(Some(EncodeImprovement(i))) == if Trim(i.userPromptSeed) != "" then Some(i) else None
    ensures LegacyImprovement(Some(EncodeImprovement(i))) == StrictImprovement(Some(EncodeImprovement(i)))
  {
    IntentReads(i.intent);
  }

  lemma ContinuityReads(c: Continuity, unitId: string, p: Presentation)
    ensures StrictContinuity(Some(EncodeContinuity(c))) == Some(c) <==> CanonicalContinuity(c)
    ensures CanonicalContinuity(c) ==>
              (LegacyContinuity(Some(EncodeContinuity(c)), unitId, p) == c <==> Trimmed(c.restoreViewport))
  {
    TrimIsName(c.restoreUnitId);
    NonBlankIsName(Some(c.restoreUnitId));
    NonBlankIsName(Some(c.restoreViewport));
  }

  /** The properties of an encoded record. */
  lemma RecordFields(version: real, sub: string, action: string, unitId: string, sessionId: string,
                     preview: Json, review: Json, presentation: Json, continuity: Json, improvement: Option<Json>)
    requires IsObject(preview) && IsObject(review) && IsObject(presentation) && IsObject(continuity)
    requires improvement.Some? ==> IsObject(improvement.value)
    ensures var j := RecordObject(
              version, sub, action, unitId, sessionId, preview, review, presentation, continuity, improvement);
            && IsObject(j) && Get(j, Property.Version) == Some(Number(version))
            && Get(j, Property.SourceSurface) == Some(Str("explore"))
            && GetStr(j, Property.UnitId) == Some(unitId) && GetStr(j, Property.UnitSessionId) == Some(sessionId)
            && GetStr(j, Property.ActionType) == Some(action) && GetStr(j, Property.SourceSubsurface) == Some(sub)
            && GetObject(j, Property.PreviewContext) == Some(preview)
            && GetObject(j, Property.ReviewContext) == Some(review)
            && GetObject(j, Property.PresentationContext) == Some(presentation)
            && GetObject(j, Property.ContinuityContext) == Some(continuity)
            && GetObject(j, Property.ImprovementContext) == improvement
  {
  }

  lemma EncodedFields(version: real, h: Context)
    ensures var j := EncodeAs(version, h);
            && IsObject(j) && Get(j, Property.Version) == Some(Number(version))
            && Get(j, Property.SourceSurface) == Some(Str("explore"))
            && GetStr(j, Property.UnitId) == Some(h.unitId)
            && GetStr(j, Property.UnitSessionId) == Some(h.unitSessionId)
            && GetStr(j, Property.ActionType) == Some(ActionName(h.actionType))
            && GetStr(j, Property.SourceSubsurface) == Some(SubsurfaceName(h.sourceSubsurface))
            && GetObject(j, Property.PreviewContext) == Some(EncodePreview(h.preview))
            && GetObject(j, Property.ReviewContext) == Some(EncodeReview(h.review))
            && GetObject(j, Property.PresentationContext) == Some(EncodePresentation(h.presentation))
            && GetObject(j, Property.ContinuityContext) == Some(EncodeContinuity(h.continuity))
            && GetObject(j, Property.ImprovementContext) ==
                 if h.improvement.Some? then Some(EncodeImprovement(h.improvement.value)) else None
  {
    RecordFields(
      version, SubsurfaceName(h.sourceSubsurface), ActionName(h.actionType), h.unitId, h.unitSessionId,
      EncodePreview(h.preview), EncodeReview(h.review), EncodePresentation(h.presentation),
      EncodeContinuity(h.continuity),
      if h.improvement.Some? then Some(EncodeImprovement(h.improvement.value)) else None);
  }

  lemma ReviewReads(r: Review)
    ensures LegacyReview(Some(EncodeReview(r))) == r
  {
  }

  /** A record survives encoding and strict decoding if and only if it is canonical. */
  lemma StrictRoundTrip(h: Context)
    ensures Normalize(Encode(h)) == Some(h) <==> Canonical(h)
  {
    EncodedFields(2.0, h);
    ActionReads(h.actionType);
    SubsurfaceReads(h.sourceSubsurface);
    PreviewReads(h.preview);
    ReviewReads(h.review);
    PresentationReads(h.presentation);
    ContinuityReads(h.continuity, h.unitId, h.presentation);
    if h.improvement.Some? { ImprovementReads(h.improvement.value); }
    TrimIsName(h.unitId);
    TrimIsName(h.unitSessionId);
  }

  /**
   Normalising is idempotent over both versions: what it returns is a fixed point of encoding and normalising again.
   */
  lemma NormalizeIsIdempotent(input: Json)
    ensures Normalize(input).Some? ==> Normalize(Encode(Normalize(input).value)) == Normalize(input)
  {
    if Normalize(input).Some? {
      NormalizedIsCanonical(input);
      StrictRoundTrip(Normalize(input).value);
    }
  }

  lemma LegacyActionReads(x: ActionType)
    ensures LegacyAction(Some(ActionName(x))) == x
  {
    ActionReads(x);
  }

  /** The decoders agree on a canonical record re-tagged as version 1 iff its viewport to restore is trimmed. */
  lemma DecodersAgree(h: Context)
    requires Canonical(h)
    ensures Normalize(EncodeAs(1.0, h)) == Some(h) <==> Trimmed(h.continuity.restoreViewport)
  {
    EncodedFields(1.0, h);
    LegacyActionReads(h.actionType);
    SubsurfaceReads(h.sourceSubsurface);
    PreviewReads(h.preview);
    ReviewReads(h.review);
    PresentationReads(h.presentation);
    ContinuityReads(h.continuity, h.unitId, h.presentation);
    if h.improvement.Some? { ImprovementReads(h.improvement.value); }
    TrimIsName(h.unitId);
    TrimIsName(h.unitSessionId);
  }
}
