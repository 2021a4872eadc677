/** Choosing an answer direction, from malv-broad-request-resolution.util.ts. Scores are exact reals. */
module Candidates {
  import opened StringHash
  import opened Wrappers

  datatype Kind =
    | ScientificMechanism
    | TechnicalSystem
    | SocialEconomicPhenomenon
    | PhilosophicalFramework
    | PracticalRealWorldProcess
    | HistoricalPattern
    | EverydayHiddenComplexity
  {
    function Name(): string {
      match this
      case ScientificMechanism => "scientific_mechanism"
      case TechnicalSystem => "technical_system"
      case SocialEconomicPhenomenon => "social_economic_phenomenon"
      case PhilosophicalFramework => "philosophical_framework"
      case PracticalRealWorldProcess => "practical_real_world_process"
      case HistoricalPattern => "historical_pattern"
      case EverydayHiddenComplexity => "everyday_hidden_complexity"
    }

    /** The place of the name in alphabetical order, which is what `localeCompare` goes by. */
    function Alphabetical(): nat {
      match this
      case EverydayHiddenComplexity => 0
      case HistoricalPattern => 1
      case PhilosophicalFramework => 2
      case PracticalRealWorldProcess => 3
      case ScientificMechanism => 4
      case SocialEconomicPhenomenon => 5
      case TechnicalSystem => 6
    }

    function Depth(): real {
      match this
      case ScientificMechanism => 0.92
      case TechnicalSystem => 0.9
      case EverydayHiddenComplexity => 0.88
      case PracticalRealWorldProcess => 0.86
      case HistoricalPattern => 0.82
      case SocialEconomicPhenomenon => 0.8
      case PhilosophicalFramework => 0.78
    }

    function Stepwise(): real {
      match this
      case TechnicalSystem => 0.95
      case PracticalRealWorldProcess => 0.93
      case ScientificMechanism => 0.9
      case EverydayHiddenComplexity => 0.88
      case HistoricalPattern => 0.84
      case SocialEconomicPhenomenon => 0.8
      case PhilosophicalFramework => 0.72
    }

    /** kindRelevanceToUserText, given how many of the kind's words the text contains. */
    function Relevance(hits: nat): real {
      match this
      case PhilosophicalFramework => 0.12 + 0.22 * hits as real
      case SocialEconomicPhenomenon => 0.12 + 0.22 * hits as real
      case HistoricalPattern => 0.12 + 0.22 * hits as real
      case TechnicalSystem => 0.12 + 0.18 * hits as real
      case ScientificMechanism => 0.12 + 0.2 * hits as real
      case PracticalRealWorldProcess => 0.12 + 0.18 * hits as real
      case EverydayHiddenComplexity => 0.18 + 0.12 * hits as real
    }

    function Safety(): real {
      match this
      case PhilosophicalFramework => 0.02
      case SocialEconomicPhenomenon => 0.04
      case _ => 0.08
    }
  }

  /** The taxonomy, in the order the source lists it. */
  const KINDS := [ScientificMechanism, TechnicalSystem, SocialEconomicPhenomenon, PhilosophicalFramework,
                  PracticalRealWorldProcess, HistoricalPattern, EverydayHiddenComplexity]

  /**
   * A request: the message, the word counts of the message and of the last turns (if there are any) for each kind,
   * and whether the message asks for steps.
   */
  datatype Request = Request(
    message: seq<CodeUnit>, hits: Kind -> nat, priorHits: Option<Kind -> nat>, wantsSteps: bool)

  function Score(k: Kind, q: Request): real {
    var context := match q.priorHits case None => 0.0 case Some(prior) => k.Relevance(prior(k)) * 0.85;
    k.Relevance(q.hits(k)) * 0.28 + k.Depth() * 0.18 + k.Stepwise() * 0.2 + 0.12
    + (k.Depth() + k.Stepwise()) * 0.07 + k.Depth() * 0.06
    + (if k == EverydayHiddenComplexity then 0.08 else 0.06)
    + k.Safety() + context * 0.15 + (if q.wantsSteps then k.Stepwise() * 0.08 else 0.0)
  }

  function Units(s: string): (r: seq<CodeUnit>)
    ensures |r| == |s|
  {
    seq(|s|, i requires 0 <= i < |s| => s[i] as int % 0x1_0000)
  }

  /** stableTieKey: the hash of `message::kind`, scaled to the unit interval. */
  function TieKey(k: Kind, message: seq<CodeUnit>): real {
    Hash(message + Units("::" + k.Name())) as real / 4294967295.0
  }

  /** The comparator of generateBroadAnswerCandidates is negative. */
  predicate KeyBefore(message: seq<CodeUnit>, a: Kind, b: Kind) {
    if TieKey(a, message) != TieKey(b, message) then TieKey(a, message) < TieKey(b, message)
    else a.Alphabetical() < b.Alphabetical()
  }

  /** The comparator of selectBestBroadAnswerCandidate is negative. */
  predicate Better(q: Request, a: Kind, b: Kind) {
    if Score(a, q) != Score(b, q) then Score(a, q) > Score(b, q)
    else if TieKey(a, q.message) != TieKey(b, q.message) then TieKey(a, q.message) > TieKey(b, q.message)
    else a.Alphabetical() < b.Alphabetical()
  }

  /** `Array.prototype.sort`, which is stable. */
  function Sort(before: (Kind, Kind) -> bool, s: seq<Kind>): (r: seq<Kind>)
    ensures multiset(r) == multiset(s) && |r| == |s|
  {
    if s == [] then []
    else
      assert s == s[..|s| - 1] + [s[|s| - 1]];
      Insert(before, Sort(before, s[..|s| - 1]), s[|s| - 1])
  }

  function Insert(before: (Kind, Kind) -> bool, s: seq<Kind>, x: Kind): (r: seq<Kind>)
    ensures multiset(r) == multiset(s + [x]) && |r| == |s| + 1
  {
    if s != [] && before(x, s[|s| - 1]) then
      assert s == s[..|s| - 1] + [s[|s| - 1]];
      Insert(before, s[..|s| - 1], x) + [s[|s| - 1]]
    else s + [x]
  }

  /** A strict order in which any two different kinds are comparable. */
  ghost predicate StrictOrder(before: (Kind, Kind) -> bool) { forall a, b, c :: OrderLaws(before, a, b, c) }

  ghost predicate OrderLaws(before: (Kind, Kind) -> bool, a: Kind, b: Kind, c: Kind) {
    && !before(a, a)
    && (before(a, b) && before(b, c) ==> before(a, c))
    && (a == b || before(a, b) || before(b, a))
  }

  ghost predicate Sorted(before: (Kind, Kind) -> bool, s: seq<Kind>) {
    forall i, j :: 0 <= i < j < |s| ==> !before(s[j], s[i])
  }

  lemma SmallerAlphabetical(a: Kind, b: Kind)
    ensures a.Alphabetical() == b.Alphabetical() ==> a == b
  {
  }

  /** Nothing in the list comes after x. */
  ghost predicate NoneAfter(before: (Kind, Kind) -> bool, s: seq<Kind>, x: Kind) {
    forall y :: y in s ==> !before(x, y)
  }

  lemma InsertKeepsSorted(before: (Kind, Kind) -> bool, s: seq<Kind>, x: Kind)
    requires StrictOrder(before) && Sorted(before, s)
    ensures Sorted(before, Insert(before, s, x))
    decreases |s|
  {
    if s != [] && before(x, s[|s| - 1]) {
      var rest, y := s[..|s| - 1], s[|s| - 1];
      InsertKeepsSorted(before, rest, x);
      assert OrderLaws(before, x, y, x);
      forall z | z in Insert(before, rest, x) ensures !before(y, z) { InsertMembers(before, rest, x, z); }
      AppendLast(before, Insert(before, rest, x), y);
    } else if s != [] {
      LastIsLast(before, s, x);
      AppendLast(before, s, x);
    }
  }

  lemma InsertMembers(before: (Kind, Kind) -> bool, s: seq<Kind>, x: Kind, z: Kind)
    requires z in Insert(before, s, x)
    ensures z in s || z == x
  {
    assert z in multiset(Insert(before, s, x));
    assert z in multiset(s + [x]);
  }

  lemma AppendLast(before: (Kind, Kind) -> bool, s: seq<Kind>, x: Kind)
    requires Sorted(before, s) && NoneAfter(before, s, x)
    ensures Sorted(before, s + [x])
  {
  }

  lemma LastIsLast(before: (Kind, Kind) -> bool, s: seq<Kind>, x: Kind)
    requires StrictOrder(before) && Sorted(before, s) && s != [] && !before(x, s[|s| - 1])
    ensures NoneAfter(before, s, x)
  {
    var y := s[|s| - 1];
    forall i | 0 <= i < |s| ensures !before(x, s[i]) {
      assert OrderLaws(before, y, x, s[i]) && (i < |s| - 1 ==> !before(y, s[i]));
    }
  }

  lemma {:induction false} SortSorts(before: (Kind, Kind) -> bool, s: seq<Kind>)
    requires StrictOrder(before)
    ensures Sorted(before, Sort(before, s))
    decreases |s|
  {
    if s != [] {
      SortSorts(before, s[..|s| - 1]);
      InsertKeepsSorted(before, Sort(before, s[..|s| - 1]), s[|s| - 1]);
    }
  }

  /** Sorting leaves no choice: whatever algorithm the engine uses, it arrives at the same list. */
  lemma {:induction false} SortedIsUnique(before: (Kind, Kind) -> bool, s: seq<Kind>, t: seq<Kind>)
    requires StrictOrder(before) && Sorted(before, s) && Sorted(before, t) && multiset(s) == multiset(t)
    ensures s == t
    decreases |s|
  {
    if s == [] {
      assert |multiset(t)| == 0;
    } else {
      assert s[0] in multiset(t) && t != [];
      assert t[0] in multiset(s);
      HeadIsFirst(before, s, t[0]);
      HeadIsFirst(before, t, s[0]);
      assert OrderLaws(before, s[0], t[0], s[0]);
      WithoutHead(s);
      WithoutHead(t);
      SortedIsUnique(before, s[1..], t[1..]);
      assert s == [s[0]] + s[1..] && t == [t[0]] + t[1..];
    }
  }

  lemma WithoutHead(s: seq<Kind>)
    requires s != []
    ensures multiset(s[1..]) == multiset(s) - multiset{s[0]}
  {
    assert s == [s[0]] + s[1..];
  }

  lemma HeadIsFirst(before: (Kind, Kind) -> bool, s: seq<Kind>, x: Kind)
    requires StrictOrder(before) && Sorted(before, s) && x in s
    ensures x == s[0] || before(s[0], x)
  {
    var i :| 0 <= i < |s| && s[i] == x;
    assert OrderLaws(before, s[0], x, x) && (i > 0 ==> !before(s[i], s[0]));
  }

  function ByKey(message: seq<CodeUnit>): (Kind, Kind) -> bool { (a, b) => KeyBefore(message, a, b) }

  function ByMerit(q: Request): (Kind, Kind) -> bool { (a, b) => Better(q, a, b) }

  lemma KeyBeforeIsStrict(message: seq<CodeUnit>)
    ensures StrictOrder(ByKey(message))
  {
    forall a: Kind, b: Kind, c: Kind ensures OrderLaws(ByKey(message), a, b, c) { SmallerAlphabetical(a, b); }
  }

  lemma BetterIsStrict(q: Request)
    ensures StrictOrder(ByMerit(q))
  {
    forall a: Kind, b: Kind, c: Kind ensures OrderLaws(ByMerit(q), a, b, c) { SmallerAlphabetical(a, b); }
  }

  /** generateBroadAnswerCandidates. */
  function Generate(message: seq<CodeUnit>): seq<Kind> { Sort(ByKey(message), KINDS) }

  /** selectBestBroadAnswerCandidate. */
  function Select(candidates: seq<Kind>, q: Request): Option<Kind> {
    if candidates == [] then None else Some(Sort(ByMerit(q), candidates)[0])
  }

  /** Every kind appears once, by rising tie key and then by name, and no other list is like that. */
  lemma GenerateExactly(message: seq<CodeUnit>, s: seq<Kind>)
    ensures s == Generate(message) <==> |s| == 7 && (forall k: Kind :: k in s) && Rising(ByKey(message), s)
  {
    var before, g := ByKey(message), Generate(message);
    KeyBeforeIsStrict(message);
    SortSorts(before, KINDS);
    KindsOnce(g);
    StrictlySorted(before, g);
    if |s| == 7 && (forall k: Kind :: k in s) && Rising(before, s) {
      StrictlySorted(before, s);
      AllOnce(s);
      SortedIsUnique(before, s, g);
    }
  }

  ghost predicate Rising(before: (Kind, Kind) -> bool, s: seq<Kind>) {
    forall i, j :: 0 <= i < j < |s| ==> before(s[i], s[j])
  }

  lemma StrictlySorted(before: (Kind, Kind) -> bool, s: seq<Kind>)
    requires StrictOrder(before)
    ensures Rising(before, s) <==> Sorted(before, s) && forall i, j :: 0 <= i < j < |s| ==> s[i] != s[j]
  {
    if Rising(before, s) {
      forall i, j | 0 <= i < j < |s| ensures s[i] != s[j] && !before(s[j], s[i]) {
        assert OrderLaws(before, s[i], s[j], s[i]);
      }
    } else if Sorted(before, s) && forall i, j :: 0 <= i < j < |s| ==> s[i] != s[j] {
      forall i, j | 0 <= i < j < |s| ensures before(s[i], s[j]) {
        assert OrderLaws(before, s[i], s[j], s[i]);
      }
    }
  }

  /** A permutation of the taxonomy has every kind at one place only. */
  lemma KindsOnce(g: seq<Kind>)
    requires multiset(g) == multiset(KINDS)
    ensures |g| == 7 && (forall k: Kind :: k in g) && (forall i, j :: 0 <= i < j < |g| ==> g[i] != g[j])
  {
    assert |multiset(g)| == |multiset(KINDS)|;
    forall k: Kind ensures k in g && multiset(g)[k] == 1 { KindCount(k); assert k in multiset(g); }
    forall i, j | 0 <= i < j < |g| ensures g[i] != g[j] {
      assert g == g[..i] + [g[i]] + g[i + 1..];
      assert g[j] in g[i + 1..];
    }
  }

  lemma KindCount(k: Kind)
    ensures multiset(KINDS)[k] == 1
  {
    match k
    case ScientificMechanism =>
    case TechnicalSystem =>
    case SocialEconomicPhenomenon =>
    case PhilosophicalFramework =>
    case PracticalRealWorldProcess =>
    case HistoricalPattern =>
    case EverydayHiddenComplexity =>
  }

  lemma AllOnce(s: seq<Kind>)
    requires (forall k: Kind :: k in s) && (forall i, j :: 0 <= i < j < |s| ==> s[i] != s[j])
    ensures multiset(s) == multiset(KINDS)
  {
    forall k: Kind ensures multiset(s)[k] == multiset(KINDS)[k] {
      KindCount(k);
      OccursOnce(s, k);
    }
  }

  lemma OccursOnce(s: seq<Kind>, k: Kind)
    requires k in s && forall i, j :: 0 <= i < j < |s| ==> s[i] != s[j]
    ensures multiset(s)[k] == 1
  {
    var i :| 0 <= i < |s| && s[i] == k;
    assert s == s[..i] + [k] + s[i + 1..];
    assert k !in s[..i] by { assert forall j :: 0 <= j < i ==> s[j] != s[i]; }
    assert k !in s[i + 1..] by { assert forall j :: i < j < |s| ==> s[i] != s[j]; }
    CountInMiddle(s[..i], k, s[i + 1..]);
  }

  lemma CountInMiddle(a: seq<Kind>, k: Kind, b: seq<Kind>)
    requires k !in a && k !in b
    ensures multiset(a + [k] + b)[k] == 1
  {
    assert k !in multiset(a) && k !in multiset(b);
  }

  lemma SortMembers(before: (Kind, Kind) -> bool, s: seq<Kind>, c: Kind)
    ensures c in s <==> c in Sort(before, s)
  {
    assert c in multiset(s) <==> c in multiset(Sort(before, s));
  }

  /** The choice is the candidate that no other one beats on score, then tie key, then name. */
  lemma SelectExactly(candidates: seq<Kind>, q: Request, k: Kind)
    ensures Select(candidates, q) == Some(k)
            <==> k in candidates && forall c :: c in candidates && c != k ==> Better(q, k, c)
  {
    var before := ByMerit(q);
    BetterIsStrict(q);
    SortSorts(before, candidates);
    var s := Sort(before, candidates);
    forall c ensures c in candidates <==> c in s { SortMembers(before, candidates, c); }
    if candidates != [] {
      forall c | c in candidates && c != s[0] ensures Better(q, s[0], c) { HeadIsFirst(before, s, c); }
      assert OrderLaws(before, k, s[0], k) && before(k, s[0]) == Better(q, k, s[0]);
    }
  }

  /** So the choice depends only on which candidates there are, not on their order or number. */
  lemma SelectIgnoresOrder(a: seq<Kind>, b: seq<Kind>, q: Request)
    requires forall c :: c in a <==> c in b
    ensures Select(a, q) == Select(b, q)
  {
    if a != [] || b != [] {
      var k := if a != [] then Select(a, q).value else Select(b, q).value;
      SelectExactly(a, q, k);
      SelectExactly(b, q, k);
    }
  }

  /** When no keyword occurs in the message or the last turns, the choice is the same for every message. */
  lemma NoKeywordChoice(q: Request)
    requires forall k :: q.hits(k) == 0
    requires q.priorHits.Some? ==> forall k :: q.priorHits.value(k) == 0
    ensures Select(Generate(q.message), q) == Some(EverydayHiddenComplexity)
  {
    GenerateExactly(q.message, Generate(q.message));
    forall c | c != EverydayHiddenComplexity ensures Better(q, EverydayHiddenComplexity, c) { NoKeywordScore(c, q); }
    SelectExactly(Generate(q.message), q, EverydayHiddenComplexity);
  }

  lemma NoKeywordScore(k: Kind, q: Request)
    requires k != EverydayHiddenComplexity
    requires q.hits(k) == 0 && q.hits(EverydayHiddenComplexity) == 0
    requires q.priorHits.Some? ==> q.priorHits.value(k) == 0 && q.priorHits.value(EverydayHiddenComplexity) == 0
    ensures Score(k, q) < Score(EverydayHiddenComplexity, q)
  {
  }

  /** The only keywords found are `n` of kind k in the message; the last turns, if any, hold none. */
  ghost predicate OnlyHits(q: Request, k: Kind, n: nat) {
    && q.hits(k) == n && (forall c :: c != k ==> q.hits(c) == 0)
    && (q.priorHits.Some? ==> forall c :: q.priorHits.value(c) == 0)
  }

  /** How many keywords it takes for a kind to outscore everyday complexity, which needs none. */
  function Needed(k: Kind, q: Request): nat {
    match k
    case EverydayHiddenComplexity => 0
    case ScientificMechanism => 1
    case TechnicalSystem => 1
    case PracticalRealWorldProcess => 1
    case HistoricalPattern => 2
    case SocialEconomicPhenomenon => 3
    case PhilosophicalFramework => if q.wantsSteps && q.priorHits.Some? then 4 else 3
  }

  /** Two social keywords make an exact tie, which the hashes decide. */
  predicate SocialTie(k: Kind, n: nat, q: Request) {
    k == SocialEconomicPhenomenon && n == 2 && !q.wantsSteps && q.priorHits.None?
  }

  lemma OtherKindsScoreLess(q: Request, k: Kind, n: nat, c: Kind)
    requires OnlyHits(q, k, n) && c != k && c != EverydayHiddenComplexity
    ensures Score(c, q) < Score(EverydayHiddenComplexity, q)
  {
  }

  lemma ScoreAgainstEveryday(q: Request, k: Kind, n: nat)
    requires OnlyHits(q, k, n) && k != EverydayHiddenComplexity
    ensures n >= Needed(k, q) ==> Score(k, q) > Score(EverydayHiddenComplexity, q)
    ensures n < Needed(k, q) && !SocialTie(k, n, q) ==> Score(k, q) < Score(EverydayHiddenComplexity, q)
    ensures SocialTie(k, n, q) ==> Score(k, q) == Score(EverydayHiddenComplexity, q)
  {
  }

  /** If one kind beats all others but perhaps k, the choice is between the two. */
  lemma ChoiceOfTwo(q: Request, all: seq<Kind>, k: Kind, e: Kind)
    requires k != e && (forall c: Kind :: c in all) && forall c :: c != k && c != e ==> Better(q, e, c)
    ensures Select(all, q) == Some(if Better(q, k, e) then k else e)
  {
    BetterIsStrict(q);
    var before := ByMerit(q);
    assert OrderLaws(before, k, e, k) && before(k, e) == Better(q, k, e) && before(e, k) == Better(q, e, k);
    forall c | c != k && Better(q, k, e) ensures Better(q, k, c) {
      assert OrderLaws(before, k, e, c) && before(e, c) == Better(q, e, c) && before(k, c) == Better(q, k, c);
    }
    SelectExactly(all, q, if Better(q, k, e) then k else e);
  }

  lemma BetterThanEveryday(q: Request, k: Kind, n: nat)
    requires OnlyHits(q, k, n) && k != EverydayHiddenComplexity
    ensures Better(q, k, EverydayHiddenComplexity) <==>
              || n >= Needed(k, q)
              || (SocialTie(k, n, q) && TieKey(k, q.message) > TieKey(EverydayHiddenComplexity, q.message))
  {
    ScoreAgainstEveryday(q, k, n);
    TieByKeys(q, k, EverydayHiddenComplexity);
  }

  lemma TieByKeys(q: Request, k: Kind, e: Kind)
    ensures Score(k, q) > Score(e, q) ==> Better(q, k, e)
    ensures Score(k, q) < Score(e, q) ==> !Better(q, k, e)
    ensures Score(k, q) == Score(e, q) && e == EverydayHiddenComplexity ==>
              (Better(q, k, e) <==> TieKey(k, q.message) > TieKey(e, q.message))
  {
  }

  /** With keywords of one kind only, that kind is chosen iff there are enough of them, or it wins the tie. */
  lemma OneKindChoice(q: Request, k: Kind, n: nat)
    requires OnlyHits(q, k, n)
    ensures Select(Generate(q.message), q) == Some(
              if || n >= Needed(k, q)
                 || (SocialTie(k, n, q) && TieKey(k, q.message) > TieKey(EverydayHiddenComplexity, q.message))
              then k else EverydayHiddenComplexity)
  {
    var all, everyday := Generate(q.message), EverydayHiddenComplexity;
    GenerateExactly(q.message, all);
    forall c | c != k && c != everyday ensures Better(q, everyday, c) {
      OtherKindsScoreLess(q, k, n, c);
      TieByKeys(q, everyday, c);
    }
    if k != everyday {
      BetterThanEveryday(q, k, n);
      ChoiceOfTwo(q, all, k, everyday);
    } else {
      SelectExactly(all, q, everyday);
    }
  }

  // ---------- The score in closed form ----------

  /** A kind's score when no keyword is found anywhere. */
  function BaseScore(k: Kind): real {
    match k
    case ScientificMechanism => 0.8218
    case TechnicalSystem => 0.8291
    case EverydayHiddenComplexity => 0.8408
    case PracticalRealWorldProcess => 0.8113
    case HistoricalPattern => 0.7746
    case SocialEconomicPhenomenon => 0.7176
    case PhilosophicalFramework => 0.6698
  }

  /** What asking for steps adds. */
  function StepsBonus(k: Kind): real {
    match k
    case TechnicalSystem => 0.076
    case PracticalRealWorldProcess => 0.0744
    case ScientificMechanism => 0.072
    case EverydayHiddenComplexity => 0.0704
    case HistoricalPattern => 0.0672
    case SocialEconomicPhenomenon => 0.064
    case PhilosophicalFramework => 0.0576
  }

  /** What a keyword in the message adds. */
  function PerHit(k: Kind): real {
    match k
    case PhilosophicalFramework => 0.0616
    case SocialEconomicPhenomenon => 0.0616
    case HistoricalPattern => 0.0616
    case ScientificMechanism => 0.056
    case TechnicalSystem => 0.0504
    case PracticalRealWorldProcess => 0.0504
    case EverydayHiddenComplexity => 0.0336
  }

  /** What the last turns add, with no keyword in them and for each keyword. */
  function PerTurns(k: Kind): (real, real) {
    match k
    case PhilosophicalFramework => (0.0153, 0.02805)
    case SocialEconomicPhenomenon => (0.0153, 0.02805)
    case HistoricalPattern => (0.0153, 0.02805)
    case ScientificMechanism => (0.0153, 0.0255)
    case TechnicalSystem => (0.0153, 0.02295)
    case PracticalRealWorldProcess => (0.0153, 0.02295)
    case EverydayHiddenComplexity => (0.02295, 0.0153)
  }

  /** The weighted sum is linear in the numbers of keywords found, with these coefficients. */
  lemma ScoreExactly(k: Kind, q: Request)
    ensures Score(k, q) ==
              BaseScore(k) + PerHit(k) * q.hits(k) as real + (if q.wantsSteps then StepsBonus(k) else 0.0)
              + (if q.priorHits.None? then 0.0 else PerTurns(k).0 + PerTurns(k).1 * q.priorHits.value(k) as real)
  {
    ScoreOf(k, q, q.hits(k) as real, if q.priorHits.None? then 0.0 else q.priorHits.value(k) as real);
  }

  lemma ScoreOf(k: Kind, q: Request, h: real, p: real)
    requires h == q.hits(k) as real && (q.priorHits.Some? ==> p == q.priorHits.value(k) as real)
    ensures Score(k, q) ==
              BaseScore(k) + PerHit(k) * h + (if q.wantsSteps then StepsBonus(k) else 0.0)
              + (if q.priorHits.None? then 0.0 else PerTurns(k).0 + PerTurns(k).1 * p)
  {
    match k
    case ScientificMechanism =>
    case TechnicalSystem =>
    case SocialEconomicPhenomenon =>
    case PhilosophicalFramework =>
    case PracticalRealWorldProcess =>
    case HistoricalPattern =>
    case EverydayHiddenComplexity =>
  }

  // ---------- Names in alphabetical order ----------

  predicate LessAt(s: string, t: string, i: nat) {
    i < |s| && i < |t| && s[i] < t[i] && forall k :: 0 <= k < i ==> s[k] == t[k]
  }

  /** s comes before t in a dictionary. */
  ghost predicate DictionaryBefore(s: string, t: string) { exists i: nat :: LessAt(s, t, i) }

  lemma DictionaryIsStrict(s: string, t: string)
    requires DictionaryBefore(s, t)
    ensures !DictionaryBefore(t, s)
  {
    var i: nat :| LessAt(s, t, i);
    forall j: nat ensures !LessAt(t, s, j) { }
  }

  lemma NameStarts(k: Kind)
    ensures |k.Name()| >= 2
    ensures k.Name()[0] == (match k
              case EverydayHiddenComplexity => 'e'
              case HistoricalPattern => 'h'
              case PhilosophicalFramework => 'p'
              case PracticalRealWorldProcess => 'p'
              case ScientificMechanism => 's'
              case SocialEconomicPhenomenon => 's'
              case TechnicalSystem => 't')
    ensures k.PhilosophicalFramework? ==> k.Name()[1] == 'h'
    ensures k.PracticalRealWorldProcess? ==> k.Name()[1] == 'r'
    ensures k.ScientificMechanism? ==> k.Name()[1] == 'c'
    ensures k.SocialEconomicPhenomenon? ==> k.Name()[1] == 'o'
  {
  }

  lemma NameBefore(a: Kind, b: Kind)
    requires a.Alphabetical() < b.Alphabetical()
    ensures DictionaryBefore(a.Name(), b.Name())
  {
    NameStarts(a);
    NameStarts(b);
    StartsBefore(a.Name(), b.Name());
  }

  lemma StartsBefore(s: string, t: string)
    requires |s| >= 2 && |t| >= 2 && (s[0] < t[0] || (s[0] == t[0] && s[1] < t[1]))
    ensures DictionaryBefore(s, t)
  {
    assert LessAt(s, t, 0) || LessAt(s, t, 1);
  }

  /** The places are those of the names in a dictionary. */
  lemma AlphabeticalExactly(a: Kind, b: Kind)
    ensures a.Alphabetical() < b.Alphabetical() <==> DictionaryBefore(a.Name(), b.Name())
  {
    if a.Alphabetical() < b.Alphabetical() {
      NameBefore(a, b);
    } else if b.Alphabetical() < a.Alphabetical() {
      NameBefore(b, a);
      DictionaryIsStrict(b.Name(), a.Name());
    } else {
      SmallerAlphabetical(a, b);
    }
  }
}
