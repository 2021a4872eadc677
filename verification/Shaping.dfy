/** The layout steps of malv-response-shaping-layer.util.ts: splitting a text and putting the pieces back together. */
module Shaping {
  import opened Sequences
  import opened Spacing
  import opened Text

  /** The three patterns the file splits at: `"\n"`, `/\n{2,}/` and `/(?<=[.!?])\s+/`. */
  datatype Separator = Newline | BlankLines | SentenceGap {

    predicate In(c: char) { if SentenceGap? then IsSpace(c) else c == '\n' }

    /** A match of the pattern begins at k. */
    predicate StartsAt(s: string, k: nat) {
      && k < |s| && In(s[k])
      && (BlankLines? ==> k + 1 < |s| && s[k + 1] == '\n')
      && (SentenceGap? ==> k > 0 && EndsSentence(s[k - 1]))
    }

    /** What is left after the match at the start of s: one line break, or a whole run. */
    function After(s: string): (r: string)
      requires s != ""
      ensures |r| <= |s|
    {
      if Newline? then s[1..] else DropRun(s)
    }

    function DropRun(s: string): (r: string)
      ensures |r| <= |s|
    {
      if s != "" && In(s[0]) then DropRun(s[1..]) else s
    }

    function FirstMatch(s: string, from: nat): (k: nat)
      requires from <= |s|
      ensures from <= k <= |s| && (k < |s| ==> StartsAt(s, k))
      ensures forall i :: from <= i < k ==> !StartsAt(s, i)
      decreases |s| - from
    {
      if from == |s| || StartsAt(s, from) then from else FirstMatch(s, from + 1)
    }

    /** `s.split(pattern)`. */
    function Split(s: string): (ps: seq<string>)
      ensures ps != []
      decreases |s|
    {
      var k := FirstMatch(s, 0);
      if k == |s| then [s]
      else
        assert |After(s[k..])| < |s[k..]|;
        [s[..k]] + Split(After(s[k..]))
    }

    ghost predicate Whole(a: string) { forall k: nat :: !StartsAt(a, k) }

    /** `run` is one match of the pattern, as long as it can be, between `a` and `rest`. */
    ghost predicate Separates(a: string, run: string, rest: string) {
      && run != "" && (forall i :: 0 <= i < |run| ==> In(run[i]))
      && (Newline? ==> |run| == 1)
      && (BlankLines? ==> |run| >= 2 && !(a != "" && a[|a| - 1] == '\n'))
      && (SentenceGap? ==> a != "" && a[|a| - 1] in ".!?")
      && (!Newline? ==> !(rest != "" && In(rest[0])))
    }

    /** s is the pieces ps with the matches `runs` between them, and has no other match. */
    ghost predicate Decomposes(s: string, ps: seq<string>, runs: seq<string>)
      decreases |runs|
    {
      && |ps| == |runs| + 1 && Whole(ps[0])
      && if runs == [] then s == ps[0]
         else
           exists rest :: s == ps[0] + runs[0] + rest && Separates(ps[0], runs[0], rest)
             && Decomposes(rest, ps[1..], runs[1..])
    }

    lemma {:induction false} DropRunOf(run: string, rest: string)
      requires forall i :: 0 <= i < |run| ==> In(run[i])
      requires !(rest != "" && In(rest[0]))
      ensures DropRun(run + rest) == rest
    {
      if run != "" {
        assert (run + rest)[1..] == run[1..] + rest;
        DropRunOf(run[1..], rest);
      } else {
        assert run + rest == rest;
      }
    }

    lemma {:induction false} DropRunParts(s: string) returns (run: string)
      ensures s == run + DropRun(s) && forall i :: 0 <= i < |run| ==> In(run[i])
      ensures !(DropRun(s) != "" && In(DropRun(s)[0]))
    {
      if s != "" && In(s[0]) {
        run := DropRunParts(s[1..]);
        run := [s[0]] + run;
      } else {
        run := "";
      }
    }

    /** A whole piece and one match in front of a text add that piece to its split. */
    lemma SplitStep(a: string, run: string, rest: string)
      requires Whole(a) && Separates(a, run, rest)
      ensures Split(a + run + rest) == [a] + Split(rest)
    {
      var s := a + run + rest;
      forall k: nat | k < |a| ensures !StartsAt(s, k) { assert !StartsAt(a, k); }
      assert StartsAt(s, |a|);
      assert FirstMatch(s, 0) == |a|;
      assert s[..|a|] == a && s[|a|..] == run + rest;
      if !Newline? { DropRunOf(run, rest); }
    }

    lemma MatchParts(s: string, k: nat) returns (run: string)
      requires StartsAt(s, k) && forall i :: 0 <= i < k ==> !StartsAt(s, i)
      ensures s == s[..k] + run + After(s[k..]) && Separates(s[..k], run, After(s[k..]))
    {
      var tail := s[k..];
      assert tail[0] == s[k];
      if Newline? {
        run := tail[..1];
      } else {
        run := DropRunParts(tail);
        assert BlankLines? ==> tail[1] == '\n' && (k > 0 ==> !StartsAt(s, k - 1));
      }
      assert tail == run + After(tail);
    }

    /** Splitting finds a decomposition... */
    lemma {:induction false} SplitDecomposes(s: string) returns (runs: seq<string>)
      ensures Decomposes(s, Split(s), runs)
      decreases |s|
    {
      var k := FirstMatch(s, 0);
      forall i: nat ensures !StartsAt(s[..k], i) { assert i < k ==> !StartsAt(s, i); }
      if k == |s| {
        assert s[..k] == s;
        runs := [];
      } else {
        var run := MatchParts(s, k);
        var more := SplitDecomposes(After(s[k..]));
        runs := [run] + more;
        DecomposesStep(s[..k], run, After(s[k..]), Split(After(s[k..])), more);
      }
    }

    lemma DecomposesStep(a: string, run: string, rest: string, ps: seq<string>, runs: seq<string>)
      requires Whole(a) && Separates(a, run, rest) && Decomposes(rest, ps, runs)
      ensures Decomposes(a + run + rest, [a] + ps, [run] + runs)
    {
      assert ([a] + ps)[1..] == ps && ([run] + runs)[1..] == runs;
    }

    /** ...and there is only one. */
    lemma {:induction false} SplitIsUnique(s: string, ps: seq<string>, runs: seq<string>)
      requires Decomposes(s, ps, runs)
      ensures Split(s) == ps
      decreases |runs|
    {
      if runs == [] {
        assert ps == [s] && FirstMatch(s, 0) == |s|;
      } else {
        var rest :| s == ps[0] + runs[0] + rest && Separates(ps[0], runs[0], rest)
          && Decomposes(rest, ps[1..], runs[1..]);
        SplitStep(ps[0], runs[0], rest);
        SplitIsUnique(rest, ps[1..], runs[1..]);
        assert ps == [ps[0]] + ps[1..];
      }
    }
  }

  lemma WholeInfix(sep: Separator, before: string, m: string, after: string)
    requires sep.Whole(before + m + after)
    ensures sep.Whole(m)
  {
    var s := before + m + after;
    forall k: nat ensures !sep.StartsAt(m, k) {
      assert !sep.StartsAt(s, |before| + k);
      if k < |m| { assert s[|before| + k] == m[k]; }
    }
  }

  /** No piece holds another match, and what does not occur in the text does not occur in a piece. */
  lemma {:induction false} PiecesAreWhole(
      sep: Separator, other: Separator, s: string, ps: seq<string>, runs: seq<string>)
    requires sep.Decomposes(s, ps, runs)
    ensures forall p :: p in ps ==> sep.Whole(p) && (other.Whole(s) ==> other.Whole(p))
    decreases |runs|
  {
    if runs != [] {
      var rest :| s == ps[0] + runs[0] + rest && sep.Separates(ps[0], runs[0], rest)
                  && sep.Decomposes(rest, ps[1..], runs[1..]);
      if other.Whole(s) {
        assert s == "" + ps[0] + (runs[0] + rest) && s == (ps[0] + runs[0]) + rest + "";
        WholeInfix(other, "", ps[0], runs[0] + rest);
        WholeInfix(other, ps[0] + runs[0], rest, "");
      }
      PiecesAreWhole(sep, other, rest, ps[1..], runs[1..]);
      assert ps == [ps[0]] + ps[1..];
    }
  }

  lemma SplitOfWhole(sep: Separator, s: string)
    requires sep.Whole(s)
    ensures sep.Split(s) == [s]
  {
  }

  /** The pieces can be put back together with `glue` between them. */
  ghost predicate Joinable(sep: Separator, ps: seq<string>, glue: string) {
    && ps != [] && sep.Whole(ps[0])
    && (|ps| > 1 ==> sep.Separates(ps[0], glue, ps[1]) && (sep.Newline? || ps[1] != "") && Joinable(sep, ps[1..], glue))
  }

  lemma JoinStart(ps: seq<string>, glue: string)
    requires ps != []
    ensures ps[0] != "" ==> Join(ps, glue) != "" && Join(ps, glue)[0] == ps[0][0]
  {
  }

  /** Joining pieces and splitting again gives the pieces back. */
  lemma {:induction false} SplitOfJoin(sep: Separator, ps: seq<string>, glue: string)
    requires Joinable(sep, ps, glue)
    ensures sep.Split(Join(ps, glue)) == ps
  {
    if |ps| == 1 {
      SplitOfWhole(sep, ps[0]);
    } else {
      SplitOfJoin(sep, ps[1..], glue);
      JoinStart(ps[1..], glue);
      sep.SplitStep(ps[0], glue, Join(ps[1..], glue));
      assert ps == [ps[0]] + ps[1..];
    }
  }

  predicate EndsSentence(c: char) { c == '.' || c == '!' || c == '?' }

  /** `parts.join(glue)`. */
  function Join(parts: seq<string>, glue: string): string {
    if parts == [] then "" else if |parts| == 1 then parts[0] else parts[0] + glue + Join(parts[1..], glue)
  }

  /** `.map(trim).filter(nonempty)`. */
  function Tidy(ps: seq<string>): (r: seq<string>)
    ensures forall i :: 0 <= i < |r| ==> r[i] != ""
  {
    if ps == [] then [] else (if Trim(ps[0]) == "" then [] else [Trim(ps[0])]) + Tidy(ps[1..])
  }

  function InkOfAll(ps: seq<string>): string { if ps == [] then "" else Ink(ps[0]) + InkOfAll(ps[1..]) }

  lemma {:induction false} InkOfTidy(ps: seq<string>)
    ensures InkOfAll(Tidy(ps)) == InkOfAll(ps)
  {
    if ps != [] {
      InkOfTrim(ps[0]);
      InkOfTidy(ps[1..]);
      assert Tidy(ps) == Tidy(ps[1..]) || Tidy(ps)[1..] == Tidy(ps[1..]);
    }
  }

  lemma {:induction false} InkOfJoin(ps: seq<string>, glue: string)
    requires AllSpace(glue)
    ensures Ink(Join(ps, glue)) == InkOfAll(ps)
  {
    if ps != [] {
      InkOfJoin(ps[1..], glue);
      InkOfThree(ps[0], glue, Join(ps[1..], glue));
      InkOfSpace(glue);
    }
  }

  lemma {:induction false} InkOfSplit(sep: Separator, s: string)
    ensures InkOfAll(sep.Split(s)) == Ink(s)
    decreases |s|
  {
    var runs := sep.SplitDecomposes(s);
    InkOfDecomposed(sep, s, sep.Split(s), runs);
  }

  lemma {:induction false} InkOfDecomposed(sep: Separator, s: string, ps: seq<string>, runs: seq<string>)
    requires sep.Decomposes(s, ps, runs)
    ensures InkOfAll(ps) == Ink(s)
    decreases |runs|
  {
    if runs == [] {
      assert ps == [s];
    } else {
      var rest :| s == ps[0] + runs[0] + rest && sep.Separates(ps[0], runs[0], rest)
                  && sep.Decomposes(rest, ps[1..], runs[1..]);
      InkOfThree(ps[0], runs[0], rest);
      InkOfSpace(runs[0]);
      InkOfDecomposed(sep, rest, ps[1..], runs[1..]);
    }
  }

  // Sentences and paragraphs

  function Sentences(text: string): seq<string> { Tidy(SentenceGap.Split(text)) }

  function Paragraphs(text: string): seq<string> { Tidy(BlankLines.Split(text)) }

  function ShapeDirect(text: string): string {
    var sentences := Sentences(text);
    if |sentences| <= 2 then text else Trim(sentences[0] + " " + sentences[1])
  }

  predicate LineStart(s: string, i: nat) {
    i == 0 || (i <= |s| && (s[i - 1] == '\n' || s[i - 1] == '\r' || s[i - 1] == '\U{2028}' || s[i - 1] == '\U{2029}'))
  }

  /** `/^#{1,3}\s+/m` matches at i. */
  predicate HeadingAt(s: string, i: nat) {
    && LineStart(s, i)
    && exists n | 1 <= n <= 3 :: HashesAt(s, i, n) && IsSpace(s[i + n])
  }

  predicate HashesAt(s: string, i: nat, n: nat) { i + n < |s| && forall j :: i <= j < i + n ==> s[j] == '#' }

  predicate HasHeading(s: string) { exists i | 0 <= i < |s| :: HeadingAt(s, i) }

  function ShapeSectioned(text: string): string {
    var trimmed := Trim(text);
    if HasHeading(trimmed) then trimmed
    else
      var parts := Paragraphs(trimmed);
      if |parts| >= 2 then Join(parts, "\n\n")
      else
        var sentences := Sentences(trimmed);
        if |sentences| >= 4 then
          var mid := (|sentences| + 1) / 2;
          Trim(Join(sentences[..mid], " ") + "\n\n" + Join(sentences[mid..], " "))
        else trimmed
  }

  // What shaping keeps

  ghost predicate AllTidy(ps: seq<string>) { forall i :: 0 <= i < |ps| ==> ps[i] != "" && Trimmed(ps[i]) }

  lemma {:induction false} TidyIsTidy(ps: seq<string>)
    ensures AllTidy(Tidy(ps))
  {
    if ps != [] {
      TrimIdempotent(ps[0]);
      TidyIsTidy(ps[1..]);
    }
  }

  lemma {:induction false} TidyOfTidy(ps: seq<string>)
    requires AllTidy(ps)
    ensures Tidy(ps) == ps
  {
    if ps != [] {
      TrimOfTrimmed(ps[0]);
      TidyOfTidy(ps[1..]);
    }
  }

  lemma {:induction false} JoinIsTrimmed(ps: seq<string>, glue: string)
    requires AllTidy(ps) && ps != []
    ensures Join(ps, glue) != "" && Trimmed(Join(ps, glue))
  {
    if |ps| > 1 { JoinIsTrimmed(ps[1..], glue); }
  }

  lemma {:induction false} InkOfAllConcat(a: seq<string>, b: seq<string>)
    ensures InkOfAll(a + b) == InkOfAll(a) + InkOfAll(b)
  {
    if a == [] {
      assert a + b == b;
    } else {
      assert (a + b)[1..] == a[1..] + b;
      InkOfAllConcat(a[1..], b);
    }
  }

  lemma InkOfPieces(sep: Separator, s: string)
    ensures InkOfAll(Tidy(sep.Split(s))) == Ink(s)
  {
    InkOfTidy(sep.Split(s));
    InkOfSplit(sep, s);
  }

  /** Sectioned shaping moves white space about and leaves every visible character, in order. */
  lemma SectionedKeepsInk(text: string)
    ensures Ink(ShapeSectioned(text)) == Ink(text) && Trimmed(ShapeSectioned(text))
  {
    var t := Trim(text);
    InkOfTrim(text);
    TrimIdempotent(text);
    if !HasHeading(t) {
      if |Paragraphs(t)| >= 2 {
        ParagraphsKeepInk(t);
      } else if |Sentences(t)| >= 4 {
        SentencesKeepInk(t, (|Sentences(t)| + 1) / 2);
      }
    }
  }

  lemma ParagraphsKeepInk(t: string)
    requires Paragraphs(t) != []
    ensures Ink(Join(Paragraphs(t), "\n\n")) == Ink(t) && Trimmed(Join(Paragraphs(t), "\n\n"))
  {
    InkOfPieces(BlankLines, t);
    InkOfJoin(Paragraphs(t), "\n\n");
    TidyIsTidy(BlankLines.Split(t));
    JoinIsTrimmed(Paragraphs(t), "\n\n");
  }

  lemma SentencesKeepInk(t: string, mid: nat)
    requires mid <= |Sentences(t)|
    ensures var r := Trim(Join(Sentences(t)[..mid], " ") + "\n\n" + Join(Sentences(t)[mid..], " "));
            Ink(r) == Ink(t) && Trimmed(r)
  {
    InkOfPieces(SentenceGap, t);
    SplitInTwo(Sentences(t), mid);
    HalvesKeepInk(Sentences(t)[..mid], Sentences(t)[mid..], Sentences(t));
  }

  lemma HalvesKeepInk(a: seq<string>, b: seq<string>, ps: seq<string>)
    requires a + b == ps
    ensures var r := Trim(Join(a, " ") + "\n\n" + Join(b, " ")); Ink(r) == InkOfAll(ps) && Trimmed(r)
  {
    InkAroundSpace(Join(a, " "), "\n\n", Join(b, " "));
    InkOfJoin(a, " ");
    InkOfJoin(b, " ");
    InkOfAllConcat(a, b);
  }

  lemma SplitInTwo(ps: seq<string>, mid: nat)
    requires mid <= |ps|
    ensures ps[..mid] + ps[mid..] == ps
  {
  }

  lemma InkAroundSpace(a: string, gap: string, b: string)
    requires AllSpace(gap)
    ensures Ink(Trim(a + gap + b)) == Ink(a) + Ink(b) && Trimmed(Trim(a + gap + b))
  {
    InkOfTrim(a + gap + b);
    TrimIdempotent(a + gap + b);
    InkOfThree(a, gap, b);
    InkOfSpace(gap);
  }

  // Direct shaping

  ghost predicate Ended(p: string) { p != "" && p[|p| - 1] in ".!?" }

  lemma {:induction false} PiecesEnd(s: string, ps: seq<string>, runs: seq<string>)
    requires SentenceGap.Decomposes(s, ps, runs)
    ensures forall i :: 0 <= i < |ps| - 1 ==> Ended(ps[i])
    decreases |runs|
  {
    if runs != [] {
      var rest :| s == ps[0] + runs[0] + rest && SentenceGap.Separates(ps[0], runs[0], rest)
                  && SentenceGap.Decomposes(rest, ps[1..], runs[1..]);
      PiecesEnd(rest, ps[1..], runs[1..]);
      assert ps == [ps[0]] + ps[1..];
    }
  }

  lemma EndOfSpace(x: string, space: string)
    requires AllSpace(space)
    ensures space != "" ==> IsSpace((x + space)[|x + space| - 1])
  {
  }

  lemma TrimKeepsEnd(p: string)
    requires Ended(p)
    ensures Ended(Trim(p))
  {
    var b, a := TrimParts(p);
    EndOfSpace(b + Trim(p), a);
    EndOfSpace("", b);
    assert a == "" && p == b + Trim(p) && Trim(p) != "" by { assert "" + b == b; }
  }

  lemma {:induction false} TidyKeepsEnds(ps: seq<string>)
    requires forall i :: 0 <= i < |ps| - 1 ==> Ended(ps[i])
    ensures forall i :: 0 <= i < |Tidy(ps)| - 1 ==> Ended(Tidy(ps)[i])
  {
    if |ps| > 1 {
      TrimKeepsEnd(ps[0]);
      TidyKeepsEnds(ps[1..]);
      assert Tidy(ps) == [Trim(ps[0])] + Tidy(ps[1..]);
    }
  }

  lemma {:induction false} TidyKeepsWhole(sep: Separator, ps: seq<string>)
    requires forall p :: p in ps ==> sep.Whole(p)
    ensures forall p :: p in Tidy(ps) ==> sep.Whole(p)
  {
    if ps != [] {
      var b, a := TrimParts(ps[0]);
      WholeInfix(sep, b, Trim(ps[0]), a);
      TidyKeepsWhole(sep, ps[1..]);
    }
  }

  /** Sentences are trimmed, have no sentence gap inside, and all but the last end with `.`, `!` or `?`. */
  lemma SentencesAreSentences(text: string, other: Separator)
    ensures AllTidy(Sentences(text)) && forall p :: p in Sentences(text) ==> SentenceGap.Whole(p)
    ensures other.Whole(text) ==> forall p :: p in Sentences(text) ==> other.Whole(p)
    ensures forall i :: 0 <= i < |Sentences(text)| - 1 ==> Ended(Sentences(text)[i])
  {
    var ps := SentenceGap.Split(text);
    var runs := SentenceGap.SplitDecomposes(text);
    PiecesAreWhole(SentenceGap, other, text, ps, runs);
    PiecesEnd(text, ps, runs);
    TidyIsTidy(ps);
    TidyKeepsEnds(ps);
    TidyKeepsWhole(SentenceGap, ps);
    if other.Whole(text) { TidyKeepsWhole(other, ps); }
  }

  lemma TwoSentences(a: string, b: string)
    requires AllTidy([a, b]) && SentenceGap.Whole(a) && SentenceGap.Whole(b) && Ended(a)
    ensures Trim(a + " " + b) == a + " " + b && Sentences(a + " " + b) == [a, b] && Ink(a + " " + b) == Ink(a) + Ink(b)
  {
    TrimOfTrimmed(a + " " + b);
    assert [a, b][1..] == [b];
    SplitOfJoin(SentenceGap, [a, b], " ");
    assert Join([a, b], " ") == a + " " + b;
    TidyOfTidy([a, b]);
    InkAroundSpace(a, " ", b);
  }

  lemma InkOfFirstTwo(ps: seq<string>)
    requires |ps| >= 2
    ensures InkOfAll(ps) == (Ink(ps[0]) + Ink(ps[1])) + InkOfAll(ps[2..])
  {
    var more := ps[1..];
    assert more[1..] == ps[2..];
    assert InkOfAll(more) == Ink(more[0]) + InkOfAll(more[1..]);
    Regroup(Ink(ps[0]), Ink(ps[1]), InkOfAll(ps[2..]));
  }

  lemma Regroup(a: string, b: string, c: string)
    ensures a + (b + c) == (a + b) + c
  {
  }

  lemma DirectOfLongText(text: string)
    requires |Sentences(text)| > 2
    ensures var ps, r := Sentences(text), ShapeDirect(text);
            Sentences(r) == ps[..2] && Ended(r) && Ink(r) == Ink(ps[0]) + Ink(ps[1])
  {
    SentencesAreSentences(text, SentenceGap);
    FirstTwo(Sentences(text));
  }

  lemma FirstTwo(ps: seq<string>)
    requires |ps| > 2 && AllTidy(ps) && forall p :: p in ps ==> SentenceGap.Whole(p)
    requires forall i :: 0 <= i < |ps| - 1 ==> Ended(ps[i])
    ensures var r := ps[0] + " " + ps[1];
            Trim(r) == r && Sentences(r) == ps[..2] && Ended(r) && Ink(r) == Ink(ps[0]) + Ink(ps[1])
  {
    TwoSentences(ps[0], ps[1]);
    assert Ended(ps[1]);
  }

  /**
   * Direct shaping keeps the beginning of the visible text. What it keeps of a longer text is exactly its first two
   * sentences, the last of which is finished; so shaping again changes nothing.
   */
  lemma DirectKeepsTwoSentences(text: string)
    ensures Ink(ShapeDirect(text)) <= Ink(text)
    ensures |Sentences(text)| > 2 ==> Sentences(ShapeDirect(text)) == Sentences(text)[..2] && Ended(ShapeDirect(text))
    ensures |Sentences(text)| <= 2 ==> ShapeDirect(text) == text
    ensures Sentences(ShapeDirect(text)) == Sentences(text)[..if |Sentences(text)| < 2 then |Sentences(text)| else 2]
    ensures ShapeDirect(ShapeDirect(text)) == ShapeDirect(text)
  {
    var ps := Sentences(text);
    if |ps| > 2 {
      DirectOfLongText(text);
      InkOfPieces(SentenceGap, text);
      InkOfFirstTwo(ps);
    }
  }

  // Shaping into sections is idempotent

  lemma JoinKeepsWhole(ps: seq<string>)
    requires forall p :: p in ps ==> BlankLines.Whole(p)
    ensures BlankLines.Whole(Join(ps, " "))
  {
    if |ps| > 1 {
      JoinKeepsWhole(ps[1..]);
      assert ps[0] in ps;
      var a, b := ps[0], Join(ps[1..], " ");
      forall k: nat ensures !BlankLines.StartsAt(a + " " + b, k) {
        assert !BlankLines.StartsAt(a, k);
        assert k > |a| ==> !BlankLines.StartsAt(b, k - |a| - 1);
      }
    }
  }

  lemma {:induction false} TidyIsJoinable(ps: seq<string>)
    requires ps != [] && AllTidy(ps) && forall p :: p in ps ==> BlankLines.Whole(p)
    ensures Joinable(BlankLines, ps, "\n\n")
  {
    if |ps| > 1 {
      TidyIsJoinable(ps[1..]);
    }
  }

  /** Trimmed paragraphs joined by blank lines are found again. */
  lemma ParagraphsOfJoin(ps: seq<string>)
    requires ps != [] && AllTidy(ps) && forall p :: p in ps ==> BlankLines.Whole(p)
    ensures Paragraphs(Join(ps, "\n\n")) == ps
  {
    TidyIsJoinable(ps);
    SplitOfJoin(BlankLines, ps, "\n\n");
    TidyOfTidy(ps);
  }

  lemma {:induction false} InkOfNonSpace(s: string, i: nat)
    requires i < |s| && !IsSpace(s[i])
    ensures Ink(s) != "" && Trim(s) != ""
    decreases |s|
  {
    if i < |s| - 1 { InkOfNonSpace(s[..|s| - 1], i); }
    InkOfTrim(s);
  }

  lemma VisibleEnd(a: string, space: string, rest: string)
    requires AllSpace(space) && space != "" && Trimmed(a + space + rest)
    ensures rest != "" && Ink(rest) != ""
  {
    EndOfSpace(a, space);
    assert rest == "" ==> a + space + rest == a + space;
    assert (a + space + rest)[|a + space + rest| - 1] == rest[|rest| - 1];
    InkOfNonSpace(rest, |rest| - 1);
  }

  lemma VisibleHasPieces(sep: Separator, s: string)
    requires Ink(s) != ""
    ensures Tidy(sep.Split(s)) != []
  {
    InkOfPieces(sep, s);
  }

  /** A trimmed text with a blank line has something before it and something after it. */
  lemma BlankLineMakesTwo(t: string)
    requires Trimmed(t) && !BlankLines.Whole(t)
    ensures |Paragraphs(t)| >= 2
  {
    var k := BlankLines.FirstMatch(t, 0);
    assert k < |t|;
    var run := BlankLines.MatchParts(t, k);
    var rest := BlankLines.After(t[k..]);
    InkOfNonSpace(t[..k], 0);
    VisibleEnd(t[..k], run, rest);
    VisibleHasPieces(BlankLines, rest);
    assert BlankLines.Split(t)[1..] == BlankLines.Split(rest);
  }

  /** A trimmed text stays as it is if it is made of paragraphs, or if there is nothing to do. */
  lemma SectionsStay(r: string)
    requires Trimmed(r)
    requires if |Paragraphs(r)| >= 2 then Join(Paragraphs(r), "\n\n") == r else HasHeading(r) || |Sentences(r)| < 4
    ensures ShapeSectioned(r) == r
  {
    TrimOfTrimmed(r);
  }

  lemma HeadingStays(r: string)
    requires Trimmed(r) && HasHeading(r)
    ensures ShapeSectioned(r) == r
  {
    TrimOfTrimmed(r);
  }

  /** A line of the text begins with one to three number signs and a white space character. */
  ghost predicate Headed(s: string, before: string, signs: string, gap: char, after: string) {
    && s == before + signs + [gap] + after
    && signs in {"#", "##", "###"} && IsSpace(gap)
    && (before != "" ==> before[|before| - 1] in {'\n', '\r', '\U{2028}', '\U{2029}'})
  }

  lemma HeadingHere(s: string, before: string, signs: string, gap: char, after: string)
    requires Headed(s, before, signs, gap, after)
    ensures HasHeading(s)
  {
    var i, n := |before|, |signs|;
    forall j | i <= j < i + n ensures s[j] == '#' { assert s[j] == signs[j - i]; }
    assert s[i + n] == gap;
    assert HashesAt(s, i, n);
    assert HeadingAt(s, i);
  }

  lemma HeadingParts(s: string, i: nat) returns (signs: string)
    requires HeadingAt(s, i)
    ensures i + |signs| < |s| && Headed(s, s[..i], signs, s[i + |signs|], s[i + |signs| + 1..])
  {
    var n :| 1 <= n <= 3 && HashesAt(s, i, n) && IsSpace(s[i + n]);
    signs := s[i..i + n];
    assert s == s[..i] + signs + [s[i + n]] + s[i + n + 1..];
    assert signs == if n == 1 then "#" else if n == 2 then "##" else "###";
  }

  /** The heading pattern finds such a line whenever there is one, and a text that has one keeps its layout. */
  lemma HeadingExactly(text: string)
    ensures HasHeading(text) <==> exists before, signs, gap, after :: Headed(text, before, signs, gap, after)
    ensures HasHeading(Trim(text)) ==> ShapeSectioned(text) == Trim(text)
  {
    if HasHeading(text) {
      var i :| 0 <= i < |text| && HeadingAt(text, i);
      var signs := HeadingParts(text, i);
    }
    if before, signs, gap, after :| Headed(text, before, signs, gap, after) {
      HeadingHere(text, before, signs, gap, after);
    }
  }

  lemma ParagraphedStays(t: string)
    requires |Paragraphs(t)| >= 2
    ensures ShapeSectioned(Join(Paragraphs(t), "\n\n")) == Join(Paragraphs(t), "\n\n")
  {
    ParagraphsKeepInk(t);
    ParagraphsAreFound(t);
    SectionsStay(Join(Paragraphs(t), "\n\n"));
  }

  lemma HalvedStays(t: string, mid: nat)
    requires Trimmed(t) && |Paragraphs(t)| < 2 && 0 < mid < |Sentences(t)|
    ensures var r := Trim(Join(Sentences(t)[..mid], " ") + "\n\n" + Join(Sentences(t)[mid..], " "));
            ShapeSectioned(r) == r
  {
    SentencesKeepInk(t, mid);
    SentencesMakeTwoParagraphs(t, mid);
    SectionsStay(Trim(Join(Sentences(t)[..mid], " ") + "\n\n" + Join(Sentences(t)[mid..], " ")));
  }

  /** Shaping a text into sections a second time changes nothing. */
  lemma SectionedIsIdempotent(text: string)
    ensures ShapeSectioned(ShapeSectioned(text)) == ShapeSectioned(text)
  {
    var t := Trim(text);
    TrimIdempotent(text);
    if HasHeading(t) {
      HeadingStays(t);
    } else if |Paragraphs(t)| >= 2 {
      ParagraphedStays(t);
    } else if |Sentences(t)| >= 4 {
      HalvedStays(t, (|Sentences(t)| + 1) / 2);
    } else {
      SectionsStay(t);
    }
  }

  lemma ParagraphsAreFound(t: string)
    requires Paragraphs(t) != []
    ensures Paragraphs(Join(Paragraphs(t), "\n\n")) == Paragraphs(t)
  {
    var runs := BlankLines.SplitDecomposes(t);
    PiecesAreWhole(BlankLines, BlankLines, t, BlankLines.Split(t), runs);
    TidyIsTidy(BlankLines.Split(t));
    TidyKeepsWhole(BlankLines, BlankLines.Split(t));
    ParagraphsOfJoin(Paragraphs(t));
  }

  lemma SentencesMakeTwoParagraphs(t: string, mid: nat)
    requires Trimmed(t) && |Paragraphs(t)| < 2 && 0 < mid < |Sentences(t)|
    ensures var ps := [Join(Sentences(t)[..mid], " "), Join(Sentences(t)[mid..], " ")];
            Trim(ps[0] + "\n\n" + ps[1]) == Join(ps, "\n\n") && Paragraphs(Join(ps, "\n\n")) == ps
  {
    assert BlankLines.Whole(t) by { if !BlankLines.Whole(t) { BlankLineMakesTwo(t); } }
    SentencesAreSentences(t, BlankLines);
    HalvesAreParagraphs(Sentences(t)[..mid], Sentences(t)[mid..]);
  }

  lemma HalvesAreParagraphs(a: seq<string>, b: seq<string>)
    requires a != [] && b != [] && AllTidy(a) && AllTidy(b)
    requires forall p :: p in a || p in b ==> BlankLines.Whole(p)
    ensures var ps := [Join(a, " "), Join(b, " ")];
            Trim(ps[0] + "\n\n" + ps[1]) == Join(ps, "\n\n") && Paragraphs(Join(ps, "\n\n")) == ps
  {
    var x, y := Join(a, " "), Join(b, " ");
    JoinIsTrimmed(a, " ");
    JoinIsTrimmed(b, " ");
    JoinKeepsWhole(a);
    JoinKeepsWhole(b);
    assert Join([x, y], "\n\n") == x + "\n\n" + y;
    TrimOfTrimmed(x + "\n\n" + y);
    ParagraphsOfJoin([x, y]);
  }

  lemma {:induction false} SentencesAreJoinable(ps: seq<string>)
    requires ps != [] && AllTidy(ps) && forall p :: p in ps ==> SentenceGap.Whole(p)
    requires forall i :: 0 <= i < |ps| - 1 ==> Ended(ps[i])
    ensures Joinable(SentenceGap, ps, " ")
  {
    if |ps| > 1 {
      assert Ended(ps[0]);
      SentencesAreJoinable(ps[1..]);
    }
  }

  /** Sentences joined by single spaces are found again. */
  lemma SentencesOfJoin(ps: seq<string>)
    requires ps != [] && AllTidy(ps) && forall p :: p in ps ==> SentenceGap.Whole(p)
    requires forall i :: 0 <= i < |ps| - 1 ==> Ended(ps[i])
    ensures Sentences(Join(ps, " ")) == ps
  {
    SentencesAreJoinable(ps);
    SplitOfJoin(SentenceGap, ps, " ");
    TidyOfTidy(ps);
  }

  /**
   The paragraphs of a shaped text are those of the text, if it has any; a text of one paragraph and at least four
   sentences becomes two paragraphs that share its sentences out evenly, the first one getting the odd sentence.
   */
  lemma SectionedParagraphs(text: string)
    requires !HasHeading(Trim(text))
    ensures var t, found := Trim(text), Paragraphs(ShapeSectioned(text));
            && (|Paragraphs(t)| >= 2 ==> found == Paragraphs(t))
            && (|Paragraphs(t)| < 2 && |Sentences(t)| >= 4 ==>
                  && |found| == 2 && Sentences(found[0]) + Sentences(found[1]) == Sentences(t)
                  && 0 <= |Sentences(found[0])| - |Sentences(found[1])| <= 1)
            && (|Paragraphs(t)| < 2 && |Sentences(t)| < 4 ==> ShapeSectioned(text) == t)
  {
    var t := Trim(text);
    TrimIdempotent(text);
    if |Paragraphs(t)| >= 2 {
      ParagraphsAreFound(t);
    } else if |Sentences(t)| >= 4 {
      var mid := (|Sentences(t)| + 1) / 2;
      SentencesMakeTwoParagraphs(t, mid);
      HalvesOfSentences(t, mid);
    }
  }

  lemma HalvesOfSentences(t: string, mid: nat)
    requires 0 < mid < |Sentences(t)|
    ensures Sentences(Join(Sentences(t)[..mid], " ")) == Sentences(t)[..mid]
    ensures Sentences(Join(Sentences(t)[mid..], " ")) == Sentences(t)[mid..]
    ensures Sentences(t)[..mid] + Sentences(t)[mid..] == Sentences(t)
  {
    SentencesAreSentences(t, SentenceGap);
    FirstSentences(Sentences(t), mid);
    LastSentences(Sentences(t), mid);
  }

  lemma FirstSentences(ps: seq<string>, mid: nat)
    requires 0 < mid < |ps| && AllTidy(ps) && forall p :: p in ps ==> SentenceGap.Whole(p)
    requires forall i :: 0 <= i < |ps| - 1 ==> Ended(ps[i])
    ensures Sentences(Join(ps[..mid], " ")) == ps[..mid]
  {
    SentencesOfJoin(ps[..mid]);
  }

  lemma LastSentences(ps: seq<string>, mid: nat)
    requires 0 < mid < |ps| && AllTidy(ps) && forall p :: p in ps ==> SentenceGap.Whole(p)
    requires forall i :: 0 <= i < |ps| - 1 ==> Ended(ps[i])
    ensures Sentences(Join(ps[mid..], " ")) == ps[mid..]
  {
    SentencesOfJoin(ps[mid..]);
  }

  // Dropping repeated lines

  function DedupeLines(lines: seq<string>): (out: seq<string>)
    ensures (out == []) == (lines == [])
    ensures lines != [] ==> out[|out| - 1] == lines[|lines| - 1]
  {
    if lines == [] then []
    else
      var out, line := DedupeLines(lines[..|lines| - 1]), lines[|lines| - 1];
      if out == [] || out[|out| - 1] != line then out + [line] else out
  }

  function Dedupe(text: string): string { Join(DedupeLines(Newline.Split(text)), "\n") }

  method DedupeAdjacentLines(text: string) returns (r: string)
    ensures r == Dedupe(text)
  {
    var lines := Newline.Split(text);
    var out: seq<string> := [];
    for i := 0 to |lines|
      invariant out == DedupeLines(lines[..i])
    {
      assert lines[..i + 1][..i] == lines[..i];
      if |out| == 0 || out[|out| - 1] != lines[i] { out := out + [lines[i]]; }
    }
    assert lines[..|lines|] == lines;
    r := Join(out, "\n");
  }

  ghost predicate NoEqualNeighbours(s: seq<string>) { forall i :: 0 < i < |s| ==> s[i - 1] != s[i] }

  /** `out` is `lines` with some neighbouring equal lines merged: line i went to place[i]. */
  ghost predicate Collapses(lines: seq<string>, out: seq<string>, place: seq<nat>) {
    && |place| == |lines|
    && (forall i :: 0 <= i < |lines| ==> place[i] < |out| && out[place[i]] == lines[i])
    && (lines == [] ==> out == [])
    && (lines != [] ==> place[0] == 0 && place[|lines| - 1] == |out| - 1)
    && (forall i :: 0 < i < |lines| ==> place[i] == place[i - 1] || place[i] == place[i - 1] + 1)
  }

  lemma {:induction false} DedupeCollapses(lines: seq<string>) returns (place: seq<nat>)
    ensures Collapses(lines, DedupeLines(lines), place) && NoEqualNeighbours(DedupeLines(lines))
  {
    if lines == [] {
      place := [];
    } else {
      place := DedupeCollapses(lines[..|lines| - 1]);
      place := place + [|DedupeLines(lines)| - 1];
    }
  }

  lemma {:induction false} PlacesRise(lines: seq<string>, out: seq<string>, place: seq<nat>, i: nat, j: nat)
    requires Collapses(lines, out, place) && i <= j < |lines|
    ensures place[i] <= place[j]
  {
    if i < j { PlacesRise(lines, out, place, i, j - 1); }
  }

  /** What is left without the last line. */
  lemma CollapsesInit(lines: seq<string>, out: seq<string>, place: seq<nat>) returns (less: seq<string>)
    requires Collapses(lines, out, place) && lines != []
    ensures Collapses(lines[..|lines| - 1], less, place[..|lines| - 1])
    ensures out == less || (out == less + [lines[|lines| - 1]])
    ensures out == less ==> lines[|lines| - 1] in less
    ensures out == less ==> |lines| > 1 && lines[|lines| - 1] == lines[|lines| - 2]
    ensures |lines| > 1 ==> less != [] && less[|less| - 1] == lines[|lines| - 2]
  {
    var n := |lines| - 1;
    if n == 0 {
      less := [];
      assert out == [lines[0]];
    } else if place[n] == place[n - 1] {
      less := out;
    } else {
      less := out[..|out| - 1];
      forall i | 0 <= i < n ensures place[i] < |less| { PlacesRise(lines, out, place, i, n - 1); }
      assert out == less + [lines[n]];
    }
  }

  /** Merging all equal neighbours can be done in one way only. */
  lemma {:induction false} DedupeIsUnique(lines: seq<string>, out: seq<string>, place: seq<nat>)
    requires Collapses(lines, out, place) && NoEqualNeighbours(out)
    ensures out == DedupeLines(lines)
    decreases |lines|
  {
    if lines != [] {
      var less := CollapsesInit(lines, out, place);
      assert NoEqualNeighbours(less) by {
        forall i | 0 < i < |less| ensures less[i - 1] != less[i] { assert out[i - 1] != out[i]; }
      }
      DedupeIsUnique(lines[..|lines| - 1], less, place[..|lines| - 1]);
      assert out != less && |lines| > 1 ==> out[|out| - 1 - 1] != out[|out| - 1];
    }
  }

  lemma DedupeOfDeduped(out: seq<string>)
    requires NoEqualNeighbours(out)
    ensures DedupeLines(out) == out
  {
    DedupeIsUnique(out, out, seq(|out|, i => i));
  }

  lemma {:induction false} LinesAreJoinable(lines: seq<string>)
    requires lines != [] && forall p :: p in lines ==> Newline.Whole(p)
    ensures Joinable(Newline, lines, "\n")
  {
    if |lines| > 1 { LinesAreJoinable(lines[1..]); }
  }

  /**
   * The lines of the result are the lines of the text with equal neighbours merged, so no two neighbours are equal and
   * every line still occurs; doing it again changes nothing.
   */
  lemma DedupeMergesLines(text: string) returns (place: seq<nat>)
    ensures Collapses(Newline.Split(text), Newline.Split(Dedupe(text)), place)
    ensures NoEqualNeighbours(Newline.Split(Dedupe(text)))
    ensures forall line :: line in Newline.Split(text) <==> line in Newline.Split(Dedupe(text))
    ensures Dedupe(Dedupe(text)) == Dedupe(text)
  {
    var lines := Newline.Split(text);
    var runs := Newline.SplitDecomposes(text);
    PiecesAreWhole(Newline, Newline, text, lines, runs);
    place := DedupeCollapses(lines);
    CollapsesKeepsMembers(lines, DedupeLines(lines), place);
    LinesOfJoin(DedupeLines(lines));
    DedupeOfDeduped(DedupeLines(lines));
  }

  lemma LinesOfJoin(lines: seq<string>)
    requires lines != [] && forall p :: p in lines ==> Newline.Whole(p)
    ensures Newline.Split(Join(lines, "\n")) == lines
  {
    LinesAreJoinable(lines);
    SplitOfJoin(Newline, lines, "\n");
  }

  lemma {:induction false} CollapsesKeepsMembers(lines: seq<string>, out: seq<string>, place: seq<nat>)
    requires Collapses(lines, out, place)
    ensures forall line :: line in lines <==> line in out
    decreases |lines|
  {
    if lines != [] {
      var less := CollapsesInit(lines, out, place);
      CollapsesKeepsMembers(lines[..|lines| - 1], less, place[..|lines| - 1]);
      assert lines == lines[..|lines| - 1] + [lines[|lines| - 1]];
    }
  }
}
