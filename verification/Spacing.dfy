/** What trimming, collapsing and lower-casing do to a text, told by its visible characters. */
module Spacing {
  import opened Sequences
  import opened Text

  predicate Visible(c: char) { !IsSpace(c) }

  /** The visible characters of a text, in order. */
  function Ink(s: string): string { Filter(Visible, s) }

  lemma {:induction false} InkOfSpace(s: string)
    requires AllSpace(s)
    ensures Ink(s) == ""
  {
    if s != "" { InkOfSpace(s[..|s| - 1]); }
  }

  lemma InkOfThree(a: string, b: string, c: string)
    ensures Ink(a + b + c) == Ink(a) + Ink(b) + Ink(c)
  {
    FilterOfConcat(Visible, a, b);
    FilterOfConcat(Visible, a + b, c);
  }

  lemma InkOfTrim(s: string)
    ensures Ink(Trim(s)) == Ink(s)
  {
    var b, a := TrimParts(s);
    InkOfSpace(b);
    InkOfSpace(a);
    InkOfThree(b, Trim(s), a);
  }

  // ---------- Collapsing white space ----------

  /** Every piece of white space is a single blank. */
  ghost predicate Collapsed(s: string) {
    && (forall i :: 0 <= i < |s| && IsSpace(s[i]) ==> s[i] == ' ')
    && (forall i :: 0 < i < |s| ==> !IsSpace(s[i - 1]) || !IsSpace(s[i]))
  }

  lemma {:induction false} TrimStartParts(s: string) returns (run: string)
    ensures s == run + TrimStart(s) && AllSpace(run) && (TrimStart(s) == "" || !IsSpace(TrimStart(s)[0]))
  {
    run := "";
    if s != "" && IsSpace(s[0]) {
      run := TrimStartParts(s[1..]);
      run := [s[0]] + run;
    }
  }

  lemma {:induction false} TrimStartOf(run: string, rest: string)
    requires AllSpace(run) && (rest == "" || !IsSpace(rest[0]))
    ensures TrimStart(run + rest) == rest
  {
    if run != "" {
      assert (run + rest)[1..] == run[1..] + rest;
      TrimStartOf(run[1..], rest);
    } else {
      assert run + rest == rest;
    }
  }

  /** A run of white space becomes one blank... */
  lemma CollapseRun(run: string, rest: string)
    requires run != "" && AllSpace(run) && (rest == "" || !IsSpace(rest[0]))
    ensures CollapseSpaces(run + rest) == " " + CollapseSpaces(rest)
  {
    assert (run + rest)[1..] == run[1..] + rest;
    TrimStartOf(run[1..], rest);
  }

  /** ...and a visible character stays. */
  lemma CollapseVisible(c: char, rest: string)
    requires !IsSpace(c)
    ensures CollapseSpaces([c] + rest) == [c] + CollapseSpaces(rest)
  {
    assert ([c] + rest)[1..] == rest;
  }

  lemma SpaceAndRest(s: string) returns (run: string, rest: string)
    requires s != "" && IsSpace(s[0])
    ensures s == run + rest && run != "" && AllSpace(run) && (rest == "" || !IsSpace(rest[0]))
    ensures CollapseSpaces(s) == " " + CollapseSpaces(rest) && |rest| < |s|
  {
    run := TrimStartParts(s[1..]);
    rest := TrimStart(s[1..]);
    run := [s[0]] + run;
  }

  /** Collapsing keeps the visible characters, */
  lemma {:induction false} CollapseKeepsInk(s: string)
    ensures Ink(CollapseSpaces(s)) == Ink(s)
    decreases |s|
  {
    if s != "" && IsSpace(s[0]) {
      var run, rest := SpaceAndRest(s);
      CollapseKeepsInk(rest);
      InkOfSpace(run);
      InkOfSpace(" ");
      FilterOfConcat(Visible, run, rest);
      FilterOfConcat(Visible, " ", CollapseSpaces(rest));
    } else if s != "" {
      CollapseKeepsInk(s[1..]);
      FilterOfConcat(Visible, [s[0]], s[1..]);
      FilterOfConcat(Visible, [s[0]], CollapseSpaces(s[1..]));
      assert s == [s[0]] + s[1..];
    }
  }

  /** leaves single blanks between them, */
  lemma {:induction false} CollapseLeavesBlanks(s: string)
    ensures Collapsed(CollapseSpaces(s))
    ensures CollapseSpaces(s) != "" && s != "" ==> IsSpace(CollapseSpaces(s)[0]) == IsSpace(s[0])
    ensures s == "" <==> CollapseSpaces(s) == ""
    decreases |s|
  {
    if s != "" && IsSpace(s[0]) {
      var run, rest := SpaceAndRest(s);
      CollapseLeavesBlanks(rest);
    } else if s != "" {
      CollapseLeavesBlanks(s[1..]);
    }
  }

  /** and changes nothing in a text that is so already, such as its own result. */
  lemma {:induction false} CollapsedStays(s: string)
    requires Collapsed(s)
    ensures CollapseSpaces(s) == s
    decreases |s|
  {
    if s != "" {
      var rest := s[1..];
      assert forall i :: 0 <= i < |rest| ==> rest[i] == s[i + 1];
      CollapsedStays(rest);
      if IsSpace(s[0]) {
        assert rest == "" || !IsSpace(rest[0]) by { assert |s| > 1 ==> !IsSpace(s[0]) || !IsSpace(s[1]); }
        assert [s[0]] + rest == s;
        CollapseRun([s[0]], rest);
      }
    }
  }

  // ---------- Lower-casing ----------

  /** Capital letters move by 32, everything else stays. */
  lemma LowerExactly(s: string, i: nat)
    requires i < |s|
    ensures Lower(s)[i] as int == s[i] as int + if 65 <= s[i] as int <= 90 then 32 else 0
  {
  }

  lemma LowerIsIdempotent(s: string)
    ensures Lower(Lower(s)) == Lower(s)
  {
  }
}
