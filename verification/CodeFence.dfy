/** malv-assistant-reply-structure.util.ts: when an assistant reply looks cut off. */
module CodeFence {
  import opened Text

  const FENCE := "```"

  /** `text.match(/```/g)`: leftmost, non-overlapping. */
  function FenceCount(s: string): nat
    decreases |s|
  {
    if |s| < 3 then 0
    else if s[..3] == FENCE then 1 + FenceCount(s[3..])
    else FenceCount(s[1..])
  }

  predicate HasOpenFence(s: string) { FenceCount(s) % 2 == 1 }

  /** The number of backticks a text starts with. */
  function Ticks(s: string): (n: nat)
    ensures n <= |s|
  {
    if s != "" && s[0] == '`' then 1 + Ticks(s[1..]) else 0
  }

  /** Over all maximal runs of backticks, how many whole fences fit in each run. */
  function FencesInRuns(s: string): nat
    decreases |s|
  {
    if s == "" then 0
    else if s[0] == '`' then Ticks(s) / 3 + FencesInRuns(s[Ticks(s)..])
    else FencesInRuns(s[1..])
  }

  lemma {:induction false} CountAfterRun(s: string)
    ensures FenceCount(s) == Ticks(s) / 3 + FenceCount(s[Ticks(s)..])
    decreases |s|
  {
    var k := Ticks(s);
    if k == 0 {
      assert s[0..] == s;
    } else {
      assert k >= 2 ==> s[1] == '`' && Ticks(s[1..]) >= 1;
      var t := s[1..];
      if k >= 3 {
        assert t[1..] == s[2..] && s[2..][1..] == s[3..];
        assert s[2] == '`' by { assert s[2..][0] == '`'; }
        assert s[..3] == FENCE;
        assert Ticks(s[3..]) == k - 3;
        CountAfterRun(s[3..]);
        assert s[3..][k - 3..] == s[k..];
      } else if k == 1 {
        assert |s| < 3 || s[..3] != FENCE by { if |s| >= 3 { assert s[..3][1] == s[1]; } }
      } else {
        assert t[1..] == s[2..];
        assert |s| < 3 || s[..3] != FENCE by { if |s| >= 3 { assert s[..3][2] == s[2] == s[2..][0]; } }
        assert FenceCount(s) == FenceCount(t);
        assert |t| < 3 || t[..3] != FENCE by { if |t| >= 3 { assert t[..3][1] == t[1] == s[2..][0]; } }
      }
    }
  }

  /** The leftmost count is the sum over the maximal backtick runs of their length divided by three. */
  lemma {:induction false} CountIsByRuns(s: string)
    ensures FenceCount(s) == FencesInRuns(s)
    decreases |s|
  {
    if s != "" {
      if s[0] == '`' {
        CountAfterRun(s);
        CountIsByRuns(s[Ticks(s)..]);
      } else {
        assert |s| >= 3 ==> s[..3][0] == s[0];
        CountIsByRuns(s[1..]);
      }
    }
  }

  /** Counting is additive wherever the seam does not join two backticks. */
  lemma {:induction false} CountIsAdditive(a: string, b: string)
    requires a == "" || b == "" || a[|a| - 1] != '`' || b[0] != '`'
    ensures FenceCount(a + b) == FenceCount(a) + FenceCount(b)
    decreases |a|
  {
    if a == "" {
      assert a + b == b;
    } else if b == "" {
      assert a + b == a;
    } else if |a| >= 3 && a[..3] == FENCE {
      assert (a + b)[..3] == a[..3] && (a + b)[3..] == a[3..] + b;
      CountIsAdditive(a[3..], b);
    } else {
      assert (a + b)[1..] == a[1..] + b;
      assert |a + b| < 3 || (a + b)[..3] != FENCE by {
        if |a + b| >= 3 {
          if |a| >= 3 { assert (a + b)[..3] == a[..3]; }
          else { assert (a + b)[..3][|a| - 1] == a[|a| - 1] && (a + b)[..3][|a|] == b[0]; }
        }
      }
      CountIsAdditive(a[1..], b);
    }
  }

  /** Gluing text on after line breaks flips the open-fence test exactly when the new part has an open fence. */
  lemma OpenFenceAfterAppend(prior: string, separator: string, append: string)
    requires separator == "\n" || separator == "\n\n"
    ensures HasOpenFence(prior + separator + append) <==> HasOpenFence(prior) != HasOpenFence(append)
  {
    assert FenceCount(separator) == 0;
    assert separator[0] == '\n' == separator[|separator| - 1];
    CountIsAdditive(prior, separator);
    assert (prior + separator)[|prior + separator| - 1] == separator[|separator| - 1];
    CountIsAdditive(prior + separator, append);
    Parity(FenceCount(prior), FenceCount(append));
  }

  lemma Parity(x: nat, y: nat)
    ensures (x + y) % 2 == 1 <==> (x % 2 == 1) != (y % 2 == 1)
  {
  }

  // ---------- Structural incompleteness ----------

  predicate IsLineTerminator(c: char) { c == '\n' || c == '\r' || c == '\U{2028}' || c == '\U{2029}' }

  predicate IsWordChar(c: char) { 'a' <= c <= 'z' || 'A' <= c <= 'Z' || '0' <= c <= '9' || c == '_' }

  predicate EndsWithEllipsis(t: string) { EndsWith(t, "...") || EndsWith(t, "\U{2026}") }

  /** `/(?:^|\n)[-*+]\s*$/m`: some line holds nothing after a list marker. */
  predicate HasDanglingListMarker(s: string) {
    exists i, j :: 0 <= i < j <= |s| && IsDanglingMarker(s, i, j)
  }

  predicate IsDanglingMarker(s: string, i: nat, j: nat)
    requires i < j <= |s|
  {
    && (i == 0 || IsLineTerminator(s[i - 1]))
    && (s[i] == '-' || s[i] == '*' || s[i] == '+')
    && (forall k :: i < k < j ==> IsSpace(s[k]))
    && (j == |s| || IsLineTerminator(s[j]))
  }

  predicate EndsWithWord(t: string, word: string) {
    EndsWith(Lower(t), word) && (|t| == |word| || !IsWordChar(t[|t| - |word| - 1]))
  }

  predicate EndsWithConjunction(t: string) {
    EndsWithWord(t, "and") || EndsWithWord(t, "or") || EndsWithWord(t, "but") || EndsWithWord(t, "because")
  }

  predicate EndsWithPhrase(t: string) {
    EndsWithWord(t, "so that") || EndsWithWord(t, "such that") || EndsWithWord(t, "as well as")
  }

  predicate EndsWithConnector(t: string) { EndsWithConjunction(t) || EndsWithPhrase(t) }

  predicate LooksIncomplete(reply: string) {
    var t := TrimEnd(reply);
    t != "" && (HasOpenFence(reply) || EndsWithEllipsis(t) || HasDanglingListMarker(reply) || EndsWithConnector(t))
  }

  // ---------- Incompleteness after an append ----------

  /** What a text ends with is told from what follows its last line break. */
  lemma SuffixAfterBreak(x: string, t: string, w: string)
    requires x != "" && x[|x| - 1] == '\n' && forall i :: 0 <= i < |w| ==> w[i] != '\n'
    ensures EndsWith(x + t, w) <==> EndsWith(t, w)
  {
    var s := x + t;
    if |w| <= |t| {
      assert s[|s| - |w|..] == t[|t| - |w|..];
    } else if |w| <= |s| {
      assert s[|s| - |w|..][|w| - |t| - 1] == x[|x| - 1];
    }
  }

  lemma LowerOfConcat(x: string, t: string)
    ensures Lower(x + t) == Lower(x) + Lower(t)
  {
  }

  lemma WordAfterBreak(x: string, t: string, w: string)
    requires x != "" && x[|x| - 1] == '\n' && forall i :: 0 <= i < |w| ==> w[i] != '\n'
    ensures EndsWithWord(x + t, w) <==> EndsWithWord(t, w)
  {
    LowerOfConcat(x, t);
    SuffixAfterBreak(Lower(x), Lower(t), w);
  }

  lemma ConjunctionAfterBreak(x: string, t: string)
    requires x != "" && x[|x| - 1] == '\n'
    ensures EndsWithConjunction(x + t) <==> EndsWithConjunction(t)
  {
    WordAfterBreak(x, t, "and");
    WordAfterBreak(x, t, "or");
    WordAfterBreak(x, t, "but");
    WordAfterBreak(x, t, "because");
  }

  lemma PhraseAfterBreak(x: string, t: string)
    requires x != "" && x[|x| - 1] == '\n'
    ensures EndsWithPhrase(x + t) <==> EndsWithPhrase(t)
  {
    WordAfterBreak(x, t, "so that");
    WordAfterBreak(x, t, "such that");
    WordAfterBreak(x, t, "as well as");
  }

  lemma EllipsisAfterBreak(x: string, t: string)
    requires x != "" && x[|x| - 1] == '\n'
    ensures EndsWithEllipsis(x + t) <==> EndsWithEllipsis(t)
  {
    SuffixAfterBreak(x, t, "...");
    SuffixAfterBreak(x, t, "\U{2026}");
  }

  lemma DanglingInPart(a: string, b: string, i: nat, j: nat)
    requires a != "" && a[|a| - 1] == '\n' && i < j <= |a + b| && IsDanglingMarker(a + b, i, j)
    ensures HasDanglingListMarker(a) || HasDanglingListMarker(b)
  {
    var s, n := a + b, |a|;
    if i < n {
      var end := if j < n then j else n - 1;
      assert i != n - 1;
      assert forall k :: 0 <= k < n ==> s[k] == a[k];
      assert IsDanglingMarker(a, i, end);
    } else {
      assert forall k :: 0 <= k < |b| ==> s[n + k] == b[k];
      assert IsDanglingMarker(b, i - n, j - n);
    }
  }

  lemma DanglingOfFirst(a: string, b: string, i: nat, j: nat)
    requires a != "" && a[|a| - 1] == '\n' && i < j <= |a| && IsDanglingMarker(a, i, j)
    ensures HasDanglingListMarker(a + b)
  {
    var s, n := a + b, |a|;
    assert forall k :: 0 <= k < n ==> s[k] == a[k];
    assert i != n - 1;
    assert IsDanglingMarker(s, i, if j < n then j else n - 1);
  }

  lemma DanglingOfSecond(a: string, b: string, i: nat, j: nat)
    requires a != "" && a[|a| - 1] == '\n' && i < j <= |b| && IsDanglingMarker(b, i, j)
    ensures HasDanglingListMarker(a + b)
  {
    var s, n := a + b, |a|;
    assert s[n - 1] == a[n - 1] && (i > 0 ==> s[n + i - 1] == b[i - 1]) && s[n + i] == b[i];
    forall k | n + i < k < n + j ensures IsSpace(s[k]) { assert s[k] == b[k - n]; }
    assert j < |b| ==> s[n + j] == b[j];
    assert IsDanglingMarker(s, n + i, n + j);
  }

  /** A dangling list marker stays one whatever follows after line breaks. */
  lemma DanglingAfterBreak(a: string, b: string)
    requires a != "" && a[|a| - 1] == '\n'
    ensures HasDanglingListMarker(a + b) <==> HasDanglingListMarker(a) || HasDanglingListMarker(b)
  {
    if HasDanglingListMarker(a + b) {
      var i, j :| 0 <= i < j <= |a + b| && IsDanglingMarker(a + b, i, j);
      DanglingInPart(a, b, i, j);
    }
    if i, j :| 0 <= i < j <= |a| && IsDanglingMarker(a, i, j) { DanglingOfFirst(a, b, i, j); }
    if i, j :| 0 <= i < j <= |b| && IsDanglingMarker(b, i, j) { DanglingOfSecond(a, b, i, j); }
  }

  /** Line breaks at the end neither make nor cure a dangling list marker. */
  lemma DanglingBeforeBreak(prior: string, separator: string)
    requires separator == "\n" || separator == "\n\n"
    ensures HasDanglingListMarker(prior + separator) <==> HasDanglingListMarker(prior)
  {
    var s, n := prior + separator, |prior|;
    assert forall k :: 0 <= k < n ==> s[k] == prior[k];
    assert forall k :: n <= k < |s| ==> s[k] == '\n';
    if HasDanglingListMarker(s) {
      var i, j :| 0 <= i < j <= |s| && IsDanglingMarker(s, i, j);
      assert i < n;
      assert IsDanglingMarker(prior, i, if j < n then j else n);
    }
    if HasDanglingListMarker(prior) {
      var i, j :| 0 <= i < j <= n && IsDanglingMarker(prior, i, j);
      assert IsDanglingMarker(s, i, j);
    }
  }

  /**
   After an append a reply looks cut off if and only if one of its parts leaves a code block open and the other does
   not, or the new part trails off, or either part has a dangling list marker: that one no later text can cure.
   */
  lemma IncompleteAfterAppend(prior: string, separator: string, append: string)
    requires separator == "\n" || separator == "\n\n"
    requires append != "" && Trimmed(append)
    ensures LooksIncomplete(prior + separator + append)
            <==> || HasOpenFence(prior) != HasOpenFence(append)
                 || EndsWithEllipsis(append) || EndsWithConnector(append)
                 || HasDanglingListMarker(prior) || HasDanglingListMarker(append)
  {
    var x := prior + separator;
    assert x != "" && x[|x| - 1] == '\n' by { assert x[|x| - 1] == separator[|separator| - 1]; }
    assert TrimEnd(x + append) == x + append;
    OpenFenceAfterAppend(prior, separator, append);
    EllipsisAfterBreak(x, append);
    ConjunctionAfterBreak(x, append);
    PhraseAfterBreak(x, append);
    DanglingAfterBreak(x, append);
    DanglingBeforeBreak(prior, separator);
  }

  lemma DanglingStays(prior: string, separator: string, append: string)
    requires (separator == "\n" || separator == "\n\n") && HasDanglingListMarker(prior)
    ensures HasDanglingListMarker(prior + (separator + append))
  {
    var x := prior + separator;
    assert x[|x| - 1] == separator[|separator| - 1];
    assert prior + (separator + append) == x + append;
    DanglingBeforeBreak(prior, separator);
    DanglingAfterBreak(x, append);
  }

  lemma DanglingIsVisible(reply: string)
    requires HasDanglingListMarker(reply)
    ensures LooksIncomplete(reply)
  {
    var i, j :| 0 <= i < j <= |reply| && IsDanglingMarker(reply, i, j);
    VisibleStays(reply, i);
  }

  // ---------- Incompleteness, told from the text ----------

  const CONNECTORS := {"and", "or", "but", "because", "so that", "such that", "as well as"}

  lemma WordCharExactly(c: char)
    ensures IsWordChar(c)
            <==> 48 <= c as int <= 57 || 65 <= c as int <= 90 || c as int == 95 || 97 <= c as int <= 122
  {
  }

  /** The reply ends, but for white space, in dots or in a connecting word of its own. */
  ghost predicate TrailsOff(reply: string, before: string, ending: string, space: string) {
    && reply == before + ending + space && AllSpace(space)
    && (|| ending == "..." || ending == "\U{2026}"
        || (Lower(ending) in CONNECTORS && (before != "" ==> !IsWordChar(before[|before| - 1]))))
  }

  /** A line of the reply holds a list marker and nothing but white space after it. */
  ghost predicate Dangles(reply: string, before: string, marker: char, space: string, after: string) {
    && reply == before + [marker] + space + after && marker in {'-', '*', '+'} && AllSpace(space)
    && (before != "" ==> before[|before| - 1] in {'\n', '\r', '\U{2028}', '\U{2029}'})
    && (after != "" ==> after[0] in {'\n', '\r', '\U{2028}', '\U{2029}'})
  }

  lemma DanglesExactly(reply: string)
    ensures HasDanglingListMarker(reply)
            <==> exists before, marker, space, after :: Dangles(reply, before, marker, space, after)
  {
    if HasDanglingListMarker(reply) {
      var i, j :| 0 <= i < j <= |reply| && IsDanglingMarker(reply, i, j);
      assert reply == reply[..i] + [reply[i]] + reply[i + 1..j] + reply[j..];
      assert Dangles(reply, reply[..i], reply[i], reply[i + 1..j], reply[j..]);
    }
    if before, marker, space, after :| Dangles(reply, before, marker, space, after) {
      var i, j := |before|, |before| + 1 + |space|;
      assert reply[i] == marker && j <= |reply|;
      forall k | i < k < j ensures IsSpace(reply[k]) { assert reply[k] == space[k - i - 1]; }
      assert j < |reply| ==> reply[j] == after[0];
      assert IsDanglingMarker(reply, i, j);
    }
  }

  lemma EndsWithExactly(t: string, w: string)
    requires EndsWith(t, w)
    ensures t == t[..|t| - |w|] + w
  {
  }

  lemma WordEnds(t: string, word: string) returns (before: string, ending: string)
    requires EndsWithWord(t, word)
    ensures t == before + ending && Lower(ending) == word
    ensures before != "" ==> !IsWordChar(before[|before| - 1])
  {
    before, ending := t[..|t| - |word|], t[|t| - |word|..];
    assert Lower(t)[|t| - |word|..] == Lower(ending);
  }

  lemma WordOfEnding(before: string, ending: string)
    requires before != "" ==> !IsWordChar(before[|before| - 1])
    ensures EndsWithWord(before + ending, Lower(ending))
  {
    LowerOfConcat(before, ending);
    assert (before + ending)[..|before|] == before;
  }

  lemma ConnectorEnds(t: string) returns (before: string, ending: string)
    requires EndsWithConnector(t)
    ensures t == before + ending && Lower(ending) in CONNECTORS
    ensures before != "" ==> !IsWordChar(before[|before| - 1])
  {
    var word :| word in CONNECTORS && EndsWithWord(t, word);
    before, ending := WordEnds(t, word);
  }

  lemma ConnectorLastChar(ending: string)
    requires Lower(ending) in CONNECTORS
    ensures ending != "" && !IsSpace(ending[|ending| - 1])
  {
    assert Lower(ending) != "" && Lower(ending)[|ending| - 1] in {'d', 'r', 't', 'e', 's'};
  }

  lemma {:induction false} TrimEndOf(t: string, space: string)
    requires AllSpace(space) && t != "" && !IsSpace(t[|t| - 1])
    ensures TrimEnd(t + space) == t
    decreases |space|
  {
    if space == "" {
      assert t + space == t;
    } else {
      assert (t + space)[..|t + space| - 1] == t + space[..|space| - 1];
      TrimEndOf(t, space[..|space| - 1]);
    }
  }

  lemma ConnectorByWord(t: string, word: string)
    requires word in CONNECTORS && EndsWithWord(t, word)
    ensures EndsWithConnector(t)
  {
  }

  lemma EllipsisByDots(before: string, ending: string)
    requires ending == "..." || ending == "\U{2026}"
    ensures EndsWithEllipsis(before + ending) && !IsSpace(ending[|ending| - 1])
  {
    assert (before + ending)[|before|..] == ending;
  }

  lemma EllipsisOrConnector(before: string, ending: string)
    requires || ending == "..." || ending == "\U{2026}"
             || (Lower(ending) in CONNECTORS && (before != "" ==> !IsWordChar(before[|before| - 1])))
    ensures ending != "" && !IsSpace(ending[|ending| - 1])
    ensures EndsWithEllipsis(before + ending) || EndsWithConnector(before + ending)
  {
    if Lower(ending) in CONNECTORS && (before != "" ==> !IsWordChar(before[|before| - 1])) {
      ConnectorLastChar(ending);
      WordOfEnding(before, ending);
      ConnectorByWord(before + ending, Lower(ending));
    } else {
      EllipsisByDots(before, ending);
    }
  }

  lemma TrailsOffHere(reply: string, before: string, ending: string, space: string)
    requires TrailsOff(reply, before, ending, space)
    ensures TrimEnd(reply) != "" && (EndsWithEllipsis(TrimEnd(reply)) || EndsWithConnector(TrimEnd(reply)))
  {
    EllipsisOrConnector(before, ending);
    assert (before + ending)[|before + ending| - 1] == ending[|ending| - 1];
    TrimEndOf(before + ending, space);
  }

  lemma EllipsisEnds(t: string) returns (before: string, ending: string)
    requires EndsWithEllipsis(t)
    ensures t == before + ending && (ending == "..." || ending == "\U{2026}")
  {
    ending := if EndsWith(t, "...") then "..." else "\U{2026}";
    EndsWithExactly(t, ending);
    before := t[..|t| - |ending|];
  }

  lemma SplitOffSpace(reply: string) returns (space: string)
    ensures reply == TrimEnd(reply) + space && AllSpace(space)
  {
    TrimEndParts(reply);
    space := reply[|TrimEnd(reply)|..];
  }

  lemma TrailsOffSomewhere(reply: string) returns (before: string, ending: string, space: string)
    requires EndsWithEllipsis(TrimEnd(reply)) || EndsWithConnector(TrimEnd(reply))
    ensures TrailsOff(reply, before, ending, space)
  {
    space := SplitOffSpace(reply);
    if EndsWithEllipsis(TrimEnd(reply)) {
      before, ending := EllipsisEnds(TrimEnd(reply));
    } else {
      before, ending := ConnectorEnds(TrimEnd(reply));
    }
  }

  /**
   A reply looks cut off if and only if it holds a visible character and leaves a code block open, or it trails off,
   or one of its lines holds a list marker only.
   */
  lemma IncompleteExactly(reply: string)
    ensures LooksIncomplete(reply) <==>
              || ((exists i :: 0 <= i < |reply| && !IsSpace(reply[i])) && FencesInRuns(reply) % 2 == 1)
              || (exists before, ending, space :: TrailsOff(reply, before, ending, space))
              || (exists before, marker, space, after :: Dangles(reply, before, marker, space, after))
  {
    CountIsByRuns(reply);
    DanglesExactly(reply);
    VisibleExactly(reply);
    if HasDanglingListMarker(reply) { DanglingIsVisible(reply); }
    if EndsWithEllipsis(TrimEnd(reply)) || EndsWithConnector(TrimEnd(reply)) {
      var before, ending, space := TrailsOffSomewhere(reply);
    }
    if before, ending, space :| TrailsOff(reply, before, ending, space) {
      TrailsOffHere(reply, before, ending, space);
    }
  }

  lemma VisibleExactly(s: string)
    ensures TrimEnd(s) != "" <==> exists i :: 0 <= i < |s| && !IsSpace(s[i])
  {
    TrimEndParts(s);
    if TrimEnd(s) != "" { assert s[|TrimEnd(s)| - 1] == TrimEnd(s)[|TrimEnd(s)| - 1]; }
    if i :| 0 <= i < |s| && !IsSpace(s[i]) { VisibleStays(s, i); }
  }
}
