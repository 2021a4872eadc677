/** The JavaScript string operations that the other modules need: trim, indexOf, lower-casing. */
module Text {

  /** White space and line terminators, the characters that `trim` and `\s` mean. */
  predicate IsSpace(c: char) {
    || c == ' ' || '\t' <= c <= '\r' || c == '\U{00A0}' || c == '\U{1680}' || '\U{2000}' <= c <= '\U{200A}'
    || c == '\U{2028}' || c == '\U{2029}' || c == '\U{202F}' || c == '\U{205F}' || c == '\U{3000}' || c == '\U{FEFF}'
  }

  /** The same characters by their code points. */
  lemma SpaceExactly(c: char)
    ensures IsSpace(c)
            <==> || 9 <= c as int <= 13 || 8192 <= c as int <= 8202
                 || c as int in {32, 160, 5760, 8232, 8233, 8239, 8287, 12288, 65279}
  {
  }

  ghost predicate AllSpace(s: string) { forall i :: 0 <= i < |s| ==> IsSpace(s[i]) }

  function Trim(s: string): string
    decreases |s|
  {
    if s == "" then s
    else if IsSpace(s[0]) then Trim(s[1..])
    else TrimEnd(s)
  }

  function TrimEnd(s: string): string
    decreases |s|
  {
    if s != "" && IsSpace(s[|s| - 1]) then TrimEnd(s[..|s| - 1]) else s
  }

  function TrimStart(s: string): (r: string)
    ensures |r| <= |s|
  {
    if s != "" && IsSpace(s[0]) then TrimStart(s[1..]) else s
  }

  ghost predicate Trimmed(s: string) { s == "" || (!IsSpace(s[0]) && !IsSpace(s[|s| - 1])) }

  lemma {:induction false} TrimEndParts(s: string)
    ensures |TrimEnd(s)| <= |s| && TrimEnd(s) == s[..|TrimEnd(s)|] && AllSpace(s[|TrimEnd(s)|..])
    ensures TrimEnd(s) != "" ==> !IsSpace(TrimEnd(s)[|TrimEnd(s)| - 1])
    decreases |s|
  {
    if s != "" && IsSpace(s[|s| - 1]) {
      TrimEndParts(s[..|s| - 1]);
      assert s[|TrimEnd(s)|..] == s[..|s| - 1][|TrimEnd(s)|..] + [s[|s| - 1]];
    }
  }

  lemma {:induction false} VisibleStays(s: string, i: nat)
    requires i < |s| && !IsSpace(s[i])
    ensures TrimEnd(s) != ""
    decreases |s|
  {
    if IsSpace(s[|s| - 1]) { VisibleStays(s[..|s| - 1], i); }
  }

  /** Trimming takes white space off both ends and nothing else. */
  lemma {:induction false} TrimParts(s: string) returns (before: string, after: string)
    ensures s == before + Trim(s) + after && AllSpace(before) && AllSpace(after) && Trimmed(Trim(s))
    decreases |s|
  {
    if s == "" {
      before, after := "", "";
    } else if IsSpace(s[0]) {
      before, after := TrimParts(s[1..]);
      before := [s[0]] + before;
    } else {
      TrimEndParts(s);
      before, after := "", s[|Trim(s)|..];
    }
  }

  /** Conversely, whatever is left of a string between white space is its trimmed form. */
  lemma TrimUnique(before: string, t: string, after: string)
    requires AllSpace(before) && AllSpace(after) && Trimmed(t)
    ensures Trim(before + t + after) == t
  {
    var s := before + t + after;
    var b, a := TrimParts(s);
    var r := Trim(s);
    assert r == s[|b|..|b| + |r|] && t == s[|before|..|before| + |t|];
    if t != "" { assert s[|before|] == t[0] && s[|before| + |t| - 1] == t[|t| - 1]; }
    if r != "" { assert s[|b|] == r[0] && s[|b| + |r| - 1] == r[|r| - 1]; }
    assert forall i :: 0 <= i < |s| && !IsSpace(s[i]) ==> |before| <= i < |before| + |t|;
    assert forall i :: 0 <= i < |s| && !IsSpace(s[i]) ==> |b| <= i < |b| + |r|;
  }

  lemma TrimOfTrimmed(s: string)
    requires Trimmed(s)
    ensures Trim(s) == s
  {
    TrimUnique("", s, "");
    assert "" + s + "" == s;
  }

  lemma TrimIdempotent(s: string)
    ensures Trim(Trim(s)) == Trim(s) && Trimmed(Trim(s))
  {
    var b, a := TrimParts(s);
    TrimOfTrimmed(Trim(s));
  }

  /** Trimming a text that ends in trimmed text takes white space off what comes before it only. */
  lemma {:induction false} TrimKeepsTail(x: string, t: string) returns (k: nat)
    requires t != "" && Trimmed(t)
    ensures k <= |x| && Trim(x + t) == x[k..] + t
    decreases |x|
  {
    k := 0;
    if x == "" {
      assert x + t == t;
      TrimOfTrimmed(t);
    } else if IsSpace(x[0]) {
      k := TrimKeepsTail(x[1..], t);
      k := k + 1;
      assert (x + t)[1..] == x[1..] + t;
    } else {
      TrimOfTrimmed(x + t);
    }
  }

  predicate OccursAt(s: string, pat: string, i: int) {
    0 <= i && i + |pat| <= |s| && s[i..i + |pat|] == pat
  }

  /** `s.indexOf(pat, from)` for a start within the string. */
  function IndexOf(s: string, pat: string, from: nat): (r: int)
    requires from <= |s|
    ensures r == -1 || (from <= r && OccursAt(s, pat, r))
    decreases |s| - from
  {
    if OccursAt(s, pat, from) then from
    else if from == |s| then -1
    else IndexOf(s, pat, from + 1)
  }

  /** What `indexOf` finds is the first occurrence, and it misses none. */
  lemma {:induction false} IndexOfIsFirst(s: string, pat: string, from: nat)
    requires from <= |s|
    ensures var r := IndexOf(s, pat, from); forall i :: from <= i && (r == -1 || i < r) ==> !OccursAt(s, pat, i)
    decreases |s| - from
  {
    if !OccursAt(s, pat, from) && from < |s| {
      IndexOfIsFirst(s, pat, from + 1);
    } else if from == |s| {
      assert forall i :: from < i ==> !OccursAt(s, pat, i);
    }
  }

  predicate Contains(s: string, pat: string) { IndexOf(s, pat, 0) != -1 }

  lemma ContainsIff(s: string, pat: string)
    ensures Contains(s, pat) <==> exists i :: OccursAt(s, pat, i)
  {
    IndexOfIsFirst(s, pat, 0);
    if Contains(s, pat) { assert OccursAt(s, pat, IndexOf(s, pat, 0)); }
  }

  predicate StartsWith(s: string, pat: string) { |pat| <= |s| && s[..|pat|] == pat }

  predicate EndsWith(s: string, pat: string) { |pat| <= |s| && s[|s| - |pat|..] == pat }

  /** Lower-casing, over ASCII letters. */
  function LowerChar(c: char): char {
    if 'A' <= c <= 'Z' then (c as int - 'A' as int + 'a' as int) as char else c
  }

  function Lower(s: string): (r: string)
    ensures |r| == |s|
  {
    seq(|s|, i requires 0 <= i < |s| => LowerChar(s[i]))
  }

  /** `replace(/\s+/g, " ")`. */
  function CollapseSpaces(s: string): string
    decreases |s|
  {
    if s == "" then ""
    else if IsSpace(s[0]) then " " + CollapseSpaces(TrimStart(s[1..]))
    else [s[0]] + CollapseSpaces(s[1..])
  }

  function Concat(parts: seq<string>): string {
    if parts == [] then "" else Concat(parts[..|parts| - 1]) + parts[|parts| - 1]
  }

  lemma ConcatLast(first: string, parts: seq<string>, last: string)
    ensures first + Concat(parts + [last]) == (first + Concat(parts)) + last
  {
    assert (parts + [last])[..|parts|] == parts;
  }
}
