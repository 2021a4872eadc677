/** The history window of chat-context-assembly.service.ts: fetch a few rows too many, and keep the last that count. */
module HistoryWindow {
  import opened Sequences
  import opened Text

  const SLACK := 6

  datatype Row = Row(placeholder: bool, role: string, content: string, status: string)

  /** The filter both callers apply; an absent content counts as empty. */
  predicate Keeps(m: Row) {
    && !m.placeholder
    && !(m.role == "assistant" && Trim(m.content) == ""
         && (m.status == "thinking" || m.status == "streaming" || m.status == "pending"))
  }

  function Reverse<T>(s: seq<T>): (r: seq<T>)
    ensures |r| == |s|
  {
    seq(|s|, i requires 0 <= i < |s| => s[|s| - 1 - i])
  }

  function LastN<T>(s: seq<T>, n: nat): seq<T> { if n >= |s| then s else s[|s| - n..] }

  /** `s.slice(-n)`: for n = 0 that is the whole list. */
  function SliceFromEnd<T>(s: seq<T>, n: nat): seq<T> { if n == 0 then s else LastN(s, n) }

  /** `find({ order: { createdAt: "DESC" }, take })` over a thread given oldest first. */
  function FetchNewest<T>(thread: seq<T>, take: nat): seq<T> { Reverse(LastN(thread, take)) }

  /** The window that `assemble` and `loadReflexThreadSlice` compute. */
  function Window<T>(keep: T -> bool, thread: seq<T>, limit: nat): seq<T> {
    SliceFromEnd(Filter(keep, Reverse(FetchNewest(thread, limit + SLACK))), limit)
  }

  function MessageWindow(thread: seq<Row>, limit: nat): seq<Row> { Window(Keeps, thread, limit) }

  /** The survivors among the rows fetched. */
  function Survivors<T>(keep: T -> bool, thread: seq<T>, limit: nat): seq<T> {
    Filter(keep, LastN(thread, limit + 6))
  }

  /** Filtering the fetched rows gives the end of the filtered thread. */
  lemma SurvivorsAreASuffix<T>(keep: T -> bool, thread: seq<T>, limit: nat)
    ensures var k := |Survivors(keep, thread, limit)|;
            k <= |Filter(keep, thread)| && Survivors(keep, thread, limit) == LastN(Filter(keep, thread), k)
    ensures |thread| <= limit + 6 ==> Survivors(keep, thread, limit) == Filter(keep, thread)
  {
    var fetched := LastN(thread, limit + SLACK);
    var older := thread[..|thread| - |fetched|];
    assert thread == older + fetched;
    FilterOfConcat(keep, older, fetched);
  }

  /** For every limit above 0, the window is the end of the filtered thread, as long as the fetched survivors reach. */
  lemma WindowIsEndOfSurvivors<T>(keep: T -> bool, thread: seq<T>, limit: nat)
    requires limit > 0
    ensures var k := |Survivors(keep, thread, limit)|;
            Window(keep, thread, limit) == LastN(Filter(keep, thread), if limit < k then limit else k)
  {
    ReverseTwice(LastN(thread, limit + SLACK));
    SurvivorsAreASuffix(keep, thread, limit);
    LastOfLast(Filter(keep, thread), |Survivors(keep, thread, limit)|, limit);
  }

  lemma ReverseTwice<T>(s: seq<T>)
    ensures Reverse(Reverse(s)) == s
  {
  }

  lemma LastOfLast<T>(s: seq<T>, k: nat, n: nat)
    requires k <= |s|
    ensures LastN(LastN(s, k), n) == LastN(s, if n < k then n else k)
  {
  }

  /** It is the true last-`limit` window if and only if enough survivors were fetched, or none was left behind. */
  lemma WindowIsTrueExactly<T>(keep: T -> bool, thread: seq<T>, limit: nat)
    requires limit > 0
    ensures var k := |Survivors(keep, thread, limit)|;
            Window(keep, thread, limit) == LastN(Filter(keep, thread), limit)
            <==> k >= limit || k == |Filter(keep, thread)|
  {
    WindowIsEndOfSurvivors(keep, thread, limit);
    SurvivorsAreASuffix(keep, thread, limit);
  }

  /** In particular, whenever at most six of the fetched rows are dropped. */
  lemma SixDropsAreHarmless<T>(keep: T -> bool, thread: seq<T>, limit: nat)
    requires limit > 0
    requires |LastN(thread, limit + 6)| <= |Survivors(keep, thread, limit)| + 6
    ensures Window(keep, thread, limit) == LastN(Filter(keep, thread), limit)
  {
    WindowIsTrueExactly(keep, thread, limit);
    SurvivorsAreASuffix(keep, thread, limit);
  }

  /** Which rows count, by their columns: text is needed only of an assistant row that is still being written. */
  lemma KeepsExactly(m: Row)
    ensures Keeps(m) <==>
              && !m.placeholder
              && (|| m.role != "assistant"
                  || m.status !in {"thinking", "streaming", "pending"}
                  || exists i :: 0 <= i < |m.content| && !IsSpace(m.content[i]))
  {
    var b, a := TrimParts(m.content);
    if Trim(m.content) == "" {
      assert m.content == b + a;
      assert forall i :: 0 <= i < |m.content| ==> IsSpace(m.content[i]);
    } else {
      assert m.content[|b|] == Trim(m.content)[0];
    }
  }

  predicate Drops(m: Row) { !Keeps(m) }

  lemma {:induction false} KeptAndDropped(rows: seq<Row>)
    ensures |Filter(Keeps, rows)| + |Filter(Drops, rows)| == |rows|
  {
    if rows != [] { KeptAndDropped(rows[..|rows| - 1]); }
  }

  lemma {:induction false} FilterKeeps(rows: seq<Row>)
    ensures forall m :: m in Filter(Keeps, rows) ==> m in rows && Keeps(m)
  {
    if rows != [] { FilterKeeps(rows[..|rows| - 1]); }
  }

  /** The model never sees a placeholder or an empty unfinished reply, and a window is never longer than its limit. */
  lemma WindowHoldsMessages(thread: seq<Row>, limit: nat)
    requires limit > 0
    ensures |MessageWindow(thread, limit)| <= limit
    ensures forall m :: m in MessageWindow(thread, limit) ==> m in thread && Keeps(m)
  {
    WindowIsEndOfSurvivors(Keeps, thread, limit);
    FilterKeeps(thread);
  }

  lemma FewDropped(thread: seq<Row>, n: nat)
    ensures |LastN(thread, n)| - |Filter(Keeps, LastN(thread, n))| <= |Filter(Drops, thread)|
  {
    var fetched := LastN(thread, n);
    var older := thread[..|thread| - |fetched|];
    assert thread == older + fetched;
    FilterOfConcat(Drops, older, fetched);
    KeptAndDropped(fetched);
  }

  /** A thread in which at most six rows are placeholders or empty unfinished replies gets its true window. */
  lemma FewPlaceholdersAreHarmless(thread: seq<Row>, limit: nat)
    requires limit > 0 && |Filter(Drops, thread)| <= 6
    ensures MessageWindow(thread, limit) == LastN(Filter(Keeps, thread), limit)
  {
    FewDropped(thread, limit + 6);
    SixDropsAreHarmless(Keeps, thread, limit);
  }
}
