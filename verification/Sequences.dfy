/** Searching and filtering a list. */
module Sequences {
  import opened Wrappers

  /** The index of the first row that matches. */
  function Find<T>(rows: seq<T>, hit: T -> bool): (r: Option<nat>)
    ensures r.None? ==> forall i :: 0 <= i < |rows| ==> !hit(rows[i])
    ensures r.Some? ==> r.value < |rows| && hit(rows[r.value]) && forall i :: 0 <= i < r.value ==> !hit(rows[i])
  {
    if rows == [] then None
    else if hit(rows[0]) then Some(0)
    else
      match Find(rows[1..], hit)
      case None => None
      case Some(i) => Some(i + 1)
  }

  /** `Array.prototype.filter`. */
  function Filter<T>(keep: T -> bool, rows: seq<T>): (r: seq<T>)
    ensures |r| <= |rows|
  {
    if rows == [] then []
    else Filter(keep, rows[..|rows| - 1]) + (if keep(rows[|rows| - 1]) then [rows[|rows| - 1]] else [])
  }

  lemma {:induction false} FilterOfConcat<T>(keep: T -> bool, a: seq<T>, b: seq<T>)
    ensures Filter(keep, a + b) == Filter(keep, a) + Filter(keep, b)
  {
    if b == [] {
      assert a + b == a;
    } else {
      var n := |a + b| - 1;
      assert (a + b)[..n] == a + b[..|b| - 1] && (a + b)[n] == b[|b| - 1];
      FilterOfConcat(keep, a, b[..|b| - 1]);
    }
  }
}
