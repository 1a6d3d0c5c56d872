/** Counting points of time in an interval. */
module Timeline {

  predicate Sorted(ts: seq<int>) {
    forall i, j :: 0 <= i <= j < |ts| ==> ts[i] <= ts[j]
  }

  /** How many of ts lie in the closed interval [a, b]. */
  function Count(ts: seq<int>, a: int, b: int): nat {
    if ts == [] then 0 else (if a <= ts[0] <= b then 1 else 0) + Count(ts[1..], a, b)
  }

  lemma {:induction false} CountedFirst(ts: seq<int>, a: int, b: int, i: nat)
    requires Sorted(ts) && (ts != [] ==> a <= ts[0]) && i < Count(ts, a, b)
    ensures i < |ts| && ts[i] <= b
  {
    if i > 0 {
      if ts[0] > b {
        NoneAfter(ts, a, b);
      }
      CountedFirst(ts[1..], a, b, i - 1);
    } else if ts[0] > b {
      NoneAfter(ts, a, b);
    }
  }

  lemma {:induction false} NoneAfter(ts: seq<int>, a: int, b: int)
    requires Sorted(ts) && (ts != [] ==> ts[0] > b)
    ensures Count(ts, a, b) == 0
  {
    if ts != [] {
      NoneAfter(ts[1..], a, b);
    }
  }

  /** More than n points in [a, b]: two of them, n places apart, both lie in it. */
  lemma {:induction false} CrowdedSpan(ts: seq<int>, a: int, b: int, n: nat) returns (i: nat)
    requires Sorted(ts) && Count(ts, a, b) > n
    ensures i + n < |ts| && a <= ts[i] && ts[i + n] <= b
  {
    if ts[0] < a {
      i := CrowdedSpan(ts[1..], a, b, n);
      i := i + 1;
    } else {
      i := 0;
      CountedFirst(ts, a, b, n);
    }
  }

  lemma MulMonotone(a: int, b: int, c: int)
    requires a <= b && 0 <= c
    ensures a * c <= b * c
  {
  }

  /** The places from `lo` on whose points lie in the interval. */
  function Within(ts: seq<int>, a: int, b: int, lo: nat): set<nat> {
    set i: nat | lo <= i < |ts| && a <= ts[i] <= b
  }

  lemma {:induction false} CountFrom(ts: seq<int>, a: int, b: int, lo: nat)
    requires lo <= |ts|
    ensures Count(ts[lo..], a, b) == |Within(ts, a, b, lo)|
    decreases |ts| - lo
  {
    if lo < |ts| {
      CountFrom(ts, a, b, lo + 1);
      assert ts[lo..][1..] == ts[lo + 1..];
      var first: set<nat> := if a <= ts[lo] <= b then {lo} else {};
      assert Within(ts, a, b, lo) == first + Within(ts, a, b, lo + 1);
    }
  }

  /** Count is the number of places whose points lie in the interval. */
  lemma CountIsSize(ts: seq<int>, a: int, b: int)
    ensures Count(ts, a, b) == |Within(ts, a, b, 0)|
  {
    CountFrom(ts, a, b, 0);
    assert ts[0..] == ts;
  }
}
