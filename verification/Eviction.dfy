/** Oldest-first eviction from the compile cache, `cache_cleanup`. */
module Eviction {
  import opened Wrappers

  /** A file of the cache directory. A modification time that cannot be had is None. */
  datatype Entry = Entry(path: string, size: nat, mtime: Option<int>)

  /** The order of `Option<SystemTime>`: None comes first. */
  predicate NotLater(a: Option<int>, b: Option<int>) {
    a.None? || (b.Some? && a.value <= b.value)
  }

  function Sum(es: seq<Entry>): nat {
    if es == [] then 0 else es[0].size + Sum(es[1..])
  }

  // ---- the stable sort by age ----

  function Insert(e: Entry, es: seq<Entry>): (r: seq<Entry>)
    ensures multiset(r) == multiset{e} + multiset(es)
  {
    if es == [] || NotLater(e.mtime, es[0].mtime) then [e] + es
    else
      assert es == [es[0]] + es[1..];
      [es[0]] + Insert(e, es[1..])
  }

  function SortByAge(es: seq<Entry>): (r: seq<Entry>)
    ensures multiset(r) == multiset(es) && |r| == |es|
  {
    if es == [] then []
    else
      assert es == [es[0]] + es[1..];
      var r := Insert(es[0], SortByAge(es[1..]));
      assert |multiset(r)| == |r|;
      r
  }

  predicate Aged(es: seq<Entry>) {
    forall i, j :: 0 <= i < j < |es| ==> NotLater(es[i].mtime, es[j].mtime)
  }

  lemma {:induction false} InsertAged(e: Entry, es: seq<Entry>)
    requires Aged(es)
    ensures Aged(Insert(e, es))
  {
    if es != [] && !NotLater(e.mtime, es[0].mtime) {
      InsertAged(e, es[1..]);
      var r := Insert(e, es[1..]);
      forall k | 0 <= k < |r| ensures NotLater(es[0].mtime, r[k].mtime) {
        assert r[k] in multiset(r);
        assert r[k] == e || r[k] in es[1..];
      }
    }
  }

  lemma {:induction false} SortAged(es: seq<Entry>)
    ensures Aged(SortByAge(es))
  {
    if es != [] {
      SortAged(es[1..]);
      InsertAged(es[0], SortByAge(es[1..]));
    }
  }

  /** The files of one age, in their order. */
  function OfAge(es: seq<Entry>, m: Option<int>): (r: seq<Entry>)
    ensures forall e :: e in r <==> e in es && e.mtime == m
  {
    if es == [] then []
    else if es[0].mtime == m then [es[0]] + OfAge(es[1..], m)
    else OfAge(es[1..], m)
  }

  lemma {:induction false} InsertStable(e: Entry, es: seq<Entry>, m: Option<int>)
    requires Aged(es)
    ensures OfAge(Insert(e, es), m) == OfAge([e] + es, m)
  {
    if es == [] || NotLater(e.mtime, es[0].mtime) {
    } else {
      InsertStable(e, es[1..], m);
      assert ([e] + es)[1..] == es && ([e] + es[1..])[1..] == es[1..];
      assert Insert(e, es)[1..] == Insert(e, es[1..]);
    }
  }

  lemma {:induction false} SortStable(es: seq<Entry>, m: Option<int>)
    ensures OfAge(SortByAge(es), m) == OfAge(es, m)
  {
    if es != [] {
      var rest := SortByAge(es[1..]);
      SortStable(es[1..], m);
      SortAged(es[1..]);
      InsertStable(es[0], rest, m);
      assert ([es[0]] + rest)[1..] == rest;
    }
  }

  /** Both list the files of every age in the same order. */
  ghost predicate AgreeByAge(a: seq<Entry>, b: seq<Entry>) {
    forall m :: OfAge(a, m) == OfAge(b, m)
  }

  lemma OldestAgree(a: seq<Entry>, b: seq<Entry>)
    requires Aged(a) && Aged(b) && a != [] && b != [] && AgreeByAge(a, b)
    ensures a[0] == b[0]
  {
    var m, n := a[0].mtime, b[0].mtime;
    assert OfAge(a, m) == OfAge(b, m) && OfAge(a, n) == OfAge(b, n);
    assert a[0] in OfAge(b, m) && b[0] in OfAge(a, n);
    assert m == n;
    assert OfAge(a, m)[0] == a[0] && OfAge(b, m)[0] == b[0];
  }

  lemma AgreeDropsFirst(a: seq<Entry>, b: seq<Entry>)
    requires a != [] && b != [] && a[0] == b[0] && AgreeByAge(a, b)
    ensures AgreeByAge(a[1..], b[1..])
  {
    forall m ensures OfAge(a[1..], m) == OfAge(b[1..], m) {
      assert OfAge(a, m) == OfAge(b, m);
      if m == a[0].mtime {
        assert OfAge(a[1..], m) == OfAge(a, m)[1..] && OfAge(b[1..], m) == OfAge(b, m)[1..];
      }
    }
  }

  lemma {:induction false} AgedAndStableUnique(a: seq<Entry>, b: seq<Entry>)
    requires Aged(a) && Aged(b) && AgreeByAge(a, b)
    ensures a == b
  {
    assert a != [] ==> OfAge(a, a[0].mtime) == OfAge(b, a[0].mtime);
    assert b != [] ==> OfAge(a, b[0].mtime) == OfAge(b, b[0].mtime);
    if a != [] {
      OldestAgree(a, b);
      AgreeDropsFirst(a, b);
      AgedAndStableUnique(a[1..], b[1..]);
    }
  }

  /** The sort is the only ordering by age that keeps files of one age in their order. */
  lemma SortDetermined(es: seq<Entry>, r: seq<Entry>)
    ensures r == SortByAge(es) <==> Aged(r) && AgreeByAge(r, es)
  {
    SortAged(es);
    forall m ensures OfAge(SortByAge(es), m) == OfAge(es, m) {
      SortStable(es, m);
    }
    if Aged(r) && AgreeByAge(r, es) {
      AgedAndStableUnique(r, SortByAge(es));
    }
  }

  lemma {:induction false} SumAppend(a: seq<Entry>, b: seq<Entry>)
    ensures Sum(a + b) == Sum(a) + Sum(b)
  {
    if a == [] {
      assert a + b == b;
    } else {
      assert (a + b)[1..] == a[1..] + b;
      SumAppend(a[1..], b);
    }
  }

  lemma {:induction false} SumInsert(e: Entry, es: seq<Entry>)
    ensures Sum(Insert(e, es)) == e.size + Sum(es)
  {
    if es == [] || NotLater(e.mtime, es[0].mtime) {
      assert ([e] + es)[1..] == es;
    } else {
      SumInsert(e, es[1..]);
      assert Insert(e, es)[1..] == Insert(e, es[1..]);
    }
  }

  lemma {:induction false} SumSorted(es: seq<Entry>)
    ensures Sum(SortByAge(es)) == Sum(es)
  {
    if es != [] {
      SumSorted(es[1..]);
      SumInsert(es[0], SortByAge(es[1..]));
    }
  }

  // ---- what is deleted ----

  predicate DistinctPaths(es: seq<Entry>) {
    forall i, j :: 0 <= i < j < |es| ==> es[i].path != es[j].path
  }

  /** `remove_file`, when it succeeds. */
  function Without(es: seq<Entry>, path: string): (r: seq<Entry>)
    ensures forall e :: e in r <==> e in es && e.path != path
  {
    if es == [] then []
    else if es[0].path == path then Without(es[1..], path)
    else [es[0]] + Without(es[1..], path)
  }

  lemma {:induction false} WithoutKeeps(es: seq<Entry>, e: Entry)
    requires DistinctPaths(es) && e in es
    ensures DistinctPaths(Without(es, e.path)) && Sum(Without(es, e.path)) == Sum(es) - e.size
  {
    if es[0].path == e.path {
      assert e == es[0];
      WithoutNone(es[1..], e.path);
      assert Without(es, e.path) == es[1..];
    } else {
      WithoutKeeps(es[1..], e);
      var r := Without(es[1..], e.path);
      assert Without(es, e.path) == [es[0]] + r;
      forall k | 0 <= k < |r| ensures r[k].path != es[0].path {
        assert r[k] in es[1..];
      }
    }
  }

  lemma {:induction false} WithoutNone(es: seq<Entry>, path: string)
    requires forall i :: 0 <= i < |es| ==> es[i].path != path
    ensures Without(es, path) == es
  {
    if es != [] {
      WithoutNone(es[1..], path);
    }
  }

  function Minus(es: seq<Entry>, gone: seq<Entry>): seq<Entry>
    decreases gone
  {
    if gone == [] then es else Minus(Without(es, gone[0].path), gone[1..])
  }

  /** Exactly the named files are gone. */
  lemma {:induction false} MinusHolds(es: seq<Entry>, gone: seq<Entry>)
    ensures forall e :: e in Minus(es, gone) <==> e in es && forall g :: g in gone ==> g.path != e.path
    decreases gone
  {
    if gone != [] {
      assert gone == [gone[0]] + gone[1..];
      MinusHolds(Without(es, gone[0].path), gone[1..]);
    }
  }

  /** What the loop deletes, from the oldest on, when the files of stuck cannot be deleted. */
  function Evicted(es: seq<Entry>, total: nat, maxBytes: nat, stuck: set<string>): (r: seq<Entry>)
    requires Sum(es) <= total
    ensures |r| <= |es|
    decreases es
  {
    if total <= maxBytes || |es| <= 1 then []
    else if es[0].path in stuck then Evicted(es[1..], total, maxBytes, stuck)
    else [es[0]] + Evicted(es[1..], total - es[0].size, maxBytes, stuck)
  }

  /** The running total is what the directory holds, and the list names files still in it. */
  predicate Tracks(files: seq<Entry>, entries: seq<Entry>, total: int) {
    && Sum(entries) <= total == Sum(files)
    && DistinctPaths(files) && DistinctPaths(entries)
    && forall e :: e in entries ==> e in files
  }

  lemma TracksSorted(files: seq<Entry>)
    requires DistinctPaths(files)
    ensures Tracks(files, SortByAge(files), Sum(SortByAge(files)))
  {
    SumSorted(files);
    DistinctSorted(files);
  }

  /** Dropping the oldest entry keeps the total right, whether its file goes too or stays. */
  lemma TracksNext(files: seq<Entry>, entries: seq<Entry>, total: int)
    requires Tracks(files, entries, total) && entries != []
    ensures Tracks(files, entries[1..], total)
    ensures Tracks(Without(files, entries[0].path), entries[1..], total - entries[0].size)
  {
    WithoutKeeps(files, entries[0]);
  }

  /** One round of the loop, as a step on what is still to be deleted. */
  lemma EvictedNext(es: seq<Entry>, total: nat, maxBytes: nat, stuck: set<string>)
    requires Sum(es) <= total && total > maxBytes && |es| > 1
    ensures es[0].path in stuck ==> Evicted(es, total, maxBytes, stuck) == Evicted(es[1..], total, maxBytes, stuck)
    ensures es[0].path !in stuck ==>
      Evicted(es, total, maxBytes, stuck) == [es[0]] + Evicted(es[1..], total - es[0].size, maxBytes, stuck)
  {
  }

  lemma MinusFirst(es: seq<Entry>, e: Entry, gone: seq<Entry>)
    ensures Minus(es, [e] + gone) == Minus(Without(es, e.path), gone)
    ensures Sum([e] + gone) == e.size + Sum(gone)
  {
    assert ([e] + gone)[1..] == gone;
  }

  class CacheDir {
    var files: seq<Entry>

    constructor (files: seq<Entry>)
      ensures this.files == files
    {
      this.files := files;
    }

    /** `cache_cleanup`. A file that cannot be deleted leaves the list all the same. */
    method Cleanup(maxBytes: nat, stuck: set<string>) returns (removed: nat)
      requires DistinctPaths(files)
      modifies this
      ensures var gone := Evicted(SortByAge(old(files)), Sum(SortByAge(old(files))), maxBytes, stuck);
        files == Minus(old(files), gone) && removed == |gone|
    {
      var entries := SortByAge(files);
      var total := Sum(entries);
      removed := 0;
      ghost var gone := Evicted(entries, total, maxBytes, stuck);
      ghost var rest := gone;
      TracksSorted(files);
      while total > maxBytes && |entries| > 1
        invariant Tracks(files, entries, total)
        invariant rest == Evicted(entries, total, maxBytes, stuck)
        invariant Minus(files, rest) == Minus(old(files), gone)
        invariant removed + |rest| == |gone|
        decreases |entries|
      {
        TracksNext(files, entries, total);
        EvictedNext(entries, total, maxBytes, stuck);
        var e := entries[0];
        entries := entries[1..];
        if e.path !in stuck {
          total := total - e.size;
          rest := Evicted(entries, total, maxBytes, stuck);
          MinusFirst(files, e, rest);
          files := Without(files, e.path);
          removed := removed + 1;
        }
      }
    }
  }

  lemma {:induction false} DistinctInserted(e: Entry, es: seq<Entry>)
    requires DistinctPaths(es) && forall x :: x in es ==> x.path != e.path
    ensures DistinctPaths(Insert(e, es))
  {
    if es != [] && !NotLater(e.mtime, es[0].mtime) {
      DistinctInserted(e, es[1..]);
      var r := Insert(e, es[1..]);
      forall k | 0 <= k < |r| ensures r[k].path != es[0].path {
        assert r[k] in multiset(r);
        assert r[k] == e || r[k] in es[1..];
      }
    }
  }

  lemma {:induction false} DistinctSorted(es: seq<Entry>)
    requires DistinctPaths(es)
    ensures DistinctPaths(SortByAge(es))
    ensures forall e :: e in SortByAge(es) <==> e in es
  {
    assert forall e :: e in SortByAge(es) <==> e in multiset(SortByAge(es));
    assert forall e :: e in es <==> e in multiset(es);
    if es != [] {
      DistinctSorted(es[1..]);
      DistinctInserted(es[0], SortByAge(es[1..]));
    }
  }

  // ---- what that leaves ----

  /** Dropping n files fits the budget or leaves the newest alone, and dropping fewer does neither. */
  predicate ShortestFit(es: seq<Entry>, maxBytes: nat, n: nat) {
    && n < |es|
    && (Sum(es[n..]) <= maxBytes || n == |es| - 1)
    && forall m :: 0 <= m < n ==> Sum(es[m..]) > maxBytes
  }

  lemma ShortestFitNext(es: seq<Entry>, maxBytes: nat, k: nat)
    requires |es| > 1 && Sum(es) > maxBytes && ShortestFit(es[1..], maxBytes, k)
    ensures ShortestFit(es, maxBytes, k + 1)
  {
    assert es[k + 1..] == es[1..][k..];
    forall m | 0 <= m < k + 1 ensures Sum(es[m..]) > maxBytes {
      assert es[m..] == if m == 0 then es else es[1..][m - 1..];
    }
  }

  lemma NothingToEvict(es: seq<Entry>, maxBytes: nat)
    requires es != [] && (Sum(es) <= maxBytes || |es| == 1)
    ensures ShortestFit(es, maxBytes, 0)
    ensures Evicted(es, Sum(es), maxBytes, {}) == es[..0]
  {
    assert es[0..] == es;
  }

  /** When every delete succeeds: the shortest oldest-first prefix that fits the budget, or all but the newest. */
  lemma {:induction false} EvictedIsShortestPrefix(es: seq<Entry>, maxBytes: nat) returns (n: nat)
    requires es != []
    ensures ShortestFit(es, maxBytes, n)
    ensures Evicted(es, Sum(es), maxBytes, {}) == es[..n]
  {
    if Sum(es) <= maxBytes || |es| == 1 {
      n := 0;
      NothingToEvict(es, maxBytes);
    } else {
      var k := EvictedIsShortestPrefix(es[1..], maxBytes);
      ShortestFitNext(es, maxBytes, k);
      n := k + 1;
      EvictOldest(es, maxBytes, k);
    }
  }

  lemma EvictOldest(es: seq<Entry>, maxBytes: nat, k: nat)
    requires |es| > 1 && Sum(es) > maxBytes && k < |es| - 1
    requires Evicted(es[1..], Sum(es[1..]), maxBytes, {}) == es[1..][..k]
    ensures Evicted(es, Sum(es), maxBytes, {}) == es[..k + 1]
  {
    EvictedNext(es, Sum(es), maxBytes, {});
    assert es[..k + 1] == [es[0]] + es[1..][..k];
  }

  /** Deletes that fail never cost a file twice: whatever is deleted is old enough, and the newest stays. */
  lemma {:induction false} NewestStays(es: seq<Entry>, total: nat, maxBytes: nat, stuck: set<string>)
    requires es != [] && Sum(es) <= total
    ensures forall g :: g in Evicted(es, total, maxBytes, stuck) ==> g in es[..|es| - 1] && g.path !in stuck
    decreases es
  {
    if total > maxBytes && |es| > 1 {
      assert es[..|es| - 1] == [es[0]] + es[1..][..|es| - 2];
      NewestStays(es[1..], if es[0].path in stuck then total else total - es[0].size, maxBytes, stuck);
    }
  }

  function StuckSum(es: seq<Entry>, stuck: set<string>): nat {
    if es == [] then 0 else (if es[0].path in stuck then es[0].size else 0) + StuckSum(es[1..], stuck)
  }

  lemma {:induction false} StuckSumBound(es: seq<Entry>, stuck: set<string>)
    ensures StuckSum(es, stuck) <= Sum(es)
  {
    if es != [] {
      StuckSumBound(es[1..], stuck);
    }
  }

  /** The budget is met exactly when the newest file and the undeletable ones fit in it. */
  lemma {:induction false} BudgetMetIff(es: seq<Entry>, total: nat, maxBytes: nat, stuck: set<string>)
    requires es != [] && Sum(es) <= total
    ensures total - Sum(Evicted(es, total, maxBytes, stuck)) <= maxBytes
       <==> total - Sum(es) + StuckSum(es[..|es| - 1], stuck) + es[|es| - 1].size <= maxBytes
    decreases es
  {
    var older := es[..|es| - 1];
    assert es == older + [es[|es| - 1]];
    SumAppend(older, [es[|es| - 1]]);
    StuckSumBound(older, stuck);
    if total > maxBytes && |es| > 1 {
      assert older[1..] == es[1..][..|es| - 2];
      BudgetMetIff(es[1..], if es[0].path in stuck then total else total - es[0].size, maxBytes, stuck);
    }
  }

  lemma {:induction false} EvictedWithin(es: seq<Entry>, total: nat, maxBytes: nat, stuck: set<string>)
    requires Sum(es) <= total
    ensures forall g :: g in Evicted(es, total, maxBytes, stuck) ==> g in es
    decreases es
  {
    if total > maxBytes && |es| > 1 {
      EvictedNext(es, total, maxBytes, stuck);
      EvictedWithin(es[1..], if es[0].path in stuck then total else total - es[0].size, maxBytes, stuck);
    }
  }

  lemma DistinctAfter(es: seq<Entry>, rest: seq<Entry>)
    requires es != [] && DistinctPaths(es) && DistinctPaths(rest)
    requires forall g :: g in rest ==> g in es[1..]
    ensures DistinctPaths([es[0]] + rest)
  {
    forall k | 0 <= k < |rest| ensures rest[k].path != es[0].path {
      assert rest[k] in es[1..];
    }
  }

  /** Nothing is deleted twice. */
  lemma {:induction false} EvictedOnce(es: seq<Entry>, total: nat, maxBytes: nat, stuck: set<string>)
    requires DistinctPaths(es) && Sum(es) <= total
    ensures DistinctPaths(Evicted(es, total, maxBytes, stuck))
    decreases es
  {
    if total > maxBytes && |es| > 1 {
      EvictedNext(es, total, maxBytes, stuck);
      var total' := if es[0].path in stuck then total else total - es[0].size;
      EvictedOnce(es[1..], total', maxBytes, stuck);
      EvictedWithin(es[1..], total', maxBytes, stuck);
      DistinctAfter(es, Evicted(es[1..], total', maxBytes, stuck));
    }
  }

  /** The bytes left are those there were, less what was deleted. */
  lemma {:induction false} BytesLeft(files: seq<Entry>, gone: seq<Entry>)
    requires DistinctPaths(files) && DistinctPaths(gone)
    requires forall g :: g in gone ==> g in files
    ensures Sum(Minus(files, gone)) == Sum(files) - Sum(gone)
    decreases gone
  {
    if gone != [] {
      WithoutKeeps(files, gone[0]);
      BytesLeft(Without(files, gone[0].path), gone[1..]);
    }
  }

  /** After cleanup the directory fits its budget exactly when the newest file and the undeletable older ones do. */
  lemma CleanupFitsIff(files: seq<Entry>, maxBytes: nat, stuck: set<string>)
    requires DistinctPaths(files) && files != []
    ensures var sorted := SortByAge(files);
      && (Sum(Minus(files, Evicted(sorted, Sum(sorted), maxBytes, stuck))) <= maxBytes
      <==> StuckSum(sorted[..|sorted| - 1], stuck) + sorted[|sorted| - 1].size <= maxBytes)
  {
    var sorted := SortByAge(files);
    SumSorted(files);
    DistinctSorted(files);
    EvictedOnce(sorted, Sum(sorted), maxBytes, stuck);
    EvictedWithin(sorted, Sum(sorted), maxBytes, stuck);
    BytesLeft(files, Evicted(sorted, Sum(sorted), maxBytes, stuck));
    BudgetMetIff(sorted, Sum(sorted), maxBytes, stuck);
  }

  /** Ages form a total order, up to files of one age, in which a file without a time is the oldest. */
  lemma AgeOrder(a: Option<int>, b: Option<int>, c: Option<int>)
    ensures NotLater(a, b) || NotLater(b, a)
    ensures NotLater(a, b) && NotLater(b, c) ==> NotLater(a, c)
    ensures NotLater(a, b) && NotLater(b, a) <==> a == b
    ensures NotLater(None, a) && (a.Some? && b.Some? && a.value < b.value ==> !NotLater(b, a))
  {
  }
}
