/**
 Load shedding and the concurrency limit: add one to a shared counter, compare what you got with
 a threshold, subtract when done. Each of these is its own atomic step, and any number of callers
 interleave. The threshold may change at any time.
 */
module Admission {
  import opened Integers
  import opened Wrappers

  // ---- the atomics ----

  /** `fetch_add(1) + 1`: the new counter, and also what the caller remembers. */
  function Up(counter: int): int {
    (counter + 1) % U32
  }

  /** `fetch_sub(1)`. */
  function Down(counter: int): int {
    (counter - 1) % U32
  }

  /** The limiter as one caller uses it, with nobody in between. */
  class ConcurrencyLimiter {
    var max: int
    var inflight: int

    constructor (max: int)
      ensures this.max == max && inflight == 0
    {
      this.max, inflight := max, 0;
    }

    method SetMax(max: int)
      modifies this
      ensures this.max == max && inflight == old(inflight)
    {
      this.max := max;
    }

    method Enter() returns (code: int)
      modifies this
      ensures inflight == Up(old(inflight)) && max == old(max)
      ensures code == if inflight > max then 2 else 0
    {
      inflight := Up(inflight);
      var cur := inflight;
      code := if cur > max then 2 else 0;
    }

    method Release()
      modifies this
      ensures inflight == Down(old(inflight)) && max == old(max)
    {
      inflight := Down(inflight);
    }

    /**
     One wrapped call: `before` is the code of the nodes in front of the limiter, `after` that of
     the nodes behind it. The error path releases whether or not the limiter was entered, so the
     counter comes back to where it was exactly when the nodes in front let the call through.
     */
    method Call(before: int, after: int) returns (code: int)
      requires 0 <= inflight < U32
      modifies this
      ensures max == old(max)
      ensures inflight == (if before == 0 then old(inflight) else Down(old(inflight)))
      ensures code == (if before != 0 then before else if Up(old(inflight)) > max then 2 else after)
    {
      code := before;
      if code == 0 {
        code := Enter();
        if code == 0 {
          code := after;
        }
      }
      Release();
    }
  }

  // ---- all interleavings ----

  /** Where a caller is; `cur` is what it got from its `fetch_add`. */
  datatype Pc = Idle | Counted(cur: int) | Inside(cur: int) | Refused(cur: int)

  datatype Sys = Sys(counter: int, max: int, pc: seq<Pc>)

  /**
   Stray is the release on the error path of a call that some node in front of the limiter
   refused: it subtracts without having added. Drop is the cancellation of a call in progress: its
   future goes away at an await, and with it the subtraction behind the await.
   */
  datatype Event = Arrive(c: nat) | Check(c: nat) | Leave(c: nat) | Drop(c: nat) | SetMax(m: int) | Stray

  function Start(n: nat, max: int): Sys {
    Sys(0, max, seq(n, _ => Idle))
  }

  predicate Enabled(s: Sys, e: Event) {
    match e
    case Arrive(c) => c < |s.pc| && s.pc[c].Idle?
    case Check(c) => c < |s.pc| && s.pc[c].Counted?
    case Leave(c) => c < |s.pc| && (s.pc[c].Inside? || s.pc[c].Refused?)
    case Drop(c) => c < |s.pc| && s.pc[c].Inside?
    case SetMax(m) => 0 <= m < U32
    case Stray => true
  }

  function Next(s: Sys, e: Event): Sys
    requires Enabled(s, e)
  {
    match e
    case Arrive(c) => Sys(Up(s.counter), s.max, s.pc[c := Counted(Up(s.counter))])
    case Check(c) =>
      var cur := s.pc[c].cur;
      s.(pc := s.pc[c := if cur > s.max then Refused(cur) else Inside(cur)])
    case Leave(c) => Sys(Down(s.counter), s.max, s.pc[c := Idle])
    case Drop(c) => s.(pc := s.pc[c := Idle])
    case SetMax(m) => s.(max := m)
    case Stray => s.(counter := Down(s.counter))
  }

  predicate Valid(s: Sys, es: seq<Event>)
    decreases es
  {
    es == [] || (Enabled(s, es[0]) && Valid(Next(s, es[0]), es[1..]))
  }

  function After(s: Sys, es: seq<Event>): Sys
    requires Valid(s, es)
    decreases es
  {
    if es == [] then s else After(Next(s, es[0]), es[1..])
  }

  /** The largest threshold that was ever set. */
  function Largest(max: int, es: seq<Event>): int
    decreases es
  {
    if es == [] then max
    else Max(max, Largest(if es[0].SetMax? then es[0].m else max, es[1..]))
  }

  function Strays(es: seq<Event>): nat {
    if es == [] then 0 else (if es[0].Stray? then 1 else 0) + Strays(es[1..])
  }

  function Drops(es: seq<Event>): nat {
    if es == [] then 0 else (if es[0].Drop? then 1 else 0) + Drops(es[1..])
  }

  /** The callers past the check: the chain and the inner service run for them now. */
  function InsideSet(s: Sys): set<nat> {
    set c: nat | c < |s.pc| && s.pc[c].Inside?
  }

  /** The callers between their add and their subtract. */
  function InFlight(s: Sys): set<nat> {
    set c: nat | c < |s.pc| && !s.pc[c].Idle?
  }

  // ---- the proof: callers in order of arrival ----

  predicate Distinct(q: seq<nat>) {
    forall i, j :: 0 <= i < j < |q| ==> q[i] != q[j]
  }

  /** `q` lists the callers in flight, oldest first. */
  predicate Queue(s: Sys, q: seq<nat>) {
    && Distinct(q)
    && (forall k :: 0 <= k < |q| ==> q[k] < |s.pc|)
    && (forall c :: 0 <= c < |s.pc| ==> (c in q <==> !s.pc[c].Idle?))
  }

  /**
   What a caller remembers never falls below its position in the queue, except for what strays
   took off the counter.
   */
  predicate Remembers(s: Sys, q: seq<nat>, strays: nat) {
    forall k :: 0 <= k < |q| ==>
      q[k] < |s.pc| && !s.pc[q[k]].Idle? && s.pc[q[k]].cur + strays >= k + 1
  }

  predicate Capped(s: Sys, top: int) {
    s.max <= top && forall c :: 0 <= c < |s.pc| && s.pc[c].Inside? ==> s.pc[c].cur <= top
  }

  predicate Inv(s: Sys, q: seq<nat>, top: int, strays: nat, drops: nat) {
    && |s.pc| + drops < U32
    && Queue(s, q)
    && s.counter == (|q| + drops - strays) % U32
    && Remembers(s, q, strays)
    && Capped(s, top)
  }

  function Below(n: nat): (r: set<nat>)
    ensures forall c: nat :: c in r <==> c < n
    ensures |r| == n
  {
    if n == 0 then {} else Below(n - 1) + {n - 1}
  }

  function Elems(q: seq<nat>): (r: set<nat>)
    ensures forall c :: c in r <==> c in q
    ensures |r| <= |q|
    ensures Distinct(q) ==> |r| == |q|
  {
    if q == [] then {} else Elems(q[..|q| - 1]) + {q[|q| - 1]}
  }

  lemma DistinctSize(q: seq<nat>, n: nat)
    requires Distinct(q) && forall k :: 0 <= k < |q| ==> q[k] < n
    ensures |q| <= n
  {
    SubsetSize(Elems(q), Below(n));
  }

  lemma {:induction false} SubsetSize<T>(a: set<T>, b: set<T>)
    requires a <= b
    ensures |a| <= |b|
  {
    if a != {} {
      var x :| x in a;
      SubsetSize(a - {x}, b - {x});
    }
  }

  lemma ModStep(x: int, d: int)
    ensures (x % U32 + d) % U32 == (x + d) % U32
  {
  }

  lemma ArriveKeeps(s: Sys, q: seq<nat>, top: int, strays: nat, drops: nat, c: nat)
    requires Inv(s, q, top, strays, drops) && Enabled(s, Arrive(c))
    ensures Inv(Next(s, Arrive(c)), q + [c], top, strays, drops)
  {
    var s', q' := Next(s, Arrive(c)), q + [c];
    assert Distinct(q');
    DistinctSize(q', |s.pc|);
    ModStep(|q| + drops - strays, 1);
    assert Up(s.counter) >= |q'| - strays;
  }

  function Without(q: seq<nat>, k: nat): (r: seq<nat>)
    requires k < |q|
    ensures |r| == |q| - 1
    ensures forall i :: 0 <= i < |r| ==> r[i] == if i < k then q[i] else q[i + 1]
  {
    q[..k] + q[k + 1..]
  }

  lemma WithoutMembers(q: seq<nat>, k: nat, d: nat)
    requires Distinct(q) && k < |q|
    ensures d in Without(q, k) <==> d in q && d != q[k]
  {
    if d in q && d != q[k] {
      var i :| 0 <= i < |q| && q[i] == d;
      assert Without(q, k)[if i < k then i else i - 1] == d;
    }
  }

  /** The caller at position k is idle again; the others stay as they are. */
  predicate Left(s: Sys, q: seq<nat>, k: nat, s': Sys)
    requires k < |q|
  {
    q[k] < |s.pc| && s'.pc == s.pc[q[k] := Idle]
  }

  lemma LeaveQueue(s: Sys, q: seq<nat>, k: nat, s': Sys)
    requires Queue(s, q) && k < |q| && Left(s, q, k, s')
    ensures Queue(s', Without(q, k))
  {
    forall d | 0 <= d < |s.pc| ensures d in Without(q, k) <==> !s'.pc[d].Idle? {
      WithoutMembers(q, k, d);
    }
  }

  lemma LeaveRemembers(s: Sys, q: seq<nat>, strays: nat, k: nat, s': Sys)
    requires Distinct(q) && Remembers(s, q, strays) && k < |q| && Left(s, q, k, s')
    ensures Remembers(s', Without(q, k), strays)
  {
    var q' := Without(q, k);
    forall i | 0 <= i < |q'|
      ensures q'[i] < |s'.pc| && !s'.pc[q'[i]].Idle? && s'.pc[q'[i]].cur + strays >= i + 1
    {
      var j := if i < k then i else i + 1;
      assert q'[i] == q[j] && q[j] != q[k];
    }
  }

  /** A caller that leaves takes itself off the counter; one that is dropped does not. */
  lemma LeaveKeeps(s: Sys, q: seq<nat>, top: int, strays: nat, drops: nat, e: Event) returns (q': seq<nat>)
    requires Inv(s, q, top, strays, drops) && Enabled(s, e) && (e.Leave? || e.Drop?)
    requires e.Drop? ==> |s.pc| + drops + 1 < U32
    ensures Inv(Next(s, e), q', top, strays, if e.Drop? then drops + 1 else drops)
  {
    var k :| 0 <= k < |q| && q[k] == e.c;
    q' := Without(q, k);
    LeaveQueue(s, q, k, Next(s, e));
    LeaveRemembers(s, q, strays, k, Next(s, e));
    ModStep(|q| + drops - strays, -1);
  }

  lemma Keeps(s: Sys, q: seq<nat>, top: int, strays: nat, drops: nat, e: Event) returns (q': seq<nat>)
    requires Inv(s, q, top, strays, drops) && Enabled(s, e)
    requires e.Drop? ==> |s.pc| + drops + 1 < U32
    ensures Inv(Next(s, e), q', if e.SetMax? then Max(top, e.m) else top,
                if e.Stray? then strays + 1 else strays, if e.Drop? then drops + 1 else drops)
  {
    q' := q;
    match e
    case Arrive(c) =>
      q' := q + [c];
      ArriveKeeps(s, q, top, strays, drops, c);
    case Leave(_) => q' := LeaveKeeps(s, q, top, strays, drops, e);
    case Drop(_) => q' := LeaveKeeps(s, q, top, strays, drops, e);
    case Check(c) =>
    case SetMax(_) =>
    case Stray => ModStep(|q| + drops - strays, -1);
  }

  lemma {:induction false} ReachKeeps(s: Sys, q: seq<nat>, top: int, strays: nat, drops: nat, es: seq<Event>)
    returns (q': seq<nat>)
    requires Inv(s, q, top, strays, drops) && Valid(s, es) && |s.pc| + drops + Drops(es) < U32
    ensures Inv(After(s, es), q', Max(top, Largest(s.max, es)), strays + Strays(es), drops + Drops(es))
    decreases es
  {
    if es == [] {
      q' := q;
    } else {
      var e := es[0];
      var q1 := Keeps(s, q, top, strays, drops, e);
      q' := ReachKeeps(Next(s, e), q1, if e.SetMax? then Max(top, e.m) else top,
                       if e.Stray? then strays + 1 else strays, if e.Drop? then drops + 1 else drops, es[1..]);
    }
  }

  lemma InsideIsInFront(s: Sys, q: seq<nat>, top: int, strays: nat, drops: nat, n: nat)
    requires Inv(s, q, top, strays, drops)
    requires n <= |q| && (n == |q| || n >= top + strays)
    ensures InsideSet(s) <= Elems(q[..n])
  {
    forall c | c in InsideSet(s) ensures c in q[..n] {
      assert c in q;
      var k :| 0 <= k < |q| && q[k] == c;
      assert q[..n][k] == c;
    }
  }

  lemma InsideBound(s: Sys, q: seq<nat>, top: int, strays: nat, drops: nat)
    requires Inv(s, q, top, strays, drops)
    ensures |InsideSet(s)| <= Max(0, top + strays)
  {
    var n := Min(|q|, Max(0, top + strays));
    InsideIsInFront(s, q, top, strays, drops, n);
    var front := q[..n];
    SubsetSize(InsideSet(s), Elems(front));
  }

  /**
   Every interleaving of any number of callers from an idle start: at most as many callers are past
   the check as the largest threshold ever set allows, plus one for every stray release. Dropped calls
   do not loosen the bound, as long as they and the callers together cannot wrap the counter around.
   */
  lemma AdmissionBound(n: nat, max: int, es: seq<Event>)
    requires n + Drops(es) < U32 && 0 <= max < U32
    requires Valid(Start(n, max), es)
    ensures |InsideSet(After(Start(n, max), es))| <= Largest(max, es) + Strays(es)
  {
    var s0 := Start(n, max);
    assert Inv(s0, [], max, 0, 0);
    var q := ReachKeeps(s0, [], max, 0, 0, es);
    LargestAtLeast(max, es);
    InsideBound(After(s0, es), q, Largest(max, es), Strays(es), Drops(es));
  }

  lemma LargestAtLeast(max: int, es: seq<Event>)
    ensures Largest(max, es) >= max
  {
  }

  // ---- what the counter counts ----

  lemma InFlightUpdate(s: Sys, t: Sys, c: nat, p: Pc)
    requires c < |s.pc| && t.pc == s.pc[c := p]
    ensures |InFlight(t)| == |InFlight(s)| - (if s.pc[c].Idle? then 0 else 1) + (if p.Idle? then 0 else 1)
  {
    var others := InFlight(s) - {c};
    assert InFlight(s) == if s.pc[c].Idle? then others else others + {c};
    assert InFlight(t) == if p.Idle? then others else others + {c};
  }

  lemma InFlightStep(s: Sys, e: Event)
    requires Enabled(s, e)
    ensures |InFlight(Next(s, e))|
         == |InFlight(s)| + (if e.Arrive? then 1 else 0) - (if e.Leave? || e.Drop? then 1 else 0)
  {
    if !e.SetMax? && !e.Stray? {
      InFlightUpdate(s, Next(s, e), e.c, Next(s, e).pc[e.c]);
    } else {
      assert InFlight(Next(s, e)) == InFlight(s);
    }
  }

  lemma {:induction false} CounterRun(s: Sys, es: seq<Event>, net: int)
    requires Valid(s, es) && s.counter == (|InFlight(s)| + net) % U32
    ensures After(s, es).counter == (|InFlight(After(s, es))| + net + Drops(es) - Strays(es)) % U32
    decreases es
  {
    if es != [] {
      var e := es[0];
      InFlightStep(s, e);
      ModStep(|InFlight(s)| + net, 1);
      ModStep(|InFlight(s)| + net, -1);
      CounterRun(Next(s, e), es[1..], net + (if e.Drop? then 1 else 0) - (if e.Stray? then 1 else 0));
    }
  }

  /** In every run the counter is the number in flight, plus the dropped calls, minus the strays, in u32. */
  lemma CounterLaw(n: nat, max: int, es: seq<Event>)
    requires Valid(Start(n, max), es)
    ensures var s := After(Start(n, max), es);
      s.counter == (|InFlight(s)| + Drops(es) - Strays(es)) % U32
  {
    assert InFlight(Start(n, max)) == {};
    CounterRun(Start(n, max), es, 0);
  }

  /** With everybody idle again the counter is back at 0 iff drops and strays cancel out in u32. */
  lemma QuiescentIff(n: nat, max: int, es: seq<Event>)
    requires Valid(Start(n, max), es) && InFlight(After(Start(n, max), es)) == {}
    ensures After(Start(n, max), es).counter == 0 <==> (Drops(es) - Strays(es)) % U32 == 0
  {
    CounterLaw(n, max, es);
  }

  /** Without strays and drops the limit is a limit, and the counter counts. */
  lemma LimitHolds(n: nat, max: int, es: seq<Event>)
    requires n < U32 && 0 <= max < U32
    requires Valid(Start(n, max), es) && Strays(es) == 0 && Drops(es) == 0
    ensures var s := After(Start(n, max), es);
            && |InsideSet(s)| <= Largest(max, es)
            && s.counter == |InFlight(s)|
            && (InFlight(s) == {} ==> s.counter == 0)
  {
    AdmissionBound(n, max, es);
    CounterLaw(n, max, es);
    var s := After(Start(n, max), es);
    PcCount(Start(n, max), es);
    SubsetSize(InFlight(s), Below(n));
  }

  lemma {:induction false} PcCount(s: Sys, es: seq<Event>)
    requires Valid(s, es)
    ensures |After(s, es).pc| == |s.pc|
    decreases es
  {
    if es != [] {
      PcCount(Next(s, es[0]), es[1..]);
    }
  }

  // ---- the bound is reached ----

  /** The first k callers are past the check and the others idle. */
  predicate FirstInside(s: Sys, k: nat) {
    && k <= |s.pc|
    && (forall c :: 0 <= c < k ==> s.pc[c].Inside?)
    && (forall c :: k <= c < |s.pc| ==> s.pc[c].Idle?)
  }

  /** One more caller comes in, behind a stray release if `stray`. */
  function ComeIn(c: nat, stray: bool): seq<Event> {
    (if stray then [Stray] else []) + [Arrive(c), Check(c)]
  }

  lemma ArriveAndCheck(s: Sys, c: nat)
    requires FirstInside(s, c) && c < |s.pc| && Up(s.counter) <= s.max
    ensures var es := [Arrive(c), Check(c)];
      && Valid(s, es) && FirstInside(After(s, es), c + 1)
      && After(s, es).max == s.max && |After(s, es).pc| == |s.pc| && After(s, es).counter == Up(s.counter)
  {
    var s1 := Next(s, Arrive(c));
    var s2 := Next(s1, Check(c));
    assert s2.pc[c].Inside?;
    assert [Arrive(c), Check(c)][1..] == [Check(c)] && [Check(c)][1..] == [];
    assert After(s2, []) == s2 && After(s1, [Check(c)]) == s2;
  }

  lemma OneComesIn(s: Sys, c: nat, stray: bool)
    requires FirstInside(s, c) && c < |s.pc| && s.max < U32
    requires 0 <= s.counter && s.counter + (if stray then 0 else 1) <= s.max
    ensures var es := ComeIn(c, stray);
      && Valid(s, es) && FirstInside(After(s, es), c + 1)
      && After(s, es).max == s.max && |After(s, es).pc| == |s.pc|
      && After(s, es).counter == s.counter + (if stray then 0 else 1)
  {
    if stray {
      var s1 := Next(s, Stray);
      ModStep(s.counter - 1, 1);
      ArriveAndCheck(s1, c);
      assert ComeIn(c, true)[1..] == [Arrive(c), Check(c)];
    } else {
      assert ComeIn(c, false) == [Arrive(c), Check(c)];
      ArriveAndCheck(s, c);
    }
  }

  lemma ComeInStrays(c: nat, stray: bool)
    ensures Strays(ComeIn(c, stray)) == (if stray then 1 else 0) && Drops(ComeIn(c, stray)) == 0
  {
    var two := [Arrive(c), Check(c)];
    assert two[1..] == [Check(c)] && [Check(c)][1..] == [];
    assert Strays([Check(c)]) == 0 == Drops([Check(c)]);
    assert Strays(two) == 0 == Drops(two);
    assert stray ==> ComeIn(c, stray)[1..] == two;
    assert !stray ==> ComeIn(c, stray) == two;
  }

  /** After one run, another: their effects, thresholds and strays add up. */
  lemma {:induction false} RunsAppend(s: Sys, a: seq<Event>, b: seq<Event>)
    requires Valid(s, a) && Valid(After(s, a), b)
    ensures Valid(s, a + b) && After(s, a + b) == After(After(s, a), b)
    ensures Strays(a + b) == Strays(a) + Strays(b) && Drops(a + b) == Drops(a) + Drops(b)
    decreases a
  {
    if a == [] {
      assert a + b == b;
    } else {
      assert (a + b)[1..] == a[1..] + b;
      RunsAppend(Next(s, a[0]), a[1..], b);
    }
  }

  predicate NoSetMax(es: seq<Event>) {
    forall i :: 0 <= i < |es| ==> !es[i].SetMax?
  }

  lemma {:induction false} LargestUnchanged(max: int, es: seq<Event>)
    requires NoSetMax(es)
    ensures Largest(max, es) == max
    decreases es
  {
    if es != [] {
      LargestUnchanged(max, es[1..]);
    }
  }

  lemma {:induction false} ManyComeIn(s: Sys, c: nat, k: nat, stray: bool) returns (es: seq<Event>)
    requires FirstInside(s, c) && c + k <= |s.pc| && s.max < U32
    requires 0 <= s.counter && s.counter + (if stray then 0 else k) <= s.max
    ensures Valid(s, es) && NoSetMax(es) && Strays(es) == (if stray then k else 0) && Drops(es) == 0
    ensures var t := After(s, es);
      && FirstInside(t, c + k) && t.max == s.max && |t.pc| == |s.pc|
      && t.counter == s.counter + (if stray then 0 else k)
    decreases k
  {
    if k == 0 {
      es := [];
    } else {
      OneComesIn(s, c, stray);
      ComeInStrays(c, stray);
      var one := ComeIn(c, stray);
      var rest := ManyComeIn(After(s, one), c + 1, k - 1, stray);
      RunsAppend(s, one, rest);
      es := one + rest;
    }
  }

  /** For every threshold and number of strays some run lets in as many callers as the bound allows. */
  lemma AdmissionBoundIsTight(max: nat, strays: nat) returns (es: seq<Event>)
    requires max + strays < U32
    ensures Valid(Start(max + strays, max), es) && Largest(max, es) == max && Strays(es) == strays && Drops(es) == 0
    ensures |InsideSet(After(Start(max + strays, max), es))| == max + strays
  {
    var s0 := Start(max + strays, max);
    var a := ManyComeIn(s0, 0, strays, true);
    var b := ManyComeIn(After(s0, a), strays, max, false);
    RunsAppend(s0, a, b);
    es := a + b;
    LargestUnchanged(max, es);
    assert InsideSet(After(s0, es)) == Below(max + strays);
  }

  /** Over all runs with this many strays, the threshold is a limit exactly when there are none. */
  lemma LimitHoldsIff(max: nat, strays: nat)
    requires max + strays < U32
    ensures (forall n: nat, es | n + Drops(es) < U32 && Valid(Start(n, max), es) && Strays(es) == strays ::
               |InsideSet(After(Start(n, max), es))| <= Largest(max, es))
       <==> strays == 0
  {
    if strays == 0 {
      forall n: nat, es | n + Drops(es) < U32 && Valid(Start(n, max), es) && Strays(es) == strays
        ensures |InsideSet(After(Start(n, max), es))| <= Largest(max, es)
      {
        AdmissionBound(n, max, es);
      }
    } else {
      var es := AdmissionBoundIsTight(max, strays);
      assert |InsideSet(After(Start(max + strays, max), es))| > Largest(max, es);
    }
  }

  // ---- dropped calls shut others out ----

  /** Nobody is past the check, nor will be: the counter stands at `drops` with nobody in flight. */
  predicate Shut(s: Sys, drops: nat) {
    && s.max <= drops && |s.pc| + drops < U32
    && s.counter == |InFlight(s)| + drops
    && forall c :: 0 <= c < |s.pc| && !s.pc[c].Idle? ==> !s.pc[c].Inside? && s.pc[c].cur > s.max
  }

  lemma ShutStep(s: Sys, drops: nat, e: Event)
    requires Shut(s, drops) && Enabled(s, e) && !e.SetMax? && !e.Stray?
    ensures Shut(Next(s, e), drops)
  {
    InFlightStep(s, e);
    SubsetSize(InFlight(Next(s, e)), Below(|s.pc|));
  }

  /** Neither a new threshold nor a stray release comes to the rescue. */
  predicate Unaided(es: seq<Event>) {
    es == [] || (!es[0].SetMax? && !es[0].Stray? && Unaided(es[1..]))
  }

  lemma {:induction false} ShutRun(s: Sys, drops: nat, es: seq<Event>)
    requires Shut(s, drops) && Valid(s, es) && Unaided(es)
    ensures InsideSet(After(s, es)) == {}
    decreases es
  {
    if es != [] {
      ShutStep(s, drops, es[0]);
      ShutRun(Next(s, es[0]), drops, es[1..]);
    }
  }

  /** Some run that goes on unaided lets a caller in. */
  ghost predicate LetsIn(s: Sys) {
    exists es :: Valid(s, es) && Unaided(es) && InsideSet(After(s, es)) != {}
  }

  lemma FirstGetsIn(s: Sys)
    requires FirstInside(s, 0) && s.pc != [] && Up(s.counter) <= s.max
    ensures LetsIn(s)
  {
    ArriveAndCheck(s, 0);
    var es := [Arrive(0), Check(0)];
    assert es[1..] == [Check(0)] && [Check(0)][1..] == [];
    assert Unaided([Check(0)]) && Unaided(es);
    assert 0 in InsideSet(After(s, es));
  }

  /**
   After a run without strays, everybody idle: somebody can still get in exactly when fewer calls were
   dropped than the threshold allows; from then on the limiter refuses everybody for good.
   */
  lemma ShutOutIff(n: nat, max: int, es: seq<Event>)
    requires 0 < n && n + Drops(es) < U32 && Strays(es) == 0
    requires Valid(Start(n, max), es) && InFlight(After(Start(n, max), es)) == {}
    ensures LetsIn(After(Start(n, max), es)) <==> Drops(es) < After(Start(n, max), es).max
  {
    var s := After(Start(n, max), es);
    CounterLaw(n, max, es);
    PcCount(Start(n, max), es);
    assert forall c :: 0 <= c < |s.pc| && !s.pc[c].Idle? ==> c in InFlight(s);
    if Drops(es) < s.max {
      FirstGetsIn(s);
    } else {
      forall more | Valid(s, more) && Unaided(more) ensures InsideSet(After(s, more)) == {} {
        ShutRun(s, Drops(es), more);
      }
    }
  }

  /** The first caller comes in and is dropped. */
  lemma OneDropped(s: Sys) returns (es: seq<Event>)
    requires FirstInside(s, 0) && s.pc != [] && 0 <= s.counter < s.max < U32
    ensures Valid(s, es) && Strays(es) == 0 && Drops(es) == 1
    ensures After(s, es) == s.(counter := s.counter + 1)
  {
    ArriveAndCheck(s, 0);
    ComeInStrays(0, false);
    var a, b := ComeIn(0, false), [Drop(0)];
    assert a == [Arrive(0), Check(0)];
    var t := After(s, a);
    assert b[1..] == [] && Valid(t, b);
    var u := Next(t, Drop(0));
    assert After(u, []) == u && After(t, b) == u;
    RunsAppend(s, a, b);
    es := a + b;
    PcCount(s, es);
    assert u.pc == s.pc;
  }

  lemma {:induction false} ManyDropped(s: Sys, k: nat) returns (es: seq<Event>)
    requires FirstInside(s, 0) && s.pc != [] && 0 <= s.counter && s.counter + k <= s.max < U32
    ensures Valid(s, es) && Strays(es) == 0 && Drops(es) == k
    ensures After(s, es) == s.(counter := s.counter + k)
    decreases k
  {
    if k == 0 {
      es := [];
    } else {
      var one := OneDropped(s);
      var rest := ManyDropped(After(s, one), k - 1);
      RunsAppend(s, one, rest);
      es := one + rest;
    }
  }

  /** For every threshold, one caller dropped that often shuts everybody out with nobody in flight. */
  lemma DropsShutOut(n: nat, max: nat) returns (es: seq<Event>)
    requires 0 < n && n + max < U32
    ensures Valid(Start(n, max), es) && Strays(es) == 0 && Drops(es) == max
    ensures InFlight(After(Start(n, max), es)) == {} && !LetsIn(After(Start(n, max), es))
  {
    es := ManyDropped(Start(n, max), max);
    ShutOutIff(n, max, es);
  }

  // ---- thresholds that change ----

  /** The last threshold that was set. */
  function LastSet(max: int, es: seq<Event>): int {
    if es == [] then max
    else if es[|es| - 1].SetMax? then es[|es| - 1].m
    else LastSet(max, es[..|es| - 1])
  }

  lemma {:induction false} LastSetStep(max: int, es: seq<Event>)
    requires es != []
    ensures LastSet(max, es) == LastSet(if es[0].SetMax? then es[0].m else max, es[1..])
  {
    var n := |es| - 1;
    if n > 0 {
      assert es[..n][0] == es[0] && es[..n][1..] == es[1..][..n - 1];
      LastSetStep(max, es[..n]);
    } else {
      assert es[..n] == [] == es[1..];
    }
  }

  lemma {:induction false} MaxIsLastSet(s: Sys, es: seq<Event>)
    requires Valid(s, es)
    ensures After(s, es).max == LastSet(s.max, es)
    decreases es
  {
    if es != [] {
      LastSetStep(s.max, es);
      MaxIsLastSet(Next(s, es[0]), es[1..]);
    }
  }

  /** Whoever checks is let past exactly if what it counted is within the threshold set last. */
  lemma ThresholdInForce(n: nat, max: int, es: seq<Event>, c: nat)
    requires Valid(Start(n, max), es) && Enabled(After(Start(n, max), es), Check(c))
    ensures var s := After(Start(n, max), es);
      c in InsideSet(Next(s, Check(c))) <==> s.pc[c].cur <= LastSet(max, es)
  {
    MaxIsLastSet(Start(n, max), es);
  }

  /** The bound of the runs is one of the thresholds, and none exceeds it. */
  lemma {:induction false} LargestIs(max: int, es: seq<Event>)
    ensures Largest(max, es) >= max && forall i :: 0 <= i < |es| && es[i].SetMax? ==> Largest(max, es) >= es[i].m
    ensures Largest(max, es) == max || exists i :: 0 <= i < |es| && es[i].SetMax? && Largest(max, es) == es[i].m
    decreases es
  {
    if es != [] {
      var next := if es[0].SetMax? then es[0].m else max;
      LargestIs(next, es[1..]);
      assert forall i :: 1 <= i < |es| ==> es[i] == es[1..][i - 1];
      var top := Largest(next, es[1..]);
      if top != next {
        var i :| 0 <= i < |es| - 1 && es[1..][i].SetMax? && top == es[1..][i].m;
        assert es[i + 1].SetMax? && top == es[i + 1].m;
      }
    }
  }

  // ---- everybody gets out again ----

  /** Steps a caller has left at most. */
  function Ahead(p: Pc): nat {
    match p
    case Idle => 0
    case Counted(_) => 2
    case Inside(_) => 1
    case Refused(_) => 1
  }

  function AllAhead(pc: seq<Pc>): nat {
    if pc == [] then 0 else Ahead(pc[0]) + AllAhead(pc[1..])
  }

  lemma {:induction false} AheadUpdate(pc: seq<Pc>, c: nat, p: Pc)
    requires c < |pc|
    ensures AllAhead(pc[c := p]) == AllAhead(pc) - Ahead(pc[c]) + Ahead(p)
  {
    if c == 0 {
      assert pc[0 := p][1..] == pc[1..];
    } else {
      assert pc[c := p][1..] == pc[1..][c - 1 := p];
      AheadUpdate(pc[1..], c - 1, p);
    }
  }

  /** A caller in flight, refused ones included, can always take a step of its own that brings it closer to the end. */
  lemma OwnStep(s: Sys, c: nat) returns (e: Event)
    requires c < |s.pc| && !s.pc[c].Idle?
    ensures (e == Check(c) || e == Leave(c)) && Enabled(s, e)
    ensures AllAhead(Next(s, e).pc) < AllAhead(s.pc)
  {
    e := if s.pc[c].Counted? then Check(c) else Leave(c);
    AheadUpdate(s.pc, c, Next(s, e).pc[c]);
  }

  lemma {:induction false} Drains(s: Sys) returns (es: seq<Event>)
    ensures Valid(s, es) && Unaided(es) && Drops(es) == 0
    ensures InFlight(After(s, es)) == {} && |After(s, es).pc| == |s.pc|
    decreases AllAhead(s.pc)
  {
    if c :| 0 <= c < |s.pc| && !s.pc[c].Idle? {
      var e := OwnStep(s, c);
      var rest := Drains(Next(s, e));
      es := [e] + rest;
      assert es[1..] == rest;
    } else {
      es := [];
    }
  }

  /** So without drops and strays the counter can always be brought back to 0 by letting everybody finish. */
  lemma CounterComesBack(n: nat, max: int, es: seq<Event>) returns (more: seq<Event>)
    requires n < U32 && Valid(Start(n, max), es) && Strays(es) == 0 && Drops(es) == 0
    ensures Valid(Start(n, max), es + more) && Unaided(more)
    ensures After(Start(n, max), es + more).counter == 0 && InFlight(After(Start(n, max), es + more)) == {}
  {
    var s := Start(n, max);
    more := Drains(After(s, es));
    RunsAppend(s, es, more);
    UnaidedStrays(more);
    QuiescentIff(n, max, es + more);
  }

  lemma {:induction false} UnaidedStrays(es: seq<Event>)
    requires Unaided(es)
    ensures Strays(es) == 0
  {
    if es != [] {
      UnaidedStrays(es[1..]);
    }
  }
}
