/**
 The circuit breaker. A call takes the lock twice: once to be refused or let through, and once to
 record how the chain ended; the chain itself runs in between.
 */
module CircuitBreaker {
  import opened Wrappers
  import opened Timeline

  datatype Breaker = Breaker(failures: nat, openUntil: Option<int>)

  const CLOSED := Breaker(0, None)

  /** The first lock section; `false` is a refusal. */
  function Admit(b: Breaker, now: int): (Breaker, bool) {
    if b.openUntil.Some? then
      if now < b.openUntil.value then (b, false) else (Breaker(0, None), true)
    else (b, true)
  }

  /** The second lock section. */
  function Record(b: Breaker, threshold: nat, cooldown: int, ok: bool, now: int): Breaker {
    if ok then b.(failures := 0)
    else
      var failures := b.failures + 1;
      Breaker(failures, if failures >= threshold then Some(now + cooldown) else b.openUntil)
  }

  class CircuitBreaker {
    const threshold: nat
    const cooldown: int
    var failures: nat
    var openUntil: Option<int>

    function State(): Breaker
      reads this
    {
      Breaker(failures, openUntil)
    }

    constructor (threshold: nat, cooldown: int)
      ensures this.threshold == threshold && this.cooldown == cooldown
      ensures State() == CLOSED
    {
      this.threshold, this.cooldown := threshold, cooldown;
      failures, openUntil := 0, None;
    }

    method Reset()
      modifies this
      ensures State() == CLOSED
    {
      failures, openUntil := 0, None;
    }

    method FirstSection(now: int) returns (admitted: bool)
      modifies this
      ensures (State(), admitted) == Admit(old(State()), now)
    {
      admitted := true;
      if openUntil.Some? {
        if now < openUntil.value {
          return false;
        }
        openUntil := None;
        failures := 0;
      }
    }

    method SecondSection(ok: bool, now: int)
      modifies this
      ensures State() == Record(old(State()), threshold, cooldown, ok, now)
    {
      if ok {
        failures := 0;
      } else {
        failures := failures + 1;
        if failures >= threshold {
          openUntil := Some(now + cooldown);
        }
      }
    }

    /**
     `call` and `call_opaque`: `outcome` is what the chain gives if it runs, `refusal` the error of
     an open circuit, `start` and `done` the two readings of the clock.
     */
    method Call<O, E>(outcome: Result<O, E>, refusal: E, start: int, done: int)
      returns (r: Result<O, E>)
      modifies this
      ensures var (b, rec) := Step(old(State()), threshold, cooldown, CallOp(start, done, outcome.Ok?));
              State() == b && r == if rec.Refused? then Err(refusal) else outcome
    {
      var admitted := FirstSection(start);
      if !admitted {
        return Err(refusal);
      }
      SecondSection(outcome.Ok?, done);
      r := outcome;
    }
  }

  // ---- one caller at a time ----

  /** A call that, if let through, ends at `done` with success or failure. */
  datatype Op = CallOp(start: int, done: int, ok: bool) | ResetOp

  datatype Rec = Refused(at: int) | Ran(start: int, done: int, ok: bool) | WasReset

  function Step(b: Breaker, threshold: nat, cooldown: int, op: Op): (Breaker, Rec) {
    match op
    case ResetOp => (CLOSED, WasReset)
    case CallOp(start, done, ok) =>
      var (b', admitted) := Admit(b, start);
      if admitted then (Record(b', threshold, cooldown, ok, done), Ran(start, done, ok))
      else (b', Refused(start))
  }

  function Run(threshold: nat, cooldown: int, ops: seq<Op>): (Breaker, seq<Rec>) {
    if ops == [] then (CLOSED, [])
    else
      var (b, h) := Run(threshold, cooldown, ops[..|ops| - 1]);
      var (b', rec) := Step(b, threshold, cooldown, ops[|ops| - 1]);
      (b', h + [rec])
  }

  /** Executions that failed since the last success or reset; refusals do not count. */
  function Streak(h: seq<Rec>): nat {
    if h == [] then 0
    else
      var front := h[..|h| - 1];
      match h[|h| - 1]
      case Refused(_) => Streak(front)
      case Ran(_, _, ok) => if ok then 0 else Streak(front) + 1
      case WasReset => 0
  }

  /** When the last execution ended. */
  function LastDone(h: seq<Rec>): int {
    if h == [] then 0
    else if h[|h| - 1].Ran? then h[|h| - 1].done
    else LastDone(h[..|h| - 1])
  }

  /** The breaker opens after this many failures in a row: a threshold of 0 acts like 1. */
  function Group(threshold: nat): nat {
    Max(1, threshold)
  }

  /** m % g by repeated subtraction, which the solver handles better than the operator. */
  function Rem(m: nat, g: nat): (r: nat)
    requires g > 0
    ensures r < g
  {
    if m < g then m else Rem(m - g, g)
  }

  lemma {:induction false} RemIsRemainder(m: nat, g: nat)
    requires g > 0
    ensures Rem(m, g) == m % g
  {
    if m >= g {
      RemIsRemainder(m - g, g);
      DropOne(m - g, g);
    }
  }

  lemma DropOne(m: nat, g: nat)
    requires g > 0
    ensures (m + g) % g == m % g
  {
    var q, r := m / g, m % g;
    assert m + g == (q + 1) * g + r;
    if (m + g) / g != q + 1 {
      var d := (m + g) / g - (q + 1);
      assert d * g == r - (m + g) % g;
      MulMonotone(1, if d > 0 then d else -d, g);
    }
  }

  lemma {:induction false} RemSucc(m: nat, g: nat)
    requires g > 0
    ensures Rem(m + 1, g) == if Rem(m, g) + 1 == g then 0 else Rem(m, g) + 1
  {
    if m >= g {
      RemSucc(m - g, g);
    }
  }

  /** The state as a function of the history, without replaying it. */
  function StateOf(h: seq<Rec>, threshold: nat, cooldown: int): Breaker {
    StreakState(Streak(h), LastDone(h), threshold, cooldown)
  }

  /** The state that goes with a streak of m failures, the last of which ended at `last`. */
  function StreakState(m: nat, last: int, threshold: nat, cooldown: int): Breaker {
    var g := Group(threshold);
    if m == 0 then CLOSED
    else Breaker(Rem(m - 1, g) + 1, if Rem(m, g) == 0 then Some(last + cooldown) else None)
  }

  /** One more failure, from a breaker that has just let its call through. */
  lemma OneMoreFailure(m: nat, last: int, threshold: nat, cooldown: int, start: int, done: int)
    requires Admit(StreakState(m, last, threshold, cooldown), start).1
    ensures Record(Admit(StreakState(m, last, threshold, cooldown), start).0, threshold, cooldown, false, done)
         == StreakState(m + 1, done, threshold, cooldown)
  {
    RemSucc(m, Group(threshold));
    if m > 0 {
      RemSucc(m - 1, Group(threshold));
    }
  }

  lemma StepKeepsHistory(h: seq<Rec>, threshold: nat, cooldown: int, op: Op)
    ensures var (b', rec) := Step(StateOf(h, threshold, cooldown), threshold, cooldown, op);
            b' == StateOf(h + [rec], threshold, cooldown)
  {
    var (b', rec) := Step(StateOf(h, threshold, cooldown), threshold, cooldown, op);
    assert (h + [rec])[..|h|] == h;
    if rec.Ran? && !rec.ok {
      OneMoreFailure(Streak(h), LastDone(h), threshold, cooldown, op.start, op.done);
    }
  }

  /**
   After any sequence of calls and resets, at any times, the breaker is what its history says:
   failures run through 1 .. threshold and start again, and it is open exactly when the current
   run of failed executions has a length divisible by the threshold.
   */
  lemma {:induction false} HistoryDeterminesState(threshold: nat, cooldown: int, ops: seq<Op>)
    ensures var (b, h) := Run(threshold, cooldown, ops);
            b == StateOf(h, threshold, cooldown) && |h| == |ops|
  {
    if ops != [] {
      var n := |ops| - 1;
      HistoryDeterminesState(threshold, cooldown, ops[..n]);
      StepKeepsHistory(Run(threshold, cooldown, ops[..n]).1, threshold, cooldown, ops[n]);
    }
  }

  /** A call is refused iff the streak is a whole number of thresholds and the cooldown since the last failure runs. */
  lemma RefusedIff(threshold: nat, cooldown: int, ops: seq<Op>, call: Op)
    requires call.CallOp?
    ensures var (b, h) := Run(threshold, cooldown, ops);
            Step(b, threshold, cooldown, call).1.Refused?
            <==> && Streak(h) > 0 && Streak(h) % Group(threshold) == 0
                 && call.start < LastDone(h) + cooldown
  {
    HistoryDeterminesState(threshold, cooldown, ops);
    RemIsRemainder(Streak(Run(threshold, cooldown, ops).1), Group(threshold));
  }

  // ---- how often a failing service is called ----

  /** One caller at a time, on one clock. */
  predicate InOrder(ops: seq<Op>) {
    && (forall i :: 0 <= i < |ops| ==> ops[i].CallOp? && ops[i].start <= ops[i].done)
    && (forall i :: 0 <= i < |ops| - 1 ==> ops[i].done <= ops[i + 1].start)
  }

  predicate AllFail(ops: seq<Op>) {
    forall i :: 0 <= i < |ops| ==> ops[i].CallOp? && !ops[i].ok
  }

  /** Start and end of every execution, refusals left out. */
  function Execs(h: seq<Rec>): seq<(int, int)> {
    if h == [] then []
    else
      var last := h[|h| - 1];
      Execs(h[..|h| - 1]) + (if last.Ran? then [(last.start, last.done)] else [])
  }

  function Starts(es: seq<(int, int)>): (ts: seq<int>)
    ensures |ts| == |es|
    ensures forall i :: 0 <= i < |es| ==> ts[i] == es[i].0
  {
    seq(|es|, i requires 0 <= i < |es| => es[i].0)
  }

  predicate Spaced(es: seq<(int, int)>, g: nat, cooldown: int)
    requires g > 0
  {
    && (forall i :: 0 <= i < |es| ==> es[i].0 <= es[i].1)
    && (forall i, j :: 0 <= i < j < |es| ==> es[i].1 <= es[j].0)
    && (forall i :: 0 < i < |es| && Rem(i, g) == 0 ==> es[i].0 >= es[i - 1].1 + cooldown)
  }

  /** What a failing history looks like, up to the time `now` its last call ended. */
  predicate FailingHistory(h: seq<Rec>, g: nat, cooldown: int, now: int)
    requires g > 0
  {
    var es := Execs(h);
    && Spaced(es, g, cooldown)
    && Streak(h) == |es|
    && (es != [] ==> LastDone(h) == es[|es| - 1].1 <= now)
  }

  lemma SpacedSnoc(es: seq<(int, int)>, g: nat, cooldown: int, start: int, done: int)
    requires g > 0 && Spaced(es, g, cooldown) && start <= done
    requires es != [] ==> es[|es| - 1].1 <= start
    requires es != [] && Rem(|es|, g) == 0 ==> es[|es| - 1].1 + cooldown <= start
    ensures Spaced(es + [(start, done)], g, cooldown)
  {
    if es != [] {
      assert forall i :: 0 <= i < |es| ==> es[i].1 <= es[|es| - 1].1;
    }
  }

  lemma StepKeepsSpacing(h: seq<Rec>, threshold: nat, cooldown: int, now: int, op: Op)
    requires FailingHistory(h, Group(threshold), cooldown, now)
    requires op.CallOp? && !op.ok && now <= op.start <= op.done
    ensures var rec := Step(StateOf(h, threshold, cooldown), threshold, cooldown, op).1;
            FailingHistory(h + [rec], Group(threshold), cooldown, op.done)
  {
    var rec := Step(StateOf(h, threshold, cooldown), threshold, cooldown, op).1;
    assert (h + [rec])[..|h|] == h;
    var es := Execs(h);
    if rec.Ran? {
      SpacedSnoc(es, Group(threshold), cooldown, op.start, op.done);
    } else {
      assert Execs(h + [rec]) == es;
    }
  }

  lemma {:induction false} FailingRunIsSpaced(threshold: nat, cooldown: int, ops: seq<Op>)
    requires InOrder(ops) && AllFail(ops)
    ensures FailingHistory(Run(threshold, cooldown, ops).1, Group(threshold), cooldown,
                           if ops == [] then 0 else ops[|ops| - 1].done)
  {
    if ops != [] {
      var n := |ops| - 1;
      FailingRunIsSpaced(threshold, cooldown, ops[..n]);
      HistoryDeterminesState(threshold, cooldown, ops[..n]);
      var h := Run(threshold, cooldown, ops[..n]).1;
      if n > 0 {
        assert ops[n - 1].done <= ops[n].start;
        StepKeepsSpacing(h, threshold, cooldown, ops[n - 1].done, ops[n]);
      } else {
        StepKeepsSpacing(h, threshold, cooldown, ops[n].start, ops[n]);
      }
    }
  }

  /** The next multiple of g after i is at most g away. */
  lemma {:induction false} NextMultiple(i: nat, g: nat) returns (j: nat)
    requires g > 0
    ensures i < j <= i + g && Rem(j, g) == 0
  {
    if i < g {
      j := g;
    } else {
      j := NextMultiple(i - g, g);
      j := j + g;
    }
  }

  lemma {:induction false} SpacedGap(es: seq<(int, int)>, g: nat, cooldown: int, i: nat, k: nat)
    requires g > 0 && Spaced(es, g, cooldown) && i + k * g < |es|
    ensures es[i + k * g].0 >= es[i].0 + k * cooldown
    decreases k
  {
    if k > 0 {
      var j := NextMultiple(i, g);
      MulMonotone(1, k, g);
      assert k * g == (k - 1) * g + g;
      assert i + g + (k - 1) * g == i + k * g;
      assert es[j - 1].1 + cooldown <= es[j].0;
      assert es[i].0 <= es[j - 1].1;
      assert es[j].0 <= es[i + g].0;
      SpacedGap(es, g, cooldown, i + g, k - 1);
      assert k * cooldown == (k - 1) * cooldown + cooldown;
    }
  }

  /**
   While every execution fails, an interval of length `len` contains at most
   threshold * (len / cooldown + 1) executions, however often the service is called.
   */
  lemma FailingCallsAreRare(threshold: nat, cooldown: int, ops: seq<Op>, from: int, len: nat)
    requires InOrder(ops) && AllFail(ops) && cooldown > 0
    ensures var starts := Starts(Execs(Run(threshold, cooldown, ops).1));
            Count(starts, from, from + len) <= Group(threshold) * (len / cooldown + 1)
  {
    FailingRunIsSpaced(threshold, cooldown, ops);
    var es := Execs(Run(threshold, cooldown, ops).1);
    var g, k := Group(threshold), len / cooldown + 1;
    MulMonotone(0, k, g);
    if Count(Starts(es), from, from + len) > k * g {
      var i := CrowdedSpan(Starts(es), from, from + len, k * g);
      SpacedGap(es, g, cooldown, i, k);
      RoundedUp(len, cooldown);
    }
  }

  lemma RoundedUp(len: nat, c: int)
    requires c > 0
    ensures (len / c + 1) * c > len
  {
    assert len == (len / c) * c + len % c;
  }

  // ---- callers interleaved between the two lock sections ----

  datatype Shared = Shared(b: Breaker, inflight: nat)

  /** Begin and Finish are the two lock sections of some call; a refused call has no Finish. */
  datatype Event = Begin(now: int) | Finish(ok: bool, now: int) | ResetNow

  predicate Enabled(s: Shared, limit: nat, e: Event) {
    match e
    case Begin(now) => Admit(s.b, now).1 ==> s.inflight < limit
    case Finish(_, _) => s.inflight > 0
    case ResetNow => true
  }

  function Next(s: Shared, threshold: nat, cooldown: int, e: Event): Shared
    requires e.Finish? ==> s.inflight > 0
  {
    match e
    case Begin(now) =>
      var (b, admitted) := Admit(s.b, now);
      Shared(b, if admitted then s.inflight + 1 else s.inflight)
    case Finish(ok, now) => Shared(Record(s.b, threshold, cooldown, ok, now), s.inflight - 1)
    case ResetNow => s.(b := CLOSED)
  }

  /** Every state along the way keeps at most `limit` calls in flight. */
  ghost predicate Reaches(s: Shared, threshold: nat, cooldown: int, limit: nat, es: seq<Event>, t: Shared)
    decreases es
  {
    if es == [] then s == t
    else
      && Enabled(s, limit, es[0])
      && Reaches(Next(s, threshold, cooldown, es[0]), threshold, cooldown, limit, es[1..], t)
  }

  predicate Bounded(s: Shared, g: nat, limit: nat) {
    && s.inflight <= limit
    && s.b.failures + s.inflight <= g - 1 + limit
    && (s.b.openUntil.None? ==> s.b.failures < g)
  }

  /**
   Every reachable state, resets and late successes included: failures counted and failures still
   to come stay below threshold + limit, and a breaker that is not open is below its threshold.
   */
  lemma {:induction false} ConcurrentBound(
    s: Shared, threshold: nat, cooldown: int, limit: nat, es: seq<Event>, t: Shared)
    requires Bounded(s, Group(threshold), limit)
    requires Reaches(s, threshold, cooldown, limit, es, t)
    ensures Bounded(t, Group(threshold), limit)
    decreases es
  {
    if es != [] {
      ConcurrentBound(Next(s, threshold, cooldown, es[0]), threshold, cooldown, limit, es[1..], t);
    }
  }

  lemma {:induction false} ReachesThen(
    s: Shared, threshold: nat, cooldown: int, limit: nat, a: seq<Event>, m: Shared, b: seq<Event>, t: Shared)
    requires Reaches(s, threshold, cooldown, limit, a, m) && Reaches(m, threshold, cooldown, limit, b, t)
    ensures Reaches(s, threshold, cooldown, limit, a + b, t)
    decreases a
  {
    if a == [] {
      assert a + b == b;
    } else {
      assert (a + b)[1..] == a[1..] + b;
      ReachesThen(Next(s, threshold, cooldown, a[0]), threshold, cooldown, limit, a[1..], m, b, t);
    }
  }

  /** k calls begin on a closed breaker. */
  lemma {:induction false} ManyBegin(s: Shared, threshold: nat, cooldown: int, limit: nat, k: nat)
    returns (es: seq<Event>)
    requires s.b.openUntil.None? && s.inflight + k <= limit
    ensures Reaches(s, threshold, cooldown, limit, es, Shared(s.b, s.inflight + k))
    decreases k
  {
    if k == 0 {
      es := [];
    } else {
      var rest := ManyBegin(Shared(s.b, s.inflight + 1), threshold, cooldown, limit, k - 1);
      es := [Begin(0)] + rest;
      assert es[1..] == rest;
    }
  }

  /** k calls in flight all fail. */
  lemma {:induction false} ManyFail(s: Shared, threshold: nat, cooldown: int, limit: nat, k: nat)
    returns (es: seq<Event>, t: Shared)
    requires s.inflight >= k
    ensures Reaches(s, threshold, cooldown, limit, es, t)
    ensures t.inflight == s.inflight - k && t.b.failures == s.b.failures + k
    ensures s.b.openUntil.None? && t.b.failures < Group(threshold) ==> t.b.openUntil.None?
    decreases k
  {
    if k == 0 {
      es, t := [], s;
    } else {
      var rest;
      rest, t := ManyFail(Next(s, threshold, cooldown, Finish(false, 0)), threshold, cooldown, limit, k - 1);
      es := [Finish(false, 0)] + rest;
      assert es[1..] == rest;
    }
  }

  lemma {:induction false} OneByOne(threshold: nat, cooldown: int, limit: nat, k: nat) returns (es: seq<Event>)
    requires limit > 0 && k < Group(threshold)
    ensures Reaches(Shared(CLOSED, 0), threshold, cooldown, limit, es, Shared(Breaker(k, None), 0))
    decreases k
  {
    if k == 0 {
      es := [];
    } else {
      var front := OneByOne(threshold, cooldown, limit, k - 1);
      var last := [Begin(0), Finish(false, 0)];
      assert last[1..] == [Finish(false, 0)] && last[1..][1..] == [];
      var m := Shared(Breaker(k - 1, None), 0);
      assert Reaches(Next(Next(m, threshold, cooldown, Begin(0)), threshold, cooldown, Finish(false, 0)),
                     threshold, cooldown, limit, [], Shared(Breaker(k, None), 0));
      ReachesThen(Shared(CLOSED, 0), threshold, cooldown, limit, front, m, last, Shared(Breaker(k, None), 0));
      es := front + last;
    }
  }

  /** The bound is reached: for every threshold and limit some run counts that many failures. */
  lemma ConcurrentBoundIsTight(threshold: nat, cooldown: int, limit: nat) returns (es: seq<Event>, t: Shared)
    requires limit > 0
    ensures Reaches(Shared(CLOSED, 0), threshold, cooldown, limit, es, t)
    ensures t.b.failures == Group(threshold) - 1 + limit
  {
    var s0 := Shared(CLOSED, 0);
    var k := Group(threshold) - 1;
    var a := OneByOne(threshold, cooldown, limit, k);
    var s1 := Shared(Breaker(k, None), 0);
    var b := ManyBegin(s1, threshold, cooldown, limit, limit);
    var s2 := Shared(s1.b, limit);
    var c;
    c, t := ManyFail(s2, threshold, cooldown, limit, limit);
    ReachesThen(s0, threshold, cooldown, limit, a, s1, b, s2);
    ReachesThen(s0, threshold, cooldown, limit, a + b, s2, c, t);
    es := a + b + c;
  }

  // ---- how often interleaved callers reach a failing service ----

  /** From `now` on, on one clock, nobody resets the breaker and every call that ends has failed. */
  predicate FailingFrom(now: int, es: seq<Event>)
    decreases es
  {
    es == []
    || (&& !es[0].ResetNow? && now <= es[0].now && (es[0].Finish? ==> !es[0].ok)
        && FailingFrom(es[0].now, es[1..]))
  }

  /** When calls were let through. */
  function Passed(s: Shared, threshold: nat, cooldown: int, limit: nat, es: seq<Event>): seq<int>
    decreases es
  {
    if es == [] || !Enabled(s, limit, es[0]) then []
    else
      (if es[0].Begin? && Admit(s.b, es[0].now).1 then [es[0].now] else [])
      + Passed(Next(s, threshold, cooldown, es[0]), threshold, cooldown, limit, es[1..])
  }

  /** Every m + 1 calls in a row take at least a cooldown. */
  predicate Paced(ts: seq<int>, m: nat, cooldown: int) {
    Sorted(ts) && forall i :: 0 <= i < |ts| - m ==> ts[i] + cooldown <= ts[i + m]
  }

  /** All calls let through so far, but the last `current`, lie a cooldown before `time`. */
  predicate Cooled(ts: seq<int>, current: nat, cooldown: int, time: int) {
    forall i :: 0 <= i < |ts| - current ==> ts[i] + cooldown <= time
  }

  /** `current` counts the calls let through since the breaker last stopped being open. */
  predicate PacedState(
    s: Shared, ts: seq<int>, current: nat, now: int, threshold: nat, cooldown: int, limit: nat)
  {
    var g := Group(threshold);
    && Bounded(s, g, limit) && Paced(ts, g - 1 + limit, cooldown)
    && (forall i :: 0 <= i < |ts| ==> ts[i] <= now)
    && match s.b.openUntil
       case None => current <= s.b.failures + s.inflight && Cooled(ts, current, cooldown, now)
       case Some(until) => Cooled(ts, 0, cooldown, until)
  }

  lemma PacedSnoc(ts: seq<int>, m: nat, current: nat, cooldown: int, now: int)
    requires Paced(ts, m, cooldown) && Cooled(ts, current, cooldown, now) && current < m
    requires forall i :: 0 <= i < |ts| ==> ts[i] <= now
    ensures Paced(ts + [now], m, cooldown)
  {
  }

  /** Where the count of the current period stands after an event. */
  function CurrentAfter(s: Shared, current: nat, e: Event): nat {
    match e
    case Begin(now) => if !Admit(s.b, now).1 then current else if s.b.openUntil.Some? then 1 else current + 1
    case Finish(_, _) => current
    case ResetNow => current
  }

  /** A call is let through; the ones before are a cooldown back if the breaker was open until then. */
  lemma PacedBegin(
    s: Shared, ts: seq<int>, current: nat, now: int, threshold: nat, cooldown: int, limit: nat, time: int)
    requires PacedState(s, ts, current, now, threshold, cooldown, limit)
    requires Enabled(s, limit, Begin(time)) && now <= time && Admit(s.b, time).1
    ensures PacedState(Next(s, threshold, cooldown, Begin(time)), ts + [time], CurrentAfter(s, current, Begin(time)),
                       time, threshold, cooldown, limit)
  {
    var before := if s.b.openUntil.Some? then 0 else current;
    assert Cooled(ts, before, cooldown, time);
    PacedSnoc(ts, Group(threshold) - 1 + limit, before, cooldown, time);
    assert Cooled(ts + [time], before + 1, cooldown, time);
  }

  /** A failure at `time` opens the breaker until a cooldown after every call so far, or leaves it as it was. */
  lemma PacedFinish(
    s: Shared, ts: seq<int>, current: nat, now: int, threshold: nat, cooldown: int, limit: nat, time: int)
    requires PacedState(s, ts, current, now, threshold, cooldown, limit)
    requires s.inflight > 0 && now <= time
    ensures PacedState(Next(s, threshold, cooldown, Finish(false, time)), ts, current, time, threshold, cooldown, limit)
  {
    assert Cooled(ts, 0, cooldown, time + cooldown);
  }

  lemma PacedStep(
    s: Shared, ts: seq<int>, current: nat, now: int, threshold: nat, cooldown: int, limit: nat, e: Event)
    requires PacedState(s, ts, current, now, threshold, cooldown, limit)
    requires Enabled(s, limit, e) && !e.ResetNow? && now <= e.now && (e.Finish? ==> !e.ok)
    ensures PacedState(Next(s, threshold, cooldown, e),
                       ts + (if e.Begin? && Admit(s.b, e.now).1 then [e.now] else []),
                       CurrentAfter(s, current, e), e.now, threshold, cooldown, limit)
  {
    if e.Begin? && Admit(s.b, e.now).1 {
      PacedBegin(s, ts, current, now, threshold, cooldown, limit, e.now);
    } else {
      assert ts + [] == ts;
      if e.Finish? {
        PacedFinish(s, ts, current, now, threshold, cooldown, limit, e.now);
      }
    }
  }

  lemma {:induction false} PacedRun(
    s: Shared, ts: seq<int>, current: nat, now: int, threshold: nat, cooldown: int, limit: nat, es: seq<Event>)
    requires PacedState(s, ts, current, now, threshold, cooldown, limit) && FailingFrom(now, es)
    ensures Paced(ts + Passed(s, threshold, cooldown, limit, es), Group(threshold) - 1 + limit, cooldown)
    decreases es
  {
    if es == [] || !Enabled(s, limit, es[0]) {
      assert ts + [] == ts;
    } else {
      var e := es[0];
      var more := if e.Begin? && Admit(s.b, e.now).1 then [e.now] else [];
      PacedStep(s, ts, current, now, threshold, cooldown, limit, e);
      var s', current' := Next(s, threshold, cooldown, e), CurrentAfter(s, current, e);
      PacedRun(s', ts + more, current', e.now, threshold, cooldown, limit, es[1..]);
      assert ts + (more + Passed(s', threshold, cooldown, limit, es[1..]))
          == ts + more + Passed(s', threshold, cooldown, limit, es[1..]);
    }
  }

  lemma PacedFromClosed(threshold: nat, cooldown: int, limit: nat, es: seq<Event>, begin: int)
    requires FailingFrom(begin, es)
    ensures Paced(Passed(Shared(CLOSED, 0), threshold, cooldown, limit, es), Group(threshold) - 1 + limit, cooldown)
  {
    PacedRun(Shared(CLOSED, 0), [], 0, begin, threshold, cooldown, limit, es);
    var ts := Passed(Shared(CLOSED, 0), threshold, cooldown, limit, es);
    assert [] + ts == ts;
  }

  lemma {:induction false} PacedGap(ts: seq<int>, m: nat, cooldown: int, i: nat, k: nat)
    requires Paced(ts, m, cooldown) && i + k * m < |ts|
    ensures ts[i + k * m] >= ts[i] + k * cooldown
    decreases k
  {
    if k > 0 {
      assert k * m == (k - 1) * m + m && k * cooldown == (k - 1) * cooldown + cooldown;
      MulMonotone(0, k - 1, m);
      assert i + m + (k - 1) * m == i + k * m;
      PacedGap(ts, m, cooldown, i + m, k - 1);
    }
  }

  /** What an interval of this length has room for. */
  function Room(len: nat, cooldown: int, m: nat): int
    requires cooldown > 0
  {
    (len / cooldown + 1) * m
  }

  lemma PacedCount(ts: seq<int>, m: nat, cooldown: int, from: int, len: nat)
    requires Paced(ts, m, cooldown) && cooldown > 0
    ensures Count(ts, from, from + len) <= Room(len, cooldown, m)
  {
    var k := len / cooldown + 1;
    MulMonotone(0, k, m);
    if Count(ts, from, from + len) > k * m {
      var i := CrowdedSpan(ts, from, from + len, k * m);
      PacedGap(ts, m, cooldown, i, k);
      RoundedUp(len, cooldown);
    }
  }

  /**
   While every call fails and at most `limit` are in flight, an interval of length `len` sees at most
   (len / cooldown + 1) * (threshold - 1 + limit) calls let through, whatever the interleaving.
   */
  lemma FailingCallsAreRareTogether(
    threshold: nat, cooldown: int, limit: nat, es: seq<Event>, begin: int, from: int, len: nat)
    requires FailingFrom(begin, es) && cooldown > 0
    ensures Count(Passed(Shared(CLOSED, 0), threshold, cooldown, limit, es), from, from + len)
         <= Room(len, cooldown, Group(threshold) - 1 + limit)
  {
    var ts := Passed(Shared(CLOSED, 0), threshold, cooldown, limit, es);
    PacedFromClosed(threshold, cooldown, limit, es, begin);
    PacedCount(ts, Group(threshold) - 1 + limit, cooldown, from, len);
  }

  // ---- trials of a half-open breaker ----

  /** The breaker is tried by calls that fail, and does not open again. */
  predicate Trying(s: Shared, threshold: nat, cooldown: int, limit: nat, es: seq<Event>)
    decreases es
  {
    es == []
    || (&& !es[0].ResetNow? && Enabled(s, limit, es[0]) && (es[0].Finish? ==> !es[0].ok)
        && Next(s, threshold, cooldown, es[0]).b.openUntil.None?
        && Trying(Next(s, threshold, cooldown, es[0]), threshold, cooldown, limit, es[1..]))
  }

  function Trials(es: seq<Event>): nat {
    if es == [] then 0 else (if es[0].Begin? then 1 else 0) + Trials(es[1..])
  }

  /** However a breaker came to be open, no more than k failing calls pass it before it opens again. */
  ghost predicate AtMostTrials(threshold: nat, cooldown: int, limit: nat, k: nat) {
    forall past, s, es ::
      && Reaches(Shared(CLOSED, 0), threshold, cooldown, limit, past, s) && s.b.openUntil.Some?
      && Trying(s, threshold, cooldown, limit, es)
      ==> Trials(es) <= k
  }

  lemma {:induction false} TrialsAreFew(s: Shared, threshold: nat, cooldown: int, limit: nat, es: seq<Event>)
    requires Bounded(s, Group(threshold), limit) && s.b.openUntil.None? && Trying(s, threshold, cooldown, limit, es)
    ensures s.b.failures + s.inflight + Trials(es) <= Group(threshold) - 1 + limit
    decreases es
  {
    if es != [] {
      TrialsAreFew(Next(s, threshold, cooldown, es[0]), threshold, cooldown, limit, es[1..]);
    }
  }

  /** As many calls as the limit allows. */
  lemma {:induction false} FillUp(s: Shared, threshold: nat, cooldown: int, limit: nat, now: int, rest: seq<Event>)
    returns (es: seq<Event>)
    requires s.b.openUntil.None? && s.inflight <= limit
    requires Trying(Shared(s.b, limit), threshold, cooldown, limit, rest)
    ensures Trying(s, threshold, cooldown, limit, es) && Trials(es) == limit - s.inflight + Trials(rest)
    decreases limit - s.inflight
  {
    if s.inflight == limit {
      es := rest;
    } else {
      var more := FillUp(Next(s, threshold, cooldown, Begin(now)), threshold, cooldown, limit, now, rest);
      es := [Begin(now)] + more;
      assert es[1..] == more;
    }
  }

  /** Each failure that does not open the breaker makes room for another call. */
  lemma {:induction false} MakeRoom(s: Shared, threshold: nat, cooldown: int, limit: nat) returns (es: seq<Event>)
    requires s.b.openUntil.None? && s.inflight == limit > 0 && s.b.failures < Group(threshold)
    ensures Trying(s, threshold, cooldown, limit, es) && Trials(es) == Group(threshold) - 1 - s.b.failures
    decreases Group(threshold) - s.b.failures
  {
    if s.b.failures == Group(threshold) - 1 {
      es := [];
    } else {
      var t := Next(s, threshold, cooldown, Finish(false, 0));
      var u := Next(t, threshold, cooldown, Begin(0));
      var more := MakeRoom(u, threshold, cooldown, limit);
      var back := [Begin(0)] + more;
      assert back[1..] == more && Trying(t, threshold, cooldown, limit, back);
      es := [Finish(false, 0)] + back;
      assert es[1..] == back;
    }
  }

  /** A breaker opened by one caller's failures. */
  lemma Opened(threshold: nat, cooldown: int, limit: nat) returns (es: seq<Event>, s: Shared)
    requires limit > 0
    ensures s == Shared(Breaker(Group(threshold), Some(cooldown)), 0)
    ensures Reaches(Shared(CLOSED, 0), threshold, cooldown, limit, es, s)
  {
    var k := Group(threshold) - 1;
    var front := OneByOne(threshold, cooldown, limit, k);
    var m := Shared(Breaker(k, None), 0);
    var last := [Begin(0), Finish(false, 0)];
    assert last[1..] == [Finish(false, 0)] && last[1..][1..] == [];
    s := Next(Next(m, threshold, cooldown, Begin(0)), threshold, cooldown, Finish(false, 0));
    assert Reaches(s, threshold, cooldown, limit, [], s);
    ReachesThen(Shared(CLOSED, 0), threshold, cooldown, limit, front, m, last, s);
    es := front + last;
  }

  /**
   With calls on up to `limit` threads, the trials of a half-open breaker number at most
   threshold - 1 + limit, and no smaller bound holds.
   */
  lemma AtMostTrialsIff(threshold: nat, cooldown: int, limit: nat, k: nat)
    requires limit > 0
    ensures AtMostTrials(threshold, cooldown, limit, k) <==> Group(threshold) - 1 + limit <= k
  {
    var start := Shared(CLOSED, 0);
    forall past, s, es
      | && Reaches(start, threshold, cooldown, limit, past, s) && s.b.openUntil.Some?
        && Trying(s, threshold, cooldown, limit, es)
      ensures Trials(es) <= Group(threshold) - 1 + limit
    {
      ConcurrentBound(start, threshold, cooldown, limit, past, s);
      if es != [] {
        TrialsAreFew(Next(s, threshold, cooldown, es[0]), threshold, cooldown, limit, es[1..]);
      }
    }
    var past, s := Opened(threshold, cooldown, limit);
    var t := Next(s, threshold, cooldown, Begin(cooldown));
    var rest := MakeRoom(Shared(t.b, limit), threshold, cooldown, limit);
    var more := FillUp(t, threshold, cooldown, limit, cooldown, rest);
    var es := [Begin(cooldown)] + more;
    assert es[1..] == more && Trials(es) == Group(threshold) - 1 + limit;
    assert Trying(s, threshold, cooldown, limit, es);
  }

  /** Half-open lets a single trial through exactly for a threshold of 0 or 1 and one caller at a time. */
  lemma OneTrialIff(threshold: nat, cooldown: int, limit: nat)
    requires limit > 0
    ensures AtMostTrials(threshold, cooldown, limit, 1) <==> threshold <= 1 && limit == 1
  {
    AtMostTrialsIff(threshold, cooldown, limit, 1);
  }

  // ---- resets among interleaved callers ----

  /** After a reset, whatever the run before, the breaker admits at any time and has no failures on record. */
  lemma ResetAdmits(s: Shared, threshold: nat, cooldown: int, limit: nat, es: seq<Event>, t: Shared, now: int)
    requires Reaches(s, threshold, cooldown, limit, es, t)
    ensures var u := Next(t, threshold, cooldown, ResetNow);
      && Reaches(s, threshold, cooldown, limit, es + [ResetNow], u)
      && u.inflight == t.inflight && u.b.failures == 0 && Admit(u.b, now) == (u.b, true)
  {
    var u := Next(t, threshold, cooldown, ResetNow);
    assert [ResetNow][1..] == [];
    assert Reaches(t, threshold, cooldown, limit, [ResetNow], u);
    ReachesThen(s, threshold, cooldown, limit, es, t, [ResetNow], u);
  }

  function Finishes(es: seq<Event>): nat {
    if es == [] then 0 else (if es[0].Finish? then 1 else 0) + Finishes(es[1..])
  }

  /** Every call let through is counted: it has finished or is in flight. */
  lemma {:induction false} PassedAreAll(
    s: Shared, threshold: nat, cooldown: int, limit: nat, es: seq<Event>, t: Shared)
    requires Reaches(s, threshold, cooldown, limit, es, t)
    ensures |Passed(s, threshold, cooldown, limit, es)| + s.inflight == Finishes(es) + t.inflight
    decreases es
  {
    if es != [] {
      PassedAreAll(Next(s, threshold, cooldown, es[0]), threshold, cooldown, limit, es[1..], t);
    }
  }

  /** While the breaker is open any number of calls may be refused, however many are in flight; that changes nothing. */
  lemma RefusalChangesNothing(s: Shared, threshold: nat, cooldown: int, limit: nat, now: int)
    requires s.b.openUntil.Some? && now < s.b.openUntil.value
    ensures Enabled(s, limit, Begin(now)) && Next(s, threshold, cooldown, Begin(now)) == s
  {
  }
}
