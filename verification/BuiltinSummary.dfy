/**
 Chains of builtin stages have a constant-size summary: whatever their length, they shift the
 input, clamp it, refuse everything below one bound and clamp the output.
 */
module BuiltinSummary {
  import opened Integers
  import opened Wrappers
  import opened Dispatch
  import opened Onion

  /**
   Accepts x iff x >= lo; the core then sees min(x + shift, cap); the output is clamped by outCap;
   the last trace id wins. `None` is "no bound", and `dead` is "accepts nothing".
   */
  datatype Summary = Summary(
    shift: int,
    cap: Option<int>,
    dead: bool,
    lo: Option<int>,
    outCap: Option<int>,
    trace: Option<int>)

  const IDENTITY := Summary(0, None, false, None, None, None)

  function MinOpt(a: Option<int>, b: Option<int>): Option<int> {
    if a.None? then b else if b.None? then a else Some(Min(a.value, b.value))
  }

  function MaxOpt(a: Option<int>, b: Option<int>): Option<int> {
    if a.None? then b else if b.None? then a else Some(Max(a.value, b.value))
  }

  function Plus(a: Option<int>, k: int): Option<int> {
    if a.None? then None else Some(a.value + k)
  }

  function Clamp(x: int, cap: Option<int>): int {
    if cap.Some? then Min(x, cap.value) else x
  }

  predicate Reaches(x: int, lo: Option<int>) {
    lo.Some? ==> x >= lo.value
  }

  predicate Accepts(s: Summary, x: int) {
    !s.dead && Reaches(x, s.lo)
  }

  function Seen(s: Summary, x: int): int {
    Clamp(x + s.shift, s.cap)
  }

  function Single(b: Builtin): Summary {
    match b
    case Add(k) => IDENTITY.(shift := k)
    case Cap(n) => IDENTITY.(cap := Some(n), outCap := Some(n))
    case RejectNegative => IDENTITY.(lo := Some(0))
    case DeadlineCheck => IDENTITY
    case TraceInit(id) => IDENTITY.(trace := Some(id))
  }

  /** First `a`, then `b` on what `a` lets through. */
  function Compose(a: Summary, b: Summary): Summary {
    Summary(
      a.shift + b.shift,
      MinOpt(Plus(a.cap, b.shift), b.cap),
      a.dead || b.dead || (a.cap.Some? && b.lo.Some? && a.cap.value < b.lo.value),
      MaxOpt(a.lo, Plus(b.lo, -a.shift)),
      MinOpt(a.outCap, b.outCap),
      if b.trace.Some? then b.trace else a.trace)
  }

  function Summarize(bs: seq<Builtin>): Summary {
    if bs == [] then IDENTITY else Compose(Single(bs[0]), Summarize(bs[1..]))
  }

  lemma ComposeMeans(a: Summary, b: Summary, x: int)
    ensures Accepts(Compose(a, b), x) <==> Accepts(a, x) && Accepts(b, Seen(a, x))
    ensures Seen(Compose(a, b), x) == Seen(b, Seen(a, x))
  {
  }

  lemma ComposeAssoc(a: Summary, b: Summary, c: Summary)
    ensures Compose(Compose(a, b), c) == Compose(a, Compose(b, c))
  {
  }

  /** Summaries compose as chains append: summarising is a homomorphism. */
  lemma {:induction false} SummarizeAppend(a: seq<Builtin>, b: seq<Builtin>)
    ensures Summarize(a + b) == Compose(Summarize(a), Summarize(b))
  {
    if a == [] {
      assert a + b == b;
    } else {
      assert (a + b)[1..] == a[1..] + b;
      SummarizeAppend(a[1..], b);
      ComposeAssoc(Single(a[0]), Summarize(a[1..]), Summarize(b));
    }
  }

  // ---- the i32 range in which no Add overflows ----

  /** An interval of inputs; `None` is unbounded, `empty` is no input at all. */
  datatype Range = Range(empty: bool, lo: Option<int>, hi: Option<int>)

  const EVERYTHING := Range(false, None, None)

  predicate Within(x: int, r: Range) {
    !r.empty && Reaches(x, r.lo) && (r.hi.Some? ==> x <= r.hi.value)
  }

  /** The inputs whose image under the clamped shift `s` lies in `r`. */
  function Preimage(s: Summary, r: Range): Range {
    Range(
      r.empty || (s.cap.Some? && r.lo.Some? && s.cap.value < r.lo.value),
      Plus(r.lo, -s.shift),
      if r.hi.None? || (s.cap.Some? && s.cap.value <= r.hi.value) then None else Some(r.hi.value - s.shift))
  }

  function Meet(a: Range, b: Range): Range {
    Range(a.empty || b.empty, MaxOpt(a.lo, b.lo), MinOpt(a.hi, b.hi))
  }

  function SafeInput(b: Builtin): Range {
    if b.Add? then Range(false, Some(I32_MIN - b.k), Some(I32_MAX - b.k)) else EVERYTHING
  }

  function SafeRange(bs: seq<Builtin>): Range {
    if bs == [] then EVERYTHING
    else Meet(SafeInput(bs[0]), Preimage(Single(bs[0]), SafeRange(bs[1..])))
  }

  /** Every Add of the list, run on unbounded integers from x, gives a value that fits i32. */
  predicate AllFit(bs: seq<Builtin>, x: int) {
    bs == [] ||
    ((bs[0].Add? ==> IsI32(x + bs[0].k)) && AllFit(bs[1..], Seen(Single(bs[0]), x)))
  }

  /** The same, of the Adds that are run at all: a refusal ends the run. */
  predicate NoOverflow(bs: seq<Builtin>, x: int) {
    bs == [] ||
    ((bs[0].Add? ==> IsI32(x + bs[0].k))
     && (Accepts(Single(bs[0]), x) ==> NoOverflow(bs[1..], Seen(Single(bs[0]), x))))
  }

  /** The inputs on which every Add fits are exactly one interval, computed by the same kind of fold. */
  lemma {:induction false} SafeRangeExact(bs: seq<Builtin>, x: int)
    ensures Within(x, SafeRange(bs)) <==> AllFit(bs, x)
  {
    if bs != [] {
      SafeRangeExact(bs[1..], Seen(Single(bs[0]), x));
    }
  }

  lemma {:induction false} AcceptedRunsAll(bs: seq<Builtin>, x: int)
    ensures AllFit(bs, x) ==> NoOverflow(bs, x)
    ensures Accepts(Summarize(bs), x) ==> (NoOverflow(bs, x) <==> AllFit(bs, x))
  {
    if bs != [] {
      ComposeMeans(Single(bs[0]), Summarize(bs[1..]), x);
      AcceptedRunsAll(bs[1..], Seen(Single(bs[0]), x));
    }
  }

  /**
   On inputs of the interval no executed Add overflows; on inputs that the summary accepts it is
   only they. An input that is refused may lie outside all the same.
   */
  lemma SafeRangeDecides(bs: seq<Builtin>, x: int)
    ensures Within(x, SafeRange(bs)) ==> NoOverflow(bs, x)
    ensures Accepts(Summarize(bs), x) ==> (NoOverflow(bs, x) <==> Within(x, SafeRange(bs)))
  {
    SafeRangeExact(bs, x);
    AcceptedRunsAll(bs, x);
  }

  // ---- the summary is what the chain does ----

  function BuiltinNodes<W>(bs: seq<Builtin>): (nodes: seq<Node<W>>)
    ensures |nodes| == |bs|
    ensures forall i :: 0 <= i < |bs| ==> nodes[i] == BuiltinNode(bs[i])
  {
    seq(|bs|, i requires 0 <= i < |bs| => BuiltinNode(bs[i]))
  }

  /** `Ctx` after the enters of an accepted run. */
  function AfterEnters(s: Summary, ctx: Ctx): Ctx {
    ctx.(input := Seen(s, ctx.input), traceId := if s.trace.Some? then s.trace else ctx.traceId)
  }

  lemma EnterSingle<W>(b: Builtin, clock: Clock, f: Frame<W>)
    requires f.ctx.deadline == None || !b.DeadlineCheck?
    requires b.Add? ==> IsI32(f.ctx.input + b.k)
    ensures Enter(BuiltinNode(b), clock, f)
         == if Accepts(Single(b), f.ctx.input)
            then (f.(ctx := AfterEnters(Single(b), f.ctx)), Ok(Continue))
            else (f, Err(Rejected("negative input")))
  {
  }

  lemma ThenEntered(a: Summary, b: Summary, ctx: Ctx)
    ensures AfterEnters(Compose(a, b), ctx) == AfterEnters(b, AfterEnters(a, ctx))
  {
  }

  /** The state and verdict the enters of a summarised chain must leave. */
  function EntersOutcome<W>(s: Summary, f: Frame<W>): (Frame<W>, Verdict<Fault>) {
    if Accepts(s, f.ctx.input) then (f.(ctx := AfterEnters(s, f.ctx)), Go)
    else (f, Stop(Error(Rejected("negative input"))))
  }

  lemma {:induction false} EntersSummary<W>(bs: seq<Builtin>, clock: Clock, f: Frame<W>)
    requires f.ctx.deadline == None || DeadlineCheck !in bs
    requires NoOverflow(bs, f.ctx.input)
    ensures EnterAll(BuiltinNodes<W>(bs), clock, f).1 == EntersOutcome(Summarize(bs), f).1
    ensures Accepts(Summarize(bs), f.ctx.input)
            ==> EnterAll(BuiltinNodes<W>(bs), clock, f).0 == EntersOutcome(Summarize(bs), f).0
  {
    if bs != [] {
      var nodes := BuiltinNodes<W>(bs);
      assert nodes[1..] == BuiltinNodes<W>(bs[1..]);
      var one, rest := Single(bs[0]), Summarize(bs[1..]);
      EnterSingle(bs[0], clock, f);
      ComposeMeans(one, rest, f.ctx.input);
      if Accepts(one, f.ctx.input) {
        ThenEntered(one, rest, f.ctx);
        EntersSummary(bs[1..], clock, f.(ctx := AfterEnters(one, f.ctx)));
      }
    }
  }

  lemma LastCap(front: seq<Builtin>, last: Builtin)
    ensures Summarize(front + [last]).outCap == MinOpt(Summarize(front).outCap, Single(last).outCap)
  {
    SummarizeAppend(front, [last]);
    assert Summarize([last]) == Compose(Single(last), Summarize([]));
  }

  lemma {:induction false} ExitsSummary<W>(bs: seq<Builtin>, f: Frame<W>)
    ensures ExitAll(BuiltinNodes<W>(bs), f)
         == f.(ctx := f.ctx.(output := Clamp(f.ctx.output, Summarize(bs).outCap)))
  {
    if bs != [] {
      var front, last := bs[..|bs| - 1], bs[|bs| - 1];
      assert bs == front + [last];
      LastCap(front, last);
      assert BuiltinNodes<W>(bs)[..|bs| - 1] == BuiltinNodes<W>(front);
      ExitsSummary(front, Exit(BuiltinNodes<W>(bs)[|bs| - 1], f));
    }
  }

  /**
   A chain of builtins of any length, around any core: on every input from which no Add that is
   run overflows it accepts iff x >= lo, shows the core min(x + shift, cap), and clamps the core's
   value by the least cap.
   */
  lemma BuiltinChainSummary<W>(bs: seq<Builtin>, core: Core, clock: Clock, w: W, x: int)
    requires NoOverflow(bs, x)
    ensures var s := Summarize(bs);
            var (ctx, out) := core(AfterEnters(s, NewCtx(x)));
            && Exec(BuiltinNodes<W>(bs), core, clock, Frame(NewCtx(x), w, 0)).1
            == (if !Accepts(s, x) then Err(Error(Rejected("negative input")))
             else if out.Err? then Err(out.error)
             else Ok(Clamp(out.value, s.outCap)))
  {
    var s, f := Summarize(bs), Frame(NewCtx(x), w, 0);
    EntersSummary(bs, clock, f);
    if Accepts(s, x) {
      var f1 := f.(ctx := AfterEnters(s, NewCtx(x)));
      assert EnterAll(BuiltinNodes<W>(bs), clock, f) == (f1, Go);
      var (ctx, out) := core(f1.ctx);
      if out.Ok? {
        ExitsSummary(bs, f1.(ctx := ctx.(output := out.value)));
      }
    }
  }

  // ---- deadlines ----

  function Checks(bs: seq<Builtin>): nat {
    if bs == [] then 0 else (if bs[0].DeadlineCheck? then 1 else 0) + Checks(bs[1..])
  }

  /** Stage i is a deadline check that the run reaches, and what it reads is the deadline or later. */
  predicate ExpiresAt(bs: seq<Builtin>, i: nat, clock: Clock, tick: nat, deadline: int, x: int) {
    && i < |bs| && bs[i].DeadlineCheck?
    && clock(tick + Checks(bs[..i])) >= deadline
    && Accepts(Summarize(bs[..i]), x)
  }

  ghost predicate Expires(bs: seq<Builtin>, clock: Clock, tick: nat, deadline: int, x: int) {
    exists i :: ExpiresAt(bs, i, clock, tick, deadline, x)
  }

  /** A later stage of the list is one place earlier in the rest, seen from behind the first stage. */
  lemma ExpiresLater(bs: seq<Builtin>, i: nat, clock: Clock, tick: nat, deadline: int, x: int)
    requires bs != []
    ensures ExpiresAt(bs, i + 1, clock, tick, deadline, x)
       <==> && Accepts(Single(bs[0]), x)
            && ExpiresAt(bs[1..], i, clock, tick + Checks([bs[0]]), deadline, Seen(Single(bs[0]), x))
  {
    if i + 1 < |bs| {
      assert bs[..i + 1][1..] == bs[1..][..i] && bs[..i + 1][0] == bs[0];
      ComposeMeans(Single(bs[0]), Summarize(bs[1..][..i]), x);
      assert Checks([bs[0]]) + Checks(bs[1..][..i]) == Checks(bs[..i + 1]);
    }
  }

  lemma ExpiresSplit(bs: seq<Builtin>, clock: Clock, tick: nat, deadline: int, x: int)
    requires bs != []
    ensures Expires(bs, clock, tick, deadline, x)
       <==> || (bs[0].DeadlineCheck? && clock(tick) >= deadline)
            || (&& Accepts(Single(bs[0]), x)
                && Expires(bs[1..], clock, tick + Checks([bs[0]]), deadline, Seen(Single(bs[0]), x)))
  {
    if bs[0].DeadlineCheck? && clock(tick) >= deadline {
      assert bs[..0] == [];
      assert ExpiresAt(bs, 0, clock, tick, deadline, x);
    }
    var rest, tick', x' := bs[1..], tick + Checks([bs[0]]), Seen(Single(bs[0]), x);
    if i: nat :| ExpiresAt(rest, i, clock, tick', deadline, x') {
      ExpiresLater(bs, i, clock, tick, deadline, x);
    }
    if i: nat :| ExpiresAt(bs, i, clock, tick, deadline, x) {
      if i > 0 {
        ExpiresLater(bs, i - 1, clock, tick, deadline, x);
      } else {
        assert bs[..0] == [];
      }
    }
  }

  /** One stage that is run on a context with a deadline. */
  lemma EnterTimed<W>(b: Builtin, clock: Clock, f: Frame<W>)
    requires f.ctx.deadline.Some?
    requires b.Add? ==> IsI32(f.ctx.input + b.k)
    ensures var late := b.DeadlineCheck? && clock(f.tick) >= f.ctx.deadline.value;
      Enter(BuiltinNode(b), clock, f)
      == (if late then (f.(tick := f.tick + 1), Err(Timeout))
          else if Accepts(Single(b), f.ctx.input)
          then (f.(ctx := AfterEnters(Single(b), f.ctx), tick := f.tick + Checks([b])), Ok(Continue))
          else (f, Err(Rejected("negative input"))))
  {
  }

  /**
   The enters of a builtin chain on a context with a deadline, under any clock: they time out exactly when a
   deadline check is reached at a reading that is the deadline or later, and otherwise do what the summary says,
   with one reading of the clock for each check.
   */
  lemma {:induction false} DeadlineDecides<W>(bs: seq<Builtin>, clock: Clock, f: Frame<W>)
    requires f.ctx.deadline.Some? && NoOverflow(bs, f.ctx.input)
    ensures var (t, v) := EnterAll(BuiltinNodes<W>(bs), clock, f);
      var x, s := f.ctx.input, Summarize(bs);
      if Expires(bs, clock, f.tick, f.ctx.deadline.value, x) then v == Stop(Error(Timeout))
      else
        && v == EntersOutcome(s, f).1
        && (Accepts(s, x) ==> t == f.(ctx := AfterEnters(s, f.ctx), tick := f.tick + Checks(bs)))
  {
    if bs != [] {
      var nodes := BuiltinNodes<W>(bs);
      assert nodes[1..] == BuiltinNodes<W>(bs[1..]);
      var one, rest, x := Single(bs[0]), Summarize(bs[1..]), f.ctx.input;
      EnterTimed(bs[0], clock, f);
      ComposeMeans(one, rest, x);
      ExpiresSplit(bs, clock, f.tick, f.ctx.deadline.value, x);
      if Accepts(one, x) {
        ThenEntered(one, rest, f.ctx);
        DeadlineDecides(bs[1..], clock, f.(ctx := AfterEnters(one, f.ctx), tick := f.tick + Checks([bs[0]])));
      }
    }
  }

  /** The clock does not run backwards. */
  ghost predicate Forward(clock: Clock) {
    forall i: nat, j: nat :: i <= j ==> clock(i) <= clock(j)
  }

  lemma {:induction false} LastCheck(bs: seq<Builtin>) returns (i: nat)
    requires Checks(bs) > 0
    ensures i < |bs| && bs[i].DeadlineCheck? && Checks(bs[..i]) == Checks(bs) - 1
    ensures forall j: nat :: j <= |bs| ==> Checks(bs[..j]) <= Checks(bs)
  {
    if Checks(bs[1..]) == 0 {
      i := 0;
      assert bs[..0] == [];
    } else {
      var k := LastCheck(bs[1..]);
      i := k + 1;
      assert bs[..i][1..] == bs[1..][..k];
    }
    forall j: nat | j <= |bs| ensures Checks(bs[..j]) <= Checks(bs) {
      ChecksPrefix(bs, j);
    }
  }

  lemma {:induction false} ChecksPrefix(bs: seq<Builtin>, j: nat)
    requires j <= |bs|
    ensures Checks(bs[..j]) + Checks(bs[j..]) == Checks(bs)
    decreases j
  {
    if j == 0 {
      assert bs[..0] == [] && bs[0..] == bs;
    } else {
      assert bs[..j][1..] == bs[1..][..j - 1] && bs[j..] == bs[1..][j - 1..];
      ChecksPrefix(bs[1..], j - 1);
    }
  }

  /**
   A whole run from such a context, if the chain accepts the input and the clock does not run backwards: it times
   out exactly when the last reading is the deadline or later, and otherwise gives the core's value as usual.
   */
  lemma DeadlineChainSummary<W>(bs: seq<Builtin>, core: Core, clock: Clock, f: Frame<W>)
    requires f.ctx.deadline.Some? && NoOverflow(bs, f.ctx.input)
    requires Accepts(Summarize(bs), f.ctx.input) && Forward(clock)
    ensures var s := Summarize(bs);
      var (ctx, out) := core(AfterEnters(s, f.ctx));
      Exec(BuiltinNodes<W>(bs), core, clock, f).1
      == (if Checks(bs) > 0 && clock(f.tick + Checks(bs) - 1) >= f.ctx.deadline.value then Err(Error(Timeout))
          else if out.Err? then Err(out.error)
          else Ok(Clamp(out.value, s.outCap)))
  {
    var s, x, deadline := Summarize(bs), f.ctx.input, f.ctx.deadline.value;
    DeadlineDecides(bs, clock, f);
    LastReadingDecides(bs, clock, f.tick, deadline, x);
    if !Expires(bs, clock, f.tick, deadline, x) {
      var f1 := f.(ctx := AfterEnters(s, f.ctx), tick := f.tick + Checks(bs));
      var (ctx, out) := core(f1.ctx);
      if out.Ok? {
        ExitsSummary(bs, f1.(ctx := ctx.(output := out.value)));
      }
    }
  }

  lemma LastReadingDecides(bs: seq<Builtin>, clock: Clock, tick: nat, deadline: int, x: int)
    requires Accepts(Summarize(bs), x) && Forward(clock)
    ensures Expires(bs, clock, tick, deadline, x) <==> Checks(bs) > 0 && clock(tick + Checks(bs) - 1) >= deadline
  {
    if Checks(bs) > 0 {
      var i := LastCheck(bs);
      AcceptsPrefix(bs, i, x);
      if clock(tick + Checks(bs) - 1) >= deadline {
        assert ExpiresAt(bs, i, clock, tick, deadline, x);
      }
    }
    if i: nat :| ExpiresAt(bs, i, clock, tick, deadline, x) {
      ChecksPrefix(bs, i);
      assert bs[i..][0] == bs[i];
      assert tick + Checks(bs[..i]) <= tick + Checks(bs) - 1;
    }
  }

  lemma AcceptsPrefix(bs: seq<Builtin>, i: nat, x: int)
    requires i <= |bs| && Accepts(Summarize(bs), x)
    ensures Accepts(Summarize(bs[..i]), x)
  {
    assert bs == bs[..i] + bs[i..];
    SummarizeAppend(bs[..i], bs[i..]);
    ComposeMeans(Summarize(bs[..i]), Summarize(bs[i..]), x);
  }

  /** Where an Add that is run overflows, it wraps: one stage is enough to see the summary fail there. */
  lemma OverflowBreaksSummary(clock: Clock)
    ensures var bs := [Add(1)];
            && !NoOverflow(bs, I32_MAX)
            && EnterAll(BuiltinNodes<()>(bs), clock, Frame(NewCtx(I32_MAX), (), 0)).0.ctx.input == I32_MIN
            && Seen(Summarize(bs), I32_MAX) == I32_MAX + 1
  {
    var nodes := BuiltinNodes<()>([Add(1)]);
    assert nodes[1..] == [];
    assert Wrap32(I32_MAX + 1) == I32_MIN;
  }
}
