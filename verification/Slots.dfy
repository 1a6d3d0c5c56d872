/**
 The open slots of the i32 chain: what plain functions, plugins and stateful middleware contribute to a run, and a
 chain guarded by the rate limiter.
 */
module Slots {
  import opened Wrappers
  import opened Timeline
  import opened Dispatch
  import opened Onion
  import R = RateLimit

  // ---- one node around a core ----

  lemma OneNode<W>(n: Node<W>, core: Core, clock: Clock, f: Frame<W>)
    ensures Exec([n], core, clock, f)
         == var (f1, r) := Enter(n, clock, f);
            if ToVerdict(r).Stop? then (f1, Err(ToVerdict(r).error))
            else
              var (f2, v) := RunCore(core, f1);
              if v.Stop? then (f2, Err(v.error)) else (Exit(n, f2), Ok(Exit(n, f2).ctx.output))
  {
    var f1 := Enter(n, clock, f).0;
    assert [n][1..] == [] && [n][..0] == [];
    assert EnterAll([n][1..], clock, f1) == (f1, Go);
    var f2 := RunCore(core, f1).0;
    assert ExitAll([n], f2) == ExitAll([n][..0], Exit(n, f2)) == Exit(n, f2);
  }

  /** Without any node the core sees a fresh context: the input, output 0, no deadline and no trace id. */
  lemma FreshContext<W>(core: Core, clock: Clock, x: int, w: W)
    ensures Exec([], core, clock, Frame(NewCtx(x), w, 0)).1 == core(Ctx(x, 0, None, None)).1
  {
  }

  /** A plain function sees the context on the way in only. */
  lemma FnPtrAround<W>(g: Ctx -> (Ctx, Result<Flow, MwError>), core: Core, clock: Clock, f: Frame<W>)
    ensures var (ctx, r) := g(f.ctx);
      var (ctx', out) := core(ctx);
      Exec([FnPtr(g)], core, clock, f).1
      == if r == Ok(Continue) then out else Err(Error(if r.Err? then r.error else Halted))
  {
    OneNode(FnPtr(g), core, clock, f);
  }

  /** A plugin sees input and output on the way in, its code decides, and its exit sees the core's value. */
  lemma ExternAround<W>(
    g: (int, int) -> (int, int, int), exit: Option<int -> int>, core: Core, clock: Clock, f: Frame<W>)
    ensures var (input, output, code) := g(f.ctx.input, f.ctx.output);
      var out := core(f.ctx.(input := input, output := output)).1;
      var result := Exec([Extern(g, exit)], core, clock, f).1;
      && (code == 0 ==> result == if out.Err? || exit.None? then out else Ok((exit.value)(out.value)))
      && (code == 1 ==> result == Err(Error(Halted)))
      && (code != 0 && code != 1 ==> result == Err(Error(Rejected("plugin"))))
  {
    OneNode(Extern(g, exit), core, clock, f);
  }

  /** Stateful middleware sees context and shared state on both ways; what it leaves there is what is left. */
  lemma DynAround<W>(mw: Mw<W>, core: Core, clock: Clock, f: Frame<W>)
    ensures var (w1, ctx1, r) := mw.enter(f.shared, f.ctx);
      var (ctx2, out) := core(ctx1);
      var (end, result) := Exec([Dyn(mw)], core, clock, f);
      && (r == Ok(Continue) && out.Err? ==> result == Err(out.error) && end == Frame(ctx2, w1, f.tick))
      && (r == Ok(Continue) && out.Ok? ==>
            var (w3, ctx3) := mw.exit(w1, ctx2.(output := out.value));
            result == Ok(ctx3.output) && end == Frame(ctx3, w3, f.tick))
      && (r != Ok(Continue) ==>
            result == Err(Error(if r.Err? then r.error else Halted)) && end == Frame(ctx1, w1, f.tick))
  {
    OneNode(Dyn(mw), core, clock, f);
    var (w1, ctx1, r) := mw.enter(f.shared, f.ctx);
    var f1 := Enter(Dyn(mw), clock, f).0;
    assert f1 == Frame(ctx1, w1, f.tick);
    if r == Ok(Continue) && core(ctx1).1.Ok? {
      var f2 := Frame(core(ctx1).0.(output := core(ctx1).1.value), w1, f.tick);
      assert RunCore(core, f1) == (f2, Go);
      var (w3, ctx3) := mw.exit(w1, f2.ctx);
      assert Exit(Dyn(mw), f2) == Frame(ctx3, w3, f.tick);
    }
  }

  // ---- the rate limiter at the head of a chain ----

  /** The limiter as middleware that keeps its window in the shared state; `now` is what it reads. */
  function Limiter(limit: nat, length: int, now: int): Mw<R.Window> {
    Mw((w: R.Window, ctx: Ctx) =>
         var (w', ok) := R.Enter(w, limit, length, now);
         (w', ctx, if ok then Ok(Continue) else Err(Rejected("rate limited"))),
       (w, ctx) => (w, ctx))
  }

  /** Builtin stages and plain functions, plugins included: nodes without shared state. */
  predicate Stateless(nodes: seq<Node<R.Window>>) {
    forall i :: 0 <= i < |nodes| ==> !nodes[i].Dyn?
  }

  lemma {:induction false} EntersKeepShared(nodes: seq<Node<R.Window>>, clock: Clock, f: Frame<R.Window>)
    requires Stateless(nodes)
    ensures EnterAll(nodes, clock, f).0.shared == f.shared
  {
    if nodes != [] {
      EntersKeepShared(nodes[1..], clock, Enter(nodes[0], clock, f).0);
    }
  }

  lemma {:induction false} ExitsKeepShared(nodes: seq<Node<R.Window>>, f: Frame<R.Window>)
    requires Stateless(nodes)
    ensures ExitAll(nodes, f).shared == f.shared
  {
    if nodes != [] {
      ExitsKeepShared(nodes[..|nodes| - 1], Exit(nodes[|nodes| - 1], f));
    }
  }

  /** One call of a chain with the limiter in front: refused, or what the rest gives, the window moved on either way. */
  lemma GuardedCall(
    limit: nat, length: int, now: int, rest: seq<Node<R.Window>>, core: Core, clock: Clock, f: Frame<R.Window>)
    requires Stateless(rest)
    ensures var (w', ok) := R.Enter(f.shared, limit, length, now);
      var (end, result) := Exec([Dyn(Limiter(limit, length, now))] + rest, core, clock, f);
      && end.shared == w'
      && result == if ok then Exec(rest, core, clock, f.(shared := w')).1 else Err(Error(Rejected("rate limited")))
  {
    var head: Node<R.Window> := Dyn(Limiter(limit, length, now));
    var nodes := [head] + rest;
    var (w', ok) := R.Enter(f.shared, limit, length, now);
    var f1 := f.(shared := w');
    assert nodes[0] == head && nodes[1..] == rest;
    if ok {
      EntersKeepShared(rest, clock, f1);
      var f2 := RunCore(core, EnterAll(rest, clock, f1).0).0;
      HeadExitsLast(head, rest, f2);
      ExitsKeepShared(rest, f2);
    }
  }

  lemma {:induction false} HeadExitsLast(head: Node<R.Window>, rest: seq<Node<R.Window>>, f: Frame<R.Window>)
    requires head.Dyn? && forall w, ctx :: head.mw.exit(w, ctx) == (w, ctx)
    ensures ExitAll([head] + rest, f) == ExitAll(rest, f)
  {
    var nodes := [head] + rest;
    if rest == [] {
      assert nodes == [head] && nodes[..0] == [];
      assert ExitAll(nodes, f) == ExitAll(nodes[..0], Exit(head, f));
    } else {
      var n := |rest| - 1;
      assert nodes[..|nodes| - 1] == [head] + rest[..n] && nodes[|nodes| - 1] == rest[n];
      HeadExitsLast(head, rest[..n], Exit(rest[n], f));
    }
  }

  // ---- a sequence of calls ----

  /** A call at a time, with the input and the clock it runs under. */
  datatype Arrival = Arrival(at: int, x: int, clock: Clock)

  /** The results of the calls, one after the other through one guarded chain. */
  function Serve(
    limit: nat, length: int, rest: seq<Node<R.Window>>, core: Core, w: R.Window, calls: seq<Arrival>):
    (R.Window, seq<Result<int, Fault>>)
  {
    if calls == [] then (w, [])
    else
      var n := |calls| - 1;
      var (w', results) := Serve(limit, length, rest, core, w, calls[..n]);
      var (end, r) := Exec([Dyn(Limiter(limit, length, calls[n].at))] + rest, core, calls[n].clock,
                           Frame(NewCtx(calls[n].x), w', 0));
      (end.shared, results + [r])
  }

  function Ops(calls: seq<Arrival>): (ops: seq<R.Op>)
    ensures |ops| == |calls|
    ensures forall i :: 0 <= i < |calls| ==> ops[i] == R.Arrive(calls[i].at)
  {
    seq(|calls|, i requires 0 <= i < |calls| => R.Arrive(calls[i].at))
  }

  /** The times of the calls that were not refused by the limiter. */
  function Served(calls: seq<Arrival>, results: seq<Result<int, Fault>>): seq<int>
    requires |calls| == |results|
  {
    if calls == [] then []
    else
      var n := |calls| - 1;
      Served(calls[..n], results[..n])
      + (if results[n] == Err(Error(Rejected("rate limited"))) then [] else [calls[n].at])
  }

  /** What stands behind the limiter never gives the limiter's own error. */
  ghost predicate NeverLimits(rest: seq<Node<R.Window>>, core: Core) {
    forall clock: Clock, f: Frame<R.Window> :: Exec(rest, core, clock, f).1 != Err(Error(Rejected("rate limited")))
  }

  lemma {:induction false} ServeIsRun(
    created: int, limit: nat, length: int, rest: seq<Node<R.Window>>, core: Core, calls: seq<Arrival>)
    requires Stateless(rest) && NeverLimits(rest, core)
    ensures var (w, results) := Serve(limit, length, rest, core, R.Window(created, 0), calls);
      var (w', h) := R.Run(created, limit, length, Ops(calls));
      && w == w' && |results| == |calls|
      && Served(calls, results) == R.Admissions(h)
  {
    if calls != [] {
      var n := |calls| - 1;
      ServeIsRun(created, limit, length, rest, core, calls[..n]);
      assert Ops(calls)[..n] == Ops(calls[..n]);
      var (w, results) := Serve(limit, length, rest, core, R.Window(created, 0), calls[..n]);
      var h := R.Run(created, limit, length, Ops(calls[..n])).1;
      var f := Frame(NewCtx(calls[n].x), w, 0);
      GuardedCall(limit, length, calls[n].at, rest, core, calls[n].clock, f);
      var r := Exec([Dyn(Limiter(limit, length, calls[n].at))] + rest, core, calls[n].clock, f).1;
      assert (results + [r])[..n] == results;
      var rec := R.Step(w, limit, length, R.Arrive(calls[n].at)).1;
      assert (h + [rec])[..|h|] == h;
    }
  }

  /**
   However often a chain with the limiter in front is called, at most (k + 1) * limit calls of any k windows get
   past the limiter.
   */
  lemma GuardedCallsAreRare(
    created: int, limit: nat, length: int, rest: seq<Node<R.Window>>, core: Core, calls: seq<Arrival>,
    from: int, k: nat)
    requires Stateless(rest) && NeverLimits(rest, core)
    requires R.InOrder(created, Ops(calls)) && length >= 0 && k > 0
    ensures var results := Serve(limit, length, rest, core, R.Window(created, 0), calls).1;
      |results| == |calls| && Count(Served(calls, results), from, from + k * length) <= (k + 1) * limit
  {
    ServeIsRun(created, limit, length, rest, core, calls);
    R.AdmissionsAreRare(created, limit, length, Ops(calls), from, k);
  }

  lemma {:induction false} BuiltinsNeverLimit(nodes: seq<Node<R.Window>>, clock: Clock, f: Frame<R.Window>)
    requires forall i :: 0 <= i < |nodes| ==> nodes[i].BuiltinNode?
    ensures EnterAll(nodes, clock, f).1 != Stop(Error(Rejected("rate limited")))
  {
    if nodes != [] {
      BuiltinsNeverLimit(nodes[1..], clock, Enter(nodes[0], clock, f).0);
    }
  }

  /** Builtin stages around a core without that error are such nodes. */
  lemma BuiltinsMayFollow(nodes: seq<Node<R.Window>>, core: Core)
    requires forall i :: 0 <= i < |nodes| ==> nodes[i].BuiltinNode?
    requires forall ctx :: core(ctx).1 != Err(Error(Rejected("rate limited")))
    ensures Stateless(nodes) && NeverLimits(nodes, core)
  {
    forall clock: Clock, f: Frame<R.Window>
      ensures Exec(nodes, core, clock, f).1 != Err(Error(Rejected("rate limited")))
    {
      BuiltinsNeverLimit(nodes, clock, f);
    }
  }
}
