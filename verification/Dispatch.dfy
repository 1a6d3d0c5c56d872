/**
 The i32 chain: contexts, nodes in four slots, and the onion executor over them.

 A run sees a `Frame`: the context, the middlewares' shared state and how many times the clock was
 read. The code of an open node is a function on these values; the executor that applies it
 changes a `CtxCell` in place, as the source changes its `&mut Ctx`.
 */
module Dispatch {
  import opened Integers
  import opened Wrappers
  import opened Onion

  datatype Ctx = Ctx(input: int, output: int, deadline: Option<int>, traceId: Option<int>)

  function NewCtx(input: int): Ctx {
    Ctx(input, 0, None, None)
  }

  datatype Flow = Continue | Break
  datatype MwError = Halted | Rejected(why: string) | Timeout

  /** What can end a run early: an error value, or a panic of the core unwinding through it. */
  datatype Fault = Error(error: MwError) | Panic

  datatype Builtin =
    | Add(k: int)
    | Cap(n: int)
    | RejectNegative
    | DeadlineCheck
    | TraceInit(id: int)

  /** Open, stateful middleware over shared state `W`. */
  datatype Mw<!W> = Mw(
    enter: (W, Ctx) -> (W, Ctx, Result<Flow, MwError>),
    exit: (W, Ctx) -> (W, Ctx))

  datatype Node<!W> =
    | BuiltinNode(b: Builtin)
    | FnPtr(f: Ctx -> (Ctx, Result<Flow, MwError>))
    | Extern(externEnter: (int, int) -> (int, int, int), externExit: Option<int -> int>)
    | Dyn(mw: Mw<W>)

  datatype Frame<+W> = Frame(ctx: Ctx, shared: W, tick: nat)

  type Clock = nat -> int
  type Core = Ctx -> (Ctx, Result<int, Fault>)

  function EnterBuiltin(b: Builtin, ctx: Ctx, now: int): (Ctx, Result<Flow, MwError>) {
    match b
    case Add(k) => (ctx.(input := Wrap32(ctx.input + k)), Ok(Continue))
    case Cap(n) => (if ctx.input > n then ctx.(input := n) else ctx, Ok(Continue))
    case RejectNegative =>
      (ctx, if ctx.input < 0 then Err(Rejected("negative input")) else Ok(Continue))
    case DeadlineCheck =>
      (ctx, if ctx.deadline.Some? && now >= ctx.deadline.value then Err(Timeout) else Ok(Continue))
    case TraceInit(id) => (ctx.(traceId := Some(id)), Ok(Continue))
  }

  /** The clock is read only by a deadline check on a context that has a deadline. */
  predicate ReadsClock<W>(n: Node<W>, ctx: Ctx) {
    n.BuiltinNode? && n.b.DeadlineCheck? && ctx.deadline.Some?
  }

  function Enter<W>(n: Node<W>, clock: Clock, f: Frame<W>): (Frame<W>, Result<Flow, MwError>) {
    match n
    case BuiltinNode(b) =>
      var (ctx, r) := EnterBuiltin(b, f.ctx, clock(f.tick));
      (Frame(ctx, f.shared, if ReadsClock(n, f.ctx) then f.tick + 1 else f.tick), r)
    case FnPtr(g) =>
      var (ctx, r) := g(f.ctx);
      (f.(ctx := ctx), r)
    case Extern(g, _) =>
      var (input, output, code) := g(f.ctx.input, f.ctx.output);
      (f.(ctx := f.ctx.(input := input, output := output)),
       if code == 0 then Ok(Continue) else if code == 1 then Ok(Break) else Err(Rejected("plugin")))
    case Dyn(mw) =>
      var (shared, ctx, r) := mw.enter(f.shared, f.ctx);
      (f.(ctx := ctx, shared := shared), r)
  }

  function ExitBuiltin(b: Builtin, ctx: Ctx): Ctx {
    match b
    case Cap(n) => if ctx.output > n then ctx.(output := n) else ctx
    case _ => ctx
  }

  function Exit<W>(n: Node<W>, f: Frame<W>): Frame<W> {
    match n
    case BuiltinNode(b) => f.(ctx := ExitBuiltin(b, f.ctx))
    case FnPtr(_) => f
    case Extern(_, g) =>
      if g.Some? then f.(ctx := f.ctx.(output := (g.value)(f.ctx.output))) else f
    case Dyn(mw) =>
      var (shared, ctx) := mw.exit(f.shared, f.ctx);
      f.(ctx := ctx, shared := shared)
  }

  /** `?` on an enter, and Break turned into Halted. */
  function ToVerdict(r: Result<Flow, MwError>): Verdict<Fault> {
    match r
    case Err(e) => Stop(Error(e))
    case Ok(Break) => Stop(Error(Halted))
    case Ok(Continue) => Go
  }

  function EnterAll<W>(nodes: seq<Node<W>>, clock: Clock, f: Frame<W>): (Frame<W>, Verdict<Fault>) {
    if nodes == [] then (f, Go)
    else
      var (f', r) := Enter(nodes[0], clock, f);
      if ToVerdict(r).Stop? then (f', ToVerdict(r)) else EnterAll(nodes[1..], clock, f')
  }

  function ExitAll<W>(nodes: seq<Node<W>>, f: Frame<W>): Frame<W> {
    if nodes == [] then f else ExitAll(nodes[..|nodes| - 1], Exit(nodes[|nodes| - 1], f))
  }

  /** The core runs on the context and its value becomes the context's output. */
  function RunCore<W>(core: Core, f: Frame<W>): (Frame<W>, Verdict<Fault>) {
    var (ctx, r) := core(f.ctx);
    match r
    case Err(e) => (f.(ctx := ctx), Stop(e))
    case Ok(v) => (f.(ctx := ctx.(output := v)), Go)
  }

  function Exec<W>(nodes: seq<Node<W>>, core: Core, clock: Clock, f: Frame<W>): (Frame<W>, Result<int, Fault>) {
    var (f1, v1) := EnterAll(nodes, clock, f);
    if v1.Stop? then (f1, Err(v1.error))
    else
      var (f2, v2) := RunCore(core, f1);
      if v2.Stop? then (f2, Err(v2.error))
      else
        var f3 := ExitAll(nodes, f2);
        (f3, Ok(f3.ctx.output))
  }

  // ---- the executor as the source writes it ----

  class CtxCell {
    var input: int
    var output: int
    var deadline: Option<int>
    var traceId: Option<int>

    constructor (ctx: Ctx)
      ensures Value() == ctx
    {
      input, output, deadline, traceId := ctx.input, ctx.output, ctx.deadline, ctx.traceId;
    }

    function Value(): Ctx
      reads this
    {
      Ctx(input, output, deadline, traceId)
    }

    /** What code outside the crate may do to a `&mut Ctx` it is handed. */
    method Assign(ctx: Ctx)
      modifies this
      ensures Value() == ctx
    {
      input, output, deadline, traceId := ctx.input, ctx.output, ctx.deadline, ctx.traceId;
    }
  }

  method EnterNode<W>(n: Node<W>, clock: Clock, ctx: CtxCell, shared: W, tick: nat)
    returns (shared': W, tick': nat, r: Result<Flow, MwError>)
    modifies ctx
    ensures (Frame(ctx.Value(), shared', tick'), r) == Enter(n, clock, old(Frame(ctx.Value(), shared, tick)))
  {
    shared', tick', r := shared, tick, Ok(Continue);
    match n
    case BuiltinNode(b) =>
      match b {
        case Add(k) => ctx.input := Wrap32(ctx.input + k);
        case Cap(m) =>
          if ctx.input > m {
            ctx.input := m;
          }
        case RejectNegative =>
          if ctx.input < 0 {
            r := Err(Rejected("negative input"));
          }
        case DeadlineCheck =>
          if ctx.deadline.Some? {
            var now := clock(tick);
            tick' := tick + 1;
            if now >= ctx.deadline.value {
              r := Err(Timeout);
            }
          }
        case TraceInit(id) => ctx.traceId := Some(id);
      }
    case FnPtr(f) =>
      var out := f(ctx.Value());
      ctx.Assign(out.0);
      r := out.1;
    case Extern(f, _) =>
      var out := f(ctx.input, ctx.output);
      ctx.input, ctx.output := out.0, out.1;
      r := if out.2 == 0 then Ok(Continue) else if out.2 == 1 then Ok(Break) else Err(Rejected("plugin"));
    case Dyn(mw) =>
      var out := mw.enter(shared, ctx.Value());
      shared' := out.0;
      ctx.Assign(out.1);
      r := out.2;
  }

  method ExitNode<W>(n: Node<W>, ctx: CtxCell, shared: W, ghost tick: nat) returns (shared': W)
    modifies ctx
    ensures Frame(ctx.Value(), shared', tick) == Exit(n, old(Frame(ctx.Value(), shared, tick)))
  {
    shared' := shared;
    match n
    case BuiltinNode(b) =>
      if b.Cap? && ctx.output > b.n {
        ctx.output := b.n;
      }
    case FnPtr(_) =>
    case Extern(_, f) =>
      if f.Some? {
        ctx.output := (f.value)(ctx.output);
      }
    case Dyn(mw) =>
      var out := mw.exit(shared, ctx.Value());
      shared' := out.0;
      ctx.Assign(out.1);
  }

  /** `chain_exec_ctx`: the two loops, with early return. */
  method ChainExecCtx<W>(nodes: seq<Node<W>>, core: Core, clock: Clock, start: Ctx, shared: W)
    returns (r: Result<int, Fault>, ghost end: Frame<W>)
    ensures r == Exec(nodes, core, clock, Frame(start, shared, 0)).1
    ensures end == Exec(nodes, core, clock, Frame(start, shared, 0)).0
  {
    ghost var f0 := Frame(start, shared, 0);
    var ctx := new CtxCell(start);
    var w, tick := shared, 0;
    assert nodes[0..] == nodes;
    for i := 0 to |nodes|
      invariant EnterAll(nodes[i..], clock, Frame(ctx.Value(), w, tick)) == EnterAll(nodes, clock, f0)
    {
      assert nodes[i..][0] == nodes[i] && nodes[i..][1..] == nodes[i + 1..];
      var flow;
      w, tick, flow := EnterNode(nodes[i], clock, ctx, w, tick);
      if flow.Err? {
        end := Frame(ctx.Value(), w, tick);
        return Err(Error(flow.error)), end;
      }
      if flow.value == Break {
        end := Frame(ctx.Value(), w, tick);
        return Err(Error(Halted)), end;
      }
    }
    ghost var f1 := Frame(ctx.Value(), w, tick);
    var out := core(ctx.Value());
    ctx.Assign(out.0);
    if out.1.Err? {
      end := Frame(ctx.Value(), w, tick);
      return Err(out.1.error), end;
    }
    ctx.output := out.1.value;
    ghost var f2 := Frame(ctx.Value(), w, tick);
    assert RunCore(core, f1) == (f2, Go);
    assert nodes[..|nodes|] == nodes;
    for i := |nodes| downto 0
      invariant ExitAll(nodes[..i], Frame(ctx.Value(), w, tick)) == ExitAll(nodes, f2)
    {
      assert nodes[..i + 1][..i] == nodes[..i];
      w := ExitNode(nodes[i], ctx, w, tick);
    }
    end := Frame(ctx.Value(), w, tick);
    r := Ok(ctx.output);
  }

  // ---- this executor is the onion ----

  function HookOf<W>(n: Node<W>, clock: Clock): Hook<Frame<W>, Fault> {
    Hook((f: Frame<W>) => var (f', r) := Enter(n, clock, f); (f', ToVerdict(r)),
         (f: Frame<W>) => Exit(n, f))
  }

  function Hooks<W>(nodes: seq<Node<W>>, clock: Clock): (hooks: seq<Hook<Frame<W>, Fault>>)
    ensures |hooks| == |nodes|
    ensures forall i :: 0 <= i < |nodes| ==> hooks[i] == HookOf(nodes[i], clock)
  {
    if nodes == [] then [] else [HookOf(nodes[0], clock)] + Hooks(nodes[1..], clock)
  }

  lemma {:induction false} HooksAppend<W>(a: seq<Node<W>>, b: seq<Node<W>>, clock: Clock)
    ensures Hooks(a + b, clock) == Hooks(a, clock) + Hooks(b, clock)
  {
    if a == [] {
      assert a + b == b;
    } else {
      assert (a + b)[1..] == a[1..] + b;
      HooksAppend(a[1..], b, clock);
    }
  }

  lemma {:induction false} EnterAllIsEnters<W>(nodes: seq<Node<W>>, clock: Clock, f: Frame<W>)
    ensures EnterAll(nodes, clock, f) == Enters(Hooks(nodes, clock), f)
  {
    if nodes != [] {
      assert Hooks(nodes, clock)[1..] == Hooks(nodes[1..], clock);
      EnterAllIsEnters(nodes[1..], clock, Enter(nodes[0], clock, f).0);
    }
  }

  /** Peeling the last hook off the exits. */
  lemma LastExit<W>(nodes: seq<Node<W>>, clock: Clock, f: Frame<W>)
    requires nodes != []
    ensures Exits(Hooks(nodes, clock), f)
         == Exits(Hooks(nodes[..|nodes| - 1], clock), Exit(nodes[|nodes| - 1], f))
  {
    var front, last := nodes[..|nodes| - 1], nodes[|nodes| - 1];
    assert nodes == front + [last];
    HooksAppend(front, [last], clock);
    var hooks := Hooks(front, clock) + Hooks([last], clock);
    assert hooks[..|hooks| - 1] == Hooks(front, clock);
    assert hooks[|hooks| - 1].exit(f) == Exit(last, f);
  }

  lemma {:induction false} ExitAllIsExits<W>(nodes: seq<Node<W>>, clock: Clock, f: Frame<W>)
    ensures ExitAll(nodes, f) == Exits(Hooks(nodes, clock), f)
  {
    if nodes != [] {
      LastExit(nodes, clock, f);
      ExitAllIsExits(nodes[..|nodes| - 1], clock, Exit(nodes[|nodes| - 1], f));
    }
  }

  /** The executor run as the generic onion, so every law of `Onion` holds of it. */
  lemma ExecIsOnion<W>(nodes: seq<Node<W>>, core: Core, clock: Clock, f: Frame<W>)
    ensures var (f', v) := Run(Hooks(nodes, clock), g => RunCore(core, g), f);
            Exec(nodes, core, clock, f) == (f', if v.Stop? then Err(v.error) else Ok(f'.ctx.output))
  {
    EnterAllIsEnters(nodes, clock, f);
    ExitAllIsExits(nodes, clock, RunCore(core, EnterAll(nodes, clock, f).0).0);
  }

  /** A chain `a + b` around a core is `a` around "`b` around the core", contexts threaded. */
  lemma ChainAppend<W(!new)>(a: seq<Node<W>>, b: seq<Node<W>>, core: Core, clock: Clock, f: Frame<W>)
    ensures Run(Hooks(a + b, clock), g => RunCore(core, g), f)
         == Run(Hooks(a, clock), t => Run(Hooks(b, clock), g => RunCore(core, g), t), f)
  {
    HooksAppend(a, b, clock);
    RunAppend(Hooks(a, clock), Hooks(b, clock), g => RunCore(core, g), f);
  }

  /**
   Enters in order, the core, exits in exactly reverse order; no exit at all when an enter stops
   the run or the core fails.
   */
  lemma ChainTrace<W>(nodes: seq<Node<W>>, core: Core, clock: Clock, f: Frame<W>)
    ensures var (p, v) := Run(Logged(Hooks(nodes, clock), 0), LoggedCore(g => RunCore(core, g)), Log(f, []));
            && p.state == Exec(nodes, core, clock, f).0
            && LegalLog(p.events, 0, |nodes|, Exec(nodes, core, clock, f).1.Ok?)
  {
    ExecIsOnion(nodes, core, clock, f);
    TraceLaw(Hooks(nodes, clock), g => RunCore(core, g), f);
  }
}
