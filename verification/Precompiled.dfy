/**
 A precompiled chain is the straight-line expansion of `compose_chain!`. It enters in order like
 the dynamic chain, but also exits in order, while the dynamic chain exits in reverse.
 */
module Precompiled {
  import opened Wrappers
  import opened Dispatch
  import opened Onion

  /** The second repetition of the macro: exits from the front to the back. */
  function ExitForward<W>(nodes: seq<Node<W>>, f: Frame<W>): Frame<W> {
    if nodes == [] then f else ExitForward(nodes[1..], Exit(nodes[0], f))
  }

  function ExecForward<W>(nodes: seq<Node<W>>, core: Core, clock: Clock, f: Frame<W>): (Frame<W>, Result<int, Fault>) {
    var (f1, v1) := EnterAll(nodes, clock, f);
    if v1.Stop? then (f1, Err(v1.error))
    else
      var (f2, v2) := RunCore(core, f1);
      if v2.Stop? then (f2, Err(v2.error))
      else
        var f3 := ExitForward(nodes, f2);
        (f3, Ok(f3.ctx.output))
  }

  /** The expansion for a chain of `nodes`; each loop stands for one `$( .. )*`. */
  method Expansion<W>(nodes: seq<Node<W>>, core: Core, clock: Clock, x: int, shared: W)
    returns (r: Result<int, Fault>, ghost end: Frame<W>)
    ensures r == ExecForward(nodes, core, clock, Frame(NewCtx(x), shared, 0)).1
    ensures end == ExecForward(nodes, core, clock, Frame(NewCtx(x), shared, 0)).0
  {
    ghost var f0 := Frame(NewCtx(x), shared, 0);
    var ctx := new CtxCell(NewCtx(x));
    var w, tick := shared, 0;
    assert nodes[0..] == nodes;
    for i := 0 to |nodes|
      invariant EnterAll(nodes[i..], clock, Frame(ctx.Value(), w, tick)) == EnterAll(nodes, clock, f0)
    {
      assert nodes[i..][0] == nodes[i] && nodes[i..][1..] == nodes[i + 1..];
      var flow;
      w, tick, flow := EnterNode(nodes[i], clock, ctx, w, tick);
      if flow == Ok(Break) {
        end := Frame(ctx.Value(), w, tick);
        return Err(Error(Halted)), end;
      }
      if flow.Err? {
        end := Frame(ctx.Value(), w, tick);
        return Err(Error(flow.error)), end;
      }
    }
    ghost var f1 := Frame(ctx.Value(), w, tick);
    var out := core(ctx.Value());
    ctx.Assign(out.0);
    if out.1.Err? {
      end := Frame(ctx.Value(), w, tick);
      return Err(out.1.error), end;
    }
    ctx.output := out.1.value;
    ghost var f2 := Frame(ctx.Value(), w, tick);
    assert RunCore(core, f1) == (f2, Go);
    for i := 0 to |nodes|
      invariant ExitForward(nodes[i..], Frame(ctx.Value(), w, tick)) == ExitForward(nodes, f2)
    {
      assert nodes[i..][0] == nodes[i] && nodes[i..][1..] == nodes[i + 1..];
      w := ExitNode(nodes[i], ctx, w, tick);
    }
    end := Frame(ctx.Value(), w, tick);
    r := Ok(ctx.output);
  }

  ghost predicate Commute<W(!new)>(m: Node<W>, n: Node<W>) {
    forall f: Frame<W> :: Exit(m, Exit(n, f)) == Exit(n, Exit(m, f))
  }

  ghost predicate PairwiseCommute<W(!new)>(nodes: seq<Node<W>>) {
    forall i, j :: 0 <= i < |nodes| && 0 <= j < |nodes| ==> Commute(nodes[i], nodes[j])
  }

  /** An exit that commutes with every later one can be moved behind them all. */
  lemma {:induction false} MovePastAll<W(!new)>(n: Node<W>, nodes: seq<Node<W>>, f: Frame<W>)
    requires forall i :: 0 <= i < |nodes| ==> Commute(n, nodes[i])
    ensures ExitForward(nodes, Exit(n, f)) == Exit(n, ExitForward(nodes, f))
  {
    if nodes != [] {
      assert Commute(n, nodes[0]);
      MovePastAll(n, nodes[1..], Exit(nodes[0], f));
    }
  }

  lemma {:induction false} ForwardSnoc<W>(nodes: seq<Node<W>>, n: Node<W>, f: Frame<W>)
    ensures ExitForward(nodes + [n], f) == Exit(n, ExitForward(nodes, f))
  {
    if nodes == [] {
      assert nodes + [n] == [n];
    } else {
      assert (nodes + [n])[1..] == nodes[1..] + [n];
      ForwardSnoc(nodes[1..], n, Exit(nodes[0], f));
    }
  }

  lemma {:induction false} CommutingExitsAgree<W(!new)>(nodes: seq<Node<W>>, f: Frame<W>)
    requires PairwiseCommute(nodes)
    ensures ExitForward(nodes, f) == ExitAll(nodes, f)
  {
    if nodes != [] {
      var front, last := nodes[..|nodes| - 1], nodes[|nodes| - 1];
      assert nodes == front + [last];
      assert forall i :: 0 <= i < |front| ==> front[i] == nodes[i];
      ForwardSnoc(front, last, f);
      MovePastAll(last, front, f);
      CommutingExitsAgree(front, Exit(last, f));
    }
  }

  /** Exits that commute pairwise: the two executors agree on every input, core and error. */
  lemma PrecompiledAgrees<W(!new)>(nodes: seq<Node<W>>, core: Core, clock: Clock, f: Frame<W>)
    requires PairwiseCommute(nodes)
    ensures ExecForward(nodes, core, clock, f) == Exec(nodes, core, clock, f)
  {
    var (f1, v1) := EnterAll(nodes, clock, f);
    CommutingExitsAgree(nodes, RunCore(core, f1).0);
  }

  /** Every chain that can be put together from the given stages. */
  ghost predicate DrawnFrom<W>(chain: seq<Node<W>>, stages: seq<Node<W>>) {
    forall n :: n in chain ==> n in stages
  }

  ghost predicate OrderIsIrrelevant<W(!new)>(stages: seq<Node<W>>) {
    forall chain, f :: DrawnFrom(chain, stages) ==> ExitForward(chain, f) == ExitAll(chain, f)
  }

  /**
   Exactly when precompiling is safe: forward and reverse exits agree for every chain drawn from a
   set of stages iff the exits of those stages commute pairwise.
   */
  lemma OrderIrrelevantIffCommute<W(!new)>(stages: seq<Node<W>>)
    ensures OrderIsIrrelevant(stages) <==> PairwiseCommute(stages)
  {
    if PairwiseCommute(stages) {
      forall chain, f | DrawnFrom(chain, stages) ensures ExitForward(chain, f) == ExitAll(chain, f) {
        forall i, j | 0 <= i < |chain| && 0 <= j < |chain| ensures Commute(chain[i], chain[j]) {
          assert chain[i] in stages && chain[j] in stages;
        }
        CommutingExitsAgree(chain, f);
      }
    }
    if OrderIsIrrelevant(stages) {
      forall i, j | 0 <= i < |stages| && 0 <= j < |stages| ensures Commute(stages[i], stages[j]) {
        forall f: Frame<W> ensures Exit(stages[i], Exit(stages[j], f)) == Exit(stages[j], Exit(stages[i], f)) {
          TwoStages(stages[i], stages[j], f);
          assert DrawnFrom([stages[i], stages[j]], stages);
        }
      }
    }
  }

  lemma TwoStages<W>(m: Node<W>, n: Node<W>, f: Frame<W>)
    ensures ExitForward([m, n], f) == Exit(n, Exit(m, f))
    ensures ExitAll([m, n], f) == Exit(m, Exit(n, f))
  {
    assert [m, n][1..] == [n] && [m, n][..1] == [m];
    assert ExitForward([n], Exit(m, f)) == Exit(n, Exit(m, f));
    assert ExitAll([m], Exit(n, f)) == Exit(m, Exit(n, f));
  }

  predicate AllBuiltin<W>(nodes: seq<Node<W>>) {
    forall i :: 0 <= i < |nodes| ==> nodes[i].BuiltinNode?
  }

  /** In particular any list of builtin stages (Add and Cap among them) may be precompiled. */
  lemma BuiltinsAgree<W(!new)>(nodes: seq<Node<W>>, core: Core, clock: Clock, f: Frame<W>)
    requires AllBuiltin(nodes)
    ensures ExecForward(nodes, core, clock, f) == Exec(nodes, core, clock, f)
  {
    forall i, j | 0 <= i < |nodes| && 0 <= j < |nodes| ensures Commute(nodes[i], nodes[j]) {
    }
    PrecompiledAgrees(nodes, core, clock, f);
  }

  /** The claim without the condition is false: a doubling exit and a clamping one do not commute. */
  lemma PrecompiledMayDiffer(clock: Clock)
    ensures var nodes: seq<Node<()>> :=
              [Extern((i, o) => (i, o, 0), Some(o => o * 2)), BuiltinNode(Cap(10))];
            var core: Core := ctx => (ctx, Ok(8));
            var f := Frame(NewCtx(1), (), 0);
            && Exec(nodes, core, clock, f).1 == Ok(16)
            && ExecForward(nodes, core, clock, f).1 == Ok(10)
  {
    var m: Node<()> := Extern((i, o) => (i, o, 0), Some(o => o * 2));
    var n: Node<()> := BuiltinNode(Cap(10));
    var f := Frame(NewCtx(1), (), 0);
    assert [m, n][1..] == [n] && [n][1..] == [];
    assert EnterAll([n], clock, f) == (f, Go);
    TwoStages(m, n, Frame(Ctx(1, 8, None, None), (), 0));
  }
}
