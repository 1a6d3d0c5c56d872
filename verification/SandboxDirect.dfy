/** The direct call that the text protocol is measured against is the i32 executor on the plugin's node. */
module SandboxDirect {
  import opened Integers
  import opened Wrappers
  import opened SandboxText
  import D = Dispatch

  /** The plugin in its slot of a chain. */
  function NodeOf(plugin: Plugin): D.Node<()> {
    D.Extern((i, o) => if IsI32(i) then (plugin.call(i).0, o, plugin.call(i).1) else (i, o, CONTINUE),
             if plugin.leave.None? then None else Some(o => if IsI32(o) then (plugin.leave.value)(o) else o))
  }

  function InChain(r: Result<int, D.Fault>): Result<int, TextError> {
    match r
    case Ok(v) => Ok(v)
    case Err(Error(Halted)) => Err(Halted)
    case Err(_) => Err(PluginFailed)
  }

  /** The exits of a chain of this one node. */
  lemma OneExit(plugin: Plugin, f: D.Frame<()>)
    requires IsI32(f.ctx.output)
    ensures D.ExitAll([NodeOf(plugin)], f) == f.(ctx := f.ctx.(output := plugin.Leave(f.ctx.output)))
  {
    var nodes := [NodeOf(plugin)];
    assert nodes[..0] == [];
    var f' := D.Exit(nodes[0], f);
    assert D.ExitAll(nodes, f) == D.ExitAll(nodes[..0], f') == f';
  }

  /** That is indeed what the executor of the i32 chain makes of it, around a core that returns its input. */
  lemma DirectIsChain(plugin: Plugin, input: i32, clock: D.Clock)
    ensures var core := (ctx: D.Ctx) => (ctx, Ok(ctx.input));
      InChain(D.Exec([NodeOf(plugin)], core, clock, D.Frame(D.NewCtx(input), (), 0)).1) == Direct(plugin, input)
  {
    var core := (ctx: D.Ctx) => (ctx, Ok(ctx.input));
    var nodes, f := [NodeOf(plugin)], D.Frame(D.NewCtx(input), (), 0);
    var (value, code) := plugin.call(input);
    var f1 := f.(ctx := f.ctx.(input := value));
    assert D.Enter(nodes[0], clock, f).0 == f1;
    assert nodes[1..] == [] && D.EnterAll(nodes[1..], clock, f1).0 == f1 && D.EnterAll(nodes[1..], clock, f1).1.Go?;
    if code == CONTINUE {
      assert D.EnterAll(nodes, clock, f).0 == f1 && D.EnterAll(nodes, clock, f).1.Go?;
      OneExit(plugin, D.RunCore(core, f1).0);
    } else if code == BREAK {
      assert D.EnterAll(nodes, clock, f).1 == D.ToVerdict(Ok(D.Break));
    } else {
      assert D.EnterAll(nodes, clock, f).1 == D.ToVerdict(Err(D.Rejected("plugin")));
    }
  }
}
