/** The sample files of the migration tool, and what their handlers compute before and after. */
module MigrationSamples {
  import opened Integers
  import opened Wrappers
  import opened Text
  import opened HandlerLang
  import opened Migration
  import opened MigrationMeaning
  import opened MigrationText

  function Sample(name: string, b: Stmts): FnItem {
    FnItem(name, false, [Param("input", "i32")], Some("i32"), Plain(b))
  }

  /** `x op k` as the value of a body. */
  function OneOp(op: Op, x: Expr, k: int): Stmts {
    Then(Tail(Bin(op, x, Lit(k))), End)
  }

  const ADD := Sample("handle_add", OneOp(Plus, Path("input"), 1))
  const DOUBLE := Sample("handle_double", OneOp(Times, Path("input"), 2))
  const MINUS := Sample("handle_minus", OneOp(HandlerLang.Minus, Path("input"), 1))

  function Squared(x: Expr): Stmts {
    Then(Let("r", Bin(Times, x, x)), Then(Tail(Path("r")), End))
  }

  /** A square between two readings of the clock. */
  const SQUARE := Sample("handle_square",
    Then(Let("start", Now),
    Then(Let("r", Bin(Times, Path("input"), Path("input"))),
    Then(Let("_elapsed", Elapsed(Path("start"))),
    Then(Tail(Path("r")), End)))))

  const HELPER := FnItem("helper", false, [Param("x", "i32")], Some("i32"), Plain(OneOp(Times, Path("x"), 2)))

  function Applied(op: Op, x: int, k: int): int {
    Wrap32(match op
      case Plus => x + k
      case Minus => x - k
      case _ => x * k)
  }

  lemma OneOpRuns(op: Op, k: int, x: i32, h: Host)
    requires op == Plus || op == HandlerLang.Minus || op == Times
    ensures FnOutcome(EvalBlock(OneOp(op, Path("input"), k), h, State([("input", Int(x))], None, 0)))
         == Value(Applied(op, x, k))
  {
    var s, e := State([("input", Int(x))], None, 0), Bin(op, Path("input"), Lit(k));
    assert Eval(Path("input"), h, s) == Val(Int(x), s);
    assert Eval(Lit(k), h, s) == Val(Int(k), s);
    assert Eval(e, h, s) == Val(Int(Applied(op, x, k)), s);
    assert EvalStmts(OneOp(op, Path("input"), k), h, s) == Val(Int(Applied(op, x, k)), s);
  }

  /** Arithmetic on the parameter has no timing, binding, return or clash in it. */
  lemma PlainBin(op: Op, r: Expr)
    requires r == Path("input") || r.Lit?
    ensures var e := Bin(op, Path("input"), r);
      && !MentionsTiming(e) && !Rebinds(e) && !Returns(e) && !Clashes(e, false)
      && Rename(e) == Bin(op, CtxInput, Rename(r)) && Free(e) <= {"input"} && "input" in Free(e)
  {
    ShortName("input");
    OneTimes("input");
    var l := Path("input");
    assert !Clashes(l, false) && !Clashes(r, false) && !Rebinds(l) && !Rebinds(r);
    assert !Returns(l) && !Returns(r) && !MentionsTiming(l) && !MentionsTiming(r);
  }

  lemma OneOpIsPlain(op: Op, k: int)
    ensures var b := OneOp(op, Path("input"), k);
      !BlockMentions(b) && !RebindsIn(b) && !Unfit(b) && RenameBlock(b) == OneOp(op, CtxInput, k)
  {
    var e := Bin(op, Path("input"), Lit(k));
    PlainBin(op, Lit(k));
    assert OneOp(op, Path("input"), k).first.e == e && !RebindsIn(End) && !ReturnsIn(End) && !ClashesIn(End, false);
  }

  lemma OneOpMigrates(name: string, op: Op, k: int, x: i32, h: Host)
    requires StartsWith(name, "handle_") && (op == Plus || op == HandlerLang.Minus || op == Times)
    ensures var f := Sample(name, OneOp(op, Path("input"), k));
      && IsHandler(f) && Wrap(f) == f.(body := Chained(false, OneOp(op, CtxInput, k)))
      && RunFn(Wrap(f), x, h) == RunFn(f, x, h) == Value(Applied(op, x, k))
  {
    var b := OneOp(op, Path("input"), k);
    var f := Sample(name, b);
    Itself("i32");
    ContainsIff("i32", "i32");
    OneOpIsPlain(op, k);
    QuietIsDead(b);
    RenameKeepsMentions(b);
    StripIsRetain(RenameBlock(b));
    RetainChangesIffMentions(RenameBlock(b));
    OneOpRuns(op, k, x, h);
    MigrationPreservesMeaning(f, x, h, h);
  }

  /** `{ let start = Instant::now(); let r = input * input; let _elapsed = start.elapsed(); r }`: two of four stay. */
  lemma SquareMigrates(x: i32, h: Host)
    ensures IsHandler(SQUARE) && Wrap(SQUARE) == SQUARE.(body := Chained(true, Squared(CtxInput)))
    ensures RunFn(Wrap(SQUARE), x, h) == RunFn(SQUARE, x, h) == Value(Wrap32(x * x))
  {
    StartsWithHandle();
    Itself("i32");
    ContainsIff("i32", "i32");
    SquareRetained();
    CoreIsRetained(SQUARE);
    TimingNodeIffStripped(SQUARE);
    SquareBefore(x, h);
    MigrationPreservesMeaning(SQUARE, x, h, h);
  }

  lemma StartsWithHandle()
    ensures StartsWith("handle_square", "handle_") && StartsWith("handle_add", "handle_")
    ensures StartsWith("handle_double", "handle_") && StartsWith("handle_minus", "handle_")
    ensures !StartsWith("helper", "handle_")
  {
  }

  lemma SquareRetained()
    ensures var b := SQUARE.body.b;
      && BlockMentions(b) && TimingIsDead(b) && Retain(b) == Squared(Path("input"))
    ensures RenameBlock(Squared(Path("input"))) == Squared(CtxInput)
    ensures !RebindsIn(Squared(Path("input"))) && !Unfit(Squared(Path("input")))
  {
    var b := SQUARE.body.b;
    SquareRest();
    SquaredIsPlain();
    assert StmtMentions(b.first) && Quiet(b.first.e);
  }

  lemma SquareRest()
    ensures var b := SQUARE.body.b.rest;
      TimingIsDead(b) && Retain(b) == Squared(Path("input")) && FreeIn(Retain(b)) <= {"input"}
  {
    SquareTail();
    PlainBin(Times, Path("input"));
    ShortName("r");
    OneTimes("r");
    assert !StmtMentions(SQUARE.body.b.rest.first);
  }

  lemma SquareTail()
    ensures var b := SQUARE.body.b.rest.rest;
      && TimingIsDead(b) && Retain(b) == Then(Tail(Path("r")), End) && FreeIn(Retain(b)) == {"r"}
  {
    var b := SQUARE.body.b.rest.rest;
    ShortName("r");
    OneTimes("r");
    assert Retain(b.rest) == b.rest && TimingIsDead(b.rest);
    assert StmtMentions(b.first) && Quiet(Path("start")) && Quiet(b.first.e);
  }

  lemma SquaredIsPlain()
    ensures var b := Squared(Path("input"));
      !RebindsIn(b) && !Unfit(b) && RenameBlock(b) == Squared(CtxInput)
  {
    PlainBin(Times, Path("input"));
    var tail := Then(Tail(Path("r")), End);
    assert !RebindsIn(tail) && !ReturnsIn(tail) && !ClashesIn(tail, false) && RenameBlock(tail) == tail;
  }

  lemma SquareBefore(x: i32, h: Host)
    ensures RunFn(SQUARE, x, h) == Value(Wrap32(x * x))
  {
    var s0 := State([("input", Int(x))], None, 0);
    var b := SQUARE.body.b;
    var s1 := State([("input", Int(x)), ("start", Instant(h.clock(0)))], None, 1);
    assert s0.(tick := 1).env + [("start", Instant(h.clock(0)))] == s1.env;
    var e := Bin(Times, Path("input"), Path("input"));
    assert s1.env[..1] == s0.env;
    assert Lookup(s1.env, "input") == Some(Int(x));
    assert Eval(e, h, s1) == Val(Int(Wrap32(x * x)), s1);
    var s2 := s1.(env := s1.env + [("r", Int(Wrap32(x * x)))]);
    assert s2.env[..2] == s1.env;
    assert Lookup(s2.env, "start") == Some(Instant(h.clock(0)));
    var d := Dur(h.clock(1) - h.clock(0));
    assert Eval(Elapsed(Path("start")), h, s2) == Val(d, s2.(tick := 2));
    var s3 := s2.(tick := 2, env := s2.env + [("_elapsed", d)]);
    assert s3.env[..3] == s2.env;
    assert Lookup(s3.env, "r") == Some(Int(Wrap32(x * x)));
    assert EvalStmts(b.rest.rest.rest, h, s3) == Val(Int(Wrap32(x * x)), s3);
    assert EvalStmts(b.rest.rest, h, s2) == Val(Int(Wrap32(x * x)), s3);
    assert EvalStmts(b.rest, h, s1) == Val(Int(Wrap32(x * x)), s3);
  }

  lemma SamplesCompute(x: i32, h: Host)
    ensures RunFn(Wrap(ADD), x, h) == Value(Wrap32(x + 1)) && RunFn(Wrap(MINUS), x, h) == Value(Wrap32(x - 1))
    ensures RunFn(Wrap(DOUBLE), x, h) == Value(Wrap32(x * 2)) && RunFn(Wrap(SQUARE), x, h) == Value(Wrap32(x * x))
  {
    StartsWithHandle();
    OneOpMigrates("handle_add", Plus, 1, x, h);
    OneOpMigrates("handle_minus", HandlerLang.Minus, 1, x, h);
    OneOpMigrates("handle_double", Times, 2, x, h);
    SquareMigrates(x, h);
  }

  lemma ArithmeticItem(name: string, op: Op, k: int, h: Host)
    requires StartsWith(name, "handle_") && (op == Plus || op == HandlerLang.Minus || op == Times)
    ensures var f := Sample(name, OneOp(op, Path("input"), k));
      MigrateItem(Fn(f)) == Fn(f.(body := Chained(false, OneOp(op, CtxInput, k)))) && !TakesTiming(Fn(f))
  {
    OneOpMigrates(name, op, k, 0, h);
    OneOpIsPlain(op, k);
  }

  lemma FileOfTwo(a: Item, b: Item)
    ensures MigrateFile([a, b])
         == [MigrateItem(a), MigrateItem(b)] + (if TakesTiming(a) || TakesTiming(b) then [TimingFn] else [])
  {
    assert [a, b][..1] == [a] && [a][..0] == [];
    assert AnyTiming([a]) <==> TakesTiming(a);
  }

  lemma FileOfThree(a: Item, b: Item, c: Item)
    ensures MigrateFile([a, b, c])
         == [MigrateItem(a), MigrateItem(b), MigrateItem(c)]
            + (if TakesTiming(a) || TakesTiming(b) || TakesTiming(c) then [TimingFn] else [])
  {
    assert [a, b, c][..2] == [a, b] && [a, b][..1] == [a] && [a][..0] == [];
    assert AnyTiming([a]) <==> TakesTiming(a);
    assert AnyTiming([a, b]) <==> TakesTiming(a) || TakesTiming(b);
  }

  lemma SquareItem(h: Host)
    ensures MigrateItem(Fn(SQUARE)) == Fn(SQUARE.(body := Chained(true, Squared(CtxInput)))) && TakesTiming(Fn(SQUARE))
    ensures MigrateItem(Fn(HELPER)) == Fn(HELPER) && !TakesTiming(Fn(HELPER))
  {
    StartsWithHandle();
    SquareMigrates(0, h);
    SquareRetained();
  }

  /** The first file: two handlers wrapped, one of them freed of its timing, the helper as it was. */
  lemma LegacyMigrates(h: Host)
    ensures MigrateFile([Fn(ADD), Fn(SQUARE), Fn(HELPER)])
         == [Fn(ADD.(body := Chained(false, OneOp(Plus, CtxInput, 1)))),
             Fn(SQUARE.(body := Chained(true, Squared(CtxInput)))),
             Fn(HELPER), TimingFn]
  {
    FileOfThree(Fn(ADD), Fn(SQUARE), Fn(HELPER));
    StartsWithHandle();
    ArithmeticItem("handle_add", Plus, 1, h);
    SquareItem(h);
  }

  /** The second file needs no timing function. */
  lemma SecondFileMigrates(h: Host)
    ensures MigrateFile([Fn(DOUBLE), Fn(MINUS)])
         == [Fn(DOUBLE.(body := Chained(false, OneOp(Times, CtxInput, 2)))),
             Fn(MINUS.(body := Chained(false, OneOp(HandlerLang.Minus, CtxInput, 1))))]
  {
    FileOfTwo(Fn(DOUBLE), Fn(MINUS));
    StartsWithHandle();
    ArithmeticItem("handle_double", Times, 2, h);
    ArithmeticItem("handle_minus", HandlerLang.Minus, 1, h);
  }
}
