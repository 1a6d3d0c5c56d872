/**
 The Rust fragment that handlers are written in: its syntax as the migration tool sees it, and
 what running it means. Scopes are a stack of bindings; the clock is read by `Instant::now` and
 `elapsed`; other functions and methods the handler calls are total functions of their argument.
 */
module HandlerLang {
  import opened Integers
  import opened Wrappers

  datatype Op = Plus | Minus | Times | Divide | Less

  datatype Expr =
    | Lit(n: int)
    | Path(x: string)
    | CtxInput                        // `ctx.input`, of whatever `ctx` names there
    | Bin(op: Op, l: Expr, r: Expr)
    | Now                             // `Instant::now()`
    | Elapsed(e: Expr)                // `e.elapsed()`
    | Call(f: string, arg: Expr)      // a method's name is written with its dot
    | Assign(target: Expr, e: Expr)
    | If(c: Expr, thn: Stmts, els: Stmts)
    | Block(b: Stmts)
    | Return(e: Expr)

  /** `let x = e;`, `e;` and an expression without a semicolon. */
  datatype Stmt = Let(x: string, e: Expr) | Semi(e: Expr) | Tail(e: Expr)

  datatype Stmts = End | Then(first: Stmt, rest: Stmts)

  datatype Value = Int(n: int) | Bool(b: bool) | Unit | Instant(t: int) | Dur(d: int)

  type Env = seq<(string, Value)>

  /** Inside a chain core the parameter `ctx` has an input field; outside there is no such parameter. */
  datatype State = State(env: Env, ctx: Option<int>, tick: nat)

  /** Stuck is code that does not type-check; Panicked is a run-time panic. */
  datatype Out = Val(v: Value, s: State) | Returned(r: Value) | Panicked | Stuck

  datatype Host = Host(clock: nat -> int, lib: (string, Value) -> Value)

  // ---- scopes ----

  function Lookup(env: Env, x: string): Option<Value> {
    if env == [] then None
    else if env[|env| - 1].0 == x then Some(env[|env| - 1].1)
    else Lookup(env[..|env| - 1], x)
  }

  /** Changes the innermost binding of x; a scope without one is left alone. */
  function Update(env: Env, x: string, v: Value): (r: Env)
    ensures |r| == |env|
    ensures forall i :: 0 <= i < |env| ==> r[i].0 == env[i].0
  {
    if env == [] then []
    else
      var n := |env| - 1;
      if env[n].0 == x then env[..n] + [(x, v)] else Update(env[..n], x, v) + [env[n]]
  }

  predicate Binds(env: Env, x: string) {
    Lookup(env, x).Some?
  }

  /** The name `ctx` denotes the parameter of the core, not a local of the handler; locals have no fields. */
  predicate SeesCtx(s: State) {
    s.ctx.Some? && !Binds(s.env, "ctx")
  }

  // ---- running ----

  predicate SameType(a: Value, b: Value) {
    match a
    case Int(_) => b.Int?
    case Bool(_) => b.Bool?
    case Unit => b.Unit?
    case Instant(_) => b.Instant?
    case Dur(_) => b.Dur?
  }

  function Arith(op: Op, a: int, b: int, s: State): Out {
    match op
    case Plus => Val(Int(Wrap32(a + b)), s)
    case Minus => Val(Int(Wrap32(a - b)), s)
    case Times => Val(Int(Wrap32(a * b)), s)
    case Less => Val(Bool(a < b), s)
    case Divide =>
      if b == 0 || (a == I32_MIN && b == -1) then Panicked
      else Val(Int(Quotient(a, b)), s)
  }

  function Abs(x: int): nat {
    if x < 0 then -x else x
  }

  /** i32 division truncates toward zero. */
  function Quotient(a: int, b: int): int
    requires b != 0
  {
    var q := Abs(a) / Abs(b);
    if (a < 0) == (b < 0) then q else -q
  }

  /** The remainder is smaller than the divisor and has the sign of the dividend. */
  lemma QuotientTruncates(a: int, b: int)
    requires b != 0
    ensures var r := a - Quotient(a, b) * b;
      Abs(r) < Abs(b) && (a >= 0 ==> r >= 0) && (a <= 0 ==> r <= 0)
  {
    var p: int, d: int := Abs(a), Abs(b);
    var q := p / d;
    assert p == q * d + p % d;
    assert (0 - q) * (0 - d) == q * d && q * (0 - d) == 0 - q * d && (0 - q) * d == 0 - q * d;
  }

  function AssignTo(target: Expr, v: Value, s: State): Out {
    match target
    case Path(x) =>
      if Lookup(s.env, x).Some? && SameType(Lookup(s.env, x).value, v)
      then Val(Unit, s.(env := Update(s.env, x, v)))
      else Stuck
    case CtxInput =>
      if SeesCtx(s) && v.Int? then Val(Unit, s.(ctx := Some(v.n))) else Stuck
    case _ => Stuck
  }

  function Eval(e: Expr, h: Host, s: State): Out
    decreases e, 0
  {
    match e
    case Lit(n) => Val(Int(n), s)
    case Path(x) => if Lookup(s.env, x).Some? then Val(Lookup(s.env, x).value, s) else Stuck
    case CtxInput => if SeesCtx(s) then Val(Int(s.ctx.value), s) else Stuck
    case Bin(op, l, r) =>
      var o1 := Eval(l, h, s);
      if !o1.Val? then o1
      else
        var o2 := Eval(r, h, o1.s);
        if !o2.Val? then o2
        else if o1.v.Int? && o2.v.Int? then Arith(op, o1.v.n, o2.v.n, o2.s)
        else Stuck
    case Now => Val(Instant(h.clock(s.tick)), s.(tick := s.tick + 1))
    case Elapsed(a) =>
      var o := Eval(a, h, s);
      if !o.Val? then o
      else if o.v.Instant? then Val(Dur(h.clock(o.s.tick) - o.v.t), o.s.(tick := o.s.tick + 1))
      else Stuck
    case Call(f, a) =>
      var o := Eval(a, h, s);
      if !o.Val? then o
      else if Binds(o.s.env, f) || (f == "ctx" && o.s.ctx.Some?) then Stuck
      else Val(h.lib(f, o.v), o.s)
    case Assign(target, a) =>
      var o := Eval(a, h, s);
      if !o.Val? then o else AssignTo(target, o.v, o.s)
    case If(c, thn, els) =>
      var o := Eval(c, h, s);
      if !o.Val? then o
      else if o.v.Bool? then (if o.v.b then EvalBlock(thn, h, o.s) else EvalBlock(els, h, o.s))
      else Stuck
    case Block(b) => EvalBlock(b, h, s)
    case Return(a) =>
      var o := Eval(a, h, s);
      if o.Val? then Returned(o.v) else o
  }

  /** A block ends the scope it opened. */
  function EvalBlock(b: Stmts, h: Host, s: State): Out
    decreases b, 1
  {
    var o := EvalStmts(b, h, s);
    if o.Val? && |s.env| <= |o.s.env| then Val(o.v, o.s.(env := o.s.env[..|s.env|])) else o
  }

  /** A statement in the middle of a block that has no semicolon must be of type unit. */
  function EvalStmts(b: Stmts, h: Host, s: State): Out
    decreases b, 0
  {
    match b
    case End => Val(Unit, s)
    case Then(first, rest) =>
      var o := Eval(first.e, h, s);
      if !o.Val? then o
      else
        match first
        case Let(x, _) => EvalStmts(rest, h, o.s.(env := o.s.env + [(x, o.v)]))
        case Semi(_) => EvalStmts(rest, h, o.s)
        case Tail(_) =>
          if rest == End then o else if o.v == Unit then EvalStmts(rest, h, o.s) else Stuck
  }

  // ---- scopes survive evaluation ----

  predicate SameNames(a: Env, b: Env) {
    |a| == |b| && forall i :: 0 <= i < |a| ==> a[i].0 == b[i].0
  }

  lemma {:induction false} EvalKeepsNames(e: Expr, h: Host, s: State)
    ensures Eval(e, h, s).Val? ==> SameNames(s.env, Eval(e, h, s).s.env)
    decreases e, 0
  {
    match e
    case Lit(_) =>
    case Path(_) =>
    case CtxInput =>
    case Now =>
    case Bin(op, l, r) =>
      EvalKeepsNames(l, h, s);
      if Eval(l, h, s).Val? {
        EvalKeepsNames(r, h, Eval(l, h, s).s);
      }
    case Elapsed(a) => EvalKeepsNames(a, h, s);
    case Call(_, a) => EvalKeepsNames(a, h, s);
    case Assign(_, a) => EvalKeepsNames(a, h, s);
    case Return(a) => EvalKeepsNames(a, h, s);
    case Block(b) => BlockKeepsNames(b, h, s);
    case If(c, thn, els) =>
      EvalKeepsNames(c, h, s);
      var o := Eval(c, h, s);
      if o.Val? {
        BlockKeepsNames(thn, h, o.s);
        BlockKeepsNames(els, h, o.s);
      }
  }

  lemma BlockKeepsNames(b: Stmts, h: Host, s: State)
    ensures EvalBlock(b, h, s).Val? ==> SameNames(s.env, EvalBlock(b, h, s).s.env)
    decreases b, 1
  {
    StmtsExtendNames(b, h, s);
  }

  lemma {:induction false} StmtsExtendNames(b: Stmts, h: Host, s: State)
    ensures var o := EvalStmts(b, h, s);
            o.Val? ==> |s.env| <= |o.s.env| && SameNames(s.env, o.s.env[..|s.env|])
    decreases b, 0
  {
    if b.Then? {
      EvalKeepsNames(b.first.e, h, s);
      var o := Eval(b.first.e, h, s);
      if o.Val? {
        var s1 := if b.first.Let? then o.s.(env := o.s.env + [(b.first.x, o.v)]) else o.s;
        StmtsExtendNames(b.rest, h, s1);
      }
    }
  }
}
