/**
 Migrating a handler preserves what it computes. Two simulations do the work: deleting dead timing
 statements, and replacing the parameter by the context's input field.
 */
module MigrationMeaning {
  import opened Integers
  import opened Wrappers
  import opened HandlerLang
  import opened Migration
  import D = Dispatch

  // ---- what may be migrated: static conditions on the source text ----

  function Free(e: Expr): set<string>
    decreases e
  {
    match e
    case Path(x) => {x}
    case CtxInput => {"ctx"}
    case Bin(_, l, r) => Free(l) + Free(r)
    case Elapsed(a) => Free(a)
    case Call(f, a) => {f} + Free(a)
    case Assign(t, a) => Free(t) + Free(a)
    case If(c, thn, els) => Free(c) + FreeIn(thn) + FreeIn(els)
    case Block(b) => FreeIn(b)
    case Return(a) => Free(a)
    case _ => {}
  }

  function FreeIn(b: Stmts): set<string>
    decreases b
  {
    if b.End? then {}
    else Free(b.first.e) + (if b.first.Let? then FreeIn(b.rest) - {b.first.x} else FreeIn(b.rest))
  }

  /** No assignment, no return and nothing that can panic. */
  predicate Quiet(e: Expr) {
    match e
    case Bin(op, l, r) => op != Divide && Quiet(l) && Quiet(r)
    case Elapsed(a) => Quiet(a)
    case Call(_, a) => Quiet(a)
    case Assign(_, _) => false
    case If(c, thn, els) => Quiet(c) && QuietBlock(thn) && QuietBlock(els)
    case Block(b) => QuietBlock(b)
    case Return(_) => false
    case _ => true
  }

  predicate QuietBlock(b: Stmts) {
    b.Then? ==> Quiet(b.first.e) && QuietBlock(b.rest)
  }

  /** A `let` below binds `input` again. */
  predicate Rebinds(e: Expr) {
    match e
    case Bin(_, l, r) => Rebinds(l) || Rebinds(r)
    case Elapsed(a) => Rebinds(a)
    case Call(_, a) => Rebinds(a)
    case Assign(t, a) => Rebinds(t) || Rebinds(a)
    case If(c, thn, els) => Rebinds(c) || RebindsIn(thn) || RebindsIn(els)
    case Block(b) => RebindsIn(b)
    case Return(a) => Rebinds(a)
    case _ => false
  }

  predicate RebindsIn(b: Stmts) {
    b.Then? && ((b.first.Let? && b.first.x == "input") || Rebinds(b.first.e) || RebindsIn(b.rest))
  }

  /** There is a `return`, executed or not. */
  predicate Returns(e: Expr) {
    match e
    case Bin(_, l, r) => Returns(l) || Returns(r)
    case Elapsed(a) => Returns(a)
    case Call(_, a) => Returns(a)
    case Assign(t, a) => Returns(t) || Returns(a)
    case If(c, thn, els) => Returns(c) || ReturnsIn(thn) || ReturnsIn(els)
    case Block(b) => ReturnsIn(b)
    case Return(_) => true
    case _ => false
  }

  predicate ReturnsIn(b: Stmts) {
    b.Then? && (Returns(b.first.e) || ReturnsIn(b.rest))
  }

  /**
   The name `ctx` that renaming inserts means something else here: an `input` in the scope of a local called
   `ctx`, or a call of a function called `ctx`. `scoped` says that such a local is in scope already.
   */
  predicate Clashes(e: Expr, scoped: bool) {
    match e
    case Path(x) => scoped && x == "input"
    case CtxInput => scoped
    case Bin(_, l, r) => Clashes(l, scoped) || Clashes(r, scoped)
    case Elapsed(a) => Clashes(a, scoped)
    case Call(f, a) => f == "ctx" || Clashes(a, scoped)
    case Assign(t, a) => Clashes(t, scoped) || Clashes(a, scoped)
    case If(c, thn, els) => Clashes(c, scoped) || ClashesIn(thn, scoped) || ClashesIn(els, scoped)
    case Block(b) => ClashesIn(b, scoped)
    case Return(a) => Clashes(a, scoped)
    case _ => false
  }

  predicate ClashesIn(b: Stmts, scoped: bool) {
    b.Then? && (Clashes(b.first.e, scoped) || ClashesIn(b.rest, scoped || (b.first.Let? && b.first.x == "ctx")))
  }

  /** What the closure cannot take over: a `return`, which would have to give a Result, and a clash of names. */
  predicate Unfit(b: Stmts) {
    ReturnsIn(b) || ClashesIn(b, false)
  }

  /**
   Every stripped statement is free of effects, is not the value of the block, and binds no name
   that is free in the statements kept after it.
   */
  predicate TimingIsDead(b: Stmts) {
    b.Then? ==>
      && TimingIsDead(b.rest)
      && (StmtMentions(b.first) ==>
            && Quiet(b.first.e)
            && (b.first.Tail? ==> b.rest != End)
            && (b.first.Let? ==> b.first.x !in FreeIn(Retain(b.rest))))
  }

  // ---- scopes split into a hidden base and a common top ----

  predicate Agree(a: Env, b: Env, live: set<string>) {
    forall x :: x in live ==> Lookup(a, x) == Lookup(b, x)
  }

  lemma {:induction false} LookupSplit(a: Env, t: Env, x: string)
    ensures Lookup(a + t, x) == if Binds(t, x) then Lookup(t, x) else Lookup(a, x)
  {
    if t == [] {
      assert a + t == a;
    } else {
      assert (a + t)[..|a + t| - 1] == a + t[..|t| - 1];
      LookupSplit(a, t[..|t| - 1], x);
    }
  }

  lemma {:induction false} UpdateSplit(a: Env, t: Env, x: string, v: Value)
    ensures Update(a + t, x, v) == if Binds(t, x) then a + Update(t, x, v) else Update(a, x, v) + t
  {
    if t == [] {
      assert a + t == a && Update(a, x, v) + t == Update(a, x, v);
    } else {
      var n := |t| - 1;
      assert (a + t)[..|a + t| - 1] == a + t[..n];
      UpdateSplit(a, t[..n], x, v);
      if t[n].0 == x {
        assert a + t[..n] + [(x, v)] == a + (t[..n] + [(x, v)]);
      } else if Binds(t[..n], x) {
        assert a + Update(t[..n], x, v) + [t[n]] == a + (Update(t[..n], x, v) + [t[n]]);
      } else {
        assert Update(a, x, v) + t[..n] + [t[n]] == Update(a, x, v) + t;
      }
    }
  }

  lemma {:induction false} LookupUpdate(a: Env, x: string, v: Value, y: string)
    ensures Lookup(Update(a, x, v), y) == if y == x && Binds(a, x) then Some(v) else Lookup(a, y)
  {
    if a != [] {
      var n := |a| - 1;
      LookupUpdate(a[..n], x, v, y);
      assert Update(a, x, v)[..n] == if a[n].0 == x then a[..n] else Update(a[..n], x, v);
    }
  }

  lemma {:induction false} BindsByName(a: Env, b: Env, x: string)
    requires SameNames(a, b)
    ensures Binds(a, x) == Binds(b, x)
  {
    if a != [] {
      BindsByName(a[..|a| - 1], b[..|b| - 1], x);
    }
  }

  lemma LookupPush(a: Env, x: string, v: Value, y: string)
    ensures Lookup(a + [(x, v)], y) == if y == x then Some(v) else Lookup(a, y)
  {
    assert (a + [(x, v)])[..|a|] == a;
  }

  // ---- quiet code changes nothing but the clock ----

  lemma {:induction false} QuietIsPure(e: Expr, h: Host, s: State)
    requires Quiet(e)
    ensures var o := Eval(e, h, s); o.Stuck? || (o.Val? && o.s.env == s.env && o.s.ctx == s.ctx)
    decreases e, 0
  {
    match e
    case Bin(op, l, r) =>
      QuietIsPure(l, h, s);
      if Eval(l, h, s).Val? {
        QuietIsPure(r, h, Eval(l, h, s).s);
      }
    case Elapsed(a) => QuietIsPure(a, h, s);
    case Call(_, a) => QuietIsPure(a, h, s);
    case If(c, thn, els) =>
      QuietIsPure(c, h, s);
      var o := Eval(c, h, s);
      if o.Val? {
        QuietBlockIsPure(thn, h, o.s);
        QuietBlockIsPure(els, h, o.s);
      }
    case Block(b) => QuietBlockIsPure(b, h, s);
    case _ =>
  }

  lemma {:induction false} QuietBlockIsPure(b: Stmts, h: Host, s: State)
    requires QuietBlock(b)
    ensures var o := EvalStmts(b, h, s);
            o.Stuck? || (o.Val? && |s.env| <= |o.s.env| && o.s.env[..|s.env|] == s.env && o.s.ctx == s.ctx)
    decreases b, 0
  {
    if b.Then? {
      QuietIsPure(b.first.e, h, s);
      var o := Eval(b.first.e, h, s);
      if o.Val? {
        QuietBlockIsPure(b.rest, h, if b.first.Let? then o.s.(env := o.s.env + [(b.first.x, o.v)]) else o.s);
      }
    }
  }

  // ---- timing-free code behaves alike on bases that agree on its free names ----

  predicate Split(s: State, m: nat, s': State, m': nat, live: set<string>) {
    && m <= |s.env| && m' <= |s'.env|
    && s.env[m..] == s'.env[m'..]
    && s.ctx == s'.ctx
    && Agree(s.env[..m], s'.env[..m'], live)
  }

  predicate Covered(names: set<string>, s: State, m: nat, live: set<string>)
    requires m <= |s.env|
  {
    forall x :: x in names ==> x in live || Binds(s.env[m..], x)
  }

  predicate Alike(o: Out, m: nat, o': Out, m': nat, live: set<string>) {
    if o.Val? then o'.Val? && o.v == o'.v && Split(o.s, m, o'.s, m', live)
    else o == o'
  }

  lemma LookupAlike(x: string, s: State, m: nat, s': State, m': nat, live: set<string>)
    requires Split(s, m, s', m', live) && Covered({x}, s, m, live)
    ensures Lookup(s.env, x) == Lookup(s'.env, x)
  {
    assert x in {x};
    assert s.env == s.env[..m] + s.env[m..] && s'.env == s'.env[..m'] + s'.env[m'..];
    LookupSplit(s.env[..m], s.env[m..], x);
    LookupSplit(s'.env[..m'], s'.env[m'..], x);
  }

  lemma UpdateAlike(x: string, v: Value, s: State, m: nat, s': State, m': nat, live: set<string>)
    requires Split(s, m, s', m', live) && Covered({x}, s, m, live)
    ensures Split(s.(env := Update(s.env, x, v)), m, s'.(env := Update(s'.env, x, v)), m', live)
  {
    assert x in {x};
    var a, t, a', t' := s.env[..m], s.env[m..], s'.env[..m'], s'.env[m'..];
    assert s.env == a + t && s'.env == a' + t';
    UpdateSplit(a, t, x, v);
    UpdateSplit(a', t', x, v);
    if !Binds(t, x) {
      forall y | y in live ensures Lookup(Update(a, x, v), y) == Lookup(Update(a', x, v), y) {
        LookupUpdate(a, x, v, y);
        LookupUpdate(a', x, v, y);
      }
    }
  }

  lemma AssignAlike(t: Expr, v: Value, s: State, m: nat, s': State, m': nat, live: set<string>)
    requires Split(s, m, s', m', live) && Covered(Free(t), s, m, live)
    ensures Alike(AssignTo(t, v, s), m, AssignTo(t, v, s'), m', live)
  {
    if t.Path? {
      LookupAlike(t.x, s, m, s', m', live);
      UpdateAlike(t.x, v, s, m, s', m', live);
    } else if t.CtxInput? {
      LookupAlike("ctx", s, m, s', m', live);
    }
  }

  lemma StillCovered(names: set<string>, s: State, t: State, m: nat, live: set<string>)
    requires m <= |s.env| && SameNames(s.env, t.env) && Covered(names, s, m, live)
    ensures Covered(names, t, m, live)
  {
    forall x | x in names ensures x in live || Binds(t.env[m..], x) {
      BindsByName(s.env[m..], t.env[m..], x);
    }
  }

  /** What covered names before an evaluation covers them after it. */
  lemma CoveredAfter(e: Expr, names: set<string>, h: Host, s: State, m: nat, live: set<string>)
    requires m <= |s.env| && Covered(names, s, m, live)
    ensures var o := Eval(e, h, s);
      o.Val? ==> m <= |o.s.env| && Covered(names, o.s, m, live)
  {
    EvalKeepsNames(e, h, s);
    if Eval(e, h, s).Val? {
      StillCovered(names, s, Eval(e, h, s).s, m, live);
    }
  }

  lemma {:induction false} BinAlike(
    e: Expr, h: Host, h': Host, s: State, m: nat, s': State, m': nat, live: set<string>)
    requires e.Bin? && !MentionsTiming(e) && h.lib == h'.lib
    requires Split(s, m, s', m', live) && Covered(Free(e), s, m, live)
    ensures Alike(Eval(e, h, s), m, Eval(e, h', s'), m', live)
    decreases e, 0
  {
    EvalAlike(e.l, h, h', s, m, s', m', live);
    CoveredAfter(e.l, Free(e.r), h, s, m, live);
    var o, o' := Eval(e.l, h, s), Eval(e.l, h', s');
    if o.Val? {
      EvalAlike(e.r, h, h', o.s, m, o'.s, m', live);
    }
  }

  lemma {:induction false} IfAlike(
    e: Expr, h: Host, h': Host, s: State, m: nat, s': State, m': nat, live: set<string>)
    requires e.If? && !MentionsTiming(e) && h.lib == h'.lib
    requires Split(s, m, s', m', live) && Covered(Free(e), s, m, live)
    ensures Alike(Eval(e, h, s), m, Eval(e, h', s'), m', live)
    decreases e, 0
  {
    EvalAlike(e.c, h, h', s, m, s', m', live);
    var o, o' := Eval(e.c, h, s), Eval(e.c, h', s');
    if o.Val? && o.v.Bool? {
      var branch := if o.v.b then e.thn else e.els;
      CoveredAfter(e.c, FreeIn(branch), h, s, m, live);
      BlockAlike(branch, h, h', o.s, m, o'.s, m', live);
    }
  }

  lemma {:induction false} CallAlike(
    e: Expr, h: Host, h': Host, s: State, m: nat, s': State, m': nat, live: set<string>)
    requires e.Call? && !MentionsTiming(e) && h.lib == h'.lib
    requires Split(s, m, s', m', live) && Covered(Free(e), s, m, live)
    ensures Alike(Eval(e, h, s), m, Eval(e, h', s'), m', live)
    decreases e, 0
  {
    EvalAlike(e.arg, h, h', s, m, s', m', live);
    CoveredAfter(e.arg, {e.f}, h, s, m, live);
    var o, o' := Eval(e.arg, h, s), Eval(e.arg, h', s');
    if o.Val? {
      LookupAlike(e.f, o.s, m, o'.s, m', live);
    }
  }

  lemma {:induction false} EvalAlike(
    e: Expr, h: Host, h': Host, s: State, m: nat, s': State, m': nat, live: set<string>)
    requires !MentionsTiming(e) && h.lib == h'.lib
    requires Split(s, m, s', m', live) && Covered(Free(e), s, m, live)
    ensures Alike(Eval(e, h, s), m, Eval(e, h', s'), m', live)
    decreases e, 1
  {
    match e
    case Lit(_) =>
    case CtxInput => LookupAlike("ctx", s, m, s', m', live);
    case Path(x) => LookupAlike(x, s, m, s', m', live);
    case Bin(_, _, _) => BinAlike(e, h, h', s, m, s', m', live);
    case Call(_, _) => CallAlike(e, h, h', s, m, s', m', live);
    case Return(a) => EvalAlike(a, h, h', s, m, s', m', live);
    case Assign(t, a) =>
      EvalAlike(a, h, h', s, m, s', m', live);
      CoveredAfter(a, Free(t), h, s, m, live);
      var o, o' := Eval(a, h, s), Eval(a, h', s');
      if o.Val? {
        AssignAlike(t, o.v, o.s, m, o'.s, m', live);
      }
    case If(_, _, _) => IfAlike(e, h, h', s, m, s', m', live);
    case Block(b) => BlockAlike(b, h, h', s, m, s', m', live);
  }

  lemma BlockAlike(
    b: Stmts, h: Host, h': Host, s: State, m: nat, s': State, m': nat, live: set<string>)
    requires !BlockMentions(b) && h.lib == h'.lib
    requires Split(s, m, s', m', live) && Covered(FreeIn(b), s, m, live)
    ensures Alike(EvalBlock(b, h, s), m, EvalBlock(b, h', s'), m', live)
    decreases b, 1
  {
    StmtsAlike(b, h, h', s, m, s', m', live);
    StmtsExtendNames(b, h, s);
    StmtsExtendNames(b, h', s');
    var o, o' := EvalStmts(b, h, s), EvalStmts(b, h', s');
    if o.Val? {
      assert |s.env| - m == |s'.env| - m';
      assert o.s.env[..|s.env|][m..] == o.s.env[m..][..|s.env| - m];
      assert o'.s.env[..|s'.env|][m'..] == o'.s.env[m'..][..|s'.env| - m'];
      assert o.s.env[..|s.env|][..m] == o.s.env[..m];
      assert o'.s.env[..|s'.env|][..m'] == o'.s.env[..m'];
    }
  }

  /** A name pushed on the common top stays common, and covers what the let binds. */
  lemma PushAlike(x: string, v: Value, rest: Stmts, s: State, m: nat, s': State, m': nat, live: set<string>)
    requires Split(s, m, s', m', live) && Covered(FreeIn(rest) - {x}, s, m, live)
    ensures Split(s.(env := s.env + [(x, v)]), m, s'.(env := s'.env + [(x, v)]), m', live)
    ensures Covered(FreeIn(rest), s.(env := s.env + [(x, v)]), m, live)
  {
    var e, e' := s.env + [(x, v)], s'.env + [(x, v)];
    assert e[m..] == s.env[m..] + [(x, v)] && e'[m'..] == s'.env[m'..] + [(x, v)];
    assert e[..m] == s.env[..m] && e'[..m'] == s'.env[..m'];
    forall y | y in FreeIn(rest) ensures y in live || Binds(e[m..], y) {
      LookupPush(s.env[m..], x, v, y);
      assert y != x ==> y in FreeIn(rest) - {x};
    }
  }

  lemma {:induction false} StmtsAlike(
    b: Stmts, h: Host, h': Host, s: State, m: nat, s': State, m': nat, live: set<string>)
    requires !BlockMentions(b) && h.lib == h'.lib
    requires Split(s, m, s', m', live) && Covered(FreeIn(b), s, m, live)
    ensures Alike(EvalStmts(b, h, s), m, EvalStmts(b, h', s'), m', live)
    decreases b, 0
  {
    if b.Then? {
      EvalAlike(b.first.e, h, h', s, m, s', m', live);
      EvalKeepsNames(b.first.e, h, s);
      var o, o' := Eval(b.first.e, h, s), Eval(b.first.e, h', s');
      if o.Val? {
        StillCovered(FreeIn(b), s, o.s, m, live);
        if b.first.Let? {
          PushAlike(b.first.x, o.v, b.rest, o.s, m, o'.s, m', live);
          StmtsAlike(b.rest, h, h', o.s.(env := o.s.env + [(b.first.x, o.v)]), m,
                     o'.s.(env := o'.s.env + [(b.first.x, o'.v)]), m', live);
        } else {
          StmtsAlike(b.rest, h, h', o.s, m, o'.s, m', live);
        }
      }
    }
  }

  // ---- deleting dead timing statements ----

  /** The same result; the scopes may differ in dead bindings and the clocks altogether. */
  predicate SameResult(o: Out, o': Out) {
    match o
    case Val(v, s) => o'.Val? && o'.v == v && o'.s.ctx == s.ctx
    case _ => o' == o
  }

  lemma {:induction false} StrippingIsInvisible(b: Stmts, h: Host, h': Host, s: State, s': State)
    requires TimingIsDead(b) && h.lib == h'.lib
    requires Agree(s.env, s'.env, FreeIn(Retain(b))) && s.ctx == s'.ctx
    requires !EvalStmts(b, h, s).Stuck?
    ensures SameResult(EvalStmts(b, h, s), EvalStmts(Retain(b), h', s'))
    decreases b
  {
    if b.Then? {
      var first, rest := b.first, b.rest;
      var o := Eval(first.e, h, s);
      if StmtMentions(first) {
        QuietIsPure(first.e, h, s);
        var s1 := if first.Let? then o.s.(env := o.s.env + [(first.x, o.v)]) else o.s;
        forall y | y in FreeIn(Retain(rest)) ensures Lookup(s1.env, y) == Lookup(s'.env, y) {
          if first.Let? {
            LookupPush(s.env, first.x, o.v, y);
          }
        }
        StrippingIsInvisible(rest, h, h', s1, s');
      } else {
        var live := FreeIn(Retain(b));
        assert s.env[..|s.env|] == s.env && s'.env[..|s'.env|] == s'.env;
        EvalAlike(first.e, h, h', s, |s.env|, s', |s'.env|, live);
        KeptStatement(b, h, h', s, s');
      }
    }
  }

  lemma KeptStatement(b: Stmts, h: Host, h': Host, s: State, s': State)
    requires b.Then? && !StmtMentions(b.first)
    requires TimingIsDead(b) && h.lib == h'.lib
    requires Agree(s.env, s'.env, FreeIn(Retain(b))) && s.ctx == s'.ctx
    requires !EvalStmts(b, h, s).Stuck?
    requires Alike(Eval(b.first.e, h, s), |s.env|, Eval(b.first.e, h', s'), |s'.env|, FreeIn(Retain(b)))
    ensures SameResult(EvalStmts(b, h, s), EvalStmts(Retain(b), h', s'))
    decreases b, 0
  {
    var first, rest := b.first, b.rest;
    var o, o' := Eval(first.e, h, s), Eval(first.e, h', s');
    if o.Val? {
      EvalKeepsNames(first.e, h, s);
      EvalKeepsNames(first.e, h', s');
      assert o.s.env[..|s.env|] == o.s.env && o'.s.env[..|s'.env|] == o'.s.env;
      var s1, s1' := o.s, o'.s;
      if first.Let? {
        s1, s1' := o.s.(env := o.s.env + [(first.x, o.v)]), o'.s.(env := o'.s.env + [(first.x, o.v)]);
        forall y | y in FreeIn(Retain(rest)) ensures Lookup(s1.env, y) == Lookup(s1'.env, y) {
          LookupPush(o.s.env, first.x, o.v, y);
          LookupPush(o'.s.env, first.x, o.v, y);
        }
      }
      if !(first.Tail? && rest == End) {
        StrippingIsInvisible(rest, h, h', s1, s1');
      }
    }
  }

  // ---- replacing the parameter by the context field ----

  /** Outside, `input` is the bottom binding; inside the core, its value is in the context. */
  predicate Shifted(s: State, s': State) {
    && 0 < |s.env| == |s'.env|
    && s.env[0].0 == "input" == s'.env[0].0
    && s.ctx == None && s'.ctx.Some? && s.env[0].1 == Int(s'.ctx.value)
    && s.tick == s'.tick
    && forall i :: 0 < i < |s.env| ==> s.env[i] == s'.env[i] && s.env[i].0 != "input"
  }

  lemma ShiftedNames(s: State, s': State)
    requires Shifted(s, s')
    ensures SameNames(s.env, s'.env)
    ensures forall x :: Binds(s'.env, x) == Binds(s.env, x)
  {
    forall x ensures Binds(s'.env, x) == Binds(s.env, x) {
      BindsByName(s.env, s'.env, x);
    }
  }

  predicate CtxScoped(s: State) {
    Binds(s.env, "ctx")
  }

  lemma StillScoped(e: Expr, h: Host, s: State)
    ensures Eval(e, h, s).Val? ==> CtxScoped(Eval(e, h, s).s) == CtxScoped(s)
  {
    EvalKeepsNames(e, h, s);
    if Eval(e, h, s).Val? {
      BindsByName(s.env, Eval(e, h, s).s.env, "ctx");
    }
  }

  predicate Renamed(o: Out, o': Out) {
    match o
    case Val(v, s) => o'.Val? && o'.v == v && Shifted(s, o'.s)
    case Returned(_) => false
    case Panicked => o'.Panicked?
    case Stuck => true
  }

  lemma {:induction false} LookupParam(env: Env, env': Env, x: string)
    requires 0 < |env| == |env'| && env[0].0 == "input" == env'[0].0
    requires forall i :: 0 < i < |env| ==> env[i] == env'[i] && env[i].0 != "input"
    ensures x == "input" ==> Lookup(env, x) == Some(env[0].1)
    ensures x != "input" ==> Lookup(env, x) == Lookup(env', x)
  {
    var n := |env| - 1;
    if n > 0 && env[n].0 != x {
      LookupParam(env[..n], env'[..n], x);
    }
  }

  lemma {:induction false} UpdateInput(env: Env, v: Value)
    requires 0 < |env| && env[0].0 == "input"
    requires forall i :: 0 < i < |env| ==> env[i].0 != "input"
    ensures Update(env, "input", v) == env[0 := ("input", v)]
  {
    var n := |env| - 1;
    if n == 0 {
      assert env[..0] == [];
    } else {
      UpdateInput(env[..n], v);
      assert env[..n][0 := ("input", v)] + [env[n]] == env[0 := ("input", v)];
    }
  }

  lemma {:induction false} UpdateOther(env: Env, env': Env, x: string, v: Value)
    requires 0 < |env| == |env'| && env[0].0 == "input" == env'[0].0
    requires forall i :: 0 < i < |env| ==> env[i] == env'[i]
    requires x != "input"
    ensures Update(env, x, v)[0] == env[0] && Update(env', x, v)[0] == env'[0]
    ensures Update(env, x, v)[1..] == Update(env', x, v)[1..]
  {
    var n := |env| - 1;
    if n == 0 {
      assert env[..0] == [] == env'[..0];
    } else if env[n].0 == x {
      assert (env[..n] + [(x, v)])[1..] == (env'[..n] + [(x, v)])[1..];
    } else {
      UpdateOther(env[..n], env'[..n], x, v);
      var u, u' := Update(env[..n], x, v), Update(env'[..n], x, v);
      assert (u + [env[n]])[1..] == u[1..] + [env[n]] && (u' + [env[n]])[1..] == u'[1..] + [env[n]];
    }
  }

  lemma AssignRenamed(t: Expr, v: Value, s: State, s': State)
    requires Shifted(s, s') && !Clashes(t, CtxScoped(s))
    ensures Renamed(AssignTo(t, v, s), AssignTo(Rename(t), v, s'))
  {
    if t.Path? {
      if t.x == "input" {
        AssignParam(v, s, s');
      } else {
        AssignLocal(t.x, v, s, s');
      }
    }
  }

  lemma AssignParam(v: Value, s: State, s': State)
    requires Shifted(s, s') && !CtxScoped(s)
    ensures Renamed(AssignTo(Path("input"), v, s), AssignTo(CtxInput, v, s'))
  {
    ShiftedNames(s, s');
    LookupParam(s.env, s'.env, "input");
    UpdateInput(s.env, v);
  }

  lemma AssignLocal(x: string, v: Value, s: State, s': State)
    requires Shifted(s, s') && x != "input"
    ensures Renamed(AssignTo(Path(x), v, s), AssignTo(Path(x), v, s'))
  {
    LookupParam(s.env, s'.env, x);
    UpdateOther(s.env, s'.env, x, v);
    var u, u' := Update(s.env, x, v), Update(s'.env, x, v);
    assert forall i :: 0 < i < |u| ==> u[i] == u[1..][i - 1] && u'[i] == u'[1..][i - 1];
  }

  lemma {:induction false} EvalRenamed(e: Expr, h: Host, s: State, s': State)
    requires !Rebinds(e) && !Returns(e) && !Clashes(e, CtxScoped(s)) && Shifted(s, s')
    ensures Renamed(Eval(e, h, s), Eval(Rename(e), h, s'))
    decreases e, 1
  {
    match e
    case Lit(_) =>
    case CtxInput =>
    case Now =>
    case Path(x) =>
      LookupParam(s.env, s'.env, x);
      ShiftedNames(s, s');
    case Bin(_, _, _) => BinRenamed(e, h, s, s');
    case Elapsed(a) => EvalRenamed(a, h, s, s');
    case Call(_, a) =>
      EvalRenamed(a, h, s, s');
      var o, o' := Eval(a, h, s), Eval(Rename(a), h, s');
      if o.Val? {
        ShiftedNames(o.s, o'.s);
      }
    case Assign(_, _) => AssignExprRenamed(e, h, s, s');
    case If(_, _, _) => IfRenamed(e, h, s, s');
    case Block(b) => BlockRenamed(b, h, s, s');
  }

  lemma {:induction false} BinRenamed(e: Expr, h: Host, s: State, s': State)
    requires e.Bin? && !Rebinds(e) && !Returns(e) && !Clashes(e, CtxScoped(s)) && Shifted(s, s')
    ensures Renamed(Eval(e, h, s), Eval(Rename(e), h, s'))
    decreases e, 0
  {
    EvalRenamed(e.l, h, s, s');
    StillScoped(e.l, h, s);
    var o, o' := Eval(e.l, h, s), Eval(Rename(e.l), h, s');
    if o.Val? {
      EvalRenamed(e.r, h, o.s, o'.s);
    }
  }

  lemma {:induction false} AssignExprRenamed(e: Expr, h: Host, s: State, s': State)
    requires e.Assign? && !Rebinds(e) && !Returns(e) && !Clashes(e, CtxScoped(s)) && Shifted(s, s')
    ensures Renamed(Eval(e, h, s), Eval(Rename(e), h, s'))
    decreases e, 0
  {
    EvalRenamed(e.e, h, s, s');
    StillScoped(e.e, h, s);
    var o, o' := Eval(e.e, h, s), Eval(Rename(e.e), h, s');
    if o.Val? {
      AssignRenamed(e.target, o.v, o.s, o'.s);
    }
  }

  lemma {:induction false} IfRenamed(e: Expr, h: Host, s: State, s': State)
    requires e.If? && !Rebinds(e) && !Returns(e) && !Clashes(e, CtxScoped(s)) && Shifted(s, s')
    ensures Renamed(Eval(e, h, s), Eval(Rename(e), h, s'))
    decreases e, 0
  {
    EvalRenamed(e.c, h, s, s');
    StillScoped(e.c, h, s);
    var o, o' := Eval(e.c, h, s), Eval(Rename(e.c), h, s');
    if o.Val? && o.v.Bool? {
      BlockRenamed(if o.v.b then e.thn else e.els, h, o.s, o'.s);
    }
  }

  lemma BlockRenamed(b: Stmts, h: Host, s: State, s': State)
    requires !RebindsIn(b) && !ReturnsIn(b) && !ClashesIn(b, CtxScoped(s)) && Shifted(s, s')
    ensures Renamed(EvalBlock(b, h, s), EvalBlock(RenameBlock(b), h, s'))
    decreases b, 1
  {
    StmtsRenamed(b, h, s, s');
    StmtsExtendNames(b, h, s);
  }

  lemma {:induction false} StmtsRenamed(b: Stmts, h: Host, s: State, s': State)
    requires !RebindsIn(b) && !ReturnsIn(b) && !ClashesIn(b, CtxScoped(s)) && Shifted(s, s')
    ensures Renamed(EvalStmts(b, h, s), EvalStmts(RenameBlock(b), h, s'))
    decreases b, 0
  {
    if b.Then? {
      EvalRenamed(b.first.e, h, s, s');
      StillScoped(b.first.e, h, s);
      var o, o' := Eval(b.first.e, h, s), Eval(Rename(b.first.e), h, s');
      if o.Val? && !(b.first.Tail? && (b.rest == End || o.v != Unit)) {
        if b.first.Let? {
          LookupPush(o.s.env, b.first.x, o.v, "ctx");
          StmtsRenamed(b.rest, h, o.s.(env := o.s.env + [(b.first.x, o.v)]),
                       o'.s.(env := o'.s.env + [(b.first.x, o.v)]));
        } else {
          StmtsRenamed(b.rest, h, o.s, o'.s);
        }
      }
    }
  }

  // ---- running a handler before and after ----

  datatype Outcome = Value(n: int) | Crash | IllTyped

  function FnOutcome(o: Out): Outcome {
    match o
    case Val(Int(n), _) => Value(n)
    case Returned(Int(n)) => Value(n)
    case Panicked => Crash
    case _ => IllTyped
  }

  /** The generated `mw_timing` does nothing but continue. */
  function TimingNodes(timing: bool): seq<D.Node<()>> {
    if timing then [D.FnPtr(ctx => (ctx, Ok(D.Continue)))] else []
  }

  /** The closure body. The closure also captures the outer `input`. */
  function CoreBody(core: Stmts, h: Host, x: int, ctx: D.Ctx): Out {
    EvalBlock(core, h, State([("input", Int(x))], Some(ctx.input), 0))
  }

  /** A `return` in the closure would have to return a Result, so only values are well-typed. */
  predicate CoreTyped(o: Out) {
    o.Panicked? || (o.Val? && o.v.Int?)
  }

  function CoreFn(core: Stmts, h: Host, x: int): D.Core {
    (ctx: D.Ctx) =>
      match CoreBody(core, h, x, ctx)
      case Val(Int(n), s) => (ctx.(input := if s.ctx.Some? then s.ctx.value else ctx.input), Ok(n))
      case _ => (ctx, Err(D.Panic))
  }

  /** `chain_exec(nodes, core, input).unwrap_or_default()`. */
  function RunCall(timing: bool, core: D.Core, clock: D.Clock, x: int): Outcome {
    match D.Exec(TimingNodes(timing), core, clock, D.Frame(D.NewCtx(x), (), 0)).1
    case Ok(n) => Value(n)
    case Err(Error(_)) => Value(0)
    case Err(Panic) => Crash
  }

  /** The context a core is given behind the generated nodes. */
  function CoreCtx(timing: bool, clock: D.Clock, x: int): D.Ctx {
    D.EnterAll(TimingNodes(timing), clock, D.Frame(D.NewCtx(x), (), 0)).0.ctx
  }

  /** A core that does not type-check makes the whole function ill-typed, executed or not. */
  function RunChained(timing: bool, core: Stmts, h: Host, x: int): Outcome {
    if Unfit(core) || !CoreTyped(CoreBody(core, h, x, CoreCtx(timing, h.clock, x))) then IllTyped
    else RunCall(timing, CoreFn(core, h, x), h.clock, x)
  }

  function OutcomeAsResult(o: Outcome): Result<int, D.Fault> {
    if o.Value? then Ok(o.n) else Err(D.Panic)
  }

  /** A wrapped body; the inner one of two is called with the outer context's input. */
  function RunWrapped(body: Body, h: Host, x: int): Outcome {
    match body
    case Plain(_) => IllTyped
    case Chained(timing, core) => RunChained(timing, core, h, x)
    case Rewrapped(timing, inner) =>
      if RunWrapped(inner, h, CoreCtx(timing, h.clock, x).input) == IllTyped then IllTyped
      else RunCall(timing, (ctx: D.Ctx) => (ctx, OutcomeAsResult(RunWrapped(inner, h, ctx.input))), h.clock, x)
  }

  /** The generated code passes a variable `input` where an i32 is due, gives an i32 and is not constant. */
  predicate FitsTemplate(f: FnItem) {
    f.params == [Param("input", "i32")] && f.output == Some("i32") && !f.isConst
  }

  function RunFn(f: FnItem, x: int, h: Host): Outcome
    requires |f.params| == 1
  {
    if f.body.Plain? then FnOutcome(EvalBlock(f.body.b, h, State([(f.params[0].name, Int(x))], None, 0)))
    else if FitsTemplate(f) then RunWrapped(f.body, h, x)
    else IllTyped
  }

  /** Chain, timing node and `unwrap_or_default` add nothing to the core. */
  lemma CallIsTransparent(timing: bool, core: D.Core, clock: D.Clock, x: int)
    ensures CoreCtx(timing, clock, x) == D.NewCtx(x)
    ensures RunCall(timing, core, clock, x)
         == match core(D.NewCtx(x)).1
            case Ok(n) => Value(n)
            case Err(Error(_)) => Value(0)
            case Err(Panic) => Crash
  {
    var nodes := TimingNodes(timing);
    var f := D.Frame(D.NewCtx(x), (), 0);
    if timing {
      assert nodes[1..] == [] && nodes[..0] == [];
      assert D.Enter(nodes[0], clock, f) == (f, Ok(D.Continue));
      assert D.EnterAll(nodes[1..], clock, f).0 == f;
      var f2 := D.RunCore(core, f).0;
      assert D.ExitAll(nodes, f2) == D.ExitAll(nodes[..0], D.Exit(nodes[0], f2)) == f2;
    }
  }

  lemma ChainIsTransparent(timing: bool, core: Stmts, h: Host, x: int)
    ensures var o := CoreBody(core, h, x, D.NewCtx(x));
            RunChained(timing, core, h, x) == if !Unfit(core) && CoreTyped(o) then FnOutcome(o) else IllTyped
  {
    CallIsTransparent(timing, CoreFn(core, h, x), h.clock, x);
  }

  lemma RewrapIsTransparent(timing: bool, inner: Body, h: Host, x: int)
    ensures RunWrapped(Rewrapped(timing, inner), h, x) == RunWrapped(inner, h, x)
  {
    var core := (ctx: D.Ctx) => (ctx, OutcomeAsResult(RunWrapped(inner, h, ctx.input)));
    CallIsTransparent(timing, core, h.clock, x);
  }

  lemma {:induction false} RenameKeepsReturn(e: Expr)
    ensures Returns(Rename(e)) == Returns(e)
  {
    match e
    case Bin(_, l, r) => RenameKeepsReturn(l); RenameKeepsReturn(r);
    case Elapsed(a) => RenameKeepsReturn(a);
    case Call(_, a) => RenameKeepsReturn(a);
    case Assign(t, a) => RenameKeepsReturn(t); RenameKeepsReturn(a);
    case If(c, thn, els) => RenameKeepsReturn(c); RenameKeepsReturns(thn); RenameKeepsReturns(els);
    case Block(b) => RenameKeepsReturns(b);
    case _ =>
  }

  lemma {:induction false} RenameKeepsReturns(b: Stmts)
    ensures ReturnsIn(RenameBlock(b)) == ReturnsIn(b)
  {
    if b.Then? {
      RenameKeepsReturn(b.first.e);
      RenameKeepsReturns(b.rest);
    }
  }

  lemma {:induction false} RenameKeepsClash(e: Expr, scoped: bool)
    ensures Clashes(Rename(e), scoped) == Clashes(e, scoped)
  {
    match e
    case Bin(_, l, r) => RenameKeepsClash(l, scoped); RenameKeepsClash(r, scoped);
    case Elapsed(a) => RenameKeepsClash(a, scoped);
    case Call(_, a) => RenameKeepsClash(a, scoped);
    case Assign(t, a) => RenameKeepsClash(t, scoped); RenameKeepsClash(a, scoped);
    case If(c, thn, els) =>
      RenameKeepsClash(c, scoped);
      RenameKeepsClashes(thn, scoped);
      RenameKeepsClashes(els, scoped);
    case Block(b) => RenameKeepsClashes(b, scoped);
    case Return(a) => RenameKeepsClash(a, scoped);
    case _ =>
  }

  lemma {:induction false} RenameKeepsClashes(b: Stmts, scoped: bool)
    ensures ClashesIn(RenameBlock(b), scoped) == ClashesIn(b, scoped)
  {
    if b.Then? {
      RenameKeepsClash(b.first.e, scoped);
      RenameKeepsClashes(b.rest, scoped || (b.first.Let? && b.first.x == "ctx"));
    }
  }

  /** The core of a migrated handler is what was retained, renamed. */
  lemma CoreIsRetained(f: FnItem)
    requires f.body.Plain?
    ensures Wrap(f).body.core == RenameBlock(Retain(f.body.b))
    ensures Unfit(Wrap(f).body.core) == Unfit(Retain(f.body.b))
  {
    StripIsRetain(RenameBlock(f.body.b));
    RetainCommutesWithRename(f.body.b);
    RenameKeepsReturns(Retain(f.body.b));
    RenameKeepsClashes(Retain(f.body.b), false);
  }

  function Before(x: int): State {
    State([("input", Int(x))], None, 0)
  }

  lemma NoCtxYet(x: int)
    ensures !CtxScoped(Before(x)) && Shifted(Before(x), Before(x).(ctx := Some(x)))
  {
    assert Before(x).env[..0] == [];
    assert Lookup(Before(x).env, "ctx") == Lookup([], "ctx");
  }

  /** What is retained, renamed and run in the core gives what the block gave. */
  lemma CoreKeepsMeaning(b: Stmts, x: int, h: Host, h': Host)
    requires TimingIsDead(b) && !RebindsIn(Retain(b)) && !Unfit(Retain(b))
    requires h.lib == h'.lib
    requires FnOutcome(EvalBlock(b, h, Before(x))) != IllTyped
    ensures var o := CoreBody(RenameBlock(Retain(b)), h', x, D.NewCtx(x));
      CoreTyped(o) && FnOutcome(o) == FnOutcome(EvalBlock(b, h, Before(x)))
  {
    var s0 := Before(x);
    StrippingIsInvisible(b, h, h', s0, s0);
    StmtsExtendNames(b, h, s0);
    StmtsExtendNames(Retain(b), h', s0);
    NoCtxYet(x);
    BlockRenamed(Retain(b), h', s0, s0.(ctx := Some(x)));
  }

  lemma TemplateKeepsMeaning(f: FnItem, x: int, h: Host, h': Host)
    requires f.body.Plain? && FitsTemplate(f)
    requires TimingIsDead(f.body.b) && !RebindsIn(Retain(f.body.b)) && !Unfit(Retain(f.body.b))
    requires h.lib == h'.lib
    requires RunFn(f, x, h) != IllTyped
    ensures RunFn(Wrap(f), x, h') == RunFn(f, x, h)
  {
    CoreIsRetained(f);
    CoreKeepsMeaning(f.body.b, x, h, h');
    ChainIsTransparent(Wrap(f).body.timing, Wrap(f).body.core, h', x);
  }

  /**
   Migration preserves meaning. For a candidate whose timing statements are dead and whose kept
   statements do not rebind `input`: whenever the original is well-typed, the migrated function gives
   the same value (or the same panic) on every input, under any clock whatever, exactly when it is not
   constant, its signature is `(input: i32) -> i32`, of which recognition checks little, no `return` is
   kept, and no name `ctx` of the handler's own clashes with the one that is inserted.
   */
  lemma MigrationPreservesMeaning(f: FnItem, x: int, h: Host, h': Host)
    requires f.body.Plain? && IsHandler(f)
    requires TimingIsDead(f.body.b) && !RebindsIn(Retain(f.body.b))
    requires h.lib == h'.lib
    requires RunFn(f, x, h) != IllTyped
    ensures RunFn(Wrap(f), x, h') == RunFn(f, x, h) <==> FitsTemplate(f) && !Unfit(Retain(f.body.b))
  {
    CoreIsRetained(f);
    if FitsTemplate(f) && !Unfit(Retain(f.body.b)) {
      TemplateKeepsMeaning(f, x, h, h');
    }
  }

  // ---- migrating what was migrated ----

  lemma {:induction false} RenameTwice(e: Expr)
    ensures Rename(Rename(e)) == Rename(e)
  {
    match e
    case Bin(_, l, r) => RenameTwice(l); RenameTwice(r);
    case Elapsed(a) => RenameTwice(a);
    case Call(_, a) => RenameTwice(a);
    case Assign(t, a) => RenameTwice(t); RenameTwice(a);
    case If(c, thn, els) => RenameTwice(c); RenameBlockTwice(thn); RenameBlockTwice(els);
    case Block(b) => RenameBlockTwice(b);
    case Return(a) => RenameTwice(a);
    case _ =>
  }

  lemma {:induction false} RenameBlockTwice(b: Stmts)
    ensures RenameBlock(RenameBlock(b)) == RenameBlock(b)
  {
    if b.Then? {
      RenameTwice(b.first.e);
      RenameBlockTwice(b.rest);
    }
  }

  lemma {:induction false} RenameBodyTwice(body: Body)
    ensures RenameBody(RenameBody(body)) == RenameBody(body)
  {
    match body
    case Plain(b) => RenameBlockTwice(b);
    case Chained(_, core) => RenameBlockTwice(core);
    case Rewrapped(_, inner) => RenameBodyTwice(inner);
  }

  /** The parameter is still named somewhere. */
  predicate NamesInput(e: Expr) {
    match e
    case Path(x) => x == "input"
    case Bin(_, l, r) => NamesInput(l) || NamesInput(r)
    case Elapsed(a) => NamesInput(a)
    case Call(_, a) => NamesInput(a)
    case Assign(t, a) => NamesInput(t) || NamesInput(a)
    case If(c, thn, els) => NamesInput(c) || BlockNamesInput(thn) || BlockNamesInput(els)
    case Block(b) => BlockNamesInput(b)
    case Return(a) => NamesInput(a)
    case _ => false
  }

  predicate BlockNamesInput(b: Stmts) {
    b.Then? && (NamesInput(b.first.e) || BlockNamesInput(b.rest))
  }

  predicate BodyNamesInput(body: Body) {
    match body
    case Plain(b) => BlockNamesInput(b)
    case Chained(_, core) => BlockNamesInput(core)
    case Rewrapped(_, inner) => BodyNamesInput(inner)
  }

  lemma {:induction false} RenameLeavesNoInput(e: Expr)
    ensures !NamesInput(Rename(e))
  {
    match e
    case Bin(_, l, r) => RenameLeavesNoInput(l); RenameLeavesNoInput(r);
    case Elapsed(a) => RenameLeavesNoInput(a);
    case Call(_, a) => RenameLeavesNoInput(a);
    case Assign(t, a) => RenameLeavesNoInput(t); RenameLeavesNoInput(a);
    case If(c, thn, els) => RenameLeavesNoInput(c); RenameLeavesNone(thn); RenameLeavesNone(els);
    case Block(b) => RenameLeavesNone(b);
    case Return(a) => RenameLeavesNoInput(a);
    case _ =>
  }

  lemma {:induction false} RenameLeavesNone(b: Stmts)
    ensures !BlockNamesInput(RenameBlock(b))
  {
    if b.Then? {
      RenameLeavesNoInput(b.first.e);
      RenameLeavesNone(b.rest);
    }
  }

  /** Renaming reaches every occurrence of the parameter, in bodies wrapped before, too. */
  lemma {:induction false} NoInputLeft(body: Body)
    ensures !BodyNamesInput(RenameBody(body))
  {
    match body
    case Plain(b) => RenameLeavesNone(b);
    case Chained(_, core) => RenameLeavesNone(core);
    case Rewrapped(_, inner) => NoInputLeft(inner);
  }

  /** Wrapped, with nothing left to rename or to strip. */
  predicate Settled(body: Body) {
    !body.Plain? && RenameBody(body) == body && !BodyMentions(body)
  }

  lemma WrapSettles(f: FnItem)
    ensures Settled(Wrap(f).body)
  {
    RenameBodyTwice(f.body);
    if f.body.Plain? {
      StripIsRetain(RenameBlock(f.body.b));
      RetainCommutesWithRename(f.body.b);
      RenameBlockTwice(Retain(f.body.b));
    }
  }

  /**
   Migrating again what was migrated before nests one more chain around it, so migration is not idempotent;
   but the function stays what it was on every input.
   */
  lemma MigratingAgain(f: FnItem, x: int, h: Host)
    requires IsHandler(f)
    ensures Wrap(Wrap(f)).body == Rewrapped(false, Wrap(f).body) && Wrap(Wrap(f)) != Wrap(f)
    ensures RunFn(Wrap(Wrap(f)), x, h) == RunFn(Wrap(f), x, h)
  {
    WrapSettles(f);
    RewrapIsTransparent(false, Wrap(f).body, h, x);
    NotInside(Wrap(f).body);
  }

  lemma NotInside(body: Body)
    ensures Rewrapped(false, body) != body
  {
    assert body < Rewrapped(false, body);
  }

  // ---- each condition is needed ----

  /** No handler that keeps a `return` or a clash type-checks after migration, whatever else it does. */
  lemma UnfitBreaks(f: FnItem, x: int, h: Host)
    requires f.body.Plain? && IsHandler(f) && Unfit(Retain(f.body.b))
    ensures RunFn(Wrap(f), x, h) == IllTyped
  {
    CoreIsRetained(f);
  }

  function Handler(b: Stmts): FnItem {
    FnItem("handle_a", false, [Param("input", "i32")], Some("i32"), Plain(b))
  }

  const START := State([("input", Int(0))], None, 0)

  const REBINDING := Then(Let("input", Lit(5)), Then(Tail(Path("input")), End))

  lemma RebindingBefore(h: Host)
    ensures EvalStmts(REBINDING, h, START) == Val(Int(5), START.(env := START.env + [("input", Int(5))]))
  {
    var s1 := START.(env := START.env + [("input", Int(5))]);
    assert EvalStmts(Then(Tail(Path("input")), End), h, s1) == Val(Int(5), s1);
  }

  /** What the rename and the strip make of it. */
  const REBINDING_CORE := Then(Let("input", Lit(5)), Then(Tail(CtxInput), End))

  lemma RebindingCore()
    ensures Wrap(Handler(REBINDING)).body == Chained(false, REBINDING_CORE)
    ensures !Unfit(REBINDING_CORE)
  {
    assert !TimingName("input");
    assert RenameBlock(REBINDING) == REBINDING_CORE;
    assert Strip(REBINDING_CORE) == REBINDING_CORE && !BlockMentions(REBINDING_CORE);
  }

  lemma RebindingAfter(h: Host)
    ensures EvalStmts(REBINDING_CORE, h, START.(ctx := Some(0))).Val?
    ensures EvalStmts(REBINDING_CORE, h, START.(ctx := Some(0))).v == Int(0)
  {
    var t1 := State(START.env + [("input", Int(5))], Some(0), 0);
    assert t1.env[..1] == START.env && START.env[..0] == [];
    assert !Binds(START.env, "ctx") && !Binds(t1.env, "ctx");
    assert EvalStmts(Then(Tail(CtxInput), End), h, t1) == Val(Int(0), t1);
  }

  /** `let input = 5; input`: the rename reads the parameter instead of the new binding. */
  lemma RebindingBreaks(h: Host)
    ensures RunFn(Handler(REBINDING), 0, h) == Value(5) && RunFn(Wrap(Handler(REBINDING)), 0, h) == Value(0)
  {
    RebindingBefore(h);
    RebindingCore();
    RebindingAfter(h);
    ChainIsTransparent(false, REBINDING_CORE, h, 0);
  }

  const TWO := Then(Semi(Now), Then(Tail(Lit(2)), End))

  const UNCOVERED := Then(Let("r", Lit(1)), Then(Let("r", Block(TWO)), Then(Tail(Path("r")), End)))

  lemma UncoveredBefore(h: Host)
    ensures EvalStmts(UNCOVERED, h, START).Val? && EvalStmts(UNCOVERED, h, START).v == Int(2)
  {
    var s1 := START.(env := START.env + [("r", Int(1))]);
    assert EvalStmts(TWO, h, s1) == Val(Int(2), s1.(tick := 1));
    var s2 := State(s1.env + [("r", Int(2))], None, 1);
    assert EvalStmts(Then(Tail(Path("r")), End), h, s2) == Val(Int(2), s2);
  }

  const UNCOVERED_CORE := Then(Let("r", Lit(1)), Then(Tail(Path("r")), End))

  lemma UncoveredCore()
    ensures Wrap(Handler(UNCOVERED)).body == Chained(true, UNCOVERED_CORE)
    ensures !Unfit(UNCOVERED_CORE)
  {
    assert BlockMentions(TWO) && !TimingName("r");
    assert RenameBlock(UNCOVERED) == UNCOVERED;
    assert Strip(UNCOVERED) == UNCOVERED_CORE;
  }

  /** The core that two of the handlers here are left with. */
  lemma UncoveredAfter(h: Host)
    ensures EvalStmts(UNCOVERED_CORE, h, START.(ctx := Some(0))).Val?
    ensures EvalStmts(UNCOVERED_CORE, h, START.(ctx := Some(0))).v == Int(1)
  {
    var t1 := State(START.env + [("r", Int(1))], Some(0), 0);
    assert EvalStmts(Then(Tail(Path("r")), End), h, t1) == Val(Int(1), t1);
  }

  /** `let r = 1; let r = { Instant::now(); 2 }; r`: stripping uncovers the shadowed binding. */
  lemma UncoveredBindingBreaks(h: Host)
    ensures RunFn(Handler(UNCOVERED), 0, h) == Value(2) && RunFn(Wrap(Handler(UNCOVERED)), 0, h) == Value(1)
  {
    UncoveredBefore(h);
    UncoveredCore();
    UncoveredAfter(h);
    ChainIsTransparent(true, UNCOVERED_CORE, h, 0);
  }

  /** `if input < 0 { return 0; } input` */
  function EarlyReturn(): Stmts {
    var test := Bin(Less, Path("input"), Lit(0));
    Then(Tail(If(test, Then(Semi(Return(Lit(0))), End), End)), Then(Tail(Path("input")), End))
  }

  lemma EarlyReturnBefore(h: Host, x: int)
    requires x >= 0
    ensures RunFn(Handler(EarlyReturn()), x, h) == Value(x)
  {
    var b := EarlyReturn();
    var s0 := State([("input", Int(x))], None, 0);
    assert Eval(b.first.e.c, h, s0) == Val(Bool(false), s0);
    assert s0.env[..1] == s0.env;
    assert Eval(b.first.e, h, s0) == Val(Unit, s0);
    assert EvalStmts(b.rest, h, s0) == Val(Int(x), s0);
    assert EvalBlock(b, h, s0) == Val(Int(x), s0);
  }

  lemma EarlyReturnKept()
    ensures ReturnsIn(Retain(EarlyReturn()))
  {
    assert !TimingName("input");
    assert !StmtMentions(EarlyReturn().first);
  }

  /** Well-typed before, not in a closure that must return a Result, even where nothing is returned early. */
  lemma EarlyReturnBreaks(h: Host, x: int)
    requires x >= 0
    ensures RunFn(Handler(EarlyReturn()), x, h) == Value(x)
    ensures RunFn(Wrap(Handler(EarlyReturn())), x, h) == IllTyped
  {
    EarlyReturnBefore(h, x);
    EarlyReturnKept();
    CoreIsRetained(Handler(EarlyReturn()));
  }

  /** `let ctx = 5; input + ctx` */
  function OwnCtx(): Stmts {
    Then(Let("ctx", Lit(5)), Then(Tail(Bin(Plus, Path("input"), Path("ctx"))), End))
  }

  lemma OwnCtxSum(h: Host, x: int)
    ensures var s1 := State([("input", Int(x)), ("ctx", Int(5))], None, 0);
      Eval(Bin(Plus, Path("input"), Path("ctx")), h, s1) == Val(Int(Wrap32(x + 5)), s1)
  {
    var s1 := State([("input", Int(x)), ("ctx", Int(5))], None, 0);
    assert s1.env[..1] == [("input", Int(x))];
    assert Lookup(s1.env, "input") == Lookup(s1.env[..1], "input") == Some(Int(x));
    assert Eval(Path("input"), h, s1) == Val(Int(x), s1);
    assert Eval(Path("ctx"), h, s1) == Val(Int(5), s1);
  }

  lemma OwnCtxBefore(h: Host, x: int)
    ensures RunFn(Handler(OwnCtx()), x, h) == Value(Wrap32(x + 5))
  {
    var s1 := State([("input", Int(x)), ("ctx", Int(5))], None, 0);
    OwnCtxSum(h, x);
    assert Before(x).env + [("ctx", Int(5))] == s1.env;
    assert EvalStmts(OwnCtx().rest, h, s1) == Val(Int(Wrap32(x + 5)), s1);
    assert EvalStmts(OwnCtx(), h, Before(x)) == Val(Int(Wrap32(x + 5)), s1);
  }

  lemma OwnCtxClashes()
    ensures Unfit(Retain(OwnCtx()))
  {
    assert !TimingName("input") && !TimingName("ctx");
    assert Retain(OwnCtx()) == OwnCtx();
  }

  /** Well-typed before; after, `ctx.input` asks a local i32 for a field. */
  lemma OwnCtxBreaks(h: Host, x: int)
    ensures RunFn(Handler(OwnCtx()), x, h) == Value(Wrap32(x + 5))
    ensures RunFn(Wrap(Handler(OwnCtx())), x, h) == IllTyped
  {
    OwnCtxBefore(h, x);
    OwnCtxClashes();
    CoreIsRetained(Handler(OwnCtx()));
  }

  /** `{ Instant::now(); 2 }` as the value of the body: stripping leaves a body without a value. */
  lemma StrippedValueBreaks(h: Host)
    ensures var f := Handler(Then(Tail(Block(TWO)), End));
            RunFn(f, 0, h) == Value(2) && RunFn(Wrap(f), 0, h) == IllTyped
  {
    var b := Then(Tail(Block(TWO)), End);
    assert EvalStmts(TWO, h, START) == Val(Int(2), START.(tick := 1));
    assert BlockMentions(TWO);
    CoreIsRetained(Handler(b));
    ChainIsTransparent(true, End, h, 0);
  }

  const SETS_TWO := Then(Semi(Now), Then(Semi(Assign(Path("r"), Lit(2))), End))

  const EFFECTFUL := Then(Let("r", Lit(1)), Then(Semi(Block(SETS_TWO)), Then(Tail(Path("r")), End)))

  lemma EffectfulBefore(h: Host)
    ensures EvalStmts(EFFECTFUL, h, START).Val? && EvalStmts(EFFECTFUL, h, START).v == Int(2)
  {
    var s1 := START.(env := START.env + [("r", Int(1))]);
    var s2 := State(START.env + [("r", Int(2))], None, 1);
    assert s1.env[..1] == START.env;
    assert Update(s1.env, "r", Int(2)) == s2.env;
    assert EvalStmts(SETS_TWO.rest, h, s1.(tick := 1)) == Val(Unit, s2);
    assert EvalStmts(SETS_TWO, h, s1) == Val(Unit, s2);
    assert s2.env[..2] == s2.env;
    assert EvalStmts(Then(Tail(Path("r")), End), h, s2) == Val(Int(2), s2);
  }

  lemma EffectfulCore()
    ensures Wrap(Handler(EFFECTFUL)).body == Chained(true, UNCOVERED_CORE)
  {
    assert BlockMentions(SETS_TWO) && !TimingName("r");
    assert RenameBlock(EFFECTFUL) == EFFECTFUL;
    assert Strip(EFFECTFUL) == UNCOVERED_CORE;
  }

  /** `let mut r = 1; { Instant::now(); r = 2; } r`: the assignment is stripped with the reading of the clock. */
  lemma StrippedEffectBreaks(h: Host)
    ensures RunFn(Handler(EFFECTFUL), 0, h) == Value(2) && RunFn(Wrap(Handler(EFFECTFUL)), 0, h) == Value(1)
  {
    EffectfulBefore(h);
    EffectfulCore();
    UncoveredCore();
    UncoveredAfter(h);
    ChainIsTransparent(true, UNCOVERED_CORE, h, 0);
  }
}
