/**
 The execution shape shared by every chain of the crate: enters in order, any of which may stop
 the run; then the core; then the exits in reverse order, on success only.

 `S` is everything a run can see and change (the context or request, shared middleware state,
 the clock readings consumed so far), and a hook is a pair of functions on it.
 */
module Onion {

  datatype Verdict<+E> = Go | Stop(error: E)

  datatype Hook<!S, !E> = Hook(enter: S -> (S, Verdict<E>), exit: S -> S)

  /** The first loop: enters from the front until one stops. */
  function Enters<S, E>(hooks: seq<Hook<S, E>>, s: S): (S, Verdict<E>) {
    if hooks == [] then (s, Go)
    else
      var (s', v) := hooks[0].enter(s);
      if v.Stop? then (s', v) else Enters(hooks[1..], s')
  }

  /** The second loop: exits from the back to the front. */
  function Exits<S, E>(hooks: seq<Hook<S, E>>, s: S): S {
    if hooks == [] then s else Exits(hooks[..|hooks| - 1], hooks[|hooks| - 1].exit(s))
  }

  /** The two-loop executor. */
  function Run<S, E>(hooks: seq<Hook<S, E>>, core: S -> (S, Verdict<E>), s: S): (S, Verdict<E>) {
    var (s1, v1) := Enters(hooks, s);
    if v1.Stop? then (s1, v1)
    else
      var (s2, v2) := core(s1);
      if v2.Stop? then (s2, v2) else (Exits(hooks, s2), Go)
  }

  /** The onion as a nesting: each hook wraps everything inside it. */
  function Nest<S, E>(hooks: seq<Hook<S, E>>, core: S -> (S, Verdict<E>), s: S): (S, Verdict<E>) {
    if hooks == [] then core(s)
    else
      var (s1, v1) := hooks[0].enter(s);
      if v1.Stop? then (s1, v1)
      else
        var (s2, v2) := Nest(hooks[1..], core, s1);
        if v2.Stop? then (s2, v2) else (hooks[0].exit(s2), Go)
  }

  lemma {:induction false} ExitsFromFront<S, E>(hooks: seq<Hook<S, E>>, s: S)
    requires hooks != []
    ensures Exits(hooks, s) == hooks[0].exit(Exits(hooks[1..], s))
  {
    var n := |hooks|;
    if n == 1 {
      assert hooks[..0] == [] == hooks[1..];
    } else {
      var s' := hooks[n - 1].exit(s);
      ExitsFromFront(hooks[..n - 1], s');
      assert hooks[..n - 1][1..] == hooks[1..][..n - 2];
    }
  }

  /** The two loops and the nesting are the same function. */
  lemma {:induction false} LoopsAreNesting<S, E>(hooks: seq<Hook<S, E>>, core: S -> (S, Verdict<E>), s: S)
    ensures Run(hooks, core, s) == Nest(hooks, core, s)
  {
    if hooks != [] {
      var (s1, v1) := hooks[0].enter(s);
      if v1.Go? {
        LoopsAreNesting(hooks[1..], core, s1);
        var (s2, v2) := core(Enters(hooks, s).0);
        ExitsFromFront(hooks, s2);
      }
    }
  }

  lemma {:induction false} NestAppend<S, E>(
    a: seq<Hook<S, E>>, b: seq<Hook<S, E>>, core: S -> (S, Verdict<E>), s: S)
    ensures Nest(a + b, core, s) == Nest(a, t => Nest(b, core, t), s)
  {
    if a == [] {
      assert a + b == b;
    } else {
      assert (a + b)[1..] == a[1..] + b;
      var (s1, v1) := a[0].enter(s);
      NestAppend(a[1..], b, core, s1);
    }
  }

  lemma {:induction false} NestCong<S, E>(
    a: seq<Hook<S, E>>, f: S -> (S, Verdict<E>), g: S -> (S, Verdict<E>), s: S)
    requires forall t :: f(t) == g(t)
    ensures Nest(a, f, s) == Nest(a, g, s)
  {
    if a != [] {
      NestCong(a[1..], f, g, a[0].enter(s).0);
    }
  }

  /** Running `a + b` around a core is running `a` around "`b` around the core". */
  lemma RunAppend<S(!new), E>(
    a: seq<Hook<S, E>>, b: seq<Hook<S, E>>, core: S -> (S, Verdict<E>), s: S)
    ensures Run(a + b, core, s) == Run(a, t => Run(b, core, t), s)
  {
    LoopsAreNesting(a + b, core, s);
    NestAppend(a, b, core, s);
    forall t ensures Run(b, core, t) == Nest(b, core, t) {
      LoopsAreNesting(b, core, t);
    }
    LoopsAreNesting(a, t => Run(b, core, t), s);
    NestCong(a, t => Run(b, core, t), t => Nest(b, core, t), s);
  }

  // ---- what ran, and in which order ----

  datatype Event = Entered(i: nat) | CoreRan | Exited(i: nat)

  datatype Log<+S> = Log(state: S, events: seq<Event>)

  function LoggedHook<S, E>(h: Hook<S, E>, i: nat): Hook<Log<S>, E> {
    Hook((p: Log<S>) => var (s, v) := h.enter(p.state); (Log(s, p.events + [Entered(i)]), v),
         (p: Log<S>) => Log(h.exit(p.state), p.events + [Exited(i)]))
  }

  /** The same hooks, numbered from `base`, each call also written into a log beside the state. */
  function Logged<S, E>(hooks: seq<Hook<S, E>>, base: nat): seq<Hook<Log<S>, E>> {
    if hooks == [] then [] else [LoggedHook(hooks[0], base)] + Logged(hooks[1..], base + 1)
  }

  function LoggedCore<S, E>(core: S -> (S, Verdict<E>)): Log<S> -> (Log<S>, Verdict<E>) {
    (p: Log<S>) => var (s, v) := core(p.state); (Log(s, p.events + [CoreRan]), v)
  }

  /** Enters lo, lo + 1, .., hi - 1. */
  function Ups(lo: nat, hi: nat): seq<Event>
    decreases hi - lo
  {
    if lo >= hi then [] else [Entered(lo)] + Ups(lo + 1, hi)
  }

  /** Exits hi - 1, .., lo + 1, lo. */
  function Downs(lo: nat, hi: nat): seq<Event>
    decreases hi - lo
  {
    if lo >= hi then [] else Downs(lo + 1, hi) + [Exited(lo)]
  }

  /** The only logs a run over hooks lo .. hi - 1 may leave. */
  ghost predicate LegalLog(l: seq<Event>, lo: nat, hi: nat, went: bool) {
    if went then l == Ups(lo, hi) + [CoreRan] + Downs(lo, hi)
    else (exists k :: lo < k <= hi && l == Ups(lo, k)) || l == Ups(lo, hi) + [CoreRan]
  }

  /** Wrapping one more hook around a legal inner log. */
  lemma LegalLogStep(inner: seq<Event>, lo: nat, hi: nat, went: bool)
    requires lo < hi
    requires LegalLog(inner, lo + 1, hi, went)
    ensures LegalLog([Entered(lo)] + inner + (if went then [Exited(lo)] else []), lo, hi, went)
  {
    var outer := [Entered(lo)] + inner + (if went then [Exited(lo)] else []);
    if went {
      assert outer == Ups(lo, hi) + [CoreRan] + Downs(lo, hi);
    } else if inner == Ups(lo + 1, hi) + [CoreRan] {
      assert outer == Ups(lo, hi) + [CoreRan];
    } else {
      var k :| lo + 1 < k <= hi && inner == Ups(lo + 1, k);
      assert outer == Ups(lo, k);
    }
  }

  /** One unfolding of the logged nesting, with the two lambdas of the first hook applied. */
  lemma LoggedNestUnfolds<S, E>(
    hooks: seq<Hook<S, E>>, core: S -> (S, Verdict<E>), p: Log<S>, lo: nat)
    requires hooks != []
    ensures var (s1, v1) := hooks[0].enter(p.state);
            var p1 := Log(s1, p.events + [Entered(lo)]);
            var (p2, v2) := Nest(Logged(hooks[1..], lo + 1), LoggedCore(core), p1);
            && Nest(Logged(hooks, lo), LoggedCore(core), p)
            == (if v1.Stop? then (p1, v1)
                else if v2.Stop? then (p2, v2)
                else (Log(hooks[0].exit(p2.state), p2.events + [Exited(lo)]), Go))
  {
    assert Logged(hooks, lo)[0] == LoggedHook(hooks[0], lo);
    assert Logged(hooks, lo)[1..] == Logged(hooks[1..], lo + 1);
  }

  lemma {:induction false} NestTrace<S, E>(
    hooks: seq<Hook<S, E>>, core: S -> (S, Verdict<E>), p: Log<S>, lo: nat) returns (added: seq<Event>)
    ensures Nest(Logged(hooks, lo), LoggedCore(core), p)
         == (Log(Nest(hooks, core, p.state).0, p.events + added), Nest(hooks, core, p.state).1)
    ensures LegalLog(added, lo, lo + |hooks|, Nest(hooks, core, p.state).1.Go?)
  {
    if hooks == [] {
      added := [CoreRan];
      assert Ups(lo, lo) == [] == Downs(lo, lo);
    } else {
      LoggedNestUnfolds(hooks, core, p, lo);
      var (s1, v1) := hooks[0].enter(p.state);
      var p1 := Log(s1, p.events + [Entered(lo)]);
      if v1.Stop? {
        added := [Entered(lo)];
        assert added == Ups(lo, lo + 1);
      } else {
        var inner := NestTrace(hooks[1..], core, p1, lo + 1);
        var went := Nest(hooks[1..], core, s1).1.Go?;
        LegalLogStep(inner, lo, lo + |hooks|, went);
        added := [Entered(lo)] + inner + (if went then [Exited(lo)] else []);
        assert p1.events + inner + (if went then [Exited(lo)] else []) == p.events + added;
        assert !went ==> p1.events + inner == p.events + added;
      }
    }
  }

  /**
   Logging changes nothing, and the log is exactly: every enter in order, the core, every exit in
   reverse order; or, when the run stopped, the enters so far (and the core, if it was the core
   that stopped) and no exit at all.
   */
  lemma TraceLaw<S, E>(hooks: seq<Hook<S, E>>, core: S -> (S, Verdict<E>), s: S)
    ensures var (p, v) := Run(Logged(hooks, 0), LoggedCore(core), Log(s, []));
            && (p.state, v) == Run(hooks, core, s)
            && LegalLog(p.events, 0, |hooks|, v.Go?)
  {
    LoopsAreNesting(hooks, core, s);
    LoopsAreNesting(Logged(hooks, 0), LoggedCore(core), Log(s, []));
    var added := NestTrace(hooks, core, Log(s, []), 0);
    assert [] + added == added;
  }
}
