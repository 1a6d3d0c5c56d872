/**
 The type-erased chain: nodes transform a request of any type in place and answer with a return
 code. `Env` is the request together with whatever state the middlewares share between calls.
 */
module Opaque {
  import opened Wrappers
  import opened Onion

  /** The code on which a chain goes on; every other code ends the run and is returned as it is. */
  const CONTINUE := 0

  datatype Env<+R, +W> = Env(req: R, shared: W)

  /** A thin node without an exit hook exits as the identity. */
  datatype Node<!R, !W> = Node(
    enter: Env<R, W> -> (Env<R, W>, int),
    exit: Env<R, W> -> Env<R, W>)

  type Core<!R, !W, !O> = Env<R, W> -> (Env<R, W>, O)

  /** The code of the first node that does not continue, or CONTINUE. */
  function EnterAll<R, W>(nodes: seq<Node<R, W>>, s: Env<R, W>): (Env<R, W>, int) {
    if nodes == [] then (s, CONTINUE)
    else
      var (s', code) := nodes[0].enter(s);
      if code != CONTINUE then (s', code) else EnterAll(nodes[1..], s')
  }

  function ExitAll<R, W>(nodes: seq<Node<R, W>>, s: Env<R, W>): Env<R, W> {
    if nodes == [] then s else ExitAll(nodes[..|nodes| - 1], nodes[|nodes| - 1].exit(s))
  }

  function Exec<R, W, O>(nodes: seq<Node<R, W>>, core: Core<R, W, O>, s: Env<R, W>): (Env<R, W>, Result<O, int>) {
    var (s1, code) := EnterAll(nodes, s);
    if code != CONTINUE then (s1, Err(code))
    else
      var (s2, out) := core(s1);
      (ExitAll(nodes, s2), Ok(out))
  }

  // ---- retry, generic in what an attempt is ----

  /** The i-th attempt, started on a clone of the request and the shared state as it is by then. */
  type Attempt<!R, !W, !O, !E> = (nat, Env<R, W>) -> (Env<R, W>, Result<O, E>)

  /** From attempt i on, at most n of them; also how many were made. */
  function Retry<R, W, O, E>(attempt: Attempt<R, W, O, E>, i: nat, n: nat, s: Env<R, W>, last: E):
    (Env<R, W>, Result<O, E>, nat)
    decreases n
  {
    if n == 0 then (s, Err(last), 0)
    else
      var (s', r) := attempt(i, s);
      if r.Ok? then (s', r, 1)
      else
        var (t, r', k) := Retry(attempt, i + 1, n - 1, Env(s.req, s'.shared), r.error);
        (t, r', k + 1)
  }

  /** An attempt that runs the whole chain. */
  function ChainAttempt<R, W, O>(nodes: seq<Node<R, W>>, core: Core<R, W, O>): Attempt<R, W, O, int> {
    (_, s) => Exec(nodes, core, s)
  }

  // ---- the chain as an object ----

  class RequestCell<R> {
    var req: R

    constructor (req: R)
      ensures this.req == req
    {
      this.req := req;
    }
  }

  class OpaqueChain<R, W> {
    var nodes: seq<Node<R, W>>

    constructor (nodes: seq<Node<R, W>>)
      ensures this.nodes == nodes
    {
      this.nodes := nodes;
    }

    method Add(node: Node<R, W>)
      modifies this
      ensures nodes == old(nodes) + [node]
    {
      nodes := nodes + [node];
    }

    /** A position beyond the end is ignored. */
    method Remove(idx: nat)
      modifies this
      ensures nodes == if idx < |old(nodes)| then old(nodes)[..idx] + old(nodes)[idx + 1..] else old(nodes)
    {
      if idx < |nodes| {
        nodes := nodes[..idx] + nodes[idx + 1..];
      }
    }

    method Set(idx: nat, node: Node<R, W>) returns (ok: bool)
      modifies this
      ensures ok == (idx < |old(nodes)|)
      ensures nodes == if ok then old(nodes)[idx := node] else old(nodes)
    {
      ok := idx < |nodes|;
      if ok {
        nodes := nodes[idx := node];
      }
    }

    method Run<O>(core: Core<R, W, O>, cell: RequestCell<R>, shared: W) returns (r: Result<O, int>, shared': W)
      modifies cell
      ensures (Env(cell.req, shared'), r) == Exec(nodes, core, old(Env(cell.req, shared)))
    {
      ghost var s0 := Env(cell.req, shared);
      shared' := shared;
      var snapshot := nodes;
      assert snapshot[0..] == snapshot;
      for i := 0 to |snapshot|
        invariant EnterAll(snapshot[i..], Env(cell.req, shared')) == EnterAll(snapshot, s0)
      {
        assert snapshot[i..][0] == snapshot[i] && snapshot[i..][1..] == snapshot[i + 1..];
        var out := snapshot[i].enter(Env(cell.req, shared'));
        cell.req := out.0.req;
        shared' := out.0.shared;
        if out.1 != CONTINUE {
          return Err(out.1), shared';
        }
      }
      var done := core(Env(cell.req, shared'));
      cell.req := done.0.req;
      shared' := done.0.shared;
      ghost var s2 := Env(cell.req, shared');
      assert snapshot[..|snapshot|] == snapshot;
      for i := |snapshot| downto 0
        invariant ExitAll(snapshot[..i], Env(cell.req, shared')) == ExitAll(snapshot, s2)
      {
        assert snapshot[..i + 1][..i] == snapshot[..i];
        var left := snapshot[i].exit(Env(cell.req, shared'));
        cell.req := left.req;
        shared' := left.shared;
      }
      r := Ok(done.1);
    }

    /** `exec_retry`: every attempt runs on a clone, and only a success is written back. */
    method RunRetry<O>(core: Core<R, W, O>, cell: RequestCell<R>, shared: W, n: nat)
      returns (r: Result<O, int>, shared': W, ghost attempts: nat)
      modifies cell
      ensures (Env(cell.req, shared'), r, attempts)
           == Retry(ChainAttempt(nodes, core), 0, n, old(Env(cell.req, shared)), 0)
    {
      ghost var attempt := ChainAttempt(nodes, core);
      ghost var s0 := Env(cell.req, shared);
      ghost var whole := Retry(attempt, 0, n, s0, 0);
      var lastErr := 0;
      shared', attempts := shared, 0;
      for i := 0 to n
        invariant attempts == i && cell.req == s0.req
        invariant whole.0 == Retry(attempt, i, n - i, Env(cell.req, shared'), lastErr).0
        invariant whole.1 == Retry(attempt, i, n - i, Env(cell.req, shared'), lastErr).1
        invariant whole.2 == Retry(attempt, i, n - i, Env(cell.req, shared'), lastErr).2 + i
      {
        assert attempt(i, Env(cell.req, shared')) == Exec(nodes, core, Env(cell.req, shared'));
        var clone := new RequestCell(cell.req);
        var got;
        got, shared' := Run(core, clone, shared');
        attempts := attempts + 1;
        if got.Ok? {
          cell.req := clone.req;
          return got, shared', attempts;
        }
        lastErr := got.error;
      }
      r := Err(lastErr);
    }
  }

  // ---- this executor is the onion too ----

  function CodeVerdict(code: int): Verdict<int> {
    if code == CONTINUE then Go else Stop(code)
  }

  function HookOf<R, W>(n: Node<R, W>): Hook<Env<R, W>, int> {
    Hook((s: Env<R, W>) => var (s', code) := n.enter(s); (s', CodeVerdict(code)), n.exit)
  }

  function Hooks<R, W>(nodes: seq<Node<R, W>>): (hooks: seq<Hook<Env<R, W>, int>>)
    ensures |hooks| == |nodes|
    ensures forall i :: 0 <= i < |nodes| ==> hooks[i] == HookOf(nodes[i])
  {
    if nodes == [] then [] else [HookOf(nodes[0])] + Hooks(nodes[1..])
  }

  lemma HooksAppend<R, W>(a: seq<Node<R, W>>, b: seq<Node<R, W>>)
    ensures Hooks(a + b) == Hooks(a) + Hooks(b)
  {
    var both := Hooks(a) + Hooks(b);
    forall i | 0 <= i < |a + b| ensures Hooks(a + b)[i] == both[i] {
      assert (a + b)[i] == if i < |a| then a[i] else b[i - |a|];
    }
  }

  lemma {:induction false} EnterAllIsEnters<R, W>(nodes: seq<Node<R, W>>, s: Env<R, W>)
    ensures Enters(Hooks(nodes), s) == (EnterAll(nodes, s).0, CodeVerdict(EnterAll(nodes, s).1))
  {
    if nodes != [] {
      assert Hooks(nodes)[1..] == Hooks(nodes[1..]);
      EnterAllIsEnters(nodes[1..], nodes[0].enter(s).0);
    }
  }

  lemma LastExit<R, W>(nodes: seq<Node<R, W>>, s: Env<R, W>)
    requires nodes != []
    ensures Exits(Hooks(nodes), s) == Exits(Hooks(nodes[..|nodes| - 1]), nodes[|nodes| - 1].exit(s))
  {
    var front, last := nodes[..|nodes| - 1], nodes[|nodes| - 1];
    assert nodes == front + [last];
    HooksAppend(front, [last]);
    var hooks := Hooks(front) + Hooks([last]);
    assert hooks[..|hooks| - 1] == Hooks(front);
  }

  lemma {:induction false} ExitAllIsExits<R, W>(nodes: seq<Node<R, W>>, s: Env<R, W>)
    ensures ExitAll(nodes, s) == Exits(Hooks(nodes), s)
  {
    if nodes != [] {
      LastExit(nodes, s);
      ExitAllIsExits(nodes[..|nodes| - 1], nodes[|nodes| - 1].exit(s));
    }
  }

  function CoreStep<R, W, O>(core: Core<R, W, O>): Env<R, W> -> (Env<R, W>, Verdict<int>) {
    s => (core(s).0, Go)
  }

  /**
   The return-code chain is the onion: same state at the end, and it stops with the same code; so
   its exits run in reverse order on success and not at all otherwise.
   */
  lemma ExecIsOnion<R, W, O>(nodes: seq<Node<R, W>>, core: Core<R, W, O>, s: Env<R, W>)
    ensures var (t, r) := Exec(nodes, core, s);
            var log := Run(Logged(Hooks(nodes), 0), LoggedCore(CoreStep(core)), Log(s, [])).0;
            && Run(Hooks(nodes), CoreStep(core), s) == (t, if r.Err? then Stop(r.error) else Go)
            && log.state == t && LegalLog(log.events, 0, |nodes|, r.Ok?)
  {
    EnterAllIsEnters(nodes, s);
    ExitAllIsExits(nodes, core(EnterAll(nodes, s).0).0);
    TraceLaw(Hooks(nodes), CoreStep(core), s);
  }

  // ---- laws of retry ----

  /** The shared state in front of attempt i + k, when all before it failed. */
  function SharedAfter<R, W, O, E>(attempt: Attempt<R, W, O, E>, i: nat, k: nat, s: Env<R, W>): W
    decreases k
  {
    if k == 0 then s.shared
    else SharedAfter(attempt, i + 1, k - 1, Env(s.req, attempt(i, s).0.shared))
  }

  /** What attempt i + k sees and gives. */
  function Tried<R, W, O, E>(attempt: Attempt<R, W, O, E>, i: nat, k: nat, s: Env<R, W>): (Env<R, W>, Result<O, E>) {
    attempt(i + k, Env(s.req, SharedAfter(attempt, i, k, s)))
  }

  /**
   Retry is atomic on the request. On failure the request is untouched and all n attempts were
   made, each failing; on success everything is as after one successful run from the original
   request, the first attempt that succeeded.
   */
  lemma {:induction false} RetryIsAtomic<R, W, O, E>(
    attempt: Attempt<R, W, O, E>, i: nat, n: nat, s: Env<R, W>, last: E)
    ensures var (t, r, k) := Retry(attempt, i, n, s, last);
            && k <= n
            && (r.Err? ==> k == n && t == Env(s.req, SharedAfter(attempt, i, n, s))
                           && (forall j :: 0 <= j < n ==> Tried(attempt, i, j, s).1.Err?)
                           && (n > 0 ==> Tried(attempt, i, n - 1, s).1 == r))
            && (r.Ok? ==> k > 0 && (t, r) == Tried(attempt, i, k - 1, s)
                          && forall j :: 0 <= j < k - 1 ==> Tried(attempt, i, j, s).1.Err?)
    decreases n
  {
    if n > 0 {
      var (s', r) := attempt(i, s);
      assert Tried(attempt, i, 0, s) == (s', r);
      if r.Err? {
        var next := Env(s.req, s'.shared);
        RetryIsAtomic(attempt, i + 1, n - 1, next, r.error);
        TriedShift(attempt, i, s);
      }
    }
  }

  /** Without any attempt nothing happens, and the error is the one given beforehand. */
  lemma NoAttempts<R, W, O, E>(attempt: Attempt<R, W, O, E>, i: nat, s: Env<R, W>, last: E)
    ensures Retry(attempt, i, 0, s, last) == (s, Err(last), 0)
  {
  }

  lemma TriedShift<R, W, O, E>(attempt: Attempt<R, W, O, E>, i: nat, s: Env<R, W>)
    ensures var next := Env(s.req, attempt(i, s).0.shared);
            && (forall j: nat {:trigger Tried(attempt, i, j, s)} :: j > 0
                  ==> Tried(attempt, i, j, s) == Tried(attempt, i + 1, j - 1, next))
            && (forall j: nat {:trigger Tried(attempt, i + 1, j, next)} ::
                  Tried(attempt, i, j + 1, s) == Tried(attempt, i + 1, j, next))
  {
  }

  /** The first m attempts fail. */
  predicate AllFail<R, W, O, E>(attempt: Attempt<R, W, O, E>, s: Env<R, W>, m: nat) {
    forall j: nat :: j < m ==> Tried(attempt, 0, j, s).1.Err?
  }

  /** A retry ends with an error iff every attempt fails, and otherwise with the first that does not. */
  lemma RetryFailsIff<R, W, O, E>(attempt: Attempt<R, W, O, E>, n: nat, s: Env<R, W>, last: E)
    ensures var (t, r, k) := Retry(attempt, 0, n, s, last);
      && (r.Err? <==> AllFail(attempt, s, n))
      && (r.Ok? ==> 0 < k <= n && AllFail(attempt, s, k - 1) && (t, r) == Tried(attempt, 0, k - 1, s))
  {
    RetryIsAtomic(attempt, 0, n, s, last);
  }

  // ---- metrics at the head ----

  /** Counters next to whatever else is shared. */
  datatype Metered<+W> = Metered(calls: nat, successes: nat, rest: W)

  function MetricsNode<R, W>(): Node<R, Metered<W>> {
    Node((s: Env<R, Metered<W>>) => (s.(shared := s.shared.(calls := s.shared.calls + 1)), CONTINUE),
         (s: Env<R, Metered<W>>) => s.(shared := s.shared.(successes := s.shared.successes + 1)))
  }

  /** The node and the core leave the counters alone. */
  ghost predicate Unmetered<R(!new), W(!new)>(n: Node<R, Metered<W>>) {
    forall s :: SameCounts(n.enter(s).0, s) && SameCounts(n.exit(s), s)
  }

  ghost predicate CoreUnmetered<R(!new), W(!new), O>(core: Core<R, Metered<W>, O>) {
    forall s :: SameCounts(core(s).0, s)
  }

  predicate SameCounts<R, W>(a: Env<R, Metered<W>>, b: Env<R, Metered<W>>) {
    a.shared.calls == b.shared.calls && a.shared.successes == b.shared.successes
  }

  lemma {:induction false} EntersKeepCounts<R(!new), W(!new)>(nodes: seq<Node<R, Metered<W>>>, s: Env<R, Metered<W>>)
    requires forall n :: n in nodes ==> Unmetered(n)
    ensures SameCounts(EnterAll(nodes, s).0, s)
  {
    if nodes != [] {
      assert Unmetered(nodes[0]);
      EntersKeepCounts(nodes[1..], nodes[0].enter(s).0);
    }
  }

  lemma {:induction false} ExitsCountOne<R(!new), W(!new)>(nodes: seq<Node<R, Metered<W>>>, s: Env<R, Metered<W>>)
    requires forall n :: n in nodes ==> Unmetered(n)
    ensures var t := ExitAll([MetricsNode()] + nodes, s);
            t.shared.calls == s.shared.calls && t.shared.successes == s.shared.successes + 1
  {
    var all := [MetricsNode()] + nodes;
    if nodes == [] {
      assert all == [MetricsNode()] && all[..0] == [];
      var m: Node<R, Metered<W>> := MetricsNode();
      assert ExitAll(all, s) == ExitAll(all[..0], m.exit(s));
    } else {
      var last := nodes[|nodes| - 1];
      assert Unmetered(last);
      assert all[..|all| - 1] == [MetricsNode()] + nodes[..|nodes| - 1];
      ExitsCountOne(nodes[..|nodes| - 1], last.exit(s));
    }
  }

  lemma ExecCountsOnce<R(!new), W(!new), O>(
    nodes: seq<Node<R, Metered<W>>>, core: Core<R, Metered<W>, O>, s: Env<R, Metered<W>>)
    requires (forall n :: n in nodes ==> Unmetered(n)) && CoreUnmetered(core)
    ensures var (t, r) := Exec([MetricsNode()] + nodes, core, s);
            && t.shared.calls == s.shared.calls + 1
            && t.shared.successes == s.shared.successes + (if r.Ok? then 1 else 0)
  {
    var all := [MetricsNode()] + nodes;
    var m: Node<R, Metered<W>> := MetricsNode();
    var s1 := m.enter(s).0;
    assert all[0] == m && all[1..] == nodes;
    EntersKeepCounts(nodes, s1);
    var (s2, code) := EnterAll(nodes, s1);
    ExitsCountOne(nodes, core(s2).0);
  }

  /** One call per attempt, and one success iff the retry succeeded. */
  lemma {:induction false} RetryIsMetered<R(!new), W(!new), O>(
    nodes: seq<Node<R, Metered<W>>>, core: Core<R, Metered<W>, O>, i: nat, n: nat, s: Env<R, Metered<W>>, last: int)
    requires (forall m :: m in nodes ==> Unmetered(m)) && CoreUnmetered(core)
    ensures var (t, r, k) := Retry(ChainAttempt([MetricsNode()] + nodes, core), i, n, s, last);
            && t.shared.calls == s.shared.calls + k
            && t.shared.successes == s.shared.successes + (if r.Ok? then 1 else 0)
    decreases n
  {
    if n > 0 {
      ExecCountsOnce(nodes, core, s);
      var (s', r) := Exec([MetricsNode()] + nodes, core, s);
      if r.Err? {
        RetryIsMetered(nodes, core, i + 1, n - 1, Env(s.req, s'.shared), r.error);
      }
    }
  }

  // ---- codes ----

  /** One node around a core: on code 0 core and exit run; any other code is returned, and neither runs. */
  lemma CodesDecide<R, W, O>(n: Node<R, W>, core: Core<R, W, O>, s: Env<R, W>)
    ensures var (s1, code) := n.enter(s);
      Exec([n], core, s) == if code == 0 then (n.exit(core(s1).0), Ok(core(s1).1)) else (s1, Err(code))
  {
    var (s1, code) := n.enter(s);
    assert [n][1..] == [] && [n][..0] == [];
    assert EnterAll([n][1..], s1) == (s1, CONTINUE);
    var s2 := core(s1).0;
    assert ExitAll([n], s2) == ExitAll([n][..0], n.exit(s2)) == n.exit(s2);
  }
}
