/**
 The async chain as the state machine an executor polls. An async node runs in segments with an
 await between any two; a poll runs on until some await is not ready. The chain itself is generic
 in its state and error, so the i32 chain and the type-erased one are instances.
 */
module AsyncChain {
  import opened Wrappers
  import opened Onion

  /** A synchronous node has no segment: all of its work is in `last`. */
  datatype Call<!S, !E> = Call(segments: seq<S -> S>, last: S -> (S, Verdict<E>))

  datatype Node<!S, !E> = Node(call: Call<S, E>, exit: S -> S)

  type Core<!S, !E> = S -> (S, Verdict<E>)

  // ---- the synchronous counterpart ----

  function RunSegments<S>(segments: seq<S -> S>, s: S): S {
    if segments == [] then s else RunSegments(segments[1..], segments[0](s))
  }

  /** The whole effect of a node's call. */
  function Effect<S, E>(c: Call<S, E>): S -> (S, Verdict<E>) {
    s => (c.last)(RunSegments(c.segments, s))
  }

  function Effects<S, E>(nodes: seq<Node<S, E>>): (hooks: seq<Hook<S, E>>)
    ensures |hooks| == |nodes|
    ensures forall i :: 0 <= i < |nodes| ==> hooks[i] == Hook(Effect(nodes[i].call), nodes[i].exit)
  {
    if nodes == [] then [] else [Hook(Effect(nodes[0].call), nodes[0].exit)] + Effects(nodes[1..])
  }

  // ---- the future ----

  /**
   Suspended in the call of node `pc`, `seg` of its segments done; `waiting` at the await behind
   the last of them.
   */
  datatype Fut<+S> = Fut(pc: nat, seg: nat, waiting: bool, s: S)

  predicate ValidFut<S, E>(calls: seq<Call<S, E>>, f: Fut<S>) {
    && f.pc <= |calls|
    && (f.pc < |calls| ==> f.seg <= |calls[f.pc].segments|)
    && (f.pc == |calls| ==> !f.waiting && f.seg == 0)
    && (f.waiting ==> f.seg > 0)
  }

  /** How the enters of one poll end. */
  datatype Progress<+S, +E> = Suspended(f: Fut<S>) | Stopped(s: S, error: E) | Through(s: S)

  /**
   The enters of one poll, in which `ready` awaits come back before one is still pending. It is
   given the calls of the nodes only: neither the core nor any exit is in reach.
   */
  function Advance<S, E>(calls: seq<Call<S, E>>, f: Fut<S>, ready: nat): (r: Progress<S, E>)
    requires ValidFut(calls, f)
    ensures r.Suspended? ==> ValidFut(calls, r.f) && r.f.waiting
    decreases |calls| - f.pc, if f.pc < |calls| then |calls[f.pc].segments| - f.seg else 0, if f.waiting then 1 else 0
  {
    if f.pc == |calls| then Through(f.s)
    else if f.waiting then
      if ready == 0 then Suspended(f) else Advance(calls, f.(waiting := false), ready - 1)
    else if f.seg < |calls[f.pc].segments| then
      Advance(calls, Fut(f.pc, f.seg + 1, true, calls[f.pc].segments[f.seg](f.s)), ready)
    else
      var (s', v) := (calls[f.pc].last)(f.s);
      if v.Stop? then Stopped(s', v.error) else Advance(calls, Fut(f.pc + 1, 0, false, s'), ready)
  }

  /** One turn of the loop: past a pending await, up to the next await, or over to the next node. */
  lemma Advances<S, E>(calls: seq<Call<S, E>>, f: Fut<S>, ready: nat)
    requires ValidFut(calls, f) && f.pc < |calls|
    ensures f.waiting && ready > 0 ==>
      Advance(calls, f, ready) == Advance(calls, f.(waiting := false), ready - 1)
    ensures !f.waiting && f.seg < |calls[f.pc].segments| ==>
      Advance(calls, f, ready) == Advance(calls, Fut(f.pc, f.seg + 1, true, calls[f.pc].segments[f.seg](f.s)), ready)
    ensures !f.waiting && f.seg == |calls[f.pc].segments| && (calls[f.pc].last)(f.s).1.Go? ==>
      Advance(calls, f, ready) == Advance(calls, Fut(f.pc + 1, 0, false, (calls[f.pc].last)(f.s).0), ready)
  {
  }

  function Calls<S, E>(nodes: seq<Node<S, E>>): (calls: seq<Call<S, E>>)
    ensures |calls| == |nodes|
    ensures forall i :: 0 <= i < |nodes| ==> calls[i] == nodes[i].call
  {
    seq(|nodes|, i requires 0 <= i < |nodes| => nodes[i].call)
  }

  datatype Poll<+S, +E> = Pending(f: Fut<S>) | Ready(s: S, v: Verdict<E>)

  function PollOnce<S, E>(nodes: seq<Node<S, E>>, core: Core<S, E>, f: Fut<S>, ready: nat): (r: Poll<S, E>)
    requires ValidFut(Calls(nodes), f)
    ensures r.Pending? ==> ValidFut(Calls(nodes), r.f)
  {
    match Advance(Calls(nodes), f, ready)
    case Suspended(f') => Pending(f')
    case Stopped(s, e) => Ready(s, Stop(e))
    case Through(s) =>
      var (s', v) := core(s);
      if v.Stop? then Ready(s', v) else Ready(Exits(Effects(nodes), s'), Go)
  }

  function Start<S>(s: S): Fut<S> {
    Fut(0, 0, false, s)
  }

  /** Polling with each of the given readiness patterns until the future is done. */
  function Drive<S, E>(nodes: seq<Node<S, E>>, core: Core<S, E>, f: Fut<S>, polls: seq<nat>): (r: Poll<S, E>)
    requires ValidFut(Calls(nodes), f)
    ensures r.Pending? ==> ValidFut(Calls(nodes), r.f)
    decreases |polls|
  {
    if polls == [] then Pending(f)
    else
      var p := PollOnce(nodes, core, f, polls[0]);
      if p.Ready? then p else Drive(nodes, core, p.f, polls[1..])
  }

  /** The compiled `exec` as an object: one poll runs from await to await, changing it in place. */
  class ExecFuture<S, E> {
    const nodes: seq<Node<S, E>>
    var pc: nat
    var seg: nat
    var waiting: bool
    var s: S

    function State(): Fut<S>
      reads this
    {
      Fut(pc, seg, waiting, s)
    }

    constructor (nodes: seq<Node<S, E>>, s: S)
      ensures this.nodes == nodes && State() == Start(s)
    {
      this.nodes := nodes;
      pc, seg, waiting, this.s := 0, 0, false, s;
    }

    /** Runs enters until an await is pending (`None`), a node stops, or all are through. */
    method Enters(ready: nat) returns (r: Option<Verdict<E>>)
      requires ValidFut(Calls(nodes), State())
      modifies this
      ensures match Advance(Calls(nodes), old(State()), ready)
              case Suspended(f) => r == None && State() == f
              case Stopped(t, e) => r == Some(Stop(e)) && s == t
              case Through(t) => r == Some(Go) && s == t
    {
      ghost var calls := Calls(nodes);
      ghost var p0 := Advance(calls, State(), ready);
      var left := ready;
      while pc < |nodes|
        invariant ValidFut(calls, State())
        invariant Advance(calls, State(), left) == p0
        decreases |nodes| - pc,
                  if pc < |nodes| then |nodes[pc].call.segments| - seg else 0,
                  if waiting then 1 else 0
      {
        Advances(calls, State(), left);
        assert nodes[pc].call == calls[pc];
        if waiting {
          if left == 0 {
            return None;
          }
          left := left - 1;
          waiting := false;
        } else if seg < |nodes[pc].call.segments| {
          s := nodes[pc].call.segments[seg](s);
          seg := seg + 1;
          waiting := true;
        } else {
          var out := (nodes[pc].call.last)(s);
          s := out.0;
          if out.1.Stop? {
            return Some(out.1);
          }
          pc, seg, waiting := pc + 1, 0, false;
        }
      }
      r := Some(Go);
    }

    method Exits()
      modifies this`s
      ensures s == Onion.Exits(Effects(nodes), old(s))
    {
      ghost var hooks, s0 := Effects(nodes), s;
      assert hooks[..|nodes|] == hooks;
      for i := |nodes| downto 0
        invariant Onion.Exits(hooks[..i], s) == Onion.Exits(hooks, s0)
      {
        assert hooks[..i + 1][..i] == hooks[..i] && hooks[..i + 1][i] == hooks[i];
        s := (nodes[i].exit)(s);
      }
    }

    method Poll(core: Core<S, E>, ready: nat) returns (r: Option<Verdict<E>>)
      requires ValidFut(Calls(nodes), State())
      modifies this
      ensures var p := PollOnce(nodes, core, old(State()), ready);
              if p.Pending? then r == None && State() == p.f
              else r == Some(p.v) && s == p.s
    {
      r := Enters(ready);
      if r == Some(Go) {
        var out := core(s);
        s := out.0;
        r := Some(out.1);
        if out.1.Go? {
          Exits();
        }
      }
    }
  }

  // ---- polling computes the synchronous onion ----

  /** The enters still to come, run straight through. */
  function Remaining<S, E>(calls: seq<Call<S, E>>, f: Fut<S>): (S, Verdict<E>)
    requires ValidFut(calls, f)
    decreases |calls| - f.pc, if f.pc < |calls| then |calls[f.pc].segments| - f.seg else 0
  {
    if f.pc == |calls| then (f.s, Go)
    else if f.seg < |calls[f.pc].segments| then
      Remaining(calls, Fut(f.pc, f.seg + 1, false, calls[f.pc].segments[f.seg](f.s)))
    else
      var (s', v) := (calls[f.pc].last)(f.s);
      if v.Stop? then (s', v) else Remaining(calls, Fut(f.pc + 1, 0, false, s'))
  }

  lemma RemainingIgnoresWaiting<S, E>(calls: seq<Call<S, E>>, f: Fut<S>)
    requires ValidFut(calls, f)
    ensures Remaining(calls, f) == Remaining(calls, f.(waiting := false))
  {
  }

  lemma {:induction false} AdvanceKeepsRemaining<S, E>(calls: seq<Call<S, E>>, f: Fut<S>, ready: nat)
    requires ValidFut(calls, f)
    ensures match Advance(calls, f, ready)
            case Suspended(f') => Remaining(calls, f') == Remaining(calls, f)
            case Stopped(s, e) => Remaining(calls, f) == (s, Stop(e))
            case Through(s) => Remaining(calls, f) == (s, Go)
    decreases |calls| - f.pc, if f.pc < |calls| then |calls[f.pc].segments| - f.seg else 0, if f.waiting then 1 else 0
  {
    if f.pc < |calls| {
      if f.waiting {
        if ready > 0 {
          AdvanceKeepsRemaining(calls, f.(waiting := false), ready - 1);
        }
      } else if f.seg < |calls[f.pc].segments| {
        var f' := Fut(f.pc, f.seg + 1, true, calls[f.pc].segments[f.seg](f.s));
        RemainingIgnoresWaiting(calls, f');
        AdvanceKeepsRemaining(calls, f', ready);
      } else {
        var (s', v) := (calls[f.pc].last)(f.s);
        if v.Go? {
          AdvanceKeepsRemaining(calls, Fut(f.pc + 1, 0, false, s'), ready);
        }
      }
    }
  }

  lemma {:induction false} SegmentsThenLast<S, E>(calls: seq<Call<S, E>>, f: Fut<S>)
    requires ValidFut(calls, f) && f.pc < |calls| && !f.waiting
    ensures var (s', v) := (calls[f.pc].last)(RunSegments(calls[f.pc].segments[f.seg..], f.s));
            Remaining(calls, f) == if v.Stop? then (s', v) else Remaining(calls, Fut(f.pc + 1, 0, false, s'))
    decreases |calls[f.pc].segments| - f.seg
  {
    var segments := calls[f.pc].segments;
    if f.seg < |segments| {
      assert segments[f.seg..][0] == segments[f.seg] && segments[f.seg..][1..] == segments[f.seg + 1..];
      SegmentsThenLast(calls, Fut(f.pc, f.seg + 1, false, segments[f.seg](f.s)));
    }
  }

  lemma {:induction false} RemainingIsEnters<S, E>(nodes: seq<Node<S, E>>, pc: nat, s: S)
    requires pc <= |nodes|
    ensures Remaining(Calls(nodes), Fut(pc, 0, false, s)) == Enters(Effects(nodes)[pc..], s)
    decreases |nodes| - pc
  {
    if pc < |nodes| {
      var hooks := Effects(nodes);
      assert hooks[pc..][0] == hooks[pc] && hooks[pc..][1..] == hooks[pc + 1..];
      SegmentsThenLast(Calls(nodes), Fut(pc, 0, false, s));
      assert nodes[pc].call.segments[0..] == nodes[pc].call.segments;
      var (s', v) := hooks[pc].enter(s);
      RemainingIsEnters(nodes, pc + 1, s');
    }
  }

  /** What a future would give if every await were ready at once. */
  function Completed<S, E>(nodes: seq<Node<S, E>>, core: Core<S, E>, f: Fut<S>): (S, Verdict<E>)
    requires ValidFut(Calls(nodes), f)
  {
    var (s1, v1) := Remaining(Calls(nodes), f);
    if v1.Stop? then (s1, v1)
    else
      var (s2, v2) := core(s1);
      if v2.Stop? then (s2, v2) else (Exits(Effects(nodes), s2), Go)
  }

  lemma {:induction false} DriveCompletes<S, E>(nodes: seq<Node<S, E>>, core: Core<S, E>, f: Fut<S>, polls: seq<nat>)
    requires ValidFut(Calls(nodes), f)
    ensures match Drive(nodes, core, f, polls)
            case Pending(f') => Completed(nodes, core, f') == Completed(nodes, core, f)
            case Ready(s, v) => Completed(nodes, core, f) == (s, v)
    decreases |polls|
  {
    if polls != [] {
      AdvanceKeepsRemaining(Calls(nodes), f, polls[0]);
      var p := PollOnce(nodes, core, f, polls[0]);
      if p.Pending? {
        DriveCompletes(nodes, core, p.f, polls[1..]);
      }
    }
  }

  /**
   Whatever the pattern of pending polls: if the future gets ready, state and verdict are those of
   the synchronous onion with each async node replaced by its effect.
   */
  lemma AsyncRefinesSync<S, E>(nodes: seq<Node<S, E>>, core: Core<S, E>, s: S, polls: seq<nat>)
    requires Drive(nodes, core, Start(s), polls).Ready?
    ensures var p := Drive(nodes, core, Start(s), polls);
            (p.s, p.v) == Run(Effects(nodes), core, s)
  {
    DriveCompletes(nodes, core, Start(s), polls);
    RemainingIsEnters(nodes, 0, s);
    assert Effects(nodes)[0..] == Effects(nodes);
  }

  // ---- at a pending point ----

  /** The enters up to segment `seg` of node `pc`, nothing else. */
  function PartialEnters<S, E>(calls: seq<Call<S, E>>, pc: nat, seg: nat, s: S): S
    requires pc <= |calls| && (if pc < |calls| then seg <= |calls[pc].segments| else seg == 0)
    decreases pc, seg
  {
    if seg > 0 then calls[pc].segments[seg - 1](PartialEnters(calls, pc, seg - 1, s))
    else if pc > 0 then
      (calls[pc - 1].last)(PartialEnters(calls, pc - 1, |calls[pc - 1].segments|, s)).0
    else s
  }

  ghost predicate EntersOnly<S, E>(calls: seq<Call<S, E>>, f: Fut<S>, s: S) {
    ValidFut(calls, f) && f.s == PartialEnters(calls, f.pc, f.seg, s)
  }

  lemma {:induction false} AdvanceEntersOnly<S, E>(calls: seq<Call<S, E>>, f: Fut<S>, ready: nat, s: S)
    requires EntersOnly(calls, f, s)
    ensures var p := Advance(calls, f, ready);
            p.Suspended? ==> EntersOnly(calls, p.f, s)
    decreases |calls| - f.pc, if f.pc < |calls| then |calls[f.pc].segments| - f.seg else 0, if f.waiting then 1 else 0
  {
    if f.pc < |calls| {
      if f.waiting {
        if ready > 0 {
          AdvanceEntersOnly(calls, f.(waiting := false), ready - 1, s);
        }
      } else if f.seg < |calls[f.pc].segments| {
        AdvanceEntersOnly(calls, Fut(f.pc, f.seg + 1, true, calls[f.pc].segments[f.seg](f.s)), ready, s);
      } else {
        var (s', v) := (calls[f.pc].last)(f.s);
        if v.Go? {
          AdvanceEntersOnly(calls, Fut(f.pc + 1, 0, false, s'), ready, s);
        }
      }
    }
  }

  // ---- racing a timer ----

  /** One wake-up of the race: how far the future gets, whether the timer is due, who is polled first. */
  datatype Wake = Wake(ready: nat, due: bool, timerFirst: bool)

  datatype TimeoutError<+E> = Chain(error: E) | TimedOut

  datatype Race<+S, +E> = Racing(f: Fut<S>) | Finished(s: S, r: Result<(), TimeoutError<E>>)

  function OfVerdict<E>(v: Verdict<E>): Result<(), TimeoutError<E>> {
    if v.Stop? then Err(Chain(v.error)) else Ok(())
  }

  /** `exec_timeout`: a timer that wins drops the future where it is suspended. */
  function Timeout<S, E>(nodes: seq<Node<S, E>>, core: Core<S, E>, f: Fut<S>, wakes: seq<Wake>): Race<S, E>
    requires ValidFut(Calls(nodes), f)
    decreases |wakes|
  {
    if wakes == [] then Racing(f)
    else if wakes[0].due && wakes[0].timerFirst then Finished(f.s, Err(TimedOut))
    else
      var p := PollOnce(nodes, core, f, wakes[0].ready);
      if p.Ready? then Finished(p.s, OfVerdict(p.v))
      else if wakes[0].due then Finished(p.f.s, Err(TimedOut))
      else Timeout(nodes, core, p.f, wakes[1..])
  }

  lemma {:induction false} TimeoutInvariant<S, E>(
    nodes: seq<Node<S, E>>, core: Core<S, E>, f: Fut<S>, wakes: seq<Wake>, s: S)
    returns (at: Fut<S>)
    requires EntersOnly(Calls(nodes), f, s)
    ensures match Timeout(nodes, core, f, wakes)
            case Racing(f') => EntersOnly(Calls(nodes), f', s)
            case Finished(t, r) =>
              if r == Err(TimedOut) then EntersOnly(Calls(nodes), at, s) && t == at.s
              else Completed(nodes, core, f) == (t, if r.Ok? then Go else Stop(r.error.error))
    decreases |wakes|
  {
    at := f;
    if wakes != [] && !(wakes[0].due && wakes[0].timerFirst) {
      AdvanceEntersOnly(Calls(nodes), f, wakes[0].ready, s);
      AdvanceKeepsRemaining(Calls(nodes), f, wakes[0].ready);
      var p := PollOnce(nodes, core, f, wakes[0].ready);
      if p.Pending? {
        at := p.f;
        if !wakes[0].due {
          at := TimeoutInvariant(nodes, core, p.f, wakes[1..], s);
        }
      }
    }
  }

  /**
   A race that ends in a timeout leaves a state that only enters have touched, up to some await:
   the core and every exit never ran. A race that ends otherwise is the synchronous run.
   */
  lemma TimeoutMeansNoCore<S, E>(nodes: seq<Node<S, E>>, core: Core<S, E>, s: S, wakes: seq<Wake>)
    returns (at: Fut<S>)
    requires Timeout(nodes, core, Start(s), wakes).Finished?
    ensures var race := Timeout(nodes, core, Start(s), wakes);
            if race.r == Err(TimedOut) then
              ValidFut(Calls(nodes), at) && race.s == PartialEnters(Calls(nodes), at.pc, at.seg, s)
            else
              Run(Effects(nodes), core, s) == (race.s, if race.r.Ok? then Go else Stop(race.r.error.error))
  {
    at := TimeoutInvariant(nodes, core, Start(s), wakes, s);
    RemainingIsEnters(nodes, 0, s);
    assert Effects(nodes)[0..] == Effects(nodes);
  }

  // ---- who wins ----

  /** How far the future gets at each of these wake-ups. */
  function Readies(wakes: seq<Wake>): (polls: seq<nat>)
    ensures |polls| == |wakes|
    ensures forall i :: 0 <= i < |wakes| ==> polls[i] == wakes[i].ready
  {
    seq(|wakes|, i requires 0 <= i < |wakes| => wakes[i].ready)
  }

  /** The timer is first due at wake-up k, or, for k = |wakes|, at none. */
  predicate FirstDue(wakes: seq<Wake>, k: nat) {
    && k <= |wakes| && (k < |wakes| ==> wakes[k].due)
    && forall i :: 0 <= i < k ==> !wakes[i].due
  }

  /** The polls the race has time for: all before the timer is due, and one more if the chain is then polled first. */
  function InTime(wakes: seq<Wake>, k: nat): seq<nat>
    requires k <= |wakes|
  {
    Readies(wakes[..k]) + (if k < |wakes| && !wakes[k].timerFirst then [wakes[k].ready] else [])
  }

  /**
   The race is decided by those polls alone. If the future, driven with them, gets ready, the race ends with its
   state and verdict; if not, it ends in a timeout with the state the last of them left, once the timer is due.
   */
  lemma {:induction false} RaceIsDecided<S, E>(
    nodes: seq<Node<S, E>>, core: Core<S, E>, f: Fut<S>, wakes: seq<Wake>, k: nat)
    requires ValidFut(Calls(nodes), f) && FirstDue(wakes, k)
    ensures match Drive(nodes, core, f, InTime(wakes, k))
            case Ready(s, v) => Timeout(nodes, core, f, wakes) == Finished(s, OfVerdict(v))
            case Pending(f') =>
              Timeout(nodes, core, f, wakes) == if k < |wakes| then Finished(f'.s, Err(TimedOut)) else Racing(f')
    decreases |wakes|
  {
    var polls := InTime(wakes, k);
    if wakes != [] {
      var p := PollOnce(nodes, core, f, wakes[0].ready);
      if k == 0 {
        assert Readies(wakes[..0]) == [];
        if !wakes[0].timerFirst {
          assert polls == [wakes[0].ready] && polls[1..] == [];
        }
      } else {
        var rest := wakes[1..];
        assert wakes[..k][1..] == rest[..k - 1];
        assert Readies(wakes[..k]) == [wakes[0].ready] + Readies(rest[..k - 1]);
        assert polls[0] == wakes[0].ready && polls[1..] == InTime(rest, k - 1);
        if p.Pending? {
          RaceIsDecided(nodes, core, p.f, rest, k - 1);
        }
      }
    }
  }

  /** Where the timer is first due. */
  function DueAt(wakes: seq<Wake>): (k: nat)
    ensures FirstDue(wakes, k)
  {
    if wakes == [] || wakes[0].due then 0 else DueAt(wakes[1..]) + 1
  }

  /** A race times out iff the timer comes due and no poll before it gets the future ready. */
  lemma TimesOutIff<S, E>(nodes: seq<Node<S, E>>, core: Core<S, E>, s: S, wakes: seq<Wake>)
    ensures var race := Timeout(nodes, core, Start(s), wakes);
      (race.Finished? && race.r == Err(TimedOut))
      <==> DueAt(wakes) < |wakes| && Drive(nodes, core, Start(s), InTime(wakes, DueAt(wakes))).Pending?
  {
    RaceIsDecided(nodes, core, Start(s), wakes, DueAt(wakes));
  }
}
