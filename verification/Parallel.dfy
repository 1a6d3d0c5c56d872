/**
 Parallel execution: one thread per request over one snapshot of the chain, interleaved hook by
 hook, and the results joined in the order of the requests.
 */
module Parallel {
  import opened Wrappers
  import opened Onion
  import RateLimit

  /** A thread between two hooks. */
  datatype Thread<+S, +E> = Entering(i: nat, s: S) | Exiting(i: nat, s: S) | Done(s: S, v: Verdict<E>)

  predicate ValidThread<S, E>(hooks: seq<Hook<S, E>>, t: Thread<S, E>) {
    t.Done? || t.i <= |hooks|
  }

  function Step<S, E>(hooks: seq<Hook<S, E>>, core: S -> (S, Verdict<E>), t: Thread<S, E>): (r: Thread<S, E>)
    requires ValidThread(hooks, t)
    ensures ValidThread(hooks, r)
  {
    match t
    case Done(_, _) => t
    case Entering(i, s) =>
      var (s', v) := if i < |hooks| then hooks[i].enter(s) else core(s);
      if v.Stop? then Done(s', v) else if i < |hooks| then Entering(i + 1, s') else Exiting(i, s')
    case Exiting(i, s) =>
      if i == 0 then Done(s, Go) else Exiting(i - 1, hooks[i - 1].exit(s))
  }

  /** Where the thread ends if it is left alone. */
  function Finish<S, E>(hooks: seq<Hook<S, E>>, core: S -> (S, Verdict<E>), t: Thread<S, E>): (S, Verdict<E>)
    requires ValidThread(hooks, t)
  {
    match t
    case Done(s, v) => (s, v)
    case Exiting(i, s) => (Exits(hooks[..i], s), Go)
    case Entering(i, s) =>
      var (s1, v1) := Enters(hooks[i..], s);
      if v1.Stop? then (s1, v1)
      else
        var (s2, v2) := core(s1);
        if v2.Stop? then (s2, v2) else (Exits(hooks, s2), Go)
  }

  lemma StepKeepsFinish<S, E>(hooks: seq<Hook<S, E>>, core: S -> (S, Verdict<E>), t: Thread<S, E>)
    requires ValidThread(hooks, t)
    ensures Finish(hooks, core, Step(hooks, core, t)) == Finish(hooks, core, t)
  {
    if t.Entering? {
      assert hooks[..|hooks|] == hooks;
      if t.i < |hooks| {
        assert hooks[t.i..][0] == hooks[t.i] && hooks[t.i..][1..] == hooks[t.i + 1..];
      }
    } else if t.Exiting? && t.i > 0 {
      assert hooks[..t.i][..t.i - 1] == hooks[..t.i - 1];
    }
  }

  /** Lets the threads named by the schedule step, one after the other. */
  function Interleave<S, E>(
    hooks: seq<Hook<S, E>>, core: S -> (S, Verdict<E>), ts: seq<Thread<S, E>>, schedule: seq<nat>):
    (r: seq<Thread<S, E>>)
    requires forall i :: 0 <= i < |ts| ==> ValidThread(hooks, ts[i])
    ensures |r| == |ts|
    ensures forall i :: 0 <= i < |ts| ==> ValidThread(hooks, r[i])
    decreases |schedule|
  {
    if schedule == [] then ts
    else
      var k := schedule[0];
      var ts' := if k < |ts| then ts[k := Step(hooks, core, ts[k])] else ts;
      Interleave(hooks, core, ts', schedule[1..])
  }

  lemma {:induction false} InterleaveKeepsFinish<S, E>(
    hooks: seq<Hook<S, E>>, core: S -> (S, Verdict<E>), ts: seq<Thread<S, E>>, schedule: seq<nat>, i: nat)
    requires forall j :: 0 <= j < |ts| ==> ValidThread(hooks, ts[j])
    requires i < |ts|
    ensures Finish(hooks, core, Interleave(hooks, core, ts, schedule)[i]) == Finish(hooks, core, ts[i])
    decreases |schedule|
  {
    if schedule != [] {
      var k := schedule[0];
      if k < |ts| {
        StepKeepsFinish(hooks, core, ts[k]);
      }
      InterleaveKeepsFinish(hooks, core, if k < |ts| then ts[k := Step(hooks, core, ts[k])] else ts, schedule[1..], i);
    }
  }

  function Spawn<S, E>(inputs: seq<S>): (ts: seq<Thread<S, E>>)
    ensures |ts| == |inputs|
    ensures forall i :: 0 <= i < |inputs| ==> ts[i] == Entering(0, inputs[i])
  {
    seq(|inputs|, i requires 0 <= i < |inputs| => Entering(0, inputs[i]))
  }

  /**
   With middleware that keeps no shared state, every schedule that finishes all threads gives each
   request what running it alone gives.
   */
  lemma ScheduleIndependent<S, E>(
    hooks: seq<Hook<S, E>>, core: S -> (S, Verdict<E>), inputs: seq<S>, schedule: seq<nat>)
    requires forall i :: 0 <= i < |inputs| ==> Interleave(hooks, core, Spawn(inputs), schedule)[i].Done?
    ensures forall i :: 0 <= i < |inputs| ==>
              var t := Interleave(hooks, core, Spawn(inputs), schedule)[i];
              (t.s, t.v) == Run(hooks, core, inputs[i])
  {
    forall i | 0 <= i < |inputs|
      ensures var t := Interleave(hooks, core, Spawn(inputs), schedule)[i];
              (t.s, t.v) == Run(hooks, core, inputs[i])
    {
      InterleaveKeepsFinish(hooks, core, Spawn(inputs), schedule, i);
      assert hooks[0..] == hooks;
    }
  }

  /** Joining the threads in order: all values, or the error of the first request that failed. */
  method Join<T, E>(joined: seq<Result<T, E>>) returns (r: Result<seq<T>, E>)
    ensures r.Ok? ==> |r.value| == |joined| && forall i :: 0 <= i < |joined| ==> joined[i] == Ok(r.value[i])
    ensures r.Err? ==> exists k :: 0 <= k < |joined| && joined[k] == Err(r.error)
                                   && forall i :: 0 <= i < k ==> joined[i].Ok?
  {
    var results := [];
    for k := 0 to |joined|
      invariant |results| == k
      invariant forall i :: 0 <= i < k ==> joined[i] == Ok(results[i])
    {
      if joined[k].Err? {
        return Err(joined[k].error);
      }
      results := results + [joined[k].value];
    }
    r := Ok(results);
  }

  /** What a finished thread hands to its joiner. */
  function Handed<S, T, E>(value: S -> T, end: (S, Verdict<E>)): Result<T, E> {
    if end.1.Stop? then Err(end.1.error) else Ok(value(end.0))
  }

  /**
   `exec_parallel`: spawn, let the schedule run until all are done, join. Whatever the schedule, the
   result is the sequential map in request order, or the error of the first request that fails alone.
   */
  method ExecParallel<S, T, E>(
    hooks: seq<Hook<S, E>>, core: S -> (S, Verdict<E>), value: S -> T, inputs: seq<S>, schedule: seq<nat>)
    returns (r: Result<seq<T>, E>)
    requires forall i :: 0 <= i < |inputs| ==> Interleave(hooks, core, Spawn(inputs), schedule)[i].Done?
    ensures r.Ok? ==> |r.value| == |inputs| && forall i :: 0 <= i < |inputs| ==>
                        Run(hooks, core, inputs[i]).1 == Go && r.value[i] == value(Run(hooks, core, inputs[i]).0)
    ensures r.Err? ==> exists k :: 0 <= k < |inputs| && Run(hooks, core, inputs[k]).1 == Stop(r.error)
                                   && forall i :: 0 <= i < k ==> Run(hooks, core, inputs[i]).1 == Go
  {
    var ts := Interleave(hooks, core, Spawn(inputs), schedule);
    ScheduleIndependent(hooks, core, inputs, schedule);
    var joined: seq<Result<T, E>> := [];
    for i := 0 to |ts|
      invariant |joined| == i
      invariant forall j :: 0 <= j < i ==> joined[j] == Handed(value, Run(hooks, core, inputs[j]))
    {
      joined := joined + [Handed(value, (ts[i].s, ts[i].v))];
    }
    r := Join(joined);
  }

  // ---- one limiter shared by all threads ----

  datatype Turn = Waiting | Passed | Refused

  /** The limiter's lock makes each entry one step; `order` says who enters when. */
  function Contend(w: RateLimit.Window, limit: nat, length: int, turns: seq<Turn>, order: seq<(nat, int)>):
    (RateLimit.Window, seq<Turn>)
    decreases |order|
  {
    if order == [] then (w, turns)
    else
      var (k, now) := order[0];
      if k < |turns| && turns[k].Waiting? then
        var (w', ok) := RateLimit.Enter(w, limit, length, now);
        Contend(w', limit, length, turns[k := if ok then Passed else Refused], order[1..])
      else Contend(w, limit, length, turns, order[1..])
  }

  function HowMany(turns: seq<Turn>, t: Turn): nat {
    if turns == [] then 0 else (if turns[0] == t then 1 else 0) + HowMany(turns[1..], t)
  }

  lemma {:induction false} HowManyUpdate(turns: seq<Turn>, k: nat, v: Turn, t: Turn)
    requires k < |turns|
    ensures HowMany(turns[k := v], t)
         == HowMany(turns, t) - (if turns[k] == t then 1 else 0) + (if v == t then 1 else 0)
  {
    if k == 0 {
      assert turns[0 := v][1..] == turns[1..];
    } else {
      assert turns[k := v][1..] == turns[1..][k - 1 := v];
      HowManyUpdate(turns[1..], k - 1, v, t);
    }
  }

  lemma {:induction false} HowManyTotal(turns: seq<Turn>)
    ensures HowMany(turns, Waiting) + HowMany(turns, Passed) + HowMany(turns, Refused) == |turns|
  {
    if turns != [] {
      HowManyTotal(turns[1..]);
    }
  }

  predicate InsideWindow(w: RateLimit.Window, length: int, order: seq<(nat, int)>) {
    forall i :: 0 <= i < |order| ==> order[i].1 - w.start <= length
  }

  lemma {:induction false} ContendInvariant(
    w: RateLimit.Window, limit: nat, length: int, turns: seq<Turn>, order: seq<(nat, int)>, count0: nat)
    requires InsideWindow(w, length, order)
    requires w.count == count0 + HowMany(turns, Passed)
    requires w.count <= Max(limit, count0)
    requires HowMany(turns, Refused) > 0 ==> w.count >= limit
    ensures var (w', turns') := Contend(w, limit, length, turns, order);
            && w'.count == count0 + HowMany(turns', Passed) <= Max(limit, count0)
            && (HowMany(turns', Refused) > 0 ==> w'.count >= limit)
            && |turns'| == |turns|
    decreases |order|
  {
    if order != [] {
      var (k, now) := order[0];
      if k < |turns| && turns[k].Waiting? {
        var (w', ok) := RateLimit.Enter(w, limit, length, now);
        var v := if ok then Passed else Refused;
        HowManyUpdate(turns, k, v, Passed);
        HowManyUpdate(turns, k, v, Refused);
        ContendInvariant(w', limit, length, turns[k := v], order[1..], count0);
      } else {
        ContendInvariant(w, limit, length, turns, order[1..], count0);
      }
    }
  }

  function AllWaiting(n: nat): (turns: seq<Turn>)
    ensures |turns| == n && HowMany(turns, Passed) == 0 == HowMany(turns, Refused)
  {
    if n == 0 then [] else [Waiting] + AllWaiting(n - 1)
  }

  /**
   n requests race for one limiter inside a single window: whatever the order in which they get
   there, exactly min(n, limit - count) of them pass.
   */
  lemma ExactlyTheRestPass(w: RateLimit.Window, limit: nat, length: int, n: nat, order: seq<(nat, int)>)
    requires InsideWindow(w, length, order) && w.count <= limit
    requires HowMany(Contend(w, limit, length, AllWaiting(n), order).1, Waiting) == 0
    ensures HowMany(Contend(w, limit, length, AllWaiting(n), order).1, Passed) == Min(n, limit - w.count)
  {
    ContendInvariant(w, limit, length, AllWaiting(n), order, w.count);
    HowManyTotal(Contend(w, limit, length, AllWaiting(n), order).1);
  }
}
