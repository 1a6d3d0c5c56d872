/**
 Timeout with rollback, and retry with a timeout per attempt. The request is cloned before it is
 risked; state that middlewares share is not rolled back.
 */
module AsyncRecovery {
  import opened Wrappers
  import opened Onion
  import opened Opaque
  import opened A = AsyncChain

  type Chain<!R, !W, !E> = seq<A.Node<Env<R, W>, E>>

  type Outcome<+E> = Result<(), TimeoutError<E>>

  /** `exec_timeout` as a loop over the wake-ups of the race; `None` when still racing. */
  method RunTimeout<R, W, E>(
    nodes: Chain<R, W, E>, core: A.Core<Env<R, W>, E>, cell: RequestCell<R>, shared: W, wakes: seq<Wake>)
    returns (r: Option<Outcome<E>>, shared': W)
    modifies cell
    ensures match Timeout(nodes, core, Start(old(Env(cell.req, shared))), wakes)
            case Racing(f) => r == None && Env(cell.req, shared') == f.s
            case Finished(t, out) => r == Some(out) && Env(cell.req, shared') == t
  {
    ghost var race := Timeout(nodes, core, Start(Env(cell.req, shared)), wakes);
    var fut := new ExecFuture(nodes, Env(cell.req, shared));
    var i := 0;
    r := None;
    while i < |wakes|
      invariant 0 <= i <= |wakes|
      invariant fut.nodes == nodes && ValidFut(Calls(nodes), fut.State()) && fresh(fut)
      invariant r == None && Timeout(nodes, core, fut.State(), wakes[i..]) == race
    {
      assert wakes[i..][0] == wakes[i] && wakes[i..][1..] == wakes[i + 1..];
      if wakes[i].due && wakes[i].timerFirst {
        r := Some(Err(TimedOut));
        break;
      }
      var p := fut.Poll(core, wakes[i].ready);
      if p.Some? {
        r := Some(OfVerdict(p.value));
        break;
      }
      if wakes[i].due {
        r := Some(Err(TimedOut));
        break;
      }
      i := i + 1;
    }
    cell.req, shared' := fut.s.req, fut.s.shared;
  }

  /** What `exec_timeout_rollback` makes of a finished race: any error restores the request. */
  function RolledBack<R, W, E>(before: Env<R, W>, after: Env<R, W>, r: Outcome<E>): Env<R, W> {
    if r.Ok? then after else Env(before.req, after.shared)
  }

  method RunTimeoutRollback<R, W, E>(
    nodes: Chain<R, W, E>, core: A.Core<Env<R, W>, E>, cell: RequestCell<R>, shared: W, wakes: seq<Wake>)
    returns (r: Option<Outcome<E>>, shared': W)
    modifies cell
    ensures match Timeout(nodes, core, Start(old(Env(cell.req, shared))), wakes)
            case Racing(f) => r == None
            case Finished(t, out) =>
              r == Some(out) && Env(cell.req, shared') == RolledBack(old(Env(cell.req, shared)), t, out)
  {
    var snapshot := cell.req;
    r, shared' := RunTimeout(nodes, core, cell, shared, wakes);
    if r.Some? && r.value.Err? {
      cell.req := snapshot;
    }
  }

  /**
   With rollback, an error of either kind leaves the request as it was; success leaves exactly what
   the synchronous chain makes of it.
   */
  lemma RollbackIsAtomic<R, W, E>(nodes: Chain<R, W, E>, core: A.Core<Env<R, W>, E>, s: Env<R, W>, wakes: seq<Wake>)
    requires Timeout(nodes, core, Start(s), wakes).Finished?
    ensures var race := Timeout(nodes, core, Start(s), wakes);
            var t := RolledBack(s, race.s, race.r);
            && t.shared == race.s.shared
            && (race.r.Err? ==> t.req == s.req)
            && (race.r.Ok? ==> Run(Effects(nodes), core, s) == (t, Go))
            && (race.r.Err? && race.r.error.Chain? ==> Run(Effects(nodes), core, s).1 == Stop(race.r.error.error))
  {
    var at := TimeoutMeansNoCore(nodes, core, s, wakes);
  }

  /** The timer comes due at some wake-up. */
  predicate TimerFires(wakes: seq<Wake>) {
    wakes != [] && (wakes[0].due || TimerFires(wakes[1..]))
  }

  /** A race whose timer comes due ends, even if the chain never does. */
  lemma {:induction false} DueTimerEnds<R, W, E>(
    nodes: Chain<R, W, E>, core: A.Core<Env<R, W>, E>, f: Fut<Env<R, W>>, wakes: seq<Wake>)
    requires ValidFut(Calls(nodes), f) && TimerFires(wakes)
    ensures Timeout(nodes, core, f, wakes).Finished?
    decreases |wakes|
  {
    if !wakes[0].due {
      var p := PollOnce(nodes, core, f, wakes[0].ready);
      if p.Pending? {
        DueTimerEnds(nodes, core, p.f, wakes[1..]);
      }
    }
  }

  /** What a race amounts to; one still undecided counts as timed out. */
  function Raced<R, W, E>(
    nodes: Chain<R, W, E>, core: A.Core<Env<R, W>, E>, wakes: seq<Wake>, s: Env<R, W>): (Env<R, W>, Outcome<E>)
  {
    match Timeout(nodes, core, Start(s), wakes)
    case Racing(f) => (f.s, Err(TimedOut))
    case Finished(t, r) => (t, r)
  }

  lemma RacedOkIsRun<R, W, E>(nodes: Chain<R, W, E>, core: A.Core<Env<R, W>, E>, wakes: seq<Wake>, s: Env<R, W>)
    requires TimerFires(wakes) && Raced(nodes, core, wakes, s).1.Ok?
    ensures Run(Effects(nodes), core, s) == (Raced(nodes, core, wakes, s).0, Go)
  {
    DueTimerEnds(nodes, core, Start(s), wakes);
    RollbackIsAtomic(nodes, core, s, wakes);
  }

  /** The i-th attempt of `exec_retry_timeout` races the i-th schedule. */
  function TimedAttempt<R, W, E>(
    nodes: Chain<R, W, E>, core: A.Core<Env<R, W>, E>, schedule: nat -> seq<Wake>): Attempt<R, W, (), TimeoutError<E>>
  {
    (i: nat, s: Env<R, W>) => Raced(nodes, core, schedule(i), s)
  }

  /** One attempt: the race runs on a clone, and only a success is written back. */
  method TimedTry<R, W, E>(
    nodes: Chain<R, W, E>, core: A.Core<Env<R, W>, E>, wakes: seq<Wake>, cell: RequestCell<R>, shared: W)
    returns (r: Outcome<E>, shared': W)
    requires TimerFires(wakes)
    modifies cell
    ensures var race := Raced(nodes, core, wakes, old(Env(cell.req, shared)));
      && r == race.1 && shared' == race.0.shared
      && cell.req == if r.Ok? then race.0.req else old(cell.req)
  {
    DueTimerEnds(nodes, core, Start(Env(cell.req, shared)), wakes);
    var clone := new RequestCell(cell.req);
    var got;
    got, shared' := RunTimeout(nodes, core, clone, shared, wakes);
    r := got.value;
    if r.Ok? {
      cell.req := clone.req;
    }
  }

  /** `exec_retry_timeout`: every attempt races its own timer on a clone, and only a success is written back. */
  method RunRetryTimeout<R, W, E>(
    nodes: Chain<R, W, E>, core: A.Core<Env<R, W>, E>, schedule: nat -> seq<Wake>, cell: RequestCell<R>, shared: W,
    n: nat, noAttempt: TimeoutError<E>)
    returns (r: Outcome<E>, shared': W, ghost attempts: nat)
    requires forall i: nat :: TimerFires(schedule(i))
    modifies cell
    ensures (Env(cell.req, shared'), r, attempts)
         == Retry(TimedAttempt(nodes, core, schedule), 0, n, old(Env(cell.req, shared)), noAttempt)
  {
    ghost var attempt := TimedAttempt(nodes, core, schedule);
    ghost var s0 := Env(cell.req, shared);
    ghost var whole := Retry(attempt, 0, n, s0, noAttempt);
    var last := noAttempt;
    shared', attempts := shared, 0;
    for i := 0 to n
      invariant attempts == i && cell.req == s0.req
      invariant whole.0 == Retry(attempt, i, n - i, Env(cell.req, shared'), last).0
      invariant whole.1 == Retry(attempt, i, n - i, Env(cell.req, shared'), last).1
      invariant whole.2 == Retry(attempt, i, n - i, Env(cell.req, shared'), last).2 + i
    {
      assert attempt(i, Env(cell.req, shared')) == Raced(nodes, core, schedule(i), Env(cell.req, shared'));
      r, shared' := TimedTry(nodes, core, schedule(i), cell, shared');
      attempts := attempts + 1;
      if r.Ok? {
        return;
      }
      last := r.error;
    }
    r := Err(last);
  }

  /**
   Retry with a timeout per attempt, however each attempt is scheduled as long as its timer fires:
   on error the request is untouched and all n attempts were made; on success the request is what
   one synchronous run makes of the original, on the shared state the failed attempts left.
   */
  lemma TimedRetryIsAtomic<R, W, E>(
    nodes: Chain<R, W, E>, core: A.Core<Env<R, W>, E>, schedule: nat -> seq<Wake>, n: nat, s: Env<R, W>,
    last: TimeoutError<E>)
    requires forall i: nat :: TimerFires(schedule(i))
    ensures var attempt := TimedAttempt(nodes, core, schedule);
            var (t, r, k) := Retry(attempt, 0, n, s, last);
            && (r.Err? ==> t.req == s.req && k == n)
            && (r.Ok? ==> && 0 < k <= n
                          && Run(Effects(nodes), core, Env(s.req, SharedAfter(attempt, 0, k - 1, s))) == (t, Go))
  {
    var attempt := TimedAttempt(nodes, core, schedule);
    RetryIsAtomic(attempt, 0, n, s, last);
    var (t, r, k) := Retry(attempt, 0, n, s, last);
    if r.Ok? {
      var s' := Env(s.req, SharedAfter(attempt, 0, k - 1, s));
      assert (t, r) == attempt(k - 1, s');
      RacedOkIsRun(nodes, core, schedule(k - 1), s');
    }
  }

  /** The chain gets ready in time in this attempt, and goes through. */
  predicate SucceedsInTime<R, W, E>(
    nodes: Chain<R, W, E>, core: A.Core<Env<R, W>, E>, wakes: seq<Wake>, s: Env<R, W>)
  {
    var p := Drive(nodes, core, Start(s), InTime(wakes, DueAt(wakes)));
    p.Ready? && p.v.Go?
  }

  lemma RacedOkIff<R, W, E>(nodes: Chain<R, W, E>, core: A.Core<Env<R, W>, E>, wakes: seq<Wake>, s: Env<R, W>)
    ensures Raced(nodes, core, wakes, s).1.Ok? <==> SucceedsInTime(nodes, core, wakes, s)
  {
    RaceIsDecided(nodes, core, Start(s), wakes, DueAt(wakes));
  }

  /** So it would be for attempt i, on the original request and the shared state that failed attempts before it left. */
  predicate Wins<R, W, E>(
    nodes: Chain<R, W, E>, core: A.Core<Env<R, W>, E>, schedule: nat -> seq<Wake>, s: Env<R, W>, i: nat)
  {
    SucceedsInTime(nodes, core, schedule(i), Env(s.req, SharedAfter(TimedAttempt(nodes, core, schedule), 0, i, s)))
  }

  lemma TriedOkIff<R, W, E>(
    nodes: Chain<R, W, E>, core: A.Core<Env<R, W>, E>, schedule: nat -> seq<Wake>, s: Env<R, W>, i: nat)
    ensures Tried(TimedAttempt(nodes, core, schedule), 0, i, s).1.Ok? <==> Wins(nodes, core, schedule, s, i)
  {
    var attempt := TimedAttempt(nodes, core, schedule);
    var s' := Env(s.req, SharedAfter(attempt, 0, i, s));
    assert Tried(attempt, 0, i, s) == attempt(i, s') == Raced(nodes, core, schedule(i), s');
    RacedOkIff(nodes, core, schedule(i), s');
  }

  predicate NoneWins<R, W, E>(
    nodes: Chain<R, W, E>, core: A.Core<Env<R, W>, E>, schedule: nat -> seq<Wake>, s: Env<R, W>, m: nat)
  {
    forall i: nat :: i < m ==> !Wins(nodes, core, schedule, s, i)
  }

  lemma FailedDidNotWin<R, W, E>(
    nodes: Chain<R, W, E>, core: A.Core<Env<R, W>, E>, schedule: nat -> seq<Wake>, s: Env<R, W>, m: nat)
    requires AllFail(TimedAttempt(nodes, core, schedule), s, m)
    ensures NoneWins(nodes, core, schedule, s, m)
  {
    forall i: nat | i < m ensures !Wins(nodes, core, schedule, s, i) {
      TriedOkIff(nodes, core, schedule, s, i);
    }
  }

  /** The retry succeeds iff one of its n attempts would win its race, and it stops at the first that does. */
  lemma TimedRetryOkIff<R, W, E>(
    nodes: Chain<R, W, E>, core: A.Core<Env<R, W>, E>, schedule: nat -> seq<Wake>, n: nat, s: Env<R, W>,
    last: TimeoutError<E>)
    ensures var (t, r, k) := Retry(TimedAttempt(nodes, core, schedule), 0, n, s, last);
      && (r.Err? <==> NoneWins(nodes, core, schedule, s, n))
      && (r.Ok? ==> 0 < k <= n && NoneWins(nodes, core, schedule, s, k - 1) && Wins(nodes, core, schedule, s, k - 1))
  {
    var attempt := TimedAttempt(nodes, core, schedule);
    RetryFailsIff(attempt, n, s, last);
    var (t, r, k) := Retry(attempt, 0, n, s, last);
    if r.Ok? {
      TriedOkIff(nodes, core, schedule, s, k - 1);
    }
    FailedDidNotWin(nodes, core, schedule, s, if r.Ok? then k - 1 else n);
  }
}
