/**
 The fixed-window limiter, shared by the i32 chain and the type-erased one. Both take their lock
 for the whole of `enter`, so a run is a sequence of enters and resets.
 */
module RateLimit {
  import opened Wrappers
  import opened Timeline

  datatype Window = Window(start: int, count: nat)

  /** One `enter` at time `now`; `false` is a rejection. */
  function Enter(w: Window, limit: nat, length: int, now: int): (Window, bool) {
    var rolled := if now - w.start > length then Window(now, 0) else w;
    if rolled.count >= limit then (rolled, false) else (rolled.(count := rolled.count + 1), true)
  }

  class RateLimiter {
    const limit: nat
    const length: int
    var windowStart: int
    var count: nat

    function State(): Window
      reads this
    {
      Window(windowStart, count)
    }

    constructor (limit: nat, length: int, now: int)
      ensures this.limit == limit && this.length == length
      ensures State() == Window(now, 0)
    {
      this.limit, this.length := limit, length;
      windowStart, count := now, 0;
    }

    method Reset(now: int)
      modifies this
      ensures State() == Window(now, 0)
    {
      windowStart, count := now, 0;
    }

    method TryEnter(now: int) returns (admitted: bool)
      modifies this
      ensures (State(), admitted) == Enter(old(State()), limit, length, now)
    {
      if now - windowStart > length {
        windowStart := now;
        count := 0;
      }
      if count >= limit {
        return false;
      }
      count := count + 1;
      admitted := true;
    }
  }

  // ---- runs ----

  datatype Op = Arrive(at: int) | ResetOp(at: int)

  datatype Rec = Admitted(at: int) | Rejected(at: int) | WasReset(at: int)

  function Step(w: Window, limit: nat, length: int, op: Op): (Window, Rec) {
    match op
    case ResetOp(now) => (Window(now, 0), WasReset(now))
    case Arrive(now) =>
      var (w', ok) := Enter(w, limit, length, now);
      (w', if ok then Admitted(now) else Rejected(now))
  }

  function Run(created: int, limit: nat, length: int, ops: seq<Op>): (Window, seq<Rec>) {
    if ops == [] then (Window(created, 0), [])
    else
      var (w, h) := Run(created, limit, length, ops[..|ops| - 1]);
      var (w', rec) := Step(w, limit, length, ops[|ops| - 1]);
      (w', h + [rec])
  }

  /** The clock never runs backwards. */
  predicate InOrder(created: int, ops: seq<Op>) {
    && (forall i :: 0 <= i < |ops| ==> created <= ops[i].at)
    && (forall i, j :: 0 <= i <= j < |ops| ==> ops[i].at <= ops[j].at)
  }

  predicate NoReset(ops: seq<Op>) {
    forall i :: 0 <= i < |ops| ==> ops[i].Arrive?
  }

  /** The times of the admitted requests, in order. */
  function Admissions(h: seq<Rec>): seq<int> {
    if h == [] then []
    else Admissions(h[..|h| - 1]) + (if h[|h| - 1].Admitted? then [h[|h| - 1].at] else [])
  }

  // ---- windows seen from outside ----

  /**
   `epoch[i]` is the window that admitted request i, and `begun[e]` is when window e was opened;
   the last one is the current window.
   */
  ghost predicate Epochs(w: Window, adm: seq<int>, epoch: seq<nat>, begun: seq<int>, limit: nat, length: int) {
    && begun != [] && w.start == begun[|begun| - 1]
    && |epoch| == |adm|
    && w.count <= limit && w.count <= |adm|
    && (forall i :: 0 <= i < |adm| ==> epoch[i] < |begun| && begun[epoch[i]] <= adm[i])
    && (forall i :: 0 <= i < |adm| - w.count ==> epoch[i] < |begun| - 1)
    && (forall i :: |adm| - w.count <= i < |adm| ==> epoch[i] == |begun| - 1)
    && (forall e :: 0 <= e < |begun| - 1 ==> begun[e] + length < begun[e + 1])
    && (forall i, e :: 0 <= i < |adm| && epoch[i] < e < |begun| ==> adm[i] <= begun[e])
    && (forall i, j :: 0 <= i && i + limit <= j < |adm| ==> epoch[i] < epoch[j])
  }

  lemma AdmitKeepsEpochs(
    w: Window, adm: seq<int>, epoch: seq<nat>, begun: seq<int>, limit: nat, length: int, now: int)
    requires Epochs(w, adm, epoch, begun, limit, length)
    requires w.count < limit && w.start <= now
    ensures Epochs(w.(count := w.count + 1), adm + [now], epoch + [|begun| - 1], begun, limit, length)
  {
  }

  lemma RollKeepsEpochs(
    w: Window, adm: seq<int>, epoch: seq<nat>, begun: seq<int>, limit: nat, length: int, now: int)
    requires Epochs(w, adm, epoch, begun, limit, length)
    requires now - w.start > length
    requires forall i :: 0 <= i < |adm| ==> adm[i] <= now
    ensures Epochs(Window(now, 0), adm, epoch, begun + [now], limit, length)
  {
  }

  /** Admissions happened in order, and none after `now`. */
  predicate Timely(w: Window, adm: seq<int>, now: int) {
    Sorted(adm) && (forall i :: 0 <= i < |adm| ==> adm[i] <= now) && w.start <= now
  }

  lemma EnterKeepsTimely(w: Window, adm: seq<int>, limit: nat, length: int, before: int, now: int)
    requires Timely(w, adm, before) && before <= now
    ensures Timely(Enter(w, limit, length, now).0, adm + (if Enter(w, limit, length, now).1 then [now] else []), now)
  {
  }

  ghost predicate Explained(
    w: Window, adm: seq<int>, epoch: seq<nat>, begun: seq<int>, limit: nat, length: int, now: int)
  {
    Epochs(w, adm, epoch, begun, limit, length) && Timely(w, adm, now)
  }

  lemma EnterKeepsEpochs(
    w: Window, adm: seq<int>, epoch: seq<nat>, begun: seq<int>, limit: nat, length: int, before: int, now: int)
    returns (epoch': seq<nat>, begun': seq<int>)
    requires Explained(w, adm, epoch, begun, limit, length, before) && before <= now
    ensures Explained(Enter(w, limit, length, now).0,
                      adm + (if Enter(w, limit, length, now).1 then [now] else []),
                      epoch', begun', limit, length, now)
  {
    EnterKeepsTimely(w, adm, limit, length, before, now);
    epoch', begun' := epoch, begun;
    var rolled := w;
    if now - w.start > length {
      RollKeepsEpochs(w, adm, epoch, begun, limit, length, now);
      rolled, begun' := Window(now, 0), begun + [now];
    }
    if rolled.count < limit {
      AdmitKeepsEpochs(rolled, adm, epoch, begun', limit, length, now);
      epoch' := epoch + [|begun'| - 1];
    } else {
      assert adm + [] == adm;
    }
  }

  /** The time of the last operation, or of creation. */
  function Latest(created: int, ops: seq<Op>): int {
    if ops == [] then created else ops[|ops| - 1].at
  }

  lemma {:induction false} RunHasEpochs(created: int, limit: nat, length: int, ops: seq<Op>)
    returns (epoch: seq<nat>, begun: seq<int>)
    requires InOrder(created, ops) && NoReset(ops)
    ensures Explained(Run(created, limit, length, ops).0, Admissions(Run(created, limit, length, ops).1),
                      epoch, begun, limit, length, Latest(created, ops))
  {
    if ops == [] {
      epoch, begun := [], [created];
    } else {
      var n := |ops| - 1;
      epoch, begun := RunHasEpochs(created, limit, length, ops[..n]);
      var (w, h) := Run(created, limit, length, ops[..n]);
      var rec := Step(w, limit, length, ops[n]).1;
      assert (h + [rec])[..|h|] == h;
      epoch, begun := EnterKeepsEpochs(w, Admissions(h), epoch, begun, limit, length,
                                       Latest(created, ops[..n]), ops[n].at);
    }
  }

  lemma {:induction false} EpochsAdvance(
    w: Window, adm: seq<int>, epoch: seq<nat>, begun: seq<int>, limit: nat, length: int, i: nat, m: nat)
    requires Epochs(w, adm, epoch, begun, limit, length) && i + m * limit < |adm|
    ensures epoch[i] + m <= epoch[i + m * limit]
    decreases m
  {
    if m > 0 {
      assert m * limit == (m - 1) * limit + limit;
      MulMonotone(0, m - 1, limit);
      EpochsAdvance(w, adm, epoch, begun, limit, length, i, m - 1);
    }
  }

  lemma {:induction false} WindowsApart(
    w: Window, adm: seq<int>, epoch: seq<nat>, begun: seq<int>, limit: nat, length: int, e: nat, k: nat)
    requires Epochs(w, adm, epoch, begun, limit, length) && k > 0 && e + k < |begun| && length >= 0
    ensures begun[e] + k * length < begun[e + k]
    decreases k
  {
    if k > 1 {
      WindowsApart(w, adm, epoch, begun, limit, length, e, k - 1);
      assert k * length == (k - 1) * length + length;
    }
  }

  lemma {:induction false} WindowsOrdered(
    w: Window, adm: seq<int>, epoch: seq<nat>, begun: seq<int>, limit: nat, length: int, e: nat, e': nat)
    requires Epochs(w, adm, epoch, begun, limit, length) && e <= e' < |begun| && length >= 0
    ensures begun[e] <= begun[e']
    decreases e'
  {
    if e < e' {
      WindowsOrdered(w, adm, epoch, begun, limit, length, e, e' - 1);
    }
  }

  lemma EpochGap(
    w: Window, adm: seq<int>, epoch: seq<nat>, begun: seq<int>, limit: nat, length: int, i: nat, j: nat, k: nat)
    requires Epochs(w, adm, epoch, begun, limit, length) && length >= 0
    requires k > 0 && i < |adm| && j < |adm| && epoch[i] + k + 1 <= epoch[j]
    ensures adm[i] + k * length < adm[j]
  {
    var e := epoch[i] + 1;
    WindowsApart(w, adm, epoch, begun, limit, length, e, k);
    WindowsOrdered(w, adm, epoch, begun, limit, length, e + k, epoch[j]);
    assert adm[i] <= begun[e];
  }

  /** Requests (k + 1) * limit places apart are more than k windows apart. */
  lemma AdmissionGap(
    w: Window, adm: seq<int>, epoch: seq<nat>, begun: seq<int>, limit: nat, length: int, i: nat, k: nat)
    requires Epochs(w, adm, epoch, begun, limit, length) && length >= 0
    requires k > 0 && i + (k + 1) * limit < |adm|
    ensures adm[i] + k * length < adm[i + (k + 1) * limit]
  {
    MulMonotone(0, k + 1, limit);
    EpochsAdvance(w, adm, epoch, begun, limit, length, i, k + 1);
    EpochGap(w, adm, epoch, begun, limit, length, i, i + (k + 1) * limit, k);
  }

  /** Without resets, any closed interval of k windows (k >= 1) admits at most (k + 1) * limit. */
  lemma AdmissionsAreRare(created: int, limit: nat, length: int, ops: seq<Op>, from: int, k: nat)
    requires InOrder(created, ops) && NoReset(ops) && length >= 0 && k > 0
    ensures Count(Admissions(Run(created, limit, length, ops).1), from, from + k * length) <= (k + 1) * limit
  {
    var epoch, begun := RunHasEpochs(created, limit, length, ops);
    var (w, h) := Run(created, limit, length, ops);
    var adm := Admissions(h);
    MulMonotone(0, k + 1, limit);
    if Count(adm, from, from + k * length) > (k + 1) * limit {
      var i := CrowdedSpan(adm, from, from + k * length, (k + 1) * limit);
      AdmissionGap(w, adm, epoch, begun, limit, length, i, k);
    }
  }

  // ---- the other direction: nobody is rejected without cause ----

  /** How many of the records are admissions. */
  function AdmittedIn(h: seq<Rec>): nat {
    if h == [] then 0 else AdmittedIn(h[..|h| - 1]) + (if h[|h| - 1].Admitted? then 1 else 0)
  }

  /** From `cut` on the history holds the current window and nothing else. */
  predicate WindowFrom(w: Window, h: seq<Rec>, cut: nat, now: int) {
    && cut <= |h|
    && AdmittedIn(h[cut..]) == w.count
    && w.start <= now
    && forall i :: cut <= i < |h| ==> w.start <= h[i].at <= now
  }

  lemma StepKeepsWindow(w: Window, h: seq<Rec>, cut: nat, before: int, limit: nat, length: int, op: Op)
    returns (cut': nat)
    requires WindowFrom(w, h, cut, before) && w.count <= limit && before <= op.at
    ensures WindowFrom(Step(w, limit, length, op).0, h + [Step(w, limit, length, op).1], cut', op.at)
    ensures Step(w, limit, length, op).0.count <= limit
  {
    var rec := Step(w, limit, length, op).1;
    if op.ResetOp? {
      cut' := |h| + 1;
    } else {
      cut' := if op.at - w.start > length then |h| else cut;
      assert (h + [rec])[cut'..] == h[cut'..] + [rec];
      assert (h[cut'..] + [rec])[..|h| - cut'] == h[cut'..];
    }
  }

  lemma {:induction false} CurrentWindow(created: int, limit: nat, length: int, ops: seq<Op>)
    returns (cut: nat)
    requires InOrder(created, ops)
    ensures var (w, h) := Run(created, limit, length, ops);
      WindowFrom(w, h, cut, Latest(created, ops))
    ensures Run(created, limit, length, ops).0.count <= limit
  {
    if ops == [] {
      cut := 0;
    } else {
      var n := |ops| - 1;
      cut := CurrentWindow(created, limit, length, ops[..n]);
      var (w, h) := Run(created, limit, length, ops[..n]);
      cut := StepKeepsWindow(w, h, cut, Latest(created, ops[..n]), limit, length, ops[n]);
    }
  }

  /**
   Resets allowed: a request rejected at time t has exactly `limit` admissions behind it in the
   window it fell into, all of them within the last window length.
   */
  lemma RejectionIsJustified(created: int, limit: nat, length: int, ops: seq<Op>, now: int) returns (cut: nat)
    requires InOrder(created, ops + [Arrive(now)])
    requires Step(Run(created, limit, length, ops).0, limit, length, Arrive(now)).1.Rejected?
    requires length >= 0
    ensures var h := Run(created, limit, length, ops).1;
            && cut <= |h|
            && AdmittedIn(h[cut..]) == limit
            && forall i :: cut <= i < |h| ==> now - length <= h[i].at <= now
  {
    var all := ops + [Arrive(now)];
    assert forall i :: 0 <= i < |ops| ==> ops[i] == all[i];
    assert all[|ops|].at == now;
    cut := CurrentWindow(created, limit, length, ops);
    var (w, h) := Run(created, limit, length, ops);
    if now - w.start > length {
      cut := |h|;
    } else {
      assert Latest(created, ops) <= now;
    }
  }
}
