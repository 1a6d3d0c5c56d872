/**
 The cached build of `src/compile.rs` as interleaved steps over one directory: each builder looks,
 counts, compiles under the build lock, copies to a temporary name in as many writes as it takes, and
 renames. Builders are threads of one or more processes; counters and the lock belong to a process.
 */
module CachePublish {
  import opened Wrappers

  datatype Request = Request(name: string, source: string)

  datatype Key = Key(name: string, hash: int)

  /** `{name}_{hash}.so`, `{name}_{hash}.tmp.{n}` and `lib{name}_{n}.so`. */
  datatype Path = Cached(key: Key) | Temp(key: Key, n: nat) | Built(name: string, n: nat)

  /** The hash of a source for the toolchain in use, and what compiling a request yields. */
  datatype World = World(hash: string -> int, artifact: Request -> seq<int>) {
    function KeyOf(r: Request): Key {
      Key(r.name, hash(r.source))
    }
  }

  /**
   Where a builder stands; a Building one holds the lock. Done remembers whether it was a hit and whether it
   returned the cached path; NoDir could not make the cache directory.
   */
  datatype Pc =
    | Start
    | NoDir
    | Hit
    | HitCounted
    | Miss
    | MissCounted
    | Crated
    | Building
    | Compiled
    | Named
    | Copying(copied: nat)
    | Done(hit: bool, ok: bool)

  datatype Builder = Builder(proc: nat, req: Request, pc: Pc, crate: nat, temp: nat)

  /** The statics of one process: COUNTER, BUILD_LOCK, TOTAL_BUILDS and CACHE_HITS. */
  datatype Proc = Proc(counter: nat, holder: Option<nat>, total: nat, hits: nat)

  datatype State = State(builders: seq<Builder>, files: map<Path, seq<int>>, procs: seq<Proc>)

  datatype Step =
    | Look(i: nat)
    | CountHit(i: nat)
    | CountTotal(i: nat)
    | CountMiss(i: nat)
    | TakeCrate(i: nat)
    | Acquire(i: nat)
    | Finish(i: nat, ok: bool)
    | TakeTemp(i: nat)
    | Create(i: nat)
    | Write(i: nat, amount: nat)
    | Rename(i: nat)
    | Fail(i: nat)
    | Evict(path: Path)

  datatype Job = Job(proc: nat, req: Request)

  /** Each job knows its process; a process may have counted before. */
  function Initial(jobs: seq<Job>, files: map<Path, seq<int>>, counters: seq<nat>): State {
    State(seq(|jobs|, i requires 0 <= i < |jobs| => Builder(jobs[i].proc, jobs[i].req, Start, 0, 0)),
          files,
          seq(|counters|, q requires 0 <= q < |counters| => Proc(counters[q], None, 0, 0)))
  }

  predicate Placed(jobs: seq<Job>, counters: seq<nat>) {
    forall i :: 0 <= i < |jobs| ==> jobs[i].proc < |counters|
  }

  predicate Terminal(pc: Pc) {
    pc == NoDir || pc.Done?
  }

  /** Which step a builder may take, given who holds the lock of its process. */
  predicate Ready(w: World, b: Builder, holder: Option<nat>, step: Step) {
    match step
    case Look(_) => b.pc == Start
    case CountHit(_) => b.pc == Hit
    case CountTotal(_) => b.pc == HitCounted
    case CountMiss(_) => b.pc == Miss
    case TakeCrate(_) => b.pc == MissCounted
    case Acquire(_) => b.pc == Crated && holder == None
    case Finish(_, _) => b.pc == Building
    case TakeTemp(_) => b.pc == Compiled
    case Create(_) => b.pc == Named
    case Write(_, amount) => b.pc.Copying? && 0 < amount <= |w.artifact(b.req)| - b.pc.copied
    case Rename(_) => b.pc == Copying(|w.artifact(b.req)|)
    case Fail(_) => b.pc == Start || b.pc == Crated || b.pc == Named || b.pc.Copying?
    case Evict(_) => false
  }

  /** Cleanup may remove anything in the cache directory, temporary copies included. */
  predicate Enabled(w: World, s: State, step: Step) {
    if step.Evict? then !step.path.Built?
    else
      && step.i < |s.builders| && s.builders[step.i].proc < |s.procs|
      && Ready(w, s.builders[step.i], s.procs[s.builders[step.i].proc].holder, step)
  }

  function Remove(files: map<Path, seq<int>>, p: Path): map<Path, seq<int>> {
    map q | q in files && q != p :: files[q]
  }

  /** The builder after its own step. */
  function Moved(w: World, files: map<Path, seq<int>>, counter: nat, b: Builder, step: Step): Builder {
    match step
    case Look(_) => b.(pc := if Cached(w.KeyOf(b.req)) in files then Hit else Miss)
    case CountHit(_) => b.(pc := HitCounted)
    case CountTotal(_) => b.(pc := Done(true, true))
    case CountMiss(_) => b.(pc := MissCounted)
    case TakeCrate(_) => b.(pc := Crated, crate := counter)
    case Acquire(_) => b.(pc := Building)
    case Finish(_, ok) => b.(pc := if ok then Compiled else Done(false, false))
    case TakeTemp(_) => b.(pc := Named, temp := counter)
    case Create(_) => b.(pc := Copying(0))
    case Write(_, amount) => if b.pc.Copying? then b.(pc := Copying(b.pc.copied + amount)) else b
    case Rename(_) => b.(pc := Done(false, Temp(w.KeyOf(b.req), b.temp) in files))
    case Fail(_) => b.(pc := if b.pc == Start then NoDir else Done(false, false))
    case Evict(_) => b
  }

  /** A write at an offset: it overwrites what is there, and a gap in front of it is filled with zeros. */
  function WriteAt(file: seq<int>, offset: nat, bytes: seq<int>): (r: seq<int>)
    ensures |r| == if offset + |bytes| <= |file| then |file| else offset + |bytes|
    ensures forall k :: 0 <= k < |r| ==>
      r[k] == if offset <= k < offset + |bytes| then bytes[k - offset] else if k < |file| then file[k] else 0
  {
    var front := if offset <= |file| then file[..offset] else file + seq(offset - |file|, _ => 0);
    front + bytes + (if offset + |bytes| <= |file| then file[offset + |bytes|..] else [])
  }

  /** The directory after a builder's step. Writing to a copy that was removed leaves no file. */
  function Filed(w: World, files: map<Path, seq<int>>, b: Builder, step: Step): map<Path, seq<int>> {
    var temp, built := Temp(w.KeyOf(b.req), b.temp), Built(b.req.name, b.crate);
    match step
    case Finish(_, ok) => if ok then files[built := w.artifact(b.req)] else files
    case Create(_) => files[temp := []]
    case Write(_, amount) =>
      if temp in files && built in files && b.pc.Copying? && b.pc.copied + amount <= |files[built]|
      then files[temp := WriteAt(files[temp], b.pc.copied, files[built][b.pc.copied..b.pc.copied + amount])]
      else files
    case Rename(_) =>
      if temp in files then Remove(files, temp)[Cached(w.KeyOf(b.req)) := files[temp]] else files
    case _ => files
  }

  /** The statics after a step of builder i of the process. */
  function Counted(p: Proc, step: Step): Proc {
    match step
    case CountHit(_) => p.(hits := p.hits + 1)
    case CountTotal(_) => p.(total := p.total + 1)
    case CountMiss(_) => p.(total := p.total + 1)
    case TakeCrate(_) => p.(counter := p.counter + 1)
    case TakeTemp(_) => p.(counter := p.counter + 1)
    case Acquire(i) => p.(holder := Some(i))
    case Finish(_, _) => p.(holder := None)
    case _ => p
  }

  function Next(w: World, s: State, step: Step): State
    requires Enabled(w, s, step)
  {
    if step.Evict? then s.(files := Remove(s.files, step.path))
    else
      var b := s.builders[step.i];
      var p := s.procs[b.proc];
      State(s.builders[step.i := Moved(w, s.files, p.counter, b, step)],
            Filed(w, s.files, b, step),
            s.procs[b.proc := Counted(p, step)])
  }

  ghost predicate Legal(w: World, s: State, run: seq<Step>)
    decreases run
  {
    run == [] || (Enabled(w, s, run[0]) && Legal(w, Next(w, s, run[0]), run[1..]))
  }

  function After(w: World, s: State, run: seq<Step>): State
    requires Legal(w, s, run)
    decreases run
  {
    if run == [] then s else After(w, Next(w, s, run[0]), run[1..])
  }

  // ---- counters ----

  predicate MissCountedPc(pc: Pc) {
    || pc == MissCounted || pc == Crated || pc == Building || pc == Compiled || pc == Named || pc.Copying?
    || (pc.Done? && !pc.hit)
  }

  /** The builders of process q that have counted a miss. */
  function MissIn(q: nat): Builder -> bool {
    (b: Builder) => b.proc == q && MissCountedPc(b.pc)
  }

  function HitIn(q: nat): Builder -> bool {
    (b: Builder) => b.proc == q && b.pc.Done? && b.pc.hit
  }

  /** Those between the increment of the hits and that of the requests. */
  function HalfWayIn(q: nat): Builder -> bool {
    (b: Builder) => b.proc == q && b.pc == HitCounted
  }

  function Tally(bs: seq<Builder>, p: Builder -> bool): nat {
    if bs == [] then 0 else (if p(bs[0]) then 1 else 0) + Tally(bs[1..], p)
  }

  lemma {:induction false} TallyUpdate(bs: seq<Builder>, i: nat, b: Builder, p: Builder -> bool)
    requires i < |bs|
    ensures Tally(bs[i := b], p) == Tally(bs, p) - (if p(bs[i]) then 1 else 0) + (if p(b) then 1 else 0)
  {
    if i > 0 {
      assert bs[i := b][1..] == bs[1..][i - 1 := b];
      TallyUpdate(bs[1..], i - 1, b, p);
    } else {
      assert bs[i := b][1..] == bs[1..];
    }
  }

  lemma {:induction false} TallyZero(bs: seq<Builder>, p: Builder -> bool)
    ensures Tally(bs, p) == 0 <==> forall i :: 0 <= i < |bs| ==> !p(bs[i])
  {
    if bs != [] {
      TallyZero(bs[1..], p);
      assert forall i :: 1 <= i < |bs| ==> bs[i] == bs[1..][i - 1];
    }
  }

  predicate RequestsBalance(s: State, q: nat) {
    q < |s.procs| && s.procs[q].total == Tally(s.builders, HitIn(q)) + Tally(s.builders, MissIn(q))
  }

  predicate HitsBalance(s: State, q: nat) {
    q < |s.procs| && s.procs[q].hits == Tally(s.builders, HitIn(q)) + Tally(s.builders, HalfWayIn(q))
  }

  predicate Balanced(s: State, q: nat) {
    RequestsBalance(s, q) && HitsBalance(s, q)
  }

  /** Only the builder that moves changes a tally. */
  lemma TallyStep(w: World, s: State, step: Step, p: Builder -> bool)
    requires Enabled(w, s, step) && !step.Evict?
    ensures Tally(Next(w, s, step).builders, p)
         == Tally(s.builders, p) - (if p(s.builders[step.i]) then 1 else 0)
                                 + (if p(Next(w, s, step).builders[step.i]) then 1 else 0)
  {
    TallyUpdate(s.builders, step.i, Next(w, s, step).builders[step.i], p);
  }

  lemma RequestsBalanceStep(w: World, s: State, step: Step, q: nat)
    requires RequestsBalance(s, q) && Enabled(w, s, step)
    ensures RequestsBalance(Next(w, s, step), q)
  {
    if !step.Evict? {
      TallyStep(w, s, step, HitIn(q));
      TallyStep(w, s, step, MissIn(q));
    }
  }

  lemma HitsBalanceStep(w: World, s: State, step: Step, q: nat)
    requires HitsBalance(s, q) && Enabled(w, s, step)
    ensures HitsBalance(Next(w, s, step), q)
  {
    if !step.Evict? {
      TallyStep(w, s, step, HitIn(q));
      TallyStep(w, s, step, HalfWayIn(q));
    }
  }

  lemma {:induction false} BalancedRun(w: World, s: State, run: seq<Step>, q: nat)
    requires Balanced(s, q) && Legal(w, s, run)
    ensures Balanced(After(w, s, run), q)
    decreases run
  {
    if run != [] {
      RequestsBalanceStep(w, s, run[0], q);
      HitsBalanceStep(w, s, run[0], q);
      BalancedRun(w, Next(w, s, run[0]), run[1..], q);
    }
  }

  /** In every process requests are hits plus misses exactly when no builder stands between its two increments. */
  lemma RequestsAreHitsPlusMisses(
    w: World, jobs: seq<Job>, files: map<Path, seq<int>>, counters: seq<nat>, run: seq<Step>, q: nat)
    requires Legal(w, Initial(jobs, files, counters), run) && q < |counters|
    ensures var s := After(w, Initial(jobs, files, counters), run);
      && q < |s.procs|
      && s.procs[q].total + Tally(s.builders, HalfWayIn(q)) == s.procs[q].hits + Tally(s.builders, MissIn(q))
      && (s.procs[q].total == s.procs[q].hits + Tally(s.builders, MissIn(q))
          <==> forall i :: 0 <= i < |s.builders| && s.builders[i].proc == q ==> s.builders[i].pc != HitCounted)
  {
    var s0 := Initial(jobs, files, counters);
    TallyZero(s0.builders, MissIn(q));
    TallyZero(s0.builders, HitIn(q));
    TallyZero(s0.builders, HalfWayIn(q));
    BalancedRun(w, s0, run, q);
    TallyZero(After(w, s0, run).builders, HalfWayIn(q));
  }

  /** One builder between its increments makes the hits exceed the requests. */
  lemma HitsMayExceedRequests(w: World, r: Request)
    ensures var s := Initial([Job(0, r)], map[Cached(w.KeyOf(r)) := w.artifact(r)], [0]);
      && Legal(w, s, [Look(0), CountHit(0)])
      && After(w, s, [Look(0), CountHit(0)]).procs[0].hits > After(w, s, [Look(0), CountHit(0)]).procs[0].total
  {
    var s := Initial([Job(0, r)], map[Cached(w.KeyOf(r)) := w.artifact(r)], [0]);
    var t := Next(w, s, Look(0));
    var u := Next(w, t, CountHit(0));
    assert [Look(0), CountHit(0)][1..] == [CountHit(0)] && [CountHit(0)][1..] == [];
    assert After(w, u, []) == u;
    assert After(w, t, [CountHit(0)]) == u;
  }

  // ---- the build lock ----

  predicate HoldsLock(s: State, i: nat)
    requires i < |s.builders|
  {
    && s.builders[i].proc < |s.procs|
    && (s.builders[i].pc == Building <==> s.procs[s.builders[i].proc].holder == Some(i))
  }

  /** Whoever holds the lock of process q belongs to it. */
  predicate HeldByOwn(s: State, q: nat)
    requires q < |s.procs| && s.procs[q].holder.Some?
  {
    var i := s.procs[q].holder.value;
    i < |s.builders| && s.builders[i].proc == q
  }

  /** The lock of a process is held exactly by its Building builder. */
  predicate LockHeld(s: State) {
    && (forall i :: 0 <= i < |s.builders| ==> s.builders[i].proc < |s.procs|)
    && (forall i :: 0 <= i < |s.builders| ==> HoldsLock(s, i))
    && (forall q :: 0 <= q < |s.procs| && s.procs[q].holder.Some? ==> HeldByOwn(s, q))
  }

  /** No builder has copied more than there is. */
  predicate Sized(w: World, s: State) {
    forall i :: 0 <= i < |s.builders| && s.builders[i].pc.Copying? ==>
      s.builders[i].pc.copied <= |w.artifact(s.builders[i].req)|
  }

  lemma HoldsLockStep(w: World, s: State, step: Step, i: nat)
    requires i < |s.builders| && Enabled(w, s, step) && HoldsLock(s, i)
    requires !step.Evict? ==> HoldsLock(s, step.i)
    ensures HoldsLock(Next(w, s, step), i)
  {
  }

  lemma LockStep(w: World, s: State, step: Step)
    requires LockHeld(s) && Enabled(w, s, step)
    ensures LockHeld(Next(w, s, step))
  {
    var t := Next(w, s, step);
    forall i | 0 <= i < |s.builders| ensures HoldsLock(t, i) {
      assert HoldsLock(s, i) && (!step.Evict? ==> HoldsLock(s, step.i));
      HoldsLockStep(w, s, step, i);
    }
    forall q | 0 <= q < |t.procs| && t.procs[q].holder.Some? ensures HeldByOwn(t, q) {
      assert s.procs[q].holder.Some? ==> HeldByOwn(s, q);
      HeldByOwnStep(w, s, step, q);
    }
  }

  lemma HeldByOwnStep(w: World, s: State, step: Step, q: nat)
    requires q < |s.procs| && Enabled(w, s, step) && Next(w, s, step).procs[q].holder.Some?
    requires s.procs[q].holder.Some? ==> HeldByOwn(s, q)
    ensures HeldByOwn(Next(w, s, step), q)
  {
  }

  lemma {:induction false} LockRun(w: World, s: State, run: seq<Step>)
    requires LockHeld(s) && Sized(w, s) && Legal(w, s, run)
    ensures LockHeld(After(w, s, run)) && Sized(w, After(w, s, run))
    decreases run
  {
    if run != [] {
      LockStep(w, s, run[0]);
      LockRun(w, Next(w, s, run[0]), run[1..]);
    }
  }

  /** At any time at most one builder of a process is inside cargo. */
  lemma OneBuildAtATime(
    w: World, jobs: seq<Job>, files: map<Path, seq<int>>, counters: seq<nat>, run: seq<Step>, i: nat, j: nat)
    requires Placed(jobs, counters) && Legal(w, Initial(jobs, files, counters), run)
    requires var s := After(w, Initial(jobs, files, counters), run);
      && i < |s.builders| && j < |s.builders| && s.builders[i].proc == s.builders[j].proc
      && s.builders[i].pc == Building && s.builders[j].pc == Building
    ensures i == j
  {
    LockRun(w, Initial(jobs, files, counters), run);
    var s := After(w, Initial(jobs, files, counters), run);
    assert HoldsLock(s, i) && HoldsLock(s, j);
  }

  // ---- progress ----

  /**
   A builder that has not returned can take a step of its own, or it waits for the build lock, and then the
   holder can take the step that releases it.
   */
  lemma WaitsOnlyForTheLock(w: World, s: State, i: nat) returns (step: Step)
    requires LockHeld(s) && Sized(w, s) && i < |s.builders| && !Terminal(s.builders[i].pc)
    ensures !step.Evict? && Enabled(w, s, step)
    ensures step.i == i
       || (s.builders[i].pc == Crated && s.procs[s.builders[i].proc].holder == Some(step.i) && step.Finish?)
  {
    var b := s.builders[i];
    var holder := s.procs[b.proc].holder;
    assert holder.Some? ==> HoldsLock(s, holder.value);
    step := match b.pc
      case Start => Look(i)
      case Hit => CountHit(i)
      case HitCounted => CountTotal(i)
      case Miss => CountMiss(i)
      case MissCounted => TakeCrate(i)
      case Crated => if holder.None? then Acquire(i) else Finish(holder.value, true)
      case Building => Finish(i, true)
      case Compiled => TakeTemp(i)
      case Named => Create(i)
      case Copying(k) => if k == |w.artifact(b.req)| then Rename(i) else Write(i, 1);
  }

  /** Steps a builder has left at most. */
  function Left(w: World, b: Builder): nat {
    var n := |w.artifact(b.req)|;
    match b.pc
    case Start => n + 10
    case Hit => 2
    case HitCounted => 1
    case Miss => n + 9
    case MissCounted => n + 8
    case Crated => n + 7
    case Building => n + 6
    case Compiled => n + 5
    case Named => n + 4
    case Copying(k) => if k <= n then n - k + 1 else 1
    case Done(_, _) => 0
    case NoDir => 0
  }

  function LeftAll(w: World, bs: seq<Builder>): nat {
    if bs == [] then 0 else Left(w, bs[0]) + LeftAll(w, bs[1..])
  }

  lemma {:induction false} LeftUpdate(w: World, bs: seq<Builder>, i: nat, b: Builder)
    requires i < |bs|
    ensures LeftAll(w, bs[i := b]) == LeftAll(w, bs) - Left(w, bs[i]) + Left(w, b)
  {
    if i > 0 {
      assert bs[i := b][1..] == bs[1..][i - 1 := b];
      LeftUpdate(w, bs[1..], i - 1, b);
    } else {
      assert bs[i := b][1..] == bs[1..];
    }
  }

  function BuilderSteps(run: seq<Step>): nat {
    if run == [] then 0 else (if run[0].Evict? then 0 else 1) + BuilderSteps(run[1..])
  }

  lemma {:induction false} AllAreBuilders(run: seq<Step>)
    requires NoEviction(run)
    ensures BuilderSteps(run) == |run|
  {
    if run != [] {
      assert NoEviction(run[1..]);
      AllAreBuilders(run[1..]);
    }
  }

  lemma StepsShrink(w: World, s: State, step: Step)
    requires Enabled(w, s, step) && !step.Evict?
    ensures LeftAll(w, Next(w, s, step).builders) < LeftAll(w, s.builders)
  {
    var b := s.builders[step.i];
    var b' := Moved(w, s.files, s.procs[b.proc].counter, b, step);
    assert Left(w, b') < Left(w, b);
    LeftUpdate(w, s.builders, step.i, b');
  }

  lemma {:induction false} StepsAreBounded(w: World, s: State, run: seq<Step>)
    requires Legal(w, s, run)
    ensures BuilderSteps(run) + LeftAll(w, After(w, s, run).builders) <= LeftAll(w, s.builders)
    decreases run
  {
    if run != [] {
      if !run[0].Evict? {
        StepsShrink(w, s, run[0]);
      }
      StepsAreBounded(w, Next(w, s, run[0]), run[1..]);
    }
  }

  /** No builder can move. */
  ghost predicate AtRest(w: World, s: State) {
    forall step: Step :: !step.Evict? ==> !Enabled(w, s, step)
  }

  predicate AllReturned(s: State) {
    forall i :: 0 <= i < |s.builders| ==> Terminal(s.builders[i].pc)
  }

  lemma RestIffReturned(w: World, s: State)
    requires LockHeld(s) && Sized(w, s)
    ensures AtRest(w, s) <==> AllReturned(s)
  {
    if i :| 0 <= i < |s.builders| && !Terminal(s.builders[i].pc) {
      var step := WaitsOnlyForTheLock(w, s, i);
      assert Enabled(w, s, step);
    }
  }

  /**
   Every schedule completes: the builders take a bounded number of steps however cleanup interferes, and
   when none can take another, all have returned.
   */
  lemma EveryScheduleCompletes(
    w: World, jobs: seq<Job>, files: map<Path, seq<int>>, counters: seq<nat>, run: seq<Step>)
    requires Placed(jobs, counters) && Legal(w, Initial(jobs, files, counters), run)
    ensures BuilderSteps(run) <= LeftAll(w, Initial(jobs, files, counters).builders)
    ensures NoEviction(run) ==> BuilderSteps(run) == |run|
    ensures var s := After(w, Initial(jobs, files, counters), run);
      AtRest(w, s) <==> AllReturned(s)
  {
    var s := Initial(jobs, files, counters);
    StepsAreBounded(w, s, run);
    if NoEviction(run) {
      AllAreBuilders(run);
    }
    LockRun(w, s, run);
    RestIffReturned(w, After(w, s, run));
  }

  // ---- names and contents ----

  predicate HasCrate(b: Builder) {
    b.pc == Crated || b.pc == Building || b.pc == Compiled || b.pc == Named || b.pc.Copying?
  }

  predicate HasTemp(b: Builder) {
    b.pc == Named || b.pc.Copying?
  }

  predicate BelowCounter(s: State, b: Builder) {
    && b.proc < |s.procs|
    && (HasCrate(b) ==> b.crate < s.procs[b.proc].counter)
    && (HasTemp(b) ==> b.temp < s.procs[b.proc].counter)
  }

  /** The numbers that builders drew lie below the counters they drew them from. */
  predicate Numbered(s: State) {
    forall i :: 0 <= i < |s.builders| ==> BelowCounter(s, s.builders[i])
  }

  /** Two builders never write to the same file: their numbers differ, or their names do. */
  predicate Apart(b: Builder, c: Builder) {
    if b.proc == c.proc then
      && (HasCrate(b) && HasCrate(c) ==> b.crate != c.crate)
      && (HasTemp(b) && HasTemp(c) ==> b.temp != c.temp)
    else b.req.name != c.req.name
  }

  predicate Distinct(s: State) {
    forall i, j :: 0 <= i < |s.builders| && 0 <= j < |s.builders| && i != j ==> Apart(s.builders[i], s.builders[j])
  }

  /** A number drawn now is one that no other builder of the process holds. */
  lemma FreshApart(w: World, s: State, step: Step, j: nat)
    requires Numbered(s) && Enabled(w, s, step) && !step.Evict? && j < |s.builders| && j != step.i
    requires Apart(s.builders[step.i], s.builders[j])
    ensures Apart(Next(w, s, step).builders[step.i], s.builders[j])
  {
  }

  lemma ApartSymmetric(b: Builder, c: Builder)
    ensures Apart(b, c) == Apart(c, b)
  {
  }

  lemma BelowCounterStep(w: World, s: State, step: Step, i: nat)
    requires i < |s.builders| && BelowCounter(s, s.builders[i]) && Enabled(w, s, step)
    ensures BelowCounter(Next(w, s, step), Next(w, s, step).builders[i])
  {
  }

  lemma NumberedStep(w: World, s: State, step: Step)
    requires Numbered(s) && Enabled(w, s, step)
    ensures Numbered(Next(w, s, step))
  {
    forall i | 0 <= i < |s.builders| ensures BelowCounter(Next(w, s, step), Next(w, s, step).builders[i]) {
      BelowCounterStep(w, s, step, i);
    }
  }

  lemma DistinctStep(w: World, s: State, step: Step)
    requires Numbered(s) && Distinct(s) && Enabled(w, s, step)
    ensures Distinct(Next(w, s, step))
  {
    var t := Next(w, s, step);
    forall i, j | 0 <= i < |t.builders| && 0 <= j < |t.builders| && i != j ensures Apart(t.builders[i], t.builders[j]) {
      assert Apart(s.builders[i], s.builders[j]) && Apart(s.builders[j], s.builders[i]);
      if !step.Evict? && i == step.i {
        FreshApart(w, s, step, j);
      } else if !step.Evict? && j == step.i {
        FreshApart(w, s, step, i);
        ApartSymmetric(t.builders[j], t.builders[i]);
      }
    }
  }

  /** A whole artifact of some request that has this key. */
  ghost predicate IsArtifact(w: World, bytes: seq<int>, key: Key) {
    exists r :: w.KeyOf(r) == key && bytes == w.artifact(r)
  }

  ghost predicate CacheSound(w: World, files: map<Path, seq<int>>) {
    forall key :: Cached(key) in files ==> IsArtifact(w, files[Cached(key)], key)
  }

  /** What a builder's files hold: the compiled artifact, and the prefix copied so far unless it was removed. */
  predicate Holds(w: World, files: map<Path, seq<int>>, b: Builder) {
    var a, temp, built := w.artifact(b.req), Temp(w.KeyOf(b.req), b.temp), Built(b.req.name, b.crate);
    && (b.pc == Compiled || b.pc == Named || b.pc.Copying? ==> built in files && files[built] == a)
    && (b.pc.Copying? ==> b.pc.copied <= |a| && (temp in files ==> files[temp] == a[..b.pc.copied]))
  }

  predicate AllHold(w: World, s: State) {
    forall i :: 0 <= i < |s.builders| ==> Holds(w, s.files, s.builders[i])
  }

  lemma OwnStepHolds(w: World, s: State, step: Step)
    requires !step.Evict? && Enabled(w, s, step) && Holds(w, s.files, s.builders[step.i])
    ensures Holds(w, Next(w, s, step).files, Next(w, s, step).builders[step.i])
  {
    var b := s.builders[step.i];
    if step.Write? {
      var a := w.artifact(b.req);
      var copied, chunk := b.pc.copied, a[b.pc.copied..b.pc.copied + step.amount];
      assert WriteAt(a[..copied], copied, chunk) == a[..copied + step.amount];
    }
  }

  lemma OthersStillHold(w: World, s: State, step: Step, j: nat)
    requires Enabled(w, s, step) && j < |s.builders| && (!step.Evict? ==> j != step.i)
    requires Holds(w, s.files, s.builders[j])
    requires !step.Evict? ==> Apart(s.builders[step.i], s.builders[j])
    ensures Holds(w, Next(w, s, step).files, s.builders[j])
  {
  }

  lemma CacheSoundStep(w: World, s: State, step: Step)
    requires CacheSound(w, s.files) && Enabled(w, s, step)
    requires !step.Evict? ==> Holds(w, s.files, s.builders[step.i])
    ensures CacheSound(w, Next(w, s, step).files)
  {
    if step.Rename? {
      var b := s.builders[step.i];
      var a := w.artifact(b.req);
      assert a[..|a|] == a;
      assert IsArtifact(w, a, w.KeyOf(b.req));
    }
  }

  ghost predicate Inv(w: World, s: State) {
    Numbered(s) && Distinct(s) && CacheSound(w, s.files) && AllHold(w, s)
  }

  lemma InvStep(w: World, s: State, step: Step)
    requires Inv(w, s) && Enabled(w, s, step)
    ensures Inv(w, Next(w, s, step))
  {
    NumberedStep(w, s, step);
    DistinctStep(w, s, step);
    CacheSoundStep(w, s, step);
    var t := Next(w, s, step);
    forall j | 0 <= j < |t.builders| ensures Holds(w, t.files, t.builders[j]) {
      if !step.Evict? && j == step.i {
        OwnStepHolds(w, s, step);
      } else {
        OthersStillHold(w, s, step, j);
      }
    }
  }

  lemma {:induction false} InvRun(w: World, s: State, run: seq<Step>)
    requires Inv(w, s) && Legal(w, s, run)
    ensures Inv(w, After(w, s, run))
    decreases run
  {
    if run != [] {
      InvStep(w, s, run[0]);
      InvRun(w, Next(w, s, run[0]), run[1..]);
    }
  }

  /** Processes that share the directory do not share a plugin name. */
  predicate NamesApart(jobs: seq<Job>) {
    forall i, j :: 0 <= i < |jobs| && 0 <= j < |jobs| && jobs[i].proc != jobs[j].proc ==>
      jobs[i].req.name != jobs[j].req.name
  }

  /**
   However the builders interleave, fail, or lose files to cleanup: a cached path is absent or holds a whole
   artifact for its key, and no two builders write to the same file. Any number of builders of one process,
   and of several if each name is built by one of them.
   */
  lemma PublicationIsAtomic(
    w: World, jobs: seq<Job>, files: map<Path, seq<int>>, counters: seq<nat>, run: seq<Step>)
    requires Placed(jobs, counters) && NamesApart(jobs)
    requires CacheSound(w, files) && Legal(w, Initial(jobs, files, counters), run)
    ensures CacheSound(w, After(w, Initial(jobs, files, counters), run).files)
    ensures Distinct(After(w, Initial(jobs, files, counters), run))
  {
    assert Inv(w, Initial(jobs, files, counters));
    InvRun(w, Initial(jobs, files, counters), run);
  }

  // ---- what a returned path names ----

  /** Every builder that saw the cached path, or returned it, still finds it. */
  predicate Present(w: World, s: State) {
    forall i :: 0 <= i < |s.builders| ==>
      var b := s.builders[i];
      (b.pc == Hit || b.pc == HitCounted || (b.pc.Done? && b.pc.ok)) ==> Cached(w.KeyOf(b.req)) in s.files
  }

  predicate NoEviction(run: seq<Step>) {
    forall k :: 0 <= k < |run| ==> !run[k].Evict?
  }

  lemma {:induction false} PresentRun(w: World, s: State, run: seq<Step>)
    requires Present(w, s) && NoEviction(run) && Legal(w, s, run)
    ensures Present(w, After(w, s, run))
    decreases run
  {
    if run != [] {
      assert Present(w, Next(w, s, run[0]));
      assert NoEviction(run[1..]);
      PresentRun(w, Next(w, s, run[0]), run[1..]);
    }
  }

  /** The cached path tells two requests apart exactly by name and by the hash of the source. */
  lemma PathsDifferIff(w: World, r: Request, other: Request)
    ensures Cached(w.KeyOf(r)) == Cached(w.KeyOf(other))
       <==> r.name == other.name && w.hash(r.source) == w.hash(other.source)
  {
  }

  /** No other source has the hash of this one. */
  ghost predicate Alone(w: World, source: string) {
    forall other :: w.hash(other) == w.hash(source) ==> other == source
  }

  /** What a sound directory holds under the hash of such a source is its own artifact. */
  lemma AloneIsOwn(w: World, files: map<Path, seq<int>>, r: Request)
    requires CacheSound(w, files) && Alone(w, r.source) && Cached(Key(r.name, w.hash(r.source))) in files
    ensures files[Cached(Key(r.name, w.hash(r.source)))] == w.artifact(r)
  {
    var key := Key(r.name, w.hash(r.source));
    assert IsArtifact(w, files[Cached(key)], key);
    var other :| w.KeyOf(other) == key && files[Cached(key)] == w.artifact(other);
    PathsDifferIff(w, r, other);
  }

  /**
   Unless cleanup interferes, every successful return names a whole artifact under the name and the hash of the
   source: the request's own, if no other source has that hash.
   */
  lemma ReturnsNameArtifacts(
    w: World, jobs: seq<Job>, files: map<Path, seq<int>>, counters: seq<nat>, run: seq<Step>, i: nat)
    requires Placed(jobs, counters) && NamesApart(jobs)
    requires CacheSound(w, files) && Legal(w, Initial(jobs, files, counters), run) && NoEviction(run)
    requires i < |jobs|
    ensures var s := After(w, Initial(jobs, files, counters), run);
      var r := jobs[i].req;
      var path := Cached(Key(r.name, w.hash(r.source)));
      && |s.builders| == |jobs| && s.builders[i].req == r
      && (s.builders[i].pc.Done? && s.builders[i].pc.ok ==>
            && path in s.files && IsArtifact(w, s.files[path], path.key)
            && (Alone(w, r.source) ==> s.files[path] == w.artifact(r)))
  {
    var s := Initial(jobs, files, counters);
    PublicationIsAtomic(w, jobs, files, counters, run);
    PresentRun(w, s, run);
    SameRequests(w, s, run);
    var t, r := After(w, s, run), jobs[i].req;
    PathsDifferIff(w, r, r);
    if t.builders[i].pc.Done? && t.builders[i].pc.ok && Alone(w, r.source) {
      AloneIsOwn(w, t.files, r);
    }
  }

  lemma {:induction false} SameRequests(w: World, s: State, run: seq<Step>)
    requires Legal(w, s, run)
    ensures |After(w, s, run).builders| == |s.builders|
    ensures forall i :: 0 <= i < |s.builders| ==> After(w, s, run).builders[i].req == s.builders[i].req
    decreases run
  {
    if run != [] {
      SameRequests(w, Next(w, s, run[0]), run[1..]);
    }
  }

  // ---- builds that nothing goes wrong with ----

  /** Every compilation succeeds, no file operation fails and cleanup does not interfere. */
  predicate Smooth(run: seq<Step>) {
    forall k :: 0 <= k < |run| ==> GoesWell(run[k])
  }

  predicate GoesWell(step: Step) {
    !step.Evict? && !step.Fail? && (step.Finish? ==> step.ok)
  }

  predicate Succeeds(w: World, files: map<Path, seq<int>>, b: Builder) {
    && b.pc != NoDir
    && (b.pc.Copying? ==> Temp(w.KeyOf(b.req), b.temp) in files)
    && (b.pc.Done? ==> b.pc.ok)
  }

  predicate AllSucceed(w: World, s: State) {
    forall i :: 0 <= i < |s.builders| ==> Succeeds(w, s.files, s.builders[i])
  }

  lemma OwnStepSucceeds(w: World, s: State, step: Step)
    requires Enabled(w, s, step) && GoesWell(step) && Succeeds(w, s.files, s.builders[step.i])
    ensures Succeeds(w, Next(w, s, step).files, Next(w, s, step).builders[step.i])
  {
  }

  lemma OthersStillSucceed(w: World, s: State, step: Step, j: nat)
    requires Enabled(w, s, step) && !step.Evict? && j < |s.builders| && j != step.i
    requires Succeeds(w, s.files, s.builders[j]) && Apart(s.builders[step.i], s.builders[j])
    ensures Succeeds(w, Next(w, s, step).files, s.builders[j])
  {
  }

  lemma SucceedStep(w: World, s: State, step: Step)
    requires Inv(w, s) && AllSucceed(w, s) && Enabled(w, s, step) && GoesWell(step)
    ensures AllSucceed(w, Next(w, s, step))
  {
    var t := Next(w, s, step);
    forall j | 0 <= j < |t.builders| ensures Succeeds(w, t.files, t.builders[j]) {
      if j == step.i {
        OwnStepSucceeds(w, s, step);
      } else {
        OthersStillSucceed(w, s, step, j);
      }
    }
  }

  lemma {:induction false} SucceedRun(w: World, s: State, run: seq<Step>)
    requires Inv(w, s) && AllSucceed(w, s) && Legal(w, s, run) && Smooth(run)
    ensures AllSucceed(w, After(w, s, run))
    decreases run
  {
    if run != [] {
      assert forall k :: 0 <= k < |run[1..]| ==> run[1..][k] == run[k + 1];
      InvStep(w, s, run[0]);
      SucceedStep(w, s, run[0]);
      SucceedRun(w, Next(w, s, run[0]), run[1..]);
    }
  }

  predicate ReturnedOk(s: State) {
    forall i :: 0 <= i < |s.builders| ==> s.builders[i].pc.Done? && s.builders[i].pc.ok
  }

  /** In such a run no builder returns an error, and when none can move, every one has returned its path. */
  lemma SmoothRunSucceeds(
    w: World, jobs: seq<Job>, files: map<Path, seq<int>>, counters: seq<nat>, run: seq<Step>)
    requires Placed(jobs, counters) && NamesApart(jobs)
    requires CacheSound(w, files) && Legal(w, Initial(jobs, files, counters), run) && Smooth(run)
    ensures AllSucceed(w, After(w, Initial(jobs, files, counters), run))
    ensures AtRest(w, After(w, Initial(jobs, files, counters), run))
       ==> ReturnedOk(After(w, Initial(jobs, files, counters), run))
  {
    SucceedRun(w, Initial(jobs, files, counters), run);
    EveryScheduleCompletes(w, jobs, files, counters, run);
    if AtRest(w, After(w, Initial(jobs, files, counters), run)) {
      ReturnedSucceeded(w, After(w, Initial(jobs, files, counters), run));
    }
  }

  lemma ReturnedSucceeded(w: World, s: State)
    requires AllSucceed(w, s) && AllReturned(s)
    ensures ReturnedOk(s)
  {
    forall i | 0 <= i < |s.builders| ensures s.builders[i].pc.Done? && s.builders[i].pc.ok {
      assert Succeeds(w, s.files, s.builders[i]);
    }
  }

  /** The copy may proceed in pieces of any size, each of which leaves a longer prefix of the artifact. */
  lemma PieceCopied(w: World, s: State, i: nat, amount: nat)
    requires i < |s.builders| && s.builders[i].proc < |s.procs| && s.builders[i].pc.Copying?
    requires var b := s.builders[i];
      && Holds(w, s.files, b) && Temp(w.KeyOf(b.req), b.temp) in s.files
      && 0 < amount <= |w.artifact(b.req)| - b.pc.copied
    ensures Enabled(w, s, Write(i, amount))
    ensures var b := s.builders[i];
      var t := Next(w, s, Write(i, amount));
      && Temp(w.KeyOf(b.req), b.temp) in t.files && t.builders[i].pc == Copying(b.pc.copied + amount)
      && t.files[Temp(w.KeyOf(b.req), b.temp)] == w.artifact(b.req)[..b.pc.copied + amount]
  {
    OwnStepHolds(w, s, Write(i, amount));
  }

  /** The compiler may reject the source: the build lock is free again, the directory as it was, the call an error. */
  lemma RejectionReleases(w: World, s: State, i: nat)
    requires LockHeld(s) && i < |s.builders| && s.builders[i].pc == Building
    ensures Enabled(w, s, Finish(i, false))
    ensures var t := Next(w, s, Finish(i, false));
      && t.files == s.files && t.procs[s.builders[i].proc].holder == None
      && t.builders[i].pc == Done(false, false)
  {
  }

  /** Making the directory, cargo's start, and each step of the copy may fail; that leaves the directory as it was. */
  lemma FailureLeavesFiles(w: World, s: State, i: nat)
    requires i < |s.builders| && s.builders[i].proc < |s.procs|
    requires var pc := s.builders[i].pc; pc == Start || pc == Crated || pc == Named || pc.Copying?
    ensures Enabled(w, s, Fail(i))
    ensures var t := Next(w, s, Fail(i));
      && t.files == s.files && t.procs == s.procs
      && Terminal(t.builders[i].pc) && (t.builders[i].pc.Done? ==> !t.builders[i].pc.ok)
  {
  }

  /** A builder that looks after its path was evicted misses, and one that looks while it is there hits. */
  lemma EvictionForcesMiss(w: World, s: State, i: nat)
    requires i < |s.builders| && s.builders[i].pc == Start && s.builders[i].proc < |s.procs|
    ensures var key := Key(s.builders[i].req.name, w.hash(s.builders[i].req.source));
      && Next(w, Next(w, s, Evict(Cached(key))), Look(i)).builders[i].pc == Miss
      && (Cached(key) in s.files <==> Next(w, s, Look(i)).builders[i].pc == Hit)
  {
  }

  // ---- one builder alone ----

  /** The statics of the file and the directory they share. */
  class Pipeline {
    const w: World
    var files: map<Path, seq<int>>
    var counter: nat
    var total: nat
    var hits: nat

    constructor (w: World, files: map<Path, seq<int>>)
      ensures this.w == w && this.files == files && counter == total == hits == 0
    {
      this.w := w;
      this.files := files;
      counter, total, hits := 0, 0, 0;
    }

    /** `build_plugin_cached` without interference; compiles says whether the compiler accepts the source. */
    method BuildPluginCached(req: Request, compiles: bool) returns (path: Option<Path>)
      requires CacheSound(w, files)
      modifies this
      ensures CacheSound(w, files)
      ensures var cached := Cached(Key(req.name, w.hash(req.source)));
        && path == (if cached in old(files) || compiles then Some(cached) else None)
        && total == old(total) + 1
        && hits == old(hits) + (if cached in old(files) then 1 else 0)
        && (cached in old(files) || !compiles ==> files == old(files))
        && (cached !in old(files) && compiles ==> cached in files && files[cached] == w.artifact(req))
      ensures path.Some? ==> path.value in files && IsArtifact(w, files[path.value], path.value.key)
      ensures path.Some? && Alone(w, req.source) ==> files[path.value] == w.artifact(req)
      ensures forall key :: key != Key(req.name, w.hash(req.source)) ==>
        && (Cached(key) in files <==> Cached(key) in old(files))
        && (Cached(key) in files ==> files[Cached(key)] == old(files)[Cached(key)])
    {
      var cachePath := Cached(w.KeyOf(req));
      if cachePath in files {
        hits := hits + 1;
        total := total + 1;
        if Alone(w, req.source) {
          AloneIsOwn(w, files, req);
        }
        return Some(cachePath);
      }
      total := total + 1;
      var crate := counter;
      counter := counter + 1;
      if !compiles {
        return None;
      }
      files := files[Built(req.name, crate) := w.artifact(req)];
      var n := counter;
      counter := counter + 1;
      var temp := Temp(w.KeyOf(req), n);
      files := files[temp := w.artifact(req)];
      assert IsArtifact(w, w.artifact(req), w.KeyOf(req));
      files := Remove(files, temp)[cachePath := files[temp]];
      return Some(cachePath);
    }
  }
}
