/** Two processes that share a cache directory and a plugin name: their temporary copies share a name, too. */
module CacheSharing {
  import opened Wrappers
  import opened CachePublish

  lemma {:induction false} RunsAppend(w: World, s: State, a: seq<Step>, b: seq<Step>)
    requires Legal(w, s, a) && Legal(w, After(w, s, a), b)
    ensures Legal(w, s, a + b) && After(w, s, a + b) == After(w, After(w, s, a), b)
    decreases a
  {
    if a == [] {
      assert a + b == b;
    } else {
      assert (a + b)[1..] == a[1..] + b;
      RunsAppend(w, Next(w, s, a[0]), a[1..], b);
    }
  }

  lemma Stepped(w: World, s: State, run: seq<Step>, step: Step)
    requires Legal(w, s, run) && Enabled(w, After(w, s, run), step)
    ensures Legal(w, s, run + [step]) && After(w, s, run + [step]) == Next(w, After(w, s, run), step)
  {
    var t := After(w, s, run);
    assert [step][1..] == [];
    assert After(w, Next(w, t, step), []) == Next(w, t, step);
    RunsAppend(w, s, run, [step]);
  }

  /** A miss, alone up to the point where it opens its temporary copy. */
  lemma UpToCopy(w: World, s: State, i: nat) returns (run: seq<Step>)
    requires i < |s.builders| && s.builders[i].proc < |s.procs| && s.builders[i].pc == Start
    requires s.procs[s.builders[i].proc].holder == None && Cached(w.KeyOf(s.builders[i].req)) !in s.files
    ensures var b := s.builders[i];
      var p := s.procs[b.proc];
      && Legal(w, s, run)
      && After(w, s, run) == State(
           s.builders[i := b.(pc := Named, crate := p.counter, temp := p.counter + 1)],
           s.files[Built(b.req.name, p.counter) := w.artifact(b.req)],
           s.procs[b.proc := p.(counter := p.counter + 2, total := p.total + 1)])
  {
    run := [];
    Stepped(w, s, run, Look(i));
    run := run + [Look(i)];
    Stepped(w, s, run, CountMiss(i));
    run := run + [CountMiss(i)];
    Stepped(w, s, run, TakeCrate(i));
    run := run + [TakeCrate(i)];
    Stepped(w, s, run, Acquire(i));
    run := run + [Acquire(i)];
    Stepped(w, s, run, Finish(i, true));
    run := run + [Finish(i, true)];
    Stepped(w, s, run, TakeTemp(i));
    run := run + [TakeTemp(i)];
  }

  const ONE_BYTE: World := World((_: string) => 0, (_: Request) => [1])

  /** Builders i and j of two processes are about to open their temporary copies, and these have one name. */
  predicate OnOneName(s: State, i: nat, j: nat) {
    && i < |s.builders| && j < |s.builders| && i != j
    && s.builders[i].proc < |s.procs| && s.builders[j].proc < |s.procs|
    && s.builders[i].pc == Named == s.builders[j].pc
    && s.builders[i].req.name == s.builders[j].req.name && s.builders[i].temp == s.builders[j].temp
    && Built(s.builders[i].req.name, s.builders[i].crate) in s.files
    && s.files[Built(s.builders[i].req.name, s.builders[i].crate)] == [1]
  }

  /** The second opens the copy that the first is about to publish. */
  lemma OneNameTears(s: State, i: nat, j: nat) returns (run: seq<Step>)
    requires OnOneName(s, i, j)
    ensures Legal(ONE_BYTE, s, run)
    ensures var t := After(ONE_BYTE, s, run);
      var cached := Cached(Key(s.builders[i].req.name, 0));
      && cached in t.files && t.files[cached] == []
      && i < |t.builders| && t.builders[i].pc == Done(false, true)
  {
    var w := ONE_BYTE;
    run := [];
    Stepped(w, s, run, Create(i));
    run := run + [Create(i)];
    Stepped(w, s, run, Write(i, 1));
    run := run + [Write(i, 1)];
    Stepped(w, s, run, Create(j));
    run := run + [Create(j)];
    Stepped(w, s, run, Rename(i));
    run := run + [Rename(i)];
  }

  /** Behind a reopening, what the first writes leaves a gap of zeros where its earlier bytes were. */
  lemma TornWriteLeavesGap(w: World, s: State, i: nat, amount: nat)
    requires i < |s.builders| && s.builders[i].proc < |s.procs| && s.builders[i].pc.Copying?
    requires var b := s.builders[i];
      && Holds(w, s.files, b.(pc := Compiled))
      && Temp(w.KeyOf(b.req), b.temp) in s.files && s.files[Temp(w.KeyOf(b.req), b.temp)] == []
      && 0 < amount <= |w.artifact(b.req)| - b.pc.copied
    ensures Enabled(w, s, Write(i, amount))
    ensures var b := s.builders[i];
      var temp, files := Temp(w.KeyOf(b.req), b.temp), Next(w, s, Write(i, amount)).files;
      && temp in files
      && files[temp] == Zeros(b.pc.copied) + w.artifact(b.req)[b.pc.copied..b.pc.copied + amount]
  {
  }

  function Zeros(n: nat): seq<nat> {
    seq(n, _ => 0)
  }

  /** More than any process number of the jobs. */
  function ProcsOf(jobs: seq<Job>): (n: nat)
    ensures forall i :: 0 <= i < |jobs| ==> jobs[i].proc < n
  {
    if jobs == [] then 0
    else
      var n := ProcsOf(jobs[..|jobs| - 1]);
      if jobs[|jobs| - 1].proc < n then n else jobs[|jobs| - 1].proc + 1
  }

  /**
   Two processes that start together build one name: the second opens the copy the first publishes, and
   the first returns the path of an empty file.
   */
  lemma TwoProcessesTear(jobs: seq<Job>, counters: seq<nat>, i: nat, j: nat) returns (run: seq<Step>)
    requires Placed(jobs, counters) && i < |jobs| && j < |jobs|
    requires jobs[i].proc != jobs[j].proc && jobs[i].req.name == jobs[j].req.name
    requires counters[jobs[i].proc] == counters[jobs[j].proc]
    ensures var s := Initial(jobs, map[], counters);
      && Legal(ONE_BYTE, s, run)
      && !CacheSound(ONE_BYTE, After(ONE_BYTE, s, run).files)
      && i < |After(ONE_BYTE, s, run).builders| && After(ONE_BYTE, s, run).builders[i].pc == Done(false, true)
  {
    var w, s := ONE_BYTE, Initial(jobs, map[], counters);
    var a := UpToCopy(w, s, i);
    var b := UpToCopy(w, After(w, s, a), j);
    RunsAppend(w, s, a, b);
    var c := OneNameTears(After(w, s, a + b), i, j);
    RunsAppend(w, s, a + b, c);
    run := a + b + c;
  }

  /** No run of these jobs, in any world and from any sound directory, publishes a torn artifact. */
  ghost predicate AlwaysAtomic(jobs: seq<Job>) {
    forall w: World, files, counters, run ::
      Placed(jobs, counters) && CacheSound(w, files) && Legal(w, Initial(jobs, files, counters), run) ==>
        CacheSound(w, After(w, Initial(jobs, files, counters), run).files)
  }

  /** Publication is atomic in every run exactly when processes that share the directory share no plugin name. */
  lemma AtomicIffNamesApart(jobs: seq<Job>)
    ensures AlwaysAtomic(jobs) <==> NamesApart(jobs)
  {
    if NamesApart(jobs) {
      forall w: World, files, counters, run
        | Placed(jobs, counters) && CacheSound(w, files) && Legal(w, Initial(jobs, files, counters), run)
        ensures CacheSound(w, After(w, Initial(jobs, files, counters), run).files)
      {
        PublicationIsAtomic(w, jobs, files, counters, run);
      }
    } else {
      var i, j :| && 0 <= i < |jobs| && 0 <= j < |jobs|
                  && jobs[i].proc != jobs[j].proc && jobs[i].req.name == jobs[j].req.name;
      var counters := Zeros(ProcsOf(jobs));
      var run := TwoProcessesTear(jobs, counters, i, j);
      assert CacheSound(ONE_BYTE, map[]);
    }
  }
}
