/**
 Host and executor as two processes over two byte queues, under every interleaving of their single
 byte steps, with the executor dying at any moment and the host restarting it.
 */
module SandboxSystem {
  import opened Integers
  import opened Wrappers
  import opened SandboxWire

  /** Greeting and Calling hold what is still to be written and what was read so far. */
  datatype Host =
    | Idle
    | Greeting(toSend: seq<byte>)
    | Calling(payload: seq<byte>, toSend: seq<byte>, got: seq<byte>)

  datatype Sys = Sys(host: Host, exec: Exec, toExec: seq<byte>, toHost: seq<byte>, done: seq<(seq<byte>, HostResult)>)

  datatype Event =
    | StartCall(p: seq<byte>)
    | Restart
    | HostWrite
    | HostRead
    | HostFails       // a write to, or a read from, a dead child
    | ExecRead
    | ExecWrite
    | ExecDies

  /** Just after `spawn`. */
  function Spawned(): Sys {
    Sys(Greeting([MAGIC, VERSION, NEWLINE]), Greeted([]), [], [], [])
  }

  function ToSend(s: Sys): seq<byte> {
    if s.host.Idle? then [] else s.host.toSend
  }

  predicate Enabled(s: Sys, e: Event) {
    match e
    case StartCall(p) => s.host.Idle? && |p| < U32
    case Restart => s.host.Idle?
    case HostWrite => !s.host.Idle? && ToSend(s) != []
    case HostRead => !s.host.Idle? && ToSend(s) == [] && s.toHost != []
    case HostFails => !s.host.Idle? && s.exec.Dead? && (ToSend(s) != [] || s.toHost == [])
    case ExecRead => Reading(s.exec) && ValidExec(s.exec) && s.toExec != []
    case ExecWrite => s.exec.Writing? && s.exec.rest != []
    case ExecDies => true
  }

  function SetToSend(h: Host, bytes: seq<byte>): Host
    requires !h.Idle?
  {
    match h
    case Greeting(_) => Greeting(bytes)
    case Calling(p, _, got) => Calling(p, bytes, got)
  }

  function Next(plugin: Plugin, s: Sys, e: Event): Sys
    requires Enabled(s, e)
  {
    match e
    case StartCall(p) => s.(host := Calling(p, Request(p), []))
    case Restart =>
      Sys(Greeting([MAGIC, VERSION, NEWLINE]), Greeted([]), [], [], s.done)
    case HostWrite =>
      var b := ToSend(s);
      s.(host := SetToSend(s.host, b[1..]), toExec := s.toExec + [b[0]])
    case HostRead =>
      var s' := s.(toHost := s.toHost[1..]);
      (match s.host
       case Greeting(_) => s'.(host := Idle)
       case Calling(p, _, got) =>
         var got' := got + [s.toHost[0]];
         if Complete(got') then s'.(host := Idle, done := s.done + [(p, Decode(got'))])
         else s'.(host := Calling(p, [], got')))
    case HostFails =>
      if s.host.Greeting? then s.(host := Idle)
      else
        var error := if ToSend(s) != [] then WriteFailed else EofError(s.host.got);
        s.(host := Idle, done := s.done + [(s.host.payload, Err(error))])
    case ExecRead =>
      s.(exec := OnByte(plugin, s.exec, s.toExec[0]), toExec := s.toExec[1..])
    case ExecWrite =>
      var rest := s.exec.rest;
      s.(exec := if |rest| == 1 then ReadLen([]) else Writing(rest[1..]), toHost := s.toHost + [rest[0]])
    case ExecDies => s.(exec := Dead)
  }

  // ---- what every reachable state satisfies ----

  predicate Crashed(r: HostResult) {
    r.Err? && r.error != PluginRefused
  }

  /** Every finished call gave the direct result, or reported that the executor was lost. */
  predicate Answered(plugin: Plugin, done: seq<(seq<byte>, HostResult)>) {
    forall i :: 0 <= i < |done| ==> done[i].1 == Direct(plugin, done[i].0) || Crashed(done[i].1)
  }

  function Expected(plugin: Plugin, h: Host): seq<byte> {
    match h
    case Idle => []
    case Greeting(_) => [ACK]
    case Calling(p, _, _) => Response(plugin, p)
  }

  function Got(h: Host): seq<byte> {
    if h.Calling? then h.got else []
  }

  predicate IsPrefix(a: seq<byte>, b: seq<byte>) {
    |a| <= |b| && a == b[..|a|]
  }

  /**
   The conservation law. While the executor lives: what the host has read, what is in the pipe and
   what the executor will still write is exactly what the host waits for, and the executor will
   then wait for a new request. Once it is dead, what was delivered is a prefix of it.
   */
  predicate Conserved(plugin: Plugin, s: Sys) {
    && ValidExec(s.exec)
    && (if s.exec.Dead? then
          IsPrefix(Got(s.host) + s.toHost, Expected(plugin, s.host))
        else
          && Got(s.host) + s.toHost + Output(plugin, s.exec, s.toExec + ToSend(s)) == Expected(plugin, s.host)
          && Waiting(plugin, s.exec, s.toExec + ToSend(s)) == ReadLen([]))
    && (ToSend(s) != [] ==> Got(s.host) == [] == s.toHost && !s.exec.Writing?)
  }

  predicate Inv(plugin: Plugin, s: Sys) {
    && Answered(plugin, s.done)
    && Conserved(plugin, s)
    && (s.host.Calling? ==> |s.host.payload| < U32 && !Complete(s.host.got))
  }

  /** Nothing is under way: both queues are empty and the executor is at the start of its loop. */
  predicate Clean(s: Sys) {
    s.host.Idle? && s.exec == ReadLen([]) && s.toExec == [] && s.toHost == []
  }

  // ---- one step ----

  /** An executor with nothing to say and back at its loop has consumed everything. */
  lemma {:induction false} SilentIsIdle(plugin: Plugin, x: Exec, input: seq<byte>)
    requires ValidExec(x)
    requires Output(plugin, x, input) == [] && Waiting(plugin, x, input) == ReadLen([])
    ensures x == ReadLen([]) && input == []
    decreases |input|, if x.Writing? then 1 else 0
  {
    if !x.Writing? && input != [] {
      SilentIsIdle(plugin, OnByte(plugin, x, input[0]), input[1..]);
    }
  }

  lemma HostWriteKeeps(plugin: Plugin, s: Sys)
    requires Inv(plugin, s) && Enabled(s, HostWrite)
    ensures Inv(plugin, Next(plugin, s, HostWrite))
  {
    var b := ToSend(s);
    assert s.toExec + [b[0]] + b[1..] == s.toExec + b;
  }

  /** A complete frame that is a prefix of a response is the whole response. */
  lemma CompletePrefix(plugin: Plugin, p: seq<byte>, got: seq<byte>)
    requires InPlace(plugin) && |p| < U32
    requires IsPrefix(got, Response(plugin, p)) && Complete(got)
    ensures got == Response(plugin, p) && Decode(got) == Direct(plugin, p)
  {
    ResponseReadsBack(plugin, p, []);
    assert got[1..5] == Response(plugin, p)[1..5];
  }

  /** The executor answers only once it has the whole request. */
  lemma AnswersLast(plugin: Plugin, h: Host, x: Exec, b: byte, input: seq<byte>)
    requires InPlace(plugin) && (h.Calling? ==> |h.payload| < U32)
    requires Reading(x) && ValidExec(x) && OnByte(plugin, x, b).Writing?
    requires Output(plugin, OnByte(plugin, x, b), input) == Expected(plugin, h)
    requires Waiting(plugin, OnByte(plugin, x, b), input) == ReadLen([])
    ensures input == []
  {
    var r := OnByte(plugin, x, b).rest;
    var more := Output(plugin, ReadLen([]), input);
    assert IsPrefix(r, Expected(plugin, h)) by {
      assert (r + more)[..|r|] == r;
    }
    assert r[0] == Expected(plugin, h)[0];
    if h.Calling? {
      assert Response(plugin, h.payload)[0] <= 1;
      if x.Greeted? {
        assert false;
      }
      ResponseReadsBack(plugin, if x.ReadLen? then [] else x.got + [b], []);
      CompletePrefix(plugin, h.payload, r);
    }
    assert |more| == 0;
    SilentIsIdle(plugin, ReadLen([]), input);
  }

  lemma ExecReadKeeps(plugin: Plugin, s: Sys)
    requires InPlace(plugin) && Inv(plugin, s) && Enabled(s, ExecRead)
    ensures Inv(plugin, Next(plugin, s, ExecRead))
  {
    var input := s.toExec[1..] + ToSend(s);
    assert (s.toExec + ToSend(s))[0] == s.toExec[0];
    assert (s.toExec + ToSend(s))[1..] == input;
    var x' := OnByte(plugin, s.exec, s.toExec[0]);
    if ToSend(s) != [] && x'.Writing? {
      assert Output(plugin, x', input) == Expected(plugin, s.host);
      AnswersLast(plugin, s.host, s.exec, s.toExec[0], input);
    }
  }

  lemma ExecWriteKeeps(plugin: Plugin, s: Sys)
    requires Inv(plugin, s) && Enabled(s, ExecWrite)
    ensures Inv(plugin, Next(plugin, s, ExecWrite))
  {
    var rest, input := s.exec.rest, s.toExec + ToSend(s);
    var s' := Next(plugin, s, ExecWrite);
    assert rest == [rest[0]] + rest[1..];
    assert Output(plugin, s.exec, input) == [rest[0]] + Output(plugin, s'.exec, input);
    assert Got(s.host) + (s.toHost + [rest[0]]) + Output(plugin, s'.exec, input)
        == Got(s.host) + s.toHost + ([rest[0]] + Output(plugin, s'.exec, input));
  }

  lemma DieKeeps(plugin: Plugin, s: Sys)
    requires Inv(plugin, s)
    ensures Inv(plugin, Next(plugin, s, ExecDies))
  {
    var front := Got(s.host) + s.toHost;
    if !s.exec.Dead? {
      assert (front + Output(plugin, s.exec, s.toExec + ToSend(s)))[..|front|] == front;
    }
  }

  lemma HostReadKeeps(plugin: Plugin, s: Sys)
    requires InPlace(plugin) && Inv(plugin, s) && Enabled(s, HostRead)
    ensures Inv(plugin, Next(plugin, s, HostRead))
  {
    var got', rest := Got(s.host) + [s.toHost[0]], s.toHost[1..];
    assert got' + rest == Got(s.host) + s.toHost;
    assert IsPrefix(got', Expected(plugin, s.host)) by {
      assert Expected(plugin, s.host)[..|got' + rest|] == got' + rest;
      assert (got' + rest)[..|got'|] == got';
    }
    if s.host.Greeting? {
      assert |got'| == 1 == |Expected(plugin, s.host)|;
    } else if Complete(got') {
      CompletePrefix(plugin, s.host.payload, got');
    }
  }

  lemma HostFailsKeeps(plugin: Plugin, s: Sys)
    requires Inv(plugin, s) && Enabled(s, HostFails)
    ensures Inv(plugin, Next(plugin, s, HostFails))
  {
  }

  lemma IdleIsClean(plugin: Plugin, s: Sys)
    requires Inv(plugin, s) && s.host.Idle?
    ensures Clean(s) || (s.exec.Dead? && s.toHost == [])
  {
    if !s.exec.Dead? {
      assert Output(plugin, s.exec, s.toExec + []) == [];
      SilentIsIdle(plugin, s.exec, s.toExec + []);
    }
  }

  lemma StartCallKeeps(plugin: Plugin, s: Sys, p: seq<byte>)
    requires Inv(plugin, s) && Enabled(s, StartCall(p))
    ensures Inv(plugin, Next(plugin, s, StartCall(p)))
  {
    IdleIsClean(plugin, s);
    if !s.exec.Dead? {
      LengthOnWire(|p|);
      RequestAtOnce(plugin, Le32(|p|), p, []);
      assert Le32(|p|) + p + [] == Request(p) == [] + Request(p);
      assert Response(plugin, p) + [] == Response(plugin, p) == [] + [] + Response(plugin, p);
    }
  }

  lemma GreetingStarts(plugin: Plugin, done: seq<(seq<byte>, HostResult)>)
    requires Answered(plugin, done)
    ensures Inv(plugin, Sys(Greeting([MAGIC, VERSION, NEWLINE]), Greeted([]), [], [], done))
  {
    var hs := [MAGIC, VERSION, NEWLINE];
    HandshakeAtOnce(plugin, hs, []);
    assert hs + [] == hs == [] + hs;
    assert Output(plugin, Writing([ACK]), []) == [ACK] + [];
  }

  lemma StepKeeps(plugin: Plugin, s: Sys, e: Event)
    requires InPlace(plugin) && Inv(plugin, s) && Enabled(s, e)
    ensures Inv(plugin, Next(plugin, s, e))
  {
    match e
    case StartCall(p) => StartCallKeeps(plugin, s, p);
    case Restart => GreetingStarts(plugin, s.done);
    case HostWrite => HostWriteKeeps(plugin, s);
    case HostRead => HostReadKeeps(plugin, s);
    case HostFails => HostFailsKeeps(plugin, s);
    case ExecRead => ExecReadKeeps(plugin, s);
    case ExecWrite => ExecWriteKeeps(plugin, s);
    case ExecDies => DieKeeps(plugin, s);
  }

  // ---- whole runs ----

  predicate Valid(plugin: Plugin, s: Sys, es: seq<Event>)
    decreases es
  {
    es == [] || (Enabled(s, es[0]) && Valid(plugin, Next(plugin, s, es[0]), es[1..]))
  }

  function After(plugin: Plugin, s: Sys, es: seq<Event>): Sys
    requires Valid(plugin, s, es)
    decreases es
  {
    if es == [] then s else After(plugin, Next(plugin, s, es[0]), es[1..])
  }

  /** The payloads handed to `run_bytes`, in order. */
  function Calls(es: seq<Event>): seq<seq<byte>> {
    if es == [] then [] else (if es[0].StartCall? then [es[0].p] else []) + Calls(es[1..])
  }

  function Payloads(s: Sys): seq<seq<byte>> {
    seq(|s.done|, i requires 0 <= i < |s.done| => s.done[i].0)
    + (if s.host.Calling? then [s.host.payload] else [])
  }

  lemma PayloadStep(plugin: Plugin, s: Sys, e: Event)
    requires Enabled(s, e)
    ensures Payloads(Next(plugin, s, e)) == Payloads(s) + (if e.StartCall? then [e.p] else [])
  {
  }

  lemma {:induction false} ReachKeeps(plugin: Plugin, s: Sys, es: seq<Event>)
    requires InPlace(plugin) && Inv(plugin, s) && Valid(plugin, s, es)
    ensures Inv(plugin, After(plugin, s, es))
    ensures Payloads(After(plugin, s, es)) == Payloads(s) + Calls(es)
    decreases es
  {
    if es != [] {
      StepKeeps(plugin, s, es[0]);
      PayloadStep(plugin, s, es[0]);
      ReachKeeps(plugin, Next(plugin, s, es[0]), es[1..]);
    }
  }

  /**
   Safety over every run: the calls are answered in order; each answer is what calling the plugin
   directly gives, or an error saying the executor was lost, never a shortened Ok; and between
   calls both queues are empty with the executor at the start of its loop, or the executor is dead
   with nothing left to be read from it.
   */
  lemma SandboxIsFaithful(plugin: Plugin, es: seq<Event>)
    requires InPlace(plugin) && Valid(plugin, Spawned(), es)
    ensures var s := After(plugin, Spawned(), es);
            && Answered(plugin, s.done)
            && Payloads(s) == Calls(es)
            && (s.host.Idle? ==> Clean(s) || (s.exec.Dead? && s.toHost == []))
  {
    GreetingStarts(plugin, []);
    ReachKeeps(plugin, Spawned(), es);
    var s := After(plugin, Spawned(), es);
    assert Payloads(Spawned()) == [];
    if s.host.Idle? {
      IdleIsClean(plugin, s);
    }
  }

  lemma DecodedIsDirect(plugin: Plugin, s: Sys)
    requires InPlace(plugin) && Inv(plugin, s) && Enabled(s, HostRead) && s.host.Calling?
    requires Complete(s.host.got + [s.toHost[0]])
    ensures Decode(s.host.got + [s.toHost[0]]) == Direct(plugin, s.host.payload)
  {
    var got' := s.host.got + [s.toHost[0]];
    var all := s.host.got + s.toHost;
    assert got' == all[..|got'|];
    assert IsPrefix(all, Expected(plugin, s.host));
    assert IsPrefix(got', Expected(plugin, s.host)) by {
      assert Expected(plugin, s.host)[..|all|][..|got'|] == Expected(plugin, s.host)[..|got'|];
    }
    CompletePrefix(plugin, s.host.payload, got');
  }

  /** The protocol never makes the executor exit by itself. */
  lemma NeverExits(plugin: Plugin, s: Sys)
    requires Inv(plugin, s) && Enabled(s, ExecRead)
    ensures !OnByte(plugin, s.exec, s.toExec[0]).Dead?
  {
    var input := s.toExec[1..] + ToSend(s);
    assert (s.toExec + ToSend(s))[0] == s.toExec[0];
    assert (s.toExec + ToSend(s))[1..] == input;
    var x' := OnByte(plugin, s.exec, s.toExec[0]);
    assert Waiting(plugin, s.exec, s.toExec + ToSend(s)) == Waiting(plugin, x', input);
  }

  predicate NoDeath(es: seq<Event>) {
    forall i :: 0 <= i < |es| ==> !es[i].ExecDies?
  }

  /** Everything finished after the first n calls gave the direct result. */
  predicate DirectFrom(plugin: Plugin, s: Sys, n: nat) {
    !s.exec.Dead? && n <= |s.done| && forall i :: n <= i < |s.done| ==> s.done[i].1 == Direct(plugin, s.done[i].0)
  }

  lemma {:induction false} AliveFrom(plugin: Plugin, s: Sys, es: seq<Event>, n: nat)
    requires InPlace(plugin) && Inv(plugin, s) && Valid(plugin, s, es)
    requires DirectFrom(plugin, s, n) && NoDeath(es)
    ensures DirectFrom(plugin, After(plugin, s, es), n)
    ensures After(plugin, s, es).done[..n] == s.done[..n]
    decreases es
  {
    if es != [] {
      var s' := Next(plugin, s, es[0]);
      StepKeeps(plugin, s, es[0]);
      if es[0].HostRead? && s.host.Calling? && s'.host.Idle? {
        DecodedIsDirect(plugin, s);
      }
      if es[0].ExecRead? {
        NeverExits(plugin, s);
      }
      assert s'.done[..n] == s.done[..n];
      AliveFrom(plugin, s', es[1..], n);
    }
  }

  /**
   While the executor is not killed, sandbox and plugin cannot be told apart: the finished calls
   are the calls made, in order, each with the direct result.
   */
  lemma SandboxRefinesPlugin(plugin: Plugin, es: seq<Event>)
    requires InPlace(plugin) && Valid(plugin, Spawned(), es)
    requires NoDeath(es)
    ensures var s := After(plugin, Spawned(), es);
            && (forall i :: 0 <= i < |s.done| ==> s.done[i].1 == Direct(plugin, s.done[i].0))
            && Payloads(s) == Calls(es)
            && (s.host.Idle? ==> Clean(s))
  {
    SandboxIsFaithful(plugin, es);
    GreetingStarts(plugin, []);
    AliveFrom(plugin, Spawned(), es, 0);
  }

  // ---- every call ends ----

  /** What is left to do until the host is idle again. */
  function Work(plugin: Plugin, s: Sys): nat
    requires ValidExec(s.exec)
  {
    2 * |ToSend(s)| + |s.toExec| + |s.toHost|
    + 2 * |Output(plugin, s.exec, s.toExec + ToSend(s))|
    + (if s.host.Idle? then 0 else 1)
  }

  predicate Protocol(e: Event) {
    e.HostWrite? || e.HostRead? || e.HostFails? || e.ExecRead? || e.ExecWrite?
  }

  /** A host that is not idle is never stuck: one of the two sides can move. */
  lemma NeverStuck(plugin: Plugin, s: Sys) returns (e: Event)
    requires InPlace(plugin) && Inv(plugin, s) && !s.host.Idle?
    ensures Protocol(e) && Enabled(s, e)
  {
    if ToSend(s) != [] {
      e := HostWrite;
    } else if s.toHost != [] {
      e := HostRead;
    } else if s.exec.Dead? {
      e := HostFails;
    } else if s.exec.Writing? {
      e := ExecWrite;
    } else {
      e := ExecRead;
      if s.toExec == [] {
        assert s.toExec + ToSend(s) == [];
        assert Got(s.host) == Expected(plugin, s.host);
        if s.host.Calling? {
          ResponseReadsBack(plugin, s.host.payload, []);
        }
        assert false;
      }
    }
  }

  lemma SendShrinks(plugin: Plugin, s: Sys, e: Event)
    requires InPlace(plugin) && Inv(plugin, s) && Enabled(s, e)
    requires e.HostWrite? || e.HostRead? || e.HostFails?
    ensures ValidExec(Next(plugin, s, e).exec)
    ensures Work(plugin, Next(plugin, s, e)) < Work(plugin, s)
  {
    if e.HostWrite? {
      var b := ToSend(s);
      assert s.toExec + [b[0]] + b[1..] == s.toExec + b;
    } else if e.HostFails? {
      assert Output(plugin, s.exec, s.toExec + ToSend(s)) == [];
    }
  }

  lemma ExecReadShrinks(plugin: Plugin, s: Sys)
    requires InPlace(plugin) && Inv(plugin, s) && Enabled(s, ExecRead)
    ensures ValidExec(Next(plugin, s, ExecRead).exec)
    ensures Work(plugin, Next(plugin, s, ExecRead)) < Work(plugin, s)
  {
    StepKeeps(plugin, s, ExecRead);
    assert (s.toExec + ToSend(s))[0] == s.toExec[0];
    assert (s.toExec + ToSend(s))[1..] == s.toExec[1..] + ToSend(s);
  }

  lemma ExecWriteShrinks(plugin: Plugin, s: Sys)
    requires Inv(plugin, s) && Enabled(s, ExecWrite)
    ensures ValidExec(Next(plugin, s, ExecWrite).exec)
    ensures Work(plugin, Next(plugin, s, ExecWrite)) < Work(plugin, s)
  {
    var s', input := Next(plugin, s, ExecWrite), s.toExec + ToSend(s);
    assert s.exec.rest == [s.exec.rest[0]] + s.exec.rest[1..];
    assert Output(plugin, s.exec, input) == [s.exec.rest[0]] + Output(plugin, s'.exec, input);
  }

  /** Every protocol step leaves less to do, so in every schedule the call comes to an end. */
  lemma WorkShrinks(plugin: Plugin, s: Sys, e: Event)
    requires InPlace(plugin) && Inv(plugin, s) && Protocol(e) && Enabled(s, e)
    ensures ValidExec(Next(plugin, s, e).exec)
    ensures Work(plugin, Next(plugin, s, e)) < Work(plugin, s)
  {
    match e
    case ExecRead => ExecReadShrinks(plugin, s);
    case ExecWrite => ExecWriteShrinks(plugin, s);
    case _ => SendShrinks(plugin, s, e);
  }

  // ---- deaths and restarts ----

  predicate NoRestart(es: seq<Event>) {
    forall i :: 0 <= i < |es| ==> !es[i].Restart?
  }

  lemma {:induction false} RunsAppend(plugin: Plugin, s: Sys, a: seq<Event>, b: seq<Event>)
    requires Valid(plugin, s, a) && Valid(plugin, After(plugin, s, a), b)
    ensures Valid(plugin, s, a + b) && After(plugin, s, a + b) == After(plugin, After(plugin, s, a), b)
    decreases a
  {
    if a == [] {
      assert a + b == b;
    } else {
      assert (a + b)[1..] == a[1..] + b;
      RunsAppend(plugin, Next(plugin, s, a[0]), a[1..], b);
    }
  }

  lemma {:induction false} CallsAppend(a: seq<Event>, b: seq<Event>)
    ensures Calls(a + b) == Calls(a) + Calls(b)
  {
    if a == [] {
      assert a + b == b;
    } else {
      assert (a + b)[1..] == a[1..] + b;
      CallsAppend(a[1..], b);
    }
  }

  /**
   A restart restores the sandbox, whatever happened before: as long as the new executor is not killed, the
   calls finished or under way since then are exactly those made since then, each finished one has the direct
   result, earlier answers stay, and between calls the pair is clean.
   */
  lemma RestartRestores(plugin: Plugin, a: seq<Event>, b: seq<Event>)
    requires InPlace(plugin) && Valid(plugin, Spawned(), a)
    requires var s := After(plugin, Spawned(), a);
      Enabled(s, Restart) && Valid(plugin, Next(plugin, s, Restart), b) && NoDeath(b)
    ensures var s := After(plugin, Spawned(), a);
      var t := After(plugin, Next(plugin, s, Restart), b);
      && |s.done| <= |t.done| && t.done[..|s.done|] == s.done
      && (forall i :: |s.done| <= i < |t.done| ==> t.done[i].1 == Direct(plugin, t.done[i].0))
      && Payloads(t) == Payloads(s) + Calls(b)
      && (t.host.Idle? ==> Clean(t))
  {
    SandboxIsFaithful(plugin, a);
    var s := After(plugin, Spawned(), a);
    var s1 := Next(plugin, s, Restart);
    GreetingStarts(plugin, s.done);
    AliveFrom(plugin, s1, b, |s.done|);
    ReachKeeps(plugin, s1, b);
    assert Payloads(s1) == Payloads(s);
    var t := After(plugin, s1, b);
    assert s1.done[..|s.done|] == s.done;
    if t.host.Idle? {
      IdleIsClean(plugin, t);
    }
  }

  /** The host, once busy, gets back to idle by protocol steps alone. */
  lemma {:induction false} Settles(plugin: Plugin, s: Sys) returns (es: seq<Event>)
    requires InPlace(plugin) && Inv(plugin, s)
    ensures Valid(plugin, s, es) && After(plugin, s, es).host.Idle?
    ensures forall i :: 0 <= i < |es| ==> Protocol(es[i])
    ensures Calls(es) == []
    decreases Work(plugin, s)
  {
    if s.host.Idle? {
      es := [];
    } else {
      var e := NeverStuck(plugin, s);
      StepKeeps(plugin, s, e);
      WorkShrinks(plugin, s, e);
      var rest := Settles(plugin, Next(plugin, s, e));
      es := [e] + rest;
      assert es[1..] == rest;
    }
  }

  /** So after any run that leaves the host idle, a restart and a call can be carried through to the direct result. */
  lemma RestartThenCall(plugin: Plugin, a: seq<Event>, p: seq<byte>) returns (greet: seq<Event>, call: seq<Event>)
    requires InPlace(plugin) && Valid(plugin, Spawned(), a) && After(plugin, Spawned(), a).host.Idle? && |p| < U32
    ensures var s := After(plugin, Spawned(), a);
      var es := [Restart] + greet + [StartCall(p)] + call;
      && (forall i :: 0 <= i < |greet| ==> Protocol(greet[i])) && (forall i :: 0 <= i < |call| ==> Protocol(call[i]))
      && Valid(plugin, s, es) && After(plugin, s, es).done == s.done + [(p, Direct(plugin, p))]
      && Clean(After(plugin, s, es))
  {
    SandboxIsFaithful(plugin, a);
    var s := After(plugin, Spawned(), a);
    var s1 := Next(plugin, s, Restart);
    GreetingStarts(plugin, s.done);
    greet := Settles(plugin, s1);
    var s2 := After(plugin, s1, greet);
    ReachKeeps(plugin, s1, greet);
    var s3 := Next(plugin, s2, StartCall(p));
    StepKeeps(plugin, s2, StartCall(p));
    call := Settles(plugin, s3);
    var b := greet + ([StartCall(p)] + call);
    assert ([StartCall(p)] + call)[1..] == call;
    RunsAppend(plugin, s1, greet, [StartCall(p)] + call);
    CallsAppend(greet, [StartCall(p)] + call);
    var es := [Restart] + greet + [StartCall(p)] + call;
    assert es[1..] == b;
    RestartRestores(plugin, a, b);
    var t := After(plugin, s1, b);
    assert Calls(b) == [p];
    OneMore(plugin, s, t, p);
  }

  lemma OneMore(plugin: Plugin, s: Sys, t: Sys, p: seq<byte>)
    requires s.host.Idle? && t.host.Idle? && Payloads(t) == Payloads(s) + [p]
    requires |s.done| <= |t.done| && t.done[..|s.done|] == s.done
    requires forall i :: |s.done| <= i < |t.done| ==> t.done[i].1 == Direct(plugin, t.done[i].0)
    ensures t.done == s.done + [(p, Direct(plugin, p))]
  {
    var n := |s.done|;
    assert |Payloads(t)| == |t.done| == n + 1;
    assert t.done[n].0 == Payloads(t)[n] == (Payloads(s) + [p])[n] == p;
    assert t.done == t.done[..n] + [t.done[n]];
  }

  /** Lost before a single byte of the answer was read. */
  predicate Lost(r: HostResult) {
    r == Err(WriteFailed) || r == Err(Exited)
  }

  predicate LostFrom(s: Sys, n: nat) {
    && s.exec.Dead? && s.toHost == [] && Got(s.host) == [] && n <= |s.done|
    && forall i :: n <= i < |s.done| ==> Lost(s.done[i].1)
  }

  lemma {:induction false} DeadRun(plugin: Plugin, s: Sys, es: seq<Event>, n: nat)
    requires LostFrom(s, n) && Valid(plugin, s, es) && NoRestart(es)
    ensures LostFrom(After(plugin, s, es), n)
    decreases es
  {
    if es != [] {
      DeadRun(plugin, Next(plugin, s, es[0]), es[1..], n);
    }
  }

  /** Without a restart every call after a death between calls is reported as lost. */
  lemma DeathIsForGood(plugin: Plugin, a: seq<Event>, b: seq<Event>)
    requires InPlace(plugin) && Valid(plugin, Spawned(), a) && After(plugin, Spawned(), a).host.Idle?
    requires NoRestart(b) && Valid(plugin, Next(plugin, After(plugin, Spawned(), a), ExecDies), b)
    ensures var s := After(plugin, Spawned(), a);
      var t := After(plugin, Next(plugin, s, ExecDies), b);
      |s.done| <= |t.done| && forall i :: |s.done| <= i < |t.done| ==> Lost(t.done[i].1)
  {
    SandboxIsFaithful(plugin, a);
    var s := After(plugin, Spawned(), a);
    DeadRun(plugin, Next(plugin, s, ExecDies), b, |s.done|);
  }

  /** The error of a read that meets the end of the stream is that of the host's own read loop. */
  lemma FailsAsRead(plugin: Plugin, s: Sys)
    requires InPlace(plugin) && Inv(plugin, s) && Enabled(s, HostFails) && s.host.Calling?
    ensures Next(plugin, s, HostFails).done
         == s.done + [(s.host.payload,
                       if ToSend(s) != [] then Err(WriteFailed) else ReadResponse(s.host.got + s.toHost).0)]
    ensures Next(plugin, s, HostFails).host.Idle?
  {
    var got, all := s.host.got, Response(plugin, s.host.payload);
    if ToSend(s) == [] && |got| >= 5 {
      assert got + s.toHost == got;
      ResponseReadsBack(plugin, s.host.payload, []);
      assert got == all[..|got|];
      assert got[1..5] == all[1..5];
    } else {
      assert got + s.toHost == got || ToSend(s) != [];
    }
  }

  /** A death in the middle of a call, at whatever byte: the call still ends, with the direct result or a report. */
  lemma CrashMidCall(plugin: Plugin, s: Sys) returns (es: seq<Event>)
    requires InPlace(plugin) && Inv(plugin, s) && s.host.Calling?
    ensures Enabled(s, ExecDies) && Next(plugin, s, ExecDies).exec.Dead?
    ensures Valid(plugin, Next(plugin, s, ExecDies), es) && forall i :: 0 <= i < |es| ==> Protocol(es[i])
    ensures var t := After(plugin, Next(plugin, s, ExecDies), es);
      && t.host.Idle? && |t.done| == |s.done| + 1 && t.done[|s.done|].0 == s.host.payload
      && (t.done[|s.done|].1 == Direct(plugin, s.host.payload) || Crashed(t.done[|s.done|].1))
  {
    var s1 := Next(plugin, s, ExecDies);
    StepKeeps(plugin, s, ExecDies);
    es := Settles(plugin, s1);
    ReachKeeps(plugin, s1, es);
    var t := After(plugin, s1, es);
    assert Payloads(t) == Payloads(s1) + [] == Payloads(s);
    assert |Payloads(t)| == |t.done| && Payloads(t)[|s.done|] == t.done[|s.done|].0;
  }
}
