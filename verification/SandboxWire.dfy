/**
 Both ends of the sandbox's byte protocol. The executor is given twice: as the blocking loop of
 the source, and as a machine that takes and gives one byte at a time, which is what the host sees
 of it through two pipes.
 */
module SandboxWire {
  import opened Integers
  import opened Wrappers

  type byte = x: int | 0 <= x < 256

  const MAGIC: byte := 0xA1
  const VERSION: byte := 1
  const ACK: byte := 0xB2
  const NEWLINE: byte := 10

  // ---- lengths on the wire ----

  /** `(n as u32).to_le_bytes()`. */
  function Le32(n: nat): (r: seq<byte>)
    ensures |r| == 4
  {
    [n % 256, n / 256 % 256, n / 256 / 256 % 256, n / 256 / 256 / 256 % 256]
  }

  /** `u32::from_le_bytes`. */
  function FromLe32(b: seq<byte>): (r: nat)
    requires |b| == 4
    ensures r < U32
  {
    (b[0] as int) + 256 * (b[1] as int) + 65536 * (b[2] as int) + 16777216 * (b[3] as int)
  }

  /** The cast to u32 keeps a length iff it is below 2^32. */
  lemma LengthOnWire(n: nat)
    ensures FromLe32(Le32(n)) == n % U32
  {
    var q1 := n / 256;
    var q2 := q1 / 256;
    var q3 := q2 / 256;
    var q4 := q3 / 256;
    var v := n % 256 + 256 * (q1 % 256) + 65536 * (q2 % 256) + 16777216 * (q3 % 256);
    assert n == U32 * q4 + v;
    assert 0 <= v < U32;
    assert FromLe32(Le32(n)) == v;
  }

  // ---- the plugin ----

  /** The plugin works in place, so the payload keeps its length. */
  type Plugin = seq<byte> -> (int, seq<byte>)

  ghost predicate InPlace(plugin: Plugin) {
    forall p: seq<byte> :: |plugin(p).1| == |p|
  }

  datatype HostError = WriteFailed | Exited | Interrupted | Incomplete | PluginRefused

  type HostResult = Result<seq<byte>, HostError>

  /** Calling the plugin without any process in between. */
  function Direct(plugin: Plugin, p: seq<byte>): HostResult {
    if plugin(p).0 == 0 then Ok(plugin(p).1) else Err(PluginRefused)
  }

  function Request(p: seq<byte>): seq<byte> {
    Le32(|p|) + p
  }

  function Response(plugin: Plugin, p: seq<byte>): seq<byte> {
    var (code, q) := plugin(p);
    [if code == 0 then 0 else 1] + Le32(|q|) + q
  }

  // ---- the host's half: reading one response ----

  /** Enough bytes for the status, the length and as much payload as the length says. */
  predicate Complete(got: seq<byte>) {
    |got| >= 5 && |got| == 5 + FromLe32(got[1..5])
  }

  function Decode(got: seq<byte>): HostResult
    requires |got| >= 5
  {
    if got[0] == 0 then Ok(got[5..]) else Err(PluginRefused)
  }

  /** What a read that meets the end of the stream is reported as. */
  function EofError(got: seq<byte>): HostError {
    if got == [] then Exited else if |got| < 5 then Interrupted else Incomplete
  }

  /** One response taken off a stream that ends where the child's output ends. */
  function ReadResponse(stream: seq<byte>): (HostResult, seq<byte>) {
    if |stream| < 5 then (Err(EofError(stream)), [])
    else
      var n := 5 + FromLe32(stream[1..5]);
      if |stream| < n then (Err(Incomplete), [])
      else (Decode(stream[..n]), stream[n..])
  }

  class Sandbox {
    var stdin: seq<byte>      // everything written to the child so far
    var stdout: seq<byte>     // what can still be read from it before its end of stream

    constructor (childOutput: seq<byte>)
      ensures stdin == [] && stdout == childOutput
    {
      stdin, stdout := [], childOutput;
    }

    /** `read_exact`: all n bytes, or the stream is used up and the read fails. */
    method ReadExact(n: nat) returns (r: Option<seq<byte>>)
      modifies this`stdout
      ensures if n <= |old(stdout)|
              then r == Some(old(stdout)[..n]) && stdout == old(stdout)[n..]
              else r == None && stdout == []
    {
      if n <= |stdout| {
        r := Some(stdout[..n]);
        stdout := stdout[n..];
      } else {
        r := None;
        stdout := [];
      }
    }

    method RunBytes(input: seq<byte>) returns (r: HostResult)
      modifies this
      ensures stdin == old(stdin) + Request(input)
      ensures (r, stdout) == ReadResponse(old(stdout))
    {
      ghost var stream := stdout;
      stdin := stdin + Le32(|input|);
      stdin := stdin + input;
      assert stdin == old(stdin) + Request(input);
      var status := ReadExact(1);
      if status.None? {
        return Err(Exited);
      }
      var lenBuf := ReadExact(4);
      if lenBuf.None? {
        return Err(Interrupted);
      }
      assert lenBuf.value == stream[1..5] && stdout == stream[5..];
      var len := FromLe32(lenBuf.value);
      var payload := ReadExact(len);
      if payload.None? {
        return Err(Incomplete);
      }
      assert stream[..5 + len][5..] == stream[5..][..len];
      r := if status.value[0] == 0 then Ok(payload.value) else Err(PluginRefused);
    }

    /** The handshake of `spawn_bytes` and of `restart`. */
    method Greet() returns (ok: bool)
      modifies this
      ensures stdin == old(stdin) + [0xA1, 1, 10]
      ensures ok <==> old(stdout) != [] && old(stdout)[0] == 0xB2
      ensures stdout == if old(stdout) == [] then [] else old(stdout)[1..]
    {
      stdin := stdin + [MAGIC, VERSION, NEWLINE];
      var ack := ReadExact(1);
      ok := ack.Some? && ack.value[0] == ACK;
    }
  }

  // ---- the executor's half, byte by byte ----

  datatype Exec =
    | Greeted(got: seq<byte>)                 // reading the three bytes of the handshake
    | ReadLen(got: seq<byte>)
    | ReadBody(len: nat, got: seq<byte>)
    | Writing(rest: seq<byte>)
    | Dead

  predicate Reading(x: Exec) {
    x.Greeted? || x.ReadLen? || x.ReadBody?
  }

  predicate ValidExec(x: Exec) {
    match x
    case Greeted(got) => |got| < 3
    case ReadLen(got) => |got| < 4
    case ReadBody(len, got) => |got| < len < U32
    case Writing(rest) => rest != []
    case Dead => true
  }

  function OnByte(plugin: Plugin, x: Exec, b: byte): Exec
    requires Reading(x) && ValidExec(x)
  {
    var got := x.got + [b];
    match x
    case Greeted(_) =>
      if |got| < 3 then Greeted(got)
      else if got[0] == MAGIC && got[1] == VERSION then Writing([ACK])
      else Dead
    case ReadLen(_) =>
      if |got| < 4 then ReadLen(got)
      else
        var len := FromLe32(got);
        if len == 0 then Writing(Response(plugin, [])) else ReadBody(len, [])
    case ReadBody(len, _) =>
      if |got| < len then ReadBody(len, got) else Writing(Response(plugin, got))
  }

  /** All the executor will ever write if `input` is all it will ever be sent. */
  function Output(plugin: Plugin, x: Exec, input: seq<byte>): seq<byte>
    requires ValidExec(x)
    decreases |input|, if x.Writing? then 1 else 0
  {
    match x
    case Dead => []
    case Writing(rest) => rest + Output(plugin, ReadLen([]), input)
    case _ => if input == [] then [] else Output(plugin, OnByte(plugin, x, input[0]), input[1..])
  }

  /** Where it then waits. */
  function Waiting(plugin: Plugin, x: Exec, input: seq<byte>): (r: Exec)
    requires ValidExec(x)
    ensures ValidExec(r) && !r.Writing?
    decreases |input|, if x.Writing? then 1 else 0
  {
    match x
    case Dead => Dead
    case Writing(_) => Waiting(plugin, ReadLen([]), input)
    case _ => if input == [] then x else Waiting(plugin, OnByte(plugin, x, input[0]), input[1..])
  }

  /** Reading the rest of a body at once. */
  lemma {:induction false} BodyAtOnce(plugin: Plugin, len: nat, got: seq<byte>, more: seq<byte>, input: seq<byte>)
    requires |got| < len < U32 && |got| + |more| == len
    ensures Output(plugin, ReadBody(len, got), more + input)
         == Response(plugin, got + more) + Output(plugin, ReadLen([]), input)
    ensures Waiting(plugin, ReadBody(len, got), more + input) == Waiting(plugin, ReadLen([]), input)
    decreases |more|
  {
    var got' := got + [more[0]];
    assert (more + input)[0] == more[0] && (more + input)[1..] == more[1..] + input;
    assert got + more == got' + more[1..];
    if |more| == 1 {
      assert more[1..] + input == input && got' + more[1..] == got';
    } else {
      BodyAtOnce(plugin, len, got', more[1..], input);
    }
  }

  /** Reading four length bytes at once. */
  lemma LenAtOnce(plugin: Plugin, four: seq<byte>, input: seq<byte>)
    requires |four| == 4
    ensures var next := if FromLe32(four) == 0 then Writing(Response(plugin, [])) else ReadBody(FromLe32(four), []);
            && Output(plugin, ReadLen([]), four + input) == Output(plugin, next, input)
            && Waiting(plugin, ReadLen([]), four + input) == Waiting(plugin, next, input)
  {
    var s := four + input;
    assert [four[0]] + [four[1]] + [four[2]] + [four[3]] == four;
    assert s[1..][1..][1..][1..] == input;
    assert s[1..][0] == four[1] && s[1..][1..][0] == four[2] && s[1..][1..][1..][0] == four[3];
    var x1, x2, x3 := ReadLen([four[0]]), ReadLen([four[0]] + [four[1]]), ReadLen([four[0]] + [four[1]] + [four[2]]);
    assert [] + [four[0]] == [four[0]];
    assert OnByte(plugin, ReadLen([]), s[0]) == x1;
    assert OnByte(plugin, x1, s[1..][0]) == x2;
    assert OnByte(plugin, x2, s[1..][1..][0]) == x3;
    assert Output(plugin, x2, s[1..][1..]) == Output(plugin, x3, s[1..][1..][1..]);
    assert Waiting(plugin, x2, s[1..][1..]) == Waiting(plugin, x3, s[1..][1..][1..]);
  }

  /** One whole request: the announced number of bytes is transformed, whatever follows. */
  lemma RequestAtOnce(plugin: Plugin, four: seq<byte>, p: seq<byte>, input: seq<byte>)
    requires |four| == 4 && FromLe32(four) == |p|
    ensures Output(plugin, ReadLen([]), four + p + input)
         == Response(plugin, p) + Output(plugin, ReadLen([]), input)
    ensures Waiting(plugin, ReadLen([]), four + p + input) == Waiting(plugin, ReadLen([]), input)
  {
    assert four + p + input == four + (p + input);
    LenAtOnce(plugin, four, p + input);
    if p == [] {
      assert p + input == input;
    } else {
      BodyAtOnce(plugin, |p|, [], p, input);
      assert [] + p == p;
    }
  }

  lemma HandshakeAtOnce(plugin: Plugin, three: seq<byte>, input: seq<byte>)
    requires |three| == 3
    ensures var next := if three[0] == MAGIC && three[1] == VERSION then Writing([ACK]) else Dead;
            && Output(plugin, Greeted([]), three + input) == Output(plugin, next, input)
            && Waiting(plugin, Greeted([]), three + input) == Waiting(plugin, next, input)
  {
    var s := three + input;
    assert s[1..][1..][1..] == input;
    assert s[1..][0] == three[1] && s[1..][1..][0] == three[2];
    assert [] + [three[0]] == [three[0]];
    var x1, x2 := Greeted([three[0]]), Greeted([three[0]] + [three[1]]);
    assert OnByte(plugin, Greeted([]), s[0]) == x1;
    assert OnByte(plugin, x1, s[1..][0]) == x2;
    assert x2.got + [three[2]] == three;
    assert Output(plugin, x1, s[1..]) == Output(plugin, x2, s[1..][1..]);
    assert Waiting(plugin, x1, s[1..]) == Waiting(plugin, x2, s[1..][1..]);
  }

  /** A read that the end of the stream cuts short writes nothing. */
  lemma {:induction false} ShortInputIsSilent(plugin: Plugin, x: Exec, input: seq<byte>)
    requires ValidExec(x) && Reading(x)
    requires |x.got| + |input| < (if x.Greeted? then 3 else if x.ReadLen? then 4 else x.len)
    ensures Output(plugin, x, input) == []
    decreases |input|
  {
    if input != [] {
      ShortInputIsSilent(plugin, OnByte(plugin, x, input[0]), input[1..]);
    }
  }

  /** One turn of the loop behind the reads: call the plugin, write status, length and payload. */
  method Respond(plugin: Plugin, payload: seq<byte>) returns (written: seq<byte>)
    ensures written == Response(plugin, payload)
  {
    var out := plugin(payload);
    var status := if out.0 == 0 then 0 else 1;
    written := [status];
    written := written + Le32(|out.1|);
    written := written + out.1;
  }

  /** `byte_mode`, on everything its stdin delivers before the end of the stream. */
  method ByteMode(plugin: Plugin, input: seq<byte>) returns (output: seq<byte>)
    ensures output == Output(plugin, Greeted([]), input)
  {
    if |input| < 3 {
      ShortInputIsSilent(plugin, Greeted([]), input);
      return [];
    }
    var hs := input[..3];
    var stdin := input[3..];
    assert input == hs + stdin;
    HandshakeAtOnce(plugin, hs, stdin);
    if hs[0] != MAGIC || hs[1] != VERSION {
      return [];
    }
    output := [ACK];
    while true
      invariant output + Output(plugin, ReadLen([]), stdin) == Output(plugin, Greeted([]), input)
      decreases |stdin|
    {
      if |stdin| < 4 {
        ShortInputIsSilent(plugin, ReadLen([]), stdin);
        break;
      }
      var lenBuf := stdin[..4];
      var rest := stdin[4..];
      assert stdin == lenBuf + rest;
      var len := FromLe32(lenBuf);
      if |rest| < len {
        LenAtOnce(plugin, lenBuf, rest);
        ShortInputIsSilent(plugin, ReadBody(len, []), rest);
        break;
      }
      var payload := rest[..len];
      assert stdin == lenBuf + payload + rest[len..];
      RequestAtOnce(plugin, lenBuf, payload, rest[len..]);
      var response := Respond(plugin, payload);
      assert output + response + Output(plugin, ReadLen([]), rest[len..])
          == output + (response + Output(plugin, ReadLen([]), rest[len..]));
      output := output + response;
      stdin := rest[len..];
    }
  }

  // ---- which payloads the framing carries ----

  /** The response to `p` read back is the direct call, and nothing is left over. */
  ghost predicate Carried(p: seq<byte>) {
    forall plugin: Plugin :: InPlace(plugin) ==>
      ReadResponse(Output(plugin, ReadLen([]), Request(p))) == (Direct(plugin, p), [])
  }

  lemma ResponseReadsBack(plugin: Plugin, p: seq<byte>, more: seq<byte>)
    requires InPlace(plugin) && |p| < U32
    ensures ReadResponse(Response(plugin, p) + more) == (Direct(plugin, p), more)
    ensures Complete(Response(plugin, p)) && Decode(Response(plugin, p)) == Direct(plugin, p)
  {
    var q := plugin(p).1;
    var r := Response(plugin, p);
    LengthOnWire(|q|);
    assert |q| == |p|;
    assert r[1..5] == Le32(|q|) && r[5..] == q;
    assert (r + more)[1..5] == Le32(|q|);
    assert (r + more)[..5 + |q|] == r && (r + more)[5 + |q|..] == more;
  }

  lemma ShortIsCarried(p: seq<byte>)
    requires |p| < U32
    ensures Carried(p)
  {
    forall plugin: Plugin | InPlace(plugin)
      ensures ReadResponse(Output(plugin, ReadLen([]), Request(p))) == (Direct(plugin, p), [])
    {
      LengthOnWire(|p|);
      RequestAtOnce(plugin, Le32(|p|), p, []);
      assert Le32(|p|) + p + [] == Request(p);
      ResponseReadsBack(plugin, p, []);
    }
  }

  /** A length that does not fit is cut to its low 32 bits, and so is the payload. */
  lemma LongIsCut(p: seq<byte>)
    requires |p| >= U32
    ensures var identity: Plugin := q => (0, q);
      ReadResponse(Output(identity, ReadLen([]), Request(p))).0 == Ok(p[..|p| % U32])
  {
    var identity: Plugin := q => (0, q);
    LengthOnWire(|p|);
    var n := |p| % U32;
    assert Le32(|p|) + p[..n] + p[n..] == Request(p);
    RequestAtOnce(identity, Le32(|p|), p[..n], p[n..]);
    ResponseReadsBack(identity, p[..n], Output(identity, ReadLen([]), p[n..]));
  }

  /** The protocol carries a payload for every plugin iff it is shorter than 2^32 bytes. */
  lemma CarriedIffShort(p: seq<byte>)
    ensures Carried(p) <==> |p| < U32
  {
    if |p| < U32 {
      ShortIsCarried(p);
    } else {
      var identity: Plugin := q => (0, q);
      assert InPlace(identity);
      LongIsCut(p);
      assert |p[..|p| % U32]| < |p|;
      assert Direct(identity, p) == Ok(p);
    }
  }

  // ---- the bytes themselves ----

  /** Lengths travel with their lowest byte first. */
  lemma LowestFirst(a: byte, b: byte, c: byte, d: byte)
    ensures FromLe32([a, b, c, d]) == a + 0x100 * b + 0x1_0000 * c + 0x100_0000 * d
    ensures Le32(a + 0x100 * b + 0x1_0000 * c + 0x100_0000 * d) == [a, b, c, d]
  {
    var n := a + 0x100 * b + 0x1_0000 * c + 0x100_0000 * d;
    assert n % 256 == a && n / 256 == b + 0x100 * c + 0x1_0000 * d;
    assert n / 256 % 256 == b && n / 256 / 256 == c + 0x100 * d;
    assert n / 256 / 256 % 256 == c && n / 256 / 256 / 256 == d;
  }

  /** The executor acknowledges the magic byte with version 1, whatever the third byte, and says nothing otherwise. */
  lemma GreetingBytes(plugin: Plugin, three: seq<byte>)
    requires |three| == 3
    ensures Output(plugin, Greeted([]), three) == if three[0] == 0xA1 && three[1] == 1 then [0xB2] else []
  {
    HandshakeAtOnce(plugin, three, []);
    assert three + [] == three;
    assert Output(plugin, Writing([0xB2]), []) == [0xB2] + Output(plugin, ReadLen([]), []);
  }

  /** A response cut short is never taken for one: the error says how far it came. */
  lemma CutResponse(plugin: Plugin, p: seq<byte>, k: nat)
    requires InPlace(plugin) && |p| < U32 && k < |Response(plugin, p)|
    ensures ReadResponse(Response(plugin, p)[..k])
         == (Err(if k == 0 then Exited else if k < 5 then Interrupted else Incomplete), [])
  {
    var r := Response(plugin, p);
    ResponseReadsBack(plugin, p, []);
    if k >= 5 {
      assert r[..k][1..5] == r[1..5];
    }
  }
}
