/** The text protocol of the sandbox: one decimal number per line, `-999` for a refusal. */
module SandboxText {
  import opened Integers
  import opened Wrappers
  import opened Text
  import opened Decimal

  /** What `mw_enter` writes over its input and the code it returns; and `mw_exit`, if there is one. */
  datatype Plugin = Plugin(call: i32 -> (i32, int), leave: Option<i32 -> i32>) {
    /** What a chain does to its output on the way out. */
    function Leave(output: i32): i32 {
      if leave.Some? then (leave.value)(output) else output
    }
  }

  const CONTINUE := 0
  const BREAK := 1

  /** What `run` reports as an error; Halted only comes from a chain in the same process. */
  datatype TextError = WriteFailed | Exited | BadOutput | PluginFailed | Halted

  type TextResult = Result<i32, TextError>

  const SENTINEL: i32 := -999

  // ---- the executor's half ----

  /** Both Continue and Break are Ok to the executor, which answers with the value; other codes with the sentinel. */
  function Out(plugin: Plugin, input: i32): i32 {
    var (value, code) := plugin.call(input);
    if code == CONTINUE || code == BREAK then value else SENTINEL
  }

  /** The answer to one line. An input that does not parse counts as 0. */
  function Answer(plugin: Plugin, line: string): string {
    var n := ParseI32(Trim(line));
    var input: i32 := if n.Some? then n.value else 0;
    PrintSigned(Out(plugin, input)) + "\n"
  }

  function Answers(plugin: Plugin, lines: seq<string>): string {
    if lines == [] then "" else Answer(plugin, lines[0]) + Answers(plugin, lines[1..])
  }

  method Serve(plugin: Plugin, line: string) returns (answer: string)
    ensures answer == Answer(plugin, line)
  {
    var n := ParseI32(Trim(line));
    var input: i32 := 0;
    if n.Some? {
      input := n.value;
    }
    var r := (plugin.call)(input);
    var out: i32 := SENTINEL;
    if r.1 == CONTINUE || r.1 == BREAK {
      out := r.0;
    }
    answer := PrintSigned(out) + "\n";
  }

  method TextMode(plugin: Plugin, input: string) returns (output: string)
    ensures output == Answers(plugin, Lines(input))
  {
    var lines := Lines(input);
    output := "";
    assert lines[0..] == lines;
    for i := 0 to |lines|
      invariant output + Answers(plugin, lines[i..]) == Answers(plugin, lines)
    {
      assert lines[i..][0] == lines[i] && lines[i..][1..] == lines[i + 1..];
      var answer := Serve(plugin, lines[i]);
      ghost var rest := Answers(plugin, lines[i + 1..]);
      assert output + (answer + rest) == output + answer + rest;
      output := output + answer;
    }
  }

  // ---- the host's half ----

  /** `read_line`: up to and including the newline, or what is left. */
  function ReadLine(stream: string): (string, string) {
    var i := Find(stream, "\n");
    if i.None? then (stream, "") else (stream[..i.value + 1], stream[i.value + 1..])
  }

  function Judge(line: string): TextResult {
    if line == "" then Err(Exited)
    else
      var v := ParseI32(Trim(line));
      if v.None? then Err(BadOutput)
      else if v.value == SENTINEL then Err(PluginFailed)
      else Ok(v.value)
  }

  class TextSandbox {
    var writable: bool      // the child still holds the other end of its stdin
    var stdin: string
    var stdout: string

    constructor (writable: bool, childOutput: string)
      ensures this.writable == writable && stdin == "" && stdout == childOutput
    {
      this.writable, stdin, stdout := writable, "", childOutput;
    }

    /** A child that is gone fails the write, and nothing is read. */
    method Run(input: i32) returns (r: TextResult)
      modifies this`stdin, this`stdout
      ensures !writable ==> r == Err(WriteFailed) && stdin == old(stdin) && stdout == old(stdout)
      ensures writable ==> stdin == old(stdin) + PrintSigned(input) + "\n"
      ensures writable ==> (r, stdout) == (Judge(ReadLine(old(stdout)).0), ReadLine(old(stdout)).1)
    {
      if !writable {
        return Err(WriteFailed);
      }
      stdin := stdin + PrintSigned(input) + "\n";
      var read := ReadLine(stdout);
      var line := read.0;
      stdout := read.1;
      if line == "" {
        return Err(Exited);
      }
      var v := ParseI32(Trim(line));
      match v
      case None => r := Err(BadOutput);
      case Some(n) =>
        if n == SENTINEL {
          r := Err(PluginFailed);
        } else {
          r := Ok(n);
        }
    }
  }

  // ---- the two halves together ----

  lemma {:induction false} PrintIsPlain(i: int)
    ensures var s := PrintSigned(i);
      && s != "" && OneLine(s) && !IsWhite(s[0]) && !IsWhite(s[|s| - 1]) && s[|s| - 1] != '\r'
  {
    var s := PrintSigned(i);
    assert forall k :: 0 <= k < |s| ==> s[k] == '-' || IsDigit(s[k]);
  }

  lemma PrintTrims(i: int, after: string)
    requires AllWhite(after)
    ensures Trim(PrintSigned(i) + after) == PrintSigned(i)
  {
    PrintIsPlain(i);
    TrimsTo("", PrintSigned(i), after);
    assert "" + PrintSigned(i) + after == PrintSigned(i) + after;
  }

  lemma JudgeNumber(v: i32, after: string)
    requires AllWhite(after)
    ensures Judge(PrintSigned(v) + after) == if v == SENTINEL then Err(PluginFailed) else Ok(v)
  {
    PrintTrims(v, after);
    ParsesBackSigned(v);
    PrintIsPlain(v);
  }

  lemma LineOff(line: string, rest: string)
    requires OneLine(line)
    ensures ReadLine(line + "\n" + rest) == (line + "\n", rest)
  {
    var stream := line + "\n" + rest;
    assert stream[|line|..] == "\n" + rest;
    FindIsFirst(stream, "\n");
    var i := Find(stream, "\n").value;
    assert stream[i..][..1][0] == '\n';
    assert i == |line|;
  }

  /** What a chain of this one plugin gives to a caller in the same process: Break halts it, and its exit runs. */
  function Direct(plugin: Plugin, input: i32): TextResult {
    var (value, code) := plugin.call(input);
    if code == CONTINUE then Ok(plugin.Leave(value)) else if code == BREAK then Err(Halted) else Err(PluginFailed)
  }

  /** What the host reports: a value, Break or not, unless it looks like the sentinel. */
  function Reported(plugin: Plugin, input: i32): TextResult {
    if Out(plugin, input) == SENTINEL then Err(PluginFailed) else Ok(Out(plugin, input))
  }

  /** A plugin and an input for which the line protocol loses nothing. */
  predicate Carries(plugin: Plugin, input: i32) {
    var (value, code) := plugin.call(input);
    code != BREAK && (code == CONTINUE ==> value != SENTINEL && plugin.Leave(value) == value)
  }

  /**
   Calling through the text protocol is calling directly exactly when the plugin does not break, and, if it
   continues, its value is not the sentinel and its exit leaves the value alone.
   */
  lemma TextIsFaithfulIff(plugin: Plugin, input: i32)
    ensures Judge(Answer(plugin, PrintSigned(input))) == Reported(plugin, input)
    ensures Judge(Answer(plugin, PrintSigned(input))) == Direct(plugin, input) <==> Carries(plugin, input)
  {
    PrintTrims(input, "");
    assert PrintSigned(input) + "" == PrintSigned(input);
    ParsesBackSigned(input);
    JudgeNumber(Out(plugin, input), "\n");
  }

  /** A plugin that writes 7 and breaks: success for the host, a halted chain for a direct caller. */
  lemma BreakReportedAsSuccess(input: i32)
    ensures var plugin := Plugin(_ => (7, BREAK), None);
      && Judge(Answer(plugin, PrintSigned(input))) == Ok(7)
      && Direct(plugin, input) == Err(Halted)
  {
    TextIsFaithfulIff(Plugin(_ => (7, BREAK), None), input);
  }

  /** The sample plugin: tenfold on the way in, a hundred more on the way out. */
  const SAMPLE := Plugin((n: i32) => (Wrap32(10 * n), CONTINUE), Some((n: i32) => Wrap32(n + 100)))

  /** From 5 the host gets 50, a direct caller 150. */
  lemma ExitIsSkipped()
    ensures Judge(Answer(SAMPLE, PrintSigned(5))) == Ok(50) && Direct(SAMPLE, 5) == Ok(150)
  {
    TextIsFaithfulIff(SAMPLE, 5);
  }

  function Requests(inputs: seq<i32>): string {
    if inputs == [] then "" else PrintSigned(inputs[0]) + "\n" + Requests(inputs[1..])
  }

  /** What a host reads off a stream in n calls, and what it leaves. */
  function ReadAll(stream: string, n: nat): (seq<TextResult>, string)
    decreases n
  {
    if n == 0 then ([], stream)
    else
      var (line, rest) := ReadLine(stream);
      var (rs, left) := ReadAll(rest, n - 1);
      ([Judge(line)] + rs, left)
  }

  function AllReported(plugin: Plugin, inputs: seq<i32>): seq<TextResult> {
    if inputs == [] then [] else [Reported(plugin, inputs[0])] + AllReported(plugin, inputs[1..])
  }

  lemma AnswerOff(plugin: Plugin, line: string, rest: string)
    ensures ReadLine(Answer(plugin, line) + rest) == (Answer(plugin, line), rest)
  {
    var n := ParseI32(Trim(line));
    var out := PrintSigned(Out(plugin, if n.Some? then n.value else 0));
    PrintIsPlain(Out(plugin, if n.Some? then n.value else 0));
    LineOff(out, rest);
    assert Answer(plugin, line) + rest == out + "\n" + rest;
  }

  /** A whole session: every call gets the report for its own input, in order, and nothing is left over. */
  lemma {:induction false} SessionInOrder(plugin: Plugin, inputs: seq<i32>)
    ensures ReadAll(Answers(plugin, Lines(Requests(inputs))), |inputs|) == (AllReported(plugin, inputs), "")
  {
    if inputs != [] {
      var line, more := PrintSigned(inputs[0]), Lines(Requests(inputs[1..]));
      PrintIsPlain(inputs[0]);
      FirstLine(line, Requests(inputs[1..]));
      assert ([line] + more)[1..] == more;
      AnswerOff(plugin, line, Answers(plugin, more));
      TextIsFaithfulIff(plugin, inputs[0]);
      SessionInOrder(plugin, inputs[1..]);
    }
  }

  // ---- an answer cut short ----

  /** A proper prefix of a printed number is a lone sign, or another number nearer to 0. */
  lemma CutIsNumber(v: int, k: nat) returns (m: int)
    requires 0 < k < |PrintSigned(v)|
    ensures PrintSigned(v)[..k] == "-" || (PrintSigned(v)[..k] == PrintSigned(m) && m != v)
    ensures (0 <= m <= v) || (v <= m <= 0)
  {
    if v >= 0 {
      m := PrefixIsSmaller(v, k);
    } else if k == 1 {
      m := 0;
    } else {
      var p: int := PrefixIsSmaller(-v, k - 1);
      PrefixPositive(-v, k - 1);
      m := 0 - p;
    }
  }

  lemma CutNumber(v: i32, k: nat)
    requires k < |PrintSigned(v)|
    ensures Judge(PrintSigned(v)[..k]) != Judge(PrintSigned(v))
  {
    var s := PrintSigned(v);
    JudgeNumber(v, "");
    assert s + "" == s;
    if k > 0 {
      var m := CutIsNumber(v, k);
      if s[..k] == "-" {
        TrimsTo("", "-", "");
        assert "" + "-" + "" == "-";
      } else {
        JudgeNumber(m, "");
        assert s[..k] + "" == s[..k];
      }
    }
  }

  lemma {:induction false} PrefixPositive(n: nat, k: nat)
    requires 0 < n && 0 < k <= |Print(n)|
    ensures Print(n)[..k] != Print(0)
  {
    if n >= 10 && k < |Print(n)| {
      assert Print(n)[..k] == Print(n / 10)[..k];
      PrefixPositive(n / 10, k);
    } else if n < 10 {
      assert Print(n)[..k] == Print(n);
      assert Print(n)[0] != Print(0)[0];
    } else {
      assert Print(n)[..k] == Print(n);
      assert |Print(n)| > 1 && |Print(0)| == 1;
    }
  }

  /** If the executor dies in the middle of an answer, the host notices unless only the newline is missing. */
  lemma CutAnswerIff(v: i32, k: nat)
    requires k <= |PrintSigned(v)| + 1
    ensures Judge((PrintSigned(v) + "\n")[..k]) == Judge(PrintSigned(v) + "\n") <==> k >= |PrintSigned(v)|
  {
    var s := PrintSigned(v);
    if k > |s| {
      assert (s + "\n")[..k] == s + "\n";
    } else {
      assert (s + "\n")[..k] == s[..k];
      JudgeNumber(v, "");
      JudgeNumber(v, "\n");
      assert s + "" == s == s[..|s|];
      if k < |s| {
        CutNumber(v, k);
      }
    }
  }

  /** Where it does not notice, it may even report success with another number. */
  lemma CutAnswerMisread()
    ensures Judge("12\n") == Ok(12) && Judge("12\n"[..1]) == Ok(1)
  {
    assert Print(1) == "1" && Print(12) == "12";
    JudgeNumber(12, "\n");
    JudgeNumber(1, "");
    assert "12\n"[..1] == PrintSigned(1) + "" && "12\n" == PrintSigned(12) + "\n";
  }

  // ---- lines that hold no number, and the sentinel ----

  /** The executor answers a line it cannot read as it answers a 0. */
  lemma GarbageIsZero(plugin: Plugin, line: string)
    requires ParseI32(Trim(line)).None?
    ensures Answer(plugin, line) == Answer(plugin, "0")
  {
    assert Print(0) == "0";
    PrintTrims(0, "");
    ParsesBackSigned(0);
    assert PrintSigned(0) + "" == "0";
  }

  /** The host tells apart an end of stream, a line that is no number, the refusal `-999`, and any other number. */
  lemma JudgeCases(line: string, v: i32)
    ensures Judge("") == Err(Exited)
    ensures line != "" && ParseI32(Trim(line)).None? ==> Judge(line) == Err(BadOutput)
    ensures Judge("-999\n") == Err(PluginFailed)
    ensures v != -999 ==> Judge(PrintSigned(v) + "\n") == Ok(v)
  {
    JudgeNumber(v, "\n");
    RefusalPrinted();
    JudgeNumber(-999, "\n");
  }

  lemma RefusalPrinted()
    ensures PrintSigned(-999) + "\n" == "-999\n"
  {
    assert Print(9) == "9" && Print(99) == "99" && Print(999) == "999";
  }
}
