/** Reading compiler diagnostics back from their text, `extract_diagnostics`. */
module Diagnostics {
  import opened Integers
  import opened Wrappers
  import opened Text
  import opened Decimal

  const U32_MAX: nat := U32 - 1

  const HEAD: string := "error["
  const ARROW: string := "-->"

  datatype Diag = Diag(code: string, message: string, line: Option<nat>)

  // ---- the parser ----

  /** `trim_start_matches(": ")`. */
  function DropColons(s: string): (r: string)
    ensures !StartsWith(r, ": ") && |r| <= |s|
  {
    if StartsWith(s, ": ") then DropColons(s[2..]) else s
  }

  /** A header line after trimming, where HEAD was found at idx. None: no `]` follows, and the slice panics. */
  function ReadHeader(t: string, idx: nat): Option<Diag>
    requires idx + |HEAD| <= |t| && StartsWith(t[idx..], HEAD)
  {
    var close := Find(t[idx..], "]");
    if close.None? then None
    else
      assert close.value >= |HEAD| by {
        assert t[idx..][close.value..][..1][0] == ']';
        assert forall k :: 0 <= k < |HEAD| ==> t[idx..][..|HEAD|][k] != ']';
      }
      var end := idx + close.value;
      Some(Diag(t[idx + |HEAD|..end], DropColons(t[end + 1..]), None))
  }

  /** The line number of `path:line:column`. */
  function ReadLocation(rest: string): Option<nat> {
    var colon := RFind(rest, ':');
    if colon.None? then None
    else
      var before := rest[..colon.value];
      var colon2 := RFind(before, ':');
      if colon2.None? then None else ParseUnsigned(Trim(before[colon2.value + 1..]), U32_MAX)
  }

  /** One line of the input. None stands for the panic. */
  function OnLine(out: seq<Diag>, l: string): Option<seq<Diag>> {
    var t := Trim(l);
    var idx := Find(t, HEAD);
    if idx.Some? then
      var d := ReadHeader(t, idx.value);
      if d.None? then None else Some(out + [d.value])
    else if StartsWith(t, ARROW) && out != [] && out[|out| - 1].line.None? then
      var last := out[|out| - 1];
      Some(out[|out| - 1 := last.(line := ReadLocation(t[|ARROW|..]))])
    else
      Some(out)
  }

  function Parse(out: seq<Diag>, lines: seq<string>): Option<seq<Diag>>
    decreases lines
  {
    if lines == [] then Some(out)
    else
      var next := OnLine(out, lines[0]);
      if next.None? then None else Parse(next.value, lines[1..])
  }

  method ExtractDiagnostics(stderr: string) returns (r: Option<seq<Diag>>)
    ensures r == Parse([], Lines(stderr))
  {
    var lines := Lines(stderr);
    var out := [];
    assert lines[0..] == lines;
    for i := 0 to |lines|
      invariant Parse(out, lines[i..]) == Parse([], lines)
    {
      assert lines[i..][0] == lines[i] && lines[i..][1..] == lines[i + 1..];
      var t := Trim(lines[i]);
      var idx := Find(t, HEAD);
      if idx.Some? {
        var d := ReadHeader(t, idx.value);
        if d.None? {
          return None;
        }
        out := out + [d.value];
      } else if StartsWith(t, ARROW) {
        if out != [] && out[|out| - 1].line.None? {
          var n := ReadLocation(t[|ARROW|..]);
          out := out[|out| - 1 := out[|out| - 1].(line := n)];
        }
      }
    }
    r := Some(out);
  }

  // ---- when the parser panics ----

  /** The line opens a code that it never closes. */
  predicate Unclosed(l: string) {
    var idx := Find(Trim(l), HEAD);
    idx.Some? && !Contains(Trim(l)[idx.value..], "]")
  }

  /** Some line opens `error[` and never closes it: exactly then there is no result. */
  lemma {:induction false} PanicsIff(out: seq<Diag>, lines: seq<string>)
    ensures Parse(out, lines).None? <==> exists i :: 0 <= i < |lines| && Unclosed(lines[i])
    decreases lines
  {
    if lines != [] {
      var next := OnLine(out, lines[0]);
      if next.Some? {
        PanicsIff(next.value, lines[1..]);
        assert forall i :: 1 <= i < |lines| ==> lines[i] == lines[1..][i - 1];
      }
    }
  }

  lemma OpenCode(code: string)
    requires ']' !in code && (code != [] ==> !IsWhite(code[|code| - 1]))
    ensures Unclosed(HEAD + code)
  {
    var l := HEAD + code;
    TrimsTo("", l, "");
    assert "" + l + "" == l;
    assert l[0..] == l && l[..|HEAD|] == HEAD;
    FindAbsent(l, ']');
  }

  /** A line such as `error[E0308`, whatever the code, is enough. */
  lemma UnclosedPanics(code: string)
    requires ']' !in code && OneLine(code) && (code != [] ==> !IsWhite(code[|code| - 1]))
    ensures Parse([], Lines(HEAD + code)) == None
  {
    var l := HEAD + code;
    OnlyLine(l);
    OpenCode(code);
    PanicsIff([], [l]);
    assert [l][0] == l;
  }

  // ---- printing ----

  /** What follows a header: locations among lines of other text. The white space around each is free. */
  datatype BodyLine =
    | Location(before: string, path: string, line: nat, column: nat, after: string)
    | Other(text: string)

  datatype Block = Block(before: string, code: string, message: string, after: string, body: seq<BodyLine>)

  function HeaderText(code: string, message: string): string {
    HEAD + code + "]: " + message
  }

  function Place(path: string, line: nat, column: nat): string {
    " " + path + ":" + Print(line) + ":" + Print(column)
  }

  function LocationText(path: string, line: nat, column: nat): string {
    ARROW + Place(path, line, column)
  }

  function BodyText(b: BodyLine): string {
    match b
    case Location(before, path, line, column, after) => before + LocationText(path, line, column) + after
    case Other(text) => text
  }

  function BodyTexts(body: seq<BodyLine>): seq<string> {
    if body == [] then [] else [BodyText(body[0])] + BodyTexts(body[1..])
  }

  function BlockTexts(b: Block): seq<string> {
    [b.before + HeaderText(b.code, b.message) + b.after] + BodyTexts(b.body)
  }

  function Texts(blocks: seq<Block>): seq<string> {
    if blocks == [] then [] else BlockTexts(blocks[0]) + Texts(blocks[1..])
  }

  /** Text that opens no code and is no location. */
  predicate Ignorable(text: string) {
    !Contains(Trim(text), HEAD) && !StartsWith(Trim(text), ARROW)
  }

  predicate PlainBody(b: BodyLine) {
    match b
    case Location(before, path, line, _, after) =>
      AllWhite(before) && AllWhite(after) && !Contains(path, HEAD) && line <= U32_MAX
    case Other(text) => Ignorable(text)
  }

  predicate PlainBodies(body: seq<BodyLine>) {
    body == [] || (PlainBody(body[0]) && PlainBodies(body[1..]))
  }

  /** A message that survives the trims around it. */
  predicate PlainMessage(message: string) {
    message != [] && !IsWhite(message[|message| - 1]) && !StartsWith(message, ": ")
  }

  predicate PlainBlock(b: Block) {
    && AllWhite(b.before) && AllWhite(b.after) && ']' !in b.code && PlainMessage(b.message)
    && PlainBodies(b.body)
  }

  predicate PlainBlocks(blocks: seq<Block>) {
    blocks == [] || (PlainBlock(blocks[0]) && PlainBlocks(blocks[1..]))
  }

  /** The line of the first location. */
  function FirstLocation(body: seq<BodyLine>): Option<nat> {
    if body == [] then None
    else if body[0].Location? then Some(body[0].line)
    else FirstLocation(body[1..])
  }

  /** The diagnostic that a block states. */
  function Stated(b: Block): Diag {
    Diag(b.code, b.message, FirstLocation(b.body))
  }

  function AllStated(blocks: seq<Block>): (ds: seq<Diag>)
    ensures |ds| == |blocks|
  {
    if blocks == [] then [] else [Stated(blocks[0])] + AllStated(blocks[1..])
  }

  // ---- parsing inverts printing ----

  lemma FindAt(s: string, pat: string, i: nat)
    requires i + |pat| <= |s| && StartsWith(s[i..], pat)
    requires forall j :: 0 <= j < i ==> !StartsWith(s[j..], pat)
    ensures Find(s, pat) == Some(i)
  {
    FindIsFirst(s, pat);
  }

  lemma FindClose(code: string, rest: string)
    requires ']' !in code
    ensures Find(HEAD + code + "]" + rest, "]") == Some(|HEAD| + |code|)
  {
    var s := HEAD + code + "]" + rest;
    var n := |HEAD| + |code|;
    assert s[n..] == "]" + rest;
    forall j | 0 <= j < n ensures !StartsWith(s[j..], "]") {
      assert s[j] == if j < |HEAD| then HEAD[j] else code[j - |HEAD|];
      assert s[j..] != [] && s[j..][..1][0] == s[j];
    }
    FindAt(s, "]", n);
  }

  /** A header whose code has no bracket gives the code back, and what follows the bracket less its colons. */
  lemma HeaderRead(code: string, rest: string)
    requires ']' !in code
    ensures Find(HEAD + code + "]" + rest, HEAD) == Some(0)
    ensures ReadHeader(HEAD + code + "]" + rest, 0) == Some(Diag(code, DropColons(rest), None))
  {
    var t := HEAD + code + "]" + rest;
    assert t[0..] == t && t[..|HEAD|] == HEAD;
    FindClose(code, rest);
    assert t[|HEAD|..|HEAD| + |code|] == code && t[|HEAD| + |code| + 1..] == rest;
  }

  lemma HeaderStep(out: seq<Diag>, b: Block)
    requires AllWhite(b.before) && AllWhite(b.after) && ']' !in b.code && PlainMessage(b.message)
    ensures OnLine(out, b.before + HeaderText(b.code, b.message) + b.after)
         == Some(out + [Diag(b.code, b.message, None)])
  {
    var t := HeaderText(b.code, b.message);
    TrimsTo(b.before, t, b.after);
    var rest := ": " + b.message;
    assert t == HEAD + b.code + "]" + rest;
    HeaderRead(b.code, rest);
    assert rest[2..] == b.message && rest[..2] == ": ";
  }

  /** What the parser takes for the message: the rest of the trimmed line, less its colons. */
  function Received(message: string): string {
    if TrimEnd(message) == "" then ":" else DropColons(": " + TrimEnd(message))
  }

  lemma HeaderReceived(out: seq<Diag>, code: string, message: string)
    requires ']' !in code
    ensures OnLine(out, HeaderText(code, message)) == Some(out + [Diag(code, Received(message), None)])
  {
    var kept := TrimEnd(message);
    if kept == "" {
      var shown := HEAD + code + "]:";
      var white := " " + message;
      assert HeaderText(code, message) == "" + shown + white;
      TrimsTo("", shown, white);
      HeaderRead(code, ":");
      assert shown == HEAD + code + "]" + ":";
      assert DropColons(":") == ":";
    } else {
      var shown := HEAD + code + "]" + (": " + kept);
      assert HeaderText(code, message) == "" + shown + message[|kept|..];
      TrimsTo("", shown, message[|kept|..]);
      HeaderRead(code, ": " + kept);
    }
  }

  lemma ReceivedIff(message: string)
    ensures Received(message) == message <==> PlainMessage(message)
  {
    var kept := TrimEnd(message);
    if kept == "" {
      assert message != "" ==> IsWhite(message[0]);
    } else {
      assert (": " + kept)[2..] == kept && (": " + kept)[..2] == ": ";
      assert Received(message) == DropColons(kept);
    }
  }

  /** The code up to its first bracket, and what follows that. */
  lemma SplitCode(code: string) returns (front: string, back: string)
    requires ']' in code
    ensures ']' !in front && code == front + "]" + back
  {
    var k :| 0 <= k < |code| && code[k] == ']' && ']' !in code[..k] by {
      FirstBracket(code);
    }
    front, back := code[..k], code[k + 1..];
  }

  lemma {:induction false} FirstBracket(code: string)
    requires ']' in code
    ensures exists k :: 0 <= k < |code| && code[k] == ']' && ']' !in code[..k]
  {
    if code[0] == ']' {
      assert ']' !in code[..0];
    } else {
      FirstBracket(code[1..]);
      var k :| 0 <= k < |code| - 1 && code[1..][k] == ']' && ']' !in code[1..][..k];
      assert code[..k + 1] == [code[0]] + code[1..][..k];
      assert code[k + 1] == ']';
    }
  }

  /** Trimming a header takes nothing off before the colon. */
  lemma HeaderTrimmed(code: string, message: string) returns (rest: string)
    ensures Trim(HeaderText(code, message)) == HEAD + code + "]" + rest
  {
    var kept := TrimEnd(message);
    rest := if kept == "" then ":" else ": " + kept;
    var shown := HEAD + code + "]" + rest;
    var white := if kept == "" then " " + message else message[|kept|..];
    assert HeaderText(code, message) == "" + shown + white;
    TrimsTo("", shown, white);
  }

  /** A code with a bracket is cut at the first one. */
  lemma BracketCutsCode(out: seq<Diag>, code: string, message: string) returns (d: Diag)
    requires ']' in code
    ensures OnLine(out, HeaderText(code, message)) == Some(out + [d]) && |d.code| < |code|
  {
    var front, back := SplitCode(code);
    var rest := HeaderTrimmed(code, message);
    assert HEAD + code + "]" + rest == HEAD + front + "]" + (back + "]" + rest);
    HeaderRead(front, back + "]" + rest);
    d := Diag(front, DropColons(back + "]" + rest), None);
  }

  /**
   A header comes back exactly when its code holds no bracket and its message is not empty, ends in no
   white space and does not start with `: `.
   */
  lemma HeaderReadsBackIff(out: seq<Diag>, code: string, message: string)
    ensures OnLine(out, HeaderText(code, message)) == Some(out + [Diag(code, message, None)])
       <==> ']' !in code && PlainMessage(message)
  {
    var meant := out + [Diag(code, message, None)];
    if ']' in code {
      var d := BracketCutsCode(out, code, message);
      assert (out + [d])[|out|] != meant[|out|];
    } else {
      HeaderReceived(out, code, message);
      ReceivedIff(message);
      var read := out + [Diag(code, Received(message), None)];
      assert read == meant ==> read[|out|] == meant[|out|];
    }
  }

  /** Neither the arrow nor the numbers hold a character of HEAD, so a location opens a code only in its path. */
  lemma OpensInPath(path: string, tail: string, i: nat)
    requires forall k :: 0 <= k < |tail| ==> tail[k] == ':' || IsDigit(tail[k])
    requires i <= |ARROW + (" " + path + tail)|
    requires StartsWith((ARROW + (" " + path + tail))[i..], HEAD)
    ensures 4 <= i && i - 4 <= |path| && StartsWith(path[i - 4..], HEAD)
  {
    var t := ARROW + (" " + path + tail);
    assert t[i..][..6][0] == t[i] && t[i..][..6][5] == t[i + 5];
    assert forall k :: 4 + |path| <= k < |t| ==> t[k] == tail[k - 4 - |path|];
    assert path[i - 4..][..6] == t[i..][..6];
  }

  lemma LocationOpensNothing(path: string, line: nat, column: nat)
    requires !Contains(path, HEAD)
    ensures !Contains(LocationText(path, line, column), HEAD)
  {
    var t := LocationText(path, line, column);
    var tail := ":" + Print(line) + ":" + Print(column);
    assert Place(path, line, column) == " " + path + tail;
    FindIsFirst(path, HEAD);
    var r := Find(t, HEAD);
    if r.Some? {
      OpensInPath(path, tail, r.value);
    }
  }

  lemma LocationRead(path: string, line: nat, column: nat)
    ensures ReadLocation(Place(path, line, column)) == if line <= U32_MAX then Some(line) else None
  {
    var before := " " + path + ":" + Print(line);
    RFindIs(before, ':', Print(column));
    assert (before + ":" + Print(column))[..|before|] == before;
    RFindIs(" " + path, ':', Print(line));
    assert before[|path| + 2..] == Print(line);
    TrimsTo("", Print(line), "");
    assert "" + Print(line) + "" == Print(line);
    ParsesBack(line, U32_MAX);
  }

  /** What a line of the body does to the diagnostic above it. */
  function Located(d: Diag, b: BodyLine): Diag {
    if b.Location? && d.line.None? then d.(line := Some(b.line)) else d
  }

  lemma LocationShape(path: string, line: nat, column: nat)
    ensures var t := LocationText(path, line, column);
      && !IsWhite(t[0]) && !IsWhite(t[|t| - 1]) && StartsWith(t, ARROW)
      && t[|ARROW|..] == Place(path, line, column)
  {
    var place := Place(path, line, column);
    assert place[|place| - 1] == Print(column)[|Print(column)| - 1];
  }

  /** A line the parser takes for a location. */
  predicate Locates(l: string, n: nat) {
    var t := Trim(l);
    Find(t, HEAD).None? && StartsWith(t, ARROW) && ReadLocation(t[|ARROW|..]) == Some(n)
  }

  lemma LocationLine(b: BodyLine)
    requires PlainBody(b) && b.Location?
    ensures Locates(BodyText(b), b.line)
  {
    LocationShape(b.path, b.line, b.column);
    TrimsTo(b.before, LocationText(b.path, b.line, b.column), b.after);
    LocationOpensNothing(b.path, b.line, b.column);
    LocationRead(b.path, b.line, b.column);
  }

  lemma LocatesStep(out: seq<Diag>, d: Diag, l: string, n: nat)
    requires Locates(l, n)
    ensures OnLine([], l) == Some([])
    ensures OnLine(out + [d], l) == Some(out + [if d.line.None? then d.(line := Some(n)) else d])
  {
    assert (out + [d])[|out| := d.(line := Some(n))] == out + [d.(line := Some(n))];
  }

  lemma BodyStep(out: seq<Diag>, d: Diag, b: BodyLine)
    requires PlainBody(b)
    ensures OnLine(out + [d], BodyText(b)) == Some(out + [Located(d, b)])
  {
    if b.Location? {
      LocationLine(b);
      LocatesStep(out, d, BodyText(b), b.line);
    }
  }

  /** A line that belongs to no diagnostic changes nothing. */
  lemma PreambleStep(b: BodyLine)
    requires PlainBody(b)
    ensures OnLine([], BodyText(b)) == Some([])
  {
    if b.Location? {
      LocationLine(b);
      LocatesStep([], Diag("", "", None), BodyText(b), b.line);
    }
  }

  lemma BodyLineRead(out: seq<Diag>, d: Diag, b: BodyLine, rest: seq<string>)
    requires PlainBody(b)
    ensures Parse(out + [d], [BodyText(b)] + rest) == Parse(out + [Located(d, b)], rest)
  {
    BodyStep(out, d, b);
    assert ([BodyText(b)] + rest)[1..] == rest;
  }

  lemma {:induction false} BodyRead(out: seq<Diag>, d: Diag, body: seq<BodyLine>, rest: seq<string>)
    requires PlainBodies(body)
    ensures Parse(out + [d], BodyTexts(body) + rest)
         == Parse(out + [if d.line.Some? then d else d.(line := FirstLocation(body))], rest)
    decreases body
  {
    if body == [] {
      assert BodyTexts(body) + rest == rest;
    } else {
      assert BodyTexts(body) + rest == [BodyText(body[0])] + (BodyTexts(body[1..]) + rest);
      BodyLineRead(out, d, body[0], BodyTexts(body[1..]) + rest);
      BodyRead(out, Located(d, body[0]), body[1..], rest);
    }
  }

  lemma PreambleLineRead(b: BodyLine, rest: seq<string>)
    requires PlainBody(b)
    ensures Parse([], [BodyText(b)] + rest) == Parse([], rest)
  {
    PreambleStep(b);
    assert ([BodyText(b)] + rest)[1..] == rest;
  }

  lemma {:induction false} PreambleRead(body: seq<BodyLine>, rest: seq<string>)
    requires PlainBodies(body)
    ensures Parse([], BodyTexts(body) + rest) == Parse([], rest)
    decreases body
  {
    if body == [] {
      assert BodyTexts(body) + rest == rest;
    } else {
      assert BodyTexts(body) + rest == [BodyText(body[0])] + (BodyTexts(body[1..]) + rest);
      PreambleLineRead(body[0], BodyTexts(body[1..]) + rest);
      PreambleRead(body[1..], rest);
    }
  }

  lemma BlockRead(out: seq<Diag>, b: Block, rest: seq<string>)
    requires PlainBlock(b)
    ensures Parse(out, BlockTexts(b) + rest) == Parse(out + [Stated(b)], rest)
  {
    HeaderStep(out, b);
    assert (BlockTexts(b) + rest)[1..] == BodyTexts(b.body) + rest;
    BodyRead(out, Diag(b.code, b.message, None), b.body, rest);
  }

  lemma {:induction false} BlocksRead(out: seq<Diag>, blocks: seq<Block>)
    requires PlainBlocks(blocks)
    ensures Parse(out, Texts(blocks)) == Some(out + AllStated(blocks))
    decreases blocks
  {
    if blocks == [] {
      assert out + AllStated(blocks) == out;
    } else {
      BlockRead(out, blocks[0], Texts(blocks[1..]));
      BlocksRead(out + [Stated(blocks[0])], blocks[1..]);
      assert out + [Stated(blocks[0])] + AllStated(blocks[1..]) == out + AllStated(blocks);
    }
  }

  /** A carriage return before the newline is trimmed with the rest. */
  lemma {:induction false} LinesParseAlike(out: seq<Diag>, lines: seq<string>)
    requires forall k :: 0 <= k < |lines| ==> OneLine(lines[k])
    ensures Parse(out, Lines(Unlines(lines))) == Parse(out, lines)
    decreases lines
  {
    if lines != [] {
      var rest := Unlines(lines[1..]);
      FirstLine(lines[0], rest);
      TrimChomp(lines[0]);
      assert ([Chomp(lines[0])] + Lines(rest))[1..] == Lines(rest);
      var next := OnLine(out, lines[0]);
      assert OnLine(out, Chomp(lines[0])) == next;
      if next.Some? {
        LinesParseAlike(next.value, lines[1..]);
      }
    }
  }

  /**
   * Parsing inverts printing: blocks of a header and its locations, among other text and after any preamble,
   * come back as the diagnostics they state, each with the first of its locations.
   */
  lemma ParsingInvertsPrinting(preamble: seq<BodyLine>, blocks: seq<Block>)
    requires PlainBodies(preamble)
    requires PlainBlocks(blocks)
    requires forall l :: l in BodyTexts(preamble) + Texts(blocks) ==> OneLine(l)
    ensures Parse([], Lines(Unlines(BodyTexts(preamble) + Texts(blocks)))) == Some(AllStated(blocks))
  {
    LinesParseAlike([], BodyTexts(preamble) + Texts(blocks));
    PreambleRead(preamble, Texts(blocks));
    BlocksRead([], blocks);
    assert [] + AllStated(blocks) == AllStated(blocks);
  }

  /** With fewer than two colons there is no line number. */
  lemma TwoColonsNeeded(a: string, b: string)
    requires ':' !in a && ':' !in b
    ensures ReadLocation(a) == None && ReadLocation(a + ":" + b) == None
  {
    RFindIs(a, ':', b);
    assert (a + ":" + b)[..|a|] == a;
  }

  /** Reading a header depends on nothing in front of it. */
  lemma ReadsFromHead(front: string, s: string)
    requires StartsWith(s, HEAD)
    ensures StartsWith((front + s)[|front|..], HEAD) && StartsWith(s[0..], HEAD)
    ensures ReadHeader(front + s, |front|) == ReadHeader(s, 0)
  {
    var t := front + s;
    assert t[|front|..] == s && s[0..] == s;
    var close := Find(s, "]");
    if close.Some? {
      CloseComesLater(s, close.value);
      assert t[|front| + |HEAD|..|front| + close.value] == s[|HEAD|..close.value];
      assert t[|front| + close.value + 1..] == s[close.value + 1..];
    }
  }

  lemma CloseComesLater(s: string, k: nat)
    requires StartsWith(s, HEAD) && Find(s, "]") == Some(k)
    ensures |HEAD| <= k < |s|
  {
    assert s[k..][..1][0] == s[k] == ']';
    assert forall i :: 0 <= i < |HEAD| ==> s[..|HEAD|][i] == s[i];
  }

  /** A header is found behind other text, too, as long as that opens no code, and read as if it stood alone. */
  lemma HeaderBehind(front: string, code: string, rest: string)
    requires ']' !in code
    requires forall j :: 0 <= j < |front| ==> !StartsWith((front + (HEAD + code + "]" + rest))[j..], HEAD)
    ensures var t := front + (HEAD + code + "]" + rest);
      Find(t, HEAD) == Some(|front|) && ReadHeader(t, |front|) == Some(Diag(code, DropColons(rest), None))
  {
    var s := HEAD + code + "]" + rest;
    assert s[..|HEAD|] == HEAD;
    ReadsFromHead(front, s);
    FindAt(front + s, HEAD, |front|);
    HeaderRead(code, rest);
  }
}
