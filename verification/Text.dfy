/** The string searches and trims that the source uses, on Unicode characters. */
module Text {
  import opened Wrappers

  /** `s.starts_with(pat)`. */
  predicate StartsWith(s: string, pat: string) {
    |pat| <= |s| && s[..|pat|] == pat
  }

  /** `s.find(pat)`: a position where `pat` occurs. */
  function Find(s: string, pat: string): (r: Option<nat>)
    ensures r.Some? ==> r.value + |pat| <= |s| && StartsWith(s[r.value..], pat)
  {
    if StartsWith(s, pat) then
      assert s[0..] == s;
      Some(0)
    else if s == [] then None
    else
      var r := Find(s[1..], pat);
      if r.Some? then
        assert s[1..][r.value..] == s[r.value + 1..];
        Some(r.value + 1)
      else None
  }

  /** It is the first such position, and there is none only if `pat` does not occur. */
  lemma {:induction false} FindIsFirst(s: string, pat: string)
    ensures var r := Find(s, pat);
      && (r.Some? ==> forall i :: 0 <= i < r.value ==> !StartsWith(s[i..], pat))
      && (r.None? ==> forall i :: 0 <= i <= |s| ==> !StartsWith(s[i..], pat))
  {
    assert s[0..] == s;
    if s != [] && !StartsWith(s, pat) {
      FindIsFirst(s[1..], pat);
      assert forall i :: 1 <= i <= |s| ==> s[i..] == s[1..][i - 1..];
    }
  }

  lemma {:induction false} FindAbsent(s: string, c: char)
    requires c !in s
    ensures Find(s, [c]).None?
  {
    if s != [] {
      assert s[..1][0] == s[0];
      FindAbsent(s[1..], c);
    }
  }

  /** `s.contains(pat)`. */
  predicate Contains(s: string, pat: string) {
    Find(s, pat).Some?
  }

  /** `s.rfind(c)` for one character. */
  function RFind(s: string, c: char): (r: Option<nat>)
    ensures r.Some? ==> r.value < |s| && s[r.value] == c && c !in s[r.value + 1..]
    ensures r.None? ==> c !in s
  {
    if s == [] then None
    else if s[|s| - 1] == c then Some(|s| - 1)
    else
      assert s == s[..|s| - 1] + [s[|s| - 1]];
      var r := RFind(s[..|s| - 1], c);
      assert r.Some? ==> s[r.value + 1..] == s[..|s| - 1][r.value + 1..] + [s[|s| - 1]];
      r
  }

  /** The last occurrence is the one with none after it. */
  lemma {:induction false} RFindIs(a: string, c: char, b: string)
    requires c !in b
    ensures RFind(a + [c] + b, c) == Some(|a|)
  {
    if b != [] {
      var n := |b| - 1;
      assert (a + [c] + b)[..|a| + 1 + n] == a + [c] + b[..n];
      assert b[n] in b;
      RFindIs(a, c, b[..n]);
    }
  }

  // ---- white space ----

  /** `char::is_whitespace`. */
  predicate IsWhite(c: char) {
    var n := c as int;
    || 9 <= n <= 13 || n == 0x20 || n == 0x85 || n == 0xA0 || n == 0x1680
    || 0x2000 <= n <= 0x200A || n == 0x2028 || n == 0x2029 || n == 0x202F || n == 0x205F || n == 0x3000
  }

  predicate AllWhite(s: string) {
    forall i :: 0 <= i < |s| ==> IsWhite(s[i])
  }

  function TrimStart(s: string): string {
    if s != [] && IsWhite(s[0]) then TrimStart(s[1..]) else s
  }

  function TrimEnd(s: string): (r: string)
    ensures r <= s && (r == [] || !IsWhite(r[|r| - 1])) && AllWhite(s[|r|..])
  {
    if s != [] && IsWhite(s[|s| - 1]) then
      var r := TrimEnd(s[..|s| - 1]);
      assert s[|r|..] == s[..|s| - 1][|r|..] + [s[|s| - 1]];
      r
    else s
  }

  /** `s.trim()`. */
  function Trim(s: string): string {
    TrimStart(TrimEnd(s))
  }

  lemma {:induction false} TrimStartSkips(white: string, s: string)
    requires AllWhite(white) && (s == [] || !IsWhite(s[0]))
    ensures TrimStart(white + s) == s
  {
    if white == [] {
      assert white + s == s;
    } else {
      assert (white + s)[1..] == white[1..] + s;
      TrimStartSkips(white[1..], s);
    }
  }

  lemma {:induction false} TrimEndSkips(s: string, white: string)
    requires AllWhite(white) && (s == [] || !IsWhite(s[|s| - 1]))
    ensures TrimEnd(s + white) == s
  {
    if white == [] {
      assert s + white == s;
    } else {
      var n := |white| - 1;
      assert (s + white)[..|s + white| - 1] == s + white[..n];
      TrimEndSkips(s, white[..n]);
    }
  }

  /** White space around a text that starts and ends in other characters is what trimming removes. */
  lemma TrimsTo(before: string, s: string, after: string)
    requires AllWhite(before) && AllWhite(after)
    requires s != [] && !IsWhite(s[0]) && !IsWhite(s[|s| - 1])
    ensures Trim(before + s + after) == s
  {
    TrimEndSkips(before + s, after);
    TrimStartSkips(before, s);
  }

  // ---- lines ----

  /** A line loses one trailing carriage return. */
  function Chomp(line: string): string {
    if line != [] && line[|line| - 1] == '\r' then line[..|line| - 1] else line
  }

  lemma TrimChomp(line: string)
    ensures Trim(Chomp(line)) == Trim(line)
  {
  }

  /** `text.lines()`. */
  function Lines(text: string): seq<string> {
    if text == [] then []
    else
      var i := Find(text, "\n");
      if i.None? then [text] else [Chomp(text[..i.value])] + Lines(text[i.value + 1..])
  }

  /** Every line ended by a newline. */
  function Unlines(lines: seq<string>): string {
    if lines == [] then [] else lines[0] + "\n" + Unlines(lines[1..])
  }

  predicate OneLine(s: string) {
    '\n' !in s
  }

  lemma OnlyLine(line: string)
    requires OneLine(line) && line != []
    ensures Lines(line) == [line]
  {
    FindAbsent(line, '\n');
  }

  lemma FirstLine(line: string, rest: string)
    requires OneLine(line)
    ensures Lines(line + "\n" + rest) == [Chomp(line)] + Lines(rest)
  {
    var text := line + "\n" + rest;
    assert StartsWith(text[|line|..], "\n");
    FindIsFirst(text, "\n");
    var i := Find(text, "\n").value;
    assert text[i..][..1][0] == '\n';
    assert i == |line|;
    assert text[..i] == line && text[i + 1..] == rest;
  }

  /** Either end of line, a newline alone or behind a carriage return, gives the line without it. */
  lemma EitherLineEnd(line: string, end: string, rest: string)
    requires OneLine(line) && (end == "" || end == "\r") && (line != [] ==> line[|line| - 1] != '\r')
    ensures Lines(line + end + "\n" + rest) == [line] + Lines(rest)
  {
    FirstLine(line + end, rest);
    Chomped(line, end);
  }

  lemma Chomped(line: string, end: string)
    requires (end == "" || end == "\r") && (line != [] ==> line[|line| - 1] != '\r')
    ensures Chomp(line + end) == line
  {
    assert end == "" ==> line + end == line;
    assert end == "\r" ==> (line + end)[..|line|] == line;
  }

  /** The 25 characters with the property White_Space, listed. */
  lemma WhiteIs(c: char)
    ensures IsWhite(c)
       <==> c in {'\t', '\n', '\U{B}', '\U{C}', '\r', ' ', '\U{85}', '\U{A0}', '\U{1680}', '\U{2000}', '\U{2001}',
                  '\U{2002}', '\U{2003}', '\U{2004}', '\U{2005}', '\U{2006}', '\U{2007}', '\U{2008}', '\U{2009}',
                  '\U{200A}', '\U{2028}', '\U{2029}', '\U{202F}', '\U{205F}', '\U{3000}'}
  {
    assert IsWhite(c) ==> c == (c as int) as char;
  }
}
