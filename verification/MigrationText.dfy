/**
 The migration tool decides what is timing on the text of the code, white space removed. Here is that text, and
 the proof that looking into the tree, as `Migration` does, finds exactly what a search of the text finds.
 */
module MigrationText {
  import opened Wrappers
  import opened Text
  import opened Decimal
  import opened HandlerLang
  import opened Migration
  import opened MigrationMeaning

  // ---- the text of code ----

  function OpText(op: Op): string {
    match op
    case Plus => "+"
    case Minus => "-"
    case Times => "*"
    case Divide => "/"
    case Less => "<"
  }

  /** A method stands behind its receiver, a function in front of its argument. */
  function TextOf(e: Expr): string
    decreases e
  {
    match e
    case Lit(n) => PrintSigned(n)
    case Path(x) => x
    case CtxInput => "ctx" + ("." + "input")
    case Bin(op, l, r) => TextOf(l) + (OpText(op) + TextOf(r))
    case Now => "Instant::now" + "()"
    case Elapsed(a) => TextOf(a) + ("." + ("elapsed" + "()"))
    case Call(f, a) =>
      if StartsWith(f, ".") then TextOf(a) + (f + "()") else f + ("(" + (TextOf(a) + ")"))
    case Assign(t, a) => TextOf(t) + ("=" + TextOf(a))
    case If(c, thn, els) => "if" + (TextOf(c) + (BlockText(thn) + ("else" + BlockText(els))))
    case Block(b) => BlockText(b)
    case Return(a) => "return" + TextOf(a)
  }

  function StmtText(s: Stmt): string
    decreases s
  {
    match s
    case Let(x, e) => "let" + (x + ("=" + (TextOf(e) + ";")))
    case Semi(e) => TextOf(e) + ";"
    case Tail(e) => TextOf(e)
  }

  function StmtsText(b: Stmts): string
    decreases b, 0
  {
    if b.End? then "" else StmtText(b.first) + StmtsText(b.rest)
  }

  function BlockText(b: Stmts): string
    decreases b, 1
  {
    "{" + (StmtsText(b) + "}")
  }

  /** Code that parses: in the middle of a block only an `if` or a block does without a semicolon. */
  predicate Parses(e: Expr)
    decreases e
  {
    match e
    case Bin(_, l, r) => Parses(l) && Parses(r)
    case Elapsed(a) => Parses(a)
    case Call(_, a) => Parses(a)
    case Assign(t, a) => Parses(t) && Parses(a)
    case If(c, thn, els) => Parses(c) && BlockParses(thn) && BlockParses(els)
    case Block(b) => BlockParses(b)
    case Return(a) => Parses(a)
    case _ => true
  }

  predicate BlockParses(b: Stmts)
    decreases b
  {
    b.Then? ==>
      && Parses(b.first.e) && BlockParses(b.rest)
      && (b.first.Tail? && b.rest != End ==> b.first.e.If? || b.first.e.Block?)
  }

  // ---- all the names in it ----

  function NamesOf(e: Expr): set<string>
    decreases e
  {
    match e
    case Lit(_) => {}
    case Path(x) => {x}
    case CtxInput => {"ctx", "input"}
    case Bin(_, l, r) => NamesOf(l) + NamesOf(r)
    case Now => {"Instant::now"}
    case Elapsed(a) => NamesOf(a) + {"elapsed"}
    case Call(f, a) => {f} + NamesOf(a)
    case Assign(t, a) => NamesOf(t) + NamesOf(a)
    case If(c, thn, els) => NamesOf(c) + NamesIn(thn) + NamesIn(els)
    case Block(b) => NamesIn(b)
    case Return(a) => NamesOf(a)
  }

  function NamesOfStmt(s: Stmt): set<string>
    decreases s
  {
    NamesOf(s.e) + (if s.Let? then {s.x} else {})
  }

  function NamesIn(b: Stmts): set<string>
    decreases b
  {
    if b.End? then {} else NamesOfStmt(b.first) + NamesIn(b.rest)
  }

  ghost predicate Holds(names: set<string>, pat: string) {
    exists x :: x in names && Has(x, pat)
  }

  // ---- a pattern does not reach across tokens ----

  predicate OccursAt(s: string, pat: string, i: nat) {
    i <= |s| && StartsWith(s[i..], pat)
  }

  /** The pattern occurs somewhere. */
  ghost predicate Has(s: string, pat: string) {
    exists i: nat :: OccursAt(s, pat, i)
  }

  lemma ContainsIff(s: string, pat: string)
    ensures Contains(s, pat) <==> Has(s, pat)
  {
    FindIsFirst(s, pat);
    if Contains(s, pat) {
      assert OccursAt(s, pat, Find(s, pat).value);
    }
  }

  lemma CharAt(s: string, pat: string, i: nat, j: nat)
    requires OccursAt(s, pat, i) && j < |pat|
    ensures i + j < |s| && s[i + j] == pat[j]
  {
    assert s[i..][..|pat|][j] == s[i + j];
  }

  /** Letters and colons only. */
  predicate Word(pat: string) {
    pat != "" && forall i :: 0 <= i < |pat| ==> 'a' <= pat[i] <= 'z' || 'A' <= pat[i] <= 'Z' || pat[i] == ':'
  }

  /** No occurrence of the pattern begins in k, whatever follows. */
  predicate Sealed(k: string, pat: string) {
    forall i :: 0 <= i < |k| ==> Differs(k, pat, i)
  }

  predicate Differs(k: string, pat: string, i: nat) {
    exists j :: 0 <= j < |pat| && i + j < |k| && k[i + j] != pat[j]
  }

  lemma NotInside(k: string, s: string, pat: string, i: nat)
    requires Sealed(k, pat) && OccursAt(k + s, pat, i)
    ensures i >= |k|
  {
    if i < |k| {
      assert Differs(k, pat, i);
      var j :| 0 <= j < |pat| && i + j < |k| && k[i + j] != pat[j];
      CharAt(k + s, pat, i, j);
    }
  }

  /** Behind a text that no occurrence can begin in. */
  lemma Behind(k: string, s: string, pat: string)
    requires Sealed(k, pat)
    ensures Has(k + s, pat) <==> Has(s, pat)
  {
    if i: nat :| OccursAt(s, pat, i) {
      assert (k + s)[|k| + i..] == s[i..];
      assert OccursAt(k + s, pat, |k| + i);
    }
    if i: nat :| OccursAt(k + s, pat, i) {
      NotInside(k, s, pat, i);
      assert (k + s)[i..] == s[i - |k|..];
      assert OccursAt(s, pat, i - |k|);
    }
  }

  /** In front of a text whose first character is not in the pattern. */
  lemma Before(s: string, t: string, pat: string)
    requires t != "" && t[0] !in pat
    ensures Has(s + t, pat) <==> Has(s, pat) || Has(t, pat)
  {
    if i: nat :| OccursAt(s, pat, i) {
      assert (s + t)[i..][..|pat|] == s[i..][..|pat|];
      assert OccursAt(s + t, pat, i);
    }
    if i: nat :| OccursAt(t, pat, i) {
      assert (s + t)[|s| + i..] == t[i..];
      assert OccursAt(s + t, pat, |s| + i);
    }
    if i: nat :| OccursAt(s + t, pat, i) {
      SplitOccurrence(s, t, pat, i);
    }
  }

  lemma SplitOccurrence(s: string, t: string, pat: string, i: nat)
    requires t != "" && t[0] !in pat && OccursAt(s + t, pat, i)
    ensures OccursAt(s, pat, i) || (i >= |s| && OccursAt(t, pat, i - |s|))
  {
    if i >= |s| {
      assert (s + t)[i..] == t[i - |s|..];
    } else {
      if i + |pat| > |s| {
        CharAt(s + t, pat, i, |s| - i);
      }
      assert s[i..][..|pat|] == (s + t)[i..][..|pat|];
    }
  }

  lemma NotAWord(s: string, pat: string)
    requires Word(pat) && forall i :: 0 <= i < |s| ==> s[i] != pat[0]
    ensures !Has(s, pat)
  {
    if i: nat :| OccursAt(s, pat, i) {
      CharAt(s, pat, i, 0);
    }
  }

  /** A word that none of the keywords can run into. */
  ghost predicate Searched(pat: string) {
    Word(pat) && Sealed("let", pat) && Sealed("if", pat) && Sealed("return", pat) && !Has("else", pat)
  }

  lemma OneMark(c: char, s: string, pat: string)
    requires Word(pat) && c in "+-*/<=;(){}."
    ensures c !in pat && Sealed([c], pat) && (Has([c] + s, pat) <==> Has(s, pat))
  {
    assert Differs([c], pat, 0) by {
      assert [c][0] != pat[0];
    }
    Behind([c], s, pat);
  }

  lemma Closed(s: string, c: char, t: string, pat: string)
    requires Word(pat) && c in "+-*/<=;(){}."
    ensures Has(s + ([c] + t), pat) <==> Has(s, pat) || Has(t, pat)
  {
    OneMark(c, t, pat);
    Before(s, [c] + t, pat);
  }

  lemma NothingInNothing(pat: string)
    requires Word(pat)
    ensures !Has("", pat)
  {
    NotAWord("", pat);
  }

  // ---- the text holds a word iff one of the names does ----

  lemma UnionHolds(a: set<string>, b: set<string>, pat: string)
    ensures Holds(a + b, pat) <==> Holds(a, pat) || Holds(b, pat)
  {
    if x :| x in a && Has(x, pat) {
      assert x in a + b;
    }
    if x :| x in b && Has(x, pat) {
      assert x in a + b;
    }
  }

  lemma OneHolds(x: string, pat: string)
    ensures Holds({x}, pat) <==> Has(x, pat)
  {
    if Has(x, pat) {
      assert x in {x};
    }
  }

  lemma NumberIsNoWord(n: int, pat: string)
    requires Word(pat)
    ensures !Has(PrintSigned(n), pat)
  {
    var s := PrintSigned(n);
    assert forall k :: 0 <= k < |s| ==> s[k] == '-' || IsDigit(s[k]);
    NotAWord(s, pat);
  }

  /** `s.n` and the like: two texts with a mark between them. */
  lemma MarkBetween(s: string, c: char, t: string, a: set<string>, b: set<string>, pat: string)
    requires Word(pat) && c in "+-*/<=;(){}."
    requires (Has(s, pat) <==> Holds(a, pat)) && (Has(t, pat) <==> Holds(b, pat))
    ensures Has(s + ([c] + t), pat) <==> Holds(a + b, pat)
  {
    Closed(s, c, t, pat);
    UnionHolds(a, b, pat);
  }

  /** What the induction shows of every expression. */
  ghost predicate Told(e: Expr, pat: string) {
    Has(TextOf(e), pat) <==> Holds(NamesOf(e), pat)
  }

  ghost predicate BlockTold(b: Stmts, pat: string) {
    Has(BlockText(b), pat) <==> Holds(NamesIn(b), pat)
  }

  lemma {:induction false} TextHolds(e: Expr, pat: string)
    requires Searched(pat) && Parses(e)
    ensures Told(e, pat)
    decreases e, 1
  {
    match e
    case Lit(_) => LeafHolds(e, pat);
    case Path(_) => LeafHolds(e, pat);
    case CtxInput => LeafHolds(e, pat);
    case Now => LeafHolds(e, pat);
    case Bin(op, l, r) =>
      TextHolds(l, pat);
      TextHolds(r, pat);
      BinHolds(op, l, r, pat);
    case Elapsed(a) =>
      TextHolds(a, pat);
      ElapsedHolds(a, pat);
    case Call(f, a) =>
      TextHolds(a, pat);
      CallHolds(f, a, pat);
    case Assign(t, a) =>
      TextHolds(t, pat);
      TextHolds(a, pat);
      AssignHolds(t, a, pat);
    case If(c, thn, els) =>
      TextHolds(c, pat);
      BlockHolds(thn, pat);
      BlockHolds(els, pat);
      IfHolds(c, thn, els, pat);
    case Block(b) =>
      BlockHolds(b, pat);
      NestedHolds(b, pat);
    case Return(a) =>
      TextHolds(a, pat);
      ReturnHolds(a, pat);
  }

  lemma LeafHolds(e: Expr, pat: string)
    requires Word(pat) && (e.Lit? || e.Path? || e.CtxInput? || e.Now?)
    ensures Told(e, pat)
  {
    match e
    case Lit(n) => NumberIsNoWord(n, pat);
    case Path(x) => OneHolds(x, pat);
    case CtxInput =>
      OneHolds("ctx", pat);
      OneHolds("input", pat);
      MarkBetween("ctx", '.', "input", {"ctx"}, {"input"}, pat);
      assert {"ctx"} + {"input"} == {"ctx", "input"};
    case Now => NowHolds(pat);
  }

  lemma BinHolds(op: Op, l: Expr, r: Expr, pat: string)
    requires Word(pat) && Told(l, pat) && Told(r, pat)
    ensures Told(Bin(op, l, r), pat)
  {
    MarkBetween(TextOf(l), OpText(op)[0], TextOf(r), NamesOf(l), NamesOf(r), pat);
    assert OpText(op) == [OpText(op)[0]];
  }

  lemma AssignHolds(t: Expr, a: Expr, pat: string)
    requires Word(pat) && Told(t, pat) && Told(a, pat)
    ensures Told(Assign(t, a), pat)
  {
    MarkBetween(TextOf(t), '=', TextOf(a), NamesOf(t), NamesOf(a), pat);
  }

  lemma NestedHolds(b: Stmts, pat: string)
    requires BlockTold(b, pat)
    ensures Told(Block(b), pat)
  {
  }

  lemma ReturnHolds(a: Expr, pat: string)
    requires Searched(pat) && Told(a, pat)
    ensures Told(Return(a), pat)
  {
    Behind("return", TextOf(a), pat);
  }

  lemma NowHolds(pat: string)
    requires Word(pat)
    ensures Has("Instant::now" + "()", pat) <==> Holds({"Instant::now"}, pat)
  {
    NothingInNothing(pat);
    OneMark(')', "", pat);
    Closed("Instant::now", '(', ")", pat);
    OneHolds("Instant::now", pat);
    assert [')'] + "" == ")" && ['('] + ")" == "()";
  }

  lemma ElapsedHolds(a: Expr, pat: string)
    requires Word(pat) && Told(a, pat)
    ensures Told(Elapsed(a), pat)
  {
    NothingInNothing(pat);
    OneMark(')', "", pat);
    Closed("elapsed", '(', ")", pat);
    OneHolds("elapsed", pat);
    assert [')'] + "" == ")" && ['('] + ")" == "()";
    MarkBetween(TextOf(a), '.', "elapsed" + "()", NamesOf(a), {"elapsed"}, pat);
  }

  lemma CallHolds(f: string, a: Expr, pat: string)
    requires Word(pat) && Told(a, pat)
    ensures Told(Call(f, a), pat)
  {
    NothingInNothing(pat);
    OneMark(')', "", pat);
    assert [')'] + "" == ")" && ['('] + ")" == "()";
    OneHolds(f, pat);
    UnionHolds({f}, NamesOf(a), pat);
    if StartsWith(f, ".") {
      Closed(f, '(', ")", pat);
      assert f[0] == f[..1][0] == '.';
      OneMark('.', "", pat);
      Before(TextOf(a), f + "()", pat);
    } else {
      Closed(TextOf(a), ')', "", pat);
      Closed(f, '(', TextOf(a) + ")", pat);
    }
  }

  lemma IfHolds(c: Expr, thn: Stmts, els: Stmts, pat: string)
    requires Searched(pat) && Told(c, pat) && BlockTold(thn, pat) && BlockTold(els, pat)
    ensures Told(If(c, thn, els), pat)
  {
    UnionHolds(NamesOf(c) + NamesIn(thn), NamesIn(els), pat);
    UnionHolds(NamesOf(c), NamesIn(thn), pat);
    var last := "else" + BlockText(els);
    OneMark('{', "", pat);
    Before("else", BlockText(els), pat);
    BlockThen(thn, last, pat);
    var blocks := BlockText(thn) + last;
    Before(TextOf(c), blocks, pat);
    Behind("if", TextOf(c) + blocks, pat);
  }

  /** A block ends in a mark, so nothing runs across its end. */
  lemma BlockThen(b: Stmts, t: string, pat: string)
    requires Word(pat)
    ensures Has(BlockText(b) + t, pat) <==> Has(BlockText(b), pat) || Has(t, pat)
  {
    NothingInNothing(pat);
    var inner := "{" + StmtsText(b);
    assert BlockText(b) + t == inner + (['}'] + t);
    assert BlockText(b) == inner + (['}'] + "");
    Closed(inner, '}', t, pat);
    Closed(inner, '}', "", pat);
  }

  lemma {:induction false} BlockHolds(b: Stmts, pat: string)
    requires Searched(pat) && BlockParses(b)
    ensures BlockTold(b, pat)
    decreases b, 1
  {
    NothingInNothing(pat);
    StmtsHold(b, pat);
    assert "}" == ['}'] + "" && "{" == ['{'];
    Closed(StmtsText(b), '}', "", pat);
    OneMark('{', StmtsText(b) + "}", pat);
  }

  lemma {:induction false} StmtsHold(b: Stmts, pat: string)
    requires Searched(pat) && BlockParses(b)
    ensures Has(StmtsText(b), pat) <==> Holds(NamesIn(b), pat)
    decreases b, 0
  {
    NothingInNothing(pat);
    if b.Then? {
      TextHolds(b.first.e, pat);
      StmtHolds(b.first, pat);
      StmtsHold(b.rest, pat);
      UnionHolds(NamesOfStmt(b.first), NamesIn(b.rest), pat);
      StmtThen(b.first, b.rest, pat);
    }
  }

  lemma StmtHolds(s: Stmt, pat: string)
    requires Searched(pat) && Told(s.e, pat)
    ensures Has(StmtText(s), pat) <==> Holds(NamesOfStmt(s), pat)
  {
    NothingInNothing(pat);
    assert ";" == [';'] + "";
    Closed(TextOf(s.e), ';', "", pat);
    match s
    case Let(x, e) =>
      OneHolds(x, pat);
      UnionHolds(NamesOf(e), {x}, pat);
      Closed(x, '=', TextOf(e) + ";", pat);
      Behind("let", x + ("=" + (TextOf(e) + ";")), pat);
    case Semi(_) =>
    case Tail(e) => assert NamesOfStmt(s) == NamesOf(e);
  }

  /** Nothing runs across the end of a statement, either. */
  lemma StmtThen(s: Stmt, rest: Stmts, pat: string)
    requires Word(pat) && (s.Tail? && rest != End ==> s.e.If? || s.e.Block?)
    ensures Has(StmtText(s) + StmtsText(rest), pat)
       <==> Has(StmtText(s), pat) || Has(StmtsText(rest), pat)
  {
    NothingInNothing(pat);
    var t := StmtsText(rest);
    if rest == End {
      assert StmtText(s) + t == StmtText(s);
    } else {
      var front, c := BeforeItsEnd(s, pat);
      assert StmtText(s) == front + ([c] + "") && StmtText(s) + t == front + ([c] + t);
      Closed(front, c, t, pat);
      Closed(front, c, "", pat);
    }
  }

  lemma BeforeItsEnd(s: Stmt, pat: string) returns (front: string, c: char)
    requires !s.Tail? || s.e.If? || s.e.Block?
    ensures StmtText(s) == front + [c] && (c == ';' || c == '}')
  {
    if s.Let? {
      front, c := "let" + (s.x + ("=" + TextOf(s.e))), ';';
      assert s.x + ("=" + (TextOf(s.e) + ";")) == s.x + ("=" + TextOf(s.e)) + ";";
    } else if s.Semi? {
      front, c := TextOf(s.e), ';';
    } else if s.e.Block? {
      front, c := "{" + StmtsText(s.e.b), '}';
      assert TextOf(s.e) == BlockText(s.e.b) == front + "}";
    } else {
      var before := "if" + (TextOf(s.e.c) + (BlockText(s.e.thn) + "else"));
      front, c := before + ("{" + StmtsText(s.e.els)), '}';
      assert TextOf(s.e) == before + ("{" + (StmtsText(s.e.els) + "}"));
    }
  }

  // ---- the tree holds one of those names iff `Migration` says so ----

  /** The names behind the two patterns of the source, and what makes a set of names mention one of them. */
  ghost predicate NamesTime(names: set<string>) {
    Holds(names, "Instant::now") || Holds(names, "elapsed")
  }

  lemma NamesTimeUnion(a: set<string>, b: set<string>)
    ensures NamesTime(a + b) <==> NamesTime(a) || NamesTime(b)
    ensures Holds(a + b, "println") <==> Holds(a, "println") || Holds(b, "println")
  {
    UnionHolds(a, b, "Instant::now");
    UnionHolds(a, b, "elapsed");
    UnionHolds(a, b, "println");
  }

  lemma ThreeUnion(a: set<string>, b: set<string>, c: set<string>)
    ensures NamesTime(a + b + c) <==> NamesTime(a) || NamesTime(b) || NamesTime(c)
    ensures Holds(a + b + c, "println") <==> Holds(a, "println") || Holds(b, "println") || Holds(c, "println")
  {
    NamesTimeUnion(a, b);
    NamesTimeUnion(a + b, c);
  }

  lemma OneTimes(x: string)
    ensures NamesTime({x}) <==> Contains(x, "elapsed") || Contains(x, "Instant::now")
    ensures Holds({x}, "println") <==> Contains(x, "println")
  {
    ContainsIff(x, "Instant::now");
    ContainsIff(x, "elapsed");
    ContainsIff(x, "println");
    OneHolds(x, "Instant::now");
    OneHolds(x, "elapsed");
    OneHolds(x, "println");
  }

  lemma ShortName(x: string)
    requires |x| < 7
    ensures !NamesTime({x}) && !Holds({x}, "println")
  {
    OneTimes(x);
    NotLonger(x, "Instant::now");
    NotLonger(x, "elapsed");
    NotLonger(x, "println");
  }

  lemma ClockName(x: string)
    requires x == "elapsed" || x == "Instant::now"
    ensures NamesTime({x}) && !Holds({x}, "println")
  {
    OneHolds(x, x);
    OneHolds(x, "println");
    Itself(x);
    if |x| == 7 {
      NotLonger(x, "println");
    } else {
      NotAWord(x, "println");
    }
  }

  lemma NotLonger(s: string, pat: string)
    requires |s| <= |pat| && s != pat
    ensures !Has(s, pat)
  {
    assert s[0..] == s && s[..|s|] == s;
  }

  lemma Itself(s: string)
    ensures Has(s, s)
  {
    assert s[0..] == s;
    assert OccursAt(s, s, 0);
  }

  /** What the induction shows of every expression and block. */
  ghost predicate Named(e: Expr) {
    && (MentionsTiming(e) <==> NamesTime(NamesOf(e)))
    && (MentionsLog(e) <==> Holds(NamesOf(e), "println"))
  }

  ghost predicate BlockNamed(b: Stmts) {
    && (BlockMentions(b) <==> NamesTime(NamesIn(b)))
    && (BlockLogs(b) <==> Holds(NamesIn(b), "println"))
  }

  lemma {:induction false} MentionsIffNamed(e: Expr)
    ensures Named(e)
    decreases e, 1
  {
    match e
    case Bin(op, l, r) =>
      MentionsIffNamed(l);
      MentionsIffNamed(r);
      BinNamed(op, l, r);
    case Elapsed(a) =>
      MentionsIffNamed(a);
      ElapsedNamed(a);
    case Call(f, a) =>
      MentionsIffNamed(a);
      CallNamed(f, a);
    case Assign(t, a) =>
      MentionsIffNamed(t);
      MentionsIffNamed(a);
      AssignNamed(t, a);
    case If(c, thn, els) =>
      MentionsIffNamed(c);
      BlockMentionsIffNamed(thn);
      BlockMentionsIffNamed(els);
      IfNamed(c, thn, els);
    case Block(b) =>
      BlockMentionsIffNamed(b);
      assert NamesOf(e) == NamesIn(b);
    case Return(a) =>
      MentionsIffNamed(a);
      assert NamesOf(e) == NamesOf(a);
    case _ => LeafNamed(e);
  }

  lemma LeafNamed(e: Expr)
    requires e.Lit? || e.Path? || e.CtxInput? || e.Now?
    ensures Named(e)
  {
    match e
    case Lit(_) =>
    case Path(x) => OneTimes(x);
    case CtxInput => ContextNames("ctx", "input");
    case Now => ClockName("Instant::now");
  }

  lemma ContextNames(x: string, y: string)
    requires |x| < 7 && |y| < 7
    ensures !NamesTime({x, y}) && !Holds({x, y}, "println")
  {
    ShortName(x);
    ShortName(y);
    NamesTimeUnion({x}, {y});
    assert {x} + {y} == {x, y};
  }

  lemma BinNamed(op: Op, l: Expr, r: Expr)
    requires Named(l) && Named(r)
    ensures Named(Bin(op, l, r))
  {
    NamesTimeUnion(NamesOf(l), NamesOf(r));
  }

  lemma AssignNamed(t: Expr, a: Expr)
    requires Named(t) && Named(a)
    ensures Named(Assign(t, a))
  {
    NamesTimeUnion(NamesOf(t), NamesOf(a));
  }

  lemma ElapsedNamed(a: Expr)
    requires Named(a)
    ensures Named(Elapsed(a))
  {
    WithClockName(NamesOf(a), "elapsed");
  }

  lemma WithClockName(names: set<string>, x: string)
    requires x == "elapsed" || x == "Instant::now"
    ensures NamesTime(names + {x}) && (Holds(names + {x}, "println") <==> Holds(names, "println"))
  {
    ClockName(x);
    NamesTimeUnion(names, {x});
  }

  lemma CallNamed(f: string, a: Expr)
    requires Named(a)
    ensures Named(Call(f, a))
  {
    OneTimes(f);
    NamesTimeUnion({f}, NamesOf(a));
  }

  lemma IfNamed(c: Expr, thn: Stmts, els: Stmts)
    requires Named(c) && BlockNamed(thn) && BlockNamed(els)
    ensures Named(If(c, thn, els))
  {
    ThreeUnion(NamesOf(c), NamesIn(thn), NamesIn(els));
  }

  lemma StmtMentionsIffNamed(s: Stmt)
    requires Named(s.e)
    ensures StmtMentions(s) <==> NamesTime(NamesOfStmt(s))
    ensures (s.Let? && Contains(s.x, "println")) || MentionsLog(s.e) <==> Holds(NamesOfStmt(s), "println")
  {
    if s.Let? {
      OneTimes(s.x);
      NamesTimeUnion(NamesOf(s.e), {s.x});
    } else {
      assert NamesOfStmt(s) == NamesOf(s.e);
    }
  }

  lemma {:induction false} BlockMentionsIffNamed(b: Stmts)
    ensures BlockNamed(b)
    decreases b, 0
  {
    if b.Then? {
      MentionsIffNamed(b.first.e);
      StmtMentionsIffNamed(b.first);
      BlockMentionsIffNamed(b.rest);
      NamesTimeUnion(NamesOfStmt(b.first), NamesIn(b.rest));
    }
  }

  // ---- what the tool searches for ----

  /** `t.contains("Instant::now") || t.contains("elapsed")`. */
  predicate TextTimes(t: string) {
    Contains(t, "Instant::now") || Contains(t, "elapsed")
  }

  lemma KeywordsApart()
    ensures Searched("Instant::now") && Searched("elapsed") && Searched("println")
  {
    KeywordsByFirst("Instant::now");
    KeywordsByFirst("println");
    var e := "elapsed";
    NotLonger("else", e);
    SealedByFirst("if", e);
    SealedByTwo("let", 1);
    SealedByTwo("return", 1);
  }

  lemma KeywordsByFirst(pat: string)
    requires Word(pat) && |pat| > 4 && pat[0] !in "let" && pat[0] !in "if" && pat[0] !in "return"
    ensures Searched(pat)
  {
    SealedByFirst("let", pat);
    SealedByFirst("if", pat);
    SealedByFirst("return", pat);
    NotLonger("else", pat);
  }

  /** The only `e` of the keyword is not followed by an `l`. */
  lemma SealedByTwo(k: string, n: nat)
    requires n + 1 < |k| && k[n + 1] != 'l' && forall i :: 0 <= i < |k| && i != n ==> k[i] != 'e'
    ensures Sealed(k, "elapsed")
  {
    var e := "elapsed";
    assert e[0] == 'e' && e[1] == 'l' && |e| == 7;
    forall i | 0 <= i < |k| ensures Differs(k, e, i) {
      if i == n {
        assert k[i + 1] != e[1];
      } else {
        assert k[i + 0] != e[0];
      }
    }
  }

  lemma SealedByFirst(k: string, pat: string)
    requires pat != "" && pat[0] !in k
    ensures Sealed(k, pat)
  {
    forall i | 0 <= i < |k| ensures Differs(k, pat, i) {
      assert k[i + 0] != pat[0];
    }
  }

  lemma SearchedText(t: string)
    ensures TextTimes(t) <==> Has(t, "Instant::now") || Has(t, "elapsed")
    ensures Contains(t, "println") <==> Has(t, "println")
  {
    ContainsIff(t, "Instant::now");
    ContainsIff(t, "elapsed");
    ContainsIff(t, "println");
  }

  /** The tree says of an expression, a statement or a block what the source finds in its text. */
  lemma MentionsIsText(e: Expr)
    requires Parses(e)
    ensures MentionsTiming(e) <==> TextTimes(TextOf(e))
    ensures MentionsLog(e) <==> Contains(TextOf(e), "println")
  {
    KeywordsApart();
    MentionsIffNamed(e);
    SearchedText(TextOf(e));
    TextHolds(e, "Instant::now");
    TextHolds(e, "elapsed");
    TextHolds(e, "println");
  }

  lemma StmtMentionsIsText(s: Stmt)
    requires Parses(s.e)
    ensures StmtMentions(s) <==> TextTimes(StmtText(s))
  {
    KeywordsApart();
    MentionsIffNamed(s.e);
    StmtMentionsIffNamed(s);
    SearchedText(StmtText(s));
    TextHolds(s.e, "Instant::now");
    TextHolds(s.e, "elapsed");
    StmtHolds(s, "Instant::now");
    StmtHolds(s, "elapsed");
  }

  lemma BlockMentionsIsText(b: Stmts)
    requires BlockParses(b)
    ensures BlockMentions(b) <==> TextTimes(BlockText(b))
    ensures BlockLogs(b) <==> Contains(BlockText(b), "println")
  {
    KeywordsApart();
    BlockMentionsIffNamed(b);
    SearchedText(BlockText(b));
    BlockHolds(b, "Instant::now");
    BlockHolds(b, "elapsed");
    BlockHolds(b, "println");
  }

  // ---- code without timing ----

  lemma {:induction false} QuietIsDead(b: Stmts)
    requires !BlockMentions(b)
    ensures Retain(b) == b && TimingIsDead(b)
  {
    if b.Then? {
      QuietIsDead(b.rest);
    }
  }

  /**
   A handler whose text mentions no timing keeps every statement, gets no timing node, and keeps its meaning
   under the conditions on signature, `return` and names alone.
   */
  lemma UntimedIsKept(f: FnItem, x: int, h: Host, h': Host)
    requires f.body.Plain? && IsHandler(f) && BlockParses(f.body.b) && !TextTimes(BlockText(f.body.b))
    ensures Wrap(f).body == Chained(false, RenameBlock(f.body.b))
    ensures h.lib == h'.lib && RunFn(f, x, h) != IllTyped && !RebindsIn(f.body.b) ==>
      (RunFn(Wrap(f), x, h') == RunFn(f, x, h) <==> FitsTemplate(f) && !Unfit(f.body.b))
  {
    BlockMentionsIsText(f.body.b);
    QuietIsDead(f.body.b);
    RenameKeepsMentions(f.body.b);
    StripIsRetain(RenameBlock(f.body.b));
    RetainChangesIffMentions(RenameBlock(f.body.b));
    if h.lib == h'.lib && RunFn(f, x, h) != IllTyped && !RebindsIn(f.body.b) {
      MigrationPreservesMeaning(f, x, h, h');
    }
  }

  /** What stripping keeps of a block: in order, the statements whose text mentions no timing. */
  function Untimed(b: Stmts): Stmts {
    if b.End? then End
    else if TextTimes(StmtText(b.first)) then Untimed(b.rest)
    else Then(b.first, Untimed(b.rest))
  }

  lemma {:induction false} StripKeepsUntimed(b: Stmts)
    requires BlockParses(b)
    ensures Strip(b) == Untimed(b)
  {
    StripIsRetain(b);
    if b.Then? {
      StmtMentionsIsText(b.first);
      StripIsRetain(b.rest);
      StripKeepsUntimed(b.rest);
    }
  }

  /** Which functions the tool takes for handlers. */
  lemma HandlerIff(f: FnItem)
    ensures IsHandler(f)
       <==> && (exists rest :: f.name == "handle_" + rest) && |f.params| == 1
            && exists before, after :: f.output == Some(before + "i32" + after)
  {
    if StartsWith(f.name, "handle_") {
      assert f.name == "handle_" + f.name[7..];
    }
    if f.output.Some? {
      ContainsIff(f.output.value, "i32");
      if i: nat :| OccursAt(f.output.value, "i32", i) {
        var t := f.output.value;
        assert t == t[..i] + "i32" + t[i..][3..];
      }
      if before, after :| f.output.value == before + "i32" + after {
        assert f.output.value[|before|..] == "i32" + after;
        assert OccursAt(f.output.value, "i32", |before|);
      }
    }
  }
}
