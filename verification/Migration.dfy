/**
 The migration tool: rename the parameter, strip timing statements, wrap the rest into a chain.
 */
module Migration {
  import opened Wrappers
  import opened Text
  import opened HandlerLang

  // ---- recognising ----

  /**
   What the file holds, what the tool makes of it, and what it makes of its own output: a wrapped body around
   another, whose last argument is by then `ctx.input` instead of `input`.
   */
  datatype Body = Plain(b: Stmts) | Chained(timing: bool, core: Stmts) | Rewrapped(timing: bool, inner: Body)

  /** A parameter and the text of its type. */
  datatype Param = Param(name: string, typeText: string)

  datatype FnItem =
    FnItem(name: string, isConst: bool, params: seq<Param>, output: Option<string>, body: Body)

  datatype Item = Fn(f: FnItem) | TimingFn | Other(tag: nat)

  /** `handle_*` with one parameter and a return type whose text contains `i32`. */
  predicate IsHandler(f: FnItem) {
    StartsWith(f.name, "handle_") && |f.params| == 1 && f.output.Some? && Contains(f.output.value, "i32")
  }

  predicate TimingName(x: string) {
    Contains(x, "elapsed") || Contains(x, "Instant::now")
  }

  /** The text of the node contains `Instant::now` or `elapsed`. */
  predicate MentionsTiming(e: Expr) {
    match e
    case Lit(_) => false
    case CtxInput => false
    case Path(x) => TimingName(x)
    case Now => true
    case Elapsed(_) => true
    case Bin(_, l, r) => MentionsTiming(l) || MentionsTiming(r)
    case Call(f, a) => TimingName(f) || MentionsTiming(a)
    case Assign(t, a) => MentionsTiming(t) || MentionsTiming(a)
    case If(c, thn, els) => MentionsTiming(c) || BlockMentions(thn) || BlockMentions(els)
    case Block(b) => BlockMentions(b)
    case Return(a) => MentionsTiming(a)
  }

  predicate StmtMentions(s: Stmt) {
    (s.Let? && TimingName(s.x)) || MentionsTiming(s.e)
  }

  predicate BlockMentions(b: Stmts) {
    b.Then? && (StmtMentions(b.first) || BlockMentions(b.rest))
  }

  /** The text of the node contains `println`. */
  predicate MentionsLog(e: Expr) {
    match e
    case Path(x) => Contains(x, "println")
    case Bin(_, l, r) => MentionsLog(l) || MentionsLog(r)
    case Elapsed(a) => MentionsLog(a)
    case Call(f, a) => Contains(f, "println") || MentionsLog(a)
    case Assign(t, a) => MentionsLog(t) || MentionsLog(a)
    case If(c, thn, els) => MentionsLog(c) || BlockLogs(thn) || BlockLogs(els)
    case Block(b) => BlockLogs(b)
    case Return(a) => MentionsLog(a)
    case _ => false
  }

  predicate BlockLogs(b: Stmts) {
    b.Then?
    && ((b.first.Let? && Contains(b.first.x, "println")) || MentionsLog(b.first.e) || BlockLogs(b.rest))
  }

  /** The text that wrapping adds mentions neither. */
  predicate BodyMentions(body: Body) {
    match body
    case Plain(b) => BlockMentions(b)
    case Chained(_, core) => BlockMentions(core)
    case Rewrapped(_, inner) => BodyMentions(inner)
  }

  predicate BodyLogs(body: Body) {
    match body
    case Plain(b) => BlockLogs(b)
    case Chained(_, core) => BlockLogs(core)
    case Rewrapped(_, inner) => BodyLogs(inner)
  }

  function CrossCutting(body: Body): seq<string> {
    (if BodyMentions(body) then ["timing"] else []) + (if BodyLogs(body) then ["logging"] else [])
  }

  // ---- rewriting ----

  /** `RenameInput`: every path expression `input`; patterns are not expressions. */
  function Rename(e: Expr): Expr {
    match e
    case Lit(_) => e
    case CtxInput => e
    case Now => e
    case Path(x) => if x == "input" then CtxInput else e
    case Bin(op, l, r) => Bin(op, Rename(l), Rename(r))
    case Elapsed(a) => Elapsed(Rename(a))
    case Call(f, a) => Call(f, Rename(a))
    case Assign(t, a) => Assign(Rename(t), Rename(a))
    case If(c, thn, els) => If(Rename(c), RenameBlock(thn), RenameBlock(els))
    case Block(b) => Block(RenameBlock(b))
    case Return(a) => Return(Rename(a))
  }

  function RenameStmt(s: Stmt): Stmt {
    match s
    case Let(x, e) => Let(x, Rename(e))
    case Semi(e) => Semi(Rename(e))
    case Tail(e) => Tail(Rename(e))
  }

  function RenameBlock(b: Stmts): Stmts {
    if b.End? then End else Then(RenameStmt(b.first), RenameBlock(b.rest))
  }

  /** `StripTiming`: retain on this block, then visit the blocks inside what was retained. */
  function Strip(b: Stmts): Stmts
    decreases b
  {
    if b.End? then End
    else if StmtMentions(b.first) then Strip(b.rest)
    else Then(StripInStmt(b.first), Strip(b.rest))
  }

  function StripInStmt(s: Stmt): Stmt
    decreases s
  {
    match s
    case Let(x, e) => Let(x, StripIn(e))
    case Semi(e) => Semi(StripIn(e))
    case Tail(e) => Tail(StripIn(e))
  }

  function StripIn(e: Expr): Expr
    decreases e
  {
    match e
    case Bin(op, l, r) => Bin(op, StripIn(l), StripIn(r))
    case Elapsed(a) => Elapsed(StripIn(a))
    case Call(f, a) => Call(f, StripIn(a))
    case Assign(t, a) => Assign(StripIn(t), StripIn(a))
    case If(c, thn, els) => If(StripIn(c), Strip(thn), Strip(els))
    case Block(b) => Block(Strip(b))
    case Return(a) => Return(StripIn(a))
    case _ => e
  }

  function RenameBody(body: Body): Body {
    match body
    case Plain(b) => Plain(RenameBlock(b))
    case Chained(timing, core) => Chained(timing, RenameBlock(core))
    case Rewrapped(timing, inner) => Rewrapped(timing, RenameBody(inner))
  }

  /** A wrapped body is one expression: if anything in it mentions timing, all of it goes. */
  function StripBody(body: Body): Body {
    match body
    case Plain(b) => Plain(Strip(b))
    case _ => if BodyMentions(body) then Plain(End) else body
  }

  function Enclose(timing: bool, body: Body): Body {
    if body.Plain? then Chained(timing, body.b) else Rewrapped(timing, body)
  }

  function Wrap(f: FnItem): FnItem {
    var renamed := RenameBody(f.body);
    f.(body := Enclose("timing" in CrossCutting(renamed), StripBody(renamed)))
  }

  predicate NoRepeats(out: seq<string>) {
    forall i, j :: 0 <= i < j < |out| ==> out[i] != out[j]
  }

  /** Pushes the labels not yet present. */
  function PushNew(out: seq<string>, labels: seq<string>): (r: seq<string>)
    ensures forall x :: x in r <==> x in out || x in labels
    ensures NoRepeats(out) ==> NoRepeats(r)
    decreases labels
  {
    if labels == [] then out
    else PushNew(if labels[0] in out then out else out + [labels[0]], labels[1..])
  }

  method WrapHandler(f: FnItem, out: seq<string>) returns (g: FnItem, out': seq<string>)
    ensures g == Wrap(f) && g.(body := f.body) == f
    ensures out' == PushNew(out, CrossCutting(RenameBody(f.body)))
    ensures "timing" in out' <==> "timing" in out || BodyMentions(f.body)
    ensures "logging" in out' <==> "logging" in out || BodyLogs(f.body)
    ensures NoRepeats(out) ==> NoRepeats(out')
  {
    Labels(out, f.body);
    var block := RenameBody(f.body);
    var cc := CrossCutting(block);
    block := StripBody(block);
    out' := out;
    for i := 0 to |cc|
      invariant PushNew(out', cc[i..]) == PushNew(out, cc)
    {
      assert cc[i..][0] == cc[i] && cc[i..][1..] == cc[i + 1..];
      if cc[i] !in out' {
        out' := out' + [cc[i]];
      }
    }
    g := f.(body := Enclose("timing" in cc, block));
  }

  // ---- one file ----

  predicate Candidate(it: Item) {
    it.Fn? && IsHandler(it.f)
  }

  function MigrateItem(it: Item): Item {
    if Candidate(it) then Fn(Wrap(it.f)) else it
  }

  function MigrateItems(items: seq<Item>): (r: seq<Item>)
    ensures |r| == |items|
    ensures forall i :: 0 <= i < |items| ==> r[i] == MigrateItem(items[i])
  {
    seq(|items|, i requires 0 <= i < |items| => MigrateItem(items[i]))
  }

  predicate TakesTiming(it: Item) {
    Candidate(it) && BodyMentions(it.f.body)
  }

  function Names(items: seq<Item>): seq<string> {
    if items == [] then []
    else
      var last := items[|items| - 1];
      Names(items[..|items| - 1]) + (if Candidate(last) then [last.f.name] else [])
  }

  /** The names reported are those of the candidates, in the order of the file. */
  lemma {:induction false} NamesInOrder(items: seq<Item>) returns (at: seq<nat>)
    ensures |at| == |Names(items)|
    ensures forall k :: 0 <= k < |at| ==>
      at[k] < |items| && Candidate(items[at[k]]) && Names(items)[k] == items[at[k]].f.name
    ensures forall k, l :: 0 <= k < l < |at| ==> at[k] < at[l]
    ensures forall i :: 0 <= i < |items| && Candidate(items[i]) ==> i in at
  {
    if items == [] {
      at := [];
    } else {
      var n := |items| - 1;
      at := NamesInOrder(items[..n]);
      if Candidate(items[n]) {
        at := at + [n];
      }
    }
  }

  predicate AnyTiming(items: seq<Item>) {
    items != [] && (AnyTiming(items[..|items| - 1]) || TakesTiming(items[|items| - 1]))
  }

  lemma {:induction false} AnyTimingIff(items: seq<Item>)
    ensures AnyTiming(items) <==> exists i :: 0 <= i < |items| && TakesTiming(items[i])
  {
    if items != [] {
      var front := items[..|items| - 1];
      AnyTimingIff(front);
      assert forall i :: 0 <= i < |front| ==> front[i] == items[i];
    }
  }

  /** A file after migration: candidates wrapped where they stand, and the timing function if some had timing. */
  function MigrateFile(items: seq<Item>): seq<Item> {
    MigrateItems(items) + (if AnyTiming(items) then [TimingFn] else [])
  }

  /** Item by item: a candidate is wrapped, keeping its signature; nothing else is touched; one function may follow. */
  lemma MigratedInPlace(items: seq<Item>, i: nat)
    requires i < |items|
    ensures var out := MigrateFile(items);
      && |out| >= |items|
      && out[|items|..] == (if exists k :: 0 <= k < |items| && TakesTiming(items[k]) then [TimingFn] else [])
      && (!Candidate(items[i]) ==> out[i] == items[i])
      && (Candidate(items[i]) ==> out[i].Fn? && out[i].f == Wrap(items[i].f)
                                  && out[i].f.(body := items[i].f.body) == items[i].f)
  {
    AnyTimingIff(items);
  }

  class SourceFile {
    var items: seq<Item>

    constructor (items: seq<Item>)
      ensures this.items == items
    {
      this.items := items;
    }

    /**
     The item loop. Every candidate is wrapped where it stands, everything else is untouched, and
     the shared timing function is appended iff some candidate had timing code.
     */
    method Migrate() returns (wrapped: seq<string>, count: nat)
      modifies this
      ensures items == MigrateFile(old(items))
      ensures AnyTiming(old(items)) <==> exists i :: 0 <= i < |old(items)| && TakesTiming(old(items)[i])
      ensures wrapped == Names(old(items)) && count == |wrapped|
    {
      ghost var was := items;
      wrapped, count := [], 0;
      var extracted: seq<string> := [];
      var i := 0;
      while i < |items|
        invariant 0 <= i <= |items| == |was|
        invariant forall k :: 0 <= k < i ==> items[k] == MigrateItem(was[k])
        invariant forall k :: i <= k < |was| ==> items[k] == was[k]
        invariant wrapped == Names(was[..i]) && count == |wrapped|
        invariant "timing" in extracted <==> AnyTiming(was[..i])
      {
        assert was[..i + 1][..i] == was[..i];
        if items[i].Fn? && IsHandler(items[i].f) {
          var f := items[i].f;
          wrapped := wrapped + [f.name];
          var g, extracted' := WrapHandler(f, extracted);
          extracted := extracted';
          items := items[i := Fn(g)];
          count := count + 1;
        }
        i := i + 1;
      }
      assert was[..i] == was;
      AnyTimingIff(was);
      assert items == MigrateItems(was);
      if "timing" in extracted {
        items := items + [TimingFn];
      }
    }
  }

  lemma Labels(out: seq<string>, body: Body)
    ensures "timing" in PushNew(out, CrossCutting(RenameBody(body))) <==> "timing" in out || BodyMentions(body)
    ensures "logging" in PushNew(out, CrossCutting(RenameBody(body))) <==> "logging" in out || BodyLogs(body)
  {
    RenameKeepsBodyMentions(body);
    assert "timing" != "logging";
  }

  // ---- facts about the rewriting that the proof of meaning needs ----

  lemma {:induction false} RenameKeepsMention(e: Expr)
    ensures MentionsTiming(Rename(e)) == MentionsTiming(e)
  {
    assert !TimingName("input");
    match e
    case Lit(_) =>
    case CtxInput =>
    case Now =>
    case Path(_) =>
    case Bin(_, l, r) => RenameKeepsMention(l); RenameKeepsMention(r);
    case Elapsed(a) => RenameKeepsMention(a);
    case Call(_, a) => RenameKeepsMention(a);
    case Assign(t, a) => RenameKeepsMention(t); RenameKeepsMention(a);
    case If(c, thn, els) => RenameKeepsMention(c); RenameKeepsMentions(thn); RenameKeepsMentions(els);
    case Block(b) => RenameKeepsMentions(b);
    case Return(a) => RenameKeepsMention(a);
  }

  lemma {:induction false} RenameKeepsMentions(b: Stmts)
    ensures BlockMentions(RenameBlock(b)) == BlockMentions(b)
  {
    if b.Then? {
      RenameKeepsMention(b.first.e);
      RenameKeepsMentions(b.rest);
    }
  }

  lemma {:induction false} RenameKeepsLog(e: Expr)
    ensures MentionsLog(Rename(e)) == MentionsLog(e)
  {
    assert !Contains("input", "println");
    match e
    case Bin(_, l, r) => RenameKeepsLog(l); RenameKeepsLog(r);
    case Elapsed(a) => RenameKeepsLog(a);
    case Call(_, a) => RenameKeepsLog(a);
    case Assign(t, a) => RenameKeepsLog(t); RenameKeepsLog(a);
    case If(c, thn, els) => RenameKeepsLog(c); RenameKeepsLogs(thn); RenameKeepsLogs(els);
    case Block(b) => RenameKeepsLogs(b);
    case Return(a) => RenameKeepsLog(a);
    case _ =>
  }

  lemma {:induction false} RenameKeepsLogs(b: Stmts)
    ensures BlockLogs(RenameBlock(b)) == BlockLogs(b)
  {
    if b.Then? {
      RenameKeepsLog(b.first.e);
      RenameKeepsLogs(b.rest);
    }
  }

  lemma {:induction false} RenameKeepsBodyMentions(body: Body)
    ensures BodyMentions(RenameBody(body)) == BodyMentions(body)
    ensures BodyLogs(RenameBody(body)) == BodyLogs(body)
  {
    match body
    case Plain(b) => RenameKeepsMentions(b); RenameKeepsLogs(b);
    case Chained(_, core) => RenameKeepsMentions(core); RenameKeepsLogs(core);
    case Rewrapped(_, inner) => RenameKeepsBodyMentions(inner);
  }

  /** The top-level retain alone. */
  function Retain(b: Stmts): Stmts {
    if b.End? then End
    else if StmtMentions(b.first) then Retain(b.rest)
    else Then(b.first, Retain(b.rest))
  }

  lemma {:induction false} NothingLeftInside(e: Expr)
    requires !MentionsTiming(e)
    ensures StripIn(e) == e
  {
    match e
    case Bin(_, l, r) => NothingLeftInside(l); NothingLeftInside(r);
    case Elapsed(a) =>
    case Call(_, a) => NothingLeftInside(a);
    case Assign(t, a) => NothingLeftInside(t); NothingLeftInside(a);
    case If(c, thn, els) => NothingLeftInside(c); NothingLeftInBlock(thn); NothingLeftInBlock(els);
    case Block(b) => NothingLeftInBlock(b);
    case Return(a) => NothingLeftInside(a);
    case _ =>
  }

  lemma {:induction false} NothingLeftInBlock(b: Stmts)
    requires !BlockMentions(b)
    ensures Strip(b) == b
  {
    if b.Then? {
      NothingLeftInside(b.first.e);
      NothingLeftInBlock(b.rest);
    }
  }

  /**
   Descending into nested blocks never removes anything: a statement whose inner block mentions
   timing mentions it itself, so it went as a whole. Stripping is the top-level retain.
   */
  lemma {:induction false} StripIsRetain(b: Stmts)
    ensures Strip(b) == Retain(b)
    ensures !BlockMentions(Strip(b))
  {
    if b.Then? {
      StripIsRetain(b.rest);
      if !StmtMentions(b.first) {
        NothingLeftInside(b.first.e);
      }
    }
  }

  lemma {:induction false} RetainCommutesWithRename(b: Stmts)
    ensures Retain(RenameBlock(b)) == RenameBlock(Retain(b))
  {
    if b.Then? {
      RenameKeepsMention(b.first.e);
      RetainCommutesWithRename(b.rest);
    }
  }

  lemma {:induction false} RetainChangesIffMentions(b: Stmts)
    ensures Retain(b) == b <==> !BlockMentions(b)
    ensures Size(Retain(b)) <= Size(b)
  {
    if b.Then? {
      RetainChangesIffMentions(b.rest);
    }
  }

  function Size(b: Stmts): nat {
    if b.End? then 0 else 1 + Size(b.rest)
  }

  /** The timing node is put into the chain exactly when a statement was stripped. */
  lemma TimingNodeIffStripped(f: FnItem)
    requires f.body.Plain?
    ensures Wrap(f).body.timing <==> Strip(RenameBlock(f.body.b)) != RenameBlock(f.body.b)
    ensures Wrap(f).body.timing <==> BlockMentions(f.body.b)
    ensures !BlockMentions(Wrap(f).body.core)
  {
    StripIsRetain(RenameBlock(f.body.b));
    RetainChangesIffMentions(RenameBlock(f.body.b));
    RenameKeepsMentions(f.body.b);
  }

  // ---- the timing function of a file ----

  predicate UsesTiming(body: Body) {
    match body
    case Plain(_) => false
    case Chained(timing, _) => timing
    case Rewrapped(timing, inner) => timing || UsesTiming(inner)
  }

  predicate UsesTimingFn(it: Item) {
    it.Fn? && UsesTiming(it.f.body)
  }

  /** A file of bodies as people write them comes out closed: the timing function is there iff some chain names it. */
  lemma TimingFnIffUsed(items: seq<Item>)
    requires forall i :: 0 <= i < |items| && items[i].Fn? ==> items[i].f.body.Plain?
    requires TimingFn !in items
    ensures TimingFn in MigrateFile(items)
       <==> exists i :: 0 <= i < |MigrateFile(items)| && UsesTimingFn(MigrateFile(items)[i])
  {
    AnyTimingIff(items);
    var out := MigrateFile(items);
    forall i | 0 <= i < |items| ensures TakesTiming(items[i]) <==> UsesTimingFn(out[i]) {
      assert out[i] == MigrateItem(items[i]);
      if items[i].Fn? {
        TimingNodeIffStripped(items[i].f);
      }
    }
    forall i | 0 <= i < |items| ensures out[i] != TimingFn {
      assert items[i] in items;
    }
  }

  function Definitions(items: seq<Item>): nat {
    if items == [] then 0 else Definitions(items[..|items| - 1]) + (if items[|items| - 1] == TimingFn then 1 else 0)
  }

  lemma {:induction false} WrappingDefinesNothing(items: seq<Item>)
    ensures Definitions(MigrateItems(items)) == Definitions(items)
  {
    if items != [] {
      var n := |items| - 1;
      assert MigrateItems(items)[..n] == MigrateItems(items[..n]);
      WrappingDefinesNothing(items[..n]);
    }
  }

  /**
   A file that defines the timing function once, as migrated files may, defines it twice after migration, and
   so does not compile, exactly when a candidate mentions timing again.
   */
  lemma DefinedTwiceIff(items: seq<Item>)
    requires Definitions(items) <= 1
    ensures Definitions(MigrateFile(items)) > 1
       <==> Definitions(items) == 1 && exists i :: 0 <= i < |items| && TakesTiming(items[i])
  {
    AnyTimingIff(items);
    WrappingDefinesNothing(items);
    var out := MigrateFile(items);
    if AnyTiming(items) {
      assert out[..|out| - 1] == MigrateItems(items);
    } else {
      assert out == MigrateItems(items);
    }
  }
}
