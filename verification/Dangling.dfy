/** A slashdash with nothing to ignore. */
module Dangling {
  import opened Wrappers
  import opened Tokens
  import opened Utf8
  import opened Document
  import opened Syntax
  import opened Machine
  import opened StackShape
  import opened Build
  import opened PrintParse
  import opened RoundTrip

  /** Where a closing brace may stand, its handling begins by ending the node. */
  lemma BraceEndsNode(s: PState, t: Token)
    requires s.state.InNodeParams? && t.id.BraceClose? && !s.f.continuation
    ensures Step(s, t) == if s.f.afterIgnoredChildBlock then Result(s, Fail(AfterIgnoredBlock))
                          else CloseAndReenter(s.(f := s.f.(justContinuedLine := false)))
  {
    hide CloseAndReenter;
  }

  /** Handled again it closes the child block, unless a slashdash waits for a node. */
  lemma BraceEndsBlock(s: PState, t: Token)
    requires Outer(s.state) && t.id.BraceClose? && !s.f.continuation && !s.f.afterIgnoredChildBlock
    ensures var s1 := s.(f := s.f.(justContinuedLine := false));
            Step(s, t) == if s.state.InChildren? && !s.f.ignoreNextNode then PopState(CloseBlock(s1)) else Reject(s1)
  {
    hide CloseBlock, PopState;
  }

  lemma CloseKeepsMark(s: PState)
    ensures CloseBlock(s).f.ignoreNextArgProp == s.f.ignoreNextArgProp && CloseBlock(s).states == s.states
  {
    hide LeaveBlock;
    LeavingKeepsMark(s.f);
  }

  lemma LeavingKeepsMark(f: Flags)
    ensures LeaveBlock(f).ignoreNextArgProp == f.ignoreNextArgProp
  {}

  lemma PopKeepsMark(s: PState)
    requires s.states != []
    ensures PopState(s).o.Ok? && PopState(s).s.f == s.f
  {}

  /** A terminator that is not a newline finds the mark. */
  lemma EndsMark(s: PState, t: Token)
    requires s.state.InNodeParams? && s.f.ignoreNextArgProp && !s.f.continuation
    ensures t.id.Semicolon? || t.id.EOF? ==> Step(s, t).o.Fail?
  {}

  lemma FramesBelow(s: PState)
    requires Shape(s) && s.state.InNodeParams?
    ensures s.states != [] && s.heap.stack != [] && Outer(s.states[|s.states| - 1])
    ensures s.states[|s.states| - 1].InChildren? ==> |s.states| > 1
  {
    var n := |s.states| - 1;
    assert Legal(s.states[..n], s.states[n]);
  }

  /**
    A slashdash with nothing after it is refused before a semicolon and before the end of the input.
    Before a closing brace it is accepted exactly where the brace itself is: inside a child block that
    no slashdash precedes, and not right after an ignored block.  The mark then stays.
   */
  lemma DanglingSlashdash(s: PState, t: Token)
    requires Shape(s) && s.state.InNodeParams? && s.f.ignoreNextArgProp && !s.f.continuation
    ensures t.id.Semicolon? || t.id.EOF? ==> Feed(s, t).o.Fail?
    ensures t.id.BraceClose? ==>
              (Feed(s, t).o.Ok?
               <==> !s.f.afterIgnoredChildBlock && s.states[|s.states| - 1].InChildren? && !s.f.ignoreNextNode)
    ensures t.id.BraceClose? && Feed(s, t).o.Ok? ==> Feed(s, t).s.f.ignoreNextArgProp
  {
    hide Step, Shape, CloseBlock;
    FramesBelow(s);
    EndsMark(s, t);
    if t.id.BraceClose? {
      BraceEndsNode(s, t);
      var r := Step(s, t);
      if r.o.Reenter? {
        BraceEndsBlock(r.s, t);
        var s1 := r.s.(f := r.s.f.(justContinuedLine := false));
        CloseKeepsMark(s1);
        if s1.states != [] {
          PopKeepsMark(CloseBlock(s1));
        }
      }
    }
  }

  // ---------- What the mark drops ----------

  /** Two nodes with their names, the first with a child, the second with an argument or without. */
  function Leaf(name: Bytes): SNode { SNode(false, [], name, [], NoBlock) }

  function Pair(a: Bytes, b: Bytes, c: Bytes): seq<SNode> {
    [SNode(false, [], a, [], Block(false, [Leaf(b)])), Leaf(c)]
  }

  /** A child that ends in a dangling slashdash, and on the next line another node with an argument. */
  function DanglingTokens(a: Bytes, b: Bytes, c: Bytes, x: Value): seq<Token> {
    [NameTok(a)] + ([OPEN] + ([NameTok(b)] + ([SPACE] + ([SLASHDASH] + ([CLOSE] + ([NEWLINE] + SecondTokens(c, x)))))))
  }

  function SecondTokens(c: Bytes, x: Value): seq<Token> {
    [NameTok(c)] + ([SPACE] + (EntryTokens(Arg(TValue([], x))) + ([NEWLINE] + [END])))
  }

  function FirstHeap(a: Bytes, b: Bytes): Heap {
    Open(Open(Heap([], [], []), Leaf(a), false), Leaf(b), false)
  }

  function Closed(a: Bytes, b: Bytes): (h: Heap)
    ensures StackOk(h) && h.stack == []
  {
    FirstHeap(a, b).Pop().Pop()
  }

  /** A name where nothing is pending but the mark. */
  lemma NameUnderMark(s: PState, c: Bytes, ts: seq<Token>)
    requires Ready(s) && StackOk(s.heap) && NameOk(c) && s.f.ignoreChildren == 0
    ensures Run(IgnoreEntry(s, true), [NameTok(c)] + ts) == Run(IgnoreEntry(At(s, InNode, Open(s.heap, Leaf(c), false)), true), ts)
  {
    var s0, t := IgnoreEntry(s, true), NameTok(c);
    NameReads(c);
    NameHeap(s.heap);
    hide ValueFromToken, NameTok, NameOk, KeyTokenOk, StackOk;
    NameInOuter(s0, t, false);
    NamedRec(s.heap, false);
    assert NodeName(s0, t, false) == Done(IgnoreEntry(At(s, InNode, Open(s.heap, Leaf(c), false)), true));
    First(s0, t, ts);
  }

  lemma PlainName(s: PState, name: Bytes, ts: seq<Token>)
    requires Ready(s) && StackOk(s.heap) && NameOk(name) && s.f.ignoreChildren == 0
    ensures Run(s, [NameTok(name)] + ts) == Run(At(s, InNode, Open(s.heap, Leaf(name), false)), ts)
  {
    hide Run, NameTok, NameOk, StackOk, Open;
    NameStage(s, Leaf(name), ts);
    assert IgnoreNode(s, false).(typeAnnot := TypeToken([])) == s;
  }

  /** The state inside the block of the first node. */
  function Inside(v: Version, h: Heap): PState {
    PushState(At(Initial(v), InNode, h), InChildren)
  }

  /** The slashdash and the brace after it: the block is closed, the mark stays. */
  lemma BraceUnderMark(v: Version, h: Heap, h': Heap, ts: seq<Token>)
    requires h'.stack != []
    ensures Run(Params(Inside(v, h), h', true), [CLOSE] + ts) == Run(IgnoreEntry(At(Initial(v), InNode, h'.Pop()), true), ts)
  {
    hide Step;
    var s := Params(Inside(v, h), h', true);
    BraceEndsNode(s, CLOSE);
    assert s.f.(justContinuedLine := false) == s.f;
    var r := CloseAndReenter(s);
    assert r.s == IgnoreEntry(Inside(v, h).(heap := h'.Pop()), true) && r.o.Reenter?;
    BraceEndsBlock(r.s, CLOSE);
    assert r.s.f.(justContinuedLine := false) == r.s.f;
    assert Feed(s, CLOSE) == PopState(r.s);
    assert PopState(r.s).s == IgnoreEntry(At(Initial(v), InNode, h'.Pop()), true);
    assert ([CLOSE] + ts)[1..] == ts;
  }

  lemma LineUnderMark(v: Version, h: Heap, ts: seq<Token>)
    requires h.stack != []
    ensures Run(IgnoreEntry(At(Initial(v), InNode, h), true), [NEWLINE] + ts)
         == Run(IgnoreEntry(Initial(v).(heap := h.Pop()), true), ts)
  {
    var s := IgnoreEntry(At(Initial(v), InNode, h), true);
    assert Handle(s, NEWLINE) == PopNodeAndState(s);
    assert PopNodeAndState(s) == Done(IgnoreEntry(Initial(v).(heap := h.Pop()), true));
    First(s, NEWLINE, ts);
  }

  /** The first line. */
  lemma FirstLine(v: Version, a: Bytes, b: Bytes, ts: seq<Token>)
    requires NameOk(a) && NameOk(b)
    ensures Run(Initial(v), [NameTok(a)] + ([OPEN] + ([NameTok(b)] + ([SPACE] + ([SLASHDASH] + ([CLOSE] + ([NEWLINE] + ts)))))))
         == Run(IgnoreEntry(Initial(v).(heap := Closed(a, b)), true), ts)
  {
    hide Run, NameTok, NameOk, Open;
    var s := Initial(v);
    var h := Open(s.heap, Leaf(a), false);
    var h' := FirstHeap(a, b);
    var t4 := [CLOSE] + ([NEWLINE] + ts);
    var t3 := [SPACE] + ([SLASHDASH] + t4);
    assert s.f == Quiet(0);
    PlainName(s, a, [OPEN] + ([NameTok(b)] + t3));
    OpensPlain(v, h, [NameTok(b)] + t3);
    PlainName(Inside(v, h), b, t3);
    Gap(Inside(v, h), h', NoPend, true, t4);
    SettleNothing(h');
    BraceUnderMark(v, h, h', [NEWLINE] + ts);
    LineUnderMark(v, h'.Pop(), ts);
  }

  lemma OpensPlain(v: Version, h: Heap, ts: seq<Token>)
    ensures Run(At(Initial(v), InNode, h), [OPEN] + ts) == Run(Inside(v, h), ts)
  {
    var s := At(Initial(v), InNode, h);
    assert Handle(s, OPEN) == Done(Inside(v, h));
    First(s, OPEN, ts);
  }

  /** The second line. */
  lemma SecondLine(v: Version, h: Heap, c: Bytes, x: Value)
    requires StackOk(h) && h.stack == [] && NameOk(c) && Plain(x)
    ensures Run(IgnoreEntry(Initial(v).(heap := h), true), SecondTokens(c, x))
         == Done(Initial(v).(heap := Open(h, Leaf(c), false).Pop()))
  {
    hide Run, NameTok, NameOk, Open, StackOk, EntryTokens, Plain;
    var s := Initial(v).(heap := h);
    var h' := Open(h, Leaf(c), false);
    var end := [NEWLINE] + [END];
    assert s.f == Quiet(0);
    NameUnderMark(s, c, [SPACE] + (EntryTokens(Arg(TValue([], x))) + end));
    SpaceUnderMark(s, h', EntryTokens(Arg(TValue([], x))) + end);
    ArgStage(s, h', true, TValue([], x), end);
    EndOfLine(s, h', Pend(true, [], x), NEWLINE, [END]);
    EndOfDocument(s.(heap := h'.Pop()));
  }

  lemma SpaceUnderMark(s: PState, h: Heap, ts: seq<Token>)
    requires Ready(s)
    ensures Run(IgnoreEntry(At(s, InNode, h), true), [SPACE] + ts) == Run(Params(s, h, true), ts)
  {
    var s0 := IgnoreEntry(At(s, InNode, h), true);
    assert Handle(s0, SPACE) == Done(Params(s, h, true));
    First(s0, SPACE, ts);
  }

  lemma LeafBuilt(h: Heap, name: Bytes)
    requires StackOk(h)
    ensures BuildNode(h, Leaf(name), false) == Open(h, Leaf(name), false).Pop()
    ensures BuildNodes(h, [Leaf(name)], false) == Open(h, Leaf(name), false).Pop()
  {
    hide Open;
    NothingApplied(Open(h, Leaf(name), false));
    assert [Leaf(name)][1..] == [];
  }

  lemma FirstBuilt(a: Bytes, b: Bytes, c: Bytes)
    ensures BuildNode(Heap([], [], []), Pair(a, b, c)[0], false) == Closed(a, b)
  {
    hide Open, BuildNodes;
    var h := Heap([], [], []);
    OpenNamed(h, Pair(a, b, c)[0], Leaf(a));
    NothingApplied(Open(h, Leaf(a), false));
    LeafBuilt(Open(h, Leaf(a), false), b);
  }

  lemma PairBuilt(a: Bytes, b: Bytes, c: Bytes)
    ensures BuildNodes(Heap([], [], []), Pair(a, b, c), false) == Open(Closed(a, b), Leaf(c), false).Pop()
  {
    hide Open, BuildNode;
    FirstBuilt(a, b, c);
    LeafBuilt(Closed(a, b), c);
    assert Pair(a, b, c)[1..] == [Leaf(c)];
  }

  lemma OpenNamed(h: Heap, n: SNode, m: SNode)
    requires StackOk(h) && n.typ == m.typ && n.name == m.name && n.dashed == m.dashed
    ensures Open(h, n, false) == Open(h, m, false)
  {}

  lemma NothingApplied(h: Heap)
    requires h.TopValid()
    ensures WithEntries(h, []) == h
  {}

  /** The nodes without the argument. */
  function PairTrees(a: Bytes, b: Bytes, c: Bytes): seq<Tree> {
    [Tree([], Str(a), [], NO_PROPERTIES, [Tree([], Str(b), [], NO_PROPERTIES, [])]), Tree([], Str(c), [], NO_PROPERTIES, [])]
  }

  /**
    So the mark drops the first entry of a later node: in either version the argument of the second line
    is accepted, whatever it is, and is not in the document.
   */
  lemma MarkDropsArgument(v: Version, a: Bytes, b: Bytes, c: Bytes, x: Value)
    requires NameOk(a) && NameOk(b) && NameOk(c) && Plain(x)
    ensures Yields(Run(Initial(v), DanglingTokens(a, b, c, x)), v, PairTrees(a, b, c))
  {
    hide Run, Open, NameOk, Plain, DocumentIs, BuildNodes, Erase, StackOk;
    FirstLine(v, a, b, SecondTokens(c, x));
    SecondLine(v, Closed(a, b), c, x);
    DocumentBuilt(Pair(a, b, c));
    PairBuilt(a, b, c);
    PairErased(a, b, c);
  }

  lemma PairErased(a: Bytes, b: Bytes, c: Bytes)
    ensures Erase(Pair(a, b, c)) == PairTrees(a, b, c)
  {
    LeafErased(b);
    LeafErased(c);
    assert Pair(a, b, c)[1..] == [Leaf(c)];
  }

  lemma LeafErased(name: Bytes)
    ensures Erase([Leaf(name)]) == [Tree([], Str(name), [], NO_PROPERTIES, [])]
  {
    assert [Leaf(name)][1..] == [];
  }
}
