/**
  The parser as it runs: a context whose fields, stacks and nodes are updated in place, one handler
  call per token, proved step by step against the machine on values.
 */
module ParserContext {
  import opened Wrappers
  import opened Utf8
  import opened Tokens
  import opened Document
  import opened Machine
  import opened StackShape
  import opened Nodes
  import opened Recent
  import opened Driver

  /** The handler of a token: by its identifier, else by the first of its classes that has one. */
  method FindHandler(st: State, id: TokenID) returns (k: Option<TokenID>)
    ensures k == Lookup(st, id)
  {
    if InTable(st, id) {
      return Some(id);
    }
    hide InTable, Classes;
    var classes := Classes(id);
    var i := 0;
    while i < |classes|
      invariant 0 <= i <= |classes|
      invariant FirstClass(st, classes) == FirstClass(st, classes[i..])
    {
      if InTable(st, classes[i]) {
        return Some(classes[i]);
      }
      assert classes[i..][1..] == classes[i + 1..];
      i := i + 1;
    }
    k := None;
  }

  lemma NoHandler(s: PState, t: Token)
    requires Dispatch(s.state, t.id).None?
    ensures Machine.Handle(s, t) == Reject(s)
  {
    hide Dispatch;
  }

  /** What is left to do on ts, whose first token is being offered again or not. */
  ghost function Remaining(c: Context, again: bool, ts: seq<Token>): ContextResult
    requires again ==> ts != []
  {
    if again then
      var r := Machine.Parse(c, ts[0]);
      if !r.o.Ok? then r else ParseTokens(r.c, ts[1..])
    else ParseTokens(c, ts)
  }

  /** One iteration: it fails, asks for the same token once more, or goes on to the next one. */
  lemma OneCall(c: Context, again: bool, ts: seq<Token>)
    requires ts != [] && Shape(c.s) && (again ==> Outer(c.s.state))
    ensures var r := Machine.Parse(c, ts[0]);
            && Sound(r.o) && (r.o.Ok? || r.o.Reenter? ==> Shape(r.c.s))
            && (r.o.Reenter? ==> !again && Outer(r.c.s.state)
                                 && Remaining(c, again, ts) == Remaining(r.c, true, ts))
            && (r.o.Ok? ==> Remaining(c, again, ts) == Remaining(r.c, false, ts[1..]))
            && (!r.o.Ok? && !r.o.Reenter? ==> Remaining(c, again, ts) == r)
  {
    hide Machine.Step, Shape;
    StepShape(c.s, ts[0]);
    if again {
      NoSecondReenter(c.s, ts[0]);
    }
  }

  lemma AllRead(c: Context, ts: seq<Token>)
    requires ts == []
    ensures Remaining(c, false, ts) == ContextResult(c, Ok)
  {}

  lemma EndShape(c: Context, t: Token)
    requires Shape(c.s)
    ensures var r := Machine.Parse(c, t); Sound(r.o) && (r.o.Ok? ==> Shape(r.c.s))
  {
    hide Machine.Step, Shape;
    StepShape(c.s, t);
  }

  lemma WrittenTwice(h: Heap, r: Rec, typ: Bytes)
    requires h.TopValid()
    ensures var h' := h.Write(r);
            h'.TopValid() && h'.store[h'.Top()] == r && h'.Write(r.(typ := typ)) == h.Write(r.(typ := typ))
  {}

  class ParseContext {
    /** The document's list, the stack of open nodes and the allocator. */
    const nodes: NodeStack
    const recent: RecentTokens
    const version: Version
    var states: seq<State>
    var state: State
    var ident: Token
    var typeAnnot: Token
    var continuation: bool
    var continuationNewlineSeen: bool
    var justContinuedLine: bool
    var ignoreNextNode: bool
    var ignoreNextArgProp: bool
    var ignoreChildren: nat
    var afterIgnoredChildBlock: bool
    var ignoreChildBlockFromContinuation: bool
    var ignoreFromContinuation: bool

    /** The objects of the context apart from the ring of recent tokens. */
    ghost function Repr(): set<object>
      reads nodes
    {
      {this} + nodes.Repr()
    }

    ghost predicate Valid()
      reads nodes, nodes.Repr()
      ensures Valid() ==> nodes.Valid() && this !in nodes.Repr()
    {
      this !in nodes.Repr() && nodes.Valid()
    }

    /** Valid, with a ring of recent tokens of its own. */
    ghost predicate Ready()
      reads Repr(), recent, recent.tokens
    {
      && Valid() && recent.Valid() && recent !in Repr() && (recent.tokens as object) !in Repr()
      && forall t | t in recent.all :: t.Valid()
    }

    ghost function Flags(): Flags
      reads this
    {
      Machine.Flags(continuation, continuationNewlineSeen, justContinuedLine, ignoreNextNode, ignoreNextArgProp,
                    ignoreChildren, afterIgnoredChildBlock, ignoreChildBlockFromContinuation, ignoreFromContinuation)
    }

    /** The abstract value of the context. */
    ghost function View(): PState
      reads this, nodes
    {
      PState(nodes.heap, states, state, ident, typeAnnot, Flags(), version)
    }

    constructor (inputSizeEstimate: int, version: Version)
      ensures Valid() && View() == Initial(version)
      ensures Ready() && recent.all == []
      ensures fresh(Repr()) && fresh(recent) && fresh(recent.tokens)
    {
      recent := new RecentTokens();
      nodes := new NodeStack(inputSizeEstimate);
      this.version := version;
      states, state := [], InDocument;
      ident, typeAnnot := NO_TOKEN, NO_TOKEN;
      continuation, continuationNewlineSeen, justContinuedLine := false, false, false;
      ignoreNextNode, ignoreNextArgProp, ignoreChildren := false, false, 0;
      afterIgnoredChildBlock, ignoreChildBlockFromContinuation, ignoreFromContinuation := false, false, false;
    }

    // ---------- Operations ----------

    method PushState(newState: State)
      modifies this`states, this`state
      ensures View() == Machine.PushState(old(View()), newState)
    {
      states := states + [state];
      state := newState;
    }

    method PopState() returns (o: Outcome)
      modifies this`states, this`state
      ensures Result(View(), o) == Machine.PopState(old(View()))
    {
      if |states| == 0 {
        return Fail(StateStackEmpty);
      }
      state := states[|states| - 1];
      states := states[..|states| - 1];
      o := Ok;
    }

    method PopNodeAndState() returns (o: Outcome)
      requires Valid()
      modifies this`states, this`state, nodes`node, nodes`heap
      ensures Valid() && Repr() == old(Repr())
      ensures Result(View(), o) == Machine.PopNodeAndState(old(View()))
    {
      o := PopState();
      if o.Ok? {
        var popped := nodes.PopNode();
        if !popped {
          o := Fail(NodeStackEmpty);
        }
      }
    }

    method CloseAndReenter() returns (o: Outcome)
      requires Valid()
      modifies this`states, this`state, nodes`node, nodes`heap
      ensures Valid() && Repr() == old(Repr())
      ensures Result(View(), o) == Machine.CloseAndReenter(old(View()))
    {
      o := PopNodeAndState();
      if o.Ok? {
        o := Reenter;
      }
    }

    method StartContinuation()
      modifies this`continuation, this`continuationNewlineSeen
      ensures View() == Machine.StartContinuation(old(View()))
    {
      continuation := true;
      continuationNewlineSeen := false;
    }

    method StopContinuation()
      modifies this`continuation, this`continuationNewlineSeen
      ensures View() == Machine.StopContinuation(old(View()))
    {
      continuation := false;
      continuationNewlineSeen := false;
    }

    method MarkIgnoreFromContinuation()
      modifies this`ignoreFromContinuation, this`justContinuedLine
      ensures View() == Machine.MarkIgnoreFromContinuation(old(View()))
    {
      ignoreFromContinuation := justContinuedLine;
      justContinuedLine := false;
    }

    /** A child block that is ignored begins. */
    method IgnoreBlock()
      modifies this`ignoreFromContinuation, this`ignoreChildBlockFromContinuation, this`ignoreChildren
      ensures View() == Machine.IgnoreBlock(old(View()))
    {
      ignoreChildBlockFromContinuation := ignoreFromContinuation;
      ignoreFromContinuation := false;
      ignoreChildren := ignoreChildren + 1;
    }

    method ClearPending()
      modifies this`typeAnnot, this`ident
      ensures View() == Machine.ClearPending(old(View()))
    {
      typeAnnot := NO_TOKEN;
      ident := NO_TOKEN;
    }

    /** A nil current node is a panic in the source; here it is an outcome, shown unreachable below. */
    method AddArgumentToken(t: Token, annot: Token) returns (o: Outcome)
      requires Valid()
      modifies nodes.Repr()
      ensures Valid() && Repr() == old(Repr())
      ensures Result(View(), o) == Machine.AddArgument(old(View()), t, annot)
    {
      hide ValueFromToken;
      var v := ValueFromToken(t);
      if v.None? {
        return Fail(BadValue);
      }
      var value := TValue([], v.value);
      if annot.Valid() {
        value := TValue(annot.data, v.value);
      }
      if nodes.CurrentNode() == null {
        return Panic;
      }
      nodes.AddArgument(value);
      o := Ok;
    }

    method AddPropertyToken(name: Token, value: Token, annot: Token) returns (o: Outcome)
      requires Valid()
      modifies nodes.Repr()
      ensures Valid() && Repr() == old(Repr())
      ensures Result(View(), o) == Machine.AddProperty(old(View()), name, value, annot)
    {
      hide ValueFromToken;
      var k := ValueFromToken(name);
      if k.None? {
        return Fail(BadValue);
      }
      var v := ValueFromToken(value);
      if v.None? {
        return Fail(BadValue);
      }
      var vt := TValue([], v.value);
      if annot.Valid() {
        vt := TValue(annot.data, v.value);
      }
      if nodes.CurrentNode() == null {
        return Panic;
      }
      nodes.AddProperty(KeyString(k.value), vt);
      o := Ok;
    }

    method CommitArgument() returns (o: Outcome)
      requires Valid()
      modifies Repr()
      ensures Valid() && Repr() == old(Repr())
      ensures Result(View(), o) == Machine.CommitArgument(old(View()))
    {
      hide ValueFromToken, Machine.AddArgument, Machine.ClearPending, NodeStack.Repr;
      if ignoreNextArgProp {
        ignoreNextArgProp := false;
      } else {
        o := AddArgumentToken(ident, typeAnnot);
        if !o.Ok? {
          return;
        }
      }
      ClearPending();
      o := Ok;
    }

    method CommitPending() returns (o: Outcome)
      requires Valid()
      modifies Repr()
      ensures Valid() && Repr() == old(Repr())
      ensures Result(View(), o) == Machine.CommitPending(old(View()))
    {
      hide Machine.CommitArgument;
      o := Ok;
      if ident.Valid() {
        o := CommitArgument();
      }
    }

    /** The node a name begins: attached to the open node or the document, or to nothing. */
    method BeginNode(detached: bool)
      requires Valid() && (!detached && nodes.heap.stack != [] ==> nodes.heap.TopValid())
      modifies Repr()
      ensures Valid() && fresh(Repr() - old(Repr())) && nodes.heap.TopValid()
      ensures View() == var s := old(View());
                        if detached then Machine.IgnoreNode(s.(heap := s.heap.Create()), false)
                        else s.(heap := s.heap.Add())
    {
      if detached {
        var n := nodes.CreateNode();
        ignoreNextNode := false;
      } else {
        var n := nodes.AddNode();
      }
    }

    /** The new node gets its name and the pending type annotation. */
    method NameNode(v: Value)
      requires Valid() && nodes.heap.TopValid()
      modifies Repr()
      ensures Valid() && Repr() == old(Repr())
      ensures View() == var s := old(View());
                        var rec := s.heap.store[s.heap.Top()].(name := v);
                        if s.typeAnnot.Valid()
                        then s.(heap := s.heap.Write(rec.(typ := s.typeAnnot.data)), typeAnnot := NO_TOKEN)
                        else s.(heap := s.heap.Write(rec))
    {
      hide Heap.Write, NodeStack.Repr;
      ghost var h := nodes.heap;
      nodes.SetName(v);
      if typeAnnot.Valid() {
        WrittenTwice(h, h.store[h.Top()].(name := v), typeAnnot.data);
        nodes.SetType(typeAnnot.data);
        typeAnnot := NO_TOKEN;
      }
    }

    method NodeName(t: Token, detached: bool) returns (o: Outcome)
      requires Valid()
      modifies Repr()
      ensures Valid() && fresh(Repr() - old(Repr()))
      ensures Result(View(), o) == Machine.NodeName(old(View()), t, detached)
    {
      hide ValueFromToken, Heap.Add, Heap.Create, Heap.Write, NodeStack.Repr;
      StackInStore();
      BeginNode(detached);
      var v := ValueFromToken(t);
      if v.None? {
        return Fail(BadValue);
      }
      NameNode(v.value);
      PushState(InNode);
      o := Ok;
    }

    // ---------- Handlers ----------

    method HandleDocument(k: TokenID, t: Token) returns (o: Outcome)
      requires Valid()
      modifies Repr()
      ensures Valid() && fresh(Repr() - old(Repr()))
      ensures Result(View(), o) == Machine.HandleDocument(old(View()), k, t)
    {
      hide Machine.NodeName, NodeStack.Repr;
      o := Ok;
      if k.Whitespace? || k.ClassComment? {
        if typeAnnot.Valid() && version != V2 {
          o := Fail(Unexpected);
        }
      } else if k.ClassIdentifier? {
        o := NodeName(t, ignoreNextNode);
      } else if k.ParensOpen? {
        PushState(InTypeAnnot);
      } else if k.ClassTerminator? {
        if typeAnnot.Valid() {
          o := Fail(ExpectedValueAfterType);
        }
      } else if k.TokenComment? {
        if typeAnnot.Valid() {
          return Fail(Unexpected);
        }
        MarkIgnoreFromContinuation();
        ignoreNextNode := true;
      } else if k.Continuation? {
        StartContinuation();
      } else {
        o := Fail(Unexpected);
      }
    }

    /** The end of a child block. */
    method CloseBlock()
      modifies this`ignoreChildren, this`afterIgnoredChildBlock, this`ignoreChildBlockFromContinuation
      ensures View() == Machine.CloseBlock(old(View()))
    {
      if ignoreChildren > 0 {
        ignoreChildren := ignoreChildren - 1;
        if ignoreChildren == 0 {
          afterIgnoredChildBlock := !ignoreChildBlockFromContinuation;
          ignoreChildBlockFromContinuation := false;
        }
      }
    }

    method HandleChildren(k: TokenID, t: Token) returns (o: Outcome)
      requires Valid()
      modifies Repr()
      ensures Valid() && fresh(Repr() - old(Repr()))
      ensures Result(View(), o) == Machine.HandleChildren(old(View()), k, t)
    {
      hide Machine.NodeName, Machine.CloseBlock, NodeStack.Repr;
      o := Ok;
      if k.Whitespace? || k.ClassComment? {
        if typeAnnot.Valid() && version != V2 {
          o := Fail(Unexpected);
        }
      } else if k.Continuation? {
        StartContinuation();
      } else if k.TokenComment? {
        if typeAnnot.Valid() {
          return Fail(Unexpected);
        }
        MarkIgnoreFromContinuation();
        ignoreNextNode := true;
      } else if k.ParensOpen? {
        PushState(InTypeAnnot);
      } else if k.Newline? {
      } else if k.ClassIdentifier? {
        o := NodeName(t, ignoreNextNode || ignoreChildren > 0);
      } else if k.BraceClose? {
        if ignoreNextNode {
          return Fail(Unexpected);
        }
        CloseBlock();
        o := PopState();
      } else {
        o := Fail(Unexpected);
      }
    }

    /** Whitespace, comments and continuations where only version 2 has them. */
    method Gap(k: TokenID) returns (o: Outcome)
      modifies this`continuation, this`continuationNewlineSeen
      ensures var s := old(View());
              Result(View(), o) == if !IsV2(s) then Reject(s)
                                   else if k.Continuation? then Done(Machine.StartContinuation(s)) else Done(s)
    {
      if version != V2 {
        return Fail(Unexpected);
      }
      if k.Continuation? {
        StartContinuation();
      }
      o := Ok;
    }

    method HandleTypeAnnot(k: TokenID, t: Token) returns (o: Outcome)
      modifies this`typeAnnot, this`state, this`continuation, this`continuationNewlineSeen
      ensures Result(View(), o) == Machine.HandleTypeAnnot(old(View()), k, t)
    {
      hide Machine.StartContinuation;
      o := Ok;
      if k.Whitespace? || k.ClassComment? || k.Continuation? {
        o := Gap(k);
      } else if k.BareIdentifier? || k.ClassString? {
        typeAnnot := t;
        state := InTypeDone;
      } else {
        o := Fail(Unexpected);
      }
    }

    method HandleTypeDone(k: TokenID, t: Token) returns (o: Outcome)
      modifies this`states, this`state, this`continuation, this`continuationNewlineSeen
      ensures Result(View(), o) == Machine.HandleTypeDone(old(View()), k, t)
    {
      hide Machine.PopState, Machine.StartContinuation;
      if k.Whitespace? || k.ClassComment? || k.Continuation? {
        o := Gap(k);
      } else if k.ParensClose? {
        o := PopState();
      } else {
        o := Fail(Unexpected);
      }
    }

    /** The block after a node's name, ignored with its node or inside an ignored block. */
    method NodeBlock(t: Token)
      modifies this
      ensures Done(View()) == Machine.HandleNode(old(View()), BraceOpen, t)
    {
      if ignoreNextNode || ignoreChildren > 0 {
        IgnoreBlock();
        ignoreNextNode := false;
      }
      PushState(InChildren);
    }

    method HandleNode(k: TokenID, t: Token) returns (o: Outcome)
      requires Valid()
      modifies Repr()
      ensures Valid() && Repr() == old(Repr())
      ensures Result(View(), o) == Machine.HandleNode(old(View()), k, t)
    {
      hide Machine.PopNodeAndState, Machine.CloseAndReenter, Machine.PushState, Machine.IgnoreBlock, NodeStack.Repr;
      o := Ok;
      if k.Whitespace? {
        state := InNodeParams;
      } else if k.ClassTerminator? {
        if !continuation {
          o := PopNodeAndState();
        }
      } else if k.BraceOpen? {
        NodeBlock(t);
      } else if k.Continuation? {
        StartContinuation();
      } else if k.ClassComment? {
        if version != V2 {
          o := Fail(Unexpected);
        }
      } else if k.BraceClose? {
        o := CloseAndReenter();
      } else {
        o := Fail(Unexpected);
      }
    }

    method SuffixedArgument(t: Token) returns (o: Outcome)
      requires Valid()
      modifies Repr()
      ensures Valid() && Repr() == old(Repr())
      ensures Result(View(), o) == Machine.HandleNodeParams(old(View()), SuffixedDecimal, t)
    {
      hide Machine.AddArgument, NodeStack.Repr;
      ClearPending();
      if ignoreNextArgProp {
        ignoreNextArgProp := false;
      } else {
        o := AddArgumentToken(t, typeAnnot);
        if !o.Ok? {
          return;
        }
      }
      state := InNodeParams;
      o := Ok;
    }

    /** A slashdash before an entry. */
    method SlashEntry(t: Token) returns (o: Outcome)
      modifies this`ignoreFromContinuation, this`justContinuedLine, this`ignoreNextArgProp
      ensures Result(View(), o) == Machine.HandleNodeParams(old(View()), TokenComment, t)
    {
      if typeAnnot.Valid() {
        return Fail(Unexpected);
      }
      MarkIgnoreFromContinuation();
      ignoreNextArgProp := true;
      o := Ok;
    }

    method ParamsBlock(t: Token)
      requires Valid()
      modifies Repr()
      ensures Valid() && Repr() == old(Repr())
      ensures Done(View()) == Machine.HandleNodeParams(old(View()), BraceOpen, t)
    {
      hide NodeStack.Repr;
      if ignoreNextArgProp || ignoreChildren > 0 {
        IgnoreBlock();
        ignoreNextArgProp := false;
      }
      PushState(InChildren);
    }

    method EndOfParams(t: Token) returns (o: Outcome)
      requires Valid()
      modifies Repr()
      ensures Valid() && Repr() == old(Repr())
      ensures Result(View(), o) == Machine.HandleNodeParams(old(View()), ClassTerminator, t)
    {
      hide Machine.PopNodeAndState, NodeStack.Repr;
      o := Ok;
      if continuation {
      } else if ignoreNextArgProp {
        if !t.id.Newline? {
          o := Fail(Unexpected);
        }
      } else if typeAnnot.Valid() {
        o := Fail(ExpectedValueAfterType);
      } else {
        o := PopNodeAndState();
      }
    }

    method HandleNodeParams(k: TokenID, t: Token) returns (o: Outcome)
      requires Valid()
      modifies Repr()
      ensures Valid() && Repr() == old(Repr())
      ensures Result(View(), o) == Machine.HandleNodeParams(old(View()), k, t)
    {
      hide Machine.PopNodeAndState, Machine.CloseAndReenter, Machine.PushState, Machine.StartContinuation, NodeStack.Repr;
      hide Machine.AddArgument, Machine.IgnoreBlock, Machine.ClearPending;
      o := Ok;
      if k.Whitespace? || k.ClassComment? {
        if typeAnnot.Valid() && version != V2 {
          o := Fail(Unexpected);
        }
      } else if k.TokenComment? {
        o := SlashEntry(t);
      } else if k.SingleLineComment? {
        if !ignoreNextArgProp {
          state := InNodeEnd;
        }
      } else if k.Continuation? {
        StartContinuation();
      } else if k.ParensOpen? {
        PushState(InTypeAnnot);
      } else if k.BareIdentifier? {
        ident := t;
        state := if version == V2 then InArgProp else InProperty;
      } else if k.BraceClose? {
        o := CloseAndReenter();
      } else if k.SuffixedDecimal? {
        o := SuffixedArgument(t);
      } else if k.ClassString? || k.ClassNonStringValue? {
        ident := t;
        state := InArgProp;
      } else if k.BraceOpen? {
        ParamsBlock(t);
      } else if k.ClassTerminator? {
        o := EndOfParams(t);
      } else {
        o := Fail(Unexpected);
      }
    }

    method HandleNodeEnd(k: TokenID, t: Token) returns (o: Outcome)
      requires Valid()
      modifies Repr()
      ensures Valid() && Repr() == old(Repr())
      ensures Result(View(), o) == Machine.HandleNodeEnd(old(View()), k, t)
    {
      hide Machine.PopNodeAndState, NodeStack.Repr;
      o := Ok;
      if k.Whitespace? {
      } else if k.ClassEndOfLine? {
        if continuation {
          StopContinuation();
          state := InNodeParams;
        } else {
          o := PopNodeAndState();
        }
      } else {
        o := Fail(Unexpected);
      }
    }

    method HandleProperty(k: TokenID, t: Token) returns (o: Outcome)
      requires Valid()
      modifies Repr()
      ensures Valid() && Repr() == old(Repr())
      ensures Result(View(), o) == Machine.HandleProperty(old(View()), k, t)
    {
      hide Machine.CloseAndReenter, NodeStack.Repr;
      o := Ok;
      if k.Equals? {
        if typeAnnot.Valid() {
          return Fail(Unexpected);
        }
        state := InPropertyValue;
      } else if k.BraceClose? {
        o := CloseAndReenter();
      } else {
        o := Fail(Unexpected);
      }
    }

    /** Before a slashdash: the pending identifier is an argument, or was slashdashed itself. */
    method SettlePending() returns (o: Outcome)
      requires Valid()
      modifies Repr()
      ensures Valid() && Repr() == old(Repr())
      ensures Result(View(), o) == var s := old(View());
                                   if s.f.ignoreNextArgProp then Done(Machine.IgnoreEntry(s, false))
                                   else if s.ident.Valid() then Machine.AddArgument(s, s.ident, s.typeAnnot)
                                   else Done(s)
    {
      hide Machine.AddArgument, NodeStack.Repr;
      o := Ok;
      if ignoreNextArgProp {
        ignoreNextArgProp := false;
      } else if ident.Valid() {
        o := AddArgumentToken(ident, typeAnnot);
      }
    }

    method ArgPropSlashdash() returns (o: Outcome)
      requires Valid()
      modifies Repr()
      ensures Valid() && Repr() == old(Repr())
      ensures Result(View(), o) == Machine.HandleArgProp(old(View()), TokenComment, NO_TOKEN)
    {
      hide Machine.AddArgument, NodeStack.Repr, Machine.MarkIgnoreFromContinuation, Machine.ClearPending;
      o := SettlePending();
      if !o.Ok? {
        return;
      }
      if ident.Valid() {
        ClearPending();
      } else if typeAnnot.Valid() {
        return Fail(ExpectedValueAfterType);
      }
      ExpectIgnored();
    }

    /** The next argument, property or block of the node is to be ignored. */
    method ExpectIgnored()
      modifies this`ignoreNextArgProp, this`ignoreFromContinuation, this`justContinuedLine, this`state
      ensures View() == Machine.MarkIgnoreFromContinuation(Machine.IgnoreEntry(old(View()), true)).(state := InNodeParams)
    {
      ignoreNextArgProp := true;
      MarkIgnoreFromContinuation();
      state := InNodeParams;
    }

    method ArgPropBlock() returns (o: Outcome)
      requires Valid()
      modifies Repr()
      ensures Valid() && Repr() == old(Repr())
      ensures Result(View(), o) == Machine.HandleArgProp(old(View()), BraceOpen, NO_TOKEN)
    {
      hide Machine.CommitPending, NodeStack.Repr;
      o := CommitPending();
      if !o.Ok? {
        return;
      }
      if ignoreNextArgProp || ignoreChildren > 0 {
        ignoreNextArgProp := false;
        ignoreChildren := ignoreChildren + 1;
      }
      PushState(InChildren);
    }

    method ArgPropEnd(k: TokenID) returns (o: Outcome)
      requires Valid() && (k.ClassTerminator? || k.BraceClose?)
      modifies Repr()
      ensures Valid() && Repr() == old(Repr())
      ensures Result(View(), o) == Machine.HandleArgProp(old(View()), k, NO_TOKEN)
    {
      hide Machine.CommitPending, Machine.PopNodeAndState, Machine.CloseAndReenter, NodeStack.Repr;
      if k.ClassTerminator? && continuation {
        return Ok;
      }
      o := CommitPending();
      if !o.Ok? {
        return;
      }
      if k.BraceClose? {
        o := CloseAndReenter();
      } else {
        o := PopNodeAndState();
      }
    }

    method HandleArgProp(k: TokenID, t: Token) returns (o: Outcome)
      requires Valid()
      modifies Repr()
      ensures Valid() && Repr() == old(Repr())
      ensures Result(View(), o) == Machine.HandleArgProp(old(View()), k, t)
    {
      hide Machine.CommitPending, Machine.CommitArgument, Machine.AddArgument, Machine.PopNodeAndState, Machine.CloseAndReenter, NodeStack.Repr;
      o := Ok;
      if k.TokenComment? {
        o := ArgPropSlashdash();
      } else if k.BraceOpen? {
        o := ArgPropBlock();
      } else if k.Equals? {
        if typeAnnot.Valid() || (ident.id != BareIdentifier && ident.id != QuotedString && ident.id != RawString) {
          return Fail(Unexpected);
        }
        state := InPropertyValue;
      } else if k.Whitespace? {
        if version == V2 {
          return Ok;
        }
        o := CommitArgument();
        if o.Ok? {
          state := InNodeParams;
        }
      } else if k.ClassComment? {
        if version != V2 {
          o := Fail(Unexpected);
        }
      } else if k.Continuation? {
        StartContinuation();
      } else if k.ClassValue? {
        o := CommitArgument();
        if o.Ok? {
          ident := t;
        }
      } else if k.ClassTerminator? || k.BraceClose? {
        o := ArgPropEnd(k);
      } else {
        o := Fail(Unexpected);
      }
    }

    method HandlePropertyValue(k: TokenID, t: Token) returns (o: Outcome)
      requires Valid()
      modifies Repr()
      ensures Valid() && Repr() == old(Repr())
      ensures Result(View(), o) == Machine.HandlePropertyValue(old(View()), k, t)
    {
      hide Machine.AddProperty, Machine.CloseAndReenter, NodeStack.Repr;
      o := Ok;
      if k.Whitespace? || k.ClassComment? || k.Continuation? {
        o := Gap(k);
      } else if k.ParensOpen? {
        PushState(InTypeAnnot);
      } else if k.ClassValue? {
        if ignoreNextArgProp {
          ignoreNextArgProp := false;
        } else {
          o := AddPropertyToken(ident, t, typeAnnot);
          if !o.Ok? {
            return;
          }
        }
        ClearPending();
        state := InNode;
      } else if k.BraceClose? {
        o := CloseAndReenter();
      } else {
        o := Fail(Unexpected);
      }
    }

    // ---------- One token ----------

    method Handle(k: TokenID, t: Token) returns (o: Outcome)
      requires Valid() && Dispatch(state, t.id) == Some(k)
      modifies Repr()
      ensures Valid() && fresh(Repr() - old(Repr()))
      ensures Result(View(), o) == Machine.Handle(old(View()), t)
    {
      hide NodeStack.Repr, Dispatch, Machine.HandleDocument, Machine.HandleChildren, Machine.HandleNode;
      hide Machine.HandleNodeParams, Machine.HandleArgProp, Machine.HandlePropertyValue, Machine.HandleProperty;
      hide Machine.HandleTypeAnnot, Machine.HandleTypeDone, Machine.HandleNodeEnd;
      match state
      case InDocument => o := HandleDocument(k, t);
      case InChildren => o := HandleChildren(k, t);
      case InTypeAnnot => o := HandleTypeAnnot(k, t);
      case InTypeDone => o := HandleTypeDone(k, t);
      case InNode => o := HandleNode(k, t);
      case InNodeParams => o := HandleNodeParams(k, t);
      case InNodeEnd => o := HandleNodeEnd(k, t);
      case InProperty => o := HandleProperty(k, t);
      case InArgProp => o := HandleArgProp(k, t);
      case InPropertyValue => o := HandlePropertyValue(k, t);
    }

    /** After an ignored child block: whether the token may not follow it. */
    method LeaveIgnoredBlock(id: TokenID) returns (blocked: bool)
      modifies this`afterIgnoredChildBlock
      ensures blocked == BlockedAfterIgnored(old(View()), id)
      ensures View() == if blocked then old(View()) else LeaveIgnored(old(View()), id)
    {
      if afterIgnoredChildBlock {
        if id.Whitespace? || id.SingleLineComment? || id.MultiLineComment? {
        } else if id.Newline? || id.EOF? || id.Continuation? {
          afterIgnoredChildBlock := false;
        } else {
          return true;
        }
      }
      blocked := false;
    }

    /** Continuation bookkeeping before the handler runs. */
    method Continue(id: TokenID)
      modifies this`continuation, this`continuationNewlineSeen, this`justContinuedLine
      ensures View() == Machine.Continue(old(View()), id)
    {
      if continuation {
        if id.Newline? {
          if continuationNewlineSeen {
            StopContinuation();
          } else {
            continuationNewlineSeen := true;
          }
        } else if id.Whitespace? || id.SingleLineComment? || id.MultiLineComment? {
        } else {
          StopContinuation();
          justContinuedLine := true;
        }
      } else if !Trivia(id) {
        justContinuedLine := false;
      }
    }

    /** One call of the machine. */
    method Step(t: Token) returns (o: Outcome)
      requires Valid() && IsKind(t.id)
      modifies Repr()
      ensures Valid() && fresh(Repr() - old(Repr()))
      ensures Result(View(), o) == Machine.Step(old(View()), t)
    {
      hide NodeStack.Valid, Dispatch, Machine.Handle, Machine.Continue, LeaveIgnored, BlockedAfterIgnored, Lookup;
      var blocked := LeaveIgnoredBlock(t.id);
      if blocked {
        return Fail(AfterIgnoredBlock);
      }
      Continue(t.id);
      DispatchIsLookup(state, t.id);
      var k := FindHandler(state, t.id);
      if k.None? {
        NoHandler(View(), t);
        return Fail(Unexpected);
      }
      o := Handle(k.value, t);
    }

    /** The token before the current one. */
    ghost function Previous(): Token
      reads recent
    {
      if recent.all == [] then NO_TOKEN else recent.all[|recent.all| - 1]
    }

    /** Notes the token; true if it touches the one before it and version 2 wants them separated. */
    method NoteToken(t: Token) returns (touching: bool)
      requires Ready() && t.Valid()
      modifies recent, recent.tokens
      ensures Ready() && Repr() == old(Repr()) && View() == old(View())
      ensures recent.all == old(recent.all) + [t]
      ensures touching == (version == V2 && old(Previous()).Valid() && RequiresV2Separation(old(Previous()), t))
    {
      hide NodeStack.Valid, RequiresV2Separation, RecentTokens.Valid, Known, Window;
      recent.Add(t);
      PreviousToken(recent.all);
      touching := false;
      if version == V2 {
        var known := recent.Get();
        touching := |known| >= 2 && RequiresV2Separation(known[|known| - 2], t);
      }
    }

    /** Parser.Parse, on tokens a scanner can return. */
    method Parse(t: Token) returns (o: Outcome)
      requires Ready() && IsKind(t.id) && t.Valid()
      modifies Repr(), recent, recent.tokens
      ensures Ready() && fresh(Repr() - old(Repr()))
      ensures recent.all == old(recent.all) + [t]
      ensures ContextResult(Context(View(), Previous()), o) == Machine.Parse(Context(old(View()), old(Previous())), t)
    {
      hide NodeStack.Valid, Machine.Step, RequiresV2Separation, RecentTokens.Valid;
      var touching := NoteToken(t);
      if touching {
        return Fail(MissingSeparator);
      }
      o := Step(t);
    }

    /** The context and the token before the current one. */
    ghost function Now(): Context
      reads this, nodes, recent
    {
      Context(View(), Previous())
    }

    /** A token, offered again as long as its handler asks for it. */
    method Offer(t: Token) returns (o: Outcome)
      requires Ready() && Shape(View()) && IsKind(t.id) && t.Valid()
      modifies Repr(), recent, recent.tokens
      ensures Ready() && fresh(Repr() - old(Repr()))
      ensures ContextResult(Now(), o) == ParseTokens(old(Now()), [t])
      ensures Sound(o) && !o.Reenter? && (o.Ok? ==> Shape(View()))
    {
      hide NodeStack.Valid, Machine.Step, Shape, Ready, RecentTokens.Valid, Machine.Parse, Previous, ParseTokens;
      ghost var start, again := Now(), false;
      assert [t][1..] == [];
      while true
        invariant Ready() && fresh(Repr() - old(Repr()))
        invariant Shape(View()) && (again ==> Outer(state))
        invariant ParseTokens(start, [t]) == Remaining(Now(), again, [t])
        decreases !again
      {
        OneCall(Now(), again, [t]);
        o := Parse(t);
        if !o.Reenter? {
          break;
        }
        again := true;
      }
      AllRead(Now(), []);
    }

    /**
      ParseAllContext: a token is offered again when its handler asks for it, and the end of the input
      follows the last one.  It terminates, never meets a missing node and never returns the re-entry
      signal.
     */
    method ParseAllContext(tokens: seq<Token>) returns (o: Outcome)
      requires Ready() && Shape(View()) && forall t | t in tokens :: IsKind(t.id) && t.Valid()
      modifies Repr(), recent, recent.tokens
      ensures Ready() && fresh(Repr() - old(Repr()))
      ensures ContextResult(Now(), o) == ParseAll(old(Now()), tokens)
      ensures Sound(o) && !o.Reenter? && (o.Ok? ==> Shape(View()))
    {
      hide NodeStack.Valid, Machine.Step, Shape, Ready, RecentTokens.Valid, Machine.Parse, ParseTokens;
      hide Previous;
      ghost var start := Now();
      ghost var again := false;
      var i := 0;
      ParseTokensShape(start, tokens);
      while i < |tokens|
        invariant 0 <= i <= |tokens|
        invariant Ready() && fresh(Repr() - old(Repr()))
        invariant Shape(View()) && (again ==> i < |tokens| && Outer(state))
        invariant ParseTokens(start, tokens) == Remaining(Now(), again, tokens[i..])
        decreases |tokens| - i, if again then 0 else 1
      {
        var t := tokens[i];
        assert tokens[i..][1..] == tokens[i + 1..];
        OneCall(Now(), again, tokens[i..]);
        o := Parse(t);
        if !o.Ok? {
          if o.Reenter? {
            again := true;
            i := i - 1;
          } else {
            return;
          }
        } else {
          again := false;
        }
        i := i + 1;
      }
      AllRead(Now(), tokens[i..]);
      var eof := EndAfter(tokens);
      EndNeverReenters(Now(), eof);
      EndShape(Now(), eof);
      o := Parse(eof);
    }

    lemma StackInStore()
      requires Valid()
      ensures nodes.heap.stack != [] ==> nodes.heap.TopValid()
    {}
  }
}
