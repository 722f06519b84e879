/**
  What a step may write.  A node that has left the stack never changes again; a slashdashed node or
  child block changes nothing outside itself and is never linked into the document.
 */
module Frames {
  import opened Wrappers
  import opened Tokens
  import opened Document
  import opened Machine
  import opened StackShape

  // ---------- The effect of one step on the heap ----------

  /** At most the open node is written, and at most it is popped. */
  ghost predicate WritesTop(h: Heap, h': Heap) {
    && h'.doc == h.doc && |h'.store| == |h.store|
    && (h'.stack == h.stack || (h.stack != [] && h'.stack == h.stack[..|h.stack| - 1]))
    && forall n | 0 <= n < |h.store| :: h'.store[n] == h.store[n] || (h.stack != [] && n == h.Top())
  }

  /** A fresh node is opened; when linked, it becomes the last child of the open node or of the document. */
  ghost predicate Opens(h: Heap, h': Heap, linked: bool) {
    var n := |h.store|;
    && |h'.store| == n + 1 && h'.stack == h.stack + [n] && h'.store[n].children == []
    && h'.doc == (if linked && h.stack == [] then h.doc + [n] else h.doc)
    && forall m | 0 <= m < n ::
         h'.store[m] == (if linked && h.stack != [] && m == h.Top()
                         then h.store[m].(children := h.store[m].children + [n]) else h.store[m])
  }

  predicate Detaches(s: PState) {
    s.f.ignoreNextNode || (s.state.InChildren? && s.f.ignoreChildren > 0)
  }

  /** Only a node state writes a node, and only a node name in the document or a block opens one. */
  ghost predicate HeapStep(s: PState, h': Heap) {
    || h' == s.heap
    || (NodeState(s.state) && WritesTop(s.heap, h')
        && forall n | 0 <= n < |s.heap.store| :: h'.store[n].children == s.heap.store[n].children)
    || (Outer(s.state) && Opens(s.heap, h', !Detaches(s)))
  }

  lemma NameHeapStep(s: PState, t: Token)
    requires Shape(s) && Outer(s.state)
    ensures HeapStep(s, NodeName(s, t, Detaches(s)).s.heap)
  {
    hide ValueFromToken;
    var h, h' := s.heap, NodeName(s, t, Detaches(s)).s.heap;
    assert Opens(h, h', !Detaches(s));
  }

  lemma CommitHeap(s: PState)
    requires Shape(s) && NodeState(s.state)
    ensures var h' := CommitArgument(s).s.heap; h'.stack == s.heap.stack && HeapStep(s, h')
  {
    hide ValueFromToken;
  }

  lemma PopHeap(s: PState, h: Heap)
    requires NodeState(s.state) && HeapStep(s, h) && h.stack == s.heap.stack && h.stack != []
    ensures HeapStep(s, h.Pop())
  {}

  lemma ArgPropHeapStep(s: PState, k: TokenID, t: Token)
    requires Shape(s) && s.state.InArgProp?
    ensures HeapStep(s, HandleArgProp(s, k, t).s.heap)
  {
    hide ValueFromToken, HeapStep, CommitArgument;
    NodeOpen(s);
    CommitHeap(s);
    ArgumentHeap(s, s.ident, s.typeAnnot);
    SameHeap(s);
    PopHeap(s, s.heap);
    PopHeap(s, CommitArgument(s).s.heap);
  }

  lemma SameHeap(s: PState)
    ensures HeapStep(s, s.heap)
  {}

  lemma ArgumentHeap(s: PState, t: Token, typ: Token)
    requires Shape(s) && NodeState(s.state)
    ensures var h' := AddArgument(s, t, typ).s.heap; h'.stack == s.heap.stack && HeapStep(s, h')
  {
    hide ValueFromToken;
  }

  lemma PropertyHeap(s: PState, name: Token, value: Token, typ: Token)
    requires Shape(s) && NodeState(s.state)
    ensures HeapStep(s, AddProperty(s, name, value, typ).s.heap)
  {
    hide ValueFromToken;
  }

  lemma HandleHeapStep(s: PState, t: Token)
    requires Shape(s)
    ensures HeapStep(s, Handle(s, t).s.heap)
  {
    hide ValueFromToken, HeapStep, Dispatch, NodeName, AddArgument, AddProperty, HandleArgProp, Shape;
    SameHeap(s);
    match Dispatch(s.state, t.id)
    case None =>
    case Some(k) =>
      if s.state.InArgProp? {
        ArgPropHeapStep(s, k, t);
      } else if NodeState(s.state) {
        NodeOpen(s);
        PopHeap(s, s.heap);
        ArgumentOnly(s, t);
        PropertyHeap(s, s.ident, t, s.typeAnnot);
      } else if Outer(s.state) {
        NameHeapStep(s, t);
        DetachesSplit(s);
      }
  }

  lemma ArgumentOnly(s: PState, t: Token)
    requires Shape(s) && NodeState(s.state)
    ensures HeapStep(s, AddArgument(ClearPending(s), t, NO_TOKEN).s.heap)
  {
    hide ValueFromToken;
  }

  lemma DetachesSplit(s: PState)
    requires Outer(s.state)
    ensures Detaches(s) == if s.state.InDocument? then s.f.ignoreNextNode else s.f.ignoreNextNode || s.f.ignoreChildren > 0
  {}

  lemma StepHeap(s: PState, t: Token)
    requires Shape(s)
    ensures HeapStep(s, Step(s, t).s.heap)
  {
    hide Handle, HeapStep, Shape;
    SameHeap(s);
    if !BlockedAfterIgnored(s, t.id) {
      var s1 := Continue(LeaveIgnored(s, t.id), t.id);
      FlagsShape(s, s1);
      HandleHeapStep(s1, t);
      SameStep(s, s1, Handle(s1, t).s.heap);
    }
  }

  lemma SameStep(s: PState, s1: PState, h: Heap)
    requires HeapStep(s1, h) && s1.heap == s.heap && s1.state == s.state
    requires s1.f.ignoreNextNode == s.f.ignoreNextNode && s1.f.ignoreChildren == s.f.ignoreChildren
    ensures HeapStep(s, h)
  {}

  // ---------- Closed nodes ----------

  /** Node n is stored and not open. */
  predicate Closed(h: Heap, n: nat) { n < |h.store| && n !in h.stack }

  /** Nothing points at node n. */
  ghost predicate Unlinked(h: Heap, n: nat) {
    n !in h.doc && forall m | 0 <= m < |h.store| :: n !in h.store[m].children
  }

  /** What a heap keeps for good: closed nodes as they are, unlinked nodes unlinked, the document's prefix. */
  ghost predicate Keeps(h: Heap, h': Heap) {
    && |h.store| <= |h'.store| && h.doc <= h'.doc
    && (forall n: nat | Closed(h, n) :: Closed(h', n) && h'.store[n] == h.store[n])
    && (forall n: nat | n < |h.store| && Unlinked(h, n) :: Unlinked(h', n))
  }

  lemma HeapStepKeeps(s: PState, h': Heap)
    requires Shape(s) && HeapStep(s, h')
    ensures Keeps(s.heap, h')
  {
    var h := s.heap;
    forall n: nat | Closed(h, n)
      ensures Closed(h', n) && h'.store[n] == h.store[n]
    {
      assert h.stack != [] ==> h.Top() in h.stack;
    }
    forall n: nat | n < |h.store| && Unlinked(h, n)
      ensures Unlinked(h', n)
    {
      forall m | 0 <= m < |h'.store| ensures n !in h'.store[m].children {
        if m < |h.store| {
          assert n !in h.store[m].children;
        }
      }
    }
  }

  lemma KeepsTransitive(h0: Heap, h1: Heap, h2: Heap)
    requires Keeps(h0, h1) && Keeps(h1, h2)
    ensures Keeps(h0, h2)
  {
    forall n: nat | Closed(h0, n) ensures Closed(h2, n) && h2.store[n] == h0.store[n] {
      assert Closed(h1, n);
    }
    forall n: nat | n < |h0.store| && Unlinked(h0, n) ensures Unlinked(h2, n) {
      assert Unlinked(h1, n);
    }
  }

  lemma FeedKeeps(s: PState, t: Token)
    requires Shape(s)
    ensures Keeps(s.heap, Feed(s, t).s.heap)
  {
    hide Step, HeapStep, Keeps, Shape;
    var r := Step(s, t);
    StepHeap(s, t);
    HeapStepKeeps(s, r.s.heap);
    if r.o.Reenter? {
      StepShape(s, t);
      StepHeap(r.s, t);
      HeapStepKeeps(r.s, Step(r.s, t).s.heap);
      KeepsTransitive(s.heap, r.s.heap, Step(r.s, t).s.heap);
    }
  }

  lemma KeepsItself(h: Heap)
    ensures Keeps(h, h)
  {}

  /**
    In every run, accepted or not, a node that has left the stack never changes again and is never
    reopened, and a node nothing points at is never linked.
   */
  lemma {:induction false} ClosedForGood(s: PState, ts: seq<Token>)
    requires Shape(s)
    ensures Keeps(s.heap, Run(s, ts).s.heap)
    decreases |ts|
  {
    hide Feed, Keeps, Shape;
    KeepsItself(s.heap);
    if ts != [] {
      var r := Feed(s, ts[0]);
      FeedKeeps(s, ts[0]);
      FeedShape(s, ts[0]);
      if r.o.Ok? {
        ClosedForGood(r.s, ts[1..]);
        KeepsTransitive(s.heap, r.s.heap, Run(r.s, ts[1..]).s.heap);
      }
    }
  }

  // ---------- Pointers ----------

  /** Every pointer names a stored node, and children were allocated after their parent. */
  ghost predicate PointersOk(h: Heap) {
    && (forall n | n in h.doc :: n < |h.store|)
    && (forall n, c | 0 <= n < |h.store| && c in h.store[n].children :: n < c < |h.store|)
  }

  lemma StepPointers(s: PState, h': Heap)
    requires Shape(s) && HeapStep(s, h') && PointersOk(s.heap)
    ensures PointersOk(h')
  {
    forall n, c | 0 <= n < |h'.store| && c in h'.store[n].children ensures n < c < |h'.store| {
      assert n < |s.heap.store| ==> c in s.heap.store[n].children || c == |s.heap.store|;
    }
  }

  /** Node pointers stay well-formed and acyclic in every run. */
  lemma {:induction false} RunPointers(s: PState, ts: seq<Token>)
    requires Shape(s) && PointersOk(s.heap)
    ensures PointersOk(Run(s, ts).s.heap)
    decreases |ts|
  {
    hide Step, PointersOk, Shape, HeapStep;
    if ts != [] {
      var r := Step(s, ts[0]);
      StepHeap(s, ts[0]);
      StepPointers(s, r.s.heap);
      StepShape(s, ts[0]);
      if r.o.Reenter? {
        ReenterHeap(r.s, ts[0]);
      }
      FeedShape(s, ts[0]);
      if Feed(s, ts[0]).o.Ok? {
        RunPointers(Feed(s, ts[0]).s, ts[1..]);
      }
    }
  }

  // ---------- Slashdashed nodes ----------

  /** Everything that existed in h0 is as it was: the document, the nodes, and the lower part of the stack. */
  ghost predicate Sealed(h0: Heap, h: Heap) {
    && h.doc == h0.doc && h0.stack <= h.stack && |h0.store| <= |h.store|
    && (forall n | 0 <= n < |h0.store| :: h.store[n] == h0.store[n])
    && (forall i | |h0.stack| <= i < |h.stack| :: h.stack[i] >= |h0.store|)
  }

  lemma SealedStep(h0: Heap, s: PState, h': Heap)
    requires Sealed(h0, s.heap) && HeapStep(s, h') && StackOk(s.heap)
    requires |s.heap.stack| > |h0.stack| || (s.state.InChildren? && s.f.ignoreChildren > 0) || h' == s.heap
    ensures Sealed(h0, h')
  {
    var h := s.heap;
    if h.stack != [] && |h.stack| > |h0.stack| {
      assert h.Top() >= |h0.store|;
    }
  }

  /** The stack stays above height k at the start of every step of the run. */
  predicate StaysAbove(s: PState, ts: seq<Token>, k: nat)
    decreases |ts|
  {
    ts == [] || (|s.heap.stack| > k && (Feed(s, ts[0]).o.Ok? ==> StaysAbove(Feed(s, ts[0]).s, ts[1..], k)))
  }

  lemma FeedSealed(h0: Heap, s: PState, t: Token)
    requires Shape(s) && Sealed(h0, s.heap) && |s.heap.stack| > |h0.stack|
    ensures Sealed(h0, Feed(s, t).s.heap)
  {
    hide Step, HeapStep, Sealed;
    var r := Step(s, t);
    StepHeap(s, t);
    SealedStep(h0, s, r.s.heap);
    if r.o.Reenter? {
      StepShape(s, t);
      ReenterHeap(r.s, t);
    }
  }

  /** Re-entering a closing brace leaves the nodes alone. */
  lemma ReenterHeap(s: PState, t: Token)
    requires t.id.BraceClose? && Outer(s.state)
    ensures Step(s, t).s.heap == s.heap
  {
    hide ValueFromToken, NodeName;
  }

  lemma {:induction false} RunSealed(h0: Heap, s: PState, ts: seq<Token>)
    requires Shape(s) && Sealed(h0, s.heap) && StaysAbove(s, ts, |h0.stack|)
    ensures Sealed(h0, Run(s, ts).s.heap)
    decreases |ts|
  {
    hide Feed, Sealed, Shape;
    if ts != [] {
      var r := Feed(s, ts[0]);
      FeedSealed(h0, s, ts[0]);
      FeedShape(s, ts[0]);
      if r.o.Ok? {
        RunSealed(h0, r.s, ts[1..]);
      }
    }
  }

  /**
    From the step that opens a slashdashed node until the step that closes it, nothing that existed
    before changes: no node, no lower stack entry, nor the document's list; and nothing ever points at it.
   */
  lemma SlashdashedNode(s: PState, t: Token, ts: seq<Token>)
    requires Shape(s) && Outer(s.state) && Detaches(s)
    requires Feed(s, t).o.Ok? && |Feed(s, t).s.heap.stack| > |s.heap.stack|
    requires StaysAbove(Feed(s, t).s, ts, |s.heap.stack|) && PointersOk(s.heap)
    ensures Sealed(s.heap, Run(Feed(s, t).s, ts).s.heap)
    ensures forall more: seq<Token> :: Unlinked(Run(Feed(s, t).s, more).s.heap, |s.heap.store|)
  {
    hide Step, Feed, Shape, Sealed, Keeps, Opens, StaysAbove, Run;
    var r := Feed(s, t);
    FeedShape(s, t);
    OpensDetached(s, t);
    DetachedSeals(s.heap, r.s.heap);
    RunSealed(s.heap, r.s, ts);
    forall more: seq<Token> ensures Unlinked(Run(r.s, more).s.heap, |s.heap.store|) {
      ClosedForGood(r.s, more);
      StaysUnlinked(r.s.heap, Run(r.s, more).s.heap, |s.heap.store|);
    }
  }

  lemma DetachedSeals(h: Heap, h': Heap)
    requires Opens(h, h', false) && PointersOk(h)
    ensures Sealed(h, h') && |h.store| < |h'.store| && Unlinked(h', |h.store|)
  {}

  lemma StaysUnlinked(h: Heap, h': Heap, n: nat)
    requires Keeps(h, h') && n < |h.store| && Unlinked(h, n)
    ensures Unlinked(h', n)
  {}

  lemma OpensDetached(s: PState, t: Token)
    requires Shape(s) && Outer(s.state) && Detaches(s)
    requires Feed(s, t).o.Ok? && |Feed(s, t).s.heap.stack| > |s.heap.stack|
    ensures Opens(s.heap, Feed(s, t).s.heap, false)
  {
    hide Step;
    StepHeap(s, t);
    NoSecondReenter(s, t);
  }

  // ---------- Slashdashed child blocks ----------

  /** The effect of one accepted step on the frames: the top one changes, or one is pushed or popped. */
  ghost predicate FrameStep(s: PState, s': PState, t: Token, o: Outcome) {
    || (s'.states == s.states && (s.state.InChildren? ==> s'.state.InChildren?))
    || s'.states == s.states + [s.state]
    || (&& s.states != [] && s'.states + [s'.state] == s.states
        && (s.state.InChildren? ==> t.id.BraceClose? && o.Ok?))
  }

  /** A slashdash waits for what follows: after the name, among the entries, or with nothing pending. */
  predicate Marked(s: PState) {
    || (s.state.InNode? && s.f.ignoreNextNode)
    || (s.state.InNodeParams? && s.f.ignoreNextArgProp)
    || (s.state.InArgProp? && !s.ident.Valid() && s.f.ignoreNextArgProp)
  }

  /**
    While a block is ignored the counter follows the braces.  Otherwise it is zero and stays so, except
    at an opening brace that a slashdash waits for.
   */
  predicate IgnoreStep(s: PState, s': PState, t: Token, o: Outcome) {
    s'.f.ignoreChildren
    == if s.f.ignoreChildren > 0 then s.f.ignoreChildren + BraceDelta(t, o)
       else if t.id.BraceOpen? && Marked(s) then 1 else 0
  }

  lemma HandleFrames(s: PState, t: Token)
    requires Shape(s)
    ensures FramesOk(s, t, Handle(s, t))
  {
    hide ValueFromToken, Dispatch, Shape, FramesOk, Chosen;
    hide HandleNode, HandleNodeParams, HandleArgProp, HandlePropertyValue, HandleChildren, HandleDocument;
    hide HandleTypeAnnot, HandleTypeDone, HandleNodeEnd, HandleProperty;
    DispatchChosen(s.state, t);
    match Dispatch(s.state, t.id)
    case None => RejectFrames(s, t);
    case Some(k) =>
      if s.state.InArgProp? {
        ArgPropFrames(s, k, t);
      } else if Outer(s.state) {
        NoBraceInDocument(t);
        NamedFrames(s, k, t);
      } else if s.state.InNode? {
        NodeFramesOk(s, k, t);
      } else if s.state.InNodeParams? {
        ParamsFrames(s, k, t);
      } else if s.state.InPropertyValue? {
        ValueFrames(s, k, t);
      } else {
        RestFrames(s, k, t);
      }
  }

  ghost predicate FramesOk(s: PState, t: Token, r: Result) {
    Accepted(r.o) ==> FrameStep(s, r.s, t, r.o) && IgnoreStep(s, r.s, t, r.o)
  }

  lemma RejectFrames(s: PState, t: Token)
    ensures FramesOk(s, t, Reject(s))
  {}

  lemma NamedFrames(s: PState, k: TokenID, t: Token)
    requires Outer(s.state) && Chosen(k, t)
    requires s.state.InDocument? ==> !k.BraceOpen? && !k.BraceClose?
    ensures FramesOk(s, t, if s.state.InDocument? then HandleDocument(s, k, t) else HandleChildren(s, k, t))
  {
    hide HandleDocument, HandleChildren, FramesOk;
    if s.state.InDocument? {
      DocumentFrames(s, k, t);
    } else {
      ChildrenFrames(s, k, t);
    }
  }

  lemma DocumentFrames(s: PState, k: TokenID, t: Token)
    requires s.state.InDocument? && Chosen(k, t) && !k.BraceOpen? && !k.BraceClose?
    ensures FramesOk(s, t, HandleDocument(s, k, t))
  {
    hide NodeName;
    NameFrames(s, t, s.f.ignoreNextNode);
  }

  lemma CloseFrames(s: PState)
    ensures CloseBlock(s).states == s.states && CloseBlock(s).state == s.state
    ensures CloseBlock(s).f.ignoreChildren == if s.f.ignoreChildren > 0 then s.f.ignoreChildren - 1 else 0
  {}

  lemma ChildrenFrames(s: PState, k: TokenID, t: Token)
    requires s.state.InChildren? && Chosen(k, t)
    ensures FramesOk(s, t, HandleChildren(s, k, t))
  {
    hide NodeName, PopState, CloseBlock, FrameStep, IgnoreStep;
    if k.ClassIdentifier? {
      NameFrames(s, t, s.f.ignoreNextNode || s.f.ignoreChildren > 0);
      ChildrenPushed(s, t, HandleChildren(s, k, t));
    } else if k.BraceClose? {
      CloseFrames(s);
      PopFrames(CloseBlock(s));
      ChildrenPopped(s, t, HandleChildren(s, k, t));
    } else if k.ParensOpen? {
      ChildrenPushed(s, t, HandleChildren(s, k, t));
    } else {
      ChildrenStayed(s, t, HandleChildren(s, k, t));
    }
  }

  lemma ChildrenPushed(s: PState, t: Token, r: Result)
    requires s.state.InChildren? && !t.id.BraceOpen? && !t.id.BraceClose?
    requires Accepted(r.o) ==> r.s.states == s.states + [s.state] && r.s.f.ignoreChildren == s.f.ignoreChildren
    ensures FramesOk(s, t, r)
  {}

  lemma ChildrenPopped(s: PState, t: Token, r: Result)
    requires s.state.InChildren? && t.id.BraceClose?
    requires Accepted(r.o) ==> r.o.Ok? && s.states != [] && r.s.states + [r.s.state] == s.states
    requires Accepted(r.o) ==> r.s.f.ignoreChildren == if s.f.ignoreChildren > 0 then s.f.ignoreChildren - 1 else 0
    ensures FramesOk(s, t, r)
  {}

  lemma ChildrenStayed(s: PState, t: Token, r: Result)
    requires s.state.InChildren? && (Accepted(r.o) ==> !t.id.BraceOpen? && !t.id.BraceClose?)
    requires Accepted(r.o) ==> r.s.states == s.states && r.s.state == s.state && r.s.f.ignoreChildren == s.f.ignoreChildren
    ensures FramesOk(s, t, r)
  {}

  lemma NodeFramesOk(s: PState, k: TokenID, t: Token)
    requires s.state.InNode? && Chosen(k, t)
    ensures FramesOk(s, t, HandleNode(s, k, t))
  {
    hide PopNodeAndState;
    PopFrames(s);
  }

  lemma ParamsFrames(s: PState, k: TokenID, t: Token)
    requires s.state.InNodeParams? && Chosen(k, t)
    ensures FramesOk(s, t, HandleNodeParams(s, k, t))
  {
    hide AddArgument, PopNodeAndState, FramesOk;
    var r := HandleNodeParams(s, k, t);
    if k.BraceClose? || k.ClassTerminator? {
      PopFrames(s);
      PoppedFrames(s, t, r);
    } else if k.BraceOpen? {
      ParamsOpenFrames(s, t);
    } else if k.ParensOpen? {
      PushedFrames(s, t, r);
    } else if k.SuffixedDecimal? {
      AddFrames(s, t);
      StayedFrames(s, t, r);
    } else {
      ParamsStay(s, k, t);
      StayedFrames(s, t, r);
    }
  }

  lemma ParamsOpenFrames(s: PState, t: Token)
    requires s.state.InNodeParams? && t.id.BraceOpen?
    ensures FramesOk(s, t, HandleNodeParams(s, BraceOpen, t))
  {
    hide FramesOk;
    PushedFrames(s, t, HandleNodeParams(s, BraceOpen, t));
  }

  lemma ParamsStay(s: PState, k: TokenID, t: Token)
    requires !(k.BraceOpen? || k.BraceClose? || k.ClassTerminator? || k.ParensOpen? || k.SuffixedDecimal?)
    ensures var r := HandleNodeParams(s, k, t);
            Accepted(r.o) ==> r.s.states == s.states && r.s.f.ignoreChildren == s.f.ignoreChildren
  {}

  lemma PoppedFrames(s: PState, t: Token, r: Result)
    requires !s.state.InChildren? && (Accepted(r.o) ==> !t.id.BraceOpen?)
    requires Accepted(r.o) ==> (r.s.f.ignoreChildren == s.f.ignoreChildren && BraceDelta(t, r.o) == 0
                             && (r.s.states == s.states || (s.states != [] && r.s.states + [r.s.state] == s.states)))
    ensures FramesOk(s, t, r)
  {}

  lemma StayedFrames(s: PState, t: Token, r: Result)
    requires !s.state.InChildren? && (Accepted(r.o) ==> !t.id.BraceOpen? && BraceDelta(t, r.o) == 0)
    requires Accepted(r.o) ==> r.s.states == s.states && r.s.f.ignoreChildren == s.f.ignoreChildren
    ensures FramesOk(s, t, r)
  {}

  lemma PushedFrames(s: PState, t: Token, r: Result)
    requires Accepted(r.o) ==> r.s.states == s.states + [s.state]
    requires Accepted(r.o) ==> IgnoreStep(s, r.s, t, r.o)
    ensures FramesOk(s, t, r)
  {}

  lemma ValueFrames(s: PState, k: TokenID, t: Token)
    requires s.state.InPropertyValue? && Chosen(k, t)
    ensures FramesOk(s, t, HandlePropertyValue(s, k, t))
  {
    hide AddProperty, PopNodeAndState;
    AddFrames(s, t);
    PopFrames(s);
  }

  lemma RestFrames(s: PState, k: TokenID, t: Token)
    requires s.state in {InTypeAnnot, InTypeDone, InNodeEnd, InProperty} && Chosen(k, t)
    ensures FramesOk(s, t, match s.state
                           case InTypeAnnot => HandleTypeAnnot(s, k, t)
                           case InTypeDone => HandleTypeDone(s, k, t)
                           case InNodeEnd => HandleNodeEnd(s, k, t)
                           case _ => HandleProperty(s, k, t))
  {
    hide HandleTypeAnnot, HandleTypeDone, HandleNodeEnd, HandleProperty, FramesOk, Chosen;
    if AnnotState(s.state) {
      AnnotFrames(s, k, t);
    } else {
      LineFrames(s, k, t);
    }
  }

  lemma AnnotFrames(s: PState, k: TokenID, t: Token)
    requires AnnotState(s.state) && Chosen(k, t)
    ensures FramesOk(s, t, if s.state.InTypeAnnot? then HandleTypeAnnot(s, k, t) else HandleTypeDone(s, k, t))
  {
    hide PopState, FramesOk;
    if s.state.InTypeAnnot? {
      AnnotStays(s, k, t);
      StayedFrames(s, t, HandleTypeAnnot(s, k, t));
    } else {
      PopFrames(s);
      DoneStays(s, k, t);
      PoppedFrames(s, t, HandleTypeDone(s, k, t));
    }
  }

  lemma AnnotStays(s: PState, k: TokenID, t: Token)
    requires Chosen(k, t)
    ensures var r := HandleTypeAnnot(s, k, t);
            Accepted(r.o) ==> r.s.states == s.states && r.s.f.ignoreChildren == s.f.ignoreChildren
                              && !t.id.BraceOpen? && !t.id.BraceClose?
  {}

  lemma DoneStays(s: PState, k: TokenID, t: Token)
    requires Chosen(k, t)
    ensures var r := HandleTypeDone(s, k, t);
            Accepted(r.o) ==> r.o.Ok? && !t.id.BraceOpen? && !t.id.BraceClose?
  {}

  lemma LineFrames(s: PState, k: TokenID, t: Token)
    requires (s.state.InNodeEnd? || s.state.InProperty?) && Chosen(k, t)
    ensures FramesOk(s, t, if s.state.InNodeEnd? then HandleNodeEnd(s, k, t) else HandleProperty(s, k, t))
  {
    hide PopNodeAndState;
    PopFrames(s);
  }

  lemma NameFrames(s: PState, t: Token, detached: bool)
    ensures var r := NodeName(s, t, detached);
            Accepted(r.o) ==> r.o.Ok? && r.s.states == s.states + [s.state] && r.s.f.ignoreChildren == s.f.ignoreChildren
  {
    hide ValueFromToken;
  }

  lemma AddFrames(s: PState, t: Token)
    ensures !AddArgument(ClearPending(s), t, NO_TOKEN).o.Reenter? && !AddProperty(s, s.ident, t, s.typeAnnot).o.Reenter?
    ensures var s1 := AddArgument(ClearPending(s), t, NO_TOKEN).s;
            s1.states == s.states && s1.state == s.state && s1.f == s.f
    ensures var s1 := AddProperty(s, s.ident, t, s.typeAnnot).s;
            s1.states == s.states && s1.state == s.state && s1.f == s.f
  {
    hide ValueFromToken;
  }

  lemma CommitFrames(s: PState)
    ensures !CommitArgument(s).o.Reenter? && !AddArgument(s, s.ident, s.typeAnnot).o.Reenter?
    ensures CommitArgument(s).o.Ok? ==> !CommitArgument(s).s.f.ignoreNextArgProp
    ensures var s1 := CommitArgument(s).s;
            s1.states == s.states && s1.state == s.state && s1.f.ignoreChildren == s.f.ignoreChildren
    ensures var s2 := AddArgument(s, s.ident, s.typeAnnot).s;
            s2.states == s.states && s2.state == s.state && s2.f == s.f
  {
    hide ValueFromToken;
  }

  lemma PopFrames(s: PState)
    ensures var r := PopState(s); r.o.Ok? ==> s.states != [] && r.s.states + [r.s.state] == s.states && r.s.f == s.f
    ensures !PopState(s).o.Reenter?
    ensures var r := PopNodeAndState(s); r.o.Ok? ==> s.states != [] && r.s.states + [r.s.state] == s.states && r.s.f == s.f
    ensures !PopNodeAndState(s).o.Reenter?
  {}

  lemma ArgPropFrames(s: PState, k: TokenID, t: Token)
    requires s.state.InArgProp? && Chosen(k, t)
    ensures FramesOk(s, t, HandleArgProp(s, k, t))
  {
    hide FramesOk, HandleArgProp;
    if k.BraceOpen? || k.BraceClose? || k.ClassTerminator? {
      ArgPropEndFrames(s, k, t);
    } else {
      ArgPropStayFrames(s, k, t);
    }
  }

  lemma ArgPropEndFrames(s: PState, k: TokenID, t: Token)
    requires s.state.InArgProp? && Chosen(k, t)
    requires k.BraceOpen? || k.BraceClose? || k.ClassTerminator?
    ensures FramesOk(s, t, HandleArgProp(s, k, t))
  {
    hide ValueFromToken, CommitArgument, AddArgument, PopNodeAndState, FramesOk;
    var r := HandleArgProp(s, k, t);
    CommitFrames(s);
    if k.BraceOpen? {
      PushedFrames(s, t, r);
    } else {
      PopFrames(CommitPending(s).s);
      PoppedFrames(s, t, r);
    }
  }

  lemma ArgPropStayFrames(s: PState, k: TokenID, t: Token)
    requires s.state.InArgProp? && Chosen(k, t)
    requires !(k.BraceOpen? || k.BraceClose? || k.ClassTerminator?)
    ensures FramesOk(s, t, HandleArgProp(s, k, t))
  {
    hide FramesOk, HandleArgProp;
    if k.TokenComment? {
      ArgPropDashFrames(s, t);
    } else if k.Whitespace? || k.ClassValue? {
      ArgPropValueFrames(s, k, t);
    } else {
      ArgPropOtherFrames(s, k, t);
    }
  }

  lemma ArgPropDashFrames(s: PState, t: Token)
    requires s.state.InArgProp? && t.id.TokenComment?
    ensures FramesOk(s, t, HandleArgProp(s, TokenComment, t))
  {
    hide AddArgument, FramesOk;
    CommitFrames(s);
    StayedFrames(s, t, HandleArgProp(s, TokenComment, t));
  }

  lemma ArgPropValueFrames(s: PState, k: TokenID, t: Token)
    requires s.state.InArgProp? && Chosen(k, t) && (k.Whitespace? || k.ClassValue?)
    ensures FramesOk(s, t, HandleArgProp(s, k, t))
  {
    hide CommitArgument, FramesOk;
    CommitFrames(s);
    StayedFrames(s, t, HandleArgProp(s, k, t));
  }

  lemma ArgPropOtherFrames(s: PState, k: TokenID, t: Token)
    requires s.state.InArgProp? && Chosen(k, t)
    requires !(k.BraceOpen? || k.BraceClose? || k.ClassTerminator? || k.TokenComment? || k.Whitespace? || k.ClassValue?)
    ensures FramesOk(s, t, HandleArgProp(s, k, t))
  {
    hide FramesOk;
    StayedFrames(s, t, HandleArgProp(s, k, t));
  }

  /** What is done before the handler runs concerns continuations and ended blocks only. */
  lemma Prepared(s: PState, id: TokenID)
    ensures var s1 := Continue(LeaveIgnored(s, id), id);
            && s1.states == s.states && s1.state == s.state && s1.heap == s.heap && s1.ident == s.ident
            && s1.f.ignoreChildren == s.f.ignoreChildren && s1.f.ignoreNextNode == s.f.ignoreNextNode
            && s1.f.ignoreNextArgProp == s.f.ignoreNextArgProp
  {}

  lemma StepFrames(s: PState, t: Token)
    requires Shape(s)
    ensures var r := Step(s, t);
            Accepted(r.o) ==> FrameStep(s, r.s, t, r.o) && IgnoreStep(s, r.s, t, r.o)
  {
    hide Handle, Shape, Continue, LeaveIgnored, BraceDelta;
    if !BlockedAfterIgnored(s, t.id) {
      var s1 := Continue(LeaveIgnored(s, t.id), t.id);
      Prepared(s, t.id);
      FlagsShape(s, s1);
      HandleFrames(s1, t);
    }
  }

  function Frame(s: PState): seq<State> { s.states + [s.state] }

  /** s0 is the context right after the brace that opened an ignored block; s is inside that block. */
  ghost predicate Inside(s0: PState, s: PState) {
    && Shape(s) && Frame(s0) <= Frame(s) && Sealed(s0.heap, s.heap)
    && s.f.ignoreChildren == s0.f.ignoreChildren + OpenBlocks(s) - OpenBlocks(s0)
  }

  /** The brace that opened the block has just been closed. */
  ghost predicate Left(s0: PState, s: PState) {
    && Shape(s) && Frame(s) == s0.states && Sealed(s0.heap, s.heap)
    && s.f.ignoreChildren == s0.f.ignoreChildren - 1
  }

  predicate OpensBlock(s0: PState) {
    Shape(s0) && s0.state.InChildren? && s0.f.ignoreChildren > 0
  }

  lemma {:induction false} CountPrefix(f0: seq<State>, f: seq<State>, p: State -> bool)
    requires f0 != [] && f0 <= f
    ensures Count(f[..|f| - 1], f[|f| - 1], p) >= Count(f0[..|f0| - 1], f0[|f0| - 1], p)
    ensures |f0| < |f| && p(f[|f| - 1]) ==> Count(f[..|f| - 1], f[|f| - 1], p) > Count(f0[..|f0| - 1], f0[|f0| - 1], p)
    decreases |f|
  {
    if |f0| == |f| {
      assert f0 == f;
    } else {
      CountPrefix(f0, f[..|f| - 1], p);
      assert f0 == f[..|f0|];
      assert f[..|f| - 1][..|f| - 2] == f[..|f| - 2];
    }
  }

  lemma InsideCounts(s0: PState, s: PState)
    requires OpensBlock(s0) && Inside(s0, s)
    ensures s.f.ignoreChildren > 0 && OpenBlocks(s) >= OpenBlocks(s0)
    ensures NodeState(s.state) ==> |s.heap.stack| > |s0.heap.stack|
    ensures !s.state.InDocument?
  {
    var f0, f := Frame(s0), Frame(s);
    assert f0[..|f0| - 1] == s0.states && f[..|f| - 1] == s.states;
    CountPrefix(f0, f, BlockFrame);
    CountPrefix(f0, f, NodeState);
    assert |f0| == |f| ==> f0 == f;
    assert s0.states != [];
  }

  lemma BlockStep(s0: PState, s: PState, t: Token)
    requires OpensBlock(s0) && Inside(s0, s) && Accepted(Step(s, t).o)
    ensures var r := Step(s, t);
            Inside(s0, r.s) || (r.o.Ok? && t.id.BraceClose? && Left(s0, r.s))
  {
    hide Step, HeapStep, Sealed, Shape, OpenBlocks;
    var r := Step(s, t);
    InsideCounts(s0, s);
    StepShape(s, t);
    StepFrames(s, t);
    StepHeap(s, t);
    AnnotHeap(s, r.s.heap);
    ShapeStack(s);
    SealedStep(s0.heap, s, r.s.heap);
    var f0, f, f' := Frame(s0), Frame(s), Frame(r.s);
    if r.s.states == s.states {
      assert |f0| == |f| ==> f0 == f && f[|f| - 1] == s0.state;
    } else if r.s.states == s.states + [s.state] {
      assert f <= f';
    } else {
      assert f' == f[..|f| - 1];
      if |f0| == |f| {
        assert f0 == f && f0[..|f0| - 1] == s0.states;
        assert s.state == f[|f| - 1] == InChildren;
        InsideAtTop(s0, s);
      }
    }
  }

  lemma AnnotHeap(s: PState, h': Heap)
    requires HeapStep(s, h')
    ensures NodeState(s.state) || Outer(s.state) || h' == s.heap
  {}

  lemma ShapeStack(s: PState)
    requires Shape(s)
    ensures StackOk(s.heap) && (s.state.InDocument? || s.state.InChildren? || NodeState(s.state) || AnnotState(s.state))
  {}

  lemma InsideAtTop(s0: PState, s: PState)
    requires Frame(s0) == Frame(s)
    ensures OpenBlocks(s0) == OpenBlocks(s)
  {
    assert Frame(s0)[..|s0.states|] == s0.states && Frame(s)[..|s.states|] == s.states;
  }

  lemma BlockFeed(s0: PState, s: PState, t: Token)
    requires OpensBlock(s0) && Inside(s0, s) && Feed(s, t).o.Ok?
    ensures var r := Feed(s, t);
            Inside(s0, r.s) || (t.id.BraceClose? && Left(s0, r.s))
  {
    hide Step, Inside, Left;
    BlockStep(s0, s, t);
    if Step(s, t).o.Reenter? {
      BlockStep(s0, Step(s, t).s, t);
    }
  }

  /** Every token of the run is met inside the block opened at s0. */
  predicate StaysInside(s0: PState, s: PState, ts: seq<Token>)
    decreases |ts|
  {
    ts == [] || (Frame(s0) <= Frame(s) && (Feed(s, ts[0]).o.Ok? ==> StaysInside(s0, Feed(s, ts[0]).s, ts[1..])))
  }

  /**
    From the brace that opens a slashdashed child block until the one that closes it, nothing that
    existed before changes, and the counter is the number of blocks open from the slashdashed one
    inwards; closing it takes the counter back.
   */
  lemma {:induction false} SlashdashedBlock(s0: PState, s: PState, ts: seq<Token>)
    requires OpensBlock(s0) && Inside(s0, s)
    requires StaysInside(s0, s, ts) && Run(s, ts).o.Ok?
    ensures Inside(s0, Run(s, ts).s) || Left(s0, Run(s, ts).s)
    decreases |ts|
  {
    hide Feed, Inside, Left, OpensBlock;
    if ts != [] {
      var r := Feed(s, ts[0]);
      BlockFeed(s0, s, ts[0]);
      if Left(s0, r.s) {
        LeftIsOutside(s0, r.s);
        assert ts[1..] == [];
      } else {
        SlashdashedBlock(s0, r.s, ts[1..]);
      }
    }
  }

  lemma LeftIsOutside(s0: PState, s: PState)
    requires Left(s0, s)
    ensures !(Frame(s0) <= Frame(s))
  {}

  /** An opening brace after a slashdash, or inside an ignored block, opens an ignored block. */
  lemma OpensIgnored(s: PState, t: Token)
    requires Shape(s) && t.id.BraceOpen? && Step(s, t).o.Ok?
    requires s.f.ignoreChildren > 0 || Marked(s)
    ensures var r := Step(s, t).s;
            OpensBlock(r) && Inside(r, r) && r.f.ignoreChildren == s.f.ignoreChildren + 1
  {
    StepShape(s, t);
    var r := Step(s, t).s;
    hide Shape, ValueFromToken, OpenBlocks;
    StepFrames(s, t);
    assert Sealed(r.heap, r.heap);
    BraceOpens(s, t);
  }

  lemma BraceOpens(s: PState, t: Token)
    requires t.id.BraceOpen? && Step(s, t).o.Ok?
    ensures Step(s, t).s.state.InChildren?
  {
    hide ValueFromToken, NodeName, AddArgument, AddProperty, CommitArgument, HandlePropertyValue, HandleChildren;
  }

  lemma FeedIgnores(s: PState, t: Token)
    requires Shape(s) && s.f.ignoreChildren <= OpenBlocks(s) && Feed(s, t).o.Ok?
    ensures Feed(s, t).s.f.ignoreChildren <= OpenBlocks(Feed(s, t).s) && Shape(Feed(s, t).s)
    ensures s.f.ignoreChildren == 0 && Feed(s, t).s.f.ignoreChildren > 0 ==>
              t.id.BraceOpen? && Marked(s) && Feed(s, t).s.f.ignoreChildren == 1
  {
    hide Step, Shape, OpenBlocks;
    StepShape(s, t);
    StepFrames(s, t);
    if Step(s, t).o.Reenter? {
      StepShape(Step(s, t).s, t);
      StepFrames(Step(s, t).s, t);
    }
  }

  /** In every run the ignored blocks are among the open ones; outside blocks nothing is ignored. */
  lemma {:induction false} RunIgnores(s: PState, ts: seq<Token>)
    requires Shape(s) && s.f.ignoreChildren <= OpenBlocks(s) && Run(s, ts).o.Ok?
    ensures Run(s, ts).s.f.ignoreChildren <= OpenBlocks(Run(s, ts).s)
    decreases |ts|
  {
    hide Feed, Shape, OpenBlocks;
    if ts != [] {
      FeedIgnores(s, ts[0]);
      RunIgnores(Feed(s, ts[0]).s, ts[1..]);
    }
  }

  lemma IgnoredFromStart(v: Version, ts: seq<Token>)
    requires Run(Initial(v), ts).o.Ok?
    ensures Run(Initial(v), ts).s.f.ignoreChildren <= OpenBlocks(Run(Initial(v), ts).s)
  {
    hide Run;
    InitialShape(v);
    RunIgnores(Initial(v), ts);
  }
}
