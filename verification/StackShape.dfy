/**
  The legal shapes of the parser's two stacks, kept by every step: Document, then alternating node
  and Children frames, at most one type-annotation frame on top, one open node per node frame.
 */
module StackShape {
  import opened Wrappers
  import opened Tokens
  import opened Document
  import opened Machine

  predicate NodeState(st: State) {
    st.InNode? || st.InNodeParams? || st.InNodeEnd? || st.InArgProp? || st.InProperty? || st.InPropertyValue?
  }

  /** The states in which a node can begin. */
  predicate Outer(st: State) { st.InDocument? || st.InChildren? }

  predicate BlockFrame(st: State) { st.InChildren? }

  predicate AnnotState(st: State) { st.InTypeAnnot? || st.InTypeDone? }

  /** The states a child block can be opened from. */
  predicate BlockState(st: State) { st.InNode? || st.InNodeParams? || st.InArgProp? }

  predicate AnnotParent(st: State) { Outer(st) || st.InNodeParams? || st.InPropertyValue? }

  /** Document, then node and Children frames in turn, with at most one type annotation, on top. */
  predicate Legal(states: seq<State>, state: State)
    decreases |states|
  {
    if states == [] then state.InDocument?
    else
      var below := states[|states| - 1];
      && Legal(states[..|states| - 1], below)
      && (if NodeState(state) then Outer(below)
          else if state.InChildren? then BlockState(below)
          else AnnotState(state) && AnnotParent(below))
  }

  function Count(states: seq<State>, state: State, p: State -> bool): nat
    decreases |states|
  {
    (if p(state) then 1 else 0) +
    if states == [] then 0 else Count(states[..|states| - 1], states[|states| - 1], p)
  }

  /** Number of open node frames and of open child blocks. */
  function NodeFrames(s: PState): nat { Count(s.states, s.state, NodeState) }

  function OpenBlocks(s: PState): nat { Count(s.states, s.state, BlockFrame) }

  predicate StackOk(h: Heap) {
    && (forall i | 0 <= i < |h.stack| :: h.stack[i] < |h.store|)
    && (forall i, j | 0 <= i < j < |h.stack| :: h.stack[i] < h.stack[j])
  }

  predicate Shape(s: PState) {
    && Legal(s.states, s.state)
    && |s.heap.stack| == NodeFrames(s)
    && StackOk(s.heap)
  }

  predicate Accepted(o: Outcome) { o.Ok? || o.Reenter? }

  /** Neither stack was found empty and no node was missing. */
  predicate Sound(o: Outcome) {
    !o.Panic? && o != Fail(NodeStackEmpty) && o != Fail(StateStackEmpty)
  }

  lemma InitialShape(v: Version)
    ensures Shape(Initial(v)) && OpenBlocks(Initial(v)) == 0
  {}

  /** The frames spelled out by position: node frames at odd positions, Children frames at even ones. */
  lemma {:induction false} LegalAlternates(states: seq<State>, state: State)
    requires Legal(states, state) && !AnnotState(state)
    ensures var f := states + [state];
            && f[0] == InDocument
            && (forall i | 1 <= i < |f| :: if i % 2 == 1 then NodeState(f[i]) else f[i] == InChildren)
            && (forall i | 1 <= i < |states| :: i % 2 == 1 ==> BlockState(f[i]))
    decreases |states|
  {
    if states != [] {
      var n := |states| - 1;
      LegalAlternates(states[..n], states[n]);
      assert states[..n] + [states[n]] == states;
    }
  }

  lemma PushCount(states: seq<State>, state: State, st: State, p: State -> bool)
    ensures Count(states + [state], st, p) == Count(states, state, p) + (if p(st) then 1 else 0)
  {
    assert (states + [state])[..|states|] == states;
  }

  lemma PushLegal(states: seq<State>, state: State, st: State)
    requires Legal(states, state)
    requires if NodeState(st) then Outer(state)
             else if st.InChildren? then BlockState(state) else AnnotState(st) && AnnotParent(state)
    ensures Legal(states + [state], st)
  {
    assert (states + [state])[..|states|] == states;
  }

  /** Changing the top state within a node frame, or within a type annotation, keeps the shape. */
  lemma SetState(s: PState, st: State)
    requires Shape(s)
    requires (NodeState(s.state) && NodeState(st)) || (AnnotState(s.state) && AnnotState(st))
    ensures Shape(s.(state := st)) && OpenBlocks(s.(state := st)) == OpenBlocks(s)
  {}

  /** The shape depends only on the states and on the heap's stack. */
  lemma FlagsShape(s: PState, s': PState)
    requires s'.states == s.states && s'.state == s.state
    requires s'.heap.stack == s.heap.stack && |s'.heap.store| >= |s.heap.store|
    ensures Shape(s) ==> Shape(s')
    ensures OpenBlocks(s') == OpenBlocks(s)
  {}

  lemma PushShape(s: PState, st: State)
    requires Shape(s)
    requires (st.InTypeAnnot? && AnnotParent(s.state)) || (st.InChildren? && BlockState(s.state))
    ensures Shape(PushState(s, st))
    ensures OpenBlocks(PushState(s, st)) == OpenBlocks(s) + (if st.InChildren? then 1 else 0)
  {
    PushLegal(s.states, s.state, st);
    PushCount(s.states, s.state, st, NodeState);
    PushCount(s.states, s.state, st, BlockFrame);
  }

  lemma PushNodeShape(s: PState, h: Heap)
    requires Shape(s) && Outer(s.state)
    requires StackOk(h) && |h.stack| == |s.heap.stack| + 1
    ensures Shape(PushState(s.(heap := h), InNode))
    ensures OpenBlocks(PushState(s.(heap := h), InNode)) == OpenBlocks(s)
  {
    PushLegal(s.states, s.state, InNode);
    PushCount(s.states, s.state, InNode, NodeState);
    PushCount(s.states, s.state, InNode, BlockFrame);
  }

  /** Popping a type annotation or a child block. */
  lemma PopShape(s: PState)
    requires Shape(s) && (s.state.InTypeDone? || s.state.InChildren?)
    ensures PopState(s).o.Ok? && Shape(PopState(s).s)
    ensures OpenBlocks(PopState(s).s) == OpenBlocks(s) - (if s.state.InChildren? then 1 else 0)
  {}

  /** Popping a node with its state. */
  lemma PopNodeShape(s: PState)
    requires Shape(s) && NodeState(s.state)
    ensures var r := PopNodeAndState(s);
            r.o.Ok? && Shape(r.s) && OpenBlocks(r.s) == OpenBlocks(s) && Outer(r.s.state)
  {
    hide StackOk;
    var n := |s.states| - 1;
    var p := s.(state := s.states[n], states := s.states[..n]);
    assert NodeFrames(p) == NodeFrames(s) - 1 && OpenBlocks(p) == OpenBlocks(s) && Legal(p.states, p.state);
    PopStack(s.heap);
    assert PopNodeAndState(s) == Done(p.(heap := s.heap.Pop()));
  }

  lemma PopStack(h: Heap)
    requires StackOk(h) && h.stack != []
    ensures StackOk(h.Pop())
  {}

  lemma NodeOpen(s: PState)
    requires Shape(s) && NodeState(s.state)
    ensures s.heap.TopValid()
  {}

  lemma CommitShape(s: PState)
    requires Shape(s) && NodeState(s.state)
    ensures var r := CommitArgument(s);
            Sound(r.o) && (Accepted(r.o) ==> r.o.Ok? && Shape(r.s) && r.s.state == s.state && OpenBlocks(r.s) == OpenBlocks(s))
  {
    hide ValueFromToken, Shape, OpenBlocks;
    NodeOpen(s);
    FlagsShape(s, CommitArgument(s).s);
  }

  lemma NameHeap(h: Heap)
    requires StackOk(h)
    ensures StackOk(h.Add()) && StackOk(h.Create()) && h.Add().TopValid() && h.Create().TopValid()
    ensures |h.Add().stack| == |h.Create().stack| == |h.stack| + 1
  {}

  lemma NodeNameShape(s: PState, t: Token, detached: bool)
    requires Shape(s) && Outer(s.state)
    ensures var r := NodeName(s, t, detached);
            Sound(r.o) && (Accepted(r.o) ==> r.o.Ok? && Shape(r.s) && OpenBlocks(r.s) == OpenBlocks(s))
  {
    assert StackOk(s.heap);
    hide ValueFromToken, Shape, OpenBlocks, StackOk;
    NameHeap(s.heap);
    var r := NodeName(s, t, detached);
    if r.o.Ok? {
      WrittenStack(if detached then s.heap.Create() else s.heap.Add(), r.s.heap);
      PushNodeShape(s, r.s.heap);
      FlagsShape(PushState(s.(heap := r.s.heap), InNode), r.s);
    }
  }

  lemma WrittenStack(h: Heap, h': Heap)
    requires StackOk(h) && h'.stack == h.stack && |h'.store| == |h.store|
    ensures StackOk(h')
  {}

  /** How a step may change the number of open blocks. */
  function BraceDelta(t: Token, o: Outcome): int {
    if t.id.BraceOpen? then 1 else if t.id.BraceClose? && o.Ok? then -1 else 0
  }

  ghost predicate StepKeeps(s: PState, t: Token, r: Result) {
    && Sound(r.o)
    && (Accepted(r.o) ==> Shape(r.s) && OpenBlocks(r.s) == OpenBlocks(s) + BraceDelta(t, r.o))
    && (r.o.Reenter? ==> t.id.BraceClose? && Outer(r.s.state))
  }

  /** What the choice of a handler says about the token. */
  predicate Chosen(k: TokenID, t: Token) {
    if IsKind(k) then t.id == k else !t.id.BraceOpen? && !t.id.BraceClose?
  }

  lemma DispatchChosen(st: State, t: Token)
    ensures match Dispatch(st, t.id) case None => true case Some(k) => Chosen(k, t)
  {}

  lemma ParamsEndKeeps(s: PState, k: TokenID, t: Token)
    requires Shape(s) && s.state.InNodeParams? && Chosen(k, t) && (k.BraceClose? || k.ClassTerminator?)
    ensures StepKeeps(s, t, HandleNodeParams(s, k, t))
  {
    hide Shape, OpenBlocks, PopNodeAndState;
    PopNodeShape(s);
  }

  /** Within a node's entries. */
  lemma ParamsStayKeeps(s: PState, k: TokenID, t: Token)
    requires Shape(s) && s.state.InNodeParams? && Chosen(k, t)
    requires !(k.BraceOpen? || k.BraceClose? || k.ParensOpen? || k.ClassTerminator? || k.SuffixedDecimal?)
    ensures StepKeeps(s, t, HandleNodeParams(s, k, t))
  {
    hide Shape, OpenBlocks;
    var r := HandleNodeParams(s, k, t);
    if r.o.Ok? {
      SetState(s, r.s.state);
      FlagsShape(s.(state := r.s.state), r.s);
    }
  }

  lemma NodeParamsKeeps(s: PState, k: TokenID, t: Token)
    requires Shape(s) && s.state.InNodeParams? && Chosen(k, t)
    ensures StepKeeps(s, t, HandleNodeParams(s, k, t))
  {
    hide ValueFromToken, Shape, OpenBlocks;
    var r := HandleNodeParams(s, k, t);
    if k.BraceOpen? {
      PushShape(s, InChildren);
      FlagsShape(PushState(s, InChildren), r.s);
    } else if k.BraceClose? || k.ClassTerminator? {
      ParamsEndKeeps(s, k, t);
    } else if k.ParensOpen? {
      PushShape(s, InTypeAnnot);
    } else if k.SuffixedDecimal? {
      NodeOpen(s);
      FlagsShape(s, r.s);
    } else {
      hide StepKeeps;
      ParamsStayKeeps(s, k, t);
    }
  }

  lemma NodeKeeps(s: PState, k: TokenID, t: Token)
    requires Shape(s) && s.state.InNode? && Chosen(k, t)
    ensures StepKeeps(s, t, HandleNode(s, k, t))
  {
    hide ValueFromToken, Shape, OpenBlocks;
    var r := HandleNode(s, k, t);
    if k.BraceOpen? {
      PushShape(s, InChildren);
      FlagsShape(PushState(s, InChildren), r.s);
    } else if k.BraceClose? {
      PopNodeShape(s);
    } else if k.ClassTerminator? {
      PopNodeShape(s);
    } else {
      if r.o.Ok? {
        SetState(s, r.s.state);
        FlagsShape(s.(state := r.s.state), r.s);
      }
    }
  }

  /** The tokens that decide a pending argument and then end the node or open its child block. */
  lemma ArgPropEndKeeps(s: PState, k: TokenID, t: Token)
    requires Shape(s) && s.state.InArgProp? && Chosen(k, t)
    requires k in {BraceOpen, BraceClose, ClassTerminator}
    ensures StepKeeps(s, t, HandleArgProp(s, k, t))
  {
    hide ValueFromToken, Shape, OpenBlocks, CommitArgument;
    var r := HandleArgProp(s, k, t);
    var c := CommitPending(s);
    CommitShape(s);
    if c.o.Ok? {
      if k.BraceOpen? {
        PushShape(c.s, InChildren);
        FlagsShape(PushState(c.s, InChildren), r.s);
      } else {
        PopNodeShape(c.s);
      }
    }
  }

  lemma ArgPropKeeps(s: PState, k: TokenID, t: Token)
    requires Shape(s) && s.state.InArgProp? && Chosen(k, t)
    ensures StepKeeps(s, t, HandleArgProp(s, k, t))
  {
    hide ValueFromToken, Shape, OpenBlocks, CommitArgument;
    if k in {BraceOpen, BraceClose, ClassTerminator} {
      ArgPropEndKeeps(s, k, t);
    } else {
      var r := HandleArgProp(s, k, t);
      if r.o.Ok? {
        if k.Whitespace? || k.ClassValue? {
          CommitShape(s);
          var c := if k.Whitespace? && IsV2(s) then s else CommitArgument(s).s;
          SetState(c, r.s.state);
          FlagsShape(c.(state := r.s.state), r.s);
        } else {
          SetState(s, r.s.state);
          FlagsShape(s.(state := r.s.state), r.s);
        }
      } else {
        CommitShape(s);
        NodeOpen(s);
      }
    }
  }

  lemma PropertyValueKeeps(s: PState, k: TokenID, t: Token)
    requires Shape(s) && s.state.InPropertyValue? && Chosen(k, t)
    ensures StepKeeps(s, t, HandlePropertyValue(s, k, t))
  {
    hide ValueFromToken, Shape, OpenBlocks;
    var r := HandlePropertyValue(s, k, t);
    if k.ParensOpen? {
      PushShape(s, InTypeAnnot);
    } else if k.BraceClose? {
      PopNodeShape(s);
    } else {
      NodeOpen(s);
      if r.o.Ok? {
        SetState(s, r.s.state);
        FlagsShape(s.(state := r.s.state), r.s);
      }
    }
  }

  lemma ChildrenKeeps(s: PState, k: TokenID, t: Token)
    requires Shape(s) && s.state.InChildren? && Chosen(k, t)
    ensures StepKeeps(s, t, HandleChildren(s, k, t))
  {
    hide ValueFromToken, Shape, OpenBlocks;
    var r := HandleChildren(s, k, t);
    if k.ClassIdentifier? {
      NodeNameShape(s, t, s.f.ignoreNextNode || s.f.ignoreChildren > 0);
    } else if k.ParensOpen? {
      PushShape(s, InTypeAnnot);
    } else if k.BraceClose? {
      PopShape(s);
      if r.o.Ok? {
        FlagsShape(PopState(s).s, r.s);
      }
    } else {
      FlagsShape(s, r.s);
    }
  }

  lemma DocumentKeeps(s: PState, k: TokenID, t: Token)
    requires Shape(s) && s.state.InDocument? && Chosen(k, t)
    requires !k.BraceOpen? && !k.BraceClose?
    ensures StepKeeps(s, t, HandleDocument(s, k, t))
  {
    hide ValueFromToken, Shape, OpenBlocks;
    var r := HandleDocument(s, k, t);
    if k.ClassIdentifier? {
      NodeNameShape(s, t, s.f.ignoreNextNode);
    } else if k.ParensOpen? {
      PushShape(s, InTypeAnnot);
    } else {
      FlagsShape(s, r.s);
    }
  }

  lemma TypeAnnotKeeps(s: PState, k: TokenID, t: Token)
    requires Shape(s) && s.state.InTypeAnnot? && Chosen(k, t)
    ensures StepKeeps(s, t, HandleTypeAnnot(s, k, t))
  {
    hide Shape, OpenBlocks;
    var r := HandleTypeAnnot(s, k, t);
    if r.o.Ok? {
      SetState(s, r.s.state);
      FlagsShape(s.(state := r.s.state), r.s);
    }
  }

  lemma TypeDoneKeeps(s: PState, k: TokenID, t: Token)
    requires Shape(s) && s.state.InTypeDone? && Chosen(k, t)
    ensures StepKeeps(s, t, HandleTypeDone(s, k, t))
  {
    hide Shape, OpenBlocks, PopState;
    PopShape(s);
    FlagsShape(s, StartContinuation(s));
  }

  lemma NodeEndKeeps(s: PState, k: TokenID, t: Token)
    requires Shape(s) && s.state.InNodeEnd? && Chosen(k, t)
    ensures StepKeeps(s, t, HandleNodeEnd(s, k, t))
  {
    hide Shape, OpenBlocks;
    PopNodeShape(s);
    SetState(s, InNodeParams);
    FlagsShape(s.(state := InNodeParams), StopContinuation(s).(state := InNodeParams));
  }

  lemma PropertyKeeps(s: PState, k: TokenID, t: Token)
    requires Shape(s) && s.state.InProperty? && Chosen(k, t)
    ensures StepKeeps(s, t, HandleProperty(s, k, t))
  {
    hide Shape, OpenBlocks;
    PopNodeShape(s);
    SetState(s, InPropertyValue);
  }

  lemma RestKeeps(s: PState, k: TokenID, t: Token)
    requires Shape(s) && s.state in {InTypeAnnot, InTypeDone, InNodeEnd, InProperty} && Chosen(k, t)
    ensures StepKeeps(s, t, match s.state
                            case InTypeAnnot => HandleTypeAnnot(s, k, t)
                            case InTypeDone => HandleTypeDone(s, k, t)
                            case InNodeEnd => HandleNodeEnd(s, k, t)
                            case _ => HandleProperty(s, k, t))
  {
    hide Shape, StepKeeps, Chosen, HandleTypeAnnot, HandleTypeDone, HandleNodeEnd, HandleProperty;
    if s.state.InNodeEnd? {
      NodeEndKeeps(s, k, t);
    } else if s.state.InProperty? {
      PropertyKeeps(s, k, t);
    } else if s.state.InTypeAnnot? {
      TypeAnnotKeeps(s, k, t);
    } else {
      TypeDoneKeeps(s, k, t);
    }
  }

  lemma HandleKeeps(s: PState, t: Token)
    requires Shape(s)
    ensures StepKeeps(s, t, Handle(s, t))
  {
    hide Shape, OpenBlocks, StepKeeps, Dispatch, Chosen;
    hide HandleNode, HandleNodeParams, HandleArgProp, HandlePropertyValue, HandleChildren, HandleDocument;
    hide HandleTypeAnnot, HandleTypeDone, HandleNodeEnd, HandleProperty;
    DispatchChosen(s.state, t);
    match Dispatch(s.state, t.id)
    case None => RejectKeeps(s, t);
    case Some(k) =>
      match s.state
      case InDocument =>
        NoBraceInDocument(t);
        DocumentKeeps(s, k, t);
      case InNode => NodeKeeps(s, k, t);
      case InNodeParams => NodeParamsKeeps(s, k, t);
      case InArgProp => ArgPropKeeps(s, k, t);
      case InPropertyValue => PropertyValueKeeps(s, k, t);
      case InChildren => ChildrenKeeps(s, k, t);
      case _ => RestKeeps(s, k, t);
  }

  lemma RejectKeeps(s: PState, t: Token)
    ensures StepKeeps(s, t, Reject(s))
  {}

  lemma NoBraceInDocument(t: Token)
    ensures Dispatch(InDocument, t.id) != Some(BraceOpen) && Dispatch(InDocument, t.id) != Some(BraceClose)
  {}

  /** Every step keeps the shape, whatever the token; no stack is ever found empty. */
  lemma StepShape(s: PState, t: Token)
    requires Shape(s)
    ensures StepKeeps(s, t, Step(s, t))
  {
    hide Shape, OpenBlocks, Handle;
    if !BlockedAfterIgnored(s, t.id) {
      var s1 := Continue(LeaveIgnored(s, t.id), t.id);
      FlagsShape(s, s1);
      HandleKeeps(s1, t);
    }
  }

  /** A closing brace is re-entered at most once. */
  lemma NoSecondReenter(s: PState, t: Token)
    requires Outer(s.state)
    ensures !Step(s, t).o.Reenter?
  {
    hide Dispatch, HandleChildren, HandleDocument, Continue;
    var s1 := Continue(LeaveIgnored(s, t.id), t.id);
    ContinueState(LeaveIgnored(s, t.id), t.id);
    match Dispatch(s1.state, t.id)
    case None =>
    case Some(k) => NamedNeverReenters(s1, k, t);
  }

  lemma ContinueState(s: PState, id: TokenID)
    ensures Continue(s, id).state == s.state
  {}

  lemma NamedNeverReenters(s: PState, k: TokenID, t: Token)
    ensures !HandleChildren(s, k, t).o.Reenter? && !HandleDocument(s, k, t).o.Reenter?
  {
    hide NodeName;
    NameNeverReenters(s, t, s.f.ignoreNextNode);
    NameNeverReenters(s, t, s.f.ignoreNextNode || s.f.ignoreChildren > 0);
  }

  lemma NameNeverReenters(s: PState, t: Token, detached: bool)
    ensures !NodeName(s, t, detached).o.Reenter?
  {
    hide ValueFromToken;
  }

  lemma FeedShape(s: PState, t: Token)
    requires Shape(s)
    ensures var r := Feed(s, t);
            && Sound(r.o) && !r.o.Reenter?
            && (r.o.Ok? ==> Shape(r.s) && OpenBlocks(r.s) == OpenBlocks(s) + BraceDelta(t, Ok))
  {
    StepShape(s, t);
    var r := Step(s, t);
    if r.o.Reenter? {
      NoSecondReenter(r.s, t);
      StepShape(r.s, t);
    }
  }

  /** Opening minus closing braces. */
  function Braces(ts: seq<Token>): int {
    if ts == [] then 0 else BraceDelta(ts[0], Ok) + Braces(ts[1..])
  }

  /**
    Every run from a legal shape ends in one, or in an ordinary error, and the open blocks are the
    accepted opening braces not yet closed.
   */
  lemma {:induction false} RunShape(s: PState, ts: seq<Token>)
    requires Shape(s)
    ensures var r := Run(s, ts);
            && Sound(r.o) && !r.o.Reenter?
            && (r.o.Ok? ==> Shape(r.s) && OpenBlocks(r.s) == OpenBlocks(s) + Braces(ts))
    decreases |ts|
  {
    if ts != [] {
      FeedShape(s, ts[0]);
      var r := Feed(s, ts[0]);
      if r.o.Ok? {
        RunShape(r.s, ts[1..]);
      }
    }
  }
}
