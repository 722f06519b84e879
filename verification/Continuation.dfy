/**
  Continued lines: a backslash, and with it the end of a line, may stand where a space may, and changes
  nothing but what a slashdash right after it allows.
 */
module Continuation {
  import opened Utf8
  import opened Tokens
  import opened Document
  import opened Machine
  import opened StackShape
  import opened Syntax
  import opened Build
  import opened PrintParse
  import opened RoundTrip
  import Dangling

  // ---------- The flags of a continued line ----------

  /** The flags g with those of a continued line, and those a continuation leads to, taken from f. */
  function Take(g: Flags, f: Flags): Flags {
    g.(continuation := f.continuation, continuationNewlineSeen := f.continuationNewlineSeen,
       justContinuedLine := f.justContinuedLine, ignoreFromContinuation := f.ignoreFromContinuation,
       ignoreChildBlockFromContinuation := f.ignoreChildBlockFromContinuation,
       afterIgnoredChildBlock := f.afterIgnoredChildBlock)
  }

  lemma Taken(g: Flags, f: Flags)
    ensures var h := Take(g, f);
            && h.ignoreNextNode == g.ignoreNextNode && h.ignoreNextArgProp == g.ignoreNextArgProp
            && h.ignoreChildren == g.ignoreChildren
            && Take(g.(ignoreNextNode := false), f) == h.(ignoreNextNode := false)
            && Take(g.(ignoreNextArgProp := false), f) == h.(ignoreNextArgProp := false)
  {}

  function Flow(s: PState, f: Flags): PState { s.(f := Take(s.f, f)) }

  function FlowResult(r: Result, f: Flags): Result { Result(Flow(r.s, f), r.o) }

  // ---------- Handlers that neither read nor write them ----------

  lemma FlowAdds(s: PState, f: Flags, name: Token, t: Token, typeAnnot: Token)
    ensures AddArgument(Flow(s, f), t, typeAnnot) == FlowResult(AddArgument(s, t, typeAnnot), f)
    ensures AddProperty(Flow(s, f), name, t, typeAnnot) == FlowResult(AddProperty(s, name, t, typeAnnot), f)
  {
    hide ValueFromToken, Take;
  }

  lemma FlowName(s: PState, f: Flags, t: Token, detached: bool)
    ensures NodeName(Flow(s, f), t, detached) == FlowResult(NodeName(s, t, detached), f)
  {
    hide NodeName, Flow;
    NameParts(s, t, detached);
    NameParts(Flow(s, f), t, detached);
    FlowBegun(s, f, detached);
    FlowNaming(Begun(s, detached), f, t);
  }

  /** The new node on the stack, the slashdash consumed. */
  function Begun(s: PState, detached: bool): PState {
    if detached then IgnoreNode(s.(heap := s.heap.Create()), false) else s.(heap := s.heap.Add())
  }

  /** Its name and annotation. */
  function Naming(s: PState, t: Token): Result {
    var v := ValueFromToken(t);
    if v.None? then Result(s, Fail(BadValue))
    else if !s.heap.TopValid() then Result(s, Panic)
    else
      var rec := s.heap.store[s.heap.Top()].(name := v.value);
      var rec' := if s.typeAnnot.Valid() then rec.(typ := s.typeAnnot.data) else rec;
      var s2 := s.(heap := s.heap.Write(rec'), typeAnnot := if s.typeAnnot.Valid() then NO_TOKEN else s.typeAnnot);
      Done(PushState(s2, InNode))
  }

  lemma NameParts(s: PState, t: Token, detached: bool)
    ensures NodeName(s, t, detached) == Naming(Begun(s, detached), t)
  {
    hide ValueFromToken, Heap.Create, Heap.Add, Heap.Write, PushState, IgnoreNode;
  }

  lemma FlowBegun(s: PState, f: Flags, detached: bool)
    ensures Begun(Flow(s, f), detached) == Flow(Begun(s, detached), f)
  {
    hide Take, Heap.Create, Heap.Add;
    Taken(s.f, f);
  }

  lemma FlowNaming(s: PState, f: Flags, t: Token)
    ensures Naming(Flow(s, f), t) == FlowResult(Naming(s, t), f)
  {
    hide ValueFromToken, Take, Heap.Write;
  }

  lemma FlowPops(s: PState, f: Flags)
    ensures PopState(Flow(s, f)) == FlowResult(PopState(s), f)
    ensures PopNodeAndState(Flow(s, f)) == FlowResult(PopNodeAndState(s), f)
    ensures CloseAndReenter(Flow(s, f)) == FlowResult(CloseAndReenter(s), f)
  {
    hide Take;
  }

  lemma FlowMarks(s: PState, f: Flags)
    ensures ClearPending(Flow(s, f)) == Flow(ClearPending(s), f)
    ensures IgnoreEntry(Flow(s, f), false) == Flow(IgnoreEntry(s, false), f)
    ensures IgnoreNode(Flow(s, f), false) == Flow(IgnoreNode(s, false), f)
    ensures PushState(Flow(s, f), InTypeAnnot) == Flow(PushState(s, InTypeAnnot), f)
  {
    FlowClears(s, f);
    FlowUnmarks(s, f);
    hide Flow, ClearPending, IgnoreEntry, IgnoreNode, PushState;
  }

  lemma FlowClears(s: PState, f: Flags)
    ensures ClearPending(Flow(s, f)) == Flow(ClearPending(s), f)
    ensures PushState(Flow(s, f), InTypeAnnot) == Flow(PushState(s, InTypeAnnot), f)
  {
    hide Take;
  }

  lemma FlowUnmarks(s: PState, f: Flags)
    ensures IgnoreEntry(Flow(s, f), false) == Flow(IgnoreEntry(s, false), f)
    ensures IgnoreNode(Flow(s, f), false) == Flow(IgnoreNode(s, false), f)
  {
    hide Take;
    Taken(s.f, f);
  }

  lemma FlowCommits(s: PState, f: Flags)
    ensures CommitArgument(Flow(s, f)) == FlowResult(CommitArgument(s), f)
    ensures CommitPending(Flow(s, f)) == FlowResult(CommitPending(s), f)
  {
    hide AddArgument, ClearPending, IgnoreEntry, Take;
    Taken(s.f, f);
    FlowAdds(s, f, s.ident, s.ident, s.typeAnnot);
    FlowMarks(s, f);
    FlowMarks(IgnoreEntry(s, false), f);
    FlowMarks(AddArgument(s, s.ident, s.typeAnnot).s, f);
  }

  /** Tokens whose handlers do not touch the flags. */
  predicate Inert(st: State, id: TokenID) {
    && !id.TokenComment? && !id.Continuation? && !Terminator(id) && !id.BraceOpen?
    && !(st.InChildren? && id.BraceClose?)
  }

  predicate InertOuter(k: TokenID) { k.Whitespace? || k.ClassIdentifier? || k.ParensOpen? || k.ClassComment? }

  lemma FlowOuter(s: PState, f: Flags, k: TokenID, t: Token)
    requires InertOuter(k)
    ensures HandleDocument(Flow(s, f), k, t) == FlowResult(HandleDocument(s, k, t), f)
    ensures HandleChildren(Flow(s, f), k, t) == FlowResult(HandleChildren(s, k, t), f)
  {
    hide HandleDocument, HandleChildren;
    if k.ClassIdentifier? {
      FlowNamed(s, f, t);
    } else {
      FlowUnnamed(s, f, k, t);
    }
  }

  lemma FlowNamed(s: PState, f: Flags, t: Token)
    ensures HandleDocument(Flow(s, f), ClassIdentifier, t) == FlowResult(HandleDocument(s, ClassIdentifier, t), f)
    ensures HandleChildren(Flow(s, f), ClassIdentifier, t) == FlowResult(HandleChildren(s, ClassIdentifier, t), f)
  {
    hide NodeName, Take, PopState, CloseBlock, SlashdashNode, StartContinuation, PushState, AfterType;
    Taken(s.f, f);
    FlowName(s, f, t, s.f.ignoreNextNode);
    FlowName(s, f, t, s.f.ignoreNextNode || s.f.ignoreChildren > 0);
  }

  lemma FlowUnnamed(s: PState, f: Flags, k: TokenID, t: Token)
    requires InertOuter(k) && !k.ClassIdentifier?
    ensures HandleDocument(Flow(s, f), k, t) == FlowResult(HandleDocument(s, k, t), f)
    ensures HandleChildren(Flow(s, f), k, t) == FlowResult(HandleChildren(s, k, t), f)
  {
    hide NodeName, Take, PopState, CloseBlock, SlashdashNode, StartContinuation, PushState;
    FlowClears(s, f);
  }

  lemma FlowAnnot(s: PState, f: Flags, k: TokenID, t: Token)
    requires !k.Continuation?
    ensures HandleTypeAnnot(Flow(s, f), k, t) == FlowResult(HandleTypeAnnot(s, k, t), f)
    ensures HandleTypeDone(Flow(s, f), k, t) == FlowResult(HandleTypeDone(s, k, t), f)
  {
    hide PopState, Take;
    FlowPops(s, f);
  }

  lemma FlowNode(s: PState, f: Flags, k: TokenID, t: Token)
    requires !k.Continuation? && !k.ClassTerminator? && !k.ClassEndOfLine? && !k.BraceOpen?
    ensures HandleNode(Flow(s, f), k, t) == FlowResult(HandleNode(s, k, t), f)
    ensures HandleProperty(Flow(s, f), k, t) == FlowResult(HandleProperty(s, k, t), f)
    ensures HandleNodeEnd(Flow(s, f), k, t) == FlowResult(HandleNodeEnd(s, k, t), f)
  {
    hide CloseAndReenter, Take;
    FlowPops(s, f);
  }

  lemma FlowParams(s: PState, f: Flags, k: TokenID, t: Token)
    requires !k.Continuation? && !k.ClassTerminator? && !k.BraceOpen? && !k.TokenComment?
    ensures HandleNodeParams(Flow(s, f), k, t) == FlowResult(HandleNodeParams(s, k, t), f)
  {
    hide HandleNodeParams;
    if k.SuffixedDecimal? {
      FlowSuffixed(s, f, t);
    } else {
      FlowOtherParams(s, f, k, t);
    }
  }

  lemma FlowOtherParams(s: PState, f: Flags, k: TokenID, t: Token)
    requires !k.Continuation? && !k.ClassTerminator? && !k.BraceOpen? && !k.TokenComment? && !k.SuffixedDecimal?
    ensures HandleNodeParams(Flow(s, f), k, t) == FlowResult(HandleNodeParams(s, k, t), f)
  {
    hide HandleNodeParams;
    OtherParams(s, k, t);
    OtherParams(Flow(s, f), k, t);
    Taken(s.f, f);
    FlowPops(s, f);
    FlowClears(s, f);
    hide CloseAndReenter, PushState, Take;
  }

  /** The simple handlers among the entries. */
  lemma OtherParams(s: PState, k: TokenID, t: Token)
    requires !k.Continuation? && !k.ClassTerminator? && !k.BraceOpen? && !k.TokenComment? && !k.SuffixedDecimal?
    ensures HandleNodeParams(s, k, t)
         == if k.Whitespace? || k.ClassComment? then AfterType(s)
            else if k.SingleLineComment? then Done(if s.f.ignoreNextArgProp then s else s.(state := InNodeEnd))
            else if k.ParensOpen? then Done(PushState(s, InTypeAnnot))
            else if k.BareIdentifier? then Done(s.(ident := t, state := if IsV2(s) then InArgProp else InProperty))
            else if k.BraceClose? then CloseAndReenter(s)
            else if k.ClassString? || k.ClassNonStringValue? then Done(s.(ident := t, state := InArgProp))
            else Reject(s)
  {
    hide CloseAndReenter, PushState, AddArgument, ClearPending, PopNodeAndState, IgnoreBlock, IgnoreEntry, AfterType;
    hide MarkIgnoreFromContinuation, StartContinuation;
  }

  lemma FlowSuffixed(s: PState, f: Flags, t: Token)
    ensures HandleNodeParams(Flow(s, f), SuffixedDecimal, t) == FlowResult(HandleNodeParams(s, SuffixedDecimal, t), f)
  {
    hide AddArgument, ClearPending, IgnoreEntry, Take;
    Taken(s.f, f);
    FlowMarks(s, f);
    FlowMarks(ClearPending(s), f);
    FlowAdds(ClearPending(s), f, t, t, ClearPending(s).typeAnnot);
    ClearKeeps(s, f);
  }

  lemma ClearKeeps(s: PState, f: Flags)
    ensures ClearPending(s).f == s.f && ClearPending(s).typeAnnot == NO_TOKEN
    ensures Flow(s, f).f.ignoreNextArgProp == s.f.ignoreNextArgProp
  {}

  lemma FlowArgProp(s: PState, f: Flags, k: TokenID, t: Token)
    requires !k.Continuation? && !k.ClassTerminator? && !k.BraceOpen? && !k.TokenComment?
    ensures HandleArgProp(Flow(s, f), k, t) == FlowResult(HandleArgProp(s, k, t), f)
  {
    hide CommitArgument, CommitPending, CloseAndReenter, Identifier, Take;
    Taken(s.f, f);
    FlowCommits(s, f);
    FlowPops(CommitPending(s).s, f);
  }

  lemma FlowPropertyValue(s: PState, f: Flags, k: TokenID, t: Token)
    requires !k.Continuation?
    ensures HandlePropertyValue(Flow(s, f), k, t) == FlowResult(HandlePropertyValue(s, k, t), f)
  {
    hide HandlePropertyValue;
    if k.ClassValue? {
      FlowProperty(s, f, t);
    } else {
      FlowBeforeValue(s, f, k, t);
    }
  }

  lemma FlowBeforeValue(s: PState, f: Flags, k: TokenID, t: Token)
    requires !k.Continuation? && !k.ClassValue?
    ensures HandlePropertyValue(Flow(s, f), k, t) == FlowResult(HandlePropertyValue(s, k, t), f)
  {
    hide CloseAndReenter, PushState, Take;
    FlowPops(s, f);
    FlowMarks(s, f);
  }

  lemma FlowProperty(s: PState, f: Flags, t: Token)
    ensures HandlePropertyValue(Flow(s, f), ClassValue, t) == FlowResult(HandlePropertyValue(s, ClassValue, t), f)
  {
    hide AddProperty, ClearPending, IgnoreEntry, Take;
    Taken(s.f, f);
    FlowAdds(s, f, s.ident, t, s.typeAnnot);
    FlowMarks(s, f);
    FlowMarks(IgnoreEntry(s, false), f);
    FlowMarks(AddProperty(s, s.ident, t, s.typeAnnot).s, f);
  }

  /** What an inert token is handled as. */
  lemma InertKind(st: State, id: TokenID)
    requires Inert(st, id) && Dispatch(st, id).Some?
    ensures var k := Dispatch(st, id).value;
            && !k.Continuation? && !k.ClassTerminator? && !k.ClassEndOfLine? && !k.BraceOpen? && !k.TokenComment?
            && (st.InDocument? || st.InChildren? ==>
                  k.Whitespace? || k.ClassIdentifier? || k.ParensOpen? || k.ClassComment?)
  {}

  lemma HandleFlow(s: PState, f: Flags, t: Token)
    requires Inert(s.state, t.id)
    ensures Handle(Flow(s, f), t) == FlowResult(Handle(s, t), f)
  {
    hide HandleNode, HandleNodeParams, HandleArgProp, HandlePropertyValue, HandleChildren, HandleDocument, Dispatch;
    hide HandleTypeAnnot, HandleTypeDone, HandleNodeEnd, HandleProperty, Inert;
    match Dispatch(s.state, t.id)
    case None =>
    case Some(k) =>
      InertKind(s.state, t.id);
      if s.state.InDocument? || s.state.InChildren? {
        FlowOuter(s, f, k, t);
      }
      FlowAnnot(s, f, k, t);
      FlowNode(s, f, k, t);
      FlowParams(s, f, k, t);
      FlowArgProp(s, f, k, t);
      FlowPropertyValue(s, f, k, t);
  }

  // ---------- Two runs in step ----------

  /** Whether what a slashdash allows has to be the same, and whether one line may go on where the other does not. */
  datatype Mode = Mode(exact: bool, going: bool)

  /** The mode in which a handler is called: only spaces and comments leave one line going on. */
  function Joined(m: Mode, id: TokenID): Mode { if Blank(id) then m else Together(m) }

  function Together(m: Mode): Mode { m.(going := false) }

  /** Both lines alike, or the first one goes on, its newline seen, and the second does not. */
  predicate InStep(m: Mode, on: bool, seen: bool, on': bool, seen': bool) {
    (on == on' && (on ==> seen == seen')) || (m.going && on && seen && !on')
  }

  /** What a slashdash after a continuation allows is allowed where the second flag allows it, or exactly there. */
  predicate Allows(exact: bool, more: bool, less: bool) { if exact then more == less else less ==> more }

  predicate LikeFlags(m: Mode, f: Flags, g: Flags) {
    && f.ignoreNextNode == g.ignoreNextNode && f.ignoreNextArgProp == g.ignoreNextArgProp
    && f.ignoreChildren == g.ignoreChildren
    && InStep(m, f.continuation, f.continuationNewlineSeen, g.continuation, g.continuationNewlineSeen)
    && Allows(m.exact, f.ignoreFromContinuation, g.ignoreFromContinuation)
    && Allows(m.exact, f.ignoreChildBlockFromContinuation, g.ignoreChildBlockFromContinuation)
    && Allows(m.exact, !f.afterIgnoredChildBlock, !g.afterIgnoredChildBlock)
  }

  /** The states differ in such flags only. */
  predicate Like(m: Mode, a: PState, b: PState) {
    a == b.(f := a.f) && LikeFlags(m, a.f, b.f)
  }

  lemma FlowIsLike(b: PState, f: Flags)
    requires f.ignoreNextNode == b.f.ignoreNextNode && f.ignoreNextArgProp == b.f.ignoreNextArgProp
    requires f.ignoreChildren == b.f.ignoreChildren
    ensures Flow(b, f) == b.(f := f)
  {}

  predicate Alike(m: Mode, a: Result, b: Result) { a.o == b.o && Like(m, a.s, b.s) }

  /** The tokens a continued line passes over. */
  predicate Blank(id: TokenID) { id.Whitespace? || id.SingleLineComment? || id.MultiLineComment? }

  /** What comes before the handler. */
  function Prepare(s: PState, id: TokenID): PState { Continue(LeaveIgnored(s, id), id) }

  lemma PrepareLike(m: Mode, a: PState, b: PState, id: TokenID)
    requires Like(m, a, b)
    ensures var a', b' := Prepare(a, id), Prepare(b, id);
            && Like(Joined(m, id), a', b')
            && (id.TokenComment? ==> a'.f.justContinuedLine == a.f.continuation && b'.f.justContinuedLine == b.f.continuation)
  {
    hide LikeFlags;
    PreparedState(a, id);
    PreparedState(b, id);
    PreparedLike(m, a.f, b.f, id);
  }

  /** The flags on which the handler is called. */
  function Prepared(f: Flags, id: TokenID): Flags { Went(Left(f, id), id) }

  function Left(f: Flags, id: TokenID): Flags {
    if f.afterIgnoredChildBlock && (id.Newline? || id.EOF? || id.Continuation?) then f.(afterIgnoredChildBlock := false) else f
  }

  function Went(f: Flags, id: TokenID): Flags {
    if !f.continuation then if Trivia(id) then f else f.(justContinuedLine := false)
    else if id.Newline? && !f.continuationNewlineSeen then f.(continuationNewlineSeen := true)
    else if Blank(id) then f
    else Stopped(f, !id.Newline?)
  }

  function Stopped(f: Flags, just: bool): Flags {
    f.(continuation := false, continuationNewlineSeen := false, justContinuedLine := just || f.justContinuedLine)
  }

  lemma PreparedState(s: PState, id: TokenID)
    ensures Prepare(s, id) == s.(f := Prepared(s.f, id))
  {
    hide LeaveIgnored, Continue, Left, Went;
    LeftState(s, id);
    WentState(LeaveIgnored(s, id), id);
  }

  lemma LeftState(s: PState, id: TokenID)
    ensures LeaveIgnored(s, id) == s.(f := Left(s.f, id))
  {}

  lemma WentState(s: PState, id: TokenID)
    ensures Continue(s, id) == s.(f := Went(s.f, id))
  {}

  lemma LeftLike(m: Mode, f: Flags, g: Flags, id: TokenID)
    requires LikeFlags(m, f, g)
    ensures LikeFlags(m, Left(f, id), Left(g, id))
    ensures Left(f, id).continuation == f.continuation && Left(g, id).continuation == g.continuation
  {
    hide InStep;
  }

  lemma StoppedLike(m: Mode, f: Flags, g: Flags, j: bool, k: bool)
    requires LikeFlags(m, f, g)
    ensures LikeFlags(Together(m), Stopped(f, j), Stopped(g, k))
  {
    hide Allows;
  }

  lemma StillLike(m: Mode, f: Flags, g: Flags, j: bool, k: bool)
    requires LikeFlags(m, f, g) && !g.continuation
    ensures LikeFlags(Together(m), Stopped(f, j), g.(justContinuedLine := k))
  {
    hide Allows;
  }

  lemma StraightLike(m: Mode, f: Flags, g: Flags, j: bool, k: bool)
    requires LikeFlags(m, f, g) && (!f.continuation || f.continuation == g.continuation)
    ensures LikeFlags(Together(m), f.(justContinuedLine := j), g.(justContinuedLine := k))
  {
    hide Allows;
  }

  lemma SeenLike(m: Mode, f: Flags, g: Flags)
    requires LikeFlags(m, f, g) && f.continuation == g.continuation
    ensures LikeFlags(Together(m), f.(continuationNewlineSeen := true), g.(continuationNewlineSeen := true))
  {
    hide Allows;
  }

  lemma WentLike(m: Mode, f: Flags, g: Flags, id: TokenID)
    requires LikeFlags(m, f, g)
    ensures var f', g' := Went(f, id), Went(g, id);
            && LikeFlags(Joined(m, id), f', g')
            && (id.TokenComment? ==> f'.justContinuedLine == f.continuation && g'.justContinuedLine == g.continuation)
  {
    hide LikeFlags;
    StepFlags(m, f, g);
    if !Blank(id) {
      if id.Newline? {
        NewlineWent(m, f, g);
      } else {
        OtherWent(m, f, g, id);
      }
    }
  }

  lemma StepFlags(m: Mode, f: Flags, g: Flags)
    requires LikeFlags(m, f, g)
    ensures InStep(m, f.continuation, f.continuationNewlineSeen, g.continuation, g.continuationNewlineSeen)
    ensures !m.going ==> f.continuation == g.continuation
  {}

  lemma NewlineWent(m: Mode, f: Flags, g: Flags)
    requires LikeFlags(m, f, g)
    ensures var f', g' := Went(f, Newline), Went(g, Newline); LikeFlags(Together(m), f', g')
  {
    hide LikeFlags, Stopped;
    StepFlags(m, f, g);
    WentNewline(f);
    WentNewline(g);
    if f.continuation != g.continuation {
      StillLike(m, f, g, false, g.justContinuedLine);
    } else if !f.continuation {
      StraightLike(m, f, g, f.justContinuedLine, g.justContinuedLine);
    } else if f.continuationNewlineSeen {
      StoppedLike(m, f, g, false, false);
    } else {
      SeenLike(m, f, g);
    }
  }

  lemma WentNewline(f: Flags)
    ensures Went(f, Newline)
         == if !f.continuation then f.(justContinuedLine := f.justContinuedLine)
            else if f.continuationNewlineSeen then Stopped(f, false) else f.(continuationNewlineSeen := true)
    ensures f.(justContinuedLine := f.justContinuedLine) == f
  {}

  lemma OtherWent(m: Mode, f: Flags, g: Flags, id: TokenID)
    requires LikeFlags(m, f, g) && !Blank(id) && !id.Newline?
    ensures var f', g' := Went(f, id), Went(g, id);
            && LikeFlags(Together(m), f', g')
            && f'.justContinuedLine == f.continuation && g'.justContinuedLine == g.continuation
  {
    hide LikeFlags, Stopped;
    StepFlags(m, f, g);
    WentOther(f, id);
    WentOther(g, id);
    if g.continuation {
      StoppedLike(m, f, g, true, true);
    } else if f.continuation {
      StillLike(m, f, g, true, false);
    } else {
      StraightLike(m, f, g, false, false);
    }
  }

  lemma WentOther(f: Flags, id: TokenID)
    requires !Blank(id) && !id.Newline?
    ensures Went(f, id) == if f.continuation then Stopped(f, true) else f.(justContinuedLine := false)
    ensures var h := Went(f, id); !h.continuation && h.justContinuedLine == f.continuation
  {}

  lemma PreparedLike(m: Mode, f: Flags, g: Flags, id: TokenID)
    requires LikeFlags(m, f, g)
    ensures var f', g' := Prepared(f, id), Prepared(g, id);
            && LikeFlags(Joined(m, id), f', g')
            && (id.TokenComment? ==> f'.justContinuedLine == f.continuation && g'.justContinuedLine == g.continuation)
  {
    hide LikeFlags, Left, Went;
    LeftLike(m, f, g, id);
    WentLike(m, Left(f, id), Left(g, id), id);
  }

  lemma InertLike(m: Mode, a: PState, b: PState, t: Token)
    requires Like(m, a, b) && Inert(a.state, t.id)
    ensures Alike(m, Handle(a, t), Handle(b, t))
  {
    hide Handle, Inert;
    FlowIsLike(b, a.f);
    FlowIsLike(b, b.f);
    HandleFlow(b, a.f, t);
    HandleFlow(b, b.f, t);
    assert b.(f := b.f) == b;
  }

  lemma DashLike(m: Mode, a: PState, b: PState, t: Token)
    requires Like(m, a, b) && t.id.TokenComment?
    requires (b.f.justContinuedLine ==> a.f.justContinuedLine) && (m.exact ==> a.f.justContinuedLine == b.f.justContinuedLine)
    ensures Alike(m, Handle(a, t), Handle(b, t))
  {
    hide Handle, Like;
    assert a.state == b.state by { LikeCore(m, a, b); }
    if b.state.InArgProp? {
      DashInArgument(m, a, b, t);
    } else {
      DashElsewhere(m, a, b, t);
    }
  }

  lemma LikeCore(m: Mode, a: PState, b: PState)
    requires Like(m, a, b)
    ensures a.state == b.state && a.states == b.states && a.heap == b.heap && a.ident == b.ident
    ensures a.typeAnnot == b.typeAnnot && a.version == b.version
    ensures a.f.ignoreNextNode == b.f.ignoreNextNode && a.f.ignoreNextArgProp == b.f.ignoreNextArgProp
    ensures a.f.ignoreChildren == b.f.ignoreChildren && (!m.going ==> a.f.continuation == b.f.continuation)
  {}

  /** The flags after a slashdash. */
  function Marked(f: Flags): Flags { f.(ignoreFromContinuation := f.justContinuedLine, justContinuedLine := false) }

  lemma MarkedLike(m: Mode, a: PState, b: PState)
    requires Like(m, a, b)
    requires (b.f.justContinuedLine ==> a.f.justContinuedLine) && (m.exact ==> a.f.justContinuedLine == b.f.justContinuedLine)
    ensures Like(m, IgnoreNode(MarkIgnoreFromContinuation(a), true), IgnoreNode(MarkIgnoreFromContinuation(b), true))
    ensures Like(m, IgnoreEntry(MarkIgnoreFromContinuation(a), true), IgnoreEntry(MarkIgnoreFromContinuation(b), true))
    ensures Like(m, MarkIgnoreFromContinuation(IgnoreEntry(a, true)), MarkIgnoreFromContinuation(IgnoreEntry(b, true)))
  {
    hide LikeFlags;
    MarkedFlags(m, a.f, b.f);
  }

  lemma MarkedFlags(m: Mode, f: Flags, g: Flags)
    requires LikeFlags(m, f, g)
    requires (g.justContinuedLine ==> f.justContinuedLine) && (m.exact ==> f.justContinuedLine == g.justContinuedLine)
    ensures LikeFlags(m, Marked(f).(ignoreNextNode := true), Marked(g).(ignoreNextNode := true))
    ensures LikeFlags(m, Marked(f).(ignoreNextArgProp := true), Marked(g).(ignoreNextArgProp := true))
  {
    hide InStep;
  }

  lemma DashElsewhere(m: Mode, a: PState, b: PState, t: Token)
    requires Like(m, a, b) && t.id.TokenComment? && !b.state.InArgProp?
    requires (b.f.justContinuedLine ==> a.f.justContinuedLine) && (m.exact ==> a.f.justContinuedLine == b.f.justContinuedLine)
    ensures Alike(m, Handle(a, t), Handle(b, t))
  {
    hide MarkIgnoreFromContinuation, IgnoreNode, IgnoreEntry, Like;
    LikeCore(m, a, b);
    MarkedLike(m, a, b);
  }

  lemma InState(m: Mode, a: PState, b: PState, st: State)
    requires Like(m, a, b)
    ensures Like(m, a.(state := st), b.(state := st))
    ensures Like(m, ClearPending(a), ClearPending(b))
    ensures Like(m, IgnoreEntry(a, false), IgnoreEntry(b, false))
    ensures Like(m, PushState(a, st), PushState(b, st))
  {}

  lemma AddLike(m: Mode, a: PState, b: PState, t: Token, typeAnnot: Token)
    requires Like(m, a, b)
    ensures Alike(m, AddArgument(a, t, typeAnnot), AddArgument(b, t, typeAnnot))
    ensures AddArgument(b, t, typeAnnot).s.f == b.f && AddArgument(a, t, typeAnnot).s.f == a.f
  {
    hide ValueFromToken, Take;
    FlowAdds(b, a.f, t, t, typeAnnot);
  }

  lemma CommitLike(m: Mode, a: PState, b: PState)
    requires Like(m, a, b)
    ensures Alike(m, CommitArgument(a), CommitArgument(b))
    ensures Alike(m, CommitPending(a), CommitPending(b))
  {
    hide AddArgument, Like, ClearPending, IgnoreEntry;
    LikeCore(m, a, b);
    AddLike(m, a, b, b.ident, b.typeAnnot);
    InState(m, a, b, b.state);
    InState(m, IgnoreEntry(a, false), IgnoreEntry(b, false), b.state);
    InState(m, AddArgument(a, a.ident, a.typeAnnot).s, AddArgument(b, b.ident, b.typeAnnot).s, b.state);
  }

  lemma PopLike(m: Mode, a: PState, b: PState)
    requires Like(m, a, b)
    ensures Alike(m, PopState(a), PopState(b)) && Alike(m, PopNodeAndState(a), PopNodeAndState(b))
    ensures Alike(m, CloseAndReenter(a), CloseAndReenter(b))
  {}

  /** The argument before a slashdash is added, or dropped. */
  function BeforeDash(s: PState): Result {
    if s.f.ignoreNextArgProp then Done(IgnoreEntry(s, false))
    else if s.ident.Valid() then AddArgument(s, s.ident, s.typeAnnot)
    else Done(s)
  }

  function NowDashed(s: PState): Result {
    if !s.ident.Valid() && s.typeAnnot.Valid() then Result(s, Fail(ExpectedValueAfterType))
    else Done(MarkIgnoreFromContinuation(IgnoreEntry(if s.ident.Valid() then ClearPending(s) else s, true)).(state := InNodeParams))
  }

  lemma DashHandled(s: PState, t: Token)
    requires t.id.TokenComment? && s.state.InArgProp?
    ensures Handle(s, t) == var r := BeforeDash(s); if !r.o.Ok? then r else NowDashed(r.s)
  {
    hide AddArgument, MarkIgnoreFromContinuation, ClearPending, IgnoreEntry, CommitArgument, CommitPending;
  }

  lemma BeforeDashLike(m: Mode, a: PState, b: PState)
    requires Like(m, a, b)
    ensures Alike(m, BeforeDash(a), BeforeDash(b))
    ensures BeforeDash(a).s.f.justContinuedLine == a.f.justContinuedLine
    ensures BeforeDash(b).s.f.justContinuedLine == b.f.justContinuedLine
  {
    hide Like, AddArgument, IgnoreEntry;
    LikeCore(m, a, b);
    InState(m, a, b, b.state);
    AddLike(m, a, b, b.ident, b.typeAnnot);
    EntryFlags(a);
    EntryFlags(b);
  }

  lemma NowDashedLike(m: Mode, a: PState, b: PState)
    requires Like(m, a, b)
    requires (b.f.justContinuedLine ==> a.f.justContinuedLine) && (m.exact ==> a.f.justContinuedLine == b.f.justContinuedLine)
    ensures Alike(m, NowDashed(a), NowDashed(b))
  {
    hide Like, MarkIgnoreFromContinuation, ClearPending, IgnoreEntry;
    LikeCore(m, a, b);
    InState(m, a, b, b.state);
    EntryFlags(a);
    EntryFlags(b);
    var sa, sb := if a.ident.Valid() then ClearPending(a) else a, if b.ident.Valid() then ClearPending(b) else b;
    MarkedLike(m, sa, sb);
    InState(m, MarkIgnoreFromContinuation(IgnoreEntry(sa, true)), MarkIgnoreFromContinuation(IgnoreEntry(sb, true)), InNodeParams);
  }

  lemma DashInArgument(m: Mode, a: PState, b: PState, t: Token)
    requires Like(m, a, b) && t.id.TokenComment? && b.state.InArgProp?
    requires (b.f.justContinuedLine ==> a.f.justContinuedLine) && (m.exact ==> a.f.justContinuedLine == b.f.justContinuedLine)
    ensures Alike(m, Handle(a, t), Handle(b, t))
  {
    LikeCore(m, a, b);
    hide Like, Handle, BeforeDash, NowDashed;
    DashHandled(a, t);
    DashHandled(b, t);
    BeforeDashLike(m, a, b);
    if BeforeDash(b).o.Ok? {
      NowDashedLike(m, BeforeDash(a).s, BeforeDash(b).s);
    }
  }

  lemma EntryFlags(s: PState)
    ensures IgnoreEntry(s, false).f.justContinuedLine == s.f.justContinuedLine
    ensures ClearPending(s).f == s.f
  {}

  lemma StartLike(m: Mode, a: PState, b: PState)
    requires Like(m, a, b)
    ensures Like(m, StartContinuation(a), StartContinuation(b))
  {
    hide Allows;
  }

  lemma BackslashLike(m: Mode, a: PState, b: PState, t: Token)
    requires Like(m, a, b) && t.id.Continuation?
    ensures Alike(m, Handle(a, t), Handle(b, t))
  {
    hide Like, StartContinuation, CommitArgument, AddArgument, CommitPending;
    LikeCore(m, a, b);
    StartLike(m, a, b);
  }

  lemma StopLike(m: Mode, a: PState, b: PState)
    requires Like(m, a, b)
    ensures Like(m, StopContinuation(a), StopContinuation(b))
  {
    hide Allows;
  }

  lemma EndInArgument(m: Mode, a: PState, b: PState, t: Token)
    requires Like(m, a, b) && Terminator(t.id) && !m.going && b.state.InArgProp?
    ensures Alike(m, Handle(a, t), Handle(b, t))
  {
    hide Like, CommitArgument, CommitPending, PopNodeAndState;
    LikeCore(m, a, b);
    CommitLike(m, a, b);
    PopLike(m, CommitPending(a).s, CommitPending(b).s);
  }

  /** What a terminator does where no argument is pending. */
  function Ended(s: PState, newline: bool, semicolon: bool): Result {
    match s.state
    case InDocument => if s.typeAnnot.Valid() then Result(s, Fail(ExpectedValueAfterType)) else Done(s)
    case InChildren => if newline then Done(s) else Reject(s)
    case InNode => if s.f.continuation then Done(s) else PopNodeAndState(s)
    case InNodeParams =>
      if s.f.continuation then Done(s)
      else if s.f.ignoreNextArgProp then if newline then Done(s) else Reject(s)
      else if s.typeAnnot.Valid() then Result(s, Fail(ExpectedValueAfterType))
      else PopNodeAndState(s)
    case InNodeEnd =>
      if semicolon then Reject(s)
      else if s.f.continuation then Done(StopContinuation(s).(state := InNodeParams))
      else PopNodeAndState(s)
    case _ => Reject(s)
  }

  lemma EndHandled(s: PState, t: Token)
    requires Terminator(t.id) && !s.state.InArgProp?
    ensures Handle(s, t) == Ended(s, t.id.Newline?, t.id.Semicolon?)
  {
    hide PopNodeAndState, StopContinuation;
  }

  lemma EndElsewhere(m: Mode, a: PState, b: PState, t: Token)
    requires Like(m, a, b) && Terminator(t.id) && !m.going && !b.state.InArgProp?
    ensures Alike(m, Handle(a, t), Handle(b, t))
  {
    hide Like, PopNodeAndState, StopContinuation, Handle;
    LikeCore(m, a, b);
    PopLike(m, a, b);
    StopLike(m, a, b);
    InState(m, StopContinuation(a), StopContinuation(b), InNodeParams);
    EndHandled(a, t);
    EndHandled(b, t);
  }

  lemma OpenedLike(m: Mode, a: PState, b: PState)
    requires Like(m, a, b)
    ensures Like(m, IgnoreNode(IgnoreBlock(a), false), IgnoreNode(IgnoreBlock(b), false))
    ensures Like(m, IgnoreEntry(IgnoreBlock(a), false), IgnoreEntry(IgnoreBlock(b), false))
  {
    hide LikeFlags;
    OpenedFlags(m, a.f, b.f);
  }

  lemma OpenedFlags(m: Mode, f: Flags, g: Flags)
    requires LikeFlags(m, f, g)
    ensures var f', g' := f.(ignoreChildBlockFromContinuation := f.ignoreFromContinuation, ignoreFromContinuation := false,
                             ignoreChildren := f.ignoreChildren + 1),
                          g.(ignoreChildBlockFromContinuation := g.ignoreFromContinuation, ignoreFromContinuation := false,
                             ignoreChildren := g.ignoreChildren + 1);
            && LikeFlags(m, f'.(ignoreNextNode := false), g'.(ignoreNextNode := false))
            && LikeFlags(m, f'.(ignoreNextArgProp := false), g'.(ignoreNextArgProp := false))
  {
    hide InStep;
  }

  /** A block opened while an argument is pending. */
  function OpenPend(s: PState): PState {
    if s.f.ignoreNextArgProp || s.f.ignoreChildren > 0
    then s.(f := s.f.(ignoreNextArgProp := false, ignoreChildren := s.f.ignoreChildren + 1)) else s
  }

  lemma OpenPendLike(m: Mode, a: PState, b: PState)
    requires Like(m, a, b)
    ensures Like(m, OpenPend(a), OpenPend(b))
  {
    hide InStep, Allows;
  }

  lemma OpenInArgument(m: Mode, a: PState, b: PState, t: Token)
    requires Like(m, a, b) && t.id.BraceOpen? && b.state.InArgProp?
    ensures Alike(m, Handle(a, t), Handle(b, t))
  {
    LikeCore(m, a, b);
    OpenHandled(a, t);
    OpenHandled(b, t);
    hide Like, CommitPending, OpenPend, PushState, Handle;
    CommitLike(m, a, b);
    OpenPendLike(m, CommitPending(a).s, CommitPending(b).s);
    InState(m, OpenPend(CommitPending(a).s), OpenPend(CommitPending(b).s), InChildren);
  }

  lemma OpenHandled(s: PState, t: Token)
    requires t.id.BraceOpen? && s.state.InArgProp?
    ensures Handle(s, t) == var r := CommitPending(s); if !r.o.Ok? then r else Done(PushState(OpenPend(r.s), InChildren))
  {
    hide CommitPending, PushState;
  }

  lemma OpenElsewhere(m: Mode, a: PState, b: PState, t: Token)
    requires Like(m, a, b) && t.id.BraceOpen? && !b.state.InArgProp?
    ensures Alike(m, Handle(a, t), Handle(b, t))
  {
    hide Like, IgnoreBlock, IgnoreNode, IgnoreEntry, PushState;
    LikeCore(m, a, b);
    OpenedLike(m, a, b);
    InState(m, a, b, InChildren);
    InState(m, IgnoreNode(IgnoreBlock(a), false), IgnoreNode(IgnoreBlock(b), false), InChildren);
    InState(m, IgnoreEntry(IgnoreBlock(a), false), IgnoreEntry(IgnoreBlock(b), false), InChildren);
  }

  lemma LeaveLike(m: Mode, f: Flags, g: Flags)
    requires LikeFlags(m, f, g)
    ensures LikeFlags(m, LeaveBlock(f), LeaveBlock(g))
  {
    hide InStep;
    LeftFlags(f);
    LeftFlags(g);
    hide LeaveBlock;
  }

  /** The flags after a block, one by one. */
  lemma LeftFlags(f: Flags)
    ensures var h := LeaveBlock(f);
            && h.ignoreNextNode == f.ignoreNextNode && h.ignoreNextArgProp == f.ignoreNextArgProp
            && h.continuation == f.continuation && h.continuationNewlineSeen == f.continuationNewlineSeen
            && h.ignoreFromContinuation == f.ignoreFromContinuation
    ensures var h := LeaveBlock(f);
            && h.ignoreChildren == (if f.ignoreChildren == 0 then 0 else f.ignoreChildren - 1)
            && h.ignoreChildBlockFromContinuation == (f.ignoreChildBlockFromContinuation && f.ignoreChildren != 1)
            && h.afterIgnoredChildBlock == (if f.ignoreChildren == 1 then !f.ignoreChildBlockFromContinuation else f.afterIgnoredChildBlock)
  {
    if f.ignoreChildren == 1 {
      var h := LeaveBlock(f);
      assert h == Flags(f.continuation, f.continuationNewlineSeen, f.justContinuedLine, f.ignoreNextNode, f.ignoreNextArgProp,
                        0, !f.ignoreChildBlockFromContinuation, false, f.ignoreFromContinuation);
    } else if f.ignoreChildren > 1 {
      var h := LeaveBlock(f);
      assert h == Flags(f.continuation, f.continuationNewlineSeen, f.justContinuedLine, f.ignoreNextNode, f.ignoreNextArgProp,
                        f.ignoreChildren - 1, f.afterIgnoredChildBlock, f.ignoreChildBlockFromContinuation, f.ignoreFromContinuation);
    }
  }

  lemma CloseLike(m: Mode, a: PState, b: PState, t: Token)
    requires Like(m, a, b) && t.id.BraceClose? && b.state.InChildren?
    ensures Alike(m, Handle(a, t), Handle(b, t))
  {
    LikeCore(m, a, b);
    hide LikeFlags, LeaveBlock, PopState;
    LeaveLike(m, a.f, b.f);
    PopLike(m, CloseBlock(a), CloseBlock(b));
  }

  /** Handlers keep two states in step, except that a slashdash tells how its line began. */
  lemma HandleLike(m: Mode, a: PState, b: PState, t: Token)
    requires Like(m, a, b) && (Blank(t.id) || !m.going)
    requires t.id.TokenComment? ==>
               (b.f.justContinuedLine ==> a.f.justContinuedLine) && (m.exact ==> a.f.justContinuedLine == b.f.justContinuedLine)
    ensures Alike(m, Handle(a, t), Handle(b, t))
  {
    hide Like, Handle;
    LikeCore(m, a, b);
    if t.id.TokenComment? {
      DashLike(m, a, b, t);
    } else if t.id.Continuation? {
      BackslashLike(m, a, b, t);
    } else if Terminator(t.id) {
      if b.state.InArgProp? {
        EndInArgument(m, a, b, t);
      } else {
        EndElsewhere(m, a, b, t);
      }
    } else if t.id.BraceOpen? {
      if b.state.InArgProp? {
        OpenInArgument(m, a, b, t);
      } else {
        OpenElsewhere(m, a, b, t);
      }
    } else if b.state.InChildren? && t.id.BraceClose? {
      CloseLike(m, a, b, t);
    } else {
      InertLike(m, a, b, t);
    }
  }

  // ---------- Steps and runs ----------

  lemma StepIs(s: PState, t: Token)
    ensures Step(s, t) == if BlockedAfterIgnored(s, t.id) then Result(s, Fail(AfterIgnoredBlock)) else Handle(Prepare(s, t.id), t)
  {}

  lemma BlockedLike(m: Mode, a: PState, b: PState, id: TokenID)
    requires Like(m, a, b)
    ensures BlockedAfterIgnored(a, id) ==> BlockedAfterIgnored(b, id)
    ensures m.exact ==> BlockedAfterIgnored(a, id) == BlockedAfterIgnored(b, id)
  {
    hide InStep;
  }

  /** One result is like the other, or the other is the error after an ignored block. */
  predicate Outdoes(m: Mode, a: Result, b: Result) {
    Alike(m, a, b) || (!m.exact && b.o == Fail(AfterIgnoredBlock))
  }

  /** A slashdash right after a continuation, in the one run and not in the other. */
  predicate DashThere(a: PState, b: PState, id: TokenID) { id.TokenComment? && a.f.continuation && !b.f.continuation }

  lemma StepLike(m: Mode, a: PState, b: PState, t: Token)
    requires Like(m, a, b) && !(m.exact && DashThere(a, b, t.id))
    ensures Outdoes(m, Step(a, t), Step(b, t))
    ensures !Step(b, t).o.Fail? ==> Outdoes(Joined(m, t.id), Step(a, t), Step(b, t))
  {
    StepFlags(m, a.f, b.f);
    BlockedLike(m, a, b, t.id);
    PrepareLike(m, a, b, t.id);
    hide Like, Handle, Step, Prepare, BlockedAfterIgnored, LikeFlags;
    StepIs(a, t);
    StepIs(b, t);
    if !BlockedAfterIgnored(a, t.id) {
      HandleLike(Joined(m, t.id), Prepare(a, t.id), Prepare(b, t.id), t);
      StillOutdoes(m, Joined(m, t.id), Handle(Prepare(a, t.id), t), Handle(Prepare(b, t.id), t));
    }
  }

  lemma DashNeverReenters(s: PState, t: Token)
    requires t.id.TokenComment?
    ensures !Step(s, t).o.Reenter?
  {
    hide ValueFromToken, Prepare, MarkIgnoreFromContinuation;
    StepIs(s, t);
  }

  lemma FeedLike(m: Mode, a: PState, b: PState, t: Token)
    requires Like(m, a, b) && !(m.exact && DashThere(a, b, t.id))
    ensures Outdoes(m, Feed(a, t), Feed(b, t))
    ensures Feed(b, t).o.Ok? ==> Outdoes(Joined(m, t.id), Feed(a, t), Feed(b, t))
  {
    hide Like, Step;
    StepLike(m, a, b, t);
    if Step(b, t).o.Reenter? {
      if t.id.TokenComment? {
        DashNeverReenters(b, t);
      }
      StepLike(Joined(m, t.id), Step(a, t).s, Step(b, t).s, t);
      StillOutdoes(m, Joined(m, t.id), Feed(a, t), Feed(b, t));
    }
  }

  /** No slashdash comes before anything else but spaces and comments. */
  predicate NoDashFirst(ts: seq<Token>)
    decreases |ts|
  {
    ts == [] || (if Blank(ts[0].id) then NoDashFirst(ts[1..]) else !ts[0].id.TokenComment?)
  }

  /** Two runs in step stay in step. */
  lemma {:induction false} RunLike(m: Mode, a: PState, b: PState, ts: seq<Token>)
    requires Like(m, a, b) && (m.exact && m.going ==> NoDashFirst(ts))
    ensures Outdoes(m, Run(a, ts), Run(b, ts))
    decreases |ts|
  {
    hide Like, Feed;
    if ts != [] {
      var n := Joined(m, ts[0].id);
      NoDashHere(m, a, b, ts);
      FeedLike(m, a, b, ts[0]);
      if Feed(b, ts[0]).o.Ok? {
        RunLike(n, Feed(a, ts[0]).s, Feed(b, ts[0]).s, ts[1..]);
        StillOutdoes(m, n, Run(a, ts), Run(b, ts));
      }
    }
  }

  lemma NoDashHere(m: Mode, a: PState, b: PState, ts: seq<Token>)
    requires Like(m, a, b) && ts != [] && (m.exact && m.going ==> NoDashFirst(ts))
    ensures !(m.exact && DashThere(a, b, ts[0].id))
  {}

  lemma StillOutdoes(m: Mode, n: Mode, a: Result, b: Result)
    requires Outdoes(n, a, b) && (n == m || n == Together(m))
    ensures Outdoes(m, a, b)
  {}

  // ---------- The gap ----------

  /** Spaces and comments that do not end a line. */
  predicate Blanks(ts: seq<Token>) { forall t | t in ts :: t.id.Whitespace? || t.id.MultiLineComment? }

  predicate HasWhite(ts: seq<Token>) { exists t | t in ts :: t.id.Whitespace? }

  /** A backslash among blanks, a line comment or none, the end of the line, and blanks on the next one. */
  datatype Gap = Gap(before: seq<Token>, mark: Token, within: seq<Token>, comment: seq<Token>, newline: Token, after: seq<Token>) {
    predicate Shape() {
      && Blanks(before) && mark.id.Continuation? && Blanks(within) && newline.id.Newline? && Blanks(after)
      && |comment| <= 1 && forall t | t in comment :: t.id.SingleLineComment?
    }

    function Tokens(): seq<Token> { before + ([mark] + (within + (comment + ([newline] + after)))) }

    function Trivia(): seq<Token> { before + (within + (comment + after)) }
  }

  /** Where a space between entries may stand: after the name, among the entries, after an argument. */
  predicate Inside(s: PState) {
    && ((s.state.InNode? && !s.typeAnnot.Valid()) || s.state.InNodeParams? || s.state.InArgProp?)
    && !s.f.continuation
  }

  /** Comments may stand where no space has been read yet. */
  predicate CommentsStand(s: PState) { IsV2(s) || s.state.InNodeParams? }

  /**
    The gap holds a space where one is needed: after a name, or in version 1 after an argument; and in
    version 1 no comment stands there before it.
   */
  predicate ActsAsSpace(s: PState, g: Gap) {
    || s.state.InNodeParams? || (s.state.InArgProp? && IsV2(s))
    || (if IsV2(s) then HasWhite(g.Trivia()) else g.Trivia() != [] && g.Trivia()[0].id.Whitespace?)
  }

  /** The state once a space has been read, or before. */
  function Base(s: PState, white: bool): PState { if white then Handle(s, SPACE).s else s }

  lemma SpaceHandled(s: PState, t: Token)
    requires Inside(s) && t.id.Whitespace?
    ensures Handle(s, t) == Handle(s, SPACE)
  {
    hide CommitArgument;
  }

  lemma AfterSpace(s: PState)
    requires Inside(s) && Handle(s, SPACE).o.Ok?
    ensures var b := Base(s, true);
            if IsV2(s) && s.state.InArgProp? then b == s
            else b.state.InNodeParams? && IsV2(b) == IsV2(s) && (IsV2(b) || !b.typeAnnot.Valid())
    ensures s.state.InNodeParams? ==> Base(s, true) == s
  {
    hide ValueFromToken;
  }

  lemma BlankAmong(b: PState, t: Token)
    requires t.id.Whitespace? || t.id.MultiLineComment?
    requires (b.state.InNodeParams? && (IsV2(b) || !b.typeAnnot.Valid())) || (b.state.InArgProp? && IsV2(b))
    ensures Handle(b, t) == Done(b)
  {
    hide CommitArgument;
  }

  lemma CommentAtName(b: PState, t: Token)
    requires b.state.InNode? && IsV2(b) && (t.id.MultiLineComment? || t.id.SingleLineComment?)
    ensures Handle(b, t) == Done(b)
  {}

  lemma BlankRead(s: PState, white: bool, t: Token)
    requires Inside(s) && Handle(s, SPACE).o.Ok? && (t.id.Whitespace? || t.id.MultiLineComment?)
    requires t.id.Whitespace? || white || CommentsStand(s)
    ensures Handle(Base(s, white), t) == Done(Base(s, white || t.id.Whitespace?))
  {
    hide Handle;
    AfterSpace(s);
    if white {
      BlankAmong(Base(s, true), t);
    } else if t.id.Whitespace? {
      SpaceHandled(s, t);
    } else if s.state.InNode? {
      CommentAtName(s, t);
    } else {
      BlankAmong(Base(s, true), t);
    }
  }

  lemma BlankFeed(s: PState, f: Flags, t: Token)
    requires Blank(t.id)
    ensures Handle(Flow(s, f), t) == FlowResult(Handle(s, t), f)
    ensures Handle(s, t).o.Ok? ==> Feed(Flow(s, f), t) == FlowResult(Handle(s, t), f)
  {
    var x := Flow(s, f);
    StepIs(x, t);
    PreparedState(x, t.id);
    assert Prepared(x.f, t.id) == x.f by { BlankPrepared(x.f, t.id); }
    assert x.(f := x.f) == x;
    HandleFlow(s, f, t);
    hide Handle, Step, Flow;
  }

  lemma BlankPrepared(f: Flags, id: TokenID)
    requires Blank(id)
    ensures Prepared(f, id) == f
  {}

  lemma {:induction false} BlanksRun(s: PState, white: bool, f: Flags, ts: seq<Token>)
    requires Inside(s) && Handle(s, SPACE).o.Ok? && Blanks(ts)
    requires white || CommentsStand(s) || ts == [] || ts[0].id.Whitespace?
    ensures Run(Flow(Base(s, white), f), ts) == Done(Flow(Base(s, white || HasWhite(ts)), f))
    decreases |ts|
  {
    hide Handle, Feed, Flow, Base;
    if ts != [] {
      var t := ts[0];
      assert t in ts;
      BlankRead(s, white, t);
      BlankFeed(Base(s, white), f, t);
      BlanksRun(s, white || t.id.Whitespace?, f, ts[1..]);
      assert HasWhite(ts) <==> t.id.Whitespace? || HasWhite(ts[1..]) by {
        assert forall u :: u in ts <==> u == t || u in ts[1..];
      }
    }
  }

  // ---------- Its backslash and its newline ----------

  /** The flags after the backslash. */
  function GoingOn(f: Flags): Flags {
    f.(continuation := true, continuationNewlineSeen := false, justContinuedLine := false, afterIgnoredChildBlock := false)
  }

  /** The flags after the newline: the line goes on, or is over where a comment was read among the entries. */
  function LineEnded(f: Flags, over: bool): Flags {
    f.(continuation := !over, continuationNewlineSeen := !over)
  }

  predicate AmongEntries(st: State) { st.InNode? || st.InNodeParams? || st.InArgProp? }

  lemma MarkFeed(s: PState, f: Flags, t: Token)
    requires AmongEntries(s.state) && t.id.Continuation? && !f.continuation
    ensures Feed(Flow(s, f), t) == Done(Flow(s, GoingOn(f)))
  {
    var x := Flow(s, f);
    StepIs(x, t);
    PreparedState(x, t.id);
    MarkHandled(x.(f := Prepared(x.f, t.id)), t);
    hide Handle, Step;
  }

  lemma MarkHandled(s: PState, t: Token)
    requires AmongEntries(s.state) && t.id.Continuation?
    ensures Handle(s, t) == Done(StartContinuation(s))
  {
    hide CommitArgument, CommitPending, AddArgument;
  }

  lemma NewlineFeed(s: PState, f: Flags, t: Token)
    requires AmongEntries(s.state) && t.id.Newline? && f.continuation && !f.continuationNewlineSeen && !f.afterIgnoredChildBlock
    ensures Feed(Flow(s, f), t) == Done(Flow(s, LineEnded(f, false)))
  {
    var x := Flow(s, f);
    StepIs(x, t);
    PreparedState(x, t.id);
    NewlineHandled(x.(f := Prepared(x.f, t.id)), t);
    hide Handle, Step;
  }

  lemma NewlineHandled(s: PState, t: Token)
    requires AmongEntries(s.state) && t.id.Newline? && s.f.continuation
    ensures Handle(s, t) == Done(s)
  {
    hide CommitArgument, CommitPending, PopNodeAndState;
  }

  /** A line comment and the newline. */
  lemma CommentFeed(s: PState, f: Flags, c: Token, t: Token) returns (over: bool)
    requires AmongEntries(s.state) && (s.state.InNodeParams? || IsV2(s))
    requires c.id.SingleLineComment? && t.id.Newline?
    requires f.continuation && !f.continuationNewlineSeen && !f.afterIgnoredChildBlock
    ensures Run(Flow(s, f), [c] + [t]) == Done(Flow(s, LineEnded(f, over)))
  {
    hide Handle, Feed, Flow;
    CommentHandled(s, c);
    BlankFeed(s, f, c);
    TwoTokens(Flow(s, f), c, t);
    over := s.state.InNodeParams? && !s.f.ignoreNextArgProp;
    if over {
      EndOfComment(s, f, t);
    } else {
      NewlineFeed(s, f, t);
    }
  }

  lemma TwoTokens(s: PState, c: Token, t: Token)
    requires Feed(s, c).o.Ok?
    ensures Run(s, [c] + [t]) == Run(Feed(s, c).s, [t])
    ensures Feed(Feed(s, c).s, t).o.Ok? ==> Run(s, [c] + [t]) == Feed(Feed(s, c).s, t)
  {
    hide Feed;
    assert ([c] + [t])[1..] == [t] && [t][1..] == [];
  }

  lemma CommentHandled(s: PState, c: Token)
    requires AmongEntries(s.state) && (s.state.InNodeParams? || IsV2(s)) && c.id.SingleLineComment?
    ensures Handle(s, c) == Done(if s.state.InNodeParams? && !s.f.ignoreNextArgProp then s.(state := InNodeEnd) else s)
  {
    hide CommitArgument, CommitPending;
  }

  lemma EndOfComment(s: PState, f: Flags, t: Token)
    requires s.state.InNodeParams? && t.id.Newline?
    requires f.continuation && !f.continuationNewlineSeen && !f.afterIgnoredChildBlock
    ensures Feed(Flow(s.(state := InNodeEnd), f), t) == Done(Flow(s, LineEnded(f, true)))
  {
    var x := Flow(s.(state := InNodeEnd), f);
    StepIs(x, t);
    PreparedState(x, t.id);
    EndHandled(x.(f := Prepared(x.f, t.id)), t);
    hide Handle, Step;
  }

  // ---------- The gap as a space ----------

  const EXACT := Mode(true, true)
  const LAX := Mode(false, true)

  /** After an ignored block nothing may follow but a new line, continued or not. */
  function Unblocked(s: PState): PState { s.(f := s.f.(afterIgnoredChildBlock := false)) }

  lemma BaseState(s: PState, white: bool)
    requires Inside(s) && Handle(s, SPACE).o.Ok?
    ensures var b := Base(s, white);
            && AmongEntries(b.state) && (white ==> b.state.InNodeParams? || IsV2(b))
            && (CommentsStand(s) ==> b.state.InNodeParams? || IsV2(b))
            && (s.state.InNodeParams? || (s.state.InArgProp? && IsV2(s)) ==> b == Base(s, true))
            && b.f.continuation == s.f.continuation
  {
    hide Handle;
    AfterSpace(s);
    SpaceKeepsFlags(s);
  }

  lemma SpaceKeepsFlags(s: PState)
    requires Inside(s)
    ensures Flow(Handle(s, SPACE).s, s.f) == Handle(s, SPACE).s
  {
    HandleFlow(s, s.f, SPACE);
    hide Handle;
    assert s.(f := Take(s.f, s.f)) == s;
  }

  lemma WhiteConcat(a: seq<Token>, b: seq<Token>)
    ensures HasWhite(a + b) <==> HasWhite(a) || HasWhite(b)
  {}

  lemma FirstWhite(a: seq<Token>)
    requires a != [] && a[0].id.Whitespace?
    ensures HasWhite(a)
  {
    assert a[0] in a;
  }

  /** The end of the line, after a comment or none. */
  lemma LineEndRun(s: PState, white: bool, f: Flags, g: Gap) returns (over: bool)
    requires Inside(s) && Handle(s, SPACE).o.Ok? && g.Shape() && (g.comment == [] || white || CommentsStand(s))
    requires f.continuation && !f.continuationNewlineSeen && !f.afterIgnoredChildBlock
    ensures Run(Flow(Base(s, white), f), g.comment + [g.newline]) == Done(Flow(Base(s, white), LineEnded(f, over)))
  {
    hide Handle, Feed, Flow, Base;
    BaseState(s, white);
    if g.comment == [] {
      over := false;
      NewlineFeed(Base(s, white), f, g.newline);
      assert g.comment + [g.newline] == [g.newline] && [g.newline][1..] == [];
    } else {
      var c := g.comment[0];
      assert c in g.comment && g.comment == [c];
      over := CommentFeed(Base(s, white), f, c, g.newline);
    }
  }

  lemma OneToken(s: PState, t: Token, ts: seq<Token>)
    requires Feed(s, t).o.Ok?
    ensures Run(s, [t] + ts) == Run(Feed(s, t).s, ts)
  {
    hide Feed;
    assert ([t] + ts)[1..] == ts;
  }

  /** The whole gap: the state is that after a space, in a line that goes on or not. */
  lemma GapRun(s: PState, g: Gap) returns (f: Flags)
    requires Inside(s) && Handle(s, SPACE).o.Ok? && g.Shape() && ActsAsSpace(s, g)
    ensures Run(s, g.Tokens()) == Done(Flow(Base(s, true), f))
    ensures exists over :: f == LineEnded(GoingOn(s.f), over)
  {
    hide Handle, Feed, Flow, Base, ActsAsSpace;
    var t4 := [g.newline] + g.after;
    var t2 := g.within + (g.comment + t4);
    var w1 := HasWhite(g.before);
    var w2 := w1 || HasWhite(g.within);
    var w3 := w2 || HasWhite(g.after);
    var f1 := GoingOn(s.f);
    GapOrder(s, g);
    assert Flow(Base(s, false), s.f) == s by { Unflowed(s); }
    BlanksRun(s, false, s.f, g.before);
    RunConcat(s, g.before, [g.mark] + t2);
    BaseState(s, w1);
    MarkFeed(Base(s, w1), s.f, g.mark);
    OneToken(Flow(Base(s, w1), s.f), g.mark, t2);
    BlanksRun(s, w1, f1, g.within);
    RunConcat(Flow(Base(s, w1), f1), g.within, g.comment + t4);
    var over := LineEndRun(s, w2, f1, g);
    f := LineEnded(f1, over);
    assert g.comment + t4 == (g.comment + [g.newline]) + g.after;
    RunConcat(Flow(Base(s, w2), f1), g.comment + [g.newline], g.after);
    BlanksRun(s, w2, f, g.after);
    BaseState(s, w3);
  }

  lemma Unflowed(s: PState)
    ensures Flow(Base(s, false), s.f) == s
  {
    assert s.(f := Take(s.f, s.f)) == s;
  }

  /** What the spaces of the gap are good for at each of its parts. */
  lemma GapOrder(s: PState, g: Gap)
    requires Inside(s) && g.Shape() && ActsAsSpace(s, g)
    ensures var w1, w2 := HasWhite(g.before), HasWhite(g.before) || HasWhite(g.within);
            && (CommentsStand(s) || g.before == [] || g.before[0].id.Whitespace?)
            && (w1 || CommentsStand(s) || g.within == [] || g.within[0].id.Whitespace?)
            && (g.comment == [] || w2 || CommentsStand(s))
            && (w2 || CommentsStand(s) || g.after == [] || g.after[0].id.Whitespace?)
            && (w2 || HasWhite(g.after) || s.state.InNodeParams? || (s.state.InArgProp? && IsV2(s)))
  {
    var all := g.Trivia();
    WhiteConcat(g.before, g.within + (g.comment + g.after));
    WhiteConcat(g.within, g.comment + g.after);
    WhiteConcat(g.comment, g.after);
    if all != [] && all[0].id.Whitespace? {
      FirstPart(g);
    }
    hide HasWhite;
    assert !HasWhite(g.comment) by { NoWhite(g.comment); }
  }

  lemma NoWhite(ts: seq<Token>)
    requires forall t | t in ts :: t.id.SingleLineComment?
    ensures !HasWhite(ts)
  {}

  lemma NotAComment(c: seq<Token>, after: seq<Token>)
    requires (forall t | t in c :: t.id.SingleLineComment?) && c + after != [] && (c + after)[0].id.Whitespace?
    ensures c == []
  {}

  lemma FirstPart(g: Gap)
    requires g.Shape() && g.Trivia() != [] && g.Trivia()[0].id.Whitespace?
    ensures if g.before != [] then g.before[0].id.Whitespace? && HasWhite(g.before)
            else if g.within != [] then g.within[0].id.Whitespace? && HasWhite(g.within)
            else g.comment == [] && g.after != [] && g.after[0].id.Whitespace? && HasWhite(g.after)
  {
    var all := g.Trivia();
    if g.before != [] {
      assert all[0] == g.before[0];
      FirstWhite(g.before);
    } else if g.within != [] {
      assert all[0] == g.within[0];
      FirstWhite(g.within);
    } else {
      assert all == g.comment + g.after;
      NotAComment(g.comment, g.after);
      FirstWhite(g.after);
    }
  }

  /** Apart from what the flags remember of the line, the states are the same. */
  predicate SameBut(a: PState, b: PState) {
    && a == b.(f := a.f)
    && a.f.ignoreNextNode == b.f.ignoreNextNode && a.f.ignoreNextArgProp == b.f.ignoreNextArgProp
    && a.f.ignoreChildren == b.f.ignoreChildren
  }

  lemma GapLike(s: PState, g: Gap, sp: Token) returns (a: PState)
    requires Inside(s) && sp.id.Whitespace? && Step(Unblocked(s), sp).o.Ok? && g.Shape() && ActsAsSpace(s, g)
    ensures Run(s, g.Tokens()) == Done(a) && Like(EXACT, a, Feed(Unblocked(s), sp).s) && Feed(Unblocked(s), sp).o.Ok?
  {
    var u := Unblocked(s);
    assert u == Flow(s, u.f);
    assert Handle(s, SPACE).o.Ok? && Feed(u, sp) == Done(Flow(Base(s, true), u.f)) by { SpaceFeed(s, u.f, sp); }
    var f := GapRun(s, g);
    a := Flow(Base(s, true), f);
    hide Handle, Feed, Step, Run, ActsAsSpace;
    var over :| f == LineEnded(GoingOn(s.f), over);
    SpaceKeepsFlags(s);
    EndLike(Base(s, true), s.f, over);
  }

  lemma SpaceFeed(s: PState, f: Flags, sp: Token)
    requires Inside(s) && sp.id.Whitespace? && Step(Flow(s, f), sp).o.Ok?
    ensures Handle(s, SPACE).o.Ok? && Feed(Flow(s, f), sp) == Done(Flow(Base(s, true), f))
  {
    var x := Flow(s, f);
    StepIs(x, sp);
    PreparedState(x, sp.id);
    BlankPrepared(x.f, sp.id);
    assert x.(f := x.f) == x;
    SpaceHandled(s, sp);
    BlankFeed(s, f, sp);
    hide Handle, Step, Feed;
  }

  lemma EndLike(b: PState, f: Flags, over: bool)
    requires Flow(b, f) == b && !f.continuation
    ensures Like(EXACT, Flow(b, LineEnded(GoingOn(f), over)), Flow(b, f.(afterIgnoredChildBlock := false)))
  {}

  /**
    Inside a node, in either version, a continued line does what a space does: whatever follows, the run ends
    alike, with the same nodes, unless a slashdash follows directly.  Then a run that succeeds with the space
    succeeds, with the same nodes, and the only error that can be gone is that of an entry after an ignored
    block.  A block ignored just before the gap forbids nothing any more.
   */
  lemma ContinuedLine(s: PState, g: Gap, sp: Token, rest: seq<Token>)
    requires Inside(s) && sp.id.Whitespace? && Step(Unblocked(s), sp).o.Ok? && g.Shape() && ActsAsSpace(s, g)
    ensures var a, b := Run(s, g.Tokens() + rest), Run(Unblocked(s), [sp] + rest);
            && (NoDashFirst(rest) ==> a.o == b.o && SameBut(a.s, b.s))
            && ((a.o == b.o && SameBut(a.s, b.s)) || b.o == Fail(AfterIgnoredBlock))
  {
    var m := GapLike(s, g, sp);
    hide Feed, Step, Run, ActsAsSpace;
    RunConcat(s, g.Tokens(), rest);
    OneToken(Unblocked(s), sp, rest);
    var n := Feed(Unblocked(s), sp).s;
    if NoDashFirst(rest) {
      RunLike(EXACT, m, n, rest);
      LikeIsSame(EXACT, Run(m, rest), Run(n, rest));
    }
    LaxLike(m, n);
    RunLike(LAX, m, n, rest);
    LikeIsSame(LAX, Run(m, rest), Run(n, rest));
  }

  lemma LaxLike(a: PState, b: PState)
    requires Like(EXACT, a, b)
    ensures Like(LAX, a, b)
  {}

  lemma LikeIsSame(m: Mode, a: Result, b: Result)
    requires Outdoes(m, a, b)
    ensures (a.o == b.o && SameBut(a.s, b.s)) || (!m.exact && b.o == Fail(AfterIgnoredBlock))
  {}

  /** Both stacks are one shorter, and the state is the one below. */
  predicate NodeOver(s: PState, r: PState) {
    && s.states != [] && r.state == s.states[|s.states| - 1] && r.states == s.states[..|s.states| - 1]
    && s.heap.stack != [] && r.heap.stack == s.heap.stack[..|s.heap.stack| - 1]
  }

  /** A second newline ends the node. */
  lemma SecondNewline(s: PState, g: Gap, sp: Token, newline: Token)
    requires Inside(s) && sp.id.Whitespace? && Step(Unblocked(s), sp).o.Ok? && g.Shape() && ActsAsSpace(s, g)
    requires newline.id.Newline? && !s.f.ignoreNextArgProp
    ensures var r := Run(s, g.Tokens() + [newline]);
            r.o.Ok? ==> NodeOver(s, r.s)
  {
    hide Feed, Run, ActsAsSpace;
    ContinuedLine(s, g, sp, [newline]);
    SpaceThenNewline(Unblocked(s), sp, newline);
  }

  lemma SpaceThenNewline(s: PState, sp: Token, newline: Token)
    requires Inside(s) && sp.id.Whitespace? && Step(s, sp).o.Ok? && !s.f.afterIgnoredChildBlock
    requires newline.id.Newline? && !s.f.ignoreNextArgProp
    ensures var r := Run(s, [sp] + [newline]);
            r.o.Ok? ==> NodeOver(s, r.s)
  {
    hide Step, Feed;
    assert Flow(s, s.f) == s by { Unflowed(s); }
    SpaceFeed(s, s.f, sp);
    SpaceKeepsFlags(s);
    var b := Base(s, true);
    TwoTokens(s, sp, newline);
    SpaceKeepsStacks(s);
    if Run(s, [sp] + [newline]).o.Ok? {
      NodeEnds(b, newline);
      assert [newline][1..] == [];
    }
  }

  lemma SpaceKeepsStacks(s: PState)
    requires Inside(s) && Handle(s, SPACE).o.Ok? && !s.f.ignoreNextArgProp
    ensures var b := Base(s, true);
            && b.states == s.states && b.heap.stack == s.heap.stack && !b.f.ignoreNextArgProp
            && (b.state.InNodeParams? || b.state.InArgProp?)
  {
    hide ValueFromToken;
  }

  lemma NodeEnds(s: PState, t: Token)
    requires (s.state.InNodeParams? || s.state.InArgProp?) && t.id.Newline? && !s.f.ignoreNextArgProp
    requires !s.f.continuation && !s.f.afterIgnoredChildBlock
    ensures Feed(s, t).o.Ok? ==> NodeOver(s, Feed(s, t).s)
  {
    StepIs(s, t);
    PreparedState(s, t.id);
    assert s.(f := s.f) == s && Prepared(s.f, t.id) == s.f;
    if s.state.InNodeParams? {
      EndHandled(s, t);
      hide Handle, Prepare;
      NeverAgain(s, t);
    } else {
      hide Prepare;
      TerminatorInArgProp(s, t);
      CommitKeepsStacks(s);
      hide Handle, CommitPending;
      NeverAgain(s, t);
    }
  }

  lemma CommitKeepsStacks(s: PState)
    ensures CommitPending(s).s.states == s.states && CommitPending(s).s.heap.stack == s.heap.stack
    ensures !CommitPending(s).o.Reenter?
  {
    hide ValueFromToken;
  }

  lemma NeverAgain(s: PState, t: Token)
    requires !Step(s, t).o.Reenter?
    ensures Feed(s, t) == Step(s, t)
  {}

  // ---------- Between nodes ----------

  lemma MarkBetween(s: PState, f: Flags, t: Token)
    requires Outer(s.state) && t.id.Continuation? && !f.continuation
    ensures Feed(Flow(s, f), t) == Done(Flow(s, GoingOn(f)))
  {
    var x := Flow(s, f);
    StepIs(x, t);
    PreparedState(x, t.id);
    StartsBetween(x.(f := Prepared(x.f, t.id)), t);
    hide Handle, Step;
  }

  lemma StartsBetween(s: PState, t: Token)
    requires Outer(s.state) && t.id.Continuation?
    ensures Handle(s, t) == Done(StartContinuation(s))
  {}

  lemma BlankBetween(s: PState, f: Flags, t: Token)
    requires Outer(s.state) && !s.typeAnnot.Valid() && Blank(t.id)
    ensures Feed(Flow(s, f), t) == Done(Flow(s, f))
  {
    hide Handle;
    SkippedBetween(s, t);
    BlankFeed(s, f, t);
  }

  lemma SkippedBetween(s: PState, t: Token)
    requires Outer(s.state) && !s.typeAnnot.Valid() && (Blank(t.id) || t.id.Newline?)
    ensures Handle(s, t) == Done(s)
  {}

  lemma {:induction false} BlanksBetween(s: PState, f: Flags, ts: seq<Token>)
    requires Outer(s.state) && !s.typeAnnot.Valid() && forall t | t in ts :: Blank(t.id)
    ensures Run(Flow(s, f), ts) == Done(Flow(s, f))
    decreases |ts|
  {
    hide Feed, Flow;
    if ts != [] {
      assert ts[0] in ts;
      BlankBetween(s, f, ts[0]);
      BlanksBetween(s, f, ts[1..]);
    }
  }

  lemma NewlineBetween(s: PState, f: Flags, t: Token)
    requires Outer(s.state) && !s.typeAnnot.Valid() && t.id.Newline?
    requires f.continuation && !f.continuationNewlineSeen && !f.afterIgnoredChildBlock
    ensures Feed(Flow(s, f), t) == Done(Flow(s, LineEnded(f, false)))
  {
    var x := Flow(s, f);
    StepIs(x, t);
    PreparedState(x, t.id);
    SkippedBetween(x.(f := Prepared(x.f, t.id)), t);
    hide Handle, Step;
  }

  /** Between nodes a backslash, blanks and the end of the line are nothing at all. */
  lemma ContinuedBetween(s: PState, mark: Token, ts: seq<Token>, newline: Token, rest: seq<Token>)
    requires Outer(s.state) && !s.typeAnnot.Valid() && !s.f.continuation && NoDashFirst(rest)
    requires mark.id.Continuation? && (forall t | t in ts :: Blank(t.id)) && newline.id.Newline?
    ensures var a, b := Run(s, [mark] + (ts + ([newline] + rest))), Run(Unblocked(s), rest); a.o == b.o && SameBut(a.s, b.s)
  {
    hide Feed, Flow, Run;
    var f := GoingOn(s.f);
    assert Flow(s, s.f) == s && Flow(s, s.f.(afterIgnoredChildBlock := false)) == Unblocked(s) by { Unflow(s); }
    MarkBetween(s, s.f, mark);
    OneToken(s, mark, ts + ([newline] + rest));
    BlanksBetween(s, f, ts);
    RunConcat(Flow(s, f), ts, [newline] + rest);
    NewlineBetween(s, f, newline);
    OneToken(Flow(s, f), newline, rest);
    EndLike(s, s.f, false);
    RunLike(EXACT, Flow(s, LineEnded(f, false)), Unblocked(s), rest);
    LikeIsSame(EXACT, Run(Flow(s, LineEnded(f, false)), rest), Run(Unblocked(s), rest));
  }

  lemma Unflow(s: PState)
    ensures Flow(s, s.f) == s && Flow(s, s.f.(afterIgnoredChildBlock := false)) == Unblocked(s)
  {
    assert s.(f := Take(s.f, s.f)) == s;
  }

  // ---------- A backslash within a line ----------

  lemma LonePrepared(f: Flags, g: Flags, id: TokenID)
    requires !g.continuation && f == GoingOn(g) && !Blank(id) && !id.Newline? && !id.TokenComment?
    ensures var h := g.(afterIgnoredChildBlock := false); LikeFlags(Together(EXACT), Prepared(f, id), Prepared(h, id))
  {}

  /** The handlers are called on states alike. */
  lemma LoneLike(b: PState, g: Flags, id: TokenID)
    requires !g.continuation && !Blank(id) && !id.Newline? && !id.TokenComment?
    ensures var m, n := Flow(b, GoingOn(g)), Flow(b, g.(afterIgnoredChildBlock := false));
            && Like(Together(EXACT), Prepare(m, id), Prepare(n, id))
            && !BlockedAfterIgnored(m, id) && !BlockedAfterIgnored(n, id)
  {
    hide Prepare, Prepared, LikeFlags;
    var h := g.(afterIgnoredChildBlock := false);
    var m, n := Flow(b, GoingOn(g)), Flow(b, h);
    PreparedState(m, id);
    PreparedState(n, id);
    assert GoingOn(Take(b.f, g)) == Take(b.f, GoingOn(g)) && Take(b.f, g).(afterIgnoredChildBlock := false) == Take(b.f, h);
    LonePrepared(m.f, Take(b.f, g), id);
  }

  lemma FeedLone(b: PState, g: Flags, t: Token)
    requires !g.continuation && !Blank(t.id) && !t.id.Newline? && !t.id.TokenComment?
    ensures var m, n := Flow(b, GoingOn(g)), Flow(b, g.(afterIgnoredChildBlock := false));
            Alike(Together(EXACT), Feed(m, t), Feed(n, t))
  {
    hide Handle, Step, Like, Prepare, Flow, BlockedAfterIgnored;
    var m, n := Flow(b, GoingOn(g)), Flow(b, g.(afterIgnoredChildBlock := false));
    StepIs(m, t);
    StepIs(n, t);
    LoneLike(b, g, t.id);
    HandleLike(Together(EXACT), Prepare(m, t.id), Prepare(n, t.id), t);
    if Step(n, t).o.Reenter? {
      StepLike(Together(EXACT), Step(m, t).s, Step(n, t).s, t);
      StillTogether(Joined(Together(EXACT), t.id), Feed(m, t), Feed(n, t));
    }
  }

  lemma StillTogether(m: Mode, a: Result, b: Result)
    requires Outdoes(m, a, b) && m == Together(EXACT)
    ensures Alike(Together(EXACT), a, b)
  {}

  /**
    A backslash with no newline after it is skipped too: among blanks with a space in them it does what the
    space does, whatever but a slashdash follows on the line.
   */
  lemma LoneBackslash(s: PState, before: seq<Token>, mark: Token, within: seq<Token>, sp: Token, t: Token, rest: seq<Token>)
    requires Inside(s) && sp.id.Whitespace? && Step(Unblocked(s), sp).o.Ok?
    requires Blanks(before) && Blanks(within) && HasWhite(before) && (CommentsStand(s) || before[0].id.Whitespace?)
    requires mark.id.Continuation? && !Blank(t.id) && !t.id.Newline? && !t.id.TokenComment?
    ensures var a, b := Run(s, before + ([mark] + (within + ([t] + rest)))), Run(Unblocked(s), [sp] + ([t] + rest));
            a.o == b.o && SameBut(a.s, b.s)
  {
    hide Handle, Feed, Step, Run, HasWhite, Blanks;
    var u := Unblocked(s);
    var tail := [t] + rest;
    assert u == Flow(s, u.f) && u.f == s.f.(afterIgnoredChildBlock := false);
    SpaceFeed(s, u.f, sp);
    assert Flow(Base(s, false), s.f) == s by { Unflowed(s); }
    BlanksRun(s, false, s.f, before);
    RunConcat(s, before, [mark] + (within + tail));
    var b := Base(s, true);
    BaseState(s, true);
    MarkFeed(b, s.f, mark);
    OneToken(Flow(b, s.f), mark, within + tail);
    BlanksRun(s, true, GoingOn(s.f), within);
    RunConcat(Flow(b, GoingOn(s.f)), within, tail);
    OneToken(u, sp, tail);
    LoneTail(b, s.f, t, rest);
  }

  lemma LoneTail(b: PState, g: Flags, t: Token, rest: seq<Token>)
    requires !g.continuation && !Blank(t.id) && !t.id.Newline? && !t.id.TokenComment?
    ensures var m, n := Run(Flow(b, GoingOn(g)), [t] + rest), Run(Flow(b, g.(afterIgnoredChildBlock := false)), [t] + rest);
            m.o == n.o && SameBut(m.s, n.s)
  {
    hide Feed, Flow;
    var m, n := Flow(b, GoingOn(g)), Flow(b, g.(afterIgnoredChildBlock := false));
    FeedLone(b, g, t);
    assert ([t] + rest)[1..] == rest;
    if Feed(n, t).o.Ok? {
      RunLike(Together(EXACT), Feed(m, t).s, Feed(n, t).s, rest);
      LikeIsSame(Together(EXACT), Run(Feed(m, t).s, rest), Run(Feed(n, t).s, rest));
    }
  }

  // ---------- Where there is no such gap ----------

  predicate FailsOr(r: Result, s: PState) { r.o.Fail? || r == Done(s) }

  lemma CommentRefused(s: PState, t: Token)
    requires s.state.InNode? && (t.id.MultiLineComment? || t.id.SingleLineComment?)
    ensures Handle(s, t) == if IsV2(s) then Done(s) else Reject(s)
  {}

  lemma CommentAhead(s: PState, f: Flags, t: Token)
    requires s.state.InNode? && (t.id.MultiLineComment? || t.id.SingleLineComment?)
    ensures FailsOr(Feed(Flow(s, f), t), Flow(s, f))
  {
    var x := Flow(s, f);
    StepIs(x, t);
    PreparedState(x, t.id);
    BlankPrepared(x.f, t.id);
    assert x.(f := x.f) == x;
    CommentRefused(x, t);
    hide Handle, Step;
  }

  lemma {:induction false} CommentsAhead(s: PState, f: Flags, ts: seq<Token>)
    requires s.state.InNode? && forall t | t in ts :: t.id.MultiLineComment? || t.id.SingleLineComment?
    ensures FailsOr(Run(Flow(s, f), ts), Flow(s, f))
    decreases |ts|
  {
    hide Feed, Flow;
    if ts != [] {
      assert ts[0] in ts;
      CommentAhead(s, f, ts[0]);
      CommentsAhead(s, f, ts[1..]);
    }
  }

  lemma NotWhite(ts: seq<Token>)
    requires Blanks(ts) && !HasWhite(ts)
    ensures forall t | t in ts :: t.id.MultiLineComment? || t.id.SingleLineComment?
  {}

  lemma GapAtName(s: PState, g: Gap)
    requires s.state.InNode? && !s.f.continuation && g.Shape() && !HasWhite(g.Trivia())
    ensures Run(s, g.Tokens()).o.Fail? || (Run(s, g.Tokens()).o.Ok? && Run(s, g.Tokens()).s.state.InNode?)
  {
    WhiteConcat(g.before, g.within + (g.comment + g.after));
    WhiteConcat(g.within, g.comment + g.after);
    WhiteConcat(g.comment, g.after);
    NotWhite(g.before);
    NotWhite(g.within);
    NotWhite(g.after);
    hide Feed, Flow, Run, HasWhite, Blanks;
    var t3 := g.comment + ([g.newline] + g.after);
    var f1 := GoingOn(s.f);
    assert Flow(Base(s, false), s.f) == s == Flow(s, s.f) by { Unflowed(s); }
    CommentsAhead(s, s.f, g.before);
    RunConcat(s, g.before, [g.mark] + (g.within + t3));
    MarkFeed(s, s.f, g.mark);
    OneToken(s, g.mark, g.within + t3);
    CommentsAhead(s, f1, g.within);
    RunConcat(Flow(s, f1), g.within, t3);
    CommentsAhead(s, f1, g.comment);
    RunConcat(Flow(s, f1), g.comment, [g.newline] + g.after);
    NewlineFeed(s, f1, g.newline);
    OneToken(Flow(s, f1), g.newline, g.after);
    CommentsAhead(s, LineEnded(f1, false), g.after);
    assert Flow(s, LineEnded(f1, false)).state == s.state by { FlowState(s, LineEnded(f1, false)); }
  }

  lemma FlowState(s: PState, f: Flags)
    ensures Flow(s, f).state == s.state
  {}

  lemma EntryAtName(s: PState, t: Token, rest: seq<Token>)
    requires s.state.InNode? && (ValueToken(t.id) || t.id.ParensOpen? || t.id.TokenComment?)
    ensures Run(s, [t] + rest).o.Fail?
  {
    StepIs(s, t);
    PreparedState(s, t.id);
    assert Handle(Prepare(s, t.id), t).o.Fail? by { NothingAtName(Prepare(s, t.id), t); }
    hide Handle, Prepare, Step;
  }

  lemma NothingAtName(s: PState, t: Token)
    requires s.state.InNode? && (ValueToken(t.id) || t.id.ParensOpen? || t.id.TokenComment?)
    ensures Handle(s, t).o.Fail?
  {}

  /** Directly after a name, a continued line without a space in it does not separate: no entry can follow. */
  lemma SpaceNeeded(s: PState, g: Gap, t: Token, rest: seq<Token>)
    requires s.state.InNode? && !s.f.continuation && g.Shape() && !HasWhite(g.Trivia())
    requires ValueToken(t.id) || t.id.ParensOpen? || t.id.TokenComment?
    ensures Run(s, g.Tokens() + ([t] + rest)).o.Fail?
  {
    hide Run;
    GapAtName(s, g);
    RunConcat(s, g.Tokens(), [t] + rest);
    if Run(s, g.Tokens()).o.Ok? {
      EntryAtName(Run(s, g.Tokens()).s, t, rest);
    }
  }

  /** Inside an annotation, around the equals sign of a property: no line is continued there. */
  predicate NoLineThere(st: State) { st.InTypeAnnot? || st.InTypeDone? || st.InProperty? || st.InPropertyValue? }

  lemma BlankStays(s: PState, f: Flags, t: Token)
    requires NoLineThere(s.state) && (t.id.Whitespace? || t.id.MultiLineComment? || t.id.SingleLineComment?)
    ensures FailsOr(Feed(Flow(s, f), t), Flow(s, f))
  {
    var x := Flow(s, f);
    StepIs(x, t);
    PreparedState(x, t.id);
    BlankPrepared(x.f, t.id);
    assert x.(f := x.f) == x;
    assert FailsOr(Handle(x, t), x) by { BlankThere(x, t); }
    hide Handle, Step;
  }

  lemma BlankThere(s: PState, t: Token)
    requires NoLineThere(s.state) && (t.id.Whitespace? || t.id.MultiLineComment? || t.id.SingleLineComment?)
    ensures FailsOr(Handle(s, t), s)
  {}

  lemma {:induction false} BlanksStay(s: PState, f: Flags, ts: seq<Token>)
    requires NoLineThere(s.state) && Blanks(ts)
    ensures FailsOr(Run(Flow(s, f), ts), Flow(s, f))
    decreases |ts|
  {
    hide Feed, Flow;
    if ts != [] {
      assert ts[0] in ts;
      BlankStays(s, f, ts[0]);
      BlanksStay(s, f, ts[1..]);
    }
  }

  lemma NewlineThere(s: PState, t: Token, rest: seq<Token>)
    requires NoLineThere(s.state) && t.id.Newline?
    ensures Run(s, [t] + rest).o.Fail?
  {
    hide Handle, Prepare;
    StepIs(s, t);
    PreparedState(s, t.id);
    NewlineRefused(Prepare(s, t.id), t);
  }

  lemma NewlineRefused(s: PState, t: Token)
    requires NoLineThere(s.state) && t.id.Newline?
    ensures Handle(s, t) == Reject(s)
  {}

  /** There a newline is refused, a continuation before it or not. */
  lemma NoContinuationThere(s: PState, mark: Token, blanks: seq<Token>, newline: Token, rest: seq<Token>)
    requires NoLineThere(s.state) && mark.id.Continuation? && Blanks(blanks) && newline.id.Newline?
    ensures Run(s, [mark] + (blanks + ([newline] + rest))).o.Fail? && Run(s, [newline] + rest).o.Fail?
  {
    hide Run;
    NewlineThere(s, newline, rest);
    var r := Feed(s, mark);
    MarkThere(s, mark, blanks + ([newline] + rest));
    if r.o.Ok? {
      var x := r.s;
      assert Flow(x, x.f) == x by { Unflowed(x); }
      BlanksStay(x, x.f, blanks);
      RunConcat(x, blanks, [newline] + rest);
      NewlineThere(x, newline, rest);
    }
  }

  lemma MarkThere(s: PState, mark: Token, ts: seq<Token>)
    requires NoLineThere(s.state) && mark.id.Continuation?
    ensures var r := Feed(s, mark);
            && Run(s, [mark] + ts) == (if r.o.Ok? then Run(r.s, ts) else r)
            && (r.o.Fail? || (r.o.Ok? && r.s.state == s.state))
  {
    hide Handle, Prepare;
    StepIs(s, mark);
    PreparedState(s, mark.id);
    MarkTaken(Prepare(s, mark.id), mark);
    assert ([mark] + ts)[1..] == ts;
  }

  lemma MarkTaken(s: PState, mark: Token)
    requires NoLineThere(s.state) && mark.id.Continuation?
    ensures var r := Handle(s, mark); r.o.Fail? || (r.o.Ok? && r.s.state == s.state)
  {}

  // ---------- Documents ----------

  /**
    In a written document any space that may be one is as good as a continued line: the same trees are read,
    or it is refused all the same.
   */
  lemma ContinuedDocument(v: Version, ns: seq<SNode>, lay: Layout, before: seq<Token>, sp: Token, after: seq<Token>, g: Gap)
    requires PlainNodes(ns) && DocumentTokens(ns, lay) == before + ([sp] + after) && sp.id.Whitespace?
    requires var r := Run(Initial(v), before);
             && r.o.Ok? && Inside(r.s) && !r.s.f.afterIgnoredChildBlock && g.Shape() && ActsAsSpace(r.s, g)
             && Step(r.s, sp).o.Ok?
    ensures var c := Run(Initial(v), before + (g.Tokens() + after));
            && (NodesOk(v.V2?, ns) ==> c.o.Ok? && DocumentIs(c.s.heap, Erase(ns)))
            && (!NodesOk(v.V2?, ns) && NoDashFirst(after) ==> !c.o.Ok?)
  {
    hide Run, NodesOk, ActsAsSpace, DocumentIs, PlainNodes, Step;
    var r := Run(Initial(v), before);
    RunConcat(Initial(v), before, [sp] + after);
    RunConcat(Initial(v), before, g.Tokens() + after);
    assert Unblocked(r.s) == r.s by { AlreadyUnblocked(r.s); }
    ContinuedLine(r.s, g, sp, after);
    ParseWritten(v, ns, lay);
  }

  lemma AlreadyUnblocked(s: PState)
    requires !s.f.afterIgnoredChildBlock
    ensures Unblocked(s) == s
  {
    assert s.f.(afterIgnoredChildBlock := false) == s.f;
  }

  /** A node with one argument. */
  function OneArgument(name: Bytes, x: Value): SNode { SNode(false, [], name, [SEntry(false, Arg(TValue([], x)))], NoBlock) }

  /** A space, a backslash and the end of the line. */
  const NEXT_LINE := Gap([SPACE], Tok(Continuation, ['\\' as int]), [], [], NEWLINE, [])

  /** So in either version the argument may stand on the next line. */
  lemma ArgumentOnNextLine(v: Version, name: Bytes, x: Value)
    requires NameOk(name) && Plain(x) && ValueOk(x)
    ensures var c := Run(Initial(v), [NameTok(name)] + (NEXT_LINE.Tokens() + ([ValTok(x)] + [NEWLINE, END])));
            c.o.Ok? && DocumentIs(c.s.heap, [Tree([], Str(name), [TValue([], x)], NO_PROPERTIES, [])])
  {
    hide Run, NameOk, ValueOk, Plain, NameTok, ValTok, DocumentIs, Machine.Step;
    var lay := Layout([], false);
    var ns := [OneArgument(name, x)];
    OneArgumentTokens(name, x, lay);
    OneArgumentMeans(v, name, x);
    var s := At(Initial(v), InNode, Open(Initial(v).heap, Dangling.Leaf(name), false));
    Dangling.PlainName(Initial(v), name, []);
    RunNothing(s);
    assert [NameTok(name)] + [] == [NameTok(name)];
    NextLineFits(s);
    SpaceAtName(s);
    ContinuedDocument(v, ns, lay, [NameTok(name)], SPACE, [ValTok(x)] + [NEWLINE, END], NEXT_LINE);
  }

  lemma SpaceAtName(s: PState)
    requires s.state.InNode? && !s.f.continuation && !s.f.afterIgnoredChildBlock
    ensures Step(s, SPACE).o.Ok?
  {}

  lemma NextLineFits(s: PState)
    requires Inside(s) && s.state.InNode?
    ensures NEXT_LINE.Shape() && ActsAsSpace(s, NEXT_LINE)
  {
    assert SPACE in NEXT_LINE.Trivia();
  }

  lemma OneEntry(v2: bool, x: Value)
    ensures var e := SEntry(false, Arg(TValue([], x)));
            && EntriesTokens([e]) == [SPACE] + [ValTok(x)]
            && (EntriesOk(v2, false, [e]) <==> ValueOk(x)) && (PlainEntries([e]) <==> Plain(x))
            && Args([e]) == [TValue([], x)] && Props(NO_PROPERTIES, [e]) == NO_PROPERTIES
  {
    hide ValTok, ValueOk, Plain;
    var e := SEntry(false, Arg(TValue([], x)));
    assert [e][1..] == [] && e in [e];
    assert EntryTokens(e.e) == [ValTok(x)];
    assert DashTokens(false) + [ValTok(x)] == [ValTok(x)];
  }

  lemma OneArgumentTokens(name: Bytes, x: Value, lay: Layout)
    requires !lay.semicolons
    ensures DocumentTokens([OneArgument(name, x)], lay) == [NameTok(name)] + ([SPACE] + ([ValTok(x)] + [NEWLINE, END]))
  {
    hide NameTok, ValTok, EntriesTokens;
    var n := OneArgument(name, x);
    OneEntry(false, x);
    assert NodeTokens(n, 0, lay) == [NameTok(name)] + (([SPACE] + [ValTok(x)]) + [NEWLINE]);
    assert [n][1..] == [] && NodesTokens([n], 0, lay) == NodeTokens(n, 0, lay);
  }

  lemma OneArgumentMeans(v: Version, name: Bytes, x: Value)
    requires NameOk(name) && Plain(x) && ValueOk(x)
    ensures var ns := [OneArgument(name, x)];
            && PlainNodes(ns) && NodesOk(v.V2?, ns)
            && Erase(ns) == [Tree([], Str(name), [TValue([], x)], NO_PROPERTIES, [])]
  {
    hide NameOk, ValueOk, Plain, EntriesOk, Args, Props, PlainEntries;
    var n := OneArgument(name, x);
    OneEntry(v.V2?, x);
    assert [n][1..] == [] && NodeOk(v.V2?, n) && PlainNode(n);
    assert EraseNode(n) == Tree([], Str(name), [TValue([], x)], NO_PROPERTIES, []);
  }
}
