/** Blanks and comments that mean nothing, and what may follow an annotation or an ignored block. */
module Spacing {
  import opened Utf8
  import opened Tokens
  import opened Document
  import opened Machine
  import opened StackShape
  import opened Syntax
  import opened PrintParse
  import opened Continuation
  import Dangling

  // ---------- Blanks ----------

  /** Inside a node, blanks that a space begins, or that may begin with a comment, are one space. */
  lemma BlanksAsSpace(s: PState, ts: seq<Token>, sp: Token, rest: seq<Token>)
    requires Inside(s) && Blanks(ts) && sp.id.Whitespace? && Step(s, sp).o.Ok?
    requires HasWhite(ts) && (CommentsStand(s) || ts[0].id.Whitespace?)
    ensures Run(s, ts + rest) == Run(s, [sp] + rest)
  {
    hide Handle, Feed, Step, Run;
    assert Flow(s, s.f) == s == Flow(Base(s, false), s.f) by { Unflowed(s); }
    SpaceFeed(s, s.f, sp);
    BlanksRun(s, false, s.f, ts);
    RunConcat(s, ts, rest);
    OneToken(s, sp, rest);
  }

  /** Between nodes blanks, comments and empty lines are skipped. */
  lemma {:induction false} BetweenNodes(s: PState, ts: seq<Token>, rest: seq<Token>)
    requires Outer(s.state) && !s.typeAnnot.Valid() && !s.f.continuation && !s.f.afterIgnoredChildBlock
    requires forall t | t in ts :: Trivia(t.id)
    ensures Run(s, ts + rest) == Run(s, rest)
    decreases |ts|
  {
    if ts == [] {
      assert ts + rest == rest;
    } else {
      assert ts[0] in ts && (ts + rest)[1..] == ts[1..] + rest;
      TriviaBetween(s, ts[0]);
      BetweenNodes(s, ts[1..], rest);
    }
  }

  lemma TriviaBetween(s: PState, t: Token)
    requires Outer(s.state) && !s.typeAnnot.Valid() && !s.f.continuation && !s.f.afterIgnoredChildBlock && Trivia(t.id)
    ensures Feed(s, t) == Done(s)
  {
    StepIs(s, t);
    PreparedState(s, t.id);
    assert Prepared(s.f, t.id) == s.f && s.(f := s.f) == s;
  }

  /** Inside an annotation and after the equals sign blanks are skipped in version 2, and refused in version 1. */
  lemma {:induction false} BlanksThere(s: PState, ts: seq<Token>, rest: seq<Token>)
    requires s.state.InTypeAnnot? || s.state.InTypeDone? || s.state.InPropertyValue?
    requires forall t | t in ts :: Blank(t.id)
    ensures if IsV2(s) || ts == [] then Run(s, ts + rest) == Run(s, rest) else Run(s, ts + rest).o.Fail?
    decreases |ts|
  {
    if ts == [] {
      assert ts + rest == rest;
    } else {
      assert ts[0] in ts && (ts + rest)[1..] == ts[1..] + rest;
      BlankIn(s, ts[0]);
      if IsV2(s) {
        BlanksThere(s, ts[1..], rest);
      }
    }
  }

  lemma BlankIn(s: PState, t: Token)
    requires (s.state.InTypeAnnot? || s.state.InTypeDone? || s.state.InPropertyValue?) && Blank(t.id)
    ensures Feed(s, t) == if IsV2(s) then Done(s) else Reject(s)
  {
    StepIs(s, t);
    PreparedState(s, t.id);
    BlankPrepared(s.f, t.id);
    assert s.(f := s.f) == s;
  }

  // ---------- After an annotation ----------

  /** Where an annotation waits for what it annotates. */
  predicate Annotated(s: PState) {
    && (Outer(s.state) || s.state.InNodeParams?) && s.typeAnnot.Valid()
    && !s.f.continuation && !s.f.afterIgnoredChildBlock
  }

  /** An annotation is not followed by a slashdash or an equals sign, and in version 1 not by a space. */
  lemma AnnotationRefuses(s: PState, t: Token)
    requires Annotated(s)
    ensures t.id.TokenComment? || t.id.Equals? ==> Feed(s, t).o.Fail?
    ensures t.id.Whitespace? || t.id.MultiLineComment? ==> Feed(s, t) == if IsV2(s) then Done(s) else Reject(s)
    ensures t.id.SingleLineComment? && Outer(s.state) ==> Feed(s, t) == if IsV2(s) then Done(s) else Reject(s)
  {
    StepIs(s, t);
    PreparedState(s, t.id);
    if Blank(t.id) {
      BlankPrepared(s.f, t.id);
      assert s.(f := s.f) == s;
    }
  }

  /** Nor by the end of a line or the input, but for two newlines: in a block, and among slashdashed entries. */
  lemma AnnotationEnds(s: PState, t: Token)
    requires Annotated(s) && Terminator(t.id)
    ensures var r := Feed(s, t);
            if t.id.Newline? && (s.state.InChildren? || (s.state.InNodeParams? && s.f.ignoreNextArgProp)) then r == Done(s)
            else r.o == Fail(ExpectedValueAfterType)
                 || (r.o == Fail(Unexpected) && (s.state.InChildren? || s.f.ignoreNextArgProp))
  {
    StepIs(s, t);
    PreparedState(s, t.id);
    assert Prepared(s.f, Newline) == s.f && s.(f := s.f) == s;
    EndHandled(Prepare(s, t.id), t);
    hide Handle, PopNodeAndState;
  }

  /** An annotation before a child block, or before a newline in one, passes to the next node. */
  lemma AnnotationPasses(s: PState, typ: Bytes, t: Token, ts: seq<Token>)
    requires typ != [] && s.typeAnnot == NO_TOKEN && Calm(s.f)
    requires (s.state.InNodeParams? && t.id.BraceOpen?) || (s.state.InChildren? && t.id.Newline?)
    ensures Run(s, TypeTokens(typ) + ([t] + ts)) == Run(s, [t] + (TypeTokens(typ) + ts))
  {
    hide Run, TypeTokens;
    var a := s.(typeAnnot := TypeToken(typ));
    TypeStage(s, typ, [t] + ts);
    OpensOrStays(s, t);
    OpensOrStays(a, t);
    First(s, t, TypeTokens(typ) + ts);
    First(a, t, ts);
    var r := Handle(s, t).s;
    assert Handle(a, t).s == r.(typeAnnot := TypeToken(typ));
    TypeStage(r, typ, ts);
  }

  lemma OpensOrStays(s: PState, t: Token)
    requires Calm(s.f) && ((s.state.InNodeParams? && t.id.BraceOpen?) || (s.state.InChildren? && t.id.Newline?))
    ensures Handle(s, t) == Done(if t.id.Newline? then s
                                 else PushState(if s.f.ignoreNextArgProp || s.f.ignoreChildren > 0
                                                then IgnoreEntry(IgnoreBlock(s), false) else s, InChildren))
    ensures Calm(Handle(s, t).s.f)
  {}

  // ---------- After an ignored block ----------

  /** Only blanks, a new line, a continued one or the end may follow. */
  lemma AfterIgnored(s: PState, t: Token)
    requires s.f.afterIgnoredChildBlock
    ensures Step(s, t).o == Fail(AfterIgnoredBlock)
       <==> t.id !in {Whitespace, Newline, SingleLineComment, MultiLineComment, EOF, Continuation}
  {
    hide Handle, Prepare;
    StepIs(s, t);
    if Trivia(t.id) || t.id.EOF? || t.id.Continuation? {
      NeverBlocked(Prepare(s, t.id), t);
    }
  }

  /** All of these but blanks lift the ban. */
  lemma BanLifted(s: PState, t: Token)
    requires s.f.afterIgnoredChildBlock && t.id in {Newline, EOF, Continuation}
    ensures Step(s, t) == Step(Unblocked(s), t)
  {
    hide Handle, Continue;
    StepIs(s, t);
    StepIs(Unblocked(s), t);
    assert LeaveIgnored(s, t.id) == Unblocked(s) == LeaveIgnored(Unblocked(s), t.id);
  }

  lemma NeverBlocked(s: PState, t: Token)
    requires Trivia(t.id) || t.id.EOF? || t.id.Continuation?
    ensures Handle(s, t).o != Fail(AfterIgnoredBlock)
  {
    hide ValueFromToken;
  }

  /** The tokens of an empty slashdashed block and of what follows on its line. */
  function DashedBlock(t: Token, ts: seq<Token>): seq<Token> { [SLASHDASH] + ([OPEN] + ([CLOSE] + ([SPACE] + ([t] + ts)))) }

  /** Among entries outside ignored blocks, nothing pending or slashdashed. */
  predicate Open(s: PState) {
    && s.state.InNodeParams? && s.typeAnnot == NO_TOKEN && s.f.ignoreChildren == 0
    && !s.f.ignoreNextArgProp && !s.f.ignoreNextNode && !s.f.afterIgnoredChildBlock
    && (s.f.continuationNewlineSeen ==> s.f.continuation)
  }

  /** The state after the slashdash, in the block, and after it. */
  function DashSeen(s: PState): PState {
    s.(f := NO_FLAGS.(ignoreNextArgProp := true, ignoreFromContinuation := s.f.continuation,
                      ignoreChildBlockFromContinuation := s.f.ignoreChildBlockFromContinuation))
  }

  function InBlock(s: PState): PState {
    PushState(s.(f := NO_FLAGS.(ignoreChildren := 1, ignoreChildBlockFromContinuation := s.f.continuation)), InChildren)
  }

  function Shut(s: PState): PState { s.(f := NO_FLAGS.(afterIgnoredChildBlock := !s.f.continuation)) }

  lemma Dashed(s: PState, ts: seq<Token>)
    requires Open(s)
    ensures Run(s, [SLASHDASH] + ts) == Run(DashSeen(s), ts)
  {
    StepIs(s, SLASHDASH);
    PreparedState(s, TokenComment);
    assert Step(s, SLASHDASH) == Done(DashSeen(s));
    assert ([SLASHDASH] + ts)[1..] == ts;
  }

  lemma Opened(s: PState, ts: seq<Token>)
    requires Open(s)
    ensures Run(DashSeen(s), [OPEN] + ts) == Run(InBlock(s), ts)
  {
    var d := DashSeen(s);
    StepIs(d, OPEN);
    PreparedState(d, BraceOpen);
    assert d.(f := Prepared(d.f, BraceOpen)) == d;
    assert Step(d, OPEN) == Done(InBlock(s));
    assert ([OPEN] + ts)[1..] == ts;
  }

  lemma Closed(s: PState, ts: seq<Token>)
    requires Open(s)
    ensures Run(InBlock(s), [CLOSE] + ts) == Run(Shut(s), ts)
  {
    var b := InBlock(s);
    StepIs(b, CLOSE);
    PreparedState(b, BraceClose);
    assert b.(f := Prepared(b.f, BraceClose)) == b;
    assert (s.states + [s.state])[..|s.states|] == s.states;
    assert Step(b, CLOSE) == Done(Shut(s));
    assert ([CLOSE] + ts)[1..] == ts;
  }

  /** The ban holds across the space. */
  lemma Banned(s: PState, t: Token, ts: seq<Token>)
    requires s.state.InNodeParams? && s.typeAnnot == NO_TOKEN && s.f.afterIgnoredChildBlock && !s.f.continuation
    requires t.id !in {Whitespace, Newline, SingleLineComment, MultiLineComment, EOF, Continuation}
    ensures Run(s, [SPACE] + ([t] + ts)).o == Fail(AfterIgnoredBlock)
  {
    StepIs(s, SPACE);
    PreparedState(s, Whitespace);
    BlankPrepared(s.f, Whitespace);
    assert s.(f := s.f) == s && Handle(s, SPACE) == Done(s) by { BlankAmong(s, SPACE); }
    hide Handle, Prepare;
    assert ([SPACE] + ([t] + ts))[1..] == [t] + ts;
    AfterIgnored(s, t);
  }

  /**
    An entry after a slashdashed block is refused, unless the block came first on a continued line; then
    the line is read as if there were no block.
   */
  lemma EntryAfterIgnored(s: PState, t: Token, ts: seq<Token>)
    requires Open(s)
    requires t.id !in {Whitespace, Newline, SingleLineComment, MultiLineComment, EOF, Continuation}
    ensures var r := Run(s, DashedBlock(t, ts));
            if s.f.continuation then r == Run(s.(f := NO_FLAGS), [SPACE] + ([t] + ts)) else r.o == Fail(AfterIgnoredBlock)
  {
    hide Run;
    var line := [SPACE] + ([t] + ts);
    Dashed(s, [OPEN] + ([CLOSE] + line));
    Opened(s, [CLOSE] + line);
    Closed(s, line);
    if !s.f.continuation {
      Banned(Shut(s), t, ts);
    }
  }

  // ---------- Keys ----------

  /** An entry read so far is a key exactly when it is a string or bare word without an annotation. */
  lemma KeyBeforeEquals(s: PState, t: Token)
    requires (s.state.InArgProp? || s.state.InProperty?) && t.id.Equals? && !s.f.afterIgnoredChildBlock
    requires s.state.InProperty? ==> s.ident.id.BareIdentifier?
    ensures Feed(s, t).o.Ok? <==> !s.typeAnnot.Valid() && s.ident.id in {BareIdentifier, RawString, QuotedString}
    ensures Feed(s, t).o.Ok? ==> Feed(s, t).s.state.InPropertyValue? && Feed(s, t).s.ident == s.ident
  {
    StepIs(s, t);
    PreparedState(s, t.id);
    hide CommitArgument, CommitPending, AddArgument;
  }

  /** In version 2 blanks before the equals sign do not matter; in version 1 they end the entry. */
  lemma BlankBeforeEquals(s: PState, ts: seq<Token>, t: Token, rest: seq<Token>)
    requires s.state.InArgProp? && !s.f.continuation && t.id.Equals? && Blanks(ts) && ts != []
    ensures if IsV2(s) then Run(s, ts + ([t] + rest)) == Run(s, [t] + rest) else !Run(s, ts + ([t] + rest)).o.Ok?
  {
    var u := [t] + rest;
    assert ts[0] in ts;
    if IsV2(s) {
      BlanksPending(s, ts, u);
    } else {
      hide Run, Feed;
      var r := Feed(s, ts[0]);
      FirstBlank(s, ts[0]);
      FirstToken(s, ts, u);
      if r.o.Ok? {
        BlanksThenEquals(r.s, ts[1..], t, rest);
      }
    }
  }

  lemma FirstToken(s: PState, ts: seq<Token>, u: seq<Token>)
    requires ts != []
    ensures Run(s, ts + u) == var r := Feed(s, ts[0]); if !r.o.Ok? then r else Run(r.s, ts[1..] + u)
  {
    hide Feed;
    assert (ts + u)[1..] == ts[1..] + u;
  }

  lemma {:induction false} BlanksPending(s: PState, ts: seq<Token>, rest: seq<Token>)
    requires s.state.InArgProp? && IsV2(s) && Blanks(ts)
    ensures Run(s, ts + rest) == Run(s, rest)
    decreases |ts|
  {
    hide Run, Feed;
    if ts == [] {
      assert ts + rest == rest;
    } else {
      assert ts[0] in ts;
      PendingBlank(s, ts[0]);
      FirstToken(s, ts, rest);
      BlanksPending(s, ts[1..], rest);
    }
  }

  lemma PendingBlank(s: PState, t: Token)
    requires s.state.InArgProp? && IsV2(s) && (t.id.Whitespace? || t.id.MultiLineComment?)
    ensures Feed(s, t) == Done(s)
  {
    StepIs(s, t);
    PreparedState(s, t.id);
    BlankPrepared(s.f, t.id);
    assert s.(f := s.f) == s;
    BlankAmong(s, t);
    hide Handle;
  }

  lemma FirstBlank(s: PState, t: Token)
    requires s.state.InArgProp? && !IsV2(s) && (t.id.Whitespace? || t.id.MultiLineComment?)
    ensures Feed(s, t).o.Ok? ==> Feed(s, t).s.state.InNodeParams?
  {
    StepIs(s, t);
    PreparedState(s, t.id);
    BlankPrepared(s.f, t.id);
    hide ValueFromToken;
  }

  lemma {:induction false} BlanksThenEquals(s: PState, ts: seq<Token>, t: Token, rest: seq<Token>)
    requires s.state.InNodeParams? && Blanks(ts) && t.id.Equals?
    ensures Run(s, ts + ([t] + rest)).o.Fail?
    decreases |ts|
  {
    if ts == [] {
      assert ts + ([t] + rest) == [t] + rest;
      EqualsAlone(s, t);
    } else {
      assert ts[0] in ts;
      BlankOrFail(s, ts[0]);
      FirstToken(s, ts, [t] + rest);
      hide Run, Feed;
      if Feed(s, ts[0]).o.Ok? {
        BlanksThenEquals(Feed(s, ts[0]).s, ts[1..], t, rest);
      }
    }
  }

  /** After a name, a property or a space there is no key. */
  lemma EqualsAlone(s: PState, t: Token)
    requires (s.state.InNodeParams? || s.state.InNode?) && t.id.Equals?
    ensures Feed(s, t).o.Fail?
  {
    StepIs(s, t);
    PreparedState(s, t.id);
  }

  lemma BlankOrFail(s: PState, t: Token)
    requires s.state.InNodeParams? && (t.id.Whitespace? || t.id.MultiLineComment?)
    ensures Feed(s, t).o.Fail? || (Feed(s, t).o.Ok? && Feed(s, t).s.state.InNodeParams?)
  {
    StepIs(s, t);
    PreparedState(s, t.id);
  }

  // ---------- Bare words ----------

  /** A bare word among the entries, nothing pending. */
  predicate WordAhead(s: PState, word: Token) {
    s.state.InNodeParams? && word.id.BareIdentifier? && !s.f.continuation && !s.f.afterIgnoredChildBlock
  }

  /** In version 1 it has to be a key: only an equals sign may follow, or a brace. */
  lemma WordIsKey(s: PState, word: Token, t: Token)
    requires WordAhead(s, word) && !IsV2(s)
    ensures Feed(s, word).o.Ok?
    ensures !t.id.Equals? && !t.id.BraceClose? ==> Feed(Feed(s, word).s, t).o == Fail(Unexpected)
  {
    WordRead(s, word);
    var w := Feed(s, word).s;
    StepIs(w, t);
    PreparedState(w, t.id);
    hide Continue;
  }

  lemma WordRead(s: PState, word: Token)
    requires WordAhead(s, word)
    ensures Feed(s, word) == Done(s.(f := s.f.(justContinuedLine := false), ident := word,
                                     state := if IsV2(s) then InArgProp else InProperty))
  {
    StepIs(s, word);
    PreparedState(s, word.id);
  }

  /** Before a brace it is dropped: the node ends without it. */
  lemma WordDropped(s: PState, word: Token, t: Token)
    requires WordAhead(s, word) && !IsV2(s) && t.id.BraceClose?
    requires s.states != [] && s.states[|s.states| - 1].InChildren? && !s.f.ignoreNextNode && |s.states| > 1 && s.heap.stack != []
    ensures var r := Run(s, [word] + [t]); r.o.Ok? && r.s.heap == s.heap.Pop()
  {
    hide Step, Feed;
    WordRead(s, word);
    TwoTokens(s, word, t);
    BraceAfterWord(Feed(s, word).s, t);
    assert [t][1..] == [];
  }

  /** And so is a property without a value. */
  lemma BraceAfterWord(s: PState, t: Token)
    requires (s.state.InProperty? || s.state.InPropertyValue?) && t.id.BraceClose? && !s.f.continuation && !s.f.afterIgnoredChildBlock
    requires s.states != [] && s.states[|s.states| - 1].InChildren? && !s.f.ignoreNextNode && |s.states| > 1 && s.heap.stack != []
    ensures var r := Feed(s, t); r.o.Ok? && r.s.heap == s.heap.Pop()
  {
    hide Step;
    var s1 := s.(f := s.f.(justContinuedLine := false));
    BraceInProperty(s, t);
    var s2 := CloseAndReenter(s1).s;
    Dangling.BraceEndsBlock(s2, t);
    var s3 := s2.(f := s2.f.(justContinuedLine := false));
    BlockClosed(s3);
  }

  lemma BraceInProperty(s: PState, t: Token)
    requires (s.state.InProperty? || s.state.InPropertyValue?) && t.id.BraceClose? && !s.f.continuation && !s.f.afterIgnoredChildBlock
    ensures Step(s, t) == CloseAndReenter(s.(f := s.f.(justContinuedLine := false)))
  {
    hide CloseAndReenter;
  }

  lemma BlockClosed(s: PState)
    requires s.states != []
    ensures PopState(CloseBlock(s)).o.Ok? && PopState(CloseBlock(s)).s.heap == s.heap
  {
    hide LeaveBlock;
  }

  /** The open node has this argument more. */
  predicate ArgumentAdded(h: Heap, h': Heap, v: TValue) {
    h.TopValid() && var rec := h.store[h.Top()]; h'.store == h.store[h.Top() := rec.(args := rec.args + [v])]
  }

  /** In version 2 it is an argument, added at the end of the line. */
  lemma WordIsArgument(s: PState, word: Token, newline: Token)
    requires WordAhead(s, word) && IsV2(s) && newline.id.Newline? && !s.f.ignoreNextArgProp
    requires s.heap.TopValid() && s.states != []
    ensures var r := Run(s, [word] + [newline]);
            r.o.Ok? && ArgumentAdded(s.heap, r.s.heap, TValue(TypeText(s.typeAnnot), Str(word.data)))
  {
    hide Step, Feed, ArgumentAdded;
    WordRead(s, word);
    var w := Feed(s, word).s;
    TwoTokens(s, word, newline);
    LineAdds(w, newline);
    assert [newline][1..] == [];
  }

  lemma LineAdds(s: PState, newline: Token)
    requires s.state.InArgProp? && newline.id.Newline? && !s.f.continuation && !s.f.afterIgnoredChildBlock
    requires s.ident.id.BareIdentifier? && !s.f.ignoreNextArgProp && s.heap.TopValid() && s.states != []
    ensures var r := Feed(s, newline);
            r.o.Ok? && ArgumentAdded(s.heap, r.s.heap, TValue(TypeText(s.typeAnnot), Str(s.ident.data)))
  {
    StepIs(s, newline);
    PreparedState(s, newline.id);
    assert Prepared(s.f, newline.id) == s.f && s.(f := s.f) == s;
    TerminatorInArgProp(s, newline);
    WordAdded(s);
    hide Handle, CommitPending, ArgumentAdded;
    PopsOne(CommitPending(s).s);
    NeverAgain(s, newline);
  }

  lemma PopsOne(s: PState)
    requires s.states != [] && s.heap.stack != []
    ensures PopNodeAndState(s).o.Ok? && PopNodeAndState(s).s.heap.store == s.heap.store
  {}

  lemma WordAdded(s: PState)
    requires s.ident.id.BareIdentifier? && !s.f.ignoreNextArgProp && s.heap.TopValid() && s.states != []
    ensures var c := CommitPending(s);
            && c.o.Ok? && c.s.heap.stack == s.heap.stack && c.s.states == s.states
            && ArgumentAdded(s.heap, c.s.heap, TValue(TypeText(s.typeAnnot), Str(s.ident.data)))
  {}

  /** A number with a suffix is an argument at once, without the annotation before it; or dropped after a slashdash. */
  lemma SuffixedAdds(s: PState, t: Token)
    requires s.state.InNodeParams? && t.id.SuffixedDecimal? && s.heap.TopValid()
    requires !s.f.continuation && !s.f.afterIgnoredChildBlock
    ensures var r := Feed(s, t);
            && r.o.Ok? && r.s.state.InNodeParams? && !r.s.f.ignoreNextArgProp && !r.s.typeAnnot.Valid()
            && if s.f.ignoreNextArgProp then r.s.heap == s.heap
               else ArgumentAdded(s.heap, r.s.heap, TValue([], Num(SuffixedDecimal, t.data)))
  {
    StepIs(s, t);
    PreparedState(s, t.id);
  }
}
