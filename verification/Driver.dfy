/**
  Whole token streams: the separation check of version 2, re-entry, the cost of a run, and the
  irrelevance of token positions to everything else.
 */
module Driver {
  import opened Wrappers
  import opened Utf8
  import opened Tokens
  import opened Document
  import opened Machine
  import opened StackShape
  import opened Syntax
  import opened PrintParse
  import opened RoundTrip
  import Runes

  /** One token, offered again as long as its handler asks for it. */
  function FeedContext(c: Context, t: Token): ContextResult {
    var r := Parse(c, t);
    if r.o.Reenter? then Parse(r.c, t) else r
  }

  /** ParseAllContext without the final end-of-file token. */
  function ParseTokens(c: Context, ts: seq<Token>): ContextResult
    decreases |ts|
  {
    if ts == [] then ContextResult(c, Ok)
    else
      var r := FeedContext(c, ts[0]);
      if !r.o.Ok? then r else ParseTokens(r.c, ts[1..])
  }

  // ---------- Separation ----------

  /** No two neighbouring tokens that would have to be separated, judged by kind alone. */
  predicate Separate(prev: TokenID, curr: TokenID) {
    !(ValueLike(prev) && ScalarToken(curr)) && !(prev.ParensClose? && curr.TokenComment?)
  }

  predicate Separated(prev: TokenID, ts: seq<Token>)
    decreases |ts|
  {
    ts == [] || (Separate(prev, ts[0].id) && Separated(ts[0].id, ts[1..]))
  }

  lemma ReenterIsBrace(s: PState, t: Token)
    requires Shape(s) && Step(s, t).o.Reenter?
    ensures t.id.BraceClose? && Separate(t.id, t.id)
  {
    StepShape(s, t);
  }

  /** Where nothing has to be separated, in version 1 always, the separation check changes nothing. */
  lemma {:induction false} ParseIsRun(c: Context, ts: seq<Token>)
    requires Shape(c.s) && (IsV2(c.s) ==> Separated(c.prev.id, ts))
    ensures var p, r := ParseTokens(c, ts), Run(c.s, ts);
            p.c.s == r.s && p.o == r.o
    decreases |ts|
  {
    hide Step, Shape;
    if ts != [] {
      var t := ts[0];
      var r := Step(c.s, t);
      StepShape(c.s, t);
      VersionStays(c.s, t);
      if r.o.Reenter? {
        ReenterIsBrace(c.s, t);
        VersionStays(r.s, t);
      }
      FeedShape(c.s, t);
      assert FeedContext(c, t) == ContextResult(Context(Feed(c.s, t).s, t), Feed(c.s, t).o);
      if Feed(c.s, t).o.Ok? {
        ParseIsRun(Context(Feed(c.s, t).s, t), ts[1..]);
      }
    }
  }

  /** The version stays, and the separation check is the only place its error comes from. */
  predicate Keeps(r: Result, s: PState) { r.s.version == s.version && r.o != Fail(MissingSeparator) }

  lemma OperationVersions(s: PState, t: Token, detached: bool)
    ensures Keeps(CommitArgument(s), s) && Keeps(NodeName(s, t, detached), s)
    ensures Keeps(AddArgument(s, s.ident, s.typeAnnot), s)
    ensures Keeps(AddArgument(ClearPending(s), t, NO_TOKEN), s)
    ensures Keeps(AddProperty(s, s.ident, t, s.typeAnnot), s)
    ensures Keeps(PopNodeAndState(s), s)
  {
    hide ValueFromToken;
  }

  lemma OuterVersions(s: PState, k: TokenID, t: Token)
    ensures Keeps(HandleDocument(s, k, t), s) && Keeps(HandleChildren(s, k, t), s)
  {
    hide HandleDocument, HandleChildren;
    DocumentVersions(s, k, t);
    ChildrenVersions(s, k, t);
  }

  lemma DocumentVersions(s: PState, k: TokenID, t: Token)
    ensures Keeps(HandleDocument(s, k, t), s)
  {
    hide NodeName, PushState, SlashdashNode, StartContinuation, AfterType;
    OperationVersions(s, t, s.f.ignoreNextNode);
    OuterSteps(s);
  }

  lemma ChildrenVersions(s: PState, k: TokenID, t: Token)
    ensures Keeps(HandleChildren(s, k, t), s)
  {
    hide NodeName, PopState, CloseBlock, PushState, SlashdashNode, StartContinuation, AfterType;
    OperationVersions(s, t, s.f.ignoreNextNode || s.f.ignoreChildren > 0);
    CloseVersions(s);
    OuterSteps(s);
  }

  lemma OuterSteps(s: PState)
    ensures Keeps(SlashdashNode(s), s) && Keeps(AfterType(s), s)
    ensures PushState(s, InTypeAnnot).version == s.version && StartContinuation(s).version == s.version
  {}

  lemma CloseVersions(s: PState)
    ensures Keeps(PopState(CloseBlock(s)), s)
  {}

  lemma EntryVersions(s: PState, k: TokenID, t: Token)
    ensures Keeps(HandleNode(s, k, t), s) && Keeps(HandleNodeParams(s, k, t), s)
    ensures Keeps(HandlePropertyValue(s, k, t), s) && Keeps(HandleProperty(s, k, t), s)
  {
    hide AddArgument, AddProperty, PopNodeAndState, CloseAndReenter, PushState, IgnoreBlock;
    OperationVersions(s, t, false);
    BlockVersions(s);
  }

  lemma BlockVersions(s: PState)
    ensures Keeps(CloseAndReenter(s), s) && IgnoreBlock(s).version == s.version
    ensures forall s, st :: PushState(s, st).version == s.version
  {}

  lemma CommitVersions(s: PState)
    ensures Keeps(CommitPending(s), s) && Keeps(CommitArgument(s), s)
    ensures Keeps(AddArgument(s, s.ident, s.typeAnnot), s)
    ensures Keeps(PopNodeAndState(s), s) && Keeps(CloseAndReenter(s), s)
  {
    hide AddArgument, CommitArgument;
    OperationVersions(s, NO_TOKEN, false);
  }

  lemma ArgPropVersions(s: PState, k: TokenID, t: Token)
    ensures Keeps(HandleArgProp(s, k, t), s)
  {
    hide AddArgument, CommitArgument, CommitPending, PopNodeAndState, CloseAndReenter, Identifier;
    CommitVersions(s);
    CommitVersions(CommitPending(s).s);
  }

  lemma RestVersions(s: PState, k: TokenID, t: Token)
    ensures Keeps(HandleTypeAnnot(s, k, t), s) && Keeps(HandleTypeDone(s, k, t), s)
    ensures Keeps(HandleNodeEnd(s, k, t), s)
  {}

  lemma VersionStays(s: PState, t: Token)
    ensures Keeps(Step(s, t), s)
  {
    hide HandleNode, HandleNodeParams, HandleArgProp, HandlePropertyValue, HandleChildren, HandleDocument, Dispatch;
    hide HandleTypeAnnot, HandleTypeDone, HandleNodeEnd, HandleProperty;
    var s1 := Continue(LeaveIgnored(s, t.id), t.id);
    match Dispatch(s1.state, t.id)
    case None =>
    case Some(k) =>
      OuterVersions(s1, k, t);
      EntryVersions(s1, k, t);
      ArgPropVersions(s1, k, t);
      RestVersions(s1, k, t);
  }

  // ---------- Positions ----------

  /** The token without its position. */
  function Unplace(t: Token): Token { Token(t.id, t.data, 0, 0) }

  function UnplaceAll(ts: seq<Token>): (us: seq<Token>)
    ensures |us| == |ts|
  {
    if ts == [] then [] else [Unplace(ts[0])] + UnplaceAll(ts[1..])
  }

  function UnplaceState(s: PState): PState {
    s.(ident := Unplace(s.ident), typeAnnot := Unplace(s.typeAnnot))
  }

  function UnplaceResult(r: Result): Result { Result(UnplaceState(r.s), r.o) }

  lemma UnplacedValue(t: Token)
    ensures ValueFromToken(Unplace(t)) == ValueFromToken(t)
  {}

  lemma UnplacedAddArgument(s: PState, t: Token, typeAnnot: Token)
    ensures AddArgument(UnplaceState(s), Unplace(t), Unplace(typeAnnot)) == UnplaceResult(AddArgument(s, t, typeAnnot))
    ensures AddArgument(ClearPending(s), Unplace(t), NO_TOKEN) == UnplaceResult(AddArgument(ClearPending(s), t, NO_TOKEN))
  {
    UnplacedValue(t);
    hide ValueFromToken;
  }

  lemma UnplacedAddProperty(s: PState, name: Token, t: Token, typeAnnot: Token)
    ensures AddProperty(UnplaceState(s), Unplace(name), Unplace(t), Unplace(typeAnnot))
         == UnplaceResult(AddProperty(s, name, t, typeAnnot))
  {
    UnplacedValue(name);
    UnplacedValue(t);
    hide ValueFromToken;
  }

  lemma UnplacedName(s: PState, t: Token, detached: bool)
    ensures NodeName(UnplaceState(s), Unplace(t), detached) == UnplaceResult(NodeName(s, t, detached))
  {
    UnplacedValue(t);
    hide ValueFromToken;
  }

  lemma UnplacedOperations(s: PState, t: Token, detached: bool)
    ensures CommitArgument(UnplaceState(s)) == UnplaceResult(CommitArgument(s))
    ensures NodeName(UnplaceState(s), Unplace(t), detached) == UnplaceResult(NodeName(s, t, detached))
    ensures AddArgument(UnplaceState(s), Unplace(s.ident), Unplace(s.typeAnnot)) == UnplaceResult(AddArgument(s, s.ident, s.typeAnnot))
    ensures AddArgument(ClearPending(s), Unplace(t), NO_TOKEN) == UnplaceResult(AddArgument(ClearPending(s), t, NO_TOKEN))
    ensures AddProperty(UnplaceState(s), Unplace(s.ident), Unplace(t), Unplace(s.typeAnnot))
         == UnplaceResult(AddProperty(s, s.ident, t, s.typeAnnot))
    ensures PopNodeAndState(UnplaceState(s)) == UnplaceResult(PopNodeAndState(s))
  {
    hide NodeName, AddArgument, AddProperty, PopNodeAndState;
    UnplacedAddArgument(s, s.ident, s.typeAnnot);
    UnplacedAddArgument(s, t, NO_TOKEN);
    UnplacedAddProperty(s, s.ident, t, s.typeAnnot);
    UnplacedName(s, t, detached);
    UnplacedPop(s);
  }

  lemma UnplacedNodeName(s: PState, t: Token, detached: bool)
    ensures NodeName(UnplaceState(s), Unplace(t), detached) == UnplaceResult(NodeName(s, t, detached))
  {
    UnplacedOperations(s, t, detached);
  }

  lemma UnplacedOuter(s: PState, k: TokenID, t: Token)
    ensures HandleDocument(UnplaceState(s), k, Unplace(t)) == UnplaceResult(HandleDocument(s, k, t))
    ensures HandleChildren(UnplaceState(s), k, Unplace(t)) == UnplaceResult(HandleChildren(s, k, t))
  {
    hide NodeName;
    UnplacedNodeName(s, t, s.f.ignoreNextNode);
    UnplacedNodeName(s, t, s.f.ignoreNextNode || s.f.ignoreChildren > 0);
  }

  lemma UnplacedEntry(s: PState, k: TokenID, t: Token)
    ensures HandleNode(UnplaceState(s), k, Unplace(t)) == UnplaceResult(HandleNode(s, k, t))
    ensures HandleProperty(UnplaceState(s), k, Unplace(t)) == UnplaceResult(HandleProperty(s, k, t))
  {
    hide PopNodeAndState, CloseAndReenter, PushState, IgnoreBlock;
    UnplacedPop(s);
    UnplacedBlock(s);
    UnplacedBlock(IgnoreNode(IgnoreBlock(s), false));
  }

  lemma UnplacedBlock(s: PState)
    ensures PushState(UnplaceState(s), InChildren) == UnplaceState(PushState(s, InChildren))
    ensures IgnoreNode(IgnoreBlock(UnplaceState(s)), false) == UnplaceState(IgnoreNode(IgnoreBlock(s), false))
  {}

  lemma UnplacedParams(s: PState, k: TokenID, t: Token)
    ensures HandleNodeParams(UnplaceState(s), k, Unplace(t)) == UnplaceResult(HandleNodeParams(s, k, t))
  {
    hide HandleNodeParams;
    if k.SuffixedDecimal? || k.BraceOpen? || k.ClassTerminator? || k.BraceClose? {
      UnplacedParamsEnd(s, k, t);
    } else {
      UnplacedParamsStay(s, k, t);
    }
  }

  lemma UnplacedParamsEnd(s: PState, k: TokenID, t: Token)
    requires k.SuffixedDecimal? || k.BraceOpen? || k.ClassTerminator? || k.BraceClose?
    ensures HandleNodeParams(UnplaceState(s), k, Unplace(t)) == UnplaceResult(HandleNodeParams(s, k, t))
  {
    hide AddArgument, PopNodeAndState, CloseAndReenter, ClearPending;
    if k.SuffixedDecimal? {
      assert ClearPending(UnplaceState(s)) == ClearPending(s) == UnplaceState(ClearPending(s))
          && ClearPending(s).typeAnnot == NO_TOKEN by { ClearsPlaces(s); }
      UnplacedAddArgument(s, t, NO_TOKEN);
    } else {
      UnplacedPop(s);
    }
  }

  lemma ClearsPlaces(s: PState)
    ensures ClearPending(UnplaceState(s)) == ClearPending(s) == UnplaceState(ClearPending(s))
    ensures ClearPending(s).typeAnnot == NO_TOKEN
  {}

  lemma UnplacedParamsStay(s: PState, k: TokenID, t: Token)
    requires !(k.SuffixedDecimal? || k.BraceOpen? || k.ClassTerminator? || k.BraceClose?)
    ensures HandleNodeParams(UnplaceState(s), k, Unplace(t)) == UnplaceResult(HandleNodeParams(s, k, t))
  {
    hide AddArgument, PopNodeAndState, CloseAndReenter;
  }

  lemma UnplacedPropertyValue(s: PState, k: TokenID, t: Token)
    ensures HandlePropertyValue(UnplaceState(s), k, Unplace(t)) == UnplaceResult(HandlePropertyValue(s, k, t))
  {
    hide AddProperty, PopNodeAndState, CloseAndReenter;
    UnplacedOperations(s, t, false);
    UnplacedPop(s);
  }

  lemma UnplacedCommit(s: PState)
    ensures CommitPending(UnplaceState(s)) == UnplaceResult(CommitPending(s))
    ensures CommitArgument(UnplaceState(s)) == UnplaceResult(CommitArgument(s))
    ensures AddArgument(UnplaceState(s), Unplace(s.ident), Unplace(s.typeAnnot)) == UnplaceResult(AddArgument(s, s.ident, s.typeAnnot))
  {
    hide CommitArgument, AddArgument;
    UnplacedOperations(s, s.ident, false);
  }

  lemma UnplacedPop(s: PState)
    ensures PopNodeAndState(UnplaceState(s)) == UnplaceResult(PopNodeAndState(s))
    ensures CloseAndReenter(UnplaceState(s)) == UnplaceResult(CloseAndReenter(s))
  {}

  predicate EndsArgProp(k: TokenID) { k.BraceOpen? || k.ClassTerminator? || k.BraceClose? }

  lemma UnplacedArgPropEnd(s: PState, k: TokenID, t: Token)
    requires EndsArgProp(k)
    ensures HandleArgProp(UnplaceState(s), k, Unplace(t)) == UnplaceResult(HandleArgProp(s, k, t))
  {
    hide CommitPending, PopNodeAndState, CloseAndReenter;
    UnplacedCommit(s);
    UnplacedPop(CommitPending(s).s);
  }

  lemma UnplacedArgPropStay(s: PState, k: TokenID, t: Token)
    requires !EndsArgProp(k) && !k.TokenComment?
    ensures HandleArgProp(UnplaceState(s), k, Unplace(t)) == UnplaceResult(HandleArgProp(s, k, t))
  {
    hide CommitArgument, AddArgument, Identifier;
    UnplacedCommit(s);
  }

  lemma UnplacedArgPropDash(s: PState, t: Token)
    ensures HandleArgProp(UnplaceState(s), TokenComment, Unplace(t)) == UnplaceResult(HandleArgProp(s, TokenComment, t))
  {
    hide CommitArgument, AddArgument, CommitPending;
    UnplacedCommit(s);
  }

  lemma UnplacedArgProp(s: PState, k: TokenID, t: Token)
    ensures HandleArgProp(UnplaceState(s), k, Unplace(t)) == UnplaceResult(HandleArgProp(s, k, t))
  {
    hide HandleArgProp;
    if EndsArgProp(k) {
      UnplacedArgPropEnd(s, k, t);
    } else if k.TokenComment? {
      UnplacedArgPropDash(s, t);
    } else {
      UnplacedArgPropStay(s, k, t);
    }
  }

  lemma UnplacedRest(s: PState, k: TokenID, t: Token)
    ensures HandleTypeAnnot(UnplaceState(s), k, Unplace(t)) == UnplaceResult(HandleTypeAnnot(s, k, t))
    ensures HandleTypeDone(UnplaceState(s), k, Unplace(t)) == UnplaceResult(HandleTypeDone(s, k, t))
    ensures HandleNodeEnd(UnplaceState(s), k, Unplace(t)) == UnplaceResult(HandleNodeEnd(s, k, t))
  {
    hide PopNodeAndState;
    UnplacedPop(s);
  }

  lemma UnplacedHandle(s: PState, t: Token)
    ensures Handle(UnplaceState(s), Unplace(t)) == UnplaceResult(Handle(s, t))
  {
    hide HandleNode, HandleNodeParams, HandleArgProp, HandlePropertyValue, HandleChildren, HandleDocument, Dispatch;
    hide HandleTypeAnnot, HandleTypeDone, HandleNodeEnd, HandleProperty;
    match Dispatch(s.state, t.id)
    case None =>
    case Some(k) =>
      UnplacedOuter(s, k, t);
      UnplacedEntry(s, k, t);
      UnplacedParams(s, k, t);
      UnplacedPropertyValue(s, k, t);
      UnplacedArgProp(s, k, t);
      UnplacedRest(s, k, t);
  }

  lemma UnplacedStep(s: PState, t: Token)
    ensures Step(UnplaceState(s), Unplace(t)) == UnplaceResult(Step(s, t))
  {
    hide Handle;
    var s1 := Continue(LeaveIgnored(s, t.id), t.id);
    UnplacedHandle(s1, t);
    assert Continue(LeaveIgnored(UnplaceState(s), t.id), t.id) == UnplaceState(s1);
  }

  /** Apart from the separation check no step depends on where a token stands. */
  lemma {:induction false} UnplacedRun(s: PState, ts: seq<Token>)
    ensures Run(UnplaceState(s), UnplaceAll(ts)) == UnplaceResult(Run(s, ts))
    decreases |ts|
  {
    hide Step;
    if ts != [] {
      UnplacedStep(s, ts[0]);
      UnplacedStep(Step(s, ts[0]).s, ts[0]);
      var r := Feed(s, ts[0]);
      assert UnplaceAll(ts)[1..] == UnplaceAll(ts[1..]);
      UnplacedRun(r.s, ts[1..]);
    }
  }

  lemma {:induction false} UnplacedSeparated(prev: TokenID, ts: seq<Token>)
    ensures Separated(prev, UnplaceAll(ts)) <==> Separated(prev, ts)
    decreases |ts|
  {
    if ts != [] {
      assert UnplaceAll(ts)[1..] == UnplaceAll(ts[1..]);
      UnplacedSeparated(ts[0].id, ts[1..]);
    }
  }

  // ---------- Printed tokens are separated ----------

  function LastId(prev: TokenID, ts: seq<Token>): TokenID {
    if ts == [] then prev else ts[|ts| - 1].id
  }

  lemma {:induction false} SeparatedConcat(prev: TokenID, a: seq<Token>, b: seq<Token>)
    requires Separated(prev, a) && Separated(LastId(prev, a), b)
    ensures Separated(prev, a + b)
    decreases |a|
  {
    if a == [] {
      assert a + b == b;
    } else {
      assert (a + b)[1..] == a[1..] + b;
      SeparatedConcat(a[0].id, a[1..], b);
    }
  }

  /** Kinds any token may follow. */
  predicate Weak(id: TokenID) { !ValueLike(id) && !id.ParensClose? }

  lemma NothingSeparated(prev: TokenID)
    ensures Separated(prev, [])
  {}

  lemma OneSeparated(prev: TokenID, t: Token)
    requires Separate(prev, t.id)
    ensures Separated(prev, [t])
  {
    assert [t][1..] == [];
  }

  lemma MoreSeparated(prev: TokenID, t: Token, ts: seq<Token>)
    requires Separate(prev, t.id) && Separated(t.id, ts)
    ensures Separated(prev, [t] + ts)
  {
    assert ([t] + ts)[1..] == ts;
  }

  lemma DashSeparated(prev: TokenID, dashed: bool)
    requires Weak(prev)
    ensures Separated(prev, DashTokens(dashed)) && Weak(LastId(prev, DashTokens(dashed)))
  {
    if dashed {
      OneSeparated(prev, SLASHDASH);
    }
  }

  lemma IndentSeparated(prev: TokenID, depth: nat, lay: Layout)
    ensures Separated(prev, IndentTokens(depth, lay))
    ensures Weak(prev) ==> Weak(LastId(prev, IndentTokens(depth, lay)))
  {
    if depth > 0 && lay.indent != [] {
      OneSeparated(prev, IndentTokens(depth, lay)[0]);
    }
  }

  lemma TypedSeparated(prev: TokenID, typ: Bytes, t: Token)
    requires Weak(prev) && !t.id.TokenComment?
    ensures Separated(prev, TypeTokens(typ) + [t]) && LastId(prev, TypeTokens(typ) + [t]) == t.id
  {
    hide Separated;
    if typ == [] {
      assert TypeTokens(typ) + [t] == [t];
      WeakSeparates(prev, t.id);
      OneSeparated(prev, t);
    } else {
      assert TypeTokens(typ) + [t] == [LPAREN] + ([TypeTok(typ)] + ([RPAREN] + [t]));
      TypeTokSeparate(prev, typ, t);
    }
  }

  lemma WeakSeparates(prev: TokenID, id: TokenID)
    requires Weak(prev)
    ensures Separate(prev, id)
  {}

  lemma TypeTokSeparate(prev: TokenID, typ: Bytes, t: Token)
    requires Weak(prev) && typ != [] && !t.id.TokenComment?
    ensures Separated(prev, [LPAREN] + ([TypeTok(typ)] + ([RPAREN] + [t])))
  {
    hide Separated;
    OneSeparated(ParensClose, t);
    MoreSeparated(TypeTok(typ).id, RPAREN, [t]);
    MoreSeparated(ParensOpen, TypeTok(typ), [RPAREN] + [t]);
    MoreSeparated(prev, LPAREN, [TypeTok(typ)] + ([RPAREN] + [t]));
  }

  lemma NoCommentTokens(v: Value, name: Bytes)
    ensures Plain(v) ==> !ValTok(v).id.TokenComment?
    ensures !NameTok(name).id.TokenComment?
  {}

  lemma ValueSeparated(prev: TokenID, e: Entry)
    requires Weak(prev) && Plain(e.v.value)
    ensures Separated(prev, EntryTokens(e))
  {
    NoCommentTokens(e.v.value, []);
    hide Separated, TypeTokens, ValTok, NameTok;
    match e
    case Arg(v) => TypedSeparated(prev, v.typ, ValTok(v.value));
    case Prop(key, v) =>
      var tail := TypeTokens(v.typ) + [ValTok(v.value)];
      TypedSeparated(Equals, v.typ, ValTok(v.value));
      MoreSeparated(NameTok(key).id, EQUALS, tail);
      WeakSeparates(prev, NameTok(key).id);
      MoreSeparated(prev, NameTok(key), [EQUALS] + tail);
      assert [NameTok(key), EQUALS] + tail == [NameTok(key)] + ([EQUALS] + tail);
  }

  lemma EntrySeparated(prev: TokenID, se: SEntry)
    requires Plain(se.e.v.value)
    ensures Separated(prev, [SPACE] + (DashTokens(se.dashed) + EntryTokens(se.e)))
  {
    hide Separated, DashTokens, EntryTokens;
    var dash, e := DashTokens(se.dashed), EntryTokens(se.e);
    DashSeparated(Whitespace, se.dashed);
    ValueSeparated(LastId(Whitespace, dash), se.e);
    SeparatedConcat(Whitespace, dash, e);
    MoreSeparated(prev, SPACE, dash + e);
  }

  lemma {:induction false} EntriesSeparated(prev: TokenID, es: seq<SEntry>)
    requires PlainEntries(es)
    ensures Separated(prev, EntriesTokens(es))
    decreases |es|
  {
    hide Separated;
    if es == [] {
      NothingSeparated(prev);
    } else {
      var first := [SPACE] + (DashTokens(es[0].dashed) + EntryTokens(es[0].e));
      EntrySeparated(prev, es[0]);
      EntriesSeparated(LastId(prev, first), es[1..]);
      SeparatedConcat(prev, first, EntriesTokens(es[1..]));
    }
  }

  lemma HeadSeparated(prev: TokenID, n: SNode, depth: nat, lay: Layout)
    requires Weak(prev)
    ensures Separated(prev, IndentTokens(depth, lay) + DashTokens(n.dashed) + TypeTokens(n.typ) + [NameTok(n.name)])
  {
    hide Separated, IndentTokens, DashTokens, TypeTokens, NameTok;
    var indent, dash, name := IndentTokens(depth, lay), DashTokens(n.dashed), TypeTokens(n.typ) + [NameTok(n.name)];
    var p1 := LastId(prev, indent);
    NoCommentTokens(Nothing, n.name);
    IndentSeparated(prev, depth, lay);
    DashSeparated(p1, n.dashed);
    TypedSeparated(LastId(p1, dash), n.typ, NameTok(n.name));
    SeparatedConcat(p1, dash, name);
    SeparatedConcat(prev, indent, dash + name);
    assert indent + dash + TypeTokens(n.typ) + [NameTok(n.name)] == indent + (dash + name);
  }

  lemma LastOfConcat(prev: TokenID, a: seq<Token>, b: seq<Token>)
    requires b != []
    ensures LastId(prev, a + b) == LastId(prev, b)
  {}

  lemma {:induction false} NodeSeparated(prev: TokenID, n: SNode, depth: nat, lay: Layout)
    requires Weak(prev) && PlainNode(n)
    ensures Separated(prev, NodeTokens(n, depth, lay)) && LastId(prev, NodeTokens(n, depth, lay)).Newline?
    decreases n, 1
  {
    hide Separated, IndentTokens, DashTokens, TypeTokens, NameTok, EntriesTokens, LastId, BlockTokens;
    var head := IndentTokens(depth, lay) + DashTokens(n.dashed) + TypeTokens(n.typ) + [NameTok(n.name)];
    var es, block := EntriesTokens(n.entries), BlockTokens(n, depth, lay);
    var p1 := LastId(prev, head);
    HeadSeparated(prev, n, depth, lay);
    EntriesSeparated(p1, n.entries);
    BlockSeparated(LastId(p1, es), n, depth, lay);
    BlockSeparated(prev, n, depth, lay);
    SeparatedConcat(p1, es, block);
    SeparatedConcat(prev, head, es + block);
    LastOfConcat(prev, head + es, block);
    assert head + (es + block) == (head + es) + block;
  }

  lemma {:induction false} BlockSeparated(prev: TokenID, n: SNode, depth: nat, lay: Layout)
    requires PlainNode(n)
    ensures Separated(prev, BlockTokens(n, depth, lay))
    ensures BlockTokens(n, depth, lay) != [] && LastId(prev, BlockTokens(n, depth, lay)).Newline?
    decreases n, 0
  {
    hide Separated, IndentTokens, NodesTokens;
    match n.block
    case NoBlock => LineSeparated(prev, lay);
    case Block(dashed, nodes) =>
      var open := [SPACE] + DashTokens(dashed) + [OPEN, NEWLINE];
      var close := IndentTokens(depth, lay) + [CLOSE, NEWLINE];
      var inside := NodesTokens(nodes, depth + 1, lay);
      OpenSeparated(prev, dashed);
      NodesSeparated(Newline, nodes, depth + 1, lay);
      CloseSeparated(LastId(Newline, inside), depth, lay);
      SeparatedConcat(Newline, inside, close);
      SeparatedConcat(prev, open, inside + close);
      assert open + inside + close == open + (inside + close);
  }

  lemma LineSeparated(prev: TokenID, lay: Layout)
    ensures Separated(prev, (if lay.semicolons then [SEMICOLON] else []) + [NEWLINE])
  {
    hide Separated;
    if lay.semicolons {
      OneSeparated(Semicolon, NEWLINE);
      MoreSeparated(prev, SEMICOLON, [NEWLINE]);
    } else {
      OneSeparated(prev, NEWLINE);
      assert [] + [NEWLINE] == [NEWLINE];
    }
  }

  lemma OpenSeparated(prev: TokenID, dashed: bool)
    ensures Separated(prev, [SPACE] + DashTokens(dashed) + [OPEN, NEWLINE])
  {
    hide Separated, DashTokens;
    var dash := DashTokens(dashed);
    var last := LastId(Whitespace, dash);
    DashSeparated(Whitespace, dashed);
    OneSeparated(BraceOpen, NEWLINE);
    MoreSeparated(last, OPEN, [NEWLINE]);
    SeparatedConcat(Whitespace, dash, [OPEN] + [NEWLINE]);
    MoreSeparated(prev, SPACE, dash + ([OPEN] + [NEWLINE]));
    assert [SPACE] + dash + [OPEN, NEWLINE] == [SPACE] + (dash + ([OPEN] + [NEWLINE]));
  }

  lemma CloseSeparated(prev: TokenID, depth: nat, lay: Layout)
    ensures Separated(prev, IndentTokens(depth, lay) + [CLOSE, NEWLINE])
  {
    hide Separated, IndentTokens;
    var indent := IndentTokens(depth, lay);
    IndentSeparated(prev, depth, lay);
    OneSeparated(BraceClose, NEWLINE);
    MoreSeparated(LastId(prev, indent), CLOSE, [NEWLINE]);
    SeparatedConcat(prev, indent, [CLOSE] + [NEWLINE]);
    assert [CLOSE] + [NEWLINE] == [CLOSE, NEWLINE];
  }

  lemma {:induction false} NodesSeparated(prev: TokenID, ns: seq<SNode>, depth: nat, lay: Layout)
    requires Weak(prev) && PlainNodes(ns)
    ensures Separated(prev, NodesTokens(ns, depth, lay)) && Weak(LastId(prev, NodesTokens(ns, depth, lay)))
    decreases ns, 2
  {
    hide Separated, NodeTokens;
    if ns == [] {
      NothingSeparated(prev);
    } else {
      var first := NodeTokens(ns[0], depth, lay);
      NodeSeparated(prev, ns[0], depth, lay);
      NodesSeparated(LastId(prev, first), ns[1..], depth, lay);
      SeparatedConcat(prev, first, NodesTokens(ns[1..], depth, lay));
    }
  }

  // ---------- The parser on printed documents ----------

  /** The end of the input, placed right after the last token. */
  function EndAfter(ts: seq<Token>): Token {
    if ts == [] then END
    else
      var last := ts[|ts| - 1];
      Token(EOF, [], last.line, last.column + |last.data|)
  }

  /** ParseAllContext: all tokens, then the end of the input. */
  function ParseAll(c: Context, ts: seq<Token>): ContextResult {
    var r := ParseTokens(c, ts);
    if !r.o.Ok? then r else Parse(r.c, EndAfter(ts))
  }

  lemma EndNeverReenters(c: Context, t: Token)
    requires Shape(c.s) && t.id.EOF?
    ensures !Parse(c, t).o.Reenter?
  {
    hide Step, Shape;
    StepShape(c.s, t);
  }

  lemma {:induction false} ParseSnoc(c: Context, ts: seq<Token>, t: Token)
    ensures ParseTokens(c, ts + [t]) == var r := ParseTokens(c, ts); if !r.o.Ok? then r else FeedContext(r.c, t)
    decreases |ts|
  {
    hide FeedContext;
    if ts == [] {
      assert [] + [t] == [t] && [t][1..] == [];
    } else {
      assert (ts + [t])[1..] == ts[1..] + [t];
      var r := FeedContext(c, ts[0]);
      if r.o.Ok? {
        ParseSnoc(r.c, ts[1..], t);
      }
    }
  }

  lemma {:induction false} UnplaceSnoc(ts: seq<Token>, t: Token)
    ensures UnplaceAll(ts + [t]) == UnplaceAll(ts) + [Unplace(t)]
    decreases |ts|
  {
    if ts == [] {
      assert [] + [t] == [t];
    } else {
      assert (ts + [t])[1..] == ts[1..] + [t];
      UnplaceSnoc(ts[1..], t);
    }
  }

  lemma {:induction false} ParseTokensShape(c: Context, ts: seq<Token>)
    requires Shape(c.s)
    ensures var r := ParseTokens(c, ts);
            Sound(r.o) && !r.o.Reenter? && (r.o.Ok? ==> Shape(r.c.s))
    decreases |ts|
  {
    hide Step, Shape;
    if ts != [] {
      StepShape(c.s, ts[0]);
      FeedShape(c.s, ts[0]);
      var r := FeedContext(c, ts[0]);
      if Parse(c, ts[0]).o.Reenter? {
        StepShape(Parse(c, ts[0]).c.s, ts[0]);
      }
      if r.o.Ok? {
        ParseTokensShape(r.c, ts[1..]);
      }
    }
  }

  lemma ParseAllIsSnoc(c: Context, ts: seq<Token>)
    requires Shape(c.s)
    ensures ParseAll(c, ts) == ParseTokens(c, ts + [EndAfter(ts)])
  {
    hide Parse, ParseTokens, Shape;
    ParseSnoc(c, ts, EndAfter(ts));
    ParseTokensShape(c, ts);
    if ParseTokens(c, ts).o.Ok? {
      EndNeverReenters(ParseTokens(c, ts).c, EndAfter(ts));
    }
  }

  /** Printed tokens standing anywhere, the end of the input last. */
  lemma PrintedTokens(v: Version, trees: seq<Tree>, lay: Layout, all: seq<Token>)
    requires forall t | t in trees :: WellFormed(t)
    requires UnplaceAll(all) == DocumentTokens(Source(trees), lay)
    ensures var p := ParseTokens(Context(Initial(v), NO_TOKEN), all); Returns(UnplaceResult(Result(p.c.s, p.o)), v, trees)
  {
    hide Separated, Run, Shape, Returns, WellFormed, ParseTokens;
    var ns := Source(trees);
    SourceMeaning(v.V2?, trees);
    NodesSeparated(Unknown, ns, 0, lay);
    EndSeparated(LastId(Unknown, NodesTokens(ns, 0, lay)));
    SeparatedConcat(Unknown, NodesTokens(ns, 0, lay), [END]);
    UnplacedSeparated(Unknown, all);
    InitialShape(v);
    ParseIsRun(Context(Initial(v), NO_TOKEN), all);
    UnplacedRun(Initial(v), all);
    PrintThenParse(v, trees, lay);
  }

  /**
    The parser, separation check, re-entry and final end of input included, on the tokens of a printed
    document standing anywhere: the round trip for both versions.
   */
  lemma ParsePrinted(v: Version, trees: seq<Tree>, lay: Layout, ts: seq<Token>)
    requires forall t | t in trees :: WellFormed(t)
    requires UnplaceAll(ts) == NodesTokens(Source(trees), 0, lay)
    ensures var p := ParseAll(Context(Initial(v), NO_TOKEN), ts); Returns(UnplaceResult(Result(p.c.s, p.o)), v, trees)
  {
    hide Run, Shape, Returns, WellFormed, ParseTokens, ParseAll;
    UnplaceSnoc(ts, EndAfter(ts));
    InitialShape(v);
    ParseAllIsSnoc(Context(Initial(v), NO_TOKEN), ts);
    PrintedTokens(v, trees, lay, ts + [EndAfter(ts)]);
  }

  lemma {:induction false} ParseConcat(c: Context, a: seq<Token>, b: seq<Token>)
    ensures ParseTokens(c, a + b) == var r := ParseTokens(c, a); if !r.o.Ok? then r else ParseTokens(r.c, b)
    decreases |a|
  {
    hide FeedContext;
    if a == [] {
      assert a + b == b;
    } else {
      assert (a + b)[1..] == a[1..] + b;
      var r := FeedContext(c, a[0]);
      if r.o.Ok? {
        ParseConcat(r.c, a[1..], b);
      }
    }
  }

  lemma EndSeparated(prev: TokenID)
    ensures Separated(prev, [END])
  {
    OneSeparated(prev, END);
  }

  // ---------- Cost ----------

  /** Handler calls a run makes: two for a token that is re-entered. */
  function Calls(s: PState, ts: seq<Token>): nat
    decreases |ts|
  {
    if ts == [] then 0
    else
      var r := Feed(s, ts[0]);
      (if Step(s, ts[0]).o.Reenter? then 2 else 1) + if r.o.Ok? then Calls(r.s, ts[1..]) else 0
  }

  function CountClose(ts: seq<Token>): nat {
    if ts == [] then 0 else (if ts[0].id.BraceClose? then 1 else 0) + CountClose(ts[1..])
  }

  /** Only closing braces are handled twice, so a run costs at most one call more per closing brace. */
  lemma {:induction false} CallsBound(s: PState, ts: seq<Token>)
    requires Shape(s)
    ensures Calls(s, ts) <= |ts| + CountClose(ts) <= 2 * |ts|
    decreases |ts|
  {
    hide Step, Shape;
    if ts != [] {
      StepShape(s, ts[0]);
      FeedShape(s, ts[0]);
      CountBound(ts[1..]);
      if Feed(s, ts[0]).o.Ok? {
        CallsBound(Feed(s, ts[0]).s, ts[1..]);
      }
    }
  }

  lemma {:induction false} CountBound(ts: seq<Token>)
    ensures CountClose(ts) <= |ts|
  {
    if ts != [] {
      CountBound(ts[1..]);
    }
  }
}
