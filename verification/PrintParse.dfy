/**
  The machine on printed documents.  Both versions accept exactly the documents Syntax.NodesOk
  describes, and then build exactly the erased trees.
 */
module PrintParse {
  import opened Wrappers
  import opened Utf8
  import opened Tokens
  import opened Document
  import opened Syntax
  import opened Machine
  import opened StackShape
  import opened Build
  import opened Numerals
  import Quoted
  import Multiline
  import Runes

  // ---------- Single tokens ----------

  /** No continuation is under way and no ignored block has just ended. */
  predicate Calm(f: Flags) { !f.continuation && !f.justContinuedLine && !f.afterIgnoredChildBlock }

  predicate Fails(r: Result) { !r.o.Ok? }

  function After(r: Result, ts: seq<Token>): Result { if r.o.Ok? then Run(r.s, ts) else r }

  lemma CalmStep(s: PState, t: Token)
    requires Calm(s.f)
    ensures Step(s, t) == Handle(s, t)
  {
    hide Handle;
    assert s.f.(justContinuedLine := false) == s.f;
  }

  /** The first token of a run, when nothing interferes with its handler. */
  lemma First(s: PState, t: Token, ts: seq<Token>)
    requires Calm(s.f) && !Handle(s, t).o.Reenter?
    ensures Run(s, [t] + ts) == After(Handle(s, t), ts)
  {
    hide Handle, Step;
    CalmStep(s, t);
    assert ([t] + ts)[1..] == ts;
  }

  // ---------- Reading values back ----------

  lemma NotMultiline(s: Bytes)
    ensures !Multiline.IsMultilineToken(Quoted.Quote(s, Quoted.QUOTE))
  {
    var q := Quoted.Quote(s, Quoted.QUOTE);
    if s != [] {
      assert q[1] == Quoted.EscapeFirst(s, Quoted.QUOTE)[0] != Quoted.QUOTE by { EscapeStart(s); }
    }
    assert Multiline.HashRun(q) == 0 && q[0..] == q;
    assert Multiline.TRIPLE[1] == Quoted.QUOTE;
  }

  lemma EscapeStart(s: Bytes)
    requires s != []
    ensures var e := Quoted.EscapeFirst(s, Quoted.QUOTE); e != [] && e[0] != Quoted.QUOTE
  {}

  lemma QuotedReads(s: Bytes)
    ensures ValueFromToken(Tok(QuotedString, Quoted.Quote(s, Quoted.QUOTE)))
         == if Quoted.Quotable(s) then Some(Str(s)) else None
  {
    NotMultiline(s);
    Quoted.QuoteRoundTrip(s);
    hide Multiline.IsMultilineToken, Quoted.Unquote, Quoted.Quotable, Quoted.EscapeAll;
    assert Quoted.Quote(s, Quoted.QUOTE)[0] == Quoted.QUOTE;
  }

  lemma ValueReads(v: Value)
    requires Plain(v)
    ensures ValueFromToken(ValTok(v)) == if ValueOk(v) then Some(v) else None
    ensures NonString(ValTok(v).id) || ValTok(v).id.QuotedString?
    ensures !ValTok(v).id.SuffixedDecimal?
  {
    hide Quoted.Quotable, Quoted.Quote;
    if v.Str? {
      QuotedReads(v.s);
    } else if v.Bool? {
      assert FALSE[0] != TRUE[0] && FALSE[0] != Ascii("#true")[0];
    }
  }

  lemma NameReads(s: Bytes)
    ensures Identifier(NameTok(s).id) ==> ValueFromToken(NameTok(s)) == if NameOk(s) then Some(Str(s)) else None
    ensures Identifier(NameTok(s).id) <==> KeyTokenOk(s)
    ensures var id := NameTok(s).id; id.BareIdentifier? || id.QuotedString? || id.Boolean? || id.Null? || id.Decimal?
    ensures !KeyTokenOk(s) ==> !NameOk(s)
  {
    hide Quoted.Quotable, Quoted.Quote, IsNumber;
    QuotedReads(s);
  }

  // ---------- Forms of the context inside a node ----------

  function Quiet(k: nat): Flags { NO_FLAGS.(ignoreChildren := k) }

  /** Between nodes: nothing pending. */
  predicate Ready(s: PState) {
    && s.f == Quiet(s.f.ignoreChildren) && s.ident == NO_TOKEN && s.typeAnnot == NO_TOKEN
    && Outer(s.state) && (s.state.InDocument? ==> s.f.ignoreChildren == 0)
  }

  function TypeToken(typ: Bytes): Token { if typ == [] then NO_TOKEN else TypeTok(typ) }

  /** An argument that has been read but not added yet. */
  datatype Pend = NoPend | Pend(dashed: bool, typ: Bytes, v: Value)

  predicate PendPlain(p: Pend) { p.Pend? ==> Plain(p.v) }

  /** Inside a node begun in s, in state st, with the nodes h. */
  function At(s: PState, st: State, h: Heap): PState {
    s.(states := s.states + [s.state], state := st, heap := h)
  }

  /** After the name or an entry. */
  function Form(s: PState, h: Heap, p: Pend): PState {
    match p
    case NoPend => At(s, InNode, h)
    case Pend(dashed, typ, v) =>
      IgnoreEntry(At(s, InArgProp, h), dashed).(ident := ValTok(v), typeAnnot := TypeToken(typ))
  }

  /** Before an entry, after its slashdash if there is one. */
  function Params(s: PState, h: Heap, dashed: bool): PState {
    IgnoreEntry(At(s, InNodeParams, h), dashed)
  }

  /** The pending argument added. */
  function Settle(h: Heap, p: Pend): Option<Heap>
    requires h.TopValid()
  {
    match p
    case NoPend => Some(h)
    case Pend(dashed, typ, v) =>
      if dashed then Some(h)
      else if !ValueOk(v) then None
      else
        var r := h.store[h.Top()];
        Some(h.Write(r.(args := r.args + [TValue(typ, v)])))
  }

  lemma CommitForm(s: PState, h: Heap, p: Pend)
    requires Ready(s) && h.TopValid() && p.Pend? && Plain(p.v)
    ensures var r := CommitArgument(Form(s, h, p));
            match Settle(h, p)
            case None => r.o == Fail(BadValue)
            case Some(h') => r == Done(At(s, InArgProp, h'))
  {
    hide ValueFromToken, ValTok, ValueOk, Plain;
    ValueReads(p.v);
    assert s.f.(ignoreNextArgProp := false) == s.f;
  }

  // ---------- Type annotations ----------

  lemma TypeStage(s: PState, typ: Bytes, ts: seq<Token>)
    requires AnnotParent(s.state) && Calm(s.f) && s.typeAnnot == NO_TOKEN
    ensures Run(s, TypeTokens(typ) + ts) == Run(s.(typeAnnot := TypeToken(typ)), ts)
  {
    if typ == [] {
      assert [] + ts == ts;
      assert s.(typeAnnot := NO_TOKEN) == s;
    } else {
      var rest := [TypeTok(typ)] + ([RPAREN] + ts);
      assert TypeTokens(typ) + ts == [LPAREN] + rest;
      var s1 := PushState(s, InTypeAnnot);
      var s2 := s1.(typeAnnot := TypeTok(typ), state := InTypeDone);
      AnnotTokens(s, typ);
      hide Handle;
      First(s, LPAREN, rest);
      First(s1, TypeTok(typ), [RPAREN] + ts);
      First(s2, RPAREN, ts);
    }
  }

  lemma AnnotTokens(s: PState, typ: Bytes)
    requires AnnotParent(s.state) && typ != []
    ensures var s1 := PushState(s, InTypeAnnot);
            && Handle(s, LPAREN) == Done(s1)
            && Handle(s1, TypeTok(typ)) == Done(s1.(typeAnnot := TypeTok(typ), state := InTypeDone))
            && Handle(s1.(typeAnnot := TypeTok(typ), state := InTypeDone), RPAREN) == Done(s.(typeAnnot := TypeTok(typ)))
  {
    assert (s.states + [s.state])[..|s.states|] == s.states;
  }

  // ---------- The space between entries ----------

  /** Whether the pending argument stays pending across a space: version 2 waits for the next token. */
  predicate Waits(s: PState, p: Pend, dashed: bool) { IsV2(s) && p.Pend? && !dashed }

  lemma SpaceStage(s: PState, h: Heap, p: Pend, ts: seq<Token>)
    requires Ready(s) && h.TopValid() && PendPlain(p)
    ensures var r := Run(Form(s, h, p), [SPACE] + ts);
            if IsV2(s) && p.Pend? then r == Run(Form(s, h, p), ts)
            else if Settle(h, p).None? then Fails(r)
            else r == Run(Params(s, Settle(h, p).value, false), ts)
  {
    hide Settle, ValTok, CommitArgument;
    var s0 := Form(s, h, p);
    if p.Pend? {
      CommitForm(s, h, p);
      SpaceInArgProp(s0);
    } else {
      assert Handle(s0, SPACE) == Done(s0.(state := InNodeParams));
      SettleNothing(h);
    }
    First(s0, SPACE, ts);
    assert s.f.(ignoreNextArgProp := false) == s.f;
  }

  lemma SettleNothing(h: Heap)
    requires h.TopValid()
    ensures Settle(h, NoPend) == Some(h)
  {}

  lemma SpaceInArgProp(s: PState)
    requires s.state.InArgProp?
    ensures var c := CommitArgument(s);
            Handle(s, SPACE) == if IsV2(s) then Done(s)
                                else if !c.o.Ok? then c else Done(c.s.(state := InNodeParams))
  {
    hide CommitArgument;
  }

  lemma DashInArgProp(s: PState)
    requires s.state.InArgProp? && s.ident.Valid()
    ensures var c := CommitArgument(s);
            Handle(s, SLASHDASH)
            == if !c.o.Ok? then c
               else Done(MarkIgnoreFromContinuation(IgnoreEntry(c.s, true)).(state := InNodeParams))
  {
    hide ValueFromToken;
  }

  /** A space, and then possibly a slashdash. */
  lemma Gap(s: PState, h: Heap, p: Pend, dashed: bool, ts: seq<Token>)
    requires Ready(s) && h.TopValid() && PendPlain(p)
    ensures var r := Run(Form(s, h, p), [SPACE] + (DashTokens(dashed) + ts));
            if Waits(s, p, dashed) then r == Run(Form(s, h, p), ts)
            else if Settle(h, p).None? then Fails(r)
            else r == Run(Params(s, Settle(h, p).value, dashed), ts)
  {
    hide Settle, Run;
    SpaceStage(s, h, p, DashTokens(dashed) + ts);
    if !dashed {
      assert [] + ts == ts;
    } else if IsV2(s) && p.Pend? {
      DashPending(s, h, p, ts);
    } else if Settle(h, p).Some? {
      DashParams(s, Settle(h, p).value, ts);
    }
  }

  lemma DashParams(s: PState, h: Heap, ts: seq<Token>)
    requires Ready(s)
    ensures Run(Params(s, h, false), [SLASHDASH] + ts) == Run(Params(s, h, true), ts)
  {
    var s0 := Params(s, h, false);
    assert Handle(s0, SLASHDASH) == Done(Params(s, h, true));
    First(s0, SLASHDASH, ts);
  }

  lemma DashPending(s: PState, h: Heap, p: Pend, ts: seq<Token>)
    requires Ready(s) && h.TopValid() && p.Pend? && Plain(p.v)
    ensures var r := Run(Form(s, h, p), [SLASHDASH] + ts);
            if Settle(h, p).None? then Fails(r) else r == Run(Params(s, Settle(h, p).value, true), ts)
  {
    hide Settle, CommitArgument, ValTok, Plain;
    var s0 := Form(s, h, p);
    PendValid(p);
    CommitForm(s, h, p);
    DashInArgProp(s0);
    First(s0, SLASHDASH, ts);
    if Settle(h, p).Some? {
      assert Handle(s0, SLASHDASH) == Done(Params(s, Settle(h, p).value, true));
    }
  }

  lemma PendValid(p: Pend)
    requires p.Pend? && Plain(p.v)
    ensures ValTok(p.v).Valid()
  {
    hide Quoted.Quote;
  }

  // ---------- Arguments ----------

  lemma ArgStage(s: PState, h: Heap, dashed: bool, v: TValue, ts: seq<Token>)
    requires Ready(s) && Plain(v.value)
    ensures Run(Params(s, h, dashed), EntryTokens(Arg(v)) + ts) == Run(Form(s, h, Pend(dashed, v.typ, v.value)), ts)
  {
    var s0 := Params(s, h, dashed);
    var t := ValTok(v.value);
    assert EntryTokens(Arg(v)) + ts == TypeTokens(v.typ) + ([t] + ts);
    TypeStage(s0, v.typ, [t] + ts);
    var s1 := s0.(typeAnnot := TypeToken(v.typ));
    ValueReads(v.value);
    hide ValTok, Plain, Handle, TypeTokens;
    EntryInParams(s1, t);
    First(s1, t, ts);
  }

  lemma EntryInParams(s: PState, t: Token)
    requires s.state.InNodeParams? && (Identifier(t.id) || (NonString(t.id) && !t.id.SuffixedDecimal?))
    ensures Handle(s, t) == Done(s.(ident := t, state := if t.id.BareIdentifier? && !IsV2(s) then InProperty else InArgProp))
  {}

  /** Version 2: an argument right after another; the one that was pending is added. */
  lemma NextArg(s: PState, h: Heap, p: Pend, v: TValue, ts: seq<Token>)
    requires Ready(s) && h.TopValid() && p.Pend? && Plain(p.v) && Plain(v.value)
    ensures var r := Run(Form(s, h, p), EntryTokens(Arg(v)) + ts);
            if v.typ != [] || Settle(h, p).None? then Fails(r)
            else r == Run(Form(s, Settle(h, p).value, Pend(false, [], v.value)), ts)
  {
    var s0 := Form(s, h, p);
    var t := ValTok(v.value);
    if v.typ != [] {
      TypedNextArg(s, h, p, v, ts);
    } else {
      assert EntryTokens(Arg(v)) + ts == [t] + ts;
      ValueReads(v.value);
      CommitForm(s, h, p);
      hide ValTok, Plain, CommitArgument, Settle, Handle, EntryTokens;
      ValueInArgProp(s0, t);
      First(s0, t, ts);
    }
  }

  /** There is no handler for an annotation while an argument is pending. */
  lemma TypedNextArg(s: PState, h: Heap, p: Pend, v: TValue, ts: seq<Token>)
    requires Ready(s) && p.Pend? && v.typ != []
    ensures Fails(Run(Form(s, h, p), EntryTokens(Arg(v)) + ts))
  {
    hide ValTok;
    var s0 := Form(s, h, p);
    var rest := [TypeTok(v.typ), RPAREN] + [ValTok(v.value)] + ts;
    assert EntryTokens(Arg(v)) + ts == [LPAREN] + rest;
    assert Handle(s0, LPAREN) == Reject(s0);
    First(s0, LPAREN, rest);
  }

  lemma ValueInArgProp(s: PState, t: Token)
    requires s.state.InArgProp? && ValueToken(t.id)
    ensures var c := CommitArgument(s);
            Handle(s, t) == if !c.o.Ok? then c else Done(c.s.(ident := t))
  {
    hide CommitArgument;
  }

  // ---------- Properties ----------

  /** After the equals sign. */
  function ValueForm(s: PState, h: Heap, dashed: bool, key: Bytes): PState {
    IgnoreEntry(At(s, InPropertyValue, h), dashed).(ident := NameTok(key))
  }

  function AddProp(h: Heap, dashed: bool, key: Bytes, v: TValue): Option<Heap>
    requires h.TopValid()
  {
    if dashed then Some(h)
    else if !NameOk(key) || !ValueOk(v.value) then None
    else
      var r := h.store[h.Top()];
      Some(h.Write(r.(properties := r.properties.Add(key, v))))
  }

  lemma PropValueStage(s: PState, h: Heap, dashed: bool, key: Bytes, v: TValue, ts: seq<Token>)
    requires Ready(s) && h.TopValid() && Plain(v.value) && KeyTokenOk(key)
    ensures var r := Run(ValueForm(s, h, dashed, key), TypeTokens(v.typ) + [ValTok(v.value)] + ts);
            match AddProp(h, dashed, key, v)
            case None => Fails(r)
            case Some(h') => r == Run(Form(s, h', NoPend), ts)
  {
    var s0 := ValueForm(s, h, dashed, key);
    var t := ValTok(v.value);
    assert TypeTokens(v.typ) + [t] + ts == TypeTokens(v.typ) + ([t] + ts);
    TypeStage(s0, v.typ, [t] + ts);
    var s1 := s0.(typeAnnot := TypeToken(v.typ));
    PropertyAdded(s, h, dashed, key, v);
    First(s1, t, ts);
  }

  lemma PropertyAdded(s: PState, h: Heap, dashed: bool, key: Bytes, v: TValue)
    requires Ready(s) && h.TopValid() && Plain(v.value) && KeyTokenOk(key)
    ensures var r := Handle(ValueForm(s, h, dashed, key).(typeAnnot := TypeToken(v.typ)), ValTok(v.value));
            match AddProp(h, dashed, key, v)
            case None => r.o == Fail(BadValue)
            case Some(h') => r == Done(Form(s, h', NoPend))
  {
    var s1 := ValueForm(s, h, dashed, key).(typeAnnot := TypeToken(v.typ));
    ValueReads(v.value);
    NameReads(key);
    hide ValueFromToken, ValTok, Plain, NameTok, NameOk, ValueOk, KeyTokenOk, Handle;
    ValueInProperty(s1, ValTok(v.value));
    assert TypeText(TypeToken(v.typ)) == v.typ;
    assert s.f.(ignoreNextArgProp := false) == s.f;
  }

  lemma ValueInProperty(s: PState, t: Token)
    requires s.state.InPropertyValue? && ValueToken(t.id)
    ensures var r := if s.f.ignoreNextArgProp then Done(IgnoreEntry(s, false))
                     else AddProperty(s, s.ident, t, s.typeAnnot);
            Handle(s, t) == if !r.o.Ok? then r else Done(ClearPending(r.s).(state := InNode))
  {
    hide AddProperty;
  }

  /** From the key on, wherever the key was read. */
  lemma EqualsStage(s: PState, h: Heap, dashed: bool, st: State, key: Bytes, ts: seq<Token>)
    requires Ready(s) && (st.InArgProp? || (st.InProperty? && NameTok(key).id.BareIdentifier?))
    ensures var r := Run(IgnoreEntry(At(s, st, h), dashed).(ident := NameTok(key)), [EQUALS] + ts);
            if KeyTokenOk(key) then r == Run(ValueForm(s, h, dashed, key), ts) else Fails(r)
  {
    var s0 := IgnoreEntry(At(s, st, h), dashed).(ident := NameTok(key));
    NameReads(key);
    hide NameTok, KeyTokenOk;
    First(s0, EQUALS, ts);
  }

  lemma PropStage(s: PState, h: Heap, dashed: bool, key: Bytes, v: TValue, ts: seq<Token>)
    requires Ready(s) && h.TopValid() && Plain(v.value)
    ensures var r := Run(Params(s, h, dashed), EntryTokens(Prop(key, v)) + ts);
            if !KeyTokenOk(key) || AddProp(h, dashed, key, v).None? then Fails(r)
            else r == Run(Form(s, AddProp(h, dashed, key, v).value, NoPend), ts)
  {
    var s0 := Params(s, h, dashed);
    var t := NameTok(key);
    var tail := TypeTokens(v.typ) + [ValTok(v.value)] + ts;
    assert EntryTokens(Prop(key, v)) + ts == [t] + ([EQUALS] + tail);
    NameReads(key);
    var st := if t.id.BareIdentifier? && !IsV2(s) then InProperty else InArgProp;
    hide NameTok, AddProp, ValTok, Plain, TypeTokens, Handle, KeyTokenOk;
    EntryInParams(s0, t);
    First(s0, t, [EQUALS] + tail);
    EqualsStage(s, h, dashed, st, key, tail);
    if KeyTokenOk(key) {
      PropValueStage(s, h, dashed, key, v, ts);
    }
  }

  /** Version 2: a property right after an argument that was pending. */
  lemma NextProp(s: PState, h: Heap, p: Pend, key: Bytes, v: TValue, ts: seq<Token>)
    requires Ready(s) && h.TopValid() && p.Pend? && Plain(p.v) && Plain(v.value)
    ensures var r, h1 := Run(Form(s, h, p), EntryTokens(Prop(key, v)) + ts), Settle(h, p);
            if h1.None? || !KeyTokenOk(key) || AddProp(h1.value, false, key, v).None? then Fails(r)
            else r == Run(Form(s, AddProp(h1.value, false, key, v).value, NoPend), ts)
  {
    var s0 := Form(s, h, p);
    var t := NameTok(key);
    var tail := TypeTokens(v.typ) + [ValTok(v.value)] + ts;
    assert EntryTokens(Prop(key, v)) + ts == [t] + ([EQUALS] + tail);
    NameReads(key);
    CommitForm(s, h, p);
    var h1 := Settle(h, p);
    SettleValid(h, p);
    hide NameTok, AddProp, ValTok, Plain, TypeTokens, CommitArgument, Settle;
    ValueInArgProp(s0, t);
    First(s0, t, [EQUALS] + tail);
    if h1.Some? {
      assert s.f.(ignoreNextArgProp := false) == s.f;
      EqualsStage(s, h1.value, false, InArgProp, key, tail);
      if KeyTokenOk(key) {
        PropValueStage(s, h1.value, false, key, v, ts);
      }
    }
  }

  lemma SettleValid(h: Heap, p: Pend)
    requires h.TopValid()
    ensures match Settle(h, p)
            case None => true
            case Some(h') => h'.TopValid() && h'.stack == h.stack && |h'.store| == |h.store|
  {}

  // ---------- Entries ----------

  /** The nodes and the pending argument after one more entry; None when the entry is not accepted. */
  function NextEntry(v2: bool, h: Heap, p: Pend, se: SEntry): (r: Option<(Heap, Pend)>)
    requires h.TopValid()
    ensures r.Some? ==> r.value.0.TopValid() && r.value.0.stack == h.stack && |r.value.0.store| == |h.store|
  {
    match se.e
    case Arg(v) =>
      if v2 && p.Pend? && !se.dashed && v.typ != [] then None
      else
        var h1 := Settle(h, p);
        if h1.None? then None else Some((h1.value, Pend(se.dashed, v.typ, v.value)))
    case Prop(key, v) =>
      var h1 := Settle(h, p);
      if h1.None? || !KeyTokenOk(key) then None
      else
        var h2 := AddProp(h1.value, se.dashed, key, v);
        if h2.None? then None else Some((h2.value, NoPend))
  }

  lemma EntryStage(s: PState, h: Heap, p: Pend, se: SEntry, ts: seq<Token>)
    requires Ready(s) && h.TopValid() && PendPlain(p) && Plain(se.e.v.value)
    ensures var r := Run(Form(s, h, p), [SPACE] + (DashTokens(se.dashed) + EntryTokens(se.e)) + ts);
            match NextEntry(IsV2(s), h, p, se)
            case None => Fails(r)
            case Some(next) => r == Run(Form(s, next.0, next.1), ts)
  {
    hide Settle, AddProp, Run, EntryTokens, Plain, KeyTokenOk;
    var e := EntryTokens(se.e) + ts;
    assert [SPACE] + (DashTokens(se.dashed) + EntryTokens(se.e)) + ts == [SPACE] + (DashTokens(se.dashed) + e);
    Gap(s, h, p, se.dashed, e);
    SettleValid(h, p);
    if Waits(s, p, se.dashed) {
      match se.e
      case Arg(v) => NextArg(s, h, p, v, ts);
      case Prop(key, v) => NextProp(s, h, p, key, v, ts);
    } else if Settle(h, p).Some? {
      match se.e
      case Arg(v) => ArgStage(s, Settle(h, p).value, se.dashed, v, ts);
      case Prop(key, v) => PropStage(s, Settle(h, p).value, se.dashed, key, v, ts);
    }
  }

  function FoldEntries(v2: bool, h: Heap, p: Pend, es: seq<SEntry>): (r: Option<(Heap, Pend)>)
    requires h.TopValid()
    ensures r.Some? ==> r.value.0.TopValid() && r.value.0.stack == h.stack && |r.value.0.store| == |h.store|
    decreases |es|
  {
    if es == [] then Some((h, p))
    else
      var next := NextEntry(v2, h, p, es[0]);
      if next.None? then None else FoldEntries(v2, next.value.0, next.value.1, es[1..])
  }

  lemma NextPlain(v2: bool, h: Heap, p: Pend, se: SEntry)
    requires h.TopValid() && Plain(se.e.v.value)
    ensures NextEntry(v2, h, p, se).Some? ==> PendPlain(NextEntry(v2, h, p, se).value.1)
  {}

  lemma {:induction false} EntriesStage(s: PState, h: Heap, p: Pend, es: seq<SEntry>, ts: seq<Token>)
    requires Ready(s) && h.TopValid() && PendPlain(p) && PlainEntries(es)
    ensures var r := Run(Form(s, h, p), EntriesTokens(es) + ts);
            match FoldEntries(IsV2(s), h, p, es)
            case None => Fails(r)
            case Some(q) => PendPlain(q.1) && r == Run(Form(s, q.0, q.1), ts)
    decreases |es|
  {
    hide NextEntry, Form, Ready, PendPlain, EntryTokens, Run, Plain, DashTokens;
    if es == [] {
      assert [] + ts == ts;
    } else {
      var tail := EntriesTokens(es[1..]) + ts;
      assert EntriesTokens(es) + ts == [SPACE] + (DashTokens(es[0].dashed) + EntryTokens(es[0].e)) + tail;
      EntryStage(s, h, p, es[0], tail);
      NextPlain(IsV2(s), h, p, es[0]);
      var next := NextEntry(IsV2(s), h, p, es[0]);
      if next.Some? {
        EntriesStage(s, next.value.0, next.value.1, es[1..], ts);
      }
    }
  }

  lemma WriteWrite(h: Heap, r: Rec, r': Rec)
    requires h.TopValid()
    ensures h.Write(r).Write(r') == h.Write(r') && h.Write(h.store[h.Top()]) == h
  {}

  /** Once the last argument is added, accepted entries have been applied in order to the node's record. */
  lemma {:induction false} FoldMeaning(v2: bool, h: Heap, p: Pend, es: seq<SEntry>)
    requires h.TopValid()
    ensures var q := FoldEntries(v2, h, p, es);
            (if q.None? then None else Settle(q.value.0, q.value.1))
            == if Settle(h, p).Some? && EntriesOk(v2, p.Pend?, es) then Some(WithEntries(Settle(h, p).value, es)) else None
    decreases |es|
  {
    hide NextEntry, Settle, EntryOk, ApplyEntry;
    SettleValid(h, p);
    if es == [] {
      if Settle(h, p).Some? {
        var h1 := Settle(h, p).value;
        WriteWrite(h1, h1.store[h1.Top()], h1.store[h1.Top()]);
      }
    } else {
      var next := NextEntry(v2, h, p, es[0]);
      NextMeaning(v2, h, p, es[0]);
      if next.Some? {
        FoldMeaning(v2, next.value.0, next.value.1, es[1..]);
        if Settle(h, p).Some? && Settle(next.value.0, next.value.1).Some? {
          var h1 := Settle(h, p).value;
          var r := ApplyEntry(h1.store[h1.Top()], es[0]);
          WriteWrite(h1, r, ApplyEntries(r, es[1..]));
        }
      }
    }
  }

  lemma NextMeaning(v2: bool, h: Heap, p: Pend, se: SEntry)
    requires h.TopValid()
    ensures var next := NextEntry(v2, h, p, se);
            && (next.Some? ==> next.value.1.Pend? == se.e.Arg?)
            && (if next.None? then None else Settle(next.value.0, next.value.1))
               == if Settle(h, p).Some? && EntryOk(v2, p.Pend?, se)
                  then (var h1 := Settle(h, p).value; Some(h1.Write(ApplyEntry(h1.store[h1.Top()], se))))
                  else None
  {
    SettleValid(h, p);
    if Settle(h, p).Some? {
      var h1 := Settle(h, p).value;
      WriteWrite(h1, h1.store[h1.Top()], h1.store[h1.Top()]);
    }
    hide ValueOk, NameOk, KeyTokenOk;
    if se.e.Prop? {
      NameReads(se.e.key);
    }
  }

  // ---------- Node names ----------

  lemma IndentStage(s: PState, depth: nat, lay: Layout, ts: seq<Token>)
    requires Ready(s)
    ensures Run(s, IndentTokens(depth, lay) + ts) == Run(s, ts)
  {
    if depth > 0 && lay.indent != [] {
      var t := Tok(Whitespace, Repeat(lay.indent, depth));
      assert Handle(s, t) == Done(s);
      First(s, t, ts);
    } else {
      assert [] + ts == ts;
    }
  }

  lemma DashNode(s: PState, dashed: bool, ts: seq<Token>)
    requires Ready(s)
    ensures Run(s, DashTokens(dashed) + ts) == Run(IgnoreNode(s, dashed), ts)
  {
    if dashed {
      assert Handle(s, SLASHDASH) == Done(IgnoreNode(s, true));
      First(s, SLASHDASH, ts);
    } else {
      assert [] + ts == ts;
      assert s.f.(ignoreNextNode := false) == s.f;
    }
  }

  lemma NameStage(s: PState, n: SNode, ts: seq<Token>)
    requires Ready(s) && StackOk(s.heap)
    ensures var r := Run(IgnoreNode(s, n.dashed).(typeAnnot := TypeToken(n.typ)), [NameTok(n.name)] + ts);
            if NameOk(n.name) then r == Run(Form(s, Open(s.heap, n, s.f.ignoreChildren > 0), NoPend), ts)
            else Fails(r)
  {
    var s0 := IgnoreNode(s, n.dashed).(typeAnnot := TypeToken(n.typ));
    var t := NameTok(n.name);
    var detached := n.dashed || s.f.ignoreChildren > 0;
    NameReads(n.name);
    NameNeverReenters(s0, t, detached);
    NameHeap(s.heap);
    hide ValueFromToken, NameTok, NameOk, KeyTokenOk, StackOk;
    NameInOuter(s0, t, detached);
    First(s0, t, ts);
    if NameOk(n.name) {
      NamedRec(s.heap, detached);
      assert s.f.(ignoreNextNode := false) == s.f;
      assert NodeName(s0, t, detached) == Done(Form(s, Open(s.heap, n, s.f.ignoreChildren > 0), NoPend));
    }
  }

  lemma NamedRec(h: Heap, detached: bool)
    requires StackOk(h)
    ensures (if detached then h.Create() else h.Add()).TopValid()
    ensures var h1 := if detached then h.Create() else h.Add(); h1.store[h1.Top()] == BLANK
  {}

  lemma NameInOuter(s: PState, t: Token, detached: bool)
    requires Outer(s.state) && detached == (s.f.ignoreNextNode || s.f.ignoreChildren > 0)
    requires s.state.InDocument? ==> s.f.ignoreChildren == 0
    ensures Identifier(t.id) ==> Handle(s, t) == NodeName(s, t, detached)
    ensures t.id.Boolean? || t.id.Null? || t.id.Decimal? ==> Handle(s, t) == Reject(s)
  {
    hide NodeName;
  }

  /** From the indentation to the name. */
  lemma HeadStage(s: PState, n: SNode, depth: nat, lay: Layout, ts: seq<Token>)
    requires Ready(s) && StackOk(s.heap)
    ensures var r := Run(s, IndentTokens(depth, lay) + DashTokens(n.dashed) + TypeTokens(n.typ) + [NameTok(n.name)] + ts);
            if NameOk(n.name) then r == Run(Form(s, Open(s.heap, n, s.f.ignoreChildren > 0), NoPend), ts)
            else Fails(r)
  {
    hide Run, IndentTokens, DashTokens, TypeTokens, NameTok, Open;
    var t3 := [NameTok(n.name)] + ts;
    var t2 := TypeTokens(n.typ) + t3;
    var t1 := DashTokens(n.dashed) + t2;
    assert IndentTokens(depth, lay) + DashTokens(n.dashed) + TypeTokens(n.typ) + [NameTok(n.name)] + ts
        == IndentTokens(depth, lay) + t1;
    IndentStage(s, depth, lay, t1);
    DashNode(s, n.dashed, t2);
    TypeStage(IgnoreNode(s, n.dashed), n.typ, t3);
    NameStage(s, n, ts);
  }

  // ---------- Node ends ----------

  lemma EndOfLine(s: PState, h: Heap, p: Pend, t: Token, ts: seq<Token>)
    requires Ready(s) && h.TopValid() && PendPlain(p) && (t == SEMICOLON || t == NEWLINE)
    ensures var r := Run(Form(s, h, p), [t] + ts);
            match Settle(h, p)
            case None => Fails(r)
            case Some(h') => h'.stack == h.stack && r == Run(s.(heap := h'.Pop()), ts)
  {
    var s0 := Form(s, h, p);
    SettleValid(h, p);
    PopsBack(s, h);
    if p.Pend? {
      CommitForm(s, h, p);
      PendValid(p);
      hide CommitArgument, Settle, ValTok;
      TerminatorInArgProp(s0, t);
      if Settle(h, p).Some? {
        PopsBack(s, Settle(h, p).value);
      }
      First(s0, t, ts);
    } else {
      assert Handle(s0, t) == PopNodeAndState(s0);
      First(s0, t, ts);
    }
  }

  lemma TerminatorInArgProp(s: PState, t: Token)
    requires s.state.InArgProp? && Terminator(t.id) && !s.f.continuation
    ensures var c := CommitPending(s);
            Handle(s, t) == if !c.o.Ok? then c else PopNodeAndState(c.s)
  {
    hide CommitArgument;
  }

  lemma PopsBack(s: PState, h: Heap)
    requires h.stack != []
    ensures forall st :: PopNodeAndState(At(s, st, h)) == Done(s.(heap := h.Pop()))
  {
    assert (s.states + [s.state])[..|s.states|] == s.states;
  }

  lemma LineStage(s: PState, h: Heap, p: Pend, semicolons: bool, ts: seq<Token>)
    requires Ready(s) && h.TopValid() && PendPlain(p)
    ensures var r := Run(Form(s, h, p), (if semicolons then [SEMICOLON] else []) + [NEWLINE] + ts);
            match Settle(h, p)
            case None => Fails(r)
            case Some(h') => h'.stack == h.stack && r == Run(s.(heap := h'.Pop()), ts)
  {
    hide Settle, Form, Run, Ready;
    if semicolons {
      assert [SEMICOLON] + [NEWLINE] + ts == [SEMICOLON] + ([NEWLINE] + ts);
      EndOfLine(s, h, p, SEMICOLON, [NEWLINE] + ts);
      if Settle(h, p).Some? {
        BlankLine(s, Settle(h, p).value.Pop(), ts);
      }
    } else {
      assert [] + [NEWLINE] + ts == [NEWLINE] + ts;
      EndOfLine(s, h, p, NEWLINE, ts);
    }
  }

  lemma BlankLine(s: PState, h: Heap, ts: seq<Token>)
    requires Ready(s)
    ensures Run(s.(heap := h), [NEWLINE] + ts) == Run(s.(heap := h), ts)
  {
    var s0 := s.(heap := h);
    assert Handle(s0, NEWLINE) == Done(s0);
    First(s0, NEWLINE, ts);
  }

  // ---------- Child blocks ----------

  /** How many ignored blocks are open inside the block. */
  function Ignored(k: nat, dashed: bool): nat { if dashed || k > 0 then k + 1 else k }

  /** Inside the block, at its start. */
  function Inner(s: PState, h: Heap, st: State, dashed: bool): PState {
    PushState(At(s, st, h), InChildren).(f := Quiet(Ignored(s.f.ignoreChildren, dashed)))
  }

  lemma OpenStage(s: PState, h: Heap, p: Pend, dashed: bool, ts: seq<Token>) returns (st: State)
    requires Ready(s) && h.TopValid() && PendPlain(p)
    ensures st.InNodeParams? || st.InArgProp?
    ensures var r := Run(Form(s, h, p), [SPACE] + (DashTokens(dashed) + ([OPEN, NEWLINE] + ts)));
            match Settle(h, p)
            case None => Fails(r)
            case Some(h') => r == Run(Inner(s, h', st, dashed), ts)
  {
    hide Settle, Run;
    var rest := [NEWLINE] + ts;
    assert [OPEN, NEWLINE] + ts == [OPEN] + rest;
    Gap(s, h, p, dashed, [OPEN] + rest);
    SettleValid(h, p);
    if Waits(s, p, dashed) {
      st := InArgProp;
      OpenPending(s, h, p, rest);
    } else {
      st := InNodeParams;
      if Settle(h, p).Some? {
        OpenParams(s, Settle(h, p).value, dashed, rest);
      }
    }
    if Settle(h, p).Some? {
      InnerLine(s, Settle(h, p).value, st, dashed, ts);
    }
  }

  lemma InnerReady(s: PState, h: Heap, st: State, dashed: bool)
    requires Ready(s)
    ensures Ready(Inner(s, h, st, dashed)) && Inner(s, h, st, dashed).heap == h
  {}

  lemma InnerLine(s: PState, h: Heap, st: State, dashed: bool, ts: seq<Token>)
    requires Ready(s)
    ensures Run(Inner(s, h, st, dashed), [NEWLINE] + ts) == Run(Inner(s, h, st, dashed), ts)
  {
    InnerReady(s, h, st, dashed);
    BlankLine(Inner(s, h, st, dashed), h, ts);
  }

  lemma OpenParams(s: PState, h: Heap, dashed: bool, ts: seq<Token>)
    requires Ready(s)
    ensures Run(Params(s, h, dashed), [OPEN] + ts) == Run(Inner(s, h, InNodeParams, dashed), ts)
  {
    var s0 := Params(s, h, dashed);
    assert Handle(s0, OPEN) == Done(Inner(s, h, InNodeParams, dashed));
    First(s0, OPEN, ts);
  }

  lemma OpenPending(s: PState, h: Heap, p: Pend, ts: seq<Token>)
    requires Ready(s) && h.TopValid() && p.Pend? && Plain(p.v)
    ensures var r := Run(Form(s, h, p), [OPEN] + ts);
            match Settle(h, p)
            case None => Fails(r)
            case Some(h') => r == Run(Inner(s, h', InArgProp, false), ts)
  {
    var s0 := Form(s, h, p);
    PendValid(p);
    CommitForm(s, h, p);
    hide Settle, CommitArgument, ValTok;
    OpenInArgProp(s0);
    if Settle(h, p).Some? {
      assert Handle(s0, OPEN) == Done(Inner(s, Settle(h, p).value, InArgProp, false));
    }
    First(s0, OPEN, ts);
  }

  lemma OpenInArgProp(s: PState)
    requires s.state.InArgProp? && s.ident.Valid()
    ensures var c := CommitArgument(s);
            Handle(s, OPEN)
            == if !c.o.Ok? then c
               else Done(PushState(if c.s.f.ignoreNextArgProp || c.s.f.ignoreChildren > 0
                                   then c.s.(f := c.s.f.(ignoreNextArgProp := false, ignoreChildren := c.s.f.ignoreChildren + 1))
                                   else c.s, InChildren))
  {
    hide CommitArgument;
  }

  /** The closing brace and the newline that ends the node. */
  lemma CloseStage(s: PState, h: Heap, h': Heap, st: State, dashed: bool, ts: seq<Token>)
    requires Ready(s) && h'.stack != [] && (st.InNodeParams? || st.InArgProp?)
    ensures Run(Inner(s, h, st, dashed).(heap := h'), [CLOSE, NEWLINE] + ts) == Run(s.(heap := h'.Pop()), ts)
  {
    var s0 := Inner(s, h, st, dashed).(heap := h');
    var k := s.f.ignoreChildren;
    var s1 := At(s, st, h').(f := if dashed && k == 0 then Quiet(0).(afterIgnoredChildBlock := true) else Quiet(k));
    assert (s.states + [s.state] + [st])[..|s.states| + 1] == s.states + [s.state];
    assert Handle(s0, CLOSE) == Done(s1);
    assert [CLOSE, NEWLINE] + ts == [CLOSE] + ([NEWLINE] + ts);
    First(s0, CLOSE, [NEWLINE] + ts);
    NewlineAfterBlock(s, h', st, s1);
    assert ([NEWLINE] + ts)[1..] == ts;
  }

  lemma NewlineAfterBlock(s: PState, h: Heap, st: State, s1: PState)
    requires Ready(s) && h.stack != [] && (st.InNodeParams? || st.InArgProp?)
    requires s1 == At(s, st, h).(f := s1.f)
    requires s1.f == s.f || s1.f == s.f.(afterIgnoredChildBlock := true)
    ensures Feed(s1, NEWLINE) == Done(s.(heap := h.Pop()))
  {
    PopsBack(s, h);
    var s2 := LeaveIgnored(s1, Newline);
    assert s.f.(afterIgnoredChildBlock := true).(afterIgnoredChildBlock := false) == s.f;
    assert s2 == At(s, st, h);
    if st.InArgProp? {
      TerminatorInArgProp(s2, NEWLINE);
    }
  }

  // ---------- Nodes ----------

  lemma {:induction false} NodeStage(s: PState, n: SNode, depth: nat, lay: Layout, ts: seq<Token>)
    requires Ready(s) && StackOk(s.heap) && PlainNode(n)
    ensures var r := Run(s, NodeTokens(n, depth, lay) + ts);
            if NodeOk(IsV2(s), n) then r == Run(s.(heap := BuildNode(s.heap, n, s.f.ignoreChildren > 0)), ts)
            else Fails(r)
    decreases n, 1
  {
    hide Run, Form, Ready, StackOk, FoldEntries, Settle, EntriesOk, NameOk, EntriesTokens, BlockTokens;
    var head := IndentTokens(depth, lay) + DashTokens(n.dashed) + TypeTokens(n.typ) + [NameTok(n.name)];
    var end := BlockTokens(n, depth, lay) + ts;
    assert NodeTokens(n, depth, lay) + ts == head + (EntriesTokens(n.entries) + end);
    HeadStage(s, n, depth, lay, EntriesTokens(n.entries) + end);
    if NameOk(n.name) {
      var h := Open(s.heap, n, s.f.ignoreChildren > 0);
      EntriesStage(s, h, NoPend, n.entries, end);
      FoldMeaning(IsV2(s), h, NoPend, n.entries);
      SettleNothing(h);
      var q := FoldEntries(IsV2(s), h, NoPend, n.entries);
      if q.Some? {
        WrittenStack(h, q.value.0);
        BlockStage(s, q.value.0, q.value.1, n, depth, lay, ts);
      }
    }
  }

  /** From the last entry to the end of the line. */
  lemma {:induction false} BlockStage(s: PState, h: Heap, p: Pend, n: SNode, depth: nat, lay: Layout, ts: seq<Token>)
    requires Ready(s) && h.TopValid() && PendPlain(p) && PlainNode(n)
    requires StackOk(h)
    ensures var r := Run(Form(s, h, p), BlockTokens(n, depth, lay) + ts);
            if Settle(h, p).Some? && (n.block.Block? ==> NodesOk(IsV2(s), n.block.nodes))
            then StackOk(Settle(h, p).value) && Settle(h, p).value.stack == h.stack &&
                 var h1 := Settle(h, p).value;
                 var h2 := if n.block.Block? then BuildNodes(h1, n.block.nodes, s.f.ignoreChildren > 0 || n.block.dashed) else h1;
                 r == Run(s.(heap := h2.Pop()), ts)
            else Fails(r)
    decreases n, 0
  {
    hide Run, Form, Ready, Settle;
    SettleValid(h, p);
    if Settle(h, p).Some? {
      WrittenStack(h, Settle(h, p).value);
    }
    match n.block
    case NoBlock => LineStage(s, h, p, lay.semicolons, ts);
    case Block(dashed, nodes) =>
      var close := IndentTokens(depth, lay) + ([CLOSE, NEWLINE] + ts);
      var inside := NodesTokens(nodes, depth + 1, lay) + close;
      assert BlockTokens(n, depth, lay) + ts == [SPACE] + (DashTokens(dashed) + ([OPEN, NEWLINE] + inside));
      var st := OpenStage(s, h, p, dashed, inside);
      if Settle(h, p).Some? {
        var h1 := Settle(h, p).value;
        var s1 := Inner(s, h1, st, dashed);
        InnerReady(s, h1, st, dashed);
        NodesStage(s1, nodes, depth + 1, lay, close);
        var h2 := BuildNodes(h1, nodes, s.f.ignoreChildren > 0 || dashed);
        IndentStage(s1.(heap := h2), depth, lay, [CLOSE, NEWLINE] + ts);
        CloseStage(s, h1, h2, st, dashed, ts);
      }
  }

  lemma {:induction false} NodesStage(s: PState, ns: seq<SNode>, depth: nat, lay: Layout, ts: seq<Token>)
    requires Ready(s) && StackOk(s.heap) && PlainNodes(ns)
    ensures var r := Run(s, NodesTokens(ns, depth, lay) + ts);
            if NodesOk(IsV2(s), ns) then r == Run(s.(heap := BuildNodes(s.heap, ns, s.f.ignoreChildren > 0)), ts)
            else Fails(r)
    decreases ns, 2
  {
    hide Run, NodeOk, PlainNode, NodeTokens, BuildNode;
    if ns == [] {
      assert [] + ts == ts && s.(heap := s.heap) == s;
    } else {
      var tail := NodesTokens(ns[1..], depth, lay) + ts;
      assert NodesTokens(ns, depth, lay) + ts == NodeTokens(ns[0], depth, lay) + tail;
      assert ns[0] in ns;
      NodeStage(s, ns[0], depth, lay, tail);
      assert NodesOk(IsV2(s), ns) <==> NodeOk(IsV2(s), ns[0]) && NodesOk(IsV2(s), ns[1..]) by {
        assert forall n :: n in ns <==> n == ns[0] || n in ns[1..];
      }
      if NodeOk(IsV2(s), ns[0]) {
        var s1 := s.(heap := BuildNode(s.heap, ns[0], s.f.ignoreChildren > 0));
        NodesStage(s1, ns[1..], depth, lay, ts);
      }
    }
  }
}
