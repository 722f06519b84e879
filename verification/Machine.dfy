/**
  The parser's step machine on values: the context, the table of handlers and the effect of each
  handler, one token at a time.  Nodes live in a store and are referred to by their position in it,
  in allocation order, so that a pointer can be shared and a node is written in place.
 */
module Machine {
  import opened Wrappers
  import opened Utf8
  import opened Tokens
  import opened Document

  datatype State =
    | InDocument | InNode | InNodeParams | InNodeEnd | InArgProp | InProperty | InPropertyValue
    | InChildren | InTypeAnnot | InTypeDone

  // ---------- Nodes ----------

  datatype Rec = Rec(typ: Bytes, name: Value, args: seq<TValue>, properties: Properties, children: seq<nat>)

  const BLANK := Rec([], Nothing, [], NO_PROPERTIES, [])

  /** The document's node list, every node allocated so far, and the stack of open nodes. */
  datatype Heap = Heap(doc: seq<nat>, store: seq<Rec>, stack: seq<nat>) {
    function Top(): nat
      requires stack != []
    {
      stack[|stack| - 1]
    }

    predicate TopValid() { stack != [] && Top() < |store| }

    /** createNode: a fresh node on the stack, linked to nothing. */
    function Create(): Heap {
      Heap(doc, store + [BLANK], stack + [|store|])
    }

    /** addNode: a fresh node on the stack, linked to the open node or to the document. */
    function Add(): Heap {
      var n := |store|;
      if stack == [] then Heap(doc + [n], store + [BLANK], [n])
      else if Top() < n then
        Heap(doc, store[Top() := store[Top()].(children := store[Top()].children + [n])] + [BLANK], stack + [n])
      else Create()
    }

    function Write(r: Rec): Heap
      requires TopValid()
    {
      this.(store := store[Top() := r])
    }

    function Pop(): Heap
      requires stack != []
    {
      this.(stack := stack[..|stack| - 1])
    }
  }

  // ---------- Context ----------

  /** The continuation and slashdash flags. */
  datatype Flags = Flags(
    continuation: bool,
    continuationNewlineSeen: bool,
    justContinuedLine: bool,
    ignoreNextNode: bool,
    ignoreNextArgProp: bool,
    ignoreChildren: nat,
    afterIgnoredChildBlock: bool,
    ignoreChildBlockFromContinuation: bool,
    ignoreFromContinuation: bool)

  const NO_FLAGS := Flags(false, false, false, false, false, 0, false, false, false)

  datatype PState = PState(
    heap: Heap,
    states: seq<State>,
    state: State,
    ident: Token,
    typeAnnot: Token,
    f: Flags,
    version: Version)

  function Initial(version: Version): PState {
    PState(Heap([], [], []), [], InDocument, NO_TOKEN, NO_TOKEN, NO_FLAGS, version)
  }

  datatype Error =
    | Unexpected | ExpectedValueAfterType | MissingSeparator | AfterIgnoredBlock | BadValue
    | NodeStackEmpty | StateStackEmpty

  /** Panic is the nil dereference of a missing current node. */
  datatype Outcome = Ok | Reenter | Fail(e: Error) | Panic

  datatype Result = Result(s: PState, o: Outcome)

  function Done(s: PState): Result { Result(s, Ok) }

  function Reject(s: PState): Result { Result(s, Fail(Unexpected)) }

  predicate IsV2(s: PState) { s.version == V2 }

  // ---------- Context operations ----------

  function PushState(s: PState, st: State): PState {
    s.(states := s.states + [s.state], state := st)
  }

  function PopState(s: PState): Result {
    if s.states == [] then Result(s, Fail(StateStackEmpty))
    else Done(s.(state := s.states[|s.states| - 1], states := s.states[..|s.states| - 1]))
  }

  function PopNode(s: PState): Result {
    if s.heap.stack == [] then Result(s, Fail(NodeStackEmpty)) else Done(s.(heap := s.heap.Pop()))
  }

  function PopNodeAndState(s: PState): Result {
    var r := PopState(s);
    if !r.o.Ok? then r else PopNode(r.s)
  }

  /** The node ends at a closing brace, which is then handled again in the enclosing state. */
  function CloseAndReenter(s: PState): Result {
    var r := PopNodeAndState(s);
    if !r.o.Ok? then r else Result(r.s, Reenter)
  }

  function StartContinuation(s: PState): PState {
    s.(f := s.f.(continuation := true, continuationNewlineSeen := false))
  }

  function StopContinuation(s: PState): PState {
    s.(f := s.f.(continuation := false, continuationNewlineSeen := false))
  }

  function MarkIgnoreFromContinuation(s: PState): PState {
    s.(f := s.f.(ignoreFromContinuation := s.f.justContinuedLine, justContinuedLine := false))
  }

  function IgnoreNode(s: PState, on: bool): PState { s.(f := s.f.(ignoreNextNode := on)) }

  function IgnoreEntry(s: PState, on: bool): PState { s.(f := s.f.(ignoreNextArgProp := on)) }

  /** A child block that is ignored, or lies inside one that is. */
  function IgnoreBlock(s: PState): PState {
    s.(f := s.f.(ignoreChildBlockFromContinuation := s.f.ignoreFromContinuation, ignoreFromContinuation := false,
                 ignoreChildren := s.f.ignoreChildren + 1))
  }

  function ClearPending(s: PState): PState {
    s.(typeAnnot := NO_TOKEN, ident := NO_TOKEN)
  }

  function TypeText(typeAnnot: Token): Bytes {
    if typeAnnot.Valid() then typeAnnot.data else []
  }

  function AddArgument(s: PState, t: Token, typeAnnot: Token): Result {
    var v := ValueFromToken(t);
    if v.None? then Result(s, Fail(BadValue))
    else if !s.heap.TopValid() then Result(s, Panic)
    else
      var rec := s.heap.store[s.heap.Top()];
      Done(s.(heap := s.heap.Write(rec.(args := rec.args + [TValue(TypeText(typeAnnot), v.value)]))))
  }

  function AddProperty(s: PState, name: Token, value: Token, typeAnnot: Token): Result {
    var k := ValueFromToken(name);
    var v := ValueFromToken(value);
    if k.None? || v.None? then Result(s, Fail(BadValue))
    else if !s.heap.TopValid() then Result(s, Panic)
    else
      var rec := s.heap.store[s.heap.Top()];
      var ps := rec.properties.Add(KeyString(k.value), TValue(TypeText(typeAnnot), v.value));
      Done(s.(heap := s.heap.Write(rec.(properties := ps))))
  }

  /** The pending identifier turns out to be an argument, or is dropped when it was slashdashed. */
  function CommitArgument(s: PState): Result {
    if s.f.ignoreNextArgProp then Done(ClearPending(IgnoreEntry(s, false)))
    else
      var r := AddArgument(s, s.ident, s.typeAnnot);
      if !r.o.Ok? then r else Done(ClearPending(r.s))
  }

  /** The same, when there is a pending identifier at all. */
  function CommitPending(s: PState): Result {
    if s.ident.Valid() then CommitArgument(s) else Done(s)
  }

  // ---------- The table ----------

  /** The entries of the transition table. */
  predicate InTable(st: State, k: TokenID) {
    match st
    case InDocument =>
      || k.Whitespace? || k.ClassIdentifier? || k.ParensOpen? || k.ClassTerminator?
      || k.ClassComment? || k.TokenComment? || k.Continuation?
    case InChildren =>
      || k.Whitespace? || k.ClassComment? || k.Continuation? || k.TokenComment? || k.ParensOpen?
      || k.Newline? || k.ClassIdentifier? || k.BraceClose?
    case InTypeAnnot =>
      || k.Whitespace? || k.ClassComment? || k.Continuation? || k.BareIdentifier? || k.ClassString?
    case InTypeDone =>
      || k.Whitespace? || k.ClassComment? || k.Continuation? || k.ParensClose?
    case InNode =>
      || k.Whitespace? || k.ClassTerminator? || k.Equals? || k.BraceOpen? || k.Continuation?
      || k.ClassComment? || k.BraceClose?
    case InNodeParams =>
      || k.Whitespace? || k.Equals? || k.TokenComment? || k.ClassComment?
      || k.SingleLineComment? || k.Continuation? || k.ParensOpen? || k.BareIdentifier?
      || k.BraceClose? || k.SuffixedDecimal? || k.ClassString? || k.ClassNonStringValue?
      || k.BraceOpen? || k.ClassTerminator?
    case InNodeEnd =>
      || k.Whitespace? || k.ClassEndOfLine?
    case InProperty =>
      || k.Equals? || k.BraceClose?
    case InArgProp =>
      || k.TokenComment? || k.BraceOpen? || k.Equals? || k.Whitespace? || k.ClassComment?
      || k.Continuation? || k.ClassTerminator? || k.ClassValue? || k.BraceClose?
    case InPropertyValue =>
      || k.Whitespace? || k.ClassComment? || k.Continuation? || k.ParensOpen? || k.ClassValue?
      || k.BraceClose?
  }

  function FirstClass(st: State, classes: seq<TokenID>): Option<TokenID> {
    if classes == [] then None
    else if InTable(st, classes[0]) then Some(classes[0])
    else FirstClass(st, classes[1..])
  }

  /** Handler selection: by identifier, else by the first of its classes that has a handler. */
  function Lookup(st: State, id: TokenID): Option<TokenID> {
    if InTable(st, id) then Some(id) else FirstClass(st, Classes(id))
  }

  predicate Identifier(id: TokenID) { id.BareIdentifier? || id.RawString? || id.QuotedString? }

  predicate StringToken(id: TokenID) { id.RawString? || id.QuotedString? || id.ExpressionString? }

  predicate NonString(id: TokenID) {
    || id.Decimal? || id.Hexadecimal? || id.Octal? || id.Binary? || id.SuffixedDecimal?
    || id.Boolean? || id.Null? || id.Keyword?
  }

  predicate ValueToken(id: TokenID) { id.BareIdentifier? || StringToken(id) || NonString(id) }

  predicate Terminator(id: TokenID) { id.Newline? || id.Semicolon? || id.EOF? }

  predicate Comment(id: TokenID) { id.MultiLineComment? || id.SingleLineComment? }

  /** Handler selection as a direct decision. */
  function Dispatch(st: State, id: TokenID): Option<TokenID> {
    match st
    case InDocument =>
      if id.Whitespace? || id.ParensOpen? || id.TokenComment? || id.Continuation? then Some(id)
      else if Identifier(id) then Some(ClassIdentifier)
      else if Terminator(id) then Some(ClassTerminator)
      else if Comment(id) then Some(ClassComment)
      else None
    case InChildren =>
      if id.Whitespace? || id.ParensOpen? || id.TokenComment? || id.Continuation? || id.Newline?
         || id.BraceClose? then Some(id)
      else if Identifier(id) then Some(ClassIdentifier)
      else if Comment(id) then Some(ClassComment)
      else None
    case InTypeAnnot =>
      if id.Whitespace? || id.Continuation? || id.BareIdentifier? then Some(id)
      else if StringToken(id) then Some(ClassString)
      else if Comment(id) then Some(ClassComment)
      else None
    case InTypeDone =>
      if id.Whitespace? || id.Continuation? || id.ParensClose? then Some(id)
      else if Comment(id) then Some(ClassComment)
      else None
    case InNode =>
      if id.Whitespace? || id.Equals? || id.BraceOpen? || id.BraceClose? || id.Continuation? then Some(id)
      else if Terminator(id) then Some(ClassTerminator)
      else if Comment(id) then Some(ClassComment)
      else None
    case InNodeParams =>
      if id.Whitespace? || id.Equals? || id.TokenComment? || id.SingleLineComment? || id.Continuation?
         || id.ParensOpen? || id.BareIdentifier? || id.BraceClose? || id.SuffixedDecimal? || id.BraceOpen?
      then Some(id)
      else if id.MultiLineComment? then Some(ClassComment)
      else if StringToken(id) then Some(ClassString)
      else if Terminator(id) then Some(ClassTerminator)
      else if NonString(id) then Some(ClassNonStringValue)
      else None
    case InNodeEnd =>
      if id.Whitespace? then Some(id)
      else if id.Newline? || id.EOF? then Some(ClassEndOfLine)
      else None
    case InProperty =>
      if id.Equals? || id.BraceClose? then Some(id) else None
    case InArgProp =>
      if id.TokenComment? || id.BraceOpen? || id.Equals? || id.Whitespace? || id.Continuation?
         || id.BraceClose? then Some(id)
      else if Comment(id) then Some(ClassComment)
      else if Terminator(id) then Some(ClassTerminator)
      else if ValueToken(id) then Some(ClassValue)
      else None
    case InPropertyValue =>
      if id.Whitespace? || id.Continuation? || id.ParensOpen? || id.BraceClose? then Some(id)
      else if Comment(id) then Some(ClassComment)
      else if ValueToken(id) then Some(ClassValue)
      else None
  }

  lemma FirstClassOf(st: State, classes: seq<TokenID>)
    requires |classes| <= 3
    ensures FirstClass(st, classes)
         == if |classes| > 0 && InTable(st, classes[0]) then Some(classes[0])
            else if |classes| > 1 && InTable(st, classes[1]) then Some(classes[1])
            else if |classes| > 2 && InTable(st, classes[2]) then Some(classes[2])
            else None
  {
    if |classes| > 0 {
      var c1 := classes[1..];
      if |c1| > 0 {
        var c2 := c1[1..];
        if |c2| > 0 {
          assert c2[1..] == [];
        }
      }
    }
  }

  lemma DispatchById(st: State, id: TokenID)
    requires IsKind(id)
    ensures InTable(st, id) <==> Dispatch(st, id) == Some(id)
  {}

  lemma ClassesShape(id: TokenID)
    ensures |Classes(id)| <= 3
  {}

  predicate ReadsEntries(st: State) { st.InNodeParams? || st.InArgProp? || st.InPropertyValue? }

  lemma EntryClasses(st: State, id: TokenID)
    requires IsKind(id) && !InTable(st, id) && ReadsEntries(st)
    ensures Dispatch(st, id) == FirstClass(st, Classes(id))
  {
    hide FirstClass, InTable, Dispatch, Classes;
    if st.InNodeParams? {
      ParamsClasses(id);
    } else {
      ValueClasses(st, id);
    }
  }

  lemma ParamsClasses(id: TokenID)
    requires IsKind(id) && !InTable(InNodeParams, id)
    ensures Dispatch(InNodeParams, id) == FirstClass(InNodeParams, Classes(id))
  {
    hide FirstClass;
    ClassesShape(id);
    FirstClassOf(InNodeParams, Classes(id));
  }

  lemma ValueClasses(st: State, id: TokenID)
    requires IsKind(id) && !InTable(st, id) && (st.InArgProp? || st.InPropertyValue?)
    ensures Dispatch(st, id) == FirstClass(st, Classes(id))
  {
    hide FirstClass;
    ClassesShape(id);
    FirstClassOf(st, Classes(id));
  }

  predicate BeginsNodes(st: State) { st.InDocument? || st.InChildren? }

  lemma OuterClasses(st: State, id: TokenID)
    requires IsKind(id) && !InTable(st, id) && BeginsNodes(st)
    ensures Dispatch(st, id) == FirstClass(st, Classes(id))
  {
    hide FirstClass;
    ClassesShape(id);
    FirstClassOf(st, Classes(id));
  }

  lemma AnnotClasses(id: TokenID)
    requires IsKind(id) && !InTable(InTypeAnnot, id)
    ensures Dispatch(InTypeAnnot, id) == FirstClass(InTypeAnnot, Classes(id))
  {
    hide FirstClass;
    ClassesShape(id);
    FirstClassOf(InTypeAnnot, Classes(id));
  }

  lemma AnnotDoneClasses(id: TokenID)
    requires IsKind(id) && !InTable(InTypeDone, id)
    ensures Dispatch(InTypeDone, id) == FirstClass(InTypeDone, Classes(id))
  {
    hide FirstClass;
    ClassesShape(id);
    FirstClassOf(InTypeDone, Classes(id));
  }

  lemma NodeClasses(id: TokenID)
    requires IsKind(id) && !InTable(InNode, id)
    ensures Dispatch(InNode, id) == FirstClass(InNode, Classes(id))
  {
    hide FirstClass;
    ClassesShape(id);
    FirstClassOf(InNode, Classes(id));
  }

  lemma LineClasses(st: State, id: TokenID)
    requires IsKind(id) && !InTable(st, id) && (st.InNodeEnd? || st.InProperty?)
    ensures Dispatch(st, id) == FirstClass(st, Classes(id))
  {
    hide FirstClass;
    ClassesShape(id);
    FirstClassOf(st, Classes(id));
  }

  /** The direct decision is the two-stage lookup in the table, for every state and token. */
  lemma DispatchIsLookup(st: State, id: TokenID)
    requires IsKind(id)
    ensures Dispatch(st, id) == Lookup(st, id)
  {
    hide Dispatch, InTable, FirstClass, Classes;
    DispatchById(st, id);
    if !InTable(st, id) {
      if ReadsEntries(st) {
        EntryClasses(st, id);
      } else if BeginsNodes(st) {
        OuterClasses(st, id);
      } else if st.InTypeAnnot? {
        AnnotClasses(id);
      } else if st.InTypeDone? {
        AnnotDoneClasses(id);
      } else if st.InNode? {
        NodeClasses(id);
      } else {
        LineClasses(st, id);
      }
    }
  }

  // ---------- Handlers ----------

  /** A node name, in the document or in a child block. */
  function NodeName(s: PState, t: Token, detached: bool): Result {
    var s1 := if detached then IgnoreNode(s.(heap := s.heap.Create()), false)
              else s.(heap := s.heap.Add());
    var v := ValueFromToken(t);
    if v.None? then Result(s1, Fail(BadValue))
    else if !s1.heap.TopValid() then Result(s1, Panic)
    else
      var rec := s1.heap.store[s1.heap.Top()].(name := v.value);
      var rec' := if s1.typeAnnot.Valid() then rec.(typ := s1.typeAnnot.data) else rec;
      var s2 := s1.(heap := s1.heap.Write(rec'), typeAnnot := if s1.typeAnnot.Valid() then NO_TOKEN else s1.typeAnnot);
      Done(PushState(s2, InNode))
  }

  /** Whitespace and comments are not allowed right after a version 1 type annotation. */
  function AfterType(s: PState): Result {
    if s.typeAnnot.Valid() && !IsV2(s) then Reject(s) else Done(s)
  }

  function V2Only(s: PState): Result {
    if IsV2(s) then Done(s) else Reject(s)
  }

  function SlashdashNode(s: PState): Result {
    if s.typeAnnot.Valid() then Reject(s)
    else Done(IgnoreNode(MarkIgnoreFromContinuation(s), true))
  }

  function HandleDocument(s: PState, k: TokenID, t: Token): Result {
    if k.Whitespace? then AfterType(s)
    else if k.ClassIdentifier? then NodeName(s, t, s.f.ignoreNextNode)
    else if k.ParensOpen? then Done(PushState(s, InTypeAnnot))
    else if k.ClassTerminator? then
      if s.typeAnnot.Valid() then Result(s, Fail(ExpectedValueAfterType)) else Done(s)
    else if k.ClassComment? then AfterType(s)
    else if k.TokenComment? then SlashdashNode(s)
    else if k.Continuation? then Done(StartContinuation(s))
    else Reject(s)
  }

  /** Ending the outermost ignored block restricts what may follow. */
  function LeaveBlock(f: Flags): Flags {
    if f.ignoreChildren == 0 then f
    else if f.ignoreChildren == 1 then
      f.(ignoreChildren := 0,
         afterIgnoredChildBlock := !f.ignoreChildBlockFromContinuation,
         ignoreChildBlockFromContinuation := false)
    else f.(ignoreChildren := f.ignoreChildren - 1)
  }

  /** The end of a child block. */
  function CloseBlock(s: PState): PState { s.(f := LeaveBlock(s.f)) }

  function HandleChildren(s: PState, k: TokenID, t: Token): Result {
    if k.Whitespace? then AfterType(s)
    else if k.ClassComment? then AfterType(s)
    else if k.Continuation? then Done(StartContinuation(s))
    else if k.TokenComment? then SlashdashNode(s)
    else if k.ParensOpen? then Done(PushState(s, InTypeAnnot))
    else if k.Newline? then Done(s)
    else if k.ClassIdentifier? then NodeName(s, t, s.f.ignoreNextNode || s.f.ignoreChildren > 0)
    else if k.BraceClose? then
      (if s.f.ignoreNextNode then Reject(s) else PopState(CloseBlock(s)))
    else Reject(s)
  }

  function HandleTypeAnnot(s: PState, k: TokenID, t: Token): Result {
    if k.Whitespace? then V2Only(s)
    else if k.ClassComment? then V2Only(s)
    else if k.Continuation? then (if IsV2(s) then Done(StartContinuation(s)) else Reject(s))
    else if k.BareIdentifier? then Done(s.(typeAnnot := t, state := InTypeDone))
    else if k.ClassString? then Done(s.(typeAnnot := t, state := InTypeDone))
    else Reject(s)
  }

  function HandleTypeDone(s: PState, k: TokenID, t: Token): Result {
    if k.Whitespace? then V2Only(s)
    else if k.ClassComment? then V2Only(s)
    else if k.Continuation? then (if IsV2(s) then Done(StartContinuation(s)) else Reject(s))
    else if k.ParensClose? then PopState(s)
    else Reject(s)
  }

  function HandleNode(s: PState, k: TokenID, t: Token): Result {
    if k.Whitespace? then Done(s.(state := InNodeParams))
    else if k.ClassTerminator? then (if s.f.continuation then Done(s) else PopNodeAndState(s))
    else if k.Equals? then Reject(s)
    else if k.BraceOpen? then
      var s1 :=
        if s.f.ignoreNextNode || s.f.ignoreChildren > 0 then IgnoreNode(IgnoreBlock(s), false)
        else s;
      Done(PushState(s1, InChildren))
    else if k.Continuation? then Done(StartContinuation(s))
    else if k.ClassComment? then V2Only(s)
    else if k.BraceClose? then CloseAndReenter(s)
    else Reject(s)
  }

  function HandleNodeParams(s: PState, k: TokenID, t: Token): Result {
    if k.Whitespace? then AfterType(s)
    else if k.Equals? then Reject(s)
    else if k.TokenComment? then
      if s.typeAnnot.Valid() then Reject(s)
      else Done(IgnoreEntry(MarkIgnoreFromContinuation(s), true))
    else if k.ClassComment? then AfterType(s)
    else if k.SingleLineComment? then (Done(if s.f.ignoreNextArgProp then s else s.(state := InNodeEnd)))
    else if k.Continuation? then Done(StartContinuation(s))
    else if k.ParensOpen? then Done(PushState(s, InTypeAnnot))
    else if k.BareIdentifier? then (Done(s.(ident := t, state := if IsV2(s) then InArgProp else InProperty)))
    else if k.BraceClose? then CloseAndReenter(s)
    else if k.SuffixedDecimal? then
      var s1 := ClearPending(s);
      if s1.f.ignoreNextArgProp then Done(IgnoreEntry(s1, false).(state := InNodeParams))
      else
        var r := AddArgument(s1, t, s1.typeAnnot);
        if !r.o.Ok? then r else Done(r.s.(state := InNodeParams))
    else if k.ClassString? then Done(s.(ident := t, state := InArgProp))
    else if k.ClassNonStringValue? then Done(s.(ident := t, state := InArgProp))
    else if k.BraceOpen? then
      var s1 :=
        if s.f.ignoreNextArgProp || s.f.ignoreChildren > 0 then IgnoreEntry(IgnoreBlock(s), false)
        else s;
      Done(PushState(s1, InChildren))
    else if k.ClassTerminator? then
      if s.f.continuation then Done(s)
      else if s.f.ignoreNextArgProp then if t.id.Newline? then Done(s) else Reject(s)
      else if s.typeAnnot.Valid() then Result(s, Fail(ExpectedValueAfterType))
      else PopNodeAndState(s)
    else Reject(s)
  }

  function HandleNodeEnd(s: PState, k: TokenID, t: Token): Result {
    if k.Whitespace? then Done(s)
    else if k.ClassEndOfLine? then
      if s.f.continuation then Done(StopContinuation(s).(state := InNodeParams)) else PopNodeAndState(s)
    else Reject(s)
  }

  function HandleProperty(s: PState, k: TokenID, t: Token): Result {
    if k.Equals? then (if s.typeAnnot.Valid() then Reject(s) else Done(s.(state := InPropertyValue)))
    else if k.BraceClose? then CloseAndReenter(s)
    else Reject(s)
  }

  function HandleArgProp(s: PState, k: TokenID, t: Token): Result {
    if k.TokenComment? then
      var r :=
        if s.f.ignoreNextArgProp then Done(IgnoreEntry(s, false))
        else if s.ident.Valid() then AddArgument(s, s.ident, s.typeAnnot)
        else Done(s);
      if !r.o.Ok? then r
      else if !r.s.ident.Valid() && r.s.typeAnnot.Valid() then Result(r.s, Fail(ExpectedValueAfterType))
      else
        var s1 := if r.s.ident.Valid() then ClearPending(r.s) else r.s;
        Done(MarkIgnoreFromContinuation(IgnoreEntry(s1, true)).(state := InNodeParams))
    else if k.BraceOpen? then
      var r := CommitPending(s);
      if !r.o.Ok? then r
      else
        var s1 := if r.s.f.ignoreNextArgProp || r.s.f.ignoreChildren > 0
                  then r.s.(f := r.s.f.(ignoreNextArgProp := false, ignoreChildren := r.s.f.ignoreChildren + 1))
                  else r.s;
        Done(PushState(s1, InChildren))
    else if k.Equals? then
      if s.typeAnnot.Valid() || !Identifier(s.ident.id) then Reject(s)
      else Done(s.(state := InPropertyValue))
    else if k.Whitespace? then
      if IsV2(s) then Done(s)
      else
        var r := CommitArgument(s);
        if !r.o.Ok? then r else Done(r.s.(state := InNodeParams))
    else if k.ClassComment? then V2Only(s)
    else if k.Continuation? then Done(StartContinuation(s))
    else if k.ClassTerminator? then
      if s.f.continuation then Done(s)
      else
        var r := CommitPending(s);
        if !r.o.Ok? then r else PopNodeAndState(r.s)
    else if k.ClassValue? then
      var r := CommitArgument(s);
      if !r.o.Ok? then r else Done(r.s.(ident := t))
    else if k.BraceClose? then
      var r := CommitPending(s);
      if !r.o.Ok? then r else CloseAndReenter(r.s)
    else Reject(s)
  }

  function HandlePropertyValue(s: PState, k: TokenID, t: Token): Result {
    if k.Whitespace? then V2Only(s)
    else if k.ClassComment? then V2Only(s)
    else if k.Continuation? then (if IsV2(s) then Done(StartContinuation(s)) else Reject(s))
    else if k.ParensOpen? then Done(PushState(s, InTypeAnnot))
    else if k.ClassValue? then
      var r := if s.f.ignoreNextArgProp then Done(IgnoreEntry(s, false))
               else AddProperty(s, s.ident, t, s.typeAnnot);
      if !r.o.Ok? then r else Done(ClearPending(r.s).(state := InNode))
    else if k.BraceClose? then CloseAndReenter(s)
    else Reject(s)
  }

  /** The handler found in the table, applied. */
  function Handle(s: PState, t: Token): Result {
    match Dispatch(s.state, t.id)
    case None => Reject(s)
    case Some(k) =>
      match s.state
      case InDocument => HandleDocument(s, k, t)
      case InChildren => HandleChildren(s, k, t)
      case InTypeAnnot => HandleTypeAnnot(s, k, t)
      case InTypeDone => HandleTypeDone(s, k, t)
      case InNode => HandleNode(s, k, t)
      case InNodeParams => HandleNodeParams(s, k, t)
      case InNodeEnd => HandleNodeEnd(s, k, t)
      case InProperty => HandleProperty(s, k, t)
      case InArgProp => HandleArgProp(s, k, t)
      case InPropertyValue => HandlePropertyValue(s, k, t)
  }

  // ---------- One token ----------

  /** After an ignored child block only trivia, a newline, a continuation or the end may follow. */
  predicate BlockedAfterIgnored(s: PState, id: TokenID) {
    && s.f.afterIgnoredChildBlock
    && !(Trivia(id) || id.EOF? || id.Continuation?)
  }

  function LeaveIgnored(s: PState, id: TokenID): PState {
    if s.f.afterIgnoredChildBlock && (id.Newline? || id.EOF? || id.Continuation?)
    then s.(f := s.f.(afterIgnoredChildBlock := false))
    else s
  }

  /** Continuation bookkeeping before the handler runs. */
  function Continue(s: PState, id: TokenID): PState {
    if s.f.continuation then
      if id.Newline? then
        if s.f.continuationNewlineSeen then StopContinuation(s) else s.(f := s.f.(continuationNewlineSeen := true))
      else if id.Whitespace? || id.SingleLineComment? || id.MultiLineComment? then s
      else (var s1 := StopContinuation(s); s1.(f := s1.f.(justContinuedLine := true)))
    else if Trivia(id) then s
    else s.(f := s.f.(justContinuedLine := false))
  }

  /** One call of the parser, apart from the separation check. */
  function Step(s: PState, t: Token): Result {
    if BlockedAfterIgnored(s, t.id) then Result(s, Fail(AfterIgnoredBlock))
    else Handle(Continue(LeaveIgnored(s, t.id), t.id), t)
  }

  /** The context together with the token before the current one. */
  datatype Context = Context(s: PState, prev: Token)

  datatype ContextResult = ContextResult(c: Context, o: Outcome)

  /** Parser.Parse */
  function Parse(c: Context, t: Token): ContextResult {
    if IsV2(c.s) && c.prev.Valid() && RequiresV2Separation(c.prev, t) then
      ContextResult(Context(c.s, t), Fail(MissingSeparator))
    else
      var r := Step(c.s, t);
      ContextResult(Context(r.s, t), r.o)
  }

  /** A token is offered again when its handler asks to re-enter the state. */
  function Feed(s: PState, t: Token): Result {
    var r := Step(s, t);
    if r.o.Reenter? then Step(r.s, t) else r
  }

  /** The machine on a whole sequence of tokens; it stops at the first error. */
  function Run(s: PState, ts: seq<Token>): Result
    decreases |ts|
  {
    if ts == [] then Done(s)
    else
      var r := Feed(s, ts[0]);
      if !r.o.Ok? then r else Run(r.s, ts[1..])
  }

  lemma {:induction false} RunConcat(s: PState, a: seq<Token>, b: seq<Token>)
    ensures Run(s, a + b) == var r := Run(s, a); if !r.o.Ok? then r else Run(r.s, b)
    decreases |a|
  {
    if a == [] {
      assert a + b == b;
    } else {
      assert (a + b)[1..] == a[1..] + b;
      var r := Feed(s, a[0]);
      if r.o.Ok? {
        RunConcat(r.s, a[1..], b);
      }
    }
  }
}
