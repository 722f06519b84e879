/**
  Documents as they are written: trees whose nodes, entries and child blocks may be slashdashed, the
  tokens the printer emits for them, and the document tree they stand for.
 */
module Syntax {
  import opened Utf8
  import opened Tokens
  import opened Document
  import Quoted
  import opened Numerals
  import Runes

  datatype Entry = Arg(v: TValue) | Prop(key: Bytes, v: TValue)

  /** An entry, preceded by a slashdash or not. */
  datatype SEntry = SEntry(dashed: bool, e: Entry)

  datatype Block = NoBlock | Block(dashed: bool, nodes: seq<SNode>)

  datatype SNode = SNode(dashed: bool, typ: Bytes, name: Bytes, entries: seq<SEntry>, block: Block)

  /** The printer options that change the tokens: indentation text and terminating semicolons. */
  datatype Layout = Layout(indent: Bytes, semicolons: bool)

  // ---------- Tokens ----------

  function Tok(id: TokenID, data: Bytes): Token { Token(id, data, 0, 0) }

  const SPACE := Tok(Whitespace, [0x20])
  const NEWLINE := Tok(Newline, [0x0A])
  const SEMICOLON := Tok(Semicolon, [';' as int])
  const SLASHDASH := Tok(TokenComment, ['/' as int, '-' as int])
  const OPEN := Tok(BraceOpen, ['{' as int])
  const CLOSE := Tok(BraceClose, ['}' as int])
  const LPAREN := Tok(ParensOpen, ['(' as int])
  const RPAREN := Tok(ParensClose, [')' as int])
  const EQUALS := Tok(Equals, ['=' as int])
  const END := Tok(EOF, [])

  /** A type annotation is written verbatim. */
  function TypeTok(typ: Bytes): Token
    requires typ != []
  {
    Tok(if typ[0] == Quoted.QUOTE then QuotedString else BareIdentifier, typ)
  }

  function TypeTokens(typ: Bytes): seq<Token> {
    if typ == [] then [] else [LPAREN, TypeTok(typ), RPAREN]
  }

  /** Argument and property values: strings are always quoted. */
  function ValTok(v: Value): Token {
    match v
    case Str(s) => Tok(QuotedString, Quoted.Quote(s, Quoted.QUOTE))
    case Expr(s) => Tok(ExpressionString, Quoted.Quote(s, BACKTICK))
    case Num(id, text) => Tok(id, text)
    case Bool(b) => Tok(Boolean, if b then TRUE else FALSE)
    case Nothing => Tok(Null, NULL)
    case Special(text) => Tok(Keyword, text)
  }

  predicate IsKeyword(s: Bytes) { s == TRUE || s == FALSE || s == NULL }

  /** A spelling that stands for a value. */
  predicate IsValue(s: Bytes) { IsKeyword(s) || IsNumber(s) }

  function BareId(s: Bytes): TokenID {
    if s == TRUE || s == FALSE then Boolean else if s == NULL then Null else if IsNumber(s) then Decimal else BareIdentifier
  }

  /** The token a bare spelling is read as in version 1. */
  function BareTok(s: Bytes): Token { Tok(BareId(s), s) }

  /** Node names and property keys: bare if the spelling allows it, else quoted. */
  function NameTok(s: Bytes): Token {
    if Runes.IsBareIdentifier(s, false) then BareTok(s) else Tok(QuotedString, Quoted.Quote(s, Quoted.QUOTE))
  }

  function EntryTokens(e: Entry): seq<Token> {
    match e
    case Arg(v) => TypeTokens(v.typ) + [ValTok(v.value)]
    case Prop(key, v) => [NameTok(key), EQUALS] + (TypeTokens(v.typ) + [ValTok(v.value)])
  }

  function DashTokens(dashed: bool): seq<Token> {
    if dashed then [SLASHDASH] else []
  }

  function EntriesTokens(es: seq<SEntry>): seq<Token> {
    if es == [] then []
    else [SPACE] + (DashTokens(es[0].dashed) + EntryTokens(es[0].e)) + EntriesTokens(es[1..])
  }

  function Repeat(s: Bytes, n: nat): Bytes {
    if n == 0 then [] else s + Repeat(s, n - 1)
  }

  function IndentTokens(depth: nat, lay: Layout): seq<Token> {
    if depth > 0 && lay.indent != [] then [Tok(Whitespace, Repeat(lay.indent, depth))] else []
  }

  function NodeTokens(n: SNode, depth: nat, lay: Layout): seq<Token>
    decreases n, 1
  {
    IndentTokens(depth, lay) + DashTokens(n.dashed) + TypeTokens(n.typ) + [NameTok(n.name)]
    + (EntriesTokens(n.entries) + BlockTokens(n, depth, lay))
  }

  /** The child block with its braces, or the semicolon; then the end of the line. */
  function BlockTokens(n: SNode, depth: nat, lay: Layout): seq<Token>
    decreases n, 0
  {
    match n.block
    case NoBlock => (if lay.semicolons then [SEMICOLON] else []) + [NEWLINE]
    case Block(dashed, nodes) =>
      [SPACE] + DashTokens(dashed) + [OPEN, NEWLINE]
      + NodesTokens(nodes, depth + 1, lay)
      + (IndentTokens(depth, lay) + [CLOSE, NEWLINE])
  }

  function NodesTokens(ns: seq<SNode>, depth: nat, lay: Layout): seq<Token>
    decreases ns, 2
  {
    if ns == [] then [] else NodeTokens(ns[0], depth, lay) + NodesTokens(ns[1..], depth, lay)
  }

  // ---------- What is written can be read ----------

  /** The values the version 1 notation has a spelling for. */
  predicate Plain(v: Value) {
    match v
    case Num(id, _) => id == Decimal || id == Hexadecimal || id == Octal || id == Binary
    case Expr(_) => false
    case Special(_) => false
    case _ => true
  }

  predicate PlainEntries(es: seq<SEntry>) {
    forall se | se in es :: Plain(se.e.v.value)
  }

  predicate PlainNode(n: SNode) {
    PlainEntries(n.entries) && (n.block.Block? ==> PlainNodes(n.block.nodes))
  }

  predicate PlainNodes(ns: seq<SNode>) {
    forall n | n in ns :: PlainNode(n)
  }

  predicate ValueOk(v: Value) { v.Str? ==> Quoted.Quotable(v.s) }

  /** A name is read back unless it is spelled like a value or cannot be quoted. */
  predicate NameOk(s: Bytes) {
    if Runes.IsBareIdentifier(s, false) then !IsValue(s) else Quoted.Quotable(s)
  }

  /** A key spelled like a value is not accepted even when the property is slashdashed. */
  predicate KeyTokenOk(s: Bytes) { Runes.IsBareIdentifier(s, false) ==> !IsValue(s) }

  /** Whether an entry is accepted after an argument (or not), in version 2 or 1. */
  predicate EntryOk(v2: bool, afterArg: bool, se: SEntry) {
    match se.e
    case Arg(v) => (se.dashed || ValueOk(v.value)) && (v2 && afterArg && !se.dashed ==> v.typ == [])
    case Prop(key, v) => KeyTokenOk(key) && (se.dashed || (NameOk(key) && ValueOk(v.value)))
  }

  predicate EntriesOk(v2: bool, afterArg: bool, es: seq<SEntry>)
    decreases |es|
  {
    es == [] || (EntryOk(v2, afterArg, es[0]) && EntriesOk(v2, es[0].e.Arg?, es[1..]))
  }

  predicate NodeOk(v2: bool, n: SNode) {
    && NameOk(n.name) && EntriesOk(v2, false, n.entries)
    && (n.block.Block? ==> NodesOk(v2, n.block.nodes))
  }

  predicate NodesOk(v2: bool, ns: seq<SNode>) {
    forall n | n in ns :: NodeOk(v2, n)
  }

  // ---------- Erasure ----------

  /** The arguments and properties of the entries that are not slashdashed. */
  function Args(es: seq<SEntry>): seq<TValue> {
    if es == [] then [] else (if !es[0].dashed && es[0].e.Arg? then [es[0].e.v] else []) + Args(es[1..])
  }

  function Props(p: Properties, es: seq<SEntry>): Properties
    decreases |es|
  {
    if es == [] then p
    else Props(if !es[0].dashed && es[0].e.Prop? then p.Add(es[0].e.key, es[0].e.v) else p, es[1..])
  }

  function EraseNode(n: SNode): Tree
    decreases n, 0
  {
    Tree(n.typ, Str(n.name), Args(n.entries), Props(NO_PROPERTIES, n.entries),
         if n.block.Block? && !n.block.dashed then Erase(n.block.nodes) else [])
  }

  /** The trees of the nodes that are not slashdashed. */
  function Erase(ns: seq<SNode>): seq<Tree>
    decreases ns, 1
  {
    if ns == [] then [] else (if ns[0].dashed then [] else [EraseNode(ns[0])]) + Erase(ns[1..])
  }
}
