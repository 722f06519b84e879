/** Document values, ordered properties and value-level document trees. */
module Document {
  import opened Wrappers
  import opened Utf8
  import opened Tokens
  import Quoted
  import Multiline
  import Raw

  /** A decoded value; the spelling of a number is kept as one opaque piece of text. */
  datatype Value =
    | Str(s: Bytes)
    | Expr(s: Bytes)
    | Num(id: TokenID, text: Bytes)
    | Bool(b: bool)
    | Nothing
    | Special(text: Bytes)

  /** A value with its type annotation, empty when there is none. */
  datatype TValue = TValue(typ: Bytes, value: Value)

  const TRUE: Bytes := Ascii("true")
  const FALSE: Bytes := Ascii("false")
  const NULL: Bytes := Ascii("null")
  const BACKTICK: byte := '`' as int
  const TRIPLE_BACKTICK: Bytes := [BACKTICK, BACKTICK, BACKTICK]

  function QuoteByteOf(s: Bytes): Option<byte> {
    if s != [] && s[0] in {Quoted.QUOTE, '\'' as int, BACKTICK} then Some(s[0]) else None
  }

  /** UnquoteString */
  function UnquoteString(s: Bytes): Option<Bytes> {
    if s == [] then Some([])
    else if QuoteByteOf(s).None? then None
    else Quoted.Unquote(s, s[0])
  }

  /** ValueFromTokenInto; None is the error return.  A token of any other kind leaves the zero value, null. */
  function ValueFromToken(t: Token): Option<Value> {
    match t.id
    case QuotedString =>
      var r := if Multiline.IsMultilineToken(t.data) then
                 var m := Multiline.UnquoteMultiLineToken(t.data, Multiline.TRIPLE, Quoted.QUOTE, true);
                 if m.None? then None else Some(m.value.0)
               else UnquoteString(t.data);
      if r.None? then None else Some(Str(r.value))
    case ExpressionString =>
      var r := if TRIPLE_BACKTICK <= t.data then
                 var m := Multiline.UnquoteMultiLineToken(t.data, TRIPLE_BACKTICK, BACKTICK, false);
                 if m.None? then None else Some(m.value.0)
               else UnquoteString(t.data);
      if r.None? then None else Some(Expr(r.value))
    case BareIdentifier => Some(Str(t.data))
    case RawString =>
      var r := Raw.UnquoteRaw(t.data);
      if r.None? then None else Some(Str(r.value.0))
    case Boolean => Some(Bool(t.data == TRUE || t.data == Ascii("#true")))
    case Null => Some(Nothing)
    case Keyword =>
      if t.data in {Ascii("#inf"), Ascii("#-inf"), Ascii("#nan")} then Some(Special(t.data)) else None
    case Decimal => Some(Num(t.id, t.data))
    case SuffixedDecimal => Some(Num(t.id, t.data))
    case Octal => Some(Num(t.id, t.data))
    case Hexadecimal => Some(Num(t.id, t.data))
    case Binary => Some(Num(t.id, t.data))
    case _ => Some(Nothing)
  }

  /** ValueString of a decoded property name; only strings are ever used as names. */
  function KeyString(v: Value): Bytes {
    if v.Str? then v.s else []
  }

  // ---------- Properties ----------

  /** Keys in the order they were first added, and the last value added for each. */
  datatype Properties = Properties(order: seq<Bytes>, props: map<Bytes, TValue>) {
    function Add(name: Bytes, val: TValue): Properties {
      Properties(if name in props then order else order + [name], props[name := val])
    }

    function Get(key: Bytes): Option<TValue> {
      if key in props then Some(props[key]) else None
    }

    ghost predicate Valid() {
      && (forall k :: k in order <==> k in props)
      && (forall i, j | 0 <= i < j < |order| :: order[i] != order[j])
    }
  }

  const NO_PROPERTIES := Properties([], map[])

  /** Add keeps the keys distinct, answers later lookups with the last value, and never moves a key. */
  lemma AddKeeps(p: Properties, name: Bytes, val: TValue, key: Bytes)
    requires p.Valid()
    ensures p.Add(name, val).Valid()
    ensures p.Add(name, val).Get(key) == if key == name then Some(val) else p.Get(key)
    ensures p.order <= p.Add(name, val).order && (name in p.props ==> p.order == p.Add(name, val).order)
  {}

  /** Adding the properties of p one after the other. */
  function AddAll(p: Properties, keys: seq<Bytes>, from: map<Bytes, TValue>): Properties
    requires forall k | k in keys :: k in from
    decreases |keys|
  {
    if keys == [] then p else AddAll(p.Add(keys[0], from[keys[0]]), keys[1..], from)
  }

  /** The properties as they were when the first n keys had been added. */
  function Prefix(p: Properties, n: nat): Properties
    requires n <= |p.order| && forall k | k in p.order :: k in p.props
  {
    Properties(p.order[..n], map k | k in p.order[..n] :: p.props[k])
  }

  lemma PrefixStep(p: Properties, n: nat)
    requires p.Valid() && n < |p.order|
    ensures Prefix(p, n).Add(p.order[n], p.props[p.order[n]]) == Prefix(p, n + 1)
  {
    var k := p.order[n];
    assert p.order[..n + 1] == p.order[..n] + [k];
    assert Prefix(p, n).Add(k, p.props[k]).props == Prefix(p, n + 1).props;
  }

  /** Replaying the properties in order rebuilds the list, order included. */
  lemma {:induction false} Rebuild(p: Properties, n: nat)
    requires p.Valid() && n <= |p.order|
    ensures AddAll(Prefix(p, n), p.order[n..], p.props) == p
    decreases |p.order| - n
  {
    if n < |p.order| {
      PrefixStep(p, n);
      assert p.order[n..][1..] == p.order[n + 1..];
      Rebuild(p, n + 1);
    } else {
      assert p.order[..n] == p.order && p.order[n..] == [];
      assert Prefix(p, n).props == p.props;
    }
  }

  // ---------- Trees ----------

  /** A node and everything below it. */
  datatype Tree = Tree(typ: Bytes, name: Value, args: seq<TValue>, properties: Properties, children: seq<Tree>)
}
