/** The printer as it runs: bytes appended node by node, proved to be the text of the tokens it stands for. */
module Printer {
  import opened Utf8
  import opened Tokens
  import opened Document
  import opened Syntax
  import opened RoundTrip
  import Quoted
  import Runes

  /** The bytes of the tokens, one after the other. */
  function Text(ts: seq<Token>): Bytes {
    if ts == [] then [] else ts[0].data + Text(ts[1..])
  }

  lemma {:induction false} TextConcat(a: seq<Token>, b: seq<Token>)
    ensures Text(a + b) == Text(a) + Text(b)
  {
    if a == [] {
      assert a + b == b;
    } else {
      assert (a + b)[1..] == a[1..] + b;
      TextConcat(a[1..], b);
    }
  }

  lemma TextCons(t: Token, ts: seq<Token>)
    ensures Text([t] + ts) == t.data + Text(ts)
  {
    assert ([t] + ts)[1..] == ts;
  }

  lemma TextOne(t: Token)
    ensures Text([t]) == t.data
  {
    assert [t][1..] == [];
  }

  method Repeated(b: Bytes, count: nat) returns (r: Bytes)
    ensures r == Repeat(b, count)
  {
    r := [];
    var i := 0;
    while i < count
      invariant i <= count && r == Repeat(b, i)
    {
      RepeatSnoc(b, i);
      r := r + b;
      i := i + 1;
    }
  }

  lemma {:induction false} RepeatSnoc(b: Bytes, n: nat)
    ensures Repeat(b, n + 1) == Repeat(b, n) + b
  {
    if n > 0 {
      RepeatSnoc(b, n - 1);
    }
  }

  lemma {:induction false} RepeatNothing(n: nat)
    ensures Repeat([], n) == []
  {
    if n > 0 {
      RepeatNothing(n - 1);
    }
  }

  /**
    Value.value with the flags for formatting numbers; strings are always quoted.  A hexadecimal number
    starts over with an empty buffer.
   */
  method AppendValue(b: Bytes, v: Value) returns (r: Bytes)
    requires Plain(v)
    ensures r == (if v.Num? && v.id.Hexadecimal? then [] else b) + ValTok(v).data
  {
    match v
    case Str(s) => r := Quoted.AppendQuotedString(b, s, Quoted.QUOTE);
    case Num(id, text) =>
      r := b;
      if id.Hexadecimal? {
        r := [];
      }
      r := r + text;
    case Bool(x) => r := b + if x then TRUE else FALSE;
    case Nothing => r := b + NULL;
  }

  /** FormattedString: the annotation in parentheses, then the value, in a buffer of its own. */
  method FormattedString(v: TValue) returns (r: Bytes)
    requires Plain(v.value)
    ensures r == Text(TypeTokens(Shown(v).typ) + [ValTok(v.value)])
  {
    hide ValTok, Text;
    r := AppendType([], v.typ);
    r := AppendValue(r, v.value);
    TextConcat(TypeTokens(Shown(v).typ), [ValTok(v.value)]);
    TextOne(ValTok(v.value));
    TextNothing();
  }

  lemma TextNothing()
    ensures Text([]) == [] && Text(TypeTokens([])) == []
  {}

  /** The rendered value written out. */
  method AppendTyped(b: Bytes, v: TValue) returns (r: Bytes)
    requires Plain(v.value)
    ensures r == b + Text(TypeTokens(Shown(v).typ) + [ValTok(Shown(v).value)])
  {
    var s := FormattedString(v);
    r := b + s;
  }

  method AppendType(b: Bytes, typ: Bytes) returns (r: Bytes)
    ensures r == b + Text(TypeTokens(typ))
  {
    hide Text, TypeTokens;
    r := b;
    TypeText(typ);
    if |typ| > 0 {
      r := r + ['(' as int];
      r := r + typ;
      r := r + [')' as int];
    }
  }

  lemma TypeText(typ: Bytes)
    ensures Text(TypeTokens(typ)) == if typ == [] then [] else ['(' as int] + typ + [')' as int]
  {
    if typ != [] {
      hide Text;
      TextOne(RPAREN);
      TextCons(TypeTok(typ), [RPAREN]);
      TextCons(LPAREN, [TypeTok(typ)] + [RPAREN]);
      assert TypeTokens(typ) == [LPAREN] + ([TypeTok(typ)] + [RPAREN]);
    }
  }

  /** A node name or property key: bare when its spelling allows it, else quoted. */
  method AppendName(b: Bytes, name: Bytes) returns (r: Bytes)
    ensures r == b + NameTok(name).data
  {
    if |name| > 0 && Runes.IsBareIdentifier(name, false) {
      r := b + name;
    } else {
      r := Quoted.AppendQuotedString(b, name, Quoted.QUOTE);
    }
  }

  lemma {:induction false} EntriesConcat(a: seq<SEntry>, b: seq<SEntry>)
    ensures EntriesTokens(a + b) == EntriesTokens(a) + EntriesTokens(b)
  {
    if a == [] {
      assert a + b == b;
    } else {
      assert (a + b)[1..] == a[1..] + b;
      EntriesConcat(a[1..], b);
    }
  }

  lemma EntryText(e: Entry)
    ensures Text(EntriesTokens([SEntry(false, e)])) == [0x20] + Text(EntryTokens(e))
  {
    hide EntryTokens, Text;
    var se := SEntry(false, e);
    assert [se][1..] == [];
    assert [SPACE] + ([] + EntryTokens(e)) + [] == [SPACE] + EntryTokens(e);
    TextCons(SPACE, EntryTokens(e));
  }

  lemma {:induction false} ArgEntriesSnoc(args: seq<TValue>, a: TValue)
    ensures ArgEntries(args + [a]) == ArgEntries(args) + [SEntry(false, Arg(a))]
  {
    if args == [] {
      assert args + [a] == [a] && [a][1..] == [];
    } else {
      assert (args + [a])[1..] == args[1..] + [a];
      ArgEntriesSnoc(args[1..], a);
    }
  }

  lemma {:induction false} PropEntriesSnoc(keys: seq<Bytes>, k: Bytes, props: map<Bytes, TValue>)
    requires k in props && forall x | x in keys :: x in props
    ensures PropEntries(keys + [k], props) == PropEntries(keys, props) + [SEntry(false, Prop(k, props[k]))]
  {
    if keys == [] {
      assert keys + [k] == [k] && [k][1..] == [];
    } else {
      assert (keys + [k])[1..] == keys[1..] + [k];
      PropEntriesSnoc(keys[1..], k, props);
    }
  }

  /** The text so far, one entry longer. */
  lemma OneMore(es: seq<SEntry>, e: Entry)
    ensures Text(EntriesTokens(es + [SEntry(false, e)])) == Text(EntriesTokens(es)) + ([0x20] + Text(EntryTokens(e)))
  {
    EntriesConcat(es, [SEntry(false, e)]);
    TextConcat(EntriesTokens(es), EntriesTokens([SEntry(false, e)]));
    EntryText(e);
  }

  lemma ShownSnoc(args: seq<TValue>, i: nat)
    requires i < |args|
    ensures ShownAll(args[..i + 1]) == ShownAll(args[..i]) + [Shown(args[i])]
  {}

  method AppendArguments(b: Bytes, args: seq<TValue>) returns (r: Bytes)
    requires forall a | a in args :: Plain(a.value)
    ensures r == b + Text(EntriesTokens(ArgEntries(ShownAll(args))))
  {
    hide Plain, ValTok, TypeTokens, EntriesTokens, Text, ShownAll, Shown;
    NoText();
    NoArguments();
    r := b;
    var i := 0;
    assert args[..0] == [] && b + [] == b;
    while i < |args|
      invariant i <= |args|
      invariant r == b + Text(EntriesTokens(ArgEntries(ShownAll(args[..i]))))
    {
      r := r + [0x20];
      r := AppendTyped(r, args[i]);
      ShownSnoc(args, i);
      ArgEntriesSnoc(ShownAll(args[..i]), Shown(args[i]));
      OneMore(ArgEntries(ShownAll(args[..i])), Arg(Shown(args[i])));
      i := i + 1;
    }
    assert args[..i] == args;
  }

  lemma NoArguments()
    ensures ArgEntries(ShownAll([])) == []
  {}

  lemma NoText()
    ensures Text(EntriesTokens([])) == []
  {}

  lemma NoPropEntries(props: map<Bytes, TValue>)
    ensures PropEntries([], props) == []
  {}

  /** A space, the key, an equals sign and the value. */
  method AppendProperty(b: Bytes, k: Bytes, v: TValue) returns (r: Bytes)
    requires Plain(v.value)
    ensures r == b + ([0x20] + Text(EntryTokens(Prop(k, Shown(v)))))
  {
    hide Plain, ValTok, NameTok, TypeTokens, Text, EntryTokens, Shown;
    r := b + [0x20];
    r := AppendName(r, k);
    r := r + ['=' as int];
    r := AppendTyped(r, v);
    PropertyText(k, Shown(v));
  }

  /** Properties.string */
  method AppendProperties(b: Bytes, p: Properties) returns (r: Bytes)
    requires p.Valid() && forall k | k in p.order :: Plain(p.props[k].value)
    ensures r == b + Text(EntriesTokens(PropEntries(p.order, ShownProps(p).props)))
  {
    hide Plain, EntryTokens, EntriesTokens, Text, PropEntries, Shown;
    ghost var shown := ShownProps(p).props;
    NoText();
    NoPropEntries(shown);
    r := b;
    var i := 0;
    assert p.order[..0] == [] && b + [] == b;
    while i < |p.order|
      invariant i <= |p.order|
      invariant r == b + Text(EntriesTokens(PropEntries(p.order[..i], shown)))
    {
      var k := p.order[i];
      r := AppendProperty(r, k, p.props[k]);
      assert p.order[..i + 1] == p.order[..i] + [k];
      PropEntriesSnoc(p.order[..i], k, shown);
      OneMore(PropEntries(p.order[..i], shown), Prop(k, shown[k]));
      i := i + 1;
    }
    assert p.order[..i] == p.order;
  }

  lemma PropertyText(k: Bytes, v: TValue)
    ensures Text(EntryTokens(Prop(k, v)))
         == NameTok(k).data + (['=' as int] + Text(TypeTokens(v.typ) + [ValTok(v.value)]))
  {
    hide Text, TypeTokens, NameTok, ValTok;
    var tail := TypeTokens(v.typ) + [ValTok(v.value)];
    assert [NameTok(k), EQUALS] + tail == [NameTok(k)] + ([EQUALS] + tail);
    TextCons(EQUALS, tail);
    TextCons(NameTok(k), [EQUALS] + tail);
  }

  method AppendIndent(b: Bytes, depth: nat, lay: Layout) returns (r: Bytes)
    ensures r == b + Text(IndentTokens(depth, lay))
  {
    r := b;
    if depth > 0 {
      var indent := Repeated(lay.indent, depth);
      r := r + indent;
      RepeatNothing(depth);
      if lay.indent != [] {
        TextOne(IndentTokens(depth, lay)[0]);
      }
    }
  }

  /** What precedes the arguments of a node. */
  ghost function Head(n: Tree, depth: nat, lay: Layout): seq<Token>
    requires WellFormed(n)
  {
    IndentTokens(depth, lay) + TypeTokens(n.typ) + [NameTok(n.name.s)]
  }

  lemma NodeText(n: Tree, depth: nat, lay: Layout)
    requires WellFormed(n)
    ensures Text(NodeTokens(SourceNode(n), depth, lay))
         == Text(Head(n, depth, lay)) + Text(EntriesTokens(ArgEntries(ShownAll(n.args))))
            + Text(EntriesTokens(PropEntries(n.properties.order, ShownProps(n.properties).props)))
            + Text(BlockTokens(SourceNode(n), depth, lay))
  {
    hide Text, EntriesTokens, BlockTokens, IndentTokens, TypeTokens, NameTok;
    var src := SourceNode(n);
    var args, props := ArgEntries(ShownAll(n.args)), PropEntries(n.properties.order, ShownProps(n.properties).props);
    EntriesConcat(args, props);
    TextConcat(EntriesTokens(args), EntriesTokens(props));
    var block := BlockTokens(src, depth, lay);
    TextConcat(EntriesTokens(args + props), block);
    TextConcat(Head(n, depth, lay), EntriesTokens(args + props) + block);
    assert IndentTokens(depth, lay) + [] + TypeTokens(n.typ) == IndentTokens(depth, lay) + TypeTokens(n.typ);
  }

  lemma HeadText(n: Tree, depth: nat, lay: Layout)
    requires WellFormed(n)
    ensures Text(Head(n, depth, lay))
         == Text(IndentTokens(depth, lay)) + Text(TypeTokens(n.typ)) + NameTok(n.name.s).data
  {
    hide Text, IndentTokens, TypeTokens, NameTok;
    TextConcat(IndentTokens(depth, lay), TypeTokens(n.typ));
    TextConcat(IndentTokens(depth, lay) + TypeTokens(n.typ), [NameTok(n.name.s)]);
    TextOne(NameTok(n.name.s));
  }

  lemma LineText(n: Tree, depth: nat, lay: Layout)
    requires WellFormed(n) && n.children == []
    ensures Text(BlockTokens(SourceNode(n), depth, lay)) == (if lay.semicolons then [';' as int] else []) + [0x0A]
  {
    hide SourceEntries;
    TextOne(NEWLINE);
    if lay.semicolons {
      TextCons(SEMICOLON, [NEWLINE]);
    } else {
      assert [] + [NEWLINE] == [NEWLINE];
    }
  }

  lemma BlockText(n: Tree, depth: nat, lay: Layout)
    requires WellFormed(n) && n.children != []
    ensures Text(BlockTokens(SourceNode(n), depth, lay))
         == [0x20, '{' as int, 0x0A] + Text(NodesTokens(Source(n.children), depth + 1, lay))
            + Text(IndentTokens(depth, lay)) + ['}' as int] + [0x0A]
  {
    hide Text, IndentTokens, NodesTokens, SourceEntries;
    var open, inside := [SPACE, OPEN, NEWLINE], NodesTokens(Source(n.children), depth + 1, lay);
    var indent, close := IndentTokens(depth, lay), [CLOSE, NEWLINE];
    assert [SPACE] + [] + [OPEN, NEWLINE] == open == [SPACE] + ([OPEN] + [NEWLINE]);
    TextOne(NEWLINE);
    TextCons(OPEN, [NEWLINE]);
    TextCons(SPACE, [OPEN] + [NEWLINE]);
    assert close == [CLOSE] + [NEWLINE];
    TextCons(CLOSE, [NEWLINE]);
    TextConcat(indent, close);
    TextConcat(open, inside);
    TextConcat(open + inside, indent + close);
  }

  lemma {:induction false} SourceSnoc(ts: seq<Tree>, t: Tree)
    requires WellFormed(t) && forall x | x in ts :: WellFormed(x)
    ensures Source(ts + [t]) == Source(ts) + [SourceNode(t)]
  {
    hide SourceNode;
    if ts == [] {
      assert ts + [t] == [t] && [t][1..] == [];
    } else {
      assert (ts + [t])[1..] == ts[1..] + [t];
      SourceSnoc(ts[1..], t);
    }
  }

  lemma {:induction false} NodesSnoc(ns: seq<SNode>, n: SNode, depth: nat, lay: Layout)
    ensures NodesTokens(ns + [n], depth, lay) == NodesTokens(ns, depth, lay) + NodeTokens(n, depth, lay)
  {
    hide NodeTokens;
    if ns == [] {
      assert ns + [n] == [n] && [n][1..] == [];
    } else {
      assert (ns + [n])[1..] == ns[1..] + [n];
      NodesSnoc(ns[1..], n, depth, lay);
    }
  }

  lemma OneMoreChild(ts: seq<Tree>, i: nat, depth: nat, lay: Layout)
    requires i < |ts| && forall t | t in ts :: WellFormed(t)
    ensures Text(NodesTokens(Source(ts[..i + 1]), depth, lay))
         == Text(NodesTokens(Source(ts[..i]), depth, lay)) + Text(NodeTokens(SourceNode(ts[i]), depth, lay))
  {
    hide Text, NodesTokens, NodeTokens, SourceNode;
    assert ts[..i + 1] == ts[..i] + [ts[i]];
    SourceSnoc(ts[..i], ts[i]);
    NodesSnoc(Source(ts[..i]), SourceNode(ts[i]), depth, lay);
    TextConcat(NodesTokens(Source(ts[..i]), depth, lay), NodeTokens(SourceNode(ts[i]), depth, lay));
  }

  /** WriteToOptions: what is written is the text of the node's tokens. */
  method WriteNode(b: Bytes, n: Tree, depth: nat, lay: Layout) returns (w: Bytes)
    requires WellFormed(n)
    ensures w == b + Text(NodeTokens(SourceNode(n), depth, lay))
    decreases n, 1
  {
    hide Text, EntriesTokens, BlockTokens, IndentTokens, TypeTokens, NameTok, NodeTokens, SourceNode;
    hide ArgEntries, PropEntries, Plain;
    w := AppendIndent(b, depth, lay);
    w := AppendType(w, n.typ);
    w := AppendName(w, n.name.s);
    HeadText(n, depth, lay);
    w := AppendArguments(w, n.args);
    w := AppendProperties(w, n.properties);
    NodeText(n, depth, lay);
    w := WriteBlock(w, n, depth, lay);
  }

  /** The child block, or the end of the line. */
  method WriteBlock(b: Bytes, n: Tree, depth: nat, lay: Layout) returns (w: Bytes)
    requires WellFormed(n)
    ensures w == b + Text(BlockTokens(SourceNode(n), depth, lay))
    decreases n, 0
  {
    hide Text, BlockTokens, IndentTokens, NodesTokens, SourceNode;
    if |n.children| > 0 {
      w := b + [0x20, '{' as int, 0x0A];
      w := WriteNodes(w, n.children, depth + 1, lay);
      w := AppendIndent(w, depth, lay);
      w := w + ['}' as int];
      w := w + [0x0A];
      BlockText(n, depth, lay);
    } else {
      w := b;
      if lay.semicolons {
        w := w + [';' as int];
      }
      w := w + [0x0A];
      LineText(n, depth, lay);
    }
  }

  method WriteNodes(b: Bytes, ts: seq<Tree>, depth: nat, lay: Layout) returns (w: Bytes)
    requires forall t | t in ts :: WellFormed(t)
    ensures w == b + Text(NodesTokens(Source(ts), depth, lay))
    decreases ts, 2
  {
    hide Text, NodeTokens, SourceNode;
    w := b;
    var i := 0;
    assert ts[..0] == [];
    assert Text(NodesTokens(Source([]), depth, lay)) == [] by { NoNodesText(depth, lay); }
    while i < |ts|
      invariant i <= |ts| && w == b + Text(NodesTokens(Source(ts[..i]), depth, lay))
    {
      w := WriteNode(w, ts[i], depth, lay);
      OneMoreChild(ts, i, depth, lay);
      i := i + 1;
    }
    assert ts[..i] == ts;
  }

  lemma NoNodesText(depth: nat, lay: Layout)
    ensures Text(NodesTokens(Source([]), depth, lay)) == []
  {}
}
