/**
  Printing and parsing whole documents: round trip, agreement of the two versions, and erasure of
  everything slashdashed.
 */
module RoundTrip {
  import opened Wrappers
  import opened Utf8
  import opened Tokens
  import opened Document
  import opened Syntax
  import opened Machine
  import opened StackShape
  import opened Build
  import opened PrintParse

  // ---------- Written documents ----------

  function DocumentTokens(ns: seq<SNode>, lay: Layout): seq<Token> {
    NodesTokens(ns, 0, lay) + [END]
  }

  /** The run ended between nodes, with both stacks empty and nothing pending, and the document is ts. */
  ghost predicate Yields(r: Result, v: Version, ts: seq<Tree>) {
    && r.o.Ok? && r.s == Initial(v).(heap := r.s.heap) && r.s.heap.stack == []
    && DocumentIs(r.s.heap, ts)
  }

  /**
    A written document is accepted exactly when its names, keys, values and annotations allow it, and
    then the result is exactly the tree of everything not slashdashed.
   */
  lemma ParseWritten(v: Version, ns: seq<SNode>, lay: Layout)
    requires PlainNodes(ns)
    ensures var r := Run(Initial(v), DocumentTokens(ns, lay));
            if NodesOk(v.V2?, ns) then Yields(r, v, Erase(ns)) else !r.o.Ok?
  {
    var s := Initial(v);
    assert s.f == Quiet(0);
    NodesStage(s, ns, 0, lay, [END]);
    if NodesOk(v.V2?, ns) {
      DocumentBuilt(ns);
      EndOfDocument(s.(heap := BuildNodes(s.heap, ns, false)));
    }
  }

  lemma EndOfDocument(s: PState)
    requires s.state.InDocument? && !s.typeAnnot.Valid() && Calm(s.f)
    ensures Run(s, [END]) == Done(s)
  {
    hide Run, Handle, Calm;
    EndInDocument(s);
    First(s, END, []);
    RunNothing(s);
    assert [END] + [] == [END];
  }

  lemma EndInDocument(s: PState)
    requires s.state.InDocument? && !s.typeAnnot.Valid()
    ensures Handle(s, END) == Done(s)
  {}

  lemma RunNothing(s: PState)
    ensures Run(s, []) == Done(s)
  {}

  /** What a run yields is determined: no two different documents. */
  lemma YieldsOne(r: Result, v: Version, ts: seq<Tree>, ts': seq<Tree>)
    requires Yields(r, v, ts) && Yields(r, v, ts')
    ensures ts == ts'
  {
    AllDenoteOne(r.s.heap.store, r.s.heap.doc, ts, ts', 0, |r.s.heap.store|, 0, |r.s.heap.store|);
  }

  // ---------- Erasure ----------

  function StripEntries(es: seq<SEntry>): seq<SEntry> {
    if es == [] then [] else (if es[0].dashed then [] else [es[0]]) + StripEntries(es[1..])
  }

  /** The same node with every slashdashed entry, block and descendant cut out of the text. */
  function StripNode(n: SNode): SNode
    decreases n, 0
  {
    SNode(n.dashed, n.typ, n.name, StripEntries(n.entries),
          if n.block.Block? && !n.block.dashed then Block(false, Strip(n.block.nodes)) else NoBlock)
  }

  function Strip(ns: seq<SNode>): seq<SNode>
    decreases ns, 1
  {
    if ns == [] then [] else (if ns[0].dashed then [] else [StripNode(ns[0])]) + Strip(ns[1..])
  }

  lemma {:induction false} StripEntriesErases(es: seq<SEntry>, p: Properties, afterArg: bool, afterArg': bool)
    ensures Args(StripEntries(es)) == Args(es) && Props(p, StripEntries(es)) == Props(p, es)
    ensures EntriesOk(false, afterArg, es) ==> EntriesOk(false, afterArg', StripEntries(es))
    ensures PlainEntries(es) ==> PlainEntries(StripEntries(es))
    decreases |es|
  {
    if es != [] {
      var p' := if !es[0].dashed && es[0].e.Prop? then p.Add(es[0].e.key, es[0].e.v) else p;
      var rest := StripEntries(es[1..]);
      StripEntriesErases(es[1..], p', es[0].e.Arg?, if es[0].dashed then afterArg' else es[0].e.Arg?);
      if es[0].dashed {
        assert [] + rest == rest;
      } else {
        assert ([es[0]] + rest)[1..] == rest;
      }
      assert PlainEntries(es) ==> PlainEntries(es[1..]) && Plain(es[0].e.v.value);
    }
  }

  lemma {:induction false} StripErases(ns: seq<SNode>)
    ensures Erase(Strip(ns)) == Erase(ns)
    ensures NodesOk(false, ns) ==> NodesOk(false, Strip(ns))
    ensures PlainNodes(ns) ==> PlainNodes(Strip(ns))
    decreases ns, 1
  {
    if ns != [] {
      var rest := Strip(ns[1..]);
      StripErases(ns[1..]);
      assert NodesOk(false, ns) ==> NodesOk(false, ns[1..]) && NodeOk(false, ns[0]);
      assert PlainNodes(ns) ==> PlainNodes(ns[1..]) && PlainNode(ns[0]);
      if ns[0].dashed {
        assert [] + rest == rest && [] + Erase(ns[1..]) == Erase(ns[1..]);
      } else {
        StripNodeErases(ns[0]);
        assert ([StripNode(ns[0])] + rest)[1..] == rest;
      }
    }
  }

  lemma {:induction false} StripNodeErases(n: SNode)
    ensures EraseNode(StripNode(n)) == EraseNode(n)
    ensures NodeOk(false, n) ==> NodeOk(false, StripNode(n))
    ensures PlainNode(n) ==> PlainNode(StripNode(n))
    decreases n, 0
  {
    StripEntriesErases(n.entries, NO_PROPERTIES, false, false);
    if n.block.Block? && !n.block.dashed {
      StripErases(n.block.nodes);
    }
  }

  // ---------- Versions ----------

  /** Version 2 differs only in annotated arguments that follow another argument without a slashdash between. */
  predicate TypedEntriesOk(afterArg: bool, es: seq<SEntry>)
    decreases |es|
  {
    es == [] || (&& (afterArg && es[0].e.Arg? && !es[0].dashed ==> es[0].e.v.typ == [])
                 && TypedEntriesOk(es[0].e.Arg?, es[1..]))
  }

  predicate TypedOk(n: SNode) {
    TypedEntriesOk(false, n.entries) && (n.block.Block? ==> AllTypedOk(n.block.nodes))
  }

  predicate AllTypedOk(ns: seq<SNode>) {
    forall n | n in ns :: TypedOk(n)
  }

  lemma {:induction false} EntriesVersions(afterArg: bool, es: seq<SEntry>)
    ensures EntriesOk(true, afterArg, es) <==> EntriesOk(false, afterArg, es) && TypedEntriesOk(afterArg, es)
    decreases |es|
  {
    if es != [] {
      EntriesVersions(es[0].e.Arg?, es[1..]);
    }
  }

  lemma {:induction false} NodeVersions(n: SNode)
    ensures NodeOk(true, n) <==> NodeOk(false, n) && TypedOk(n)
  {
    EntriesVersions(false, n.entries);
    if n.block.Block? {
      forall c | c in n.block.nodes ensures NodeOk(true, c) <==> NodeOk(false, c) && TypedOk(c) {
        NodeVersions(c);
      }
    }
  }

  /**
    On the same printed tokens version 2 accepts exactly what version 1 accepts with annotations only
    on first arguments (or after a slashdash or property), and then both build the same document.
   */
  lemma VersionsAgree(ns: seq<SNode>, lay: Layout)
    requires PlainNodes(ns)
    ensures var r1, r2 := Run(Initial(V1), DocumentTokens(ns, lay)), Run(Initial(V2), DocumentTokens(ns, lay));
            && (r2.o.Ok? <==> r1.o.Ok? && AllTypedOk(ns))
            && (r1.o.Ok? ==> Yields(r1, V1, Erase(ns)))
            && (r2.o.Ok? ==> Yields(r2, V2, Erase(ns)))
  {
    ParseWritten(V1, ns, lay);
    ParseWritten(V2, ns, lay);
    NodesVersions(ns);
  }

  lemma NodesVersions(ns: seq<SNode>)
    ensures NodesOk(true, ns) <==> NodesOk(false, ns) && AllTypedOk(ns)
  {
    hide NodeOk, TypedOk;
    forall n | n in ns ensures NodeOk(true, n) <==> NodeOk(false, n) && TypedOk(n) {
      NodeVersions(n);
    }
  }

  /**
    Slashdashed arguments, properties, child blocks and nodes, anywhere and typed or not, leave the document
    equal to the one read from the text without them.  In version 1 that text is always accepted; in version
    2 exactly when cutting them out brings no annotated argument next to another argument.
   */
  lemma SlashdashErasure(v: Version, ns: seq<SNode>, lay: Layout)
    requires PlainNodes(ns)
    ensures var r, bare := Run(Initial(v), DocumentTokens(ns, lay)), Run(Initial(v), DocumentTokens(Strip(ns), lay));
            && (r.o.Ok? <==> NodesOk(v.V2?, ns)) && (bare.o.Ok? <==> NodesOk(v.V2?, Strip(ns)))
            && (r.o.Ok? ==> Yields(r, v, Erase(ns))) && (bare.o.Ok? ==> Yields(bare, v, Erase(ns)))
            && (r.o.Ok? ==> (bare.o.Ok? <==> !v.V2? || AllTypedOk(Strip(ns))))
  {
    hide Run, NodesOk, AllTypedOk, DocumentIs, PlainNodes, Strip;
    StripErases(ns);
    ParseWritten(v, ns, lay);
    ParseWritten(v, Strip(ns), lay);
    NodesVersions(ns);
    NodesVersions(Strip(ns));
  }

  /** Two arguments, the second annotated, with a slashdashed property between them. */
  function KeptApart(name: Bytes, typ: Bytes): SNode {
    SNode(false, [], name, [SEntry(false, Arg(TValue([], Nothing))), SEntry(true, Prop(name, TValue([], Nothing))),
                            SEntry(false, Arg(TValue(typ, Nothing)))], NoBlock)
  }

  lemma OneMoreEntry(v2: bool, afterArg: bool, se: SEntry, es: seq<SEntry>)
    ensures EntriesOk(v2, afterArg, [se] + es) <==> EntryOk(v2, afterArg, se) && EntriesOk(v2, se.e.Arg?, es)
    ensures StripEntries([se] + es) == (if se.dashed then [] else [se]) + StripEntries(es)
  {
    hide EntryOk;
    assert ([se] + es)[1..] == es;
  }

  lemma ApartOk(name: Bytes, typ: Bytes)
    requires NameOk(name) && typ != []
    ensures NodeOk(true, KeptApart(name, typ)) && !NodeOk(true, StripNode(KeptApart(name, typ)))
  {
    var es := KeptApart(name, typ).entries;
    ApartEntries(es[0], es[1], es[2], name);
    assert es == [es[0]] + ([es[1]] + ([es[2]] + []));
    hide NameOk, EntriesOk, StripEntries;
  }

  lemma ApartEntries(a: SEntry, b: SEntry, c: SEntry, name: Bytes)
    requires NameOk(name) && a == SEntry(false, Arg(TValue([], Nothing))) && b == SEntry(true, Prop(name, TValue([], Nothing)))
    requires !c.dashed && c.e.Arg? && c.e.v.typ != [] && c.e.v.value.Nothing?
    ensures var es := [a] + ([b] + ([c] + [])); EntriesOk(true, false, es) && !EntriesOk(true, false, StripEntries(es))
  {
    hide NameOk, KeyTokenOk, EntriesOk, StripEntries;
    NameReads(name);
    NoEntries();
    OneMoreEntry(true, true, c, []);
    OneMoreEntry(true, false, c, []);
    OneMoreEntry(true, true, b, [c] + []);
    OneMoreEntry(true, false, a, [b] + ([c] + []));
    OneMoreEntry(true, false, a, [c] + []);
    assert [] + ([c] + []) == [c] + [];
  }

  lemma NoEntries()
    ensures EntriesOk(true, true, []) && StripEntries([]) == []
  {}

  /** What a slashdash keeps apart is refused in version 2 when the slashdashed part is cut out. */
  lemma StripJoins(name: Bytes, typ: Bytes, lay: Layout)
    requires NameOk(name) && typ != []
    ensures var ns := [KeptApart(name, typ)];
            && Yields(Run(Initial(V2), DocumentTokens(ns, lay)), V2, Erase(ns))
            && !Run(Initial(V2), DocumentTokens(Strip(ns), lay)).o.Ok?
  {
    hide Run, DocumentTokens, NameOk, NodeOk, StripNode, Yields, Erase, KeptApart;
    var n := KeptApart(name, typ);
    ApartOk(name, typ);
    ApartPlain(name, typ);
    assert [n][1..] == [] && Strip([n]) == [StripNode(n)] by { OneStripped(n); }
    assert n in [n] && StripNode(n) in [StripNode(n)];
    StripErases([n]);
    ParseWritten(V2, [n], lay);
    ParseWritten(V2, Strip([n]), lay);
  }

  lemma OneStripped(n: SNode)
    requires !n.dashed
    ensures Strip([n]) == [StripNode(n)]
  {
    hide StripNode;
    assert [n][1..] == [];
  }

  lemma ApartPlain(name: Bytes, typ: Bytes)
    ensures PlainNodes([KeptApart(name, typ)]) && !KeptApart(name, typ).dashed
  {}

  // ---------- Trees ----------

  function ArgEntries(args: seq<TValue>): seq<SEntry> {
    if args == [] then [] else [SEntry(false, Arg(args[0]))] + ArgEntries(args[1..])
  }

  function PropEntries(keys: seq<Bytes>, props: map<Bytes, TValue>): seq<SEntry>
    requires forall k | k in keys :: k in props
    decreases |keys|
  {
    if keys == [] then [] else [SEntry(false, Prop(keys[0], props[keys[0]]))] + PropEntries(keys[1..], props)
  }

  /** The trees a printer can be given: string names, well-formed property lists, values with a spelling. */
  ghost predicate WellFormed(t: Tree) {
    && t.name.Str? && t.properties.Valid()
    && (forall a | a in t.args :: Plain(a.value))
    && (forall k | k in t.properties.order :: Plain(t.properties.props[k].value))
    && (forall c | c in t.children :: WellFormed(c))
  }

  /**
    A value as it is rendered with formatting flags: a hexadecimal number goes into a buffer of its own, so
    that the annotation written before it is lost.
   */
  function Shown(v: TValue): TValue {
    if v.value.Num? && v.value.id.Hexadecimal? then v.(typ := []) else v
  }

  function ShownAll(args: seq<TValue>): seq<TValue> {
    seq(|args|, i requires 0 <= i < |args| => Shown(args[i]))
  }

  function ShownProps(p: Properties): Properties {
    Properties(p.order, map k | k in p.props :: Shown(p.props[k]))
  }

  /** The tree the printed text stands for. */
  function Printed(t: Tree): Tree
    decreases t, 0
  {
    Tree(t.typ, t.name, ShownAll(t.args), ShownProps(t.properties), PrintedAll(t.children))
  }

  function PrintedAll(ts: seq<Tree>): seq<Tree>
    decreases ts, 1
  {
    if ts == [] then [] else [Printed(ts[0])] + PrintedAll(ts[1..])
  }

  /** A value whose annotation, if any, is printed. */
  predicate TypeKept(v: TValue) { v.value.Num? && v.value.id.Hexadecimal? ==> v.typ == [] }

  /** No hexadecimal argument or property value carries an annotation. */
  ghost predicate TypesKept(t: Tree)
    requires WellFormed(t)
  {
    && (forall a | a in t.args :: TypeKept(a))
    && (forall k | k in t.properties.order :: TypeKept(t.properties.props[k]))
    && (forall c | c in t.children :: TypesKept(c))
  }

  lemma ShownArgsSame(args: seq<TValue>)
    ensures ShownAll(args) == args <==> forall a | a in args :: TypeKept(a)
  {
    if forall a | a in args :: TypeKept(a) {
      forall i | 0 <= i < |args| ensures ShownAll(args)[i] == args[i] {
        assert args[i] in args;
      }
    }
    if ShownAll(args) == args {
      forall a | a in args ensures TypeKept(a) {
        var i :| 0 <= i < |args| && args[i] == a;
        assert ShownAll(args)[i] == a;
      }
    }
  }

  lemma ShownPropsSame(p: Properties)
    requires p.Valid()
    ensures ShownProps(p) == p <==> forall k | k in p.order :: TypeKept(p.props[k])
    ensures ShownProps(p).Valid()
  {
    var props := ShownProps(p).props;
    if forall k | k in p.order :: TypeKept(p.props[k]) {
      assert forall k | k in p.props :: props[k] == p.props[k];
      assert props == p.props;
    }
    if props == p.props {
      forall k | k in p.order ensures TypeKept(p.props[k]) {
        assert props[k] == Shown(p.props[k]);
      }
    }
  }

  /** Printing keeps exactly the trees without annotated hexadecimal values. */
  lemma {:induction false} PrintedSame(t: Tree)
    requires WellFormed(t)
    ensures Printed(t) == t <==> TypesKept(t)
    decreases t, 0
  {
    hide ShownAll, ShownProps, TypeKept;
    ShownArgsSame(t.args);
    ShownPropsSame(t.properties);
    PrintedAllSame(t.children);
  }

  lemma {:induction false} PrintedAllSame(ts: seq<Tree>)
    requires forall t | t in ts :: WellFormed(t)
    ensures PrintedAll(ts) == ts <==> forall t | t in ts :: TypesKept(t)
    decreases ts, 1
  {
    hide Printed, TypesKept;
    if ts != [] {
      PrintedSame(ts[0]);
      PrintedAllSame(ts[1..]);
      assert PrintedAll(ts)[0] == Printed(ts[0]) && PrintedAll(ts)[1..] == PrintedAll(ts[1..]);
      assert [ts[0]] + ts[1..] == ts;
      assert forall t :: t in ts <==> t == ts[0] || t in ts[1..];
    }
  }

  /** A tree written without slashdashes, arguments before properties. */
  ghost function SourceNode(t: Tree): SNode
    requires WellFormed(t)
    decreases t, 0
  {
    SNode(false, t.typ, t.name.s, SourceEntries(t),
          if t.children == [] then NoBlock else Block(false, Source(t.children)))
  }

  ghost function Source(ts: seq<Tree>): (ns: seq<SNode>)
    requires forall t | t in ts :: WellFormed(t)
    ensures |ns| == |ts|
    decreases ts, 1
  {
    if ts == [] then [] else [SourceNode(ts[0])] + Source(ts[1..])
  }

  /** What a tree must satisfy to survive printing and parsing. */
  ghost predicate TreeOk(v2: bool, t: Tree)
    requires WellFormed(t)
  {
    && NameOk(t.name.s)
    && (forall a | a in t.args :: ValueOk(a.value))
    && (v2 ==> forall i | 1 <= i < |t.args| :: Shown(t.args[i]).typ == [])
    && (forall k | k in t.properties.order :: NameOk(k) && ValueOk(t.properties.props[k].value))
    && (forall c | c in t.children :: TreeOk(v2, c))
  }

  lemma {:induction false} PropEntriesMeaning(p: Properties, keys: seq<Bytes>, props: map<Bytes, TValue>, v2: bool, afterArg: bool)
    requires forall k | k in keys :: k in props
    ensures var es := PropEntries(keys, props);
            && Args(es) == [] && Props(p, es) == AddAll(p, keys, props)
            && (EntriesOk(v2, afterArg, es) <==> forall k | k in keys :: NameOk(k) && ValueOk(props[k].value))
            && (PlainEntries(es) <==> forall k | k in keys :: Plain(props[k].value))
    decreases |keys|
  {
    if keys != [] {
      var k, es := keys[0], PropEntries(keys, props);
      PropEntriesMeaning(p.Add(k, props[k]), keys[1..], props, v2, false);
      assert es[1..] == PropEntries(keys[1..], props);
      assert forall x :: x in keys <==> x == k || x in keys[1..];
      assert forall e :: e in es <==> e == es[0] || e in es[1..];
      NameReads(k);
    }
  }

  predicate ArgsOk(v2: bool, afterArg: bool, args: seq<TValue>)
    decreases |args|
  {
    args == [] || (ValueOk(args[0].value) && (v2 && afterArg ==> args[0].typ == []) && ArgsOk(v2, true, args[1..]))
  }

  lemma {:induction false} ArgsOkMeaning(v2: bool, afterArg: bool, args: seq<TValue>)
    ensures ArgsOk(v2, afterArg, args)
       <==> && (forall a | a in args :: ValueOk(a.value))
            && (v2 ==> forall i | (if afterArg then 0 else 1) <= i < |args| :: args[i].typ == [])
    decreases |args|
  {
    hide ValueOk;
    if args != [] {
      ArgsOkMeaning(v2, true, args[1..]);
      assert forall a :: a in args <==> a == args[0] || a in args[1..];
      assert forall i | 1 <= i < |args| :: args[i] == args[1..][i - 1];
      assert forall i | 0 <= i < |args| - 1 :: args[1..][i] == args[i + 1];
    }
  }

  lemma {:induction false} ArgEntriesMeaning(p: Properties, args: seq<TValue>, rest: seq<SEntry>, v2: bool, afterArg: bool)
    ensures var es := ArgEntries(args) + rest;
            && Args(es) == args + Args(rest) && Props(p, es) == Props(p, rest)
            && (EntriesOk(v2, afterArg, es) <==>
                  ArgsOk(v2, afterArg, args) && EntriesOk(v2, if args == [] then afterArg else true, rest))
    decreases |args|
  {
    hide ValueOk;
    var es := ArgEntries(args) + rest;
    if args == [] {
      assert es == rest && args + Args(rest) == Args(rest);
    } else {
      hide EntriesOk;
      ArgEntriesMeaning(p, args[1..], rest, v2, true);
      OneMoreEntry(v2, afterArg, SEntry(false, Arg(args[0])), ArgEntries(args[1..]) + rest);
      assert es == [SEntry(false, Arg(args[0]))] + (ArgEntries(args[1..]) + rest);
      assert es[1..] == ArgEntries(args[1..]) + rest;
      assert [args[0]] + (args[1..] + Args(rest)) == args + Args(rest);
    }
  }

  lemma {:induction false} ArgEntriesPlain(args: seq<TValue>, rest: seq<SEntry>)
    ensures PlainEntries(ArgEntries(args) + rest) <==> (forall a | a in args :: Plain(a.value)) && PlainEntries(rest)
    decreases |args|
  {
    hide Plain;
    var es := ArgEntries(args) + rest;
    if args == [] {
      assert es == rest;
    } else {
      ArgEntriesPlain(args[1..], rest);
      assert es[1..] == ArgEntries(args[1..]) + rest;
      assert forall a :: a in args <==> a == args[0] || a in args[1..];
      assert forall e :: e in es <==> e == es[0] || e in es[1..];
    }
  }

  ghost function SourceEntries(t: Tree): seq<SEntry>
    requires t.properties.Valid()
  {
    ArgEntries(ShownAll(t.args)) + PropEntries(t.properties.order, ShownProps(t.properties).props)
  }

  lemma EntriesMeaning(v2: bool, args: seq<TValue>, p: Properties)
    requires p.Valid()
    ensures var es := ArgEntries(args) + PropEntries(p.order, p.props);
            && Args(es) == args && Props(NO_PROPERTIES, es) == p
            && (EntriesOk(v2, false, es) <==>
                  && (forall a | a in args :: ValueOk(a.value))
                  && (v2 ==> forall i | 1 <= i < |args| :: args[i].typ == [])
                  && (forall k | k in p.order :: NameOk(k) && ValueOk(p.props[k].value)))
            && (PlainEntries(es) <==> (forall a | a in args :: Plain(a.value))
                                      && forall k | k in p.order :: Plain(p.props[k].value))
  {
    hide EntriesOk, Args, Props, PlainEntries, AddAll, ArgsOk;
    var rest := PropEntries(p.order, p.props);
    PropEntriesMeaning(NO_PROPERTIES, p.order, p.props, v2, args != []);
    ArgEntriesMeaning(NO_PROPERTIES, args, rest, v2, false);
    ArgEntriesPlain(args, rest);
    ArgsOkMeaning(v2, false, args);
    assert args + [] == args;
    Rebuild(p, 0);
    assert Prefix(p, 0) == NO_PROPERTIES && p.order[0..] == p.order;
  }

  /** Rendering changes annotations only. */
  lemma ShownValues(args: seq<TValue>, p: Properties)
    requires p.Valid()
    ensures (forall a | a in ShownAll(args) :: ValueOk(a.value)) <==> forall a | a in args :: ValueOk(a.value)
    ensures (forall a | a in ShownAll(args) :: Plain(a.value)) <==> forall a | a in args :: Plain(a.value)
    ensures forall k | k in p.order :: ShownProps(p).props[k].value == p.props[k].value
  {
    hide ValueOk, Plain;
    forall a | a in args ensures Shown(a) in ShownAll(args) && Shown(a).value == a.value {
      var i :| 0 <= i < |args| && args[i] == a;
      assert ShownAll(args)[i] == Shown(a);
    }
    forall a | a in ShownAll(args) ensures exists b | b in args :: a == Shown(b) {
      var i :| 0 <= i < |args| && ShownAll(args)[i] == a;
      assert args[i] in args;
    }
  }

  lemma SourceEntriesMeaning(v2: bool, t: Tree)
    requires t.properties.Valid()
    ensures var es := SourceEntries(t);
            && Args(es) == ShownAll(t.args) && Props(NO_PROPERTIES, es) == ShownProps(t.properties)
            && (EntriesOk(v2, false, es) <==>
                  && (forall a | a in t.args :: ValueOk(a.value))
                  && (v2 ==> forall i | 1 <= i < |t.args| :: Shown(t.args[i]).typ == [])
                  && (forall k | k in t.properties.order :: NameOk(k) && ValueOk(t.properties.props[k].value)))
            && (PlainEntries(es) <==> (forall a | a in t.args :: Plain(a.value))
                                      && forall k | k in t.properties.order :: Plain(t.properties.props[k].value))
  {
    hide EntriesOk, Args, Props, PlainEntries, ValueOk, Plain, ArgEntries, PropEntries;
    ShownPropsSame(t.properties);
    ShownValues(t.args, t.properties);
    EntriesMeaning(v2, ShownAll(t.args), ShownProps(t.properties));
    assert forall i | 0 <= i < |t.args| :: ShownAll(t.args)[i] == Shown(t.args[i]);
  }

  lemma {:induction false} SourceNodeMeaning(v2: bool, t: Tree)
    requires WellFormed(t)
    ensures EraseNode(SourceNode(t)) == Printed(t) && PlainNode(SourceNode(t))
    ensures NodeOk(v2, SourceNode(t)) <==> TreeOk(v2, t)
    decreases t, 0
  {
    hide EntriesOk, Args, Props, PlainEntries, SourceEntries, ValueOk, NameOk, Plain, ShownAll, ShownProps, Shown;
    SourceEntriesMeaning(v2, t);
    SourceMeaning(v2, t.children);
  }

  lemma {:induction false} SourceMeaning(v2: bool, ts: seq<Tree>)
    requires forall t | t in ts :: WellFormed(t)
    ensures Erase(Source(ts)) == PrintedAll(ts) && PlainNodes(Source(ts))
    ensures NodesOk(v2, Source(ts)) <==> forall t | t in ts :: TreeOk(v2, t)
    decreases ts, 1
  {
    if ts != [] {
      var ns := Source(ts);
      SourceNodeMeaning(v2, ts[0]);
      SourceMeaning(v2, ts[1..]);
      assert ns[1..] == Source(ts[1..]);
      assert forall n :: n in ns <==> n == ns[0] || n in ns[1..];
      assert forall t :: t in ts <==> t == ts[0] || t in ts[1..];
    }
  }

  /**
    What a run on the tokens printed for ts comes to: it succeeds exactly when all names and strings of
    the trees have a faithful spelling and, in version 2, only first arguments show an annotation.  Then
    it yields the trees as they were printed, and these are the trees themselves exactly when no
    hexadecimal value is annotated.
   */
  ghost predicate Returns(r: Result, v: Version, ts: seq<Tree>)
    requires forall t | t in ts :: WellFormed(t)
  {
    && (r.o.Ok? <==> forall t | t in ts :: TreeOk(v.V2?, t))
    && (r.o.Ok? ==> Yields(r, v, PrintedAll(ts)))
    && (Yields(r, v, ts) <==> (forall t | t in ts :: TreeOk(v.V2?, t)) && forall t | t in ts :: TypesKept(t))
  }

  /** Printing a document tree and parsing the tokens gives the tree back, property order included. */
  lemma PrintThenParse(v: Version, ts: seq<Tree>, lay: Layout)
    requires forall t | t in ts :: WellFormed(t)
    ensures Returns(Run(Initial(v), DocumentTokens(Source(ts), lay)), v, ts)
  {
    hide Run, DocumentIs, TreeOk, TypesKept, NodesOk, WellFormed;
    var r := Run(Initial(v), DocumentTokens(Source(ts), lay));
    SourceMeaning(v.V2?, ts);
    ParseWritten(v, Source(ts), lay);
    PrintedAllSame(ts);
    if Yields(r, v, ts) {
      YieldsOne(r, v, ts, PrintedAll(ts));
    }
  }

  /** A node with one annotated hexadecimal argument. */
  function HexNode(name: Bytes, typ: Bytes, digits: Bytes): Tree {
    Tree([], Str(name), [TValue(typ, Num(Hexadecimal, digits))], NO_PROPERTIES, [])
  }

  /** Whatever its annotation, it is printed like the node without one, and comes back without it. */
  lemma HexTypeLost(v: Version, name: Bytes, typ: Bytes, digits: Bytes, lay: Layout)
    requires NameOk(name) && typ != []
    ensures var t, bare := HexNode(name, typ, digits), HexNode(name, [], digits);
            && WellFormed(t) && WellFormed(bare) && SourceNode(t) == SourceNode(bare)
            && var r := Run(Initial(v), DocumentTokens(Source([t]), lay));
               Yields(r, v, [bare]) && !Yields(r, v, [t])
  {
    hide Run, DocumentTokens, NameOk, DocumentIs;
    var t, bare := HexNode(name, typ, digits), HexNode(name, [], digits);
    assert t.args[0] in t.args;
    assert ShownAll(t.args) == bare.args == ShownAll(bare.args);
    assert ShownProps(NO_PROPERTIES) == NO_PROPERTIES;
    assert [t][1..] == [] && PrintedAll([t]) == [bare];
    assert t in [t];
    PrintThenParse(v, [t], lay);
  }
}
