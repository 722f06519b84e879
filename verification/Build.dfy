/**
  What reading a written document does to the nodes, and that the nodes then denote the erased trees.
 */
module Build {
  import opened Utf8
  import opened Document
  import opened Syntax
  import opened Machine
  import opened StackShape

  // ---------- Building ----------

  function ApplyEntry(r: Rec, se: SEntry): Rec {
    if se.dashed then r
    else match se.e
      case Arg(v) => r.(args := r.args + [v])
      case Prop(key, v) => r.(properties := r.properties.Add(key, v))
  }

  function ApplyEntries(r: Rec, es: seq<SEntry>): (r': Rec)
    ensures r'.typ == r.typ && r'.name == r.name && r'.children == r.children
    decreases |es|
  {
    if es == [] then r else ApplyEntries(ApplyEntry(r, es[0]), es[1..])
  }

  /** The node is opened, linked or not, and its type and name are set. */
  function Open(h: Heap, n: SNode, ignoring: bool): (h': Heap)
    requires StackOk(h)
    ensures StackOk(h') && h'.TopValid() && h'.stack == h.stack + [|h.store|]
  {
    var h1 := if n.dashed || ignoring then h.Create() else h.Add();
    h1.Write(Rec(n.typ, Str(n.name), [], NO_PROPERTIES, []))
  }

  function WithEntries(h: Heap, es: seq<SEntry>): (h': Heap)
    requires h.TopValid()
    ensures h'.TopValid() && h'.stack == h.stack && |h'.store| == |h.store|
  {
    h.Write(ApplyEntries(h.store[h.Top()], es))
  }

  function BuildNode(h: Heap, n: SNode, ignoring: bool): (h': Heap)
    requires StackOk(h)
    ensures StackOk(h') && h'.stack == h.stack && |h'.store| > |h.store|
    decreases n, 0
  {
    var h1 := WithEntries(Open(h, n, ignoring), n.entries);
    var h2 := if n.block.Block? then BuildNodes(h1, n.block.nodes, ignoring || n.block.dashed) else h1;
    assert h2.stack == h.stack + [|h.store|];
    h2.Pop()
  }

  function BuildNodes(h: Heap, ns: seq<SNode>, ignoring: bool): (h': Heap)
    requires StackOk(h)
    ensures StackOk(h') && h'.stack == h.stack && |h'.store| >= |h.store|
    decreases ns, 1
  {
    if ns == [] then h else BuildNodes(BuildNode(h, ns[0], ignoring), ns[1..], ignoring)
  }

  // ---------- Denotation ----------

  /** Node id denotes tree t, using only the nodes from lo up to hi. */
  ghost predicate Denotes(store: seq<Rec>, id: nat, t: Tree, lo: nat, hi: nat)
    decreases t, 0
  {
    && lo <= id < hi <= |store|
    && store[id].typ == t.typ && store[id].name == t.name && store[id].args == t.args
    && store[id].properties == t.properties
    && AllDenote(store, store[id].children, t.children, lo, hi)
  }

  ghost predicate AllDenote(store: seq<Rec>, ids: seq<nat>, ts: seq<Tree>, lo: nat, hi: nat)
    decreases ts, 1
  {
    && |ids| == |ts|
    && (ts != [] ==> Denotes(store, ids[0], ts[0], lo, hi) && AllDenote(store, ids[1..], ts[1..], lo, hi))
  }

  /** Whatever happens elsewhere, and in a wider range, a denotation stands. */
  lemma {:induction false} DenotesFrame(store: seq<Rec>, store': seq<Rec>, id: nat, t: Tree, lo: nat, hi: nat, lo': nat, hi': nat)
    requires Denotes(store, id, t, lo, hi) && lo' <= lo && hi <= hi' <= |store'|
    requires forall n | lo <= n < hi :: store'[n] == store[n]
    ensures Denotes(store', id, t, lo', hi')
    decreases t, 0
  {
    AllDenoteFrame(store, store', store[id].children, t.children, lo, hi, lo', hi');
  }

  lemma {:induction false} AllDenoteFrame(store: seq<Rec>, store': seq<Rec>, ids: seq<nat>, ts: seq<Tree>, lo: nat, hi: nat, lo': nat, hi': nat)
    requires AllDenote(store, ids, ts, lo, hi) && lo' <= lo && hi <= hi' <= |store'| && hi <= |store|
    requires forall n | lo <= n < hi :: store'[n] == store[n]
    ensures AllDenote(store', ids, ts, lo', hi')
    decreases ts, 1
  {
    if ts != [] {
      DenotesFrame(store, store', ids[0], ts[0], lo, hi, lo', hi');
      AllDenoteFrame(store, store', ids[1..], ts[1..], lo, hi, lo', hi');
    }
  }

  /** A node denotes at most one tree. */
  lemma {:induction false} DenotesOne(store: seq<Rec>, id: nat, t: Tree, t': Tree, lo: nat, hi: nat, lo': nat, hi': nat)
    requires Denotes(store, id, t, lo, hi) && Denotes(store, id, t', lo', hi')
    ensures t == t'
    decreases t, 0
  {
    AllDenoteOne(store, store[id].children, t.children, t'.children, lo, hi, lo', hi');
  }

  lemma {:induction false} AllDenoteOne(store: seq<Rec>, ids: seq<nat>, ts: seq<Tree>, ts': seq<Tree>, lo: nat, hi: nat, lo': nat, hi': nat)
    requires AllDenote(store, ids, ts, lo, hi) && AllDenote(store, ids, ts', lo', hi')
    ensures ts == ts'
    decreases ts, 1
  {
    if ts != [] {
      DenotesOne(store, ids[0], ts[0], ts'[0], lo, hi, lo', hi');
      AllDenoteOne(store, ids[1..], ts[1..], ts'[1..], lo, hi, lo', hi');
      assert ts == [ts[0]] + ts[1..] && ts' == [ts'[0]] + ts'[1..];
    }
  }

  lemma {:induction false} AllDenoteConcat(store: seq<Rec>, ids: seq<nat>, ts: seq<Tree>, ids': seq<nat>, ts': seq<Tree>, lo: nat, hi: nat)
    requires AllDenote(store, ids, ts, lo, hi) && AllDenote(store, ids', ts', lo, hi)
    ensures AllDenote(store, ids + ids', ts + ts', lo, hi)
    decreases |ts|
  {
    if ts == [] {
      assert ids + ids' == ids' && ts + ts' == ts';
    } else {
      AllDenoteConcat(store, ids[1..], ts[1..], ids', ts', lo, hi);
      assert (ids + ids')[1..] == ids[1..] + ids' && (ts + ts')[1..] == ts[1..] + ts';
    }
  }

  // ---------- Building denotes erasing ----------

  /** Nothing below the given length changes, except that the open node, or the document, may gain children. */
  ghost predicate Extends(h: Heap, h': Heap, added: seq<nat>) {
    && h'.stack == h.stack && |h.store| <= |h'.store|
    && h'.doc == (if h.stack == [] then h.doc + added else h.doc)
    && forall n | 0 <= n < |h.store| ::
         h'.store[n] == (if h.stack != [] && n == h.Top() then h.store[n].(children := h.store[n].children + added)
                         else h.store[n])
  }

  lemma {:induction false} EntriesApplied(r: Rec, es: seq<SEntry>)
    ensures ApplyEntries(r, es).args == r.args + Args(es)
    ensures ApplyEntries(r, es).properties == Props(r.properties, es)
    decreases |es|
  {
    if es == [] {
      assert r.args + [] == r.args;
    } else {
      EntriesApplied(ApplyEntry(r, es[0]), es[1..]);
      if !es[0].dashed && es[0].e.Arg? {
        assert r.args + [es[0].e.v] + Args(es[1..]) == r.args + ([es[0].e.v] + Args(es[1..]));
      } else {
        assert r.args + ([] + Args(es[1..])) == r.args + Args(es[1..]);
      }
    }
  }

  /** What the open node's record becomes. */
  lemma TopExtended(h: Heap, h': Heap, added: seq<nat>)
    requires h.TopValid() && Extends(h, h', added)
    ensures h.Top() < |h.store| <= |h'.store|
    ensures h'.store[h.Top()] == h.store[h.Top()].(children := h.store[h.Top()].children + added)
  {}

  /** The record of a node whose entries have been applied and whose children denote the trees of its block. */
  lemma RecordDenotes(store: seq<Rec>, n: SNode, id: nat, ids: seq<nat>, hi: nat)
    requires id < hi <= |store|
    requires store[id] == ApplyEntries(Rec(n.typ, Str(n.name), [], NO_PROPERTIES, []), n.entries).(children := ids)
    requires AllDenote(store, ids, if n.block.Block? && !n.block.dashed then Erase(n.block.nodes) else [], id, hi)
    ensures Denotes(store, id, EraseNode(n), id, hi)
  {
    hide AllDenote, ApplyEntries, Erase, Args, Props;
    EntriesApplied(Rec(n.typ, Str(n.name), [], NO_PROPERTIES, []), n.entries);
    assert [] + Args(n.entries) == Args(n.entries);
  }

  /** Reading a node adds its tree to the siblings, or nothing when it is slashdashed or in an ignored block. */
  lemma {:induction false} NodeBuilt(h: Heap, n: SNode, ignoring: bool)
    requires StackOk(h)
    ensures var h', id := BuildNode(h, n, ignoring), |h.store|;
            && Extends(h, h', if n.dashed || ignoring then [] else [id])
            && (ignoring || Denotes(h'.store, id, EraseNode(n), id, |h'.store|))
    decreases n, 0
  {
    hide Extends, Denotes, AllDenote, ApplyEntries, Open, WithEntries, EraseNode, Erase, BuildNodes;
    var id := |h.store|;
    var h1 := WithEntries(Open(h, n, ignoring), n.entries);
    var linked := if n.dashed || ignoring then [] else [id];
    OpenExtends(h, n, ignoring);
    NothingDenotes(h1.store);
    var h2, ids: seq<nat> := h1, [];
    if n.block.Block? {
      var ign := ignoring || n.block.dashed;
      h2 := BuildNodes(h1, n.block.nodes, ign);
      ids := NodesBuilt(h1, n.block.nodes, ign);
      ExtendsThrough(h, h1, h2, linked, ids);
      TopExtended(h1, h2, ids);
      assert [] + ids == ids;
      if !ign {
        AllDenoteFrame(h2.store, h2.store, ids, Erase(n.block.nodes), |h1.store|, |h2.store|, id, |h2.store|);
      }
    }
    if !ignoring {
      NoneDenote(h2.store, id, |h2.store|);
      RecordDenotes(h2.store, n, id, ids, |h2.store|);
    }
  }

  lemma NoneDenote(store: seq<Rec>, lo: nat, hi: nat)
    ensures AllDenote(store, [], [], lo, hi)
  {}

  lemma OpenExtends(h: Heap, n: SNode, ignoring: bool)
    requires StackOk(h)
    ensures var h1 := WithEntries(Open(h, n, ignoring), n.entries);
            && h1.stack == h.stack + [|h.store|] && |h1.store| == |h.store| + 1
            && Extends(h, h1.Pop(), if n.dashed || ignoring then [] else [|h.store|])
            && h1.store[|h.store|] == ApplyEntries(Rec(n.typ, Str(n.name), [], NO_PROPERTIES, []), n.entries)
            && Open(h, n, ignoring).store[|h.store|] == Rec(n.typ, Str(n.name), [], NO_PROPERTIES, [])
  {
    var h1 := WithEntries(Open(h, n, ignoring), n.entries);
    assert h1.Pop().stack == h.stack;
    if (n.dashed || ignoring) && h.stack != [] {
      assert h.store[h.Top()].children + [] == h.store[h.Top()].children;
    }
    assert h.doc + [] == h.doc;
  }

  /** Children are added to the open node only, so below it nothing changes. */
  lemma ExtendsThrough(h: Heap, h1: Heap, h2: Heap, linked: seq<nat>, ids: seq<nat>)
    requires h1.stack == h.stack + [|h.store|] && |h1.store| == |h.store| + 1 && Extends(h, h1.Pop(), linked)
    requires Extends(h1, h2, ids)
    ensures Extends(h, h2.Pop(), linked)
  {
    assert h2.Pop().stack == h.stack;
  }

  lemma {:induction false} NodesBuilt(h: Heap, ns: seq<SNode>, ignoring: bool) returns (ids: seq<nat>)
    requires StackOk(h)
    ensures Extends(h, BuildNodes(h, ns, ignoring), ids)
    ensures if ignoring then ids == []
            else AllDenote(BuildNodes(h, ns, ignoring).store, ids, Erase(ns), |h.store|, |BuildNodes(h, ns, ignoring).store|)
    decreases ns, 1
  {
    hide BuildNode, Extends, Denotes, EraseNode, StackOk, AllDenote;
    if ns == [] {
      ids := [];
      ExtendsNothing(h);
      NothingDenotes(h.store);
    } else {
      var h1 := BuildNode(h, ns[0], ignoring);
      var h2 := BuildNodes(h1, ns[1..], ignoring);
      NodeBuilt(h, ns[0], ignoring);
      var rest := NodesBuilt(h1, ns[1..], ignoring);
      var first := if ns[0].dashed || ignoring then [] else [|h.store|];
      ids := first + rest;
      ExtendsTwice(h, h1, h2, first, rest);
      if !ignoring {
        NodesDenote(h, h1, h2, ns, rest);
      }
    }
  }

  lemma NodesDenote(h: Heap, h1: Heap, h2: Heap, ns: seq<SNode>, rest: seq<nat>)
    requires StackOk(h) && ns != [] && h1.stack == h.stack && |h.store| < |h1.store| <= |h2.store|
    requires Denotes(h1.store, |h.store|, EraseNode(ns[0]), |h.store|, |h1.store|)
    requires Extends(h1, h2, rest) && AllDenote(h2.store, rest, Erase(ns[1..]), |h1.store|, |h2.store|)
    ensures AllDenote(h2.store, (if ns[0].dashed then [] else [|h.store|]) + rest, Erase(ns), |h.store|, |h2.store|)
  {
    hide Denotes, EraseNode;
    var lo, hi := |h.store|, |h2.store|;
    AllDenoteFrame(h2.store, h2.store, rest, Erase(ns[1..]), |h1.store|, hi, lo, hi);
    if !ns[0].dashed {
      FreshStays(h, h1, h2, rest);
      DenotesFrame(h1.store, h2.store, lo, EraseNode(ns[0]), lo, |h1.store|, lo, hi);
      OneDenotes(h2.store, lo, EraseNode(ns[0]), lo, hi);
      AllDenoteConcat(h2.store, [lo], [EraseNode(ns[0])], rest, Erase(ns[1..]), lo, hi);
    } else {
      assert [] + rest == rest && [] + Erase(ns[1..]) == Erase(ns[1..]);
    }
  }

  lemma NothingDenotes(store: seq<Rec>)
    ensures AllDenote(store, [], [], |store|, |store|) && Erase([]) == []
  {}

  lemma OneDenotes(store: seq<Rec>, id: nat, t: Tree, lo: nat, hi: nat)
    requires Denotes(store, id, t, lo, hi)
    ensures AllDenote(store, [id], [t], lo, hi)
  {
    assert [id][1..] == [] && [t][1..] == [];
  }

  lemma ExtendsNothing(h: Heap)
    ensures Extends(h, h, [])
  {
    assert h.doc + [] == h.doc;
    if h.TopValid() {
      assert h.store[h.Top()].children + [] == h.store[h.Top()].children;
    }
  }

  lemma ExtendsTwice(h: Heap, h1: Heap, h2: Heap, a: seq<nat>, b: seq<nat>)
    requires StackOk(h) && Extends(h, h1, a) && Extends(h1, h2, b)
    ensures Extends(h, h2, a + b)
  {
    assert h.doc + a + b == h.doc + (a + b);
    if h.stack != [] {
      assert h.store[h.Top()].children + a + b == h.store[h.Top()].children + (a + b);
    }
  }

  /** The open node was allocated before, so nodes allocated since are not touched. */
  lemma FreshStays(h: Heap, h1: Heap, h2: Heap, rest: seq<nat>)
    requires StackOk(h) && h1.stack == h.stack && |h.store| <= |h1.store| && Extends(h1, h2, rest)
    ensures forall n | |h.store| <= n < |h1.store| :: h2.store[n] == h1.store[n]
  {}

  /** The node list of the document denotes the trees ts. */
  ghost predicate DocumentIs(h: Heap, ts: seq<Tree>) {
    AllDenote(h.store, h.doc, ts, 0, |h.store|)
  }

  /** Reading a whole document from scratch leaves exactly the erased trees. */
  lemma DocumentBuilt(ns: seq<SNode>)
    ensures var h := BuildNodes(Heap([], [], []), ns, false);
            h.stack == [] && DocumentIs(h, Erase(ns))
  {
    var ids := NodesBuilt(Heap([], [], []), ns, false);
    assert [] + ids == ids;
  }
}
