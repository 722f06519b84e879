/**
  The heap objects of a parse: nodes written in place, the pool they may come from, the document's
  list and the stack of open nodes.  The abstract value of the whole is a Machine.Heap.
 */
module Nodes {
  import opened Utf8
  import opened Document
  import opened Machine

  class Node {
    var typ: Bytes
    var name: Value
    var args: seq<TValue>
    var order: seq<Bytes>
    var props: map<Bytes, TValue>
    var children: seq<Node>

    constructor ()
      ensures IsBlank()
    {
      typ, name, args, order, props, children := [], Nothing, [], [], map[], [];
    }

    ghost predicate IsBlank()
      reads this
    {
      typ == [] && name == Nothing && args == [] && order == [] && props == map[] && children == []
    }

    /** *n = Node{} */
    method Reset()
      modifies this
      ensures IsBlank()
    {
      typ, name, args, order, props, children := [], Nothing, [], [], map[], [];
    }

    method AddNode(child: Node)
      modifies this`children
      ensures children == old(children) + [child]
    {
      children := children + [child];
    }

    method AddArgumentValue(v: TValue)
      modifies this`args
      ensures args == old(args) + [v]
    {
      args := args + [v];
    }

    /** Properties.Add: the key keeps its first place, the value is the last one added. */
    method AddPropertyValue(key: Bytes, v: TValue)
      modifies this`order, this`props
      ensures Properties(order, props) == old(Properties(order, props)).Add(key, v)
    {
      if key !in props {
        order := order + [key];
      }
      props := props[key := v];
    }
  }

  /** Pool slots are handed out in order, each once; when they run out nodes come from the heap. */
  class Allocator {
    const nodes: seq<Node>
    var ni: nat

    ghost predicate Valid()
      reads this
    {
      ni <= |nodes| && forall i, j | 0 <= i < j < |nodes| :: nodes[i] != nodes[j]
    }

    /** The slots not handed out yet. */
    ghost function Free(): set<Node>
      requires Valid()
      reads this
    {
      set i | ni <= i < |nodes| :: nodes[i]
    }

    constructor (estimatedNodes: int)
      ensures Valid() && ni == 0
      ensures |nodes| == if estimatedNodes < 1 then 1 else estimatedNodes
      ensures forall n | n in nodes :: fresh(n)
    {
      var count := if estimatedNodes < 1 then 1 else estimatedNodes;
      var slots: seq<Node> := [];
      for i := 0 to count
        invariant |slots| == i
        invariant forall n | n in slots :: fresh(n)
        invariant forall i, j | 0 <= i < j < |slots| :: slots[i] != slots[j]
      {
        var n := new Node();
        slots := slots + [n];
      }
      nodes, ni := slots, 0;
    }

    method NewNode() returns (n: Node)
      requires Valid()
      modifies this, nodes
      ensures Valid() && n.IsBlank()
      ensures fresh(n) || n in old(Free())
      ensures n !in Free() && Free() <= old(Free())
      ensures forall m | m in nodes && m != n :: unchanged(m)
    {
      if ni >= |nodes| {
        n := new Node();
      } else {
        n := nodes[ni];
        ni := ni + 1;
        n.Reset();
      }
    }
  }

  /** The pointers ns are the nodes of the pool at the positions ids. */
  ghost predicate Refers(pool: seq<Node>, ns: seq<Node>, ids: seq<nat>) {
    |ns| == |ids| && forall i | 0 <= i < |ns| :: ids[i] < |pool| && pool[ids[i]] == ns[i]
  }

  ghost predicate Represents(pool: seq<Node>, n: Node, r: Rec)
    reads n
  {
    && n.typ == r.typ && n.name == r.name && n.args == r.args && Properties(n.order, n.props) == r.properties
    && Refers(pool, n.children, r.children)
  }

  lemma RefersMore(pool: seq<Node>, more: seq<Node>, ns: seq<Node>, ids: seq<nat>)
    requires Refers(pool, ns, ids)
    ensures Refers(pool + more, ns, ids)
  {}

  lemma RepresentsMore(pool: seq<Node>, more: seq<Node>, n: Node, r: Rec)
    requires Represents(pool, n, r)
    ensures Represents(pool + more, n, r)
  {}

  lemma BlankRepresented(pool: seq<Node>, n: Node)
    requires n.IsBlank()
    ensures Represents(pool, n, BLANK)
  {}

  ghost function Linked(h: Heap, id: nat): Heap
    requires h.stack != [] ==> h.TopValid()
  {
    if h.stack == [] then h.(doc := h.doc + [id])
    else h.Write(h.store[h.Top()].(children := h.store[h.Top()].children + [id]))
  }

  lemma AddIsLink(h: Heap)
    requires h.stack != [] ==> h.TopValid()
    ensures var n := |h.store|;
            var linked := Linked(h.(store := h.store + [BLANK]), n);
            h.Add() == linked.(stack := linked.stack + [n])
  {
    if h.stack != [] {
      assert (h.store + [BLANK])[h.Top() := h.store[h.Top()].(children := h.store[h.Top()].children + [|h.store|])]
          == h.store[h.Top() := h.store[h.Top()].(children := h.store[h.Top()].children + [|h.store|])] + [BLANK];
    } else {
      assert [] + [|h.store|] == [|h.store|];
    }
  }

  /** The document's list, the stack of open nodes, and the allocator they come from. */
  class NodeStack {
    var doc: seq<Node>
    /** Open nodes, the current one last. */
    var node: seq<Node>
    const alloc: Allocator?

    /** Every node handed out so far, in order. */
    ghost var pool: seq<Node>
    /** The abstract value. */
    ghost var heap: Heap

    ghost function Repr(): (r: set<object>)
      reads this
      ensures this in r
    {
      {this} + (set n: Node | n in pool)
      + (if alloc == null then {} else {alloc} + (set n: Node | n in alloc.nodes))
    }

    ghost predicate Valid()
      reads this, Repr()
    {
      && (forall i, j | 0 <= i < j < |pool| :: pool[i] != pool[j])
      && Refers(pool, doc, heap.doc) && Refers(pool, node, heap.stack)
      && |heap.store| == |pool| && (forall i | 0 <= i < |pool| :: Represents(pool, pool[i], heap.store[i]))
      && (alloc != null ==> alloc.Valid() && forall n | n in alloc.Free() :: n !in pool)
    }

    /** A context without a size estimate has no pool. */
    constructor (inputSizeEstimate: int)
      ensures Valid() && fresh(Repr())
      ensures heap == Heap([], [], [])
      ensures (alloc != null) == (inputSizeEstimate > 0)
    {
      doc, node, pool, heap := [], [], [], Heap([], [], []);
      if inputSizeEstimate > 0 {
        var a := new Allocator(inputSizeEstimate / 25);
        alloc := a;
      } else {
        alloc := null;
      }
    }

    /** A blank node that was never handed out before, from the pool or from the heap. */
    method Allocate() returns (n: Node)
      requires alloc != null ==> alloc.Valid() && forall n | n in alloc.Free() :: n !in pool
      modifies if alloc == null then {} else {alloc} + set n: Node | n in alloc.nodes
      ensures n.IsBlank() && n !in pool && (fresh(n) || (alloc != null && n in alloc.nodes))
      ensures alloc != null ==> alloc.Valid() && n !in alloc.Free() && alloc.Free() <= old(alloc.Free())
      ensures forall m: Node | m in pool :: unchanged(m)
    {
      if alloc == null {
        n := new Node();
      } else {
        n := alloc.NewNode();
        assert fresh(n) || n in old(alloc.Free());
        forall m: Node | m in pool ensures unchanged(m) {
          assert m in alloc.nodes || m !in alloc.nodes;
        }
      }
    }

    method NewNode() returns (n: Node)
      requires Valid()
      modifies Repr()
      ensures Valid() && n.IsBlank() && n !in old(pool)
      ensures doc == old(doc) && node == old(node)
      ensures pool == old(pool) + [n] && heap == old(heap).(store := old(heap).store + [BLANK])
      ensures |pool| == |heap.store|
      ensures fresh(Repr() - old(Repr()))
    {
      hide Represents, Refers, Node.IsBlank;
      n := Allocate();
      ghost var before := pool;
      pool := pool + [n];
      forall i | 0 <= i < |before| ensures Represents(pool, pool[i], heap.store[i]) {
        assert before[i] in before && unchanged(before[i]);
        RepresentsMore(before, [n], before[i], heap.store[i]);
      }
      RefersMore(before, [n], doc, heap.doc);
      RefersMore(before, [n], node, heap.stack);
      BlankRepresented(pool, n);
      heap := heap.(store := heap.store + [BLANK]);
    }

    method CreateNode() returns (n: Node)
      requires Valid()
      modifies Repr()
      ensures Valid() && fresh(Repr() - old(Repr()))
      ensures heap == old(heap).Create()
      ensures node != [] && n == node[|node| - 1]
    {
      n := NewNode();
      Push(n);
    }

    /** The newest node becomes the current one. */
    method Push(n: Node)
      requires Valid() && pool != [] && n == pool[|pool| - 1]
      modifies this`node, this`heap
      ensures Valid() && Repr() == old(Repr()) && node == old(node) + [n]
      ensures heap == old(heap).(stack := old(heap).stack + [|pool| - 1])
    {
      node := node + [n];
      heap := heap.(stack := heap.stack + [|pool| - 1]);
    }

    /** The newest node is added to the current one, or to the document when there is none. */
    method Link(n: Node)
      requires Valid() && pool != [] && n == pool[|pool| - 1]
      requires heap.stack != [] ==> heap.Top() < |pool| - 1
      modifies Repr()
      ensures Valid() && Repr() == old(Repr()) && pool == old(pool) && node == old(node)
      ensures heap == Linked(old(heap), |pool| - 1)
    {
      if |node| > 0 {
        var parent := node[|node| - 1];
        ghost var r := heap.store[heap.Top()];
        parent.AddNode(n);
        Written(parent, r.(children := r.children + [|pool| - 1]));
      } else {
        doc := doc + [n];
        heap := heap.(doc := heap.doc + [|pool| - 1]);
      }
    }

    method AddNode() returns (n: Node)
      requires Valid() && (heap.stack != [] ==> heap.TopValid())
      modifies Repr()
      ensures Valid() && fresh(Repr() - old(Repr()))
      ensures heap == old(heap).Add()
      ensures node != [] && n == node[|node| - 1]
    {
      hide Valid, Represents, Refers, Linked, Node.IsBlank;
      n := NewNode();
      Link(n);
      Push(n);
      AddIsLink(old(heap));
    }

    /** popNode; false when the stack is empty. */
    method PopNode() returns (ok: bool)
      requires Valid()
      modifies this`node, this`heap
      ensures Valid() && Repr() == old(Repr())
      ensures ok == (old(heap).stack != [])
      ensures heap == if ok then old(heap).Pop() else old(heap)
    {
      if |node| == 0 {
        return false;
      }
      node := node[..|node| - 1];
      heap := heap.Pop();
      ok := true;
    }

    /** The node that is written: the last one on the stack, or null. */
    function CurrentNode(): (n: Node?)
      reads this
    {
      if |node| == 0 then null else node[|node| - 1]
    }

    method SetName(name: Value)
      requires Valid() && heap.TopValid()
      modifies Repr()
      ensures Valid() && Repr() == old(Repr())
      ensures heap == old(heap).Write(old(heap).store[old(heap).Top()].(name := name))
    {
      var n := node[|node| - 1];
      n.name := name;
      Written(n, heap.store[heap.Top()].(name := name));
    }

    method SetType(typ: Bytes)
      requires Valid() && heap.TopValid()
      modifies Repr()
      ensures Valid() && Repr() == old(Repr())
      ensures heap == old(heap).Write(old(heap).store[old(heap).Top()].(typ := typ))
    {
      var n := node[|node| - 1];
      n.typ := typ;
      Written(n, heap.store[heap.Top()].(typ := typ));
    }

    method AddArgument(v: TValue)
      requires Valid() && heap.TopValid()
      modifies Repr()
      ensures Valid() && Repr() == old(Repr())
      ensures var r := old(heap).store[old(heap).Top()];
              heap == old(heap).Write(r.(args := r.args + [v]))
    {
      var n := node[|node| - 1];
      n.AddArgumentValue(v);
      Written(n, heap.store[heap.Top()].(args := n.args));
    }

    method AddProperty(key: Bytes, v: TValue)
      requires Valid() && heap.TopValid()
      modifies Repr()
      ensures Valid() && Repr() == old(Repr())
      ensures var r := old(heap).store[old(heap).Top()];
              heap == old(heap).Write(r.(properties := r.properties.Add(key, v)))
    {
      var n := node[|node| - 1];
      n.AddPropertyValue(key, v);
      Written(n, heap.store[heap.Top()].(properties := Properties(n.order, n.props)));
    }

    /** Records in the abstract value that the open node n has become r. */
    ghost method Written(n: Node, r: Rec)
      requires heap.TopValid() && Represents(pool, n, r)
      requires (forall i, j | 0 <= i < j < |pool| :: pool[i] != pool[j])
      requires Refers(pool, doc, heap.doc) && Refers(pool, node, heap.stack) && node != [] && n == node[|node| - 1]
      requires |heap.store| == |pool|
      requires forall i | 0 <= i < |pool| && pool[i] != n :: Represents(pool, pool[i], heap.store[i])
      requires alloc != null ==> alloc.Valid() && forall n | n in alloc.Free() :: n !in pool
      modifies this`heap
      ensures Valid() && heap == old(heap).Write(r)
    {
      heap := heap.Write(r);
    }
  }
}
