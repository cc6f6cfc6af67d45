/** The heap object of container/src/heap.c: a root pointer and a 32-bit size over the nodes of `PairingHeap`. */
module PairingHeapObject {
  import opened PairingTree
  import opened PairingHeap

  const UINT32_MAX := 0xffff_ffff

  /** Leads the links into `x` past it. */
  method Bypass(root: HeapNode, x: HeapNode, ghost t: Shape)
    requires Linked(root, t, null) && Distinct(t) && x in Nodes(t) && x != root
    modifies Nodes(t)
    ensures Bypassed(old(Snapshot(Nodes(t))), Snapshot(Nodes(t)), Nodes(t), x)
    ensures x.child == old(x.child)
  {
    ghost var m0 := Snapshot(Nodes(t));
    Remember(Nodes(t), root, t, null);
    BackLinks(m0, root, t, null);
    LeftLinks(m0, root, t, null, x);
    hide Linked, LinkedIn, Distinct, Nodes;
    assert forall n :: n in Nodes(t) ==> m0[n] == Cell(n.child, n.left, n.right);
    if x.right != null {
      x.right.left := x.left;
    }
    if x.left.child == x {
      x.left.child := x.right;
    } else {
      x.left.right := x.right;
    }
  }

  /** The children of a node that stands alone become a list of their own, and the node is cleared. */
  method TakeKids(x: HeapNode, ghost kids: Shape) returns (children: HeapNode?)
    requires Linked(x.child, kids, x) && Distinct(kids) && x !in Nodes(kids)
    modifies x, Nodes(kids)
    ensures Linked(children, kids, null)
    ensures x.child == null && x.left == null && x.right == null
  {
    children := x.child;
    if children != null {
      children.left := null;
    }
    x.child, x.left, x.right := null, null, null;
  }

  /** Nothing below `x` is affected by leading links past `x`. */
  lemma KidsAway(m0: Memory, m1: Memory, t: Shape, x: HeapNode)
    requires Nodes(t) <= m0.Keys && Nodes(t) <= m1.Keys && Distinct(t) && x in Nodes(t)
    requires Nodes(Kids(t, x)) <= Nodes(t) && LinkedIn(m0, m0[x].child, Kids(t, x), x)
    requires m0[x].right == null || m0[x].right !in Nodes(Kids(t, x))
    requires Bypassed(m0, m1, Nodes(t), x) && m1[x].child == m0[x].child
    ensures LinkedIn(m1, m1[x].child, Kids(t, x), x)
  {
    UnlinkNodes(t, x);
    BypassAway(m0, m1, m0[x].child, Kids(t, x), x, x);
  }

  lemma Afterwards(m0: Memory, m1: Memory, root: HeapNode, t: Shape, x: HeapNode)
    requires Nodes(t) <= m0.Keys && LinkedIn(m0, root, t, null) && Distinct(t) && x in Nodes(t) && x != root
    requires m1 == Snapshot(Nodes(t)) && Bypassed(m0, m1, Nodes(t), x) && m1[x].child == m0[x].child
    ensures Linked(root, Unlink(t, x), null) && Linked(x.child, Kids(t, x), x)
  {
    BackLinks(m0, root, t, null);
    BypassUnlinks(m0, m1, root, t, null, x);
    Remember(Nodes(t), root, Unlink(t, x), null);
    KidsLinked(m0, root, t, null, x);
    UnlinkNodes(t, x);
    KidsAway(m0, m1, t, x);
    Remember(Nodes(t), x.child, Kids(t, x), x);
  }

  /** Detaches node `x` from its siblings and its parent, and hands out its children as a list of their own. */
  method Detach(root: HeapNode, x: HeapNode, ghost t: Shape) returns (children: HeapNode?)
    requires Linked(root, t, null) && Distinct(t) && x in Nodes(t) && x != root
    modifies Nodes(t)
    ensures Linked(root, Unlink(t, x), null) && Linked(children, Kids(t, x), null)
    ensures x.child == null && x.left == null && x.right == null
  {
    ghost var m0 := Snapshot(Nodes(t));
    Remember(Nodes(t), root, t, null);
    UnlinkNodes(t, x);
    Bypass(root, x, t);
    ghost var m1 := Snapshot(Nodes(t));
    Afterwards(m0, m1, root, t, x);
    NodesExist(Unlink(t, x));
    children := TakeKids(x, Kids(t, x));
  }

  // ---------- The operations between root pointers ----------

  method InsertRoot(rank: Ranking, root: HeapNode?, node: HeapNode, ghost t: Shape) returns (r: HeapNode)
    requires Linked(root, t, null) && Distinct(t) && HeapOrdered(t) && KeysMatch(rank, t, null) && node !in Nodes(t)
    modifies node, Nodes(t)
    ensures Linked(r, Insert(t, node, rank(node)), null)
  {
    NodesExist(t);
    node.child, node.left, node.right := null, null, null;
    ghost var leaf := Node(node, rank(node), Nil, Nil);
    assert Nodes(leaf) == {node};
    r := HeapMeld(rank, root, node, t, leaf);
  }

  method PopRoot(rank: Ranking, root: HeapNode, ghost t: Shape) returns (r: HeapNode?)
    requires Linked(root, t, null) && Distinct(t) && KeysMatch(rank, t.child, null)
    modifies Nodes(t)
    ensures Linked(r, MergePairs(t.child), null)
    ensures root.child == null && root.left == null && root.right == null
  {
    var children := root.child;
    if children != null {
      children.left := null;
    }
    r := HeapMergePairsIter(rank, children, t.child);
    MergeContents(t.child);
    NodesExist(t.child);
    root.child, root.left, root.right := null, null, null;
  }

  lemma {:induction false} OtherKeys(rank: Ranking, t: Shape, x: HeapNode)
    requires KeysMatch(rank, t, x) && x !in Nodes(t)
    ensures KeysMatch(rank, t, null)
  {
    if t.Node? {
      OtherKeys(rank, t.child, x);
      OtherKeys(rank, t.right, x);
    }
  }

  lemma {:induction false} UnlinkKeys(rank: Ranking, t: Shape, x: HeapNode)
    requires KeysMatch(rank, t, x) && Distinct(t)
    ensures KeysMatch(rank, Unlink(t, x), null) && KeysMatch(rank, Kids(t, x), null)
  {
    if t.Node? {
      if t.id == x {
        OtherKeys(rank, t.child, x);
        OtherKeys(rank, t.right, x);
      } else {
        UnlinkKeys(rank, t.child, x);
        UnlinkKeys(rank, t.right, x);
      }
    }
  }

  method RemoveInner(rank: Ranking, root: HeapNode, node: HeapNode, ghost t: Shape) returns (r: HeapNode)
    requires Linked(root, t, null) && Distinct(t) && node in Nodes(t) && node != root
    requires KeysMatch(rank, t, node) && Single(t)
    modifies Nodes(t)
    ensures Linked(r, Remove(t, node), null)
    ensures node.child == null && node.left == null && node.right == null
  {
    ghost var rest, kids := Unlink(t, node), Kids(t, node);
    UnlinkNodes(t, node);
    UnlinkKeys(rank, t, node);
    NodesExist(t);
    MergeContents(kids);
    var children := Detach(root, node, t);
    var remeld := HeapMergePairsIter(rank, children, kids);
    MergeKeys(rank, kids, null);
    r := HeapMeld(rank, root, remeld, rest, MergePairs(kids));
  }

  // ---------- The same on shapes ----------

  ghost predicate Good(rank: Ranking, t: Shape, stale: HeapNode?) {
    Distinct(t) && HeapOrdered(t) && KeysMatch(rank, t, stale)
  }

  lemma GoodInsert(rank: Ranking, t: Shape, x: HeapNode)
    requires Good(rank, t, null) && x !in Nodes(t)
    ensures var r := Insert(t, x, rank(x));
            Good(rank, r, null) && Nodes(r) == Nodes(t) + {x} && |Nodes(r)| == |Nodes(t)| + 1 && r.Node?
  {
    InsertCorrect(t, x, rank(x));
    MeldKeys(rank, t, Node(x, rank(x), Nil, Nil), null);
  }

  lemma GoodPop(rank: Ranking, t: Shape)
    requires t.Node? && Good(rank, t, t.id)
    ensures var r := MergePairs(t.child);
            Good(rank, r, null) && Nodes(r) == Nodes(t) - {t.id} && |Nodes(r)| == |Nodes(t)| - 1
    ensures KeysMatch(rank, t.child, null)
  {
    PopCorrect(t);
    OtherKeys(rank, t.child, t.id);
    MergeKeys(rank, t.child, null);
  }

  lemma GoodRemove(rank: Ranking, t: Shape, x: HeapNode)
    requires Good(rank, t, x) && x in Nodes(t)
    ensures var r := Remove(t, x);
            Good(rank, r, null) && Nodes(r) == Nodes(t) - {x} && |Nodes(r)| == |Nodes(t)| - 1
  {
    if t.id == x {
      GoodPop(rank, t);
    } else {
      RemoveCorrect(t, x);
      UnlinkKeys(rank, t, x);
      MergeKeys(rank, Kids(t, x), null);
      MeldKeys(rank, Unlink(t, x), MergePairs(Kids(t, x)), null);
    }
  }

  lemma GoodMove(rank: Ranking, a: Shape, b: Shape)
    requires Good(rank, a, null) && Good(rank, b, null) && Disjoint(a, b)
    ensures Nodes(a) !! Nodes(b)
    ensures Good(rank, Meld(a, b), null) && Nodes(Meld(a, b)) == Nodes(a) + Nodes(b)
    ensures |Nodes(Meld(a, b))| == |Nodes(a)| + |Nodes(b)|
  {
    MoveCorrect(a, b);
    MeldNodes(a, b);
    MeldKeys(rank, a, b, null);
  }

  lemma TopFacts(rank: Ranking, root: HeapNode?, t: Shape, x: HeapNode?)
    requires Linked(root, t, null) && Good(rank, t, x)
    ensures root == Root(t) && Single(t) && Distinct(t) && KeysMatch(rank, t, x)
    ensures x == null || |Nodes(t)| == 0 ==> Good(rank, t, null)
    ensures |Nodes(t)| == 0 <==> t.Nil?
    ensures |Nodes(t)| == 0 && x != null ==> Remove(t, x) == t
    ensures t.Node? && x == t.id ==> Remove(t, x) == MergePairs(t.child)
  {
    if t.Node? {
      assert t.id in Nodes(t);
    }
  }

  lemma EmptyIsValid(rank: Ranking, heap: Heap)
    requires heap.root == null && heap.size == 0 && heap.tree == Nil
    ensures heap.Valid(rank)
  {}

  lemma IsValid(rank: Ranking, heap: Heap)
    requires Linked(heap.root, heap.tree, null) && Good(rank, heap.tree, null) && heap.size == |Nodes(heap.tree)| <= UINT32_MAX
    ensures heap.Valid(rank)
  {}

  class Heap {
    var root: HeapNode?
    var size: nat // uint32_t

    ghost var tree: Shape

    /** The heap is well formed and ordered under the present ranks, node `stale` excepted. */
    ghost predicate ValidBut(rank: Ranking, stale: HeapNode?)
      reads this, Nodes(tree)
    {
      Linked(root, tree, null) && Good(rank, tree, stale) && size == |Nodes(tree)| <= UINT32_MAX
    }

    ghost predicate Valid(rank: Ranking)
      reads this, Nodes(tree)
    {
      ValidBut(rank, null)
    }

    constructor ()
      ensures forall rank :: Valid(rank)
      ensures tree == Nil
    {
      root, size, tree := null, 0, Nil;
    }

    method InsertNode(rank: Ranking, node: HeapNode?)
      requires Valid(rank)
      requires node != null ==> node !in Nodes(tree) && size < UINT32_MAX
      modifies this, Nodes(tree), node
      ensures Valid(rank)
      ensures tree == if node == null then old(tree) else Insert(old(tree), node, rank(node))
    {
      hide Linked, Insert, Nodes;
      if node == null {
        return;
      }
      GoodInsert(rank, tree, node);
      root := InsertRoot(rank, root, node, tree);
      size := size + 1;
      tree := Insert(tree, node, rank(node));
    }

    method PopTop(rank: Ranking) returns (top: HeapNode?)
      requires ValidBut(rank, root)
      modifies this, Nodes(tree)
      ensures Valid(rank)
      ensures top == old(root) == Root(old(tree))
      ensures tree == if old(tree).Nil? then Nil else MergePairs(old(tree).child)
      ensures top != null ==> top.child == null && top.left == null && top.right == null
    {
      hide Linked, MergePairs, Good, Nodes, Single, Distinct, KeysMatch, HeapOrdered, Remove;
      TopFacts(rank, root, tree, root);
      if root == null {
        return null;
      }
      top := root;
      GoodPop(rank, tree);
      root := PopRoot(rank, root, tree);
      size := size - 1;
      tree := MergePairs(tree.child);
    }

    method PeekTop() returns (top: HeapNode?)
      requires Linked(root, tree, null)
      ensures top == Root(tree)
    {
      return root;
    }

    /** Removes `node`, whose own rank may have changed since it was inserted. */
    method RemoveNode(rank: Ranking, node: HeapNode?)
      requires ValidBut(rank, node) && (node != null && size != 0 ==> node in Nodes(tree))
      modifies this, Nodes(tree)
      ensures Valid(rank)
      ensures tree == if node == null then old(tree) else Remove(old(tree), node)
      ensures node != null && old(size) != 0 ==> node.child == null && node.left == null && node.right == null
    {
      hide Linked, Good, Nodes, Remove, Single, Distinct, KeysMatch, MergePairs, HeapOrdered;
      TopFacts(rank, root, tree, node);
      if node == null || size == 0 {
        return;
      }
      GoodRemove(rank, tree, node);
      if node == root {
        var _ := PopTop(rank);
        return;
      }
      root := RemoveInner(rank, root, node, tree);
      size := size - 1;
      tree := Remove(tree, node);
    }

    /** Re-ranks `node` after any change of its rank. */
    method UpdateNode(rank: Ranking, node: HeapNode?)
      requires ValidBut(rank, node) && (node != null && size != 0 ==> node in Nodes(tree))
      modifies this, Nodes(tree), node
      ensures Valid(rank)
      ensures tree == if node == null then old(tree) else Insert(Remove(old(tree), node), node, rank(node))
    {
      if node == null {
        return;
      }
      if size != 0 {
        GoodRemove(rank, tree, node);
      }
      hide Linked, Good, Nodes, Remove, Insert;
      RemoveNode(rank, node);
      InsertNode(rank, node);
    }

    /** Moves every node of another heap into this one; moved into itself, a heap loses its nodes. */
    method MoveFrom(rank: Ranking, src: Heap?)
      requires Valid(rank)
      requires src != null && src != this ==>
                 src.Valid(rank) && Disjoint(tree, src.tree) && size + src.size <= UINT32_MAX
      modifies this, src, Nodes(tree), if src == null then {} else Nodes(src.tree)
      ensures Valid(rank) && (src != null ==> src.Valid(rank) && src.tree == Nil)
      ensures src == null ==> tree == old(tree)
      ensures src != null && src != this ==> tree == Meld(old(tree), old(src.tree))
      ensures src == this && old(root) != null ==> old(root).child == old(root) && old(root).left == old(root)
    {
      hide *;
      HeapFacts(rank, this);
      if src == null {
        return;
      }
      HeapFacts(rank, src);
      if src.size == 0 {
        return;
      }
      if src != this {
        GoodMove(rank, tree, src.tree);
      }
      ghost var both := Meld(tree, src.tree);
      if size == 0 {
        root := src.root;
        size := src.size;
      } else {
        root := HeapMeld(rank, root, src.root, tree, src.tree);
        size := size + src.size; // of no effect if `src` is this heap, which is emptied next
      }
      tree := both;
      src.root, src.size, src.tree := null, 0, Nil;
      EmptyIsValid(rank, src);
      if src != this {
        IsValid(rank, this);
      }
    }
  }

  lemma HeapFacts(rank: Ranking, heap: Heap)
    requires heap.Valid(rank)
    ensures Linked(heap.root, heap.tree, null) && Good(rank, heap.tree, null) && Single(heap.tree) && Distinct(heap.tree)
    ensures heap.size == |Nodes(heap.tree)| && (heap.size == 0 <==> heap.tree == Nil) && (heap.root == null <==> heap.tree == Nil)
    ensures heap.root != null ==> rank(heap.root) == heap.tree.key && heap.root in Nodes(heap.tree)
    ensures Meld(heap.tree, Nil) == heap.tree == Meld(Nil, heap.tree)
  {
    if heap.tree.Node? {
      assert heap.tree.id in Nodes(heap.tree);
    }
  }

  // ---------- Uses of the heap ----------

  lemma {:induction false} RerankedKeys(before: Ranking, after: Ranking, t: Shape, x: HeapNode)
    requires KeysMatch(before, t, null) && forall n :: n in Nodes(t) && n != x ==> after(n) == before(n)
    ensures KeysMatch(after, t, x)
  {
    if t.Node? {
      RerankedKeys(before, after, t.child, x);
      RerankedKeys(before, after, t.right, x);
    }
  }

  /** A change of the rank of one node, up or down, is what `RemoveNode` and `UpdateNode` are made for. */
  lemma Reranked(heap: Heap, before: Ranking, after: Ranking, node: HeapNode)
    requires heap.Valid(before)
    requires forall n :: n in Nodes(heap.tree) && n != node ==> after(n) == before(n)
    ensures heap.ValidBut(after, node)
  {
    RerankedKeys(before, after, heap.tree, node);
  }

  /** The key of a node in the heap is its rank. */
  lemma {:induction false} KeyIsRank(rank: Ranking, t: Shape)
    requires KeysMatch(rank, t, null)
    ensures forall n :: n in Nodes(t) ==> (n, rank(n)) in Items(t)
  {
    if t.Node? {
      KeyIsRank(rank, t.child);
      KeyIsRank(rank, t.right);
    }
  }

  /** What one pop takes: the root ranks least, and the other nodes stay. */
  lemma PopTakes(rank: Ranking, t: Shape)
    requires t.Node? && Good(rank, t, null)
    ensures t.id in Nodes(t) && Nodes(MergePairs(t.child)) == Nodes(t) - {t.id}
    ensures forall n :: n in Nodes(t) ==> rank(t.id) <= rank(n)
  {
    PopCorrect(t);
    KeyIsRank(rank, t);
  }

  /** `tops` are the nodes that have left, in order; `left` are those still in the heap. */
  ghost predicate Drained(rank: Ranking, all: set<HeapNode>, tops: seq<HeapNode>, left: set<HeapNode>) {
    && multiset(tops) + multiset(left) == multiset(all)
    && (forall i, j :: 0 <= i < j < |tops| ==> rank(tops[i]) <= rank(tops[j]))
    && (forall i, n :: 0 <= i < |tops| && n in left ==> rank(tops[i]) <= rank(n))
  }

  lemma DrainedNext(rank: Ranking, all: set<HeapNode>, tops: seq<HeapNode>, left: set<HeapNode>, top: HeapNode)
    requires Drained(rank, all, tops, left) && top in left && forall n :: n in left ==> rank(top) <= rank(n)
    ensures Drained(rank, all, tops + [top], left - {top})
  {
    assert multiset(left) == multiset{top} + multiset(left - {top});
  }

  lemma DrainedFirst(rank: Ranking, all: set<HeapNode>)
    ensures Drained(rank, all, [], all)
  {}

  lemma DrainedLast(rank: Ranking, all: set<HeapNode>, tops: seq<HeapNode>, t: Shape)
    requires Drained(rank, all, tops, Nodes(t)) && t.Nil?
    ensures multiset(tops) == multiset(all)
    ensures forall i, j :: 0 <= i < j < |tops| ==> rank(tops[i]) <= rank(tops[j])
  {
    assert multiset(tops) + multiset({}) == multiset(tops);
  }

  /** Popping until the heap is empty hands out every node once, the ranks never falling. */
  method PopAll(heap: Heap, rank: Ranking) returns (tops: seq<HeapNode>)
    requires heap.Valid(rank)
    modifies heap, Nodes(heap.tree)
    ensures heap.Valid(rank) && heap.tree == Nil
    ensures multiset(tops) == multiset(old(Nodes(heap.tree)))
    ensures forall i, j :: 0 <= i < j < |tops| ==> rank(tops[i]) <= rank(tops[j])
  {
    hide Linked, Nodes, Good, MergePairs, Drained;
    DrainedFirst(rank, Nodes(heap.tree));
    tops := [];
    NodesExist(heap.tree);
    var top := heap.PeekTop();
    while top != null
      invariant heap.Valid(rank) && Nodes(heap.tree) <= old(Nodes(heap.tree)) && top == Root(heap.tree)
      invariant Drained(rank, old(Nodes(heap.tree)), tops, Nodes(heap.tree))
      decreases heap.size
    {
      PopTakes(rank, heap.tree);
      DrainedNext(rank, old(Nodes(heap.tree)), tops, Nodes(heap.tree), top);
      TopFacts(rank, heap.root, heap.tree, null);
      Reranked(heap, rank, rank, top);
      var _ := heap.PopTop(rank);
      tops := tops + [top];
      NodesExist(heap.tree);
      top := heap.PeekTop();
    }
    DrainedLast(rank, old(Nodes(heap.tree)), tops, heap.tree);
  }
}
