/**
  The intrusive pairing heap of container/src/heap.c on real nodes.  `left` is the parent of a first child and
  the left sibling of any other child, that is, the parent in the binary tree of module `PairingTree`.
 */
module PairingHeap {
  import opened PairingTree

  class HeapNode {
    var child: HeapNode?
    var left: HeapNode?
    var right: HeapNode?

    constructor ()
    {
      child, left, right := null, null, null;
    }
  }

  /** What the comparison callback sees during one call: it ranks each node by the object around it, which no
      heap operation writes.  `a` has the higher priority when the result is negative. */
  type Ranking = HeapNode -> int

  function Compare(rank: Ranking, a: HeapNode, b: HeapNode): int {
    rank(a) - rank(b)
  }

  type Shape = Tree<HeapNode>

  ghost function Root(t: Shape): HeapNode? {
    if t.Nil? then null else t.id
  }

  /** `p` points to the shape `t`, and the first node's `left` is `up`. */
  ghost predicate Linked(p: HeapNode?, t: Shape, up: HeapNode?)
    reads Nodes(t)
    decreases t
  {
    match t
    case Nil => p == null
    case Node(id, _, child, right) =>
      && p == id && id.left == up
      && Linked(id.child, child, id)
      && Linked(id.right, right, id)
  }

  /** The nodes of a shape at hand exist; calls that modify other nodes leave them alone. */
  lemma {:induction false} NodesExist(t: Shape)
    ensures forall n :: n in Nodes(t) ==> allocated(n)
  {
    if t.Node? {
      NodesExist(t.child);
      NodesExist(t.right);
    }
  }

  /** The shape records the present ranks of all nodes but `stale`. */
  ghost predicate KeysMatch(rank: Ranking, t: Shape, stale: HeapNode?) {
    match t
    case Nil => true
    case Node(id, key, child, right) =>
      (id != stale ==> rank(id) == key) && KeysMatch(rank, child, stale) && KeysMatch(rank, right, stale)
  }

  ghost predicate Disjoint(a: Shape, b: Shape) {
    Nodes(a) !! Nodes(b)
  }

  lemma NullIsNil(p: HeapNode?, t: Shape, up: HeapNode?)
    requires Linked(p, t, up)
    ensures p == Root(t)
  {}

  /** The first node lies outside the two branches, which lie inside the shape. */
  ghost predicate TopApart(t: Shape) {
    t.Node? ==>
      && t.id in Nodes(t) && t.id !in Nodes(t.child) && t.id !in Nodes(t.right)
      && Nodes(t.child) <= Nodes(t) && Nodes(t.right) <= Nodes(t)
  }

  lemma TopIsApart(t: Shape)
    requires Distinct(t) && t.Node?
    ensures TopApart(t) && TopApart(t.child)
  {}

  lemma MeldApart(ta: Shape, tb: Shape)
    requires Distinct(ta) && Distinct(tb) && Disjoint(ta, tb) && ta.Node? && tb.Node?
    ensures TopApart(ta) && TopApart(tb) && TopApart(ta.child) && TopApart(tb.child)
    ensures ta.id !in Nodes(tb) && tb.id !in Nodes(ta) && Nodes(ta) !! Nodes(tb)
    ensures Nodes(ta.child) !! Nodes(tb.child) && Nodes(tb.child) !! Nodes(tb.right)
  {}

  /** Given one heap twice it ties the root to itself, which `ct_heap_move` makes possible. */
  method HeapMeld(rank: Ranking, a: HeapNode?, b: HeapNode?, ghost ta: Shape, ghost tb: Shape)
    returns (r: HeapNode?)
    requires Linked(a, ta, null) && Linked(b, tb, null) && Distinct(ta) && Distinct(tb) && Single(ta)
    requires (a == b && a != null) || Disjoint(ta, tb)
    requires a != null && b != null ==> rank(a) == ta.key && rank(b) == tb.key
    modifies Nodes(ta), Nodes(tb)
    ensures a != b || a == null ==> Linked(r, Meld(ta, tb), null) && (a != null || b != null ==> r != null)
    ensures a == b && a != null ==> r == a && a.child == a && a.left == a
  {
    hide Nodes, Distinct;
    NullIsNil(a, ta, null);
    NullIsNil(b, tb, null);
    if a == null {
      return b;
    }
    if b == null {
      return a;
    }
    if a == b {
      TopIsApart(ta);
    } else {
      MeldApart(ta, tb);
    }
    if Compare(rank, a, b) < 0 {
      b.right := a.child;
      if a.child != null {
        a.child.left := b;
      }
      a.child := b;
      b.left := a;
      assert Linked(b.child, tb.child, b);
      assert Linked(b.right, ta.child, b);
      assert Linked(a.right, Nil, a);
      return a;
    } else {
      a.right := b.child;
      if b.child != null {
        b.child.left := a;
      }
      b.child := a;
      a.left := b;
      if a != b {
        assert Linked(a.child, ta.child, a);
        assert Linked(a.right, tb.child, a);
        assert Linked(b.right, tb.right, b);
      }
      return b;
    }
  }

  // ---------- The merge ----------

  ghost function ChainNodes(ts: seq<Shape>): set<HeapNode> {
    if ts == [] then {} else Nodes(ts[0]) + ChainNodes(ts[1..])
  }

  /** Finished trees strung together by `right` alone. */
  ghost predicate Chained(p: HeapNode?, ts: seq<Shape>)
    reads ChainNodes(ts)
    decreases |ts|
  {
    if ts == [] then p == null
    else
      && ts[0].Node? && Single(ts[0])
      && p == ts[0].id && p.left == null
      && Linked(p.child, ts[0].child, p)
      && Chained(p.right, ts[1..])
  }

  lemma {:induction false} ChainExists(ts: seq<Shape>)
    ensures forall n :: n in ChainNodes(ts) ==> allocated(n)
  {
    if ts != [] {
      NodesExist(ts[0]);
      ChainExists(ts[1..]);
    }
  }

  ghost predicate ChainDistinct(ts: seq<Shape>) {
    ts != [] ==> Distinct(ts[0]) && Nodes(ts[0]) !! ChainNodes(ts[1..]) && ChainDistinct(ts[1..])
  }

  ghost predicate ChainKeys(rank: Ranking, ts: seq<Shape>) {
    ts != [] ==> KeysMatch(rank, ts[0], null) && ChainKeys(rank, ts[1..])
  }

  lemma MeldKeys(rank: Ranking, a: Shape, b: Shape, stale: HeapNode?)
    requires KeysMatch(rank, a, stale) && KeysMatch(rank, b, stale)
    ensures KeysMatch(rank, Meld(a, b), stale)
  {}

  lemma {:induction false} MergeKeys(rank: Ranking, t: Shape, stale: HeapNode?)
    requires KeysMatch(rank, t, stale)
    ensures KeysMatch(rank, MergePairs(t), stale)
  {
    if t.Node? && t.right.Node? {
      MergeKeys(rank, t.right.right, stale);
      MeldKeys(rank, Cut(t), Cut(t.right), stale);
      MeldKeys(rank, MergePairs(t.right.right), Meld(Cut(t), Cut(t.right)), stale);
    }
  }

  /** The first two trees of a list become trees of their own. */
  method DetachPair(a: HeapNode, ghost t: Shape, ghost up: HeapNode?) returns (b: HeapNode, next: HeapNode?)
    requires Linked(a, t, up) && Distinct(t) && t.right.Node?
    modifies {t.id, t.right.id}
    ensures b == t.right.id
    ensures Linked(a, Cut(t), null) && Linked(b, Cut(t.right), null) && Linked(next, t.right.right, b)
  {
    b := a.right;
    next := b.right;
    a.left, a.right, b.left, b.right := null, null, null, null;
  }

  /** A finished tree goes to the front of the chain; its `right` is the link. */
  method Prepend(p: HeapNode, list: HeapNode?, ghost t: Shape, ghost ts: seq<Shape>)
    requires Linked(p, t, null) && Distinct(t) && Single(t) && Chained(list, ts) && Nodes(t) !! ChainNodes(ts)
    modifies p
    ensures Chained(p, [t] + ts)
  {
    NodesExist(t.child);
    ChainExists(ts);
    p.right := list;
    assert ([t] + ts)[1..] == ts;
  }

  lemma PairFacts(t: Shape)
    requires Distinct(t) && t.Node? && t.right.Node?
    ensures var ta, tb, rest := Cut(t), Cut(t.right), t.right.right;
            && Distinct(ta) && Distinct(tb) && Single(ta) && Single(tb) && Disjoint(ta, tb)
            && Nodes(rest) !! Nodes(ta) + Nodes(tb) && Nodes(t) == Nodes(ta) + Nodes(tb) + Nodes(rest)
            && Distinct(Meld(ta, tb)) && Single(Meld(ta, tb)) && Nodes(Meld(ta, tb)) == Nodes(ta) + Nodes(tb)
    ensures forall n :: n in Nodes(t) ==> allocated(n)
  {
    SplitNodes(t);
    MeldNodes(Cut(t), Cut(t.right));
    NodesExist(t);
  }

  /** One round of the first pass: the first two trees leave the list, are melded and head the chain. */
  method PairFirst(rank: Ranking, a: HeapNode, list: HeapNode?, ghost t: Shape, ghost up: HeapNode?, ghost ts: seq<Shape>)
    returns (paired: HeapNode, next: HeapNode?)
    requires Linked(a, t, up) && Distinct(t) && KeysMatch(rank, t, null) && t.right.Node?
    requires Chained(list, ts) && Nodes(t) !! ChainNodes(ts)
    modifies Nodes(t)
    ensures Linked(next, t.right.right, t.right.id)
    ensures Chained(paired, [Meld(Cut(t), Cut(t.right))] + ts)
  {
    ghost var ta, tb, rest := Cut(t), Cut(t.right), t.right.right;
    PairFacts(t);
    ChainExists(ts);
    hide Distinct, Single, Meld, Cut;
    var b;
    b, next := DetachPair(a, t, up);
    assert Chained(list, ts);
    paired := HeapMeld(rank, a, b, ta, tb);
    assert Chained(list, ts) && Linked(next, rest, b);
    Prepend(paired, list, Meld(ta, tb), ts);
  }

  /** The first pass keeps this between rounds: the list `t` still to be paired and the chain `ts` share out the
      nodes, and the second pass over the chain would finish the recursive merge. */
  ghost predicate FirstPass(curr: HeapNode?, list: HeapNode?, t0: Shape, t: Shape, up: HeapNode?, ts: seq<Shape>)
    reads Nodes(t), ChainNodes(ts)
  {
    && Linked(curr, t, up) && Distinct(t) && Chained(list, ts) && ChainDistinct(ts)
    && Nodes(t) !! ChainNodes(ts) && Nodes(t) + ChainNodes(ts) <= Nodes(t0)
    && FoldMeld(MergePairs(t), ts) == MergePairs(t0)
  }

  lemma PairKeys(rank: Ranking, t: Shape, ts: seq<Shape>)
    requires t.Node? && t.right.Node? && KeysMatch(rank, t, null) && ChainKeys(rank, ts)
    ensures KeysMatch(rank, t.right.right, null) && ChainKeys(rank, [Meld(Cut(t), Cut(t.right))] + ts)
  {
    MeldKeys(rank, Cut(t), Cut(t.right), null);
    assert ([Meld(Cut(t), Cut(t.right))] + ts)[1..] == ts;
  }

  lemma PairRound(t: Shape, ts: seq<Shape>, t0: Shape)
    requires t.Node? && t.right.Node? && Distinct(t) && ChainDistinct(ts)
    requires Nodes(t) !! ChainNodes(ts) && Nodes(t) + ChainNodes(ts) <= Nodes(t0)
    requires FoldMeld(MergePairs(t), ts) == MergePairs(t0)
    ensures var rest, ts' := t.right.right, [Meld(Cut(t), Cut(t.right))] + ts;
            && Distinct(rest) && ChainDistinct(ts') && Nodes(rest) !! ChainNodes(ts')
            && Nodes(rest) + ChainNodes(ts') <= Nodes(t0)
            && FoldMeld(MergePairs(rest), ts') == MergePairs(t0)
  {
    PairFacts(t);
    SplitNodes(t);
    var pair := Meld(Cut(t), Cut(t.right));
    assert ([pair] + ts)[1..] == ts;
    FoldCons(MergePairs(t.right.right), pair, ts);
  }

  lemma LastRound(t: Shape, ts: seq<Shape>)
    requires t.Node? && t.right.Nil? && Distinct(t) && ChainDistinct(ts) && Nodes(t) !! ChainNodes(ts)
    ensures ChainDistinct([t] + ts) && ChainNodes([t] + ts) == Nodes(t) + ChainNodes(ts)
    ensures FoldMeld(Nil, [t] + ts) == FoldMeld(MergePairs(t), ts)
  {
    assert ([t] + ts)[1..] == ts;
    FoldCons(Nil, t, ts);
  }

  /** The first pass: pair adjacent trees from left to right. */
  method PairPass(rank: Ranking, first: HeapNode?, ghost t0: Shape)
    returns (list: HeapNode?, ghost ts: seq<Shape>)
    requires Linked(first, t0, null) && Distinct(t0) && KeysMatch(rank, t0, null)
    modifies Nodes(t0)
    ensures Chained(list, ts) && ChainDistinct(ts) && ChainKeys(rank, ts) && ChainNodes(ts) <= Nodes(t0)
    ensures FoldMeld(Nil, ts) == MergePairs(t0)
  {
    var curr := first;
    list := null;
    ts := [];
    ghost var t, up := t0, null;
    while curr != null
      invariant FirstPass(curr, list, t0, t, up, ts) && KeysMatch(rank, t, null) && ChainKeys(rank, ts)
      decreases t
    {
      var a := curr;
      assert t.Node? && Linked(a.right, t.right, a);
      if a.right != null {
        PairKeys(rank, t, ts);
        PairRound(t, ts, t0);
        list, curr := PairFirst(rank, a, list, t, up, ts);
        t, up, ts := t.right.right, t.right.id, [Meld(Cut(t), Cut(t.right))] + ts;
      } else {
        LastRound(t, ts);
        a.left := null;
        Prepend(a, list, t, ts);
        assert ([t] + ts)[1..] == ts;
        list, curr := a, null;
        t, ts := Nil, [t] + ts;
      }
    }
  }

  lemma MeldRound(rank: Ranking, acc: Shape, ts: seq<Shape>)
    requires Single(acc) && Distinct(acc) && KeysMatch(rank, acc, null)
    requires ts != [] && ts[0].Node? && Single(ts[0]) && ChainDistinct(ts) && ChainKeys(rank, ts)
    requires Nodes(acc) !! ChainNodes(ts)
    ensures var acc', rest := Meld(acc, ts[0]), ts[1..];
            && Single(acc') && Distinct(acc') && KeysMatch(rank, acc', null)
            && ChainDistinct(rest) && ChainKeys(rank, rest) && Nodes(acc') !! ChainNodes(rest)
            && Nodes(acc') + ChainNodes(rest) == Nodes(acc) + ChainNodes(ts)
            && FoldMeld(acc', rest) == FoldMeld(acc, ts)
    ensures ts[0].id in ChainNodes(ts) && ts[0].id !in Nodes(acc)
    ensures Distinct(ts[0]) && Disjoint(acc, ts[0]) && Nodes(ts[0]) <= ChainNodes(ts)
    ensures acc.Node? ==> rank(acc.id) == acc.key
    ensures rank(ts[0].id) == ts[0].key
    ensures ChainNodes(ts[1..]) !! Nodes(acc) + Nodes(ts[0])
  {
    MeldNodes(acc, ts[0]);
    MeldKeys(rank, acc, ts[0], null);
  }

  method CutLink(p: HeapNode, next: HeapNode?, ghost ts: seq<Shape>)
    requires Chained(p, ts) && ChainDistinct(ts) && next == p.right
    modifies p
    ensures Linked(p, ts[0], null) && Chained(next, ts[1..])
  {
    ChainExists(ts);
    p.right := null;
  }

  /** The second pass: meld the chain, last pair first. */
  method MeldPass(rank: Ranking, first: HeapNode?, ghost ts0: seq<Shape>) returns (root: HeapNode?)
    requires Chained(first, ts0) && ChainDistinct(ts0) && ChainKeys(rank, ts0)
    modifies ChainNodes(ts0)
    ensures Linked(root, FoldMeld(Nil, ts0), null)
  {
    var list := first;
    root := null;
    ghost var acc: Shape, ts := Nil, ts0;
    while list != null
      invariant Linked(root, acc, null) && Single(acc) && Distinct(acc) && KeysMatch(rank, acc, null)
      invariant Chained(list, ts) && ChainDistinct(ts) && ChainKeys(rank, ts)
      invariant Nodes(acc) !! ChainNodes(ts) && Nodes(acc) + ChainNodes(ts) <= ChainNodes(ts0)
      invariant FoldMeld(acc, ts) == FoldMeld(Nil, ts0)
      decreases |ts|
    {
      hide Meld, Distinct, Nodes, KeysMatch;
      MeldRound(rank, acc, ts);
      NodesExist(acc);
      ChainExists(ts[1..]);
      var next := list.right;
      CutLink(list, next, ts);
      root := HeapMeld(rank, root, list, acc, ts[0]);
      acc, ts := Meld(acc, ts[0]), ts[1..];
      list := next;
    }
  }

  /** `heap_merge_pairs_iter`: the two loops build the tree of the recursive merge. */
  method HeapMergePairsIter(rank: Ranking, first: HeapNode?, ghost t0: Shape) returns (root: HeapNode?)
    requires Linked(first, t0, null) && Distinct(t0) && KeysMatch(rank, t0, null)
    modifies Nodes(t0)
    ensures Linked(root, MergePairs(t0), null)
  {
    var list: HeapNode?;
    ghost var ts;
    list, ts := PairPass(rank, first, t0);
    root := MeldPass(rank, list, ts);
  }

  // ---------- Taking a node out of the middle ----------

  datatype Cell = Cell(child: HeapNode?, left: HeapNode?, right: HeapNode?)

  type Memory = map<HeapNode, Cell>

  ghost function Snapshot(ns: set<HeapNode>): Memory
    reads ns
  {
    map n <- ns :: Cell(n.child, n.left, n.right)
  }

  /** `Linked` in a remembered state. */
  ghost predicate LinkedIn(m: Memory, p: HeapNode?, t: Shape, up: HeapNode?)
    requires Nodes(t) <= m.Keys
  {
    match t
    case Nil => p == null
    case Node(id, _, child, right) =>
      && p == id && m[id].left == up
      && LinkedIn(m, m[id].child, child, id)
      && LinkedIn(m, m[id].right, right, id)
  }

  lemma {:induction false} Remember(ns: set<HeapNode>, p: HeapNode?, t: Shape, up: HeapNode?)
    requires Nodes(t) <= ns
    ensures Linked(p, t, up) <==> LinkedIn(Snapshot(ns), p, t, up)
    decreases t
  {
    if t.Node? {
      Remember(ns, t.id.child, t.child, t.id);
      Remember(ns, t.id.right, t.right, t.id);
    }
  }

  /** Every `child` and `right` link leads to a node of the shape whose `left` leads back. */
  lemma {:induction false} BackLinks(m: Memory, p: HeapNode?, t: Shape, up: HeapNode?)
    requires Nodes(t) <= m.Keys && LinkedIn(m, p, t, up)
    ensures forall n :: n in Nodes(t) ==>
              && (m[n].child != null ==> m[n].child in Nodes(t) && m[m[n].child].left == n)
              && (m[n].right != null ==> m[n].right in Nodes(t) && m[m[n].right].left == n)
  {
    if t.Node? {
      BackLinks(m, m[t.id].child, t.child, t.id);
      BackLinks(m, m[t.id].right, t.right, t.id);
    }
  }

  /** A node below the top is the `child` or the `right` of its `left`, and of no other node. */
  lemma {:induction false} LeftLinks(m: Memory, p: HeapNode?, t: Shape, up: HeapNode?, x: HeapNode)
    requires Nodes(t) <= m.Keys && LinkedIn(m, p, t, up) && Distinct(t) && x in Nodes(t) && x != t.id
    ensures m[x].left in Nodes(t) && m[x].left != x
    ensures (m[m[x].left].child == x) != (m[m[x].left].right == x)
  {
    BackLinks(m, p, t, up);
    if x in Nodes(t.child) {
      if x != t.child.id {
        LeftLinks(m, m[t.id].child, t.child, t.id, x);
      }
    } else {
      if x != t.right.id {
        LeftLinks(m, m[t.id].right, t.right, t.id, x);
      }
    }
  }

  /** The link discipline of a whole heap: the root stands alone, every child or right sibling leads back by
      `left`, and every other node is either the first child of its `left` or the right sibling of it. */
  lemma LinkConsistency(root: HeapNode?, t: Shape)
    requires Linked(root, t, null) && Distinct(t) && Single(t)
    ensures root != null ==> root.left == null && root.right == null
    ensures forall n :: n in Nodes(t) ==>
              && (n.child != null ==> n.child in Nodes(t) && n.child.left == n)
              && (n.right != null ==> n.right in Nodes(t) && n.right.left == n)
    ensures forall x :: x in Nodes(t) && x != root ==>
              x.left != null && x.left in Nodes(t) && (x.left.child == x) != (x.left.right == x)
  {
    var m := Snapshot(Nodes(t));
    Remember(Nodes(t), root, t, null);
    BackLinks(m, root, t, null);
    assert forall n :: n in Nodes(t) ==> m[n] == Cell(n.child, n.left, n.right);
    forall x | x in Nodes(t) && x != root
      ensures x.left != null && x.left in Nodes(t) && (x.left.child == x) != (x.left.right == x)
    {
      LeftLinks(m, root, t, null, x);
    }
  }

  /** `m1` is `m0` after the links into `x` have been led past it. */
  ghost predicate Bypassed(m0: Memory, m1: Memory, ns: set<HeapNode>, x: HeapNode)
    requires ns <= m0.Keys && ns <= m1.Keys && x in m0
  {
    forall n :: n in ns && n != x ==>
      m1[n] == Cell(if m0[n].child == x then m0[x].right else m0[n].child,
                    if m0[x].right == n then m0[x].left else m0[n].left,
                    if m0[n].right == x then m0[x].right else m0[n].right)
  }

  lemma {:induction false} SameIn(m0: Memory, m1: Memory, p: HeapNode?, t: Shape, up: HeapNode?)
    requires Nodes(t) <= m0.Keys && Nodes(t) <= m1.Keys && LinkedIn(m0, p, t, up)
    requires forall n :: n in Nodes(t) ==> m1[n] == m0[n]
    ensures LinkedIn(m1, p, t, up)
  {
    if t.Node? {
      SameIn(m0, m1, m0[t.id].child, t.child, t.id);
      SameIn(m0, m1, m0[t.id].right, t.right, t.id);
    }
  }

  /** A shape away from `x` and its right sibling is not affected. */
  lemma BypassAway(m0: Memory, m1: Memory, p: HeapNode?, t: Shape, up: HeapNode?, x: HeapNode)
    requires Nodes(t) <= m0.Keys && Nodes(t) <= m1.Keys && LinkedIn(m0, p, t, up) && x in m0
    requires Bypassed(m0, m1, Nodes(t), x) && x !in Nodes(t) && (m0[x].right == null || m0[x].right !in Nodes(t))
    ensures LinkedIn(m1, p, t, up)
  {
    BackLinks(m0, p, t, up);
    SameIn(m0, m1, p, t, up);
  }

  /** The right siblings of `x` move up under what was to the left of `x`. */
  lemma BypassHere(m0: Memory, m1: Memory, p: HeapNode?, t: Shape, up: HeapNode?)
    requires Nodes(t) <= m0.Keys && Nodes(t) <= m1.Keys && LinkedIn(m0, p, t, up) && t.Node? && Distinct(t)
    requires Bypassed(m0, m1, Nodes(t), t.id)
    ensures LinkedIn(m1, m0[t.id].right, t.right, up)
  {
    var x, r := t.id, t.right;
    if r.Node? {
      BypassAway(m0, m1, m0[r.id].child, r.child, r.id, x);
      BypassAway(m0, m1, m0[r.id].right, r.right, r.id, x);
    }
  }

  lemma {:induction false} BypassUnlinks(m0: Memory, m1: Memory, p: HeapNode?, t: Shape, up: HeapNode?, x: HeapNode)
    requires Nodes(t) <= m0.Keys && Nodes(t) <= m1.Keys && LinkedIn(m0, p, t, up) && Distinct(t) && x in Nodes(t)
    requires Bypassed(m0, m1, Nodes(t), x) && (x != t.id ==> m0[x].right != t.id)
    ensures Nodes(Unlink(t, x)) <= Nodes(t)
    ensures LinkedIn(m1, if p == x then m0[x].right else p, Unlink(t, x), up)
  {
    UnlinkNodes(t, x);
    BackLinks(m0, p, t, up);
    if t.id == x {
      BypassHere(m0, m1, p, t, up);
    } else if x in Nodes(t.child) {
      BackLinks(m0, m0[t.id].child, t.child, t.id);
      UnlinkAbsent(t.right, x);
      BypassAway(m0, m1, m0[t.id].right, t.right, t.id, x);
      BypassUnlinks(m0, m1, m0[t.id].child, t.child, t.id, x);
    } else {
      BackLinks(m0, m0[t.id].right, t.right, t.id);
      UnlinkAbsent(t.child, x);
      BypassAway(m0, m1, m0[t.id].child, t.child, t.id, x);
      BypassUnlinks(m0, m1, m0[t.id].right, t.right, t.id, x);
    }
  }

  /** The children of `x` are linked under `x`. */
  lemma {:induction false} KidsLinked(m: Memory, p: HeapNode?, t: Shape, up: HeapNode?, x: HeapNode)
    requires Nodes(t) <= m.Keys && LinkedIn(m, p, t, up) && Distinct(t) && x in Nodes(t)
    ensures Nodes(Kids(t, x)) <= Nodes(t) && LinkedIn(m, m[x].child, Kids(t, x), x)
    ensures m[x].right == null || m[x].right !in Nodes(Kids(t, x))
  {
    if t.id != x {
      if x in Nodes(t.child) {
        KidsLinked(m, m[t.id].child, t.child, t.id, x);
      } else {
        KidsLinked(m, m[t.id].right, t.right, t.id, x);
      }
    }
  }
}
