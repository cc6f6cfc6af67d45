/**
  Pairing heaps as values.  A heap node has a first child and a right sibling, so a tree of nodes is a binary
  tree whose `right` branch lists siblings; the same shape represents a forest, one tree after another.
 */
module PairingTree {

  datatype Tree<T> = Nil | Node(id: T, key: int, child: Tree<T>, right: Tree<T>)

  ghost function Nodes<T>(t: Tree<T>): set<T> {
    match t
    case Nil => {}
    case Node(id, _, child, right) => {id} + Nodes(child) + Nodes(right)
  }

  ghost function Items<T>(t: Tree<T>): multiset<(T, int)> {
    match t
    case Nil => multiset{}
    case Node(id, key, child, right) => multiset{(id, key)} + Items(child) + Items(right)
  }

  ghost predicate Distinct<T>(t: Tree<T>) {
    match t
    case Nil => true
    case Node(id, _, child, right) =>
      id !in Nodes(child) && id !in Nodes(right) && Nodes(child) !! Nodes(right) && Distinct(child) && Distinct(right)
  }

  /** A single tree, as opposed to a forest of several. */
  predicate Single<T>(t: Tree<T>) {
    t.Nil? || t.right.Nil?
  }

  function Cut<T>(t: Tree<T>): Tree<T> {
    if t.Nil? then Nil else t.(right := Nil)
  }

  /** Heap order: no key is below `bound`, nor below the key of its parent. */
  predicate Ordered<T>(t: Tree<T>, bound: int) {
    match t
    case Nil => true
    case Node(_, key, child, right) => bound <= key && Ordered(child, key) && Ordered(right, bound)
  }

  predicate HeapOrdered<T>(t: Tree<T>) {
    Single(t) && (t.Node? ==> Ordered(t, t.key))
  }

  // ---------- The operations ----------

  /** The loser becomes the first child of the winner; the second tree wins a tie. */
  function Meld<T>(a: Tree<T>, b: Tree<T>): Tree<T> {
    if a.Nil? then b
    else if b.Nil? then a
    else if a.key < b.key then a.(child := b.(right := a.child))
    else b.(child := a.(right := b.child))
  }

  /** The recursive form of the two-pass merge. */
  function MergePairs<T>(t: Tree<T>): Tree<T> {
    if t.Nil? || t.right.Nil? then t
    else Meld(MergePairs(t.right.right), Meld(Cut(t), Cut(t.right)))
  }

  /** The tree without node `x`, whose right siblings move up to its place. */
  ghost function Unlink<T>(t: Tree<T>, x: T): Tree<T> {
    match t
    case Nil => Nil
    case Node(id, _, child, right) => if id == x then right else t.(child := Unlink(child, x), right := Unlink(right, x))
  }

  /** The children of node `x`. */
  ghost function Kids<T>(t: Tree<T>, x: T): Tree<T> {
    match t
    case Nil => Nil
    case Node(id, _, child, right) =>
      if id == x then child else if x in Nodes(child) then Kids(child, x) else Kids(right, x)
  }

  function Insert<T>(t: Tree<T>, x: T, key: int): Tree<T> {
    Meld(t, Node(x, key, Nil, Nil))
  }

  ghost function Remove<T>(t: Tree<T>, x: T): Tree<T> {
    if t.Nil? then Nil
    else if t.id == x then MergePairs(t.child)
    else Meld(Unlink(t, x), MergePairs(Kids(t, x)))
  }

  // ---------- Contents ----------

  lemma Regroup<X>(a: multiset<X>, b: multiset<X>, c: multiset<X>, d: multiset<X>)
    ensures a + (b + c + d) + multiset{} == (a + d + multiset{}) + (b + c + multiset{})
    ensures a + (b + c + d) + multiset{} == (b + c + multiset{}) + (a + d + multiset{})
  {}

  lemma MeldItems<T>(a: Tree<T>, b: Tree<T>)
    requires Single(a) && Single(b)
    ensures Items(Meld(a, b)) == Items(a) + Items(b)
  {
    if a.Node? && b.Node? {
      var x, y := multiset{(a.id, a.key)}, multiset{(b.id, b.key)};
      Regroup(x, y, Items(b.child), Items(a.child));
      Regroup(y, x, Items(a.child), Items(b.child));
    }
  }

  lemma MeldNodes<T>(a: Tree<T>, b: Tree<T>)
    requires Single(a) && Single(b)
    ensures Single(Meld(a, b)) && Nodes(Meld(a, b)) == Nodes(a) + Nodes(b)
    ensures Distinct(a) && Distinct(b) && Nodes(a) !! Nodes(b) ==> Distinct(Meld(a, b))
  {
    if a.Node? && b.Node? {
      var loser := if a.key < b.key then b.(right := a.child) else a.(right := b.child);
      assert Nodes(loser) == Nodes(a.child) + Nodes(b.child) + {loser.id};
    }
  }

  lemma MeldContents<T>(a: Tree<T>, b: Tree<T>)
    requires Single(a) && Single(b)
    ensures Single(Meld(a, b)) && Items(Meld(a, b)) == Items(a) + Items(b) && Nodes(Meld(a, b)) == Nodes(a) + Nodes(b)
    ensures Distinct(a) && Distinct(b) && Nodes(a) !! Nodes(b) ==> Distinct(Meld(a, b))
  {
    hide Meld, Items, Nodes, Distinct;
    MeldItems(a, b);
    MeldNodes(a, b);
  }

  lemma Regroup3<X>(a: multiset<X>, b: multiset<X>, c: multiset<X>, d: multiset<X>, e: multiset<X>)
    ensures a + b + (c + d + e) == (a + b + multiset{}) + (c + d + multiset{}) + e
  {}

  lemma SplitItems<T>(t: Tree<T>)
    requires t.Node? && t.right.Node?
    ensures Items(t) == Items(Cut(t)) + Items(Cut(t.right)) + Items(t.right.right)
  {
    var x, y := multiset{(t.id, t.key)}, multiset{(t.right.id, t.right.key)};
    Regroup3(x, Items(t.child), y, Items(t.right.child), Items(t.right.right));
    assert Items(Cut(t)) == x + Items(t.child) + multiset{};
    assert Items(Cut(t.right)) == y + Items(t.right.child) + multiset{};
  }

  predicate Apart<T>(a: set<T>, b: set<T>, c: set<T>) {
    a !! b && a !! c && b !! c
  }

  lemma SplitNodes<T>(t: Tree<T>)
    requires t.Node? && t.right.Node?
    ensures Nodes(t) == Nodes(Cut(t)) + Nodes(Cut(t.right)) + Nodes(t.right.right)
    ensures Distinct(t) ==>
              && Distinct(Cut(t)) && Distinct(Cut(t.right)) && Distinct(t.right.right)
              && Apart(Nodes(Cut(t)), Nodes(Cut(t.right)), Nodes(t.right.right))
  {
    assert Nodes(Cut(t)) == {t.id} + Nodes(t.child);
    assert Nodes(Cut(t.right)) == {t.right.id} + Nodes(t.right.child);
    assert Nodes(t.right) == Nodes(Cut(t.right)) + Nodes(t.right.right);
  }

  lemma {:induction false} MergeContents<T>(t: Tree<T>)
    ensures Single(MergePairs(t)) && Items(MergePairs(t)) == Items(t) && Nodes(MergePairs(t)) == Nodes(t)
    ensures Distinct(t) ==> Distinct(MergePairs(t))
  {
    hide Meld, Items, Nodes, Distinct;
    if t.Node? && t.right.Node? {
      var a, b, rest := Cut(t), Cut(t.right), t.right.right;
      SplitItems(t);
      SplitNodes(t);
      MergeContents(rest);
      MeldContents(a, b);
      MeldContents(MergePairs(rest), Meld(a, b));
      assert Items(rest) + (Items(a) + Items(b)) == Items(t);
    }
  }

  lemma {:induction false} UnlinkAbsent<T>(t: Tree<T>, x: T)
    requires x !in Nodes(t)
    ensures Unlink(t, x) == t
  {
    if t.Node? {
      UnlinkAbsent(t.child, x);
      UnlinkAbsent(t.right, x);
    }
  }

  ghost function KeyOf<T>(t: Tree<T>, x: T): int {
    match t
    case Nil => 0
    case Node(id, key, child, right) =>
      if id == x then key else if x in Nodes(child) then KeyOf(child, x) else KeyOf(right, x)
  }

  lemma Pull<X>(a: multiset<X>, b: multiset<X>, c: multiset<X>, d: multiset<X>, e: multiset<X>)
    ensures a + (b + c + d) + e == (a + b + e) + c + d
    ensures a + e + (b + c + d) == (a + e + b) + c + d
  {}

  lemma {:induction false} UnlinkItems<T>(t: Tree<T>, x: T)
    requires Distinct(t) && x in Nodes(t)
    ensures Items(t) == Items(Unlink(t, x)) + Items(Kids(t, x)) + multiset{(x, KeyOf(t, x))}
  {
    if t.id != x {
      var top := multiset{(t.id, t.key)};
      if x in Nodes(t.child) {
        UnlinkItems(t.child, x);
        UnlinkAbsent(t.right, x);
        Pull(top, Items(Unlink(t.child, x)), Items(Kids(t.child, x)), multiset{(x, KeyOf(t, x))}, Items(t.right));
      } else {
        UnlinkItems(t.right, x);
        UnlinkAbsent(t.child, x);
        Pull(top, Items(Unlink(t.right, x)), Items(Kids(t.right, x)), multiset{(x, KeyOf(t, x))}, Items(t.child));
      }
    }
  }

  lemma {:induction false} UnlinkNodes<T>(t: Tree<T>, x: T)
    requires Distinct(t) && x in Nodes(t)
    ensures Nodes(t) == Nodes(Unlink(t, x)) + Nodes(Kids(t, x)) + {x}
    ensures Nodes(Unlink(t, x)) !! Nodes(Kids(t, x)) && x !in Nodes(Unlink(t, x)) && x !in Nodes(Kids(t, x))
    ensures Distinct(Unlink(t, x)) && Distinct(Kids(t, x))
  {
    if t.id != x {
      if x in Nodes(t.child) {
        UnlinkNodes(t.child, x);
        UnlinkAbsent(t.right, x);
      } else {
        UnlinkNodes(t.right, x);
        UnlinkAbsent(t.child, x);
      }
    }
  }

  // ---------- Heap order ----------

  lemma {:induction false} OrderedLower<T>(t: Tree<T>, hi: int, lo: int)
    requires Ordered(t, hi) && lo <= hi
    ensures Ordered(t, lo)
  {
    if t.Node? {
      OrderedLower(t.right, hi, lo);
    }
  }

  lemma MeldOrdered<T>(a: Tree<T>, b: Tree<T>, bound: int)
    requires Single(a) && Single(b) && Ordered(a, bound) && Ordered(b, bound)
    ensures Ordered(Meld(a, b), bound)
  {
  }

  lemma {:induction false} MergeOrdered<T>(t: Tree<T>, bound: int)
    requires Ordered(t, bound)
    ensures Ordered(MergePairs(t), bound)
  {
    if t.Node? && t.right.Node? {
      var a, b, rest := Cut(t), Cut(t.right), t.right.right;
      MergeOrdered(rest, bound);
      MergeContents(rest);
      MeldOrdered(a, b, bound);
      MeldContents(a, b);
      MeldOrdered(MergePairs(rest), Meld(a, b), bound);
    }
  }

  lemma {:induction false} UnlinkOrdered<T>(t: Tree<T>, x: T, bound: int)
    requires Ordered(t, bound)
    ensures Ordered(Unlink(t, x), bound) && Ordered(Kids(t, x), bound)
  {
    if t.Node? {
      if t.id == x {
        OrderedLower(t.child, t.key, bound);
      } else {
        UnlinkOrdered(t.child, x, t.key);
        UnlinkOrdered(t.right, x, bound);
        OrderedLower(Kids(t.child, x), t.key, bound);
      }
    }
  }

  lemma {:induction false} OrderedItems<T>(t: Tree<T>, bound: int)
    requires Ordered(t, bound)
    ensures forall i :: i in Items(t) ==> bound <= i.1
  {
    if t.Node? {
      OrderedItems(t.child, t.key);
      OrderedItems(t.right, bound);
    }
  }

  // ---------- What the operations do ----------

  /** Which node is on top of a meld: the one of the lower key, of the second tree on a tie. */
  lemma MeldTop<T>(a: Tree<T>, b: Tree<T>)
    ensures Meld(a, b).Nil? <==> a.Nil? && b.Nil?
    ensures a.Node? && (b.Nil? || a.key < b.key) ==> Meld(a, b).id == a.id && Meld(a, b).key == a.key
    ensures b.Node? && (a.Nil? || b.key <= a.key) ==> Meld(a, b).id == b.id && Meld(a, b).key == b.key
  {}

  /** A node that is inserted comes to the top exactly when no node in the heap ranks before it. */
  lemma InsertTop<T>(t: Tree<T>, x: T, key: int)
    requires HeapOrdered(t) && Distinct(t) && x !in Nodes(t)
    ensures Insert(t, x, key).Node?
    ensures Insert(t, x, key).id == x <==> forall i :: i in Items(t) ==> key <= i.1
  {
    MeldTop(t, Node(x, key, Nil, Nil));
    if t.Node? {
      OrderedItems(t, t.key);
      assert (t.id, t.key) in Items(t) && t.id in Nodes(t);
    }
  }

  lemma MeldHeap<T>(a: Tree<T>, b: Tree<T>)
    requires HeapOrdered(a) && HeapOrdered(b)
    ensures HeapOrdered(Meld(a, b))
  {}

  lemma InsertCorrect<T>(t: Tree<T>, x: T, key: int)
    requires HeapOrdered(t) && Distinct(t) && x !in Nodes(t)
    ensures var r := Insert(t, x, key);
            HeapOrdered(r) && Distinct(r) && Items(r) == Items(t) + multiset{(x, key)} && Nodes(r) == Nodes(t) + {x}
  {
    var leaf := Node(x, key, Nil, Nil);
    assert Items(leaf) == multiset{(x, key)} && Nodes(leaf) == {x} && Distinct(leaf);
    MeldHeap(t, leaf);
    hide Items, Nodes, Distinct, Meld, HeapOrdered;
    MeldContents(t, leaf);
  }

  lemma BoundToRoot<T>(t: Tree<T>, bound: int)
    requires Single(t) && Ordered(t, bound)
    ensures HeapOrdered(t)
  {
  }

  /** The root is a least element, and what is left after a pop is the rest. */
  lemma PopCorrect<T>(t: Tree<T>)
    requires HeapOrdered(t) && Distinct(t) && t.Node?
    ensures var r := MergePairs(t.child);
            HeapOrdered(r) && Distinct(r) && Items(t) == Items(r) + multiset{(t.id, t.key)}
            && Nodes(r) == Nodes(t) - {t.id}
    ensures forall i :: i in Items(t) ==> t.key <= i.1
  {
    MergeContents(t.child);
    MergeOrdered(t.child, t.key);
    OrderedItems(t, t.key);
    BoundToRoot(MergePairs(t.child), t.key);
  }

  lemma RemoveInnerItems<T>(t: Tree<T>, x: T)
    requires Distinct(t) && x in Nodes(t) && x != t.id && Single(Unlink(t, x))
    ensures Items(t) == Items(Meld(Unlink(t, x), MergePairs(Kids(t, x)))) + multiset{(x, KeyOf(t, x))}
  {
    hide Items, Nodes, Distinct, Unlink, Kids, MergePairs, Meld, KeyOf, Single;
    UnlinkItems(t, x);
    MergeContents(Kids(t, x));
    MeldItems(Unlink(t, x), MergePairs(Kids(t, x)));
  }

  lemma RemoveInnerNodes<T>(t: Tree<T>, x: T)
    requires Distinct(t) && x in Nodes(t) && x != t.id && Single(Unlink(t, x))
    ensures var r := Meld(Unlink(t, x), MergePairs(Kids(t, x)));
            Single(r) && Distinct(r) && Nodes(r) == Nodes(t) - {x}
  {
    hide Items, Nodes, Distinct, Unlink, Kids, MergePairs, Meld, KeyOf, Single;
    UnlinkNodes(t, x);
    MergeContents(Kids(t, x));
    MeldNodes(Unlink(t, x), MergePairs(Kids(t, x)));
  }

  lemma RemoveInnerOrdered<T>(t: Tree<T>, x: T)
    requires t.Node? && Ordered(t, t.key) && Single(Unlink(t, x))
    ensures Ordered(Meld(Unlink(t, x), MergePairs(Kids(t, x))), t.key)
  {
    hide Items, Nodes, Distinct, Ordered, Unlink, Kids, MergePairs, Meld, Single;
    UnlinkOrdered(t, x, t.key);
    MergeContents(Kids(t, x));
    MergeOrdered(Kids(t, x), t.key);
    MeldOrdered(Unlink(t, x), MergePairs(Kids(t, x)), t.key);
  }

  lemma RemoveInnerCorrect<T>(t: Tree<T>, x: T)
    requires HeapOrdered(t) && Distinct(t) && x in Nodes(t) && x != t.id
    ensures var r := Meld(Unlink(t, x), MergePairs(Kids(t, x)));
            HeapOrdered(r) && Distinct(r) && Items(t) == Items(r) + multiset{(x, KeyOf(t, x))}
            && Nodes(r) == Nodes(t) - {x}
  {
    assert Single(Unlink(t, x)) && Ordered(t, t.key);
    hide Items, Nodes, Distinct, HeapOrdered, Ordered, Unlink, Kids, MergePairs, Meld, KeyOf, Single;
    RemoveInnerItems(t, x);
    RemoveInnerNodes(t, x);
    RemoveInnerOrdered(t, x);
    BoundToRoot(Meld(Unlink(t, x), MergePairs(Kids(t, x))), t.key);
  }

  /** Removing any node leaves exactly the others, in heap order, whatever the key of the removed node has become. */
  lemma RemoveCorrect<T>(t: Tree<T>, x: T)
    requires HeapOrdered(t) && Distinct(t) && x in Nodes(t)
    ensures var r := Remove(t, x);
            HeapOrdered(r) && Distinct(r) && Items(t) == Items(r) + multiset{(x, KeyOf(t, x))}
            && Nodes(r) == Nodes(t) - {x}
  {
    if t.id == x {
      PopCorrect(t);
    } else {
      RemoveInnerCorrect(t, x);
    }
  }

  /** Re-ranking one node keeps the node set and changes that node's key only. */
  lemma UpdateCorrect<T>(t: Tree<T>, x: T, key: int)
    requires HeapOrdered(t) && Distinct(t) && x in Nodes(t)
    ensures var r := Insert(Remove(t, x), x, key);
            HeapOrdered(r) && Distinct(r) && Nodes(r) == Nodes(t)
            && Items(r) == Items(t) - multiset{(x, KeyOf(t, x))} + multiset{(x, key)}
  {
    hide Items, Nodes, Distinct, HeapOrdered, Remove, Insert, KeyOf;
    RemoveCorrect(t, x);
    InsertCorrect(Remove(t, x), x, key);
    assert Items(Remove(t, x)) == Items(t) - multiset{(x, KeyOf(t, x))};
  }

  /** Moving the trees of two distinct heaps together. */
  lemma MoveCorrect<T>(a: Tree<T>, b: Tree<T>)
    requires HeapOrdered(a) && HeapOrdered(b) && Distinct(a) && Distinct(b) && Nodes(a) !! Nodes(b)
    ensures HeapOrdered(Meld(a, b)) && Distinct(Meld(a, b)) && Items(Meld(a, b)) == Items(a) + Items(b)
  {
    MeldHeap(a, b);
    MeldContents(a, b);
  }

  /** The nodes in the order in which repeated pops deliver them. */
  ghost function Drain<T>(t: Tree<T>): seq<(T, int)>
    requires Distinct(t)
    decreases |Items(t)|
  {
    if t.Nil? then [] else
      MergeContents(t.child);
      [(t.id, t.key)] + Drain(MergePairs(t.child))
  }

  lemma {:induction false} DrainItems<T>(t: Tree<T>)
    requires Distinct(t) && Single(t)
    ensures multiset(Drain(t)) == Items(t)
    decreases |Items(t)|
  {
    if t.Node? {
      MergeContents(t.child);
      var rest := Drain(MergePairs(t.child));
      DrainItems(MergePairs(t.child));
      assert multiset([(t.id, t.key)] + rest) == multiset{(t.id, t.key)} + multiset(rest);
    }
  }

  lemma {:induction false} DrainAbove<T>(t: Tree<T>, bound: int)
    requires Distinct(t) && Ordered(t, bound) && Single(t)
    ensures forall j :: 0 <= j < |Drain(t)| ==> bound <= Drain(t)[j].1
  {
    DrainItems(t);
    OrderedItems(t, bound);
    assert forall j :: 0 <= j < |Drain(t)| ==> Drain(t)[j] in multiset(Drain(t));
  }

  lemma DrainNext<T>(t: Tree<T>)
    requires HeapOrdered(t) && Distinct(t) && t.Node?
    ensures var rest := MergePairs(t.child);
            && Distinct(rest) && Drain(t) == [(t.id, t.key)] + Drain(rest)
            && Ordered(rest, t.key) && HeapOrdered(rest) && Single(rest) && |Items(rest)| < |Items(t)|
  {
    PopCorrect(t);
    MergeContents(t.child);
    MergeOrdered(t.child, t.key);
  }

  predicate Rising<T>(s: seq<(T, int)>) {
    forall i, j :: 0 <= i < j < |s| ==> s[i].1 <= s[j].1
  }

  lemma HeapIsSingle<T>(t: Tree<T>)
    requires HeapOrdered(t)
    ensures Single(t) && Rising<T>([])
  {}

  lemma RisingCons<T>(first: (T, int), rest: seq<(T, int)>)
    requires Rising(rest) && forall j :: 0 <= j < |rest| ==> first.1 <= rest[j].1
    ensures Rising([first] + rest)
  {}

  /** Popping a heap until it is empty sorts it. */
  lemma {:induction false} DrainSorts<T>(t: Tree<T>)
    requires HeapOrdered(t) && Distinct(t)
    ensures multiset(Drain(t)) == Items(t) && Rising(Drain(t))
    decreases |Items(t)|
  {
    hide Items, Nodes, Distinct, Ordered, HeapOrdered, MergePairs, Rising;
    HeapIsSingle(t);
    DrainItems(t);
    if t.Node? {
      var rest := MergePairs(t.child);
      DrainNext(t);
      DrainAbove(rest, t.key);
      DrainSorts(rest);
      RisingCons((t.id, t.key), Drain(rest));
    }
  }

  // ---------- The second pass ----------

  /** The second pass melds the pairs, the last one first, onto what has been merged so far. */
  function FoldMeld<T>(acc: Tree<T>, pairs: seq<Tree<T>>): Tree<T>
    decreases |pairs|
  {
    if pairs == [] then acc else FoldMeld(Meld(acc, pairs[0]), pairs[1..])
  }

  lemma FoldCons<T>(acc: Tree<T>, pair: Tree<T>, pairs: seq<Tree<T>>)
    ensures FoldMeld(acc, [pair] + pairs) == FoldMeld(Meld(acc, pair), pairs)
  {
    assert ([pair] + pairs)[1..] == pairs;
  }
}
