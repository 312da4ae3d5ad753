/**
 The priority queue of the timers: a complete binary tree of linked nodes, kept in heap order,
 in which the node with number i is found by walking down the bits of i.
 */
module WeightedHeap {
  import opened Common

  const MAX_WEIGHT: nat := 0xFFFF_FFFF_FFFF_FFFF  // (WEIGHT) -1

  type Weight = w: nat | w <= MAX_WEIGHT

  // ---------------------------------------------------------------- heap order on weights

  // ws[i - 1] is the weight of node number i; its parent is node number i / 2.

  ghost predicate OrderAt(ws: seq<Weight>, i: int)
    requires 2 <= i <= |ws|
  {
    ws[i / 2 - 1] <= ws[i - 1]
  }

  ghost predicate Ordered(ws: seq<Weight>) { forall i :: 2 <= i <= |ws| ==> OrderAt(ws, i) }

  lemma {:induction false} RootIsMin(ws: seq<Weight>, i: int)
    requires Ordered(ws) && 1 <= i <= |ws|
    ensures ws[0] <= ws[i - 1]
    decreases i
  {
    if i > 1 {
      assert OrderAt(ws, i);
      RootIsMin(ws, i / 2);
    }
  }

  function Swap<T>(s: seq<T>, i: nat, j: nat): seq<T>
    requires 1 <= i <= |s| && 1 <= j <= |s|
  {
    s[i - 1 := s[j - 1]][j - 1 := s[i - 1]]
  }

  /** In order but for node i, which may be too light; its children are fine under its parent. */
  ghost predicate RisingAt(ws: seq<Weight>, i: int) {
    && 1 <= i <= |ws|
    && (forall j :: 2 <= j <= |ws| && j != i ==> OrderAt(ws, j))
    && (forall j :: 2 <= j <= |ws| && j / 2 == i && i >= 2 ==> ws[i / 2 - 1] <= ws[j - 1])
  }

  lemma RiseStep(ws: seq<Weight>, i: int)
    requires RisingAt(ws, i) && i >= 2 && ws[i - 1] < ws[i / 2 - 1]
    ensures RisingAt(Swap(ws, i, i / 2), i / 2)
  {
    var p := i / 2;
    var ws' := Swap(ws, i, p);
    forall j | 2 <= j <= |ws'| && j != p
      ensures OrderAt(ws', j)
    {
      if j != i { assert OrderAt(ws, j); }
      if p >= 2 { assert OrderAt(ws, p); }
    }
    forall j | 2 <= j <= |ws'| && j / 2 == p && p >= 2
      ensures ws'[p / 2 - 1] <= ws'[j - 1]
    {
      assert OrderAt(ws, p);
      if j != i { assert OrderAt(ws, j); }
    }
  }

  lemma RiseDone(ws: seq<Weight>, i: int)
    requires RisingAt(ws, i) && (i == 1 || ws[i / 2 - 1] <= ws[i - 1])
    ensures Ordered(ws)
  {
    forall j | 2 <= j <= |ws|
      ensures OrderAt(ws, j)
    {}
  }

  /** In order but for node i, which may be too heavy; its children are fine under its parent. */
  ghost predicate SinkingAt(ws: seq<Weight>, i: int) {
    && 1 <= i <= |ws|
    && (forall j :: 2 <= j <= |ws| && j / 2 != i ==> OrderAt(ws, j))
    && (forall j :: 2 <= j <= |ws| && j / 2 == i && i >= 2 ==> ws[i / 2 - 1] <= ws[j - 1])
  }

  lemma SinkStep(ws: seq<Weight>, i: int, c: int)
    requires SinkingAt(ws, i) && 2 <= c <= |ws| && c / 2 == i && ws[c - 1] < ws[i - 1]
    requires forall j :: 2 <= j <= |ws| && j / 2 == i ==> ws[c - 1] <= ws[j - 1]
    ensures SinkingAt(Swap(ws, c, i), c)
  {
    var ws' := Swap(ws, c, i);
    forall j | 2 <= j <= |ws'| && j / 2 != c
      ensures OrderAt(ws', j)
    {
      if j / 2 != i { assert OrderAt(ws, j); }
    }
    forall j | 2 <= j <= |ws'| && j / 2 == c && c >= 2
      ensures ws'[c / 2 - 1] <= ws'[j - 1]
    {
      assert OrderAt(ws, j);
    }
  }

  lemma SinkDone(ws: seq<Weight>, i: int)
    requires SinkingAt(ws, i)
    requires forall j :: 2 <= j <= |ws| && j / 2 == i ==> ws[i - 1] <= ws[j - 1]
    ensures Ordered(ws)
  {
    forall j | 2 <= j <= |ws|
      ensures OrderAt(ws, j)
    {}
  }

  /** Dropping the last node and putting it in place of the first. */
  lemma ReplaceRoot(ws: seq<Weight>)
    requires Ordered(ws) && |ws| >= 2
    ensures SinkingAt([ws[|ws| - 1]] + ws[1..|ws| - 1], 1)
  {
    var ws' := [ws[|ws| - 1]] + ws[1..|ws| - 1];
    forall j | 2 <= j <= |ws'| && j / 2 != 1
      ensures OrderAt(ws', j)
    {
      assert OrderAt(ws, j);
    }
  }

  lemma AppendLeaf(ws: seq<Weight>, w: Weight)
    requires Ordered(ws)
    ensures RisingAt(ws + [w], |ws| + 1)
  {
    var ws' := ws + [w];
    forall j | 2 <= j <= |ws'| && j != |ws'|
      ensures OrderAt(ws', j)
    {
      assert OrderAt(ws, j);
    }
  }

  // ---------------------------------------------------------------- the bits of an index

  function Pow2(k: nat): (r: nat)
    ensures r >= 1
  {
    if k == 0 then 1 else 2 * Pow2(k - 1)
  }

  /** i >> k */
  function Shift(i: nat, k: nat): nat
    decreases k
  {
    if k == 0 then i else Shift(i, k - 1) / 2
  }

  /** mask & i, for a mask with one bit set. */
  predicate BitSet(mask: nat, i: nat)
    decreases mask
  {
    if mask <= 1 then mask == 1 && i % 2 == 1 else BitSet(mask / 2, i / 2)
  }

  lemma {:induction false} BitIs(i: nat, k: nat)
    ensures BitSet(Pow2(k), i) <==> Shift(i, k) % 2 == 1
    decreases k
  {
    if k > 0 {
      BitIs(i / 2, k - 1);
      ShiftHalf(i, k - 1);
    }
  }

  lemma {:induction false} ShiftHalf(i: nat, k: nat)
    ensures Shift(i / 2, k) == Shift(i, k) / 2
    decreases k
  {
    if k > 0 { ShiftHalf(i, k - 1); }
  }

  lemma {:induction false} ShiftShrinks(i: nat, k: nat)
    ensures Shift(i, k) <= i
    decreases k
  {
    if k > 0 { ShiftShrinks(i, k - 1); }
  }

  // ---------------------------------------------------------------- linked nodes

  class Node {
    var Left: Node?
    var Right: Node?
    var Parent: Node?
    var Weight: Weight

    constructor () {
      Left, Right, Parent, Weight := null, null, null, 0;
    }
  }

  /** Node number i of the level-order listing, or nothing. */
  function NodeAt(ns: seq<Node>, i: int): Node? {
    if 1 <= i <= |ns| then ns[i - 1] else null
  }

  ghost predicate LinkOk(ns: seq<Node>, i: int)
    requires 1 <= i <= |ns|
    reads ns[i - 1]
  {
    var n := ns[i - 1];
    n.Parent == NodeAt(ns, i / 2) && n.Left == NodeAt(ns, 2 * i) && n.Right == NodeAt(ns, 2 * i + 1)
  }

  ghost function Elems(ns: seq<Node>): set<Node> { set x | x in ns }

  /** The nodes form the complete tree whose level order is `ns`. */
  ghost predicate Linked(ns: seq<Node>)
    reads ns
  {
    Distinct(ns) && forall i :: 1 <= i <= |ns| ==> LinkOk(ns, i)
  }

  ghost predicate Weighs(ns: seq<Node>, ws: seq<Weight>)
    reads ns
  {
    |ws| == |ns| && forall i :: 0 <= i < |ns| ==> ns[i].Weight == ws[i]
  }

  // Where the links of node number j point once nodes i and i / 2 have changed places.

  function NewParent(ns: seq<Node>, i: int, j: int): Node? {
    var p := i / 2;
    if j == i then NodeAt(ns, p / 2)
    else if j == p || j / 2 == p then NodeAt(ns, i)
    else if j / 2 == i then NodeAt(ns, p)
    else NodeAt(ns, j / 2)
  }

  function NewChild(ns: seq<Node>, i: int, j: int, side: int): Node? {
    var p := i / 2;
    if j == i then (if 2 * p + side == i then NodeAt(ns, p) else NodeAt(ns, 2 * p + side))
    else if j == p then NodeAt(ns, 2 * i + side)
    else if 2 * j + side == p then NodeAt(ns, i)
    else NodeAt(ns, 2 * j + side)
  }

  lemma SwappedLinks(ns: seq<Node>, i: int, j: int)
    requires 2 <= i <= |ns| && 1 <= j <= |ns| && Distinct(ns)
    ensures var ns', k := Swap(ns, i, i / 2), if j == i then i / 2 else if j == i / 2 then i else j;
            && ns'[k - 1] == ns[j - 1]
            && NewParent(ns, i, j) == NodeAt(ns', k / 2)
            && NewChild(ns, i, j, 0) == NodeAt(ns', 2 * k)
            && NewChild(ns, i, j, 1) == NodeAt(ns', 2 * k + 1)
  {}

  /** The nodes touched by a promotion are all different. */
  ghost predicate Relinked(ns: seq<Node>, i: int)
    requires 2 <= i <= |ns|
    reads ns
  {
    forall j :: 1 <= j <= |ns| ==> NewLinks(ns, i, j)
  }

  ghost predicate NewLinks(ns: seq<Node>, i: int, j: int)
    requires 1 <= j <= |ns|
    reads ns[j - 1]
  {
    && ns[j - 1].Parent == NewParent(ns, i, j)
    && ns[j - 1].Left == NewChild(ns, i, j, 0)
    && ns[j - 1].Right == NewChild(ns, i, j, 1)
  }

  /** Nodes are equal exactly if their numbers are. */
  lemma SameNode(ns: seq<Node>, j: int, k: int)
    requires Distinct(ns) && 1 <= j <= |ns|
    ensures NodeAt(ns, j) == NodeAt(ns, k) <==> j == k
  {}

  function Sibling(parent: Node, node: Node): Node?
    reads parent
  {
    if parent.Left != node then parent.Left else parent.Right
  }

  function Maybe(n: Node?): set<Node> { if n == null then {} else {n} }

  /** Distinct where not null. */
  predicate Apart(a: Node?, b: Node?) { a == null || a != b }

  /** The nodes a promotion may touch are all different. */
  predicate Family(g: Node?, p: Node, n: Node, s: Node?, l: Node?, r: Node?) {
    && p != n
    && g != p && g != n && Apart(g, s) && Apart(g, l) && Apart(g, r)
    && s != p && s != n && l != p && l != n && r != p && r != n
    && Apart(s, l) && Apart(s, r) && Apart(l, r)
  }

  /** Exchanges a node with its parent by relinking; the head pointer is not touched. */
  method HeapPromote(node: Node)
    requires node.Parent != null
    requires node.Parent.Left == node || node.Parent.Right == node
    requires Family(node.Parent.Parent, node.Parent, node, Sibling(node.Parent, node), node.Left, node.Right)
    modifies node`Parent, node`Left, node`Right, node.Parent`Parent, node.Parent`Left, node.Parent`Right
    modifies Maybe(node.Parent.Parent)`Left, Maybe(node.Parent.Parent)`Right
    modifies Maybe(Sibling(node.Parent, node))`Parent, Maybe(node.Left)`Parent, Maybe(node.Right)`Parent
    ensures var p, n := old(node.Parent), node;
            var g, s, l, r := old(p.Parent), old(Sibling(p, node)), old(node.Left), old(node.Right);
            && n.Parent == g && p.Parent == n
            && n.Left == (if old(p.Left) == n then p else s) && n.Right == (if old(p.Left) == n then s else p)
            && p.Left == l && p.Right == r
            && (s != null ==> s.Parent == n) && (l != null ==> l.Parent == p) && (r != null ==> r.Parent == p)
            && (g != null ==> g.Left == (if old(g.Left) == p then n else old(g.Left)))
            && (g != null ==> g.Right == (if old(g.Left) == p then old(g.Right) else n))
  {
    var parent := node.Parent;
    var grandParent := parent.Parent;
    var nodeLeft := node.Left;
    var nodeRight := node.Right;
    var sibling := if parent.Left != node then parent.Left else parent.Right;

    if grandParent != null {
      if grandParent.Left == parent {
        grandParent.Left := node;
      } else {
        grandParent.Right := node;
      }
    }
    node.Parent := grandParent;
    parent.Parent := node;
    if sibling != null {
      sibling.Parent := node;
    }
    if parent.Left == node {
      node.Left := parent;
      node.Right := sibling;
    } else {
      node.Left := sibling;
      node.Right := parent;
    }
    parent.Left := nodeLeft;
    parent.Right := nodeRight;
    if nodeLeft != null {
      nodeLeft.Parent := parent;
    }
    if nodeRight != null {
      nodeRight.Parent := parent;
    }
  }

  /** The family of node i in a linked tree, by number. */
  lemma FamilyOf(ns: seq<Node>, i: int)
    requires Linked(ns) && 2 <= i <= |ns|
    ensures var n := ns[i - 1];
            && n.Parent == NodeAt(ns, i / 2) && n.Parent != null && n.Parent.Parent == NodeAt(ns, i / 2 / 2)
            && (n.Parent.Left == n <==> i % 2 == 0) && (n.Parent.Right == n <==> i % 2 == 1)
            && Sibling(n.Parent, n) == NodeAt(ns, 4 * (i / 2) + 1 - i)
            && n.Left == NodeAt(ns, 2 * i) && n.Right == NodeAt(ns, 2 * i + 1)
            && Family(n.Parent.Parent, n.Parent, n, Sibling(n.Parent, n), n.Left, n.Right)
            && (n.Parent.Parent != null ==> (n.Parent.Parent.Left == n.Parent <==> i / 2 % 2 == 0))
  {
    assert LinkOk(ns, i) && LinkOk(ns, i / 2);
    if i / 2 > 1 { assert LinkOk(ns, i / 2 / 2); }
  }

  /** The number of the other child of node i / 2. */
  function SiblingOf(i: int): int { 4 * (i / 2) + 1 - i }

  /** The links of node i, its parent and its other relatives after a promotion. */
  ghost predicate FamilyRelinked(ns: seq<Node>, i: int)
    requires 2 <= i <= |ns|
    reads ns
  {
    var n, p, g, s := ns[i - 1], ns[i / 2 - 1], NodeAt(ns, i / 2 / 2), NodeAt(ns, SiblingOf(i));
    var l, r := NodeAt(ns, 2 * i), NodeAt(ns, 2 * i + 1);
    && n.Parent == g && p.Parent == n && p.Left == l && p.Right == r
    && n.Left == (if i % 2 == 0 then p else s) && n.Right == (if i % 2 == 0 then s else p)
    && (s != null ==> s.Parent == n) && (l != null ==> l.Parent == p) && (r != null ==> r.Parent == p)
    && (g != null ==> g.Left == if i / 2 % 2 == 0 then n else NodeAt(ns, 2 * (i / 2 / 2)))
    && (g != null ==> g.Right == if i / 2 % 2 == 0 then NodeAt(ns, 2 * (i / 2 / 2) + 1) else n)
  }

  /** The links a promotion of node i leaves alone. */
  ghost predicate Untouched(ns: seq<Node>, i: int, j: int)
    requires 1 <= j <= |ns|
    reads ns[j - 1]
  {
    && (j != i && j != i / 2 && j != i / 2 / 2 ==>
          ns[j - 1].Left == NodeAt(ns, 2 * j) && ns[j - 1].Right == NodeAt(ns, 2 * j + 1))
    && (j != i && j != i / 2 && j != SiblingOf(i) && j != 2 * i && j != 2 * i + 1 ==>
          ns[j - 1].Parent == NodeAt(ns, j / 2))
  }

  lemma RelinkedByParts(ns: seq<Node>, i: int, j: int)
    requires 2 <= i <= |ns| && 1 <= j <= |ns| && Distinct(ns)
    requires FamilyRelinked(ns, i) && Untouched(ns, i, j)
    ensures NewLinks(ns, i, j)
  {}

  ghost function TouchedDown(ns: seq<Node>, i: int): set<Node> {
    Maybe(NodeAt(ns, i)) + Maybe(NodeAt(ns, i / 2)) + Maybe(NodeAt(ns, i / 2 / 2))
  }

  ghost function TouchedUp(ns: seq<Node>, i: int): set<Node> {
    Maybe(NodeAt(ns, i)) + Maybe(NodeAt(ns, i / 2)) + Maybe(NodeAt(ns, SiblingOf(i)))
    + Maybe(NodeAt(ns, 2 * i)) + Maybe(NodeAt(ns, 2 * i + 1))
  }

  /** HeapPromote, with the nodes named by their numbers. */
  method RelinkFamily(node: Node, ghost ns: seq<Node>, ghost i: int)
    requires Linked(ns) && 2 <= i <= |ns| && ns[i - 1] == node
    modifies TouchedDown(ns, i)`Left, TouchedDown(ns, i)`Right, TouchedUp(ns, i)`Parent
    ensures FamilyRelinked(ns, i)
  {
    FamilyOf(ns, i);
    if i / 2 > 1 { assert LinkOk(ns, i / 2 / 2); }
    HeapPromote(node);
  }

  lemma TouchedInside(ns: seq<Node>, i: int)
    ensures TouchedDown(ns, i) <= Elems(ns) && TouchedUp(ns, i) <= Elems(ns)
  {
    assert forall k :: 1 <= k <= |ns| ==> NodeAt(ns, k) in ns;
  }

  lemma TouchedOnly(ns: seq<Node>, i: int, j: int)
    requires Distinct(ns) && 1 <= j <= |ns|
    ensures ns[j - 1] in TouchedDown(ns, i) ==> j == i || j == i / 2 || j == i / 2 / 2
    ensures ns[j - 1] in TouchedUp(ns, i) ==>
              j == i || j == i / 2 || j == SiblingOf(i) || j == 2 * i || j == 2 * i + 1
  {}

  method Relink(node: Node, ghost ns: seq<Node>, ghost i: int)
    requires Linked(ns) && 2 <= i <= |ns| && ns[i - 1] == node
    modifies Elems(ns)`Left, Elems(ns)`Right, Elems(ns)`Parent
    ensures FamilyRelinked(ns, i)
    ensures forall j :: 1 <= j <= |ns| ==> Untouched(ns, i, j)
  {
    TouchedInside(ns, i);
    RelinkFamily(node, ns, i);
    forall j | 1 <= j <= |ns|
      ensures Untouched(ns, i, j)
    {
      assert old(LinkOk(ns, j));
      TouchedOnly(ns, i, j);
    }
  }

  /** HeapPromote, seen as exchanging two nodes of the tree. */
  method Promote(node: Node, ghost ns: seq<Node>, ghost i: int)
    requires Linked(ns) && 2 <= i <= |ns| && ns[i - 1] == node
    modifies Elems(ns)`Left, Elems(ns)`Right, Elems(ns)`Parent
    ensures Linked(Swap(ns, i, i / 2))
  {
    Relink(node, ns, i);
    forall j | 1 <= j <= |ns|
      ensures NewLinks(ns, i, j)
    {
      RelinkedByParts(ns, i, j);
    }
    RelinkedIsSwapped(ns, i);
  }

  lemma RelinkedIsSwapped(ns: seq<Node>, i: int)
    requires Distinct(ns) && 2 <= i <= |ns| && Relinked(ns, i)
    ensures Linked(Swap(ns, i, i / 2))
  {
    var ns' := Swap(ns, i, i / 2);
    forall k | 1 <= k <= |ns'|
      ensures LinkOk(ns', k)
    {
      var j := if k == i then i / 2 else if k == i / 2 then i else k;
      assert NewLinks(ns, i, j);
      SwappedLinks(ns, i, j);
    }
  }

  /** The weight of a node, a missing one counting as heaviest. */
  function WeightOf(n: Node?): Weight
    reads if n == null then {} else {n}
  {
    if n == null then MAX_WEIGHT else n.Weight
  }

  /** The lightest of three nodes, the first on ties. */
  method HeapSmallest(n1: Node?, n2: Node?, n3: Node?) returns (r: Node?)
    ensures r == n1 || r == n2 || r == n3
    ensures WeightOf(r) <= WeightOf(n1) && WeightOf(r) <= WeightOf(n2) && WeightOf(r) <= WeightOf(n3)
    ensures r != n1 ==> WeightOf(r) < WeightOf(n1)
    ensures r != n1 && r != n2 ==> WeightOf(r) < WeightOf(n2)
  {
    var w1 := WeightOf(n1);
    var w2 := WeightOf(n2);
    var w3 := WeightOf(n3);
    if w1 <= w2 && w1 <= w3 {
      return n1;
    }
    if w2 <= w1 && w2 <= w3 {
      return n2;
    }
    return n3;
  }

  lemma SwapKeeps(ns: seq<Node>, i: nat, j: nat)
    requires 1 <= i <= |ns| && 1 <= j <= |ns|
    ensures Elems(Swap(ns, i, j)) == Elems(ns)
  {
    var ns' := Swap(ns, i, j);
    assert ns'[i - 1] == ns[j - 1] && ns'[j - 1] == ns[i - 1];
    forall k | 0 <= k < |ns|
      ensures ns[k] in ns' && ns'[k] in ns
    {
      assert k != i - 1 && k != j - 1 ==> ns'[k] == ns[k];
    }
  }

  method Hang(node: Node, parent: Node, ghost ns: seq<Node>)
    requires Linked(ns) && ns != [] && parent == ns[(|ns| + 1) / 2 - 1]
    requires node !in ns && node.Left == null && node.Right == null
    modifies parent`Left, parent`Right, node`Parent
    ensures Linked(ns + [node])
  {
    assert LinkOk(ns, (|ns| + 1) / 2);
    if parent.Left == null {
      parent.Left := node;
    } else {
      parent.Right := node;
    }
    node.Parent := parent;
    forall j | 1 <= j <= |ns| + 1
      ensures LinkOk(ns + [node], j)
    {
      if j <= |ns| {
        assert old(LinkOk(ns, j));
        SameNode(ns, j, (|ns| + 1) / 2);
      }
    }
  }

  class Heap {
    var Head: Node?
    var Size: nat
    ghost var nodes: seq<Node>      // level order
    ghost var weights: seq<Weight>  // of those nodes

    ghost predicate Shaped()
      reads this, nodes
    {
      Size == |nodes| && Head == NodeAt(nodes, 1) && Linked(nodes) && Weighs(nodes, weights)
    }

    ghost predicate Valid()
      reads this, nodes
    {
      Shaped() && Ordered(weights)
    }

    constructor ()
      ensures Valid() && nodes == []
    {
      Head, Size, nodes, weights := null, 0, [], [];
    }

    /** Walks down from the head along the bits of the index, below the leading one. */
    method FindElement(index: nat) returns (cur: Node)
      requires Head == NodeAt(nodes, 1) && Linked(nodes) && 1 <= index <= |nodes|
      ensures cur == nodes[index - 1]
    {
      var steps, tmp := 0, index;
      while tmp != 1
        invariant tmp == Shift(index, steps) && tmp >= 1
        decreases tmp
      {
        tmp := tmp / 2;
        steps := steps + 1;
      }
      if steps == 0 {
        return Head;
      }
      cur := Head;
      var mask := Pow2(steps) / 2;
      ghost var k := steps - 1;
      while mask > 0
        invariant -1 <= k < steps && mask == (if k >= 0 then Pow2(k) else 0)
        invariant 1 <= Shift(index, k + 1) <= index && cur == nodes[Shift(index, k + 1) - 1]
        decreases k
      {
        cur := Descend(cur, mask, index, k);
        mask := mask / 2;
        k := k - 1;
      }
    }

    /** One step down: bit k of the index says right or left. */
    method Descend(cur: Node, mask: nat, index: nat, ghost k: nat) returns (next: Node)
      requires Linked(nodes) && mask == Pow2(k) && 1 <= index <= |nodes|
      requires 1 <= Shift(index, k + 1) <= |nodes| && cur == nodes[Shift(index, k + 1) - 1]
      ensures 1 <= Shift(index, k) <= index && next == nodes[Shift(index, k) - 1]
    {
      BitIs(index, k);
      ShiftShrinks(index, k);
      assert LinkOk(nodes, Shift(index, k + 1));
      if BitSet(mask, index) {
        next := cur.Right;
      } else {
        next := cur.Left;
      }
    }

    /** Hangs a new leaf under node number Size / 2 of the tree. */
    method AppendNode(node: Node)
      requires Shaped() && Size >= 1 && node !in nodes && node.Left == null && node.Right == null
      modifies this, Elems(nodes)`Left, Elems(nodes)`Right, node`Parent
      ensures Shaped() && nodes == old(nodes) + [node] && weights == old(weights) + [node.Weight]
    {
      Size := Size + 1;
      var parent := FindElement(Size / 2);
      assert LinkOk(nodes, Size / 2);
      assert parent.Left == null || parent.Right == null;
      Hang(node, parent, nodes);
      nodes, weights := nodes + [node], weights + [node.Weight];
    }

    /** One promotion, with the level order kept up to date. */
    method PromoteAt(node: Node, ghost i: int)
      requires Linked(nodes) && Weighs(nodes, weights) && 2 <= i <= |nodes| && nodes[i - 1] == node
      modifies `nodes, `weights, Elems(nodes)`Left, Elems(nodes)`Right, Elems(nodes)`Parent
      ensures nodes == Swap(old(nodes), i, i / 2) && weights == Swap(old(weights), i, i / 2)
      ensures Linked(nodes) && Weighs(nodes, weights)
      ensures Elems(nodes) == Elems(old(nodes))
    {
      Promote(node, nodes, i);
      SwapKeeps(nodes, i, i / 2);
      nodes, weights := Swap(nodes, i, i / 2), Swap(weights, i, i / 2);
    }

    /** Promotes the last node until its parent is no heavier. */
    method Rise(node: Node)
      requires Shaped() && Size >= 2 && node == nodes[Size - 1] && RisingAt(weights, Size)
      modifies this, Elems(nodes)`Left, Elems(nodes)`Right, Elems(nodes)`Parent
      ensures Valid() && |nodes| == |old(nodes)|
      ensures Elems(nodes) == Elems(old(nodes))
    {
      ghost var k := Size;
      while node.Parent != null && node.Weight < node.Parent.Weight
        invariant Linked(nodes) && 1 <= k <= |nodes| == Size == old(Size) && nodes[k - 1] == node
        invariant k > 1 ==> Head == nodes[0]
        invariant Weighs(nodes, weights) && RisingAt(weights, k)
        invariant Elems(nodes) == Elems(old(nodes))
        decreases k
      {
        assert LinkOk(nodes, k);
        RiseStep(weights, k);
        PromoteAt(node, k);
        k := k / 2;
      }
      assert LinkOk(nodes, k);
      RiseDone(weights, k);
      if node.Parent == null {
        Head := node;
      }
    }

    /** Adds a node at the end of the tree and lets it rise. */
    method Add(weight: Weight, node: Node)
      requires Valid() && node !in nodes
      modifies this, Elems(nodes)`Left, Elems(nodes)`Right, Elems(nodes)`Parent, node
      ensures Valid() && node.Weight == weight
      ensures |nodes| == |old(nodes)| + 1
      ensures Elems(nodes) == Elems(old(nodes)) + {node}
    {
      ghost var ws := weights;
      node.Weight := weight;
      node.Left := null;
      node.Right := null;
      if Size == 0 {
        Size := Size + 1;
        Head := node;
        node.Parent := null;
        nodes, weights := [node], [weight];
        assert LinkOk(nodes, 1);
      } else {
        AppendNode(node);
        AppendLeaf(ws, weight);
        Rise(node);
      }
    }

    /** Unlinks the last leaf from its parent. */
    method Detach(tail: Node)
      requires Shaped() && Size >= 2 && tail == nodes[Size - 1]
      modifies this, Elems(nodes)`Left, Elems(nodes)`Right
      ensures Shaped() && nodes == old(nodes)[..old(Size) - 1] && weights == old(weights)[..old(Size) - 1]
    {
      ghost var ns, n := nodes, Size;
      weights := weights[..n - 1];
      assert LinkOk(ns, n) && LinkOk(ns, n / 2);
      if tail.Parent.Right == tail {
        tail.Parent.Right := null;
      } else {
        tail.Parent.Left := null;
      }
      Size := Size - 1;
      nodes := ns[..n - 1];
      forall j | 1 <= j <= |nodes|
        ensures LinkOk(nodes, j)
      {
        assert old(LinkOk(ns, j));
        SameNode(ns, j, n / 2);
      }
    }

    /** Puts a node from outside in place of the head. */
    method ReplaceHead(tail: Node) returns (popped: Node)
      requires Shaped() && Size >= 1 && tail !in nodes
      modifies this, Elems(nodes)`Parent, tail`Left, tail`Right, tail`Parent
      ensures Shaped() && popped == old(nodes)[0] && nodes == [tail] + old(nodes)[1..]
      ensures weights == [tail.Weight] + old(weights)[1..]
    {
      ghost var ns := nodes;
      weights := [tail.Weight] + weights[1..];
      assert LinkOk(ns, 1);
      popped := Head;
      Head := tail;
      TakeLinks(tail, popped);
      nodes := [tail] + ns[1..];
      assert forall k {:trigger NodeAt(nodes, k)} :: k != 1 ==> NodeAt(nodes, k) == NodeAt(ns, k);
      forall j | 1 <= j <= |nodes|
        ensures LinkOk(nodes, j)
      {
        assert old(LinkOk(ns, j));
        SameNode(ns, j, 2);
        SameNode(ns, j, 3);
      }
    }

    /** Gives one node the children of another. */
    static method TakeLinks(tail: Node, popped: Node)
      requires tail != popped && popped.Left != tail && popped.Right != tail
      requires popped.Left != popped && popped.Right != popped
      modifies tail`Parent, tail`Left, tail`Right, Maybe(popped.Left)`Parent, Maybe(popped.Right)`Parent
      ensures tail.Parent == null && tail.Left == old(popped.Left) && tail.Right == old(popped.Right)
      ensures old(popped.Left) != null ==> old(popped.Left).Parent == tail
      ensures old(popped.Right) != null ==> old(popped.Right).Parent == tail
    {
      tail.Parent := null;
      tail.Left := popped.Left;
      tail.Right := popped.Right;
      if tail.Left != null {
        tail.Left.Parent := tail;
      }
      if tail.Right != null {
        tail.Right.Parent := tail;
      }
    }

    /** `x` is the lightest of node k and its children. */
    ghost predicate Lightest(k: int, x: Node)
      requires 1 <= k <= |nodes| == |weights|
      reads this, x
    {
      && (x == nodes[k - 1] || x == NodeAt(nodes, 2 * k) || x == NodeAt(nodes, 2 * k + 1))
      && (x != nodes[k - 1] ==> x.Weight < weights[k - 1])
      && (forall j :: 2 <= j <= |nodes| && j / 2 == k ==> x.Weight <= weights[j - 1])
    }

    method SmallestAt(tail: Node, ghost k: int) returns (x: Node)
      requires Linked(nodes) && Weighs(nodes, weights) && 1 <= k <= |nodes| && nodes[k - 1] == tail
      ensures Lightest(k, x)
    {
      assert LinkOk(nodes, k);
      x := HeapSmallest(tail, tail.Left, tail.Right);
      assert forall j :: 2 <= j <= |nodes| && j / 2 == k ==> j == 2 * k || j == 2 * k + 1;
    }

    /** One turn of the loop that lets a node sink. */
    method SinkOnce(tail: Node, smallest: Node, ghost k: int) returns (ghost c: int)
      requires Shaped() && 1 <= k <= |nodes| && nodes[k - 1] == tail && smallest != tail
      requires SinkingAt(weights, k) && Lightest(k, smallest)
      modifies this, Elems(nodes)`Left, Elems(nodes)`Right, Elems(nodes)`Parent
      ensures Shaped() && k < c <= |nodes| == |old(nodes)| && nodes[c - 1] == tail
      ensures SinkingAt(weights, c) && Elems(nodes) == Elems(old(nodes))
    {
      c := if smallest == NodeAt(nodes, 2 * k) then 2 * k else 2 * k + 1;
      SinkStep(weights, k, c);
      PromoteAt(smallest, c);
      assert LinkOk(nodes, k);
      if smallest.Parent == null {
        Head := smallest;
      }
    }

    /** Promotes the lighter child of the head node until none is lighter. */
    method Sink(tail: Node)
      requires Shaped() && Size >= 1 && tail == nodes[0] && SinkingAt(weights, 1)
      modifies this, Elems(nodes)`Left, Elems(nodes)`Right, Elems(nodes)`Parent
      ensures Valid() && |nodes| == |old(nodes)|
      ensures Elems(nodes) == Elems(old(nodes))
    {
      ghost var k := 1;
      var smallest := SmallestAt(tail, k);
      while smallest != tail
        invariant Shaped() && 1 <= k <= |nodes| == |old(nodes)| && nodes[k - 1] == tail
        invariant SinkingAt(weights, k) && Lightest(k, smallest)
        invariant Elems(nodes) == Elems(old(nodes))
        decreases |nodes| - k
      {
        k := SinkOnce(tail, smallest, k);
        smallest := SmallestAt(tail, k);
      }
      SinkDone(weights, k);
    }

    /** Removes the lightest node, or gives nothing if there is none. */
    method Pop() returns (popped: Node?)
      requires Valid()
      modifies this, Elems(nodes)`Left, Elems(nodes)`Right, Elems(nodes)`Parent
      ensures Valid()
      ensures old(nodes) == [] ==> popped == null && nodes == []
      ensures old(nodes) != [] ==>
                && popped == old(nodes)[0] && |nodes| == |old(nodes)| - 1
                && Elems(nodes) == Elems(old(nodes)) - {popped}
                && (forall x :: x in old(nodes) ==> popped.Weight <= x.Weight)
    {
      if Size == 0 {
        return null;
      }
      HeadIsLightest();
      var tail := FindElement(Size);
      assert LinkOk(nodes, Size);
      assert tail.Left == null && tail.Right == null;
      if tail.Parent == null {
        Size, Head, nodes, weights := 0, null, [], [];
        return tail;
      }
      popped := TailToHead(tail);
      Sink(tail);
    }

    /** The last node takes the place of the first. */
    method TailToHead(tail: Node) returns (popped: Node)
      requires Valid() && Size >= 2 && tail == nodes[Size - 1]
      modifies this, Elems(nodes)`Left, Elems(nodes)`Right, Elems(nodes)`Parent
      ensures Shaped() && Size >= 1 && tail == nodes[0] && SinkingAt(weights, 1)
      ensures popped == old(nodes)[0] && |nodes| == |old(nodes)| - 1
      ensures Elems(nodes) == Elems(old(nodes)) - {popped}
    {
      ghost var ns, ws, n := nodes, weights, Size;
      ReplaceRoot(ws);
      TailFirst(ns);
      CutEnds(ns);
      CutEnds(ws);
      Detach(tail);
      popped := ReplaceHead(tail);
      assert nodes == [ns[n - 1]] + ns[1..n - 1] && weights == [ws[n - 1]] + ws[1..n - 1];
    }

    lemma HeadIsLightest()
      requires Valid() && nodes != []
      ensures forall x :: x in nodes ==> nodes[0].Weight <= x.Weight
    {
      forall x | x in nodes
        ensures nodes[0].Weight <= x.Weight
      {
        var i :| 0 <= i < |nodes| && nodes[i] == x;
        RootIsMin(weights, i + 1);
      }
    }
  }

  lemma CutEnds<T>(s: seq<T>)
    requires |s| >= 2
    ensures s[..|s| - 1][1..] == s[1..|s| - 1]
  {}

  lemma TailFirst(ns: seq<Node>)
    requires |ns| >= 2 && Distinct(ns)
    ensures Elems([ns[|ns| - 1]] + ns[1..|ns| - 1]) == Elems(ns) - {ns[0]}
  {
    var ns' := [ns[|ns| - 1]] + ns[1..|ns| - 1];
    forall k | 0 < k < |ns|
      ensures ns[k] in ns'
    {
      if k < |ns| - 1 { assert ns'[k] == ns[k]; } else { assert ns'[0] == ns[k]; }
    }
  }
}
