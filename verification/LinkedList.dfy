/**
 The circular doubly linked list behind every wait list and the run queue: its links refine a
 sequence, taken at the front and extended at either end.
 */
module LinkedList {
  import opened Common

  class Link {
    var Next: Link
    var Prev: Link

    constructor ()
      ensures Next == this && Prev == this
    {
      Next, Prev := this, this;
    }
  }

  /** The node after position i, going around. */
  ghost function After(nodes: seq<Link>, i: nat): Link
    requires i < |nodes|
  {
    if i + 1 < |nodes| then nodes[i + 1] else nodes[0]
  }

  /** The node before position i, going around. */
  ghost function Before(nodes: seq<Link>, i: nat): Link
    requires i < |nodes|
  {
    if i > 0 then nodes[i - 1] else nodes[|nodes| - 1]
  }

  /** The links run around exactly these nodes, both ways. */
  ghost predicate Ring(nodes: seq<Link>)
    reads nodes
  {
    forall i :: 0 <= i < |nodes| ==> nodes[i].Next == After(nodes, i) && nodes[i].Prev == Before(nodes, i)
  }

  /** Puts `node` before the first node of a ring, or makes a ring of it. */
  method Insert(node: Link, list: Link?, ghost nodes: seq<Link>)
    requires Ring(nodes) && Distinct(nodes) && node !in nodes
    requires list == if nodes == [] then null else nodes[0]
    modifies node, nodes
    ensures Ring(nodes + [node]) && Ring([node] + nodes)
  {
    if list == null {
      node.Next := node;
      node.Prev := node;
    } else {
      ghost var last := nodes[|nodes| - 1];
      assert list.Prev == last && last.Next == list;
      node.Next := list;
      node.Prev := list.Prev;
      list.Prev.Next := node;
      list.Prev := node;
    }
  }

  ghost function Without(nodes: seq<Link>, k: nat): seq<Link>
    requires k < |nodes|
  {
    if k == 0 then nodes[1..] else nodes[..k] + nodes[k + 1..]
  }

  /** Takes a node out of a ring, wherever it stands. */
  method Remove(node: Link, ghost nodes: seq<Link>, ghost k: nat)
    requires Ring(nodes) && Distinct(nodes) && k < |nodes| && node == nodes[k]
    modifies nodes
    ensures Ring(Without(nodes, k)) && node.Next == node && node.Prev == node
  {
    assert node.Prev == Before(nodes, k) && node.Next == After(nodes, k);
    node.Prev.Next := node.Next;
    node.Next.Prev := node.Prev;
    node.Next := node;
    node.Prev := node;
    ghost var rest := Without(nodes, k);
    forall i | 0 <= i < |rest| ensures rest[i].Next == After(rest, i) && rest[i].Prev == Before(rest, i) {
      assert rest[i] == nodes[if i < k then i else i + 1];
    }
  }

  class List {
    var Head: Link?
    ghost var nodes: seq<Link>

    ghost predicate Valid()
      reads this, nodes
    {
      Ring(nodes) && Distinct(nodes) && Head == if nodes == [] then null else nodes[0]
    }

    constructor ()
      ensures Valid() && nodes == []
    {
      Head, nodes := null, [];
    }

    /** Adds at the front. */
    method Push(node: Link)
      requires Valid() && node !in nodes
      modifies this, node, nodes
      ensures Valid() && nodes == [node] + old(nodes)
    {
      Insert(node, Head, nodes);
      Head := node;
      nodes := [node] + nodes;
    }

    /** Adds at the end: inserted before the head, with the head put back where it was. */
    method Enqueue(node: Link)
      requires Valid() && node !in nodes
      modifies this, node, nodes
      ensures Valid() && nodes == old(nodes) + [node]
    {
      Insert(node, Head, nodes);
      nodes := nodes + [node];
      assert nodes[|nodes| - 1].Next == After(nodes, |nodes| - 1);
      Head := node.Next;
    }

    /** Takes the first node, which is left as a ring of its own; null when there is none. */
    method Pop() returns (top: Link?)
      requires Valid()
      modifies this, nodes
      ensures Valid() && (top == null <==> old(nodes) == [])
      ensures top == null ==> nodes == []
      ensures top != null ==> old(nodes) == [top] + nodes && top.Next == top && top.Prev == top
    {
      if Head == null {
        return null;
      }
      top := Head;
      assert top == nodes[0] && top.Next == After(nodes, 0);
      if Head == Head.Next {
        Head := null;
      } else {
        Head := top.Next;
        Remove(top, nodes, 0);
      }
      nodes := nodes[1..];
    }

    method IsEmpty() returns (empty: bool)
      requires Valid()
      ensures empty <==> nodes == []
    {
      empty := Head == null;
    }
  }
}
