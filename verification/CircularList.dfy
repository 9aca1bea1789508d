/** The circular doubly linked list of src/list.h: a sentinel, nodes that other
    structures keep as iterators, and insertion before a node.  `nodes` is the
    sequence the list refines. */
module CircularList {
  import opened Common

  class Node<T(0)> {
    var next: Node<T>
    var prev: Node<T>
    var value: T

    /** A node linked to itself, like the sentinel of an empty list. */
    constructor (v: T)
      ensures next == this && prev == this && value == v
    {
      next, prev, value := this, this, v;
    }

    /** `list_next` */
    method Next() returns (n: Node<T>)
      ensures n == next
    {
      n := next;
    }
  }

  /** Erasing what was just inserted restores the sequence, and an element
      inserted before iterator `y` is found right before it. */
  lemma InsertThenRemove<T>(s: seq<T>, k: nat, x: T)
    requires k <= |s| && x !in s
    ensures RemoveAt(InsertAt(s, k, x), k) == s
    ensures Position(InsertAt(s, k, x), x) == k
    ensures k < |s| ==> InsertAt(s, k, x)[k + 1] == s[k]
    ensures multiset(InsertAt(s, k, x)) == multiset(s) + multiset{x}
  {
    var t := InsertAt(s, k, x);
    assert t[k] == x;
    assert forall i | 0 <= i < |t| && i != k :: t[i] == s[if i < k then i else i - 1];
    assert s == s[..k] + s[k..];
  }

  /** The position after `i` in a ring of `n` nodes. */
  function Succ(i: nat, n: nat): (j: nat)
    requires i < n
    ensures j < n
  {
    if i + 1 < n then i + 1 else 0
  }

  /** The link after position `i` of the ring, in both directions. */
  ghost predicate LinkAt<T(0)>(ring: seq<Node<T>>, i: nat)
    requires i < |ring|
    reads ring
  {
    var j := Succ(i, |ring|);
    ring[i].next == ring[j] && ring[j].prev == ring[i]
  }

  ghost predicate Linked<T(0)>(ring: seq<Node<T>>)
    reads ring
  {
    forall i | 0 <= i < |ring| :: LinkAt(ring, i)
  }

  lemma LinksApart<T(0)>(ring: seq<Node<T>>, i: nat, k: nat)
    requires NoRepeats(ring) && i < |ring| && k < |ring| && i != k
    ensures ring[i] != ring[k] && ring[Succ(i, |ring|)] != ring[Succ(k, |ring|)]
  {
  }

  class List<T(0)> {
    const head: Node<T>
    ghost var nodes: seq<Node<T>>

    /** The ring read from the sentinel on. */
    ghost function Ring(): seq<Node<T>>
      reads this
    {
      [head] + nodes
    }

    /** `next` and `prev` are each other's inverse around the ring. */
    ghost predicate Valid()
      reads this, head, nodes
    {
      NoRepeats(Ring()) && Linked(Ring())
    }

    /** The values in list order. */
    ghost function Contents(): (c: seq<T>)
      reads this, nodes
      ensures |c| == |nodes| && forall i | 0 <= i < |c| :: c[i] == nodes[i].value
    {
      seq(|nodes|, i requires 0 <= i < |nodes| reads this, nodes => nodes[i].value)
    }

    lemma HeadApart()
      requires Valid()
      ensures head !in nodes && NoRepeats(nodes)
    {
      assert Ring()[0] == head;
      assert forall i | 0 <= i < |nodes| :: Ring()[i + 1] == nodes[i];
    }

    /** The links at both ends of the list. */
    lemma Ends()
      requires Valid()
      ensures nodes == [] ==> head.next == head && head.prev == head
      ensures nodes != [] ==>
                var last := |nodes| - 1;
                && head.next == nodes[0] && nodes[0].prev == head
                && head.prev == nodes[last] && nodes[last].next == head
                && nodes[0].next == (if last > 0 then nodes[1] else head)
                && nodes[last].prev == (if last > 0 then nodes[last - 1] else head)
    {
      assert LinkAt(Ring(), 0);
      if nodes != [] {
        assert LinkAt(Ring(), 1) && LinkAt(Ring(), |nodes|) && LinkAt(Ring(), |nodes| - 1);
      }
    }

    /** The links of the node at position `k`. */
    lemma Neighbours(k: nat)
      requires Valid() && k < |nodes|
      ensures nodes[k].prev == if k > 0 then nodes[k - 1] else head
      ensures nodes[k].next == if k + 1 < |nodes| then nodes[k + 1] else head
    {
      assert LinkAt(Ring(), k) && LinkAt(Ring(), k + 1);
    }

    /** `list_new` */
    constructor (filler: T)
      ensures Valid() && nodes == [] && fresh(head)
    {
      head := new Node(filler);
      nodes := [];
    }

    /** `list_empty` */
    method IsEmpty() returns (r: bool)
      requires Valid()
      ensures r <==> nodes == []
    {
      Ends();
      HeadApart();
      r := head == head.next;
    }

    /** `list_single`: no more than one element */
    method IsSingle() returns (r: bool)
      requires Valid()
      ensures r <==> |nodes| <= 1
    {
      Ends();
      HeadApart();
      r := head == head.next.next;
    }

    /** `list_begin` */
    method Begin() returns (it: Node<T>)
      requires Valid()
      ensures it == if nodes == [] then head else nodes[0]
    {
      hide Valid;
      Ends();
      it := head.next;
    }

    /** `list_next` from a node of the list: the following node or the sentinel. */
    method Next(it: Node<T>, ghost k: nat) returns (n: Node<T>)
      requires Valid() && k < |nodes| && nodes[k] == it
      ensures n == if k + 1 < |nodes| then nodes[k + 1] else head
    {
      assert LinkAt(Ring(), k + 1);
      n := it.next;
    }

    /** The links of `list_insert`: `node` goes between ring positions `k` and
        its successor `pos`. */
    static method SpliceIn(node: Node<T>, pos: Node<T>, ghost ring: seq<Node<T>>, ghost k: nat)
      requires NoRepeats(ring) && Linked(ring)
      requires k < |ring| && pos == ring[Succ(k, |ring|)] && node !in ring
      modifies node`next, node`prev, pos`prev, pos.prev`next
      ensures Linked(InsertAt(ring, k + 1, node))
    {
      hide NoRepeats;
      assert LinkAt(ring, k);
      node.next := pos;
      node.prev := pos.prev;
      node.next.prev := node;
      node.prev.next := node;
      ghost var ring' := InsertAt(ring, k + 1, node);
      forall i | 0 <= i < |ring'| ensures LinkAt(ring', i) {
        if i < k {
          assert old(LinkAt(ring, i));
          LinksApart(ring, i, k);
        } else if i > k + 1 {
          assert old(LinkAt(ring, i - 1));
          LinksApart(ring, i - 1, k);
        }
      }
    }

    /** `list_insert`: a new node right before `pos`, whatever the comment in
        the source says; no other node moves, keeps another value or dies. */
    method Insert(pos: Node<T>, v: T, ghost k: nat) returns (node: Node<T>)
      requires Valid()
      requires k <= |nodes| && pos == if k == |nodes| then head else nodes[k]
      modifies this`nodes, pos`prev, pos.prev`next
      ensures Valid() && fresh(node) && node.value == v
      ensures nodes == InsertAt(old(nodes), k, node)
    {
      hide NoRepeats, Linked;
      node := new Node(v);
      SpliceIn(node, pos, Ring(), k);
      InsertNoRepeats(Ring(), k + 1, node);
      assert [head] + InsertAt(nodes, k, node) == InsertAt(Ring(), k + 1, node);
      nodes := InsertAt(nodes, k, node);
    }

    /** The links of `list_erase`: `node`, at ring position `k`, is left out. */
    static method SpliceOut(node: Node<T>, ghost ring: seq<Node<T>>, ghost k: nat)
      requires NoRepeats(ring) && Linked(ring) && 0 < k < |ring| && node == ring[k]
      modifies node.prev`next, node.next`prev
      ensures Linked(RemoveAt(ring, k))
    {
      hide NoRepeats;
      assert LinkAt(ring, k) && LinkAt(ring, k - 1);
      node.prev.next := node.next;
      node.next.prev := node.prev;
      ghost var ring' := RemoveAt(ring, k);
      forall i | 0 <= i < |ring'| ensures LinkAt(ring', i) {
        var j := if i < k then i else i + 1;
        assert ring'[i] == ring[j];
        if i == k - 1 {
          assert ring'[Succ(i, |ring'|)] == ring[Succ(k, |ring|)];
        } else {
          assert ring'[Succ(i, |ring'|)] == ring[Succ(j, |ring|)];
          assert old(LinkAt(ring, j));
          LinksApart(ring, j, k);
          LinksApart(ring, j, k - 1);
        }
      }
    }

    /** `list_erase` */
    method Erase(it: Node<T>, ghost k: nat) returns (v: T)
      requires Valid() && k < |nodes| && nodes[k] == it
      modifies this`nodes, it.prev`next, it.next`prev
      ensures Valid() && v == it.value
      ensures nodes == RemoveAt(old(nodes), k)
    {
      hide NoRepeats, Linked;
      v := it.value;
      ghost var ring := Ring();
      SpliceOut(it, ring, k + 1);
      RemoveNoRepeats(ring, k + 1);
      assert [head] + RemoveAt(nodes, k) == RemoveAt(ring, k + 1);
      nodes := RemoveAt(nodes, k);
    }

    /** `list_insert` and then `list_erase` of the iterator it returned: every node,
        its place and its value are as before. */
    method InsertAndErase(pos: Node<T>, v: T, ghost k: nat) returns (w: T)
      requires Valid()
      requires k <= |nodes| && pos == if k == |nodes| then head else nodes[k]
      modifies this`nodes, pos`prev, pos.prev`next
      ensures Valid() && w == v
      ensures nodes == old(nodes) && Contents() == old(Contents())
    {
      hide Valid;
      Before(k);
      var node := Insert(pos, v, k);
      Neighbours(k);
      InsertThenRemove(old(nodes), k, node);
      assert forall i | 0 <= i < k :: nodes[i] == old(nodes)[i];
      assert k < |old(nodes)| ==> nodes[k + 1] == old(nodes)[k];
      w := Erase(node, k);
    }

    /** The node before an iterator, or before the sentinel. */
    lemma Before(k: nat)
      requires Valid() && k <= |nodes|
      ensures (if k == |nodes| then head else nodes[k]).prev == if k > 0 then nodes[k - 1] else head
    {
      Ends();
      if k < |nodes| {
        Neighbours(k);
      }
    }

    /** `list_push_back` */
    method PushBack(v: T) returns (it: Node<T>)
      requires Valid()
      modifies this`nodes, head`prev, head.prev`next
      ensures Valid() && fresh(it) && it.value == v
      ensures nodes == old(nodes) + [it]
    {
      hide Valid;
      Ends();
      it := Insert(head, v, |nodes|);
    }

    /** `list_push_front` */
    method PushFront(v: T) returns (it: Node<T>)
      requires Valid()
      modifies this`nodes, head`next, head.next`prev
      ensures Valid() && fresh(it) && it.value == v
      ensures nodes == [it] + old(nodes)
    {
      hide Valid;
      Ends();
      it := Insert(head.next, v, 0);
    }

    /** `list_front`; the source reads the sentinel of an empty list. */
    method Front() returns (v: T)
      requires Valid() && nodes != []
      ensures v == Contents()[0]
    {
      hide Valid;
      Ends();
      v := head.next.value;
    }

    /** `list_back` */
    method Back() returns (v: T)
      requires Valid() && nodes != []
      ensures v == Contents()[|nodes| - 1]
    {
      hide Valid;
      Ends();
      v := head.prev.value;
    }

    /** `list_pop_front` */
    method PopFront() returns (v: T)
      requires Valid() && nodes != []
      modifies this`nodes, head`next, nodes`prev, head`prev
      ensures Valid() && v == old(Contents())[0]
      ensures nodes == old(nodes)[1..] && Contents() == old(Contents())[1..]
    {
      hide Valid;
      Ends();
      v := Erase(head.next, 0);
    }

    /** `list_pop_back` */
    method PopBack() returns (v: T)
      requires Valid() && nodes != []
      modifies this`nodes, head`prev, nodes`next, head`next
      ensures Valid() && v == old(Contents())[|old(nodes)| - 1]
      ensures nodes == old(nodes)[..|old(nodes)| - 1] && Contents() == old(Contents())[..|old(nodes)| - 1]
    {
      hide Valid;
      Ends();
      v := Erase(head.prev, |nodes| - 1);
    }

    /** `list_clear`; `deleted` lists the values in the order the delete
        callback receives them. */
    method Clear() returns (deleted: seq<T>)
      requires Valid()
      modifies this`nodes, head`next, head`prev, nodes`prev
      ensures Valid() && nodes == []
      ensures deleted == old(Contents())
    {
      hide NoRepeats, Linked;
      deleted := [];
      var empty := IsEmpty();
      while !empty
        invariant Valid() && (empty <==> nodes == [])
        invariant |deleted| <= |old(nodes)| && nodes == old(nodes)[|deleted|..]
        invariant forall i | 0 <= i < |nodes| :: nodes[i] in old(nodes)
        invariant deleted == old(Contents())[..|deleted|]
        decreases |nodes|
      {
        var v := PopFront();
        deleted := deleted + [v];
        empty := IsEmpty();
      }
    }

    /** `list_find`: the first node whose value the callback accepts, or the end. */
    method Find(accepts: T -> bool) returns (it: Node<T>)
      requires Valid()
      ensures it == head || it in nodes
      ensures it in nodes ==>
                it != head && accepts(it.value) && forall i | 0 <= i < Position(nodes, it) :: !accepts(nodes[i].value)
      ensures it == head ==> forall n | n in nodes :: !accepts(n.value)
    {
      HeadApart();
      it := Begin();
      ghost var k := 0;
      while it != head
        invariant 0 <= k <= |nodes| && it == if k < |nodes| then nodes[k] else head
        invariant forall i | 0 <= i < k :: !accepts(nodes[i].value)
        decreases |nodes| - k
      {
        PositionIs(nodes, k);
        if accepts(it.value) {
          return;
        }
        it := Next(it, k);
        k := k + 1;
      }
    }

    /** `list_size` */
    method Size() returns (size: nat)
      requires Valid()
      ensures size == |nodes|
    {
      HeadApart();
      size := 0;
      var it := Begin();
      while it != head
        invariant size <= |nodes| && it == if size < |nodes| then nodes[size] else head
        decreases |nodes| - size
      {
        it := Next(it, size);
        size := size + 1;
      }
    }
  }
}
