/** The circular doubly linked lists of lib/list.h.

    A node carries its links and, for `list_entry`, the entry it is embedded in. A ring is the
    sequence of nodes met by following `next`; a node that is on no list is a ring by itself.
 */
module IntrusiveList {

  class ListHead<T> {
    var next: ListHead<T>
    var prev: ListHead<T>
    const entry: T

    // INIT_LIST_HEAD
    constructor (entry: T)
      ensures next == this && prev == this && this.entry == entry
    {
      this.entry := entry;
      next, prev := this, this;
    }
  }

  ghost predicate Distinct<A>(s: seq<A>)
  {
    forall i, j :: 0 <= i < j < |s| ==> s[i] != s[j]
  }

  ghost predicate Ring<T>(r: seq<ListHead<T>>)
    reads r
  {
    && |r| > 0 && Distinct(r)
    && (forall i {:trigger r[i].next} :: 0 <= i < |r| - 1 ==> r[i].next == r[i + 1])
    && (forall i {:trigger r[i].prev} :: 0 < i < |r| ==> r[i].prev == r[i - 1])
    && r[|r| - 1].next == r[0] && r[0].prev == r[|r| - 1]
  }

  lemma Neighbours<T>(r: seq<ListHead<T>>, i: nat)
    requires Ring(r) && i < |r|
    ensures r[i].next in r && r[i].prev in r
    ensures r[i].next == (if i + 1 < |r| then r[i + 1] else r[0])
    ensures r[i].prev == (if i > 0 then r[i - 1] else r[|r| - 1])
  {
  }

  function Without<A>(s: seq<A>, i: nat): seq<A>
    requires i < |s|
  {
    s[..i] + s[i + 1..]
  }

  method ListAdd<T>(node: ListHead<T>, prev: ListHead<T>, next: ListHead<T>)
    requires node != prev && node != next
    modifies node, prev, next
    ensures prev.next == node && next.prev == node && node.next == next && node.prev == prev
    ensures prev != next ==> prev.prev == old(prev.prev) && next.next == old(next.next)
  {
    next.prev := node;
    node.next := next;
    node.prev := prev;
    prev.next := node;
  }

  // list_add_tail: before the head, that is, at the end of the ring that starts with the head.
  method ListAddTail<T>(node: ListHead<T>, head: ListHead<T>, ghost r: seq<ListHead<T>>)
    requires Ring(r) && r[0] == head && node !in r
    modifies node, head, head.prev
    ensures Ring(r + [node])
  {
    ListAdd(node, head.prev, head);
  }

  // list_add_head: just after the head.
  method ListAddHead<T>(node: ListHead<T>, head: ListHead<T>, ghost r: seq<ListHead<T>>)
    requires Ring(r) && r[0] == head && node !in r
    modifies node, head, head.next
    ensures Ring([head, node] + r[1..])
  {
    ListAdd(node, head, head.next);
  }

  // list_del_init: the node becomes a ring by itself, the rest closes up.
  method ListDelInit<T>(node: ListHead<T>, ghost r: seq<ListHead<T>>, ghost i: nat)
    requires Ring(r) && i < |r| && r[i] == node
    modifies node, node.prev, node.next
    ensures Ring([node])
    ensures |r| > 1 ==> Ring(Without(r, i))
  {
    node.next.prev := node.prev;
    node.prev.next := node.next;
    node.next := node;
    node.prev := node;
  }
}
