/** Two intrusive lists over one pool of nodes, `home` and `side`: a node is on one of them or on
    neither. The pending lists of network/vfs_so.c (send_list and tmp_send_list, recv_list and
    tmp_recv_list) and the timer lists of network/vfs_timer.c are such pairs.
 */
module ListPair {
  import opened IntrusiveList

  // s without x.
  function Drop(s: seq<nat>, x: nat): (r: seq<nat>)
    ensures |r| <= |s|
  {
    if s == [] then [] else if s[0] == x then s[1..] else [s[0]] + Drop(s[1..], x)
  }

  lemma {:induction false} DropAbsent(s: seq<nat>, x: nat)
    requires x !in s
    ensures Drop(s, x) == s
  {
    if s != [] { DropAbsent(s[1..], x); }
  }

  lemma {:induction false} DropOnly(s: seq<nat>, x: nat)
    ensures forall y :: y in Drop(s, x) ==> y in s
  {
    if s != [] && s[0] != x { DropOnly(s[1..], x); }
  }

  lemma DropFirst(s: seq<nat>)
    requires s != []
    ensures Drop(s, s[0]) == s[1..]
  {
  }

  lemma {:induction false} DropAt(s: seq<nat>, i: nat)
    requires i < |s| && Distinct(s)
    ensures Drop(s, s[i]) == Without(s, i)
  {
    if i > 0 {
      DropAt(s[1..], i - 1);
      assert s[1..][i - 1] == s[i];
      assert [s[0]] + Without(s[1..], i - 1) == Without(s, i);
    }
  }

  lemma {:induction false} DropKeeps(s: seq<nat>, x: nat)
    ensures forall y :: y != x ==> (y in Drop(s, x) <==> y in s)
  {
    if s != [] && s[0] != x { DropKeeps(s[1..], x); }
  }

  class ListPair {
    const home: ListHead<nat>
    const side: ListHead<nat>
    const nodes: seq<ListHead<nat>>  // nodes[i] is embedded in entry i

    ghost var q: seq<nat>  // the entries on home, in order
    ghost var t: seq<nat>  // the entries on side

    ghost predicate Fixed()
    {
      && home != side && home !in nodes && side !in nodes && Distinct(nodes)
      && forall fd :: 0 <= fd < |nodes| ==> nodes[fd].entry == fd
    }

    ghost predicate Fds(s: seq<nat>)
    {
      Distinct(s) && forall i :: 0 <= i < |s| ==> s[i] < |nodes|
    }

    ghost function RingOf(head: ListHead<nat>, s: seq<nat>): (r: seq<ListHead<nat>>)
      requires Fds(s)
      ensures |r| == |s| + 1
    {
      [head] + seq(|s|, i requires 0 <= i < |s| => nodes[s[i]])
    }

    ghost predicate Valid()
      reads this, home, side, nodes
    {
      && Fixed() && Fds(q) && Fds(t)
      && (forall fd :: fd in q ==> fd !in t)
      && Ring(RingOf(home, q)) && Ring(RingOf(side, t))
      && (forall fd :: 0 <= fd < |nodes| && fd !in q && fd !in t ==> Ring([nodes[fd]]))
    }

    constructor (n: nat)
      ensures Valid() && |nodes| == n && q == [] && t == []
      ensures fresh(home) && fresh(side) && forall i :: 0 <= i < |nodes| ==> fresh(nodes[i])
    {
      var all: seq<ListHead<nat>> := [];
      for fd := 0 to n
        invariant |all| == fd && Distinct(all)
        invariant forall k :: 0 <= k < fd ==> fresh(all[k])
        invariant forall k :: 0 <= k < fd ==> all[k].entry == k
        invariant forall k :: 0 <= k < fd ==> all[k].next == all[k] && all[k].prev == all[k]
      {
        var node := new ListHead<nat>(fd);
        all := all + [node];
      }
      home := new ListHead<nat>(n);
      side := new ListHead<nat>(n);
      nodes := all;
      q, t := [], [];
    }

    // Nodes of one ring are on no other ring.
    lemma Apart(head: ListHead<nat>, s: seq<nat>, other: ListHead<nat>, u: seq<nat>)
      requires Fixed() && Fds(s) && Fds(u) && forall fd :: fd in s ==> fd !in u
      requires head != other && head !in nodes && other !in nodes
      ensures forall i :: 0 <= i < |RingOf(other, u)| ==> RingOf(other, u)[i] !in RingOf(head, s)
      ensures forall i :: 0 <= i < |RingOf(other, u)| ==> RingOf(other, u)[i] == other || RingOf(other, u)[i] in nodes
      ensures forall x, fd :: x in RingOf(head, s) && 0 <= fd < |nodes| && fd !in s ==> x != nodes[fd]
      ensures forall x :: x in RingOf(head, s) ==> x == head || x in nodes
    {
      var r, r' := RingOf(head, s), RingOf(other, u);
      forall i, j | 0 <= i < |r| && 0 <= j < |r'| ensures r[i] != r'[j] {
        if 0 < i && 0 < j {
          assert s[i - 1] in s && u[j - 1] in u;
        }
      }
    }

    lemma RingAt(head: ListHead<nat>, s: seq<nat>, k: nat)
      requires Fds(s) && k < |s|
      ensures RingOf(head, s)[k + 1] == nodes[s[k]] && nodes[s[k]] in RingOf(head, s)
    {
    }

    lemma RingWithout(head: ListHead<nat>, s: seq<nat>, k: nat)
      requires Fds(s) && k < |s|
      ensures Fds(Without(s, k))
      ensures RingOf(head, Without(s, k)) == Without(RingOf(head, s), k + 1)
    {
    }

    lemma Elsewhere(head: ListHead<nat>, s: seq<nat>, fd: nat)
      requires Fixed() && Fds(s) && fd < |nodes| && fd !in s && head !in nodes
      ensures nodes[fd] !in RingOf(head, s)
      ensures forall i :: 0 <= i < |RingOf(head, s)| ==> RingOf(head, s)[i] != nodes[fd]
      ensures forall i :: 0 <= i < |RingOf(head, s)| ==> RingOf(head, s)[i] == head || RingOf(head, s)[i] in nodes
    {
    }

    lemma {:induction false} DropFds(s: seq<nat>, x: nat)
      requires Fds(s)
      ensures Fds(Drop(s, x)) && x !in Drop(s, x)
    {
      if x in s {
        var k :| 0 <= k < |s| && s[k] == x;
        DropAt(s, k);
      } else {
        DropAbsent(s, x);
      }
    }

    // How list s at head fares when the i-th node of ring r, the node of fd, is taken out of r.
    ghost predicate Fares(head: ListHead<nat>, s: seq<nat>, fd: nat, r: seq<ListHead<nat>>, i: nat)
      requires Fds(s)
    {
      && Fds(Drop(s, fd)) && fd !in Drop(s, fd)
      && if fd in s
         then i < |r| && |r| > 1 && Without(r, i) == RingOf(head, Drop(s, fd))
         else Drop(s, fd) == s && forall k :: 0 <= k < |RingOf(head, s)| ==>
                RingOf(head, s)[k] !in r && (RingOf(head, s)[k] == head || RingOf(head, s)[k] in nodes)
    }

    lemma FaresOwn(head: ListHead<nat>, s: seq<nat>, k: nat)
      requires Fixed() && Fds(s) && k < |s|
      ensures Fares(head, s, s[k], RingOf(head, s), k + 1)
    {
      hide RingOf;
      DropAt(s, k);
      RingWithout(head, s, k);
    }

    lemma FaresOther(head: ListHead<nat>, s: seq<nat>, fd: nat, head': ListHead<nat>, s': seq<nat>, i: nat)
      requires Fixed() && Fds(s) && Fds(s') && fd !in s && (forall x :: x in s' ==> x !in s)
      requires head != head' && head !in nodes && head' !in nodes
      ensures Fares(head, s, fd, RingOf(head', s'), i)
    {
      hide RingOf;
      DropAbsent(s, fd);
      Apart(head', s', head, s);
    }

    lemma FaresWithoutLoose(head: ListHead<nat>, s: seq<nat>, fd: nat)
      requires Fixed() && Fds(s) && fd < |nodes| && fd !in s && head !in nodes
      ensures Fares(head, s, fd, [nodes[fd]], 0)
    {
      hide RingOf;
      DropAbsent(s, fd);
      Elsewhere(head, s, fd);
    }

    // The ring of the node of fd.
    lemma Whereabouts(fd: nat) returns (r: seq<ListHead<nat>>, i: nat)
      requires Valid() && fd < |nodes|
      ensures Ring(r) && i < |r| && r[i] == nodes[fd]
      ensures forall x :: x in r ==> x == home || x == side || x in nodes
      ensures Fares(home, q, fd, r, i) && Fares(side, t, fd, r, i)
      ensures forall k :: 0 <= k < |nodes| && k != fd && k !in q && k !in t ==> nodes[k] !in r
    {
      hide Ring, RingOf, Fares;
      if fd in q {
        var k :| 0 <= k < |q| && q[k] == fd;
        r, i := RingOf(home, q), k + 1;
        RingAt(home, q, k);
        FaresOwn(home, q, k);
        FaresOther(side, t, fd, home, q, i);
        Apart(home, q, side, t);
      } else if fd in t {
        var k :| 0 <= k < |t| && t[k] == fd;
        r, i := RingOf(side, t), k + 1;
        RingAt(side, t, k);
        FaresOwn(side, t, k);
        FaresOther(home, q, fd, side, t, i);
        Apart(side, t, home, q);
      } else {
        r, i := [nodes[fd]], 0;
        FaresWithoutLoose(home, q, fd);
        FaresWithoutLoose(side, t, fd);
      }
    }

    // list_del_init on the node of fd, wherever it is.
    method Detach(fd: nat)
      requires Valid() && fd < |nodes|
      modifies this`q, this`t, home, side, nodes
      ensures Valid() && q == Drop(old(q), fd) && t == Drop(old(t), fd)
      ensures fd !in q && fd !in t
    {
      hide Ring, RingOf, Without, Drop, Fds;
      ghost var r, i := Whereabouts(fd);
      Neighbours(r, i);
      DropKeeps(q, fd);
      DropKeeps(t, fd);
      DropFds(q, fd);
      DropFds(t, fd);
      ListDelInit(nodes[fd], r, i);
      q, t := Drop(q, fd), Drop(t, fd);
    }

    method AppendHome(fd: nat)
      requires Valid() && fd < |nodes| && fd !in q && fd !in t
      modifies this`q, home, side, nodes
      ensures Valid() && q == old(q) + [fd]
    {
      hide Ring, RingOf;
      Elsewhere(home, q, fd);
      Elsewhere(side, t, fd);
      Apart(home, q, side, t);
      Neighbours(RingOf(home, q), 0);
      RingGrows(home, q, fd);
      ListAddTail(nodes[fd], home, RingOf(home, q));
      q := q + [fd];
    }

    lemma RingGrows(head: ListHead<nat>, s: seq<nat>, fd: nat)
      requires Fds(s) && fd < |nodes| && fd !in s
      ensures Fds(s + [fd]) && RingOf(head, s + [fd]) == RingOf(head, s) + [nodes[fd]]
      ensures RingOf(head, s)[0] == head && head in RingOf(head, s)
    {
    }

    method AppendSide(fd: nat)
      requires Valid() && fd < |nodes| && fd !in q && fd !in t
      modifies this`t, home, side, nodes
      ensures Valid() && t == old(t) + [fd]
    {
      hide Ring, RingOf;
      Elsewhere(home, q, fd);
      Elsewhere(side, t, fd);
      Apart(side, t, home, q);
      Neighbours(RingOf(side, t), 0);
      RingGrows(side, t, fd);
      ListAddTail(nodes[fd], side, RingOf(side, t));
      t := t + [fd];
    }

    method PrependHome(fd: nat)
      requires Valid() && fd < |nodes| && fd !in q && fd !in t
      modifies this`q, home, side, nodes
      ensures Valid() && q == [fd] + old(q)
    {
      hide Ring, RingOf;
      Elsewhere(home, q, fd);
      Elsewhere(side, t, fd);
      Apart(home, q, side, t);
      Neighbours(RingOf(home, q), 0);
      RingGrowsFront(home, q, fd);
      ListAddHead(nodes[fd], home, RingOf(home, q));
      q := [fd] + q;
    }

    method PrependSide(fd: nat)
      requires Valid() && fd < |nodes| && fd !in q && fd !in t
      modifies this`t, home, side, nodes
      ensures Valid() && t == [fd] + old(t)
    {
      hide Ring, RingOf;
      Elsewhere(home, q, fd);
      Elsewhere(side, t, fd);
      Apart(side, t, home, q);
      Neighbours(RingOf(side, t), 0);
      RingGrowsFront(side, t, fd);
      ListAddHead(nodes[fd], side, RingOf(side, t));
      t := [fd] + t;
    }

    lemma RingGrowsFront(head: ListHead<nat>, s: seq<nat>, fd: nat)
      requires Fds(s) && fd < |nodes| && fd !in s
      ensures Fds([fd] + s) && RingOf(head, [fd] + s) == [head, nodes[fd]] + RingOf(head, s)[1..]
      ensures RingOf(head, s)[0] == head && head in RingOf(head, s)
    {
    }

    // What the iteration macros read: the node after the i-th of a list.
    lemma NextOnSide(i: nat)
      requires Valid() && i < |t|
      ensures t[i] < |nodes| && nodes[t[i]].next == NodeAt(side, t, i + 1)
    {
      assert RingOf(side, t)[i + 1] == nodes[t[i]];
      Neighbours(RingOf(side, t), i + 1);
    }

    // What the iteration macros read at the front of a list.
    lemma Front(head: ListHead<nat>, s: seq<nat>)
      requires Fds(s) && Ring(RingOf(head, s))
      ensures head.next == if s == [] then head else nodes[s[0]]
      ensures s != [] ==> nodes[s[0]].next == if |s| == 1 then head else nodes[s[1]]
    {
    }

    // Everything on side moves to the end of home, in order, as the first loops of scan_pend_list do.
    method MoveSideToHome()
      requires Valid()
      modifies this`q, this`t, home, side, nodes
      ensures Valid() && q == old(q) + old(t) && t == []
    {
      hide Valid, Ring, RingOf;
      ghost var k := 0;
      FrontOfSide();
      var pos := side.next;
      var n := pos.next;
      while pos != side
        invariant Valid() && k <= |old(t)|
        invariant q == old(q) + old(t)[..k] && t == old(t)[k..]
        invariant pos == NodeAt(side, t, 0) && n == pos.next
        decreases |old(t)| - k
      {
        FrontOfSide();
        var fd := pos.entry;
        DropAbsent(q, fd);
        Detach(fd);
        AppendHome(fd);
        k := k + 1;
        FrontOfSide();
        pos := n;
        n := n.next;
      }
    }

    ghost function NodeAt(head: ListHead<nat>, s: seq<nat>, i: nat): ListHead<nat>
    {
      if i < |s| && s[i] < |nodes| then nodes[s[i]] else head
    }

    lemma FrontOfSide()
      requires Valid()
      ensures Fixed() && Fds(q) && Fds(t) && forall fd :: fd in q ==> fd !in t
      ensures side.next == NodeAt(side, t, 0)
      ensures t != [] ==> nodes[t[0]].next == NodeAt(side, t, 1)
    {
      hide Ring, RingOf;
      Front(side, t);
    }

    lemma FrontOfHome()
      requires Valid()
      ensures Fixed() && Fds(q) && Fds(t) && forall fd :: fd in q ==> fd !in t
      ensures home.next == NodeAt(home, q, 0)
      ensures NodeAt(home, q, 0) == home <==> q == []
      ensures q != [] ==> nodes[q[0]].next == NodeAt(home, q, 1)
    {
      hide Ring, RingOf;
      Front(home, q);
    }
  }
}
