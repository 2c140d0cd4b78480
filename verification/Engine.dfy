/** The connection engine of network/vfs_so.c as one sequential actor: the pending lists of the
    send and the receive side and everything that moves a connection between them, proved against
    the functions of EngineSpec.
 */
module Engine {
  import opened IntrusiveList
  import opened ListPair
  import opened SendPath
  import opened EngineSpec

  // A connection is pending only if it has been handed to do_send (do_recv).
  ghost predicate Asked(q: seq<nat>, t: seq<nat>, calls: seq<int>)
  {
    && (forall x :: x in q ==> x as int in calls)
    && (forall x :: x in t ==> x as int in calls)
  }

  lemma AskedDrop(q: seq<nat>, t: seq<nat>, calls: seq<int>, fd: nat, flag: bool)
    requires Asked(q, t, calls)
    ensures Asked(Drop(q, fd), Drop(t, fd), calls)
    ensures Asked(Drop(q, fd) + (if flag then [] else [fd]), Drop(t, fd) + (if flag then [fd] else []), calls + [fd])
  {
    hide Drop;
    DropOnly(q, fd);
    DropOnly(t, fd);
  }

  lemma AskedMore(q: seq<nat>, t: seq<nat>, calls: seq<int>, fd: int)
    requires Asked(q, t, calls)
    ensures Asked(q, t, calls + [fd])
  {
  }

  lemma DistinctBoth(q: seq<nat>, t: seq<nat>)
    requires Distinct(q) && Distinct(t) && forall x :: x in q ==> x !in t
    ensures Distinct(q + t)
  {
    assert forall i :: 0 <= i < |q| ==> q[i] in q;
    assert forall i :: 0 <= i < |t| ==> t[i] in t;
  }

  // add_to_pend: off whatever list the connection is on, to the end of the chosen one.
  method AddToPend(p: ListPair, fd: nat, toTmp: bool)
    requires p.Valid() && fd < |p.nodes|
    modifies p`q, p`t, p.home, p.side, p.nodes
    ensures p.Valid()
    ensures p.q == Drop(old(p.q), fd) + (if toTmp then [] else [fd])
    ensures p.t == Drop(old(p.t), fd) + (if toTmp then [fd] else [])
  {
    hide ListPair.Valid, Drop;
    p.Detach(fd);
    if toTmp {
      p.AppendSide(fd);
    } else {
      p.AppendHome(fd);
    }
  }

  // In each pair, home is send_list (recv_list) and side is tmp_send_list (tmp_recv_list).
  class Engine {
    const env: Env
    const fds: array<int>  // the fd field of each connection: its own index, or -1 while not open
    const send: ListPair
    const recv: ListPair

    var sendCalls: seq<int>  // the arguments of the do_send calls so far
    var recvCalls: seq<int>
    var callbacks: nat       // how many there have been

    // Each connection's two nodes are well placed, the two sides share nothing, and a connection
    // is pending only if it has been handed to do_send (do_recv).
    ghost predicate Valid()
      reads this, fds, send, send.home, send.side, send.nodes, recv, recv.home, recv.side, recv.nodes
    {
      && send.Valid() && recv.Valid()
      && |send.nodes| == fds.Length && |recv.nodes| == fds.Length
      && send != recv && Apart()
      && (forall i :: 0 <= i < fds.Length ==> fds[i] == i || fds[i] == -1)
      && Asked(send.q, send.t, sendCalls) && Asked(recv.q, recv.t, recvCalls)
    }

    ghost predicate Apart()
    {
      && send.home != recv.home && send.home != recv.side && send.side != recv.home && send.side != recv.side
      && (forall i, j :: 0 <= i < |send.nodes| && 0 <= j < |recv.nodes| ==> send.nodes[i] != recv.nodes[j])
      && (forall i :: 0 <= i < |send.nodes| ==> send.nodes[i] != recv.home && send.nodes[i] != recv.side)
      && (forall j :: 0 <= j < |recv.nodes| ==> recv.nodes[j] != send.home && recv.nodes[j] != send.side)
    }

    ghost function Open(): set<nat>
      reads fds
    {
      set i: nat | i < fds.Length && fds[i] == i
    }

    ghost function View(): State
      reads this, fds, send, recv
    {
      State(fds.Length, Open(), send.q, send.t, recv.q, recv.t, sendCalls, recvCalls, callbacks)
    }

    constructor (maxfds: nat, env: Env)
      ensures Valid() && View() == After(maxfds, [], env) && this.env == env
      ensures fresh(fds) && fresh(send) && fresh(send.home) && fresh(send.side)
      ensures fresh(recv) && fresh(recv.home) && fresh(recv.side)
      ensures forall i :: 0 <= i < |send.nodes| ==> fresh(send.nodes[i])
      ensures forall i :: 0 <= i < |recv.nodes| ==> fresh(recv.nodes[i])
    {
      hide ListPair.Valid, Valid;
      var s := new ListPair(maxfds);
      var r := new ListPair(maxfds);
      var a := new int[maxfds](_ => -1);
      fds, send, recv, sendCalls, recvCalls, callbacks, this.env := a, s, r, [], [], 0, env;
      new;
      AllClosed();
    }

    lemma AllClosed()
      requires send.Valid() && recv.Valid() && |send.nodes| == fds.Length && |recv.nodes| == fds.Length
      requires send.q == [] && send.t == [] && recv.q == [] && recv.t == []
      requires send != recv && Apart() && forall i :: 0 <= i < fds.Length ==> fds[i] == -1
      ensures Valid() && Open() == {}
    {
      hide Apart, ListPair.Valid;
    }

    lemma Parts()
      requires Valid()
      ensures send.Valid() && recv.Valid() && |send.nodes| == fds.Length && |recv.nodes| == fds.Length
      ensures send.Fds(send.q) && recv.Fds(recv.q)
    {
      hide Apart;
    }

    lemma Pending()
      requires Valid()
      ensures forall fd :: fd in send.q ==> fd !in send.t && fd as int in sendCalls
      ensures forall fd :: fd in recv.q ==> fd !in recv.t && fd as int in recvCalls
      ensures Distinct(send.q + send.t) && Distinct(recv.q + recv.t)
    {
      send.FrontOfHome();
      recv.FrontOfHome();
      DistinctBoth(send.q, send.t);
      DistinctBoth(recv.q, recv.t);
    }

    // A callback of the plug-in may close and open connections; it cannot reach the lists.
    method Callback()
      requires Valid()
      modifies fds, this`callbacks
      ensures Valid() && View() == AfterCallback(old(View()), env)
    {
      hide ListPair.Valid, Apart, Asked;
      var e := env.callback(callbacks);
      callbacks := callbacks + 1;
      for i := 0 to fds.Length
        invariant forall k :: 0 <= k < i ==>
                                fds[k] == if k in e.opens then k else if k in e.closes then -1 else old(fds[k])
        invariant forall k :: i <= k < fds.Length ==> fds[k] == old(fds[k])
        invariant callbacks == old(callbacks) + 1
      {
        if i in e.opens {
          fds[i] := i;
        } else if i in e.closes {
          fds[i] := -1;
        }
      }
      assert Open() == old(Open()) - e.closes + Below(e.opens, fds.Length);
    }

    method DoClose(fd: int)
      requires Valid()
      modifies fds, this`callbacks
      ensures Valid() && View() == Closing(old(View()), fd, env)
    {
      hide ListPair.Valid, Apart, Asked, AfterCallback;
      if 0 <= fd < fds.Length && fds[fd] >= 0 {
        Callback();
        ghost var before := Open();
        fds[fd] := -1;
        assert Open() == before - {fd};
      }
    }

    // do_send: a throttled connection is put back on a list, tmp while a scan is running. What the
    // transfer ends with is the verdict that SendPath describes.
    method DoSend(fd: int, flag: bool)
      requires Valid() && fd < fds.Length
      modifies fds, this`sendCalls, this`callbacks, send`q, send`t, send.home, send.side, send.nodes
      ensures Valid() && View() == Sending(old(View()), fd, flag, env)
    {
      hide ListPair.Valid, Drop, Asked, Closing, AfterCallback;
      if fd >= 0 { AskedDrop(send.q, send.t, sendCalls, fd, flag); }
      AskedMore(send.q, send.t, sendCalls, fd);
      var k := |sendCalls|;
      sendCalls := sendCalls + [fd];
      if fd < 0 || fds[fd] < 0 {
        return;
      }
      if env.sendThrottled(k) {
        AddToPend(send, fd, flag);
        return;
      }
      var ret := env.verdict(k);
      if ret == Close {
        DoClose(fd);
        return;
      }
      Callback();
      if ret == AddEpollIn && env.sendCloses(k) {
        DoClose(fd);
      }
    }

    // do_recv: the end of the stream or an error closes; otherwise the plug-in decides.
    method DoRecv(fd: int, flag: bool)
      requires Valid() && fd < fds.Length
      modifies fds, this`sendCalls, this`callbacks, send`q, send`t, send.home, send.side, send.nodes
      modifies this`recvCalls, recv`q, recv`t, recv.home, recv.side, recv.nodes
      ensures Valid() && View() == Receiving(old(View()), fd, flag, env)
    {
      hide ListPair.Valid, Drop, Asked, Closing, AfterCallback, Sending;
      if fd >= 0 { AskedDrop(recv.q, recv.t, recvCalls, fd, flag); }
      AskedMore(recv.q, recv.t, recvCalls, fd);
      var k := |recvCalls|;
      recvCalls := recvCalls + [fd];
      if fd < 0 || fds[fd] < 0 {
        return;
      }
      if env.recvThrottled(k) {
        AddToPend(recv, fd, flag);
        return;
      }
      if env.recvEnds(k) {
        DoClose(fd);
        return;
      }
      Callback();
      var answer := env.answer(k);
      if answer == RecvSend {
        DoSend(fd, false);
      } else if answer == RecvClose {
        DoClose(fd);
      }
    }

    // One turn of the loop over send_list.
    method ServeOneSend(pos: ListHead<nat>) returns (fd: nat)
      requires Valid() && send.q != [] && pos == send.NodeAt(send.home, send.q, 0)
      modifies fds, this`sendCalls, this`callbacks, send`q, send`t, send.home, send.side, send.nodes
      ensures Valid() && fd == old(send.q)[0] && send.q == old(send.q)[1..]
      ensures ServeSends(View(), env) == ServeSends(old(View()), env)
    {
      hide ListPair.Valid, Drop, Asked, Sending;
      send.FrontOfHome();
      fd := pos.entry;
      ghost var before, rest := View(), send.q[1..];
      DropFirst(send.q);
      DropAbsent(send.t, fd);
      DropAbsent(rest, fd);
      AskedDrop(send.q, send.t, sendCalls, fd, true);
      send.Detach(fd);
      assert fds[fd] == FdOf(before, fd);
      assert View() == before.(sq := rest);
      SendingInScan(View(), fds[fd], env, fd);
      DoSend(fds[fd], true);
    }

    // The loop over send_list: each connection on it at entry once, in order; those that are
    // throttled again go to tmp and are not served twice.
    method ServeSend() returns (served: seq<nat>)
      requires Valid()
      modifies fds, this`sendCalls, this`callbacks, send`q, send`t, send.home, send.side, send.nodes
      ensures Valid() && served == old(send.q)
      ensures View() == ServeSends(old(View()), env)
    {
      hide ListPair.Valid, ListPair.Fixed, ListPair.Fds, Distinct, Valid, View, ServeSends;
      Parts();
      served := [];
      send.FrontOfHome();
      var pos := send.home.next;
      var n := pos.next;
      while pos != send.home
        invariant Valid() && served + send.q == old(send.q)
        invariant ServeSends(View(), env) == ServeSends(old(View()), env)
        invariant pos == send.NodeAt(send.home, send.q, 0) && n == pos.next
        decreases |send.q|
      {
        Parts();
        send.FrontOfHome();
        var fd := ServeOneSend(pos);
        served := served + [fd];
        Parts();
        send.FrontOfHome();
        pos := n;
        n := n.next;
      }
      Parts();
      send.FrontOfHome();
      NothingToSend();
    }

    lemma NothingToSend()
      ensures send.q == [] ==> ServeSends(View(), env) == View()
      ensures recv.q == [] ==> ServeRecvs(View(), env) == View()
    {
    }

    // One turn of the loop over recv_list.
    method ServeOneRecv(pos: ListHead<nat>) returns (fd: nat)
      requires Valid() && recv.q != [] && pos == recv.NodeAt(recv.home, recv.q, 0)
      modifies fds, this`sendCalls, this`callbacks, send`q, send`t, send.home, send.side, send.nodes
      modifies this`recvCalls, recv`q, recv`t, recv.home, recv.side, recv.nodes
      ensures Valid() && fd == old(recv.q)[0] && recv.q == old(recv.q)[1..]
      ensures ServeRecvs(View(), env) == ServeRecvs(old(View()), env)
    {
      hide ListPair.Valid, Drop, Asked, Receiving;
      recv.FrontOfHome();
      fd := pos.entry;
      ghost var before, rest := View(), recv.q[1..];
      DropFirst(recv.q);
      DropAbsent(recv.t, fd);
      DropAbsent(rest, fd);
      AskedDrop(recv.q, recv.t, recvCalls, fd, true);
      recv.Detach(fd);
      assert fds[fd] == FdOf(before, fd);
      assert View() == before.(rq := rest);
      ReceivingInScan(View(), fds[fd], env, fd);
      DoRecv(fds[fd], true);
    }

    // The loop over recv_list, during which connections may also join send_list.
    method ServeRecv() returns (served: seq<nat>)
      requires Valid()
      modifies fds, this`sendCalls, this`callbacks, send`q, send`t, send.home, send.side, send.nodes
      modifies this`recvCalls, recv`q, recv`t, recv.home, recv.side, recv.nodes
      ensures Valid() && served == old(recv.q)
      ensures View() == ServeRecvs(old(View()), env)
    {
      hide ListPair.Valid, ListPair.Fixed, ListPair.Fds, Distinct, Valid, View, ServeRecvs;
      Parts();
      served := [];
      recv.FrontOfHome();
      var pos := recv.home.next;
      var n := pos.next;
      while pos != recv.home
        invariant Valid() && served + recv.q == old(recv.q)
        invariant ServeRecvs(View(), env) == ServeRecvs(old(View()), env)
        invariant pos == recv.NodeAt(recv.home, recv.q, 0) && n == pos.next
        decreases |recv.q|
      {
        Parts();
        recv.FrontOfHome();
        var fd := ServeOneRecv(pos);
        served := served + [fd];
        Parts();
        recv.FrontOfHome();
        pos := n;
        n := n.next;
      }
      Parts();
      recv.FrontOfHome();
      NothingToSend();
    }

    // scan_pend_list: it ends, and calls do_send once for each connection that the send lists held
    // at entry, home before tmp, and then do_recv once for each that the recv lists held. One that is
    // open and that no callback closes gets its call.
    method ScanPendList()
      returns (sent: seq<nat>, received: seq<nat>, ghost sendings: seq<int>, ghost recvings: seq<int>)
      requires Valid()
      modifies fds, this`sendCalls, this`callbacks, send`q, send`t, send.home, send.side, send.nodes
      modifies this`recvCalls, recv`q, recv`t, recv.home, recv.side, recv.nodes
      ensures Valid() && View() == Scan(old(View()), env)
      ensures sent == old(send.q) + old(send.t) && received == old(recv.q) + old(recv.t)
      ensures old(sendCalls) + sendings <= sendCalls && Called(sendings, sent)
      ensures recvCalls == old(recvCalls) + recvings && Called(recvings, received)
      ensures OpenOnesCalled(sendings, sent, old(Open()), env)
      ensures Within(send.q, received) && Within(send.t, sent)
      ensures recv.q == [] && Within(recv.t, received)
    {
      hide ListPair.Valid, Asked, Called, OpenOnesCalled, Within, ServeSends, ServeRecvs;
      Pending();
      sendings, recvings := ScanCalls(View(), env);
      StillAsked(send.q, send.t, sendCalls);
      send.MoveSideToHome();
      sent := ServeSend();
      StillAsked(recv.q, recv.t, recvCalls);
      recv.MoveSideToHome();
      received := ServeRecv();
    }

    lemma StillAsked(q: seq<nat>, t: seq<nat>, calls: seq<int>)
      requires Asked(q, t, calls)
      ensures Asked(q + t, [], calls)
    {
    }

    // An epoll event outside the scan.
    method DoProcess(fd: nat, readable: bool, writable: bool)
      requires Valid() && fd < fds.Length
      modifies fds, this`sendCalls, this`callbacks, send`q, send`t, send.home, send.side, send.nodes
      modifies this`recvCalls, recv`q, recv`t, recv.home, recv.side, recv.nodes
      ensures Valid() && View() == Poll(old(View()), fd, readable, writable, env)
    {
      hide Valid, Sending, Receiving, Closing;
      if !readable && !writable {
        DoClose(fd);
        return;
      }
      if readable {
        DoRecv(fd, false);
      }
      if writable {
        DoSend(fd, false);
      }
    }

    // A new connection on a slot; what is left of an earlier one on the lists stays there.
    method Accept(fd: nat)
      requires Valid() && fd < fds.Length
      modifies fds
      ensures Valid() && View() == Next(old(View()), Accepted(fd), env)
    {
      hide ListPair.Valid, Apart, Asked;
      fds[fd] := fd;
      assert Open() == old(Open()) + {fd};
    }
  }

  /* ---------- whole runs ---------- */

  // From the start on, whatever is accepted, polled and scanned in whatever order and whatever the
  // environment does, the engine is where the functions say: its lists hold the same connections in
  // the same order, and it has made the same calls. Every node is on at most one list of its side,
  // all rings are well formed, and a connection is pending only if it has been handed to do_send
  // (do_recv) before.
  method Run(maxfds: nat, happenings: seq<Happening>, env: Env) returns (e: Engine)
    requires forall i :: 0 <= i < |happenings| && !happenings[i].Scanned? ==> happenings[i].fd < maxfds
    ensures e.Valid() && e.View() == After(maxfds, happenings, env)
    ensures forall fd :: fd in e.send.q ==> fd !in e.send.t && fd as int in e.sendCalls
    ensures forall fd :: fd in e.recv.q ==> fd !in e.recv.t && fd as int in e.recvCalls
  {
    hide Engine.Valid, Poll, Scan;
    e := new Engine(maxfds, env);
    for i := 0 to |happenings|
      invariant fresh(e) && fresh(e.fds) && fresh(e.send) && fresh(e.send.home) && fresh(e.send.side)
      invariant fresh(e.recv) && fresh(e.recv.home) && fresh(e.recv.side)
      invariant forall k :: 0 <= k < |e.send.nodes| ==> fresh(e.send.nodes[k])
      invariant forall k :: 0 <= k < |e.recv.nodes| ==> fresh(e.recv.nodes[k])
      invariant e.Valid() && e.env == env && e.View() == After(maxfds, happenings[..i], env)
    {
      assert happenings[..i + 1][..i] == happenings[..i];
      match happenings[i] {
        case Accepted(fd) =>
          e.Accept(fd);
        case Polled(fd, readable, writable) =>
          e.DoProcess(fd, readable, writable);
        case Scanned =>
          var sent, received, sendings, recvings := e.ScanPendList();
      }
    }
    assert happenings[..|happenings|] == happenings;
    e.Pending();
  }
}
