/** What the connection engine of network/vfs_so.c does to its lists, as functions on sequences.

    Everything the engine cannot know is in an environment: the throttle's random numbers, how
    transfers end, what the plug-in answers, and which connections its callbacks close and open.
 */
module EngineSpec {
  import opened IntrusiveList
  import opened ListPair
  import opened SendPath

  // What the plug-in's svc_recv answers; the epoll answers change no list.
  datatype RecvAnswer = RecvSend | RecvEpoll | RecvClose

  // The connections that a callback closes and opens.
  datatype Effect = Effect(closes: set<nat>, opens: set<nat>)

  // Indexed by the number of callbacks, of do_send calls and of do_recv calls so far.
  datatype Env = Env(callback: nat -> Effect,
                     sendThrottled: nat -> bool, verdict: nat -> Verdict, sendCloses: nat -> bool,
                     recvThrottled: nat -> bool, recvEnds: nat -> bool, answer: nat -> RecvAnswer)

  // The open connections, send_list, tmp_send_list, recv_list, tmp_recv_list, and the arguments of
  // the do_send and do_recv calls so far.
  datatype State = State(slots: nat, open: set<nat>, sq: seq<nat>, st: seq<nat>, rq: seq<nat>, rt: seq<nat>,
                         sends: seq<int>, recvs: seq<int>, callbacks: nat)

  function Below(fds: set<nat>, slots: nat): set<nat>
  {
    set fd | fd in fds && fd < slots
  }

  function AfterCallback(s: State, env: Env): State
  {
    var e := env.callback(s.callbacks);
    s.(open := s.open - e.closes + Below(e.opens, s.slots), callbacks := s.callbacks + 1)
  }

  // do_close
  function Closing(s: State, fd: int, env: Env): State
  {
    if fd >= 0 && fd in s.open then
      var s' := AfterCallback(s, env);
      s'.(open := s'.open - {fd})
    else s
  }

  // do_send
  function Sending(s: State, fd: int, flag: bool, env: Env): (r: State)
    ensures r.slots == s.slots && r.rq == s.rq && r.rt == s.rt && r.recvs == s.recvs && r.sends == s.sends + [fd]
    ensures flag ==> |r.sq| <= |s.sq|
  {
    var k, s := |s.sends|, s.(sends := s.sends + [fd]);
    if fd < 0 || fd !in s.open then s
    else if env.sendThrottled(k) then
      s.(sq := Drop(s.sq, fd) + (if flag then [] else [fd]), st := Drop(s.st, fd) + (if flag then [fd] else []))
    else if env.verdict(k) == Close then Closing(s, fd, env)
    else
      var s := AfterCallback(s, env);
      if env.verdict(k) == AddEpollIn && env.sendCloses(k) then Closing(s, fd, env) else s
  }

  // do_recv
  function Receiving(s: State, fd: int, flag: bool, env: Env): (r: State)
    ensures r.slots == s.slots && r.recvs == s.recvs + [fd] && s.sends <= r.sends
    ensures flag ==> |r.rq| <= |s.rq|
  {
    var k, s := |s.recvs|, s.(recvs := s.recvs + [fd]);
    if fd < 0 || fd !in s.open then s
    else if env.recvThrottled(k) then
      s.(rq := Drop(s.rq, fd) + (if flag then [] else [fd]), rt := Drop(s.rt, fd) + (if flag then [fd] else []))
    else if env.recvEnds(k) then Closing(s, fd, env)
    else
      var s := AfterCallback(s, env);
      match env.answer(k)
      case RecvSend => Sending(s, fd, false, env)
      case RecvEpoll => s
      case RecvClose => Closing(s, fd, env)
  }

  // The fd field of a connection.
  function FdOf(s: State, fd: nat): int
  {
    if fd in s.open then fd else -1
  }

  // The loop over send_list.
  function ServeSends(s: State, env: Env): (r: State)
    ensures r.slots == s.slots && r.rq == s.rq && r.rt == s.rt && r.recvs == s.recvs
    decreases |s.sq|
  {
    if s.sq == [] then s
    else ServeSends(Sending(s.(sq := s.sq[1..]), FdOf(s, s.sq[0]), true, env), env)
  }

  // The loop over recv_list.
  function ServeRecvs(s: State, env: Env): (r: State)
    ensures r.slots == s.slots && s.sends <= r.sends
    decreases |s.rq|
  {
    if s.rq == [] then s
    else ServeRecvs(Receiving(s.(rq := s.rq[1..]), FdOf(s, s.rq[0]), true, env), env)
  }

  // scan_pend_list
  function Scan(s: State, env: Env): (r: State)
    ensures r.slots == s.slots
  {
    var s := ServeSends(s.(sq := s.sq + s.st, st := []), env);
    ServeRecvs(s.(rq := s.rq + s.rt, rt := []), env)
  }

  // do_process
  function Poll(s: State, fd: nat, readable: bool, writable: bool, env: Env): (r: State)
    ensures r.slots == s.slots
  {
    if !readable && !writable then Closing(s, fd, env)
    else
      var s := if readable then Receiving(s, fd, false, env) else s;
      if writable then Sending(s, fd, false, env) else s
  }

  datatype Happening = Accepted(fd: nat) | Polled(fd: nat, readable: bool, writable: bool) | Scanned

  function Next(s: State, h: Happening, env: Env): (r: State)
    ensures r.slots == s.slots
  {
    match h
    case Accepted(fd) => s.(open := s.open + {fd})
    case Polled(fd, readable, writable) => Poll(s, fd, readable, writable, env)
    case Scanned => Scan(s, env)
  }

  function After(slots: nat, happenings: seq<Happening>, env: Env): (r: State)
    ensures r.slots == slots
  {
    if happenings == [] then State(slots, {}, [], [], [], [], [], [], 0)
    else Next(After(slots, happenings[..|happenings| - 1], env), happenings[|happenings| - 1], env)
  }

  /* ---------- what one call does ---------- */

  // r is s without x.
  ghost predicate TakenOff(s: seq<nat>, x: nat, r: seq<nat>)
  {
    x !in r && (x !in s ==> r == s) && forall i :: 0 <= i < |s| && s[i] == x ==> r == s[..i] + s[i + 1..]
  }

  ghost predicate MovedToEnd(s: seq<nat>, x: nat, r: seq<nat>)
  {
    r != [] && r[|r| - 1] == x && TakenOff(s, x, r[..|r| - 1])
  }

  lemma DropTakesOff(s: seq<nat>, x: nat)
    requires Distinct(s)
    ensures TakenOff(s, x, Drop(s, x)) && MovedToEnd(s, x, Drop(s, x) + [x])
  {
    hide Drop;
    if x in s {
      var i :| 0 <= i < |s| && s[i] == x;
      DropAt(s, i);
    } else {
      DropAbsent(s, x);
    }
    assert (Drop(s, x) + [x])[..|Drop(s, x)|] == Drop(s, x);
  }

  // A throttled connection becomes the last of send_list, or of tmp_send_list during a scan, and is
  // on no other; nothing else changes.
  lemma ThrottledSend(s: State, fd: nat, flag: bool, env: Env)
    requires fd in s.open && env.sendThrottled(|s.sends|) && Distinct(s.sq) && Distinct(s.st)
    ensures var r := Sending(s, fd, flag, env);
            && (if flag then TakenOff(s.sq, fd, r.sq) && MovedToEnd(s.st, fd, r.st)
                else MovedToEnd(s.sq, fd, r.sq) && TakenOff(s.st, fd, r.st))
            && r == s.(sq := r.sq, st := r.st, sends := s.sends + [fd])
  {
    hide Drop, TakenOff, MovedToEnd;
    DropTakesOff(s.sq, fd);
    DropTakesOff(s.st, fd);
    assert Drop(s.sq, fd) + [] == Drop(s.sq, fd) && Drop(s.st, fd) + [] == Drop(s.st, fd);
  }

  lemma ThrottledRecv(s: State, fd: nat, flag: bool, env: Env)
    requires fd in s.open && env.recvThrottled(|s.recvs|) && Distinct(s.rq) && Distinct(s.rt)
    ensures var r := Receiving(s, fd, flag, env);
            && (if flag then TakenOff(s.rq, fd, r.rq) && MovedToEnd(s.rt, fd, r.rt)
                else MovedToEnd(s.rq, fd, r.rq) && TakenOff(s.rt, fd, r.rt))
            && r == s.(rq := r.rq, rt := r.rt, recvs := s.recvs + [fd])
  {
    hide Drop, TakenOff, MovedToEnd;
    DropTakesOff(s.rq, fd);
    DropTakesOff(s.rt, fd);
    assert Drop(s.rq, fd) + [] == Drop(s.rq, fd) && Drop(s.rt, fd) + [] == Drop(s.rt, fd);
  }

  // The n-th callback does not leave this connection closed.
  ghost predicate Spared(env: Env, n: nat, fd: nat)
  {
    fd in env.callback(n).opens || fd !in env.callback(n).closes
  }

  ghost predicate Quiet(env: Env)
  {
    forall n :: env.callback(n) == Effect({}, {})
  }

  // On a closed connection do_send does nothing. On an open one that is not throttled it changes no
  // list, and the connection stays open exactly if neither the transfer nor a callback closes it.
  lemma SendOutcome(s: State, fd: int, flag: bool, env: Env)
    ensures fd < 0 || fd !in s.open ==> Sending(s, fd, flag, env) == s.(sends := s.sends + [fd])
    ensures 0 <= fd < s.slots && fd in s.open && !env.sendThrottled(|s.sends|) ==>
      var r, k := Sending(s, fd, flag, env), |s.sends|;
      var ends := env.verdict(k) == Close || (env.verdict(k) == AddEpollIn && env.sendCloses(k));
      && r.sq == s.sq && r.st == s.st && r.callbacks > s.callbacks
      && (env.verdict(k) == Close ==> fd !in r.open)
      && (fd in r.open <==> !ends && Spared(env, s.callbacks, fd))
      && (Quiet(env) ==> r.open == if ends then s.open - {fd} else s.open)
  {
  }

  // The same for do_recv: the end of the stream, an error and the plug-in close, and do_send is
  // called exactly when the plug-in says so.
  lemma RecvOutcome(s: State, fd: int, flag: bool, env: Env)
    ensures fd < 0 || fd !in s.open ==> Receiving(s, fd, flag, env) == s.(recvs := s.recvs + [fd])
    ensures 0 <= fd < s.slots && fd in s.open && !env.recvThrottled(|s.recvs|) ==>
      var r, k := Receiving(s, fd, flag, env), |s.recvs|;
      var ends := env.recvEnds(k) || env.answer(k) == RecvClose;
      && r.rq == s.rq && r.rt == s.rt && r.callbacks > s.callbacks
      && (ends ==> fd !in r.open)
      && r.sends == s.sends + (if !env.recvEnds(k) && env.answer(k) == RecvSend then [fd] else [])
      && (r.sends == s.sends ==>
            && r.sq == s.sq && r.st == s.st
            && (fd in r.open <==> !ends && Spared(env, s.callbacks, fd))
            && (Quiet(env) ==> r.open == if ends then s.open - {fd} else s.open))
  {
    hide Sending;
    SendCallbacks(AfterCallback(s.(recvs := s.recvs + [fd]), env), fd, env);
  }

  lemma SendCallbacks(s: State, fd: int, env: Env)
    ensures Sending(s, fd, false, env).callbacks >= s.callbacks
  {
  }

  // An event without either bit closes the connection, without a transfer; the others are handed
  // to do_recv and then to do_send, as the bits say.
  lemma PollOutcome(s: State, fd: nat, readable: bool, writable: bool, env: Env)
    ensures var r := Poll(s, fd, readable, writable, env);
            && (!readable && !writable ==>
                  && fd !in r.open && r.sends == s.sends && r.recvs == s.recvs
                  && r.sq == s.sq && r.st == s.st && r.rq == s.rq && r.rt == s.rt
                  && (Quiet(env) ==> r.open == s.open - {fd}))
            && r.recvs == s.recvs + (if readable then [fd] else [])
            && (!readable ==> r.sends == s.sends + if writable then [fd] else [])
            && (writable ==> s.sends < r.sends && r.sends[|r.sends| - 1] == fd)
  {
    hide Sending, Receiving;
  }

  /* ---------- what a scan serves ---------- */

  // The connections of the calls, the first of which is the k-th, that were open and throttled.
  function Throttled(calls: seq<int>, k: nat, throttled: nat -> bool): seq<nat>
  {
    if calls == [] then []
    else (if calls[0] >= 0 && throttled(k) then [calls[0]] else []) + Throttled(calls[1..], k + 1, throttled)
  }

  lemma {:induction false} ThrottledAt(calls: seq<int>, k: nat, throttled: nat -> bool, i: nat)
    requires i < |calls| && calls[i] >= 0 && throttled(k + i)
    ensures calls[i] in Throttled(calls, k, throttled)
  {
    if i > 0 { ThrottledAt(calls[1..], k + 1, throttled, i - 1); }
  }

  // One call for each connection served, in order, with its own number, or with -1 if it is closed.
  ghost predicate Called(calls: seq<int>, served: seq<nat>)
  {
    |calls| == |served| && forall i :: 0 <= i < |served| ==> calls[i] == served[i] || calls[i] == -1
  }

  ghost predicate Within(a: seq<nat>, b: seq<nat>) { forall x :: x in a ==> x in b }

  // No callback closes this connection.
  ghost predicate NeverClosed(env: Env, fd: nat)
  {
    forall k: nat :: fd !in env.callback(k).closes
  }

  // Those that are open, and stay so unless they close themselves, get a call of their own.
  ghost predicate OpenOnesCalled(calls: seq<int>, served: seq<nat>, open: set<nat>, env: Env)
  {
    |calls| == |served| &&
    forall i :: 0 <= i < |served| && served[i] in open && NeverClosed(env, served[i]) ==> calls[i] == served[i]
  }

  lemma CallsCons(s: State, x: nat, calls: seq<int>, rest: seq<nat>, open: set<nat>, env: Env)
    requires Called(calls, rest) && OpenOnesCalled(calls, rest, open, env) && x !in rest
    requires forall y :: y in s.open && y != x && NeverClosed(env, y) ==> y in open
    ensures Called([FdOf(s, x)] + calls, [x] + rest)
    ensures OpenOnesCalled([FdOf(s, x)] + calls, [x] + rest, s.open, env)
  {
    hide NeverClosed;
    assert forall i :: 0 <= i < |rest| ==> rest[i] in rest;
  }

  // A list that is being served and the tmp list it fills.
  ghost predicate Lined(q: seq<nat>, t: seq<nat>)
  {
    Distinct(q) && Distinct(t) && forall x :: x in q ==> x !in t
  }

  lemma LinedStep(q: seq<nat>, t: seq<nat>, t': seq<nat>)
    requires Lined(q, t) && q != [] && (t' == t || t' == t + [q[0]])
    ensures Lined(q[1..], t') && q[0] !in q[1..] && q[0] !in t
    ensures forall r :: Within(r, t' + q[1..]) ==> Within(r, t + q)
  {
    assert q[0] in q;
    assert forall i :: 0 <= i < |t| ==> t[i] in t;
    assert q == [q[0]] + q[1..];
    assert forall x :: x in q[1..] ==> x in q;
  }

  lemma NothingCalled(t: seq<nat>, open: set<nat>, env: Env)
    ensures Called([], []) && OpenOnesCalled([], [], open, env) && Within(t, t + [])
  {
  }

  lemma WithinAll(a: seq<nat>, b: seq<nat>, c: seq<nat>)
    ensures Within(a, a) && (Within(a, b) && Within(b, c) ==> Within(a, c))
  {
  }

  // do_send during the scan leaves the rest of send_list alone, puts at most its own connection on
  // tmp_send_list, and closes no connection but its own and those that callbacks close.
  lemma SendingInScan(s: State, fd: int, env: Env, x: nat)
    requires fd < 0 || (fd == x && x in s.open && x !in s.sq && x !in s.st)
    ensures var r := Sending(s, fd, true, env);
            && r.sq == s.sq && r.st == s.st + (if fd >= 0 && env.sendThrottled(|s.sends|) then [x] else [])
            && forall y :: y in s.open && y != x && NeverClosed(env, y) ==> y in r.open
    ensures (forall k :: !env.sendThrottled(k)) ==> Sending(s, fd, true, env).st == s.st
  {
    if fd >= 0 {
      DropAbsent(s.sq, fd);
      DropAbsent(s.st, fd);
    }
  }

  lemma {:induction false} ServeSendsCalls(s: State, env: Env) returns (calls: seq<int>)
    requires Lined(s.sq, s.st)
    ensures var r := ServeSends(s, env);
            && r.sends == s.sends + calls && Called(calls, s.sq) && OpenOnesCalled(calls, s.sq, s.open, env)
            && r.sq == [] && Within(r.st, s.st + s.sq)
            && r.st == s.st + Throttled(calls, |s.sends|, env.sendThrottled)
            && (forall y :: y in s.open && y !in s.sq && NeverClosed(env, y) ==> y in r.open)
            && ((forall k :: !env.sendThrottled(k)) ==> r.st == s.st)
    decreases |s.sq|
  {
    hide Sending, Lined, Throttled, Called, OpenOnesCalled, Within, FdOf, NeverClosed;
    if s.sq == [] {
      calls := [];
      ThrottledCons(0, [], |s.sends|, env.sendThrottled);
      NothingCalled(s.st, s.open, env);
    } else {
      var x, rest, fd := s.sq[0], s.sq[1..], FdOf(s, s.sq[0]);
      LinedStep(s.sq, s.st, s.st);
      FdIs(s, x);
      SendingInScan(s.(sq := rest), fd, env, x);
      var s' := Sending(s.(sq := rest), fd, true, env);
      LinedStep(s.sq, s.st, s'.st);
      var more := ServeSendsCalls(s', env);
      calls := [fd] + more;
      ThrottledCons(fd, more, |s.sends|, env.sendThrottled);
      assert s.sq == [x] + rest;
      CallsCons(s, x, more, rest, s'.open, env);
    }
  }

  lemma ThrottledCons(fd: int, more: seq<int>, k: nat, throttled: nat -> bool)
    ensures Throttled([], k, throttled) == []
    ensures Throttled([fd] + more, k, throttled) ==
      (if fd >= 0 && throttled(k) then [fd] else []) + Throttled(more, k + 1, throttled)
  {
    assert ([fd] + more)[1..] == more;
  }

  lemma FdIs(s: State, fd: nat)
    ensures FdOf(s, fd) == (if fd in s.open then fd else -1)
  {
  }

  // do_recv during the scan leaves the rest of recv_list alone; its own connection may join
  // tmp_recv_list or send_list.
  lemma ReceivingInScan(s: State, fd: int, env: Env, x: nat)
    requires fd < 0 || (fd == x && x in s.open && x !in s.rq && x !in s.rt)
    ensures var r := Receiving(s, fd, true, env);
            && r.rq == s.rq && r.rt == s.rt + (if fd >= 0 && env.recvThrottled(|s.recvs|) then [x] else [])
            && Within(r.sq, s.sq + [x]) && Within(r.st, s.st) && Within(s.sq + s.st, r.sq + r.st)
            && (r.sends == s.sends ==> r.sq == s.sq && r.st == s.st)
            && forall y :: y in s.open && y != x && NeverClosed(env, y) ==> y in r.open
    ensures (forall k :: !env.recvThrottled(k)) ==> Receiving(s, fd, true, env).rt == s.rt
    ensures (forall k :: !env.sendThrottled(k)) ==>
              Receiving(s, fd, true, env).sq == s.sq && Receiving(s, fd, true, env).st == s.st
  {
    if fd >= 0 {
      DropAbsent(s.rq, fd);
      DropAbsent(s.rt, fd);
      DropOnly(s.sq, fd);
      DropOnly(s.st, fd);
      DropKeeps(s.sq, fd);
      DropKeeps(s.st, fd);
    }
  }

  lemma {:induction false} ServeRecvsCalls(s: State, env: Env) returns (calls: seq<int>)
    requires Lined(s.rq, s.rt)
    ensures var r := ServeRecvs(s, env);
            && r.recvs == s.recvs + calls && Called(calls, s.rq) && OpenOnesCalled(calls, s.rq, s.open, env)
            && r.rq == [] && Within(r.rt, s.rt + s.rq) && Within(r.sq, s.sq + s.rq) && Within(r.st, s.st)
            && r.rt == s.rt + Throttled(calls, |s.recvs|, env.recvThrottled)
            && Within(s.sq + s.st, r.sq + r.st) && (r.sends == s.sends ==> r.sq == s.sq && r.st == s.st)
            && ((forall k :: !env.recvThrottled(k)) ==> r.rt == s.rt)
            && ((forall k :: !env.sendThrottled(k)) ==> r.sq == s.sq && r.st == s.st)
    decreases |s.rq|
  {
    hide Receiving, Lined, Throttled, Called, OpenOnesCalled, Within, FdOf, NeverClosed;
    if s.rq == [] {
      calls := [];
      NothingCalled(s.rt, s.open, env);
      NothingCalled(s.sq, s.open, env);
      ThrottledCons(0, [], |s.recvs|, env.recvThrottled);
      WithinAll(s.st, s.st, s.st);
      WithinAll(s.sq + s.st, [], []);
    } else {
      var x, rest, fd := s.rq[0], s.rq[1..], FdOf(s, s.rq[0]);
      LinedStep(s.rq, s.rt, s.rt);
      FdIs(s, x);
      ReceivingInScan(s.(rq := rest), fd, env, x);
      var s' := Receiving(s.(rq := rest), fd, true, env);
      LinedStep(s.rq, s.rt, s'.rt);
      var more := ServeRecvsCalls(s', env);
      calls := [fd] + more;
      ThrottledCons(fd, more, |s.recvs|, env.recvThrottled);
      assert s.rq == [x] + rest;
      CallsCons(s, x, more, rest, s'.open, env);
      var r := ServeRecvs(s', env);
      WithinAll(r.st, s'.st, s.st);
      WithinSide(r.sq, s'.sq, s.sq, x, rest);
      WithinAll(s.sq + s.st, s'.sq + s'.st, r.sq + r.st);
    }
  }

  lemma WithinSide(a: seq<nat>, b: seq<nat>, c: seq<nat>, x: nat, rest: seq<nat>)
    requires Within(a, b + rest) && Within(b, c + [x])
    ensures Within(a, c + ([x] + rest))
  {
  }

  // A scan makes one do_send call for each connection that the send lists held, then one do_recv
  // call for each that the recv lists held; a connection that is open and that no callback closes
  // gets its call. Pending afterwards are the calls that were throttled, and nothing else that was
  // not served; tmp_recv_list holds exactly the throttled ones in the order of their calls, and so
  // does tmp_send_list if no do_recv went on to a do_send.
  lemma ScanCalls(s: State, env: Env) returns (sendings: seq<int>, recvings: seq<int>)
    requires Apart(s)
    ensures var r, sent, received := Scan(s, env), s.sq + s.st, s.rq + s.rt;
            && s.sends + sendings <= r.sends && Called(sendings, sent)
            && r.recvs == s.recvs + recvings && Called(recvings, received)
            && Within(r.sq, received) && Within(r.st, sent) && r.rq == [] && Within(r.rt, received)
            && OpenOnesCalled(sendings, sent, s.open, env)
            && OpenOnesCalled(recvings, received, Unserved(s.open, sent), env)
            && r.rt == Throttled(recvings, |s.recvs|, env.recvThrottled)
            && Within(Throttled(sendings, |s.sends|, env.sendThrottled), r.sq + r.st)
            && (r.sends == s.sends + sendings ==>
                  r.sq == [] && r.st == Throttled(sendings, |s.sends|, env.sendThrottled))
            && ((forall k :: !env.sendThrottled(k)) && (forall k :: !env.recvThrottled(k)) ==>
                  r.sq == [] && r.st == [] && r.rt == [])
  {
    hide ServeSends, ServeRecvs, Called, NeverClosed, Throttled;
    LinedAll(s.sq, s.st);
    LinedAll(s.rq, s.rt);
    hide Lined;
    var s1 := s.(sq := s.sq + s.st, st := []);
    sendings := ServeSendsCalls(s1, env);
    var s2 := ServeSends(s1, env);
    recvings := ServeRecvsCalls(s2.(rq := s2.rq + s2.rt, rt := []), env);
    assert s2.st == Throttled(sendings, |s.sends|, env.sendThrottled);
    assert [] + Throttled(recvings, |s.recvs|, env.recvThrottled) == Throttled(recvings, |s.recvs|, env.recvThrottled);
  }

  function Unserved(open: set<nat>, sent: seq<nat>): set<nat>
  {
    set fd | fd in open && fd !in sent
  }

  lemma LinedAll(q: seq<nat>, t: seq<nat>)
    requires Distinct(q + t)
    ensures Lined(q + t, [])
  {
  }

  /* ---------- no connection is pending twice ---------- */

  ghost predicate Apart(s: State)
  {
    Distinct(s.sq + s.st) && Distinct(s.rq + s.rt)
  }

  lemma DropApart(q: seq<nat>, t: seq<nat>, fd: nat)
    requires Distinct(q + t)
    ensures Distinct(Drop(q, fd) + Drop(t, fd) + [fd]) && Distinct(Drop(q, fd) + [fd] + Drop(t, fd))
  {
    hide Drop;
    LinedAll(q, t);
    DistinctParts(q, t);
    DropTakesOff(q, fd);
    DropTakesOff(t, fd);
    DropOnly(q, fd);
    DropOnly(t, fd);
    var q', t' := Drop(q, fd), Drop(t, fd);
    assert Distinct(q') by { if fd in q { var i :| 0 <= i < |q| && q[i] == fd; assert q' == q[..i] + q[i + 1..]; } }
    assert Distinct(t') by { if fd in t { var i :| 0 <= i < |t| && t[i] == fd; assert t' == t[..i] + t[i + 1..]; } }
    assert forall i :: 0 <= i < |q'| ==> q'[i] in q' && q'[i] !in t';
    assert forall i :: 0 <= i < |t'| ==> t'[i] in t';
  }

  lemma DistinctParts(q: seq<nat>, t: seq<nat>)
    requires Distinct(q + t)
    ensures Distinct(q) && Distinct(t) && forall x :: x in q ==> x !in t
  {
    assert forall i :: 0 <= i < |q| ==> (q + t)[i] == q[i];
    assert forall i :: 0 <= i < |t| ==> (q + t)[|q| + i] == t[i];
  }

  lemma ClosingApart(s: State, fd: int, env: Env)
    requires Apart(s)
    ensures Apart(Closing(s, fd, env)) && Apart(AfterCallback(s, env))
  {
  }

  lemma SendingApart(s: State, fd: int, flag: bool, env: Env)
    requires Apart(s)
    ensures Apart(Sending(s, fd, flag, env))
  {
    hide Drop;
    if fd >= 0 {
      DropApart(s.sq, s.st, fd);
      assert Drop(s.sq, fd) + (Drop(s.st, fd) + [fd]) == Drop(s.sq, fd) + Drop(s.st, fd) + [fd];
      assert Drop(s.sq, fd) + [] == Drop(s.sq, fd) && Drop(s.st, fd) + [] == Drop(s.st, fd);
    }
  }

  lemma ReceivingApart(s: State, fd: int, flag: bool, env: Env)
    requires Apart(s)
    ensures Apart(Receiving(s, fd, flag, env))
  {
    hide Drop, Sending;
    if fd >= 0 {
      DropApart(s.rq, s.rt, fd);
      assert Drop(s.rq, fd) + (Drop(s.rt, fd) + [fd]) == Drop(s.rq, fd) + Drop(s.rt, fd) + [fd];
      assert Drop(s.rq, fd) + [] == Drop(s.rq, fd) && Drop(s.rt, fd) + [] == Drop(s.rt, fd);
      SendingApart(AfterCallback(s.(recvs := s.recvs + [fd]), env), fd, false, env);
    }
  }

  lemma {:induction false} ServeSendsApart(s: State, env: Env)
    requires Apart(s)
    ensures Apart(ServeSends(s, env))
    decreases |s.sq|
  {
    hide Sending;
    if s.sq != [] {
      var s1 := s.(sq := s.sq[1..]);
      assert s1.sq + s1.st == (s.sq + s.st)[1..];
      SendingApart(s1, FdOf(s, s.sq[0]), true, env);
      ServeSendsApart(Sending(s1, FdOf(s, s.sq[0]), true, env), env);
    }
  }

  lemma {:induction false} ServeRecvsApart(s: State, env: Env)
    requires Apart(s)
    ensures Apart(ServeRecvs(s, env))
    decreases |s.rq|
  {
    hide Receiving;
    if s.rq != [] {
      var s1 := s.(rq := s.rq[1..]);
      assert s1.rq + s1.rt == (s.rq + s.rt)[1..];
      ReceivingApart(s1, FdOf(s, s.rq[0]), true, env);
      ServeRecvsApart(Receiving(s1, FdOf(s, s.rq[0]), true, env), env);
    }
  }

  lemma NextApart(s: State, h: Happening, env: Env)
    requires Apart(s)
    ensures Apart(Next(s, h, env))
  {
    hide Sending, Receiving, ServeSends, ServeRecvs;
    match h
    case Accepted(fd) =>
    case Polled(fd, readable, writable) =>
      ReceivingApart(s, fd, false, env);
      SendingApart(if readable then Receiving(s, fd, false, env) else s, fd, false, env);
    case Scanned =>
      var s1 := s.(sq := s.sq + s.st, st := []);
      assert s1.sq + s1.st == s.sq + s.st;
      ServeSendsApart(s1, env);
      var s2 := ServeSends(s1, env);
      var s3 := s2.(rq := s2.rq + s2.rt, rt := []);
      assert s3.rq + s3.rt == s2.rq + s2.rt;
      ServeRecvsApart(s3, env);
  }

  lemma {:induction false} AfterApart(slots: nat, happenings: seq<Happening>, env: Env)
    ensures Apart(After(slots, happenings, env))
  {
    hide Next;
    if happenings != [] {
      AfterApart(slots, happenings[..|happenings| - 1], env);
      NextApart(After(slots, happenings[..|happenings| - 1], env), happenings[|happenings| - 1], env);
    }
  }

  /* ---------- whole runs ---------- */

  lemma AfterNext(slots: nat, happenings: seq<Happening>, env: Env, i: nat)
    requires i < |happenings|
    ensures After(slots, happenings[..i + 1], env) == Next(After(slots, happenings[..i], env), happenings[i], env)
  {
    assert happenings[..i + 1][..i] == happenings[..i];
  }

  // do_send and do_recv take no other connection off a list.
  lemma NothingForgotten(s: State, fd: int, env: Env)
    ensures Within(s.sq + s.st, Sending(s, fd, false, env).sq + Sending(s, fd, false, env).st)
    ensures Within(s.sq + s.st, Receiving(s, fd, false, env).sq + Receiving(s, fd, false, env).st)
    ensures Within(s.rq + s.rt, Receiving(s, fd, false, env).rq + Receiving(s, fd, false, env).rt)
  {
    hide Drop, Sending;
    NotUnsent(s, fd, env);
    NotUnsent(AfterCallback(s.(recvs := s.recvs + [fd]), env), fd, env);
    if fd >= 0 {
      DropKeeps(s.rq, fd);
      DropKeeps(s.rt, fd);
    }
  }

  lemma NotUnsent(s: State, fd: int, env: Env)
    ensures Within(s.sq + s.st, Sending(s, fd, false, env).sq + Sending(s, fd, false, env).st)
  {
    hide Drop;
    if fd >= 0 {
      DropKeeps(s.sq, fd);
      DropKeeps(s.st, fd);
    }
  }

  // Whatever has happened before, an accepted connection is open, and its first event is served or,
  // if it is throttled, waits at the end of send_list.
  lemma AcceptedIsServed(slots: nat, happenings: seq<Happening>, env: Env, fd: nat)
    requires fd < slots
    ensures var s := After(slots, happenings + [Accepted(fd)], env);
            var r := Next(s, Polled(fd, false, true), env);
            && fd in s.open
            && if env.sendThrottled(|s.sends|) then MovedToEnd(s.sq, fd, r.sq) && r.callbacks == s.callbacks
               else r.sq == s.sq && r.callbacks > s.callbacks
  {
    hide Sending, MovedToEnd;
    var all := happenings + [Accepted(fd)];
    assert all[..|happenings|] == happenings && all[|happenings|] == Accepted(fd);
    var s := After(slots, all, env);
    AfterApart(slots, all, env);
    DistinctParts(s.sq, s.st);
    if env.sendThrottled(|s.sends|) {
      ThrottledSend(s, fd, false, env);
    } else {
      SendOutcome(s, fd, false, env);
    }
  }

  // What is pending stays so until the next scan.
  lemma {:induction false} PendingUntilScan(slots: nat, happenings: seq<Happening>, env: Env, i: nat, j: nat)
    requires i <= j <= |happenings| && forall m :: i <= m < j ==> !happenings[m].Scanned?
    ensures var s, r := After(slots, happenings[..i], env), After(slots, happenings[..j], env);
            Within(s.sq + s.st, r.sq + r.st) && Within(s.rq + s.rt, r.rq + r.rt)
    decreases j
  {
    hide Sending, Receiving, Scan;
    if i < j {
      PendingUntilScan(slots, happenings, env, i, j - 1);
      AfterNext(slots, happenings, env, j - 1);
      var s, h := After(slots, happenings[..j - 1], env), happenings[j - 1];
      if h.Polled? {
        NothingForgotten(s, h.fd, env);
        NothingForgotten(if h.readable then Receiving(s, h.fd, false, env) else s, h.fd, env);
      }
    }
  }

  ghost predicate CalledAgain(before: seq<int>, after: seq<int>, fd: nat)
  {
    exists n :: |before| <= n < |after| && after[n] == fd
  }

  // The state in which an event's do_send call is made.
  function BeforeSend(s: State, h: Happening, env: Env): State
    requires h.Polled?
  {
    if h.readable then Receiving(s, h.fd, false, env) else s
  }

  // A polled do_send that is throttled waits for the next scan, which calls do_send for this
  // connection again, unless it has been closed.
  lemma SendIsRetried(slots: nat, happenings: seq<Happening>, env: Env, i: nat, j: nat)
    requires i < j < |happenings| && happenings[j].Scanned? && forall m :: i < m < j ==> !happenings[m].Scanned?
    requires happenings[i].Polled? && happenings[i].writable
    requires var s := BeforeSend(After(slots, happenings[..i], env), happenings[i], env);
             happenings[i].fd in s.open && env.sendThrottled(|s.sends|)
    ensures var fd, s := happenings[i].fd, After(slots, happenings[..j], env);
            && fd in s.sq + s.st
            && (fd in s.open && NeverClosed(env, fd) ==>
                  CalledAgain(s.sends, After(slots, happenings[..j + 1], env).sends, fd))
  {
    hide Sending, Receiving, Scan, Called, OpenOnesCalled, Throttled, NeverClosed, CalledAgain;
    var fd, before := happenings[i].fd, After(slots, happenings[..i], env);
    AfterApart(slots, happenings[..i], env);
    ReceivingApart(before, fd, false, env);
    var asked := BeforeSend(before, happenings[i], env);
    DistinctParts(asked.sq, asked.st);
    ThrottledSend(asked, fd, false, env);
    AfterNext(slots, happenings, env, i);
    assert fd in After(slots, happenings[..i + 1], env).sq;
    PendingUntilScan(slots, happenings, env, i + 1, j);
    AfterNext(slots, happenings, env, j);
    AfterApart(slots, happenings[..j], env);
    var s := After(slots, happenings[..j], env);
    var sendings, recvings := ScanCalls(s, env);
    ServedIsCalled(s.sends, sendings, Scan(s, env).sends, s.sq + s.st, s.open, env, fd);
  }

  // The same for do_recv, if the connection does not wait for do_send too, which goes first and
  // may close it.
  lemma RecvIsRetried(slots: nat, happenings: seq<Happening>, env: Env, i: nat, j: nat)
    requires i < j < |happenings| && happenings[j].Scanned? && forall m :: i < m < j ==> !happenings[m].Scanned?
    requires happenings[i].Polled? && happenings[i].readable
    requires var s := After(slots, happenings[..i], env);
             happenings[i].fd in s.open && env.recvThrottled(|s.recvs|)
    ensures var fd, s := happenings[i].fd, After(slots, happenings[..j], env);
            && fd in s.rq + s.rt
            && (fd in s.open && fd !in s.sq + s.st && NeverClosed(env, fd) ==>
                  CalledAgain(s.recvs, After(slots, happenings[..j + 1], env).recvs, fd))
  {
    hide Sending, Receiving, Scan, Called, OpenOnesCalled, Throttled, NeverClosed, CalledAgain;
    var fd, before := happenings[i].fd, After(slots, happenings[..i], env);
    AfterApart(slots, happenings[..i], env);
    DistinctParts(before.rq, before.rt);
    ThrottledRecv(before, fd, false, env);
    AfterNext(slots, happenings, env, i);
    assert fd in After(slots, happenings[..i + 1], env).rq;
    PendingUntilScan(slots, happenings, env, i + 1, j);
    AfterNext(slots, happenings, env, j);
    AfterApart(slots, happenings[..j], env);
    var s := After(slots, happenings[..j], env);
    var sendings, recvings := ScanCalls(s, env);
    ServedIsCalled(s.recvs, recvings, Scan(s, env).recvs, s.rq + s.rt, Unserved(s.open, s.sq + s.st), env, fd);
  }

  lemma ServedIsCalled(before: seq<int>, calls: seq<int>, after: seq<int>, served: seq<nat>, open: set<nat>,
                       env: Env, fd: nat)
    requires OpenOnesCalled(calls, served, open, env) && before + calls <= after
    requires fd in served
    ensures fd in open && NeverClosed(env, fd) ==> CalledAgain(before, after, fd)
  {
    hide NeverClosed;
    if fd in open && NeverClosed(env, fd) {
      var i :| 0 <= i < |served| && served[i] == fd;
      assert after[|before| + i] == (before + calls)[|before| + i] == calls[i] == fd;
    }
  }

  // Every event that was polled has reached do_recv or do_send, as its bits say.
  lemma {:induction false} PolledIsHandled(slots: nat, happenings: seq<Happening>, env: Env, i: nat)
    requires i < |happenings| && happenings[i].Polled?
    ensures var s := After(slots, happenings, env);
            && (happenings[i].readable ==> happenings[i].fd as int in s.recvs)
            && (happenings[i].writable ==> happenings[i].fd as int in s.sends)
  {
    hide Receiving, Sending, Scan;
    var last := |happenings| - 1;
    var s := After(slots, happenings[..last], env);
    LogsGrow(s, happenings[last], env);
    if i < last {
      PolledIsHandled(slots, happenings[..last], env, i);
    }
  }

  lemma LogsGrow(s: State, h: Happening, env: Env)
    ensures s.sends <= Next(s, h, env).sends && s.recvs <= Next(s, h, env).recvs
  {
    hide Sending, Receiving, ServeSends, ServeRecvs;
    if h.Scanned? {
      var s1 := s.(sq := s.sq + s.st, st := []);
      ServeSendsGrow(s1, env);
      var s2 := ServeSends(s1, env);
      ServeRecvsGrow(s2.(rq := s2.rq + s2.rt, rt := []), env);
    }
  }

  lemma {:induction false} ServeSendsGrow(s: State, env: Env)
    ensures s.sends <= ServeSends(s, env).sends
    decreases |s.sq|
  {
    hide Sending;
    if s.sq != [] {
      ServeSendsGrow(Sending(s.(sq := s.sq[1..]), FdOf(s, s.sq[0]), true, env), env);
    }
  }

  lemma {:induction false} ServeRecvsGrow(s: State, env: Env)
    ensures s.recvs <= ServeRecvs(s, env).recvs
    decreases |s.rq|
  {
    hide Receiving;
    if s.rq != [] {
      ServeRecvsGrow(Receiving(s.(rq := s.rq[1..]), FdOf(s, s.rq[0]), true, env), env);
    }
  }
}
