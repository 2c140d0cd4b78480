/** The receive loop of do_recv in network/vfs_so.c.

    What recv answers is a finite oracle; past its end the socket has nothing more.
 */
module RecvPath {
  import opened Basics
  import opened Bytes
  import opened MyBuff

  datatype Answer = Got(bytes: seq<byte>) | EndOfStream | Interrupted | Again | Failed

  // recv never returns more than the I/O buffer holds.
  predicate Possible(answers: seq<Answer>, bufSize: nat)
  {
    forall i :: 0 <= i < |answers| && answers[i].Got? ==> 0 < |answers[i].bytes| <= bufSize
  }

  // A full buffer or an interrupt is followed by another recv.
  predicate GoesOn(a: Answer, bufSize: nat)
  {
    a.Interrupted? || (a.Got? && |a.bytes| == bufSize)
  }

  function Received(answers: seq<Answer>): seq<byte>
  {
    if answers == [] then []
    else Received(answers[..|answers| - 1]) + var last := answers[|answers| - 1]; if last.Got? then last.bytes else []
  }

  predicate Closes(a: Answer) { a.EndOfStream? || a.Failed? }

  // How many answers one call takes: up to and including the first that does not go on.
  function Taken(answers: seq<Answer>, bufSize: nat): (n: nat)
    ensures n <= |answers|
    ensures forall i :: 0 <= i < n - 1 ==> GoesOn(answers[i], bufSize)
    ensures n < |answers| ==> n > 0 && !GoesOn(answers[n - 1], bufSize)
  {
    if answers == [] then 0
    else if !GoesOn(answers[0], bufSize) then 1
    else 1 + Taken(answers[1..], bufSize)
  }

  // Behind full buffers and interrupts, the first answer that is neither is the last one taken, and
  // of those only the end of the stream and an error close.
  lemma {:induction false} StopsAt(answers: seq<Answer>, bufSize: nat, i: nat)
    requires i < |answers|
    requires forall j :: 0 <= j < i ==> answers[j] == Interrupted || (answers[j].Got? && |answers[j].bytes| == bufSize)
    requires answers[i] in {EndOfStream, Again, Failed} || (answers[i].Got? && |answers[i].bytes| != bufSize)
    ensures Taken(answers, bufSize) == i + 1
    ensures StaysOpen(answers[..i + 1]) <==> answers[i] != EndOfStream && answers[i] != Failed
    ensures Received(answers[..i + 1]) == Received(answers[..i]) + if answers[i].Got? then answers[i].bytes else []
  {
    assert answers[..i + 1][..i] == answers[..i];
    if i > 0 {
      StopsAt(answers[1..], bufSize, i - 1);
    }
    LastDecides(answers, bufSize, i + 1);
  }

  // The loop itself; `used` is the number of answers it took.
  method RecvLoop(b: MyBuff, answers: seq<Answer>, bufSize: nat) returns (open: bool, used: nat)
    requires b.Valid() && bufSize > 0 && Possible(answers, bufSize)
    modifies b`data, b`size, b`len, b.data
    ensures b.Valid() && (b.data == old(b.data) || fresh(b.data))
    ensures used <= |answers| && b.Contents() == old(b.Contents()) + Received(answers[..used])
    ensures forall i :: 0 <= i < used - 1 ==> GoesOn(answers[i], bufSize)
    ensures used < |answers| ==> used > 0
    ensures used > 0 && GoesOn(answers[used - 1], bufSize) ==> used == |answers|
    ensures open <==> !(used > 0 && Closes(answers[used - 1]))
  {
    hide MyBuff.Valid, MyBuff.Contents;
    used := 0;
    while used < |answers|
      invariant used <= |answers| && b.Valid() && (b.data == old(b.data) || fresh(b.data))
      invariant b.Contents() == old(b.Contents()) + Received(answers[..used])
      invariant forall i :: 0 <= i < used ==> GoesOn(answers[i], bufSize)
    {
      assert answers[..used + 1][..used] == answers[..used];
      used := used + 1;
      match answers[used - 1] {
        case Got(bytes) =>
          b.SetData(bytes);
          if |bytes| != bufSize {
            return true, used;
          }
        case EndOfStream =>
          return false, used;
        case Failed =>
          return false, used;
        case Interrupted =>
        case Again =>
          return true, used;
      }
    }
    open := true;
  }

  // Everything received is queued, in order and once, and the loop stops at the first answer that
  // is neither a full buffer nor an interrupt; only the end of the stream or an error closes.
  method DoRecv(b: MyBuff, answers: seq<Answer>, bufSize: nat) returns (open: bool)
    requires b.Valid() && bufSize > 0 && Possible(answers, bufSize)
    modifies b`data, b`size, b`len, b.data
    ensures b.Valid() && (b.data == old(b.data) || fresh(b.data))
    ensures b.Contents() == old(b.Contents()) + Received(answers[..Taken(answers, bufSize)])
    ensures open <==> StaysOpen(answers[..Taken(answers, bufSize)])
  {
    hide MyBuff.Valid, MyBuff.Contents, Received, Taken;
    var used;
    open, used := RecvLoop(b, answers, bufSize);
    TakenIs(answers, bufSize, used);
    LastDecides(answers, bufSize, used);
  }

  predicate StaysOpen(seen: seq<Answer>)
  {
    forall i :: 0 <= i < |seen| ==> !Closes(seen[i])
  }

  lemma LastDecides(answers: seq<Answer>, bufSize: nat, used: nat)
    requires used <= |answers| && forall i :: 0 <= i < used - 1 ==> GoesOn(answers[i], bufSize)
    ensures StaysOpen(answers[..used]) <==> !(used > 0 && Closes(answers[used - 1]))
  {
    if used > 0 {
      assert answers[..used][used - 1] == answers[used - 1];
    }
  }

  lemma {:induction false} TakenIs(answers: seq<Answer>, bufSize: nat, n: nat)
    requires n <= |answers|
    requires forall i :: 0 <= i < n - 1 ==> GoesOn(answers[i], bufSize)
    requires n < |answers| ==> n > 0
    requires n > 0 && GoesOn(answers[n - 1], bufSize) ==> n == |answers|
    ensures n == Taken(answers, bufSize)
  {
    if answers != [] && GoesOn(answers[0], bufSize) {
      TakenIs(answers[1..], bufSize, n - 1);
    }
  }

  lemma {:induction false} ReceivedAppend(a: seq<Answer>, b: seq<Answer>)
    ensures Received(a + b) == Received(a) + Received(b)
  {
    if b == [] {
      assert a + b == a;
    } else {
      var last := |b| - 1;
      assert (a + b)[..|a| + last] == a + b[..last];
      ReceivedAppend(a, b[..last]);
    }
  }

  // What a connection has taken in over a run of read events; once closed it takes in nothing.
  function Seen(events: seq<seq<Answer>>, bufSize: nat): seq<Answer>
  {
    if events == [] then []
    else
      var before, last := Seen(events[..|events| - 1], bufSize), events[|events| - 1];
      if StaysOpen(before) then before + last[..Taken(last, bufSize)] else before
  }

  lemma OpenAppend(a: seq<Answer>, b: seq<Answer>)
    ensures StaysOpen(a + b) <==> StaysOpen(a) && StaysOpen(b)
  {
    assert forall i :: 0 <= i < |b| ==> (a + b)[|a| + i] == b[i];
    assert forall i :: 0 <= i < |a| ==> (a + b)[i] == a[i];
  }

  // Any number of read events: the queue holds everything the connection has taken in, whatever the
  // events were cut into, and the connection is open unless one of them met the end or an error.
  method ReceiveAll(b: MyBuff, events: seq<seq<Answer>>, bufSize: nat) returns (open: bool)
    requires b.Valid() && bufSize > 0 && forall i :: 0 <= i < |events| ==> Possible(events[i], bufSize)
    modifies b`data, b`size, b`len, b.data
    ensures b.Valid() && b.Contents() == old(b.Contents()) + Received(Seen(events, bufSize))
    ensures open <==> StaysOpen(Seen(events, bufSize))
  {
    hide MyBuff.Valid, MyBuff.Contents, Received, Taken, Possible, StaysOpen;
    open := true;
    NothingReceived();
    for i := 0 to |events|
      invariant b.Valid() && (b.data == old(b.data) || fresh(b.data))
      invariant b.Contents() == old(b.Contents()) + Received(Seen(events[..i], bufSize))
      invariant open <==> StaysOpen(Seen(events[..i], bufSize))
    {
      assert events[..i + 1][..i] == events[..i];
      if open {
        ghost var seen, more := Seen(events[..i], bufSize), events[i][..Taken(events[i], bufSize)];
        open := DoRecv(b, events[i], bufSize);
        ReceivedAppend(seen, more);
        OpenAppend(seen, more);
      }
    }
    assert events[..|events|] == events;
  }

  lemma NothingReceived()
    ensures Received([]) == [] && StaysOpen([])
  {
  }
}
