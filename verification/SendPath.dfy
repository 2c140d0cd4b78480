/** do_send of network/vfs_so.c for a connection that is not throttled: the queued data, then the
    queued file slice, go to a socket that accepts what it likes.

    What send and sendfile64 answer is an oracle: a sequence of answers, of which a loop takes those
    up to the first that is not an interrupt; past its end the socket takes nothing more. A
    sendfile64 that meets the end of the file moves nothing and leaves the error to be read from a
    stale errno.
 */
module SendPath {
  import opened Basics
  import opened Bytes
  import opened MyBuff

  type positive = n: nat | n > 0 witness 1

  const GSIZE: nat := 1073741824

  datatype Errno = Again | NoEntry | Fatal
  datatype Answer = Moved(n: positive) | Interrupted | Error(errno: Errno)
  datatype Io = Io(answers: seq<Answer>, stale: Errno)
  datatype Verdict = Close | AddEpollIn | AddEpollOut

  // The bytes of the queued slice that the file has.
  ghost function Slice(b: MyBuff, file: seq<byte>): seq<byte>
    reads b`fd, b`foffset, b`flen
  {
    if b.HasFile() && b.foffset <= |file| then file[b.foffset..Min(b.foffset + b.flen, |file|)] else []
  }

  // Everything that is still to be sent, in order.
  ghost function Pending(b: MyBuff, file: seq<byte>): seq<byte>
    reads b, b.data
    requires b.Valid()
  {
    b.Contents() + Slice(b, file)
  }

  ghost predicate Drained(b: MyBuff)
    reads b, b.data
    requires b.Valid()
  {
    b.Contents() == [] && !b.HasFile()
  }

  // The answer that ends a loop.
  function Settled(answers: seq<Answer>): (a: Answer)
    ensures !a.Interrupted?
  {
    if answers == [] then Error(Again) else if answers[0].Interrupted? then Settled(answers[1..]) else answers[0]
  }

  predicate Moves(io: Io) { Settled(io.answers).Moved? }

  // How much of what is offered a socket takes: at least one byte, unless the call fails or there
  // is nothing to move.
  function Accepted(io: Io, offered: nat): (n: nat)
    ensures n <= offered && (n > 0 <==> Moves(io) && offered > 0)
  {
    if Moves(io) then Min(Settled(io.answers).n, offered) else 0
  }

  function ErrnoOf(io: Io): Errno
  {
    if Settled(io.answers).Error? then Settled(io.answers).errno else io.stale
  }

  // Interrupts before an answer make no difference to it.
  lemma {:induction false} InterruptsSkipped(answers: seq<Answer>, i: nat, stale: Errno, offered: nat)
    requires i < |answers| && !answers[i].Interrupted? && forall j :: 0 <= j < i ==> answers[j].Interrupted?
    ensures Accepted(Io(answers, stale), offered) == if answers[i].Moved? then Min(answers[i].n, offered) else 0
    ensures ErrnoOf(Io(answers, stale)) == if answers[i].Error? then answers[i].errno else stale
  {
    if i > 0 {
      InterruptsSkipped(answers[1..], i - 1, stale, offered);
    }
  }

  // One send loop: retried while interrupted; when nothing is moved, errno decides.
  method Transfer(io: Io, offered: nat) returns (n: nat, errno: Errno)
    ensures n == Accepted(io, offered)
    ensures n == 0 ==> errno == ErrnoOf(io)
  {
    assert io.answers[0..] == io.answers;
    for i := 0 to |io.answers|
      invariant Settled(io.answers[i..]) == Settled(io.answers)
    {
      assert io.answers[i..][1..] == io.answers[i + 1..];
      match io.answers[i] {
        case Moved(m) =>
          return Min(m, offered), io.stale;
        case Error(e) =>
          return 0, e;
        case Interrupted =>
      }
    }
    return 0, Again;
  }

  // The data half.
  method SendData(b: MyBuff, io: Io) returns (ret: Verdict, wire: seq<byte>)
    requires b.Valid()
    modifies b`len, b.data
    ensures b.Valid() && wire + b.Contents() == old(b.Contents())
    ensures |wire| == Accepted(io, |old(b.Contents())|)
    ensures ret == AddEpollIn <==> b.Contents() == []
    ensures ret == Close <==> old(b.Contents()) != [] && wire == [] && ErrnoOf(io) != Again
  {
    ret, wire := AddEpollIn, [];
    var ok, data := b.GetData();
    if ok {
      var n, errno := Transfer(io, |data|);
      if n > 0 {
        b.SkipData(n);
        wire := data[..n];
        if n < |data| {
          ret := AddEpollOut;
        }
      } else if errno == Again {
        ret := AddEpollOut;
      } else {
        ret := Close;
      }
    }
  }

  lemma SliceAdvances(file: seq<byte>, start: nat, n: nat, end: nat)
    requires start + n <= end <= |file|
    ensures file[start..start + n] + file[start + n..end] == file[start..end]
  {
  }

  lemma SliceIsThere(b: MyBuff, file: seq<byte>)
    ensures b.HasFile() && InFile(b, file) ==> Slice(b, file) != []
  {
  }

  // The file half, entered only when the data is gone.
  method SendFile(b: MyBuff, file: seq<byte>, io: Io) returns (ret: Verdict, wire: seq<byte>)
    requires b.Valid()
    modifies b`fd, b`foffset, b`flen
    ensures b.Valid() && b.Contents() == old(b.Contents())
    ensures wire + Slice(b, file) == old(Slice(b, file))
    ensures |wire| == Accepted(io, Min(GSIZE, |old(Slice(b, file))|))
    ensures ret == AddEpollIn <==> !b.HasFile()
    ensures ret == Close <==> old(b.HasFile()) && wire == [] && ErrnoOf(io) == Fatal
    ensures old(InFile(b, file)) ==> InFile(b, file)
  {
    hide MyBuff.Valid, MyBuff.Contents, Accepted, ErrnoOf, Moves;
    ret, wire := AddEpollIn, [];
    var ok, localFd, start, len := b.GetFile();
    if ok {
      var len1 := if len > GSIZE then GSIZE else len;
      var there := if start <= |file| then Min(len1, |file| - start) else 0;
      var n, errno := Transfer(io, there);
      if n > 0 {
        SliceAdvances(file, start, n, Min(start + len, |file|));
        b.SkipFile(n);
        wire := file[start..start + n];
        if n < len {
          ret := AddEpollOut;
        }
      } else if errno == Again || errno == NoEntry {
        ret := AddEpollOut;
      } else {
        ret := Close;
      }
    }
  }

  // Data is queued, nothing of it moves, and the error is not the one that says to wait.
  predicate DataFails(io: Io, queued: nat)
  {
    queued > 0 && !Moves(io) && ErrnoOf(io) != Again
  }

  // A slice is queued, nothing of it moves, and the error is fatal.
  predicate FileFails(io: Io, queued: bool, slice: nat)
  {
    queued && Accepted(io, Min(GSIZE, slice)) == 0 && ErrnoOf(io) == Fatal
  }

  // Whatever the socket does, what went out followed by what is queued never changes; the plug-in
  // is told to go on exactly when everything is out, and the connection is to be closed exactly when
  // the data fails, or the data is gone and the file fails.
  method DoSend(b: MyBuff, file: seq<byte>, dataIo: Io, fileIo: Io) returns (ret: Verdict, wire: seq<byte>)
    requires b.Valid()
    modifies b`len, b`fd, b`foffset, b`flen, b.data
    ensures b.Valid() && b.data == old(b.data)
    ensures wire + Pending(b, file) == old(Pending(b, file))
    ensures ret == AddEpollIn <==> Drained(b)
    ensures ret == Close <==>
      var queued, slice := |old(b.Contents())|, |old(Slice(b, file))|;
      || DataFails(dataIo, queued)
      || (Accepted(dataIo, queued) == queued && FileFails(fileIo, old(b.HasFile()), slice))
    ensures |b.Contents()| == |old(b.Contents())| - Accepted(dataIo, |old(b.Contents())|)
    ensures |Slice(b, file)| == |old(Slice(b, file))| -
      if b.Contents() == [] then Accepted(fileIo, Min(GSIZE, |old(Slice(b, file))|)) else 0
    ensures old(InFile(b, file)) ==> InFile(b, file)
    ensures Moves(dataIo) && Moves(fileIo) && old(Pending(b, file)) != [] ==> wire != []
    ensures old(InFile(b, file)) && Harmless(dataIo, fileIo) ==> ret != Close
    ensures b.Contents() != [] ==> b.fd == old(b.fd) && b.foffset == old(b.foffset) && b.flen == old(b.flen)
  {
    hide MyBuff.Valid, MyBuff.Contents, MyBuff.HasFile, Slice, InFile;
    SliceIsThere(b, file);
    ret, wire := SendData(b, dataIo);
    if ret == AddEpollIn {
      var more;
      ret, more := SendFile(b, file, fileIo);
      wire := wire + more;
    }
  }

  // Neither half meets an error that closes the connection.
  predicate Harmless(dataIo: Io, fileIo: Io)
  {
    && (Moves(dataIo) || ErrnoOf(dataIo) == Again)
    && (Moves(fileIo) || ErrnoOf(fileIo) != Fatal)
  }

  predicate AllHarmless(calls: seq<(Io, Io)>)
  {
    forall i :: 0 <= i < |calls| ==> Harmless(calls[i].0, calls[i].1)
  }

  // The calls that are sure to move something if anything is pending.
  function Productive(calls: seq<(Io, Io)>): (n: nat)
    ensures n <= |calls|
  {
    if calls == [] then 0
    else
      var last := calls[|calls| - 1];
      Productive(calls[..|calls| - 1]) + if Moves(last.0) && Moves(last.1) then 1 else 0
  }

  // The bytes of data and of the slice that are left.
  datatype Left = Left(data: nat, slice: nat)

  function Unsent(l: Left): nat { l.data + l.slice }

  // After these calls, if none of them but the last closes: the slice is touched only when the data
  // is gone.
  function LeftAfter(data: nat, n: nat, calls: seq<(Io, Io)>): (r: Left)
    ensures r.data <= data && r.slice <= n
  {
    if calls == [] then Left(data, n)
    else
      var before, last := LeftAfter(data, n, calls[..|calls| - 1]), calls[|calls| - 1];
      var d := before.data - Accepted(last.0, before.data);
      Left(d, before.slice - if d > 0 then 0 else Accepted(last.1, Min(GSIZE, before.slice)))
  }

  predicate Fails(l: Left, call: (Io, Io))
  {
    || DataFails(call.0, l.data)
    || (Accepted(call.0, l.data) == l.data && FileFails(call.1, l.slice > 0, l.slice))
  }

  // The first call from i on that fails, or |calls|.
  function FirstFailure(data: nat, n: nat, calls: seq<(Io, Io)>, i: nat): (f: nat)
    requires i <= |calls|
    ensures i <= f <= |calls|
    ensures forall j :: i <= j < f ==> !Fails(LeftAfter(data, n, calls[..j]), calls[j])
    ensures f < |calls| ==> Fails(LeftAfter(data, n, calls[..f]), calls[f])
    decreases |calls| - i
  {
    if i == |calls| || Fails(LeftAfter(data, n, calls[..i]), calls[i]) then i
    else FirstFailure(data, n, calls, i + 1)
  }

  lemma OneCallMore(data: nat, n: nat, calls: seq<(Io, Io)>, i: nat)
    requires i < |calls|
    ensures var before, d := LeftAfter(data, n, calls[..i]), LeftAfter(data, n, calls[..i + 1]).data;
            LeftAfter(data, n, calls[..i + 1]) ==
              Left(before.data - Accepted(calls[i].0, before.data),
                   before.slice - if d > 0 then 0 else Accepted(calls[i].1, Min(GSIZE, before.slice)))
    ensures Productive(calls[..i + 1]) ==
      Productive(calls[..i]) + if Moves(calls[i].0) && Moves(calls[i].1) then 1 else 0
  {
    assert calls[..i + 1][..i] == calls[..i];
  }

  // What follows when everything is out.
  lemma {:induction false} NothingLeft(data: nat, n: nat, calls: seq<(Io, Io)>, i: nat, j: nat)
    requires i <= j <= |calls| && LeftAfter(data, n, calls[..i]) == Left(0, 0)
    ensures LeftAfter(data, n, calls[..j]) == Left(0, 0)
    ensures forall c :: !Fails(LeftAfter(data, n, calls[..j]), c)
    decreases j
  {
    if i < j {
      NothingLeft(data, n, calls, i, j - 1);
      assert calls[..j][..j - 1] == calls[..j - 1];
    }
  }

  // Of the first i calls none has failed, or only the last.
  ghost predicate SoFar(data: nat, n: nat, calls: seq<(Io, Io)>, i: nat, closed: bool)
    requires i <= |calls|
  {
    && (closed ==> i > 0 && Fails(LeftAfter(data, n, calls[..i - 1]), calls[i - 1]))
    && forall j :: 0 <= j < (if closed then i - 1 else i) ==> !Fails(LeftAfter(data, n, calls[..j]), calls[j])
  }

  lemma SoFarNext(data: nat, n: nat, calls: seq<(Io, Io)>, i: nat)
    requires i < |calls| && SoFar(data, n, calls, i, false)
    ensures SoFar(data, n, calls, i + 1, Fails(LeftAfter(data, n, calls[..i]), calls[i]))
  {
    hide Fails;
  }

  // Where the loop over the calls stops.
  lemma Stopped(data: nat, n: nat, calls: seq<(Io, Io)>, i: nat, closed: bool)
    requires i <= |calls| && SoFar(data, n, calls, i, closed)
    requires !closed && i < |calls| ==> LeftAfter(data, n, calls[..i]) == Left(0, 0)
    ensures var f := FirstFailure(data, n, calls, 0);
            && (closed <==> f < |calls|)
            && Unsent(LeftAfter(data, n, calls[..i])) == Unsent(LeftAfter(data, n, calls[..Min(f + 1, |calls|)]))
  {
    hide LeftAfter, Fails;
    var f := FirstFailure(data, n, calls, 0);
    if !closed {
      if f < |calls| {
        NothingLeft(data, n, calls, i, f);
      }
      if i < |calls| {
        NothingLeft(data, n, calls, i, |calls|);
      }
    }
  }

  // A response of data and then a file slice, sent by any number of do_send calls: the wire holds
  // a prefix of it at every moment, and all of it once a call asks only for input again. The first
  // call that fails closes the connection and is the last one; calls that move nothing do no harm,
  // and after as many that do as the response has bytes it is out.
  method SendResponse(data: seq<byte>, file: seq<byte>, offset: nat, n: nat, calls: seq<(Io, Io)>, initSize: nat)
      returns (wire: seq<byte>, done: bool, closed: bool)
    requires initSize > 0 && offset + n <= |file| && |data| + n > 0
    ensures wire <= data + file[offset..offset + n]
    ensures done <==> wire == data + file[offset..offset + n]
    ensures closed ==> !done
    ensures closed <==> FirstFailure(|data|, n, calls, 0) < |calls|
    ensures |wire| == |data| + n -
      Unsent(LeftAfter(|data|, n, calls[..Min(FirstFailure(|data|, n, calls, 0) + 1, |calls|)]))
    ensures AllHarmless(calls) ==> !closed
    ensures forall k :: 0 <= k <= |calls| && AllHarmless(calls[..k]) && Productive(calls[..k]) >= |data| + n ==> done
  {
    hide MyBuff.Valid, MyBuff.Contents, MyBuff.HasFile, Slice, Pending, Drained, InFile, Harmless;
    hide LeftAfter, Fails, FirstFailure, DataFails, FileFails, Moves, Productive, AllHarmless;
    var b := new MyBuff(initSize);
    assert b.Contents() == [];
    b.SetData(data);
    var _ := b.SetFile(3, offset, n);
    Queued(b, file);
    wire, done, closed := SendAll(b, file, |data|, n, calls);
  }

  // The calls of do_send until everything is out or the connection is closed.
  method SendAll(b: MyBuff, file: seq<byte>, ghost data: nat, ghost n: nat, calls: seq<(Io, Io)>)
      returns (wire: seq<byte>, done: bool, closed: bool)
    requires b.Valid() && InFile(b, file) && data == |b.Contents()| && n == |Slice(b, file)|
    requires Pending(b, file) != [] && |Pending(b, file)| == data + n
    modifies b`len, b`fd, b`foffset, b`flen, b.data
    ensures wire <= old(Pending(b, file))
    ensures done <==> wire == old(Pending(b, file))
    ensures closed <==> FirstFailure(data, n, calls, 0) < |calls|
    ensures closed ==> !done
    ensures |wire| == data + n - Unsent(LeftAfter(data, n, calls[..Min(FirstFailure(data, n, calls, 0) + 1, |calls|)]))
    ensures AllHarmless(calls) ==> !closed
    ensures forall k :: 0 <= k <= |calls| && AllHarmless(calls[..k]) && Productive(calls[..k]) >= data + n ==> done
  {
    hide MyBuff.Valid, MyBuff.Contents, MyBuff.HasFile, Slice, Pending, Drained, InFile, Harmless;
    hide FirstFailure, Productive, AllHarmless, Underway;
    wire, done, closed := [], false, false;
    ghost var response := Pending(b, file);
    Starts(b, file, data, n, calls);
    var i := 0;
    while i < |calls| && !done && !closed
      invariant i <= |calls| && b.Valid() && b.data == old(b.data)
      invariant Underway(b, file, response, wire, data, n, calls, i, closed)
      invariant done <==> Drained(b)
      invariant !(done && closed)
    {
      var ret;
      ret, wire := SendNext(b, file, response, wire, data, n, calls, i);
      done, closed := ret == AddEpollIn, ret == Close;
      i := i + 1;
    }
    Ends(b, file, response, wire, data, n, calls, i, closed);
  }

  // Where a response stands after i calls, of which only the last may have closed.
  ghost predicate Underway(b: MyBuff, file: seq<byte>, response: seq<byte>, wire: seq<byte>, data: nat, n: nat,
                           calls: seq<(Io, Io)>, i: nat, closed: bool)
    reads b, b.data
    requires b.Valid() && i <= |calls|
  {
    && InFile(b, file)
    && wire + Pending(b, file) == response && |response| == data + n > 0
    && LeftAfter(data, n, calls[..i]) == Left(|b.Contents()|, |Slice(b, file)|)
    && SoFar(data, n, calls, i, closed)
    && (closed ==> i > 0 && !Harmless(calls[i - 1].0, calls[i - 1].1))
    && |wire| >= Productive(calls[..if closed then i - 1 else i])
  }

  lemma Starts(b: MyBuff, file: seq<byte>, data: nat, n: nat, calls: seq<(Io, Io)>)
    requires b.Valid() && InFile(b, file) && data == |b.Contents()| && n == |Slice(b, file)|
    requires Pending(b, file) != [] && |Pending(b, file)| == data + n
    ensures Underway(b, file, Pending(b, file), [], data, n, calls, 0, false) && !Drained(b)
  {
    hide MyBuff.Valid, MyBuff.Contents, Slice, Fails;
    NothingPending(b, file);
    assert [] + Pending(b, file) == Pending(b, file);
  }

  lemma Ends(b: MyBuff, file: seq<byte>, response: seq<byte>, wire: seq<byte>, data: nat, n: nat,
             calls: seq<(Io, Io)>, i: nat, closed: bool)
    requires b.Valid() && i <= |calls| && Underway(b, file, response, wire, data, n, calls, i, closed)
    requires closed ==> !Drained(b)
    requires !closed && i < |calls| ==> Drained(b)
    ensures wire <= response && (Drained(b) <==> wire == response)
    ensures closed <==> FirstFailure(data, n, calls, 0) < |calls|
    ensures |wire| == data + n - Unsent(LeftAfter(data, n, calls[..Min(FirstFailure(data, n, calls, 0) + 1, |calls|)]))
    ensures AllHarmless(calls) ==> !closed
    ensures forall k :: 0 <= k <= |calls| && AllHarmless(calls[..k]) && Productive(calls[..k]) >= data + n ==> Drained(b)
  {
    hide MyBuff.Valid, MyBuff.Contents, Slice, Fails, FirstFailure, LeftAfter, SoFar, Harmless, AllHarmless, Productive;
    NothingPending(b, file);
    hide Pending, Drained;
    Stopped(data, n, calls, i, closed);
    Progresses(calls, i, closed, data + n, |wire|);
  }

  // One call of do_send.
  method SendNext(b: MyBuff, file: seq<byte>, ghost response: seq<byte>, wire: seq<byte>, ghost data: nat, ghost n: nat,
                  calls: seq<(Io, Io)>, i: nat)
      returns (ret: Verdict, wire': seq<byte>)
    requires b.Valid() && i < |calls| && Underway(b, file, response, wire, data, n, calls, i, false) && !Drained(b)
    modifies b`len, b`fd, b`foffset, b`flen, b.data
    ensures b.Valid() && b.data == old(b.data)
    ensures Underway(b, file, response, wire', data, n, calls, i + 1, ret == Close)
    ensures ret == AddEpollIn <==> Drained(b)
  {
    hide MyBuff.Valid, MyBuff.Contents, Slice, Pending, Drained, InFile, Harmless;
    hide LeftAfter, Fails, DataFails, FileFails, SoFar, Productive, Moves;
    NothingPending(b, file);
    OneCallMore(data, n, calls, i);
    SoFarNext(data, n, calls, i);
    FailsIf(b, file, calls[i]);
    var more;
    ret, more := DoSend(b, file, calls[i].0, calls[i].1);
    wire' := wire + more;
    assert wire + more + Pending(b, file) == wire + (more + Pending(b, file));
    SizeZero(b.Contents());
  }

  lemma SizeZero(s: seq<byte>)
    ensures |s| == 0 <==> s == []
  {
  }

  // Calls that move something, before one that may close, get everything out.
  lemma Progresses(calls: seq<(Io, Io)>, i: nat, closed: bool, size: nat, sent: nat)
    requires i <= |calls| && (closed ==> i > 0 && !Harmless(calls[i - 1].0, calls[i - 1].1))
    requires sent < size ==> sent >= Productive(calls[..if closed then i - 1 else i])
    requires !closed && sent < size ==> i == |calls|
    ensures forall k :: 0 <= k <= |calls| && AllHarmless(calls[..k]) && Productive(calls[..k]) >= size ==> sent >= size
    ensures AllHarmless(calls) ==> !closed
  {
    hide Harmless;
    forall k | 0 <= k <= |calls| && AllHarmless(calls[..k]) && Productive(calls[..k]) >= size ensures sent >= size {
      if sent < size {
        var last := if closed then i - 1 else i;
        if closed { BeforeHarm(calls, k, last); }
        MoreProductive(calls, k, last);
      }
    }
  }

  lemma FailsIf(b: MyBuff, file: seq<byte>, call: (Io, Io))
    requires b.Valid() && InFile(b, file)
    ensures var queued, slice := |b.Contents()|, |Slice(b, file)|;
            Fails(Left(queued, slice), call) <==>
              || DataFails(call.0, queued)
              || (Accepted(call.0, queued) == queued && FileFails(call.1, b.HasFile(), slice))
  {
  }

  lemma BeforeHarm(calls: seq<(Io, Io)>, k: nat, i: nat)
    requires k <= |calls| && AllHarmless(calls[..k]) && i < |calls| && !Harmless(calls[i].0, calls[i].1)
    ensures k <= i
  {
  }

  lemma {:induction false} MoreProductive(calls: seq<(Io, Io)>, k: nat, m: nat)
    requires k <= m <= |calls|
    ensures Productive(calls[..k]) <= Productive(calls[..m])
    decreases m
  {
    if k < m {
      assert calls[..m][..m - 1] == calls[..m - 1];
      MoreProductive(calls, k, m - 1);
    }
  }

  ghost predicate InFile(b: MyBuff, file: seq<byte>)
    reads b`fd, b`foffset, b`flen
  {
    b.HasFile() ==> b.foffset + b.flen <= |file|
  }

  lemma Queued(b: MyBuff, file: seq<byte>)
    requires b.Valid() && b.fd >= 0 && b.foffset + b.flen <= |file|
    ensures InFile(b, file) && Pending(b, file) == b.Contents() + file[b.foffset..b.foffset + b.flen]
    ensures Drained(b) <==> |b.Contents()| + b.flen == 0
    ensures |Slice(b, file)| == b.flen
  {
    hide MyBuff.Valid, MyBuff.Contents;
  }

  lemma NothingPending(b: MyBuff, file: seq<byte>)
    requires b.Valid() && InFile(b, file)
    ensures Pending(b, file) == [] <==> Drained(b)
    ensures Drained(b) <==> |b.Contents()| == 0 && |Slice(b, file)| == 0
    ensures |Pending(b, file)| == |b.Contents()| + |Slice(b, file)|
  {
  }

  // What is pending after more data has been queued.
  ghost function WithData(b: MyBuff, file: seq<byte>, bytes: seq<byte>): seq<byte>
    reads b, b.data
    requires b.Valid()
  {
    b.Contents() + bytes + Slice(b, file)
  }

  method QueueData(b: MyBuff, file: seq<byte>, bytes: seq<byte>)
    requires b.Valid()
    modifies b`data, b`size, b`len, b.data
    ensures b.Valid() && (b.data == old(b.data) || fresh(b.data))
    ensures Pending(b, file) == old(WithData(b, file, bytes))
    ensures Slice(b, file) == old(Slice(b, file))
  {
    hide MyBuff.Valid, MyBuff.Contents;
    b.SetData(bytes);
  }

  // Data queued while a file slice waits overtakes it: the order of queueing is kept, for whatever
  // data, exactly when no byte of the slice is pending.
  lemma QueueingKeepsOrder(b: MyBuff, file: seq<byte>)
    requires b.Valid()
    ensures Slice(b, file) == [] <==> forall bytes: seq<byte> :: WithData(b, file, bytes) == Pending(b, file) + bytes
  {
    hide MyBuff.Valid, MyBuff.Contents, Slice;
    var contents, slice := b.Contents(), Slice(b, file);
    if slice != [] {
      var other: byte := if slice[0] == 0 then 1 else 0;
      assert (contents + [other] + slice)[|contents|] != ((contents + slice) + [other])[|contents|];
      assert WithData(b, file, [other]) != Pending(b, file) + [other];
    } else {
      forall bytes: seq<byte> ensures WithData(b, file, bytes) == Pending(b, file) + bytes {
        assert contents + slice == contents && (contents + bytes) + slice == contents + bytes;
      }
    }
  }

  // A file of one byte is queued, then one byte of data: whenever anything moves, the data goes
  // out first.
  method DataOvertakes(dataIo: Io, fileIo: Io) returns (wire: seq<byte>)
    requires Moves(dataIo) && Moves(fileIo)
    ensures wire != [] && wire <= [2, 1]
  {
    hide MyBuff.Valid, MyBuff.Contents;
    var file: seq<byte> := [1];
    var b := new MyBuff(8);
    var _ := b.SetFile(3, 0, 1);
    assert b.Contents() == [];
    QueueData(b, file, [2]);
    assert [] + [2] + [1] == [2, 1];
    assert Pending(b, file) == [2, 1];
    var ret;
    ret, wire := DoSend(b, file, dataIo, fileIo);
  }
}
