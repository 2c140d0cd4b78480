/** The voss receiver of network/voss: svc_recv and sub_recv take framed records out of a stream
    that arrives in arbitrary pieces and append the payloads of submitted records to a work file.

    The work file may be rotated between records; `output` is everything appended so far. How many
    bytes each write takes is an oracle; failing writes and refused logins are choices of the
    environment.
 */
module Voss {
  import opened Basics
  import opened Bytes
  import opened MyBuff
  import opened ProVoss

  const REQ_AUTH: nat := 1
  const REQ_SUBMIT: nat := 2
  const REQ_HEARTBEAT: nat := 5
  const RSP_VFS_CMD: nat := 0x8000_0008

  predicate IsControl(cmdid: nat) { cmdid == REQ_HEARTBEAT || cmdid == RSP_VFS_CMD || cmdid == REQ_AUTH }

  datatype Record = Record(cmdid: nat, seqno: nat, body: seq<byte>)

  // A record that a well-behaved peer sends: lengths are C ints on both sides.
  predicate Sendable(r: Record)
  {
    && (r.cmdid == REQ_SUBMIT || IsControl(r.cmdid))
    && r.seqno < WORD && HEADSIZE + |r.body| < 0x8000_0000
  }

  function Encoded(r: Record): (s: seq<byte>)
    requires Sendable(r)
    ensures |s| == HEADSIZE + |r.body|
  {
    Frame(r.cmdid, r.seqno, r.body)
  }

  predicate AllSendable(rs: seq<Record>)
  {
    forall i :: 0 <= i < |rs| ==> Sendable(rs[i])
  }

  function Stream(rs: seq<Record>): seq<byte>
    requires AllSendable(rs)
  {
    if rs == [] then [] else Encoded(rs[0]) + Stream(rs[1..])
  }

  function Payloads(rs: seq<Record>): seq<byte>
  {
    if rs == [] then [] else (if rs[0].cmdid == REQ_SUBMIT then rs[0].body else []) + Payloads(rs[1..])
  }

  // Buffered and future bytes are the remaining payload and the remaining records; the output so
  // far followed by what they carry is what has to come out.
  ghost predicate Balanced(buffered: seq<byte>, future: seq<byte>, left: seq<byte>, rest: seq<Record>,
                           output: seq<byte>, target: seq<byte>)
    requires AllSendable(rest)
  {
    buffered + future == left + Stream(rest) && output + left + Payloads(rest) == target
  }

  // The first n buffered bytes are the first n of the payload that is still missing.
  lemma Delivered(buffered: seq<byte>, future: seq<byte>, left: seq<byte>, rest: seq<Record>,
                  output: seq<byte>, target: seq<byte>, n: nat)
    requires AllSendable(rest) && Balanced(buffered, future, left, rest, output, target)
    requires n <= |buffered| && n <= |left|
    ensures Balanced(buffered[n..], future, left[n..], rest, output + buffered[..n], target)
  {
    hide AllSendable, Stream, Payloads;
    assert buffered[..n] == (buffered + future)[..n] == left[..n];
    assert buffered[n..] + future == (buffered + future)[n..] == left[n..] + Stream(rest);
    assert left == left[..n] + left[n..];
  }

  // What is buffered between records starts with a header, or is too short to.
  lemma NextHeader(buffered: seq<byte>, future: seq<byte>, rest: seq<Record>, output: seq<byte>, target: seq<byte>)
    requires AllSendable(rest) && Balanced(buffered, future, [], rest, output, target)
    ensures rest == [] ==> buffered == [] && future == []
    ensures rest != [] ==> Sendable(rest[0]) && AllSendable(rest[1..])
    ensures rest != [] ==> Parse(buffered) == if |buffered| < HEADSIZE then NotSufficient
                           else Parsed(Head(HEADSIZE + |rest[0].body|, rest[0].cmdid, rest[0].seqno))
    ensures rest != [] && future == [] ==> |buffered| >= HEADSIZE + |rest[0].body|
  {
    if rest != [] {
      var r := rest[0];
      assert buffered + future == Encoded(r) + Stream(rest[1..]);
      ParseFrame(r.cmdid, r.seqno, r.body, buffered, future, Stream(rest[1..]));
    }
  }

  // Consuming a whole control record.
  lemma ControlTaken(buffered: seq<byte>, future: seq<byte>, rest: seq<Record>, output: seq<byte>, target: seq<byte>)
    requires AllSendable(rest) && Balanced(buffered, future, [], rest, output, target)
    requires rest != [] && rest[0].cmdid != REQ_SUBMIT && |buffered| >= HEADSIZE + |rest[0].body|
    ensures AllSendable(rest[1..])
    ensures Balanced(buffered[HEADSIZE + |rest[0].body|..], future, [], rest[1..], output, target)
  {
    HeadOfStream(rest);
    HeadOfPayloads(rest);
    hide Encoded, Stream, Payloads;
    var n := HEADSIZE + |rest[0].body|;
    assert buffered[n..] + future == (buffered + future)[n..];
    assert (buffered + future)[n..] == Stream(rest[1..]);
  }

  // Consuming the header of a submitted record: its body is what is left to deliver.
  lemma HeaderTaken(buffered: seq<byte>, future: seq<byte>, rest: seq<Record>, output: seq<byte>, target: seq<byte>)
    requires AllSendable(rest) && Balanced(buffered, future, [], rest, output, target)
    requires rest != [] && rest[0].cmdid == REQ_SUBMIT && |buffered| >= HEADSIZE
    ensures AllSendable(rest[1..])
    ensures Balanced(buffered[HEADSIZE..], future, rest[0].body, rest[1..], output, target)
  {
    HeadOfStream(rest);
    HeadOfPayloads(rest);
    EncodedBody(rest[0]);
    hide Encoded, Stream, Payloads;
    assert buffered[HEADSIZE..] + future == (buffered + future)[HEADSIZE..];
    assert (buffered + future)[HEADSIZE..] == rest[0].body + Stream(rest[1..]);
    assert output + [] + Payloads(rest) == output + rest[0].body + Payloads(rest[1..]);
  }

  lemma EncodedBody(r: Record)
    requires Sendable(r)
    ensures Encoded(r)[HEADSIZE..] == r.body
  {
    hide Be32;
  }

  lemma HeadOfStream(rest: seq<Record>)
    requires AllSendable(rest) && rest != []
    ensures AllSendable(rest[1..]) && Stream(rest) == Encoded(rest[0]) + Stream(rest[1..])
  {
  }

  lemma HeadOfPayloads(rest: seq<Record>)
    requires rest != []
    ensures Payloads(rest) == (if rest[0].cmdid == REQ_SUBMIT then rest[0].body else []) + Payloads(rest[1..])
  {
  }

  // The bytes that are buffered begin with what is missing.
  lemma SameFront(buffered: seq<byte>, future: seq<byte>, left: seq<byte>, rest: seq<Record>,
                  output: seq<byte>, target: seq<byte>, n: nat)
    requires AllSendable(rest) && Balanced(buffered, future, left, rest, output, target)
    requires n <= |buffered| && n <= |left|
    ensures buffered[..n] == left[..n]
  {
    hide AllSendable, Stream, Payloads;
    assert buffered[..n] == (buffered + future)[..n] == left[..n];
  }

  /* ---------- what a receiver that is not closed does, as a function ---------- */

  // What has been written, what the record being received still has to deliver, the records after
  // it, whether a record is being received, what is buffered, how many writes this arrival has seen
  // and whether the last of them took less than it was offered.
  datatype Reception = Reception(output: seq<byte>, left: seq<byte>, rest: seq<Record>, syncing: bool,
                                 buffered: seq<byte>, writes: nat, short: bool)

  function Offered(s: Reception): nat
  {
    Min(|s.buffered|, |s.left|)
  }

  // One write, which takes at most m bytes.
  function Written(s: Reception, m: nat): Reception
  {
    var n := Min(m, Offered(s));
    s.(output := s.output + s.buffered[..n], left := s.left[n..], buffered := s.buffered[n..],
       writes := s.writes + 1, short := n < Offered(s))
  }

  // The header of a submitted record is gone, its body is what is to be delivered.
  function Opened(s: Reception): Reception
    requires s.rest != [] && |s.buffered| >= HEADSIZE
  {
    s.(syncing := true, left := s.rest[0].body, rest := s.rest[1..], buffered := s.buffered[HEADSIZE..])
  }

  function Skipped(s: Reception): Reception
    requires s.rest != [] && |s.buffered| >= HEADSIZE + |s.rest[0].body|
  {
    s.(rest := s.rest[1..], buffered := s.buffered[HEADSIZE + |s.rest[0].body|..])
  }

  // svc_recv: write and take requests until a record goes on or the next request is not there; the
  // k-th write takes at most takes(k) bytes.
  function Drain(s: Reception, takes: nat -> nat): Reception
    decreases |s.rest|, s.syncing
  {
    if s.syncing then
      if s.buffered == [] then s.(short := false)
      else
        var s' := Written(s, takes(s.writes));
        if s'.left == [] then Drain(s'.(syncing := false), takes) else s'
    else if s.rest == [] || |s.buffered| < HEADSIZE then s
    else if s.rest[0].cmdid == REQ_SUBMIT then Drain(Opened(s), takes)
    else if |s.buffered| < HEADSIZE + |s.rest[0].body| then s
    else Drain(Skipped(s), takes)
  }

  lemma DrainWrites(s: Reception, takes: nat -> nat)
    requires s.syncing
    ensures Drain(s, takes) ==
      if s.buffered == [] then s.(short := false)
      else
        var s' := Written(s, takes(s.writes));
        if s'.left == [] then Drain(s'.(syncing := false), takes) else s'
  {
    hide Written;
  }

  // A write that takes less than is there for the record moves exactly what it takes, and is the last.
  lemma ShortWriteMoves(s: Reception, takes: nat -> nat)
    requires s.syncing && takes(s.writes) < |s.left| && takes(s.writes) < |s.buffered|
    ensures var r, n := Drain(s, takes), takes(s.writes);
            && r.output == s.output + s.buffered[..n] && r.buffered == s.buffered[n..]
            && r.left == s.left[n..] && r.rest == s.rest && r.syncing && r.short
  {
  }

  lemma DrainRequests(s: Reception, takes: nat -> nat)
    requires !s.syncing
    ensures Drain(s, takes) ==
      if s.rest == [] || |s.buffered| < HEADSIZE then s
      else if s.rest[0].cmdid == REQ_SUBMIT then Drain(Opened(s), takes)
      else if |s.buffered| < HEADSIZE + |s.rest[0].body| then s
      else Drain(Skipped(s), takes)
  {
    hide Opened, Skipped;
  }

  function Arriving(s: Reception, piece: seq<byte>): Reception
  {
    s.(buffered := s.buffered + piece, writes := 0, short := false)
  }

  function Fresh(records: seq<Record>): Reception
  {
    Reception([], [], records, false, [], 0, false)
  }

  // The state after these arrivals; the k-th write of the i-th arrival takes at most takes(i)(k) bytes.
  function AfterArrivals(records: seq<Record>, pieces: seq<seq<byte>>, takes: nat -> nat -> nat): Reception
  {
    if pieces == [] then Fresh(records)
    else
      var last := |pieces| - 1;
      Drain(Arriving(AfterArrivals(records, pieces[..last], takes), pieces[last]), takes(last))
  }

  // Writes that take whatever they are offered.
  ghost predicate Ample(takes: nat -> nat)
  {
    forall k: nat :: takes(k) >= 0x8000_0000
  }

  lemma TakesAll(takes: nat -> nat, k: nat)
    ensures Ample(takes) ==> takes(k) >= 0x8000_0000
  {
  }

  // Nothing is lost or added, and bodies are below 2^31 bytes.
  ghost predicate Coherent(s: Reception, future: seq<byte>, target: seq<byte>)
  {
    && AllSendable(s.rest) && Balanced(s.buffered, future, s.left, s.rest, s.output, target)
    && (!s.syncing ==> s.left == [])
    && |s.left| < 0x8000_0000
  }

  // A state in which svc_recv has come to rest: a write was short exactly when a record goes on with
  // bytes in the buffer, and between records no whole request is left.
  ghost predicate Resting(s: Reception, future: seq<byte>)
  {
    && (s.short <==> s.syncing && s.buffered != [])
    && (s.syncing && s.buffered != [] ==> s.left != [])
    && (!s.syncing && future == [] ==> s.rest == [] && s.buffered == [])
  }

  lemma WrittenIsCoherent(s: Reception, m: nat, future: seq<byte>, target: seq<byte>)
    requires Coherent(s, future, target) && s.syncing
    ensures Coherent(Written(s, m), future, target)
    ensures Written(s, m).short ==> Written(s, m).left != [] && Written(s, m).buffered != []
    ensures !Written(s, m).short && Written(s, m).left != [] ==> Written(s, m).buffered == []
    ensures m >= 0x8000_0000 ==> !Written(s, m).short
  {
    hide Balanced, AllSendable;
    Delivered(s.buffered, future, s.left, s.rest, s.output, target, Min(m, Offered(s)));
  }

  lemma OpenedIsCoherent(s: Reception, future: seq<byte>, target: seq<byte>)
    requires Coherent(s, future, target) && !s.syncing && s.rest != [] && |s.buffered| >= HEADSIZE
    requires s.rest[0].cmdid == REQ_SUBMIT
    ensures Coherent(Opened(s), future, target)
  {
    hide Balanced, AllSendable;
    HeaderTaken(s.buffered, future, s.rest, s.output, target);
    ShortEnough(s.rest);
  }

  lemma SkippedIsCoherent(s: Reception, future: seq<byte>, target: seq<byte>)
    requires Coherent(s, future, target) && !s.syncing && s.rest != []
    requires s.rest[0].cmdid != REQ_SUBMIT && |s.buffered| >= HEADSIZE + |s.rest[0].body|
    ensures Coherent(Skipped(s), future, target)
  {
    hide Balanced, AllSendable;
    ControlTaken(s.buffered, future, s.rest, s.output, target);
  }

  lemma {:induction false} DrainRests(s: Reception, takes: nat -> nat, future: seq<byte>, target: seq<byte>)
    requires Coherent(s, future, target) && !s.short
    ensures Coherent(Drain(s, takes), future, target) && Resting(Drain(s, takes), future)
    ensures Ample(takes) ==> !Drain(s, takes).short
    decreases |s.rest|, s.syncing
  {
    hide Balanced, AllSendable, Written, Opened, Skipped, Ample;
    if s.syncing {
      if s.buffered != [] {
        TakesAll(takes, s.writes);
        WrittenIsCoherent(s, takes(s.writes), future, target);
        WrittenKeeps(s, takes(s.writes));
        var s' := Written(s, takes(s.writes));
        if s'.left == [] {
          DrainRests(s'.(syncing := false), takes, future, target);
        }
      }
    } else {
      NextHeader(s.buffered, future, s.rest, s.output, target);
      if s.rest != [] && |s.buffered| >= HEADSIZE {
        if s.rest[0].cmdid == REQ_SUBMIT {
          OpenedIsCoherent(s, future, target);
          OpenedKeeps(s);
          DrainRests(Opened(s), takes, future, target);
        } else if |s.buffered| >= HEADSIZE + |s.rest[0].body| {
          SkippedIsCoherent(s, future, target);
          SkippedKeeps(s);
          DrainRests(Skipped(s), takes, future, target);
        }
      }
    }
  }

  lemma WrittenShrinks(s: Reception, m: nat)
    ensures |Written(s, m).buffered| <= |s.buffered|
    ensures s.left == [] ==> Written(s, m).left == []
  {
  }

  lemma WrittenKeeps(s: Reception, m: nat)
    ensures Written(s, m).rest == s.rest && Written(s, m).syncing == s.syncing
  {
  }

  lemma OpenedKeeps(s: Reception)
    requires s.rest != [] && |s.buffered| >= HEADSIZE
    ensures Opened(s).rest == s.rest[1..] && Opened(s).syncing && Opened(s).short == s.short
  {
  }

  lemma SkippedKeeps(s: Reception)
    requires s.rest != [] && |s.buffered| >= HEADSIZE + |s.rest[0].body|
    ensures Skipped(s).rest == s.rest[1..] && Skipped(s).syncing == s.syncing && Skipped(s).short == s.short
  {
  }

  lemma {:induction false} ArrivalsRest(records: seq<Record>, pieces: seq<seq<byte>>, takes: nat -> nat -> nat, future: seq<byte>)
    requires AllSendable(records) && Concat(pieces) + future == Stream(records)
    ensures Coherent(AfterArrivals(records, pieces, takes), future, Payloads(records))
    ensures pieces != [] ==> Resting(AfterArrivals(records, pieces, takes), future)
    ensures pieces != [] && Ample(takes(|pieces| - 1)) ==> !AfterArrivals(records, pieces, takes).short
    decreases |pieces|
  {
    hide AllSendable, Stream, Payloads, Drain, Ample;
    if pieces == [] {
      assert [] + future == Stream(records);
    } else {
      var last := |pieces| - 1;
      assert Concat(pieces) + future == Concat(pieces[..last]) + (pieces[last] + future);
      ArrivalsRest(records, pieces[..last], takes, pieces[last] + future);
      var s := AfterArrivals(records, pieces[..last], takes);
      Arrived(s.buffered, pieces[last], pieces[last] + future, s.left, s.rest, s.output, Payloads(records));
      assert (pieces[last] + future)[|pieces[last]|..] == future;
      DrainRests(Arriving(s, pieces[last]), takes(last), future, Payloads(records));
    }
  }

  // Once everything has arrived the output is complete exactly when the last write of the last
  // arrival was not short; what the writes of earlier arrivals took does not matter.
  lemma ShortIsExact(records: seq<Record>, pieces: seq<seq<byte>>, takes: nat -> nat -> nat)
    requires AllSendable(records) && Concat(pieces) == Stream(records) && pieces != []
    ensures var s := AfterArrivals(records, pieces, takes);
            && s.output <= Payloads(records)
            && (s.output == Payloads(records) <==> !s.short)
            && (s.short <==> s.buffered != [])
            && (Ample(takes(|pieces| - 1)) ==> !s.short)
  {
    hide AllSendable, AfterArrivals, Ample;
    assert Concat(pieces) + [] == Stream(records);
    ArrivalsRest(records, pieces, takes, []);
  }

  datatype Ret = NoRequest | Handled | AddEpollIn | AddEpollOut | Close

  class Peer {
    const recvBuff: MyBuff
    const healthy: bool       // no open or write fails, no login is refused
    var takes: nat -> nat     // the k-th write of an arrival takes at most takes(k) bytes
    var writes: nat
    var short: bool           // the last write took less than it was offered
    var syncing: bool  // sock_stat is SYNCFILEING rather than IDLE
    var datalen: nat
    var recvlen: nat
    var output: seq<byte>

    ghost var left: seq<byte>     // what the record being received still has to deliver
    ghost var rest: seq<Record>   // the records after it
    ghost var future: seq<byte>   // what has not arrived
    ghost var target: seq<byte>   // what the output has to become

    ghost predicate Valid()
      reads this, recvBuff, recvBuff.data
    {
      && recvBuff.Valid() && AllSendable(rest)
      && Balanced(recvBuff.Contents(), future, left, rest, output, target)
      && (if syncing then recvlen <= datalen && |left| == datalen - recvlen else left == [])
      && (syncing && left == [] ==> datalen == 0)
      && (syncing ==> datalen < 0x8000_0000)
    }

    ghost function Now(): Reception
      reads this, recvBuff, recvBuff.data
      requires recvBuff.Valid()
    {
      Reception(output, left, rest, syncing, recvBuff.Contents(), writes, short)
    }

    constructor (initSize: nat, healthy: bool, ghost records: seq<Record>)
      requires initSize > 0 && AllSendable(records)
      ensures Valid() && !syncing && output == [] && recvBuff.Contents() == []
      ensures future == Stream(records) && target == Payloads(records) && rest == records
      ensures this.healthy == healthy && Now() == Fresh(records)
      ensures fresh(recvBuff) && recvBuff.data == null
    {
      recvBuff := new MyBuff(initSize);
      this.healthy, takes, writes, short := healthy, _ => 0, 0, false;
      syncing, datalen, recvlen, output := false, 0, 0, [];
      left, rest, future, target := [], records, Stream(records), Payloads(records);
    }

    // A write that took n bytes.
    method Deliver(data: seq<byte>, n: nat)
      requires Valid() && syncing && data == recvBuff.Contents() && n <= |data| && n <= |left|
      modifies this`recvlen, this`output, this`left, recvBuff`len, recvBuff.data
      ensures recvBuff.Valid() && AllSendable(rest)
      ensures Balanced(recvBuff.Contents(), future, left, rest, output, target)
      ensures recvBuff.Contents() == data[n..] && left == old(left)[n..] && recvlen == old(recvlen) + n
      ensures output == old(output) + data[..n]
    {
      hide MyBuff.Valid, MyBuff.Contents, Balanced, AllSendable;
      Delivered(data, future, left, rest, output, target, n);
      output := output + data[..n];
      recvBuff.SkipData(n);
      recvlen := recvlen + n;
      left := left[n..];
    }

    // One write of what is buffered of the current record.
    method WriteSome(data: seq<byte>) returns (ret: Ret)
      requires Valid() && syncing && data == recvBuff.Contents() && data != []
      modifies this`syncing, this`recvlen, this`output, this`left, this`writes, this`short, recvBuff`len, recvBuff.data
      ensures Valid() && ret in {AddEpollIn, AddEpollOut, Close}
      ensures ret == Close ==> !healthy && Now() == old(Now())
      ensures var s := Written(old(Now()), takes(old(writes)));
              && (ret == AddEpollIn ==> Now() == s && s.left != [])
              && (ret == AddEpollOut ==> Now() == s.(syncing := false) && s.left == [])
    {
      hide MyBuff.Valid, MyBuff.Contents, Balanced, AllSendable;
      var remain := datalen - recvlen;
      var offered := Min(|data|, remain);
      var failed: bool := *;
      if failed && !healthy {
        return Close;
      }
      var n := Min(takes(writes), offered);
      writes, short := writes + 1, n < offered;
      Deliver(data, n);
      if recvlen >= datalen {
        syncing := false;
        return AddEpollOut;
      }
      return AddEpollIn;
    }

    // sub_recv: nothing happens unless a record is being received and something is buffered. The
    // answer tells whether svc_recv goes on from here.
    method SubRecv() returns (ret: Ret)
      requires Valid()
      modifies this`syncing, this`recvlen, this`output, this`left, this`writes, this`short, recvBuff`len, recvBuff.data
      ensures Valid() && ret in {AddEpollIn, AddEpollOut, Close}
      ensures healthy ==> ret != Close
      ensures !old(syncing) ==> ret == AddEpollIn && Now() == old(Now())
      ensures old(syncing) && ret == AddEpollIn ==> Now() == Drain(old(Now()), takes) && syncing
      ensures old(syncing) && ret == AddEpollOut ==> Drain(Now(), takes) == Drain(old(Now()), takes) && !syncing
      ensures |recvBuff.Contents()| <= old(|recvBuff.Contents()|)
      ensures old(syncing && recvlen == datalen) && ret != Close ==> (syncing <==> old(recvBuff.Contents()) == [])
    {
      hide MyBuff.Valid, MyBuff.Contents, Balanced, AllSendable, Drain, Written;
      if syncing {
        DrainWrites(Now(), takes);
        WrittenShrinks(Now(), takes(writes));
        var ok, data := recvBuff.GetData();
        if !ok {
          short := false;
          return AddEpollIn;
        }
        ret := WriteSome(data);
        return;
      }
      return AddEpollIn;
    }

    // process_data_req: the header goes, the peer starts receiving the body. A record without a
    // body is left unfinished exactly when nothing is buffered behind its header.
    method ProcessDataReq(h: Head) returns (ret: Ret)
      requires Valid() && !syncing && rest != [] && rest[0].cmdid == REQ_SUBMIT
      requires |recvBuff.Contents()| >= HEADSIZE && h.totallen == HEADSIZE + |rest[0].body|
      modifies this`syncing, this`datalen, this`recvlen, this`output, this`left, this`rest, this`writes, this`short
      modifies recvBuff`len, recvBuff.data
      ensures Valid() && ret in {AddEpollIn, AddEpollOut, Close}
      ensures healthy ==> ret != Close
      ensures ret == AddEpollIn ==> Now() == Drain(old(Now()), takes) && syncing
      ensures ret == AddEpollOut ==> Drain(Now(), takes) == Drain(old(Now()), takes) && !syncing
      ensures ret == AddEpollOut ==> |recvBuff.Contents()| < old(|recvBuff.Contents()|)
      ensures h.totallen == HEADSIZE && ret != Close ==> (syncing <==> old(|recvBuff.Contents()|) == HEADSIZE)
    {
      hide MyBuff.Valid, MyBuff.Contents, Balanced, AllSendable, Drain;
      DrainRequests(Now(), takes);
      var openFails: bool := *;
      if openFails && !healthy {
        return Close;
      }
      HeaderTaken(recvBuff.Contents(), future, rest, output, target);
      ShortEnough(rest);
      syncing := true;
      datalen := h.totallen - HEADSIZE;
      recvlen := 0;
      recvBuff.SkipData(HEADSIZE);
      left, rest := rest[0].body, rest[1..];
      assert Now() == Opened(old(Now()));
      ret := SubRecv();
    }

    // check_req: one request, if its header (for a control record, all of it) is buffered.
    method CheckReq() returns (ret: Ret)
      requires Valid() && !syncing
      modifies this`syncing, this`datalen, this`recvlen, this`output, this`left, this`rest, this`writes, this`short
      modifies recvBuff`len, recvBuff.data
      ensures Valid()
      ensures healthy ==> ret != Close
      ensures ret in {NoRequest, AddEpollIn} ==> Now() == Drain(old(Now()), takes)
      ensures ret in {Handled, AddEpollOut} ==> Drain(Now(), takes) == Drain(old(Now()), takes) && !syncing
      ensures ret in {Handled, AddEpollOut} ==> |recvBuff.Contents()| < old(|recvBuff.Contents()|)
    {
      hide MyBuff.Valid, MyBuff.Contents, Balanced, AllSendable, Drain, Opened;
      DrainRequests(Now(), takes);
      NextHeader(recvBuff.Contents(), future, rest, output, target);
      var ok, data := recvBuff.GetData();
      if !ok {
        return NoRequest;
      }
      var parsed := Parse(data);
      if parsed == NotSufficient {
        return NoRequest;
      }
      var h := parsed.head;
      if IsControl(h.cmdid) {
        if |data| < h.totallen {
          return NoRequest;
        }
        if h.cmdid == REQ_AUTH {
          var refused: bool := *;
          if refused && !healthy {
            return Close;
          }
        }
        ControlTaken(data, future, rest, output, target);
        recvBuff.SkipData(h.totallen);
        rest := rest[1..];
        return Handled;
      } else if h.cmdid == REQ_SUBMIT {
        ret := ProcessDataReq(h);
      } else {
        return Close;
      }
    }

    // svc_recv: the current record first, then requests while there are any. Unless the connection
    // is closed, that is what Drain says.
    method SvcRecv() returns (ret: Ret)
      requires Valid()
      modifies this`syncing, this`datalen, this`recvlen, this`output, this`left, this`rest, this`writes, this`short
      modifies recvBuff`len, recvBuff.data
      ensures Valid() && ret in {AddEpollIn, Close}
      ensures healthy ==> ret != Close
      ensures ret != Close ==> Now() == Drain(old(Now()), takes)
    {
      hide MyBuff.Valid, MyBuff.Contents, Balanced, AllSendable, Drain;
      if syncing {
        ret := SubRecv();
        if ret == AddEpollIn || ret == Close {
          return;
        }
      }
      while true
        invariant Valid() && !syncing && Drain(Now(), takes) == Drain(old(Now()), takes)
        decreases |recvBuff.Contents()|
      {
        var sub := CheckReq();
        if sub == NoRequest {
          break;
        }
        if sub == Close || sub == AddEpollIn {
          return sub;
        }
      }
      ret := AddEpollIn;
    }
  }

  lemma ShortEnough(rest: seq<Record>)
    requires AllSendable(rest) && rest != []
    ensures |rest[0].body| < 0x8000_0000
  {
  }

  // However the stream of records is cut into arrivals and whatever the writes take: a connection
  // that is not closed ends up where the function says, and by ShortIsExact the work files hold all
  // the payloads exactly when the last write was not short. A closed one has written a prefix.
  method Receive(records: seq<Record>, pieces: seq<seq<byte>>, initSize: nat, healthy: bool, takes: nat -> nat -> nat)
      returns (output: seq<byte>, buffered: seq<byte>, closed: bool)
    requires initSize > 0 && AllSendable(records) && Concat(pieces) == Stream(records)
    ensures healthy ==> !closed
    ensures !closed ==> output == AfterArrivals(records, pieces, takes).output
    ensures !closed ==> buffered == AfterArrivals(records, pieces, takes).buffered
    ensures output <= Payloads(records)
    ensures !closed && pieces != [] ==> (output == Payloads(records) <==> !AfterArrivals(records, pieces, takes).short)
    ensures !closed && pieces != [] && Ample(takes(|pieces| - 1)) ==> output == Payloads(records)
  {
    hide MyBuff.Valid, MyBuff.Contents, Stream, Payloads, AllSendable, Ample, Drain;
    if pieces != [] { ShortIsExact(records, pieces, takes); }
    var peer := new Peer(initSize, healthy, records);
    assert pieces[0..] == pieces;
    for i := 0 to |pieces|
      invariant fresh(peer) && fresh(peer.recvBuff) && (peer.recvBuff.data != null ==> fresh(peer.recvBuff.data))
      invariant peer.healthy == healthy && peer.Valid() && peer.target == Payloads(records)
      invariant peer.future == Concat(pieces[i..])
      invariant peer.Now() == AfterArrivals(records, pieces[..i], takes)
    {
      ConcatFront(pieces, i);
      assert pieces[..i + 1][..i] == pieces[..i];
      var ret := Arrive(peer, pieces[i], takes(i));
      if ret == Close {
        return peer.output, [], true;
      }
    }
    assert pieces[..|pieces|] == pieces;
    var ok;
    ok, buffered := peer.recvBuff.GetData();
    output, closed := peer.output, false;
  }

  // do_recv: what arrived is queued and handed to svc_recv.
  method Arrive(peer: Peer, piece: seq<byte>, takes: nat -> nat) returns (ret: Ret)
    requires peer.Valid() && piece <= peer.future
    modifies peer, peer.recvBuff, peer.recvBuff.data
    ensures peer.Valid() && peer.target == old(peer.target) && ret in {AddEpollIn, Close}
    ensures peer.recvBuff.data == old(peer.recvBuff.data) || fresh(peer.recvBuff.data)
    ensures peer.future == old(peer.future)[|piece|..]
    ensures peer.healthy ==> ret != Close
    ensures ret != Close ==> peer.Now() == Drain(Arriving(old(peer.Now()), piece), takes)
  {
    hide MyBuff.Valid, MyBuff.Contents, AllSendable, Balanced, Drain;
    Arrived(peer.recvBuff.Contents(), piece, peer.future, peer.left, peer.rest, peer.output, peer.target);
    peer.recvBuff.SetData(piece);
    peer.future := peer.future[|piece|..];
    peer.takes, peer.writes, peer.short := takes, 0, false;
    ret := peer.SvcRecv();
  }

  const ONE_BYTE: nat -> nat -> nat := _ => _ => 1

  // One submitted record that arrives in one piece, with every write taking one byte.
  lemma OneByteWrites(body: seq<byte>)
    requires HEADSIZE + |body| < 0x8000_0000 && |body| != 1
    ensures var r := Record(REQ_SUBMIT, 1, body);
            && AllSendable([r]) && Concat([Encoded(r)]) == Stream([r]) && Payloads([r]) == body
            && AfterArrivals([r], [Encoded(r)], ONE_BYTE) ==
                 Reception(body[..Min(1, |body|)], body[Min(1, |body|)..], [], true, body[Min(1, |body|)..],
                           if body == [] then 0 else 1, body != [])
  {
    hide Frame, Be32;
    var r := Record(REQ_SUBMIT, 1, body);
    assert [r][1..] == [] && [Encoded(r)][..0] == [];
    EncodedBody(r);
    var s := Arriving(Fresh([r]), Encoded(r));
    assert [] + Encoded(r) == Encoded(r);
    hide Drain;
    DrainRequests(s, ONE_BYTE(0));
    var o := Opened(s);
    assert o == Reception([], body, [], true, body, 0, false);
    DrainWrites(o, ONE_BYTE(0));
    assert Min(1, Offered(o)) == Min(1, |body|);
  }

  // Its bytes on the wire: twelve in all, command 2, number 1.
  lemma TwelveBytes()
    ensures Encoded(Record(REQ_SUBMIT, 1, [])) == [0, 0, 0, 12, 0, 0, 0, 2, 0, 0, 0, 1]
  {
  }

  // A record of twelve bytes, that is with an empty body, leaves the peer in the middle of it.
  method EmptyBody() returns (output: seq<byte>, syncing: bool)
    ensures output == [] && syncing
  {
    hide AfterArrivals, Encoded, Stream, Payloads, Drain;
    var r := Record(REQ_SUBMIT, 1, []);
    OneByteWrites([]);
    output, syncing := ReceiveOne(r);
  }

  // A short write on the last arrival leaves payload in the buffer.
  method ShortWrite() returns (output: seq<byte>, buffered: seq<byte>, closed: bool)
    ensures output == [7] && buffered == [8] && !closed
  {
    hide AfterArrivals, Encoded, Stream, Payloads, Drain;
    var r := Record(REQ_SUBMIT, 1, [7, 8]);
    OneByteWrites([7, 8]);
    output, buffered, closed := Receive([r], [Encoded(r)], 1024, true, ONE_BYTE);
  }

  method ReceiveOne(r: Record) returns (output: seq<byte>, syncing: bool)
    requires Sendable(r) && AllSendable([r]) && Concat([Encoded(r)]) == Stream([r])
    ensures output == AfterArrivals([r], [Encoded(r)], ONE_BYTE).output
    ensures syncing == AfterArrivals([r], [Encoded(r)], ONE_BYTE).syncing
  {
    hide MyBuff.Valid, MyBuff.Contents, Encoded, Stream, Payloads, Drain;
    var peer := new Peer(1024, true, [r]);
    var ret := Arrive(peer, Encoded(r), ONE_BYTE(0));
    assert [Encoded(r)][..0] == [];
    output, syncing := peer.output, peer.syncing;
  }

  lemma Arrived(buffered: seq<byte>, piece: seq<byte>, future: seq<byte>, left: seq<byte>, rest: seq<Record>,
                output: seq<byte>, target: seq<byte>)
    requires AllSendable(rest) && Balanced(buffered, future, left, rest, output, target) && piece <= future
    ensures Balanced(buffered + piece, future[|piece|..], left, rest, output, target)
  {
    hide AllSendable, Stream, Payloads;
    assert future == piece + future[|piece|..];
  }

  lemma ConcatFront(pieces: seq<seq<byte>>, i: nat)
    requires i < |pieces|
    ensures Concat(pieces[i..]) == pieces[i] + Concat(pieces[i + 1..])
  {
    ConcatSplit(pieces[i..], 0);
    assert pieces[i..][1..] == pieces[i + 1..] && pieces[i..][..0] == [];
  }
}
