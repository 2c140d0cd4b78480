/** The record framing of lib/pro_voss.c: total length, command and sequence number, each a 32-bit
    big-endian word, then the body.
 */
module ProVoss {
  import opened Basics
  import opened Bytes

  const HEADSIZE: nat := 12

  datatype Head = Head(totallen: nat, cmdid: nat, seqno: nat)
  datatype Parsed = NotSufficient | Parsed(head: Head)

  function Be32(w: nat): (r: seq<byte>)
    requires w < WORD
    ensures |r| == 4
  {
    [w / 0x100_0000, w / 0x1_0000 % 0x100, w / 0x100 % 0x100, w % 0x100]
  }

  function FromBe32(r: seq<byte>): (w: nat)
    requires |r| == 4
    ensures w < WORD
  {
    var b0: int, b1: int, b2: int, b3: int := r[0], r[1], r[2], r[3];
    b0 * 0x100_0000 + b1 * 0x1_0000 + b2 * 0x100 + b3
  }

  lemma Be32RoundTrip(w: nat)
    requires w < WORD
    ensures FromBe32(Be32(w)) == w
  {
    var a := w / 0x100;
    var b := a / 0x100;
    var c := b / 0x100;
    Nested(w);
    assert Be32(w) == [c, b % 0x100, a % 0x100, w % 0x100];
    assert w == 0x100 * a + w % 0x100 && a == 0x100 * b + a % 0x100 && b == 0x100 * c + b % 0x100;
  }

  lemma Nested(w: nat)
    ensures w / 0x1_0000 == w / 0x100 / 0x100
    ensures w / 0x100_0000 == w / 0x100 / 0x100 / 0x100
  {
  }

  function Frame(cmdid: nat, seqno: nat, body: seq<byte>): (r: seq<byte>)
    requires cmdid < WORD && seqno < WORD && HEADSIZE + |body| < WORD
    ensures |r| == HEADSIZE + |body|
  {
    Be32(HEADSIZE + |body|) + Be32(cmdid) + Be32(seqno) + body
  }

  // The four bytes from `at` on as a number, high-order byte first.
  function Number(s: seq<byte>, at: nat): int
    requires at + 4 <= |s|
  {
    s[at] as int * 0x100_0000 + s[at + 1] as int * 0x1_0000 + s[at + 2] as int * 0x100 + s[at + 3] as int
  }

  // Which bytes of a record hold what: the length of it all, the command, the sequence number, the body.
  lemma FrameBytes(cmdid: nat, seqno: nat, body: seq<byte>)
    requires cmdid < WORD && seqno < WORD && HEADSIZE + |body| < WORD
    ensures var f := Frame(cmdid, seqno, body);
            && Number(f, 0) == 12 + |body| && Number(f, 4) == cmdid && Number(f, 8) == seqno && f[12..] == body
  {
    Be32Number(HEADSIZE + |body|);
    Be32Number(cmdid);
    Be32Number(seqno);
    hide Be32;
  }

  lemma Be32Number(w: nat)
    requires w < WORD
    ensures Number(Be32(w), 0) == w
  {
    Be32RoundTrip(w);
  }

  // parse_msg looks at the first HEADSIZE bytes only.
  function Parse(inbuf: seq<byte>): Parsed
  {
    if |inbuf| < HEADSIZE then NotSufficient
    else Parsed(Head(FromBe32(inbuf[..4]), FromBe32(inbuf[4..8]), FromBe32(inbuf[8..12])))
  }

  // Whatever follows on the stream, and however much of the body has arrived, the header of a
  // created message parses back.
  lemma ParseFrame(cmdid: nat, seqno: nat, body: seq<byte>, got: seq<byte>, more: seq<byte>, rest: seq<byte>)
    requires cmdid < WORD && seqno < WORD && HEADSIZE + |body| < WORD
    requires got + more == Frame(cmdid, seqno, body) + rest
    ensures Parse(got) == if |got| < HEADSIZE then NotSufficient else Parsed(Head(HEADSIZE + |body|, cmdid, seqno))
  {
    if |got| >= HEADSIZE {
      var frame := Frame(cmdid, seqno, body);
      hide Be32, FromBe32;
      assert got[..4] == (got + more)[..4] == frame[..4] == Be32(HEADSIZE + |body|);
      assert got[4..8] == (got + more)[4..8] == frame[4..8] == Be32(cmdid);
      assert got[8..12] == (got + more)[8..12] == frame[8..12] == Be32(seqno);
      Be32RoundTrip(HEADSIZE + |body|);
      Be32RoundTrip(cmdid);
      Be32RoundTrip(seqno);
    }
  }

  class Codec {
    var nextSeq: nat  // the static counter of getseq

    constructor ()
      ensures nextSeq == 1
    {
      nextSeq := 1;
    }

    method GetSeq() returns (seqno: nat)
      requires nextSeq < WORD
      modifies this
      ensures seqno == old(nextSeq) && nextSeq == (seqno + 1) % WORD
    {
      seqno := nextSeq;
      nextSeq := (nextSeq + 1) % WORD;
    }

    // Writing through the moving pointer p.
    method Put(outbuf: array<byte>, p: nat, bytes: seq<byte>) returns (p': nat)
      requires p + |bytes| <= outbuf.Length
      modifies outbuf
      ensures p' == p + |bytes|
      ensures outbuf[..] == old(outbuf[..p]) + bytes + old(outbuf[p + |bytes|..])
    {
      forall i | 0 <= i < |bytes| {
        outbuf[p + i] := bytes[i];
      }
      p' := p + |bytes|;
    }

    method CreateMsg(outbuf: array<byte>, cmdid: nat, body: seq<byte>) returns (outlen: nat)
      requires nextSeq < WORD && cmdid < WORD && HEADSIZE + |body| < WORD
      requires HEADSIZE + |body| <= outbuf.Length
      modifies this, outbuf
      ensures outlen == HEADSIZE + |body|
      ensures outbuf[..] == Frame(cmdid, old(nextSeq), body) + old(outbuf[outlen..])
      ensures nextSeq == (old(nextSeq) + 1) % WORD
    {
      hide Be32;
      ghost var before := outbuf[..];
      var seqno := GetSeq();
      var p := Put(outbuf, 0, Be32(HEADSIZE + |body|));
      assert outbuf[..] == Be32(HEADSIZE + |body|) + before[4..];
      p := Put(outbuf, p, Be32(cmdid));
      assert outbuf[..] == Be32(HEADSIZE + |body|) + Be32(cmdid) + before[8..];
      p := Put(outbuf, p, Be32(seqno));
      assert outbuf[..] == Be32(HEADSIZE + |body|) + Be32(cmdid) + Be32(seqno) + before[HEADSIZE..];
      outlen := HEADSIZE;
      if |body| == 0 {
        return;
      }
      p := Put(outbuf, p, body);
      outlen := |body| + HEADSIZE;
    }
  }
}
