/** The incremental digest and the keyed digests of lib/md5.c, on a little-endian machine. */
module Md5 {
  import opened Basics
  import opened Bytes
  import opened Md5Spec
  import opened Md5Transform

  // The number of message bytes that wait for their block to fill up.
  function Tail(n: nat): (t: nat)
    ensures t < 64
  {
    n % 64
  }

  lemma AbsorbBlock(s: Words, m: seq<byte>, block: seq<byte>)
    requires |m| % 64 == 0 && |block| == 64
    ensures |m + block| % 64 == 0
    ensures Absorb(s, m + block) == Compress(Absorb(s, m), WordsOf(block))
  {
    assert (m + block)[..|m|] == m && (m + block)[|m|..] == block;
    hide WordsOf, Compress;
  }

  // The pair of 32-bit words with its manual carry is a 64-bit counter.
  function CountLow(low: nat, len: nat): nat { (low + len * 8 % WORD) % WORD }

  function CountHigh(low: nat, high: nat, len: nat): nat
  {
    var carried := if CountLow(low, len) < low then (high + 1) % WORD else high;
    (carried + len / 0x2000_0000) % WORD
  }

  lemma Remainder(x: nat, y: int, q: int)
    requires x < DWORD && y == x + q * DWORD
    ensures y % DWORD == x
  {
  }

  lemma LengthInWords(len: nat)
    requires len < WORD
    ensures 8 * len == len / 0x2000_0000 * WORD + len * 8 % WORD
  {
  }

  lemma HighWord(high: nat, carry: nat, hi: nat) returns (laps: nat)
    requires high < WORD && carry <= 1 && hi < WORD
    ensures ((high + carry) % WORD + hi) % WORD == high + carry + hi - laps * WORD
  {
    laps := (if high + carry < WORD then 0 else 1) + (if (high + carry) % WORD + hi < WORD then 0 else 1);
  }

  lemma CountStep(low: nat, high: nat, len: nat)
    requires low < WORD && high < WORD
    ensures CountLow(low, len) == (low + len * 8 % WORD) % WORD
    ensures CountHigh(low, high, len) ==
      ((if CountLow(low, len) < low then (high + 1) % WORD else high) + len / 0x2000_0000) % WORD
  {
  }

  // The two additions with the carry between them add 8 * len, up to full laps of the counter.
  lemma CountAdds(low: nat, high: nat, len: nat) returns (laps: nat)
    requires low < WORD && high < WORD && len < WORD
    ensures CountLow(low, len) < WORD && CountHigh(low, high, len) < WORD
    ensures CountHigh(low, high, len) * WORD + CountLow(low, len) == high * WORD + low + 8 * len - laps * DWORD
  {
    hide CountLow, CountHigh;
    var lo, hi := len * 8 % WORD, len / 0x2000_0000;
    LengthInWords(len);
    CountStep(low, high, len);
    var carry := if low + lo < WORD then 0 else 1;
    assert CountLow(low, len) == low + lo - carry * WORD;
    laps := HighWord(high, carry, hi);
    assert CountHigh(low, high, len) == high + carry + hi - laps * WORD;
  }

  lemma CountIsExact(low: nat, high: nat, n: nat, len: nat)
    requires low < WORD && high < WORD && len < WORD
    requires high * WORD + low == 8 * n % DWORD
    ensures CountHigh(low, high, len) * WORD + CountLow(low, len) == 8 * (n + len) % DWORD
  {
    hide CountLow, CountHigh;
    var laps := CountAdds(low, high, len);
    var q := 8 * n / DWORD;
    Remainder(CountHigh(low, high, len) * WORD + CountLow(low, len), 8 * (n + len), q + laps);
  }

  lemma TailFromCount(low: nat, high: nat, n: nat)
    requires low < WORD && high * WORD + low == 8 * n % DWORD
    ensures low / 8 % 64 == n % 64
  {
    var laps := 8 * n / DWORD * WORD + high;
    assert low == 8 * (n - laps * 0x2000_0000);
    assert low / 8 == n - 64 * (laps * 0x80_0000);
    SameRemainder(n, laps * 0x80_0000);
  }

  lemma SameRemainder(n: int, q: int)
    ensures (n - 64 * q) % 64 == n % 64
  {
  }

  // The blocks of m that are complete.
  function Whole(m: seq<byte>): (w: seq<byte>)
    ensures |w| % 64 == 0 && |w| <= |m| && w == m[..|w|] && |m| - |w| == Tail(|m|)
  {
    m[..|m| - Tail(|m|)]
  }

  // Where the blocks of m + data end, when the bytes of data up to pos have been consumed.
  lemma WholeAfter(m: seq<byte>, data: seq<byte>, pos: nat)
    requires pos <= |data| < pos + 64 && (|m| + pos) % 64 == 0
    ensures Whole(m + data) == (m + data)[..|m| + pos]
    ensures Tail(|m + data|) == |data| - pos && (m + data)[|m| + pos..] == data[pos..]
  {
  }

  lemma WholeUnchanged(m: seq<byte>, data: seq<byte>)
    requires Tail(|m|) + |data| < 64
    ensures Whole(m + data) == Whole(m)
    ensures Tail(|m + data|) == Tail(|m|) + |data|
    ensures (m + data)[|Whole(m)|..] == m[|Whole(m)|..] + data
  {
  }

  lemma FirstBlock(m: seq<byte>, data: seq<byte>, room: nat)
    requires room == 64 - Tail(|m|) <= |data|
    ensures (|m| + room) % 64 == 0
    ensures Whole(m) + (m[|Whole(m)|..] + data[..room]) == (m + data)[..|m| + room]
  {
  }

  lemma NothingWaits(m: seq<byte>, data: seq<byte>)
    requires Tail(|m|) == 0
    ensures |m| % 64 == 0 && Whole(m) == (m + data)[..|m|]
  {
  }

  lemma NextBlock(m: seq<byte>, data: seq<byte>, pos: nat)
    requires pos + 64 <= |data| && (|m| + pos) % 64 == 0
    ensures |(m + data)[..|m| + pos]| % 64 == 0
    ensures (|m| + (pos + 64)) % 64 == 0
    ensures (m + data)[..|m| + pos] + data[pos..pos + 64] == (m + data)[..|m| + (pos + 64)]
  {
  }

  lemma TailIs(n: nat)
    ensures Tail(n) == n % 64
  {
  }

  lemma CountBytes(low: nat, high: nat)
    requires low < WORD && high < WORD
    ensures Le64(high * WORD + low) == Le32(low) + Le32(high)
  {
    hide Le32;
    assert (high * WORD + low) % WORD == low && (high * WORD + low) / WORD == high;
  }

  // Padding that ends in the block of the last message byte.
  lemma PadOne(m: seq<byte>)
    requires Tail(|m|) < 56
    ensures Padded(m) == Whole(m) + (m[|Whole(m)|..] + [0x80] + Zeros(55 - Tail(|m|)) + Le64(BitCount(m)))
  {
    hide Le64, BitCount;
    assert m == Whole(m) + m[|Whole(m)|..];
    assert (55 - |m|) % 64 == 55 - Tail(|m|);
  }

  // Padding that needs one block more.
  lemma PadTwo(m: seq<byte>)
    requires 56 <= Tail(|m|)
    ensures Padded(m) == Whole(m) + (m[|Whole(m)|..] + [0x80] + Zeros(63 - Tail(|m|))) + (Zeros(56) + Le64(BitCount(m)))
  {
    hide Le64, BitCount;
    assert m == Whole(m) + m[|Whole(m)|..];
    assert (55 - |m|) % 64 == 119 - Tail(|m|);
    assert Zeros(119 - Tail(|m|)) == Zeros(63 - Tail(|m|)) + Zeros(56);
  }

  function LastWords(c: bv32, d: bv32): seq<byte> { Le32(c as nat) + Le32(d as nat) }

  lemma SecondHalf(s: Words)
    ensures Output(s)[8..] == LastWords(s.c, s.d)
  {
    hide Le32;
  }

  class Md5Context {
    const buf: array<bv32>
    var bits0: nat
    var bits1: nat
    const inp: array<byte>

    ghost var message: seq<byte>  // what has been passed to Update since Init

    ghost predicate Ready()
      reads this
    {
      buf.Length == 4 && inp.Length == 64 && bits0 < WORD && bits1 < WORD
    }

    ghost predicate Valid()
      reads this, buf, inp
    {
      && Ready()
      && bits1 * WORD + bits0 == BitCount(message)
      && Registers(buf) == Absorb(INIT, Whole(message))
      && inp[..Tail(|message|)] == message[|Whole(message)|..]
    }

    constructor ()
      ensures Ready() && fresh(buf) && fresh(inp)
    {
      buf := new bv32[4];
      inp := new byte[64];
      bits0, bits1, message := 0, 0, [];
    }

    method Init()
      requires Ready()
      modifies this, buf
      ensures Valid() && Ready() && message == []
    {
      buf[0] := 0x67452301;
      buf[1] := 0xefcdab89;
      buf[2] := 0x98badcfe;
      buf[3] := 0x10325476;
      bits0, bits1, message := 0, 0, [];
    }

    // memcpy into the partial block.
    method Copy(at: nat, data: seq<byte>)
      requires inp.Length == 64 && at + |data| <= 64
      modifies inp
      ensures inp[..] == old(inp[..at]) + data + old(inp[at + |data|..])
    {
      forall i | 0 <= i < |data| {
        inp[at + i] := data[i];
      }
    }

    // A full partial block is folded into the registers.
    method Fold(ghost before: seq<byte>)
      requires Ready() && |before| % 64 == 0
      requires Registers(buf) == Absorb(INIT, before)
      modifies buf
      ensures |before + inp[..]| % 64 == 0
      ensures Registers(buf) == Absorb(INIT, before + inp[..])
    {
      hide Absorb, Compress, WordsOf;
      AbsorbBlock(INIT, before, inp[..]);
      Transform(buf, WordsOf(inp[..]));
    }

    // The bit count, and the bytes that were already waiting.
    method Count(len: nat, ghost n: nat) returns (t: nat)
      requires bits0 < WORD && bits1 < WORD && len < WORD
      requires bits1 * WORD + bits0 == 8 * n % DWORD
      modifies this`bits0, this`bits1
      ensures bits0 < WORD && bits1 < WORD
      ensures bits1 * WORD + bits0 == 8 * (n + len) % DWORD
      ensures t == Tail(n)
    {
      hide CountLow, CountHigh;
      CountIsExact(bits0, bits1, n, len);
      TailFromCount(bits0, bits1, n);
      CountStep(bits0, bits1, len);
      t := bits0;
      bits0 := (t + len * 8 % WORD) % WORD;
      if bits0 < t {
        bits1 := (bits1 + 1) % WORD;
      }
      bits1 := (bits1 + len / 0x2000_0000) % WORD;
      t := t / 8 % 64;
    }

    // The odd-sized leading chunk; true when data ends inside the waiting block.
    method FillBlock(t: nat, data: seq<byte>, ghost m: seq<byte>) returns (short: bool, pos: nat)
      requires Ready() && t == Tail(|m|)
      requires Registers(buf) == Absorb(INIT, Whole(m)) && inp[..t] == m[|Whole(m)|..]
      modifies buf, inp
      ensures short ==> Registers(buf) == Absorb(INIT, Whole(m + data))
      ensures short ==> inp[..Tail(|m + data|)] == (m + data)[|Whole(m + data)|..]
      ensures !short ==> pos <= |data| && (|m| + pos) % 64 == 0
      ensures !short ==> Registers(buf) == Absorb(INIT, (m + data)[..|m| + pos])
    {
      hide Absorb, Compress, WordsOf, Whole, Tail;
      if t == 0 {
        NothingWaits(m, data);
        return false, 0;
      }
      var room := 64 - t;
      if |data| < room {
        WholeUnchanged(m, data);
        Copy(t, data);
        return true, 0;
      }
      Copy(t, data[..room]);
      assert inp[..] == m[|Whole(m)|..] + data[..room];
      Fold(Whole(m));
      FirstBlock(m, data, room);
      return false, room;
    }

    method FoldBlocks(data: seq<byte>, start: nat, ghost m: seq<byte>) returns (pos: nat)
      requires Ready() && start <= |data| && (|m| + start) % 64 == 0
      requires Registers(buf) == Absorb(INIT, (m + data)[..|m| + start])
      modifies buf, inp
      ensures pos <= |data| < pos + 64 && (|m| + pos) % 64 == 0
      ensures Registers(buf) == Absorb(INIT, (m + data)[..|m| + pos])
    {
      hide Absorb, Compress, WordsOf;
      pos := start;
      while |data| - pos >= 64
        invariant pos <= |data| && (|m| + pos) % 64 == 0
        invariant Registers(buf) == Absorb(INIT, (m + data)[..|m| + pos])
      {
        NextBlock(m, data, pos);
        Copy(0, data[pos..pos + 64]);
        assert inp[..] == data[pos..pos + 64];
        Fold((m + data)[..|m| + pos]);
        pos := pos + 64;
      }
    }

    method Update(data: seq<byte>)
      requires Valid() && |data| < WORD
      modifies this`bits0, this`bits1, this`message, buf, inp
      ensures Valid() && Ready() && message == old(message) + data
    {
      hide Absorb, Compress, WordsOf, Whole, Tail;
      ghost var m := message;
      var t := Count(|data|, |m|);
      message := message + data;
      var short, pos := FillBlock(t, data, m);
      if short {
        return;
      }
      pos := FoldBlocks(data, pos, m);
      WholeAfter(m, data, pos);
      Copy(0, data[pos..]);
    }

    // The padding up to byte 56 of the last block; a block without room for the count is folded.
    method PadTo56(ghost m: seq<byte>) returns (ghost before: seq<byte>)
      requires Valid() && m == message
      modifies buf, inp
      ensures |before| % 64 == 0 && Registers(buf) == Absorb(INIT, before)
      ensures Padded(m) == before + (inp[..56] + Le64(BitCount(m)))
    {
      hide Absorb, Compress, WordsOf, Whole, Tail, Le64, Zeros;
      before := Whole(m);
      TailFromCount(bits0, bits1, |m|);
      TailIs(|m|);
      var count := bits0 / 8 % 64;
      Copy(count, [0x80]);
      var used := count + 1;
      count := 64 - 1 - count;
      if count < 8 {
        Copy(used, Zeros(count));
        assert inp[..] == m[|Whole(m)|..] + [0x80] + Zeros(count);
        Fold(before);
        PadTwo(m);
        before := before + inp[..];
        Copy(0, Zeros(56));
        assert inp[..56] == Zeros(56);
      } else {
        PadOne(m);
        Copy(used, Zeros(count - 8));
        assert inp[..56] == m[|Whole(m)|..] + [0x80] + Zeros(count - 8);
      }
    }

    // Only eight bytes of the context are cleared at the end, because sizeof is taken of the
    // pointer: half of the digest stays behind.
    method Final() returns (digest: seq<byte>)
      requires Valid()
      modifies buf, inp
      ensures Ready() && digest == Digest(message)
      ensures buf[0] == 0 && buf[1] == 0 && digest[8..] == LastWords(buf[2], buf[3])
    {
      hide Absorb, Compress, WordsOf, Output, LastWords, Le64, Le32, BitCount, Padded;
      CountBytes(bits0, bits1);
      ghost var before := PadTo56(message);
      ghost var head := inp[..56];
      Copy(56, Le32(bits0));
      Copy(60, Le32(bits1));
      assert inp[..] == head + Le64(BitCount(message));
      Fold(before);
      digest := Output(Words(buf[0], buf[1], buf[2], buf[3]));
      SecondHalf(Words(buf[0], buf[1], buf[2], buf[3]));
      buf[0] := 0;
      buf[1] := 0;
    }
  }

  method MD5Digest(msg: seq<byte>) returns (digest: seq<byte>)
    requires |msg| < WORD
    ensures digest == Digest(msg)
  {
    hide Md5Context.Valid, Md5Context.Ready, Digest;
    var ctx := new Md5Context();
    ctx.Init();
    ctx.Update(msg);
    assert ctx.message == msg;
    digest := ctx.Final();
  }

  // However a message is cut into Update calls, the digest is that of the concatenation.
  method DigestOfPieces(pieces: seq<seq<byte>>) returns (digest: seq<byte>)
    requires forall i :: 0 <= i < |pieces| ==> |pieces[i]| < WORD
    ensures digest == Digest(Concat(pieces))
  {
    hide Md5Context.Valid, Md5Context.Ready, Digest;
    var ctx := new Md5Context();
    ctx.Init();
    for i := 0 to |pieces|
      invariant fresh(ctx) && fresh(ctx.buf) && fresh(ctx.inp)
      invariant ctx.Valid() && ctx.message == Concat(pieces[..i])
    {
      assert pieces[..i + 1][..i] == pieces[..i];
      ctx.Update(pieces[i]);
    }
    assert pieces[..|pieces|] == pieces;
    digest := ctx.Final();
  }

  // The key block with every byte combined with y, as the loop over ipad and opad leaves it.
  method XorPad(key: seq<byte>, y: byte) returns (pad: seq<byte>)
    requires |key| <= 64
    ensures pad == XorAll(key + Zeros(64 - |key|), y)
  {
    var a := new byte[64](_ => 0);
    forall i | 0 <= i < |key| {
      a[i] := key[i];
    }
    ghost var k := key + Zeros(64 - |key|);
    assert a[..] == k;
    for i := 0 to 64
      invariant forall j :: 0 <= j < i ==> a[j] == XorByte(k[j], y)
      invariant forall j :: i <= j < 64 ==> a[j] == k[j]
    {
      a[i] := XorByte(a[i], y);
    }
    pad := a[..];
  }

  method ShortKey(password: seq<byte>) returns (key: seq<byte>)
    requires |password| < WORD
    ensures |key| <= 64 && BlockKey(password) == key + Zeros(64 - |key|)
  {
    if |password| > 64 {
      key := MD5Digest(password);
    } else {
      key := password;
    }
  }

  method MD5HMAC(password: seq<byte>, challenge: seq<byte>) returns (response: seq<byte>)
    requires |password| < WORD && |challenge| < WORD
    ensures response == Hmac(password, challenge)
  {
    hide Md5Context.Valid, Md5Context.Ready, XorAll, BlockKey, Digest;
    var key := ShortKey(password);
    var ipad := XorPad(key, 0x36);
    var opad := XorPad(key, 0x5c);
    var ctx := new Md5Context();
    ctx.Init();
    ctx.Update(ipad);
    ctx.Update(challenge);
    assert ctx.message == ipad + challenge;
    response := ctx.Final();
    ctx.Init();
    ctx.Update(opad);
    ctx.Update(response);
    assert ctx.message == opad + response;
    response := ctx.Final();
  }

  method MD5HMAC2(password: seq<byte>, challenge: seq<byte>, challenge2: seq<byte>) returns (response: seq<byte>)
    requires |password| < WORD && |challenge| < WORD && |challenge2| < WORD
    ensures response == Hmac(password, challenge + challenge2)
  {
    hide Md5Context.Valid, Md5Context.Ready, XorAll, BlockKey, Digest;
    var key := ShortKey(password);
    var ipad := XorPad(key, 0x36);
    var opad := XorPad(key, 0x5c);
    var ctx := new Md5Context();
    ctx.Init();
    ctx.Update(ipad);
    ctx.Update(challenge);
    ctx.Update(challenge2);
    assert ctx.message == ipad + (challenge + challenge2);
    response := ctx.Final();
    ctx.Init();
    ctx.Update(opad);
    ctx.Update(response);
    assert ctx.message == opad + response;
    response := ctx.Final();
  }
}
