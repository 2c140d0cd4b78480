/** Section 3 of RFC 1321: the message-digest algorithm, on byte strings. */
module Md5Spec {
  import opened Basics
  import opened Bytes

  // The four registers in the roles a, b, c, d of the next step.
  datatype Words = Words(a: bv32, b: bv32, c: bv32, d: bv32)

  function F(x: bv32, y: bv32, z: bv32): bv32 { (x & y) | (!x & z) }
  function G(x: bv32, y: bv32, z: bv32): bv32 { (x & z) | (y & !z) }
  function H(x: bv32, y: bv32, z: bv32): bv32 { x ^ y ^ z }
  function I(x: bv32, y: bv32, z: bv32): bv32 { y ^ (x | !z) }

  function RoundFunction(i: nat, x: bv32, y: bv32, z: bv32): bv32
  {
    if i < 16 then F(x, y, z) else if i < 32 then G(x, y, z) else if i < 48 then H(x, y, z) else I(x, y, z)
  }

  // The word of the block that step i uses.
  function Index(i: nat): (k: nat)
    ensures k < 16
  {
    if i < 16 then i else if i < 32 then (5 * i + 1) % 16 else if i < 48 then (3 * i + 5) % 16 else 7 * i % 16
  }

  function Shift(i: nat): (s: bv6)
    ensures s < 32
  {
    if i < 16 then (match i % 4 case 0 => 7 case 1 => 12 case 2 => 17 case _ => 22)
    else if i < 32 then (match i % 4 case 0 => 5 case 1 => 9 case 2 => 14 case _ => 20)
    else if i < 48 then (match i % 4 case 0 => 4 case 1 => 11 case 2 => 16 case _ => 23)
    else (match i % 4 case 0 => 6 case 1 => 10 case 2 => 15 case _ => 21)
  }

  // The integer part of 4294967296 * abs(sin(i + 1)).
  function T(i: nat): bv32
  {
    if i < 16 then T1(i) else if i < 32 then T2(i - 16) else if i < 48 then T3(i - 32) else T4(i - 48)
  }

  function T1(i: nat): bv32 {
    match i
    case 0 => 0xd76aa478 case 1 => 0xe8c7b756 case 2 => 0x242070db case 3 => 0xc1bdceee
    case 4 => 0xf57c0faf case 5 => 0x4787c62a case 6 => 0xa8304613 case 7 => 0xfd469501
    case 8 => 0x698098d8 case 9 => 0x8b44f7af case 10 => 0xffff5bb1 case 11 => 0x895cd7be
    case 12 => 0x6b901122 case 13 => 0xfd987193 case 14 => 0xa679438e case _ => 0x49b40821
  }

  function T2(i: nat): bv32 {
    match i
    case 0 => 0xf61e2562 case 1 => 0xc040b340 case 2 => 0x265e5a51 case 3 => 0xe9b6c7aa
    case 4 => 0xd62f105d case 5 => 0x02441453 case 6 => 0xd8a1e681 case 7 => 0xe7d3fbc8
    case 8 => 0x21e1cde6 case 9 => 0xc33707d6 case 10 => 0xf4d50d87 case 11 => 0x455a14ed
    case 12 => 0xa9e3e905 case 13 => 0xfcefa3f8 case 14 => 0x676f02d9 case _ => 0x8d2a4c8a
  }

  function T3(i: nat): bv32 {
    match i
    case 0 => 0xfffa3942 case 1 => 0x8771f681 case 2 => 0x6d9d6122 case 3 => 0xfde5380c
    case 4 => 0xa4beea44 case 5 => 0x4bdecfa9 case 6 => 0xf6bb4b60 case 7 => 0xbebfbc70
    case 8 => 0x289b7ec6 case 9 => 0xeaa127fa case 10 => 0xd4ef3085 case 11 => 0x04881d05
    case 12 => 0xd9d4d039 case 13 => 0xe6db99e5 case 14 => 0x1fa27cf8 case _ => 0xc4ac5665
  }

  function T4(i: nat): bv32 {
    match i
    case 0 => 0xf4292244 case 1 => 0x432aff97 case 2 => 0xab9423a7 case 3 => 0xfc93a039
    case 4 => 0x655b59c3 case 5 => 0x8f0ccc92 case 6 => 0xffeff47d case 7 => 0x85845dd1
    case 8 => 0x6fa87e4f case 9 => 0xfe2ce6e0 case 10 => 0xa3014314 case 11 => 0x4e0811a1
    case 12 => 0xf7537e82 case 13 => 0xbd3af235 case 14 => 0x2ad7d2bb case _ => 0xeb86d391
  }

  // The circular shift of section 2.
  function RotateLeft(w: bv32, s: bv6): bv32
    requires s < 32
  {
    (w << s) | (w >> (32 - s))
  }

  // a = b + ((a + f + x + t) <<< s).
  function Mix(a: bv32, b: bv32, f: bv32, x: bv32, t: bv32, s: bv6): bv32
    requires s < 32
  {
    b + RotateLeft(a + f + x + t, s)
  }

  // One step of the table-driven loop: the register in role a is replaced, then the roles rotate.
  function Step(i: nat, s: Words, x: seq<bv32>): Words
    requires |x| == 16
  {
    Words(s.d, Mix(s.a, s.b, RoundFunction(i, s.b, s.c, s.d), x[Index(i)], T(i), Shift(i)), s.b, s.c)
  }

  function Steps(s: Words, x: seq<bv32>, n: nat): Words
    requires |x| == 16
  {
    if n == 0 then s else Step(n - 1, Steps(s, x, n - 1), x)
  }

  const INIT: Words := Words(0x67452301, 0xefcdab89, 0x98badcfe, 0x10325476)

  // Section 2: four bytes make a word, low-order byte first.
  function Word(block: seq<byte>, at: nat): bv32
    requires at + 4 <= |block|
  {
    var b0: int, b1: int, b2: int, b3: int := block[at], block[at + 1], block[at + 2], block[at + 3];
    (b0 + 0x100 * b1 + 0x1_0000 * b2 + 0x100_0000 * b3) as bv32
  }

  function WordsOf(block: seq<byte>): (x: seq<bv32>)
    requires |block| == 64
    ensures |x| == 16
  {
    seq(16, i requires 0 <= i < 16 => Word(block, 4 * i))
  }

  function Sum(x: bv32, y: bv32): bv32 { x + y }

  function AddWords(s: Words, t: Words): Words {
    Words(Sum(s.a, t.a), Sum(s.b, t.b), Sum(s.c, t.c), Sum(s.d, t.d))
  }

  // Section 3.4: one 16-word block.
  function Compress(s: Words, x: seq<bv32>): Words
    requires |x| == 16
  {
    AddWords(s, Steps(s, x, 64))
  }

  function Absorb(s: Words, m: seq<byte>): Words
    requires |m| % 64 == 0
  {
    if m == [] then s
    else Compress(Absorb(s, m[..|m| - 64]), WordsOf(m[|m| - 64..]))
  }

  function Le32(w: nat): (r: seq<byte>)
    requires w < WORD
    ensures |r| == 4
  {
    [w % 0x100, w / 0x100 % 0x100, w / 0x1_0000 % 0x100, w / 0x100_0000]
  }

  // Low-order byte first.
  lemma Le32Number(w: nat)
    requires w < WORD
    ensures var r := Le32(w);
            r[0] as int + 0x100 * r[1] as int + 0x1_0000 * r[2] as int + 0x100_0000 * r[3] as int == w
  {
    var a := w / 0x100;
    var b := a / 0x100;
    assert w / 0x1_0000 == b && w / 0x100_0000 == b / 0x100;
  }

  // Section 3.2: a 64-bit count, low-order word first.
  function Le64(n: nat): (r: seq<byte>)
    requires n < DWORD
    ensures |r| == 8
  {
    Le32(n % WORD) + Le32(n / WORD)
  }

  function Zeros(n: nat): (z: seq<byte>)
    ensures |z| == n && forall i :: 0 <= i < n ==> z[i] == 0
  {
    seq(n, i => 0)
  }

  function BitCount(m: seq<byte>): (n: nat)
    ensures n < DWORD
  {
    8 * |m| % DWORD
  }

  lemma PaddedLength(n: nat)
    ensures (n + 1 + (55 - n) % 64 + 8) % 64 == 0
  {
    var zeros := (55 - n) % 64;
    assert 55 - n == (55 - n) / 64 * 64 + zeros;
    assert n + 1 + zeros + 8 == 64 * (1 - (55 - n) / 64);
  }

  // Sections 3.1 and 3.2: a one bit, zero bits up to 448 modulo 512, the message length.
  function Padded(m: seq<byte>): (p: seq<byte>)
    ensures |p| % 64 == 0
  {
    PaddedLength(|m|);
    m + [0x80] + Zeros((55 - |m|) % 64) + Le64(BitCount(m))
  }

  function Output(s: Words): (d: seq<byte>)
    ensures |d| == 16
  {
    Le32(s.a as nat) + Le32(s.b as nat) + Le32(s.c as nat) + Le32(s.d as nat)
  }

  // Section 3.3: the registers start as the bytes 01 23 45 67 and so on up, and down again.
  lemma InitCounts()
    ensures Output(INIT) == [0x01, 0x23, 0x45, 0x67, 0x89, 0xab, 0xcd, 0xef,
                             0xfe, 0xdc, 0xba, 0x98, 0x76, 0x54, 0x32, 0x10]
  {
  }

  function Digest(m: seq<byte>): (d: seq<byte>)
    ensures |d| == 16
  {
    Output(Absorb(INIT, Padded(m)))
  }

  /* ---------- RFC 2104, section 2, with MD5 ---------- */

  function XorByte(x: byte, y: byte): byte {
    ((x as bv8) ^ (y as bv8)) as byte
  }

  function XorAll(k: seq<byte>, y: byte): (r: seq<byte>)
    ensures |r| == |k|
  {
    seq(|k|, i requires 0 <= i < |k| => XorByte(k[i], y))
  }

  // The key, hashed if it is longer than a block, extended with zeros to a block.
  function BlockKey(k: seq<byte>): (r: seq<byte>)
    ensures |r| == 64
  {
    var short := if |k| > 64 then Digest(k) else k;
    short + Zeros(64 - |short|)
  }

  function Hmac(k: seq<byte>, text: seq<byte>): seq<byte>
  {
    Digest(XorAll(BlockKey(k), 0x5c) + Digest(XorAll(BlockKey(k), 0x36) + text))
  }

  // The inner pad is 36 and the outer pad 5c: where the key does not reach they stand for themselves.
  lemma HmacPads(k: seq<byte>, text: seq<byte>, inner: seq<byte>, outer: seq<byte>)
    requires |k| <= 64 && |inner| == 64 && |outer| == 64
    requires forall i :: 0 <= i < |k| ==> inner[i] == XorByte(k[i], 0x36) && outer[i] == XorByte(k[i], 0x5c)
    requires forall i :: |k| <= i < 64 ==> inner[i] == 0x36 && outer[i] == 0x5c
    ensures Hmac(k, text) == Digest(outer + Digest(inner + text))
  {
    hide Digest;
    assert XorByte(0, 0x36) == 0x36 && XorByte(0, 0x5c) == 0x5c;
    hide XorByte;
    assert inner == XorAll(BlockKey(k), 0x36);
    assert outer == XorAll(BlockKey(k), 0x5c);
  }

  // A key longer than a block stands for its digest.
  lemma HmacLongKey(k: seq<byte>, text: seq<byte>)
    requires |k| > 64
    ensures Hmac(k, text) == Hmac(Digest(k), text)
  {
    hide Digest;
  }
}
