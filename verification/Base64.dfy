/** base64_encode of lib/common.c against section 4 of RFC 4648. */
module Base64 {
  import opened Bytes

  const B64: string := "ABCDEFGHIJKLM" + "NOPQRSTUVWXYZ" + "abcdefghijklm" + "nopqrstuvwxyz" + "0123456789+/"

  // The alphabet as four ranges and two signs.
  function Symbol(v: nat): char
    requires v < 64
  {
    if v < 26 then (65 + v) as char
    else if v < 52 then (97 + v - 26) as char
    else if v < 62 then (48 + v - 52) as char
    else if v == 62 then '+' else '/'
  }

  function Value(c: char): (v: nat)
    ensures v < 64
  {
    if 'A' <= c <= 'Z' then c as nat - 65
    else if 'a' <= c <= 'z' then c as nat - 97 + 26
    else if '0' <= c <= '9' then c as nat - 48 + 52
    else if c == '+' then 62 else 63
  }

  lemma AlphabetIs(v: nat)
    requires v < 64
    ensures |B64| == 64 && B64[v] == Symbol(v)
  {
  }

  // The alphabet of table 1 of RFC 4648: capitals, small letters, digits, plus and slash.
  lemma AlphabetRuns()
    ensures Symbol(0) == 'A' && Symbol(26) == 'a' && Symbol(52) == '0' && Symbol(62) == '+' && Symbol(63) == '/'
    ensures forall v :: 0 <= v < 63 && v + 1 !in {26, 52, 62, 63} ==> Symbol(v + 1) as int == Symbol(v) as int + 1
  {
  }

  lemma SymbolHasValue(v: nat)
    requires v < 64
    ensures Value(Symbol(v)) == v && Symbol(v) != '='
  {
  }

  /* ---------- section 4 of RFC 4648 ---------- */

  type sextet = v: nat | v < 64

  // A 24-bit input group, missing bytes read as zero bits.
  function Bits(s: seq<byte>): (n: nat)
    ensures n < 0x100_0000
  {
    (if |s| > 0 then s[0] as int * 0x1_0000 else 0)
    + (if |s| > 1 then s[1] as int * 0x100 else 0)
    + (if |s| > 2 then s[2] as int else 0)
  }

  function Quad(n: nat): (q: seq<sextet>)
    requires n < 0x100_0000
    ensures |q| == 4
  {
    [n / 0x4_0000, n / 0x1000 % 64, n / 64 % 64, n % 64]
  }

  // Groups of three bytes become four sextets; a last group of one or two bytes, two or three.
  function Sextets(s: seq<byte>): (q: seq<sextet>)
    ensures |q| == (8 * |s| + 5) / 6
  {
    if s == [] then []
    else if |s| < 3 then Quad(Bits(s))[..|s| + 1]
    else Quad(Bits(s)) + Sextets(s[3..])
  }

  function Symbols(q: seq<sextet>): (r: string)
    ensures |r| == |q|
  {
    seq(|q|, i requires 0 <= i < |q| => Symbol(q[i]))
  }

  function Equals(n: nat): (r: string)
    ensures |r| == n
  {
    seq(n, i => '=')
  }

  function Encoded(s: seq<byte>, pad: bool): string
  {
    Symbols(Sextets(s)) + if pad then Equals((4 - |Sextets(s)| % 4) % 4) else []
  }

  lemma EncodedLength(s: seq<byte>)
    ensures |Encoded(s, true)| == 4 * ((|s| + 2) / 3)
    ensures |Encoded(s, false)| == (4 * |s| + 2) / 3
  {
    var n := |s|;
    assert (8 * n + 5) / 6 == (4 * n + 2) / 3;
  }

  // Section 10 of RFC 4648.
  lemma TestVectors()
    ensures Encoded([102], true) == "Zg==" && Encoded([102, 111], true) == "Zm8="
  {
    assert Sextets([102]) == [25, 32];
    assert Sextets([102, 111]) == [25, 38, 60];
  }

  lemma LongerVectors()
    ensures Encoded([102, 111, 111], true) == "Zm9v"
    ensures Encoded([102, 111, 111, 98, 97], true) == "Zm9vYmE="
  {
    assert [102, 111, 111][3..] == [] && [102, 111, 111, 98, 97][3..] == [98, 97];
    assert Sextets([98, 97]) == [24, 38, 4];
    assert Sextets([102, 111, 111]) == [25, 38, 61, 47];
    assert Sextets([102, 111, 111, 98, 97]) == [25, 38, 61, 47, 24, 38, 4];
  }

  // The reference decoder: whatever follows the first padding sign is dropped.
  function Decoded(r: string): seq<byte>
  {
    Bytes8(Values(r))
  }

  function Values(r: string): seq<sextet>
  {
    if r == [] || r[0] == '=' then [] else [Value(r[0])] + Values(r[1..])
  }

  function Triple(q: seq<sextet>): (b: seq<byte>)
    requires |q| == 4
    ensures |b| == 3
  {
    var n: nat := q[0] as int * 0x4_0000 + q[1] as int * 0x1000 + q[2] as int * 64 + q[3] as int;
    [n / 0x1_0000, n / 0x100 % 0x100, n % 0x100]
  }

  function Bytes8(q: seq<sextet>): seq<byte>
  {
    if |q| < 2 then []
    else if |q| == 2 then Triple(q + [0, 0])[..1]
    else if |q| == 3 then Triple(q + [0])[..2]
    else Triple(q[..4]) + Bytes8(q[4..])
  }

  lemma QuadTriple(n: nat)
    requires n < 0x100_0000
    ensures Triple(Quad(n)) == [n / 0x1_0000, n / 0x100 % 0x100, n % 0x100]
  {
    var a, b, c := n / 64, n / 64 / 64, n / 64 / 64 / 64;
    assert n / 0x1000 == b && n / 0x4_0000 == c;
    assert n == 64 * a + n % 64 && a == 64 * b + a % 64 && b == 64 * c + b % 64;
  }

  lemma BitsBytes(s: seq<byte>)
    ensures |s| > 0 ==> Bits(s) / 0x1_0000 == s[0]
    ensures |s| > 1 ==> Bits(s) / 0x100 % 0x100 == s[1]
    ensures |s| > 2 ==> Bits(s) % 0x100 == s[2]
    ensures |s| == 1 ==> Bits(s) % 0x1_0000 == 0
    ensures |s| == 2 ==> Bits(s) % 0x100 == 0
  {
    var x: int, y: int, z: int := if |s| > 0 then s[0] else 0, if |s| > 1 then s[1] else 0, if |s| > 2 then s[2] else 0;
    assert Bits(s) == x * 0x1_0000 + y * 0x100 + z;
    ThreeBytes(x, y, z, Bits(s));
  }

  lemma ThreeBytes(x: int, y: int, z: int, n: int)
    requires 0 <= x < 0x100 && 0 <= y < 0x100 && 0 <= z < 0x100 && n == x * 0x1_0000 + y * 0x100 + z
    ensures n / 0x1_0000 == x && n / 0x100 % 0x100 == y && n % 0x100 == z
    ensures y == z == 0 ==> n % 0x1_0000 == 0
  {
    assert n / 0x100 == x * 0x100 + y;
  }

  lemma {:induction false} SextetsRoundTrip(s: seq<byte>)
    ensures Bytes8(Sextets(s)) == s
  {
    hide Quad, Triple, Bits;
    if s != [] {
      var n := Bits(s);
      QuadTriple(n);
      BitsBytes(s);
      if |s| < 3 {
        QuadTail(n, |s|);
        assert Sextets(s) == Quad(n)[..|s| + 1];
      } else {
        SextetsRoundTrip(s[3..]);
        var q := Sextets(s);
        assert q[..4] == Quad(n) && q[4..] == Sextets(s[3..]);
        assert s == [s[0], s[1], s[2]] + s[3..];
      }
    }
  }

  // The sextets that a short group leaves out are zero.
  lemma QuadTail(n: nat, k: nat)
    requires n < 0x100_0000 && 0 < k < 3
    requires k == 1 ==> n % 0x1_0000 == 0
    requires k == 2 ==> n % 0x100 == 0
    ensures Quad(n)[..k + 1] + (if k == 1 then [0, 0] else [0]) == Quad(n)
  {
    if k == 1 {
      var m := n / 0x1_0000;
      assert n == 64 * (1024 * m) && n / 64 == 64 * (16 * m);
      assert n % 64 == 0 && n / 64 % 64 == 0;
    } else {
      var m := n / 0x100;
      assert n == 64 * (4 * m);
      assert n % 64 == 0;
    }
  }

  lemma {:induction false} ValuesOfSymbols(q: seq<sextet>, n: nat)
    ensures Values(Symbols(q) + Equals(n)) == q
  {
    var r := Symbols(q) + Equals(n);
    if q != [] {
      SymbolHasValue(q[0]);
      ValuesOfSymbols(q[1..], n);
      assert r[1..] == Symbols(q[1..]) + Equals(n);
    }
  }

  // With or without padding, the decoder gives back every byte string.
  lemma RoundTrip(s: seq<byte>, pad: bool)
    ensures Decoded(Encoded(s, pad)) == s
  {
    hide Sextets, Values, Bytes8;
    SextetsRoundTrip(s);
    ValuesOfSymbols(Sextets(s), if pad then (4 - |Sextets(s)| % 4) % 4 else 0);
    assert Encoded(s, pad) == Symbols(Sextets(s)) + Equals(if pad then (4 - |Sextets(s)| % 4) % 4 else 0);
  }

  /* ---------- the program ---------- */

  function Pow2(k: nat): (p: nat)
    requires k <= 8
    ensures p > 0
  {
    match k case 0 => 1 case 1 => 2 case 2 => 4 case 3 => 8 case 4 => 16 case 5 => 32 case 6 => 64 case 7 => 128 case _ => 256
  }

  // Bitwise or.
  function Or(a: nat, b: nat): nat
  {
    if a == 0 && b == 0 then 0
    else (if a % 2 == 1 || b % 2 == 1 then 1 else 0) + 2 * Or(a / 2, b / 2)
  }

  lemma {:induction false} OrWithNothing(a: nat)
    ensures Or(a, 0) == a
  {
    if a > 0 { OrWithNothing(a / 2); }
  }

  // Where the first number has no bits below the k-th and the second none from it on.
  lemma {:induction false} OrIsSum(m: nat, lo: nat, k: nat)
    requires k <= 8 && lo < Pow2(k)
    ensures Or(Pow2(k) * m, lo) == Pow2(k) * m + lo
  {
    var hi := Pow2(k) * m;
    if k == 0 {
      OrWithNothing(hi);
    } else {
      assert Pow2(k) == 2 * Pow2(k - 1);
      var half := Pow2(k - 1) * m;
      assert hi == 2 * half by { Doubled(Pow2(k - 1), m); }
      OrIsSum(m, lo / 2, k - 1);
    }
  }

  lemma Doubled(p: nat, m: nat)
    ensures 2 * p * m == 2 * (p * m)
  {
  }

  // Six bits at bit offset 6 * i, as the loop cuts them out of at most two bytes.
  function CutOut(d: seq<byte>, i: nat): nat
    requires i * 6 / 8 < |d|
  {
    var byteOffset, bitOffset := i * 6 / 8, i * 6 % 8;
    if bitOffset < 3 then d[byteOffset] as int / Pow2(2 - bitOffset) % 0x40
    else
      var idx := d[byteOffset] as int * Pow2(bitOffset - 2) % 0x40;
      if byteOffset + 1 < |d| then Or(idx, d[byteOffset + 1] as int / Pow2(8 - (bitOffset - 2))) else idx
  }

  // The or in the loop joins bits that do not overlap.
  lemma Joined(x: byte, y: byte)
    ensures Or(x as int * 4 % 0x40, y as int / 64) == x as int % 16 * 4 + y as int / 64
    ensures Or(x as int * 16 % 0x40, y as int / 16) == x as int % 4 * 16 + y as int / 16
  {
    hide Or;
    ScaledBits(x);
    OrIsSum(x as int % 16, y as int / 64, 2);
    OrIsSum(x as int % 4, y as int / 16, 4);
  }

  lemma Offsets(i: nat)
    ensures i % 4 == 0 ==> i * 6 / 8 == i / 4 * 3 && i * 6 % 8 == 0
    ensures i % 4 == 1 ==> i * 6 / 8 == i / 4 * 3 && i * 6 % 8 == 6
    ensures i % 4 == 2 ==> i * 6 / 8 == i / 4 * 3 + 1 && i * 6 % 8 == 4
    ensures i % 4 == 3 ==> i * 6 / 8 == i / 4 * 3 + 2 && i * 6 % 8 == 2
  {
  }

  // The same, with the offsets worked out: the r-th sextet of the group at byte b.
  function CutAt(d: seq<byte>, b: nat, r: nat): nat
    requires r < 4 && b + (if r < 2 then 0 else r - 1) < |d|
  {
    match r
    case 0 => d[b] as int / 4
    case 1 => d[b] as int % 4 * 16 + if b + 1 < |d| then d[b + 1] as int / 16 else 0
    case 2 => d[b + 1] as int % 16 * 4 + if b + 2 < |d| then d[b + 2] as int / 64 else 0
    case _ => d[b + 2] as int % 64
  }

  lemma ScaledBits(x: byte)
    ensures x as int * 16 % 64 == x as int % 4 * 16 && x as int * 4 % 64 == x as int % 16 * 4
    ensures x as int / 4 % 64 == x as int / 4
  {
    var n: int := x;
    assert n == 4 * (n / 4) + n % 4 && n == 16 * (n / 16) + n % 16;
    Remainder64(n / 4, n % 4 * 16);
    Remainder64(n / 16, n % 16 * 4);
  }

  lemma Remainder64(q: int, r: int)
    requires 0 <= r < 64
    ensures (64 * q + r) % 64 == r
  {
  }

  lemma CutOutIs(d: seq<byte>, i: nat, g: nat, r: nat)
    requires i == 4 * g + r && r < 4 && i < (8 * |d| + 5) / 6
    ensures i * 6 / 8 < |d|
    ensures 3 * g + (if r < 2 then 0 else r - 1) < |d|
    ensures CutOut(d, i) == CutAt(d, 3 * g, r)
  {
    hide Or;
    assert i / 4 == g && i % 4 == r;
    Offsets(i);
    ScaledBits(d[i * 6 / 8]);
    if i * 6 / 8 + 1 < |d| {
      Joined(d[i * 6 / 8], d[i * 6 / 8 + 1]);
    }
  }

  lemma QuadIs(n: nat, a: nat, b: nat, c: nat, v1: nat, v2: nat, v3: nat)
    requires n == 64 * a + v3 && a == 64 * b + v2 && b == 64 * c + v1
    requires v1 < 64 && v2 < 64 && v3 < 64 && c < 64
    ensures n < 0x100_0000 && Quad(n) == [c, v1, v2, v3]
  {
    assert n / 64 == a && a / 64 == b && b / 64 == c;
    assert n / 0x1000 == b && n / 0x4_0000 == c;
  }

  lemma QuadOf(x: byte, y: byte, z: byte)
    ensures Quad(x as int * 0x1_0000 + y as int * 0x100 + z as int) ==
      [x as int / 4, x as int % 4 * 16 + y as int / 16, y as int % 16 * 4 + z as int / 64, z as int % 64]
  {
    hide Quad;
    var n := x as int * 0x1_0000 + y as int * 0x100 + z as int;
    var c, v1, v2, v3 := x as int / 4, x as int % 4 * 16 + y as int / 16, y as int % 16 * 4 + z as int / 64, z as int % 64;
    var b := 64 * c + v1;
    var a := 64 * b + v2;
    assert x as int == 4 * c + x as int % 4 && y as int == 16 * (y as int / 16) + y as int % 16;
    assert z as int == 64 * (z as int / 64) + v3;
    QuadIs(n, a, b, c, v1, v2, v3);
  }

  // The rolling offsets agree with the three-byte groups.
  lemma {:induction false} CutAtIsSextet(d: seq<byte>, b: nat, g: nat, r: nat)
    requires r < 4 && b == 3 * g && b + (if r < 2 then 0 else r - 1) < |d|
    ensures 4 * g + r < |Sextets(d)| || (r > 0 && b + r - 1 >= |d|)
    ensures 4 * g + r < |Sextets(d)| ==> CutAt(d, b, r) == Sextets(d)[4 * g + r]
  {
    hide Quad;
    if g > 0 {
      CutAtIsSextet(d[3..], b - 3, g - 1, r);
      assert Sextets(d) == Quad(Bits(d)) + Sextets(d[3..]);
      assert CutAt(d, b, r) == CutAt(d[3..], b - 3, r);
    } else {
      QuadOf(d[0], if |d| > 1 then d[1] else 0, if |d| > 2 then d[2] else 0);
      assert 4 * g + r < |Sextets(d)| ==> Sextets(d)[r] == Quad(Bits(d))[r];
    }
  }

  lemma CutOutIsSextet(d: seq<byte>, i: nat)
    requires i < (8 * |d| + 5) / 6
    ensures i * 6 / 8 < |d| && CutOut(d, i) == Sextets(d)[i]
  {
    hide CutOut, CutAt, Sextets;
    var g, r := i / 4, i % 4;
    CutOutIs(d, i, g, r);
    CutAtIsSextet(d, 3 * g, g, r);
  }

  // The first loop: one symbol per six bits.
  method EncodeBits(buf: seq<byte>, out: array<char>) returns (i: nat)
    requires |Sextets(buf)| < out.Length
    modifies out
    ensures i == |Sextets(buf)| && out[..] == Symbols(Sextets(buf)) + old(out[i..])
  {
    hide CutOut, Symbol, Sextets;
    ghost var q := Sextets(buf);
    var bytes := (|buf| * 8 + 5) / 6;
    i := 0;
    while i < bytes
      invariant 0 <= i <= bytes
      invariant forall j :: 0 <= j < i ==> out[j] == Symbol(q[j])
      invariant forall j :: i <= j < out.Length ==> out[j] == old(out[j])
    {
      CutOutIsSextet(buf, i);
      var idx := CutOut(buf, i);
      AlphabetIs(idx);
      out[i] := B64[idx];
      i := i + 1;
    }
    assert out[..i] == Symbols(q);
  }

  function Padding(n: nat, pad: bool): (k: nat)
    ensures k < 4
  {
    if pad then (4 - n % 4) % 4 else 0
  }

  lemma PaddingFills(n: nat, i: nat)
    requires n <= i <= n + Padding(n, true)
    ensures i % 4 == 0 <==> i == n + Padding(n, true)
  {
  }

  // The second loop: padding signs up to a multiple of four.
  method PadOut(out: array<char>, n: nat, pad: bool) returns (i: nat)
    requires n + Padding(n, pad) <= out.Length
    modifies out
    ensures i == n + Padding(n, pad)
    ensures out[..] == old(out[..n]) + Equals(Padding(n, pad)) + old(out[i..])
  {
    hide Padding;
    i := n;
    if pad { PaddingFills(n, i); } else { NoPadding(n); }
    while pad && i % 4 != 0
      invariant n <= i <= n + Padding(n, pad)
      invariant pad ==> (i % 4 == 0 <==> i == n + Padding(n, true))
      invariant forall j :: 0 <= j < n ==> out[j] == old(out[j])
      invariant forall j :: n <= j < i ==> out[j] == '='
      invariant forall j :: i <= j < out.Length ==> out[j] == old(out[j])
      decreases n + Padding(n, pad) - i
    {
      out[i] := '=';
      i := i + 1;
      PaddingFills(n, i);
    }
  }

  lemma NoPadding(n: nat)
    ensures Padding(n, false) == 0
  {
  }

  method Base64Encode(buf: seq<byte>, out: array<char>, pad: bool)
    requires |Encoded(buf, pad)| < out.Length
    modifies out
    ensures var e := Encoded(buf, pad);
            out[..] == e + ['\0'] + old(out[|e| + 1..])
  {
    hide Encoded, Sextets, Symbols, Equals, Padding;
    EncodedIs(buf, pad);
    var i := EncodeBits(buf, out);
    i := PadOut(out, i, pad);
    out[i] := '\0';
  }

  lemma EncodedIs(s: seq<byte>, pad: bool)
    ensures Encoded(s, pad) == Symbols(Sextets(s)) + Equals(Padding(|Sextets(s)|, pad))
  {
  }
}
