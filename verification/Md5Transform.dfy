/** The unrolled, optimised transform of lib/md5.c, refining the table-driven steps. */
module Md5Transform {
  import opened Bytes
  import opened Md5Spec

  function F1(x: bv32, y: bv32, z: bv32): bv32 { z ^ (x & (y ^ z)) }
  function F2(x: bv32, y: bv32, z: bv32): bv32 { F1(z, x, y) }
  function F3(x: bv32, y: bv32, z: bv32): bv32 { x ^ y ^ z }
  function F4(x: bv32, y: bv32, z: bv32): bv32 { y ^ (x | !z) }

  // The value MD5STEP leaves in its register w, for fv = f(x, y, z).
  function MacroStep(fv: bv32, w: bv32, x: bv32, data: bv32, s: bv6): bv32
    requires s < 32
  {
    RotateLeft(w + (fv + data), s) + x
  }

  // F1 saves an operation: bit by bit both sides select y where x is set and z elsewhere.
  lemma SelectBits(x: bv32, y: bv32, z: bv32)
    ensures z ^ (x & (y ^ z)) == (x & y) | (!x & z)
  {
  }

  lemma F1IsF(x: bv32, y: bv32, z: bv32)
    ensures F1(x, y, z) == F(x, y, z)
  {
    SelectBits(x, y, z);
  }

  lemma F2IsG(x: bv32, y: bv32, z: bv32)
    ensures F2(x, y, z) == G(x, y, z)
  {
    F1IsF(z, x, y);
    hide F1;
  }

  lemma F3IsH(x: bv32, y: bv32, z: bv32)
    ensures F3(x, y, z) == H(x, y, z)
  {
  }

  lemma F4IsI(x: bv32, y: bv32, z: bv32)
    ensures F4(x, y, z) == I(x, y, z)
  {
  }

  // MD5STEP adds in another order than the definition.
  lemma Reassociate(w: bv32, f: bv32, x: bv32, t: bv32)
    ensures w + (f + (x + t)) == w + f + x + t
  {
  }

  lemma AddCommutes(r: bv32, x: bv32)
    ensures r + x == x + r
  {
  }

  lemma MacroStepExpanded(fv: bv32, w: bv32, x: bv32, d: bv32, t: bv32, s: bv6)
    requires s < 32
    ensures MacroStep(fv, w, x, d + t, s) == Mix(w, x, fv, d, t, s)
  {
    hide RotateLeft;
    Reassociate(w, fv, d, t);
    AddCommutes(RotateLeft(w + (fv + (d + t)), s), x);
  }

  lemma MacroStepIs(fv: bv32, w: bv32, x: bv32, d: bv32, t: bv32, data: bv32, s: bv6)
    requires s < 32 && data == Sum(d, t)
    ensures MacroStep(fv, w, x, data, s) == Mix(w, x, fv, d, t, s)
  {
    hide MacroStep, Mix;
    MacroStepExpanded(fv, w, x, d, t, s);
  }

  lemma Step1(s0: Words, x: seq<bv32>, i: nat, k: nat, t: bv32, s: bv6, data: bv32,
              a: bv32, b: bv32, c: bv32, d: bv32)
    requires |x| == 16 && Words(a, b, c, d) == Steps(s0, x, i)
    requires 0 <= i < 16 && k == Index(i) && t == T(i) && s == Shift(i)
    requires data == Sum(x[k], t)
    ensures Words(d, MacroStep(F1(b, c, d), a, b, data, s), b, c) == Steps(s0, x, i + 1)
  {
    hide F1, F2, F3, F4, F, G, H, I, MacroStep, Mix, Sum, Index, T, Shift;
    F1IsF(b, c, d);
    MacroStepIs(F1(b, c, d), a, b, x[k], t, data, s);
  }

  lemma Step2(s0: Words, x: seq<bv32>, i: nat, k: nat, t: bv32, s: bv6, data: bv32,
              a: bv32, b: bv32, c: bv32, d: bv32)
    requires |x| == 16 && Words(a, b, c, d) == Steps(s0, x, i)
    requires 16 <= i < 32 && k == Index(i) && t == T(i) && s == Shift(i)
    requires data == Sum(x[k], t)
    ensures Words(d, MacroStep(F2(b, c, d), a, b, data, s), b, c) == Steps(s0, x, i + 1)
  {
    hide F1, F2, F3, F4, F, G, H, I, MacroStep, Mix, Sum, Index, T, Shift;
    F2IsG(b, c, d);
    MacroStepIs(F2(b, c, d), a, b, x[k], t, data, s);
  }

  lemma Step3(s0: Words, x: seq<bv32>, i: nat, k: nat, t: bv32, s: bv6, data: bv32,
              a: bv32, b: bv32, c: bv32, d: bv32)
    requires |x| == 16 && Words(a, b, c, d) == Steps(s0, x, i)
    requires 32 <= i < 48 && k == Index(i) && t == T(i) && s == Shift(i)
    requires data == Sum(x[k], t)
    ensures Words(d, MacroStep(F3(b, c, d), a, b, data, s), b, c) == Steps(s0, x, i + 1)
  {
    hide F1, F2, F3, F4, F, G, H, I, MacroStep, Mix, Sum, Index, T, Shift;
    F3IsH(b, c, d);
    MacroStepIs(F3(b, c, d), a, b, x[k], t, data, s);
  }

  lemma Step4(s0: Words, x: seq<bv32>, i: nat, k: nat, t: bv32, s: bv6, data: bv32,
              a: bv32, b: bv32, c: bv32, d: bv32)
    requires |x| == 16 && Words(a, b, c, d) == Steps(s0, x, i)
    requires 48 <= i < 64 && k == Index(i) && t == T(i) && s == Shift(i)
    requires data == Sum(x[k], t)
    ensures Words(d, MacroStep(F4(b, c, d), a, b, data, s), b, c) == Steps(s0, x, i + 1)
  {
    hide F1, F2, F3, F4, F, G, H, I, MacroStep, Mix, Sum, Index, T, Shift;
    F4IsI(b, c, d);
    MacroStepIs(F4(b, c, d), a, b, x[k], t, data, s);
  }

  lemma WordsOfRound1()
    ensures Index(0) == 0 && Index(1) == 1 && Index(2) == 2 && Index(3) == 3
    ensures Index(4) == 4 && Index(5) == 5 && Index(6) == 6 && Index(7) == 7
    ensures Index(8) == 8 && Index(9) == 9 && Index(10) == 10 && Index(11) == 11
    ensures Index(12) == 12 && Index(13) == 13 && Index(14) == 14 && Index(15) == 15
  {
  }

  lemma ShiftsOfRound1()
    ensures Shift(0) == 7 && Shift(1) == 12 && Shift(2) == 17 && Shift(3) == 22
    ensures Shift(4) == 7 && Shift(5) == 12 && Shift(6) == 17 && Shift(7) == 22
    ensures Shift(8) == 7 && Shift(9) == 12 && Shift(10) == 17 && Shift(11) == 22
    ensures Shift(12) == 7 && Shift(13) == 12 && Shift(14) == 17 && Shift(15) == 22
  {
  }

  lemma SinesOfRound1()
    ensures T(0) == 0xd76aa478 && T(1) == 0xe8c7b756 && T(2) == 0x242070db && T(3) == 0xc1bdceee
    ensures T(4) == 0xf57c0faf && T(5) == 0x4787c62a && T(6) == 0xa8304613 && T(7) == 0xfd469501
    ensures T(8) == 0x698098d8 && T(9) == 0x8b44f7af && T(10) == 0xffff5bb1 && T(11) == 0x895cd7be
    ensures T(12) == 0x6b901122 && T(13) == 0xfd987193 && T(14) == 0xa679438e && T(15) == 0x49b40821
  {
  }

  lemma WordsOfRound2()
    ensures Index(16) == 1 && Index(17) == 6 && Index(18) == 11 && Index(19) == 0
    ensures Index(20) == 5 && Index(21) == 10 && Index(22) == 15 && Index(23) == 4
    ensures Index(24) == 9 && Index(25) == 14 && Index(26) == 3 && Index(27) == 8
    ensures Index(28) == 13 && Index(29) == 2 && Index(30) == 7 && Index(31) == 12
  {
  }

  lemma ShiftsOfRound2()
    ensures Shift(16) == 5 && Shift(17) == 9 && Shift(18) == 14 && Shift(19) == 20
    ensures Shift(20) == 5 && Shift(21) == 9 && Shift(22) == 14 && Shift(23) == 20
    ensures Shift(24) == 5 && Shift(25) == 9 && Shift(26) == 14 && Shift(27) == 20
    ensures Shift(28) == 5 && Shift(29) == 9 && Shift(30) == 14 && Shift(31) == 20
  {
  }

  lemma SinesOfRound2()
    ensures T(16) == 0xf61e2562 && T(17) == 0xc040b340 && T(18) == 0x265e5a51 && T(19) == 0xe9b6c7aa
    ensures T(20) == 0xd62f105d && T(21) == 0x02441453 && T(22) == 0xd8a1e681 && T(23) == 0xe7d3fbc8
    ensures T(24) == 0x21e1cde6 && T(25) == 0xc33707d6 && T(26) == 0xf4d50d87 && T(27) == 0x455a14ed
    ensures T(28) == 0xa9e3e905 && T(29) == 0xfcefa3f8 && T(30) == 0x676f02d9 && T(31) == 0x8d2a4c8a
  {
  }

  lemma WordsOfRound3()
    ensures Index(32) == 5 && Index(33) == 8 && Index(34) == 11 && Index(35) == 14
    ensures Index(36) == 1 && Index(37) == 4 && Index(38) == 7 && Index(39) == 10
    ensures Index(40) == 13 && Index(41) == 0 && Index(42) == 3 && Index(43) == 6
    ensures Index(44) == 9 && Index(45) == 12 && Index(46) == 15 && Index(47) == 2
  {
  }

  lemma ShiftsOfRound3()
    ensures Shift(32) == 4 && Shift(33) == 11 && Shift(34) == 16 && Shift(35) == 23
    ensures Shift(36) == 4 && Shift(37) == 11 && Shift(38) == 16 && Shift(39) == 23
    ensures Shift(40) == 4 && Shift(41) == 11 && Shift(42) == 16 && Shift(43) == 23
    ensures Shift(44) == 4 && Shift(45) == 11 && Shift(46) == 16 && Shift(47) == 23
  {
  }

  lemma SinesOfRound3()
    ensures T(32) == 0xfffa3942 && T(33) == 0x8771f681 && T(34) == 0x6d9d6122 && T(35) == 0xfde5380c
    ensures T(36) == 0xa4beea44 && T(37) == 0x4bdecfa9 && T(38) == 0xf6bb4b60 && T(39) == 0xbebfbc70
    ensures T(40) == 0x289b7ec6 && T(41) == 0xeaa127fa && T(42) == 0xd4ef3085 && T(43) == 0x04881d05
    ensures T(44) == 0xd9d4d039 && T(45) == 0xe6db99e5 && T(46) == 0x1fa27cf8 && T(47) == 0xc4ac5665
  {
  }

  lemma WordsOfRound4()
    ensures Index(48) == 0 && Index(49) == 7 && Index(50) == 14 && Index(51) == 5
    ensures Index(52) == 12 && Index(53) == 3 && Index(54) == 10 && Index(55) == 1
    ensures Index(56) == 8 && Index(57) == 15 && Index(58) == 6 && Index(59) == 13
    ensures Index(60) == 4 && Index(61) == 11 && Index(62) == 2 && Index(63) == 9
  {
  }

  lemma ShiftsOfRound4()
    ensures Shift(48) == 6 && Shift(49) == 10 && Shift(50) == 15 && Shift(51) == 21
    ensures Shift(52) == 6 && Shift(53) == 10 && Shift(54) == 15 && Shift(55) == 21
    ensures Shift(56) == 6 && Shift(57) == 10 && Shift(58) == 15 && Shift(59) == 21
    ensures Shift(60) == 6 && Shift(61) == 10 && Shift(62) == 15 && Shift(63) == 21
  {
  }

  lemma SinesOfRound4()
    ensures T(48) == 0xf4292244 && T(49) == 0x432aff97 && T(50) == 0xab9423a7 && T(51) == 0xfc93a039
    ensures T(52) == 0x655b59c3 && T(53) == 0x8f0ccc92 && T(54) == 0xffeff47d && T(55) == 0x85845dd1
    ensures T(56) == 0x6fa87e4f && T(57) == 0xfe2ce6e0 && T(58) == 0xa3014314 && T(59) == 0x4e0811a1
    ensures T(60) == 0xf7537e82 && T(61) == 0xbd3af235 && T(62) == 0x2ad7d2bb && T(63) == 0xeb86d391
  {
  }

  method Round1(ghost s0: Words, x: seq<bv32>, a0: bv32, b0: bv32, c0: bv32, d0: bv32)
      returns (a: bv32, b: bv32, c: bv32, d: bv32)
    requires |x| == 16 && Words(a0, b0, c0, d0) == Steps(s0, x, 0)
    ensures Words(a, b, c, d) == Steps(s0, x, 16)
  {
    hide F1, F2, F3, F4, MacroStep, Steps, Index, Shift, T;
    WordsOfRound1();
    ShiftsOfRound1();
    SinesOfRound1();
    a, b, c, d := a0, b0, c0, d0;
    Step1(s0, x, 0, 0, 0xd76aa478, 7, x[0] + 0xd76aa478, a, b, c, d);
    a := MacroStep(F1(b, c, d), a, b, x[0] + 0xd76aa478, 7);
    Step1(s0, x, 1, 1, 0xe8c7b756, 12, x[1] + 0xe8c7b756, d, a, b, c);
    d := MacroStep(F1(a, b, c), d, a, x[1] + 0xe8c7b756, 12);
    Step1(s0, x, 2, 2, 0x242070db, 17, x[2] + 0x242070db, c, d, a, b);
    c := MacroStep(F1(d, a, b), c, d, x[2] + 0x242070db, 17);
    Step1(s0, x, 3, 3, 0xc1bdceee, 22, x[3] + 0xc1bdceee, b, c, d, a);
    b := MacroStep(F1(c, d, a), b, c, x[3] + 0xc1bdceee, 22);
    Step1(s0, x, 4, 4, 0xf57c0faf, 7, x[4] + 0xf57c0faf, a, b, c, d);
    a := MacroStep(F1(b, c, d), a, b, x[4] + 0xf57c0faf, 7);
    Step1(s0, x, 5, 5, 0x4787c62a, 12, x[5] + 0x4787c62a, d, a, b, c);
    d := MacroStep(F1(a, b, c), d, a, x[5] + 0x4787c62a, 12);
    Step1(s0, x, 6, 6, 0xa8304613, 17, x[6] + 0xa8304613, c, d, a, b);
    c := MacroStep(F1(d, a, b), c, d, x[6] + 0xa8304613, 17);
    Step1(s0, x, 7, 7, 0xfd469501, 22, x[7] + 0xfd469501, b, c, d, a);
    b := MacroStep(F1(c, d, a), b, c, x[7] + 0xfd469501, 22);
    Step1(s0, x, 8, 8, 0x698098d8, 7, x[8] + 0x698098d8, a, b, c, d);
    a := MacroStep(F1(b, c, d), a, b, x[8] + 0x698098d8, 7);
    Step1(s0, x, 9, 9, 0x8b44f7af, 12, x[9] + 0x8b44f7af, d, a, b, c);
    d := MacroStep(F1(a, b, c), d, a, x[9] + 0x8b44f7af, 12);
    Step1(s0, x, 10, 10, 0xffff5bb1, 17, x[10] + 0xffff5bb1, c, d, a, b);
    c := MacroStep(F1(d, a, b), c, d, x[10] + 0xffff5bb1, 17);
    Step1(s0, x, 11, 11, 0x895cd7be, 22, x[11] + 0x895cd7be, b, c, d, a);
    b := MacroStep(F1(c, d, a), b, c, x[11] + 0x895cd7be, 22);
    Step1(s0, x, 12, 12, 0x6b901122, 7, x[12] + 0x6b901122, a, b, c, d);
    a := MacroStep(F1(b, c, d), a, b, x[12] + 0x6b901122, 7);
    Step1(s0, x, 13, 13, 0xfd987193, 12, x[13] + 0xfd987193, d, a, b, c);
    d := MacroStep(F1(a, b, c), d, a, x[13] + 0xfd987193, 12);
    Step1(s0, x, 14, 14, 0xa679438e, 17, x[14] + 0xa679438e, c, d, a, b);
    c := MacroStep(F1(d, a, b), c, d, x[14] + 0xa679438e, 17);
    Step1(s0, x, 15, 15, 0x49b40821, 22, x[15] + 0x49b40821, b, c, d, a);
    b := MacroStep(F1(c, d, a), b, c, x[15] + 0x49b40821, 22);
  }

  method Round2(ghost s0: Words, x: seq<bv32>, a0: bv32, b0: bv32, c0: bv32, d0: bv32)
      returns (a: bv32, b: bv32, c: bv32, d: bv32)
    requires |x| == 16 && Words(a0, b0, c0, d0) == Steps(s0, x, 16)
    ensures Words(a, b, c, d) == Steps(s0, x, 32)
  {
    hide F1, F2, F3, F4, MacroStep, Steps, Index, Shift, T;
    WordsOfRound2();
    ShiftsOfRound2();
    SinesOfRound2();
    a, b, c, d := a0, b0, c0, d0;
    Step2(s0, x, 16, 1, 0xf61e2562, 5, x[1] + 0xf61e2562, a, b, c, d);
    a := MacroStep(F2(b, c, d), a, b, x[1] + 0xf61e2562, 5);
    Step2(s0, x, 17, 6, 0xc040b340, 9, x[6] + 0xc040b340, d, a, b, c);
    d := MacroStep(F2(a, b, c), d, a, x[6] + 0xc040b340, 9);
    Step2(s0, x, 18, 11, 0x265e5a51, 14, x[11] + 0x265e5a51, c, d, a, b);
    c := MacroStep(F2(d, a, b), c, d, x[11] + 0x265e5a51, 14);
    Step2(s0, x, 19, 0, 0xe9b6c7aa, 20, x[0] + 0xe9b6c7aa, b, c, d, a);
    b := MacroStep(F2(c, d, a), b, c, x[0] + 0xe9b6c7aa, 20);
    Step2(s0, x, 20, 5, 0xd62f105d, 5, x[5] + 0xd62f105d, a, b, c, d);
    a := MacroStep(F2(b, c, d), a, b, x[5] + 0xd62f105d, 5);
    Step2(s0, x, 21, 10, 0x02441453, 9, x[10] + 0x02441453, d, a, b, c);
    d := MacroStep(F2(a, b, c), d, a, x[10] + 0x02441453, 9);
    Step2(s0, x, 22, 15, 0xd8a1e681, 14, x[15] + 0xd8a1e681, c, d, a, b);
    c := MacroStep(F2(d, a, b), c, d, x[15] + 0xd8a1e681, 14);
    Step2(s0, x, 23, 4, 0xe7d3fbc8, 20, x[4] + 0xe7d3fbc8, b, c, d, a);
    b := MacroStep(F2(c, d, a), b, c, x[4] + 0xe7d3fbc8, 20);
    Step2(s0, x, 24, 9, 0x21e1cde6, 5, x[9] + 0x21e1cde6, a, b, c, d);
    a := MacroStep(F2(b, c, d), a, b, x[9] + 0x21e1cde6, 5);
    Step2(s0, x, 25, 14, 0xc33707d6, 9, x[14] + 0xc33707d6, d, a, b, c);
    d := MacroStep(F2(a, b, c), d, a, x[14] + 0xc33707d6, 9);
    Step2(s0, x, 26, 3, 0xf4d50d87, 14, x[3] + 0xf4d50d87, c, d, a, b);
    c := MacroStep(F2(d, a, b), c, d, x[3] + 0xf4d50d87, 14);
    Step2(s0, x, 27, 8, 0x455a14ed, 20, x[8] + 0x455a14ed, b, c, d, a);
    b := MacroStep(F2(c, d, a), b, c, x[8] + 0x455a14ed, 20);
    Step2(s0, x, 28, 13, 0xa9e3e905, 5, x[13] + 0xa9e3e905, a, b, c, d);
    a := MacroStep(F2(b, c, d), a, b, x[13] + 0xa9e3e905, 5);
    Step2(s0, x, 29, 2, 0xfcefa3f8, 9, x[2] + 0xfcefa3f8, d, a, b, c);
    d := MacroStep(F2(a, b, c), d, a, x[2] + 0xfcefa3f8, 9);
    Step2(s0, x, 30, 7, 0x676f02d9, 14, x[7] + 0x676f02d9, c, d, a, b);
    c := MacroStep(F2(d, a, b), c, d, x[7] + 0x676f02d9, 14);
    Step2(s0, x, 31, 12, 0x8d2a4c8a, 20, x[12] + 0x8d2a4c8a, b, c, d, a);
    b := MacroStep(F2(c, d, a), b, c, x[12] + 0x8d2a4c8a, 20);
  }

  method Round3(ghost s0: Words, x: seq<bv32>, a0: bv32, b0: bv32, c0: bv32, d0: bv32)
      returns (a: bv32, b: bv32, c: bv32, d: bv32)
    requires |x| == 16 && Words(a0, b0, c0, d0) == Steps(s0, x, 32)
    ensures Words(a, b, c, d) == Steps(s0, x, 48)
  {
    hide F1, F2, F3, F4, MacroStep, Steps, Index, Shift, T;
    WordsOfRound3();
    ShiftsOfRound3();
    SinesOfRound3();
    a, b, c, d := a0, b0, c0, d0;
    Step3(s0, x, 32, 5, 0xfffa3942, 4, x[5] + 0xfffa3942, a, b, c, d);
    a := MacroStep(F3(b, c, d), a, b, x[5] + 0xfffa3942, 4);
    Step3(s0, x, 33, 8, 0x8771f681, 11, x[8] + 0x8771f681, d, a, b, c);
    d := MacroStep(F3(a, b, c), d, a, x[8] + 0x8771f681, 11);
    Step3(s0, x, 34, 11, 0x6d9d6122, 16, x[11] + 0x6d9d6122, c, d, a, b);
    c := MacroStep(F3(d, a, b), c, d, x[11] + 0x6d9d6122, 16);
    Step3(s0, x, 35, 14, 0xfde5380c, 23, x[14] + 0xfde5380c, b, c, d, a);
    b := MacroStep(F3(c, d, a), b, c, x[14] + 0xfde5380c, 23);
    Step3(s0, x, 36, 1, 0xa4beea44, 4, x[1] + 0xa4beea44, a, b, c, d);
    a := MacroStep(F3(b, c, d), a, b, x[1] + 0xa4beea44, 4);
    Step3(s0, x, 37, 4, 0x4bdecfa9, 11, x[4] + 0x4bdecfa9, d, a, b, c);
    d := MacroStep(F3(a, b, c), d, a, x[4] + 0x4bdecfa9, 11);
    Step3(s0, x, 38, 7, 0xf6bb4b60, 16, x[7] + 0xf6bb4b60, c, d, a, b);
    c := MacroStep(F3(d, a, b), c, d, x[7] + 0xf6bb4b60, 16);
    Step3(s0, x, 39, 10, 0xbebfbc70, 23, x[10] + 0xbebfbc70, b, c, d, a);
    b := MacroStep(F3(c, d, a), b, c, x[10] + 0xbebfbc70, 23);
    Step3(s0, x, 40, 13, 0x289b7ec6, 4, x[13] + 0x289b7ec6, a, b, c, d);
    a := MacroStep(F3(b, c, d), a, b, x[13] + 0x289b7ec6, 4);
    Step3(s0, x, 41, 0, 0xeaa127fa, 11, x[0] + 0xeaa127fa, d, a, b, c);
    d := MacroStep(F3(a, b, c), d, a, x[0] + 0xeaa127fa, 11);
    Step3(s0, x, 42, 3, 0xd4ef3085, 16, x[3] + 0xd4ef3085, c, d, a, b);
    c := MacroStep(F3(d, a, b), c, d, x[3] + 0xd4ef3085, 16);
    Step3(s0, x, 43, 6, 0x04881d05, 23, x[6] + 0x04881d05, b, c, d, a);
    b := MacroStep(F3(c, d, a), b, c, x[6] + 0x04881d05, 23);
    Step3(s0, x, 44, 9, 0xd9d4d039, 4, x[9] + 0xd9d4d039, a, b, c, d);
    a := MacroStep(F3(b, c, d), a, b, x[9] + 0xd9d4d039, 4);
    Step3(s0, x, 45, 12, 0xe6db99e5, 11, x[12] + 0xe6db99e5, d, a, b, c);
    d := MacroStep(F3(a, b, c), d, a, x[12] + 0xe6db99e5, 11);
    Step3(s0, x, 46, 15, 0x1fa27cf8, 16, x[15] + 0x1fa27cf8, c, d, a, b);
    c := MacroStep(F3(d, a, b), c, d, x[15] + 0x1fa27cf8, 16);
    Step3(s0, x, 47, 2, 0xc4ac5665, 23, x[2] + 0xc4ac5665, b, c, d, a);
    b := MacroStep(F3(c, d, a), b, c, x[2] + 0xc4ac5665, 23);
  }

  method Round4(ghost s0: Words, x: seq<bv32>, a0: bv32, b0: bv32, c0: bv32, d0: bv32)
      returns (a: bv32, b: bv32, c: bv32, d: bv32)
    requires |x| == 16 && Words(a0, b0, c0, d0) == Steps(s0, x, 48)
    ensures Words(a, b, c, d) == Steps(s0, x, 64)
  {
    hide F1, F2, F3, F4, MacroStep, Steps, Index, Shift, T;
    WordsOfRound4();
    ShiftsOfRound4();
    SinesOfRound4();
    a, b, c, d := a0, b0, c0, d0;
    Step4(s0, x, 48, 0, 0xf4292244, 6, x[0] + 0xf4292244, a, b, c, d);
    a := MacroStep(F4(b, c, d), a, b, x[0] + 0xf4292244, 6);
    Step4(s0, x, 49, 7, 0x432aff97, 10, x[7] + 0x432aff97, d, a, b, c);
    d := MacroStep(F4(a, b, c), d, a, x[7] + 0x432aff97, 10);
    Step4(s0, x, 50, 14, 0xab9423a7, 15, x[14] + 0xab9423a7, c, d, a, b);
    c := MacroStep(F4(d, a, b), c, d, x[14] + 0xab9423a7, 15);
    Step4(s0, x, 51, 5, 0xfc93a039, 21, x[5] + 0xfc93a039, b, c, d, a);
    b := MacroStep(F4(c, d, a), b, c, x[5] + 0xfc93a039, 21);
    Step4(s0, x, 52, 12, 0x655b59c3, 6, x[12] + 0x655b59c3, a, b, c, d);
    a := MacroStep(F4(b, c, d), a, b, x[12] + 0x655b59c3, 6);
    Step4(s0, x, 53, 3, 0x8f0ccc92, 10, x[3] + 0x8f0ccc92, d, a, b, c);
    d := MacroStep(F4(a, b, c), d, a, x[3] + 0x8f0ccc92, 10);
    Step4(s0, x, 54, 10, 0xffeff47d, 15, x[10] + 0xffeff47d, c, d, a, b);
    c := MacroStep(F4(d, a, b), c, d, x[10] + 0xffeff47d, 15);
    Step4(s0, x, 55, 1, 0x85845dd1, 21, x[1] + 0x85845dd1, b, c, d, a);
    b := MacroStep(F4(c, d, a), b, c, x[1] + 0x85845dd1, 21);
    Step4(s0, x, 56, 8, 0x6fa87e4f, 6, x[8] + 0x6fa87e4f, a, b, c, d);
    a := MacroStep(F4(b, c, d), a, b, x[8] + 0x6fa87e4f, 6);
    Step4(s0, x, 57, 15, 0xfe2ce6e0, 10, x[15] + 0xfe2ce6e0, d, a, b, c);
    d := MacroStep(F4(a, b, c), d, a, x[15] + 0xfe2ce6e0, 10);
    Step4(s0, x, 58, 6, 0xa3014314, 15, x[6] + 0xa3014314, c, d, a, b);
    c := MacroStep(F4(d, a, b), c, d, x[6] + 0xa3014314, 15);
    Step4(s0, x, 59, 13, 0x4e0811a1, 21, x[13] + 0x4e0811a1, b, c, d, a);
    b := MacroStep(F4(c, d, a), b, c, x[13] + 0x4e0811a1, 21);
    Step4(s0, x, 60, 4, 0xf7537e82, 6, x[4] + 0xf7537e82, a, b, c, d);
    a := MacroStep(F4(b, c, d), a, b, x[4] + 0xf7537e82, 6);
    Step4(s0, x, 61, 11, 0xbd3af235, 10, x[11] + 0xbd3af235, d, a, b, c);
    d := MacroStep(F4(a, b, c), d, a, x[11] + 0xbd3af235, 10);
    Step4(s0, x, 62, 2, 0x2ad7d2bb, 15, x[2] + 0x2ad7d2bb, c, d, a, b);
    c := MacroStep(F4(d, a, b), c, d, x[2] + 0x2ad7d2bb, 15);
    Step4(s0, x, 63, 9, 0xeb86d391, 21, x[9] + 0xeb86d391, b, c, d, a);
    b := MacroStep(F4(c, d, a), b, c, x[9] + 0xeb86d391, 21);
  }

  ghost function Registers(buf: array<bv32>): Words
    requires buf.Length == 4
    reads buf
  {
    Words(buf[0], buf[1], buf[2], buf[3])
  }

  // MD5Transform: the 64 unrolled steps on the words of one block.
  method Transform(buf: array<bv32>, x: seq<bv32>)
    requires buf.Length == 4 && |x| == 16
    modifies buf
    ensures Registers(buf) == Compress(old(Registers(buf)), x)
  {
    hide Steps, Sum;
    ghost var s0 := Registers(buf);
    Start(s0, x);
    var a, b, c, d := Round1(s0, x, buf[0], buf[1], buf[2], buf[3]);
    a, b, c, d := Round2(s0, x, a, b, c, d);
    a, b, c, d := Round3(s0, x, a, b, c, d);
    a, b, c, d := Round4(s0, x, a, b, c, d);
    buf[0] := Sum(buf[0], a);
    buf[1] := Sum(buf[1], b);
    buf[2] := Sum(buf[2], c);
    buf[3] := Sum(buf[3], d);
  }

  lemma Start(s0: Words, x: seq<bv32>)
    requires |x| == 16
    ensures Steps(s0, x, 0) == s0
  {
  }
}
