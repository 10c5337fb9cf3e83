/** What FIPS 180-4 says of its constants and functions in words, apart from their definitions: the
    constants are fractions of roots of primes, the functions act bit by bit, words are big-endian. */
module ShaFacts {
  import opened Bytes
  import opened Fips180

  // --- Sections 4.2.2 and 5.3.3: the constants --------------------------------------------------------

  const PRIMES: seq<nat> :=
    [2, 3, 5, 7, 11, 13, 17, 19] +
    [23, 29, 31, 37, 41, 43, 47, 53] +
    [59, 61, 67, 71, 73, 79, 83, 89] +
    [97, 101, 103, 107, 109, 113, 127, 131] +
    [137, 139, 149, 151, 157, 163, 167, 173] +
    [179, 181, 191, 193, 197, 199, 211, 223] +
    [227, 229, 233, 239, 241, 251, 257, 263] +
    [269, 271, 277, 281, 283, 293, 307, 311]

  /** The integer part of the cube root. */
  function CubeFloor(p: nat): (c: nat) {
    if p < 8 then 1 else if p < 27 then 2 else if p < 64 then 3 else if p < 125 then 4 else if p < 216 then 5 else 6
  }

  /** The integer part of the square root. */
  function SquareFloor(p: nat): (c: nat) {
    if p < 4 then 1 else if p < 9 then 2 else if p < 16 then 3 else 4
  }

  /** `K(t)` is the first thirty-two bits of the fractional part of the cube root of prime `t`. */
  predicate CubeRooted(t: nat)
    requires t < 64
  {
    var (p, x) := (PRIMES[t], CubeFloor(PRIMES[t]) * 0x1_0000_0000 + K(t));
    x * x * x <= p * 0x1_0000_0000_0000_0000_0000_0000 < (x + 1) * (x + 1) * (x + 1)
  }

  lemma ConstantsAreCubeRoots()
    ensures forall t :: 0 <= t < 64 ==> CubeRooted(t)
  {
    hide CubeRooted;
    Roots0(); Roots4(); Roots8(); Roots12();
    Roots16(); Roots20(); Roots24(); Roots28();
    Roots32(); Roots36(); Roots40(); Roots44();
    Roots48(); Roots52(); Roots56(); Roots60();
  }

  lemma Roots0()
    ensures CubeRooted(0) && CubeRooted(1) && CubeRooted(2) && CubeRooted(3)
  {
  }

  lemma Roots4()
    ensures CubeRooted(4) && CubeRooted(5) && CubeRooted(6) && CubeRooted(7)
  {
  }

  lemma Roots8()
    ensures CubeRooted(8) && CubeRooted(9) && CubeRooted(10) && CubeRooted(11)
  {
  }

  lemma Roots12()
    ensures CubeRooted(12) && CubeRooted(13) && CubeRooted(14) && CubeRooted(15)
  {
  }

  lemma Roots16()
    ensures CubeRooted(16) && CubeRooted(17) && CubeRooted(18) && CubeRooted(19)
  {
  }

  lemma Roots20()
    ensures CubeRooted(20) && CubeRooted(21) && CubeRooted(22) && CubeRooted(23)
  {
  }

  lemma Roots24()
    ensures CubeRooted(24) && CubeRooted(25) && CubeRooted(26) && CubeRooted(27)
  {
  }

  lemma Roots28()
    ensures CubeRooted(28) && CubeRooted(29) && CubeRooted(30) && CubeRooted(31)
  {
  }

  lemma Roots32()
    ensures CubeRooted(32) && CubeRooted(33) && CubeRooted(34) && CubeRooted(35)
  {
  }

  lemma Roots36()
    ensures CubeRooted(36) && CubeRooted(37) && CubeRooted(38) && CubeRooted(39)
  {
  }

  lemma Roots40()
    ensures CubeRooted(40) && CubeRooted(41) && CubeRooted(42) && CubeRooted(43)
  {
  }

  lemma Roots44()
    ensures CubeRooted(44) && CubeRooted(45) && CubeRooted(46) && CubeRooted(47)
  {
  }

  lemma Roots48()
    ensures CubeRooted(48) && CubeRooted(49) && CubeRooted(50) && CubeRooted(51)
  {
  }

  lemma Roots52()
    ensures CubeRooted(52) && CubeRooted(53) && CubeRooted(54) && CubeRooted(55)
  {
  }

  lemma Roots56()
    ensures CubeRooted(56) && CubeRooted(57) && CubeRooted(58) && CubeRooted(59)
  {
  }

  lemma Roots60()
    ensures CubeRooted(60) && CubeRooted(61) && CubeRooted(62) && CubeRooted(63)
  {
  }

  /** The same of a square root. */
  predicate SquareRooted(p: nat, w: word) {
    var x := SquareFloor(p) * 0x1_0000_0000 + w;
    x * x <= p * 0x1_0000_0000_0000_0000 < (x + 1) * (x + 1)
  }

  lemma InitialHashIsSquareRoots()
    ensures SquareRooted(2, H0.a) && SquareRooted(3, H0.b) && SquareRooted(5, H0.c) && SquareRooted(7, H0.d)
    ensures SquareRooted(11, H0.e) && SquareRooted(13, H0.f) && SquareRooted(17, H0.g) && SquareRooted(19, H0.h)
  {
  }

  // --- Section 4.1.2: the functions ------------------------------------------------------------------

  lemma BackAndForth(v: bv32)
    ensures (v as int) as bv32 == v
  {
  }

  /** Where x has ones the bits are those of y, elsewhere those of z. */
  lemma ChChooses(x: bv32, y: bv32, z: bv32)
    ensures Ch(x as int, y as int, z as int) == BvCh(x, y, z) as int
    ensures BvCh(x, y, z) & x == y & x && BvCh(x, y, z) & !x == z & !x
  {
    ChMasks(x, y, z);
    hide BvCh;
    BackAndForth(x); BackAndForth(y); BackAndForth(z);
  }

  lemma ChMasks(x: bv32, y: bv32, z: bv32)
    ensures BvCh(x, y, z) & x == y & x && BvCh(x, y, z) & !x == z & !x
  {
  }

  /** Where x and y agree the bits are theirs, elsewhere those of z. */
  lemma MajVotes(x: bv32, y: bv32, z: bv32)
    ensures Maj(x as int, y as int, z as int) == BvMaj(x, y, z) as int
    ensures BvMaj(x, y, z) & !(x ^ y) == x & !(x ^ y) && BvMaj(x, y, z) & (x ^ y) == z & (x ^ y)
  {
    MajAgree(x, y, z);
    MajDiffer(x, y, z);
    hide BvMaj;
    BackAndForth(x); BackAndForth(y); BackAndForth(z);
  }

  lemma MajAgree(x: bv32, y: bv32, z: bv32)
    ensures BvMaj(x, y, z) & !(x ^ y) == x & !(x ^ y)
  {
  }

  lemma MajDiffer(x: bv32, y: bv32, z: bv32)
    ensures BvMaj(x, y, z) & (x ^ y) == z & (x ^ y)
  {
  }

  lemma Turn2(x: bv32, y: bv32)
    ensures BvRotR(BvXor2(x, y), 2) == BvXor2(BvRotR(x, 2), BvRotR(y, 2))
  {
  }

  lemma Turn6(x: bv32, y: bv32)
    ensures BvRotR(BvXor2(x, y), 6) == BvXor2(BvRotR(x, 6), BvRotR(y, 6))
  {
  }

  lemma Turn7(x: bv32, y: bv32)
    ensures BvRotR(BvXor2(x, y), 7) == BvXor2(BvRotR(x, 7), BvRotR(y, 7))
  {
  }

  lemma Turn11(x: bv32, y: bv32)
    ensures BvRotR(BvXor2(x, y), 11) == BvXor2(BvRotR(x, 11), BvRotR(y, 11))
  {
  }

  lemma Turn13(x: bv32, y: bv32)
    ensures BvRotR(BvXor2(x, y), 13) == BvXor2(BvRotR(x, 13), BvRotR(y, 13))
  {
  }

  lemma Turn17(x: bv32, y: bv32)
    ensures BvRotR(BvXor2(x, y), 17) == BvXor2(BvRotR(x, 17), BvRotR(y, 17))
  {
  }

  lemma Turn18(x: bv32, y: bv32)
    ensures BvRotR(BvXor2(x, y), 18) == BvXor2(BvRotR(x, 18), BvRotR(y, 18))
  {
  }

  lemma Turn19(x: bv32, y: bv32)
    ensures BvRotR(BvXor2(x, y), 19) == BvXor2(BvRotR(x, 19), BvRotR(y, 19))
  {
  }

  lemma Turn22(x: bv32, y: bv32)
    ensures BvRotR(BvXor2(x, y), 22) == BvXor2(BvRotR(x, 22), BvRotR(y, 22))
  {
  }

  lemma Turn25(x: bv32, y: bv32)
    ensures BvRotR(BvXor2(x, y), 25) == BvXor2(BvRotR(x, 25), BvRotR(y, 25))
  {
  }

  lemma Shift3(x: bv32, y: bv32)
    ensures BvShR(BvXor2(x, y), 3) == BvXor2(BvShR(x, 3), BvShR(y, 3))
  {
  }

  lemma Shift10(x: bv32, y: bv32)
    ensures BvShR(BvXor2(x, y), 10) == BvXor2(BvShR(x, 10), BvShR(y, 10))
  {
  }

  lemma XorRegroups(a: bv32, b: bv32, c: bv32)
    ensures BvXor2(BvXor2(a, b), c) == BvXor2(a, BvXor2(b, c))
  {
  }

  lemma XorTurns(a: bv32, b: bv32)
    ensures BvXor2(a, b) == BvXor2(b, a)
  {
  }

  lemma XorExchanges(a: bv32, b: bv32, c: bv32, d: bv32)
    ensures BvXor2(BvXor2(a, b), BvXor2(c, d)) == BvXor2(BvXor2(a, c), BvXor2(b, d))
  {
    hide BvXor2;
    XorRegroups(a, b, BvXor2(c, d));
    XorRegroups(b, c, d);
    XorTurns(b, c);
    XorRegroups(c, b, d);
    XorRegroups(a, c, BvXor2(b, d));
  }

  lemma Xors(a: bv32, b: bv32, c: bv32, d: bv32, e: bv32, f: bv32)
    ensures BvXor3(BvXor2(a, b), BvXor2(c, d), BvXor2(e, f)) == BvXor2(BvXor3(a, c, e), BvXor3(b, d, f))
  {
    hide BvXor2;
    XorExchanges(a, b, c, d);
    XorExchanges(BvXor2(a, c), BvXor2(b, d), e, f);
  }

  /** `BigSigma0` respects xor, and its values on the thirty-two words with a single one are known: so
      are all its values. */
  lemma BigSigma0Is(x: bv32, y: bv32)
    ensures BigSigma0(x as int) == BvBigSigma0(x) as int
    ensures BvBigSigma0(BvXor2(x, y)) == BvXor2(BvBigSigma0(x), BvBigSigma0(y))
  {
    BigSigma0Linear(x, y);
    hide BvBigSigma0;
    BackAndForth(x);
  }

  lemma BigSigma0Linear(x: bv32, y: bv32)
    ensures BvBigSigma0(BvXor2(x, y)) == BvXor2(BvBigSigma0(x), BvBigSigma0(y))
  {
    hide BvXor2, BvXor3, BvRotR, BvShR;
    Turn2(x, y); Turn13(x, y); Turn22(x, y);
    Xors(BvRotR(x, 2), BvRotR(y, 2), BvRotR(x, 13), BvRotR(y, 13), BvRotR(x, 22), BvRotR(y, 22));
  }

  lemma BigSigma0Values()
    ensures BvBigSigma0(0x1) == 0x40080400 && BvBigSigma0(0x2) == 0x80100800
    ensures BvBigSigma0(0x4) == 0x201001 && BvBigSigma0(0x8) == 0x402002
    ensures BvBigSigma0(0x10) == 0x804004 && BvBigSigma0(0x20) == 0x1008008
    ensures BvBigSigma0(0x40) == 0x2010010 && BvBigSigma0(0x80) == 0x4020020
    ensures BvBigSigma0(0x100) == 0x8040040 && BvBigSigma0(0x200) == 0x10080080
    ensures BvBigSigma0(0x400) == 0x20100100 && BvBigSigma0(0x800) == 0x40200200
    ensures BvBigSigma0(0x1000) == 0x80400400 && BvBigSigma0(0x2000) == 0x800801
    ensures BvBigSigma0(0x4000) == 0x1001002 && BvBigSigma0(0x8000) == 0x2002004
    ensures BvBigSigma0(0x10000) == 0x4004008 && BvBigSigma0(0x20000) == 0x8008010
    ensures BvBigSigma0(0x40000) == 0x10010020 && BvBigSigma0(0x80000) == 0x20020040
    ensures BvBigSigma0(0x100000) == 0x40040080 && BvBigSigma0(0x200000) == 0x80080100
    ensures BvBigSigma0(0x400000) == 0x100201 && BvBigSigma0(0x800000) == 0x200402
    ensures BvBigSigma0(0x1000000) == 0x400804 && BvBigSigma0(0x2000000) == 0x801008
    ensures BvBigSigma0(0x4000000) == 0x1002010 && BvBigSigma0(0x8000000) == 0x2004020
    ensures BvBigSigma0(0x10000000) == 0x4008040 && BvBigSigma0(0x20000000) == 0x8010080
    ensures BvBigSigma0(0x40000000) == 0x10020100 && BvBigSigma0(0x80000000) == 0x20040200
  {
  }

  /** `BigSigma1` respects xor, and its values on the thirty-two words with a single one are known: so
      are all its values. */
  lemma BigSigma1Is(x: bv32, y: bv32)
    ensures BigSigma1(x as int) == BvBigSigma1(x) as int
    ensures BvBigSigma1(BvXor2(x, y)) == BvXor2(BvBigSigma1(x), BvBigSigma1(y))
  {
    BigSigma1Linear(x, y);
    hide BvBigSigma1;
    BackAndForth(x);
  }

  lemma BigSigma1Linear(x: bv32, y: bv32)
    ensures BvBigSigma1(BvXor2(x, y)) == BvXor2(BvBigSigma1(x), BvBigSigma1(y))
  {
    hide BvXor2, BvXor3, BvRotR, BvShR;
    Turn6(x, y); Turn11(x, y); Turn25(x, y);
    Xors(BvRotR(x, 6), BvRotR(y, 6), BvRotR(x, 11), BvRotR(y, 11), BvRotR(x, 25), BvRotR(y, 25));
  }

  lemma BigSigma1Values()
    ensures BvBigSigma1(0x1) == 0x4200080 && BvBigSigma1(0x2) == 0x8400100
    ensures BvBigSigma1(0x4) == 0x10800200 && BvBigSigma1(0x8) == 0x21000400
    ensures BvBigSigma1(0x10) == 0x42000800 && BvBigSigma1(0x20) == 0x84001000
    ensures BvBigSigma1(0x40) == 0x8002001 && BvBigSigma1(0x80) == 0x10004002
    ensures BvBigSigma1(0x100) == 0x20008004 && BvBigSigma1(0x200) == 0x40010008
    ensures BvBigSigma1(0x400) == 0x80020010 && BvBigSigma1(0x800) == 0x40021
    ensures BvBigSigma1(0x1000) == 0x80042 && BvBigSigma1(0x2000) == 0x100084
    ensures BvBigSigma1(0x4000) == 0x200108 && BvBigSigma1(0x8000) == 0x400210
    ensures BvBigSigma1(0x10000) == 0x800420 && BvBigSigma1(0x20000) == 0x1000840
    ensures BvBigSigma1(0x40000) == 0x2001080 && BvBigSigma1(0x80000) == 0x4002100
    ensures BvBigSigma1(0x100000) == 0x8004200 && BvBigSigma1(0x200000) == 0x10008400
    ensures BvBigSigma1(0x400000) == 0x20010800 && BvBigSigma1(0x800000) == 0x40021000
    ensures BvBigSigma1(0x1000000) == 0x80042000 && BvBigSigma1(0x2000000) == 0x84001
    ensures BvBigSigma1(0x4000000) == 0x108002 && BvBigSigma1(0x8000000) == 0x210004
    ensures BvBigSigma1(0x10000000) == 0x420008 && BvBigSigma1(0x20000000) == 0x840010
    ensures BvBigSigma1(0x40000000) == 0x1080020 && BvBigSigma1(0x80000000) == 0x2100040
  {
  }

  /** `SmallSigma0` respects xor, and its values on the thirty-two words with a single one are known: so
      are all its values. */
  lemma SmallSigma0Is(x: bv32, y: bv32)
    ensures SmallSigma0(x as int) == BvSmallSigma0(x) as int
    ensures BvSmallSigma0(BvXor2(x, y)) == BvXor2(BvSmallSigma0(x), BvSmallSigma0(y))
  {
    SmallSigma0Linear(x, y);
    hide BvSmallSigma0;
    BackAndForth(x);
  }

  lemma SmallSigma0Linear(x: bv32, y: bv32)
    ensures BvSmallSigma0(BvXor2(x, y)) == BvXor2(BvSmallSigma0(x), BvSmallSigma0(y))
  {
    hide BvXor2, BvXor3, BvRotR, BvShR;
    Turn7(x, y); Turn18(x, y); Shift3(x, y);
    Xors(BvRotR(x, 7), BvRotR(y, 7), BvRotR(x, 18), BvRotR(y, 18), BvShR(x, 3), BvShR(y, 3));
  }

  lemma SmallSigma0Values()
    ensures BvSmallSigma0(0x1) == 0x2004000 && BvSmallSigma0(0x2) == 0x4008000
    ensures BvSmallSigma0(0x4) == 0x8010000 && BvSmallSigma0(0x8) == 0x10020001
    ensures BvSmallSigma0(0x10) == 0x20040002 && BvSmallSigma0(0x20) == 0x40080004
    ensures BvSmallSigma0(0x40) == 0x80100008 && BvSmallSigma0(0x80) == 0x200011
    ensures BvSmallSigma0(0x100) == 0x400022 && BvSmallSigma0(0x200) == 0x800044
    ensures BvSmallSigma0(0x400) == 0x1000088 && BvSmallSigma0(0x800) == 0x2000110
    ensures BvSmallSigma0(0x1000) == 0x4000220 && BvSmallSigma0(0x2000) == 0x8000440
    ensures BvSmallSigma0(0x4000) == 0x10000880 && BvSmallSigma0(0x8000) == 0x20001100
    ensures BvSmallSigma0(0x10000) == 0x40002200 && BvSmallSigma0(0x20000) == 0x80004400
    ensures BvSmallSigma0(0x40000) == 0x8801 && BvSmallSigma0(0x80000) == 0x11002
    ensures BvSmallSigma0(0x100000) == 0x22004 && BvSmallSigma0(0x200000) == 0x44008
    ensures BvSmallSigma0(0x400000) == 0x88010 && BvSmallSigma0(0x800000) == 0x110020
    ensures BvSmallSigma0(0x1000000) == 0x220040 && BvSmallSigma0(0x2000000) == 0x440080
    ensures BvSmallSigma0(0x4000000) == 0x880100 && BvSmallSigma0(0x8000000) == 0x1100200
    ensures BvSmallSigma0(0x10000000) == 0x2200400 && BvSmallSigma0(0x20000000) == 0x4400800
    ensures BvSmallSigma0(0x40000000) == 0x8801000 && BvSmallSigma0(0x80000000) == 0x11002000
  {
  }

  /** `SmallSigma1` respects xor, and its values on the thirty-two words with a single one are known: so
      are all its values. */
  lemma SmallSigma1Is(x: bv32, y: bv32)
    ensures SmallSigma1(x as int) == BvSmallSigma1(x) as int
    ensures BvSmallSigma1(BvXor2(x, y)) == BvXor2(BvSmallSigma1(x), BvSmallSigma1(y))
  {
    SmallSigma1Linear(x, y);
    hide BvSmallSigma1;
    BackAndForth(x);
  }

  lemma SmallSigma1Linear(x: bv32, y: bv32)
    ensures BvSmallSigma1(BvXor2(x, y)) == BvXor2(BvSmallSigma1(x), BvSmallSigma1(y))
  {
    hide BvXor2, BvXor3, BvRotR, BvShR;
    Turn17(x, y); Turn19(x, y); Shift10(x, y);
    Xors(BvRotR(x, 17), BvRotR(y, 17), BvRotR(x, 19), BvRotR(y, 19), BvShR(x, 10), BvShR(y, 10));
  }

  lemma SmallSigma1Values()
    ensures BvSmallSigma1(0x1) == 0xa000 && BvSmallSigma1(0x2) == 0x14000
    ensures BvSmallSigma1(0x4) == 0x28000 && BvSmallSigma1(0x8) == 0x50000
    ensures BvSmallSigma1(0x10) == 0xa0000 && BvSmallSigma1(0x20) == 0x140000
    ensures BvSmallSigma1(0x40) == 0x280000 && BvSmallSigma1(0x80) == 0x500000
    ensures BvSmallSigma1(0x100) == 0xa00000 && BvSmallSigma1(0x200) == 0x1400000
    ensures BvSmallSigma1(0x400) == 0x2800001 && BvSmallSigma1(0x800) == 0x5000002
    ensures BvSmallSigma1(0x1000) == 0xa000004 && BvSmallSigma1(0x2000) == 0x14000008
    ensures BvSmallSigma1(0x4000) == 0x28000010 && BvSmallSigma1(0x8000) == 0x50000020
    ensures BvSmallSigma1(0x10000) == 0xa0000040 && BvSmallSigma1(0x20000) == 0x40000081
    ensures BvSmallSigma1(0x40000) == 0x80000102 && BvSmallSigma1(0x80000) == 0x205
    ensures BvSmallSigma1(0x100000) == 0x40a && BvSmallSigma1(0x200000) == 0x814
    ensures BvSmallSigma1(0x400000) == 0x1028 && BvSmallSigma1(0x800000) == 0x2050
    ensures BvSmallSigma1(0x1000000) == 0x40a0 && BvSmallSigma1(0x2000000) == 0x8140
    ensures BvSmallSigma1(0x4000000) == 0x10280 && BvSmallSigma1(0x8000000) == 0x20500
    ensures BvSmallSigma1(0x10000000) == 0x40a00 && BvSmallSigma1(0x20000000) == 0x81400
    ensures BvSmallSigma1(0x40000000) == 0x102800 && BvSmallSigma1(0x80000000) == 0x205000
  {
  }

  // --- Section 3.1: words are big-endian -----------------------------------------------------------------

  lemma WordIs(b: seq<byte>)
    requires |b| == 4
    ensures Word(b[0], b[1], b[2], b[3]) == BE(b) == 0x100_0000 * b[0] as int + 0x1_0000 * b[1] as int
      + 0x100 * b[2] as int + b[3] as int
  {
    var (x, y, z) := (b[..3], b[..2], b[..1]);
    assert x[..2] == y && y[..1] == z && z[..0] == [];
    assert BE(b) == 256 * BE(x) + b[3] && BE(x) == 256 * BE(y) + b[2];
    assert BE(y) == 256 * BE(z) + b[1] && BE(z) == 256 * BE(z[..0]) + b[0];
  }

  lemma WordBytesIs(w: word)
    ensures BE(WordBytes(w)) == w
  {
    hide BE;
    var b := WordBytes(w);
    WordIs(b);
    var (x, y, z) := (w / 0x100, w / 0x1_0000, w / 0x100_0000);
    assert w == 0x100_0000 * z + w % 0x100_0000 && w % 0x100_0000 == 0x1_0000 * (y % 0x100) + w % 0x1_0000;
    assert w % 0x1_0000 == 0x100 * (x % 0x100) + w % 0x100;
  }

  /** Byte `i` of a number in `n` bytes, the high end first. */
  lemma {:induction false} BigEndianByte(x: nat, n: nat, i: nat)
    requires i < n
    ensures ToBE(x, n)[i] == x / Pow256(n - 1 - i) % 256
  {
    if i < n - 1 {
      BigEndianByte(x / 256, n - 1, i);
      Quotient(x, Pow256(n - 2 - i));
      assert ToBE(x, n)[i] == ToBE(x / 256, n - 1)[i];
    }
  }

  lemma Quotient(x: nat, p: nat)
    requires p >= 1
    ensures x / 256 / p == x / (256 * p)
  {
    var (q, r) := (x / 256 / p, x / 256 % p);
    assert x == 256 * (p * q + r) + x % 256;
    assert 256 * (p * q) == (256 * p) * q;
    ModUnique(x, 256 * p, q, 256 * r + x % 256);
  }

  /** Xor of bytes is that of their bits. */
  lemma XorIs(a: bv8, b: bv8)
    ensures Xor(a as int, b as int) as bv8 == a ^ b
  {
    hide BvXor;
    ByteBackAndForth(a); ByteBackAndForth(b); ByteBackAndForth(BvXor(a, b));
    BvXorIs(a, b);
  }

  lemma BvXorIs(a: bv8, b: bv8)
    ensures BvXor(a, b) == a ^ b
  {
  }

  lemma ByteBackAndForth(a: bv8)
    ensures (a as int) as bv8 == a
  {
  }

  // --- Sections 5.1.1 and 6.2.2 ----------------------------------------------------------------------

  const M: nat := 0x1_0000_0000

  lemma Again(x: nat, y: nat)
    ensures (x % M + y) % M == (x + y) % M
  {
    var (q, r) := (x / M, (x % M + y) % M);
    var d := (x % M + y) / M;
    assert x + y == M * (q + d) + r;
    ModUnique(x + y, M, q + d, r);
  }

  lemma ThreeTerms(a: word, b: word, c: word)
    ensures Add(Add(a, b), c) == (a as int + b as int + c as int) % M
  {
    Again(a + b, c);
  }

  lemma FourTerms(a: word, b: word, c: word, d: word)
    ensures Add(Add(Add(a, b), c), d) == (a as int + b as int + c as int + d as int) % M
  {
    ThreeTerms(a, b, c);
    Again(a as int + b as int + c as int, d);
    hide Add;
    assert Add(Add(Add(a, b), c), d) == (Add(Add(a, b), c) as int + d as int) % M by { AddIs(Add(Add(a, b), c), d); }
  }

  lemma AddIs(a: word, b: word)
    ensures Add(a, b) == (a as int + b as int) % M
  {
  }

  lemma FiveTerms(a: word, b: word, c: word, d: word, e: word)
    ensures Add(Add(Add(Add(a, b), c), d), e) == (a as int + b as int + c as int + d as int + e as int) % M
  {
    hide Add;
    FourTerms(a, b, c, d);
    AddIs(Add(Add(Add(a, b), c), d), e);
    Again(a as int + b as int + c as int + d as int, e);
  }

  /** One round: the words move on by one place, and two new sums come in. */
  lemma RoundIs(s: State, k: word, w: word)
    ensures var r := Round(s, k, w);
      var t := s.h as int + BigSigma1(s.e) as int + Ch(s.e, s.f, s.g) as int + k as int + w as int;
      && r.b == s.a && r.c == s.b && r.d == s.c && r.f == s.e && r.g == s.f && r.h == s.g
      && r.a == (t + BigSigma0(s.a) as int + Maj(s.a, s.b, s.c) as int) % M
      && r.e == (t + s.d as int) % M
  {
    hide BigSigma0, BigSigma1, Ch, Maj, Add;
    var (s1, ch, s0, mj) := (BigSigma1(s.e), Ch(s.e, s.f, s.g), BigSigma0(s.a), Maj(s.a, s.b, s.c));
    var t := s.h as int + s1 as int + ch as int + k as int + w as int;
    FiveTerms(s.h, s1, ch, k, w);
    var t1 := Add(Add(Add(Add(s.h, s1), ch), k), w);
    AddIs(s0, mj);
    AddIs(t1, Add(s0, mj));
    AddIs(s.d, t1);
    Again(t, s.d);
    Again(t, Add(s0, mj));
    Again(s0 as int + mj as int, t);
  }

  /** The message schedule: sixteen big-endian words of the block, then sums of four earlier ones. */
  lemma ScheduleIs(block: seq<byte>, t: nat)
    requires |block| == 64
    ensures t < 16 ==> 4 * t + 4 <= |block| && W(block, t) == BE(block[4 * t..4 * t + 4])
    ensures t >= 16 ==>
      var (s1, s0) := (SmallSigma1(W(block, t - 2)), SmallSigma0(W(block, t - 15)));
      W(block, t) == (s1 as int + W(block, t - 7) as int + s0 as int + W(block, t - 16) as int) % M
  {
    hide SmallSigma0, SmallSigma1, Add, BE, Word;
    if t < 16 {
      WordIs(block[4 * t..4 * t + 4]);
    } else {
      FourTerms(SmallSigma1(W(block, t - 2)), W(block, t - 7), SmallSigma0(W(block, t - 15)), W(block, t - 16));
    }
  }

  /** The sixty-four rounds in their order, and the sums that end a block. */
  lemma CompressIs(s: State, block: seq<byte>, ss: seq<State>)
    requires |block| == 64 && |ss| == 65 && ss[0] == s
    requires forall t :: 0 <= t < 64 ==> ss[t + 1] == Round(ss[t], K(t), W(block, t))
    ensures var (r, e) := (Compress(s, block), ss[64]);
      && r.a == (s.a as int + e.a as int) % M && r.b == (s.b as int + e.b as int) % M
      && r.c == (s.c as int + e.c as int) % M && r.d == (s.d as int + e.d as int) % M
      && r.e == (s.e as int + e.e as int) % M && r.f == (s.f as int + e.f as int) % M
      && r.g == (s.g as int + e.g as int) % M && r.h == (s.h as int + e.h as int) % M
  {
    hide Rounds, K, W, Round, AddState, Add;
    RoundsAre(s, block, ss, 64);
    SumsAre(ss[64], s);
  }

  lemma SumsAre(x: State, y: State)
    ensures var r := AddState(x, y);
      && r.a == (y.a as int + x.a as int) % M && r.b == (y.b as int + x.b as int) % M
      && r.c == (y.c as int + x.c as int) % M && r.d == (y.d as int + x.d as int) % M
      && r.e == (y.e as int + x.e as int) % M && r.f == (y.f as int + x.f as int) % M
      && r.g == (y.g as int + x.g as int) % M && r.h == (y.h as int + x.h as int) % M
  {
  }

  lemma {:induction false} RoundsAre(s: State, block: seq<byte>, ss: seq<State>, n: nat)
    requires |block| == 64 && |ss| == 65 && ss[0] == s && n <= 64
    requires forall t :: 0 <= t < 64 ==> ss[t + 1] == Round(ss[t], K(t), W(block, t))
    ensures ss[n] == Rounds(s, block, n)
  {
    hide K, W, Round;
    if n > 0 {
      RoundsAre(s, block, ss, n - 1);
      assert ss[n - 1 + 1] == Round(ss[n - 1], K(n - 1), W(block, n - 1));
    }
  }

  /** Blocks are compressed one after the other. */
  lemma BlocksAre(s: State, blocks: seq<byte>, last: seq<byte>)
    requires |blocks| % 64 == 0 && |last| == 64
    ensures CompressAll(s, []) == s
    ensures CompressAll(s, blocks + last) == Compress(CompressAll(s, blocks), last)
  {
    hide Compress;
    var all := blocks + last;
    assert all[..|all| - 64] == blocks && all[|all| - 64..] == last;
  }

  /** The padded message: the message, a one bit, zeros, and the length in bits in the last eight bytes;
      to whole blocks, and no block more than that takes. */
  lemma PaddedIs(m: seq<byte>)
    ensures var (p, n) := (Padded(m), |Padded(m)|);
      && n % 64 == 0 && |m| + 9 <= n < |m| + 73
      && p[..|m|] == m && p[|m|] == 0x80 && (forall i :: |m| < i < n - 8 ==> p[i] == 0)
      && BE(p[n - 8..]) == 8 * |m| % 0x1_0000_0000_0000_0000
  {
    var (k, t) := (PadZeros(|m|), ToBE(8 * |m|, 8));
    BEOfToBE(8 * |m|, 8);
    Widths();
    hide PadZeros, Pow256, ToBE, BE;
    var p := Padded(m);
    var n := |p|;
    assert n == |m| + 9 + k;
    PaddedPieces(m, Zeros(k), t);
  }

  lemma PaddedPieces(m: seq<byte>, z: seq<byte>, t: seq<byte>)
    requires |t| == 8
    ensures var (p, n) := (m + [0x80] + z + t, |m| + 9 + |z|);
      && p[..|m|] == m && p[|m|] == 0x80 && p[n - 8..] == t
      && forall i :: |m| < i < n - 8 ==> p[i] == z[i - |m| - 1]
  {
  }

  /** The digest: the eight words in their order. */
  lemma StateBytesIs(s: State)
    ensures var b := StateBytes(s);
      && BE(b[0..4]) == s.a && BE(b[4..8]) == s.b && BE(b[8..12]) == s.c && BE(b[12..16]) == s.d
      && BE(b[16..20]) == s.e && BE(b[20..24]) == s.f && BE(b[24..28]) == s.g && BE(b[28..32]) == s.h
  {
    WordBytesIs(s.a); WordBytesIs(s.b); WordBytesIs(s.c); WordBytesIs(s.d);
    WordBytesIs(s.e); WordBytesIs(s.f); WordBytesIs(s.g); WordBytesIs(s.h);
    hide WordBytes, BE;
    var b := StateBytes(s);
    assert b[0..4] == WordBytes(s.a) && b[4..8] == WordBytes(s.b) && b[8..12] == WordBytes(s.c);
    assert b[12..16] == WordBytes(s.d) && b[16..20] == WordBytes(s.e) && b[20..24] == WordBytes(s.f);
    assert b[24..28] == WordBytes(s.g) && b[28..32] == WordBytes(s.h);
  }

  // --- RFC 2104 and RFC 8018 -----------------------------------------------------------------------------

  /** Byte `j` of the key as it is used: hashed when longer than a block, padded with zeros. */
  function KeyByte(key: seq<byte>, j: nat): (r: byte) {
    var k := if |key| > 64 then Hash(key) else key;
    if j < |k| then k[j] else 0
  }

  /** HMAC, given its two pad blocks byte by byte. */
  lemma HmacIs(key: seq<byte>, text: seq<byte>, inner: seq<byte>, outer: seq<byte>)
    requires |inner| == |outer| == 64
    requires forall j :: 0 <= j < 64 ==>
      inner[j] == Xor(KeyByte(key, j), 0x36) && outer[j] == Xor(KeyByte(key, j), 0x5c)
    ensures Hmac(key, text) == Hash(outer + Hash(inner + text))
  {
    hide Hash, Xor;
    assert inner == XorAll(BlockKey(key), Repeat(0x36, 64));
    assert outer == XorAll(BlockKey(key), Repeat(0x5c, 64));
  }

  /** `us` is a chain of HMACs that starts with salt and block number, `xs` its running xor. */
  ghost predicate Chain(password: seq<byte>, salt: seq<byte>, block: nat, us: seq<seq<byte>>, xs: seq<seq<byte>>)
    requires |us| == |xs| > 0
  {
    && us[0] == xs[0] == Hmac(password, salt + [block / 0x100_0000 % 256, block / 0x1_0000 % 256,
                                                block / 0x100 % 256, block % 256])
    && (forall k :: 0 < k < |us| ==> us[k] == Hmac(password, us[k - 1]))
    && (forall k :: 0 < k < |us| ==> |xs[k - 1]| == |us[k]| && xs[k] == XorAll(xs[k - 1], us[k]))
  }

  lemma BlockNumber(i: nat)
    ensures ToBE(i, 4) == [i / 0x100_0000 % 256, i / 0x1_0000 % 256, i / 0x100 % 256, i % 256]
  {
    var (x, y, z) := (i / 256, i / 256 / 256, i / 256 / 256 / 256);
    assert ToBE(z, 1) == ToBE(z / 256, 0) + [z % 256];
    assert ToBE(y, 2) == ToBE(z, 1) + [y % 256] && ToBE(x, 3) == ToBE(y, 2) + [x % 256];
    assert ToBE(i, 4) == ToBE(x, 3) + [i % 256];
    Quotient(i, 256);
    Quotient(i, 0x1_0000);
    Quotient(x, 256);
    hide ToBE;
  }

  lemma {:induction false} ChainIs(password: seq<byte>, salt: seq<byte>, block: nat, us: seq<seq<byte>>,
                                   xs: seq<seq<byte>>, k: nat)
    requires |us| == |xs| > k && Chain(password, salt, block, us, xs)
    ensures us[k] == U(password, salt, block, k + 1) && xs[k] == F(password, salt, k + 1, block)
  {
    hide Hmac, XorAll;
    if k == 0 {
      BlockNumber(block);
    } else {
      ChainIs(password, salt, block, us, xs, k - 1);
    }
  }

  /** Block `i` of the derived key, counted from 0, is the last running xor of such a chain for i + 1. */
  lemma Pbkdf2Is(password: seq<byte>, salt: seq<byte>, c: nat, n: nat, i: nat, us: seq<seq<byte>>, xs: seq<seq<byte>>)
    requires c == |us| == |xs| > 0 && 32 * i < n && Chain(password, salt, i + 1, us, xs)
    ensures |xs[c - 1]| == 32
    ensures var m := if n - 32 * i < 32 then n - 32 * i else 32;
      Pbkdf2(password, salt, c, n)[32 * i..32 * i + m] == xs[c - 1][..m]
  {
    hide Chain, U, F;
    ChainIs(password, salt, i + 1, us, xs, c - 1);
    var l := (n + 31) / 32;
    assert i < l;
    TBlocksBlock(password, salt, c, l, i);
    var m := if n - 32 * i < 32 then n - 32 * i else 32;
    var t := TBlocks(password, salt, c, l);
    assert t[..n][32 * i..32 * i + m] == t[32 * i..32 * i + m] == t[32 * i..32 * i + 32][..m];
  }

  lemma {:induction false} TBlocksBlock(password: seq<byte>, salt: seq<byte>, c: nat, l: nat, i: nat)
    requires c >= 1 && i < l
    ensures TBlocks(password, salt, c, l)[32 * i..32 * i + 32] == F(password, salt, c, i + 1)
    decreases l
  {
    hide F;
    var (t, init) := (TBlocks(password, salt, c, l), TBlocks(password, salt, c, l - 1));
    if i < l - 1 {
      TBlocksBlock(password, salt, c, l - 1, i);
      assert t[32 * i..32 * i + 32] == init[32 * i..32 * i + 32];
    }
  }
}
