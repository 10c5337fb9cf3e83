/** The standards the hash engine is measured against: SHA-256 (FIPS 180-4), HMAC (RFC 2104) and
    PBKDF2 (RFC 8018), written as their documents write them. */
module Fips180 {
  import opened Bytes

  type word = x: int | 0 <= x < 0x1_0000_0000

  /** The eight working variables / hash words. */
  datatype State = State(a: word, b: word, c: word, d: word, e: word, f: word, g: word, h: word)

  // Section 3.2: + is addition modulo 2^32, ROTR and SHR act on the bits of the word.
  function Add(x: word, y: word): (r: word) { (x + y) % 0x1_0000_0000 }
  function BvRotR(x: bv32, n: bv32): (r: bv32) requires 0 < n < 32 { (x >> n) | (x << (32 - n)) }

  function BvShR(x: bv32, n: bv32): (r: bv32) requires 0 < n < 32 { x >> n }

  function BvXor2(x: bv32, y: bv32): (r: bv32) { x ^ y }

  function BvXor3(x: bv32, y: bv32, z: bv32): (r: bv32) { BvXor2(BvXor2(x, y), z) }

  // Section 4.1.2.
  function BvCh(x: bv32, y: bv32, z: bv32): (r: bv32) { (x & y) ^ (!x & z) }
  function BvMaj(x: bv32, y: bv32, z: bv32): (r: bv32) { (x & y) ^ (x & z) ^ (y & z) }
  function BvBigSigma0(x: bv32): (r: bv32) { BvXor3(BvRotR(x, 2), BvRotR(x, 13), BvRotR(x, 22)) }
  function BvBigSigma1(x: bv32): (r: bv32) { BvXor3(BvRotR(x, 6), BvRotR(x, 11), BvRotR(x, 25)) }
  function BvSmallSigma0(x: bv32): (r: bv32) { BvXor3(BvRotR(x, 7), BvRotR(x, 18), BvShR(x, 3)) }
  function BvSmallSigma1(x: bv32): (r: bv32) { BvXor3(BvRotR(x, 17), BvRotR(x, 19), BvShR(x, 10)) }

  function Ch(x: word, y: word, z: word): (r: word) { BvCh(x as bv32, y as bv32, z as bv32) as int }
  function Maj(x: word, y: word, z: word): (r: word) { BvMaj(x as bv32, y as bv32, z as bv32) as int }
  function BigSigma0(x: word): (r: word) { BvBigSigma0(x as bv32) as int }
  function BigSigma1(x: word): (r: word) { BvBigSigma1(x as bv32) as int }
  function SmallSigma0(x: word): (r: word) { BvSmallSigma0(x as bv32) as int }
  function SmallSigma1(x: word): (r: word) { BvSmallSigma1(x as bv32) as int }

  // Section 4.2.2.
  const K_TABLE: seq<word> :=
    [0x428a2f98, 0x71374491, 0xb5c0fbcf, 0xe9b5dba5, 0x3956c25b, 0x59f111f1, 0x923f82a4, 0xab1c5ed5] +
    [0xd807aa98, 0x12835b01, 0x243185be, 0x550c7dc3, 0x72be5d74, 0x80deb1fe, 0x9bdc06a7, 0xc19bf174] +
    [0xe49b69c1, 0xefbe4786, 0x0fc19dc6, 0x240ca1cc, 0x2de92c6f, 0x4a7484aa, 0x5cb0a9dc, 0x76f988da] +
    [0x983e5152, 0xa831c66d, 0xb00327c8, 0xbf597fc7, 0xc6e00bf3, 0xd5a79147, 0x06ca6351, 0x14292967] +
    [0x27b70a85, 0x2e1b2138, 0x4d2c6dfc, 0x53380d13, 0x650a7354, 0x766a0abb, 0x81c2c92e, 0x92722c85] +
    [0xa2bfe8a1, 0xa81a664b, 0xc24b8b70, 0xc76c51a3, 0xd192e819, 0xd6990624, 0xf40e3585, 0x106aa070] +
    [0x19a4c116, 0x1e376c08, 0x2748774c, 0x34b0bcb5, 0x391c0cb3, 0x4ed8aa4a, 0x5b9cca4f, 0x682e6ff3] +
    [0x748f82ee, 0x78a5636f, 0x84c87814, 0x8cc70208, 0x90befffa, 0xa4506ceb, 0xbef9a3f7, 0xc67178f2]

  function K(t: nat): (r: word)
    requires t < 64
  {
    K_TABLE[t]
  }

  // Section 5.3.3.
  const H0 := State(0x6a09e667, 0xbb67ae85, 0x3c6ef372, 0xa54ff53a, 0x510e527f, 0x9b05688c, 0x1f83d9ab, 0x5be0cd19)

  function Word(b0: byte, b1: byte, b2: byte, b3: byte): (r: word) {
    0x100_0000 * b0 + 0x1_0000 * b1 + 0x100 * b2 + b3
  }

  /** Message word `t` of a block, and the schedule of section 6.2.2 step 1. */
  function W(block: seq<byte>, t: nat): (r: word)
    requires |block| == 64
  {
    if t < 16 then Word(block[4 * t], block[4 * t + 1], block[4 * t + 2], block[4 * t + 3])
    else Add(Add(Add(SmallSigma1(W(block, t - 2)), W(block, t - 7)), SmallSigma0(W(block, t - 15))), W(block, t - 16))
  }

  /** Section 6.2.2 step 3, one value of t. */
  function Round(s: State, k: word, w: word): (r: State) {
    var t1 := Add(Add(Add(Add(s.h, BigSigma1(s.e)), Ch(s.e, s.f, s.g)), k), w);
    var t2 := Add(BigSigma0(s.a), Maj(s.a, s.b, s.c));
    State(Add(t1, t2), s.a, s.b, s.c, Add(s.d, t1), s.e, s.f, s.g)
  }

  function Rounds(s: State, block: seq<byte>, n: nat): (r: State)
    requires |block| == 64 && n <= 64
  {
    if n == 0 then s else Round(Rounds(s, block, n - 1), K(n - 1), W(block, n - 1))
  }

  function AddState(x: State, y: State): (r: State) {
    State(Add(x.a, y.a), Add(x.b, y.b), Add(x.c, y.c), Add(x.d, y.d),
          Add(x.e, y.e), Add(x.f, y.f), Add(x.g, y.g), Add(x.h, y.h))
  }

  /** Section 6.2.2 for one block. */
  function Compress(s: State, block: seq<byte>): (r: State)
    requires |block| == 64
  {
    AddState(Rounds(s, block, 64), s)
  }

  /** Section 6.2.2 over a whole number of blocks. */
  function CompressAll(s: State, blocks: seq<byte>): (r: State)
    requires |blocks| % 64 == 0
    decreases |blocks|
  {
    if blocks == [] then s
    else Compress(CompressAll(s, blocks[..|blocks| - 64]), blocks[|blocks| - 64..])
  }

  function WordBytes(w: word): (r: seq<byte>)
    ensures |r| == 4
  {
    [w / 0x100_0000, w / 0x1_0000 % 0x100, w / 0x100 % 0x100, w % 0x100]
  }

  function StateBytes(s: State): (r: seq<byte>)
    ensures |r| == 32
  {
    WordBytes(s.a) + WordBytes(s.b) + WordBytes(s.c) + WordBytes(s.d) +
    WordBytes(s.e) + WordBytes(s.f) + WordBytes(s.g) + WordBytes(s.h)
  }

  /** The longest message of section 5.1.1: its bit length must fit 64 bits. */
  const MAX_LEN := 0x2000_0000_0000_0000

  /** Section 5.1.1: a one bit, zero bits, the 64-bit bit length. Below 64 only one count of zero
      bytes completes a block, so it is the least. */
  function PadZeros(len: nat): (k: nat)
    ensures k < 64 && (len + 9 + k) % 64 == 0
  {
    var r := (len + 9) % 64;
    if r == 0 then 0 else 64 - r
  }

  function Padded(m: seq<byte>): (r: seq<byte>)
    ensures |r| % 64 == 0
  {
    m + [0x80] + Zeros(PadZeros(|m|)) + ToBE(8 * |m|, 8)
  }

  /** SHA-256 of a message shorter than 2^61 bytes. */
  function Hash(m: seq<byte>): (r: seq<byte>)
    ensures |r| == 32
  {
    StateBytes(CompressAll(H0, Padded(m)))
  }

  /** The n-fold hash. */
  function HashN(x: seq<byte>, n: nat): (r: seq<byte>)
    ensures n > 0 ==> |r| == 32
  {
    if n == 0 then x else Hash(HashN(x, n - 1))
  }

  // RFC 2104 section 2, with B = 64 and L = 32.
  function BlockKey(key: seq<byte>): (r: seq<byte>)
    ensures |r| == 64
  {
    var k := if |key| > 64 then Hash(key) else key;
    k + Zeros(64 - |k|)
  }

  function Repeat(b: byte, n: nat): (r: seq<byte>)
    ensures |r| == n && forall i :: 0 <= i < n ==> r[i] == b
  {
    seq(n, i => b)
  }

  function Hmac(key: seq<byte>, text: seq<byte>): (r: seq<byte>)
    ensures |r| == 32
  {
    Hash(XorAll(BlockKey(key), Repeat(0x5c, 64)) + Hash(XorAll(BlockKey(key), Repeat(0x36, 64)) + text))
  }

  // RFC 8018 section 5.2.
  function U(password: seq<byte>, salt: seq<byte>, i: nat, j: nat): (r: seq<byte>)
    requires j >= 1
    ensures |r| == 32
  {
    if j == 1 then Hmac(password, salt + ToBE(i, 4)) else Hmac(password, U(password, salt, i, j - 1))
  }

  /** T_i = U_1 xor ... xor U_c. */
  function F(password: seq<byte>, salt: seq<byte>, c: nat, i: nat): (r: seq<byte>)
    requires c >= 1
    ensures |r| == 32
  {
    if c == 1 then U(password, salt, i, 1) else XorAll(F(password, salt, c - 1, i), U(password, salt, i, c))
  }

  /** T_1 || ... || T_l. */
  function TBlocks(password: seq<byte>, salt: seq<byte>, c: nat, l: nat): (r: seq<byte>)
    requires c >= 1
    ensures |r| == 32 * l
  {
    if l == 0 then [] else TBlocks(password, salt, c, l - 1) + F(password, salt, c, l)
  }

  function Pbkdf2(password: seq<byte>, salt: seq<byte>, c: nat, dkLen: nat): (r: seq<byte>)
    requires c >= 1
    ensures |r| == dkLen
  {
    TBlocks(password, salt, c, (dkLen + 31) / 32)[..dkLen]
  }
}
