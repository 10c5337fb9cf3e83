/** Bytes and the fixed-width integers that ZIP, the APK Signing Block and SHA-256 store in them. */
module Bytes {

  type byte = x: int | 0 <= x < 256

  const U16_MOD := 0x1_0000
  const U32_MOD := 0x1_0000_0000
  const U64_MOD := 0x1_0000_0000_0000_0000

  function Pow256(n: nat): (r: nat)
    ensures r >= 1
  {
    if n == 0 then 1 else 256 * Pow256(n - 1)
  }

  lemma Widths()
    ensures Pow256(2) == U16_MOD && Pow256(4) == U32_MOD && Pow256(8) == U64_MOD
  {
    assert Pow256(4) == 256 * 256 * Pow256(2);
    assert Pow256(6) == 256 * 256 * Pow256(4);
    assert Pow256(8) == 256 * 256 * Pow256(6);
  }

  /** Little-endian value of a whole byte string. */
  function LE(b: seq<byte>): (r: nat)
    ensures r < Pow256(|b|)
  {
    if b == [] then 0 else b[0] + 256 * LE(b[1..])
  }

  /** The low `n` bytes of `x`, little-endian: what a truncating `as uN` cast followed by
      `to_le_bytes` stores. */
  function ToLE(x: nat, n: nat): (r: seq<byte>)
    ensures |r| == n
  {
    if n == 0 then [] else [x % 256] + ToLE(x / 256, n - 1)
  }

  lemma {:induction false} ToLERoundTrip(x: nat, n: nat)
    ensures LE(ToLE(x, n)) == x % Pow256(n)
  {
    if n > 0 {
      ToLERoundTrip(x / 256, n - 1);
      assert ToLE(x, n)[1..] == ToLE(x / 256, n - 1);
      ModSplit(x, Pow256(n - 1));
    }
  }

  lemma FirstBytes(x: nat, n: nat)
    requires n >= 2
    ensures ToLE(x, n)[0] == x % 256 && ToLE(x, n)[1] == x / 256 % 256
  {
    assert ToLE(x, n)[1..] == ToLE(x / 256, n - 1);
  }

  lemma ModSplit(x: nat, p: nat)
    requires p >= 1
    ensures x % (256 * p) == x % 256 + 256 * ((x / 256) % p)
  {
    var q := x / 256;
    assert x == 256 * q + x % 256;
    assert q == p * (q / p) + q % p;
    assert x == (256 * p) * (q / p) + (256 * (q % p) + x % 256) by {
      assert 256 * (p * (q / p)) == (256 * p) * (q / p);
    }
    ModUnique(x, 256 * p, q / p, 256 * (q % p) + x % 256);
  }

  lemma ModUnique(x: nat, m: nat, q: nat, r: nat)
    requires m >= 1 && x == m * q + r && r < m
    ensures x % m == r && x / m == q
  {
    var q', r' := x / m, x % m;
    MulMonotone(m, q + 1, q');
    MulMonotone(m, q' + 1, q);
  }

  lemma MulMonotone(m: nat, a: int, b: int)
    ensures a <= b ==> m * a <= m * b
  {
  }

  lemma {:induction false} LERoundTrip(b: seq<byte>)
    ensures ToLE(LE(b), |b|) == b
  {
    if b != [] {
      LERoundTrip(b[1..]);
      assert LE(b) % 256 == b[0] && LE(b) / 256 == LE(b[1..]);
    }
  }

  function U16(b: seq<byte>, i: nat): (r: nat)
    requires i + 2 <= |b|
    ensures r < U16_MOD
  {
    Widths();
    LE(b[i..i + 2])
  }

  function U32(b: seq<byte>, i: nat): (r: nat)
    requires i + 4 <= |b|
    ensures r < U32_MOD
  {
    Widths();
    LE(b[i..i + 4])
  }

  function U64(b: seq<byte>, i: nat): (r: nat)
    requires i + 8 <= |b|
    ensures r < U64_MOD
  {
    Widths();
    LE(b[i..i + 8])
  }

  function PutU16(x: nat): (r: seq<byte>)
    ensures |r| == 2 && U16(r, 0) == x % U16_MOD
  {
    Widths(); ToLERoundTrip(x, 2);
    assert ToLE(x, 2)[0..2] == ToLE(x, 2);
    ToLE(x, 2)
  }

  function PutU32(x: nat): (r: seq<byte>)
    ensures |r| == 4 && U32(r, 0) == x % U32_MOD
  {
    Widths(); ToLERoundTrip(x, 4);
    assert ToLE(x, 4)[0..4] == ToLE(x, 4);
    ToLE(x, 4)
  }

  function PutU64(x: nat): (r: seq<byte>)
    ensures |r| == 8 && U64(r, 0) == x % U64_MOD
  {
    Widths(); ToLERoundTrip(x, 8);
    assert ToLE(x, 8)[0..8] == ToLE(x, 8);
    ToLE(x, 8)
  }

  /** The fields, byte by byte. */
  lemma LoadedBytes(b: seq<byte>, i: nat)
    ensures i + 2 <= |b| ==> U16(b, i) == b[i] as int + 0x100 * b[i + 1] as int
    ensures i + 4 <= |b| ==>
      U32(b, i) == b[i] as int + 0x100 * b[i + 1] as int + 0x1_0000 * b[i + 2] as int + 0x100_0000 * b[i + 3] as int
    ensures i + 8 <= |b| ==> U64(b, i) == U32(b, i) + 0x1_0000_0000 * U32(b, i + 4)
  {
    if i + 2 <= |b| { LowBytes(b[i..i + 2], 2); LowBytes(b[i..i + 2][1..], 1); }
    if i + 4 <= |b| { FourBytes(b[i..i + 4]); }
    if i + 8 <= |b| {
      var (x, lo, hi) := (b[i..i + 8], b[i..i + 4], b[i + 4..i + 8]);
      assert x == lo + hi;
      FourBytes(lo);
      LEConcat(lo, hi);
      Widths();
    }
  }

  lemma LowBytes(x: seq<byte>, n: nat)
    requires |x| == n > 0
    ensures LE(x) == x[0] + 256 * LE(x[1..]) && (n == 1 ==> LE(x) == x[0])
  {
  }

  lemma FourBytes(x: seq<byte>)
    requires |x| == 4
    ensures LE(x) == x[0] as int + 0x100 * x[1] as int + 0x1_0000 * x[2] as int + 0x100_0000 * x[3] as int
  {
    var (y, z, w) := (x[1..], x[2..], x[3..]);
    assert y[1..] == z && z[1..] == w;
    LowBytes(x, 4); LowBytes(y, 3); LowBytes(z, 2); LowBytes(w, 1);
  }

  lemma {:induction false} LEConcat(x: seq<byte>, y: seq<byte>)
    ensures LE(x + y) == LE(x) + Pow256(|x|) * LE(y)
  {
    if x == [] {
      assert x + y == y;
    } else {
      LEConcat(x[1..], y);
      assert (x + y)[1..] == x[1..] + y && (x + y)[0] == x[0];
      assert LE(x + y) == x[0] + 256 * LE(x[1..] + y) && LE(x) == x[0] + 256 * LE(x[1..]);
      Distribute(LE(x[1..]), Pow256(|x| - 1), LE(y));
    }
  }

  lemma Distribute(a: nat, p: nat, b: nat)
    ensures 256 * (a + p * b) == 256 * a + (256 * p) * b
  {
  }

  /** What is stored, byte by byte: the low end first, and what does not fit dropped. */
  lemma StoredBytes(x: nat)
    ensures PutU16(x) == [x % 256, x / 256 % 256]
    ensures PutU32(x) == [x % 256, x / 256 % 256, x / 256 / 256 % 256, x / 256 / 256 / 256 % 256]
    ensures PutU64(x) == PutU32(x) + PutU32(x / 256 / 256 / 256 / 256)
  {
    var (y, z, w) := (x / 256, x / 256 / 256, x / 256 / 256 / 256);
    assert ToLE(x, 2) == [x % 256] + ToLE(y, 1) && ToLE(y, 1) == [y % 256] + ToLE(z, 0);
    assert ToLE(x, 4) == [x % 256] + ToLE(y, 3) && ToLE(y, 3) == [y % 256] + ToLE(z, 2);
    assert ToLE(z, 2) == [z % 256] + ToLE(w, 1) && ToLE(w, 1) == [w % 256] + ToLE(w / 256, 0);
    assert ToLE(x, 8) == [x % 256] + ToLE(y, 7) && ToLE(y, 7) == [y % 256] + ToLE(z, 6);
    assert ToLE(z, 6) == [z % 256] + ToLE(w, 5) && ToLE(w, 5) == [w % 256] + ToLE(w / 256, 4);
  }

  /** Big-endian value of a whole byte string. */
  function BE(b: seq<byte>): (r: nat)
    ensures r < Pow256(|b|)
  {
    if b == [] then 0 else 256 * BE(b[..|b| - 1]) + b[|b| - 1]
  }

  /** The low `n` bytes of `x`, big-endian. */
  function ToBE(x: nat, n: nat): (r: seq<byte>)
    ensures |r| == n
  {
    if n == 0 then [] else ToBE(x / 256, n - 1) + [x % 256]
  }

  /** Writing a value out drops whatever does not fit: addition modulo 256^n. */
  lemma {:induction false} BEOfToBE(x: nat, n: nat)
    ensures BE(ToBE(x, n)) == x % Pow256(n)
  {
    if n > 0 {
      BEOfToBE(x / 256, n - 1);
      var r := ToBE(x, n);
      assert r[..n - 1] == ToBE(x / 256, n - 1);
      ModSplit(x, Pow256(n - 1));
    }
  }

  function BvXor(a: bv8, b: bv8): (r: bv8) { a ^ b }

  function Xor(a: byte, b: byte): (r: byte) { BvXor(a as bv8, b as bv8) as int }

  function XorAll(a: seq<byte>, b: seq<byte>): (r: seq<byte>)
    requires |a| == |b|
    ensures |r| == |a|
  {
    seq(|a|, i requires 0 <= i < |a| => Xor(a[i], b[i]))
  }

  function Zeros(n: nat): (r: seq<byte>)
    ensures |r| == n && forall i :: 0 <= i < n ==> r[i] == 0
  {
    seq(n, i => 0)
  }

  lemma {:induction false} ZeroBytes(b: seq<byte>)
    requires forall i :: 0 <= i < |b| ==> b[i] == 0
    ensures LE(b) == 0
  {
    if b != [] { ZeroBytes(b[1..]); }
  }

  method CopyInto(a: array<byte>, off: nat, data: seq<byte>)
    requires off + |data| <= a.Length
    modifies a
    ensures a[..] == old(a[..off]) + data + old(a[off + |data|..])
  {
    forall i | 0 <= i < |data| {
      a[off + i] := data[i];
    }
  }

  lemma SubSlice(s: seq<byte>, a: nat, n: nat, i: nat, j: nat)
    requires a + n <= |s| && i <= j <= n
    ensures s[a..a + n][i..j] == s[a + i..a + j]
  {
    var (x, y) := (s[a..a + n][i..j], s[a + i..a + j]);
    forall k | 0 <= k < j - i ensures x[k] == y[k] {
      assert x[k] == s[a..a + n][i + k] == s[a + i + k];
    }
    assert |x| == |y|;
  }
}
