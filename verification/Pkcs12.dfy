/** `pkcs12_kdf` of src/pkcs12.rs against Appendix B.2 of RFC 7292. */
module Pkcs12 {
  import opened Bytes
  import opened Hashing
  import Fips180
  import Sha256Engine

  // --- RFC 7292 Appendix B.2 -----------------------------------------------------------------

  /** "Concatenate copies of s to create a string of length v * ceiling(|s| / v)." */
  function Fill(s: seq<byte>, v: nat): (r: seq<byte>)
    requires v >= 1
    ensures |r| == v * ((|s| + v - 1) / v)
    ensures s != [] ==> forall i :: 0 <= i < |r| ==> r[i] == s[i % |s|]
  {
    if s == [] then
      assert v * ((v - 1) / v) == 0 by { ModUnique(v - 1, v, 0, v - 1); }
      []
    else seq(v * ((|s| + v - 1) / v), i requires 0 <= i => s[i % |s|])
  }

  function CopiesTo(a: seq<byte>, v: nat): (r: seq<byte>)
    requires a != []
    ensures |r| == v && forall i :: 0 <= i < v ==> r[i] == Cyclic(a, i)
  {
    seq(v, i requires 0 <= i => Cyclic(a, i))
  }

  function Cyclic(a: seq<byte>, i: nat): (r: byte)
    requires a != []
  {
    a[i % |a|]
  }

  /** H applied r times. */
  function Iterated(alg: Algorithm, m: seq<byte>, r: nat): (v: seq<byte>)
    requires r >= 1
  {
    if r == 1 then alg.h(m) else alg.h(Iterated(alg, m, r - 1))
  }

  /** I_j := (I_j + B + 1) mod 2^(8v), as a v-byte big-endian string. */
  function AddBlock(block: seq<byte>, b: seq<byte>): (r: seq<byte>)
    ensures |r| == |block|
  {
    ToBE(BE(block) + BE(b) + 1, |block|)
  }

  /** Step 6C: every v-byte block of I. */
  function AddAll(i: seq<byte>, b: seq<byte>): (r: seq<byte>)
    requires |b| >= 1
    ensures |r| == |i|
    decreases |i|
  {
    if |i| < |b| then i else AddBlock(i[..|b|], b) + AddAll(i[|b|..], b)
  }

  /** A_1 || A_2 || ... || A_c of step 6, from the current I. */
  function Blocks(alg: Algorithm, d: seq<byte>, i: seq<byte>, r: nat, c: nat): (out: seq<byte>)
    requires alg.Valid() && r >= 1
    ensures |out| == alg.outLen * c
    decreases c
  {
    if c == 0 then [] else
      var a := Iterated(alg, d + i, r);
      IteratedLength(alg, d + i, r);
      assert alg.outLen * c == alg.outLen + alg.outLen * (c - 1);
      a + Blocks(alg, d, AddAll(i, CopiesTo(a, alg.blockLen)), r, c - 1)
  }

  lemma IteratedLength(alg: Algorithm, m: seq<byte>, r: nat)
    requires alg.Valid() && r >= 1
    ensures |Iterated(alg, m, r)| == alg.outLen
  {
  }

  function Kdf(alg: Algorithm, pass: seq<byte>, salt: seq<byte>, id: byte, r: nat, n: nat): (k: seq<byte>)
    requires alg.Valid() && r >= 1
    ensures |k| == n
  {
    var i := Fill(salt, alg.blockLen) + Fill(pass, alg.blockLen);
    var c := (n + alg.outLen - 1) / alg.outLen;
    CeilCovers(n, alg.outLen);
    Blocks(alg, Diversifier(id, alg.blockLen), i, r, c)[..n]
  }

  /** Step 1: v copies of ID. */
  function Diversifier(id: byte, v: nat): (r: seq<byte>) { seq(v, _ => id) }

  lemma CeilCovers(n: nat, u: nat)
    requires u >= 1
    ensures var c := (n + u - 1) / u; u * c >= n && (c > 0 ==> u * (c - 1) < n) && (n > 0 ==> c > 0)
  {
    var c := (n + u - 1) / u;
    assert n + u - 1 == u * c + (n + u - 1) % u;
    assert u * (c - 1) == u * c - u;
  }

  // --- The carry loop ------------------------------------------------------------------------

  lemma {:induction false} BECons(b: byte, rest: seq<byte>)
    ensures BE([b] + rest) == b * Pow256(|rest|) + BE(rest)
    decreases |rest|
  {
    var x := [b] + rest;
    if rest == [] {
      assert x[..0] == [] && BE(x) == 256 * BE(x[..0]) + b;
    } else {
      var (init, l) := (rest[..|rest| - 1], rest[|rest| - 1]);
      BECons(b, init);
      assert x[..|x| - 1] == [b] + init;
      Shift(b, Pow256(|init|), BE(init), l);
    }
  }

  lemma Shift(b: nat, p: nat, r: nat, l: nat)
    ensures 256 * (b * p + r) + l == b * (256 * p) + (256 * r + l)
  {
    assert 256 * (b * p) == b * (256 * p);
  }

  lemma {:induction false} BEInverse(x: seq<byte>, carry: nat)
    ensures ToBE(BE(x) + carry * Pow256(|x|), |x|) == x
    decreases |x|
  {
    if x != [] {
      var (y, l) := (x[..|x| - 1], x[|x| - 1]);
      BEInverse(y, carry);
      var t := BE(y) + carry * Pow256(|y|);
      Shift(carry, Pow256(|y|), BE(y), l);
      var v := BE(x) + carry * Pow256(|x|);
      assert v == 256 * t + l;
      ModUnique(v, 256, t, l);
      assert ToBE(v, |x|) == ToBE(t, |y|) + [l];
      assert x == y + [l];
    }
  }

  /** One turn of the inner loop: the digit and the carry account for the column's sum. */
  lemma CarryStep(x: seq<byte>, b: seq<byte>, k: nat, sums: seq<byte>, carry: nat, s: nat)
    requires k < |x| == |b| && |sums| == |x| - k - 1
    requires BE(x[k + 1..]) + BE(b[k + 1..]) + 1 == BE(sums) + carry * Pow256(|sums|)
    requires s == x[k] + b[k] + carry
    ensures BE(x[k..]) + BE(b[k..]) + 1 == BE([s % 256] + sums) + (s / 256) * Pow256(|sums| + 1)
  {
    hide BE, Pow256;
    assert x[k..] == [x[k]] + x[k + 1..] && b[k..] == [b[k]] + b[k + 1..];
    BECons(x[k], x[k + 1..]);
    BECons(b[k], b[k + 1..]);
    BECons(s % 256, sums);
    var p := Pow256(|sums|);
    PowStep(|sums|);
    ColumnSum(x[k], b[k], carry, s, p, BE(x[k + 1..]), BE(b[k + 1..]), BE(sums));
  }

  lemma PowStep(n: nat)
    ensures Pow256(n + 1) == 256 * Pow256(n)
  {
  }

  lemma ColumnSum(x: nat, b: nat, carry: nat, s: nat, p: nat, bx: nat, bb: nat, bs: nat)
    requires bx + bb + 1 == bs + carry * p && s == x + b + carry
    ensures (x * p + bx) + (b * p + bb) + 1 == ((s % 256) * p + bs) + (s / 256) * (256 * p)
  {
    Distribute(x, b, carry, p);
    Recompose(s, p);
  }

  lemma Distribute(x: nat, y: nat, z: nat, p: nat)
    ensures x * p + y * p + z * p == (x + y + z) * p
  {
  }

  lemma Recompose(s: nat, p: nat)
    ensures s * p == (s % 256) * p + (s / 256) * (256 * p)
  {
    var (q, r) := (s / 256, s % 256);
    assert s == 256 * q + r;
    assert (256 * q + r) * p == (256 * q) * p + r * p;
    assert (256 * q) * p == q * (256 * p);
  }

  lemma CarryStart(x: seq<byte>, b: seq<byte>, none: seq<byte>)
    requires |x| == |b| && none == []
    ensures BE(x[|x|..]) + BE(b[|b|..]) + 1 == BE(none) + 1 * Pow256(0)
  {
  }

  /** The last `v - k` bytes of the block at `off` hold the sum's digits, and with the carry they
      account for those columns. */
  ghost predicate Added(cur: seq<byte>, before: seq<byte>, off: nat, x: seq<byte>, b: seq<byte>, k: nat,
                        sums: seq<byte>, carry: nat) {
    && |x| == |b| && k <= |x| && off + |x| <= |before| && before[off..off + |x|] == x
    && |sums| == |x| - k && cur == before[..off + k] + sums + before[off + |x|..]
    && BE(x[k..]) + BE(b[k..]) + 1 == BE(sums) + carry * Pow256(|x| - k)
  }

  lemma AddedStart(before: seq<byte>, off: nat, x: seq<byte>, b: seq<byte>)
    requires |x| == |b| && off + |x| <= |before| && before[off..off + |x|] == x
    ensures Added(before, before, off, x, b, |x|, [], 1)
  {
    CarryStart(x, b, []);
    assert before == before[..off + |x|] + [] + before[off + |x|..];
  }

  lemma AddedStep(cur: seq<byte>, after: seq<byte>, before: seq<byte>, off: nat, x: seq<byte>, b: seq<byte>, k: nat,
                  sums: seq<byte>, carry: nat, digit: byte, s: nat)
    requires k < |x| && Added(cur, before, off, x, b, k + 1, sums, carry)
    requires off + k < |cur| && s == cur[off + k] + b[k] + carry && digit == s % 256 && after == cur[off + k := digit]
    ensures Added(after, before, off, x, b, k, [digit] + sums, s / 256)
  {
    hide BE, Pow256;
    var right := before[off + |x|..];
    DigitAt(cur, before, off + k, sums, right);
    assert before[off + k] == x[k];
    CarryStep(x, b, k, sums, carry, s);
    ReplaceDigit(cur, after, before, off + k, sums, right, digit);
  }

  lemma AddedDone(cur: seq<byte>, before: seq<byte>, off: nat, x: seq<byte>, b: seq<byte>, sums: seq<byte>, carry: nat)
    requires Added(cur, before, off, x, b, 0, sums, carry)
    ensures cur == before[..off] + AddBlock(x, b) + before[off + |x|..]
  {
    hide BE, Pow256, AddBlock;
    AddedBlock(x, b, sums, carry);
    assert before[..off + 0] == before[..off];
  }

  /** The inner loop on the block at `off`: big-endian addition of B + 1, in place. */
  method AddWithCarry(iBuf: array<byte>, off: nat, v: nat, a: seq<byte>)
    requires v >= 1 && off + v <= iBuf.Length && a != []
    modifies iBuf
    ensures iBuf[..] == old(iBuf[..off]) + AddBlock(old(iBuf[off..off + v]), CopiesTo(a, v)) + old(iBuf[off + v..])
  {
    hide Added, AddBlock, CopiesTo, Cyclic;
    ghost var before, x, b := iBuf[..], iBuf[off..off + v], CopiesTo(a, v);
    ghost var sums: seq<byte> := [];
    AddedStart(before, off, x, b);
    var carry: nat := 1;
    var k: nat := v;
    while k > 0
      invariant k <= v && carry < 256 && Added(iBuf[..], before, off, x, b, k, sums, carry)
    {
      k := k - 1;
      ghost var cur := iBuf[..];
      var s := iBuf[off + k] + Cyclic(a, k) + carry;
      var digit: byte := s % 256;
      iBuf[off + k] := digit;
      AddedStep(cur, iBuf[..], before, off, x, b, k, sums, carry, digit, s);
      carry, sums := s / 256, [digit] + sums;
    }
    AddedDone(iBuf[..], before, off, x, b, sums, carry);
  }

  lemma DigitAt(cur: seq<byte>, before: seq<byte>, p: nat, sums: seq<byte>, right: seq<byte>)
    requires p < |before| && cur == before[..p + 1] + sums + right
    ensures p < |cur| && cur[p] == before[p]
  {
  }

  lemma ReplaceDigit(cur: seq<byte>, after: seq<byte>, before: seq<byte>, p: nat, sums: seq<byte>, right: seq<byte>,
                     t: byte)
    requires p < |before| && cur == before[..p + 1] + sums + right && p < |cur| && after == cur[p := t]
    ensures after == before[..p] + ([t] + sums) + right
  {
  }

  lemma AddedBlock(x: seq<byte>, b: seq<byte>, sums: seq<byte>, carry: nat)
    requires |x| == |b| == |sums| && BE(x[0..]) + BE(b[0..]) + 1 == BE(sums) + carry * Pow256(|x| - 0)
    ensures AddBlock(x, b) == sums
  {
    assert x[0..] == x && b[0..] == b;
    BEInverse(sums, carry);
  }

  /** `for block in i_buf.chunks_exact_mut(v)`. */
  method AddToEveryBlock(iBuf: array<byte>, v: nat, a: seq<byte>)
    requires v >= 1 && a != []
    modifies iBuf
    ensures iBuf[..] == AddAll(old(iBuf[..]), CopiesTo(a, v))
  {
    hide AddBlock, CopiesTo;
    ghost var b := CopiesTo(a, v);
    ghost var target := AddAll(iBuf[..], b);
    var off: nat := 0;
    assert iBuf[0..] == iBuf[..] && iBuf[..0] == [];
    while off + v <= iBuf.Length
      invariant off <= iBuf.Length
      invariant target == iBuf[..off] + AddAll(iBuf[off..], b)
      decreases iBuf.Length - off
    {
      ghost var done, rest := iBuf[..off], iBuf[off..];
      assert rest[..v] == iBuf[off..off + v] && rest[v..] == iBuf[off + v..];
      AddWithCarry(iBuf, off, v, a);
      assert iBuf[..off + v] == done + AddBlock(rest[..v], b);
      assert iBuf[off + v..] == rest[v..];
      off := off + v;
    }
    assert iBuf[..] == iBuf[..off] + iBuf[off..];
  }

  /** The iterated hash: one-block steps on the SHA extensions when they apply (`ext`), otherwise
      the digest repeated. Both give H^r. */
  method RepeatHash(alg: Algorithm, ext: bool, m: seq<byte>, iterations: nat) returns (a: seq<byte>)
    requires alg.Valid() && iterations >= 1
    ensures a == Iterated(alg, m, iterations)
  {
    hide Fips180.Hash;
    var first := alg.h(m);
    if ext && alg.isSha256 {
      a := Sha256Engine.Iterate(first, iterations - 1);
      HashNIsIterated(alg, m, iterations);
    } else {
      a := first;
      for i := 1 to iterations
        invariant a == Iterated(alg, m, i)
      {
        a := alg.h(a);
      }
    }
  }

  lemma {:induction false} HashNIsIterated(alg: Algorithm, m: seq<byte>, r: nat)
    requires alg.Valid() && alg.isSha256 && r >= 1
    ensures Fips180.HashN(alg.h(m), r - 1) == Iterated(alg, m, r)
  {
    hide Fips180.Hash;
    if r > 1 {
      HashNIsIterated(alg, m, r - 1);
    }
  }

  lemma BlocksUnfold(alg: Algorithm, d: seq<byte>, i: seq<byte>, r: nat, c: nat)
    requires alg.Valid() && r >= 1
    ensures c == 0 ==> Blocks(alg, d, i, r, c) == []
    ensures var a := Iterated(alg, d + i, r);
      c > 0 ==> Blocks(alg, d, i, r, c) == a + Blocks(alg, d, AddAll(i, CopiesTo(a, alg.blockLen)), r, c - 1)
  {
  }

  /** Appending one block's share: a whole block while more is to come, else what is missing. */
  lemma TakeStep(target: seq<byte>, out: seq<byte>, a: seq<byte>, rest: seq<byte>, next: seq<byte>, n: nat, take: nat)
    requires target == out + rest && |out| <= n <= |target| && (|out| < n || n == 0) && a != []
    requires take == if |a| < n - |out| then |a| else n - |out|
    requires rest == [] || rest == a + next
    ensures var out' := out + a[..take];
      && |out'| <= n && (|out'| == n ==> out' == target[..n])
      && (|out'| < n ==> rest != [] && target == out' + next)
  {
    if rest == [] {
      assert a[..take] == [] && target[..n] == out;
    } else {
      assert (a + next)[..take] == a[..take];
      assert |out| + take < n ==> a[..take] == a;
    }
  }

  /** `pkcs12_kdf`. The source computes `iterations - 1` in u32 and its callers refuse 0. */
  method Pkcs12Kdf(alg: Algorithm, ext: bool, pass: seq<byte>, salt: seq<byte>, id: byte, iterations: nat, n: nat)
    returns (out: seq<byte>)
    requires alg.Valid() && iterations >= 1
    ensures out == Kdf(alg, pass, salt, id, iterations, n)
  {
    hide Fill, AddAll, CopiesTo, Iterated, Diversifier, Fips180.Hash;
    var (u, v) := (alg.outLen, alg.blockLen);
    var filled := Fill(salt, v) + Fill(pass, v);
    var iBuf := new byte[|filled|](i requires 0 <= i < |filled| => filled[i]);
    assert iBuf[..] == filled;
    var d := Diversifier(id, v);
    out := [];
    ghost var left: nat := (n + u - 1) / u;
    CeilCovers(n, u);
    ghost var target := Blocks(alg, d, filled, iterations, left);
    while true
      invariant |out| < n || (out == [] && n == 0)
      invariant n <= |target| && target == out + Blocks(alg, d, iBuf[..], iterations, left)
      decreases n - |out|
    {
      var a := RepeatHash(alg, ext, d + iBuf[..], iterations);
      IteratedLength(alg, d + iBuf[..], iterations);
      var take := if u < n - |out| then u else n - |out|;
      BlocksUnfold(alg, d, iBuf[..], iterations, left);
      ghost var next :=
        if left == 0 then [] else Blocks(alg, d, AddAll(iBuf[..], CopiesTo(a, v)), iterations, left - 1);
      TakeStep(target, out, a, Blocks(alg, d, iBuf[..], iterations, left), next, n, take);
      out := out + a[..take];
      if |out| == n {
        return;
      }
      AddToEveryBlock(iBuf, v, a);
      left := left - 1;
    }
  }

  // --- The derivation, step by step --------------------------------------------------------------------

  /** `x` in copies, cut to a whole number of v-byte blocks, and no more of them than it takes. */
  ghost predicate Copies(x: seq<byte>, v: nat, filled: seq<byte>) {
    && v >= 1 && |filled| % v == 0 && |x| <= |filled| < |x| + v
    && (x != [] ==> forall i :: 0 <= i < |filled| ==> filled[i] == x[i % |x|])
  }

  /** `hs` is a hash chain from `m`. */
  ghost predicate Hashed(alg: Algorithm, m: seq<byte>, hs: seq<seq<byte>>) {
    |hs| > 0 && hs[0] == alg.h(m) && forall k :: 0 < k < |hs| ==> hs[k] == alg.h(hs[k - 1])
  }

  lemma CopiesIs(x: seq<byte>, v: nat, filled: seq<byte>)
    requires v >= 1 && Copies(x, v, filled)
    ensures filled == Fill(x, v)
  {
    var q := |filled| / v;
    assert |filled| == v * q;
    ModUnique(|x| + v - 1, v, q, |x| + v - 1 - |filled|);
  }

  lemma {:induction false} HashedIs(alg: Algorithm, m: seq<byte>, hs: seq<seq<byte>>, k: nat)
    requires Hashed(alg, m, hs) && k < |hs|
    ensures hs[k] == Iterated(alg, m, k + 1)
  {
    if k > 0 {
      HashedIs(alg, m, hs, k - 1);
    }
  }

  /** Step 6C takes one block after the other: each, as a big-endian number, grows by B + 1. */
  lemma AddAllIs(block: seq<byte>, rest: seq<byte>, b: seq<byte>)
    requires |block| == |b| >= 1
    ensures AddAll([], b) == []
    ensures var x := AddAll(block + rest, b)[..|b|];
      && AddAll(block + rest, b) == x + AddAll(rest, b)
      && BE(x) == (BE(block) + BE(b) + 1) % Pow256(|b|)
  {
    var i := block + rest;
    assert i[..|b|] == block && i[|b|..] == rest;
    BEOfToBE(BE(block) + BE(b) + 1, |b|);
    hide BE, ToBE;
    assert AddAll(i, b) == AddBlock(block, b) + AddAll(rest, b);
    assert AddAll(i, b)[..|b|] == AddBlock(block, b);
  }

  /** `b` is `a` over and over, v bytes of it. */
  ghost predicate Repeated(a: seq<byte>, v: nat, b: seq<byte>) {
    |b| == v && a != [] && forall i :: 0 <= i < v ==> b[i] == a[i % |a|]
  }

  /** The states of the derivation: `ins[k]` is I before round `k`, and the last of `hs[k]` is A. */
  ghost predicate Rounds(alg: Algorithm, d: seq<byte>, r: nat, ins: seq<seq<byte>>, hs: seq<seq<seq<byte>>>)
    requires |ins| == |hs| && r >= 1
  {
    && (forall k :: 0 <= k < |ins| ==> |hs[k]| == r && Hashed(alg, d + ins[k], hs[k]))
    && (forall k :: 0 < k < |ins| ==> NextI(alg, ins[k - 1], hs[k - 1], r, ins[k]))
  }

  ghost predicate NextI(alg: Algorithm, i: seq<byte>, h: seq<seq<byte>>, r: nat, next: seq<byte>) {
    && |h| == r >= 1 && alg.blockLen >= 1
    && exists b: seq<byte> :: Repeated(h[r - 1], alg.blockLen, b) && next == AddAll(i, b)
  }

  /** The last of every chain, one behind the other. */
  function Joined(hs: seq<seq<seq<byte>>>, r: nat): (out: seq<byte>)
    requires r >= 1 && forall k :: 0 <= k < |hs| ==> |hs[k]| == r
  {
    if hs == [] then [] else hs[0][r - 1] + Joined(hs[1..], r)
  }

  lemma {:induction false} BlocksAre(alg: Algorithm, d: seq<byte>, r: nat, ins: seq<seq<byte>>, hs: seq<seq<seq<byte>>>)
    requires alg.Valid() && r >= 1 && |ins| == |hs| > 0 && Rounds(alg, d, r, ins, hs)
    ensures Blocks(alg, d, ins[0], r, |ins|) == Joined(hs, r)
    decreases |ins|
  {
    HashedIs(alg, d + ins[0], hs[0], r - 1);
    BlocksUnfold(alg, d, ins[0], r, |ins|);
    var a := hs[0][r - 1];
    hide AddAll, Hashed, Blocks, Iterated;
    if |ins| == 1 {
      BlocksUnfold(alg, d, AddAll(ins[0], CopiesTo(a, alg.blockLen)), r, 0);
      assert hs[1..] == [];
    } else {
      assert NextI(alg, ins[0], hs[0], r, ins[1]);
      var b: seq<byte> :| Repeated(a, alg.blockLen, b) && ins[1] == AddAll(ins[0], b);
      assert b == CopiesTo(a, alg.blockLen);
      RoundsRest(alg, d, r, ins, hs);
      BlocksAre(alg, d, r, ins[1..], hs[1..]);
    }
  }

  lemma RoundsRest(alg: Algorithm, d: seq<byte>, r: nat, ins: seq<seq<byte>>, hs: seq<seq<seq<byte>>>)
    requires r >= 1 && |ins| == |hs| > 1 && Rounds(alg, d, r, ins, hs)
    ensures Rounds(alg, d, r, ins[1..], hs[1..])
  {
    hide NextI, Hashed;
    forall k | 0 < k < |ins| - 1 ensures NextI(alg, ins[1..][k - 1], hs[1..][k - 1], r, ins[1..][k]) {
      assert NextI(alg, ins[k + 1 - 1], hs[k + 1 - 1], r, ins[k + 1]);
    }
  }

  /** The derived key: the A of every round, one behind the other, cut to length. D is v copies of the
      id; I starts with the copies of the salt and, behind them, of the password. */
  lemma KdfIs(alg: Algorithm, pass: seq<byte>, salt: seq<byte>, id: byte, r: nat, n: nat, d: seq<byte>, s: seq<byte>,
              p: seq<byte>, ins: seq<seq<byte>>, hs: seq<seq<seq<byte>>>)
    requires alg.Valid() && r >= 1 && n > 0 && |ins| == |hs| == (n + alg.outLen - 1) / alg.outLen
    requires |d| == alg.blockLen && forall i :: 0 <= i < |d| ==> d[i] == id
    requires Copies(salt, alg.blockLen, s) && Copies(pass, alg.blockLen, p)
    requires Rounds(alg, d, r, ins, hs) && (ins != [] ==> ins[0] == s + p)
    ensures |Joined(hs, r)| >= n && Kdf(alg, pass, salt, id, r, n) == Joined(hs, r)[..n]
  {
    CopiesIs(salt, alg.blockLen, s);
    CopiesIs(pass, alg.blockLen, p);
    assert d == Diversifier(id, alg.blockLen);
    CeilCovers(n, alg.outLen);
    BlocksAre(alg, d, r, ins, hs);
    hide Fill, Copies, Rounds, Blocks, Diversifier;
  }
}
