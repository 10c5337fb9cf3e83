/** The signer blocks, the scheme blocks and the APK Signing Block of the APK Signature Scheme documents,
    byte by byte; and that src/sigblock.rs writes exactly that. Every length stands in four bytes, low
    byte first. */
module SignerFormat {
  import opened Wrappers
  import opened Bytes
  import opened Sigblock
  import opened Splice
  import opened Zip
  import Digest
  import opened Signed
  import opened Verifier

  /** A digest or signature by algorithm: the length of the element, the algorithm, the length of the
      bytes, the bytes. The sequence of one is preceded by its own length. */
  function ByAlgorithm(algId: nat, v: seq<byte>): (r: seq<byte>) {
    Le32(12 + |v|) + (Le32(8 + |v|) + Le32(algId) + Le32(|v|) + v)
  }

  /** The certificates, each behind its length. */
  function Certificates(certs: seq<seq<byte>>): (r: seq<byte>) {
    if certs == [] then [] else Le32(|certs[0]|) + certs[0] + Certificates(certs[1..])
  }

  function Counted(b: seq<byte>): (r: seq<byte>) { Le32(|b|) + b }

  /** Attributes that protect against stripping v3: 12 bytes, one element of 8, id 0xbeeff00d, value 3.
      Without v3 there are 0 bytes. */
  function Attributes(v3: bool): (r: seq<byte>) {
    if v3 then [12, 0, 0, 0] + [8, 0, 0, 0] + [0x0d, 0xf0, 0xef, 0xbe] + [3, 0, 0, 0] else [0, 0, 0, 0]
  }

  lemma ElementIs(id: nat, v: seq<byte>)
    ensures Lp(LpSeq(PairItems([(id, v)]))) == ByAlgorithm(id, v)
  {
    hide Le32;
    var items := PairItems([(id, v)]);
    assert items[0] == IdValue(id, v) && items[1..] == [];
    assert LpSeq(items) == Lp(IdValue(id, v)) + [];
    assert |IdValue(id, v)| == 8 + |v| && |LpSeq(items)| == 12 + |v|;
    Le32Is(|v|); Le32Is(id); Le32Is(8 + |v|); Le32Is(12 + |v|);
    hide PutU32;
  }

  lemma {:induction false} CertificatesIs(certs: seq<seq<byte>>)
    ensures LpSeq(certs) == Certificates(certs)
  {
    hide Le32;
    if certs != [] {
      Le32Is(|certs[0]|);
      CertificatesIs(certs[1..]);
    }
  }

  lemma CountedIs(b: seq<byte>)
    ensures Lp(b) == Counted(b)
  {
    hide Le32;
    Le32Is(|b|);
  }

  lemma AttributesIs(v3: bool)
    ensures Lp(V2Attributes(v3)) == Attributes(v3)
  {
    hide LE, ToLE;
    Le32Is(0); Le32Is(12); Le32Is(8); Le32Is(0xbeeff00d); Le32Is(3);
  }

  /** The data a v2 signer signs: digests, certificates, attributes, and an empty fourth element. */
  lemma V2SignedDataIs(inp: SignerInput, v3: bool)
    ensures V2SignedData(inp, v3)
      == ByAlgorithm(inp.algId, inp.digest) + Counted(Certificates(inp.certs)) + Attributes(v3) + [0, 0, 0, 0]
  {
    var (a, b, c, d) := (LpSeq(PairItems([(inp.algId, inp.digest)])), LpSeq(inp.certs), V2Attributes(v3), []);
    FourElements(a, b, c, d);
    ElementIs(inp.algId, inp.digest);
    CertificatesIs(inp.certs);
    CountedIs(b);
    AttributesIs(v3);
    Le32Is(0);
    hide LpSeq, PairItems, V2Attributes, ByAlgorithm, Certificates, Attributes, PutU32, Counted;
  }

  lemma FourElements(a: seq<byte>, b: seq<byte>, c: seq<byte>, d: seq<byte>)
    ensures LpSeq([a, b, c, d]) == Lp(a) + Lp(b) + Lp(c) + Lp(d)
  {
    hide Lp;
    assert [a, b, c, d][1..] == [b, c, d];
    ThreeElements(b, c, d);
  }

  lemma ThreeElements(a: seq<byte>, b: seq<byte>, c: seq<byte>)
    ensures LpSeq([a, b, c]) == Lp(a) + Lp(b) + Lp(c)
  {
    hide Lp;
    var (x, y, z) := ([a, b, c], [b, c], [c]);
    assert x[1..] == y && y[1..] == z && z[1..] == [];
    assert LpSeq(z) == Lp(c) + [];
  }

  /** A v2 signer: signed data, signatures, public key. */
  lemma V2SignerIs(inp: SignerInput, v3: bool, signature: seq<byte>)
    ensures V2Bytes(inp, v3, signature)
      == Counted(V2SignedData(inp, v3)) + ByAlgorithm(inp.algId, signature) + Counted(inp.spki)
  {
    ThreeElements(V2SignedData(inp, v3), LpSeq(PairItems([(inp.algId, signature)])), inp.spki);
    ElementIs(inp.algId, signature);
    CountedIs(V2SignedData(inp, v3));
    CountedIs(inp.spki);
    hide LpSeq, PairItems, ByAlgorithm, V2SignedData, Lp, Counted;
  }

  /** The data a v3 signer signs: digests, certificates, SDK range, no attributes. */
  lemma V3SignedDataIs(inp: SignerInput, minSdk: nat, maxSdk: nat)
    ensures V3SignedData(inp, minSdk, maxSdk)
      == ByAlgorithm(inp.algId, inp.digest) + Counted(Certificates(inp.certs)) + Le32(minSdk) + Le32(maxSdk)
        + [0, 0, 0, 0]
  {
    ElementIs(inp.algId, inp.digest);
    CertificatesIs(inp.certs);
    CountedIs(LpSeq(inp.certs));
    CountedIs([]);
    Le32Is(minSdk); Le32Is(maxSdk);
    assert Counted([]) == [0, 0, 0, 0];
    hide LpSeq, PairItems, ByAlgorithm, Certificates, PutU32, Counted, Lp, Le32;
  }

  /** A v3 signer: signed data, SDK range again, signatures, public key. */
  lemma V3SignerIs(inp: SignerInput, minSdk: nat, maxSdk: nat, signature: seq<byte>)
    ensures V3Bytes(inp, minSdk, maxSdk, signature)
      == Counted(V3SignedData(inp, minSdk, maxSdk)) + Le32(minSdk) + Le32(maxSdk) + ByAlgorithm(inp.algId, signature)
        + Counted(inp.spki)
  {
    ElementIs(inp.algId, signature);
    CountedIs(V3SignedData(inp, minSdk, maxSdk));
    CountedIs(inp.spki);
    Le32Is(minSdk); Le32Is(maxSdk);
    hide LpSeq, PairItems, ByAlgorithm, PutU32, Counted, Lp, Le32, V3SignedData;
  }

  /** A scheme block with one signer: the signers' length, the signer's length, the signer. */
  lemma SchemeBlockIs(x: seq<byte>)
    ensures SchemeBlock([x]) == Le32(4 + |x|) + Le32(|x|) + x
  {
    SchemeIs(x);
    CountedIs(x);
    CountedIs(Lp(x));
    hide Le32, SchemeBlock;
    assert |Lp(x)| == 4 + |x|;
  }

  // --- The signing block -------------------------------------------------------------------------------

  /** The pairs that were asked for, v2 first, under the ids of the schemes; v3 covers SDK 24 and up. */
  lemma PairsAre(signer: Signer, d: seq<byte>, v2: bool, v3: bool)
    ensures var inp := SignerInput(signer.algId, d, signer.certs, signer.spki);
      var s2 := signer.sign(V2SignedData(inp, v3));
      var s3 := signer.sign(V3SignedData(inp, 24, 0x7fff_ffff));
      signer.Pairs(d, v2, v3)
      == if (v2 && s2.None?) || (v3 && s3.None?) then None
         else Some((if v2 then [(0x7109871a, SchemeBlock([V2Bytes(inp, v3, s2.value)]))] else [])
                   + (if v3 then [(0xf05368c0, SchemeBlock([V3Bytes(inp, 24, 0x7fff_ffff, s3.value)]))] else []))
  {
    hide SchemeBlock, V2Bytes, V3Bytes, V2SignedData, V3SignedData;
  }

  /** Eight bytes, low byte first. */
  function Le64(n: nat): (r: seq<byte>)
    ensures |r| == 8
  {
    Le32(n) + Le32(n / 0x1_0000_0000)
  }

  /** An id and its value behind their length. */
  function Numbered(p: Pair): (r: seq<byte>) { Le64(4 + |p.1|) + Le32(p.0) + p.1 }

  function AllNumbered(ps: seq<Pair>): (r: seq<byte>) {
    if ps == [] then [] else Numbered(ps[0]) + AllNumbered(ps[1..])
  }

  lemma Le64Is(n: nat)
    ensures PutU64(n) == Le64(n)
  {
    FourthQuotient(n);
    StoredBytes(n);
    Le32Is(n);
    Le32Is(n / 0x1_0000_0000);
    hide Le32, PutU32, ToLE;
  }

  lemma FourthQuotient(n: nat)
    ensures n / 256 / 256 / 256 / 256 == n / 0x1_0000_0000
  {
    Quotients(n);
    var (q, r) := (n / 16777216, n % 16777216);
    ModUnique(n, 0x1_0000_0000, q / 256, 16777216 * (q % 256) + r);
  }

  lemma {:induction false} NumberedIs(ps: seq<Pair>)
    ensures PairsBytes(ps) == AllNumbered(ps)
  {
    hide Le32, Le64;
    if ps != [] {
      Le64Is(4 + |ps[0].1|);
      Le32Is(ps[0].0);
      NumberedIs(ps[1..]);
    }
  }

  /** A pair of zeros under 0x42726577 that takes up `left` bytes; none when nothing is left. */
  function Padding(left: nat): (r: seq<byte>)
    requires left == 0 || left >= 12
  {
    if left == 0 then [] else Le64(left - 8) + [0x77, 0x65, 0x72, 0x42] + Zeros(left - 12)
  }

  /** The block: its size without the first field, the pairs, padding up to a page of 4096 bytes, the
      size again, "APK Sig Block 42". No shorter number of pages holds the pairs and fits exactly or
      leaves the 12 bytes a padding pair needs. */
  lemma BlockIs(ps: seq<Pair>)
    ensures var (b, body) := (BlockBytes(ps), AllNumbered(ps));
      && (|b| == |body| + 32 || |b| >= |body| + 44) && |b| % 4096 == 0
      && b == Le64(|b| - 8) + body + Padding(|b| - |body| - 32) + Le64(|b| - 8) + MAGIC
    ensures forall t: nat :: t % 4096 == 0 && (t == |AllNumbered(ps)| + 32 || t >= |AllNumbered(ps)| + 44) ==>
      |BlockBytes(ps)| <= t
  {
    BlockShape(ps);
    BlockLeast(ps);
  }

  lemma BlockLeast(ps: seq<Pair>)
    ensures forall t: nat :: t % 4096 == 0 && (t == |AllNumbered(ps)| + 32 || t >= |AllNumbered(ps)| + 44) ==>
      |BlockBytes(ps)| <= t
  {
    hide BlockSize, PairsBytes, AllNumbered, BlockBytes;
    NumberedIs(ps);
    BlockSizeLeast(Used(ps));
    forall t: nat | t % 4096 == 0 && (t == |AllNumbered(ps)| + 32 || t >= |AllNumbered(ps)| + 44)
      ensures BlockSize(Used(ps)) <= t
    {
      assert Fits(t, Used(ps));
    }
  }

  lemma BlockShape(ps: seq<Pair>)
    ensures var (b, body) := (BlockBytes(ps), AllNumbered(ps));
      && (|b| == |body| + 32 || |b| >= |body| + 44) && |b| % 4096 == 0
      && b == Le64(|b| - 8) + body + Padding(|b| - |body| - 32) + Le64(|b| - 8) + MAGIC
  {
    hide BlockSize, PairsBytes, AllNumbered, AllPairs, PutU64, Le64, Padding;
    var (body, n) := (AllNumbered(ps), BlockSize(Used(ps)));
    PaddedPairs(ps);
    NumberedIs(ps);
    Le64Is(n - 8);
    MagicIs();
    var b := BlockBytes(ps);
    assert b == PutU64(n - 8) + PairsBytes(AllPairs(ps)) + PutU64(n - 8) + SIG_BLOCK_MAGIC;
    hide BlockBytes;
    Regrouped(Le64(n - 8), body, Padding(n - Used(ps)), Le64(n - 8), MAGIC);
  }

  lemma Regrouped(a: seq<byte>, b: seq<byte>, c: seq<byte>, d: seq<byte>, e: seq<byte>)
    ensures a + (b + c) + d + e == a + b + c + d + e
  {
  }

  lemma PaddedPairs(ps: seq<Pair>)
    ensures var (used, n) := (Used(ps), BlockSize(Used(ps)));
      (n == used || n >= used + 12) && PairsBytes(AllPairs(ps)) == AllNumbered(ps) + Padding(n - used)
  {
    var (used, n) := (Used(ps), BlockSize(Used(ps)));
    BlockSizeLeast(used);
    NumberedIs(ps);
    var v := VerityPair(used);
    PairsBytesConcat(ps, v);
    if used < n {
      PaddingIs(n - used - 12);
    } else {
      assert PairsBytes(v) == [] && AllNumbered(ps) + [] == AllNumbered(ps);
    }
    hide BlockSize, Le64, AllNumbered;
  }

  const MAGIC: seq<byte> :=
    [0x41, 0x50, 0x4b, 0x20, 0x53, 0x69, 0x67, 0x20, 0x42, 0x6c, 0x6f, 0x63, 0x6b, 0x20, 0x34, 0x32]

  lemma MagicIs()
    ensures SIG_BLOCK_MAGIC == MAGIC
  {
  }

  lemma PaddingIs(n: nat)
    ensures PairsBytes([(VERITY_PADDING_BLOCK_ID, Zeros(n))]) == Le64(4 + n) + [0x77, 0x65, 0x72, 0x42] + Zeros(n)
  {
    var p := (VERITY_PADDING_BLOCK_ID, Zeros(n));
    var ps := [p];
    assert ps[1..] == [] && PairsBytes(ps) == PairBytes(p) + [];
    Le64Is(4 + n);
    Le32Is(0x42726577);
    assert Le32(0x42726577) == [0x77, 0x65, 0x72, 0x42];
    hide Le64, Le32, PutU64, PutU32;
  }

  // --- The signed file ---------------------------------------------------------------------------------

  /** There is a signed file exactly when the key signs and the directory starts below 4 GiB. */
  lemma SignedFileIff(signer: Signer, v2: bool, v3: bool, entries: seq<byte>, cd: seq<byte>, template: seq<byte>,
                      count: nat)
    requires |template| >= 22
    ensures var pad := (4096 - |entries| % 4096) % 4096;
      var d := Recomputed(signer.alg.h,
                   [entries + Zeros(pad), cd, Described(template, count, |cd|, |entries| + pad)]);
      var ps := signer.Pairs(d, v2, v3);
      SignedFile(signer, v2, v3, entries, cd, template, count)
      == if ps.None? || |entries| + pad + |BlockBytes(ps.value)| >= 0x1_0000_0000 then None
         else
           var block := Zeros(pad) + BlockBytes(ps.value);
           Some(entries + block + cd + Described(template, count, |cd|, |entries| + |block|))
  {
    hide Digest.ContentDigest, Recomputed, SignedFile, SetCdOffset, NewEocd, BlockBytes, Signer.Pairs, Described,
      Covered;
    var pad := (4096 - |entries| % 4096) % 4096;
    var sections := [entries + Zeros(pad), cd, Described(template, count, |cd|, |entries| + pad)];
    CoveredIs(entries, cd, template, count);
    DigestIsRecomputed(signer.alg, sections);
    var ps := signer.Pairs(Recomputed(signer.alg.h, sections), v2, v3);
    SignedFileIs(signer, v2, v3, entries, cd, template, count, ps);
    if ps.Some? {
      DescribedIs(template, count, |cd|, |entries| + pad + |BlockBytes(ps.value)|);
    }
  }

  lemma CoveredIs(entries: seq<byte>, cd: seq<byte>, template: seq<byte>, count: nat)
    requires |template| >= 22
    ensures var pad := (4096 - |entries| % 4096) % 4096;
      && PaddingBeforeBlock(|entries|) == pad
      && Covered(entries, cd, template, count)
         == [entries + Zeros(pad), cd, Described(template, count, |cd|, |entries| + pad)]
  {
    DescribedIs(template, count, |cd|, |entries| + PaddingBeforeBlock(|entries|));
    hide Described, SetCdOffset, NewEocd;
  }

  /** The EOCD with entry count (twice), size and offset of the directory put in. */
  function Described(template: seq<byte>, count: nat, cdSize: nat, cdOff: nat): (r: seq<byte>)
    requires |template| >= 22
  {
    template[..8] + [count % 256, count / 256 % 256] + [count % 256, count / 256 % 256] + Le32(cdSize) + Le32(cdOff)
      + template[20..]
  }

  lemma DescribedIs(template: seq<byte>, count: nat, cdSize: nat, cdOff: nat)
    requires |template| >= 22
    ensures SetCdOffset(NewEocd(template, cdSize, count), cdOff) == Described(template, count, cdSize, cdOff)
  {
    OutsidePatch(template, cdSize, count, cdOff);
    StoredBytes(count);
    Le32Is(cdSize); Le32Is(cdOff);
    hide ToLE, Le32;
    var e := FinalEocd(template, cdSize, count, cdOff);
    assert e == e[..8] + e[8..20] + e[20..];
  }
}
