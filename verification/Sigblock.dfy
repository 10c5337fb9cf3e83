/** src/sigblock.rs: the encoders of the v2/v3 signer blocks and of the APK Signing Block, with the
    decoders a verifier runs on them. */
module Sigblock {
  import opened Wrappers
  import opened Bytes
  import opened Zip

  const V2_BLOCK_ID: nat := 0x7109871a
  const V3_BLOCK_ID: nat := 0xf05368c0
  const VERITY_PADDING_BLOCK_ID: nat := 0x42726577
  const STRIPPING_PROTECTION_ATTR_ID: nat := 0xbeeff00d
  const SCHEME_V3_VERSION: nat := 3
  const PAGE: nat := 4096
  const V3_MIN_SDK: nat := 24
  const V3_MAX_SDK: nat := 0x7fff_ffff

  // --- Length-prefixed sequences ---------------------------------------------------------------

  /** `put_lp`: u32 length, then the bytes. */
  function Lp(b: seq<byte>): (r: seq<byte>) { PutU32(|b|) + b }

  function LpSeq(items: seq<seq<byte>>): (r: seq<byte>) {
    if items == [] then [] else Lp(items[0]) + LpSeq(items[1..])
  }

  /** One element of `seq_lp_pairs`, without its outer length: u32 id, then the value's Lp. */
  function IdValue(id: nat, value: seq<byte>): (r: seq<byte>) { PutU32(id) + Lp(value) }

  function PairItems(pairs: seq<(nat, seq<byte>)>): (r: seq<seq<byte>>)
    ensures |r| == |pairs|
  {
    seq(|pairs|, i requires 0 <= i < |pairs| => IdValue(pairs[i].0, pairs[i].1))
  }

  lemma {:induction false} LpSeqSnoc(items: seq<seq<byte>>, x: seq<byte>)
    ensures LpSeq(items + [x]) == LpSeq(items) + Lp(x)
  {
    if items == [] {
      assert items + [x] == [x] && LpSeq([x]) == Lp(x) + LpSeq([x][1..]);
    } else {
      LpSeqSnoc(items[1..], x);
      assert (items + [x])[1..] == items[1..] + [x];
    }
  }

  /** `seq_lp`. */
  method SeqLp(items: seq<seq<byte>>) returns (v: seq<byte>)
    ensures v == LpSeq(items)
  {
    v := [];
    for i := 0 to |items|
      invariant v == LpSeq(items[..i])
    {
      assert items[..i + 1] == items[..i] + [items[i]];
      LpSeqSnoc(items[..i], items[i]);
      v := v + PutU32(|items[i]|) + items[i];
    }
    assert items[..|items|] == items;
  }

  /** `seq_lp_pairs`: the outer length is written as 8 + len. */
  method SeqLpPairs(pairs: seq<(nat, seq<byte>)>) returns (v: seq<byte>)
    ensures v == LpSeq(PairItems(pairs))
  {
    v := [];
    for i := 0 to |pairs|
      invariant v == LpSeq(PairItems(pairs[..i]))
    {
      var (id, b) := pairs[i];
      assert PairItems(pairs[..i + 1]) == PairItems(pairs[..i]) + [IdValue(id, b)];
      LpSeqSnoc(PairItems(pairs[..i]), IdValue(id, b));
      assert |IdValue(id, b)| == 8 + |b|;
      v := v + PutU32(8 + |b|) + PutU32(id) + (PutU32(|b|) + b);
    }
    assert pairs[..|pairs|] == pairs;
  }

  // Decoders.
  function UnLp(b: seq<byte>): (r: Option<(seq<byte>, seq<byte>)>) {
    if |b| < 4 then None
    else
      var n := U32(b, 0);
      if 4 + n > |b| then None else Some((b[4..4 + n], b[4 + n..]))
  }

  function UnLpSeq(b: seq<byte>): (r: Option<seq<seq<byte>>>)
    decreases |b|
  {
    if b == [] then Some([])
    else
      match UnLp(b)
      case None => None
      case Some((x, rest)) =>
        var r := UnLpSeq(rest);
        if r.None? then None else Some([x] + r.value)
  }

  function UnIdValue(b: seq<byte>): (r: Option<(nat, seq<byte>)>) {
    if |b| < 4 then None
    else
      match UnLp(b[4..])
      case Some((v, rest)) => if rest == [] then Some((U32(b, 0), v)) else None
      case None => None
  }

  function UnPairs(items: seq<seq<byte>>): (r: Option<seq<(nat, seq<byte>)>>) {
    if items == [] then Some([])
    else
      var p := UnIdValue(items[0]);
      var r := UnPairs(items[1..]);
      if p.None? || r.None? then None else Some([p.value] + r.value)
  }

  lemma UnLpLp(x: seq<byte>, rest: seq<byte>)
    requires |x| < U32_MOD
    ensures UnLp(Lp(x) + rest) == Some((x, rest))
  {
    var b := Lp(x) + rest;
    assert b[0..4] == PutU32(|x|)[0..4];
    assert b[4..4 + |x|] == x && b[4 + |x|..] == rest;
  }

  /** A sequence of length-prefixed elements decodes to what was encoded. */
  lemma {:induction false} LpSeqRoundTrip(items: seq<seq<byte>>)
    requires forall i :: 0 <= i < |items| ==> |items[i]| < U32_MOD
    ensures UnLpSeq(LpSeq(items)) == Some(items)
  {
    if items != [] {
      UnLpLp(items[0], LpSeq(items[1..]));
      LpSeqRoundTrip(items[1..]);
      assert [items[0]] + items[1..] == items;
    }
  }

  lemma {:induction false} PairsRoundTrip(pairs: seq<(nat, seq<byte>)>)
    requires forall i :: 0 <= i < |pairs| ==> pairs[i].0 < U32_MOD && |pairs[i].1| < U32_MOD
    ensures UnPairs(PairItems(pairs)) == Some(pairs)
  {
    hide UnIdValue, IdValue;
    if pairs != [] {
      IdValueRoundTrip(pairs[0].0, pairs[0].1);
      PairsRoundTrip(pairs[1..]);
      assert PairItems(pairs)[1..] == PairItems(pairs[1..]);
      assert [pairs[0]] + pairs[1..] == pairs;
    }
  }

  lemma IdValueRoundTrip(id: nat, v: seq<byte>)
    requires id < U32_MOD && |v| < U32_MOD
    ensures UnIdValue(IdValue(id, v)) == Some((id, v))
  {
    hide UnLp, Lp, LE, ToLE;
    var b := IdValue(id, v);
    assert b[0..4] == PutU32(id)[0..4] && b[4..] == Lp(v) + [];
    UnLpLp(v, []);
  }

  lemma {:induction false} LpSeqItems(items: seq<seq<byte>>, i: nat)
    requires i < |items|
    ensures |items[i]| + 4 <= |LpSeq(items)|
  {
    if i > 0 {
      LpSeqItems(items[1..], i - 1);
    }
  }

  /** Every element of an encoding shorter than 4 GiB fits its length prefix. */
  lemma ItemsFit(items: seq<seq<byte>>)
    requires |LpSeq(items)| < U32_MOD
    ensures forall i :: 0 <= i < |items| ==> |items[i]| < U32_MOD
  {
    forall i | 0 <= i < |items| ensures |items[i]| < U32_MOD {
      LpSeqItems(items, i);
    }
  }

  // --- v2 and v3 signers -------------------------------------------------------------------------

  datatype SignerInput = SignerInput(algId: nat, digest: seq<byte>, certs: seq<seq<byte>>, spki: seq<byte>)

  /** Library code: a signature over the given bytes, or an error. */
  type Signing = seq<byte> -> Option<seq<byte>>

  function V2Attributes(v3Enabled: bool): (r: seq<byte>) {
    if !v3Enabled then [] else PutU32(8) + PutU32(STRIPPING_PROTECTION_ATTR_ID) + PutU32(SCHEME_V3_VERSION)
  }

  function V2SignedData(inp: SignerInput, v3Enabled: bool): (r: seq<byte>) {
    LpSeq([LpSeq(PairItems([(inp.algId, inp.digest)])), LpSeq(inp.certs), V2Attributes(v3Enabled), []])
  }

  function V2Bytes(inp: SignerInput, v3Enabled: bool, signature: seq<byte>): (r: seq<byte>) {
    LpSeq([V2SignedData(inp, v3Enabled), LpSeq(PairItems([(inp.algId, signature)])), inp.spki])
  }

  /** `v2_signer`. */
  method V2Signer(inp: SignerInput, v3Enabled: bool, sign: Signing) returns (r: Option<seq<byte>>)
    ensures r == match sign(V2SignedData(inp, v3Enabled))
                 case None => None
                 case Some(signature) => Some(V2Bytes(inp, v3Enabled, signature))
  {
    hide LpSeq, PairItems;
    var digests := SeqLpPairs([(inp.algId, inp.digest)]);
    var certs := SeqLp(inp.certs);
    var attrs := V2Attributes(v3Enabled);
    var signedData := SeqLp([digests, certs, attrs, []]);
    var s := sign(signedData);
    if s.None? {
      return None;
    }
    var signatures := SeqLpPairs([(inp.algId, s.value)]);
    var out := SeqLp([signedData, signatures, inp.spki]);
    r := Some(out);
  }

  /** What a verifier reads out of a signer block. */
  datatype Decoded = Decoded(
    signedData: seq<byte>, digests: seq<(nat, seq<byte>)>, certs: seq<seq<byte>>, attrs: seq<byte>,
    signatures: seq<(nat, seq<byte>)>, spki: seq<byte>, minSdk: nat, maxSdk: nat)

  function UnPairSeq(b: seq<byte>): (r: Option<seq<(nat, seq<byte>)>>) {
    match UnLpSeq(b) case None => None case Some(items) => UnPairs(items)
  }

  function DecodeV2(b: seq<byte>): (r: Option<Decoded>) {
    match UnLpSeq(b)
    case None => None
    case Some(top) =>
      if |top| != 3 then None
      else
        var sd := UnLpSeq(top[0]);
        var sigs := UnPairSeq(top[1]);
        if sd.None? || sigs.None? || |sd.value| < 3 then None
        else
          var digests := UnPairSeq(sd.value[0]);
          var certs := UnLpSeq(sd.value[1]);
          if digests.None? || certs.None? then None
          else Some(Decoded(top[0], digests.value, certs.value, sd.value[2], sigs.value, top[2], 0, 0))
  }

  lemma PairSeqRoundTrip(id: nat, v: seq<byte>)
    requires id < U32_MOD && |LpSeq(PairItems([(id, v)]))| < U32_MOD
    ensures UnPairSeq(LpSeq(PairItems([(id, v)]))) == Some([(id, v)])
  {
    hide UnLpSeq, UnPairs, LpSeq;
    var items := PairItems([(id, v)]);
    ItemsFit(items);
    assert |items[0]| == 8 + |v|;
    LpSeqRoundTrip(items);
    PairsRoundTrip([(id, v)]);
  }

  /** A decoder recovers every field of a v2 signer, and the bytes that were signed are the signed
      data embedded in it. */
  lemma V2RoundTrip(inp: SignerInput, v3Enabled: bool, signature: seq<byte>)
    requires inp.algId < U32_MOD && |V2Bytes(inp, v3Enabled, signature)| < U32_MOD
    ensures DecodeV2(V2Bytes(inp, v3Enabled, signature))
         == Some(Decoded(V2SignedData(inp, v3Enabled), [(inp.algId, inp.digest)], inp.certs, V2Attributes(v3Enabled),
                         [(inp.algId, signature)], inp.spki, 0, 0))
  {
    hide UnLpSeq, UnPairSeq, LpSeq, PairItems, V2Attributes;
    var sd := [LpSeq(PairItems([(inp.algId, inp.digest)])), LpSeq(inp.certs), V2Attributes(v3Enabled), []];
    var top := [LpSeq(sd), LpSeq(PairItems([(inp.algId, signature)])), inp.spki];
    ItemsFit(top);
    assert |top[0]| < U32_MOD && |top[1]| < U32_MOD;
    LpSeqRoundTrip(top);
    ItemsFit(sd);
    assert |sd[0]| < U32_MOD && |sd[1]| < U32_MOD;
    LpSeqRoundTrip(sd);
    ItemsFit(inp.certs);
    LpSeqRoundTrip(inp.certs);
    PairSeqRoundTrip(inp.algId, inp.digest);
    PairSeqRoundTrip(inp.algId, signature);
  }

  function V3SignedData(inp: SignerInput, minSdk: nat, maxSdk: nat): (r: seq<byte>) {
    Lp(LpSeq(PairItems([(inp.algId, inp.digest)])))
      + (Lp(LpSeq(inp.certs)) + (PutU32(minSdk) + (PutU32(maxSdk) + Lp([]))))
  }

  function V3Bytes(inp: SignerInput, minSdk: nat, maxSdk: nat, signature: seq<byte>): (r: seq<byte>) {
    Lp(V3SignedData(inp, minSdk, maxSdk)) + (PutU32(minSdk) + (PutU32(maxSdk) +
      (Lp(LpSeq(PairItems([(inp.algId, signature)]))) + (Lp(inp.spki) + []))))
  }

  /** `v3_signer`. */
  method V3Signer(inp: SignerInput, minSdk: nat, maxSdk: nat, sign: Signing) returns (r: Option<seq<byte>>)
    ensures r == match sign(V3SignedData(inp, minSdk, maxSdk))
                 case None => None
                 case Some(signature) => Some(V3Bytes(inp, minSdk, maxSdk, signature))
  {
    hide LpSeq, PairItems, Lp;
    var digests := SeqLpPairs([(inp.algId, inp.digest)]);
    var certs := SeqLp(inp.certs);
    var signedData: seq<byte> := Lp(digests);
    signedData := signedData + Lp(certs);
    signedData := signedData + PutU32(minSdk);
    signedData := signedData + PutU32(maxSdk);
    signedData := signedData + Lp([]);
    assert signedData == V3SignedData(inp, minSdk, maxSdk);
    var s := sign(signedData);
    if s.None? {
      return None;
    }
    var signatures := SeqLpPairs([(inp.algId, s.value)]);
    var out: seq<byte> := Lp(signedData);
    out := out + PutU32(minSdk);
    out := out + PutU32(maxSdk);
    out := out + Lp(signatures);
    out := out + Lp(inp.spki);
    assert out == V3Bytes(inp, minSdk, maxSdk, s.value);
    r := Some(out);
  }

  function UnU32(b: seq<byte>): (r: Option<(nat, seq<byte>)>) {
    if |b| < 4 then None else Some((U32(b, 0), b[4..]))
  }

  /** lp x, u32, u32, then the rest: the common head of a v3 signer. */
  function DecodeV3(b: seq<byte>): (r: Option<Decoded>) {
    var sd := UnLp(b);
    if sd.None? then None else
    var mn := UnU32(sd.value.1);
    if mn.None? then None else
    var mx := UnU32(mn.value.1);
    if mx.None? then None else
    var sg := UnLp(mx.value.1);
    if sg.None? then None else
    var pk := UnLp(sg.value.1);
    if pk.None? || pk.value.1 != [] then None else
    var sigs := UnPairSeq(sg.value.0);
    var body := DecodeV3SignedData(sd.value.0);
    if sigs.None? || body.None? || body.value.minSdk != mn.value.0 || body.value.maxSdk != mx.value.0 then None
    else Some(body.value.(signedData := sd.value.0, signatures := sigs.value, spki := pk.value.0))
  }

  function DecodeV3SignedData(b: seq<byte>): (r: Option<Decoded>) {
    var dg := UnLp(b);
    if dg.None? then None else
    var cs := UnLp(dg.value.1);
    if cs.None? then None else
    var mn := UnU32(cs.value.1);
    if mn.None? then None else
    var mx := UnU32(mn.value.1);
    if mx.None? then None else
    var at := UnLp(mx.value.1);
    if at.None? || at.value.1 != [] then None else
    var digests := UnPairSeq(dg.value.0);
    var certs := UnLpSeq(cs.value.0);
    if digests.None? || certs.None? then None
    else Some(Decoded(b, digests.value, certs.value, at.value.0, [], [], mn.value.0, mx.value.0))
  }

  lemma UnU32Put(x: nat, rest: seq<byte>)
    requires x < U32_MOD
    ensures UnU32(PutU32(x) + rest) == Some((x, rest))
  {
    var b := PutU32(x) + rest;
    assert b[0..4] == PutU32(x)[0..4] && b[4..] == rest;
  }

  lemma V3SignedDataRoundTrip(inp: SignerInput, minSdk: nat, maxSdk: nat)
    requires inp.algId < U32_MOD && minSdk < U32_MOD && maxSdk < U32_MOD
    requires |V3SignedData(inp, minSdk, maxSdk)| < U32_MOD
    ensures DecodeV3SignedData(V3SignedData(inp, minSdk, maxSdk))
         == Some(Decoded(V3SignedData(inp, minSdk, maxSdk), [(inp.algId, inp.digest)], inp.certs, [], [], [], minSdk,
             maxSdk))
  {
    hide UnLpSeq, UnPairSeq, LpSeq, PairItems, UnLp, UnU32;
    var (d, c) := (LpSeq(PairItems([(inp.algId, inp.digest)])), LpSeq(inp.certs));
    var r4 := Lp([]);
    var r3 := PutU32(maxSdk) + r4;
    var r2 := PutU32(minSdk) + r3;
    UnLpLp(d, Lp(c) + r2);
    UnLpLp(c, r2);
    UnU32Put(minSdk, r3);
    UnU32Put(maxSdk, r4);
    assert r4 == Lp([]) + [];
    UnLpLp([], []);
    PairSeqRoundTrip(inp.algId, inp.digest);
    ItemsFit(inp.certs);
    LpSeqRoundTrip(inp.certs);
  }

  /** The same for v3: all fields come back, the SDK range agrees inside and outside, and the signed
      bytes are the embedded ones. */
  lemma V3RoundTrip(inp: SignerInput, minSdk: nat, maxSdk: nat, signature: seq<byte>)
    requires inp.algId < U32_MOD && minSdk < U32_MOD && maxSdk < U32_MOD
    requires |V3Bytes(inp, minSdk, maxSdk, signature)| < U32_MOD
    ensures DecodeV3(V3Bytes(inp, minSdk, maxSdk, signature))
         == Some(Decoded(V3SignedData(inp, minSdk, maxSdk), [(inp.algId, inp.digest)], inp.certs, [],
                         [(inp.algId, signature)], inp.spki, minSdk, maxSdk))
  {
    hide UnLpSeq, UnPairSeq, LpSeq, PairItems, UnLp, UnU32, V3SignedData, DecodeV3SignedData;
    var sd := V3SignedData(inp, minSdk, maxSdk);
    var sg := LpSeq(PairItems([(inp.algId, signature)]));
    var r4 := Lp(inp.spki) + [];
    var r3 := Lp(sg) + r4;
    var r2 := PutU32(maxSdk) + r3;
    var r1 := PutU32(minSdk) + r2;
    UnLpLp(sd, r1);
    UnU32Put(minSdk, r2);
    UnU32Put(maxSdk, r3);
    UnLpLp(sg, r4);
    UnLpLp(inp.spki, []);
    PairSeqRoundTrip(inp.algId, signature);
    V3SignedDataRoundTrip(inp, minSdk, maxSdk);
  }

  /** `scheme_block`. */
  function SchemeBlock(signers: seq<seq<byte>>): (r: seq<byte>) { LpSeq([LpSeq(signers)]) }

  lemma SchemeIs(b: seq<byte>)
    ensures SchemeBlock([b]) == Lp(Lp(b))
  {
    hide Lp;
    assert [b][1..] == [] && LpSeq([b]) == Lp(b) + [] == Lp(b);
    var one := [Lp(b)];
    assert one[1..] == [] && LpSeq(one) == Lp(Lp(b)) + [];
  }

  lemma SchemeBlockRoundTrip(signers: seq<seq<byte>>)
    requires |SchemeBlock(signers)| < U32_MOD
    ensures UnLpSeq(SchemeBlock(signers)) == Some([LpSeq(signers)]) && UnLpSeq(LpSeq(signers)) == Some(signers)
  {
    hide UnLpSeq, LpSeq;
    ItemsFit([LpSeq(signers)]);
    assert |[LpSeq(signers)][0]| < U32_MOD;
    LpSeqRoundTrip([LpSeq(signers)]);
    ItemsFit(signers);
    LpSeqRoundTrip(signers);
  }

  // --- The APK Signing Block -----------------------------------------------------------------------

  type Pair = (nat, seq<byte>)

  /** u64 length, u32 id, value. */
  function PairBytes(p: Pair): (r: seq<byte>) { PutU64(4 + |p.1|) + PutU32(p.0) + p.1 }

  function PairsBytes(pairs: seq<Pair>): (r: seq<byte>) {
    if pairs == [] then [] else PairBytes(pairs[0]) + PairsBytes(pairs[1..])
  }

  lemma {:induction false} PairsBytesConcat(x: seq<Pair>, y: seq<Pair>)
    ensures PairsBytes(x + y) == PairsBytes(x) + PairsBytes(y)
  {
    hide PairBytes;
    if x == [] {
      assert x + y == y;
    } else {
      var (p, rest) := (x[0], x[1..]);
      PairsBytesConcat(rest, y);
      assert (x + y)[0] == p && (x + y)[1..] == rest + y;
      assert PairsBytes(x + y) == PairBytes(p) + (PairsBytes(rest) + PairsBytes(y));
    }
  }

  lemma PairsBytesSnoc(x: seq<Pair>, p: Pair)
    ensures PairsBytes(x + [p]) == PairsBytes(x) + PairBytes(p)
  {
    PairsBytesConcat(x, [p]);
    assert [p][1..] == [] && PairsBytes([p]) == PairBytes(p) + PairsBytes([p][1..]);
  }

  /** Both size fields, the magic, and the pairs. */
  function Used(pairs: seq<Pair>): (r: nat) { 32 + |PairsBytes(pairs)| }

  /** The block size is right when it fits exactly or leaves room for a padding pair. */
  predicate Fits(total: nat, used: nat) { total % PAGE == 0 && (total == used || total >= used + 12) }

  /** `signing_block_size`: the least page multiple that fits. */
  method SigningBlockSize(pairs: seq<Pair>) returns (size: nat)
    ensures Fits(size, Used(pairs))
    ensures forall t: nat :: Fits(t, Used(pairs)) ==> size <= t
    ensures size == BlockSize(Used(pairs))
  {
    hide Fits, BlockSize;
    size := 8 + 8 + 16;
    for i := 0 to |pairs|
      invariant size == Used(pairs[..i])
    {
      assert pairs[..i + 1] == pairs[..i] + [pairs[i]];
      PairsBytesSnoc(pairs[..i], pairs[i]);
      size := size + 8 + 4 + |pairs[i].1|;
    }
    assert pairs[..|pairs|] == pairs;
    ghost var used := size;
    if size % PAGE != 0 {
      var pad := PAGE - size % PAGE;
      if pad < 12 {
        pad := pad + PAGE;
      }
      size := size + pad;
    }
    RoundedUp(used);
    BlockSizeLeast(used);
  }

  lemma RoundedUp(used: nat)
    ensures var pad := PAGE - used % PAGE;
      BlockSize(used) == if used % PAGE == 0 then used else if pad < 12 then used + (pad + PAGE) else used + pad
  {
  }

  function BlockSize(used: nat): (r: nat) {
    var pad := (PAGE - used % PAGE) % PAGE;
    if pad == 0 then used else if pad < 12 then used + pad + PAGE else used + pad
  }

  lemma BlockSizeLeast(used: nat)
    ensures Fits(BlockSize(used), used)
    ensures forall t: nat :: Fits(t, used) ==> BlockSize(used) <= t
  {
    var (q, r) := (used / PAGE, used % PAGE);
    var s := BlockSize(used);
    assert s == PAGE * q || s == PAGE * (q + 1) || s == PAGE * (q + 2);
    forall t: nat | Fits(t, used)
      ensures s <= t
    {
      var k := t / PAGE;
      assert t == PAGE * k;
    }
  }

  function VerityPair(used: nat): (r: seq<Pair>) {
    var total := BlockSize(used);
    BlockSizeLeast(used);
    if used < total then [(VERITY_PADDING_BLOCK_ID, Zeros(total - used - 12))] else []
  }

  /** The pairs a reader finds: the given ones, then at most one padding pair. */
  function AllPairs(pairs: seq<Pair>): (r: seq<Pair>) { pairs + VerityPair(Used(pairs)) }

  lemma PaddedLength(pairs: seq<Pair>)
    ensures |PairsBytes(AllPairs(pairs))| + 32 == BlockSize(Used(pairs))
  {
    hide BlockSize;
    var used := Used(pairs);
    BlockSizeLeast(used);
    var v := VerityPair(used);
    PairsBytesConcat(pairs, v);
    if used < BlockSize(used) {
      PairsBytesSnoc([], v[0]);
      assert [] + [v[0]] == v;
    }
  }

  function BlockBytes(pairs: seq<Pair>): (r: seq<byte>)
    ensures |r| == BlockSize(Used(pairs)) && |r| >= 32 && |r| % PAGE == 0
  {
    var used := Used(pairs);
    BlockSizeLeast(used);
    PaddedLength(pairs);
    PutU64(BlockSize(used) - 8) + PairsBytes(AllPairs(pairs)) + PutU64(BlockSize(used) - 8) + SIG_BLOCK_MAGIC
  }

  /** `apk_signing_block`. */
  method ApkSigningBlock(pairs: seq<Pair>) returns (v: seq<byte>)
    ensures v == BlockBytes(pairs)
  {
    hide PairBytes, BlockSize, ToLE, LE;
    var total := SigningBlockSize(pairs);
    var sizeField := total - 8;
    v := PutU64(sizeField);
    for i := 0 to |pairs|
      invariant v == PutU64(sizeField) + PairsBytes(pairs[..i])
    {
      assert pairs[..i + 1] == pairs[..i] + [pairs[i]];
      PairsBytesSnoc(pairs[..i], pairs[i]);
      v := v + AppendPair(pairs[i].0, pairs[i].1);
    }
    assert pairs[..|pairs|] == pairs;
    v := PadBlock(v, total, pairs);
    v := v + PutU64(sizeField);
    v := v + SIG_BLOCK_MAGIC;
  }

  /** The padding pair, when the block would not end on a page. */
  method PadBlock(v: seq<byte>, total: nat, ghost pairs: seq<Pair>) returns (r: seq<byte>)
    requires total == BlockSize(Used(pairs)) && total >= 8 && v == PutU64(total - 8) + PairsBytes(pairs)
    ensures r == PutU64(total - 8) + PairsBytes(AllPairs(pairs))
  {
    hide PairBytes, BlockSize, ToLE, LE;
    BlockSizeLeast(Used(pairs));
    var used := |v| + 8 + 16;
    r := v;
    if used < total {
      var pad := total - used;
      PairsBytesSnoc(pairs, (VERITY_PADDING_BLOCK_ID, Zeros(pad - 12)));
      PadPair(pad);
      r := r + (PutU64(pad - 8) + PutU32(VERITY_PADDING_BLOCK_ID) + Zeros(pad - 12));
    } else {
      assert pairs + [] == pairs;
    }
  }

  function AppendPair(id: nat, value: seq<byte>): (r: seq<byte>)
    ensures r == PairBytes((id, value))
  {
    PutU64(4 + |value|) + PutU32(id) + value
  }

  lemma PadPair(pad: nat)
    requires pad >= 12
    ensures PairBytes((VERITY_PADDING_BLOCK_ID, Zeros(pad - 12)))
         == PutU64(pad - 8) + PutU32(VERITY_PADDING_BLOCK_ID) + Zeros(pad - 12)
  {
  }

  // The reader.
  function WalkPairs(b: seq<byte>): (r: Option<seq<Pair>>)
    decreases |b|
  {
    if b == [] then Some([])
    else if |b| < 12 then None
    else
      var n := U64(b, 0);
      if n < 4 || 8 + n > |b| then None
      else
        var rest := WalkPairs(b[8 + n..]);
        if rest.None? then None else Some([(U32(b, 8), b[12..8 + n])] + rest.value)
  }

  function ReadBlock(b: seq<byte>): (r: Option<seq<Pair>>) {
    if |b| < 32 || b[|b| - 16..] != SIG_BLOCK_MAGIC || U64(b, 0) != |b| - 8 || U64(b, |b| - 24) != |b| - 8 then None
    else WalkPairs(b[8..|b| - 24])
  }

  lemma PairHead(p: Pair, rest: seq<byte>)
    requires p.0 < U32_MOD && 4 + |p.1| < U64_MOD
    ensures var b := PairBytes(p) + rest;
      |b| >= 12 + |p.1| && U64(b, 0) == 4 + |p.1| && U32(b, 8) == p.0 && b[12..12 + |p.1|] == p.1
        && b[12 + |p.1|..] == rest
  {
    var b := PairBytes(p) + rest;
    assert b[0..0 + 8] == PutU64(4 + |p.1|)[0..0 + 8];
    assert b[8..8 + 4] == PutU32(p.0)[0..0 + 4];
  }

  lemma {:induction false} WalkPairsRoundTrip(pairs: seq<Pair>)
    requires forall i :: 0 <= i < |pairs| ==> pairs[i].0 < U32_MOD && 4 + |pairs[i].1| < U64_MOD
    ensures WalkPairs(PairsBytes(pairs)) == Some(pairs)
  {
    hide PairBytes, LE;
    if pairs != [] {
      var (p, rest) := (pairs[0], PairsBytes(pairs[1..]));
      var b := PairsBytes(pairs);
      WalkPairsRoundTrip(pairs[1..]);
      PairHead(p, rest);
      assert [pairs[0]] + pairs[1..] == pairs;
    }
  }

  lemma {:induction false} PairFits(pairs: seq<Pair>, i: nat)
    requires i < |pairs|
    ensures |pairs[i].1| + 12 <= |PairsBytes(pairs)|
  {
    if i > 0 {
      PairFits(pairs[1..], i - 1);
    }
  }

  /** Walking the block returns the pairs plus at most one padding pair; both size fields agree. */
  lemma BlockRoundTrip(pairs: seq<Pair>)
    requires forall i :: 0 <= i < |pairs| ==> pairs[i].0 < U32_MOD
    requires |BlockBytes(pairs)| < U64_MOD
    ensures ReadBlock(BlockBytes(pairs)) == Some(AllPairs(pairs))
    ensures U64(BlockBytes(pairs), 0) == U64(BlockBytes(pairs), |BlockBytes(pairs)| - 24) == |BlockBytes(pairs)| - 8
  {
    hide BlockSize, PairBytes, WalkPairs, PairsBytes, VerityPair;
    var b := BlockBytes(pairs);
    BlockEnds(pairs);
    var ps := AllPairs(pairs);
    forall i | 0 <= i < |ps|
      ensures ps[i].0 < U32_MOD && 4 + |ps[i].1| < U64_MOD
    {
      PairFits(ps, i);
      VerityId(pairs);
    }
    WalkPairsRoundTrip(ps);
  }

  lemma VerityId(pairs: seq<Pair>)
    ensures |VerityPair(Used(pairs))| <= 1
    ensures forall p :: p in VerityPair(Used(pairs)) ==> p.0 == VERITY_PADDING_BLOCK_ID
  {
  }

  lemma BlockEnds(pairs: seq<Pair>)
    requires |BlockBytes(pairs)| < U64_MOD
    ensures var b := BlockBytes(pairs);
      && b[|b| - 16..] == SIG_BLOCK_MAGIC
      && U64(b, 0) == |b| - 8 && U64(b, |b| - 24) == |b| - 8
      && b[8..|b| - 24] == PairsBytes(AllPairs(pairs))
  {
    var b := BlockBytes(pairs);
    hide PairsBytes, AllPairs, BlockSize;
    BlockParts(b, |b| - 8, PairsBytes(AllPairs(pairs)));
  }

  lemma BlockParts(b: seq<byte>, n: nat, ps: seq<byte>)
    requires n < U64_MOD && b == PutU64(n) + ps + PutU64(n) + SIG_BLOCK_MAGIC
    ensures |b| >= 32 && b[|b| - 16..] == SIG_BLOCK_MAGIC && U64(b, 0) == n && U64(b, |b| - 24) == n
      && b[8..|b| - 24] == ps
  {
    hide LE, ToLE;
    var s := PutU64(n);
    assert |SIG_BLOCK_MAGIC| == 16;
    assert b[0..8] == s && b[|b| - 24..|b| - 24 + 8] == s;
    Widths();
    ToLERoundTrip(n, 8);
  }

  /** `padding_before_block`. */
  function PaddingBeforeBlock(entriesEnd: nat): (pad: nat)
    ensures pad < PAGE && (entriesEnd + pad) % PAGE == 0
    ensures entriesEnd % PAGE == 0 ==> pad == 0
  {
    (PAGE - entriesEnd % PAGE) % PAGE
  }
}
