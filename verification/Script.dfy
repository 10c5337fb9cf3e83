/** poc/verify_v2_digest.py, step by step: it reports a match on every file signed with scheme v2. */
module Script {
  import opened Wrappers
  import opened Bytes
  import opened Hashing
  import opened Digest
  import opened Zip
  import opened Sigblock
  import opened Splice
  import opened Signed
  import opened Verifier
  import opened Archive

  // --- The script ------------------------------------------------------------------------------------

  ghost predicate Mark(m: seq<byte>, i: nat) {
    i + 4 <= |m| && m[i..i + 4] == [0x50, 0x4b, 0x05, 0x06]
  }

  /** m.rfind(b"PK\x05\x06") == i. */
  ghost predicate LastMark(m: seq<byte>, i: nat) {
    Mark(m, i) && forall j :: i < j <= |m| ==> !Mark(m, j)
  }

  /** lp(buf, o): a slice behind its length, and where it ends. */
  function LpAt(b: seq<byte>, o: nat): (r: Option<(seq<byte>, nat)>) {
    if o + 4 > |b| || o + 4 + U32(b, o) > |b| then None
    else Some((b[o + 4..o + 4 + U32(b, o)], o + 4 + U32(b, o)))
  }

  /** The walk over the id and value pairs: the last value under the scheme's id. */
  function Walk(m: seq<byte>, p: nat, end: nat, v2: Option<seq<byte>>): (r: Option<seq<byte>>)
    requires end <= |m|
    decreases end - p
  {
    if p >= end then v2
    else if p + 12 > end || U64(m, p) < 4 || p + 8 + U64(m, p) > end then None
    else
      var next := p + 8 + U64(m, p);
      Walk(m, next, end, if U32(m, p + 8) == 0x7109871a then Some(m[p + 12..next]) else v2)
  }

  /** The embedded digests by algorithm. */
  function Embedded(digests: seq<byte>, o: nat): (r: Option<seq<(nat, seq<byte>)>>)
    decreases |digests| - o
  {
    if o >= |digests| then Some([])
    else
      match LpAt(digests, o)
      case None => None
      case Some((d, next)) =>
        var dig := LpAt(d, 4);
        var rest := Embedded(digests, next);
        if dig.None? || rest.None? then None else Some([(U32(d, 0), dig.value.0)] + rest.value)
  }

  /** The digests embedded in the first signer. */
  function FirstDigests(v2: seq<byte>): (r: Option<seq<(nat, seq<byte>)>>) {
    var signers := LpAt(v2, 0);
    if signers.None? then None else
    var signer := LpAt(signers.value.0, 0);
    if signer.None? then None else
    var signedData := LpAt(signer.value.0, 0);
    if signedData.None? then None else
    var digests := LpAt(signedData.value.0, 0);
    if digests.None? then None else Embedded(digests.value.0, 0)
  }

  /** "MATCH": the recomputed digest is among the embedded ones. */
  ghost predicate MatchAt(h: seq<byte> -> seq<byte>, m: seq<byte>, i: nat)
    requires i + 22 <= |m|
  {
    var (cdSize, cdOff) := (U32(m, i + 12), U32(m, i + 16));
    && 24 <= cdOff && cdOff + cdSize <= |m|
    && m[cdOff - 16..cdOff]
       == [0x41, 0x50, 0x4b, 0x20, 0x53, 0x69, 0x67, 0x20, 0x42, 0x6c, 0x6f, 0x63, 0x6b, 0x20, 0x34, 0x32]
    && var size := U64(m, cdOff - 24);
    && size + 8 <= cdOff
    && var start := cdOff - 8 - size;
    && U64(m, start) == size
    && var v2 := Walk(m, start + 8, cdOff - 24, None);
    && v2.Some? && FirstDigests(v2.value).Some?
    && var mine := Recomputed(h, [m[0..start], m[cdOff..cdOff + cdSize], WithOffset(m[i..], start)]);
       exists k :: 0 <= k < |FirstDigests(v2.value).value| && FirstDigests(v2.value).value[k].1 == mine
  }

  // --- It matches ------------------------------------------------------------------------------------

  /** The last value under an id. */
  function LastUnder(ps: seq<Pair>, id: nat, found: Option<seq<byte>>): (r: Option<seq<byte>>) {
    if ps == [] then found else LastUnder(ps[1..], id, if ps[0].0 == id then Some(ps[0].1) else found)
  }

  lemma {:induction false} WalkFinds(m: seq<byte>, p: nat, end: nat, ps: seq<Pair>, found: Option<seq<byte>>)
    requires p <= end <= |m| && m[p..end] == PairsBytes(ps)
    requires forall i :: 0 <= i < |ps| ==> ps[i].0 < U32_MOD && 4 + |ps[i].1| < U64_MOD
    ensures Walk(m, p, end, found) == LastUnder(ps, 0x7109871a, found)
    decreases |ps|
  {
    hide PairBytes, LE;
    if ps != [] {
      var (x, rest) := (ps[0], PairsBytes(ps[1..]));
      PairHead(x, rest);
      var n := 12 + |x.1|;
      var b := m[p..end];
      SubSlice(m, p, end - p, 0, 8); SubSlice(m, p, end - p, 8, 12); SubSlice(m, p, end - p, 12, n);
      SubSlice(m, p, end - p, n, end - p);
      assert b[0..0 + 8] == m[p..p + 8] && b[8..8 + 4] == m[p + 8..p + 8 + 4];
      assert b[n..] == b[n..end - p];
      WalkFinds(m, p + n, end, ps[1..], if x.0 == 0x7109871a then Some(x.1) else found);
    }
  }

  lemma LpAtLp(x: seq<byte>, rest: seq<byte>, o: nat, b: seq<byte>)
    requires |x| < U32_MOD && o <= |b| && b[o..] == Lp(x) + rest
    ensures LpAt(b, o) == Some((x, o + 4 + |x|))
  {
    hide LE, ToLE;
    var (t, n) := (b[o..], |b| - o);
    assert b[o..o + n] == t;
    SubSlice(b, o, n, 0, 4); SubSlice(b, o, n, 4, 4 + |x|);
    assert t[0..4] == PutU32(|x|)[0..4] && t[4..4 + |x|] == x;
    assert b[o..o + 4] == t[0..4];
    LEStored(|x|);
  }

  lemma LEStored(x: nat)
    requires x < U32_MOD
    ensures LE(PutU32(x)) == x && PutU32(x)[0..4] == PutU32(x)
  {
    Widths();
    ToLERoundTrip(x, 4);
  }

  /** The digest of a v2 signer, where the script looks for it. */
  lemma SignerDigest(inp: SignerInput, v3: bool, signature: seq<byte>)
    requires inp.algId < U32_MOD && |SchemeBlock([V2Bytes(inp, v3, signature)])| < U32_MOD
    ensures FirstDigests(SchemeBlock([V2Bytes(inp, v3, signature)])) == Some([(inp.algId, inp.digest)])
  {
    hide LpAt, Embedded, V2Attributes, Lp, IdValue;
    var b := V2Bytes(inp, v3, signature);
    var sd := V2SignedData(inp, v3);
    var item := IdValue(inp.algId, inp.digest);
    SchemeIs(b);
    assert Lp(b) + [] == Lp(b) && Lp(Lp(b)) + [] == Lp(Lp(b));
    SignerIs(inp, v3, signature);
    ItemIs(inp.algId, inp.digest);
    var more :| b == Lp(sd) + more;
    var rest :| sd == Lp(Lp(item)) + rest;
    LpLengths(b, sd, more, item, rest);
    hide V2Bytes, V2SignedData, SchemeBlock;
    WholeFrom(Lp(Lp(b))); WholeFrom(Lp(b)); WholeFrom(b); WholeFrom(sd); WholeFrom(Lp(item));
    LpAtLp(Lp(b), [], 0, Lp(Lp(b)));
    LpAtLp(b, [], 0, Lp(b));
    LpAtLp(sd, more, 0, b);
    LpAtLp(Lp(item), rest, 0, sd);
    EmbeddedOne(inp.algId, inp.digest);
  }

  lemma WholeFrom(b: seq<byte>)
    ensures b[0..] == b
  {
  }

  lemma SignerIs(inp: SignerInput, v3: bool, signature: seq<byte>)
    ensures exists more :: V2Bytes(inp, v3, signature) == Lp(V2SignedData(inp, v3)) + more
    ensures exists rest :: V2SignedData(inp, v3) == Lp(Lp(IdValue(inp.algId, inp.digest))) + rest
  {
    hide Lp, IdValue, V2Attributes;
    ItemIs(inp.algId, inp.digest);
    var top := [V2SignedData(inp, v3), LpSeq(PairItems([(inp.algId, signature)])), inp.spki];
    assert V2Bytes(inp, v3, signature) == Lp(V2SignedData(inp, v3)) + LpSeq(top[1..]);
    var sd := [LpSeq(PairItems([(inp.algId, inp.digest)])), LpSeq(inp.certs), V2Attributes(v3), []];
    assert V2SignedData(inp, v3) == Lp(Lp(IdValue(inp.algId, inp.digest))) + LpSeq(sd[1..]);
  }

  lemma ItemIs(id: nat, v: seq<byte>)
    ensures LpSeq(PairItems([(id, v)])) == Lp(IdValue(id, v))
  {
    hide Lp, IdValue;
    var items := PairItems([(id, v)]);
    assert items[0] == IdValue(id, v) && items[1..] == [];
    assert LpSeq(items) == Lp(items[0]) + [];
  }

  lemma LpLengths(b: seq<byte>, sd: seq<byte>, more: seq<byte>, item: seq<byte>, rest: seq<byte>)
    requires |Lp(Lp(b))| < U32_MOD && b == Lp(sd) + more && sd == Lp(Lp(item)) + rest
    ensures |Lp(b)| < U32_MOD && |b| < U32_MOD && |sd| < U32_MOD && |Lp(item)| < U32_MOD && |item| < U32_MOD
  {
  }

  lemma EmbeddedOne(id: nat, v: seq<byte>)
    requires id < U32_MOD && |IdValue(id, v)| < U32_MOD
    ensures Embedded(Lp(IdValue(id, v)), 0) == Some([(id, v)])
  {
    hide LpAt, LE, ToLE;
    var d := IdValue(id, v);
    var b := Lp(d);
    assert b[0..] == Lp(d) + [];
    LpAtLp(d, [], 0, b);
    assert d[4..] == Lp(v) + [];
    LpAtLp(v, [], 4, d);
    LEStored(id);
    assert d[0..0 + 4] == PutU32(id);
    assert Embedded(b, |b|) == Some([]);
    assert [(id, v)] + [] == [(id, v)];
  }

  lemma OneBlock(signer: Signer, d: seq<byte>, v3: bool, tail: seq<Pair>)
    requires signer.Pairs(d, true, v3).Some? && forall i :: 0 <= i < |tail| ==> tail[i].0 != 0x7109871a
    requires |tail| <= 1
    ensures signer.V2(d, v3).Some?
    ensures LastUnder(signer.Pairs(d, true, v3).value + tail, 0x7109871a, None)
      == Some(SchemeBlock([signer.V2(d, v3).value]))
  {
    hide SchemeBlock, Signer.V2, Signer.V3;
    var ps := signer.Pairs(d, true, v3).value;
    var block := SchemeBlock([signer.V2(d, v3).value]);
    assert ps[0] == (0x7109871a, block);
    assert (ps + tail)[1..] == ps[1..] + tail;
    OthersUnder(ps[1..] + tail, Some(block));
  }

  lemma {:induction false} OthersUnder(ps: seq<Pair>, found: Option<seq<byte>>)
    requires forall i :: 0 <= i < |ps| ==> ps[i].0 != 0x7109871a
    ensures LastUnder(ps, 0x7109871a, found) == found
  {
    if ps != [] {
      OthersUnder(ps[1..], found);
    }
  }

  /** "MATCH" at the end of the file's last mark. */
  ghost predicate Matches(h: seq<byte> -> seq<byte>, m: seq<byte>) {
    exists i: nat :: LastMark(m, i) && i + 22 <= |m| && MatchAt(h, m, i)
  }

  /** The value under the scheme's id is the signer's. */
  lemma WalkedBlock(signer: Signer, d: seq<byte>, v3: bool, p: SignedApk)
    requires p.Ok() && Some(p.pairs) == signer.Pairs(d, true, v3)
    ensures signer.V2(d, v3).Some? && p.Start() + 32 <= p.CdOff() <= |p.Bytes()|
    ensures Walk(p.Bytes(), p.Start() + 8, p.CdOff() - 24, None) == Some(SchemeBlock([signer.V2(d, v3).value]))
    ensures |SchemeBlock([signer.V2(d, v3).value])| < U32_MOD
  {
    hide EocdAt, FinalEocd, SchemeBlock, Signer.V2, Signer.V3, PairsBytes, SignedApk.Bytes, Walk;
    PartsInPlace(p);
    BlockEnds(p.pairs);
    var (m, b, n) := (p.Bytes(), BlockBytes(p.pairs), |BlockBytes(p.pairs)|);
    SubSlice(m, p.Start(), n, 8, n - 24);
    hide BlockBytes;
    var tail := VerityPair(Used(p.pairs));
    var ps := AllPairs(p.pairs);
    assert ps == p.pairs + tail;
    VerityId(p.pairs);
    hide AllPairs, VerityPair;
    OneBlock(signer, d, v3, tail);
    BlockLength(p.pairs);
    forall i | 0 <= i < |ps| ensures ps[i].0 < U32_MOD && 4 + |ps[i].1| < U64_MOD {
      PairFits(ps, i);
      PairIds(signer, d, v3);
    }
    WalkFinds(m, p.Start() + 8, p.CdOff() - 24, ps, None);
    FirstPair(signer, d, v3);
    PairFits(ps, 0);
  }

  lemma PairIds(signer: Signer, d: seq<byte>, v3: bool)
    requires signer.Pairs(d, true, v3).Some?
    ensures forall x :: x in signer.Pairs(d, true, v3).value ==> x.0 < U32_MOD
  {
    hide SchemeBlock, Signer.V2, Signer.V3;
  }

  lemma FirstPair(signer: Signer, d: seq<byte>, v3: bool)
    requires signer.Pairs(d, true, v3).Some?
    ensures signer.V2(d, v3).Some? && |signer.Pairs(d, true, v3).value| >= 1
    ensures signer.Pairs(d, true, v3).value[0].1 == SchemeBlock([signer.V2(d, v3).value])
  {
    hide SchemeBlock, Signer.V2, Signer.V3;
  }

  /** The script reports a match on every file signed with v2 that parses back, when its last EOCD mark
      is the EOCD's own (there is none in the comment). */
  lemma SignedMatches(signer: Signer, v3: bool, p: SignedApk)
    requires p.Ok() && signer.algId < U32_MOD
    requires Some(p.pairs)
      == signer.Pairs(ContentDigest(signer.alg, Covered(p.entries, p.cd, p.template, p.count)), true, v3)
    requires Parse(p.Bytes()) == Result.Ok(p.Sections()) && LastMark(p.Bytes(), p.CdOff() + |p.cd|)
    ensures Matches(signer.alg.h, p.Bytes())
  {
    hide EocdAt, ContentDigest, Parse, Covered, BlockBytes, FinalEocd, Signer.Pairs, Walk, FirstDigests,
      SignedApk.Bytes, PairsBytes, AllPairs, LE, SchemeBlock, Recomputed, WithOffset, Signer.V3, LastMark, OneDisk,
      LastEndRecord, V2Bytes, V2SignedData;
    var d := ContentDigest(signer.alg, Covered(p.entries, p.cd, p.template, p.count));
    var (m, s) := (p.Bytes(), p.Sections());
    ParseIff(m, s);
    LastInside(m, s.eocdOff);
    WalkedBlock(signer, d, v3, p);
    SameDigest(signer.alg, p);
    var inp := signer.Input(d);
    SignerDigest(inp, v3, signer.sign(V2SignedData(inp, v3)).value);
    assert m[0..p.Start()] == m[..p.Start()];
    assert FirstDigests(SchemeBlock([signer.V2(d, v3).value])).value[0].1 == d;
    assert MatchAt(signer.alg.h, m, s.eocdOff);
  }
}
