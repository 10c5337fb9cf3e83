/** What holds of the file `sign_one` leaves: it parses back, a verifier accepts its digests, and
    signing it again changes nothing. */
module Signed {
  import opened Wrappers
  import opened Bytes
  import opened Hashing
  import opened Digest
  import opened Zip
  import opened Sigblock
  import opened Splice
  import Verifier

  // --- The EOCD of the signed file -----------------------------------------------------------------

  function FinalEocd(template: seq<byte>, cdLen: nat, count: nat, cdOff: nat): (r: seq<byte>)
    requires |template| >= EOCD_MIN_LEN
    ensures |r| == |template|
  {
    SetCdOffset(NewEocd(template, cdLen, count), cdOff)
  }

  /** Only the twelve bytes from 8 to 19 change. */
  lemma PrefixSlice(a: seq<byte>, b: seq<byte>, n: nat, i: nat, j: nat)
    requires n <= |a| && n <= |b| && a[..n] == b[..n] && i <= j <= n
    ensures a[i..j] == b[i..j] && a[..j] == b[..j]
  {
    assert a[i..j] == a[..n][i..j] && b[i..j] == b[..n][i..j];
    assert a[..j] == a[..n][..j] && b[..j] == b[..n][..j];
  }

  /** Four patches, left to right, each leaving the earlier ones alone. */
  lemma FourPatches(t: seq<byte>, a: seq<byte>, b: seq<byte>, c: seq<byte>, d: seq<byte>)
    requires |t| >= 20 && |a| == 2 && |b| == 2 && |c| == 4 && |d| == 4
    ensures var e := Patched(Patched(Patched(Patched(t, 8, a), 10, b), 12, c), 16, d);
      e[..8] == t[..8] && e[20..] == t[20..] && e[8..20] == a + b + c + d
  {
    var s1 := Patched(t, 8, a);
    var s2 := Patched(s1, 10, b);
    var s3 := Patched(s2, 12, c);
    var e := Patched(s3, 16, d);
    hide Patched;
    PrefixSlice(e, s3, 16, 12, 16); PrefixSlice(e, s3, 16, 10, 12); PrefixSlice(e, s3, 16, 8, 10);
    PrefixSlice(e, s3, 16, 0, 8);
    PrefixSlice(s3, s2, 12, 10, 12); PrefixSlice(s3, s2, 12, 8, 10); PrefixSlice(s3, s2, 12, 0, 8);
    PrefixSlice(s2, s1, 10, 8, 10); PrefixSlice(s2, s1, 10, 0, 8);
    assert s3[20..] == s3[16..][4..] && s2[20..] == s2[16..][4..] == s3[16..][4..];
    assert s2[20..] == s2[12..][8..] && s1[20..] == s1[12..][8..] == s2[12..][8..];
    assert s1[20..] == s1[10..][10..] && t[20..] == t[10..][10..];
    assert e[8..20] == e[8..10] + e[10..12] + e[12..16] + e[16..20];
  }

  lemma OutsidePatch(template: seq<byte>, cdLen: nat, count: nat, cdOff: nat)
    requires |template| >= EOCD_MIN_LEN
    ensures var e := FinalEocd(template, cdLen, count, cdOff);
      && e[..8] == template[..8] && e[20..] == template[20..]
      && e[8..20] == PutU16(count) + PutU16(count) + PutU32(cdLen) + PutU32(cdOff)
  {
    hide ToLE;
    FourPatches(template, PutU16(count), PutU16(count), PutU32(cdLen), PutU32(cdOff));
    hide Patched;
  }

  lemma SlicesAgree(e: seq<byte>, t: seq<byte>, i: nat, n: nat)
    requires |e| == |t| >= 20 && e[..8] == t[..8] && e[20..] == t[20..] && i + n <= |e|
    requires i + n <= 8 || i >= 20
    ensures e[i..i + n] == t[i..i + n]
  {
    forall k | i <= k < i + n ensures e[k] == t[k] {
      if k < 8 {
        assert e[..8][k] == t[..8][k];
      } else {
        assert e[20..][k - 20] == t[20..][k - 20];
      }
    }
  }

  lemma PatchedField(e: seq<byte>, a: seq<byte>, b: seq<byte>, c: seq<byte>, d: seq<byte>)
    requires |e| >= 20 && |a| == 2 && |b| == 2 && |c| == 4 && |d| == 4 && e[8..20] == a + b + c + d
    ensures e[8..10] == a && e[10..12] == b && e[12..16] == c && e[16..20] == d
  {
    var p := e[8..20];
    SubSlice(e, 8, 12, 0, 2); SubSlice(e, 8, 12, 2, 4); SubSlice(e, 8, 12, 4, 8); SubSlice(e, 8, 12, 8, 12);
    assert p[0..2] == a && p[2..4] == b && p[4..8] == c && p[8..12] == d;
  }

  lemma EocdFields(template: seq<byte>, cdLen: nat, count: nat, cdOff: nat)
    requires |template| >= EOCD_MIN_LEN
    ensures var e := FinalEocd(template, cdLen, count, cdOff);
      && IsEocd(e) == IsEocd(template)
      && U16(e, 4) == U16(template, 4) && U16(e, 6) == U16(template, 6)
      && U16(e, 8) == U16(e, 10) == count % U16_MOD
      && U32(e, 12) == cdLen % U32_MOD && U32(e, 16) == cdOff % U32_MOD
  {
    var e := FinalEocd(template, cdLen, count, cdOff);
    OutsidePatch(template, cdLen, count, cdOff);
    hide ToLE, LE, FinalEocd;
    PatchedField(e, PutU16(count), PutU16(count), PutU32(cdLen), PutU32(cdOff));
    SlicesAgree(e, template, 4, 2); SlicesAgree(e, template, 6, 2); SlicesAgree(e, template, 20, 2);
    SlicesAgree(e, template, 0, 4);
    assert e[0..4] == e[..4] && template[0..4] == template[..4];
    Widths();
    ToLERoundTrip(count, 2); ToLERoundTrip(cdLen, 4); ToLERoundTrip(cdOff, 4);
  }

  lemma DecoyInPatch(template: seq<byte>, cdLen: nat, count: nat, cdOff: nat)
    requires EocdAt(template, 0) && |template| >= EOCD_MIN_LEN
    ensures var e := FinalEocd(template, cdLen, count, cdOff);
      EocdAt(e, 0) <==> forall j :: 5 <= j < 20 ==> !IsEocd(e[j..])
  {
    var e := FinalEocd(template, cdLen, count, cdOff);
    assert template[0..] == template && e[0..] == e;
    EocdFields(template, cdLen, count, cdOff);
    OutsidePatch(template, cdLen, count, cdOff);
    hide FinalEocd, IsEocd;
    forall j | 0 < j <= |e| && !(5 <= j < 20) ensures !IsEocd(e[j..]) {
      SuffixIsEocd(e, j);
      SuffixIsEocd(template, j);
      if |e| - j >= EOCD_MIN_LEN {
        SlicesAgree(e, template, j, 4);
        SlicesAgree(e, template, j + 20, 2);
      }
    }
  }

  /** The patched bytes, one by one. */
  lemma PatchedBytes(template: seq<byte>, cdLen: nat, count: nat, cdOff: nat)
    requires |template| >= EOCD_MIN_LEN
    ensures var e := FinalEocd(template, cdLen, count, cdOff);
      && e[4] == template[4] && e[5] == template[5] && e[6] == template[6] && e[7] == template[7]
      && e[8] == e[10] == count % 256 && e[9] == e[11] == count / 256 % 256
      && e[12] == cdLen % 256 && e[13] == cdLen / 256 % 256 && e[16] == cdOff % 256
  {
    var e := FinalEocd(template, cdLen, count, cdOff);
    OutsidePatch(template, cdLen, count, cdOff);
    assert e[..8][4] == template[..8][4] && e[..8][5] == template[..8][5];
    assert e[..8][6] == template[..8][6] && e[..8][7] == template[..8][7];
    FirstBytes(count, 2);
    FirstBytes(cdLen, 4);
    FirstBytes(cdOff, 4);
    hide FinalEocd, ToLE;
    var p := e[8..20];
    assert p[0] == e[8] && p[1] == e[9] && p[2] == e[10] && p[3] == e[11] && p[4] == e[12] && p[5] == e[13]
      && p[8] == e[16];
  }

  lemma ZeroWord(e: seq<byte>, i: nat)
    requires i + 2 <= |e| && U16(e, i) == 0
    ensures e[i] == 0 && e[i + 1] == 0
  {
    var f := e[i..i + 2];
    assert LE(f) == f[0] + 256 * LE(f[1..]) && LE(f[1..]) == f[1..][0] + 256 * LE(f[1..][1..]);
  }

  /** A decoy record inside the patched EOCD can only start at six of the patched bytes, and not at all
      when the comment is empty. */
  lemma DecoyOnlyInPatch(template: seq<byte>, cdLen: nat, count: nat, cdOff: nat)
    requires EocdOk(template) && cdOff % 4096 == 0
    ensures var e := FinalEocd(template, cdLen, count, cdOff);
      && (EocdAt(e, 0) <==> forall j :: j in {10, 11, 12, 17, 18, 19} ==> !IsEocd(e[j..]))
      && (|template| == EOCD_MIN_LEN ==> EocdAt(e, 0))
  {
    var e := FinalEocd(template, cdLen, count, cdOff);
    DecoyInPatch(template, cdLen, count, cdOff);
    PatchedBytes(template, cdLen, count, cdOff);
    ZeroWord(template, 4);
    ZeroWord(template, 6);
    hide FinalEocd, IsEocd, EocdAt, LE;
    forall j | 5 <= j < 20 && j !in {10, 11, 12, 17, 18, 19} ensures !IsEocd(e[j..]) {
      SuffixIsEocd(e, j);
      if |e| - j >= EOCD_MIN_LEN && e[j..j + 4] == EOCD_SIG {
        SigBytes(e, j);
      }
    }
    if |template| == EOCD_MIN_LEN {
      forall j | 5 <= j < 20 ensures !IsEocd(e[j..]) {
        SuffixIsEocd(e, j);
      }
    }
  }

  lemma SigBytes(e: seq<byte>, j: nat)
    requires j + 4 <= |e|
    ensures e[j..j + 4] == EOCD_SIG <==> e[j] == 0x50 && e[j + 1] == 0x4b && e[j + 2] == 0x05 && e[j + 3] == 0x06
  {
    var f := e[j..j + 4];
    assert f[0] == e[j] && f[1] == e[j + 1] && f[2] == e[j + 2] && f[3] == e[j + 3];
  }

  // --- Parsing it back -------------------------------------------------------------------------------

  /** A signed file, part by part. */
  datatype SignedApk = SignedApk(entries: seq<byte>, pairs: seq<Pair>, cd: seq<byte>, template: seq<byte>, count: nat) {
    function Start(): (r: nat) { |entries| + PaddingBeforeBlock(|entries|) }
    function CdOff(): (r: nat) { Start() + |BlockBytes(pairs)| }
    function Eocd(): (r: seq<byte>)
      requires |template| >= EOCD_MIN_LEN
    {
      FinalEocd(template, |cd|, count, CdOff())
    }
    function Bytes(): (r: seq<byte>)
      requires |template| >= EOCD_MIN_LEN
    {
      entries + Zeros(PaddingBeforeBlock(|entries|)) + BlockBytes(pairs) + cd + Eocd()
    }
    /** What parsing it should give. */
    function Sections(): (r: Sections)
      requires |template| >= EOCD_MIN_LEN
    {
      Zip.Sections(|Bytes()|, Start(), Some((Start(), |BlockBytes(pairs)|)), CdOff(), |cd|, CdOff() + |cd|, Eocd())
    }
    ghost predicate Ok() {
      && EocdOk(template) && |template| <= EOCD_MIN_LEN + MAX_COMMENT_LEN && CdOff() <= U32_MAX && |cd| < 0xffff_ffff
      && (cd == [] || |cd| >= 46)  // a directory is tiled by records of at least 46 bytes
    }
  }

  lemma PartsInPlace(p: SignedApk)
    requires |p.template| >= EOCD_MIN_LEN
    ensures var f := p.Bytes();
      && |f| == p.CdOff() + |p.cd| + |p.template|
      && f[..p.Start()] == p.entries + Zeros(PaddingBeforeBlock(|p.entries|))
      && f[p.Start()..p.CdOff()] == BlockBytes(p.pairs)
      && f[p.CdOff()..p.CdOff() + |p.cd|] == p.cd
      && f[p.CdOff() + |p.cd|..] == p.Eocd()
  {
    hide BlockBytes, FinalEocd;
  }

  /** A block that ends and begins as it should is found. */
  lemma SigBlockAt(f: seq<byte>, s: nat, b: seq<byte>)
    requires s + |b| <= |f| && f[s..s + |b|] == b && |b| >= 32
    requires b[|b| - 16..] == SIG_BLOCK_MAGIC && U64(b, 0) == |b| - 8 && U64(b, |b| - 24) == |b| - 8
    ensures FindSigBlock(f, s + |b|) == Some((s, |b|))
  {
    hide LE;
    var n := |b|;
    SubSlice(f, s, n, n - 16, n);
    SubSlice(f, s, n, n - 24, n - 24 + 8);
    SubSlice(f, s, n, 0, 8);
    assert b[n - 16..n] == b[n - 16..];
    assert f[s + n - 16..s + n] == SIG_BLOCK_MAGIC;
    assert U64(f, s + n - 24) == n - 8 && U64(f, s) == n - 8;
  }

  lemma BlockFound(p: SignedApk)
    requires p.Ok()
    ensures FindSigBlock(p.Bytes(), p.CdOff()) == Some((p.Start(), |BlockBytes(p.pairs)|))
  {
    hide FinalEocd, EocdAt, LE, FindSigBlock, BlockBytes, PairsBytes, AllPairs, SignedApk.Bytes;
    PartsInPlace(p);
    BlockEnds(p.pairs);
    SigBlockAt(p.Bytes(), p.Start(), BlockBytes(p.pairs));
  }

  /** `CheckEocd`, said of an EOCD whose fields are known. */
  lemma CheckedFields(f: seq<byte>, at: nat, e: seq<byte>, cdSize: nat, cdOff: nat, block: (nat, nat))
    requires at <= |f| && f[at..] == e && IsEocd(e) && TailLen(f) >= |e| && at == |f| - |e|
    requires U16(e, 4) == 0 && U16(e, 6) == 0 && U16(e, 8) == U16(e, 10)
    requires U32(e, 12) == cdSize != 0xffff_ffff && U32(e, 16) == cdOff != 0xffff_ffff && cdOff + cdSize == at
    requires FindSigBlock(f, cdOff) == Some(block)
    ensures IsEocd(f[at..])
    ensures var parsed := CheckEocd(f, at - (|f| - TailLen(f)), TailLen(f));
      parsed == Result.Ok(Zip.Sections(|f|, block.0, Some(block), cdOff, cdSize, at, e))
      <==> U16(e, 10) != 0xffff && !LocatorSeen(f, at)
  {
    hide FindSigBlock, IsEocd, LE;
    var rel := at - (|f| - TailLen(f));
    assert f[|f| - TailLen(f) + rel..] == e;
    assert (rel >= 20 && f[at - 20..at - 16] == ZIP64_LOCATOR_SIG) == LocatorSeen(f, at);
  }

  lemma CheckedSpliced(p: SignedApk)
    requires p.Ok() && EocdAt(p.Bytes(), p.CdOff() + |p.cd|)
    ensures var (f, at) := (p.Bytes(), p.CdOff() + |p.cd|);
      && TailLen(f) >= |f| - at && IsEocd(f[at..])
      && (CheckEocd(f, at - (|f| - TailLen(f)), TailLen(f)) == Result.Ok(p.Sections())
          <==> p.count % U16_MOD != 0xffff && !LocatorSeen(f, at))
  {
    hide FinalEocd, U16, U32, BlockBytes, FindSigBlock, IsEocd, CheckEocd, LocatorSeen, SignedApk.Bytes,
      SignedApk.CdOff, SignedApk.Start;
    PartsInPlace(p);
    BlockFound(p);
    SplicedFields(p);
    CheckedFields(p.Bytes(), p.CdOff() + |p.cd|, p.Eocd(), |p.cd|, p.CdOff(), (p.Start(), |BlockBytes(p.pairs)|));
  }

  lemma SplicedFields(p: SignedApk)
    requires p.Ok()
    ensures var e := p.Eocd();
      && IsEocd(e) && U16(e, 4) == 0 && U16(e, 6) == 0 && U16(e, 8) == U16(e, 10) == p.count % U16_MOD
      && U32(e, 12) == |p.cd| && U32(e, 16) == p.CdOff() != 0xffff_ffff
  {
    PageOffset(p);
    hide FinalEocd, U16, U32, BlockBytes, IsEocd, SignedApk.CdOff;
    EocdFields(p.template, |p.cd|, p.count, p.CdOff());
  }

  lemma PageOffset(p: SignedApk)
    ensures p.CdOff() % 4096 == 0 && p.CdOff() != 0xffff_ffff
  {
    hide BlockBytes, BlockSize, PaddingBeforeBlock;
    TwoPages(p.Start(), |BlockBytes(p.pairs)|);
  }

  lemma TwoPages(a: nat, b: nat)
    requires a % 4096 == 0 && b % 4096 == 0
    ensures (a + b) % 4096 == 0 && a + b != 0xffff_ffff
  {
    var (x, y) := (a / 4096, b / 4096);
    assert a + b == 4096 * (x + y);
  }

  /** The directory ends with what `parse` takes for a Zip64 locator, and the comment is short enough
      for it to look. */
  predicate LocatorAtEnd(cd: seq<byte>, template: seq<byte>) {
    |cd| >= 20 && |template| <= EOCD_MIN_LEN + MAX_COMMENT_LEN - 20 && cd[|cd| - 20..|cd| - 16] == ZIP64_LOCATOR_SIG
  }

  /** Said of the parts: the locator can only be the end of the directory. */
  lemma LocatorSeenIff(p: SignedApk)
    requires p.Ok()
    ensures p.CdOff() + |p.cd| <= |p.Bytes()|
    ensures LocatorSeen(p.Bytes(), p.CdOff() + |p.cd|) <==> LocatorAtEnd(p.cd, p.template)
  {
    hide FinalEocd, EocdAt, BlockBytes, LE, SignedApk.Bytes;
    PartsInPlace(p);
    BlockIsPage(p.pairs);
    var (f, at) := (p.Bytes(), p.CdOff() + |p.cd|);
    if |p.cd| >= 20 {
      SubSlice(f, p.CdOff(), |p.cd|, |p.cd| - 20, |p.cd| - 16);
    } else {
      BeforeLocator(p);
    }
  }

  lemma BlockIsPage(pairs: seq<Pair>)
    ensures |BlockBytes(pairs)| >= 4096
  {
    hide BlockBytes;
    assert |BlockBytes(pairs)| >= 32 && |BlockBytes(pairs)| % 4096 == 0;
  }

  /** Before an empty directory stands the upper half of the block's size field. */
  lemma BeforeLocator(p: SignedApk)
    requires p.Ok() && p.cd == []
    ensures 20 <= p.CdOff() <= |p.Bytes()| && p.Bytes()[p.CdOff() - 20..p.CdOff() - 16] != ZIP64_LOCATOR_SIG
  {
    hide FinalEocd, EocdAt, BlockBytes, PairsBytes, AllPairs, SignedApk.Bytes;
    PartsInPlace(p);
    BlockEnds(p.pairs);
    BlockIsPage(p.pairs);
    var (f, b, n) := (p.Bytes(), BlockBytes(p.pairs), |BlockBytes(p.pairs)|);
    HighByte(b[n - 24..n - 24 + 8], 4);
    Widths();
    hide LE;
    assert b[n - 24..n - 24 + 8][4] == b[n - 20];
    SubSlice(f, p.Start(), n, n - 20, n - 16);
    assert f[p.CdOff() - 20..p.CdOff() - 16][0] == b[n - 20..n - 16][0] == b[n - 20] == 0;
  }

  lemma {:induction false} HighByte(s: seq<byte>, k: nat)
    requires k < |s|
    ensures LE(s) >= Pow256(k) * s[k]
  {
    if k > 0 {
      HighByte(s[1..], k - 1);
      assert Pow256(k) * s[k] == 256 * (Pow256(k - 1) * s[1..][k - 1]);
    }
  }

  /** What must hold for a signed file to parse back: an entry count that is not the Zip64 mark, no
      later EOCD record inside the patched one, no Zip64 locator at the directory's end. */
  ghost predicate Reparses(p: SignedApk)
    requires |p.template| >= EOCD_MIN_LEN
  {
    && p.count % U16_MOD != 0xffff
    && EocdAt(FinalEocd(p.template, |p.cd|, p.count, p.CdOff()), 0)
    && !LocatorAtEnd(p.cd, p.template)
  }

  /** Re-parsing: `parse` recovers block start and length, directory and EOCD of the signed file
      exactly under these conditions. */
  lemma ReparseIff(p: SignedApk)
    requires p.Ok()
    ensures Parse(p.Bytes()) == Result.Ok(p.Sections()) <==> Reparses(p)
  {
    hide FinalEocd, BlockBytes, CheckEocd, Parse, FindSigBlock, LocatorSeen, LocatorAtEnd, IsEocd;
    PartsInPlace(p);
    LocatorSeenIff(p);
    var (f, at) := (p.Bytes(), p.CdOff() + |p.cd|);
    ParseAt(f, at);
    EocdInTail(f, at, at);
    if EocdAt(f, at) {
      CheckedSpliced(p);
    }
  }

  // --- Verification ----------------------------------------------------------------------------------

  function FindPair(pairs: seq<Pair>, id: nat): (r: Option<seq<byte>>) {
    if pairs == [] then None else if pairs[0].0 == id then Some(pairs[0].1) else FindPair(pairs[1..], id)
  }

  /** The only signer of a scheme block. */
  function OnlySigner(block: seq<byte>): (r: Option<seq<byte>>) {
    var top := UnLpSeq(block);
    if top.None? || |top.value| != 1 then None
    else
      var signers := UnLpSeq(top.value[0]);
      if signers.None? || |signers.value| != 1 then None else Some(signers.value[0])
  }

  /** The signer of scheme `id` a verifier finds in the file. */
  function SignerBlock(f: seq<byte>, s: Sections, id: nat): (r: Option<seq<byte>>)
    requires SectionsOk(s, f) && s.sigBlock.Some? && s.sigBlock.value.0 + s.sigBlock.value.1 <= |f|
  {
    var (start, len) := s.sigBlock.value;
    var pairs := ReadBlock(f[start..start + len]);
    if pairs.None? then None
    else
      var block := FindPair(pairs.value, id);
      if block.None? then None else OnlySigner(block.value)
  }

  /** What a verifier recomputes: the digest of the bytes before the signing block, the Central
      Directory, and the EOCD with its offset field set to the start of the signing block. */
  function VerifierDigest(alg: Algorithm, f: seq<byte>, s: Sections): (r: seq<byte>)
    requires SectionsOk(s, f) && s.sigBlock.Some? && s.sigBlock.value.0 <= |f|
  {
    var start := s.sigBlock.value.0;
    Verifier.Recomputed(alg.h, [f[..start], f[s.cdOff..s.cdOff + s.cdSize], Verifier.WithOffset(s.eocd, start)])
  }

  /** A decoded signer vouches for digest `d`: it names it, and its signature is over the very bytes
      it embeds. */
  ghost predicate Vouches(signer: Signer, dec: Decoded, d: seq<byte>) {
    && dec.digests == [(signer.algId, d)]
    && dec.certs == signer.certs && dec.spki == signer.spki
    && |dec.signatures| == 1 && dec.signatures[0].0 == signer.algId
    && signer.sign(dec.signedData) == Some(dec.signatures[0].1)
  }

  /** The additional attributes of a v2 signer: a file that is signed with v3 too says so in the
      stripping-protection attribute, id 0xbeeff00d, value 3; another file has none. */
  ghost predicate SaysV3(attrs: seq<byte>, v3: bool) {
    if !v3 then attrs == []
    else
      && |attrs| == 12 && UnLpSeq(attrs) == Some([attrs[4..]])
      && U32(attrs, 4) == 0xbeeff00d && U32(attrs, 8) == 3
  }

  /** A verifier accepts the file: it finds the block, under the scheme's id (0x7109871a for v2,
      0xf05368c0 for v3) a signer that vouches for the digest recomputed from the file, and the
      attributes and SDK range that belong to it. */
  ghost predicate Verifies(signer: Signer, v2: bool, v3: bool, f: seq<byte>) {
    && Parse(f).Ok?
    && var s := Parse(f).value;
    && s.sigBlock.Some? && s.sigBlock.value.0 + s.sigBlock.value.1 <= |f|
    && var d := VerifierDigest(signer.alg, f, s);
    && (v2 ==>
          var b := SignerBlock(f, s, 0x7109871a);
          b.Some? && DecodeV2(b.value).Some? && Vouches(signer, DecodeV2(b.value).value, d)
          && SaysV3(DecodeV2(b.value).value.attrs, v3))
    && (v3 ==>
          var b := SignerBlock(f, s, 0xf05368c0);
          b.Some? && DecodeV3(b.value).Some? && Vouches(signer, DecodeV3(b.value).value, d)
          && DecodeV3(b.value).value.attrs == []
          && DecodeV3(b.value).value.minSdk == 24 && DecodeV3(b.value).value.maxSdk == 0x7fff_ffff)
  }

  /** Setting the offset twice is setting it once. */
  lemma OffsetReplaced(template: seq<byte>, cdLen: nat, count: nat, a: nat, b: nat)
    requires |template| >= EOCD_MIN_LEN
    ensures SetCdOffset(FinalEocd(template, cdLen, count, a), b) == FinalEocd(template, cdLen, count, b)
  {
    hide ToLE;
  }

  /** The verifier's digest of the signed file is the one the signer computed before there was a
      block. */
  lemma SameDigest(alg: Algorithm, p: SignedApk)
    requires p.Ok() && SectionsOk(p.Sections(), p.Bytes())
    ensures VerifierDigest(alg, p.Bytes(), p.Sections())
      == ContentDigest(alg, Covered(p.entries, p.cd, p.template, p.count))
  {
    hide ContentDigest, BlockBytes, EocdAt, FinalEocd, SignedApk.Bytes, SetCdOffset, NewEocd, Verifier.Recomputed,
      Verifier.WithOffset;
    PartsInPlace(p);
    Verifier.WithOffsetIs(p.Eocd(), p.Start());
    Verifier.DigestIsRecomputed(alg, Covered(p.entries, p.cd, p.template, p.count));
    OffsetReplaced(p.template, |p.cd|, p.count, p.CdOff(), p.Start());
    FinalIsPatched(p.template, |p.cd|, p.count, p.Start());
    var (f, s) := (p.Bytes(), p.Sections());
    assert [f[..s.sigBlock.value.0], f[s.cdOff..s.cdOff + s.cdSize], Verifier.WithOffset(s.eocd, s.sigBlock.value.0)]
      == Covered(p.entries, p.cd, p.template, p.count);
  }

  lemma FinalIsPatched(template: seq<byte>, cdLen: nat, count: nat, off: nat)
    requires |template| >= EOCD_MIN_LEN
    ensures FinalEocd(template, cdLen, count, off) == SetCdOffset(NewEocd(template, cdLen, count), off)
  {
  }

  lemma {:induction false} FindAppended(x: seq<Pair>, y: seq<Pair>, id: nat)
    ensures FindPair(x + y, id) == if FindPair(x, id).Some? then FindPair(x, id) else FindPair(y, id)
  {
    if x == [] {
      assert x + y == y;
    } else {
      FindAppended(x[1..], y, id);
      assert (x + y)[1..] == x[1..] + y;
    }
  }

  /** What the reader finds under each id. */
  lemma PairsFound(signer: Signer, d: seq<byte>, v2: bool, v3: bool, tail: seq<Pair>)
    requires signer.Pairs(d, v2, v3).Some?
    ensures var ps := signer.Pairs(d, v2, v3).value + tail;
      && (v2 ==> signer.V2(d, v3).Some? && FindPair(ps, V2_BLOCK_ID) == Some(SchemeBlock([signer.V2(d, v3).value])))
      && (v3 ==> signer.V3(d).Some? && FindPair(ps, V3_BLOCK_ID) == Some(SchemeBlock([signer.V3(d).value])))
  {
    hide SchemeBlock, Signer.V2, Signer.V3;
    var ps := signer.Pairs(d, v2, v3).value;
    FindAppended(ps, tail, V2_BLOCK_ID);
    FindAppended(ps, tail, V3_BLOCK_ID);
    assert forall q :: 0 <= q < |ps| ==> ps[q].0 == V2_BLOCK_ID || ps[q].0 == V3_BLOCK_ID;
    assert |ps| > 1 ==> ps[1..][0] == ps[1];
  }

  /** Everything inside the block is short. */
  lemma {:induction false} PairInBlock(pairs: seq<Pair>, id: nat)
    requires FindPair(pairs, id).Some?
    ensures |FindPair(pairs, id).value| + 12 <= |PairsBytes(pairs)|
  {
    if pairs[0].0 != id {
      PairInBlock(pairs[1..], id);
    }
  }

  lemma SignerInScheme(x: seq<byte>)
    requires |SchemeBlock([x])| < U32_MOD
    ensures OnlySigner(SchemeBlock([x])) == Some(x) && |x| < U32_MOD
  {
    SchemeBlockRoundTrip([x]);
    hide UnLpSeq;
    LpSeqItems([LpSeq([x])], 0);
    LpSeqItems([x], 0);
  }

  /** The block of a signed file reads back, and its signers come out as they went in. */
  lemma SignersFound(signer: Signer, d: seq<byte>, v2: bool, v3: bool, p: SignedApk)
    requires p.Ok() && SectionsOk(p.Sections(), p.Bytes()) && Some(p.pairs) == signer.Pairs(d, v2, v3)
    ensures p.CdOff() <= |p.Bytes()|
    ensures v2 ==> signer.V2(d, v3).Some? && |signer.V2(d, v3).value| < U32_MOD
                   && SignerBlock(p.Bytes(), p.Sections(), V2_BLOCK_ID) == signer.V2(d, v3)
    ensures v3 ==> signer.V3(d).Some? && |signer.V3(d).value| < U32_MOD
                   && SignerBlock(p.Bytes(), p.Sections(), V3_BLOCK_ID) == signer.V3(d)
  {
    hide EocdAt, FinalEocd, ReadBlock, SchemeBlock, Signer.V2, Signer.V3, OnlySigner, PairsBytes;
    PartsInPlace(p);
    BlockRoundTrip(p.pairs);
    PaddedLength(p.pairs);
    hide BlockBytes, AllPairs, SignedApk.Bytes;
    var tail := VerityPair(Used(p.pairs));
    assert AllPairs(p.pairs) == p.pairs + tail by { AllPairsIs(p.pairs); }
    PairsFound(signer, d, v2, v3, tail);
    hide Signer.Pairs, FindPair;
    BlockLength(p.pairs);
    if v2 {
      PairInBlock(p.pairs + tail, V2_BLOCK_ID);
      SignerInScheme(signer.V2(d, v3).value);
    }
    if v3 {
      PairInBlock(p.pairs + tail, V3_BLOCK_ID);
      SignerInScheme(signer.V3(d).value);
    }
  }

  lemma AllPairsIs(pairs: seq<Pair>)
    ensures AllPairs(pairs) == pairs + VerityPair(Used(pairs))
  {
  }

  lemma BlockLength(pairs: seq<Pair>)
    ensures |BlockBytes(pairs)| == |PairsBytes(AllPairs(pairs))| + 32
  {
    PaddedLength(pairs);
  }

  lemma AttributesSay(v3: bool)
    ensures SaysV3(V2Attributes(v3), v3)
  {
    if v3 {
      var a := V2Attributes(v3);
      var x := PutU32(0xbeeff00d) + PutU32(3);
      hide LE, ToLE, UnLpSeq;
      assert |x| == 8 && a == PutU32(8) + x;
      OneElement(x);
      assert a[4..] == x && a[4..4 + 4] == PutU32(0xbeeff00d) && a[8..8 + 4] == PutU32(3);
      Widths();
      ToLERoundTrip(0xbeeff00d, 4);
      ToLERoundTrip(3, 4);
    }
  }

  lemma OneElement(x: seq<byte>)
    requires |x| < U32_MOD
    ensures UnLpSeq(PutU32(|x|) + x) == Some([x])
  {
    LpSeqRoundTrip([x]);
    assert [x][1..] == [] && LpSeq([x]) == PutU32(|x|) + x;
  }

  /** End to end: whatever signed file parses back is accepted by a verifier. Its signers name the
      digest the verifier recomputes from the final bytes, and each signature is over the signed data
      embedded beside it. */
  lemma SignedFileVerifies(signer: Signer, v2: bool, v3: bool, p: SignedApk)
    requires p.Ok() && signer.algId < U32_MOD
    requires Some(p.pairs)
      == signer.Pairs(ContentDigest(signer.alg, Covered(p.entries, p.cd, p.template, p.count)), v2, v3)
    requires Parse(p.Bytes()) == Result.Ok(p.Sections())
    ensures Verifies(signer, v2, v3, p.Bytes())
  {
    hide EocdAt, ContentDigest, Parse, Covered, BlockBytes, FinalEocd, SignerBlock, V2SignedData, V3SignedData, V2Bytes,
      V3Bytes, DecodeV2, DecodeV3, VerifierDigest, Signer.Pairs, V2Attributes, SaysV3;
    AttributesSay(v3);
    var d := ContentDigest(signer.alg, Covered(p.entries, p.cd, p.template, p.count));
    SameDigest(signer.alg, p);
    SignersFound(signer, d, v2, v3, p);
    if v2 {
      V2RoundTrip(signer.Input(d), v3, signer.sign(V2SignedData(signer.Input(d), v3)).value);
    }
    if v3 {
      V3RoundTrip(signer.Input(d), V3_MIN_SDK, V3_MAX_SDK,
          signer.sign(V3SignedData(signer.Input(d), V3_MIN_SDK, V3_MAX_SDK)).value);
    }
  }
}
