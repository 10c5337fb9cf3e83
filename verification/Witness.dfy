/** Inputs that can be signed, and whose signed file does not parse back (src/zip.rs, src/main.rs). */
module Witness {
  import opened Wrappers
  import opened Bytes
  import opened Hashing
  import opened Digest
  import opened Zip
  import opened Sigblock
  import opened Splice
  import opened Signed
  import opened Sign
  import opened Resign

  // --- Keys ------------------------------------------------------------------------------------------

  /** The key signs, and its signing block stays far below 4 GiB. */
  ghost predicate Modest(signer: Signer, opts: Opts) {
    && signer.alg.Valid()
    && forall d: seq<byte> :: |d| <= 64 ==>
         var ps := signer.Pairs(d, opts.v2, opts.v3);
         ps.Some? && |BlockBytes(ps.value)| <= 0x4000_0000
  }

  lemma LpSeqLength(items: seq<seq<byte>>)
    ensures items == [] ==> |LpSeq(items)| == 0
    ensures items != [] ==> |LpSeq(items)| == 4 + |items[0]| + |LpSeq(items[1..])|
  {
  }

  lemma OneLength(x: seq<byte>)
    ensures |LpSeq([x])| == 4 + |x|
  {
    LpSeqLength([x]);
    assert [x][1..] == [];
    LpSeqLength([]);
  }

  /** An algorithm's key that signs everything with the empty signature, for scheme v2. */
  function TinySigner(alg: Algorithm): (signer: Signer) {
    Signer(alg, 0x0103, [], [], (m: seq<byte>) => Some([]))
  }

  lemma PairItemLength(id: nat, v: seq<byte>)
    ensures |LpSeq(PairItems([(id, v)]))| == 12 + |v|
  {
    var items := PairItems([(id, v)]);
    assert items == [IdValue(id, v)];
    OneLength(IdValue(id, v));
  }

  lemma ThreeLengths(a: seq<byte>, b: seq<byte>, c: seq<byte>)
    ensures |LpSeq([a, b, c])| == 12 + |a| + |b| + |c|
  {
    LpSeqLength([a, b, c]);
    assert [a, b, c][1..] == [b, c];
    LpSeqLength([b, c]);
    assert [b, c][1..] == [c];
    OneLength(c);
  }

  lemma FourLengths(a: seq<byte>, b: seq<byte>, c: seq<byte>, d: seq<byte>)
    ensures |LpSeq([a, b, c, d])| == 16 + |a| + |b| + |c| + |d|
  {
    LpSeqLength([a, b, c, d]);
    assert [a, b, c, d][1..] == [b, c, d];
    ThreeLengths(b, c, d);
  }

  lemma TinyV2(alg: Algorithm, d: seq<byte>)
    requires |d| <= 64
    ensures TinySigner(alg).V2(d, false).Some? && |TinySigner(alg).V2(d, false).value| <= 200
  {
    hide LpSeq, PairItems;
    PairItemLength(0x0103, d);
    PairItemLength(0x0103, []);
    LpSeqLength([]);
    FourLengths(LpSeq(PairItems([(0x0103, d)])), LpSeq([]), [], []);
    var inp := TinySigner(alg).Input(d);
    ThreeLengths(V2SignedData(inp, false), LpSeq(PairItems([(0x0103, [])])), []);
  }

  lemma TinyBlock(v: seq<byte>)
    requires |v| <= 200
    ensures |BlockBytes([(V2_BLOCK_ID, SchemeBlock([v]))])| <= 0x4000_0000
  {
    hide LpSeq, BlockBytes;
    OneLength(v);
    OneLength(LpSeq([v]));
    var ps := [(V2_BLOCK_ID, SchemeBlock([v]))];
    assert ps[1..] == [] && |PairsBytes(ps)| == 12 + |SchemeBlock([v])|;
    assert BlockSize(Used(ps)) <= Used(ps) + 2 * PAGE;
  }

  /** There are such keys. */
  lemma TinyIsModest(alg: Algorithm, libPageSize: nat)
    requires alg.Valid()
    ensures Modest(TinySigner(alg), Opts(true, false, Off, libPageSize))
  {
    hide BlockBytes, SchemeBlock, Signer.V2, Signer.V3;
    var signer := TinySigner(alg);
    forall d: seq<byte> | |d| <= 64
      ensures signer.Pairs(d, true, false).Some? && |BlockBytes(signer.Pairs(d, true, false).value)| <= 0x4000_0000
    {
      TinyV2(alg, d);
      TinyBlock(signer.V2(d, false).value);
      var ps := [(V2_BLOCK_ID, SchemeBlock([signer.V2(d, false).value]))];
      assert ps + [] == ps;
    }
  }

  // --- Directories -----------------------------------------------------------------------------------

  /** A record with a name and a comment and nothing else. */
  function Entry(name: seq<byte>, comment: seq<byte>): (r: seq<byte>)
    ensures |r| == 46 + |name| + |comment|
  {
    CD_ENTRY_SIG + Zeros(24) + PutU16(|name|) + PutU16(0) + PutU16(|comment|) + Zeros(12) + name + comment
  }

  lemma EntryIs(name: seq<byte>, comment: seq<byte>)
    requires |name| < U16_MOD && |comment| < U16_MOD
    ensures var r := Entry(name, comment); IsRecord(r) && RecordName(r) == name
  {
    hide LE, ToLE;
    var r := Entry(name, comment);
    assert r[..4] == CD_ENTRY_SIG;
    assert r[28..28 + 2] == PutU16(|name|) && r[30..30 + 2] == PutU16(0) && r[32..32 + 2] == PutU16(|comment|);
    Widths();
    ToLERoundTrip(|name|, 2); ToLERoundTrip(0, 2); ToLERoundTrip(|comment|, 2);
    assert r[46..46 + |name|] == name;
  }

  const NAME: seq<byte> := [0x61]
  const DIRECTORY: seq<byte> := [0x2f]

  lemma Names()
    ensures Policy(NAME) == Output && Policy(DIRECTORY) == Skip
  {
  }

  /** `n` plain records. */
  function Many(n: nat): (rs: seq<seq<byte>>)
    ensures |rs| == n && forall i :: 0 <= i < n ==> rs[i] == Entry(NAME, [])
  {
    seq(n, _ => Entry(NAME, []))
  }

  lemma {:induction false} ManyLength(n: nat)
    ensures |Concat(Many(n))| == 47 * n
  {
    hide Entry;
    if n > 0 {
      ManyLength(n - 1);
      assert Many(n)[1..] == Many(n - 1);
    }
  }

  lemma ManyRecords(n: nat)
    ensures forall i :: 0 <= i < n ==> IsRecord(Many(n)[i]) && Policy(RecordName(Many(n)[i])) == Output
  {
    EntryIs(NAME, []);
    Names();
    hide Entry, Policy, IsRecord, RecordName;
  }

  // --- Files -----------------------------------------------------------------------------------------

  function InputEocd(count: nat, cdLen: nat, comment: seq<byte>): (e: seq<byte>)
    ensures |e| == 22 + |comment| && e[22..] == comment
  {
    EOCD_SIG + Zeros(4) + PutU16(count) + PutU16(count) + PutU32(cdLen) + Zeros(4) + PutU16(|comment|) + comment
  }

  /** A file without entries data: a directory at offset 0 and its EOCD. */
  function InputFile(rs: seq<seq<byte>>, comment: seq<byte>): (f: seq<byte>) {
    Concat(rs) + InputEocd(|rs|, |Concat(rs)|, comment)
  }

  lemma InputFields(count: nat, cdLen: nat, comment: seq<byte>)
    requires cdLen < 0xffff_ffff && |comment| <= 0xffff
    ensures var e := InputEocd(count, cdLen, comment);
      && IsEocd(e) && U16(e, 4) == 0 && U16(e, 6) == 0 && U16(e, 8) == U16(e, 10) == count % U16_MOD
      && U32(e, 12) == cdLen && U32(e, 16) == 0
  {
    hide LE, ToLE;
    var e := InputEocd(count, cdLen, comment);
    ZeroBytes(e[4..6]); ZeroBytes(e[6..8]); ZeroBytes(e[16..20]);
    assert e[8..8 + 2] == PutU16(count) == e[10..10 + 2] && e[..4] == EOCD_SIG;
    assert e[12..12 + 4] == PutU32(cdLen) && e[20..20 + 2] == PutU16(|comment|);
    Widths();
    ToLERoundTrip(count, 2); ToLERoundTrip(cdLen, 4); ToLERoundTrip(|comment|, 2);
  }

  /** The comment is at most ten zero bytes, and no count or size byte is a `P`: there is no decoy. */
  ghost predicate Plain(count: nat, cdLen: nat, comment: seq<byte>) {
    && |comment| <= 10 && comment == Zeros(|comment|)
    && 0x50 !in PutU16(count) && 0x50 !in PutU32(cdLen)
  }

  lemma InputEocdIsLast(count: nat, cdLen: nat, comment: seq<byte>)
    requires cdLen < 0xffff_ffff && Plain(count, cdLen, comment)
    ensures EocdOk(InputEocd(count, cdLen, comment))
  {
    var e := InputEocd(count, cdLen, comment);
    InputFields(count, cdLen, comment);
    hide LE, ToLE, IsEocd;
    assert e[0..] == e;
    assert forall j :: 0 < j < 4 || 12 <= j < 16 || 8 <= j < 12 || j in {4, 5, 6, 7} ==> e[j] != 0x50;
    forall j | 0 < j <= |e| ensures !IsEocd(e[j..]) {
      SuffixIsEocd(e, j);
      if |e| - j >= EOCD_MIN_LEN { SigBytes(e, j); }
    }
  }

  function InputSections(rs: seq<seq<byte>>, comment: seq<byte>): (s: Sections) {
    var n := |Concat(rs)|;
    Sections(|InputFile(rs, comment)|, 0, None, 0, n, n, InputEocd(|rs|, n, comment))
  }

  lemma InputParses(rs: seq<seq<byte>>, comment: seq<byte>)
    requires 47 <= |Concat(rs)| < 0xffff_ffff && Plain(|rs|, |Concat(rs)|, comment) && |rs| % U16_MOD != 0xffff
    requires var cd := Concat(rs); cd[|cd| - 20..|cd| - 16] != ZIP64_LOCATOR_SIG
    ensures Parse(InputFile(rs, comment)) == Ok(InputSections(rs, comment))
  {
    hide Concat, InputEocd, IsEocd, EocdAt, Parse, CheckEocd, FindSigBlock, LE;
    var (f, cd) := (InputFile(rs, comment), Concat(rs));
    var e := InputEocd(|rs|, |cd|, comment);
    InputFields(|rs|, |cd|, comment);
    InputEocdIsLast(|rs|, |cd|, comment);
    assert f[|cd|..] == e;
    EocdInTail(f, |cd|, |cd|);
    ParseAt(f, |cd|);
    InputChecked(f, cd, e);
  }

  lemma InputChecked(f: seq<byte>, cd: seq<byte>, e: seq<byte>)
    requires f == cd + e && |cd| >= 47 && IsEocd(e) && TailLen(f) >= |e| && f[|cd|..] == e
    requires U16(e, 4) == 0 && U16(e, 6) == 0 && U16(e, 8) == U16(e, 10) != 0xffff
    requires U32(e, 12) == |cd| < 0xffff_ffff && U32(e, 16) == 0
    requires cd[|cd| - 20..|cd| - 16] != ZIP64_LOCATOR_SIG
    ensures IsEocd(f[|cd|..])
    ensures CheckEocd(f, |cd| - (|f| - TailLen(f)), TailLen(f)) == Ok(Sections(|f|, 0, None, 0, |cd|, |cd|, e))
  {
    hide IsEocd, LE;
    assert f[|cd| - 20..|cd| - 16] == cd[|cd| - 20..|cd| - 16];
    assert f[|f| - TailLen(f) + (|cd| - (|f| - TailLen(f)))..] == e;
  }

  // --- Runs ------------------------------------------------------------------------------------------

  /** What a run without alignment check signs. */
  function InputContent(rs: seq<seq<byte>>): (c: Content)
    requires forall i :: 0 <= i < |rs| ==> IsRecord(rs[i])
  {
    Content([], Concat(Kept(rs)), |Kept(rs)|)
  }

  /** The run succeeds, and its output does not parse back to what was written. */
  ghost predicate FailsToParseBack(f: seq<byte>, opts: Opts, signer: Signer, s: Sections, rs: seq<seq<byte>>,
                                   c: Content) {
    && Signable(f, opts, signer, s, rs, false, c)
    && signer.Pairs(DigestOf(signer, c, s.eocd), opts.v2, opts.v3).Some?
    && var p := ApkOf(signer, opts.v2, opts.v3, c, s.eocd);
    && Ran(f, opts, signer, s, rs, false, c, p.Bytes())
    && Parse(p.Bytes()) != Ok(p.Sections())
  }

  lemma DigestFits(signer: Signer, c: Content, template: seq<byte>)
    requires signer.alg.Valid() && |template| >= EOCD_MIN_LEN
    ensures |DigestOf(signer, c, template)| <= 64
  {
    hide Covered, AllChunks, ChunkDigests;
  }

  /** In mode Off a modest key signs any such file; when its content does not meet the conditions, the
      output does not parse back. */
  lemma InputSigns(rs: seq<seq<byte>>, comment: seq<byte>, opts: Opts, signer: Signer)
    requires Modest(signer, opts) && opts.mode == Off && AllRecords(rs)
    requires 47 <= |Concat(rs)| < 0x1000_0000 && Plain(|rs|, |Concat(rs)|, comment) && |rs| % U16_MOD != 0xffff
    requires var cd := Concat(rs); cd[|cd| - 20..|cd| - 16] != ZIP64_LOCATOR_SIG
    requires var c := InputContent(rs);
      var e := InputEocd(|rs|, |Concat(rs)|, comment);
      || c.count % U16_MOD == 0xffff || LocatorAtEnd(c.cd, e)
      || forall cdOff: nat :: !EocdAt(FinalEocd(e, |c.cd|, c.count, cdOff), 0)
    ensures FailsToParseBack(InputFile(rs, comment), opts, signer, InputSections(rs, comment), rs, InputContent(rs))
  {
    hide Concat, InputEocd, IsRecord, Kept, Parse, EocdAt, BlockBytes, FinalEocd, LocatorAtEnd, ContentDigest, Covered,
      Signer.Pairs, SignedApk.Bytes, SignedApk.Sections;
    InputParses(rs, comment);
    var (f, s, c) := (InputFile(rs, comment), InputSections(rs, comment), InputContent(rs));
    InputSettled(rs, comment, opts);
    DigestFits(signer, c, s.eocd);
    var ps := signer.Pairs(DigestOf(signer, c, s.eocd), opts.v2, opts.v3);
    assert ps.Some? && |BlockBytes(ps.value)| <= 0x4000_0000;
    SignedFileIs(signer, opts.v2, opts.v3, c.entries, c.cd, s.eocd, c.count, ps);
    SignedIsApk(signer, opts.v2, opts.v3, c, s.eocd);
    hide SignedFile;
    var p := ApkOf(signer, opts.v2, opts.v3, c, s.eocd);
    assert Ran(f, opts, signer, s, rs, false, c, p.Bytes());
    RanApk(f, opts, signer, s, rs, false, c, p.Bytes());
    ReparseIff(p);
  }

  lemma InputSettled(rs: seq<seq<byte>>, comment: seq<byte>, opts: Opts)
    requires opts.mode == Off && AllRecords(rs) && Parse(InputFile(rs, comment)) == Ok(InputSections(rs, comment))
    ensures Settled(InputFile(rs, comment), InputSections(rs, comment), rs, opts, false, InputContent(rs))
    ensures CanDecide(InputFile(rs, comment), InputSections(rs, comment), Kept(rs), opts)
  {
    hide Concat, InputEocd, IsRecord, Kept, Parse, IsEocd;
    var f := InputFile(rs, comment);
    assert f[0..|Concat(rs)|] == Concat(rs) && f[..0] == [];
  }

  // --- The three ways to fail ------------------------------------------------------------------------

  /** Kept records, then a directory entry, which is dropped. */
  function WithDropped(ks: seq<seq<byte>>): (rs: seq<seq<byte>>) {
    ks + [Entry(DIRECTORY, [])]
  }

  lemma DroppedLast(ks: seq<seq<byte>>)
    requires forall i :: 0 <= i < |ks| ==> IsRecord(ks[i]) && Policy(RecordName(ks[i])) == Output
    ensures var (rs, n) := (WithDropped(ks), |Concat(ks)|);
      && AllRecords(rs) && Kept(rs) == ks && |rs| == |ks| + 1
      && |Concat(rs)| == n + 47 && Concat(rs)[n + 27..n + 31] != ZIP64_LOCATOR_SIG
  {
    var d := Entry(DIRECTORY, []);
    EntryIs(DIRECTORY, []);
    Names();
    assert d[27] == 0;
    hide IsRecord, Policy, RecordName, Entry, Concat, Kept, RemovedNames;
    KeptAll(ks);
    KeptSnoc(ks, d);
    ConcatSnoc(ks, d);
    NoLocator(Concat(ks), d);
  }

  lemma NoLocator(x: seq<byte>, d: seq<byte>)
    requires |d| == 47 && d[27] == 0
    ensures (x + d)[|x| + 27..|x| + 31] != ZIP64_LOCATOR_SIG
  {
    assert (x + d)[|x| + 27..|x| + 31][0] == d[27];
  }

  /** The counts and sizes of the three directories. */
  lemma NoneIsP()
    ensures Plain(0x1_0000, 3080192, []) && Plain(2, 114, []) && Plain(19281, 919092, Zeros(10))
  {
    hide PutU16, PutU32;
    SpelledU16(0x1_0000, 0, 0); SpelledU32(3080192, 0, 0, 0x2f, 0);
    SpelledU16(2, 2, 0); SpelledU32(114, 114, 0, 0, 0);
    SpelledU16(19281, 0x51, 0x4b); SpelledU32(919092, 0x34, 0x06, 0x0e, 0);
    assert [] == Zeros(0);
  }

  lemma SpelledU16(x: nat, a: byte, b: byte)
    requires x % U16_MOD == a + 0x100 * b
    ensures PutU16(x) == [a, b]
  {
    FirstBytes(x, 2);
    hide ToLE;
  }

  lemma SpelledU32(x: nat, a: byte, b: byte, c: byte, d: byte)
    requires x == a + 0x100 * b + 0x1_0000 * c + 0x100_0000 * d
    ensures PutU32(x) == [a, b, c, d]
  {
    var y := x / 256 / 256;
    assert y == c + 0x100 * d;
    assert ToLE(x, 4) == [x % 256] + ToLE(x / 256, 3) && ToLE(x / 256, 3) == [x / 256 % 256] + ToLE(y, 2);
    FirstBytes(y, 2);
    hide ToLE;
    assert x % 256 == a && x / 256 % 256 == b && y % 256 == c && y / 256 == d;
  }

  /** Signing `ks` and a dropped entry fails to parse back. */
  ghost predicate Fails(ks: seq<seq<byte>>, comment: seq<byte>, opts: Opts, signer: Signer) {
    var rs := WithDropped(ks);
    && AllRecords(rs)
    && FailsToParseBack(InputFile(rs, comment), opts, signer, InputSections(rs, comment), rs, InputContent(rs))
  }

  /** For the signed file to fail one of the conditions is enough. */
  lemma FailsWhen(ks: seq<seq<byte>>, comment: seq<byte>, opts: Opts, signer: Signer)
    requires Modest(signer, opts) && opts.mode == Off
    requires forall i :: 0 <= i < |ks| ==> IsRecord(ks[i]) && Policy(RecordName(ks[i])) == Output
    requires var (count, n) := (|ks|, |Concat(ks)|);
      var e := InputEocd(count + 1, n + 47, comment);
      && n < 0x800_0000 && Plain(count + 1, n + 47, comment) && (count + 1) % U16_MOD != 0xffff
      && (|| count % U16_MOD == 0xffff || LocatorAtEnd(Concat(ks), e)
          || forall cdOff: nat :: !EocdAt(FinalEocd(e, n, count, cdOff), 0))
    ensures Fails(ks, comment, opts, signer)
  {
    hide IsRecord, Policy, RecordName, EocdAt, LocatorAtEnd, InputFile, InputSections, FailsToParseBack, Modest, Plain,
      WithDropped, Concat, Kept, FinalEocd, InputEocd;
    DroppedLast(ks);
    InputSigns(WithDropped(ks), comment, opts, signer);
  }

  /** 65536 entries of which one is dropped: 65535 fit the 16-bit count, and `parse` then takes the
      signed file for a Zip64 archive. */
  lemma CountMarkFails(opts: Opts, signer: Signer)
    requires Modest(signer, opts) && opts.mode == Off
    ensures Fails(Many(0xffff), [], opts, signer)
  {
    hide Many, IsRecord, Policy, RecordName, EocdAt, Modest, Fails, Concat, Plain, InputEocd, FinalEocd, LocatorAtEnd;
    ManyLength(0xffff);
    ManyRecords(0xffff);
    NoneIsP();
    FailsWhen(Many(0xffff), [], opts, signer);
  }

  /** A kept record whose comment looks like a Zip64 locator: in the input the dropped entry stands
      between it and the EOCD, in the output nothing does. */
  lemma LocatorFails(opts: Opts, signer: Signer)
    requires Modest(signer, opts) && opts.mode == Off
    ensures Fails([Entry(NAME, ZIP64_LOCATOR_SIG + Zeros(16))], [], opts, signer)
  {
    hide Entry, IsRecord, Policy, RecordName, EocdAt, Modest, Fails, Plain, InputEocd, FinalEocd;
    var comment := ZIP64_LOCATOR_SIG + Zeros(16);
    EntryIs(NAME, comment);
    EntryEnd(NAME, comment);
    Names();
    NoneIsP();
    var ks := [Entry(NAME, comment)];
    assert ks[1..] == [] && Concat(ks) == ks[0];
    hide Concat;
    FailsWhen(ks, [], opts, signer);
  }

  lemma EntryEnd(name: seq<byte>, comment: seq<byte>)
    requires |comment| == 20
    ensures var r := Entry(name, comment); r[|r| - 20..|r| - 16] == comment[..4]
  {
    var r := Entry(name, comment);
    assert r[|r| - 20..] == comment;
    assert r[|r| - 20..|r| - 16] == r[|r| - 20..][..4];
  }

  /** 19280 kept entries in 919045 bytes: the patched count and size spell an EOCD signature, and a
      comment of ten zero bytes makes it a whole record. */
  function DecoyRecords(): (rs: seq<seq<byte>>) {
    [Entry(NAME, Zeros(12885))] + Many(19279)
  }

  lemma DecoyFails(opts: Opts, signer: Signer)
    requires Modest(signer, opts) && opts.mode == Off
    ensures Fails(DecoyRecords(), Zeros(10), opts, signer)
  {
    var ks := DecoyRecords();
    DecoyDirectory();
    NoneIsP();
    hide DecoyRecords, IsRecord, Policy, RecordName, EocdAt, Modest, Fails, Concat, Plain, LocatorAtEnd, FinalEocd,
      InputEocd;
    var e := InputEocd(19281, 919092, Zeros(10));
    forall cdOff: nat ensures !EocdAt(FinalEocd(e, 919045, 19280, cdOff), 0) {
      DecoyRecord(e, cdOff);
    }
    FailsWhen(ks, Zeros(10), opts, signer);
  }

  lemma DecoyDirectory()
    ensures var ks := DecoyRecords();
      && |ks| == 19280 && |Concat(ks)| == 919045
      && forall i :: 0 <= i < |ks| ==> IsRecord(ks[i]) && Policy(RecordName(ks[i])) == Output
  {
    hide Entry, IsRecord, Policy, RecordName;
    var ks := DecoyRecords();
    EntryIs(NAME, Zeros(12885));
    Names();
    ManyRecords(19279);
    ManyLength(19279);
    assert ks[1..] == Many(19279);
  }

  lemma DecoyRecord(e: seq<byte>, cdOff: nat)
    requires |e| == 32 && (forall i :: 22 <= i < 32 ==> e[i] == 0)
    ensures !EocdAt(FinalEocd(e, 919045, 19280, cdOff), 0)
  {
    var x := FinalEocd(e, 919045, 19280, cdOff);
    PatchedBytes(e, 919045, 19280, cdOff);
    OutsidePatch(e, 919045, 19280, cdOff);
    hide FinalEocd;
    SuffixIsEocd(x, 10);
    SigBytes(x, 10);
    SlicesAgree(x, e, 30, 2);
    ZeroBytes(e[30..32]);
    assert IsEocd(x[10..]);
  }
}
