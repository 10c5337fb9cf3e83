/** src/zip.rs: finding the End of Central Directory, the Central Directory and the APK Signing
    Block; parsing and filtering the directory. */
module Zip {
  import opened Wrappers
  import opened Bytes

  datatype ZipError =
    | TooSmall | NoEocd | MultiDisk | Zip64 | Zip64Locator | NotFollowedByEocd
    | MalformedEntry(at: nat) | EntryOverruns(at: nat)

  function Ascii(s: string): (r: seq<byte>)
    requires forall i :: 0 <= i < |s| ==> s[i] as int < 256
    ensures |r| == |s|
  {
    seq(|s|, i requires 0 <= i < |s| => s[i] as int)
  }

  const EOCD_SIG: seq<byte> := [0x50, 0x4b, 0x05, 0x06]
  const ZIP64_LOCATOR_SIG: seq<byte> := [0x50, 0x4b, 0x06, 0x07]
  const CD_ENTRY_SIG: seq<byte> := [0x50, 0x4b, 0x01, 0x02]
  const LFH_SIG: seq<byte> := [0x50, 0x4b, 0x03, 0x04]
  const LFH_LEN: nat := 30
  const SIG_BLOCK_MAGIC: seq<byte> := Ascii("APK Sig Block 42")
  const EOCD_MIN_LEN: nat := 22
  const MAX_COMMENT_LEN: nat := 0xffff

  // --- End of Central Directory ----------------------------------------------------------------

  /** `s` is a whole EOCD record: signature, and a comment that ends where `s` ends. */
  predicate IsEocd(s: seq<byte>) {
    |s| >= EOCD_MIN_LEN && s[..4] == EOCD_SIG && U16(s, 20) == |s| - EOCD_MIN_LEN
  }

  /** The EOCD of a file is its shortest suffix that is one. */
  ghost predicate EocdAt(f: seq<byte>, i: nat) {
    && i <= |f| && IsEocd(f[i..])
    && forall j :: i < j <= |f| ==> !IsEocd(f[j..])
  }

  ghost predicate NoEocdIn(f: seq<byte>) {
    forall j :: 0 <= j <= |f| ==> !IsEocd(f[j..])
  }

  lemma EocdUnique(f: seq<byte>, i: nat, j: nat)
    requires EocdAt(f, i) && EocdAt(f, j)
    ensures i == j
  {
  }

  /** `find_eocd`: scans comment lengths upwards, and gives the last record in the tail. */
  method FindEocd(tail: seq<byte>) returns (r: Option<nat>)
    ensures r.Some? ==> EocdAt(tail, r.value)
    ensures r.None? ==> NoEocdIn(tail)
  {
    if |tail| < EOCD_MIN_LEN {
      return None;
    }
    var maxComment := if |tail| - EOCD_MIN_LEN < MAX_COMMENT_LEN then |tail| - EOCD_MIN_LEN else MAX_COMMENT_LEN;
    var commentLen := 0;
    while commentLen <= maxComment
      invariant commentLen <= maxComment + 1
      invariant forall j :: |tail| - EOCD_MIN_LEN - commentLen < j <= |tail| ==> !IsEocd(tail[j..])
    {
      var i := |tail| - EOCD_MIN_LEN - commentLen;
      assert tail[i..][..4] == tail[i..i + 4] && tail[i..][20..22] == tail[i + 20..i + 22];
      if tail[i..i + 4] == EOCD_SIG && U16(tail, i + 20) == commentLen {
        return Some(i);
      }
      commentLen := commentLen + 1;
    }
    return None;
  }

  /** The record is found in any tail of the file that holds it, at the same place. */
  lemma EocdInTail(f: seq<byte>, cut: nat, i: nat)
    requires cut <= i <= |f|
    ensures EocdAt(f, i) <==> EocdAt(f[cut..], i - cut)
  {
    assert forall j :: cut <= j <= |f| ==> f[cut..][j - cut..] == f[j..];
    if EocdAt(f[cut..], i - cut) {
      forall j | i < j <= |f| ensures !IsEocd(f[j..]) {
        assert f[cut..][j - cut..] == f[j..];
      }
    }
  }

  /** The value `find_eocd` finds, for use in specifications. */
  function LastEocd(f: seq<byte>, j: nat): (r: Option<nat>)
    requires j <= |f|
    decreases j
  {
    if IsEocd(f[j..]) then Some(j) else if j == 0 then None else LastEocd(f, j - 1)
  }

  lemma {:induction false} LastEocdIsEocdAt(f: seq<byte>, j: nat)
    requires j <= |f| && forall k :: j < k <= |f| ==> !IsEocd(f[k..])
    ensures LastEocd(f, j).Some? ==> EocdAt(f, LastEocd(f, j).value)
    ensures LastEocd(f, j).None? ==> NoEocdIn(f)
    decreases j
  {
    if !IsEocd(f[j..]) && j > 0 {
      LastEocdIsEocdAt(f, j - 1);
    }
  }

  // --- parse -----------------------------------------------------------------------------------

  datatype Sections = Sections(
    fileLen: nat, entriesEnd: nat, sigBlock: Option<(nat, nat)>,
    cdOff: nat, cdSize: nat, eocdOff: nat, eocd: seq<byte>)

  /** The existing APK Signing Block before the Central Directory: (start, total length). */
  function FindSigBlock(f: seq<byte>, cdOff: nat): (r: Option<(nat, nat)>)
    requires cdOff <= |f|
    ensures r.Some? ==> r.value.0 + r.value.1 == cdOff && r.value.1 >= 32
  {
    if cdOff < 32 || f[cdOff - 16..cdOff] != SIG_BLOCK_MAGIC then None
    else
      var size := U64(f, cdOff - 24);
      if size < 24 || size + 8 > cdOff then None
      else
        var start := cdOff - size - 8;
        if U64(f, start) == size then Some((start, size + 8)) else None
  }

  /** Sections that lie where they say in the file. */
  predicate SectionsOk(s: Sections, f: seq<byte>) {
    && s.fileLen == |f| && s.entriesEnd <= s.cdOff && s.cdOff + s.cdSize == s.eocdOff <= |f|
    && IsEocd(s.eocd) && f[s.eocdOff..] == s.eocd
  }

  function CheckEocd(f: seq<byte>, rel: nat, tailLen: nat): (r: Result<Sections, ZipError>)
    requires tailLen <= |f| && rel <= tailLen && IsEocd(f[|f| - tailLen + rel..])
    ensures r.Ok? ==> SectionsOk(r.value, f)
  {
    var eocdOff := |f| - tailLen + rel;
    var eocd := f[eocdOff..];
    var total := U16(eocd, 10);
    var (cdSize, cdOff) := (U32(eocd, 12), U32(eocd, 16));
    if U16(eocd, 4) != 0 || U16(eocd, 6) != 0 || U16(eocd, 8) != total then Err(MultiDisk)
    else if total == 0xffff || cdSize == 0xffff_ffff || cdOff == 0xffff_ffff then Err(Zip64)
    else if rel >= 20 && f[eocdOff - 20..eocdOff - 16] == ZIP64_LOCATOR_SIG then Err(Zip64Locator)
    else if cdOff + cdSize != eocdOff then Err(NotFollowedByEocd)
    else
      var sb := FindSigBlock(f, cdOff);
      Ok(Sections(|f|, if sb.Some? then sb.value.0 else cdOff, sb, cdOff, cdSize, eocdOff, eocd))
  }

  function Parse(f: seq<byte>): (r: Result<Sections, ZipError>)
    ensures r.Ok? ==> SectionsOk(r.value, f)
  {
    if |f| < EOCD_MIN_LEN then Err(TooSmall)
    else
      var tailLen := if |f| < EOCD_MIN_LEN + MAX_COMMENT_LEN then |f| else EOCD_MIN_LEN + MAX_COMMENT_LEN;
      var tail := f[|f| - tailLen..];
      match LastEocd(tail, |tail|)
      case None => Err(NoEocd)
      case Some(rel) =>
        EocdOfTail(f, tail, tailLen, rel);
        CheckEocd(f, rel, tailLen)
  }

  lemma EocdOfTail(f: seq<byte>, tail: seq<byte>, tailLen: nat, rel: nat)
    requires tailLen <= |f| && tail == f[|f| - tailLen..] && LastEocd(tail, |tail|) == Some(rel)
    ensures rel <= tailLen && IsEocd(f[|f| - tailLen + rel..])
  {
    LastEocdIsEocdAt(tail, |tail|);
    assert tail[rel..] == f[|f| - tailLen + rel..];
  }

  /** `parse` over the bytes of a file, with `find_eocd` run on its tail. */
  method ParseFile(f: seq<byte>) returns (r: Result<Sections, ZipError>)
    ensures r == Parse(f)
  {
    if |f| < EOCD_MIN_LEN {
      return Err(TooSmall);
    }
    var tailLen := if |f| < EOCD_MIN_LEN + MAX_COMMENT_LEN then |f| else EOCD_MIN_LEN + MAX_COMMENT_LEN;
    var tail := f[|f| - tailLen..];
    var rel := FindEocd(tail);
    FoundIsLast(tail, rel);
    if rel.None? {
      return Err(NoEocd);
    }
    EocdOfTail(f, tail, tailLen, rel.value);
    r := CheckEocd(f, rel.value, tailLen);
  }

  lemma FoundIsLast(tail: seq<byte>, r: Option<nat>)
    requires r.Some? ==> EocdAt(tail, r.value)
    requires r.None? ==> NoEocdIn(tail)
    ensures r == LastEocd(tail, |tail|)
  {
    LastEocdIsEocdAt(tail, |tail|);
    if r.Some? && LastEocd(tail, |tail|).Some? {
      EocdUnique(tail, r.value, LastEocd(tail, |tail|).value);
    }
  }

  lemma SuffixIsEocd(s: seq<byte>, j: nat)
    requires j <= |s|
    ensures IsEocd(s[j..]) <==>
      |s| - j >= EOCD_MIN_LEN && s[j..j + 4] == EOCD_SIG && U16(s, j + 20) == |s| - j - EOCD_MIN_LEN
  {
    if |s| - j >= EOCD_MIN_LEN {
      assert s[j..][..4] == s[j..j + 4] && s[j..][20..22] == s[j + 20..j + 22];
    }
  }

  /** An EOCD as `parse` accepts it. */
  ghost predicate EocdOk(e: seq<byte>) {
    |e| >= EOCD_MIN_LEN && EocdAt(e, 0) && U16(e, 4) == 0 && U16(e, 6) == 0
  }

  lemma ParsedEocdOk(f: seq<byte>)
    requires Parse(f).Ok?
    ensures EocdOk(Parse(f).value.eocd) && EocdAt(f, Parse(f).value.eocdOff) && Parse(f).value.cdSize < 0xffff_ffff
  {
    hide FindSigBlock;
    var tailLen := if |f| < EOCD_MIN_LEN + MAX_COMMENT_LEN then |f| else EOCD_MIN_LEN + MAX_COMMENT_LEN;
    var cut := |f| - tailLen;
    var tail := f[cut..];
    LastEocdIsEocdAt(tail, |tail|);
    var rel := LastEocd(tail, |tail|).value;
    EocdInTail(f, cut, cut + rel);
    EocdInTail(f, cut + rel, cut + rel);
  }

  function TailLen(f: seq<byte>): (r: nat) {
    if |f| < EOCD_MIN_LEN + MAX_COMMENT_LEN then |f| else EOCD_MIN_LEN + MAX_COMMENT_LEN
  }

  /** The bytes `parse` takes for a Zip64 locator stand before the EOCD. */
  predicate LocatorSeen(f: seq<byte>, eocdOff: nat)
    requires eocdOff <= |f|
  {
    var rel := eocdOff - (|f| - TailLen(f));
    rel >= 20 && f[eocdOff - 20..eocdOff - 16] == ZIP64_LOCATOR_SIG
  }

  /** `parse` takes the EOCD at `at` exactly when it is the last one. */
  lemma ParseAt(f: seq<byte>, at: nat)
    requires at + EOCD_MIN_LEN <= |f| && |f| - at <= EOCD_MIN_LEN + MAX_COMMENT_LEN
    ensures EocdAt(f, at) ==>
      TailLen(f) >= |f| - at && IsEocd(f[at..]) && Parse(f) == CheckEocd(f, at - (|f| - TailLen(f)), TailLen(f))
    ensures Parse(f).Ok? && Parse(f).value.eocdOff == at ==> EocdAt(f, at)
  {
    hide CheckEocd, IsEocd;
    var cut := |f| - TailLen(f);
    var tail := f[cut..];
    LastEocdIsEocdAt(tail, |tail|);
    if EocdAt(f, at) {
      EocdInTail(f, cut, at);
      EocdUnique(tail, at - cut, LastEocd(tail, |tail|).value);
    }
    if Parse(f).Ok? {
      ParsedEocdOk(f);
    }
  }

  // --- EOCD patches ----------------------------------------------------------------------------

  function Patched(b: seq<byte>, off: nat, v: seq<byte>): (r: seq<byte>)
    requires off + |v| <= |b|
    ensures |r| == |b| && r[off..off + |v|] == v
    ensures r[..off] == b[..off] && r[off + |v|..] == b[off + |v|..]
  {
    b[..off] + v + b[off + |v|..]
  }

  function SetCdOffset(eocd: seq<byte>, off: nat): (r: seq<byte>)
    requires |eocd| >= EOCD_MIN_LEN
    ensures |r| == |eocd|
  { Patched(eocd, 16, PutU32(off)) }

  function SetCdSize(eocd: seq<byte>, size: nat): (r: seq<byte>)
    requires |eocd| >= EOCD_MIN_LEN
    ensures |r| == |eocd|
  { Patched(eocd, 12, PutU32(size)) }

  function SetEntryCount(eocd: seq<byte>, n: nat): (r: seq<byte>)
    requires |eocd| >= EOCD_MIN_LEN
    ensures |r| == |eocd|
  { Patched(Patched(eocd, 8, PutU16(n)), 10, PutU16(n)) }

  // --- Central Directory -----------------------------------------------------------------------

  datatype CdEntry = CdEntry(
    recordStart: nat, recordEnd: nat, nameStart: nat, nameEnd: nat,
    lfhOff: nat, compression: nat, flags: nat, compressedSize: nat)

  /** A Central Directory file header of PKWARE APPNOTE section 4.3.12, to its last byte. */
  predicate IsRecord(r: seq<byte>) {
    |r| >= 46 && r[..4] == CD_ENTRY_SIG && |r| == 46 + U16(r, 28) + U16(r, 30) + U16(r, 32)
  }

  function RecordName(r: seq<byte>): (v: seq<byte>)
    requires IsRecord(r)
  {
    r[46..46 + U16(r, 28)]
  }

  /** What `parse_cd_entries` notes about the record `r` that starts at offset `p`. */
  function EntryOf(r: seq<byte>, p: nat): (v: CdEntry)
    requires IsRecord(r)
  {
    CdEntry(p, p + |r|, p + 46, p + 46 + U16(r, 28), U32(r, 42), U16(r, 10), U16(r, 8), U32(r, 20))
  }

  function Concat(rs: seq<seq<byte>>): (r: seq<byte>) {
    if rs == [] then [] else rs[0] + Concat(rs[1..])
  }

  ghost predicate AllRecords(rs: seq<seq<byte>>) {
    forall i :: 0 <= i < |rs| ==> IsRecord(rs[i])
  }

  function EntriesOf(rs: seq<seq<byte>>, p: nat): (es: seq<CdEntry>)
    requires forall i :: 0 <= i < |rs| ==> IsRecord(rs[i])
    ensures |es| == |rs|
  {
    if rs == [] then [] else [EntryOf(rs[0], p)] + EntriesOf(rs[1..], p + |rs[0]|)
  }

  lemma {:induction false} ConcatSnoc(rs: seq<seq<byte>>, r: seq<byte>)
    ensures Concat(rs + [r]) == Concat(rs) + r
  {
    if rs == [] {
      assert rs + [r] == [r] && Concat([r]) == r + Concat([r][1..]);
    } else {
      ConcatSnoc(rs[1..], r);
      assert (rs + [r])[1..] == rs[1..] + [r];
    }
  }

  lemma {:induction false} EntriesSnoc(rs: seq<seq<byte>>, r: seq<byte>, p: nat)
    requires AllRecords(rs) && IsRecord(r)
    ensures AllRecords(rs + [r])
    ensures EntriesOf(rs + [r], p) == EntriesOf(rs, p) + [EntryOf(r, p + |Concat(rs)|)]
  {
    hide IsRecord, EntryOf;
    var all := rs + [r];
    if rs == [] {
      assert all[1..] == [] && Concat(rs) == [];
      assert EntriesOf(all, p) == [EntryOf(r, p)] + EntriesOf(all[1..], p + |r|);
    } else {
      var q := p + |rs[0]|;
      EntriesSnoc(rs[1..], r, q);
      assert all[1..] == rs[1..] + [r];
      assert |Concat(rs)| == |rs[0]| + |Concat(rs[1..])|;
      assert EntriesOf(all, p) == [EntryOf(rs[0], p)] + EntriesOf(all[1..], q);
    }
  }

  /** Two record lists with the same bytes are the same: the records tile the directory. */
  lemma {:induction false} RecordsUnique(xs: seq<seq<byte>>, ys: seq<seq<byte>>)
    requires AllRecords(xs) && AllRecords(ys) && Concat(xs) == Concat(ys)
    ensures xs == ys
  {
    if xs == [] {
      ConcatNonempty(ys);
    } else {
      ConcatNonempty(xs);
      if ys != [] {
        SameFirst(xs[0], ys[0], Concat(xs));
        assert Concat(xs)[|xs[0]|..] == Concat(xs[1..]) && Concat(ys)[|ys[0]|..] == Concat(ys[1..]);
        RecordsUnique(xs[1..], ys[1..]);
      }
    }
  }

  lemma ConcatNonempty(rs: seq<seq<byte>>)
    requires AllRecords(rs)
    ensures rs != [] ==> |Concat(rs)| >= |rs[0]| >= 46
  {
  }

  lemma SameFirst(x: seq<byte>, y: seq<byte>, whole: seq<byte>)
    requires IsRecord(x) && IsRecord(y) && x <= whole && y <= whole
    ensures x == y
  {
    assert x[28..30] == whole[28..30] == y[28..30];
    assert x[30..32] == whole[30..32] == y[30..32];
    assert x[32..34] == whole[32..34] == y[32..34];
    assert x == whole[..|x|] && y == whole[..|y|];
  }

  /** The record that starts at `p`, if there is a whole one. */
  predicate RecordAt(cd: seq<byte>, p: nat) {
    p + 46 <= |cd| && cd[p..p + 4] == CD_ENTRY_SIG
    && p + 46 + U16(cd, p + 28) + U16(cd, p + 30) + U16(cd, p + 32) <= |cd|
  }

  lemma RecordAtIs(cd: seq<byte>, p: nat)
    requires RecordAt(cd, p)
    ensures var total := 46 + U16(cd, p + 28) + U16(cd, p + 30) + U16(cd, p + 32);
      && IsRecord(cd[p..p + total])
      && EntryOf(cd[p..p + total], p)
         == CdEntry(p, p + total, p + 46, p + 46 + U16(cd, p + 28), U32(cd, p + 42), U16(cd, p + 10), U16(cd, p + 8),
             U32(cd, p + 20))
  {
    var total := 46 + U16(cd, p + 28) + U16(cd, p + 30) + U16(cd, p + 32);
    var r := cd[p..p + total];
    SubSlice(cd, p, total, 0, 4); SubSlice(cd, p, total, 8, 10); SubSlice(cd, p, total, 10, 12);
    SubSlice(cd, p, total, 20, 24); SubSlice(cd, p, total, 28, 30); SubSlice(cd, p, total, 30, 32);
    SubSlice(cd, p, total, 32, 34); SubSlice(cd, p, total, 42, 46);
    assert r[..4] == r[0..4];
  }

  /** `parse_cd_entries`: succeeds exactly on a sequence of whole records, and describes each. The
      error names the first offset at which no whole record starts. */
  method ParseCdEntries(cd: seq<byte>) returns (r: Result<seq<CdEntry>, ZipError>, ghost rs: seq<seq<byte>>)
    ensures forall rs' :: AllRecords(rs') && Concat(rs') == cd ==> r == Ok(EntriesOf(rs', 0))
    ensures AllRecords(rs)
    ensures r.Ok? ==> Concat(rs) == cd && r.value == EntriesOf(rs, 0)
    ensures r.Err? ==>
      && (r.error.MalformedEntry? || r.error.EntryOverruns?)
      && Concat(rs) <= cd && r.error.at == |Concat(rs)| < |cd| && !RecordAt(cd, r.error.at)
  {
    hide IsRecord, EntryOf;
    var out := [];
    rs := [];
    var p := 0;
    while p < |cd|
      invariant p <= |cd| && AllRecords(rs) && Concat(rs) == cd[..p] && out == EntriesOf(rs, 0)
      decreases |cd| - p
    {
      if p + 46 > |cd| || cd[p..p + 4] != CD_ENTRY_SIG {
        NoTiling(cd, rs);
        return Err(MalformedEntry(p)), rs;
      }
      var nameLen := U16(cd, p + 28);
      var extraLen := U16(cd, p + 30);
      var commentLen := U16(cd, p + 32);
      var total := 46 + nameLen + extraLen + commentLen;
      if p + total > |cd| {
        NoTiling(cd, rs);
        return Err(EntryOverruns(p)), rs;
      }
      RecordAtIs(cd, p);
      EntriesSnoc(rs, cd[p..p + total], 0);
      ConcatSnoc(rs, cd[p..p + total]);
      out := out + [CdEntry(p, p + total, p + 46, p + 46 + nameLen, U32(cd, p + 42), U16(cd, p + 10), U16(cd, p + 8),
          U32(cd, p + 20))];
      rs := rs + [cd[p..p + total]];
      p := p + total;
    }
    assert cd[..p] == cd;
    OneTiling(cd, rs);
    r := Ok(out);
  }

  lemma NoTiling(cd: seq<byte>, pre: seq<seq<byte>>)
    requires AllRecords(pre) && Concat(pre) <= cd && |Concat(pre)| < |cd| && !RecordAt(cd, |Concat(pre)|)
    ensures forall rs :: AllRecords(rs) ==> Concat(rs) != cd
  {
    forall rs | AllRecords(rs) ensures Concat(rs) != cd {
      NoRecordsPastError(cd, pre, rs);
    }
  }

  lemma OneTiling(cd: seq<byte>, rs: seq<seq<byte>>)
    requires AllRecords(rs) && Concat(rs) == cd
    ensures forall rs' :: AllRecords(rs') && Concat(rs') == cd ==> rs' == rs
  {
    forall rs' | AllRecords(rs') && Concat(rs') == cd ensures rs' == rs {
      RecordsUnique(rs', rs);
    }
  }

  /** A parse error really means that no list of records makes up the directory. */
  lemma {:induction false} NoRecordsPastError(cd: seq<byte>, pre: seq<seq<byte>>, rs: seq<seq<byte>>)
    requires AllRecords(pre) && AllRecords(rs) && Concat(pre) <= cd
    requires |Concat(pre)| < |cd| && !RecordAt(cd, |Concat(pre)|)
    ensures Concat(rs) != cd
    decreases |pre|
  {
    if Concat(rs) == cd {
      if pre == [] {
        assert rs != [];
        RecordPrefix(cd, rs[0]);
      } else {
        assert rs != [];
        assert pre[0] <= cd && rs[0] <= cd;
        SameFirst(pre[0], rs[0], cd);
        var cut := cd[|rs[0]|..];
        assert Concat(rs[1..]) == cut;
        assert Concat(pre[1..]) <= cut;
        ShiftRecordAt(cd, |rs[0]|, |Concat(pre[1..])|);
        NoRecordsPastError(cut, pre[1..], rs[1..]);
      }
    }
  }

  lemma RecordPrefix(cd: seq<byte>, r: seq<byte>)
    requires IsRecord(r) && r <= cd
    ensures RecordAt(cd, 0)
  {
    assert forall a, b :: 0 <= a <= b <= |r| ==> r[a..b] == cd[a..b];
  }

  lemma ShiftRecordAt(cd: seq<byte>, n: nat, p: nat)
    requires n <= |cd|
    ensures RecordAt(cd[n..], p) <==> RecordAt(cd, n + p)
  {
    var c := cd[n..];
    if p + 46 <= |c| {
      assert c[p..p + 4] == cd[n + p..n + p + 4];
      assert c[p + 28..p + 30] == cd[n + p + 28..n + p + 30];
      assert c[p + 30..p + 32] == cd[n + p + 30..n + p + 32];
      assert c[p + 32..p + 34] == cd[n + p + 32..n + p + 34];
    }
  }

  // --- Policies and the filter -------------------------------------------------------------------

  datatype EntryPolicy = Output | Skip | Gap

  predicate EndsWith(s: seq<byte>, t: seq<byte>) { |t| <= |s| && s[|s| - |t|..] == t }

  function Lower(s: seq<byte>): (r: seq<byte>)
    ensures |r| == |s|
  {
    seq(|s|, i requires 0 <= i < |s| => if 0x41 <= s[i] <= 0x5a then s[i] + 32 else s[i])
  }

  predicate IsV1SignatureEntry(name: seq<byte>) {
    var prefix := Ascii("META-INF/");
    prefix <= name &&
    var rest := name[|prefix|..];
    0x2f !in rest &&
    var l := Lower(rest);
    || l == Ascii("manifest.mf")
    || EndsWith(l, Ascii(".sf")) || EndsWith(l, Ascii(".rsa")) || EndsWith(l, Ascii(".dsa"))
    || EndsWith(l, Ascii(".ec"))
    || Ascii("sig-") <= l
  }

  function Policy(name: seq<byte>): (r: EntryPolicy) {
    if name == Ascii("stamp-cert-sha256") || name == Ascii("pinlist.meta") then Gap
    else if EndsWith(name, [0x2f]) || IsV1SignatureEntry(name) then Skip
    else Output
  }

  /** `required_alignment`: 1 when the rule does not apply. */
  function RequiredAlignment(name: seq<byte>, compression: nat, libPageSize: nat): (r: nat)
    ensures r >= 1 && (r > 1 ==> r == 4 || r == libPageSize > 4)
  {
    if compression != 0 || EndsWith(name, [0x2f]) then 1
    else if libPageSize > 4 && EndsWith(name, Ascii(".so")) then libPageSize
    else 4
  }

  function Kept(rs: seq<seq<byte>>): (r: seq<seq<byte>>)
    requires forall i :: 0 <= i < |rs| ==> IsRecord(rs[i])
    ensures forall i :: 0 <= i < |r| ==> IsRecord(r[i]) && r[i] in rs && Policy(RecordName(r[i])) == Output
    ensures |r| <= |rs|
  {
    if rs == [] then []
    else (if Policy(RecordName(rs[0])) == Output then [rs[0]] else []) + Kept(rs[1..])
  }

  function RemovedNames(rs: seq<seq<byte>>): (r: seq<seq<byte>>)
    requires forall i :: 0 <= i < |rs| ==> IsRecord(rs[i])
  {
    if rs == [] then []
    else (if Policy(RecordName(rs[0])) == Output then [] else [RecordName(rs[0])]) + RemovedNames(rs[1..])
  }

  lemma {:induction false} KeptSnoc(rs: seq<seq<byte>>, r: seq<byte>)
    requires AllRecords(rs) && IsRecord(r)
    ensures Kept(rs + [r]) == Kept(rs) + (if Policy(RecordName(r)) == Output then [r] else [])
    ensures RemovedNames(rs + [r])
      == RemovedNames(rs) + (if Policy(RecordName(r)) == Output then [] else [RecordName(r)])
  {
    hide IsRecord, Policy, RecordName;
    if rs == [] {
      assert (rs + [r])[1..] == [];
    } else {
      KeptSnoc(rs[1..], r);
      assert (rs + [r])[1..] == rs[1..] + [r];
    }
  }

  /** Filtering keeps everything exactly when nothing is to go; a second filter is the identity. */
  lemma {:induction false} KeptAll(rs: seq<seq<byte>>)
    requires AllRecords(rs) && forall i :: 0 <= i < |rs| ==> Policy(RecordName(rs[i])) == Output
    ensures Kept(rs) == rs && RemovedNames(rs) == []
  {
    hide IsRecord, Policy, RecordName;
    if rs != [] {
      KeptAll(rs[1..]);
    }
  }

  lemma KeptSame(rs: seq<seq<byte>>)
    requires AllRecords(rs)
    ensures Kept(rs) == rs ==> forall i :: 0 <= i < |rs| ==> Policy(RecordName(rs[i])) == Output
  {
    forall i | Kept(rs) == rs && 0 <= i < |rs| ensures Policy(RecordName(rs[i])) == Output {
      assert Kept(rs)[i] == rs[i];
    }
  }

  lemma FilterIdempotent(rs: seq<seq<byte>>)
    requires AllRecords(rs)
    ensures Kept(Kept(rs)) == Kept(rs) && RemovedNames(Kept(rs)) == []
  {
    KeptAll(Kept(rs));
  }

  lemma {:induction false} EntryIndex(rs: seq<seq<byte>>, p: nat, i: nat)
    requires AllRecords(rs) && i < |rs|
    ensures EntriesOf(rs, p)[i] == EntryOf(rs[i], p + |Concat(rs[..i])|)
    ensures Concat(rs) == Concat(rs[..i]) + rs[i] + Concat(rs[i + 1..])
  {
    hide IsRecord, EntryOf;
    if i == 0 {
      assert rs[..0] == [];
    } else {
      EntryIndex(rs[1..], p + |rs[0]|, i - 1);
      assert rs[1..][..i - 1] == rs[..i][1..];
      assert rs[1..][i..] == rs[i + 1..];
    }
  }

  lemma {:induction false} KeptShorter(rs: seq<seq<byte>>)
    requires AllRecords(rs)
    ensures |Concat(Kept(rs))| <= |Concat(rs)|
  {
    hide IsRecord, Policy, RecordName;
    if rs != [] {
      KeptShorter(rs[1..]);
      var k := Kept(rs[1..]);
      assert ([rs[0]] + k)[1..] == k;
      assert [] + k == k;
    }
  }

  datatype FilteredCd = FilteredCd(bytes: seq<byte>, borrowed: bool, kept: seq<CdEntry>, removed: seq<seq<byte>>)

  /** The name bytes an entry points at, in the directory it was parsed from. */
  lemma NameInCd(cd: seq<byte>, rs: seq<seq<byte>>, i: nat)
    requires AllRecords(rs) && Concat(rs) == cd && i < |rs|
    ensures var e := EntriesOf(rs, 0)[i];
      && e.recordEnd <= |cd| && e.nameStart <= e.nameEnd <= |cd| && e.recordStart <= e.recordEnd
      && cd[e.recordStart..e.recordEnd] == rs[i] && cd[e.nameStart..e.nameEnd] == RecordName(rs[i])
      && e == EntryOf(rs[i], |Concat(rs[..i])|) && e.recordStart == |Concat(rs[..i])|
  {
    EntryIndex(rs, 0, i);
    var (a, r) := (Concat(rs[..i]), rs[i]);
    var n := U16(r, 28);
    assert cd[|a|..|a| + |r|] == r;
    assert cd[|a| + 46..|a| + 46 + n] == r[46..46 + n];
  }

  /** `filter_cd`. The in-place compaction of `kept` describes the filtered directory exactly as a
      fresh parse of it would. */
  method FilterCd(cd: seq<byte>) returns (r: Result<FilteredCd, ZipError>, ghost rs: seq<seq<byte>>)
    ensures AllRecords(rs)
    ensures r.Ok? ==>
      && Concat(rs) == cd
      && r.value.bytes == Concat(Kept(rs))
      && r.value.kept == EntriesOf(Kept(rs), 0)
      && r.value.removed == RemovedNames(rs)
      && (r.value.borrowed <==> Kept(rs) == rs)
    ensures r.Err? ==> forall rs' :: AllRecords(rs') ==> Concat(rs') != cd
  {
    var parsed;
    parsed, rs := ParseCdEntries(cd);
    if parsed.Err? {
      ghost var pre := rs;
      forall rs' | AllRecords(rs') ensures Concat(rs') != cd {
        NoRecordsPastError(cd, pre, rs');
      }
      return Err(parsed.error), rs;
    }
    hide IsRecord, Policy, RecordName, EntryOf, EntriesOf, Concat, RemovedNames;
    var all := parsed.value;
    forall i | 0 <= i < |all|
      ensures all[i].nameStart <= all[i].nameEnd <= |cd| && cd[all[i].nameStart..all[i].nameEnd] == RecordName(rs[i])
    {
      NameInCd(cd, rs, i);
    }
    var policies := seq(|all|, i requires 0 <= i < |all| => Policy(cd[all[i].nameStart..all[i].nameEnd]));
    if forall i :: 0 <= i < |policies| ==> policies[i] == Output {
      assert forall i :: 0 <= i < |rs| ==> policies[i] == Policy(RecordName(rs[i]));
      KeptAll(rs);
      return Ok(FilteredCd(cd, true, all, [])), rs;
    }
    assert forall i :: 0 <= i < |rs| ==> policies[i] == Policy(RecordName(rs[i]));
    var out, kept, removed := Compact(cd, all, policies, rs);
    KeptSame(rs);
    r := Ok(FilteredCd(out, false, kept, removed));
  }

  /** The loop of `filter_cd`. */
  method Compact(cd: seq<byte>, all: seq<CdEntry>, policies: seq<EntryPolicy>, ghost rs: seq<seq<byte>>)
    returns (out: seq<byte>, keptEntries: seq<CdEntry>, removed: seq<seq<byte>>)
    requires AllRecords(rs) && Concat(rs) == cd && all == EntriesOf(rs, 0)
    requires |policies| == |rs| && forall i :: 0 <= i < |rs| ==> policies[i] == Policy(RecordName(rs[i]))
    ensures out == Concat(Kept(rs)) && keptEntries == EntriesOf(Kept(rs), 0) && removed == RemovedNames(rs)
  {
    hide IsRecord, Policy, RecordName, EntryOf, EntriesOf, Concat, RemovedNames, Kept;
    var kept := new CdEntry[|all|](i requires 0 <= i < |all| => all[i]);
    out, removed := [], [];
    var n: nat := 0;
    EmptyLists();
    for i := 0 to |all|
      invariant n <= i && n == |Kept(rs[..i])|
      invariant out == Concat(Kept(rs[..i])) && |out| <= |Concat(rs[..i])|
      invariant kept[..n] == EntriesOf(Kept(rs[..i]), 0)
      invariant kept[i..] == all[i..]
      invariant removed == RemovedNames(rs[..i])
    {
      var e := kept[i];
      assert e == all[i];
      NameInCd(cd, rs, i);
      Extend(rs, i);
      if policies[i] == Output {
        var shift := e.recordStart - |out|;
        ShiftedEntry(rs[i], e.recordStart, shift);
        out := out + cd[e.recordStart..e.recordEnd];
        Store(kept, n, i, CdEntry(e.recordStart - shift, e.recordEnd - shift, e.nameStart - shift, e.nameEnd - shift,
                                  e.lfhOff, e.compression, e.flags, e.compressedSize));
        n := n + 1;
      } else {
        removed := removed + [cd[e.nameStart..e.nameEnd]];
      }
    }
    assert rs[..|all|] == rs;
    keptEntries := kept[..n];
  }

  /** Over an entry already read. */
  method Store(kept: array<CdEntry>, n: nat, i: nat, e: CdEntry)
    requires n <= i < kept.Length
    modifies kept
    ensures kept[..n + 1] == old(kept[..n]) + [e] && kept[i + 1..] == old(kept[i + 1..])
  {
    kept[n] := e;
  }

  lemma EmptyLists()
    ensures Concat([]) == [] && EntriesOf([], 0) == [] && Kept([]) == [] && RemovedNames([]) == []
  {
  }

  lemma ShiftedEntry(r: seq<byte>, p: nat, shift: int)
    requires IsRecord(r) && 0 <= p - shift
    ensures var e := EntryOf(r, p);
      e.recordStart == p && e.nameStart - shift >= 0 && e.nameEnd - shift >= 0 && e.recordEnd - shift >= 0 &&
      EntryOf(r, p - shift) == CdEntry(e.recordStart - shift, e.recordEnd - shift, e.nameStart - shift,
          e.nameEnd - shift, e.lfhOff, e.compression, e.flags, e.compressedSize)
  {
  }

  lemma Extend(rs: seq<seq<byte>>, i: nat)
    requires AllRecords(rs) && i < |rs|
    ensures var k := Kept(rs[..i]);
      && |Concat(rs[..i + 1])| == |Concat(rs[..i])| + |rs[i]|
      && Kept(rs[..i + 1]) == (if Policy(RecordName(rs[i])) == Output then k + [rs[i]] else k)
      && RemovedNames(rs[..i + 1])
        == RemovedNames(rs[..i]) + (if Policy(RecordName(rs[i])) == Output then [] else [RecordName(rs[i])])
      && Concat(k + [rs[i]]) == Concat(k) + rs[i]
      && EntriesOf(k + [rs[i]], 0) == EntriesOf(k, 0) + [EntryOf(rs[i], |Concat(k)|)]
  {
    hide IsRecord, Policy, RecordName, EntryOf;
    assert rs[..i + 1] == rs[..i] + [rs[i]];
    ConcatSnoc(rs[..i], rs[i]);
    KeptSnoc(rs[..i], rs[i]);
    ConcatSnoc(Kept(rs[..i]), rs[i]);
    EntriesSnoc(Kept(rs[..i]), rs[i], 0);
  }

  /** The compaction agrees with a fresh parse of the filtered bytes, whatever that parse finds. */
  lemma FilterAgreesWithReparse(rs: seq<seq<byte>>, again: seq<seq<byte>>)
    requires AllRecords(rs) && AllRecords(again) && Concat(again) == Concat(Kept(rs))
    ensures EntriesOf(again, 0) == EntriesOf(Kept(rs), 0) && Kept(again) == again
  {
    RecordsUnique(again, Kept(rs));
    FilterIdempotent(rs);
  }
}
