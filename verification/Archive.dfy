/** What an APK is, byte by byte: the ZIP records of PKWARE APPNOTE sections 4.3.12 and 4.3.16 and the
    APK Signing Block, and that src/zip.rs reads exactly that. Offsets and constants are those of the
    documents; nothing here goes through the parser's own. */
module Archive {
  import opened Wrappers
  import opened Bytes
  import opened Zip

  // --- The file ------------------------------------------------------------------------------------

  /** An end of central directory record starts at `i`, and its comment ends with the file. */
  ghost predicate EndRecord(f: seq<byte>, i: nat) {
    i + 22 <= |f| && f[i..i + 4] == [0x50, 0x4b, 0x05, 0x06] && U16(f, i + 20) == |f| - i - 22
  }

  ghost predicate LastEndRecord(f: seq<byte>, i: nat) {
    EndRecord(f, i) && forall j :: i < j <= |f| ==> !EndRecord(f, j)
  }

  /** From `start` to the directory at `cdOff` there is an APK Signing Block: a size field, pairs, the
      size field again, the magic. The size does not count the first field. */
  ghost predicate BlockBefore(f: seq<byte>, cdOff: nat, start: nat) {
    && start + 32 <= cdOff <= |f|
    && f[cdOff - 16..cdOff]
       == [0x41, 0x50, 0x4b, 0x20, 0x53, 0x69, 0x67, 0x20, 0x42, 0x6c, 0x6f, 0x63, 0x6b, 0x20, 0x34, 0x32]
    && U64(f, cdOff - 24) == U64(f, start) == cdOff - start - 8
  }

  /** A single-disk archive. */
  ghost predicate OneDisk(f: seq<byte>, end: nat)
    requires end + 22 <= |f|
  {
    && f[end + 4] == f[end + 5] == f[end + 6] == f[end + 7] == 0
    && f[end + 8] == f[end + 10] && f[end + 9] == f[end + 11]
  }

  /** A mark that the true value stands in a Zip64 record. */
  ghost predicate Zip64Mark(f: seq<byte>, end: nat)
    requires end + 22 <= |f|
  {
    U16(f, end + 10) == 0xffff || U32(f, end + 12) == 0xffff_ffff || U32(f, end + 16) == 0xffff_ffff
  }

  /** A Zip64 locator before the record, if the last 65557 bytes of the file hold it. */
  ghost predicate Zip64LocatorAt(f: seq<byte>, end: nat)
    requires end <= |f|
  {
    20 <= end && |f| - end <= 65537 && f[end - 20..end - 16] == [0x50, 0x4b, 0x06, 0x07]
  }

  /** `s` says where the parts of `f` are. The entries end where a signing block starts, and where the
      directory does when there is none. */
  ghost predicate IsArchive(f: seq<byte>, s: Sections) {
    var end := s.eocdOff;
    && s.fileLen == |f| && LastEndRecord(f, end) && s.eocd == f[end..]
    && OneDisk(f, end) && !Zip64Mark(f, end) && !Zip64LocatorAt(f, end)
    && s.cdSize == U32(f, end + 12) && s.cdOff == U32(f, end + 16) && s.cdOff + s.cdSize == end
    && match s.sigBlock
       case Some((start, len)) => BlockBefore(f, s.cdOff, start) && len == s.cdOff - start && s.entriesEnd == start
       case None => (forall start :: !BlockBefore(f, s.cdOff, start)) && s.entriesEnd == s.cdOff
  }

  // --- parse finds it ------------------------------------------------------------------------------

  lemma SameRecord(f: seq<byte>, i: nat)
    requires i <= |f|
    ensures IsEocd(f[i..]) <==> EndRecord(f, i)
  {
    SuffixIsEocd(f, i);
  }

  lemma SameLast(f: seq<byte>, i: nat)
    ensures EocdAt(f, i) <==> LastEndRecord(f, i)
  {
    hide IsEocd, EndRecord;
    if i <= |f| {
      SameRecord(f, i);
    }
    forall j | i < j <= |f| ensures IsEocd(f[j..]) <==> EndRecord(f, j) {
      SameRecord(f, j);
    }
    if EndRecord(f, i) { RecordInside(f, i); }
  }

  lemma RecordInside(f: seq<byte>, i: nat)
    requires EndRecord(f, i)
    ensures i + 22 <= |f| && |f| - i <= 65557
  {
  }

  lemma SameBlock(f: seq<byte>, cdOff: nat)
    requires cdOff <= |f|
    ensures match FindSigBlock(f, cdOff)
      case Some((start, len)) => BlockBefore(f, cdOff, start) && len == cdOff - start
      case None => forall start :: !BlockBefore(f, cdOff, start)
  {
    hide LE;
    assert SIG_BLOCK_MAGIC
      == [0x41, 0x50, 0x4b, 0x20, 0x53, 0x69, 0x67, 0x20, 0x42, 0x6c, 0x6f, 0x63, 0x6b, 0x20, 0x34, 0x32];
  }

  /** The fields of the record, read in the record or in the file. */
  lemma SameFields(f: seq<byte>, end: nat)
    requires end + 22 <= |f|
    ensures var e := f[end..];
      && U32(e, 12) == U32(f, end + 12) && U32(e, 16) == U32(f, end + 16) && U16(e, 10) == U16(f, end + 10)
      && (OneDisk(f, end) <==> U16(e, 4) == 0 && U16(e, 6) == 0 && U16(e, 8) == U16(e, 10))
  {
    var (e, n) := (f[end..], |f| - end);
    assert f[end..end + n] == e;
    SubSlice(f, end, n, 10, 12); SubSlice(f, end, n, 12, 16); SubSlice(f, end, n, 16, 20);
    hide LE;
    assert e[10..10 + 2] == f[end + 10..end + 10 + 2] && e[12..12 + 4] == f[end + 12..end + 12 + 4];
    assert e[16..16 + 4] == f[end + 16..end + 16 + 4];
    SameDisk(f, end);
    hide OneDisk;
  }

  lemma SameDisk(f: seq<byte>, end: nat)
    requires end + 22 <= |f|
    ensures var e := f[end..]; OneDisk(f, end) <==> U16(e, 4) == 0 && U16(e, 6) == 0 && U16(e, 8) == U16(e, 10)
  {
    var e := f[end..];
    LoadedBytes(e, 4); LoadedBytes(e, 6); LoadedBytes(e, 8); LoadedBytes(e, 10);
    hide U16;
    assert forall k :: 4 <= k < 12 ==> e[k] == f[end + k];
  }

  /** `parse` succeeds exactly on such an archive, and says where its parts are. */
  lemma ParseIff(f: seq<byte>, s: Sections)
    ensures Parse(f) == Ok(s) <==> IsArchive(f, s)
  {
    hide IsEocd, EocdAt, EndRecord, LastEndRecord, OneDisk, Parse, CheckEocd, BlockBefore, LE;
    if Parse(f).Ok? {
      ParsedEocdOk(f);
    }
    SameLast(f, s.eocdOff);
    if LastEndRecord(f, s.eocdOff) {
      LastInside(f, s.eocdOff);
      ParseAt(f, s.eocdOff);
      CheckedIff(f, s);
    }
  }

  lemma LastInside(f: seq<byte>, i: nat)
    requires LastEndRecord(f, i)
    ensures i + 22 <= |f| && |f| - i <= 65557
  {
    RecordInside(f, i);
  }

  lemma CheckedIff(f: seq<byte>, s: Sections)
    requires var end := s.eocdOff; end + 22 <= |f| && |f| - end <= 65557 && IsEocd(f[end..]) && LastEndRecord(f, end)
    ensures TailLen(f) >= |f| - s.eocdOff
    ensures CheckEocd(f, s.eocdOff - (|f| - TailLen(f)), TailLen(f)) == Ok(s) <==> IsArchive(f, s)
  {
    hide IsEocd, LastEndRecord, OneDisk, BlockBefore, FindSigBlock, LE;
    var end := s.eocdOff;
    SameFields(f, end);
    var cdOff := U32(f, end + 16);
    if cdOff <= |f| { SameBlock(f, cdOff); OneBlock(f, cdOff); }
    var rel := end - (|f| - TailLen(f));
    assert |f| - TailLen(f) + rel == end;
    assert rel >= 20 <==> 20 <= end && |f| - end <= 65537;
  }

  lemma OneBlock(f: seq<byte>, cdOff: nat)
    ensures forall x, y :: BlockBefore(f, cdOff, x) && BlockBefore(f, cdOff, y) ==> x == y
  {
  }

  /** Why `parse` fails, when it does. */
  lemma ParseErrors(f: seq<byte>)
    ensures Parse(f) == Err(TooSmall) <==> |f| < 22
    ensures Parse(f) == Err(NoEocd) <==> |f| >= 22 && forall i: nat :: !EndRecord(f, i)
  {
    hide IsEocd, EndRecord, EocdAt, FindSigBlock, LE;
    var cut := |f| - TailLen(f);
    var tail := f[cut..];
    if |f| >= 22 {
      LastEocdIsEocdAt(tail, |tail|);
      forall i: nat | EndRecord(f, i) ensures LastEocd(tail, |tail|).Some? {
        RecordInside(f, i);
        SameRecord(f, i);
        assert f[i..] == tail[i - cut..];
      }
      if LastEocd(tail, |tail|).Some? {
        var rel := LastEocd(tail, |tail|).value;
        EocdInTail(f, cut, cut + rel);
        SameLast(f, cut + rel);
      }
    } else {
      forall i: nat ensures !EndRecord(f, i) {
        if EndRecord(f, i) { RecordInside(f, i); }
      }
    }
  }

  /** Given the last record: the first of the four tests that fails names the error. */
  lemma CheckErrors(f: seq<byte>, end: nat)
    requires LastEndRecord(f, end)
    ensures end + 22 <= |f|
    ensures Parse(f) == Err(MultiDisk) <==> !OneDisk(f, end)
    ensures Parse(f) == Err(Zip64) <==> OneDisk(f, end) && Zip64Mark(f, end)
    ensures Parse(f) == Err(Zip64Locator) <==> OneDisk(f, end) && !Zip64Mark(f, end) && Zip64LocatorAt(f, end)
    ensures Parse(f) == Err(NotFollowedByEocd) <==>
      && OneDisk(f, end) && !Zip64Mark(f, end) && !Zip64LocatorAt(f, end)
      && U32(f, end + 12) + U32(f, end + 16) != end
  {
    hide IsEocd, EocdAt, OneDisk, Parse, FindSigBlock, LE;
    LastInside(f, end);
    SameLast(f, end);
    hide LastEndRecord;
    ParseAt(f, end);
    SameFields(f, end);
    var rel := end - (|f| - TailLen(f));
    assert |f| - TailLen(f) + rel == end;
    assert rel >= 20 <==> 20 <= end && |f| - end <= 65537;
  }

  // --- Files put together ----------------------------------------------------------------------------

  /** An end record that describes a directory of `cdSize` bytes at `cdOff`, with no other one inside. */
  ghost predicate Describes(e: seq<byte>, cdOff: nat, cdSize: nat) {
    && LastEndRecord(e, 0) && |e| >= 22 && OneDisk(e, 0) && U16(e, 10) != 0xffff
    && U32(e, 12) == cdSize < 0xffff_ffff && U32(e, 16) == cdOff < 0xffff_ffff
  }

  lemma EndInFile(f: seq<byte>, at: nat, e: seq<byte>, cdOff: nat, cdSize: nat)
    requires at <= |f| && f[at..] == e && Describes(e, cdOff, cdSize)
    ensures at + 22 <= |f| && LastEndRecord(f, at) && OneDisk(f, at) && !Zip64Mark(f, at)
    ensures U32(f, at + 12) == cdSize && U32(f, at + 16) == cdOff
  {
    assert e[0..] == e;
    SameLast(e, 0);
    EocdInTail(f, at, at);
    SameLast(f, at);
    hide LastEndRecord;
    SameFields(f, at);
    SameFields(e, 0);
  }

  /** Where the entries end when `head` is all that stands before the directory. */
  ghost predicate EntriesEndAt(head: seq<byte>, block: Option<(nat, nat)>, entriesEnd: nat) {
    match block
    case Some((start, len)) => BlockBefore(head, |head|, start) && len == |head| - start && entriesEnd == start
    case None => (forall start :: !BlockBefore(head, |head|, start)) && entriesEnd == |head|
  }

  lemma PartsParse(f: seq<byte>, head: seq<byte>, cd: seq<byte>, e: seq<byte>, block: Option<(nat, nat)>, end: nat)
    requires |f| >= |head| + |cd| && f[..|head|] == head && f[|head| + |cd|..] == e
    requires Describes(e, |head|, |cd|) && EntriesEndAt(head, block, end)
    requires !Zip64LocatorAt(f, |head| + |cd|)
    ensures Parse(f) == Ok(Sections(|f|, end, block, |head|, |cd|, |head| + |cd|, e))
  {
    hide LastEndRecord, OneDisk, Describes, BlockBefore, Zip64LocatorAt, Zip64Mark, U32, Parse;
    var at := |head| + |cd|;
    EndInFile(f, at, e, |head|, |cd|);
    forall start ensures BlockBefore(f, |head|, start) <==> BlockBefore(head, |head|, start) {
      BlockInHead(f, head, start);
    }
    var s := Sections(|f|, end, block, |head|, |cd|, at, e);
    assert IsArchive(f, s);
    ParseIff(f, s);
  }

  lemma BlockInHead(f: seq<byte>, head: seq<byte>, start: nat)
    requires |head| <= |f| && f[..|head|] == head
    ensures BlockBefore(f, |head|, start) <==> BlockBefore(head, |head|, start)
  {
    hide LE;
    var n := |head|;
    if start + 32 <= n {
      assert f[n - 16..n] == f[..n][n - 16..n] && f[n - 24..n - 24 + 8] == f[..n][n - 24..n - 24 + 8];
      assert f[start..start + 8] == f[..n][start..start + 8];
    }
  }

  /** Entries, directory and end record without a signing block between: the entries end where the
      directory starts, however many there are. */
  lemma UnsignedParses(entries: seq<byte>, cd: seq<byte>, e: seq<byte>)
    requires Describes(e, |entries|, |cd|) && forall start :: !BlockBefore(entries, |entries|, start)
    requires !Zip64LocatorAt(entries + cd + e, |entries| + |cd|)
    ensures var f := entries + cd + e;
      Parse(f) == Ok(Sections(|f|, |entries|, None, |entries|, |cd|, |entries| + |cd|, e))
  {
    hide Describes, BlockBefore, Zip64LocatorAt, Parse;
    var f := entries + cd + e;
    assert f[..|entries|] == entries && f[|entries| + |cd|..] == e;
    PartsParse(f, entries, cd, e, None, |entries|);
  }

  /** With a block between, they end where it starts. */
  lemma SignedParses(entries: seq<byte>, pairs: seq<byte>, cd: seq<byte>, e: seq<byte>)
    requires 24 + |pairs| < U64_MOD && Describes(e, |entries| + 32 + |pairs|, |cd|)
    requires !Zip64LocatorAt(entries + BlockOf(pairs) + cd + e, |entries| + 32 + |pairs| + |cd|)
    ensures var (f, cdOff) := (entries + BlockOf(pairs) + cd + e, |entries| + 32 + |pairs|);
      Parse(f) == Ok(Sections(|f|, |entries|, Some((|entries|, 32 + |pairs|)), cdOff, |cd|, cdOff + |cd|, e))
  {
    hide Describes, BlockBefore, Zip64LocatorAt, Parse, BlockOf;
    BlockStands(entries, pairs);
    var head := entries + BlockOf(pairs);
    var f := head + cd + e;
    assert f[..|head|] == head && f[|head| + |cd|..] == e;
    PartsParse(f, head, cd, e, Some((|entries|, 32 + |pairs|)), |entries|);
  }

  /** Size, pairs, size, "APK Sig Block 42". */
  function BlockOf(pairs: seq<byte>): (r: seq<byte>)
    ensures |r| == 32 + |pairs|
  {
    PutU64(24 + |pairs|) + pairs + PutU64(24 + |pairs|)
      + [0x41, 0x50, 0x4b, 0x20, 0x53, 0x69, 0x67, 0x20, 0x42, 0x6c, 0x6f, 0x63, 0x6b, 0x20, 0x34, 0x32]
  }

  lemma BlockStands(entries: seq<byte>, pairs: seq<byte>)
    requires 24 + |pairs| < U64_MOD
    ensures var head := entries + BlockOf(pairs); BlockBefore(head, |head|, |entries|)
  {
    hide LE, ToLE;
    var n := 24 + |pairs|;
    var head := entries + BlockOf(pairs);
    var s := PutU64(n);
    assert head[|entries|..|entries| + 8] == s[0..0 + 8] && head[|head| - 24..|head| - 24 + 8] == s[0..0 + 8];
  }
}
