/** What a ZIP entry is, byte by byte: directory records and local headers of PKWARE APPNOTE sections
    4.3.7 and 4.3.12, the names that decide what becomes of an entry, and the alignment its data needs;
    and that src/zip.rs and src/align.rs read exactly that. */
module Entries {
  import opened Wrappers
  import opened Bytes
  import opened Zip
  import opened HeaderReader
  import opened Planner
  import opened Directory
  import opened Inspector

  // --- Names ---------------------------------------------------------------------------------------

  /** The bytes of a text. */
  ghost predicate Says(b: seq<byte>, text: string) {
    |b| == |text| && forall i :: 0 <= i < |b| ==> b[i] as int == text[i] as int
  }

  /** The bytes of a lower-case text, in any case. */
  ghost predicate SaysAnyCase(b: seq<byte>, text: string) {
    |b| == |text| && forall i :: 0 <= i < |b| ==>
      || b[i] as int == text[i] as int
      || ('a' <= text[i] <= 'z' && b[i] as int == text[i] as int - 32)
  }

  ghost predicate Ends(b: seq<byte>, text: string) {
    |b| >= |text| && Says(b[|b| - |text|..], text)
  }

  ghost predicate EndsAnyCase(b: seq<byte>, text: string) {
    |b| >= |text| && SaysAnyCase(b[|b| - |text|..], text)
  }

  /** A file of a JAR signature, by the part of its name behind "META-INF/". */
  ghost predicate SignatureFile(rest: seq<byte>) {
    && (forall i :: 0 <= i < |rest| ==> rest[i] as int != '/' as int)
    && (|| SaysAnyCase(rest, "manifest.mf")
        || EndsAnyCase(rest, ".sf") || EndsAnyCase(rest, ".rsa") || EndsAnyCase(rest, ".dsa")
        || EndsAnyCase(rest, ".ec")
        || (|rest| >= 4 && SaysAnyCase(rest[..4], "sig-")))
  }

  ghost predicate UnderMetaInf(name: seq<byte>) {
    |name| >= 9 && Says(name[..9], "META-INF/") && SignatureFile(name[9..])
  }

  lemma SaysIs(b: seq<byte>, text: string)
    requires forall i :: 0 <= i < |text| ==> text[i] as int < 256
    ensures Says(b, text) <==> b == Ascii(text)
  {
  }

  lemma LowerIs(b: seq<byte>, text: string)
    requires forall i :: 0 <= i < |text| ==> text[i] as int < 128 && !('A' <= text[i] <= 'Z')
    ensures SaysAnyCase(b, text) <==> Lower(b) == Ascii(text)
  {
    if Lower(b) == Ascii(text) {
      forall i | 0 <= i < |b|
        ensures || b[i] as int == text[i] as int || ('a' <= text[i] <= 'z' && b[i] as int == text[i] as int - 32)
      {
        assert Lower(b)[i] == Ascii(text)[i];
      }
    }
  }

  lemma LowerEnd(b: seq<byte>, text: string)
    requires forall i :: 0 <= i < |text| ==> text[i] as int < 128 && !('A' <= text[i] <= 'Z')
    ensures EndsAnyCase(b, text) <==> EndsWith(Lower(b), Ascii(text))
  {
    if |b| >= |text| {
      var k := |b| - |text|;
      assert Lower(b)[k..] == Lower(b[k..]);
      LowerIs(b[k..], text);
    }
  }

  lemma LowerStart(b: seq<byte>, text: string)
    requires forall i :: 0 <= i < |text| ==> text[i] as int < 128 && !('A' <= text[i] <= 'Z')
    ensures |b| >= |text| && SaysAnyCase(b[..|text|], text) <==> Ascii(text) <= Lower(b)
  {
    if |b| >= |text| {
      assert Lower(b)[..|text|] == Lower(b[..|text|]);
      LowerIs(b[..|text|], text);
    }
  }

  lemma SameFile(rest: seq<byte>)
    ensures SignatureFile(rest) <==>
      && 0x2f !in rest
      && var l := Lower(rest);
         || l == Ascii("manifest.mf")
         || EndsWith(l, Ascii(".sf")) || EndsWith(l, Ascii(".rsa")) || EndsWith(l, Ascii(".dsa"))
         || EndsWith(l, Ascii(".ec"))
         || Ascii("sig-") <= l
  {
    LowerIs(rest, "manifest.mf");
    LowerEnd(rest, ".sf"); LowerEnd(rest, ".rsa"); LowerEnd(rest, ".dsa"); LowerEnd(rest, ".ec");
    LowerStart(rest, "sig-");
    hide SaysAnyCase, EndsAnyCase, EndsWith, Lower, Ascii;
  }

  lemma SameDirectory(name: seq<byte>)
    ensures Ends(name, "/") <==> EndsWith(name, [0x2f])
  {
    if |name| >= 1 { SaysIs(name[|name| - 1..], "/"); }
    assert Ascii("/") == [0x2f];
  }

  lemma SameSignatureEntry(name: seq<byte>)
    ensures UnderMetaInf(name) <==> IsV1SignatureEntry(name)
  {
    if |name| >= 9 {
      SaysIs(name[..9], "META-INF/");
      SameFile(name[9..]);
    }
    hide SignatureFile, Lower, EndsWith;
  }

  /** What becomes of an entry, by its name: the stamp and the pin list leave a gap, directories and JAR
      signature files are skipped, the rest is kept. */
  lemma PolicyIs(name: seq<byte>)
    ensures Policy(name) == Gap <==> Says(name, "stamp-cert-sha256") || Says(name, "pinlist.meta")
    ensures Policy(name) == Skip <==> Ends(name, "/") || UnderMetaInf(name)
  {
    SaysIs(name, "stamp-cert-sha256");
    SaysIs(name, "pinlist.meta");
    SameDirectory(name);
    SameSignatureEntry(name);
    NoneIsBoth(name);
    hide Says, Ends, UnderMetaInf, IsV1SignatureEntry, EndsWith, Ascii;
  }

  lemma NoneIsBoth(name: seq<byte>)
    ensures Says(name, "stamp-cert-sha256") || Says(name, "pinlist.meta") ==> !Ends(name, "/") && !UnderMetaInf(name)
  {
    hide SignatureFile;
    if !Says(name, "stamp-cert-sha256") && !Says(name, "pinlist.meta") { return; }
    var n := |name|;
    assert name[n - 1] != 0x2f && name[0] != 0x4d;
  }

  /** The alignment an entry's data needs: none unless stored and not a directory; a page for a library
      when a page is asked for, else four bytes. */
  lemma AlignmentIs(name: seq<byte>, compression: nat, libPageSize: nat)
    ensures RequiredAlignment(name, compression, libPageSize)
      == if compression != 0 || Ends(name, "/") then 1
         else if Ends(name, ".so") && libPageSize > 4 then libPageSize
         else 4
  {
    if |name| >= 1 { SaysIs(name[|name| - 1..], "/"); }
    if |name| >= 3 { SaysIs(name[|name| - 3..], ".so"); }
    assert Ascii("/") == [0x2f];
  }

  // --- Directory records -----------------------------------------------------------------------------

  /** The fields of a directory record, in their order. */
  datatype Fields = Fields(versions: seq<byte>, flags: nat, compression: nat, timeAndCrc: seq<byte>, compressed: nat,
                           plain: nat, diskAndAttributes: seq<byte>, off: nat, name: seq<byte>, extra: seq<byte>,
                           comment: seq<byte>)
  {
    ghost predicate Ok() {
      && |versions| == 4 && |timeAndCrc| == 8 && |diskAndAttributes| == 8
      && flags < 0x1_0000 && compression < 0x1_0000
      && compressed < 0x1_0000_0000 && plain < 0x1_0000_0000 && off < 0x1_0000_0000
      && |name| < 0x1_0000 && |extra| < 0x1_0000 && |comment| < 0x1_0000
    }

    /** As they stand in the file. */
    function Bytes(): (r: seq<byte>) {
      Head() + Lengths() + Place() + name + extra + comment
    }

    function Head(): (r: seq<byte>) {
      [0x50, 0x4b, 0x01, 0x02] + versions + PutU16(flags) + PutU16(compression) + timeAndCrc + PutU32(compressed)
        + PutU32(plain)
    }

    function Lengths(): (r: seq<byte>) { PutU16(|name|) + PutU16(|extra|) + PutU16(|comment|) }

    function Place(): (r: seq<byte>) { diskAndAttributes + PutU32(off) }
  }

  lemma HeadParts(x: Fields)
    requires x.Ok()
    ensures var r := x.Head();
      && |r| == 28 && r[0..4] == [0x50, 0x4b, 0x01, 0x02] && r[8..10] == PutU16(x.flags)
      && r[10..12] == PutU16(x.compression) && r[20..24] == PutU32(x.compressed)
    ensures var r := x.Lengths(); |r| == 6 && r[0..2] == PutU16(|x.name|) && r[2..4] == PutU16(|x.extra|)
                                  && r[4..6] == PutU16(|x.comment|)
    ensures var r := x.Place(); |r| == 12 && r[8..12] == PutU32(x.off)
  {
    hide ToLE;
  }

  lemma RecordParts(x: Fields)
    requires x.Ok()
    ensures var r := x.Bytes();
      && |r| == 46 + |x.name| + |x.extra| + |x.comment| && r[0..4] == [0x50, 0x4b, 0x01, 0x02]
      && r[8..10] == PutU16(x.flags) && r[10..12] == PutU16(x.compression) && r[20..24] == PutU32(x.compressed)
      && r[28..30] == PutU16(|x.name|) && r[30..32] == PutU16(|x.extra|) && r[32..34] == PutU16(|x.comment|)
      && r[42..46] == PutU32(x.off) && r[46..46 + |x.name|] == x.name
  {
    HeadParts(x);
    hide ToLE, PutU16, PutU32, Fields.Head, Fields.Lengths, Fields.Place;
    var (h, l, p) := (x.Head(), x.Lengths(), x.Place());
    var r := x.Bytes();
    FourParts(h, l, p, x.name, x.extra + x.comment);
    assert r == h + l + p + x.name + (x.extra + x.comment);
    hide Fields.Bytes;
    SubSlice(r, 0, 28, 0, 4); SubSlice(r, 0, 28, 8, 10); SubSlice(r, 0, 28, 10, 12); SubSlice(r, 0, 28, 20, 24);
    SubSlice(r, 28, 6, 0, 2); SubSlice(r, 28, 6, 2, 4); SubSlice(r, 28, 6, 4, 6); SubSlice(r, 34, 12, 8, 12);
  }

  lemma FourParts(a: seq<byte>, b: seq<byte>, c: seq<byte>, d: seq<byte>, e: seq<byte>)
    ensures var (r, i, j) := (a + b + c + d + e, |a| + |b|, |a| + |b| + |c|);
      r[0..0 + |a|] == a && r[|a|..|a| + |b|] == b && r[i..i + |c|] == c && r[j..j + |d|] == d
  {
  }

  lemma Stored(x: nat, b: seq<byte>)
    ensures |b| == 2 && b == PutU16(x) && x < U16_MOD ==> LE(b) == x
    ensures |b| == 4 && b == PutU32(x) && x < U32_MOD ==> LE(b) == x
  {
    hide LE, ToLE;
    Widths();
    ToLERoundTrip(x, 2);
    ToLERoundTrip(x, 4);
  }

  /** A record is read for what it says, and the planner takes its view from there. */
  lemma RecordReads(x: Fields, p: nat, libPageSize: nat)
    requires x.Ok()
    ensures var r := x.Bytes();
      && IsRecord(r) && RecordName(r) == x.name
      && EntryOf(r, p)
         == CdEntry(p, p + |r|, p + 46, p + 46 + |x.name|, x.off, x.compression, x.flags, x.compressed)
      && ItemOf(r, libPageSize)
         == Item(x.off, x.compressed, x.flags / 8 % 2 == 1, RequiredAlignment(x.name, x.compression, libPageSize),
                 Policy(x.name))
  {
    var r := x.Bytes();
    RecordParts(x);
    Stored(x.flags, PutU16(x.flags)); Stored(x.compression, PutU16(x.compression));
    Stored(x.compressed, PutU32(x.compressed)); Stored(x.off, PutU32(x.off));
    Stored(|x.name|, PutU16(|x.name|)); Stored(|x.extra|, PutU16(|x.extra|)); Stored(|x.comment|, PutU16(|x.comment|));
    hide LE, ToLE, PutU16, PutU32, Fields.Bytes, Policy, RequiredAlignment;
    assert r[..4] == r[0..4] && r[8..8 + 2] == r[8..10] && r[10..10 + 2] == r[10..12] && r[20..20 + 4] == r[20..24];
    assert r[28..28 + 2] == r[28..30] && r[30..30 + 2] == r[30..32] && r[32..32 + 2] == r[32..34];
    assert r[42..42 + 4] == r[42..46];
  }

  /** The planner's item is what the parser noted of the record. */
  lemma ItemIsEntry(r: seq<byte>, p: nat, libPageSize: nat)
    requires IsRecord(r)
    ensures var (it, e) := (ItemOf(r, libPageSize), EntryOf(r, p));
      && it.off == e.lfhOff && it.size == e.compressedSize && (it.descriptor <==> e.flags / 8 % 2 == 1)
      && it.rule == RequiredAlignment(RecordName(r), e.compression, libPageSize) && it.policy == Policy(RecordName(r))
  {
  }

  // --- Local headers -----------------------------------------------------------------------------------

  /** A local file header: 26 bytes with the signature, the two lengths, name and extra. */
  function LocalHeader(fixed: seq<byte>, name: seq<byte>, extra: seq<byte>): (r: seq<byte>)
    requires |fixed| == 22
    ensures |r| == 30 + |name| + |extra|
  {
    [0x50, 0x4b, 0x03, 0x04] + fixed + PutU16(|name|) + PutU16(|extra|) + name + extra
  }

  /** It is read whole, with its lengths, wherever it stands. */
  lemma HeaderReads(input: seq<byte>, end: nat, off: nat, fixed: seq<byte>, name: seq<byte>, extra: seq<byte>)
    requires |fixed| == 22 && |name| < 0x1_0000 && |extra| < 0x1_0000
    requires off + |LocalHeader(fixed, name, extra)| <= end <= |input|
    requires input[off..off + |LocalHeader(fixed, name, extra)|] == LocalHeader(fixed, name, extra)
    ensures HeaderAt(input, end, off) == Ok(LocalHeader(fixed, name, extra))
    ensures DirectRead(input, off) == Some((|name|, |extra|))
    ensures HeaderLen(LocalHeader(fixed, name, extra)) == |LocalHeader(fixed, name, extra)|
  {
    var h := LocalHeader(fixed, name, extra);
    HeaderParts(fixed, name, extra);
    Stored(|name|, PutU16(|name|)); Stored(|extra|, PutU16(|extra|));
    hide LE, ToLE, LocalHeader;
    SubSlice(input, off, |h|, 0, 30);
    var g := input[off..off + 30];
    assert g == h[0..30];
    SubSlice(h, 0, 30, 0, 4); SubSlice(h, 0, 30, 26, 28); SubSlice(h, 0, 30, 28, 30);
    assert g[..4] == g[0..4] && g[26..26 + 2] == h[26..28] && g[28..28 + 2] == h[28..30];
  }

  lemma HeaderParts(fixed: seq<byte>, name: seq<byte>, extra: seq<byte>)
    requires |fixed| == 22
    ensures var h := LocalHeader(fixed, name, extra);
      h[0..4] == [0x50, 0x4b, 0x03, 0x04] && h[26..28] == PutU16(|name|) && h[28..30] == PutU16(|extra|)
  {
    hide ToLE;
  }

  /** A header that lacks the signature, or that does not fit, is an error. */
  lemma HeaderFails(input: seq<byte>, end: nat, off: nat)
    requires off + 30 <= end <= |input|
    ensures HeaderAt(input, end, off) == Err(HeaderError.NoHeader(off)) <==>
      input[off..off + 4] != [0x50, 0x4b, 0x03, 0x04]
    ensures HeaderAt(input, end, off) == Err(Overruns(off)) <==>
      && input[off..off + 4] == [0x50, 0x4b, 0x03, 0x04]
      && off + 30 + U16(input, off + 26) + U16(input, off + 28) > end
  {
    hide LE;
    SubSlice(input, off, 30, 0, 4); SubSlice(input, off, 30, 26, 28); SubSlice(input, off, 30, 28, 30);
    var h := input[off..off + 30];
    assert h[..4] == h[0..4] && h[26..26 + 2] == input[off + 26..off + 26 + 2];
    assert h[28..28 + 2] == input[off + 28..off + 28 + 2];
  }

  /** An entry put together: with the descriptor flag its stretch ends 16 bytes behind the data when a
      signed descriptor follows, and 12 bytes behind it when none does; without the flag, with the data. */
  lemma StretchOfParts(before: seq<byte>, fixed: seq<byte>, name: seq<byte>, extra: seq<byte>, data: seq<byte>,
                       after: seq<byte>, end: nat, it: Item)
    requires |fixed| == 22 && |name| < 0x1_0000 && |extra| < 0x1_0000
    requires var n := |before| + |LocalHeader(fixed, name, extra)| + |data|; n <= end <= n + |after|
    requires it.off == |before| && it.size == |data|
    ensures var h := LocalHeader(fixed, name, extra);
      var (input, n) := (before + h + data + after, |h| + |data|);
      var signed := |before| + n + 4 <= end && after[..4] == [0x50, 0x4b, 0x07, 0x08];
      && HeaderAt(input, end, it.off) == Ok(h)
      && Stretch(input, end, it) == if !it.descriptor then n else if signed then n + 16 else n + 12
  {
    var h := LocalHeader(fixed, name, extra);
    var input := before + h + data + after;
    var at := |before| + |h| + |data|;
    assert input[it.off..it.off + |h|] == h;
    HeaderReads(input, end, it.off, fixed, name, extra);
    LengthsOf(input, it.off, fixed, name, extra);
    if at + 4 <= end {
      assert input[at..at + 4] == after[..4];
    }
    hide LocalHeader;
  }

  lemma LengthsOf(input: seq<byte>, off: nat, fixed: seq<byte>, name: seq<byte>, extra: seq<byte>)
    requires |fixed| == 22 && |name| < 0x1_0000 && |extra| < 0x1_0000
    requires off + |LocalHeader(fixed, name, extra)| <= |input|
    requires input[off..off + |LocalHeader(fixed, name, extra)|] == LocalHeader(fixed, name, extra)
    ensures U16(input, off + 26) == |name| && U16(input, off + 28) == |extra|
  {
    var h := LocalHeader(fixed, name, extra);
    HeaderParts(fixed, name, extra);
    Stored(|name|, PutU16(|name|)); Stored(|extra|, PutU16(|extra|));
    hide LE, ToLE, LocalHeader;
    SubSlice(input, off, |h|, 26, 28); SubSlice(input, off, |h|, 28, 30);
    assert input[off + 26..off + 26 + 2] == h[26..28] && input[off + 28..off + 28 + 2] == h[28..30];
  }

  // --- Alignment -----------------------------------------------------------------------------------------

  /** The record's local header can be read, and the data behind its name and extra field does not start
      on the alignment it needs. */
  ghost predicate OffAlignment(f: seq<byte>, end: nat, r: seq<byte>, libPageSize: nat)
    requires IsRecord(r) && end <= |f|
  {
    var off := U32(r, 42);
    && off + 30 <= end && f[off..off + 4] == [0x50, 0x4b, 0x03, 0x04]
    && var needed := RequiredAlignment(r[46..46 + U16(r, 28)], U16(r, 10), libPageSize);
       needed > 1 && (off + 30 + U16(f, off + 26) + U16(f, off + 28)) % needed != 0
  }

  /** That is what both alignment tests find. */
  lemma ProvenBadIs(f: seq<byte>, end: nat, r: seq<byte>, libPageSize: nat)
    requires IsRecord(r) && end <= |f|
    ensures ProvenBad(f, end, ItemOf(r, libPageSize)) <==> OffAlignment(f, end, r, libPageSize)
  {
    var off := U32(r, 42);
    if off + 30 <= end {
      hide LE, RequiredAlignment, Policy;
      SubSlice(f, off, 30, 0, 4); SubSlice(f, off, 30, 26, 28); SubSlice(f, off, 30, 28, 30);
      var h := f[off..off + 30];
      assert h[..4] == h[0..4] && h[26..26 + 2] == f[off + 26..off + 26 + 2];
      assert h[28..28 + 2] == f[off + 28..off + 28 + 2];
    }
  }
}
