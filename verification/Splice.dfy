/** The tail of `sign_one` (src/main.rs): layout of the signed file, its digest, its signing block,
    and the writers that splice the tail in. */
module Splice {
  import opened Wrappers
  import opened Bytes
  import opened Hashing
  import opened Digest
  import opened Files
  import opened Zip
  import opened Sigblock
  import opened Inspector
  import DW = DigestWorkers
  import Rewrite

  // --- Layout ----------------------------------------------------------------------------------------

  /** The EOCD of the signed file, its Central Directory offset still to be set. */
  function NewEocd(template: seq<byte>, cdLen: nat, count: nat): (r: seq<byte>)
    requires |template| >= EOCD_MIN_LEN
    ensures |r| == |template|
  {
    SetCdSize(SetEntryCount(template, count), cdLen)
  }

  /** `layout`: patches two copies of the EOCD in place. */
  method Layout(entriesEnd: nat, cdLen: nat, template: seq<byte>, count: nat)
    returns (eocd: seq<byte>, eocdForDigest: seq<byte>, pad: nat, blockStart: nat)
    requires |template| >= EOCD_MIN_LEN
    ensures pad == PaddingBeforeBlock(entriesEnd) && blockStart == entriesEnd + pad
    ensures eocd == NewEocd(template, cdLen, count) && eocdForDigest == SetCdOffset(eocd, blockStart)
  {
    hide ToLE;
    pad := PaddingBeforeBlock(entriesEnd);
    blockStart := entriesEnd + pad;
    var e := new byte[|template|](i requires 0 <= i < |template| => template[i]);
    assert e[..] == template;
    CopyInto(e, 8, PutU16(count));
    ghost var first := Patched(template, 8, PutU16(count));
    assert e[..] == first;
    CopyInto(e, 10, PutU16(count));
    assert e[..] == Patched(first, 10, PutU16(count));
    CopyInto(e, 12, PutU32(cdLen));
    eocd := e[..];
    var d := new byte[|eocd|](i requires 0 <= i < |eocd| => eocd[i]);
    assert d[..] == eocd;
    CopyInto(d, 16, PutU32(blockStart));
    eocdForDigest := d[..];
  }

  /** What the digest covers: entries with their padding, Central Directory, and the EOCD with its
      offset field pointing at the signing block (APK Signature Scheme v2, "Integrity-protected
      contents"). */
  function Covered(entries: seq<byte>, cd: seq<byte>, template: seq<byte>, count: nat): (r: seq<seq<byte>>)
    requires |template| >= EOCD_MIN_LEN
  {
    var pad := PaddingBeforeBlock(|entries|);
    [entries + Zeros(pad), cd, SetCdOffset(NewEocd(template, |cd|, count), |entries| + pad)]
  }

  /** The sources `digest_layout` hands to `content_digest`: the mapped entries with the zeros that
      will follow them, then the in-memory parts. */
  function LayoutSources(entries: seq<byte>, cd: seq<byte>, template: seq<byte>, count: nat): (r: seq<Source>)
    requires |template| >= EOCD_MIN_LEN
    ensures |r| == 3
  {
    var pad := PaddingBeforeBlock(|entries|);
    [Source(Some(0), entries, Zeros(pad)), Source(None, cd, []),
     Source(None, SetCdOffset(NewEocd(template, |cd|, count), |entries| + pad), [])]
  }

  /** The schedule lets every digest worker end. */
  predicate LayoutFinishes(alg: Algorithm, sha: bool, entries: seq<byte>, cd: seq<byte>, template: seq<byte>,
                           count: nat, threads: nat, schedule: seq<DW.Choice>)
    requires |template| >= EOCD_MIN_LEN
  {
    DW.AllDone(DW.Outcome(alg, sha, LayoutSources(entries, cd, template, count), threads, schedule))
  }

  /** `digest_layout`. `schedule` is the workers' interleaving; `delivered` are the chunks of the
      entries section they handled. */
  method DigestLayout(alg: Algorithm, apk: seq<byte>, entriesEnd: nat, cd: seq<byte>, template: seq<byte>, count: nat,
                      sha: bool, threads: nat, schedule: seq<DW.Choice>)
    returns (digest: Option<seq<byte>>, delivered: seq<nat>, eocd: seq<byte>, pad: nat, blockStart: nat)
    requires alg.Valid() && entriesEnd <= |apk| && |template| >= EOCD_MIN_LEN
    ensures digest.Some? <==> LayoutFinishes(alg, sha, apk[..entriesEnd], cd, template, count, threads, schedule)
    ensures digest.Some? ==> digest.value == ContentDigest(alg, Covered(apk[..entriesEnd], cd, template, count))
    ensures pad == PaddingBeforeBlock(entriesEnd) && blockStart == entriesEnd + pad
      && eocd == NewEocd(template, |cd|, count)
    ensures digest.Some? ==> Delivers(Source(Some(0), apk[..entriesEnd], Zeros(pad)), delivered)
  {
    hide ContentDigest, NewEocd, SetCdOffset, AllParts, DW.Outcome, DW.AllDone, DW.Gathered, DW.Delivered;
    var eocdForDigest;
    eocd, eocdForDigest, pad, blockStart := Layout(entriesEnd, |cd|, template, count);
    var sources :=
      [Source(Some(0), apk[..entriesEnd], Zeros(pad)), Source(None, cd, []), Source(None, eocdForDigest, [])];
    digest, delivered := DW.ParallelContentDigest(alg, sha, sources, threads, schedule);
    ThreeSources(apk[..entriesEnd], Zeros(pad), cd, eocdForDigest);
  }

  lemma ThreeSources(data: seq<byte>, tail: seq<byte>, cd: seq<byte>, eocd: seq<byte>)
    ensures Digest.Sections([Source(Some(0), data, tail), Source(None, cd, []), Source(None, eocd, [])])
      == [data + tail, cd, eocd]
  {
    assert cd + [] == cd && eocd + [] == eocd;
  }

  lemma ThreeSections(a: seq<byte>, b: seq<byte>, c: seq<byte>)
    ensures AllChunks([a, b, c]) == Chunks(a) + Chunks(b) + Chunks(c)
  {
    hide Chunks;
    assert [a, b, c][1..] == [b, c] && [b, c][1..] == [c] && [c][1..] == [];
    assert AllChunks([c]) == Chunks(c);
    assert AllChunks([b, c]) == Chunks(b) + Chunks(c);
  }

  /** `finish_rewritten_digest`: the entries were digested while they were written; the rest is
      appended. The result is the digest of the whole. */
  method FinishRewrittenDigest(alg: Algorithm, rw: Rewrite.Rewritten, template: seq<byte>, ghost entries: seq<byte>)
    returns (digest: seq<byte>, eocd: seq<byte>, pad: nat, blockStart: nat)
    requires alg.Valid() && |template| >= EOCD_MIN_LEN
    requires rw.entriesEnd == |entries| && rw.pad == PaddingBeforeBlock(|entries|)
    requires rw.chunkCount == |Chunks(entries + Zeros(rw.pad))|
      && rw.chunkDigests == ChunkDigests(alg, Chunks(entries + Zeros(rw.pad)))
    ensures digest == ContentDigest(alg, Covered(entries, rw.cd, template, rw.entries))
    ensures pad == rw.pad && blockStart == rw.entriesEnd + pad && eocd == NewEocd(template, |rw.cd|, rw.entries)
  {
    hide Chunks, ChunkDigest, ChunkDigests, TopDigest;
    var eocdForDigest;
    eocd, eocdForDigest, pad, blockStart := Layout(rw.entriesEnd, |rw.cd|, template, rw.entries);
    var nCd, dCd := ChunkDigestsOf(alg, rw.cd);
    var nEocd, dEocd := ChunkDigestsOf(alg, eocdForDigest);
    digest := TopDigest(alg, rw.chunkCount + nCd + nEocd, rw.chunkDigests + dCd + dEocd);
    ghost var head := Chunks(entries + Zeros(rw.pad));
    ThreeSections(entries + Zeros(rw.pad), rw.cd, eocdForDigest);
    ChunkDigestsConcat(alg, head, Chunks(rw.cd));
    ChunkDigestsConcat(alg, head + Chunks(rw.cd), Chunks(eocdForDigest));
  }

  // --- The signing block -----------------------------------------------------------------------------

  /** A loaded key: its digest algorithm, what goes into the signer block, and the signature
      function (library code). */
  datatype Signer = Signer(alg: Algorithm, algId: nat, certs: seq<seq<byte>>, spki: seq<byte>, sign: Signing) {
    function Input(digest: seq<byte>): (r: SignerInput) { SignerInput(algId, digest, certs, spki) }

    function V2(digest: seq<byte>, v3: bool): (r: Option<seq<byte>>) {
      match sign(V2SignedData(Input(digest), v3))
      case None => None
      case Some(s) => Some(V2Bytes(Input(digest), v3, s))
    }

    function V3(digest: seq<byte>): (r: Option<seq<byte>>) {
      match sign(V3SignedData(Input(digest), V3_MIN_SDK, V3_MAX_SDK))
      case None => None
      case Some(s) => Some(V3Bytes(Input(digest), V3_MIN_SDK, V3_MAX_SDK, s))
    }

    /** The pairs of the signing block, v2 before v3. */
    function Pairs(digest: seq<byte>, v2: bool, v3: bool): (r: Option<seq<Pair>>) {
      var (a, b) := (V2(digest, v3), V3(digest));
      if (v2 && a.None?) || (v3 && b.None?) then None
      else
        Some((if v2 then [(V2_BLOCK_ID, SchemeBlock([a.value]))] else [])
             + (if v3 then [(V3_BLOCK_ID, SchemeBlock([b.value]))] else []))
    }
  }

  /** Both signatures cover the same digest; the block holds the scheme blocks that were asked for. */
  method MakeBlock(signer: Signer, digest: seq<byte>, v2: bool, v3: bool) returns (block: Option<seq<byte>>)
    ensures block == match signer.Pairs(digest, v2, v3) case None => None case Some(ps) => Some(BlockBytes(ps))
  {
    hide SchemeBlock, V2Bytes, V3Bytes, V2SignedData, V3SignedData, BlockSize;
    var inp := SignerInput(signer.algId, digest, signer.certs, signer.spki);
    var pairs: seq<Pair> := [];
    var v3Block: Option<seq<byte>> := None;
    if v3 {
      v3Block := V3Signer(inp, V3_MIN_SDK, V3_MAX_SDK, signer.sign);
    }
    if v2 {
      var b := V2Signer(inp, v3, signer.sign);
      if b.None? { return None; }
      pairs := pairs + [(V2_BLOCK_ID, SchemeBlock([b.value]))];
    }
    if v3 {
      if v3Block.None? { return None; }
      pairs := pairs + [(V3_BLOCK_ID, SchemeBlock([v3Block.value]))];
    }
    var a := if v2 then [(V2_BLOCK_ID, SchemeBlock([signer.V2(digest, v3).value]))] else [];
    var b3 := if v3 then [(V3_BLOCK_ID, SchemeBlock([signer.V3(digest).value]))] else [];
    assert pairs == a + b3;
    var b := ApkSigningBlock(pairs);
    block := Some(b);
  }

  // --- The signed file -------------------------------------------------------------------------------

  const U32_MAX: nat := 0xffff_ffff

  /** The file a signer promises, from the entries section, Central Directory, EOCD and entry count it
      settled on; nothing when signing fails or the Central Directory would start past 4 GiB. */
  function SignedFile(signer: Signer, v2: bool, v3: bool, entries: seq<byte>, cd: seq<byte>, template: seq<byte>,
                      count: nat): (r: Option<seq<byte>>)
    requires |template| >= EOCD_MIN_LEN
  {
    var pad := PaddingBeforeBlock(|entries|);
    match signer.Pairs(ContentDigest(signer.alg, Covered(entries, cd, template, count)), v2, v3)
    case None => None
    case Some(ps) =>
      var cdOff := |entries| + pad + |BlockBytes(ps)|;
      if cdOff > U32_MAX then None
      else Some(entries + Zeros(pad) + BlockBytes(ps) + cd + SetCdOffset(NewEocd(template, |cd|, count), cdOff))
  }

  /** `SignedFile`, once its pairs are known. */
  lemma SignedFileIs(signer: Signer, v2: bool, v3: bool, entries: seq<byte>, cd: seq<byte>, template: seq<byte>,
                     count: nat, ps: Option<seq<Pair>>)
    requires |template| >= EOCD_MIN_LEN
    requires ps == signer.Pairs(ContentDigest(signer.alg, Covered(entries, cd, template, count)), v2, v3)
    ensures var pad := PaddingBeforeBlock(|entries|);
      SignedFile(signer, v2, v3, entries, cd, template, count) ==
      if ps.None? || |entries| + pad + |BlockBytes(ps.value)| > U32_MAX then None
      else Some(entries + (Zeros(pad) + BlockBytes(ps.value)) + cd
                + SetCdOffset(NewEocd(template, |cd|, count), |entries| + pad + |BlockBytes(ps.value)|))
  {
    hide ContentDigest, Covered, BlockBytes, SetCdOffset, NewEocd, Signer.Pairs, Zeros;
    if ps.Some? {
      var pad := PaddingBeforeBlock(|entries|);
      assert entries + (Zeros(pad) + BlockBytes(ps.value)) == entries + Zeros(pad) + BlockBytes(ps.value);
    }
  }

  // --- The writers -----------------------------------------------------------------------------------

  /** A part of the tail: bytes of its own, or a slice of the mapped input. */
  datatype Part = Owned(data: seq<byte>) | Mapped(off: nat, len: nat) {
    predicate Fits(apk: seq<byte>) { Mapped? ==> off + len <= |apk| }

    /** The slice as the mapping shows it now. */
    function View(apk: seq<byte>): (r: seq<byte>)
      requires Fits(apk)
    {
      if Owned? then data else apk[off..off + len]
    }
  }

  function Joined(parts: seq<Part>, apk: seq<byte>): (r: seq<byte>)
    requires forall i :: 0 <= i < |parts| ==> parts[i].Fits(apk)
  {
    if parts == [] then [] else parts[0].View(apk) + Joined(parts[1..], apk)
  }

  /** `write_tail` to a file that is not the mapped one. */
  method WriteTail(dest: File, apk: seq<byte>, entriesEnd: nat, parts: seq<Part>)
    requires entriesEnd <= |dest.bytes| && forall i :: 0 <= i < |parts| ==> parts[i].Fits(apk)
    modifies dest
    ensures dest.bytes == WriteAt(old(dest.bytes), entriesEnd, Joined(parts, apk))
  {
    var off: nat := entriesEnd;
    assert WriteAt(dest.bytes, entriesEnd, []) == dest.bytes;
    for i := 0 to |parts|
      invariant off == entriesEnd + |Joined(parts[..i], apk)|
      invariant dest.bytes == WriteAt(old(dest.bytes), entriesEnd, Joined(parts[..i], apk))
    {
      var data := parts[i].View(apk);
      dest.WriteAllAt(off, data);
      JoinedSnoc(parts[..i], parts[i], apk);
      assert parts[..i + 1] == parts[..i] + [parts[i]];
      WriteAtTwice(old(dest.bytes), entriesEnd, Joined(parts[..i], apk), data);
      off := off + |data|;
    }
    assert parts[..|parts|] == parts;
  }

  lemma {:induction false} JoinedSnoc(parts: seq<Part>, p: Part, apk: seq<byte>)
    requires p.Fits(apk) && forall i :: 0 <= i < |parts| ==> parts[i].Fits(apk)
    ensures forall i :: 0 <= i < |parts + [p]| ==> (parts + [p])[i].Fits(apk)
    ensures Joined(parts + [p], apk) == Joined(parts, apk) + p.View(apk)
  {
    hide Part.View;
    if parts == [] {
      assert parts + [p] == [p] && [p][1..] == [];
    } else {
      var rest := parts[1..];
      JoinedSnoc(rest, p, apk);
      assert (parts + [p])[0] == parts[0] && (parts + [p])[1..] == rest + [p];
    }
  }

  /** `write_tail` to the mapped file itself: each part is read when its turn comes. */
  function WrittenThrough(f: seq<byte>, off: nat, parts: seq<Part>): (r: Option<seq<byte>>)
    decreases |parts|
  {
    if parts == [] then Some(f)
    else if !parts[0].Fits(f) then None
    else WrittenThrough(WriteAt(f, off, parts[0].View(f)), off + |parts[0].View(f)|, parts[1..])
  }

  method WriteTailInPlace(file: File, entriesEnd: nat, parts: seq<Part>)
    requires WrittenThrough(file.bytes, entriesEnd, parts).Some?
    modifies file
    ensures WrittenThrough(old(file.bytes), entriesEnd, parts) == Some(file.bytes)
  {
    hide WriteAt;
    var off: nat := entriesEnd;
    for i := 0 to |parts|
      invariant WrittenThrough(file.bytes, off, parts[i..]) == WrittenThrough(old(file.bytes), entriesEnd, parts)
    {
      assert parts[i..][0] == parts[i] && parts[i..][1..] == parts[i + 1..];
      var data := parts[i].View(file.bytes);
      file.WriteAllAt(off, data);
      off := off + |data|;
    }
  }

  /** Parts that own their bytes are safe to write through the mapping. */
  lemma {:induction false} OwnedParts(f: seq<byte>, off: nat, parts: seq<Part>)
    requires off <= |f| && forall i :: 0 <= i < |parts| ==> parts[i].Owned?
    ensures WrittenThrough(f, off, parts) == Some(WriteAt(f, off, Joined(parts, [])))
    decreases |parts|
  {
    if parts != [] {
      var d := parts[0].data;
      var rest := Joined(parts[1..], []);
      OwnedParts(WriteAt(f, off, d), off + |d|, parts[1..]);
      WriteAtTwice(f, off, d, rest);
    }
  }

  /** The tail with the directory still in the mapping: the block lands first, so what is written for
      the directory is what the mapping shows by then. */
  lemma MappedPart(f: seq<byte>, at: nat, block: seq<byte>, off: nat, len: nat, eocd: seq<byte>)
    requires at <= |f| && off + len <= |f|
    ensures var now := WriteAt(f, at, block)[off..off + len];
      WrittenThrough(f, at, [Owned(block), Mapped(off, len), Owned(eocd)]) == Some(WriteAt(f, at, block + now + eocd))
  {
    hide WriteAt;
    var parts := [Owned(block), Mapped(off, len), Owned(eocd)];
    assert parts[1..] == [Mapped(off, len), Owned(eocd)];
    var g := WriteAt(f, at, block);
    WrittenIs(f, at, block);
    var now := g[off..off + len];
    MappedThenOwned(g, at + |block|, off, len, eocd);
    assert WrittenThrough(f, at, parts) == WrittenThrough(g, at + |block|, parts[1..]);
    hide WrittenThrough;
    WriteAtTwice(f, at, block, now + eocd);
    assert block + (now + eocd) == block + now + eocd;
  }

  lemma MappedThenOwned(g: seq<byte>, at: nat, off: nat, len: nat, eocd: seq<byte>)
    requires at <= |g| && off + len <= |g|
    ensures WrittenThrough(g, at, [Mapped(off, len), Owned(eocd)]) == Some(WriteAt(g, at, g[off..off + len] + eocd))
  {
    var now := g[off..off + len];
    var (two, one) := ([Mapped(off, len), Owned(eocd)], [Owned(eocd)]);
    assert two[1..] == one && one[1..] == [];
    hide WriteAt;
    WriteAtTwice(g, at, now, eocd);
    var h := WriteAt(g, at, now);
    assert WrittenThrough(h, at + len, one) == Some(WriteAt(h, at + len, eocd));
  }

  /** So leaving it mapped does no harm exactly when the block puts no other byte on it: in particular
      when the block ends before it. */
  lemma MappedPartSafeIff(f: seq<byte>, at: nat, block: seq<byte>, off: nat, len: nat, eocd: seq<byte>)
    requires at <= |f| && off + len <= |f|
    ensures WrittenThrough(f, at, [Owned(block), Mapped(off, len), Owned(eocd)])
         == WrittenThrough(f, at, [Owned(block), Owned(f[off..off + len]), Owned(eocd)])
      <==> forall i :: off <= i < off + len && at <= i < at + |block| ==> block[i - at] == f[i]
  {
    var (was, now) := (f[off..off + len], WriteAt(f, at, block)[off..off + len]);
    MappedPart(f, at, block, off, len, eocd);
    OwnedParts(f, at, [Owned(block), Owned(was), Owned(eocd)]);
    ThreeParts(block, was, eocd);
    WrittenSlice(f, at, block, off, len);
    hide WrittenThrough, WriteAt, Joined;
    TailsDiffer(f, at, block, was, now, eocd);
  }

  lemma TailsDiffer(f: seq<byte>, at: nat, block: seq<byte>, was: seq<byte>, now: seq<byte>, eocd: seq<byte>)
    requires at <= |f| && |was| == |now|
    ensures WriteAt(f, at, block + now + eocd) == WriteAt(f, at, block + was + eocd) ==> now == was
  {
    if now != was {
      var (x, y) := (block + now + eocd, block + was + eocd);
      WrittenIs(f, at, x);
      WrittenIs(f, at, y);
      hide WriteAt;
      var k :| 0 <= k < |was| && now[k] != was[k];
      assert x[|block| + k] == now[k] && y[|block| + k] == was[k];
      assert WriteAt(f, at, x)[at + |block| + k] == now[k] && WriteAt(f, at, y)[at + |block| + k] == was[k];
    }
  }

  lemma WrittenSlice(f: seq<byte>, at: nat, data: seq<byte>, off: nat, len: nat)
    requires at <= |f| && off + len <= |f|
    ensures WriteAt(f, at, data)[off..off + len] == f[off..off + len]
      <==> forall i :: off <= i < off + len && at <= i < at + |data| ==> data[i - at] == f[i]
  {
    var g := WriteAt(f, at, data);
    WrittenIs(f, at, data);
    hide WriteAt;
    if g[off..off + len] == f[off..off + len] {
      forall i | off <= i < off + len && at <= i < at + |data| ensures data[i - at] == f[i] {
        assert g[off..off + len][i - off] == f[off..off + len][i - off];
      }
    }
  }

  lemma WrittenIs(f: seq<byte>, at: nat, data: seq<byte>)
    requires at <= |f|
    ensures var g := WriteAt(f, at, data);
      && |g| == (if at + |data| <= |f| then |f| else at + |data|)
      && forall i :: 0 <= i < |g| ==> g[i] == if at <= i < at + |data| then data[i - at] else f[i]
  {
  }

  /** A file without a signing block always comes to harm: its directory starts where the padded block
      is written, with a `P`, and no padded block starts with one. */
  lemma MappedPartClobbered(entries: seq<byte>, cd: seq<byte>, oldEocd: seq<byte>, ps: seq<Pair>, eocd: seq<byte>)
    requires cd != [] && cd[0] == 0x50
    ensures var (f, at) := (entries + cd + oldEocd, |entries|);
      var block := Zeros(PaddingBeforeBlock(at)) + BlockBytes(ps);
      && f[at..at + |cd|] == cd
      && WrittenThrough(f, at, [Owned(block), Mapped(at, |cd|), Owned(eocd)])
        != WrittenThrough(f, at, [Owned(block), Owned(cd), Owned(eocd)])
  {
    var (f, at) := (entries + cd + oldEocd, |entries|);
    var block := Zeros(PaddingBeforeBlock(at)) + BlockBytes(ps);
    assert f[at..at + |cd|] == cd;
    PaddedBlockStart(at, ps);
    hide WrittenThrough, BlockBytes;
    MappedPartSafeIff(f, at, block, at, |cd|, eocd);
    assert block[at - at] != f[at];
  }

  /** A padded block starts with padding, or with the low byte of its size field. */
  lemma PaddedBlockStart(at: nat, ps: seq<Pair>)
    ensures var block := Zeros(PaddingBeforeBlock(at)) + BlockBytes(ps);
      block != [] && block[0] == if PaddingBeforeBlock(at) > 0 then 0 else 0xf8
  {
    BlockStart(ps);
    hide BlockBytes;
  }

  lemma BlockStart(ps: seq<Pair>)
    ensures BlockBytes(ps)[0] == 0xf8
  {
    var size := |BlockBytes(ps)|;
    hide BlockSize, PairsBytes, AllPairs;
    assert BlockBytes(ps)[0] == PutU64(size - 8)[0];
    hide BlockBytes, ToLE;
    FirstBytes(size - 8, 8);
    LowByte(size);
  }

  lemma LowByte(size: nat)
    requires size >= 32 && size % PAGE == 0
    ensures (size - 8) % 256 == 0xf8
  {
    assert size == PAGE * (size / PAGE);
  }

  /** What the in-place writer writes: nothing but the block when new directory and EOCD are already
      where they belong, else all three parts, the directory copied out of the mapping first. */
  method InPlaceTail(f: seq<byte>, entriesEnd: nat, paddedBlock: seq<byte>, cd: Part, eocd: seq<byte>)
    returns (tail: seq<Part>)
    requires entriesEnd <= |f| && cd.Fits(f)
    ensures forall i :: 0 <= i < |tail| ==> tail[i].Owned?
    ensures Spliced(f, entriesEnd, Joined(tail, []), f[..entriesEnd] + paddedBlock + cd.View(f) + eocd)
  {
    hide Spliced, WriteAt;
    var cdBytes := cd.View(f);
    hide TailKept;
    if TailKept(f, entriesEnd, paddedBlock, cdBytes, eocd) {
      tail := [Owned(paddedBlock), Owned([]), Owned([])];
      ThreeParts(paddedBlock, [], []);
      OnlyBlock(f, entriesEnd, paddedBlock, cdBytes, eocd);
    } else {
      tail := [Owned(paddedBlock), if cd.Mapped? then Owned(cdBytes) else cd, Owned(eocd)];
      ThreeParts(paddedBlock, cdBytes, eocd);
      WholeTail(f, entriesEnd, paddedBlock + cdBytes + eocd);
      assert f[..entriesEnd] + (paddedBlock + cdBytes + eocd) == f[..entriesEnd] + paddedBlock + cdBytes + eocd;
    }
  }

  /** The in-place writer. Its source bytes may be slices of the very file it overwrites; the file
      ends as the untouched head followed by block, directory and EOCD as they were when the call
      began, whatever was behind the head. */
  method WriteInPlace(file: File, entriesEnd: nat, paddedBlock: seq<byte>, cd: Part, eocd: seq<byte>)
    requires entriesEnd <= |file.bytes| && cd.Fits(file.bytes)
    modifies file
    ensures file.bytes == old(file.bytes)[..entriesEnd] + paddedBlock + cd.View(old(file.bytes)) + eocd
  {
    hide WrittenThrough, SetLen, WriteAt;
    var fileLen := |file.bytes|;
    var newLen := entriesEnd + |paddedBlock| + |cd.View(file.bytes)| + |eocd|;
    var tail := InPlaceTail(file.bytes, entriesEnd, paddedBlock, cd, eocd);
    OwnedParts(file.bytes, entriesEnd, tail);
    WriteTailInPlace(file, entriesEnd, tail);
    if newLen != fileLen {
      file.SetLength(newLen);
    }
  }

  lemma ThreeParts(a: seq<byte>, b: seq<byte>, c: seq<byte>)
    ensures Joined([Owned(a), Owned(b), Owned(c)], []) == a + b + c
  {
    var parts := [Owned(a), Owned(b), Owned(c)];
    assert parts[1..] == [Owned(b), Owned(c)] && parts[1..][1..] == [Owned(c)] && parts[1..][1..][1..] == [];
    assert Joined([Owned(c)], []) == c;
    assert Joined([Owned(b), Owned(c)], []) == b + c;
  }

  /** Writing `data` at `at`, then setting the length if it is not right yet, gives `whole`. */
  ghost predicate Spliced(f: seq<byte>, at: nat, data: seq<byte>, whole: seq<byte>) {
    var written := WriteAt(f, at, data);
    SetLen(written, |whole|) == whole && (|whole| == |f| ==> written == whole)
  }

  /** The test for the short cut: the length stays, and directory and EOCD are what is there. */
  predicate TailKept(f: seq<byte>, at: nat, block: seq<byte>, cd: seq<byte>, eocd: seq<byte>)
    requires at <= |f|
  {
    var newLen := at + |block| + |cd| + |eocd|;
    var was := f[at..];
    var kept := |cd| + |eocd|;
    newLen == |f| && was[|was| - kept..|was| - |eocd|] == cd && was[|was| - |eocd|..] == eocd
  }

  lemma OnlyBlock(f: seq<byte>, at: nat, block: seq<byte>, cd: seq<byte>, eocd: seq<byte>)
    requires at <= |f| && TailKept(f, at, block, cd, eocd)
    ensures Spliced(f, at, block + [] + [], f[..at] + block + cd + eocd)
  {
    assert block + [] + [] == block;
    var was := f[at..];
    assert was[|block|..|block| + |cd|] == f[at + |block|..at + |block| + |cd|];
    assert was[|block| + |cd|..] == f[at + |block| + |cd|..];
    assert f[at + |block|..] == cd + eocd;
    var whole := f[..at] + block + cd + eocd;
    assert WriteAt(f, at, block) == f[..at] + block + f[at + |block|..] == whole;
    assert SetLen(whole, |whole|) == whole;
  }

  lemma WholeTail(f: seq<byte>, at: nat, data: seq<byte>)
    requires at <= |f|
    ensures Spliced(f, at, data, f[..at] + data)
    ensures at + |data| >= |f| ==> WriteAt(f, at, data) == f[..at] + data
  {
    var g := WriteAt(f, at, data);
    assert data == [] ==> f[..at] + data == f[..at];
    assert |g| >= at + |data| && g[..at + |data|] == f[..at] + data;
    assert SetLen(g, at + |data|) == g[..at + |data|];
  }

  /** The writer of the other two paths: the entries are already in `dest`, everything else follows,
      and the length is set when they came from a rewrite. */
  method WriteOut(dest: File, apk: seq<byte>, entriesEnd: nat, paddedBlock: seq<byte>, cd: Part, eocd: seq<byte>,
                  truncate: bool)
    requires |dest.bytes| == entriesEnd && cd.Fits(apk)
    modifies dest
    ensures dest.bytes == old(dest.bytes) + paddedBlock + cd.View(apk) + eocd
  {
    var parts := [Owned(paddedBlock), cd, Owned(eocd)];
    ghost var data := paddedBlock + cd.View(apk) + eocd;
    assert parts[1..] == [cd, Owned(eocd)] && parts[1..][1..] == [Owned(eocd)] && parts[1..][1..][1..] == [];
    assert Joined(parts[1..][1..], apk) == eocd;
    assert Joined(parts, apk) == data;
    WriteTail(dest, apk, entriesEnd, parts);
    WholeTail(old(dest.bytes), entriesEnd, data);
    if truncate {
      dest.SetLength(entriesEnd + |paddedBlock| + |cd.View(apk)| + |eocd|);
    }
    assert old(dest.bytes)[..entriesEnd] == old(dest.bytes);
  }
}
