/** A verifier's own arithmetic, as poc/verify_v2_digest.py does it: the chunk loop, the two hash
    prefixes and the patched EOCD, with no function shared with the signer; and that the signer's content
    digest is what it recomputes. */
module Verifier {
  import opened Bytes
  import opened Hashing
  import opened Digest
  import opened Zip

  /** struct.pack("<I", n). */
  function Le32(n: nat): (r: seq<byte>)
    ensures |r| == 4
  {
    [n % 256, n / 256 % 256, n / 65536 % 256, n / 16777216 % 256]
  }

  /** The slices s[o:o+(1<<20)] for o in range(o, len(s), 1<<20). */
  function ChunksFrom(s: seq<byte>, o: nat): (r: seq<seq<byte>>)
    decreases |s| - o
  {
    if o >= |s| then []
    else [s[o..if o + 1048576 < |s| then o + 1048576 else |s|]] + ChunksFrom(s, o + 1048576)
  }

  function Chunked(sections: seq<seq<byte>>): (r: seq<seq<byte>>) {
    if sections == [] then [] else ChunksFrom(sections[0], 0) + Chunked(sections[1..])
  }

  /** Each chunk hashed behind a5 and its length, the digests joined. */
  function PerChunk(h: seq<byte> -> seq<byte>, chunks: seq<seq<byte>>): (r: seq<byte>) {
    if chunks == [] then [] else h([0xa5] + Le32(|chunks[0]|) + chunks[0]) + PerChunk(h, chunks[1..])
  }

  /** They are hashed behind 5a and their number. */
  function Recomputed(h: seq<byte> -> seq<byte>, sections: seq<seq<byte>>): (r: seq<byte>) {
    var chunks := Chunked(sections);
    h([0x5a] + Le32(|chunks|) + PerChunk(h, chunks))
  }

  /** The EOCD with the directory's offset replaced. */
  function WithOffset(eocd: seq<byte>, off: nat): (r: seq<byte>)
    requires |eocd| >= 20
  {
    eocd[..16] + Le32(off) + eocd[20..]
  }

  // --- The signer computes the same ------------------------------------------------------------------

  lemma Le32Is(n: nat)
    ensures PutU32(n) == Le32(n)
  {
    StoredBytes(n);
    hide ToLE;
    Quotients(n);
  }

  lemma Quotients(n: nat)
    ensures n / 256 / 256 == n / 65536 && n / 256 / 256 / 256 == n / 16777216
  {
    var (a, b, c) := (n / 256, n / 256 / 256, n / 256 / 256 / 256);
    assert n == 65536 * b + (256 * (a % 256) + n % 256);
    ModUnique(n, 65536, b, 256 * (a % 256) + n % 256);
    assert n == 16777216 * c + (65536 * (b % 256) + 256 * (a % 256) + n % 256);
    ModUnique(n, 16777216, c, 65536 * (b % 256) + 256 * (a % 256) + n % 256);
  }

  lemma {:induction false} SameChunks(s: seq<byte>, o: nat)
    requires o <= |s|
    ensures ChunksFrom(s, o) == Chunks(s[o..])
    decreases |s| - o
  {
    var t := s[o..];
    if |t| > 1048576 {
      SameChunks(s, o + 1048576);
      assert t[1048576..] == s[o + 1048576..] && t[..1048576] == s[o..o + 1048576];
    } else if t != [] {
      assert ChunksFrom(s, o + 1048576) == [];
      assert s[o..|s|] == t;
    }
  }

  lemma {:induction false} SameSections(sections: seq<seq<byte>>)
    ensures Chunked(sections) == AllChunks(sections)
  {
    if sections != [] {
      SameChunks(sections[0], 0);
      assert sections[0][0..] == sections[0];
      SameSections(sections[1..]);
    }
  }

  lemma {:induction false} SamePerChunk(alg: Algorithm, chunks: seq<seq<byte>>)
    ensures PerChunk(alg.h, chunks) == ChunkDigests(alg, chunks)
  {
    if chunks != [] {
      Le32Is(|chunks[0]|);
      SamePerChunk(alg, chunks[1..]);
    }
  }

  /** The content digest is what a verifier recomputes from the sections. */
  lemma DigestIsRecomputed(alg: Algorithm, sections: seq<seq<byte>>)
    ensures ContentDigest(alg, sections) == Recomputed(alg.h, sections)
  {
    hide Le32;
    SameSections(sections);
    SamePerChunk(alg, AllChunks(sections));
    Le32Is(|AllChunks(sections)|);
  }

  lemma WithOffsetIs(eocd: seq<byte>, off: nat)
    requires |eocd| >= EOCD_MIN_LEN
    ensures WithOffset(eocd, off) == SetCdOffset(eocd, off)
  {
    Le32Is(off);
    hide Le32;
  }
}
