/** src/digest.rs: the chunked content digest of APK Signature Scheme v2/v3, its sources, and the
    two-lane hashing of chunks. The parallel protocol is in DigestWorkers. */
module Digest {
  import opened Wrappers
  import opened Bytes
  import opened Hashing
  import Fips180
  import Sha256Engine

  const CHUNK: nat := 0x10_0000

  // --- The definition (header comment of src/digest.rs) ---------------------------------------

  /** 1 MiB chunks of a section; an empty section has none. */
  function Chunks(s: seq<byte>): (r: seq<seq<byte>>)
    decreases |s|
  {
    if s == [] then []
    else if |s| <= CHUNK then [s]
    else [s[..CHUNK]] + Chunks(s[CHUNK..])
  }

  function AllChunks(sections: seq<seq<byte>>): (r: seq<seq<byte>>) {
    if sections == [] then [] else Chunks(sections[0]) + AllChunks(sections[1..])
  }

  function ChunkDigest(alg: Algorithm, c: seq<byte>): (r: seq<byte>) {
    alg.h([0xa5] + PutU32(|c|) + c)
  }

  function ChunkDigests(alg: Algorithm, chunks: seq<seq<byte>>): (r: seq<byte>) {
    if chunks == [] then [] else ChunkDigest(alg, chunks[0]) + ChunkDigests(alg, chunks[1..])
  }

  function TopDigest(alg: Algorithm, count: nat, digests: seq<byte>): (r: seq<byte>) {
    alg.h([0x5a] + PutU32(count) + digests)
  }

  function ContentDigest(alg: Algorithm, sections: seq<seq<byte>>): (r: seq<byte>) {
    var chunks := AllChunks(sections);
    TopDigest(alg, |chunks|, ChunkDigests(alg, chunks))
  }

  function Min(a: nat, b: nat): (r: nat) { if a < b then a else b }

  function Max(a: nat, b: nat): (r: nat) { if a < b then b else a }

  function ChunkCount(len: nat): (r: nat) { (len + CHUNK - 1) / CHUNK }

  lemma {:induction false} ChunksAreSlices(s: seq<byte>)
    ensures |Chunks(s)| == ChunkCount(|s|)
    ensures forall k {:trigger Chunks(s)[k]} :: 0 <= k < |Chunks(s)| ==>
      k * CHUNK < |s| && Chunks(s)[k] == s[k * CHUNK..Min((k + 1) * CHUNK, |s|)]
    decreases |s|
  {
    if |s| > CHUNK {
      var t := s[CHUNK..];
      ChunksAreSlices(t);
      forall k | 0 <= k < |Chunks(s)|
        ensures k * CHUNK < |s| && Chunks(s)[k] == s[k * CHUNK..Min((k + 1) * CHUNK, |s|)]
      {
        if k > 0 {
          assert Chunks(s)[k] == Chunks(t)[k - 1];
        }
      }
    }
  }

  lemma {:induction false} AllChunksConcat(x: seq<seq<byte>>, y: seq<seq<byte>>)
    ensures AllChunks(x + y) == AllChunks(x) + AllChunks(y)
  {
    hide Chunks;
    if x == [] {
      assert x + y == y;
    } else {
      AllChunksConcat(x[1..], y);
      assert (x + y)[1..] == x[1..] + y;
    }
  }

  lemma {:induction false} ChunkDigestsConcat(alg: Algorithm, x: seq<seq<byte>>, y: seq<seq<byte>>)
    ensures ChunkDigests(alg, x + y) == ChunkDigests(alg, x) + ChunkDigests(alg, y)
  {
    if x == [] {
      assert x + y == y;
    } else {
      ChunkDigestsConcat(alg, x[1..], y);
      assert (x + y)[1..] == x[1..] + y;
    }
  }

  // --- Source ----------------------------------------------------------------------------------

  /** One digested section: `data` then `tail`; `fileOff` is where `data` starts in the APK. */
  datatype Source = Source(fileOff: Option<nat>, data: seq<byte>, tail: seq<byte>) {
    function Len(): (r: nat) { |data| + |tail| }

    function Count(): (r: nat) { ChunkCount(Len()) }

    /** Chunk `k`: its part of `data`, then its part of `tail`. */
    function Chunk(k: nat): (r: (seq<byte>, seq<byte>))
      requires k < Count()
    {
      var start := k * CHUNK;
      var end := Min(k * CHUNK + CHUNK, Len());
      var d := |data|;
      (data[Min(start, d)..Min(end, d)], tail[SatSub(start, d)..SatSub(end, d)])
    }
  }

  function SatSub(a: nat, b: nat): (r: nat) { if a < b then 0 else a - b }

  lemma SourceChunk(src: Source, k: nat)
    requires k < src.Count()
    ensures |Chunks(src.data + src.tail)| == src.Count()
    ensures src.Chunk(k).0 + src.Chunk(k).1 == Chunks(src.data + src.tail)[k]
  {
    ChunksAreSlices(src.data + src.tail);
  }

  function Sections(sources: seq<Source>): (r: seq<seq<byte>>)
    ensures |r| == |sources|
  {
    seq(|sources|, i requires 0 <= i < |sources| => sources[i].data + sources[i].tail)
  }

  /** The chunks in the order `claim` hands them out, each as its two parts. */
  function AllParts(sources: seq<Source>): (r: seq<(seq<byte>, seq<byte>)>) {
    if sources == [] then [] else Parts(sources[0]) + AllParts(sources[1..])
  }

  function Parts(src: Source): (r: seq<(seq<byte>, seq<byte>)>)
    ensures |r| == src.Count()
  {
    seq(src.Count(), k requires 0 <= k < src.Count() => src.Chunk(k))
  }

  /** The loop of `claim` that turns a global index into a source and a chunk of it. */
  method Locate(sources: seq<Source>, k: nat) returns (si: nat, idx: nat)
    requires k < |AllParts(sources)|
    ensures si < |sources| && idx < sources[si].Count()
    ensures sources[si].Chunk(idx) == AllParts(sources)[k]
  {
    idx, si := k, 0;
    assert sources[0..] == sources;
    while idx >= sources[si].Count()
      invariant si < |sources|
      invariant idx < |AllParts(sources[si..])|
      invariant AllParts(sources[si..])[idx] == AllParts(sources)[k]
      decreases |sources| - si
    {
      assert sources[si..][1..] == sources[si + 1..];
      idx := idx - sources[si].Count();
      si := si + 1;
    }
  }

  function Joined(parts: seq<(seq<byte>, seq<byte>)>): (r: seq<seq<byte>>)
    ensures |r| == |parts|
  {
    seq(|parts|, k requires 0 <= k < |parts| => parts[k].0 + parts[k].1)
  }

  /** What the workers are given is, part by part, the chunks of the definition. */
  lemma {:induction false} PartsAreChunks(sources: seq<Source>)
    ensures Joined(AllParts(sources)) == AllChunks(Sections(sources))
  {
    if sources != [] {
      PartsAreChunks(sources[1..]);
      var (s, rest) := (sources[0], sources[1..]);
      var whole := s.data + s.tail;
      ChunksAreSlices(whole);
      forall k | 0 <= k < s.Count()
        ensures Parts(s)[k].0 + Parts(s)[k].1 == Chunks(whole)[k]
      {
        SourceChunk(s, k);
      }
      assert Joined(AllParts(sources)) == Chunks(whole) + Joined(AllParts(rest));
      assert Sections(sources)[0] == whole && Sections(sources)[1..] == Sections(rest);
    }
  }

  // --- Hashing one chunk ---------------------------------------------------------------------

  /** `hash_chunk`: an incremental context fed the prefix and each part. */
  method HashChunk(alg: Algorithm, parts: seq<seq<byte>>) returns (d: seq<byte>)
    ensures d == ChunkDigest(alg, Join(parts))
  {
    var len := 0;
    for i := 0 to |parts|
      invariant len == |Join(parts[..i])|
    {
      JoinSnoc(parts, i);
      len := len + |parts[i]|;
    }
    var ctx := [0xa5] + PutU32(len);
    assert parts[..|parts|] == parts;
    for i := 0 to |parts|
      invariant ctx == [0xa5] + PutU32(len) + Join(parts[..i])
    {
      JoinSnoc(parts, i);
      ctx := ctx + parts[i];
    }
    d := alg.h(ctx);
  }

  function Join(parts: seq<seq<byte>>): (r: seq<byte>) {
    if parts == [] then [] else Join(parts[..|parts| - 1]) + parts[|parts| - 1]
  }

  lemma JoinSnoc(parts: seq<seq<byte>>, i: nat)
    requires i < |parts|
    ensures Join(parts[..i + 1]) == Join(parts[..i]) + parts[i]
  {
    assert parts[..i + 1][..i] == parts[..i];
  }

  lemma TwoParts(a: seq<byte>, b: seq<byte>)
    ensures Join([a, b]) == a + b
  {
    assert [a, b][..1] == [a] && [a][..0] == [];
    JoinSnoc([a, b], 1);
    JoinSnoc([a, b], 0);
    assert [a, b][..2] == [a, b] && [a, b][..0] == [];
  }

  /** `chunk_digests_of`: an in-memory section, chunk by chunk. */
  method ChunkDigestsOf(alg: Algorithm, data: seq<byte>) returns (n: nat, out: seq<byte>)
    ensures n == |Chunks(data)| && out == ChunkDigests(alg, Chunks(data))
  {
    n, out := 0, [];
    var rest := data;
    while rest != []
      invariant |Chunks(data)| == n + |Chunks(rest)|
      invariant ChunkDigests(alg, Chunks(data)) == out + ChunkDigests(alg, Chunks(rest))
      decreases |rest|
    {
      var c := rest[..Min(CHUNK, |rest|)];
      var d := HashChunk(alg, [c]);
      assert Join([c]) == c by { JoinSnoc([c], 0); assert [c][..1] == [c]; }
      out := out + d;
      n := n + 1;
      ghost var before, all := Chunks(rest), rest;
      rest := rest[|c|..];
      if |c| == |all| { assert c == all; }
      assert before == [c] + Chunks(rest);
      assert before[1..] == Chunks(rest);
    }
  }

  /** The value of a `Lane`: which chunk, what its hasher has absorbed, what is still to come. */
  datatype LaneV = LaneV(k: nat, absorbed: seq<byte>, p0: seq<byte>, p1: seq<byte>) {
    function Left(): (r: nat) { |p0| + |p1| }

    /** Whole blocks can go straight to the kernel. */
    predicate Ready() { |absorbed| % 64 == 0 && |p0| >= 64 }

    function Take(n: nat): (r: LaneV)
      requires n * 64 <= |p0|
    {
      LaneV(k, absorbed + p0[..n * 64], p0[n * 64..], p1)
    }
  }

  function ChunkPrefix(len: nat): (r: seq<byte>) { [0xa5] + PutU32(len) }

  function NewLane(k: nat, parts: (seq<byte>, seq<byte>)): (r: LaneV) {
    LaneV(k, ChunkPrefix(|parts.0| + |parts.1|), parts.0, parts.1)
  }

  /** What `settle` leaves, and the number of whole blocks it reports. */
  function Settle(l: LaneV): (r: (LaneV, nat))
    decreases |l.p0| + |l.p1|, |l.p1|
  {
    if l.p0 == [] then
      if l.p1 == [] then (l, 0) else Settle(l.(p0 := l.p1, p1 := []))
    else
      var gap := Gap(l);
      if gap == 0 && |l.p0| >= 64 then (l, |l.p0| / 64)
      else
        var take := if gap == 0 then |l.p0| else Min(gap, |l.p0|);
        Settle(l.(absorbed := l.absorbed + l.p0[..take], p0 := l.p0[take..]))
  }

  /** `settle` loses no byte, and reports 0 exactly when everything is absorbed; otherwise the
      lane stands at a block boundary with that many whole blocks next. */
  lemma {:induction false} SettleKeepsBytes(l: LaneV)
    ensures var (m, n) := Settle(l);
      && m.k == l.k && m.absorbed + m.p0 + m.p1 == l.absorbed + l.p0 + l.p1
      && m.Left() <= l.Left()
      && (n == 0 <==> m.p0 == [] && m.p1 == [])
      && (n > 0 ==> m.Ready() && n == |m.p0| / 64)
    decreases |l.p0| + |l.p1|, |l.p1|
  {
    if l.p0 == [] {
      if l.p1 != [] {
        SettleKeepsBytes(l.(p0 := l.p1, p1 := []));
      }
    } else {
      var gap := Gap(l);
      if gap != 0 || |l.p0| < 64 {
        var take := if gap == 0 then |l.p0| else Min(gap, |l.p0|);
        MovedOver(l.absorbed, l.p0, take);
        SettleKeepsBytes(l.(absorbed := l.absorbed + l.p0[..take], p0 := l.p0[take..]));
      }
    }
  }

  /** The bytes missing from the block in progress. */
  function Gap(l: LaneV): (r: nat)
    ensures r < 64 && (r == 0 <==> |l.absorbed| % 64 == 0)
  {
    (64 - |l.absorbed| % 64) % 64
  }

  lemma SettleEnds(l: LaneV)
    ensures l.p0 == [] ==> Settle(l) == if l.p1 == [] then (l, 0) else Settle(l.(p0 := l.p1, p1 := []))
    ensures Gap(l) == 0 && |l.p0| >= 64 ==> Settle(l) == (l, |l.p0| / 64)
  {
  }

  lemma SettleAfter(l: LaneV, take: nat)
    requires l.p0 != [] && (Gap(l) != 0 || |l.p0| < 64) && take == if Gap(l) == 0 then |l.p0| else Min(Gap(l), |l.p0|)
    ensures Settle(l) == Settle(l.(absorbed := l.absorbed + l.p0[..take], p0 := l.p0[take..]))
  {
  }

  lemma MovedOver(a: seq<byte>, b: seq<byte>, n: nat)
    requires n <= |b|
    ensures a + b[..n] + b[n..] == a + b
  {
  }

  /** A hasher that has absorbed `prefix`. */
  method Started(prefix: seq<byte>) returns (h: Sha256Engine.Sha256)
    ensures h.Valid() && h.msg == prefix && fresh(h) && fresh(h.state) && fresh(h.buf)
  {
    hide Fips180.CompressAll, Sha256Engine.StateOf;
    h := new Sha256Engine.Sha256();
    h.Update(prefix);
    assert [] + prefix == prefix;
  }

  /** A chunk in flight on the SHA instructions. */
  class Lane {
    const k: nat
    const h: Sha256Engine.Sha256
    var p0: seq<byte>
    var p1: seq<byte>

    ghost function Repr(): (r: set<object>) { {this, h, h.state, h.buf} }

    ghost predicate Valid()
      reads this, h, h.state, h.buf
    {
      h.Valid()
    }

    ghost function Value(): (r: LaneV)
      reads this, h
    {
      LaneV(k, h.msg, p0, p1)
    }

    constructor (k: nat, parts: (seq<byte>, seq<byte>))
      ensures Valid() && fresh(Repr()) && Value() == NewLane(k, parts)
    {
      hide ChunkPrefix, Sha256Engine.Sha256.Valid;
      this.k := k;
      var hasher := Started(ChunkPrefix(|parts.0| + |parts.1|));
      this.h := hasher;
      p0, p1 := parts.0, parts.1;
    }

    method SettleLane() returns (n: nat)
      requires Valid()
      modifies Repr()
      ensures Valid() && (Value(), n) == Settle(old(Value()))
    {
      hide Fips180.CompressAll, Sha256Engine.StateOf, ToLE, Settle;
      while true
        invariant Valid() && Settle(Value()) == Settle(old(Value()))
        decreases |p0| + |p1|, |p1|
      {
        SettleEnds(Value());
        if p0 == [] {
          if p1 == [] {
            return 0;
          }
          p0, p1 := p1, [];
          continue;
        }
        ghost var before := Value();
        var gap := h.Gap();
        var take := |p0|;
        if gap == 0 {
          if |p0| >= 64 {
            return |p0| / 64;
          }
        } else {
          take := Min(gap, |p0|);
        }
        h.Update(p0[..take]);
        p0 := p0[take..];
        assert Value() == before.(absorbed := before.absorbed + before.p0[..take], p0 := before.p0[take..]);
        SettleAfter(before, take);
      }
    }

    method TakeBlocks(n: nat) returns (blocks: seq<byte>)
      requires Valid() && n * 64 <= |p0|
      modifies this
      ensures Valid() && blocks == old(p0)[..n * 64] && p0 == old(p0)[n * 64..] && p1 == old(p1)
    {
      blocks, p0 := p0[..n * 64], p0[n * 64..];
    }
  }

  /** The `[Some(a), Some(b)]` arm: both lanes advance by the shorter one's whole blocks. */
  method FeedTwo(a: Lane, b: Lane)
    requires a.Valid() && b.Valid() && a.Repr() !! b.Repr()
    requires a.Value().Ready() && b.Value().Ready()
    modifies a.Repr(), b.Repr()
    ensures a.Valid() && b.Valid()
    ensures var n := Min(|old(a.p0)| / 64, |old(b.p0)| / 64);
      n >= 1 && a.Value() == old(a.Value()).Take(n) && b.Value() == old(b.Value()).Take(n)
  {
    hide Fips180.CompressAll, Sha256Engine.StateOf;
    assert {a.h, a.h.state, a.h.buf, b.h, b.h.state, b.h.buf} <= a.Repr() + b.Repr();
    assert a.h in a.Repr() && a.h.state in a.Repr() && a.h.buf in a.Repr();
    assert b.h in b.Repr() && b.h.state in b.Repr() && b.h.buf in b.Repr();
    var n := Min(|a.p0| / 64, |b.p0| / 64);
    var da := a.TakeBlocks(n);
    var db := b.TakeBlocks(n);
    Sha256Engine.Update2(a.h, b.h, da, db);
  }

  /** The one-lane arm. */
  method FeedOne(a: Lane)
    requires a.Valid() && a.Value().Ready()
    modifies a.Repr()
    ensures a.Valid()
    ensures a.Value() == old(a.Value()).Take(|old(a.p0)| / 64)
  {
    var n := |a.p0| / 64;
    var d := a.TakeBlocks(n);
    a.h.Update(d);
  }
}
