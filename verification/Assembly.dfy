/** `Chunker::assemble_and_hash` of src/align.rs: any 1 MiB window of the rewritten section, built
    from the plan into a recycled buffer. */
module Assembly {
  import opened Wrappers
  import opened Bytes
  import opened Hashing
  import opened Digest
  import opened Planner
  import opened Idempotence
  import opened Partition
  import Sigblock

  const SRC_WINDOW: nat := 0x20_0000
  const NO_OFFSET: nat := 0xffff_ffff_ffff_ffff  // u64::MAX

  /** `x` brought into [lo, hi]. */
  function Clamp(x: nat, lo: nat, hi: nat): (r: nat)
    requires lo <= hi
  {
    Min(Max(x, lo), hi)
  }

  // --- Plans and the sequential output ---------------------------------------------------------

  function PlanBytes(input: seq<byte>, p: Plan): (r: seq<byte>)
    requires p.srcOff + p.srcLen <= |input|
  {
    p.hdr + input[p.srcOff..p.srcOff + p.srcLen]
  }

  /** The plans tile `out` from left to right, each holding its own bytes. */
  ghost predicate Tiled(input: seq<byte>, plans: seq<Plan>, from: nat, out: seq<byte>) {
    if plans == [] then from == |out|
    else
      && plans[0].newOff == from && from < plans[0].OutEnd() <= |out|
      && plans[0].srcOff + plans[0].srcLen <= |input|
      && out[from..plans[0].OutEnd()] == PlanBytes(input, plans[0])
      && Tiled(input, plans[1..], plans[0].OutEnd(), out)
  }

  lemma {:induction false} TiledAt(input: seq<byte>, plans: seq<Plan>, from: nat, out: seq<byte>, i: nat)
    requires Tiled(input, plans, from, out) && i <= |plans|
    ensures i < |plans| ==>
      && from <= plans[i].newOff < plans[i].OutEnd() <= |out| && plans[i].srcOff + plans[i].srcLen <= |input|
      && out[plans[i].newOff..plans[i].OutEnd()] == PlanBytes(input, plans[i])
    ensures i > 0 && i < |plans| ==> plans[i - 1].OutEnd() == plans[i].newOff
    ensures i == |plans| ==> (if i == 0 then from else plans[i - 1].OutEnd()) == |out|
    ensures i == 0 && plans != [] ==> plans[0].newOff == from
    decreases |plans|
  {
    if i > 0 {
      TiledAt(input, plans[1..], plans[0].OutEnd(), out, i - 1);
    }
  }

  /** Ends and starts grow along the plan: both `partition_point` predicates are monotone. */
  lemma {:induction false} TiledOrder(input: seq<byte>, plans: seq<Plan>, from: nat, out: seq<byte>, i: nat, j: nat)
    requires Tiled(input, plans, from, out) && i < j < |plans|
    ensures plans[i].OutEnd() <= plans[j].newOff
    decreases j - i
  {
    TiledAt(input, plans, from, out, j);
    if i + 1 < j {
      TiledOrder(input, plans, from, out, i, j - 1);
      TiledAt(input, plans, from, out, j - 1);
    }
  }

  /** A sequence that starts with `b` at `from`. */
  lemma HeadAndRest(out: seq<byte>, from: nat, b: seq<byte>, rest: seq<byte>)
    requires from <= |out| && out[from..] == b + rest
    ensures from + |b| <= |out| && out[from..from + |b|] == b && out[from + |b|..] == rest
  {
    assert out[from..][..|b|] == out[from..from + |b|];
    assert out[from..][|b|..] == out[from + |b|..];
  }

  /** The planner's plans tile its sequential output. */
  lemma {:induction false} PlansTile(input: seq<byte>, plans: seq<Plan>, segs: seq<Segment>, items: seq<Item>,
                                     from: nat, out: seq<byte>)
    requires PlansMatch(plans, segs, items) && Inside(input, segs)
    requires TilesOutput(segs, from, from + OutLen(segs))
    requires forall i :: 0 <= i < |segs| && !segs[i].Removed? ==> segs[i].OutLen() > 0
    requires from <= |out| && out[from..] == Render(input, segs)
    ensures Tiled(input, plans, from, out)
    decreases |segs|
  {
    hide SegmentBytes, PlanIs, PlanBytes;
    if segs == [] {
    } else {
      var (s, rest) := (segs[0], segs[1..]);
      var b := SegmentBytes(input, s);
      SegmentLength(input, s);
      HeadAndRest(out, from, b, Render(input, rest));
      if s.Removed? {
        PlansTile(input, plans, rest, items, from, out);
      } else {
        PlansTile(input, plans[1..], rest, items, from + |b|, out);
        PlanOfSegment(input, plans[0], s, items);
      }
    }
  }

  lemma SegmentLength(input: seq<byte>, s: Segment)
    requires s.Src() + s.SrcLen() <= |input|
    ensures |SegmentBytes(input, s)| == s.OutLen()
  {
  }

  lemma PlanOfSegment(input: seq<byte>, p: Plan, s: Segment, items: seq<Item>)
    requires PlanIs(p, s, items) && s.Src() + s.SrcLen() <= |input|
    ensures p.newOff == s.newOff && p.OutEnd() == s.newOff + s.OutLen()
    ensures p.srcOff + p.srcLen <= |input| && PlanBytes(input, p) == SegmentBytes(input, s)
  {
  }

  // --- Buffers ---------------------------------------------------------------------------------------

  /** `read_exact_at`; a flaky file may fail at any time. */
  method ReadExactAt(input: seq<byte>, flaky: bool, buf: array<byte>, at: nat, n: nat, off: nat) returns (ok: bool)
    requires at + n <= buf.Length && off + n <= |input|
    modifies buf
    ensures buf[..] == old(buf[..at]) + (if ok then input[off..off + n] else old(buf[at..at + n])) + old(buf[at + n..])
    ensures !flaky ==> ok
  {
    var fails: bool := *;
    if flaky && fails {
      assert buf[..] == buf[..at] + buf[at..at + n] + buf[at + n..];
      return false;
    }
    CopyInto(buf, at, input[off..off + n]);
    ok := true;
  }

  // --- One chunk -------------------------------------------------------------------------------------

  datatype Chunker = Chunker(plans: seq<Plan>, newEnd: nat, paddedEnd: nat) {
    function Start(k: nat): (r: nat) { k * CHUNK }
    function End(k: nat): (r: nat) { Min(Start(k) + CHUNK, paddedEnd) }
    function RealEnd(k: nat): (r: nat) { Min(End(k), newEnd) }
    function Real(k: nat): (r: nat) { SatSub(RealEnd(k), Start(k)) }
    function ZeroTail(k: nat): (r: nat) { SatSub(SatSub(End(k), Start(k)), Real(k)) }
  }

  /** `buf` holds the output from `cs` up to where `x` falls in the chunk, and is untouched after
      the chunk's end. */
  ghost predicate Filled(buf: seq<byte>, before: seq<byte>, out: seq<byte>, cs: nat, realEnd: nat, x: nat)
    requires cs <= realEnd <= |out| && |buf| == |before| && realEnd - cs <= |buf|
  {
    && buf[..Clamp(x, cs, realEnd) - cs] == out[cs..Clamp(x, cs, realEnd)]
    && buf[realEnd - cs..] == before[realEnd - cs..]
  }

  lemma FillStep(buf: seq<byte>, buf': seq<byte>, before: seq<byte>, out: seq<byte>, cs: nat, realEnd: nat, p0: nat,
                 p1: nat, a: nat, b: nat, part: seq<byte>)
    requires a == Max(p0, cs) && b == Min(p1, realEnd) && cs <= realEnd <= |out| && |buf| == |before|
      && realEnd - cs <= |buf|
    requires p0 <= p1 && Filled(buf, before, out, cs, realEnd, p0)
    requires a < b && part == out[a..b] && buf' == buf[..a - cs] + part + buf[b - cs..]
    ensures |buf'| == |before| && Filled(buf', before, out, cs, realEnd, p1)
  {
    assert Clamp(p0, cs, realEnd) == a && Clamp(p1, cs, realEnd) == b;
    assert buf'[..b - cs] == buf[..a - cs] + part;
    assert out[cs..b] == out[cs..a] + out[a..b];
    var e := realEnd - cs;
    assert buf'[e..] == buf[b - cs..][e - (b - cs)..] && buf[e..] == buf[b - cs..][e - (b - cs)..];
  }

  /** A stretch that lies outside the chunk. */
  lemma FillSkip(buf: seq<byte>, before: seq<byte>, out: seq<byte>, cs: nat, realEnd: nat, p0: nat, p1: nat)
    requires cs <= realEnd <= |out| && |buf| == |before| && realEnd - cs <= |buf|
    requires p0 <= p1 && Filled(buf, before, out, cs, realEnd, p0) && Max(p0, cs) >= Min(p1, realEnd)
    ensures Filled(buf, before, out, cs, realEnd, p1)
  {
    assert Clamp(p0, cs, realEnd) == Clamp(p1, cs, realEnd);
  }

  /** Header part of one plan. */
  method PlaceHeader(p: Plan, buf: array<byte>, cs: nat, realEnd: nat, ghost before: seq<byte>, ghost out: seq<byte>)
    requires cs <= realEnd <= |out| && buf.Length == |before| && realEnd - cs <= buf.Length
    requires p.newOff + |p.hdr| <= |out| && out[p.newOff..p.newOff + |p.hdr|] == p.hdr
    requires Filled(buf[..], before, out, cs, realEnd, p.newOff)
    modifies buf
    ensures Filled(buf[..], before, out, cs, realEnd, p.newOff + |p.hdr|)
  {
    hide Filled;
    ghost var cur := buf[..];
    var h0 := p.newOff;
    var h1 := h0 + |p.hdr|;
    var (a, b) := (Max(h0, cs), Min(h1, realEnd));
    if a < b {
      SubSlice(out, h0, |p.hdr|, a - h0, b - h0);
      CopyInto(buf, a - cs, p.hdr[a - h0..b - h0]);
      FillStep(cur, buf[..], before, out, cs, realEnd, h0, h1, a, b, p.hdr[a - h0..b - h0]);
    } else {
      FillSkip(cur, before, out, cs, realEnd, h0, h1);
    }
  }

  /** `n` source bytes from offset `src`: out of the window when one was read, else straight from
      the file. Both ways put the same bytes in place. */
  method CopySource(input: seq<byte>, flaky: bool, src: nat, n: nat, buf: array<byte>, at: nat, srcBuf: array<byte>,
                    window: Option<nat>, ghost winLen: nat)
    returns (ok: bool)
    requires buf != srcBuf && src + n <= |input| && at + n <= buf.Length
    requires window.Some? ==>
      && winLen <= srcBuf.Length && window.value + winLen <= |input|
      && srcBuf[..winLen] == input[window.value..window.value + winLen]
      && window.value <= src && src + n <= window.value + winLen
    modifies buf
    ensures ok ==> buf[..] == old(buf[..at]) + input[src..src + n] + old(buf[at + n..])
    ensures !flaky ==> ok
  {
    if window.Some? {
      var w := window.value;
      SubSlice(input, w, winLen, src - w, src - w + n);
      SubSlice(srcBuf[..], 0, winLen, src - w, src - w + n);
      assert srcBuf[..][0..winLen] == srcBuf[..winLen];
      CopyInto(buf, at, srcBuf[src - w..src - w + n]);
      ok := true;
    } else {
      ok := ReadExactAt(input, flaky, buf, at, n, src);
    }
  }

  lemma DataIsOutput(input: seq<byte>, p: Plan, out: seq<byte>, a: nat, b: nat)
    requires p.srcOff + p.srcLen <= |input| && p.OutEnd() <= |out| && p.newOff + |p.hdr| <= a <= b <= p.OutEnd()
    requires out[p.newOff + |p.hdr|..p.OutEnd()] == input[p.srcOff..p.srcOff + p.srcLen]
    ensures var src := p.srcOff + (a - (p.newOff + |p.hdr|)); input[src..src + (b - a)] == out[a..b]
  {
    var d0 := p.newOff + |p.hdr|;
    SubSlice(out, d0, p.srcLen, a - d0, b - d0);
    SubSlice(input, p.srcOff, p.srcLen, a - d0, b - d0);
  }

  /** Data part of one plan. */
  method PlaceData(input: seq<byte>, flaky: bool, p: Plan, buf: array<byte>, srcBuf: array<byte>, window: Option<nat>,
                   ghost winLen: nat, cs: nat, realEnd: nat, ghost before: seq<byte>, ghost out: seq<byte>)
    returns (ok: bool)
    requires buf != srcBuf && p.srcOff + p.srcLen <= |input|
    requires cs <= realEnd <= |out| && buf.Length == |before| && realEnd - cs <= buf.Length
    requires p.OutEnd() <= |out| && out[p.newOff + |p.hdr|..p.OutEnd()] == input[p.srcOff..p.srcOff + p.srcLen]
    requires Filled(buf[..], before, out, cs, realEnd, p.newOff + |p.hdr|)
    requires window.Some? ==>
      && winLen <= srcBuf.Length && window.value + winLen <= |input|
      && srcBuf[..winLen] == input[window.value..window.value + winLen]
      && SpanInside(p, cs, realEnd, window.value, window.value + winLen)
    modifies buf
    ensures ok ==> Filled(buf[..], before, out, cs, realEnd, p.OutEnd())
    ensures !flaky ==> ok
  {
    hide Filled, SpanInside;
    ghost var cur := buf[..];
    var d0 := p.newOff + |p.hdr|;
    var d1 := d0 + p.srcLen;
    var (a, b) := (Max(d0, cs), Min(d1, realEnd));
    if a < b {
      var src := p.srcOff + (a - d0);
      if window.Some? { SpanGives(p, cs, realEnd, window.value, window.value + winLen, a, b); }
      ok := CopySource(input, flaky, src, b - a, buf, a - cs, srcBuf, window, winLen);
      if !ok { return; }
      DataIsOutput(input, p, out, a, b);
      FillStep(cur, buf[..], before, out, cs, realEnd, d0, d1, a, b, input[src..src + (b - a)]);
    } else {
      FillSkip(cur, before, out, cs, realEnd, d0, d1);
      ok := true;
    }
  }

  /** The input span plan `p` contributes to the chunk lies in [lo, hi). */
  ghost predicate SpanInside(p: Plan, cs: nat, realEnd: nat, lo: nat, hi: nat) {
    var d0 := p.newOff + |p.hdr|;
    var (a, b) := (Max(d0, cs), Min(d0 + p.srcLen, realEnd));
    a < b ==> lo <= p.srcOff + (a - d0) && p.srcOff + (b - d0) <= hi
  }

  lemma SpanGives(p: Plan, cs: nat, realEnd: nat, lo: nat, hi: nat, a: nat, b: nat)
    requires SpanInside(p, cs, realEnd, lo, hi)
    requires a == Max(p.newOff + |p.hdr|, cs) && b == Min(p.newOff + |p.hdr| + p.srcLen, realEnd) && a < b
    ensures lo <= p.srcOff + (a - (p.newOff + |p.hdr|)) && p.srcOff + (b - (p.newOff + |p.hdr|)) <= hi
  {
  }

  /** The loop that finds the source span the chunk needs. */
  method SourceSpan(overlapping: seq<Plan>, cs: nat, realEnd: nat, ghost inputLen: nat) returns (lo: nat, hi: nat)
    requires inputLen <= NO_OFFSET
    requires forall i :: 0 <= i < |overlapping| ==> overlapping[i].srcOff + overlapping[i].srcLen <= inputLen
    ensures hi <= inputLen
    ensures forall i :: 0 <= i < |overlapping| ==> SpanInside(overlapping[i], cs, realEnd, lo, hi)
  {
    lo, hi := NO_OFFSET, 0;
    for i := 0 to |overlapping|
      invariant hi <= inputLen
      invariant forall j :: 0 <= j < i ==> SpanInside(overlapping[j], cs, realEnd, lo, hi)
    {
      var p := overlapping[i];
      var dataStart := p.newOff + |p.hdr|;
      var a := Max(dataStart, cs);
      var b := Min(dataStart + p.srcLen, realEnd);
      if a < b {
        lo := Min(lo, p.srcOff + (a - dataStart));
        hi := Max(hi, p.srcOff + (b - dataStart));
      }
    }
  }

  /** Everything before `first` ends by `cs`, everything from `last` on starts at `realEnd` or
      later: the plans between them cover the chunk. */
  lemma OverlapCovers(input: seq<byte>, plans: seq<Plan>, out: seq<byte>, cs: nat, realEnd: nat, first: nat, last: nat)
    requires Tiled(input, plans, 0, out) && cs < realEnd <= |out| && first <= last <= |plans|
    requires first > 0 ==> plans[first - 1].OutEnd() <= cs
    requires first < |plans| ==> plans[first].OutEnd() > cs
    requires first < last ==> plans[last - 1].newOff < realEnd
    requires last < |plans| ==> plans[last].newOff >= realEnd
    ensures first < last && plans[first].newOff <= cs && realEnd <= plans[last - 1].OutEnd()
  {
    hide Tiled, PlanBytes;
    TiledAt(input, plans, 0, out, first);
    TiledAt(input, plans, 0, out, last);
  }

  method Overlapping(c: Chunker, cs: nat, realEnd: nat, ghost input: seq<byte>, ghost out: seq<byte>)
    returns (first: nat, last: nat)
    requires Tiled(input, c.plans, 0, out) && |out| == c.newEnd && cs < realEnd <= |out|
    ensures first <= last <= |c.plans|
    ensures forall i :: first <= i < last ==> c.plans[i].OutEnd() > cs && c.plans[i].newOff < realEnd
    ensures first < last && c.plans[first].newOff <= cs && realEnd <= c.plans[last - 1].OutEnd()
  {
    hide Tiled;
    var ends := (p: Plan) => p.OutEnd() <= cs;
    var starts := (p: Plan) => p.newOff < realEnd;
    forall i, j | 0 <= i < j < |c.plans|
      ensures ends(c.plans[j]) ==> ends(c.plans[i])
      ensures starts(c.plans[j]) ==> starts(c.plans[i])
    {
      TiledOrder(input, c.plans, 0, out, i, j);
    }
    first := PartitionPoint(c.plans, ends);
    var rest := c.plans[first..];
    var n := PartitionPoint(rest, starts);
    last := first + n;
    if n > 0 { assert rest[n - 1] == c.plans[last - 1]; }
    if last < |c.plans| { assert rest[n] == c.plans[last]; }
    OverlapCovers(input, c.plans, out, cs, realEnd, first, last);
    forall i | first <= i < last ensures c.plans[i].OutEnd() > cs && c.plans[i].newOff < realEnd {
      assert rest[i - first] == c.plans[i];
      assert starts(rest[i - first]) && !ends(c.plans[i]);
    }
  }

  /** One read of the whole span, when it is compact enough for the scratch buffer. */
  method ReadWindow(input: seq<byte>, flaky: bool, srcBuf: array<byte>, lo: nat, hi: nat)
    returns (ok: bool, window: Option<nat>)
    requires hi <= |input|
    modifies srcBuf
    ensures !flaky ==> ok
    ensures ok && window.Some? ==>
      window == Some(lo) && lo < hi && hi - lo <= srcBuf.Length && srcBuf[..hi - lo] == input[lo..hi]
  {
    ok, window := true, None;
    if lo < hi && hi - lo <= srcBuf.Length {
      ok := ReadExactAt(input, flaky, srcBuf, 0, hi - lo, lo);
      if !ok { return; }
      window := Some(lo);
      assert srcBuf[..hi - lo] == input[lo..lo + (hi - lo)];
    }
  }

  /** Build the chunk's real bytes: whatever was in the buffer, its first `realEnd - cs` bytes become
      exactly out[cs..realEnd], and the rest is untouched. */
  method Assemble(c: Chunker, input: seq<byte>, flaky: bool, buf: array<byte>, srcBuf: array<byte>, cs: nat,
                  realEnd: nat, ghost out: seq<byte>)
    returns (ok: bool)
    requires buf != srcBuf && Tiled(input, c.plans, 0, out) && |out| == c.newEnd
    requires cs < realEnd <= |out| && realEnd - cs <= buf.Length && |input| <= NO_OFFSET
    modifies buf, srcBuf
    ensures ok ==> buf[..realEnd - cs] == out[cs..realEnd] && buf[realEnd - cs..] == old(buf[realEnd - cs..])
    ensures !flaky ==> ok
  {
    hide Tiled, Filled, SpanInside;
    ghost var before := buf[..];
    var first, last := Overlapping(c, cs, realEnd, input, out);
    var overlapping := c.plans[first..last];
    forall i | 0 <= i < |overlapping| ensures overlapping[i].srcOff + overlapping[i].srcLen <= |input| {
      TiledAt(input, c.plans, 0, out, first + i);
    }
    var lo, hi := SourceSpan(overlapping, cs, realEnd, |input|);
    var window;
    ok, window := ReadWindow(input, flaky, srcBuf, lo, hi);
    if !ok { return; }
    ghost var winLen := SatSub(hi, lo);
    FillStart(before, out, cs, realEnd, c.plans[first].newOff);
    ghost var x := c.plans[first].newOff;
    for i := first to last
      invariant Filled(buf[..], before, out, cs, realEnd, x)
      invariant x == if i < last then c.plans[i].newOff else c.plans[last - 1].OutEnd()
      invariant window.Some? ==> window == Some(lo) && winLen == hi - lo && lo + winLen <= |input|
      invariant window.Some? ==> winLen <= srcBuf.Length && srcBuf[..winLen] == input[lo..lo + winLen]
    {
      var p := c.plans[i];
      TiledAt(input, c.plans, 0, out, i);
      TiledAt(input, c.plans, 0, out, i + 1);
      PlanParts(input, p, out);
      PlaceHeader(p, buf, cs, realEnd, before, out);
      assert overlapping[i - first] == p;
      ok := PlaceData(input, flaky, p, buf, srcBuf, window, winLen, cs, realEnd, before, out);
      if !ok { return; }
      x := p.OutEnd();
    }
    FillEnd(buf[..], before, out, cs, realEnd, x);
    ok := true;
  }

  lemma FillStart(before: seq<byte>, out: seq<byte>, cs: nat, realEnd: nat, x: nat)
    requires cs <= realEnd <= |out| && realEnd - cs <= |before| && x <= cs
    ensures Filled(before, before, out, cs, realEnd, x)
  {
    assert Clamp(x, cs, realEnd) == cs;
    assert before[..0] == out[cs..cs];
  }

  lemma FillEnd(buf: seq<byte>, before: seq<byte>, out: seq<byte>, cs: nat, realEnd: nat, x: nat)
    requires cs <= realEnd <= |out| && |buf| == |before| && realEnd - cs <= |buf| && realEnd <= x
    requires Filled(buf, before, out, cs, realEnd, x)
    ensures buf[..realEnd - cs] == out[cs..realEnd] && buf[realEnd - cs..] == before[realEnd - cs..]
  {
  }

  lemma PlanParts(input: seq<byte>, p: Plan, out: seq<byte>)
    requires p.OutEnd() <= |out| && p.srcOff + p.srcLen <= |input| && out[p.newOff..p.OutEnd()] == PlanBytes(input, p)
    ensures out[p.newOff..p.newOff + |p.hdr|] == p.hdr
    ensures out[p.newOff + |p.hdr|..p.OutEnd()] == input[p.srcOff..p.srcOff + p.srcLen]
  {
    var n := |p.hdr| + p.srcLen;
    SubSlice(out, p.newOff, n, 0, |p.hdr|);
    SubSlice(out, p.newOff, n, |p.hdr|, n);
    var b := PlanBytes(input, p);
    assert b[0..|p.hdr|] == p.hdr && b[|p.hdr|..n] == input[p.srcOff..p.srcOff + p.srcLen];
  }

  // --- Padding never opens a chunk -------------------------------------------------------------------

  /** A multiple of the page that starts before the next page boundary starts a page before it. */
  lemma PageBelow(x: nat, padded: nat)
    requires x % 4096 == 0 && padded % 4096 == 0 && x < padded
    ensures x + 4096 <= padded
  {
  }

  /** Trailing zeros stay below a page, and every chunk of the padded section has real bytes: the
      page divides the chunk. */
  lemma PaddingStaysInChunk(newEnd: nat, k: nat)
    requires k < ChunkCount(newEnd + Sigblock.PaddingBeforeBlock(newEnd))
    ensures var c := Chunker([], newEnd, newEnd + Sigblock.PaddingBeforeBlock(newEnd));
      && k * CHUNK < newEnd && 0 < c.Real(k) <= CHUNK && c.ZeroTail(k) <= 4095
      && c.RealEnd(k) == c.Start(k) + c.Real(k) <= newEnd
  {
    hide Sigblock.PaddingBeforeBlock;
    ChunkStarts(newEnd + Sigblock.PaddingBeforeBlock(newEnd), k);
  }

  lemma ChunkStarts(padded: nat, k: nat)
    requires k < ChunkCount(padded) && padded % 4096 == 0
    ensures k * CHUNK + 4096 <= padded
  {
    CountBelow(padded, k);
    PageBelow(4096 * (k * 256), padded);
  }

  lemma CountBelow(len: nat, k: nat)
    requires k < ChunkCount(len)
    ensures k * CHUNK < len
  {
    var x := len + CHUNK - 1;
    assert x == CHUNK * (x / CHUNK) + x % CHUNK;
  }

  /** So the padding adds no chunk. */
  lemma PaddingAddsNoChunk(newEnd: nat)
    ensures ChunkCount(newEnd + Sigblock.PaddingBeforeBlock(newEnd)) == ChunkCount(newEnd)
  {
    var n := ChunkCount(newEnd + Sigblock.PaddingBeforeBlock(newEnd));
    if n > 0 {
      PaddingStaysInChunk(newEnd, n - 1);
      assert newEnd > (n - 1) * CHUNK;
    }
  }

  /** Chunk k of the padded output: the real bytes, then zeros. */
  lemma PaddedChunk(out: seq<byte>, k: nat)
    requires k < ChunkCount(|out| + Sigblock.PaddingBeforeBlock(|out|))
    ensures var pad := Sigblock.PaddingBeforeBlock(|out|);
      var c := Chunker([], |out|, |out| + pad);
      && |Chunks(out + Zeros(pad))| == ChunkCount(|out| + pad)
      && c.Start(k) <= c.RealEnd(k) <= |out|
      && Chunks(out + Zeros(pad))[k] == out[c.Start(k)..c.RealEnd(k)] + Zeros(c.ZeroTail(k))
  {
    hide Sigblock.PaddingBeforeBlock, Chunks, Zeros;
    PaddingStaysInChunk(|out|, k);
    var pad := Sigblock.PaddingBeforeBlock(|out|);
    var c := Chunker([], |out|, |out| + pad);
    ChunksAreSlices(out + Zeros(pad));
    PaddedSlice(out, pad, c.Start(k), c.End(k), c.RealEnd(k));
  }

  lemma PaddedSlice(out: seq<byte>, pad: nat, s: nat, e: nat, r: nat)
    requires s <= r <= e <= |out| + pad && r == Min(e, |out|)
    ensures (out + Zeros(pad))[s..e] == out[s..r] + Zeros(e - r)
  {
  }

  /** `assemble_and_hash`: whatever bytes a recycled buffer holds, its first `real` bytes become
      output[k * CHUNK..k * CHUNK + real], and the digest is that of chunk k of the padded output.
      `real == 0` cannot happen for chunks `rewrite` asks for (see PaddingStaysInChunk). */
  method AssembleAndHash(alg: Algorithm, c: Chunker, k: nat, input: seq<byte>, flaky: bool, buf: array<byte>,
                         srcBuf: array<byte>, ghost out: seq<byte>)
    returns (r: Option<(nat, seq<byte>)>)
    requires buf != srcBuf && buf.Length == CHUNK && srcBuf.Length == SRC_WINDOW && |input| <= NO_OFFSET
    requires Tiled(input, c.plans, 0, out) && |out| == c.newEnd
    requires c.paddedEnd == c.newEnd + Sigblock.PaddingBeforeBlock(c.newEnd) && k < ChunkCount(c.paddedEnd)
    modifies buf, srcBuf
    ensures !flaky ==> r.Some?
    ensures r.Some? ==>
      && r.value.0 == c.Real(k) && 0 < r.value.0 <= CHUNK && k * CHUNK + r.value.0 <= |out|
      && buf[..r.value.0] == out[k * CHUNK..k * CHUNK + r.value.0]
      && buf[r.value.0..] == old(buf[r.value.0..])
      && k < |Chunks(out + Zeros(Sigblock.PaddingBeforeBlock(|out|)))|
      && r.value.1 == ChunkDigest(alg, Chunks(out + Zeros(Sigblock.PaddingBeforeBlock(|out|)))[k])
  {
    hide Tiled, ChunkDigest, Chunks;
    PaddingStaysInChunk(c.newEnd, k);
    PaddedChunk(out, k);
    var cs := k * CHUNK;
    var ce := Min(cs + CHUNK, c.paddedEnd);
    var realEnd := Min(ce, c.newEnd);
    var realLen := SatSub(realEnd, cs);
    var zeros := (ce - cs) - realLen;
    var ok := Assemble(c, input, flaky, buf, srcBuf, cs, realEnd, out);
    if !ok {
      return None;
    }
    var d := HashChunk(alg, [buf[..realLen], Zeros(zeros)]);
    TwoParts(buf[..realLen], Zeros(zeros));
    r := Some((realLen, d));
  }
}
