/** What a rewrite (src/align.rs) does to the entries, read off the two files: every kept record of the
    old directory is in the new one with another offset, and where that points stands the same entry,
    its data aligned. */
module Survival {
  import opened Wrappers
  import opened Bytes
  import opened Zip
  import opened AlignExtra
  import opened HeaderReader
  import opened Planner
  import opened Idempotence
  import opened Directory
  import opened RewriteTwice
  import Realigned
  import opened Sign

  /** Length of name and extra field of the local header at `off`. */
  function NameLen(f: seq<byte>, off: nat): (r: nat)
    requires off + 30 <= |f|
  {
    U16(f, off + 26)
  }

  function ExtraLen(f: seq<byte>, off: nat): (r: nat)
    requires off + 30 <= |f|
  {
    U16(f, off + 28)
  }

  /** The entry of record `r` in `input` is at `at` in `w`: the same 28 bytes up to the extra field's
      length, the same name, the same data and descriptor. An entry without alignment keeps its extra
      field; another one's data starts on the larger of the alignment it needs and the one it declared. */
  ghost predicate SameEntry(input: seq<byte>, end: nat, it: Item, w: seq<byte>, at: nat)
    requires end <= |input| && it.rule >= 1
  {
    && it.off + 30 <= end && at + 30 <= |w|
    && w[at..at + 28] == input[it.off..it.off + 28]
    && var n := NameLen(input, it.off);
    && var (from, to) := (it.off + 30 + n + ExtraLen(input, it.off), at + 30 + n + ExtraLen(w, at));
    && var len := Stretch(input, end, it) - (from - it.off);
    && 0 <= len && from + len <= end && to + len <= |w|
    && w[at + 30..at + 30 + n] == input[it.off + 30..it.off + 30 + n]
    && w[to..to + len] == input[from..from + len]
    && if it.rule == 1 then w[at + 28..to] == input[it.off + 28..from]
       else to % EffectiveAlignment(it.rule, input[it.off + 30 + n..from]) == 0
  }

  // --- One record --------------------------------------------------------------------------------------

  /** A slice of a file that begins with `x`. */
  lemma SliceIs(w: seq<byte>, at: nat, x: seq<byte>, i: nat, j: nat)
    requires at + |x| <= |w| && w[at..at + |x|] == x && i <= j <= |x|
    ensures w[at + i..at + j] == x[i..j]
  {
    SubSlice(w, at, |x|, i, j);
  }

  lemma HeaderFields(f: seq<byte>, at: nat, h: seq<byte>)
    requires at + |h| <= |f| && f[at..at + |h|] == h && |h| >= 30
    ensures NameLen(f, at) == U16(h, 26) && ExtraLen(f, at) == U16(h, 28)
  {
    hide LE;
    SliceIs(f, at, h, 26, 28);
    SliceIs(f, at, h, 28, 30);
    assert f[at + 26..at + 26 + 2] == h[26..26 + 2] && f[at + 28..at + 28 + 2] == h[28..28 + 2];
  }

  lemma RecordSurvives(input: seq<byte>, end: nat, s: Segment, w: seq<byte>)
    requires s.Record? && SegmentOk(input, end, s)
    requires s.newOff + s.OutLen() <= |w| && w[s.newOff..s.newOff + s.OutLen()] == SegmentBytes(input, s)
    ensures s.item.rule >= 1 && SameEntry(input, end, s.item, w, s.newOff)
  {
    hide LE, EffectiveAlignment, NewHeader, HeaderAt, Stretch, DataLen, SameEntry;
    var (p, off) := (OldHeader(input, s), s.item.off);
    OldHeaderOk(input, end, s);
    RecordBytesKept(input, end, s);
    if s.item.rule > 1 {
      RecordAligned(input, end, s);
    }
    var d := input[off + s.prefixLen..off + s.prefixLen + s.dataLen];
    assert SegmentBytes(input, s) == s.hdr + d;
    WholeRecord(w, s.newOff, s.hdr, d);
    SameParts(input, end, s.item, w, s.newOff, p, s.hdr, d);
  }

  /** The entry is the same when its parts are. */
  lemma SameParts(input: seq<byte>, end: nat, it: Item, w: seq<byte>, at: nat, p: seq<byte>, h: seq<byte>, d: seq<byte>)
    requires |p| >= 30 && |h| >= 30 && HeaderLen(p) == |p| && HeaderLen(h) == |h| && U16(h, 26) == U16(p, 26)
    requires it.off + |p| + |d| <= end <= |input| && at + |h| + |d| <= |w|
    requires input[it.off..it.off + |p|] == p && input[it.off + |p|..it.off + |p| + |d|] == d
    requires w[at..at + |h|] == h && w[at + |h|..at + |h| + |d|] == d
    requires h[..28] == p[..28] && h[30..30 + U16(p, 26)] == p[30..30 + U16(p, 26)]
    requires it.rule >= 1 && Stretch(input, end, it) == |p| + |d| && (it.rule == 1 ==> h == p)
    requires it.rule > 1 ==> (at + |h|) % EffectiveAlignment(it.rule, p[30 + U16(p, 26)..]) == 0
    ensures SameEntry(input, end, it, w, at)
  {
    hide U16, EffectiveAlignment, Stretch;
    HeaderFields(input, it.off, p);
    HeaderFields(w, at, h);
    var n := U16(p, 26);
    HeaderParts(w, at, h, n);
    HeaderParts(input, it.off, p, n);
  }

  lemma HeaderParts(f: seq<byte>, at: nat, h: seq<byte>, n: nat)
    requires at + |h| <= |f| && f[at..at + |h|] == h && 30 + n <= |h|
    ensures f[at..at + 28] == h[..28] && f[at + 30..at + 30 + n] == h[30..30 + n]
    ensures f[at + 28..at + |h|] == h[28..] && f[at + 30 + n..at + |h|] == h[30 + n..]
  {
    SliceIs(f, at, h, 0, 28); SliceIs(f, at, h, 30, 30 + n); SliceIs(f, at, h, 28, |h|); SliceIs(f, at, h, 30 + n, |h|);
    assert h[0..28] == h[..28] && h[28..|h|] == h[28..] && h[30 + n..|h|] == h[30 + n..];
  }

  lemma WholeRecord(w: seq<byte>, at: nat, h: seq<byte>, d: seq<byte>)
    requires at + |h| + |d| <= |w| && w[at..at + |h| + |d|] == h + d
    ensures w[at..at + |h|] == h && w[at + |h|..at + |h| + |d|] == d
  {
    SubSlice(w, at, |h| + |d|, 0, |h|);
    SubSlice(w, at, |h| + |d|, |h|, |h| + |d|);
    assert (h + d)[0..|h|] == h && (h + d)[|h|..|h| + |d|] == d;
  }

  // --- The directory -----------------------------------------------------------------------------------

  /** `r2` is `r` with the bytes of the offset replaced. */
  ghost predicate Moved(r: seq<byte>, r2: seq<byte>, off: nat) {
    |r| >= 46 && r2 == r[..42] + PutU32(off) + r[46..]
  }

  /** The new records are the kept ones, moved, in their order. */
  lemma {:induction false} NewFromKept(rs: seq<seq<byte>>, items: seq<Item>, segs: seq<Segment>)
    requires AllRecords(rs) && |items| == |rs|
    requires forall i :: 0 <= i < |rs| ==>
      (NewOffset(segs, items[i].off).Some? <==> Policy(RecordName(rs[i])) == Output)
    ensures |NewRecords(rs, items, segs)| == |Kept(rs)|
    ensures forall k :: 0 <= k < |Kept(rs)| ==> FromRecord(rs, items, segs, Kept(rs)[k], NewRecords(rs, items, segs)[k])
  {
    hide IsRecord, Policy, RecordName, Kept, PatchRecord, NewOffset, FromRecord, Moved;
    if rs == [] {
      NoneKept();
    } else {
      var n := |rs| - 1;
      var (init, its) := (rs[..n], items[..n]);
      NewFromKept(init, its, segs);
      assert rs == init + [rs[n]];
      KeptSnoc(init, rs[n]);
      var (a, b) := (Kept(init), NewRecords(init, its, segs));
      forall k | 0 <= k < |a| ensures FromRecord(rs, items, segs, a[k], b[k]) {
        FromMore(rs, items, segs, a[k], b[k], n);
      }
      var o := NewOffset(segs, items[n].off);
      if o.Some? {
        LastFrom(rs, items, segs, o.value);
      }
    }
  }

  lemma NoneKept()
    ensures Kept([]) == []
  {
  }

  /** `r2` is some record `r` that the plan laid out, moved there. */
  ghost predicate FromRecord(rs: seq<seq<byte>>, items: seq<Item>, segs: seq<Segment>, r: seq<byte>, r2: seq<byte>)
    requires |items| == |rs|
  {
    exists i :: 0 <= i < |rs| && rs[i] == r && NewOffset(segs, items[i].off).Some?
      && Moved(r, r2, NewOffset(segs, items[i].off).value)
  }

  lemma FromMore(rs: seq<seq<byte>>, items: seq<Item>, segs: seq<Segment>, r: seq<byte>, r2: seq<byte>, n: nat)
    requires |items| == |rs| && n <= |rs| && FromRecord(rs[..n], items[..n], segs, r, r2)
    ensures FromRecord(rs, items, segs, r, r2)
  {
    hide NewOffset, Moved;
    var i :| 0 <= i < n && rs[..n][i] == r && NewOffset(segs, items[..n][i].off).Some?
      && Moved(r, r2, NewOffset(segs, items[..n][i].off).value);
    assert rs[i] == r && items[i] == items[..n][i];
  }

  lemma LastFrom(rs: seq<seq<byte>>, items: seq<Item>, segs: seq<Segment>, off: nat)
    requires |items| == |rs| > 0 && IsRecord(rs[|rs| - 1])
    requires NewOffset(segs, items[|rs| - 1].off) == Some(off)
    ensures FromRecord(rs, items, segs, rs[|rs| - 1], PatchRecord(rs[|rs| - 1], off))
  {
    hide NewOffset;
    assert Moved(rs[|rs| - 1], PatchRecord(rs[|rs| - 1], off), off);
  }

  // --- All of them -------------------------------------------------------------------------------------

  ghost predicate Survives(input: seq<byte>, end: nat, r: seq<byte>, libPageSize: nat, w: seq<byte>, r2: seq<byte>)
    requires IsRecord(r) && end <= |input|
  {
    exists at: nat :: Moved(r, r2, at) && SameEntry(input, end, ItemOf(r, libPageSize), w, at)
  }

  /** After a rewrite the directory holds exactly the kept records, in their order, each moved to where
      the same entry stands, aligned. */
  lemma KeptSurvive(input: seq<byte>, end: nat, rs: seq<seq<byte>>, libPageSize: nat, order: seq<nat>,
                    segs: seq<Segment>)
    requires Rewrote(input, end, rs, libPageSize, order, segs)
    ensures Inside(input, segs)
    ensures var rs2 := NewRecords(rs, ItemsOf(rs, libPageSize), segs);
      && |rs2| == |Kept(rs)|
      && forall k :: 0 <= k < |rs2| ==> Survives(input, end, Kept(rs)[k], libPageSize, Render(input, segs), rs2[k])
  {
    hide PlanFrom, ItemOf, TilesInput, TilesOutput, NewOffset, NewRecords, Render, Kept, Moved, SameEntry, FileOrder,
      AllInside, ItemsOk, Policy, RecordName, IsRecord, FromRecord, DistinctOffsets, StrictOffsets;
    var items := ItemsOf(rs, libPageSize);
    RewroteFacts(input, end, rs, libPageSize, order, segs);
    forall i | 0 <= i < |rs| ensures NewOffset(segs, items[i].off).Some? <==> Policy(RecordName(rs[i])) == Output {
      OffsetIff(rs, libPageSize, segs, i);
    }
    NewFromKept(rs, items, segs);
    var rs2 := NewRecords(rs, items, segs);
    forall k | 0 <= k < |rs2|
      ensures Survives(input, end, Kept(rs)[k], libPageSize, Render(input, segs), rs2[k])
    {
      OneSurvives(input, end, rs, libPageSize, order, segs, Kept(rs)[k], rs2[k]);
    }
  }

  lemma OffsetIff(rs: seq<seq<byte>>, libPageSize: nat, segs: seq<Segment>, i: nat)
    requires AllRecords(rs) && i < |rs|
    requires var items := ItemsOf(rs, libPageSize);
      && DistinctOffsets(items) && StrictOffsets(RecordItems(segs))
      && (forall k :: 0 <= k < |segs| && segs[k].Record? ==> segs[k].item in items && segs[k].item.policy == Output)
      && (forall x :: x in items && x.policy == Output ==> x in RecordItems(segs))
    ensures NewOffset(segs, ItemsOf(rs, libPageSize)[i].off).Some? <==> Policy(RecordName(rs[i])) == Output
  {
    hide RequiredAlignment, Policy, RecordName, IsRecord, NewOffset, StrictOffsets, RecordItems;
    var items := ItemsOf(rs, libPageSize);
    NewOffsetFinds(segs, items[i].off);
    if NewOffset(segs, items[i].off).Some? {
      NewOffsetIsSegment(segs, items, i);
    }
  }

  lemma OneSurvives(input: seq<byte>, end: nat, rs: seq<seq<byte>>, libPageSize: nat, order: seq<nat>,
                    segs: seq<Segment>, r: seq<byte>, r2: seq<byte>)
    requires Rewrote(input, end, rs, libPageSize, order, segs) && Inside(input, segs) && IsRecord(r)
    requires FromRecord(rs, ItemsOf(rs, libPageSize), segs, r, r2)
    ensures Survives(input, end, r, libPageSize, Render(input, segs), r2)
  {
    hide PlanFrom, ItemOf, TilesInput, NewOffset, Render, Moved, SameEntry, IsRecord, SegmentOk, DistinctOffsets,
      StrictOffsets;
    var (items, w) := (ItemsOf(rs, libPageSize), Render(input, segs));
    var sorted := InOrder(order, items);
    RewroteFacts(input, end, rs, libPageSize, order, segs);
    PlanIsGood(input, end, sorted, 0, 0);
    var i :| 0 <= i < |rs| && rs[i] == r && NewOffset(segs, items[i].off).Some?
      && Moved(r, r2, NewOffset(segs, items[i].off).value);
    NewOffsetIsSegment(segs, items, i);
    var k :| 0 <= k < |segs| && segs[k].Record? && segs[k].item == items[i]
      && segs[k].newOff == NewOffset(segs, items[i].off).value;
    assert w[0..0 + OutLen(segs)] == w;
    Realigned.SegmentInPlace(input, segs, 0, w, k);
    RecordSurvives(input, end, segs[k], w);
    assert items[i] == ItemOf(r, libPageSize);
  }

  /** So of every content `sign_one` rewrites: its directory lists the kept records and no others, its
      count is their number, and every entry survives. */
  lemma RewrittenSurvives(f: seq<byte>, s: Sections, rs: seq<seq<byte>>, libPageSize: nat, c: Content)
    requires IsRewritten(f, s, rs, libPageSize, c)
    ensures s.entriesEnd <= |f|
    ensures exists rs2: seq<seq<byte>> ::
      && c.cd == Concat(rs2) && c.count == |rs2| == |Kept(rs)|
      && forall k :: 0 <= k < |rs2| ==> Survives(f, s.entriesEnd, Kept(rs)[k], libPageSize, c.entries, rs2[k])
  {
    hide Survives, NewRecords, Render, ItemsOf, Kept, Concat, IsRecord;
    var order, segs :| Rewrote(f, s.entriesEnd, rs, libPageSize, order, segs) && Inside(f, segs)
      && LaidContent(f, rs, libPageSize, segs, c);
    assert s.entriesEnd <= |f|;
    KeptSurvive(f, s.entriesEnd, rs, libPageSize, order, segs);
    var rs2 := NewRecords(rs, ItemsOf(rs, libPageSize), segs);
    assert c.cd == Concat(rs2) && c.count == |rs2|;
  }
}
