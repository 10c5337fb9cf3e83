/** Rewriting an already rewritten entries section changes nothing (src/align.rs). */
module Idempotence {
  import opened Wrappers
  import opened Bytes
  import opened Zip
  import opened AlignExtra
  import opened HeaderReader
  import opened Planner

  /** The entries of the rewritten section, in file order: only the offsets changed. */
  function SecondItems(segs: seq<Segment>): (r: seq<Item>) {
    if segs == [] then []
    else (if segs[0].Record? then [segs[0].item.(off := segs[0].newOff)] else []) + SecondItems(segs[1..])
  }

  lemma {:induction false} SecondItemsConcat(x: seq<Segment>, y: seq<Segment>)
    ensures SecondItems(x + y) == SecondItems(x) + SecondItems(y)
  {
    if x == [] {
      assert x + y == y;
    } else {
      SecondItemsConcat(x[1..], y);
      assert (x + y)[1..] == x[1..] + y;
      var first := if x[0].Record? then [x[0].item.(off := x[0].newOff)] else [];
      assert SecondItems(x + y) == first + (SecondItems(x[1..]) + SecondItems(y));
    }
  }

  ghost predicate Inside(input: seq<byte>, segs: seq<Segment>) {
    forall i :: 0 <= i < |segs| ==> segs[i].Src() + segs[i].SrcLen() <= |input|
  }

  /** The rendered segments sit in `w` from `at` on. */
  ghost predicate LaidOut(input: seq<byte>, segs: seq<Segment>, at: nat, w: seq<byte>) {
    && Inside(input, segs)
    && at + OutLen(segs) <= |w| && w[at..at + OutLen(segs)] == Render(input, segs)
  }

  /** The second run's result: every record stays where it is, and the bytes are the input's. */
  ghost predicate IsIdentity(w: seq<byte>, items: seq<Item>, from: nat, r: Result<seq<Segment>, PlanError>) {
    && r.Ok?
    && Inside(w, r.value)
    && from <= |w| && Render(w, r.value) == w[from..]
    && SecondItems(r.value) == items
  }

  /** A header rebuilt by the planner is rebuilt to itself at the same place. */
  lemma HeaderStable(p: seq<byte>, rule: nat, newOff: nat)
    requires |p| >= LFH_LEN && HeaderLen(p) == |p| && rule >= 1 && NewHeader(p, rule, newOff).Some?
    ensures var h := NewHeader(p, rule, newOff).value;
      |h| >= LFH_LEN && HeaderLen(h) == |h| && NewHeader(h, rule, newOff) == Some(h)
  {
    if rule == 1 {
      PlainHeader(p, newOff);
    } else {
      NameFits(p);
      HeaderKept(p, rule, newOff);
      hide LE, HeaderLen, AligningExtra, EffectiveAlignment, Patched, NewHeader;
      var fixed := LFH_LEN + U16(p, 26);
      var h := NewHeader(p, rule, newOff).value;
      var (before, extra) := (p[fixed..], h[fixed..]);
      EffectiveStable(rule, before, newOff + fixed);
      ExtraIdempotent(before, newOff + fixed, EffectiveAlignment(rule, before));
      SameLength(h, fixed, extra);
      Rebuild(h, rule, newOff, fixed, extra);
    }
  }

  lemma Rebuild(h: seq<byte>, rule: nat, newOff: nat, fixed: nat, extra: seq<byte>)
    requires |h| >= LFH_LEN && HeaderLen(h) == |h| && rule > 1 && fixed == LFH_LEN + U16(h, 26) <= |h|
      && extra == h[fixed..]
    requires AligningExtra(extra, newOff + fixed, EffectiveAlignment(rule, extra)) == extra && |extra| <= 0xffff
    requires Patched(h[..fixed], 28, PutU16(|extra|)) + extra == h
    ensures NewHeader(h, rule, newOff) == Some(h)
  {
    hide LE, HeaderLen, AligningExtra, EffectiveAlignment, Patched;
  }

  lemma NameFits(p: seq<byte>)
    requires |p| >= LFH_LEN && HeaderLen(p) == |p|
    ensures LFH_LEN + U16(p, 26) <= |p|
  {
  }

  /** Patching in the length that is already there. */
  lemma SameLength(h: seq<byte>, fixed: nat, extra: seq<byte>)
    requires LFH_LEN <= fixed <= |h| && h[fixed..] == extra && |extra| < U16_MOD && U16(h, 28) == |extra|
    ensures Patched(h[..fixed], 28, PutU16(|extra|)) + extra == h
  {
    var v := h[28..30];
    LERoundTrip(v);
    assert PutU16(|extra|) == v;
    assert h[..fixed] == h[..28] + v + h[30..fixed];
    assert h[..fixed][..28] == h[..28] && h[..fixed][30..] == h[30..fixed];
    assert h == h[..fixed] + h[fixed..];
  }

  /** A record laid out at `newOff` of `w` is read back there: same header, same data length. */
  lemma RecordReadsBack(input: seq<byte>, end: nat, s: Segment, w: seq<byte>)
    requires s.Record? && SegmentOk(input, end, s)
    requires s.newOff + |s.hdr| + s.dataLen <= |w|
    requires w[s.newOff..s.newOff + |s.hdr| + s.dataLen] == SegmentBytes(input, s)
    ensures s.newOff + LFH_LEN <= |w| && |s.hdr| >= LFH_LEN && HeaderLen(s.hdr) == |s.hdr|
    ensures HeaderAt(w, |w|, s.newOff) == Ok(s.hdr)
    ensures DataLen(w, |w|, s.item.(off := s.newOff), s.newOff + |s.hdr|) == s.dataLen
    ensures NewHeader(s.hdr, s.item.rule, s.newOff) == Some(s.hdr)
  {
    RecordBytesKept(input, end, s);
    OldHeaderOk(input, end, s);
    HeaderStable(OldHeader(input, s), s.item.rule, s.newOff);
    HeaderReadsBack(s, w, SegmentBytes(input, s));
    DataReadsBack(input, end, s, w);
  }

  lemma HeaderReadsBack(s: Segment, w: seq<byte>, bytes: seq<byte>)
    requires s.Record? && s.newOff + |s.hdr| + s.dataLen <= |w| && |s.hdr| >= LFH_LEN
    requires w[s.newOff..s.newOff + |s.hdr| + s.dataLen] == bytes && |bytes| == |s.hdr| + s.dataLen
      && bytes[..|s.hdr|] == s.hdr
    requires HeaderLen(s.hdr) == |s.hdr| && s.hdr[..4] == LFH_SIG
    ensures HeaderAt(w, |w|, s.newOff) == Ok(s.hdr)
  {
    hide LE;
    var (o, n) := (s.newOff, |s.hdr| + s.dataLen);
    SubSlice(w, o, n, 0, |s.hdr|);
    assert w[o..o + |s.hdr|] == s.hdr by { assert bytes[0..|s.hdr|] == bytes[..|s.hdr|]; }
    var h := w[o..o + LFH_LEN];
    SubSlice(w, o, |s.hdr|, 0, LFH_LEN);
    assert h == s.hdr[0..LFH_LEN];
    SubSlice(s.hdr, 0, LFH_LEN, 26, 28); SubSlice(s.hdr, 0, LFH_LEN, 28, 30); SubSlice(s.hdr, 0, LFH_LEN, 0, 4);
    assert s.hdr[0..0 + LFH_LEN] == h;
    assert h[26..26 + 2] == s.hdr[26..26 + 2] && h[28..28 + 2] == s.hdr[28..28 + 2];
    assert h[..4] == h[0..4] && s.hdr[..4] == s.hdr[0..4];
  }

  /** The data-descriptor signature is found again exactly when it was found before. */
  lemma DataReadsBack(input: seq<byte>, end: nat, s: Segment, w: seq<byte>)
    requires s.Record? && SegmentOk(input, end, s)
    requires s.newOff + |s.hdr| + s.dataLen <= |w|
    requires w[s.newOff..s.newOff + |s.hdr| + s.dataLen] == SegmentBytes(input, s)
    ensures DataLen(w, |w|, s.item.(off := s.newOff), s.newOff + |s.hdr|) == s.dataLen
  {
    hide LE, HeaderAt, NewHeader, HeaderLen;
    if s.item.descriptor {
      var (a, b, size) := (s.item.off + s.prefixLen, s.newOff + |s.hdr|, s.item.size);
      var data := input[a..a + s.dataLen];
      assert size + 4 <= s.dataLen;
      SubSlice(input, a, s.dataLen, size, size + 4);
      SubSlice(w, s.newOff, |s.hdr| + s.dataLen, |s.hdr|, |s.hdr| + s.dataLen);
      assert w[b..b + s.dataLen] == data by {
        assert (s.hdr + data)[|s.hdr|..|s.hdr| + s.dataLen] == data;
      }
      SubSlice(w, b, s.dataLen, size, size + 4);
      assert w[b + size..b + size + 4] == input[a + size..a + size + 4];
    }
  }

  /** The whole argument, from any point of the first run: the second run has copied `from` bytes of
      `w`, the first has laid out `cursor >= from` bytes, and `w` goes on with what the first run
      still lays out, then zeros. */
  lemma {:induction false} SecondRun(input: seq<byte>, end: nat, items: seq<Item>, consumed: nat, cursor: nat,
                                     w: seq<byte>, from: nat)
    requires end <= |input| && ItemsOk(items, end) && consumed <= end
    requires PlanFrom(input, end, items, consumed, cursor).Ok?
    requires from <= cursor
    requires LaidOut(input, PlanFrom(input, end, items, consumed, cursor).value, cursor, w)
    ensures
      var second := SecondItems(PlanFrom(input, end, items, consumed, cursor).value);
      && ItemsOk(second, |w|)
      && IsIdentity(w, second, from, PlanFrom(w, |w|, second, from, from))
    decreases |items|
  {
    hide HeaderAt, NewHeader, DataLen, SegmentOk, TilesInput, TilesOutput, PlanFrom, HeaderLen, Render;
    PlanUnfold(input, end, items, consumed, cursor);
    PlanIsGood(input, end, items, consumed, cursor);
    if items == [] {
      LastGap(w, from, consumed, end, cursor);
    } else if items[0].policy == Gap {
      SecondRun(input, end, items[1..], consumed, cursor, w, from);
    } else {
      var it := items[0];
      var prefix := HeaderAt(input, end, it.off).value;
      PrefixLen(input, end, it.off);
      var newOff := cursor + (it.off - consumed);
      var dataLen := DataLen(input, end, it, it.off + |prefix|);
      var next := it.off + |prefix| + dataLen;
      var gap := VerbatimGap(consumed, it.off, cursor);
      if it.policy == Skip {
        var rest := PlanFrom(input, end, items[1..], next, newOff).value;
        PlanInside(input, end, items[1..], next, newOff);
        var head := gap + [Removed(it.off, |prefix| + dataLen, newOff)];
        SkipHead(input, end, consumed, it.off, cursor, head, rest, w);
        SecondRun(input, end, items[1..], next, newOff, w, from);
      } else {
        var hdr := NewHeader(prefix, it.rule, newOff).value;
        var s := Record(it, |prefix|, dataLen, hdr, newOff);
        var cursor' := newOff + |hdr| + dataLen;
        var rest := PlanFrom(input, end, items[1..], next, cursor').value;
        PlanInside(input, end, items[1..], next, cursor');
        RecordOk(input, end, it, newOff);
        RecordHead(input, end, consumed, it.off, cursor, s, rest, w);
        SecondRun(input, end, items[1..], next, cursor', w, cursor');
        RecordReadsBack(input, end, s, w);
        SecondRecord(w, from, s, SecondItems(rest));
      }
    }
  }

  lemma LastGap(w: seq<byte>, from: nat, consumed: nat, end: nat, cursor: nat)
    requires from <= |w|
    ensures SecondItems(VerbatimGap(consumed, end, cursor)) == []
    ensures ItemsOk([], |w|) && IsIdentity(w, [], from, PlanFrom(w, |w|, [], from, from))
  {
    var segs := VerbatimGap(from, |w|, from);
    if from < |w| {
      assert segs[1..] == [] && Render(w, segs[1..]) == [];
      assert Render(w, segs) == w[from..from + (|w| - from)] + [];
    }
  }

  lemma NoBytes(input: seq<byte>, s: Segment)
    requires s.Removed? && s.Src() + s.SrcLen() <= |input|
    ensures SegmentBytes(input, s) == []
  {
  }

  /** A skipped record leaves only its preceding gap in the output. */
  lemma SkipHead(input: seq<byte>, end: nat, consumed: nat, off: nat, cursor: nat, head: seq<Segment>,
                 rest: seq<Segment>, w: seq<byte>)
    requires consumed <= off <= end <= |input|
    requires |head| > 0 && head == VerbatimGap(consumed, off, cursor) + [head[|head| - 1]] && head[|head| - 1].Removed?
    requires head[|head| - 1].Src() + head[|head| - 1].SrcLen() <= |input| && Inside(input, rest)
    requires LaidOut(input, head + rest, cursor, w)
    ensures LaidOut(input, rest, cursor + (off - consumed), w)
    ensures SecondItems(head + rest) == SecondItems(rest)
  {
    var r := head[|head| - 1];
    hide Render, OutLen, SecondItems, SegmentBytes, VerbatimGap, LaidOut;
    assert head + rest == VerbatimGap(consumed, off, cursor) + [r] + rest;
    SkipOne(input, end, consumed, off, cursor, r, rest, w);
  }

  lemma SkipOne(input: seq<byte>, end: nat, consumed: nat, off: nat, cursor: nat, r: Segment, rest: seq<Segment>,
                w: seq<byte>)
    requires consumed <= off <= end <= |input|
    requires r.Removed? && r.Src() + r.SrcLen() <= |input| && Inside(input, rest)
    requires LaidOut(input, VerbatimGap(consumed, off, cursor) + [r] + rest, cursor, w)
    ensures LaidOut(input, rest, cursor + (off - consumed), w)
    ensures SecondItems(VerbatimGap(consumed, off, cursor) + [r] + rest) == SecondItems(rest)
  {
    hide Render, OutLen, SecondItems, SegmentBytes, VerbatimGap, LaidOut;
    GapThenOne(input, end, consumed, off, cursor, r, rest);
    var g := input[consumed..off];
    NoBytes(input, r);
    assert g + [] == g;
    LaidOutRest(input, VerbatimGap(consumed, off, cursor) + [r] + rest, cursor, w, g, rest);
  }

  lemma LaidOutRest(input: seq<byte>, all: seq<Segment>, at: nat, w: seq<byte>, pre: seq<byte>, rest: seq<Segment>)
    requires LaidOut(input, all, at, w) && Inside(input, rest)
    requires OutLen(all) == |pre| + OutLen(rest) && Render(input, all) == pre + Render(input, rest)
    ensures LaidOut(input, rest, at + |pre|, w) && w[at..at + |pre|] == pre
  {
    hide Render;
    var n := OutLen(all);
    SubSlice(w, at, n, 0, |pre|);
    SubSlice(w, at, n, |pre|, n);
    var r := pre + Render(input, rest);
    assert r[0..|pre|] == pre && r[|pre|..n] == Render(input, rest);
  }

  lemma OneSegment(input: seq<byte>, s: Segment)
    requires s.Src() + s.SrcLen() <= |input|
    ensures Inside(input, [s]) && OutLen([s]) == s.OutLen() && Render(input, [s]) == SegmentBytes(input, s)
    ensures SecondItems([s]) == if s.Record? then [s.item.(off := s.newOff)] else []
  {
    hide SegmentBytes;
    assert [s][1..] == [];
    assert SegmentBytes(input, s) + [] == SegmentBytes(input, s);
  }

  /** Gap, one segment, rest: lengths, bytes and second items. */
  lemma GapThenOne(input: seq<byte>, end: nat, consumed: nat, off: nat, cursor: nat, s: Segment, rest: seq<Segment>)
    requires consumed <= off <= end <= |input|
    requires s.Src() + s.SrcLen() <= |input|
    requires Inside(input, rest)
    ensures var all := VerbatimGap(consumed, off, cursor) + [s] + rest;
      && Inside(input, all)
      && OutLen(all) == (off - consumed) + s.OutLen() + OutLen(rest)
      && Render(input, all) == input[consumed..off] + SegmentBytes(input, s) + Render(input, rest)
      && SecondItems(all) == (if s.Record? then [s.item.(off := s.newOff)] else []) + SecondItems(rest)
  {
    hide SegmentBytes, VerbatimGap, Render, OutLen, SecondItems;
    var g := VerbatimGap(consumed, off, cursor);
    OneSegment(input, s);
    GapIsGood(input, end, consumed, off, cursor);
    SumsConcat(g, [s]);
    SumsConcat(g + [s], rest);
    RenderConcat(input, g, [s]);
    RenderConcat(input, g + [s], rest);
    RenderGap(input, consumed, off, cursor);
    SecondItemsConcat(g, [s]);
    SecondItemsConcat(g + [s], rest);
    NoSecondInGap(consumed, off, cursor);
  }

  lemma RenderGap(input: seq<byte>, from: nat, to: nat, newOff: nat)
    requires from <= to <= |input|
    ensures forall i :: 0 <= i < |VerbatimGap(from, to, newOff)| ==>
      VerbatimGap(from, to, newOff)[i].Src() + VerbatimGap(from, to, newOff)[i].SrcLen() <= |input|
    ensures Render(input, VerbatimGap(from, to, newOff)) == input[from..to]
  {
    var g := VerbatimGap(from, to, newOff);
    if from < to {
      assert g[1..] == [] && Render(input, g[1..]) == [];
    }
  }

  lemma NoSecondInGap(from: nat, to: nat, newOff: nat)
    ensures SecondItems(VerbatimGap(from, to, newOff)) == []
  {
    var g := VerbatimGap(from, to, newOff);
    if from < to { assert g[1..] == []; }
  }

  /** An output record sits in `w` behind its gap, and the rest follows it. */
  lemma RecordHead(input: seq<byte>, end: nat, consumed: nat, off: nat, cursor: nat, s: Segment, rest: seq<Segment>,
                   w: seq<byte>)
    requires consumed <= off <= end <= |input|
    requires s.Record? && s.newOff == cursor + (off - consumed) && s.Src() + s.SrcLen() <= |input|
    requires Inside(input, rest)
    requires LaidOut(input, VerbatimGap(consumed, off, cursor) + [s] + rest, cursor, w)
    ensures var c := s.newOff + |s.hdr| + s.dataLen;
      LaidOut(input, rest, c, w) && w[s.newOff..c] == SegmentBytes(input, s)
    ensures SecondItems(VerbatimGap(consumed, off, cursor) + [s] + rest)
      == [s.item.(off := s.newOff)] + SecondItems(rest)
  {
    hide SegmentBytes, Render, OutLen, SecondItems;
    GapThenOne(input, end, consumed, off, cursor, s, rest);
    RecordLength(input, s);
    var (g, b) := (input[consumed..off], SegmentBytes(input, s));
    LaidOutRest(input, VerbatimGap(consumed, off, cursor) + [s] + rest, cursor, w, g + b, rest);
    SubSlice(w, cursor, |g + b|, |g|, |g + b|);
    assert (g + b)[|g|..|g + b|] == b;
  }

  lemma RecordLength(input: seq<byte>, s: Segment)
    requires s.Record? && s.Src() + s.SrcLen() <= |input|
    ensures |SegmentBytes(input, s)| == |s.hdr| + s.dataLen
  {
  }

  /** The second run copies up to the record, then finds nothing to change in it. */
  lemma SecondRecord(w: seq<byte>, from: nat, s: Segment, rest: seq<Item>)
    requires s.Record? && s.item.policy == Output && s.item.rule >= 1 && from <= s.newOff
    requires s.newOff + LFH_LEN <= |w| && s.newOff + |s.hdr| + s.dataLen <= |w|
    requires |s.hdr| >= LFH_LEN && HeaderLen(s.hdr) == |s.hdr|
    requires HeaderAt(w, |w|, s.newOff) == Ok(s.hdr)
    requires DataLen(w, |w|, s.item.(off := s.newOff), s.newOff + |s.hdr|) == s.dataLen
    requires NewHeader(s.hdr, s.item.rule, s.newOff) == Some(s.hdr)
    requires
      var c := s.newOff + |s.hdr| + s.dataLen;
      ItemsOk(rest, |w|) && IsIdentity(w, rest, c, PlanFrom(w, |w|, rest, c, c))
    ensures var items := [s.item.(off := s.newOff)] + rest;
      ItemsOk(items, |w|) && IsIdentity(w, items, from, PlanFrom(w, |w|, items, from, from))
  {
    hide HeaderAt, NewHeader, DataLen, PlanFrom, HeaderLen, VerbatimGap, ItemsOk, LE;
    var c := s.newOff + |s.hdr| + s.dataLen;
    SecondPlan(w, from, s, rest);
    var r := PlanFrom(w, |w|, rest, c, c);
    SelfHeader(w, s);
    OneMore(w, from, s, rest, r.value);
  }

  lemma SelfHeader(w: seq<byte>, s: Segment)
    requires s.Record? && s.newOff + LFH_LEN <= |w| && HeaderAt(w, |w|, s.newOff) == Ok(s.hdr)
    ensures s.newOff + |s.hdr| <= |w| && w[s.newOff..s.newOff + |s.hdr|] == s.hdr
  {
    PrefixLen(w, |w|, s.newOff);
  }

  lemma OneMore(w: seq<byte>, from: nat, s: Segment, rest: seq<Item>, tail: seq<Segment>)
    requires s.Record? && from <= s.newOff && s.newOff + |s.hdr| + s.dataLen <= |w|
    requires w[s.newOff..s.newOff + |s.hdr|] == s.hdr
    requires IsIdentity(w, rest, s.newOff + |s.hdr| + s.dataLen, Ok(tail))
    ensures IsIdentity(w, [s.item.(off := s.newOff)] + rest, from,
        Ok(VerbatimGap(from, s.newOff, from) + [Moved(s)] + tail))
  {
    hide VerbatimGap, Render, SegmentBytes;
    GapThenOne(w, |w|, from, s.newOff, from, Moved(s), tail);
    RecordSelf(w, Moved(s), from);
  }

  /** A record segment as the second run sees it: it starts where the first run put it. */
  function Moved(s: Segment): (r: Segment)
    requires s.Record?
  {
    Record(s.item.(off := s.newOff), |s.hdr|, s.dataLen, s.hdr, s.newOff)
  }

  lemma ConsOk(it: Item, rest: seq<Item>, end: nat)
    requires ItemsOk(rest, end) && it.off + LFH_LEN <= end && it.rule >= 1
    ensures ItemsOk([it] + rest, end) && ([it] + rest)[1..] == rest
  {
    assert ([it] + rest)[1..] == rest;
  }

  lemma SecondPlan(w: seq<byte>, from: nat, s: Segment, rest: seq<Item>)
    requires s.Record? && s.item.policy == Output && s.item.rule >= 1 && from <= s.newOff
    requires s.newOff + LFH_LEN <= |w| && s.newOff + |s.hdr| + s.dataLen <= |w|
    requires |s.hdr| >= LFH_LEN && HeaderLen(s.hdr) == |s.hdr|
    requires HeaderAt(w, |w|, s.newOff) == Ok(s.hdr)
    requires DataLen(w, |w|, s.item.(off := s.newOff), s.newOff + |s.hdr|) == s.dataLen
    requires NewHeader(s.hdr, s.item.rule, s.newOff) == Some(s.hdr)
    requires ItemsOk(rest, |w|)
    ensures var items := [s.item.(off := s.newOff)] + rest;
      var c := s.newOff + |s.hdr| + s.dataLen;
      && ItemsOk(items, |w|)
      && PlanFrom(w, |w|, items, from, from)
         == Prepend(VerbatimGap(from, s.newOff, from) + [Moved(s)], PlanFrom(w, |w|, rest, c, c))
  {
    hide HeaderAt, NewHeader, DataLen, PlanFrom, HeaderLen, VerbatimGap, ItemsOk, LE;
    var items := [s.item.(off := s.newOff)] + rest;
    ConsOk(s.item.(off := s.newOff), rest, |w|);
    PlanUnfold(w, |w|, items, from, from);
  }

  /** The bytes of a record that stays where it is. */
  lemma RecordSelf(w: seq<byte>, s: Segment, from: nat)
    requires s.Record? && s.item.off == s.newOff >= from && s.prefixLen == |s.hdr|
      && s.newOff + |s.hdr| + s.dataLen <= |w|
    requires w[s.newOff..s.newOff + |s.hdr|] == s.hdr
    ensures w[from..s.newOff] + SegmentBytes(w, s) + w[s.newOff + |s.hdr| + s.dataLen..] == w[from..]
  {
    var (o, m) := (s.newOff, s.newOff + |s.hdr|);
    var c := m + s.dataLen;
    assert w[o..m] + w[m..c] == w[o..c];
    assert w[from..o] + w[o..c] + w[c..] == w[from..];
  }

  /** Rewriting the rewritten section, padded with any zeros (or any other bytes), with the rewritten
      entries, reproduces it byte for byte and moves no entry. */
  lemma RewriteIdempotent(input: seq<byte>, end: nat, items: seq<Item>, tail: seq<byte>)
    requires end <= |input| && ItemsOk(items, end)
    requires PlanFrom(input, end, items, 0, 0).Ok?
    ensures
      var segs := PlanFrom(input, end, items, 0, 0).value;
      && Inside(input, segs)
      && var w := Render(input, segs) + tail;
      var second := SecondItems(segs);
      && ItemsOk(second, |w|)
      && PlanFrom(w, |w|, second, 0, 0).Ok?
      && var again := PlanFrom(w, |w|, second, 0, 0).value;
      && Inside(w, again)
      && Render(w, again) == w
      && SecondItems(again) == second
  {
    hide PlanFrom, Render, SegmentOk;
    PlanIsGood(input, end, items, 0, 0);
    var segs := PlanFrom(input, end, items, 0, 0).value;
    PlanInside(input, end, items, 0, 0);
    var w := Render(input, segs) + tail;
    assert w[0..0 + OutLen(segs)] == Render(input, segs);
    SecondRun(input, end, items, 0, 0, w, 0);
    assert w[0..] == w;
  }

  lemma SegmentInside(input: seq<byte>, end: nat, s: Segment)
    requires SegmentOk(input, end, s)
    ensures s.Src() + s.SrcLen() <= end <= |input|
  {
  }

  lemma PlanInside(input: seq<byte>, end: nat, items: seq<Item>, consumed: nat, cursor: nat)
    requires end <= |input| && ItemsOk(items, end) && consumed <= end
    requires PlanFrom(input, end, items, consumed, cursor).Ok?
    ensures Inside(input, PlanFrom(input, end, items, consumed, cursor).value)
  {
    hide PlanFrom, SegmentOk, TilesInput, TilesOutput;
    PlanIsGood(input, end, items, consumed, cursor);
    var segs := PlanFrom(input, end, items, consumed, cursor).value;
    forall i | 0 <= i < |segs| ensures segs[i].Src() + segs[i].SrcLen() <= |input| {
      SegmentInside(input, end, segs[i]);
    }
  }
}
