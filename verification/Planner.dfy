/** The planner of `rewrite` in src/align.rs: every output offset is fixed before a byte is copied. */
module Planner {
  import opened Wrappers
  import opened Bytes
  import opened Zip
  import opened AlignExtra
  import opened HeaderReader

  const DATA_DESCRIPTOR_SIG: nat := 0x0807_4b50

  /** What the planner needs to know of a Central Directory entry. */
  datatype Item = Item(off: nat, size: nat, descriptor: bool, rule: nat, policy: EntryPolicy)

  datatype PlanError =
    | Overlaps(at: nat) | Header(e: HeaderError) | RecordOverruns(at: nat) | ExtraTooLong(at: nat)
    | OutsideSection(at: nat) | SharedOffset(at: nat)

  /** A stretch of the input and what becomes of it: unprocessed bytes copied verbatim, an output
      record (header of `prefixLen` bytes replaced by `hdr`, data kept), or a dropped record. */
  datatype Segment =
    | Verbatim(src: nat, len: nat, newOff: nat)
    | Record(item: Item, prefixLen: nat, dataLen: nat, hdr: seq<byte>, newOff: nat)
    | Removed(src: nat, len: nat, newOff: nat)
  {
    function Src(): (r: nat) { if Record? then item.off else src }
    function SrcLen(): (r: nat) { if Record? then prefixLen + dataLen else len }
    function OutLen(): (r: nat) { if Record? then |hdr| + dataLen else if Verbatim? then len else 0 }
  }

  /** A record's data length: a data descriptor adds 16 bytes with its signature, 12 without. */
  function DataLen(input: seq<byte>, end: nat, it: Item, dataOff: nat): (r: nat)
    requires end <= |input|
  {
    var at := dataOff + it.size;
    if !it.descriptor then it.size
    else if at + 4 <= end && U32(input, at) == DATA_DESCRIPTOR_SIG then it.size + 16
    else it.size + 12
  }

  /** The rebuilt local header at output offset `newOff`. */
  function NewHeader(prefix: seq<byte>, rule: nat, newOff: nat): (r: Option<seq<byte>>)
    requires |prefix| >= LFH_LEN && HeaderLen(prefix) == |prefix| && rule >= 1
  {
    var fixed := LFH_LEN + U16(prefix, 26);
    if rule == 1 then Some(prefix)
    else
      var extra := AligningExtra(prefix[fixed..], newOff + fixed, EffectiveAlignment(rule, prefix[fixed..]));
      if |extra| > 0xffff then None
      else Some(Patched(prefix[..fixed], 28, PutU16(|extra|)) + extra)
  }

  function VerbatimGap(from: nat, to: nat, newOff: nat): (r: seq<Segment>) {
    if from < to then [Verbatim(from, to - from, newOff)] else []
  }

  /** The plan for the entries still to come, in file order, when input up to `consumed` is
      accounted for and output up to `cursor` is laid out. */
  function PlanFrom(input: seq<byte>, end: nat, items: seq<Item>, consumed: nat, cursor: nat)
    : (r: Result<seq<Segment>, PlanError>)
    requires end <= |input| && ItemsOk(items, end)
    decreases |items|
  {
    if items == [] then Ok(VerbatimGap(consumed, end, cursor))
    else
      var it := items[0];
      if it.policy == Gap then PlanFrom(input, end, items[1..], consumed, cursor)
      else if it.off < consumed then Err(Overlaps(it.off))
      else
        var gap := VerbatimGap(consumed, it.off, cursor);
        var newOff := cursor + (it.off - consumed);
        match HeaderAt(input, end, it.off)
        case Err(e) => Err(Header(e))
        case Ok(prefix) =>
          var dataLen := DataLen(input, end, it, it.off + |prefix|);
          var next := it.off + |prefix| + dataLen;
          if next > end then Err(RecordOverruns(it.off))
          else if it.policy == Skip then
            Prepend(gap + [Removed(it.off, |prefix| + dataLen, newOff)], PlanFrom(input, end, items[1..], next, newOff))
          else
            PrefixLen(input, end, it.off);
            match NewHeader(prefix, it.rule, newOff)
            case None => Err(ExtraTooLong(it.off))
            case Some(hdr) =>
              Prepend(gap + [Record(it, |prefix|, dataLen, hdr, newOff)],
                      PlanFrom(input, end, items[1..], next, newOff + |hdr| + dataLen))
  }

  function Prepend(segs: seq<Segment>, r: Result<seq<Segment>, PlanError>): (v: Result<seq<Segment>, PlanError>) {
    match r case Ok(s) => Ok(segs + s) case Err(e) => Err(e)
  }

  lemma PrefixLen(input: seq<byte>, end: nat, off: nat)
    requires off + LFH_LEN <= end <= |input| && HeaderAt(input, end, off).Ok?
    ensures var p := HeaderAt(input, end, off).value;
      |p| >= LFH_LEN && HeaderLen(p) == |p| && p == input[off..off + |p|] && off + |p| <= end && p[..4] == LFH_SIG
  {
    var h := input[off..off + LFH_LEN];
    var p := HeaderAt(input, end, off).value;
    assert p == input[off..off + HeaderLen(h)];
    hide LE;
    SubSlice(input, off, LFH_LEN, 26, 28); SubSlice(input, off, |p|, 26, 28);
    SubSlice(input, off, LFH_LEN, 28, 30); SubSlice(input, off, |p|, 28, 30);
    SubSlice(input, off, LFH_LEN, 0, 4); SubSlice(input, off, |p|, 0, 4);
    assert p[..4] == p[0..4] && h[..4] == h[0..4];
  }

  // --- Tiling, conservation, contents ----------------------------------------------------------

  ghost predicate ItemsOk(items: seq<Item>, end: nat) {
    forall i :: 0 <= i < |items| ==> items[i].off + LFH_LEN <= end && items[i].rule >= 1
  }

  /** The segments partition the input stretch [from, to): contiguous and without overlap. */
  ghost predicate TilesInput(segs: seq<Segment>, from: nat, to: nat) {
    if segs == [] then from == to
    else segs[0].Src() == from && segs[0].SrcLen() > 0 && TilesInput(segs[1..], from + segs[0].SrcLen(), to)
  }

  /** They tile the output stretch [from, to). */
  ghost predicate TilesOutput(segs: seq<Segment>, from: nat, to: nat) {
    if segs == [] then from == to
    else segs[0].newOff == from && TilesOutput(segs[1..], from + segs[0].OutLen(), to)
  }

  function OutLen(segs: seq<Segment>): (r: nat) {
    if segs == [] then 0 else segs[0].OutLen() + OutLen(segs[1..])
  }

  /** Bytes of dropped records. */
  function RemovedBytes(segs: seq<Segment>): (r: nat) {
    if segs == [] then 0 else (if segs[0].Removed? then segs[0].len else 0) + RemovedBytes(segs[1..])
  }

  /** Change in header (that is, extra field) bytes. */
  function HeaderGrowth(segs: seq<Segment>): (r: int) {
    if segs == [] then 0
      else (if segs[0].Record? then |segs[0].hdr| - segs[0].prefixLen else 0) + HeaderGrowth(segs[1..])
  }

  /** What a record segment says of the input it came from. */
  ghost predicate SegmentOk(input: seq<byte>, end: nat, s: Segment) {
    && s.Src() + s.SrcLen() <= end <= |input|
    && (s.Record? ==>
      && s.prefixLen >= LFH_LEN
      && HeaderAt(input, end, s.item.off) == Ok(input[s.item.off..s.item.off + s.prefixLen])
      && HeaderLen(input[s.item.off..s.item.off + s.prefixLen]) == s.prefixLen
      && s.item.rule >= 1 && s.item.policy == Output
      && s.dataLen == DataLen(input, end, s.item, s.item.off + s.prefixLen)
      && NewHeader(input[s.item.off..s.item.off + s.prefixLen], s.item.rule, s.newOff) == Some(s.hdr))
  }

  lemma {:induction false} TilesConcat(x: seq<Segment>, y: seq<Segment>, a: nat, b: nat, c: nat)
    requires TilesInput(x, a, b) && TilesInput(y, b, c)
    ensures TilesInput(x + y, a, c)
  {
    if x == [] {
      assert x + y == y;
    } else {
      TilesConcat(x[1..], y, a + x[0].SrcLen(), b, c);
      assert (x + y)[1..] == x[1..] + y;
    }
  }

  lemma {:induction false} OutTilesConcat(x: seq<Segment>, y: seq<Segment>, a: nat, b: nat, c: nat)
    requires TilesOutput(x, a, b) && TilesOutput(y, b, c)
    ensures TilesOutput(x + y, a, c)
  {
    if x == [] {
      assert x + y == y;
    } else {
      OutTilesConcat(x[1..], y, a + x[0].OutLen(), b, c);
      assert (x + y)[1..] == x[1..] + y;
    }
  }

  lemma {:induction false} SumsConcat(x: seq<Segment>, y: seq<Segment>)
    ensures OutLen(x + y) == OutLen(x) + OutLen(y)
    ensures RemovedBytes(x + y) == RemovedBytes(x) + RemovedBytes(y)
    ensures HeaderGrowth(x + y) == HeaderGrowth(x) + HeaderGrowth(y)
  {
    if x == [] {
      assert x + y == y;
    } else {
      SumsConcat(x[1..], y);
      assert (x + y)[1..] == x[1..] + y;
    }
  }

  /** The items that are output, in order. */
  function OutputItems(items: seq<Item>): (r: seq<Item>) {
    if items == [] then [] else (if items[0].policy == Output then [items[0]] else []) + OutputItems(items[1..])
  }

  function RecordItems(segs: seq<Segment>): (r: seq<Item>) {
    if segs == [] then [] else (if segs[0].Record? then [segs[0].item] else []) + RecordItems(segs[1..])
  }

  lemma {:induction false} RecordItemsConcat(x: seq<Segment>, y: seq<Segment>)
    ensures RecordItems(x + y) == RecordItems(x) + RecordItems(y)
  {
    if x == [] {
      assert x + y == y;
    } else {
      RecordItemsConcat(x[1..], y);
      assert (x + y)[1..] == x[1..] + y;
      var first := if x[0].Record? then [x[0].item] else [];
      assert RecordItems(x + y) == first + (RecordItems(x[1..]) + RecordItems(y));
    }
  }

  /** A plan accounts for every input byte from `consumed` on, once; lays the output out without a
      hole from `cursor` on; and has one record per output entry, in file order. */
  ghost predicate GoodPlan(input: seq<byte>, end: nat, items: seq<Item>, consumed: nat, cursor: nat,
                           segs: seq<Segment>) {
    && TilesInput(segs, consumed, end)
    && TilesOutput(segs, cursor, cursor + OutLen(segs))
    && OutLen(segs) + RemovedBytes(segs) == end - consumed + HeaderGrowth(segs)
    && (forall i :: 0 <= i < |segs| ==> SegmentOk(input, end, segs[i]))
    && RecordItems(segs) == OutputItems(items)
  }

  lemma {:induction false} PlanIsGood(input: seq<byte>, end: nat, items: seq<Item>, consumed: nat, cursor: nat)
    requires end <= |input| && ItemsOk(items, end) && consumed <= end
    requires PlanFrom(input, end, items, consumed, cursor).Ok?
    ensures GoodPlan(input, end, items, consumed, cursor, PlanFrom(input, end, items, consumed, cursor).value)
    decreases |items|
  {
    hide HeaderAt, NewHeader, DataLen, SegmentOk, TilesInput, TilesOutput, PlanFrom, HeaderLen, LE, VerbatimGap,
      GoodPlan;
    PlanUnfold(input, end, items, consumed, cursor);
    var segs := PlanFrom(input, end, items, consumed, cursor).value;
    if items == [] {
      LastGapGood(input, end, consumed, cursor);
    } else if items[0].policy == Gap {
      GapPolicyGood(input, end, items, consumed, cursor, segs);
      PlanIsGood(input, end, items[1..], consumed, cursor);
    } else {
      var it := items[0];
      var newOff := cursor + (it.off - consumed);
      PrefixLen(input, end, it.off);
      var prefix := HeaderAt(input, end, it.off).value;
      var dataLen := DataLen(input, end, it, it.off + |prefix|);
      var next := it.off + |prefix| + dataLen;
      var head, cursor';
      if it.policy == Skip {
        head, cursor' := Removed(it.off, |prefix| + dataLen, newOff), newOff;
        RemovedOk(input, end, head);
      } else {
        var hdr := NewHeader(prefix, it.rule, newOff).value;
        head, cursor' := Record(it, |prefix|, dataLen, hdr, newOff), newOff + |hdr| + dataLen;
        RecordOk(input, end, it, newOff);
      }
      var rest := PlanFrom(input, end, items[1..], next, cursor').value;
      PlanIsGood(input, end, items[1..], next, cursor');
      ConsGood(input, end, items, head, rest, consumed, cursor, next, cursor');
      assert segs == VerbatimGap(consumed, it.off, cursor) + [head] + rest;
    }
  }

  lemma LastGapGood(input: seq<byte>, end: nat, consumed: nat, cursor: nat)
    requires consumed <= end <= |input|
    ensures GoodPlan(input, end, [], consumed, cursor, VerbatimGap(consumed, end, cursor))
  {
    hide SegmentOk, TilesInput, TilesOutput, VerbatimGap;
    GapIsGood(input, end, consumed, end, cursor);
  }

  lemma GapPolicyGood(input: seq<byte>, end: nat, items: seq<Item>, consumed: nat, cursor: nat, segs: seq<Segment>)
    requires consumed <= end <= |input| && items != [] && items[0].policy == Gap
    ensures GoodPlan(input, end, items[1..], consumed, cursor, segs) ==>
      GoodPlan(input, end, items, consumed, cursor, segs)
  {
    hide SegmentOk, TilesInput, TilesOutput;
  }

  lemma RemovedOk(input: seq<byte>, end: nat, s: Segment)
    requires s.Removed? && s.src + s.len <= end <= |input|
    ensures SegmentOk(input, end, s)
  {
  }

  lemma RecordOk(input: seq<byte>, end: nat, it: Item, newOff: nat)
    requires it.off + LFH_LEN <= end <= |input| && HeaderAt(input, end, it.off).Ok? && it.rule >= 1
      && it.policy == Output
    ensures var prefix := HeaderAt(input, end, it.off).value;
      var dataLen := DataLen(input, end, it, it.off + |prefix|);
      |prefix| >= LFH_LEN && HeaderLen(prefix) == |prefix| &&
      (it.off + |prefix| + dataLen <= end && NewHeader(prefix, it.rule, newOff).Some? ==>
        SegmentOk(input, end, Record(it, |prefix|, dataLen, NewHeader(prefix, it.rule, newOff).value, newOff)))
  {
    hide NewHeader, DataLen, HeaderAt;
    PrefixLen(input, end, it.off);
  }

  lemma GapIsGood(input: seq<byte>, end: nat, from: nat, to: nat, newOff: nat)
    requires from <= to <= end <= |input|
    ensures var g := VerbatimGap(from, to, newOff);
      && TilesInput(g, from, to) && TilesOutput(g, newOff, newOff + (to - from))
      && OutLen(g) == to - from && RemovedBytes(g) == 0 && HeaderGrowth(g) == 0
      && (forall i :: 0 <= i < |g| ==> SegmentOk(input, end, g[i]))
      && RecordItems(g) == []
  {
    var g := VerbatimGap(from, to, newOff);
    if from < to {
      assert g[1..] == [];
    }
  }

  lemma SingleSegment(s: Segment)
    requires s.SrcLen() > 0
    ensures TilesInput([s], s.Src(), s.Src() + s.SrcLen()) && TilesOutput([s], s.newOff, s.newOff + s.OutLen())
    ensures OutLen([s]) == s.OutLen() && RemovedBytes([s]) == (if s.Removed? then s.len else 0)
    ensures HeaderGrowth([s]) == (if s.Record? then |s.hdr| - s.prefixLen else 0)
    ensures RecordItems([s]) == (if s.Record? then [s.item] else [])
  {
    assert [s][1..] == [];
  }

  /** One step of the induction: gap, then one record, then the rest. */
  lemma ConsGood(input: seq<byte>, end: nat, items: seq<Item>, head: Segment, rest: seq<Segment>,
                 consumed: nat, cursor: nat, next: nat, cursor': nat)
    requires items != [] && items[0].policy != Gap
    requires consumed <= items[0].off <= end <= |input|
    requires head.Src() == items[0].off && head.newOff == cursor + (items[0].off - consumed)
    requires head.SrcLen() > 0 && next == head.Src() + head.SrcLen() && cursor' == head.newOff + head.OutLen()
    requires SegmentOk(input, end, head) && !head.Verbatim?
    requires (head.Record? <==> items[0].policy == Output) && (head.Record? ==> head.item == items[0])
    requires GoodPlan(input, end, items[1..], next, cursor', rest)
    ensures GoodPlan(input, end, items, consumed, cursor, VerbatimGap(consumed, items[0].off, cursor) + [head] + rest)
  {
    hide SegmentOk, TilesInput, TilesOutput;
    var g := VerbatimGap(consumed, items[0].off, cursor);
    GapIsGood(input, end, consumed, items[0].off, cursor);
    SingleSegment(head);
    TilesConcat(g, [head], consumed, items[0].off, next);
    TilesConcat(g + [head], rest, consumed, next, end);
    SumsConcat(g, [head]);
    SumsConcat(g + [head], rest);
    OutTilesConcat(g, [head], cursor, head.newOff, cursor');
    OutTilesConcat(g + [head], rest, cursor, cursor', cursor' + OutLen(rest));
    RecordItemsConcat(g, [head]);
    RecordItemsConcat(g + [head], rest);
  }

  // --- Stretches -----------------------------------------------------------------------------------

  /** The data descriptor of section 4.3.9 of the APPNOTE, at `at`: none without the flag; 16 bytes when
      it starts with its signature, else 12. */
  function DescriptorLen(input: seq<byte>, end: nat, flagged: bool, at: nat): (r: nat)
    requires end <= |input|
  {
    if !flagged then 0
    else if at + 4 <= end && input[at..at + 4] == [0x50, 0x4b, 0x07, 0x08] then 16
    else 12
  }

  /** All bytes of an entry: 30 of header, name, extra, data, descriptor. */
  function Stretch(input: seq<byte>, end: nat, it: Item): (r: nat)
    requires it.off + 30 <= end <= |input|
  {
    var dataEnd := it.off + 30 + U16(input, it.off + 26) + U16(input, it.off + 28) + it.size;
    dataEnd - it.off + DescriptorLen(input, end, it.descriptor, dataEnd)
  }

  lemma SignatureIs(input: seq<byte>, at: nat)
    requires at + 4 <= |input|
    ensures U32(input, at) == DATA_DESCRIPTOR_SIG <==> input[at..at + 4] == [0x50, 0x4b, 0x07, 0x08]
  {
    LoadedBytes(input, at);
    var b := input[at..at + 4];
    assert b == [input[at], input[at + 1], input[at + 2], input[at + 3]];
    hide U32;
  }

  /** Header and data as the planner reads them are the entry's stretch. */
  lemma StretchIs(input: seq<byte>, end: nat, it: Item)
    requires it.off + LFH_LEN <= end <= |input| && HeaderAt(input, end, it.off).Ok?
    ensures var n := |HeaderAt(input, end, it.off).value|;
      n + DataLen(input, end, it, it.off + n) == Stretch(input, end, it)
  {
    var h := input[it.off..it.off + LFH_LEN];
    var n := HeaderLen(h);
    hide LE;
    SubSlice(input, it.off, LFH_LEN, 26, 28); SubSlice(input, it.off, LFH_LEN, 28, 30);
    assert h[26..26 + 2] == input[it.off + 26..it.off + 26 + 2] && h[28..28 + 2] == input[it.off + 28..it.off + 28 + 2];
    var at := it.off + n + it.size;
    if at + 4 <= end { SignatureIs(input, at); }
  }

  /** The plan treats exactly the entry's bytes as the entry: as a record when it is kept, as removed
      when it is skipped. */
  ghost predicate StretchPlanned(input: seq<byte>, end: nat, segs: seq<Segment>, it: Item)
    requires it.off + 30 <= end <= |input|
  {
    exists k :: 0 <= k < |segs| && segs[k].Src() == it.off && segs[k].SrcLen() == Stretch(input, end, it)
      && (if it.policy == Output then segs[k].Record? && segs[k].item == it else segs[k].Removed?)
  }

  ghost predicate AllStretches(input: seq<byte>, end: nat, items: seq<Item>, segs: seq<Segment>)
    requires end <= |input| && ItemsOk(items, end)
  {
    forall i :: 0 <= i < |items| && items[i].policy != Gap ==> StretchPlanned(input, end, segs, items[i])
  }

  lemma StretchStays(input: seq<byte>, end: nat, pre: seq<Segment>, segs: seq<Segment>, it: Item)
    requires it.off + 30 <= end <= |input| && StretchPlanned(input, end, segs, it)
    ensures StretchPlanned(input, end, pre + segs, it)
  {
    hide Stretch;
    var k :| 0 <= k < |segs| && segs[k].Src() == it.off && segs[k].SrcLen() == Stretch(input, end, it)
      && (if it.policy == Output then segs[k].Record? && segs[k].item == it else segs[k].Removed?);
    assert (pre + segs)[|pre| + k] == segs[k];
  }

  /** The records are apart: each lies behind `consumed` and inside the section, none reaches into the
      next. */
  ghost predicate Apart(input: seq<byte>, end: nat, items: seq<Item>, consumed: nat)
    requires end <= |input| && ItemsOk(items, end)
  {
    && (forall i :: 0 <= i < |items| && items[i].policy != Gap ==>
          && HeaderAt(input, end, items[i].off).Ok? && consumed <= items[i].off
          && items[i].off + Stretch(input, end, items[i]) <= end)
    && (forall i, j :: 0 <= i < j < |items| && items[i].policy != Gap && items[j].policy != Gap ==>
          items[i].off + Stretch(input, end, items[i]) <= items[j].off)
  }

  lemma ApartCons(input: seq<byte>, end: nat, items: seq<Item>, consumed: nat, next: nat)
    requires end <= |input| && ItemsOk(items, end) && items != [] && consumed <= next
    ensures items[0].policy == Gap ==>
      (Apart(input, end, items, consumed) <==> Apart(input, end, items[1..], consumed))
    ensures items[0].policy != Gap && HeaderAt(input, end, items[0].off).Ok? && consumed <= items[0].off
            && next == items[0].off + Stretch(input, end, items[0]) <= end ==>
      (Apart(input, end, items, consumed) <==> Apart(input, end, items[1..], next))
  {
    hide HeaderAt, Stretch;
    var rest := items[1..];
    if Apart(input, end, rest, if items[0].policy == Gap then consumed else next) {
      forall i | 0 <= i < |items| && i > 0 ensures items[i] == rest[i - 1] {
      }
    }
    if Apart(input, end, items, consumed) {
      forall i | 0 <= i < |rest| ensures rest[i] == items[i + 1] {
      }
    }
  }

  /** A plan covers the stretch of every entry that is not left as a gap; and there is one only if the
      stretches are apart. */
  lemma {:induction false} EveryStretch(input: seq<byte>, end: nat, items: seq<Item>, consumed: nat, cursor: nat)
    requires end <= |input| && ItemsOk(items, end) && consumed <= end
    requires PlanFrom(input, end, items, consumed, cursor).Ok?
    ensures AllStretches(input, end, items, PlanFrom(input, end, items, consumed, cursor).value)
    ensures Apart(input, end, items, consumed)
    decreases |items|
  {
    hide HeaderAt, NewHeader, DataLen, PlanFrom, HeaderLen, LE, Stretch, StretchPlanned, Apart;
    PlanUnfold(input, end, items, consumed, cursor);
    var segs := PlanFrom(input, end, items, consumed, cursor).value;
    if items == [] {
      NothingApart(input, end, consumed);
    } else if items[0].policy == Gap {
      EveryStretch(input, end, items[1..], consumed, cursor);
      ApartCons(input, end, items, consumed, consumed);
    } else {
      var it := items[0];
      var newOff := cursor + (it.off - consumed);
      StretchIs(input, end, it);
      var prefix := HeaderAt(input, end, it.off).value;
      var dataLen := DataLen(input, end, it, it.off + |prefix|);
      var next := it.off + |prefix| + dataLen;
      var head, cursor';
      if it.policy == Skip {
        head, cursor' := Removed(it.off, |prefix| + dataLen, newOff), newOff;
      } else {
        var hdr := NewHeader(prefix, it.rule, newOff).value;
        head, cursor' := Record(it, |prefix|, dataLen, hdr, newOff), newOff + |hdr| + dataLen;
      }
      var rest := PlanFrom(input, end, items[1..], next, cursor').value;
      EveryStretch(input, end, items[1..], next, cursor');
      ApartCons(input, end, items, consumed, next);
      var pre := VerbatimGap(consumed, it.off, cursor) + [head];
      assert segs == pre + rest;
      FirstStretch(input, end, VerbatimGap(consumed, it.off, cursor), head, rest, it);
      forall i | 0 < i < |items| && items[i].policy != Gap ensures StretchPlanned(input, end, segs, items[i]) {
        assert items[i] == items[1..][i - 1];
        StretchStays(input, end, pre, rest, items[i]);
      }
    }
  }

  lemma NothingApart(input: seq<byte>, end: nat, consumed: nat)
    requires end <= |input|
    ensures Apart(input, end, [], consumed)
  {
  }

  lemma FirstStretch(input: seq<byte>, end: nat, gap: seq<Segment>, head: Segment, rest: seq<Segment>, it: Item)
    requires it.off + 30 <= end <= |input| && head.Src() == it.off && head.SrcLen() == Stretch(input, end, it)
    requires if it.policy == Output then head.Record? && head.item == it else head.Removed?
    ensures StretchPlanned(input, end, gap + [head] + rest, it)
  {
    assert (gap + [head] + rest)[|gap|] == head;
  }

  /** That is enough, unless a rebuilt extra field is too long. */
  lemma {:induction false} PlanSucceeds(input: seq<byte>, end: nat, items: seq<Item>, consumed: nat, cursor: nat)
    requires end <= |input| && ItemsOk(items, end) && consumed <= end && Apart(input, end, items, consumed)
    requires forall i, at: nat :: 0 <= i < |items| && items[i].policy == Output ==>
      Rebuildable(input, end, items[i], at)
    ensures PlanFrom(input, end, items, consumed, cursor).Ok?
    decreases |items|
  {
    hide HeaderAt, NewHeader, DataLen, PlanFrom, HeaderLen, LE, Stretch, Apart;
    PlanUnfold(input, end, items, consumed, cursor);
    if items != [] {
      var it := items[0];
      if it.policy == Gap {
        ApartCons(input, end, items, consumed, consumed);
        PlanSucceeds(input, end, items[1..], consumed, cursor);
      } else {
        FirstApart(input, end, items, consumed);
        StretchIs(input, end, it);
        var newOff := cursor + (it.off - consumed);
        var prefix := HeaderAt(input, end, it.off).value;
        var dataLen := DataLen(input, end, it, it.off + |prefix|);
        var next := it.off + |prefix| + dataLen;
        ApartCons(input, end, items, consumed, next);
        if it.policy == Skip {
          PlanSucceeds(input, end, items[1..], next, newOff);
        } else {
          assert Rebuildable(input, end, it, newOff);
          PlanSucceeds(input, end, items[1..], next, newOff + |NewHeader(prefix, it.rule, newOff).value| + dataLen);
        }
      }
    }
  }

  /** The entry's header can be rebuilt at `at`. */
  ghost predicate Rebuildable(input: seq<byte>, end: nat, it: Item, at: nat)
    requires it.off + LFH_LEN <= end <= |input| && it.rule >= 1
  {
    HeaderAt(input, end, it.off).Ok? ==>
      var p := HeaderAt(input, end, it.off).value;
      |p| >= LFH_LEN && HeaderLen(p) == |p| && NewHeader(p, it.rule, at).Some?
  }

  lemma FirstApart(input: seq<byte>, end: nat, items: seq<Item>, consumed: nat)
    requires end <= |input| && ItemsOk(items, end) && items != [] && items[0].policy != Gap
    requires Apart(input, end, items, consumed)
    ensures HeaderAt(input, end, items[0].off).Ok? && consumed <= items[0].off
    ensures items[0].off + Stretch(input, end, items[0]) <= end
  {
  }

  // --- The bytes -----------------------------------------------------------------------------------

  function SegmentBytes(input: seq<byte>, s: Segment): (r: seq<byte>)
    requires s.Src() + s.SrcLen() <= |input|
  {
    match s
    case Verbatim(src, len, _) => input[src..src + len]
    case Record(it, prefixLen, dataLen, hdr, _) => hdr + input[it.off + prefixLen..it.off + prefixLen + dataLen]
    case Removed(_, _, _) => []
  }

  /** The sequential output: one segment after the other. */
  function Render(input: seq<byte>, segs: seq<Segment>): (r: seq<byte>)
    requires forall i :: 0 <= i < |segs| ==> segs[i].Src() + segs[i].SrcLen() <= |input|
    ensures |r| == OutLen(segs)
  {
    if segs == [] then [] else SegmentBytes(input, segs[0]) + Render(input, segs[1..])
  }

  lemma {:induction false} RenderConcat(input: seq<byte>, x: seq<Segment>, y: seq<Segment>)
    requires forall i :: 0 <= i < |x| ==> x[i].Src() + x[i].SrcLen() <= |input|
    requires forall i :: 0 <= i < |y| ==> y[i].Src() + y[i].SrcLen() <= |input|
    ensures forall i :: 0 <= i < |x + y| ==> (x + y)[i].Src() + (x + y)[i].SrcLen() <= |input|
    ensures Render(input, x + y) == Render(input, x) + Render(input, y)
  {
    hide SegmentBytes;
    if x == [] {
      assert x + y == y;
    } else {
      RenderConcat(input, x[1..], y);
      assert (x + y)[1..] == x[1..] + y;
    }
  }

  /** The input header of a record segment. */
  function OldHeader(input: seq<byte>, s: Segment): (r: seq<byte>)
    requires s.Record? && s.item.off + s.prefixLen <= |input|
  {
    input[s.item.off..s.item.off + s.prefixLen]
  }

  lemma OldHeaderOk(input: seq<byte>, end: nat, s: Segment)
    requires s.Record? && SegmentOk(input, end, s)
    ensures var p := OldHeader(input, s);
      && |p| == s.prefixLen >= LFH_LEN && HeaderLen(p) == |p| && p[..4] == LFH_SIG
      && LFH_LEN + U16(p, 26) <= |p|
      && NewHeader(p, s.item.rule, s.newOff) == Some(s.hdr)
  {
    PrefixLen(input, end, s.item.off);
  }

  /** A record of the output: its rebuilt header keeps everything but the extra-length field and the
      extra, and its data and descriptor bytes are the input's. */
  lemma RecordBytesKept(input: seq<byte>, end: nat, s: Segment)
    requires s.Record? && SegmentOk(input, end, s)
    ensures var p := OldHeader(input, s);
      && |p| >= LFH_LEN && LFH_LEN + U16(p, 26) <= |p|
      && |s.hdr| >= LFH_LEN + U16(p, 26) && HeaderLen(s.hdr) == |s.hdr| && s.hdr[..4] == LFH_SIG
      && U16(s.hdr, 26) == U16(p, 26)
      && s.hdr[..28] == p[..28]
      && s.hdr[LFH_LEN..LFH_LEN + U16(p, 26)] == p[LFH_LEN..LFH_LEN + U16(p, 26)]
      && (s.item.rule == 1 ==> s.hdr == p)
    ensures SegmentBytes(input, s)[|s.hdr|..] == input[s.item.off + s.prefixLen..s.item.off + s.prefixLen + s.dataLen]
    ensures s.item.off + 30 <= end && s.prefixLen + s.dataLen == Stretch(input, end, s.item)
  {
    hide LE, AligningExtra, EffectiveAlignment, NewHeader, DataLen, HeaderAt, Patched, HeaderLen, Stretch;
    RecordStretch(input, end, s);
    OldHeaderOk(input, end, s);
    var p := OldHeader(input, s);
    if s.item.rule > 1 {
      HeaderKept(p, s.item.rule, s.newOff);
      assert s.hdr[..4] == s.hdr[..28][..4] && p[..4] == p[..28][..4];
    } else {
      PlainHeader(p, s.newOff);
    }
  }

  lemma RecordStretch(input: seq<byte>, end: nat, s: Segment)
    requires s.Record? && SegmentOk(input, end, s)
    ensures s.item.off + 30 <= end && s.prefixLen + s.dataLen == Stretch(input, end, s.item)
  {
    hide Stretch, DataLen, NewHeader, HeaderAt, HeaderLen;
    StretchIs(input, end, s.item);
  }

  lemma PlainHeader(p: seq<byte>, newOff: nat)
    requires |p| >= LFH_LEN && HeaderLen(p) == |p|
    ensures NewHeader(p, 1, newOff) == Some(p)
  {
  }

  /** The rebuilt header of an aligned entry, part by part. */
  lemma HeaderKept(p: seq<byte>, rule: nat, newOff: nat)
    requires |p| >= LFH_LEN && HeaderLen(p) == |p| && rule > 1 && NewHeader(p, rule, newOff).Some?
    ensures var h := NewHeader(p, rule, newOff).value;
      var fixed := LFH_LEN + U16(p, 26);
      var extra := AligningExtra(p[fixed..], newOff + fixed, EffectiveAlignment(rule, p[fixed..]));
      && |extra| <= 0xffff && |h| == fixed + |extra| && h[fixed..] == extra
      && h[..28] == p[..28] && h[LFH_LEN..fixed] == p[LFH_LEN..fixed]
      && U16(h, 26) == U16(p, 26) && U16(h, 28) == |extra| && HeaderLen(h) == |h|
  {
    hide AligningExtra, EffectiveAlignment, LE;
    var h := NewHeader(p, rule, newOff).value;
    var fixed := LFH_LEN + U16(p, 26);
    var extra := AligningExtra(p[fixed..], newOff + fixed, EffectiveAlignment(rule, p[fixed..]));
    var q := Patched(p[..fixed], 28, PutU16(|extra|));
    assert h == q + extra;
    assert q == p[..28] + PutU16(|extra|) + p[30..fixed];
    assert h[26..26 + 2] == p[26..26 + 2];
    assert h[28..28 + 2] == PutU16(|extra|)[0..0 + 2];
  }

  /** Every aligned entry's data lands on the larger of the rule's alignment and the declared one. */
  lemma RecordAligned(input: seq<byte>, end: nat, s: Segment)
    requires s.Record? && SegmentOk(input, end, s) && s.item.rule > 1
    ensures var p := OldHeader(input, s);
      && |p| >= LFH_LEN && LFH_LEN + U16(p, 26) <= |p|
      && (s.newOff + |s.hdr|) % EffectiveAlignment(s.item.rule, p[LFH_LEN + U16(p, 26)..]) == 0
  {
    OldHeaderOk(input, end, s);
    hide LE, AligningExtra, EffectiveAlignment, NewHeader, DataLen, HeaderAt;
    var p := OldHeader(input, s);
    HeaderKept(p, s.item.rule, s.newOff);
    var fixed := LFH_LEN + U16(p, 26);
    ExtraAligns(p[fixed..], s.newOff + fixed, EffectiveAlignment(s.item.rule, p[fixed..]));
  }

  // --- The loop ------------------------------------------------------------------------------------

  /** `Plan`: `idx` is None for a verbatim copy. */
  datatype Plan = Plan(idx: Option<nat>, srcOff: nat, srcLen: nat, newOff: nat, hdr: seq<byte>) {
    function OutEnd(): (r: nat) { newOff + |hdr| + srcLen }
  }

  /** The plans are the segments without the dropped records. */
  ghost predicate PlansMatch(plans: seq<Plan>, segs: seq<Segment>, items: seq<Item>) {
    if segs == [] then plans == []
    else if segs[0].Removed? then PlansMatch(plans, segs[1..], items)
    else plans != [] && PlanIs(plans[0], segs[0], items) && PlansMatch(plans[1..], segs[1..], items)
  }

  ghost predicate PlanIs(p: Plan, s: Segment, items: seq<Item>) {
    match s
    case Verbatim(src, len, newOff) => p == Plan(None, src, len, newOff, [])
    case Record(it, prefixLen, dataLen, hdr, newOff) =>
      && p.idx.Some? && p.idx.value < |items| && items[p.idx.value] == it
      && p == Plan(p.idx, it.off + prefixLen, dataLen, newOff, hdr)
    case Removed(_, _, _) => false
  }

  lemma {:induction false} PlansMatchSnoc(plans: seq<Plan>, segs: seq<Segment>, items: seq<Item>, p: Plan, s: Segment)
    requires PlansMatch(plans, segs, items)
    ensures s.Removed? ==> PlansMatch(plans, segs + [s], items)
    ensures PlanIs(p, s, items) ==> PlansMatch(plans + [p], segs + [s], items)
    decreases |segs|
  {
    hide PlanIs;
    if segs == [] {
      assert (segs + [s])[1..] == [] && (plans + [p])[1..] == [];
      assert PlanIs(p, s, items) ==> !s.Removed? by { NotRemoved(p, s, items); }
    } else {
      assert (segs + [s])[1..] == segs[1..] + [s];
      if segs[0].Removed? {
        PlansMatchSnoc(plans, segs[1..], items, p, s);
      } else {
        PlansMatchSnoc(plans[1..], segs[1..], items, p, s);
        assert (plans + [p])[1..] == plans[1..] + [p];
      }
    }
  }

  lemma NotRemoved(p: Plan, s: Segment, items: seq<Item>)
    ensures PlanIs(p, s, items) ==> !s.Removed?
  {
  }

  /** Entry indices in file order: `order[k]` is the entry whose header comes k-th. */
  ghost predicate FileOrder(order: seq<nat>, items: seq<Item>) {
    && |order| == |items|
    && (forall k :: 0 <= k < |order| ==> order[k] < |items|)
    && (forall i :: 0 <= i < |items| ==> i in order)
    && (forall j, k :: 0 <= j < k < |order| ==> items[order[j]].off < items[order[k]].off)
  }

  function InOrder(order: seq<nat>, items: seq<Item>): (r: seq<Item>)
    requires forall k :: 0 <= k < |order| ==> order[k] < |items|
    ensures |r| == |order|
  {
    seq(|order|, k requires 0 <= k < |order| => items[order[k]])
  }

  lemma PrependTwice(x: seq<Segment>, y: seq<Segment>, r: Result<seq<Segment>, PlanError>)
    ensures Prepend(x, Prepend(y, r)) == Prepend(x + y, r)
  {
    if r.Ok? { assert x + (y + r.value) == (x + y) + r.value; }
  }

  /** The planning loop of `rewrite`, with its cached header reads. `items[i]` describes `entries[i]`;
      in a flaky file a header read may fail. */
  method MakePlans(input: seq<byte>, end: nat, items: seq<Item>, order: seq<nat>, flaky: bool)
    returns (r: Result<(seq<Plan>, nat), PlanError>, ghost segs: seq<Segment>)
    requires end <= |input| && ItemsOk(items, end) && FileOrder(order, items)
    ensures (flaky && r == Err(Header(ReadFailed))) ||
      match PlanFrom(input, end, InOrder(order, items), 0, 0)
      case Err(e) => r == Err(e)
      case Ok(s) => r.Ok? && PlansMatch(r.value.0, s, items) && r.value.1 == OutLen(s)
    ensures r.Ok? ==> PlanFrom(input, end, InOrder(order, items), 0, 0) == Ok(segs)
    ensures r.Ok? ==> AllStretches(input, end, items, segs)
  {
    hide PlanFrom, PlansMatch, OutLen, HeaderAt, LE, NewHeader, DataLen, AllStretches;
    var hdrs := new Reader(input, end, flaky);
    var plans: seq<Plan> := [];
    var cursor: nat, consumed: nat := 0, 0;
    segs := [];
    ghost var sorted := InOrder(order, items);
    ghost var spec := PlanFrom(input, end, sorted, 0, 0);
    EmptyPlan(items);
    assert sorted[0..] == sorted;
    PrependNothing(spec);
    for k := 0 to |order|
      invariant hdrs.input == input && hdrs.entriesEnd == end && hdrs.flaky == flaky
      invariant fresh(hdrs) && fresh(hdrs.window) && hdrs.Valid() && hdrs.winOff + hdrs.winLen <= end
      invariant consumed <= end
      invariant PlansMatch(plans, segs, items) && cursor == OutLen(segs)
      invariant spec == Prepend(segs, PlanFrom(input, end, sorted[k..], consumed, cursor))
    {
      var i := order[k];
      var e := items[i];
      assert sorted[k..][0] == e && sorted[k..][1..] == sorted[k + 1..];
      PlanUnfold(input, end, sorted[k..], consumed, cursor);
      if e.policy == Gap {
        continue;
      }
      if e.off < consumed {
        return Err(Overlaps(e.off)), segs;
      }
      ghost var segs0, rest0 := segs, PlanFrom(input, end, sorted[k..], consumed, cursor);
      ghost var gap := VerbatimGap(consumed, e.off, cursor);
      ghost var consumed0, cursor0 := consumed, cursor;
      plans, cursor, segs := PushGap(plans, segs, items, consumed, e.off, cursor);
      var p := hdrs.Prefix(e.off);
      if p.Err? {
        return Err(Header(p.error)), segs;
      }
      var prefix := p.value;
      PrefixLen(input, end, e.off);
      var dataLen := DataLen(input, end, e, e.off + |prefix|);
      if e.off + |prefix| + dataLen > end {
        return Err(RecordOverruns(e.off)), segs;
      }
      consumed := e.off + |prefix| + dataLen;
      if e.policy == Skip {
        ghost var s := Removed(e.off, |prefix| + dataLen, cursor);
        Push(plans, segs, items, Plan(None, 0, 0, 0, []), s);
        segs := segs + [s];
        PrependTwice(segs0, gap + [s], PlanFrom(input, end, sorted[k + 1..], consumed, cursor));
        assert segs0 + (gap + [s]) == segs;
        continue;
      }
      var h := NewHeader(prefix, e.rule, cursor);
      if h.None? {
        return Err(ExtraTooLong(e.off)), segs;
      }
      var hdr := h.value;
      ghost var s := Record(e, |prefix|, dataLen, hdr, cursor);
      var plan := Plan(Some(i), e.off + |prefix|, dataLen, cursor, hdr);
      Push(plans, segs, items, plan, s);
      plans := plans + [plan];
      segs := segs + [s];
      cursor := cursor + |hdr| + dataLen;
      PrependTwice(segs0, gap + [s], PlanFrom(input, end, sorted[k + 1..], consumed, cursor));
      assert segs0 + (gap + [s]) == segs;
    }
    assert sorted[|order|..] == [];
    PlanUnfold(input, end, [], consumed, cursor);
    plans, cursor, segs := PushGap(plans, segs, items, consumed, end, cursor);
    StretchesInOrder(input, end, items, order, segs);
    r := Ok((plans, cursor));
  }

  lemma StretchesInOrder(input: seq<byte>, end: nat, items: seq<Item>, order: seq<nat>, segs: seq<Segment>)
    requires end <= |input| && ItemsOk(items, end) && FileOrder(order, items)
    requires PlanFrom(input, end, InOrder(order, items), 0, 0) == Ok(segs)
    ensures AllStretches(input, end, items, segs)
  {
    hide PlanFrom, StretchPlanned;
    var sorted := InOrder(order, items);
    EveryStretch(input, end, sorted, 0, 0);
    forall i | 0 <= i < |items| && items[i].policy != Gap ensures StretchPlanned(input, end, segs, items[i]) {
      assert i in order;
      var k :| 0 <= k < |order| && order[k] == i;
      assert sorted[k] == items[i];
    }
  }

  lemma EmptyPlan(items: seq<Item>)
    ensures PlansMatch([], [], items) && OutLen([]) == 0
  {
  }

  lemma PrependNothing(r: Result<seq<Segment>, PlanError>)
    ensures Prepend([], r) == r
  {
    if r.Ok? { assert [] + r.value == r.value; }
  }

  lemma Push(plans: seq<Plan>, segs: seq<Segment>, items: seq<Item>, p: Plan, s: Segment)
    requires PlansMatch(plans, segs, items)
    ensures OutLen(segs + [s]) == OutLen(segs) + s.OutLen()
    ensures s.Removed? ==> PlansMatch(plans, segs + [s], items)
    ensures PlanIs(p, s, items) ==> PlansMatch(plans + [p], segs + [s], items)
  {
    PlansMatchSnoc(plans, segs, items, p, s);
    SumsConcat(segs, [s]);
    assert OutLen([s]) == s.OutLen() by { assert [s][1..] == []; }
  }

  method PushGap(plans: seq<Plan>, ghost segs: seq<Segment>, ghost items: seq<Item>, from: nat, to: nat, cursor: nat)
    returns (plans': seq<Plan>, cursor': nat, ghost segs': seq<Segment>)
    requires PlansMatch(plans, segs, items) && cursor == OutLen(segs) && from <= to
    ensures segs' == segs + VerbatimGap(from, to, cursor) && cursor' == cursor + (to - from)
    ensures PlansMatch(plans', segs', items) && cursor' == OutLen(segs')
  {
    plans', cursor', segs' := plans, cursor, segs;
    if from < to {
      var p := Plan(None, from, to - from, cursor, []);
      ghost var s := Verbatim(from, to - from, cursor);
      Push(plans, segs, items, p, s);
      plans', cursor', segs' := plans + [p], cursor + (to - from), segs + [s];
    } else {
      assert segs + [] == segs;
    }
  }

  /** `PlanFrom`, unfolded once. */
  lemma PlanUnfold(input: seq<byte>, end: nat, items: seq<Item>, consumed: nat, cursor: nat)
    requires end <= |input| && ItemsOk(items, end) && consumed <= end
    ensures items == [] ==> PlanFrom(input, end, items, consumed, cursor) == Ok(VerbatimGap(consumed, end, cursor))
    ensures items != [] ==>
      var it := items[0];
      var r := PlanFrom(input, end, items, consumed, cursor);
      if it.policy == Gap then r == PlanFrom(input, end, items[1..], consumed, cursor)
      else if it.off < consumed then r == Err(Overlaps(it.off))
      else
        var gap := VerbatimGap(consumed, it.off, cursor);
        var newOff := cursor + (it.off - consumed);
        match HeaderAt(input, end, it.off)
        case Err(e) => r == Err(Header(e))
        case Ok(prefix) =>
          var dataLen := DataLen(input, end, it, it.off + |prefix|);
          var next := it.off + |prefix| + dataLen;
          if next > end then r == Err(RecordOverruns(it.off))
          else if it.policy == Skip then
            r == Prepend(gap + [Removed(it.off, |prefix| + dataLen, newOff)],
                PlanFrom(input, end, items[1..], next, newOff))
          else
            |prefix| >= LFH_LEN && HeaderLen(prefix) == |prefix| &&
            match NewHeader(prefix, it.rule, newOff)
            case None => r == Err(ExtraTooLong(it.off))
            case Some(hdr) =>
              r == Prepend(gap + [Record(it, |prefix|, dataLen, hdr, newOff)],
                           PlanFrom(input, end, items[1..], next, newOff + |hdr| + dataLen))
  {
    hide HeaderAt, NewHeader, DataLen, HeaderLen;
    if items != [] && HeaderAt(input, end, items[0].off).Ok? {
      PrefixLen(input, end, items[0].off);
    }
  }
}
