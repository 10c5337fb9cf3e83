/** The alignment check on a rewritten section (src/align.rs). */
module Realigned {
  import opened Bytes
  import opened Wrappers
  import opened Zip
  import opened AlignExtra
  import opened HeaderReader
  import opened Planner
  import opened Idempotence
  import opened Directory
  import opened RewriteTwice
  import opened Inspector

  // --- One record --------------------------------------------------------------------------------------

  /** The record's data is where the rule wants it. */
  ghost predicate OnRule(s: Segment) {
    s.Record? && s.item.rule > 1 ==> (s.newOff + |s.hdr|) % s.item.rule == 0
  }

  ghost predicate AllOnRule(segs: seq<Segment>) {
    forall k :: 0 <= k < |segs| ==> OnRule(segs[k])
  }

  /** A larger alignment the entry already declares is a multiple of the one the rule asks for. */
  ghost predicate DeclaredFollows(input: seq<byte>, end: nat, s: Segment)
    requires s.Record? && SegmentOk(input, end, s)
  {
    OldHeaderOk(input, end, s);
    var p := OldHeader(input, s);
    s.item.rule > 1 ==> EffectiveAlignment(s.item.rule, p[LFH_LEN + U16(p, 26)..]) % s.item.rule == 0
  }

  ghost predicate AllFollow(input: seq<byte>, end: nat, segs: seq<Segment>) {
    forall k :: 0 <= k < |segs| && segs[k].Record? ==>
      SegmentOk(input, end, segs[k]) && DeclaredFollows(input, end, segs[k])
  }

  lemma FollowingIsOnRule(input: seq<byte>, end: nat, s: Segment)
    requires s.Record? && SegmentOk(input, end, s) && DeclaredFollows(input, end, s)
    ensures OnRule(s)
  {
    if s.item.rule > 1 {
      RecordAligned(input, end, s);
      var p := OldHeader(input, s);
      hide SegmentOk, EffectiveAlignment;
      MultipleFollows(s.newOff + |s.hdr|, EffectiveAlignment(s.item.rule, p[LFH_LEN + U16(p, 26)..]), s.item.rule);
    }
  }

  /** A rebuilt header puts its data on the rule at every place it can be laid out at, exactly when
      the larger of the rule's and the declared alignment is a multiple of the rule's. (A header whose
      kept fields leave no room for the alignment field can be laid out nowhere.) */
  lemma HeaderOnRuleIff(prefix: seq<byte>, rule: nat)
    requires |prefix| >= LFH_LEN && HeaderLen(prefix) == |prefix| && rule > 1
    ensures LFH_LEN + U16(prefix, 26) <= |prefix|
    ensures var extra := prefix[LFH_LEN + U16(prefix, 26)..];
      (forall newOff: nat ::
          NewHeader(prefix, rule, newOff).Some? ==> (newOff + |NewHeader(prefix, rule, newOff).value|) % rule == 0)
      <==> EffectiveAlignment(rule, extra) % rule == 0 || |KeptFields(extra)| + 6 > 0xffff
  {
    var extra := prefix[LFH_LEN + U16(prefix, 26)..];
    hide U16, HeaderLen, EffectiveAlignment, NewHeader, KeptFields;
    if EffectiveAlignment(rule, extra) % rule == 0 {
      forall newOff: nat | NewHeader(prefix, rule, newOff).Some?
        ensures (newOff + |NewHeader(prefix, rule, newOff).value|) % rule == 0
      {
        HeaderOnRule(prefix, rule, newOff);
      }
    } else if |KeptFields(extra)| + 6 > 0xffff {
      forall newOff: nat ensures NewHeader(prefix, rule, newOff).None? {
        NoRoom(prefix, rule, newOff);
      }
    } else {
      var newOff := HeaderOffRule(prefix, rule);
      assert (newOff + |NewHeader(prefix, rule, newOff).value|) % rule != 0;
    }
  }

  lemma HeaderOnRule(prefix: seq<byte>, rule: nat, newOff: nat)
    requires |prefix| >= LFH_LEN && HeaderLen(prefix) == |prefix| && rule > 1 && NewHeader(prefix, rule, newOff).Some?
    ensures LFH_LEN + U16(prefix, 26) <= |prefix|
    ensures EffectiveAlignment(rule, prefix[LFH_LEN + U16(prefix, 26)..]) % rule == 0 ==>
      (newOff + |NewHeader(prefix, rule, newOff).value|) % rule == 0
  {
    var fixed := LFH_LEN + U16(prefix, 26);
    var extra := prefix[fixed..];
    hide U16, AligningExtra, EffectiveAlignment, NewHeader;
    HeaderKept(prefix, rule, newOff);
    if EffectiveAlignment(rule, extra) % rule == 0 {
      ExtraOnMultiple(extra, newOff + fixed, rule);
    }
  }

  lemma HeaderOffRule(prefix: seq<byte>, rule: nat) returns (newOff: nat)
    requires |prefix| >= LFH_LEN && HeaderLen(prefix) == |prefix| && rule > 1
    requires LFH_LEN + U16(prefix, 26) <= |prefix|
    requires var extra := prefix[LFH_LEN + U16(prefix, 26)..];
      EffectiveAlignment(rule, extra) % rule != 0 && |KeptFields(extra)| + 6 <= 0xffff
    ensures NewHeader(prefix, rule, newOff).Some? && (newOff + |NewHeader(prefix, rule, newOff).value|) % rule != 0
  {
    var fixed := LFH_LEN + U16(prefix, 26);
    hide U16, AligningExtra, EffectiveAlignment, NewHeader, KeptFields;
    var start := OffStart(prefix[fixed..], rule, fixed);
    newOff := start - fixed;
    HeaderFits(prefix, rule, newOff);
    HeaderKept(prefix, rule, newOff);
  }

  lemma NoRoom(prefix: seq<byte>, rule: nat, newOff: nat)
    requires |prefix| >= LFH_LEN && HeaderLen(prefix) == |prefix| && rule > 1
    ensures LFH_LEN + U16(prefix, 26) <= |prefix|
    ensures |KeptFields(prefix[LFH_LEN + U16(prefix, 26)..])| + 6 > 0xffff ==> NewHeader(prefix, rule, newOff).None?
  {
    hide LE, KeptFields, EffectiveAlignment, PadTo;
  }

  lemma HeaderFits(prefix: seq<byte>, rule: nat, newOff: nat)
    requires |prefix| >= LFH_LEN && HeaderLen(prefix) == |prefix| && rule > 1
    ensures LFH_LEN + U16(prefix, 26) <= |prefix|
    ensures var fixed := LFH_LEN + U16(prefix, 26);
      var extra := prefix[fixed..];
      |AligningExtra(extra, newOff + fixed, EffectiveAlignment(rule, extra))| <= 0xffff ==>
        NewHeader(prefix, rule, newOff).Some?
  {
    hide LE, AligningExtra, EffectiveAlignment;
  }

  // --- What a direct read of the result finds -----------------------------------------------------------

  lemma HeaderRead(w: seq<byte>, off: nat)
    requires off + LFH_LEN <= |w| && HeaderAt(w, |w|, off).Ok?
    ensures DirectRead(w, off).Some?
    ensures LFH_LEN + DirectRead(w, off).value.0 + DirectRead(w, off).value.1 == |HeaderAt(w, |w|, off).value|
  {
  }

  /** A direct read of record `s`, laid out in `w`, finds the rebuilt header, and reports the entry
      exactly when its data is off the rule. */
  ghost predicate ReadsAs(w: seq<byte>, s: Segment)
    requires s.Record?
  {
    var it := s.item.(off := s.newOff);
    && Readable(w, |w|, it) && (ProvenBad(w, |w|, it) <==> !OnRule(s))
    && DataOff(it, DirectRead(w, it.off).value) == s.newOff + |s.hdr|
  }

  lemma RecordReadsAs(input: seq<byte>, end: nat, s: Segment, w: seq<byte>)
    requires s.Record? && SegmentOk(input, end, s)
    requires s.newOff + |s.hdr| + s.dataLen <= |w|
    requires w[s.newOff..s.newOff + |s.hdr| + s.dataLen] == SegmentBytes(input, s)
    ensures ReadsAs(w, s)
  {
    hide SegmentOk, HeaderAt, HeaderLen, NewHeader, DataLen, DirectRead;
    RecordReadsBack(input, end, s, w);
    HeaderRead(w, s.newOff);
  }

  lemma {:induction false} SegmentInPlace(input: seq<byte>, segs: seq<Segment>, from: nat, w: seq<byte>, k: nat)
    requires Inside(input, segs) && TilesOutput(segs, from, from + OutLen(segs)) && k < |segs|
    requires from + OutLen(segs) <= |w| && w[from..from + OutLen(segs)] == Render(input, segs)
    ensures segs[k].newOff + segs[k].OutLen() <= from + OutLen(segs)
    ensures w[segs[k].newOff..segs[k].newOff + segs[k].OutLen()] == SegmentBytes(input, segs[k])
    decreases |segs|
  {
    hide SegmentBytes;
    var (b, n, m) := (SegmentBytes(input, segs[0]), segs[0].OutLen(), OutLen(segs));
    BytesLength(input, segs[0]);
    SubSlice(w, from, m, 0, n);
    SubSlice(w, from, m, n, m);
    var r := Render(input, segs);
    assert r[0..n] == b && r[n..m] == Render(input, segs[1..]);
    if k > 0 {
      assert segs[1..][k - 1] == segs[k];
      SegmentInPlace(input, segs[1..], from + n, w, k - 1);
    }
  }

  lemma BytesLength(input: seq<byte>, s: Segment)
    requires s.Src() + s.SrcLen() <= |input|
    ensures |SegmentBytes(input, s)| == s.OutLen()
  {
  }

  /** Of two segments, the one that starts later starts where the other has ended. */
  lemma {:induction false} SegmentsApart(segs: seq<Segment>, from: nat, to: nat, j: nat, k: nat)
    requires TilesOutput(segs, from, to) && j < |segs| && k < |segs| && segs[j].newOff < segs[k].newOff
    ensures segs[j].newOff + segs[j].OutLen() <= segs[k].newOff
    decreases |segs|
  {
    var rest := segs[1..];
    if j > 0 && k > 0 {
      assert rest[j - 1] == segs[j] && rest[k - 1] == segs[k];
      SegmentsApart(rest, from + segs[0].OutLen(), to, j - 1, k - 1);
    } else if j == 0 && k > 0 {
      assert rest[k - 1] == segs[k];
      PlaceAfter(rest, from + segs[0].OutLen(), to, k - 1);
    } else if j > 0 {
      assert rest[j - 1] == segs[j];
      PlaceAfter(rest, from + segs[0].OutLen(), to, j - 1);
    }
  }

  lemma EveryRecordReadsAs(input: seq<byte>, end: nat, segs: seq<Segment>, w: seq<byte>, k: nat)
    requires Inside(input, segs) && TilesOutput(segs, 0, OutLen(segs)) && k < |segs| && segs[k].Record?
    requires SegmentOk(input, end, segs[k])
    requires OutLen(segs) <= |w| && w[..OutLen(segs)] == Render(input, segs)
    ensures ReadsAs(w, segs[k]) && segs[k].newOff + |segs[k].hdr| <= |w|
  {
    hide SegmentOk, Render, SegmentBytes, TilesOutput, ReadsAs;
    assert w[0..0 + OutLen(segs)] == w[..OutLen(segs)];
    SegmentInPlace(input, segs, 0, w, k);
    RecordReadsAs(input, end, segs[k], w);
  }

  // --- The new directory ---------------------------------------------------------------------------------

  /** Each entry of the new directory is a laid-out record, and the other way round. */
  lemma ItemIsRecord(segs: seq<Segment>, items2: seq<Item>, i: nat) returns (k: nat)
    requires (forall x :: x in items2 <==> x in SecondItems(segs)) && i < |items2|
    ensures k < |segs| && segs[k].Record? && items2[i] == segs[k].item.(off := segs[k].newOff)
  {
    SecondIn(segs);
    assert items2[i] in items2;
    k :| 0 <= k < |segs| && segs[k].Record? && segs[k].item.(off := segs[k].newOff) == items2[i];
  }

  lemma RecordIsItem(segs: seq<Segment>, items2: seq<Item>, k: nat) returns (i: nat)
    requires (forall x :: x in items2 <==> x in SecondItems(segs)) && k < |segs| && segs[k].Record?
    ensures i < |items2| && items2[i] == segs[k].item.(off := segs[k].newOff)
  {
    SecondIn(segs);
    i :| 0 <= i < |items2| && items2[i] == segs[k].item.(off := segs[k].newOff);
  }

  /** After a rewrite, with anything behind it, every header of the new directory can be read, none
      overruns, and some entry is misaligned exactly when some record is off its rule. */
  lemma RewrittenIsSound(input: seq<byte>, end: nat, rs: seq<seq<byte>>, libPageSize: nat, order: seq<nat>,
                         segs: seq<Segment>, tail: seq<byte>)
    requires Rewrote(input, end, rs, libPageSize, order, segs) && OutLen(segs) <= U32_MOD
    ensures Inside(input, segs)
    ensures
      var w := Render(input, segs) + tail;
      var rs2 := NewRecords(rs, ItemsOf(rs, libPageSize), segs);
      && AllRecords(rs2)
      && var items2 := ItemsOf(rs2, libPageSize);
      && AllInside(items2, |w|) && DistinctOffsets(items2)
      && Sound(w, |w|, items2) && (SomeBad(w, |w|, items2) <==> !AllOnRule(segs))
  {
    hide PlanFrom, FileOrder, ItemsOf, Render, NewRecords, SecondItems, TilesOutput, OnRule, DirectRead, Bad, ReadsAs;
    SecondDirectory(input, end, rs, libPageSize, order, segs);
    SegmentsFit(input, end, rs, libPageSize, order, segs);
    var items2 := ItemsOf(NewRecords(rs, ItemsOf(rs, libPageSize), segs), libPageSize);
    var w := Render(input, segs) + tail;
    assert w[..OutLen(segs)] == Render(input, segs);
    RecordsSound(input, end, segs, w, items2);
  }

  lemma SegmentsFit(input: seq<byte>, end: nat, rs: seq<seq<byte>>, libPageSize: nat, order: seq<nat>,
                    segs: seq<Segment>)
    requires Rewrote(input, end, rs, libPageSize, order, segs)
    ensures Inside(input, segs) && TilesOutput(segs, 0, OutLen(segs))
    ensures forall k :: 0 <= k < |segs| ==> SegmentOk(input, end, segs[k])
  {
    hide PlanFrom, SegmentOk, TilesInput, TilesOutput;
    var sorted := InOrder(order, ItemsOf(rs, libPageSize));
    PlanIsGood(input, end, sorted, 0, 0);
    PlanInside(input, end, sorted, 0, 0);
  }

  lemma RecordsSound(input: seq<byte>, end: nat, segs: seq<Segment>, w: seq<byte>, items2: seq<Item>)
    requires Inside(input, segs) && TilesOutput(segs, 0, OutLen(segs))
    requires forall k :: 0 <= k < |segs| ==> SegmentOk(input, end, segs[k])
    requires OutLen(segs) <= |w| && w[..OutLen(segs)] == Render(input, segs)
    requires forall x :: x in items2 <==> x in SecondItems(segs)
    ensures Sound(w, |w|, items2) && (SomeBad(w, |w|, items2) <==> !AllOnRule(segs))
  {
    hide Inside, SecondItems, TilesOutput, SegmentOk, OnRule, DirectRead, Bad, Render;
    forall i | 0 <= i < |items2|
      ensures Readable(w, |w|, items2[i]) && DataOff(items2[i], DirectLens(w, |w|, items2)[i]) <= |w|
      ensures ProvenBad(w, |w|, items2[i]) ==> !AllOnRule(segs)
      ensures forall j :: 0 <= j < |items2| && items2[i].off < items2[j].off ==>
        DataOff(items2[i], DirectLens(w, |w|, items2)[i]) <= items2[j].off
    {
      var k := ItemIsRecord(segs, items2, i);
      EveryRecordReadsAs(input, end, segs, w, k);
      forall j | 0 <= j < |items2| && items2[i].off < items2[j].off
        ensures DataOff(items2[i], DirectLens(w, |w|, items2)[i]) <= items2[j].off
      {
        var m := ItemIsRecord(segs, items2, j);
        SegmentsApart(segs, 0, OutLen(segs), k, m);
      }
    }
    if !AllOnRule(segs) {
      var k :| 0 <= k < |segs| && !OnRule(segs[k]);
      RuleIsRecord(segs[k]);
      EveryRecordReadsAs(input, end, segs, w, k);
      var i := RecordIsItem(segs, items2, k);
      assert ProvenBad(w, |w|, items2[i]);
    }
  }

  lemma RuleIsRecord(s: Segment)
    requires !OnRule(s)
    ensures s.Record?
  {
  }

  /** After a rewrite, with any padding behind it, the check of the new directory succeeds, and it
      reports nothing exactly when every record's data is on its rule. */
  method CheckRewritten(input: seq<byte>, end: nat, rs: seq<seq<byte>>, libPageSize: nat, ghost order: seq<nat>,
                        segs: seq<Segment>, tail: seq<byte>)
    returns (r: Result<seq<Misaligned>, CheckError>)
    requires Rewrote(input, end, rs, libPageSize, order, segs) && OutLen(segs) <= U32_MOD
    ensures r.Ok? && (r.value == [] <==> AllOnRule(segs))
    ensures AllFollow(input, end, segs) ==> r == Ok([])
  {
    RewrittenIsSound(input, end, rs, libPageSize, order, segs, tail);
    FollowingAreOnRule(input, end, segs);
    hide Rewrote, AllFollow, AllOnRule, ItemOf, Render, NewRecords, DirectRead, Bad, NoOverrun;
    var w := Render(input, segs) + tail;
    var items2 := ItemsOf(NewRecords(rs, ItemsOf(rs, libPageSize), segs), libPageSize);
    r := Check(items2, DirectLens(w, |w|, items2), |w|);
    if r.value != [] {
      assert r.value[0] in r.value;
      assert ProvenBad(w, |w|, items2[r.value[0].i]);
    }
  }

  lemma FollowingAreOnRule(input: seq<byte>, end: nat, segs: seq<Segment>)
    ensures AllFollow(input, end, segs) ==> AllOnRule(segs)
  {
    hide OnRule, SegmentOk, DeclaredFollows;
    if AllFollow(input, end, segs) {
      forall k | 0 <= k < |segs| ensures OnRule(segs[k]) {
        if segs[k].Record? {
          FollowingIsOnRule(input, end, segs[k]);
        } else {
          NotARecord(segs[k]);
        }
      }
    }
  }

  lemma NotARecord(s: Segment)
    ensures !s.Record? ==> OnRule(s)
  {
  }

  // --- A failing input -------------------------------------------------------------------------------

  /** One stored entry "ab" without data, whose extra field declares 6. */
  function OffRuleSection(): (section: seq<byte>)
    ensures |section| == 38
  {
    LFH_SIG + Zeros(22) + PutU16(2) + PutU16(6) + [0x61, 0x62] + [0x35, 0xd9, 2, 0, 6, 0]
  }

  function OffRuleEntry(): (record: seq<byte>)
    ensures |record| == 48
  {
    CD_ENTRY_SIG + Zeros(24) + PutU16(2) + Zeros(16) + [0x61, 0x62]
  }

  lemma OffRuleFields()
    ensures var r := OffRuleEntry();
      && r[..4] == CD_ENTRY_SIG && U16(r, 28) == 2 && U16(r, 30) == 0 && U16(r, 32) == 0
      && U16(r, 8) == 0 && U16(r, 10) == 0 && U32(r, 20) == 0 && U32(r, 42) == 0 && r[46..] == [0x61, 0x62]
  {
    hide LE, ToLE;
    var r := OffRuleEntry();
    assert r[28..30] == PutU16(2);
    ToLERoundTrip(2, 2);
    Widths();
    ZeroBytes(r[30..32]); ZeroBytes(r[32..34]); ZeroBytes(r[8..10]); ZeroBytes(r[10..12]); ZeroBytes(r[20..24]);
    ZeroBytes(r[42..46]);
  }

  lemma OffRuleRecord(libPageSize: nat)
    ensures IsRecord(OffRuleEntry()) && ItemOf(OffRuleEntry(), libPageSize) == Item(0, 0, false, 4, Output)
  {
    hide OffRuleEntry, LE, U16, U32;
    OffRuleFields();
    var r := OffRuleEntry();
    assert RecordName(r) == [0x61, 0x62] by { assert r[46..46 + 2] == r[46..]; }
    PlainName(libPageSize);
    hide Policy, RequiredAlignment;
  }

  lemma PlainName(libPageSize: nat)
    ensures Policy([0x61, 0x62]) == Output && RequiredAlignment([0x61, 0x62], 0, libPageSize) == 4
  {
  }

  lemma OffRuleHeader()
    ensures var p := OffRuleSection();
      && |p| == 38 && HeaderLen(p) == 38 && U16(p, 26) == 2 && p[32..] == [0x35, 0xd9, 2, 0, 6, 0]
      && HeaderAt(p, 38, 0) == Ok(p)
  {
    var p := OffRuleSection();
    assert p[26..28] == PutU16(2) && p[28..30] == PutU16(6) && p[..4] == LFH_SIG;
    ToLERoundTrip(2, 2);
    ToLERoundTrip(6, 2);
    Widths();
    hide LE;
    var h := p[0..30];
    assert h[26..28] == p[26..28] && h[28..30] == p[28..30] && h[..4] == p[..4];
    assert p[0..38] == p;
  }

  lemma OffRuleRebuilt()
    ensures HeaderLen(OffRuleSection()) == 38
    ensures NewHeader(OffRuleSection(), 4, 0).Some? && |NewHeader(OffRuleSection(), 4, 0).value| == 42
  {
    hide OffRuleSection, AligningExtra, EffectiveAlignment, HeaderLen, LE, NewHeader;
    OffRuleHeader();
    OffRuleExtra();
    HeaderFits(OffRuleSection(), 4, 0);
    HeaderKept(OffRuleSection(), 4, 0);
  }

  lemma OffRuleExtra()
    ensures var extra: seq<byte> := [0x35, 0xd9, 2, 0, 6, 0];
      EffectiveAlignment(4, extra) == 6 && |AligningExtra(extra, 32, 6)| == 10
  {
    DeclaredOffRule();
    NothingKept();
    hide KeptFields, EffectiveAlignment, AlignField, Declared, LE;
    assert PadTo(38, 6) == 4;
  }

  lemma NothingKept()
    ensures KeptFields([0x35, 0xd9, 2, 0, 6, 0]) == []
  {
    FieldBytes(6);
    AlignFieldReads(0, 6);
    assert AlignField(0, 6)[6..] == [];
  }

  /** Rewriting it puts its data at 42, off the rule of 4; the check of the result reports it. */
  lemma OffRuleRewrite(libPageSize: nat) returns (order: seq<nat>, segs: seq<Segment>)
    ensures AllRecords([OffRuleEntry()])
    ensures Rewrote(OffRuleSection(), 38, [OffRuleEntry()], libPageSize, order, segs)
    ensures OutLen(segs) == 42 && !AllOnRule(segs)
  {
    hide OffRuleSection, OffRuleEntry, ItemOf, NewHeader, HeaderAt, HeaderLen, PlanFrom, IsRecord, LE, Prepend;
    OffRuleRecord(libPageSize);
    OffRuleRebuilt();
    var p := OffRuleSection();
    var it := Item(0, 0, false, 4, Output);
    var s := Record(it, 38, 0, NewHeader(p, 4, 0).value, 0);
    order, segs := [0], [s];
    OffRulePlan(it, s);
    var items := ItemsOf([OffRuleEntry()], libPageSize);
    assert items == [it] && InOrder(order, items) == [it];
    assert FileOrder(order, items) by { assert order[0] == 0; }
    assert segs[1..] == [];
    assert !OnRule(segs[0]);
  }

  lemma OffRulePlan(it: Item, s: Segment)
    requires it == Item(0, 0, false, 4, Output) && HeaderLen(OffRuleSection()) == 38
    requires NewHeader(OffRuleSection(), 4, 0).Some?
      && s == Record(it, 38, 0, NewHeader(OffRuleSection(), 4, 0).value, 0)
    ensures ItemsOk([it], 38) && PlanFrom(OffRuleSection(), 38, [it], 0, 0) == Ok([s])
  {
    OffRuleHeader();
    hide OffRuleSection, NewHeader, HeaderAt, HeaderLen, PlanFrom, LE;
    PlanUnfold(OffRuleSection(), 38, [it], 0, 0);
    PlanUnfold(OffRuleSection(), 38, [], 38, |s.hdr|);
    assert [it][1..] == [];
    assert [] + [s] + [] == [s];
  }
}
