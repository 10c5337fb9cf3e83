/** `rewrite` of src/align.rs, end to end: order, plan, pipeline, new Central Directory. */
module Rewrite {
  import opened Wrappers
  import opened Bytes
  import opened Hashing
  import opened Digest
  import opened Zip
  import opened Planner
  import opened HeaderReader
  import opened Idempotence
  import opened Directory
  import opened RewriteTwice
  import Assembly
  import Pipeline
  import Sigblock

  ghost predicate NonEmpty(segs: seq<Segment>) {
    forall i :: 0 <= i < |segs| && !segs[i].Removed? ==> segs[i].OutLen() > 0
  }

  lemma NonEmptyPrepend(segs: seq<Segment>, r: Result<seq<Segment>, PlanError>)
    requires NonEmpty(segs) && (r.Ok? ==> NonEmpty(r.value))
    ensures Prepend(segs, r).Ok? ==> NonEmpty(Prepend(segs, r).value)
  {
  }

  /** The planner emits no empty plan. */
  lemma {:induction false} PlanNonEmpty(input: seq<byte>, end: nat, items: seq<Item>, consumed: nat, cursor: nat)
    requires end <= |input| && ItemsOk(items, end) && consumed <= end
    ensures PlanFrom(input, end, items, consumed, cursor).Ok? ==>
      NonEmpty(PlanFrom(input, end, items, consumed, cursor).value)
    decreases |items|
  {
    hide PlanFrom, HeaderAt, HeaderLen, DataLen, NewHeader, Prepend;
    PlanUnfold(input, end, items, consumed, cursor);
    if items != [] && items[0].policy == Gap {
      PlanNonEmpty(input, end, items[1..], consumed, cursor);
    } else if items != [] && items[0].off >= consumed && HeaderAt(input, end, items[0].off).Ok? {
      var it := items[0];
      PrefixLen(input, end, it.off);
      var prefix := HeaderAt(input, end, it.off).value;
      var dataLen := DataLen(input, end, it, it.off + |prefix|);
      var next := it.off + |prefix| + dataLen;
      var newOff := cursor + (it.off - consumed);
      var gap := VerbatimGap(consumed, it.off, cursor);
      if next <= end {
        if it.policy == Skip {
          PlanNonEmpty(input, end, items[1..], next, newOff);
          NonEmptyPrepend(gap + [Removed(it.off, |prefix| + dataLen, newOff)],
              PlanFrom(input, end, items[1..], next, newOff));
        } else if NewHeader(prefix, it.rule, newOff).Some? {
          var hdr := NewHeader(prefix, it.rule, newOff).value;
          HeaderNotEmpty(prefix, it.rule, newOff);
          PlanNonEmpty(input, end, items[1..], next, newOff + |hdr| + dataLen);
          NonEmptyPrepend(gap + [Record(it, |prefix|, dataLen, hdr, newOff)],
              PlanFrom(input, end, items[1..], next, newOff + |hdr| + dataLen));
        }
      }
    }
  }

  lemma HeaderNotEmpty(prefix: seq<byte>, rule: nat, newOff: nat)
    requires |prefix| >= LFH_LEN && HeaderLen(prefix) == |prefix| && rule >= 1
    ensures NewHeader(prefix, rule, newOff).Some? ==> |NewHeader(prefix, rule, newOff).value| >= LFH_LEN
  {
  }

  /** The plans handed to the chunk assembler tile its output: `AssembleAndHash` may be asked for
      any chunk. */
  lemma PlansFit(input: seq<byte>, end: nat, items: seq<Item>, order: seq<nat>, plans: seq<Plan>, segs: seq<Segment>)
    requires end <= |input| && FileOrder(order, items) && ItemsOk(InOrder(order, items), end)
    requires PlanFrom(input, end, InOrder(order, items), 0, 0) == Ok(segs) && PlansMatch(plans, segs, items)
    ensures Inside(input, segs) && Assembly.Tiled(input, plans, 0, Render(input, segs))
  {
    hide PlanFrom, PlansMatch, SegmentOk, TilesInput, TilesOutput, OutLen, Assembly.Tiled;
    var sorted := InOrder(order, items);
    PlanIsGood(input, end, sorted, 0, 0);
    PlanInside(input, end, sorted, 0, 0);
    PlanNonEmpty(input, end, sorted, 0, 0);
    var out := Render(input, segs);
    assert out[0..] == out;
    Assembly.PlansTile(input, plans, segs, items, 0, out);
  }

  /** What `rewrite` returns, with the file it leaves. */
  datatype Rewritten =
    Rewritten(cd: seq<byte>, entriesEnd: nat, entries: nat, pad: nat, chunkCount: nat, chunkDigests: seq<byte>,
              file: seq<byte>)

  datatype RewriteError = Planning(e: PlanError) | Threads

  /** The threads of one call. */
  function PipelineRun(alg: Algorithm, out: seq<byte>, threads: nat, file: seq<byte>,
                       schedule: seq<Pipeline.Choice>): (s: Pipeline.State)
  {
    var cfg := Pipeline.Config(alg, out);
    Pipeline.Run(cfg, Pipeline.Start(cfg, Pipeline.ProducerCount(threads, cfg.Count()), file), schedule)
  }

  /** The result is that of the plan's sequential reading. */
  ghost predicate RewrittenIs(alg: Algorithm, input: seq<byte>, rs: seq<seq<byte>>, libPageSize: nat,
                              segs: seq<Segment>, r: Rewritten)
    requires AllRecords(rs) && Inside(input, segs)
  {
    var out := Render(input, segs);
    var rs2 := NewRecords(rs, ItemsOf(rs, libPageSize), segs);
    && r.file == out && r.entriesEnd == |out| && r.pad == Sigblock.PaddingBeforeBlock(|out|)
    && r.cd == Concat(rs2) && r.entries == |rs2|
    && r.chunkCount == |Chunks(out + Zeros(r.pad))|
    && r.chunkDigests == ChunkDigests(alg, Chunks(out + Zeros(r.pad)))
  }

  lemma OrderIsOk(items: seq<Item>, order: seq<nat>, end: nat)
    requires FileOrder(order, items) && AllInside(items, end) && forall i :: 0 <= i < |items| ==> items[i].rule >= 1
    ensures ItemsOk(items, end) && ItemsOk(InOrder(order, items), end)
  {
  }

  lemma PlannedIsRewrote(input: seq<byte>, end: nat, rs: seq<seq<byte>>, libPageSize: nat, order: seq<nat>,
                         segs: seq<Segment>)
    requires end <= |input| && AllRecords(rs)
    requires var items := ItemsOf(rs, libPageSize);
      && FileOrder(order, items) && AllInside(items, end) && ItemsOk(InOrder(order, items), end)
      && PlanFrom(input, end, InOrder(order, items), 0, 0) == Ok(segs)
    ensures Rewrote(input, end, rs, libPageSize, order, segs)
  {
    hide PlanFrom, FileOrder;
  }

  /** A rewrite has one plan. */
  lemma OnlyPlan(input: seq<byte>, end: nat, rs: seq<seq<byte>>, libPageSize: nat, order: seq<nat>, segs: seq<Segment>)
    requires Rewrote(input, end, rs, libPageSize, order, segs)
    ensures forall o, x :: Rewrote(input, end, rs, libPageSize, o, x) ==> x == segs
  {
    hide PlanFrom, FileOrder, InOrder, ItemsOf, AllInside, ItemsOk;
    forall o, x | Rewrote(input, end, rs, libPageSize, o, x) ensures x == segs {
      SameOrder(ItemsOf(rs, libPageSize), o, order);
    }
  }

  /** The plans, one after the other: what the chunks are slices of. */
  function PlannedOutput(input: seq<byte>, plans: seq<Plan>, ghost out: seq<byte>): (r: seq<byte>)
    requires Assembly.Tiled(input, plans, 0, out)
    ensures r == out
  {
    TiledConcat(input, plans, 0, out);
    PlansConcat(input, plans)
  }

  function PlansConcat(input: seq<byte>, plans: seq<Plan>): (r: seq<byte>)
    requires forall i :: 0 <= i < |plans| ==> plans[i].srcOff + plans[i].srcLen <= |input|
  {
    if plans == [] then [] else Assembly.PlanBytes(input, plans[0]) + PlansConcat(input, plans[1..])
  }

  lemma {:induction false} TiledConcat(input: seq<byte>, plans: seq<Plan>, from: nat, out: seq<byte>)
    requires from <= |out| && Assembly.Tiled(input, plans, from, out)
    ensures forall i :: 0 <= i < |plans| ==> plans[i].srcOff + plans[i].srcLen <= |input|
    ensures out[from..] == PlansConcat(input, plans)
  {
    if plans != [] {
      TiledConcat(input, plans[1..], plans[0].OutEnd(), out);
      assert out[from..] == out[from..plans[0].OutEnd()] + out[plans[0].OutEnd()..];
    }
  }

  /** The threads of one call end, without an error. */
  predicate RunsWell(alg: Algorithm, out: seq<byte>, threads: nat, file: seq<byte>, schedule: seq<Pipeline.Choice>) {
    var s := PipelineRun(alg, out, threads, file, schedule);
    Pipeline.Finished(s) && Pipeline.Succeeded(s)
  }

  /** A header could not be read. */
  predicate Unread(flaky: bool, r: Result<Rewritten, RewriteError>) {
    flaky && r == Err(Planning(Header(ReadFailed)))
  }

  /** Without an order or a plan there is no rewrite. */
  lemma NoPlan(input: seq<byte>, end: nat, rs: seq<seq<byte>>, libPageSize: nat, order: seq<nat>)
    requires end <= |input| && AllRecords(rs)
    requires var items := ItemsOf(rs, libPageSize);
      AllInside(items, end) && DistinctOffsets(items) ==>
        FileOrder(order, items) && ItemsOk(InOrder(order, items), end)
          && PlanFrom(input, end, InOrder(order, items), 0, 0).Err?
    ensures forall o, x :: !Rewrote(input, end, rs, libPageSize, o, x)
  {
    hide PlanFrom, FileOrder, InOrder, ItemsOf, AllInside, ItemsOk, DistinctOffsets;
    forall o, x ensures !Rewrote(input, end, rs, libPageSize, o, x) {
      if Rewrote(input, end, rs, libPageSize, o, x) {
        OrderedItems(ItemsOf(rs, libPageSize), o);
        SameOrder(ItemsOf(rs, libPageSize), o, order);
      }
    }
  }

  /** `rewrite`. `schedule` is the interleaving of its threads with the I/O errors they meet; a run
      that has not ended, or ended with an error, yields no result. In a flaky file a header read of the
      planner may fail as well. `file` is what the output file held before. */
  method RewriteEntries(alg: Algorithm, input: seq<byte>, end: nat, rs: seq<seq<byte>>, libPageSize: nat, threads: nat,
                        file: seq<byte>, schedule: seq<Pipeline.Choice>, flaky: bool)
    returns (r: Result<Rewritten, RewriteError>, ghost order: seq<nat>, ghost segs: seq<Segment>)
    requires alg.Valid() && end <= |input| && AllRecords(rs)
    ensures Unread(flaky, r) || (r.Ok? <==> exists o, x ::
      Rewrote(input, end, rs, libPageSize, o, x) && Inside(input, x)
        && RunsWell(alg, Render(input, x), threads, file, schedule))
    ensures Unread(flaky, r) ||
      var items := ItemsOf(rs, libPageSize);
      var ordered := AllInside(items, end) && DistinctOffsets(items);
      && (!ordered ==> r.Err? && r.error.Planning?)
      && (ordered ==> FileOrder(order, items) && ItemsOk(InOrder(order, items), end))
      && (ordered && PlanFrom(input, end, InOrder(order, items), 0, 0).Err? ==>
            r == Err(Planning(PlanFrom(input, end, InOrder(order, items), 0, 0).error)))
      && (ordered && PlanFrom(input, end, InOrder(order, items), 0, 0).Ok? ==>
            && Rewrote(input, end, rs, libPageSize, order, segs) && Inside(input, segs)
            && (r.Ok? <==> RunsWell(alg, Render(input, segs), threads, file, schedule))
            && (r.Err? ==> r.error == Threads))
    ensures r.Ok? ==>
      && Rewrote(input, end, rs, libPageSize, order, segs) && Inside(input, segs)
      && RewrittenIs(alg, input, rs, libPageSize, segs, r.value)
    ensures r.Ok? ==> forall o, x :: Rewrote(input, end, rs, libPageSize, o, x) ==>
      Inside(input, x) && RewrittenIs(alg, input, rs, libPageSize, x, r.value)
  {
    hide Rewrote, PlanFrom, PlansMatch, FileOrder, Render, NewRecords, Pipeline.Run, Pipeline.Inv;
    var items := ItemsOf(rs, libPageSize);
    order, segs := [], [];
    var o := MakeFileOrder(items, end);
    if o.Err? {
      NoPlan(input, end, rs, libPageSize, order);
      return Err(Planning(o.error)), order, segs;
    }
    order := o.value;
    OrderIsOk(items, o.value, end);
    var p;
    p, segs := MakePlans(input, end, items, o.value, flaky);
    if p.Err? {
      if !flaky || p.error != Header(ReadFailed) {
        NoPlan(input, end, rs, libPageSize, order);
      }
      return Err(Planning(p.error)), order, segs;
    }
    var (plans, newEnd) := p.value;
    PlannedIsRewrote(input, end, rs, libPageSize, o.value, segs);
    OnlyPlan(input, end, rs, libPageSize, o.value, segs);
    PlansFit(input, end, items, o.value, plans, segs);
    var out := PlannedOutput(input, plans, Render(input, segs));
    var s := PipelineRun(alg, out, threads, file, schedule);
    if !RunsWell(alg, out, threads, file, schedule) {
      return Err(Threads), order, segs;
    }
    var cfg := Pipeline.Config(alg, out);
    Pipeline.RunKeepsInv(cfg, Pipeline.ProducerCount(threads, cfg.Count()), file, schedule);
    Pipeline.FinishedState(cfg, s);
    var digests := Pipeline.ChunkDigestsOf(cfg, s);
    RewroteFacts(input, end, rs, libPageSize, o.value, segs);
    var newOff := NoteOffsets(plans, items, segs);
    var newCd, count := BuildCd(rs, items, newOff, segs);
    ChunksAreSlices(out + Zeros(Sigblock.PaddingBeforeBlock(newEnd)));
    r := Ok(Rewritten(newCd, newEnd, count, Sigblock.PaddingBeforeBlock(newEnd), cfg.Count(), digests, s.file));
  }
}
