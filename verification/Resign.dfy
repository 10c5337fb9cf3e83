/** End to end: the file `sign_one` leaves parses back and verifies, and signing it again leaves it as
    it is. */
module Resign {
  import opened Wrappers
  import opened Bytes
  import opened Digest
  import opened Files
  import opened Hashing
  import opened Zip
  import opened Sigblock
  import opened HeaderReader
  import opened Planner
  import opened Idempotence
  import opened Directory
  import opened RewriteTwice
  import opened Inspector
  import opened Splice
  import opened Signed
  import opened Sign
  import Pipeline
  import Realigned
  import DW = DigestWorkers

  // --- The signed file, taken apart ----------------------------------------------------------------

  /** The digest a run puts in the signer blocks. */
  function DigestOf(signer: Signer, c: Content, template: seq<byte>): (d: seq<byte>)
    requires |template| >= EOCD_MIN_LEN
  {
    ContentDigest(signer.alg, Covered(c.entries, c.cd, template, c.count))
  }

  function ApkOf(signer: Signer, v2: bool, v3: bool, c: Content, template: seq<byte>): (p: SignedApk)
    requires |template| >= EOCD_MIN_LEN && signer.Pairs(DigestOf(signer, c, template), v2, v3).Some?
  {
    SignedApk(c.entries, signer.Pairs(DigestOf(signer, c, template), v2, v3).value, c.cd, template, c.count)
  }

  lemma SignedIsApk(signer: Signer, v2: bool, v3: bool, c: Content, template: seq<byte>)
    requires |template| >= EOCD_MIN_LEN && SignedFile(signer, v2, v3, c.entries, c.cd, template, c.count).Some?
    ensures signer.Pairs(DigestOf(signer, c, template), v2, v3).Some?
    ensures var p := ApkOf(signer, v2, v3, c, template);
      SignedFile(signer, v2, v3, c.entries, c.cd, template, c.count) == Some(p.Bytes()) && p.CdOff() <= U32_MAX
  {
    hide ContentDigest, Covered, BlockBytes, SetCdOffset, NewEocd;
  }

  lemma {:induction false} NewRecordsShorter(rs: seq<seq<byte>>, items: seq<Item>, segs: seq<Segment>)
    requires AllRecords(rs) && |items| == |rs|
    ensures |Concat(NewRecords(rs, items, segs))| <= |Concat(rs)|
  {
    hide IsRecord, NewOffset;
    if rs != [] {
      var n := |rs| - 1;
      var before := NewRecords(rs[..n], items[..n], segs);
      NewRecordsShorter(rs[..n], items[..n], segs);
      ConcatSnoc(rs[..n], rs[n]);
      assert rs == rs[..n] + [rs[n]];
      var o := NewOffset(segs, items[n].off);
      if o.Some? {
        ConcatSnoc(before, PatchRecord(rs[n], o.value));
      } else {
        assert before + [] == before;
      }
    }
  }

  lemma SettledShort(f: seq<byte>, s: Sections, rs: seq<seq<byte>>, opts: Opts, rewrote: bool, c: Content)
    requires Settled(f, s, rs, opts, rewrote, c)
    ensures |c.cd| <= s.cdSize && (c.cd == [] || |c.cd| >= 46)
  {
    hide Rewrites, Rewrote, Render, IsRecord, NewRecords, Kept;
    if rewrote {
      var order, segs :| Rewrote(f, s.entriesEnd, rs, opts.libPageSize, order, segs) && Inside(f, segs)
        && LaidContent(f, rs, opts.libPageSize, segs, c);
      NewRecordsShorter(rs, ItemsOf(rs, opts.libPageSize), segs);
      NewRecordsOk(rs, ItemsOf(rs, opts.libPageSize), segs);
      ConcatNonempty(NewRecords(rs, ItemsOf(rs, opts.libPageSize), segs));
    } else {
      KeptShorter(rs);
      ConcatNonempty(Kept(rs));
    }
  }

  /** What `SignOne` promises of a run that succeeds. */
  ghost predicate Ran(f: seq<byte>, opts: Opts, signer: Signer, s: Sections, rs: seq<seq<byte>>, rewrote: bool,
                      c: Content, out: seq<byte>) {
    Signable(f, opts, signer, s, rs, rewrote, c)
    && Some(out) == SignedFile(signer, opts.v2, opts.v3, c.entries, c.cd, s.eocd, c.count)
  }

  lemma RanApk(f: seq<byte>, opts: Opts, signer: Signer, s: Sections, rs: seq<seq<byte>>, rewrote: bool, c: Content,
               out: seq<byte>)
    requires Ran(f, opts, signer, s, rs, rewrote, c, out)
    ensures signer.Pairs(DigestOf(signer, c, s.eocd), opts.v2, opts.v3).Some?
    ensures var p := ApkOf(signer, opts.v2, opts.v3, c, s.eocd); p.Ok() && out == p.Bytes()
  {
    hide SignedFile, DigestOf, Parse, Settled, CanDecide, SignedApk.Bytes, Signer.Pairs, EocdAt;
    SignedIsApk(signer, opts.v2, opts.v3, c, s.eocd);
    ParsedEocdOk(f);
    SettledShort(f, s, rs, opts, rewrote, c);
    CommentFits(s.eocd);
  }

  lemma CommentFits(e: seq<byte>)
    requires EocdOk(e)
    ensures |e| <= EOCD_MIN_LEN + MAX_COMMENT_LEN
  {
    assert e[0..] == e;
  }

  /** End to end, on every path: the output parses back exactly when `Reparses` holds, and then a
      verifier accepts it. */
  lemma EndToEnd(f: seq<byte>, opts: Opts, signer: Signer, s: Sections, rs: seq<seq<byte>>, rewrote: bool, c: Content,
                 out: seq<byte>)
    requires Ran(f, opts, signer, s, rs, rewrote, c, out) && signer.algId < U32_MOD
    ensures signer.Pairs(DigestOf(signer, c, s.eocd), opts.v2, opts.v3).Some?
    ensures var p := ApkOf(signer, opts.v2, opts.v3, c, s.eocd);
      && (Parse(out) == Ok(p.Sections()) <==> Reparses(p))
      && (Reparses(p) ==> Verifies(signer, opts.v2, opts.v3, out))
  {
    hide SignedFile, ContentDigest, Covered, Parse, Settled, CanDecide, SignedApk.Bytes, Signer.Pairs, Verifies,
      Reparses, EocdAt, EocdOk, FinalEocd, SignedApk.Sections;
    RanApk(f, opts, signer, s, rs, rewrote, c, out);
    var p := ApkOf(signer, opts.v2, opts.v3, c, s.eocd);
    ReparseIff(p);
    if Reparses(p) {
      SignedFileVerifies(signer, opts.v2, opts.v3, p);
    }
  }

  // --- Signing again ---------------------------------------------------------------------------------

  /** The patches of a second run change nothing the first did not. */
  lemma PatchedTwice(template: seq<byte>, cdLen: nat, count: nat, a: nat, b: nat)
    requires |template| >= EOCD_MIN_LEN
    ensures FinalEocd(FinalEocd(template, cdLen, count, a), cdLen, count, b) == FinalEocd(template, cdLen, count, b)
  {
    hide ToLE, FinalEocd;
    var once := FinalEocd(template, cdLen, count, b);
    var first := FinalEocd(template, cdLen, count, a);
    var twice := FinalEocd(first, cdLen, count, b);
    OutsidePatch(template, cdLen, count, a);
    OutsidePatch(template, cdLen, count, b);
    OutsidePatch(first, cdLen, count, b);
    assert once == once[..8] + once[8..20] + once[20..];
    assert twice == twice[..8] + twice[8..20] + twice[20..];
  }

  /** Given the bytes before the block as entries, the same directory and count, and its own EOCD, a
      signed file is signed to itself: no padding is added, the digested bytes are the same, so the
      block is. */
  lemma SignedAgain(signer: Signer, v2: bool, v3: bool, c: Content, template: seq<byte>)
    requires |template| >= EOCD_MIN_LEN && SignedFile(signer, v2, v3, c.entries, c.cd, template, c.count).Some?
    requires signer.Pairs(DigestOf(signer, c, template), v2, v3).Some?
    ensures var p := ApkOf(signer, v2, v3, c, template);
      && p.CdOff() <= |p.Bytes()|
      && SignedFile(signer, v2, v3, p.Bytes()[..p.Start()], c.cd, p.Eocd(), c.count) == Some(p.Bytes())
  {
    hide ContentDigest, BlockBytes, SignedFile, FinalEocd, Covered, Signer.Pairs, SignedApk.Bytes;
    SignedIsApk(signer, v2, v3, c, template);
    var p := ApkOf(signer, v2, v3, c, template);
    PartsInPlace(p);
    var w := p.Bytes()[..p.Start()];
    PatchedTwice(template, |c.cd|, c.count, p.CdOff(), p.CdOff());
    var c2 := Content(w, c.cd, c.count);
    SameCovered(c, c2, template, p);
    Repadded(c.entries, w);
    SignedFrom(signer, v2, v3, c2, p.Eocd(), p.pairs);
    assert p.Bytes() == w + BlockBytes(p.pairs) + c.cd + p.Eocd() by { BytesFrom(p); }
  }

  lemma BytesFrom(p: SignedApk)
    requires |p.template| >= EOCD_MIN_LEN
    ensures p.CdOff() <= |p.Bytes()| && p.Bytes() == p.Bytes()[..p.Start()] + BlockBytes(p.pairs) + p.cd + p.Eocd()
  {
    hide BlockBytes, FinalEocd;
    PartsInPlace(p);
  }

  lemma Repadded(entries: seq<byte>, w: seq<byte>)
    requires w == entries + Zeros(PaddingBeforeBlock(|entries|))
    ensures |w| % PAGE == 0 && PaddingBeforeBlock(|w|) == 0
  {
  }

  lemma SignedFrom(signer: Signer, v2: bool, v3: bool, c: Content, template: seq<byte>, ps: seq<Pair>)
    requires |template| >= EOCD_MIN_LEN && signer.Pairs(DigestOf(signer, c, template), v2, v3) == Some(ps)
    requires PaddingBeforeBlock(|c.entries|) == 0 && |c.entries| + |BlockBytes(ps)| <= U32_MAX
    ensures SignedFile(signer, v2, v3, c.entries, c.cd, template, c.count)
      == Some(c.entries + BlockBytes(ps) + c.cd + FinalEocd(template, |c.cd|, c.count, |c.entries| + |BlockBytes(ps)|))
  {
    hide ContentDigest, Covered, BlockBytes, SetCdOffset, NewEocd, Signer.Pairs, SignedFile;
    SignedFileIs(signer, v2, v3, c.entries, c.cd, template, c.count, Some(ps));
    assert Zeros(0) + BlockBytes(ps) == BlockBytes(ps);
  }

  lemma SameCovered(c: Content, c2: Content, template: seq<byte>, p: SignedApk)
    requires |template| >= EOCD_MIN_LEN && p.template == template && p.entries == c.entries && p.cd == c.cd
      && p.count == c.count
    requires c2.entries == c.entries + Zeros(PaddingBeforeBlock(|c.entries|)) && c2.cd == c.cd && c2.count == c.count
    ensures Covered(c2.entries, c2.cd, p.Eocd(), c2.count) == Covered(c.entries, c.cd, template, c.count)
  {
    PatchedTwice(template, |c.cd|, c.count, p.CdOff(), p.Start());
    hide BlockBytes;
    var w := c2.entries;
    assert |w| % PAGE == 0 && PaddingBeforeBlock(|w|) == 0 && w + Zeros(0) == w && |w| == p.Start();
  }

  /** The planner reads nothing past the section. */
  lemma {:induction false} PlanFrame(f: seq<byte>, w: seq<byte>, items: seq<Item>, consumed: nat, cursor: nat)
    requires |w| <= |f| && w == f[..|w|] && ItemsOk(items, |w|) && consumed <= |w|
    ensures PlanFrom(f, |w|, items, consumed, cursor) == PlanFrom(w, |w|, items, consumed, cursor)
    decreases |items|
  {
    hide PlanFrom, HeaderAt, HeaderLen, DataLen, NewHeader, Prepend;
    var end := |w|;
    PlanUnfold(f, end, items, consumed, cursor);
    PlanUnfold(w, end, items, consumed, cursor);
    if items != [] {
      var it := items[0];
      HeaderFrame(f, w, it.off);
      if it.policy == Gap {
        PlanFrame(f, w, items[1..], consumed, cursor);
      } else if it.off >= consumed && HeaderAt(w, end, it.off).Ok? {
        var prefix := HeaderAt(w, end, it.off).value;
        DataFrame(f, w, it, it.off + |prefix|);
        var dataLen := DataLen(w, end, it, it.off + |prefix|);
        var next := it.off + |prefix| + dataLen;
        var newOff := cursor + (it.off - consumed);
        if next <= end {
          PrefixLen(w, end, it.off);
          if it.policy == Skip {
            PlanFrame(f, w, items[1..], next, newOff);
          } else if NewHeader(prefix, it.rule, newOff).Some? {
            PlanFrame(f, w, items[1..], next, newOff + |NewHeader(prefix, it.rule, newOff).value| + dataLen);
          }
        }
      }
    }
  }

  lemma HeaderFrame(f: seq<byte>, w: seq<byte>, off: nat)
    requires |w| <= |f| && w == f[..|w|] && off + LFH_LEN <= |w|
    ensures HeaderAt(f, |w|, off) == HeaderAt(w, |w|, off)
  {
    var h := w[off..off + LFH_LEN];
    assert h == f[off..off + LFH_LEN];
    if off + HeaderLen(h) <= |w| {
      assert w[off..off + HeaderLen(h)] == f[off..off + HeaderLen(h)];
    }
  }

  lemma DataFrame(f: seq<byte>, w: seq<byte>, it: Item, dataOff: nat)
    requires |w| <= |f| && w == f[..|w|]
    ensures DataLen(f, |w|, it, dataOff) == DataLen(w, |w|, it, dataOff)
  {
    var at := dataOff + it.size;
    if at + 4 <= |w| {
      assert w[at..at + 4] == f[at..at + 4];
    }
  }

  lemma {:induction false} RenderFrame(f: seq<byte>, w: seq<byte>, segs: seq<Segment>)
    requires |w| <= |f| && w == f[..|w|] && Inside(w, segs)
    ensures Inside(f, segs) && Render(f, segs) == Render(w, segs)
  {
    if segs != [] {
      RenderFrame(f, w, segs[1..]);
      var s := segs[0];
      if s.Record? {
        var a := s.item.off + s.prefixLen;
        assert w[a..a + s.dataLen] == f[a..a + s.dataLen];
      } else {
        assert w[s.src..s.src + s.len] == f[s.src..s.src + s.len];
      }
    }
  }

  /** The new directory lists only entries that stay. */
  lemma NewRecordsKept(f: seq<byte>, end: nat, rs: seq<seq<byte>>, libPageSize: nat, order: seq<nat>,
                       segs: seq<Segment>)
    requires Rewrote(f, end, rs, libPageSize, order, segs) && OutLen(segs) <= U32_MOD
    ensures var rs2 := NewRecords(rs, ItemsOf(rs, libPageSize), segs); AllRecords(rs2) && Kept(rs2) == rs2
  {
    hide PlanFrom, NewRecords, Policy, RequiredAlignment, RecordName;
    SecondDirectory(f, end, rs, libPageSize, order, segs);
    RewroteFacts(f, end, rs, libPageSize, order, segs);
    SecondIn(segs);
    var rs2 := NewRecords(rs, ItemsOf(rs, libPageSize), segs);
    var items2 := ItemsOf(rs2, libPageSize);
    forall i | 0 <= i < |rs2| ensures Policy(RecordName(rs2[i])) == Output {
      assert items2[i] in items2;
      assert items2[i].policy == Policy(RecordName(rs2[i]));
    }
    KeptAll(rs2);
  }

  /** What a run knows of the rewrite it made. */
  ghost predicate Laid(f: seq<byte>, s: Sections, rs: seq<seq<byte>>, libPageSize: nat, order: seq<nat>,
                       segs: seq<Segment>, c: Content) {
    && AllRecords(rs) && Rewrote(f, s.entriesEnd, rs, libPageSize, order, segs) && Inside(f, segs)
    && OutLen(segs) <= U32_MOD && LaidContent(f, rs, libPageSize, segs, c)
  }

  /** A second rewrite of the signed file, with the directory of the first, lays out the same content. */
  lemma RewritesToItself(f: seq<byte>, s: Sections, rs: seq<seq<byte>>, libPageSize: nat, order: seq<nat>,
                         segs: seq<Segment>, c: Content, tail: seq<byte>, out: seq<byte>, s2: Sections)
    requires Laid(f, s, rs, libPageSize, order, segs, c)
    requires var w := c.entries + tail; s2.entriesEnd == |w| <= |out| && out[..|w|] == w
    ensures var w := c.entries + tail;
      IsRewritten(out, s2, NewRecords(rs, ItemsOf(rs, libPageSize), segs), libPageSize, Content(w, c.cd, c.count))
  {
    hide PlanFrom, ItemsOf, Render, NewRecords, SegmentOk, Rewrote, Concat, IsRecord;
    assert AllRecords(rs);
    var w := Render(f, segs) + tail;
    var rs2 := NewRecords(rs, ItemsOf(rs, libPageSize), segs);
    RewritingTwice(f, s.entriesEnd, rs, libPageSize, order, segs, tail);
    var items2 := ItemsOf(rs2, libPageSize);
    var order2 := SortByOffset(items2, |items2|);
    OrderExists(items2, |w|);
    var again :| Rewrote(w, |w|, rs2, libPageSize, order2, again)
      && Inside(w, again) && Render(w, again) == w && NewRecords(rs2, items2, again) == rs2;
    SameRewrote(out, w, rs2, libPageSize, order2, again);
    RenderFrame(out, w, again);
    assert LaidContent(out, rs2, libPageSize, again, Content(w, c.cd, c.count));
  }

  lemma SameRewrote(out: seq<byte>, w: seq<byte>, rs: seq<seq<byte>>, libPageSize: nat, order: seq<nat>,
                    segs: seq<Segment>)
    requires Rewrote(w, |w|, rs, libPageSize, order, segs) && |w| <= |out| && w == out[..|w|]
    ensures Rewrote(out, |w|, rs, libPageSize, order, segs)
  {
    hide PlanFrom, ItemsOf, AllInside;
    PlanFrame(out, w, InOrder(order, ItemsOf(rs, libPageSize)), 0, 0);
  }

  /** The records a second run finds: what the first kept or laid out, and nothing to drop. */
  lemma SecondRecords(f: seq<byte>, opts: Opts, signer: Signer, s: Sections, rs: seq<seq<byte>>, rewrote: bool,
                      c: Content, out: seq<byte>)
    returns (rs2: seq<seq<byte>>, order: seq<nat>, segs: seq<Segment>)
    requires Ran(f, opts, signer, s, rs, rewrote, c, out)
    ensures AllRecords(rs) && AllRecords(rs2) && Kept(rs2) == rs2 && Concat(rs2) == c.cd && |rs2| == c.count
    ensures !rewrote ==> rs2 == Kept(rs)
    ensures rewrote ==>
      Laid(f, s, rs, opts.libPageSize, order, segs, c) && rs2 == NewRecords(rs, ItemsOf(rs, opts.libPageSize), segs)
  {
    hide SignedFile, DigestOf, Parse, SignedApk.Bytes, Signer.Pairs, EocdAt, CanDecide, Rewrites, Rewrote, Render,
      NewRecords, ItemsOf, BlockBytes, FinalEocd, Kept, IsRecord, Concat, SectionsOk;
    RanApk(f, opts, signer, s, rs, rewrote, c, out);
    order, segs := [], [];
    if rewrote {
      order, segs :| Rewrote(f, s.entriesEnd, rs, opts.libPageSize, order, segs) && Inside(f, segs)
        && LaidContent(f, rs, opts.libPageSize, segs, c);
      assert |Render(f, segs)| == OutLen(segs);
      rs2 := NewRecords(rs, ItemsOf(rs, opts.libPageSize), segs);
      NewRecordsKept(f, s.entriesEnd, rs, opts.libPageSize, order, segs);
    } else {
      rs2 := Kept(rs);
      FilterIdempotent(rs);
    }
  }

  // --- The second decision -----------------------------------------------------------------------------

  /** Headers that lie in a common head are read alike, and checked alike. */
  lemma SameChecks(f: seq<byte>, out: seq<byte>, end: nat, start: nat, items: seq<Item>)
    requires end <= |f| && end <= start <= |out| && f[..end] == out[..end] && AllInside(items, end)
    ensures Sound(f, end, items) ==> Sound(out, start, items)
    ensures SomeBad(f, end, items) <==> SomeBad(out, start, items)
  {
    hide DirectRead, Bad;
    forall i | 0 <= i < |items|
      ensures DirectLens(f, end, items)[i] == DirectLens(out, start, items)[i]
      ensures Readable(f, end, items[i]) <==> Readable(out, start, items[i])
      ensures ProvenBad(f, end, items[i]) <==> ProvenBad(out, start, items[i])
    {
      SameRead(f, out, end, items[i].off);
    }
  }

  lemma SameRead(f: seq<byte>, out: seq<byte>, end: nat, off: nat)
    requires off + LFH_LEN <= end <= |f| && end <= |out| && f[..end] == out[..end]
    ensures DirectRead(f, off) == DirectRead(out, off)
  {
    assert f[off..off + LFH_LEN] == f[..end][off..off + LFH_LEN];
    assert out[off..off + LFH_LEN] == out[..end][off..off + LFH_LEN];
  }

  lemma HeadSame(f: seq<byte>, out: seq<byte>, entries: seq<byte>, zeros: seq<byte>, end: nat, start: nat)
    requires end <= |f| && entries == f[..end] && start <= |out| && out[..start] == entries + zeros
    ensures end <= |out| && f[..end] == out[..end]
  {
    assert out[..end] == out[..start][..end];
  }

  /** In mode Check the second decision can be made, and where the first run found nothing misaligned
      it finds nothing either. */
  lemma DecidesAgain(f: seq<byte>, opts: Opts, signer: Signer, s: Sections, rs: seq<seq<byte>>, rewrote: bool,
                     c: Content, out: seq<byte>, s2: Sections, rs2: seq<seq<byte>>, order: seq<nat>, segs: seq<Segment>)
    requires Ran(f, opts, signer, s, rs, rewrote, c, out) && opts.mode == Check
    requires AllRecords(rs) && AllRecords(rs2) && Kept(rs2) == rs2
    requires !rewrote ==> rs2 == Kept(rs)
    requires rewrote ==>
      Laid(f, s, rs, opts.libPageSize, order, segs, c) && rs2 == NewRecords(rs, ItemsOf(rs, opts.libPageSize), segs)
    requires |c.entries| <= s2.entriesEnd <= |out|
    requires out[..s2.entriesEnd] == c.entries + Zeros(s2.entriesEnd - |c.entries|)
    ensures CanDecide(out, s2, rs2, opts)
    ensures !rewrote ==> !Rewrites(out, s2, rs2, opts)
  {
    hide SignedFile, Parse, SectionsOk, ItemOf, Rewrote, NewRecords, Render, Sound, SomeBad, QuickYes, Kept, IsRecord,
      Concat, AllInside, DistinctOffsets;
    var items2 := ItemsOf(rs2, opts.libPageSize);
    var zeros := Zeros(s2.entriesEnd - |c.entries|);
    if rewrote {
      Realigned.RewrittenIsSound(f, s.entriesEnd, rs, opts.libPageSize, order, segs, zeros);
      var w := Render(f, segs) + zeros;
      assert w == out[..|w|] && w[..|w|] == w;
      SameChecks(w, out, |w|, s2.entriesEnd, items2);
    } else {
      FastFacts(f, opts, signer, s, rs, c, out);
      HeadSame(f, out, c.entries, zeros, s.entriesEnd, s2.entriesEnd);
      SameChecks(f, out, s.entriesEnd, s2.entriesEnd, items2);
      InsideMore(items2, s.entriesEnd, s2.entriesEnd);
    }
  }

  lemma InsideMore(items: seq<Item>, end: nat, start: nat)
    requires end <= start
    ensures AllInside(items, end) ==> AllInside(items, start)
  {
  }

  /** A first run on the fast path in mode Check has seen every header sound and aligned. */
  lemma FastFacts(f: seq<byte>, opts: Opts, signer: Signer, s: Sections, rs: seq<seq<byte>>, c: Content, out: seq<byte>)
    requires Ran(f, opts, signer, s, rs, false, c, out) && opts.mode == Check
    ensures AllRecords(rs) && s.entriesEnd <= |f| && c.entries == f[..s.entriesEnd]
    ensures var items := ItemsOf(Kept(rs), opts.libPageSize);
      && AllInside(items, s.entriesEnd) && DistinctOffsets(items)
      && Sound(f, s.entriesEnd, items) && !SomeBad(f, s.entriesEnd, items)
  {
    hide SignedFile, Parse, ItemOf, Sound, SomeBad, QuickYes, IsRecord, Concat, AllInside, DistinctOffsets;
    QuickIsBad(f, s.entriesEnd, ItemsOf(Kept(rs), opts.libPageSize), 16);
  }

  /** Whatever path a first run took, its output has what a second run needs, and the second run
      settles on the bytes before the block, the same directory and the same count. */
  lemma SecondSignable(f: seq<byte>, opts: Opts, signer: Signer, s: Sections, rs: seq<seq<byte>>, rewrote: bool,
                       c: Content, out: seq<byte>)
    returns (s2: Sections, rs2: seq<seq<byte>>, rewrote2: bool, c2: Content)
    requires Ran(f, opts, signer, s, rs, rewrote, c, out)
    requires signer.Pairs(DigestOf(signer, c, s.eocd), opts.v2, opts.v3).Some?
    requires Reparses(ApkOf(signer, opts.v2, opts.v3, c, s.eocd))
    ensures Signable(out, opts, signer, s2, rs2, rewrote2, c2)
    ensures SignedFile(signer, opts.v2, opts.v3, c2.entries, c2.cd, s2.eocd, c2.count) == Some(out)
  {
    hide SignedFile, DigestOf, Parse, SignedApk.Bytes, Signer.Pairs, EocdAt, EocdOk, Reparses, BlockBytes, FinalEocd,
      SectionsOk, IsRecord, Concat, Rewrote, Render, NewRecords, ItemsOf, Kept, CanDecide, Rewrites, Laid, IsRewritten,
      Inside;
    RanApk(f, opts, signer, s, rs, rewrote, c, out);
    var p := ApkOf(signer, opts.v2, opts.v3, c, s.eocd);
    PartsInPlace(p);
    ReparseIff(p);
    s2 := p.Sections();
    var order, segs;
    rs2, order, segs := SecondRecords(f, opts, signer, s, rs, rewrote, c, out);
    SignedAgain(signer, opts.v2, opts.v3, c, s.eocd);
    var zeros := Zeros(PaddingBeforeBlock(|c.entries|));
    c2 := Content(out[..p.Start()], c.cd, c.count);
    if opts.mode == Check {
      DecidesAgain(f, opts, signer, s, rs, rewrote, c, out, s2, rs2, order, segs);
    }
    rewrote2 := Rewrites(out, s2, rs2, opts);
    EocdIsLong(s, f);
    Deciding(out, s2, rs2, opts, rewrote, f, s, rs);
    if rewrote2 {
      RewritesToItself(f, s, rs, opts.libPageSize, order, segs, c, zeros, out, s2);
    }
  }

  lemma Deciding(out: seq<byte>, s2: Sections, rs2: seq<seq<byte>>, opts: Opts, rewrote: bool, f: seq<byte>,
                 s: Sections, rs: seq<seq<byte>>)
    requires AllRecords(rs) && AllRecords(rs2) && s.entriesEnd <= |f| && s2.entriesEnd <= |out|
    requires rewrote <==> Rewrites(f, s, Kept(rs), opts)
    requires opts.mode == Check ==> CanDecide(out, s2, rs2, opts) && (!rewrote ==> !Rewrites(out, s2, rs2, opts))
    ensures CanDecide(out, s2, rs2, opts) && (Rewrites(out, s2, rs2, opts) ==> rewrote)
  {
    hide Decidable, SomeBad;
  }

  /** Re-signing is stable: with the same options and key, and a signature function (so: deterministic
      signatures), a second run on an output that parses back succeeds exactly when its threads end,
      and then leaves every byte as it is, whatever path either run took. */
  lemma ResignStable(f: seq<byte>, opts: Opts, signer: Signer, s: Sections, rs: seq<seq<byte>>, rewrote: bool,
                     c: Content, out: seq<byte>, env: Setting)
    returns (s2: Sections, rs2: seq<seq<byte>>, rewrote2: bool, c2: Content)
    requires Ran(f, opts, signer, s, rs, rewrote, c, out)
    requires signer.Pairs(DigestOf(signer, c, s.eocd), opts.v2, opts.v3).Some?
    requires Reparses(ApkOf(signer, opts.v2, opts.v3, c, s.eocd))
    ensures Signable(out, opts, signer, s2, rs2, rewrote2, c2) && SectionsOk(s2, out) && AllRecords(rs2)
    ensures (exists s', rs', rewrote', c' :: Completes(out, opts, signer, env, s', rs', rewrote', c'))
      <==> ThreadsFinish(out, s2, rs2, opts, signer, rewrote2, c2, env)
    ensures forall s', rs', rewrote', c', out' :: Ran(out, opts, signer, s', rs', rewrote', c', out') ==> out' == out
  {
    hide SignedFile, DigestOf, Parse, SignedApk.Bytes, Signer.Pairs, Reparses, CanDecide, ThreadsFinish, Settled;
    s2, rs2, rewrote2, c2 := SecondSignable(f, opts, signer, s, rs, rewrote, c, out);
    SettledRecords(out, s2, rs2, opts, rewrote2, c2);
    forall s', rs', rewrote', c' | Signable(out, opts, signer, s', rs', rewrote', c')
      ensures s' == s2 && rs' == rs2 && rewrote' == rewrote2 && c' == c2
    {
      SameContent(out, s2, opts, rs', rewrote', c', rs2, rewrote2, c2);
    }
    assert ThreadsFinish(out, s2, rs2, opts, signer, rewrote2, c2, env) ==>
      Completes(out, opts, signer, env, s2, rs2, rewrote2, c2);
  }

  lemma SettledRecords(f: seq<byte>, s: Sections, rs: seq<seq<byte>>, opts: Opts, rewrote: bool, c: Content)
    requires Settled(f, s, rs, opts, rewrote, c)
    ensures SectionsOk(s, f) && AllRecords(rs)
  {
  }

  // --- Threads can end ---------------------------------------------------------------------------------

  lemma LayoutCanFinish(alg: Algorithm, sha: bool, entries: seq<byte>, cd: seq<byte>, template: seq<byte>, count: nat,
                        threads: nat)
    returns (schedule: seq<DW.Choice>)
    requires |template| >= EOCD_MIN_LEN
    ensures LayoutFinishes(alg, sha, entries, cd, template, count, threads, schedule)
  {
    hide LayoutSources, DW.Run, DW.AllDone;
    var sources := LayoutSources(entries, cd, template, count);
    var cfg := DW.Shared(alg, sha, sources);
    var n := DW.ThreadCount(DW.TotalLen(sources), |cfg.chunks|, threads);
    DW.CanFinish(cfg, n, []);
    schedule :| DW.AllDone(DW.Run(cfg, DW.Start(cfg, n), [] + schedule));
    assert [] + schedule == schedule;
  }

  /** For every signable input there are interleavings under which the run completes. */
  lemma CanComplete(f: seq<byte>, opts: Opts, signer: Signer, s: Sections, rs: seq<seq<byte>>, rewrote: bool,
                    c: Content, guess: Algorithm, sha: bool, threads: nat)
    returns (env: Setting)
    requires Signable(f, opts, signer, s, rs, rewrote, c)
    ensures env.guess == guess && env.sha == sha && env.threads == threads
    ensures Completes(f, opts, signer, env, s, rs, rewrote, c)
  {
    hide SignedFile, Parse, CanDecide, NeedsGuess, LayoutFinishes, Pipeline.Run, Rewrites, IsRewritten, IsFast;
    var kept := Kept(rs);
    var first := LayoutCanFinish(guess, sha, f[..s.entriesEnd], Concat(kept), s.eocd, |kept|, threads);
    var again := LayoutCanFinish(signer.alg, sha, c.entries, c.cd, s.eocd, c.count, threads);
    var cfg := Pipeline.Config(signer.alg, c.entries);
    var rewrite := Pipeline.CanSucceed(cfg, Pipeline.ProducerCount(threads, cfg.Count()), []);
    env := Setting(guess, sha, threads, first, again, rewrite);
  }

  // --- One input, one output -------------------------------------------------------------------------

  /** Any two runs on the same input with the same options and key give the same bytes: in place or to
      another file, with whatever guess, thread count and interleaving. */
  lemma RunsAgree(f: seq<byte>, opts: Opts, signer: Signer, s: Sections, rs: seq<seq<byte>>, rewrote: bool, c: Content,
                  out: seq<byte>, s': Sections, rs': seq<seq<byte>>, rewrote': bool, c': Content, out': seq<byte>)
    requires Ran(f, opts, signer, s, rs, rewrote, c, out) && Ran(f, opts, signer, s', rs', rewrote', c', out')
    ensures s == s' && rs == rs' && rewrote == rewrote' && c == c' && out == out'
  {
    hide SignedFile, Settled, CanDecide, Parse;
    SameContent(f, s, opts, rs, rewrote, c, rs', rewrote', c');
  }

  /** In place, to another file, and in place again. The first two succeed alike when their threads
      end, with the same bytes; the third succeeds when its threads end, and changes nothing. */
  method SignThrice(bytes: seq<byte>, opts: Opts, signer: Signer, env: Setting, env2: Setting, env3: Setting)
    returns (inPlace: Result<seq<byte>, SignError>, toOut: Result<seq<byte>, SignError>,
             again: Result<seq<byte>, SignError>, ghost p: Option<SignedApk>)
    requires forall e :: e in [env, env2, env3] ==>
      e.guess.Valid() && (e.guess.isSha256 == signer.alg.isSha256 ==> e.guess == signer.alg)
    requires signer.alg.Valid()
    ensures inPlace.Ok? <==> exists s, rs, rewrote, c :: Completes(bytes, opts, signer, env, s, rs, rewrote, c)
    ensures toOut.Ok? <==> exists s, rs, rewrote, c :: Completes(bytes, opts, signer, env2, s, rs, rewrote, c)
    ensures inPlace.Ok? && toOut.Ok? ==> inPlace.value == toOut.value
    ensures inPlace.Ok? ==> p.Some? && |p.value.template| >= EOCD_MIN_LEN && inPlace.value == p.value.Bytes()
    ensures inPlace.Ok? && Reparses(p.value) ==>
      exists s, rs, rewrote, c ::
        && Signable(inPlace.value, opts, signer, s, rs, rewrote, c) && SectionsOk(s, inPlace.value) && AllRecords(rs)
        && (again.Ok? <==> ThreadsFinish(inPlace.value, s, rs, opts, signer, rewrote, c, env3))
    ensures inPlace.Ok? && Reparses(p.value) && again.Ok? ==> again.value == inPlace.value
  {
    hide Settled, SignedFile, Parse, DigestOf, Signer.Pairs, Reparses, SignedApk.Bytes, CanDecide, ThreadsFinish;
    p := None;
    assert env in [env, env2, env3] && env2 in [env, env2, env3] && env3 in [env, env2, env3];
    var a := new File(bytes);
    var b := new File(bytes);
    ghost var s1, rs1, rw1, c1, s2, rs2, rw2, c2, s3, rs3, rw3, c3;
    inPlace, s1, rs1, rw1, c1 := SignOne(a, true, opts, signer, env);
    toOut, s2, rs2, rw2, c2 := SignOne(b, false, opts, signer, env2);
    again := inPlace;
    if inPlace.Ok? {
      RanApk(bytes, opts, signer, s1, rs1, rw1, c1, inPlace.value);
      p := Some(ApkOf(signer, opts.v2, opts.v3, c1, s1.eocd));
      if toOut.Ok? {
        RunsAgree(bytes, opts, signer, s1, rs1, rw1, c1, inPlace.value, s2, rs2, rw2, c2, toOut.value);
      }
      var d := new File(inPlace.value);
      again, s3, rs3, rw3, c3 := SignOne(d, true, opts, signer, env3);
      if Reparses(p.value) {
        ghost var s4, rs4, rw4, c4 := ResignStable(bytes, opts, signer, s1, rs1, rw1, c1, inPlace.value, env3);
        assert again.Ok? ==> Ran(inPlace.value, opts, signer, s3, rs3, rw3, c3, again.value);
      }
    }
  }
}
