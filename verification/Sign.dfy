/** `sign_one` of src/main.rs, from the input's bytes to the output's. */
module Sign {
  import opened Wrappers
  import opened Bytes
  import opened Hashing
  import opened Digest
  import opened Files
  import opened Zip
  import opened Sigblock
  import opened Planner
  import opened Idempotence
  import opened Directory
  import opened RewriteTwice
  import opened Inspector
  import Entries
  import opened Splice
  import Rewrite
  import Pipeline
  import DW = DigestWorkers

  datatype Mode = Off | Check | Always

  datatype Opts = Opts(v2: bool, v3: bool, mode: Mode, libPageSize: nat)

  /** What one call meets besides its input: the algorithm guessed before the key is loaded, the
      processor's SHA instructions, the thread count, and how its threads interleave (digest workers,
      digest workers again when the guess was wrong, rewrite pipeline). */
  datatype Setting = Setting(guess: Algorithm, sha: bool, threads: nat, digest: seq<DW.Choice>, again: seq<DW.Choice>,
                             rewrite: seq<Pipeline.Choice>)

  datatype SignError =
    | Parsing(z: ZipError) | Unordered(p: PlanError) | Quick(q: QuickError) | Checking(i: InspectCheckError)
    | Rewriting(r: Rewrite.RewriteError) | Running | Signing | TooBig

  /** What a run settled on signing. */
  datatype Content = Content(entries: seq<byte>, cd: seq<byte>, count: nat)

  const SAMPLE: nat := 16

  // --- Records, from what the parser noted ------------------------------------------------------------

  ghost predicate Ranges(cd: seq<byte>, es: seq<CdEntry>) {
    forall i :: 0 <= i < |es| ==> es[i].recordStart <= es[i].recordEnd <= |cd|
  }

  function Records(cd: seq<byte>, es: seq<CdEntry>): (rs: seq<seq<byte>>)
    requires forall i :: 0 <= i < |es| ==> es[i].recordStart <= es[i].recordEnd <= |cd|
  {
    seq(|es|, i requires 0 <= i < |es| => cd[es[i].recordStart..es[i].recordEnd])
  }

  lemma RecordsOf(cd: seq<byte>, rs: seq<seq<byte>>)
    requires AllRecords(rs) && Concat(rs) == cd
    ensures Ranges(cd, EntriesOf(rs, 0)) && Records(cd, EntriesOf(rs, 0)) == rs
  {
    hide IsRecord, EntryOf, Concat, EntriesOf, RecordName;
    var es := EntriesOf(rs, 0);
    forall i | 0 <= i < |es|
      ensures es[i].recordStart <= es[i].recordEnd <= |cd| && cd[es[i].recordStart..es[i].recordEnd] == rs[i]
    {
      NameInCd(cd, rs, i);
    }
  }

  // --- The content ------------------------------------------------------------------------------------

  /** The fast path keeps the entries as they are and the Output records of the directory. */
  ghost predicate IsFast(f: seq<byte>, s: Sections, rs: seq<seq<byte>>, c: Content) {
    && SectionsOk(s, f) && AllRecords(rs)
    && c == Content(f[..s.entriesEnd], Concat(Kept(rs)), |Kept(rs)|)
  }

  /** What a rewrite's plan lays out. */
  ghost predicate LaidContent(f: seq<byte>, rs: seq<seq<byte>>, libPageSize: nat, segs: seq<Segment>, c: Content)
    requires AllRecords(rs) && Inside(f, segs)
  {
    var rs2 := NewRecords(rs, ItemsOf(rs, libPageSize), segs);
    c == Content(Render(f, segs), Concat(rs2), |rs2|)
  }

  /** The other two paths take what the rewrite of the whole directory lays out. */
  ghost predicate IsRewritten(f: seq<byte>, s: Sections, rs: seq<seq<byte>>, libPageSize: nat, c: Content) {
    && AllRecords(rs)
    && exists order, segs ::
         Rewrote(f, s.entriesEnd, rs, libPageSize, order, segs) && Inside(f, segs)
           && LaidContent(f, rs, libPageSize, segs, c)
  }

  /** Whether a mode asks for a rewrite: in mode Check, when some kept entry is misaligned by a direct
      read of its header. */
  ghost predicate Rewrites(f: seq<byte>, s: Sections, kept: seq<seq<byte>>, opts: Opts)
    requires AllRecords(kept) && s.entriesEnd <= |f|
  {
    match opts.mode
    case Off => false
    case Always => true
    case Check => SomeBad(f, s.entriesEnd, ItemsOf(kept, opts.libPageSize))
  }

  /** Which content a mode asks for. */
  ghost predicate Settled(f: seq<byte>, s: Sections, rs: seq<seq<byte>>, opts: Opts, rewrote: bool, c: Content) {
    && SectionsOk(s, f) && AllRecords(rs) && Concat(rs) == f[s.cdOff..s.cdOff + s.cdSize]
    && (rewrote <==> Rewrites(f, s, Kept(rs), opts))
    && (if rewrote then IsRewritten(f, s, rs, opts.libPageSize, c) else IsFast(f, s, rs, c))
  }

  // --- When a run completes -----------------------------------------------------------------------------

  /** The first digest, with the guessed algorithm, ends. */
  ghost predicate GuessFinishes(f: seq<byte>, s: Sections, kept: seq<seq<byte>>, env: Setting)
    requires SectionsOk(s, f)
  {
    LayoutFinishes(env.guess, env.sha, f[..s.entriesEnd], Concat(kept), s.eocd, |kept|, env.threads, env.digest)
  }

  /** The headers allow a decision. */
  ghost predicate CanDecide(f: seq<byte>, s: Sections, kept: seq<seq<byte>>, opts: Opts)
    requires AllRecords(kept) && s.entriesEnd <= |f|
  {
    opts.mode == Check ==> Decidable(f, s.entriesEnd, ItemsOf(kept, opts.libPageSize), 16)
  }

  /** The decision needs the first digest, unless the mode or the quick test asks for a rewrite. */
  ghost predicate NeedsGuess(f: seq<byte>, s: Sections, kept: seq<seq<byte>>, opts: Opts)
    requires AllRecords(kept) && s.entriesEnd <= |f|
  {
    match opts.mode
    case Off => true
    case Always => false
    case Check => !QuickYes(f, s.entriesEnd, ItemsOf(kept, opts.libPageSize), 16)
  }

  /** The threads of a run end, and no I/O fails. */
  ghost predicate ThreadsFinish(f: seq<byte>, s: Sections, rs: seq<seq<byte>>, opts: Opts, signer: Signer,
                                rewrote: bool, c: Content, env: Setting)
    requires SectionsOk(s, f) && AllRecords(rs)
  {
    && (NeedsGuess(f, s, Kept(rs), opts) ==> GuessFinishes(f, s, Kept(rs), env))
    && (rewrote ==> Rewrite.RunsWell(signer.alg, c.entries, env.threads, [], env.rewrite))
    && (!rewrote && env.guess.isSha256 != signer.alg.isSha256 ==>
          LayoutFinishes(signer.alg, env.sha, c.entries, c.cd, s.eocd, c.count, env.threads, env.again))
  }

  /** The input has what a run needs, whatever its threads do: it parses, its directory is tiled by
      `rs`, a decision and, where asked for, a rewrite are possible, and the content can be signed. */
  ghost predicate Signable(f: seq<byte>, opts: Opts, signer: Signer, s: Sections, rs: seq<seq<byte>>, rewrote: bool,
                           c: Content) {
    && Parse(f) == Ok(s) && |s.eocd| >= EOCD_MIN_LEN
    && Settled(f, s, rs, opts, rewrote, c) && CanDecide(f, s, Kept(rs), opts)
    && SignedFile(signer, opts.v2, opts.v3, c.entries, c.cd, s.eocd, c.count).Some?
  }

  /** A run completes: its input has what it needs, and its threads end. */
  ghost predicate Completes(f: seq<byte>, opts: Opts, signer: Signer, env: Setting, s: Sections, rs: seq<seq<byte>>,
                            rewrote: bool, c: Content)
  {
    Signable(f, opts, signer, s, rs, rewrote, c) && ThreadsFinish(f, s, rs, opts, signer, rewrote, c, env)
  }

  // --- One input, one content --------------------------------------------------------------------------

  lemma SameRewrite(f: seq<byte>, s: Sections, rs: seq<seq<byte>>, libPageSize: nat, c: Content, c': Content)
    requires IsRewritten(f, s, rs, libPageSize, c) && IsRewritten(f, s, rs, libPageSize, c')
    ensures c == c'
  {
    hide PlanFrom, Render, NewRecords, ItemsOf, IsRecord, Concat, FileOrder, InOrder, AllInside, ItemsOk;
    var items := ItemsOf(rs, libPageSize);
    var o, x :| Rewrote(f, s.entriesEnd, rs, libPageSize, o, x) && Inside(f, x)
      && LaidContent(f, rs, libPageSize, x, c);
    var o', x' :| Rewrote(f, s.entriesEnd, rs, libPageSize, o', x') && Inside(f, x')
      && LaidContent(f, rs, libPageSize, x', c');
    SameOrder(items, o, o');
  }

  /** Records, path and content are determined by the input and the options. */
  lemma SameContent(f: seq<byte>, s: Sections, opts: Opts, rs: seq<seq<byte>>, rewrote: bool, c: Content,
                    rs': seq<seq<byte>>, rewrote': bool, c': Content)
    requires Settled(f, s, rs, opts, rewrote, c) && Settled(f, s, rs', opts, rewrote', c')
    ensures rs == rs' && rewrote == rewrote' && c == c'
  {
    hide SectionsOk, Rewrites, IsRewritten, IsRecord, Concat, Kept;
    RecordsUnique(rs, rs');
    if rewrote {
      SameRewrite(f, s, rs, opts.libPageSize, c, c');
    }
  }

  lemma EocdIsLong(s: Sections, f: seq<byte>)
    requires SectionsOk(s, f)
    ensures |s.eocd| >= EOCD_MIN_LEN && s.entriesEnd <= |f|
  {
  }

  // --- The steps -----------------------------------------------------------------------------------------

  /** The alignment decision of `sign_one`, with the digest of the fast path where one was made: none
      means rewrite. The inspector rides along with the digest, so the full check comes after it. */
  method Decide(f: seq<byte>, s: Sections, kept: seq<seq<byte>>, opts: Opts, env: Setting)
    returns (r: Result<Option<seq<byte>>, SignError>)
    requires env.guess.Valid() && SectionsOk(s, f) && AllRecords(kept)
    ensures r.Ok? <==> CanDecide(f, s, kept, opts) && (NeedsGuess(f, s, kept, opts) ==> GuessFinishes(f, s, kept, env))
    ensures r.Ok? ==> (r.value.None? <==> Rewrites(f, s, kept, opts))
    ensures |s.eocd| >= EOCD_MIN_LEN && s.entriesEnd <= |f|
    ensures r.Ok? && r.value.Some? ==>
      r.value.value == ContentDigest(env.guess, Covered(f[..s.entriesEnd], Concat(kept), s.eocd, |kept|))
  {
    hide QuickYes, QuickFails, FineUpTo, Sound, SomeBad, ItemOf, ContentDigest, Covered, LayoutFinishes, FileOrder,
      DistinctOffsets;
    EocdIsLong(s, f);
    if opts.mode == Always {
      return Ok(None);
    }
    var items := ItemsOf(kept, opts.libPageSize);
    var order: seq<nat> := [];
    if opts.mode == Check {
      var o := MakeFileOrder(items, s.entriesEnd);
      if o.Err? { return Err(Unordered(o.error)); }
      order := o.value;
      var quick := QuickMisaligned(f, items, s.entriesEnd, SAMPLE);
      QuickSays(f, s.entriesEnd, items);
      if quick.Err? { return Err(Quick(quick.error)); }
      if quick.value { return Ok(None); }
    }
    var digest, delivered, eocd, pad, start :=
      DigestLayout(env.guess, f, s.entriesEnd, Concat(kept), s.eocd, |kept|, env.sha, env.threads, env.digest);
    if digest.None? { return Err(Running); }
    if opts.mode == Check {
      var bad := FullCheck(f, s.entriesEnd, Zeros(pad), items, order, delivered);
      if bad.Err? { return Err(Checking(bad.error)); }
      if bad.value { return Ok(None); }
    }
    r := Ok(digest);
  }

  lemma QuickSays(f: seq<byte>, end: nat, items: seq<Item>)
    requires end <= |f|
    ensures QuickYes(f, end, items, SAMPLE) ==> SomeBad(f, end, items)
    ensures QuickFails(f, end, items, SAMPLE) ==> !Sound(f, end, items) && !QuickYes(f, end, items, SAMPLE)
    ensures FineUpTo(f, end, items, SAMPLE, |items|) ==> !QuickYes(f, end, items, SAMPLE)
  {
    hide QuickYes, QuickFails, FineUpTo, SomeBad, NoOverrun;
    QuickIsBad(f, end, items, SAMPLE);
    QuickOnce(f, end, items, SAMPLE);
  }

  /** A rewrite and the digest of what it wrote. */
  method RewritePath(f: seq<byte>, s: Sections, recs: seq<seq<byte>>, opts: Opts, signer: Signer, env: Setting)
    returns (r: Result<(File, seq<byte>, Content, seq<byte>), SignError>)
    requires signer.alg.Valid() && SectionsOk(s, f) && AllRecords(recs)
    ensures |s.eocd| >= EOCD_MIN_LEN
    ensures r.Ok? <==> exists c ::
      && IsRewritten(f, s, recs, opts.libPageSize, c)
      && Rewrite.RunsWell(signer.alg, c.entries, env.threads, [], env.rewrite)
    ensures r.Ok? ==>
      var (dest, cd, c, digest) := r.value;
      && fresh(dest) && dest.bytes == c.entries && cd == c.cd
      && IsRewritten(f, s, recs, opts.libPageSize, c)
      && Rewrite.RunsWell(signer.alg, c.entries, env.threads, [], env.rewrite)
      && digest == ContentDigest(signer.alg, Covered(c.entries, c.cd, s.eocd, c.count))
  {
    hide ContentDigest, Chunks, Covered, NewEocd, SectionsOk, Render, NewRecords, Concat, ItemsOf, PlanFrom,
      Rewrite.RunsWell, AllInside, DistinctOffsets, ItemsOk, FileOrder, InOrder;
    EocdIsLong(s, f);
    var rw, order, segs :=
      Rewrite.RewriteEntries(signer.alg, f, s.entriesEnd, recs, opts.libPageSize, env.threads, [], env.rewrite, false);
    if rw.Err? {
      return Err(Rewriting(rw.error));
    }
    ghost var entries := Render(f, segs);
    var digest, eocd, pad, blockStart := FinishRewrittenDigest(signer.alg, rw.value, s.eocd, entries);
    var dest := new File(rw.value.file);
    var c := Content(rw.value.file, rw.value.cd, rw.value.entries);
    assert IsRewritten(f, s, recs, opts.libPageSize, c);
    r := Ok((dest, rw.value.cd, c, digest));
  }

  /** The fast path's digest is redone when the guess was wrong. */
  method Redigest(f: seq<byte>, s: Sections, c: Content, first: seq<byte>, signer: Signer, env: Setting)
    returns (digest: Option<seq<byte>>)
    requires signer.alg.Valid() && (env.guess.isSha256 == signer.alg.isSha256 ==> env.guess == signer.alg)
    requires SectionsOk(s, f) && c.entries == f[..s.entriesEnd] && |s.eocd| >= EOCD_MIN_LEN
    requires first == ContentDigest(env.guess, Covered(c.entries, c.cd, s.eocd, c.count))
    ensures digest.Some? <==> (env.guess.isSha256 != signer.alg.isSha256 ==>
      LayoutFinishes(signer.alg, env.sha, c.entries, c.cd, s.eocd, c.count, env.threads, env.again))
    ensures digest.Some? ==> digest.value == ContentDigest(signer.alg, Covered(c.entries, c.cd, s.eocd, c.count))
  {
    hide ContentDigest, Covered, LayoutFinishes;
    digest := Some(first);
    if env.guess.isSha256 != signer.alg.isSha256 {
      var delivered, eocd, pad, start;
      digest, delivered, eocd, pad, start :=
        DigestLayout(signer.alg, f, s.entriesEnd, c.cd, s.eocd, c.count, env.sha, env.threads, env.again);
    }
  }

  /** Blocks, the 4 GiB guard and the write: what the three paths share. `dest` is the file the entries
      are already in; none means the input is overwritten in place. */
  method Finish(file: File, dest: Option<File>, truncate: bool, cd: Part, c: Content, template: seq<byte>,
                digest: seq<byte>, opts: Opts, signer: Signer)
    returns (r: Result<seq<byte>, SignError>)
    requires |template| >= EOCD_MIN_LEN && cd.Fits(file.bytes) && c.cd == cd.View(file.bytes)
    requires digest == ContentDigest(signer.alg, Covered(c.entries, c.cd, template, c.count))
    requires dest.Some? ==> dest.value != file && dest.value.bytes == c.entries
    requires dest.None? ==> |c.entries| <= |file.bytes| && c.entries == file.bytes[..|c.entries|]
    modifies file, if dest.Some? then {dest.value} else {}
    ensures var want := SignedFile(signer, opts.v2, opts.v3, c.entries, c.cd, template, c.count);
      (r.Ok? <==> want.Some?) && (r.Ok? ==> Some(r.value) == want)
    ensures file.bytes == if r.Ok? && dest.None? then r.value else old(file.bytes)
  {
    hide ContentDigest, Covered, BlockBytes, SignedFile, Signer.Pairs, SetCdOffset, NewEocd, Zeros;
    SignedFileIs(signer, opts.v2, opts.v3, c.entries, c.cd, template, c.count, signer.Pairs(digest, opts.v2, opts.v3));
    var entriesEnd := |c.entries|;
    var cdLen := |cd.View(file.bytes)|;
    var eocd, _, pad, blockStart := Layout(entriesEnd, cdLen, template, c.count);
    var block := MakeBlock(signer, digest, opts.v2, opts.v3);
    if block.None? {
      return Err(Signing);
    }
    var newCdOff := blockStart + |block.value|;
    if newCdOff > U32_MAX {
      return Err(TooBig);
    }
    eocd := SetCdOffset(eocd, newCdOff);
    var paddedBlock := Zeros(pad) + block.value;
    match dest
    case Some(d) =>
      WriteOut(d, file.bytes, entriesEnd, paddedBlock, cd, eocd, truncate);
      r := Ok(d.bytes);
    case None =>
      WriteInPlace(file, entriesEnd, paddedBlock, cd, eocd);
      r := Ok(file.bytes);
  }

  /** The two rewriting paths, after the decision. */
  method SignRewritten(file: File, s: Sections, recs: seq<seq<byte>>, opts: Opts, signer: Signer, env: Setting)
    returns (r: Result<seq<byte>, SignError>, ghost c: Content)
    requires signer.alg.Valid() && SectionsOk(s, file.bytes) && AllRecords(recs)
    modifies file
    ensures file.bytes == old(file.bytes) && |s.eocd| >= EOCD_MIN_LEN
    ensures r.Ok? <==> exists x ::
      IsRewritten(file.bytes, s, recs, opts.libPageSize, x) && Writes(s, opts, signer, env, x)
    ensures r.Ok? ==>
      && IsRewritten(file.bytes, s, recs, opts.libPageSize, c) && Writes(s, opts, signer, env, c)
      && Some(r.value) == SignedFile(signer, opts.v2, opts.v3, c.entries, c.cd, s.eocd, c.count)
  {
    hide SignedFile, ContentDigest, Covered, IsRewritten, Rewrite.RunsWell;
    c := Content([], [], 0);
    var rw := RewritePath(file.bytes, s, recs, opts, signer, env);
    if rw.Err? { return Err(rw.error), c; }
    var (dest, cd, content, digest) := rw.value;
    c := content;
    OnlyRewrite(file.bytes, s, recs, opts.libPageSize, c);
    r := Finish(file, Some(dest), true, Owned(cd), content, s.eocd, digest, opts, signer);
  }

  /** The pipeline ends well and the result can be signed. */
  ghost predicate Writes(s: Sections, opts: Opts, signer: Signer, env: Setting, c: Content)
    requires |s.eocd| >= EOCD_MIN_LEN
  {
    && Rewrite.RunsWell(signer.alg, c.entries, env.threads, [], env.rewrite)
    && SignedFile(signer, opts.v2, opts.v3, c.entries, c.cd, s.eocd, c.count).Some?
  }

  lemma OnlyRewrite(f: seq<byte>, s: Sections, rs: seq<seq<byte>>, libPageSize: nat, c: Content)
    requires IsRewritten(f, s, rs, libPageSize, c)
    ensures forall x :: IsRewritten(f, s, rs, libPageSize, x) ==> x == c
  {
    hide IsRewritten;
    forall x | IsRewritten(f, s, rs, libPageSize, x) ensures x == c {
      SameRewrite(f, s, rs, libPageSize, x, c);
    }
  }

  /** The fast path, after the decision. */
  method SignFast(file: File, s: Sections, cd: Part, c: Content, first: seq<byte>, inPlace: bool, opts: Opts,
                  signer: Signer, env: Setting)
    returns (r: Result<seq<byte>, SignError>)
    requires signer.alg.Valid() && (env.guess.isSha256 == signer.alg.isSha256 ==> env.guess == signer.alg)
    requires SectionsOk(s, file.bytes) && c.entries == file.bytes[..s.entriesEnd] && |s.eocd| >= EOCD_MIN_LEN
    requires cd.Fits(file.bytes) && c.cd == cd.View(file.bytes)
    requires first == ContentDigest(env.guess, Covered(c.entries, c.cd, s.eocd, c.count))
    modifies file
    ensures var want := SignedFile(signer, opts.v2, opts.v3, c.entries, c.cd, s.eocd, c.count);
      && (r.Ok? <==> want.Some? && (env.guess.isSha256 != signer.alg.isSha256 ==>
            LayoutFinishes(signer.alg, env.sha, c.entries, c.cd, s.eocd, c.count, env.threads, env.again)))
      && (r.Ok? ==> Some(r.value) == want)
    ensures file.bytes == if r.Ok? && inPlace then r.value else old(file.bytes)
  {
    hide SignedFile, ContentDigest, Covered, LayoutFinishes;
    var digest := Redigest(file.bytes, s, c, first, signer, env);
    if digest.None? { return Err(Running); }
    if inPlace {
      r := Finish(file, None, false, cd, c, s.eocd, digest.value, opts, signer);
    } else {
      var head := new File(file.bytes[..s.entriesEnd]);
      r := Finish(file, Some(head), false, cd, c, s.eocd, digest.value, opts, signer);
    }
  }

  /** Sign one APK. Whatever the mode, the guessed algorithm, the interleavings and the place the output
      goes: it succeeds exactly when the input has what a run needs and the threads end, the result is
      the signed file of the content the mode asks for, and a failure leaves the input as it was. `s`,
      `rs`, `rewrote` and `c` name what the run found and settled on. */
  method SignOne(file: File, inPlace: bool, opts: Opts, signer: Signer, env: Setting)
    returns (r: Result<seq<byte>, SignError>, ghost s: Sections, ghost rs: seq<seq<byte>>, ghost rewrote: bool,
             ghost c: Content)
    requires env.guess.Valid() && signer.alg.Valid()
      && (env.guess.isSha256 == signer.alg.isSha256 ==> env.guess == signer.alg)
    modifies file
    ensures r.Ok? <==> exists s', rs', rewrote', c' ::
      Completes(old(file.bytes), opts, signer, env, s', rs', rewrote', c')
    ensures r.Ok? ==>
      && Completes(old(file.bytes), opts, signer, env, s, rs, rewrote, c)
      && Some(r.value) == SignedFile(signer, opts.v2, opts.v3, c.entries, c.cd, s.eocd, c.count)
    ensures file.bytes == if r.Ok? && inPlace && !rewrote then r.value else old(file.bytes)
  {
    hide SignedFile, ContentDigest, Covered, IsRecord, EntriesOf, Concat, Kept, Records, RecordName, Parse, CheckEocd,
      ItemOf, IsRewritten, SomeBad, Decidable, QuickYes, LayoutFinishes, Rewrite.RunsWell, SectionsOk, CanDecide,
      NeedsGuess, GuessFinishes, Rewrites;
    var f := file.bytes;
    s, rs, rewrote, c := Sections(0, 0, None, 0, 0, 0, []), [], false, Content([], [], 0);
    var parsed := ParseFile(f);
    if parsed.Err? { return Err(Parsing(parsed.error)), s, rs, rewrote, c; }
    var sections := parsed.value;
    s := sections;
    EocdIsLong(sections, f);
    CdInside(sections, f);
    var cdFull := f[sections.cdOff..sections.cdOff + sections.cdSize];
    var filtered;
    filtered, rs := FilterCd(cdFull);
    if filtered.Err? { return Err(Parsing(filtered.error)), s, rs, rewrote, c; }
    ghost var found := rs;
    OnlyRecords(cdFull, rs);
    RecordsOf(filtered.value.bytes, Kept(rs));
    var kept := Records(filtered.value.bytes, filtered.value.kept);
    var decision := Decide(f, sections, kept, opts, env);
    if decision.Err? { return Err(decision.error), s, rs, rewrote, c; }
    if decision.value.None? {
      rewrote := true;
      var all, rs' := ParseCdEntries(cdFull);
      assert all == Ok(EntriesOf(rs, 0));  // the directory has been parsed before
      RecordsOf(cdFull, rs);
      r, c := SignRewritten(file, sections, Records(cdFull, all.value), opts, signer, env);
    } else {
      var cd := if filtered.value.borrowed then Mapped(sections.cdOff, sections.cdSize)
        else Owned(filtered.value.bytes);
      var content := Content(f[..sections.entriesEnd], filtered.value.bytes, |filtered.value.kept|);
      c := content;
      r := SignFast(file, sections, cd, content, decision.value.value, inPlace, opts, signer, env);
    }
    if r.Ok? {
      assert Completes(f, opts, signer, env, s, rs, rewrote, c);
    }
  }

  lemma CdInside(s: Sections, f: seq<byte>)
    requires SectionsOk(s, f)
    ensures s.cdOff <= s.cdOff + s.cdSize <= |f|
  {
  }

  lemma OnlyRecords(cd: seq<byte>, rs: seq<seq<byte>>)
    requires AllRecords(rs) && Concat(rs) == cd
    ensures forall x :: AllRecords(x) && Concat(x) == cd ==> x == rs
  {
    forall x | AllRecords(x) && Concat(x) == cd ensures x == rs {
      RecordsUnique(x, rs);
    }
  }

  /** What each mode signs: Off the entries as they are, Always the rewritten ones, Check the rewritten
      ones when the data of some kept entry is off the alignment it needs. Entries that are not rewritten
      come with the kept records of the directory as they are. */
  lemma ModesAre(f: seq<byte>, s: Sections, rs: seq<seq<byte>>, opts: Opts, rewrote: bool, c: Content)
    requires Settled(f, s, rs, opts, rewrote, c)
    ensures opts.mode == Off ==> !rewrote
    ensures opts.mode == Always ==> rewrote
    ensures opts.mode == Check ==> (rewrote <==> exists i ::
      0 <= i < |Kept(rs)| && Entries.OffAlignment(f, s.entriesEnd, Kept(rs)[i], opts.libPageSize))
    ensures !rewrote ==> c.entries == f[..s.entriesEnd] && c.cd == Concat(Kept(rs)) && c.count == |Kept(rs)|
  {
    hide Kept, IsRewritten, ItemOf, ProvenBad, Entries.OffAlignment, IsRecord;
    var (kept, end) := (Kept(rs), s.entriesEnd);
    var items := ItemsOf(kept, opts.libPageSize);
    forall i | 0 <= i < |kept|
      ensures ProvenBad(f, end, items[i]) <==> Entries.OffAlignment(f, end, kept[i], opts.libPageSize)
    {
      Entries.ProvenBadIs(f, end, kept[i], opts.libPageSize);
    }
  }
}
