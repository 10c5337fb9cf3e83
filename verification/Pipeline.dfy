/** The producer/writer pipeline of `rewrite` (src/align.rs) as a step machine: producers claim
    chunks from a shared counter, assemble and hash them into recycled buffers, and one writer puts
    them in the file and hands the buffers back. */
module Pipeline {
  import opened Wrappers
  import opened Bytes
  import opened Hashing
  import opened Digest
  import opened Assembly
  import opened Files
  import DW = DigestWorkers
  import Sigblock

  const MAX_PRODUCERS: nat := 6

  // --- State ---------------------------------------------------------------------------------------

  /** A buffer: which one it is, and its current bytes. */
  datatype Buf = Buf(id: nat, data: seq<byte>)

  /** `owner` stands for the job's clone of its producer's return channel. */
  datatype Job = Job(off: nat, len: nat, buf: Buf, owner: nat)

  /** Where a producer stands: about to claim, holding claim k without a buffer (`spare.take()` or
      a blocking `recv`), assembling, about to send, returned, or returned with an error (`lost`
      is the claim whose assembly failed). */
  datatype PC =
    | Claim | Take(k: nat) | Build(k: nat, buf: Buf) | Send(k: nat, len: nat, buf: Buf)
    | Returned | Failed(lost: Option<nat>)

  datatype Producer = Producer(pc: PC, spare: Option<Buf>, back: seq<Buf>, acc: seq<(nat, seq<byte>)>) {
    predicate Live() { !pc.Returned? && !pc.Failed? }
  }

  datatype Writer = Idle | Writing(job: Job) | Returning(job: Job) | Stopped

  datatype State = State(next: nat, producers: seq<Producer>, queue: seq<Job>, writer: Writer, writeFailed: bool,
                         file: seq<byte>)

  /** `out` is the sequential output: what the plan says the file must hold. */
  datatype Config = Config(alg: Algorithm, out: seq<byte>) {
    function Chunker(): (r: Chunker) {
      Assembly.Chunker([], |out|, |out| + Sigblock.PaddingBeforeBlock(|out|))
    }

    function Count(): (r: nat) { ChunkCount(|out| + Sigblock.PaddingBeforeBlock(|out|)) }

    /** The real bytes of chunk k, and its zero tail. */
    function Chunk(k: nat): (r: (seq<byte>, seq<byte>))
      requires k < Count()
    {
      PaddingStaysInChunk(|out|, k);
      (out[k * CHUNK..Chunker().RealEnd(k)], Zeros(Chunker().ZeroTail(k)))
    }

    /** The same chunks as a digest job. */
    function Digests(): (r: DW.Config) {
      DW.Config(alg, false, seq(Count(), k requires 0 <= k < Count() => Chunk(k)))
    }
  }

  /** The writer takes a thread, no producer is without a chunk, and six are enough. */
  predicate Employable(threads: nat, chunks: nat, t: nat) {
    1 <= t < threads && t <= chunks && t <= 6
  }

  /** The producer count: as many as that allows, and at least one. */
  function ProducerCount(threads: nat, chunks: nat): (r: nat)
    ensures r == 1 || Employable(threads, chunks, r)
    ensures forall t: nat :: Employable(threads, chunks, t) ==> t <= r
  {
    var wanted := if SatSub(threads, 1) < 1 then 1 else Min(SatSub(threads, 1), MAX_PRODUCERS);
    Min(wanted, if chunks < 1 then 1 else chunks)
  }

  /** Both buffers zeroed: one in `spare`, one waiting in the producer's own channel. */
  function NewProducer(p: nat): (r: Producer) {
    Producer(Claim, Some(Buf(2 * p, Zeros(CHUNK))), [Buf(2 * p + 1, Zeros(CHUNK))], [])
  }

  /** `set_len` has given the file its size; whatever it held before is still there. */
  function Start(cfg: Config, n: nat, file: seq<byte>): (r: State) {
    State(0, seq(n, p requires 0 <= p => NewProducer(p)), [], Idle, false, SetLen(file, |cfg.out|))
  }

  // --- Steps ---------------------------------------------------------------------------------------

  /** A scheduler's choice: a producer moves (`ok`: its reads succeed), or the writer (`ok`: its
      write succeeds; a failed write may have put `part` bytes in the file). */
  datatype Choice = Produce(p: nat, ok: bool) | Write(ok: bool, part: nat)

  /** One step of producer `id`; returns its new state, the new counter and the jobs it sent. The
      `Build` step is what `AssembleAndHash` promises. */
  function ProducerStep(cfg: Config, pr: Producer, id: nat, next: nat, writerGone: bool, ok: bool)
    : (r: (Producer, nat, seq<Job>)) {
    match pr.pc
    case Claim =>
      if next < cfg.Count() then (pr.(pc := Take(next)), next + 1, []) else (pr.(pc := Returned), next + 1, [])
    case Take(k) =>
      if pr.spare.Some? then (pr.(pc := Build(k, pr.spare.value), spare := None), next, [])
      else if pr.back != [] then (pr.(pc := Build(k, pr.back[0]), back := pr.back[1..]), next, [])
      else (pr, next, [])
    case Build(k, buf) =>
      if !ok then (pr.(pc := Failed(Some(k))), next, [])
      else if k >= cfg.Count() then (pr, next, [])
      else
        var (bytes, zeros) := cfg.Chunk(k);
        var acc := pr.acc + [(k, ChunkDigest(cfg.alg, bytes + zeros))];
        if |bytes| > 0 then
          var data := bytes + (if |bytes| <= |buf.data| then buf.data[|bytes|..] else []);
          (pr.(pc := Send(k, |bytes|, Buf(buf.id, data)), acc := acc), next, [])
        else (pr.(pc := Claim, spare := Some(buf), acc := acc), next, [])
    case Send(k, len, buf) =>
      if writerGone then (pr.(pc := Failed(None)), next, [])
      else (pr.(pc := Claim), next, [Job(k * CHUNK, len, buf, id)])
    case Returned => (pr, next, [])
    case Failed(_) => (pr, next, [])
  }

  predicate AllFinished(s: State) {
    forall p :: 0 <= p < |s.producers| ==> !s.producers[p].Live()
  }

  /** A finished producer has dropped its receiver: what is sent there is lost. */
  function GiveBack(ps: seq<Producer>, job: Job): (r: seq<Producer>) {
    if job.owner < |ps| && ps[job.owner].Live() then
      ps[job.owner := ps[job.owner].(back := ps[job.owner].back + [job.buf])]
    else ps
  }

  /** The writer: next job; write unless a write has failed; hand the buffer back. It ends only when
      the queue is empty and every sender is gone. */
  function WriterStep(s: State, ok: bool, part: nat): (r: State) {
    match s.writer
    case Idle =>
      if s.queue != [] then s.(writer := Writing(s.queue[0]), queue := s.queue[1..])
      else s.(writer := Stopped)
    case Writing(job) =>
      var data := job.buf.data[..Min(job.len, |job.buf.data|)];
      if s.writeFailed then s.(writer := Returning(job))
      else if ok then s.(writer := Returning(job), file := WriteAt(s.file, job.off, data))
      else
        var file := WriteAt(s.file, job.off, data[..Min(part, |data|)]);
        s.(writer := Returning(job), file := file, writeFailed := true)
    case Returning(job) => s.(writer := Idle, producers := GiveBack(s.producers, job))
    case Stopped => s
  }

  predicate Enabled(s: State, c: Choice) {
    match c
    case Produce(p, _) =>
      p < |s.producers| && s.producers[p].Live()
      && (s.producers[p].pc.Take? ==> s.producers[p].spare.Some? || s.producers[p].back != [])
    case Write(_, _) =>
      !s.writer.Stopped? && (s.writer.Idle? ==> s.queue != [] || AllFinished(s))
  }

  function Step(cfg: Config, s: State, c: Choice): (r: State) {
    if !Enabled(s, c) then s
    else match c
      case Produce(p, ok) =>
        var (pr, next, jobs) := ProducerStep(cfg, s.producers[p], p, s.next, s.writer.Stopped?, ok);
        s.(next := next, producers := s.producers[p := pr], queue := s.queue + jobs)
      case Write(ok, part) => WriterStep(s, ok, part)
  }

  function Run(cfg: Config, s: State, schedule: seq<Choice>): (r: State)
    decreases |schedule|
  {
    if schedule == [] then s else Step(cfg, Run(cfg, s, schedule[..|schedule| - 1]), schedule[|schedule| - 1])
  }

  // --- Invariant: bytes --------------------------------------------------------------------------------

  /** The job's first `len` bytes are the output's bytes at `off`, whatever else its buffer holds. */
  ghost predicate Carries(cfg: Config, off: nat, len: nat, buf: Buf) {
    off + len <= |cfg.out| && len <= |buf.data| == CHUNK && buf.data[..len] == cfg.out[off..off + len]
  }

  ghost predicate JobOk(cfg: Config, n: nat, j: Job) {
    j.owner < n && Carries(cfg, j.off, j.len, j.buf)
    && exists k {:trigger cfg.Chunk(k)} :: 0 <= k < cfg.Count() && j.off == k * CHUNK && j.len == |cfg.Chunk(k).0|
  }

  ghost predicate BufsOk(bufs: seq<Buf>) {
    forall i :: 0 <= i < |bufs| ==> |bufs[i].data| == CHUNK
  }

  ghost predicate ProducerOk(cfg: Config, pr: Producer, next: nat) {
    && DW.OutOk(cfg.Digests(), pr.acc)
    && (pr.spare.Some? ==> |pr.spare.value.data| == CHUNK) && BufsOk(pr.back)
    && match pr.pc
       case Claim => true
       case Take(k) => k < cfg.Count()
       case Build(k, buf) => k < cfg.Count() && |buf.data| == CHUNK
       case Send(k, len, buf) => k < cfg.Count() && len == |cfg.Chunk(k).0| && Carries(cfg, k * CHUNK, len, buf)
       case Returned => next >= cfg.Count()
       case Failed(_) => true
  }

  // --- Invariant: buffers ------------------------------------------------------------------------------

  function Ids(bufs: seq<Buf>): (r: multiset<nat>) {
    if bufs == [] then multiset{} else multiset{bufs[0].id} + Ids(bufs[1..])
  }

  /** The buffers a producer has itself: in `spare`, in its channel, or in hand. */
  function Held(pr: Producer): (r: multiset<nat>) {
    (if pr.spare.Some? then multiset{pr.spare.value.id} else multiset{})
    + Ids(pr.back)
    + (match pr.pc
       case Build(_, buf) => multiset{buf.id}
       case Send(_, _, buf) => multiset{buf.id}
       case _ => multiset{})
  }

  /** Those of its buffers on their way to the writer. */
  function Queued(queue: seq<Job>, p: nat): (r: multiset<nat>) {
    if queue == [] then multiset{}
    else (if queue[0].owner == p then multiset{queue[0].buf.id} else multiset{}) + Queued(queue[1..], p)
  }

  /** Those of its buffers at the writer. */
  function AtWriter(w: Writer, p: nat): (r: multiset<nat>) {
    match w
    case Writing(job) => if job.owner == p then multiset{job.buf.id} else multiset{}
    case Returning(job) => if job.owner == p then multiset{job.buf.id} else multiset{}
    case _ => multiset{}
  }

  /** A running producer's two buffers are all accounted for, each in one place. */
  ghost predicate Conserved(s: State, p: nat)
    requires p < |s.producers|
  {
    s.producers[p].Live() ==>
      Held(s.producers[p]) + Queued(s.queue, p) + AtWriter(s.writer, p) == multiset{2 * p, 2 * p + 1}
  }

  // --- Invariant: claims -------------------------------------------------------------------------------

  function Keys(pr: Producer): (r: multiset<nat>) {
    DW.OutKeys(pr.acc)
    + (match pr.pc
       case Take(k) => multiset{k}
       case Build(k, _) => multiset{k}
       case Failed(lost) => if lost.Some? then multiset{lost.value} else multiset{}
       case _ => multiset{})
  }

  function AllKeys(ps: seq<Producer>): (r: multiset<nat>) {
    if ps == [] then multiset{} else Keys(ps[0]) + AllKeys(ps[1..])
  }

  // --- Invariant: the file -----------------------------------------------------------------------------

  ghost predicate OnDisk(cfg: Config, file: seq<byte>, k: nat)
    requires k < cfg.Count()
  {
    var b := cfg.Chunk(k).0;
    k * CHUNK + |b| <= |file| && file[k * CHUNK..k * CHUNK + |b|] == b
  }

  /** The job that carries chunk k has been sent and not yet written. */
  ghost predicate Underway(queue: seq<Job>, w: Writer, k: nat) {
    || (exists i :: 0 <= i < |queue| && queue[i].off == k * CHUNK)
    || (w.Writing? && w.job.off == k * CHUNK)
  }

  /** A recorded chunk is about to be sent by the producer that recorded it, underway, or on disk. */
  ghost predicate Landed(cfg: Config, s: State, pr: Producer) {
    forall j :: 0 <= j < |pr.acc| ==> KeyLanded(cfg, s, pr, pr.acc[j].0)
  }

  ghost predicate KeyLanded(cfg: Config, s: State, pr: Producer, k: nat) {
    k < cfg.Count() && ((pr.pc.Send? && pr.pc.k == k) || Underway(s.queue, s.writer, k) || OnDisk(cfg, s.file, k))
  }

  ghost predicate JobsOk(cfg: Config, s: State) {
    && (forall i :: 0 <= i < |s.queue| ==> JobOk(cfg, |s.producers|, s.queue[i]))
    && (s.writer.Writing? || s.writer.Returning? ==> JobOk(cfg, |s.producers|, s.writer.job))
  }

  ghost predicate Inv(cfg: Config, s: State) {
    && (forall p :: 0 <= p < |s.producers| ==> ProducerOk(cfg, s.producers[p], s.next) && Conserved(s, p))
    && JobsOk(cfg, s)
    && AllKeys(s.producers) == DW.Upto(Min(s.next, cfg.Count()))
    && |s.file| == |cfg.out|
    && (!s.writeFailed ==> forall p :: 0 <= p < |s.producers| ==> Landed(cfg, s, s.producers[p]))
    && (s.writer.Stopped? ==> AllFinished(s) && s.queue == [])
  }

  // --- Small facts -------------------------------------------------------------------------------------

  lemma ChunkBytes(cfg: Config, k: nat)
    requires k < cfg.Count()
    ensures var b := cfg.Chunk(k).0;
      && 0 < |b| <= CHUNK && k * CHUNK + |b| <= |cfg.out| && b == cfg.out[k * CHUNK..k * CHUNK + |b|]
      && |cfg.Digests().chunks| == cfg.Count() && cfg.Digests().chunks[k] == cfg.Chunk(k)
      && cfg.Digests().alg == cfg.alg && cfg.Digests().Bytes(k) == b + cfg.Chunk(k).1
  {
    PaddingStaysInChunk(|cfg.out|, k);
  }

  lemma {:induction false} IdsSnoc(bufs: seq<Buf>, b: Buf)
    ensures Ids(bufs + [b]) == Ids(bufs) + multiset{b.id}
  {
    if bufs == [] {
      assert [b][1..] == [];
    } else {
      IdsSnoc(bufs[1..], b);
      assert (bufs + [b])[1..] == bufs[1..] + [b];
    }
  }

  lemma {:induction false} QueuedSnoc(queue: seq<Job>, j: Job, p: nat)
    ensures Queued(queue + [j], p) == Queued(queue, p) + (if j.owner == p then multiset{j.buf.id} else multiset{})
  {
    if queue == [] {
      assert [j][1..] == [];
    } else {
      QueuedSnoc(queue[1..], j, p);
      assert (queue + [j])[1..] == queue[1..] + [j];
    }
  }

  lemma {:induction false} AllKeysUpdate(ps: seq<Producer>, i: nat, pr: Producer)
    requires i < |ps|
    ensures AllKeys(ps[i := pr]) + Keys(ps[i]) == AllKeys(ps) + Keys(pr)
  {
    hide Keys;
    if i == 0 {
      assert ps[i := pr][1..] == ps[1..];
    } else {
      AllKeysUpdate(ps[1..], i - 1, pr);
      assert ps[i := pr][1..] == ps[1..][i - 1 := pr];
      var (o, rest, rest') := (Keys(ps[0]), AllKeys(ps[1..]), AllKeys(ps[1..][i - 1 := pr]));
      assert AllKeys(ps[i := pr]) == o + rest' && AllKeys(ps) == o + rest;
      assert (o + rest') + Keys(ps[i]) == o + (rest' + Keys(ps[i]));
    }
  }

  // --- A producer's step -------------------------------------------------------------------------------

  /** The machine's `Build` step is `assemble_and_hash` on the producer's recycled buffer: the same
      bytes, the same digest, the same failure. */
  method BuildTurn(cfg: Config, c: Chunker, ghost pr: Producer, id: nat, next: nat, k: nat, bid: nat,
                   input: seq<byte>, flaky: bool, buf: array<byte>, srcBuf: array<byte>)
    returns (r: Option<(nat, seq<byte>)>)
    requires buf != srcBuf && buf.Length == CHUNK && srcBuf.Length == SRC_WINDOW && |input| <= NO_OFFSET
    requires Tiled(input, c.plans, 0, cfg.out)
    requires c.newEnd == |cfg.out| && c.paddedEnd == c.newEnd + Sigblock.PaddingBeforeBlock(c.newEnd)
    requires k < cfg.Count() && pr.pc == Build(k, Buf(bid, buf[..]))
    modifies buf, srcBuf
    ensures !flaky ==> r.Some?
    ensures ProducerStep(cfg, pr, id, next, false, r.Some?) ==
      (if r.Some? then pr.(pc := Send(k, r.value.0, Buf(bid, buf[..])), acc := pr.acc + [(k, r.value.1)])
       else pr.(pc := Failed(Some(k))), next, [])
  {
    hide Tiled, ChunkDigest, Chunks, Sigblock.PaddingBeforeBlock;
    ghost var before := buf[..];
    r := AssembleAndHash(cfg.alg, c, k, input, flaky, buf, srcBuf, cfg.out);
    if r.Some? {
      ChunkBytes(cfg, k);
      PaddedChunk(cfg.out, k);
      assert buf[..] == cfg.Chunk(k).0 + before[r.value.0..];
    }
  }

  ghost predicate GoodStep(cfg: Config, pr: Producer, id: nat, next: nat, ok: bool) {
    var (pr', next', jobs) := ProducerStep(cfg, pr, id, next, false, ok);
    && next <= next' <= next + 1 && ProducerOk(cfg, pr', next')
    && (forall i :: 0 <= i < |jobs| ==> forall n :: n > id ==> JobOk(cfg, n, jobs[i]))
    && Keys(pr') == Keys(pr) + (if next' > next && next < cfg.Count() then multiset{next} else multiset{})
    && (pr'.Live() ==> Held(pr') + Queued(jobs, id) == Held(pr))
    && (forall p :: p != id ==> Queued(jobs, p) == multiset{})
    && |jobs| <= 1
    && (forall j :: 0 <= j < |pr'.acc| ==>
          || (pr'.pc.Send? && pr'.pc.k == pr'.acc[j].0)
          || (j < |pr.acc| && pr.acc[j] == pr'.acc[j]
              && (pr.pc.Send? && pr.pc.k == pr.acc[j].0 ==> jobs != [] && jobs[0].off == pr.acc[j].0 * CHUNK)))
  }

  lemma ClaimOk(cfg: Config, pr: Producer, id: nat, next: nat, ok: bool)
    requires ProducerOk(cfg, pr, next) && pr.pc.Claim?
    ensures GoodStep(cfg, pr, id, next, ok)
  {
    hide DW.OutOk, DW.OutKeys, Ids, Carries;
  }

  lemma TakeOk(cfg: Config, pr: Producer, id: nat, next: nat, ok: bool)
    requires ProducerOk(cfg, pr, next) && pr.pc.Take?
    ensures GoodStep(cfg, pr, id, next, ok)
  {
    TakesOne(pr.spare, pr.back);
    hide DW.OutOk, DW.OutKeys, Carries, Ids, Config.Chunk;
  }

  lemma TakesOne(spare: Option<Buf>, back: seq<Buf>)
    ensures spare.Some? ==>
      multiset{} + Ids(back) + multiset{spare.value.id} == multiset{spare.value.id} + Ids(back) + multiset{}
    ensures back != [] ==> multiset{} + Ids(back[1..]) + multiset{back[0].id} == multiset{} + Ids(back) + multiset{}
  {
  }

  lemma BuildOk(cfg: Config, pr: Producer, id: nat, next: nat, ok: bool)
    requires ProducerOk(cfg, pr, next) && pr.pc.Build?
    ensures GoodStep(cfg, pr, id, next, ok)
  {
    hide DW.OutOk, DW.OutKeys, Ids, ChunkDigest;
    var (k, buf) := (pr.pc.k, pr.pc.buf);
    ChunkBytes(cfg, k);
    var (bytes, zeros) := cfg.Chunk(k);
    DW.Recorded(cfg.Digests(), pr.acc, k, ChunkDigest(cfg.alg, bytes + zeros));
    assert (bytes + buf.data[|bytes|..])[..|bytes|] == bytes;
  }

  lemma SendOk(cfg: Config, pr: Producer, id: nat, next: nat, ok: bool)
    requires ProducerOk(cfg, pr, next) && pr.pc.Send?
    ensures GoodStep(cfg, pr, id, next, ok)
  {
    hide DW.OutOk, DW.OutKeys, Ids, Carries;
    var (k, len, buf) := (pr.pc.k, pr.pc.len, pr.pc.buf);
    var j := Job(k * CHUNK, len, buf, id);
    assert [j][1..] == [];
    assert k < cfg.Count() && j.off == k * CHUNK && j.len == |cfg.Chunk(k).0|;
    assert Queued([j], id) == multiset{buf.id};
    assert forall n :: n > id ==> JobOk(cfg, n, j);
    var pr' := pr.(pc := Claim);
    assert ProducerStep(cfg, pr, id, next, false, ok) == (pr', next, [j]);
    assert ProducerOk(cfg, pr', next);
    assert Keys(pr') == Keys(pr);
    assert Held(pr') + multiset{buf.id} == Held(pr);
    assert forall p :: p != id ==> Queued([j], p) == multiset{};
  }

  lemma ProducerStepOk(cfg: Config, pr: Producer, id: nat, next: nat, ok: bool)
    requires ProducerOk(cfg, pr, next) && pr.Live()
    ensures GoodStep(cfg, pr, id, next, ok)
  {
    match pr.pc
    case Claim => ClaimOk(cfg, pr, id, next, ok);
    case Take(_) => TakeOk(cfg, pr, id, next, ok);
    case Build(_, _) => BuildOk(cfg, pr, id, next, ok);
    case Send(_, _, _) => SendOk(cfg, pr, id, next, ok);
    case _ =>
  }

  // --- A producer's step in the system --------------------------------------------------------------

  lemma {:induction false} QueuedConcat(x: seq<Job>, y: seq<Job>, p: nat)
    ensures Queued(x + y, p) == Queued(x, p) + Queued(y, p)
  {
    if x == [] {
      assert x + y == y;
    } else {
      QueuedConcat(x[1..], y, p);
      assert (x + y)[1..] == x[1..] + y;
      DW.SumAssoc(if x[0].owner == p then multiset{x[0].buf.id} else multiset{}, Queued(x[1..], p), Queued(y, p));
    }
  }

  /** The moving producer is running, so the writer has not stopped. */
  ghost predicate Moving(cfg: Config, s: State, p: nat, ok: bool) {
    && Inv(cfg, s) && Enabled(s, Produce(p, ok)) && !s.writer.Stopped?
    && GoodStep(cfg, s.producers[p], p, s.next, ok)
  }

  lemma ProducersStayOk(cfg: Config, s: State, p: nat, ok: bool)
    requires Moving(cfg, s, p, ok)
    ensures var s' := Step(cfg, s, Produce(p, ok));
      forall q :: 0 <= q < |s'.producers| ==> ProducerOk(cfg, s'.producers[q], s'.next)
  {
    hide DW.OutOk, Carries, ProducerStep, Keys, Held, AllKeys, DW.Upto, ProducerOk, Queued, AtWriter, JobsOk, JobOk,
      Landed;
    var s' := Step(cfg, s, Produce(p, ok));
    forall q | 0 <= q < |s'.producers| ensures ProducerOk(cfg, s'.producers[q], s'.next) {
      if q != p { StillOk(cfg, s.producers[q], s.next, s'.next); }
    }
  }

  lemma StillOk(cfg: Config, pr: Producer, next: nat, next': nat)
    requires ProducerOk(cfg, pr, next) && next <= next'
    ensures ProducerOk(cfg, pr, next')
  {
    hide DW.OutOk, Carries, BufsOk;
  }

  lemma Regroup(h: multiset<nat>, h': multiset<nat>, x: multiset<nat>, y: multiset<nat>, w: multiset<nat>)
    ensures h' + y == h ==> h' + (x + y) + w == h + x + w
    ensures y == multiset{} ==> h + (x + y) + w == h + x + w
  {
  }

  lemma BuffersStay(cfg: Config, s: State, p: nat, ok: bool, q: nat)
    requires Moving(cfg, s, p, ok) && q < |s.producers|
    ensures var s' := Step(cfg, s, Produce(p, ok)); Conserved(s', q)
  {
    var s' := Step(cfg, s, Produce(p, ok));
    var (_, _, jobs) := ProducerStep(cfg, s.producers[p], p, s.next, false, ok);
    QueuedConcat(s.queue, jobs, q);
    assert Conserved(s, q);
    hide ProducerOk, ProducerStep, Keys, Held, Queued, AtWriter, AllKeys, DW.Upto, JobOk;
    Regroup(Held(s.producers[q]), Held(s'.producers[q]), Queued(s.queue, q), Queued(jobs, q), AtWriter(s.writer, q));
  }

  lemma JobsStayOk(cfg: Config, s: State, p: nat, ok: bool)
    requires Moving(cfg, s, p, ok)
    ensures JobsOk(cfg, Step(cfg, s, Produce(p, ok)))
  {
    hide ProducerOk, ProducerStep, Keys, Held, Queued, AtWriter, AllKeys, DW.Upto, JobOk;
  }

  lemma ClaimsStay(cfg: Config, s: State, p: nat, ok: bool)
    requires Moving(cfg, s, p, ok)
    ensures var s' := Step(cfg, s, Produce(p, ok)); AllKeys(s'.producers) == DW.Upto(Min(s'.next, cfg.Count()))
  {
    hide ProducerOk, ProducerStep, Keys, Held, Queued, AtWriter, AllKeys, DW.Upto, JobOk;
    var (pr, next, _) := ProducerStep(cfg, s.producers[p], p, s.next, false, ok);
    DW.UptoStep(s.next);
    AllKeysUpdate(s.producers, p, pr);
    DW.Cancel(AllKeys(s.producers[p := pr]), Keys(s.producers[p]), AllKeys(s.producers), Keys(pr),
              if next > s.next && s.next < cfg.Count() then multiset{s.next} else multiset{});
  }

  /** What was underway still is, once more jobs are queued. */
  lemma UnderwayMore(queue: seq<Job>, jobs: seq<Job>, w: Writer, k: nat)
    ensures Underway(queue, w, k) ==> Underway(queue + jobs, w, k)
    ensures jobs != [] && jobs[0].off == k * CHUNK ==> Underway(queue + jobs, w, k)
  {
    if exists i :: 0 <= i < |queue| && queue[i].off == k * CHUNK {
      var i :| 0 <= i < |queue| && queue[i].off == k * CHUNK;
      assert (queue + jobs)[i] == queue[i];
    }
    if jobs != [] {
      assert (queue + jobs)[|queue|] == jobs[0];
    }
  }

  lemma LandedStays(cfg: Config, s: State, p: nat, ok: bool, q: nat)
    requires Moving(cfg, s, p, ok) && q < |s.producers| && !s.writeFailed
    ensures var s' := Step(cfg, s, Produce(p, ok)); Landed(cfg, s', s'.producers[q])
  {
    hide ProducerStep, Keys, Held, Queued, AtWriter, AllKeys, DW.Upto, JobOk, Underway, OnDisk, Conserved;
    var s' := Step(cfg, s, Produce(p, ok));
    var pr' := s'.producers[q];
    var (_, _, jobs) := ProducerStep(cfg, s.producers[p], p, s.next, false, ok);
    assert Landed(cfg, s, s.producers[q]) && ProducerOk(cfg, s'.producers[p], s'.next);
    forall j | 0 <= j < |pr'.acc|
      ensures KeyLanded(cfg, s', pr', pr'.acc[j].0)
    {
      var k := pr'.acc[j].0;
      UnderwayMore(s.queue, jobs, s.writer, k);
      if j < |s.producers[q].acc| && s.producers[q].acc[j] == pr'.acc[j] {
        assert KeyLanded(cfg, s, s.producers[q], k);
      }
    }
  }

  lemma ProduceKeepsInv(cfg: Config, s: State, p: nat, ok: bool)
    requires Inv(cfg, s)
    ensures Inv(cfg, Step(cfg, s, Produce(p, ok)))
  {
    hide ProducerOk, ProducerStep, Landed, Conserved, AllKeys, DW.Upto, JobsOk, GoodStep;
    if Enabled(s, Produce(p, ok)) {
      assert !s.writer.Stopped?;
      ProducerStepOk(cfg, s.producers[p], p, s.next, ok);
      ProducersStayOk(cfg, s, p, ok);
      JobsStayOk(cfg, s, p, ok);
      ClaimsStay(cfg, s, p, ok);
      var s' := Step(cfg, s, Produce(p, ok));
      forall q | 0 <= q < |s'.producers|
        ensures Conserved(s', q) && (!s'.writeFailed ==> Landed(cfg, s', s'.producers[q])) {
        BuffersStay(cfg, s, p, ok, q);
        if !s.writeFailed { LandedStays(cfg, s, p, ok, q); }
      }
    }
  }

  // --- The writer's steps ------------------------------------------------------------------------------

  lemma WriterTakes(cfg: Config, s: State)
    requires Inv(cfg, s) && s.writer.Idle? && s.queue != []
    ensures Inv(cfg, WriterStep(s, true, 0))
  {
    hide ProducerOk, AllKeys, DW.Upto, JobOk, Held, OnDisk;
    var s' := WriterStep(s, true, 0);
    forall q | 0 <= q < |s.producers| ensures Conserved(s', q) {
      assert Conserved(s, q);
    }
    if !s.writeFailed {
      forall q | 0 <= q < |s.producers| ensures Landed(cfg, s', s'.producers[q]) {
        assert Landed(cfg, s, s.producers[q]);
        forall j | 0 <= j < |s.producers[q].acc| ensures KeyLanded(cfg, s', s.producers[q], s.producers[q].acc[j].0) {
          var k := s.producers[q].acc[j].0;
          assert KeyLanded(cfg, s, s.producers[q], k);
          UnderwayTake(s.queue, k);
        }
      }
    }
  }

  lemma UnderwayTake(queue: seq<Job>, k: nat)
    requires queue != []
    ensures Underway(queue, Idle, k) ==> Underway(queue[1..], Writing(queue[0]), k)
  {
    if exists i :: 0 <= i < |queue| && queue[i].off == k * CHUNK {
      var i :| 0 <= i < |queue| && queue[i].off == k * CHUNK;
      if i > 0 { assert queue[1..][i - 1] == queue[i]; }
    }
  }

  /** Writing the output's own bytes where they belong spoils no chunk already there, and puts this
      job's chunk on disk. */
  lemma RightBytes(out: seq<byte>, file: seq<byte>, file': seq<byte>, off: nat, len: nat, a: nat, b: nat)
    requires |file| == |out| && off + len <= |out| && a <= b <= |out|
    requires file' == file[..off] + out[off..off + len] + file[off + len..]
    ensures |file'| == |out|
    ensures file[a..b] == out[a..b] ==> file'[a..b] == out[a..b]
    ensures off == a && off + len == b ==> file'[a..b] == out[a..b]
  {
    if file[a..b] == out[a..b] {
      forall i | a <= i < b ensures file'[i] == out[i] {
        assert file[a..b][i - a] == out[a..b][i - a];
      }
    }
  }

  lemma JobIsChunk(cfg: Config, n: nat, j: Job, k: nat)
    requires JobOk(cfg, n, j) && k < cfg.Count()
    ensures j.off + j.len <= |cfg.out| && j.len <= |j.buf.data| && j.buf.data[..j.len] == cfg.out[j.off..j.off + j.len]
    ensures j.off == k * CHUNK ==> j.len == |cfg.Chunk(k).0|
  {
    var m :| 0 <= m < cfg.Count() && j.off == m * CHUNK && j.len == |cfg.Chunk(m).0|;
    hide Config.Chunk, Config.Count;
    assert j.off == k * CHUNK ==> m == k;
  }

  lemma ChunkWritten(cfg: Config, file: seq<byte>, file': seq<byte>, j: Job, n: nat, k: nat)
    requires |file| == |cfg.out| && JobOk(cfg, n, j) && k < cfg.Count()
    requires file' == WriteAt(file, j.off, j.buf.data[..j.len])
    ensures |file'| == |cfg.out|
    ensures OnDisk(cfg, file, k) || j.off == k * CHUNK ==> OnDisk(cfg, file', k)
  {
    ChunkBytes(cfg, k);
    JobIsChunk(cfg, n, j, k);
    hide JobOk, Config.Chunk;
    RightBytes(cfg.out, file, file', j.off, j.len, k * CHUNK, k * CHUNK + |cfg.Chunk(k).0|);
  }

  lemma FailedWriteKeepsLength(cfg: Config, file: seq<byte>, j: Job, n: nat, part: nat)
    requires |file| == |cfg.out| && JobOk(cfg, n, j)
    ensures var data := j.buf.data[..j.len]; |WriteAt(file, j.off, data[..Min(part, |data|)])| == |cfg.out|
  {
  }

  lemma WriterWrites(cfg: Config, s: State, ok: bool, part: nat)
    requires Inv(cfg, s) && s.writer.Writing?
    ensures Inv(cfg, WriterStep(s, ok, part))
  {
    hide ProducerOk, AllKeys, DW.Upto, Held, Queued, OnDisk, WriteAt;
    var (j, n) := (s.writer.job, |s.producers|);
    var s' := WriterStep(s, ok, part);
    assert JobOk(cfg, n, j);
    FailedWriteKeepsLength(cfg, s.file, j, n, part);
    if cfg.Count() > 0 && !s.writeFailed && ok { ChunkWritten(cfg, s.file, s'.file, j, n, 0); }
    hide JobOk;
    forall q | 0 <= q < n ensures Conserved(s', q) {
      assert Conserved(s, q);
    }
    if !s'.writeFailed {
      forall q | 0 <= q < n ensures Landed(cfg, s', s'.producers[q]) {
        assert Landed(cfg, s, s.producers[q]);
        forall i | 0 <= i < |s.producers[q].acc| ensures KeyLanded(cfg, s', s.producers[q], s.producers[q].acc[i].0) {
          var k := s.producers[q].acc[i].0;
          assert KeyLanded(cfg, s, s.producers[q], k);
          ChunkWritten(cfg, s.file, s'.file, j, n, k);
        }
      }
    }
  }

  lemma HeldBack(pr: Producer, b: Buf)
    ensures Held(pr.(back := pr.back + [b])) == Held(pr) + multiset{b.id}
  {
    IdsSnoc(pr.back, b);
    hide Ids;
  }

  lemma GiveBackAt(ps: seq<Producer>, j: Job, q: nat)
    requires q < |ps| && j.owner < |ps|
    ensures |GiveBack(ps, j)| == |ps|
    ensures GiveBack(ps, j)[q] == if q == j.owner && ps[q].Live() then ps[q].(back := ps[q].back + [j.buf]) else ps[q]
  {
  }

  /** The buffer moves from the writer to its owner's channel; nobody else sees a change. */
  lemma ReturnedBuffer(s: State, q: nat)
    requires s.writer.Returning? && q < |s.producers| && s.writer.job.owner < |s.producers| && Conserved(s, q)
    ensures Conserved(WriterStep(s, true, 0), q)
  {
    hide Held, Queued, AtWriter, GiveBack;
    var j := s.writer.job;
    GiveBackAt(s.producers, j, q);
    HeldBack(s.producers[q], j.buf);
    HandOver(Held(s.producers[q]), Queued(s.queue, q), j.buf.id);
    AtWriterEnds(j, q);
  }

  lemma AtWriterEnds(j: Job, q: nat)
    ensures AtWriter(Idle, q) == multiset{}
    ensures AtWriter(Returning(j), q) == if j.owner == q then multiset{j.buf.id} else multiset{}
  {
  }

  lemma HandOver(h: multiset<nat>, x: multiset<nat>, id: nat)
    ensures (h + multiset{id}) + x + multiset{} == h + x + multiset{id}
  {
  }

  lemma ReturnedTo(cfg: Config, s: State, q: nat)
    requires s.writer.Returning? && q < |s.producers|
    requires ProducerOk(cfg, s.producers[q], s.next) && JobOk(cfg, |s.producers|, s.writer.job)
    ensures var s' := WriterStep(s, true, 0);
      && ProducerOk(cfg, s'.producers[q], s'.next)
      && s'.producers[q].acc == s.producers[q].acc && s'.producers[q].pc == s.producers[q].pc
  {
    hide DW.OutOk;
  }

  lemma AllReturned(cfg: Config, s: State)
    requires Inv(cfg, s) && s.writer.Returning?
    ensures var s' := WriterStep(s, true, 0);
      forall q :: 0 <= q < |s'.producers| ==>
        Conserved(s', q) && ProducerOk(cfg, s'.producers[q], s'.next)
          && (!s.writeFailed ==> Landed(cfg, s', s'.producers[q]))
  {
    var s' := WriterStep(s, true, 0);
    assert s.writer.job.owner < |s.producers| by { assert JobOk(cfg, |s.producers|, s.writer.job); }
    hide AllKeys, DW.Upto, JobOk, ProducerOk, Conserved, Landed;
    forall q | 0 <= q < |s.producers|
      ensures Conserved(s', q) && ProducerOk(cfg, s'.producers[q], s'.next)
        && (!s.writeFailed ==> Landed(cfg, s', s'.producers[q]))
    {
      ReturnedTo(cfg, s, q);
      ReturnedBuffer(s, q);
      if !s.writeFailed { StillLanded(cfg, s, s', s.producers[q], s'.producers[q]); }
    }
  }

  lemma WriterReturns(cfg: Config, s: State)
    requires Inv(cfg, s) && s.writer.Returning?
    ensures Inv(cfg, WriterStep(s, true, 0))
  {
    hide AllKeys, DW.Upto, JobOk, ProducerOk, Conserved, Landed, GiveBack;
    GiveBackKeys(s.producers, s.writer.job);
    AllReturned(cfg, s);
  }

  /** A step that leaves file and queue alone and ends no write moves no chunk. */
  lemma StillLanded(cfg: Config, s: State, s': State, pr: Producer, pr': Producer)
    requires Landed(cfg, s, pr) && pr'.acc == pr.acc && pr'.pc == pr.pc
    requires s'.file == s.file && s'.queue == s.queue && !s.writer.Writing?
    ensures Landed(cfg, s', pr')
  {
    hide OnDisk;
    forall i | 0 <= i < |pr.acc| ensures KeyLanded(cfg, s', pr', pr.acc[i].0) {
      assert KeyLanded(cfg, s, pr, pr.acc[i].0);
    }
  }

  lemma GiveBackKeys(ps: seq<Producer>, j: Job)
    ensures AllKeys(GiveBack(ps, j)) == AllKeys(ps) && |GiveBack(ps, j)| == |ps|
  {
    if j.owner < |ps| && ps[j.owner].Live() {
      var pr := ps[j.owner].(back := ps[j.owner].back + [j.buf]);
      assert Keys(pr) == Keys(ps[j.owner]);
      AllKeysUpdate(ps, j.owner, pr);
      DW.Cancel(AllKeys(ps[j.owner := pr]), Keys(ps[j.owner]), AllKeys(ps), Keys(pr), multiset{});
    }
  }

  lemma WriterStops(cfg: Config, s: State)
    requires Inv(cfg, s) && s.writer.Idle? && s.queue == [] && AllFinished(s)
    ensures Inv(cfg, WriterStep(s, true, 0))
  {
    hide ProducerOk, AllKeys, DW.Upto, JobOk, Held, OnDisk, Queued;
    var s' := WriterStep(s, true, 0);
    forall q | 0 <= q < |s.producers|
      ensures Conserved(s', q) && (!s.writeFailed ==> Landed(cfg, s', s'.producers[q])) {
      assert Conserved(s, q);
      if !s.writeFailed { StillLanded(cfg, s, s', s.producers[q], s'.producers[q]); }
    }
  }

  lemma StepKeepsInv(cfg: Config, s: State, c: Choice)
    requires Inv(cfg, s)
    ensures Inv(cfg, Step(cfg, s, c))
  {
    hide Inv;
    match c
    case Produce(p, ok) => ProduceKeepsInv(cfg, s, p, ok);
    case Write(ok, part) =>
      if Enabled(s, c) {
        assert !s.writer.Writing? ==> WriterStep(s, ok, part) == WriterStep(s, true, 0);
        match s.writer
        case Idle => if s.queue != [] { WriterTakes(cfg, s); } else { WriterStops(cfg, s); }
        case Writing(_) => WriterWrites(cfg, s, ok, part);
        case Returning(_) => WriterReturns(cfg, s);
        case Stopped =>
      }
  }

  lemma HasBoth(p: nat)
    ensures Held(NewProducer(p)) + multiset{} + multiset{} == multiset{2 * p, 2 * p + 1}
  {
    var pr := NewProducer(p);
    assert pr.back[1..] == [];
    assert Ids(pr.back) == multiset{2 * p + 1};
  }

  lemma StartInv(cfg: Config, n: nat, file: seq<byte>)
    ensures Inv(cfg, Start(cfg, n, file))
  {
    var s := Start(cfg, n, file);
    NoKeys(s.producers);
    hide Held, AllKeys;
    forall p | 0 <= p < n ensures Conserved(s, p) {
      HasBoth(p);
    }
  }

  lemma {:induction false} NoKeys(ps: seq<Producer>)
    requires forall p :: 0 <= p < |ps| ==> ps[p].pc.Claim? && ps[p].acc == []
    ensures AllKeys(ps) == multiset{}
  {
    if ps != [] {
      NoKeys(ps[1..]);
    }
  }

  /** Whatever the scheduler, the disk and the input do, the invariant holds. */
  lemma {:induction false} RunKeepsInv(cfg: Config, n: nat, file: seq<byte>, schedule: seq<Choice>)
    ensures Inv(cfg, Run(cfg, Start(cfg, n, file), schedule))
    ensures |Run(cfg, Start(cfg, n, file), schedule).producers| == n
    decreases |schedule|
  {
    hide Inv;
    if schedule == [] {
      StartInv(cfg, n, file);
    } else {
      var init := schedule[..|schedule| - 1];
      RunKeepsInv(cfg, n, file, init);
      StepKeepsInv(cfg, Run(cfg, Start(cfg, n, file), init), schedule[|schedule| - 1]);
    }
  }

  // --- Claims ------------------------------------------------------------------------------------------

  /** Each chunk index is claimed at most once, and exactly once when the counter has passed it. */
  lemma ClaimedOnce(cfg: Config, n: nat, file: seq<byte>, schedule: seq<Choice>, k: nat)
    ensures var s := Run(cfg, Start(cfg, n, file), schedule);
      AllKeys(s.producers)[k] == if k < s.next && k < cfg.Count() then 1 else 0
  {
    RunKeepsInv(cfg, n, file, schedule);
    DW.UptoCount(Min(Run(cfg, Start(cfg, n, file), schedule).next, cfg.Count()), k);
  }

  // --- No deadlock -------------------------------------------------------------------------------------

  predicate Finished(s: State) { AllFinished(s) && s.writer.Stopped? }

  /** A producer that waits for a buffer has both of them on the way. */
  lemma Waiting(s: State, p: nat)
    requires p < |s.producers| && Conserved(s, p)
    ensures s.producers[p].pc.Take? && s.producers[p].spare.None? && s.producers[p].back == [] ==>
      s.queue != [] || s.writer.Writing? || s.writer.Returning?
  {
    assert 2 * p in multiset{2 * p, 2 * p + 1};
  }

  /** Until every thread has ended, some thread can move, read and write errors included: a producer
      waits for a buffer only while the queue or the writer has both of its own. */
  lemma NoDeadlock(cfg: Config, s: State)
    requires Inv(cfg, s) && !Finished(s)
    ensures Enabled(s, Write(true, 0)) || exists p :: Enabled(s, Produce(p, true))
  {
    hide ProducerOk, AllKeys, DW.Upto, JobsOk, Landed;
    if !Enabled(s, Write(true, 0)) {
      var p :| 0 <= p < |s.producers| && s.producers[p].Live();
      Waiting(s, p);
      assert Enabled(s, Produce(p, true));
    }
  }

  // --- Termination -------------------------------------------------------------------------------------

  function Rank(pc: PC): (r: nat) {
    match pc
    case Claim => 1
    case Take(_) => 9
    case Build(_, _) => 8
    case Send(_, _, _) => 7
    case Returned => 0
    case Failed(_) => 0
  }

  function Ranks(ps: seq<Producer>): (r: nat) {
    if ps == [] then 0 else Rank(ps[0].pc) + Ranks(ps[1..])
  }

  function WriterRank(w: Writer): (r: nat) {
    match w
    case Idle => 1
    case Writing(_) => 4
    case Returning(_) => 3
    case Stopped => 0
  }

  function Measure(cfg: Config, s: State): (r: nat) {
    20 * SatSub(cfg.Count(), s.next) + Ranks(s.producers) + 4 * |s.queue| + WriterRank(s.writer)
  }

  lemma {:induction false} RanksUpdate(ps: seq<Producer>, i: nat, pr: Producer)
    requires i < |ps|
    ensures Ranks(ps[i := pr]) + Rank(ps[i].pc) == Ranks(ps) + Rank(pr.pc)
  {
    if i == 0 {
      assert ps[i := pr][1..] == ps[1..];
    } else {
      RanksUpdate(ps[1..], i - 1, pr);
      assert ps[i := pr][1..] == ps[1..][i - 1 := pr];
    }
  }

  /** Every move makes the measure smaller: runs are finite. */
  lemma EveryStepProgresses(cfg: Config, s: State, c: Choice)
    requires Inv(cfg, s) && Enabled(s, c)
    ensures Measure(cfg, Step(cfg, s, c)) < Measure(cfg, s)
  {
    hide Ranks, AllKeys, DW.Upto, Landed, Conserved, JobsOk, ChunkDigest;
    match c
    case Produce(p, ok) =>
      assert ProducerOk(cfg, s.producers[p], s.next);
      var (pr, _, jobs) := ProducerStep(cfg, s.producers[p], p, s.next, s.writer.Stopped?, ok);
      assert |s.queue + jobs| == |s.queue| + |jobs|;
      RanksUpdate(s.producers, p, pr);
    case Write(_, _) =>
      if s.writer.Returning? && s.writer.job.owner < |s.producers| {
        var o := s.writer.job.owner;
        RanksUpdate(s.producers, o, s.producers[o].(back := s.producers[o].back + [s.writer.job.buf]));
      }
  }

  /** Nothing has gone wrong so far. */
  predicate Healthy(s: State) {
    (forall p :: 0 <= p < |s.producers| ==> !s.producers[p].pc.Failed?) && !s.writeFailed
  }

  predicate Lucky(c: Choice) {
    match c case Produce(_, ok) => ok case Write(ok, _) => ok
  }

  lemma SomeMove(cfg: Config, s: State) returns (c: Choice)
    requires Inv(cfg, s) && !Finished(s)
    ensures Enabled(s, c) && Lucky(c)
  {
    hide Inv, Finished;
    NoDeadlock(cfg, s);
    if Enabled(s, Write(true, 0)) {
      c := Write(true, 0);
    } else {
      var p :| Enabled(s, Produce(p, true));
      c := Produce(p, true);
    }
  }

  /** Where no I/O fails, nothing does. */
  lemma LuckyStaysHealthy(cfg: Config, s: State, c: Choice)
    requires Inv(cfg, s) && Enabled(s, c) && Lucky(c) && Healthy(s)
    ensures Healthy(Step(cfg, s, c))
  {
    hide ProducerOk, AllKeys, DW.Upto, JobsOk, Landed, Conserved, WriteAt, Config.Chunk, ChunkDigest;
  }

  /** From every reachable state the threads can all still end, and without an error if there has been
      none. */
  lemma {:induction false} CanFinish(cfg: Config, n: nat, file: seq<byte>, schedule: seq<Choice>)
    ensures exists more ::
      var s := Run(cfg, Start(cfg, n, file), schedule + more);
      Finished(s) && (Healthy(Run(cfg, Start(cfg, n, file), schedule)) ==> Healthy(s))
    decreases Measure(cfg, Run(cfg, Start(cfg, n, file), schedule))
  {
    hide Inv, Measure, Enabled, Finished, Healthy, Lucky;
    var s := Run(cfg, Start(cfg, n, file), schedule);
    RunKeepsInv(cfg, n, file, schedule);
    if Finished(s) {
      assert schedule + [] == schedule;
      assert Finished(Run(cfg, Start(cfg, n, file), schedule + []));
    } else {
      var c := SomeMove(cfg, s);
      EveryStepProgresses(cfg, s, c);
      if Healthy(s) { LuckyStaysHealthy(cfg, s, c); }
      assert (schedule + [c])[..|schedule|] == schedule;
      CanFinish(cfg, n, file, schedule + [c]);
      var more :|
        var e := Run(cfg, Start(cfg, n, file), (schedule + [c]) + more);
        Finished(e) && (Healthy(Run(cfg, Start(cfg, n, file), schedule + [c])) ==> Healthy(e));
      assert (schedule + [c]) + more == schedule + ([c] + more);
    }
  }

  // --- The result ------------------------------------------------------------------------------------

  /** What the scope returns: Ok only when no producer failed and no write did. */
  predicate Succeeded(s: State) {
    (forall p :: 0 <= p < |s.producers| ==> s.producers[p].pc.Returned?) && !s.writeFailed
  }

  /** There is always a run that ends well. */
  lemma CanSucceed(cfg: Config, n: nat, file: seq<byte>) returns (schedule: seq<Choice>)
    ensures var s := Run(cfg, Start(cfg, n, file), schedule); Finished(s) && Succeeded(s)
  {
    CanFinish(cfg, n, file, []);
    assert Healthy(Run(cfg, Start(cfg, n, file), []));
    schedule :|
      var s := Run(cfg, Start(cfg, n, file), [] + schedule);
      Finished(s) && (Healthy(Run(cfg, Start(cfg, n, file), [])) ==> Healthy(s));
    assert [] + schedule == schedule;
  }

  /** `all`: the producers' results, joined. */
  function Gathered(ps: seq<Producer>): (r: seq<(nat, seq<byte>)>) {
    if ps == [] then [] else ps[0].acc + Gathered(ps[1..])
  }

  lemma {:induction false} GatheredKeys(digests: DW.Config, ps: seq<Producer>)
    requires forall p :: 0 <= p < |ps| ==> ps[p].pc.Returned? && DW.OutOk(digests, ps[p].acc)
    ensures DW.OutKeys(Gathered(ps)) == AllKeys(ps) && DW.OutOk(digests, Gathered(ps))
  {
    if ps != [] {
      var (acc, rest) := (ps[0].acc, Gathered(ps[1..]));
      GatheredKeys(digests, ps[1..]);
      DW.OutKeysConcat(acc, rest);
      ReturnedKeys(ps[0]);
      OutOkConcat(digests, acc, rest);
      hide DW.OutOk, DW.OutKeys, Keys;
    }
  }

  lemma ReturnedKeys(pr: Producer)
    requires pr.pc.Returned?
    ensures Keys(pr) == DW.OutKeys(pr.acc)
  {
  }

  lemma OutOkConcat(digests: DW.Config, x: seq<(nat, seq<byte>)>, y: seq<(nat, seq<byte>)>)
    requires DW.OutOk(digests, x) && DW.OutOk(digests, y)
    ensures DW.OutOk(digests, x + y)
  {
    hide ChunkDigest;
  }

  /** All real bytes, chunk by chunk. */
  lemma AllOnDisk(cfg: Config, file: seq<byte>)
    requires |file| == |cfg.out| && forall k :: 0 <= k < cfg.Count() ==> OnDisk(cfg, file, k)
    ensures file == cfg.out
  {
    forall i | 0 <= i < |file| ensures file[i] == cfg.out[i] {
      var k := i / CHUNK;
      PaddingAddsNoChunk(|cfg.out|);
      assert k * CHUNK <= i < (k + 1) * CHUNK;
      ChunkBytes(cfg, k);
      var b := cfg.Chunk(k).0;
      assert OnDisk(cfg, file, k) && k * CHUNK + |b| == Min((k + 1) * CHUNK, |cfg.out|);
      assert file[k * CHUNK..k * CHUNK + |b|][i - k * CHUNK] == b[i - k * CHUNK];
    }
  }

  /** The chunks a finished pipeline has digested are those of the padded output. */
  lemma DigestsAreChunks(cfg: Config)
    ensures DW.SectionChunks(cfg.Digests()) == Chunks(cfg.out + Zeros(Sigblock.PaddingBeforeBlock(|cfg.out|)))
  {
    var cs := Chunks(cfg.out + Zeros(Sigblock.PaddingBeforeBlock(|cfg.out|)));
    ChunksAreSlices(cfg.out + Zeros(Sigblock.PaddingBeforeBlock(|cfg.out|)));
    forall k | 0 <= k < cfg.Count()
      ensures DW.SectionChunks(cfg.Digests())[k] == cs[k]
    {
      PaddedChunk(cfg.out, k);
      ChunkBytes(cfg, k);
    }
  }

  /** For every producer count, interleaving and pattern of recycled buffers: a run that ends without
      an error leaves the file equal to the sequential output, and its results are one correct digest
      per chunk of the padded output. */
  lemma FinishedRun(cfg: Config, n: nat, file: seq<byte>, schedule: seq<Choice>)
    requires n >= 1
    ensures var s := Run(cfg, Start(cfg, n, file), schedule);
      Finished(s) && Succeeded(s) ==> s.file == cfg.out && DW.Complete(cfg.Digests(), Gathered(s.producers))
  {
    var s := Run(cfg, Start(cfg, n, file), schedule);
    RunKeepsInv(cfg, n, file, schedule);
    if Finished(s) && Succeeded(s) {
      FinishedState(cfg, s);
    }
  }

  lemma FinishedState(cfg: Config, s: State)
    requires Inv(cfg, s) && Finished(s) && Succeeded(s) && |s.producers| >= 1
    ensures s.file == cfg.out && DW.Complete(cfg.Digests(), Gathered(s.producers))
  {
    hide DW.OutOk, AllKeys, DW.Upto, DW.OutKeys, OnDisk, Conserved, JobsOk, Landed, DW.SectionChunks;
    assert ProducerOk(cfg, s.producers[0], s.next);
    GatheredKeys(cfg.Digests(), s.producers);
    DigestCount(cfg);
    forall k | 0 <= k < cfg.Count() ensures OnDisk(cfg, s.file, k) {
      ChunkLanded(cfg, s, k);
    }
    AllOnDisk(cfg, s.file);
  }

  lemma DigestCount(cfg: Config)
    ensures |cfg.Digests().chunks| == cfg.Count()
  {
  }

  lemma ChunkLanded(cfg: Config, s: State, k: nat)
    requires Inv(cfg, s) && Finished(s) && Succeeded(s) && k < cfg.Count()
    requires DW.OutKeys(Gathered(s.producers)) == DW.Upto(cfg.Count())
    ensures OnDisk(cfg, s.file, k)
  {
    hide DW.OutOk, AllKeys, DW.Upto, DW.OutKeys, OnDisk, ProducerOk, Conserved, JobsOk;
    DW.UptoCount(cfg.Count(), k);
    DW.KeyPosition(Gathered(s.producers), k);
    GatheredFrom(s.producers, k);
    var p, j :| 0 <= p < |s.producers| && 0 <= j < |s.producers[p].acc| && s.producers[p].acc[j].0 == k;
    assert Landed(cfg, s, s.producers[p]);
    assert KeyLanded(cfg, s, s.producers[p], k);
  }

  lemma {:induction false} GatheredFrom(ps: seq<Producer>, k: nat)
    requires exists i :: 0 <= i < |Gathered(ps)| && Gathered(ps)[i].0 == k
    ensures exists p, j :: 0 <= p < |ps| && 0 <= j < |ps[p].acc| && ps[p].acc[j].0 == k
  {
    var i :| 0 <= i < |Gathered(ps)| && Gathered(ps)[i].0 == k;
    if i < |ps[0].acc| {
      assert ps[0].acc[i].0 == k;
    } else {
      assert Gathered(ps[1..])[i - |ps[0].acc|].0 == k;
      GatheredFrom(ps[1..], k);
      var p, j :| 0 <= p < |ps[1..]| && 0 <= j < |ps[1..][p].acc| && ps[1..][p].acc[j].0 == k;
      assert ps[p + 1].acc[j].0 == k;
    }
  }

  /** The scatter at the end of the pipeline: slot k of `chunk_digests` is chunk k's digest. */
  method ChunkDigestsOf(cfg: Config, s: State) returns (d: seq<byte>)
    requires cfg.alg.Valid() && Inv(cfg, s) && Finished(s) && Succeeded(s) && |s.producers| >= 1
    ensures d == ChunkDigests(cfg.alg, Chunks(cfg.out + Zeros(Sigblock.PaddingBeforeBlock(|cfg.out|))))
    ensures forall k :: 0 <= k < cfg.Count() ==> DW.SlotDone(cfg.Digests(), d, k)
  {
    FinishedState(cfg, s);
    DigestsAreChunks(cfg);
    d := DW.Scatter(cfg.Digests(), Gathered(s.producers));
  }
}
