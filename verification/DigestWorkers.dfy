/** The worker protocol of `content_digest` (src/digest.rs) as a step machine: any number of threads
    share one atomic counter, each keeps up to two chunks in flight, and a scheduler picks who moves. */
module DigestWorkers {
  import opened Wrappers
  import opened Bytes
  import opened Hashing
  import opened Digest
  import Fips180
  import Sha256Engine

  /** Where a worker stands. `Fill(i)` is the head of the inner loop for lane i, `Claim(i)` the
      fetch-and-add it decided on, `Settling(i)` the call of `settle`, `Feed` the match below the
      two loops. `Scan` is the loop of a CPU without SHA instructions. */
  datatype PC = Fill(i: nat) | Claim(i: nat) | Settling(i: nat) | Feed | Scan | Done

  datatype Worker = Worker(pc: PC, lane0: Option<LaneV>, lane1: Option<LaneV>, out: seq<(nat, seq<byte>)>) {
    function Lane(i: nat): (r: Option<LaneV>) { if i == 0 then lane0 else lane1 }

    function SetLane(i: nat, l: Option<LaneV>): (r: Worker) {
      if i == 0 then this.(lane0 := l) else this.(lane1 := l)
    }

    /** Leaving the inner loop for lane i. */
    function Leave(i: nat): (r: Worker) {
      this.(pc := if i == 0 then Fill(1) else Feed)
    }
  }

  datatype System = System(next: nat, workers: seq<Worker>)

  /** What the workers share read-only: the algorithm, whether the SHA lanes are used, and each
      chunk as its two parts. */
  datatype Config = Config(alg: Algorithm, lanes: bool, chunks: seq<(seq<byte>, seq<byte>)>) {
    function Bytes(k: nat): (r: seq<byte>)
      requires k < |chunks|
    {
      chunks[k].0 + chunks[k].1
    }
  }

  function Start(cfg: Config, threads: nat): (r: System) {
    System(0, seq(threads, _ => Worker(if cfg.lanes then Fill(0) else Scan, None, None, [])))
  }

  /** One step of a worker that reads the shared counter as `next`; returns the new counter too.
      `second` is the outcome of the racy test that decides whether a worker holding one chunk
      asks for another: the load is relaxed, so nothing is assumed about it. */
  function WorkerStep(cfg: Config, w: Worker, next: nat, second: bool): (r: (Worker, nat)) {
    match w.pc
    case Fill(i) =>
      if w.Lane(i).Some? then (w.(pc := Settling(i)), next)
      else if w.Lane(if i == 0 then 1 else 0).Some? && !second then (w.Leave(i), next)
      else (w.(pc := Claim(i)), next)
    case Claim(i) =>
      if next < |cfg.chunks| then (w.SetLane(i, Some(NewLane(next, cfg.chunks[next]))).(pc := Settling(i)), next + 1)
      else (w.Leave(i), next + 1)
    case Settling(i) =>
      if w.Lane(i).None? then (w, next)
      else
        var (l, n) := Settle(w.Lane(i).value);
        if n > 0 then (w.SetLane(i, Some(l)).Leave(i), next)
        else (w.SetLane(i, None).(pc := Fill(i), out := w.out + [(l.k, cfg.alg.h(l.absorbed))]), next)
    case Feed =>
      if w.lane0.Some? && w.lane1.Some? then
        var n := Min(|w.lane0.value.p0| / 64, |w.lane1.value.p0| / 64);
        (w.(pc := Fill(0), lane0 := Some(w.lane0.value.Take(n)), lane1 := Some(w.lane1.value.Take(n))), next)
      else if w.lane0.Some? then (w.(pc := Fill(0), lane0 := Some(w.lane0.value.Take(|w.lane0.value.p0| / 64))), next)
      else if w.lane1.Some? then (w.(pc := Fill(0), lane1 := Some(w.lane1.value.Take(|w.lane1.value.p0| / 64))), next)
      else (w.(pc := Done), next)
    case Scan =>
      if next < |cfg.chunks| then (w.(out := w.out + [(next, ChunkDigest(cfg.alg, cfg.Bytes(next)))]), next + 1)
      else (w.(pc := Done), next + 1)
    case Done => (w, next)
  }

  /** A scheduler's choice: which worker moves, and how its racy test comes out. */
  datatype Choice = Choice(w: nat, second: bool)

  predicate Enabled(s: System, c: Choice) {
    c.w < |s.workers| && s.workers[c.w].pc != Done
  }

  function Step(cfg: Config, s: System, c: Choice): (r: System) {
    if !Enabled(s, c) then s
    else
      var (w, next) := WorkerStep(cfg, s.workers[c.w], s.next, c.second);
      System(next, s.workers[c.w := w])
  }

  function Run(cfg: Config, s: System, schedule: seq<Choice>): (r: System)
    decreases |schedule|
  {
    if schedule == [] then s else Step(cfg, Run(cfg, s, schedule[..|schedule| - 1]), schedule[|schedule| - 1])
  }

  predicate AllDone(s: System) {
    forall w :: 0 <= w < |s.workers| ==> s.workers[w].pc == Done
  }

  // --- Safety ------------------------------------------------------------------------------------

  /** A lane in flight belongs to a claimed chunk and has lost none of its bytes. */
  ghost predicate LaneOk(cfg: Config, l: LaneV) {
    l.k < |cfg.chunks| && l.absorbed + l.p0 + l.p1 == [0xa5] + PutU32(|cfg.Bytes(l.k)|) + cfg.Bytes(l.k)
  }

  ghost predicate LaneOptOk(cfg: Config, l: Option<LaneV>) {
    l.Some? ==> LaneOk(cfg, l.value)
  }

  ghost predicate Settled(l: Option<LaneV>) {
    l.Some? ==> l.value.Ready()
  }

  ghost predicate PcOk(cfg: Config, w: Worker, next: nat) {
    match w.pc
    case Fill(i) => cfg.lanes && i < 2 && (i == 1 ==> Settled(w.lane0))
    case Claim(i) => cfg.lanes && i < 2 && (i == 1 ==> Settled(w.lane0)) && w.Lane(i).None?
    case Settling(i) => cfg.lanes && i < 2 && (i == 1 ==> Settled(w.lane0)) && w.Lane(i).Some?
    case Feed => cfg.lanes && Settled(w.lane0) && Settled(w.lane1)
                 && (w.lane0.None? && w.lane1.None? ==> next >= |cfg.chunks|)
    case Scan => !cfg.lanes && w.lane0.None? && w.lane1.None?
    case Done => w.lane0.None? && w.lane1.None? && next >= |cfg.chunks|
  }

  ghost predicate OutOk(cfg: Config, out: seq<(nat, seq<byte>)>) {
    forall j :: 0 <= j < |out| ==>
      out[j].0 < |cfg.chunks| && out[j].1 == ChunkDigest(cfg.alg, cfg.Bytes(out[j].0))
  }

  ghost predicate WorkerOk(cfg: Config, w: Worker, next: nat) {
    PcOk(cfg, w, next) && LaneOptOk(cfg, w.lane0) && LaneOptOk(cfg, w.lane1) && OutOk(cfg, w.out)
  }

  /** The chunk indices a worker is answerable for: in flight, or recorded. */
  function LaneKey(l: Option<LaneV>): (r: multiset<nat>) { if l.Some? then multiset{l.value.k} else multiset{} }

  function OutKeys(out: seq<(nat, seq<byte>)>): (r: multiset<nat>) {
    if out == [] then multiset{} else OutKeys(out[..|out| - 1]) + multiset{out[|out| - 1].0}
  }

  function Owned(w: Worker): (r: multiset<nat>) { LaneKey(w.lane0) + LaneKey(w.lane1) + OutKeys(w.out) }

  function AllOwned(ws: seq<Worker>): (r: multiset<nat>) {
    if ws == [] then multiset{} else Owned(ws[0]) + AllOwned(ws[1..])
  }

  /** The multiset {0, ..., n-1}. */
  function Upto(n: nat): (r: multiset<nat>) {
    if n == 0 then multiset{} else Upto(n - 1) + multiset{n - 1}
  }

  lemma {:induction false} UptoCount(n: nat, k: nat)
    ensures Upto(n)[k] == if k < n then 1 else 0
  {
    if n > 0 {
      UptoCount(n - 1, k);
    }
  }

  lemma UptoStep(n: nat)
    ensures Upto(n + 1) == Upto(n) + multiset{n}
  {
  }

  lemma Cancel(after: multiset<nat>, old_w: multiset<nat>, before: multiset<nat>, new_w: multiset<nat>,
               extra: multiset<nat>)
    requires after + old_w == before + new_w && new_w == old_w + extra
    ensures after == before + extra
  {
    assert (before + extra) + old_w == after + old_w;
    assert after == (after + old_w) - old_w;
  }

  /** Every claimed chunk is in flight or recorded in exactly one place. */
  ghost predicate Inv(cfg: Config, s: System) {
    && (forall w :: 0 <= w < |s.workers| ==> WorkerOk(cfg, s.workers[w], s.next))
    && AllOwned(s.workers) == Upto(Min(s.next, |cfg.chunks|))
  }

  lemma {:induction false} AllOwnedUpdate(ws: seq<Worker>, i: nat, w: Worker)
    requires i < |ws|
    ensures AllOwned(ws[i := w]) + Owned(ws[i]) == AllOwned(ws) + Owned(w)
  {
    hide Owned;
    if i == 0 {
      assert ws[i := w][1..] == ws[1..];
    } else {
      AllOwnedUpdate(ws[1..], i - 1, w);
      assert ws[i := w][1..] == ws[1..][i - 1 := w];
      var (o, rest, rest') := (Owned(ws[0]), AllOwned(ws[1..]), AllOwned(ws[1..][i - 1 := w]));
      assert AllOwned(ws[i := w]) == o + rest' && AllOwned(ws) == o + rest;
      assert (o + rest') + Owned(ws[i]) == o + (rest' + Owned(ws[i]));
    }
  }

  lemma OutKeysSnoc(out: seq<(nat, seq<byte>)>, k: nat, d: seq<byte>)
    ensures OutKeys(out + [(k, d)]) == OutKeys(out) + multiset{k}
  {
    assert (out + [(k, d)])[..|out|] == out;
  }

  lemma NewLaneOk(cfg: Config, k: nat)
    requires k < |cfg.chunks|
    ensures LaneOk(cfg, NewLane(k, cfg.chunks[k])) && NewLane(k, cfg.chunks[k]).k == k
  {
    var l := NewLane(k, cfg.chunks[k]);
    assert l.absorbed + l.p0 + l.p1 == l.absorbed + (l.p0 + l.p1);
  }

  lemma SettleOk(cfg: Config, l: LaneV)
    requires LaneOk(cfg, l)
    ensures var (m, n) := Settle(l);
      && LaneOk(cfg, m) && m.k == l.k && (n > 0 ==> m.Ready())
      && (n == 0 ==> cfg.alg.h(m.absorbed) == ChunkDigest(cfg.alg, cfg.Bytes(l.k)))
  {
    SettleKeepsBytes(l);
    var (m, n) := Settle(l);
    if n == 0 {
      assert m.absorbed + m.p0 + m.p1 == m.absorbed;
    }
  }

  lemma TakeOk(cfg: Config, l: LaneV, n: nat)
    requires LaneOk(cfg, l) && n * 64 <= |l.p0|
    ensures LaneOk(cfg, l.Take(n))
  {
    assert l.Take(n).absorbed + l.Take(n).p0 == l.absorbed + l.p0;
  }

  /** A step keeps its worker in order and hands the new claim, if any, to it alone. */
  ghost predicate GoodStep(cfg: Config, w: Worker, next: nat, second: bool) {
    var (w', next') := WorkerStep(cfg, w, next, second);
    && next <= next' <= next + 1
    && WorkerOk(cfg, w', next')
    && Owned(w') == Owned(w) + (if next' > next && next < |cfg.chunks| then multiset{next} else multiset{})
  }

  lemma WorkerStepOk(cfg: Config, w: Worker, next: nat, second: bool)
    requires WorkerOk(cfg, w, next)
    ensures GoodStep(cfg, w, next, second)
  {
    match w.pc
    case Fill(_) => FillOk(cfg, w, next, second);
    case Claim(_) => ClaimOk(cfg, w, next, second);
    case Settling(_) => SettlingOk(cfg, w, next, second);
    case Feed => FeedOk(cfg, w, next, second);
    case Scan => ScanOk(cfg, w, next, second);
    case Done =>
  }

  lemma FillOk(cfg: Config, w: Worker, next: nat, second: bool)
    requires WorkerOk(cfg, w, next) && w.pc.Fill?
    ensures GoodStep(cfg, w, next, second)
  {
    hide OutOk, LaneOk, OutKeys;
  }

  lemma OwnsSame(w: Worker, w': Worker)
    requires w'.lane0 == w.lane0 && w'.lane1 == w.lane1 && w'.out == w.out
    ensures Owned(w') == Owned(w)
  {
  }

  lemma OwnsClaim(w: Worker, i: nat, l: LaneV)
    requires i < 2 && w.Lane(i).None?
    ensures Owned(w.SetLane(i, Some(l)).(pc := Settling(i))) == Owned(w) + multiset{l.k}
  {
    hide OutKeys;
  }

  lemma ClaimOk(cfg: Config, w: Worker, next: nat, second: bool)
    requires WorkerOk(cfg, w, next) && w.pc.Claim?
    ensures GoodStep(cfg, w, next, second)
  {
    hide OutOk, LaneOk, OutKeys, NewLane, LaneV.Ready, Owned;
    OwnsSame(w, w.Leave(w.pc.i));
    if next < |cfg.chunks| {
      OwnsClaim(w, w.pc.i, NewLane(next, cfg.chunks[next]));
      NewLaneOk(cfg, next);
    }
  }

  lemma SettlingOk(cfg: Config, w: Worker, next: nat, second: bool)
    requires WorkerOk(cfg, w, next) && w.pc.Settling?
    ensures GoodStep(cfg, w, next, second)
  {
    hide OutOk, LaneOk, OutKeys, Settle, ChunkDigest;
    var l := w.Lane(w.pc.i).value;
    SettleOk(cfg, l);
    var (m, n) := Settle(l);
    if n == 0 {
      Recorded(cfg, w.out, l.k, cfg.alg.h(m.absorbed));
    }
  }

  lemma FeedOk(cfg: Config, w: Worker, next: nat, second: bool)
    requires WorkerOk(cfg, w, next) && w.pc.Feed?
    ensures GoodStep(cfg, w, next, second)
  {
    hide OutOk, LaneOk, OutKeys;
    if w.lane0.Some? && w.lane1.Some? {
      var n := Min(|w.lane0.value.p0| / 64, |w.lane1.value.p0| / 64);
      TakeOk(cfg, w.lane0.value, n);
      TakeOk(cfg, w.lane1.value, n);
    } else if w.lane0.Some? {
      TakeOk(cfg, w.lane0.value, |w.lane0.value.p0| / 64);
    } else if w.lane1.Some? {
      TakeOk(cfg, w.lane1.value, |w.lane1.value.p0| / 64);
    }
  }

  lemma ScanOk(cfg: Config, w: Worker, next: nat, second: bool)
    requires WorkerOk(cfg, w, next) && w.pc.Scan?
    ensures GoodStep(cfg, w, next, second)
  {
    hide OutOk, LaneOk, OutKeys, ChunkDigest;
    if next < |cfg.chunks| {
      Recorded(cfg, w.out, next, ChunkDigest(cfg.alg, cfg.Bytes(next)));
    }
  }

  lemma Recorded(cfg: Config, out: seq<(nat, seq<byte>)>, k: nat, d: seq<byte>)
    requires OutOk(cfg, out) && k < |cfg.chunks| && d == ChunkDigest(cfg.alg, cfg.Bytes(k))
    ensures OutOk(cfg, out + [(k, d)]) && OutKeys(out + [(k, d)]) == OutKeys(out) + multiset{k}
  {
    hide ChunkDigest;
    OutKeysSnoc(out, k, d);
  }

  lemma StillOk(cfg: Config, w: Worker, next: nat, next': nat)
    requires WorkerOk(cfg, w, next) && next <= next'
    ensures WorkerOk(cfg, w, next')
  {
    hide LaneOptOk, OutOk, Settled;
  }

  lemma StepKeepsInv(cfg: Config, s: System, c: Choice)
    requires Inv(cfg, s)
    ensures Inv(cfg, Step(cfg, s, c))
  {
    if Enabled(s, c) {
      hide WorkerStep, WorkerOk, AllOwned, Upto;
      WorkerStepOk(cfg, s.workers[c.w], s.next, c.second);
      OthersStillOk(cfg, s, c);
      StepOwns(cfg, s, c);
    }
  }

  lemma OthersStillOk(cfg: Config, s: System, c: Choice)
    requires Inv(cfg, s) && Enabled(s, c) && GoodStep(cfg, s.workers[c.w], s.next, c.second)
    ensures var s' := Step(cfg, s, c);
      forall w :: 0 <= w < |s'.workers| ==> WorkerOk(cfg, s'.workers[w], s'.next)
  {
    hide WorkerStep, WorkerOk, AllOwned, Upto, Owned;
    var s' := Step(cfg, s, c);
    forall w | 0 <= w < |s'.workers|
      ensures WorkerOk(cfg, s'.workers[w], s'.next)
    {
      if w != c.w {
        StillOk(cfg, s.workers[w], s.next, s'.next);
      }
    }
  }

  lemma StepOwns(cfg: Config, s: System, c: Choice)
    requires Inv(cfg, s) && Enabled(s, c) && GoodStep(cfg, s.workers[c.w], s.next, c.second)
    ensures var s' := Step(cfg, s, c); AllOwned(s'.workers) == Upto(Min(s'.next, |cfg.chunks|))
  {
    hide WorkerStep, WorkerOk, Owned, AllOwned, Upto;
    UptoStep(s.next);
    var old_w := s.workers[c.w];
    var (w, next) := WorkerStep(cfg, old_w, s.next, c.second);
    AllOwnedUpdate(s.workers, c.w, w);
    Cancel(AllOwned(s.workers[c.w := w]), Owned(old_w), AllOwned(s.workers), Owned(w),
           if next > s.next && s.next < |cfg.chunks| then multiset{s.next} else multiset{});
  }

  lemma FreshOwnsNothing(w: Worker)
    requires w.lane0.None? && w.lane1.None? && w.out == []
    ensures Owned(w) == multiset{}
  {
  }

  lemma {:induction false} StartInv(cfg: Config, threads: nat)
    ensures Inv(cfg, Start(cfg, threads))
  {
    hide ChunkDigest, LaneOk, AllOwned, Owned, OutKeys;
    var ws := Start(cfg, threads).workers;
    forall w | 0 <= w < |ws| ensures Owned(ws[w]) == multiset{} {
      FreshOwnsNothing(ws[w]);
    }
    NothingOwned(ws);
    assert Upto(0) == multiset{};
  }

  lemma {:induction false} NothingOwned(ws: seq<Worker>)
    requires forall w :: 0 <= w < |ws| ==> Owned(ws[w]) == multiset{}
    ensures AllOwned(ws) == multiset{}
  {
    hide Owned;
    if ws != [] {
      NothingOwned(ws[1..]);
    }
  }

  /** Whatever the scheduler does, the invariant holds. */
  lemma {:induction false} RunKeepsInv(cfg: Config, threads: nat, schedule: seq<Choice>)
    ensures Inv(cfg, Run(cfg, Start(cfg, threads), schedule))
    ensures |Run(cfg, Start(cfg, threads), schedule).workers| == threads
    decreases |schedule|
  {
    hide Inv;
    if schedule == [] {
      StartInv(cfg, threads);
    } else {
      var init := schedule[..|schedule| - 1];
      RunKeepsInv(cfg, threads, init);
      StepKeepsInv(cfg, Run(cfg, Start(cfg, threads), init), schedule[|schedule| - 1]);
    }
  }

  /** `all`: the workers' outputs, joined. */
  function Gathered(ws: seq<Worker>): (r: seq<(nat, seq<byte>)>) {
    if ws == [] then [] else ws[0].out + Gathered(ws[1..])
  }

  lemma {:induction false} OutKeysConcat(x: seq<(nat, seq<byte>)>, y: seq<(nat, seq<byte>)>)
    ensures OutKeys(x + y) == OutKeys(x) + OutKeys(y)
    decreases |y|
  {
    hide OutKeys;
    if y == [] {
      assert x + y == x;
      NoOutKeys();
    } else {
      var (init, l) := (y[..|y| - 1], y[|y| - 1]);
      OutKeysConcat(x, init);
      OneMoreKey(x, init, l);
      assert y == init + [l];
    }
  }

  lemma NoOutKeys()
    ensures OutKeys([]) == multiset{} && forall m: multiset<nat> :: m + multiset{} == m
  {
  }

  lemma OneMoreKey(x: seq<(nat, seq<byte>)>, init: seq<(nat, seq<byte>)>, l: (nat, seq<byte>))
    requires OutKeys(x + init) == OutKeys(x) + OutKeys(init)
    ensures OutKeys(x + (init + [l])) == OutKeys(x) + OutKeys(init + [l])
  {
    hide OutKeys;
    OutKeysSnoc(x + init, l.0, l.1);
    OutKeysSnoc(init, l.0, l.1);
    assert x + (init + [l]) == (x + init) + [l];
    SumAssoc(OutKeys(x), OutKeys(init), multiset{l.0});
  }

  lemma SumAssoc(a: multiset<nat>, b: multiset<nat>, c: multiset<nat>)
    ensures (a + b) + c == a + (b + c)
  {
  }

  lemma {:induction false} GatheredKeys(cfg: Config, ws: seq<Worker>)
    requires forall w :: 0 <= w < |ws| ==> ws[w].lane0.None? && ws[w].lane1.None? && OutOk(cfg, ws[w].out)
    ensures OutKeys(Gathered(ws)) == AllOwned(ws)
    ensures OutOk(cfg, Gathered(ws))
  {
    if ws != [] {
      GatheredKeys(cfg, ws[1..]);
      OutKeysConcat(ws[0].out, Gathered(ws[1..]));
    }
  }

  lemma {:induction false} KeyPosition(out: seq<(nat, seq<byte>)>, k: nat)
    ensures OutKeys(out)[k] > 0 <==> exists j :: 0 <= j < |out| && out[j].0 == k
  {
    if out != [] {
      var init := out[..|out| - 1];
      KeyPosition(init, k);
      if OutKeys(init)[k] > 0 {
        var j :| 0 <= j < |init| && init[j].0 == k;
        assert out[j].0 == k;
      }
      assert forall j :: 0 <= j < |init| ==> out[j] == init[j];
      if out[|out| - 1].0 == k {
        assert exists j :: 0 <= j < |out| && out[j].0 == k;
      }
    }
  }

  /** A complete set of results: every chunk once, each with its own digest. */
  ghost predicate Complete(cfg: Config, all: seq<(nat, seq<byte>)>) {
    && OutOk(cfg, all)
    && OutKeys(all) == Upto(|cfg.chunks|)
  }

  /** When every worker has returned, each chunk was hashed and recorded exactly once. */
  lemma FinishedIsComplete(cfg: Config, threads: nat, schedule: seq<Choice>)
    requires threads >= 1
    ensures var s := Run(cfg, Start(cfg, threads), schedule);
      AllDone(s) ==> Complete(cfg, Gathered(s.workers))
  {
    var s := Run(cfg, Start(cfg, threads), schedule);
    RunKeepsInv(cfg, threads, schedule);
    if AllDone(s) {
      assert WorkerOk(cfg, s.workers[0], s.next);
      GatheredKeys(cfg, s.workers);
    }
  }

  // --- Termination -------------------------------------------------------------------------------

  function Rank(pc: PC): (r: nat) {
    match pc
    case Fill(i) => if i == 0 then 7 else 4
    case Claim(i) => if i == 0 then 6 else 3
    case Settling(i) => if i == 0 then 5 else 2
    case Feed => 1
    case Scan => 1
    case Done => 0
  }

  function LaneCost(l: Option<LaneV>): (r: nat) { if l.Some? then 8 * (l.value.Left() + 2) else 0 }

  function Cost(w: Worker): (r: nat) { LaneCost(w.lane0) + LaneCost(w.lane1) + Rank(w.pc) }

  function Costs(ws: seq<Worker>): (r: nat) {
    if ws == [] then 0 else Cost(ws[0]) + Costs(ws[1..])
  }

  /** The work nobody has claimed yet. */
  function Pool(cfg: Config, next: nat): (r: nat)
    decreases |cfg.chunks| - next
  {
    if next >= |cfg.chunks| then 0 else 8 * (|cfg.Bytes(next)| + 2) + Pool(cfg, next + 1)
  }

  function Measure(cfg: Config, s: System): (r: nat) { Pool(cfg, s.next) + Costs(s.workers) }

  lemma {:induction false} CostsUpdate(ws: seq<Worker>, i: nat, w: Worker)
    requires i < |ws|
    ensures Costs(ws[i := w]) + Cost(ws[i]) == Costs(ws) + Cost(w)
  {
    hide Cost;
    if i == 0 {
      assert ws[i := w][1..] == ws[1..];
    } else {
      CostsUpdate(ws[1..], i - 1, w);
      assert ws[i := w][1..] == ws[1..][i - 1 := w];
    }
  }

  lemma WorkerStepCosts(cfg: Config, w: Worker, next: nat, second: bool)
    requires WorkerOk(cfg, w, next) && w.pc != Done
    ensures var (w', next') := WorkerStep(cfg, w, next, second);
      Pool(cfg, next') + Cost(w') < Pool(cfg, next) + Cost(w)
  {
    hide Settle, ChunkDigest, LaneOk, OutOk, Pool;
    NextPool(cfg, next);
    match w.pc
    case Fill(i) =>
    case Claim(i) =>
    case Settling(i) =>
      SettleKeepsBytes(w.Lane(i).value);
    case Feed =>
      if w.lane0.Some? { BlocksLeft(w.lane0.value); }
      if w.lane1.Some? { BlocksLeft(w.lane1.value); }
    case Scan =>
  }

  lemma NextPool(cfg: Config, next: nat)
    ensures Pool(cfg, next) == if next < |cfg.chunks| then 8 * (|cfg.Bytes(next)| + 2) + Pool(cfg, next + 1) else 0
    ensures next >= |cfg.chunks| ==> Pool(cfg, next + 1) == 0
  {
  }

  lemma BlocksLeft(l: LaneV)
    requires l.Ready()
    ensures |l.p0| / 64 >= 1
    ensures forall n {:trigger l.Take(n)} :: 1 <= n <= |l.p0| / 64 ==> l.Take(n).Left() < l.Left() - 1
  {
  }

  /** No deadlock and no livelock: while a worker is not done it can move, and every move makes the
      measure smaller, whoever moves and however the races come out. */
  lemma EveryStepProgresses(cfg: Config, s: System, c: Choice)
    requires Inv(cfg, s) && Enabled(s, c)
    ensures Measure(cfg, Step(cfg, s, c)) < Measure(cfg, s)
  {
    hide WorkerStep, WorkerOk, Cost, Pool;
    var (w, next) := WorkerStep(cfg, s.workers[c.w], s.next, c.second);
    WorkerStepCosts(cfg, s.workers[c.w], s.next, c.second);
    CostsUpdate(s.workers, c.w, w);
  }

  /** The moves of a schedule that were not stutters. */
  function Moves(cfg: Config, s: System, schedule: seq<Choice>): (r: nat)
    decreases |schedule|
  {
    if schedule == [] then 0
    else
      var init := schedule[..|schedule| - 1];
      Moves(cfg, s, init) + (if Enabled(Run(cfg, s, init), schedule[|schedule| - 1]) then 1 else 0)
  }

  /** Every run is finite: at most `Measure` moves can ever be made. */
  lemma {:induction false} RunsAreFinite(cfg: Config, threads: nat, schedule: seq<Choice>)
    ensures Moves(cfg, Start(cfg, threads), schedule) + Measure(cfg, Run(cfg, Start(cfg, threads), schedule))
         <= Measure(cfg, Start(cfg, threads))
    decreases |schedule|
  {
    hide Measure, Inv;
    if schedule != [] {
      var init := schedule[..|schedule| - 1];
      RunsAreFinite(cfg, threads, init);
      RunKeepsInv(cfg, threads, init);
      var s := Run(cfg, Start(cfg, threads), init);
      if Enabled(s, schedule[|schedule| - 1]) {
        EveryStepProgresses(cfg, s, schedule[|schedule| - 1]);
      }
    }
  }

  // --- Collection ----------------------------------------------------------------------------------

  const SHARE: nat := 0x8_0000

  /** `t` workers were asked for, and each can have a chunk and a 512 KiB share of its own. */
  predicate Worthwhile(totalLen: nat, total: nat, asked: nat, t: nat) {
    1 <= t <= asked && t <= total && (t - 1) * 0x8_0000 < totalLen
  }

  /** `useful` and `threads`: as many as are worthwhile, and at least one. */
  function ThreadCount(totalLen: nat, total: nat, asked: nat): (r: nat)
    ensures r == 1 || Worthwhile(totalLen, total, asked, r)
    ensures forall t: nat :: Worthwhile(totalLen, total, asked, t) ==> t <= r
  {
    var d := (totalLen + SHARE - 1) / SHARE;
    assert totalLen + SHARE - 1 == SHARE * d + (totalLen + SHARE - 1) % SHARE;
    var useful := if Min(d, total) < 1 then 1 else Min(d, total);
    if useful > 1 then (if asked < 1 then 1 else if asked > useful then useful else asked) else 1
  }

  function SectionChunks(cfg: Config): (r: seq<seq<byte>>) {
    seq(|cfg.chunks|, k requires 0 <= k < |cfg.chunks| => cfg.Bytes(k))
  }

  /** Digests of the first n chunks, side by side. */
  function Row(cfg: Config, n: nat): (r: seq<byte>)
    requires n <= |cfg.chunks|
  {
    if n == 0 then [] else Row(cfg, n - 1) + ChunkDigest(cfg.alg, cfg.Bytes(n - 1))
  }

  lemma {:induction false} RowIsChunkDigests(cfg: Config, n: nat)
    requires n <= |cfg.chunks|
    ensures Row(cfg, n) == ChunkDigests(cfg.alg, SectionChunks(cfg)[..n])
  {
    hide ChunkDigest;
    if n > 0 {
      RowIsChunkDigests(cfg, n - 1);
      var last := [cfg.Bytes(n - 1)];
      assert SectionChunks(cfg)[..n] == SectionChunks(cfg)[..n - 1] + last;
      ChunkDigestsConcat(cfg.alg, SectionChunks(cfg)[..n - 1], last);
      assert last[1..] == []
        && ChunkDigests(cfg.alg, last) == ChunkDigest(cfg.alg, last[0]) + ChunkDigests(cfg.alg, last[1..]);
    }
  }

  lemma {:induction false} RowLength(cfg: Config, n: nat)
    requires n <= |cfg.chunks| && cfg.alg.Valid()
    ensures |Row(cfg, n)| == n * cfg.alg.outLen
  {
    if n > 0 {
      RowLength(cfg, n - 1);
    }
  }

  /** Slot k of the concatenation holds chunk k's digest. */
  ghost predicate SlotDone(cfg: Config, concat: seq<byte>, k: nat)
    requires k < |cfg.chunks|
  {
    var ol := cfg.alg.outLen;
    0 <= k * ol <= k * ol + ol <= |concat| && concat[k * ol..k * ol + ol] == ChunkDigest(cfg.alg, cfg.Bytes(k))
  }

  lemma {:induction false} AllSlots(cfg: Config, concat: seq<byte>, n: nat)
    requires n <= |cfg.chunks| && cfg.alg.Valid() && n * cfg.alg.outLen <= |concat|
    requires forall k :: 0 <= k < n ==> SlotDone(cfg, concat, k)
    ensures concat[..n * cfg.alg.outLen] == Row(cfg, n)
  {
    hide ChunkDigest;
    var ol := cfg.alg.outLen;
    if n > 0 {
      assert (n - 1) * ol + ol == n * ol;
      AllSlots(cfg, concat, n - 1);
      assert SlotDone(cfg, concat, n - 1);
      assert concat[..n * ol] == concat[..(n - 1) * ol] + concat[(n - 1) * ol..n * ol];
    }
  }

  /** Writing one slot leaves the others alone. */
  lemma SlotsApart(a: nat, b: nat, ol: nat, total: nat)
    requires a < total && b < total
    ensures a * ol + ol <= total * ol
    ensures a < b ==> a * ol + ol <= b * ol
  {
    MulMonotone(ol, a + 1, total);
    MulMonotone(ol, a + 1, b);
  }

  lemma SlotWritten(cfg: Config, before: seq<byte>, after: seq<byte>, k: nat)
    requires cfg.alg.Valid() && k < |cfg.chunks| && |before| == |cfg.chunks| * cfg.alg.outLen
    requires k * cfg.alg.outLen + cfg.alg.outLen <= |before|
    requires after == before[..k * cfg.alg.outLen] + ChunkDigest(cfg.alg, cfg.Bytes(k))
      + before[k * cfg.alg.outLen + cfg.alg.outLen..]
    ensures SlotDone(cfg, after, k)
    ensures forall j :: 0 <= j < |cfg.chunks| && SlotDone(cfg, before, j) ==> SlotDone(cfg, after, j)
  {
    var (ol, total) := (cfg.alg.outLen, |cfg.chunks|);
    DigestLength(cfg, k);
    hide ChunkDigest;
    var p := k * ol;
    assert after[p..p + ol] == ChunkDigest(cfg.alg, cfg.Bytes(k));
    forall j | 0 <= j < total && SlotDone(cfg, before, j)
      ensures SlotDone(cfg, after, j)
    {
      SlotsApart(j, k, ol, total);
      SlotsApart(k, j, ol, total);
      if j != k {
        OtherSlot(before, after, p, j * ol, ol);
      }
    }
  }

  lemma OtherSlot(before: seq<byte>, after: seq<byte>, p: nat, q: nat, ol: nat)
    requires |before| == |after| && p + ol <= |before| && q + ol <= |before|
    requires p + ol <= q || q + ol <= p
    requires after[..p] == before[..p] && after[p + ol..] == before[p + ol..]
    ensures after[q..q + ol] == before[q..q + ol]
  {
    forall i | q <= i < q + ol
      ensures after[i] == before[i]
    {
      if p + ol <= q {
        assert after[i] == after[p + ol..][i - (p + ol)];
      } else {
        assert after[i] == after[..p][i];
      }
    }
  }

  /** Every chunk has a result, so every slot is filled, and the slots make up the row. */
  lemma EverySlot(cfg: Config, all: seq<(nat, seq<byte>)>, concat: seq<byte>)
    requires cfg.alg.Valid() && Complete(cfg, all) && |concat| == |cfg.chunks| * cfg.alg.outLen
    requires forall j :: 0 <= j < |all| ==> SlotDone(cfg, concat, all[j].0)
    ensures concat == ChunkDigests(cfg.alg, SectionChunks(cfg))
    ensures forall k :: 0 <= k < |cfg.chunks| ==> SlotDone(cfg, concat, k)
  {
    hide ChunkDigest, SlotDone, OutKeys, Upto, OutOk;
    var (total, ol) := (|cfg.chunks|, cfg.alg.outLen);
    forall k | 0 <= k < total
      ensures SlotDone(cfg, concat, k)
    {
      UptoCount(total, k);
      KeyPosition(all, k);
    }
    AllSlots(cfg, concat, total);
    RowIsChunkDigests(cfg, total);
    assert concat[..total * ol] == concat;
    assert SectionChunks(cfg)[..total] == SectionChunks(cfg);
  }

  /** The scatter loop: results arrive in any order and each goes to its chunk's slot. */
  method Scatter(cfg: Config, all: seq<(nat, seq<byte>)>) returns (concat: seq<byte>)
    requires cfg.alg.Valid() && Complete(cfg, all)
    ensures concat == ChunkDigests(cfg.alg, SectionChunks(cfg))
    ensures forall k :: 0 <= k < |cfg.chunks| ==> SlotDone(cfg, concat, k)
  {
    var (total, ol) := (|cfg.chunks|, cfg.alg.outLen);
    concat := Zeros(total * ol);
    hide ChunkDigest, SlotDone, OutKeys, Upto;
    for i := 0 to |all|
      invariant |concat| == total * ol
      invariant forall j :: 0 <= j < i ==> SlotDone(cfg, concat, all[j].0)
    {
      var (k, dk) := all[i];
      SlotsApart(k, k, ol, total);
      DigestLength(cfg, k);
      ghost var before := concat;
      concat := concat[..k * ol] + dk[..ol] + concat[k * ol + ol..];
      SlotWritten(cfg, before, concat, k);
    }
    EverySlot(cfg, all, concat);
  }

  /** The end of `content_digest`: scatter the results into place, then the top-level digest. */
  method Collect(cfg: Config, all: seq<(nat, seq<byte>)>) returns (d: seq<byte>)
    requires cfg.alg.Valid() && Complete(cfg, all)
    ensures d == TopDigest(cfg.alg, |cfg.chunks|, ChunkDigests(cfg.alg, SectionChunks(cfg)))
  {
    var concat := Scatter(cfg, all);
    d := TopDigest(cfg.alg, |cfg.chunks|, concat);
  }

  lemma DigestLength(cfg: Config, k: nat)
    requires cfg.alg.Valid() && k < |cfg.chunks|
    ensures |ChunkDigest(cfg.alg, cfg.Bytes(k))| == cfg.alg.outLen
  {
  }

  // --- A worker's turns, on its hashers ------------------------------------------------------------

  /** The claimed chunk becomes a lane. */
  method ClaimTurn(cfg: Config, ghost w: Worker, i: nat, next: nat, second: bool) returns (lane: Lane)
    requires w.pc == Claim(i) && next < |cfg.chunks|
    ensures fresh(lane.Repr()) && lane.Valid()
    ensures WorkerStep(cfg, w, next, second) == (w.SetLane(i, Some(lane.Value())).(pc := Settling(i)), next + 1)
  {
    lane := new Lane(next, cfg.chunks[next]);
  }

  /** `settle`, and `finish` when nothing is left: what the machine records is what the hasher says. */
  method SettlingTurn(cfg: Config, ghost w: Worker, i: nat, next: nat, second: bool, lane: Lane)
    returns (n: nat, digest: seq<byte>)
    requires cfg.alg.Valid() && cfg.alg.isSha256
    requires w.pc == Settling(i) && i < 2 && lane.Valid() && w.Lane(i) == Some(lane.Value())
    requires LaneOk(cfg, lane.Value()) && |cfg.Bytes(lane.k)| <= CHUNK
    modifies lane.Repr()
    ensures n > 0 ==>
      lane.Valid() && WorkerStep(cfg, w, next, second) == (w.SetLane(i, Some(lane.Value())).Leave(i), next)
    ensures n == 0 ==>
      WorkerStep(cfg, w, next, second) == (w.SetLane(i, None).(pc := Fill(i), out := w.out + [(lane.k, digest)]), next)
  {
    hide Settle, ToLE, LE;
    ghost var before := lane.Value();
    n := lane.SettleLane();
    digest := [];
    if n == 0 {
      SettleOk(cfg, before);
      SettleKeepsBytes(before);
      ghost var msg := lane.h.msg;
      assert |msg| <= CHUNK + 5;
      digest := lane.h.Finish();
      assert digest == cfg.alg.h(msg);
    }
  }

  /** Two lanes advance together. */
  method FeedTwoTurn(cfg: Config, ghost w: Worker, next: nat, second: bool, a: Lane, b: Lane)
    requires w.pc == Feed && a.Valid() && b.Valid() && a.Repr() !! b.Repr()
    requires w.lane0 == Some(a.Value()) && w.lane1 == Some(b.Value()) && Settled(w.lane0) && Settled(w.lane1)
    modifies a.Repr(), b.Repr()
    ensures a.Valid() && b.Valid()
    ensures WorkerStep(cfg, w, next, second)
      == (w.(pc := Fill(0), lane0 := Some(a.Value()), lane1 := Some(b.Value())), next)
  {
    hide Fips180.CompressAll, Sha256Engine.StateOf;
    FeedTwo(a, b);
  }

  /** One lane advances alone. */
  method FeedOneTurn(cfg: Config, ghost w: Worker, i: nat, next: nat, second: bool, a: Lane)
    requires w.pc == Feed && i < 2 && a.Valid() && w.Lane(i) == Some(a.Value()) && w.Lane(1 - i).None?
      && Settled(w.Lane(i))
    modifies a.Repr()
    ensures a.Valid()
    ensures WorkerStep(cfg, w, next, second) == (w.SetLane(i, Some(a.Value())).(pc := Fill(0)), next)
  {
    hide Fips180.CompressAll, Sha256Engine.StateOf;
    FeedOne(a);
  }

  /** Without SHA instructions a chunk is hashed at once. */
  method ScanTurn(cfg: Config, ghost w: Worker, next: nat, second: bool) returns (digest: seq<byte>)
    requires w.pc == Scan && next < |cfg.chunks|
    ensures WorkerStep(cfg, w, next, second) == (w.(out := w.out + [(next, digest)]), next + 1)
  {
    var (x, y) := cfg.chunks[next];
    digest := HashChunk(cfg.alg, [x, y]);
    TwoParts(x, y);
  }

  // --- The refinement ------------------------------------------------------------------------------

  function TotalLen(sources: seq<Source>): (r: nat) {
    if sources == [] then 0 else sources[0].Len() + TotalLen(sources[1..])
  }

  /** What the workers of one call share: lanes need SHA instructions and SHA-256. */
  function Shared(alg: Algorithm, sha: bool, sources: seq<Source>): (r: Config) {
    Config(alg, sha && alg.isSha256, AllParts(sources))
  }

  /** Where a schedule leaves the workers of one call. */
  function Outcome(alg: Algorithm, sha: bool, sources: seq<Source>, asked: nat, schedule: seq<Choice>): (r: System) {
    var cfg := Shared(alg, sha, sources);
    Run(cfg, Start(cfg, ThreadCount(TotalLen(sources), |cfg.chunks|, asked)), schedule)
  }

  /** For every thread count, interleaving and racy test, with the SHA lanes or without: once the
      workers are done, their results are complete, and what `Collect` makes of them is the
      sequential content digest of the sources. */
  lemma ParallelDigest(alg: Algorithm, sha: bool, sources: seq<Source>, asked: nat, schedule: seq<Choice>)
    requires alg.Valid()
    ensures
      var cfg := Shared(alg, sha, sources);
      var s := Outcome(alg, sha, sources, asked, schedule);
      && (AllDone(s) ==> Complete(cfg, Gathered(s.workers)))
      && TopDigest(alg, |cfg.chunks|, ChunkDigests(alg, SectionChunks(cfg))) == ContentDigest(alg, Sections(sources))
  {
    var cfg := Shared(alg, sha, sources);
    PartsAreChunks(sources);
    assert SectionChunks(cfg) == Joined(AllParts(sources));
    FinishedIsComplete(cfg, ThreadCount(TotalLen(sources), |cfg.chunks|, asked), schedule);
  }

  /** The chunks the workers have recorded, in the order of the joined results. */
  function Delivered(all: seq<(nat, seq<byte>)>, n: nat): (ks: seq<nat>)
    ensures forall j :: 0 <= j < |ks| ==> ks[j] < n
  {
    if all == [] then []
    else Delivered(all[..|all| - 1], n) + (if all[|all| - 1].0 < n then [all[|all| - 1].0] else [])
  }

  lemma {:induction false} DeliveredHas(all: seq<(nat, seq<byte>)>, n: nat, k: nat)
    requires k < n && exists j :: 0 <= j < |all| && all[j].0 == k
    ensures k in Delivered(all, n)
  {
    var j :| 0 <= j < |all| && all[j].0 == k;
    if j < |all| - 1 {
      assert all[..|all| - 1][j] == all[j];
      DeliveredHas(all[..|all| - 1], n, k);
    }
  }

  /** A finished run has claimed, and so delivered, every chunk of its first source. */
  lemma FinishedDelivers(alg: Algorithm, sha: bool, sources: seq<Source>, asked: nat, schedule: seq<Choice>)
    requires alg.Valid() && sources != [] && AllDone(Outcome(alg, sha, sources, asked, schedule))
    ensures forall k :: 0 <= k < sources[0].Count() ==>
      k in Delivered(Gathered(Outcome(alg, sha, sources, asked, schedule).workers), sources[0].Count())
  {
    var s := Outcome(alg, sha, sources, asked, schedule);
    var cfg := Shared(alg, sha, sources);
    ParallelDigest(alg, sha, sources, asked, schedule);
    hide OutOk, OutKeys, Upto, Outcome, Delivered;
    var all := Gathered(s.workers);
    forall k | 0 <= k < sources[0].Count() ensures k in Delivered(all, sources[0].Count()) {
      UptoCount(|cfg.chunks|, k);
      KeyPosition(all, k);
      DeliveredHas(all, sources[0].Count(), k);
    }
  }

  /** `content_digest`: a schedule that leaves a worker running yields nothing yet. `delivered` are
      the chunks of the first source, as the workers handled them. */
  method ParallelContentDigest(alg: Algorithm, sha: bool, sources: seq<Source>, asked: nat, schedule: seq<Choice>)
    returns (d: Option<seq<byte>>, delivered: seq<nat>)
    requires alg.Valid() && sources != []
    ensures d.Some? <==> AllDone(Outcome(alg, sha, sources, asked, schedule))
    ensures d.Some? ==> d.value == ContentDigest(alg, Sections(sources))
    ensures d.Some? ==>
      && delivered == Delivered(Gathered(Outcome(alg, sha, sources, asked, schedule).workers), sources[0].Count())
      && (forall j :: 0 <= j < |delivered| ==> delivered[j] < sources[0].Count())
      && (forall k :: 0 <= k < sources[0].Count() ==> k in delivered)
  {
    hide AllParts, WorkerStep, ContentDigest;
    var cfg := Shared(alg, sha, sources);
    var s := Outcome(alg, sha, sources, asked, schedule);
    if !AllDone(s) {
      return None, [];
    }
    ParallelDigest(alg, sha, sources, asked, schedule);
    FinishedDelivers(alg, sha, sources, asked, schedule);
    var digest := Collect(cfg, Gathered(s.workers));
    d, delivered := Some(digest), Delivered(Gathered(s.workers), sources[0].Count());
  }

  /** From every reachable state the workers can all still end. */
  lemma {:induction false} CanFinish(cfg: Config, threads: nat, schedule: seq<Choice>)
    ensures exists more :: AllDone(Run(cfg, Start(cfg, threads), schedule + more))
    decreases Measure(cfg, Run(cfg, Start(cfg, threads), schedule))
  {
    hide Inv, Measure, Enabled, AllDone;
    var s := Run(cfg, Start(cfg, threads), schedule);
    RunKeepsInv(cfg, threads, schedule);
    if AllDone(s) {
      assert schedule + [] == schedule;
      assert AllDone(Run(cfg, Start(cfg, threads), schedule + []));
    } else {
      var c := SomeMove(s);
      EveryStepProgresses(cfg, s, c);
      assert (schedule + [c])[..|schedule|] == schedule;
      CanFinish(cfg, threads, schedule + [c]);
      var more :| AllDone(Run(cfg, Start(cfg, threads), (schedule + [c]) + more));
      assert (schedule + [c]) + more == schedule + ([c] + more);
    }
  }

  lemma SomeMove(s: System) returns (c: Choice)
    requires !AllDone(s)
    ensures Enabled(s, c)
  {
    var w :| 0 <= w < |s.workers| && s.workers[w].pc != Done;
    c := Choice(w, false);
  }
}
