/** Local-header lengths collected from digest chunks, and the alignment check (src/align.rs). */
module Inspector {
  import opened Wrappers
  import opened Bytes
  import opened Zip
  import opened Digest
  import opened Planner
  import opened Directory
  import opened Partition

  type Lens = (nat, nat)  // name length, extra length

  /** `read_lfh_lens`: a direct read of the 30 fixed bytes at `off`. */
  function DirectRead(input: seq<byte>, off: nat): (r: Option<Lens>)
    requires off + LFH_LEN <= |input|
  {
    var h := input[off..off + LFH_LEN];
    if h[..4] != LFH_SIG then None else Some((U16(h, 26), U16(h, 28)))
  }

  ghost predicate In(p: (nat, nat), off: nat) { p.0 <= off < p.0 + p.1 }

  /** A delivered piece (offset, length) starts no later than `off` and reaches past it. */
  ghost predicate SeenAt(seen: seq<(nat, nat)>, off: nat) {
    exists j :: 0 <= j < |seen| && In(seen[j], off)
  }

  ghost predicate Named(found: seq<(nat, Lens)>, i: nat) {
    exists j :: 0 <= j < |found| && found[j].0 == i
  }

  /** Everything found is what a direct read gives, for a header in a delivered piece. */
  ghost predicate FoundOk(input: seq<byte>, items: seq<Item>, seen: seq<(nat, nat)>, found: seq<(nat, Lens)>)
    requires AllInside(items, |input|)
  {
    forall j :: 0 <= j < |found| ==>
      && found[j].0 < |items| && SeenAt(seen, items[found[j].0].off)
      && DirectRead(input, items[found[j].0].off) == Some(found[j].1)
  }

  ghost predicate StraddlersOk(items: seq<Item>, seen: seq<(nat, nat)>, straddlers: seq<nat>) {
    forall j :: 0 <= j < |straddlers| ==> straddlers[j] < |items| && SeenAt(seen, items[straddlers[j]].off)
  }

  /** There is a header at `at`, it was delivered, and it lacks the signature. */
  ghost predicate BadHeaderSeen(input: seq<byte>, items: seq<Item>, seen: seq<(nat, nat)>, at: nat)
    requires AllInside(items, |input|)
  {
    exists i :: 0 <= i < |items| && items[i].off == at && SeenAt(seen, at) && DirectRead(input, items[i].off).None?
  }

  /** One update of the lists the calls share, made under a lock of its own. */
  datatype Update = SetError(at: nat) | AddFound(found: seq<(nat, Lens)>) | AddStraddlers(straddlers: seq<nat>)

  ghost predicate UpdateOk(input: seq<byte>, items: seq<Item>, seen: seq<(nat, nat)>, u: Update)
    requires AllInside(items, |input|)
  {
    match u
    case SetError(at) => BadHeaderSeen(input, items, seen, at)
    case AddFound(found) => FoundOk(input, items, seen, found)
    case AddStraddlers(straddlers) => StraddlersOk(items, seen, straddlers)
  }

  /** The update says what became of entry `i`. */
  ghost predicate Accounts(u: Update, i: nat) {
    match u
    case SetError(_) => true
    case AddFound(found) => Named(found, i)
    case AddStraddlers(straddlers) => i in straddlers
  }

  /** An update that a call has still to make does. */
  ghost predicate Due(todo: seq<Update>, i: nat) {
    exists k :: 0 <= k < |todo| && Accounts(todo[k], i)
  }

  ghost predicate DueIn(calls: seq<seq<Update>>, i: nat) {
    exists t :: 0 <= t < |calls| && Due(calls[t], i)
  }

  lemma DueWithCall(calls: seq<seq<Update>>, todo: seq<Update>, i: nat)
    ensures DueIn(calls, i) || Due(todo, i) ==> DueIn(calls + [todo], i)
  {
    hide Due;
    if DueIn(calls, i) {
      var t :| 0 <= t < |calls| && Due(calls[t], i);
      assert (calls + [todo])[t] == calls[t];
    }
    if Due(todo, i) {
      assert (calls + [todo])[|calls|] == todo;
    }
  }

  lemma DueAfter(calls: seq<seq<Update>>, t: nat, i: nat)
    requires t < |calls| && calls[t] != [] && DueIn(calls, i)
    ensures Accounts(calls[t][0], i) || DueIn(calls[t := calls[t][1..]], i)
  {
    hide Accounts;
    var next := calls[t := calls[t][1..]];
    var u :| 0 <= u < |calls| && Due(calls[u], i);
    if u != t {
      assert next[u] == calls[u];
    } else {
      var k :| 0 <= k < |calls[t]| && Accounts(calls[t][k], i);
      if k > 0 {
        assert next[t][k - 1] == calls[t][k];
      }
    }
  }

  lemma SeenMore(seen: seq<(nat, nat)>, more: seq<(nat, nat)>, off: nat)
    ensures SeenAt(seen + more, off) <==> SeenAt(seen, off) || SeenAt(more, off)
  {
    if SeenAt(seen, off) {
      var j :| 0 <= j < |seen| && In(seen[j], off);
      assert (seen + more)[j] == seen[j];
    }
    if SeenAt(more, off) {
      var j :| 0 <= j < |more| && In(more[j], off);
      assert (seen + more)[|seen| + j] == more[j];
    }
    if SeenAt(seen + more, off) {
      var j :| 0 <= j < |seen + more| && In((seen + more)[j], off);
      assert if j < |seen| then (seen + more)[j] == seen[j] else (seen + more)[j] == more[j - |seen|];
    }
  }

  lemma NamedMore(x: seq<(nat, Lens)>, y: seq<(nat, Lens)>, i: nat)
    ensures Named(x + y, i) <==> Named(x, i) || Named(y, i)
  {
    if Named(x, i) {
      var j :| 0 <= j < |x| && x[j].0 == i;
      assert (x + y)[j] == x[j];
    }
    if Named(y, i) {
      var j :| 0 <= j < |y| && y[j].0 == i;
      assert (x + y)[|x| + j] == y[j];
    }
    if Named(x + y, i) {
      var j :| 0 <= j < |x + y| && (x + y)[j].0 == i;
      assert if j < |x| then (x + y)[j] == x[j] else (x + y)[j] == y[j - |x|];
    }
  }

  /** What is true of some pieces is true of more. */
  lemma UpdateStays(input: seq<byte>, items: seq<Item>, seen: seq<(nat, nat)>, more: seq<(nat, nat)>, u: Update)
    requires AllInside(items, |input|) && UpdateOk(input, items, seen, u)
    requires forall off :: SeenAt(seen, off) ==> SeenAt(more, off)
    ensures UpdateOk(input, items, more, u)
  {
    hide SeenAt, DirectRead;
  }

  lemma FoundTogether(input: seq<byte>, items: seq<Item>, seen: seq<(nat, nat)>, x: seq<(nat, Lens)>,
                      y: seq<(nat, Lens)>)
    requires AllInside(items, |input|) && FoundOk(input, items, seen, x) && FoundOk(input, items, seen, y)
    ensures FoundOk(input, items, seen, x + y)
  {
    hide SeenAt, DirectRead;
  }

  lemma OnePiece(piece: (nat, nat), off: nat)
    ensures SeenAt([piece], off) <==> In(piece, off)
  {
    assert [piece][0] == piece;
  }

  class LfhInspector {
    ghost const input: seq<byte>  // the file
    ghost const items: seq<Item>
    const offsets: seq<nat>
    const order: seq<nat>
    var found: seq<(nat, Lens)>
    var straddlers: seq<nat>
    var error: Option<nat>
    ghost var seen: seq<(nat, nat)>

    ghost predicate Valid()
      reads this
    {
      && Sorted() && AllInside(items, |input|)
      && FoundOk(input, items, seen, found) && StraddlersOk(items, seen, straddlers)
      && (error.Some? ==> BadHeaderSeen(input, items, seen, error.value))
    }

    ghost predicate Noted(i: nat)
      reads this
    {
      error.Some? || Named(found, i) || i in straddlers
    }

    /** Every header in a piece seen is noted, or due in one of the calls still under way. */
    ghost predicate Accounted(calls: seq<seq<Update>>)
      reads this
    {
      forall i: nat :: i < |items| && SeenAt(seen, items[i].off) ==>
        Noted(i) || DueIn(calls, i)
    }

    ghost predicate Sorted() {
      && FileOrder(order, items) && |offsets| == |order|
      && forall k :: 0 <= k < |order| ==> offsets[k] == items[order[k]].off
    }

    constructor (ghost input: seq<byte>, items: seq<Item>, order: seq<nat>)
      requires FileOrder(order, items) && AllInside(items, |input|)
      ensures Valid() && Accounted([]) && seen == [] && this.input == input && this.items == items
    {
      this.input := input;
      this.items := items;
      this.offsets := seq(|order|, k requires 0 <= k < |order| => items[order[k]].off);
      this.order := order;
      found, straddlers, error, seen := [], [], None, [];
    }

    /** `inspect`, called with a piece of the file, up to its first lock: the updates it goes on to
        make. A piece with a bad header reports it and adds nothing. */
    method Inspect(fileOff: nat, buf: seq<byte>) returns (todo: seq<Update>)
      requires Valid() && fileOff + |buf| <= |input| && buf == input[fileOff..fileOff + |buf|]
      modifies `seen
      ensures Valid() && seen == old(seen) + [(fileOff, |buf|)]
      ensures forall k :: 0 <= k < |todo| ==> UpdateOk(input, items, seen, todo[k])
      ensures forall i: nat :: i < |items| && In((fileOff, |buf|), items[i].off) ==> Due(todo, i)
    {
      hide FoundOk, StraddlersOk, BadHeaderSeen, SeenAt;
      var end := fileOff + |buf|;
      ghost var piece := (fileOff, |buf|);
      Grow(piece);
      var lo := PartitionPoint(offsets, (o: nat) => o < fileOff);
      var hi := PartitionPoint(offsets, (o: nat) => o < end);
      if lo >= hi {
        NothingNamed(items, order, offsets, piece, lo, hi);
        return [];
      }
      var newFound: seq<(nat, Lens)>, newStraddlers: seq<nat> := [], [];
      Nothing(input, items, seen);
      for k := lo to hi
        invariant unchanged(this`found, this`straddlers, this`error) && Valid() && seen == old(seen) + [piece]
        invariant FoundOk(input, items, seen, newFound) && StraddlersOk(items, seen, newStraddlers)
        invariant forall m :: lo <= m < k ==> Named(newFound, order[m]) || order[m] in newStraddlers
      {
        var rel := offsets[k] - fileOff;
        ghost var before := newFound;
        PieceSeen(old(seen), piece, offsets[k]);
        if rel + LFH_LEN <= |buf| {
          var h := buf[rel..rel + LFH_LEN];
          SubSlice(input, fileOff, |buf|, rel, rel + LFH_LEN);
          if h[..4] != LFH_SIG {
            BadPiece(input, items, seen, order[k]);
            todo := [SetError(offsets[k])];
            forall i ensures Due(todo, i) {
              assert Accounts(todo[0], i);
            }
            return;
          }
          newFound := newFound + [(order[k], (U16(h, 26), U16(h, 28)))];
          OneFound(input, items, seen, before, order[k], (U16(h, 26), U16(h, 28)));
        } else {
          newStraddlers := newStraddlers + [order[k]];
          OneStraddler(items, seen, newStraddlers, order[k]);
        }
        forall m | lo <= m < k + 1 ensures Named(newFound, order[m]) || order[m] in newStraddlers {
          NamedMore(before, newFound[|before|..], order[m]);
          assert before + newFound[|before|..] == newFound;
        }
      }
      todo := [AddFound(newFound)] + (if newStraddlers != [] then [AddStraddlers(newStraddlers)] else []);
      AllNamed(items, order, offsets, piece, lo, hi, newFound, newStraddlers, todo);
    }

    /** One locked update. */
    method Put(u: Update)
      requires Valid() && UpdateOk(input, items, seen, u)
      modifies `found, `straddlers, `error
      ensures Valid()
      ensures error == if u.SetError? then Some(u.at) else old(error)
      ensures found == old(found) + (if u.AddFound? then u.found else [])
      ensures straddlers == old(straddlers) + (if u.AddStraddlers? then u.straddlers else [])
      ensures forall i :: old(Noted(i)) || Accounts(u, i) ==> Noted(i)
    {
      hide SeenAt, DirectRead, Named;
      match u {
        case SetError(at) => error := Some(at);
        case AddFound(more) =>
          FoundTogether(input, items, seen, found, more);
          forall i ensures Named(found + more, i) <==> Named(found, i) || Named(more, i) {
            NamedMore(found, more, i);
          }
          found := found + more;
        case AddStraddlers(more) => straddlers := straddlers + more;
      }
    }

    ghost method Grow(piece: (nat, nat))
      requires Valid()
      modifies `seen
      ensures Valid() && seen == old(seen) + [piece]
    {
      hide SeenAt, DirectRead;
      ghost var was := seen;
      forall off ensures SeenAt(was, off) ==> SeenAt(was + [piece], off) {
        SeenMore(was, [piece], off);
      }
      seen := seen + [piece];
    }
  }

  // --- finish ----------------------------------------------------------------------------------------

  datatype InspectError = NoHeader(at: nat) | NotSeen(at: nat) | ReadFailed(at: nat)

  /** Slots hold what a direct read gives, and a slot is only filled for a delivered header. */
  ghost predicate SlotsOk(input: seq<byte>, items: seq<Item>, seen: seq<(nat, nat)>, lens: seq<Option<Lens>>)
    requires AllInside(items, |input|)
  {
    |lens| == |items| && forall i :: 0 <= i < |lens| && lens[i].Some? ==>
      DirectRead(input, items[i].off) == lens[i] && SeenAt(seen, items[i].off)
  }

  /** What an error says is so. */
  ghost predicate ErrorOk(file: seq<byte>, items: seq<Item>, seen: seq<(nat, nat)>, flaky: bool, e: InspectError)
    requires AllInside(items, |file|)
  {
    exists i :: 0 <= i < |items| && items[i].off == e.at &&
      match e
      case NoHeader(_) => DirectRead(file, items[i].off).None?
      case NotSeen(_) => !SeenAt(seen, e.at)
      case ReadFailed(_) => flaky
  }

  /** `finish`. Without I/O errors it succeeds exactly when every header was delivered and carries
      the signature, and then each length pair is what a direct read gives. */
  method Finish(insp: LfhInspector, file: seq<byte>, items: seq<Item>, flaky: bool)
    returns (r: Result<seq<Lens>, InspectError>)
    requires insp.Valid() && insp.Accounted([]) && insp.input == file && insp.items == items
    ensures r.Ok? ==> |r.value| == |items| && forall i :: 0 <= i < |items| ==>
      SeenAt(insp.seen, items[i].off) && DirectRead(file, items[i].off) == Some(r.value[i])
    ensures r.Err? ==> ErrorOk(file, items, insp.seen, flaky, r.error)
  {
    hide DirectRead, SeenAt, Named;
    if insp.error.Some? {
      return Err(NoHeader(insp.error.value));
    }
    var lens: seq<Option<Lens>> := seq(|items|, _ => None);
    for j := 0 to |insp.found|
      invariant SlotsOk(file, items, insp.seen, lens)
      invariant forall m :: 0 <= m < j ==> lens[insp.found[m].0].Some?
    {
      lens := lens[insp.found[j].0 := Some(insp.found[j].1)];
    }
    NamedSlots(insp.found, lens);
    for j := 0 to |insp.straddlers|
      invariant SlotsOk(file, items, insp.seen, lens)
      invariant forall i :: 0 <= i < |items| && Named(insp.found, i) ==> lens[i].Some?
      invariant forall m :: 0 <= m < j ==> lens[insp.straddlers[m]].Some?
    {
      var i := insp.straddlers[j];
      var fails: bool := *;
      if flaky && fails {
        return Err(ReadFailed(items[i].off));
      }
      var l := DirectRead(file, items[i].off);
      if l.None? {
        return Err(NoHeader(items[i].off));
      }
      lens := lens[i := l];
    }
    var out: seq<Lens> := [];
    for i := 0 to |lens|
      invariant |out| == i && forall m :: 0 <= m < i ==> lens[m] == Some(out[m])
    {
      if lens[i].None? {
        return Err(NotSeen(items[i].off));
      }
      out := out + [lens[i].value];
    }
    r := Ok(out);
  }

  lemma NamedSlots(found: seq<(nat, Lens)>, lens: seq<Option<Lens>>)
    requires forall m :: 0 <= m < |found| ==> found[m].0 < |lens| && lens[found[m].0].Some?
    ensures forall i :: 0 <= i < |lens| && Named(found, i) ==> lens[i].Some?
  {
  }

  predicate UnderWay(calls: seq<seq<Update>>) {
    exists t :: 0 <= t < |calls| && calls[t] != []
  }

  function Remaining(calls: seq<seq<Update>>): (r: nat) {
    if calls == [] then 0 else |calls[0]| + Remaining(calls[1..])
  }

  lemma {:induction false} OneLess(calls: seq<seq<Update>>, t: nat)
    requires t < |calls| && calls[t] != []
    ensures Remaining(calls[t := calls[t][1..]]) < Remaining(calls)
  {
    if t > 0 {
      OneLess(calls[1..], t - 1);
      assert calls[t := calls[t][1..]][1..] == calls[1..][t - 1 := calls[1..][t - 1][1..]];
    }
  }

  /** A piece is handed to a new call, or one of the calls under way makes its next update: whichever
      comes first. */
  method InspectPieces(insp: LfhInspector, pieces: seq<(nat, nat)>, file: seq<byte>)
    requires insp.Valid() && insp.Accounted([]) && insp.seen == [] && insp.input == file
    requires forall j :: 0 <= j < |pieces| ==> pieces[j].0 + pieces[j].1 <= |file|
    modifies insp
    ensures insp.Valid() && insp.Accounted([]) && insp.seen == pieces
  {
    hide DirectRead, SeenAt, Named, UpdateOk, FoundOk, StraddlersOk, BadHeaderSeen, Due, DueIn, Accounts;
    var next: nat, calls: seq<seq<Update>> := 0, [];
    while next < |pieces| || UnderWay(calls)
      invariant next <= |pieces| && insp.Valid() && insp.seen == pieces[..next]
      invariant AllInside(insp.items, |file|) && insp.input == file
      invariant forall t, k :: 0 <= t < |calls| && 0 <= k < |calls[t]| ==>
        UpdateOk(file, insp.items, insp.seen, calls[t][k])
      invariant insp.Accounted(calls)
      decreases |pieces| - next, Remaining(calls)
    {
      var starts: bool := *;
      if next < |pieces| && (starts || !UnderWay(calls)) {
        var (off, len) := pieces[next];
        ghost var before := insp.seen;
        var todo := insp.Inspect(off, file[off..off + len]);
        assert pieces[..next + 1] == pieces[..next] + [pieces[next]];
        forall o ensures SeenAt(insp.seen, o) <==> SeenAt(before, o) || In((off, len), o) {
          SeenMore(before, [(off, len)], o);
          OnePiece((off, len), o);
        }
        forall t, k | 0 <= t < |calls| && 0 <= k < |calls[t]|
          ensures UpdateOk(file, insp.items, insp.seen, calls[t][k])
        {
          UpdateStays(file, insp.items, before, insp.seen, calls[t][k]);
        }
        forall i: nat ensures DueIn(calls, i) || Due(todo, i) ==> DueIn(calls + [todo], i) {
          DueWithCall(calls, todo, i);
        }
        next, calls := next + 1, calls + [todo];
      } else {
        var t :| 0 <= t < |calls| && calls[t] != [];
        OneLess(calls, t);
        forall i: nat | DueIn(calls, i) ensures Accounts(calls[t][0], i) || DueIn(calls[t := calls[t][1..]], i) {
          DueAfter(calls, t, i);
        }
        insp.Put(calls[t][0]);
        calls := calls[t := calls[t][1..]];
      }
    }
    assert pieces[..|pieces|] == pieces;
    NothingDue(calls);
  }

  lemma NothingDue(calls: seq<seq<Update>>)
    requires !UnderWay(calls)
    ensures forall i :: !DueIn(calls, i)
  {
  }

  /** Delivering a list of pieces, in calls whose updates interleave, then `finish`. */
  method InspectAll(file: seq<byte>, items: seq<Item>, order: seq<nat>, pieces: seq<(nat, nat)>, flaky: bool)
    returns (r: Result<seq<Lens>, InspectError>)
    requires FileOrder(order, items) && AllInside(items, |file|)
    requires forall j :: 0 <= j < |pieces| ==> pieces[j].0 + pieces[j].1 <= |file|
    ensures r.Ok? ==> |r.value| == |items| && forall i ::
      0 <= i < |items| ==> DirectRead(file, items[i].off) == Some(r.value[i])
    ensures !flaky ==> (r.Ok? <==> forall i :: 0 <= i < |items| ==>
      SeenAt(pieces, items[i].off) && DirectRead(file, items[i].off).Some?)
    ensures r.Err? ==> ErrorOk(file, items, pieces, flaky, r.error)
  {
    hide DirectRead, SeenAt, Named;
    var insp := new LfhInspector(file, items, order);
    InspectPieces(insp, pieces, file);
    r := Finish(insp, file, items, flaky);
  }

  // --- Delivery by the digest ------------------------------------------------------------------------

  /** The pieces the digest workers deliver for a file-backed source when they claim its chunks in
      the order `claims`: the part of each chunk that lies in `data`, unless it is empty. */
  function Delivered(src: Source, claims: seq<nat>): (r: seq<(nat, nat)>)
    requires src.fileOff.Some? && forall j :: 0 <= j < |claims| ==> claims[j] < src.Count()
  {
    if claims == [] then []
    else
      var k := claims[|claims| - 1];
      var part := src.Chunk(k).0;
      Delivered(src, claims[..|claims| - 1]) + (if part != [] then [(src.fileOff.value + k * CHUNK, |part|)] else [])
  }

  /** `claims` are chunks of the source, and none is left out. */
  ghost predicate Delivers(src: Source, claims: seq<nat>) {
    (forall j :: 0 <= j < |claims| ==> claims[j] < src.Count()) && (forall k :: 0 <= k < src.Count() ==> k in claims)
  }

  lemma {:induction false} DeliveredHas(src: Source, claims: seq<nat>, off: nat)
    requires src.fileOff.Some? && forall j :: 0 <= j < |claims| ==> claims[j] < src.Count()
    requires src.fileOff.value <= off < src.fileOff.value + |src.data| && (off - src.fileOff.value) / CHUNK in claims
    ensures SeenAt(Delivered(src, claims), off)
  {
    var (init, k) := (claims[..|claims| - 1], claims[|claims| - 1]);
    var part := src.Chunk(k).0;
    var more := if part != [] then [(src.fileOff.value + k * CHUNK, |part|)] else [];
    SeenMore(Delivered(src, init), more, off);
    if (off - src.fileOff.value) / CHUNK == k {
      assert In(more[0], off);
    } else {
      assert claims == init + [k];
      DeliveredHas(src, init, off);
    }
  }

  lemma {:induction false} DeliveredInside(src: Source, claims: seq<nat>, file: seq<byte>)
    requires src.fileOff.Some? && forall j :: 0 <= j < |claims| ==> claims[j] < src.Count()
    requires src.fileOff.value + |src.data| <= |file|
    ensures forall j ::
      0 <= j < |Delivered(src, claims)| ==> Delivered(src, claims)[j].0 + Delivered(src, claims)[j].1 <= |file|
  {
    if claims != [] {
      DeliveredInside(src, claims[..|claims| - 1], file);
    }
  }

  /** Inspector equals direct reads: the entries section is digested as file-backed chunks, claimed
      in any order with none left out; then the inspector succeeds exactly when every header carries
      the signature, and gives what direct reads give, straddlers included. */
  method InspectSection(file: seq<byte>, entriesEnd: nat, tail: seq<byte>, items: seq<Item>, order: seq<nat>,
                        claims: seq<nat>, flaky: bool)
    returns (r: Result<seq<Lens>, InspectError>)
    requires entriesEnd <= |file| && FileOrder(order, items) && AllInside(items, entriesEnd)
    requires Delivers(Source(Some(0), file[..entriesEnd], tail), claims)
    ensures r.Ok? ==> |r.value| == |items| && forall i ::
      0 <= i < |items| ==> DirectRead(file, items[i].off) == Some(r.value[i])
    ensures !flaky ==> (r.Ok? <==> forall i :: 0 <= i < |items| ==> DirectRead(file, items[i].off).Some?)
    ensures r.Err? ==> !r.error.NotSeen? && ErrorOk(file, items, [], flaky, r.error)
  {
    hide DirectRead, SeenAt;
    var src := Source(Some(0), file[..entriesEnd], tail);
    var pieces := Delivered(src, claims);
    DeliveredInside(src, claims, file);
    forall i | 0 <= i < |items| ensures SeenAt(pieces, items[i].off) {
      var k := items[i].off / CHUNK;
      assert k < src.Count();
      DeliveredHas(src, claims, items[i].off);
    }
    r := InspectAll(file, items, order, pieces, flaky);
  }

  // --- Pieces ------------------------------------------------------------------------------------------

  lemma Nothing(input: seq<byte>, items: seq<Item>, seen: seq<(nat, nat)>)
    requires AllInside(items, |input|)
    ensures FoundOk(input, items, seen, []) && StraddlersOk(items, seen, [])
  {
  }

  lemma PieceSeen(before: seq<(nat, nat)>, piece: (nat, nat), off: nat)
    ensures In(piece, off) ==> SeenAt(before + [piece], off)
  {
    SeenMore(before, [piece], off);
    OnePiece(piece, off);
  }

  lemma OneFound(input: seq<byte>, items: seq<Item>, seen: seq<(nat, nat)>, found: seq<(nat, Lens)>, i: nat, l: Lens)
    requires AllInside(items, |input|) && FoundOk(input, items, seen, found)
    requires i < |items| && SeenAt(seen, items[i].off) && DirectRead(input, items[i].off) == Some(l)
    ensures FoundOk(input, items, seen, found + [(i, l)]) && Named(found + [(i, l)], i)
  {
    NamedMore(found, [(i, l)], i);
    assert [(i, l)][0].0 == i;
    hide SeenAt, DirectRead;
  }

  lemma OneStraddler(items: seq<Item>, seen: seq<(nat, nat)>, straddlers: seq<nat>, i: nat)
    requires straddlers != [] && straddlers[|straddlers| - 1] == i
      && StraddlersOk(items, seen, straddlers[..|straddlers| - 1])
    requires i < |items| && SeenAt(seen, items[i].off)
    ensures StraddlersOk(items, seen, straddlers) && i in straddlers
  {
    hide SeenAt;
    assert forall j :: 0 <= j < |straddlers| - 1 ==> straddlers[j] == straddlers[..|straddlers| - 1][j];
  }

  lemma BadPiece(input: seq<byte>, items: seq<Item>, seen: seq<(nat, nat)>, i: nat)
    requires AllInside(items, |input|) && i < |items| && SeenAt(seen, items[i].off)
    requires DirectRead(input, items[i].off).None?
    ensures BadHeaderSeen(input, items, seen, items[i].off)
  {
    hide SeenAt, DirectRead;
  }

  lemma AllNamed(items: seq<Item>, order: seq<nat>, offsets: seq<nat>, piece: (nat, nat), lo: nat, hi: nat,
                 found: seq<(nat, Lens)>, straddlers: seq<nat>, todo: seq<Update>)
    requires FileOrder(order, items) && |offsets| == |order| && lo <= |order| && hi <= |order|
    requires forall k :: 0 <= k < |order| ==> offsets[k] == items[order[k]].off
    requires forall k :: 0 <= k < lo ==> offsets[k] < piece.0
    requires forall k :: hi <= k < |order| ==> offsets[k] >= piece.0 + piece.1
    requires forall m :: lo <= m < hi ==> Named(found, order[m]) || order[m] in straddlers
    requires todo == [AddFound(found)] + (if straddlers != [] then [AddStraddlers(straddlers)] else [])
    ensures forall i: nat :: i < |items| && In(piece, items[i].off) ==> Due(todo, i)
  {
    hide Named;
    forall i: nat | i < |items| && In(piece, items[i].off) ensures Due(todo, i) {
      assert i in order;
      var m :| 0 <= m < |order| && order[m] == i;
      assert if Named(found, i) then Accounts(todo[0], i) else Accounts(todo[1], i);
    }
  }

  lemma NothingNamed(items: seq<Item>, order: seq<nat>, offsets: seq<nat>, piece: (nat, nat), lo: nat, hi: nat)
    requires FileOrder(order, items) && |offsets| == |order| && hi <= lo <= |order|
    requires forall k :: 0 <= k < |order| ==> offsets[k] == items[order[k]].off
    requires forall k :: 0 <= k < lo ==> offsets[k] < piece.0
    requires forall k :: hi <= k < |order| ==> offsets[k] >= piece.0 + piece.1
    ensures forall i: nat :: i < |items| ==> !In(piece, items[i].off)
  {
    forall i: nat | i < |items| ensures !In(piece, items[i].off) {
      assert i in order;
    }
  }

  // --- check -------------------------------------------------------------------------------------------

  function DataOff(it: Item, l: Lens): (r: nat) { it.off + LFH_LEN + l.0 + l.1 }

  predicate Bad(it: Item, l: Lens) { it.rule > 1 && DataOff(it, l) % it.rule != 0 }

  /** The next header in file order, or the end of the section. */
  function Limit(items: seq<Item>, order: seq<nat>, k: nat, end: nat): (r: nat)
    requires k < |order| && forall j :: 0 <= j < |order| ==> order[j] < |items|
  {
    if k + 1 < |order| then items[order[k + 1]].off else end
  }

  datatype Misaligned = Misaligned(i: nat, dataOff: nat, required: nat)

  datatype CheckError = Order(e: PlanError) | HeaderOverruns(i: nat)

  function Report(items: seq<Item>, lens: seq<Lens>, i: nat): (r: Misaligned)
    requires i < |items| == |lens|
  {
    Misaligned(i, DataOff(items[i], lens[i]), items[i].rule)
  }

  ghost predicate Fits(items: seq<Item>, lens: seq<Lens>, order: seq<nat>, k: nat, end: nat)
    requires |lens| == |items| && k < |order| && forall j :: 0 <= j < |order| ==> order[j] < |items|
  {
    DataOff(items[order[k]], lens[order[k]]) <= Limit(items, order, k, end)
  }

  /** No header reaches into a later one or past the section. */
  ghost predicate NoOverrun(items: seq<Item>, lens: seq<Lens>, end: nat)
    requires |lens| == |items|
  {
    && (forall i :: 0 <= i < |items| ==> DataOff(items[i], lens[i]) <= end)
    && (forall i, j :: 0 <= i < |items| && 0 <= j < |items| && items[i].off < items[j].off ==>
          DataOff(items[i], lens[i]) <= items[j].off)
  }

  /** Comparing each header with the next one is enough. */
  lemma FitsIff(items: seq<Item>, lens: seq<Lens>, order: seq<nat>, end: nat)
    requires |lens| == |items| && FileOrder(order, items) && AllInside(items, end)
    ensures (forall k :: 0 <= k < |order| ==> Fits(items, lens, order, k, end)) <==> NoOverrun(items, lens, end)
  {
    if forall k :: 0 <= k < |order| ==> Fits(items, lens, order, k, end) {
      forall i | 0 <= i < |items|
        ensures DataOff(items[i], lens[i]) <= end
        ensures forall j ::
          0 <= j < |items| && items[i].off < items[j].off ==> DataOff(items[i], lens[i]) <= items[j].off
      {
        assert i in order;
        var k :| 0 <= k < |order| && order[k] == i;
        assert Fits(items, lens, order, k, end);
        forall j | 0 <= j < |items| && items[i].off < items[j].off
          ensures DataOff(items[i], lens[i]) <= items[j].off
        {
          assert j in order;
          var m :| 0 <= m < |order| && order[m] == j;
        }
      }
    }
  }

  /** `check`: fails exactly when the headers are not in order or one overruns the next; else lists
      exactly the misaligned entries, in file order. */
  method Check(items: seq<Item>, lens: seq<Lens>, end: nat) returns (r: Result<seq<Misaligned>, CheckError>)
    requires |lens| == |items|
    ensures r.Ok? <==> AllInside(items, end) && DistinctOffsets(items) && NoOverrun(items, lens, end)
    ensures r.Ok? ==>
      && (forall m :: m in r.value ==> m.i < |items| && Bad(items[m.i], lens[m.i]) && m == Report(items, lens, m.i))
      && (forall i :: 0 <= i < |items| && Bad(items[i], lens[i]) ==> Report(items, lens, i) in r.value)
      && (forall a, b :: 0 <= a < b < |r.value| ==> items[r.value[a].i].off < items[r.value[b].i].off)
    ensures r.Ok? ==> forall m :: m in r.value ==>
      m.dataOff == items[m.i].off + 30 + lens[m.i].0 + lens[m.i].1 && m.required == items[m.i].rule
  {
    hide DistinctOffsets, AllInside, Bad, NoOverrun;
    var o := MakeFileOrder(items, end);
    if o.Err? {
      return Err(Order(o.error));
    }
    var order := o.value;
    FitsIff(items, lens, order, end);
    var bad: seq<Misaligned> := [];
    for k := 0 to |order|
      invariant forall j :: 0 <= j < k ==> Fits(items, lens, order, j, end)
      invariant forall m :: m in bad ==> m.i < |items| && Bad(items[m.i], lens[m.i]) && m == Report(items, lens, m.i)
      invariant forall j :: 0 <= j < k && Bad(items[order[j]], lens[order[j]]) ==> Report(items, lens, order[j]) in bad
      invariant forall a :: 0 <= a < |bad| ==> exists j :: 0 <= j < k && bad[a].i == order[j]
      invariant forall a, b :: 0 <= a < b < |bad| ==> items[bad[a].i].off < items[bad[b].i].off
    {
      var i := order[k];
      if DataOff(items[i], lens[i]) > Limit(items, order, k, end) {
        assert !Fits(items, lens, order, k, end);
        return Err(HeaderOverruns(i));
      }
      if Bad(items[i], lens[i]) {
        bad := bad + [Report(items, lens, i)];
      }
    }
    forall i | 0 <= i < |items| && Bad(items[i], lens[i]) ensures Report(items, lens, i) in bad {
      assert i in order;
      var j :| 0 <= j < |order| && order[j] == i;
    }
    r := Ok(bad);
  }

  // --- quick_misaligned ----------------------------------------------------------------------------------

  function CountStored(items: seq<Item>): (r: nat) {
    if items == [] then 0 else CountStored(items[..|items| - 1]) + (if items[|items| - 1].rule > 1 then 1 else 0)
  }

  /** Entry i is among the first `sample` aligned entries (a sample of 0 reads one all the same). */
  ghost predicate Sampled(items: seq<Item>, i: nat, sample: nat)
    requires i < |items|
  {
    items[i].rule > 1 && CountStored(items[..i]) < Max(sample, 1)
  }

  ghost predicate Readable(file: seq<byte>, end: nat, it: Item)
    requires end <= |file|
  {
    it.off + LFH_LEN <= end && DirectRead(file, it.off).Some?
  }

  ghost predicate ProvenBad(file: seq<byte>, end: nat, it: Item)
    requires end <= |file|
  {
    Readable(file, end, it) && Bad(it, DirectRead(file, it.off).value)
  }

  datatype QuickError = NotInSection(at: nat) | NoHeaderAt(at: nat)

  /** The first `n` entries hold no sampled one that is unreadable or misaligned. */
  ghost predicate FineUpTo(file: seq<byte>, end: nat, items: seq<Item>, sample: nat, n: nat)
    requires end <= |file| && n <= |items|
  {
    forall i :: 0 <= i < n && Sampled(items, i, sample) ==>
      Readable(file, end, items[i]) && !ProvenBad(file, end, items[i])
  }

  /** The first sampled entry that is not fine is misaligned. */
  ghost predicate QuickYes(file: seq<byte>, end: nat, items: seq<Item>, sample: nat)
    requires end <= |file|
  {
    exists i :: 0 <= i < |items| && Sampled(items, i, sample) && ProvenBad(file, end, items[i])
      && FineUpTo(file, end, items, sample, i)
  }

  /** The first sampled entry that is not fine cannot be read. */
  ghost predicate QuickFails(file: seq<byte>, end: nat, items: seq<Item>, sample: nat)
    requires end <= |file|
  {
    exists i :: 0 <= i < |items| && Sampled(items, i, sample) && !Readable(file, end, items[i])
      && FineUpTo(file, end, items, sample, i)
  }

  /** At most one of the three ways to end. */
  lemma QuickOnce(file: seq<byte>, end: nat, items: seq<Item>, sample: nat)
    requires end <= |file|
    ensures !(QuickYes(file, end, items, sample) && QuickFails(file, end, items, sample))
    ensures FineUpTo(file, end, items, sample, |items|) ==>
      !QuickYes(file, end, items, sample) && !QuickFails(file, end, items, sample)
  {
    hide Sampled, Readable, Bad;
  }

  /** `quick_misaligned`: what it says is what the first sampled entry that is unreadable or
      misaligned says. */
  method QuickMisaligned(file: seq<byte>, items: seq<Item>, end: nat, sample: nat) returns (r: Result<bool, QuickError>)
    requires end <= |file|
    ensures r == Ok(true) <==> QuickYes(file, end, items, sample)
    ensures r.Err? <==> QuickFails(file, end, items, sample)
    ensures r == Ok(false) <==> FineUpTo(file, end, items, sample, |items|)
  {
    hide DirectRead, Bad, QuickYes, QuickFails;
    QuickOnce(file, end, items, sample);
    var seen: nat := 0;
    for k := 0 to |items|
      invariant seen == CountStored(items[..k]) && seen < Max(sample, 1)
      invariant FineUpTo(file, end, items, sample, k)
    {
      var e := items[k];
      assert items[..k + 1][..k] == items[..k];
      if e.rule > 1 {
        StopsHere(file, end, items, sample, k);
        if e.off + LFH_LEN > end {
          return Err(NotInSection(e.off));
        }
        var l := DirectRead(file, e.off);
        if l.None? {
          return Err(NoHeaderAt(e.off));
        }
        if Bad(e, l.value) {
          return Ok(true);
        }
        seen := seen + 1;
        if seen >= sample {
          SampleDone(items, k + 1, sample);
          return Ok(false);
        }
      }
    }
    r := Ok(false);
  }

  lemma StopsHere(file: seq<byte>, end: nat, items: seq<Item>, sample: nat, k: nat)
    requires end <= |file| && k < |items| && FineUpTo(file, end, items, sample, k) && Sampled(items, k, sample)
    ensures ProvenBad(file, end, items[k]) ==> QuickYes(file, end, items, sample)
    ensures !Readable(file, end, items[k]) ==> QuickFails(file, end, items, sample)
  {
    hide Sampled, Readable, Bad, FineUpTo;
  }

  lemma {:induction false} CountGrows(items: seq<Item>, i: nat, j: nat)
    requires i <= j <= |items|
    ensures CountStored(items[..i]) <= CountStored(items[..j])
  {
    if i < j {
      CountGrows(items, i, j - 1);
      assert items[..j][..j - 1] == items[..j - 1];
    }
  }

  lemma SampleDone(items: seq<Item>, n: nat, sample: nat)
    requires n <= |items| && CountStored(items[..n]) >= Max(sample, 1)
    ensures forall i :: n <= i < |items| ==> !Sampled(items, i, sample)
  {
    forall i | n <= i < |items| ensures !Sampled(items, i, sample) {
      CountGrows(items, n, i);
    }
  }

  // --- The full check --------------------------------------------------------------------------------

  ghost predicate AllReadable(file: seq<byte>, end: nat, items: seq<Item>)
    requires end <= |file|
  {
    forall i :: 0 <= i < |items| ==> Readable(file, end, items[i])
  }

  /** Every entry's lengths, by direct reads. */
  function DirectLens(file: seq<byte>, end: nat, items: seq<Item>): (r: seq<Lens>)
    requires end <= |file|
    ensures |r| == |items|
  {
    seq(|items|, i requires 0 <= i < |items| =>
      if items[i].off + LFH_LEN <= end && DirectRead(file, items[i].off).Some? then DirectRead(file, items[i].off).value
      else (0, 0))
  }

  ghost predicate SomeBad(file: seq<byte>, end: nat, items: seq<Item>)
    requires end <= |file|
  {
    exists i :: 0 <= i < |items| && ProvenBad(file, end, items[i])
  }

  /** The inspector and the check succeed: every header can be read, and none overruns. */
  ghost predicate Sound(file: seq<byte>, end: nat, items: seq<Item>)
    requires end <= |file|
  {
    AllReadable(file, end, items) && NoOverrun(items, DirectLens(file, end, items), end)
  }

  /** When `sign_one` can decide whether to rewrite: the headers are in order, and either the quick
      test says yes or the full check succeeds. */
  ghost predicate Decidable(file: seq<byte>, end: nat, items: seq<Item>, sample: nat)
    requires end <= |file|
  {
    && AllInside(items, end) && DistinctOffsets(items)
    && (QuickYes(file, end, items, sample) || Sound(file, end, items))
  }

  datatype InspectCheckError = Inspect(i: InspectError) | Checked(c: CheckError)

  /** The inspector's lengths and the check, once the digest has delivered its chunks: whether some
      entry is misaligned by a direct read. */
  method FullCheck(file: seq<byte>, end: nat, tail: seq<byte>, items: seq<Item>, order: seq<nat>, claims: seq<nat>)
    returns (r: Result<bool, InspectCheckError>)
    requires end <= |file| && FileOrder(order, items) && AllInside(items, end) && DistinctOffsets(items)
    requires Delivers(Source(Some(0), file[..end], tail), claims)
    ensures r.Ok? <==> Sound(file, end, items)
    ensures r.Ok? ==> (r.value <==> SomeBad(file, end, items))
  {
    hide DirectRead, Bad, FileOrder, NoOverrun;
    var lens := InspectSection(file, end, tail, items, order, claims, false);
    if lens.Err? { return Err(Inspect(lens.error)); }
    assert lens.value == DirectLens(file, end, items);
    var bad := Check(items, lens.value, end);
    if bad.Err? { return Err(Checked(bad.error)); }
    if bad.value != [] {
      var m := bad.value[0];
      assert m in bad.value && ProvenBad(file, end, items[m.i]);
    }
    r := Ok(bad.value != []);
  }

  /** The quick test never contradicts the check: after it says yes, the check of the same file, given
      what direct reads give, reports something or fails. */
  method QuickThenCheck(file: seq<byte>, items: seq<Item>, end: nat, sample: nat, lens: seq<Lens>)
    returns (q: Result<bool, QuickError>, r: Result<seq<Misaligned>, CheckError>)
    requires end <= |file| && |lens| == |items|
    requires forall i ::
      0 <= i < |items| && Readable(file, end, items[i]) ==> DirectRead(file, items[i].off) == Some(lens[i])
    ensures q == Ok(true) ==> r != Ok([])
  {
    hide DirectRead, Bad;
    q := QuickMisaligned(file, items, end, sample);
    r := Check(items, lens, end);
    if q == Ok(true) && r.Ok? {
      ghost var i :| 0 <= i < |items| && Sampled(items, i, sample) && ProvenBad(file, end, items[i])
        && FineUpTo(file, end, items, sample, i);
      assert Bad(items[i], lens[i]) && Report(items, lens, i) in r.value;
    }
  }

  /** A quick yes is a misaligned entry; with no misaligned entry the full check decides alone. */
  lemma QuickIsBad(file: seq<byte>, end: nat, items: seq<Item>, sample: nat)
    requires end <= |file|
    ensures QuickYes(file, end, items, sample) ==> SomeBad(file, end, items)
    ensures QuickFails(file, end, items, sample) ==> !AllReadable(file, end, items)
  {
    hide Sampled, Bad, FineUpTo;
  }
}
