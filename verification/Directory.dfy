/** The Central Directory side of `rewrite` in src/align.rs: the file order of the entries, and the
    new directory with its patched offsets. */
module Directory {
  import opened Wrappers
  import opened Bytes
  import opened Zip
  import opened Planner

  /** The planner's view of a directory record. */
  function ItemOf(r: seq<byte>, libPageSize: nat): (it: Item)
    requires IsRecord(r)
    ensures it.rule >= 1 && it.off < U32_MOD
  {
    Item(U32(r, 42), U32(r, 20), (U16(r, 8) / 8) % 2 == 1,
         RequiredAlignment(RecordName(r), U16(r, 10), libPageSize), Policy(RecordName(r)))
  }

  function ItemsOf(rs: seq<seq<byte>>, libPageSize: nat): (r: seq<Item>)
    requires AllRecords(rs)
    ensures |r| == |rs|
  {
    seq(|rs|, i requires 0 <= i < |rs| => ItemOf(rs[i], libPageSize))
  }

  // --- file_order ----------------------------------------------------------------------------------

  /** Where a stable sort by offset puts index `i` among the sorted `s`: after equal keys. */
  function Insert(items: seq<Item>, s: seq<nat>, i: nat): (r: seq<nat>)
    requires i < |items| && forall k :: 0 <= k < |s| ==> s[k] < |items|
    ensures |r| == |s| + 1 && forall k :: 0 <= k < |r| ==> r[k] < |items|
  {
    if s == [] then [i]
    else if items[s[|s| - 1]].off <= items[i].off then s + [i]
    else Insert(items, s[..|s| - 1], i) + [s[|s| - 1]]
  }

  /** `order.sort_by_key(|&i| entries[i].lfh_off)`. */
  function SortByOffset(items: seq<Item>, n: nat): (r: seq<nat>)
    requires n <= |items|
    ensures |r| == n && forall k :: 0 <= k < n ==> r[k] < |items|
  {
    if n == 0 then [] else Insert(items, SortByOffset(items, n - 1), n - 1)
  }

  ghost predicate Ascending(items: seq<Item>, s: seq<nat>)
    requires forall k :: 0 <= k < |s| ==> s[k] < |items|
  {
    forall j, k :: 0 <= j < k < |s| ==> items[s[j]].off <= items[s[k]].off
  }

  lemma {:induction false} InsertSorts(items: seq<Item>, s: seq<nat>, i: nat)
    requires i < |items| && (forall k :: 0 <= k < |s| ==> s[k] < |items|) && Ascending(items, s)
    ensures Ascending(items, Insert(items, s, i))
    ensures forall x :: x in Insert(items, s, i) <==> x in s || x == i
  {
    if s != [] && items[s[|s| - 1]].off > items[i].off {
      var (init, l) := (s[..|s| - 1], s[|s| - 1]);
      InsertSorts(items, init, i);
      assert s == init + [l];
      var r := Insert(items, init, i);
      forall k | 0 <= k < |r| ensures items[r[k]].off <= items[l].off {
        assert r[k] in r;
        if r[k] != i {
          var m :| 0 <= m < |init| && init[m] == r[k];
          assert s[m] == r[k];
        }
      }
    }
  }

  lemma {:induction false} SortSorts(items: seq<Item>, n: nat)
    requires n <= |items|
    ensures Ascending(items, SortByOffset(items, n))
    ensures forall x: nat :: x in SortByOffset(items, n) <==> x < n
  {
    if n > 0 {
      SortSorts(items, n - 1);
      InsertSorts(items, SortByOffset(items, n - 1), n - 1);
    }
  }

  ghost predicate AllInside(items: seq<Item>, end: nat) {
    forall i :: 0 <= i < |items| ==> items[i].off + LFH_LEN <= end
  }

  ghost predicate DistinctOffsets(items: seq<Item>) {
    forall i, j :: 0 <= i < j < |items| ==> items[i].off != items[j].off
  }

  /** `file_order`: succeeds exactly when the headers are distinct and inside the section. */
  method MakeFileOrder(items: seq<Item>, end: nat) returns (r: Result<seq<nat>, PlanError>)
    ensures r.Ok? <==> AllInside(items, end) && DistinctOffsets(items)
    ensures r.Ok? ==> FileOrder(r.value, items)
  {
    var order := SortByOffset(items, |items|);
    SortSorts(items, |items|);
    hide SortByOffset, Ascending, DistinctOffsets, AllInside, FileOrder;
    hide InsideUpTo, RisingUpTo;
    NothingYet(items, order, end);
    for k := 0 to |order|
      invariant InsideUpTo(items, order, end, k) && RisingUpTo(items, order, k)
    {
      var off := items[order[k]].off;
      if off + LFH_LEN > end {
        NotInside(items, order[k], end);
        return Err(OutsideSection(off));
      }
      if k > 0 && items[order[k - 1]].off == off {
        TwoAlike(items, order, k);
        return Err(SharedOffset(off));
      }
      OneMore(items, order, end, k);
    }
    Finish(items, order, end);
    r := Ok(order);
  }

  /** Distinct headers have a file order. */
  lemma OrderExists(items: seq<Item>, end: nat)
    requires AllInside(items, end) && DistinctOffsets(items)
    ensures FileOrder(SortByOffset(items, |items|), items)
  {
    hide FileOrder, SortByOffset, DistinctOffsets;
    var order := SortByOffset(items, |items|);
    SortSorts(items, |items|);
    forall j | 0 < j < |order| ensures items[order[j - 1]].off < items[order[j]].off {
      if items[order[j - 1]].off == items[order[j]].off { TwoAlike(items, order, j); }
    }
    Finish(items, order, end);
  }

  ghost predicate InsideUpTo(items: seq<Item>, order: seq<nat>, end: nat, k: nat)
    requires k <= |order| && forall j :: 0 <= j < |order| ==> order[j] < |items|
  {
    forall j :: 0 <= j < k ==> items[order[j]].off + LFH_LEN <= end
  }

  ghost predicate RisingUpTo(items: seq<Item>, order: seq<nat>, k: nat)
    requires k <= |order| && forall j :: 0 <= j < |order| ==> order[j] < |items|
  {
    forall j :: 0 < j < k ==> items[order[j - 1]].off < items[order[j]].off
  }

  lemma NothingYet(items: seq<Item>, order: seq<nat>, end: nat)
    requires forall j :: 0 <= j < |order| ==> order[j] < |items|
    ensures InsideUpTo(items, order, end, 0) && RisingUpTo(items, order, 0)
  {
  }

  lemma OneMore(items: seq<Item>, order: seq<nat>, end: nat, k: nat)
    requires k < |order| && forall j :: 0 <= j < |order| ==> order[j] < |items|
    requires InsideUpTo(items, order, end, k) && RisingUpTo(items, order, k)
    requires items[order[k]].off + LFH_LEN <= end && (k > 0 ==> items[order[k - 1]].off < items[order[k]].off)
    ensures InsideUpTo(items, order, end, k + 1) && RisingUpTo(items, order, k + 1)
  {
  }

  lemma Finish(items: seq<Item>, order: seq<nat>, end: nat)
    requires |order| == |items| && (forall k :: 0 <= k < |order| ==> order[k] < |items|)
      && (forall i: nat :: i < |items| ==> i in order)
    requires InsideUpTo(items, order, end, |order|) && RisingUpTo(items, order, |order|)
    ensures AllInside(items, end) && DistinctOffsets(items) && FileOrder(order, items)
  {
    Strict(items, order);
    AllCovered(items, order, end);
  }

  lemma NotInside(items: seq<Item>, i: nat, end: nat)
    requires i < |items| && items[i].off + LFH_LEN > end
    ensures !AllInside(items, end)
  {
  }

  ghost predicate NoRepeat(s: seq<nat>) {
    forall j, k :: 0 <= j < k < |s| ==> s[j] != s[k]
  }

  lemma {:induction false} SortNoRepeat(items: seq<Item>, n: nat)
    requires n <= |items|
    ensures NoRepeat(SortByOffset(items, n))
  {
    hide NoRepeat, Ascending, Insert, SortByOffset;
    SortUnfold(items, n);
    if n == 0 {
      NoRepeatEmpty();
    } else {
      SortNoRepeat(items, n - 1);
      SortSorts(items, n - 1);
      InsertNoRepeat(items, SortByOffset(items, n - 1), n - 1);
    }
  }

  lemma SortUnfold(items: seq<Item>, n: nat)
    requires n <= |items|
    ensures SortByOffset(items, n) == if n == 0 then [] else Insert(items, SortByOffset(items, n - 1), n - 1)
  {
  }

  lemma NoRepeatEmpty()
    ensures NoRepeat([])
  {
  }

  lemma NoRepeatSnoc(s: seq<nat>, l: nat)
    ensures NoRepeat(s) && l !in s ==> NoRepeat(s + [l])
    ensures NoRepeat(s + [l]) ==> NoRepeat(s) && l !in s
  {
    var t := s + [l];
    if NoRepeat(t) {
      forall j, k | 0 <= j < k < |s| ensures s[j] != s[k] {
        assert t[j] != t[k];
      }
      forall j | 0 <= j < |s| ensures s[j] != l {
        assert t[j] != t[|s|];
      }
    }
  }

  lemma {:induction false} InsertNoRepeat(items: seq<Item>, s: seq<nat>, i: nat)
    requires i < |items| && (forall k :: 0 <= k < |s| ==> s[k] < |items|) && i !in s && NoRepeat(s)
    ensures forall x :: x in Insert(items, s, i) <==> x in s || x == i
    ensures NoRepeat(Insert(items, s, i))
  {
    hide NoRepeat;
    NoRepeatSnoc(s, i);
    if s == [] {
      NoRepeatEmpty();
      NoRepeatSnoc([], i);
      assert [] + [i] == [i];
    } else if items[s[|s| - 1]].off > items[i].off {
      var (init, l) := (s[..|s| - 1], s[|s| - 1]);
      assert s == init + [l];
      NoRepeatSnoc(init, l);
      InsertNoRepeat(items, init, i);
      NoRepeatSnoc(Insert(items, init, i), l);
    }
  }

  lemma TwoAlike(items: seq<Item>, order: seq<nat>, k: nat)
    requires order == SortByOffset(items, |items|) && 0 < k < |order|
    requires items[order[k - 1]].off == items[order[k]].off
    ensures !DistinctOffsets(items)
  {
    SortNoRepeat(items, |items|);
    var (a, b) := (order[k - 1], order[k]);
    assert a != b;
    if a < b { assert items[a].off == items[b].off; } else { assert items[b].off == items[a].off; }
  }

  lemma {:induction false} Strict(items: seq<Item>, order: seq<nat>)
    requires forall k :: 0 <= k < |order| ==> order[k] < |items|
    requires forall j :: 0 < j < |order| ==> items[order[j - 1]].off < items[order[j]].off
    ensures forall j, k :: 0 <= j < k < |order| ==> items[order[j]].off < items[order[k]].off
  {
    if |order| > 1 {
      var init := order[..|order| - 1];
      Strict(items, init);
      forall j, k | 0 <= j < k < |order|
        ensures items[order[j]].off < items[order[k]].off
      {
        if k == |order| - 1 && j < k - 1 {
          assert items[init[j]].off < items[init[k - 1]].off;
        } else if k < |order| - 1 {
          assert items[init[j]].off < items[init[k]].off;
        }
      }
    }
  }

  lemma AllCovered(items: seq<Item>, order: seq<nat>, end: nat)
    requires (forall k :: 0 <= k < |order| ==> order[k] < |items|) && (forall i: nat :: i < |items| ==> i in order)
    requires forall j :: 0 <= j < |order| ==> items[order[j]].off + LFH_LEN <= end
    requires forall j, k :: 0 <= j < k < |order| ==> items[order[j]].off < items[order[k]].off
    ensures AllInside(items, end) && DistinctOffsets(items)
  {
    forall i | 0 <= i < |items| ensures items[i].off + LFH_LEN <= end {
      assert i in order;
    }
    forall i, j | 0 <= i < j < |items| ensures items[i].off != items[j].off {
      assert i in order && j in order;
      var a :| 0 <= a < |order| && order[a] == i;
      var b :| 0 <= b < |order| && order[b] == j;
      assert a != b;
    }
  }

  // --- New offsets ---------------------------------------------------------------------------------

  /** Where the record that was at `off` went. */
  function NewOffset(segs: seq<Segment>, off: nat): (r: Option<nat>) {
    if segs == [] then None
    else if segs[0].Record? && segs[0].item.off == off then Some(segs[0].newOff)
    else NewOffset(segs[1..], off)
  }

  ghost predicate StrictOffsets(items: seq<Item>) {
    forall j, k :: 0 <= j < k < |items| ==> items[j].off < items[k].off
  }

  lemma {:induction false} OutputItemsStrict(items: seq<Item>)
    requires StrictOffsets(items)
    ensures StrictOffsets(OutputItems(items))
    ensures forall x :: x in OutputItems(items) <==> x in items && x.policy == Output
  {
    if items != [] {
      OutputItemsStrict(items[1..]);
      var rest := OutputItems(items[1..]);
      forall k | 0 <= k < |rest| ensures items[0].off < rest[k].off {
        assert rest[k] in rest;
        assert rest[k] in items[1..];
      }
      assert forall x :: x in items <==> x == items[0] || x in items[1..];
    }
  }

  /** A record's offset leads to that record, and every offset found leads to a record. */
  lemma {:induction false} NewOffsetFinds(segs: seq<Segment>, off: nat)
    requires StrictOffsets(RecordItems(segs))
    ensures NewOffset(segs, off).Some? <==> exists it :: it in RecordItems(segs) && it.off == off
    ensures forall k ::
      0 <= k < |segs| && segs[k].Record? && segs[k].item.off == off ==> NewOffset(segs, off) == Some(segs[k].newOff)
    ensures NewOffset(segs, off).Some? ==>
      exists k :: 0 <= k < |segs| && segs[k].Record? && segs[k].item.off == off
        && segs[k].newOff == NewOffset(segs, off).value
  {
    if segs != [] {
      var (s, rest) := (segs[0], segs[1..]);
      var items := RecordItems(segs);
      assert items == (if s.Record? then [s.item] else []) + RecordItems(rest);
      assert StrictOffsets(RecordItems(rest)) by {
        var d := |items| - |RecordItems(rest)|;
        forall j, k | 0 <= j < k < |RecordItems(rest)| ensures RecordItems(rest)[j].off < RecordItems(rest)[k].off {
          assert items[j + d].off < items[k + d].off;
        }
      }
      NewOffsetFinds(rest, off);
      RecordIn(rest);
      if s.Record? {
        assert items[0] == s.item;
        forall k | 0 <= k < |rest| && rest[k].Record? ensures rest[k].item.off > s.item.off {
          assert rest[k].item in RecordItems(rest);
          var m :| 0 <= m < |RecordItems(rest)| && RecordItems(rest)[m] == rest[k].item;
          assert items[m + 1] == rest[k].item;
        }
        if s.item.off == off {
          assert s.item in items;
        }
      }
      forall k | 0 <= k < |segs| && segs[k].Record? && segs[k].item.off == off
        ensures NewOffset(segs, off) == Some(segs[k].newOff)
      {
        if k > 0 { assert rest[k - 1] == segs[k]; }
      }
      if NewOffset(segs, off).Some? && !(s.Record? && s.item.off == off) {
        var k :| 0 <= k < |rest| && rest[k].Record? && rest[k].item.off == off
          && rest[k].newOff == NewOffset(rest, off).value;
        assert segs[k + 1] == rest[k];
      }
    }
  }

  lemma {:induction false} RecordIn(segs: seq<Segment>)
    ensures forall k :: 0 <= k < |segs| && segs[k].Record? ==> segs[k].item in RecordItems(segs)
    ensures forall it :: it in RecordItems(segs) ==> exists k ::
      0 <= k < |segs| && segs[k].Record? && segs[k].item == it
  {
    if segs != [] {
      RecordIn(segs[1..]);
      forall k | 0 <= k < |segs| && segs[k].Record? ensures segs[k].item in RecordItems(segs) {
        if k > 0 { assert segs[1..][k - 1] == segs[k]; }
      }
      forall it | it in RecordItems(segs) ensures exists k :: 0 <= k < |segs| && segs[k].Record? && segs[k].item == it {
        if it in RecordItems(segs[1..]) {
          var k :| 0 <= k < |segs[1..]| && segs[1..][k].Record? && segs[1..][k].item == it;
          assert segs[k + 1] == segs[1..][k];
        } else {
          assert segs[0].Record? && segs[0].item == it;
        }
      }
    }
  }

  // --- The new Central Directory ---------------------------------------------------------------------

  function PatchRecord(r: seq<byte>, off: nat): (v: seq<byte>)
    requires IsRecord(r)
  {
    Patched(r, 42, PutU32(off))
  }

  /** The records of the new directory: original order, output entries only, offsets patched. */
  function NewRecords(rs: seq<seq<byte>>, items: seq<Item>, segs: seq<Segment>): (r: seq<seq<byte>>)
    requires AllRecords(rs) && |items| == |rs|
  {
    if rs == [] then []
    else
      var n := |rs| - 1;
      var o := NewOffset(segs, items[n].off);
      NewRecords(rs[..n], items[..n], segs) + (if o.Some? then [PatchRecord(rs[n], o.value)] else [])
  }

  /** A patched record is the same entry with another offset (truncated to 32 bits, as stored). */
  lemma PatchedIsSame(r: seq<byte>, off: nat, libPageSize: nat)
    requires IsRecord(r)
    ensures IsRecord(PatchRecord(r, off)) && RecordName(PatchRecord(r, off)) == RecordName(r)
    ensures ItemOf(PatchRecord(r, off), libPageSize) == ItemOf(r, libPageSize).(off := off % U32_MOD)
  {
    hide LE, Policy, RequiredAlignment;
    var p := PatchRecord(r, off);
    assert p[..42] == r[..42] && p[46..] == r[46..];
    assert p[..4] == p[..42][..4] && r[..4] == r[..42][..4];
    SameBefore(p, r, 8, 2); SameBefore(p, r, 10, 2); SameBefore(p, r, 20, 4);
    SameBefore(p, r, 28, 2); SameBefore(p, r, 30, 2); SameBefore(p, r, 32, 2);
    assert p[42..42 + 4] == PutU32(off)[0..0 + 4];
    var n := U16(r, 28);
    assert p[46..46 + n] == p[46..][..n] && r[46..46 + n] == r[46..][..n];
  }

  lemma SameBefore(p: seq<byte>, r: seq<byte>, i: nat, n: nat)
    requires |p| == |r| >= 46 && p[..42] == r[..42] && i + n <= 42
    ensures p[i..i + n] == r[i..i + n]
  {
    assert p[..42] == p[0..0 + 42] && r[..42] == r[0..0 + 42];
    SubSlice(p, 0, 42, i, i + n);
    SubSlice(r, 0, 42, i, i + n);
  }

  lemma {:induction false} NewRecordsOk(rs: seq<seq<byte>>, items: seq<Item>, segs: seq<Segment>)
    requires AllRecords(rs) && |items| == |rs|
    ensures AllRecords(NewRecords(rs, items, segs))
  {
    hide PatchRecord;
    if rs != [] {
      var n := |rs| - 1;
      NewRecordsOk(rs[..n], items[..n], segs);
      var o := NewOffset(segs, items[n].off);
      if o.Some? {
        PatchedIsSame(rs[n], o.value, 0);
      }
    }
  }

  /** The new offset noted for entry `i` by the loop over the plans. */
  ghost predicate OffsetsNoted(newOff: seq<Option<nat>>, items: seq<Item>, segs: seq<Segment>) {
    && |newOff| == |items|
    && forall i :: 0 <= i < |items| ==> newOff[i] == NewOffset(segs, items[i].off)
  }

  ghost predicate HasRecord(segs: seq<Segment>, it: Item, o: nat) {
    exists k :: 0 <= k < |segs| && segs[k].Record? && segs[k].item == it && segs[k].newOff == o
  }

  ghost predicate HasPlan(plans: seq<Plan>, items: seq<Item>, it: Item) {
    exists j :: 0 <= j < |plans| && plans[j].idx.Some? && plans[j].idx.value < |items|
      && items[plans[j].idx.value] == it
  }

  lemma HasRecordTail(segs: seq<Segment>, it: Item, o: nat)
    requires segs != [] && HasRecord(segs[1..], it, o)
    ensures HasRecord(segs, it, o)
  {
    var k :| 0 <= k < |segs[1..]| && segs[1..][k].Record? && segs[1..][k].item == it && segs[1..][k].newOff == o;
    assert segs[k + 1] == segs[1..][k];
  }

  lemma HasPlanTail(plans: seq<Plan>, items: seq<Item>, it: Item)
    requires plans != [] && HasPlan(plans[1..], items, it)
    ensures HasPlan(plans, items, it)
  {
    var j :| 0 <= j < |plans[1..]| && plans[1..][j].idx.Some? && plans[1..][j].idx.value < |items|
      && items[plans[1..][j].idx.value] == it;
    assert plans[j + 1] == plans[1..][j];
  }

  /** Every plan of an entry is that entry's record segment. */
  lemma {:induction false} PlanHasRecord(plans: seq<Plan>, segs: seq<Segment>, items: seq<Item>, j: nat)
    requires PlansMatch(plans, segs, items) && j < |plans| && plans[j].idx.Some?
    ensures plans[j].idx.value < |items| && HasRecord(segs, items[plans[j].idx.value], plans[j].newOff)
    decreases |segs|
  {
    hide HasRecord;
    if segs[0].Removed? {
      PlanHasRecord(plans, segs[1..], items, j);
      HasRecordTail(segs, items[plans[j].idx.value], plans[j].newOff);
    } else if j > 0 {
      PlanHasRecord(plans[1..], segs[1..], items, j - 1);
      HasRecordTail(segs, items[plans[j].idx.value], plans[j].newOff);
    } else {
      RecordFirst(plans[0], segs, items);
    }
  }

  lemma RecordFirst(p: Plan, segs: seq<Segment>, items: seq<Item>)
    requires segs != [] && PlanIs(p, segs[0], items) && p.idx.Some?
    ensures p.idx.value < |items| && HasRecord(segs, items[p.idx.value], p.newOff)
  {
  }

  /** Every record segment has its plan. */
  lemma {:induction false} RecordHasPlan(plans: seq<Plan>, segs: seq<Segment>, items: seq<Item>, k: nat)
    requires PlansMatch(plans, segs, items) && k < |segs| && segs[k].Record?
    ensures HasPlan(plans, items, segs[k].item)
    decreases |segs|
  {
    hide HasPlan;
    if segs[0].Removed? {
      RecordHasPlan(plans, segs[1..], items, k - 1);
    } else if k > 0 {
      RecordHasPlan(plans[1..], segs[1..], items, k - 1);
      HasPlanTail(plans, items, segs[k].item);
    } else {
      PlanFirst(plans, segs[0], items);
    }
  }

  lemma PlanFirst(plans: seq<Plan>, s: Segment, items: seq<Item>)
    requires plans != [] && PlanIs(plans[0], s, items) && s.Record?
    ensures HasPlan(plans, items, s.item)
  {
  }

  /** A plan's offset is the new offset of its entry. */
  lemma PlanOffset(plans: seq<Plan>, segs: seq<Segment>, items: seq<Item>, j: nat)
    requires PlansMatch(plans, segs, items) && StrictOffsets(RecordItems(segs)) && j < |plans| && plans[j].idx.Some?
    ensures plans[j].idx.value < |items| && NewOffset(segs, items[plans[j].idx.value].off) == Some(plans[j].newOff)
  {
    hide PlansMatch;
    PlanHasRecord(plans, segs, items, j);
    NewOffsetFinds(segs, items[plans[j].idx.value].off);
  }

  /** An entry with a new offset has a plan. */
  lemma OffsetHasPlan(plans: seq<Plan>, segs: seq<Segment>, items: seq<Item>, i: nat)
    requires PlansMatch(plans, segs, items) && StrictOffsets(RecordItems(segs)) && DistinctOffsets(items)
    requires i < |items| && NewOffset(segs, items[i].off).Some?
    ensures exists j :: 0 <= j < |plans| && plans[j].idx == Some(i)
  {
    hide PlansMatch;
    NewOffsetFinds(segs, items[i].off);
    var k :| 0 <= k < |segs| && segs[k].Record? && segs[k].item.off == items[i].off
      && segs[k].newOff == NewOffset(segs, items[i].off).value;
    RecordHasPlan(plans, segs, items, k);
    var j :| 0 <= j < |plans| && plans[j].idx.Some? && plans[j].idx.value < |items|
      && items[plans[j].idx.value] == segs[k].item;
    assert plans[j].idx.value == i;
  }

  /** The loop that notes each output entry's new offset. */
  method NoteOffsets(plans: seq<Plan>, items: seq<Item>, ghost segs: seq<Segment>) returns (newOff: seq<Option<nat>>)
    requires PlansMatch(plans, segs, items) && DistinctOffsets(items) && StrictOffsets(RecordItems(segs))
    ensures OffsetsNoted(newOff, items, segs)
  {
    hide PlansMatch, NewOffset, RecordItems, DistinctOffsets, StrictOffsets;
    var a := new Option<nat>[|items|](_ => None);
    for j := 0 to |plans|
      invariant forall i :: 0 <= i < |items| ==> a[i] == None || a[i] == NewOffset(segs, items[i].off)
      invariant forall m ::
        0 <= m < j && plans[m].idx.Some? ==> plans[m].idx.value < |items| && a[plans[m].idx.value].Some?
    {
      if plans[j].idx.Some? {
        PlanOffset(plans, segs, items, j);
        a[plans[j].idx.value] := Some(plans[j].newOff);
      }
    }
    newOff := a[..];
    forall i | 0 <= i < |items| ensures newOff[i] == NewOffset(segs, items[i].off) {
      if NewOffset(segs, items[i].off).Some? {
        OffsetHasPlan(plans, segs, items, i);
      }
    }
  }

  /** The loop that writes the new directory. `records[i]` is `cd[e.record]` of entry i. */
  method BuildCd(rs: seq<seq<byte>>, items: seq<Item>, newOff: seq<Option<nat>>, ghost segs: seq<Segment>)
    returns (newCd: seq<byte>, count: nat)
    requires AllRecords(rs) && |items| == |rs| && OffsetsNoted(newOff, items, segs)
    ensures newCd == Concat(NewRecords(rs, items, segs)) && count == |NewRecords(rs, items, segs)|
  {
    hide IsRecord, PatchRecord;
    newCd, count := [], 0;
    for i := 0 to |rs|
      invariant newCd == Concat(NewRecords(rs[..i], items[..i], segs))
        && count == |NewRecords(rs[..i], items[..i], segs)|
    {
      assert rs[..i + 1][..i] == rs[..i] && items[..i + 1][..i] == items[..i];
      if newOff[i].Some? {
        var off := newOff[i].value;
        ConcatSnoc(NewRecords(rs[..i], items[..i], segs), PatchRecord(rs[i], off));
        newCd := Append(newCd, rs[i], off);
        count := count + 1;
      } else {
        assert NewRecords(rs[..i], items[..i], segs) + [] == NewRecords(rs[..i], items[..i], segs);
      }
    }
    assert rs[..|rs|] == rs && items[..|rs|] == items;
  }

  /** Append the record, then overwrite its offset field where it now lies. */
  method Append(cd: seq<byte>, record: seq<byte>, off: nat) returns (r: seq<byte>)
    requires IsRecord(record)
    ensures r == cd + PatchRecord(record, off)
  {
    hide LE, ToLE;
    var start := |cd|;
    r := cd + record;
    r := r[..start + 42] + PutU32(off) + r[start + 46..];
    assert (cd + record)[..start + 42] == cd + record[..42] && (cd + record)[start + 46..] == record[46..];
  }
}
