/** Rewriting twice, Central Directory included (src/align.rs): the second run sees exactly the entries
    the first laid out, and changes neither the section nor the directory. */
module RewriteTwice {
  import opened Wrappers
  import opened Bytes
  import opened Zip
  import opened Planner
  import opened Idempotence
  import opened Directory

  lemma {:induction false} StrictUnique(a: seq<Item>, b: seq<Item>)
    requires StrictOffsets(a) && StrictOffsets(b) && forall x :: x in a <==> x in b
    ensures a == b
  {
    if a == [] {
      FirstIn(b);
    } else {
      assert a[|a| - 1] in b;
      assert b != [] && b[|b| - 1] in a;
      var (x, y) := (a[|a| - 1], b[|b| - 1]);
      LastIsMax(a, y);
      LastIsMax(b, x);
      var (a', b') := (a[..|a| - 1], b[..|b| - 1]);
      assert a == a' + [x] && b == b' + [y];
      SameItem(a, b, x, y);
      InitMembers(a);
      InitMembers(b);
      forall z ensures z in a' <==> z in b' {
        assert z in a' <==> z in a && z != x;
        assert z in b' <==> z in b && z != x;
      }
      StrictUnique(a', b');
    }
  }

  lemma FirstIn(b: seq<Item>)
    ensures b != [] ==> b[0] in b
  {
  }

  lemma LastIsMax(a: seq<Item>, y: Item)
    requires StrictOffsets(a) && y in a
    ensures a != [] && y.off <= a[|a| - 1].off
  {
    var k :| 0 <= k < |a| && a[k] == y;
  }

  lemma SameItem(a: seq<Item>, b: seq<Item>, x: Item, y: Item)
    requires a != [] && b != [] && x == a[|a| - 1] && y == b[|b| - 1] && StrictOffsets(a) && y in a
    requires x.off == y.off
    ensures x == y
  {
    var k :| 0 <= k < |a| && a[k] == y;
    assert k == |a| - 1;
  }

  lemma InitMembers(a: seq<Item>)
    requires a != [] && StrictOffsets(a)
    ensures forall z :: z in a[..|a| - 1] <==> z in a && z != a[|a| - 1]
  {
    var (init, x) := (a[..|a| - 1], a[|a| - 1]);
    assert a == init + [x];
    assert forall k :: 0 <= k < |init| ==> init[k].off < x.off;
  }

  /** Output positions grow along the plan, so the second items are strictly ordered. */
  lemma {:induction false} SecondStrict(segs: seq<Segment>, from: nat, to: nat)
    requires TilesOutput(segs, from, to)
    requires forall i :: 0 <= i < |segs| && segs[i].Record? ==> |segs[i].hdr| >= LFH_LEN
    ensures StrictOffsets(SecondItems(segs))
    ensures from <= to && forall x :: x in SecondItems(segs) ==> from <= x.off && x.off + LFH_LEN <= to
    decreases |segs|
  {
    if segs != [] {
      var (s, rest) := (segs[0], segs[1..]);
      SecondStrict(rest, from + s.OutLen(), to);
      var t := SecondItems(rest);
      forall k | 0 <= k < |t| ensures t[k].off >= from + s.OutLen() {
        assert t[k] in t;
      }
    }
  }

  lemma {:induction false} SecondIn(segs: seq<Segment>)
    ensures forall k :: 0 <= k < |segs| && segs[k].Record? ==> segs[k].item.(off := segs[k].newOff) in SecondItems(segs)
    ensures forall x :: x in SecondItems(segs) ==> exists k ::
      0 <= k < |segs| && segs[k].Record? && segs[k].item.(off := segs[k].newOff) == x
  {
    if segs != [] {
      SecondIn(segs[1..]);
      forall k | 0 <= k < |segs| && segs[k].Record? ensures segs[k].item.(off := segs[k].newOff) in SecondItems(segs) {
        if k > 0 { assert segs[1..][k - 1] == segs[k]; }
      }
      forall x | x in SecondItems(segs)
        ensures exists k :: 0 <= k < |segs| && segs[k].Record? && segs[k].item.(off := segs[k].newOff) == x {
        if x in SecondItems(segs[1..]) {
          var k :| 0 <= k < |segs[1..]| && segs[1..][k].Record? && segs[1..][k].item.(off := segs[1..][k].newOff) == x;
          assert segs[k + 1] == segs[1..][k];
        } else {
          assert segs[0].Record?;
        }
      }
    }
  }

  /** The parsed items of the new directory, in directory order: the old ones with new offsets. */
  lemma {:induction false} NewItems(rs: seq<seq<byte>>, items: seq<Item>, segs: seq<Segment>, libPageSize: nat)
    requires AllRecords(rs) && items == ItemsOf(rs, libPageSize)
    requires forall i ::
      0 <= i < |items| && NewOffset(segs, items[i].off).Some? ==> NewOffset(segs, items[i].off).value < U32_MOD
    ensures AllRecords(NewRecords(rs, items, segs))
    ensures var again := ItemsOf(NewRecords(rs, items, segs), libPageSize);
      forall x :: x in again <==>
        exists i :: 0 <= i < |items| && NewOffset(segs, items[i].off).Some?
          && x == items[i].(off := NewOffset(segs, items[i].off).value)
  {
    hide ItemOf, IsRecord, PatchRecord, NewOffset;
    NewRecordsOk(rs, items, segs);
    if rs != [] {
      var n := |rs| - 1;
      var (rs', items') := (rs[..n], items[..n]);
      assert items' == ItemsOf(rs', libPageSize);
      NewItems(rs', items', segs, libPageSize);
      var (before, again) :=
        (ItemsOf(NewRecords(rs', items', segs), libPageSize), ItemsOf(NewRecords(rs, items, segs), libPageSize));
      var o := NewOffset(segs, items[n].off);
      if o.Some? {
        PatchedIsSame(rs[n], o.value, libPageSize);
        ModUnique(o.value, U32_MOD, 0, o.value);
        assert again == before + [items[n].(off := o.value)];
      } else {
        assert NewRecords(rs, items, segs) == NewRecords(rs', items', segs);
      }
      forall x ensures x in again <==>
        exists i :: 0 <= i < |items| && NewOffset(segs, items[i].off).Some?
          && x == items[i].(off := NewOffset(segs, items[i].off).value)
      {
        if x in before {
          var i :| 0 <= i < |items'| && NewOffset(segs, items'[i].off).Some?
            && x == items'[i].(off := NewOffset(segs, items'[i].off).value);
          assert items[i] == items'[i];
        }
        if i :|
          && 0 <= i < |items| && NewOffset(segs, items[i].off).Some?
          && x == items[i].(off := NewOffset(segs, items[i].off).value) {
          if i < n { assert items'[i] == items[i]; }
        }
      }
    }
  }

  /** A rewrite that succeeded: records, file order, plan. */
  ghost predicate Rewrote(input: seq<byte>, end: nat, rs: seq<seq<byte>>, libPageSize: nat, order: seq<nat>,
                          segs: seq<Segment>) {
    && end <= |input| && AllRecords(rs)
    && var items := ItemsOf(rs, libPageSize);
    && FileOrder(order, items) && AllInside(items, end)
    && ItemsOk(InOrder(order, items), end)
    && PlanFrom(input, end, InOrder(order, items), 0, 0) == Ok(segs)
  }

  lemma OrderedItems(items: seq<Item>, order: seq<nat>)
    requires FileOrder(order, items)
    ensures StrictOffsets(InOrder(order, items)) && DistinctOffsets(items)
    ensures forall x :: x in InOrder(order, items) <==> x in items
  {
    var s := InOrder(order, items);
    forall x | x in items ensures x in s {
      var i :| 0 <= i < |items| && items[i] == x;
      assert i in order;
      var k :| 0 <= k < |order| && order[k] == i;
      assert s[k] == x;
    }
    forall i, j | 0 <= i < j < |items| ensures items[i].off != items[j].off {
      assert i in order && j in order;
      var a :| 0 <= a < |order| && order[a] == i;
      var b :| 0 <= b < |order| && order[b] == j;
      assert a != b;
    }
  }

  /** There is only one file order. */
  lemma SameOrder(items: seq<Item>, a: seq<nat>, b: seq<nat>)
    requires FileOrder(a, items) && FileOrder(b, items)
    ensures InOrder(a, items) == InOrder(b, items)
  {
    OrderedItems(items, a);
    OrderedItems(items, b);
    StrictUnique(InOrder(a, items), InOrder(b, items));
  }

  /** The facts about a rewrite's segments that the second run needs. */
  lemma RewroteFacts(input: seq<byte>, end: nat, rs: seq<seq<byte>>, libPageSize: nat, order: seq<nat>,
                     segs: seq<Segment>)
    requires Rewrote(input, end, rs, libPageSize, order, segs)
    ensures var items := ItemsOf(rs, libPageSize);
      && DistinctOffsets(items) && StrictOffsets(RecordItems(segs))
      && (forall k :: 0 <= k < |segs| && segs[k].Record? ==>
          segs[k].item in items && segs[k].item.policy == Output && |segs[k].hdr| >= LFH_LEN)
      && (forall x :: x in items && x.policy == Output ==> x in RecordItems(segs))
      && TilesOutput(segs, 0, OutLen(segs)) && Inside(input, segs)
  {
    hide PlanFrom, ItemOf, TilesInput, TilesOutput;
    var items := ItemsOf(rs, libPageSize);
    var sorted := InOrder(order, items);
    OrderedItems(items, order);
    OutputItemsStrict(sorted);
    PlanIsGood(input, end, sorted, 0, 0);
    PlanInside(input, end, sorted, 0, 0);
    RecordIn(segs);
    forall k | 0 <= k < |segs| && segs[k].Record?
      ensures segs[k].item in items && segs[k].item.policy == Output && |segs[k].hdr| >= LFH_LEN
    {
      RecordBytesKept(input, end, segs[k]);
      assert segs[k].item in OutputItems(sorted);
    }
  }

  /** What the new directory says of entry i, when it says anything, is the record that was laid out. */
  lemma NewOffsetIsSegment(segs: seq<Segment>, items: seq<Item>, i: nat)
    requires DistinctOffsets(items) && StrictOffsets(RecordItems(segs)) && i < |items|
    requires forall k :: 0 <= k < |segs| && segs[k].Record? ==> segs[k].item in items
    requires NewOffset(segs, items[i].off).Some?
    ensures exists k ::
      && 0 <= k < |segs| && segs[k].Record? && segs[k].item == items[i]
      && segs[k].newOff == NewOffset(segs, items[i].off).value
  {
    NewOffsetFinds(segs, items[i].off);
    var k :| 0 <= k < |segs| && segs[k].Record? && segs[k].item.off == items[i].off
      && segs[k].newOff == NewOffset(segs, items[i].off).value;
    var j :| 0 <= j < |items| && items[j] == segs[k].item;
    assert i == j;
  }

  /** Distinct entries get distinct new offsets. */
  lemma NewOffsetInjective(segs: seq<Segment>, items: seq<Item>, i: nat, j: nat)
    requires DistinctOffsets(items) && StrictOffsets(RecordItems(segs)) && i < |items| && j < |items|
    requires forall k :: 0 <= k < |segs| && segs[k].Record? ==> segs[k].item in items && |segs[k].hdr| >= LFH_LEN
    requires TilesOutput(segs, 0, OutLen(segs))
    requires NewOffset(segs, items[i].off).Some? && NewOffset(segs, items[i].off) == NewOffset(segs, items[j].off)
    ensures i == j
  {
    NewOffsetIsSegment(segs, items, i);
    NewOffsetIsSegment(segs, items, j);
    var o := NewOffset(segs, items[i].off).value;
    var a :| 0 <= a < |segs| && segs[a].Record? && segs[a].item == items[i] && segs[a].newOff == o;
    var b :| 0 <= b < |segs| && segs[b].Record? && segs[b].item == items[j] && segs[b].newOff == o;
    SamePlace(segs, 0, OutLen(segs), a, b);
    assert items[i].off == items[j].off;
  }

  lemma {:induction false} SamePlace(segs: seq<Segment>, from: nat, to: nat, a: nat, b: nat)
    requires TilesOutput(segs, from, to) && a < |segs| && b < |segs|
    requires segs[a].Record? && segs[b].Record? && segs[a].newOff == segs[b].newOff
    requires |segs[a].hdr| > 0 && |segs[b].hdr| > 0
    ensures a == b
    decreases |segs|
  {
    var rest := segs[1..];
    if a > 0 && b > 0 {
      assert rest[a - 1] == segs[a] && rest[b - 1] == segs[b];
      SamePlace(rest, from + segs[0].OutLen(), to, a - 1, b - 1);
    } else if a == 0 && b > 0 {
      assert rest[b - 1] == segs[b];
      PlaceAfter(rest, from + segs[0].OutLen(), to, b - 1);
    } else if b == 0 && a > 0 {
      assert rest[a - 1] == segs[a];
      PlaceAfter(rest, from + segs[0].OutLen(), to, a - 1);
    }
  }

  lemma {:induction false} PlaceAfter(segs: seq<Segment>, from: nat, to: nat, k: nat)
    requires TilesOutput(segs, from, to) && k < |segs|
    ensures segs[k].newOff >= from && segs[k].newOff + segs[k].OutLen() <= to
    decreases |segs|
  {
    if k > 0 {
      assert segs[1..][k - 1] == segs[k];
      PlaceAfter(segs[1..], from + segs[0].OutLen(), to, k - 1);
    } else {
      TilesEnd(segs[1..], from + segs[0].OutLen(), to);
    }
  }

  lemma {:induction false} TilesEnd(segs: seq<Segment>, from: nat, to: nat)
    requires TilesOutput(segs, from, to)
    ensures from <= to
    decreases |segs|
  {
    if segs != [] { TilesEnd(segs[1..], from + segs[0].OutLen(), to); }
  }

  lemma {:induction false} NewItemsDistinct(rs: seq<seq<byte>>, items: seq<Item>, segs: seq<Segment>, libPageSize: nat)
    requires AllRecords(rs) && items == ItemsOf(rs, libPageSize)
    requires forall i ::
      0 <= i < |items| && NewOffset(segs, items[i].off).Some? ==> NewOffset(segs, items[i].off).value < U32_MOD
    requires forall i, j {:trigger NewOffset(segs, items[i].off), NewOffset(segs, items[j].off)} ::
      0 <= i < j < |items| && NewOffset(segs, items[i].off).Some? ==>
        NewOffset(segs, items[i].off) != NewOffset(segs, items[j].off)
    ensures AllRecords(NewRecords(rs, items, segs))
    ensures DistinctOffsets(ItemsOf(NewRecords(rs, items, segs), libPageSize))
  {
    hide ItemOf, IsRecord, PatchRecord, NewOffset;
    NewRecordsOk(rs, items, segs);
    if rs != [] {
      var n := |rs| - 1;
      var (rs', items') := (rs[..n], items[..n]);
      assert items' == ItemsOf(rs', libPageSize);
      assert forall i :: 0 <= i < n ==> items'[i] == items[i];
      NewItemsDistinct(rs', items', segs, libPageSize);
      NewItems(rs', items', segs, libPageSize);
      var before := ItemsOf(NewRecords(rs', items', segs), libPageSize);
      var o := NewOffset(segs, items[n].off);
      if o.Some? {
        PatchedIsSame(rs[n], o.value, libPageSize);
        ModUnique(o.value, U32_MOD, 0, o.value);
        var it := items[n].(off := o.value);
        assert ItemsOf(NewRecords(rs, items, segs), libPageSize) == before + [it];
        forall k | 0 <= k < |before| ensures before[k].off != it.off {
          assert before[k] in before;
          var i :| 0 <= i < |items'| && NewOffset(segs, items'[i].off).Some?
            && before[k] == items'[i].(off := NewOffset(segs, items'[i].off).value);
          assert items'[i] == items[i];
        }
      } else {
        assert NewRecords(rs, items, segs) == NewRecords(rs', items', segs);
      }
    }
  }

  /** The parsed new directory lists the rewritten entries: its headers are distinct and inside the
      section, and in file order they are exactly the second items. */
  lemma SecondDirectory(input: seq<byte>, end: nat, rs: seq<seq<byte>>, libPageSize: nat, order: seq<nat>,
                        segs: seq<Segment>)
    requires Rewrote(input, end, rs, libPageSize, order, segs) && OutLen(segs) <= U32_MOD
    ensures var rs2 := NewRecords(rs, ItemsOf(rs, libPageSize), segs);
      && AllRecords(rs2)
      && var items2 := ItemsOf(rs2, libPageSize);
      && DistinctOffsets(items2) && AllInside(items2, OutLen(segs))
      && (forall x :: x in items2 <==> x in SecondItems(segs))
      && forall order2 :: FileOrder(order2, items2) ==> InOrder(order2, items2) == SecondItems(segs)
  {
    hide PlanFrom, ItemOf, TilesInput, TilesOutput, NewOffset, RecordItems;
    var items := ItemsOf(rs, libPageSize);
    RewroteFacts(input, end, rs, libPageSize, order, segs);
    forall i | 0 <= i < |items| && NewOffset(segs, items[i].off).Some?
      ensures NewOffset(segs, items[i].off).value < U32_MOD
    {
      NewOffsetIsSegment(segs, items, i);
      var k :| 0 <= k < |segs| && segs[k].Record? && segs[k].item == items[i]
        && segs[k].newOff == NewOffset(segs, items[i].off).value;
      PlaceAfter(segs, 0, OutLen(segs), k);
    }
    forall i, j {:trigger NewOffset(segs, items[i].off), NewOffset(segs, items[j].off)} |
      0 <= i < j < |items| && NewOffset(segs, items[i].off).Some?
      ensures NewOffset(segs, items[i].off) != NewOffset(segs, items[j].off)
    {
      if NewOffset(segs, items[i].off) == NewOffset(segs, items[j].off) {
        NewOffsetInjective(segs, items, i, j);
      }
    }
    NewItemsDistinct(rs, items, segs, libPageSize);
    NewItems(rs, items, segs, libPageSize);
    var items2 := ItemsOf(NewRecords(rs, items, segs), libPageSize);
    SameMembers(items, segs, items2);
    SecondStrict(segs, 0, OutLen(segs));
    forall i | 0 <= i < |items2| ensures items2[i].off + LFH_LEN <= OutLen(segs) {
      assert items2[i] in items2;
    }
    forall order2 | FileOrder(order2, items2) ensures InOrder(order2, items2) == SecondItems(segs) {
      OrderedItems(items2, order2);
      StrictUnique(InOrder(order2, items2), SecondItems(segs));
    }
  }

  lemma SameMembers(items: seq<Item>, segs: seq<Segment>, items2: seq<Item>)
    requires DistinctOffsets(items) && StrictOffsets(RecordItems(segs))
    requires forall k :: 0 <= k < |segs| && segs[k].Record? ==> segs[k].item in items
    requires forall x :: x in items2 <==>
      exists i :: 0 <= i < |items| && NewOffset(segs, items[i].off).Some?
        && x == items[i].(off := NewOffset(segs, items[i].off).value)
    ensures forall x :: x in items2 <==> x in SecondItems(segs)
  {
    hide NewOffset, RecordItems;
    SecondIn(segs);
    forall x ensures x in items2 <==> x in SecondItems(segs) {
      if x in items2 {
        var i :| 0 <= i < |items| && NewOffset(segs, items[i].off).Some?
          && x == items[i].(off := NewOffset(segs, items[i].off).value);
        NewOffsetIsSegment(segs, items, i);
        var k :| 0 <= k < |segs| && segs[k].Record? && segs[k].item == items[i]
          && segs[k].newOff == NewOffset(segs, items[i].off).value;
        assert segs[k].item.(off := segs[k].newOff) == x;
      }
      if x in SecondItems(segs) {
        var k :| 0 <= k < |segs| && segs[k].Record? && segs[k].item.(off := segs[k].newOff) == x;
        var i :| 0 <= i < |items| && items[i] == segs[k].item;
        NewOffsetFinds(segs, items[i].off);
        assert x == items[i].(off := NewOffset(segs, items[i].off).value);
      }
    }
  }

  /** When no record moves, the new directory is the old one. */
  lemma {:induction false} SameRecords(rs: seq<seq<byte>>, items: seq<Item>, segs: seq<Segment>, libPageSize: nat)
    requires AllRecords(rs) && items == ItemsOf(rs, libPageSize)
    requires forall i :: 0 <= i < |items| ==> NewOffset(segs, items[i].off) == Some(items[i].off)
    ensures NewRecords(rs, items, segs) == rs
  {
    hide IsRecord, NewOffset, PatchRecord;
    if rs != [] {
      var n := |rs| - 1;
      var (rs', items') := (rs[..n], items[..n]);
      assert items' == ItemsOf(rs', libPageSize);
      assert forall i :: 0 <= i < n ==> items'[i] == items[i];
      SameRecords(rs', items', segs, libPageSize);
      PatchSelf(rs[n]);
      assert rs == rs' + [rs[n]];
    }
  }

  lemma PatchSelf(r: seq<byte>)
    requires IsRecord(r)
    ensures PatchRecord(r, U32(r, 42)) == r
  {
    LERoundTrip(r[42..46]);
    assert r == r[..42] + r[42..46] + r[46..];
  }

  lemma {:induction false} UnmovedOffsets(segs: seq<Segment>)
    requires SecondItems(segs) == RecordItems(segs)
    ensures forall k :: 0 <= k < |segs| && segs[k].Record? ==> segs[k].newOff == segs[k].item.off
  {
    if segs != [] {
      var (s, rest) := (segs[0], segs[1..]);
      assert SecondItems(segs) == (if s.Record? then [s.item.(off := s.newOff)] else []) + SecondItems(rest);
      assert RecordItems(segs) == (if s.Record? then [s.item] else []) + RecordItems(rest);
      if s.Record? {
        assert SecondItems(segs)[0] == RecordItems(segs)[0];
        assert SecondItems(segs)[1..] == SecondItems(rest) && RecordItems(segs)[1..] == RecordItems(rest);
      } else {
        assert SecondItems(segs) == SecondItems(rest) && RecordItems(segs) == RecordItems(rest);
      }
      UnmovedOffsets(rest);
      forall k | 0 <= k < |segs| && segs[k].Record? ensures segs[k].newOff == segs[k].item.off {
        if k > 0 { assert rest[k - 1] == segs[k]; }
      }
    }
  }

  lemma {:induction false} AllOutputItems(items: seq<Item>)
    requires forall i :: 0 <= i < |items| ==> items[i].policy == Output
    ensures OutputItems(items) == items
  {
    if items != [] { AllOutputItems(items[1..]); }
  }

  /** Rewriting the rewritten section with its rewritten directory reproduces both, whatever bytes
      (the padding zeros) follow the section: `rewrite` is idempotent. */
  lemma RewritingTwice(input: seq<byte>, end: nat, rs: seq<seq<byte>>, libPageSize: nat, order: seq<nat>,
                       segs: seq<Segment>, tail: seq<byte>)
    requires Rewrote(input, end, rs, libPageSize, order, segs) && OutLen(segs) <= U32_MOD
    ensures
      && Inside(input, segs)
      && var w := Render(input, segs) + tail;
      var rs2 := NewRecords(rs, ItemsOf(rs, libPageSize), segs);
      && AllRecords(rs2)
      && DistinctOffsets(ItemsOf(rs2, libPageSize)) && AllInside(ItemsOf(rs2, libPageSize), |w|)
      && forall order2 :: FileOrder(order2, ItemsOf(rs2, libPageSize)) ==>
        exists again ::
          && Rewrote(w, |w|, rs2, libPageSize, order2, again)
          && Inside(w, again) && Render(w, again) == w
          && NewRecords(rs2, ItemsOf(rs2, libPageSize), again) == rs2
  {
    hide PlanFrom, ItemOf, TilesInput, TilesOutput, NewOffset, RecordItems, Render, NewRecords, OutLen;
    var items := ItemsOf(rs, libPageSize);
    SecondDirectory(input, end, rs, libPageSize, order, segs);
    RewriteIdempotent(input, end, InOrder(order, items), tail);
    var w := Render(input, segs) + tail;
    var second := SecondItems(segs);
    var rs2 := NewRecords(rs, items, segs);
    var items2 := ItemsOf(rs2, libPageSize);
    var again := PlanFrom(w, |w|, second, 0, 0).value;
    assert |Render(input, segs)| == OutLen(segs);
    RewroteFacts(input, end, rs, libPageSize, order, segs);
    SecondIn(segs);
    forall order2 | FileOrder(order2, items2)
      ensures Rewrote(w, |w|, rs2, libPageSize, order2, again)
      ensures NewRecords(rs2, items2, again) == rs2
    {
      assert InOrder(order2, items2) == second;
      assert Rewrote(w, |w|, rs2, libPageSize, order2, again);
      SecondRunKeepsDirectory(w, rs2, libPageSize, order2, second, again);
    }
  }

  lemma SecondRunKeepsDirectory(w: seq<byte>, rs2: seq<seq<byte>>, libPageSize: nat, order2: seq<nat>,
                                second: seq<Item>, again: seq<Segment>)
    requires Rewrote(w, |w|, rs2, libPageSize, order2, again)
    requires InOrder(order2, ItemsOf(rs2, libPageSize)) == second && SecondItems(again) == second
    requires forall x :: x in second ==> x.policy == Output
    ensures NewRecords(rs2, ItemsOf(rs2, libPageSize), again) == rs2
  {
    hide PlanFrom, ItemOf, TilesInput, TilesOutput, NewOffset, NewRecords, OutLen;
    var items2 := ItemsOf(rs2, libPageSize);
    RewroteFacts(w, |w|, rs2, libPageSize, order2, again);
    PlanIsGood(w, |w|, second, 0, 0);
    AllOutputItems(second);
    UnmovedOffsets(again);
    OrderedItems(items2, order2);
    forall i | 0 <= i < |items2| ensures NewOffset(again, items2[i].off) == Some(items2[i].off) {
      assert items2[i] in second;
      NewOffsetFinds(again, items2[i].off);
      assert items2[i] in RecordItems(again);
    }
    SameRecords(rs2, items2, again, libPageSize);
  }
}
