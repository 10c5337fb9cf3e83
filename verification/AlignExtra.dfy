/** The extra-field arithmetic of src/align.rs: `declared_alignment` and `aligning_extra`. */
module AlignExtra {
  import opened Wrappers
  import opened Bytes

  const ALIGNMENT_EXTRA_ID: nat := 0xd935

  /** The first field of `x` is whole: 4 bytes of header and its size in data. */
  predicate WholeField(x: seq<byte>) {
    |x| >= 4 && 4 + U16(x, 2) <= |x|
  }

  /** Old alignment fields and zipalign's raw zero padding. */
  predicate Dropped(x: seq<byte>)
    requires |x| >= 4
  {
    (U16(x, 0) == 0 && U16(x, 2) == 0) || U16(x, 0) == ALIGNMENT_EXTRA_ID
  }

  /** Every well-formed field that is to be kept, in order. */
  function KeptFields(x: seq<byte>): (r: seq<byte>)
    ensures |r| <= |x|
    decreases |x|
  {
    if !WholeField(x) then []
    else
      var n := 4 + U16(x, 2);
      (if Dropped(x) then [] else x[..n]) + KeptFields(x[n..])
  }

  /** The multiple declared by the first alignment field that holds one. */
  function Declared(x: seq<byte>): (r: Option<nat>)
    decreases |x|
  {
    if !WholeField(x) then None
    else if U16(x, 0) == ALIGNMENT_EXTRA_ID && U16(x, 2) >= 2 then Some(U16(x, 4))
    else Declared(x[4 + U16(x, 2)..])
  }

  /** Padding that takes `at` to the next multiple. */
  function PadTo(at: nat, align: nat): (pad: nat)
    requires align >= 1
    ensures pad < align && (at + pad) % align == 0
  {
    PadToIs(at, align);
    (align - at % align) % align
  }

  lemma PadToIs(at: nat, align: nat)
    requires align >= 1
    ensures var pad := (align - at % align) % align;
      0 <= pad < align && (at + pad) % align == 0
  {
    var (q, r) := (at / align, at % align);
    if r == 0 {
      ModUnique(align, align, 1, 0);
    } else {
      ModUnique(align - r, align, 0, align - r);
      assert at + (align - r) == align * (q + 1) + 0 by { assert align * (q + 1) == align * q + align; }
      ModUnique(at + (align - r), align, q + 1, 0);
    }
  }

  function AlignField(pad: nat, align: nat): (r: seq<byte>)
    ensures |r| == 6 + pad
  {
    PutU16(ALIGNMENT_EXTRA_ID) + PutU16(2 + pad) + PutU16(align) + Zeros(pad)
  }

  /** `createExtraFieldToAlignData`: the extra that puts the data after it on `align`, when the
      extra itself starts at `start`. */
  function AligningExtra(original: seq<byte>, start: nat, align: nat): (r: seq<byte>)
    requires align >= 1
  {
    var k := KeptFields(original);
    k + AlignField(PadTo(start + |k| + 6, align), align)
  }

  // --- The loops -----------------------------------------------------------------------------------

  /** `declared_alignment`. */
  method DeclaredAlignment(extra: seq<byte>) returns (r: Option<nat>)
    ensures r == Declared(extra)
  {
    hide LE;
    var p := 0;
    assert extra[0..] == extra;
    while |extra| - p >= 4
      invariant p <= |extra| && Declared(extra) == Declared(extra[p..])
      decreases |extra| - p
    {
      AtOffset(extra, p);
      var id := U16(extra, p);
      var size := U16(extra, p + 2);
      if size > |extra| - p - 4 {
        return None;
      }
      if id == ALIGNMENT_EXTRA_ID && size >= 2 {
        return Some(U16(extra, p + 4));
      }
      p := p + (4 + size);
    }
    return None;
  }

  lemma AtOffset(x: seq<byte>, p: nat)
    requires p + 4 <= |x|
    ensures U16(x[p..], 0) == U16(x, p) && U16(x[p..], 2) == U16(x, p + 2)
    ensures p + 6 <= |x| ==> U16(x[p..], 4) == U16(x, p + 4)
    ensures forall n :: 0 <= n <= |x| - p ==> x[p..][n..] == x[p + n..] && x[p..][..n] == x[p..p + n]
  {
    assert x[p..][0..2] == x[p..p + 2] && x[p..][2..4] == x[p + 2..p + 4];
    if p + 6 <= |x| { assert x[p..][4..6] == x[p + 4..p + 6]; }
  }

  /** `aligning_extra`. */
  method MakeAligningExtra(original: seq<byte>, start: nat, align: nat) returns (out: seq<byte>)
    requires align >= 1
    ensures out == AligningExtra(original, start, align)
  {
    hide LE, KeptFields;
    out := CopyKept(original);
    var dataMinStart := start + |out| + 6;
    var pad := (align - dataMinStart % align) % align;
    PadToIs(dataMinStart, align);
    out := out + (PutU16(ALIGNMENT_EXTRA_ID) + PutU16(2 + pad) + PutU16(align) + Zeros(pad));
  }

  lemma KeptStep(x: seq<byte>, p: nat)
    requires p + 4 <= |x|
    ensures var (id, size) := (U16(x, p), U16(x, p + 2));
      if size > |x| - p - 4 then KeptFields(x[p..]) == []
      else KeptFields(x[p..]) == (if (id == 0 && size == 0) || id == ALIGNMENT_EXTRA_ID then [] else x[p..p + 4 + size])
                                 + KeptFields(x[p + 4 + size..])
  {
    hide LE;
    AtOffset(x, p);
  }

  /** The loop over the original fields. */
  method CopyKept(original: seq<byte>) returns (out: seq<byte>)
    ensures out == KeptFields(original)
  {
    hide LE, KeptFields;
    out := [];
    var p := 0;
    assert original[0..] == original;
    while |original| - p >= 4
      invariant p <= |original| && KeptFields(original) == out + KeptFields(original[p..])
      decreases |original| - p
    {
      KeptStep(original, p);
      var id := U16(original, p);
      var size := U16(original, p + 2);
      if size > |original| - p - 4 {
        break;
      }
      if !((id == 0 && size == 0) || id == ALIGNMENT_EXTRA_ID) {
        out := out + original[p..p + 4 + size];
      }
      p := p + (4 + size);
    }
    if p + 4 <= |original| { KeptStep(original, p); }
    Leftover(original[p..]);
  }

  lemma Leftover(x: seq<byte>)
    ensures !WholeField(x) ==> KeptFields(x) == []
  {
  }

  // --- What the extra field promises -----------------------------------------------------------------

  /** The entry's data lands on the alignment. */
  lemma ExtraAligns(original: seq<byte>, start: nat, align: nat)
    requires align >= 1
    ensures (start + |AligningExtra(original, start, align)|) % align == 0
  {
    hide KeptFields, AlignField;
    var k := KeptFields(original);
    assert start + |AligningExtra(original, start, align)| == start + |k| + 6 + PadTo(start + |k| + 6, align);
  }

  lemma FieldHeader(x: seq<byte>, rest: seq<byte>)
    requires WholeField(x)
    ensures WholeField(x + rest) && U16(x + rest, 0) == U16(x, 0) && U16(x + rest, 2) == U16(x, 2)
    ensures Dropped(x + rest) == Dropped(x)
    ensures U16(x, 2) >= 2 ==> U16(x + rest, 4) == U16(x, 4)
  {
    assert (x + rest)[0..2] == x[0..2] && (x + rest)[2..4] == x[2..4];
    if U16(x, 2) >= 2 { assert (x + rest)[4..6] == x[4..6]; }
  }

  /** Scanning the kept fields again keeps them all and goes on with whatever follows. */
  lemma {:induction false} KeptThen(x: seq<byte>, y: seq<byte>)
    ensures KeptFields(KeptFields(x) + y) == KeptFields(x) + KeptFields(y)
    ensures Declared(KeptFields(x) + y) == Declared(y)
    decreases |x|
  {
    hide U16, Dropped, KeptFields, Declared;
    KeptUnfold(x);
    if !WholeField(x) {
      assert [] + y == y;
    } else {
      var n := 4 + U16(x, 2);
      var (f, k) := (x[..n], KeptFields(x[n..]));
      KeptThen(x[n..], y);
      if !Dropped(x) {
        KeptField(x, k + y);
        assert KeptFields(x) + y == f + (k + y);
        assert KeptFields(x) + KeptFields(y) == f + (k + KeptFields(y));
      }
    }
  }

  lemma KeptUnfold(x: seq<byte>)
    ensures KeptFields(x) ==
      if !WholeField(x) then []
      else if Dropped(x) then KeptFields(x[4 + U16(x, 2)..])
      else x[..4 + U16(x, 2)] + KeptFields(x[4 + U16(x, 2)..])
  {
  }

  lemma KeptField(x: seq<byte>, rest: seq<byte>)
    requires WholeField(x) && !Dropped(x)
    ensures var f := x[..4 + U16(x, 2)];
      KeptFields(f + rest) == f + KeptFields(rest) && Declared(f + rest) == Declared(rest)
  {
    hide LE;
    var f := x[..4 + U16(x, 2)];
    assert f[0..2] == x[0..2] && f[2..4] == x[2..4];
    FieldHeader(f, rest);
    assert (f + rest)[..|f|] == f && (f + rest)[|f|..] == rest;
  }

  lemma AlignFieldReads(pad: nat, align: nat)
    requires 2 + pad < U16_MOD
    ensures var f := AlignField(pad, align);
      && WholeField(f) && U16(f, 0) == ALIGNMENT_EXTRA_ID && U16(f, 2) == 2 + pad && U16(f, 4) == align % U16_MOD
  {
    var f := AlignField(pad, align);
    assert f[0..0 + 2] == PutU16(ALIGNMENT_EXTRA_ID)[0..0 + 2];
    assert f[2..2 + 2] == PutU16(2 + pad)[0..0 + 2];
    assert f[4..4 + 2] == PutU16(align)[0..0 + 2];
  }

  /** What was written reads back: the kept fields are the kept fields of the new extra, and its
      declared alignment is the one written, truncated to 16 bits. */
  lemma ExtraReadsBack(original: seq<byte>, start: nat, align: nat)
    requires align >= 1 && |AligningExtra(original, start, align)| < U16_MOD
    ensures KeptFields(AligningExtra(original, start, align)) == KeptFields(original)
    ensures Declared(AligningExtra(original, start, align)) == Some(align % U16_MOD)
  {
    hide LE;
    var k := KeptFields(original);
    var pad := PadTo(start + |k| + 6, align);
    var f := AlignField(pad, align);
    AlignFieldReads(pad, align);
    KeptThen(original, f);
    assert f[|f|..] == [] && KeptFields(f) == [] + KeptFields(f[4 + U16(f, 2)..]);
  }

  /** At a fixed offset and alignment the construction is idempotent. */
  lemma ExtraIdempotent(original: seq<byte>, start: nat, align: nat)
    requires align >= 1 && |AligningExtra(original, start, align)| < U16_MOD
    ensures AligningExtra(AligningExtra(original, start, align), start, align) == AligningExtra(original, start, align)
  {
    ExtraReadsBack(original, start, align);
  }

  /** The alignment an entry gets: the rule's or a larger one its extra already declares. */
  function EffectiveAlignment(rule: nat, extra: seq<byte>): (a: nat)
    ensures a >= rule
  {
    var d := match Declared(extra) case Some(v) => v case None => 0;
    if d > rule then d else rule
  }

  lemma {:induction false} DeclaredSmall(x: seq<byte>)
    ensures Declared(x).Some? ==> Declared(x).value < U16_MOD
    decreases |x|
  {
    if WholeField(x) {
      DeclaredSmall(x[4 + U16(x, 2)..]);
    }
  }

  /** Stable even where the 16-bit field truncates: a rule of 64 KiB or more outweighs any
      declared value, before and after. */
  lemma EffectiveStable(rule: nat, original: seq<byte>, start: nat)
    requires rule >= 1
    requires |AligningExtra(original, start, EffectiveAlignment(rule, original))| < U16_MOD
    ensures EffectiveAlignment(rule, AligningExtra(original, start, EffectiveAlignment(rule, original)))
         == EffectiveAlignment(rule, original)
  {
    hide KeptFields, AligningExtra, Declared;
    var a := EffectiveAlignment(rule, original);
    ExtraReadsBack(original, start, a);
    DeclaredSmall(original);
    if a < U16_MOD {
      assert a % U16_MOD == a;
    }
  }

  /** The declared value reads back as written exactly below 64 KiB. */
  lemma DeclaredReadsBackIff(original: seq<byte>, start: nat, align: nat)
    requires align >= 1 && |AligningExtra(original, start, align)| < U16_MOD
    ensures Declared(AligningExtra(original, start, align)) == Some(align) <==> align < U16_MOD
  {
    hide KeptFields, AligningExtra, Declared;
    ExtraReadsBack(original, start, align);
    assert align < U16_MOD ==> align % U16_MOD == align;
  }

  /** Data on the effective alignment is on the rule's exactly when the effective alignment is a
      multiple of the rule, whatever multiple of it the data sits on. */
  lemma RuleFollowsIff(rule: nat, align: nat)
    requires rule >= 1 && align >= 1
    ensures (forall m: nat :: (m * align) % rule == 0) <==> align % rule == 0
  {
    if align % rule == 0 {
      forall m: nat ensures (m * align) % rule == 0 {
        var q := align / rule;
        assert align == rule * q;
        assert m * align == rule * (m * q) + 0 by { assert m * (rule * q) == rule * (m * q); }
        ModUnique(m * align, rule, m * q, 0);
      }
    } else {
      assert (1 * align) % rule != 0;
    }
  }

  lemma MultipleFollows(x: nat, align: nat, rule: nat)
    requires rule >= 1 && align >= 1 && x % align == 0 && align % rule == 0
    ensures x % rule == 0
  {
    RuleFollowsIff(rule, align);
    assert x == (x / align) * align;
  }

  lemma NoPadding(align: nat, q: nat)
    requires align >= 1
    ensures PadTo(align * q, align) == 0
  {
    ModUnique(align * q, align, q, 0);
    ModUnique(align, align, 1, 0);
  }

  lemma OffRule(align: nat, rule: nat, m: nat)
    requires rule >= 1
    ensures (rule * m + align) % rule == align % rule
  {
    var (q, r) := (align / rule, align % rule);
    assert rule * m + align == rule * (m + q) + r by { assert rule * (m + q) == rule * m + rule * q; }
    ModUnique(rule * m + align, rule, m + q, r);
  }

  lemma AtLeast(align: nat, rule: nat, m: nat)
    requires align >= 1 && rule >= 1
    ensures rule * (align * m) >= m
  {
    MulMonotone(m, 1, align);
    MulMonotone(align * m, 1, rule);
    assert m * align == align * m && (align * m) * rule == rule * (align * m);
  }

  /** A point that needs no padding to `align` and is off `rule` by what `align` is. */
  lemma OffPoint(align: nat, rule: nat, m: nat)
    requires align >= 1 && rule >= 1
    ensures var x := align * (rule * m + 1);
      x >= m && PadTo(x, align) == 0 && x % rule == align % rule
  {
    hide PadTo;
    NoPadding(align, rule * m + 1);
    OffRule(align, rule, align * m);
    AtLeast(align, rule, m);
    assert align * (rule * m + 1) == rule * (align * m) + align by {
      assert align * (rule * m) == rule * (align * m);
    }
  }

  /** `aligning_extra` with the larger of rule and declared alignment: data lands on the rule's at
      every place exactly when the larger is a multiple of the rule's. */
  lemma ExtraOnRuleIff(original: seq<byte>, rule: nat)
    requires rule >= 1
    ensures var a := EffectiveAlignment(rule, original);
      (forall start: nat :: (start + |AligningExtra(original, start, a)|) % rule == 0) <==> a % rule == 0
  {
    var a := EffectiveAlignment(rule, original);
    if a % rule == 0 {
      forall start: nat ensures (start + |AligningExtra(original, start, a)|) % rule == 0 {
        ExtraOnMultiple(original, start, rule);
      }
    } else {
      var start := OffStart(original, rule, 0);
      assert (start + |AligningExtra(original, start, a)|) % rule != 0;
    }
  }

  lemma ExtraOnMultiple(original: seq<byte>, start: nat, rule: nat)
    requires rule >= 1 && EffectiveAlignment(rule, original) % rule == 0
    ensures (start + |AligningExtra(original, start, EffectiveAlignment(rule, original))|) % rule == 0
  {
    var a := EffectiveAlignment(rule, original);
    ExtraAligns(original, start, a);
    hide AligningExtra, EffectiveAlignment;
    MultipleFollows(start + |AligningExtra(original, start, a)|, a, rule);
  }

  /** A place from `least` on where the data is off the rule, the extra field needing no padding. */
  lemma OffStart(original: seq<byte>, rule: nat, least: nat) returns (start: nat)
    requires rule >= 1
    ensures var a := EffectiveAlignment(rule, original);
      && start >= least && |AligningExtra(original, start, a)| == |KeptFields(original)| + 6
      && (start + |AligningExtra(original, start, a)|) % rule == a % rule
  {
    var a := EffectiveAlignment(rule, original);
    var k := |KeptFields(original)| + 6;
    hide EffectiveAlignment, KeptFields, PadTo;
    OffPoint(a, rule, k + least);
    start := a * (rule * (k + least) + 1) - k;
  }

  /** A failing input: six bytes that declare 6, under a rule of 4. */
  lemma DeclaredOffRule()
    ensures var original: seq<byte> := [0x35, 0xd9, 2, 0, 6, 0];
      && EffectiveAlignment(4, original) == 6
      && |AligningExtra(original, 0, 6)| == 6 && (0 + |AligningExtra(original, 0, 6)|) % 4 == 2
  {
    var x := AlignField(0, 6);
    assert x == [0x35, 0xd9, 2, 0, 6, 0] by { FieldBytes(6); }
    AlignFieldReads(0, 6);
    assert Declared(x) == Some(6);
    assert x[6..] == [];
    assert KeptFields(x) == KeptFields(x[6..]) == [];
  }

  lemma FieldBytes(a: nat)
    requires a < 256
    ensures AlignField(0, a) == [0x35, 0xd9, 2, 0, a, 0]
  {
    TwoBytes(ALIGNMENT_EXTRA_ID);
    TwoBytes(2);
    TwoBytes(a);
  }

  lemma TwoBytes(x: nat)
    ensures PutU16(x) == [x % 256, x / 256 % 256]
  {
    assert ToLE(x / 256, 1) == [x / 256 % 256] + ToLE(x / 256 / 256, 0);
  }

  /** The 16-bit field wraps: an alignment of 65536 is written, and read back as 0. */
  lemma DeclaredWraps()
    ensures Declared(AligningExtra([], 65530, 65536)) == Some(0)
  {
    hide LE, ToLE;
    assert PadTo(65536, 65536) == 0;
    assert KeptFields([]) == [];
    var x := AligningExtra([], 65530, 65536);
    assert x == AlignField(0, 65536);
    AlignFieldReads(0, 65536);
  }

  // --- Byte by byte ----------------------------------------------------------------------------------

  /** A field of an extra field: id, length of the data, data. */
  function Field(id: nat, data: seq<byte>): (r: seq<byte>) {
    [id % 256, id / 256 % 256] + [|data| % 256, |data| / 256 % 256] + data
  }

  lemma FieldReads(id: nat, data: seq<byte>, rest: seq<byte>)
    requires id < 0x1_0000 && |data| < 0x1_0000
    ensures var x := Field(id, data) + rest;
      && WholeField(x) && U16(x, 0) == id && U16(x, 2) == |data|
      && x[..4 + |data|] == Field(id, data) && x[4 + |data|..] == rest
      && (|data| >= 2 ==> U16(x, 4) == data[0] as int + 0x100 * data[1] as int)
  {
    var x := Field(id, data) + rest;
    assert x[0] == id % 256 && x[1] == id / 256 % 256 && x[2] == |data| % 256 && x[3] == |data| / 256 % 256;
    assert |data| >= 2 ==> x[4] == data[0] && x[5] == data[1];
    assert x[..4 + |data|] == Field(id, data) && x[4 + |data|..] == rest;
    LoadedBytes(x, 0);
    LoadedBytes(x, 2);
    if |data| >= 2 { LoadedBytes(x, 4); }
    TwoDigits(id);
    TwoDigits(|data|);
    hide U16, Field;
  }

  lemma TwoDigits(x: nat)
    requires x < 0x1_0000
    ensures x % 256 + 0x100 * (x / 256 % 256) == x
  {
  }

  /** Every field is kept but old alignment fields (id 0xd935) and empty fields of id 0; the first
      alignment field with two bytes of data declares them as the alignment. */
  lemma FieldIs(id: nat, data: seq<byte>, rest: seq<byte>)
    requires id < 0x1_0000 && |data| < 0x1_0000
    ensures KeptFields(Field(id, data) + rest)
      == (if id == 0xd935 || (id == 0 && data == []) then [] else Field(id, data)) + KeptFields(rest)
    ensures Declared(Field(id, data) + rest)
      == if id == 0xd935 && |data| >= 2 then Some(data[0] as int + 0x100 * data[1] as int) else Declared(rest)
  {
    FieldReads(id, data, rest);
    hide U16, Field;
  }

  /** What is left when no whole field is: too short for a header, or shorter than the header says. */
  lemma NoFieldIs(x: seq<byte>)
    requires |x| < 4 || |x| < 4 + x[2] as int + 0x100 * x[3] as int
    ensures KeptFields(x) == [] && Declared(x) == None
  {
    LoadedBytes(x, 2);
    hide U16;
  }

  /** What is written: the kept fields, then one field 0xd935 with the alignment in two bytes and the
      least number of zeros that takes the data behind it to a multiple. */
  lemma WrittenIs(original: seq<byte>, start: nat, align: nat)
    requires align >= 1
    ensures exists pad: nat :: Pads(original, start, align, pad)
  {
    var pad := PadTo(start + |KeptFields(original)| + 6, align);
    AlignFieldIs(pad, align);
    hide AlignField, KeptFields, PadTo;
    assert Pads(original, start, align, pad);
  }

  lemma AlignFieldIs(pad: nat, align: nat)
    ensures AlignField(pad, align)
      == [0x35, 0xd9] + [(2 + pad) % 256, (2 + pad) / 256 % 256] + [align % 256, align / 256 % 256] + Zeros(pad)
  {
    TwoBytes(0xd935);
    TwoBytes(2 + pad);
    TwoBytes(align);
    hide PutU16, Zeros;
  }

  ghost predicate Pads(original: seq<byte>, start: nat, align: nat, pad: nat)
    requires align >= 1
  {
    var k := KeptFields(original);
    && pad < align && (start + |k| + 6 + pad) % align == 0
    && AligningExtra(original, start, align)
       == k + ([0x35, 0xd9] + [(2 + pad) % 256, (2 + pad) / 256 % 256] + [align % 256, align / 256 % 256] + Zeros(pad))
  }

  /** The alignment an entry gets: the rule's, or the declared one when that is larger. */
  lemma EffectiveIs(rule: nat, extra: seq<byte>)
    ensures var a := EffectiveAlignment(rule, extra);
      && a >= rule && (Declared(extra).Some? ==> a >= Declared(extra).value)
      && (a == rule || Declared(extra) == Some(a))
  {
  }
}
