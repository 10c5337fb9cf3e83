/** The x86 block loop of src/sha256.rs: 128-bit registers, the SHA-NI and SSE instructions with the
    meaning Intel's manual gives them, and the two kernels built from them. */
module X86Sha {
  import opened Bytes
  import opened Fips180

  /** A 128-bit register as four 32-bit lanes, `l0` being bits 31:0. */
  datatype V128 = V128(l0: word, l1: word, l2: word, l3: word) {
    function Lane(i: nat): (r: word)
      requires i < 4
    {
      if i == 0 then l0 else if i == 1 then l1 else if i == 2 then l2 else l3
    }
  }

  // SSE2 / SSSE3 / SSE4.1.
  function PAddD(a: V128, b: V128): (r: V128) {
    V128(Add(a.l0, b.l0), Add(a.l1, b.l1), Add(a.l2, b.l2), Add(a.l3, b.l3))
  }

  function PShufD(a: V128, imm: nat): (r: V128)
    requires imm < 256
  {
    V128(a.Lane(imm % 4), a.Lane(imm / 4 % 4), a.Lane(imm / 16 % 4), a.Lane(imm / 64))
  }

  /** PALIGNR by whole lanes: bits of `a:b` from byte `4 * lanes` up. */
  function PAlignR(a: V128, b: V128, lanes: nat): (r: V128)
    requires lanes < 4
  {
    var l := [b.l0, b.l1, b.l2, b.l3, a.l0, a.l1, a.l2, a.l3];
    V128(l[lanes], l[lanes + 1], l[lanes + 2], l[lanes + 3])
  }

  /** PBLENDW with mask 0xf0: the low half of `a`, the high half of `b`. */
  function PBlendF0(a: V128, b: V128): (r: V128) { V128(a.l0, a.l1, b.l2, b.l3) }

  /** PSHUFB with a mask whose bytes are all below 16. */
  function PShufB(b: seq<byte>, mask: seq<nat>): (r: seq<byte>)
    requires |b| == |mask| == 16 && forall i :: 0 <= i < 16 ==> mask[i] < 16
    ensures |r| == 16
  {
    seq(16, i requires 0 <= i < 16 => b[mask[i]])
  }

  /** MOVDQU: 16 bytes of memory, little-endian lanes. */
  function MovDqu(b: seq<byte>): (r: V128)
    requires |b| == 16
  {
    V128(Word(b[3], b[2], b[1], b[0]), Word(b[7], b[6], b[5], b[4]),
         Word(b[11], b[10], b[9], b[8]), Word(b[15], b[14], b[13], b[12]))
  }

  // SHA-NI.
  datatype Vars = Vars(a: word, b: word, c: word, d: word, e: word, f: word, g: word, h: word)

  /** One of the two rounds inside SHA256RNDS2. */
  function RndsStep(v: Vars, wk: word): (r: Vars) {
    var t := Add(Add(Add(Ch(v.e, v.f, v.g), BigSigma1(v.e)), wk), v.h);
    Vars(Add(Add(t, Maj(v.a, v.b, v.c)), BigSigma0(v.a)), v.a, v.b, v.c, Add(t, v.d), v.e, v.f, v.g)
  }

  /** SHA256RNDS2 `cdgh`, `abef`, `wk`. */
  function Rnds2(cdgh: V128, abef: V128, wk: V128): (r: V128) {
    var v := Vars(abef.l3, abef.l2, cdgh.l3, cdgh.l2, abef.l1, abef.l0, cdgh.l1, cdgh.l0);
    var v2 := RndsStep(RndsStep(v, wk.l0), wk.l1);
    V128(v2.f, v2.e, v2.b, v2.a)
  }

  function Msg1(a: V128, b: V128): (r: V128) {
    V128(Add(a.l0, SmallSigma0(a.l1)), Add(a.l1, SmallSigma0(a.l2)), Add(a.l2, SmallSigma0(a.l3)),
        Add(a.l3, SmallSigma0(b.l0)))
  }

  function Msg2(a: V128, b: V128): (r: V128) {
    var w16 := Add(a.l0, SmallSigma1(b.l2));
    var w17 := Add(a.l1, SmallSigma1(b.l3));
    V128(w16, w17, Add(a.l2, SmallSigma1(w16)), Add(a.l3, SmallSigma1(w17)))
  }

  // The helpers of `mod arch`.
  const BSWAP: seq<nat> := [3, 2, 1, 0, 7, 6, 5, 4, 11, 10, 9, 8, 15, 14, 13, 12]

  function Load(block: seq<byte>, i: nat): (r: V128)
    requires |block| == 64 && i < 4
  {
    MovDqu(PShufB(block[16 * i..16 * i + 16], BSWAP))
  }

  function KQuad(i: nat): (r: V128)
    requires i < 16
  {
    V128(K(4 * i), K(4 * i + 1), K(4 * i + 2), K(4 * i + 3))
  }

  function ToRegs(s: State): (r: (V128, V128)) {
    var dcba := V128(s.a, s.b, s.c, s.d);
    var hgfe := V128(s.e, s.f, s.g, s.h);
    var cdab := PShufD(dcba, 0xb1);
    var efgh := PShufD(hgfe, 0x1b);
    (PAlignR(cdab, efgh, 2), PBlendF0(efgh, cdab))
  }

  function FromRegs(abef: V128, cdgh: V128): (r: State) {
    var feba := PShufD(abef, 0x1b);
    var dchg := PShufD(cdgh, 0xb1);
    var lo := PBlendF0(feba, dchg);
    var hi := PAlignR(dchg, feba, 2);
    State(lo.l0, lo.l1, lo.l2, lo.l3, hi.l0, hi.l1, hi.l2, hi.l3)
  }

  /** The `rounds4!` macro: returns the new (ABEF, CDGH). */
  function Rounds4(abef: V128, cdgh: V128, w: V128, i: nat): (r: (V128, V128))
    requires i < 16
  {
    var t := PAddD(w, KQuad(i));
    var cdgh' := Rnds2(cdgh, abef, t);
    var abef' := Rnds2(abef, cdgh', PShufD(t, 0x0e));
    (abef', cdgh')
  }

  /** The `schedule!` macro. */
  function Schedule(w0: V128, w1: V128, w2: V128, w3: V128): (r: V128) {
    Msg2(PAddD(Msg1(w0, w1), PAlignR(w3, w2, 1)), w3)
  }

  /** Four consecutive words of the FIPS message schedule. */
  function WQuad(block: seq<byte>, i: nat): (r: V128)
    requires |block| == 64
  {
    V128(W(block, 4 * i), W(block, 4 * i + 1), W(block, 4 * i + 2), W(block, 4 * i + 3))
  }

  lemma RegsRoundTrip(s: State)
    ensures FromRegs(ToRegs(s).0, ToRegs(s).1) == s
    ensures ToRegs(s) == (V128(s.f, s.e, s.b, s.a), V128(s.h, s.g, s.d, s.c))
  {
  }

  lemma LoadIsWords(block: seq<byte>, i: nat)
    requires |block| == 64 && i < 4
    ensures Load(block, i) == WQuad(block, i)
  {
    var b := block[16 * i..16 * i + 16];
    var r := PShufB(b, BSWAP);
    assert forall j :: 0 <= j < 16 ==> b[j] == block[16 * i + j];
  }

  /** Two FIPS rounds, in the words of the instruction. */
  lemma Rnds2IsTwoRounds(s: State, k0: word, w0: word, k1: word, w1: word, wk: V128)
    requires wk.l0 == Add(w0, k0) && wk.l1 == Add(w1, k1)
    ensures
      var s2 := Round(Round(s, k0, w0), k1, w1);
      && Rnds2(V128(s.h, s.g, s.d, s.c), V128(s.f, s.e, s.b, s.a), wk) == V128(s2.f, s2.e, s2.b, s2.a)
      && V128(s2.h, s2.g, s2.d, s2.c) == V128(s.f, s.e, s.b, s.a)
  {
    OneRound(s, k0, w0);
    OneRound(Round(s, k0, w0), k1, w1);
  }

  lemma OneRound(s: State, k: word, w: word)
    ensures
      var r := Round(s, k, w);
      RndsStep(Vars(s.a, s.b, s.c, s.d, s.e, s.f, s.g, s.h), Add(w, k)) == Vars(r.a, r.b, r.c, r.d, r.e, r.f, r.g, r.h)
  {
    Reassociate(s.h, BigSigma1(s.e), Ch(s.e, s.f, s.g), k, w, BigSigma0(s.a), Maj(s.a, s.b, s.c), s.d);
  }

  lemma Reassociate(h: word, s1: word, ch: word, k: word, w: word, s0: word, mj: word, d: word)
    ensures Add(Add(Add(Add(Add(ch, s1), Add(w, k)), h), mj), s0)
      == Add(Add(Add(Add(Add(h, s1), ch), k), w), Add(s0, mj))
    ensures Add(Add(Add(Add(ch, s1), Add(w, k)), h), d) == Add(d, Add(Add(Add(Add(h, s1), ch), k), w))
  {
    var t := h + s1 + ch + k + w;
    FipsT1(h, s1, ch, k, w);
    IntelT1(h, s1, ch, k, w);
    var x := Add(Add(Add(ch, s1), Add(w, k)), h);
    AddStep(x, t, mj);
    AddStep(Add(x, mj), t + mj, s0);
    AddStep(x, t, d);
    AddSum(t, s0 + mj);
  }

  const M := 0x1_0000_0000

  lemma FipsT1(h: word, s1: word, ch: word, k: word, w: word)
    ensures Add(Add(Add(Add(h, s1), ch), k), w) == (h + s1 + ch + k + w) % M
  {
    AddStep(Add(h, s1), h + s1, ch);
    AddStep(Add(Add(h, s1), ch), h + s1 + ch, k);
    AddStep(Add(Add(Add(h, s1), ch), k), h + s1 + ch + k, w);
  }

  lemma IntelT1(h: word, s1: word, ch: word, k: word, w: word)
    ensures Add(Add(Add(ch, s1), Add(w, k)), h) == (h + s1 + ch + k + w) % M
  {
    AddSum(ch + s1, w + k);
    AddStep(Add(Add(ch, s1), Add(w, k)), ch + s1 + w + k, h);
  }

  lemma AddSum(p: nat, q: nat)
    ensures Add(p % M, q % M) == (p + q) % M
  {
  }

  lemma AddStep(x: word, p: nat, q: word)
    requires x == p % M
    ensures Add(x, q) == (p + q) % M
  {
    AddSum(p, q);
  }

  /** The register pair (ABEF, CDGH). */
  type Regs = (V128, V128)

  /** Four quad-rounds from the schedule: one turn of the inner loop. */
  method Scheduled(regs: Regs, w0: V128, w1: V128, w2: V128, w3: V128, i: nat, ghost h: State, ghost block: seq<byte>)
    returns (regs': Regs, w0': V128, w1': V128, w2': V128, w3': V128)
    requires |block| == 64 && 4 <= i <= 12
    requires w0 == WQuad(block, i - 4) && w1 == WQuad(block, i - 3) && w2 == WQuad(block, i - 2)
      && w3 == WQuad(block, i - 1)
    requires regs == ToRegs(Rounds(h, block, 4 * i))
    ensures w0' == WQuad(block, i) && w1' == WQuad(block, i + 1) && w2' == WQuad(block, i + 2)
      && w3' == WQuad(block, i + 3)
    ensures regs' == ToRegs(Rounds(h, block, 4 * i + 16))
  {
    hide *;
    ScheduleIsFips(block, i);
    w0' := Schedule(w0, w1, w2, w3);
    QuadRound(h, block, i);
    regs' := Rounds4(regs.0, regs.1, w0', i);
    ScheduleIsFips(block, i + 1);
    w1' := Schedule(w1, w2, w3, w0');
    QuadRound(h, block, i + 1);
    regs' := Rounds4(regs'.0, regs'.1, w1', i + 1);
    ScheduleIsFips(block, i + 2);
    w2' := Schedule(w2, w3, w0', w1');
    QuadRound(h, block, i + 2);
    regs' := Rounds4(regs'.0, regs'.1, w2', i + 2);
    ScheduleIsFips(block, i + 3);
    w3' := Schedule(w3, w0', w1', w2');
    QuadRound(h, block, i + 3);
    regs' := Rounds4(regs'.0, regs'.1, w3', i + 3);
  }

  /** The body of the block loop. */
  method OneBlock(regs: Regs, block: seq<byte>, ghost h: State) returns (regs': Regs)
    requires |block| == 64 && regs == ToRegs(h)
    ensures regs' == ToRegs(Compress(h, block))
  {
    hide Add, K, W, Round, Rounds4, Schedule, ToRegs, Load, WQuad;
    var w0, w1, w2, w3 := Load(block, 0), Load(block, 1), Load(block, 2), Load(block, 3);
    LoadIsWords(block, 0); LoadIsWords(block, 1); LoadIsWords(block, 2); LoadIsWords(block, 3);
    QuadRound(h, block, 0);
    regs' := Rounds4(regs.0, regs.1, w0, 0);
    QuadRound(h, block, 1);
    regs' := Rounds4(regs'.0, regs'.1, w1, 1);
    QuadRound(h, block, 2);
    regs' := Rounds4(regs'.0, regs'.1, w2, 2);
    QuadRound(h, block, 3);
    regs' := Rounds4(regs'.0, regs'.1, w3, 3);
    var i := 4;
    while i < 16
      invariant 4 <= i <= 16 && i % 4 == 0
      invariant w0 == WQuad(block, i - 4) && w1 == WQuad(block, i - 3) && w2 == WQuad(block, i - 2)
        && w3 == WQuad(block, i - 1)
      invariant regs' == ToRegs(Rounds(h, block, 4 * i))
    {
      regs', w0, w1, w2, w3 := Scheduled(regs', w0, w1, w2, w3, i, h, block);
      i := i + 4;
    }
    AddRegs(Rounds(h, block, 64), h);
    regs' := (PAddD(regs'.0, regs.0), PAddD(regs'.1, regs.1));
  }

  method Compress1(state: array<word>, blocks: seq<byte>)
    requires state.Length == 8 && |blocks| % 64 == 0
    modifies state
    ensures ArrayState(state) == CompressAll(old(ArrayState(state)), blocks)
  {
    hide ToRegs, FromRegs, Compress;
    ghost var before := ArrayState(state);
    var regs := ToRegs(ArrayState(state));
    var p := 0;
    while p < |blocks|
      invariant 0 <= p <= |blocks| && p % 64 == 0
      invariant regs == ToRegs(CompressAll(before, blocks[..p]))
    {
      regs := OneBlock(regs, blocks[p..p + 64], CompressAll(before, blocks[..p]));
      CompressAllSnoc(before, blocks, p);
      p := p + 64;
    }
    assert blocks[..p] == blocks;
    RegsRoundTrip(CompressAll(before, blocks));
    StoreState(state, FromRegs(regs.0, regs.1));
  }

  /** `compress1` for two independent streams, every step issued for both. */
  method Compress2(sa: array<word>, sb: array<word>, da: seq<byte>, db: seq<byte>)
    requires sa != sb && sa.Length == 8 && sb.Length == 8
    requires |da| == |db| && |da| % 64 == 0
    modifies sa, sb
    ensures ArrayState(sa) == CompressAll(old(ArrayState(sa)), da)
    ensures ArrayState(sb) == CompressAll(old(ArrayState(sb)), db)
  {
    hide ToRegs, FromRegs, Compress;
    ghost var (ha, hb) := (ArrayState(sa), ArrayState(sb));
    var a, b := ToRegs(ArrayState(sa)), ToRegs(ArrayState(sb));
    var p := 0;
    while p < |da|
      invariant 0 <= p <= |da| && p % 64 == 0
      invariant a == ToRegs(CompressAll(ha, da[..p]))
      invariant b == ToRegs(CompressAll(hb, db[..p]))
    {
      a, b := TwoBlocks(a, b, da[p..p + 64], db[p..p + 64], CompressAll(ha, da[..p]), CompressAll(hb, db[..p]));
      CompressAllSnoc(ha, da, p);
      CompressAllSnoc(hb, db, p);
      p := p + 64;
    }
    assert da[..p] == da && db[..p] == db;
    RegsRoundTrip(CompressAll(ha, da));
    RegsRoundTrip(CompressAll(hb, db));
    StoreState(sa, FromRegs(a.0, a.1));
    StoreState(sb, FromRegs(b.0, b.1));
  }

  /** The interleaved body: both streams' four words are scheduled, then both take four rounds. */
  method TwoBlocks(a: Regs, b: Regs, ba: seq<byte>, bb: seq<byte>, ghost ha: State, ghost hb: State)
    returns (a': Regs, b': Regs)
    requires |ba| == |bb| == 64 && a == ToRegs(ha) && b == ToRegs(hb)
    ensures a' == ToRegs(Compress(ha, ba)) && b' == ToRegs(Compress(hb, bb))
  {
    hide Add, K, W, Round, Rounds4, Schedule, ToRegs, Load, WQuad;
    var wa := [Load(ba, 0), Load(ba, 1), Load(ba, 2), Load(ba, 3)];
    var wb := [Load(bb, 0), Load(bb, 1), Load(bb, 2), Load(bb, 3)];
    LoadIsWords(ba, 0); LoadIsWords(ba, 1); LoadIsWords(ba, 2); LoadIsWords(ba, 3);
    LoadIsWords(bb, 0); LoadIsWords(bb, 1); LoadIsWords(bb, 2); LoadIsWords(bb, 3);
    a', b' := a, b;
    var i := 0;
    while i < 4
      invariant 0 <= i <= 4
      invariant a' == ToRegs(Rounds(ha, ba, 4 * i)) && b' == ToRegs(Rounds(hb, bb, 4 * i))
    {
      QuadRound(ha, ba, i); QuadRound(hb, bb, i);
      a', b' := Rounds4(a'.0, a'.1, wa[i], i), Rounds4(b'.0, b'.1, wb[i], i);
      i := i + 1;
    }
    while i < 16
      invariant 4 <= i <= 16
      invariant |wa| == |wb| == 4
      invariant forall j :: 0 <= j < 4 ==> wa[j] == WQuad(ba, i - 4 + j) && wb[j] == WQuad(bb, i - 4 + j)
      invariant a' == ToRegs(Rounds(ha, ba, 4 * i)) && b' == ToRegs(Rounds(hb, bb, 4 * i))
    {
      ScheduleIsFips(ba, i); ScheduleIsFips(bb, i);
      wa := wa[1..] + [Schedule(wa[0], wa[1], wa[2], wa[3])];
      wb := wb[1..] + [Schedule(wb[0], wb[1], wb[2], wb[3])];
      QuadRound(ha, ba, i); QuadRound(hb, bb, i);
      a', b' := Rounds4(a'.0, a'.1, wa[3], i), Rounds4(b'.0, b'.1, wb[3], i);
      i := i + 1;
    }
    AddRegs(Rounds(ha, ba, 64), ha);
    AddRegs(Rounds(hb, bb, 64), hb);
    a' := (PAddD(a'.0, a.0), PAddD(a'.1, a.1));
    b' := (PAddD(b'.0, b.0), PAddD(b'.1, b.1));
  }

  function ArrayState(s: array<word>): (r: State)
    requires s.Length == 8
    reads s
  {
    State(s[0], s[1], s[2], s[3], s[4], s[5], s[6], s[7])
  }

  method StoreState(a: array<word>, s: State)
    requires a.Length == 8
    modifies a
    ensures ArrayState(a) == s
  {
    a[0], a[1], a[2], a[3] := s.a, s.b, s.c, s.d;
    a[4], a[5], a[6], a[7] := s.e, s.f, s.g, s.h;
  }

  lemma AddRegs(x: State, y: State)
    ensures ToRegs(AddState(x, y)) == (PAddD(ToRegs(x).0, ToRegs(y).0), PAddD(ToRegs(x).1, ToRegs(y).1))
  {
    RegsRoundTrip(x); RegsRoundTrip(y); RegsRoundTrip(AddState(x, y));
  }

  lemma CompressAllSnoc(s: State, blocks: seq<byte>, p: nat)
    requires p % 64 == 0 && p + 64 <= |blocks|
    ensures CompressAll(s, blocks[..p + 64]) == Compress(CompressAll(s, blocks[..p]), blocks[p..p + 64])
  {
    var b := blocks[..p + 64];
    assert b[..|b| - 64] == blocks[..p] && b[|b| - 64..] == blocks[p..p + 64];
  }

  /** `rounds4!` with message words 4i..4i+4 is FIPS rounds 4i..4i+4. */
  lemma QuadRound(h: State, block: seq<byte>, i: nat)
    requires |block| == 64 && i < 16
    ensures
      var regs := ToRegs(Rounds(h, block, 4 * i));
      Rounds4(regs.0, regs.1, WQuad(block, i), i) == ToRegs(Rounds(h, block, 4 * i + 4))
  {
    hide W, Round, K;
    var s := Rounds(h, block, 4 * i);
    var t := PAddD(WQuad(block, i), KQuad(i));
    var s2 := Rounds(h, block, 4 * i + 2);
    assert s2 == Round(Round(s, K(4 * i), W(block, 4 * i)), K(4 * i + 1), W(block, 4 * i + 1)) by {
      assert Rounds(h, block, 4 * i + 1) == Round(s, K(4 * i), W(block, 4 * i));
    }
    assert Rounds(h, block, 4 * i + 4)
      == Round(Round(s2, K(4 * i + 2), W(block, 4 * i + 2)), K(4 * i + 3), W(block, 4 * i + 3)) by {
      assert Rounds(h, block, 4 * i + 3) == Round(s2, K(4 * i + 2), W(block, 4 * i + 2));
    }
    RegsRoundTrip(s); RegsRoundTrip(s2); RegsRoundTrip(Rounds(h, block, 4 * i + 4));
    Rnds2IsTwoRounds(s, K(4 * i), W(block, 4 * i), K(4 * i + 1), W(block, 4 * i + 1), t);
    Rnds2IsTwoRounds(s2, K(4 * i + 2), W(block, 4 * i + 2), K(4 * i + 3), W(block, 4 * i + 3), PShufD(t, 0x0e));
  }

  /** `schedule!` over the previous sixteen words gives the next four of section 6.2.2. */
  lemma ScheduleIsFips(block: seq<byte>, i: nat)
    requires |block| == 64 && 4 <= i < 16
    ensures Schedule(WQuad(block, i - 4), WQuad(block, i - 3), WQuad(block, i - 2), WQuad(block, i - 1))
      == WQuad(block, i)
  {
    hide W, SmallSigma0, SmallSigma1, Add;
    ScheduleWord(block, 4 * i);
    ScheduleWord(block, 4 * i + 1);
    ScheduleWord(block, 4 * i + 2);
    ScheduleWord(block, 4 * i + 3);
  }

  lemma ScheduleWord(block: seq<byte>, t: nat)
    requires |block| == 64 && 16 <= t
    ensures W(block, t)
      == Add(Add(Add(W(block, t - 16), SmallSigma0(W(block, t - 15))), W(block, t - 7)), SmallSigma1(W(block, t - 2)))
  {
    hide SmallSigma0, SmallSigma1;
    ScheduleSum(SmallSigma1(W(block, t - 2)), W(block, t - 7), SmallSigma0(W(block, t - 15)), W(block, t - 16));
  }

  lemma ScheduleSum(a: word, b: word, c: word, d: word)
    ensures Add(Add(Add(a, b), c), d) == Add(Add(Add(d, c), b), a)
  {
    AddStep(Add(a, b), a + b, c);
    AddStep(Add(Add(a, b), c), a + b + c, d);
    AddStep(Add(d, c), d + c, b);
    AddStep(Add(Add(d, c), b), d + c + b, a);
  }
}
