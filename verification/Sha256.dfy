/** src/sha256.rs above the instruction level: the streaming hasher, the two-stream step, the
    iterated one-block hash and PBKDF2. */
module Sha256Engine {
  import opened Bytes
  import opened Fips180
  import X86Sha

  function StateOf(s: array<word>): (r: State)
    requires s.Length == 8
    reads s
  {
    X86Sha.ArrayState(s)
  }

  lemma {:induction false} CompressAllConcat(s: State, x: seq<byte>, y: seq<byte>)
    requires |x| % 64 == 0 && |y| % 64 == 0
    ensures CompressAll(s, x + y) == CompressAll(CompressAll(s, x), y)
    decreases |y|
  {
    hide Compress;
    if y == [] {
      assert x + y == x;
    } else {
      var (init, last) := (y[..|y| - 64], y[|y| - 64..]);
      CompressAllConcat(s, x, init);
      assert (x + y)[..|x + y| - 64] == x + init && (x + y)[|x + y| - 64..] == last;
    }
  }

  lemma CompressOne(s: State, block: seq<byte>)
    requires |block| == 64
    ensures CompressAll(s, block) == Compress(s, block)
  {
    assert block[..0] == [] && block[0..] == block;
    assert CompressAll(s, block[..0]) == s;
  }

  /** `Sha256`: hash state, partial block, and the number of bytes absorbed. `msg` is those bytes. */
  class Sha256 {
    const state: array<word>
    const buf: array<byte>
    var bufLen: nat
    var len: nat
    ghost var msg: seq<byte>

    ghost predicate Valid()
      reads this, state, buf
    {
      && state.Length == 8 && buf.Length == 64
      && len == |msg| && bufLen == len % 64
      && StateOf(state) == CompressAll(H0, msg[..len - bufLen])
      && buf[..bufLen] == msg[len - bufLen..]
    }

    constructor ()
      ensures Valid() && msg == [] && fresh(state) && fresh(buf)
    {
      hide Compress;
      state := new word[8];
      buf := new byte[64];
      bufLen, len, msg := 0, 0, [];
      new;
      X86Sha.StoreState(state, H0);
    }

    /** The struct literal of the PBKDF2 loop: a hasher that has absorbed the one block `pad`. */
    constructor Resume(s: State, ghost pad: seq<byte>)
      requires |pad| == 64 && s == Compress(H0, pad)
      ensures Valid() && msg == pad && fresh(state) && fresh(buf)
    {
      hide Compress;
      state := new word[8];
      buf := new byte[64];
      bufLen, len, msg := 0, 64, pad;
      new;
      X86Sha.StoreState(state, s);
      CompressOne(H0, pad);
      assert pad[..64] == pad;
    }

    /** `whole` went through the compression function, `partial` waits in the buffer. */
    ghost predicate Holds(whole: seq<byte>, partial: seq<byte>)
      reads this, state, buf
    {
      && state.Length == 8 && buf.Length == 64
      && |whole| % 64 == 0 && |partial| == bufLen <= 64
      && StateOf(state) == CompressAll(H0, whole)
      && buf[..bufLen] == partial
    }

    lemma Held()
      requires Valid()
      ensures Holds(msg[..len - bufLen], msg[len - bufLen..])
    {
      hide CompressAll, StateOf;
    }

    lemma Split(whole: seq<byte>, partial: seq<byte>)
      requires Holds(whole, partial) && |partial| < 64 && len == |msg| && msg == whole + partial
      ensures Valid()
    {
      hide CompressAll, StateOf;
      assert msg[..len - bufLen] == whole && msg[len - bufLen..] == partial;
    }

    method Update(data: seq<byte>)
      requires Valid()
      modifies this, state, buf
      ensures Valid() && msg == old(msg) + data
    {
      hide Compress, CompressAll, StateOf;
      ghost var whole0, partial0 := msg[..len - bufLen], msg[len - bufLen..];
      Held();
      len := len + |data|;
      msg := msg + data;
      var data' := data;
      if bufLen > 0 {
        var take := if 64 - bufLen < |data| then 64 - bufLen else |data|;
        Buffer(data[..take], whole0, partial0);
        data' := data[take..];
        if bufLen < 64 {
          assert msg == whole0 + (partial0 + data[..take]);
          Split(whole0, partial0 + data[..take]);
          return;
        }
        CompressBuffer(whole0, partial0 + data[..take]);
        whole0 := whole0 + (partial0 + data[..take]);
      }
      assert msg == whole0 + data';
      Bulk(data', whole0);
    }

    method Buffer(data: seq<byte>, ghost whole: seq<byte>, ghost partial: seq<byte>)
      requires Holds(whole, partial) && |partial| + |data| <= 64
      modifies `bufLen, buf
      ensures Holds(whole, partial + data)
    {
      hide CompressAll, StateOf;
      CopyInto(buf, bufLen, data);
      bufLen := bufLen + |data|;
    }

    method CompressBuffer(ghost whole: seq<byte>, ghost partial: seq<byte>)
      requires Holds(whole, partial) && |partial| == 64
      modifies `bufLen, state
      ensures Holds(whole + partial, [])
    {
      hide Compress, CompressAll;
      assert buf[..] == partial;
      CompressAllConcat(H0, whole, partial);
      X86Sha.Compress1(state, buf[..]);
      bufLen := 0;
    }

    method Bulk(data: seq<byte>, ghost done: seq<byte>)
      requires Holds(done, []) && len == |msg| && msg == done + data
      modifies `bufLen, state, buf
      ensures Valid()
    {
      hide Compress, CompressAll;
      var whole := |data| - |data| % 64;
      CompressAllConcat(H0, done, data[..whole]);
      X86Sha.Compress1(state, data[..whole]);
      CopyInto(buf, 0, data[whole..]);
      bufLen := |data| - whole;
      assert msg == done + data[..whole] + data[whole..];
      Split(done + data[..whole], data[whole..]);
    }

    /** Bytes missing from the partial block. */
    function Gap(): (r: nat)
      requires bufLen == len % 64
      reads this
      ensures r < 64 && (len + r) % 64 == 0
    {
      (64 - bufLen) % 64
    }

    /** `finish` takes the hasher by value: the object is spent afterwards. */
    method Finish() returns (d: seq<byte>)
      requires Valid() && |msg| < MAX_LEN
      modifies this, state, buf
      ensures d == Hash(old(msg))
    {
      hide CompressAll, StateOf, StateBytes, ToBE;
      ghost var m := msg;
      var bits := len * 8 % U64_MOD;
      var pad := new byte[72](i => 0);
      pad[0] := 0x80;
      var zeros := WrappingSub(55, bufLen) % 64;
      WrappedZeros(len);
      ghost var head := pad[..1 + zeros];
      assert head == [0x80] + Zeros(zeros);
      CopyInto(pad, 1 + zeros, ToBE(bits, 8));
      assert pad[..9 + zeros] == head + ToBE(bits, 8);
      Update(pad[..9 + zeros]);
      PaddedParts(m, msg, head, bits, zeros);
      assert msg[..len - bufLen] == msg;
      d := StateBytes(StateOf(state));
    }
  }

  /** `usize::wrapping_sub`. */
  function WrappingSub(x: nat, y: nat): (r: nat)
    requires x < U64_MOD && y < U64_MOD
  {
    (x - y + U64_MOD) % U64_MOD
  }

  lemma WrappedZeros(len: nat)
    ensures WrappingSub(55, len % 64) % 64 == PadZeros(len)
  {
    var (q, b) := (len / 64, len % 64);
    var w := WrappingSub(55, b);
    assert w == if b <= 55 then 55 - b else 55 - b + U64_MOD;
    var z := if b <= 55 then 55 - b else 119 - b;
    ModUnique(w, 64, if b <= 55 then 0 else U64_MOD / 64 - 1, z);
    ModUnique(len + 9, 64, if b < 55 then q else q + 1, if b < 55 then b + 9 else b - 55);
  }

  lemma PaddedParts(m: seq<byte>, msg: seq<byte>, head: seq<byte>, bits: nat, zeros: nat)
    requires zeros == PadZeros(|m|) && head == [0x80] + Zeros(zeros) && |m| < MAX_LEN && bits == |m| * 8 % U64_MOD
    requires msg == m + (head + ToBE(bits, 8))
    ensures msg == Padded(m)
  {
    hide ToBE, PadZeros;
    assert bits == 8 * |m|;
  }

  method Digest(data: seq<byte>) returns (d: seq<byte>)
    requires |data| < MAX_LEN
    ensures d == Hash(data)
  {
    hide Compress, CompressAll, Hash;
    var h := new Sha256();
    h.Update(data);
    assert h.msg == data;
    d := h.Finish();
  }

  /** `update2`: whole blocks straight into two hashers that are both at a block boundary. */
  method Update2(a: Sha256, b: Sha256, da: seq<byte>, db: seq<byte>)
    requires a != b && a.state != b.state && a.buf != b.buf
    requires a.Valid() && b.Valid() && a.Gap() == 0 && b.Gap() == 0
    requires |da| == |db| && |da| % 64 == 0
    modifies a, b, a.state, b.state
    ensures a.Valid() && a.msg == old(a.msg) + da && a.Gap() == 0
    ensures b.Valid() && b.msg == old(b.msg) + db && b.Gap() == 0
  {
    hide CompressAll, Compress;
    assert a.bufLen == 0 && b.bufLen == 0;
    assert a.msg[..a.len] == a.msg && b.msg[..b.len] == b.msg;
    CompressAllConcat(H0, a.msg, da);
    CompressAllConcat(H0, b.msg, db);
    X86Sha.Compress2(a.state, b.state, da, db);
    a.len := a.len + |da|;
    b.len := b.len + |db|;
    a.msg := a.msg + da;
    b.msg := b.msg + db;
    assert a.msg[..a.len] == a.msg && b.msg[..b.len] == b.msg;
  }

  /** The rest of the last block after a 32-byte message that follows `before` bytes of whole blocks. */
  function ShortTail(bits: nat): (r: seq<byte>)
    ensures |r| == 32
  {
    [0x80] + Zeros(29) + ToBE(bits, 2)
  }

  lemma ShortPadding(whole: seq<byte>, x: seq<byte>)
    requires (|whole| == 0 || |whole| == 64) && |x| == 32
    ensures Padded(whole + x) == whole + (x + ShortTail(8 * (|whole| + 32)))
  {
    var bits := 8 * (|whole| + 32);
    assert bits == 256 || bits == 768;
    assert PadZeros(|whole + x|) == 23;
    assert ToBE(bits, 8) == Zeros(6) + ToBE(bits, 2) by { WideBE(bits); }
    assert Zeros(23) + Zeros(6) == Zeros(29);
  }

  lemma WideBE(bits: nat)
    requires bits < 0x1_0000
    ensures ToBE(bits, 8) == Zeros(6) + ToBE(bits, 2)
  {
    var q := bits / 256;
    assert q / 256 == 0 && 0 / 256 == 0;
    ZeroBE(6);
    assert ToBE(q, 7) == ToBE(0, 6) + [q % 256];
    assert ToBE(bits, 8) == ToBE(q, 7) + [bits % 256];
    assert ToBE(q, 1) == ToBE(0, 0) + [q % 256];
    assert ToBE(bits, 2) == ToBE(q, 1) + [bits % 256];
  }

  lemma {:induction false} ZeroBE(n: nat)
    ensures ToBE(0, n) == Zeros(n)
  {
    if n > 0 {
      ZeroBE(n - 1);
      assert ToBE(0, n) == ToBE(0, n - 1) + [0];
    }
  }

  /** Hashing 32 bytes after absorbed whole blocks is one compression. */
  lemma ShortHash(s: State, whole: seq<byte>, x: seq<byte>)
    requires (|whole| == 0 || |whole| == 64) && |x| == 32
    requires s == CompressAll(H0, whole)
    ensures StateBytes(Compress(s, x + ShortTail(8 * (|whole| + 32)))) == Hash(whole + x)
  {
    hide Compress;
    var block := x + ShortTail(8 * (|whole| + 32));
    ShortPadding(whole, x);
    CompressAllConcat(H0, whole, block);
    CompressOne(s, block);
  }

  /** Compress one block held in an array into a copy of `s`. */
  method CompressCopy(s: State, block: seq<byte>) returns (r: State)
    requires |block| == 64
    ensures r == Compress(s, block)
  {
    hide Compress;
    var a := new word[8];
    X86Sha.StoreState(a, s);
    X86Sha.Compress1(a, block);
    CompressOne(s, block);
    r := StateOf(a);
  }

  /** `ShaExt::iterate`. */
  method Iterate(x: seq<byte>, n: nat) returns (y: seq<byte>)
    requires |x| == 32
    ensures y == HashN(x, n)
  {
    hide Compress, Hash;
    y := x;
    var block := new byte[64](i => 0);
    block[32] := 0x80;
    CopyInto(block, 62, ToBE(256, 2));
    assert block[32..] == ShortTail(256);
    for i := 0 to n
      invariant |y| == 32 && y == HashN(x, i)
      invariant block[32..] == ShortTail(256)
    {
      CopyInto(block, 0, y);
      assert block[..] == y + ShortTail(256);
      var s := CompressCopy(H0, block[..]);
      ShortHash(H0, [], y);
      assert [] + y == y;
      y := StateBytes(s);
    }
  }

  lemma {:induction false} TBlocksPrefix(password: seq<byte>, salt: seq<byte>, c: nat, l: nat, i: nat)
    requires c >= 1 && i <= l
    ensures TBlocks(password, salt, c, l)[..32 * i] == TBlocks(password, salt, c, i)
    decreases l
  {
    hide F;
    if i < l {
      TBlocksPrefix(password, salt, c, l - 1, i);
      assert TBlocks(password, salt, c, l)[..32 * i] == TBlocks(password, salt, c, l - 1)[..32 * i];
    }
  }

  /** The two HMAC pad blocks of RFC 2104. */
  ghost function IPad(password: seq<byte>): (r: seq<byte>)
    ensures |r| == 64
  {
    XorAll(BlockKey(password), Repeat(0x36, 64))
  }

  ghost function OPad(password: seq<byte>): (r: seq<byte>)
    ensures |r| == 64
  {
    XorAll(BlockKey(password), Repeat(0x5c, 64))
  }

  /** `pbkdf2_hmac_sha256`. The source runs its loop from 1, so an iteration count of 0 acts as 1. */
  method Pbkdf2HmacSha256(password: seq<byte>, salt: seq<byte>, iterations: nat, out: array<byte>)
    requires |password| < MAX_LEN && |salt| < MAX_LEN - 128
    requires out.Length <= 32 * 0xffff_ffff  // the bound RFC 8018 puts on dkLen
    modifies out
    ensures out[..] == Pbkdf2(password, salt, if iterations == 0 then 1 else iterations, out.Length)
  {
    hide Compress, CompressAll, Hash, XorAll, F, ToBE;
    ghost var c := if iterations == 0 then 1 else iterations;
    var key := KeyBlock(password);
    var inner := CompressCopy(H0, XorAll(key, Repeat(0x36, 64)));
    var outer := CompressCopy(H0, XorAll(key, Repeat(0x5c, 64)));
    var block := new byte[64](i => 0);
    block[32] := 0x80;
    CopyInto(block, 62, ToBE(768, 2));
    assert block[32..] == ShortTail(768);
    ghost var l := (out.Length + 31) / 32;
    var i := 0;
    while 32 * i < out.Length
      invariant block[32..] == ShortTail(768)
      invariant i <= l
      invariant out[..if 32 * i < out.Length then 32 * i else out.Length]
             == TBlocks(password, salt, c, i)[..if 32 * i < out.Length then 32 * i else out.Length]
    {
      var t := OneT(inner, outer, password, salt, iterations, i, block);
      var n := if out.Length - 32 * i < 32 then out.Length - 32 * i else 32;
      ghost var done := out[..32 * i];
      CopyInto(out, 32 * i, t[..n]);
      assert out[..32 * i + n] == done + t[..n];
      i := i + 1;
    }
    assert out[..] == out[..out.Length];
    assert i == l;
  }

  method KeyBlock(password: seq<byte>) returns (k: seq<byte>)
    requires |password| < MAX_LEN
    ensures k == BlockKey(password)
  {
    hide Hash;
    var key := new byte[64](i => 0);
    if |password| > 64 {
      var kd := Digest(password);
      CopyInto(key, 0, kd);
    } else {
      CopyInto(key, 0, password);
    }
    k := key[..];
  }

  /** U_1: the absorbed pads resumed, salt and block number appended. */
  method FirstU(inner: State, outer: State, ghost password: seq<byte>, salt: seq<byte>, i: nat) returns (u: seq<byte>)
    requires |salt| < MAX_LEN - 128
    requires inner == Compress(H0, IPad(password)) && outer == Compress(H0, OPad(password))
    ensures u == U(password, salt, i + 1, 1)
  {
    hide Compress, CompressAll, Hash, XorAll, BlockKey, ToBE;
    var h := new Sha256.Resume(inner, IPad(password));
    h.Update(salt);
    h.Update(ToBE(i + 1, 4));
    assert h.msg == IPad(password) + (salt + ToBE(i + 1, 4));
    var d := h.Finish();
    var h2 := new Sha256.Resume(outer, OPad(password));
    h2.Update(d);
    u := h2.Finish();
  }

  /** U_{j+1} from U_j by two compressions. */
  method NextU(inner: State, outer: State, ghost password: seq<byte>, u: seq<byte>, block: array<byte>)
    returns (u': seq<byte>)
    requires block.Length == 64 && block[32..] == ShortTail(768) && |u| == 32
    requires inner == Compress(H0, IPad(password)) && outer == Compress(H0, OPad(password))
    modifies block
    ensures block[32..] == ShortTail(768)
    ensures u' == Hmac(password, u)
  {
    hide Compress, CompressAll, Hash, XorAll, BlockKey;
    CompressOne(H0, IPad(password));
    CompressOne(H0, OPad(password));
    CopyInto(block, 0, u);
    assert block[..] == u + ShortTail(768);
    var s := CompressCopy(inner, block[..]);
    ShortHash(inner, IPad(password), u);
    CopyInto(block, 0, StateBytes(s));
    assert block[..] == StateBytes(s) + ShortTail(768);
    ShortHash(outer, OPad(password), StateBytes(s));
    s := CompressCopy(outer, block[..]);
    u' := StateBytes(s);
  }

  /** One turn of the output loop: T_{i+1}. */
  method OneT(inner: State, outer: State, ghost password: seq<byte>, salt: seq<byte>, iterations: nat, i: nat,
              block: array<byte>)
    returns (t: seq<byte>)
    requires |salt| < MAX_LEN - 128 && block.Length == 64 && block[32..] == ShortTail(768)
    requires inner == Compress(H0, IPad(password)) && outer == Compress(H0, OPad(password))
    modifies block
    ensures block[32..] == ShortTail(768)
    ensures t == F(password, salt, if iterations == 0 then 1 else iterations, i + 1)
  {
    hide Compress, Hmac, XorAll, IPad, OPad, ShortTail;
    var u := FirstU(inner, outer, password, salt, i);
    t := u;
    var j := 1;
    while j < iterations
      invariant 1 <= j && (j <= iterations || (iterations == 0 && j == 1))
      invariant block[32..] == ShortTail(768)
      invariant u == U(password, salt, i + 1, j)
      invariant t == F(password, salt, j, i + 1)
    {
      u := NextU(inner, outer, password, u, block);
      t := XorAll(t, u);
      j := j + 1;
    }
  }
}
