/** A file as a byte sequence with write-at and set-length. */
module Files {
  import opened Bytes

  /** `write_all_at`: writing past the end leaves zeros in the hole; writing nothing changes nothing. */
  function WriteAt(f: seq<byte>, off: nat, data: seq<byte>): (r: seq<byte>)
    ensures off + |data| <= |f| ==> r == f[..off] + data + f[off + |data|..]
    ensures data != [] && off <= |f| < off + |data| ==> r == f[..off] + data
  {
    if data == [] then
      assert off <= |f| ==> f == f[..off] + data + f[off..];
      f
    else
      var g := if |f| < off then f + Zeros(off - |f|) else f;
      g[..off] + data + (if off + |data| <= |g| then g[off + |data|..] else [])
  }

  /** `set_len`: cut the file short, or extend it with zeros. */
  function SetLen(f: seq<byte>, n: nat): (r: seq<byte>)
    ensures |r| == n
    ensures forall i :: 0 <= i < n ==> r[i] == if i < |f| then f[i] else 0
  {
    if n <= |f| then f[..n] else f + Zeros(n - |f|)
  }

  lemma WriteAtTwice(f: seq<byte>, off: nat, x: seq<byte>, y: seq<byte>)
    requires off <= |f|
    ensures WriteAt(WriteAt(f, off, x), off + |x|, y) == WriteAt(f, off, x + y)
  {
    var g := WriteAt(f, off, x);
    if x == [] {
      assert x + y == y;
    } else if y == [] {
      assert x + y == x;
    } else {
      assert g[..off + |x|] == f[..off] + x;
      if off + |x| + |y| <= |f| {
        assert g[off + |x| + |y|..] == f[off + |x| + |y|..];
      }
    }
  }

  class File {
    var bytes: seq<byte>

    constructor (bytes: seq<byte>)
      ensures this.bytes == bytes
    {
      this.bytes := bytes;
    }

    method WriteAllAt(off: nat, data: seq<byte>)
      modifies this
      ensures bytes == WriteAt(old(bytes), off, data)
    {
      bytes := WriteAt(bytes, off, data);
    }

    method SetLength(n: nat)
      modifies this
      ensures bytes == SetLen(old(bytes), n)
    {
      bytes := SetLen(bytes, n);
    }
  }
}
