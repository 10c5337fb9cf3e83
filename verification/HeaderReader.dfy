/** The sliding-window reader of local file headers in src/align.rs. */
module HeaderReader {
  import opened Wrappers
  import opened Bytes
  import opened Zip

  const WINDOW_SIZE: nat := 0x4_0000

  datatype HeaderError = NoHeader(at: nat) | Overruns(at: nat) | ReadFailed

  /** Length of a local header that starts with `h`: 30 bytes, name, extra (section 4.3.7 of the
      PKWARE APPNOTE). */
  function HeaderLen(h: seq<byte>): (n: nat)
    requires |h| >= LFH_LEN
    ensures LFH_LEN <= n <= LFH_LEN + 2 * 0xffff
  {
    LFH_LEN + U16(h, 26) + U16(h, 28)
  }

  /** A direct read of the header at `off` in the section `[0, end)`. */
  function HeaderAt(input: seq<byte>, end: nat, off: nat): (r: Result<seq<byte>, HeaderError>)
    requires off + LFH_LEN <= end <= |input|
  {
    var h := input[off..off + LFH_LEN];
    if h[..4] != LFH_SIG then Err(NoHeader(off))
    else if off + HeaderLen(h) > end then Err(Overruns(off))
    else Ok(input[off..off + HeaderLen(h)])
  }

  lemma SliceOfPrefix(a: array<byte>, n: nat, i: nat, j: nat)
    requires i <= j <= n <= a.Length
    ensures a[i..j] == a[..n][i..j]
  {
  }

  class Reader {
    const input: seq<byte>
    const entriesEnd: nat
    const flaky: bool  // whether reads may fail
    const window: array<byte>
    var winOff: nat
    var winLen: nat

    /** The window is a copy of the input. A failed read leaves it broken: `winOff` and `winLen` are
        set first. */
    ghost predicate Valid()
      reads this, window
    {
      && window.Length == WINDOW_SIZE && entriesEnd <= |input|
      && winLen <= WINDOW_SIZE && winOff + winLen <= |input|
      && window[..winLen] == input[winOff..winOff + winLen]
    }

    constructor (input: seq<byte>, entriesEnd: nat, flaky: bool)
      requires entriesEnd <= |input|
      ensures Valid() && fresh(window)
      ensures winOff == winLen == 0
      ensures this.input == input && this.entriesEnd == entriesEnd && this.flaky == flaky
    {
      this.input, this.entriesEnd, this.flaky := input, entriesEnd, flaky;
      window := new byte[WINDOW_SIZE](_ => 0);
      winOff, winLen := 0, 0;
    }

    /** `read_exact_at` into the front of the window. */
    method ReadWindow(off: nat, n: nat) returns (ok: bool)
      requires window.Length == WINDOW_SIZE && n <= WINDOW_SIZE && off + n <= |input|
      modifies window
      ensures ok ==> window[..n] == input[off..off + n]
      ensures !flaky ==> ok
    {
      var fails: bool := *;
      if flaky && fails {
        return false;
      }
      forall i | 0 <= i < n {
        window[i] := input[off + i];
      }
      ok := true;
    }

    method Ensure(off: nat, need: nat) returns (r: Result<nat, HeaderError>)
      requires Valid() && off <= entriesEnd
      modifies `winOff, `winLen, window
      ensures r.Ok? ==> Valid() && off + need <= |input| && r.value + need <= winLen
                        && window[r.value..r.value + need] == input[off..off + need]
      ensures !flaky && need <= WINDOW_SIZE && off + need <= entriesEnd ==> r.Ok?
      ensures r.Err? ==> r.error == Overruns(off) || (flaky && r.error == ReadFailed)
      ensures need <= WINDOW_SIZE && r == Err(Overruns(off)) ==> off + need > entriesEnd
      ensures old(winOff + winLen) <= entriesEnd ==> winOff + winLen <= entriesEnd
      ensures old(winOff + winLen) <= entriesEnd && r.Ok? ==> off + need <= entriesEnd
    {
      if off < winOff || off + need > winOff + winLen {
        winOff := off;
        winLen := if entriesEnd - off < WINDOW_SIZE then entriesEnd - off else WINDOW_SIZE;
        if need > winLen {
          return Err(Overruns(off));
        }
        var ok := ReadWindow(off, winLen);
        if !ok {
          return Err(ReadFailed);
        }
      }
      ghost var rel := off - winOff;
      SliceOfPrefix(window, winLen, rel, rel + need);
      SubSlice(input, winOff, winLen, rel, rel + need);
      return Ok(off - winOff);
    }

    /** `prefix`: it succeeds, and fails, exactly as a direct read of the input does, but for a failing
        read. The window is wide enough for any header. */
    method Prefix(off: nat) returns (r: Result<seq<byte>, HeaderError>)
      requires Valid() && winOff + winLen <= entriesEnd && off + LFH_LEN <= entriesEnd
      modifies `winOff, `winLen, window
      ensures r.Ok? ==> Valid() && winOff + winLen <= entriesEnd
      ensures r == HeaderAt(input, entriesEnd, off) || (flaky && r == Err(ReadFailed))
    {
      var e := Ensure(off, LFH_LEN);
      if e.Err? {
        return Err(e.error);
      }
      var h := window[e.value..e.value + LFH_LEN];
      assert h == input[off..off + LFH_LEN];
      if h[..4] != LFH_SIG {
        return Err(NoHeader(off));
      }
      var need := HeaderLen(h);
      e := Ensure(off, need);
      if e.Err? {
        return Err(e.error);
      }
      return Ok(window[e.value..e.value + need]);
    }
  }
}
