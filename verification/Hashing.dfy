/** A message digest as ring exposes it: an arbitrary function with a fixed output length. */
module Hashing {
  import opened Bytes
  import Fips180

  /** `h` is the function, `outLen` its output length u, `blockLen` its block length v. `isSha256`
      is the source's test `*alg == SHA256`. */
  datatype Algorithm = Algorithm(isSha256: bool, h: seq<byte> -> seq<byte>, outLen: nat, blockLen: nat) {
    ghost predicate Valid() {
      && 1 <= outLen <= 64 && 1 <= blockLen
      && (forall m :: |h(m)| == outLen)
      && (isSha256 ==> outLen == 32 && blockLen == 64 && forall m :: h(m) == Fips180.Hash(m))
    }
  }
}
