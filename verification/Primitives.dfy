/** Shared value types: optional and fallible results, and the fixed-width integers of the node. */
module Primitives {

  datatype Option<+T> = None | Some(value: T)

  datatype Result<+T, +E> = Ok(value: T) | Err(error: E)

  const U32_MAX: int := 0xffff_ffff
  const U64_MAX: int := 0xffff_ffff_ffff_ffff
  const U128_MAX: int := 0xffff_ffff_ffff_ffff_ffff_ffff_ffff_ffff

  type byte = b: int | 0 <= b < 256
  type u32 = n: int | 0 <= n <= 0xffff_ffff
  type u64 = n: int | 0 <= n <= 0xffff_ffff_ffff_ffff
  type u128 = n: int | 0 <= n <= 0xffff_ffff_ffff_ffff_ffff_ffff_ffff_ffff

  /** A vector whose length fits the four-byte length prefix of the wire encoding. */
  type Short<T> = s: seq<T> | |s| <= 0xffff_ffff witness []

  /** What remains of a sum in 64 bits when nobody checks it. */
  function Wrap64(n: nat): u64 {
    n % (U64_MAX + 1)
  }

  lemma WrapAdds(n: nat, m: nat)
    ensures Wrap64(Wrap64(n) + m) == Wrap64(n + m)
  {
  }

  lemma WrapIsExact(n: nat)
    requires n <= U64_MAX
    ensures Wrap64(n) == n
  {
  }
}
