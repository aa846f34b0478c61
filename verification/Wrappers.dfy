/** Value types and small notions that several modules share. */
module Wrappers {
  datatype Option<+T> = None | Some(value: T)

  /** One octet. */
  type Byte = x: int | 0 <= x < 256

  /** kMaxSequenceNumber: 56 bits, the low 8 of the tag being the type. */
  const MAX_SEQUENCE: nat := 0xff_ffff_ffff_ffff

  ghost predicate Transitive<K(!new)>(less: (K, K) -> bool) {
    forall a, b, c :: less(a, b) && less(b, c) ==> less(a, c)
  }

  function Flatten<T>(parts: seq<seq<T>>): seq<T> {
    if parts == [] then [] else Flatten(parts[..|parts| - 1]) + parts[|parts| - 1]
  }
}
