/** Types and functions that several modules use. */
module Basics {

  datatype Option<+T> = None | Some(value: T)

  /** Number of 64-bit values. */
  const WORD: nat := 0x1_0000_0000_0000_0000

  /** Bytes of a page of memory. */
  const PAGE: nat := 4096

  type Byte = bv8

  function Repeat<T>(x: T, n: nat): (r: seq<T>)
    ensures |r| == n && forall i | 0 <= i < n :: r[i] == x
  {
    seq(n, _ => x)
  }

  /** The chunks one after the other. */
  function Flatten<T>(chunks: seq<seq<T>>): seq<T> {
    if |chunks| == 0 then [] else chunks[0] + Flatten(chunks[1..])
  }
}
