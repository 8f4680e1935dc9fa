/** Byte strings and 256-bit hashes in internal byte order. */
module Bytes {

  type Byte = b: int | 0 <= b < 256

  /** An unsigned 32-bit integer. */
  type Word = w: int | 0 <= w < 0x1_0000_0000

  /** src/bitcoin/hash.hpp: 32 bytes, exactly as SHA-256d produces them. */
  type Hash256 = h: seq<Byte> | |h| == 32 witness seq(32, _ => 0)

  function ZeroHash(): Hash256 { seq(32, _ => 0) }

  function Concat<T>(chunks: seq<seq<T>>): seq<T> {
    if |chunks| == 0 then [] else Concat(chunks[..|chunks| - 1]) + chunks[|chunks| - 1]
  }

  lemma Associative<T>(a: seq<T>, b: seq<T>, c: seq<T>)
    ensures a + (b + c) == a + b + c
  {
  }
}
