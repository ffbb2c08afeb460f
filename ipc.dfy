/** Values that travel over the process boundary: raw texture buffers and the helpers both sides share. */
module Ipc {

  /** One byte of an `ArrayBufferLike`; the renderer reads it through an `Int8Array`, which compares bit patterns. */
  type Byte = bv8

  /** A raw (undecoded) texture buffer. Correlation compares buffers by content only. */
  type Buffer = seq<Byte>

  /** `T | null`. */
  datatype Option<T> = None | Some(value: T)

  /** `n` copies of `x`: what a notification produces when `n` registered copies of a handler all run. */
  function Repeat<T>(x: T, n: nat): (r: seq<T>)
    ensures |r| == n
    ensures forall k :: 0 <= k < n ==> r[k] == x
  {
    if n == 0 then [] else Repeat(x, n - 1) + [x]
  }
}
