/** Raw storage bytes, Rust's `u8`. */
module Bytes {

  newtype byte = x: int | 0 <= x < 256

  /** `n` zero bytes, as in `[0; n]`. */
  function Zeros(n: nat): (r: seq<byte>)
    ensures |r| == n
    ensures forall i :: 0 <= i < n ==> r[i] == 0
  {
    seq(n, _ => 0)
  }
}
