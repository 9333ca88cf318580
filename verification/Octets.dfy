/** Bytes, byte strings and their slices. */
module Octets {

  type byte = x: int | 0 <= x < 256

  type Bytes = seq<byte>

  /** `subarray` of a typed array, which clamps its bounds. */
  function Subarray(raw: Bytes, lo: nat, hi: nat): Bytes
    requires lo <= hi
  {
    if hi <= |raw| then raw[lo..hi] else if lo <= |raw| then raw[lo..] else []
  }
}
