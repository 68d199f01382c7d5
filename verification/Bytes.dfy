/** Byte strings and their big-endian reading. */
module Bytes {
  newtype byte = b: int | 0 <= b < 256

  type bytes = seq<byte>

  /** The number that the bytes spell, most significant first. */
  function IntFromBytes(b: bytes): (r: int)
    ensures r >= 0
  {
    if b == [] then 0 else 256 * IntFromBytes(b[..|b| - 1]) + b[|b| - 1] as int
  }

  function Power256(n: nat): (r: int)
    ensures r >= 1
  {
    if n == 0 then 1 else 256 * Power256(n - 1)
  }

  /** A number as n bytes, most significant first. */
  function BytesFromInt(x: int, n: nat): (b: bytes)
    requires 0 <= x < Power256(n)
    ensures |b| == n
  {
    if n == 0 then [] else BytesFromInt(x / 256, n - 1) + [(x % 256) as byte]
  }

  lemma {:induction false} BytesRoundTrip(x: int, n: nat)
    requires 0 <= x < Power256(n)
    ensures IntFromBytes(BytesFromInt(x, n)) == x
  {
    if n > 0 {
      BytesRoundTrip(x / 256, n - 1);
      var b := BytesFromInt(x, n);
      assert b[..n - 1] == BytesFromInt(x / 256, n - 1);
    }
  }
}
