/** Bytes and the big-endian combine `bytes_to_int` shared by both host scripts. */
module Bytes {

  /** An unsigned 8-bit value as the transport hands it to Python. */
  type byte = b: int | 0 <= b < 256

  /** One more than the largest unsigned 16-bit value. */
  const Uint16Limit: nat := 0x1_0000

  /**
   * `bytes_to_int(buf)`: `buf[1] | buf[0] << 8`. On Python's unbounded integers `buf[0] << 8`
   * is `buf[0] * 256`, whose low eight bits are clear, so or-ing in a byte is adding it.
   * Only the first two entries are looked at.
   */
  function BytesToInt(buf: seq<byte>): (r: nat)
    requires |buf| >= 2
    ensures r < Uint16Limit
  {
    buf[0] as int * 256 + buf[1]
  }

  /** Splits a 16-bit sample into its high and low byte, the order `BytesToInt` expects. */
  function SampleBytes(r: nat): (buf: seq<byte>)
    requires r < Uint16Limit
    ensures |buf| == 2
  {
    [r / 256, r % 256]
  }

  /** Combining the two bytes of a split sample gives the sample back. */
  lemma SampleRoundTrip(r: nat)
    requires r < Uint16Limit
    ensures BytesToInt(SampleBytes(r)) == r
  {
  }

  /** Splitting a combined pair gives the pair back: `BytesToInt` is injective on pairs. */
  lemma PairRoundTrip(hi: byte, lo: byte)
    ensures SampleBytes(BytesToInt([hi, lo])) == [hi, lo]
  {
  }
}
