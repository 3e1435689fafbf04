/**
  Little-endian byte strings as a reference definition: byte 0 is the least
  significant. The device's counters are read against this definition.
 */
module LittleEndian {

  /** An unsigned octet as it sits in a HID report buffer. */
  type byte = b: nat | b < 256

  /** 256 to the power n: one more than the largest n-byte value. */
  function Pow256(n: nat): (r: nat)
    ensures r >= 1
  {
    if n == 0 then 1 else 256 * Pow256(n - 1)
  }

  /** The value of a little-endian byte string. */
  function LeValue(bs: seq<byte>): nat
  {
    if |bs| == 0 then 0 else bs[0] + 256 * LeValue(bs[1..])
  }

  /** The n-byte little-endian encoding of v (higher bytes beyond n are dropped). */
  function LeBytes(v: nat, n: nat): (bs: seq<byte>)
    ensures |bs| == n
  {
    if n == 0 then [] else [v % 256] + LeBytes(v / 256, n - 1)
  }

  /** An n-byte string has a value below 256^n. */
  lemma {:induction false} LeValueBound(bs: seq<byte>)
    ensures LeValue(bs) < Pow256(|bs|)
    decreases |bs|
  {
    if |bs| > 0 {
      LeValueBound(bs[1..]);
      assert LeValue(bs[1..]) <= Pow256(|bs| - 1) - 1;
      assert 256 * LeValue(bs[1..]) <= 256 * Pow256(|bs| - 1) - 256;
    }
  }

  /** Encoding a value that fits, then decoding it, gives the value back. */
  lemma {:induction false} LeValueOfLeBytes(v: nat, n: nat)
    requires v < Pow256(n)
    ensures LeValue(LeBytes(v, n)) == v
    decreases n
  {
    if n > 0 {
      var bs := LeBytes(v, n);
      assert bs[1..] == LeBytes(v / 256, n - 1);
      assert v / 256 < Pow256(n - 1);
      LeValueOfLeBytes(v / 256, n - 1);
    }
  }

  /** Decoding a byte string, then re-encoding at its width, gives the bytes back. */
  lemma {:induction false} LeBytesOfLeValue(bs: seq<byte>)
    ensures LeBytes(LeValue(bs), |bs|) == bs
    decreases |bs|
  {
    if |bs| > 0 {
      var v := LeValue(bs);
      assert v % 256 == bs[0] && v / 256 == LeValue(bs[1..]);
      LeBytesOfLeValue(bs[1..]);
    }
  }

  /** The value of a 4-byte string, written out. */
  lemma LeValue4(bs: seq<byte>)
    requires |bs| == 4
    ensures LeValue(bs) == bs[0] as nat + 256 * (bs[1] as nat) + 65536 * (bs[2] as nat) + 16777216 * (bs[3] as nat)
  {
    assert LeValue(bs[3..]) == bs[3];
    assert LeValue(bs[2..]) == bs[2] as nat + 256 * LeValue(bs[3..]);
    assert LeValue(bs[1..]) == bs[1] as nat + 256 * LeValue(bs[2..]);
  }

  /** The value of a 3-byte string, written out. */
  lemma LeValue3(bs: seq<byte>)
    requires |bs| == 3
    ensures LeValue(bs) == bs[0] as nat + 256 * (bs[1] as nat) + 65536 * (bs[2] as nat)
  {
    assert LeValue(bs[2..]) == bs[2];
    assert LeValue(bs[1..]) == bs[1] as nat + 256 * LeValue(bs[2..]);
  }
}
