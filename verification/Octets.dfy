/** Bytes as numbers and the little-endian 32-bit words of the journal format. */
module Octets {

  type Octet = n: int | 0 <= n < 256

  const U32_RANGE: nat := 0x1_0000_0000

  type U32 = n: int | 0 <= n < 0x1_0000_0000

  function EncodeU32(n: U32): (b: seq<Octet>)
    ensures |b| == 4
  {
    [n % 256, n / 256 % 256, n / 65536 % 256, n / 16777216]
  }

  function DecodeU32(b: seq<Octet>): (n: U32)
    requires |b| == 4
  {
    var b0: int, b1: int, b2: int, b3: int := b[0], b[1], b[2], b[3];
    b0 + 256 * b1 + 65536 * b2 + 16777216 * b3
  }

  /** Decoding gives the word back, and its lowest byte comes first. */
  lemma U32RoundTrip(n: U32)
    ensures DecodeU32(EncodeU32(n)) == n && EncodeU32(n)[0] == n % 256
    ensures EncodeU32(n) == [0, 0, 0, 0] <==> n == 0
  {
    assert n == n % 256 + 256 * (n / 256);
    assert n / 256 == n / 256 % 256 + 256 * (n / 65536);
    assert n / 65536 == n / 65536 % 256 + 256 * (n / 16777216);
  }

  lemma WordBack(b: seq<Octet>)
    requires |b| == 4
    ensures EncodeU32(DecodeU32(b)) == b
  {
    var b0: int, b1: int, b2: int, b3: int := b[0], b[1], b[2], b[3];
    var n := DecodeU32(b);
    assert n == b0 + 256 * (b1 + 256 * (b2 + 256 * b3));
    assert n / 256 == b1 + 256 * (b2 + 256 * b3);
    assert n / 65536 == b2 + 256 * b3;
    assert n / 16777216 == b3;
  }

  lemma ZeroWord(b: seq<Octet>)
    requires |b| == 4
    ensures DecodeU32(b) == 0 <==> b == [0, 0, 0, 0]
  {
    assert b == [b[0], b[1], b[2], b[3]];
  }
}
