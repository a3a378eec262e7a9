/** The Hamming 8/4 helpers shared by the T42 and TTX codecs (both parsers
    carry identical private copies).  The bit placement follows section 8.2 of
    ETSI EN 300 706 (data bits in positions 1, 3, 5, 7), but decoding ignores the
    parity bits and the encoder's parity equations are the source's own, not the
    standard's codeword table. */
module Hamming {
  import opened Pages

  /** Data bits 1, 3, 5 and 7 of the byte, packed d4 d3 d2 d1; the parity bits
      are not looked at. */
  function DecodeBits(x: bv8): (n: bv8)
    ensures n < 16
  {
    var d1 := (x >> 1) & 1;
    var d2 := (x >> 3) & 1;
    var d3 := (x >> 5) & 1;
    var d4 := (x >> 7) & 1;
    (d4 << 3) | (d3 << 2) | (d2 << 1) | d1
  }

  /** The four low bits of n with the source's parity bits p1..p4, packed
      d4 p4 d3 p3 d2 p2 d1 p1 from bit 7 down to bit 0. */
  function EncodeBits(n: bv8): bv8
  {
    var d1 := n & 1;
    var d2 := (n >> 1) & 1;
    var d3 := (n >> 2) & 1;
    var d4 := (n >> 3) & 1;
    var p1 := d1 ^ d3 ^ d4;
    var p2 := d1 ^ d2 ^ d4;
    var p3 := d1 ^ d2 ^ d3;
    var p4 := d2 ^ d3 ^ d4;
    (d4 << 7) | (p4 << 6) | (d3 << 5) | (p3 << 4) | (d2 << 3) | (p2 << 2) | (d1 << 1) | p1
  }

  /** `hammingDecode(byte)` on a byte 0..255. */
  function Decode(b: Byte): (n: int)
    ensures 0 <= n < 16
  {
    DecodeBits(b as bv8) as int
  }

  /** `hammingEncode(nibble)`: only the four low bits of the argument are read. */
  function Encode(nibble: int): (b: Byte)
  {
    EncodeBits((nibble % 16) as bv8) as int
  }

  lemma DecodeEncodeBits(n: bv8)
    requires n < 16
    ensures DecodeBits(EncodeBits(n)) == n
  {
  }

  /** Decoding an encoded value gives back its four low bits, so every nibble
      0..15 survives the round trip. */
  lemma DecodeEncode(nibble: int)
    ensures Decode(Encode(nibble)) == nibble % 16
  {
    DecodeEncodeBits((nibble % 16) as bv8);
  }

  /** Every nibble 0..15 survives encoding and decoding. */
  lemma DecodeEncodeNibble(nibble: int)
    requires 0 <= nibble < 16
    ensures Decode(Encode(nibble)) == nibble
  {
    DecodeEncode(nibble);
  }

  /** The byte with bit i inverted. */
  function FlipBit(b: Byte, i: nat): (f: Byte)
    requires i < 8
  {
    ((b as bv8) ^ ((1 as bv8) << i)) as int
  }

  /** Flipping a parity position (bit 0, 2, 4 or 6) changes the byte but never
      the decoded nibble: decoding reads bits 1, 3, 5 and 7 only. */
  lemma ParityBitsIgnored(b: Byte, i: nat)
    requires i == 0 || i == 2 || i == 4 || i == 6
    ensures FlipBit(b, i) != b
    ensures Decode(FlipBit(b, i)) == Decode(b)
  {
    var x := b as bv8;
    var m: bv8 := if i == 0 then 1 else if i == 2 then 4 else if i == 4 then 16 else 64;
    assert (1 as bv8) << i == m;
    FlipParity(x, m);
    var y := x ^ m;
    assert FlipBit(b, i) == y as int;
    BvRoundTrip(x, y);
  }

  lemma BvRoundTrip(x: bv8, y: bv8)
    ensures (y as int) as bv8 == y
    ensures x != y ==> x as int != y as int
  {
  }

  lemma FlipParity(x: bv8, m: bv8)
    requires m == 1 || m == 4 || m == 16 || m == 64
    ensures x ^ m != x && DecodeBits(x ^ m) == DecodeBits(x)
  {
  }

  /** The encoder's parity equations are not the standard's codeword table:
      nibble 0 encodes to 0x00 here. */
  lemma EncodeZero()
    ensures Encode(0) == 0x00
  {
  }
}
