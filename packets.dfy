/** The 42-byte teletext packet shared by the T42 and TTX codecs: two Hamming
    8/4 address bytes followed by 40 data bytes, and the way a sequence of
    packets is folded onto one page, each packet overwriting the cells it writes
    in the row it addresses. */
module Packets {
  import opened Pages
  import Hamming

  const PacketSize := 42

  /** The 40 data bytes of a packet (`packet.sliceArray(2 until 42)`). */
  type PacketData = s: seq<Byte> | |s| == 40 witness seq(40, _ => 0)

  datatype Packet = Packet(magazine: int, row: int, data: PacketData)

  /** Magazine is `ham0 and 7`; the row is `((ham1 and 0xF) shl 1) or ((ham0 shr 3) and 1)`. */
  function DecodePacket(bytes: seq<Byte>): (p: Packet)
    requires |bytes| == PacketSize
    ensures 0 <= p.magazine < 8 && 0 <= p.row < 32
    ensures p.data == bytes[2..]
  {
    var ham0 := Hamming.Decode(bytes[0]);
    var ham1 := Hamming.Decode(bytes[1]);
    var y0 := (ham0 / 8) % 2;
    var row := (ham1 % 16) * 2 + y0;
    Packet(ham0 % 8, row, bytes[2..])
  }

  /** The magazine is the low three bits of the first address nibble; the
      row's low bit is that nibble's top bit and its upper bits the second
      nibble. */
  lemma DecodePacketAddress(bytes: seq<Byte>)
    requires |bytes| == PacketSize
    ensures var p := DecodePacket(bytes);
            p.magazine == Hamming.Decode(bytes[0]) % 8 &&
            p.row % 2 == Hamming.Decode(bytes[0]) / 8 && p.row / 2 == Hamming.Decode(bytes[1])
  {
    var ham0 := Hamming.Decode(bytes[0]);
    var ham1 := Hamming.Decode(bytes[1]);
    var y0 := (ham0 / 8) % 2;
    assert y0 == ham0 / 8 && ham1 % 16 == ham1;
    var row := (ham1 % 16) * 2 + y0;
    assert row % 2 == y0 && row / 2 == ham1;
  }

  /** The two address bytes of a packet for `magazine` (0..7) and `row` (0..31):
      `hammingEncode(mag or (y0 shl 3))` and `hammingEncode(y shr 1)`. */
  function EncodeAddress(magazine: int, row: int): (a: seq<Byte>)
    requires 0 <= magazine < 8 && 0 <= row < 32
    ensures |a| == 2
  {
    [Hamming.Encode(magazine + 8 * (row % 2)), Hamming.Encode(row / 2)]
  }

  /** A packet whose address bytes were produced by EncodeAddress decodes to
      that magazine and row, with its data bytes unchanged. */
  lemma DecodeEncodedPacket(magazine: int, row: int, d: PacketData)
    requires 0 <= magazine < 8 && 0 <= row < 32
    ensures DecodePacket(EncodeAddress(magazine, row) + d) == Packet(magazine, row, d)
  {
    var ham0 := magazine + 8 * (row % 2);
    AddressArith(magazine, row);
    Hamming.DecodeEncodeNibble(ham0);
    Hamming.DecodeEncodeNibble(row / 2);
    var bytes := EncodeAddress(magazine, row) + d;
    assert bytes[2..] == d;
    assert Hamming.Decode(bytes[0]) == ham0 && Hamming.Decode(bytes[1]) == row / 2;
    var p := DecodePacket(bytes);
    DecodePacketAddress(bytes);
    assert p.magazine == magazine;
    assert p.row % 2 == row % 2 && p.row / 2 == row / 2;
    assert p.row == 2 * (p.row / 2) + p.row % 2;
    assert row == 2 * (row / 2) + row % 2;
  }

  lemma AddressArith(magazine: int, row: int)
    requires 0 <= magazine < 8 && 0 <= row < 32
    ensures (magazine + 8 * (row % 2)) % 8 == magazine && (magazine + 8 * (row % 2)) / 8 == row % 2
  {
    if row % 2 == 0 {
      assert magazine + 8 * (row % 2) == magazine;
    } else {
      assert magazine + 8 * (row % 2) == magazine + 8;
    }
  }

  lemma PacketBounds(n: int, k: int)
    requires 0 <= n && 0 <= k < n / PacketSize
    ensures PacketSize * k + PacketSize <= n
  {
  }

  /** Every whole 42-byte packet of the stream, in order; a trailing partial
      packet is ignored. */
  function SplitPackets(data: seq<Byte>): (ps: seq<Packet>)
    ensures |ps| == |data| / PacketSize
    ensures forall k :: 0 <= k < |ps| ==>
              PacketSize * k + PacketSize <= |data| &&
              ps[k] == DecodePacket(data[PacketSize * k .. PacketSize * k + PacketSize])
  {
    seq(|data| / PacketSize, k requires 0 <= k < |data| / PacketSize =>
      PacketBounds(|data|, k);
      DecodePacket(data[PacketSize * k .. PacketSize * k + PacketSize]))
  }

  /** The packets up to and including the one at byte offset 42k. */
  lemma PacketsThrough(data: seq<Byte>, seen: seq<Packet>, offset: int)
    requires offset == PacketSize * |seen| && offset + PacketSize <= |data|
    requires seen == SplitPackets(data)[..|seen|]
    ensures |seen| < |SplitPackets(data)|
    ensures seen + [DecodePacket(data[offset .. offset + PacketSize])] == SplitPackets(data)[..|seen| + 1]
  {
    TakeSnoc(SplitPackets(data), |seen|);
  }

  /** Packets of 42 bytes written back to back. */
  function JoinPackets(rs: seq<seq<Byte>>): (out: seq<Byte>)
    requires forall i :: 0 <= i < |rs| ==> |rs[i]| == PacketSize
    ensures |out| == PacketSize * |rs|
  {
    if rs == [] then [] else JoinPackets(rs[..|rs| - 1]) + rs[|rs| - 1]
  }

  lemma {:induction false} JoinedSlice(rs: seq<seq<Byte>>, i: int)
    requires forall k :: 0 <= k < |rs| ==> |rs[k]| == PacketSize
    requires 0 <= i < |rs|
    ensures JoinPackets(rs)[PacketSize * i .. PacketSize * i + PacketSize] == rs[i]
  {
    var init := rs[..|rs| - 1];
    var prefix := JoinPackets(init);
    var last := rs[|rs| - 1];
    assert JoinPackets(rs) == prefix + last;
    if i < |rs| - 1 {
      JoinedSlice(init, i);
      assert init[i] == rs[i];
      assert (prefix + last)[PacketSize * i .. PacketSize * i + PacketSize] == prefix[PacketSize * i .. PacketSize * i + PacketSize];
    } else {
      assert (prefix + last)[|prefix| .. |prefix| + PacketSize] == last;
    }
  }

  /** Cutting packets written back to back gives each packet, decoded, back. */
  lemma SplitJoined(rs: seq<seq<Byte>>)
    requires forall k :: 0 <= k < |rs| ==> |rs[k]| == PacketSize
    ensures |SplitPackets(JoinPackets(rs))| == |rs|
    ensures forall k :: 0 <= k < |rs| ==> SplitPackets(JoinPackets(rs))[k] == DecodePacket(rs[k])
  {
    forall k | 0 <= k < |rs|
      ensures SplitPackets(JoinPackets(rs))[k] == DecodePacket(rs[k])
    {
      JoinedSlice(rs, k);
    }
  }

  /** What a packet writes into column c of the row it addresses, if anything. */
  type Writer = (Packet, int) -> Option<int>

  /** The page after one packet: cells of its row that it writes are replaced;
      packets addressing rows 25..31 are skipped. */
  function ApplyPacket(g: Grid, p: Packet, w: Writer): (h: Grid)
    ensures forall r, c :: 0 <= r < Rows && 0 <= c < Cols ==>
              h[r][c] == (if p.row == r && w(p, c).Some? then w(p, c).value else g[r][c])
  {
    if 0 <= p.row < Rows then
      g[p.row := seq(40, c requires 0 <= c < 40 => if w(p, c).Some? then w(p, c).value else g[p.row][c])]
    else g
  }

  /** A blank page with every packet applied in stream order. */
  function FoldPackets(ps: seq<Packet>, w: Writer): Grid
  {
    if ps == [] then Blank() else ApplyPacket(FoldPackets(ps[..|ps| - 1], w), ps[|ps| - 1], w)
  }

  lemma FoldSnoc(ps: seq<Packet>, p: Packet, w: Writer)
    ensures FoldPackets(ps + [p], w) == ApplyPacket(FoldPackets(ps, w), p, w)
  {
    assert (ps + [p])[..|ps|] == ps;
  }

  /** Some packet addresses a displayable row 0..24. */
  predicate HasPageRow(ps: seq<Packet>)
  {
    exists j :: 0 <= j < |ps| && 0 <= ps[j].row < Rows
  }

  /** The page built from a group of packets, absent when no packet addresses
      a row 0..24. */
  function BuildPage(ps: seq<Packet>, w: Writer): (r: Option<Grid>)
    ensures r.Some? <==> HasPageRow(ps)
    ensures r.Some? ==> r.value == FoldPackets(ps, w)
  {
    if HasPageRow(ps) then Some(FoldPackets(ps, w)) else None
  }

  /** The index of the last packet that writes cell (r, c), or -1. */
  function LastWriter(ps: seq<Packet>, w: Writer, r: int, c: int): (j: int)
    ensures -1 <= j < |ps|
    ensures j >= 0 ==> ps[j].row == r && w(ps[j], c).Some?
    ensures forall k :: j < k < |ps| ==> !(ps[k].row == r && w(ps[k], c).Some?)
  {
    if ps == [] then -1
    else if ps[|ps| - 1].row == r && w(ps[|ps| - 1], c).Some? then |ps| - 1
    else LastWriter(ps[..|ps| - 1], w, r, c)
  }

  /** Later packets overwrite earlier ones: a cell holds what the last packet
      writing it wrote, and a space when no packet wrote it. */
  lemma {:induction false} FoldCell(ps: seq<Packet>, w: Writer, r: int, c: int)
    requires 0 <= r < Rows && 0 <= c < Cols
    ensures FoldPackets(ps, w)[r][c] ==
              (var j := LastWriter(ps, w, r, c); if j < 0 then Space else w(ps[j], c).value)
  {
    if ps != [] {
      FoldCell(ps[..|ps| - 1], w, r, c);
    }
  }

  /** When packet j addresses row j, cell (r, c) holds what packet r writes
      there, or a space. */
  lemma FoldRowPerPacket(ps: seq<Packet>, w: Writer, r: int, c: int)
    requires forall j :: 0 <= j < |ps| ==> ps[j].row == j
    requires 0 <= r < Rows && r < |ps| && 0 <= c < Cols
    ensures FoldPackets(ps, w)[r][c] == (if w(ps[r], c).Some? then w(ps[r], c).value else Space)
  {
    FoldCell(ps, w, r, c);
  }

  /** When every write is a 7-bit code, so is every cell of the folded page. */
  lemma FoldSevenBit(ps: seq<Packet>, w: Writer)
    requires forall j, c :: 0 <= j < |ps| && 0 <= c < Cols && w(ps[j], c).Some? ==> 0 <= w(ps[j], c).value < 128
    ensures SevenBit(FoldPackets(ps, w))
  {
    forall r, c | 0 <= r < Rows && 0 <= c < Cols
      ensures 0 <= FoldPackets(ps, w)[r][c] < 128
    {
      FoldCell(ps, w, r, c);
    }
  }

  /** Adding a packet adds a page row exactly when it addresses row 0..24. */
  lemma HasPageRowSnoc(ps: seq<Packet>, p: Packet)
    ensures HasPageRow(ps + [p]) <==> HasPageRow(ps) || 0 <= p.row < Rows
  {
    var qs := ps + [p];
    if 0 <= p.row < Rows {
      assert qs[|ps|] == p;
    }
    if HasPageRow(ps) {
      var j :| 0 <= j < |ps| && 0 <= ps[j].row < Rows;
      assert qs[j] == ps[j];
    }
    if HasPageRow(qs) && !(0 <= p.row < Rows) {
      var j :| 0 <= j < |qs| && 0 <= qs[j].row < Rows;
      assert ps[j] == qs[j];
    }
  }

  /** The value of a page-number digit character, 0 for any other code. */
  function DigitOrZero(ch: int): (d: int)
    ensures 0 <= d <= 9
    ensures 0x30 <= ch <= 0x39 ==> 0x30 + d == ch
  {
    if 0x30 <= ch <= 0x39 then ch - 0x30 else 0
  }
}
