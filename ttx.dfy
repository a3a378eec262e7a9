/** The TTX codec (`TTXParser`): the same 42-byte packets as T42, but every
    packet of the input folds onto one page, and a page is written with
    magazine 1 and the top bit set on every data byte. */
module Ttx {
  import opened Pages
  import opened Packets
  import Hamming

  /** What a packet writes in its row: a header packet writes the magazine
      digit only for magazines 1..7, the tens and units digits decoded from
      data bytes 1 and 0, and columns 8..39; any other packet writes all 40
      columns.  Text bytes are masked to seven bits. */
  function TtxWrite(p: Packet, c: int): Option<int>
  {
    if p.row == 0 then
      if c == 0 then (if p.magazine != 0 then Some(0x30 + p.magazine) else None)
      else if c == 1 then Some(0x30 + Hamming.Decode(p.data[1]))
      else if c == 2 then Some(0x30 + Hamming.Decode(p.data[0]))
      else if 8 <= c < Cols then Some(Mask7(p.data[c]))
      else None
    else if 0 <= c < Cols then Some(Mask7(p.data[c]))
    else None
  }

  /** `parse` as a value: absent for an input shorter than one packet, else
      the page of all its packets (absent when none addresses row 0..24). */
  function ParseSpec(data: seq<Byte>): Option<Grid>
  {
    if |data| < PacketSize then None else BuildPage(SplitPackets(data), TtxWrite)
  }

  /** The body of `parse`'s loop for one packet whose row is 0..24: the header
      digits, then the text bytes from packet offset 10 (header) or 2. */
  method CopyPacket(pageData: array2<int>, raw: seq<Byte>)
    requires pageData.Length0 == Rows && pageData.Length1 == Cols
    requires |raw| == PacketSize && 0 <= DecodePacket(raw).row < Rows
    modifies pageData
    ensures GridOf(pageData) == ApplyPacket(old(GridOf(pageData)), DecodePacket(raw), TtxWrite)
  {
    ghost var before := GridOf(pageData);
    var packet := DecodePacket(raw);
    var row := packet.row;
    var startCol := 0;
    var dataOffset := 2;
    if row == 0 {
      dataOffset := 10;
      startCol := 8;
      var pageUnits := Hamming.Decode(raw[2]);
      var pageTens := Hamming.Decode(raw[3]);
      if packet.magazine != 0 {
        pageData[0, 0] := 0x30 + packet.magazine;
      }
      pageData[0, 1] := 0x30 + pageTens;
      pageData[0, 2] := 0x30 + pageUnits;
    }
    for col := startCol to Cols
      invariant dataOffset == col + 2
      invariant forall r, c :: 0 <= r < Rows && 0 <= c < Cols ==>
                  pageData[r, c] == (if row == r && ((row == 0 && c < 3) || startCol <= c < col) && TtxWrite(packet, c).Some?
                                     then TtxWrite(packet, c).value else old(pageData[r, c]))
    {
      var charCode := Mask7(raw[dataOffset]);
      dataOffset := dataOffset + 1;
      pageData[row, col] := charCode;
    }
    GridExt(GridOf(pageData), ApplyPacket(before, packet, TtxWrite));
  }

  /** One round of `parse`'s loop: the packet's address is decoded and, when
      it addresses row 0..24, its cells are copied. */
  method ReadPacket(pageData: array2<int>, raw: seq<Byte>, ghost seen: seq<Packet>) returns (found: bool)
    requires pageData.Length0 == Rows && pageData.Length1 == Cols && |raw| == PacketSize
    requires GridOf(pageData) == FoldPackets(seen, TtxWrite)
    modifies pageData
    ensures found <==> 0 <= DecodePacket(raw).row < Rows
    ensures HasPageRow(seen + [DecodePacket(raw)]) <==> HasPageRow(seen) || found
    ensures GridOf(pageData) == FoldPackets(seen + [DecodePacket(raw)], TtxWrite)
  {
    var packet := DecodePacket(raw);
    HasPageRowSnoc(seen, packet);
    FoldSnoc(seen, packet, TtxWrite);
    found := false;
    if 0 <= packet.row <= 24 {
      found := true;
      CopyPacket(pageData, raw);
    }
  }

  /** `parse`: every whole packet, in order, written onto one blank page. */
  method Parse(data: seq<Byte>) returns (page: Option<Grid>)
    ensures page == ParseSpec(data)
  {
    if |data| < PacketSize {
      return None;
    }
    var pageData := NewPage(Blank());
    var offset := 0;
    var foundData := false;
    ghost var packets := SplitPackets(data);
    ghost var seen: seq<Packet> := [];
    while offset + PacketSize <= |data|
      invariant offset == PacketSize * |seen| && offset <= |data|
      invariant seen == packets[..|seen|]
      invariant pageData.Length0 == Rows && pageData.Length1 == Cols
      invariant GridOf(pageData) == FoldPackets(seen, TtxWrite)
      invariant foundData <==> HasPageRow(seen)
      decreases |data| - offset
    {
      var raw := data[offset .. offset + PacketSize];
      ghost var p := DecodePacket(raw);
      PacketsThrough(data, seen, offset);
      var found := ReadPacket(pageData, raw, seen);
      foundData := foundData || found;
      seen := seen + [p];
      offset := offset + PacketSize;
    }
    assert |seen| == |packets|;
    assert packets[..|packets|] == packets;
    if foundData {
      return Some(GridOf(pageData));
    }
    return None;
  }

  /** `(cell or 0x80).toByte()` read back as an unsigned byte. */
  function WithTopBit(x: int): (b: Byte)
    ensures 128 <= b && Mask7(b) == Mask7(x)
  {
    128 + x % 128
  }

  /** A row's cells with the top bit set. */
  function TopBitRow(page: Grid, row: int): (d: PacketData)
    requires 0 <= row < Rows
    ensures forall c :: 0 <= c < Cols ==> d[c] == WithTopBit(page[row][c])
  {
    seq(40, c requires 0 <= c < 40 => WithTopBit(page[row][c]))
  }

  /** The packet `serialize` writes for a row: magazine 1, and all 40 data
      bytes the row's cells with the top bit set, the header row included. */
  function RowPacket(page: Grid, row: int): (bytes: seq<Byte>)
    requires 0 <= row < Rows
    ensures |bytes| == PacketSize
  {
    EncodeAddress(1, row) + TopBitRow(page, row)
  }

  function RowBytes(page: Grid): (rs: seq<seq<Byte>>)
    ensures |rs| == Rows
    ensures forall r :: 0 <= r < Rows ==> rs[r] == RowPacket(page, r)
  {
    seq(25, r requires 0 <= r < 25 => RowPacket(page, r))
  }

  /** The bytes `serialize` produces. */
  function SerializeSpec(page: Grid): (out: seq<Byte>)
    ensures |out| == PacketSize * Rows
  {
    JoinPackets(RowBytes(page))
  }

  /** One packet of `serialize`: the address, for the header the coded page
      number and control bytes, and then the data loop over all 40 columns,
      which writes over bytes 2..9 again. */
  method EncodeRowPacket(pageData: Grid, row: int) returns (packet: array<Byte>)
    requires 0 <= row < Rows
    ensures fresh(packet) && packet[..] == RowPacket(pageData, row)
  {
    packet := new Byte[PacketSize](_ => 0);
    var magazine := 1;
    var y0 := row % 2;
    var y1y4 := (row / 2) % 16;
    assert y1y4 == row / 2;
    packet[0] := Hamming.Encode(magazine + 8 * y0);
    packet[1] := Hamming.Encode(y1y4);
    ghost var address := EncodeAddress(1, row);
    assert packet[0] == address[0] && packet[1] == address[1];
    if row == 0 {
      var pageUnits := DigitOrZero(pageData[0][2]);
      var pageTens := DigitOrZero(pageData[0][1]);
      packet[2] := Hamming.Encode(pageUnits);
      packet[3] := Hamming.Encode(pageTens);
      for i := 4 to 10
        invariant packet[0] == address[0] && packet[1] == address[1]
      {
        packet[i] := Hamming.Encode(0);
      }
    }
    for col := 0 to Cols
      invariant packet[0] == address[0] && packet[1] == address[1]
      invariant forall j :: 2 <= j < 2 + col ==> packet[j] == WithTopBit(pageData[row][j - 2])
    {
      packet[2 + col] := WithTopBit(pageData[row][col]);
    }
    assert packet[..] == RowPacket(pageData, row);
  }

  /** `serialize`: the 25 row packets, row 0 first. */
  method Serialize(pageData: Grid) returns (output: seq<Byte>)
    ensures output == SerializeSpec(pageData)
  {
    output := [];
    ghost var rows := RowBytes(pageData);
    for row := 0 to Rows
      invariant output == JoinPackets(rows[..row])
    {
      var packet := EncodeRowPacket(pageData, row);
      assert rows[..row + 1][..row] == rows[..row];
      output := output + packet[..];
    }
    assert rows[..Rows] == rows;
  }

  /** The decoded packets of a serialized page: magazine 1, packet r for row r. */
  lemma SerializedPackets(page: Grid)
    ensures |SplitPackets(SerializeSpec(page))| == Rows
    ensures forall r :: 0 <= r < Rows ==>
              SplitPackets(SerializeSpec(page))[r] == Packet(1, r, TopBitRow(page, r))
  {
    SplitJoined(RowBytes(page));
    forall r | 0 <= r < Rows
      ensures SplitPackets(SerializeSpec(page))[r] == Packet(1, r, TopBitRow(page, r))
    {
      DecodeEncodedPacket(1, r, TopBitRow(page, r));
    }
  }

  /** What parsing a serialized page gives back: magazine '1' in the first
      cell; as tens and units digits, the decoded top-bit text bytes of columns
      1 and 0 that were written over the coded page number; spaces in columns
      3..7; and every other cell masked to seven bits. */
  function RoundTripped(page: Grid): Grid
  {
    seq(25, r requires 0 <= r < 25 => seq(40, c requires 0 <= c < 40 => RoundTrippedCell(page, r, c)))
  }

  function RoundTrippedCell(page: Grid, r: int, c: int): int
    requires 0 <= r < Rows && 0 <= c < Cols
  {
    if r == 0 && c == 0 then 0x31
    else if r == 0 && c == 1 then 0x30 + Hamming.Decode(WithTopBit(page[0][1]))
    else if r == 0 && c == 2 then 0x30 + Hamming.Decode(WithTopBit(page[0][0]))
    else if r == 0 && c < 8 then Space
    else Mask7(page[r][c])
  }

  /** What row r's serialized packet writes into column c: nothing in header
      columns 3..7, the round-tripped cell everywhere else. */
  lemma SerialWrite(page: Grid, r: int, c: int)
    requires 0 <= r < Rows && 0 <= c < Cols
    ensures TtxWrite(Packet(1, r, TopBitRow(page, r)), c) ==
              if r == 0 && 3 <= c < 8 then None else Some(RoundTrippedCell(page, r, c))
  {
    var body := TopBitRow(page, r);
    assert body[c] == WithTopBit(page[r][c]);
    if r == 0 && c == 1 {
      assert TtxWrite(Packet(1, r, body), c) == Some(0x30 + Hamming.Decode(body[1]));
    } else if r == 0 && c == 2 {
      assert body[0] == WithTopBit(page[0][0]);
      assert TtxWrite(Packet(1, r, body), c) == Some(0x30 + Hamming.Decode(body[0]));
    } else if r > 0 || c >= 8 {
      assert TtxWrite(Packet(1, r, body), c) == Some(Mask7(body[c]));
    }
  }

  lemma RoundTripCell(page: Grid, r: int, c: int)
    requires 0 <= r < Rows && 0 <= c < Cols
    ensures FoldPackets(SplitPackets(SerializeSpec(page)), TtxWrite)[r][c] == RoundTripped(page)[r][c]
  {
    var ps := SplitPackets(SerializeSpec(page));
    SerializedPackets(page);
    FoldRowPerPacket(ps, TtxWrite, r, c);
    SerialWrite(page, r, c);
    assert RoundTripped(page)[r][c] == RoundTrippedCell(page, r, c);
  }

  /** `parse(serialize(P))` is RoundTripped(P). */
  lemma SerializeParse(page: Grid)
    ensures ParseSpec(SerializeSpec(page)) == Some(RoundTripped(page))
  {
    var ps := SplitPackets(SerializeSpec(page));
    SerializedPackets(page);
    assert HasPageRow(ps) by {
      assert 0 <= ps[0].row < Rows;
    }
    forall r, c | 0 <= r < Rows && 0 <= c < Cols
      ensures FoldPackets(ps, TtxWrite)[r][c] == RoundTripped(page)[r][c]
    {
      RoundTripCell(page, r, c);
    }
    GridExt(FoldPackets(ps, TtxWrite), RoundTripped(page));
  }

  /** For a page of 7-bit codes, rows 1..24 and header columns 8..39 survive
      the round trip, the first cell becomes '1' and columns 3..7 spaces. */
  lemma SerializeParseKeepsText(page: Grid)
    requires SevenBit(page)
    ensures ParseSpec(SerializeSpec(page)).Some?
    ensures var back := ParseSpec(SerializeSpec(page)).value;
            (forall r, c :: 1 <= r < Rows && 0 <= c < Cols ==> back[r][c] == page[r][c]) &&
            (forall c :: 8 <= c < Cols ==> back[0][c] == page[0][c]) &&
            back[0][0] == 0x31 && (forall c :: 3 <= c < 8 ==> back[0][c] == Space)
  {
    SerializeParse(page);
  }

  lemma DecodeTopBitDigits()
    ensures Hamming.Decode(0xB0) == 12 && Hamming.Decode(0xB1) == 12
  {
  }

  /** The page number does not survive: a header reading "100" comes back as
      "1<<", because the text bytes 0xB1 and 0xB0 written over the coded
      digits both decode to 12. */
  lemma PageNumberLost(page: Grid)
    requires page[0][0] == 0x31 && page[0][1] == 0x30 && page[0][2] == 0x30
    ensures ParseSpec(SerializeSpec(page)).Some?
    ensures var back := ParseSpec(SerializeSpec(page)).value;
            back[0][0] == 0x31 && back[0][1] == 0x3C && back[0][2] == 0x3C
  {
    SerializeParse(page);
    DecodeTopBitDigits();
    var back := RoundTripped(page);
    assert back[0][1] == 0x30 + Hamming.Decode(WithTopBit(0x30));
    assert back[0][2] == 0x30 + Hamming.Decode(WithTopBit(0x31));
  }

  /** The header packet as evidently intended: the coded units and tens
      digits and six coded zero control bytes stay, and only the text of
      columns 8..39 is written with the top bit set. */
  function IntendedBody(page: Grid, row: int): (d: PacketData)
    requires 0 <= row < Rows
    ensures row == 0 ==> d[0] == Hamming.Encode(DigitOrZero(page[0][2])) && d[1] == Hamming.Encode(DigitOrZero(page[0][1]))
    ensures forall c :: (if row == 0 then 8 else 0) <= c < Cols ==> d[c] == WithTopBit(page[row][c])
  {
    if row == 0 then
      [Hamming.Encode(DigitOrZero(page[0][2])), Hamming.Encode(DigitOrZero(page[0][1]))]
      + seq(6, _ => Hamming.Encode(0))
      + seq(32, i requires 0 <= i < 32 => WithTopBit(page[0][8 + i]))
    else TopBitRow(page, row)
  }

  /** `serialize` with the header's data loop starting at column 8. */
  function SerializeIntended(page: Grid): (out: seq<Byte>)
    ensures |out| == PacketSize * Rows
  {
    JoinPackets(seq(25, r requires 0 <= r < 25 => EncodeAddress(1, r) + IntendedBody(page, r)))
  }

  lemma IntendedPackets(page: Grid)
    ensures |SplitPackets(SerializeIntended(page))| == Rows
    ensures forall r :: 0 <= r < Rows ==> SplitPackets(SerializeIntended(page))[r] == Packet(1, r, IntendedBody(page, r))
  {
    var rs := seq(25, r requires 0 <= r < 25 => EncodeAddress(1, r) + IntendedBody(page, r));
    SplitJoined(rs);
    forall r | 0 <= r < Rows
      ensures SplitPackets(SerializeIntended(page))[r] == Packet(1, r, IntendedBody(page, r))
    {
      DecodeEncodedPacket(1, r, IntendedBody(page, r));
    }
  }

  /** What row r's intended packet writes into column c. */
  lemma IntendedWrite(page: Grid, r: int, c: int)
    requires 0 <= r < Rows && 0 <= c < Cols
    ensures var w := TtxWrite(Packet(1, r, IntendedBody(page, r)), c);
            (r == 0 && c == 1 ==> w == Some(0x30 + DigitOrZero(page[0][1]))) &&
            (r == 0 && c == 2 ==> w == Some(0x30 + DigitOrZero(page[0][2]))) &&
            (r > 0 || c >= 8 ==> w == Some(Mask7(page[r][c])))
  {
    var body := IntendedBody(page, r);
    var p := Packet(1, r, body);
    if r == 0 && c == 1 {
      var d := DigitOrZero(page[0][1]);
      Hamming.DecodeEncodeNibble(d);
      assert TtxWrite(p, c) == Some(0x30 + Hamming.Decode(body[1]));
    } else if r == 0 && c == 2 {
      var d := DigitOrZero(page[0][2]);
      Hamming.DecodeEncodeNibble(d);
      assert TtxWrite(p, c) == Some(0x30 + Hamming.Decode(body[0]));
    } else if r > 0 || c >= 8 {
      assert body[c] == WithTopBit(page[r][c]);
      assert TtxWrite(p, c) == Some(Mask7(body[c]));
    }
  }

  lemma IntendedRoundTripCell(page: Grid, r: int, c: int)
    requires 0 <= r < Rows && 0 <= c < Cols
    ensures var back := FoldPackets(SplitPackets(SerializeIntended(page)), TtxWrite)[r][c];
            (r == 0 && c == 1 ==> back == 0x30 + DigitOrZero(page[0][1])) &&
            (r == 0 && c == 2 ==> back == 0x30 + DigitOrZero(page[0][2])) &&
            (r > 0 || c >= 8 ==> back == Mask7(page[r][c]))
  {
    var ps := SplitPackets(SerializeIntended(page));
    IntendedPackets(page);
    FoldRowPerPacket(ps, TtxWrite, r, c);
    IntendedWrite(page, r, c);
  }

  /** With the header's text loop starting at column 8, the page number
      digits survive the round trip together with all the text. */
  lemma IntendedKeepsPageNumber(page: Grid)
    ensures ParseSpec(SerializeIntended(page)).Some?
    ensures var back := ParseSpec(SerializeIntended(page)).value;
            back[0][1] == 0x30 + DigitOrZero(page[0][1]) &&
            back[0][2] == 0x30 + DigitOrZero(page[0][2]) &&
            (forall r, c :: 0 <= r < Rows && 0 <= c < Cols && (r > 0 || c >= 8) ==> back[r][c] == Mask7(page[r][c]))
  {
    var ps := SplitPackets(SerializeIntended(page));
    IntendedPackets(page);
    assert HasPageRow(ps) by {
      assert 0 <= ps[0].row < Rows;
    }
    forall r, c | 0 <= r < Rows && 0 <= c < Cols
      ensures var back := FoldPackets(ps, TtxWrite)[r][c];
              (r == 0 && c == 1 ==> back == 0x30 + DigitOrZero(page[0][1])) &&
              (r == 0 && c == 2 ==> back == 0x30 + DigitOrZero(page[0][2])) &&
              (r > 0 || c >= 8 ==> back == Mask7(page[r][c]))
    {
      IntendedRoundTripCell(page, r, c);
    }
  }
}
