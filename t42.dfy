/** The T42 codec (`T42Parser`): a stream of 42-byte packets is split into
    pages at every header packet (row 0), each group is folded onto a blank
    page, and a page is written back as 25 packets, one per row. */
module T42 {
  import opened Pages
  import opened Packets
  import Hamming

  /** What a packet writes in its row when a page is built: a header packet
      writes the magazine digit (magazine 0 shown as 8), the tens and units
      digits decoded from data bytes 1 and 0, and columns 8..39; any other
      packet writes all 40 columns.  Text bytes are masked to seven bits. */
  function T42Write(p: Packet, c: int): Option<int>
  {
    if p.row == 0 then
      if c == 0 then Some(0x30 + (if p.magazine == 0 then 8 else p.magazine))
      else if c == 1 then Some(0x30 + Hamming.Decode(p.data[1]))
      else if c == 2 then Some(0x30 + Hamming.Decode(p.data[0]))
      else if 8 <= c < Cols then Some(Mask7(p.data[c]))
      else None
    else if 0 <= c < Cols then Some(Mask7(p.data[c]))
    else None
  }

  /** Cutting the stream into whole packets, in order. */
  method ExtractAllPackets(data: seq<Byte>) returns (packets: seq<Packet>)
    ensures packets == SplitPackets(data)
  {
    packets := [];
    var offset := 0;
    while offset + PacketSize <= |data|
      invariant offset == PacketSize * |packets| && offset <= |data|
      invariant |packets| <= |data| / PacketSize
      invariant packets == SplitPackets(data)[..|packets|]
      decreases |data| - offset
    {
      var packet := data[offset .. offset + PacketSize];
      PacketsThrough(data, packets, offset);
      packets := packets + [DecodePacket(packet)];
      offset := offset + PacketSize;
    }
    assert |packets| == |data| / PacketSize;
    assert SplitPackets(data)[..|packets|] == SplitPackets(data);
  }

  /** One iteration of `buildPageFromPackets` on the page buffer: the cells the
      packet writes change, nothing else does. */
  method WritePacket(pageData: array2<int>, packet: Packet)
    requires pageData.Length0 == Rows && pageData.Length1 == Cols
    modifies pageData
    ensures forall r, c :: 0 <= r < Rows && 0 <= c < Cols ==>
              pageData[r, c] == (if packet.row == r && T42Write(packet, c).Some? then T42Write(packet, c).value
                                 else old(pageData[r, c]))
  {
    var row := packet.row;
    if !(0 <= row <= 24) {
      return;
    }
    if row == 0 {
      var pageUnits := Hamming.Decode(packet.data[0]);
      var pageTens := Hamming.Decode(packet.data[1]);
      var magazine := if packet.magazine == 0 then 8 else packet.magazine;
      pageData[0, 0] := 0x30 + magazine;
      pageData[0, 1] := 0x30 + pageTens;
      pageData[0, 2] := 0x30 + pageUnits;
      for col := 8 to Cols
        invariant forall r, c :: 0 <= r < Rows && 0 <= c < Cols ==>
                    pageData[r, c] == (if r == 0 && (c < 3 || 8 <= c < col) then T42Write(packet, c).value
                                       else old(pageData[r, c]))
      {
        pageData[0, col] := Mask7(packet.data[col]);
      }
    } else {
      for col := 0 to Cols
        invariant forall r, c :: 0 <= r < Rows && 0 <= c < Cols ==>
                    pageData[r, c] == (if r == row && c < col then T42Write(packet, c).value else old(pageData[r, c]))
      {
        pageData[row, col] := Mask7(packet.data[col]);
      }
    }
  }

  /** The page a group of packets builds, in place on a 25x40 buffer; absent
      when the group is empty or no packet addresses a row 0..24. */
  method BuildPageFromPackets(packets: seq<Packet>) returns (result: Option<Grid>)
    ensures result == BuildPage(packets, T42Write)
  {
    if |packets| == 0 {
      return None;
    }
    var pageData := NewPage(Blank());
    var hasValidData := false;
    for k := 0 to |packets|
      invariant pageData.Length0 == Rows && pageData.Length1 == Cols
      invariant GridOf(pageData) == FoldPackets(packets[..k], T42Write)
      invariant hasValidData <==> HasPageRow(packets[..k])
    {
      var packet := packets[k];
      ghost var before := GridOf(pageData);
      TakeSnoc(packets, k);
      HasPageRowSnoc(packets[..k], packet);
      if 0 <= packet.row <= 24 {
        hasValidData := true;
      }
      WritePacket(pageData, packet);
      GridExt(GridOf(pageData), ApplyPacket(before, packet, T42Write));
    }
    assert packets[..|packets|] == packets;
    if hasValidData {
      return Some(GridOf(pageData));
    }
    return None;
  }

  /** The packets read so far, split into the closed page groups and the group
      still being collected. */
  datatype Grouping = Grouping(closed: seq<seq<Packet>>, current: seq<Packet>)

  /** The grouping rule of `parseMultiPage`: a row-0 packet closes the current
      group when that group is non-empty, and every packet joins the current
      group. */
  function Group(ps: seq<Packet>): Grouping
  {
    if ps == [] then Grouping([], [])
    else
      var prev := Group(ps[..|ps| - 1]);
      var p := ps[|ps| - 1];
      if p.row == 0 && prev.current != [] then Grouping(prev.closed + [prev.current], [p])
      else Grouping(prev.closed, prev.current + [p])
  }

  /** All groups of the stream, the last one included. */
  function Groups(ps: seq<Packet>): seq<seq<Packet>>
  {
    var g := Group(ps);
    if g.current == [] then g.closed else g.closed + [g.current]
  }

  /** The groups laid end to end. */
  function Concat(gs: seq<seq<Packet>>): seq<Packet>
  {
    if gs == [] then [] else Concat(gs[..|gs| - 1]) + gs[|gs| - 1]
  }

  lemma {:induction false} ConcatMember(gs: seq<seq<Packet>>, j: int, x: Packet)
    requires 0 <= j < |gs| && x in gs[j]
    ensures x in Concat(gs)
  {
    if j < |gs| - 1 {
      ConcatMember(gs[..|gs| - 1], j, x);
    }
  }

  /** A group in which a header packet may only come first. */
  predicate HeaderOnlyFirst(g: seq<Packet>)
  {
    forall j :: 0 < j < |g| ==> g[j].row != 0
  }

  /** A page group: non-empty, with a header packet at most in first place. */
  predicate WellFormedGroup(g: seq<Packet>)
  {
    g != [] && HeaderOnlyFirst(g)
  }

  /** Every closed group is well formed and every one after the first opens
      with a header packet. */
  predicate ClosedGroups(gs: seq<seq<Packet>>)
  {
    && (forall i :: 0 <= i < |gs| ==> WellFormedGroup(gs[i]))
    && (forall i :: 0 < i < |gs| ==> gs[i][0].row == 0)
  }

  /** What the grouping rule keeps true after every packet. */
  predicate GroupingInvariant(ps: seq<Packet>, g: Grouping)
  {
    && Concat(g.closed) + g.current == ps
    && (g.current == [] <==> ps == [])
    && (g.closed != [] ==> g.current != [] && g.current[0].row == 0)
    && HeaderOnlyFirst(g.current)
    && ClosedGroups(g.closed)
  }

  lemma ClosedGroupsSnoc(gs: seq<seq<Packet>>, g: seq<Packet>)
    requires ClosedGroups(gs) && WellFormedGroup(g)
    requires gs != [] ==> g[0].row == 0
    ensures ClosedGroups(gs + [g])
  {
  }

  lemma HeaderOnlyFirstSnoc(g: seq<Packet>, p: Packet)
    requires HeaderOnlyFirst(g)
    requires g != [] ==> p.row != 0
    ensures HeaderOnlyFirst(g + [p])
  {
    var h := g + [p];
    forall j | 0 < j < |h|
      ensures h[j].row != 0
    {
      if j < |g| {
        assert h[j] == g[j];
      }
    }
  }

  lemma {:induction false} GroupInvariant(ps: seq<Packet>)
    ensures GroupingInvariant(ps, Group(ps))
  {
    if ps != [] {
      var init := ps[..|ps| - 1];
      GroupInvariant(init);
      var prev := Group(init);
      var p := ps[|ps| - 1];
      assert init + [p] == ps;
      if p.row == 0 && prev.current != [] {
        var closed := prev.closed + [prev.current];
        assert Group(ps) == Grouping(closed, [p]);
        assert closed[..|closed| - 1] == prev.closed;
        assert Concat(closed) == Concat(prev.closed) + prev.current;
        ClosedGroupsSnoc(prev.closed, prev.current);
      } else {
        assert Group(ps) == Grouping(prev.closed, prev.current + [p]);
        assert Concat(prev.closed) + (prev.current + [p]) == (Concat(prev.closed) + prev.current) + [p];
        HeaderOnlyFirstSnoc(prev.current, p);
      }
    }
  }

  /** The groups partition the stream: laid end to end they give the packets
      back, none is empty, a header packet only ever opens a group, and every
      group after the first opens with one. */
  lemma GroupsPartition(ps: seq<Packet>)
    ensures Concat(Groups(ps)) == ps
    ensures forall i :: 0 <= i < |Groups(ps)| ==> Groups(ps)[i] != []
    ensures forall i :: 0 <= i < |Groups(ps)| ==> HeaderOnlyFirst(Groups(ps)[i])
    ensures forall i :: 0 < i < |Groups(ps)| ==> Groups(ps)[i][0].row == 0
  {
    GroupInvariant(ps);
    var g := Group(ps);
    if g.current != [] {
      var gs := g.closed + [g.current];
      assert gs[..|gs| - 1] == g.closed;
    }
  }

  /** A stream that opens with its only header packet is a single group. */
  lemma {:induction false} SingleGroup(ps: seq<Packet>)
    requires ps != [] && ps[0].row == 0 && HeaderOnlyFirst(ps)
    ensures Group(ps) == Grouping([], ps)
    ensures Groups(ps) == [ps]
  {
    if |ps| > 1 {
      var init := ps[..|ps| - 1];
      SingleGroup(init);
      assert init + [ps[|ps| - 1]] == ps;
    } else {
      assert ps[..0] == [];
    }
  }

  /** The pages of the groups that build one, in order. */
  function BuiltPages(gs: seq<seq<Packet>>): seq<Grid>
  {
    if gs == [] then []
    else
      var page := BuildPage(gs[|gs| - 1], T42Write);
      BuiltPages(gs[..|gs| - 1]) + (if page.Some? then [page.value] else [])
  }

  /** `parseMultiPage` as a value: the built pages of the stream's groups. */
  function ParseMultiPageSpec(data: seq<Byte>): seq<Grid>
  {
    BuiltPages(Groups(SplitPackets(data)))
  }

  /** Every page `parseMultiPage` returns is the page of some group, and a
      stream with no whole packet gives no page. */
  lemma {:induction false} BuiltPagesFromGroups(gs: seq<seq<Packet>>)
    ensures |BuiltPages(gs)| <= |gs|
    ensures forall i :: 0 <= i < |BuiltPages(gs)| ==>
              exists j :: 0 <= j < |gs| && HasPageRow(gs[j]) && BuiltPages(gs)[i] == FoldPackets(gs[j], T42Write)
  {
    if gs != [] {
      var init := gs[..|gs| - 1];
      BuiltPagesFromGroups(init);
      forall i | 0 <= i < |BuiltPages(gs)|
        ensures exists j :: 0 <= j < |gs| && HasPageRow(gs[j]) && BuiltPages(gs)[i] == FoldPackets(gs[j], T42Write)
      {
        if i < |BuiltPages(init)| {
          var j :| 0 <= j < |init| && HasPageRow(init[j]) && BuiltPages(init)[i] == FoldPackets(init[j], T42Write);
          assert gs[j] == init[j];
        } else {
          assert BuiltPages(gs)[i] == FoldPackets(gs[|gs| - 1], T42Write);
        }
      }
    }
  }

  lemma GroupSnoc(ps: seq<Packet>, p: Packet)
    ensures Group(ps + [p]) ==
              (var prev := Group(ps);
               if p.row == 0 && prev.current != [] then Grouping(prev.closed + [prev.current], [p])
               else Grouping(prev.closed, prev.current + [p]))
  {
    assert (ps + [p])[..|ps|] == ps;
  }

  lemma BuiltPagesSnoc(gs: seq<seq<Packet>>, g: seq<Packet>)
    ensures BuiltPages(gs + [g]) ==
              BuiltPages(gs) + (if BuildPage(g, T42Write).Some? then [BuildPage(g, T42Write).value] else [])
  {
    assert (gs + [g])[..|gs|] == gs;
  }

  /** `parseMultiPage`: packets are collected into the current group, a header
      packet closes a non-empty group, and every closed group and the last one
      contribute the page they build, if any. */
  method ParseMultiPage(data: seq<Byte>) returns (pages: seq<Grid>)
    ensures pages == ParseMultiPageSpec(data)
  {
    pages := [];
    var packets := ExtractAllPackets(data);
    var currentPagePackets: seq<Packet> := [];
    ghost var closed: seq<seq<Packet>> := [];
    for k := 0 to |packets|
      invariant Group(packets[..k]) == Grouping(closed, currentPagePackets)
      invariant pages == BuiltPages(closed)
    {
      var packet := packets[k];
      TakeSnoc(packets, k);
      GroupSnoc(packets[..k], packet);
      if packet.row == 0 && currentPagePackets != [] {
        var pageData := BuildPageFromPackets(currentPagePackets);
        BuiltPagesSnoc(closed, currentPagePackets);
        if pageData.Some? {
          pages := pages + [pageData.value];
        }
        closed := closed + [currentPagePackets];
        currentPagePackets := [];
      }
      currentPagePackets := currentPagePackets + [packet];
    }
    assert packets[..|packets|] == packets;
    if currentPagePackets != [] {
      var pageData := BuildPageFromPackets(currentPagePackets);
      BuiltPagesSnoc(closed, currentPagePackets);
      if pageData.Some? {
        pages := pages + [pageData.value];
      }
    }
  }

  /** `parse`: the first page of the stream, if any. */
  method Parse(data: seq<Byte>) returns (page: Option<Grid>)
    ensures ParseMultiPageSpec(data) == [] ==> page == None
    ensures ParseMultiPageSpec(data) != [] ==> page == Some(ParseMultiPageSpec(data)[0])
  {
    var pages := ParseMultiPage(data);
    page := if pages == [] then None else Some(pages[0]);
  }

  /** The magazine written into every packet: the digit in the page's first
      cell when it is '0'..'8' (8 written as 0), magazine 1 otherwise. */
  function SerialMagazine(page: Grid): (m: int)
    ensures 0 <= m < 8
  {
    var magazine := if 0x30 <= page[0][0] <= 0x38 then page[0][0] - 0x30 else 1;
    if magazine == 8 then 0 else magazine
  }

  /** The 40 data bytes written for a row: the header carries the units and
      tens digits Hamming-coded, four coded zeros, two zero bytes and the
      7-bit text of columns 8..39; other rows carry their 7-bit cells. */
  function PacketBody(page: Grid, row: int): (d: PacketData)
    requires 0 <= row < Rows
    ensures row == 0 ==> d[0] == Hamming.Encode(DigitOrZero(page[0][2])) && d[1] == Hamming.Encode(DigitOrZero(page[0][1]))
    ensures row == 0 ==> forall c :: 2 <= c < 8 ==> d[c] == 0
    ensures forall c :: (if row == 0 then 8 else 0) <= c < Cols ==> d[c] == Mask7(page[row][c])
  {
    Hamming.EncodeZero();
    if row == 0 then
      [Hamming.Encode(DigitOrZero(page[0][2])), Hamming.Encode(DigitOrZero(page[0][1]))]
      + seq(4, _ => Hamming.Encode(0)) + [0, 0]
      + seq(32, i requires 0 <= i < 32 => Mask7(page[0][8 + i]))
    else seq(40, c requires 0 <= c < 40 => Mask7(page[row][c]))
  }

  /** The packet written for one row. */
  function RowPacket(page: Grid, row: int): (bytes: seq<Byte>)
    requires 0 <= row < Rows
    ensures |bytes| == PacketSize
  {
    EncodeAddress(SerialMagazine(page), row) + PacketBody(page, row)
  }

  /** The 25 row packets `serialize` writes, row 0 first. */
  function RowBytes(page: Grid): (rs: seq<seq<Byte>>)
    ensures |rs| == Rows
    ensures forall r :: 0 <= r < Rows ==> rs[r] == RowPacket(page, r)
  {
    seq(25, r requires 0 <= r < 25 => RowPacket(page, r))
  }

  /** The bytes `serialize` produces. */
  function SerializeSpec(page: Grid): (out: seq<Byte>)
    ensures |out| == PacketSize * Rows
  {
    JoinPackets(RowBytes(page))
  }

  /** The packet for one row, built in a zeroed 42-byte buffer. */
  method EncodeRowPacket(pageData: Grid, row: int) returns (packet: array<Byte>)
    requires 0 <= row < Rows
    ensures fresh(packet) && packet[..] == RowPacket(pageData, row)
  {
    packet := new Byte[PacketSize](_ => 0);
    var magazine := if 0x30 <= pageData[0][0] <= 0x38 then pageData[0][0] - 0x30 else 1;
    var actualMag := if magazine == 8 then 0 else magazine;
    var y0 := row % 2;
    var y1y4 := (row / 2) % 16;
    assert actualMag == SerialMagazine(pageData) && y1y4 == row / 2;
    packet[0] := Hamming.Encode(actualMag + 8 * y0);
    packet[1] := Hamming.Encode(y1y4);
    if row == 0 {
      WriteHeaderBody(packet, pageData);
    } else {
      WriteRowBody(packet, pageData, row);
    }
    RowPacketBytes(pageData, row, packet[..]);
  }

  /** The header's data bytes: coded units and tens digits, four coded zeros,
      and the 7-bit text of columns 8..39; bytes 8 and 9 stay zero. */
  method WriteHeaderBody(packet: array<Byte>, pageData: Grid)
    requires packet.Length == PacketSize
    requires forall j :: 2 <= j < PacketSize ==> packet[j] == 0
    modifies packet
    ensures packet[0] == old(packet[0]) && packet[1] == old(packet[1])
    ensures packet[2] == Hamming.Encode(DigitOrZero(pageData[0][2]))
    ensures packet[3] == Hamming.Encode(DigitOrZero(pageData[0][1]))
    ensures forall j :: 4 <= j < 10 ==> packet[j] == 0
    ensures forall j :: 10 <= j < PacketSize ==> packet[j] == Mask7(pageData[0][j - 2])
  {
    var pageTens := DigitOrZero(pageData[0][1]);
    var pageUnits := DigitOrZero(pageData[0][2]);
    packet[2] := Hamming.Encode(pageUnits);
    packet[3] := Hamming.Encode(pageTens);
    var zero := Hamming.Encode(0);
    Hamming.EncodeZero();
    for i := 4 to 8
      invariant packet[0] == old(packet[0]) && packet[1] == old(packet[1])
      invariant packet[2] == Hamming.Encode(pageUnits) && packet[3] == Hamming.Encode(pageTens)
      invariant forall j :: 4 <= j < PacketSize ==> packet[j] == 0
    {
      packet[i] := zero;
    }
    for col := 8 to Cols
      invariant packet[0] == old(packet[0]) && packet[1] == old(packet[1])
      invariant packet[2] == Hamming.Encode(pageUnits) && packet[3] == Hamming.Encode(pageTens)
      invariant forall j :: 4 <= j < 10 ==> packet[j] == 0
      invariant forall j :: 10 <= j < 2 + col ==> packet[j] == Mask7(pageData[0][j - 2])
    {
      packet[2 + col] := Mask7(pageData[0][col]);
    }
  }

  /** A data row's data bytes: its 40 cells masked to seven bits. */
  method WriteRowBody(packet: array<Byte>, pageData: Grid, row: int)
    requires packet.Length == PacketSize && 0 <= row < Rows
    modifies packet
    ensures packet[0] == old(packet[0]) && packet[1] == old(packet[1])
    ensures forall j :: 2 <= j < PacketSize ==> packet[j] == Mask7(pageData[row][j - 2])
  {
    for col := 0 to Cols
      invariant packet[0] == old(packet[0]) && packet[1] == old(packet[1])
      invariant forall j :: 2 <= j < 2 + col ==> packet[j] == Mask7(pageData[row][j - 2])
    {
      packet[2 + col] := Mask7(pageData[row][col]);
    }
  }

  /** A 42-byte buffer holding the address bytes, then the row's body bytes,
      is that row's packet. */
  lemma RowPacketBytes(pageData: Grid, row: int, bytes: seq<Byte>)
    requires 0 <= row < Rows && |bytes| == PacketSize
    requires bytes[0] == Hamming.Encode(SerialMagazine(pageData) + 8 * (row % 2))
    requires bytes[1] == Hamming.Encode(row / 2)
    requires row == 0 ==> bytes[2] == Hamming.Encode(DigitOrZero(pageData[0][2]))
    requires row == 0 ==> bytes[3] == Hamming.Encode(DigitOrZero(pageData[0][1]))
    requires row == 0 ==> forall j :: 4 <= j < 10 ==> bytes[j] == 0
    requires forall j :: (if row == 0 then 10 else 2) <= j < PacketSize ==> bytes[j] == Mask7(pageData[row][j - 2])
    ensures bytes == RowPacket(pageData, row)
  {
    var expected := RowPacket(pageData, row);
    var body := PacketBody(pageData, row);
    assert expected[2..] == body;
    forall j | 2 <= j < PacketSize
      ensures bytes[j] == expected[j]
    {
      assert expected[j] == body[j - 2];
    }
  }

  /** `serialize`: the 25 row packets, row 0 first. */
  method Serialize(pageData: Grid) returns (output: seq<Byte>)
    ensures output == SerializeSpec(pageData)
  {
    output := [];
    ghost var rows := RowBytes(pageData);
    for row := 0 to Rows
      invariant output == JoinPackets(rows[..row])
    {
      var packet := EncodeRowPacket(pageData, row);
      assert rows[..row + 1][..row] == rows[..row];
      output := output + packet[..];
    }
    assert rows[..Rows] == rows;
  }

  /** The packets `serialize` writes, as decoded packets: one per row, all in
      the magazine SerialMagazine chose. */
  function RowPackets(page: Grid): (ps: seq<Packet>)
    ensures |ps| == Rows
    ensures forall r :: 0 <= r < Rows ==> ps[r] == Packet(SerialMagazine(page), r, PacketBody(page, r))
  {
    seq(25, r requires 0 <= r < 25 => Packet(SerialMagazine(page), r, PacketBody(page, r)))
  }

  /** The serialized page is 25 whole packets, packet r being row r's. */
  lemma SerializedPackets(page: Grid)
    ensures SplitPackets(SerializeSpec(page)) == RowPackets(page)
  {
    var rs := RowBytes(page);
    var split := SplitPackets(SerializeSpec(page));
    var ps := RowPackets(page);
    SplitJoined(rs);
    forall r | 0 <= r < Rows
      ensures split[r] == ps[r]
    {
      var m, body := SerialMagazine(page), PacketBody(page, r);
      assert rs[r] == EncodeAddress(m, r) + body;
      DecodeEncodedPacket(m, r, body);
      assert split[r] == DecodePacket(rs[r]);
    }
  }

  /** What reading back a serialized page gives: the magazine digit that was
      written (a non-digit first cell comes back as '1', '0' as '8'), the page
      number digits (a non-digit as '0'), spaces in the unwritten header
      columns 3..7, and every other cell masked to seven bits. */
  function RoundTripped(page: Grid): (g: Grid)
  {
    seq(25, r requires 0 <= r < 25 => seq(40, c requires 0 <= c < 40 => RoundTrippedCell(page, r, c)))
  }

  function RoundTrippedCell(page: Grid, r: int, c: int): int
    requires 0 <= r < Rows && 0 <= c < Cols
  {
    if r == 0 && c == 0 then 0x30 + (if SerialMagazine(page) == 0 then 8 else SerialMagazine(page))
    else if r == 0 && c == 1 then 0x30 + DigitOrZero(page[0][1])
    else if r == 0 && c == 2 then 0x30 + DigitOrZero(page[0][2])
    else if r == 0 && c < 8 then Space
    else Mask7(page[r][c])
  }

  /** What row r's packet writes into column c: nothing in header columns
      3..7, the round-tripped cell everywhere else. */
  lemma RowPacketWrite(page: Grid, r: int, c: int)
    requires 0 <= r < Rows && 0 <= c < Cols
    ensures T42Write(RowPackets(page)[r], c) ==
              if r == 0 && 3 <= c < 8 then None else Some(RoundTripped(page)[r][c])
  {
    var p := RowPackets(page)[r];
    var body := PacketBody(page, r);
    assert p == Packet(SerialMagazine(page), r, body);
    assert RoundTripped(page)[r][c] == RoundTrippedCell(page, r, c);
    if r == 0 && c == 0 {
    } else if r == 0 && c == 1 {
      Hamming.DecodeEncodeNibble(DigitOrZero(page[0][1]));
      assert T42Write(p, c) == Some(0x30 + Hamming.Decode(body[1]));
    } else if r == 0 && c == 2 {
      Hamming.DecodeEncodeNibble(DigitOrZero(page[0][2]));
      assert T42Write(p, c) == Some(0x30 + Hamming.Decode(body[0]));
    } else if r == 0 && c < 8 {
    } else {
      assert body[c] == Mask7(page[r][c]);
      assert T42Write(p, c) == Some(Mask7(body[c]));
      assert Mask7(Mask7(page[r][c])) == Mask7(page[r][c]);
    }
  }

  lemma RoundTripCell(page: Grid, r: int, c: int)
    requires 0 <= r < Rows && 0 <= c < Cols
    ensures FoldPackets(RowPackets(page), T42Write)[r][c] == RoundTripped(page)[r][c]
  {
    var ps := RowPackets(page);
    FoldCell(ps, T42Write, r, c);
    var j := LastWriter(ps, T42Write, r, c);
    assert ps[r].row == r;
    assert j < 0 || j == r;
    RowPacketWrite(page, r, c);
  }

  /** Parsing what `serialize` wrote gives exactly one page, RoundTripped. */
  lemma SerializeParse(page: Grid)
    ensures ParseMultiPageSpec(SerializeSpec(page)) == [RoundTripped(page)]
  {
    var ps := RowPackets(page);
    SerializedPackets(page);
    assert forall j :: 0 < j < |ps| ==> ps[j].row != 0;
    SingleGroup(ps);
    assert HasPageRow(ps) by {
      assert 0 <= ps[0].row < Rows;
    }
    BuiltPagesSnoc([], ps);
    var built := FoldPackets(ps, T42Write);
    forall r, c | 0 <= r < Rows && 0 <= c < Cols
      ensures built[r][c] == RoundTripped(page)[r][c]
    {
      RoundTripCell(page, r, c);
    }
    GridExt(built, RoundTripped(page));
  }

  /** For a page of 7-bit codes the round trip keeps rows 1..24 and the header
      text in columns 8..39, and always yields 7-bit codes. */
  lemma SerializeParseKeepsText(page: Grid)
    requires SevenBit(page)
    ensures ParseMultiPageSpec(SerializeSpec(page)) != []
    ensures var back := ParseMultiPageSpec(SerializeSpec(page))[0];
            (forall r, c :: 1 <= r < Rows && 0 <= c < Cols ==> back[r][c] == page[r][c]) &&
            (forall c :: 8 <= c < Cols ==> back[0][c] == page[0][c]) &&
            SevenBit(back)
  {
    SerializeParse(page);
    var back := RoundTripped(page);
    forall r, c | 0 <= r < Rows && 0 <= c < Cols
      ensures 0 <= back[r][c] < 128
      ensures (r > 0 || c >= 8) ==> back[r][c] == page[r][c]
    {
    }
  }

  /** Every packet of a group is a packet of the stream. */
  lemma GroupMember(ps: seq<Packet>, j: int, k: int)
    requires 0 <= j < |Groups(ps)| && 0 <= k < |Groups(ps)[j]|
    ensures Groups(ps)[j][k] in ps
  {
    GroupsPartition(ps);
    ConcatMember(Groups(ps), j, Groups(ps)[j][k]);
  }

  /** A group of decoded packets (magazines 0..7) builds a page of 7-bit codes. */
  lemma GroupSevenBit(g: seq<Packet>)
    requires forall k :: 0 <= k < |g| ==> 0 <= g[k].magazine < 8
    ensures SevenBit(FoldPackets(g, T42Write))
  {
    FoldSevenBit(g, T42Write);
  }

  /** Every page built from T42 packets holds 7-bit codes only. */
  lemma ParsedPagesSevenBit(data: seq<Byte>)
    ensures forall i :: 0 <= i < |ParseMultiPageSpec(data)| ==> SevenBit(ParseMultiPageSpec(data)[i])
  {
    var ps := SplitPackets(data);
    var gs := Groups(ps);
    BuiltPagesFromGroups(gs);
    forall i | 0 <= i < |ParseMultiPageSpec(data)|
      ensures SevenBit(ParseMultiPageSpec(data)[i])
    {
      var j :| 0 <= j < |gs| && HasPageRow(gs[j]) && BuiltPages(gs)[i] == FoldPackets(gs[j], T42Write);
      forall k | 0 <= k < |gs[j]|
        ensures 0 <= gs[j][k].magazine < 8
      {
        GroupMember(ps, j, k);
      }
      GroupSevenBit(gs[j]);
    }
  }
}
