/** The Softel EP1 codec (`EP1Parser`): the two magic bytes 0xFE 0x01, four
    more header bytes, and then the page's cells row by row. */
module Ep1 {
  import opened Pages

  /** The six header bytes `serialize` writes: magic, format 0x09, a reserved
      zero and the header size 6 as a little-endian 16-bit value. */
  const Header: seq<Byte> := [0xFE, 0x01, 0x09, 0x00, 0x06, 0x00]

  /** `parse` as a value: absent for fewer than six bytes or a wrong magic,
      else the page read from byte 6 on, blank where the data runs out. */
  function ParseSpec(data: seq<Byte>): Option<Grid>
  {
    if |data| < 6 then None
    else if data[0] != 0xFE || data[1] != 0x01 then None
    else Some(WindowPage(data, 6))
  }

  function Min(a: int, b: int): int
  {
    if a <= b then a else b
  }

  method Parse(data: seq<Byte>) returns (page: Option<Grid>)
    ensures page == ParseSpec(data)
  {
    if |data| < 6 {
      return None;
    }
    if data[0] != 0xFE || data[1] != 0x01 {
      return None;
    }
    var pageData := NewPage(Blank());
    var offset := 6;
    for row := 0 to Rows
      invariant pageData.Length0 == Rows && pageData.Length1 == Cols
      invariant offset == Min(6 + Cols * row, |data|)
      invariant forall r, c :: 0 <= r < Rows && 0 <= c < Cols ==>
                  pageData[r, c] == (if r < row then WindowCell(data, 6, Cols * r + c) else Space)
    {
      for col := 0 to Cols
        invariant offset == Min(6 + Cols * row + col, |data|)
        invariant forall r, c :: 0 <= r < Rows && 0 <= c < Cols ==>
                    pageData[r, c] == (if r < row || (r == row && c < col) then WindowCell(data, 6, Cols * r + c) else Space)
      {
        if offset >= |data| {
          break;
        }
        pageData[row, col] := Mask7(data[offset]);
        offset := offset + 1;
      }
    }
    GridExt(GridOf(pageData), WindowPage(data, 6));
    return Some(GridOf(pageData));
  }

  /** The bytes `serialize` writes: the header, then every cell masked to
      seven bits, 1006 bytes in all. */
  function SerializeSpec(page: Grid): (out: seq<Byte>)
    ensures |out| == 6 + Rows * Cols
  {
    Header + MaskedCells(page)
  }

  method Serialize(pageData: Grid) returns (output: seq<Byte>)
    ensures output == SerializeSpec(pageData)
  {
    output := [0xFE, 0x01, 0x09, 0x00, 0x06, 0x00];
    ghost var cells := MaskedCells(pageData);
    for row := 0 to Rows
      invariant output == Header + cells[..Cols * row]
    {
      for col := 0 to Cols
        invariant output == Header + cells[..Cols * row + col]
      {
        var k := Cols * row + col;
        assert k / Cols == row && k % Cols == col;
        assert cells[..k + 1] == cells[..k] + [cells[k]];
        output := output + [Mask7(pageData[row][col])];
      }
    }
    assert cells[..Rows * Cols] == cells;
  }

  /** Parsing what `serialize` wrote gives the page with every cell masked to
      seven bits; a page of 7-bit codes comes back unchanged. */
  lemma SerializeParse(page: Grid)
    ensures ParseSpec(SerializeSpec(page)) == Some(MaskGrid(page))
    ensures SevenBit(page) ==> ParseSpec(SerializeSpec(page)) == Some(page)
  {
    WindowOfMaskedCells(page, Header);
    if SevenBit(page) {
      MaskGridOfSevenBit(page);
    }
  }

  /** Header bytes 2..5 are never read: two inputs that differ only there
      parse alike. */
  lemma HeaderBytesIgnored(a: seq<Byte>, b: seq<Byte>)
    requires |a| == |b| >= 6 && a[..2] == b[..2] && a[6..] == b[6..]
    ensures ParseSpec(a) == ParseSpec(b)
  {
    assert a[0] == a[..2][0] && a[1] == a[..2][1];
    assert b[0] == b[..2][0] && b[1] == b[..2][1];
    forall r, c | 0 <= r < Rows && 0 <= c < Cols
      ensures WindowPage(a, 6)[r][c] == WindowPage(b, 6)[r][c]
    {
      var k := Cols * r + c;
      if 6 + k < |a| {
        assert a[6 + k] == a[6..][k] == b[6..][k] == b[6 + k];
      }
    }
    GridExt(WindowPage(a, 6), WindowPage(b, 6));
  }

  /** A file cut short keeps a blank tail: with only 966 bytes (960 cells),
      row 24 is all spaces, and every page read holds 7-bit codes. */
  lemma ShortFileBlankTail(data: seq<Byte>)
    requires |data| == 966 && data[0] == 0xFE && data[1] == 0x01
    ensures ParseSpec(data).Some?
    ensures forall c :: 0 <= c < Cols ==> ParseSpec(data).value[24][c] == Space
    ensures SevenBit(ParseSpec(data).value)
  {
  }
}
