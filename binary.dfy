/** The raw binary dump codec (`BinaryParser`): 1000 bytes, one per cell, row
    by row; longer inputs are either EP1 files or read from their last 1000
    bytes. */
module Binary {
  import opened Pages
  import Ep1

  /** `parse` as a value: absent below 960 bytes; above 1000 bytes an EP1
      file (magic 0xFE 0x01) is handed to the EP1 reader and anything else is
      read from its last 1000 bytes; otherwise read from byte 0, blank where
      the data runs out. */
  function ParseSpec(data: seq<Byte>): Option<Grid>
  {
    if |data| < 960 then None
    else if |data| > 1000 && data[0] == 0xFE && data[1] == 0x01 then Ep1.ParseSpec(data)
    else Some(WindowPage(data, if |data| > 1000 then |data| - 1000 else 0))
  }

  method Parse(data: seq<Byte>) returns (page: Option<Grid>)
    ensures page == ParseSpec(data)
  {
    if |data| < 960 {
      return None;
    }
    var pageData := NewPage(Blank());
    var offset := 0;
    if |data| > 1000 {
      if |data| >= 2 && data[0] == 0xFE && data[1] == 0x01 {
        page := Ep1.Parse(data);
        return;
      }
      offset := |data| - 1000;
    }
    for row := 0 to Rows
      invariant pageData.Length0 == Rows && pageData.Length1 == Cols
      invariant forall r, c :: 0 <= r < Rows && 0 <= c < Cols ==>
                  pageData[r, c] == (if r < row then WindowCell(data, offset, Cols * r + c) else Space)
    {
      for col := 0 to Cols
        invariant forall r, c :: 0 <= r < Rows && 0 <= c < Cols ==>
                    pageData[r, c] == (if r < row || (r == row && c < col) then WindowCell(data, offset, Cols * r + c) else Space)
      {
        if offset + (row * Cols) + col >= |data| {
          break;
        }
        pageData[row, col] := Mask7(data[offset + (row * Cols) + col]);
      }
    }
    GridExt(GridOf(pageData), WindowPage(data, offset));
    return Some(GridOf(pageData));
  }

  /** `serialize` as a value: the 1000 cells masked to seven bits. */
  function SerializeSpec(page: Grid): (out: seq<Byte>)
    ensures |out| == Rows * Cols
  {
    MaskedCells(page)
  }

  method Serialize(pageData: Grid) returns (output: array<Byte>)
    ensures fresh(output) && output[..] == SerializeSpec(pageData)
  {
    output := new Byte[1000](_ => 0);
    for row := 0 to Rows
      invariant forall k :: 0 <= k < Cols * row ==> output[k] == Mask7(pageData[k / Cols][k % Cols])
    {
      for col := 0 to Cols
        invariant forall k :: 0 <= k < Cols * row + col ==> output[k] == Mask7(pageData[k / Cols][k % Cols])
      {
        assert (row * Cols + col) / Cols == row && (row * Cols + col) % Cols == col;
        output[row * Cols + col] := Mask7(pageData[row][col]);
      }
    }
    assert output[..] == MaskedCells(pageData);
  }

  /** Parsing what `serialize` wrote gives the page with every cell masked to
      seven bits; a page of 7-bit codes comes back unchanged. */
  lemma SerializeParse(page: Grid)
    ensures ParseSpec(SerializeSpec(page)) == Some(MaskGrid(page))
    ensures SevenBit(page) ==> ParseSpec(SerializeSpec(page)) == Some(page)
  {
    SerializeParseMasked(page);
    if SevenBit(page) {
      MaskGridOfSevenBit(page);
    }
  }

  lemma SerializeParseMasked(page: Grid)
    ensures ParseSpec(SerializeSpec(page)) == Some(MaskGrid(page))
  {
    ReadWholePage(SerializeSpec(page));
    WindowOfCells(page);
  }

  /** Exactly 1000 bytes are read from byte 0. */
  lemma ReadWholePage(data: seq<Byte>)
    requires |data| == Rows * Cols
    ensures ParseSpec(data) == Some(WindowPage(data, 0))
  {
  }

  /** An EP1 file is read the same by the binary reader, since it is longer
      than 1000 bytes and starts with the EP1 magic. */
  lemma ReadsEp1Files(page: Grid)
    ensures ParseSpec(Ep1.SerializeSpec(page)) == Ep1.ParseSpec(Ep1.SerializeSpec(page)) == Some(MaskGrid(page))
  {
    Ep1.SerializeParse(page);
  }

  /** The reader accepts exactly the inputs of at least 960 bytes: the EP1
      redirect only happens for inputs the EP1 reader accepts. */
  lemma ParseSomeIff(data: seq<Byte>)
    ensures ParseSpec(data).Some? <==> |data| >= 960
  {
  }

  /** Without the EP1 magic, a long input is read from its last 1000 bytes:
      whatever precedes them makes no difference. */
  lemma LastThousandBytes(prefix: seq<Byte>, tail: seq<Byte>)
    requires |tail| == 1000 && |prefix| > 0
    requires prefix[0] != 0xFE || (prefix + tail)[1] != 0x01
    ensures ParseSpec(prefix + tail) == ParseSpec(tail)
  {
    var data := prefix + tail;
    forall r, c | 0 <= r < Rows && 0 <= c < Cols
      ensures WindowPage(data, |prefix|)[r][c] == WindowPage(tail, 0)[r][c]
    {
      assert data[|prefix| + Cols * r + c] == tail[Cols * r + c];
    }
    GridExt(WindowPage(data, |prefix|), WindowPage(tail, 0));
  }
}
