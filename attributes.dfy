/** The display attributes of a teletext row: a left-to-right state machine
    over the row's codes, restarted at the start of every row. Spacing
    attributes take effect in the cell that holds them. */
module Attributes {

  /** What one cell is drawn with: foreground and background colour
      (0..7), text or mosaic mode, double height, flash and separated
      mosaics. */
  datatype CellAttr = CellAttr(fg: int, bg: int, text: bool, double: bool, flash: bool, separated: bool)

  /** The state every row starts in: white on black, text, normal height,
      steady, contiguous. */
  const RowStart := CellAttr(7, 0, true, false, false, false)

  /** The codes that change the state. */
  predicate IsAttributeCode(ch: int)
  {
    0x00 <= ch <= 0x09 || ch == 0x0C || ch == 0x0D || 0x10 <= ch <= 0x17
    || ch == 0x19 || ch == 0x1A || ch == 0x1C || ch == 0x1D
  }

  /** Colours stay in the eight-colour palette. */
  predicate InPalette(a: CellAttr)
  {
    0 <= a.fg < 8 && 0 <= a.bg < 8
  }

  /** The state after a cell holding ch. */
  function Step(a: CellAttr, ch: int): (b: CellAttr)
    ensures !IsAttributeCode(ch) ==> b == a
    ensures InPalette(a) ==> InPalette(b)
  {
    if 0x00 <= ch <= 0x07 then a.(fg := ch, text := true)
    else if ch == 0x09 then a.(flash := false)
    else if ch == 0x08 then a.(flash := true)
    else if ch == 0x0C then a.(double := false)
    else if ch == 0x0D then a.(double := true)
    else if 0x10 <= ch <= 0x17 then a.(fg := ch - 0x10, text := false)
    else if ch == 0x19 then a.(separated := false)
    else if ch == 0x1A then a.(separated := true)
    else if ch == 0x1C then a.(bg := 0)
    else if ch == 0x1D then a.(bg := a.fg)
    else a
  }

  /** The state after the cells, from a.
      Left fold of Step, unfolded at the last cell. */
  function Scan(a: CellAttr, cells: seq<int>): CellAttr
  {
    if cells == [] then a else Step(Scan(a, cells[..|cells| - 1]), cells[|cells| - 1])
  }

  /** The attributes of cell col of a row. */
  function AttrAt(row: seq<int>, col: nat): CellAttr
    requires col < |row|
  {
    Scan(RowStart, row[..col + 1])
  }

  /** A scan from a palette state stays in the palette. */
  lemma {:induction false} ScanInPalette(a: CellAttr, cells: seq<int>)
    requires InPalette(a)
    ensures InPalette(Scan(a, cells))
  {
    if cells != [] {
      ScanInPalette(a, cells[..|cells| - 1]);
    }
  }

  /** Recorded colours are always palette indices 0..7. */
  lemma AttrInPalette(row: seq<int>, col: nat)
    requires col < |row|
    ensures InPalette(AttrAt(row, col))
  {
    ScanInPalette(RowStart, row[..col + 1]);
  }

  /** The scan sees only the cells it is given. */
  lemma ScanPrefix(row: seq<int>, col: nat)
    requires col < |row|
    ensures AttrAt(row, col) == Step(if col == 0 then RowStart else AttrAt(row, col - 1), row[col])
  {
    var cells := row[..col + 1];
    assert cells[..col] == row[..col] && cells[col] == row[col];
    assert AttrAt(row, col) == Step(Scan(RowStart, row[..col]), row[col]);
    if col == 0 {
      assert row[..0] == [];
    }
  }

  /** A cell's attributes depend only on the cells of its row up to and
      including it. */
  lemma AttrDependsOnPrefix(row: seq<int>, other: seq<int>, col: nat)
    requires col < |row| && col < |other| && row[..col + 1] == other[..col + 1]
    ensures AttrAt(row, col) == AttrAt(other, col)
  {
  }

  /** A cell that is not an attribute code keeps the state of the cell
      before it (or the row start). */
  lemma PlainCellKeepsState(row: seq<int>, col: nat)
    requires col < |row| && !IsAttributeCode(row[col])
    ensures AttrAt(row, col) == if col == 0 then RowStart else AttrAt(row, col - 1)
  {
    ScanPrefix(row, col);
  }

  /** An attribute code sets what it names, in its own cell. */
  lemma AttributeCodeTakesEffect(row: seq<int>, col: nat)
    requires col < |row|
    ensures var ch, a := row[col], AttrAt(row, col);
            var before := if col == 0 then RowStart else AttrAt(row, col - 1);
            (0x00 <= ch <= 0x07 ==> a.fg == ch && a.text)
            && (0x10 <= ch <= 0x17 ==> a.fg == ch - 0x10 && !a.text)
            && (ch == 0x08 ==> a.flash) && (ch == 0x09 ==> !a.flash)
            && (ch == 0x0D ==> a.double) && (ch == 0x0C ==> !a.double)
            && (ch == 0x1A ==> a.separated) && (ch == 0x19 ==> !a.separated)
            && (ch == 0x1C ==> a.bg == 0)
            && (ch == 0x1D ==> a.bg == before.fg && a.fg == before.fg)
  {
    ScanPrefix(row, col);
  }

  /** A row prefix without attribute codes leaves the row-start state. */
  lemma {:induction false} PlainPrefixKeepsStart(row: seq<int>, col: nat)
    requires col < |row| && forall c :: 0 <= c <= col ==> !IsAttributeCode(row[c])
    ensures AttrAt(row, col) == RowStart
  {
    PlainCellKeepsState(row, col);
    if col > 0 {
      PlainPrefixKeepsStart(row, col - 1);
    }
  }

  /** The row 0x01 'A' 0x02 'B' is drawn red, red, green, green: a colour
      code colours its own cell and the cells after it. */
  lemma ColourCodesExample(row: seq<int>)
    requires row == [0x01, 0x41, 0x02, 0x42]
    ensures AttrAt(row, 0).fg == 1 && AttrAt(row, 1).fg == 1
    ensures AttrAt(row, 2).fg == 2 && AttrAt(row, 3).fg == 2
  {
    ScanPrefix(row, 0);
    ScanPrefix(row, 1);
    ScanPrefix(row, 2);
    ScanPrefix(row, 3);
  }
}
