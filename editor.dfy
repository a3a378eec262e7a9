/** The editing state behind the teletext page view: the page buffer, the
    display attributes recomputed from it, the cursor, and a bounded undo
    history of snapshots taken before each edit. */
module Editor {
  import opened Pages
  import opened Attributes

  /** One undo snapshot: a deep copy of the page and the cursor. */
  datatype HistoryState = HistoryState(page: Grid, cursorX: int, cursorY: int)

  const MaxHistorySize := 200

  /** The keys the view handles itself; every other key goes to the
      platform's default handler. */
  datatype Key = Del | Enter | Left | Right | Up | Down | Other

  predicate CursorOk(x: int, y: int)
  {
    0 <= x < Cols && 0 <= y < Rows
  }

  /** The cursor as a row-major cell index 0..999. */
  function Pos(x: int, y: int): int
  {
    Cols * y + x
  }

  /** The page with cell (x, y) set to v. */
  function SetCell(g: Grid, x: int, y: int, v: int): (h: Grid)
    requires CursorOk(x, y)
    ensures forall r, c :: 0 <= r < Rows && 0 <= c < Cols ==>
              h[r][c] == if r == y && c == x then v else g[r][c]
  {
    g[y := g[y][x := v]]
  }

  /** The cell indices either side of p, round the 1000 cells. */
  lemma CyclicNeighbours(p: int)
    requires 0 <= p < Rows * Cols
    ensures (p + 1) % (Rows * Cols) == if p + 1 < Rows * Cols then p + 1 else 0
    ensures (p + Rows * Cols - 1) % (Rows * Cols) == if p > 0 then p - 1 else Rows * Cols - 1
  {
  }

  /** The cell after (x, y) in reading order, from (39, 24) back to (0, 0):
      where typing a character leaves the cursor, and the right-arrow move. */
  function Forward(x: int, y: int): (p: (int, int))
    requires CursorOk(x, y)
    ensures CursorOk(p.0, p.1)
    ensures Pos(p.0, p.1) == (Pos(x, y) + 1) % (Rows * Cols)
  {
    CyclicNeighbours(Pos(x, y));
    if x + 1 < Cols then (x + 1, y)
    else if y + 1 < Rows then (0, y + 1)
    else (0, 0)
  }

  /** The cell before (x, y) in reading order, from (0, 0) round to (39, 24):
      where backspace and the left-arrow move leave the cursor. */
  function Back(x: int, y: int): (p: (int, int))
    requires CursorOk(x, y)
    ensures CursorOk(p.0, p.1)
    ensures Pos(p.0, p.1) == (Pos(x, y) + Rows * Cols - 1) % (Rows * Cols)
  {
    CyclicNeighbours(Pos(x, y));
    if x > 0 then (x - 1, y)
    else if y > 0 then (Cols - 1, y - 1)
    else (Cols - 1, Rows - 1)
  }

  /** Moving back undoes moving forward, and the other way round. */
  lemma BackUndoesForward(x: int, y: int)
    requires CursorOk(x, y)
    ensures Back(Forward(x, y).0, Forward(x, y).1) == (x, y)
    ensures Forward(Back(x, y).0, Back(x, y).1) == (x, y)
  {
  }

  /** Where a cursor key leaves the cursor. Enter goes to the start of the
      next row (the top row after the last); up and down wrap within the
      column. */
  function KeyCursor(key: Key, x: int, y: int): (p: (int, int))
    requires CursorOk(x, y)
    ensures CursorOk(p.0, p.1)
  {
    match key
    case Del => Back(x, y)
    case Enter => (0, if y + 1 < Rows then y + 1 else 0)
    case Left => Back(x, y)
    case Right => Forward(x, y)
    case Up => (x, if y > 0 then y - 1 else Rows - 1)
    case Down => (x, if y < Rows - 1 then y + 1 else 0)
    case Other => (x, y)
  }

  /** Up and down undo each other; left and right undo each other. */
  lemma OppositeKeysCancel(x: int, y: int)
    requires CursorOk(x, y)
    ensures var d := KeyCursor(Down, x, y); KeyCursor(Up, d.0, d.1) == (x, y)
    ensures var u := KeyCursor(Up, x, y); KeyCursor(Down, u.0, u.1) == (x, y)
    ensures var r := KeyCursor(Right, x, y); KeyCursor(Left, r.0, r.1) == (x, y)
    ensures var l := KeyCursor(Left, x, y); KeyCursor(Right, l.0, l.1) == (x, y)
  {
    BackUndoesForward(x, y);
  }

  /** Kotlin `coerceIn(0, hi)`. */
  function Clamp(v: int, hi: int): (r: int)
    requires 0 <= hi
    ensures 0 <= r <= hi
    ensures 0 <= v <= hi ==> r == v
    ensures v < 0 ==> r == 0
    ensures v > hi ==> r == hi
  {
    if v < 0 then 0 else if v > hi then hi else v
  }

  /** The history after a push of s at index: the entries after index are
      dropped (no redo past a new edit), s is appended, and beyond 200
      entries the oldest is evicted. */
  function Pushed(history: seq<HistoryState>, index: int, s: HistoryState): (h: seq<HistoryState>)
    requires -1 <= index < |history| <= MaxHistorySize
    ensures 1 <= |h| <= MaxHistorySize
    ensures h[|h| - 1] == s
    ensures index + 2 <= MaxHistorySize ==> h == history[..index + 1] + [s]
    ensures index + 2 > MaxHistorySize ==> h == history[1..index + 1] + [s]
  {
    var kept := history[..index + 1] + [s];
    if |kept| > MaxHistorySize then kept[1..] else kept
  }

  /** One step of the input method's delete-before-cursor: step back one
      cell without wrapping past (0, 0), then blank the cell reached. */
  function DeleteStep(page: Grid, x: int, y: int): (r: (Grid, int, int))
    requires CursorOk(x, y)
    ensures CursorOk(r.1, r.2)
    ensures Pos(r.1, r.2) == if Pos(x, y) > 0 then Pos(x, y) - 1 else 0
  {
    var (nx, ny) := if x > 0 then (x - 1, y) else if y > 0 then (Cols - 1, y - 1) else (x, y);
    (SetCell(page, nx, ny, Space), nx, ny)
  }

  /** n delete steps. */
  function DeleteBack(page: Grid, x: int, y: int, n: nat): (r: (Grid, int, int))
    requires CursorOk(x, y)
    ensures CursorOk(r.1, r.2)
    decreases n
  {
    if n == 0 then (page, x, y)
    else
      var (p, nx, ny) := DeleteStep(page, x, y);
      DeleteBack(p, nx, ny, n - 1)
  }

  /** Deleting n cells before the cursor leaves it n cells earlier in
      reading order, stopping at (0, 0). The cells from the new cursor up to
      the old one (exclusive) are blank, and so is the cell under the new
      cursor once any step ran (at (0, 0) the steps keep blanking it); every
      other cell is unchanged. */
  lemma {:induction false} DeleteBackEffect(page: Grid, x: int, y: int, n: nat)
    requires CursorOk(x, y)
    ensures var (p, nx, ny) := DeleteBack(page, x, y, n);
            Pos(nx, ny) == if Pos(x, y) >= n then Pos(x, y) - n else 0
    ensures var (p, nx, ny) := DeleteBack(page, x, y, n);
            forall r, c :: 0 <= r < Rows && 0 <= c < Cols ==>
              p[r][c] == if Pos(nx, ny) <= Pos(c, r) < Pos(x, y) || (n > 0 && Pos(c, r) == Pos(nx, ny))
                         then Space else page[r][c]
    decreases n
  {
    if n > 0 {
      var (p1, x1, y1) := DeleteStep(page, x, y);
      DeleteBackEffect(p1, x1, y1, n - 1);
      var (p, nx, ny) := DeleteBack(page, x, y, n);
      assert (p, nx, ny) == DeleteBack(p1, x1, y1, n - 1);
      forall r, c | 0 <= r < Rows && 0 <= c < Cols
        ensures p[r][c] == if Pos(nx, ny) <= Pos(c, r) < Pos(x, y) || Pos(c, r) == Pos(nx, ny)
                           then Space else page[r][c]
      {
        assert p1[r][c] == if r == y1 && c == x1 then Space else page[r][c];
        assert Pos(c, r) == Pos(x1, y1) <==> r == y1 && c == x1;
      }
    }
  }

  /** n + 1 delete steps are n steps followed by one more. */
  lemma {:induction false} DeleteBackSnoc(page: Grid, x: int, y: int, n: nat)
    requires CursorOk(x, y)
    ensures var (p, nx, ny) := DeleteBack(page, x, y, n);
            DeleteBack(page, x, y, n + 1) == DeleteStep(p, nx, ny)
    decreases n
  {
    if n > 0 {
      var (p1, x1, y1) := DeleteStep(page, x, y);
      DeleteBackSnoc(p1, x1, y1, n - 1);
    }
  }

  /** Two edits in a row below the size limit: the snapshots taken before
      each become the last two entries and the index points at the second.
      An undo (which steps the index back before restoring) therefore brings
      back the page as it was before the FIRST of the two edits, and a redo
      from there brings back the page as it was before the second edit; the
      page after the second edit is not among the entries. */
  lemma UndoAfterTwoEdits(h: seq<HistoryState>, i: int, s1: HistoryState, s2: HistoryState)
    requires 0 <= i < |h| <= MaxHistorySize && i + 3 <= MaxHistorySize
    ensures var h1 := Pushed(h, i, s1);
            var h2 := Pushed(h1, |h1| - 1, s2);
            |h2| == i + 3 && h2[..i + 1] == h[..i + 1] && h2[i + 1] == s1 && h2[i + 2] == s2
  {
    var h1 := Pushed(h, i, s1);
    assert h1 == h[..i + 1] + [s1];
  }

  /** The editing state of the page view. The six per-cell attribute grids
      of the view are held as one grid of attribute records. */
  class TeletextView {
    var pageData: array2<int>
    var attrs: array2<CellAttr>
    var history: seq<HistoryState>
    var historyIndex: int
    var cursorX: int
    var cursorY: int

    /** Both grids are 25x40, the cursor is on the page, the history holds
        at most 200 snapshots whose cursors are on the page, and the index is
        at most the last entry (-1 only before the first push). */
    ghost predicate Shape()
      reads this
    {
      pageData.Length0 == Rows && pageData.Length1 == Cols &&
      attrs.Length0 == Rows && attrs.Length1 == Cols &&
      CursorOk(cursorX, cursorY) &&
      -1 <= historyIndex < |history| <= MaxHistorySize &&
      forall i :: 0 <= i < |history| ==> CursorOk(history[i].cursorX, history[i].cursorY)
    }

    /** The page buffer as a value. */
    function Page(): Grid
      reads this, pageData
      requires pageData.Length0 == Rows && pageData.Length1 == Cols
    {
      GridOf(pageData)
    }

    /** Every cell's recorded attributes are those the row scan gives it. */
    ghost predicate AttrsCurrent()
      reads this, pageData, attrs
      requires Shape()
    {
      forall r, c :: 0 <= r < Rows && 0 <= c < Cols ==> attrs[r, c] == AttrAt(Page()[r], c)
    }

    /** The state between two public calls: the first snapshot exists and
        the attributes match the page. */
    ghost predicate Valid()
      reads this, pageData, attrs
    {
      Shape() && 0 <= historyIndex && AttrsCurrent()
    }

    /** A blank page with the cursor at the top left and the attributes a
        row starts with; the snapshot the view posts on creation is pushed
        here directly. */
    constructor ()
      ensures Valid() && fresh(pageData) && fresh(attrs)
      ensures Page() == Blank() && cursorX == 0 && cursorY == 0
      ensures history == [HistoryState(Blank(), 0, 0)] && historyIndex == 0
    {
      pageData := new int[Rows, Cols]((r, c) => Space);
      attrs := new CellAttr[Rows, Cols]((r, c) => RowStart);
      history := [];
      historyIndex := -1;
      cursorX, cursorY := 0, 0;
      new;
      GridExt(Page(), Blank());
      forall r, c | 0 <= r < Rows && 0 <= c < Cols
        ensures attrs[r, c] == AttrAt(Page()[r], c)
      {
        PlainPrefixKeepsStart(Page()[r], c);
      }
      PushHistory();
    }

    /** Drops the entries after the index, appends a snapshot of the page and
        cursor, evicts the oldest entry beyond 200, and points the index at
        the new last entry. */
    method PushHistory()
      requires Shape()
      modifies this
      ensures Shape()
      ensures history == Pushed(old(history), old(historyIndex), HistoryState(old(Page()), cursorX, cursorY))
      ensures historyIndex == |history| - 1
      ensures pageData == old(pageData) && attrs == old(attrs)
      ensures cursorX == old(cursorX) && cursorY == old(cursorY)
    {
      if historyIndex < |history| - 1 {
        history := history[..historyIndex + 1];
      }
      var state := HistoryState(GridOf(pageData), cursorX, cursorY);
      history := history + [state];
      if |history| > MaxHistorySize {
        history := history[1..];
      } else {
        historyIndex := historyIndex + 1;
      }
      if |history| > MaxHistorySize {
        // unreachable: the eviction above already brought the size back to 200
        assert false;
      } else {
        historyIndex := |history| - 1;
      }
    }

    /** Rescans every row from the row-start state and records each cell's
        attributes. */
    method RecomputeAttributes()
      requires Shape()
      modifies attrs
      ensures AttrsCurrent()
    {
      ghost var page := Page();
      for row := 0 to Rows
        invariant Page() == page
        invariant forall r, c :: 0 <= r < row && 0 <= c < Cols ==> attrs[r, c] == AttrAt(page[r], c)
      {
        ScanRow(row);
      }
    }

    /** One row of the scan: the attributes start from the row-start state
        and each cell applies its own code; other rows keep theirs. */
    method ScanRow(row: int)
      requires Shape() && 0 <= row < Rows
      modifies attrs
      ensures forall c :: 0 <= c < Cols ==> attrs[row, c] == AttrAt(Page()[row], c)
      ensures forall r, c :: 0 <= r < Rows && 0 <= c < Cols && r != row ==> attrs[r, c] == old(attrs[r, c])
    {
      var current := RowStart;
      ghost var cells := Page()[row];
      for col := 0 to Cols
        invariant forall r, c :: 0 <= r < Rows && 0 <= c < Cols && r != row ==> attrs[r, c] == old(attrs[r, c])
        invariant forall c :: 0 <= c < col ==> attrs[row, c] == AttrAt(cells, c)
        invariant current == if col == 0 then RowStart else AttrAt(cells, col - 1)
      {
        ScanPrefix(cells, col);
        assert cells[col] == pageData[row, col];
        current := Step(current, pageData[row, col]);
        assert current == AttrAt(cells, col);
        attrs[row, col] := current;
      }
    }

    /** The in-place write `pageData[y][x] = v`. */
    method WriteCell(x: int, y: int, v: int)
      requires Shape() && CursorOk(x, y)
      modifies pageData
      ensures Page() == SetCell(old(Page()), x, y, v)
    {
      pageData[y, x] := v;
      GridExt(Page(), SetCell(old(Page()), x, y, v));
    }

    /** Copies a snapshot's cells into the page buffer, takes its cursor and
        recomputes the attributes. */
    method RestoreState(state: HistoryState)
      requires Shape() && CursorOk(state.cursorX, state.cursorY)
      modifies this, pageData, attrs
      ensures Shape() && AttrsCurrent()
      ensures Page() == state.page && cursorX == state.cursorX && cursorY == state.cursorY
      ensures pageData == old(pageData) && attrs == old(attrs)
      ensures history == old(history) && historyIndex == old(historyIndex)
    {
      for row := 0 to Rows
        modifies pageData
        invariant forall r, c :: 0 <= r < row && 0 <= c < Cols ==> pageData[r, c] == state.page[r][c]
      {
        for col := 0 to Cols
          modifies pageData
          invariant forall r, c :: 0 <= r < row && 0 <= c < Cols ==> pageData[r, c] == state.page[r][c]
          invariant forall c :: 0 <= c < col ==> pageData[row, c] == state.page[row][c]
        {
          pageData[row, col] := state.page[row][col];
        }
      }
      GridExt(Page(), state.page);
      cursorX := state.cursorX;
      cursorY := state.cursorY;
      RecomputeAttributes();
    }

    /** Undo is possible once the index is past the first entry. */
    function CanUndo(): bool
      reads this
    {
      historyIndex > 0
    }

    /** Redo is possible while the index is before the last entry. */
    function CanRedo(): bool
      reads this
    {
      historyIndex < |history| - 1
    }

    /** When undo is possible, steps the index back and restores the entry
        it then points at; otherwise changes nothing. */
    method Undo() returns (done: bool)
      requires Valid()
      modifies this, pageData, attrs
      ensures Valid() && done == old(CanUndo())
      ensures history == old(history) && pageData == old(pageData) && attrs == old(attrs)
      ensures done ==> historyIndex == old(historyIndex) - 1 && Page() == history[historyIndex].page &&
                       cursorX == history[historyIndex].cursorX && cursorY == history[historyIndex].cursorY
      ensures !done ==> historyIndex == old(historyIndex) && Page() == old(Page()) &&
                        cursorX == old(cursorX) && cursorY == old(cursorY)
    {
      if historyIndex <= 0 {
        return false;
      }
      historyIndex := historyIndex - 1;
      RestoreState(history[historyIndex]);
      return true;
    }

    /** When redo is possible, steps the index forward and restores the
        entry it then points at; otherwise changes nothing. */
    method Redo() returns (done: bool)
      requires Valid()
      modifies this, pageData, attrs
      ensures Valid() && done == old(CanRedo())
      ensures history == old(history) && pageData == old(pageData) && attrs == old(attrs)
      ensures done ==> historyIndex == old(historyIndex) + 1 && Page() == history[historyIndex].page &&
                       cursorX == history[historyIndex].cursorX && cursorY == history[historyIndex].cursorY
      ensures !done ==> historyIndex == old(historyIndex) && Page() == old(Page()) &&
                        cursorX == old(cursorX) && cursorY == old(cursorY)
    {
      if historyIndex >= |history| - 1 {
        return false;
      }
      historyIndex := historyIndex + 1;
      RestoreState(history[historyIndex]);
      return true;
    }

    /** The code at (x, y), or a space off the page. */
    function GetCharAt(x: int, y: int): (v: int)
      reads this, pageData
      requires pageData.Length0 == Rows && pageData.Length1 == Cols
      ensures CursorOk(x, y) ==> v == Page()[y][x]
      ensures !CursorOk(x, y) ==> v == Space
    {
      if 0 <= x < Cols && 0 <= y < Rows then pageData[y, x] else Space
    }

    /** Writes the code's low seven bits at (x, y) when that is on the page,
        without a snapshot; off the page nothing changes. */
    method SetCharAt(x: int, y: int, charCode: int)
      requires Valid()
      modifies pageData, attrs
      ensures Valid()
      ensures Page() == if CursorOk(x, y) then SetCell(old(Page()), x, y, Mask7(charCode)) else old(Page())
      ensures GetCharAt(x, y) == if CursorOk(x, y) then Mask7(charCode) else Space
    {
      if 0 <= x < Cols && 0 <= y < Rows {
        WriteCell(x, y, charCode % 128);
        RecomputeAttributes();
      }
    }

    /** Assigning the page buffer: the view takes the given array (not a
        copy), recomputes the attributes and keeps its history. */
    method SetPageData(a: array2<int>)
      requires Shape() && a.Length0 == Rows && a.Length1 == Cols
      modifies this, attrs
      ensures Shape() && AttrsCurrent()
      ensures pageData == a && attrs == old(attrs) && Page() == old(GridOf(a))
      ensures history == old(history) && historyIndex == old(historyIndex)
      ensures cursorX == old(cursorX) && cursorY == old(cursorY)
    {
      pageData := a;
      RecomputeAttributes();
    }

    /** Snapshot, then a fresh blank page; the cursor stays. */
    method ClearPage()
      requires Valid()
      modifies this, attrs
      ensures Valid() && fresh(pageData) && attrs == old(attrs)
      ensures Page() == Blank() && cursorX == old(cursorX) && cursorY == old(cursorY)
      ensures history == Pushed(old(history), old(historyIndex), HistoryState(old(Page()), cursorX, cursorY))
      ensures historyIndex == |history| - 1
    {
      PushHistory();
      var blank := NewPage(Blank());
      SetPageData(blank);
      RecomputeAttributes();
    }

    /** Typing a character: snapshot, write its low seven bits at the cursor,
        advance the cursor in reading order. */
    method InsertCharacter(code: int)
      requires Valid()
      modifies this, pageData, attrs
      ensures Valid() && pageData == old(pageData) && attrs == old(attrs)
      ensures history == Pushed(old(history), old(historyIndex), HistoryState(old(Page()), old(cursorX), old(cursorY)))
      ensures historyIndex == |history| - 1
      ensures Page() == SetCell(old(Page()), old(cursorX), old(cursorY), Mask7(code))
      ensures (cursorX, cursorY) == Forward(old(cursorX), old(cursorY))
    {
      PushHistory();
      WriteCell(cursorX, cursorY, code % 128);
      cursorX := cursorX + 1;
      if cursorX >= Cols {
        cursorX := 0;
        cursorY := cursorY + 1;
        if cursorY >= Rows {
          cursorY := 0;
        }
      }
      RecomputeAttributes();
    }

    /** The backspace branch of the key handler: snapshot, step back one
        cell (from (0, 0) round to (39, 24)) and blank the cell reached. */
    method Backspace()
      requires Valid()
      modifies this, pageData, attrs
      ensures Valid() && pageData == old(pageData) && attrs == old(attrs)
      ensures (cursorX, cursorY) == Back(old(cursorX), old(cursorY))
      ensures Page() == SetCell(old(Page()), cursorX, cursorY, Space)
      ensures history == Pushed(old(history), old(historyIndex), HistoryState(old(Page()), old(cursorX), old(cursorY)))
      ensures historyIndex == |history| - 1
    {
      PushHistory();
      StepBack();
      WriteCell(cursorX, cursorY, Space);
      RecomputeAttributes();
    }

    /** Backspace's cursor move: one cell left, to the end of the row
        above from column 0, and to the last cell from the first. */
    method StepBack()
      requires CursorOk(cursorX, cursorY)
      modifies this
      ensures (cursorX, cursorY) == Back(old(cursorX), old(cursorY))
      ensures pageData == old(pageData) && attrs == old(attrs)
      ensures history == old(history) && historyIndex == old(historyIndex)
    {
      if cursorX > 0 {
        cursorX := cursorX - 1;
      } else if cursorY > 0 {
        cursorY := cursorY - 1;
        cursorX := Cols - 1;
      } else {
        cursorY := Rows - 1;
        cursorX := Cols - 1;
      }
    }

    /** The keys the view handles: backspace (snapshot, step back with
        wrap-around, blank the cell reached), enter and the four arrows;
        only backspace touches the page or the history. Other keys are not
        handled. */
    method KeyDown(key: Key) returns (handled: bool)
      requires Valid()
      modifies this, pageData, attrs
      ensures Valid() && pageData == old(pageData) && attrs == old(attrs)
      ensures handled == (key != Other)
      ensures (cursorX, cursorY) == KeyCursor(key, old(cursorX), old(cursorY))
      ensures key == Del ==> Page() == SetCell(old(Page()), cursorX, cursorY, Space) &&
                             history == Pushed(old(history), old(historyIndex), HistoryState(old(Page()), old(cursorX), old(cursorY))) &&
                             historyIndex == |history| - 1
      ensures key != Del ==> Page() == old(Page()) && history == old(history) && historyIndex == old(historyIndex)
    {
      match key
      case Del =>
        Backspace();
        return true;
      case Enter =>
        cursorY := cursorY + 1;
        cursorX := 0;
        if cursorY >= Rows {
          cursorY := 0;
        }
        return true;
      case Left =>
        if cursorX > 0 {
          cursorX := cursorX - 1;
        } else {
          cursorX := Cols - 1;
          if cursorY > 0 {
            cursorY := cursorY - 1;
          } else {
            cursorY := Rows - 1;
          }
        }
        return true;
      case Right =>
        if cursorX < Cols - 1 {
          cursorX := cursorX + 1;
        } else {
          cursorX := 0;
          if cursorY < Rows - 1 {
            cursorY := cursorY + 1;
          } else {
            cursorY := 0;
          }
        }
        return true;
      case Up =>
        if cursorY > 0 {
          cursorY := cursorY - 1;
        } else {
          cursorY := Rows - 1;
        }
        return true;
      case Down =>
        if cursorY < Rows - 1 {
          cursorY := cursorY + 1;
        } else {
          cursorY := 0;
        }
        return true;
      case Other =>
        return false;
    }

    /** The input method's delete-before-cursor: beforeLength delete steps,
        with no snapshot; the cells after the cursor are never touched. */
    method DeleteSurroundingText(beforeLength: int, afterLength: int) returns (r: bool)
      requires Valid()
      modifies this, pageData, attrs
      ensures r && Valid() && pageData == old(pageData) && attrs == old(attrs)
      ensures history == old(history) && historyIndex == old(historyIndex)
      ensures (Page(), cursorX, cursorY) ==
              DeleteBack(old(Page()), old(cursorX), old(cursorY), if beforeLength > 0 then beforeLength else 0)
    {
      if beforeLength > 0 {
        var i := 0;
        while i < beforeLength
          invariant 0 <= i <= beforeLength
          invariant Shape() && pageData == old(pageData) && attrs == old(attrs)
          invariant history == old(history) && historyIndex == old(historyIndex)
          invariant (Page(), cursorX, cursorY) == DeleteBack(old(Page()), old(cursorX), old(cursorY), i)
        {
          DeleteBackSnoc(old(Page()), old(cursorX), old(cursorY), i);
          if cursorX > 0 {
            cursorX := cursorX - 1;
          } else if cursorY > 0 {
            cursorY := cursorY - 1;
            cursorX := Cols - 1;
          }
          WriteCell(cursorX, cursorY, Space);
          i := i + 1;
        }
        RecomputeAttributes();
      }
      return true;
    }

    /** The cursorX setter: the value clamped to 0..39. */
    method SetCursorX(value: int)
      requires Valid()
      modifies this
      ensures Valid() && cursorX == Clamp(value, Cols - 1) && cursorY == old(cursorY)
      ensures pageData == old(pageData) && attrs == old(attrs)
      ensures history == old(history) && historyIndex == old(historyIndex)
    {
      cursorX := Clamp(value, Cols - 1);
    }

    /** The cursorY setter: the value clamped to 0..24. */
    method SetCursorY(value: int)
      requires Valid()
      modifies this
      ensures Valid() && cursorY == Clamp(value, Rows - 1) && cursorX == old(cursorX)
      ensures pageData == old(pageData) && attrs == old(attrs)
      ensures history == old(history) && historyIndex == old(historyIndex)
    {
      cursorY := Clamp(value, Rows - 1);
    }
  }
}
