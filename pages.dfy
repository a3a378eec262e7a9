/** Shared vocabulary of the teletext model: bytes, the 25x40 page grid and
    the 7-bit masking every codec applies. */
module Pages {

  datatype Option<T> = None | Some(value: T)

  /** A byte as the codecs see it after `toInt() and 0xFF`. */
  type Byte = x: int | 0 <= x < 256

  const Rows := 25
  const Cols := 40
  const Space := 0x20

  /** A page: always 25 rows of 40 int codes. */
  type Grid = g: seq<seq<int>> | |g| == 25 && forall r :: 0 <= r < |g| ==> |g[r]| == 40
    witness seq(25, _ => seq(40, _ => 0x20))

  /** The page `Array(25) { IntArray(40) { 0x20 } }`. */
  function Blank(): (g: Grid)
    ensures forall r, c :: 0 <= r < Rows && 0 <= c < Cols ==> g[r][c] == Space
  {
    seq(25, _ => seq(40, _ => 0x20))
  }

  /** Kotlin `x and 0x7F` on an Int: the low seven bits, for every sign of x. */
  function Mask7(x: int): (r: int)
    ensures 0 <= r < 128
    ensures 0 <= x < 128 ==> r == x
  {
    x % 128
  }

  /** Every cell of the page is a 7-bit code. */
  ghost predicate SevenBit(g: Grid)
  {
    forall r, c :: 0 <= r < Rows && 0 <= c < Cols ==> 0 <= g[r][c] < 128
  }

  /** The page with every cell masked to seven bits. */
  function MaskGrid(g: Grid): (m: Grid)
    ensures forall r, c :: 0 <= r < Rows && 0 <= c < Cols ==> m[r][c] == Mask7(g[r][c])
  {
    seq(25, r requires 0 <= r < 25 => seq(40, c requires 0 <= c < 40 => Mask7(g[r][c])))
  }

  lemma MaskGridOfSevenBit(g: Grid)
    requires SevenBit(g)
    ensures MaskGrid(g) == g
  {
    GridExt(MaskGrid(g), g);
  }

  /** The prefix one element longer. */
  lemma TakeSnoc<T>(s: seq<T>, k: int)
    requires 0 <= k < |s|
    ensures s[..k + 1] == s[..k] + [s[k]]
  {
  }

  /** Two pages are equal when they agree on every cell. */
  lemma GridExt(a: Grid, b: Grid)
    requires forall r, c :: 0 <= r < Rows && 0 <= c < Cols ==> a[r][c] == b[r][c]
    ensures a == b
  {
    forall r | 0 <= r < Rows
      ensures a[r] == b[r]
    {
      assert forall c :: 0 <= c < Cols ==> a[r][c] == b[r][c];
    }
  }

  /** The cells of a 25x40 page buffer, read as a value. */
  function GridOf(a: array2<int>): (g: Grid)
    reads a
    requires a.Length0 == Rows && a.Length1 == Cols
    ensures forall r, c :: 0 <= r < Rows && 0 <= c < Cols ==> g[r][c] == a[r, c]
  {
    seq(25, r requires 0 <= r < 25 reads a => seq(40, c requires 0 <= c < 40 reads a => a[r, c]))
  }

  /** The row-major concatenation of a page (1000 cells). */
  function Flatten(g: Grid): (s: seq<int>)
    ensures |s| == Rows * Cols
    ensures forall k :: 0 <= k < Rows * Cols ==> s[k] == g[k / Cols][k % Cols]
  {
    seq(1000, k requires 0 <= k < 1000 => g[k / 40][k % 40])
  }

  /** A fresh buffer holding `page`; the model's `Array(25) { IntArray(40) { … } }`. */
  method NewPage(page: Grid) returns (a: array2<int>)
    ensures fresh(a) && a.Length0 == Rows && a.Length1 == Cols
    ensures GridOf(a) == page
  {
    a := new int[25, 40]((r, c) requires 0 <= r < 25 && 0 <= c < 40 => page[r][c]);
    GridExt(GridOf(a), page);
  }

  /** Cell k of a page read from `data` starting at byte `start`: the byte
      masked to seven bits, or a space once the data has run out. */
  function WindowCell(data: seq<Byte>, start: nat, k: int): (x: int)
    ensures 0 <= x < 128
  {
    if 0 <= start + k < |data| then Mask7(data[start + k]) else Space
  }

  /** The page whose cell (r, c) is WindowCell(data, start, 40 * r + c). */
  function WindowPage(data: seq<Byte>, start: nat): (g: Grid)
    ensures forall r, c :: 0 <= r < Rows && 0 <= c < Cols ==> g[r][c] == WindowCell(data, start, Cols * r + c)
  {
    seq(25, r requires 0 <= r < 25 => seq(40, c requires 0 <= c < 40 => WindowCell(data, start, Cols * r + c)))
  }

  /** The cells of a page in row-major order, each masked to seven bits. */
  function MaskedCells(g: Grid): (s: seq<Byte>)
    ensures |s| == Rows * Cols
    ensures forall k :: 0 <= k < Rows * Cols ==> s[k] == Mask7(g[k / Cols][k % Cols])
  {
    seq(1000, k requires 0 <= k < 1000 => Mask7(g[k / 40][k % 40]))
  }

  /** Reading a page back from its masked cells gives the masked page. */
  lemma WindowOfMaskedCells(g: Grid, prefix: seq<Byte>)
    ensures WindowPage(prefix + MaskedCells(g), |prefix|) == MaskGrid(g)
  {
    var data := prefix + MaskedCells(g);
    forall r, c | 0 <= r < Rows && 0 <= c < Cols
      ensures WindowPage(data, |prefix|)[r][c] == MaskGrid(g)[r][c]
    {
      var k := Cols * r + c;
      assert k / Cols == r && k % Cols == c;
      assert data[|prefix| + k] == MaskedCells(g)[k];
    }
    GridExt(WindowPage(data, |prefix|), MaskGrid(g));
  }

  /** The same with nothing before the cells. */
  lemma WindowOfCells(g: Grid)
    ensures WindowPage(MaskedCells(g), 0) == MaskGrid(g)
  {
    var data := MaskedCells(g);
    forall r, c | 0 <= r < Rows && 0 <= c < Cols
      ensures WindowPage(data, 0)[r][c] == MaskGrid(g)[r][c]
    {
      var k := Cols * r + c;
      assert k / Cols == r && k % Cols == c;
    }
    GridExt(WindowPage(data, 0), MaskGrid(g));
  }

  lemma ConcatAssoc<T>(a: seq<T>, b: seq<T>, c: seq<T>)
    ensures (a + b) + c == a + (b + c)
  {
  }
}
