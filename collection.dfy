/** The page list of the main screen (`MainActivity`): a file loaded into a
    list of numbered pages, a page number read from a page's header, and
    the current position moved by prev/next, by address and by deletion. */
module Collection {
  import opened Pages
  import TtiFile = Tti
  import T42File = T42
  import TtxFile = Ttx
  import Ep1File = Ep1
  import BinFile = Binary
  import Packets

  type Text = TtiFile.Text

  /** One page of the list: its three-character number, its subpage and its
      cells. */
  datatype PageData = PageData(pageNumber: Text, subPage: Text, data: Grid)

  datatype FileFormat = TTI | EP1 | T42 | BIN | TTX

  /** "1", the subpage of a page read from a one-page file. */
  const FirstSubPage: Text := [0x31]

  // ---------------------------------------------------------------------
  // extractPageNumber

  /** The decimal digits of s, in order. */
  function Digits(s: Text): (d: Text)
    ensures |d| <= |s| && TtiFile.AllDigits(d)
    ensures |d| == |s| <==> TtiFile.AllDigits(s)
    ensures TtiFile.AllDigits(s) ==> d == s
  {
    if s == [] then []
    else Digits(s[..|s| - 1]) + (if TtiFile.IsDigit(s[|s| - 1]) then [s[|s| - 1]] else [])
  }

  /** The page number `extractPageNumber` reads from a page: the three codes
      at the start of row 0 when all are digits, else "100". */
  function PageNumberOf(g: Grid): (s: Text)
    ensures |s| == 3 && TtiFile.AllDigits(s)
    ensures s == g[0][..3] || s == TtiFile.DefaultPageNumber
  {
    var head := g[0][..3];
    if TtiFile.AllDigits(head) then head else TtiFile.DefaultPageNumber
  }

  /** A header whose first three codes are digits names its page; any other
      header gives "100". */
  lemma PageNumberOfHeader(g: Grid)
    ensures PageNumberOf(g) == g[0][..3] <==> TtiFile.AllDigits(g[0][..3])
  {
  }

  /** One more code of a row adds itself to the digits when it is one. */
  lemma DigitsStep(row: Text, col: nat)
    requires col < |row|
    ensures Digits(row[..col + 1]) == Digits(row[..col]) + (if TtiFile.IsDigit(row[col]) then [row[col]] else [])
  {
    assert row[..col + 1][..col] == row[..col];
  }

  /** The loop of `extractPageNumber` over the first three codes of a row:
      the digits among them, in order. */
  method LeadingDigits(row: Text) returns (chars: Text)
    requires |row| >= 3
    ensures chars == Digits(row[..3])
  {
    chars := [];
    for col := 0 to 3
      invariant chars == Digits(row[..col])
    {
      var ch := row[col];
      DigitsStep(row, col);
      if 0x30 <= ch <= 0x39 {
        // appending the Int ch - 0x30 appends its one decimal digit
        assert TtiFile.Decimal(ch - 0x30) == [ch];
        chars := chars + TtiFile.Decimal(ch - 0x30);
      }
      // The source's second branch appends a printable code whose Char is a
      // digit; no code in 0x20..0x7F outside 0x30..0x39 is one.
    }
  }

  method ExtractPageNumber(g: Grid) returns (s: Text)
    ensures s == PageNumberOf(g)
  {
    var row := g[0];
    var chars := LeadingDigits(row);
    if |chars| >= 3 {
      return chars;
    }
    return TtiFile.DefaultPageNumber;
  }

  // ---------------------------------------------------------------------
  // The OL texts of one page, and convertTTIPageToArray

  /** The row-to-text map `loadTTIPages` fills: a `LinkedHashMap`, so its
      entries in insertion order, one per row number. */
  type RowTexts = seq<(int, Text)>

  /** The index of the last entry for row r, or -1 when there is none. */
  function LastRow(es: RowTexts, r: int): (k: int)
    ensures -1 <= k < |es|
    ensures k >= 0 ==> es[k].0 == r
    ensures forall i :: k < i < |es| ==> es[i].0 != r
  {
    if es == [] then -1
    else if es[|es| - 1].0 == r then |es| - 1
    else LastRow(es[..|es| - 1], r)
  }

  /** The text stored for row r. */
  function Lookup(es: RowTexts, r: int): Option<Text>
  {
    var k := LastRow(es, r);
    if k < 0 then None else Some(es[k].1)
  }

  ghost predicate UniqueRows(es: RowTexts)
  {
    forall i, j :: 0 <= i < j < |es| ==> es[i].0 != es[j].0
  }

  /** `map[row] = content`: a known row keeps its place and takes the new
      text, a new row goes at the end. */
  function Put(es: RowTexts, row: int, content: Text): RowTexts
  {
    var k := LastRow(es, row);
    if k >= 0 then es[k := (row, content)] else es + [(row, content)]
  }

  /** With one entry per row, the entry found is the only one. */
  lemma LastRowUnique(es: RowTexts, r: int, i: int)
    requires UniqueRows(es) && 0 <= i < |es| && es[i].0 == r
    ensures LastRow(es, r) == i
  {
  }

  lemma LookupSnoc(es: RowTexts, e: (int, Text), r: int)
    ensures Lookup(es + [e], r) == if e.0 == r then Some(e.1) else Lookup(es, r)
  {
    assert (es + [e])[..|es|] == es;
  }

  lemma LookupAbsent(es: RowTexts, r: int)
    ensures Lookup(es, r).None? <==> forall i :: 0 <= i < |es| ==> es[i].0 != r
  {
  }

  /** Put behaves as a map update and keeps one entry per row. */
  lemma PutLookup(es: RowTexts, row: int, content: Text, r: int)
    requires UniqueRows(es)
    ensures UniqueRows(Put(es, row, content)) && |Put(es, row, content)| > 0
    ensures Lookup(Put(es, row, content), r) == if r == row then Some(content) else Lookup(es, r)
  {
    var p := Put(es, row, content);
    var k := LastRow(es, row);
    if k >= 0 {
      assert forall i :: 0 <= i < |p| ==> p[i].0 == es[i].0;
    } else {
      assert forall i :: 0 <= i < |es| ==> p[i] == es[i];
    }
    var j := LastRow(es, r);
    if r == row {
      if k >= 0 {
        LastRowUnique(p, r, k);
      } else {
        LastRowUnique(p, r, |es|);
      }
    } else if j >= 0 {
      LastRowUnique(p, r, j);
    } else {
      assert forall i :: 0 <= i < |p| ==> p[i].0 != r;
    }
  }

  /** Cell (r, c) of the page built from the entries: the decoded text
      stored for row r, or a space. */
  function StoredCell(es: RowTexts, r: int, c: int): int
    requires 0 <= r < Rows && 0 <= c < Cols
  {
    match Lookup(es, r)
    case None => Space
    case Some(t) => TtiFile.RowText(t)[c]
  }

  /** The page `convertTTIPageToArray` builds: each row 0..24 decoded from
      its stored text as the TTI reader decodes it, every other cell a
      space; entries for rows outside 0..24 change nothing. */
  function ConvertSpec(es: RowTexts): Grid
  {
    seq(Rows, r requires 0 <= r < Rows => seq(Cols, c requires 0 <= c < Cols => StoredCell(es, r, c)))
  }

  /** A row with a stored text is that text decoded; any other row is
      blank. */
  lemma ConvertRows(es: RowTexts, r: int)
    requires 0 <= r < Rows
    ensures Lookup(es, r).Some? ==> ConvertSpec(es)[r] == TtiFile.RowText(Lookup(es, r).value)
    ensures Lookup(es, r).None? ==> ConvertSpec(es)[r] == Blank()[r]
  {
    if Lookup(es, r).Some? {
      assert forall c :: 0 <= c < Cols ==> ConvertSpec(es)[r][c] == TtiFile.RowText(Lookup(es, r).value)[c];
    } else {
      assert forall c :: 0 <= c < Cols ==> ConvertSpec(es)[r][c] == Blank()[r][c];
    }
  }

  method ConvertTtiPageToArray(es: RowTexts) returns (pageData: array2<int>)
    requires UniqueRows(es)
    ensures fresh(pageData) && pageData.Length0 == Rows && pageData.Length1 == Cols
    ensures GridOf(pageData) == ConvertSpec(es)
  {
    pageData := NewPage(Blank());
    for i := 0 to |es|
      invariant forall r, c :: 0 <= r < Rows && 0 <= c < Cols ==> pageData[r, c] == StoredCell(es[..i], r, c)
    {
      var (row, content) := es[i];
      assert es[..i + 1] == es[..i] + [(row, content)];
      forall r | 0 <= r < Rows
        ensures Lookup(es[..i + 1], r) == if r == row then Some(content) else Lookup(es[..i], r)
      {
        LookupSnoc(es[..i], (row, content), r);
      }
      if 0 <= row < Rows {
        LookupAbsent(es[..i], row);
        assert forall j :: 0 <= j < i ==> es[..i][j].0 != row;
        var col := TtiFile.DecodeInto(pageData, row, content);
      }
    }
    assert es[..|es|] == es;
    GridExt(GridOf(pageData), ConvertSpec(es));
  }

  // ---------------------------------------------------------------------
  // Kotlin split("\n")

  /** The pieces of s between line feeds; text without one is one piece. */
  function SplitLf(s: Text): (parts: seq<Text>)
    ensures |parts| >= 1
    ensures forall j :: 0 <= j < |parts| ==> TtiFile.Lf !in parts[j]
    decreases |s|
  {
    var k := TtiFile.IndexOf(s, TtiFile.Lf, 0);
    if k == -1 then [s] else [s[..k]] + SplitLf(s[k + 1..])
  }

  /** Pieces glued back with a line feed between each two. */
  function JoinLf(parts: seq<Text>): Text
    requires |parts| >= 1
  {
    if |parts| == 1 then parts[0] else parts[0] + [TtiFile.Lf] + JoinLf(parts[1..])
  }

  lemma {:induction false} JoinSplitLf(s: Text)
    ensures JoinLf(SplitLf(s)) == s
    decreases |s|
  {
    var k := TtiFile.IndexOf(s, TtiFile.Lf, 0);
    if k != -1 {
      var head, tail := s[..k], s[k + 1..];
      var parts := SplitLf(s);
      assert parts == [head] + SplitLf(tail);
      assert parts[0] == head && parts[1..] == SplitLf(tail);
      assert JoinLf(parts) == head + [TtiFile.Lf] + JoinLf(SplitLf(tail));
      JoinSplitLf(tail);
      assert s == head + [TtiFile.Lf] + tail;
    }
  }

  /** The first line feed of p + [Lf] + rest, when p has none, ends p. */
  lemma FirstLf(p: Text, rest: Text)
    requires TtiFile.Lf !in p
    ensures TtiFile.IndexOf(p + [TtiFile.Lf] + rest, TtiFile.Lf, 0) == |p|
  {
    var s := p + [TtiFile.Lf] + rest;
    assert s[|p|] == TtiFile.Lf;
    assert forall i :: 0 <= i < |p| ==> s[i] == p[i];
  }

  lemma {:induction false} SplitJoinLf(parts: seq<Text>)
    requires |parts| >= 1
    requires forall j :: 0 <= j < |parts| ==> TtiFile.Lf !in parts[j]
    ensures SplitLf(JoinLf(parts)) == parts
    decreases |parts|
  {
    var p := parts[0];
    if |parts| == 1 {
      assert JoinLf(parts) == p;
      NoLf(p);
    } else {
      var tail := parts[1..];
      var rest := JoinLf(tail);
      var s := p + [TtiFile.Lf] + rest;
      assert JoinLf(parts) == s;
      FirstLf(p, rest);
      assert s[..|p|] == p && s[|p| + 1..] == rest;
      assert SplitLf(s) == [p] + SplitLf(rest);
      assert forall j :: 0 <= j < |tail| ==> tail[j] == parts[j + 1];
      SplitJoinLf(tail);
      assert parts == [p] + tail;
    }
  }

  /** Text without a line feed is split into itself alone. */
  lemma NoLf(p: Text)
    requires TtiFile.Lf !in p
    ensures SplitLf(p) == [p]
  {
    assert forall i :: 0 <= i < |p| ==> p[i] != TtiFile.Lf;
  }

  // ---------------------------------------------------------------------
  // loadTTIPages

  /** The variables `loadTTIPages` carries from line to line: the pages
      emitted, the OL texts of the page being collected, and its number and
      subpage. */
  datatype TtiLoad = TtiLoad(pages: seq<PageData>, current: RowTexts, pageNumber: Text, subPage: Text)

  const TtiLoadStart := TtiLoad([], [], TtiFile.DefaultPageNumber, FirstSubPage)

  /** The pages emitted, with the page being collected added when some OL
      text was stored for it. */
  function Flushed(st: TtiLoad): seq<PageData>
  {
    if st.current != [] then st.pages + [PageData(st.pageNumber, st.subPage, ConvertSpec(st.current))] else st.pages
  }

  /** One line: a PN line emits the page collected so far (when it holds an
      OL text) and starts the next, numbered by the first three characters
      of its value with the rest, or "1", as subpage; an OL line stores its
      text under its row number, whatever integer that is; any other line
      changes nothing. */
  function TtiLoadLine(st: TtiLoad, line: Text): TtiLoad
  {
    var t := TtiFile.Trim(line);
    if TtiFile.StartsWith(t, TtiFile.PnPrefix) then StartPage(st, TtiFile.Trim(t[3..]))
    else if TtiFile.StartsWith(t, TtiFile.OlPrefix) then
      match TtiFile.OlFields(t)
      case None => st
      case Some((row, content)) => st.(current := Put(st.current, row, content))
    else st
  }

  /** The three kinds of line `loadTTIPages` tells apart. */
  lemma TtiLoadLineCases(st: TtiLoad, line: Text)
    ensures var t := TtiFile.Trim(line);
            TtiLoadLine(st, line) ==
              if TtiFile.StartsWith(t, TtiFile.PnPrefix) then StartPage(st, TtiFile.Trim(t[3..]))
              else if TtiFile.StartsWith(t, TtiFile.OlPrefix) && TtiFile.OlFields(t).Some? then
                st.(current := Put(st.current, TtiFile.OlFields(t).value.0, TtiFile.OlFields(t).value.1))
              else st
  {
  }

  /** A PN line with value pn. */
  function StartPage(st: TtiLoad, pn: Text): TtiLoad
  {
    TtiLoad(Flushed(st), [], if |pn| >= 3 then pn[..3] else pn, if |pn| > 3 then pn[3..] else FirstSubPage)
  }

  function TtiLoadLines(st: TtiLoad, lines: seq<Text>): TtiLoad
  {
    if lines == [] then st else TtiLoadLine(TtiLoadLines(st, lines[..|lines| - 1]), lines[|lines| - 1])
  }

  /** The state after one more line of the file. */
  lemma TtiLoadLinesSnoc(lines: seq<Text>, k: nat)
    requires k < |lines|
    ensures TtiLoadLines(TtiLoadStart, lines[..k + 1]) == TtiLoadLine(TtiLoadLines(TtiLoadStart, lines[..k]), lines[k])
  {
    assert lines[..k + 1][..k] == lines[..k];
  }

  /** `loadTTIPages` as a value. */
  function LoadTtiSpec(content: Text): seq<PageData>
  {
    Flushed(TtiLoadLines(TtiLoadStart, SplitLf(content)))
  }

  /** A line that stores an OL text. */
  predicate StoresText(line: Text)
  {
    var t := TtiFile.Trim(line);
    !TtiFile.StartsWith(t, TtiFile.PnPrefix) && TtiFile.StartsWith(t, TtiFile.OlPrefix) && TtiFile.OlFields(t).Some?
  }

  function StoringLines(lines: seq<Text>): nat
  {
    if lines == [] then 0 else StoringLines(lines[..|lines| - 1]) + (if StoresText(lines[|lines| - 1]) then 1 else 0)
  }

  /** Names every emitted page carries: at most three characters of number
      and a nonempty subpage. */
  predicate WellNamed(p: PageData)
  {
    |p.pageNumber| <= 3 && p.subPage != []
  }

  predicate AllWellNamed(ps: seq<PageData>)
  {
    forall i :: 0 <= i < |ps| ==> WellNamed(ps[i])
  }

  ghost predicate LoadInvariant(st: TtiLoad)
  {
    UniqueRows(st.current) && WellNamed(PageData(st.pageNumber, st.subPage, Blank())) && AllWellNamed(st.pages)
  }

  function Pending(st: TtiLoad): nat
  {
    if st.current != [] then 1 else 0
  }

  lemma FlushedNamed(st: TtiLoad)
    requires LoadInvariant(st)
    ensures AllWellNamed(Flushed(st)) && |Flushed(st)| == |st.pages| + Pending(st)
  {
    if st.current != [] {
      var p := PageData(st.pageNumber, st.subPage, ConvertSpec(st.current));
      assert forall i :: 0 <= i < |st.pages| ==> (st.pages + [p])[i] == st.pages[i];
      assert (st.pages + [p])[|st.pages|] == p;
    }
  }

  lemma StartPageStep(st: TtiLoad, pn: Text)
    requires LoadInvariant(st)
    ensures LoadInvariant(StartPage(st, pn))
    ensures |StartPage(st, pn).pages| + Pending(StartPage(st, pn)) == |st.pages| + Pending(st)
  {
    FlushedNamed(st);
  }

  lemma StoreStep(st: TtiLoad, row: int, content: Text)
    requires LoadInvariant(st)
    ensures LoadInvariant(st.(current := Put(st.current, row, content)))
    ensures Pending(st.(current := Put(st.current, row, content))) == 1
  {
    PutLookup(st.current, row, content, row);
  }

  lemma TtiLoadLineStep(st: TtiLoad, line: Text)
    requires LoadInvariant(st)
    ensures LoadInvariant(TtiLoadLine(st, line))
    ensures |TtiLoadLine(st, line).pages| + Pending(TtiLoadLine(st, line)) <=
            |st.pages| + Pending(st) + (if StoresText(line) then 1 else 0)
  {
    var t := TtiFile.Trim(line);
    if TtiFile.StartsWith(t, TtiFile.PnPrefix) {
      StartPageStep(st, TtiFile.Trim(t[3..]));
    } else if TtiFile.StartsWith(t, TtiFile.OlPrefix) {
      match TtiFile.OlFields(t)
      case None =>
      case Some((row, content)) =>
        StoreStep(st, row, content);
    }
  }

  lemma {:induction false} TtiLoadLinesCount(lines: seq<Text>)
    ensures LoadInvariant(TtiLoadLines(TtiLoadStart, lines))
    ensures |TtiLoadLines(TtiLoadStart, lines).pages| + Pending(TtiLoadLines(TtiLoadStart, lines)) <= StoringLines(lines)
    decreases |lines|
  {
    if lines != [] {
      TtiLoadLinesCount(lines[..|lines| - 1]);
      TtiLoadLineStep(TtiLoadLines(TtiLoadStart, lines[..|lines| - 1]), lines[|lines| - 1]);
    }
  }

  /** Every page is emitted for OL texts stored since the previous one, so
      there are never more pages than OL lines, and every page carries a
      number of at most three characters and a nonempty subpage. */
  lemma LoadTtiPagesBound(content: Text)
    ensures |LoadTtiSpec(content)| <= StoringLines(SplitLf(content))
    ensures AllWellNamed(LoadTtiSpec(content))
  {
    var lines := SplitLf(content);
    TtiLoadLinesCount(lines);
    FlushedNamed(TtiLoadLines(TtiLoadStart, lines));
  }

  // ---------------------------------------------------------------------
  // loadT42Pages and loadTTXPages

  /** The pages of a T42 stream, numbered from their headers, subpages "1",
      "2", ... in stream order. */
  function T42Pages(pages: seq<Grid>): (ps: seq<PageData>)
    ensures |ps| == |pages|
  {
    seq(|pages|, i requires 0 <= i < |pages| => PageData(PageNumberOf(pages[i]), TtiFile.Decimal(i + 1), pages[i]))
  }

  lemma T42PagesSnoc(pages: seq<Grid>, index: int)
    requires 0 <= index < |pages|
    ensures T42Pages(pages[..index + 1]) ==
            T42Pages(pages[..index]) + [PageData(PageNumberOf(pages[index]), TtiFile.Decimal(index + 1), pages[index])]
  {
  }

  /** Subpage i of the list reads back as the number i + 1, so no two pages
      share a subpage. */
  lemma T42Subpages(pages: seq<Grid>, i: int, j: int)
    requires 0 <= i < |pages| && 0 <= j < |pages|
    ensures TtiFile.DigitsValue(T42Pages(pages)[i].subPage) == i + 1
    ensures i != j ==> T42Pages(pages)[i].subPage != T42Pages(pages)[j].subPage
  {
    TtiFile.DecimalValue(i + 1);
    TtiFile.DecimalValue(j + 1);
  }

  const TtxChunk := 1050

  function Min(a: int, b: int): int
  {
    if a <= b then a else b
  }

  /** The chunk `loadTTXPages` hands to the TTX reader at `offset`. */
  function Chunk(data: seq<Byte>, offset: nat): seq<Byte>
    requires offset <= |data|
  {
    data[offset..Min(offset + TtxChunk, |data|)]
  }

  /** The pages read from `offset` on with the reader `read`: one per
      chunk while a whole packet is left and the reader accepts the chunk. */
  function ChunkPages(data: seq<Byte>, offset: nat, read: seq<Byte> -> Option<Grid>): seq<PageData>
    decreases |data| - offset
  {
    if offset + Packets.PacketSize > |data| then []
    else match read(Chunk(data, offset))
      case None => []
      case Some(g) => [PageData(PageNumberOf(g), FirstSubPage, g)] + ChunkPages(data, offset + TtxChunk, read)
  }

  /** `loadTTXPages` as a value. */
  function TtxPages(data: seq<Byte>): seq<PageData>
  {
    ChunkPages(data, 0, TtxFile.ParseSpec)
  }

  /** Page k is the reader's page of chunk k. */
  lemma {:induction false} ChunkPagesAccepted(data: seq<Byte>, offset: nat, read: seq<Byte> -> Option<Grid>, k: nat)
    requires k < |ChunkPages(data, offset, read)|
    ensures offset + 1050 * k + Packets.PacketSize <= |data|
    ensures read(Chunk(data, offset + 1050 * k)) == Some(ChunkPages(data, offset, read)[k].data)
    decreases k
  {
    if k > 0 {
      ChunkPagesAccepted(data, offset + TtxChunk, read, k - 1);
    }
  }

  /** The chunk after the last page is rejected, or shorter than a
      packet. */
  lemma {:induction false} ChunkPagesStop(data: seq<Byte>, offset: nat, read: seq<Byte> -> Option<Grid>)
    ensures var n := |ChunkPages(data, offset, read)|;
            offset + 1050 * n + Packets.PacketSize <= |data| ==> read(Chunk(data, offset + 1050 * n)).None?
    decreases |data| - offset
  {
    if offset + Packets.PacketSize <= |data| && read(Chunk(data, offset)).Some? {
      ChunkPagesStop(data, offset + TtxChunk, read);
    }
  }

  /** `loadTTXPages` reads chunk after chunk: page k is the TTX reader's
      page of the bytes from 1050 k on, and the reading stops at the first
      chunk the reader rejects or at the last whole packet. */
  lemma TtxPagesChunks(data: seq<Byte>, k: nat)
    ensures var ps := TtxPages(data);
            (k < |ps| ==> 1050 * k + Packets.PacketSize <= |data| &&
                          TtxFile.ParseSpec(Chunk(data, 1050 * k)) == Some(ps[k].data)) &&
            (k == |ps| && 1050 * k + Packets.PacketSize <= |data| ==>
                          TtxFile.ParseSpec(Chunk(data, 1050 * k)).None?)
  {
    ChunkPagesFromStart(data, TtxFile.ParseSpec, k);
  }

  /** ChunkPagesAccepted and ChunkPagesStop for the chunks read from the
      start of the data. */
  lemma ChunkPagesFromStart(data: seq<Byte>, read: seq<Byte> -> Option<Grid>, k: nat)
    ensures var ps := ChunkPages(data, 0, read);
            (k < |ps| ==> 1050 * k + Packets.PacketSize <= |data| &&
                          read(Chunk(data, 1050 * k)) == Some(ps[k].data)) &&
            (k == |ps| && 1050 * k + Packets.PacketSize <= |data| ==>
                          read(Chunk(data, 1050 * k)).None?)
  {
    var ps := ChunkPages(data, 0, read);
    if k < |ps| {
      ChunkPagesAccepted(data, 0, read, k);
    } else if k == |ps| {
      ChunkPagesStop(data, 0, read);
    }
  }

  lemma ChunkPagesStep(data: seq<Byte>, offset: nat, read: seq<Byte> -> Option<Grid>)
    requires offset + Packets.PacketSize <= |data|
    ensures read(Chunk(data, offset)).None? ==> ChunkPages(data, offset, read) == []
    ensures read(Chunk(data, offset)).Some? ==>
              var g := read(Chunk(data, offset)).value;
              ChunkPages(data, offset, read) == [PageData(PageNumberOf(g), FirstSubPage, g)] + ChunkPages(data, offset + TtxChunk, read)
  {
  }

  /** The body of `loadTTXPages`' loop: the page of the chunk at `offset`,
      numbered from its header, when the TTX reader accepts the chunk. */
  method ReadTtxChunk(data: seq<Byte>, offset: nat) returns (page: Option<PageData>)
    requires offset + Packets.PacketSize <= |data|
    ensures page.None? <==> ChunkPages(data, offset, TtxFile.ParseSpec) == []
    ensures page.Some? ==> ChunkPages(data, offset, TtxFile.ParseSpec) ==
                           [page.value] + ChunkPages(data, offset + TtxChunk, TtxFile.ParseSpec)
  {
    ChunkPagesStep(data, offset, TtxFile.ParseSpec);
    var pageData := TtxFile.Parse(data[offset..Min(offset + TtxChunk, |data|)]);
    if pageData.None? {
      return None;
    }
    var pageNum := ExtractPageNumber(pageData.value);
    page := Some(PageData(pageNum, FirstSubPage, pageData.value));
  }

  /** The loop of `loadTTXPages`: chunk after chunk while a whole packet is
      left, stopping at the first chunk the TTX reader rejects. */
  method ReadTtxPages(data: seq<Byte>) returns (pages: seq<PageData>)
    ensures pages == TtxPages(data)
  {
    pages := [];
    var offset := 0;
    while offset + Packets.PacketSize <= |data|
      invariant pages + ChunkPages(data, offset, TtxFile.ParseSpec) == TtxPages(data)
      decreases |data| - offset
    {
      var page := ReadTtxChunk(data, offset);
      if page.None? {
        break;
      }
      ConcatAssoc(pages, [page.value], ChunkPages(data, offset + TtxChunk, TtxFile.ParseSpec));
      pages := pages + [page.value];
      offset := offset + TtxChunk;
    }
  }

  // ---------------------------------------------------------------------
  // Formats and file extensions

  const Dot := 0x2E

  /** Kotlin `lowercase()` on the ASCII capitals. */
  function LowerAscii(c: int): int
  {
    if 0x41 <= c <= 0x5A then c + 0x20 else c
  }

  function Lowercase(s: Text): (t: Text)
    ensures |t| == |s|
  {
    seq(|s|, i requires 0 <= i < |s| => LowerAscii(s[i]))
  }

  /** Kotlin `lastIndexOf(ch)`: the last position holding ch, or -1. */
  function LastIndexOf(s: Text, ch: int): (k: int)
    ensures k == -1 || (0 <= k < |s| && s[k] == ch)
    ensures forall i :: k < i < |s| ==> s[i] != ch
  {
    if s == [] then -1
    else if s[|s| - 1] == ch then |s| - 1
    else LastIndexOf(s[..|s| - 1], ch)
  }

  /** `filename.substringAfterLast('.', "").lowercase()`. */
  function ExtensionOf(filename: Text): Text
  {
    var k := LastIndexOf(filename, Dot);
    if k == -1 then [] else Lowercase(filename[k + 1..])
  }

  const ExtTti: Text := [0x74, 0x74, 0x69]
  const ExtTxt: Text := [0x74, 0x78, 0x74]
  const ExtEp1: Text := [0x65, 0x70, 0x31]
  const ExtT42: Text := [0x74, 0x34, 0x32]
  const ExtTtx: Text := [0x74, 0x74, 0x78]
  const ExtBin: Text := [0x62, 0x69, 0x6E]

  /** The format `loadFile` reads a file with: "tti" and "txt" as TTI,
      "ep1", "t42" and "ttx" as themselves, anything else as BIN. */
  function FormatOf(ext: Text): FileFormat
  {
    if ext == ExtTti || ext == ExtTxt then TTI
    else if ext == ExtEp1 then EP1
    else if ext == ExtT42 then T42
    else if ext == ExtTtx then TTX
    else BIN
  }

  /** The extension a file of each format is saved with. */
  function GetExtension(f: FileFormat): Text
  {
    match f
    case TTI => ExtTti
    case EP1 => ExtEp1
    case T42 => ExtT42
    case TTX => ExtTtx
    case BIN => ExtBin
  }

  /** The last dot of name + "." + e, when e has none, is the one added. */
  lemma {:induction false} LastDotBefore(name: Text, e: Text)
    requires forall i :: 0 <= i < |e| ==> e[i] != Dot
    ensures LastIndexOf(name + [Dot] + e, Dot) == |name|
    decreases |e|
  {
    var s := name + [Dot] + e;
    if e == [] {
      assert s[|s| - 1] == Dot;
    } else {
      var init := e[..|e| - 1];
      assert s[|s| - 1] == e[|e| - 1] != Dot;
      assert s[..|s| - 1] == name + [Dot] + init;
      LastDotBefore(name, init);
    }
  }

  /** A file saved as `name.ext` with the extension of its format is read
      back with that format, whatever the name. */
  lemma SavedFileFormat(name: Text, f: FileFormat)
    ensures ExtensionOf(name + [Dot] + GetExtension(f)) == GetExtension(f)
    ensures FormatOf(ExtensionOf(name + [Dot] + GetExtension(f))) == f
  {
    var e := GetExtension(f);
    var s := name + [Dot] + e;
    assert forall i :: 0 <= i < |e| ==> e[i] != Dot;
    LastDotBefore(name, e);
    assert s[|name| + 1..] == e;
    assert Lowercase(e) == e;
  }

  /** The pages `loadFile` leaves for a file of format f: the TTI loader's
      pages of the decoded text; the one EP1 or BIN page, or the previous
      list untouched when the reader rejects the file; the T42 stream's
      pages; the TTX chunks' pages. */
  function LoadedPages(f: FileFormat, previous: seq<PageData>, data: seq<Byte>, text: Text): seq<PageData>
  {
    match f
    case TTI => LoadTtiSpec(text)
    case EP1 =>
      (match Ep1File.ParseSpec(data)
       case None => previous
       case Some(g) => [PageData(PageNumberOf(g), FirstSubPage, g)])
    case T42 => T42Pages(T42File.ParseMultiPageSpec(data))
    case TTX => TtxPages(data)
    case BIN =>
      (match BinFile.ParseSpec(data)
       case None => previous
       case Some(g) => [PageData(PageNumberOf(g), FirstSubPage, g)])
  }

  /** The target of a navigation: each part not given comes from the
      current page (`take(1)` of its number, `takeLast(2)`, its subpage). */
  function Take(s: Text, n: nat): Text
  {
    if |s| <= n then s else s[..n]
  }

  function TakeLast(s: Text, n: nat): Text
  {
    if |s| <= n then s else s[|s| - n..]
  }

  function OrElse(o: Option<Text>, d: Text): Text
  {
    if o.Some? then o.value else d
  }

  /** Kotlin `indexOfFirst`: the first page with the number and subpage, or
      -1. */
  function IndexOfPage(pages: seq<PageData>, pageNumber: Text, subPage: Text): (k: int)
    ensures k == -1 || (0 <= k < |pages| && pages[k].pageNumber == pageNumber && pages[k].subPage == subPage)
    ensures forall i :: 0 <= i < |pages| && (k == -1 || i < k) ==> !(pages[i].pageNumber == pageNumber && pages[i].subPage == subPage)
  {
    if pages == [] then -1
    else if pages[0].pageNumber == pageNumber && pages[0].subPage == subPage then 0
    else
      var k := IndexOfPage(pages[1..], pageNumber, subPage);
      if k == -1 then -1 else k + 1
  }

  // ---------------------------------------------------------------------
  // The list and its current position

  class PageList {
    var allPages: seq<PageData>
    var currentPageIndex: int
    var currentPageNumber: Text
    var currentSubPage: Text
    var currentFormat: FileFormat

    /** The index never goes below 0, and points at a page whenever there is
        one. */
    ghost predicate Valid()
      reads this
    {
      0 <= currentPageIndex && (allPages != [] ==> currentPageIndex < |allPages|)
    }

    constructor()
      ensures Valid()
      ensures allPages == [] && currentPageIndex == 0 && currentFormat == TTI
      ensures currentPageNumber == TtiFile.DefaultPageNumber && currentSubPage == FirstSubPage
    {
      allPages := [];
      currentPageIndex := 0;
      currentPageNumber := TtiFile.DefaultPageNumber;
      currentSubPage := FirstSubPage;
      currentFormat := TTI;
    }

    /** `displayCurrentPage`, for the list: the current page's number and
        subpage become the current ones when the index points at a page. */
    method DisplayCurrentPage()
      modifies this
      ensures allPages == old(allPages) && currentPageIndex == old(currentPageIndex) && currentFormat == old(currentFormat)
      ensures 0 <= currentPageIndex < |allPages| ==>
                currentPageNumber == allPages[currentPageIndex].pageNumber &&
                currentSubPage == allPages[currentPageIndex].subPage
      ensures !(0 <= currentPageIndex < |allPages|) ==>
                currentPageNumber == old(currentPageNumber) && currentSubPage == old(currentSubPage)
    {
      if currentPageIndex < 0 || currentPageIndex >= |allPages| {
        return;
      }
      var page := allPages[currentPageIndex];
      currentPageNumber := page.pageNumber;
      currentSubPage := page.subPage;
    }

    /** Appends the page being collected when some OL text was stored for
        it. */
    method FlushPage(current: RowTexts, pageNumber: Text, subPage: Text)
      requires UniqueRows(current)
      modifies this
      ensures allPages == Flushed(TtiLoad(old(allPages), current, pageNumber, subPage))
      ensures currentPageIndex == old(currentPageIndex) && currentPageNumber == old(currentPageNumber)
      ensures currentSubPage == old(currentSubPage) && currentFormat == old(currentFormat)
    {
      if current != [] {
        var pageData := ConvertTtiPageToArray(current);
        allPages := allPages + [PageData(pageNumber, subPage, GridOf(pageData))];
      }
    }

    /** One line of `loadTTIPages`. */
    method LoadTtiLine(line: Text, current: RowTexts, pageNumber: Text, subPage: Text)
      returns (current': RowTexts, pageNumber': Text, subPage': Text)
      requires UniqueRows(current)
      modifies this
      ensures TtiLoad(allPages, current', pageNumber', subPage') ==
              TtiLoadLine(TtiLoad(old(allPages), current, pageNumber, subPage), line)
      ensures currentPageIndex == old(currentPageIndex) && currentPageNumber == old(currentPageNumber)
      ensures currentSubPage == old(currentSubPage) && currentFormat == old(currentFormat)
    {
      current', pageNumber', subPage' := current, pageNumber, subPage;
      ghost var st := TtiLoad(allPages, current, pageNumber, subPage);
      var trimmed := TtiFile.Trim(line);
      TtiLoadLineCases(st, line);
      if TtiFile.StartsWith(trimmed, TtiFile.PnPrefix) {
        FlushPage(current, pageNumber, subPage);
        current' := [];
        var pn := TtiFile.Trim(trimmed[3..]);
        pageNumber' := if |pn| >= 3 then pn[..3] else pn;
        subPage' := if |pn| > 3 then pn[3..] else FirstSubPage;
      } else if TtiFile.StartsWith(trimmed, TtiFile.OlPrefix) {
        var fields := TtiFile.OlFields(trimmed);
        if fields.Some? {
          current' := Put(current, fields.value.0, fields.value.1);
        }
      }
    }

    /** `loadTTIPages`: the pages of a TTI text, one per PN line that is
        followed by OL lines, in file order. */
    method LoadTtiPages(content: Text)
      modifies this
      ensures allPages == LoadTtiSpec(content)
      ensures currentPageIndex == old(currentPageIndex) && currentPageNumber == old(currentPageNumber)
      ensures currentSubPage == old(currentSubPage) && currentFormat == old(currentFormat)
    {
      allPages := [];
      var lines := SplitLf(content);
      var current: RowTexts := [];
      var pageNumber := TtiFile.DefaultPageNumber;
      var subPage := FirstSubPage;
      for k := 0 to |lines|
        invariant TtiLoadLines(TtiLoadStart, lines[..k]) == TtiLoad(allPages, current, pageNumber, subPage)
        invariant currentPageIndex == old(currentPageIndex) && currentPageNumber == old(currentPageNumber)
        invariant currentSubPage == old(currentSubPage) && currentFormat == old(currentFormat)
      {
        TtiLoadLinesCount(lines[..k]);
        TtiLoadLinesSnoc(lines, k);
        current, pageNumber, subPage := LoadTtiLine(lines[k], current, pageNumber, subPage);
      }
      assert lines[..|lines|] == lines;
      TtiLoadLinesCount(lines);
      FlushPage(current, pageNumber, subPage);
    }

    method LoadT42Pages(data: seq<Byte>)
      modifies this
      ensures allPages == T42Pages(T42File.ParseMultiPageSpec(data))
      ensures currentPageIndex == old(currentPageIndex) && currentPageNumber == old(currentPageNumber)
      ensures currentSubPage == old(currentSubPage) && currentFormat == old(currentFormat)
    {
      allPages := [];
      var pages := T42File.ParseMultiPage(data);
      for index := 0 to |pages|
        invariant allPages == T42Pages(pages[..index])
        invariant currentPageIndex == old(currentPageIndex) && currentPageNumber == old(currentPageNumber)
        invariant currentSubPage == old(currentSubPage) && currentFormat == old(currentFormat)
      {
        var pageNum := ExtractPageNumber(pages[index]);
        allPages := allPages + [PageData(pageNum, TtiFile.Decimal(index + 1), pages[index])];
        T42PagesSnoc(pages, index);
      }
      assert pages[..|pages|] == pages;
    }

    /** `loadTTXPages`: one page per 1050-byte chunk, up to the first chunk
        the TTX reader rejects. */
    method LoadTtxPages(data: seq<Byte>)
      modifies this
      ensures allPages == TtxPages(data)
      ensures currentPageIndex == old(currentPageIndex) && currentPageNumber == old(currentPageNumber)
      ensures currentSubPage == old(currentSubPage) && currentFormat == old(currentFormat)
    {
      allPages := ReadTtxPages(data);
    }

    /** The reader `loadFile` picks for an extension, run over the file;
        the current page is left alone. */
    method ReadPages(ext: Text, data: seq<Byte>, text: Text)
      modifies this
      ensures currentFormat == FormatOf(ext)
      ensures allPages == LoadedPages(currentFormat, old(allPages), data, text)
      ensures currentPageIndex == old(currentPageIndex) && currentPageNumber == old(currentPageNumber)
      ensures currentSubPage == old(currentSubPage)
    {
      if ext == ExtTti || ext == ExtTxt {
        currentFormat := TTI;
        LoadTtiPages(text);
      } else if ext == ExtEp1 {
        currentFormat := EP1;
        var pageData := Ep1File.Parse(data);
        LoadSinglePage(pageData);
      } else if ext == ExtT42 {
        currentFormat := T42;
        LoadT42Pages(data);
      } else if ext == ExtTtx {
        currentFormat := TTX;
        LoadTtxPages(data);
      } else {
        currentFormat := BIN;
        var pageData := BinFile.Parse(data);
        LoadSinglePage(pageData);
      }
    }

    /** The EP1 and BIN branches of `loadFile`: the one page the reader
        returned, numbered from its header, replaces the list; a rejected
        file leaves the list as it was. */
    method LoadSinglePage(pageData: Option<Grid>)
      modifies this
      ensures pageData.None? ==> allPages == old(allPages)
      ensures pageData.Some? ==> allPages == [PageData(PageNumberOf(pageData.value), FirstSubPage, pageData.value)]
      ensures currentPageIndex == old(currentPageIndex) && currentPageNumber == old(currentPageNumber)
      ensures currentSubPage == old(currentSubPage) && currentFormat == old(currentFormat)
    {
      if pageData.Some? {
        allPages := [];
        var pageNum := ExtractPageNumber(pageData.value);
        allPages := allPages + [PageData(pageNum, FirstSubPage, pageData.value)];
      }
    }

    /** `loadFile` once the bytes are read: the format from the file name's
        extension, the pages from the matching reader (`text` is the bytes
        decoded as UTF-8, used for TTI), then the first page made current
        when the list is not empty. */
    method LoadFile(filename: Text, data: seq<Byte>, text: Text) returns (loaded: bool)
      requires Valid()
      modifies this
      ensures Valid()
      ensures currentFormat == FormatOf(ExtensionOf(filename))
      ensures allPages == LoadedPages(currentFormat, old(allPages), data, text)
      ensures loaded == (allPages != [])
      ensures loaded ==> currentPageIndex == 0 && currentPageNumber == allPages[0].pageNumber && currentSubPage == allPages[0].subPage
      ensures !loaded ==> currentPageIndex == old(currentPageIndex) && currentPageNumber == old(currentPageNumber) && currentSubPage == old(currentSubPage)
    {
      var ext := ExtensionOf(filename);
      ReadPages(ext, data, text);
      loaded := allPages != [];
      if loaded {
        currentPageIndex := 0;
        DisplayCurrentPage();
      }
    }

    /** The previous-page button: one page back when there is one. */
    method PrevPage()
      requires Valid()
      modifies this
      ensures Valid()
      ensures allPages == old(allPages)
      ensures currentPageIndex == if old(currentPageIndex) > 0 then old(currentPageIndex) - 1 else old(currentPageIndex)
      ensures currentFormat == old(currentFormat)
      ensures old(currentPageIndex) > 0 && currentPageIndex < |allPages| ==>
                currentPageNumber == allPages[currentPageIndex].pageNumber && currentSubPage == allPages[currentPageIndex].subPage
      ensures !(old(currentPageIndex) > 0 && currentPageIndex < |allPages|) ==>
                currentPageNumber == old(currentPageNumber) && currentSubPage == old(currentSubPage)
    {
      if currentPageIndex > 0 {
        currentPageIndex := currentPageIndex - 1;
        DisplayCurrentPage();
      }
    }

    /** The next-page button: one page on when there is one. */
    method NextPage()
      requires Valid()
      modifies this
      ensures Valid()
      ensures allPages == old(allPages)
      ensures currentPageIndex == if old(currentPageIndex) < |allPages| - 1 then old(currentPageIndex) + 1 else old(currentPageIndex)
      ensures currentFormat == old(currentFormat)
      ensures old(currentPageIndex) < |allPages| - 1 ==>
                currentPageNumber == allPages[currentPageIndex].pageNumber && currentSubPage == allPages[currentPageIndex].subPage
      ensures old(currentPageIndex) >= |allPages| - 1 ==>
                currentPageNumber == old(currentPageNumber) && currentSubPage == old(currentSubPage)
    {
      if currentPageIndex < |allPages| - 1 {
        currentPageIndex := currentPageIndex + 1;
        DisplayCurrentPage();
      }
    }

    /** `navigateToAddress`: the first page whose number is the magazine
        digit followed by the two page digits and whose subpage matches
        becomes current; with no such page nothing changes. */
    method NavigateToAddress(magazine: Option<Text>, page: Option<Text>, subpage: Option<Text>) returns (found: bool)
      requires Valid()
      modifies this
      ensures Valid()
      ensures allPages == old(allPages)
      ensures var target := OrElse(magazine, Take(old(currentPageNumber), 1)) + OrElse(page, TakeLast(old(currentPageNumber), 2));
              var sub := OrElse(subpage, old(currentSubPage));
              var k := IndexOfPage(allPages, target, sub);
              found == (k != -1) &&
              (found ==> currentPageIndex == k && currentPageNumber == target && currentSubPage == sub) &&
              (!found ==> currentPageIndex == old(currentPageIndex) && currentPageNumber == old(currentPageNumber) && currentSubPage == old(currentSubPage))
    {
      var targetMag := OrElse(magazine, Take(currentPageNumber, 1));
      var targetPage := OrElse(page, TakeLast(currentPageNumber, 2));
      var targetSubpage := OrElse(subpage, currentSubPage);
      var targetPageNumber := targetMag + targetPage;
      var index := IndexOfPage(allPages, targetPageNumber, targetSubpage);
      found := index != -1;
      if found {
        currentPageIndex := index;
        DisplayCurrentPage();
      }
    }

    /** The confirmed body of `deleteCurrentPage`: the current page leaves
        the list; an emptied list gets one blank page "100"/"1", and an index
        past the end moves to the last page. */
    method DeleteCurrentPage()
      requires Valid()
      modifies this
      ensures Valid()
      ensures currentFormat == old(currentFormat)
      ensures old(allPages) == [] ==>
                allPages == old(allPages) && currentPageIndex == old(currentPageIndex) &&
                currentPageNumber == old(currentPageNumber) && currentSubPage == old(currentSubPage)
      ensures old(allPages) != [] ==>
                var i := old(currentPageIndex);
                var rest := old(allPages)[..i] + old(allPages)[i + 1..];
                (rest == [] ==> allPages == [PageData(TtiFile.DefaultPageNumber, FirstSubPage, Blank())] && currentPageIndex == 0) &&
                (rest != [] ==> allPages == rest && currentPageIndex == Min(i, |rest| - 1))
      ensures old(allPages) != [] ==>
                currentPageIndex < |allPages| &&
                currentPageNumber == allPages[currentPageIndex].pageNumber && currentSubPage == allPages[currentPageIndex].subPage
    {
      if allPages == [] {
        return;
      }
      allPages := allPages[..currentPageIndex] + allPages[currentPageIndex + 1..];
      if allPages == [] {
        allPages := allPages + [PageData(TtiFile.DefaultPageNumber, FirstSubPage, Blank())];
        currentPageIndex := 0;
      } else if currentPageIndex >= |allPages| {
        currentPageIndex := |allPages| - 1;
      }
      DisplayCurrentPage();
    }
  }
}
