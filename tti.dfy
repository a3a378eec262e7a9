/** The MRG Systems TTI codec (`TTIParser`): line-oriented text with a PN
    (page number), DE (description) and CS (character set) line and one
    OL line per row, control codes written as ESC then the code plus 0x40. */
module Tti {
  import opened Pages

  /** Text as Kotlin holds it: a sequence of UTF-16 code units. */
  type Text = seq<int>

  const Esc := 0x1B
  const Lf := 0x0A
  const Cr := 0x0D
  const Comma := 0x2C

  /** "PN,", "DE,", "CS," and "OL,". */
  const PnPrefix: Text := [0x50, 0x4E, 0x2C]
  const DePrefix: Text := [0x44, 0x45, 0x2C]
  const CsPrefix: Text := [0x43, 0x53, 0x2C]
  const OlPrefix: Text := [0x4F, 0x4C, 0x2C]

  /** The defaults "100" and "English". */
  const DefaultPageNumber: Text := [0x31, 0x30, 0x30]
  const DefaultCharset: Text := [0x45, 0x6E, 0x67, 0x6C, 0x69, 0x73, 0x68]

  // ---------------------------------------------------------------------
  // The Kotlin string operations the codec uses

  /** Kotlin `Char.isWhitespace`: the JVM's whitespace characters together
      with the Unicode space, line and paragraph separators. */
  predicate IsWhitespace(c: int)
  {
    0x09 <= c <= 0x0D || 0x1C <= c <= 0x20 || c == 0xA0 || c == 0x1680 ||
    0x2000 <= c <= 0x200A || c == 0x2028 || c == 0x2029 || c == 0x202F ||
    c == 0x205F || c == 0x3000
  }

  /** The text without its leading whitespace. */
  function TrimStart(s: Text): (t: Text)
    ensures |t| <= |s| && t == s[|s| - |t|..]
    ensures forall i :: 0 <= i < |s| - |t| ==> IsWhitespace(s[i])
    ensures t == [] || !IsWhitespace(t[0])
    decreases |s|
  {
    if s != [] && IsWhitespace(s[0]) then TrimStart(s[1..]) else s
  }

  /** The text without its trailing whitespace. */
  function TrimEnd(s: Text): (t: Text)
    ensures |t| <= |s| && t == s[..|t|]
    ensures forall i :: |t| <= i < |s| ==> IsWhitespace(s[i])
    ensures t == [] || !IsWhitespace(t[|t| - 1])
    decreases |s|
  {
    if s != [] && IsWhitespace(s[|s| - 1]) then TrimEnd(s[..|s| - 1]) else s
  }

  /** Kotlin `trim()`: whitespace removed at both ends. */
  function Trim(s: Text): Text
  {
    TrimStart(TrimEnd(s))
  }

  predicate StartsWith(s: Text, prefix: Text)
  {
    |prefix| <= |s| && s[..|prefix|] == prefix
  }

  /** Kotlin `indexOf(ch, from)`: the first position at or after `from`
      holding ch, or -1. */
  function IndexOf(s: Text, ch: int, from: nat): (k: int)
    requires from <= |s|
    ensures k == -1 || (from <= k < |s| && s[k] == ch)
    ensures forall i :: from <= i < |s| && (k == -1 || i < k) ==> s[i] != ch
    decreases |s| - from
  {
    if from == |s| then -1 else if s[from] == ch then from else IndexOf(s, ch, from + 1)
  }

  predicate IsDigit(c: int)
  {
    0x30 <= c <= 0x39
  }

  predicate AllDigits(s: Text)
  {
    forall i :: 0 <= i < |s| ==> IsDigit(s[i])
  }

  /** The value of a run of decimal digits. */
  function DigitsValue(s: Text): nat
    requires AllDigits(s)
  {
    if s == [] then 0 else DigitsValue(s[..|s| - 1]) * 10 + (s[|s| - 1] - 0x30)
  }

  const MinInt := -0x8000_0000
  const MaxInt := 0x7FFF_FFFF

  /** Kotlin `toIntOrNull()` restricted to ASCII digits: an optional sign
      and at least one digit 0-9 whose value fits in 32 bits, else nothing.
      Other Unicode decimal digits, which `toIntOrNull` also reads, are not
      modelled. */
  function ParseInt(s: Text): (r: Option<int>)
    ensures r.Some? ==> MinInt <= r.value <= MaxInt
  {
    if s == [] then None
    else
      var negative := s[0] == 0x2D;
      var digits := if negative || s[0] == 0x2B then s[1..] else s;
      if digits == [] || !AllDigits(digits) then None
      else
        var v: int := if negative then 0 - DigitsValue(digits) else DigitsValue(digits);
        if MinInt <= v <= MaxInt then Some(v) else None
  }

  /** Kotlin `Int.toString()` for a non-negative number. */
  function Decimal(n: nat): (t: Text)
    ensures |t| >= 1 && AllDigits(t)
    decreases n
  {
    if n < 10 then [0x30 + n] else Decimal(n / 10) + [0x30 + n % 10]
  }

  lemma {:induction false} DecimalValue(n: nat)
    ensures DigitsValue(Decimal(n)) == n
    decreases n
  {
    if n >= 10 {
      DecimalValue(n / 10);
      var t := Decimal(n);
      assert t[..|t| - 1] == Decimal(n / 10);
    }
  }

  /** Reading back a written row number gives the number. */
  lemma ParseDecimal(n: nat)
    requires n <= MaxInt
    ensures ParseInt(Decimal(n)) == Some(n)
  {
    DecimalValue(n);
  }

  predicate IsBreak(c: int)
  {
    c == Lf || c == Cr
  }

  predicate NoBreaks(s: Text)
  {
    forall i :: 0 <= i < |s| ==> !IsBreak(s[i])
  }

  /** The length of the first line: the position of the first LF or CR. */
  function LineLength(s: Text): (k: nat)
    ensures k <= |s| && NoBreaks(s[..k])
    ensures k < |s| ==> IsBreak(s[k])
  {
    if s == [] || IsBreak(s[0]) then 0 else 1 + LineLength(s[1..])
  }

  /** `BufferedReader.readLines`: a line ends at LF, CR or CR LF; a last
      line without a terminator counts, an empty tail does not. */
  function ReadLines(s: Text): (ls: seq<Text>)
    ensures forall j :: 0 <= j < |ls| ==> NoBreaks(ls[j])
    decreases |s|
  {
    if s == [] then []
    else
      var k := LineLength(s);
      var next := if k == |s| then k else if s[k] == Cr && k + 1 < |s| && s[k + 1] == Lf then k + 2 else k + 1;
      [s[..k]] + ReadLines(s[next..])
  }

  /** Lines each followed by LF, as `serialize` writes them. */
  function Join(ls: seq<Text>): Text
  {
    if ls == [] then [] else ls[0] + [Lf] + Join(ls[1..])
  }

  lemma {:induction false} JoinSnoc(ls: seq<Text>, l: Text)
    ensures Join(ls + [l]) == Join(ls) + l + [Lf]
  {
    if ls != [] {
      assert (ls + [l])[1..] == ls[1..] + [l];
      JoinSnoc(ls[1..], l);
    }
  }

  /** Reading the lines of joined text gives the lines back when none holds
      a line break. */
  lemma {:induction false} ReadLinesJoin(ls: seq<Text>)
    requires forall j :: 0 <= j < |ls| ==> NoBreaks(ls[j])
    ensures ReadLines(Join(ls)) == ls
  {
    if ls != [] {
      var s := Join(ls);
      var l := ls[0];
      LineLengthOf(l, Join(ls[1..]));
      assert s[..|l|] == l;
      assert s[|l| + 1..] == Join(ls[1..]);
      ReadLinesJoin(ls[1..]);
    }
  }

  lemma {:induction false} LineLengthOf(l: Text, rest: Text)
    requires NoBreaks(l)
    ensures LineLength(l + [Lf] + rest) == |l|
    decreases |l|
  {
    if l != [] {
      assert (l + [Lf] + rest)[1..] == l[1..] + [Lf] + rest;
      LineLengthOf(l[1..], rest);
    }
  }

  // ---------------------------------------------------------------------
  // Parsing

  /** The cells an OL line's text writes, left to right, into at most
      `room` columns: ESC with a following unit u gives (u - 0x40) & 0x7F
      and consumes both; any other unit u, a final lone ESC included, gives
      u & 0x7F. */
  function DecodeCells(content: Text, room: nat): (cells: seq<int>)
    ensures |cells| <= room
    decreases |content|
  {
    if content == [] || room == 0 then []
    else if content[0] == Esc && 1 < |content| then [Mask7(content[1] - 0x40)] + DecodeCells(content[2..], room - 1)
    else [Mask7(content[0])] + DecodeCells(content[1..], room - 1)
  }

  /** Every decoded cell is a 7-bit code. */
  lemma {:induction false} DecodeCellsSevenBit(content: Text, room: nat)
    ensures forall k :: 0 <= k < |DecodeCells(content, room)| ==> 0 <= DecodeCells(content, room)[k] < 128
    decreases |content|
  {
    if content == [] || room == 0 {
    } else if content[0] == Esc && 1 < |content| {
      DecodeCellsSevenBit(content[2..], room - 1);
    } else {
      DecodeCellsSevenBit(content[1..], room - 1);
    }
  }

  /** Cells padded with spaces to a full row. */
  function Filled(cells: seq<int>): (row: seq<int>)
    requires |cells| <= Cols
    ensures |row| == Cols && row[..|cells|] == cells
    ensures forall c :: |cells| <= c < Cols ==> row[c] == Space
  {
    cells + seq(Cols - |cells|, _ => Space)
  }

  /** The row an OL line's text gives. */
  function RowText(content: Text): (row: seq<int>)
    ensures |row| == Cols
  {
    Filled(DecodeCells(content, Cols))
  }

  /** For a trimmed line starting "OL,": the row number between the first
      and the second comma, when it reads as an integer, and the text after
      the second comma. */
  function OlFields(t: Text): Option<(int, Text)>
    requires StartsWith(t, OlPrefix)
  {
    var second := IndexOf(t, Comma, 3);
    if second == -1 then None
    else match ParseInt(Trim(t[3..second]))
      case None => None
      case Some(row) => Some((row, if second + 1 < |t| then t[second + 1..] else []))
  }

  /** What one input line means to `parse`. */
  datatype LineKind =
    | Number(value: Text)
    | Description(value: Text)
    | CharsetName(value: Text)
    | Row(row: int, content: Text)
    | Ignored

  /** A line, trimmed, is a PN, DE or CS line with its trimmed value, an OL
      line for a row in 0..24 with its text, or ignored (any other line, and
      an OL line without a second comma or with a row that is not an
      integer in 0..24). */
  function Classify(line: Text): (k: LineKind)
    ensures k.Row? ==> 0 <= k.row < Rows
  {
    ClassifyTrimmed(Trim(line))
  }

  function ClassifyTrimmed(t: Text): (k: LineKind)
    ensures k.Row? ==> 0 <= k.row < Rows
  {
    if StartsWith(t, PnPrefix) then Number(Trim(t[3..]))
    else if StartsWith(t, DePrefix) then Description(Trim(t[3..]))
    else if StartsWith(t, CsPrefix) then CharsetName(Trim(t[3..]))
    else if StartsWith(t, OlPrefix) then
      match OlFields(t)
      case None => Ignored
      case Some((row, content)) => if 0 <= row < Rows then Row(row, content) else Ignored
    else Ignored
  }

  /** A parsed TTI page. */
  datatype TtiPage = TtiPage(pageNumber: Text, description: Text, charset: Text, data: Grid)

  /** The variables `parse` updates line by line. */
  datatype ParseState = ParseState(pageNumber: Text, description: Text, charset: Text, found: bool, page: Grid)

  const Start := ParseState(DefaultPageNumber, [], DefaultCharset, false, Blank())

  function ParseLine(st: ParseState, line: Text): ParseState
  {
    match Classify(line)
    case Number(v) => st.(pageNumber := v)
    case Description(v) => st.(description := v)
    case CharsetName(v) => st.(charset := v)
    case Row(row, content) => st.(found := true, page := st.page[row := RowText(content)])
    case Ignored => st
  }

  function ParseLines(st: ParseState, lines: seq<Text>): ParseState
  {
    if lines == [] then st else ParseLine(ParseLines(st, lines[..|lines| - 1]), lines[|lines| - 1])
  }

  /** ParseLine by the prefix of the trimmed line. */
  lemma ParseLineCases(st: ParseState, line: Text)
    ensures var t := Trim(line);
            ParseLine(st, line) ==
              if StartsWith(t, PnPrefix) then st.(pageNumber := Trim(t[3..]))
              else if StartsWith(t, DePrefix) then st.(description := Trim(t[3..]))
              else if StartsWith(t, CsPrefix) then st.(charset := Trim(t[3..]))
              else if StartsWith(t, OlPrefix) then
                (var k := OlFields(t);
                 if k.Some? && 0 <= k.value.0 < Rows then st.(found := true, page := st.page[k.value.0 := RowText(k.value.1)])
                 else st)
              else st
  {
  }

  /** `parse` as a value: nothing unless some line is an OL line for a row
      in 0..24. */
  function ParseSpec(content: Text): Option<TtiPage>
  {
    var st := ParseLines(Start, ReadLines(content));
    if st.found then Some(TtiPage(st.pageNumber, st.description, st.charset, st.page)) else None
  }

  /** The first cell decoded from position i, and the decoding from where
      the next cell starts. */
  lemma DecodeStep(content: Text, i: int, room: nat)
    requires 0 <= i < |content| && room > 0
    ensures var esc := content[i] == Esc && i + 1 < |content|;
            DecodeCells(content[i..], room) ==
              [Mask7(if esc then content[i + 1] - 0x40 else content[i])] +
              DecodeCells(content[if esc then i + 2 else i + 1..], room - 1)
  {
    if content[i] == Esc && i + 1 < |content| {
      assert content[i..][2..] == content[i + 2..];
    } else {
      assert content[i..][1..] == content[i + 1..];
    }
  }

  /** One round of the cell loop on the decoded cells: the cell written
      at `col` is the next decoded one, and decoding goes on from the unit
      after those consumed. */
  lemma DecodeAdvance(content: Text, i: int, col: int, cells: seq<int>)
    requires 0 <= i < |content| && 0 <= col < Cols && col <= |cells|
    requires DecodeCells(content[i..], Cols - col) == cells[col..]
    ensures var esc := content[i] == Esc && i + 1 < |content|;
            var next := if esc then i + 2 else i + 1;
            col < |cells| && next <= |content| &&
            cells[col] == Mask7(if esc then content[i + 1] - 0x40 else content[i]) &&
            DecodeCells(content[next..], Cols - col - 1) == cells[col + 1..]
  {
    DecodeStep(content, i, Cols - col);
    var rest := cells[col..];
    assert cells[col] == rest[0] && cells[col + 1..] == rest[1..];
  }

  /** The cell loop shared by `parse` and the page list's TTI loader: decode
      the text into row `row` from column 0, at most 40 cells; returns the
      next free column. */
  method DecodeInto(pageData: array2<int>, row: int, content: Text) returns (col: int)
    requires pageData.Length0 == Rows && pageData.Length1 == Cols && 0 <= row < Rows
    modifies pageData
    ensures col == |DecodeCells(content, Cols)|
    ensures forall c :: 0 <= c < col ==> pageData[row, c] == DecodeCells(content, Cols)[c]
    ensures forall c :: col <= c < Cols ==> pageData[row, c] == old(pageData[row, c])
    ensures forall r, c :: 0 <= r < Rows && 0 <= c < Cols && r != row ==> pageData[r, c] == old(pageData[r, c])
  {
    ghost var cells := DecodeCells(content, Cols);
    col := 0;
    var i := 0;
    while i < |content| && col < Cols
      invariant 0 <= i <= |content| && 0 <= col <= |cells|
      invariant DecodeCells(content[i..], Cols - col) == cells[col..]
      invariant forall r, c :: 0 <= r < Rows && 0 <= c < Cols ==>
                  pageData[r, c] == if r == row && c < col then cells[c] else old(pageData[r, c])
      decreases |content| - i
    {
      DecodeAdvance(content, i, col, cells);
      var charCode := content[i];
      if charCode == Esc && i + 1 < |content| {
        i := i + 1;
        charCode := content[i] - 0x40;
      }
      pageData[row, col] := charCode % 128;
      col := col + 1;
      i := i + 1;
    }
  }

  /** An OL line's effect on the buffer in `parse`: the decoded cells, then
      spaces to the end of the row. */
  method WriteRow(pageData: array2<int>, row: int, content: Text)
    requires pageData.Length0 == Rows && pageData.Length1 == Cols && 0 <= row < Rows
    modifies pageData
    ensures GridOf(pageData) == old(GridOf(pageData))[row := RowText(content)]
  {
    var col := DecodeInto(pageData, row, content);
    while col < Cols
      invariant |DecodeCells(content, Cols)| <= col <= Cols
      invariant forall c :: 0 <= c < col ==> pageData[row, c] == RowText(content)[c]
      invariant forall r, c :: 0 <= r < Rows && 0 <= c < Cols && r != row ==> pageData[r, c] == old(pageData[r, c])
    {
      pageData[row, col] := Space;
      col := col + 1;
    }
    GridExt(GridOf(pageData), old(GridOf(pageData))[row := RowText(content)]);
  }

  /** The OL branch of the line loop of `parse`: an OL line for a row in
      0..24 sets the found flag and rewrites that row; any other OL line
      changes nothing. */
  method ReadRowLine(pageData: array2<int>, trimmed: Text, foundData: bool) returns (foundData': bool)
    requires pageData.Length0 == Rows && pageData.Length1 == Cols
    requires StartsWith(trimmed, OlPrefix)
    modifies pageData
    ensures var k := OlFields(trimmed);
            if k.Some? && 0 <= k.value.0 < Rows
            then foundData' && GridOf(pageData) == old(GridOf(pageData))[k.value.0 := RowText(k.value.1)]
            else foundData' == foundData && GridOf(pageData) == old(GridOf(pageData))
  {
    ghost var k := OlFields(trimmed);
    foundData' := foundData;
    var secondComma := IndexOf(trimmed, Comma, 3);
    if secondComma != -1 {
      var row := ParseInt(Trim(trimmed[3..secondComma]));
      if row.Some? && 0 <= row.value < Rows {
        foundData' := true;
        var text := if secondComma + 1 < |trimmed| then trimmed[secondComma + 1..] else [];
        assert k == Some((row.value, text));
        WriteRow(pageData, row.value, text);
      } else {
        assert !(k.Some? && 0 <= k.value.0 < Rows);
      }
    } else {
      assert k.None?;
    }
  }

  /** One pass of the line loop of `parse`: the variables and the buffer
      after the line. */
  method ReadLine(pageData: array2<int>, line: Text, pageNumber: Text, description: Text, charset: Text, foundData: bool)
    returns (pageNumber': Text, description': Text, charset': Text, foundData': bool)
    requires pageData.Length0 == Rows && pageData.Length1 == Cols
    modifies pageData
    ensures ParseState(pageNumber', description', charset', foundData', GridOf(pageData)) ==
            ParseLine(ParseState(pageNumber, description, charset, foundData, old(GridOf(pageData))), line)
  {
    ParseLineCases(ParseState(pageNumber, description, charset, foundData, GridOf(pageData)), line);
    pageNumber', description', charset', foundData' := pageNumber, description, charset, foundData;
    var trimmed := Trim(line);
    if StartsWith(trimmed, PnPrefix) {
      pageNumber' := Trim(trimmed[3..]);
    } else if StartsWith(trimmed, DePrefix) {
      description' := Trim(trimmed[3..]);
    } else if StartsWith(trimmed, CsPrefix) {
      charset' := Trim(trimmed[3..]);
    } else if StartsWith(trimmed, OlPrefix) {
      foundData' := ReadRowLine(pageData, trimmed, foundData);
    }
  }

  method Parse(content: Text) returns (result: Option<TtiPage>)
    ensures result == ParseSpec(content)
  {
    var lines := ReadLines(content);
    var pageData := NewPage(Blank());
    var pageNumber, description, charset := DefaultPageNumber, [], DefaultCharset;
    var foundData := false;
    for k := 0 to |lines|
      invariant ParseLines(Start, lines[..k]) == ParseState(pageNumber, description, charset, foundData, GridOf(pageData))
    {
      assert lines[..k + 1][..k] == lines[..k];
      pageNumber, description, charset, foundData := ReadLine(pageData, lines[k], pageNumber, description, charset, foundData);
    }
    assert lines[..|lines|] == lines;
    if foundData {
      return Some(TtiPage(pageNumber, description, charset, GridOf(pageData)));
    }
    return None;
  }

  // ---------------------------------------------------------------------
  // What the lines decide

  lemma ParseLinesSnoc(st: ParseState, ls: seq<Text>, l: Text)
    ensures ParseLines(st, ls + [l]) == ParseLine(ParseLines(st, ls), l)
  {
    assert (ls + [l])[..|ls|] == ls;
  }

  lemma {:induction false} ParseAppend(st: ParseState, a: seq<Text>, b: seq<Text>)
    ensures ParseLines(st, a + b) == ParseLines(ParseLines(st, a), b)
    decreases |b|
  {
    if b == [] {
      assert a + b == a;
    } else {
      assert (a + b)[..|a + b| - 1] == a + b[..|b| - 1];
      ParseAppend(st, a, b[..|b| - 1]);
    }
  }

  /** One line of another kind leaves a field alone. */
  lemma ParseLineKeeps(st: ParseState, line: Text, r: int)
    requires 0 <= r < Rows
    ensures var k := Classify(line); var st' := ParseLine(st, line);
            (!k.Number? ==> st'.pageNumber == st.pageNumber) &&
            (!k.Description? ==> st'.description == st.description) &&
            (!k.CharsetName? ==> st'.charset == st.charset) &&
            (!(k.Row? && k.row == r) ==> st'.page[r] == st.page[r])
  {
  }

  /** Lines of other kinds leave a field alone, and lines that are not OL
      lines for row r leave row r alone. */
  lemma {:induction false} OtherLinesKeep(st: ParseState, b: seq<Text>, r: int)
    requires 0 <= r < Rows
    ensures (forall j :: 0 <= j < |b| ==> !Classify(b[j]).Number?) ==> ParseLines(st, b).pageNumber == st.pageNumber
    ensures (forall j :: 0 <= j < |b| ==> !Classify(b[j]).Description?) ==> ParseLines(st, b).description == st.description
    ensures (forall j :: 0 <= j < |b| ==> !Classify(b[j]).CharsetName?) ==> ParseLines(st, b).charset == st.charset
    ensures (forall j :: 0 <= j < |b| ==> !(Classify(b[j]).Row? && Classify(b[j]).row == r)) ==>
              ParseLines(st, b).page[r] == st.page[r]
    decreases |b|
  {
    if b != [] {
      var init := b[..|b| - 1];
      var last := b[|b| - 1];
      assert forall j :: 0 <= j < |init| ==> init[j] == b[j];
      OtherLinesKeep(st, init, r);
      var mid := ParseLines(st, init);
      assert ParseLines(st, b) == ParseLine(mid, last);
      ParseLineKeeps(mid, last, r);
    }
  }

  /** One line sets the field its kind names. */
  lemma ParseLineSets(st: ParseState, line: Text)
    ensures var k := Classify(line); var st' := ParseLine(st, line);
            (k.Number? ==> st'.pageNumber == k.value) &&
            (k.Description? ==> st'.description == k.value) &&
            (k.CharsetName? ==> st'.charset == k.value) &&
            (k.Row? ==> st'.found && st'.page[k.row] == RowText(k.content))
  {
  }

  /** The last line of a kind decides: a PN, DE or CS line sets its field
      unless a later line of the same kind follows, and an OL line for row
      r sets the whole row unless a later OL line for row r follows. */
  lemma LastLineWins(a: seq<Text>, l: Text, b: seq<Text>, r: int)
    requires 0 <= r < Rows
    ensures var st := ParseLines(Start, a + [l] + b);
            var k := Classify(l);
            (k.Number? && (forall j :: 0 <= j < |b| ==> !Classify(b[j]).Number?) ==> st.pageNumber == k.value) &&
            (k.Description? && (forall j :: 0 <= j < |b| ==> !Classify(b[j]).Description?) ==> st.description == k.value) &&
            (k.CharsetName? && (forall j :: 0 <= j < |b| ==> !Classify(b[j]).CharsetName?) ==> st.charset == k.value) &&
            (k.Row? && k.row == r && (forall j :: 0 <= j < |b| ==> !(Classify(b[j]).Row? && Classify(b[j]).row == r)) ==>
               st.page[r] == RowText(k.content))
  {
    ParseAppend(Start, a + [l], b);
    ParseLinesSnoc(Start, a, l);
    ParseLineSets(ParseLines(Start, a), l);
    OtherLinesKeep(ParseLines(Start, a + [l]), b, r);
  }

  /** A row that no OL line names stays blank. */
  lemma UnnamedRowBlank(lines: seq<Text>, r: int)
    requires 0 <= r < Rows
    requires forall j :: 0 <= j < |lines| ==> !(Classify(lines[j]).Row? && Classify(lines[j]).row == r)
    ensures forall c :: 0 <= c < Cols ==> ParseLines(Start, lines).page[r][c] == Space
  {
    OtherLinesKeep(Start, lines, r);
  }

  lemma ParseLineFound(st: ParseState, line: Text)
    ensures ParseLine(st, line).found == (st.found || Classify(line).Row?)
  {
  }

  predicate IsRowLine(line: Text)
  {
    Classify(line).Row?
  }

  /** Some line of `lines` satisfies p, checked from the last line back. */
  predicate AnyLine(lines: seq<Text>, p: Text -> bool)
  {
    lines != [] && (AnyLine(lines[..|lines| - 1], p) || p(lines[|lines| - 1]))
  }

  lemma {:induction false} AnyLineExists(lines: seq<Text>, p: Text -> bool)
    ensures AnyLine(lines, p) <==> exists j :: 0 <= j < |lines| && p(lines[j])
    decreases |lines|
  {
    if lines != [] {
      var init := lines[..|lines| - 1];
      AnyLineExists(init, p);
      if exists j :: 0 <= j < |lines| && p(lines[j]) {
        var j :| 0 <= j < |lines| && p(lines[j]);
        if j < |init| {
          assert init[j] == lines[j];
        }
      }
      if exists j :: 0 <= j < |init| && p(init[j]) {
        var j :| 0 <= j < |init| && p(init[j]);
        assert init[j] == lines[j];
      }
    }
  }

  predicate AnyRowLine(lines: seq<Text>)
  {
    AnyLine(lines, IsRowLine)
  }

  /** Some line must be an OL line for a row in 0..24, or there is no
      page. */
  lemma {:induction false} FoundIffRowLine(st: ParseState, lines: seq<Text>)
    ensures ParseLines(st, lines).found <==> st.found || AnyRowLine(lines)
    decreases |lines|
  {
    if lines != [] {
      var init := lines[..|lines| - 1];
      FoundIffRowLine(st, init);
      ParseLineFound(ParseLines(st, init), lines[|lines| - 1]);
      assert AnyRowLine(lines) == (AnyRowLine(init) || IsRowLine(lines[|lines| - 1]));
    }
  }

  lemma ParseSpecSome(content: Text)
    ensures var lines := ReadLines(content);
            ParseSpec(content).Some? <==> exists j :: 0 <= j < |lines| && Classify(lines[j]).Row?
  {
    var lines := ReadLines(content);
    FoundIffRowLine(Start, lines);
    AnyLineExists(lines, IsRowLine);
    assert forall j :: 0 <= j < |lines| ==> (IsRowLine(lines[j]) <==> Classify(lines[j]).Row?);
  }

  // ---------------------------------------------------------------------
  // Serializing

  /** Kotlin `Int.toChar()`: the low 16 bits. */
  function Char16(x: int): (u: int)
    ensures 0 <= u < 0x10000
    ensures 0 <= x < 0x10000 ==> u == x
  {
    x % 0x10000
  }

  /** One cell as `serialize` writes it: a code below 0x20 as ESC and the
      code plus 0x40, any other code as itself. */
  function EscapeCell(c: int): Text
  {
    if c < 0x20 then [Esc, Char16(c + 0x40)] else [Char16(c)]
  }

  function Escape(cells: seq<int>): Text
  {
    if cells == [] then [] else EscapeCell(cells[0]) + Escape(cells[1..])
  }

  lemma {:induction false} EscapeSnoc(cells: seq<int>, c: int)
    ensures Escape(cells + [c]) == Escape(cells) + EscapeCell(c)
  {
    if cells != [] {
      assert (cells + [c])[1..] == cells[1..] + [c];
      EscapeSnoc(cells[1..], c);
    }
  }

  /** The line for row `row`: "OL,", the row number, a comma and the
      escaped cells. */
  function OlLine(data: Grid, row: int): Text
    requires 0 <= row < Rows
  {
    OlPrefix + Decimal(row) + [Comma] + Escape(data[row])
  }

  /** The lines `serialize` writes: PN, DE and CS, then rows 0 to 24. */
  function SerialLines(page: TtiPage): (ls: seq<Text>)
    ensures |ls| == 3 + Rows
  {
    [PnPrefix + page.pageNumber, DePrefix + page.description, CsPrefix + page.charset] +
    seq(Rows, r requires 0 <= r < Rows => OlLine(page.data, r))
  }

  function SerializeSpec(page: TtiPage): Text
  {
    Join(SerialLines(page))
  }

  method Serialize(page: TtiPage) returns (text: Text)
    ensures text == SerializeSpec(page)
  {
    ghost var lines := SerialLines(page);
    text := PnPrefix + page.pageNumber + [Lf];
    text := text + DePrefix + page.description + [Lf];
    text := text + CsPrefix + page.charset + [Lf];
    JoinSnoc([], lines[0]);
    JoinSnoc(lines[..1], lines[1]);
    JoinSnoc(lines[..2], lines[2]);
    assert lines[..1] == [] + [lines[0]];
    assert lines[..2] == lines[..1] + [lines[1]];
    assert lines[..3] == lines[..2] + [lines[2]];
    for row := 0 to Rows
      invariant text == Join(lines[..3 + row])
    {
      text := AppendRow(text, page.data, row);
      JoinSnoc(lines[..3 + row], lines[3 + row]);
      assert lines[..3 + row + 1] == lines[..3 + row] + [lines[3 + row]];
    }
    assert lines[..3 + Rows] == lines;
  }

  /** One row of `serialize`: "OL,", the row number, a comma, the cells
      with codes below 0x20 escaped, and a line feed. */
  method AppendRow(text: Text, data: Grid, row: int) returns (text': Text)
    requires 0 <= row < Rows
    ensures text' == text + OlLine(data, row) + [Lf]
  {
    var cells := data[row];
    ghost var line := OlPrefix + Decimal(row) + [Comma];
    text' := text + OlPrefix + Decimal(row) + [Comma];
    assert text' == text + line;
    for col := 0 to Cols
      invariant text' == text + (line + Escape(cells[..col]))
    {
      var ch := cells[col];
      EscapeSnoc(cells[..col], ch);
      assert cells[..col + 1] == cells[..col] + [ch];
      text' := AppendCell(text', ch);
      ConcatAssoc(text, line + Escape(cells[..col]), EscapeCell(ch));
      ConcatAssoc(line, Escape(cells[..col]), EscapeCell(ch));
    }
    assert cells[..Cols] == cells;
    assert OlLine(data, row) == line + Escape(cells);
    text' := text' + [Lf];
  }

  /** One cell of `serialize`'s inner loop. */
  method AppendCell(text: Text, ch: int) returns (text': Text)
    ensures text' == text + EscapeCell(ch)
  {
    if ch < 0x20 {
      text' := text + [Esc];
      text' := text' + [Char16(ch + 0x40)];
    } else {
      text' := text + [Char16(ch)];
    }
  }

  // ---------------------------------------------------------------------
  // Serialize, then parse

  /** TrimEnd removes trailing whitespace only: text ending in a
      non-whitespace unit keeps all of that text. */
  lemma {:induction false} TrimEndAppend(p: Text, s: Text)
    requires p != [] && !IsWhitespace(p[|p| - 1])
    ensures TrimEnd(p + s) == p + TrimEnd(s)
    decreases |s|
  {
    if s == [] {
      assert p + s == p;
    } else if IsWhitespace(s[|s| - 1]) {
      assert (p + s)[..|p + s| - 1] == p + s[..|s| - 1];
      TrimEndAppend(p, s[..|s| - 1]);
    }
  }

  lemma TrimStartKeeps(s: Text)
    requires s != [] && !IsWhitespace(s[0])
    ensures TrimStart(s) == s
  {
  }

  lemma TrimEndTwice(s: Text)
    ensures TrimEnd(TrimEnd(s)) == TrimEnd(s)
  {
    var t := TrimEnd(s);
    assert t == [] || !IsWhitespace(t[|t| - 1]);
  }

  /** Text between two non-whitespace units trims to itself plus the
      trimmed tail, and trimming the tail again changes nothing. */
  lemma TrimPrefixed(p: Text, v: Text)
    requires p != [] && !IsWhitespace(p[0]) && !IsWhitespace(p[|p| - 1])
    ensures Trim(p + v) == p + TrimEnd(v)
    ensures Trim((p + TrimEnd(v))[|p|..]) == Trim(v)
  {
    var t := TrimEnd(v);
    TrimEndAppend(p, v);
    TrimStartKeeps(p + t);
    assert (p + t)[|p|..] == t;
    TrimEndTwice(v);
  }

  /** The row without its trailing spaces. */
  function StripSpaces(cells: seq<int>): (r: seq<int>)
    ensures |r| <= |cells| && r == cells[..|r|]
    ensures forall i :: |r| <= i < |cells| ==> cells[i] == Space
    ensures r == [] || r[|r| - 1] != Space
    decreases |cells|
  {
    if cells != [] && cells[|cells| - 1] == Space then StripSpaces(cells[..|cells| - 1]) else cells
  }

  ghost predicate SevenBitCells(cells: seq<int>)
  {
    forall i :: 0 <= i < |cells| ==> 0 <= cells[i] < 128
  }

  /** A seven-bit cell other than a space is escaped to units ending in
      a non-whitespace unit. */
  lemma EscapeCellEnd(c: int)
    requires 0 <= c < 128
    ensures c == Space ==> EscapeCell(c) == [Space]
    ensures c != Space ==> !IsWhitespace(EscapeCell(c)[|EscapeCell(c)| - 1])
  {
  }

  /** Trimming an escaped row drops exactly the escapes of its trailing
      spaces. */
  lemma {:induction false} TrimEndEscape(cells: seq<int>)
    requires SevenBitCells(cells)
    ensures TrimEnd(Escape(cells)) == Escape(StripSpaces(cells))
    decreases |cells|
  {
    if cells != [] {
      var init := cells[..|cells| - 1];
      var c := cells[|cells| - 1];
      assert cells == init + [c];
      EscapeSnoc(init, c);
      EscapeCellEnd(c);
      var e := Escape(cells);
      if c == Space {
        assert SevenBitCells(init);
        TrimEndEscape(init);
        assert e == Escape(init) + [Space];
        assert e[..|e| - 1] == Escape(init);
        assert TrimEnd(e) == TrimEnd(Escape(init));
        assert StripSpaces(cells) == StripSpaces(init);
      } else {
        assert e[|e| - 1] == EscapeCell(c)[|EscapeCell(c)| - 1];
        assert TrimEnd(e) == e;
        assert StripSpaces(cells) == cells;
      }
    }
  }

  /** Decoding undoes escaping for seven-bit cells that fit the room. */
  lemma {:induction false} DecodeEscape(cells: seq<int>, room: nat)
    requires SevenBitCells(cells) && |cells| <= room
    ensures DecodeCells(Escape(cells), room) == cells
    decreases |cells|
  {
    if cells != [] {
      var c := cells[0];
      var e := Escape(cells);
      DecodeEscape(cells[1..], room - 1);
      if c < 0x20 {
        assert e == [Esc, c + 0x40] + Escape(cells[1..]);
        assert e[2..] == Escape(cells[1..]);
      } else {
        assert e == [c] + Escape(cells[1..]);
        assert e[1..] == Escape(cells[1..]);
      }
    }
  }

  /** An escaped seven-bit row holds no line break. */
  lemma {:induction false} EscapeNoBreaks(cells: seq<int>)
    requires SevenBitCells(cells)
    ensures NoBreaks(Escape(cells))
    decreases |cells|
  {
    if cells != [] {
      EscapeNoBreaks(cells[1..]);
      var e := Escape(cells);
      var h := EscapeCell(cells[0]);
      assert e == h + Escape(cells[1..]);
      assert forall i :: |h| <= i < |e| ==> e[i] == Escape(cells[1..])[i - |h|];
    }
  }

  /** The text of a serialized row, trimmed, decodes to the row. */
  lemma RowTextEscape(row: seq<int>)
    requires |row| == Cols && SevenBitCells(row)
    ensures RowText(TrimEnd(Escape(row))) == row
  {
    var r := StripSpaces(row);
    TrimEndEscape(row);
    DecodeEscape(r, Cols);
    assert Filled(r) == row;
  }

  lemma ClassifyNumberLine(v: Text)
    ensures Classify(PnPrefix + v) == Number(Trim(v))
  {
    TrimPrefixed(PnPrefix, v);
    var t := PnPrefix + TrimEnd(v);
    assert t[..3] == PnPrefix;
    assert ClassifyTrimmed(t) == Number(Trim(t[3..]));
  }

  lemma ClassifyDescriptionLine(v: Text)
    ensures Classify(DePrefix + v) == Description(Trim(v))
  {
    TrimPrefixed(DePrefix, v);
    var t := DePrefix + TrimEnd(v);
    assert t[..3] == DePrefix;
    assert t[..3][0] != PnPrefix[0];
    assert !StartsWith(t, PnPrefix);
    assert ClassifyTrimmed(t) == Description(Trim(t[3..]));
  }

  lemma ClassifyCharsetLine(v: Text)
    ensures Classify(CsPrefix + v) == CharsetName(Trim(v))
  {
    TrimPrefixed(CsPrefix, v);
    var t := CsPrefix + TrimEnd(v);
    assert t[..3] == CsPrefix;
    assert t[..3][0] != PnPrefix[0] && t[..3][0] != DePrefix[0];
    assert !StartsWith(t, PnPrefix) && !StartsWith(t, DePrefix);
    assert ClassifyTrimmed(t) == CharsetName(Trim(t[3..]));
  }

  /** A number written by `Int.toString` reads back through `trim` and
      `toIntOrNull`. */
  lemma ParseDecimalRow(r: int)
    requires 0 <= r < Rows
    ensures ParseInt(Trim(Decimal(r))) == Some(r)
  {
    var d := Decimal(r);
    assert TrimEnd(d) == d;
    assert TrimStart(d) == d;
    DecimalValue(r);
  }

  /** In "OL," + digits + "," + text the first comma after the prefix is
      the one that ends the digits. */
  lemma CommaAfterDigits(d: Text, w: Text)
    requires AllDigits(d)
    ensures var t := OlPrefix + d + [Comma] + w;
            StartsWith(t, OlPrefix) && IndexOf(t, Comma, 3) == 3 + |d| && t[3..3 + |d|] == d && t[3 + |d| + 1..] == w
  {
    var t := OlPrefix + d + [Comma] + w;
    assert t[..3] == OlPrefix;
    assert t[3 + |d|] == Comma;
    assert forall i :: 3 <= i < 3 + |d| ==> t[i] == d[i - 3];
    assert t[3..3 + |d|] == d;
    assert t[3 + |d| + 1..] == w;
  }

  /** The fields of "OL," + digits + "," + text. */
  lemma OlFieldsDigits(d: Text, w: Text, r: int)
    requires AllDigits(d) && ParseInt(Trim(d)) == Some(r)
    ensures var t := OlPrefix + d + [Comma] + w;
            StartsWith(t, OlPrefix) && OlFields(t) == Some((r, w))
  {
    CommaAfterDigits(d, w);
    OlFieldsAt(OlPrefix + d + [Comma] + w, 3 + |d|, d, w, r);
  }

  lemma OlFieldsAt(t: Text, second: int, d: Text, w: Text, r: int)
    requires StartsWith(t, OlPrefix) && 3 <= second < |t| && IndexOf(t, Comma, 3) == second
    requires t[3..second] == d && t[second + 1..] == w && ParseInt(Trim(d)) == Some(r)
    ensures OlFields(t) == Some((r, w))
  {
    var rest := if second + 1 < |t| then t[second + 1..] else [];
    assert rest == w;
  }

  /** The fields of "OL," + row + "," + text. */
  lemma OlFieldsRow(r: int, w: Text)
    requires 0 <= r < Rows
    ensures var t := OlPrefix + Decimal(r) + [Comma] + w;
            StartsWith(t, OlPrefix) && OlFields(t) == Some((r, w))
  {
    ParseDecimalRow(r);
    OlFieldsDigits(Decimal(r), w, r);
  }

  lemma ClassifyTrimmedRow(t: Text, r: int, w: Text)
    requires StartsWith(t, OlPrefix) && OlFields(t) == Some((r, w)) && 0 <= r < Rows
    ensures ClassifyTrimmed(t) == Row(r, w)
  {
    assert t[..3][0] == OlPrefix[0];
    assert !StartsWith(t, PnPrefix) && !StartsWith(t, DePrefix) && !StartsWith(t, CsPrefix);
  }

  /** The OL line of a seven-bit row classifies as that row with its
      escaped text, trailing whitespace trimmed. */
  lemma ClassifyOlLine(data: Grid, r: int)
    requires SevenBit(data) && 0 <= r < Rows
    ensures Classify(OlLine(data, r)) == Row(r, TrimEnd(Escape(data[r])))
  {
    var p := OlPrefix + Decimal(r) + [Comma];
    var e := Escape(data[r]);
    assert OlLine(data, r) == p + e;
    TrimPrefixed(p, e);
    var w := TrimEnd(e);
    var t := p + w;
    OlFieldsRow(r, w);
    ClassifyTrimmedRow(t, r, w);
  }

  /** The page after the first k rows of `data` were read into a blank
      page. */
  function PartialGrid(data: Grid, k: int): (g: Grid)
  {
    seq(Rows, r requires 0 <= r < Rows => if r < k then data[r] else seq(Cols, _ => Space))
  }

  /** The first n lines are the first n - 1 and then line n - 1. */
  lemma ParsePrefixStep(st: ParseState, ls: seq<Text>, n: nat)
    requires 0 < n <= |ls|
    ensures ParseLines(st, ls[..n]) == ParseLine(ParseLines(st, ls[..n - 1]), ls[n - 1])
  {
    assert ls[..n][..n - 1] == ls[..n - 1];
  }

  /** The three header lines read into the start state. */
  lemma ParseSerialHeaders(page: TtiPage)
    ensures ParseLines(Start, SerialLines(page)[..3]) ==
            Start.(pageNumber := Trim(page.pageNumber), description := Trim(page.description), charset := Trim(page.charset))
  {
    var lines := SerialLines(page);
    assert lines[0] == PnPrefix + page.pageNumber;
    assert lines[1] == DePrefix + page.description;
    assert lines[2] == CsPrefix + page.charset;
    ParseHeaderLines(lines, page.pageNumber, page.description, page.charset);
  }

  /** Lines "PN,", "DE," and "CS," first set the three header fields. */
  lemma ParseHeaderLines(ls: seq<Text>, pn: Text, de: Text, cs: Text)
    requires |ls| >= 3 && ls[0] == PnPrefix + pn && ls[1] == DePrefix + de && ls[2] == CsPrefix + cs
    ensures ParseLines(Start, ls[..3]) == Start.(pageNumber := Trim(pn), description := Trim(de), charset := Trim(cs))
  {
    ClassifyNumberLine(pn);
    ClassifyDescriptionLine(de);
    ClassifyCharsetLine(cs);
    var s1 := Start.(pageNumber := Trim(pn));
    var s2 := s1.(description := Trim(de));
    assert ParseLine(Start, ls[0]) == s1;
    assert ParseLine(s1, ls[1]) == s2;
    assert ParseLine(s2, ls[2]) == s2.(charset := Trim(cs));
    assert ls[..0] == [];
    ParsePrefixStep(Start, ls, 1);
    ParsePrefixStep(Start, ls, 2);
    ParsePrefixStep(Start, ls, 3);
  }

  /** An OL line for row r with text c, appended, replaces row r. */
  lemma ParseRowLineSnoc(st: ParseState, ls: seq<Text>, l: Text, r: int, c: Text)
    requires Classify(l) == Row(r, c)
    ensures var prev := ParseLines(st, ls);
            ParseLines(st, ls + [l]) == prev.(found := true, page := prev.page[r := RowText(c)])
  {
    ParseLinesSnoc(st, ls, l);
  }

  /** The OL line `serialize` writes for a seven-bit row, read after any
      lines, sets that row to exactly the row written. */
  lemma ParseOlLineSnoc(ls: seq<Text>, data: Grid, r: int)
    requires SevenBit(data) && 0 <= r < Rows
    ensures var prev := ParseLines(Start, ls);
            ParseLines(Start, ls + [OlLine(data, r)]) == prev.(found := true, page := prev.page[r := data[r]])
  {
    var row := data[r];
    ClassifyOlLine(data, r);
    ParseRowLineSnoc(Start, ls, OlLine(data, r), r, TrimEnd(Escape(row)));
    assert SevenBitCells(row);
    RowTextEscape(row);
  }

  lemma PartialGridStep(data: Grid, k: int)
    requires 0 < k <= Rows
    ensures PartialGrid(data, k - 1)[k - 1 := data[k - 1]] == PartialGrid(data, k)
  {
    GridExt(PartialGrid(data, k - 1)[k - 1 := data[k - 1]], PartialGrid(data, k));
  }

  lemma PartialGridEnds(data: Grid)
    ensures PartialGrid(data, 0) == Blank()
    ensures PartialGrid(data, Rows) == data
  {
    GridExt(PartialGrid(data, 0), Blank());
    GridExt(PartialGrid(data, Rows), data);
  }

  lemma ParseSerialPrefix(page: TtiPage, k: int)
    requires SevenBit(page.data) && 0 <= k <= Rows
    ensures ParseLines(Start, SerialLines(page)[..3 + k]) ==
            ParseState(Trim(page.pageNumber), Trim(page.description), Trim(page.charset), k > 0, PartialGrid(page.data, k))
  {
    SerialLinesRows(page);
    ParseSerialHeaders(page);
    ParseRowsPrefix(SerialLines(page), page.data, k, Trim(page.pageNumber), Trim(page.description), Trim(page.charset));
  }

  lemma SerialLinesRows(page: TtiPage)
    ensures forall r :: 0 <= r < Rows ==> SerialLines(page)[3 + r] == OlLine(page.data, r)
  {
  }

  /** After three header lines, the OL lines of the first `k` rows of a
      seven-bit page read back as those rows. */
  lemma {:induction false} ParseRowsPrefix(lines: seq<Text>, data: Grid, k: int, number: Text, description: Text, charset: Text)
    requires SevenBit(data) && 0 <= k <= Rows && |lines| == 3 + Rows
    requires forall r :: 0 <= r < Rows ==> lines[3 + r] == OlLine(data, r)
    requires ParseLines(Start, lines[..3]) == ParseState(number, description, charset, false, Blank())
    ensures ParseLines(Start, lines[..3 + k]) == ParseState(number, description, charset, k > 0, PartialGrid(data, k))
    decreases k
  {
    if k == 0 {
      PartialGridEnds(data);
    } else {
      ParseRowsPrefix(lines, data, k - 1, number, description, charset);
      TakeSnoc(lines, 3 + k - 1);
      ParseRowsStep(lines[..3 + k - 1], data, k, number, description, charset);
    }
  }

  /** One more OL line of a seven-bit page extends the rows read so far. */
  lemma ParseRowsStep(ls: seq<Text>, data: Grid, k: int, number: Text, description: Text, charset: Text)
    requires SevenBit(data) && 0 < k <= Rows
    requires ParseLines(Start, ls) == ParseState(number, description, charset, k - 1 > 0, PartialGrid(data, k - 1))
    ensures ParseLines(Start, ls + [OlLine(data, k - 1)]) == ParseState(number, description, charset, true, PartialGrid(data, k))
  {
    ParseOlLineSnoc(ls, data, k - 1);
    PartialGridStep(data, k);
  }

  lemma OlLineNoBreaks(data: Grid, r: int)
    requires SevenBit(data) && 0 <= r < Rows
    ensures NoBreaks(OlLine(data, r))
  {
    var p := OlPrefix + Decimal(r) + [Comma];
    assert SevenBitCells(data[r]);
    EscapeNoBreaks(data[r]);
    assert NoBreaks(p);
    var l := p + Escape(data[r]);
    assert forall i :: |p| <= i < |l| ==> l[i] == Escape(data[r])[i - |p|];
  }

  lemma SerialLinesNoBreaks(page: TtiPage)
    requires SevenBit(page.data)
    requires NoBreaks(page.pageNumber) && NoBreaks(page.description) && NoBreaks(page.charset)
    ensures forall j :: 0 <= j < |SerialLines(page)| ==> NoBreaks(SerialLines(page)[j])
  {
    var lines := SerialLines(page);
    forall j | 0 <= j < |lines|
      ensures NoBreaks(lines[j])
    {
      if j >= 3 {
        assert lines[j] == OlLine(page.data, j - 3);
        OlLineNoBreaks(page.data, j - 3);
      }
    }
  }

  /** All the serialized lines read as the page's fields and cells. */
  lemma ParseSerialAll(page: TtiPage)
    requires SevenBit(page.data)
    ensures ParseLines(Start, SerialLines(page)) ==
            ParseState(Trim(page.pageNumber), Trim(page.description), Trim(page.charset), true, page.data)
  {
    ParseSerialPrefix(page, Rows);
    assert SerialLines(page)[..3 + Rows] == SerialLines(page);
    PartialGridEnds(page.data);
  }

  /** ParseSpec from the lines read and the state they leave. */
  lemma ParseSpecOf(content: Text, lines: seq<Text>, st: ParseState)
    requires ReadLines(content) == lines && ParseLines(Start, lines) == st && st.found
    ensures ParseSpec(content) == Some(TtiPage(st.pageNumber, st.description, st.charset, st.page))
  {
  }

  /** Parsing what `serialize` wrote gives the page back, with its three
      header values trimmed, when every cell is seven-bit and no header
      value holds a line break. */
  lemma SerializeParse(page: TtiPage)
    requires SevenBit(page.data)
    requires NoBreaks(page.pageNumber) && NoBreaks(page.description) && NoBreaks(page.charset)
    ensures ParseSpec(SerializeSpec(page)) ==
            Some(TtiPage(Trim(page.pageNumber), Trim(page.description), Trim(page.charset), page.data))
  {
    var lines := SerialLines(page);
    SerialLinesNoBreaks(page);
    ReadLinesJoin(lines);
    ParseSerialAll(page);
    ParseSpecOf(SerializeSpec(page), lines, ParseState(Trim(page.pageNumber), Trim(page.description), Trim(page.charset), true, page.data));
  }
}
