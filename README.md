# Teletext page editor — a Dafny model of its core

The application is an Android editor for teletext pages. A page is a grid of
25 rows of 40 seven-bit character codes, held as an `Array<IntArray>` in the
view and in the list of loaded pages. The model covers the parts of the
program that handle pages as data:

- **Packet formats.** Hamming 8/4 coding of nibbles. The 42-byte packet of
  the T42 and TTX formats is a Hamming-coded magazine and row address
  followed by 40 data bytes. Pages are built by applying packets in file
  order (`Packets`, `Hamming`).
- **File parsers and serializers**:
  - T42, single and multi-page (`T42`);
  - TTX (`Ttx`);
  - the line-oriented TTI text format with its `PN,`/`DE,`/`CS,`/`OL,`
    lines and ESC-shifted control codes (`Tti`);
  - EP1, a 6-byte header followed by raw cells (`Ep1`);
  - raw binary pages (`Binary`).

  Each parser is an imperative method proved equal to a functional
  specification. Each serializer is proved to round-trip through its parser,
  with exactly what is lost or changed on the way.
- **Row and page checksums.** CRC-16/CCITT with polynomial 0x1021 and
  initial value 0xFFFF, fed the low seven bits of every cell (`Crc`). The
  standard check value 0x29B1 for "123456789" is proved.
- **Character sets.** The 14 national G0 substitution tables, the lookup by
  identifier falling back to English, and the names shown in the picker
  (`Charsets`).
- **Spacing attributes.** The left-to-right scan of each row that gives
  every cell its foreground and background colour, text/mosaic mode,
  height, flash and separation (`Attributes`).
- **The editing view** (`Editor.TeletextView`):
  - a class with the page buffer, the attribute grid, the cursor, and an
    undo/redo history capped at 200 snapshots;
  - its operations: typing, backspace and the arrow keys, the input
    method's delete-before-cursor, set/get/clear, undo, redo and the
    cursor setters.
- **The activity's page collection** (`Collection.PageList`):
  - loading TTI files (several pages per file), T42 files (several
    sub-pages) and TTX files (a page every 1050 bytes);
  - choosing the loader by file extension;
  - the current page index and previous/next navigation;
  - jumping to a magazine/page/sub-page address;
  - deleting the current page;
  - recovering a page number from the header row.

Kotlin `Int` and `Byte` values are mathematical integers here, with the
masking and sign handling written out where it matters:

- `x and 0x7F` is `x % 128`, which agrees for every sign of `x`;
- `(x or 0x80).toByte()`, read back unsigned, is `128 + x % 128`;
- `Int.toChar()` keeps the low 16 bits;
- the CRC's 32-bit left shift wraps explicitly.

Text is a sequence of UTF-16 code units. Whenever the view replaces its
page, it recomputes the attribute grid.

In two places the code differs from what the format descriptions lead one
to expect, and the model follows the code:

- The T42 serializer masks data bytes to seven bits, while the TTX
  serializer sets the top bit: the two packet formats are not written
  alike.
- The EP1 parser reads cells up to 1000 bytes past the header, not a fixed
  960. Missing cells stay blank.

The undo history keeps the behaviour the code has. Every edit first pushes
a snapshot of the page *before* the edit, and `undo` steps back one
snapshot. So after two edits a single undo restores the page as it was
before the *first* edit, and redo never brings back the page after the last
edit. `Editor.UndoAfterTwoEdits` states this.

## Model

| member | source | states |
|---|---|---|
| Hamming.Decode | app/src/main/java/bg/alesla/teletexting/parsers/T42Parser.kt:16-22 | decoding reads data bits 1, 3, 5 and 7 of the byte and always yields a nibble 0..15 |
| Hamming.DecodeEncode | app/src/main/java/bg/alesla/teletexting/parsers/T42Parser.kt:16-41 | decoding an encoded value gives back the value's low nibble, for every integer input |
| Hamming.DecodeEncodeNibble | app/src/main/java/bg/alesla/teletexting/parsers/T42Parser.kt:16-41 | decode(encode(n)) == n for every nibble n |
| Hamming.DecodeEncodeBits | app/src/main/java/bg/alesla/teletexting/parsers/TTXParser.kt:14-38 | the bit-level round trip of the hamming helpers holds for every nibble |
| Hamming.ParityBitsIgnored | app/src/main/java/bg/alesla/teletexting/parsers/T42Parser.kt:16-22 | flipping a protection bit (0, 2, 4 or 6) changes the byte but not its decoded value, since no error correction is done |
| Hamming.EncodeZero | app/src/main/java/bg/alesla/teletexting/parsers/T42Parser.kt:27-41 | the coded zero nibble written into control bytes is the byte 0x00 |
| Packets.DecodePacket | app/src/main/java/bg/alesla/teletexting/parsers/T42Parser.kt:95-119 | a 42-byte packet gives magazine 0..7, row 0..31 and exactly bytes 2..41 as data |
| Packets.DecodePacketAddress | app/src/main/java/bg/alesla/teletexting/parsers/T42Parser.kt:99-105 | the magazine is the low three bits of the first decoded nibble; the row is its fourth bit plus twice the second nibble |
| Packets.DecodeEncodedPacket | app/src/main/java/bg/alesla/teletexting/parsers/T42Parser.kt:201-210 | an address encoded as the serializers do decodes back to the same magazine, row and data |
| Packets.SplitPackets | app/src/main/java/bg/alesla/teletexting/parsers/T42Parser.kt:91-124 | a file is cut into floor(size/42) packets, the k-th decoded from bytes 42k..42k+41, trailing bytes ignored |
| Packets.SplitJoined | app/src/main/java/bg/alesla/teletexting/parsers/T42Parser.kt:91-124 | splitting a concatenation of 42-byte packets decodes each of them in order |
| Packets.JoinedSlice | app/src/main/java/bg/alesla/teletexting/parsers/T42Parser.kt:190-241 | packet i of a written file occupies bytes 42i..42i+41 |
| Packets.ApplyPacket | app/src/main/java/bg/alesla/teletexting/parsers/T42Parser.kt:138-170 | a packet for row r changes only the cells of row r that the format writes, each to the written value |
| Packets.FoldSnoc | app/src/main/java/bg/alesla/teletexting/parsers/T42Parser.kt:136-170 | building from packets ps then p is applying p to the page built from ps |
| Packets.BuildPage | app/src/main/java/bg/alesla/teletexting/parsers/T42Parser.kt:129-173 | a page is produced iff some packet addresses a page row 0..24, and it is then the fold of all packets over a blank page |
| Packets.LastWriter | app/src/main/java/bg/alesla/teletexting/parsers/T42Parser.kt:136-170 | finds the last packet that writes a given cell, or -1, and no later packet writes that cell |
| Packets.FoldCell | app/src/main/java/bg/alesla/teletexting/parsers/T42Parser.kt:136-170 | every cell of a built page holds what the last packet writing it wrote, or a space if none did |
| Packets.FoldRowPerPacket | app/src/main/java/bg/alesla/teletexting/parsers/T42Parser.kt:136-170 | when packet j addresses row j, cell (r, c) is what packet r writes there |
| Packets.FoldSevenBit | app/src/main/java/bg/alesla/teletexting/parsers/T42Parser.kt:164-168 | if every written value is seven-bit, so is every cell of the built page |
| Packets.HasPageRowSnoc | app/src/main/java/bg/alesla/teletexting/parsers/T42Parser.kt:136-137 | a page row is present after appending p iff it was before or p addresses rows 0..24 |
| Packets.DigitOrZero | app/src/main/java/bg/alesla/teletexting/parsers/T42Parser.kt:214-220 | a header character that is a digit gives its value, anything else 0 |
| T42.ExtractAllPackets | app/src/main/java/bg/alesla/teletexting/parsers/T42Parser.kt:91-124 | the loop's packet list is exactly the split of the file |
| T42.WritePacket | app/src/main/java/bg/alesla/teletexting/parsers/T42Parser.kt:138-170 | writing one packet into the page array applies it: header digits from the coded page number, header text from column 8, data rows masked to seven bits |
| T42.BuildPageFromPackets | app/src/main/java/bg/alesla/teletexting/parsers/T42Parser.kt:129-173 | the method returns exactly the folded page, or none when no packet addresses rows 0..24 |
| T42.GroupsPartition | app/src/main/java/bg/alesla/teletexting/parsers/T42Parser.kt:57-86 | the page groups concatenate back to the packet list, none is empty, only the first packet of a group is a header, and each later group starts with one |
| T42.GroupInvariant | app/src/main/java/bg/alesla/teletexting/parsers/T42Parser.kt:63-79 | the grouping loop keeps its closed groups well formed and its open group headed by at most one header |
| T42.SingleGroup | app/src/main/java/bg/alesla/teletexting/parsers/T42Parser.kt:63-84 | packets starting with a header and holding no other header make one page |
| T42.BuiltPagesFromGroups | app/src/main/java/bg/alesla/teletexting/parsers/T42Parser.kt:69-84 | there are at most as many pages as groups; each page is the fold of a group that holds a page row |
| T42.ParseMultiPage | app/src/main/java/bg/alesla/teletexting/parsers/T42Parser.kt:57-86 | the method returns exactly the functional multi-page parse |
| T42.Parse | app/src/main/java/bg/alesla/teletexting/parsers/T42Parser.kt:179-182 | single-page parse is the first page of the multi-page parse, none if there is none |
| T42.SerialMagazine | app/src/main/java/bg/alesla/teletexting/parsers/T42Parser.kt:196-201 | the written magazine is always 0..7 |
| T42.PacketBody | app/src/main/java/bg/alesla/teletexting/parsers/T42Parser.kt:212-238 | the header body holds coded units and tens digits, zero control bytes and the masked text from column 8; other rows hold all 40 masked cells |
| T42.EncodeRowPacket | app/src/main/java/bg/alesla/teletexting/parsers/T42Parser.kt:190-243 | the array the loop fills for a row is exactly that row's packet |
| T42.WriteHeaderBody | app/src/main/java/bg/alesla/teletexting/parsers/T42Parser.kt:212-233 | the header loop writes the coded digits, six zero control bytes and the masked text of columns 8..39, leaving the address |
| T42.WriteRowBody | app/src/main/java/bg/alesla/teletexting/parsers/T42Parser.kt:234-238 | the data-row loop writes all 40 cells masked to seven bits, leaving the address |
| T42.Serialize | app/src/main/java/bg/alesla/teletexting/parsers/T42Parser.kt:187-245 | the output is exactly 25 row packets, 1050 bytes |
| T42.SerializedPackets | app/src/main/java/bg/alesla/teletexting/parsers/T42Parser.kt:187-245 | the written file splits back into 25 packets, packet r addressing row r |
| T42.RoundTripCell | app/src/main/java/bg/alesla/teletexting/parsers/T42Parser.kt:142-168 | each cell after serialize then parse: header digits rebuilt from the page number, columns 3..7 spaces, other cells masked |
| T42.SerializeParse | app/src/main/java/bg/alesla/teletexting/parsers/T42Parser.kt:57-245 | parsing a serialized page yields exactly one page, the round-tripped one |
| T42.SerializeParseKeepsText | app/src/main/java/bg/alesla/teletexting/parsers/T42Parser.kt:57-245 | for a seven-bit page, rows 1..24 and header columns 8..39 survive serialize then parse unchanged |
| T42.ParsedPagesSevenBit | app/src/main/java/bg/alesla/teletexting/parsers/T42Parser.kt:129-173 | every page the T42 parser produces holds only seven-bit codes |
| Ttx.CopyPacket | app/src/main/java/bg/alesla/teletexting/parsers/TTXParser.kt:65-91 | copying one packet into the page array applies it: the magazine digit unless it is 0, the decoded page digits and header text from column 8, all data-row cells masked |
| Ttx.ReadPacket | app/src/main/java/bg/alesla/teletexting/parsers/TTXParser.kt:52-94 | a packet is taken iff its row is 0..24, and the page array equals the fold of all packets read so far |
| Ttx.Parse | app/src/main/java/bg/alesla/teletexting/parsers/TTXParser.kt:44-98 | none for files under 42 bytes; otherwise the folded page iff some packet addresses rows 0..24 |
| Ttx.WithTopBit | app/src/main/java/bg/alesla/teletexting/parsers/TTXParser.kt:137-139 | a written byte has the top bit set and keeps the cell's low seven bits |
| Ttx.EncodeRowPacket | app/src/main/java/bg/alesla/teletexting/parsers/TTXParser.kt:105-147 | the array the loops fill for a row is that row's packet: magazine 1, the row address, every cell with the top bit set |
| Ttx.Serialize | app/src/main/java/bg/alesla/teletexting/parsers/TTXParser.kt:103-150 | the output is exactly 25 packets, 1050 bytes |
| Ttx.SerializedPackets | app/src/main/java/bg/alesla/teletexting/parsers/TTXParser.kt:103-150 | the written file splits back into 25 magazine-1 packets, packet r addressing row r with every cell's top bit set |
| Ttx.RoundTripCell | app/src/main/java/bg/alesla/teletexting/parsers/TTXParser.kt:71-139 | each cell after serialize then parse: header 0 is '1', 1..2 decoded from the text bytes, 3..7 spaces, other cells masked |
| Ttx.SerializeParse | app/src/main/java/bg/alesla/teletexting/parsers/TTXParser.kt:44-150 | parsing a serialized page yields the round-tripped page |
| Ttx.SerializeParseKeepsText | app/src/main/java/bg/alesla/teletexting/parsers/TTXParser.kt:44-150 | for a seven-bit page, rows 1..24 and header columns 8..39 survive; the first cell becomes '1', columns 3..7 spaces |
| Ttx.PageNumberLost | app/src/main/java/bg/alesla/teletexting/parsers/TTXParser.kt:122-139 | a header starting "100" comes back as "1<<": the text loop overwrites the coded digits |
| Ttx.IntendedKeepsPageNumber | app/src/main/java/bg/alesla/teletexting/parsers/TTXParser.kt:71-133 | with the header text written from column 8, tens and units digits survive the round trip with all the text |
| Tti.TrimStart | app/src/main/java/bg/alesla/teletexting/parsers/TTIParser.kt:48 | the result is the longest suffix not starting with whitespace, and everything dropped is whitespace |
| Tti.TrimEnd | app/src/main/java/bg/alesla/teletexting/parsers/TTIParser.kt:48 | the result is the longest prefix not ending with whitespace, and everything dropped is whitespace |
| Tti.IndexOf | app/src/main/java/bg/alesla/teletexting/parsers/TTIParser.kt:66 | the first position of the character at or after `from`, or -1 when there is none |
| Tti.ParseInt | app/src/main/java/bg/alesla/teletexting/parsers/TTIParser.kt:70 | `toIntOrNull` on ASCII digits: succeeds only with a value in the 32-bit range |
| Tti.ParseDecimal | app/src/main/java/bg/alesla/teletexting/parsers/TTIParser.kt:122 | a decimal written for a row number parses back to that number |
| Tti.ReadLines | app/src/main/java/bg/alesla/teletexting/parsers/TTIParser.kt:40 | no line contains a line break |
| Tti.ReadLinesJoin | app/src/main/java/bg/alesla/teletexting/parsers/TTIParser.kt:40 | reading back lines joined with LF gives the same lines |
| Tti.DecodeCells | app/src/main/java/bg/alesla/teletexting/parsers/TTIParser.kt:80-94 | at most `room` cells are produced, each a seven-bit code; ESC followed by a unit u gives (u - 0x40) and 0x7F |
| Tti.DecodeCellsSevenBit | app/src/main/java/bg/alesla/teletexting/parsers/TTIParser.kt:82-94 | every decoded cell is a seven-bit code |
| Tti.Filled | app/src/main/java/bg/alesla/teletexting/parsers/TTIParser.kt:96-100 | the decoded cells come first and the rest of the 40 are spaces |
| Tti.Classify | app/src/main/java/bg/alesla/teletexting/parsers/TTIParser.kt:48-103 | a line is classified by its trimmed prefix; an OL line counts only when its row number is 0..24 |
| Tti.DecodeInto | app/src/main/java/bg/alesla/teletexting/parsers/TTIParser.kt:80-94 | the loop writes the decoded cells at the start of the row and leaves every other cell untouched |
| Tti.WriteRow | app/src/main/java/bg/alesla/teletexting/parsers/TTIParser.kt:75-100 | an OL line replaces the whole row with its decoded text padded with spaces, and nothing else |
| Tti.ReadLine | app/src/main/java/bg/alesla/teletexting/parsers/TTIParser.kt:47-103 | one pass of the line loop is the functional line step |
| Tti.Parse | app/src/main/java/bg/alesla/teletexting/parsers/TTIParser.kt:39-109 | the method returns exactly the functional parse |
| Tti.LastLineWins | app/src/main/java/bg/alesla/teletexting/parsers/TTIParser.kt:47-103 | the last PN, DE or CS line sets its field, and the last OL line for a row sets that whole row |
| Tti.UnnamedRowBlank | app/src/main/java/bg/alesla/teletexting/parsers/TTIParser.kt:41 | a row no OL line names stays blank |
| Tti.FoundIffRowLine | app/src/main/java/bg/alesla/teletexting/parsers/TTIParser.kt:68-74 | the found flag ends true iff it started true or some line is an OL line for rows 0..24 |
| Tti.ParseSpecSome | app/src/main/java/bg/alesla/teletexting/parsers/TTIParser.kt:104-108 | a page is returned iff some line is an OL line for rows 0..24 |
| Tti.Char16 | app/src/main/java/bg/alesla/teletexting/parsers/TTIParser.kt:130-132 | `toChar` keeps the low 16 bits and leaves code units unchanged |
| Tti.Serialize | app/src/main/java/bg/alesla/teletexting/parsers/TTIParser.kt:114-140 | the method builds exactly the PN, DE and CS lines and 25 OL lines, each ended by LF |
| Tti.TrimEndEscape | app/src/main/java/bg/alesla/teletexting/parsers/TTIParser.kt:124-136 | trimming the end of an escaped row is escaping the row without its trailing spaces |
| Tti.DecodeEscape | app/src/main/java/bg/alesla/teletexting/parsers/TTIParser.kt:82-94 | decoding escaped seven-bit cells gives back the cells |
| Tti.RowTextEscape | app/src/main/java/bg/alesla/teletexting/parsers/TTIParser.kt:82-133 | a row written as an OL line is read back as the same 40 cells |
| Tti.ClassifyOlLine | app/src/main/java/bg/alesla/teletexting/parsers/TTIParser.kt:63-77 | an OL line the serializer writes is read as an OL line for its own row |
| Tti.SerializeParse | app/src/main/java/bg/alesla/teletexting/parsers/TTIParser.kt:39-140 | parse(serialize(p)) gives the trimmed page number, description and character set and exactly the same grid |
| Ep1.Parse | app/src/main/java/bg/alesla/teletexting/parsers/EP1Parser.kt:14-29 | the method returns exactly the functional parse: none when under 6 bytes or without the FE 01 magic, otherwise masked cells from offset 6 with missing cells blank |
| Ep1.Serialize | app/src/main/java/bg/alesla/teletexting/parsers/EP1Parser.kt:34-53 | the output is the 6-byte header and 1000 masked cells in reading order |
| Ep1.SerializeParse | app/src/main/java/bg/alesla/teletexting/parsers/EP1Parser.kt:14-53 | parse(serialize(p)) is p masked to seven bits, and p itself for a seven-bit page |
| Ep1.HeaderBytesIgnored | app/src/main/java/bg/alesla/teletexting/parsers/EP1Parser.kt:15-21 | header bytes 2..5 do not influence the parsed page |
| Ep1.ShortFileBlankTail | app/src/main/java/bg/alesla/teletexting/parsers/EP1Parser.kt:18-25 | a 966-byte file parses, with its last row blank and only seven-bit codes |
| Binary.Parse | app/src/main/java/bg/alesla/teletexting/parsers/BinaryParser.kt:12-38 | the method returns exactly the functional parse: under 960 bytes none, EP1 magic redirects, otherwise the last 1000 bytes or the whole file, masked |
| Binary.Serialize | app/src/main/java/bg/alesla/teletexting/parsers/BinaryParser.kt:43-53 | the output array holds the 1000 masked cells in reading order |
| Binary.SerializeParse | app/src/main/java/bg/alesla/teletexting/parsers/BinaryParser.kt:12-53 | parse(serialize(p)) is p masked to seven bits, and p itself for a seven-bit page |
| Binary.ReadsEp1Files | app/src/main/java/bg/alesla/teletexting/parsers/BinaryParser.kt:19-23 | a written EP1 file parses as binary exactly as it parses as EP1 |
| Binary.LastThousandBytes | app/src/main/java/bg/alesla/teletexting/parsers/BinaryParser.kt:25-27 | without the EP1 magic, a file longer than 1000 bytes is read from its last 1000 bytes |
| Crc.UpdateCrc | app/src/main/java/bg/alesla/teletexting/utils/CRCCalculator.kt:44-60 | the 32-bit loop masked at the end equals the CRC-16/CCITT byte step on a 16-bit register, and stays in 0..0xFFFF |
| Crc.XorLow | app/src/main/java/bg/alesla/teletexting/utils/CRCCalculator.kt:52 | xor with the polynomial commutes with keeping the low 16 bits |
| Crc.ShiftLow | app/src/main/java/bg/alesla/teletexting/utils/CRCCalculator.kt:51-55 | the wrapping 32-bit left shift agrees with doubling modulo 2^16 |
| Crc.CalculateRowCrc | app/src/main/java/bg/alesla/teletexting/utils/CRCCalculator.kt:31-39 | the row loop computes the fold of byte steps over the masked cells from 0xFFFF |
| Crc.CalculateCrc | app/src/main/java/bg/alesla/teletexting/utils/CRCCalculator.kt:15-26 | the nested loop computes the page fold over rows 0..24 |
| Crc.CrcFoldAppend | app/src/main/java/bg/alesla/teletexting/utils/CRCCalculator.kt:15-39 | the CRC of a concatenation continues from the CRC of the first part |
| Crc.PageCrcIsRowCrc | app/src/main/java/bg/alesla/teletexting/utils/CRCCalculator.kt:15-39 | the page CRC is the row CRC routine applied to the 1000 cells in reading order |
| Crc.HighBitsIgnored | app/src/main/java/bg/alesla/teletexting/utils/CRCCalculator.kt:20-22 | cells that agree in their low seven bits give the same CRC |
| Crc.CheckValue | app/src/main/java/bg/alesla/teletexting/utils/CRCCalculator.kt:44-60 | the byte step is CRC-16/CCITT-FALSE: "123456789" from 0xFFFF gives 0x29B1 |
| Crc.VerifyCrc | app/src/main/java/bg/alesla/teletexting/utils/CRCCalculator.kt:65-68 | verification succeeds iff the expected value is the CRC of the page's cells |
| Crc.ExtractEmbeddedCrc | app/src/main/java/bg/alesla/teletexting/utils/CRCCalculator.kt:74-79 | no embedded CRC is ever found |
| Charsets.Substitution | app/src/main/java/bg/alesla/teletexting/utils/CharsetManager.kt:17-428 | substitutions are never empty strings, and the ten Latin sets leave the capitals A..Z alone |
| Charsets.IdsArePositions | app/src/main/java/bg/alesla/teletexting/utils/CharsetManager.kt:17-428 | there are 14 sets and each set's identifier is its position |
| Charsets.GetCharset | app/src/main/java/bg/alesla/teletexting/utils/CharsetManager.kt:433-435 | the set with the identifier when one exists, English otherwise |
| Charsets.MapCharInKnownSet | app/src/main/java/bg/alesla/teletexting/utils/CharsetManager.kt:440-445 | a known set gives its substitution when it has one, the code as a character otherwise |
| Charsets.UnknownSetIsEnglish | app/src/main/java/bg/alesla/teletexting/utils/CharsetManager.kt:433-445 | an unknown identifier maps like English |
| Charsets.ArabicRial | app/src/main/java/bg/alesla/teletexting/utils/CharsetManager.kt:357 | in the Arabic set '$' becomes the four-character rial word |
| Charsets.LatinCapitalsUnchanged | app/src/main/java/bg/alesla/teletexting/utils/CharsetManager.kt:17-217 | the Latin sets map A..Z to themselves |
| Charsets.GetCharsetNames | app/src/main/java/bg/alesla/teletexting/utils/CharsetManager.kt:451-453 | one "name (region)" entry per set, in table order |
| Charsets.PickerShowsSelectedSet | app/src/main/java/bg/alesla/teletexting/utils/CharsetManager.kt:433-453 | entry i of the picker names the set with identifier i |
| Attributes.Step | app/src/main/java/bg/alesla/teletexting/view/TeletextView.kt:478-495 | a non-control cell leaves the attributes unchanged; the palette stays valid |
| Attributes.ScanInPalette | app/src/main/java/bg/alesla/teletexting/view/TeletextView.kt:466-505 | the row scan keeps colours in the 0..7 palette |
| Attributes.ScanPrefix | app/src/main/java/bg/alesla/teletexting/view/TeletextView.kt:467-503 | a cell's attributes are its own code applied to the previous cell's, starting each row from white on black text |
| Attributes.AttrDependsOnPrefix | app/src/main/java/bg/alesla/teletexting/view/TeletextView.kt:467-503 | a cell's attributes depend only on the cells at and before it in its row |
| Attributes.AttributeCodeTakesEffect | app/src/main/java/bg/alesla/teletexting/view/TeletextView.kt:478-502 | each control code sets its attribute at its own cell (set-at, as coded) |
| Attributes.PlainPrefixKeepsStart | app/src/main/java/bg/alesla/teletexting/view/TeletextView.kt:467-503 | a row with no control code up to a cell keeps the row-start attributes there |
| Attributes.ColourCodesExample | app/src/main/java/bg/alesla/teletexting/view/TeletextView.kt:478-497 | red then green alpha codes colour their own cells and those that follow |
| Editor.Forward | app/src/main/java/bg/alesla/teletexting/view/TeletextView.kt:406-418 | the cursor advances one cell in reading order, from (39, 24) to (0, 0) |
| Editor.Back | app/src/main/java/bg/alesla/teletexting/view/TeletextView.kt:309-322 | the cursor steps back one cell in reading order, from (0, 0) to (39, 24) |
| Editor.BackUndoesForward | app/src/main/java/bg/alesla/teletexting/view/TeletextView.kt:309-418 | backspace's cursor move and typing's advance are inverse |
| Editor.KeyCursor | app/src/main/java/bg/alesla/teletexting/view/TeletextView.kt:303-393 | every handled key keeps the cursor on the page |
| Editor.OppositeKeysCancel | app/src/main/java/bg/alesla/teletexting/view/TeletextView.kt:341-390 | up/down and left/right undo each other, including their wrap-arounds |
| Editor.Clamp | app/src/main/java/bg/alesla/teletexting/view/TeletextView.kt:116-132 | the cursor setters keep in-range values and clamp others to the nearest edge |
| Editor.Pushed | app/src/main/java/bg/alesla/teletexting/view/TeletextView.kt:675-707 | pushing drops the redo tail, appends the snapshot last and drops the oldest entry beyond 200 |
| Editor.DeleteStep | app/src/main/java/bg/alesla/teletexting/view/TeletextView.kt:442-449 | one delete step moves the cursor one cell back, stopping at (0, 0) |
| Editor.DeleteBackEffect | app/src/main/java/bg/alesla/teletexting/view/TeletextView.kt:440-455 | deleting n cells moves the cursor back n cells (not past the start) and blanks exactly the cells passed over |
| Editor.UndoAfterTwoEdits | app/src/main/java/bg/alesla/teletexting/view/TeletextView.kt:675-726 | after two edits the snapshot one undo restores is the page before the first edit |
| Editor.TeletextView.constructor | app/src/main/java/bg/alesla/teletexting/view/TeletextView.kt:46-186 | a blank page, the cursor at (0, 0) and a history holding that one snapshot |
| Editor.TeletextView.PushHistory | app/src/main/java/bg/alesla/teletexting/view/TeletextView.kt:675-707 | the history becomes the pushed history and the index points at its last entry |
| Editor.TeletextView.RecomputeAttributes | app/src/main/java/bg/alesla/teletexting/view/TeletextView.kt:466-505 | every cell's attributes are the row scan up to that cell |
| Editor.TeletextView.RestoreState | app/src/main/java/bg/alesla/teletexting/view/TeletextView.kt:759-776 | page and cursor become the snapshot's; the history is unchanged |
| Editor.TeletextView.Undo | app/src/main/java/bg/alesla/teletexting/view/TeletextView.kt:711-726 | undo succeeds iff the index is positive; it then moves back one entry and restores it, otherwise nothing changes |
| Editor.TeletextView.Redo | app/src/main/java/bg/alesla/teletexting/view/TeletextView.kt:730-745 | redo succeeds iff a later entry exists; it then moves forward one and restores it, otherwise nothing changes |
| Editor.TeletextView.GetCharAt | app/src/main/java/bg/alesla/teletexting/view/TeletextView.kt:659-663 | the cell at (x, y) inside the page, a space outside |
| Editor.TeletextView.SetCharAt | app/src/main/java/bg/alesla/teletexting/view/TeletextView.kt:651-657 | inside the page the cell becomes the code's low seven bits; outside nothing changes; no snapshot is pushed |
| Editor.TeletextView.SetPageData | app/src/main/java/bg/alesla/teletexting/view/TeletextView.kt:46-51 | the view takes the new array, recomputes attributes and keeps history and cursor |
| Editor.TeletextView.ClearPage | app/src/main/java/bg/alesla/teletexting/view/TeletextView.kt:665-670 | the pre-clear page is pushed, then the page is blank; the cursor stays |
| Editor.TeletextView.InsertCharacter | app/src/main/java/bg/alesla/teletexting/view/TeletextView.kt:395-419 | the pre-edit snapshot is pushed, the cell gets the code's low seven bits and the cursor advances |
| Editor.TeletextView.Backspace | app/src/main/java/bg/alesla/teletexting/view/TeletextView.kt:305-328 | the pre-edit snapshot is pushed, the cursor steps back with wrap-around and the cell reached becomes a space |
| Editor.TeletextView.KeyDown | app/src/main/java/bg/alesla/teletexting/view/TeletextView.kt:303-393 | the six keys are handled, each moving the cursor as specified; only backspace edits the page and the history |
| Editor.TeletextView.DeleteSurroundingText | app/src/main/java/bg/alesla/teletexting/view/TeletextView.kt:440-455 | deleting n cells before the cursor is the functional delete; no snapshot, always true |
| Editor.TeletextView.SetCursorX | app/src/main/java/bg/alesla/teletexting/view/TeletextView.kt:116-123 | the column is clamped into 0..39 |
| Editor.TeletextView.SetCursorY | app/src/main/java/bg/alesla/teletexting/view/TeletextView.kt:125-132 | the row is clamped into 0..24 |
| Collection.PageNumberOf | app/src/main/java/bg/alesla/teletexting/MainActivity.kt:810-838 | three digits: the header's first three characters when they are digits, otherwise "100" |
| Collection.PageNumberOfHeader | app/src/main/java/bg/alesla/teletexting/MainActivity.kt:810-838 | the header's own characters are used iff they are three digits |
| Collection.LeadingDigits | app/src/main/java/bg/alesla/teletexting/MainActivity.kt:813-827 | the loop over columns 0..2 collects exactly the decimal digits among the first three codes, in order |
| Collection.ExtractPageNumber | app/src/main/java/bg/alesla/teletexting/MainActivity.kt:810-838 | the method returns the functional page number |
| Collection.PutLookup | app/src/main/java/bg/alesla/teletexting/MainActivity.kt:363 | storing a row's text replaces only that row's entry in the page map |
| Collection.ConvertRows | app/src/main/java/bg/alesla/teletexting/MainActivity.kt:376-398 | a stored row becomes its decoded text padded with spaces; a missing row stays blank |
| Collection.ConvertTtiPageToArray | app/src/main/java/bg/alesla/teletexting/MainActivity.kt:376-398 | the filled array is exactly the functional conversion |
| Collection.JoinSplitLf | app/src/main/java/bg/alesla/teletexting/MainActivity.kt:329 | splitting on LF and joining back gives the original text |
| Collection.SplitJoinLf | app/src/main/java/bg/alesla/teletexting/MainActivity.kt:329 | joining LF-free parts and splitting gives the parts back |
| Collection.LoadTtiPagesBound | app/src/main/java/bg/alesla/teletexting/MainActivity.kt:327-373 | no more pages than OL lines that store a text, and every page has a number of at most three characters and a nonempty sub-page |
| Collection.T42Subpages | app/src/main/java/bg/alesla/teletexting/MainActivity.kt:401-411 | the i-th T42 page is sub-page i + 1, so sub-pages are distinct |
| Collection.ChunkPagesAccepted | app/src/main/java/bg/alesla/teletexting/MainActivity.kt:414-429 | the k-th TTX page is the parse of the chunk at 1050 k, which fits the file |
| Collection.ChunkPagesStop | app/src/main/java/bg/alesla/teletexting/MainActivity.kt:418-427 | reading stops at the first chunk that does not fit or does not parse |
| Collection.TtxPagesChunks | app/src/main/java/bg/alesla/teletexting/MainActivity.kt:414-429 | page k is the TTX reader's page of the chunk starting at byte 1050·k, and reading stops at the first chunk the reader rejects or that is shorter than a packet |
| Collection.ReadTtxPages | app/src/main/java/bg/alesla/teletexting/MainActivity.kt:414-429 | the loop collects exactly the functional chunk sequence |
| Collection.SavedFileFormat | app/src/main/java/bg/alesla/teletexting/MainActivity.kt:268-306 | a name ending in a format's extension is loaded as that format |
| Collection.IndexOfPage | app/src/main/java/bg/alesla/teletexting/MainActivity.kt:754-756 | the first page with the page number and sub-page, or -1 |
| Collection.PageList.constructor | app/src/main/java/bg/alesla/teletexting/MainActivity.kt:34-42 | no pages, index 0, TTI, page 100 sub-page 1 |
| Collection.PageList.DisplayCurrentPage | app/src/main/java/bg/alesla/teletexting/MainActivity.kt:431-442 | with a valid index the current number and sub-page become that page's, otherwise nothing changes |
| Collection.PageList.LoadTtiPages | app/src/main/java/bg/alesla/teletexting/MainActivity.kt:327-373 | the loaded list is exactly the functional TTI load |
| Collection.PageList.LoadT42Pages | app/src/main/java/bg/alesla/teletexting/MainActivity.kt:401-411 | the list becomes the T42 pages numbered from their headers, sub-pages 1, 2, 3 … |
| Collection.PageList.LoadTtxPages | app/src/main/java/bg/alesla/teletexting/MainActivity.kt:414-429 | the loaded list is exactly the functional TTX chunk read |
| Collection.PageList.ReadPages | app/src/main/java/bg/alesla/teletexting/MainActivity.kt:271-306 | the extension picks the format and the pages are that format's loader's pages; the current position is untouched |
| Collection.PageList.LoadSinglePage | app/src/main/java/bg/alesla/teletexting/MainActivity.kt:279-286 | an accepted EP1 or binary page, numbered from its header with sub-page "1", replaces the list; a rejected file leaves it as it was |
| Collection.PageList.LoadFile | app/src/main/java/bg/alesla/teletexting/MainActivity.kt:268-323 | the lower-cased extension picks the format and its loader; a rejected EP1 or binary file keeps the previous list; when the list is nonempty its first page becomes current, otherwise the position is kept |
| Collection.PageList.PrevPage | app/src/main/java/bg/alesla/teletexting/MainActivity.kt:795-800 | the index goes back one unless it is 0; when it moves onto a page, that page's number and sub-page become current, otherwise both stay; the list and the format are unchanged |
| Collection.PageList.NextPage | app/src/main/java/bg/alesla/teletexting/MainActivity.kt:802-807 | the index goes forward one unless it is the last; when it moves, the new page's number and sub-page become current, otherwise both stay; the list and the format are unchanged |
| Collection.PageList.NavigateToAddress | app/src/main/java/bg/alesla/teletexting/MainActivity.kt:747-767 | missing parts are taken from the current page; a match becomes current, otherwise nothing changes |
| Collection.PageList.DeleteCurrentPage | app/src/main/java/bg/alesla/teletexting/MainActivity.kt:770-792 | the current page is removed and the index clamped to the new last page; a list emptied this way gets one blank page "100" sub-page "1" at index 0; the page then at the index gives the current number and sub-page; the format is unchanged; nothing happens on an empty list |

## Left out

- Rendering (`onDraw`, cell drawing, mosaics), the cursor blink timer, touch and gesture handling, and the on-screen keyboard plumbing. They only read the model's state.
- `commitText` of the input connection: it calls `insertCharacter` for each typed character, which is modelled.
- Android I/O: content resolvers, file pickers, saving, toasts, dialogs, the page-number field and logging. File contents enter the model as parameters (`data` bytes, `text` code units).
- UTF-8 decoding of TTI files into `String`: TTI content is given as a sequence of UTF-16 code units.
- `formatCRC`: a `String.format` call, with no logic beyond hexadecimal printing.
- `HistoryState.copy` and the deep copies in the snapshot code: snapshots are immutable values in the model, so copying has no observable effect.
- Aliasing between the view's page array and the arrays kept in the page list: the page list holds grid values.
- The T42 loop's hexadecimal page-number string: it is built and never used.
- The parsers' `size >= 8` and `col < size` checks on packet data: packet data is always 40 bytes, so they are always true.
- `Tti.SerializeParse`: requires seven-bit cells and header fields without line breaks. Other inputs cannot round-trip, because ESC-escaping keeps only seven bits and line breaks split lines.
- `Tti.ParseInt`: reads ASCII digits 0-9 only. Kotlin's `toIntOrNull` also accepts other Unicode decimal digits (Arabic-Indic, fullwidth and so on), so an OL line such as `OL,١,x` stores row 1 in the app but is skipped by the model (in `Tti.Classify` and in the page collection's `TtiLoadLine`).
- `Editor.TeletextView.KeyDown`: for keys the view does not handle, the source returns `super.onKeyDown(keyCode, event)`, which the Android base `View` may answer with true (for example confirm keys on a disabled view); the model returns false for `Other`, since the platform handler is outside the model.
- `Crc.UpdateCrc`: the CRC routines are proved over mathematical integers, with the 32-bit wrap-around of `shl 1` written out explicitly.

## Findings

| source | as written | input that shows it | evidently intended | confidence | as-written member | corrected member |
|---|---|---|---|---|---|---|
| app/src/main/java/bg/alesla/teletexting/parsers/TTXParser.kt:122-139 | the header's Hamming-coded page digits and control bytes are written to bytes 2..9, and then the copy loop over all 40 columns overwrites them with text bytes that have the top bit set | a page whose header starts "100": after serialize then parse the header reads "1<<", because 0xB0 and 0xB1 both decode to 12 | the text copy of row 0 starts at column 8, as the parser reads it, so the coded page number survives | not executed | Ttx.PageNumberLost | Ttx.IntendedKeepsPageNumber |
