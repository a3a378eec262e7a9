/** The page checksum (`CRCCalculator`): CRC-16 with polynomial 0x1021, initial
    value 0xFFFF, most significant bit first, no reflection and no final XOR
    (the parameter set catalogued as CRC-16/CCITT-FALSE), run over the cells
    masked to seven bits. */
module Crc {
  import opened Pages

  const Polynomial := 0x1021
  const InitialValue: Register := 0xFFFF

  /** The 16-bit CRC register. Kotlin Ints are taken as mathematical
      integers: `and 0xFFFF` is `% 0x10000` and `(x shr k) and 1` is
      `(x / 2^k) % 2` (both Euclidean, which for a positive divisor is what
      two's complement gives). */
  type Register = r: int | 0 <= r < 0x10000

  /** 2^k, for the shift distances `updateCRC` uses (0..15). */
  function Pow2(k: nat): (p: nat)
    requires k < 16
    ensures p >= 1
  {
    if k < 8 then
      if k == 0 then 1 else if k == 1 then 2 else if k == 2 then 4 else if k == 3 then 8
      else if k == 4 then 16 else if k == 5 then 32 else if k == 6 then 64 else 128
    else
      if k == 8 then 0x100 else if k == 9 then 0x200 else if k == 10 then 0x400 else if k == 11 then 0x800
      else if k == 12 then 0x1000 else if k == 13 then 0x2000 else if k == 14 then 0x4000 else 0x8000
  }

  /** Kotlin's `(x shr k) and 1 == 1`: bit k of the Int x. */
  function Bit(x: int, k: nat): bool
    requires k < 16
  {
    (x / Pow2(k)) % 2 == 1
  }

  /** One term of `x xor 0x1021`: flip the bit of weight p. */
  function Flip(x: int, p: int): int
    requires p > 0
  {
    if (x / p) % 2 == 1 then -p else p
  }

  /** Kotlin's `x xor 0x1021` on an Int: bits 0, 5 and 12 flipped. */
  function XorPolynomial(x: int): (r: int)
    ensures 0 <= x < 0x10000 ==> 0 <= r < 0x10000
  {
    x + Flip(x, 1) + Flip(x, 32) + Flip(x, 4096)
  }

  /** Kotlin's `x shl 1` on an Int: doubled, wrapped to 32 bits. */
  function ShiftLeft(x: int): (r: int)
    ensures -0x8000_0000 <= r < 0x8000_0000
  {
    (2 * x + 0x8000_0000) % 0x1_0000_0000 - 0x8000_0000
  }

  /** One bit through the 16-bit register: shift left, and XOR the polynomial
      when the bit shifted out (bit 15) differs from the input bit. */
  function CrcStep(reg: Register, bit: bool): Register
  {
    var shifted := (2 * reg) % 0x10000;
    if (reg >= 0x8000) != bit then XorPolynomial(shifted) else shifted
  }

  /** Bit 7 - i of the byte: bits are fed most significant first. */
  function ByteBit(b: int, i: nat): bool
    requires i < 8
  {
    Bit(b, 7 - i)
  }

  /** The register after the first n bits of the byte. */
  function CrcBits(reg: Register, b: int, n: nat): Register
    requires n <= 8
  {
    if n == 0 then reg else CrcStep(CrcBits(reg, b, n - 1), ByteBit(b, n - 1))
  }

  /** The register after a whole byte (bits 7 down to 0 of b). */
  function CrcByte(reg: Register, b: int): Register
  {
    CrcBits(reg, b, 8)
  }

  /** Bits 0, 5, 12 and 15 of an Int are those of its low 16 bits. */
  lemma LowBit0(x: int)
    ensures x % 2 == (x % 0x10000) % 2
  {
    var q, m := x / 0x10000, x % 0x10000;
    assert x == 0x10000 * q + m;
    assert x / 2 == 0x8000 * q + m / 2;
  }

  lemma LowBit5(x: int)
    ensures (x / 32) % 2 == ((x % 0x10000) / 32) % 2
  {
    var q, m := x / 0x10000, x % 0x10000;
    assert x == 0x10000 * q + m;
    assert x / 32 == 2048 * q + m / 32;
  }

  lemma LowBit12(x: int)
    ensures (x / 4096) % 2 == ((x % 0x10000) / 4096) % 2
  {
    var q, m := x / 0x10000, x % 0x10000;
    assert x == 0x10000 * q + m;
    assert x / 4096 == 16 * q + m / 4096;
  }

  lemma LowBit15(x: int)
    ensures (x / 0x8000) % 2 == ((x % 0x10000) / 0x8000) % 2
  {
    var q, m := x / 0x10000, x % 0x10000;
    assert x == 0x10000 * q + m;
    assert x / 0x8000 == 2 * q + m / 0x8000;
  }

  /** The XOR with the polynomial commutes with taking the low 16 bits. */
  lemma XorLow(x: int)
    ensures XorPolynomial(x) % 0x10000 == XorPolynomial(x % 0x10000)
  {
    var q, m := x / 0x10000, x % 0x10000;
    assert x == 0x10000 * q + m;
    LowBit0(x);
    LowBit5(x);
    LowBit12(x);
    assert Flip(x, 1) == Flip(m, 1);
    assert Flip(x, 32) == Flip(m, 32);
    assert Flip(x, 4096) == Flip(m, 4096);
    var r := XorPolynomial(m);
    assert 0 <= r < 0x10000;
    assert XorPolynomial(x) == 0x10000 * q + r;
  }

  /** Adding a multiple of 0x10000 leaves the low 16 bits alone. */
  lemma ModMultiple(a: int, n: int)
    ensures (a + 0x10000 * n) % 0x10000 == a % 0x10000
  {
  }

  /** Wrapping the shift to 32 bits leaves the low 16 bits alone. */
  lemma ShiftLow(x: int)
    ensures ShiftLeft(x) % 0x10000 == (2 * (x % 0x10000)) % 0x10000
  {
    var y := 2 * x + 0x8000_0000;
    var w := y / 0x1_0000_0000;
    assert y == 0x1_0000_0000 * w + y % 0x1_0000_0000;
    var q, m := x / 0x10000, x % 0x10000;
    assert x == 0x10000 * q + m;
    var t := 2 * q - 0x10000 * w;
    assert ShiftLeft(x) == 2 * m + 0x10000 * t;
    ModMultiple(2 * m, t);
  }

  /** One pass of `updateCRC`'s loop moves the low 16 bits of the Int
      exactly as one step of the 16-bit register. */
  lemma StepLow(result: int, bit: bool)
    ensures (if Bit(result, 15) != bit then XorPolynomial(ShiftLeft(result)) else ShiftLeft(result)) % 0x10000
            == CrcStep(result % 0x10000, bit)
  {
    assert Pow2(15) == 0x8000;
    LowBit15(result);
    ShiftLow(result);
    XorLow(ShiftLeft(result));
  }

  /** `updateCRC`: the register is shifted as a 32-bit Int and masked to 16
      bits only at the end, which gives exactly the 16-bit register after
      bits 7..0 of `byte`; the result is always in 0..0xFFFF. */
  method UpdateCrc(crc: int, byte: int) returns (r: int)
    ensures 0 <= r < 0x10000
    ensures r == CrcByte(crc % 0x10000, byte)
    ensures 0 <= crc < 0x10000 ==> r == CrcByte(crc, byte)
  {
    var result := crc;
    var data := byte;
    for i := 0 to 8
      invariant result % 0x10000 == CrcBits(crc % 0x10000, byte, i)
    {
      var bit := (data / Pow2(7 - i)) % 2 == 1;
      var c15 := (result / Pow2(15)) % 2 == 1;
      StepLow(result, bit);
      result := ShiftLeft(result);
      if c15 != bit {
        result := XorPolynomial(result);
      }
    }
    r := result % 0x10000;
  }

  /** The register after a sequence of cells, each masked to seven bits. */
  function CrcFold(reg: Register, cells: seq<int>): Register
  {
    if cells == [] then reg
    else CrcByte(CrcFold(reg, cells[..|cells| - 1]), Mask7(cells[|cells| - 1]))
  }

  lemma {:induction false} CrcFoldAppend(reg: Register, s: seq<int>, t: seq<int>)
    ensures CrcFold(reg, s + t) == CrcFold(CrcFold(reg, s), t)
  {
    if t != [] {
      var u := s + t;
      assert u[..|u| - 1] == s + t[..|t| - 1];
      assert u[|u| - 1] == t[|t| - 1];
      CrcFoldAppend(reg, s, t[..|t| - 1]);
      calc {
        CrcFold(reg, u);
        CrcByte(CrcFold(reg, s + t[..|t| - 1]), Mask7(t[|t| - 1]));
        CrcByte(CrcFold(CrcFold(reg, s), t[..|t| - 1]), Mask7(t[|t| - 1]));
        CrcFold(CrcFold(reg, s), t);
      }
    } else {
      assert s + t == s;
    }
  }

  lemma CrcFoldSnoc(reg: Register, p: seq<int>, x: int)
    ensures CrcFold(reg, p + [x]) == CrcByte(CrcFold(reg, p), Mask7(x))
  {
    var u := p + [x];
    assert u[..|u| - 1] == p && u[|u| - 1] == x;
  }

  /** `calculateRowCRC`: the CRC of a row of cells from 0xFFFF. */
  method CalculateRowCrc(rowData: seq<int>) returns (crc: int)
    ensures crc == CrcFold(InitialValue, rowData)
  {
    crc := 0xFFFF;
    assert rowData[..0] == [];
    for k := 0 to |rowData|
      invariant crc == CrcFold(InitialValue, rowData[..k])
    {
      assert rowData[..k + 1] == rowData[..k] + [rowData[k]];
      CrcFoldSnoc(InitialValue, rowData[..k], rowData[k]);
      crc := UpdateCrc(crc, Mask7(rowData[k]));
    }
    assert rowData[..|rowData|] == rowData;
  }

  /** The register after rows 0..n-1 of the page, row by row. */
  function PageFold(page: Grid, n: nat): Register
    requires n <= Rows
  {
    if n == 0 then InitialValue else CrcFold(PageFold(page, n - 1), page[n - 1])
  }

  /** `calculateCRC`: the nested loop over rows and columns. */
  method CalculateCrc(pageData: Grid) returns (crc: int)
    ensures crc == PageFold(pageData, Rows)
  {
    crc := 0xFFFF;
    for row := 0 to Rows
      invariant crc == PageFold(pageData, row)
    {
      ghost var start := PageFold(pageData, row);
      assert pageData[row][..0] == [];
      for col := 0 to Cols
        invariant crc == CrcFold(start, pageData[row][..col])
      {
        assert pageData[row][..col + 1] == pageData[row][..col] + [pageData[row][col]];
        CrcFoldSnoc(start, pageData[row][..col], pageData[row][col]);
        var byte := Mask7(pageData[row][col]);
        crc := UpdateCrc(crc, byte);
      }
      assert pageData[row][..Cols] == pageData[row];
      assert PageFold(pageData, row + 1) == CrcFold(start, pageData[row]);
    }
  }

  /** The rows laid end to end. */
  function RowsUpTo(page: Grid, n: nat): (s: seq<int>)
    requires n <= Rows
    ensures |s| == Cols * n
  {
    if n == 0 then [] else RowsUpTo(page, n - 1) + page[n - 1]
  }

  lemma {:induction false} PageFoldIsRowFold(page: Grid, n: nat)
    requires n <= Rows
    ensures PageFold(page, n) == CrcFold(InitialValue, RowsUpTo(page, n))
  {
    if n > 0 {
      PageFoldIsRowFold(page, n - 1);
      CrcFoldAppend(InitialValue, RowsUpTo(page, n - 1), page[n - 1]);
    }
  }

  lemma {:induction false} RowsUpToFlatten(page: Grid, n: nat)
    requires n <= Rows
    ensures RowsUpTo(page, n) == Flatten(page)[..Cols * n]
  {
    if n > 0 {
      RowsUpToFlatten(page, n - 1);
      var f := Flatten(page);
      forall k | 0 <= k < Cols * n
        ensures RowsUpTo(page, n)[k] == f[k]
      {
        if k >= Cols * (n - 1) {
          assert k / Cols == n - 1 && k % Cols == k - Cols * (n - 1);
        }
      }
    }
  }

  /** The page CRC is the row CRC of the page's 1000 cells in row-major
      order. */
  lemma PageCrcIsRowCrc(page: Grid)
    ensures PageFold(page, Rows) == CrcFold(InitialValue, Flatten(page))
  {
    PageFoldIsRowFold(page, Rows);
    RowsUpToFlatten(page, Rows);
    assert Flatten(page)[..Cols * Rows] == Flatten(page);
  }

  /** Cells that agree in their low seven bits give the same CRC. */
  lemma {:induction false} HighBitsIgnored(reg: Register, s: seq<int>, t: seq<int>)
    requires |s| == |t| && forall i :: 0 <= i < |s| ==> Mask7(s[i]) == Mask7(t[i])
    ensures CrcFold(reg, s) == CrcFold(reg, t)
  {
    if s != [] {
      HighBitsIgnored(reg, s[..|s| - 1], t[..|t| - 1]);
    }
  }

  /** A byte through the register bit by bit, given the register after each
      of its eight bits (most significant bit first). */
  lemma ByteFromSteps(reg: Register, b: int, r1: Register, r2: Register, r3: Register, r4: Register,
                      r5: Register, r6: Register, r7: Register, r8: Register)
    requires CrcStep(reg, Bit(b, 7)) == r1 && CrcStep(r1, Bit(b, 6)) == r2
    requires CrcStep(r2, Bit(b, 5)) == r3 && CrcStep(r3, Bit(b, 4)) == r4
    requires CrcStep(r4, Bit(b, 3)) == r5 && CrcStep(r5, Bit(b, 2)) == r6
    requires CrcStep(r6, Bit(b, 1)) == r7 && CrcStep(r7, Bit(b, 0)) == r8
    ensures CrcByte(reg, b) == r8
  {
    assert CrcBits(reg, b, 1) == r1;
    assert CrcBits(reg, b, 2) == r2;
    assert CrcBits(reg, b, 3) == r3;
    assert CrcBits(reg, b, 4) == r4;
    assert CrcBits(reg, b, 5) == r5;
    assert CrcBits(reg, b, 6) == r6;
    assert CrcBits(reg, b, 7) == r7;
  }

  /** The register after each character of the standard check string
      "123456789", one lemma per character. */
  lemma CheckDigit1(reg: Register, b: int)
    requires reg == 0xFFFF && b == '1' as int
    ensures CrcByte(reg, b) == 0xC782
  {
    ByteFromSteps(reg, b, 0xEFDF, 0xCF9F, 0x9F3E, 0x3E7C, 0x7CF8, 0xF9F0, 0xE3C1, 0xC782);
  }

  lemma CheckDigit2(reg: Register, b: int)
    requires reg == 0xC782 && b == '2' as int
    ensures CrcByte(reg, b) == 0x3DBA
  {
    ByteFromSteps(reg, b, 0x9F25, 0x2E6B, 0x4CF7, 0x89CF, 0x03BF, 0x077E, 0x1EDD, 0x3DBA);
  }

  lemma CheckDigit3(reg: Register, b: int)
    requires reg == 0x3DBA && b == '3' as int
    ensures CrcByte(reg, b) == 0x5BCE
  {
    ByteFromSteps(reg, b, 0x7B74, 0xF6E8, 0xEDD0, 0xDBA0, 0xA761, 0x5EE3, 0xADE7, 0x5BCE);
  }

  lemma CheckDigit4(reg: Register, b: int)
    requires reg == 0x5BCE && b == '4' as int
    ensures CrcByte(reg, b) == 0x5349
  {
    ByteFromSteps(reg, b, 0xB79C, 0x7F19, 0xEE13, 0xDC26, 0xA86D, 0x50DA, 0xA1B4, 0x5349);
  }

  lemma CheckDigit5(reg: Register, b: int)
    requires reg == 0x5349 && b == '5' as int
    ensures CrcByte(reg, b) == 0x4560
  {
    ByteFromSteps(reg, b, 0xA692, 0x5D05, 0xAA2B, 0x5456, 0xA8AC, 0x5158, 0xA2B0, 0x4560);
  }

  lemma CheckDigit6(reg: Register, b: int)
    requires reg == 0x4560 && b == '6' as int
    ensures CrcByte(reg, b) == 0x2EF4
  {
    ByteFromSteps(reg, b, 0x8AC0, 0x05A1, 0x1B63, 0x26E7, 0x4DCE, 0x8BBD, 0x177A, 0x2EF4);
  }

  lemma CheckDigit7(reg: Register, b: int)
    requires reg == 0x2EF4 && b == '7' as int
    ensures CrcByte(reg, b) == 0x7718
  {
    ByteFromSteps(reg, b, 0x5DE8, 0xBBD0, 0x77A0, 0xFF61, 0xEEE3, 0xDDC6, 0xBB8C, 0x7718);
  }

  lemma CheckDigit8(reg: Register, b: int)
    requires reg == 0x7718 && b == '8' as int
    ensures CrcByte(reg, b) == 0xA12B
  {
    ByteFromSteps(reg, b, 0xEE30, 0xCC41, 0x9882, 0x3104, 0x7229, 0xE452, 0xD885, 0xA12B);
  }

  lemma CheckDigit9(reg: Register, b: int)
    requires reg == 0xA12B && b == '9' as int
    ensures CrcByte(reg, b) == 0x29B1
  {
    ByteFromSteps(reg, b, 0x5277, 0xA4EE, 0x49DC, 0x8399, 0x0732, 0x0E64, 0x1CC8, 0x29B1);
  }

  /** The CRC-16/CCITT-FALSE check value: the character codes of
      "123456789" give 0x29B1. */
  lemma CheckValue(s: seq<int>)
    requires |s| == 9 && forall i :: 0 <= i < 9 ==> s[i] == '1' as int + i
    ensures CrcFold(InitialValue, s) == 0x29B1
  {
    assert s[..0] == [];
    assert s[..1][..0] == s[..0];
    CheckDigit1(CrcFold(InitialValue, s[..0]), Mask7(s[0]));
    assert s[..2][..1] == s[..1];
    CheckDigit2(CrcFold(InitialValue, s[..1]), Mask7(s[1]));
    assert s[..3][..2] == s[..2];
    CheckDigit3(CrcFold(InitialValue, s[..2]), Mask7(s[2]));
    assert s[..4][..3] == s[..3];
    CheckDigit4(CrcFold(InitialValue, s[..3]), Mask7(s[3]));
    assert s[..5][..4] == s[..4];
    CheckDigit5(CrcFold(InitialValue, s[..4]), Mask7(s[4]));
    assert s[..6][..5] == s[..5];
    CheckDigit6(CrcFold(InitialValue, s[..5]), Mask7(s[5]));
    assert s[..7][..6] == s[..6];
    CheckDigit7(CrcFold(InitialValue, s[..6]), Mask7(s[6]));
    assert s[..8][..7] == s[..7];
    CheckDigit8(CrcFold(InitialValue, s[..7]), Mask7(s[7]));
    assert s[..9][..8] == s[..8];
    CheckDigit9(CrcFold(InitialValue, s[..8]), Mask7(s[8]));
    assert s[..9] == s;
  }

  /** `verifyCRC`: whether the page's CRC is the expected value. */
  method VerifyCrc(pageData: Grid, expectedCrc: int) returns (ok: bool)
    ensures ok <==> expectedCrc == CrcFold(InitialValue, Flatten(pageData))
  {
    var calculated := CalculateCrc(pageData);
    PageCrcIsRowCrc(pageData);
    ok := calculated == expectedCrc;
  }

  /** `extractEmbeddedCRC`: no format embeds a CRC, so there is never one. */
  function ExtractEmbeddedCrc(pageData: Grid): (r: Option<int>)
    ensures r == None
  {
    None
  }
}
