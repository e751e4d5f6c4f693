/** The lookup table of the CRC-16, the loop that generates it, and the two loops that compute a CRC. */
module CrcTable {
  import opened Words
  import opened Crc16

  /** Eight bits of work on a byte that has been shifted up. */
  function Worked(w: Word): Word {
    BitSteps(8, w << 8)
  }

  datatype Row = Row(
    a0: Word, a1: Word, a2: Word, a3: Word, a4: Word, a5: Word, a6: Word, a7: Word,
    a8: Word, a9: Word, a10: Word, a11: Word, a12: Word, a13: Word, a14: Word, a15: Word)
  {
    function At(j: Word): Word {
      if j == 0 then a0 else if j == 1 then a1 else if j == 2 then a2 else if j == 3 then a3
      else if j == 4 then a4 else if j == 5 then a5 else if j == 6 then a6 else if j == 7 then a7
      else if j == 8 then a8 else if j == 9 then a9 else if j == 10 then a10 else if j == 11 then a11
      else if j == 12 then a12 else if j == 13 then a13 else if j == 14 then a14 else a15
    }
  }

  /** The table, sixteen entries to a row. */
  function RowAt(h: Word): Row {
    if h < 8 then LowerRow(h) else UpperRow(h)
  }

  function LowerRow(h: Word): Row {
    if h == 0 then
      Row(0x0000, 0x1021, 0x2042, 0x3063, 0x4084, 0x50A5, 0x60C6, 0x70E7,
          0x8108, 0x9129, 0xA14A, 0xB16B, 0xC18C, 0xD1AD, 0xE1CE, 0xF1EF)
    else if h == 1 then
      Row(0x1231, 0x0210, 0x3273, 0x2252, 0x52B5, 0x4294, 0x72F7, 0x62D6,
          0x9339, 0x8318, 0xB37B, 0xA35A, 0xD3BD, 0xC39C, 0xF3FF, 0xE3DE)
    else if h == 2 then
      Row(0x2462, 0x3443, 0x0420, 0x1401, 0x64E6, 0x74C7, 0x44A4, 0x5485,
          0xA56A, 0xB54B, 0x8528, 0x9509, 0xE5EE, 0xF5CF, 0xC5AC, 0xD58D)
    else if h == 3 then
      Row(0x3653, 0x2672, 0x1611, 0x0630, 0x76D7, 0x66F6, 0x5695, 0x46B4,
          0xB75B, 0xA77A, 0x9719, 0x8738, 0xF7DF, 0xE7FE, 0xD79D, 0xC7BC)
    else if h == 4 then
      Row(0x48C4, 0x58E5, 0x6886, 0x78A7, 0x0840, 0x1861, 0x2802, 0x3823,
          0xC9CC, 0xD9ED, 0xE98E, 0xF9AF, 0x8948, 0x9969, 0xA90A, 0xB92B)
    else if h == 5 then
      Row(0x5AF5, 0x4AD4, 0x7AB7, 0x6A96, 0x1A71, 0x0A50, 0x3A33, 0x2A12,
          0xDBFD, 0xCBDC, 0xFBBF, 0xEB9E, 0x9B79, 0x8B58, 0xBB3B, 0xAB1A)
    else if h == 6 then
      Row(0x6CA6, 0x7C87, 0x4CE4, 0x5CC5, 0x2C22, 0x3C03, 0x0C60, 0x1C41,
          0xEDAE, 0xFD8F, 0xCDEC, 0xDDCD, 0xAD2A, 0xBD0B, 0x8D68, 0x9D49)
    else
      Row(0x7E97, 0x6EB6, 0x5ED5, 0x4EF4, 0x3E13, 0x2E32, 0x1E51, 0x0E70,
          0xFF9F, 0xEFBE, 0xDFDD, 0xCFFC, 0xBF1B, 0xAF3A, 0x9F59, 0x8F78)
  }

  function UpperRow(h: Word): Row {
    if h == 8 then
      Row(0x9188, 0x81A9, 0xB1CA, 0xA1EB, 0xD10C, 0xC12D, 0xF14E, 0xE16F,
          0x1080, 0x00A1, 0x30C2, 0x20E3, 0x5004, 0x4025, 0x7046, 0x6067)
    else if h == 9 then
      Row(0x83B9, 0x9398, 0xA3FB, 0xB3DA, 0xC33D, 0xD31C, 0xE37F, 0xF35E,
          0x02B1, 0x1290, 0x22F3, 0x32D2, 0x4235, 0x5214, 0x6277, 0x7256)
    else if h == 10 then
      Row(0xB5EA, 0xA5CB, 0x95A8, 0x8589, 0xF56E, 0xE54F, 0xD52C, 0xC50D,
          0x34E2, 0x24C3, 0x14A0, 0x0481, 0x7466, 0x6447, 0x5424, 0x4405)
    else if h == 11 then
      Row(0xA7DB, 0xB7FA, 0x8799, 0x97B8, 0xE75F, 0xF77E, 0xC71D, 0xD73C,
          0x26D3, 0x36F2, 0x0691, 0x16B0, 0x6657, 0x7676, 0x4615, 0x5634)
    else if h == 12 then
      Row(0xD94C, 0xC96D, 0xF90E, 0xE92F, 0x99C8, 0x89E9, 0xB98A, 0xA9AB,
          0x5844, 0x4865, 0x7806, 0x6827, 0x18C0, 0x08E1, 0x3882, 0x28A3)
    else if h == 13 then
      Row(0xCB7D, 0xDB5C, 0xEB3F, 0xFB1E, 0x8BF9, 0x9BD8, 0xABBB, 0xBB9A,
          0x4A75, 0x5A54, 0x6A37, 0x7A16, 0x0AF1, 0x1AD0, 0x2AB3, 0x3A92)
    else if h == 14 then
      Row(0xFD2E, 0xED0F, 0xDD6C, 0xCD4D, 0xBDAA, 0xAD8B, 0x9DE8, 0x8DC9,
          0x7C26, 0x6C07, 0x5C64, 0x4C45, 0x3CA2, 0x2C83, 0x1CE0, 0x0CC1)
    else
      Row(0xEF1F, 0xFF3E, 0xCF5D, 0xDF7C, 0xAF9B, 0xBFBA, 0x8FD9, 0x9FF8,
          0x6E17, 0x7E36, 0x4E55, 0x5E74, 0x2E93, 0x3EB2, 0x0ED1, 0x1EF0)
  }

  function Lookup(w: Word): Word {
    RowAt(w >> 4).At(w & 0xF)
  }

  /** A row is the first one, with its head added to every entry. */
  predicate Regular(r: Row) {
    && r.a1 == Xor(r.a0, 0x1021) && r.a2 == Xor(r.a0, 0x2042) && r.a3 == Xor(r.a0, 0x3063)
    && r.a4 == Xor(r.a0, 0x4084) && r.a5 == Xor(r.a0, 0x50A5) && r.a6 == Xor(r.a0, 0x60C6)
    && r.a7 == Xor(r.a0, 0x70E7) && r.a8 == Xor(r.a0, 0x8108) && r.a9 == Xor(r.a0, 0x9129)
    && r.a10 == Xor(r.a0, 0xA14A) && r.a11 == Xor(r.a0, 0xB16B) && r.a12 == Xor(r.a0, 0xC18C)
    && r.a13 == Xor(r.a0, 0xD1AD) && r.a14 == Xor(r.a0, 0xE1CE) && r.a15 == Xor(r.a0, 0xF1EF)
  }

  lemma {:induction false} StepsCommute(n: nat, x: Word)
    ensures BitSteps(n, BitStep(x)) == BitStep(BitSteps(n, x))
  {
    hide BitStep;
    if n > 0 {
      StepsCommute(n - 1, x);
    }
  }

  lemma SevenBits(w: Word)
    requires w & 0xFF80 == 0
    ensures BitStep(w << 8) == (w << 1) << 8
    ensures ((w << 1) | 1) << 8 == Xor((w << 1) << 8, 0x100)
  {
    assert !TopBit(w << 8);
  }

  /** The entry at 2w, and the one behind it, from the entry at w. */
  lemma Doubling(w: Word)
    requires w & 0xFF80 == 0
    ensures Worked(w << 1) == BitStep(Worked(w))
    ensures Worked((w << 1) | 1) == Xor(BitStep(Worked(w)), 0x1021)
  {
    SevenBits(w);
    hide BitStep, Xor, BitSteps, TopBit;
    StepsCommute(8, w << 8);
    BitStepsXor(8, (w << 1) << 8, 0x100);
    EntryOne();
  }

  lemma EntryOne()
    ensures BitSteps(8, 0x100) == 0x1021
  {
    LowShifts(1);
    assert Low(1) == 1 && High(1) == 0x100;
    assert BitSteps(0, 0x100) == 0x100;
    assert !TopBit(0x100) && !TopBit(0x200) && !TopBit(0x400) && !TopBit(0x800);
    assert !TopBit(0x1000) && !TopBit(0x2000) && !TopBit(0x4000) && BitStep(0x8000) == 0x1021;
    hide BitSteps, TopBit, BitStep;
    ShiftsOut(0, 0x100, 0x100);
    ShiftsOut(1, 0x100, 0x200);
    ShiftsOut(2, 0x100, 0x400);
    ShiftsOut(3, 0x100, 0x800);
    ShiftsOut(4, 0x100, 0x1000);
    ShiftsOut(5, 0x100, 0x2000);
    ShiftsOut(6, 0x100, 0x4000);
    NextStep(7, 0x100);
  }

  lemma NextStep(n: nat, x: Word)
    ensures BitSteps(n + 1, x) == BitStep(BitSteps(n, x))
  {}

  lemma LowerRegular(h: Word)
    ensures Regular(LowerRow(h))
  {}

  lemma UpperRegular(h: Word)
    ensures Regular(UpperRow(h))
  {}

  lemma RowsRegular(h: Word)
    ensures Regular(RowAt(h))
  {
    hide Regular, LowerRow, UpperRow;
    LowerRegular(h);
    UpperRegular(h);
  }

  lemma RegularAt(r: Row, j: Word)
    requires Regular(r) && j & 0xFFF0 == 0
    ensures r.At(j) == Xor(r.a0, RowAt(0).At(j))
  {
    XorUnit(r.a0);
    hide Xor;
  }

  lemma FirstRowDoubles(j: Word)
    requires j & 0xFFF8 == 0
    ensures RowAt(0).At(j << 1) == BitStep(RowAt(0).At(j))
    ensures RowAt(0).At((j << 1) | 1) == Xor(BitStep(RowAt(0).At(j)), 0x1021)
  {}

  lemma Halve(j: Word)
    requires j & 0xFFF0 == 0
    ensures (j >> 1) & 0xFFF8 == 0 && (j == (j >> 1) << 1 || j == ((j >> 1) << 1) | 1)
    ensures j != 0 ==> j >> 1 < j
  {}

  /** The first row, halving the index. */
  lemma {:induction false} FirstRow(j: Word)
    requires j & 0xFFF0 == 0
    ensures Worked(j) == RowAt(0).At(j)
  {
    if j == 0 {
      BitStepsZero(8);
    } else {
      hide RowAt, BitStep, Xor, BitSteps;
      Halve(j);
      FirstRow(j >> 1);
      Doubling(j >> 1);
      FirstRowDoubles(j >> 1);
    }
  }

  lemma LowerHeads(h: Word)
    requires h & 0xFFFC == 0
    ensures LowerRow(h << 1).a0 == BitStep(LowerRow(h).a0)
  {}

  lemma UpperHeads(h: Word)
    requires h & 0xFFFC == 4
    ensures UpperRow(h << 1).a0 == BitStep(LowerRow(h).a0)
  {}

  lemma OddLowerHeads(h: Word)
    requires h & 0xFFFC == 0
    ensures LowerRow((h << 1) | 1).a0 == Xor(LowerRow(h << 1).a0, 0x1231)
  {}

  lemma OddUpperHeads(h: Word)
    requires h & 0xFFFC == 4
    ensures UpperRow((h << 1) | 1).a0 == Xor(UpperRow(h << 1).a0, 0x1231)
  {}

  lemma HeadsDouble(h: Word)
    requires h & 0xFFF8 == 0
    ensures RowAt(h << 1).a0 == BitStep(RowAt(h).a0)
    ensures RowAt((h << 1) | 1).a0 == Xor(BitStep(RowAt(h).a0), 0x1231)
  {
    hide LowerRow, UpperRow, BitStep, Xor;
    if h & 0xFFFC == 0 {
      LowerHeads(h);
      OddLowerHeads(h);
    } else {
      UpperHeads(h);
      OddUpperHeads(h);
    }
  }

  lemma SixteenthEntry()
    ensures Worked(0x10) == 0x1231
  {
    FirstRow(8);
    assert RowAt(0).At(8) == 0x8108 && BitStep(0x8108) == 0x1231;
    hide BitStep, RowAt, Worked;
    Doubling(8);
  }

  lemma HeadHalves(h: Word, w: Word)
    requires h & 0xFFF0 == 0 && w == (h >> 1) << 4
    ensures w & 0xFF80 == 0
    ensures h == (h >> 1) << 1 ==> h << 4 == w << 1
    ensures h == ((h >> 1) << 1) | 1 ==> (h << 4) << 8 == Xor((w << 1) << 8, 0x10 << 8)
  {}

  /** The heads of the rows, halving the row number. */
  lemma {:induction false} Head(h: Word)
    requires h & 0xFFF0 == 0
    ensures Worked(h << 4) == RowAt(h).a0
  {
    if h == 0 {
      BitStepsZero(8);
    } else {
      hide RowAt, BitStep, Xor, BitSteps;
      var w := (h >> 1) << 4;
      Halve(h);
      HeadHalves(h, w);
      Head(h >> 1);
      HeadsDouble(h >> 1);
      Doubling(w);
      BitStepsXor(8, (w << 1) << 8, 0x10 << 8);
      SixteenthEntry();
    }
  }

  lemma Nibbles(w: Word)
    requires w & 0xFF00 == 0
    ensures w >> 4 < 16 && (w >> 4) & 0xFFF0 == 0 && (w & 0xF) & 0xFFF0 == 0
    ensures w << 8 == Xor(((w >> 4) << 4) << 8, (w & 0xF) << 8)
  {}

  /** The table that is written out in the source holds what eight bits of work come to. */
  lemma TableIs(w: Word)
    requires w & 0xFF00 == 0
    ensures Lookup(w) == Worked(w)
  {
    var h, j := w >> 4, w & 0xF;
    Nibbles(w);
    hide RowAt, BitSteps, Xor, Regular, Row.At;
    Head(h);
    RowsRegular(h);
    RegularAt(RowAt(h), j);
    FirstRow(j);
    BitStepsXor(8, (h << 4) << 8, j << 8);
  }
}
