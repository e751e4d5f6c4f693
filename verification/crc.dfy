/** CRC-16 with polynomial x^16 + x^12 + x^5 + 1, initial value 0xFFFF, most significant bit first. */
module Crc16 {
  import opened Words
  import opened WordBits

  type Octet = bv8

  const POLYNOMIAL: Word := 0x1021
  const INIT: Word := 0xFFFF

  predicate TopBit(x: Word) {
    x & 0x8000 == 0x8000
  }

  /** One bit: shift, and subtract the polynomial if the leading bit falls out. */
  function BitStep(x: Word): Word {
    if TopBit(x) then Xor(Left(x), POLYNOMIAL) else Left(x)
  }

  function BitSteps(n: nat, x: Word): Word {
    if n == 0 then x else BitStep(BitSteps(n - 1, x))
  }

  /** A byte in the upper half of a word. */
  function High(b: Octet): Word {
    (b as Word) << 8
  }

  function ByteStep(c: Word, b: Octet): Word {
    BitSteps(8, Xor(c, High(b)))
  }

  function Update(c: Word, s: seq<Octet>): Word {
    if s == [] then c else ByteStep(Update(c, s[..|s| - 1]), s[|s| - 1])
  }

  /** The CRC of a buffer. */
  function Crc(s: seq<Octet>): Word {
    Update(INIT, s)
  }

  function UpperByte(c: Word): Octet {
    (c >> 8) as Octet
  }

  function LowerByte(c: Word): Octet {
    (c & 0xFF) as Octet
  }

  /** The CRC as it is sent: its upper byte first. */
  function Trailer(c: Word): seq<Octet> {
    [UpperByte(c), LowerByte(c)]
  }

  /* ---- facts about bits ---- */

  lemma LeftXor(x: Word, y: Word)
    ensures Left(Xor(x, y)) == Xor(Left(x), Left(y))
  {
    assert (x ^ y) << 1 == (x << 1) ^ (y << 1);
  }

  lemma TopXor(x: Word, y: Word)
    ensures TopBit(Xor(x, y)) == (TopBit(x) != TopBit(y))
  {
    assert (x ^ y) & 0x8000 == (x & 0x8000) ^ (y & 0x8000);
  }

  /** One bit is linear. */
  lemma BitStepXor(x: Word, y: Word)
    ensures BitStep(Xor(x, y)) == Xor(BitStep(x), BitStep(y))
  {
    hide Xor, Left, TopBit;
    LeftXor(x, y);
    TopXor(x, y);
    var a, b := Left(x), Left(y);
    if TopBit(x) && TopBit(y) {
      XorSwap(a, POLYNOMIAL, b, POLYNOMIAL);
      XorUnit(POLYNOMIAL);
      XorUnit(Xor(a, b));
    } else if TopBit(x) {
      XorAssoc(a, b, POLYNOMIAL);
      XorComm(b, POLYNOMIAL);
      XorAssoc(a, POLYNOMIAL, b);
    } else if TopBit(y) {
      XorAssoc(a, b, POLYNOMIAL);
    }
  }

  lemma {:induction false} BitStepsXor(n: nat, x: Word, y: Word)
    ensures BitSteps(n, Xor(x, y)) == Xor(BitSteps(n, x), BitSteps(n, y))
  {
    hide Xor, BitStep;
    if n > 0 {
      BitStepsXor(n - 1, x, y);
      BitStepXor(BitSteps(n - 1, x), BitSteps(n - 1, y));
    }
  }

  lemma BitStepNonzero(x: Word)
    requires x != 0
    ensures BitStep(x) != 0
  {
    if TopBit(x) {
      assert ((x << 1) ^ 0x1021) & 1 == 1;
    } else {
      assert x & 0x7FFF == x;
    }
  }

  lemma {:induction false} BitStepsNonzero(n: nat, x: Word)
    requires x != 0
    ensures BitSteps(n, x) != 0
  {
    hide BitStep;
    if n > 0 {
      BitStepsNonzero(n - 1, x);
      BitStepNonzero(BitSteps(n - 1, x));
    }
  }

  lemma {:induction false} BitStepsZero(n: nat)
    ensures BitSteps(n, 0) == 0
  {
    if n > 0 {
      BitStepsZero(n - 1);
    }
  }

  /** The lower half of a word, and the word as halves. */
  function Low(b: Octet): Word {
    b as Word
  }

  lemma Halves(c: Word)
    ensures c == Xor(High(UpperByte(c)), Low(LowerByte(c)))
  {}

  lemma ShiftsOut(n: nat, x: Word, y: Word)
    requires BitSteps(n, x) == y && !TopBit(y)
    ensures BitSteps(n + 1, x) == Left(y)
  {}

  lemma LeftAgain(x: Word)
    ensures Left(x) == x << 1 && Left(x << 1) == x << 2 && Left(x << 2) == x << 3 && Left(x << 3) == x << 4
    ensures Left(x << 4) == x << 5 && Left(x << 5) == x << 6 && Left(x << 6) == x << 7 && Left(x << 7) == x << 8
  {}

  lemma LowBits(x: Word)
    requires x & 0xFF00 == 0
    ensures !TopBit(x) && !TopBit(x << 1) && !TopBit(x << 2) && !TopBit(x << 3)
    ensures !TopBit(x << 4) && !TopBit(x << 5) && !TopBit(x << 6) && !TopBit(x << 7)
  {}

  lemma LowIsLow(b: Octet)
    ensures Low(b) & 0xFF00 == 0 && High(b) == Low(b) << 8
  {}

  /** While only zero bits fall out, the steps only shift. */
  lemma LowShifts(b: Octet)
    ensures BitSteps(8, Low(b)) == High(b)
  {
    var x := Low(b);
    assert BitSteps(0, x) == x;
    LowIsLow(b);
    LowBits(x);
    LeftAgain(x);
    hide BitSteps, TopBit, Low, High, Left;
    ShiftsOut(0, x, x);
    ShiftsOut(1, x, x << 1);
    ShiftsOut(2, x, x << 2);
    ShiftsOut(3, x, x << 3);
    ShiftsOut(4, x, x << 4);
    ShiftsOut(5, x, x << 5);
    ShiftsOut(6, x, x << 6);
    ShiftsOut(7, x, x << 7);
  }

  /* ---- the table ---- */

  /** What a byte in the upper half becomes after eight bits. */
  function Entry(i: Octet): Word {
    BitSteps(8, High(i))
  }

  lemma HighXor(a: Octet, b: Octet)
    ensures High(a ^ b) == Xor(High(a), High(b))
  {}

  /** One lookup does the work of eight bits. */
  lemma TableStep(c: Word, b: Octet)
    ensures ByteStep(c, b) == Xor(High(LowerByte(c)), Entry(UpperByte(c) ^ b))
  {
    hide Xor, High, Low, UpperByte, LowerByte, BitSteps;
    var u, l := UpperByte(c), LowerByte(c);
    Halves(c);
    HighXor(u, b);
    XorComm(High(u), Low(l));
    XorAssoc(Low(l), High(u), High(b));
    BitStepsXor(8, Low(l), High(u ^ b));
    LowShifts(l);
  }

  /* ---- the trailer ---- */

  lemma OwnUpper(c: Word)
    ensures Xor(c, High(UpperByte(c))) == Low(LowerByte(c))
  {}

  /** A buffer followed by its CRC has CRC zero. */
  lemma TrailerClears(c: Word)
    ensures ByteStep(ByteStep(c, UpperByte(c)), LowerByte(c)) == 0
  {
    hide Xor, High, Low, UpperByte, LowerByte, BitSteps;
    OwnUpper(c);
    LowShifts(LowerByte(c));
    XorUnit(High(LowerByte(c)));
    BitStepsZero(8);
  }

  lemma UpdateSnoc(c: Word, s: seq<Octet>, b: Octet)
    ensures Update(c, s + [b]) == ByteStep(Update(c, s), b)
  {
    assert (s + [b])[..|s|] == s;
  }

  lemma {:induction false} UpdateAppend(c: Word, s: seq<Octet>, t: seq<Octet>)
    ensures Update(c, s + t) == Update(Update(c, s), t)
  {
    hide ByteStep;
    if t == [] {
      assert s + t == s;
    } else {
      var f := t[..|t| - 1];
      assert s + t == (s + f) + [t[|t| - 1]];
      UpdateSnoc(c, s + f, t[|t| - 1]);
      UpdateAppend(c, s, f);
    }
  }

  lemma UpdateTwo(c: Word, a: Octet, b: Octet)
    ensures Update(c, [a, b]) == ByteStep(ByteStep(c, a), b)
  {
    hide ByteStep;
    assert [a, b][..1] == [a] && [a][..0] == [];
    assert Update(c, [a]) == ByteStep(c, a);
  }

  /* ---- differences ---- */

  lemma ByteStepDiff(c: Word, d: Word, a: Octet, b: Octet)
    ensures Xor(ByteStep(c, a), ByteStep(d, b)) == BitSteps(8, Xor(Xor(c, d), High(a ^ b)))
  {
    hide Xor, High, BitSteps;
    BitStepsXor(8, Xor(c, High(a)), Xor(d, High(b)));
    XorSwap(c, High(a), d, High(b));
    HighXor(a, b);
  }

  lemma OctetSelf(b: Octet)
    ensures b ^ b == 0 && High(0) == 0
  {}

  /** Two states that differ still differ after the same bytes. */
  lemma {:induction false} DifferOn(c: Word, d: Word, t: seq<Octet>)
    requires c != d
    ensures Update(c, t) != Update(d, t)
  {
    hide ByteStep;
    if t != [] {
      DifferOn(c, d, t[..|t| - 1]);
      StepDiffers(Update(c, t[..|t| - 1]), Update(d, t[..|t| - 1]), t[|t| - 1]);
    }
  }

  lemma StepDiffers(c: Word, d: Word, b: Octet)
    requires c != d
    ensures ByteStep(c, b) != ByteStep(d, b)
  {
    hide Xor, High, BitSteps, ByteStep;
    ByteStepDiff(c, d, b, b);
    OctetSelf(b);
    XorUnit(Xor(c, d));
    if Xor(c, d) == 0 {
      XorCancel(c, d);
    }
    BitStepsNonzero(8, Xor(c, d));
    XorUnit(ByteStep(c, b));
  }

  lemma PairNonzero(x: Octet, y: Octet)
    requires x != 0 || y != 0
    ensures Xor(High(x), Low(y)) != 0
  {}

  lemma OctetDiffers(a: Octet, b: Octet)
    requires a != b
    ensures a ^ b != 0
  {}

  /** Two bytes that are not the same leave different states. */
  lemma PairDiffers(c: Word, a1: Octet, b1: Octet, a2: Octet, b2: Octet)
    requires a1 != a2 || b1 != b2
    ensures ByteStep(ByteStep(c, a1), b1) != ByteStep(ByteStep(c, a2), b2)
  {
    hide Xor, High, Low, BitSteps, ByteStep;
    var x, y := a1 ^ a2, b1 ^ b2;
    ByteStepDiff(c, c, a1, a2);
    XorUnit(c);
    XorUnit(High(x));
    var d := BitSteps(8, High(x));
    ByteStepDiff(ByteStep(c, a1), ByteStep(c, a2), b1, b2);
    LowShifts(y);
    BitStepsXor(8, High(x), Low(y));
    if a1 != a2 {
      OctetDiffers(a1, a2);
    } else {
      OctetDiffers(b1, b2);
    }
    PairNonzero(x, y);
    BitStepsNonzero(8, Xor(High(x), Low(y)));
    BitStepsNonzero(8, Xor(d, High(y)));
    XorUnit(ByteStep(ByteStep(c, a1), b1));
  }

  /** The CRC of a buffer with two bytes behind it is zero exactly if these are its own CRC. */
  lemma ResidueExact(s: seq<Octet>, a: Octet, b: Octet)
    ensures Crc(s + [a, b]) == 0 <==> [a, b] == Trailer(Crc(s))
  {
    hide ByteStep, UpperByte, LowerByte, Update;
    var c := Crc(s);
    UpdateAppend(INIT, s, [a, b]);
    UpdateTwo(c, a, b);
    TrailerClears(c);
    if a != UpperByte(c) || b != LowerByte(c) {
      PairDiffers(c, a, b, UpperByte(c), LowerByte(c));
    }
  }

  lemma ByteDiffers(c: Word, a: Octet, b: Octet)
    requires a != b
    ensures ByteStep(c, a) != ByteStep(c, b)
  {
    if ByteStep(c, a) == ByteStep(c, b) {
      PairDiffers(c, a, 0, b, 0);
    }
  }

  /** Buffers that differ, but only within two adjacent bytes, have different CRCs. */
  lemma BurstDetected(s: seq<Octet>, t: seq<Octet>, i: nat)
    requires |s| == |t| && i < |s| && s != t
    requires forall k :: 0 <= k < |s| && k != i && k != i + 1 ==> s[k] == t[k]
    ensures Crc(s) != Crc(t)
  {
    hide ByteStep, Update;
    var front := s[..i];
    var c := Update(INIT, front);
    assert t[..i] == front;
    if i + 1 == |s| {
      assert s == front + [s[i]] && t == front + [t[i]];
      UpdateSnoc(INIT, front, s[i]);
      UpdateSnoc(INIT, front, t[i]);
      ByteDiffers(c, s[i], t[i]);
    } else {
      var back := s[i + 2..];
      assert t[i + 2..] == back;
      assert s == front + [s[i], s[i + 1]] + back && t == front + [t[i], t[i + 1]] + back;
      UpdateAppend(INIT, front, [s[i], s[i + 1]]);
      UpdateAppend(INIT, front, [t[i], t[i + 1]]);
      UpdateAppend(INIT, front + [s[i], s[i + 1]], back);
      UpdateAppend(INIT, front + [t[i], t[i + 1]], back);
      UpdateTwo(c, s[i], s[i + 1]);
      UpdateTwo(c, t[i], t[i + 1]);
      PairDiffers(c, s[i], s[i + 1], t[i], t[i + 1]);
      DifferOn(ByteStep(ByteStep(c, s[i]), s[i + 1]), ByteStep(ByteStep(c, t[i]), t[i + 1]), back);
    }
  }
}
