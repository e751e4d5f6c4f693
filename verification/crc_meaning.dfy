/** The CRC of the host link as polynomial division. */
module CrcMeaning {
  import opened Words
  import opened WordBits
  import opened Crc16
  import opened Division

  /** x^12 + x^5 + 1, below x^16. */
  const DIVISOR: Bits :=
    [ false, false, false, true, false, false, false, false, false, false, true, false, false, false, false, true ]

  /** Bits in the order of transmission: the most significant one first. */
  function OctetBits(b: Octet): (r: Bits)
    ensures |r| == 8
  {
    seq(8, i requires 0 <= i < 8 => Is(b, 7 - i))
  }

  function StreamBits(s: seq<Octet>): (r: Bits)
    ensures |r| == 8 * |s|
  {
    if s == [] then [] else StreamBits(s[..|s| - 1]) + OctetBits(s[|s| - 1])
  }

  function BitsOf(c: Word): (r: Bits)
    ensures |r| == 16
  {
    seq(16, i requires 0 <= i < 16 => At(c, 15 - i))
  }

  lemma XorIs(x: Word, y: Word)
    ensures BitsOf(Xor(x, y)) == XorBits(BitsOf(x), BitsOf(y))
  {
    hide At, Xor;
    forall i | 0 <= i < 16
      ensures BitsOf(Xor(x, y))[i] == (BitsOf(x)[i] != BitsOf(y)[i])
    {
      XorAt(x, y, 15 - i);
    }
  }

  lemma LeftIs(x: Word)
    ensures BitsOf(Left(x)) == BitsOf(x)[1..] + [false]
  {
    hide At, Left;
    forall i | 0 <= i < 16
      ensures BitsOf(Left(x))[i] == (i < 15 && BitsOf(x)[i + 1])
    {
      LeftAt(x, 15 - i);
    }
  }

  lemma TopAt(x: Word)
    ensures TopBit(x) <==> At(x, 15)
  {}

  lemma TopIs(x: Word)
    ensures TopBit(x) <==> BitsOf(x)[0]
  {
    hide At, TopBit;
    TopAt(x);
  }

  lemma PolynomialIs()
    ensures BitsOf(POLYNOMIAL) == DIVISOR && BitsOf(INIT) == Ones(16)
  {}

  lemma HighAt(b: Octet, i: nat)
    requires i < 16
    ensures At(High(b), i) == (i >= 8 && Is(b, i - 8))
  {}

  lemma HighIs(b: Octet)
    ensures BitsOf(High(b)) == OctetBits(b) + Zeros(8)
  {
    hide At, Is, High;
    forall i | 0 <= i < 16
      ensures BitsOf(High(b))[i] == (i < 8 && OctetBits(b)[i])
    {
      HighAt(b, 15 - i);
    }
  }

  lemma TrailerAt(c: Word, i: nat)
    requires i < 8
    ensures Is(UpperByte(c), i) == At(c, i + 8) && Is(LowerByte(c), i) == At(c, i)
  {}

  lemma TrailerIs(c: Word)
    ensures OctetBits(UpperByte(c)) + OctetBits(LowerByte(c)) == BitsOf(c)
  {
    hide At, Is, UpperByte, LowerByte;
    forall i | 0 <= i < 8
      ensures OctetBits(UpperByte(c))[i] == BitsOf(c)[i] && OctetBits(LowerByte(c))[i] == BitsOf(c)[8 + i]
    {
      TrailerAt(c, 7 - i);
    }
  }

  lemma BitStepIs(x: Word)
    ensures BitsOf(BitStep(x)) == Shift(BitsOf(x), false, DIVISOR)
  {
    hide BitsOf, Xor, Left, TopBit, POLYNOMIAL, DIVISOR;
    XorIs(Left(x), POLYNOMIAL);
    LeftIs(x);
    TopIs(x);
    PolynomialIs();
  }

  lemma {:induction false} BitStepsAre(n: nat, x: Word)
    ensures BitsOf(BitSteps(n, x)) == ShiftAll(BitsOf(x), Zeros(n), DIVISOR)
  {
    hide BitsOf, BitStep, Shift;
    if n > 0 {
      BitStepsAre(n - 1, x);
      BitStepIs(BitSteps(n - 1, x));
      assert Zeros(n) == Zeros(n - 1) + [false];
      ShiftAllAppend(BitsOf(x), Zeros(n - 1), [false], DIVISOR);
      ShiftOne(BitsOf(BitSteps(n - 1, x)), DIVISOR);
    }
  }

  lemma ByteStepIs(c: Word, b: Octet)
    ensures BitsOf(ByteStep(c, b)) == ShiftAll(BitsOf(c), OctetBits(b), DIVISOR)
  {
    hide BitsOf, OctetBits, Xor, High, BitSteps, ShiftAll, XorFront, DIVISOR;
    XorIs(c, High(b));
    HighIs(b);
    FrontIs(BitsOf(c), OctetBits(b));
    BitStepsAre(8, Xor(c, High(b)));
    ShiftTogether(BitsOf(c), OctetBits(b), DIVISOR);
  }

  lemma {:induction false} UpdateIs(c: Word, s: seq<Octet>)
    ensures BitsOf(Update(c, s)) == ShiftAll(BitsOf(c), StreamBits(s), DIVISOR)
  {
    hide BitsOf, OctetBits, ByteStep, DIVISOR;
    if s != [] {
      var t := s[..|s| - 1];
      UpdateIs(c, t);
      ByteStepIs(Update(c, t), s[|s| - 1]);
      ShiftAllAppend(BitsOf(c), StreamBits(t), OctetBits(s[|s| - 1]), DIVISOR);
    }
  }

  /** The two bytes that follow a buffer are the remainder that it leaves, with its first 16 bits inverted and 16
      zeros behind it, when it is divided by x^16 + x^12 + x^5 + 1. */
  lemma TrailerIsRemainder(s: seq<Octet>)
    ensures StreamBits(Trailer(Crc(s))) == Remainder(XorFront(StreamBits(s) + Zeros(16), Ones(16)), DIVISOR)
  {
    hide BitsOf, OctetBits, Update, UpperByte, LowerByte, XorFront, ShiftAll, DIVISOR, INIT;
    PolynomialIs();
    UpdateIs(INIT, s);
    ShiftAllIsRemainder(Ones(16), StreamBits(s), DIVISOR);
    TrailerIs(Crc(s));
    StreamTwo(UpperByte(Crc(s)), LowerByte(Crc(s)));
  }

  lemma StreamTwo(a: Octet, b: Octet)
    ensures StreamBits([a, b]) == OctetBits(a) + OctetBits(b)
  {
    hide OctetBits;
    assert [a, b][..1] == [a] && [a][..0] == [];
    assert StreamBits([a]) == OctetBits(a);
  }
}
