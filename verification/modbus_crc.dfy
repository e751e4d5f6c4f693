/** The two bytes that end a serial Modbus message: the remainder of a polynomial division,
    section 6.2 of MODBUS over Serial Line V1.02. */
module ModbusCrc {
  import opened Bytes
  import opened Words
  import opened WordBits
  import opened Division
  import opened ModbusFrames

  /** x^15 + x^2 + 1, below x^16. */
  const DIVISOR: Bits :=
    [ true, false, false, false, false, false, false, false, false, false, false, false, false, true, false, true ]

  /** A byte as the lower half of a word. */
  function Wide(b: byte): Word {
    b as Word
  }

  /** Bits in the order of transmission: the least significant one first. */
  function ByteBits(b: byte): (r: Bits)
    ensures |r| == 8
  {
    seq(8, i requires 0 <= i < 8 => At(Wide(b), i))
  }

  function StreamBits(s: seq<byte>): (r: Bits)
    ensures |r| == 8 * |s|
  {
    if s == [] then [] else StreamBits(s[..|s| - 1]) + ByteBits(s[|s| - 1])
  }

  function BitsOf(c: Word): (r: Bits)
    ensures |r| == 16
  {
    seq(16, i requires 0 <= i < 16 => At(c, i))
  }

  lemma XorIs(x: Word, y: Word)
    ensures BitsOf(Xor(x, y)) == XorBits(BitsOf(x), BitsOf(y))
  {
    hide At, Xor;
    forall i | 0 <= i < 16
      ensures BitsOf(Xor(x, y))[i] == (BitsOf(x)[i] != BitsOf(y)[i])
    {
      XorAt(x, y, i);
    }
  }

  lemma RightIs(x: Word)
    ensures BitsOf(Right(x)) == BitsOf(x)[1..] + [false]
  {
    hide At, Right;
    forall i | 0 <= i < 16
      ensures BitsOf(Right(x))[i] == (i < 15 && BitsOf(x)[i + 1])
    {
      RightAt(x, i);
    }
  }

  lemma ConstantsAre()
    ensures BitsOf(0xA001) == DIVISOR && BitsOf(0xFFFF) == Ones(16) && BitsOf(0) == Zeros(16)
  {}

  lemma CrcBitSteps(c: Word)
    ensures CrcBit(c) == if At(c, 0) then Xor(Right(c), 0xA001) else Right(c)
  {}

  lemma CrcBitIs(c: Word)
    ensures BitsOf(CrcBit(c)) == Shift(BitsOf(c), false, DIVISOR)
  {
    hide At, Xor, Right, CrcBit, DIVISOR;
    CrcBitSteps(c);
    RightIs(c);
    XorIs(Right(c), 0xA001);
    ConstantsAre();
    assert BitsOf(c)[0] == At(c, 0);
  }

  lemma {:induction false} CrcBitsAre(n: nat, c: Word)
    ensures BitsOf(CrcBits(n, c)) == ShiftAll(BitsOf(c), Zeros(n), DIVISOR)
  {
    hide BitsOf, CrcBit, Shift;
    if n > 0 {
      CrcBitsAre(n - 1, c);
      CrcBitIs(CrcBits(n - 1, c));
      assert Zeros(n) == Zeros(n - 1) + [false];
      ShiftAllAppend(BitsOf(c), Zeros(n - 1), [false], DIVISOR);
      ShiftOne(BitsOf(CrcBits(n - 1, c)), DIVISOR);
    }
  }

  /* ---- bytes ---- */

  function Lower(c: Word): bv8 {
    (c & 0xFF) as bv8
  }

  function Upper(c: Word): bv8 {
    (c >> 8) as bv8
  }

  function Widened(o: bv8): Word {
    o as Word
  }

  lemma Widen(o: bv8)
    ensures (o as Word) as int == o as int
  {}

  lemma ByteIs(o: bv8, b: byte)
    requires o as int == b
    ensures Wide(b) == Widened(o)
  {
    Widen(o);
    WordIs(o as Word, b);
  }

  lemma HighBitsOff(o: bv8, i: nat)
    requires 8 <= i < 16
    ensures !At(Widened(o), i)
  {}

  lemma ByteBitsAre(b: byte)
    ensures BitsOf(Wide(b)) == ByteBits(b) + Zeros(8)
  {
    var o := OctetFor(b);
    ByteIs(o, b);
    hide At, Wide, Widened;
    forall i | 8 <= i < 16
      ensures BitsOf(Wide(b))[i] == Zeros(8)[i - 8]
    {
      HighBitsOff(o, i);
    }
  }

  lemma CrcByteIs(c: Word, b: byte)
    ensures BitsOf(CrcByte(c, b)) == ShiftAll(BitsOf(c), ByteBits(b), DIVISOR)
  {
    CrcByteSteps(c, b);
    hide BitsOf, ByteBits, Xor, Wide, CrcByte, CrcBits, ShiftAll, XorFront, DIVISOR;
    XorIs(c, Wide(b));
    ByteBitsAre(b);
    FrontIs(BitsOf(c), ByteBits(b));
    CrcBitsAre(8, Xor(c, Wide(b)));
    ShiftTogether(BitsOf(c), ByteBits(b), DIVISOR);
  }

  lemma CrcByteSteps(c: Word, b: byte)
    ensures CrcByte(c, b) == CrcBits(8, Xor(c, Wide(b)))
  {
    hide CrcBits;
  }

  lemma {:induction false} CrcFoldIs(s: seq<byte>)
    ensures BitsOf(CrcFold(s)) == ShiftAll(Ones(16), StreamBits(s), DIVISOR)
  {
    hide BitsOf, ByteBits, CrcByte, DIVISOR;
    if s == [] {
      ConstantsAre();
    } else {
      var t := s[..|s| - 1];
      CrcFoldIs(t);
      CrcByteIs(CrcFold(t), s[|s| - 1]);
      ShiftAllAppend(Ones(16), StreamBits(t), ByteBits(s[|s| - 1]), DIVISOR);
    }
  }

  /* ---- the trailer ---- */

  lemma SwappedHalves(c: Word)
    ensures Swapped(c) == (((Lower(c) as Word) << 8) | Upper(c) as Word) as int
  {}

  function Number(o: bv8): (n: nat)
    ensures n < 256
  {
    o as int
  }

  lemma SwappedIs(c: Word)
    ensures Swapped(c) == Number(Lower(c)) * 256 + Number(Upper(c))
  {
    SwappedHalves(c);
    JoinHalves(Lower(c), Upper(c));
    hide Lower, Upper, Swapped;
  }

  /** The CRC goes out with its lower byte first. */
  lemma FooterBytes(m: seq<byte>)
    ensures Footer(Rtu, m) == [Number(Lower(CrcFold(m))), Number(Upper(CrcFold(m)))]
  {
    hide CrcFold, Swapped, Lower, Upper, Number;
    SwappedIs(CrcFold(m));
  }

  lemma HalfAt(c: Word, i: nat)
    requires i < 8
    ensures At(Widened(Lower(c)), i) == At(c, i) && At(Widened(Upper(c)), i) == At(c, i + 8)
  {}

  lemma HalvesAre(c: Word, lower: byte, upper: byte)
    requires lower == Number(Lower(c)) && upper == Number(Upper(c))
    ensures ByteBits(lower) + ByteBits(upper) == BitsOf(c)
  {
    ByteIs(Lower(c), lower);
    ByteIs(Upper(c), upper);
    hide At, Lower, Upper, Wide, Widened;
    forall i | 0 <= i < 8
      ensures ByteBits(lower)[i] == BitsOf(c)[i] && ByteBits(upper)[i] == BitsOf(c)[8 + i]
    {
      HalfAt(c, i);
    }
  }

  lemma StreamTwo(a: byte, b: byte)
    ensures StreamBits([a, b]) == ByteBits(a) + ByteBits(b)
  {
    hide ByteBits;
    assert [a, b][..1] == [a] && [a][..0] == [];
    assert StreamBits([a]) == ByteBits(a);
  }

  lemma FooterIs(m: seq<byte>)
    ensures |Footer(Rtu, m)| == 2 && StreamBits(Footer(Rtu, m)) == BitsOf(CrcFold(m))
  {
    var c := CrcFold(m);
    FooterBytes(m);
    hide BitsOf, ByteBits, Lower, Upper, Number, CrcFold, Footer;
    var f := Footer(Rtu, m);
    StreamTwo(f[0], f[1]);
    HalvesAre(c, f[0], f[1]);
  }

  /** The two bytes that follow a message are the remainder that it leaves, with its first 16 bits inverted and 16
      zeros behind it, when it is divided by x^16 + x^15 + x^2 + 1. */
  lemma FooterIsRemainder(m: seq<byte>)
    ensures StreamBits(Footer(Rtu, m)) == Remainder(XorFront(StreamBits(m) + Zeros(16), Ones(16)), DIVISOR)
  {
    hide BitsOf, CrcFold, StreamBits, XorFront, ShiftAll, DIVISOR, Footer, Remainder;
    FooterIs(m);
    CrcFoldIs(m);
    ShiftAllIsRemainder(Ones(16), StreamBits(m), DIVISOR);
  }

  /* ---- the receiver's check ---- */

  lemma NoBits(x: Word)
    requires forall i :: 0 <= i < 16 ==> !At(x, i)
    ensures x == 0
  {
    assert !At(x, 0) && !At(x, 1) && !At(x, 2) && !At(x, 3) && !At(x, 4) && !At(x, 5) && !At(x, 6) && !At(x, 7);
    assert !At(x, 8) && !At(x, 9) && !At(x, 10) && !At(x, 11) && !At(x, 12) && !At(x, 13) && !At(x, 14) && !At(x, 15);
  }

  lemma BitsZero(x: Word)
    ensures BitsOf(x) == Zeros(16) <==> x == 0
  {
    if x == 0 {
      ConstantsAre();
    } else if BitsOf(x) == Zeros(16) {
      hide At;
      forall i | 0 <= i < 16
        ensures !At(x, i)
      {
        assert BitsOf(x)[i] == Zeros(16)[i];
      }
      NoBits(x);
    }
  }

  lemma SameBits(x: Word, y: Word)
    requires BitsOf(x) == BitsOf(y)
    ensures x == y
  {
    hide At, Xor;
    XorIs(x, y);
    assert XorBits(BitsOf(x), BitsOf(y)) == Zeros(16);
    BitsZero(Xor(x, y));
    XorCancel(x, y);
  }

  lemma SameWide(a: byte, b: byte)
    requires Wide(a) == Wide(b)
    ensures a == b
  {
    var x := OctetFor(a);
    var y := OctetFor(b);
    ByteIs(x, a);
    ByteIs(y, b);
    Widen(x);
    Widen(y);
    hide Wide, Widened;
  }

  lemma SameByte(a: byte, b: byte)
    requires ByteBits(a) == ByteBits(b)
    ensures a == b
  {
    hide ByteBits, BitsOf;
    ByteBitsAre(a);
    ByteBitsAre(b);
    SameBits(Wide(a), Wide(b));
    SameWide(a, b);
  }

  lemma StreamSnoc(m: seq<byte>, b: byte)
    ensures StreamBits(m + [b]) == StreamBits(m) + ByteBits(b)
  {
    hide ByteBits;
    assert (m + [b])[..|m|] == m;
  }

  lemma StreamPair(m: seq<byte>, a: byte, b: byte)
    ensures StreamBits(m + [a, b]) == StreamBits(m) + (ByteBits(a) + ByteBits(b))
  {
    hide ByteBits, StreamBits;
    assert m + [a, b] == (m + [a]) + [b];
    StreamSnoc(m, a);
    StreamSnoc(m + [a], b);
  }

  lemma PairIs(f: seq<byte>, a: byte, b: byte)
    requires |f| == 2
    ensures ByteBits(a) + ByteBits(b) == StreamBits(f) <==> f == [a, b]
  {
    hide ByteBits, StreamBits;
    assert f == [f[0], f[1]];
    StreamTwo(f[0], f[1]);
    if ByteBits(a) + ByteBits(b) == StreamBits(f) {
      assert ByteBits(a) == StreamBits(f)[..8] == ByteBits(f[0]);
      assert ByteBits(b) == StreamBits(f)[8..] == ByteBits(f[1]);
      SameByte(a, f[0]);
      SameByte(b, f[1]);
    }
  }

  /** Over a message and two bytes behind it the register ends at zero exactly if these are the two bytes sent. */
  lemma ResidueExact(m: seq<byte>, a: byte, b: byte)
    ensures CrcFold(m + [a, b]) == 0 <==> Footer(Rtu, m) == [a, b]
  {
    hide BitsOf, ByteBits, StreamBits, CrcFold, Footer, ShiftAll;
    var t := ByteBits(a) + ByteBits(b);
    StreamPair(m, a, b);
    CrcFoldIs(m);
    CrcFoldIs(m + [a, b]);
    ShiftAllAppend(Ones(16), StreamBits(m), t, DIVISOR);
    CodeWord(BitsOf(CrcFold(m)), t, DIVISOR);
    BitsZero(CrcFold(m + [a, b]));
    FooterIs(m);
    PairIs(Footer(Rtu, m), a, b);
  }
}
