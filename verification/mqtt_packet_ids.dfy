/** The packet-id generator of the MQTT client: a 16-bit Galois shift register with taps
    0xB400. One shift multiplies by x in GF(2)[x]/(x^16 + x^5 + x^3 + x^2 + 1) when a word
    is read with its most significant bit as the constant term. */
module PacketIds {
  import opened Words

  const TAPS: Word := 0xB400
  const ONE: Word := 0x8000
  const PERIOD := 65535

  function Odd(x: Word): bool {
    x & 1 == 1
  }

  function Half(x: Word): Word {
    x >> 1
  }

  function Shift(x: Word): Word {
    if Odd(x) then Xor(Half(x), TAPS) else Half(x)
  }

  function Iterate(n: nat, x: Word): Word {
    if n == 0 then x else Shift(Iterate(n - 1, x))
  }

  /* ---- the field product ---- */

  function Top(a: Word): bool {
    a & 0x8000 == 0x8000
  }

  function Pick(a: Word, x: Word): Word {
    if Top(a) then x else 0
  }

  function Twice(a: Word): Word {
    a << 1
  }

  /** The sum of x, Shift(x), ... selected by the n leading bits of a, by Horner's rule. */
  function Dot(a: Word, x: Word, n: nat): Word
    decreases n
  {
    if n == 0 then 0 else Xor(Pick(a, x), Shift(Dot(Twice(a), x, n - 1)))
  }

  function Mul(a: Word, x: Word): Word {
    Dot(a, x, 16)
  }

  /* ---- bit facts ---- */

  lemma XorOdd(x: Word, y: Word)
    ensures Odd(Xor(x, y)) == (Odd(x) != Odd(y))
  {
    assert (x ^ y) & 1 == (x & 1) ^ (y & 1);
  }

  lemma XorHalf(x: Word, y: Word)
    ensures Half(Xor(x, y)) == Xor(Half(x), Half(y))
  {
    assert (x ^ y) >> 1 == (x >> 1) ^ (y >> 1);
  }

  lemma XorTop(x: Word, y: Word)
    ensures Top(Xor(x, y)) == (Top(x) != Top(y))
  {
    assert (x ^ y) & 0x8000 == (x & 0x8000) ^ (y & 0x8000);
  }

  lemma XorTwice(x: Word, y: Word)
    ensures Twice(Xor(x, y)) == Xor(Twice(x), Twice(y))
  {
    assert (x ^ y) << 1 == (x << 1) ^ (y << 1);
  }

  lemma ShiftLinear(x: Word, y: Word)
    ensures Shift(Xor(x, y)) == Xor(Shift(x), Shift(y))
  {
    XorOdd(x, y);
    XorHalf(x, y);
    var a, b := Half(x), Half(y);
    if Odd(x) && Odd(y) {
      XorSwap(a, TAPS, b, TAPS);
      XorUnit(Xor(a, b));
    } else if Odd(x) {
      XorAssoc(a, b, TAPS);
      XorComm(b, TAPS);
      XorAssoc(a, TAPS, b);
    } else if Odd(y) {
      XorAssoc(a, b, TAPS);
    }
  }

  lemma ShiftZero()
    ensures Shift(0) == 0
  {}

  lemma ShiftNonzero(x: Word)
    requires x != 0
    ensures Shift(x) != 0
  {
    if Odd(x) {
      assert (x >> 1) & 0x8000 == 0;
      assert TAPS & 0x8000 == 0x8000;
      XorTop(Half(x), TAPS);
    } else {
      assert x & 1 == 0;
    }
  }

  lemma ShiftInjective(x: Word, y: Word)
    requires Shift(x) == Shift(y)
    ensures x == y
  {
    ShiftLinear(x, y);
    XorUnit(Shift(x));
    if Xor(x, y) != 0 {
      ShiftNonzero(Xor(x, y));
    }
    XorCancel(x, y);
  }

  /* ---- Dot is linear in both arguments and commutes with Shift ---- */

  lemma {:induction false} DotShift(a: Word, x: Word, n: nat)
    ensures Dot(a, Shift(x), n) == Shift(Dot(a, x, n))
    decreases n
  {
    ShiftZero();
    if n > 0 {
      DotShift(Twice(a), x, n - 1);
      ShiftLinear(Pick(a, x), Shift(Dot(Twice(a), x, n - 1)));
    }
  }

  lemma {:induction false} DotLinearRight(a: Word, x: Word, y: Word, n: nat)
    ensures Dot(a, Xor(x, y), n) == Xor(Dot(a, x, n), Dot(a, y, n))
    decreases n
  {
    hide Xor;
    XorUnit(0);
    if n > 0 {
      var u, v := Dot(Twice(a), x, n - 1), Dot(Twice(a), y, n - 1);
      DotLinearRight(Twice(a), x, y, n - 1);
      ShiftLinear(u, v);
      XorSwap(Pick(a, x), Pick(a, y), Shift(u), Shift(v));
    }
  }

  lemma {:induction false} DotLinearLeft(a: Word, b: Word, x: Word, n: nat)
    ensures Dot(Xor(a, b), x, n) == Xor(Dot(a, x, n), Dot(b, x, n))
    decreases n
  {
    hide Xor, Twice, Top;
    XorUnit(0);
    if n > 0 {
      XorTop(a, b);
      XorTwice(a, b);
      XorUnit(x);
      var u, v := Dot(Twice(a), x, n - 1), Dot(Twice(b), x, n - 1);
      DotLinearLeft(Twice(a), Twice(b), x, n - 1);
      ShiftLinear(u, v);
      XorSwap(Pick(a, x), Pick(b, x), Shift(u), Shift(v));
    }
  }

  lemma {:induction false} DotZero(x: Word, n: nat)
    ensures Dot(0, x, n) == 0
    decreases n
  {
    if n > 0 {
      DotZero(x, n - 1);
      ShiftZero();
      XorUnit(0);
    }
  }

  /** Two polynomials in Shift commute. */
  lemma {:induction false} DotCommutes(a: Word, b: Word, x: Word, n: nat, m: nat)
    ensures Dot(a, Dot(b, x, m), n) == Dot(b, Dot(a, x, n), m)
    decreases n
  {
    hide Xor, Twice, Top;
    DotRightZero(b, m);
    if n > 0 {
      var u := Dot(Twice(a), x, n - 1);
      DotCommutes(Twice(a), b, x, n - 1, m);
      DotShift(b, u, m);
      DotLinearRight(b, Pick(a, x), Shift(u), m);
    }
  }

  lemma {:induction false} DotRightZero(a: Word, n: nat)
    ensures Dot(a, 0, n) == 0
    decreases n
  {
    if n > 0 {
      DotRightZero(Twice(a), n - 1);
      ShiftZero();
      XorUnit(0);
    }
  }

  /* ---- ONE is the unit ---- */

  /** The n leading bits. */
  function Mask(n: nat): Word {
    if n == 0 then 0 else 0x8000 | (Mask(n - 1) >> 1)
  }

  lemma MaskEven(n: nat)
    requires n <= 15
    ensures !Odd(Mask(n))
  {
    assert Mask(4) == 0xF000;
    assert Mask(8) == 0xFF00;
    assert Mask(12) == 0xFFF0;
    assert Mask(15) == 0xFFFE;
  }

  function Keep(a: Word, m: Word): Word {
    a & m
  }

  lemma KeepEven(a: Word, m: Word)
    requires !Odd(m)
    ensures !Odd(Keep(a, m))
  {
    assert (a & m) & 1 == a & (m & 1);
    assert m & 1 == 0;
  }

  lemma KeepTop(a: Word)
    ensures Pick(a, ONE) == a & 0x8000
  {}

  lemma KeepHalf(a: Word, m: Word)
    ensures Half(Keep(Twice(a), m)) == (a & 0x7FFF) & (m >> 1)
  {
    assert ((a << 1) & m) >> 1 == (a & 0x7FFF) & (m >> 1);
  }

  lemma KeepJoin(a: Word, m: Word)
    ensures Xor(a & 0x8000, (a & 0x7FFF) & (m >> 1)) == Keep(a, 0x8000 | (m >> 1))
  {
    assert (a & 0x8000) ^ ((a & 0x7FFF) & (m >> 1)) == a & (0x8000 | (m >> 1));
  }

  lemma MaskStep(a: Word, m: Word)
    ensures Xor(Pick(a, ONE), Half(Keep(Twice(a), m))) == Keep(a, 0x8000 | (m >> 1))
  {
    hide *;
    KeepTop(a);
    KeepHalf(a, m);
    KeepJoin(a, m);
  }

  lemma {:induction false} DotOne(a: Word, n: nat)
    requires n <= 16
    ensures Dot(a, ONE, n) == Keep(a, Mask(n))
    decreases n
  {
    hide Xor, Twice, Top, Pick, Half, Odd;
    if n > 0 {
      DotOne(Twice(a), n - 1);
      MaskEven(n - 1);
      KeepEven(Twice(a), Mask(n - 1));
      MaskStep(a, Mask(n - 1));
    }
  }

  lemma MulOne(a: Word)
    ensures Mul(a, ONE) == a
  {
    DotOne(a, 16);
    assert Mask(8) == 0xFF00;
    assert Mask(16) == 0xFFFF;
  }

  /* ---- multiplication by x: Mul(Shift(a), x) == Shift(Mul(a, x)) ---- */

  lemma IterateSplit(m: nat, n: nat, x: Word)
    ensures Iterate(m + n, x) == Iterate(m, Iterate(n, x))
  {
    if m > 0 {
      IterateSplit(m - 1, n, x);
    }
  }

  lemma {:induction false} DotIterate(a: Word, x: Word, m: nat, n: nat)
    ensures Dot(a, Iterate(m, x), n) == Iterate(m, Dot(a, x, n))
  {
    hide Shift;
    if m > 0 {
      DotIterate(a, x, m - 1, n);
      DotShift(a, Iterate(m - 1, x), n);
    }
  }

  lemma SixteenShifts()
    ensures Iterate(16, ONE) == TAPS
  {
    assert Iterate(2, ONE) == 0x2000;
    assert Iterate(4, ONE) == 0x0800;
    assert Iterate(6, ONE) == 0x0200;
    assert Iterate(8, ONE) == 0x0080;
    assert Iterate(10, ONE) == 0x0020;
    assert Iterate(12, ONE) == 0x0008;
    assert Iterate(14, ONE) == 0x0002;
  }

  /** x^16 == 1 + x^2 + x^3 + x^5 */
  lemma Reduction(x: Word)
    ensures Iterate(16, x) == Mul(TAPS, x)
  {
    hide Dot, Xor, Shift, Iterate;
    MulOne(x);
    MulOne(TAPS);
    DotIterate(x, ONE, 16, 16);
    SixteenShifts();
    DotCommutes(x, TAPS, ONE, 16, 16);
  }

  lemma {:induction false} DotLast(a: Word, x: Word, n: nat)
    ensures Dot(a, x, n + 1) == Xor(Dot(a, x, n), Iterate(n, Pick(Doubled(a, n), x)))
    decreases n
  {
    hide Xor, Twice, Top, Pick, Shift;
    if n == 0 {
      ShiftZero();
      XorUnit(Pick(a, x));
    } else {
      var b := Twice(a);
      DotLast(b, x, n - 1);
      DoubledFirst(a, n);
      var u, v := Dot(b, x, n - 1), Iterate(n - 1, Pick(Doubled(a, n), x));
      ShiftLinear(u, v);
      XorAssoc(Pick(a, x), Shift(u), Shift(v));
    }
  }

  function Doubled(a: Word, n: nat): Word {
    if n == 0 then a else Twice(Doubled(a, n - 1))
  }

  lemma DoubledFirst(a: Word, n: nat)
    requires n > 0
    ensures Doubled(a, n) == Doubled(Twice(a), n - 1)
  {
    hide Twice;
    if n > 1 {
      DoubledFirst(a, n - 1);
    }
  }

  function Times8(a: Word): Word {
    Twice(Twice(Twice(a)))
  }

  lemma DoubledThree(a: Word, n: nat)
    ensures Doubled(a, n + 3) == Times8(Doubled(a, n))
  {
    assert Doubled(a, n + 1) == Twice(Doubled(a, n));
    assert Doubled(a, n + 2) == Twice(Doubled(a, n + 1));
  }

  lemma DoubledFifteen(a: Word)
    ensures Doubled(a, 15) == Times8(Times8(Times8(Times8(Times8(a)))))
  {
    hide Times8;
    DoubledThree(a, 0);
    DoubledThree(a, 3);
    DoubledThree(a, 6);
    DoubledThree(a, 9);
    DoubledThree(a, 12);
  }

  lemma DoubledOdd(a: Word)
    ensures Top(Doubled(a, 15)) == Odd(a)
  {
    hide Doubled;
    DoubledFifteen(a);
  }

  /** Dropping the last bit of a and doubling again loses only that bit. */
  lemma {:induction false} DotHalf(a: Word, x: Word)
    ensures Dot(Half(a), x, 16) == Shift(Dot(a, x, 15))
  {
    hide Xor, Shift, Dot;
    var r: Word := if Odd(a) then 1 else 0;
    HalfTwice(a);
    assert !Top(Half(a));
    DotLinearLeft(Twice(Half(a)), r, x, 15);
    DotBitZero(x);
    DotZero(x, 15);
    XorUnit(Dot(Twice(Half(a)), x, 15));
    DotUnfold(Half(a), x, 15);
    XorUnit(Shift(Dot(a, x, 15)));
  }

  lemma DotUnfold(a: Word, x: Word, n: nat)
    ensures Dot(a, x, n + 1) == Xor(Pick(a, x), Shift(Dot(Twice(a), x, n)))
  {}

  lemma HalfTwice(a: Word)
    ensures a == Xor(Twice(Half(a)), if Odd(a) then 1 else 0)
    ensures !Top(Half(a))
  {
    assert a == ((a >> 1) << 1) ^ (a & 1);
    assert a & 1 == 0 || a & 1 == 1;
    assert (a >> 1) & 0x8000 == 0;
  }

  lemma DotBitZero(x: Word)
    ensures Dot(1, x, 15) == 0
  {
    hide Xor, Shift;
    ShiftZero();
    XorUnit(0);
    assert Dot(0x4000, x, 1) == 0;
    assert Dot(0x0400, x, 5) == 0;
    assert Dot(0x0020, x, 10) == 0;
  }

  lemma IterateZero(n: nat)
    ensures Iterate(n, 0) == 0
  {
    if n > 0 {
      IterateZero(n - 1);
      ShiftZero();
    }
  }

  lemma MulShift(a: Word, x: Word)
    ensures Mul(Shift(a), x) == Shift(Mul(a, x))
  {
    hide Xor, Dot, Half, Odd, Top;
    DotHalf(a, x);
    DotLast(a, x, 15);
    DoubledOdd(a);
    var p := Pick(Doubled(a, 15), x);
    ShiftLinear(Dot(a, x, 15), Iterate(15, p));
    if Odd(a) {
      Reduction(x);
      DotLinearLeft(Half(a), TAPS, x, 16);
    } else {
      IterateZero(16);
      XorUnit(Mul(Half(a), x));
    }
  }

  /** n shifts of any word are one multiplication by n shifts of ONE. */
  lemma {:induction false} IterateIsMul(n: nat, x: Word)
    ensures Iterate(n, x) == Mul(Iterate(n, ONE), x)
  {
    hide Xor, Shift, Dot;
    if n == 0 {
      MulLeftOne(x);
    } else {
      IterateIsMul(n - 1, x);
      MulShift(Iterate(n - 1, ONE), x);
    }
  }

  lemma MulLeftOne(x: Word)
    ensures Mul(ONE, x) == x
  {
    DotUnfold(ONE, x, 15);
    DotZero(x, 15);
    ShiftZero();
    XorUnit(x);
  }

  lemma MulLinear(a: Word, b: Word, x: Word)
    ensures Mul(Xor(a, b), x) == Xor(Mul(a, x), Mul(b, x))
    ensures Mul(0, x) == 0
  {
    hide Dot;
    DotLinearLeft(a, b, x, 16);
    DotZero(x, 16);
  }

  lemma {:induction false} DotAssoc(q: Word, c: Word, x: Word, n: nat)
    ensures Mul(Dot(q, c, n), x) == Dot(q, Mul(c, x), n)
    decreases n
  {
    hide Xor, Twice, Top, Shift, Mul;
    MulLinear(0, 0, x);
    if n > 0 {
      var u := Dot(Twice(q), c, n - 1);
      DotAssoc(Twice(q), c, x, n - 1);
      MulShift(u, x);
      MulLinear(Pick(q, c), Shift(u), x);
    }
  }

  /* ---- the period is exactly 65535 == 3 * 5 * 17 * 257 ---- */

  ghost predicate Power(n: nat, a: Word) {
    Iterate(n, ONE) == a
  }

  function Horner(a: Word, x: Word, r: Word): Word {
    Xor(Pick(a, x), Shift(r))
  }

  function Horner4(a: Word, x: Word, r: Word): Word {
    Horner(a, x, Horner(a << 1, x, Horner(a << 2, x, Horner(a << 3, x, r))))
  }

  lemma DotFour(a: Word, x: Word, n: nat)
    ensures Dot(a, x, n + 4) == Horner4(a, x, Dot(a << 4, x, n))
  {
    hide Xor, Shift, Pick;
    assert (a << 1) << 1 == a << 2;
    assert (a << 2) << 1 == a << 3;
    assert (a << 3) << 1 == a << 4;
    assert Dot(a << 3, x, n + 1) == Horner(a << 3, x, Dot(a << 4, x, n));
    assert Dot(a << 2, x, n + 2) == Horner(a << 2, x, Dot(a << 3, x, n + 1));
    assert Dot(a << 1, x, n + 3) == Horner(a << 1, x, Dot(a << 2, x, n + 2));
  }

  /** Mul without recursion, for evaluation on literals. */
  function Product(a: Word, x: Word): Word {
    Horner4(a, x, Horner4(a << 4, x, Horner4(a << 8, x, Horner4(a << 12, x, 0))))
  }

  lemma MulIsProduct(a: Word, x: Word)
    ensures Mul(a, x) == Product(a, x)
  {
    hide Horner4, Dot;
    DotFour(a, x, 12);
    DotFour(a << 4, x, 8);
    DotFour(a << 8, x, 4);
    DotFour(a << 12, x, 0);
    assert (a << 4) << 4 == a << 8;
    assert (a << 8) << 4 == a << 12;
    assert Dot(a << 16, x, 0) == 0 by { DotEmpty(a << 16, x); }
  }

  lemma DotEmpty(a: Word, x: Word)
    ensures Dot(a, x, 0) == 0
  {}

  lemma PowerSum(m: nat, n: nat, a: Word, b: Word)
    requires Power(m, a) && Power(n, b)
    ensures Power(m + n, Product(a, b))
  {
    hide Product, Mul, Iterate;
    IterateSplit(m, n, ONE);
    IterateIsMul(m, b);
    MulIsProduct(a, b);
  }

  lemma Power16()
    ensures Power(16, 0xB400)
  {
    SixteenShifts();
  }

  lemma Power32()
    ensures Power(32, 0x8A20)
  {
    Power16();
    PowerSum(16, 16, 0xB400, 0xB400);
    assert Product(0xB400, 0xB400) == 0x8A20;
  }

  lemma Power64()
    ensures Power(64, 0x8BC8)
  {
    Power32();
    PowerSum(32, 32, 0x8A20, 0x8A20);
    assert Product(0x8A20, 0x8A20) == 0x8BC8;
  }

  lemma Power128()
    ensures Power(128, 0x193E)
  {
    Power64();
    PowerSum(64, 64, 0x8BC8, 0x8BC8);
    assert Product(0x8BC8, 0x8BC8) == 0x193E;
  }

  lemma Power256()
    ensures Power(256, 0x5180)
  {
    Power128();
    PowerSum(128, 128, 0x193E, 0x193E);
    assert Product(0x193E, 0x193E) == 0x5180;
  }

  lemma Power255()
    ensures Power(255, 0xA300)
  {
    hide Iterate;
    Power256();
    IterateSplit(1, 255, ONE);
    assert Iterate(1, Iterate(255, ONE)) == Shift(Iterate(255, ONE)) by { IterateOnce(Iterate(255, ONE)); }
    assert Shift(0xA300) == 0x5180;
    ShiftInjective(Iterate(255, ONE), 0xA300);
  }

  lemma IterateOnce(x: Word)
    ensures Iterate(1, x) == Shift(x)
  {
    assert Iterate(0, x) == x;
  }

  lemma Power257()
    ensures Power(257, 0x28C0)
  {
    hide Iterate;
    Power256();
    IterateSplit(1, 256, ONE);
    IterateOnce(0x5180);
    assert Shift(0x5180) == 0x28C0;
  }

  lemma Power514()
    ensures Power(514, 0x9180)
  {
    Power257();
    PowerSum(257, 257, 0x28C0, 0x28C0);
    assert Product(0x28C0, 0x28C0) == 0x9180;
  }

  lemma Power771()
    ensures Power(771, 0x77A1)
  {
    Power514(); Power257();
    PowerSum(514, 257, 0x9180, 0x28C0);
    assert Product(0x9180, 0x28C0) == 0x77A1;
  }

  lemma Power1542()
    ensures Power(1542, 0x6DE8)
  {
    Power771();
    PowerSum(771, 771, 0x77A1, 0x77A1);
    assert Product(0x77A1, 0x77A1) == 0x6DE8;
  }

  lemma Power3084()
    ensures Power(3084, 0xBA56)
  {
    Power1542();
    PowerSum(1542, 1542, 0x6DE8, 0x6DE8);
    assert Product(0x6DE8, 0x6DE8) == 0xBA56;
  }

  lemma Power3855()
    ensures Power(3855, 0x2D35)
  {
    Power3084(); Power771();
    PowerSum(3084, 771, 0xBA56, 0x77A1);
    assert Product(0xBA56, 0x77A1) == 0x2D35;
  }

  lemma Power6168()
    ensures Power(6168, 0xFF7E)
  {
    Power3084();
    PowerSum(3084, 3084, 0xBA56, 0xBA56);
    assert Product(0xBA56, 0xBA56) == 0xFF7E;
  }

  lemma Power12336()
    ensures Power(12336, 0xD4A8)
  {
    Power6168();
    PowerSum(6168, 6168, 0xFF7E, 0xFF7E);
    assert Product(0xFF7E, 0xFF7E) == 0xD4A8;
  }

  lemma Power13107()
    ensures Power(13107, 0x5F61)
  {
    Power12336(); Power771();
    PowerSum(12336, 771, 0xD4A8, 0x77A1);
    assert Product(0xD4A8, 0x77A1) == 0x5F61;
  }

  lemma Power4369()
    ensures Power(4369, 0xF03C)
  {
    Power3855(); Power514();
    PowerSum(3855, 514, 0x2D35, 0x9180);
    assert Product(0x2D35, 0x9180) == 0xF03C;
  }

  lemma Power8738()
    ensures Power(8738, 0xA309)
  {
    Power4369();
    PowerSum(4369, 4369, 0xF03C, 0xF03C);
    assert Product(0xF03C, 0xF03C) == 0xA309;
  }

  lemma Power21845()
    ensures Power(21845, 0x5335)
  {
    Power13107(); Power8738();
    PowerSum(13107, 8738, 0x5F61, 0xA309);
    assert Product(0x5F61, 0xA309) == 0x5335;
  }

  lemma Power43690()
    ensures Power(43690, 0xD335)
  {
    Power21845();
    PowerSum(21845, 21845, 0x5335, 0x5335);
    assert Product(0x5335, 0x5335) == 0xD335;
  }

  lemma Power65535()
    ensures Power(65535, 0x8000)
  {
    Power43690(); Power21845();
    PowerSum(43690, 21845, 0xD335, 0x5335);
    assert Product(0xD335, 0x5335) == 0x8000;
  }

  /** If k shifts return to a nonzero word then 1 + x^k has no inverse. */
  lemma NoFixpoint(k: nat, a: Word, q: Word, x: Word)
    requires Power(k, a)
    requires Mul(q, Xor(a, ONE)) == ONE
    requires Iterate(k, x) == x
    ensures x == 0
  {
    hide Xor, Mul, Iterate;
    IterateIsMul(k, x);
    MulLinear(a, ONE, x);
    MulLeftOne(x);
    XorUnit(x);
    var c := Xor(a, ONE);
    assert Mul(c, x) == 0;
    assert Mul(Mul(q, c), x) == Mul(q, Mul(c, x)) by { MulAssoc(q, c, x); }
    MulRightZero(q);
  }

  lemma MulAssoc(q: Word, c: Word, x: Word)
    ensures Mul(Mul(q, c), x) == Mul(q, Mul(c, x))
  {
    hide Dot;
    DotAssoc(q, c, x, 16);
  }

  lemma MulRightZero(q: Word)
    ensures Mul(q, 0) == 0
  {
    hide Dot;
    DotRightZero(q, 16);
  }

  /** No nonzero word returns after 65535/p shifts, for each prime p dividing 65535. */
  lemma NoShortCycle(k: nat, x: Word)
    requires k == 255 || k == 3855 || k == 13107 || k == 21845
    requires Iterate(k, x) == x
    ensures x == 0
  {
    hide Iterate, Mul, Product, Power;
    if k == 255 {
      Inverse255();
      Power255();
      NoFixpoint(255, 0xA300, 0x0E55, x);
    } else if k == 3855 {
      Inverse3855();
      Power3855();
      NoFixpoint(3855, 0x2D35, 0xEEFE, x);
    } else if k == 13107 {
      Inverse13107();
      Power13107();
      NoFixpoint(13107, 0x5F61, 0xF03C, x);
    } else {
      Inverse21845();
      Power21845();
      NoFixpoint(21845, 0x5335, 0x5335, x);
    }
  }

  lemma Inverse255()
    ensures Mul(0x0E55, Xor(0xA300, ONE)) == ONE
  {
    MulIsProduct(0x0E55, 0x2300);
  }

  lemma Inverse3855()
    ensures Mul(0xEEFE, Xor(0x2D35, ONE)) == ONE
  {
    MulIsProduct(0xEEFE, 0xAD35);
  }

  lemma Inverse13107()
    ensures Mul(0xF03C, Xor(0x5F61, ONE)) == ONE
  {
    MulIsProduct(0xF03C, 0xDF61);
  }

  lemma Inverse21845()
    ensures Mul(0x5335, Xor(0x5335, ONE)) == ONE
  {
    MulIsProduct(0x5335, 0xD335);
  }

  lemma FullCycle(x: Word)
    ensures Iterate(PERIOD, x) == x
  {
    hide Iterate, Mul;
    Power65535();
    IterateIsMul(65535, x);
    MulLeftOne(x);
  }

  /* ---- cycles of shorter length ---- */

  lemma {:induction false} IterateMultiple(k: nat, m: nat, x: Word)
    requires Iterate(k, x) == x
    ensures Iterate(k * m, x) == x
    decreases m
  {
    hide Shift;
    if m > 0 {
      IterateMultiple(k, m - 1, x);
      assert k * m == k + k * (m - 1);
      IterateSplit(k, k * (m - 1), x);
    } else {
      assert k * m == 0;
    }
  }

  lemma {:induction false} IterateRemainder(k: nat, n: nat, x: Word)
    requires k > 0
    requires Iterate(k, x) == x && Iterate(n, x) == x
    ensures Iterate(n % k, x) == x
  {
    hide Iterate;
    IterateMultiple(k, n / k, x);
    assert n == n % k + k * (n / k);
    IterateSplit(n % k, k * (n / k), x);
  }

  /** A proper divisor d of 65535 divides 65535/p for a prime p of 65535. */
  lemma ProperDivisor(d: nat, m: nat) returns (k: nat, c: nat)
    requires d * m == PERIOD && m > 1
    ensures k == 255 || k == 3855 || k == 13107 || k == 21845
    ensures d * c == k
  {
    if m % 3 == 0 {
      c := m / 3;
      k := 21845;
      assert d * (3 * c) == 3 * (d * c);
    } else if m % 5 == 0 {
      c := m / 5;
      k := 13107;
      assert d * (5 * c) == 5 * (d * c);
    } else if m % 17 == 0 {
      c := m / 17;
      k := 3855;
      assert d * (17 * c) == 17 * (d * c);
    } else if m % 257 == 0 {
      c := m / 257;
      k := 255;
      assert d * (257 * c) == 257 * (d * c);
    } else {
      NoOtherDivisor(d, m);
    }
  }

  lemma NoOtherDivisor(d: nat, m: nat)
    requires d * m == PERIOD && m > 1
    ensures m % 3 == 0 || m % 5 == 0 || m % 17 == 0 || m % 257 == 0
  {
    if m % 3 != 0 && m % 5 != 0 {
      Cancel3(d, m, 21845);
      var a := d / 3;
      assert d * m == 3 * (a * m);
      Cancel5(a, m, 4369);
      var b := a / 5;
      assert a * m == 5 * (b * m);
      if b <= 66 {
        FactorOf4369(b, m);
      } else {
        assert b * m >= 67 * m;
        FactorOf4369(m, b);
      }
    }
  }

  lemma Cancel3(d: nat, m: nat, n: nat)
    requires d * m == 3 * n && m % 3 != 0
    ensures d % 3 == 0
  {
    var a, r := d / 3, d % 3;
    assert d * m == 3 * (a * m) + r * m by {
      assert d == 3 * a + r;
    }
    if r == 1 {
    } else if r == 2 {
    }
  }

  lemma Cancel5(d: nat, m: nat, n: nat)
    requires d * m == 5 * n && m % 5 != 0
    ensures d % 5 == 0
  {
    var x: nat := Distribute(d, m / 5, m % 5);
    assert m == 5 * (m / 5) + m % 5;
    FifthOf(d, m % 5, n - x);
  }

  lemma Distribute(d: nat, b: nat, s: nat) returns (x: nat)
    ensures d * (5 * b + s) == 5 * x + d * s
  {
    x := d * b;
    assert d * (5 * b) == 5 * (d * b);
  }

  /** Whatever s is, some multiple of it is one more than a multiple of 5. */
  lemma FifthOf(d: nat, s: nat, y: int)
    requires 1 <= s <= 4 && d * s == 5 * y
    ensures d % 5 == 0
  {
    if s == 1 {
      Fives(d, y);
    } else if s == 2 {
      Fives(d, 3 * y - d);
    } else if s == 3 {
      Fives(d, 2 * y - d);
    } else {
      Fives(d, 4 * y - 3 * d);
    }
  }

  lemma Fives(d: nat, k: int)
    requires d == 5 * k
    ensures d % 5 == 0
  {}

  lemma FactorOf4369(b: nat, m: nat)
    requires b * m == 4369 && 1 <= b <= 66
    ensures (b == 1 && m == 4369) || (b == 17 && m == 257)
  {}

  /* ---- the orbit of a nonzero word has 65535 points ---- */

  lemma {:induction false} SmallestPeriod(n: nat, x: Word) returns (d: nat)
    requires n > 0 && Iterate(n, x) == x
    ensures 0 < d <= n && Iterate(d, x) == x
    ensures forall k :: 0 < k < d ==> Iterate(k, x) != x
  {
    hide Iterate;
    if k :| 0 < k < n && Iterate(k, x) == x {
      d := SmallestPeriod(k, x);
    } else {
      d := n;
    }
  }

  lemma PeriodIsFull(d: nat, x: Word)
    requires x != 0 && 0 < d && Iterate(d, x) == x
    ensures d >= PERIOD
  {
    hide Iterate;
    if d < PERIOD {
      var e := SmallestPeriod(d, x);
      FullCycle(x);
      IterateRemainder(e, PERIOD, x);
      assert PERIOD % e == 0;
      var m := PERIOD / e;
      var k, c := ProperDivisor(e, m);
      IterateMultiple(e, c, x);
      NoShortCycle(k, x);
    }
  }

  lemma {:induction false} IterateInjective(n: nat, x: Word, y: Word)
    requires Iterate(n, x) == Iterate(n, y)
    ensures x == y
  {
    hide Shift;
    if n > 0 {
      ShiftInjective(Iterate(n - 1, x), Iterate(n - 1, y));
      IterateInjective(n - 1, x, y);
    }
  }

  /** Fewer than 65535 shifts of a nonzero word never repeat a value. */
  lemma OrbitDistinct(i: nat, j: nat, x: Word)
    requires x != 0 && i < j < i + PERIOD
    ensures Iterate(i, x) != Iterate(j, x)
  {
    hide Iterate;
    if Iterate(i, x) == Iterate(j, x) {
      IterateSplit(i, j - i, x);
      IterateInjective(i, x, Iterate(j - i, x));
      PeriodIsFull(j - i, x);
    }
  }

  lemma {:induction false} IterateNonzero(n: nat, x: Word)
    requires x != 0
    ensures Iterate(n, x) != 0
  {
    hide Shift;
    if n > 0 {
      IterateNonzero(n - 1, x);
      ShiftNonzero(Iterate(n - 1, x));
    }
  }

  /* ---- the next free id ---- */

  /** The register after its zero value has been replaced by the seed 163. */
  function Seeded(lfsr: Word): Word {
    if lfsr == 0 then 163 else lfsr
  }

  /** The first n shifts of x. */
  ghost function Orbit(n: nat, x: Word): set<Word> {
    if n == 0 then {} else Orbit(n - 1, x) + {Iterate(n, x)}
  }

  lemma {:induction false} OrbitMember(n: nat, x: Word, k: nat)
    requires 0 < k <= n
    ensures Iterate(k, x) in Orbit(n, x)
  {
    if k < n {
      OrbitMember(n - 1, x, k);
    }
  }

  lemma {:induction false} OrbitIndex(n: nat, x: Word, w: Word) returns (k: nat)
    requires w in Orbit(n, x)
    ensures 0 < k <= n && Iterate(k, x) == w
  {
    if w == Iterate(n, x) {
      k := n;
    } else {
      k := OrbitIndex(n - 1, x, w);
    }
  }

  lemma {:induction false} OrbitSize(n: nat, x: Word)
    requires x != 0 && n <= PERIOD
    ensures |Orbit(n, x)| == n
  {
    hide Iterate;
    if n > 0 {
      OrbitSize(n - 1, x);
      if Iterate(n, x) in Orbit(n - 1, x) {
        var k := OrbitIndex(n - 1, x, Iterate(n, x));
        OrbitDistinct(k, n, x);
      }
    }
  }

  /** The shifts that have been tried and found taken are all in the finite set of ids in use. */
  lemma TakenBound(n: nat, x: Word, used: set<Word>)
    requires x != 0 && n <= PERIOD
    requires forall k :: 0 < k <= n ==> Iterate(k, x) in used
    ensures n <= |used|
  {
    OrbitSize(n, x);
    forall w | w in Orbit(n, x)
      ensures w in used
    {
      var k := OrbitIndex(n, x, w);
    }
    SubsetSize(Orbit(n, x), used);
  }

  lemma SubsetSize<T>(a: set<T>, b: set<T>)
    requires a <= b
    ensures |a| <= |b|
  {
    if a != {} {
      var x :| x in a;
      SubsetSize(a - {x}, b - {x});
    }
  }

  ghost predicate FirstFree(x: Word, ids: seq<Word>, n: nat) {
    n > 0 && Iterate(n, x) !in ids && forall k :: 0 < k < n ==> Iterate(k, x) in ids
  }

  /** Some shift within the first |ids| + 1 is free, as long as there are fewer than 65535 ids. */
  lemma FreeExists(x: Word, ids: seq<Word>)
    requires x != 0 && |ids| < PERIOD
    ensures exists n: nat :: n <= |ids| + 1 && FirstFree(x, ids, n)
  {
    var n := FindFree(x, ids, 1);
  }

  lemma {:induction false} FindFree(x: Word, ids: seq<Word>, m: nat) returns (n: nat)
    requires x != 0 && |ids| < PERIOD && 0 < m <= |ids| + 1
    requires forall k :: 0 < k < m ==> Iterate(k, x) in ids
    ensures n <= |ids| + 1 && FirstFree(x, ids, n)
    decreases |ids| + 1 - m
  {
    hide Iterate;
    if Iterate(m, x) !in ids {
      n := m;
    } else {
      var used := set w | w in ids;
      SeqSetSize(ids, used);
      TakenBound(m, x, used);
      n := FindFree(x, ids, m + 1);
    }
  }

  lemma SeqSetSize(ids: seq<Word>, used: set<Word>)
    requires used == set w | w in ids
    ensures |used| <= |ids|
  {
    if ids != [] {
      var rest := set w | w in ids[1..];
      SeqSetSize(ids[1..], rest);
      assert used == rest + {ids[0]};
    }
  }

  /** The id the client hands out next: the first shift of the register that no queued message holds. */
  ghost function NextId(lfsr: Word, ids: seq<Word>): (r: Word)
    requires |ids| < PERIOD
    ensures r != 0 && r !in ids
  {
    var x := Seeded(lfsr);
    FreeExists(x, ids);
    var n: nat :| n <= |ids| + 1 && FirstFree(x, ids, n);
    IterateNonzero(n, x);
    Iterate(n, x)
  }

  /** The search finds the id that the choice above stands for: there is only one first free shift. */
  lemma NextIdIs(lfsr: Word, ids: seq<Word>, stop: nat)
    requires |ids| < PERIOD && FirstFree(Seeded(lfsr), ids, stop)
    ensures NextId(lfsr, ids) == Iterate(stop, Seeded(lfsr))
  {
    hide Iterate, Seeded;
    var x := Seeded(lfsr);
    forall n: nat | FirstFree(x, ids, n)
      ensures n == stop
    {}
  }

  lemma ShiftSeed()
    ensures Shift(163) == 0xB451
  {}

  /** The first packet id of a client. */
  lemma FirstId()
    ensures NextId(0, []) == 0xB451
  {
    ShiftSeed();
    hide Shift;
    assert Iterate(1, 163) == Shift(Iterate(0, 163));
    assert FirstFree(Seeded(0), [], 1);
    NextIdIs(0, [], 1);
  }

  lemma IterateStart(x: Word)
    ensures Iterate(0, x) == x
  {}

  lemma IterateNext(n: nat, x: Word)
    requires n > 0
    ensures Iterate(n, x) == Shift(Iterate(n - 1, x))
  {}
}
