/** Integers as text: decimal digits, their value, and the bound that the parser checks by comparing strings. */
module JsonNumbers {
  import opened Bytes
  import opened JsonChars
  import opened JsonDocument
  import opened TinyJson
  import opened JsonText

  predicate AllDigits(s: string) {
    forall i :: 0 <= i < |s| ==> IsDigit(s[i])
  }

  function DigitValue(c: char): (d: int)
    requires IsDigit(c)
    ensures 0 <= d <= 9
  {
    c as int - '0' as int
  }

  /** What JSON calls an integer: a sign at most, digits, no zero in front of others. */
  predicate IsInteger(s: string) {
    if s != "" && s[0] == '-' then IsNatural(s[1..]) else IsNatural(s)
  }

  predicate IsNatural(s: string) {
    s != "" && AllDigits(s) && (s[0] == '0' ==> |s| == 1)
  }

  function IntValue(s: string): int
    requires IsInteger(s)
  {
    if s[0] == '-' then 0 - DecimalOf(s[1..]) else DecimalOf(s)
  }

  function Pow10(k: nat): (r: nat)
    ensures r > 0
  {
    if k == 0 then 1 else 10 * Pow10(k - 1)
  }

  lemma {:induction false} ValBelow(s: string)
    requires AllDigits(s)
    ensures DecimalOf(s) < Pow10(|s|)
  {
    if s != "" {
      ValBelow(s[..|s| - 1]);
    }
  }

  lemma {:induction false} ValAbove(s: string)
    requires AllDigits(s) && s != "" && s[0] != '0'
    ensures DecimalOf(s) >= Pow10(|s| - 1)
  {
    if |s| > 1 {
      ValAbove(s[..|s| - 1]);
    }
  }

  lemma {:induction false} Pow10Grows(a: nat, b: nat)
    requires a <= b
    ensures Pow10(a) <= Pow10(b)
  {
    if a < b {
      Pow10Grows(a, b - 1);
    }
  }

  /** The leading digit counts most. */
  lemma {:induction false} ValLead(s: string)
    requires AllDigits(s) && s != ""
    ensures DecimalOf(s) == DigitValue(s[0]) * Pow10(|s| - 1) + DecimalOf(s[1..])
  {
    if |s| == 1 {
      assert s[..0] == "" && s[1..] == "";
    } else {
      var p := s[..|s| - 1];
      ValLead(p);
      assert p[1..] == s[1..][..|s| - 2];
      assert DecimalOf(s[1..]) == DecimalOf(p[1..]) * 10 + DigitValue(s[|s| - 1]);
      Distribute(DigitValue(s[0]), Pow10(|s| - 2), DecimalOf(p[1..]));
    }
  }

  lemma Distribute(d: nat, p: nat, v: nat)
    ensures (d * p + v) * 10 == d * (10 * p) + v * 10
  {}

  lemma Order(d: nat, e: nat, p: nat, v: nat, w: nat)
    requires d < e && v < p
    ensures d * p + v < e * p + w
  {
    assert (d + 1) * p <= e * p;
  }

  /** On digit strings of the same length, strcmp orders by value. */
  lemma {:induction false} StrCmpIsOrder(a: string, b: string)
    requires AllDigits(a) && AllDigits(b) && |a| == |b|
    ensures StrCmp(a, b) < 0 <==> DecimalOf(a) < DecimalOf(b)
    ensures StrCmp(a, b) == 0 <==> DecimalOf(a) == DecimalOf(b)
  {
    if a != "" {
      ValLead(a);
      ValLead(b);
      ValBelow(a[1..]);
      ValBelow(b[1..]);
      var p := Pow10(|a| - 1);
      if a[0] == b[0] {
        StrCmpIsOrder(a[1..], b[1..]);
      } else if a[0] < b[0] {
        Order(DigitValue(a[0]), DigitValue(b[0]), p, DecimalOf(a[1..]), DecimalOf(b[1..]));
      } else {
        Order(DigitValue(b[0]), DigitValue(a[0]), p, DecimalOf(b[1..]), DecimalOf(a[1..]));
      }
    }
  }

  lemma Snoc(s: string, c: char)
    requires AllDigits(s) && IsDigit(c)
    ensures AllDigits(s + [c]) && DecimalOf(s + [c]) == DecimalOf(s) * 10 + DigitValue(c)
  {
    assert (s + [c])[..|s|] == s;
  }

  lemma Three(s: string, a: char, b: char, c: char)
    requires AllDigits(s) && IsDigit(a) && IsDigit(b) && IsDigit(c)
    ensures AllDigits(s + [a, b, c])
    ensures DecimalOf(s + [a, b, c]) == DecimalOf(s) * 1000 + DigitValue(a) * 100 + DigitValue(b) * 10 + DigitValue(c)
  {
    Snoc(s, a);
    Snoc(s + [a], b);
    Snoc(s + [a] + [b], c);
    assert s + [a] + [b] + [c] == s + [a, b, c];
  }

  const P1 := "" + ['9', '2', '2']
  const P2 := P1 + ['3', '3', '7']
  const P3 := P2 + ['2', '0', '3']
  const P4 := P3 + ['6', '8', '5']
  const P5 := P4 + ['4', '7', '7']
  const P6 := P5 + ['5', '8', '0']

  /** The 18 leading digits of both bounds. */
  lemma BoundPrefix()
    ensures AllDigits(P6) && DecimalOf(P6) == 922337203685477580
  {
    hide DecimalOf;
    assert DecimalOf("") == 0 by { ValNothing(); }
    Three("", '9', '2', '2');
    Three(P1, '3', '3', '7');
    Three(P2, '2', '0', '3');
    Three(P3, '6', '8', '5');
    Three(P4, '4', '7', '7');
    Three(P5, '5', '8', '0');
  }

  lemma ValNothing()
    ensures DecimalOf("") == 0
  {}

  lemma BoundValues()
    ensures |MAX_TEXT| == 19 && |MIN_TEXT| == 20 && MIN_TEXT[0] == '-'
    ensures AllDigits(MAX_TEXT) && DecimalOf(MAX_TEXT) == INT64_MAX
    ensures AllDigits(MIN_TEXT[1..]) && DecimalOf(MIN_TEXT[1..]) == -INT64_MIN
  {
    hide DecimalOf;
    BoundPrefix();
    Snoc(P6, '7');
    Snoc(P6, '8');
    assert MAX_TEXT == P6 + ['7'];
    assert MIN_TEXT[1..] == P6 + ['8'];
  }

  lemma {:induction false} Pow19()
    ensures Pow10(18) == 1_000_000_000_000_000_000 && Pow10(19) == 10_000_000_000_000_000_000
  {
    assert Pow10(6) == 1_000_000;
    assert Pow10(12) == 1_000_000_000_000;
  }

  /** Digits without a leading zero: up to 18 of them stay below both bounds, 20 or more do not. */
  lemma LengthBounds(s: string)
    requires IsNatural(s)
    ensures |s| <= 18 ==> DecimalOf(s) < Pow10(18)
    ensures |s| >= 20 ==> DecimalOf(s) >= Pow10(19)
  {
    hide DecimalOf, Pow10;
    if |s| <= 18 {
      ValBelow(s);
      Pow10Grows(|s|, 18);
    } else if |s| >= 20 {
      ValAbove(s);
      Pow10Grows(19, |s| - 1);
    }
  }

  /** The parser's test, by length and by comparing strings, accepts an integer of any length
      exactly when it can be held in 64 bits. */
  lemma FitsExact(s: string)
    requires IsInteger(s)
    ensures Fits(s) <==> INT64_MIN <= IntValue(s) <= INT64_MAX
  {
    hide DecimalOf, Pow10, StrCmp;
    BoundValues();
    Pow19();
    if s[0] == '-' {
      LengthBounds(s[1..]);
      if |s| == 20 {
        StrCmpIsOrder(MIN_TEXT[1..], s[1..]);
        CmpTail(MIN_TEXT, s);
      }
    } else {
      LengthBounds(s);
      if |s| == 19 {
        StrCmpIsOrder(MAX_TEXT, s);
      }
    }
  }

  lemma CmpTail(a: string, b: string)
    requires a != "" && b != "" && a[0] == b[0]
    ensures StrCmp(a, b) == StrCmp(a[1..], b[1..])
  {}

  /* ---- printing a number and reading it back ---- */

  lemma {:induction false} DigitsValue(n: nat)
    ensures AllDigits(Digits(n)) && IsNatural(Digits(n)) && DecimalOf(Digits(n)) == n
  {
    if n >= 10 {
      DigitsValue(n / 10);
      Snoc(Digits(n / 10), DigitChar(n % 10));
    }
  }

  lemma DecimalValue(n: int)
    ensures IsInteger(Decimal(n)) && IntValue(Decimal(n)) == n
  {
    DigitsValue(if n < 0 then -n else n);
    if n < 0 {
      assert Decimal(n)[1..] == Digits(-n);
    }
  }

  /** json_getInteger narrows to 32 bits. */
  function GetInteger(s: string): int
    requires IsInteger(s)
  {
    (IntValue(s) + 0x8000_0000) % 0x1_0000_0000 - 0x8000_0000
  }

  /** What is printed is read back as the same number exactly if that fits into 32 bits. */
  lemma GetIntegerExact(n: int)
    ensures IsInteger(Decimal(n))
    ensures GetInteger(Decimal(n)) == n <==> -0x8000_0000 <= n < 0x8000_0000
  {
    DecimalValue(n);
  }

  /* ---- scanning a number ---- */

  lemma {:induction false} GoNumOver(t: Memory, p: nat, q: nat)
    requires p <= q < |t| && AllDigits(t[p..q]) && t[q] != NUL && !IsDigit(t[q])
    ensures GoNum(t, p) == Some(q)
    decreases q - p
  {
    if p < q {
      assert t[p] == t[p..q][0];
      assert t[p + 1..q] == t[p..q][1..];
      GoNumOver(t, p + 1, q);
    }
  }

  /* ---- numbers of every form ---- */

  /** A digit string in the text. */
  lemma DigitsAt(t: Memory, p: nat, s: string)
    requires AreDigits(s) && p + |s| < |t| && t[p..p + |s|] == s
    ensures IsDigit(t[p]) && AllDigits(t[p..p + |s|])
    ensures t[p + |s|] != NUL && !IsDigit(t[p + |s|]) ==>
      GoNum(t, p) == Some(p + |s|) && GoNum(t, p + 1) == Some(p + |s|)
  {
    assert t[p] == t[p..p + |s|][0];
    if t[p + |s|] != NUL && !IsDigit(t[p + |s|]) {
      GoNumOver(t, p, p + |s|);
    }
  }

  lemma WholePart(t: Memory, p: nat, n: Numeral)
    requires ValidNumeral(n) && p + |SpellWhole(n)| < |t| && t[p..p + |SpellWhole(n)|] == SpellWhole(n)
    requires Behind(t[p + |SpellWhole(n)|])
    ensures IntegerPart(t, p) == Some(p + |SpellWhole(n)|)
  {
    var e := p + |SpellWhole(n)|;
    var q := if n.minus then p + 1 else p;
    assert t[p] == t[p..e][0];
    assert t[q..e] == n.whole;
    DigitsAt(t, q, n.whole);
    assert t[q] == n.whole[0];
  }

  lemma SplitTwo(t: string, p: nat, a: string, b: string)
    requires p + |a| + |b| <= |t| && t[p..p + |a| + |b|] == a + b
    ensures t[p..p + |a|] == a && t[p + |a|..p + |a| + |b|] == b
  {
    var u := t[p..p + |a| + |b|];
    forall i | 0 <= i < |a|
      ensures t[p + i] == a[i]
    {
      assert u[i] == a[i];
    }
    forall i | 0 <= i < |b|
      ensures t[p + |a| + i] == b[i]
    {
      assert u[|a| + i] == b[i];
    }
  }

  lemma SplitThree(t: string, p: nat, w: string, f: string, x: string)
    requires p + |w| + |f| + |x| <= |t| && t[p..p + |w| + |f| + |x|] == w + f + x
    ensures var a := p + |w|;
      var b := a + |f|;
      t[p..a] == w && t[a..b] == f && t[b..b + |x|] == x
  {
    SplitTwo(t, p, w + f, x);
    SplitTwo(t, p, w, f);
  }

  function FractionStart(t: Memory, a: nat): (r: Option<nat>)
    requires a < |t|
    ensures r.Some? ==> r.value < |t|
  {
    if t[a] == '.' then FraqValue(t, a + 1) else Some(a)
  }

  lemma FractionPart(t: Memory, a: nat, f: Option<string>)
    requires f.Some? ==> AreDigits(f.value)
    requires var b := a + |SpellFraction(f)|; b < |t| && t[a..b] == SpellFraction(f) && Behind(t[b]) && t[b] != '.'
    ensures FractionStart(t, a) == Some(a + |SpellFraction(f)|)
  {
    if f.Some? {
      var b: nat := a + 1 + |f.value|;
      assert t[a] == t[a..b][0];
      assert t[a + 1..b] == t[a..b][1..];
      DigitsAt(t, a + 1, f.value);
    }
  }

  function ExponentStart(t: Memory, b: nat): (r: Option<nat>)
    requires b < |t|
    ensures r.Some? ==> r.value < |t|
  {
    if t[b] == 'e' || t[b] == 'E' then ExpValue(t, b + 1) else Some(b)
  }

  lemma ExponentPart(t: Memory, b: nat, x: Option<Exponent>)
    requires x.Some? ==> ValidExponent(x.value)
    requires var e := b + |SpellExponent(x)|; e < |t| && t[b..e] == SpellExponent(x) && EndOfPrimitive(t[e])
    ensures Behind(t[b]) && t[b] != '.'
    ensures ExponentStart(t, b) == Some(b + |SpellExponent(x)|)
  {
    if x.Some? {
      ExponentRead(t, b, x.value);
    }
  }

  lemma ExponentRead(t: Memory, b: nat, x: Exponent)
    requires ValidExponent(x) && b + 1 + |x.sign| + |x.digits| < |t|
    requires t[b..b + 1 + |x.sign| + |x.digits|] == [x.e] + x.sign + x.digits
    requires EndOfPrimitive(t[b + 1 + |x.sign| + |x.digits|])
    ensures t[b] == x.e && ExpValue(t, b + 1) == Some(b + 1 + |x.sign| + |x.digits|)
  {
    var q: nat := b + 1 + |x.sign|;
    SplitThree(t, b, [x.e], x.sign, x.digits);
    assert t[b] == t[b..b + 1][0];
    if x.sign != "" {
      assert t[b + 1] == t[b + 1..q][0];
    }
    DigitsAt(t, q, x.digits);
    hide GoNum, AllDigits, AreDigits;
  }

  /** Digits cannot go on here. */
  predicate Behind(c: char) {
    c != NUL && !IsDigit(c)
  }

  lemma FractionFirst(t: string, a: nat, f: Option<string>)
    requires var b := a + |SpellFraction(f)|; b < |t| && t[a..b] == SpellFraction(f) && Behind(t[b])
    ensures Behind(t[a])
  {
    if f.Some? {
      assert t[a] == t[a..a + |SpellFraction(f)|][0];
    }
  }

  lemma SplitNumber(t: string, p: nat, n: Numeral)
    requires p + |SpellNumber(n)| < |t| && t[p..p + |SpellNumber(n)|] == SpellNumber(n)
    ensures var a := p + |SpellWhole(n)|;
      var b := a + |SpellFraction(n.fraction)|;
      && b + |SpellExponent(n.exponent)| == p + |SpellNumber(n)|
      && t[p..a] == SpellWhole(n) && t[a..b] == SpellFraction(n.fraction)
      && t[b..b + |SpellExponent(n.exponent)|] == SpellExponent(n.exponent)
  {
    SplitThree(t, p, SpellWhole(n), SpellFraction(n.fraction), SpellExponent(n.exponent));
    hide SpellWhole, SpellFraction, SpellExponent;
  }

  lemma NumberStages(t: Memory, p: nat, a: nat, b: nat, e: nat)
    requires p < |t| && IntegerPart(t, p) == Some(a)
    requires a < |t| && FractionStart(t, a) == Some(b) && b < |t| && ExponentStart(t, b) == Some(e)
    requires e < |t| && EndOfPrimitive(t[e])
    ensures Number(t, p) == Some(Lexeme(e, if a == e then INTEGER else REAL))
  {
    hide IntegerPart, FraqValue, ExpValue, EndOfPrimitive;
  }

  /** The scanner takes the whole of every number that JSON allows. */
  lemma NumberReads(t: Memory, p: nat, n: Numeral)
    requires ValidNumeral(n) && p + |SpellNumber(n)| < |t| && t[p..p + |SpellNumber(n)|] == SpellNumber(n)
    requires EndOfPrimitive(t[p + |SpellNumber(n)|])
    ensures Number(t, p) == Some(Lexeme(p + |SpellNumber(n)|, if IsWhole(n) then INTEGER else REAL))
  {
    hide Number, IntegerPart, FractionStart, ExponentStart, SpellWhole, SpellFraction, SpellExponent, SpellNumber,
         EndOfPrimitive, ValidExponent, AreDigits, Behind, IsWhole;
    var e: nat := p + |SpellNumber(n)|;
    var a: nat := p + |SpellWhole(n)|;
    var b: nat := a + |SpellFraction(n.fraction)|;
    NothingSpelled(n);
    SplitNumber(t, p, n);
    ExponentPart(t, b, n.exponent);
    FractionPart(t, a, n.fraction);
    FractionFirst(t, a, n.fraction);
    WholePart(t, p, n);
    NumberStages(t, p, a, b, e);
  }

  lemma NothingSpelled(n: Numeral)
    ensures IsWhole(n) <==> |SpellWhole(n)| == |SpellNumber(n)|
  {}

  lemma WholeIsInteger(n: Numeral)
    requires ValidNumeral(n) && IsWhole(n)
    ensures IsInteger(SpellNumber(n)) && IntValue(SpellNumber(n)) == WholeValue(n)
  {
    assert SpellNumber(n) == SpellWhole(n);
    if n.minus {
      assert SpellWhole(n)[1..] == n.whole;
    } else {
      assert SpellWhole(n) == n.whole;
    }
  }

  /** The number parser takes every number that JSON allows, except integers beyond 64 bits. */
  lemma NumValueReads(t: Memory, p: nat, n: Numeral)
    requires ValidNumeral(n) && p + |SpellNumber(n)| < |t| && t[p..p + |SpellNumber(n)|] == SpellNumber(n)
    requires EndOfPrimitive(t[p + |SpellNumber(n)|])
    ensures NumValue(t, p) ==
            if IsWhole(n) && !(INT64_MIN <= WholeValue(n) <= INT64_MAX) then None
            else Some((SetToNull(t, p + |SpellNumber(n)|), if IsWhole(n) then INTEGER else REAL))
  {
    hide Fits, IsInteger, IntValue, Number, WholeValue, SpellNumber;
    NumberReads(t, p, n);
    if IsWhole(n) {
      WholeIsInteger(n);
      FitsExact(SpellNumber(n));
    }
  }
}
