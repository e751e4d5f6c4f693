/** What a CRC is: the remainder of a long division of polynomials over the field of two elements.
    A polynomial is the list of its coefficients, the leading one first. */
module Division {
  type Bits = seq<bool>

  function XorBits(x: Bits, y: Bits): (r: Bits)
    requires |x| == |y|
    ensures |r| == |x|
  {
    seq(|x|, i requires 0 <= i < |x| => x[i] != y[i])
  }

  /** Subtract g from the leading coefficients of x. */
  function XorFront(x: Bits, g: Bits): (r: Bits)
    requires |g| <= |x|
    ensures |r| == |x|
  {
    XorBits(x[..|g|], g) + x[|g|..]
  }

  function Zeros(n: nat): (r: Bits)
    ensures |r| == n
  {
    seq(n, i => false)
  }

  function Ones(n: nat): (r: Bits)
    ensures |r| == n
  {
    seq(n, i => true)
  }

  /** The remainder of x after long division by a polynomial with leading coefficient one and g behind it:
      from the left, the divisor is subtracted wherever a one stands. */
  function Remainder(x: Bits, g: Bits): (r: Bits)
    requires |g| <= |x|
    ensures |r| == |g|
    decreases |x|
  {
    if |x| == |g| then x
    else if x[0] then Remainder(XorFront(x[1..], g), g)
    else Remainder(x[1..], g)
  }

  /* ---- the register ---- */

  /** One bit enters a register, the end of which is the constant coefficient. */
  function Shift(c: Bits, b: bool, g: Bits): (r: Bits)
    requires |c| == |g| > 0
    ensures |r| == |g|
  {
    var s := c[1..] + [false];
    if c[0] != b then XorBits(s, g) else s
  }

  function ShiftAll(c: Bits, m: Bits, g: Bits): (r: Bits)
    requires |c| == |g| > 0
    ensures |r| == |g|
    decreases |m|
  {
    if m == [] then c else ShiftAll(Shift(c, m[0], g), m[1..], g)
  }

  lemma FrontAt(x: Bits, g: Bits, i: nat)
    requires |g| <= |x| && i < |x|
    ensures XorFront(x, g)[i] == if i < |g| then x[i] != g[i] else x[i]
  {}

  lemma ShiftAt(c: Bits, b: bool, y: Bits, g: Bits, i: nat)
    requires |c| == |g| > 0 && |g| <= |y| && i < |y|
    ensures var x := XorFront([b] + y, c);
      XorFront(y, Shift(c, b, g))[i] == (if x[0] && i < |g| then x[i + 1] != g[i] else x[i + 1])
  {
    FrontAt(y, Shift(c, b, g), i);
    FrontAt([b] + y, c, i + 1);
    FrontAt([b] + y, c, 0);
    hide XorFront;
  }

  lemma ShiftIs(c: Bits, b: bool, m: Bits, g: Bits)
    requires |c| == |g| > 0
    ensures var x := XorFront([b] + m + Zeros(|g|), c);
      && |x| > |g|
      && XorFront(m + Zeros(|g|), Shift(c, b, g)) == if x[0] then XorFront(x[1..], g) else x[1..]
  {
    hide XorFront, Shift;
    var y := m + Zeros(|g|);
    assert [b] + m + Zeros(|g|) == [b] + y;
    var x := XorFront([b] + y, c);
    forall i | 0 <= i < |y|
      ensures XorFront(y, Shift(c, b, g))[i] == (if x[0] then XorFront(x[1..], g) else x[1..])[i]
    {
      ShiftAt(c, b, y, g, i);
      FrontAt(x[1..], g, i);
    }
  }

  /** The register holds the remainder of what has entered, followed by zeros for its own length. */
  lemma {:induction false} ShiftAllIsRemainder(c: Bits, m: Bits, g: Bits)
    requires |c| == |g| > 0
    ensures ShiftAll(c, m, g) == Remainder(XorFront(m + Zeros(|g|), c), g)
    decreases |m|
  {
    hide XorFront, Shift;
    if m == [] {
      assert [] + Zeros(|g|) == Zeros(|g|);
      FrontOfZeros(c);
    } else {
      assert m == [m[0]] + m[1..];
      ShiftIs(c, m[0], m[1..], g);
      ShiftAllIsRemainder(Shift(c, m[0], g), m[1..], g);
    }
  }

  lemma FrontOfZeros(c: Bits)
    ensures XorFront(Zeros(|c|), c) == c
  {}

  /* ---- several bits at once ---- */

  lemma ShiftOne(c: Bits, g: Bits)
    requires |c| == |g| > 0
    ensures ShiftAll(c, [false], g) == Shift(c, false, g)
  {
    hide Shift;
    assert [false][1..] == [];
  }

  lemma FrontIs(c: Bits, m: Bits)
    requires |m| <= |c|
    ensures XorBits(c, m + Zeros(|c| - |m|)) == XorFront(c, m)
  {}

  lemma ShiftCommutes(c: Bits, b: bool, m: Bits, g: Bits)
    requires |c| == |g| > |m|
    ensures Shift(XorFront(c, [b] + m), false, g) == XorFront(Shift(c, b, g), m)
  {}

  /** Bits may enter the register all at once, in front of the shifts. */
  lemma {:induction false} ShiftTogether(c: Bits, m: Bits, g: Bits)
    requires |c| == |g| > 0 && |m| <= |g|
    ensures ShiftAll(c, m, g) == ShiftAll(XorFront(c, m), Zeros(|m|), g)
    decreases |m|
  {
    hide XorFront, Shift;
    if m == [] {
      NothingInFront(c);
    } else {
      assert m == [m[0]] + m[1..];
      assert Zeros(|m|)[1..] == Zeros(|m| - 1);
      ShiftCommutes(c, m[0], m[1..], g);
      ShiftTogether(Shift(c, m[0], g), m[1..], g);
    }
  }

  lemma NothingInFront(c: Bits)
    ensures XorFront(c, []) == c
  {}

  lemma {:induction false} ShiftAllAppend(c: Bits, m: Bits, n: Bits, g: Bits)
    requires |c| == |g| > 0
    ensures ShiftAll(c, m + n, g) == ShiftAll(ShiftAll(c, m, g), n, g)
    decreases |m|
  {
    hide Shift;
    if m == [] {
      assert m + n == n;
    } else {
      assert (m + n)[1..] == m[1..] + n;
      ShiftAllAppend(Shift(c, m[0], g), m[1..], n, g);
    }
  }

  /* ---- the code word ---- */

  lemma ShiftZero(c: Bits, g: Bits)
    requires |c| == |g| > 0 && g[|g| - 1]
    ensures Shift(c, false, g) == Zeros(|g|) <==> c == Zeros(|g|)
  {
    var s := Shift(c, false, g);
    if s == Zeros(|g|) {
      assert !s[|g| - 1];
      assert !c[0];
      forall i | 0 < i < |g|
        ensures !c[i]
      {
        assert s[i - 1] == c[i];
      }
    }
  }

  lemma {:induction false} ShiftsZero(c: Bits, n: nat, g: Bits)
    requires |c| == |g| > 0 && g[|g| - 1]
    ensures ShiftAll(c, Zeros(n), g) == Zeros(|g|) <==> c == Zeros(|g|)
    decreases n
  {
    hide Shift;
    if n > 0 {
      assert Zeros(n)[1..] == Zeros(n - 1);
      ShiftZero(c, g);
      ShiftsZero(Shift(c, false, g), n - 1, g);
    }
  }

  /** What is followed by its own remainder, and by nothing else of this length, leaves no remainder. */
  lemma CodeWord(c: Bits, t: Bits, g: Bits)
    requires |c| == |g| == |t| > 0 && g[|g| - 1]
    ensures ShiftAll(c, t, g) == Zeros(|g|) <==> t == c
  {
    ShiftTogether(c, t, g);
    ShiftsZero(XorFront(c, t), |g|, g);
    var x := XorFront(c, t);
    assert forall i :: 0 <= i < |g| ==> x[i] == (c[i] != t[i]);
    if x == Zeros(|g|) {
      assert forall i :: 0 <= i < |g| ==> !x[i];
    }
    if t == c {
      assert x == Zeros(|g|);
    }
  }
}
