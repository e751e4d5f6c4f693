/** Sixteen-bit words under exclusive or. Every fact is a lemma of its own, so that
    proofs above this module never hand the solver a large bit-vector formula. */
module Words {
  type Word = bv16

  function Xor(x: Word, y: Word): Word {
    x ^ y
  }

  lemma XorUnit(x: Word)
    ensures Xor(x, x) == 0 && Xor(x, 0) == x && Xor(0, x) == x
  {}

  lemma XorAssoc(x: Word, y: Word, z: Word)
    ensures Xor(Xor(x, y), z) == Xor(x, Xor(y, z))
  {
    assert (x ^ y) ^ z == x ^ (y ^ z);
  }

  lemma XorComm(x: Word, y: Word)
    ensures Xor(x, y) == Xor(y, x)
  {
    assert x ^ y == y ^ x;
  }

  lemma XorSwap(a: Word, b: Word, c: Word, d: Word)
    ensures Xor(Xor(a, b), Xor(c, d)) == Xor(Xor(a, c), Xor(b, d))
  {
    XorAssoc(a, b, Xor(c, d));
    XorAssoc(b, c, d);
    XorComm(b, c);
    XorAssoc(c, b, d);
    XorAssoc(a, c, Xor(b, d));
  }

  lemma XorCancel(x: Word, y: Word)
    requires Xor(x, y) == 0
    ensures x == y
  {
    XorAssoc(x, y, y);
    XorUnit(x);
    XorUnit(y);
  }

  lemma OctetNext(b: bv8)
    requires b != 255
    ensures (b + 1) as int == b as int + 1
  {}

  lemma OctetIs(b: bv8, n: nat)
    requires b as int == n
    ensures n < 256 && b == n as bv8
  {}

  lemma {:induction false} OctetFor(n: nat) returns (b: bv8)
    requires n < 256
    ensures b as int == n
  {
    if n == 0 {
      b := 0;
    } else {
      var c := OctetFor(n - 1);
      OctetNext(c);
      b := c + 1;
    }
  }

  /** An octet holds any number below 256. */
  lemma OctetHolds(n: nat)
    requires n < 256
    ensures (n as bv8) as int == n
  {
    var b := OctetFor(n);
    OctetIs(b, n);
  }

  lemma WordIs(w: Word, n: nat)
    requires w as int == n
    ensures n < 0x1_0000 && n as Word == w
  {}

  lemma JoinHalves(h: bv8, l: bv8)
    ensures (((h as Word) << 8) | l as Word) as int == h as int * 256 + l as int
  {}

  /** A word holds any number below 65536. */
  lemma WordHolds(n: nat)
    requires n < 0x1_0000
    ensures (n as Word) as int == n
  {
    var h := OctetFor(n / 256);
    var l := OctetFor(n % 256);
    JoinHalves(h, l);
    WordIs(((h as Word) << 8) | l as Word, n);
  }
}
