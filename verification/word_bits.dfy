/** The single bits of words and octets. */
module WordBits {
  import opened Words

  /** The value of bit i of a word. */
  function Weight(i: nat): Word {
    match i
    case 0 => 0x0001
    case 1 => 0x0002
    case 2 => 0x0004
    case 3 => 0x0008
    case 4 => 0x0010
    case 5 => 0x0020
    case 6 => 0x0040
    case 7 => 0x0080
    case 8 => 0x0100
    case 9 => 0x0200
    case 10 => 0x0400
    case 11 => 0x0800
    case 12 => 0x1000
    case 13 => 0x2000
    case 14 => 0x4000
    case _ => 0x8000
  }

  function And(x: Word, y: Word): Word {
    x & y
  }

  predicate At(c: Word, i: nat) {
    And(c, Weight(i)) != 0
  }

  function OctetWeight(i: nat): bv8 {
    match i
    case 0 => 0x01
    case 1 => 0x02
    case 2 => 0x04
    case 3 => 0x08
    case 4 => 0x10
    case 5 => 0x20
    case 6 => 0x40
    case _ => 0x80
  }

  predicate Is(b: bv8, i: nat) {
    b & OctetWeight(i) != 0
  }

  lemma WeightSingle(x: Word, i: nat)
    ensures And(x, Weight(i)) == 0 || And(x, Weight(i)) == Weight(i)
    ensures Weight(i) != 0
  {}

  lemma AndXor(x: Word, y: Word, m: Word)
    ensures And(Xor(x, y), m) == Xor(And(x, m), And(y, m))
  {
    assert (x ^ y) & m == (x & m) ^ (y & m);
  }

  lemma XorTwo(a: Word, b: Word, m: Word)
    requires m != 0 && (a == 0 || a == m) && (b == 0 || b == m)
    ensures Xor(a, b) != 0 <==> (a != 0) != (b != 0)
  {
    XorUnit(m);
    XorUnit(0);
    hide Xor;
  }

  lemma XorAt(x: Word, y: Word, i: nat)
    ensures At(Xor(x, y), i) == (At(x, i) != At(y, i))
  {
    hide Xor, And, Weight;
    WeightSingle(x, i);
    WeightSingle(y, i);
    AndXor(x, y, Weight(i));
    XorTwo(And(x, Weight(i)), And(y, Weight(i)), Weight(i));
  }

  function Left(x: Word): Word {
    x << 1
  }

  lemma AndLeft(x: Word, m: Word)
    ensures And(Left(x), Left(m)) == Left(And(x, m))
    ensures And(Left(x), 1) == 0 && Left(0) == 0
  {}

  lemma WeightLeft(i: nat)
    requires i < 16
    ensures Weight(i) == if i == 0 then 1 else Left(Weight(i - 1))
  {}

  lemma LeftAt(x: Word, i: nat)
    requires i < 16
    ensures At(Left(x), i) == (i > 0 && At(x, i - 1))
  {
    hide And, Left, Weight;
    WeightLeft(i);
    if i == 0 {
      AndLeft(x, 1);
    } else {
      WeightSingle(x, i - 1);
      WeightSingle(x, i);
      AndLeft(x, Weight(i - 1));
    }
  }

  function Right(x: Word): Word {
    x >> 1
  }

  lemma AndRight(x: Word, m: Word)
    ensures And(Right(x), Right(m)) == Right(And(x, m))
    ensures And(Right(x), 0x8000) == 0 && Right(0) == 0
  {}

  lemma WeightRight(i: nat)
    requires i < 16
    ensures Weight(i) == if i == 15 then 0x8000 else Right(Weight(i + 1))
  {}

  lemma RightAt(x: Word, i: nat)
    requires i < 16
    ensures At(Right(x), i) == (i < 15 && At(x, i + 1))
  {
    hide And, Right, Weight;
    WeightRight(i);
    if i == 15 {
      AndRight(x, 0x8000);
    } else {
      WeightSingle(x, i + 1);
      WeightSingle(x, i);
      AndRight(x, Weight(i + 1));
    }
  }
}
