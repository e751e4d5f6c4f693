/** The loops: the table generator, and the CRC by table and bit by bit. */
module CrcLoops {
  import opened Words
  import opened WordBits
  import opened Crc16
  import opened CrcTable

  lemma OctetIndex(n: nat)
    requires n < 256
    ensures (n as Octet) as Word == n as Word
  {}

  lemma OctetLow(b: Octet)
    ensures (b as Word) & 0xFF00 == 0
  {}

  lemma EntryIs(b: Octet)
    ensures Lookup(b as Word) == Entry(b)
  {
    OctetLow(b);
    TableIs(b as Word);
    hide BitSteps, Lookup;
  }

  lemma ShiftedByte(c: Word)
    ensures c << 8 == High(LowerByte(c))
  {}

  /** Fill a table: entry n is n, shifted up and worked off bit by bit. */
  method GenerateTable(table: array<Word>)
    requires table.Length == 256
    modifies table
    ensures forall n :: 0 <= n < 256 ==> table[n] == Worked(n as Word)
    ensures forall n :: 0 <= n < 256 ==> table[n] == Lookup(n as Word)
  {
    hide Lookup, BitSteps;
    for i := 0 to 256
      invariant forall n :: 0 <= n < i ==> table[n] == Worked(n as Word)
    {
      var result := (i as Word) << 8;
      ghost var start := result;
      assert BitSteps(0, start) == start by { NoSteps(start); }
      for j := 0 to 8
        invariant result == BitSteps(j, start)
        invariant forall n :: 0 <= n < i ==> table[n] == Worked(n as Word)
      {
        NextStep(j, start);
        var flag := result & 0x8000;
        TopFlag(result);
        result := result << 1;
        if flag != 0 {
          result := Xor(result, POLYNOMIAL);
        }
      }
      table[i] := result;
    }
    forall n | 0 <= n < 256
      ensures table[n] == Lookup(n as Word)
    {
      OctetIndex(n);
      OctetLow(n as Octet);
      TableIs(n as Word);
    }
  }

  lemma NoSteps(x: Word)
    ensures BitSteps(0, x) == x
  {}

  lemma TopFlag(x: Word)
    ensures x & 0x8000 != 0 <==> TopBit(x)
    ensures BitStep(x) == if TopBit(x) then Xor(x << 1, POLYNOMIAL) else x << 1
  {}

  lemma UpdateNext(c: Word, s: seq<Octet>, i: nat)
    requires i < |s|
    ensures Update(c, s[..i + 1]) == ByteStep(Update(c, s[..i]), s[i])
  {
    assert s[..i + 1] == s[..i] + [s[i]];
    UpdateSnoc(c, s[..i], s[i]);
  }

  /** The CRC by table: a lookup for each byte. */
  method Calculate(buffer: array?<Octet>, length: nat) returns (c: Word)
    requires buffer != null ==> length <= buffer.Length
    ensures c == if buffer == null then 0 else Crc(buffer[..length])
  {
    hide Lookup, BitSteps, ByteStep, UpperByte, LowerByte, High, Update;
    c := 0;
    if buffer != null {
      c := INIT;
      ghost var s := buffer[..length];
      assert s[..0] == [];
      EmptyUpdate();
      for i := 0 to length
        invariant c == Update(INIT, s[..i])
      {
        UpdateNext(INIT, s, i);
        var b := buffer[i];
        TableStep(c, b);
        var k := UpperByte(c) ^ b;
        EntryIs(k);
        ShiftedByte(c);
        c := Xor(c << 8, Lookup(k as Word));
      }
      assert s[..length] == s;
    }
  }

  lemma EmptyUpdate()
    ensures Update(INIT, []) == INIT
  {}

  /* ---- bit by bit, in 32 bits that are never cut ---- */

  type Wide = bv32

  /** The sixteen bits that count. */
  function Narrow(r: Wide): Word {
    (r & 0xFFFF) as Word
  }

  lemma WideStep(r: Wide)
    ensures r & 0x8000 != 0 <==> TopBit(Narrow(r))
    ensures Narrow(r << 1) == Left(Narrow(r))
    ensures Narrow((r << 1) ^ 0x1021) == Xor(Left(Narrow(r)), POLYNOMIAL)
  {}

  lemma WideByte(r: Wide, b: Octet)
    ensures Narrow(r ^ ((b as Wide) << 8)) == Xor(Narrow(r), High(b))
  {}

  /** The CRC bit by bit: what is left in the upper bits never matters. */
  method CalculateBitwise(buffer: array?<Octet>, length: nat) returns (c: Word)
    requires buffer != null ==> length <= buffer.Length
    ensures c == if buffer == null then 0 else Crc(buffer[..length])
  {
    hide Narrow, BitSteps, TopBit, Left, High, Update;
    var r: Wide := 0;
    assert Narrow(r) == 0 by { NarrowStart(); }
    if buffer != null {
      r := 0xFFFF;
      NarrowStart();
      ghost var s := buffer[..length];
      assert s[..0] == [];
      EmptyUpdate();
      for i := 0 to length
        invariant Narrow(r) == Update(INIT, s[..i])
      {
        UpdateNext(INIT, s, i);
        WideByte(r, buffer[i]);
        r := r ^ ((buffer[i] as Wide) << 8);
        ghost var start := Narrow(r);
        NoSteps(start);
        for j := 0 to 8
          invariant Narrow(r) == BitSteps(j, start)
        {
          NextStep(j, start);
          WideStep(r);
          if r & 0x8000 != 0 {
            r := (r << 1) ^ 0x1021;
          } else {
            r := r << 1;
          }
        }
      }
      assert s[..length] == s;
    }
    c := Narrow(r);
  }

  lemma NarrowStart()
    ensures Narrow(0) == 0 && Narrow(0xFFFF) == INIT
  {}
}
