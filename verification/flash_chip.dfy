/** A NOR flash chip behind SPI: programming can only clear bits, wraps within a page of 256 bytes and
    must be enabled first; erasing sets a sector of 4096 bytes to ones. */
module FlashChip {
  import opened Bytes

  type Octet = bv8

  const PAGE := 256
  const SECTOR := 4096
  const BLOCK := 65536

  const ERASED: Octet := 0xFF

  /** Chips of 32 MiB and more take addresses of four bytes. */
  datatype Chip = Chip(cells: seq<Octet>, wide: bool, enabled: bool, programs: seq<(nat, nat)>)

  predicate ValidChip(c: Chip) {
    && |c.cells| > 0 && |c.cells| % BLOCK == 0
    && |c.cells| <= if c.wide then 0x400_0000 else 0x100_0000
  }

  /* ---- commands ---- */

  /** The address as it is sent, most significant byte first. */
  function AddressBytes(a: nat, wide: bool): seq<byte> {
    (if wide then [(a / 0x100_0000) % 256] else []) + [(a / 0x1_0000) % 256, (a / 0x100) % 256, a % 256]
  }

  /** The address as the chip takes it. */
  function Address(b: seq<byte>): nat {
    if b == [] then 0 else Address(b[..|b| - 1]) * 256 + b[|b| - 1] as int
  }

  lemma AddressArrives(a: nat, wide: bool)
    requires a < if wide then 0x1_0000_0000 else 0x100_0000
    ensures Address(AddressBytes(a, wide)) == a
  {
    var x, y, z, w: byte := (a / 0x100_0000) % 256, (a / 0x1_0000) % 256, (a / 0x100) % 256, a % 256;
    Digits(a);
    if wide {
      assert AddressBytes(a, wide) == [x, y, z, w];
      Address4(x, y, z, w);
    } else {
      assert AddressBytes(a, wide) == [y, z, w];
      Address3(y, z, w);
    }
  }

  lemma Digits(a: nat)
    requires a < 0x1_0000_0000
    ensures (((a / 0x100_0000) % 256 * 256 + (a / 0x1_0000) % 256) * 256 + (a / 0x100) % 256) * 256 + a % 256 == a
    ensures a < 0x100_0000 ==> ((a / 0x1_0000) % 256 * 256 + (a / 0x100) % 256) * 256 + a % 256 == a
  {
    var b: nat := a / 0x100;
    var c: nat := b / 0x100;
    DivideTwice(a, 0x100);
    DivideTwice(a, 0x1_0000);
    assert a == 0x100 * b + a % 0x100 && b == 0x100 * c + b % 0x100 && c == 0x100 * (c / 0x100) + c % 0x100;
  }

  lemma DivideTwice(a: nat, k: nat)
    requires k == 0x100 || k == 0x1_0000
    ensures a / (k * 0x100) == a / k / 0x100
  {}

  lemma Address3(y: byte, z: byte, w: byte)
    ensures Address([y, z, w]) == (y as int * 256 + z as int) * 256 + w as int
  {
    assert [y, z, w][..2] == [y, z] && [y, z][..1] == [y] && [y][..0] == [];
    assert Address([y]) == y as int;
    assert Address([y, z]) == y as int * 256 + z as int;
  }

  lemma Address4(x: byte, y: byte, z: byte, w: byte)
    ensures Address([x, y, z, w]) == ((x as int * 256 + y as int) * 256 + z as int) * 256 + w as int
  {
    assert [x, y, z, w][..3] == [x, y, z];
    Address3(x, y, z);
  }

  /** Where byte i of a program command goes: the position wraps within the page. */
  function Target(a: nat, i: nat): nat {
    a / 256 * 256 + (a + i) % 256
  }

  /** Program bytes one after the other; bits can only be cleared. */
  function ProgramPage(cells: seq<Octet>, a: nat, d: seq<Octet>): (r: seq<Octet>)
    requires |cells| % PAGE == 0 && a < |cells|
    ensures |r| == |cells|
  {
    if d == [] then cells
    else
      var r := ProgramPage(cells, a, d[..|d| - 1]);
      var k := Target(a, |d| - 1);
      r[k := r[k] & d[|d| - 1]]
  }

  function Program(c: Chip, a: nat, d: seq<Octet>): Chip
    requires ValidChip(c) && a < |c.cells|
  {
    if !c.enabled then c
    else c.(cells := ProgramPage(c.cells, a, d), enabled := false, programs := c.programs + [(a, |d|)])
  }

  function EraseAt(c: Chip, a: nat): Chip
    requires ValidChip(c) && a < |c.cells|
  {
    if !c.enabled then c
    else
      var s := a / 4096 * 4096;
      c.(cells := seq(|c.cells|, i requires 0 <= i < |c.cells| => if s <= i < s + 4096 then 0xFF else c.cells[i]),
          enabled := false)
  }

  /** What the chip does with a command, its address and its data; an address beyond the end is outside this model. */
  function Execute(c: Chip, command: byte, address: seq<byte>, d: seq<Octet>): Chip
    requires ValidChip(c)
  {
    if command == 0x06 then c.(enabled := true)
    else if Address(address) >= |c.cells| then c
    else if command == (if c.wide then 0x12 else 0x02) then Program(c, Address(address), d)
    else if command == (if c.wide then 0x21 else 0x20) then EraseAt(c, Address(address))
    else c
  }

  /** The bytes that the chip sends for a read command; reading on past the end starts over at 0. */
  function ReadOut(c: Chip, command: byte, address: seq<byte>, n: nat): (r: seq<Octet>)
    requires ValidChip(c)
    ensures |r| == n
  {
    if command == (if c.wide then 0x0C else 0x0B) then
      seq(n, i requires 0 <= i < n => c.cells[(Address(address) + i) % |c.cells|])
    else seq(n, i => ERASED)
  }

  lemma ReadsCells(c: Chip, address: seq<byte>, n: nat)
    requires ValidChip(c) && Address(address) + n <= |c.cells|
    ensures ReadOut(c, if c.wide then 0x0C else 0x0B, address, n) ==
        c.cells[Address(address)..Address(address) + n]
  {
    hide Address;
    var a := Address(address);
    var r := ReadOut(c, if c.wide then 0x0C else 0x0B, address, n);
    forall i | 0 <= i < n
      ensures r[i] == c.cells[a..a + n][i]
    {
      InRange(a + i, |c.cells|);
    }
  }

  lemma InRange(k: nat, size: nat)
    requires k < size
    ensures k % size == k
  {}

  /* ---- flat memory ---- */

  /** Clear, from a on, the bits that d does not have. */
  function Merge(cells: seq<Octet>, a: nat, d: seq<Octet>): (r: seq<Octet>)
    requires a + |d| <= |cells|
    ensures |r| == |cells|
  {
    seq(|cells|, i requires 0 <= i < |cells| => if a <= i < a + |d| then cells[i] & d[i - a] else cells[i])
  }

  lemma MergeTwice(cells: seq<Octet>, a: nat, x: seq<Octet>, y: seq<Octet>)
    requires a + |x| + |y| <= |cells|
    ensures Merge(Merge(cells, a, x), a + |x|, y) == Merge(cells, a, x + y)
  {}

  /** A program command that stays within its page acts on flat memory. */
  lemma {:induction false} ProgramIsMerge(cells: seq<Octet>, a: nat, d: seq<Octet>)
    requires |cells| % PAGE == 0 && a < |cells| && a % PAGE + |d| <= PAGE
    ensures a + |d| <= |cells|
    ensures ProgramPage(cells, a, d) == Merge(cells, a, d)
    decreases |d|
  {
    PageRoom(|cells|, a, |d|);
    if d != [] {
      hide Target;
      var e := d[..|d| - 1];
      ProgramIsMerge(cells, a, e);
      NoWrap(a, |d| - 1);
    }
  }

  lemma PageRoom(n: nat, a: nat, k: nat)
    requires n % PAGE == 0 && a < n && a % PAGE + k <= PAGE
    ensures a + k <= n
  {}

  lemma NoWrap(a: nat, i: nat)
    requires a % PAGE + i < PAGE
    ensures Target(a, i) == a + i
  {}

  lemma AndOnes(x: Octet)
    ensures ERASED & x == x
  {}

  /** After a write, memory holds the data exactly if no bit would have had to be set; the rest is unchanged. */
  lemma MergeExact(cells: seq<Octet>, a: nat, d: seq<Octet>)
    requires a + |d| <= |cells|
    ensures Merge(cells, a, d)[a..a + |d|] == d <==> forall i :: 0 <= i < |d| ==> cells[a + i] & d[i] == d[i]
    ensures Merge(cells, a, d)[..a] == cells[..a] && Merge(cells, a, d)[a + |d|..] == cells[a + |d|..]
  {
    var m := Merge(cells, a, d)[a..a + |d|];
    assert forall i :: 0 <= i < |d| ==> m[i] == cells[a + i] & d[i];
    if m == d {
      assert forall i :: 0 <= i < |d| ==> m[i] == d[i];
    }
  }

  /** On erased cells a write stores the data. */
  lemma MergeErased(cells: seq<Octet>, a: nat, d: seq<Octet>)
    requires a + |d| <= |cells| && forall i :: a <= i < a + |d| ==> cells[i] == ERASED
    ensures Merge(cells, a, d)[a..a + |d|] == d
  {
    forall i | 0 <= i < |d|
      ensures cells[a + i] & d[i] == d[i]
    {
      AndOnes(d[i]);
    }
    MergeExact(cells, a, d);
  }
}
