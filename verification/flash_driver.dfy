/** The W25Q driver: a byte range is split at sectors, a sector range at pages. */
module FlashDriver {
  import opened Bytes
  import opened FlashChip

  /* ---- the commands that the driver sends ---- */

  const WRITE_ENABLE: byte := 0x06
  const PAGE_PROGRAM: byte := 0x02
  const PAGE_PROGRAM_WIDE: byte := 0x12
  const SECTOR_ERASE: byte := 0x20
  const SECTOR_ERASE_WIDE: byte := 0x21
  const FAST_READ: byte := 0x0B
  const FAST_READ_WIDE: byte := 0x0C

  function PageToSector(page: nat): nat {
    page * PAGE / SECTOR
  }

  function PageToBlock(page: nat): nat {
    page * PAGE / BLOCK
  }

  function SectorToBlock(sector: nat): nat {
    sector * SECTOR / BLOCK
  }

  function SectorToPage(sector: nat): nat {
    sector * SECTOR / PAGE
  }

  function BlockToPage(block: nat): nat {
    block * BLOCK / PAGE
  }

  /** The conversions agree with each other, and going down and up again leads back. */
  lemma ConversionsAgree(page: nat, sector: nat, block: nat)
    ensures PageToSector(SectorToPage(sector)) == sector && PageToBlock(BlockToPage(block)) == block
    ensures SectorToBlock(PageToSector(page)) == PageToBlock(page)
    ensures SectorToPage(PageToSector(page)) <= page < SectorToPage(PageToSector(page) + 1)
  {
    assert SectorToPage(sector) == 16 * sector && BlockToPage(block) == 256 * block;
    assert PageToSector(page) == page / 16 && PageToBlock(page) == page / 256;
  }

  /** From c to d memory has taken the data as flat memory would, by programs that stay within a page each. */
  ghost predicate Written(c: Chip, d: Chip, a: nat, data: seq<Octet>)
    requires a + |data| <= |c.cells|
  {
    && d.cells == Merge(c.cells, a, data) && d.wide == c.wide
    && |c.programs| <= |d.programs| && c.programs == d.programs[..|c.programs|]
    && forall k :: |c.programs| <= k < |d.programs| ==> WithinPage(d.programs[k])
  }

  predicate WithinPage(p: (nat, nat)) {
    p.0 % PAGE + p.1 <= PAGE
  }

  lemma WrittenTwice(c: Chip, d: Chip, e: Chip, a: nat, x: seq<Octet>, y: seq<Octet>)
    requires a + |x| + |y| <= |c.cells| && Written(c, d, a, x) && Written(d, e, a + |x|, y)
    ensures Written(c, e, a, x + y)
  {
    MergeTwice(c.cells, a, x, y);
    hide Merge;
    assert c.programs == d.programs[..|c.programs|] == e.programs[..|d.programs|][..|c.programs|];
    forall k | |c.programs| <= k < |e.programs|
      ensures WithinPage(e.programs[k])
    {
      if k < |d.programs| {
        assert e.programs[k] == d.programs[k];
      }
    }
  }

  lemma WrittenNothing(c: Chip, a: nat)
    requires a <= |c.cells|
    ensures Written(c, c, a, [])
  {
    assert Merge(c.cells, a, []) == c.cells;
  }

  /** How much of n bytes from offset on a page or sector of the given size takes; 0 means all of it. */
  function Portion(size: nat, offset: nat, n: nat): nat
    requires offset <= size
  {
    if n == 0 || n > size - offset then size - offset else n
  }

  /** How many bytes a call of write or read for len bytes moves: a length of 0 reaches the sector
      loop as it is and there means the rest of the sector. */
  function Extent(addr: nat, len: nat): nat {
    if len == 0 then SECTOR - addr % SECTOR else len
  }

  lemma PlacedNothing(o: seq<Octet>, at: nat)
    requires at <= |o|
    ensures Splice(o, at, []) == o
  {}

  lemma PlacedTwice(o: seq<Octet>, at: nat, x: seq<Octet>, y: seq<Octet>)
    requires at + |x| + |y| <= |o|
    ensures Splice(Splice(o, at, x), at + |x|, y) == Splice(o, at, x + y)
  {}

  lemma Joined(s: seq<Octet>, a: nat, n: nat, m: nat)
    requires a + n + m <= |s|
    ensures s[a..a + n] + s[a + n..a + n + m] == s[a..a + n + m]
  {}

  /** Placing the next m cells behind the first n. */
  lemma PlacedOn(o: seq<Octet>, cells: seq<Octet>, a: nat, n: nat, m: nat)
    requires a + n + m <= |cells| && n + m <= |o|
    ensures Splice(Splice(o, 0, cells[a..a + n]), n, cells[a + n..a + n + m]) == Splice(o, 0, cells[a..a + n + m])
  {
    hide Splice;
    PlacedTwice(o, 0, cells[a..a + n], cells[a + n..a + n + m]);
    Joined(cells, a, n, m);
  }

  lemma PlacedAtStart(o: seq<Octet>, d: seq<Octet>)
    requires |d| <= |o|
    ensures Splice(o, 0, d)[..|d|] == d && Splice(o, 0, d)[|d|..] == o[|d|..]
  {}

  method CopyOut(out: array<Octet>, at: nat, d: seq<Octet>)
    requires at + |d| <= out.Length
    modifies out
    ensures out[..] == Splice(old(out[..]), at, d)
  {
    ghost var o := out[..];
    for i := 0 to |d|
      invariant forall k :: 0 <= k < out.Length ==> out[k] == if at <= k < at + i then d[k - at] else o[k]
    {
      out[at + i] := d[i];
    }
    assert out[..] == Splice(o, at, d);
  }

  class W25q {
    const wide: bool
    var chip: Chip

    ghost predicate Valid()
      reads this
    {
      ValidChip(chip) && wide == chip.wide
    }

    constructor (chip: Chip)
      requires ValidChip(chip)
      ensures Valid() && this.chip == chip
    {
      wide, this.chip := chip.wide, chip;
    }

    method WriteEnable()
      requires Valid()
      modifies this
      ensures Valid() && chip == old(chip).(enabled := true)
    {
      chip := Execute(chip, WRITE_ENABLE, [], []);
    }

    /** Program a range of one page. */
    method WritePage(buff: array<Octet>, at: nat, page: nat, offset: nat, n0: nat)
      requires Valid() && offset < PAGE && page * PAGE + PAGE <= |chip.cells|
      requires at + Portion(PAGE, offset, n0) <= buff.Length
      modifies this
      ensures Valid()
      ensures Written(old(chip), chip, page * PAGE + offset, buff[at..at + Portion(PAGE, offset, n0)])
    {
      hide AddressBytes, Address, Merge, ProgramPage;
      var n := n0;
      if n + offset > PAGE || n == 0 {
        n := PAGE - offset;
      }
      if offset + n > PAGE {
        n := PAGE - offset;
      }
      WriteEnable();
      var a := page * PAGE + offset;
      PagePosition(page, offset);
      AddressArrives(a, wide);
      ProgramIsMerge(chip.cells, a, buff[at..at + n]) by { WholePages(chip); }
      chip := Execute(chip, if wide then PAGE_PROGRAM_WIDE else PAGE_PROGRAM, AddressBytes(a, wide), buff[at..at + n]);
    }

    /** Program a range of one sector, page by page. */
    method WriteSector(buff: array<Octet>, at0: nat, sector: nat, offset: nat, n0: nat)
      requires Valid() && sector * SECTOR + SECTOR <= |chip.cells|
      requires offset < SECTOR ==> at0 + Portion(SECTOR, offset, n0) <= buff.Length
      modifies this
      ensures Valid()
      ensures offset >= SECTOR ==> chip == old(chip)
      ensures offset < SECTOR ==>
                Written(old(chip), chip, sector * SECTOR + offset,
                        buff[at0..at0 + Portion(SECTOR, offset, n0)])
    {
      hide Merge, Written;
      var n := n0;
      if n > SECTOR || n == 0 {
        n := SECTOR;
      }
      if offset >= SECTOR {
        return;
      }
      var left: int := if offset + n > SECTOR then SECTOR - offset else n;
      var page: nat := SectorToPage(sector) + offset / PAGE;
      var local: nat := offset % PAGE;
      var at: int := at0;
      ghost var c, all, base := chip, left, sector * SECTOR + offset;
      ghost var done := 0;
      SectorPages(sector, offset);
      WrittenNothing(c, base);
      assert buff[at0..at0] == [];
      while left > 0
        invariant Valid() && 0 <= done <= all && |chip.cells| == |c.cells|
        invariant left > 0 ==> left == all - done && local < PAGE
        invariant left > 0 ==> page * PAGE + local == base + done && at == at0 + done
        invariant left <= 0 ==> done == all
        invariant Written(c, chip, base, buff[at0..at0 + done])
        decreases left
      {
        PageInSector(page, local, base, done, sector, offset);
        ghost var d, m := chip, Portion(PAGE, local, left);
        WritePage(buff, at, page, local, left);
        WrittenTwice(c, d, chip, base, buff[at0..at0 + done], buff[at..at + m]);
        Joined(buff[..], at0, done, m);
        done := done + m;
        WrittenSize(c, chip, base, buff[at0..at0 + done]);
        page := page + 1;
        left := left - (PAGE - local);
        at := at + PAGE - local;
        local := 0;
      }
    }

    /** Program n bytes from an address on, at most to the end of its sector. */
    method WriteInSector(buff: array<Octet>, at: nat, a: nat, n: nat)
      requires Valid() && a < |chip.cells| && at + Portion(SECTOR, a % SECTOR, n) <= buff.Length
      requires a + Portion(SECTOR, a % SECTOR, n) <= |chip.cells|
      modifies this
      ensures Valid() && Written(old(chip), chip, a, buff[at..at + Portion(SECTOR, a % SECTOR, n)])
    {
      hide Written, Portion;
      WholePages(chip);
      SectorPosition(a, |chip.cells|);
      WriteSector(buff, at, a / SECTOR, a % SECTOR, n);
    }

    /** Program len bytes from an address on. */
    method Write(addr: nat, buff: array<Octet>, len0: nat)
      requires Valid() && Extent(addr, len0) <= buff.Length && addr + Extent(addr, len0) <= |chip.cells|
      modifies this
      ensures Valid()
      ensures Written(old(chip), chip, addr, buff[..Extent(addr, len0)])
    {
      hide Merge, Written;
      var a, at, len := addr, 0, len0;
      var remain := SECTOR - a % SECTOR;
      if len <= remain {
        remain := len;
      }
      ghost var c, all := chip, Extent(addr, len0);
      WrittenNothing(c, addr);
      assert buff[..0] == [];
      while true
        invariant Valid() && |chip.cells| == |c.cells|
        invariant remain <= len && a % SECTOR + remain <= SECTOR && at + len == len0 && a == addr + at
        invariant if len0 == 0 then at == 0 else 0 < remain
        invariant remain == len || a % SECTOR + remain == SECTOR
        invariant Written(c, chip, addr, buff[..at])
        decreases len
      {
        ghost var d, m := chip, Portion(SECTOR, a % SECTOR, remain);
        WriteInSector(buff, at, a, remain);
        WrittenTwice(c, d, chip, addr, buff[..at], buff[at..at + m]);
        Joined(buff[..], 0, at, m);
        WrittenSize(c, chip, addr, buff[..at + m]);
        if len == remain {
          break;
        }
        NextSector(a, remain);
        at, a, len := at + remain, a + remain, len - remain;
        remain := if len > SECTOR then SECTOR else len;
      }
    }

    /** Set a sector to ones. */
    method EraseSector(sector: nat)
      requires Valid() && sector * SECTOR + SECTOR <= |chip.cells|
      modifies this
      ensures Valid() && |chip.cells| == |old(chip).cells|
      ensures forall i :: 0 <= i < |chip.cells| ==>
                chip.cells[i] == if sector * SECTOR <= i < sector * SECTOR + SECTOR then ERASED else old(chip).cells[i]
    {
      hide AddressBytes, Address, ProgramPage;
      WriteEnable();
      WholePages(chip);
      AddressArrives(sector * SECTOR, wide);
      WholeSector(sector);
      chip := Execute(chip, if wide then SECTOR_ERASE_WIDE else SECTOR_ERASE, AddressBytes(sector * SECTOR, wide), []);
    }

    /* ---- reading ---- */

    /** Read a range of one page. */
    method ReadPage(out: array<Octet>, at: nat, page: nat, offset: nat, n0: nat)
      requires Valid() && offset < PAGE && page * PAGE + PAGE <= |chip.cells|
      requires at + Portion(PAGE, offset, n0) <= out.Length
      modifies out
      ensures var a, n := page * PAGE + offset, Portion(PAGE, offset, n0);
        out[..] == Splice(old(out[..]), at, chip.cells[a..a + n])
    {
      hide AddressBytes, Address, ReadOut, Splice;
      var n := n0;
      if n > PAGE || n == 0 {
        n := PAGE;
      }
      if offset + n > PAGE {
        n := PAGE - offset;
      }
      assert n == Portion(PAGE, offset, n0);
      hide Portion;
      var a: nat := page * PAGE + offset;
      WholePages(chip);
      AddressArrives(a, wide);
      ReadsCells(chip, AddressBytes(a, wide), n);
      var d := ReadOut(chip, if wide then FAST_READ_WIDE else FAST_READ, AddressBytes(a, wide), n);
      CopyOut(out, at, d);
    }

    /** Read a range of one sector, page by page. */
    method ReadSector(out: array<Octet>, at0: nat, sector: nat, offset: nat, n0: nat)
      requires Valid() && sector * SECTOR + SECTOR <= |chip.cells|
      requires offset < SECTOR ==> at0 + Portion(SECTOR, offset, n0) <= out.Length
      modifies out
      ensures offset >= SECTOR ==> out[..] == old(out[..])
      ensures offset < SECTOR ==>
                var a, n := sector * SECTOR + offset, Portion(SECTOR, offset, n0);
                out[..] == Splice(old(out[..]), at0, chip.cells[a..a + n])
    {
      hide Splice;
      var n := n0;
      if n > SECTOR || n == 0 {
        n := SECTOR;
      }
      if offset >= SECTOR {
        return;
      }
      var left: int := if offset + n > SECTOR then SECTOR - offset else n;
      var page: nat := SectorToPage(sector) + offset / PAGE;
      var local: nat := offset % PAGE;
      var at: int := at0;
      ghost var all, base, o := left, sector * SECTOR + offset, out[..];
      ghost var done := 0;
      SectorPages(sector, offset);
      PlacedNothing(o, at0);
      assert chip.cells[base..base] == [];
      while left > 0
        invariant 0 <= done <= all
        invariant left > 0 ==> left == all - done && local < PAGE
        invariant left > 0 ==> page * PAGE + local == base + done && at == at0 + done
        invariant left <= 0 ==> done == all
        invariant out[..] == Splice(o, at0, chip.cells[base..base + done])
        decreases left
      {
        PageInSector(page, local, base, done, sector, offset);
        ghost var m := Portion(PAGE, local, left);
        ReadPage(out, at, page, local, left);
        PlacedTwice(o, at0, chip.cells[base..base + done], chip.cells[base + done..base + done + m]);
        Joined(chip.cells, base, done, m);
        done := done + m;
        page := page + 1;
        left := left - (PAGE - local);
        at := at + PAGE - local;
        local := 0;
      }
    }

    /** Read n bytes from an address on, at most to the end of its sector. */
    method ReadInSector(out: array<Octet>, at: nat, a: nat, n: nat)
      requires Valid() && a < |chip.cells| && at + Portion(SECTOR, a % SECTOR, n) <= out.Length
      requires a + Portion(SECTOR, a % SECTOR, n) <= |chip.cells|
      modifies out
      ensures out[..] == Splice(old(out[..]), at, chip.cells[a..a + Portion(SECTOR, a % SECTOR, n)])
    {
      hide Splice, Portion;
      WholePages(chip);
      SectorPosition(a, |chip.cells|);
      ReadSector(out, at, a / SECTOR, a % SECTOR, n);
    }

    /** Read len bytes from an address on. */
    method Read(addr: nat, out: array<Octet>, len0: nat)
      requires Valid() && Extent(addr, len0) <= out.Length && addr + Extent(addr, len0) <= |chip.cells|
      modifies out
      ensures var n := Extent(addr, len0); out[..n] == chip.cells[addr..addr + n] && out[n..] == old(out[n..])
    {
      hide Splice;
      var a, at, len := addr, 0, len0;
      var remain := SECTOR - a % SECTOR;
      if len <= remain {
        remain := len;
      }
      ghost var o, all := out[..], Extent(addr, len0);
      PlacedNothing(o, 0);
      assert chip.cells[addr..addr] == [];
      while true
        invariant remain <= len && a % SECTOR + remain <= SECTOR && at + len == len0 && a == addr + at
        invariant if len0 == 0 then at == 0 else 0 < remain
        invariant remain == len || a % SECTOR + remain == SECTOR
        invariant out[..] == Splice(o, 0, chip.cells[addr..addr + at])
        decreases len
      {
        ghost var m := Portion(SECTOR, a % SECTOR, remain);
        ReadInSector(out, at, a, remain);
        PlacedOn(o, chip.cells, addr, at, m);
        if len == remain {
          break;
        }
        NextSector(a, remain);
        at, a, len := at + remain, a + remain, len - remain;
        remain := if len > SECTOR then SECTOR else len;
      }
      PlacedAtStart(o, chip.cells[addr..addr + all]);
      assert out[..all] == out[..][..all] && out[all..] == out[..][all..];
    }
  }

  /** A write to erased cells, and the read that gives it back. */
  method WriteAndRead(f: W25q, addr: nat, buff: array<Octet>, len: nat, out: array<Octet>)
    requires f.Valid() && Extent(addr, len) <= buff.Length && Extent(addr, len) <= out.Length && buff != out
    requires addr + Extent(addr, len) <= |f.chip.cells|
    requires forall i :: addr <= i < addr + Extent(addr, len) ==> f.chip.cells[i] == ERASED
    modifies f, out
    ensures out[..Extent(addr, len)] == buff[..Extent(addr, len)]
    ensures |f.chip.cells| == |old(f.chip).cells|
    ensures var c, d, n := old(f.chip).cells, f.chip.cells, Extent(addr, len);
      d[..addr] == c[..addr] && d[addr + n..] == c[addr + n..]
  {
    hide Written, Extent;
    ghost var c, n := f.chip, Extent(addr, len);
    f.Write(addr, buff, len);
    ErasedTakes(c, f.chip, addr, buff[..n]);
    f.Read(addr, out, len);
  }

  lemma ErasedTakes(c: Chip, d: Chip, a: nat, data: seq<Octet>)
    requires a + |data| <= |c.cells| && Written(c, d, a, data)
    requires forall i :: a <= i < a + |data| ==> c.cells[i] == ERASED
    ensures |d.cells| == |c.cells| && d.cells[a..a + |data|] == data
    ensures d.cells[..a] == c.cells[..a] && d.cells[a + |data|..] == c.cells[a + |data|..]
  {
    MergeErased(c.cells, a, data);
    MergeExact(c.cells, a, data);
    hide Merge;
  }

  lemma WholeSector(sector: nat)
    ensures sector * SECTOR / SECTOR * SECTOR == sector * SECTOR
  {}

  lemma WholePages(c: Chip)
    requires ValidChip(c)
    ensures |c.cells| % PAGE == 0 && |c.cells| % SECTOR == 0
    ensures |c.cells| <= if c.wide then 0x400_0000 else 0x100_0000
  {
    WholeBlocks(|c.cells|);
  }

  lemma WholeBlocks(n: nat)
    requires n % 0x1_0000 == 0
    ensures n % 0x100 == 0 && n % 0x1000 == 0
  {
    var k := n / 0x1_0000;
    InPages(n, 0x100 * k);
    InSectors(n, 0x10 * k);
  }

  lemma InPages(n: nat, k: nat)
    requires n == 0x100 * k
    ensures n % 0x100 == 0
  {}

  lemma InSectors(n: nat, k: nat)
    requires n == 0x1000 * k
    ensures n % 0x1000 == 0
  {}

  lemma PagePosition(page: nat, offset: nat)
    requires offset < PAGE
    ensures (page * PAGE + offset) % PAGE == offset
  {}

  lemma SectorPages(sector: nat, offset: nat)
    requires offset < SECTOR
    ensures (SectorToPage(sector) + offset / PAGE) * PAGE + offset % PAGE == sector * SECTOR + offset
  {
    SixteenPages(sector);
    hide SectorToPage;
    assert offset == PAGE * (offset / PAGE) + offset % PAGE;
  }

  lemma SixteenPages(sector: nat)
    ensures SectorToPage(sector) == 16 * sector
  {}

  /** The page at hand lies within the sector. */
  lemma PageInSector(page: nat, local: nat, base: nat, done: nat, sector: nat, offset: nat)
    requires page * PAGE + local == base + done && local < PAGE && base == sector * SECTOR + offset
    requires offset + done < SECTOR
    ensures page * PAGE + PAGE <= sector * SECTOR + SECTOR
  {
    assert page < sector * 16 + 16;
  }

  lemma SectorPosition(a: nat, size: nat)
    requires a < size && size % SECTOR == 0
    ensures a / SECTOR * SECTOR + a % SECTOR == a && a / SECTOR * SECTOR + SECTOR <= size
  {}

  lemma NextSector(a: nat, remain: nat)
    requires a % SECTOR + remain == SECTOR
    ensures (a + remain) % SECTOR == 0
  {}

  lemma WrittenSize(c: Chip, d: Chip, a: nat, data: seq<Octet>)
    requires a + |data| <= |c.cells| && Written(c, d, a, data)
    ensures |d.cells| == |c.cells| && d.wide == c.wide
  {}
}
