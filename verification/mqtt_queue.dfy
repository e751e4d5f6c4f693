/** The MQTT client's send queue: packets packed upwards from the start of one memory block,
    descriptors downwards from its end. */
module MessageQueue {
  import opened Bytes
  import opened Words
  import opened Arena

  class Queue {
    const mem: array<Cell>
    /** Offset of the first unused data byte. */
    var curr: nat
    var currSz: nat
    /** The queue tail, counted in descriptors below the end of the block. */
    var tail: nat
    ghost var messages: seq<Message>

    ghost predicate Valid()
      reads this, mem
    {
      && Layout(mem[..], messages)
      && tail == |messages|
      && curr == |Flat(messages)|
      && currSz == Room(mem.Length, messages)
    }

    constructor (mem: array<Cell>)
      ensures Valid() && messages == [] && this.mem == mem
    {
      this.mem := mem;
      curr, tail, messages := 0, 0, [];
      currSz := if mem.Length <= DESC then 0 else mem.Length - DESC;
      new;
      EmptyLayout(mem[..]);
    }

    function Addr(k: int): int
      reads this
    {
      SlotAddr(mem.Length, k)
    }

    /** The descriptor at index k, as read back from memory. */
    method Get(k: nat) returns (d: Descriptor)
      requires Valid() && k < |messages|
      ensures d == DescriptorOf(messages, k)
    {
      assert DescAt(mem[..], Addr(k), DescriptorOf(messages, k));
      assert mem[..][Addr(k)] == Part(DescriptorOf(messages, k), 0);
      d := mem[Addr(k)].d;
    }

    /** Write all cells of slot k. */
    method Store(k: nat, d: Descriptor)
      requires SlotAddr(mem.Length, k) >= 0
      modifies mem
      ensures mem[..] == Stored(old(mem[..]), SlotAddr(mem.Length, k), d)
    {
      var at := Addr(k);
      forall j | at <= j < at + DESC {
        mem[j] := Part(d, j - at);
      }
    }

    /** Store a packet byte at or above curr. */
    method Put(at: nat, b: byte)
      requires Valid() && curr <= at < curr + currSz
      modifies mem
      ensures Valid() && mem[..] == old(mem[..])[at := Data(b)]
    {
      mem[at] := Data(b);
      PutLayout(old(mem[..]), messages, at, b);
    }

    method Register(nbytes: nat, control: Nibble, pid: Word, ghost packet: seq<byte>)
      requires Valid() && nbytes == |packet| <= currSz && 0 < nbytes
      requires BytesAt(mem[..], curr, packet)
      modifies this, mem
      ensures Valid()
      ensures messages == old(messages) + [Message(packet, Unsent, control, pid)]
    {
      ghost var q := messages;
      ghost var m := Message(packet, Unsent, control, pid);
      tail := tail + 1;
      Store(tail - 1, Descriptor(curr, nbytes, Unsent, control, pid));
      curr := curr + nbytes;
      messages := messages + [m];
      RegisterLayout(old(mem[..]), q, m);
      currSz := CurrSz();
    }

    /** The bytes a packet may take so that it and a descriptor of its own still fit beside the queue. */
    method CurrSz() returns (n: nat)
      requires Layout(mem[..], messages) && tail == |messages| && curr == |Flat(messages)|
      ensures n == Room(mem.Length, messages)
      ensures forall k: nat | 0 < k :: k <= n <==> HasRoom(mem.Length, messages, k)
    {
      n := if curr >= Addr(tail) then 0 else Addr(tail) - curr;
    }

    method SetState(k: nat, state: State)
      requires Valid() && k < |messages|
      modifies this, mem
      ensures Valid() && messages == old(messages)[k := old(messages)[k].(state := state)]
    {
      var d := Get(k);
      ghost var q := messages;
      Store(k, d.(state := state));
      messages := q[k := q[k].(state := state)];
      StateLayout(old(mem[..]), q, k, q[k].(state := state));
    }

    /** Set the DUP flag in the first byte of a PUBLISH. */
    method SetDup(k: nat)
      requires Valid() && k < |messages| && messages[k].packet != []
      modifies this, mem
      ensures Valid() && messages == old(messages)[k := WithDup(old(messages)[k])]
    {
      var d := Get(k);
      ghost var q := messages;
      FlatSlice(q, k);
      assert mem[..][d.start] == Data(Flat(q)[d.start]);
      var b := mem[d.start].b;
      mem[d.start] := Data(DupByte(b));
      messages := q[k := WithDup(q[k])];
      assert b == Flat(q)[Start(q, k)..Start(q, k + 1)][0];
      DupLayout(old(mem[..]), q, k);
    }

    /** Discard the longest prefix of COMPLETE messages and close both gaps. */
    method Clean()
      requires Valid()
      modifies this, mem
      ensures Valid() && messages == Cleaned(old(messages))
    {
      ghost var q := messages;
      var h := CountComplete();
      if h == tail {
        curr, tail, messages := 0, 0, [];
        EmptyLayout(mem[..]);
        currSz := CurrSz();
        return;
      }
      if h == 0 {
        return;
      }
      Compact(h);
    }

    /** Drop the first h messages: move the data down, the descriptors up, and lower every start. */
    method Compact(h: nat)
      requires Valid() && 0 < h < |messages|
      modifies this, mem
      ensures Valid() && messages == old(messages)[h..]
    {
      ghost var q := messages;
      var head := Get(h);
      MovedFits(mem[..], q, h);
      MoveLayout(mem[..], q, h);
      MoveDown(head.start, h, q);
      BumpStarts(head.start, q, h);
      messages := q[h..];
      Bumped(mem[..], q, h);
      FlatSplit(q, h);
      currSz := CurrSz();
    }

    method MoveDown(from: nat, h: nat, ghost q: seq<Message>)
      requires 0 < h < |q| && tail == |q| && curr == |Flat(q)| && from == Start(q, h) <= |Flat(q)| <= mem.Length
      requires 0 <= SlotAddr(mem.Length, |q| - 1) <= SlotAddr(mem.Length, |q| - h - 1)
      requires SlotAddr(mem.Length, |q| - h - 1) + DESC * (|q| - h) == mem.Length
      modifies this, mem
      ensures mem[..] == Compacted(old(mem[..]), q, h)
      ensures curr == |Flat(q)| - from && tail == |q| - h
    {
      hide Moved, Flat, Start;
      var last := tail - 1 - h;
      assert Addr(last) + DESC * (last + 1) == mem.Length;
      assert Addr(tail - 1) + DESC * (last + 1) <= mem.Length;
      MemMove(mem, 0, from, curr - from);
      MemMove(mem, Addr(last), Addr(tail - 1), DESC * (last + 1));
      curr := curr - from;
      tail := last + 1;
    }

    /** The loop of Clean that lowers every start by the number of bytes removed. */
    method BumpStarts(removing: nat, ghost q: seq<Message>, ghost h: nat)
      requires h <= |q| && tail == |q| - h && removing == Start(q, h)
      requires Bumping(mem[..], q, h, 0)
      modifies mem
      ensures Bumping(mem[..], q, h, tail)
    {
      var i := 0;
      while i < tail
        invariant 0 <= i <= tail
        invariant Bumping(mem[..], q, h, i)
      {
        assert DescAt(mem[..], Addr(i), DescriptorOf(q, h + i));
        assert mem[..][Addr(i)] == Part(DescriptorOf(q, h + i), 0);
        var d := mem[Addr(i)].d;
        BumpStep(mem[..], q, h, i);
        Store(i, d.(start := d.start - removing));
        i := i + 1;
      }
    }

    method CountComplete() returns (h: nat)
      requires Valid()
      ensures h == CompletePrefix(messages)
    {
      h := 0;
      while h < tail
        invariant 0 <= h <= tail
        invariant forall j :: 0 <= j < h ==> messages[j].state == Complete
      {
        var d := Get(h);
        if d.state != Complete {
          break;
        }
        h := h + 1;
      }
      PrefixUnique(messages, h);
    }

    method FindMessage(control: Nibble, pid: Option<Word>) returns (k: nat)
      requires Valid()
      ensures k == Find(messages, control, pid)
    {
      k := 0;
      while k < tail
        invariant 0 <= k <= tail
        invariant forall j :: 0 <= j < k ==> !Matches(messages[j], control, pid)
      {
        var d := Get(k);
        if d.control == control {
          if (pid.None? && d.state != Complete) || (pid.Some? && pid.value == d.pid) {
            FindFirst(messages, control, pid, k);
            return;
          }
        }
        k := k + 1;
      }
      FindFirst(messages, control, pid, k);
    }
  }

  function Stored(m: seq<Cell>, at: int, d: Descriptor): (r: seq<Cell>)
    requires 0 <= at <= at + DESC <= |m|
  {
    m[..at] + seq(DESC, i requires 0 <= i < DESC => Part(d, i)) + m[at + DESC..]
  }

  lemma EmptyLayout(m: seq<Cell>)
    ensures Layout(m, [])
  {
    assert Packets([]) == [];
  }

  lemma PutLayout(m: seq<Cell>, q: seq<Message>, at: nat, b: byte)
    requires Layout(m, q) && |Flat(q)| <= at < |Flat(q)| + Room(|m|, q)
    ensures Layout(m[at := Data(b)], q)
  {
    var r := m[at := Data(b)];
    forall k | 0 <= k < |q|
      ensures DescAt(r, SlotAddr(|m|, k), DescriptorOf(q, k))
    {
      assert DescAt(m, SlotAddr(|m|, k), DescriptorOf(q, k));
    }
  }

  /** Whatever is written into the free room, the queue stays. */
  lemma RoomLayout(m: seq<Cell>, r: seq<Cell>, q: seq<Message>)
    requires Layout(m, q) && |r| == |m|
    requires forall j :: 0 <= j < |m| && !(|Flat(q)| <= j < |Flat(q)| + Room(|m|, q)) ==> r[j] == m[j]
    ensures Layout(r, q)
  {
    hide Flat;
    forall k | 0 <= k < |q|
      ensures DescAt(r, SlotAddr(|m|, k), DescriptorOf(q, k))
    {
      assert DescAt(m, SlotAddr(|m|, k), DescriptorOf(q, k));
    }
  }

  lemma RegisterLayout(m: seq<Cell>, q: seq<Message>, e: Message)
    requires Layout(m, q) && 0 < |e.packet| <= Room(|m|, q)
    requires BytesAt(m, |Flat(q)|, e.packet)
    ensures |Flat(q + [e])| == |Flat(q)| + |e.packet|
    ensures Layout(Stored(m, SlotAddr(|m|, |q|), DescriptorOf(q + [e], |q|)), q + [e])
    ensures DescriptorOf(q + [e], |q|) == Descriptor(|Flat(q)|, |e.packet|, e.state, e.control, e.pid)
  {
    FlatAppend(q, [e]);
    FlatOne(e);
    assert (q + [e])[..|q|] == q;
    var r := Stored(m, SlotAddr(|m|, |q|), DescriptorOf(q + [e], |q|));
    forall k | 0 <= k < |q + [e]|
      ensures DescAt(r, SlotAddr(|r|, k), DescriptorOf(q + [e], k))
    {
      if k < |q| {
        StartSnoc(q, e, k);
        assert DescAt(m, SlotAddr(|m|, k), DescriptorOf(q, k));
      }
    }
  }

  lemma StateLayout(m: seq<Cell>, q: seq<Message>, i: nat, e: Message)
    requires Layout(m, q) && i < |q| && e.packet == q[i].packet
    ensures Flat(q[i := e]) == Flat(q)
    ensures var d := DescriptorOf(q, i).(state := e.state, control := e.control, pid := e.pid);
      Layout(Stored(m, SlotAddr(|m|, i), d), q[i := e])
  {
    assert Packets(q[i := e]) == Packets(q);
    var d := DescriptorOf(q, i).(state := e.state, control := e.control, pid := e.pid);
    assert DescAt(m, SlotAddr(|m|, i), DescriptorOf(q, i));
    var r := Stored(m, SlotAddr(|m|, i), d);
    forall k | 0 <= k < |q|
      ensures DescAt(r, SlotAddr(|r|, k), DescriptorOf(q[i := e], k))
    {
      StartUpdate(q, i, e, k);
      assert DescAt(m, SlotAddr(|m|, k), DescriptorOf(q, k));
    }
  }

  lemma {:induction false} FindFirst(q: seq<Message>, control: Nibble, pid: Option<Word>, k: nat)
    requires k <= |q|
    requires forall j :: 0 <= j < k ==> !Matches(q[j], control, pid)
    requires k < |q| ==> Matches(q[k], control, pid)
    ensures Find(q, control, pid) == k
  {
    if k > 0 {
      FindFirst(q[1..], control, pid, k - 1);
    }
  }

  function DupByte(b: byte): byte {
    if (b / 8) % 2 == 0 then b + 8 else b
  }

  function WithDup(m: Message): Message
    requires m.packet != []
  {
    m.(packet := m.packet[0 := DupByte(m.packet[0])])
  }

  lemma DupLayout(m: seq<Cell>, q: seq<Message>, i: nat)
    requires Layout(m, q) && i < |q| && q[i].packet != []
    ensures Start(q, i) < |m|
    ensures |Flat(q[i := WithDup(q[i])])| == |Flat(q)|
    ensures Layout(m[Start(q, i) := Data(DupByte(q[i].packet[0]))], q[i := WithDup(q[i])])
  {
    var e := WithDup(q[i]);
    var p := q[i := e];
    FlatSlice(q, i);
    FlatSplice(q, i, e);
    var r := m[Start(q, i) := Data(DupByte(q[i].packet[0]))];
    forall k | 0 <= k < |q|
      ensures DescAt(r, SlotAddr(|r|, k), DescriptorOf(p, k))
    {
      StartUpdate(q, i, e, k);
      assert DescAt(m, SlotAddr(|m|, k), DescriptorOf(q, k));
    }
  }

  /** Replacing the packet of one message replaces its bytes in place. */
  lemma FlatSplice(q: seq<Message>, i: nat, e: Message)
    requires i < |q|
    ensures Start(q, i) <= Start(q, i + 1) <= |Flat(q)|
    ensures Flat(q[i := e]) == Flat(q)[..Start(q, i)] + e.packet + Flat(q)[Start(q, i + 1)..]
  {
    FlatSlice(q, i);
    FlatSplit(q, i);
    FlatSplit(q, i + 1);
    var p := q[i := e];
    assert p == q[..i] + ([e] + q[i + 1..]);
    FlatAppend(q[..i], [e] + q[i + 1..]);
    FlatAppend([e], q[i + 1..]);
    FlatOne(e);
  }

  /** Descriptors below index i already have their new start, the others still the old one. */
  ghost predicate Bumping(m: seq<Cell>, q: seq<Message>, h: nat, i: nat)
    requires h <= |q|
  {
    && |Flat(q[h..])| + DESC * |q[h..]| <= |m|
    && BytesAt(m, 0, Flat(q[h..]))
    && (forall k :: 0 <= k < i && k < |q| - h ==> DescAt(m, SlotAddr(|m|, k), DescriptorOf(q[h..], k)))
    && (forall k :: i <= k < |q| - h ==> DescAt(m, SlotAddr(|m|, k), DescriptorOf(q, h + k)))
  }

  lemma Bumped(m: seq<Cell>, q: seq<Message>, h: nat)
    requires h <= |q| && Bumping(m, q, h, |q| - h)
    ensures Layout(m, q[h..])
  {}

  lemma MovedFits(m: seq<Cell>, q: seq<Message>, h: nat)
    requires Layout(m, q) && 0 < h < |q|
    ensures Start(q, h) <= |Flat(q)| <= |m|
    ensures 0 <= SlotAddr(|m|, |q| - 1) <= SlotAddr(|m|, |q| - h - 1)
    ensures SlotAddr(|m|, |q| - h - 1) + DESC * (|q| - h) == |m|
  {
    FlatSplit(q, h);
  }

  /** The block after both moves of Clean. */
  function Compacted(m: seq<Cell>, q: seq<Message>, h: nat): seq<Cell>
    requires 0 < h < |q| && Start(q, h) <= |Flat(q)| <= |m|
    requires 0 <= SlotAddr(|m|, |q| - 1) <= SlotAddr(|m|, |q| - h - 1)
    requires SlotAddr(|m|, |q| - h - 1) + DESC * (|q| - h) == |m|
  {
    Moved(Moved(m, 0, Start(q, h), |Flat(q)| - Start(q, h)),
          SlotAddr(|m|, |q| - h - 1), SlotAddr(|m|, |q| - 1), DESC * (|q| - h))
  }

  lemma MoveLayout(m: seq<Cell>, q: seq<Message>, h: nat)
    requires Layout(m, q) && 0 < h < |q|
    requires Start(q, h) <= |Flat(q)| <= |m|
    requires 0 <= SlotAddr(|m|, |q| - 1) <= SlotAddr(|m|, |q| - h - 1)
    requires SlotAddr(|m|, |q| - h - 1) + DESC * (|q| - h) == |m|
    ensures Bumping(Compacted(m, q, h), q, h, 0)
  {
    var r := Compacted(m, q, h);
    MovedBytes(m, q, h);
    forall k | 0 <= k < |q| - h
      ensures DescAt(r, SlotAddr(|r|, k), DescriptorOf(q, h + k))
    {
      MovedDesc(m, q, h, k);
    }
  }

  lemma MovedBytes(m: seq<Cell>, q: seq<Message>, h: nat)
    requires Layout(m, q) && 0 < h < |q|
    requires Start(q, h) <= |Flat(q)| <= |m|
    requires 0 <= SlotAddr(|m|, |q| - 1) <= SlotAddr(|m|, |q| - h - 1)
    requires SlotAddr(|m|, |q| - h - 1) + DESC * (|q| - h) == |m|
    ensures |Flat(q[h..])| + DESC * |q[h..]| <= |m|
    ensures BytesAt(Compacted(m, q, h), 0, Flat(q[h..]))
  {
    FlatSplit(q, h);
    var at, n := Start(q, h), |Flat(q)| - Start(q, h);
    var m1 := Moved(m, 0, at, n);
    var r := Compacted(m, q, h);
    forall j | 0 <= j < |Flat(q[h..])|
      ensures r[j] == Data(Flat(q[h..])[j])
    {
      assert r[j] == m1[j] == m[at + j];
    }
  }

  lemma MovedDesc(m: seq<Cell>, q: seq<Message>, h: nat, k: nat)
    requires Layout(m, q) && 0 < h < |q| && k < |q| - h
    requires Start(q, h) <= |Flat(q)| <= |m|
    requires 0 <= SlotAddr(|m|, |q| - 1) <= SlotAddr(|m|, |q| - h - 1)
    requires SlotAddr(|m|, |q| - h - 1) + DESC * (|q| - h) == |m|
    ensures DescAt(Compacted(m, q, h), SlotAddr(|m|, k), DescriptorOf(q, h + k))
  {
    hide Layout, Flat, DescAt, DescriptorOf, Start, Moved;
    var d := DescriptorOf(q, h + k);
    var m1 := Moved(m, 0, Start(q, h), |Flat(q)| - Start(q, h));
    DescFound(m, q, h + k);
    MovedSize(m, 0, Start(q, h), |Flat(q)| - Start(q, h));
    DescUntouched(m, 0, Start(q, h), |Flat(q)| - Start(q, h), SlotAddr(|m|, h + k), d);
    DescCarried(m1, SlotAddr(|m|, |q| - h - 1), SlotAddr(|m|, |q| - 1), DESC * (|q| - h), DESC * (|q| - h - 1 - k), d);
  }

  lemma MovedSize(m: seq<Cell>, dst: nat, src: nat, n: nat)
    requires src + n <= |m| && dst + n <= |m|
    ensures |Moved(m, dst, src, n)| == |m|
  {}

  lemma DescFound(m: seq<Cell>, q: seq<Message>, i: nat)
    requires Layout(m, q) && i < |q|
    ensures DescAt(m, SlotAddr(|m|, i), DescriptorOf(q, i)) && |Flat(q)| <= SlotAddr(|m|, i)
  {
    hide Flat, DescAt, DescriptorOf, Start;
  }

  lemma DescUntouched(m: seq<Cell>, dst: nat, src: nat, n: nat, at: int, d: Descriptor)
    requires DescAt(m, at, d) && src + n <= |m| && dst + n <= at
    ensures DescAt(Moved(m, dst, src, n), at, d)
  {
    var r := Moved(m, dst, src, n);
    assert forall j :: at <= j < at + DESC ==> r[j] == m[j];
  }

  lemma DescCarried(m: seq<Cell>, dst: nat, src: nat, n: nat, offset: nat, d: Descriptor)
    requires src + n <= |m| && dst + n <= |m| && offset + DESC <= n && DescAt(m, src + offset, d)
    ensures DescAt(Moved(m, dst, src, n), dst + offset, d)
  {
    var r := Moved(m, dst, src, n);
    assert forall j :: dst + offset <= j < dst + offset + DESC ==> r[j] == m[j - dst + src];
  }

  lemma BumpStep(m: seq<Cell>, q: seq<Message>, h: nat, i: nat)
    requires h <= |q| && i < |q| - h && Bumping(m, q, h, i)
    ensures SlotAddr(|m|, i) >= 0
    ensures Bumping(Stored(m, SlotAddr(|m|, i), DescriptorOf(q[h..], i)), q, h, i + 1)
    ensures Start(q, h) <= Start(q, h + i)
    ensures DescriptorOf(q[h..], i) == DescriptorOf(q, h + i).(start := Start(q, h + i) - Start(q, h))
  {
    StartDrop(q, h, i);
    var d := DescriptorOf(q[h..], i);
    var r := Stored(m, SlotAddr(|m|, i), d);
    forall k | 0 <= k < |q| - h && k != i
      ensures k < i ==> DescAt(r, SlotAddr(|r|, k), DescriptorOf(q[h..], k))
      ensures k > i ==> DescAt(r, SlotAddr(|r|, k), DescriptorOf(q, h + k))
    {
      if k < i {
        assert DescAt(m, SlotAddr(|m|, k), DescriptorOf(q[h..], k));
      } else {
        assert DescAt(m, SlotAddr(|m|, k), DescriptorOf(q, h + k));
      }
    }
  }

  lemma {:induction false} PrefixUnique(q: seq<Message>, h: nat)
    requires h <= |q|
    requires forall k :: 0 <= k < h ==> q[k].state == Complete
    requires h < |q| ==> q[h].state != Complete
    ensures CompletePrefix(q) == h
  {
    if h > 0 {
      PrefixUnique(q[1..], h - 1);
    }
  }
}
