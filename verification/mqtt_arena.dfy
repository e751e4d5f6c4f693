/** The memory block of the send queue. Packet bytes and message descriptors share it: a cell
    holds either a data byte or the i-th byte of a descriptor, so a write to one end that
    reached into the other would be visible as damage. */
module Arena {
  import opened Bytes
  import opened Words

  type Nibble = x: int | 0 <= x < 16

  datatype State = Unsent | AwaitingAck | Complete

  datatype Descriptor = Descriptor(start: nat, size: nat, state: State, control: Nibble, pid: Word)

  datatype Cell = Data(b: byte) | Part(d: Descriptor, i: nat)

  /** Size in bytes of one descriptor. */
  const DESC: nat := 40

  datatype Message = Message(packet: seq<byte>, state: State, control: Nibble, pid: Word)

  /* ---- pictures of the block ---- */

  ghost predicate BytesAt(m: seq<Cell>, at: nat, bytes: seq<byte>) {
    at + |bytes| <= |m| && forall j :: at <= j < at + |bytes| ==> m[j] == Data(bytes[j - at])
  }

  ghost predicate DescAt(m: seq<Cell>, at: int, d: Descriptor) {
    0 <= at <= at + DESC <= |m| && forall j :: at <= j < at + DESC ==> m[j] == Part(d, j - at)
  }

  /** The address of descriptor k in a block of n bytes. */
  function SlotAddr(n: nat, k: int): int {
    n - DESC * (k + 1)
  }

  function Packets(q: seq<Message>): (p: seq<seq<byte>>)
    ensures |p| == |q| && forall k :: 0 <= k < |q| ==> p[k] == q[k].packet
  {
    seq(|q|, k requires 0 <= k < |q| => q[k].packet)
  }

  /** All packet bytes of a queue in order. */
  function Flat(q: seq<Message>): seq<byte> {
    Concat(Packets(q))
  }

  /** Where the bytes of message k begin. */
  function Start(q: seq<Message>, k: nat): nat
    requires k <= |q|
  {
    |Flat(q[..k])|
  }

  function DescriptorOf(q: seq<Message>, k: nat): Descriptor
    requires k < |q|
  {
    Descriptor(Start(q, k), |q[k].packet|, q[k].state, q[k].control, q[k].pid)
  }

  /** The block m holds the queue q: bytes tile its low end, descriptors its high end. */
  ghost predicate Layout(m: seq<Cell>, q: seq<Message>) {
    && |Flat(q)| + DESC * |q| <= |m|
    && BytesAt(m, 0, Flat(q))
    && forall k :: 0 <= k < |q| ==> DescAt(m, SlotAddr(|m|, k), DescriptorOf(q, k))
  }

  /** Bytes that can be packed before a further descriptor would be overrun. */
  function Room(n: nat, q: seq<Message>): nat {
    var free := n - DESC * (|q| + 1) - |Flat(q)|;
    if free <= 0 then 0 else free
  }

  /** There is space for one more packet of k bytes and its descriptor. */
  predicate HasRoom(n: nat, q: seq<Message>, k: nat) {
    |Flat(q)| + k + DESC * (|q| + 1) <= n
  }

  /* ---- the queue as a list ---- */

  function CompletePrefix(q: seq<Message>): (h: nat)
    ensures h <= |q|
    ensures forall k :: 0 <= k < h ==> q[k].state == Complete
    ensures h < |q| ==> q[h].state != Complete
  {
    if q == [] || q[0].state != Complete then 0 else 1 + CompletePrefix(q[1..])
  }

  function Cleaned(q: seq<Message>): seq<Message> {
    q[CompletePrefix(q)..]
  }

  predicate Matches(m: Message, control: Nibble, pid: Option<Word>) {
    m.control == control && if pid.None? then m.state != Complete else m.pid == pid.value
  }

  /** Index of the first match, or |q|. */
  function Find(q: seq<Message>, control: Nibble, pid: Option<Word>): (k: nat)
    ensures k <= |q|
    ensures k < |q| ==> Matches(q[k], control, pid)
    ensures forall j :: 0 <= j < k ==> !Matches(q[j], control, pid)
  {
    if q == [] || Matches(q[0], control, pid) then 0 else 1 + Find(q[1..], control, pid)
  }

  /* ---- lemmas on Flat and Start ---- */

  lemma FlatAppend(a: seq<Message>, b: seq<Message>)
    ensures Flat(a + b) == Flat(a) + Flat(b)
  {
    assert Packets(a + b) == Packets(a) + Packets(b);
    ConcatAppend(Packets(a), Packets(b));
  }

  lemma FlatOne(m: Message)
    ensures Flat([m]) == m.packet
  {
    assert Packets([m]) == [m.packet];
    assert Concat([m.packet]) == m.packet;
  }

  lemma FlatSplit(q: seq<Message>, k: nat)
    requires k <= |q|
    ensures Flat(q) == Flat(q[..k]) + Flat(q[k..])
    ensures Start(q, k) <= |Flat(q)|
    ensures Flat(q[k..]) == Flat(q)[Start(q, k)..]
  {
    assert q == q[..k] + q[k..];
    FlatAppend(q[..k], q[k..]);
  }

  /** Message k occupies exactly the bytes from its start to the start of the next. */
  lemma FlatSlice(q: seq<Message>, k: nat)
    requires k < |q|
    ensures Start(q, k + 1) == Start(q, k) + |q[k].packet| <= |Flat(q)|
    ensures Flat(q)[Start(q, k)..Start(q, k + 1)] == q[k].packet
  {
    FlatSplit(q, k);
    FlatSplit(q, k + 1);
    assert q[..k + 1] == q[..k] + [q[k]];
    FlatAppend(q[..k], [q[k]]);
    FlatOne(q[k]);
  }

  lemma StartDrop(q: seq<Message>, h: nat, k: nat)
    requires h + k <= |q|
    ensures Start(q[h..], k) == Start(q, h + k) - Start(q, h)
  {
    assert q[..h + k] == q[..h] + q[h..][..k];
    FlatAppend(q[..h], q[h..][..k]);
  }

  lemma StartSnoc(q: seq<Message>, m: Message, k: nat)
    requires k <= |q|
    ensures Start(q + [m], k) == Start(q, k)
  {
    assert (q + [m])[..k] == q[..k];
  }

  lemma StartUpdate(q: seq<Message>, i: nat, m: Message, k: nat)
    requires i < |q| && k <= |q| && |m.packet| == |q[i].packet|
    ensures Start(q[i := m], k) == Start(q, k)
  {
    if k <= i {
      assert q[i := m][..k] == q[..k];
    } else {
      assert q[..k] == q[..i] + [q[i]] + q[i + 1..k];
      assert q[i := m][..k] == q[..i] + [m] + q[i + 1..k];
      FlatAppend(q[..i] + [q[i]], q[i + 1..k]);
      FlatAppend(q[..i] + [m], q[i + 1..k]);
      FlatAppend(q[..i], [q[i]]);
      FlatAppend(q[..i], [m]);
      FlatOne(q[i]);
      FlatOne(m);
    }
  }

  /* ---- memmove ---- */

  function Moved(m: seq<Cell>, dst: nat, src: nat, n: nat): (r: seq<Cell>)
    requires dst + n <= |m| && src + n <= |m|
  {
    m[..dst] + m[src..src + n] + m[dst + n..]
  }

  method MemMove(mem: array<Cell>, dst: nat, src: nat, n: nat)
    requires dst + n <= mem.Length && src + n <= mem.Length
    modifies mem
    ensures mem[..] == Moved(old(mem[..]), dst, src, n)
  {
    if dst <= src {
      CopyUpwards(mem, dst, src, n);
    } else {
      CopyDownwards(mem, dst, src, n);
    }
    MovedIs(old(mem[..]), mem[..], dst, src, n);
  }

  lemma MovedIs(m: seq<Cell>, r: seq<Cell>, dst: nat, src: nat, n: nat)
    requires dst + n <= |m| && src + n <= |m| && |r| == |m|
    requires forall j :: 0 <= j < dst || dst + n <= j < |m| ==> r[j] == m[j]
    requires forall j :: dst <= j < dst + n ==> r[j] == m[j + src - dst]
    ensures r == Moved(m, dst, src, n)
  {
    assert r[..dst] == m[..dst];
    assert r[dst..dst + n] == m[src..src + n];
    assert r[dst + n..] == m[dst + n..];
    assert r == r[..dst] + r[dst..dst + n] + r[dst + n..];
  }

  method CopyUpwards(mem: array<Cell>, dst: nat, src: nat, n: nat)
    requires dst <= src && src + n <= mem.Length
    modifies mem
    ensures forall j :: 0 <= j < dst || dst + n <= j < mem.Length ==> mem[j] == old(mem[..])[j]
    ensures forall j :: dst <= j < dst + n ==> mem[j] == old(mem[..])[j + src - dst]
  {
    var i := 0;
    while i < n
      invariant 0 <= i <= n
      invariant forall j :: 0 <= j < dst || dst + i <= j < mem.Length ==> mem[j] == old(mem[..])[j]
      invariant forall j :: dst <= j < dst + i ==> mem[j] == old(mem[..])[j + src - dst]
    {
      mem[dst + i] := mem[src + i];
      i := i + 1;
    }
  }

  method CopyDownwards(mem: array<Cell>, dst: nat, src: nat, n: nat)
    requires src <= dst && dst + n <= mem.Length
    modifies mem
    ensures forall j :: 0 <= j < dst || dst + n <= j < mem.Length ==> mem[j] == old(mem[..])[j]
    ensures forall j :: dst <= j < dst + n ==> mem[j] == old(mem[..])[j + src - dst]
  {
    var i := n;
    while i > 0
      invariant 0 <= i <= n
      invariant forall j :: 0 <= j < dst + i || dst + n <= j < mem.Length ==> mem[j] == old(mem[..])[j]
      invariant forall j :: dst + i <= j < dst + n ==> mem[j] == old(mem[..])[j + src - dst]
    {
      i := i - 1;
      mem[dst + i] := mem[src + i];
    }
  }
}
