/** The host link: frames with a start byte, a length, an address, a CRC and a stop byte, and the
    receiver that takes them out of a stream one byte at a time. */
module HostFrames {
  import opened Bytes
  import opened Words
  import opened Crc16

  const START: Octet := 0xAA
  const STOP: Octet := 0x55
  const RING := 4096
  const MAX_FRAME := 256

  /** A command on its way: for which device, which command, with what payload. */
  datatype Command = Command(addr: Octet, cmd: Octet, data: seq<Octet>)

  function ToOctet(n: nat): Octet
    requires n < 256
  {
    n as Octet
  }

  function ToInt(b: Octet): (n: nat)
    ensures n < 256
  {
    b as int
  }

  lemma OctetRoundTrip(n: nat)
    requires n < 256
    ensures ToInt(ToOctet(n)) == n
  {
    OctetHolds(n);
  }

  function Word16(high: Octet, low: Octet): nat {
    ToInt(high) * 256 + ToInt(low)
  }

  /** Everything the CRC covers. The length counts address, command, payload and CRC. */
  function Body(c: Command): seq<Octet> {
    var n := |c.data| + 4;
    [START, ToOctet((n / 256) % 256), ToOctet(n % 256), c.addr, c.cmd] + c.data
  }

  function Frame(c: Command): seq<Octet> {
    Body(c) + Trailer(Crc(Body(c))) + [STOP]
  }

  /** A response carries its result in front of the payload. */
  function Response(addr: Octet, cmd: Octet, ret: Octet, data: seq<Octet>): Command {
    Command(addr, cmd, [ret] + data)
  }

  /* ---- the receiver ---- */

  /** Whether a callback is registered, what is waiting in the ring, the bytes of the frame in
      progress, and the callbacks so far. */
  datatype Receiver = Receiver(addr: Octet, listening: bool, unread: seq<Octet>, packet: seq<Octet>,
                               calls: seq<(Octet, seq<Octet>)>)

  datatype Outcome = Idle | Delivered | Failed

  /** The frame in progress grows by a byte; at the end of its buffer it starts over. */
  function Grown(packet: seq<Octet>): seq<Octet> {
    if |packet| >= RING then [] else packet
  }

  /** A stop byte has come at the end of q. */
  function Stopped(s: Receiver, q: seq<Octet>): (Receiver, Outcome)
    requires |q| > 7
  {
    var i := |q| - 1;
    var last := Word16(q[1], q[2]) + 3;
    if last >= MAX_FRAME || i > last then (s.(unread := [], packet := []), Failed)
    else if i == last then
      if q[3] != s.addr then (s.(packet := []), Failed)
      else if Crc(q[..i]) == 0 then
        (s.(packet := [], calls := s.calls + if s.listening then [(q[4], q[5..i - 2])] else []), Delivered)
      else (s.(packet := []), Delivered)
    else (s.(packet := Grown(q)), Idle)
  }

  /** One call of the process function: it takes one byte out of the ring. */
  function Process(r: Receiver): (Receiver, Outcome) {
    if r.unread == [] then (r, Idle)
    else
      var b := r.unread[0];
      var i := |r.packet|;
      var q := r.packet + [b];
      var s := r.(unread := r.unread[1..]);
      if b == STOP && i >= 7 then Stopped(s, q)
      else if (b == START && i == 0) || i > 0 then (s.(packet := Grown(q)), Idle)
      else (s, Idle)
  }

  /** How many of n bytes are left in a ring whose indices meet when it is full. */
  function Rest(n: nat): (r: nat)
    ensures r <= n && r < RING && (n < RING ==> r == n)
  {
    n % RING
  }

  /** What is left of the bytes x: whole turns are lost, the oldest bytes first. */
  function Kept(x: seq<Octet>): (r: seq<Octet>)
    ensures |r| == Rest(|x|)
    ensures |x| < RING ==> r == x
  {
    x[|x| - Rest(|x|)..]
  }

  /** Bytes arrive in the ring. */
  function Feed(r: Receiver, data: seq<Octet>): Receiver {
    r.(unread := Kept(r.unread + data))
  }

  /* ---- a stream of frames ---- */

  /** What may be on the line: a frame, a frame that has been damaged on its way, or a byte
      between frames that does not look like the start of one. */
  datatype Item = Message(c: Command) | Damaged(c: Command, bytes: seq<Octet>) | Noise(b: Octet)

  /** The bytes differ from the frame, but only within two adjacent bytes of address, command, payload or CRC. */
  ghost predicate IsDamage(c: Command, bytes: seq<Octet>) {
    && |bytes| == |Frame(c)| && bytes != Frame(c)
    && exists i: nat :: 3 <= i && i + 1 < |c.data| + 7 && SameBut(bytes, Frame(c), i)
  }

  predicate SameBut(x: seq<Octet>, y: seq<Octet>, i: nat) {
    |x| == |y| && forall k :: 0 <= k < |x| && k != i && k != i + 1 ==> x[k] == y[k]
  }

  ghost predicate ValidItem(x: Item) {
    match x
    case Message(c) => |c.data| <= 248
    case Damaged(c, bytes) => |c.data| <= 248 && IsDamage(c, bytes)
    case Noise(b) => b != START
  }

  ghost predicate ValidItems(items: seq<Item>) {
    forall i :: 0 <= i < |items| ==> ValidItem(items[i])
  }

  function Wire(x: Item): seq<Octet> {
    match x
    case Message(c) => Frame(c)
    case Damaged(_, bytes) => bytes
    case Noise(b) => [b]
  }

  function Stream(items: seq<Item>): seq<Octet> {
    if items == [] then [] else Wire(items[0]) + Stream(items[1..])
  }

  /** The callbacks that an item should lead to on the device with this address. */
  function CallsOf(addr: Octet, x: Item): seq<(Octet, seq<Octet>)> {
    match x
    case Message(c) => if c.addr == addr then [(c.cmd, c.data)] else []
    case _ => []
  }

  /** The callbacks that a stream should lead to. */
  function Expected(addr: Octet, items: seq<Item>): seq<(Octet, seq<Octet>)> {
    if items == [] then [] else CallsOf(addr, items[0]) + Expected(addr, items[1..])
  }

  /* ---- one frame ---- */

  lemma FrameShape(c: Command)
    requires |c.data| + 4 < 0x1_0000
    ensures var f, n := Frame(c), |c.data|;
      && |f| == n + 8 && f[0] == START && f[n + 7] == STOP
      && Word16(f[1], f[2]) + 3 == n + 7
      && f[3] == c.addr && f[4] == c.cmd && f[5..n + 5] == c.data
      && Crc(f[..n + 7]) == 0
  {
    hide Crc, Trailer, ToOctet, ToInt;
    var n := |c.data| + 4;
    OctetRoundTrip((n / 256) % 256);
    OctetRoundTrip(n % 256);
    var b := Body(c);
    var t := Trailer(Crc(b));
    TrailerPair(Crc(b));
    var f := Frame(c);
    assert f[..|c.data| + 7] == b + [t[0], t[1]];
    ResidueExact(b, t[0], t[1]);
    assert b[5..|c.data| + 5] == c.data;
    assert f[5..|c.data| + 5] == b[5..|c.data| + 5];
    assert forall k :: 0 <= k < 5 ==> f[k] == b[k];
  }

  /** The bytes on the line, one by one: start, length of all up to the CRC, address, command, payload,
      two bytes that clear the CRC of everything before them, stop. */
  predicate Carries(sent: seq<Octet>, addr: Octet, cmd: Octet, payload: seq<Octet>) {
    var n := |payload|;
    && |sent| == n + 8
    && sent[0] == 0xAA
    && Word16(sent[1], sent[2]) == n + 4
    && sent[3] == addr
    && sent[4] == cmd
    && sent[5..n + 5] == payload
    && Crc(sent[..n + 7]) == 0
    && sent[n + 7] == 0x55
  }

  lemma FrameCarries(c: Command)
    requires |c.data| + 4 < 0x1_0000
    ensures Carries(Frame(c), c.addr, c.cmd, c.data)
  {
    hide Crc, Frame;
    FrameShape(c);
  }

  lemma SameOctet(a: Octet, b: Octet)
    requires ToInt(a) == ToInt(b)
    ensures a == b
  {}

  lemma WordParts(a: Octet, b: Octet, c: Octet, d: Octet)
    requires Word16(a, b) == Word16(c, d)
    ensures a == c && b == d
  {
    hide ToInt;
    SameOctet(a, c);
    SameOctet(b, d);
  }

  lemma FieldsAgree(a: seq<Octet>, b: seq<Octet>, n: nat)
    requires |a| == |b| == n + 8 && a[0] == b[0] && a[1] == b[1] && a[2] == b[2] && a[3] == b[3] && a[4] == b[4]
    requires a[5..n + 5] == b[5..n + 5]
    ensures SameBut(a[..n + 7], b[..n + 7], n + 5)
  {
    forall k | 5 <= k < n + 5
      ensures a[k] == b[k]
    {
      assert a[5..n + 5][k - 5] == b[5..n + 5][k - 5];
    }
  }

  /** No other bytes carry the command. */
  lemma CarriesExact(sent: seq<Octet>, c: Command)
    requires |c.data| <= 248
    ensures Carries(sent, c.addr, c.cmd, c.data) <==> sent == Frame(c)
  {
    hide Crc, Frame, Word16, SameBut;
    FrameCarries(c);
    if Carries(sent, c.addr, c.cmd, c.data) {
      var f, n := Frame(c), |c.data|;
      WordParts(sent[1], sent[2], f[1], f[2]);
      FieldsAgree(sent, f, n);
      CrcClears(c, n + 5, sent[..n + 7]);
      assert sent == sent[..n + 7] + [sent[n + 7]] && f == f[..n + 7] + [f[n + 7]];
    }
  }

  lemma TrailerPair(c: Word)
    ensures |Trailer(c)| == 2 && Trailer(c) == [Trailer(c)[0], Trailer(c)[1]]
  {
    hide UpperByte, LowerByte;
  }

  /** Bytes that look like a frame from outside: start, length and stop byte fit together. */
  predicate Shaped(w: seq<Octet>) {
    && 8 <= |w| <= MAX_FRAME && w[0] == START && w[|w| - 1] == STOP
    && Word16(w[1], w[2]) + 3 == |w| - 1
  }

  /** The callbacks that such bytes lead to. */
  function Called(addr: Octet, w: seq<Octet>): seq<(Octet, seq<Octet>)>
    requires Shaped(w)
  {
    if w[3] == addr && Crc(w[..|w| - 1]) == 0 then [(w[4], w[5..|w| - 3])] else []
  }

  /** A byte inside a frame, or the one that completes it. */
  lemma ProcessWire(r: Receiver, w: seq<Octet>)
    requires Shaped(w) && r.listening && r.unread != []
    requires var i := |r.packet|; i < |w| && r.packet == w[..i] && r.unread[0] == w[i]
    ensures var i, p := |r.packet|, Process(r).0;
      && p.addr == r.addr && p.listening && p.unread == r.unread[1..]
      && if i + 1 < |w| then p.packet == w[..i + 1] && p.calls == r.calls
         else p.packet == [] && p.calls == r.calls + Called(r.addr, w)
  {
    hide Crc, ToInt;
    var i := |r.packet|;
    var q := r.packet + [r.unread[0]];
    assert q == w[..i + 1];
    assert forall k :: 0 <= k <= i ==> q[k] == w[k];
    if i + 1 == |w| {
      assert q[..i] == w[..i];
      assert q[5..i - 2] == w[5..|w| - 3];
    }
  }

  lemma CrcClears(c: Command, i: nat, s: seq<Octet>)
    requires |c.data| <= 248 && SameBut(s, Frame(c)[..|c.data| + 7], i) && i < |s|
    ensures Crc(s) == 0 ==> s == Frame(c)[..|c.data| + 7]
  {
    hide Crc, Frame, ToInt;
    FrameShape(c);
    if s != Frame(c)[..|c.data| + 7] {
      BurstDetected(s, Frame(c)[..|c.data| + 7], i);
    }
  }

  /** Damage within two adjacent bytes is noticed. */
  lemma DamageNoticed(c: Command, bytes: seq<Octet>)
    requires |c.data| <= 248 && IsDamage(c, bytes)
    ensures Shaped(bytes) && Crc(bytes[..|bytes| - 1]) != 0
  {
    hide Crc, Frame, ToInt;
    FrameShape(c);
    var f, n := Frame(c), |c.data| + 7;
    var i: nat :| 3 <= i && i + 1 < n && SameBut(bytes, f, i);
    assert bytes[0] == f[0] && bytes[1] == f[1] && bytes[2] == f[2] && bytes[n] == f[n];
    assert SameBut(bytes[..n], f[..n], i);
    CrcClears(c, i, bytes[..n]);
    assert bytes == bytes[..n] + [bytes[n]] && f == f[..n] + [f[n]];
  }

  /** What the bytes of an item lead to is what is expected. */
  lemma ItemCalls(addr: Octet, x: Item)
    requires ValidItem(x) && !x.Noise?
    ensures Shaped(Wire(x)) && Called(addr, Wire(x)) == Expected(addr, [x])
  {
    hide Crc, Frame, ToInt, IsDamage;
    ExpectedOne(addr, x);
    match x
    case Message(c) => FrameShape(c);
    case Damaged(c, bytes) => DamageNoticed(c, bytes);
  }

  /* ---- runs ---- */

  /** Bytes handed over by the driver, or a call of the process function; in synchronous mode
      that first reads a byte from the line if there is one. */
  datatype Event = Arrive(data: seq<Octet>) | Poll(line: Option<Octet>)

  function BytesOf(e: Event): seq<Octet> {
    match e
    case Arrive(data) => data
    case Poll(None) => []
    case Poll(Some(b)) => [b]
  }

  function HostStep(r: Receiver, e: Event): Receiver {
    var s := Feed(r, BytesOf(e));
    if e.Poll? then Process(s).0 else s
  }

  function Run(r: Receiver, es: seq<Event>): Receiver
    decreases |es|
  {
    if es == [] then r else Run(HostStep(r, es[0]), es[1..])
  }

  /** The bytes that arrive. */
  function Arrived(es: seq<Event>): seq<Octet> {
    if es == [] then [] else BytesOf(es[0]) + Arrived(es[1..])
  }

  /** The process function is called often enough: the ring never fills up. */
  predicate RingHolds(r: Receiver, es: seq<Event>)
    decreases |es|
  {
    es == [] || (|r.unread| + |BytesOf(es[0])| < RING && RingHolds(HostStep(r, es[0]), es[1..]))
  }

  /** The receiver stands within item k: what it has of it, what waits in the ring and what is still
      to come are the rest of the stream, and the callbacks are those of the items before. */
  ghost predicate Tracks(r: Receiver, before: seq<(Octet, seq<Octet>)>, items: seq<Item>, k: nat, future: seq<Octet>) {
    && k <= |items| && r.listening
    && r.calls == before + Expected(r.addr, items[..k])
    && r.packet + r.unread + future == Stream(items[k..])
    && (if k < |items| && !items[k].Noise? then |r.packet| < |Wire(items[k])| else r.packet == [])
  }

  lemma ExpectedOne(addr: Octet, x: Item)
    ensures Expected(addr, [x]) == CallsOf(addr, x)
  {
    hide CallsOf;
    assert [x][1..] == [];
    assert Expected(addr, []) == [];
  }

  lemma {:induction false} ExpectedSnoc(addr: Octet, items: seq<Item>, x: Item)
    ensures Expected(addr, items + [x]) == Expected(addr, items) + Expected(addr, [x])
  {
    hide CallsOf;
    if items == [] {
      assert items + [x] == [x];
    } else {
      var tail := items[1..];
      assert (items + [x])[1..] == tail + [x];
      ExpectedSnoc(addr, tail, x);
      Regroup(CallsOf(addr, items[0]), Expected(addr, tail), Expected(addr, [x]));
    }
  }

  lemma Regroup<T>(a: seq<T>, b: seq<T>, c: seq<T>)
    ensures a + (b + c) == (a + b) + c
  {}

  lemma NoiseIgnored(r: Receiver)
    requires r.unread != [] && r.packet == [] && r.unread[0] != START
    ensures Process(r).0 == r.(unread := r.unread[1..])
  {
    hide Crc, ToInt;
  }

  lemma HeadSplits(p: seq<Octet>, u: seq<Octet>, f: seq<Octet>, w: seq<Octet>, rest: seq<Octet>)
    requires p + u + f == w + rest && u != [] && |p| < |w|
    ensures p == w[..|p|] && u[0] == w[|p|] && w[|p| + 1..] + rest == u[1..] + f
  {
    var all, i := p + u + f, |p|;
    assert p == all[..i] == w[..i];
    assert u[0] == all[i];
    assert all[i + 1..] == u[1..] + f;
    assert all[i + 1..] == w[i + 1..] + rest;
  }

  /** The item on which the receiver works is at the head of the rest of the stream. */
  lemma HeadOfStream(r: Receiver, before: seq<(Octet, seq<Octet>)>, items: seq<Item>, k: nat, future: seq<Octet>)
    requires ValidItems(items) && Tracks(r, before, items, k, future) && r.unread != []
    ensures k < |items|
    ensures var w, i := Wire(items[k]), |r.packet|;
      && w != [] && i < |w| && r.packet == w[..i] && r.unread[0] == w[i]
      && w[i + 1..] + Stream(items[k + 1..]) == r.unread[1..] + future
  {
    hide Frame, Stream, Expected, Wire, ValidItem;
    WireNonempty(items, k);
    if k < |items| {
      HeadSplits(r.packet, r.unread, future, Wire(items[k]), Stream(items[k + 1..]));
    }
  }

  lemma WireNonempty(items: seq<Item>, k: nat)
    requires ValidItems(items) && k <= |items|
    ensures k == |items| ==> Stream(items[k..]) == []
    ensures k < |items| ==> Wire(items[k]) != [] && Stream(items[k..]) == Wire(items[k]) + Stream(items[k + 1..])
  {
    if k < |items| {
      assert ValidItem(items[k]);
      assert items[k..][1..] == items[k + 1..];
    }
  }

  lemma PollTracks(r: Receiver, before: seq<(Octet, seq<Octet>)>, items: seq<Item>, k: nat, future: seq<Octet>)
    returns (j: nat)
    requires ValidItems(items) && Tracks(r, before, items, k, future)
    ensures Tracks(Process(r).0, before, items, j, future)
  {
    j := k;
    if r.unread == [] {
      return;
    }
    hide Crc, Process, Stream, Frame, IsDamage, Shaped, Called;
    HeadOfStream(r, before, items, k, future);
    var p := Process(r).0;
    var w := Wire(items[k]);
    if items[k].Noise? {
      NoiseIgnored(r);
      j := k + 1;
      assert w[1..] == [];
      NextItem(r, p, before, items, k, future);
    } else {
      ItemCalls(r.addr, items[k]);
      ProcessWire(r, w);
      if |r.packet| + 1 == |w| {
        j := k + 1;
        assert w[|w|..] == [];
        NextItem(r, p, before, items, k, future);
      } else {
        SameItem(r, p, before, items, k, future);
      }
    }
  }

  lemma NextItem(r: Receiver, p: Receiver, before: seq<(Octet, seq<Octet>)>, items: seq<Item>, k: nat,
      future: seq<Octet>)
    requires ValidItems(items) && k < |items| && r.calls == before + Expected(r.addr, items[..k]) && p.addr == r.addr
        && p.listening
    requires p.calls == r.calls + Expected(r.addr, [items[k]]) && p.packet == []
    requires p.unread + future == Stream(items[k + 1..])
    ensures Tracks(p, before, items, k + 1, future)
  {
    hide Stream, Expected, Wire;
    assert items[..k + 1] == items[..k] + [items[k]];
    ExpectedSnoc(r.addr, items[..k], items[k]);
    WireNonempty(items, k + 1);
  }

  lemma SameItem(r: Receiver, p: Receiver, before: seq<(Octet, seq<Octet>)>, items: seq<Item>, k: nat,
      future: seq<Octet>)
    requires ValidItems(items) && k < |items| && !items[k].Noise? && r.calls == before + Expected(r.addr, items[..k])
    requires p.addr == r.addr && p.listening && p.calls == r.calls
    requires var w, i := Wire(items[k]), |r.packet|;
      i + 1 < |w| && p.packet == w[..i + 1] && w[i + 1..] + Stream(items[k + 1..]) == p.unread + future
    ensures Tracks(p, before, items, k, future)
  {
    hide Stream, Expected, Wire;
    WireNonempty(items, k);
    var w, i := Wire(items[k]), |r.packet|;
    assert p.packet + p.unread + future == w[..i + 1] + (p.unread + future) ==
        w[..i + 1] + (w[i + 1..] + Stream(items[k + 1..]));
    assert w == w[..i + 1] + w[i + 1..];
  }

  /** Bytes that fit into the ring only move from the future into it. */
  lemma FeedTracks(r: Receiver, before: seq<(Octet, seq<Octet>)>, items: seq<Item>, k: nat, future: seq<Octet>,
      data: seq<Octet>)
    requires Tracks(r, before, items, k, future) && data <= future && |r.unread| + |data| < RING
    ensures Tracks(Feed(r, data), before, items, k, future[|data|..])
  {
    hide Stream, Expected, Wire;
    var rest := future[|data|..];
    assert future == data + rest;
    assert r.packet + r.unread + future == r.packet + (r.unread + data) + rest;
  }

  /** However the bytes of a stream are cut into pieces and the process function is called in between,
      the callbacks are those of the items that have been read, as long as the ring never fills up. */
  lemma {:induction false} RunTracks(r: Receiver, before: seq<(Octet, seq<Octet>)>, items: seq<Item>, k: nat,
                                     future: seq<Octet>, es: seq<Event>)
    returns (j: nat)
    requires ValidItems(items) && Tracks(r, before, items, k, future) && Arrived(es) <= future && RingHolds(r, es)
    ensures Tracks(Run(r, es), before, items, j, future[|Arrived(es)|..])
    decreases |es|
  {
    hide Process, Stream, Expected, Wire, Feed, BytesOf, Tracks, ValidItems;
    j := k;
    if es != [] {
      var data := BytesOf(es[0]);
      var rest := future[|data|..];
      assert data <= future && Arrived(es[1..]) <= rest;
      FeedTracks(r, before, items, k, future, data);
      if es[0].Poll? {
        j := PollTracks(Feed(r, data), before, items, k, rest);
      }
      j := RunTracks(HostStep(r, es[0]), before, items, j, rest, es[1..]);
      assert rest[|Arrived(es[1..])|..] == future[|Arrived(es)|..];
    }
  }

  /** Once the whole stream has been read, every frame for this device has led to exactly one callback with
      its command and payload, in order; damaged frames, frames for other devices and noise have led to none. */
  lemma StreamDelivered(r: Receiver, items: seq<Item>, es: seq<Event>)
    requires ValidItems(items) && r.listening && r.unread == [] && r.packet == [] && Arrived(es) == Stream(items)
    requires RingHolds(r, es) && Run(r, es).unread == []
    ensures Run(r, es).calls == r.calls + Expected(r.addr, items) && Run(r, es).packet == []
  {
    hide Process, Stream, Expected, Wire, HostStep, RingHolds;
    assert items[..0] == [] && items[0..] == items;
    NothingExpected(r.addr);
    HeadState(r, items);
    var j := RunTracks(r, r.calls, items, 0, Stream(items), es);
    var m := Run(r, es);
    RunAddr(r, es);
    WireNonempty(items, j);
    assert m.packet == Stream(items[j..]);
    assert j == |items|;
    assert items[..j] == items;
  }

  lemma NothingExpected(addr: Octet)
    ensures Expected(addr, []) == []
  {}

  lemma HeadState(r: Receiver, items: seq<Item>)
    requires ValidItems(items) && r.unread == [] && r.packet == [] && r.listening
    ensures Tracks(r, r.calls, items, 0, Stream(items))
  {
    hide Stream, Wire;
    assert items[..0] == [] && items[0..] == items;
    if items != [] {
      WireNonempty(items, 0);
    }
    assert r.packet + r.unread + Stream(items) == Stream(items);
  }

  lemma {:induction false} RunAddr(r: Receiver, es: seq<Event>)
    ensures Run(r, es).addr == r.addr
    decreases |es|
  {
    if es != [] {
      AddrKept(r, es[0]);
      RunAddr(HostStep(r, es[0]), es[1..]);
    }
  }

  lemma AddrKept(r: Receiver, e: Event)
    ensures HostStep(r, e).addr == r.addr
  {
    hide Kept, Process;
    ProcessAddr(Feed(r, BytesOf(e)));
  }

  lemma ProcessAddr(r: Receiver)
    ensures Process(r).0.addr == r.addr
  {
    hide Crc, ToInt, Grown;
  }

  /** Every call of the process function takes a byte, so that enough calls read everything. */
  lemma {:induction false} PollsDrain(r: Receiver, n: nat)
    requires |r.unread| <= n && |r.unread| < RING
    ensures Run(r, seq(n, i => Poll(None))).unread == [] && RingHolds(r, seq(n, i => Poll(None)))
    decreases n
  {
    hide Process, Kept;
    var es := seq(n, i => Poll(None));
    if n > 0 {
      assert es[1..] == seq(n - 1, i => Poll(None));
      assert r.unread + [] == r.unread;
      PollShrinks(r);
      PollsDrain(Process(r).0, n - 1);
    }
  }

  lemma PollShrinks(r: Receiver)
    ensures |r.unread| > 0 ==> |Process(r).0.unread| < |r.unread|
    ensures r.unread == [] ==> Process(r).0.unread == []
  {
    hide Crc, ToInt;
  }

  /* ---- the ring ---- */

  /** Less than a ring of bytes always fits. */
  lemma {:induction false} ShortRunHolds(r: Receiver, es: seq<Event>)
    requires |r.unread| + |Arrived(es)| < RING
    ensures RingHolds(r, es)
    decreases |es|
  {
    hide Process, BytesOf;
    if es != [] {
      PollShrinks(Feed(r, BytesOf(es[0])));
      ShortRunHolds(HostStep(r, es[0]), es[1..]);
    }
  }

  /** The ring has to hold out: a frame and noise that fill it in one go are lost without a trace. */
  lemma OverrunLoses(r: Receiver, c: Command, b: Octet, n: nat)
    requires r.listening && r.unread == [] && r.packet == [] && |c.data| <= 248 && c.addr == r.addr && b != START
    requires |Frame(c)| + n == RING
    ensures var items := [Message(c)] + seq(n, i => Noise(b));
      && ValidItems(items)
      && (var es := [Arrive(Stream(items))]; !RingHolds(r, es) && Run(r, es) == r)
      && Expected(r.addr, items) == [(c.cmd, c.data)]
  {
    hide Frame, Run, RingHolds;
    var noise, items := seq(n, i => Noise(b)), [Message(c)] + seq(n, i => Noise(b));
    assert items[1..] == noise;
    NoiseStream(r.addr, b, n);
    FillsRing(r, Stream(items));
  }

  lemma FillsRing(r: Receiver, data: seq<Octet>)
    requires r.unread == [] && |data| == RING
    ensures !RingHolds(r, [Arrive(data)]) && Run(r, [Arrive(data)]) == r
  {
    hide Kept, Process;
    var es := [Arrive(data)];
    assert es[1..] == [];
    assert r.unread + data == data;
  }

  lemma {:induction false} NoiseStream(addr: Octet, b: Octet, n: nat)
    ensures |Stream(seq(n, i => Noise(b)))| == n && Expected(addr, seq(n, i => Noise(b))) == []
  {
    if n > 0 {
      assert seq(n, i => Noise(b))[1..] == seq(n - 1, i => Noise(b));
      NoiseStream(addr, b, n - 1);
    }
  }

  /* ---- damage ---- */

  /** A damaged frame alone, in any pieces: when it has been read, no callback has come and the
      receiver is ready for the next frame. */
  lemma DamageRejected(r: Receiver, c: Command, bytes: seq<Octet>, es: seq<Event>)
    requires |c.data| <= 248 && IsDamage(c, bytes)
    requires r.listening && r.unread == [] && r.packet == [] && Arrived(es) == bytes && Run(r, es).unread == []
    ensures Run(r, es).calls == r.calls && Run(r, es).packet == []
  {
    hide Frame, Expected, IsDamage, Run;
    var items := [Damaged(c, bytes)];
    assert items[1..] == [];
    assert Stream(items) == bytes + Stream([]);
    DamageNoticed(c, bytes);
    ItemCalls(r.addr, items[0]);
    ShortRunHolds(r, es);
    StreamDelivered(r, items, es);
  }

  /* ---- what is sent arrives ---- */

  /** Bytes that carry a command lead to one callback, with this command and payload, in the device
      with the address, and to none in every other one. */
  lemma CommandArrives(r: Receiver, sent: seq<Octet>, addr: Octet, cmd: Octet, payload: seq<Octet>, es: seq<Event>)
    requires |payload| <= 248 && Carries(sent, addr, cmd, payload)
    requires r.listening && r.unread == [] && r.packet == [] && Arrived(es) == sent && Run(r, es).unread == []
    ensures Run(r, es).calls == r.calls + if r.addr == addr then [(cmd, payload)] else []
    ensures Run(r, es).packet == []
  {
    hide Frame, Run, Crc, Expected;
    var c := Command(addr, cmd, payload);
    CarriesExact(sent, c);
    var items := [Message(c)];
    assert items[1..] == [];
    assert Stream(items) == sent + Stream([]) == sent;
    ExpectedOne(r.addr, items[0]);
    ShortRunHolds(r, es);
    StreamDelivered(r, items, es);
  }

  /* ---- frames that are too long ---- */

  lemma FrameHead(c: Command)
    requires |c.data| + 4 < 0x1_0000
    ensures var f := Frame(c);
      && |f| == |c.data| + 8 && f[0] == START && f[|f| - 1] == STOP && Word16(f[1], f[2]) == |c.data| + 4
  {
    hide Crc, Frame;
    FrameShape(c);
  }

  /** One byte of a frame that is too long: a stop byte, which may be one of the payload, empties the ring. */
  lemma LongStep(r: Receiver, w: seq<Octet>, more: seq<Octet>)
    requires 8 <= |w| <= RING && w[0] == START && w[|w| - 1] == STOP && Word16(w[1], w[2]) + 3 >= MAX_FRAME
    requires |r.packet| < |w| && r.packet == w[..|r.packet|] && r.unread == w[|r.packet|..] + more
    ensures var p := Process(r).0;
      && p.calls == r.calls
      && ((p.packet == [] && p.unread == [])
        || (|p.packet| == |r.packet| + 1 < |w| && p.packet == w[..|p.packet|] && p.unread == w[|p.packet|..] + more))
  {
    hide Crc, Word16;
    var i := |r.packet|;
    assert r.unread[0] == w[i];
    assert r.packet + [r.unread[0]] == w[..i + 1];
    assert r.unread[1..] == w[i + 1..] + more;
  }

  lemma {:induction false} LongRun(r: Receiver, w: seq<Octet>, more: seq<Octet>, n: nat)
    requires 8 <= |w| <= RING && w[0] == START && w[|w| - 1] == STOP && Word16(w[1], w[2]) + 3 >= MAX_FRAME
    requires |r.packet| < |w| && r.packet == w[..|r.packet|] && r.unread == w[|r.packet|..] + more
    requires |r.unread| < RING && |w| - |r.packet| <= n
    ensures var m := Run(r, seq(n, i => Poll(None))); m.calls == r.calls && m.packet == [] && m.unread == []
    decreases n
  {
    hide Process, Kept, Word16;
    var es := seq(n, i => Poll(None));
    assert es[1..] == seq(n - 1, i => Poll(None));
    assert r.unread + [] == r.unread;
    LongStep(r, w, more);
    var p := Process(r).0;
    if p.unread == [] {
      EmptyRun(p, n - 1);
    } else {
      LongRun(p, w, more, n - 1);
    }
  }

  lemma {:induction false} EmptyRun(r: Receiver, n: nat)
    requires r.unread == []
    ensures Run(r, seq(n, i => Poll(None))) == r
    decreases n
  {
    hide HostStep;
    if n > 0 {
      var es := seq(n, i => Poll(None));
      assert es[1..] == seq(n - 1, i => Poll(None));
      EmptyPoll(r);
      EmptyRun(r, n - 1);
    }
  }

  lemma EmptyPoll(r: Receiver)
    requires r.unread == []
    ensures HostStep(r, Poll(None)) == r
  {
    assert r.unread + [] == r.unread;
    assert Feed(r, []) == r;
  }

  /** A frame with more than 248 bytes of payload is never delivered, and what waits in the ring behind it is
      lost with it. */
  lemma LongFrameLost(r: Receiver, c: Command, more: seq<Octet>, n: nat)
    requires 248 < |c.data| && |c.data| + 8 + |more| < RING && |c.data| + 8 <= n
    requires r.packet == [] && r.unread == []
    ensures Run(r, [Arrive(Frame(c) + more)] + seq(n, i => Poll(None))) == r
  {
    hide Frame, Word16, Process;
    FrameHead(c);
    var es := [Arrive(Frame(c) + more)] + seq(n, i => Poll(None));
    var f := r.(unread := Frame(c) + more);
    assert es[1..] == seq(n, i => Poll(None));
    assert r.unread + (Frame(c) + more) == Frame(c) + more;
    assert HostStep(r, es[0]) == f;
    assert Frame(c)[..0] == [] && Frame(c)[0..] == Frame(c);
    LongRun(f, Frame(c), more, n);
    RunAddr(f, es[1..]);
    RunListens(f, es[1..]);
  }

  lemma {:induction false} RunListens(r: Receiver, es: seq<Event>)
    ensures Run(r, es).listening == r.listening
    decreases |es|
  {
    if es != [] {
      ListensStill(Feed(r, BytesOf(es[0])));
      hide Process, Kept;
      RunListens(HostStep(r, es[0]), es[1..]);
    }
  }

  lemma ListensStill(r: Receiver)
    ensures Process(r).0.listening == r.listening
  {
    hide Crc, ToInt, Grown;
  }

  /* ---- any bytes at all ---- */

  /** Somewhere in the bytes stands a frame that carries this to the device with the address. */
  ghost predicate Within(h: seq<Octet>, addr: Octet, call: (Octet, seq<Octet>)) {
    exists i: nat, j: nat :: i <= j <= |h| && Carries(h[i..j], addr, call.0, call.1)
  }

  /** The receiver's packet and ring are the end of the bytes that have arrived, and every callback after the first n
      is carried by a frame within them. */
  ghost predicate Heard(r: Receiver, n: nat, h: seq<Octet>) {
    && |r.packet| + |r.unread| <= |h|
    && h[|h| - |r.packet| - |r.unread|..] == r.packet + r.unread
    && (r.packet != [] ==> r.packet[0] == START)
    && forall k :: n <= k < |r.calls| ==> Within(h, r.addr, r.calls[k])
  }

  lemma WithinMore(h: seq<Octet>, d: seq<Octet>, addr: Octet, call: (Octet, seq<Octet>))
    requires Within(h, addr, call)
    ensures Within(h + d, addr, call)
  {
    hide Carries;
    var i: nat, j: nat :| i <= j <= |h| && Carries(h[i..j], addr, call.0, call.1);
    assert (h + d)[i..j] == h[i..j];
  }

  lemma HeardMore(r: Receiver, n: nat, h: seq<Octet>, d: seq<Octet>)
    requires Heard(r, n, h) && |r.unread| + |d| < RING
    ensures Heard(Feed(r, d), n, h + d)
  {
    hide Within;
    var t := h + d;
    var k := |r.packet| + |r.unread|;
    assert t[|t| - k - |d|..] == h[|h| - k..] + d;
    assert r.packet + r.unread + d == r.packet + (r.unread + d);
    forall c | n <= c < |r.calls|
      ensures Within(t, r.addr, r.calls[c])
    {
      WithinMore(h, d, r.addr, r.calls[c]);
    }
  }

  /** A frame has been taken from the end of the bytes in front of the ring. */
  lemma TakenWithin(h: seq<Octet>, q: seq<Octet>, u: seq<Octet>, addr: Octet)
    requires |q| + |u| <= |h| && h[|h| - |q| - |u|..] == q + u && Shaped(q)
    requires q[3] == addr && Crc(q[..|q| - 1]) == 0
    ensures Within(h, addr, (q[4], q[5..|q| - 3]))
  {
    hide Crc, Word16;
    var i: nat, j: nat := |h| - |q| - |u|, |h| - |u|;
    assert h[i..j] == h[i..][..|q|] == q;
    assert Carries(h[i..j], addr, q[4], q[5..|q| - 3]);
  }

  lemma OneTaken(h: seq<Octet>, p: seq<Octet>, u: seq<Octet>)
    requires u != [] && |p| + |u| <= |h| && h[|h| - |p| - |u|..] == p + u
    ensures p + [u[0]] + u[1..] == p + u && h[|h| - |u[1..]|..] == u[1..]
  {
    assert h[|h| - |u| + 1..] == h[|h| - |p| - |u|..][|p| + 1..];
  }

  /** A byte has been taken: it joins the packet, or the packet is given up; a callback may have come. */
  lemma HeardNext(r: Receiver, n: nat, h: seq<Octet>, t: Receiver)
    requires Heard(r, n, h) && r.unread != [] && t.addr == r.addr
    requires var q, u := r.packet + [r.unread[0]], r.unread[1..];
      (t.packet == [] && (t.unread == u || t.unread == [])) || (t.packet == q && t.unread == u && q[0] == START)
    requires t.calls == r.calls || exists c :: t.calls == r.calls + [c] && Within(h, r.addr, c)
    ensures Heard(t, n, h)
  {
    hide Within;
    OneTaken(h, r.packet, r.unread);
  }

  lemma StoppedCases(s: Receiver, q: seq<Octet>)
    requires |q| > 7 && q[0] == START && q[|q| - 1] == STOP
    ensures var t := Stopped(s, q).0;
      && t.addr == s.addr
      && ((t.packet == [] && (t.unread == s.unread || t.unread == [])) || (t.packet == q && t.unread == s.unread))
      && (t.calls == s.calls ||
          (Shaped(q) && q[3] == s.addr && Crc(q[..|q| - 1]) == 0 && t.calls == s.calls + [(q[4], q[5..|q| - 3])]))
  {
    hide Crc, Word16;
  }

  lemma ProcessCases(r: Receiver)
    requires r.unread != [] && (r.packet != [] ==> r.packet[0] == START)
    ensures var q, u, t := r.packet + [r.unread[0]], r.unread[1..], Process(r).0;
      && t.addr == r.addr
      && ((t.packet == [] && (t.unread == u || t.unread == [])) || (t.packet == q && t.unread == u && q[0] == START))
      && (t.calls == r.calls ||
          (Shaped(q) && q[3] == r.addr && Crc(q[..|q| - 1]) == 0 && t.calls == r.calls + [(q[4], q[5..|q| - 3])]))
  {
    hide Crc, Shaped, Stopped;
    if r.unread[0] == STOP && |r.packet| >= 7 {
      StoppedCases(r.(unread := r.unread[1..]), r.packet + [r.unread[0]]);
    }
  }

  lemma HeardProcess(r: Receiver, n: nat, h: seq<Octet>)
    requires Heard(r, n, h) && n <= |r.calls|
    ensures Heard(Process(r).0, n, h)
  {
    hide Crc, Within, Process, Word16, ToInt;
    if r.unread != [] {
      var q, u, t := r.packet + [r.unread[0]], r.unread[1..], Process(r).0;
      OneTaken(h, r.packet, r.unread);
      ProcessCases(r);
      if t.calls != r.calls {
        TakenWithin(h, q, u, r.addr);
        assert t.calls == r.calls + [(q[4], q[5..|q| - 3])] && Within(h, r.addr, (q[4], q[5..|q| - 3]));
      }
      HeardNext(r, n, h, t);
    } else {
      ProcessNothing(r);
    }
  }

  lemma ProcessNothing(r: Receiver)
    requires r.unread == []
    ensures Process(r).0 == r
  {}

  lemma {:induction false} HeardRun(r: Receiver, n: nat, h: seq<Octet>, es: seq<Event>)
    requires Heard(r, n, h) && n <= |r.calls| && RingHolds(r, es)
    ensures Heard(Run(r, es), n, h + Arrived(es))
    decreases |es|
  {
    hide Process, Heard, Feed, BytesOf;
    if es == [] {
      assert h + [] == h;
    } else {
      var d := BytesOf(es[0]);
      HeardMore(r, n, h, d);
      FeedKeeps(r, d);
      if es[0].Poll? {
        HeardProcess(Feed(r, d), n, h + d);
        CallsGrow(Feed(r, d));
      }
      HeardRun(HostStep(r, es[0]), n, h + d, es[1..]);
      assert (h + d) + Arrived(es[1..]) == h + (d + Arrived(es[1..]));
    }
  }

  lemma FeedKeeps(r: Receiver, d: seq<Octet>)
    ensures Feed(r, d).calls == r.calls
  {
    hide Kept;
  }

  lemma CallsGrow(r: Receiver)
    ensures |r.calls| <= |Process(r).0.calls|
  {
    hide Crc, ToInt;
  }

  /** Whatever bytes come, as long as the ring never fills up: every callback is for a frame that stands among
      them, whole, addressed to this device and with a CRC that clears. */
  lemma NoPhantom(r: Receiver, es: seq<Event>, k: nat)
    requires r.unread == [] && r.packet == [] && RingHolds(r, es)
    requires |r.calls| <= k < |Run(r, es).calls|
    ensures Within(Arrived(es), r.addr, Run(r, es).calls[k])
  {
    hide Run, RingHolds, Within;
    HeardRun(r, |r.calls|, [], es);
    RunAddr(r, es);
    assert [] + Arrived(es) == Arrived(es);
  }
}
