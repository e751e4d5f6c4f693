/** Invariants of an MQTT session and the relations its elementary steps keep. */
module SessionInvariants {
  import opened Bytes
  import opened Words
  import opened Arena
  import opened MqttCodec
  import opened PacketIds
  import opened MessageQueue
  import opened Session

  /* ---- the queue ---- */

  /** Message types whose packet id the client chose. */
  predicate HoldsId(m: Message) {
    m.control == PUBLISH || m.control == SUBSCRIBE || m.control == UNSUBSCRIBE
  }

  ghost predicate Nonempty(q: seq<Message>) {
    forall i :: 0 <= i < |q| ==> q[i].packet != []
  }

  ghost predicate NoLiveBefore(q: seq<Message>, i: nat)
    requires i <= |q|
  {
    forall j :: 0 <= j < i ==> !LiveQos2(q[j])
  }

  /** A QoS 2 PUBLISH that awaits its acknowledgement is the first live one in the queue. */
  ghost predicate SingleFlight(q: seq<Message>) {
    forall i :: 0 <= i < |q| && LiveQos2(q[i]) && q[i].state == AwaitingAck ==> NoLiveBefore(q, i)
  }

  ghost predicate DistinctIds(q: seq<Message>) {
    forall i, j :: 0 <= i < j < |q| && HoldsId(q[i]) && HoldsId(q[j]) ==> q[i].pid != q[j].pid
  }

  ghost predicate OnePubrec(q: seq<Message>) {
    forall i, j :: 0 <= i < j < |q| && q[i].control == PUBREC && q[j].control == PUBREC ==> q[i].pid != q[j].pid
  }

  ghost predicate QueueInv(q: seq<Message>) {
    Nonempty(q) && SingleFlight(q) && DistinctIds(q) && OnePubrec(q)
  }

  /** May a message of this type and id be appended? */
  ghost predicate Fresh(q: seq<Message>, m: Message) {
    && (HoldsId(m) ==> forall k :: 0 <= k < |q| ==> q[k].pid != m.pid)
    && (m.control == PUBREC ==> forall k :: 0 <= k < |q| && q[k].control == PUBREC ==> q[k].pid != m.pid)
  }

  lemma DropInv(q: seq<Message>, h: nat)
    requires QueueInv(q) && h <= |q|
    ensures QueueInv(q[h..])
  {
    forall i | 0 <= i < |q| - h && LiveQos2(q[h..][i]) && q[h..][i].state == AwaitingAck
      ensures NoLiveBefore(q[h..], i)
    {
      assert NoLiveBefore(q, h + i);
    }
  }

  lemma AppendInv(q: seq<Message>, m: Message)
    requires QueueInv(q) && m.state == Unsent && m.packet != [] && Fresh(q, m)
    ensures QueueInv(q + [m])
  {
    var p := q + [m];
    forall i | 0 <= i < |p| && LiveQos2(p[i]) && p[i].state == AwaitingAck
      ensures NoLiveBefore(p, i)
    {
      assert NoLiveBefore(q, i);
    }
  }

  /** A replacement that keeps type, id and QoS. */
  ghost predicate Replaces(old_: Message, m: Message) {
    && m.control == old_.control && m.pid == old_.pid && m.packet != []
    && (LiveQos2(m) ==> LiveQos2(old_))
  }

  lemma UpdateInv(q: seq<Message>, k: nat, m: Message)
    requires QueueInv(q) && k < |q| && Replaces(q[k], m)
    requires LiveQos2(m) && m.state == AwaitingAck ==> NoLiveBefore(q, k)
    ensures QueueInv(q[k := m])
  {
    var p := q[k := m];
    forall i | 0 <= i < |p| && LiveQos2(p[i]) && p[i].state == AwaitingAck
      ensures NoLiveBefore(p, i)
    {
      if i != k {
        assert NoLiveBefore(q, i);
      } else {
        assert NoLiveBefore(q, k);
      }
    }
  }

  /* ---- the QoS 2 history ---- */

  /** The last mark about p is a delivery. */
  predicate Open(marks: seq<Mark>, p: Word) {
    marks != [] &&
    if marks[|marks| - 1].pid == p then marks[|marks| - 1].Delivered? else Open(marks[..|marks| - 1], p)
  }

  /** Between two deliveries under the same id there is a release of that id. */
  ghost predicate ExactlyOnce(marks: seq<Mark>) {
    forall i, j :: 0 <= i < j < |marks| && marks[i].Delivered? && marks[i] == marks[j] ==> ReleasedBetween(marks, i, j)
  }

  ghost predicate ReleasedBetween(marks: seq<Mark>, i: nat, j: nat)
    requires i < j < |marks|
  {
    exists k :: i < k < j && marks[k] == Released(marks[i].pid)
  }

  ghost predicate PubrecLive(q: seq<Message>, p: Word) {
    exists k :: 0 <= k < |q| && q[k].control == PUBREC && q[k].pid == p && q[k].state != Complete
  }

  ghost predicate MarksInv(marks: seq<Mark>, q: seq<Message>) {
    ExactlyOnce(marks) && forall p: Word {:trigger Open(marks, p)} :: Open(marks, p) ==> PubrecLive(q, p)
  }

  lemma {:induction false} ClosedWitness(marks: seq<Mark>, p: Word, i: nat) returns (k: nat)
    requires !Open(marks, p) && i < |marks| && marks[i] == Delivered(p)
    ensures i < k < |marks| && marks[k] == Released(p)
  {
    var n := |marks| - 1;
    if marks[n].pid == p {
      k := n;
    } else {
      k := ClosedWitness(marks[..n], p, i);
    }
  }

  lemma MarkStep(marks: seq<Mark>, m: Mark)
    requires ExactlyOnce(marks)
    requires m.Delivered? ==> !Open(marks, m.pid)
    ensures ExactlyOnce(marks + [m])
    ensures forall p: Word {:trigger Open(marks + [m], p)} ::
      Open(marks + [m], p) == if p == m.pid then m.Delivered? else Open(marks, p)
  {
    var all := marks + [m];
    assert all[..|marks|] == marks;
    forall i, j | 0 <= i < j < |all| && all[i].Delivered? && all[i] == all[j]
      ensures ReleasedBetween(all, i, j)
    {
      if j < |marks| {
        assert ReleasedBetween(marks, i, j);
        var k :| i < k < j && marks[k] == Released(marks[i].pid);
        assert all[k] == Released(all[i].pid);
      } else {
        var k := ClosedWitness(marks, m.pid, i);
        assert all[k] == Released(all[i].pid);
      }
    }
  }

  lemma PubrecDrop(q: seq<Message>, h: nat, p: Word)
    requires PubrecLive(q, p) && h <= |q|
    requires forall k :: 0 <= k < h ==> q[k].state == Complete
    ensures PubrecLive(q[h..], p)
  {
    var k :| 0 <= k < |q| && q[k].control == PUBREC && q[k].pid == p && q[k].state != Complete;
    assert q[h..][k - h] == q[k];
  }

  lemma PubrecAppend(q: seq<Message>, m: Message, p: Word)
    requires PubrecLive(q, p)
    ensures PubrecLive(q + [m], p)
  {
    var k :| 0 <= k < |q| && q[k].control == PUBREC && q[k].pid == p && q[k].state != Complete;
    assert (q + [m])[k] == q[k];
  }

  lemma PubrecUpdate(q: seq<Message>, i: nat, m: Message, p: Word)
    requires PubrecLive(q, p) && i < |q| && m.control == q[i].control && m.pid == q[i].pid
    requires m.control == PUBREC && m.pid == p ==> m.state != Complete
    ensures PubrecLive(q[i := m], p)
  {
    var k :| 0 <= k < |q| && q[k].control == PUBREC && q[k].pid == p && q[k].state != Complete;
    assert q[i := m][k].control == PUBREC;
  }

  /* ---- the invariant ---- */

  ghost predicate AllComplete(q: seq<Message>) {
    forall k :: 0 <= k < |q| ==> q[k].state == Complete
  }

  ghost predicate Inv(s: Session) {
    && Fits(s)
    && QueueInv(s.queue)
    && AllComplete(s.gone)
    && MarksInv(s.marks, s.queue)
  }

  lemma InitialInv(capacity: nat, recvCap: nat)
    requires capacity < DESC * PERIOD
    ensures Inv(Initial(capacity, recvCap))
  {
    assert Packets([]) == [];
  }

  lemma CleanInv(s: Session)
    requires Inv(s)
    ensures Inv(Clean(s))
  {
    var h := CompletePrefix(s.queue);
    DropInv(s.queue, h);
    FlatSplit(s.queue, h);
    forall p: Word | Open(s.marks, p)
      ensures PubrecLive(s.queue[h..], p)
    {
      PubrecDrop(s.queue, h, p);
    }
  }

  lemma RegisterInv(s: Session, control: Nibble, pid: Word, bytes: seq<byte>)
    requires Inv(s) && 0 < |bytes| <= RoomOf(s)
    requires Fresh(s.queue, Message(bytes, Unsent, control, pid))
    ensures Inv(Register(s, control, pid, bytes))
  {
    var m := Message(bytes, Unsent, control, pid);
    AppendInv(s.queue, m);
    FlatAppend(s.queue, [m]);
    FlatOne(m);
    forall p: Word | Open(s.marks, p)
      ensures PubrecLive(s.queue + [m], p)
    {
      PubrecAppend(s.queue, m, p);
    }
  }

  lemma UpdateFlat(q: seq<Message>, k: nat, m: Message)
    requires k < |q| && |m.packet| == |q[k].packet|
    ensures |Flat(q[k := m])| == |Flat(q)|
  {
    FlatSplice(q, k, m);
    FlatSlice(q, k);
  }

  /** TryPack either leaves an error, possibly after cleaning, or appends one packet that fits. */
  lemma TryPackCases(s: Session, r: Request, pid: Word) returns (base: Session, bytes: seq<byte>)
    ensures base == s || base == Clean(s)
    ensures var t := TryPack(s, r, pid);
      || (t.status.Some? && t == base.(status := t.status))
      || (s.status.None? && t == Register(base, ControlOf(r), pid, bytes) && 0 < |bytes| <= RoomOf(base))
  {
    hide CompletePrefix, Room, Clean;
    base, bytes := s, [];
    if s.status.None? {
      var p := Pack(r, pid, RoomOf(s));
      PackFits(r, pid, RoomOf(s));
      if p.Ready? {
        bytes := p.bytes;
      } else if p.NoRoom? {
        base := Clean(s);
        PackFits(r, pid, RoomOf(base));
        if Pack(r, pid, RoomOf(base)).Ready? {
          bytes := Pack(r, pid, RoomOf(base)).bytes;
        }
      }
    }
  }

  /* ---- what no step undoes ---- */

  function Rank(state: State): nat {
    match state case Unsent => 0 case AwaitingAck => 1 case Complete => 2
  }

  predicate SamePacket(a: seq<byte>, b: seq<byte>) {
    |a| == |b| && (a != [] ==> a[1..] == b[1..] && (b[0] == a[0] || b[0] == DupByte(a[0])))
  }

  /** The same message at a later time: its bytes up to the DUP flag, its type and its id are
      kept, and its state has only moved forward. */
  predicate Later(m: Message, n: Message) {
    n.control == m.control && n.pid == m.pid && SamePacket(m.packet, n.packet) && Rank(m.state) <= Rank(n.state)
  }

  /** Every message ever queued, in order, including those cleaned away. */
  function Whole(s: Session): seq<Message> {
    s.gone + s.queue
  }

  ghost predicate Forward(a: seq<Message>, b: seq<Message>) {
    |a| <= |b| && forall i :: 0 <= i < |a| ==> Later(a[i], b[i])
  }

  ghost predicate Advances(s: Session, t: Session) {
    |s.gone| <= |t.gone| && Forward(Whole(s), Whole(t))
  }

  lemma AdvancesSame(s: Session, t: Session)
    requires t.gone == s.gone && t.queue == s.queue
    ensures Advances(s, t)
  {}

  lemma AdvancesTrans(s: Session, t: Session, u: Session)
    requires Advances(s, t) && Advances(t, u)
    ensures Advances(s, u)
  {
    forall i | 0 <= i < |Whole(s)|
      ensures Later(Whole(s)[i], Whole(u)[i])
    {
      assert Later(Whole(s)[i], Whole(t)[i]);
      assert Later(Whole(t)[i], Whole(u)[i]);
    }
  }

  lemma CleanAdvances(s: Session)
    ensures Advances(s, Clean(s))
  {
    assert Whole(Clean(s)) == Whole(s);
  }

  lemma RegisterAdvances(s: Session, control: Nibble, pid: Word, bytes: seq<byte>)
    ensures Advances(s, Register(s, control, pid, bytes))
  {
    assert Whole(Register(s, control, pid, bytes))[..|Whole(s)|] == Whole(s);
  }

  lemma UpdateAdvances(s: Session, k: nat, m: Message, t: Session)
    requires k < |s.queue| && Later(s.queue[k], m)
    requires t.gone == s.gone && t.queue == s.queue[k := m]
    ensures Advances(s, t)
  {
    assert Whole(t) == Whole(s)[|s.gone| + k := m];
  }

  /* ---- the outgoing byte stream ---- */

  ghost predicate Tidy(q: seq<Message>) {
    forall i :: 0 <= i < |q| ==> q[i].packet != [] && AfterSend(q[i]).Some?
  }

  predicate Hazard(s: Session) {
    s.hazards.late || s.hazards.skipped || s.hazards.early
  }

  /** Messages before k have been written, the others not; the wire holds the packets of the
      former as they were registered, then the first sendOffset bytes of message k. */
  ghost predicate WireAt(s: Session, k: nat) {
    && |s.registered| == |s.gone| + |s.queue| && k <= |s.queue|
    && (forall j :: 0 <= j < k ==> s.queue[j].state != Unsent)
    && (forall j :: k <= j < |s.queue| ==>
          s.queue[j].state == Unsent && s.queue[j].packet == s.registered[|s.gone| + j])
    && (if k < |s.queue| then s.sendOffset < |s.queue[k].packet| else s.sendOffset == 0)
    && s.wire == Concat(s.registered[..|s.gone| + k])
                 + (if k < |s.queue| then s.queue[k].packet[..s.sendOffset] else [])
  }

  ghost predicate WireWhole(s: Session) {
    exists k: nat :: WireAt(s, k)
  }

  /** Hazards are never forgotten, and without one the outgoing stream stays whole. */
  ghost predicate Flows(s: Session, t: Session) {
    Tidy(s.queue) ==>
      && Tidy(t.queue)
      && (!Hazard(t) ==> !Hazard(s) && (WireWhole(s) ==> WireWhole(t)))
  }

  lemma FlowsSame(s: Session, t: Session)
    requires t.queue == s.queue && t.gone == s.gone && t.registered == s.registered
    requires t.wire == s.wire && t.sendOffset == s.sendOffset
    requires Hazard(s) ==> Hazard(t)
    ensures Flows(s, t)
  {
    if WireWhole(s) {
      var k: nat :| WireAt(s, k);
      assert WireAt(t, k);
    }
  }

  lemma TidyDrop(q: seq<Message>, h: nat)
    requires Tidy(q) && h <= |q|
    ensures Tidy(q[h..])
  {
    hide AfterSend;
    forall i | 0 <= i < |q[h..]|
      ensures q[h..][i] == q[h + i]
    {}
  }

  lemma CleanTidy(s: Session)
    requires Tidy(s.queue)
    ensures Tidy(Clean(s).queue)
  {
    hide Tidy, CompletePrefix;
    TidyDrop(s.queue, CompletePrefix(s.queue));
  }

  lemma CleanWire(s: Session, k: nat)
    requires WireAt(s, k)
    ensures WireWhole(Clean(s))
  {
    var h := CompletePrefix(s.queue);
    var t := Clean(s);
    assert h <= k;
    assert s.registered[..|t.gone| + (k - h)] == s.registered[..|s.gone| + k];
    assert WireAt(t, k - h);
  }

  lemma CleanFlows(s: Session)
    ensures Flows(s, Clean(s))
  {
    hide Tidy, WireAt, CompletePrefix;
    if Tidy(s.queue) {
      CleanTidy(s);
    }
    if WireWhole(s) {
      var k: nat :| WireAt(s, k);
      CleanWire(s, k);
    }
  }

  lemma RegisterFlows(s: Session, control: Nibble, pid: Word, bytes: seq<byte>)
    requires bytes != [] && AfterSend(Message(bytes, Unsent, control, pid)).Some?
    ensures Flows(s, Register(s, control, pid, bytes))
  {
    var t := Register(s, control, pid, bytes);
    if WireWhole(s) {
      var k: nat :| WireAt(s, k);
      assert t.registered[..|s.gone| + k] == s.registered[..|s.gone| + k];
      assert WireAt(t, k);
    }
  }

  lemma FinishFlows(s: Session, k: nat)
    requires k < |s.queue|
    ensures Flows(s, Finish(s, k))
  {
    var t := Finish(s, k);
    FinishSendable(s.queue[k]);
    if WireWhole(s) && !Hazard(t) {
      var j: nat :| WireAt(s, j);
      assert k < j;
      assert WireAt(t, j);
    }
  }

  lemma FinishSendable(m: Message)
    ensures AfterSend(m).Some? ==> AfterSend(m.(state := Complete)).Some?
  {}

  /** The bytes handed over extend the written part of the packet. */
  lemma WrittenPrefix(packet: seq<byte>, offset: nat, n: nat, stray: seq<byte>)
    requires offset <= |packet|
    ensures var w := Written(packet, offset, n, stray);
      && offset + |w| <= |packet|
      && packet[..offset] + w == packet[..offset + |w|]
  {}

  lemma WriteFlows(s: Session, i: nat, a: Attempt)
    requires i < |s.queue| && s.queue[i].state == Unsent
    requires forall j :: 0 <= j < i ==> s.queue[j].state != Unsent
    ensures Flows(s, Write(s, i, a).0)
  {
    hide AfterSend, Written;
    var t := Write(s, i, a).0;
    if Tidy(s.queue) {
      WriteTidy(s, i, a);
      if WireWhole(s) {
        var k: nat :| WireAt(s, k);
        assert k == i;
        WriteWire(s, i, a);
      }
    }
  }

  lemma WriteTidy(s: Session, i: nat, a: Attempt)
    requires i < |s.queue| && Tidy(s.queue)
    ensures Tidy(Write(s, i, a).0.queue) && |Write(s, i, a).0.queue| == |s.queue|
    ensures forall j :: 0 <= j < |s.queue| && j != i ==> Write(s, i, a).0.queue[j] == s.queue[j]
    ensures Write(s, i, a).1 == Next ==> Write(s, i, a).0.queue[i].state != Unsent
  {
    hide Written;
    AfterSendTidy(s.queue[i]);
  }

  lemma AfterSendTidy(m: Message)
    requires m.packet != [] && AfterSend(m).Some?
    ensures AfterSend(m).value.packet != [] && AfterSend(AfterSend(m).value).Some? && AfterSend(m).value.state != Unsent
  {}

  lemma WriteWire(s: Session, i: nat, a: Attempt)
    requires WireAt(s, i) && i < |s.queue| && Tidy(s.queue)
    ensures WireWhole(Write(s, i, a).0)
  {
    hide AfterSend, Written;
    var (t, verdict) := Write(s, i, a);
    AfterSendTidy(s.queue[i]);
    if a.outcome.Failed? {
      assert WireAt(t, i);
    } else {
      var p := s.queue[i].packet;
      var done := Concat(s.registered[..|s.gone| + i]);
      var w := Written(p, s.sendOffset, a.outcome.n, a.stray);
      WrittenPrefix(p, s.sendOffset, a.outcome.n, a.stray);
      assert t.wire == done + p[..s.sendOffset + |w|] by {
        assert done + p[..s.sendOffset] + w == done + (p[..s.sendOffset] + w);
      }
      if verdict == Partial {
        assert WireAt(t, i);
      } else {
        assert p[..|p|] == p;
        ConcatSnoc(s.registered[..|s.gone| + i], p);
        assert s.registered[..|s.gone| + i + 1] == s.registered[..|s.gone| + i] + [p];
        assert WireAt(t, i + 1);
      }
    }
  }

  /* ---- the incoming byte stream ---- */

  /** d is the list of packets in the first n bytes of s. */
  ghost predicate ParsedAs(s: seq<byte>, d: seq<Response>, n: nat)
    decreases |d|
  {
    if d == [] then n == 0
    else
      && Unpack(s).Got? && Unpack(s).value == d[0]
      && Unpack(s).size <= n && Unpack(s).size <= |s|
      && ParsedAs(s[Unpack(s).size..], d[1..], n - Unpack(s).size)
  }

  /** All whole packets at the front of a byte stream. */
  ghost function ParseAll(s: seq<byte>): seq<Response>
    decreases |s|
  {
    if Unpack(s).Got? then
      UnpackSize(s);
      [Unpack(s).value] + ParseAll(s[Unpack(s).size..])
    else []
  }

  /** Nothing that arrived is lost or duplicated, and what was handled is what it encodes. */
  ghost predicate InputInv(u: Input) {
    && u.arrived == u.consumed + u.recv + u.inbox
    && ParsedAs(u.arrived, u.dispatched, |u.consumed|)
  }

  lemma {:induction false} ParsedStable(s: seq<byte>, t: seq<byte>, d: seq<Response>, n: nat)
    requires ParsedAs(s, d, n)
    ensures ParsedAs(s + t, d, n)
    decreases |d|
  {
    hide Unpack;
    if d != [] {
      UnpackStable(s, t);
      var k := Unpack(s).size;
      assert (s + t)[k..] == s[k..] + t;
      ParsedStable(s[k..], t, d[1..], n - k);
    }
  }

  lemma {:induction false} ParsedSnoc(s: seq<byte>, d: seq<Response>, n: nat)
    requires ParsedAs(s, d, n) && n <= |s| && Unpack(s[n..]).Got?
    ensures ParsedAs(s, d + [Unpack(s[n..]).value], n + Unpack(s[n..]).size)
    decreases |d|
  {
    hide Unpack;
    var e := d + [Unpack(s[n..]).value];
    UnpackSize(s[n..]);
    if d == [] {
      assert s[0..] == s;
      assert e[1..] == [];
    } else {
      var k := Unpack(s).size;
      assert s[k..][n - k..] == s[n..];
      ParsedSnoc(s[k..], d[1..], n - k);
      assert e[1..] == d[1..] + [Unpack(s[n..]).value];
    }
  }

  lemma ParseAllStep(s: seq<byte>)
    requires Unpack(s).Got?
    ensures Unpack(s).size <= |s|
    ensures ParseAll(s) == [Unpack(s).value] + ParseAll(s[Unpack(s).size..])
  {
    hide Unpack;
    UnpackSize(s);
  }

  /** The packets handled are the first ones of the whole stream. */
  lemma {:induction false} ParsedIsPrefix(s: seq<byte>, d: seq<Response>, n: nat)
    requires ParsedAs(s, d, n) && n <= |s|
    ensures ParseAll(s) == d + ParseAll(s[n..])
    decreases |d|
  {
    hide Unpack, ParseAll;
    if d == [] {
      assert s[0..] == s;
    } else {
      var k := Unpack(s).size;
      assert s[k..][n - k..] == s[n..];
      ParsedIsPrefix(s[k..], d[1..], n - k);
      ParseAllStep(s);
      assert d == [d[0]] + d[1..];
      assert [d[0]] + (d[1..] + ParseAll(s[n..])) == d + ParseAll(s[n..]);
    }
  }

  lemma TakeInput(u: Input, n: nat)
    requires InputInv(u) && |u.recv| <= u.cap
    ensures InputInv(Take(u, n))
  {
    hide ParsedAs;
    var k := Min(n, Min(u.cap - |u.recv|, |u.inbox|));
    assert u.inbox == u.inbox[..k] + u.inbox[k..];
    assert u.consumed + (u.recv + u.inbox[..k]) + u.inbox[k..] == u.consumed + u.recv + (u.inbox[..k] + u.inbox[k..]);
  }

  lemma ConsumeInput(u: Input)
    requires InputInv(u) && Unpack(u.recv).Got? && Unpack(u.recv).size <= |u.recv|
    ensures InputInv(Consume(u, Unpack(u.recv).value, Unpack(u.recv).size))
  {
    hide ParsedAs, Unpack;
    var n := Unpack(u.recv).size;
    assert u.arrived[|u.consumed|..] == u.recv + u.inbox;
    UnpackStable(u.recv, u.inbox);
    ParsedSnoc(u.arrived, u.dispatched, |u.consumed|);
    assert u.recv == u.recv[..n] + u.recv[n..];
    assert u.consumed + u.recv[..n] + u.recv[n..] + u.inbox == u.consumed + (u.recv[..n] + u.recv[n..]) + u.inbox;
  }

  lemma ArriveInput(u: Input, bytes: seq<byte>)
    requires InputInv(u)
    ensures InputInv(u.(inbox := u.inbox + bytes, arrived := u.arrived + bytes))
  {
    hide ParsedAs;
    ParsedStable(u.arrived, bytes, u.dispatched, |u.consumed|);
    assert u.arrived + bytes == u.consumed + u.recv + (u.inbox + bytes);
  }
}
