/** What the client does with a packet from the broker, after MQTT 3.1.1, with all packet types, flags and codes
    given literally. */
module SessionHandling {
  import opened Bytes
  import opened Words
  import opened Arena
  import opened MqttCodec
  import opened PacketIds
  import opened MessageQueue
  import opened Session
  import opened SessionInvariants

  /* ---- what a packet is about ---- */

  /** A message of this type, with this id or, if none is given, not complete. */
  predicate IsAbout(m: Message, control: nat, pid: Option<Word>) {
    m.control as int == control && if pid.Some? then m.pid == pid.value else m.state != Complete
  }

  /** Message k is the first of this type and id. */
  predicate IsFirst(q: seq<Message>, control: nat, pid: Option<Word>, k: nat) {
    k < |q| && IsAbout(q[k], control, pid) && forall j :: 0 <= j < k ==> !IsAbout(q[j], control, pid)
  }

  /** A message of this type with this id is queued. */
  predicate Holds(q: seq<Message>, control: nat, pid: Word) {
    exists k :: 0 <= k < |q| && IsAbout(q[k], control, Some(pid))
  }

  datatype Subject = Subject(control: nat, pid: Option<Word>)

  /** The message that a packet acknowledges: CONNACK acknowledges CONNECT, PUBACK and PUBREC a PUBLISH, PUBREL a
      PUBREC, PUBCOMP a PUBREL, SUBACK, UNSUBACK and PINGRESP their requests. A PUBREC that comes again, for
      which a PUBREL is queued, acknowledges nothing. */
  function SubjectOf(q: seq<Message>, r: Response): Option<Subject> {
    match r
    case Connack(_, _) => Some(Subject(1, None))
    case Publish(_, _, _, _, _, _) => None
    case Pub(control, pid) =>
      if control == 4 then Some(Subject(3, Some(pid)))
      else if control == 5 then if Holds(q, 6, pid) then None else Some(Subject(3, Some(pid)))
      else if control == 6 then Some(Subject(5, Some(pid)))
      else Some(Subject(6, Some(pid)))
    case Suback(pid, _) => Some(Subject(8, Some(pid)))
    case Unsuback(pid) => Some(Subject(10, Some(pid)))
    case Pingresp => Some(Subject(12, None))
  }

  /** The type of the packet that answers a packet: PUBACK a PUBLISH with QoS 1; PUBREC one with QoS 2 unless a PUBREC
      with its id is queued; PUBREL a PUBREC unless a PUBREL is queued; PUBCOMP a PUBREL. */
  function ReplyTo(q: seq<Message>, r: Response): Option<nat> {
    match r
    case Publish(_, qos, _, _, pid, _) =>
      if qos == 1 then Some(4) else if qos == 2 && !Holds(q, 5, pid) then Some(5) else None
    case Pub(control, pid) =>
      if control == 5 && !Holds(q, 6, pid) then Some(6) else if control == 6 then Some(7) else None
    case _ => None
  }

  function PidOf(r: Response): Word {
    match r
    case Publish(_, _, _, _, pid, _) => pid
    case Pub(_, pid) => pid
    case Suback(pid, _) => pid
    case Unsuback(pid) => pid
    case _ => 0
  }

  /** The bytes of an acknowledgement: only PUBREL has a flag. */
  function AckBytes(control: nat, pid: Word): seq<byte>
    requires control < 16
  {
    [control * 16 + (if control == 6 then 2 else 0), 2, pid as int / 256, pid as int % 256]
  }

  function AckMessage(control: nat, pid: Word): Message
    requires control < 16
  {
    Message(AckBytes(control, pid), Unsent, control, pid)
  }

  /** A packet of k bytes and a descriptor fit into the memory once some of the oldest messages, if they are all
      complete, have been removed. */
  ghost predicate CanQueue(capacity: nat, q: seq<Message>, k: nat) {
    exists h: nat :: h <= |q| && RoomFrom(capacity, q, h, k)
  }

  ghost predicate RoomFrom(capacity: nat, q: seq<Message>, h: nat, k: nat)
    requires h <= |q|
  {
    AllComplete(q[..h]) && HasRoom(capacity, q[h..], k)
  }

  /** The packet of a request, for any room that there is. */
  ghost predicate Packs(r: Request, pid: Word, b: seq<byte>) {
    && b != []
    && forall n: nat {:trigger Pack(r, pid, n)} :: Pack(r, pid, n) == if n < |b| then NoRoom else Packed.Ready(b)
  }

  /** The packet type of a request. */
  function TypeOf(r: Request): Nibble {
    match r
    case Connect(_) => 1
    case SendPublish(_, _, _) => 3
    case SendPub(c) => c
    case Subscribe(_, _) => 8
    case Unsubscribe(_) => 10
    case Ping => 12
    case Disconnect => 14
  }

  lemma AckPacks(control: Nibble, pid: Word)
    requires PUBACK <= control <= PUBCOMP
    ensures Packs(SendPub(control), pid, AckBytes(control, pid))
  {
    assert EncodeLength(2) == [2];
    forall n: nat
      ensures Pack(SendPub(control), pid, n) == if n < 4 then NoRoom else Packed.Ready(AckBytes(control, pid))
    {}
  }

  lemma FlatShrinks(q: seq<Message>, h: nat, k: nat)
    requires h <= k <= |q|
    ensures |Flat(q[k..])| <= |Flat(q[h..])|
  {
    FlatSplit(q[h..], k - h);
    assert q[h..][k - h..] == q[k..];
  }

  lemma PrefixExact(q: seq<Message>, h: nat)
    requires h <= |q|
    ensures AllComplete(q[..h]) <==> h <= CompletePrefix(q)
  {
    var n := CompletePrefix(q);
    if n < h {
      assert q[..h][n] == q[n];
    }
  }

  /** Cleaning makes as much room as can be made. */
  lemma RoomExact(s: Session, k: nat)
    requires k > 0
    ensures CanQueue(s.capacity, s.queue, k) <==> RoomOf(s) >= k || RoomOf(Clean(s)) >= k
  {
    var q, n := s.queue, CompletePrefix(s.queue);
    PrefixExact(q, n);
    PrefixExact(q, 0);
    assert q[0..] == q;
    if RoomOf(s) >= k {
      assert RoomFrom(s.capacity, q, 0, k);
    } else if RoomOf(Clean(s)) >= k {
      assert RoomFrom(s.capacity, q, n, k);
    } else if CanQueue(s.capacity, q, k) {
      var h: nat :| h <= |q| && RoomFrom(s.capacity, q, h, k);
      PrefixExact(q, h);
      FlatShrinks(q, h, n);
    }
  }

  /** A request is queued behind everything else if it can be, and otherwise the client fails. */
  lemma RequestQueued(s: Session, r: Request, pid: Word, b: seq<byte>)
    requires s.status.None? && Packs(r, pid, b)
    ensures var t := TryPack(s, r, pid);
      && t == s.(gone := t.gone, queue := t.queue, registered := t.registered, status := t.status)
      && if CanQueue(s.capacity, s.queue, |b|) then
           && t.status.None? && Whole(t) == Whole(s) + [Message(b, Unsent, TypeOf(r), pid)]
           && t.registered == s.registered + [b]
         else t.status == Some(SendBufferIsFull) && Whole(t) == Whole(s) && t.registered == s.registered
  {
    hide CanQueue, Pack, Flat, CompletePrefix, Packs, Clean, RoomOf;
    PacksAt(r, pid, b, RoomOf(s));
    PacksAt(r, pid, b, RoomOf(Clean(s)));
    RoomExact(s, |b|);
    CleanIs(s);
  }

  lemma PacksAt(r: Request, pid: Word, b: seq<byte>, n: nat)
    requires Packs(r, pid, b)
    ensures b != [] && Pack(r, pid, n) == if n < |b| then NoRoom else Packed.Ready(b)
  {
    hide Pack;
  }

  lemma CleanIs(s: Session)
    ensures Whole(Clean(s)) == Whole(s) && Clean(s) == s.(gone := Clean(s).gone, queue := Clean(s).queue)
  {
    Cut(s.gone, s.queue, CompletePrefix(s.queue));
    hide CompletePrefix;
  }

  lemma Cut(g: seq<Message>, q: seq<Message>, h: nat)
    requires h <= |q|
    ensures (g + q[..h]) + q[h..] == g + q
  {
    assert q == q[..h] + q[h..];
  }

  /** The same for an acknowledgement. */
  lemma AckQueued(s: Session, control: Nibble, pid: Word)
    requires s.status.None? && PUBACK <= control <= PUBCOMP
    ensures var t := TryPack(s, SendPub(control), pid);
      && t == s.(gone := t.gone, queue := t.queue, registered := t.registered, status := t.status)
      && if CanQueue(s.capacity, s.queue, 4) then
           && t.status.None? && Whole(t) == Whole(s) + [AckMessage(control, pid)]
           && t.registered == s.registered + [AckBytes(control, pid)]
         else t.status == Some(SendBufferIsFull) && Whole(t) == Whole(s) && t.registered == s.registered
  {
    hide CanQueue, Packs, TryPack;
    AckPacks(control, pid);
    RequestQueued(s, SendPub(control), pid, AckBytes(control, pid));
  }

  /** A new id is the first one in the cycle that no queued message holds; the request is queued under it, and the
      next search begins there. */
  lemma NewIdExact(s: Session, r: Request) returns (n: nat, pid: Word)
    requires s.status.None? && |s.queue| < PERIOD
    ensures FirstFree(Seeded(s.lfsr), Ids(s.queue), n) && pid == Iterate(n, Seeded(s.lfsr))
    ensures WithNewId(s, r).lfsr == pid
    ensures forall b :: Packs(r, pid, b) && CanQueue(s.capacity, s.queue, |b|) ==>
      && WithNewId(s, r).status.None?
      && Whole(WithNewId(s, r)) == Whole(s) + [Message(b, Unsent, TypeOf(r), pid)]
  {
    hide TryPack, Packs, CanQueue, Iterate, Seeded;
    SeededNonzero(s.lfsr);
    FreeExists(Seeded(s.lfsr), Ids(s.queue));
    n :| n <= |s.queue| + 1 && FirstFree(Seeded(s.lfsr), Ids(s.queue), n);
    NextIdIs(s.lfsr, Ids(s.queue), n);
    pid := Iterate(n, Seeded(s.lfsr));
    var u := s.(lfsr := pid);
    TryPackLfsr(u, r, pid);
    forall b | Packs(r, pid, b) && CanQueue(s.capacity, s.queue, |b|)
      ensures WithNewId(s, r).status.None?
      ensures Whole(WithNewId(s, r)) == Whole(s) + [Message(b, Unsent, TypeOf(r), pid)]
    {
      RequestQueued(u, r, pid, b);
    }
  }

  lemma SeededNonzero(lfsr: Word)
    ensures Seeded(lfsr) != 0
  {}

  lemma TryPackLfsr(s: Session, r: Request, pid: Word)
    ensures TryPack(s, r, pid).lfsr == s.lfsr
  {
    hide Pack, CompletePrefix, Room;
  }

  /** The first message that a packet is about is complete now, and no other has changed. */
  ghost predicate Settled(q: seq<Message>, r: seq<Message>, a: Option<Subject>) {
    if a.None? then r == q
    else exists k: nat :: IsFirst(q, a.value.control, a.value.pid, k) && r == q[k := q[k].(state := Complete)]
  }

  /** No message is what the packet is about. */
  ghost predicate Unasked(q: seq<Message>, a: Option<Subject>) {
    a.Some? && forall k :: 0 <= k < |q| ==> !IsAbout(q[k], a.value.control, a.value.pid)
  }

  /** The error that a packet from the broker reports. */
  function Refusal(r: Response): Option<Error> {
    match r
    case Connack(_, code) =>
      if code == 0 then None else if code == 2 then Some(ConnectClientIdRefused) else Some(ConnectionRefused)
    case Suback(_, codes) => if codes != [] && codes[0] == 0x80 then Some(SubscribeFailed) else None
    case _ => None
  }

  /** What the queue, with message k complete, goes on to. */
  ghost predicate Answered(s: Session, q: seq<Message>, r: Response, t: Session, ok: bool) {
    match ReplyTo(s.queue, r)
    case None =>
      && t.gone == s.gone && t.queue == q && t.registered == s.registered
      && (ok <==> Refusal(r).None?) && t.status == (if Refusal(r).Some? then Refusal(r) else s.status)
    case Some(c) =>
      if s.status.None? && CanQueue(s.capacity, q, 4) then
        && ok && t.status.None? && c < 16
        && Whole(t) == s.gone + q + [AckMessage(c, PidOf(r))]
        && t.registered == s.registered + [AckBytes(c, PidOf(r))]
      else
        && !ok && t.status == (if s.status.Some? then s.status else Some(SendBufferIsFull))
        && Whole(t) == s.gone + q && t.registered == s.registered
  }

  /** The packet goes to the application: a PUBLISH that has been answered, if an answer was due, and that has not
      come before. */
  predicate HandedOver(q: seq<Message>, r: Response, ok: bool) {
    r.Publish? && ok && !(r.qos == 2 && Holds(q, 5, r.pid))
  }

  /** A packet about nothing is an error. Otherwise the message that it is about is complete, an answer is queued if
      one is due, and a PUBLISH is handed over, once. */
  ghost predicate HandledAs(s: Session, r: Response, t: Session, ok: bool) {
    && t.delivered == s.delivered + (if HandedOver(s.queue, r, ok) then [r] else [])
    && var a := SubjectOf(s.queue, r);
       if Unasked(s.queue, a) then
         && !ok && t.status == Some(AckOfUnknown)
         && t.gone == s.gone && t.queue == s.queue && t.registered == s.registered
       else exists q :: Settled(s.queue, q, a) && Answered(s, q, r, t, ok)
  }

  lemma FindIs(q: seq<Message>, control: Nibble, pid: Option<Word>)
    ensures var k := Find(q, control, pid);
      if k < |q| then IsFirst(q, control, pid, k) else forall j :: 0 <= j < |q| ==> !IsAbout(q[j], control, pid)
    ensures pid.Some? ==> (Holds(q, control, pid.value) <==> Find(q, control, pid) < |q|)
  {
    var k := Find(q, control, pid);
    forall j | 0 <= j < |q|
      ensures IsAbout(q[j], control, pid) <==> Arena.Matches(q[j], control, pid)
    {}
  }

  lemma ReleaseSettles(s: Session, control: Nibble, pid: Option<Word>)
    ensures var (t, ok), a := Release(s, control, pid), Some(Subject(control, pid));
      && t.delivered == s.delivered && t.gone == s.gone && t.registered == s.registered && t.capacity == s.capacity
      && (ok <==> !Unasked(s.queue, a))
      && if ok then Settled(s.queue, t.queue, a) && t.status == s.status
         else t.queue == s.queue && t.status == Some(AckOfUnknown)
  {
    FindIs(s.queue, control, pid);
    hide Find, IsAbout;
  }

  lemma AnswerIs(s: Session, control: Nibble, pid: Word)
    requires PUBACK <= control <= PUBCOMP
    ensures var (t, ok) := Answer(s, control, pid);
      && t.delivered == s.delivered
      && if s.status.None? && CanQueue(s.capacity, s.queue, 4) then
           && ok && t.status.None? && Whole(t) == Whole(s) + [AckMessage(control, pid)]
           && t.registered == s.registered + [AckBytes(control, pid)]
         else
           && !ok && t.status == (if s.status.Some? then s.status else Some(SendBufferIsFull))
           && Whole(t) == Whole(s) && t.registered == s.registered
  {
    if s.status.None? {
      AckQueued(s, control, pid);
    }
    hide TryPack, CanQueue;
  }

  lemma NothingSettled(q: seq<Message>)
    ensures Settled(q, q, None) && !Unasked(q, None)
  {}

  /** A PUBLISH is about no message: what remains is the answer. */
  lemma PublishIs(s: Session, r: Response, t: Session, ok: bool)
    requires r.Publish? && Answered(s, s.queue, r, t, ok)
    requires t.delivered == s.delivered + (if HandedOver(s.queue, r, ok) then [r] else [])
    ensures HandledAs(s, r, t, ok)
  {
    NothingSettled(s.queue);
    hide Settled, Unasked, Answered, HandedOver;
  }

  lemma PublishHandled(s: Session, r: Response)
    requires r.Publish?
    ensures HandledAs(s, r, HandlePublish(s, r).0, HandlePublish(s, r).1)
  {
    hide Answer, CanQueue, Find, Holds, AckBytes, Settled, AckMessage, HandledAs;
    FindIs(s.queue, PUBREC, Some(r.pid));
    var (t, ok) := HandlePublish(s, r);
    if r.qos == 1 {
      AnswerIs(s, PUBACK, r.pid);
    } else if r.qos == 2 {
      AnswerIs(s, PUBREC, r.pid);
    }
    PublishIs(s, r, t, ok);
  }

  lemma PubHandled(s: Session, control: Nibble, pid: Word)
    requires PUBACK <= control <= PUBCOMP
    ensures HandledAs(s, Pub(control, pid), HandlePub(s, control, pid).0, HandlePub(s, control, pid).1)
  {
    hide Answer, CanQueue, Find, Holds, AckBytes, AckMessage, Release, Settled, Unasked;
    var u := s.(marks := s.marks + [Released(pid)]);
    if control == PUBREC {
      FindIs(s.queue, PUBREL, Some(pid));
      NothingSettled(s.queue);
      if Found(s, PUBREL, pid) {
        assert Answered(s, s.queue, Pub(control, pid), s, true);
        return;
      }
      ReleaseSettles(s, PUBLISH, Some(pid));
      AnswerIs(Release(s, PUBLISH, Some(pid)).0, PUBREL, pid);
    } else if control == PUBREL {
      ReleaseSettles(u, PUBREC, Some(pid));
      AnswerIs(Release(u, PUBREC, Some(pid)).0, PUBCOMP, pid);
    } else if control == PUBACK {
      ReleaseSettles(s, PUBLISH, Some(pid));
    } else {
      ReleaseSettles(s, PUBREL, Some(pid));
    }
  }

  /** Every packet, in every state of the client, is handled as the protocol asks. */
  lemma HandleConforms(s: Session, r: Response)
    requires r.Pub? ==> PUBACK <= r.control <= PUBCOMP
    ensures HandledAs(s, r, Handle(s, r).0, Handle(s, r).1)
  {
    hide HandlePublish, HandlePub, Release, Settled, Unasked, CanQueue, Holds;
    match r
    case Connack(_, _) => ReleaseSettles(s, CONNECT, None);
    case Publish(_, _, _, _, _, _) =>
      PublishHandled(s, r);
      hide HandledAs;
    case Pub(control, pid) =>
      PubHandled(s, control, pid);
      hide HandledAs;
    case Suback(pid, _) => ReleaseSettles(s, SUBSCRIBE, Some(pid));
    case Unsuback(pid) => ReleaseSettles(s, UNSUBSCRIBE, Some(pid));
    case Pingresp => ReleaseSettles(s, PINGREQ, None);
  }
}
