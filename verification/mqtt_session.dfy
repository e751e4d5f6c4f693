/** One session of the MQTT client as a state machine over values: what every call of the
    client does to its queue, its buffers and its history. The class in MqttClient does the
    same in place. */
module Session {
  import opened Bytes
  import opened Words
  import opened Arena
  import opened MqttCodec
  import opened PacketIds
  import opened MessageQueue

  /** QoS 2 history: a PUBLISH handed to the application, a PUBREL received. */
  datatype Mark = Delivered(pid: Word) | Released(pid: Word)

  /** Things a run has seen that break the order of the outgoing byte stream: a resend after
      a response timeout, an unsent message that was passed over, an acknowledgement of a
      message that had not been sent. */
  datatype Hazards = Hazards(late: bool, skipped: bool, early: bool)

  datatype Input = Input(
    cap: nat,                   // size of the receive buffer
    recv: seq<byte>,            // received and not yet parsed
    inbox: seq<byte>,           // in the socket, not yet received
    // history
    arrived: seq<byte>,         // every byte that reached the socket
    consumed: seq<byte>,        // the bytes of the packets handled
    dispatched: seq<Response>)  // every response handled

  datatype Session = Session(
    capacity: nat,              // bytes of the send memory
    queue: seq<Message>,
    sendOffset: nat,
    lfsr: Word,
    status: Option<Error>,      // None is MQTT_OK
    input: Input,
    // history
    gone: seq<Message>,         // messages removed by cleaning
    registered: seq<seq<byte>>, // every packet as first packed
    wire: seq<byte>,            // every byte handed to the socket
    delivered: seq<Response>,   // every PUBLISH given to the application
    marks: seq<Mark>,
    hazards: Hazards)

  function Initial(capacity: nat, recvCap: nat): Session {
    Session(capacity, [], 0, 0, Some(ConnectNotCalled), Input(recvCap, [], [], [], [], []),
            [], [], [], [], [], Hazards(false, false, false))
  }

  /* ---- requests ---- */

  datatype Built = BuildFailed(code: int) | Built(bytes: seq<byte>)

  datatype Request =
    | Connect(built: Built)
    | SendPublish(topic: seq<byte>, payload: seq<byte>, flags: Nibble)
    | SendPub(pub: Nibble)
    | Subscribe(topic: seq<byte>, qos: byte)
    | Unsubscribe(topic: seq<byte>)
    | Ping
    | Disconnect

  function ControlOf(r: Request): Nibble {
    match r
    case Connect(_) => CONNECT
    case SendPublish(_, _, _) => PUBLISH
    case SendPub(c) => c
    case Subscribe(_, _) => SUBSCRIBE
    case Unsubscribe(_) => UNSUBSCRIBE
    case Ping => PINGREQ
    case Disconnect => DISCONNECT
  }

  function PackTopicList(bufsz: nat, control: Nibble, pid: Word, topic: seq<byte>, tail: seq<byte>): Packed {
    var h := FixedHeader(control, 2, 2 + (2 + |topic|) + |tail|);
    var p := PackHeader(bufsz, h);
    if p.Ready? then Ready(EncodeHeader(h) + PackWord(pid) + PackTopic(topic) + tail) else p
  }

  function Pack(r: Request, pid: Word, bufsz: nat): Packed {
    match r
    case Connect(BuildFailed(c)) => Refused(Packer(c))
    case Connect(Built(b)) => if 0 < |b| <= bufsz then Ready(b) else NoRoom
    case SendPublish(topic, payload, flags) => PackPublish(bufsz, topic, pid, payload, flags)
    case SendPub(c) => PackPub(bufsz, c, pid)
    case Subscribe(topic, qos) => PackTopicList(bufsz, SUBSCRIBE, pid, topic, [qos])
    case Unsubscribe(topic) => PackTopicList(bufsz, UNSUBSCRIBE, pid, topic, [])
    case Ping => PackEmpty(bufsz, PINGREQ)
    case Disconnect => PackEmpty(bufsz, DISCONNECT)
  }

  /** The fixed header of a request, and what follows it. */
  function HeaderOf(r: Request): FixedHeader
    requires !r.Connect?
  {
    match r
    case SendPublish(topic, payload, flags) => PublishHeader(topic, payload, flags)
    case SendPub(c) => FixedHeader(c, RequiredFlags(c), 2)
    case Subscribe(topic, _) => FixedHeader(SUBSCRIBE, 2, 2 + (2 + |topic|) + 1)
    case Unsubscribe(topic) => FixedHeader(UNSUBSCRIBE, 2, 2 + (2 + |topic|))
    case _ => FixedHeader(ControlOf(r), 0, 0)
  }

  function BodyOf(r: Request, pid: Word): (b: seq<byte>)
    requires !r.Connect?
    ensures |b| <= HeaderOf(r).remaining
  {
    match r
    case SendPublish(topic, payload, flags) => PublishBody(topic, pid, payload, flags)
    case SendPub(_) => PackWord(pid)
    case Subscribe(topic, qos) => PackWord(pid) + PackTopic(topic) + [qos]
    case Unsubscribe(topic) => PackWord(pid) + PackTopic(topic)
    case _ => []
  }

  /** Packing is packing the header and appending the body, but QoS 3 is refused before that. */
  lemma PackIs(r: Request, pid: Word, n: nat)
    requires !r.Connect?
    ensures Pack(r, pid, n) ==
            if r.SendPublish? && Qos(r.flags) == 3 then Refused(ForbiddenQos)
            else
              var p := PackHeader(n, HeaderOf(r));
              if p.Ready? then Ready(EncodeHeader(HeaderOf(r)) + BodyOf(r, pid)) else p
  {
    hide PackHeader, EncodeHeader;
    PackHeaderIs(n, HeaderOf(r));
    match r
    case Subscribe(topic, qos) =>
      assert EncodeHeader(HeaderOf(r)) + (PackWord(pid) + PackTopic(topic) + [qos]) ==
             EncodeHeader(HeaderOf(r)) + PackWord(pid) + PackTopic(topic) + [qos];
    case Unsubscribe(topic) =>
      assert EncodeHeader(HeaderOf(r)) + (PackWord(pid) + PackTopic(topic)) ==
             EncodeHeader(HeaderOf(r)) + PackWord(pid) + PackTopic(topic) + [];
    case SendPublish(_, _, _) =>
    case SendPub(_) =>
    case Ping =>
      assert EncodeHeader(HeaderOf(r)) + [] == EncodeHeader(HeaderOf(r));
    case Disconnect =>
      assert EncodeHeader(HeaderOf(r)) + [] == EncodeHeader(HeaderOf(r));
  }

  lemma PackHeaderIs(n: nat, h: FixedHeader)
    ensures PackHeader(n, h).Ready? ==> PackHeader(n, h).bytes == EncodeHeader(h)
    ensures PackHeader(n, h).Ready? ==> |EncodeHeader(h)| + h.remaining <= n
  {}

  lemma PackFits(r: Request, pid: Word, bufsz: nat)
    ensures Pack(r, pid, bufsz).Ready? ==> 0 < |Pack(r, pid, bufsz).bytes| <= bufsz
  {
    hide EncodeHeader, RuleViolation;
  }

  /* ---- queueing ---- */

  function Clean(s: Session): Session {
    var h := CompletePrefix(s.queue);
    s.(queue := s.queue[h..], gone := s.gone + s.queue[..h])
  }

  function Register(s: Session, control: Nibble, pid: Word, bytes: seq<byte>): Session {
    s.(queue := s.queue + [Message(bytes, Unsent, control, pid)], registered := s.registered + [bytes])
  }

  function RoomOf(s: Session): nat {
    Room(s.capacity, s.queue)
  }

  /** Pack and register, cleaning the queue once when there is no room. Nothing happens in an
      error state, and every failure leaves one. */
  function TryPack(s: Session, r: Request, pid: Word): Session {
    if s.status.Some? then s
    else
      match Pack(r, pid, RoomOf(s))
      case Refused(e) => s.(status := Some(e))
      case Ready(b) => Register(s, ControlOf(r), pid, b)
      case NoRoom =>
        var t := Clean(s);
        match Pack(r, pid, RoomOf(t))
        case Refused(e) => t.(status := Some(e))
        case NoRoom => t.(status := Some(SendBufferIsFull))
        case Ready(b) => Register(t, ControlOf(r), pid, b)
  }

  function Ids(q: seq<Message>): (r: seq<Word>)
    ensures |r| == |q| && forall k :: 0 <= k < |q| ==> r[k] == q[k].pid
  {
    seq(|q|, k requires 0 <= k < |q| => q[k].pid)
  }

  /** A request under a fresh packet id. */
  ghost function WithNewId(s: Session, r: Request): Session
    requires |s.queue| < PERIOD
  {
    var pid := NextId(s.lfsr, Ids(s.queue));
    TryPack(s.(lfsr := pid), r, pid)
  }

  /* ---- sending ---- */

  datatype Outcome = Failed(code: int) | Sent(n: nat)

  /** What the environment does with message i in one pass: whether its acknowledgement is
      overdue, what the socket does, and the bytes it would be given if the send offset lay
      past the end of the message. */
  datatype Attempt = Attempt(late: bool, outcome: Outcome, stray: seq<byte>)

  function QosOf(m: Message): nat {
    if m.packet == [] then 0 else (m.packet[0] / 2) % 4
  }

  /** A QoS 2 PUBLISH that has not been acknowledged. */
  predicate LiveQos2(m: Message) {
    m.control == PUBLISH && m.state != Complete && QosOf(m) == 2
  }

  function AfterSend(m: Message): Option<Message> {
    if m.control == PUBACK || m.control == PUBCOMP || m.control == DISCONNECT then Some(m.(state := Complete))
    else if m.control == PUBLISH then
      if QosOf(m) == 0 then Some(m.(state := Complete))
      else if QosOf(m) == 1 && m.packet != [] then Some(WithDup(m.(state := AwaitingAck)))
      else Some(m.(state := AwaitingAck))
    else if m.control == CONNECT || m.control == PUBREC || m.control == PUBREL || m.control == SUBSCRIBE
            || m.control == UNSUBSCRIBE || m.control == PINGREQ then Some(m.(state := AwaitingAck))
    else None
  }

  function Written(packet: seq<byte>, offset: nat, n: nat, stray: seq<byte>): seq<byte> {
    if offset <= |packet| then
      packet[offset..if offset + n <= |packet| then offset + n else |packet|]
    else stray
  }

  /** How the send loop goes on after an attempt to write. */
  datatype Verdict = Next | Partial | Stop

  /** Write message i from the send offset on. */
  function Write(s: Session, i: nat, a: Attempt): (Session, Verdict)
    requires i < |s.queue|
  {
    match a.outcome
    case Failed(c) => (s.(status := Some(Socket(c))), Stop)
    case Sent(n) =>
      var m := s.queue[i];
      var chunk := Written(m.packet, s.sendOffset, n, a.stray);
      var t := s.(wire := s.wire + chunk, sendOffset := s.sendOffset + |chunk|);
      if t.sendOffset < |m.packet| then (t, Partial)
      else if AfterSend(m).None? then (t.(sendOffset := 0, status := Some(MalformedRequest)), Stop)
      else (t.(sendOffset := 0, queue := t.queue[i := AfterSend(m).value]), Next)
  }

  /** Is the acknowledgement of message i overdue? */
  function Late(s: Session, i: nat, a: Attempt): bool
    requires i < |s.queue|
  {
    s.queue[i].state == AwaitingAck && a.late
  }

  /** A timeout also forgets how much of a message has been written. */
  function Expire(s: Session, late: bool): Session {
    if late then s.(sendOffset := 0, hazards := s.hazards.(late := true)) else s
  }

  /** One pass of the send loop, at message i. A QoS 2 PUBLISH is held back while another is live. */
  function SendOne(s: Session, i: nat, inflight: bool, a: Attempt): (r: (Session, Verdict))
    requires i < |s.queue|
    ensures |r.0.queue| == |s.queue|
  {
    var m := s.queue[i];
    var s1 := Expire(s, Late(s, i, a));
    if m.state != Unsent && !Late(s, i, a) then (s1, Next)
    else if LiveQos2(m) && inflight then (s1.(hazards := s1.hazards.(skipped := true)), Next)
    else Write(s1, i, a)
  }

  /** The send loop from message i on; the flag says whether it ended with an error. */
  function SendFrom(s: Session, i: nat, inflight: bool, att: nat -> Attempt): (r: (Session, bool))
    decreases |s.queue| - i
  {
    if i >= |s.queue| then (s, false)
    else
      var (t, verdict) := SendOne(s, i, inflight, att(i));
      if verdict == Next then SendFrom(t, i + 1, inflight || LiveQos2(s.queue[i]), att)
      else (t, verdict == Stop)
  }

  function Send(s: Session, att: nat -> Attempt, pingDue: bool, stale: Word): Session {
    if s.status.Some? && s.status.value != SendBufferIsFull then s
    else
      var (t, stopped) := SendFrom(s, 0, false, att);
      if stopped || !pingDue then t else TryPack(t, Request.Ping, stale)
  }

  /* ---- receiving ---- */

  function Finish(s: Session, k: nat): Session
    requires k < |s.queue|
  {
    s.(queue := s.queue[k := s.queue[k].(state := Complete)],
       hazards := s.hazards.(early := s.hazards.early || s.queue[k].state == Unsent))
  }

  function Fail(s: Session, e: Error): (Session, bool) {
    (s.(status := Some(e)), false)
  }

  /** Release the message acknowledged by (control, pid). */
  function Release(s: Session, control: Nibble, pid: Option<Word>): (Session, bool) {
    var k := Find(s.queue, control, pid);
    if k == |s.queue| then Fail(s, AckOfUnknown) else (Finish(s, k), true)
  }

  function Found(s: Session, control: Nibble, pid: Word): bool {
    Find(s.queue, control, Some(pid)) < |s.queue|
  }

  function Deliver(s: Session, r: Response): Session
    requires r.Publish?
  {
    s.(delivered := s.delivered + [r],
       marks := if r.qos == 2 then s.marks + [Delivered(r.pid)] else s.marks)
  }

  /** Queue an acknowledgement; the flag says whether that worked. */
  function Answer(s: Session, control: Nibble, pid: Word): (Session, bool) {
    var t := TryPack(s, SendPub(control), pid);
    (t, t.status.None?)
  }

  function HandlePublish(s: Session, r: Response): (Session, bool)
    requires r.Publish?
  {
    if r.qos == 1 then
      var (t, ok) := Answer(s, PUBACK, r.pid);
      if ok then (Deliver(t, r), true) else (t, false)
    else if r.qos == 2 then
      if Found(s, PUBREC, r.pid) then (s, true)
      else
        var (t, ok) := Answer(s, PUBREC, r.pid);
        if ok then (Deliver(t, r), true) else (t, false)
    else (Deliver(s, r), true)
  }

  function HandlePub(s: Session, control: Nibble, pid: Word): (Session, bool) {
    if control == PUBACK then Release(s, PUBLISH, Some(pid))
    else if control == PUBREC then
      if Found(s, PUBREL, pid) then (s, true)
      else
        var (t, ok) := Release(s, PUBLISH, Some(pid));
        if ok then Answer(t, PUBREL, pid) else (t, false)
    else if control == PUBREL then
      var (t, ok) := Release(s.(marks := s.marks + [Released(pid)]), PUBREC, Some(pid));
      if ok then Answer(t, PUBCOMP, pid) else (t, false)
    else Release(s, PUBREL, Some(pid))
  }

  function Handle(s: Session, r: Response): (Session, bool) {
    match r
    case Connack(_, code) =>
      var (t, ok) := Release(s, CONNECT, None);
      if ok && code == 2 then Fail(t, ConnectClientIdRefused)
      else if ok && code != 0 then Fail(t, ConnectionRefused)
      else (t, ok)
    case Publish(_, _, _, _, _, _) => HandlePublish(s, r)
    case Pub(control, pid) => HandlePub(s, control, pid)
    case Suback(pid, codes) =>
      var (t, ok) := Release(s, SUBSCRIBE, Some(pid));
      if ok && codes != [] && codes[0] == 128 then Fail(t, SubscribeFailed) else (t, ok)
    case Unsuback(pid) => Release(s, UNSUBSCRIBE, Some(pid))
    case Pingresp => Release(s, PINGREQ, None)
  }

  /** One read from the socket: it fails or yields up to n bytes. */
  datatype Pull = PullFailed(code: int) | UpTo(n: nat)

  function Min(a: nat, b: nat): nat {
    if a < b then a else b
  }

  function Take(u: Input, n: nat): Input
    requires |u.recv| <= u.cap
  {
    var k := Min(n, Min(u.cap - |u.recv|, |u.inbox|));
    u.(recv := u.recv + u.inbox[..k], inbox := u.inbox[k..])
  }

  function Consume(u: Input, r: Response, n: nat): Input
    requires n <= |u.recv|
  {
    u.(recv := u.recv[n..], consumed := u.consumed + u.recv[..n], dispatched := u.dispatched + [r])
  }

  /** The receive loop: read, parse, handle, and drop what was handled, until the buffer holds
      no whole packet or something fails. */
  function Recv(s: Session, pulls: seq<Pull>): (r: (Session, bool))
    requires |s.input.recv| <= s.input.cap
    ensures |r.0.input.recv| <= r.0.input.cap == s.input.cap
    decreases |pulls|, |s.input.recv|
  {
    var pull := if pulls == [] then UpTo(0) else pulls[0];
    var rest := if pulls == [] then [] else pulls[1..];
    if pull.PullFailed? then Fail(s, Socket(pull.code))
    else
      var s1 := s.(input := Take(s.input, pull.n));
      match Unpack(s1.input.recv)
      case Bad(e) => Fail(s1, e)
      case Short => if |s1.input.recv| == s1.input.cap then Fail(s1, RecvBufferTooSmall) else (s1, true)
      case Got(r, n) =>
        UnpackSize(s1.input.recv);
        var (s2, ok) := Handle(s1, r);
        HandleKeepsInput(s1, r);
        var s3 := s2.(input := Consume(s2.input, r, n));
        if ok then Recv(s3, rest) else (s3, false)
  }

  lemma TryPackKeepsInput(s: Session, r: Request, pid: Word)
    ensures TryPack(s, r, pid).input == s.input
  {
    hide Pack, CompletePrefix, Room;
  }

  lemma HandlePublishKeepsInput(s: Session, r: Response)
    requires r.Publish?
    ensures HandlePublish(s, r).0.input == s.input
  {
    hide TryPack, Find;
    TryPackKeepsInput(s, SendPub(PUBACK), r.pid);
    TryPackKeepsInput(s, SendPub(PUBREC), r.pid);
  }

  lemma HandlePubKeepsInput(s: Session, control: Nibble, pid: Word)
    ensures HandlePub(s, control, pid).0.input == s.input
  {
    hide TryPack, Find;
    TryPackKeepsInput(Release(s, PUBLISH, Some(pid)).0, SendPub(PUBREL), pid);
    TryPackKeepsInput(Release(s.(marks := s.marks + [Released(pid)]), PUBREC, Some(pid)).0, SendPub(PUBCOMP), pid);
  }

  lemma HandleKeepsInput(s: Session, r: Response)
    ensures Handle(s, r).0.input == s.input
  {
    hide HandlePublish, HandlePub, Find;
    if r.Publish? {
      HandlePublishKeepsInput(s, r);
    } else if r.Pub? {
      HandlePubKeepsInput(s, r.control, r.pid);
    }
  }

  /* ---- runs ---- */

  datatype Event =
    | DoConnect(built: Built, stale: Word)
    | DoPublish(topic: seq<byte>, payload: seq<byte>, flags: Nibble)
    | DoSubscribe(topic: seq<byte>, qos: byte)
    | DoUnsubscribe(topic: seq<byte>)
    | DoPing(stale: Word)
    | DoDisconnect(stale: Word)
    | DoSend(att: nat -> Attempt, pingDue: bool, stale: Word)
    | DoRecv(pulls: seq<Pull>)
    | Arrive(bytes: seq<byte>)

  ghost predicate Fits(s: Session) {
    && |Flat(s.queue)| + DESC * |s.queue| <= s.capacity < DESC * PERIOD
    && |s.input.recv| <= s.input.cap
  }

  ghost function Step(s: Session, e: Event): Session
    requires Fits(s)
  {
    match e
    case DoConnect(built, stale) =>
      TryPack(if s.status == Some(ConnectNotCalled) then s.(status := None) else s, Connect(built), stale)
    case DoPublish(topic, payload, flags) => WithNewId(s, SendPublish(topic, payload, flags))
    case DoSubscribe(topic, qos) => WithNewId(s, Subscribe(topic, qos))
    case DoUnsubscribe(topic) => WithNewId(s, Unsubscribe(topic))
    case DoPing(stale) => TryPack(s, Request.Ping, stale)
    case DoDisconnect(stale) => TryPack(s, Disconnect, stale)
    case DoSend(att, pingDue, stale) => Send(s, att, pingDue, stale)
    case DoRecv(pulls) => Recv(s, pulls).0
    case Arrive(bytes) => s.(input := s.input.(inbox := s.input.inbox + bytes, arrived := s.input.arrived + bytes))
  }
}
