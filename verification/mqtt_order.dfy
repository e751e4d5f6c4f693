/** When the outgoing byte stream of an MQTT session keeps its order, as conditions on the calls
    of the application and on what the broker sends; and runs that break each of them. */
module SessionOrder {
  import opened Bytes
  import opened Words
  import opened Arena
  import opened MqttCodec
  import opened PacketIds
  import opened MessageQueue
  import opened Session
  import opened SessionInvariants
  import opened SessionSafety

  /* ---- conditions ---- */

  /** No acknowledgement is overdue when a message is sent, and nothing is published with QoS 2. */
  ghost predicate Plain(e: Event) {
    match e
    case DoSend(att, _, _) => forall i: nat :: !att(i).late
    case DoPublish(_, _, flags) => Qos(flags) != 2
    case _ => true
  }

  /** The queued message that a packet from the broker acknowledges, or the queue length. */
  function Acknowledged(q: seq<Message>, r: Response): (k: nat)
    ensures k <= |q|
  {
    match r
    case Connack(_, _) => Find(q, CONNECT, None)
    case Publish(_, _, _, _, _, _) => |q|
    case Pub(control, pid) =>
      if control == PUBACK then Find(q, PUBLISH, Some(pid))
      else if control == PUBREC then
        if Find(q, PUBREL, Some(pid)) < |q| then |q| else Find(q, PUBLISH, Some(pid))
      else if control == PUBREL then Find(q, PUBREC, Some(pid))
      else Find(q, PUBREL, Some(pid))
    case Suback(pid, _) => Find(q, SUBSCRIBE, Some(pid))
    case Unsuback(pid) => Find(q, UNSUBSCRIBE, Some(pid))
    case Pingresp => Find(q, PINGREQ, None)
  }

  /** All bytes of the n-th registered packet are on the wire, and those of the packets before it. */
  predicate OnWire(s: Session, n: nat) {
    n < |s.registered| && |Concat(s.registered[..n + 1])| <= |s.wire|
  }

  /** The broker answers only what it has been sent. */
  predicate Answers(s: Session, r: Response) {
    var k := Acknowledged(s.queue, r);
    k == |s.queue| || OnWire(s, |s.gone| + k)
  }

  /** Each packet that a receive call handles answers only what has been sent. */
  predicate HonestRecv(s: Session, pulls: seq<Pull>)
    requires |s.input.recv| <= s.input.cap
    decreases |pulls|, |s.input.recv|
  {
    var pull := if pulls == [] then UpTo(0) else pulls[0];
    var rest := if pulls == [] then [] else pulls[1..];
    pull.UpTo? ==>
      var s1 := s.(input := Take(s.input, pull.n));
      Unpack(s1.input.recv).Got? ==>
        var r, n := Unpack(s1.input.recv).value, Unpack(s1.input.recv).size;
        UnpackSize(s1.input.recv);
        var (s2, ok) := Handle(s1, r);
        HandleKeepsInput(s1, r);
        Answers(s1, r) && (ok ==> HonestRecv(s2.(input := Consume(s2.input, r, n)), rest))
  }

  ghost predicate Honest(s: Session, es: seq<Event>)
    requires Inv(s)
    decreases |es|
  {
    es == [] || (
      StepGood(s, es[0]);
      GoodInv(s, StepOf(s, es[0]));
      && HonestStep(s, es[0])
      && Honest(StepOf(s, es[0]), es[1..]))
  }

  ghost predicate HonestStep(s: Session, e: Event)
    requires Inv(s)
  {
    InvInput(s);
    e.DoRecv? ==> HonestRecv(s, e.pulls)
  }

  /* ---- what such runs keep ---- */

  predicate Qos2(m: Message) {
    m.control == PUBLISH && QosOf(m) == 2
  }

  predicate NoQos2(q: seq<Message>) {
    forall i :: 0 <= i < |q| ==> !Qos2(q[i])
  }

  /** No QoS 2 PUBLISH is queued, and no hazard has been met. */
  predicate Quiet(s: Session) {
    NoQos2(s.queue) && !Hazard(s)
  }

  ghost predicate Calm(s: Session) {
    Inv(s) && Tidy(s.queue) && WireWhole(s) && Quiet(s)
  }

  lemma GoodCalm(s: Session, t: Session)
    requires Calm(s) && Good(s, t) && Quiet(t)
    ensures Calm(t)
  {
    hide Inv, Tidy, WireWhole, Advances, InputInv, NoQos2;
  }

  /** A PUBLISH carries the QoS of the request in its first byte. */
  lemma PackedQos(r: Request, pid: Word, n: nat)
    requires Pack(r, pid, n).Ready? && (r.SendPublish? ==> Qos(r.flags) != 2) && Queued(r)
    ensures !Qos2(Message(Pack(r, pid, n).bytes, Unsent, ControlOf(r), pid))
  {
    hide PackHeader, EncodeLength;
    if r.SendPublish? {
      var h := PublishHeader(r.topic, r.payload, r.flags);
      assert PackPublish(n, r.topic, pid, r.payload, r.flags).bytes[0] == h.control * 16 + h.flags;
    }
  }

  lemma QuietRegister(s: Session, control: Nibble, pid: Word, b: seq<byte>)
    requires Quiet(s) && !Qos2(Message(b, Unsent, control, pid))
    ensures Quiet(Register(s, control, pid, b))
  {
    hide Qos2;
  }

  lemma QuietClean(s: Session)
    requires Quiet(s)
    ensures Quiet(Clean(s))
  {
    hide Qos2;
  }

  lemma QuietTryPack(s: Session, r: Request, pid: Word)
    requires Quiet(s) && (r.SendPublish? ==> Qos(r.flags) != 2) && Queued(r)
    ensures Quiet(TryPack(s, r, pid))
  {
    hide Pack, Clean, Register, RoomOf, NoQos2, Qos2, Queued, ControlOf;
    if s.status.None? {
      var p := Pack(r, pid, RoomOf(s));
      if p.Ready? {
        PackedQos(r, pid, RoomOf(s));
        QuietRegister(s, ControlOf(r), pid, p.bytes);
      } else if p.NoRoom? {
        QuietClean(s);
        var t := Clean(s);
        if Pack(r, pid, RoomOf(t)).Ready? {
          PackedQos(r, pid, RoomOf(t));
          QuietRegister(t, ControlOf(r), pid, Pack(r, pid, RoomOf(t)).bytes);
        }
      }
    }
  }

  lemma QuietAfterSend(m: Message)
    requires !Qos2(m) && AfterSend(m).Some?
    ensures !Qos2(AfterSend(m).value)
  {}

  lemma QuietWrite(s: Session, i: nat, a: Attempt)
    requires Quiet(s) && i < |s.queue|
    ensures Quiet(Write(s, i, a).0) && |Write(s, i, a).0.queue| == |s.queue|
  {
    hide AfterSend, Written, Qos2;
    if AfterSend(s.queue[i]).Some? {
      QuietAfterSend(s.queue[i]);
    }
  }

  lemma QuietSendOne(s: Session, i: nat, inflight: bool, a: Attempt)
    requires Quiet(s) && i < |s.queue| && !a.late
    ensures Quiet(SendOne(s, i, inflight, a).0)
  {
    hide Write, NoQos2, QosOf;
    assert !Qos2(s.queue[i]) by { QuietAt(s, i); }
    QuietWrite(s, i, a);
  }

  lemma QuietAt(s: Session, i: nat)
    requires Quiet(s) && i < |s.queue|
    ensures !Qos2(s.queue[i])
  {}

  lemma {:induction false} QuietSendFrom(s: Session, i: nat, inflight: bool, att: nat -> Attempt)
    requires Quiet(s) && forall k: nat :: !att(k).late
    ensures Quiet(SendFrom(s, i, inflight, att).0)
    decreases |s.queue| - i
  {
    hide Quiet, SendOne, LiveQos2;
    if i < |s.queue| {
      QuietSendOne(s, i, inflight, att(i));
      var (t, verdict) := SendOne(s, i, inflight, att(i));
      QuietSendFrom(t, i + 1, inflight || LiveQos2(s.queue[i]), att);
    }
  }

  lemma QuietSend(s: Session, att: nat -> Attempt, pingDue: bool, stale: Word)
    requires Quiet(s) && forall k: nat :: !att(k).late
    ensures Quiet(Send(s, att, pingDue, stale))
  {
    hide Quiet, SendFrom, TryPack;
    QuietSendFrom(s, 0, false, att);
    QuietTryPack(SendFrom(s, 0, false, att).0, Request.Ping, stale);
  }

  /* ---- acknowledgements ---- */

  lemma {:induction false} ConcatGrows(ss: seq<seq<byte>>, i: nat, j: nat)
    requires i <= j <= |ss|
    ensures |Concat(ss[..i])| <= |Concat(ss[..j])|
    decreases j
  {
    if i < j {
      assert ss[..j] == ss[..j - 1] + [ss[j - 1]];
      ConcatSnoc(ss[..j - 1], ss[j - 1]);
      ConcatGrows(ss, i, j - 1);
    }
  }

  /** A packet that is on the wire has been sent. */
  lemma OnWireSent(s: Session, k: nat)
    requires WireWhole(s) && k < |s.queue| && OnWire(s, |s.gone| + k)
    ensures s.queue[k].state != Unsent
  {
    var j: nat :| WireAt(s, j);
    if j <= k {
      var n := |s.gone| + j;
      assert s.registered[..n + 1] == s.registered[..n] + [s.registered[n]];
      ConcatSnoc(s.registered[..n], s.registered[n]);
      ConcatGrows(s.registered, n + 1, |s.gone| + k + 1);
    }
  }

  lemma QuietFinish(s: Session, k: nat)
    requires Quiet(s) && k < |s.queue| && s.queue[k].state != Unsent
    ensures Quiet(Finish(s, k))
  {
    assert Qos2(s.queue[k].(state := Complete)) == Qos2(s.queue[k]);
    hide Qos2;
  }

  lemma QuietRelease(s: Session, control: Nibble, pid: Option<Word>)
    requires Quiet(s) && WireWhole(s)
    requires var k := Find(s.queue, control, pid); k == |s.queue| || OnWire(s, |s.gone| + k)
    ensures Quiet(Release(s, control, pid).0)
  {
    hide NoQos2, WireWhole, Finish, OnWire;
    var k := Find(s.queue, control, pid);
    if k < |s.queue| {
      OnWireSent(s, k);
      QuietFinish(s, k);
    }
  }

  lemma QuietAnswer(s: Session, control: Nibble, pid: Word)
    requires Quiet(s) && PUBACK <= control <= PUBCOMP
    ensures Quiet(Answer(s, control, pid).0)
  {
    hide TryPack, Quiet;
    QuietTryPack(s, SendPub(control), pid);
  }

  lemma QuietDeliver(s: Session, r: Response)
    requires Quiet(s) && r.Publish?
    ensures Quiet(Deliver(s, r))
  {
    hide NoQos2;
  }

  lemma QuietPublish(s: Session, r: Response)
    requires Quiet(s) && r.Publish?
    ensures Quiet(HandlePublish(s, r).0)
  {
    hide Quiet, Answer, Deliver;
    QuietAnswer(s, PUBACK, r.pid);
    QuietAnswer(s, PUBREC, r.pid);
    if r.qos == 1 {
      if Answer(s, PUBACK, r.pid).1 {
        QuietDeliver(Answer(s, PUBACK, r.pid).0, r);
      }
    } else if r.qos == 2 {
      if Answer(s, PUBREC, r.pid).1 {
        QuietDeliver(Answer(s, PUBREC, r.pid).0, r);
      }
    } else {
      QuietDeliver(s, r);
    }
  }

  lemma MarksAside(s: Session, m: Mark)
    ensures var t := s.(marks := s.marks + [m]);
      && (Quiet(s) ==> Quiet(t)) && (WireWhole(s) ==> WireWhole(t))
      && forall n: nat :: OnWire(t, n) == OnWire(s, n)
  {
    hide NoQos2;
    if WireWhole(s) {
      var k: nat :| WireAt(s, k);
      assert WireAt(s.(marks := s.marks + [m]), k);
    }
  }

  lemma QuietPub(s: Session, control: Nibble, pid: Word)
    requires Quiet(s) && WireWhole(s) && PUBACK <= control <= PUBCOMP && Answers(s, Pub(control, pid))
    ensures Quiet(HandlePub(s, control, pid).0)
  {
    hide Quiet, Answer, Release, WireWhole, OnWire;
    if control == PUBACK {
      QuietRelease(s, PUBLISH, Some(pid));
    } else if control == PUBREC {
      if !Found(s, PUBREL, pid) {
        QuietRelease(s, PUBLISH, Some(pid));
        QuietAnswer(Release(s, PUBLISH, Some(pid)).0, PUBREL, pid);
      }
    } else if control == PUBREL {
      var u := s.(marks := s.marks + [Released(pid)]);
      MarksAside(s, Released(pid));
      QuietRelease(u, PUBREC, Some(pid));
      QuietAnswer(Release(u, PUBREC, Some(pid)).0, PUBCOMP, pid);
    } else {
      QuietRelease(s, PUBREL, Some(pid));
    }
  }

  lemma QuietFail(s: Session, e: Error)
    requires Quiet(s)
    ensures Quiet(Fail(s, e).0)
  {
    hide NoQos2;
  }

  lemma QuietHandle(s: Session, r: Response)
    requires Quiet(s) && WireWhole(s) && ValidResponse(r) && Answers(s, r)
    ensures Quiet(Handle(s, r).0)
  {
    hide Quiet, Release, HandlePublish, HandlePub, WireWhole, OnWire, Fail;
    match r
    case Connack(_, code) =>
      QuietRelease(s, CONNECT, None);
      var t := Release(s, CONNECT, None).0;
      QuietFail(t, ConnectClientIdRefused);
      QuietFail(t, ConnectionRefused);
    case Publish(_, _, _, _, _, _) => QuietPublish(s, r);
    case Pub(control, pid) => QuietPub(s, control, pid);
    case Suback(pid, codes) =>
      QuietRelease(s, SUBSCRIBE, Some(pid));
      QuietFail(Release(s, SUBSCRIBE, Some(pid)).0, SubscribeFailed);
    case Unsuback(pid) => QuietRelease(s, UNSUBSCRIBE, Some(pid));
    case Pingresp => QuietRelease(s, PINGREQ, None);
  }

  lemma QuietInput(s: Session, u: Input)
    ensures Quiet(s) ==> Quiet(s.(input := u))
  {
    hide NoQos2;
  }

  lemma {:induction false} QuietRecv(s: Session, pulls: seq<Pull>)
    requires Calm(s) && |s.input.recv| <= s.input.cap && HonestRecv(s, pulls)
    ensures Quiet(Recv(s, pulls).0)
    decreases |pulls|, |s.input.recv|
  {
    hide Calm, Quiet, Handle, Unpack, Take, Consume, Good, Answers, Fail, Inv;
    assert Inv(s) && Quiet(s) by { CalmIs(s); }
    var pull := if pulls == [] then UpTo(0) else pulls[0];
    var rest := if pulls == [] then [] else pulls[1..];
    if pull.PullFailed? {
      QuietFail(s, Socket(pull.code));
    } else {
      var s1 := s.(input := Take(s.input, pull.n));
      TakeBound(s.input, pull.n);
      TakeGood(s, pull.n);
      QuietInput(s, s1.input);
      GoodCalm(s, s1);
      CalmIs(s1);
      match Unpack(s1.input.recv)
      case Bad(e) => QuietFail(s1, e);
      case Short => QuietFail(s1, RecvBufferTooSmall);
      case Got(r, n) =>
        UnpackSize(s1.input.recv);
        UnpackValid(s1.input.recv);
        QuietHandle(s1, r);
        HandleGood(s1, r);
        HandleKeepsInput(s1, r);
        var (s2, ok) := Handle(s1, r);
        GoodCalm(s1, s2);
        CalmIs(s2);
        var s3 := s2.(input := Consume(s2.input, r, n));
        ConsumeGood(s2);
        QuietInput(s2, s3.input);
        GoodCalm(s2, s3);
        if ok {
          if pulls == [] {
            TakeNothing(s.input);
          }
          QuietRecv(s3, rest);
        }
    }
  }

  lemma CalmIs(s: Session)
    requires Calm(s)
    ensures Inv(s) && Quiet(s) && WireWhole(s)
  {}

  lemma QuietWithNewId(s: Session, r: Request)
    requires Quiet(s) && |s.queue| < PERIOD && (r.SendPublish? ==> Qos(r.flags) != 2) && Queued(r)
    ensures Quiet(WithNewId(s, r))
  {
    hide NoQos2, TryPack;
    var pid := NextId(s.lfsr, Ids(s.queue));
    QuietTryPack(s.(lfsr := pid), r, pid);
  }

  lemma QuietStep(s: Session, e: Event)
    requires Calm(s) && Plain(e) && HonestStep(s, e)
    ensures Quiet(StepOf(s, e))
  {
    hide Calm, Inv, Quiet, TryPack, Send, Recv, WithNewId, Fits, HonestRecv;
    CalmIs(s);
    InvFits(s);
    match e
    case DoConnect(built, stale) =>
      var u := if s.status == Some(ConnectNotCalled) then s.(status := None) else s;
      assert Quiet(u) by { QuietStatus(s, None); }
      QuietTryPack(u, Connect(built), stale);
    case DoPublish(topic, payload, flags) => QuietWithNewId(s, SendPublish(topic, payload, flags));
    case DoSubscribe(topic, qos) => QuietWithNewId(s, Subscribe(topic, qos));
    case DoUnsubscribe(topic) => QuietWithNewId(s, Unsubscribe(topic));
    case DoPing(stale) => QuietTryPack(s, Request.Ping, stale);
    case DoDisconnect(stale) => QuietTryPack(s, Disconnect, stale);
    case DoSend(att, pingDue, stale) => QuietSend(s, att, pingDue, stale);
    case DoRecv(pulls) =>
      InvInput(s);
      QuietRecv(s, pulls);
    case Arrive(bytes) =>
      QuietInput(s, s.input.(inbox := s.input.inbox + bytes, arrived := s.input.arrived + bytes));
  }

  lemma QuietStatus(s: Session, status: Option<Error>)
    ensures Quiet(s) ==> Quiet(s.(status := status))
  {
    hide NoQos2;
  }

  lemma {:induction false} RunCalm(s: Session, es: seq<Event>)
    requires Calm(s) && (forall i :: 0 <= i < |es| ==> Plain(es[i])) && Inv(s) && Honest(s, es)
    ensures Calm(Run(s, es))
    decreases |es|
  {
    hide Calm, Inv, StepOf, Good, Plain, HonestStep;
    if es != [] {
      StepGood(s, es[0]);
      GoodInv(s, StepOf(s, es[0]));
      QuietStep(s, es[0]);
      GoodCalm(s, StepOf(s, es[0]));
      RunCalm(StepOf(s, es[0]), es[1..]);
    }
  }

  ghost predicate HonestRun(capacity: nat, recvCap: nat, es: seq<Event>)
    requires capacity < DESC * PERIOD
  {
    InitialInv(capacity, recvCap);
    Honest(Initial(capacity, recvCap), es)
  }

  /** If no acknowledgement is ever overdue, nothing is published with QoS 2 and the broker answers
      only what it has been sent, then the bytes on the wire are the packets in the order of their
      registration, however writes are split and whenever cleaning runs. */
  lemma WireInOrder(capacity: nat, recvCap: nat, es: seq<Event>) returns (n: nat)
    requires capacity < DESC * PERIOD
    requires (forall i :: 0 <= i < |es| ==> Plain(es[i])) && HonestRun(capacity, recvCap, es)
    ensures !Hazard(Reached(capacity, recvCap, es))
    ensures n <= |Reached(capacity, recvCap, es).registered|
    ensures WireIs(Reached(capacity, recvCap, es), n)
  {
    hide Inv, Tidy, Plain, Run, Honest, WireIs, InputInv;
    InitialInv(capacity, recvCap);
    InitialStreams(capacity, recvCap);
    RunCalm(Initial(capacity, recvCap), es);
    n := WireKeepsOrder(capacity, recvCap, es);
  }

  /* ---- each condition is needed: runs that break only one, and whose wire is not in order ---- */

  /** A run that receives nothing cannot be answered wrongly. */
  lemma {:induction false} SilentHonest(s: Session, es: seq<Event>)
    requires Inv(s) && forall i :: 0 <= i < |es| ==> !es[i].DoRecv?
    ensures Honest(s, es)
    decreases |es|
  {
    hide Inv, StepOf, Good, HonestRecv;
    if es != [] {
      StepGood(s, es[0]);
      GoodInv(s, StepOf(s, es[0]));
      SilentHonest(StepOf(s, es[0]), es[1..]);
    }
  }

  /** The socket takes everything. */
  function Everything(late: bool, n: nat): nat -> Attempt {
    k => Attempt(late, Sent(n), [])
  }

  /** A CONNECT packet that fits, with room for three short messages behind it. */
  ghost predicate Usable(c: seq<byte>, capacity: nat) {
    |c| > 0 && c[0] / 16 == CONNECT && |c| + 20 + 4 * DESC <= capacity < DESC * PERIOD
  }

  lemma RunFirst(s: Session, e: Event, es: seq<Event>)
    requires Inv(s)
    ensures Inv(StepOf(s, e)) && Run(s, [e] + es) == Run(StepOf(s, e), es)
  {
    hide Inv, StepOf, Good;
    StepGood(s, e);
    GoodInv(s, StepOf(s, e));
    assert ([e] + es)[1..] == es;
  }

  lemma TryPackReady(s: Session, r: Request, pid: Word, b: seq<byte>)
    requires s.status.None? && Pack(r, pid, RoomOf(s)) == Ready(b)
    ensures TryPack(s, r, pid) == Register(s, ControlOf(r), pid, b)
  {
    hide Pack, RoomOf;
  }

  /** Message i goes out whole. */
  lemma WritesAll(s: Session, i: nat, a: Attempt, n: nat)
    requires i < |s.queue| && s.sendOffset == 0 && a.outcome == Sent(n) && |s.queue[i].packet| <= n
    requires AfterSend(s.queue[i]).Some?
    ensures Write(s, i, a) ==
            (s.(wire := s.wire + s.queue[i].packet, queue := s.queue[i := AfterSend(s.queue[i]).value]), Next)
  {
    hide AfterSend;
    assert s.queue[i].packet[0..|s.queue[i].packet|] == s.queue[i].packet;
  }

  /** A fresh client has registered its CONNECT packet. */
  ghost function Connected(capacity: nat, recvCap: nat, c: seq<byte>): Session {
    Initial(capacity, recvCap).(status := None, queue := [Message(c, Unsent, CONNECT, 0)], registered := [c])
  }

  lemma ConnectStep(capacity: nat, recvCap: nat, c: seq<byte>)
    requires Usable(c, capacity)
    ensures Inv(Initial(capacity, recvCap))
    ensures StepOf(Initial(capacity, recvCap), DoConnect(Built(c), 0)) == Connected(capacity, recvCap, c)
  {
    InitialInv(capacity, recvCap);
    var u := Initial(capacity, recvCap).(status := None);
    assert Packets([]) == [];
    TryPackReady(u, Connect(Built(c)), 0, c);
  }

  /** The wire is not the registered packets in order. */
  ghost predicate Disordered(s: Session) {
    forall n: nat :: n <= |s.registered| ==> !WireIs(s, n)
  }

  /** An answer that is overdue: connect, send, and send again puts the packet on the wire twice. */
  lemma LateRepeats(capacity: nat, recvCap: nat, c: seq<byte>)
    requires Usable(c, capacity)
    ensures var es := [DoConnect(Built(c), 0), DoSend(Everything(false, |c|), false, 0),
        DoSend(Everything(true, |c|), false, 0)];
      var s := Reached(capacity, recvCap, es);
      HonestRun(capacity, recvCap, es) && s.wire == c + c && s.registered == [c] && Disordered(s)
  {
    hide Inv, StepOf, Run, Good, Disordered, Everything, Honest;
    var e0, e1, e2 := DoConnect(Built(c), 0), DoSend(Everything(false, |c|), false, 0),
        DoSend(Everything(true, |c|), false, 0);
    var s0, s1 := Initial(capacity, recvCap), Connected(capacity, recvCap, c);
    ConnectStep(capacity, recvCap, c);
    RunFirst(s0, e0, [e1, e2]);
    assert [e0] + [e1, e2] == [e0, e1, e2];
    SilentHonest(s0, [e0, e1, e2]);
    RunFirst(s1, e1, [e2]);
    assert [e1] + [e2] == [e1, e2];
    SendOnly(s1, false, |c|);
    var s2 := StepOf(s1, e1);
    RunFirst(s2, e2, []);
    assert [e2] + [] == [e2];
    SendOnly(s2, true, |c|);
    var s3 := StepOf(s2, e2);
    RunNothing(s3);
    assert [] + c == c;
    SentTwice(s3, c);
  }

  lemma RunNothing(s: Session)
    requires Inv(s)
    ensures Run(s, []) == s
  {}

  /** One message is queued and goes out: unsent, or overdue. */
  lemma SendOnly(s: Session, late: bool, n: nat)
    requires Inv(s) && s.status.None? && |s.queue| == 1 && s.sendOffset == 0 && |s.queue[0].packet| <= n
    requires s.queue[0].control == CONNECT && s.queue[0].state == (if late then AwaitingAck else Unsent)
    ensures StepOf(s, DoSend(Everything(late, n), false, 0)) ==
            s.(wire := s.wire + s.queue[0].packet, queue := [s.queue[0].(state := AwaitingAck)],
               hazards := if late then s.hazards.(late := true) else s.hazards)
  {
    var att := Everything(late, n);
    var u := Expire(s, late);
    WritesAll(u, 0, att(0), n);
    var t := Write(u, 0, att(0)).0;
    assert SendFrom(t, 1, false, att).0 == t;
  }

  lemma SentTwice(s: Session, c: seq<byte>)
    requires s.registered == [c] && c != [] && s.wire == c + c
    ensures Disordered(s)
  {
    assert Concat([c]) == c && s.registered[..0] == [];
  }

  /* an acknowledgement of a packet that has not been sent */

  const PING: seq<byte> := [192, 0]
  const ACCEPTED: seq<byte> := [32, 2, 0, 0]

  lemma PingPacks(n: nat)
    requires 2 <= n
    ensures Pack(Request.Ping, 0, n) == Ready(PING)
  {
    assert EncodeLength(0) == [0];
  }

  lemma PingStep(s: Session)
    requires Inv(s) && s.status.None? && 2 <= RoomOf(s)
    ensures StepOf(s, DoPing(0)) == Register(s, PINGREQ, 0, PING)
  {
    PingPacks(RoomOf(s));
    hide Pack, RoomOf;
    TryPackReady(s, Request.Ping, 0, PING);
  }

  lemma AcceptedUnpacks()
    ensures Unpack(ACCEPTED) == Got(Connack(0, 0), 4)
  {
    var t := ACCEPTED[1..];
    assert t == [2, 0, 0] && ReadLength(t, 0) == Length(2, 1);
    assert UnpackHeader(ACCEPTED) == Got(FixedHeader(CONNACK, 0, 2), 2);
  }

  lemma ArriveStep(s: Session, bytes: seq<byte>)
    requires Inv(s)
    ensures StepOf(s, Arrive(bytes)) ==
            s.(input := s.input.(inbox := s.input.inbox + bytes, arrived := s.input.arrived + bytes))
  {}

  /** A read that brings one packet, which is handled, and nothing behind it. */
  lemma RecvOne(s: Session, r: Response)
    requires s.input.recv == [] && |s.input.inbox| <= s.input.cap && 0 < s.input.cap
    requires Unpack(s.input.inbox) == Got(r, |s.input.inbox|)
    ensures var u := s.input.(recv := s.input.inbox, inbox := []);
      Handle(s.(input := u), r).1 ==>
        && Recv(s, [UpTo(|s.input.inbox|)]).0 ==
           Handle(s.(input := u), r).0.(input := s.input.(inbox := [], consumed := s.input.consumed + s.input.inbox,
                                                          dispatched := s.input.dispatched + [r]))
  {
    hide Unpack, Handle, Consume;
    var n := |s.input.inbox|;
    var s1 := s.(input := Take(s.input, n));
    assert s1.input == s.input.(recv := s.input.inbox, inbox := []) by { TakeAll(s.input); }
    hide Take;
    HandleKeepsInput(s1, r);
    var (s2, ok) := Handle(s1, r);
    var s3 := s2.(input := Consume(s2.input, r, n));
    assert s3.input == s.input.(inbox := [], consumed := s.input.consumed + s.input.inbox,
                                dispatched := s.input.dispatched + [r]) by { ConsumeAll(s1.input, r); }
    assert [UpTo(n)][1..] == [];
    NothingToRead(s3);
  }

  lemma TakeAll(u: Input)
    requires u.recv == [] && |u.inbox| <= u.cap
    ensures Take(u, |u.inbox|) == u.(recv := u.inbox, inbox := [])
  {}

  lemma ConsumeAll(u: Input, r: Response)
    ensures Consume(u, r, |u.recv|) == u.(recv := [], consumed := u.consumed + u.recv, dispatched := u.dispatched + [r])
  {}

  /** The broker's CONNACK is read in one piece and completes the CONNECT at the head of the queue. */
  lemma AcceptStep(s: Session)
    requires Inv(s) && s.input.recv == [] && s.input.inbox == ACCEPTED && 4 <= s.input.cap
    requires s.queue != [] && s.queue[0].control == CONNECT && s.queue[0].state == Unsent
    ensures var t := StepOf(s, DoRecv([UpTo(4)]));
      t == s.(queue := s.queue[0 := s.queue[0].(state := Complete)], hazards := s.hazards.(early := true),
          input := t.input)
  {
    hide Unpack, Inv, Handle, Recv;
    assert |s.input.recv| <= s.input.cap;
    assert Unpack(s.input.inbox) == Got(Connack(0, 0), 4) by { AcceptedUnpacks(); }
    RecvOne(s, Connack(0, 0));
    AcceptHandled(s.(input := s.input.(recv := s.input.inbox, inbox := [])));
    InvFits(s);
  }

  lemma AcceptHandled(s: Session)
    requires s.queue != [] && s.queue[0].control == CONNECT && s.queue[0].state == Unsent
    ensures Handle(s, Connack(0, 0)) == (Finish(s, 0), true)
  {
    assert Find(s.queue, CONNECT, None) == 0;
  }

  lemma NothingToRead(s: Session)
    requires s.input.recv == [] && s.input.inbox == [] && 0 < s.input.cap
    ensures Recv(s, []) == (s, true)
  {
    hide Handle, Take, Unpack, Consume;
    TakeAll(s.input);
    NothingUnpacked();
    assert s.(input := s.input) == s;
  }

  lemma NothingUnpacked()
    ensures Unpack([]) == Short
  {}

  /** The second of two messages goes out, the first being complete. */
  lemma SendSecond(s: Session, n: nat)
    requires Inv(s) && s.status.None? && |s.queue| == 2 && s.sendOffset == 0 && |s.queue[1].packet| <= n
    requires s.queue[0].state == Complete && s.queue[1].control == PINGREQ && s.queue[1].state == Unsent
    ensures var t := StepOf(s, DoSend(Everything(false, n), false, 0));
      t.wire == s.wire + s.queue[1].packet && t.registered == s.registered && t.sendOffset == 0
  {
    var att := Everything(false, n);
    WritesAll(s, 1, att(1), n);
    var t := Write(s, 1, att(1)).0;
    assert SendFrom(t, 2, false, att).0 == t;
    assert SendFrom(s, 1, false, att).0 == t;
  }

  lemma EarlyState(s: Session, c: seq<byte>)
    requires s.registered == [c, PING] && |c| > 0 && c[0] / 16 == CONNECT && s.wire == PING
    ensures Disordered(s)
  {
    hide Concat;
    PairConcat(c, PING);
    assert s.registered[..0] == [] && s.registered[..1] == [c];
    forall n: nat | n <= |s.registered|
      ensures !WireIs(s, n)
    {
      var rest := if n == 0 then [] + c[..Min(s.sendOffset, |c|)]
          else c + PING[..if n == 1 then Min(s.sendOffset, 2) else 2];
      assert rest != PING by { NotPing(rest); }
      assert PING[..2] == PING;
    }
  }

  lemma NotPing(x: seq<byte>)
    requires x != [] ==> x[0] / 16 == CONNECT
    ensures x != PING
  {}

  lemma PairConcat(a: seq<byte>, b: seq<byte>)
    ensures Concat([]) == [] && Concat([a]) == a && Concat([a, b]) == a + b
  {
    assert [a, b] == [a] + [b];
    ConcatSnoc([a], b);
  }

  /** A broker that accepts a connection before it has seen the CONNECT: the packet is never sent. */
  lemma EarlyDrops(capacity: nat, recvCap: nat, c: seq<byte>)
    requires Usable(c, capacity) && 4 <= recvCap
    ensures var es := [DoConnect(Built(c), 0), DoPing(0), Arrive(ACCEPTED), DoRecv([UpTo(4)]),
                       DoSend(Everything(false, 2), false, 0)];
      var s := Reached(capacity, recvCap, es);
      && (forall i :: 0 <= i < |es| ==> Plain(es[i]))
      && s.wire == PING && s.registered == [c, PING] && Disordered(s)
  {
    hide Inv, StepOf, Run, Good, Disordered, Everything, Usable;
    var e0, e1, e2, e3, e4 := DoConnect(Built(c), 0), DoPing(0), Arrive(ACCEPTED), DoRecv([UpTo(4)]),
        DoSend(Everything(false, 2), false, 0);
    var s0, s1 := Initial(capacity, recvCap), Connected(capacity, recvCap, c);
    ConnectStep(capacity, recvCap, c);
    RunFirst(s0, e0, [e1, e2, e3, e4]);
    assert [e0] + [e1, e2, e3, e4] == [e0, e1, e2, e3, e4];
    RunFirst(s1, e1, [e2, e3, e4]);
    assert [e1] + [e2, e3, e4] == [e1, e2, e3, e4];
    ConnectedRoom(capacity, recvCap, c);
    PingStep(s1);
    var s2 := StepOf(s1, e1);
    RunFirst(s2, e2, [e3, e4]);
    assert [e2] + [e3, e4] == [e2, e3, e4];
    ArriveStep(s2, ACCEPTED);
    var s3 := StepOf(s2, e2);
    RunFirst(s3, e3, [e4]);
    assert [e3] + [e4] == [e3, e4];
    AcceptStep(s3);
    var s4 := StepOf(s3, e3);
    RunFirst(s4, e4, []);
    assert [e4] + [] == [e4];
    SendSecond(s4, 2);
    var s5 := StepOf(s4, e4);
    RunNothing(s5);
    assert Plain(e4) by { EverythingPlain(2); }
    assert [] + PING == PING;
    assert c != [] && c[0] / 16 == CONNECT by { UsableIs(c, capacity); }
    EarlyState(s5, c);
  }

  lemma EverythingPlain(n: nat)
    ensures Plain(DoSend(Everything(false, n), false, 0))
  {}

  lemma UsableIs(c: seq<byte>, capacity: nat)
    requires Usable(c, capacity)
    ensures |c| > 0 && c[0] / 16 == CONNECT && capacity < DESC * PERIOD
  {}

  lemma ConnectedRoom(capacity: nat, recvCap: nat, c: seq<byte>)
    requires Usable(c, capacity)
    ensures 2 <= RoomOf(Connected(capacity, recvCap, c))
  {
    FlatOne(Message(c, Unsent, CONNECT, 0));
  }

  /* a QoS 2 PUBLISH that is held back */

  /** A QoS 2 PUBLISH without topic and payload. */
  function Brief(pid: Word): seq<byte> {
    [52, 4, 0, 0, (pid as int) / 256, (pid as int) % 256]
  }

  const QOS2: Nibble := 4

  lemma BriefPacks(pid: Word, n: nat)
    requires 6 <= n
    ensures Pack(SendPublish([], [], QOS2), pid, n) == Ready(Brief(pid))
  {
    assert EncodeLength(4) == [4];
    assert PublishHeader([], [], QOS2) == FixedHeader(PUBLISH, 4, 4);
  }

  lemma BriefStep(s: Session) returns (pid: Word)
    requires Inv(s) && s.status.None? && 6 <= RoomOf(s)
    ensures StepOf(s, DoPublish([], [], QOS2)) == Register(s.(lfsr := pid), PUBLISH, pid, Brief(pid))
  {
    assert |s.queue| < PERIOD by { InvFits(s); }
    pid := NextId(s.lfsr, Ids(s.queue));
    var u := s.(lfsr := pid);
    BriefPacks(pid, RoomOf(u));
    hide Pack, NextId;
    TryPackReady(u, SendPublish([], [], QOS2), pid, Brief(pid));
  }

  /** CONNECT, two QoS 2 PUBLISH packets and a ping wait; in one pass the second PUBLISH is passed over. */
  lemma SendPassesOver(s: Session, n: nat)
    requires Inv(s) && s.status.None? && |s.queue| == 4 && s.sendOffset == 0
    requires forall k :: 0 <= k < 4 ==> s.queue[k].state == Unsent && |s.queue[k].packet| <= n
    requires s.queue[0].control == CONNECT && s.queue[3].control == PINGREQ
    requires LiveQos2(s.queue[1]) && LiveQos2(s.queue[2])
    ensures var t := StepOf(s, DoSend(Everything(false, n), false, 0));
      t.registered == s.registered && t.wire == s.wire + s.queue[0].packet + s.queue[1].packet + s.queue[3].packet
  {
    var att := Everything(false, n);
    var m0, m1, m3 := s.queue[0], s.queue[1], s.queue[3];
    assert m1.control == PUBLISH;
    hide Inv, AfterSend, LiveQos2;
    assert AfterSend(m0).Some? && AfterSend(m1).Some? && AfterSend(m3).Some? by {
      Sendable(m0);
      Sendable(m1);
      Sendable(m3);
    }
    assert !LiveQos2(m0) && !LiveQos2(m3) by { NotPublish(m0); NotPublish(m3); }
    WritesAll(s, 0, att(0), n);
    var s1 := Write(s, 0, att(0)).0;
    assert SendFrom(s, 0, false, att) == SendFrom(s1, 1, false, att);
    WritesAll(s1, 1, att(1), n);
    var s2 := Write(s1, 1, att(1)).0;
    assert SendFrom(s1, 1, false, att) == SendFrom(s2, 2, true, att);
    var s3 := s2.(hazards := s2.hazards.(skipped := true));
    assert SendFrom(s2, 2, true, att) == SendFrom(s3, 3, true, att);
    WritesAll(s3, 3, att(3), n);
    var t := Write(s3, 3, att(3)).0;
    assert SendFrom(s3, 3, true, att) == SendFrom(t, 4, true, att);
    assert SendFrom(t, 4, true, att) == (t, false);
  }

  lemma Sendable(m: Message)
    requires m.control == CONNECT || m.control == PINGREQ || m.control == PUBLISH
    ensures AfterSend(m).Some?
  {}

  lemma NotPublish(m: Message)
    requires m.control != PUBLISH
    ensures !LiveQos2(m)
  {}

  lemma BriefLive(pid: Word)
    ensures LiveQos2(Message(Brief(pid), Unsent, PUBLISH, pid))
  {}

  lemma SkippedState(s: Session, c: seq<byte>, p: Word, q: Word)
    requires s.registered == [c, Brief(p), Brief(q), PING] && |c| > 0
    requires s.wire == c + Brief(p) + PING
    ensures Disordered(s)
  {
    hide Concat;
    var b, d := Brief(p), Brief(q);
    forall n: nat | n <= |s.registered|
      ensures !WireIs(s, n)
    {
      assert s.registered[..0] == [] && s.registered[..1] == [c] && s.registered[..2] == [c, b]
          && s.registered[..3] == [c, b, d];
      PairConcat(c, b);
      assert [c, b, d] == [c, b] + [d] && [c, b, d, PING] == [c, b, d] + [PING];
      ConcatSnoc([c, b], d);
      ConcatSnoc([c, b, d], PING);
      assert (c + b + PING)[|c| + 6] == 192;
      assert |PING| == 2 && |b| == 6 && |d| == 6 && d[0] == 52;
    }
  }

  lemma RoomLeft(s: Session, control: Nibble, pid: Word, b: seq<byte>)
    ensures RoomOf(Register(s, control, pid, b)) + |b| + DESC >= RoomOf(s)
  {
    var m := Message(b, Unsent, control, pid);
    FlatAppend(s.queue, [m]);
    FlatOne(m);
  }

  lemma ConnectedSpace(capacity: nat, recvCap: nat, c: seq<byte>)
    requires Usable(c, capacity)
    ensures RoomOf(Connected(capacity, recvCap, c)) >= 20 + 2 * DESC
  {
    FlatOne(Message(c, Unsent, CONNECT, 0));
  }

  /** The client after it has been asked to connect, to publish twice and to ping. */
  ghost function Waiting(capacity: nat, recvCap: nat, c: seq<byte>, p: Word, q: Word): Session {
    Initial(capacity, recvCap).(status := None, lfsr := q,
      queue := [Message(c, Unsent, CONNECT, 0), Message(Brief(p), Unsent, PUBLISH, p),
                Message(Brief(q), Unsent, PUBLISH, q), Message(PING, Unsent, PINGREQ, 0)],
      registered := [c, Brief(p), Brief(q), PING])
  }

  lemma ReachWaiting(capacity: nat, recvCap: nat, c: seq<byte>, es: seq<Event>) returns (p: Word, q: Word)
    requires Usable(c, capacity)
    ensures Inv(Initial(capacity, recvCap)) && Inv(Waiting(capacity, recvCap, c, p, q))
    ensures var e := DoPublish([], [], QOS2);
      Run(Initial(capacity, recvCap), [DoConnect(Built(c), 0), e, e, DoPing(0)] + es) ==
      Run(Waiting(capacity, recvCap, c, p, q), es)
  {
    hide Inv, StepOf, Run, Good, Usable, RoomOf, Brief;
    var e0, e, e3 := DoConnect(Built(c), 0), DoPublish([], [], QOS2), DoPing(0);
    var s0, s1 := Initial(capacity, recvCap), Connected(capacity, recvCap, c);
    ConnectStep(capacity, recvCap, c);
    ConnectedSpace(capacity, recvCap, c);
    RunFirst(s0, e0, [e, e, e3] + es);
    p := BriefStep(s1);
    var s2 := StepOf(s1, e);
    RunFirst(s1, e, [e, e3] + es);
    RoomLeft(s1.(lfsr := p), PUBLISH, p, Brief(p));
    BriefLength(p);
    assert RoomOf(s1.(lfsr := p)) == RoomOf(s1) by { RoomIs(s1, p); }
    q := BriefStep(s2);
    var s3 := StepOf(s2, e);
    RunFirst(s2, e, [e3] + es);
    RoomLeft(s2.(lfsr := q), PUBLISH, q, Brief(q));
    BriefLength(q);
    assert RoomOf(s2.(lfsr := q)) == RoomOf(s2) by { RoomIs(s2, q); }
    PingStep(s3);
    RunFirst(s3, e3, es);
    assert StepOf(s3, e3) == Waiting(capacity, recvCap, c, p, q);
    assert [e0, e, e, e3] + es == [e0] + ([e, e, e3] + es);
    assert [e, e, e3] + es == [e] + ([e, e3] + es);
    assert [e, e3] + es == [e] + ([e3] + es);
  }

  lemma BriefLength(p: Word)
    ensures |Brief(p)| == 6
  {}

  lemma RoomIs(s: Session, p: Word)
    ensures RoomOf(s.(lfsr := p)) == RoomOf(s)
  {}

  /** A second QoS 2 PUBLISH is held back behind the first, and a ping overtakes it. */
  lemma SkippedOvertaken(capacity: nat, recvCap: nat, c: seq<byte>) returns (p: Word, q: Word)
    requires Usable(c, capacity)
    ensures var e := DoPublish([], [], QOS2);
      var es := [DoConnect(Built(c), 0), e, e, DoPing(0), DoSend(Everything(false, |c| + 6), false, 0)];
      var s := Reached(capacity, recvCap, es);
      && HonestRun(capacity, recvCap, es)
      && s.wire == c + Brief(p) + PING && s.registered == [c, Brief(p), Brief(q), PING] && Disordered(s)
  {
    hide Inv, StepOf, Run, Good, Disordered, Everything, Usable, LiveQos2, Brief, Honest;
    var e, e4 := DoPublish([], [], QOS2), DoSend(Everything(false, |c| + 6), false, 0);
    p, q := ReachWaiting(capacity, recvCap, c, [e4]);
    var s := Waiting(capacity, recvCap, c, p, q);
    assert [DoConnect(Built(c), 0), e, e, DoPing(0)] + [e4] == [DoConnect(Built(c), 0), e, e, DoPing(0), e4];
    SilentHonest(Initial(capacity, recvCap), [DoConnect(Built(c), 0), e, e, DoPing(0), e4]);
    RunFirst(s, e4, []);
    assert [e4] + [] == [e4];
    BriefLength(p);
    BriefLength(q);
    BriefLive(p);
    BriefLive(q);
    SendPassesOver(s, |c| + 6);
    var t := StepOf(s, e4);
    RunNothing(t);
    assert [] + c == c;
    assert |c| > 0 by { UsableIs(c, capacity); }
    SkippedState(t, c, p, q);
  }
}
