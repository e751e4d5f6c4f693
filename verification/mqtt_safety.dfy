/** What every reachable state of an MQTT session satisfies. */
module SessionSafety {
  import opened Bytes
  import opened Words
  import opened Arena
  import opened MqttCodec
  import opened PacketIds
  import opened MessageQueue
  import opened Session
  import opened SessionInvariants

  /* ---- every operation keeps the invariant and advances ---- */

  ghost predicate Good(s: Session, t: Session) {
    && Inv(t)
    && Advances(s, t)
    && Flows(s, t)
    && (InputInv(s.input) ==> InputInv(t.input))
  }

  lemma GoodInv(s: Session, t: Session)
    requires Good(s, t)
    ensures Inv(t)
  {}

  lemma GoodTrans(s: Session, t: Session, u: Session)
    requires Good(s, t) && Good(t, u)
    ensures Good(s, u)
  {
    hide Inv, Tidy, WireWhole, Whole, InputInv, Hazard;
    AdvancesTrans(s, t, u);
  }

  /** A step that changes none of what the invariants speak about. */
  lemma SideGood(s: Session, t: Session)
    requires Inv(s)
    requires t.gone == s.gone && t.marks == s.marks && t.capacity == s.capacity && t.input == s.input
    requires t.queue == s.queue
    requires Hazard(t) || (!Hazard(s) && t.registered == s.registered && t.wire == s.wire
        && t.sendOffset == s.sendOffset)
    ensures Good(s, t)
  {
    hide Tidy, Whole, QueueInv, InputInv;
    AdvancesSame(s, t);
    if !Hazard(t) {
      FlowsSame(s, t);
    }
  }

  lemma CleanGood(s: Session)
    requires Inv(s)
    ensures Good(s, Clean(s))
  {
    hide Inv, Advances, Flows, InputInv;
    CleanInv(s);
    CleanAdvances(s);
    CleanFlows(s);
  }

  lemma RegisterGood(s: Session, control: Nibble, pid: Word, bytes: seq<byte>)
    requires Inv(s) && 0 < |bytes| <= RoomOf(s)
    requires Fresh(s.queue, Message(bytes, Unsent, control, pid))
    requires AfterSend(Message(bytes, Unsent, control, pid)).Some?
    ensures Good(s, Register(s, control, pid, bytes))
  {
    hide Inv, Advances, Flows, InputInv, AfterSend, RoomOf;
    RegisterInv(s, control, pid, bytes);
    RegisterAdvances(s, control, pid, bytes);
    RegisterFlows(s, control, pid, bytes);
  }

  /** The last message is unsent and of this type and id. */
  ghost predicate Appended(q: seq<Message>, control: Nibble, pid: Word) {
    q != [] && var m := q[|q| - 1]; m.control == control && m.pid == pid && m.state == Unsent
  }

  /** Message types the client queues. */
  predicate Queued(r: Request) {
    r.SendPub? ==> PUBACK <= r.pub <= PUBCOMP
  }

  lemma QueuedSendable(r: Request, pid: Word, bytes: seq<byte>)
    requires Queued(r)
    ensures AfterSend(Message(bytes, Unsent, ControlOf(r), pid)).Some?
  {}

  lemma TryPackGood(s: Session, r: Request, pid: Word)
    requires Inv(s) && Queued(r)
    requires forall b :: Fresh(s.queue, Message(b, Unsent, ControlOf(r), pid))
    ensures Good(s, TryPack(s, r, pid))
    ensures var t := TryPack(s, r, pid);
      && t.marks == s.marks
      && (t.status.None? ==> Appended(t.queue, ControlOf(r), pid))
  {
    hide TryPack, Inv, Good, RoomOf, AfterSend, ControlOf, Queued;
    var base, bytes := TryPackCases(s, r, pid);
    var t := TryPack(s, r, pid);
    if base == s {
      SideGood(s, s);
    } else {
      CleanGood(s);
    }
    GoodInv(s, base);
    if t.status.Some? {
      SideGood(base, t);
    } else {
      FreshDrop(s, Message(bytes, Unsent, ControlOf(r), pid));
      QueuedSendable(r, pid, bytes);
      RegisterGood(base, ControlOf(r), pid, bytes);
    }
    GoodTrans(s, base, t);
  }

  lemma FreshDrop(s: Session, m: Message)
    requires Fresh(s.queue, m)
    ensures Fresh(Clean(s).queue, m)
  {}

  lemma WithNewIdGood(s: Session, r: Request)
    requires Inv(s) && |s.queue| < PERIOD && ControlOf(r) != PUBREC && Queued(r)
    ensures Good(s, WithNewId(s, r))
  {
    hide TryPack, Inv, Good, Queued;
    var pid := NextId(s.lfsr, Ids(s.queue));
    var u := s.(lfsr := pid);
    SideGood(s, u);
    GoodInv(s, u);
    forall b
      ensures Fresh(u.queue, Message(b, Unsent, ControlOf(r), pid))
    {
      assert forall k :: 0 <= k < |u.queue| ==> Ids(s.queue)[k] == u.queue[k].pid;
    }
    TryPackGood(u, r, pid);
    GoodTrans(s, u, TryPack(u, r, pid));
  }

  lemma FinishInv(s: Session, k: nat)
    requires Inv(s) && k < |s.queue|
    requires s.queue[k].control == PUBREC ==> !Open(s.marks, s.queue[k].pid)
    ensures Inv(Finish(s, k)) && Advances(s, Finish(s, k))
  {
    var m := s.queue[k].(state := Complete);
    UpdateInv(s.queue, k, m);
    UpdateFlat(s.queue, k, m);
    UpdateAdvances(s, k, m, Finish(s, k));
    forall p: Word | Open(s.marks, p)
      ensures PubrecLive(s.queue[k := m], p)
    {
      PubrecUpdate(s.queue, k, m, p);
    }
  }

  lemma FinishGood(s: Session, k: nat)
    requires Inv(s) && k < |s.queue|
    requires s.queue[k].control == PUBREC ==> !Open(s.marks, s.queue[k].pid)
    ensures Good(s, Finish(s, k))
  {
    hide Inv, Advances, Flows, InputInv, Open;
    FinishInv(s, k);
    FinishFlows(s, k);
  }

  lemma ReleaseGood(s: Session, control: Nibble, pid: Option<Word>)
    requires Inv(s)
    requires control == PUBREC ==> pid.Some? && !Open(s.marks, pid.value)
    ensures Good(s, Release(s, control, pid).0)
  {
    hide Inv, Good, Finish, Open;
    var k := Find(s.queue, control, pid);
    if k == |s.queue| {
      SideGood(s, s.(status := Some(AckOfUnknown)));
    } else {
      FinishGood(s, k);
    }
  }

  lemma MarkGood(s: Session, m: Mark)
    requires Inv(s)
    requires m.Delivered? ==> !Open(s.marks, m.pid) && PubrecLive(s.queue, m.pid)
    ensures Good(s, s.(marks := s.marks + [m]))
    ensures m.Released? ==> !Open(s.marks + [m], m.pid)
  {
    hide Tidy, Whole, QueueInv, InputInv;
    var t := s.(marks := s.marks + [m]);
    MarkStep(s.marks, m);
    AdvancesSame(s, t);
    FlowsSame(s, t);
  }

  lemma AnswerGood(s: Session, control: Nibble, pid: Word)
    requires Inv(s) && PUBACK <= control <= PUBCOMP
    requires control == PUBREC ==> !Found(s, PUBREC, pid)
    ensures Good(s, Answer(s, control, pid).0)
    ensures Answer(s, control, pid).0.marks == s.marks
    ensures var (t, ok) := Answer(s, control, pid); ok ==> Appended(t.queue, control, pid)
  {
    hide TryPack, Inv, Good;
    TryPackGood(s, SendPub(control), pid);
  }

  lemma DeliverGood(s: Session, r: Response)
    requires Inv(s) && r.Publish?
    requires r.qos == 2 ==> !Open(s.marks, r.pid) && PubrecLive(s.queue, r.pid)
    ensures Good(s, Deliver(s, r))
  {
    hide Inv, Good, Open, PubrecLive;
    var t := s.(delivered := s.delivered + [r]);
    SideGood(s, t);
    GoodInv(s, t);
    if r.qos == 2 {
      MarkGood(t, Delivered(r.pid));
      GoodTrans(s, t, Deliver(s, r));
    }
  }

  lemma HandlePublishGood(s: Session, r: Response)
    requires Inv(s) && r.Publish?
    ensures Good(s, HandlePublish(s, r).0)
  {
    hide Inv, Good, Answer, Deliver, Open;
    SideGood(s, s);
    if r.qos == 1 {
      AnswerGood(s, PUBACK, r.pid);
      var (t, ok) := Answer(s, PUBACK, r.pid);
      GoodInv(s, t);
      if ok {
        DeliverGood(t, r);
        GoodTrans(s, t, Deliver(t, r));
      }
    } else if r.qos == 2 {
      if !Found(s, PUBREC, r.pid) {
        AnswerGood(s, PUBREC, r.pid);
        var (t, ok) := Answer(s, PUBREC, r.pid);
        GoodInv(s, t);
        if ok {
          assert PubrecLive(t.queue, r.pid);
          NotOpen(s, r.pid);
          DeliverGood(t, r);
          GoodTrans(s, t, Deliver(t, r));
        }
      }
    } else {
      DeliverGood(s, r);
    }
  }

  /** Without a PUBREC in the queue there is no delivery still to be released. */
  lemma NotOpen(s: Session, p: Word)
    requires Inv(s) && !Found(s, PUBREC, p)
    ensures !Open(s.marks, p)
  {}

  lemma HandlePubGood(s: Session, control: Nibble, pid: Word)
    requires Inv(s) && PUBACK <= control <= PUBCOMP
    ensures Good(s, HandlePub(s, control, pid).0)
  {
    hide Inv, Good, Answer, Release, Open;
    SideGood(s, s);
    if control == PUBREC {
      ReleaseGood(s, PUBLISH, Some(pid));
      var t := Release(s, PUBLISH, Some(pid)).0;
      GoodInv(s, t);
      AnswerGood(t, PUBREL, pid);
      GoodTrans(s, t, Answer(t, PUBREL, pid).0);
    } else if control == PUBREL {
      var u := s.(marks := s.marks + [Released(pid)]);
      MarkGood(s, Released(pid));
      GoodInv(s, u);
      ReleaseGood(u, PUBREC, Some(pid));
      var t := Release(u, PUBREC, Some(pid)).0;
      GoodInv(u, t);
      GoodTrans(s, u, t);
      AnswerGood(t, PUBCOMP, pid);
      GoodTrans(s, t, Answer(t, PUBCOMP, pid).0);
    } else if control == PUBACK {
      ReleaseGood(s, PUBLISH, Some(pid));
    } else {
      ReleaseGood(s, PUBREL, Some(pid));
    }
  }

  predicate ValidResponse(r: Response) {
    r.Pub? ==> PUBACK <= r.control <= PUBCOMP
  }

  lemma UnpackValid(b: seq<byte>)
    requires Unpack(b).Got?
    ensures ValidResponse(Unpack(b).value)
  {
    hide UnpackHeader;
  }

  lemma FailGood(s: Session, t: Session, e: Error)
    requires Good(s, t)
    ensures Good(s, Fail(t, e).0)
  {
    hide Good, Inv;
    GoodInv(s, t);
    SideGood(t, Fail(t, e).0);
    GoodTrans(s, t, Fail(t, e).0);
  }

  lemma HandleGood(s: Session, r: Response)
    requires Inv(s) && ValidResponse(r)
    ensures Good(s, Handle(s, r).0)
  {
    hide Inv, Good, Release, HandlePublish, HandlePub, Fail;
    match r
    case Connack(_, code) =>
      ReleaseGood(s, CONNECT, None);
      var t := Release(s, CONNECT, None).0;
      FailGood(s, t, ConnectClientIdRefused);
      FailGood(s, t, ConnectionRefused);
    case Publish(_, _, _, _, _, _) => HandlePublishGood(s, r);
    case Pub(control, pid) => HandlePubGood(s, control, pid);
    case Suback(pid, codes) =>
      ReleaseGood(s, SUBSCRIBE, Some(pid));
      FailGood(s, Release(s, SUBSCRIBE, Some(pid)).0, SubscribeFailed);
    case Unsuback(pid) => ReleaseGood(s, UNSUBSCRIBE, Some(pid));
    case Pingresp => ReleaseGood(s, PINGREQ, None);
  }

  lemma InputGood(s: Session, u: Input)
    requires Inv(s) && |u.recv| <= u.cap
    requires InputInv(s.input) ==> InputInv(u)
    ensures Good(s, s.(input := u))
  {
    hide Tidy, Whole, QueueInv, InputInv;
    AdvancesSame(s, s.(input := u));
    FlowsSame(s, s.(input := u));
  }

  lemma InvInput(s: Session)
    requires Inv(s)
    ensures |s.input.recv| <= s.input.cap
  {}

  lemma {:induction false} RecvGood(s: Session, pulls: seq<Pull>)
    requires Inv(s)
    ensures Good(s, Recv(s, pulls).0)
    decreases |pulls|, |s.input.recv|
  {
    hide Inv, InputInv, Handle, Unpack, Take, Consume, Good;
    assert |s.input.recv| <= s.input.cap by { InvInput(s); }
    var pull := if pulls == [] then UpTo(0) else pulls[0];
    var rest := if pulls == [] then [] else pulls[1..];
    if pull.PullFailed? {
      SideGood(s, s);
      FailGood(s, s, Socket(pull.code));
    } else {
      var s1 := s.(input := Take(s.input, pull.n));
      TakeBound(s.input, pull.n);
      TakeGood(s, pull.n);
      GoodInv(s, s1);
      match Unpack(s1.input.recv)
      case Bad(e) => FailGood(s, s1, e);
      case Short => FailGood(s, s1, RecvBufferTooSmall);
      case Got(r, n) =>
        UnpackSize(s1.input.recv);
        UnpackValid(s1.input.recv);
        HandleGood(s1, r);
        HandleKeepsInput(s1, r);
        GoodTrans(s, s1, Handle(s1, r).0);
        var (s2, ok) := Handle(s1, r);
        GoodInv(s1, s2);
        var s3 := s2.(input := Consume(s2.input, r, n));
        ConsumeGood(s2);
        GoodInv(s2, s3);
        GoodTrans(s, s2, s3);
        if ok {
          if pulls == [] {
            TakeNothing(s.input);
          }
          RecvGood(s3, rest);
          GoodTrans(s, s3, Recv(s3, rest).0);
        }
    }
  }

  lemma TakeGood(s: Session, n: nat)
    requires Inv(s) && |s.input.recv| <= s.input.cap
    ensures Good(s, s.(input := Take(s.input, n)))
  {
    hide Inv, Good, InputInv;
    if InputInv(s.input) {
      TakeInput(s.input, n);
    }
    TakeBound(s.input, n);
    InputGood(s, Take(s.input, n));
  }

  lemma ConsumeGood(s: Session)
    requires Inv(s) && Unpack(s.input.recv).Got? && Unpack(s.input.recv).size <= |s.input.recv| <= s.input.cap
    ensures Good(s, s.(input := Consume(s.input, Unpack(s.input.recv).value, Unpack(s.input.recv).size)))
    ensures |Consume(s.input, Unpack(s.input.recv).value, Unpack(s.input.recv).size).recv| ==
            |s.input.recv| - Unpack(s.input.recv).size
    ensures Consume(s.input, Unpack(s.input.recv).value, Unpack(s.input.recv).size).cap == s.input.cap
  {
    hide Inv, Good, InputInv, Unpack;
    if InputInv(s.input) {
      ConsumeInput(s.input);
    }
    InputGood(s, Consume(s.input, Unpack(s.input.recv).value, Unpack(s.input.recv).size));
  }

  lemma TakeBound(u: Input, n: nat)
    requires |u.recv| <= u.cap
    ensures |Take(u, n).recv| <= Take(u, n).cap == u.cap
  {}

  lemma TakeNothing(u: Input)
    requires |u.recv| <= u.cap
    ensures Take(u, 0).recv == u.recv
  {}

  lemma AfterSendLater(m: Message)
    requires AfterSend(m).Some? && m.packet != [] && m.state != Complete
    ensures Later(m, AfterSend(m).value) && Replaces(m, AfterSend(m).value)
    ensures AfterSend(m).value.state != Unsent && |AfterSend(m).value.packet| == |m.packet|
    ensures m.control == PUBREC ==> AfterSend(m).value.state != Complete
  {}

  /** Message i has been written out whole. */
  lemma SentInv(s: Session, i: nat, t: Session)
    requires Inv(s) && i < |s.queue| && s.queue[i].state != Complete && AfterSend(s.queue[i]).Some?
    requires LiveQos2(s.queue[i]) ==> NoLiveBefore(s.queue, i)
    requires t.gone == s.gone && t.marks == s.marks && t.capacity == s.capacity && t.input == s.input
    requires t.queue == s.queue[i := AfterSend(s.queue[i]).value]
    ensures Inv(t) && Advances(s, t)
  {
    var m := AfterSend(s.queue[i]).value;
    AfterSendLater(s.queue[i]);
    UpdateInv(s.queue, i, m);
    UpdateFlat(s.queue, i, m);
    UpdateAdvances(s, i, m, t);
    forall p: Word | Open(s.marks, p)
      ensures PubrecLive(t.queue, p)
    {
      PubrecUpdate(s.queue, i, m, p);
    }
  }

  lemma WriteInv(s: Session, i: nat, a: Attempt)
    requires Inv(s) && i < |s.queue| && s.queue[i].state != Complete
    requires LiveQos2(s.queue[i]) ==> NoLiveBefore(s.queue, i)
    ensures Inv(Write(s, i, a).0) && Advances(s, Write(s, i, a).0)
    ensures Write(s, i, a).0.input == s.input && Write(s, i, a).0.hazards == s.hazards
  {
    hide AfterSend, Written, LiveQos2, QueueInv, Whole;
    var t := Write(s, i, a).0;
    if Write(s, i, a).1 == Next {
      SentInv(s, i, t);
    } else {
      AdvancesSame(s, t);
    }
  }

  /** Unless something has already gone wrong, message i is the first unsent one. */
  ghost predicate Ready(s: Session, i: nat)
    requires i <= |s.queue|
  {
    Hazard(s) || forall j :: 0 <= j < i ==> s.queue[j].state != Unsent
  }

  lemma WriteGood(s: Session, i: nat, a: Attempt)
    requires Inv(s) && i < |s.queue| && s.queue[i].state != Complete
    requires LiveQos2(s.queue[i]) ==> NoLiveBefore(s.queue, i)
    requires Ready(s, i) && (s.queue[i].state == Unsent || Hazard(s))
    ensures Good(s, Write(s, i, a).0)
  {
    hide Inv, Advances, Write, LiveQos2, InputInv, WireWhole, Tidy;
    WriteInv(s, i, a);
    if Hazard(s) {
      if Tidy(s.queue) {
        WriteTidy(s, i, a);
      }
    } else {
      WriteFlows(s, i, a);
    }
  }

  lemma SendOneGood(s: Session, i: nat, inflight: bool, a: Attempt)
    requires Inv(s) && i < |s.queue| && Ready(s, i)
    requires !inflight ==> NoLiveBefore(s.queue, i)
    ensures var (t, verdict) := SendOne(s, i, inflight, a);
      && Good(s, t)
      && (verdict == Next ==> Ready(t, i + 1))
      && (verdict == Next && !inflight && !LiveQos2(s.queue[i]) ==> NoLiveBefore(t.queue, i + 1))
  {
    hide Inv, AfterSend, LiveQos2, Good, Write;
    var m := s.queue[i];
    var s1 := Expire(s, Late(s, i, a));
    SideGood(s, s1);
    GoodInv(s, s1);
    if m.state != Unsent && !Late(s, i, a) {
    } else if LiveQos2(m) && inflight {
      SideGood(s, s1.(hazards := s1.hazards.(skipped := true)));
    } else {
      WriteGood(s1, i, a);
      GoodTrans(s, s1, Write(s1, i, a).0);
      InvPacket(s, i);
      WriteQueue(s1, i, a, inflight || LiveQos2(m));
    }
  }

  lemma {:induction false} SendFromGood(s: Session, i: nat, inflight: bool, att: nat -> Attempt)
    requires Inv(s) && i <= |s.queue| && Ready(s, i)
    requires !inflight ==> NoLiveBefore(s.queue, i)
    ensures Good(s, SendFrom(s, i, inflight, att).0)
    decreases |s.queue| - i
  {
    hide Inv, LiveQos2, Good, SendOne, Ready;
    if i == |s.queue| {
      SideGood(s, s);
    } else {
      SendOneGood(s, i, inflight, att(i));
      var (t, verdict) := SendOne(s, i, inflight, att(i));
      var flying := inflight || LiveQos2(s.queue[i]);
      GoodInv(s, t);
      if verdict == Next {
        SendFromGood(t, i + 1, flying, att);
        GoodTrans(s, t, SendFrom(t, i + 1, flying, att).0);
      }
    }
  }

  lemma WriteQueue(s: Session, i: nat, a: Attempt, flying: bool)
    requires i < |s.queue| && s.queue[i].packet != [] && s.queue[i].state != Complete
    requires !flying ==> NoLiveBefore(s.queue, i) && !LiveQos2(s.queue[i])
    requires Ready(s, i)
    ensures |Write(s, i, a).0.queue| == |s.queue|
    ensures Write(s, i, a).1 == Next ==> Ready(Write(s, i, a).0, i + 1)
    ensures !flying && Write(s, i, a).1 == Next ==> NoLiveBefore(Write(s, i, a).0.queue, i + 1)
  {
    hide AfterSend, LiveQos2, Written;
    if Write(s, i, a).1 == Next {
      StillNoLive(s.queue, i, AfterSend(s.queue[i]).value, flying);
      AfterSendLater(s.queue[i]);
    }
  }

  lemma StillNoLive(q: seq<Message>, i: nat, m: Message, flying: bool)
    requires i < |q| && (!flying ==> NoLiveBefore(q, i) && !LiveQos2(q[i]))
    requires AfterSend(q[i]) == Some(m) && q[i].packet != [] && q[i].state != Complete
    ensures !flying ==> NoLiveBefore(q[i := m], i + 1)
  {
    hide AfterSend, LiveQos2;
    AfterSendLater(q[i]);
  }

  lemma SendGood(s: Session, att: nat -> Attempt, pingDue: bool, stale: Word)
    requires Inv(s)
    ensures Good(s, Send(s, att, pingDue, stale))
  {
    hide Inv, SendFrom, TryPack, Good;
    SideGood(s, s);
    SendFromGood(s, 0, false, att);
    var t := SendFrom(s, 0, false, att).0;
    GoodInv(s, t);
    TryPackGood(t, Request.Ping, stale);
    GoodTrans(s, t, TryPack(t, Request.Ping, stale));
  }

  lemma InvPacket(s: Session, i: nat)
    requires Inv(s) && i < |s.queue|
    ensures s.queue[i].packet != []
  {}

  lemma InvFits(s: Session)
    requires Inv(s)
    ensures Fits(s) && |s.queue| < PERIOD
  {}

  ghost function StepOf(s: Session, e: Event): Session
    requires Inv(s)
  {
    Step(s, e)
  }

  /** Each call of the client, each read and each pass of sending keeps the invariant, and
      moves no message backwards. */
  lemma StepGood(s: Session, e: Event)
    requires Inv(s)
    ensures Good(s, StepOf(s, e))
  {
    hide Inv, TryPack, Good, Send, Recv, WithNewId, Fits, InputInv;
    InvFits(s);
    match e
    case DoConnect(built, stale) =>
      var u := if s.status == Some(ConnectNotCalled) then s.(status := None) else s;
      SideGood(s, u);
      GoodInv(s, u);
      TryPackGood(u, Connect(built), stale);
      GoodTrans(s, u, TryPack(u, Connect(built), stale));
    case DoPublish(topic, payload, flags) => WithNewIdGood(s, SendPublish(topic, payload, flags));
    case DoSubscribe(topic, qos) => WithNewIdGood(s, Subscribe(topic, qos));
    case DoUnsubscribe(topic) => WithNewIdGood(s, Unsubscribe(topic));
    case DoPing(stale) => TryPackGood(s, Request.Ping, stale);
    case DoDisconnect(stale) => TryPackGood(s, Disconnect, stale);
    case DoSend(att, pingDue, stale) => SendGood(s, att, pingDue, stale);
    case DoRecv(pulls) => RecvGood(s, pulls);
    case Arrive(bytes) =>
      if InputInv(s.input) {
        ArriveInput(s.input, bytes);
      }
      InvInput(s);
      InputGood(s, s.input.(inbox := s.input.inbox + bytes, arrived := s.input.arrived + bytes));
  }

  /** A run of the client: any sequence of calls, reads, sends and arrivals. */
  ghost function Run(s: Session, es: seq<Event>): Session
    requires Inv(s)
    decreases |es|
  {
    if es == [] then s
    else
      StepGood(s, es[0]);
      GoodInv(s, StepOf(s, es[0]));
      Run(StepOf(s, es[0]), es[1..])
  }

  lemma {:induction false} RunGood(s: Session, es: seq<Event>)
    requires Inv(s)
    ensures Good(s, Run(s, es))
    decreases |es|
  {
    hide Inv, StepOf, Good;
    if es == [] {
      SideGood(s, s);
    } else {
      StepGood(s, es[0]);
      GoodInv(s, StepOf(s, es[0]));
      RunGood(StepOf(s, es[0]), es[1..]);
      GoodTrans(s, StepOf(s, es[0]), Run(s, es));
    }
  }

  /* ---- main results over every run from a fresh client ---- */

  ghost function Reached(capacity: nat, recvCap: nat, es: seq<Event>): Session
    requires capacity < DESC * PERIOD
  {
    InitialInv(capacity, recvCap);
    Run(Initial(capacity, recvCap), es)
  }

  /** QoS 2 receive safety (section 4.3.3 of MQTT 3.1.1): the application is given no second
      PUBLISH under an id before a PUBREL with that id has been received. */
  lemma Qos2DeliveredOnce(capacity: nat, recvCap: nat, es: seq<Event>, i: nat, j: nat)
    requires capacity < DESC * PERIOD
    requires var marks := Reached(capacity, recvCap, es).marks;
      i < j < |marks| && marks[i].Delivered? && marks[j] == marks[i]
    ensures var marks := Reached(capacity, recvCap, es).marks;
      exists k :: i < k < j && marks[k] == Released(marks[i].pid)
  {
    InitialInv(capacity, recvCap);
    RunGood(Initial(capacity, recvCap), es);
    assert ReleasedBetween(Reached(capacity, recvCap, es).marks, i, j);
  }

  /** At most one QoS 2 PUBLISH is in flight, and every live one behind it is still unsent. */
  lemma OneQos2InFlight(capacity: nat, recvCap: nat, es: seq<Event>, i: nat, j: nat)
    requires capacity < DESC * PERIOD
    requires var q := Reached(capacity, recvCap, es).queue;
      i < |q| && j < |q| && i != j && LiveQos2(q[i]) && LiveQos2(q[j]) && q[i].state == AwaitingAck
    ensures i < j && Reached(capacity, recvCap, es).queue[j].state == Unsent
  {
    InitialInv(capacity, recvCap);
    RunGood(Initial(capacity, recvCap), es);
    var q := Reached(capacity, recvCap, es).queue;
    assert NoLiveBefore(q, i);
    assert q[j].state == AwaitingAck ==> NoLiveBefore(q, j);
  }

  /** Queued PUBLISH, SUBSCRIBE and UNSUBSCRIBE messages never share a packet id. */
  lemma IdsDistinct(capacity: nat, recvCap: nat, es: seq<Event>, i: nat, j: nat)
    requires capacity < DESC * PERIOD
    requires var q := Reached(capacity, recvCap, es).queue;
      i < j < |q| && HoldsId(q[i]) && HoldsId(q[j])
    ensures var q := Reached(capacity, recvCap, es).queue; q[i].pid != q[j].pid
  {
    InitialInv(capacity, recvCap);
    RunGood(Initial(capacity, recvCap), es);
  }

  /** Over any continuation of a run no message is lost, reordered or moved back in state, and
      only COMPLETE messages have been cleaned away. */
  lemma NothingLost(capacity: nat, recvCap: nat, before: seq<Event>, after: seq<Event>)
    requires capacity < DESC * PERIOD
    ensures var s, t := Reached(capacity, recvCap, before), Reached(capacity, recvCap, before + after);
      && |Whole(s)| <= |Whole(t)|
      && (forall i :: 0 <= i < |Whole(s)| ==> Later(Whole(s)[i], Whole(t)[i]))
      && (forall i :: 0 <= i < |t.gone| ==> t.gone[i].state == Complete)
  {
    InitialInv(capacity, recvCap);
    var s0 := Initial(capacity, recvCap);
    RunGood(s0, before);
    RunSplit(s0, before, after);
    RunGood(Run(s0, before), after);
  }

  lemma {:induction false} RunSplit(s: Session, a: seq<Event>, b: seq<Event>)
    requires Inv(s)
    ensures Inv(Run(s, a))
    ensures Run(s, a + b) == Run(Run(s, a), b)
    decreases |a|
  {
    hide Inv, StepOf, Good;
    RunGood(s, a);
    GoodInv(s, Run(s, a));
    if a == [] {
      assert a + b == b;
    } else {
      StepGood(s, a[0]);
      GoodInv(s, StepOf(s, a[0]));
      assert (a + b)[1..] == a[1..] + b;
      RunSplit(StepOf(s, a[0]), a[1..], b);
    }
  }

  /* ---- the byte streams of a run ---- */

  lemma InitialStreams(capacity: nat, recvCap: nat)
    requires capacity < DESC * PERIOD
    ensures var s := Initial(capacity, recvCap); Tidy(s.queue) && WireWhole(s) && InputInv(s.input) && !Hazard(s)
  {
    assert WireAt(Initial(capacity, recvCap), 0);
  }

  lemma ReachedStreams(capacity: nat, recvCap: nat, es: seq<Event>)
    requires capacity < DESC * PERIOD
    ensures var s := Reached(capacity, recvCap, es); Tidy(s.queue) && InputInv(s.input) && (!Hazard(s) ==> WireWhole(s))
  {
    hide Inv, Advances, Tidy, InputInv, WireWhole, Run;
    InitialInv(capacity, recvCap);
    InitialStreams(capacity, recvCap);
    RunGood(Initial(capacity, recvCap), es);
  }

  /** The wire is the first n registered packets and the written part of the next one. */
  ghost predicate WireIs(s: Session, n: nat)
    requires n <= |s.registered|
  {
    if n < |s.registered| then
      && s.sendOffset < |s.registered[n]|
      && s.wire == Concat(s.registered[..n]) + s.registered[n][..s.sendOffset]
    else s.sendOffset == 0 && s.wire == Concat(s.registered)
  }

  /** However sendall splits its writes and whenever cleaning runs, the bytes on the wire are
      the packets in the order of their registration, unless the run has seen a hazard. */
  lemma WireKeepsOrder(capacity: nat, recvCap: nat, es: seq<Event>) returns (n: nat)
    requires capacity < DESC * PERIOD && !Hazard(Reached(capacity, recvCap, es))
    ensures n <= |Reached(capacity, recvCap, es).registered|
    ensures WireIs(Reached(capacity, recvCap, es), n)
  {
    hide Reached, WireAt, WireIs, Tidy, InputInv;
    ReachedStreams(capacity, recvCap, es);
    var s := Reached(capacity, recvCap, es);
    var k: nat :| WireAt(s, k);
    n := |s.gone| + k;
    WireAtIs(s, k);
  }

  lemma WireAtIs(s: Session, k: nat)
    requires WireAt(s, k)
    ensures |s.gone| + k <= |s.registered| && WireIs(s, |s.gone| + k)
  {
    assert s.registered[..|s.registered|] == s.registered;
  }

  /** Consumed and buffered bytes are the received ones, and the responses handled are the
      first packets of the whole stream, however it was cut into reads. */
  lemma ReceivedIsParsed(capacity: nat, recvCap: nat, es: seq<Event>)
    requires capacity < DESC * PERIOD
    ensures var u := Reached(capacity, recvCap, es).input;
      && u.arrived == u.consumed + u.recv + u.inbox
      && ParseAll(u.arrived) == u.dispatched + ParseAll(u.recv + u.inbox)
  {
    hide Reached, ParseAll, Unpack;
    ReachedStreams(capacity, recvCap, es);
    var u := Reached(capacity, recvCap, es).input;
    ParsedIsPrefix(u.arrived, u.dispatched, |u.consumed|);
    assert u.arrived[|u.consumed|..] == u.recv + u.inbox;
  }

  lemma HandleFails(s: Session, r: Response)
    ensures Handle(s, r).1 || Handle(s, r).0.status.Some?
  {
    hide TryPack, Find, Finish;
  }

  /** A successful receive leaves no whole packet in the buffer, and room for more; one that fails leaves an error. */
  lemma {:induction false} RecvDrains(s: Session, pulls: seq<Pull>)
    requires |s.input.recv| <= s.input.cap
    ensures var (t, ok) := Recv(s, pulls);
      if ok then Unpack(t.input.recv).Short? && |t.input.recv| < t.input.cap else t.status.Some?
    decreases |pulls|, |s.input.recv|
  {
    hide Handle, Unpack, Take;
    var pull := if pulls == [] then UpTo(0) else pulls[0];
    var rest := if pulls == [] then [] else pulls[1..];
    if pull.PullFailed? {
      return;
    }
    var s1 := s.(input := Take(s.input, pull.n));
    TakeBound(s.input, pull.n);
    if Unpack(s1.input.recv).Got? {
      var r, n := Unpack(s1.input.recv).value, Unpack(s1.input.recv).size;
      UnpackSize(s1.input.recv);
      HandleKeepsInput(s1, r);
      HandleFails(s1, r);
      var s2 := Handle(s1, r).0;
      if pulls == [] {
        TakeNothing(s.input);
      }
      RecvDrains(s2.(input := Consume(s2.input, r, n)), rest);
    }
  }

  ghost predicate Drained(u: Input) {
    u.inbox == [] && Unpack(u.recv).Short?
  }

  /** Two runs that received the same bytes handled the same packets, whatever the chunks were. */
  lemma ChunkingIrrelevant(c1: nat, r1: nat, es1: seq<Event>, c2: nat, r2: nat, es2: seq<Event>)
    requires c1 < DESC * PERIOD && c2 < DESC * PERIOD
    requires var u, v := Reached(c1, r1, es1).input, Reached(c2, r2, es2).input;
      u.arrived == v.arrived && Drained(u) && Drained(v)
    ensures var u, v := Reached(c1, r1, es1).input, Reached(c2, r2, es2).input;
      u.dispatched == v.dispatched == ParseAll(u.arrived)
  {
    hide Reached, Unpack;
    ReceivedIsParsed(c1, r1, es1);
    ReceivedIsParsed(c2, r2, es2);
    var u, v := Reached(c1, r1, es1).input, Reached(c2, r2, es2).input;
    assert u.recv + u.inbox == u.recv && v.recv + v.inbox == v.recv;
    assert ParseAll(u.recv) == [] && ParseAll(v.recv) == [];
    assert u.dispatched + [] == u.dispatched && v.dispatched + [] == v.dispatched;
  }
}
