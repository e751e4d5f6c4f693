/** Over whole runs of the client: which packets from the broker reach the application, which acknowledgements are
    queued for them, and when a message counts as complete. */
module SessionDelivery {
  import opened Bytes
  import opened Words
  import opened Arena
  import opened MqttCodec
  import opened PacketIds
  import opened MessageQueue
  import opened Session
  import opened SessionInvariants
  import opened SessionSafety
  import opened SessionHandling

  /** A packet from the broker and the client at the moment when it handles it. */
  datatype Receipt = Receipt(before: Session, r: Response)

  /** The packets that a receive call handles. */
  ghost function RecvTrace(s: Session, pulls: seq<Pull>): seq<Receipt>
    requires |s.input.recv| <= s.input.cap
    decreases |pulls|, |s.input.recv|
  {
    var pull := if pulls == [] then UpTo(0) else pulls[0];
    var rest := if pulls == [] then [] else pulls[1..];
    if pull.PullFailed? then []
    else
      var s1 := s.(input := Take(s.input, pull.n));
      if !Unpack(s1.input.recv).Got? then []
      else
        var r, n := Unpack(s1.input.recv).value, Unpack(s1.input.recv).size;
        UnpackSize(s1.input.recv);
        var (s2, ok) := Handle(s1, r);
        HandleKeepsInput(s1, r);
        [Receipt(s1, r)] + if ok then RecvTrace(s2.(input := Consume(s2.input, r, n)), rest) else []
  }

  /** The packets that a run handles, in order. */
  ghost function Trace(s: Session, es: seq<Event>): seq<Receipt>
    requires Inv(s)
    decreases |es|
  {
    if es == [] then []
    else
      StepGood(s, es[0]);
      GoodInv(s, StepOf(s, es[0]));
      StepTrace(s, es[0]) + Trace(StepOf(s, es[0]), es[1..])
  }

  ghost function StepTrace(s: Session, e: Event): seq<Receipt>
    requires Inv(s)
  {
    InvInput(s);
    if e.DoRecv? then RecvTrace(s, e.pulls) else []
  }

  /* ---- what a packet brings about ---- */

  /** The packet is about something, and there is room for the answer if one is due. */
  ghost predicate Served(x: Receipt) {
    var s := x.before;
    var a := SubjectOf(s.queue, x.r);
    && !Unasked(s.queue, a)
    && (ReplyTo(s.queue, x.r).Some? ==>
          s.status.None? && exists q :: Settled(s.queue, q, a) && CanQueue(s.capacity, q, 4))
  }

  /** A PUBLISH that is served goes to the application, unless it has QoS 2 and a PUBREC with its id is queued. */
  ghost predicate Delivers(x: Receipt) {
    x.r.Publish? && Served(x) && !(x.r.qos == 2 && Holds(x.before.queue, 5, x.r.pid))
  }

  ghost function Responses(tr: seq<Receipt>): seq<Response> {
    if tr == [] then [] else [tr[0].r] + Responses(tr[1..])
  }

  ghost function Deliveries(tr: seq<Receipt>): seq<Response> {
    if tr == [] then [] else (if Delivers(tr[0]) then [tr[0].r] else []) + Deliveries(tr[1..])
  }

  /** The answer of type c to a packet, if it has one. */
  ghost function Reply(x: Receipt, c: nat): seq<seq<byte>>
    requires c < 16
  {
    if Served(x) && ReplyTo(x.before.queue, x.r) == Some(c) then [AckBytes(c, PidOf(x.r))] else []
  }

  ghost function Replies(tr: seq<Receipt>, c: nat): seq<seq<byte>>
    requires c < 16
  {
    if tr == [] then [] else Reply(tr[0], c) + Replies(tr[1..], c)
  }

  /** The packets of type c among the messages. */
  function PacketsOf(q: seq<Message>, c: nat): seq<seq<byte>> {
    if q == [] then [] else (if q[0].control as int == c then [q[0].packet] else []) + PacketsOf(q[1..], c)
  }

  /** Messages that are complete once they have been sent: PUBACK, PUBCOMP, DISCONNECT, and a PUBLISH with QoS 0. */
  predicate SelfComplete(m: Message) {
    m.control == 4 || m.control == 7 || m.control == 14 || (m.control == 3 && QosOf(m) == 0)
  }

  /** The packet acknowledges a message like this. */
  predicate Settles(x: Receipt, m: Message) {
    var a := SubjectOf(x.before.queue, x.r);
    a.Some? && m.control as int == a.value.control && (a.value.pid.Some? ==> m.pid == a.value.pid.value)
  }

  ghost predicate Closed(m: Message, tr: seq<Receipt>) {
    SelfComplete(m) || exists k :: 0 <= k < |tr| && Settles(tr[k], m)
  }

  predicate SameKind(m: Message, n: Message) {
    n.control == m.control && n.pid == m.pid && QosOf(n) == QosOf(m)
  }

  /** What has become complete has been closed. */
  ghost predicate Completes(a: seq<Message>, b: seq<Message>, tr: seq<Receipt>) {
    && |a| <= |b|
    && (forall i :: 0 <= i < |a| ==> SameKind(a[i], b[i]))
    && forall i :: 0 <= i < |b| && b[i].state == Complete ==> (i < |a| && a[i].state == Complete) || Closed(b[i], tr)
  }

  ghost predicate Answers(a: seq<Message>, b: seq<Message>, tr: seq<Receipt>) {
    forall c :: 4 <= c <= 7 ==> PacketsOf(b, c) == PacketsOf(a, c) + Replies(tr, c)
  }

  /** What the packets of a trace have brought about between two states. */
  ghost predicate Logged(s: Session, t: Session, tr: seq<Receipt>) {
    && t.input.dispatched == s.input.dispatched + Responses(tr)
    && t.delivered == s.delivered + Deliveries(tr)
    && Answers(Whole(s), Whole(t), tr)
    && Completes(Whole(s), Whole(t), tr)
  }

  /* ---- one after the other ---- */

  lemma {:induction false} ResponsesAppend(a: seq<Receipt>, b: seq<Receipt>)
    ensures Responses(a + b) == Responses(a) + Responses(b)
  {
    if a == [] {
      assert a + b == b;
    } else {
      assert (a + b)[1..] == a[1..] + b;
      ResponsesAppend(a[1..], b);
    }
  }

  lemma {:induction false} DeliveriesAppend(a: seq<Receipt>, b: seq<Receipt>)
    ensures Deliveries(a + b) == Deliveries(a) + Deliveries(b)
  {
    hide Delivers;
    if a == [] {
      assert a + b == b;
    } else {
      assert (a + b)[1..] == a[1..] + b;
      DeliveriesAppend(a[1..], b);
    }
  }

  lemma {:induction false} RepliesAppend(a: seq<Receipt>, b: seq<Receipt>, c: nat)
    requires c < 16
    ensures Replies(a + b, c) == Replies(a, c) + Replies(b, c)
  {
    hide Reply;
    if a == [] {
      assert a + b == b;
    } else {
      assert (a + b)[1..] == a[1..] + b;
      RepliesAppend(a[1..], b, c);
    }
  }

  lemma {:induction false} PacketsAppend(a: seq<Message>, b: seq<Message>, c: nat)
    ensures PacketsOf(a + b, c) == PacketsOf(a, c) + PacketsOf(b, c)
  {
    if a == [] {
      assert a + b == b;
    } else {
      assert (a + b)[1..] == a[1..] + b;
      PacketsAppend(a[1..], b, c);
    }
  }

  lemma ClosedStill(m: Message, n: Message, a: seq<Receipt>, tr: seq<Receipt>, b: seq<Receipt>)
    requires Closed(m, tr) && SameKind(m, n)
    ensures Closed(n, a + tr + b)
  {
    if !SelfComplete(m) {
      var k :| 0 <= k < |tr| && Settles(tr[k], m);
      assert (a + tr + b)[|a| + k] == tr[k];
      assert Settles((a + tr + b)[|a| + k], n);
    }
  }

  lemma CompletesTrans(p: seq<Message>, q: seq<Message>, r: seq<Message>, a: seq<Receipt>, b: seq<Receipt>)
    requires Completes(p, q, a) && Completes(q, r, b)
    ensures Completes(p, r, a + b)
  {
    hide Closed, QosOf;
    forall i | 0 <= i < |p|
      ensures SameKind(p[i], r[i])
    {
      assert SameKind(p[i], q[i]) && SameKind(q[i], r[i]);
    }
    forall i | 0 <= i < |r| && r[i].state == Complete
      ensures (i < |p| && p[i].state == Complete) || Closed(r[i], a + b)
    {
      if i < |q| && q[i].state == Complete {
        if Closed(q[i], a) {
          ClosedStill(q[i], r[i], [], a, b);
          assert [] + a + b == a + b;
        }
      } else {
        ClosedStill(r[i], r[i], a, b, []);
        assert a + b + [] == a + b;
      }
    }
  }

  lemma LoggedTrans(s: Session, t: Session, u: Session, a: seq<Receipt>, b: seq<Receipt>)
    requires Logged(s, t, a) && Logged(t, u, b)
    ensures Logged(s, u, a + b)
  {
    hide Completes;
    ResponsesAppend(a, b);
    DeliveriesAppend(a, b);
    CompletesTrans(Whole(s), Whole(t), Whole(u), a, b);
    forall c | 4 <= c <= 7
      ensures PacketsOf(Whole(u), c) == PacketsOf(Whole(s), c) + Replies(a + b, c)
    {
      RepliesAppend(a, b, c);
    }
  }

  /* ---- steps that handle no packet ---- */

  lemma LoggedSame(s: Session, t: Session)
    requires t.delivered == s.delivered && t.input.dispatched == s.input.dispatched && Whole(t) == Whole(s)
    ensures Logged(s, t, [])
  {
    hide PacketsOf, Closed;
  }

  /** A message is appended that is no acknowledgement. */
  lemma LoggedAppend(s: Session, t: Session, m: Message)
    requires t.delivered == s.delivered && t.input.dispatched == s.input.dispatched
    requires Whole(t) == Whole(s) + [m] && m.state != Complete && !(4 <= m.control <= 7)
    ensures Logged(s, t, [])
  {
    hide Closed;
    forall c | 4 <= c <= 7
      ensures PacketsOf(Whole(t), c) == PacketsOf(Whole(s), c) + Replies([], c)
    {
      PacketsAppend(Whole(s), [m], c);
      assert [m][1..] == [];
      assert PacketsOf([m], c) == [];
    }
  }

  lemma CleanWhole(s: Session)
    ensures Whole(Clean(s)) == Whole(s)
  {}

  lemma RequestLogged(s: Session, r: Request, pid: Word)
    requires !r.SendPub?
    ensures Logged(s, TryPack(s, r, pid), [])
  {
    hide TryPack, Logged, RoomOf, Clean;
    var base, bytes := TryPackCases(s, r, pid);
    var t := TryPack(s, r, pid);
    CleanWhole(s);
    CleanSides(s);
    if t.status.Some? && t == base.(status := t.status) {
      LoggedSame(s, t);
    } else {
      assert Whole(t) == Whole(s) + [Message(bytes, Unsent, ControlOf(r), pid)];
      LoggedAppend(s, t, Message(bytes, Unsent, ControlOf(r), pid));
    }
  }

  lemma CleanSides(s: Session)
    ensures Clean(s).delivered == s.delivered && Clean(s).input == s.input
  {}

  /** A pass of sending changes states, and the DUP flag of a PUBLISH. */
  predicate SentAs(m: Message, n: Message) {
    && SameKind(m, n) && (4 <= m.control <= 7 ==> n.packet == m.packet)
    && (n.state == Complete ==> m.state == Complete || SelfComplete(n))
  }

  ghost predicate Passed(s: Session, t: Session) {
    && t.delivered == s.delivered && t.input == s.input && t.gone == s.gone && |t.queue| == |s.queue|
    && forall i :: 0 <= i < |s.queue| ==> SentAs(s.queue[i], t.queue[i])
  }

  lemma AfterSendAs(m: Message)
    requires AfterSend(m).Some?
    ensures SentAs(m, AfterSend(m).value)
  {}

  lemma SentAsTrans(m: Message, n: Message, o: Message)
    requires SentAs(m, n) && SentAs(n, o)
    ensures SentAs(m, o)
  {
    hide QosOf;
  }

  lemma PassedTrans(s: Session, t: Session, u: Session)
    requires Passed(s, t) && Passed(t, u)
    ensures Passed(s, u)
  {
    hide SentAs;
    forall i | 0 <= i < |s.queue|
      ensures SentAs(s.queue[i], u.queue[i])
    {
      SentAsTrans(s.queue[i], t.queue[i], u.queue[i]);
    }
  }

  lemma SendOnePassed(s: Session, i: nat, inflight: bool, a: Attempt)
    requires i < |s.queue|
    ensures Passed(s, SendOne(s, i, inflight, a).0)
  {
    hide AfterSend, Written, LiveQos2, SentAs;
    forall m: Message
      ensures SentAs(m, m)
    {
      SentAsItself(m);
    }
    if AfterSend(s.queue[i]).Some? {
      AfterSendAs(s.queue[i]);
    }
  }

  lemma SentAsItself(m: Message)
    ensures SentAs(m, m)
  {}

  lemma {:induction false} SendFromPassed(s: Session, i: nat, inflight: bool, att: nat -> Attempt)
    ensures Passed(s, SendFrom(s, i, inflight, att).0)
    decreases |s.queue| - i
  {
    hide Passed, SendOne, LiveQos2;
    if i >= |s.queue| {
      PassedItself(s);
    } else {
      var (t, verdict) := SendOne(s, i, inflight, att(i));
      SendOnePassed(s, i, inflight, att(i));
      if verdict == Next {
        SendFromPassed(t, i + 1, inflight || LiveQos2(s.queue[i]), att);
        PassedTrans(s, t, SendFrom(t, i + 1, inflight || LiveQos2(s.queue[i]), att).0);
      }
    }
  }

  lemma PassedItself(s: Session)
    ensures Passed(s, s)
  {}

  lemma {:induction false} PacketsSame(a: seq<Message>, b: seq<Message>, c: nat)
    requires |a| == |b| && forall i :: 0 <= i < |a| ==> b[i].control == a[i].control
    requires forall i :: 0 <= i < |a| && a[i].control as int == c ==> b[i].packet == a[i].packet
    ensures PacketsOf(b, c) == PacketsOf(a, c)
  {
    if a != [] {
      PacketsSame(a[1..], b[1..], c);
    }
  }

  lemma PassedLogged(s: Session, t: Session)
    requires Passed(s, t)
    ensures Logged(s, t, [])
  {
    hide QosOf;
    var a, b := Whole(s), Whole(t);
    forall i | 0 <= i < |a|
      ensures SentAs(a[i], b[i])
    {
      SentAsItself(a[i]);
      if i >= |s.gone| {
        assert a[i] == s.queue[i - |s.gone|] && b[i] == t.queue[i - |s.gone|];
      }
    }
    forall c | 4 <= c <= 7
      ensures PacketsOf(b, c) == PacketsOf(a, c) + Replies([], c)
    {
      PacketsSame(a, b, c);
    }
  }

  lemma SendLogged(s: Session, att: nat -> Attempt, pingDue: bool, stale: Word)
    ensures Logged(s, Send(s, att, pingDue, stale), [])
  {
    hide Logged, SendFrom, TryPack, Passed;
    LoggedSame(s, s);
    SendFromPassed(s, 0, false, att);
    var t := SendFrom(s, 0, false, att).0;
    PassedLogged(s, t);
    RequestLogged(t, Request.Ping, stale);
    var none: seq<Receipt> := [];
    LoggedTrans(s, t, TryPack(t, Request.Ping, stale), none, none);
    assert none + none == none;
  }

  /* ---- handling a packet ---- */

  lemma SettledOnce(q: seq<Message>, r: seq<Message>, t: seq<Message>, a: Option<Subject>)
    requires Settled(q, r, a) && Settled(q, t, a)
    ensures r == t
  {
    if a.Some? {
      var i: nat :| IsFirst(q, a.value.control, a.value.pid, i) && r == q[i := q[i].(state := Complete)];
      var j: nat :| IsFirst(q, a.value.control, a.value.pid, j) && t == q[j := q[j].(state := Complete)];
      assert i == j;
    }
  }

  lemma ServedExact(x: Receipt, q: seq<Message>)
    requires var s := x.before; Settled(s.queue, q, SubjectOf(s.queue, x.r))
    requires !Unasked(x.before.queue, SubjectOf(x.before.queue, x.r))
    ensures var s := x.before;
      Served(x) <==> (ReplyTo(s.queue, x.r).Some? ==> s.status.None? && CanQueue(s.capacity, q, 4))
  {
    hide CanQueue, Settled, Unasked, Holds;
    var s := x.before;
    var a := SubjectOf(s.queue, x.r);
    forall p | Settled(s.queue, p, a)
      ensures p == q
    {
      SettledOnce(s.queue, p, q, a);
    }
  }

  /** Settling changes at most one message, which is closed then. */
  lemma SettledCompletes(gone: seq<Message>, q: seq<Message>, x: Receipt)
    requires var s := x.before; Settled(s.queue, q, SubjectOf(s.queue, x.r))
    ensures Completes(gone + x.before.queue, gone + q, [x])
    ensures forall c :: PacketsOf(gone + q, c) == PacketsOf(gone + x.before.queue, c)
  {
    hide PacketsOf, QosOf, SubjectOf, SelfComplete;
    var s := x.before;
    var a := SubjectOf(s.queue, x.r);
    if a.Some? {
      var k: nat :|
        IsFirst(s.queue, a.value.control, a.value.pid, k) && q == s.queue[k := s.queue[k].(state := Complete)];
      SameQos(s.queue[k]);
      assert [x][0] == x;
      assert Settles([x][0], q[k]);
      assert Closed((gone + q)[|gone| + k], [x]);
    }
    forall c
      ensures PacketsOf(gone + q, c) == PacketsOf(gone + s.queue, c)
    {
      PacketsSame(gone + s.queue, gone + q, c);
    }
  }

  lemma SameQos(m: Message)
    ensures QosOf(m.(state := Complete)) == QosOf(m)
  {}

  lemma ReplyIs(x: Receipt, c: nat)
    requires c < 16
    ensures Replies([x], c) == Reply(x, c)
  {
    hide Reply;
    assert [x][1..] == [];
    assert Reply(x, c) + [] == Reply(x, c);
  }

  /** The messages with what the packet settles, and then with its answer. */
  ghost predicate Extended(x: Receipt, all: seq<Message>, w: seq<Message>) {
    var s := x.before;
    && Completes(Whole(s), all, [x]) && (forall c :: PacketsOf(all, c) == PacketsOf(Whole(s), c))
    && if Served(x) && ReplyTo(s.queue, x.r).Some? then
         && ReplyTo(s.queue, x.r).value < 16
         && w == all + [AckMessage(ReplyTo(s.queue, x.r).value, PidOf(x.r))]
       else w == all
  }

  /** What is appended to the queue are the answers. */
  lemma AnswersAppended(s: Session, r: Response, all: seq<Message>, t: Session)
    requires Extended(Receipt(s, r), all, Whole(t))
    ensures Answers(Whole(s), Whole(t), [Receipt(s, r)])
  {
    hide Served, ReplyTo, AckBytes;
    var x := Receipt(s, r);
    forall c | 4 <= c <= 7
      ensures PacketsOf(Whole(t), c) == PacketsOf(Whole(s), c) + Replies([x], c)
    {
      ReplyIs(x, c);
      if Served(x) && ReplyTo(s.queue, r).Some? {
        var m := AckMessage(ReplyTo(s.queue, r).value, PidOf(r));
        PacketsAppend(all, [m], c);
        PacketOne(m, c);
      }
    }
  }

  lemma PacketOne(m: Message, c: nat)
    ensures PacketsOf([m], c) == if m.control as int == c then [m.packet] else []
  {
    assert [m][1..] == [];
  }

  lemma CompletesAppend(a: seq<Message>, b: seq<Message>, m: Message, tr: seq<Receipt>)
    requires Completes(a, b, tr) && m.state != Complete
    ensures Completes(a, b + [m], tr)
  {
    hide Closed, SameKind;
  }

  lemma DeliveryIs(x: Receipt)
    ensures Deliveries([x]) == if Delivers(x) then [x.r] else []
    ensures Responses([x]) == [x.r]
  {
    hide Delivers;
    assert [x][1..] == [];
  }

  lemma HandleServed(s: Session, r: Response)
    requires ValidResponse(r)
    ensures var (t, ok), x := Handle(s, r), Receipt(s, r);
      && (HandedOver(s.queue, r, ok) <==> Delivers(x))
      && exists all: seq<Message> :: Extended(x, all, Whole(t))
  {
    HandleConforms(s, r);
    var (t, ok) := Handle(s, r);
    var x := Receipt(s, r);
    var a := SubjectOf(s.queue, r);
    hide Handle, CanQueue, Settled, Unasked, PacketsOf, Completes, AckMessage, Holds;
    if Unasked(s.queue, a) {
      NothingCompletes(Whole(s), [x]);
      assert Extended(x, Whole(s), Whole(t));
    } else {
      var q :| Settled(s.queue, q, a) && Answered(s, q, r, t, ok);
      ServedExact(x, q);
      SettledCompletes(s.gone, q, x);
      hide Served;
      assert Extended(x, s.gone + q, Whole(t));
    }
  }

  lemma NothingCompletes(q: seq<Message>, tr: seq<Receipt>)
    ensures Completes(q, q, tr)
  {
    hide Closed, QosOf;
  }

  lemma HandleLogged(s: Session, r: Response, t: Session)
    requires ValidResponse(r)
    requires var h := Handle(s, r).0; h.input == s.input && t == h.(input := t.input)
    requires t.input.dispatched == s.input.dispatched + [r]
    ensures Logged(s, t, [Receipt(s, r)])
  {
    HandleConforms(s, r);
    HandleServed(s, r);
    var x := Receipt(s, r);
    hide Handle, Served, Delivers, ReplyTo, PacketsOf, Completes, AckMessage, HandedOver, Answers;
    DeliveryIs(x);
    assert Whole(t) == Whole(Handle(s, r).0);
    var all: seq<Message> :| Extended(x, all, Whole(t));
    AnswersAppended(s, r, all, t);
    if Served(x) && ReplyTo(s.queue, r).Some? {
      AckUnsent(ReplyTo(s.queue, r).value, PidOf(r));
      CompletesAppend(Whole(s), all, AckMessage(ReplyTo(s.queue, r).value, PidOf(r)), [x]);
    }
  }

  lemma AckUnsent(control: nat, pid: Word)
    requires control < 16
    ensures AckMessage(control, pid).state == Unsent
  {}

  /* ---- runs ---- */

  lemma InputLogged(s: Session, u: Input)
    requires u.dispatched == s.input.dispatched
    ensures Logged(s, s.(input := u), [])
  {
    hide Logged;
    LoggedSame(s, s.(input := u));
  }

  lemma {:induction false} RecvLogged(s: Session, pulls: seq<Pull>)
    requires |s.input.recv| <= s.input.cap
    ensures Logged(s, Recv(s, pulls).0, RecvTrace(s, pulls))
    decreases |pulls|, |s.input.recv|
  {
    hide Handle, Unpack, Logged;
    var pull := if pulls == [] then UpTo(0) else pulls[0];
    var rest := if pulls == [] then [] else pulls[1..];
    if pull.PullFailed? {
      LoggedSame(s, Fail(s, Socket(pull.code)).0);
    } else {
      var s1 := s.(input := Take(s.input, pull.n));
      TakeBound(s.input, pull.n);
      InputLogged(s, Take(s.input, pull.n));
      match Unpack(s1.input.recv)
      case Bad(e) => LoggedSame(s, Fail(s1, e).0);
      case Short =>
        LoggedSame(s, s1);
        LoggedSame(s, Fail(s1, RecvBufferTooSmall).0);
      case Got(r, n) =>
        UnpackSize(s1.input.recv);
        UnpackValid(s1.input.recv);
        HandleKeepsInput(s1, r);
        var (s2, ok) := Handle(s1, r);
        var s3 := s2.(input := Consume(s2.input, r, n));
        HandleLogged(s1, r, s3);
        var none: seq<Receipt> := [];
        LoggedTrans(s, s1, s3, none, [Receipt(s1, r)]);
        assert none + [Receipt(s1, r)] == [Receipt(s1, r)];
        if ok {
          if pulls == [] {
            TakeNothing(s.input);
          }
          RecvLogged(s3, rest);
          LoggedTrans(s, s3, Recv(s3, rest).0, [Receipt(s1, r)], RecvTrace(s3, rest));
        } else {
          assert [Receipt(s1, r)] + none == [Receipt(s1, r)];
        }
    }
  }

  lemma StepLogged(s: Session, e: Event)
    requires Inv(s)
    ensures Logged(s, StepOf(s, e), StepTrace(s, e))
  {
    hide Inv, TryPack, Logged, Send, Recv, RecvTrace, Fits;
    InvFits(s);
    var none: seq<Receipt> := [];
    match e
    case DoConnect(built, stale) =>
      var u := if s.status == Some(ConnectNotCalled) then s.(status := None) else s;
      LoggedSame(s, u);
      RequestLogged(u, Connect(built), stale);
      LoggedTrans(s, u, TryPack(u, Connect(built), stale), none, none);
      assert none + none == none;
    case DoPublish(topic, payload, flags) => NewIdLogged(s, SendPublish(topic, payload, flags));
    case DoSubscribe(topic, qos) => NewIdLogged(s, Subscribe(topic, qos));
    case DoUnsubscribe(topic) => NewIdLogged(s, Unsubscribe(topic));
    case DoPing(stale) => RequestLogged(s, Request.Ping, stale);
    case DoDisconnect(stale) => RequestLogged(s, Disconnect, stale);
    case DoSend(att, pingDue, stale) => SendLogged(s, att, pingDue, stale);
    case DoRecv(pulls) =>
      InvInput(s);
      RecvLogged(s, pulls);
    case Arrive(bytes) =>
      InputLogged(s, s.input.(inbox := s.input.inbox + bytes, arrived := s.input.arrived + bytes));
  }

  lemma NewIdLogged(s: Session, r: Request)
    requires |s.queue| < PERIOD && !r.SendPub?
    ensures Logged(s, WithNewId(s, r), [])
  {
    hide TryPack, Logged;
    var pid := NextId(s.lfsr, Ids(s.queue));
    var u := s.(lfsr := pid);
    LoggedSame(s, u);
    RequestLogged(u, r, pid);
    var none: seq<Receipt> := [];
    LoggedTrans(s, u, TryPack(u, r, pid), none, none);
    assert none + none == none;
  }

  lemma {:induction false} RunLogged(s: Session, es: seq<Event>)
    requires Inv(s)
    ensures Logged(s, Run(s, es), Trace(s, es))
    decreases |es|
  {
    hide Inv, StepOf, Good, Logged, StepTrace;
    if es == [] {
      LoggedSame(s, s);
    } else {
      StepGood(s, es[0]);
      GoodInv(s, StepOf(s, es[0]));
      StepLogged(s, es[0]);
      var t := StepOf(s, es[0]);
      RunLogged(t, es[1..]);
      LoggedTrans(s, t, Run(t, es[1..]), StepTrace(s, es[0]), Trace(t, es[1..]));
    }
  }

  /* ---- main results over every run from a fresh client ---- */

  ghost function ReachedTrace(capacity: nat, recvCap: nat, es: seq<Event>): seq<Receipt>
    requires capacity < DESC * PERIOD
  {
    InitialInv(capacity, recvCap);
    Trace(Initial(capacity, recvCap), es)
  }

  /** The application has been given exactly the PUBLISH packets that were to be delivered when they were handled,
      in their order; and the trace is all that has been handled. */
  lemma DeliveredExactly(capacity: nat, recvCap: nat, es: seq<Event>)
    requires capacity < DESC * PERIOD
    ensures var t, tr := Reached(capacity, recvCap, es), ReachedTrace(capacity, recvCap, es);
      t.delivered == Deliveries(tr) && t.input.dispatched == Responses(tr)
  {
    hide Run, Trace, Inv;
    InitialInv(capacity, recvCap);
    RunLogged(Initial(capacity, recvCap), es);
  }

  /** The acknowledgements ever queued are exactly the answers due, in their order, byte by byte. */
  lemma AnsweredExactly(capacity: nat, recvCap: nat, es: seq<Event>, c: nat)
    requires capacity < DESC * PERIOD && 4 <= c <= 7
    ensures PacketsOf(Whole(Reached(capacity, recvCap, es)), c) == Replies(ReachedTrace(capacity, recvCap, es), c)
  {
    hide Run, Trace, Inv;
    InitialInv(capacity, recvCap);
    RunLogged(Initial(capacity, recvCap), es);
  }

  /** A message is complete only if it needs no acknowledgement or has been acknowledged by a packet for it. */
  lemma CompleteIsClosed(capacity: nat, recvCap: nat, es: seq<Event>, i: nat)
    requires capacity < DESC * PERIOD
    requires var w := Whole(Reached(capacity, recvCap, es)); i < |w| && w[i].state == Complete
    ensures Closed(Whole(Reached(capacity, recvCap, es))[i], ReachedTrace(capacity, recvCap, es))
  {
    hide Run, Trace, Inv;
    InitialInv(capacity, recvCap);
    RunLogged(Initial(capacity, recvCap), es);
  }

  /* ---- the PUBLISH packets ---- */

  /** The PUBLISH packets with these levels of QoS. */
  function WithQos(rs: seq<Response>, qos: set<nat>): seq<Response> {
    if rs == [] then [] else (if rs[0].Publish? && rs[0].qos in qos then [rs[0]] else []) + WithQos(rs[1..], qos)
  }

  /** An acknowledgement of type c for every packet. */
  function AcksFor(rs: seq<Response>, c: nat): seq<seq<byte>>
    requires c < 16
  {
    if rs == [] then [] else [AckBytes(c, PidOf(rs[0]))] + AcksFor(rs[1..], c)
  }

  /** Every PUBLISH could be answered when it was handled: the client was not in an error state and had room. */
  ghost predicate AllServed(tr: seq<Receipt>) {
    forall k :: 0 <= k < |tr| && tr[k].r.Publish? ==> Served(tr[k])
  }

  lemma {:induction false} WithQosAppend(a: seq<Response>, b: seq<Response>, qos: set<nat>)
    ensures WithQos(a + b, qos) == WithQos(a, qos) + WithQos(b, qos)
  {
    if a == [] {
      assert a + b == b;
    } else {
      assert (a + b)[1..] == a[1..] + b;
      WithQosAppend(a[1..], b, qos);
    }
  }

  lemma WithQosOne(r: Response, qos: set<nat>)
    ensures WithQos([r], qos) == if r.Publish? && r.qos in qos then [r] else []
    ensures WithQos([], qos) == []
  {
    assert [r][1..] == [];
  }

  lemma {:induction false} AllDelivered(tr: seq<Receipt>, qos: set<nat>)
    requires AllServed(tr) && 2 !in qos
    ensures WithQos(Deliveries(tr), qos) == WithQos(Responses(tr), qos)
  {
    hide Served;
    if tr != [] {
      AllDelivered(tr[1..], qos);
      var d := if Delivers(tr[0]) then [tr[0].r] else [];
      WithQosAppend(d, Deliveries(tr[1..]), qos);
      WithQosOne(tr[0].r, qos);
    }
  }

  /** As long as every PUBLISH could be answered, every one with QoS 0 or 1 that has arrived has been given to the
      application, once and in order. */
  lemma NoneMissed(capacity: nat, recvCap: nat, es: seq<Event>)
    requires capacity < DESC * PERIOD && AllServed(ReachedTrace(capacity, recvCap, es))
    ensures var t := Reached(capacity, recvCap, es); WithQos(t.delivered, {0, 1}) == WithQos(t.input.dispatched, {0, 1})
  {
    hide Reached, ReachedTrace, AllServed;
    DeliveredExactly(capacity, recvCap, es);
    AllDelivered(ReachedTrace(capacity, recvCap, es), {0, 1});
  }

  lemma {:induction false} AcksAppend(a: seq<Response>, b: seq<Response>, c: nat)
    requires c < 16
    ensures AcksFor(a + b, c) == AcksFor(a, c) + AcksFor(b, c)
  {
    hide AckBytes;
    if a == [] {
      assert a + b == b;
    } else {
      assert (a + b)[1..] == a[1..] + b;
      AcksAppend(a[1..], b, c);
    }
  }

  lemma ReplyFor(x: Receipt, qos: nat)
    requires qos == 1 || qos == 2
    ensures var d := if Delivers(x) then [x.r] else [];
      Reply(x, qos + 3) == AcksFor(WithQos(d, {qos}), qos + 3)
  {
    hide Served, AckBytes;
    WithQosOne(x.r, {qos});
    assert [x.r][1..] == [];
  }

  lemma {:induction false} RepliesFor(tr: seq<Receipt>, qos: nat)
    requires qos == 1 || qos == 2
    ensures Replies(tr, qos + 3) == AcksFor(WithQos(Deliveries(tr), {qos}), qos + 3)
  {
    hide Delivers, Reply, AckBytes;
    if tr != [] {
      RepliesFor(tr[1..], qos);
      var d := if Delivers(tr[0]) then [tr[0].r] else [];
      ReplyFor(tr[0], qos);
      WithQosAppend(d, Deliveries(tr[1..]), {qos});
      AcksAppend(WithQos(d, {qos}), WithQos(Deliveries(tr[1..]), {qos}), qos + 3);
    }
  }

  /** The client has queued one PUBACK for each QoS 1 PUBLISH that it has given to the application, one PUBREC for each
      with QoS 2, in their order and with their ids, and no others. */
  lemma OneAckEach(capacity: nat, recvCap: nat, es: seq<Event>, qos: nat)
    requires capacity < DESC * PERIOD && (qos == 1 || qos == 2)
    ensures var t := Reached(capacity, recvCap, es);
      PacketsOf(Whole(t), if qos == 1 then 4 else 5) == AcksFor(WithQos(t.delivered, {qos}), if qos == 1 then 4 else 5)
  {
    hide Reached, ReachedTrace, AckBytes;
    DeliveredExactly(capacity, recvCap, es);
    AnsweredExactly(capacity, recvCap, es, qos + 3);
    RepliesFor(ReachedTrace(capacity, recvCap, es), qos);
  }
}
