/** One pass of sending: which messages go out, as which bytes, and what becomes of them. */
module SessionSending {
  import opened Bytes
  import opened Words
  import opened Arena
  import opened MqttCodec
  import opened MessageQueue
  import opened Session
  import opened SessionInvariants

  /** The QoS in the first byte of a PUBLISH. */
  predicate IsPublish(m: Message, qos: nat) {
    m.control == 3 && (if m.packet == [] then 0 else (m.packet[0] as int / 2) % 4) == qos
  }

  /** The types that the client sends. */
  predicate Known(m: Message) {
    m.control in {1, 3, 4, 5, 6, 7, 8, 10, 12, 14}
  }

  /** A PUBLISH with QoS 2 that is on its way or waits to be sent. */
  predicate InFlight(m: Message) {
    IsPublish(m, 2) && m.state != Complete
  }

  /** Message i has not been sent, or its acknowledgement is overdue. */
  predicate Due(m: Message, late: bool) {
    m.state == Unsent || (m.state == AwaitingAck && late)
  }

  /** A PUBLISH with QoS 2 waits for those in front of it. */
  ghost predicate Held(q: seq<Message>, i: nat)
    requires i < |q|
  {
    InFlight(q[i]) && exists j :: 0 <= j < i && InFlight(q[j])
  }

  ghost predicate Goes(q: seq<Message>, i: nat, late: bool)
    requires i < |q|
  {
    Due(q[i], late) && !Held(q, i)
  }

  /** With the DUP flag, bit 3 of the first byte. */
  function Flagged(p: seq<byte>): seq<byte>
    requires p != []
  {
    [if (p[0] / 8) % 2 == 1 then p[0] else p[0] + 8] + p[1..]
  }

  /** Once sent, PUBACK, PUBCOMP, DISCONNECT and a PUBLISH with QoS 0 are complete; everything else awaits its
      acknowledgement, and a PUBLISH with QoS 1 bears the DUP flag should it be sent again. */
  function SentForm(m: Message): Message {
    if m.control == 4 || m.control == 7 || m.control == 14 || IsPublish(m, 0) then m.(state := Complete)
    else if IsPublish(m, 1) && m.packet != [] then m.(state := AwaitingAck, packet := Flagged(m.packet))
    else m.(state := AwaitingAck)
  }

  lemma DupIs(m: Message)
    requires m.packet != []
    ensures WithDup(m) == m.(packet := Flagged(m.packet))
  {
    assert m.packet == [m.packet[0]] + m.packet[1..];
  }

  lemma AfterSendIs(m: Message)
    ensures Known(m) ==> AfterSend(m) == Some(SentForm(m))
    ensures !Known(m) ==> AfterSend(m).None?
    ensures LiveQos2(m) <==> InFlight(m)
  {
    if m.packet != [] {
      DupIs(m.(state := AwaitingAck));
    }
    hide WithDup, Flagged;
  }

  /** What the pass does with one message. */
  lemma SendOneExact(s: Session, i: nat, inflight: bool, a: Attempt)
    requires i < |s.queue| && Known(s.queue[i])
    ensures var (t, verdict) := SendOne(s, i, inflight, a);
      var m := s.queue[i];
      var late := m.state == AwaitingAck && a.late;
      var from := if late then 0 else s.sendOffset;
      && t == s.(queue := t.queue, wire := t.wire, sendOffset := t.sendOffset, status := t.status, hazards := t.hazards)
      && if !Due(m, a.late) || (InFlight(m) && inflight) then
           verdict == Next && t.queue == s.queue && t.wire == s.wire && t.sendOffset == from && t.status == s.status
         else if a.outcome.Failed? then
           && verdict == Stop && t.queue == s.queue && t.wire == s.wire && t.sendOffset == from
           && t.status == Some(Socket(a.outcome.code))
         else if from + a.outcome.n < |m.packet| then
           && verdict == Partial && t.queue == s.queue && t.wire == s.wire + m.packet[from..from + a.outcome.n]
           && t.sendOffset == from + a.outcome.n && t.status == s.status
         else if from <= |m.packet| then
           && verdict == Next && t.queue == s.queue[i := SentForm(m)] && t.wire == s.wire + m.packet[from..]
           && t.sendOffset == 0 && t.status == s.status
         else true
  {
    AfterSendIs(s.queue[i]);
    hide AfterSend, LiveQos2, InFlight, Known, SentForm;
  }

  /** The packets that go out from message i on. */
  ghost function Outgoing(q: seq<Message>, i: nat, att: nat -> Attempt): seq<byte>
    requires i <= |q|
    decreases |q| - i
  {
    if i == |q| then [] else (if Goes(q, i, att(i).late) then q[i].packet else []) + Outgoing(q, i + 1, att)
  }

  /** The messages from i on after the pass. */
  ghost function AfterPass(q: seq<Message>, i: nat, att: nat -> Attempt): (r: seq<Message>)
    requires i <= |q|
    ensures |r| == |q| - i
    decreases |q| - i
  {
    if i == |q| then [] else [if Goes(q, i, att(i).late) then SentForm(q[i]) else q[i]] + AfterPass(q, i + 1, att)
  }

  /** The socket takes every packet whole. */
  ghost predicate Willing(q: seq<Message>, att: nat -> Attempt) {
    forall i: nat {:trigger att(i)} :: i < |q| ==> att(i).outcome.Sent? && att(i).outcome.n >= |q[i].packet|
  }

  /** One message of a pass with a willing socket. */
  lemma PassOne(s: Session, q: seq<Message>, i: nat, inflight: bool, att: nat -> Attempt)
    requires i < |q| == |s.queue| && s.sendOffset == 0 && s.queue[i] == q[i] && Known(q[i]) && Willing(q, att)
    requires inflight <==> exists j :: 0 <= j < i && InFlight(q[j])
    ensures var (t, verdict) := SendOne(s, i, inflight, att(i));
      var goes := Goes(q, i, att(i).late);
      && verdict == Next
      && t == s.(queue := s.queue[i := if goes then SentForm(q[i]) else q[i]],
                 wire := s.wire + (if goes then q[i].packet else []), hazards := t.hazards)
  {
    hide SendOne, SentForm, Known, InFlight;
    SendOneExact(s, i, inflight, att(i));
    var m := q[i];
    assert m.packet[0..] == m.packet;
    assert s.queue[i := m] == s.queue;
    assert s.wire + [] == s.wire;
  }

  lemma {:induction false} PassFrom(s: Session, q: seq<Message>, i: nat, inflight: bool, att: nat -> Attempt)
    requires i <= |q| == |s.queue| && s.sendOffset == 0 && s.queue[i..] == q[i..]
    requires Willing(q, att) && forall k :: 0 <= k < |q| ==> Known(q[k])
    requires inflight <==> exists j :: 0 <= j < i && InFlight(q[j])
    ensures var (t, stopped) := SendFrom(s, i, inflight, att);
      && !stopped && t.sendOffset == 0 && t.status == s.status
      && t == s.(queue := t.queue, wire := t.wire, hazards := t.hazards)
      && t.wire == s.wire + Outgoing(q, i, att)
      && t.queue == s.queue[..i] + AfterPass(q, i, att)
    decreases |q| - i
  {
    hide SendOne, SentForm, Known, InFlight, LiveQos2, Goes, Willing;
    if i == |q| {
      assert s.queue[..i] == s.queue;
      assert s.wire + [] == s.wire;
    } else {
      var m := q[i];
      assert s.queue[i] == s.queue[i..][0] == m;
      PassOne(s, q, i, inflight, att);
      AfterSendIs(m);
      var t := SendOne(s, i, inflight, att(i)).0;
      StillToCome(s.queue, t.queue, q, i, if Goes(q, i, att(i).late) then SentForm(m) else m);
      FlightSnoc(q, i);
      PassFrom(t, q, i + 1, inflight || LiveQos2(m), att);
      WireJoin(s.wire, if Goes(q, i, att(i).late) then m.packet else [], Outgoing(q, i + 1, att));
      OneGone(s.queue, t.queue, i, if Goes(q, i, att(i).late) then SentForm(m) else m, AfterPass(q, i + 1, att));
    }
  }

  lemma StillToCome(p: seq<Message>, r: seq<Message>, q: seq<Message>, i: nat, m: Message)
    requires i < |q| == |p| && p[i..] == q[i..] && r == p[i := m]
    ensures r[i + 1..] == q[i + 1..]
  {
    assert r[i + 1..] == p[i..][1..];
  }

  lemma WireJoin(a: seq<byte>, b: seq<byte>, c: seq<byte>)
    ensures a + b + c == a + (b + c)
  {}

  lemma FlightSnoc(q: seq<Message>, i: nat)
    requires i < |q|
    ensures (exists j :: 0 <= j < i + 1 && InFlight(q[j])) <==>
      (exists j :: 0 <= j < i && InFlight(q[j])) || InFlight(q[i])
  {
    hide InFlight;
  }

  lemma OneGone(q: seq<Message>, r: seq<Message>, i: nat, m: Message, rest: seq<Message>)
    requires i < |q| && r == q[i := m]
    ensures r[..i + 1] + rest == q[..i] + ([m] + rest)
  {
    assert r[..i + 1] == q[..i] + [m];
  }

  /** When nothing is half written and the socket takes every packet whole, one pass sends, in the order of the
      queue, exactly the messages that are due and not held back, and leaves all others as they are. */
  lemma PassExact(s: Session, att: nat -> Attempt, stale: Word)
    requires s.sendOffset == 0 && Willing(s.queue, att) && forall k :: 0 <= k < |s.queue| ==> Known(s.queue[k])
    requires s.status.None? || s.status == Some(SendBufferIsFull)
    ensures var t := Send(s, att, false, stale);
      && t.wire == s.wire + Outgoing(s.queue, 0, att)
      && |t.queue| == |s.queue|
      && (forall i :: 0 <= i < |s.queue| ==>
            t.queue[i] == if Goes(s.queue, i, att(i).late) then SentForm(s.queue[i]) else s.queue[i])
      && t == s.(queue := t.queue, wire := t.wire, hazards := t.hazards)
  {
    hide SendFrom, Goes, SentForm, Known, Outgoing;
    PassFrom(s, s.queue, 0, false, att);
    AfterPassAt(s.queue, 0, att);
  }

  lemma {:induction false} AfterPassAt(q: seq<Message>, i: nat, att: nat -> Attempt)
    requires i <= |q|
    ensures forall k :: i <= k < |q| ==>
      AfterPass(q, i, att)[k - i] == if Goes(q, k, att(k).late) then SentForm(q[k]) else q[k]
    decreases |q| - i
  {
    hide Goes, SentForm;
    if i < |q| {
      AfterPassAt(q, i + 1, att);
      forall k | i <= k < |q|
        ensures AfterPass(q, i, att)[k - i] == if Goes(q, k, att(k).late) then SentForm(q[k]) else q[k]
      {
        if k > i {
          assert AfterPass(q, i, att)[k - i] == AfterPass(q, i + 1, att)[k - (i + 1)];
        }
      }
    }
  }
}
