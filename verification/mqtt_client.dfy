/** The MQTT client as it works in place: each method does to its memory what the session
    machine does to its values. */
module MqttClient {
  import opened Bytes
  import opened Words
  import opened Arena
  import opened MqttCodec
  import opened MqttHeaders
  import opened PacketIds
  import opened MessageQueue
  import S = Session

  class Client {
    const mq: Queue
    const recvBuf: array<byte>
    /** Bytes received and not yet parsed. */
    var recvLen: nat
    var sendOffset: nat
    var lfsr: Word
    var status: Option<Error>
    /** Bytes waiting in the socket. */
    var inbox: seq<byte>
    /** The history fields of the session. */
    ghost var past: S.Session

    ghost predicate Valid()
      reads this, mq, mq.mem, recvBuf
    {
      mq.Valid() && recvLen <= recvBuf.Length
    }

    ghost function View(): S.Session
      reads this, mq, mq.mem, recvBuf
      requires Valid()
    {
      past.(capacity := mq.mem.Length, queue := mq.messages, sendOffset := sendOffset, lfsr := lfsr, status := status,
            input := past.input.(cap := recvBuf.Length, recv := recvBuf[..recvLen], inbox := inbox))
    }

    constructor (mem: array<Cell>, recvBuf: array<byte>)
      ensures Valid() && fresh(mq) && mq.mem == mem && this.recvBuf == recvBuf
      ensures View() == S.Initial(mem.Length, recvBuf.Length)
    {
      mq := new Queue(mem);
      this.recvBuf := recvBuf;
      recvLen, sendOffset, lfsr := 0, 0, 0;
      status, inbox := Some(ConnectNotCalled), [];
      past := S.Initial(0, 0);
    }

    /* ---- queueing ---- */

    /** Copy bytes into the free room, offset bytes behind its beginning. */
    method WriteBytes(offset: nat, bytes: seq<byte>)
      requires Valid() && offset + |bytes| <= mq.currSz
      modifies mq.mem
      ensures Valid() && View() == old(View())
      ensures BytesAt(mq.mem[..], mq.curr + offset, bytes)
      ensures forall j :: 0 <= j < mq.curr + offset ==> mq.mem[j] == old(mq.mem[j])
    {
      var i := 0;
      var at := mq.curr + offset;
      while i < |bytes|
        invariant 0 <= i <= |bytes|
        invariant mq.Valid()
        invariant forall j :: at <= j < at + i ==> mq.mem[j] == Data(bytes[j - at])
        invariant forall j :: 0 <= j < at ==> mq.mem[j] == old(mq.mem[j])
      {
        mq.Put(at + i, bytes[i]);
        i := i + 1;
      }
    }

    /** Write the fixed header of a request into the free room. */
    method PackHeaderAt(h: FixedHeader) returns (size: nat, error: Option<Error>)
      requires Valid()
      modifies mq.mem
      ensures Valid() && View() == old(View())
      ensures match PackHeader(mq.currSz, h)
              case Refused(e) => error == Some(e)
              case NoRoom => error == None && size == 0
              case Ready(b) => error == None && size == |b| && BytesAt(mq.mem[..], mq.curr, b)
    {
      hide PackHeader, Flat;
      ghost var m := mq.mem[..];
      size, error := PackFixedHeader(mq.mem, mq.curr, mq.currSz, h);
      RoomLayout(m, mq.mem[..], mq.messages);
    }

    /** Pack a request behind the queued packets: its size, 0 if there is no room for it, or an error. */
    method PackRequest(r: S.Request, pid: Word) returns (size: nat, error: Option<Error>)
      requires Valid()
      modifies mq.mem
      ensures Valid() && View() == old(View())
      ensures match S.Pack(r, pid, mq.currSz)
              case Refused(e) => error == Some(e)
              case NoRoom => error == None && size == 0
              case Ready(b) => error == None && size == |b| && BytesAt(mq.mem[..], mq.curr, b)
    {
      size, error := 0, None;
      if r.Connect? {
        size, error := PackConnect(r.built);
        return;
      }
      hide PackHeader, EncodeHeader, S.Pack, S.HeaderOf, S.BodyOf, BytesAt;
      S.PackIs(r, pid, mq.currSz);
      if r.SendPublish? && Qos(r.flags) == 3 {
        error := Some(ForbiddenQos);
        return;
      }
      var h := S.HeaderOf(r);
      S.PackHeaderIs(mq.currSz, h);
      size, error := PackHeaderAt(h);
      if error.Some? || size == 0 {
        return;
      }
      var body := S.BodyOf(r, pid);
      AppendBytes(EncodeHeader(h), size, body);
      size := size + |body|;
    }

    method AppendBytes(ghost front: seq<byte>, size: nat, body: seq<byte>)
      requires Valid() && size == |front| && size + |body| <= mq.currSz && BytesAt(mq.mem[..], mq.curr, front)
      modifies mq.mem
      ensures Valid() && View() == old(View()) && BytesAt(mq.mem[..], mq.curr, front + body)
    {
      ghost var m := mq.mem[..];
      WriteBytes(size, body);
      BytesJoined(m, mq.mem[..], mq.curr, front, body);
    }

    /** The CONNECT packet is built elsewhere. */
    method PackConnect(built: S.Built) returns (size: nat, error: Option<Error>)
      requires Valid()
      modifies mq.mem
      ensures Valid() && View() == old(View())
      ensures match S.Pack(S.Connect(built), 0, mq.currSz)
              case Refused(e) => error == Some(e)
              case NoRoom => error == None && size == 0
              case Ready(b) => error == None && size == |b| && BytesAt(mq.mem[..], mq.curr, b)
    {
      size, error := 0, None;
      match built
      case BuildFailed(c) => error := Some(Packer(c));
      case Built(b) =>
        if 0 < |b| <= mq.currSz {
          WriteBytes(0, b);
          size := |b|;
        }
    }

    method Register(control: Nibble, pid: Word, size: nat, ghost packet: seq<byte>)
      requires Valid() && 0 < size == |packet| <= mq.currSz && BytesAt(mq.mem[..], mq.curr, packet)
      modifies this, mq, mq.mem
      ensures Valid() && View() == S.Register(old(View()), control, pid, packet)
    {
      mq.Register(size, control, pid, packet);
      past := past.(registered := past.registered + [packet]);
    }

    method Clean()
      requires Valid()
      modifies this, mq, mq.mem
      ensures Valid() && View() == S.Clean(old(View()))
    {
      past := past.(gone := past.gone + mq.messages[..CompletePrefix(mq.messages)]);
      mq.Clean();
    }

    method TryPack(r: S.Request, pid: Word)
      requires Valid()
      modifies this, mq, mq.mem
      ensures Valid() && View() == S.TryPack(old(View()), r, pid)
    {
      hide S.Pack, S.Clean, S.Register, Room, BytesAt;
      if status.Some? {
        return;
      }
      S.PackFits(r, pid, mq.currSz);
      var size, error := PackRequest(r, pid);
      if error.None? && size == 0 {
        Clean();
        S.PackFits(r, pid, mq.currSz);
        size, error := PackRequest(r, pid);
      }
      if error.Some? {
        status := error;
      } else if size == 0 {
        status := Some(SendBufferIsFull);
      } else {
        Register(S.ControlOf(r), pid, size, S.Pack(r, pid, mq.currSz).bytes);
      }
    }

    /** Shift the register until it holds an id that no queued message has. */
    method ShiftToFree()
      requires mq.Valid() && |mq.messages| < PERIOD
      modifies this`lfsr
      ensures lfsr == NextId(old(lfsr), S.Ids(mq.messages))
    {
      hide Iterate, Shift, S.Ids, FirstFree, NextId, Queue.Valid;
      ghost var ids := S.Ids(mq.messages);
      if lfsr == 0 {
        lfsr := 163;
      }
      ghost var x, n := lfsr, 0;
      IterateStart(x);
      FreeExists(x, ids);
      ghost var stop: nat :| stop <= |ids| + 1 && FirstFree(x, ids, stop);
      FirstFreeAt(x, ids, stop, stop);
      NextIdIs(old(lfsr), ids, stop);
      var taken := true;
      while taken
        invariant lfsr == Iterate(n, x)
        invariant taken <==> n < stop
        invariant n <= stop
        decreases stop - n
      {
        lfsr := Shift(lfsr);
        n := n + 1;
        IterateNext(n, x);
        FirstFreeAt(x, ids, stop, n);
        taken := Holds(lfsr);
      }
    }

    method NextPid() returns (pid: Word)
      requires Valid() && |mq.messages| < PERIOD
      modifies this
      ensures Valid() && pid == NextId(old(lfsr), S.Ids(mq.messages))
      ensures View() == old(View()).(lfsr := pid)
    {
      ShiftToFree();
      pid := lfsr;
    }

    method Holds(pid: Word) returns (found: bool)
      requires mq.Valid()
      ensures found <==> pid in S.Ids(mq.messages)
    {
      found := false;
      var i := 0;
      while i < mq.tail
        invariant 0 <= i <= mq.tail
        invariant forall j :: 0 <= j < i ==> mq.messages[j].pid != pid
      {
        var d := mq.Get(i);
        if d.pid == pid {
          assert S.Ids(mq.messages)[i] == pid;
          found := true;
          return;
        }
        i := i + 1;
      }
    }

    /* ---- calls of the application ---- */

    method Connect(built: S.Built, stale: Word)
      requires Valid()
      modifies this, mq, mq.mem
      ensures Valid()
      ensures S.Fits(old(View())) ==> View() == S.Step(old(View()), S.DoConnect(built, stale))
    {
      hide S.TryPack;
      if status == Some(ConnectNotCalled) {
        status := None;
      }
      TryPack(S.Connect(built), stale);
    }

    method WithNewId(r: S.Request)
      requires Valid() && |mq.messages| < PERIOD
      modifies this, mq, mq.mem
      ensures Valid() && View() == S.WithNewId(old(View()), r)
    {
      hide S.TryPack, S.Ids;
      var pid := NextPid();
      TryPack(r, pid);
    }

    method Publish(topic: seq<byte>, payload: seq<byte>, flags: Nibble)
      requires Valid() && S.Fits(View())
      modifies this, mq, mq.mem
      ensures Valid() && View() == S.Step(old(View()), S.DoPublish(topic, payload, flags))
    {
      hide S.WithNewId;
      WithNewId(S.SendPublish(topic, payload, flags));
    }

    method Subscribe(topic: seq<byte>, qos: byte)
      requires Valid() && S.Fits(View())
      modifies this, mq, mq.mem
      ensures Valid() && View() == S.Step(old(View()), S.DoSubscribe(topic, qos))
    {
      hide S.WithNewId;
      WithNewId(S.Subscribe(topic, qos));
    }

    method Unsubscribe(topic: seq<byte>)
      requires Valid() && S.Fits(View())
      modifies this, mq, mq.mem
      ensures Valid() && View() == S.Step(old(View()), S.DoUnsubscribe(topic))
    {
      hide S.WithNewId;
      WithNewId(S.Unsubscribe(topic));
    }

    method Ping(stale: Word)
      requires Valid() && S.Fits(View())
      modifies this, mq, mq.mem
      ensures Valid() && View() == S.Step(old(View()), S.DoPing(stale))
    {
      hide S.TryPack;
      TryPack(S.Request.Ping, stale);
    }

    method Disconnect(stale: Word)
      requires Valid() && S.Fits(View())
      modifies this, mq, mq.mem
      ensures Valid() && View() == S.Step(old(View()), S.DoDisconnect(stale))
    {
      hide S.TryPack;
      TryPack(S.Disconnect, stale);
    }

    /* ---- sending ---- */

    /** Read packet bytes back from memory. */
    method ReadBytes(k: nat, from: nat, to: nat) returns (chunk: seq<byte>)
      requires Valid() && k < |mq.messages| && from <= to <= |mq.messages[k].packet|
      ensures chunk == mq.messages[k].packet[from..to]
    {
      var d := mq.Get(k);
      FlatSlice(mq.messages, k);
      ghost var p := mq.messages[k].packet;
      assert p == Flat(mq.messages)[d.start..d.start + d.size];
      chunk := [];
      var i := from;
      while i < to
        invariant from <= i <= to
        invariant chunk == p[from..i]
      {
        assert mq.mem[..][d.start + i] == Data(Flat(mq.messages)[d.start + i]);
        assert p[i] == Flat(mq.messages)[d.start + i];
        chunk := chunk + [mq.mem[d.start + i].b];
        i := i + 1;
      }
    }

    method QosOf(k: nat) returns (qos: nat)
      requires Valid() && k < |mq.messages|
      ensures qos == S.QosOf(mq.messages[k])
    {
      var d := mq.Get(k);
      if d.size == 0 {
        qos := 0;
      } else {
        var b := ReadBytes(k, 0, 1);
        qos := (b[0] / 2) % 4;
      }
    }

    /** The state, and the DUP flag, of a message that has been written out. */
    method MarkSent(k: nat) returns (known: bool)
      requires Valid() && k < |mq.messages|
      modifies this, mq, mq.mem
      ensures Valid() && known == S.AfterSend(old(mq.messages)[k]).Some?
      ensures known ==> View() == old(View()).(queue := old(mq.messages)[k := S.AfterSend(old(mq.messages)[k]).value])
      ensures !known ==> View() == old(View())
    {
      var d := mq.Get(k);
      ghost var m := mq.messages[k];
      assert d.control == m.control && d.size == |m.packet|;
      var qos := QosOf(k);
      known := true;
      hide Layout, Flat, Start, DescriptorOf, DupByte;
      if d.control == PUBACK || d.control == PUBCOMP || d.control == DISCONNECT {
        mq.SetState(k, Complete);
      } else if d.control == PUBLISH {
        if qos == 0 {
          mq.SetState(k, Complete);
        } else {
          mq.SetState(k, AwaitingAck);
          if qos == 1 && d.size > 0 {
            mq.SetDup(k);
          }
        }
      } else if d.control == CONNECT || d.control == PUBREC || d.control == PUBREL || d.control == SUBSCRIBE
                || d.control == UNSUBSCRIBE || d.control == PINGREQ {
        mq.SetState(k, AwaitingAck);
      } else {
        known := false;
      }
    }

    method Write(k: nat, a: S.Attempt) returns (verdict: S.Verdict)
      requires Valid() && k < |mq.messages|
      modifies this, mq, mq.mem
      ensures Valid() && (View(), verdict) == S.Write(old(View()), k, a)
    {
      hide S.AfterSend, Layout, Flat, Start;
      ghost var v := View();
      if a.outcome.Failed? {
        status := Some(Socket(a.outcome.code));
        return S.Stop;
      }
      var d := mq.Get(k);
      var chunk := a.stray;
      if sendOffset <= d.size {
        var end := if sendOffset + a.outcome.n <= d.size then sendOffset + a.outcome.n else d.size;
        chunk := ReadBytes(k, sendOffset, end);
      }
      past := past.(wire := past.wire + chunk);
      sendOffset := sendOffset + |chunk|;
      assert View() == v.(wire := v.wire + chunk, sendOffset := v.sendOffset + |chunk|);
      if sendOffset < d.size {
        return S.Partial;
      }
      sendOffset := 0;
      var known := MarkSent(k);
      if !known {
        status := Some(MalformedRequest);
        return S.Stop;
      }
      return S.Next;
    }

    method SendOne(i: nat, inflight: bool, a: S.Attempt) returns (live: bool, verdict: S.Verdict)
      requires Valid() && i < |mq.messages|
      modifies this, mq, mq.mem
      ensures Valid() && live == S.LiveQos2(old(mq.messages)[i])
      ensures (View(), verdict) == S.SendOne(old(View()), i, inflight, a)
    {
      hide S.AfterSend, S.Write, S.LiveQos2;
      var d := mq.Get(i);
      var late := d.state == AwaitingAck && a.late;
      if late {
        sendOffset := 0;
        past := past.(hazards := past.hazards.(late := true));
      }
      live := IsLiveQos2(i);
      verdict := S.Next;
      if d.state == Unsent || late {
        if live && inflight {
          past := past.(hazards := past.hazards.(skipped := true));
        } else {
          verdict := Write(i, a);
        }
      }
    }

    method SendAll(att: nat -> S.Attempt) returns (stopped: bool)
      requires Valid()
      modifies this, mq, mq.mem
      ensures Valid() && (View(), stopped) == S.SendFrom(old(View()), 0, false, att)
    {
      hide S.SendOne, S.LiveQos2;
      ghost var s0 := View();
      var inflight, i := false, 0;
      while i < mq.tail
        invariant Valid() && 0 <= i <= mq.tail
        invariant S.SendFrom(s0, 0, false, att) == S.SendFrom(View(), i, inflight, att)
      {
        var live, verdict := SendOne(i, inflight, att(i));
        if verdict != S.Next {
          return verdict == S.Stop;
        }
        inflight := inflight || live;
        i := i + 1;
      }
      return false;
    }

    method IsLiveQos2(k: nat) returns (live: bool)
      requires Valid() && k < |mq.messages|
      ensures live == S.LiveQos2(mq.messages[k])
    {
      var d := mq.Get(k);
      live := false;
      if d.control == PUBLISH && d.state != Complete {
        var qos := QosOf(k);
        live := qos == 2;
      }
    }

    method Send(att: nat -> S.Attempt, pingDue: bool, stale: Word)
      requires Valid() && S.Fits(View())
      modifies this, mq, mq.mem
      ensures Valid() && View() == S.Step(old(View()), S.DoSend(att, pingDue, stale))
    {
      hide S.TryPack, S.SendFrom;
      if status.Some? && status.value != SendBufferIsFull {
        return;
      }
      var stopped := SendAll(att);
      if !stopped && pingDue {
        TryPack(S.Request.Ping, stale);
      }
    }

    /* ---- receiving ---- */

    /** Complete the message acknowledged by (control, pid). */
    method Release(control: Nibble, pid: Option<Word>) returns (ok: bool)
      requires Valid()
      modifies this, mq, mq.mem
      ensures Valid() && (View(), ok) == S.Release(old(View()), control, pid)
    {
      var k := mq.FindMessage(control, pid);
      if k == mq.tail {
        status := Some(AckOfUnknown);
        return false;
      }
      past := past.(hazards := past.hazards.(early := past.hazards.early || mq.messages[k].state == Unsent));
      mq.SetState(k, Complete);
      return true;
    }

    method Answer(control: Nibble, pid: Word) returns (ok: bool)
      requires Valid()
      modifies this, mq, mq.mem
      ensures Valid() && (View(), ok) == S.Answer(old(View()), control, pid)
    {
      hide S.TryPack;
      TryPack(S.SendPub(control), pid);
      ok := status.None?;
    }

    method HandlePublish(r: Response) returns (ok: bool)
      requires Valid() && r.Publish?
      modifies this, mq, mq.mem
      ensures Valid() && (View(), ok) == S.HandlePublish(old(View()), r)
    {
      hide S.Answer;
      if r.qos == 1 {
        ok := Answer(PUBACK, r.pid);
        if !ok {
          return;
        }
      } else if r.qos == 2 {
        var k := mq.FindMessage(PUBREC, Some(r.pid));
        if k < mq.tail {
          return true;
        }
        ok := Answer(PUBREC, r.pid);
        if !ok {
          return;
        }
      }
      // the application callback is called here
      past := past.(delivered := past.delivered + [r],
                    marks := if r.qos == 2 then past.marks + [S.Delivered(r.pid)] else past.marks);
      return true;
    }

    method HandlePub(control: Nibble, pid: Word) returns (ok: bool)
      requires Valid()
      modifies this, mq, mq.mem
      ensures Valid() && (View(), ok) == S.HandlePub(old(View()), control, pid)
    {
      hide S.Answer, S.Release;
      if control == PUBACK {
        ok := Release(PUBLISH, Some(pid));
      } else if control == PUBREC {
        var k := mq.FindMessage(PUBREL, Some(pid));
        if k < mq.tail {
          return true;
        }
        ok := Release(PUBLISH, Some(pid));
        if ok {
          ok := Answer(PUBREL, pid);
        }
      } else if control == PUBREL {
        past := past.(marks := past.marks + [S.Released(pid)]);
        ok := Release(PUBREC, Some(pid));
        if ok {
          ok := Answer(PUBCOMP, pid);
        }
      } else {
        ok := Release(PUBREL, Some(pid));
      }
    }

    method Handle(r: Response) returns (ok: bool)
      requires Valid()
      modifies this, mq, mq.mem
      ensures Valid() && (View(), ok) == S.Handle(old(View()), r)
    {
      hide S.HandlePublish, S.HandlePub, S.Release;
      match r
      case Connack(_, code) =>
        ok := Release(CONNECT, None);
        if ok && code != 0 {
          status := Some(if code == 2 then ConnectClientIdRefused else ConnectionRefused);
          ok := false;
        }
      case Publish(_, _, _, _, _, _) => ok := HandlePublish(r);
      case Pub(control, pid) => ok := HandlePub(control, pid);
      case Suback(pid, codes) =>
        ok := Release(SUBSCRIBE, Some(pid));
        if ok && codes != [] && codes[0] == 128 {
          status := Some(SubscribeFailed);
          ok := false;
        }
      case Unsuback(pid) => ok := Release(UNSUBSCRIBE, Some(pid));
      case Pingresp => ok := Release(PINGREQ, None);
    }

    /** Read from the socket into the free end of the buffer. */
    method Pull(n: nat)
      requires Valid()
      modifies this, recvBuf
      ensures Valid() && View() == old(View()).(input := S.Take(old(View().input), n))
      ensures n == 0 ==> recvLen == old(recvLen)
    {
      var k := S.Min(n, S.Min(recvBuf.Length - recvLen, |inbox|));
      var i := 0;
      while i < k
        modifies recvBuf
        invariant 0 <= i <= k
        invariant recvBuf[..recvLen + i] == old(recvBuf[..recvLen]) + inbox[..i]
      {
        recvBuf[recvLen + i] := inbox[i];
        i := i + 1;
      }
      recvLen := recvLen + k;
      inbox := inbox[k..];
    }

    /** Move the unparsed bytes to the front of the buffer. */
    method Drop(r: Response, n: nat)
      requires Valid() && n <= recvLen
      modifies this, recvBuf
      ensures Valid() && View() == old(View()).(input := S.Consume(old(View().input), r, n))
      ensures recvLen == old(recvLen) - n
    {
      past := past.(input := past.input.(consumed := past.input.consumed + recvBuf[..recvLen][..n],
                                         dispatched := past.input.dispatched + [r]));
      var i := 0;
      while i < recvLen - n
        modifies recvBuf
        invariant 0 <= i <= recvLen - n
        invariant forall j :: i + n <= j < recvLen ==> recvBuf[j] == old(recvBuf[j])
        invariant forall j :: 0 <= j < i ==> recvBuf[j] == old(recvBuf[j + n])
      {
        recvBuf[i] := recvBuf[i + n];
        i := i + 1;
      }
      recvLen := recvLen - n;
    }

    /** Unpack the packet at the front of the buffer, if it is there. */
    method UnpackResponse() returns (u: Unpacked<Response>)
      requires Valid()
      ensures u == Unpack(recvBuf[..recvLen])
    {
      hide UnpackHeader, UnpackBody;
      var header := UnpackFixedHeader(recvBuf, recvLen);
      match header
      case Short => return Short;
      case Bad(e) => return Bad(e);
      case Got(h, n) =>
        if h.control == PINGRESP {
          return Got(Pingresp, n);
        }
        BodyIs(recvBuf[..recvLen], h, n);
        var bytes := recvBuf[..recvLen][n..n + h.remaining];
        var body := UnpackBody(h, bytes);
        match body
        case Short => return Short;
        case Bad(e) => return Bad(e);
        case Got(v, k) => return Got(v, n + k);
    }

    method Recv(pulls: seq<S.Pull>) returns (ok: bool)
      requires Valid()
      modifies this, mq, mq.mem, recvBuf
      ensures Valid() && (View(), ok) == S.Recv(old(View()), pulls)
    {
      hide S.Handle, Unpack, S.Take, S.Consume;
      ghost var s0 := View();
      ok := true;
      var rest := pulls;
      while ok
        invariant Valid()
        invariant ok ==> S.Recv(s0, pulls) == S.Recv(View(), rest)
        invariant !ok ==> S.Recv(s0, pulls) == (View(), false)
        decreases ok, |rest|, recvLen
      {
        var pull := if rest == [] then S.UpTo(0) else rest[0];
        if pull.PullFailed? {
          status := Some(Socket(pull.code));
          return false;
        }
        rest := if rest == [] then [] else rest[1..];
        Pull(pull.n);
        var u := UnpackResponse();
        match u
        case Bad(e) =>
          status := Some(e);
          return false;
        case Short =>
          if recvLen == recvBuf.Length {
            status := Some(RecvBufferTooSmall);
            return false;
          }
          return true;
        case Got(r, n) =>
          UnpackSize(recvBuf[..recvLen]);
          ghost var s1 := View();
          ok := Handle(r);
          S.HandleKeepsInput(s1, r);
          Drop(r, n);
      }
    }
  }

  lemma BytesJoined(m: seq<Cell>, r: seq<Cell>, at: nat, x: seq<byte>, y: seq<byte>)
    requires BytesAt(m, at, x) && |r| == |m| && BytesAt(r, at + |x|, y)
    requires forall j :: 0 <= j < at + |x| ==> r[j] == m[j]
    ensures BytesAt(r, at, x + y)
  {}

  lemma BodyIs(s: seq<byte>, h: FixedHeader, n: nat)
    requires UnpackHeader(s) == Got(h, n)
    ensures n + h.remaining <= |s| && Body(s, h, n) == s[n..n + h.remaining]
  {
    ReadLengthSize(s[1..], 0);
  }

  lemma FirstFreeAt(x: Word, ids: seq<Word>, stop: nat, n: nat)
    requires FirstFree(x, ids, stop) && n <= stop
    ensures stop > 0 && (n > 0 ==> (Iterate(n, x) in ids <==> n < stop))
  {}
}
