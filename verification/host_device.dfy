/** The host device: a ring of received bytes, the packet in progress and the sender. */
module HostDevice {
  import opened Bytes
  import opened Words
  import opened Crc16
  import CrcLoops
  import opened HostFrames

  class Host {
    var addr: Octet
    const buffer: array<Octet>
    var bufferIndex: nat
    var processIndex: nat
    const packet: array<Octet>
    var packetIndex: nat
    var listening: bool                   // a callback is registered
    var calls: seq<(Octet, seq<Octet>)>   // its calls

    ghost predicate Valid()
      reads this
    {
      && buffer.Length == RING && packet.Length == RING && buffer != packet
      && bufferIndex < RING && processIndex < RING && packetIndex < RING
    }

    /** What has been fed and not yet processed. */
    ghost function Unread(): seq<Octet>
      reads this, buffer
      requires Valid()
    {
      if processIndex <= bufferIndex then buffer[processIndex..bufferIndex]
      else buffer[processIndex..] + buffer[..bufferIndex]
    }

    ghost function View(): Receiver
      reads this, buffer, packet
      requires Valid()
    {
      Receiver(addr, listening, Unread(), packet[..packetIndex], calls)
    }

    constructor (addr: Octet)
      ensures Valid() && fresh(buffer) && fresh(packet)
      ensures View() == Receiver(if addr as int > 0x7F then 1 else addr, false, [], [], [])
    {
      this.addr := if addr as int > 0x7F then 1 else addr;
      bufferIndex, processIndex, packetIndex, listening, calls := 0, 0, 0, false, [];
      buffer := new Octet[RING];
      packet := new Octet[RING];
    }

    method RegHandle()
      requires Valid()
      modifies this`listening
      ensures Valid() && View() == old(View()).(listening := true)
    {
      listening := true;
    }

    /** One byte into the ring. It is always written: if it fills the ring, the indices meet and
        everything that waits is lost. */
    method Put(b: Octet)
      requires Valid()
      modifies this`bufferIndex, buffer
      ensures Valid() && View() == Feed(old(View()), [b])
    {
      ghost var waiting := Unread();
      buffer[bufferIndex] := b;
      bufferIndex := bufferIndex + 1;
      if bufferIndex >= RING {
        bufferIndex := 0;
      }
      assert Unread() == if |waiting| + 1 < RING then waiting + [b] else [];
      KeptByte(waiting, b);
    }

    method AsynFeed(data: seq<Octet>)
      requires Valid()
      modifies this`bufferIndex, buffer
      ensures Valid() && View() == Feed(old(View()), data)
    {
      hide Kept;
      ghost var v := View();
      FeedNothing(v, data);
      for i := 0 to |data|
        invariant Valid() && View() == Feed(v, data[..i])
      {
        FeedNext(v, data, i);
        Put(data[i]);
      }
    }

    /** Take the next byte out of the ring. */
    method Take() returns (b: Octet)
      requires Valid() && bufferIndex != processIndex
      modifies this`processIndex
      ensures Valid() && old(Unread()) != [] && b == old(Unread())[0] && Unread() == old(Unread())[1..]
    {
      b := buffer[processIndex];
      processIndex := processIndex + 1;
      if processIndex >= RING {
        processIndex := 0;
      }
    }

    method Reset()
      requires Valid()
      modifies this`bufferIndex, this`processIndex, this`packetIndex
      ensures Valid() && View() == old(View()).(unread := [], packet := [])
    {
      bufferIndex, processIndex, packetIndex := 0, 0, 0;
    }

    method Grow()
      requires Valid()
      modifies this`packetIndex
      ensures Valid() && View() == old(View()).(packet := Grown(old(packet[..packetIndex + 1])))
    {
      packetIndex := packetIndex + 1;
      if packetIndex >= RING {
        packetIndex := 0;
      }
    }

    /** Call back if the CRC of the packet clears. */
    method CheckAndCall(len: nat)
      requires Valid() && 7 <= len < RING
      modifies this`calls
      ensures calls == old(calls) +
                       if Crc(packet[..len]) == 0 && listening then [(packet[4], packet[5..len - 2])] else []
    {
      hide Crc;
      var crc := CrcLoops.Calculate(packet, len);
      if crc == 0 && listening {
        calls := calls + [(packet[4], packet[5..len - 2])];
      } else {
        NoCall(calls);
      }
    }

    /** A frame is complete: check its address and its CRC and call back. */
    method Complete() returns (o: Outcome)
      requires Valid() && packetIndex >= 7
      modifies this`packetIndex, this`calls
      ensures Valid()
      ensures var r, q, i := old(View()), old(packet[..packetIndex + 1]), old(packetIndex);
        (View(), o) ==
        if q[3] != r.addr then (r.(packet := []), Failed)
        else if Crc(q[..i]) == 0 then
          (r.(packet := [], calls := r.calls + if r.listening then [(q[4], q[5..i - 2])] else []), Delivered)
        else (r.(packet := []), Delivered)
    {
      hide Crc;
      Fields(packet[..], packet[..packetIndex + 1], packetIndex);
      if packet[3] != addr {
        packetIndex := 0;
        return Failed;
      }
      CheckAndCall(packetIndex);
      NoCall(old(calls));
      packetIndex := 0;
      return Delivered;
    }

    /** A stop byte has come. */
    method EndFrame() returns (o: Outcome)
      requires Valid() && packetIndex >= 7
      modifies this`bufferIndex, this`processIndex, this`packetIndex, this`calls
      ensures Valid() && (View(), o) == Stopped(old(View()), old(packet[..packetIndex + 1]))
    {
      hide Crc, ToInt, Grown;
      var last := Word16(packet[1], packet[2]) + 3;
      if last >= MAX_FRAME || packetIndex > last {
        Reset();
        return Failed;
      } else if packetIndex == last {
        o := Complete();
      } else {
        Grow();
        o := HostFrames.Idle;
      }
    }

    /** Take one byte out of the ring. */
    method Advance() returns (o: Outcome)
      requires Valid()
      modifies this`bufferIndex, this`processIndex, this`packetIndex, this`calls, packet
      ensures Valid() && (View(), o) == HostFrames.Process(old(View()))
    {
      hide Stopped, Grown;
      ghost var v := View();
      if bufferIndex == processIndex {
        return HostFrames.Idle;
      }
      var b := Take();
      packet[packetIndex] := b;
      assert packet[..packetIndex + 1] == v.packet + [b] && packet[..packetIndex] == v.packet;
      assert View() == v.(unread := v.unread[1..]);
      if b == STOP && packetIndex >= 7 {
        o := EndFrame();
      } else if (b == START && packetIndex == 0) || packetIndex > 0 {
        Grow();
        o := HostFrames.Idle;
      } else {
        o := HostFrames.Idle;
      }
    }

    /** In synchronous mode a byte is read from the line first, if there is one. */
    method Process(line: Option<Octet>) returns (o: Outcome)
      requires Valid()
      modifies this`bufferIndex, this`processIndex, this`packetIndex, this`calls, buffer, packet
      ensures Valid() && (View(), o) == HostFrames.Process(Feed(old(View()), BytesOf(Poll(line))))
    {
      hide HostFrames.Process, Kept;
      if line.Some? {
        Put(line.value);
      } else {
        FeedNone(View());
      }
      o := Advance();
    }

    /** Let the driver and the application do what the events say. */
    method Drive(es: seq<Event>)
      requires Valid()
      modifies this`bufferIndex, this`processIndex, this`packetIndex, this`calls, buffer, packet
      ensures Valid() && View() == Run(old(View()), es)
    {
      hide HostFrames.Process, Feed, BytesOf;
      ghost var v := View();
      assert es[0..] == es;
      for i := 0 to |es|
        invariant Valid() && Run(v, es) == Run(View(), es[i..])
      {
        ghost var w := View();
        assert es[i..][0] == es[i] && es[i..][1..] == es[i + 1..];
        StepIs(w, es[i]);
        match es[i] {
          case Arrive(data) =>
            AsynFeed(data);
          case Poll(line) =>
            var o := Process(line);
        }
      }
    }

    /** A stream of frames, damaged frames and noise, in any pieces: if the ring never fills up and
        everything has been read, the callback has been called once for every good frame for this device. */
    method Serve(ghost items: seq<Item>, es: seq<Event>)
      requires Valid() && listening && bufferIndex == processIndex && packetIndex == 0
      requires ValidItems(items) && Arrived(es) == Stream(items) && RingHolds(View(), es)
          && Run(View(), es).unread == []
      modifies this`bufferIndex, this`processIndex, this`packetIndex, this`calls, buffer, packet
      ensures Valid() && calls == old(calls) + Expected(addr, items)
    {
      hide ValidItems, Stream, Run, RingHolds, Expected;
      StreamDelivered(View(), items, es);
      Drive(es);
    }

    /** Build the frame of a command and hand it to the line. */
    method SendCmd(cmd: Octet, data: seq<Octet>) returns (sent: seq<Octet>)
      requires Valid() && |data| + 8 <= RING
      ensures sent == Frame(Command(addr, cmd, data)) && Carries(sent, addr, cmd, data)
    {
      hide Frame, ToOctet, Carries;
      var out := new Octet[RING];
      var n := |data| + 4;
      out[0], out[1], out[2], out[3], out[4] := START, ToOctet((n / 256) % 256), ToOctet(n % 256), addr, cmd;
      var len := Copy(out, 5, data);
      assert out[..len] == Body(Command(addr, cmd, data));
      sent := Seal(out, len, Command(addr, cmd, data));
      FrameCarries(Command(addr, cmd, data));
    }

    /** The same with a result in front of the payload. */
    method SendResponse(cmd: Octet, ret: Octet, data: seq<Octet>) returns (sent: seq<Octet>)
      requires Valid() && |data| + 9 <= RING
      ensures sent == Frame(Response(addr, cmd, ret, data)) && CarriesResult(sent, addr, cmd, ret, data)
    {
      hide Frame, ToOctet, Carries, CarriesResult;
      var out := new Octet[RING];
      var n := |data| + 5;
      out[0], out[1], out[2], out[3], out[4] := START, ToOctet((n / 256) % 256), ToOctet(n % 256), addr, cmd;
      out[5] := ret;
      var len := Copy(out, 6, data);
      assert out[..len] == Body(Response(addr, cmd, ret, data));
      sent := Seal(out, len, Response(addr, cmd, ret, data));
      FrameCarries(Response(addr, cmd, ret, data));
      ResponseParts(sent, addr, cmd, ret, data);
    }
  }

  method Copy(out: array<Octet>, at: nat, data: seq<Octet>) returns (len: nat)
    requires at + |data| <= out.Length
    modifies out
    ensures len == at + |data| && out[..len] == old(out[..at]) + data
  {
    len := at;
    for i := 0 to |data|
      invariant len == at + i && out[..len] == old(out[..at]) + data[..i]
    {
      out[len] := data[i];
      len := len + 1;
    }
    assert data[..|data|] == data;
  }

  /** Append the CRC and the stop byte. */
  method Seal(out: array<Octet>, len: nat, ghost c: Command) returns (sent: seq<Octet>)
    requires len + 3 <= out.Length && out[..len] == Body(c)
    modifies out
    ensures sent == Frame(c)
  {
    hide Crc, Body, UpperByte, LowerByte;
    var crc := CrcLoops.Calculate(out, len);
    out[len], out[len + 1], out[len + 2] := UpperByte(crc), LowerByte(crc), STOP;
    sent := out[..len + 3];
    assert sent == Body(c) + [UpperByte(crc), LowerByte(crc)] + [STOP];
  }

  /** A response byte by byte: start, length of all up to the CRC, address, command, result, payload,
      two bytes that clear the CRC of everything before them, stop. */
  predicate CarriesResult(sent: seq<Octet>, addr: Octet, cmd: Octet, ret: Octet, data: seq<Octet>) {
    var n := |data|;
    && |sent| == n + 9
    && sent[0] == 0xAA
    && Word16(sent[1], sent[2]) == n + 5
    && sent[3] == addr
    && sent[4] == cmd
    && sent[5] == ret
    && sent[6..n + 6] == data
    && Crc(sent[..n + 8]) == 0
    && sent[n + 8] == 0x55
  }

  lemma ResponseParts(sent: seq<Octet>, addr: Octet, cmd: Octet, ret: Octet, data: seq<Octet>)
    ensures Carries(sent, addr, cmd, [ret] + data) <==> CarriesResult(sent, addr, cmd, ret, data)
  {
    hide Crc, Word16;
    if |sent| == |data| + 9 {
      assert sent[5..|data| + 6] == [sent[5]] + sent[6..|data| + 6];
      assert ([ret] + data)[1..] == data;
      assert ([sent[5]] + sent[6..|data| + 6])[1..] == sent[6..|data| + 6];
    }
  }

  /** Once a receiver with the sender's address has read a response, its callback has been called
      once, with the command and a payload of the result and the data behind it. */
  lemma ResponseArrives(r: Receiver, sent: seq<Octet>, cmd: Octet, ret: Octet, data: seq<Octet>, es: seq<Event>)
    requires |data| <= 247 && CarriesResult(sent, r.addr, cmd, ret, data)
    requires r.listening && r.unread == [] && r.packet == [] && Arrived(es) == sent && Run(r, es).unread == []
    ensures Run(r, es).calls == r.calls + [(cmd, [ret] + data)] && Run(r, es).packet == []
  {
    hide Run, Crc, Carries;
    ResponseParts(sent, r.addr, cmd, ret, data);
    CommandArrives(r, sent, r.addr, cmd, [ret] + data, es);
  }

  /** A packet begins with the buffer's bytes. */
  lemma Fields(p: seq<Octet>, q: seq<Octet>, i: nat)
    requires 7 <= i < |p| && q == p[..i + 1]
    ensures q[3] == p[3] && q[4] == p[4] && q[..i] == p[..i] && q[5..i - 2] == p[5..i - 2]
  {}

  lemma NoCall(calls: seq<(Octet, seq<Octet>)>)
    ensures calls + [] == calls
  {}

  lemma KeptByte(waiting: seq<Octet>, b: Octet)
    requires |waiting| < RING
    ensures Kept(waiting + [b]) == if |waiting| + 1 < RING then waiting + [b] else []
  {}

  lemma FeedNone(v: Receiver)
    requires |v.unread| < RING
    ensures Feed(v, []) == v
  {
    assert v.unread + [] == v.unread;
  }

  lemma FeedNothing(v: Receiver, data: seq<Octet>)
    requires |v.unread| < RING
    ensures Feed(v, data[..0]) == v && data[..|data|] == data
  {
    assert v.unread + data[..0] == v.unread;
  }

  /** What is kept of the first bytes and then of the rest is what is kept of all. */
  lemma KeptAgain(x: seq<Octet>, y: seq<Octet>)
    ensures Kept(Kept(x) + y) == Kept(x + y)
  {
    hide Rest, Kept;
    var n: nat := |x| - Rest(|x|);
    KeptIs(x);
    KeptIs(x[n..] + y);
    KeptIs(x + y);
    SuffixAppended(x, y, n);
    TurnsDropped(|x|, |y|);
    LastOfBoth(x[..n], x[n..] + y, Rest(|x| + |y|));
  }

  lemma KeptIs(x: seq<Octet>)
    ensures Kept(x) == x[|x| - Rest(|x|)..]
  {
    hide Rest;
  }

  lemma SuffixAppended(x: seq<Octet>, y: seq<Octet>, n: nat)
    requires n <= |x|
    ensures x + y == x[..n] + (x[n..] + y)
  {
    assert x == x[..n] + x[n..];
    Regroup(x[..n], x[n..], y);
  }

  lemma LastOfBoth(p: seq<Octet>, s: seq<Octet>, t: nat)
    requires t <= |s|
    ensures (p + s)[|p + s| - t..] == s[|s| - t..]
  {}

  lemma TurnsDropped(x: nat, y: nat)
    ensures Rest(Rest(x) + y) == Rest(x + y)
  {
    assert x == RING * (x / RING) + x % RING;
  }

  lemma FeedNext(v: Receiver, data: seq<Octet>, i: nat)
    requires i < |data|
    ensures Feed(v, data[..i + 1]) == Feed(Feed(v, data[..i]), [data[i]])
  {
    hide Kept;
    KeptAgain(v.unread + data[..i], [data[i]]);
    assert v.unread + data[..i + 1] == v.unread + data[..i] + [data[i]];
  }

  lemma StepIs(r: Receiver, e: Event)
    ensures HostStep(r, e) == if e.Poll? then HostFrames.Process(Feed(r, BytesOf(e))).0 else Feed(r, BytesOf(e))
    ensures e.Arrive? ==> BytesOf(e) == e.data
  {
    hide HostFrames.Process;
  }
}
