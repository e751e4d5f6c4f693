/** A Modbus endpoint as it works: a message buffer of 260 bytes, an index into it, and the line. */
module ModbusEndpoint {
  import opened Bytes
  import opened ModbusFrames
  import M = ModbusFrames

  class Endpoint {
    const transport: Transport
    const device: byte        // the server's own address
    var destination: byte     // the address the client sends to
    var currentTid: word
    const buf: array<byte>
    var idx: nat
    var head: Head
    var line: seq<byte>       // the bytes that can be read

    ghost predicate Valid()
      reads this
    {
      buf.Length == BUFFER && idx <= BUFFER
    }

    constructor (transport: Transport, device: byte, destination: byte)
      ensures Valid() && fresh(buf) && idx == 0 && line == []
      ensures this.transport == transport && this.device == device && this.destination == destination && currentTid == 0
    {
      this.transport, this.device, this.destination := transport, device, destination;
      currentTid, idx, line, head := 0, 0, [], Head(0, 0, 0);
      buf := new byte[BUFFER];
    }

    /* ---- the buffer ---- */

    /** The message so far. */
    ghost function Sofar(): seq<byte>
      reads this, buf
      requires Valid()
    {
      buf[..idx]
    }

    method Put(s: seq<byte>)
      requires Valid() && idx + |s| <= BUFFER
      modifies this`idx, buf
      ensures Valid() && Sofar() == old(Sofar()) + s && idx == old(idx) + |s|
    {
      for i := 0 to |s|
        invariant Valid() && idx == old(idx) + i && Sofar() == old(Sofar()) + s[..i]
      {
        buf[idx] := s[i];
        idx := idx + 1;
      }
      assert s[..|s|] == s;
    }

    method PutWords(regs: seq<word>)
      requires Valid() && idx + 2 * |regs| <= BUFFER
      modifies this`idx, buf
      ensures Valid() && Sofar() == old(Sofar()) + PutRegs(regs) && idx == old(idx) + 2 * |regs|
    {
      hide Put2;
      for i := 0 to |regs|
        invariant Valid() && idx == old(idx) + 2 * i && Sofar() == old(Sofar()) + PutRegs(regs[..i])
      {
        Put(Put2(regs[i]));
        assert regs[..i + 1][..i] == regs[..i];
      }
      assert regs[..|regs|] == regs;
    }

    /** Read n bytes from the line behind the message so far and take them in. */
    method Recv(n: nat) returns (e: Option<Error>)
      requires Valid() && idx + n <= BUFFER
      modifies this`idx, this`line, buf
      ensures Valid()
      ensures match M.Recv(old(line), n)
              case Got(b, rest) => e == Option.None && Sofar() == old(Sofar()) + b && idx == old(idx) + n
                  && line == rest
              case Fault(x) => e == Some(x)
    {
      if |line| < n {
        return Some(Timeout);
      }
      var b := line[..n];
      line := line[n..];
      Put(b);
      return Option.None;
    }

    method CrcCalc(n: nat) returns (crc: word)
      requires Valid() && n <= BUFFER
      ensures crc == Crc(buf[..n])
    {
      hide CrcFold, CrcByte, Swapped;
      var c: bv16 := 0xFFFF;
      ghost var s := buf[..n];
      FoldStart(s);
      for i := 0 to n
        invariant c == CrcFold(s[..i])
      {
        FoldNext(s, i);
        c := CrcOfByte(c, buf[i]);
      }
      FoldStart(s);
      crc := Swapped(c);
    }

    /* ---- headers and footers ---- */

    /** The header of a message; a flag says whether anything came at all. */
    method RecvMsgHeader() returns (e: Option<Error>, first: bool)
      requires Valid()
      modifies this`idx, this`line, this`head, buf
      ensures Valid() && (first <==> old(line) != [])
      ensures match RecvHeader(transport, old(line))
              case Got(h, rest) => e == Option.None && head == h && line == rest
                  && Sofar() == old(line)[..HeaderSize(transport)]
              case Fault(x) => e == Some(x)
    {
      hide Get2;
      idx := 0;
      e := Recv(1);
      first := e.None?;
      if e.Some? {
        return;
      }
      e := Recv(HeaderSize(transport) - 1);
      if e.Some? {
        return;
      }
      assert Sofar() == old(line)[..HeaderSize(transport)];
      if transport.Rtu? {
        head := Head(0, buf[0], buf[1]);
      } else {
        if Get2(buf[2], buf[3]) != 0 || Get2(buf[4], buf[5]) > 255 {
          return Some(InvalidMbap), first;
        }
        head := Head(Get2(buf[0], buf[1]), buf[6], buf[7]);
      }
    }

    method RecvMsgFooter() returns (e: Option<Error>)
      requires Valid() && idx + 2 <= BUFFER + (if transport.Tcp? then 2 else 0)
      modifies this`idx, this`line, buf
      ensures Valid()
      ensures match RecvFooter(transport, old(Sofar()), old(line))
              case Got(_, rest) => e == Option.None && line == rest
              case Fault(x) => e == Some(x)
    {
      hide Crc, Get2;
      if transport.Rtu? {
        var crc := CrcCalc(idx);
        var at := idx;
        e := Recv(2);
        if e.Some? {
          return;
        }
        if Get2(buf[at], buf[at + 1]) != crc {
          return Some(BadCrc);
        }
      }
      return Option.None;
    }

    /** The counted part. Words are taken two bytes at a time. */
    method TakeCounted(c: Count, count: nat) returns (e: Option<Error>)
      requires Valid() && idx + count <= BUFFER
      modifies this`idx, this`line, buf
      ensures Valid()
      ensures match M.Recv(old(line), count)
              case Got(b, rest) => e == Option.None && Sofar() == old(Sofar()) + b[..Used(c, count)] && line == rest
              case Fault(x) => e == Some(x)
    {
      ghost var h := Sofar();
      e := Recv(count);
      if e.None? {
        idx := idx - (count - Used(c, count));
      }
    }

    /** The fixed part, the counted part and the footer of a message whose header has been read. */
    method TakeBody(n: nat, c: Count, ghost s: seq<byte>) returns (e: Option<Error>, d: seq<byte>)
      requires Valid() && 1 <= n <= 5 && |s| >= HeaderSize(transport)
      requires Sofar() == s[..HeaderSize(transport)] && line == s[HeaderSize(transport)..]
      requires !c.None? && |line| >= n ==> line[n - 1] <= 250 - (n - 1)
      modifies this`idx, this`line, buf
      ensures Valid()
      ensures match M.RecvBody(transport, s, n, c)
              case Got(v, rest) => e == Option.None && d == v
              case Fault(x) => e == Some(x)
    {
      hide M.RecvFooter, M.Recv;
      var at := idx;
      ghost var h := Sofar();
      d := [];
      e := Recv(n);
      RecvShape(s[at..], n);
      if e.Some? {
        return;
      }
      ghost var a, rest := s[at..][..n], line;
      assert Sofar() == h + a;
      LastOf(h, a);
      assert buf[at + n - 1] == Sofar()[at + n - 1];
      var count := if c.None? then 0 else buf[at + n - 1];
      RecvShape(rest, count);
      e := TakeCounted(c, count);
      if e.Some? {
        return;
      }
      ghost var used := rest[..count][..Used(c, count)];
      assert Sofar() == h + a + used;
      d := buf[at..idx];
      TailOf(h, a, used);
      assert d == Sofar()[at..];
      Joined(h, a, used);
      e := RecvMsgFooter();
    }

    method PutMsgHeader(fc: byte, n: nat)
      requires Valid() && n <= 253
      modifies this`idx, buf
      ensures Valid() && Sofar() == Header(transport, head.tid, head.unit, fc, n)
    {
      hide Put2;
      idx := 0;
      if transport.Tcp? {
        Put(Put2(head.tid));
        Put([0, 0]);
        Put(Put2(2 + n));
      }
      Put([head.unit, fc]);
    }

    /** Append the footer; the whole message goes out. */
    method SendMsg() returns (out: seq<byte>)
      requires Valid() && idx + 2 <= BUFFER + (if transport.Tcp? then 2 else 0)
      modifies this`idx, buf
      ensures Valid() && out == old(Sofar()) + Footer(transport, old(Sofar()))
    {
      hide Crc, Put2;
      if transport.Rtu? {
        var crc := CrcCalc(idx);
        Put(Put2(crc));
      }
      out := buf[..idx];
    }

    method SendAnswer(a: Answer) returns (out: seq<byte>)
      requires Valid() && |a.data| <= 251
      modifies this`idx, buf
      ensures Valid() && out == Message(transport, head.tid, head.unit, a.fc, a.data)
    {
      hide Footer;
      PutMsgHeader(a.fc, |a.data|);
      Put(a.data);
      out := SendMsg();
    }

    method SendExceptionMsg(code: byte) returns (out: seq<byte>)
      requires Valid() && head.fc < 128
      modifies this`idx, buf
      ensures Valid() && out == Message(transport, head.tid, head.unit, head.fc + 128, [code])
    {
      out := SendAnswer(Answer(head.fc + 128, [code]));
    }

    /* ---- the server ---- */

    /** Answer a request that has passed its checks. */
    method Report(r: Request, p: Reply) returns (out: seq<byte>)
      requires Valid() && ValidRequest(r) && Fitting(r, p) && head.fc == Fc(r) && head.fc < 128
      modifies this`idx, buf
      ensures Valid()
      ensures var x := Reported(r, p); out == Message(transport, head.tid, head.unit, x.fc, x.data)
    {
      hide Put2, Footer, Header, PutRegs;
      match p
      case Missing => out := SendExceptionMsg(ILLEGAL_FUNCTION);
      case Failed(code) => out := SendExceptionMsg(if 0 < code < 5 then code else DEVICE_FAILURE);
      case Bits(b) =>
        BitsFit(r);
        PutMsgHeader(head.fc, 1 + BitBytes(r.quantity));
        Put([BitBytes(r.quantity)]);
        Put(b[..BitBytes(r.quantity)]);
        Joined(Header(transport, head.tid, head.unit, head.fc, 1 + BitBytes(r.quantity)), [BitBytes(r.quantity)],
            b[..BitBytes(r.quantity)]);
        out := SendMsg();
      case Regs(w) =>
        PutMsgHeader(head.fc, 1 + 2 * r.quantity);
        Put([2 * r.quantity]);
        PutWords(w[..r.quantity]);
        Joined(Header(transport, head.tid, head.unit, head.fc, 1 + 2 * r.quantity), [2 * r.quantity],
            PutRegs(w[..r.quantity]));
        out := SendMsg();
      case Done => out := SendAnswer(Reported(r, Done));
    }

    /** The checks on address and quantity that most requests share: 0 if there is nothing to object to. */
    method CheckRange(address: word, quantity: word, limit: nat) returns (code: byte)
      ensures code == JudgeRange(address, quantity, limit)
    {
      if quantity < 1 || quantity > limit {
        return ILLEGAL_VALUE;
      }
      if address + quantity > 0x1_0000 {
        return ILLEGAL_ADDRESS;
      }
      return 0;
    }

    method HandleReadDiscrete(a: Application, d: seq<byte>) returns (out: seq<byte>)
      requires Valid() && ValidApplication(a) && 1 <= head.fc <= 2 && |d| == 4
      modifies this`idx, buf
      ensures Valid() && out == Answered(a, head.fc, d)
    {
      var address, quantity := Get2(d[0], d[1]), Get2(d[2], d[3]);
      hide Get2, Message, Reported, Fitting, ValidApplication;
      var code := CheckRange(address, quantity, 2000);
      if code != 0 {
        out := SendExceptionMsg(code);
        return;
      }
      var r := ReadBits(head.fc == 2, address, quantity);
      ReplyFits(a, r);
      out := Report(r, a.reply(r));
    }

    method HandleReadRegisters(a: Application, d: seq<byte>) returns (out: seq<byte>)
      requires Valid() && ValidApplication(a) && 3 <= head.fc <= 4 && |d| == 4
      modifies this`idx, buf
      ensures Valid() && out == Answered(a, head.fc, d)
    {
      var address, quantity := Get2(d[0], d[1]), Get2(d[2], d[3]);
      hide Get2, Message, Reported, Fitting, ValidApplication;
      var code := CheckRange(address, quantity, 125);
      if code != 0 {
        out := SendExceptionMsg(code);
        return;
      }
      var r := ReadRegs(head.fc == 4, address, quantity);
      ReplyFits(a, r);
      out := Report(r, a.reply(r));
    }

    method HandleWriteSingleCoil(a: Application, d: seq<byte>) returns (out: seq<byte>)
      requires Valid() && ValidApplication(a) && head.fc == 5 && |d| == 4
      modifies this`idx, buf
      ensures Valid() && out == Answered(a, head.fc, d)
    {
      var address, value := Get2(d[0], d[1]), Get2(d[2], d[3]);
      hide Get2, Message, Reported, Fitting, ValidApplication;
      if !a.serves(5) {
        out := SendExceptionMsg(ILLEGAL_FUNCTION);
        return;
      }
      if value != 0 && value != 0xFF00 {
        out := SendExceptionMsg(ILLEGAL_VALUE);
        return;
      }
      var r := WriteCoil(address, value != 0);
      ReplyFits(a, r);
      out := Report(r, a.reply(r));
    }

    method HandleWriteSingleRegister(a: Application, d: seq<byte>) returns (out: seq<byte>)
      requires Valid() && ValidApplication(a) && head.fc == 6 && |d| == 4
      modifies this`idx, buf
      ensures Valid() && out == Answered(a, head.fc, d)
    {
      var r := WriteReg(Get2(d[0], d[1]), Get2(d[2], d[3]));
      hide Get2, Message, Reported, Fitting, ValidApplication;
      ReplyFits(a, r);
      out := Report(r, a.reply(r));
    }

    method HandleWriteMultipleCoils(a: Application, d: seq<byte>) returns (out: seq<byte>)
      requires Valid() && ValidApplication(a) && head.fc == 15 && Shaped(15, d)
      modifies this`idx, buf
      ensures Valid() && out == Answered(a, head.fc, d)
    {
      var address, quantity := Get2(d[0], d[1]), Get2(d[2], d[3]);
      hide Get2, Message, Reported, Fitting, ValidApplication;
      var code := CheckRange(address, quantity, 0x7B0);
      if code == 0 && (d[4] == 0 || BitBytes(quantity) != d[4] as int) {
        code := ILLEGAL_VALUE;
      }
      if code != 0 {
        out := SendExceptionMsg(code);
        return;
      }
      var r := WriteCoils(address, quantity, d[5..]);
      ReplyFits(a, r);
      out := Report(r, a.reply(r));
    }

    method HandleWriteMultipleRegisters(a: Application, d: seq<byte>) returns (out: seq<byte>)
      requires Valid() && ValidApplication(a) && head.fc == 16 && Shaped(16, d)
      modifies this`idx, buf
      ensures Valid() && out == Answered(a, head.fc, d)
    {
      var address, quantity := Get2(d[0], d[1]), Get2(d[2], d[3]);
      hide Get2, Message, Reported, Fitting, ValidApplication;
      var code := CheckRange(address, quantity, 0x7B);
      if code == 0 && (d[4] == 0 || d[4] as int != 2 * quantity) {
        code := ILLEGAL_VALUE;
      }
      if code != 0 {
        out := SendExceptionMsg(code);
        return;
      }
      var r := WriteRegs(address, GetRegs(d[5..], quantity));
      ReplyFits(a, r);
      out := Report(r, a.reply(r));
    }

    /** The message that answers data d under function code fc. */
    ghost function Answered(a: Application, fc: byte, d: seq<byte>): seq<byte>
      reads this
      requires ValidApplication(a) && Known(fc) && Shaped(fc, d)
    {
      var x := AnswerTo(a, fc, d);
      Message(transport, head.tid, head.unit, x.fc, x.data)
    }

    /** Serve one message from the line, if it is a request for this device; counted parts that do not fit the
        buffer are outside this model. */
    method ServerPoll(a: Application) returns (p: Polled)
      requires Valid() && ValidApplication(a) && CountFits(transport, line)
      modifies this`idx, this`line, this`head, buf
      ensures Valid() && p == M.Poll(transport, device, a, old(line))
    {
      hide M.RecvBody, M.RecvHeader, Message, AnswerTo, Get2;
      ghost var s := line;
      HeaderTaken(transport, s);
      var e, first := RecvMsgHeader();
      if e.Some? {
        return Silent(if first then e else Option.None);
      }
      var fc := head.fc;
      if (transport.Rtu? && head.unit != device) || !Known(fc) {
        return Silent(Option.None);
      }
      var d: seq<byte>;
      e, d := TakeBody(FixedPart(fc), CountOf(fc), s);
      BodySize(transport, s, FixedPart(fc), CountOf(fc));
      if e.Some? {
        return Silent(e);
      }
      var out: seq<byte>;
      if fc <= 2 {
        out := HandleReadDiscrete(a, d);
      } else if fc <= 4 {
        out := HandleReadRegisters(a, d);
      } else if fc == 5 {
        out := HandleWriteSingleCoil(a, d);
      } else if fc == 6 {
        out := HandleWriteSingleRegister(a, d);
      } else if fc == 15 {
        out := HandleWriteMultipleCoils(a, d);
      } else {
        out := HandleWriteMultipleRegisters(a, d);
      }
      p := Sent(out);
    }

    /* ---- the client ---- */

    /** Send a request, if its arguments are valid. */
    method SendRequest(r: Request) returns (out: Option<seq<byte>>)
      requires Valid() && (r.WriteCoils? ==> |r.coils| == BitBytes(r.quantity))
      modifies this`idx, this`head, this`currentTid, buf
      ensures Valid() && (out.None? <==> !ValidRequest(r))
      ensures out.Some? ==>
                && currentTid == (if old(currentTid) == 65535 then 1 else old(currentTid) + 1)
                && head == Head(currentTid, destination, Fc(r))
                && out.value == RequestMessage(transport, currentTid, destination, r)
    {
      hide Header, Footer, RequestData;
      if !ValidRequest(r) {
        return Option.None;
      }
      DataSize(r);
      currentTid := if currentTid == 65535 then 1 else currentTid + 1;
      head := Head(currentTid, destination, Fc(r));
      PutMsgHeader(Fc(r), |RequestData(r)|);
      PutData(r);
      var m := SendMsg();
      out := Some(m);
    }

    /** The fields of a request, one after the other. */
    method PutData(r: Request)
      requires Valid() && ValidRequest(r) && idx + |RequestData(r)| <= BUFFER
      modifies this`idx, buf
      ensures Valid() && Sofar() == old(Sofar()) + RequestData(r) && idx == old(idx) + |RequestData(r)|
    {
      hide Put2, PutRegs, BitBytes;
      match r {
        case ReadBits(_, address, quantity) => PutPair(address, quantity);
        case ReadRegs(_, address, quantity) => PutPair(address, quantity);
        case WriteCoil(address, value) => PutPair(address, CoilWord(value));
        case WriteReg(address, reg) => PutPair(address, reg);
        case WriteCoils(address, quantity, coils) => PutCoils(address, quantity, coils);
        case WriteRegs(address, regs) => PutAllRegs(address, regs);
      }
    }

    method PutPair(a: word, b: word)
      requires Valid() && idx + 4 <= BUFFER
      modifies this`idx, buf
      ensures Valid() && Sofar() == old(Sofar()) + (Put2(a) + Put2(b)) && idx == old(idx) + 4
    {
      hide Put2;
      Put(Put2(a));
      Put(Put2(b));
    }

    method PutCoils(address: word, quantity: word, coils: seq<byte>)
      requires Valid() && BitBytes(quantity) < 256 && idx + 5 + |coils| <= BUFFER
      modifies this`idx, buf
      ensures Valid() && idx == old(idx) + 5 + |coils|
      ensures Sofar() == old(Sofar()) + (Put2(address) + Put2(quantity) + [BitBytes(quantity)] + coils)
    {
      hide Put2, BitBytes;
      PutPair(address, quantity);
      Put([BitBytes(quantity)]);
      Put(coils);
    }

    method PutAllRegs(address: word, regs: seq<word>)
      requires Valid() && |regs| < 128 && idx + 5 + 2 * |regs| <= BUFFER
      modifies this`idx, buf
      ensures Valid() && idx == old(idx) + 5 + 2 * |regs|
      ensures Sofar() == old(Sofar()) + (Put2(address) + Put2(|regs|) + [2 * |regs|] + PutRegs(regs))
    {
      hide Put2, PutRegs;
      PutPair(address, |regs|);
      Put([2 * |regs|]);
      PutWords(regs);
    }

    /** Read the answer to the request that has been sent. */
    method RecvResponse(r: Request) returns (o: Outcome)
      requires Valid() && ValidRequest(r) && ResponseFits(transport, r, line)
      modifies this`idx, this`line, this`head, buf
      ensures Valid() && o == Receive(transport, old(head.tid), old(head.unit), r, old(line))
    {
      hide M.RecvBody, M.RecvHeader, Get2, GetRegs, Reported;
      ghost var s := line;
      var tid, unit := head.tid, head.unit;
      HeaderTaken(transport, s);
      var e, first := RecvMsgHeader();
      if e.Some? {
        return Broken(e.value);
      }
      if transport.Tcp? && head.tid != tid {
        return Broken(InvalidMbap);
      }
      if transport.Rtu? && head.unit != unit {
        return Broken(InvalidUnit);
      }
      var d: seq<byte>;
      if head.fc != Fc(r) {
        if head.fc as int - 128 != Fc(r) as int {
          return Broken(InvalidResponse);
        }
        e, d := TakeBody(1, Count.None, s);
        BodySize(transport, s, 1, Count.None);
        if e.Some? {
          return Broken(e.value);
        }
        return if d[0] < 1 || d[0] > 4 then Broken(InvalidResponse) else ModbusException(d[0]);
      }
      var c := if r.ReadBits? then OfBytes else if r.ReadRegs? then OfWords else Count.None;
      e, d := TakeBody(if c.None? then 4 else 1, c, s);
      BodySize(transport, s, if c.None? then 4 else 1, c);
      if e.Some? {
        return Broken(e.value);
      }
      if r.ReadBits? {
        o := Values(d[1..]);
      } else if r.ReadRegs? {
        o := if d[0] as int != 2 * r.quantity then Broken(InvalidResponse) else Registers(GetRegs(d[1..], r.quantity));
      } else {
        o := if d != Reported(r, Done).data then Broken(InvalidResponse) else Written;
      }
    }
  }

  /** The count in a request, if there is one, leaves room in the buffer. */
  ghost predicate CountFits(t: Transport, s: seq<byte>) {
    var n := HeaderSize(t);
    |s| >= n + 5 && (s[n - 1] == 15 || s[n - 1] == 16) ==> s[n + 4] <= 246
  }

  /** So does the count in the answer to a read request. */
  ghost predicate ResponseFits(t: Transport, r: Request, s: seq<byte>) {
    var n := HeaderSize(t);
    |s| >= n + 1 && (r.ReadBits? || r.ReadRegs?) && s[n - 1] == Fc(r) ==> s[n] <= 250
  }

  lemma ReplyFits(a: Application, r: Request)
    requires ValidApplication(a)
    ensures Fitting(r, a.reply(r))
  {}

  lemma HeaderTaken(t: Transport, s: seq<byte>)
    ensures match M.RecvHeader(t, s)
            case Got(h, rest) => |s| >= HeaderSize(t) && rest == s[HeaderSize(t)..] && h.fc == s[HeaderSize(t) - 1]
            case _ => true
  {
    hide Get2;
  }

  lemma BodySize(t: Transport, s: seq<byte>, n: nat, c: Count)
    requires n >= 1 && |s| >= HeaderSize(t)
    ensures match M.RecvBody(t, s, n, c)
            case Got(d, _) => |d| >= n && |d| == n + Used(c, d[n - 1])
            case _ => true
  {
    hide M.RecvFooter;
  }

  lemma DataSize(r: Request)
    requires ValidRequest(r)
    ensures |RequestData(r)| <= 251
    ensures r.WriteCoils? ==> BitBytes(r.quantity) == |r.coils| <= 246
  {}

  lemma BitsFit(r: Request)
    requires r.ReadBits? && ValidRequest(r)
    ensures BitBytes(r.quantity) <= 250
  {}

  lemma Joined(a: seq<byte>, b: seq<byte>, c: seq<byte>)
    ensures a + b + c == a + (b + c)
  {}

  lemma FoldStart(s: seq<byte>)
    ensures CrcFold(s[..0]) == 0xFFFF && s[..|s|] == s
  {}

  lemma FoldNext(s: seq<byte>, i: nat)
    requires i < |s|
    ensures CrcFold(s[..i + 1]) == CrcByte(CrcFold(s[..i]), s[i])
  {
    hide CrcByte;
    assert s[..i + 1][..i] == s[..i];
  }

  lemma RecvShape(s: seq<byte>, n: nat)
    ensures M.Recv(s, n) == if |s| < n then Fault(Timeout) else Got(s[..n], s[n..])
    ensures M.Recv(s, 0) == Got([], s)
  {}

  lemma LastOf(h: seq<byte>, a: seq<byte>)
    requires a != []
    ensures (h + a)[|h| + |a| - 1] == a[|a| - 1]
  {}

  lemma TailOf(h: seq<byte>, a: seq<byte>, b: seq<byte>)
    ensures (h + a + b)[|h|..] == a + b
  {}

  /** Eight bits of the CRC. */
  method CrcOfByte(c0: bv16, b: byte) returns (c: bv16)
    ensures c == CrcByte(c0, b)
  {
    hide CrcBit;
    c := c0 ^ (b as bv16);
    ghost var start := c;
    for j := 0 to 8
      invariant c == CrcBits(j, start)
    {
      c := Shifted(c);
    }
  }

  method Shifted(c0: bv16) returns (c: bv16)
    ensures c == CrcBit(c0)
  {
    if c0 & 1 != 0 {
      c := (c0 >> 1) ^ 0xA001;
    } else {
      c := c0 >> 1;
    }
  }
}
