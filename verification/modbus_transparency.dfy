/** A Modbus exchange is transparent: the client gets what the application on the server answers. */
module ModbusTransparency {
  import opened Bytes
  import opened ModbusFrames

  lemma Got2(w: word)
    ensures Get2(Put2(w)[0], Put2(w)[1]) == w
  {}

  lemma {:induction false} RegsArrive(regs: seq<word>)
    ensures GetRegs(PutRegs(regs), |regs|) == regs
  {
    if regs != [] {
      var n := |regs| - 1;
      RegsArrive(regs[..n]);
      Got2(regs[n]);
      var s, f := PutRegs(regs), PutRegs(regs[..n]);
      forall i | 0 <= i <= n
        ensures GetRegs(s, n + 1)[i] == regs[i]
      {
        if i < n {
          assert GetRegs(f, n)[i] == regs[i];
          assert s[2 * i] == f[2 * i] && s[2 * i + 1] == f[2 * i + 1];
        }
      }
    }
  }

  lemma RecvOf(a: seq<byte>, b: seq<byte>)
    ensures Recv(a + b, |a|) == Got(a, b)
  {
    assert (a + b)[..|a|] == a && (a + b)[|a|..] == b;
  }

  lemma HeaderArrives(t: Transport, tid: word, unit: byte, fc: byte, n: nat, rest: seq<byte>)
    requires n <= 253
    ensures RecvHeader(t, Header(t, tid, unit, fc, n) + rest) == Got(Head(if t.Rtu? then 0 else tid, unit, fc), rest)
  {
    var h := Header(t, tid, unit, fc, n);
    RecvOf(h, rest);
    hide Recv;
    if t.Tcp? {
      Got2(tid);
      Got2(2 + n);
      hide Put2, Get2;
      assert h[0] == Put2(tid)[0] && h[1] == Put2(tid)[1];
      assert h[4] == Put2(2 + n)[0] && h[5] == Put2(2 + n)[1];
      assert Get2(h[2], h[3]) == 0 by { assert h[2] == 0 && h[3] == 0; Zero(); }
    }
  }

  lemma Zero()
    ensures Get2(0, 0) == 0
  {}

  lemma FooterArrives(t: Transport, m: seq<byte>, rest: seq<byte>)
    ensures RecvFooter(t, m, Footer(t, m) + rest) == Got((), rest)
  {
    hide Crc, Recv;
    if t.Tcp? {
      assert Footer(t, m) + rest == rest;
    } else {
      RecvOf(Footer(t, m), rest);
      Got2(Crc(m));
    }
  }

  lemma Pieces(h: seq<byte>, a: seq<byte>, b: seq<byte>, f: seq<byte>, rest: seq<byte>)
    ensures var s := h + (a + b) + f + rest; s[..|h|] == h && s[|h|..] == a + (b + (f + rest))
  {}

  /** The data of a message, with a count in front of a variable part or not, arrive whole. */
  lemma BodyArrives(t: Transport, tid: word, unit: byte, fc: byte, d: seq<byte>, n: nat, k: Count, rest: seq<byte>)
    requires |d| <= 253 && 1 <= n <= |d| && |d| == n + (if k.None? then 0 else d[n - 1] as int)
    requires k.OfWords? ==> d[n - 1] % 2 == 0
    ensures var s := Message(t, tid, unit, fc, d) + rest;
      |s| >= HeaderSize(t) && RecvBody(t, s, n, k) == Got(d, rest)
  {
    hide Recv, RecvFooter, Footer, Header;
    var h := Header(t, tid, unit, fc, |d|);
    var s := Message(t, tid, unit, fc, d) + rest;
    var f := Footer(t, h + d);
    var a, b := d[..n], d[n..];
    Pieces(h, a, b, f, rest);
    RecvOf(a, b + (f + rest));
    RecvOf(b, f + rest);
    assert b[..|b|] == b;
    assert h + (a + b) == h + d && a + b == d;
    FooterArrives(t, h + d, rest);
  }

  lemma MessageHead(t: Transport, tid: word, unit: byte, fc: byte, d: seq<byte>, rest: seq<byte>)
    requires |d| <= 253
    ensures RecvHeader(t, Message(t, tid, unit, fc, d) + rest).Got?
    ensures RecvHeader(t, Message(t, tid, unit, fc, d) + rest).v == Head(if t.Rtu? then 0 else tid, unit, fc)
  {
    hide RecvHeader, Header, Footer;
    var h := Header(t, tid, unit, fc, |d|);
    var f := Footer(t, h + d);
    assert Message(t, tid, unit, fc, d) + rest == h + (d + f + rest);
    HeaderArrives(t, tid, unit, fc, |d|, d + f + rest);
  }

  /* ---- the server understands the request ---- */

  lemma TwoWords(a: word, b: word, rest: seq<byte>)
    ensures var d := Put2(a) + Put2(b) + rest;
      Get2(d[0], d[1]) == a && Get2(d[2], d[3]) == b
  {
    Got2(a);
    Got2(b);
  }

  lemma RequestShape(r: Request)
    requires ValidRequest(r)
    ensures Known(Fc(r)) && Fc(r) < 128
    ensures var d, n := RequestData(r), FixedPart(Fc(r));
      && (n == 4 || n == 5) && n <= |d| && |d| == n + (if n == 5 then d[4] as int else 0)
      && (n == 5 <==> !CountOf(Fc(r)).None?) && (CountOf(Fc(r)).OfWords? ==> d[4] % 2 == 0)
  {}

  lemma BitBytesFit(quantity: nat)
    requires 1 <= quantity <= 2000
    ensures 1 <= BitBytes(quantity) <= 250
  {}

  lemma JudgeRequest(r: Request, serves: byte -> bool)
    requires ValidRequest(r)
    ensures RequestShapeHolds(r)
    ensures Judge(Fc(r), RequestData(r), serves) ==
            if r.WriteCoil? && !serves(5) then Wrong(ILLEGAL_FUNCTION) else Fine(r)
  {
    RequestShape(r);
    var d := RequestData(r);
    match r
    case ReadBits(_, address, quantity) => TwoWords(address, quantity, []);
    case ReadRegs(_, address, quantity) => TwoWords(address, quantity, []);
    case WriteCoil(address, value) => TwoWords(address, CoilWord(value), []);
    case WriteReg(address, reg) => TwoWords(address, reg, []);
    case WriteCoils(address, quantity, coils) => JudgeCoils(address, quantity, coils, serves);
    case WriteRegs(address, regs) => JudgeRegs(address, regs, serves);
  }

  predicate RequestShapeHolds(r: Request)
    requires ValidRequest(r)
  {
    Known(Fc(r)) && Shaped(Fc(r), RequestData(r))
  }

  lemma JudgeCoils(address: word, quantity: word, coils: seq<byte>, serves: byte -> bool)
    requires ValidRequest(WriteCoils(address, quantity, coils))
    ensures RequestShapeHolds(WriteCoils(address, quantity, coils))
    ensures var r := WriteCoils(address, quantity, coils); Judge(Fc(r), RequestData(r), serves) == Fine(r)
  {
    BitBytesFit(quantity);
    hide BitBytes, Put2, Get2;
    var d := RequestData(WriteCoils(address, quantity, coils));
    assert d == Put2(address) + Put2(quantity) + ([BitBytes(quantity)] + coils);
    TwoWords(address, quantity, [BitBytes(quantity)] + coils);
    assert d[5..] == coils;
  }

  lemma JudgeRegs(address: word, regs: seq<word>, serves: byte -> bool)
    requires ValidRequest(WriteRegs(address, regs))
    ensures RequestShapeHolds(WriteRegs(address, regs))
    ensures var r := WriteRegs(address, regs); Judge(Fc(r), RequestData(r), serves) == Fine(r)
  {
    hide Put2, Get2, PutRegs, GetRegs;
    var d := RequestData(WriteRegs(address, regs));
    assert d == Put2(address) + Put2(|regs|) + ([2 * |regs|] + PutRegs(regs));
    TwoWords(address, |regs|, [2 * |regs|] + PutRegs(regs));
    assert d[5..] == PutRegs(regs);
    RegsArrive(regs);
  }

  /** The server answers a valid request with what its application replies. */
  lemma ServerAnswers(t: Transport, tid: word, unit: byte, device: byte, a: Application, r: Request, rest: seq<byte>)
    requires ValidApplication(a) && ValidRequest(r) && (t.Rtu? ==> unit == device)
    ensures var x := Reported(r, a.reply(r));
      Poll(t, device, a, RequestMessage(t, tid, unit, r) + rest) ==
      Sent(Message(t, if t.Rtu? then 0 else tid, unit, x.fc, x.data))
  {
    hide RecvHeader, RecvBody, Message, RequestData, Judge, Reported, Fc, FixedPart, Known, CountOf, Shaped;
    var d := RequestData(r);
    RequestShape(r);
    MessageHead(t, tid, unit, Fc(r), d, rest);
    BodyArrives(t, tid, unit, Fc(r), d, FixedPart(Fc(r)), CountOf(Fc(r)), rest);
    JudgeRequest(r, a.serves);
    if r.WriteCoil? && !a.serves(5) {
      CoilMissing(a, r);
    }
  }

  lemma CoilMissing(a: Application, r: Request)
    requires ValidApplication(a) && ValidRequest(r) && r.WriteCoil? && !a.serves(5)
    ensures Reported(r, a.reply(r)) == Exception(Fc(r), ILLEGAL_FUNCTION)
  {}

  /* ---- the client understands the answer ---- */

  /** What the client is to be told. */
  function OutcomeOf(r: Request, p: Reply): Outcome
    requires ValidRequest(r) && Fitting(r, p)
  {
    match p
    case Missing => ModbusException(ILLEGAL_FUNCTION)
    case Failed(code) => ModbusException(ExceptionOf(code))
    case Bits(b) => Values(b[..BitBytes(r.quantity)])
    case Regs(w) => Registers(w[..r.quantity])
    case Done => Written
  }

  lemma ToldException(t: Transport, tid: word, unit: byte, r: Request, code: byte, rest: seq<byte>)
    requires ValidRequest(r) && 1 <= code <= 4 && Fc(r) < 128
    ensures Receive(t, tid, unit, r, Message(t, if t.Rtu? then 0 else tid, unit, Fc(r) + 128, [code]) + rest) ==
        ModbusException(code)
  {
    hide RecvHeader, RecvBody, Message, Fc;
    var id := if t.Rtu? then 0 else tid;
    MessageHead(t, id, unit, Fc(r) + 128, [code], rest);
    BodyArrives(t, id, unit, Fc(r) + 128, [code], 1, Count.None, rest);
  }

  lemma ToldData(t: Transport, tid: word, unit: byte, r: Request, p: Reply, rest: seq<byte>)
    requires ValidRequest(r) && Fitting(r, p) && (p.Bits? || p.Regs?)
    ensures var x := Reported(r, p);
      Receive(t, tid, unit, r, Message(t, if t.Rtu? then 0 else tid, unit, x.fc, x.data) + rest) == OutcomeOf(r, p)
  {
    hide RecvHeader, RecvBody, Message, Fc, Put2, Get2, PutRegs, GetRegs, BitBytes;
    var x := Reported(r, p);
    var id := if t.Rtu? then 0 else tid;
    MessageHead(t, id, unit, x.fc, x.data, rest);
    DataCounted(r, p);
    BodyArrives(t, id, unit, x.fc, x.data, 1, if r.ReadBits? then OfBytes else OfWords, rest);
    if p.Bits? {
      assert x.data[1..] == p.bytes[..BitBytes(r.quantity)];
    } else {
      assert x.data[1..] == PutRegs(p.regs[..r.quantity]);
      RegsArrive(p.regs[..r.quantity]);
    }
  }

  lemma ToldWritten(t: Transport, tid: word, unit: byte, r: Request, rest: seq<byte>)
    requires ValidRequest(r) && Fitting(r, Done)
    ensures var x := Reported(r, Done);
      Receive(t, tid, unit, r, Message(t, if t.Rtu? then 0 else tid, unit, x.fc, x.data) + rest) == Written
  {
    hide RecvHeader, RecvBody, Message, Fc, Put2, Get2;
    var x := Reported(r, Done);
    var id := if t.Rtu? then 0 else tid;
    MessageHead(t, id, unit, x.fc, x.data, rest);
    BodyArrives(t, id, unit, x.fc, x.data, 4, Count.None, rest);
  }

  lemma DataCounted(r: Request, p: Reply)
    requires ValidRequest(r) && Fitting(r, p) && (p.Bits? || p.Regs?)
    ensures var d := Reported(r, p).data; d != [] && |d| == 1 + d[0] as int && (r.ReadRegs? ==> d[0] % 2 == 0)
  {
    hide PutRegs;
    if p.Bits? {
      BitBytesFit(r.quantity);
      hide BitBytes;
    }
  }

  lemma ExceptionReported(r: Request, p: Reply)
    requires ValidRequest(r) && Fitting(r, p) && (p.Missing? || p.Failed?)
    ensures var code := if p.Missing? then ILLEGAL_FUNCTION else ExceptionOf(p.code);
      && 1 <= code <= 4 && Fc(r) < 128
      && Reported(r, p) == Answer(Fc(r) + 128, [code]) && OutcomeOf(r, p) == ModbusException(code)
  {}

  lemma ClientTold(t: Transport, tid: word, unit: byte, r: Request, p: Reply, rest: seq<byte>)
    requires ValidRequest(r) && Fitting(r, p)
    ensures var x := Reported(r, p);
      Receive(t, tid, unit, r, Message(t, if t.Rtu? then 0 else tid, unit, x.fc, x.data) + rest) == OutcomeOf(r, p)
  {
    hide Receive, Message, Fc, Reported;
    match p
    case Missing =>
      ExceptionReported(r, p);
      ToldException(t, tid, unit, r, ILLEGAL_FUNCTION, rest);
    case Failed(code) =>
      ExceptionReported(r, p);
      ToldException(t, tid, unit, r, ExceptionOf(code), rest);
    case Done => ToldWritten(t, tid, unit, r, rest);
    case _ => ToldData(t, tid, unit, r, p, rest);
  }

  /** For every transport, function code, valid arguments and application: the client's request, the server's answer
      and the client's reading of it together tell the client exactly what the application replied, data or
      exception; an error that is no Modbus exception arrives as exception 4. */
  lemma Transparent(t: Transport, tid: word, unit: byte, device: byte, a: Application, r: Request, behind: seq<byte>)
    requires ValidApplication(a) && ValidRequest(r) && (t.Rtu? ==> unit == device != 0)
    ensures var answer := Poll(t, device, a, RequestMessage(t, tid, unit, r));
      answer.Sent? && Receive(t, tid, unit, r, answer.message + behind) == OutcomeOf(r, a.reply(r))
  {
    hide Poll, Receive, RequestMessage, Message, Reported, OutcomeOf;
    ServerAnswers(t, tid, unit, device, a, r, []);
    assert RequestMessage(t, tid, unit, r) + [] == RequestMessage(t, tid, unit, r);
    ClientTold(t, tid, unit, r, a.reply(r), behind);
  }

  /** A serial server leaves requests for other devices unanswered. */
  lemma OtherDeviceIgnored(tid: word, unit: byte, device: byte, a: Application, r: Request, rest: seq<byte>)
    requires ValidApplication(a) && ValidRequest(r) && unit != device
    ensures Poll(Rtu, device, a, RequestMessage(Rtu, tid, unit, r) + rest) == Silent(Option.None)
  {
    hide RecvHeader, RecvBody, Message;
    MessageHead(Rtu, tid, unit, Fc(r), RequestData(r), rest);
  }

  /** Requests and answers fit the message buffer. */
  lemma MessagesFit(t: Transport, tid: word, unit: byte, r: Request, p: Reply)
    requires ValidRequest(r) && Fitting(r, p)
    ensures |RequestMessage(t, tid, unit, r)| <= BUFFER
    ensures |Message(t, tid, unit, Reported(r, p).fc, Reported(r, p).data)| <= BUFFER
  {
    hide Crc, BitBytes, PutRegs;
    AnswerFits(r, p);
  }

  lemma AnswerFits(r: Request, p: Reply)
    requires ValidRequest(r) && Fitting(r, p)
    ensures |Reported(r, p).data| <= 251 && |RequestData(r)| <= 251
  {}
}
