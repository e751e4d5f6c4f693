/** Modbus messages byte by byte, after the Modbus Application Protocol V1.1b3: numbers stand with their most
    significant byte first, and all codes are given literally. */
module ModbusWire {
  import opened Bytes
  import opened ModbusFrames
  import opened ModbusTransparency

  /** The number at position i. */
  function Big(s: seq<byte>, i: nat): nat
    requires i + 1 < |s|
  {
    s[i] as int * 256 + s[i + 1] as int
  }

  /** Where the address of the device stands; the function code follows. */
  function Front(t: Transport): nat {
    if t.Rtu? then 0 else 6
  }

  /** The first n bytes of s are a message and, on a serial line, its CRC follows. */
  predicate Intact(t: Transport, s: seq<byte>, n: nat) {
    n <= |s| && (t.Rtu? ==> n + 2 <= |s| && s[n..n + 2] == Footer(Rtu, s[..n]))
  }

  /** Nothing else follows. */
  predicate Whole(t: Transport, s: seq<byte>, n: nat) {
    Intact(t, s, n) && |s| == n + if t.Rtu? then 2 else 0
  }

  /** The header of a message whose data are n bytes. */
  predicate Headed(t: Transport, s: seq<byte>, tid: word, unit: byte, fc: byte, n: nat) {
    && |s| >= Front(t) + 2 + n
    && (t.Tcp? ==> Big(s, 0) == tid && Big(s, 2) == 0 && Big(s, 4) == n + 2)
    && s[Front(t)] == unit
    && s[Front(t) + 1] == fc
  }

  lemma PutBig(w: word, s: seq<byte>, i: nat)
    requires i + 2 <= |s| && s[i..i + 2] == Put2(w)
    ensures Big(s, i) == w
  {
    assert s[i] == s[i..i + 2][0] && s[i + 1] == s[i..i + 2][1];
  }

  /** The bytes of a message. */
  lemma MessageBytes(t: Transport, tid: word, unit: byte, fc: byte, d: seq<byte>)
    requires |d| <= 253
    ensures var m, o := Message(t, tid, unit, fc, d), Front(t);
      Headed(t, m, tid, unit, fc, |d|) && Whole(t, m, o + 2 + |d|) && m[o + 2..o + 2 + |d|] == d
  {
    hide Footer, Put2;
    var m := Message(t, tid, unit, fc, d);
    var h := Header(t, tid, unit, fc, |d|);
    var n := |h| + |d|;
    assert m[..n] == h + d && m[|h|..n] == d;
    assert m[n..] == Footer(t, h + d);
    FooterTwo(t, h + d);
    if t.Tcp? {
      assert m[0..2] == Put2(tid) && m[4..6] == Put2(2 + |d|);
      PutBig(tid, m, 0);
      PutBig(2 + |d|, m, 4);
      assert m[2] == 0 && m[3] == 0;
    }
  }

  lemma FooterTwo(t: Transport, m: seq<byte>)
    ensures |Footer(t, m)| == if t.Rtu? then 2 else 0
  {
    hide Crc;
  }

  /* ---- requests ---- */

  /** The data of a request. */
  predicate Asks(d: seq<byte>, r: Request) {
    && |d| >= 4
    && Big(d, 0) == r.address
    && match r
       case ReadBits(_, _, quantity) => |d| == 4 && Big(d, 2) == quantity
       case ReadRegs(_, _, quantity) => |d| == 4 && Big(d, 2) == quantity
       case WriteCoil(_, value) => |d| == 4 && d[2] == (if value then 0xFF else 0) && d[3] == 0
       case WriteReg(_, reg) => |d| == 4 && Big(d, 2) == reg
       case WriteCoils(_, quantity, coils) =>
         && |d| == 5 + |coils| && Big(d, 2) == quantity && d[4] as int == |coils| && d[5..] == coils
       case WriteRegs(_, regs) =>
         && |d| == 5 + 2 * |regs| && Big(d, 2) == |regs| && d[4] as int == 2 * |regs|
         && forall k :: 0 <= k < |regs| ==> Big(d, 5 + 2 * k) == regs[k]
  }

  /** Coils are function 1, inputs 2, holding registers 3, input registers 4; writing is 5, 6, 15 and 16. */
  predicate Named(fc: byte, r: Request) {
    match r
    case ReadBits(inputs, _, _) => fc == if inputs then 0x02 else 0x01
    case ReadRegs(input, _, _) => fc == if input then 0x04 else 0x03
    case WriteCoil(_, _) => fc == 0x05
    case WriteReg(_, _) => fc == 0x06
    case WriteCoils(_, _, _) => fc == 0x0F
    case WriteRegs(_, _) => fc == 0x10
  }

  lemma RegsBig(regs: seq<word>, s: seq<byte>, i: nat)
    requires i + 2 * |regs| <= |s| && s[i..i + 2 * |regs|] == PutRegs(regs)
    ensures forall k :: 0 <= k < |regs| ==> Big(s, i + 2 * k) == regs[k]
  {
    RegsArrive(regs);
    hide PutRegs;
    forall k | 0 <= k < |regs|
      ensures Big(s, i + 2 * k) == regs[k]
    {
      var p := PutRegs(regs);
      assert GetRegs(p, |regs|)[k] == regs[k];
      assert p[2 * k] == s[i + 2 * k] && p[2 * k + 1] == s[i + 2 * k + 1];
    }
  }

  lemma CoilsAsk(address: word, quantity: word, coils: seq<byte>)
    requires ValidRequest(WriteCoils(address, quantity, coils))
    ensures var r := WriteCoils(address, quantity, coils); Asks(RequestData(r), r)
  {
    hide Put2, BitBytes;
    var d := RequestData(WriteCoils(address, quantity, coils));
    assert d == Put2(address) + Put2(quantity) + ([BitBytes(quantity)] + coils);
    TwoBig(address, quantity, [BitBytes(quantity)] + coils);
    assert d[5..] == coils;
  }

  lemma RegsAsk(address: word, regs: seq<word>)
    requires ValidRequest(WriteRegs(address, regs))
    ensures var r := WriteRegs(address, regs); Asks(RequestData(r), r)
  {
    hide Put2, PutRegs;
    var d := RequestData(WriteRegs(address, regs));
    assert d == Put2(address) + Put2(|regs|) + ([2 * |regs|] + PutRegs(regs));
    TwoBig(address, |regs|, [2 * |regs|] + PutRegs(regs));
    assert d[5..] == PutRegs(regs);
    RegsBig(regs, d, 5);
  }

  lemma DataAsks(r: Request)
    requires ValidRequest(r)
    ensures Asks(RequestData(r), r)
  {
    match r
    case ReadBits(_, address, quantity) => TwoBig(address, quantity, []);
    case ReadRegs(_, address, quantity) => TwoBig(address, quantity, []);
    case WriteCoil(address, value) => TwoBig(address, CoilWord(value), []);
    case WriteReg(address, reg) => TwoBig(address, reg, []);
    case WriteCoils(address, quantity, coils) => CoilsAsk(address, quantity, coils);
    case WriteRegs(address, regs) => RegsAsk(address, regs);
  }

  lemma TwoBig(a: word, b: word, rest: seq<byte>)
    ensures var d := Put2(a) + Put2(b) + rest;
      Big(d, 0) == a && Big(d, 2) == b && (rest == [] ==> d == Put2(a) + Put2(b))
  {}

  /** A request on the line. */
  lemma RequestBytes(t: Transport, tid: word, unit: byte, r: Request)
    requires ValidRequest(r)
    ensures var m, n, o := RequestMessage(t, tid, unit, r), |RequestData(r)|, Front(t);
      && Headed(t, m, tid, unit, m[o + 1], n) && Named(m[o + 1], r)
      && Asks(m[o + 2..o + 2 + n], r) && Whole(t, m, o + 2 + n)
  {
    hide Message, Asks, RequestData, Headed, Whole;
    MessageBytes(t, tid, unit, Fc(r), RequestData(r));
    MessageFront(t, tid, unit, Fc(r), RequestData(r));
    DataAsks(r);
  }

  lemma MessageFront(t: Transport, tid: word, unit: byte, fc: byte, d: seq<byte>)
    requires |d| <= 253
    ensures var m, o := Message(t, tid, unit, fc, d), Front(t);
      |m| >= o + 2 + |d| && m[o + 1] == fc
  {
    MessageBytes(t, tid, unit, fc, d);
    hide Message;
  }

  /* ---- answers ---- */

  /** The answer to a request: an exception has 128 added to the function code. */
  predicate Answers(x: Answer, fc: byte, r: Request, p: Reply)
    requires ValidRequest(r) && Fitting(r, p)
  {
    var d := x.data;
    match p
    case Missing => x.fc as int == fc as int + 0x80 && d == [1]
    case Failed(code) => x.fc as int == fc as int + 0x80 && d == [if 1 <= code <= 4 then code else 4]
    case Bits(bytes) =>
      && x.fc == fc && d != [] && |d| == 1 + d[0] as int && 8 * (d[0] as int - 1) < r.quantity <= 8 * d[0] as int
      && d[1..] <= bytes
    case Regs(regs) =>
      && x.fc == fc && |d| == 1 + 2 * r.quantity && d[0] as int == 2 * r.quantity
      && forall k :: 0 <= k < r.quantity ==> Big(d, 1 + 2 * k) == regs[k]
    case Done =>
      && x.fc == fc && |d| == 4 && Big(d, 0) == r.address
      && match r
         case WriteCoil(_, value) => d[2] == (if value then 0xFF else 0) && d[3] == 0
         case WriteReg(_, reg) => Big(d, 2) == reg
         case WriteCoils(_, quantity, _) => Big(d, 2) == quantity
         case WriteRegs(_, regs) => Big(d, 2) == |regs|
         case _ => false
  }

  lemma ReportAnswers(r: Request, p: Reply)
    requires ValidRequest(r) && Fitting(r, p)
    ensures Named(Fc(r), r) && Answers(Reported(r, p), Fc(r), r, p)
  {
    match p
    case Missing =>
    case Failed(code) =>
    case Bits(bytes) => BitsAnswer(r, p);
    case Regs(regs) => RegsAnswer(r, p);
    case Done =>
      TwoBig(r.address, Second(r), []);
  }

  lemma BitsAnswer(r: Request, p: Reply)
    requires ValidRequest(r) && Fitting(r, p) && p.Bits?
    ensures Named(Fc(r), r) && Answers(Reported(r, p), Fc(r), r, p)
  {
    var n := BitBytes(r.quantity);
    BitBytesFit(r.quantity);
    assert 8 * (n - 1) < r.quantity <= 8 * n;
    hide BitBytes;
    assert ([n as byte] + p.bytes[..n])[1..] == p.bytes[..n];
  }

  lemma RegsAnswer(r: Request, p: Reply)
    requires ValidRequest(r) && Fitting(r, p) && p.Regs?
    ensures Named(Fc(r), r) && Answers(Reported(r, p), Fc(r), r, p)
  {
    hide PutRegs;
    var d := Reported(r, p).data;
    assert d[1..1 + 2 * r.quantity] == PutRegs(p.regs[..r.quantity]);
    RegsBig(p.regs[..r.quantity], d, 1);
    forall k | 0 <= k < r.quantity
      ensures Big(d, 1 + 2 * k) == p.regs[k]
    {
      assert p.regs[..r.quantity][k] == p.regs[k];
    }
  }

  /* ---- what a server listens to ---- */

  /** The message at the head of s, as far as the server reads it, is addressed to the device and complete. Of
      written registers an odd byte at the end is read but left out of the CRC. */
  predicate Heard(t: Transport, device: byte, s: seq<byte>) {
    var o := Front(t);
    && |s| >= o + 6
    && (t.Tcp? ==> Big(s, 2) == 0 && Big(s, 4) <= 255)
    && (t.Rtu? ==> s[0] == device)
    && (1 <= s[o + 1] <= 6 || s[o + 1] == 15 || s[o + 1] == 16)
    && (s[o + 1] >= 15 ==> |s| >= o + 7)
    && var e := MessageEnd(t, s);
      && e <= |s|
      && (t.Rtu? ==> e + 2 <= |s| && s[e..e + 2] == Footer(Rtu, s[..e - Odd(t, s)]))
  }

  function MessageEnd(t: Transport, s: seq<byte>): nat
    requires |s| >= Front(t) + 6 && (s[Front(t) + 1] >= 15 ==> |s| >= Front(t) + 7)
  {
    var o := Front(t);
    if s[o + 1] >= 15 then o + 7 + s[o + 6] else o + 6
  }

  function Odd(t: Transport, s: seq<byte>): (n: nat)
    requires |s| >= Front(t) + 6 && (s[Front(t) + 1] >= 15 ==> |s| >= Front(t) + 7)
    ensures n < MessageEnd(t, s)
  {
    var o := Front(t);
    if s[o + 1] == 16 then s[o + 6] % 2 else 0
  }

  /** The data behind the function code. */
  function DataOf(t: Transport, s: seq<byte>): (d: seq<byte>)
    requires |s| >= Front(t) + 6 && (s[Front(t) + 1] >= 15 ==> |s| >= Front(t) + 7) && MessageEnd(t, s) <= |s|
    ensures |d| >= 4 && (s[Front(t) + 1] >= 15 ==> |d| >= 5)
  {
    s[Front(t) + 2..MessageEnd(t, s) - Odd(t, s)]
  }

  lemma PutGet(a: byte, b: byte, w: word)
    ensures Get2(a, b) == w <==> [a, b] == Put2(w)
  {}

  lemma FooterRead(t: Transport, m: seq<byte>, r: seq<byte>)
    ensures RecvFooter(t, m, r).Got? <==> (t.Rtu? ==> |r| >= 2 && r[..2] == Footer(Rtu, m))
    ensures t.Rtu? && |r| < 2 ==> RecvFooter(t, m, r) == Fault(Timeout)
    ensures t.Rtu? && |r| >= 2 && r[..2] != Footer(Rtu, m) ==> RecvFooter(t, m, r) == Fault(BadCrc)
    ensures RecvFooter(t, m, r).Got? ==> RecvFooter(t, m, r).rest == if t.Rtu? then r[2..] else r
  {
    if t.Rtu? && |r| >= 2 {
      PutGet(r[0], r[1], Crc(m));
      assert r[..2] == [r[0], r[1]];
    }
    hide Crc, Get2, Put2;
  }

  lemma HeaderRead(t: Transport, s: seq<byte>)
    ensures RecvHeader(t, s).Got? <==> |s| >= Front(t) + 2 && (t.Tcp? ==> Big(s, 2) == 0 && Big(s, 4) <= 255)
    ensures |s| < Front(t) + 2 ==> RecvHeader(t, s) == Fault(Timeout)
    ensures |s| >= Front(t) + 2 && RecvHeader(t, s).Fault? ==> RecvHeader(t, s) == Fault(InvalidMbap)
    ensures RecvHeader(t, s).Got? ==>
      RecvHeader(t, s).v == Head(if t.Tcp? then Big(s, 0) else 0, s[Front(t)], s[Front(t) + 1])
  {}

  /** How many bytes the counted part has. */
  function Counted(t: Transport, s: seq<byte>, n: nat, c: Count): nat
    requires n >= 1
  {
    if c.None? || |s| < Front(t) + 2 + n then 0 else s[Front(t) + 1 + n]
  }

  lemma BodyShort(t: Transport, s: seq<byte>, n: nat, c: Count)
    requires n >= 1 && |s| >= Front(t) + 2 && |s| < Front(t) + 2 + n + Counted(t, s, n, c)
    ensures RecvBody(t, s, n, c) == Fault(Timeout)
  {
    hide RecvFooter, Used;
  }

  lemma BodyPieces(s: seq<byte>, h: nat, n: nat, k: nat, v: nat)
    requires h + n + k <= |s| && v <= k
    ensures var a, rest := s[h..][..n], s[h..][n..];
      && |rest| >= k && s[..h] + (a + rest[..k][..v]) == s[..h + n + v] && a + rest[..k][..v] == s[h..h + n + v]
      && rest[k..] == s[h + n + k..]
  {}

  lemma BodyWhole(t: Transport, s: seq<byte>, n: nat, c: Count)
    requires n >= 1 && |s| >= Front(t) + 2 && |s| >= Front(t) + 2 + n + Counted(t, s, n, c)
    ensures var k := Counted(t, s, n, c);
      var e := Front(t) + 2 + n + k;
      var u := e - k + Used(c, k);
      var f := RecvFooter(t, s[..u], s[e..]);
      RecvBody(t, s, n, c) == if f.Fault? then Fault(f.e) else Got(s[Front(t) + 2..u], f.rest)
  {
    hide RecvFooter, Used;
    var k := Counted(t, s, n, c);
    BodyPieces(s, Front(t) + 2, n, k, Used(c, k));
  }

  /** A body of n bytes and a counted part is complete exactly if its bytes and its footer have come. */
  lemma BodyRead(t: Transport, s: seq<byte>, n: nat, c: Count)
    requires n >= 1 && |s| >= Front(t) + 2
    ensures var h := Front(t) + 2;
      var k := Counted(t, s, n, c);
      var e := h + n + k;
      var u := e - k + Used(c, k);
      var r := RecvBody(t, s, n, c);
      && (r.Got? <==> e <= |s| && (t.Rtu? ==> e + 2 <= |s| && s[e..e + 2] == Footer(Rtu, s[..u])))
      && (r.Got? ==> r.v == s[h..u])
      && (r.Fault? ==> r.e == if |s| < e || (t.Rtu? && |s| < e + 2) then Timeout else BadCrc)
  {
    hide Footer, RecvFooter, RecvBody, Used;
    var k := Counted(t, s, n, c);
    var e := Front(t) + 2 + n + k;
    if |s| < e {
      BodyShort(t, s, n, c);
    } else {
      BodyWhole(t, s, n, c);
      FooterRead(t, s[..e - k + Used(c, k)], s[e..]);
      assert |s| >= e + 2 ==> s[e..][..2] == s[e..e + 2];
    }
  }

  lemma PartsAgree(t: Transport, s: seq<byte>)
    requires |s| >= Front(t) + 6 && Known(s[Front(t) + 1])
    requires s[Front(t) + 1] >= 15 ==> |s| >= Front(t) + 7
    requires MessageEnd(t, s) <= |s|
    ensures var o, fc := Front(t), s[Front(t) + 1];
      && Known(fc) && Shaped(fc, DataOf(t, s))
      && (fc >= 15 ==> s[o + 6] == DataOf(t, s)[4])
  {}

  /** The server answers exactly the messages that it hears, under the address and the number that they bear. */
  lemma ServerListens(t: Transport, device: byte, a: Application, s: seq<byte>)
    requires ValidApplication(a)
    ensures Poll(t, device, a, s).Sent? <==> Heard(t, device, s)
    ensures Heard(t, device, s) ==>
      var o := Front(t);
      && Known(s[o + 1]) && Shaped(s[o + 1], DataOf(t, s))
      && var x := AnswerTo(a, s[o + 1], DataOf(t, s));
         Poll(t, device, a, s) == Sent(Message(t, if t.Tcp? then Big(s, 0) else 0, s[o], x.fc, x.data))
  {
    hide RecvHeader, RecvBody, Message, AnswerTo, Footer, ValidApplication, Shaped;
    HeaderRead(t, s);
    var o := Front(t);
    if RecvHeader(t, s).Got? && Known(s[o + 1]) {
      BodyRead(t, s, FixedPart(s[o + 1]), CountOf(s[o + 1]));
      if |s| >= o + 6 && (s[o + 1] >= 15 ==> |s| >= o + 7) && MessageEnd(t, s) <= |s| {
        PartsAgree(t, s);
      }
    }
  }

  /* ---- what the server objects to ---- */

  /** The most items of a function. */
  function Limit(fc: byte): nat {
    match fc
    case 1 => 2000
    case 2 => 2000
    case 3 => 125
    case 4 => 125
    case 15 => 1968
    case 16 => 123
    case _ => 1
  }

  /** No items or too many; a coil that is neither on nor off. */
  predicate BadValue(fc: byte, d: seq<byte>)
    requires |d| >= 4
  {
    match fc
    case 5 => d[3] != 0 || (d[2] != 0 && d[2] != 0xFF)
    case 6 => false
    case _ => !(1 <= Big(d, 2) <= Limit(fc))
  }

  /** Items beyond the last address. */
  predicate BadAddress(fc: byte, d: seq<byte>)
    requires |d| >= 4
  {
    fc != 5 && fc != 6 && Big(d, 0) + Big(d, 2) > 65536
  }

  /** A number of bytes that does not go with the number of items. */
  predicate BadCount(fc: byte, d: seq<byte>)
    requires |d| >= 4 && (fc >= 15 ==> |d| >= 5)
  {
    match fc
    case 15 => !(8 * (d[4] as int - 1) < Big(d, 2) <= 8 * d[4] as int)
    case 16 => d[4] as int != 2 * Big(d, 2)
    case _ => false
  }

  lemma ShapedLong(fc: byte, d: seq<byte>)
    requires Known(fc) && Shaped(fc, d)
    ensures |d| >= 4 && (fc >= 15 ==> |d| >= 5)
  {}

  /** The exception that data deserve. */
  predicate Deserves(fc: byte, d: seq<byte>, serves: byte -> bool, code: byte)
    requires |d| >= 4 && (fc >= 15 ==> |d| >= 5)
  {
    if fc == 5 && !serves(5) then code == 1
    else if BadValue(fc, d) then code == 3
    else if BadAddress(fc, d) then code == 2
    else code == 3 && BadCount(fc, d)
  }

  lemma CountBytes(quantity: nat, count: nat)
    ensures BitBytes(quantity) == count <==> 8 * (count - 1) < quantity <= 8 * count
  {}

  lemma CoilValue(a: byte, b: byte)
    ensures Get2(a, b) == 0 <==> a == 0 && b == 0
    ensures Get2(a, b) == 0xFF00 <==> a == 0xFF && b == 0
  {}

  lemma BigIs(d: seq<byte>, i: nat)
    requires i + 1 < |d|
    ensures Get2(d[i], d[i + 1]) == Big(d, i)
  {}

  /** What the server does not object to is a valid request, and the one that the bytes spell. */
  lemma JudgedExactly(fc: byte, d: seq<byte>, serves: byte -> bool)
    requires Known(fc) && Shaped(fc, d)
    ensures |d| >= 4 && (fc >= 15 ==> |d| >= 5)
    ensures match Judge(fc, d, serves)
            case Wrong(code) => Deserves(fc, d, serves, code)
            case Fine(r) =>
              && (forall c: byte :: !Deserves(fc, d, serves, c))
              && ValidRequest(r) && Named(fc, r) && Asks(d, r) && Fc(r) == fc
  {
    ShapedLong(fc, d);
    hide Judge, Deserves, Named, Asks, Shaped, ValidRequest, Fc;
    if fc == 5 {
      JudgedCoil(d, serves);
    } else if fc == 15 {
      JudgedCoils(d, serves);
    } else if fc == 16 {
      JudgedRegs(d, serves);
    } else {
      JudgedPlain(fc, d, serves);
    }
  }

  lemma JudgedPlain(fc: byte, d: seq<byte>, serves: byte -> bool)
    requires Known(fc) && Shaped(fc, d) && fc != 5 && fc < 15
    ensures |d| >= 4
    ensures match Judge(fc, d, serves)
            case Wrong(code) => Deserves(fc, d, serves, code)
            case Fine(r) => (forall c: byte :: !Deserves(fc, d, serves, c)) && Named(fc, r) && Asks(d, r)
  {
    BigIs(d, 0);
    BigIs(d, 2);
    hide Get2, Big;
  }

  lemma JudgeCoilIs(d: seq<byte>, serves: byte -> bool)
    requires Shaped(5, d)
    ensures |d| >= 4
    ensures var address, second := Get2(d[0], d[1]), Get2(d[2], d[3]);
      Judge(5, d, serves) ==
      if !serves(5) then Wrong(1) else if second != 0 && second != 0xFF00 then Wrong(3)
      else Fine(WriteCoil(address, second != 0))
  {
    hide Get2, JudgeRange, GetRegs, BitBytes;
  }

  lemma JudgedCoil(d: seq<byte>, serves: byte -> bool)
    requires Shaped(5, d)
    ensures |d| >= 4
    ensures match Judge(5, d, serves)
            case Wrong(code) => Deserves(5, d, serves, code)
            case Fine(r) => (forall c: byte :: !Deserves(5, d, serves, c)) && Named(5, r) && Asks(d, r)
  {
    hide Judge, Get2, Big;
    JudgeCoilIs(d, serves);
    BigIs(d, 0);
    CoilValue(d[2], d[3]);
  }

  lemma JudgedCoils(d: seq<byte>, serves: byte -> bool)
    requires Shaped(15, d)
    ensures |d| >= 5
    ensures match Judge(15, d, serves)
            case Wrong(code) => Deserves(15, d, serves, code)
            case Fine(r) => (forall c: byte :: !Deserves(15, d, serves, c)) && Named(15, r) && Asks(d, r)
  {
    BigIs(d, 0);
    BigIs(d, 2);
    CountBytes(Big(d, 2), d[4]);
    hide Get2, BitBytes, Big;
  }

  lemma JudgedRegs(d: seq<byte>, serves: byte -> bool)
    requires Shaped(16, d)
    ensures |d| >= 5
    ensures match Judge(16, d, serves)
            case Wrong(code) => Deserves(16, d, serves, code)
            case Fine(r) => (forall c: byte :: !Deserves(16, d, serves, c)) && Named(16, r) && Asks(d, r)
  {
    BigIs(d, 0);
    BigIs(d, 2);
    var n := Big(d, 2);
    if |d| == 5 + 2 * n && d[4] as int == 2 * n {
      forall k | 0 <= k < n
        ensures GetRegs(d[5..], n)[k] == Big(d, 5 + 2 * k)
      {
        assert d[5..][2 * k] == d[5 + 2 * k] && d[5..][2 * k + 1] == d[5 + 2 * k + 1];
      }
    }
    hide Get2, Big, GetRegs;
  }

  /** A server on any bytes: what it hears it answers, with the exception that the data deserve or with what the
      application replies to the request that the bytes spell; whatever else comes, it leaves unanswered. */
  lemma ServerExact(t: Transport, device: byte, a: Application, s: seq<byte>)
    requires ValidApplication(a)
    ensures Poll(t, device, a, s).Sent? <==> Heard(t, device, s)
    ensures Heard(t, device, s) ==>
      var o, d := Front(t), DataOf(t, s);
      var fc := s[o + 1];
      exists x: Answer :: |x.data| <= 251
        && Poll(t, device, a, s) == Sent(Message(t, if t.Tcp? then Big(s, 0) else 0, s[o], x.fc, x.data))
        && (forall code: byte :: Deserves(fc, d, a.serves, code) ==>
              x.fc as int == fc as int + 0x80 && x.data == [code])
        && ((forall code: byte :: !Deserves(fc, d, a.serves, code)) ==>
              exists r :: ValidRequest(r) && Named(fc, r) && Asks(d, r) && Answers(x, fc, r, a.reply(r)))
  {
    hide Poll, Heard, Message, Judge, Reported, Deserves, Named, Asks, Answers;
    ServerListens(t, device, a, s);
    if Heard(t, device, s) {
      HeardLong(t, device, s);
      var fc, d := s[Front(t) + 1], DataOf(t, s);
      JudgedExactly(fc, d, a.serves);
      var x := AnswerTo(a, fc, d);
      match Judge(fc, d, a.serves)
      case Wrong(code) => OneCode(fc, d, a.serves, code);
      case Fine(r) => ReportAnswers(r, a.reply(r));
    }
  }

  lemma HeardLong(t: Transport, device: byte, s: seq<byte>)
    requires Heard(t, device, s)
    ensures |s| >= Front(t) + 6 && (s[Front(t) + 1] >= 15 ==> |s| >= Front(t) + 7) && MessageEnd(t, s) <= |s|
  {}

  lemma OneCode(fc: byte, d: seq<byte>, serves: byte -> bool, code: byte)
    requires |d| >= 4 && (fc >= 15 ==> |d| >= 5) && Deserves(fc, d, serves, code)
    ensures forall c: byte :: Deserves(fc, d, serves, c) ==> c == code
  {}

  /* ---- what the client believes ---- */

  /** The header that the client waits for. */
  predicate Expected(t: Transport, tid: word, unit: byte, s: seq<byte>) {
    && |s| >= Front(t) + 2
    && (t.Tcp? ==> Big(s, 0) == tid && Big(s, 2) == 0 && Big(s, 4) <= 255)
    && (t.Rtu? ==> s[0] == unit)
  }

  /** The bytes tell the client this. */
  predicate Tells(t: Transport, s: seq<byte>, r: Request, x: Outcome)
    requires |s| >= Front(t) + 2 && ValidRequest(r)
  {
    var o := Front(t);
    match x
    case ModbusException(code) =>
      && s[o + 1] >= 128 && Named(s[o + 1] - 128, r) && 1 <= code <= 4 && |s| >= o + 3 && s[o + 2] == code
      && Intact(t, s, o + 3)
    case Values(bytes) =>
      && r.ReadBits? && Named(s[o + 1], r) && |s| >= o + 3 && Intact(t, s, o + 3 + s[o + 2])
      && bytes == s[o + 3..o + 3 + s[o + 2]]
    case Registers(regs) =>
      && r.ReadRegs? && Named(s[o + 1], r) && |s| >= o + 3 && s[o + 2] as int == 2 * r.quantity
      && Intact(t, s, o + 3 + 2 * r.quantity)
      && |regs| == r.quantity && forall k :: 0 <= k < r.quantity ==> Big(s, o + 3 + 2 * k) == regs[k]
    case Written =>
      && !r.ReadBits? && !r.ReadRegs? && Named(s[o + 1], r) && |s| >= o + 6 && Intact(t, s, o + 6)
      && Answers(Answer(s[o + 1], s[o + 2..o + 6]), s[o + 1], r, Done)
    case Broken(_) => false
  }

  lemma NamedFc(fc: byte, r: Request)
    ensures Named(fc, r) <==> fc == Fc(r)
    ensures 1 <= Fc(r) < 128
  {}

  lemma DoneExact(d: seq<byte>, r: Request)
    requires ValidRequest(r) && !r.ReadBits? && !r.ReadRegs? && |d| == 4
    ensures Answers(Answer(Fc(r), d), Fc(r), r, Done) <==> d == Reported(r, Done).data
  {
    ReportAnswers(r, Done);
    var x := Reported(r, Done).data;
    if Answers(Answer(Fc(r), d), Fc(r), r, Done) {
      BigSame(d, x, 0);
      if !r.WriteCoil? {
        BigSame(d, x, 2);
      }
    }
  }

  lemma BigSame(a: seq<byte>, b: seq<byte>, i: nat)
    requires i + 1 < |a| && i + 1 < |b|
    ensures Big(a, i) == Big(b, i) <==> a[i] == b[i] && a[i + 1] == b[i + 1]
  {}

  lemma ExceptionRead(t: Transport, r: Request, s: seq<byte>)
    requires ValidRequest(r) && |s| >= Front(t) + 2 && s[Front(t) + 1] as int == Fc(r) + 128
    ensures var o, x := Front(t), ReceiveBody(t, s[Front(t) + 1], r, s);
      if |s| >= o + 3 && 1 <= s[o + 2] <= 4 && Intact(t, s, o + 3) then x == ModbusException(s[o + 2]) else x.Broken?
  {
    hide Footer, Fc, Recv, RecvFooter;
    BodyRead(t, s, 1, Count.None);
    hide RecvBody;
  }

  lemma ExceptionTold(t: Transport, r: Request, s: seq<byte>, x: Outcome)
    requires ValidRequest(r) && |s| >= Front(t) + 2 && s[Front(t) + 1] as int == Fc(r) + 128 && !x.Broken?
    ensures ReceiveBody(t, s[Front(t) + 1], r, s) == x <==> Tells(t, s, r, x)
  {
    hide ReceiveBody, Footer, Named, Fc, Intact;
    NamedFc(s[Front(t) + 1] - 128, r);
    NamedFc(s[Front(t) + 1], r);
    ExceptionRead(t, r, s);
  }

  /** What a client makes of the bytes that answer a read of coils or inputs. */
  lemma BitsRead(t: Transport, r: Request, s: seq<byte>)
    requires ValidRequest(r) && r.ReadBits? && |s| >= Front(t) + 2 && s[Front(t) + 1] == Fc(r)
    ensures var o, x := Front(t), ReceiveBody(t, s[Front(t) + 1], r, s);
      if |s| >= o + 3 && Intact(t, s, o + 3 + s[o + 2]) then x == Values(s[o + 3..o + 3 + s[o + 2]]) else x.Broken?
  {
    hide Footer, Fc, Recv, RecvFooter;
    BodyRead(t, s, 1, OfBytes);
    hide RecvBody;
  }

  lemma BitsTold(t: Transport, r: Request, s: seq<byte>, x: Outcome)
    requires ValidRequest(r) && r.ReadBits? && |s| >= Front(t) + 2 && s[Front(t) + 1] == Fc(r) && !x.Broken?
    ensures ReceiveBody(t, s[Front(t) + 1], r, s) == x <==> Tells(t, s, r, x)
  {
    hide ReceiveBody, Footer, Named, Fc, Intact;
    NamedFc(s[Front(t) + 1], r);
    NotShifted(s[Front(t) + 1], r);
    BitsRead(t, r, s);
  }

  lemma NotShifted(fc: byte, r: Request)
    requires fc == Fc(r)
    ensures fc >= 128 ==> !Named(fc - 128, r)
  {}

  lemma RegsRead(t: Transport, r: Request, s: seq<byte>)
    requires ValidRequest(r) && r.ReadRegs? && |s| >= Front(t) + 2 && s[Front(t) + 1] == Fc(r)
    ensures var o, q, x := Front(t), r.quantity, ReceiveBody(t, s[Front(t) + 1], r, s);
      if |s| >= o + 3 && s[o + 2] as int == 2 * q && Intact(t, s, o + 3 + 2 * q)
      then x == Registers(GetRegs(s[o + 3..o + 3 + 2 * q], q)) else x.Broken?
  {
    hide Footer, Fc, Recv, RecvFooter, GetRegs;
    BodyRead(t, s, 1, OfWords);
    hide RecvBody;
  }

  lemma RegsTold(t: Transport, r: Request, s: seq<byte>, x: Outcome)
    requires ValidRequest(r) && r.ReadRegs? && |s| >= Front(t) + 2 && s[Front(t) + 1] == Fc(r) && !x.Broken?
    ensures ReceiveBody(t, s[Front(t) + 1], r, s) == x <==> Tells(t, s, r, x)
  {
    hide ReceiveBody, Footer, Named, Fc, GetRegs, Big;
    var o, q := Front(t), r.quantity;
    NamedFc(s[o + 1], r);
    NotShifted(s[o + 1], r);
    RegsRead(t, r, s);
    if |s| >= o + 3 + 2 * q {
      RegsOfBytes(s, o + 3, q);
    }
  }

  lemma RegsOfBytes(s: seq<byte>, i: nat, n: nat)
    requires i + 2 * n <= |s|
    ensures forall regs: seq<word> ::
      GetRegs(s[i..i + 2 * n], n) == regs <==> |regs| == n && forall k :: 0 <= k < n ==> Big(s, i + 2 * k) == regs[k]
  {
    var d := s[i..i + 2 * n];
    var g := GetRegs(d, n);
    forall k | 0 <= k < n
      ensures g[k] == Big(s, i + 2 * k)
    {
      assert d[2 * k] == s[i + 2 * k] && d[2 * k + 1] == s[i + 2 * k + 1];
    }
  }

  lemma WrittenRead(t: Transport, r: Request, s: seq<byte>)
    requires ValidRequest(r) && !r.ReadBits? && !r.ReadRegs?
    requires |s| >= Front(t) + 2 && s[Front(t) + 1] == Fc(r)
    ensures var o, x := Front(t), ReceiveBody(t, s[Front(t) + 1], r, s);
      if |s| >= o + 6 && Intact(t, s, o + 6) && s[o + 2..o + 6] == Reported(r, Done).data then x == Written
      else x.Broken?
  {
    hide Footer, Fc, Recv, RecvFooter, Reported;
    BodyRead(t, s, 4, Count.None);
    hide RecvBody;
  }

  lemma WrittenTold(t: Transport, r: Request, s: seq<byte>, x: Outcome)
    requires ValidRequest(r) && !r.ReadBits? && !r.ReadRegs?
    requires |s| >= Front(t) + 2 && s[Front(t) + 1] == Fc(r) && !x.Broken?
    ensures ReceiveBody(t, s[Front(t) + 1], r, s) == x <==> Tells(t, s, r, x)
  {
    var o := Front(t);
    hide ReceiveBody, Footer, Named, Fc, Answers, Reported, Intact;
    NamedFc(s[o + 1], r);
    NotShifted(s[o + 1], r);
    WrittenRead(t, r, s);
    if |s| >= o + 6 {
      DoneExact(s[o + 2..o + 6], r);
    }
  }

  /** A client on any bytes: it believes what they tell it, if they stand under the header that it waits for, and
      nothing else. */
  lemma ClientExact(t: Transport, tid: word, unit: byte, r: Request, s: seq<byte>, x: Outcome)
    requires ValidRequest(r) && !x.Broken?
    ensures Receive(t, tid, unit, r, s) == x <==> Expected(t, tid, unit, s) && Tells(t, s, r, x)
  {
    HeaderRead(t, s);
    if Expected(t, tid, unit, s) {
      var fc := s[Front(t) + 1];
      if fc as int == Fc(r) + 128 {
        ExceptionTold(t, r, s, x);
      } else if fc == Fc(r) {
        if r.ReadBits? {
          BitsTold(t, r, s, x);
        } else if r.ReadRegs? {
          RegsTold(t, r, s, x);
        } else {
          WrittenTold(t, r, s, x);
        }
      } else {
        Unnamed(t, r, s, x);
      }
    }
    hide RecvHeader, ReceiveBody, Tells, Fc;
  }

  lemma Unnamed(t: Transport, r: Request, s: seq<byte>, x: Outcome)
    requires ValidRequest(r) && |s| >= Front(t) + 2 && !x.Broken?
    requires var fc := s[Front(t) + 1]; fc != Fc(r) && fc as int != Fc(r) + 128
    ensures ReceiveBody(t, s[Front(t) + 1], r, s) == Broken(InvalidResponse) && !Tells(t, s, r, x)
  {
    var fc := s[Front(t) + 1];
    NamedFc(fc, r);
    if fc >= 128 {
      NamedFc(fc - 128, r);
    }
    hide Fc, Named, RecvBody, Intact;
  }
}
