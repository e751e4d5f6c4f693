/** Modbus messages over a serial line (RTU) and TCP, and what server and client make of the bytes they receive:
    section 6 of the Modbus Application Protocol V1.1b3, function codes 1 to 6, 15 and 16. */
module ModbusFrames {
  import opened Bytes

  type word = x: int | 0 <= x < 0x1_0000

  datatype Transport = Rtu | Tcp

  datatype Error = InvalidUnit | InvalidMbap | BadCrc | Timeout | InvalidResponse | InvalidArgument

  const BUFFER := 260

  /* ---- words ---- */

  function Put2(w: word): (s: seq<byte>)
    ensures |s| == 2
  {
    [w / 256, w % 256]
  }

  function Get2(a: byte, b: byte): word {
    a as int * 256 + b as int
  }

  function PutRegs(regs: seq<word>): (s: seq<byte>)
    ensures |s| == 2 * |regs|
  {
    if regs == [] then [] else PutRegs(regs[..|regs| - 1]) + Put2(regs[|regs| - 1])
  }

  function GetRegs(s: seq<byte>, n: nat): (regs: seq<word>)
    requires 2 * n <= |s|
    ensures |regs| == n
  {
    seq(n, i requires 0 <= i < n => Get2(s[2 * i], s[2 * i + 1]))
  }

  /* ---- the CRC of the serial line ---- */

  function CrcBit(c: bv16): bv16 {
    if c & 1 != 0 then (c >> 1) ^ 0xA001 else c >> 1
  }

  function CrcBits(n: nat, c: bv16): bv16 {
    if n == 0 then c else CrcBit(CrcBits(n - 1, c))
  }

  function CrcByte(c: bv16, b: byte): bv16 {
    CrcBits(8, c ^ (b as bv16))
  }

  function CrcFold(s: seq<byte>): bv16 {
    if s == [] then 0xFFFF else CrcByte(CrcFold(s[..|s| - 1]), s[|s| - 1])
  }

  function Swapped(c: bv16): word {
    ((c << 8) | (c >> 8)) as int
  }

  /** The CRC with its bytes swapped, as it is put into a message. */
  function Crc(s: seq<byte>): word {
    Swapped(CrcFold(s))
  }

  /* ---- messages ---- */

  function Header(t: Transport, tid: word, unit: byte, fc: byte, n: nat): (s: seq<byte>)
    requires n <= 253
    ensures |s| == if t.Rtu? then 2 else 8
  {
    if t.Rtu? then [unit, fc] else Put2(tid) + [0, 0] + Put2(2 + n) + [unit, fc]
  }

  function Footer(t: Transport, m: seq<byte>): seq<byte> {
    if t.Rtu? then Put2(Crc(m)) else []
  }

  function Message(t: Transport, tid: word, unit: byte, fc: byte, data: seq<byte>): seq<byte>
    requires |data| <= 253
  {
    var m := Header(t, tid, unit, fc, |data|) + data;
    m + Footer(t, m)
  }

  /* ---- requests ---- */

  datatype Request =
    | ReadBits(inputs: bool, address: word, quantity: word)
    | ReadRegs(input: bool, address: word, quantity: word)
    | WriteCoil(address: word, value: bool)
    | WriteReg(address: word, reg: word)
    | WriteCoils(address: word, quantity: word, coils: seq<byte>)
    | WriteRegs(address: word, regs: seq<word>)

  function Fc(r: Request): byte {
    match r
    case ReadBits(inputs, _, _) => if inputs then 2 else 1
    case ReadRegs(input, _, _) => if input then 4 else 3
    case WriteCoil(_, _) => 5
    case WriteReg(_, _) => 6
    case WriteCoils(_, _, _) => 15
    case WriteRegs(_, _) => 16
  }

  function BitBytes(quantity: nat): nat {
    (quantity + 7) / 8
  }

  /** The arguments that the client sends; others it rejects. */
  predicate ValidRequest(r: Request) {
    match r
    case ReadBits(_, address, quantity) => 1 <= quantity <= 2000 && address + quantity <= 0x1_0000
    case ReadRegs(_, address, quantity) => 1 <= quantity <= 125 && address + quantity <= 0x1_0000
    case WriteCoil(_, _) => true
    case WriteReg(_, _) => true
    case WriteCoils(address, quantity, coils) =>
      1 <= quantity <= 0x7B0 && address + quantity <= 0x1_0000 && |coils| == BitBytes(quantity)
    case WriteRegs(address, regs) => 1 <= |regs| <= 0x7B && address + |regs| <= 0x1_0000
  }

  function CoilWord(value: bool): word {
    if value then 0xFF00 else 0
  }

  /** What follows the function code. */
  function RequestData(r: Request): (d: seq<byte>)
    requires ValidRequest(r)
    ensures |d| <= 251
  {
    match r
    case ReadBits(_, address, quantity) => Put2(address) + Put2(quantity)
    case ReadRegs(_, address, quantity) => Put2(address) + Put2(quantity)
    case WriteCoil(address, value) => Put2(address) + Put2(CoilWord(value))
    case WriteReg(address, reg) => Put2(address) + Put2(reg)
    case WriteCoils(address, quantity, coils) => Put2(address) + Put2(quantity) + [BitBytes(quantity)] + coils
    case WriteRegs(address, regs) => Put2(address) + Put2(|regs|) + [2 * |regs|] + PutRegs(regs)
  }

  function RequestMessage(t: Transport, tid: word, unit: byte, r: Request): seq<byte>
    requires ValidRequest(r)
  {
    Message(t, tid, unit, Fc(r), RequestData(r))
  }

  /* ---- reading from the line ---- */

  datatype Read<+T> = Got(v: T, rest: seq<byte>) | Fault(e: Error)

  /** n bytes, or a timeout if there are not so many. */
  function Recv(s: seq<byte>, n: nat): Read<seq<byte>> {
    if |s| < n then Fault(Timeout) else Got(s[..n], s[n..])
  }

  datatype Head = Head(tid: word, unit: byte, fc: byte)

  function HeaderSize(t: Transport): nat {
    if t.Rtu? then 2 else 8
  }

  function RecvHeader(t: Transport, s: seq<byte>): Read<Head> {
    match Recv(s, HeaderSize(t))
    case Fault(e) => Fault(e)
    case Got(h, rest) =>
      if t.Rtu? then Got(Head(0, h[0], h[1]), rest)
      else if Get2(h[2], h[3]) != 0 || Get2(h[4], h[5]) > 255 then Fault(InvalidMbap)
      else Got(Head(Get2(h[0], h[1]), h[6], h[7]), rest)
  }

  /** The CRC behind message m. */
  function RecvFooter(t: Transport, m: seq<byte>, s: seq<byte>): Read<()> {
    if t.Tcp? then Got((), s)
    else
      match Recv(s, 2)
      case Fault(e) => Fault(e)
      case Got(b, rest) => if Get2(b[0], b[1]) != Crc(m) then Fault(BadCrc) else Got((), rest)
  }

  /** What follows the fixed part of a message: nothing, or as many bytes as its last byte says;
      where words are expected, an odd byte at the end is not taken into the message. */
  datatype Count = None | OfBytes | OfWords

  function Used(c: Count, k: nat): (u: nat)
    ensures u <= k && (c.None? ==> u == 0)
  {
    match c
    case None => 0
    case OfBytes => k
    case OfWords => k - k % 2
  }

  /** A fixed part of n bytes, the counted part, and the footer. */
  function RecvBody(t: Transport, s: seq<byte>, n: nat, c: Count): (r: Read<seq<byte>>)
    requires n >= 1 && |s| >= HeaderSize(t)
    ensures r.Got? ==> |r.v| >= n && |r.v| == n + Used(c, r.v[n - 1])
  {
    var size := HeaderSize(t);
    match Recv(s[size..], n)
    case Fault(e) => Fault(e)
    case Got(a, rest) =>
      match Recv(rest, if c.None? then 0 else a[n - 1])
      case Fault(e) => Fault(e)
      case Got(b, rest2) =>
        var d := a + b[..Used(c, |b|)];
        match RecvFooter(t, s[..size] + d, rest2)
        case Fault(e) => Fault(e)
        case Got(_, rest3) => Got(d, rest3)
  }

  /* ---- the server ---- */

  /** What the application answers to a request: its data, an error code, or that it does not serve it. */
  datatype Reply = Missing | Failed(code: int) | Bits(bytes: seq<byte>) | Regs(regs: seq<word>) | Done

  const ILLEGAL_FUNCTION: byte := 1
  const ILLEGAL_ADDRESS: byte := 2
  const ILLEGAL_VALUE: byte := 3
  const DEVICE_FAILURE: byte := 4

  /** Replies have the form that the callback's parameters give them. */
  predicate Fitting(r: Request, p: Reply) {
    match p
    case Missing => true
    case Failed(code) => code != 0
    case Bits(b) => r.ReadBits? && |b| == 250
    case Regs(w) => r.ReadRegs? && |w| == 125
    case Done => !r.ReadBits? && !r.ReadRegs?
  }

  function ExceptionOf(code: int): byte {
    if 0 < code < 5 then code else DEVICE_FAILURE
  }

  datatype Answer = Answer(fc: byte, data: seq<byte>)

  function Exception(fc: byte, code: byte): Answer
    requires fc < 128
  {
    Answer(fc + 128, [code])
  }

  /** The second word of a request, which the answer to a write repeats. */
  function Second(r: Request): word
    requires ValidRequest(r)
  {
    match r
    case ReadBits(_, _, quantity) => quantity
    case ReadRegs(_, _, quantity) => quantity
    case WriteCoil(_, value) => CoilWord(value)
    case WriteReg(_, reg) => reg
    case WriteCoils(_, quantity, _) => quantity
    case WriteRegs(_, regs) => |regs|
  }

  /** The answer to a request that has passed the checks. */
  function Reported(r: Request, p: Reply): (a: Answer)
    requires ValidRequest(r) && Fitting(r, p)
    ensures |a.data| <= 251
  {
    match p
    case Missing => Exception(Fc(r), ILLEGAL_FUNCTION)
    case Failed(code) => Exception(Fc(r), ExceptionOf(code))
    case Bits(b) => Answer(Fc(r), [BitBytes(r.quantity)] + b[..BitBytes(r.quantity)])
    case Regs(w) => Answer(Fc(r), [2 * r.quantity] + PutRegs(w[..r.quantity]))
    case Done => Answer(Fc(r), Put2(r.address) + Put2(Second(r)))
  }

  /** The request that a message of the given function code carries, or the exception that it deserves. */
  datatype Judged = Fine(r: Request) | Wrong(code: byte)

  function JudgeRange(address: word, quantity: word, limit: nat): byte {
    if quantity < 1 || quantity > limit then ILLEGAL_VALUE
    else if address + quantity > 0x1_0000 then ILLEGAL_ADDRESS
    else 0
  }

  /** How much of the message has a fixed size, and whether a counted part follows. */
  function FixedPart(fc: byte): nat {
    if fc == 15 || fc == 16 then 5 else 4
  }

  function CountOf(fc: byte): Count {
    if fc == 15 then OfBytes else if fc == 16 then OfWords else Count.None
  }

  /** The data of a message with this function code. */
  predicate Shaped(fc: byte, d: seq<byte>) {
    |d| >= FixedPart(fc) && |d| == FixedPart(fc) + Used(CountOf(fc), d[FixedPart(fc) - 1])
  }

  predicate Known(fc: byte) {
    1 <= fc <= 6 || fc == 15 || fc == 16
  }

  /** For a single coil the server looks for its callback first. */
  function Judge(fc: byte, d: seq<byte>, serves: byte -> bool): (j: Judged)
    requires Known(fc) && Shaped(fc, d)
    ensures j.Fine? ==> ValidRequest(j.r) && Fc(j.r) == fc
  {
    var address, second := Get2(d[0], d[1]), Get2(d[2], d[3]);
    if fc <= 2 then
      var bad := JudgeRange(address, second, 2000);
      if bad != 0 then Wrong(bad) else Fine(ReadBits(fc == 2, address, second))
    else if fc <= 4 then
      var bad := JudgeRange(address, second, 125);
      if bad != 0 then Wrong(bad) else Fine(ReadRegs(fc == 4, address, second))
    else if fc == 5 then
      if !serves(5) then Wrong(ILLEGAL_FUNCTION)
      else if second != 0 && second != 0xFF00 then Wrong(ILLEGAL_VALUE)
      else Fine(WriteCoil(address, second != 0))
    else if fc == 6 then Fine(WriteReg(address, second))
    else if fc == 15 then
      var bad := JudgeRange(address, second, 0x7B0);
      if bad != 0 then Wrong(bad)
      else if d[4] == 0 || BitBytes(second) != d[4] as int then Wrong(ILLEGAL_VALUE)
      else Fine(WriteCoils(address, second, d[5..]))
    else
      var bad := JudgeRange(address, second, 0x7B);
      if bad != 0 then Wrong(bad)
      else if d[4] == 0 || d[4] as int != 2 * second then Wrong(ILLEGAL_VALUE)
      else Fine(WriteRegs(address, GetRegs(d[5..], second)))
  }

  /** The application: which function codes it serves, and what it answers. */
  datatype Application = Application(serves: byte -> bool, reply: Request -> Reply)

  ghost predicate ValidApplication(a: Application) {
    forall r :: Fitting(r, a.reply(r)) && (a.reply(r) == Missing <==> !a.serves(Fc(r)))
  }

  function AnswerTo(a: Application, fc: byte, d: seq<byte>): Answer
    requires ValidApplication(a)
    requires Known(fc) && Shaped(fc, d)
  {
    match Judge(fc, d, a.serves)
    case Wrong(code) => Exception(fc, code)
    case Fine(r) => Reported(r, a.reply(r))
  }

  datatype Polled = Silent(e: Option<Error>) | Sent(message: seq<byte>)

  /** One message from the line: a request for this device is answered. An empty line is no error. */
  function Poll(t: Transport, device: byte, a: Application, s: seq<byte>): Polled
    requires ValidApplication(a)
  {
    match RecvHeader(t, s)
    case Fault(e) => Silent(if s == [] then Option.None else Some(e))
    case Got(h, _) =>
      if (t.Rtu? && h.unit != device) || !Known(h.fc) then Silent(Option.None)
      else
        match RecvBody(t, s, FixedPart(h.fc), CountOf(h.fc))
        case Fault(e) => Silent(Some(e))
        case Got(d, _) =>
          var x := AnswerTo(a, h.fc, d);
          Sent(Message(t, h.tid, h.unit, x.fc, x.data))
  }

  /* ---- the client ---- */

  datatype Outcome =
    | Values(bytes: seq<byte>)
    | Registers(regs: seq<word>)
    | Written
    | ModbusException(code: byte)
    | Broken(e: Error)

  /** What the client makes of the data that answer a read request. */
  function ReadOutcome(r: Request, d: seq<byte>): Outcome
    requires ValidRequest(r) && (r.ReadBits? || r.ReadRegs?) && d != []
    requires |d| == 1 + Used(if r.ReadBits? then OfBytes else OfWords, d[0])
  {
    if r.ReadBits? then Values(d[1..])
    else if d[0] as int != 2 * r.quantity then Broken(InvalidResponse)
    else Registers(GetRegs(d[1..], r.quantity))
  }

  /** What the client makes of a message whose header is in order. */
  function ReceiveBody(t: Transport, fc: byte, r: Request, s: seq<byte>): Outcome
    requires ValidRequest(r) && |s| >= HeaderSize(t)
  {
    if fc != Fc(r) then
      if fc as int - 128 != Fc(r) as int then Broken(InvalidResponse)
      else
        match RecvBody(t, s, 1, Count.None)
        case Fault(e) => Broken(e)
        case Got(d, _) => if d[0] < 1 || d[0] > 4 then Broken(InvalidResponse) else ModbusException(d[0])
    else if r.ReadBits? || r.ReadRegs? then
      match RecvBody(t, s, 1, if r.ReadBits? then OfBytes else OfWords)
      case Fault(e) => Broken(e)
      case Got(d, _) => ReadOutcome(r, d)
    else
      match RecvBody(t, s, 4, Count.None)
      case Fault(e) => Broken(e)
      case Got(d, _) => if d != Reported(r, Done).data then Broken(InvalidResponse) else Written
  }

  /** What the client makes of the bytes that come back. */
  function Receive(t: Transport, tid: word, unit: byte, r: Request, s: seq<byte>): Outcome
    requires ValidRequest(r)
  {
    match RecvHeader(t, s)
    case Fault(e) => Broken(e)
    case Got(h, _) =>
      if t.Tcp? && h.tid != tid then Broken(InvalidMbap)
      else if t.Rtu? && h.unit != unit then Broken(InvalidUnit)
      else ReceiveBody(t, h.fc, r, s)
  }
}
