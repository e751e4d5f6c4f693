/** The SDO server and client of CiA 301, section 7.2.4.3, as state machines over values:
    expedited and segmented transfers of up to 65535 bytes in frames of 8 bytes. */
module Sdo {
  import opened Bytes
  import opened ObjectDictionary

  type Frame = f: seq<byte> | |f| == 8 witness [0, 0, 0, 0, 0, 0, 0, 0]

  /* ---- command bytes ---- */

  function Command(f: Frame): byte {
    f[0] / 32
  }

  function ToggleOf(f: Frame): bool {
    (f[0] / 16) % 2 == 1
  }

  function ToggleBit(t: bool): byte {
    if t then 16 else 0
  }

  function IsLast(f: Frame): bool {
    f[0] % 2 == 1
  }

  const ABORT: byte := 128

  const AB_TOGGLE_BIT := 0x05030000
  const AB_TIMEOUT := 0x05040000
  const AB_CMD := 0x05040001
  const AB_OUT_OF_MEM := 0x05040005
  const AB_UNSUPPORTED_ACCESS := 0x06010000
  const AB_PRAM_INCOMPAT := 0x06040043
  const AB_TYPE_MISMATCH := 0x06070010
  const AB_SUB_UNKNOWN := 0x06090011
  const AB_NO_RESOURCE := 0x060A0023
  const AB_GENERAL := 0x08000000

  function Word16(f: Frame): nat {
    f[1] as int + f[2] as int * 256
  }

  function Word32(f: Frame): nat {
    f[4] as int + f[5] as int * 0x100 + f[6] as int * 0x1_0000 + f[7] as int * 0x100_0000
  }

  /** Four bytes, least significant first. */
  function Pack32(v: nat): seq<byte>
    requires v < 0x1_0000_0000
  {
    [v % 256, (v / 0x100) % 256, (v / 0x1_0000) % 256, v / 0x100_0000]
  }

  /** Overwrite f from position at on. */
  function Put(f: Frame, at: nat, b: seq<byte>): (r: Frame)
    requires at + |b| <= 8
    ensures r[at..at + |b|] == b
    ensures forall j :: 0 <= j < 8 && !(at <= j < at + |b|) ==> r[j] == f[j]
  {
    f[..at] + b + f[at + |b|..]
  }

  /** The command byte of an initiate frame that carries n bytes itself. The length field has
      two bits, so that 0 bytes look like 4. */
  function Expedited(cs: byte, n: nat): byte
    requires cs < 8 && n <= 4
  {
    cs * 32 + ((4 - n) % 4) * 4 + 3
  }

  function ExpeditedSize(f: Frame): nat {
    4 - (f[0] / 4) % 4
  }

  /** The command byte of the last segment. */
  function LastSegment(t: bool, n: nat): byte
    requires n <= 7
  {
    ToggleBit(t) + (7 - n) * 2 + 1
  }

  datatype Status = Idle | Busy | Success | Aborted

  /* ---- timer: 0 is inactive; it counts in 16 bits ---- */

  function Advance(timer: nat, elapsed: nat): nat {
    (timer + elapsed) % 0x1_0000
  }

  /* ---- server ---- */

  datatype ServerState = SIdle | SDownInit | SDownSegment | SUpInit | SUpSegment

  datatype Server = Server(
    od: Dictionary,
    state: ServerState,
    target: Option<Place>,
    toggle: bool,
    offset: nat,
    size: nat,
    tx: Frame,
    rx: Frame,
    isNew: bool,
    timer: nat,
    allowed: nat,
    txAbort: nat,
    rxAbort: nat,
    status: Status)

  datatype ServerStep = ServerStep(s: Server, out: Option<Frame>)

  function AbortServer(s: Server, code: nat): Server {
    s.(txAbort := code, timer := 0, isNew := false, state := SIdle, status := Aborted)
  }

  function Refuse(s: Server, code: nat): ServerStep
    requires code < 0x1_0000_0000
  {
    var tx := Put(s.tx, 0, [ABORT])[..4] + Pack32(code);
    ServerStep(AbortServer(s.(tx := tx), code), Some(tx))
  }

  /** Dispatch of the first frame of a transfer. */
  function FirstFrame(s: Server): (r: ServerStep)
    ensures r.out.None? ==> r.s.state == SDownInit || r.s.state == SUpInit
    ensures r.out.None? ==> r.s.target.Some? && At(s.od, r.s.target.value)
    ensures r.s.od == s.od
  {
    var cs := Command(s.rx);
    if cs != 1 && cs != 2 then Refuse(s, AB_CMD)
    else
      var p := Lookup(s.od, Word16(s.rx), s.rx[3]);
      var s1 := s.(target := p);
      if p.None? then Refuse(s1, AB_SUB_UNKNOWN)
      else
        var x := SubAt(s.od, p.value);
        if cs == 1 then
          if !x.writable then Refuse(s1, AB_UNSUPPORTED_ACCESS) else ServerStep(s1.(state := SDownInit), None)
        else if !x.readable then Refuse(s1, AB_UNSUPPORTED_ACCESS)
        else ServerStep(s1.(state := SUpInit), None)
  }

  /** A server in the middle of a transfer. */
  ghost predicate Engaged(s: Server) {
    && s.target.Some? && At(s.od, s.target.value)
    && SoundSub(SubAt(s.od, s.target.value))
    && (s.state == SDownSegment ==> s.offset <= s.size <= |SubAt(s.od, s.target.value).data|)
    && (s.state == SUpSegment ==> s.offset <= s.size == |SubAt(s.od, s.target.value).data|)
  }

  function Target(s: Server): SubObject
    requires Engaged(s)
  {
    SubAt(s.od, s.target.value)
  }

  /** Copy bytes into the receive buffer of the target. */
  function Receive(s: Server, d: seq<byte>): Server
    requires Engaged(s) && s.offset + |d| <= |Target(s).data|
  {
    var x := Target(s);
    s.(od := WithSub(s.od, s.target.value, WithReceiver(x, Splice(Receiver(x), s.offset, d))), offset := s.offset + |d|)
  }

  function CommitTarget(s: Server): Server
    requires s.target.Some? && At(s.od, s.target.value)
  {
    s.(od := WithSub(s.od, s.target.value, Commit(SubAt(s.od, s.target.value))))
  }

  function Reply(s: Server, timer: nat): ServerStep {
    ServerStep(s.(timer := timer, status := Busy), Some(s.tx))
  }

  function Finished(s: Server): ServerStep {
    ServerStep(s.(state := SIdle, status := Success), Some(s.tx))
  }

  /** A new transfer answers with the multiplexer of its request. */
  function StartTransfer(s: Server): Server {
    s.(toggle := false, offset := 0, tx := Put(s.tx, 1, s.rx[1..4]))
  }

  /** The bytes of an expedited download stand in its first frame. */
  function ExpeditedInit(s: Server): ServerStep
    requires Engaged(s) && s.state == SDownInit && s.offset == 0
  {
    var n := ExpeditedSize(s.rx);
    var s1 := s.(size := n);
    if |Target(s).data| < n then Refuse(s1, AB_OUT_OF_MEM)
    else
      var s2 := Receive(s1, s.rx[4..4 + n]);
      Finished(CommitTarget(s2.(tx := Put(s2.tx, 0, [3 * 32]))))
  }

  function DownInit(s0: Server): ServerStep
    requires Engaged(s0) && s0.state == SDownInit
  {
    var s := StartTransfer(s0);
    if s.rx[0] % 4 == 3 then ExpeditedInit(s)
    else if s.rx[0] % 4 == 1 then
      var s1 := s.(size := Word32(s.rx) % 0x1_0000);
      if |Target(s).data| < s1.size then Refuse(s1, AB_OUT_OF_MEM)
      else Reply(s1.(tx := Put(s1.tx, 0, [3 * 32]), state := SDownSegment), 1)
    else Refuse(s, AB_TYPE_MISMATCH)
  }

  function LastTaken(s: Server): ServerStep
    requires Engaged(s) && s.state == SDownSegment && s.size <= s.offset + 7
  {
    var s1 := Receive(s, s.rx[1..1 + (s.size - s.offset)]);
    Finished(CommitTarget(s1.(tx := Put(s1.tx, 0, [32 + ToggleBit(s.toggle)]))))
  }

  function SegmentTaken(s: Server): ServerStep
    requires Engaged(s) && s.state == SDownSegment && s.offset + 7 < s.size
  {
    var s1 := Receive(s, s.rx[1..8]);
    var r := Reply(s1.(tx := Put(s1.tx, 0, [32 + ToggleBit(s.toggle)])), 1);
    r.(s := r.s.(toggle := !s.toggle))
  }

  function DownSegment(s: Server): ServerStep
    requires Engaged(s) && s.state == SDownSegment
  {
    if Command(s.rx) != 0 then Refuse(s, AB_NO_RESOURCE)
    else if ToggleOf(s.rx) != s.toggle then Refuse(s, AB_TOGGLE_BIT)
    else if s.size <= s.offset + 7 then
      if !IsLast(s.rx) then Refuse(s, AB_GENERAL) else LastTaken(s)
    else if IsLast(s.rx) then Refuse(s, AB_GENERAL)
    else SegmentTaken(s)
  }

  function UpInit(s0: Server): ServerStep
    requires Engaged(s0) && s0.state == SUpInit
  {
    var s := StartTransfer(s0);
    var data := Target(s).data;
    var n := |data|;
    if n <= 4 then
      Finished(s.(size := n, offset := n, tx := Put(Put(s.tx, 0, [Expedited(2, n)]), 4, data)))
    else
      Reply(s.(size := n, tx := Put(s.tx, 0, [65])[..4] + Pack32(n), state := SUpSegment), 1)
  }

  function LastSent(s: Server): ServerStep
    requires Engaged(s) && s.state == SUpSegment && s.size <= s.offset + 7
  {
    var n := s.size - s.offset;
    var tx := Put(Put(s.tx, 1, Target(s).data[s.offset..s.size]), 0, [LastSegment(s.toggle, n)]);
    Finished(s.(tx := tx, offset := s.size, toggle := !s.toggle))
  }

  function SegmentSent(s: Server): ServerStep
    requires Engaged(s) && s.state == SUpSegment && s.offset + 7 < s.size
  {
    var tx := Put(Put(s.tx, 1, Target(s).data[s.offset..s.offset + 7]), 0, [ToggleBit(s.toggle)]);
    Reply(s.(tx := tx, offset := s.offset + 7, toggle := !s.toggle), 1)
  }

  function UpSegment(s: Server): ServerStep
    requires Engaged(s) && s.state == SUpSegment
  {
    if Command(s.rx) != 3 then Refuse(s, AB_NO_RESOURCE)
    else if ToggleOf(s.rx) != s.toggle then Refuse(s, AB_TOGGLE_BIT)
    else if s.size <= s.offset + 7 then LastSent(s)
    else SegmentSent(s)
  }

  ghost predicate ServerInv(s: Server) {
    && WellFormed(s.od)
    && (s.state == SIdle || s.state == SDownSegment || s.state == SUpSegment)
    && (s.state != SIdle ==> Engaged(s))
    && (s.state == SDownSegment ==> Target(s).writable)
    && (s.state == SUpSegment ==> Target(s).readable)
  }

  /** The status after a handler: idle once the transfer is over, whatever the handler returned. */
  function Settle(r: ServerStep): ServerStep {
    r.(s := r.s.(isNew := false, status := if r.s.state == SIdle then Idle else r.s.status))
  }

  /** What the process function does with a frame. */
  function OnFrame(s: Server): ServerStep
    requires ServerInv(s)
  {
    var s1 := s.(timer := 0);
    if Command(s.rx) == 4 then
      ServerStep(s1.(rxAbort := Word32(s.rx), isNew := false, state := SIdle, status := Aborted), None)
    else if s.state == SDownSegment then Settle(DownSegment(s1))
    else if s.state == SUpSegment then Settle(UpSegment(s1))
    else
      var f := FirstFrame(s1);
      if f.out.Some? then f
      else if f.s.state == SDownInit then Settle(DownInit(f.s))
      else Settle(UpInit(f.s))
  }

  /** One call of the server's process function. */
  function ServerProcess(s0: Server, elapsed: nat): ServerStep
    requires ServerInv(s0)
  {
    var s := if s0.timer > 0 then s0.(timer := Advance(s0.timer, elapsed)) else s0;
    if s0.timer > 0 && s.timer > s.allowed then ServerStep(AbortServer(s, AB_TIMEOUT), None)
    else if !s.isNew then ServerStep(s.(status := if s.state == SIdle then Idle else Busy), None)
    else OnFrame(s)
  }

  /* ---- client ---- */

  datatype ClientState = CIdle | CDownRequest | CDownResponse | CDownSegment | CUpRequest | CUpResponse | CUpSegment

  datatype Client = Client(
    state: ClientState,
    internal: bool,        // a request is to be sent
    index: nat,
    sub: nat,
    data: seq<byte>,       // the bytes to send, or the buffer to fill
    toggle: bool,
    offset: nat,
    size: nat,
    tx: Frame,
    rx: Frame,
    isNew: bool,
    timer: nat,
    allowed: nat,
    txAbort: nat,
    rxAbort: nat,
    status: Status)

  datatype ClientStep = ClientStep(c: Client, out: Option<Frame>)

  ghost predicate ClientInv(c: Client) {
    && |c.data| <= 65535 && c.index <= 65535 && c.sub <= 255
    && (c.state == CDownResponse ==> c.offset == 0 && c.size == |c.data|)
    && (c.state == CDownSegment ==> c.offset <= c.size == |c.data|)
    && (c.state == CUpSegment ==> c.offset <= c.size <= |c.data|)
  }

  function StartDownload(c: Client, index: nat, sub: nat, data: seq<byte>, allowed: nat): Client {
    c.(status := Busy, index := index, sub := sub, data := data, allowed := allowed, internal := true,
        state := CDownRequest)
  }

  function StartUpload(c: Client, index: nat, sub: nat, buffer: seq<byte>, allowed: nat): Client {
    c.(status := Busy, index := index, sub := sub, data := buffer, allowed := allowed, internal := true,
        state := CUpRequest)
  }

  function AbortClient(c: Client, code: nat): Client {
    c.(txAbort := code, timer := 0, isNew := false, internal := false, state := CIdle, status := Aborted)
  }

  function Reject(c: Client, code: nat): ClientStep
    requires code < 0x1_0000_0000
  {
    var tx := Put(c.tx, 0, [ABORT])[..4] + Pack32(code);
    ClientStep(AbortClient(c.(tx := tx), code), Some(tx))
  }

  function Ask(c: Client, next: ClientState): ClientStep {
    ClientStep(c.(timer := 1, state := next, status := Busy), Some(c.tx))
  }

  function Succeed(c: Client): ClientStep {
    ClientStep(c.(state := CIdle, status := Success), None)
  }

  function StartRequest(c: Client): Client
    requires c.index <= 65535 && c.sub <= 255
  {
    c.(toggle := false, offset := 0, internal := false, tx := Put(c.tx, 1, [c.index % 256, c.index / 256, c.sub]))
  }

  function DownRequest(c0: Client): ClientStep
    requires ClientInv(c0)
  {
    var c := StartRequest(c0);
    var n := |c.data|;
    if n <= 4 then
      Ask(c.(size := n, tx := Put(Put(c.tx, 0, [Expedited(1, n)]), 4, c.data)), CDownResponse)
    else
      Ask(c.(size := n, tx := Put(c.tx, 0, [33])[..4] + Pack32(n)), CDownResponse)
  }

  /** Send the segment at the current offset. */
  function NextSegment(c: Client): ClientStep
    requires c.offset <= c.size == |c.data|
  {
    if c.size <= c.offset + 7 then
      var n := c.size - c.offset;
      Ask(c.(tx := Put(Put(c.tx, 1, c.data[c.offset..]), 0, [LastSegment(c.toggle, n)]), offset := c.size),
          CDownSegment)
    else
      Ask(c.(tx := Put(Put(c.tx, 1, c.data[c.offset..c.offset + 7]), 0, [ToggleBit(c.toggle)]), offset := c.offset + 7),
          CDownSegment)
  }

  /** The response is for another object. */
  predicate OtherObject(c: Client) {
    Word16(c.rx) != c.index || c.rx[3] != c.sub
  }

  function DownResponse(c: Client): ClientStep
    requires ClientInv(c) && c.state == CDownResponse
  {
    if Command(c.rx) != 3 then Reject(c, AB_NO_RESOURCE)
    else if OtherObject(c) then Reject(c, AB_PRAM_INCOMPAT)
    else if c.size <= 4 then Succeed(c)
    else NextSegment(c)
  }

  function DownSegmentResponse(c: Client): ClientStep
    requires ClientInv(c) && c.state == CDownSegment
  {
    if Command(c.rx) != 1 then Reject(c, AB_NO_RESOURCE)
    else if ToggleOf(c.rx) != c.toggle then Reject(c, AB_TOGGLE_BIT)
    else
      var c1 := c.(toggle := !c.toggle);
      if c1.size <= c1.offset then Succeed(c1) else NextSegment(c1)
  }

  function UpRequest(c0: Client): ClientStep
    requires ClientInv(c0)
  {
    var c := StartRequest(c0);
    Ask(c.(tx := Put(c.tx, 0, [64])), CUpResponse)
  }

  function UpResponse(c: Client): ClientStep
    requires ClientInv(c)
  {
    if Command(c.rx) != 2 then Reject(c, AB_NO_RESOURCE)
    else if OtherObject(c) then Reject(c, AB_PRAM_INCOMPAT)
    else if c.rx[0] % 4 == 3 then
      var n := ExpeditedSize(c.rx);
      if |c.data| < n then ClientStep(AbortClient(c.(size := n), AB_OUT_OF_MEM), None)
      else Succeed(c.(size := n, data := Splice(c.data, 0, c.rx[4..4 + n]), offset := n))
    else if c.rx[0] % 4 == 1 then
      var n := Word32(c.rx) % 0x1_0000;
      if |c.data| < n then Reject(c.(size := n), AB_OUT_OF_MEM)
      else Ask(c.(size := n, offset := 0, tx := Put(c.tx, 0, [96])), CUpSegment)
    else Reject(c, AB_TYPE_MISMATCH)
  }

  function UpSegmentResponse(c: Client): ClientStep
    requires ClientInv(c) && c.state == CUpSegment
  {
    if Command(c.rx) != 0 then Reject(c, AB_NO_RESOURCE)
    else if ToggleOf(c.rx) != c.toggle then Reject(c, AB_TOGGLE_BIT)
    else
      var c1 := c.(toggle := !c.toggle);
      if c1.size <= c1.offset + 7 then
        if !IsLast(c.rx) then Reject(c1, AB_GENERAL)
        else Succeed(c1.(data := Splice(c1.data, c1.offset, c1.rx[1..1 + (c1.size - c1.offset)]), offset := c1.size))
      else if IsLast(c.rx) then Reject(c1, AB_GENERAL)
      else
        Ask(c1.(data := Splice(c1.data, c1.offset, c1.rx[1..8]), offset := c1.offset + 7,
                tx := Put(c1.tx, 0, [96 + ToggleBit(c1.toggle)])), CUpSegment)
  }

  function Dispatch(c: Client): ClientStep
    requires ClientInv(c)
  {
    match c.state
    case CDownRequest => DownRequest(c)
    case CDownResponse => DownResponse(c)
    case CDownSegment => DownSegmentResponse(c)
    case CUpRequest => UpRequest(c)
    case CUpResponse => UpResponse(c)
    case CUpSegment => UpSegmentResponse(c)
    case CIdle => ClientStep(c, None)
  }

  /** What the client does with a frame, or when a request is to be sent. */
  function OnEvent(c: Client): ClientStep
    requires ClientInv(c)
  {
    if c.isNew && Command(c.rx) == 4 then
      ClientStep(c.(timer := 0, rxAbort := Word32(c.rx), isNew := false, state := CIdle, status := Aborted), None)
    else
      var c1 := if c.isNew then c.(timer := 0) else c;
      var r := Dispatch(c1);
      r.(c := r.c.(isNew := false))
  }

  /** One call of the client's process function. */
  function ClientProcess(c0: Client, elapsed: nat): ClientStep
    requires ClientInv(c0)
  {
    if c0.state == CIdle then ClientStep(c0, None)
    else
      var c := if c0.timer > 0 then c0.(timer := Advance(c0.timer, elapsed)) else c0;
      if c0.timer > 0 && c.timer > c.allowed then ClientStep(AbortClient(c, AB_TIMEOUT), None)
      else if !c.isNew && !c.internal then ClientStep(c.(status := Busy), None)
      else OnEvent(c)
  }
}
