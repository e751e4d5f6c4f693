/** Packing and unpacking of MQTT 3.1.1 control packets. */
module MqttCodec {
  import opened Bytes
  import opened Words
  import opened Arena

  const CONNECT: Nibble := 1
  const CONNACK: Nibble := 2
  const PUBLISH: Nibble := 3
  const PUBACK: Nibble := 4
  const PUBREC: Nibble := 5
  const PUBREL: Nibble := 6
  const PUBCOMP: Nibble := 7
  const SUBSCRIBE: Nibble := 8
  const SUBACK: Nibble := 9
  const UNSUBSCRIBE: Nibble := 10
  const UNSUBACK: Nibble := 11
  const PINGREQ: Nibble := 12
  const PINGRESP: Nibble := 13
  const DISCONNECT: Nibble := 14

  datatype Error =
    | ForbiddenType
    | InvalidFlags
    | InvalidRemainingLength
    | MalformedResponse
    | ConnackForbiddenFlags
    | ConnackForbiddenCode
    | InvalidControlType
    | ForbiddenQos
    | Overrun  // a PUBLISH whose topic runs past the packet; see README
    | ConnectNotCalled
    | SendBufferIsFull
    | AckOfUnknown
    | ConnectClientIdRefused
    | ConnectionRefused
    | SubscribeFailed
    | MalformedRequest
    | RecvBufferTooSmall
    | Socket(code: int)
    | Packer(code: int)

  datatype FixedHeader = FixedHeader(control: Nibble, flags: Nibble, remaining: nat)

  const MAX_REMAINING: nat := 256 * 1024 * 1024

  /* ---- fixed header ---- */

  function RequiredFlags(control: Nibble): Nibble {
    if control == PUBREL || control == SUBSCRIBE || control == UNSUBSCRIBE then 2 else 0
  }

  function RuleViolation(h: FixedHeader): Option<Error> {
    if h.control == 0 || h.control == 15 then Some(ForbiddenType)
    else if h.control != PUBLISH && h.flags != RequiredFlags(h.control) then Some(InvalidFlags)
    else None
  }

  function EncodeLength(r: nat): (s: seq<byte>)
    ensures |s| > 0
  {
    if r > 127 then [r % 128 + 128] + EncodeLength(r / 128) else [r]
  }

  function EncodeHeader(h: FixedHeader): (s: seq<byte>)
    ensures |s| > 1
  {
    [h.control * 16 + h.flags] + EncodeLength(h.remaining)
  }

  datatype Packed = Refused(error: Error) | NoRoom | Ready(bytes: seq<byte>)

  function PackHeader(bufsz: nat, h: FixedHeader): Packed {
    if RuleViolation(h).Some? then Refused(RuleViolation(h).value)
    else if bufsz == 0 then NoRoom
    else if h.remaining >= MAX_REMAINING then Refused(InvalidRemainingLength)
    else if bufsz < |EncodeHeader(h)| + h.remaining then NoRoom
    else Ready(EncodeHeader(h))
  }

  datatype Length = TooLong | Cut | Length(value: nat, size: nat)

  /** The remaining-length field after k of its bytes; at most four are read. */
  function ReadLength(s: seq<byte>, k: nat): Length
    requires k <= 4
    decreases 4 - k
  {
    if k == 4 then TooLong
    else if s == [] then Cut
    else if s[0] < 128 then Length(s[0], 1)
    else
      var rest := ReadLength(s[1..], k + 1);
      if rest.Length? then Length(s[0] % 128 + 128 * rest.value, 1 + rest.size) else rest
  }

  datatype Unpacked<+T> = Short | Bad(error: Error) | Got(value: T, size: nat)

  function UnpackHeader(s: seq<byte>): Unpacked<FixedHeader> {
    if s == [] then Short
    else
      match ReadLength(s[1..], 0)
      case TooLong => Bad(InvalidRemainingLength)
      case Cut => Short
      case Length(r, n) =>
        var h := FixedHeader(s[0] / 16, s[0] % 16, r);
        if RuleViolation(h).Some? then Bad(RuleViolation(h).value)
        else if |s| - 1 - n < r then Short
        else Got(h, 1 + n)
  }

  /* ---- 16-bit fields ---- */

  function PackWord(w: Word): seq<byte> {
    [(w as int) / 256, (w as int) % 256]
  }

  function UnpackWord(hi: byte, lo: byte): Word {
    (hi * 256 + lo) as Word
  }

  lemma WordRoundTrip(w: Word)
    ensures UnpackWord((w as int) / 256, (w as int) % 256) == w
  {}

  /* ---- packets the client sends ---- */

  function EncodePub(control: Nibble, pid: Word): seq<byte> {
    EncodeHeader(FixedHeader(control, RequiredFlags(control), 2)) + PackWord(pid)
  }

  function PackPub(bufsz: nat, control: Nibble, pid: Word): Packed {
    var p := PackHeader(bufsz, FixedHeader(control, RequiredFlags(control), 2));
    if p.Ready? then Ready(EncodePub(control, pid)) else p
  }

  function PackEmpty(bufsz: nat, control: Nibble): Packed {
    PackHeader(bufsz, FixedHeader(control, 0, 0))
  }

  function Qos(flags: Nibble): nat {
    (flags / 2) % 4
  }

  function PublishHeader(topic: seq<byte>, payload: seq<byte>, flags: Nibble): FixedHeader {
    FixedHeader(PUBLISH, flags % 8, 2 + |topic| + (if Qos(flags) > 0 then 2 else 0) + |payload|)
  }

  /** The topic length is cast to 16 bits and only that many bytes are copied. */
  function PackTopic(topic: seq<byte>): seq<byte> {
    var n := |topic| % 0x1_0000;
    [n / 256, n % 256] + topic[..n]
  }

  function PublishBody(topic: seq<byte>, pid: Word, payload: seq<byte>, flags: Nibble): seq<byte> {
    PackTopic(topic) + (if Qos(flags) > 0 then PackWord(pid) else []) + payload
  }

  function EncodePublish(topic: seq<byte>, pid: Word, payload: seq<byte>, flags: Nibble): seq<byte> {
    EncodeHeader(PublishHeader(topic, payload, flags)) + PublishBody(topic, pid, payload, flags)
  }

  function PackPublish(bufsz: nat, topic: seq<byte>, pid: Word, payload: seq<byte>, flags: Nibble): Packed {
    if Qos(flags) == 3 then Refused(ForbiddenQos)
    else
      var p := PackHeader(bufsz, PublishHeader(topic, payload, flags));
      if p.Ready? then Ready(EncodePublish(topic, pid, payload, flags)) else p
  }

  /* ---- packets the client receives ---- */

  datatype Response =
    | Connack(sessionPresent: byte, code: byte)
    | Publish(dup: bool, qos: nat, retain: bool, topic: seq<byte>, pid: Word, payload: seq<byte>)
    | Pub(control: Nibble, pid: Word)  // PUBACK, PUBREC, PUBREL, PUBCOMP
    | Suback(pid: Word, codes: seq<byte>)
    | Unsuback(pid: Word)
    | Pingresp

  /** The body of a packet: exactly the bytes announced by the remaining length. */
  function UnpackBody(h: FixedHeader, b: seq<byte>): (r: Unpacked<Response>)
    requires |b| == h.remaining
    ensures r.Got? ==> r.size == |b|
    ensures !r.Short?
  {
    if h.control == CONNACK then
      if |b| != 2 then Bad(MalformedResponse)
      else if b[0] >= 2 then Bad(ConnackForbiddenFlags)
      else if b[1] > 5 then Bad(ConnackForbiddenCode)
      else Got(Connack(b[0], b[1]), 2)
    else if h.control == PUBLISH then UnpackPublish(h, b)
    else if PUBACK <= h.control <= PUBCOMP then
      if |b| != 2 then Bad(MalformedResponse) else Got(Pub(h.control, UnpackWord(b[0], b[1])), 2)
    else if h.control == SUBACK then
      if |b| < 3 then Bad(MalformedResponse) else Got(Suback(UnpackWord(b[0], b[1]), b[2..]), |b|)
    else if h.control == UNSUBACK then
      if |b| != 2 then Bad(MalformedResponse) else Got(Unsuback(UnpackWord(b[0], b[1])), 2)
    else Bad(InvalidControlType)
  }

  function UnpackPublish(h: FixedHeader, b: seq<byte>): (r: Unpacked<Response>)
    requires |b| == h.remaining
    ensures r.Got? ==> r.size == |b|
    ensures !r.Short?
  {
    if |b| < 4 then Bad(MalformedResponse)
    else
      var n: int := b[0] as int * 256 + b[1] as int;
      var qos := Qos(h.flags);
      var at: int := if qos > 0 then 4 + n else 2 + n;
      if at > |b| then Bad(Overrun)
      else
        var pid := if qos > 0 then UnpackWord(b[2 + n], b[3 + n]) else 0;
        Got(Publish(h.flags / 8 == 1, qos, h.flags % 2 == 1, b[2..2 + n], pid, b[at..]), |b|)
  }

  /** Parse the first packet in a buffer. A PINGRESP consumes its fixed header only. */
  function Unpack(s: seq<byte>): (r: Unpacked<Response>) {
    match UnpackHeader(s)
    case Short => Short
    case Bad(e) => Bad(e)
    case Got(h, n) =>
      if h.control == PINGRESP then Got(Pingresp, n)
      else
        match UnpackBody(h, Body(s, h, n))
        case Short => Short
        case Bad(e) => Bad(e)
        case Got(v, k) => Got(v, n + k)
  }

  function Body(s: seq<byte>, h: FixedHeader, n: nat): (b: seq<byte>)
    requires UnpackHeader(s) == Got(h, n)
    ensures |b| == h.remaining
  {
    ReadLengthSize(s[1..], 0);
    s[n..n + h.remaining]
  }

  lemma {:induction false} ReadLengthSize(s: seq<byte>, k: nat)
    requires k <= 4
    ensures ReadLength(s, k).Length? ==> 0 < ReadLength(s, k).size <= |s| && ReadLength(s, k).size <= 4 - k
    decreases 4 - k
  {
    if k < 4 && s != [] && s[0] >= 128 {
      ReadLengthSize(s[1..], k + 1);
    }
  }

  /* ---- round trips ---- */

  function Cap(k: nat): nat
    requires k <= 4
    decreases 4 - k
  {
    if k == 4 then 1 else 128 * Cap(k + 1)
  }

  lemma {:induction false} LengthRoundTrip(r: nat, t: seq<byte>, k: nat)
    requires k < 4 && r < Cap(k)
    ensures ReadLength(EncodeLength(r) + t, k) == Length(r, |EncodeLength(r)|)
    decreases 4 - k
  {
    var s := EncodeLength(r) + t;
    if r > 127 {
      assert k < 3 by {
        assert Cap(4) == 1;
      }
      assert r / 128 < Cap(k + 1);
      LengthRoundTrip(r / 128, t, k + 1);
      assert s[1..] == EncodeLength(r / 128) + t;
    }
  }

  lemma {:induction false} LengthPrefix(r: nat, j: nat, k: nat)
    requires k < 4 && r < Cap(k) && j < |EncodeLength(r)|
    ensures ReadLength(EncodeLength(r)[..j], k) == Cut
    decreases 4 - k
  {
    if r > 127 && j > 0 {
      assert k < 3 by {
        assert Cap(4) == 1;
      }
      LengthPrefix(r / 128, j - 1, k + 1);
      assert EncodeLength(r)[..j][1..] == EncodeLength(r / 128)[..j - 1];
    }
  }

  ghost predicate ValidHeader(h: FixedHeader) {
    RuleViolation(h).None? && h.remaining < MAX_REMAINING
  }

  /** Unpacking undoes packing, and reports a short buffer until the whole packet is there. */
  lemma HeaderRoundTrip(h: FixedHeader, t: seq<byte>)
    requires ValidHeader(h)
    ensures UnpackHeader(EncodeHeader(h) + t) ==
            if |t| >= h.remaining then Got(h, |EncodeHeader(h)|) else Short
  {
    var s := EncodeHeader(h) + t;
    CapValue();
    LengthRoundTrip(h.remaining, t, 0);
    NibbleSplit(h.control, h.flags);
    hide Cap, EncodeLength;
    assert s[1..] == EncodeLength(h.remaining) + t;
  }

  lemma NibbleSplit(c: Nibble, f: Nibble)
    ensures (c * 16 + f) / 16 == c && (c * 16 + f) % 16 == f
  {}

  lemma CapValue()
    ensures Cap(0) == MAX_REMAINING
  {
    assert Cap(3) == 128;
    assert Cap(2) == 128 * 128;
    assert Cap(1) == 128 * 128 * 128;
  }

  lemma HeaderPrefix(h: FixedHeader, j: nat)
    requires ValidHeader(h) && j < |EncodeHeader(h)|
    ensures UnpackHeader(EncodeHeader(h)[..j]) == Short
  {
    CapValue();
    if j > 0 {
      LengthPrefix(h.remaining, j - 1, 0);
      assert EncodeHeader(h)[..j][1..] == EncodeLength(h.remaining)[..j - 1];
    }
  }

  /** No strict prefix of a whole packet is taken for an error or for a packet. */
  lemma PacketPrefix(h: FixedHeader, body: seq<byte>, j: nat)
    requires ValidHeader(h) && |body| == h.remaining
    requires j < |EncodeHeader(h) + body|
    ensures Unpack((EncodeHeader(h) + body)[..j]) == Short
  {
    var e := EncodeHeader(h);
    if j < |e| {
      HeaderPrefix(h, j);
      assert (e + body)[..j] == e[..j];
    } else {
      HeaderRoundTrip(h, body[..j - |e|]);
      assert (e + body)[..j] == e + body[..j - |e|];
    }
  }

  lemma PacketRoundTrip(h: FixedHeader, body: seq<byte>, t: seq<byte>)
    requires ValidHeader(h) && |body| == h.remaining && h.control != PINGRESP
    ensures Unpack(EncodeHeader(h) + body + t) ==
            match UnpackBody(h, body)
            case Short => Short
            case Bad(e) => Bad(e)
            case Got(v, k) => Got(v, |EncodeHeader(h) + body|)
  {
    var s := EncodeHeader(h) + body + t;
    assert s == EncodeHeader(h) + (body + t);
    HeaderRoundTrip(h, body + t);
    assert Body(s, h, |EncodeHeader(h)|) == body;
  }

  /** A PUBLISH packed by this client unpacks to what was packed, whatever follows it in the
      buffer; but when its remaining length is below four, the parser rejects it. */
  lemma PublishRoundTrip(topic: seq<byte>, pid: Word, payload: seq<byte>, flags: Nibble, t: seq<byte>)
    requires Qos(flags) < 3 && |topic| <= 65535
    requires PublishHeader(topic, payload, flags).remaining < MAX_REMAINING
    ensures var p := EncodePublish(topic, pid, payload, flags);
            Unpack(p + t) ==
            if PublishHeader(topic, payload, flags).remaining >= 4 then
              Got(Publish(false, Qos(flags), flags % 2 == 1, topic, if Qos(flags) > 0 then pid else 0, payload), |p|)
            else Bad(MalformedResponse)
  {
    var h := PublishHeader(topic, payload, flags);
    var b := PublishBody(topic, pid, payload, flags);
    PacketRoundTrip(h, b, t);
    PublishBodyRoundTrip(topic, pid, payload, flags);
  }

  lemma PublishBodyRoundTrip(topic: seq<byte>, pid: Word, payload: seq<byte>, flags: Nibble)
    requires Qos(flags) < 3 && |topic| <= 65535
    ensures var h, b := PublishHeader(topic, payload, flags), PublishBody(topic, pid, payload, flags);
            && |b| == h.remaining
            && UnpackPublish(h, b) ==
               if |b| >= 4 then
                 Got(Publish(false, Qos(flags), flags % 2 == 1, topic, if Qos(flags) > 0 then pid else 0, payload), |b|)
               else Bad(MalformedResponse)
  {
    hide UnpackWord, PackWord, PublishBody, PackTopic;
    PublishBodyShape(topic, pid, payload, flags);
    WordRoundTrip(pid);
    assert Qos(PublishHeader(topic, payload, flags).flags) == Qos(flags);
  }

  lemma PublishBodyShape(topic: seq<byte>, pid: Word, payload: seq<byte>, flags: Nibble)
    requires |topic| <= 65535
    ensures var b, n := PublishBody(topic, pid, payload, flags), |topic|;
      && |b| == PublishHeader(topic, payload, flags).remaining
      && b[0] as int * 256 + b[1] as int == n
      && b[2..2 + n] == topic
      && (Qos(flags) > 0 ==> b[2 + n] == (pid as int) / 256 && b[3 + n] == (pid as int) % 256 && b[4 + n..] == payload)
      && (Qos(flags) == 0 ==> b[2 + n..] == payload)
  {
    hide PackWord, PackTopic, Qos;
    WordSize(pid);
    var b, n := PublishBody(topic, pid, payload, flags), |topic|;
    if Qos(flags) > 0 {
      TopicAt(topic, PackWord(pid) + payload);
      assert b == PackTopic(topic) + (PackWord(pid) + payload);
      assert b[2 + n..][2..] == b[4 + n..];
      assert b[2 + n..][0] == b[2 + n];
      assert b[2 + n..][1] == b[3 + n];
    } else {
      TopicAt(topic, payload);
      assert b == PackTopic(topic) + payload;
    }
  }

  lemma WordSize(w: Word)
    ensures PackWord(w) == [(w as int) / 256, (w as int) % 256]
  {}

  lemma TopicAt(topic: seq<byte>, rest: seq<byte>)
    requires |topic| <= 65535
    ensures var b := PackTopic(topic) + rest;
      && |b| == 2 + |topic| + |rest|
      && b[0] as int * 256 + b[1] as int == |topic|
      && b[2..2 + |topic|] == topic
      && b[2 + |topic|..] == rest
  {
    assert topic[..|topic|] == topic;
  }

  lemma PubRoundTrip(control: Nibble, pid: Word, t: seq<byte>)
    requires PUBACK <= control <= PUBCOMP
    ensures Unpack(EncodePub(control, pid) + t) == Got(Pub(control, pid), |EncodePub(control, pid)|)
  {
    WordRoundTrip(pid);
    PacketRoundTrip(FixedHeader(control, RequiredFlags(control), 2), PackWord(pid), t);
  }

  /* ---- stability: what has been parsed does not depend on what comes later ---- */

  lemma {:induction false} ReadLengthStable(s: seq<byte>, t: seq<byte>, k: nat)
    requires k <= 4 && !ReadLength(s, k).Cut?
    ensures ReadLength(s + t, k) == ReadLength(s, k)
    decreases 4 - k
  {
    if k < 4 && s[0] >= 128 {
      assert (s + t)[1..] == s[1..] + t;
      ReadLengthStable(s[1..], t, k + 1);
    }
  }

  lemma UnpackStable(s: seq<byte>, t: seq<byte>)
    requires !Unpack(s).Short?
    ensures Unpack(s + t) == Unpack(s)
  {
    if s != [] {
      ReadLengthSize(s[1..], 0);
      assert (s + t)[1..] == s[1..] + t;
      ReadLengthStable(s[1..], t, 0);
      var u := UnpackHeader(s);
      if u.Got? {
        assert UnpackHeader(s + t) == u;
        assert Body(s + t, u.value, u.size) == Body(s, u.value, u.size);
      }
    }
  }

  lemma UnpackSize(s: seq<byte>)
    requires Unpack(s).Got?
    ensures 1 < Unpack(s).size <= |s|
  {
    ReadLengthSize(s[1..], 0);
  }
}
