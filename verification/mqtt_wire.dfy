/** Control packets byte by byte, after chapters 2 and 3 of MQTT 3.1.1: types, flags and lengths given literally. */
module MqttWire {
  import opened Bytes
  import opened Words
  import opened Arena
  import opened MqttCodec
  import opened Session

  /* ---- parts of a packet ---- */

  function Base128(b: seq<byte>): nat {
    if b == [] then 0 else b[0] % 128 + 128 * Base128(b[1..])
  }

  /** A remaining length: one to four bytes, seven bits each, the least significant first; all but the last have
      their top bit set. */
  predicate IsLength(b: seq<byte>, value: nat) {
    && 1 <= |b| <= 4 && Base128(b) == value
    && (forall i :: 0 <= i < |b| ==> (b[i] >= 128 <==> i < |b| - 1))
  }

  /** A packet: its first byte, the length of its body, its body. */
  predicate IsPacket(p: seq<byte>, first: byte, length: seq<byte>, body: seq<byte>) {
    p == [first] + length + body && IsLength(length, |body|)
  }

  /** Sixteen bits, the most significant byte first. */
  function Big(hi: byte, lo: byte): nat {
    hi as int * 256 + lo as int
  }

  predicate IsWord(b: seq<byte>, value: nat) {
    |b| == 2 && Big(b[0], b[1]) == value
  }

  /** A string with its length in front. */
  predicate IsString(b: seq<byte>, s: seq<byte>) {
    |b| == 2 + |s| && Big(b[0], b[1]) == |s| && b[2..] == s
  }

  lemma {:induction false} EncodedIs(r: nat, k: nat)
    requires k < 4 && r < Cap(k)
    ensures var e := EncodeLength(r);
      && 1 <= |e| <= 4 - k && Base128(e) == r
      && forall i :: 0 <= i < |e| ==> (e[i] >= 128 <==> i < |e| - 1)
    decreases 4 - k
  {
    var e := EncodeLength(r);
    if r > 127 {
      assert k < 3 by {
        assert Cap(4) == 1;
      }
      EncodedIs(r / 128, k + 1);
      assert e[1..] == EncodeLength(r / 128);
      forall i | 0 < i < |e|
        ensures e[i] == e[1..][i - 1]
      {}
    } else {
      assert e[1..] == [];
    }
  }

  lemma LengthEncoded(r: nat)
    requires r < MAX_REMAINING
    ensures IsLength(EncodeLength(r), r)
  {
    CapValue();
    EncodedIs(r, 0);
    hide Cap, EncodeLength;
  }

  lemma {:induction false} LengthRead(b: seq<byte>, t: seq<byte>, k: nat)
    requires k < 4 && 1 <= |b| <= 4 - k && forall i :: 0 <= i < |b| ==> (b[i] >= 128 <==> i < |b| - 1)
    ensures ReadLength(b + t, k) == Length(Base128(b), |b|)
    decreases 4 - k
  {
    if |b| > 1 {
      assert (b + t)[1..] == b[1..] + t;
      LengthRead(b[1..], t, k + 1);
    } else {
      assert b[1..] == [];
    }
  }

  /* ---- what the client sends ---- */

  /** The first byte of a request: its type and its flags. */
  predicate Starts(first: byte, r: Request)
    requires !r.Connect?
  {
    match r
    case SendPublish(_, _, flags) => first as int == 0x30 + flags as int % 8
    case SendPub(c) => first as int == c as int * 16 + if c == 6 then 2 else 0
    case Subscribe(_, _) => first == 0x82
    case Unsubscribe(_) => first == 0xA2
    case Ping => first == 0xC0
    case Disconnect => first == 0xE0
  }

  /** The body of a request; the packet id stands in all but PINGREQ, DISCONNECT, and a PUBLISH with QoS 0. */
  ghost predicate Asks(b: seq<byte>, r: Request, pid: Word)
    requires !r.Connect?
  {
    match r
    case SendPublish(topic, payload, flags) =>
      var n := if (flags as int / 2) % 4 == 0 then 0 else 2;
      && |b| == 2 + |topic| + n + |payload|
      && IsString(b[..2 + |topic|], topic)
      && (n == 2 ==> IsWord(b[2 + |topic|..4 + |topic|], pid as int))
      && b[2 + |topic| + n..] == payload
    case SendPub(_) => IsWord(b, pid as int)
    case Subscribe(topic, qos) =>
      && |b| == 5 + |topic| && IsWord(b[..2], pid as int) && IsString(b[2..4 + |topic|], topic) && b[4 + |topic|] == qos
    case Unsubscribe(topic) => |b| == 4 + |topic| && IsWord(b[..2], pid as int) && IsString(b[2..], topic)
    case _ => b == []
  }

  predicate ShortTopic(r: Request) {
    match r
    case SendPublish(topic, _, _) => |topic| <= 65535
    case Subscribe(topic, _) => |topic| <= 65535
    case Unsubscribe(topic) => |topic| <= 65535
    case _ => true
  }

  lemma PackedWord(w: Word)
    ensures IsWord(PackWord(w), w as int)
  {}

  lemma TopicIs(topic: seq<byte>)
    requires |topic| <= 65535
    ensures IsString(PackTopic(topic), topic)
  {
    assert topic[..|topic|] == topic;
  }

  lemma BodyAsks(r: Request, pid: Word)
    requires !r.Connect? && ShortTopic(r)
    ensures Asks(BodyOf(r, pid), r, pid) && |BodyOf(r, pid)| == HeaderOf(r).remaining
  {
    hide PackWord, PackTopic;
    PackedWord(pid);
    var b := BodyOf(r, pid);
    match r
    case SendPublish(topic, payload, flags) =>
      TopicIs(topic);
      assert b[..2 + |topic|] == PackTopic(topic);
      if Qos(flags) > 0 {
        assert b[2 + |topic|..4 + |topic|] == PackWord(pid);
      }
    case Subscribe(topic, qos) =>
      TopicIs(topic);
      assert b[..2] == PackWord(pid) && b[2..4 + |topic|] == PackTopic(topic);
    case Unsubscribe(topic) =>
      TopicIs(topic);
      assert b[..2] == PackWord(pid) && b[2..] == PackTopic(topic);
    case _ =>
  }

  /** The request has a body that can be sent: QoS 3 does not exist, and a body of 256 megabytes is too long. */
  predicate Sendable(r: Request, body: seq<byte>) {
    && !(r.SendPublish? && (r.flags as int / 2) % 4 == 3)
    && |body| < 268435456
  }

  lemma FirstByte(r: Request)
    requires !r.Connect? && (r.SendPub? ==> 4 <= r.pub <= 7)
    ensures var h := HeaderOf(r); Starts(h.control * 16 + h.flags, r) && RuleViolation(h).None?
  {}

  lemma HeaderPacked(h: FixedHeader, room: nat)
    ensures var p := PackHeader(room, h);
      if RuleViolation(h).None? && h.remaining < 268435456 then
        p == if |EncodeHeader(h)| + h.remaining <= room then Packed.Ready(EncodeHeader(h)) else NoRoom
      else room > 0 ==> p.Refused?
  {
    hide EncodeHeader, RuleViolation;
  }

  /** A request is packed exactly as the standard lays it out, whenever it can be sent and its packet fits into the
      room there is. */
  lemma RequestBytes(r: Request, pid: Word, room: nat) returns (first: byte, length: seq<byte>, body: seq<byte>)
    requires !r.Connect? && ShortTopic(r) && (r.SendPub? ==> 4 <= r.pub <= 7)
    ensures Starts(first, r) && Asks(body, r, pid)
    ensures Sendable(r, body) ==>
      && IsLength(length, |body|)
      && Pack(r, pid, room) == if 1 + |length| + |body| <= room then Packed.Ready([first] + length + body) else NoRoom
    ensures !Sendable(r, body) && room > 0 ==> Pack(r, pid, room).Refused?
  {
    hide EncodeLength, Asks, BodyOf, Pack, Starts, IsLength, PackHeader, RuleViolation, HeaderOf;
    var h := HeaderOf(r);
    PackIs(r, pid, room);
    BodyAsks(r, pid);
    FirstByte(r);
    HeaderPacked(h, room);
    body := BodyOf(r, pid);
    first := h.control * 16 + h.flags;
    length := EncodeLength(h.remaining);
    if |body| < MAX_REMAINING {
      LengthEncoded(|body|);
    }
    assert EncodeHeader(h) == [first] + length;
  }

  /* ---- what the client understands ---- */

  /** The packet says this. A PUBLISH is understood if its body has at least four bytes. */
  ghost predicate Says(first: byte, b: seq<byte>, r: Response) {
    match r
    case Connack(present, code) => first == 0x20 && b == [present, code] && present <= 1 && code <= 5
    case Publish(dup, qos, retain, topic, pid, payload) =>
      var n := if qos == 0 then 0 else 2;
      && first as int == 0x30 + (if dup then 8 else 0) + 2 * qos + (if retain then 1 else 0) && qos <= 3
      && |b| >= 4 && |b| == 2 + |topic| + n + |payload|
      && IsString(b[..2 + |topic|], topic)
      && (if n == 2 then IsWord(b[2 + |topic|..4 + |topic|], pid as int) else pid == 0)
      && b[2 + |topic| + n..] == payload
    case Pub(control, pid) =>
      && (first == 0x40 || first == 0x50 || first == 0x62 || first == 0x70) && control as int == first as int / 16
      && IsWord(b, pid as int)
    case Suback(pid, codes) => first == 0x90 && |b| >= 3 && IsWord(b[..2], pid as int) && b[2..] == codes
    case Unsuback(pid) => first == 0xB0 && IsWord(b, pid as int)
    case Pingresp => first == 0xD0
  }

  lemma WordNumber(w: Word, n: nat)
    requires n < 0x1_0000 && (n as Word) as int == n
    ensures w as int == n <==> n as Word == w
  {
    if w as int == n {
      Words.WordIs(w, n);
    }
  }

  lemma WordRead(b: seq<byte>, w: Word)
    requires |b| == 2
    ensures IsWord(b, w as int) <==> UnpackWord(b[0], b[1]) == w
  {
    var n: nat := Big(b[0], b[1]);
    WordHolds(n);
    WordNumber(w, n);
  }

  lemma PacketHead(p: seq<byte>, first: byte, length: seq<byte>, body: seq<byte>, t: seq<byte>)
    requires IsPacket(p, first, length, body)
    ensures var h := FixedHeader(first / 16, first % 16, |body|);
      && (RuleViolation(h).Some? ==> Unpack(p + t) == Bad(RuleViolation(h).value))
      && (RuleViolation(h).None? ==>
            UnpackHeader(p + t) == Got(h, 1 + |length|) && Body(p + t, h, 1 + |length|) == body)
  {
    var s := p + t;
    assert s[1..] == length + (body + t);
    LengthRead(length, body + t, 0);
    assert s[1 + |length|..1 + |length| + |body|] == body;
    hide ReadLength, Base128, UnpackBody;
  }

  lemma NoRule(first: byte, b: seq<byte>, r: Response)
    requires RuleViolation(FixedHeader(first / 16, first % 16, |b|)).Some?
    ensures !Says(first, b, r)
  {
    hide IsString, IsWord;
  }

  lemma PublishUnderstood(first: byte, b: seq<byte>, r: Response)
    requires first / 16 == 3 && r.Publish?
    ensures UnpackPublish(FixedHeader(3, first % 16, |b|), b) == Got(r, |b|) ==> Says(first, b, r)
  {
    var h := FixedHeader(3, first % 16, |b|);
    if UnpackPublish(h, b) == Got(r, |b|) {
      var n := Big(b[0], b[1]);
      FlagBits(first);
      assert b[..2 + n][2..] == b[2..2 + n];
      if r.qos > 0 {
        WordRead(b[2 + n..4 + n], r.pid);
      }
      hide UnpackWord;
    }
  }

  lemma FlagBits(first: byte)
    requires first / 16 == 3
    ensures var f: Nibble := first % 16;
      first as int == 0x30 + (if f / 8 == 1 then 8 else 0) + 2 * Qos(f) + (if f % 2 == 1 then 1 else 0) && Qos(f) <= 3
  {}

  lemma PublishSaid(first: byte, b: seq<byte>, r: Response)
    requires r.Publish? && Says(first, b, r)
    ensures first / 16 == 3 && UnpackPublish(FixedHeader(3, first % 16, |b|), b) == Got(r, |b|)
  {
    var n := |r.topic|;
    FlagBits(first);
    SaidFlags(first, r);
    assert b[..2 + n][2..] == b[2..2 + n];
    if r.qos > 0 {
      WordRead(b[2 + n..4 + n], r.pid);
    }
    hide UnpackWord;
  }

  lemma SaidFlags(first: byte, r: Response)
    requires r.Publish? && r.qos <= 3
    requires first as int == 0x30 + (if r.dup then 8 else 0) + 2 * r.qos + (if r.retain then 1 else 0)
    ensures first / 16 == 3
    ensures var f: Nibble := first % 16; Qos(f) == r.qos && (f / 8 == 1) == r.dup && (f % 2 == 1) == r.retain
  {}

  lemma BodyUnderstood(first: byte, b: seq<byte>, r: Response)
    requires RuleViolation(FixedHeader(first / 16, first % 16, |b|)).None? && first / 16 != 13
    ensures UnpackBody(FixedHeader(first / 16, first % 16, |b|), b) == Got(r, |b|) <==>
      Says(first, b, r) && !r.Pingresp?
  {
    if first / 16 == 3 {
      PublishBoth(first, b, r);
    } else {
      if |b| == 2 && (r.Pub? || r.Unsuback?) {
        WordRead(b, r.pid);
      }
      if |b| >= 3 && r.Suback? {
        WordRead(b[..2], r.pid);
      }
      hide UnpackPublish, UnpackWord, IsWord, IsString;
    }
  }

  lemma PublishBoth(first: byte, b: seq<byte>, r: Response)
    requires first / 16 == 3
    ensures UnpackBody(FixedHeader(3, first % 16, |b|), b) == Got(r, |b|) <==> Says(first, b, r)
  {
    if r.Publish? {
      PublishUnderstood(first, b, r);
      if Says(first, b, r) {
        PublishSaid(first, b, r);
      }
      hide Says;
    } else {
      hide IsWord, IsString, UnpackWord;
    }
  }

  /** A packet is taken for exactly what it says, whatever follows it; of a PINGRESP only the header is consumed. */
  lemma UnpackExact(p: seq<byte>, first: byte, length: seq<byte>, body: seq<byte>, t: seq<byte>, r: Response)
    requires IsPacket(p, first, length, body)
    ensures Unpack(p + t) == Got(r, if r.Pingresp? then 1 + |length| else |p|) <==> Says(first, body, r)
    ensures Unpack(p + t).Got? && Unpack(p + t).value == r ==> Says(first, body, r)
    ensures !Unpack(p + t).Short?
  {
    PacketHead(p, first, length, body, t);
    var h := FixedHeader(first / 16, first % 16, |body|);
    if RuleViolation(h).Some? {
      NoRule(first, body, r);
    } else if first / 16 != 13 {
      BodyUnderstood(first, body, r);
    }
    hide UnpackHeader, UnpackBody, Body, IsWord, IsString;
  }
}
