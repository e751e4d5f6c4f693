/** The loops that write and read a fixed header in place. */
module MqttHeaders {
  import opened Bytes
  import opened Arena
  import opened MqttCodec

  /** Pack at buf[at..at + bufsz]. A result of 0 means too little room, in which case some of
      the header may have been written. */
  method PackFixedHeader(buf: array<Cell>, at: nat, bufsz: nat, h: FixedHeader) returns (rv: nat, error: Option<Error>)
    requires at + bufsz <= buf.Length
    modifies buf
    ensures forall j :: 0 <= j < buf.Length && !(at <= j < at + bufsz) ==> buf[j] == old(buf[j])
    ensures match PackHeader(bufsz, h)
      case Refused(e) => error == Some(e)
      case NoRoom => rv == 0 && error == None
      case Ready(b) => rv == |b| && error == None && BytesAt(buf[..], at, b)
  {
    rv, error := 0, RuleViolation(h);
    if error.Some? || bufsz == 0 {
      return;
    }
    buf[at] := Data(h.control * 16 + h.flags);
    if h.remaining >= MAX_REMAINING {
      error := Some(InvalidRemainingLength);
      return;
    }
    var size := PackRemainingLength(buf, at + 1, bufsz - 1, h.remaining);
    if bufsz - 1 < size || bufsz - 1 - size < h.remaining {
      return;
    }
    rv := 1 + size;
  }

  /** Pack the remaining-length field at buf[at..at + room]; if it is longer than that, write as
      much of it as there is room for. */
  method PackRemainingLength(buf: array<Cell>, at: nat, room: nat, remaining: nat) returns (size: nat)
    requires at + room <= buf.Length
    modifies buf
    ensures forall j :: 0 <= j < buf.Length && !(at <= j < at + room) ==> buf[j] == old(buf[j])
    ensures if |EncodeLength(remaining)| <= room
            then size == |EncodeLength(remaining)| && BytesAt(buf[..], at, EncodeLength(remaining))
            else size == room + 1
  {
    hide EncodeLength, LengthByte, BytesAt;
    var pos, rest := 0, remaining;
    var more := true;
    ghost var done: seq<byte> := [];
    NoBytes(buf[..], at);
    while more
      invariant pos == |done| <= room
      invariant EncodeLength(remaining) == if more then done + EncodeLength(rest) else done
      invariant BytesAt(buf[..], at, done)
      invariant forall j :: 0 <= j < buf.Length && !(at <= j < at + room) ==> buf[j] == old(buf[j])
      decreases more, rest
    {
      label turn:
      EncodeLengthStep(rest, done);
      if pos == room {
        return room + 1;
      }
      more := rest > 127;
      var b := LengthByte(rest);
      OneMore(buf[..], at, done, b);
      buf[at + pos] := Data(b);
      assert buf[..] == old@turn(buf[..])[at + pos := Data(b)];
      done := done + [b];
      rest, pos := rest / 128, pos + 1;
    }
    size := pos;
  }

  lemma NoBytes(m: seq<Cell>, at: nat)
    requires at <= |m|
    ensures BytesAt(m, at, [])
  {}

  /** A byte written behind others. */
  lemma OneMore(m: seq<Cell>, at: nat, done: seq<byte>, b: byte)
    requires BytesAt(m, at, done) && at + |done| < |m|
    ensures BytesAt(m[at + |done| := Data(b)], at, done + [b])
  {}

  /** The byte that one turn of the packing loop writes. */
  function LengthByte(rest: nat): byte {
    if rest > 127 then rest % 128 + 128 else rest
  }

  lemma EncodeLengthStep(rest: nat, done: seq<byte>)
    ensures |EncodeLength(rest)| > 0
    ensures done + EncodeLength(rest) ==
            (done + [LengthByte(rest)]) + if rest > 127 then EncodeLength(rest / 128) else []
  {
    EncodeLengthIs(rest);
    hide EncodeLength, LengthByte;
    Regroup(done, [LengthByte(rest)], if rest > 127 then EncodeLength(rest / 128) else []);
  }

  lemma EncodeLengthIs(rest: nat)
    ensures EncodeLength(rest) == [LengthByte(rest)] + if rest > 127 then EncodeLength(rest / 128) else []
  {}

  lemma Regroup(a: seq<byte>, b: seq<byte>, c: seq<byte>)
    ensures a + (b + c) == (a + b) + c
  {}

  /** Unpack the header of the packet at the front of buf[..n]. */
  method UnpackFixedHeader(buf: array<byte>, n: nat) returns (u: Unpacked<FixedHeader>)
    requires n <= buf.Length
    ensures u == UnpackHeader(buf[..n])
  {
    hide ReadLength;
    if n == 0 {
      return Short;
    }
    var length := ReadRemainingLength(buf, n);
    match length
    case TooLong => return Bad(InvalidRemainingLength);
    case Cut => return Short;
    case Length(remaining, k) =>
      var h := FixedHeader(buf[0] / 16, buf[0] % 16, remaining);
      if RuleViolation(h).Some? {
        return Bad(RuleViolation(h).value);
      }
      if n - 1 - k < remaining {
        return Short;
      }
      return Got(h, 1 + k);
  }

  method ReadRemainingLength(buf: array<byte>, n: nat) returns (length: Length)
    requires 0 < n <= buf.Length
    ensures length == ReadLength(buf[..n][1..], 0)
  {
    hide ReadLength, Scale, Prepend;
    ghost var s := buf[..n][1..];
    var remaining: nat, scale: nat, k: nat := 0, 1, 0;
    PrependNothing(ReadLength(s, 0));
    assert s[0..] == s;
    while k < 4
      invariant 0 <= k <= 4 && k < n && scale == Scale(k)
      invariant ReadLength(s, 0) == Prepend(remaining, scale, k, ReadLength(s[k..], k))
      decreases 4 - k
    {
      if 1 + k == n {
        PrependCut(remaining, scale, k);
        return Cut;
      }
      var b := buf[1 + k];
      assert s[k..][1..] == s[k + 1..] && s[k..][0] == b;
      PrependByte(remaining, k, s[k..]);
      remaining := remaining + (b as int % 128) * scale;
      scale, k := scale * 128, k + 1;
      if b < 128 {
        return Length(remaining, k);
      }
    }
    PrependTooLong(remaining, scale, s[4..]);
    return TooLong;
  }

  lemma PrependNothing(rest: Length)
    ensures Prepend(0, 1, 0, rest) == rest && Scale(0) == 1
  {}

  lemma PrependCut(r: nat, scale: nat, k: nat)
    requires k < 4
    ensures Prepend(r, scale, k, ReadLength([], k)) == Cut
  {}

  lemma PrependTooLong(r: nat, scale: nat, s: seq<byte>)
    ensures Prepend(r, scale, 4, ReadLength(s, 4)) == TooLong
  {}

  lemma PrependByte(r: nat, k: nat, s: seq<byte>)
    requires k < 4 && s != []
    ensures var t := r + (s[0] as int % 128) * Scale(k);
      && Scale(k + 1) == Scale(k) * 128
      && Prepend(r, Scale(k), k, ReadLength(s, k)) ==
         if s[0] < 128 then Length(t, k + 1) else Prepend(t, Scale(k + 1), k + 1, ReadLength(s[1..], k + 1))
  {
    hide Scale;
    assert Scale(k + 1) == Scale(k) * 128 by { ScaleNext(k); }
    if s[0] >= 128 {
      PrependStep(r, k, s[0], ReadLength(s[1..], k + 1));
    }
  }

  lemma ScaleNext(k: nat)
    ensures Scale(k + 1) == Scale(k) * 128
  {}

  function Scale(k: nat): nat {
    if k == 0 then 1 else 128 * Scale(k - 1)
  }

  /** The length field of which k bytes with value r have been read. */
  function Prepend(r: nat, scale: nat, k: nat, rest: Length): Length {
    if rest.Length? then Length(r + scale * rest.value, k + rest.size) else rest
  }

  lemma PrependStep(r: nat, k: nat, b: byte, rest: Length)
    ensures b >= 128 && rest.Length? ==>
      Prepend(r, Scale(k), k, Length(b % 128 + 128 * rest.value, 1 + rest.size)) ==
      Prepend(r + (b % 128) * Scale(k), Scale(k + 1), k + 1, rest)
  {
    if rest.Length? {
      var c, v := Scale(k), rest.value;
      assert c * (b % 128 + 128 * v) == c * (b % 128) + (128 * c) * v;
    }
  }
}
