/** The frames of SDO server and client byte by byte, with the codes of CiA 301, section 7.2.4.3, given literally:
    what is answered to any frame, and when, and with which code, a transfer is aborted. */
module SdoReplies {
  import opened Bytes
  import opened ObjectDictionary
  import opened Sdo
  import opened SdoSafety

  /** Numbers stand with their least significant byte first. */
  function Little16(f: seq<byte>, i: nat): nat
    requires i + 1 < |f|
  {
    f[i] as int + f[i + 1] as int * 256
  }

  function Little32(f: seq<byte>, i: nat): nat
    requires i + 3 < |f|
  {
    f[i] as int + f[i + 1] as int * 256 + f[i + 2] as int * 65536 + f[i + 3] as int * 16777216
  }

  /** A frame that aborts a transfer. */
  predicate AbortFrame(f: Sdo.Frame, code: nat) {
    f[0] == 0x80 && Little32(f, 4) == code
  }

  lemma Packed(v: nat)
    requires v < 0x1_0000_0000
    ensures Little32(Pack32(v), 0) == v
  {
    var a, b := v / 0x100, v / 0x1_0000;
    assert v == 0x100 * a + v % 0x100;
    assert a / 0x100 == b && a == 0x100 * b + a % 0x100;
    assert b / 0x100 == v / 0x100_0000 && b == 0x100 * (v / 0x100_0000) + b % 0x100;
  }

  lemma PackedBehind(f: seq<byte>, g: seq<byte>, v: nat)
    requires v < 0x1_0000_0000 && |g| == 4 && f == g + Pack32(v)
    ensures Little32(f, 4) == v && f[..4] == g
  {
    Packed(v);
    hide Pack32;
  }

  /* ---- the server ---- */

  /** The code with which the server has to refuse the first frame of a transfer: the command is unknown, or there
      is no such object, or it may not be accessed like this, or it is too small, or its size is not given. */
  ghost predicate FirstObjection(od: Dictionary, f: Sdo.Frame, code: nat) {
    var cs, how := f[0] / 32, f[0] % 4;
    if cs != 1 && cs != 2 then code == 0x05040001
    else if forall p :: !Names(od, p, Little16(f, 1), f[3]) then code == 0x06090011
    else
      exists p :: Names(od, p, Little16(f, 1), f[3]) &&
        var x := SubAt(od, p);
        if cs == 2 then !x.readable && code == 0x06010000
        else if !x.writable then code == 0x06010000
        else if how == 3 then |x.data| < 4 - (f[0] / 4) % 4 && code == 0x05040005
        else if how == 1 then |x.data| < Little32(f, 4) % 65536 && code == 0x05040005
        else code == 0x06070010
  }

  /** Within a transfer: another command, the wrong toggle bit, or, in a download, the end too early or too late. */
  predicate SegmentObjection(s: Server, code: nat) {
    var f := s.rx;
    if f[0] / 32 != (if s.state == SUpSegment then 3 else 0) then code == 0x060A0023
    else if (f[0] / 16) % 2 != (if s.toggle then 1 else 0) then code == 0x05030000
    else s.state == SDownSegment && (f[0] % 2 == 1) != (s.size <= s.offset + 7) && code == 0x08000000
  }

  ghost predicate Objects(s: Server, code: nat) {
    && s.rx[0] / 32 != 4
    && if s.state == SIdle then FirstObjection(s.od, s.rx, code) else SegmentObjection(s, code)
  }

  /** The answer is an abort with this code; the transfer is over and nothing has been written. */
  predicate Refused(s: Server, r: ServerStep, code: nat) {
    && r.out.Some? && AbortFrame(r.out.value, code)
    && r.s.state == SIdle && r.s.od == s.od && r.s.txAbort == code && r.s.timer == 0 && !r.s.isNew
  }

  /** The time between two frames of a transfer has run out. */
  predicate Expired(timer: nat, elapsed: nat, allowed: nat) {
    timer > 0 && (timer + elapsed) % 65536 > allowed
  }

  lemma RefuseIs(s: Server, code: nat)
    requires code < 0x1_0000_0000
    ensures Refused(s, Refuse(s, code), code)
  {
    var tx := Put(s.tx, 0, [ABORT]);
    PackedBehind(tx[..4] + Pack32(code), tx[..4], code);
    hide Pack32;
  }

  /** The sub-object that a first frame names. */
  lemma Named(od: Dictionary, f: Sdo.Frame)
    requires Sorted(od)
    ensures var p := Lookup(od, Word16(f), f[3]);
      && Word16(f) == Little16(f, 1) && Word32(f) == Little32(f, 4)
      && (p.None? <==> forall q :: !Names(od, q, Little16(f, 1), f[3]))
      && (p.Some? ==> forall q :: Names(od, q, Little16(f, 1), f[3]) <==> q == p.value)
  {
    LookupExact(od, Word16(f), f[3]);
  }

  /** The state in which a frame is handled. */
  function Handling(s: Server): Server {
    s.(timer := 0)
  }

  /** The objections to a download that is permitted. */
  predicate SizeObjection(x: SubObject, f: Sdo.Frame, code: nat) {
    if f[0] % 4 == 3 then |x.data| < 4 - (f[0] / 4) % 4 && code == 0x05040005
    else if f[0] % 4 == 1 then |x.data| < Little32(f, 4) % 65536 && code == 0x05040005
    else code == 0x06070010
  }

  lemma DownInitRefused(s: Server, code: nat)
    requires Engaged(s) && s.state == SDownInit && SizeObjection(Target(s), s.rx, code)
    ensures Refused(s, DownInit(s), code)
  {
    hide Put, Pack32, Receive, CommitTarget, AbortFrame, Refuse;
    var g := StartTransfer(s);
    RefuseIs(g.(size := ExpeditedSize(g.rx)), code);
    RefuseIs(g.(size := Word32(g.rx) % 0x1_0000), code);
    RefuseIs(g, code);
  }

  /** What the first frame comes to: a refusal, or a transfer of an object that may be accessed. */
  lemma FirstDecided(s: Server)
    requires ServerInv(s) && s.state == SIdle
    ensures var f := FirstFrame(s);
      var p := Lookup(s.od, Word16(s.rx), s.rx[3]);
      var cs := s.rx[0] / 32;
      if cs != 1 && cs != 2 then f == Refuse(s, 0x05040001)
      else
        var t := s.(target := p);
        if p.None? then f == Refuse(t, 0x06090011)
        else if if cs == 1 then !SubAt(s.od, p.value).writable else !SubAt(s.od, p.value).readable
        then f == Refuse(t, 0x06010000)
        else f == ServerStep(t.(state := if cs == 1 then SDownInit else SUpInit), None)
  {
    hide Lookup, Refuse, WellFormed;
  }

  lemma FirstRefused(s: Server, code: nat)
    requires ServerInv(s) && s.state == SIdle && s.rx[0] / 32 != 4 && FirstObjection(s.od, s.rx, code)
    ensures Refused(s, OnFrame(s), code)
  {
    Named(s.od, s.rx);
    var t := Handling(s);
    FirstDecided(t);
    FirstFrameSafe(t);
    var u := t.(target := Lookup(s.od, Word16(s.rx), s.rx[3]));
    RefuseIs(t, 0x05040001);
    RefuseIs(u, 0x06090011);
    RefuseIs(u, 0x06010000);
    hide WellFormed, AbortFrame, Refuse, Lookup, FirstFrame, DownInit, UpInit, Little16, Little32, Word16, Word32,
         Names;
    var f := FirstFrame(t);
    if f.out.None? {
      DownInitRefused(f.s, code);
    }
  }

  lemma SegmentRefused(s: Server, code: nat)
    requires ServerInv(s) && s.state != SIdle && s.rx[0] / 32 != 4 && SegmentObjection(s, code)
    ensures Refused(s, OnFrame(s), code)
  {
    hide WellFormed, Put, Pack32, Receive, CommitTarget, AbortFrame, Refuse, Splice;
    RefuseIs(Handling(s), code);
  }

  /** Bytes have been received at a position; with the last of them the data take effect, unless they wait for
      a reset. */
  predicate Stored(x: SubObject, y: SubObject, at: nat, bytes: seq<byte>, last: bool)
    requires at + |bytes| <= |Receiver(x)|
  {
    && SameShape(x, y)
    && Receiver(y) == Receiver(x)[..at] + bytes + Receiver(x)[at + |bytes|..]
    && (x.temp.Some? ==> y.data == if last && !x.afterReset then Receiver(y) else x.data)
  }

  /** A transfer has begun: nothing has been transferred, and the first toggle bit is 0. */
  predicate Begun(t: Server, state: ServerState, p: Place, size: nat) {
    && t.state == state && t.target == Some(p) && t.size == size && t.offset == 0 && !t.toggle && t.timer == 1
  }

  /** A permitted download is confirmed; if the frame carries the data, they are stored. */
  ghost predicate DownAnswer(s: Server, r: ServerStep, p: Place)
    requires At(s.od, p)
  {
    var f, x := s.rx, SubAt(s.od, p);
    && r.out == Some([0x60, f[1], f[2], f[3]] + s.tx[4..])
    && if f[0] % 4 == 3 then
         var n := 4 - (f[0] / 4) % 4;
         && r.s.state == SIdle && n <= |Receiver(x)| && SameElsewhere(s.od, r.s.od, p)
         && Stored(x, SubAt(r.s.od, p), 0, f[4..4 + n], true)
       else r.s.od == s.od && Begun(r.s, SDownSegment, p, Little32(f, 4) % 65536)
  }

  /** A permitted upload: up to four bytes go out at once, otherwise their number. */
  ghost predicate UpAnswer(s: Server, r: ServerStep, p: Place)
    requires At(s.od, p)
  {
    var f, data := s.rx, SubAt(s.od, p).data;
    var n := |data|;
    && r.s.od == s.od && r.out.Some? && r.out.value[1..4] == f[1..4]
    && if n <= 4 then
         && r.out.value[0] as int == 0x43 + 4 * (if n == 0 then 0 else 4 - n)
         && r.out.value[4..4 + n] == data && r.s.state == SIdle
       else r.out.value[0] == 0x41 && Little32(r.out.value, 4) == n && Begun(r.s, SUpSegment, p, n)
  }

  /** How many bytes the next segment carries. */
  function Portion(s: Server): nat
    requires s.offset <= s.size
  {
    if s.size <= s.offset + 7 then s.size - s.offset else 7
  }

  /** After a segment the transfer goes on with the other toggle bit, or is over. */
  predicate GoesOn(s: Server, t: Server)
    requires s.offset <= s.size
  {
    if s.size <= s.offset + 7 then t.state == SIdle
    else
      && t.state == s.state && t.target == s.target && t.size == s.size && t.offset == s.offset + 7
      && t.toggle != s.toggle && t.timer == 1
  }

  /** A segment is stored and confirmed. */
  ghost predicate DownSegmentAnswer(s: Server, r: ServerStep)
    requires Engaged(s) && s.state == SDownSegment
  {
    var k := Portion(s);
    && r.out == Some([if s.toggle then 0x30 else 0x20] + s.tx[1..])
    && GoesOn(s, r.s) && SameElsewhere(s.od, r.s.od, s.target.value)
    && s.offset + k <= |Receiver(Target(s))|
    && Stored(Target(s), SubAt(r.s.od, s.target.value), s.offset, s.rx[1..1 + k], s.size <= s.offset + 7)
  }

  /** A segment goes out; the last one tells how many of its bytes do not count. */
  ghost predicate UpSegmentAnswer(s: Server, r: ServerStep)
    requires Engaged(s) && s.state == SUpSegment
  {
    var k := Portion(s);
    && r.out.Some? && r.s.od == s.od && GoesOn(s, r.s)
    && r.out.value[0] as int ==
       (if s.toggle then 0x10 else 0) + (if s.size <= s.offset + 7 then 2 * (7 - k) + 1 else 0)
    && r.out.value[1..1 + k] == Target(s).data[s.offset..s.offset + k]
  }

  /** What a frame is answered that is not refused. */
  ghost predicate Accepted(s: Server, r: ServerStep)
    requires ServerInv(s)
  {
    if s.state == SDownSegment then DownSegmentAnswer(s, r)
    else if s.state == SUpSegment then UpSegmentAnswer(s, r)
    else
      exists p :: Names(s.od, p, Little16(s.rx, 1), s.rx[3]) &&
        if s.rx[0] / 32 == 1 then SubAt(s.od, p).writable && DownAnswer(s, r, p)
        else s.rx[0] / 32 == 2 && SubAt(s.od, p).readable && UpAnswer(s, r, p)
  }

  lemma PutFirst(f: Sdo.Frame, b: byte)
    ensures Put(f, 0, [b]) == [b] + f[1..]
  {}

  lemma UpSegmentFrame(s: Server)
    requires Engaged(s) && s.state == SUpSegment
    ensures var k := Portion(s);
      var r := if s.size <= s.offset + 7 then LastSent(s) else SegmentSent(s);
      && r.out.Some? && r.s.od == s.od && GoesOn(s, r.s)
      && r.out.value[1..1 + k] == Target(s).data[s.offset..s.offset + k]
      && r.out.value[0] as int ==
         (if s.toggle then 0x10 else 0) + (if s.size <= s.offset + 7 then 2 * (7 - k) + 1 else 0)
  {
    hide Put, SubAt, SoundSub;
    var k, d := Portion(s), Target(s).data;
    var tx := Put(s.tx, 1, d[s.offset..s.offset + k]);
    var c := if s.size <= s.offset + 7 then LastSegment(s.toggle, k) else ToggleBit(s.toggle);
    PutFirst(tx, c);
  }

  lemma UpSegmentTakes(s: Server)
    requires ServerInv(s) && s.state == SUpSegment && s.rx[0] / 32 != 4
    requires forall code: nat :: !SegmentObjection(s, code)
    ensures var t := Handling(s); OnFrame(s) == Settle(if s.size <= s.offset + 7 then LastSent(t) else SegmentSent(t))
  {
    assert !SegmentObjection(s, 0x060A0023) && !SegmentObjection(s, 0x05030000);
    hide WellFormed, Refuse, SubAt, SoundSub, LastSent, SegmentSent, DownSegment, FirstFrame, Settle;
  }

  lemma UpSegmentAccepted(s: Server)
    requires ServerInv(s) && s.state == SUpSegment && s.rx[0] / 32 != 4
    requires forall code: nat :: !SegmentObjection(s, code)
    ensures UpSegmentAnswer(s, OnFrame(s))
  {
    hide WellFormed, SubAt, SoundSub, LastSent, SegmentSent, OnFrame, SegmentObjection;
    UpSegmentTakes(s);
    UpSegmentFrame(Handling(s));
  }

  lemma ReceiveStores(s: Server, d: seq<byte>)
    requires Engaged(s) && WellFormed(s.od) && s.offset + |d| <= |Target(s).data|
    ensures var r, p := Receive(s, d), s.target.value;
      && At(r.od, p) && s.offset + |d| <= |Receiver(Target(s))| && SameElsewhere(s.od, r.od, p)
      && Stored(Target(s), SubAt(r.od, p), s.offset, d, false)
    ensures var r, p := CommitTarget(Receive(s, d)), s.target.value;
      && At(r.od, p) && s.offset + |d| <= |Receiver(Target(s))| && SameElsewhere(s.od, r.od, p)
      && Stored(Target(s), SubAt(r.od, p), s.offset, d, true)
  {
    ReceiveConfined(s, d);
    hide WellFormed, SameElsewhere;
  }

  lemma DownSegmentRoute(s: Server)
    requires ServerInv(s) && s.state == SDownSegment && s.rx[0] / 32 != 4
    requires forall code: nat :: !SegmentObjection(s, code)
    ensures var t := Handling(s); OnFrame(s) == Settle(if s.size <= s.offset + 7 then LastTaken(t) else SegmentTaken(t))
  {
    assert !SegmentObjection(s, 0x060A0023) && !SegmentObjection(s, 0x05030000) && !SegmentObjection(s, 0x08000000);
    hide WellFormed, Refuse, Settle, LastTaken, SegmentTaken, UpSegment, FirstFrame, SubAt, SoundSub;
  }

  lemma LastAccepted(s: Server)
    requires ServerInv(s) && s.state == SDownSegment && s.size <= s.offset + 7
    ensures DownSegmentAnswer(s, Settle(LastTaken(s)))
  {
    hide WellFormed, SameElsewhere, Receive, CommitTarget, SubAt, Stored, Put, SoundSub, LastTaken;
    var d := s.rx[1..1 + Portion(s)];
    LastTakenIs(s);
    ReceiveStores(s, d);
    CommitTx(s, d, Put(s.tx, 0, [32 + ToggleBit(s.toggle)]));
    PutFirst(s.tx, 32 + ToggleBit(s.toggle));
  }

  lemma MoreAccepted(s: Server)
    requires ServerInv(s) && s.state == SDownSegment && s.offset + 7 < s.size
    ensures DownSegmentAnswer(s, Settle(SegmentTaken(s)))
  {
    hide WellFormed, SameElsewhere, Receive, CommitTarget, SubAt, Stored, Put, SoundSub, SegmentTaken;
    SegmentTakenIs(s);
    ReceiveStores(s, s.rx[1..8]);
    CommitTx(s, s.rx[1..8], s.tx);
    PutFirst(s.tx, 32 + ToggleBit(s.toggle));
  }

  lemma DownSegmentAccepted(s: Server)
    requires ServerInv(s) && s.state == SDownSegment && s.rx[0] / 32 != 4
    requires forall code: nat :: !SegmentObjection(s, code)
    ensures DownSegmentAnswer(s, OnFrame(s))
  {
    DownSegmentRoute(s);
    hide WellFormed, OnFrame, LastTaken, SegmentTaken, SegmentObjection, SubAt, SoundSub, Settle;
    var t := Handling(s);
    if s.size <= s.offset + 7 {
      LastAccepted(t);
      DownSegmentSame(s, t, Settle(LastTaken(t)));
    } else {
      MoreAccepted(t);
      DownSegmentSame(s, t, Settle(SegmentTaken(t)));
    }
  }

  lemma DownSegmentSame(s: Server, t: Server, r: ServerStep)
    requires ServerInv(s) && s.state == SDownSegment && t == Handling(s) && DownSegmentAnswer(t, r)
    ensures DownSegmentAnswer(s, r)
  {
    hide WellFormed, SubAt, SoundSub, Stored, SameElsewhere;
  }

  lemma StartFrame(s: Server, c: byte)
    ensures Put(StartTransfer(s).tx, 0, [c]) == [c, s.rx[1], s.rx[2], s.rx[3]] + s.tx[4..]
  {
    assert s.rx[1..4] == [s.rx[1], s.rx[2], s.rx[3]];
  }

  /** What the handler of an expedited download does that fits. */
  lemma ExpeditedTakes(s: Server)
    requires Engaged(s) && s.state == SDownInit && s.offset == 0 && ExpeditedSize(s.rx) <= |Target(s).data|
    ensures var n, tx := ExpeditedSize(s.rx), Put(s.tx, 0, [0x60]);
      var t, d := s.(size := n), s.rx[4..4 + n];
      && Receive(t, d).target.Some? && At(Receive(t, d).od, s.target.value)
      && ExpeditedInit(s) == Finished(CommitTarget(Receive(t, d).(tx := tx)))
  {
    hide CommitTarget, Put, Finished, SubAt, SoundSub, Refuse;
    CommitTx(s.(size := ExpeditedSize(s.rx)), s.rx[4..4 + ExpeditedSize(s.rx)], s.tx);
  }

  /** No objection to the size means that the data fit. */
  lemma SizeFits(x: SubObject, f: Sdo.Frame)
    requires forall code: nat :: !SizeObjection(x, f, code)
    ensures if f[0] % 4 == 3 then ExpeditedSize(f) <= |x.data|
            else f[0] % 4 == 1 && Word32(f) == Little32(f, 4) && Word32(f) % 65536 <= |x.data|
  {
    assert !SizeObjection(x, f, 0x05040005) && !SizeObjection(x, f, 0x06070010);
  }

  /** What the handler of the first frame of a download does if the frame carries the data and has no objection. */
  lemma DownInitTakes(s: Server)
    requires Engaged(s) && WellFormed(s.od) && s.state == SDownInit && s.rx[0] % 4 == 3
    requires ExpeditedSize(s.rx) <= |Target(s).data|
    ensures var t, d := StartTransfer(s).(size := ExpeditedSize(s.rx)), s.rx[4..4 + ExpeditedSize(s.rx)];
      && Receive(t, d).target.Some? && At(Receive(t, d).od, s.target.value)
      && DownInit(s) == Finished(CommitTarget(Receive(t, d).(tx := Put(StartTransfer(s).tx, 0, [0x60]))))
  {
    hide WellFormed, Refuse, CommitTarget, Put, Finished, Reply, SubAt, SoundSub, ExpeditedInit, Receive, ExpeditedSize,
         Word32;
    ExpeditedTakes(StartTransfer(s));
  }

  /** And if it announces their size. */
  lemma DownInitWaits(s: Server)
    requires Engaged(s) && s.state == SDownInit && s.rx[0] % 4 == 1 && Word32(s.rx) % 65536 <= |Target(s).data|
    ensures DownInit(s) ==
      Reply(StartTransfer(s).(tx := Put(StartTransfer(s).tx, 0, [0x60]), size := Word32(s.rx) % 65536,
                              state := SDownSegment), 1)
  {
    hide Refuse, Put, Reply, SubAt, SoundSub, ExpeditedInit, Word32;
  }

  lemma DownInitAccepted(s: Server)
    requires Engaged(s) && WellFormed(s.od) && s.state == SDownInit
    requires forall code: nat :: !SizeObjection(Target(s), s.rx, code)
    ensures DownAnswer(s, Settle(DownInit(s)), s.target.value)
  {
    hide WellFormed, SameElsewhere, Receive, CommitTarget, SubAt, Stored, Put, DownInit, SizeObjection, SoundSub;
    SizeFits(Target(s), s.rx);
    StartFrame(s, 0x60);
    if s.rx[0] % 4 == 3 {
      DownInitTakes(s);
      var n := 4 - (s.rx[0] / 4) % 4;
      var t := StartTransfer(s).(size := n);
      ReceiveStores(t, s.rx[4..4 + n]);
      CommitTx(t, s.rx[4..4 + n], Put(StartTransfer(s).tx, 0, [0x60]));
    } else {
      DownInitWaits(s);
    }
  }

  lemma UpInitAccepted(s: Server)
    requires Engaged(s) && s.state == SUpInit
    ensures UpAnswer(s, Settle(UpInit(s)), s.target.value)
  {
    var n := |Target(s).data|;
    if n <= 4 {
      hide SubAt, Pack32;
    } else {
      StartFrame(s, 65);
      var tx := Put(StartTransfer(s).tx, 0, [65]);
      PackedBehind(tx[..4] + Pack32(n), tx[..4], n);
      hide SubAt, Pack32, Put, Little32;
    }
  }

  lemma FirstAccepted(s: Server)
    requires ServerInv(s) && s.state == SIdle && s.rx[0] / 32 != 4
    requires forall code: nat :: !FirstObjection(s.od, s.rx, code)
    ensures Accepted(s, OnFrame(s))
  {
    assert !FirstObjection(s.od, s.rx, 0x05040001) && !FirstObjection(s.od, s.rx, 0x06090011);
    assert !FirstObjection(s.od, s.rx, 0x06010000);
    Named(s.od, s.rx);
    var t := Handling(s);
    FirstDecided(t);
    FirstFrameSafe(t);
    var f := FirstFrame(t);
    var p := Lookup(s.od, Word16(s.rx), s.rx[3]).value;
    assert Names(s.od, p, Little16(s.rx, 1), s.rx[3]);
    hide WellFormed, AbortFrame, Refuse, Lookup, FirstFrame, DownInit, UpInit, Little16, Little32, Word16, Word32,
         DownAnswer, UpAnswer, SubAt, FirstObjection, SizeObjection;
    if s.rx[0] / 32 == 1 {
      forall code: nat
        ensures !SizeObjection(Target(f.s), s.rx, code)
      {
        SizeObjects(s.od, s.rx, p, code);
      }
      DownInitAccepted(f.s);
      DownAnswerSame(s, f.s, Settle(DownInit(f.s)), p);
    } else {
      UpInitAccepted(f.s);
      UpAnswerSame(s, f.s, Settle(UpInit(f.s)), p);
    }
  }

  lemma SizeObjects(od: Dictionary, f: Sdo.Frame, p: Place, code: nat)
    requires Names(od, p, Little16(f, 1), f[3]) && f[0] / 32 == 1 && SubAt(od, p).writable
    ensures SizeObjection(SubAt(od, p), f, code) ==> FirstObjection(od, f, code)
  {}

  lemma DownAnswerSame(s: Server, t: Server, r: ServerStep, p: Place)
    requires At(s.od, p) && t.od == s.od && t.rx == s.rx && t.tx == s.tx && DownAnswer(t, r, p)
    ensures DownAnswer(s, r, p)
  {}

  lemma UpAnswerSame(s: Server, t: Server, r: ServerStep, p: Place)
    requires At(s.od, p) && t.od == s.od && t.rx == s.rx && UpAnswer(t, r, p)
    ensures UpAnswer(s, r, p)
  {}

  /** The server meets the standard on every frame and at every moment: a transfer that takes too long is given up
      without a frame; an abort from the client ends it; what is objectionable is refused with the code for it,
      and everything else is answered. */
  lemma ServerConforms(s: Server, elapsed: nat)
    requires ServerInv(s)
    ensures var r := ServerProcess(s, elapsed);
      if Expired(s.timer, elapsed, s.allowed) then
        r.out == None && r.s.od == s.od && r.s.state == SIdle && r.s.txAbort == 0x05040000 && r.s.status == Aborted
      else if !s.isNew then
        && r.out == None && r.s.od == s.od && r.s.state == s.state
        && r.s.timer == if s.timer == 0 then 0 else (s.timer + elapsed) % 65536
      else if s.rx[0] / 32 == 4 then
        && r.out == None && r.s.od == s.od && r.s.state == SIdle && !r.s.isNew
        && r.s.rxAbort == Little32(s.rx, 4) && r.s.status == Aborted
      else
        && !r.s.isNew
        && (forall code: nat :: Objects(s, code) ==> Refused(s, r, code))
        && ((forall code: nat :: !Objects(s, code)) ==> Accepted(s, r))
  {
    hide WellFormed, Refused, Accepted, SegmentObjection, FirstObjection, AbortFrame, Engaged, Target,
         FirstFrame, DownInit, UpInit, DownSegment, UpSegment;
    if !Expired(s.timer, elapsed, s.allowed) && s.isNew && s.rx[0] / 32 != 4 {
      HandlesFrame(s, elapsed);
      FrameTaken(s);
      hide ServerProcess, OnFrame;
      forall code: nat | Objects(s, code)
        ensures Refused(s, OnFrame(s), code)
      {
        if s.state == SIdle {
          FirstRefused(s, code);
        } else {
          SegmentRefused(s, code);
        }
      }
      if forall code: nat :: !Objects(s, code) {
        FrameAccepted(s);
      }
    }
  }

  /** A frame is handled in the same way whatever the timer says. */
  lemma HandlesFrame(s: Server, elapsed: nat)
    requires ServerInv(s) && s.isNew && !Expired(s.timer, elapsed, s.allowed)
    ensures ServerProcess(s, elapsed) == OnFrame(s)
  {
    hide WellFormed, FirstFrame, DownInit, UpInit, DownSegment, UpSegment;
  }

  lemma FrameTaken(s: Server)
    requires ServerInv(s)
    ensures !OnFrame(s).s.isNew
  {
    hide WellFormed, FirstFrame, DownInit, UpInit, DownSegment, UpSegment;
    FirstFrameSafe(Handling(s));
  }

  lemma FrameAccepted(s: Server)
    requires ServerInv(s) && s.rx[0] / 32 != 4 && forall code: nat :: !Objects(s, code)
    ensures Accepted(s, OnFrame(s))
  {
    hide OnFrame, SegmentObjection, FirstObjection, WellFormed, DownSegmentAnswer, UpSegmentAnswer;
    if s.state == SDownSegment {
      assert forall code: nat :: Objects(s, code) == SegmentObjection(s, code);
      DownSegmentAccepted(s);
    } else if s.state == SUpSegment {
      assert forall code: nat :: Objects(s, code) == SegmentObjection(s, code);
      UpSegmentAccepted(s);
    } else {
      assert forall code: nat :: Objects(s, code) == FirstObjection(s.od, s.rx, code);
      FirstAccepted(s);
    }
  }
}
