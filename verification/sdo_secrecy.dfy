/** What the SDO server keeps to itself: no frames, however many, make it give away a byte of a sub-object
    without read access. */
module SdoSecrecy {
  import opened Bytes
  import opened ObjectDictionary
  import opened Sdo
  import opened SdoSafety

  /** The dictionaries differ at most in the bytes of the sub-object at p, which may not be read. */
  ghost predicate AlikeOd(a: Dictionary, b: Dictionary, p: Place) {
    && SameElsewhere(a, b, p) && At(a, p) && At(b, p)
    && SameShape(SubAt(a, p), SubAt(b, p)) && !SubAt(a, p).readable
  }

  /** Two servers in the same state, but for the bytes of that sub-object. */
  ghost predicate Alike(s: Server, t: Server, p: Place) {
    t == s.(od := t.od) && AlikeOd(s.od, t.od, p)
  }

  ghost predicate AlikeStep(r: ServerStep, q: ServerStep, p: Place) {
    r.out == q.out && Alike(r.s, q.s, p)
  }

  lemma SubAlike(a: Dictionary, b: Dictionary, p: Place, q: Place)
    requires AlikeOd(a, b, p)
    ensures At(a, q) <==> At(b, q)
    ensures At(a, q) ==>
      && SameShape(SubAt(a, q), SubAt(b, q))
      && (q != p ==> SubAt(b, q) == SubAt(a, q))
      && (q == p ==> !SubAt(a, q).readable)
  {}

  lemma WithSubAlike(a: Dictionary, b: Dictionary, p: Place, q: Place, x: SubObject, y: SubObject)
    requires AlikeOd(a, b, p) && At(a, q) && At(b, q)
    requires if q == p then SameShape(x, y) && !x.readable else x == y
    ensures AlikeOd(WithSub(a, q, x), WithSub(b, q, y), p)
  {
    var c, d := WithSub(a, q, x), WithSub(b, q, y);
    forall o | At(c, o) && o != p
      ensures SubAt(d, o) == SubAt(c, o)
    {
      assert At(a, o);
      assert SubAt(b, o) == SubAt(a, o);
    }
  }

  lemma LookupAlike(a: Dictionary, b: Dictionary, p: Place, index: nat, sub: nat)
    requires AlikeOd(a, b, p)
    ensures Lookup(b, index, sub) == Lookup(a, index, sub)
  {
    SameIndexes(a.objects, b.objects, index);
  }

  lemma ReceiveAlike(s: Server, t: Server, p: Place, d: seq<byte>)
    requires Alike(s, t, p) && Engaged(s) && Engaged(t) && s.offset + |d| <= |Target(s).data|
    ensures |Target(t).data| == |Target(s).data|
    ensures Alike(Receive(s, d), Receive(t, d), p)
  {
    var q := s.target.value;
    SubAlike(s.od, t.od, p, q);
    var x, y := Target(s), Target(t);
    WithSubAlike(s.od, t.od, p, q, WithReceiver(x, Splice(Receiver(x), s.offset, d)),
      WithReceiver(y, Splice(Receiver(y), t.offset, d)));
    hide SameElsewhere, AlikeOd;
  }

  lemma CommitAlike(s: Server, t: Server, p: Place)
    requires Alike(s, t, p) && s.target.Some? && At(s.od, s.target.value) && At(t.od, s.target.value)
    requires SoundSub(SubAt(s.od, s.target.value)) && SoundSub(SubAt(t.od, s.target.value))
    ensures Alike(CommitTarget(s), CommitTarget(t), p)
  {
    var q := s.target.value;
    SubAlike(s.od, t.od, p, q);
    WithSubAlike(s.od, t.od, p, q, Commit(SubAt(s.od, q)), Commit(SubAt(t.od, q)));
    hide SameElsewhere, AlikeOd;
  }

  lemma RefuseAlike(s: Server, t: Server, p: Place, code: nat)
    requires Alike(s, t, p) && code < 0x1_0000_0000
    ensures AlikeStep(Refuse(s, code), Refuse(t, code), p)
  {
    hide AlikeOd, Put, Pack32;
  }

  /** The last bytes of a download. */
  lemma StoreAlike(s: Server, t: Server, p: Place, d: seq<byte>, tx: Frame)
    requires Alike(s, t, p) && Engaged(s) && Engaged(t) && WellFormed(s.od) && WellFormed(t.od)
    requires s.offset + |d| <= |Target(s).data|
    ensures |Target(t).data| == |Target(s).data|
    ensures Receive(s, d).target.Some? && At(Receive(s, d).od, s.target.value)
    ensures Receive(t, d).target.Some? && At(Receive(t, d).od, s.target.value)
    ensures Alike(CommitTarget(Receive(s, d).(tx := tx)), CommitTarget(Receive(t, d).(tx := tx)), p)
  {
    ReceiveAlike(s, t, p, d);
    ReceiveConfined(s, d);
    ReceiveConfined(t, d);
    CommitTx(s, d, tx);
    CommitTx(t, d, tx);
    hide Receive, AlikeOd, WellFormed, SameElsewhere, CommitTarget, Engaged;
    CommitAlike(Receive(s, d).(tx := tx), Receive(t, d).(tx := tx), p);
  }

  lemma LastTakenAlike(s: Server, t: Server, p: Place)
    requires ServerInv(s) && ServerInv(t) && Alike(s, t, p) && s.state == SDownSegment && s.size <= s.offset + 7
    ensures AlikeStep(LastTaken(s), LastTaken(t), p)
  {
    hide AlikeOd, WellFormed, Receive, CommitTarget, Put, SubAt, SoundSub, ToggleBit, LastTaken;
    LastTakenIs(s);
    LastTakenIs(t);
    StoreAlike(s, t, p, s.rx[1..1 + (s.size - s.offset)], Put(s.tx, 0, [32 + ToggleBit(s.toggle)]));
  }

  lemma SegmentTakenAlike(s: Server, t: Server, p: Place)
    requires ServerInv(s) && ServerInv(t) && Alike(s, t, p) && s.state == SDownSegment && s.offset + 7 < s.size
    ensures AlikeStep(SegmentTaken(s), SegmentTaken(t), p)
  {
    hide AlikeOd, WellFormed, Receive, CommitTarget, Put, SubAt, SoundSub, ToggleBit;
    ReceiveAlike(s, t, p, s.rx[1..8]);
  }

  lemma DownSegmentAlike(s: Server, t: Server, p: Place)
    requires ServerInv(s) && ServerInv(t) && Alike(s, t, p) && s.state == SDownSegment
    ensures AlikeStep(DownSegment(s), DownSegment(t), p)
  {
    hide AlikeOd, WellFormed, LastTaken, SegmentTaken, Refuse, SubAt, SoundSub;
    RefuseAlike(s, t, p, AB_NO_RESOURCE);
    RefuseAlike(s, t, p, AB_TOGGLE_BIT);
    RefuseAlike(s, t, p, AB_GENERAL);
    if s.size <= s.offset + 7 {
      LastTakenAlike(s, t, p);
    } else {
      SegmentTakenAlike(s, t, p);
    }
  }

  lemma DownInitAlike(s: Server, t: Server, p: Place)
    requires Engaged(s) && Engaged(t) && WellFormed(s.od) && WellFormed(t.od) && Alike(s, t, p) && s.state == SDownInit
    ensures AlikeStep(DownInit(s), DownInit(t), p)
  {
    hide AlikeOd, WellFormed, Receive, CommitTarget, Refuse, Put, SubAt, SoundSub, Word32;
    var u, v := StartTransfer(s), StartTransfer(t);
    RefuseAlike(u, v, p, AB_TYPE_MISMATCH);
    SizesAlike(s, t, p);
    var n := Word32(s.rx) % 0x1_0000;
    RefuseAlike(u.(size := n), v.(size := n), p, AB_OUT_OF_MEM);
    var k := ExpeditedSize(s.rx);
    var x, y := u.(size := k), v.(size := k);
    RefuseAlike(x, y, p, AB_OUT_OF_MEM);
    if k <= |Target(s).data| {
      var tx := Put(x.tx, 0, [3 * 32]);
      CommitTx(x, s.rx[4..4 + k], x.tx);
      CommitTx(y, s.rx[4..4 + k], y.tx);
      StoreAlike(x, y, p, s.rx[4..4 + k], tx);
    }
  }

  lemma SizesAlike(s: Server, t: Server, p: Place)
    requires Alike(s, t, p) && Engaged(s) && Engaged(t)
    ensures |Target(t).data| == |Target(s).data|
    ensures Target(s).readable ==> Target(t) == Target(s)
  {
    SubAlike(s.od, t.od, p, s.target.value);
  }

  lemma UpInitAlike(s: Server, t: Server, p: Place)
    requires Engaged(s) && Engaged(t) && Alike(s, t, p) && s.state == SUpInit && Target(s).readable
    ensures AlikeStep(UpInit(s), UpInit(t), p)
  {
    SizesAlike(s, t, p);
    hide AlikeOd, Put, SubAt, SoundSub, Pack32;
  }

  lemma UpSegmentAlike(s: Server, t: Server, p: Place)
    requires ServerInv(s) && ServerInv(t) && Alike(s, t, p) && s.state == SUpSegment
    ensures AlikeStep(UpSegment(s), UpSegment(t), p)
  {
    SizesAlike(s, t, p);
    RefuseAlike(s, t, p, AB_NO_RESOURCE);
    RefuseAlike(s, t, p, AB_TOGGLE_BIT);
    hide AlikeOd, Put, SubAt, SoundSub, Refuse, WellFormed;
  }

  lemma FirstFrameAlike(s: Server, t: Server, p: Place)
    requires WellFormed(s.od) && WellFormed(t.od) && Alike(s, t, p)
    ensures AlikeStep(FirstFrame(s), FirstFrame(t), p)
  {
    hide AlikeOd, WellFormed, Refuse, Lookup, SubAt, Word16;
    LookupAlike(s.od, t.od, p, Word16(s.rx), s.rx[3]);
    var q := Lookup(s.od, Word16(s.rx), s.rx[3]);
    RefuseAlike(s, t, p, AB_CMD);
    var u, v := s.(target := q), t.(target := q);
    RefuseAlike(u, v, p, AB_SUB_UNKNOWN);
    RefuseAlike(u, v, p, AB_UNSUPPORTED_ACCESS);
    if q.Some? {
      SubAlike(s.od, t.od, p, q.value);
    }
  }

  lemma SettleAlike(r: ServerStep, q: ServerStep, p: Place)
    requires AlikeStep(r, q, p)
    ensures AlikeStep(Settle(r), Settle(q), p)
  {
    hide AlikeOd;
  }

  lemma TimerInv(s: Server, u: Server)
    requires ServerInv(s) && u == s.(timer := u.timer)
    ensures ServerInv(u)
  {
    hide WellFormed;
  }

  lemma OnFrameAlike(s: Server, t: Server, p: Place)
    requires ServerInv(s) && ServerInv(t) && Alike(s, t, p)
    ensures AlikeStep(OnFrame(s), OnFrame(t), p)
  {
    hide AlikeOd, WellFormed, FirstFrame, DownInit, UpInit, DownSegment, UpSegment, Settle, Target, SoundSub, SubAt;
    var u, v := s.(timer := 0), t.(timer := 0);
    TimerInv(s, u);
    TimerInv(t, v);
    hide Engaged;
    if s.state == SDownSegment {
      DownSegmentAlike(u, v, p);
      SettleAlike(DownSegment(u), DownSegment(v), p);
    } else if s.state == SUpSegment {
      UpSegmentAlike(u, v, p);
      SettleAlike(UpSegment(u), UpSegment(v), p);
    } else {
      FirstFrameAlike(u, v, p);
      FirstFrameSafe(u);
      FirstFrameSafe(v);
      var f, g := FirstFrame(u).s, FirstFrame(v).s;
      if FirstFrame(u).out.None? {
        if f.state == SDownInit {
          DownInitAlike(f, g, p);
          SettleAlike(DownInit(f), DownInit(g), p);
        } else {
          UpInitAlike(f, g, p);
          SettleAlike(UpInit(f), UpInit(g), p);
        }
      }
    }
  }

  lemma StepAlike(s: Server, t: Server, p: Place, i: Input)
    requires ServerInv(s) && ServerInv(t) && Alike(s, t, p)
    ensures AlikeStep(ServerStepOn(s, i), ServerStepOn(t, i), p)
  {
    hide AlikeOd, WellFormed, OnFrame, Engaged;
    if i.Tick? {
      var e := i.elapsed;
      var u := if s.timer > 0 then s.(timer := Sdo.Advance(s.timer, e)) else s;
      var v := if t.timer > 0 then t.(timer := Sdo.Advance(t.timer, e)) else t;
      TimerInv(s, u);
      TimerInv(t, v);
      OnFrameAlike(u, v, p);
    }
  }

  /** The frames that a server sends, input by input. */
  ghost function Outputs(s: Server, inputs: seq<Input>): seq<Option<Sdo.Frame>>
    requires ServerInv(s)
    decreases |inputs|
  {
    if inputs == [] then []
    else
      InputSafe(s, inputs[0]);
      var r := ServerStepOn(s, inputs[0]);
      [r.out] + Outputs(r.s, inputs[1..])
  }

  /** Servers whose dictionaries differ only in the bytes of a sub-object without read access answer every
      sequence of frames, at whatever times, with the same frames: none of those bytes ever gets out. */
  lemma {:induction false} UnreadableHidden(s: Server, t: Server, p: Place, inputs: seq<Input>)
    requires ServerInv(s) && ServerInv(t) && Alike(s, t, p)
    ensures Outputs(t, inputs) == Outputs(s, inputs)
    decreases |inputs|
  {
    hide ServerInv, Alike, ServerStepOn;
    if inputs != [] {
      InputSafe(s, inputs[0]);
      InputSafe(t, inputs[0]);
      StepAlike(s, t, p, inputs[0]);
      UnreadableHidden(ServerStepOn(s, inputs[0]).s, ServerStepOn(t, inputs[0]).s, p, inputs[1..]);
    }
  }
}
