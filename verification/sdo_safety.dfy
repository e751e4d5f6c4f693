/** What the SDO server keeps for every sequence of frames it may be sent. */
module SdoSafety {
  import opened Bytes
  import opened ObjectDictionary
  import opened Sdo

  /** Same lengths, same attributes. */
  predicate SameShape(x: SubObject, y: SubObject) {
    && |y.data| == |x.data| && y.temp.Some? == x.temp.Some?
    && y.readable == x.readable && y.writable == x.writable && y.afterReset == x.afterReset
  }

  /** The reply that ends a download. */
  predicate Confirms(out: Option<Frame>) {
    out.Some? && (Command(out.value) == 3 || Command(out.value) == 1)
  }

  /** The bytes of the sub-object at p change, nothing else does; if it has a buffer of its own,
      its operating data change only in the step that completes a download. */
  ghost predicate WritesOnly(od: Dictionary, r: ServerStep, p: Place) {
    && At(od, p) && At(r.s.od, p)
    && SubAt(od, p).writable
    && SameElsewhere(od, r.s.od, p)
    && SameShape(SubAt(od, p), SubAt(r.s.od, p))
    && (SubAt(od, p).temp.Some? && SubAt(r.s.od, p).data != SubAt(od, p).data ==>
          r.s.state == SIdle && Confirms(r.out) && SubAt(r.s.od, p).data == SubAt(r.s.od, p).temp.value)
  }

  /** The frame asks for a download to the place p. */
  predicate Requests(od: Dictionary, f: Frame, p: Place) {
    Command(f) == 1 && Lookup(od, Word16(f), f[3]) == Some(p)
  }

  /** The place a download may write to: the one its first frame names, then the same until it ends. */
  ghost predicate MayWrite(s: Server, p: Place) {
    match s.state
    case SIdle => s.isNew && Requests(s.od, s.rx, p)
    case SDownSegment => s.target == Some(p)
    case _ => false
  }

  /** A step writes nothing, or into the one sub-object addressed. */
  ghost predicate Confined(s: Server, r: ServerStep) {
    r.s.od == s.od || (r.s.target.Some? && MayWrite(s, r.s.target.value) && WritesOnly(s.od, r, r.s.target.value))
  }

  /** What a handler leaves behind: the target and the frame as they were, and no write elsewhere. */
  ghost predicate Handled(od: Dictionary, target: Option<Place>, rx: Frame, r: ServerStep) {
    && ServerInv(r.s)
    && target.Some? && r.s.target == target
    && r.s.rx == rx && !r.s.isNew
    && (r.s.od == od || WritesOnly(od, r, target.value))
  }

  predicate NoDownload(s: Server, r: ServerStep) {
    r.s.od == s.od && r.s.state != SDownSegment
  }

  /** A download under way after a step is the one addressed before it, and no frame appears. */
  ghost predicate Follows(s: Server, t: Server) {
    && (t.state == SDownSegment ==> t.target.Some? && MayWrite(s, t.target.value))
    && t.rx == s.rx && (t.isNew ==> s.isNew)
  }

  lemma SpliceShape(x: SubObject, at: nat, d: seq<byte>)
    requires SoundSub(x) && at + |d| <= |x.data|
    ensures var y := WithReceiver(x, Splice(Receiver(x), at, d));
      && SoundSub(y) && SameShape(x, y) && SameShape(x, Commit(y)) && SoundSub(Commit(y))
      && (x.temp.Some? ==> y.data == x.data)
      && (x.temp.Some? && Commit(y).data != x.data ==> Commit(y).data == Commit(y).temp.value)
  {}

  lemma SubAgain(od: Dictionary, p: Place, x: SubObject, y: SubObject)
    requires At(od, p)
    ensures WithSub(WithSub(od, p, x), p, y) == WithSub(od, p, y)
  {
    var o := od.objects[p.no];
    assert o.subs[p.sub := x][p.sub := y] == o.subs[p.sub := y];
    assert WithSub(WithSub(od, p, x), p, y).objects == WithSub(od, p, y).objects;
  }

  /** Receiving bytes, and possibly committing them, confines the change to the target. */
  lemma ReceiveConfined(s: Server, d: seq<byte>)
    requires Engaged(s) && WellFormed(s.od) && s.offset + |d| <= |Target(s).data|
    ensures var r, p := Receive(s, d), s.target.value;
      && WellFormed(r.od) && SameElsewhere(s.od, r.od, p) && At(r.od, p)
      && SameShape(Target(s), SubAt(r.od, p)) && SoundSub(SubAt(r.od, p))
      && (Target(s).temp.Some? ==> SubAt(r.od, p).data == Target(s).data)
    ensures var r, p := CommitTarget(Receive(s, d)), s.target.value;
      && WellFormed(r.od) && SameElsewhere(s.od, r.od, p) && At(r.od, p)
      && SameShape(Target(s), SubAt(r.od, p)) && SoundSub(SubAt(r.od, p))
      && (Target(s).temp.Some? && SubAt(r.od, p).data != Target(s).data
          ==> SubAt(r.od, p).data == SubAt(r.od, p).temp.value)
  {
    var x, p := Target(s), s.target.value;
    SpliceShape(x, s.offset, d);
    var y := WithReceiver(x, Splice(Receiver(x), s.offset, d));
    WithSubKeeps(s.od, p, y);
    WithSubKeeps(s.od, p, Commit(y));
    SubAgain(s.od, p, y, Commit(y));
  }

  /** The frame buffer plays no part in what is received. */
  lemma CommitTx(s: Server, d: seq<byte>, tx: Frame)
    requires Engaged(s) && s.offset + |d| <= |Target(s).data|
    ensures CommitTarget(Receive(s, d).(tx := tx)).od == CommitTarget(Receive(s, d)).od
    ensures Receive(s, d) == s.(od := Receive(s, d).od, offset := s.offset + |d|)
    ensures Receive(s, d).target.Some? && At(Receive(s, d).od, s.target.value)
    ensures CommitTarget(Receive(s, d).(tx := tx)) == Receive(s, d).(tx := tx, od := CommitTarget(Receive(s, d)).od)
  {}

  /** The last segment of a download, in one expression. */
  lemma LastTakenIs(s: Server)
    requires ServerInv(s) && s.state == SDownSegment && s.size <= s.offset + 7
    ensures var d, tx := s.rx[1..1 + (s.size - s.offset)], Put(s.tx, 0, [32 + ToggleBit(s.toggle)]);
      && Receive(s, d).target.Some? && At(Receive(s, d).od, s.target.value)
      && LastTaken(s) == Finished(CommitTarget(Receive(s, d).(tx := tx)))
  {
    hide WellFormed, CommitTarget, Put, SubAt, SoundSub, ToggleBit, Finished;
    CommitTx(s, s.rx[1..1 + (s.size - s.offset)], s.tx);
  }

  /** And any other one. */
  lemma SegmentTakenIs(s: Server)
    requires ServerInv(s) && s.state == SDownSegment && s.offset + 7 < s.size
    ensures var d, tx := s.rx[1..8], Put(s.tx, 0, [32 + ToggleBit(s.toggle)]);
      SegmentTaken(s) ==
        var r := Reply(Receive(s, d).(tx := tx), 1);
        r.(s := r.s.(toggle := !s.toggle))
  {
    hide WellFormed, CommitTarget, Put, SubAt, SoundSub, ToggleBit;
    CommitTx(s, s.rx[1..8], s.tx);
  }

  lemma RefuseHandled(s: Server, code: nat)
    requires code < 0x1_0000_0000 && s.target.Some? && WellFormed(s.od)
    ensures Handled(s.od, s.target, s.rx, Settle(Refuse(s, code)))
  {
    hide WellFormed, WritesOnly;
  }

  /** The last bytes of a download, confirmed by the frame tx. */
  lemma CommitHandled(s: Server, d: seq<byte>, tx: Frame)
    requires Engaged(s) && WellFormed(s.od) && s.offset + |d| <= |Target(s).data|
    requires Target(s).writable && (Command(tx) == 3 || Command(tx) == 1)
    ensures Receive(s, d).target.Some? && At(Receive(s, d).od, s.target.value)
    ensures Handled(s.od, s.target, s.rx, Settle(Finished(CommitTarget(Receive(s, d).(tx := tx)))))
  {
    hide WellFormed, SameElsewhere;
    ReceiveConfined(s, d);
  }

  /** Bytes of a segment that is not the last, confirmed by the frame tx. */
  lemma ReceiveHandled(s: Server, d: seq<byte>, tx: Frame, toggle: bool)
    requires Engaged(s) && WellFormed(s.od) && s.state == SDownSegment && s.offset + |d| <= s.size
    requires Target(s).writable
    ensures var r := Reply(Receive(s, d).(tx := tx), 1);
      Handled(s.od, s.target, s.rx, Settle(r.(s := r.s.(toggle := toggle))))
  {
    hide WellFormed, SameElsewhere;
    ReceiveConfined(s, d);
  }

  lemma ExpeditedSafe(s: Server)
    requires Engaged(s) && WellFormed(s.od) && s.state == SDownInit && s.offset == 0 && Target(s).writable
    ensures Handled(s.od, s.target, s.rx, Settle(ExpeditedInit(s)))
  {
    hide WellFormed, Handled, CommitTarget, Receive, SubAt, WithSub, Refuse;
    var t := s.(size := ExpeditedSize(s.rx));
    if t.size <= |Target(s).data| {
      CommitTx(t, s.rx[4..4 + t.size], t.tx);
      CommitHandled(t, s.rx[4..4 + t.size], Put(t.tx, 0, [96]));
    } else {
      RefuseHandled(t, AB_OUT_OF_MEM);
    }
  }

  lemma DownInitSafe(s: Server)
    requires Engaged(s) && WellFormed(s.od) && s.state == SDownInit && Target(s).writable
    ensures Handled(s.od, s.target, s.rx, Settle(DownInit(s)))
  {
    hide WellFormed, WritesOnly, ExpeditedInit, SubAt, Refuse;
    var t := StartTransfer(s);
    ExpeditedSafe(t);
    RefuseHandled(t.(size := Word32(s.rx) % 0x1_0000), AB_OUT_OF_MEM);
    RefuseHandled(t, AB_TYPE_MISMATCH);
  }

  lemma DownSegmentSafe(s: Server)
    requires ServerInv(s) && s.state == SDownSegment
    ensures Handled(s.od, s.target, s.rx, Settle(DownSegment(s)))
  {
    hide WellFormed, Handled, CommitTarget, SubAt, WithSub, Refuse, Settle;
    RefuseHandled(s, AB_NO_RESOURCE);
    RefuseHandled(s, AB_TOGGLE_BIT);
    RefuseHandled(s, AB_GENERAL);
    if s.size <= s.offset + 7 {
      CommitHandled(s, s.rx[1..1 + (s.size - s.offset)], Put(s.tx, 0, [32 + ToggleBit(s.toggle)]));
    } else {
      ReceiveHandled(s, s.rx[1..8], Put(s.tx, 0, [32 + ToggleBit(s.toggle)]), !s.toggle);
    }
  }

  lemma UpInitSafe(s: Server)
    requires Engaged(s) && WellFormed(s.od) && s.state == SUpInit && Target(s).readable
    ensures Handled(s.od, s.target, s.rx, Settle(UpInit(s))) && NoDownload(s, Settle(UpInit(s)))
  {
    hide WellFormed, WritesOnly, SubAt;
  }

  lemma UpSegmentSafe(s: Server)
    requires ServerInv(s) && s.state == SUpSegment
    ensures Handled(s.od, s.target, s.rx, Settle(UpSegment(s))) && NoDownload(s, Settle(UpSegment(s)))
  {
    RefuseHandled(s, AB_NO_RESOURCE);
    RefuseHandled(s, AB_TOGGLE_BIT);
    if Command(s.rx) == 3 && ToggleOf(s.rx) == s.toggle {
      hide WellFormed, WritesOnly, SubAt, Refuse;
    } else {
      hide WellFormed, WritesOnly, SubAt, Handled;
    }
  }

  /** Every call of the process function, on any frame, keeps the server sound and its writes confined. */
  lemma ServerStepSafe(s: Server, elapsed: nat)
    requires ServerInv(s)
    ensures ServerInv(ServerProcess(s, elapsed).s)
    ensures Confined(s, ServerProcess(s, elapsed))
    ensures Follows(s, ServerProcess(s, elapsed).s)
  {
    hide WellFormed, SubAt, WritesOnly, DownInit, DownSegment, UpInit, UpSegment, Lookup;
    var s0 := if s.timer > 0 then s.(timer := Advance(s.timer, elapsed)) else s;
    if (s.timer > 0 && s0.timer > s0.allowed) || !s0.isNew || Command(s0.rx) == 4 {
      return;
    }
    var s1 := s0.(timer := 0);
    if s.state == SDownSegment {
      DownSegmentSafe(s1);
    } else if s.state == SUpSegment {
      UpSegmentSafe(s1);
    } else {
      var f := FirstFrame(s1);
      FirstFrameSafe(s1);
      if f.out.None? {
        if f.s.state == SDownInit {
          DownInitSafe(f.s);
        } else {
          UpInitSafe(f.s);
        }
      }
    }
  }

  lemma FirstFrameSafe(s: Server)
    requires WellFormed(s.od)
    ensures var f := FirstFrame(s);
      && f.s.rx == s.rx
      && (f.out.Some? ==> f.s.state == SIdle && !f.s.isNew)
      && (f.out.None? ==> Engaged(f.s))
      && (f.out.None? && f.s.state == SDownInit ==> Target(f.s).writable && Requests(s.od, s.rx, f.s.target.value))
      && (f.out.None? && f.s.state == SUpInit ==> Target(f.s).readable)
  {
    hide Lookup;
  }

  /* ---- runs of a server among arbitrary frames ---- */

  datatype Input = Frame(f: Sdo.Frame) | Tick(elapsed: nat)

  /** A frame that arrives replaces one that has not been processed yet. */
  ghost function ServerStepOn(s: Server, i: Input): ServerStep
    requires ServerInv(s)
  {
    match i
    case Frame(f) => ServerStep(s.(rx := f, isNew := true), None)
    case Tick(elapsed) => ServerProcess(s, elapsed)
  }

  ghost function ServerRun(s: Server, inputs: seq<Input>): Server
    requires ServerInv(s)
    decreases |inputs|
  {
    if inputs == [] then s
    else
      InputSafe(s, inputs[0]);
      ServerRun(ServerStepOn(s, inputs[0]).s, inputs[1..])
  }

  lemma InputSafe(s: Server, i: Input)
    requires ServerInv(s)
    ensures ServerInv(ServerStepOn(s, i).s) && Confined(s, ServerStepOn(s, i))
  {
    if i.Tick? {
      ServerStepSafe(s, i.elapsed);
    }
  }

  /** The place p may be written in a run: a download to it is under way at the start, or a frame
      asks for one, be it the frame that waits at the start or one that arrives. */
  ghost predicate Asked(s: Server, inputs: seq<Input>, p: Place) {
    || (s.state == SDownSegment && s.target == Some(p))
    || (s.isNew && Requests(s.od, s.rx, p))
    || exists k :: 0 <= k < |inputs| && inputs[k].Frame? && Requests(s.od, inputs[k].f, p)
  }

  lemma {:induction false} SameIndexes(a: seq<Object>, b: seq<Object>, index: nat)
    requires |a| == |b| && forall k :: 0 <= k < |a| ==> a[k].index == b[k].index
    ensures FirstWithIndex(a, index) == FirstWithIndex(b, index)
  {
    if a != [] && a[0].index != index {
      SameIndexes(a[1..], b[1..], index);
    }
  }

  /** Writing into sub-objects leaves the lookup as it is. */
  lemma RequestsSame(od: Dictionary, r: Dictionary, q: Place, f: Frame, p: Place)
    requires SameElsewhere(od, r, q)
    ensures Requests(r, f, p) == Requests(od, f, p)
  {
    SameIndexes(od.objects, r.objects, Word16(f));
  }

  /** What a run may write after a step, it may write before. */
  lemma AskedBefore(s: Server, inputs: seq<Input>, p: Place)
    requires ServerInv(s) && inputs != []
    requires Asked(ServerStepOn(s, inputs[0]).s, inputs[1..], p)
    ensures Asked(s, inputs, p)
  {
    hide ServerInv, ServerProcess, SameElsewhere, SameShape, Requests;
    var r := ServerStepOn(s, inputs[0]);
    InputSafe(s, inputs[0]);
    if inputs[0].Tick? {
      ServerStepSafe(s, inputs[0].elapsed);
    }
    forall f: Sdo.Frame
      ensures Requests(r.s.od, f, p) == Requests(s.od, f, p)
    {
      if r.s.od != s.od {
        RequestsSame(s.od, r.s.od, r.s.target.value, f, p);
      }
    }
    if k :| 0 <= k < |inputs[1..]| && inputs[1..][k].Frame? && Requests(r.s.od, inputs[1..][k].f, p) {
      assert inputs[k + 1] == inputs[1..][k];
    }
  }

  /** A run changes a sub-object only if it is writable and a download to it was under way at the
      start or asked for by a frame of the run; it never changes the shape of one. */
  lemma {:induction false} WritesAsked(s: Server, inputs: seq<Input>, p: Place)
    requires ServerInv(s) && At(s.od, p)
    ensures At(ServerRun(s, inputs).od, p) && SameShape(SubAt(s.od, p), SubAt(ServerRun(s, inputs).od, p))
    ensures SubAt(ServerRun(s, inputs).od, p) != SubAt(s.od, p) ==> SubAt(s.od, p).writable && Asked(s, inputs, p)
    decreases |inputs|
  {
    hide ServerInv, ServerStepOn, Asked;
    if inputs != [] {
      InputSafe(s, inputs[0]);
      var t := ServerStepOn(s, inputs[0]).s;
      if SubAt(t.od, p) != SubAt(s.od, p) {
        MayWriteAsked(s, inputs, p);
      }
      WritesAsked(t, inputs[1..], p);
      if Asked(t, inputs[1..], p) {
        AskedBefore(s, inputs, p);
      }
    }
  }

  lemma MayWriteAsked(s: Server, inputs: seq<Input>, p: Place)
    ensures MayWrite(s, p) ==> Asked(s, inputs, p)
  {}

  /** No sequence of frames changes a sub-object that is not writable, or the shape of any other. */
  lemma ReadOnlyUntouched(s: Server, inputs: seq<Input>, p: Place)
    requires ServerInv(s) && At(s.od, p)
    ensures At(ServerRun(s, inputs).od, p) && SameShape(SubAt(s.od, p), SubAt(ServerRun(s, inputs).od, p))
    ensures !SubAt(s.od, p).writable ==> SubAt(ServerRun(s, inputs).od, p) == SubAt(s.od, p)
  {
    WritesAsked(s, inputs, p);
  }
}
