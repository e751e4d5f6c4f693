/** The upload direction of the joined client and server. */
module SdoUpload {
  import opened Bytes
  import opened ObjectDictionary
  import opened Sdo
  import opened SdoSafety
  import opened SdoLink

  /** j.data are the bytes of the object, buffer is what the client provides for them. */
  ghost predicate ValidUpload(j: Job, buffer: seq<byte>) {
    && WellFormed(j.od) && j.index <= 65535 && j.sub <= 255
    && Lookup(j.od, j.index, j.sub) == Some(j.place)
    && At(j.od, j.place) && SoundSub(SubAt(j.od, j.place)) && SubAt(j.od, j.place).readable
    && j.data == SubAt(j.od, j.place).data
    && 1 <= |j.data| <= |buffer| <= 65535
  }

  predicate IsUpInit(f: Frame, j: Job) {
    Addressed(f, j) && Command(f) == 2
  }

  predicate IsUpReply(f: Frame, j: Job) {
    && Addressed(f, j) && Command(f) == 2
    && if |j.data| <= 4 then f[0] % 4 == 3 && ExpeditedSize(f) == |j.data| && f[4..4 + |j.data|] == j.data
       else f[0] % 4 == 1 && Word32(f) == |j.data|
  }

  predicate IsSegmentRequest(f: Frame, toggle: bool) {
    Command(f) == 3 && ToggleOf(f) == toggle
  }

  /** The server will send the segment at q next. */
  ghost predicate Sending(s: Server, j: Job, q: nat, toggle: bool) {
    && s.state == SUpSegment && s.target == Some(j.place)
    && s.offset == q && s.toggle == toggle && s.size == |j.data| && q < |j.data|
  }

  /** The client's buffer once k bytes have come in. */
  function Filled(j: Job, buffer: seq<byte>, k: nat): seq<byte>
    requires k <= |j.data| <= |buffer|
  {
    Splice(buffer, 0, j.data[..k])
  }

  /* ---- the server's half ---- */

  lemma UpInitSends(s: Server, j: Job, buffer: seq<byte>)
    requires Engaged(s) && ValidUpload(j, buffer) && s.state == SUpInit && s.target == Some(j.place) && s.od == j.od
    requires IsUpInit(s.rx, j)
    ensures var r := UpInit(s);
      && r.out.Some? && IsUpReply(r.out.value, j) && r.s.od == j.od && r.s.allowed == s.allowed
      && (if |j.data| <= 4 then r.s.state == SIdle else Sending(r.s, j, 0, false) && r.s.timer == 1)
  {
    hide WellFormed, Lookup, Word16;
    var t := StartTransfer(s);
    var n := |j.data|;
    var f := UpInit(s).out.value;
    if n <= 4 {
      var g := Put(t.tx, 0, [Expedited(2, n)]);
      assert f[1..4] == g[1..4] == t.tx[1..4] == s.rx[1..4];
      ExpeditedFields(2, n, f);
    } else {
      assert f[1..4] == t.tx[1..4] == s.rx[1..4];
      assert f[4..8] == Pack32(n);
      PackUnpack32(f, n);
    }
    StartAddressed(s, j, f);
  }

  lemma SegmentFrame(tx: Frame, d: seq<byte>, command: byte)
    requires |d| <= 7
    ensures var f := Put(Put(tx, 1, d), 0, [command]); f[0] == command && f[1..1 + |d|] == d
  {
    var g := Put(tx, 1, d);
    var f := Put(g, 0, [command]);
    assert f[1..1 + |d|] == g[1..1 + |d|];
  }

  lemma UpSegmentSends(s: Server, j: Job, buffer: seq<byte>, q: nat, toggle: bool)
    requires ServerInv(s) && ValidUpload(j, buffer) && Sending(s, j, q, toggle) && s.od == j.od
    requires IsSegmentRequest(s.rx, toggle)
    ensures var r := UpSegment(s);
      && r.out.Some? && IsSegment(r.out.value, j, q, toggle) && r.s.od == j.od && r.s.allowed == s.allowed
      && (if |j.data| <= q + 7 then r.s.state == SIdle else Sending(r.s, j, q + 7, !toggle) && r.s.timer == 1)
  {
    hide WellFormed, Lookup, Word16;
    var n := |j.data| - q;
    var f := UpSegment(s).out.value;
    assert Target(s).data == j.data;
    if n <= 7 {
      SegmentFrame(s.tx, j.data[q..|j.data|], LastSegment(toggle, n));
      assert j.data[q..|j.data|] == j.data[q..];
      LastSegmentFields(toggle, n, f);
    } else {
      SegmentFrame(s.tx, j.data[q..q + 7], ToggleBit(toggle));
      PlainFields(0, toggle, f);
    }
  }

  lemma FirstFrameFinds(s: Server, j: Job, buffer: seq<byte>)
    requires ValidUpload(j, buffer) && s.od == j.od && Addressed(s.rx, j) && Command(s.rx) == 2
    ensures FirstFrame(s) == ServerStep(s.(target := Some(j.place), state := SUpInit), None)
  {}

  lemma ServerAnswersInit(s: Server, j: Job, buffer: seq<byte>, elapsed: nat)
    requires ServerInv(s) && ValidUpload(j, buffer) && s.state == SIdle && s.od == j.od
    requires s.isNew && IsUpInit(s.rx, j) && Timely(s.timer, elapsed, s.allowed)
    ensures var r := ServerProcess(s, elapsed);
      && r.out.Some? && IsUpReply(r.out.value, j) && r.s.od == j.od && !r.s.isNew && r.s.allowed == s.allowed
      && (if |j.data| <= 4 then r.s.state == SIdle else Sending(r.s, j, 0, false) && r.s.timer == 1)
  {
    hide WellFormed, Lookup, UpInit, FirstFrame, Word16;
    var s1 := (if s.timer > 0 then s.(timer := Advance(s.timer, elapsed)) else s).(timer := 0);
    FirstFrameFinds(s1, j, buffer);
    UpInitSends(s1.(target := Some(j.place), state := SUpInit), j, buffer);
  }

  lemma ServerAnswersSegment(s: Server, j: Job, buffer: seq<byte>, q: nat, toggle: bool, elapsed: nat)
    requires ServerInv(s) && ValidUpload(j, buffer) && Sending(s, j, q, toggle) && s.od == j.od
    requires s.isNew && IsSegmentRequest(s.rx, toggle) && Timely(s.timer, elapsed, s.allowed)
    ensures var r := ServerProcess(s, elapsed);
      && r.out.Some? && IsSegment(r.out.value, j, q, toggle) && r.s.od == j.od && !r.s.isNew && r.s.allowed == s.allowed
      && (if |j.data| <= q + 7 then r.s.state == SIdle else Sending(r.s, j, q + 7, !toggle) && r.s.timer == 1)
  {
    hide WellFormed, Lookup, UpSegment, ValidUpload;
    var s1 := (if s.timer > 0 then s.(timer := Advance(s.timer, elapsed)) else s).(timer := 0);
    UpSegmentSends(s1, j, buffer, q, toggle);
  }

  /* ---- the client's half ---- */

  lemma ClientAsks(c: Client, j: Job)
    requires ClientInv(c) && c.index == j.index && c.sub == j.sub
    ensures var r := UpRequest(c);
      && r.out.Some? && IsUpInit(r.out.value, j)
      && r.c == c.(toggle := false, offset := 0, internal := false, tx := r.c.tx, timer := 1, state := CUpResponse,
          status := Busy)
  {
    var t := StartRequest(c);
    var f := UpRequest(c).out.value;
    assert f[1..4] == t.tx[1..4];
    RequestAddressed(c, j, f);
  }

  /** The client has the whole object. */
  ghost predicate Complete(r: ClientStep, c: Client, j: Job, buffer: seq<byte>)
    requires |j.data| <= |buffer|
  {
    && r.out == None && r.c.state == CIdle && r.c.status == Success && r.c.data == Filled(j, buffer, |j.data|)
    && r.c.index == c.index && r.c.sub == c.sub
  }

  lemma ClientTakesInit(c: Client, j: Job, buffer: seq<byte>)
    requires ClientInv(c) && ValidUpload(j, buffer) && c.index == j.index && c.sub == j.sub && c.data == buffer
    requires IsUpReply(c.rx, j)
    ensures var r := UpResponse(c);
      && (|j.data| <= 4 ==> Complete(r, c, j, buffer))
      && (|j.data| > 4 ==>
            && r.out.Some? && IsSegmentRequest(r.out.value, false)
            && r.c == c.(size := |j.data|, offset := 0, tx := r.c.tx, timer := 1, state := CUpSegment, status := Busy))
  {
    hide WellFormed, Lookup, Word16, Word32;
    assert j.data[..|j.data|] == j.data;
    if |j.data| > 4 {
      PlainFields(3, false, UpResponse(c).out.value);
    }
  }

  lemma ClientTakesLast(c: Client, j: Job, buffer: seq<byte>)
    requires ClientInv(c) && ValidUpload(j, buffer) && c.state == CUpSegment && c.size == |j.data|
    requires c.offset < |j.data| <= c.offset + 7
    requires c.data == Filled(j, buffer, c.offset) && IsSegment(c.rx, j, c.offset, c.toggle)
    ensures Complete(UpSegmentResponse(c), c, j, buffer)
  {
    var q := c.offset;
    SpliceNext(buffer, j.data, q, |j.data|);
    assert j.data[q..|j.data|] == j.data[q..];
    hide ValidUpload, Splice, Put, Reject;
  }

  lemma ClientTakesMiddle(c: Client, j: Job, buffer: seq<byte>)
    requires ClientInv(c) && ValidUpload(j, buffer) && c.state == CUpSegment && c.size == |j.data|
    requires c.offset + 7 < |j.data|
    requires c.data == Filled(j, buffer, c.offset) && IsSegment(c.rx, j, c.offset, c.toggle)
    ensures var r := UpSegmentResponse(c);
      && r.out.Some? && IsSegmentRequest(r.out.value, !c.toggle)
      && r.c == c.(toggle := !c.toggle, offset := c.offset + 7, data := Filled(j, buffer, c.offset + 7), tx := r.c.tx,
                   timer := 1, state := CUpSegment, status := Busy)
  {
    var q := c.offset;
    SpliceNext(buffer, j.data, q, q + 7);
    PlainFields(3, !c.toggle, Put(c.tx, 0, [96 + ToggleBit(!c.toggle)]));
    hide ValidUpload, Splice, Reject, Put;
  }

  lemma ClientTakesSegment(c: Client, j: Job, buffer: seq<byte>)
    requires ClientInv(c) && ValidUpload(j, buffer) && c.state == CUpSegment && c.size == |j.data|
    requires c.offset < |j.data|
    requires c.data == Filled(j, buffer, c.offset) && IsSegment(c.rx, j, c.offset, c.toggle)
    ensures var r := UpSegmentResponse(c);
      && (|j.data| <= c.offset + 7 ==> Complete(r, c, j, buffer))
      && (|j.data| > c.offset + 7 ==>
            && r.out.Some? && IsSegmentRequest(r.out.value, !c.toggle)
            && r.c == c.(toggle := !c.toggle, offset := c.offset + 7, data := Filled(j, buffer, c.offset + 7),
                tx := r.c.tx,
                         timer := 1, state := CUpSegment, status := Busy))
  {
    hide ValidUpload, Splice, UpSegmentResponse, IsSegment, Complete;
    if |j.data| <= c.offset + 7 {
      ClientTakesLast(c, j, buffer);
    } else {
      ClientTakesMiddle(c, j, buffer);
    }
  }

  /* ---- the invariant of an upload ---- */

  ghost predicate AwaitsReply(n: Net, j: Job) {
    || Hopeless(n)
    || (n.s.state == SIdle && exists f: Frame :: RequestAt(n, f) && IsUpInit(f, j))
    || ((n.s.state == SIdle || Sending(n.s, j, 0, false)) && exists f: Frame :: ResponseAt(n, f) && IsUpReply(f, j))
  }

  ghost predicate AwaitsSegment(n: Net, j: Job) {
    && n.c.offset < |j.data|
    && (|| Hopeless(n)
        || ((n.s.state == SIdle || Sending(n.s, j, n.c.offset, n.c.toggle))
            && exists f: Frame :: RequestAt(n, f) && IsSegmentRequest(f, n.c.toggle))
        || ((n.s.state == SIdle || Sending(n.s, j, n.c.offset + 7, !n.c.toggle))
            && exists f: Frame :: ResponseAt(n, f) && IsSegment(f, j, n.c.offset, n.c.toggle)))
  }

  ghost predicate Uploading(n: Net, j: Job, buffer: seq<byte>)
    requires ValidUpload(j, buffer)
  {
    && Sound(n) && n.c.index == j.index && n.c.sub == j.sub
    && (n.c.state != CIdle ==> n.s.od == j.od)
    && (match n.c.state
        case CUpRequest => n.c.internal && NoFrames(n) && n.s.state == SIdle && n.c.data == buffer
        case CUpResponse => !n.c.internal && !n.c.toggle && n.c.status == Busy && n.c.data == buffer
            && AwaitsReply(n, j)
        case CUpSegment => !n.c.internal && n.c.status == Busy && n.c.size == |j.data| && AwaitsSegment(n, j) &&
                           n.c.data == Filled(j, buffer, n.c.offset)
        case CIdle => n.c.status == Aborted ||
                      (n.c.status == Success && NoFrames(n) && n.c.data == Filled(j, buffer, |j.data|))
        case _ => false)
  }

  /* ---- every event keeps it ---- */

  /** Frames have moved or vanished, or nothing has happened to them. */
  lemma MovedKeeps(n: Net, m: Net, j: Job)
    requires Moved(n, m)
    ensures AwaitsReply(n, j) ==> AwaitsReply(m, j)
    ensures AwaitsSegment(n, j) ==> AwaitsSegment(m, j)
  {
    hide NoFrames, RequestAt, ResponseAt, IsUpInit, IsUpReply, IsAbort, IsSegment, IsSegmentRequest;
    if !NoFrames(m) {
      if f: Frame :| ResponseAt(n, f) && IsAbort(f) {
        assert ResponseAt(m, f);
      }
      if f: Frame :| RequestAt(n, f) && IsUpInit(f, j) {
        assert RequestAt(m, f);
      }
      if f: Frame :| ResponseAt(n, f) && IsUpReply(f, j) {
        assert ResponseAt(m, f);
      }
      if f: Frame :| RequestAt(n, f) && IsSegmentRequest(f, n.c.toggle) {
        assert RequestAt(m, f);
      }
      if n.c.offset < |j.data| {
        if f: Frame :| ResponseAt(n, f) && IsSegment(f, j, n.c.offset, n.c.toggle) {
          assert ResponseAt(m, f);
        }
      }
    }
  }

  lemma LineKeeps(n: Net, e: Event, j: Job, buffer: seq<byte>)
    requires ValidUpload(j, buffer) && Uploading(n, j, buffer) && !e.ClientTick? && !e.ServerTick?
    ensures Uploading(NetStep(n, e), j, buffer)
  {
    hide NetStep, Sound, ValidUpload, AwaitsReply, AwaitsSegment, Filled;
    LineMoves(n, e);
    assert Moved(n, NetStep(n, e));
    MovedKeeps(n, NetStep(n, e), j);
    assert |j.data| <= |buffer| by { UploadSizes(j, buffer); }
  }

  lemma UploadSizes(j: Job, buffer: seq<byte>)
    requires ValidUpload(j, buffer)
    ensures 1 <= |j.data| <= |buffer| <= 65535
  {}

  lemma ServerTickReply(n: Net, elapsed: nat, j: Job, buffer: seq<byte>)
    requires ValidUpload(j, buffer) && Sound(n) && n.s.od == j.od && AwaitsReply(n, j) && n.s.isNew
    ensures var m := NetStep(n, ServerTick(elapsed)); AwaitsReply(m, j) && m.s.od == j.od
  {
    hide ValidUpload, ServerProcess, ClientProcess, ServerInv, ClientInv, IsUpInit, IsUpReply, IsAbort;
    var m := NetStep(n, ServerTick(elapsed));
    var f: Frame :| RequestAt(n, f) && IsUpInit(f, j);
    if Timely(n.s.timer, elapsed, n.s.allowed) {
      ServerAnswersInit(n.s, j, buffer, elapsed);
      assert ResponseAt(m, ServerProcess(n.s, elapsed).out.value);
    } else {
      ServerLate(n.s, elapsed);
      assert NoFrames(m);
    }
  }

  lemma ServerTickSegment(n: Net, elapsed: nat, j: Job, buffer: seq<byte>)
    requires ValidUpload(j, buffer) && Sound(n) && n.s.od == j.od && AwaitsSegment(n, j) && n.s.isNew
    ensures var m := NetStep(n, ServerTick(elapsed)); AwaitsSegment(m, j) && m.s.od == j.od
  {
    hide ValidUpload, ServerProcess, ClientProcess, ServerInv, ClientInv, IsSegment, IsAbort;
    var m := NetStep(n, ServerTick(elapsed));
    var f: Frame :| RequestAt(n, f) && IsSegmentRequest(f, n.c.toggle);
    if !Timely(n.s.timer, elapsed, n.s.allowed) {
      ServerLate(n.s, elapsed);
      assert NoFrames(m);
    } else if n.s.state == SIdle {
      ServerRefusesSegment(n.s, elapsed);
      var r := ServerProcess(n.s, elapsed);
      if r.out.Some? {
        assert ResponseAt(m, r.out.value);
      }
    } else {
      ServerAnswersSegment(n.s, j, buffer, n.c.offset, n.c.toggle, elapsed);
      assert ResponseAt(m, ServerProcess(n.s, elapsed).out.value);
    }
  }

  /** A server without a new frame leaves the line alone. */
  lemma ServerQuiet(n: Net, elapsed: nat, j: Job)
    requires Sound(n) && !n.s.isNew
    ensures var m := NetStep(n, ServerTick(elapsed));
      && m.s.od == n.s.od
      && (AwaitsReply(n, j) ==> AwaitsReply(m, j))
      && (AwaitsSegment(n, j) ==> AwaitsSegment(m, j))
      && (NoFrames(n) ==> NoFrames(m))
      && (n.s.state == SIdle ==> m.s.state == SIdle)
  {
    hide ServerProcess, ServerInv, ClientInv, IsUpInit, IsUpReply, IsAbort, IsSegment, IsSegmentRequest, AwaitsReply,
         AwaitsSegment;
    var m := NetStep(n, ServerTick(elapsed));
    ServerWaits(n.s, elapsed);
    assert forall f: Frame :: RequestAt(n, f) ==> RequestAt(m, f);
    assert forall f: Frame :: ResponseAt(n, f) ==> ResponseAt(m, f);
    QuietKeeps(n, m, j);
  }

  lemma QuietKeeps(n: Net, m: Net, j: Job)
    requires m.c == n.c && (NoFrames(n) ==> NoFrames(m))
    requires forall f: Frame :: RequestAt(n, f) ==> RequestAt(m, f)
    requires forall f: Frame :: ResponseAt(n, f) ==> ResponseAt(m, f)
    requires m.s == n.s.(timer := m.s.timer, status := m.s.status) || m.s.state == SIdle
    ensures AwaitsReply(n, j) ==> AwaitsReply(m, j)
    ensures AwaitsSegment(n, j) ==> AwaitsSegment(m, j)
  {
    hide NoFrames, RequestAt, ResponseAt, IsUpInit, IsUpReply, IsAbort, IsSegment, IsSegmentRequest;
  }

  lemma ServerTickKeeps(n: Net, elapsed: nat, j: Job, buffer: seq<byte>)
    requires ValidUpload(j, buffer) && Uploading(n, j, buffer)
    ensures Uploading(NetStep(n, ServerTick(elapsed)), j, buffer)
  {
    hide Sound, ValidUpload, ServerProcess, ClientProcess, ServerInv, ClientInv, AwaitsReply, AwaitsSegment, Filled;
    StepSound(n, ServerTick(elapsed));
    UploadSizes(j, buffer);
    if !n.s.isNew {
      ServerQuiet(n, elapsed, j);
    } else if n.c.state == CUpResponse {
      ServerTickReply(n, elapsed, j, buffer);
    } else if n.c.state == CUpSegment {
      ServerTickSegment(n, elapsed, j, buffer);
    }
  }

  /* ---- a tick of the client ---- */

  lemma ClientHandles(c: Client, elapsed: nat)
    requires ClientInv(c) && c.isNew && !IsAbort(c.rx) && Timely(c.timer, elapsed, c.allowed)
    requires c.state == CUpResponse || c.state == CUpSegment
    ensures ClientInv(Woken(c, elapsed))
    ensures var r := if c.state == CUpResponse then UpResponse(Woken(c, elapsed))
        else UpSegmentResponse(Woken(c, elapsed));
      ClientProcess(c, elapsed) == r.(c := r.c.(isNew := false))
  {
    hide DownRequest, DownResponse, DownSegmentResponse, UpRequest, UpResponse, UpSegmentResponse;
  }

  lemma ClientTickStart(n: Net, elapsed: nat, j: Job, buffer: seq<byte>)
    requires ValidUpload(j, buffer) && Uploading(n, j, buffer) && n.c.state == CUpRequest
    ensures Uploading(NetStep(n, ClientTick(elapsed)), j, buffer)
  {
    hide Filled, ServerProcess, ServerInv, ValidUpload, IsUpInit;
    StepSound(n, ClientTick(elapsed));
    UploadSizes(j, buffer);
    var m := NetStep(n, ClientTick(elapsed));
    hide Sound;
    if Timely(n.c.timer, elapsed, n.c.allowed) {
      StartHandles(n.c, elapsed);
      var c1 := if n.c.timer > 0 then n.c.(timer := Advance(n.c.timer, elapsed)) else n.c;
      ClientAsks(c1, j);
      assert RequestAt(m, UpRequest(c1).out.value);
    } else {
      ClientLate(n.c, elapsed);
    }
  }

  lemma ClientTickReply(n: Net, elapsed: nat, j: Job, buffer: seq<byte>)
    requires ValidUpload(j, buffer) && Uploading(n, j, buffer) && n.c.state == CUpResponse
    ensures Uploading(NetStep(n, ClientTick(elapsed)), j, buffer)
  {
    hide Filled, ServerProcess, ClientProcess, ServerInv, ClientInv, ValidUpload, IsUpInit, Word16, Sound;
    StepSound(n, ClientTick(elapsed));
    SoundParts(n);
    UploadSizes(j, buffer);
    var m := NetStep(n, ClientTick(elapsed));
    if !n.c.isNew {
      ClientWaits(n.c, elapsed);
      if m.c.state != CIdle {
        assert Moved(n, m.(c := n.c));
        StillAwaits(n, m, j);
      }
    } else if !Timely(n.c.timer, elapsed, n.c.allowed) {
      ClientLate(n.c, elapsed);
    } else if IsAbort(n.c.rx) {
      ClientRefused(n.c, elapsed);
    } else {
      ClientHandles(n.c, elapsed);
      var c1 := Woken(n.c, elapsed);
      ClientTakesInit(c1, j, buffer);
      if |j.data| > 4 {
        FilledNothing(j, buffer);
        assert RequestAt(m, UpResponse(c1).out.value);
      }
    }
  }

  lemma FilledNothing(j: Job, buffer: seq<byte>)
    requires |j.data| <= |buffer|
    ensures Filled(j, buffer, 0) == buffer
  {}

  lemma StillAwaits(n: Net, m: Net, j: Job)
    requires m.s == n.s && m.toServer == n.toServer && m.toClient == n.toClient && !m.c.isNew && !n.c.isNew
    requires m.c.offset == n.c.offset && m.c.toggle == n.c.toggle
    ensures AwaitsReply(n, j) ==> AwaitsReply(m, j)
    ensures AwaitsSegment(n, j) ==> AwaitsSegment(m, j)
  {
    hide IsUpInit, IsUpReply, IsAbort, IsSegment, IsSegmentRequest;
    assert forall f: Frame :: RequestAt(n, f) ==> RequestAt(m, f);
    assert forall f: Frame :: ResponseAt(n, f) ==> ResponseAt(m, f);
  }

  lemma ClientTickSegment(n: Net, elapsed: nat, j: Job, buffer: seq<byte>)
    requires ValidUpload(j, buffer) && Uploading(n, j, buffer) && n.c.state == CUpSegment
    ensures Uploading(NetStep(n, ClientTick(elapsed)), j, buffer)
  {
    hide Filled, ServerProcess, ClientProcess, ServerInv, ClientInv, ValidUpload, Sound, IsSegment;
    StepSound(n, ClientTick(elapsed));
    SoundParts(n);
    UploadSizes(j, buffer);
    var m := NetStep(n, ClientTick(elapsed));
    if !n.c.isNew {
      ClientWaits(n.c, elapsed);
      if m.c.state != CIdle {
        StillAwaits(n, m, j);
      }
    } else if !Timely(n.c.timer, elapsed, n.c.allowed) {
      ClientLate(n.c, elapsed);
    } else if IsAbort(n.c.rx) {
      ClientRefused(n.c, elapsed);
    } else {
      ClientHandles(n.c, elapsed);
      var c1 := Woken(n.c, elapsed);
      ClientTakesSegment(c1, j, buffer);
      if |j.data| > n.c.offset + 7 {
        assert RequestAt(m, UpSegmentResponse(c1).out.value);
      }
    }
  }

  lemma UploadingStep(n: Net, e: Event, j: Job, buffer: seq<byte>)
    requires ValidUpload(j, buffer) && Uploading(n, j, buffer)
    ensures Uploading(NetStep(n, e), j, buffer)
  {
    hide ValidUpload;
    UploadSizes(j, buffer);
    match e
    case ClientTick(elapsed) =>
      match n.c.state {
        case CIdle =>
          StepSound(n, e);
          IdleStays(n.c, elapsed);
        case CUpRequest => ClientTickStart(n, elapsed, j, buffer);
        case CUpResponse => ClientTickReply(n, elapsed, j, buffer);
        case CUpSegment => ClientTickSegment(n, elapsed, j, buffer);
        case _ =>
      }
    case ServerTick(elapsed) => ServerTickKeeps(n, elapsed, j, buffer);
    case _ => LineKeeps(n, e, j, buffer);
  }

  ghost predicate UploadStart(n: Net, j: Job, buffer: seq<byte>) {
    && Sound(n) && NoFrames(n) && n.s.state == SIdle && n.s.od == j.od
    && n.c.state == CUpRequest && n.c.internal && n.c.data == buffer && n.c.index == j.index && n.c.sub == j.sub
  }

  /** However frames are lost and timers run: if the client reports success, its buffer begins
      with exactly the bytes of the object, and the rest of the buffer is as it was. */
  lemma {:induction false} UploadSound(n: Net, j: Job, buffer: seq<byte>, es: seq<Event>)
    requires ValidUpload(j, buffer) && (UploadStart(n, j, buffer) || Uploading(n, j, buffer))
    ensures Sound(n)
    ensures var m := NetRun(n, es);
      m.c.state == CIdle && m.c.status == Success ==> m.c.data == j.data + buffer[|j.data|..]
    decreases |es|
  {
    hide NetStep, ValidUpload, AwaitsReply, AwaitsSegment, Sound;
    UploadSizes(j, buffer);
    assert Uploading(n, j, buffer);
    if es == [] {
      assert j.data[..|j.data|] == j.data;
    } else {
      UploadingStep(n, es[0], j, buffer);
      UploadSound(NetStep(n, es[0]), j, buffer, es[1..]);
    }
  }
}
