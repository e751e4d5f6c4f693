/** An SDO client and an SDO server joined by a line that may lose frames. */
module SdoLink {
  import opened Bytes
  import opened ObjectDictionary
  import opened Sdo
  import opened SdoSafety

  datatype Net = Net(c: Client, s: Server, toServer: Option<Frame>, toClient: Option<Frame>)

  datatype Event =
    | ClientTick(elapsed: nat)
    | ServerTick(elapsed: nat)
    | ArriveAtServer
    | ArriveAtClient
    | LoseToServer
    | LoseToClient

  ghost predicate Sound(n: Net) {
    ClientInv(n.c) && ServerInv(n.s)
  }

  ghost function NetStep(n: Net, e: Event): Net
    requires Sound(n)
  {
    match e
    case ClientTick(elapsed) =>
      var r := ClientProcess(n.c, elapsed);
      n.(c := r.c, toServer := if r.out.Some? then r.out else n.toServer)
    case ServerTick(elapsed) =>
      var r := ServerProcess(n.s, elapsed);
      n.(s := r.s, toClient := if r.out.Some? then r.out else n.toClient)
    case ArriveAtServer =>
      if n.toServer.None? then n else n.(s := n.s.(rx := n.toServer.value, isNew := true), toServer := None)
    case ArriveAtClient =>
      if n.toClient.None? then n else n.(c := n.c.(rx := n.toClient.value, isNew := true), toClient := None)
    case LoseToServer => n.(toServer := None)
    case LoseToClient => n.(toClient := None)
  }

  lemma NextSegmentSafe(c: Client)
    requires ClientInv(c) && c.offset <= c.size == |c.data|
    ensures ClientInv(NextSegment(c).c)
  {}

  lemma RejectSafe(c: Client, code: nat)
    requires ClientInv(c) && code < 0x1_0000_0000
    ensures ClientInv(Reject(c, code).c)
  {}

  lemma DownRequestSafe(c: Client)
    requires ClientInv(c)
    ensures ClientInv(DownRequest(c).c)
  {
    hide Expedited, Put, Pack32;
  }

  lemma DownResponseSafe(c: Client)
    requires ClientInv(c)
    ensures c.state == CDownResponse ==> ClientInv(DownResponse(c).c)
    ensures c.state == CDownSegment ==> ClientInv(DownSegmentResponse(c).c)
  {
    hide NextSegment, Reject, Command, ToggleOf, Word16;
    RejectSafe(c, AB_NO_RESOURCE);
    RejectSafe(c, AB_PRAM_INCOMPAT);
    RejectSafe(c, AB_TOGGLE_BIT);
    if c.state == CDownResponse {
      NextSegmentSafe(c);
    } else if c.state == CDownSegment {
      NextSegmentSafe(c.(toggle := !c.toggle));
    }
  }

  lemma UpRequestSafe(c: Client)
    requires ClientInv(c)
    ensures ClientInv(UpRequest(c).c)
  {
    hide Put;
  }

  lemma UpSegmentSafe(c: Client)
    requires ClientInv(c) && c.state == CUpSegment
    ensures ClientInv(UpSegmentResponse(c).c)
  {
    hide Put, Reject, Command, ToggleOf;
    RejectSafe(c, AB_NO_RESOURCE);
    RejectSafe(c, AB_TOGGLE_BIT);
    RejectSafe(c.(toggle := !c.toggle), AB_GENERAL);
  }

  lemma UpResponseSafe(c: Client)
    requires ClientInv(c) && c.state == CUpResponse
    ensures ClientInv(UpResponse(c).c)
  {
    hide Put, Reject, Command, Word32, Word16, ExpeditedSize;
    RejectSafe(c, AB_NO_RESOURCE);
    RejectSafe(c, AB_PRAM_INCOMPAT);
    RejectSafe(c, AB_TYPE_MISMATCH);
    RejectSafe(c.(size := Word32(c.rx) % 0x1_0000), AB_OUT_OF_MEM);
  }

  /** Timers, the frame received and a change of state to idle play no part in the invariant. */
  lemma InvKept(c: Client, d: Client)
    requires ClientInv(c) && (d.state == c.state || d.state == CIdle)
    requires d.data == c.data && d.index == c.index && d.sub == c.sub && d.offset == c.offset && d.size == c.size
    ensures ClientInv(d)
  {}

  lemma HandlerSafe(c: Client)
    requires ClientInv(c)
    ensures c.state == CDownRequest ==> ClientInv(DownRequest(c).c)
    ensures c.state == CDownResponse ==> ClientInv(DownResponse(c).c)
    ensures c.state == CDownSegment ==> ClientInv(DownSegmentResponse(c).c)
    ensures c.state == CUpRequest ==> ClientInv(UpRequest(c).c)
    ensures c.state == CUpResponse ==> ClientInv(UpResponse(c).c)
    ensures c.state == CUpSegment ==> ClientInv(UpSegmentResponse(c).c)
  {
    hide DownRequest, DownResponse, DownSegmentResponse, UpRequest, UpResponse, UpSegmentResponse, ClientInv;
    match c.state
    case CDownRequest => DownRequestSafe(c);
    case CUpRequest => UpRequestSafe(c);
    case CUpResponse => UpResponseSafe(c);
    case CUpSegment => UpSegmentSafe(c);
    case CIdle =>
    case _ => DownResponseSafe(c);
  }

  lemma ClientStepSafe(c: Client, elapsed: nat)
    requires ClientInv(c)
    ensures ClientInv(ClientProcess(c, elapsed).c)
  {
    hide DownRequest, DownResponse, DownSegmentResponse, UpRequest, UpResponse, UpSegmentResponse, Word32, ClientInv,
         Command;
    var c1 := if c.timer > 0 then c.(timer := Advance(c.timer, elapsed)) else c;
    var c2 := if c1.isNew then c1.(timer := 0) else c1;
    InvKept(c, c2);
    HandlerSafe(c2);
    var r := ClientProcess(c, elapsed).c;
    var late := c.timer > 0 && c1.timer > c.allowed;
    if c.state == CIdle || late || (!c.isNew && !c.internal) || (c.isNew && Command(c.rx) == 4) {
      InvKept(c, r);
    } else {
      InvKept(Dispatch(c2).c, r);
    }
  }

  lemma StepSound(n: Net, e: Event)
    requires Sound(n)
    ensures Sound(NetStep(n, e))
  {
    hide ClientInv, ServerInv, ClientProcess, ServerProcess;
    match e
    case ClientTick(elapsed) => ClientStepSafe(n.c, elapsed);
    case ServerTick(elapsed) => ServerStepSafe(n.s, elapsed);
    case ArriveAtServer =>
      if n.toServer.Some? {
        InputSafe(n.s, Input.Frame(n.toServer.value));
      }
    case ArriveAtClient => ArriveSafe(n);
    case _ =>
  }

  lemma ArriveSafe(n: Net)
    requires Sound(n)
    ensures Sound(NetStep(n, ArriveAtClient))
  {}

  ghost function NetRun(n: Net, es: seq<Event>): Net
    requires Sound(n)
    decreases |es|
  {
    if es == [] then n
    else
      StepSound(n, es[0]);
      NetRun(NetStep(n, es[0]), es[1..])
  }

  /* ---- where the one frame in flight is ---- */

  predicate NoFrames(n: Net) {
    n.toServer == None && n.toClient == None && !n.s.isNew && !n.c.isNew
  }

  predicate RequestAt(n: Net, f: Frame) {
    && n.toClient == None && !n.c.isNew
    && if n.s.isNew then n.s.rx == f && n.toServer == None else n.toServer == Some(f)
  }

  predicate ResponseAt(n: Net, f: Frame) {
    && n.toServer == None && !n.s.isNew
    && if n.c.isNew then n.c.rx == f && n.toClient == None else n.toClient == Some(f)
  }

  predicate IsAbort(f: Frame) {
    Command(f) == 4
  }

  /* ---- a download ---- */

  /** The object addressed, the bytes to be written, and the dictionary before. */
  datatype Job = Job(index: nat, sub: nat, place: Place, data: seq<byte>, od: Dictionary)

  ghost predicate ValidDownload(j: Job) {
    && WellFormed(j.od) && j.index <= 65535 && j.sub <= 255
    && Lookup(j.od, j.index, j.sub) == Some(j.place)
    && At(j.od, j.place) && SoundSub(SubAt(j.od, j.place)) && SubAt(j.od, j.place).writable
    && 1 <= |j.data| <= |SubAt(j.od, j.place).data|
  }

  /** The dictionary once k bytes have been received. */
  function Held(j: Job, k: nat): Dictionary
    requires At(j.od, j.place) && SoundSub(SubAt(j.od, j.place)) && k <= |j.data| <= |SubAt(j.od, j.place).data|
  {
    var x := SubAt(j.od, j.place);
    WithSub(j.od, j.place, WithReceiver(x, Splice(Receiver(x), 0, j.data[..k])))
  }

  /** The dictionary after the download: all bytes received and, unless they wait for a reset, in effect. */
  function Downloaded(j: Job): Dictionary
    requires At(j.od, j.place) && SoundSub(SubAt(j.od, j.place)) && |j.data| <= |SubAt(j.od, j.place).data|
  {
    var x := SubAt(j.od, j.place);
    WithSub(j.od, j.place, Commit(WithReceiver(x, Splice(Receiver(x), 0, j.data))))
  }

  predicate Addressed(f: Frame, j: Job) {
    Word16(f) == j.index && f[3] == j.sub
  }

  predicate IsDownInit(f: Frame, j: Job) {
    && Addressed(f, j) && Command(f) == 1
    && if |j.data| <= 4 then f[0] % 4 == 3 && ExpeditedSize(f) == |j.data| && f[4..4 + |j.data|] == j.data
       else f[0] % 4 == 1 && Word32(f) == |j.data|
  }

  predicate IsSegment(f: Frame, j: Job, q: nat, toggle: bool)
    requires q < |j.data|
  {
    && Command(f) == 0 && ToggleOf(f) == toggle
    && if |j.data| <= q + 7 then IsLast(f) && f[1..1 + (|j.data| - q)] == j.data[q..]
       else !IsLast(f) && f[1..8] == j.data[q..q + 7]
  }

  predicate IsInitReply(f: Frame, j: Job) {
    Addressed(f, j) && Command(f) == 3
  }

  predicate IsSegmentReply(f: Frame, toggle: bool) {
    Command(f) == 1 && ToggleOf(f) == toggle
  }

  /** The server has received q bytes and waits for the segment that follows. */
  ghost predicate Receiving(s: Server, j: Job, q: nat, toggle: bool)
    requires ValidDownload(j)
  {
    && s.state == SDownSegment && s.target == Some(j.place)
    && s.offset == q && s.toggle == toggle && s.size == |j.data| && q < |j.data|
    && s.od == Held(j, q)
  }

  /* ---- frames and numbers ---- */

  lemma PackUnpack32(f: Frame, v: nat)
    requires v < 0x1_0000_0000 && f[4..8] == Pack32(v)
    ensures Word32(f) == v
  {
    assert forall i :: 0 <= i < 4 ==> f[4..8][i] == f[4 + i];
    Digits32(v);
  }

  lemma Digits32(v: nat)
    requires v < 0x1_0000_0000
    ensures v % 256 + (v / 0x100) % 256 * 0x100 + (v / 0x1_0000) % 256 * 0x1_0000 + v / 0x100_0000 * 0x100_0000 == v
  {
    var a: nat := v / 0x100;
    var b: nat := a / 0x100;
    DivideTwice(v, 0x100);
    DivideTwice(v, 0x1_0000);
    assert v == 0x100 * a + v % 0x100 && a == 0x100 * b + a % 0x100 && b == 0x100 * (b / 0x100) + b % 0x100;
  }

  lemma DivideTwice(v: nat, k: nat)
    requires k == 0x100 || k == 0x1_0000
    ensures v / (k * 0x100) == v / k / 0x100
  {}

  lemma SpliceNext(b: seq<byte>, d: seq<byte>, q: nat, k: nat)
    requires q <= k <= |d| <= |b|
    ensures Splice(Splice(b, 0, d[..q]), q, d[q..k]) == Splice(b, 0, d[..k])
  {
    assert d[..k] == d[..q] + d[q..k];
  }

  lemma ExpeditedFields(cs: byte, n: nat, f: Frame)
    requires cs < 8 && 1 <= n <= 4 && f[0] == Expedited(cs, n)
    ensures Command(f) == cs && f[0] % 4 == 3 && ExpeditedSize(f) == n
  {}

  lemma LastSegmentFields(t: bool, n: nat, f: Frame)
    requires n <= 7 && f[0] == LastSegment(t, n)
    ensures Command(f) == 0 && ToggleOf(f) == t && IsLast(f)
  {}

  lemma PlainFields(cs: byte, t: bool, f: Frame)
    requires cs < 8 && f[0] == cs * 32 + ToggleBit(t)
    ensures Command(f) == cs && ToggleOf(f) == t && !IsLast(f)
  {}

  /* ---- the server's half ---- */

  lemma HeldNothing(j: Job)
    requires ValidDownload(j)
    ensures Held(j, 0) == j.od
  {
    var x := SubAt(j.od, j.place);
    assert Splice(Receiver(x), 0, j.data[..0]) == Receiver(x);
    assert WithReceiver(x, Receiver(x)) == x;
    assert j.od.objects[j.place.no].subs[j.place.sub := x] == j.od.objects[j.place.no].subs;
    assert j.od.objects[j.place.no := j.od.objects[j.place.no]] == j.od.objects;
  }

  /** Receiving the next bytes moves the held prefix on. */
  lemma HeldNext(s: Server, j: Job, q: nat, k: nat)
    requires ValidDownload(j) && s.offset == q <= k <= |j.data|
    requires Engaged(s) && s.target == Some(j.place) && s.od == Held(j, q)
    requires q + |j.data[q..k]| <= |Target(s).data|
    ensures Receive(s, j.data[q..k]).od == Held(j, k)
    ensures k == |j.data| ==> CommitTarget(Receive(s, j.data[q..k])).od == Downloaded(j)
  {
    var x := SubAt(j.od, j.place);
    var b := Splice(Receiver(x), 0, j.data[..q]);
    SpliceNext(Receiver(x), j.data, q, k);
    var y, z := WithReceiver(x, b), WithReceiver(x, Splice(Receiver(x), 0, j.data[..k]));
    assert SubAt(s.od, j.place) == y && Receiver(y) == b;
    assert WithReceiver(y, Splice(b, q, j.data[q..k])) == z;
    SubAgain(j.od, j.place, y, z);
    if k == |j.data| {
      assert j.data[..k] == j.data;
      SubAgain(j.od, j.place, z, Commit(z));
    }
  }

  ghost predicate Timely(timer: nat, elapsed: nat, allowed: nat) {
    timer > 0 ==> Advance(timer, elapsed) <= allowed
  }

  lemma StartAddressed(s: Server, j: Job, f: Frame)
    requires f[1..4] == s.rx[1..4] && Addressed(s.rx, j)
    ensures Addressed(f, j)
  {
    assert forall i :: 0 <= i < 3 ==> f[1..4][i] == f[1 + i] && s.rx[1..4][i] == s.rx[1 + i];
  }

  /** What a server does to a frame that it accepts: reply, and either go on or be done. */
  ghost predicate Accepted(r: ServerStep, j: Job, k: nat, toggle: bool)
    requires ValidDownload(j)
  {
    && r.out.Some?
    && (if k == |j.data| then r.s.state == SIdle && r.s.od == Downloaded(j)
        else Receiving(r.s, j, k, toggle) && r.s.timer == 1)
  }

  lemma DownInitTakes(s: Server, j: Job)
    requires Engaged(s) && ValidDownload(j) && s.state == SDownInit && s.target == Some(j.place) && s.od == j.od
    requires IsDownInit(s.rx, j)
    ensures Accepted(DownInit(s), j, if |j.data| <= 4 then |j.data| else 0, false)
    ensures IsInitReply(DownInit(s).out.value, j) && DownInit(s).s.allowed == s.allowed
  {
    hide WellFormed, Lookup, Downloaded, Held, CommitTarget, Receive, Word16;
    var t := StartTransfer(s);
    var tx := Put(t.tx, 0, [96]);
    assert tx[1..4] == t.tx[1..4] == s.rx[1..4];
    StartAddressed(s, j, tx);
    HeldNothing(j);
    if |j.data| <= 4 {
      assert j.data[0..|j.data|] == j.data;
      HeldNext(t.(size := |j.data|), j, 0, |j.data|);
      CommitTx(t.(size := |j.data|), j.data, tx);
    }
  }

  lemma DownSegmentTakes(s: Server, j: Job, q: nat, toggle: bool)
    requires ServerInv(s) && ValidDownload(j) && Receiving(s, j, q, toggle)
    requires IsSegment(s.rx, j, q, toggle)
    ensures Accepted(DownSegment(s), j, if |j.data| <= q + 7 then |j.data| else q + 7, !toggle)
    ensures IsSegmentReply(DownSegment(s).out.value, toggle) && DownSegment(s).s.allowed == s.allowed
  {
    hide WellFormed, Lookup, Downloaded, Held, CommitTarget, Receive, Word16;
    var tx := Put(s.tx, 0, [32 + ToggleBit(toggle)]);
    PlainFields(1, toggle, tx);
    if |j.data| <= q + 7 {
      HeldNext(s, j, q, |j.data|);
      assert j.data[q..|j.data|] == j.data[q..];
      CommitTx(s, j.data[q..], tx);
    } else {
      HeldNext(s, j, q, q + 7);
      CommitTx(s, j.data[q..q + 7], tx);
    }
  }

  lemma FirstFrameFinds(s: Server, j: Job)
    requires ValidDownload(j) && s.od == j.od && Addressed(s.rx, j) && Command(s.rx) == 1
    ensures FirstFrame(s) == ServerStep(s.(target := Some(j.place), state := SDownInit), None)
  {}

  /** The server answers the first frame, having taken all bytes or none. */
  lemma ServerTakesInit(s: Server, j: Job, elapsed: nat)
    requires ServerInv(s) && ValidDownload(j) && s.state == SIdle && s.od == j.od
    requires s.isNew && IsDownInit(s.rx, j) && Timely(s.timer, elapsed, s.allowed)
    ensures var r := ServerProcess(s, elapsed);
      && Accepted(r, j, if |j.data| <= 4 then |j.data| else 0, false)
      && IsInitReply(r.out.value, j) && !r.s.isNew && r.s.allowed == s.allowed
  {
    hide WellFormed, Lookup, Downloaded, Held, DownInit, FirstFrame, Word16;
    var s1 := (if s.timer > 0 then s.(timer := Advance(s.timer, elapsed)) else s).(timer := 0);
    FirstFrameFinds(s1, j);
    DownInitTakes(s1.(target := Some(j.place), state := SDownInit), j);
  }

  /** The server takes the segment it waits for and acknowledges it. */
  lemma ServerTakesSegment(s: Server, j: Job, q: nat, toggle: bool, elapsed: nat)
    requires ServerInv(s) && ValidDownload(j) && Receiving(s, j, q, toggle)
    requires s.isNew && IsSegment(s.rx, j, q, toggle) && Timely(s.timer, elapsed, s.allowed)
    ensures var r := ServerProcess(s, elapsed);
      && Accepted(r, j, if |j.data| <= q + 7 then |j.data| else q + 7, !toggle)
      && IsSegmentReply(r.out.value, toggle) && !r.s.isNew && r.s.allowed == s.allowed
  {
    hide WellFormed, Lookup, Downloaded, Held, DownSegment, ValidDownload;
    var s1 := (if s.timer > 0 then s.(timer := Advance(s.timer, elapsed)) else s).(timer := 0);
    DownSegmentTakes(s1, j, q, toggle);
  }

  /** A server that has given up refuses a segment. */
  lemma ServerRefusesSegment(s: Server, elapsed: nat)
    requires ServerInv(s) && s.state == SIdle && s.isNew && (Command(s.rx) == 0 || Command(s.rx) == 3)
    ensures var r := ServerProcess(s, elapsed);
      && !r.s.isNew && r.s.state == SIdle && r.s.od == s.od
      && (r.out.Some? ==> IsAbort(r.out.value))
  {}

  /** A server without a new frame sends nothing; it may give up. */
  lemma ServerWaits(s: Server, elapsed: nat)
    requires ServerInv(s) && !s.isNew
    ensures var r := ServerProcess(s, elapsed);
      && r.out == None && !r.s.isNew && r.s.od == s.od
      && (r.s == s.(timer := r.s.timer, status := r.s.status) || r.s.state == SIdle)
  {}

  /* ---- the client's half ---- */

  lemma RequestAddressed(c: Client, j: Job, f: Frame)
    requires c.index == j.index <= 65535 && c.sub == j.sub <= 255 && f[1..4] == [c.index % 256, c.index / 256, c.sub]
    ensures Addressed(f, j)
  {
    assert forall i :: 0 <= i < 3 ==> f[1..4][i] == f[1 + i];
  }

  /** The first request carries the address, the size and, if they fit, the bytes. */
  lemma ClientAsks(c: Client, j: Job)
    requires ClientInv(c) && ValidDownload(j) && c.data == j.data && c.index == j.index && c.sub == j.sub
    ensures var r := DownRequest(c);
      && r.out.Some? && IsDownInit(r.out.value, j)
      && r.c == c.(toggle := false, offset := 0, internal := false, size := |j.data|, tx := r.c.tx,
                   timer := 1, state := CDownResponse, status := Busy)
  {
    assert 1 <= |j.data| <= 65535;
    hide ValidDownload;
    var t := StartRequest(c);
    var n := |j.data|;
    var f := DownRequest(c).out.value;
    if n <= 4 {
      var g := Put(t.tx, 0, [Expedited(1, n)]);
      assert f[1..4] == g[1..4] == t.tx[1..4];
      ExpeditedFields(1, n, f);
    } else {
      assert f[1..4] == t.tx[1..4];
      assert f[4..8] == Pack32(n);
      PackUnpack32(f, n);
    }
    RequestAddressed(c, j, f);
  }

  /** The segment at the current offset. */
  lemma ClientSegment(c: Client, j: Job)
    requires c.data == j.data && c.offset < c.size == |j.data| <= 65535
    ensures var r := NextSegment(c);
      && r.out.Some? && IsSegment(r.out.value, j, c.offset, c.toggle)
      && r.c == c.(offset := if |j.data| <= c.offset + 7 then |j.data| else c.offset + 7, tx := r.c.tx,
                   timer := 1, state := CDownSegment, status := Busy)
  {
    var f := NextSegment(c).out.value;
    var n := |j.data| - c.offset;
    if n <= 7 {
      var g := Put(c.tx, 1, c.data[c.offset..]);
      assert f[1..1 + n] == g[1..1 + n];
      LastSegmentFields(c.toggle, n, f);
    } else {
      var g := Put(c.tx, 1, c.data[c.offset..c.offset + 7]);
      assert f[1..8] == g[1..8];
      PlainFields(0, c.toggle, f);
    }
  }

  /* ---- the invariant of a download ---- */

  /** Nothing, or a refusal by the server, is on its way. */
  ghost predicate Hopeless(n: Net) {
    NoFrames(n) || exists f: Frame :: ResponseAt(n, f) && IsAbort(f)
  }

  ghost predicate AwaitsInit(n: Net, j: Job)
    requires ValidDownload(j)
  {
    || Hopeless(n)
    || (n.s.state == SIdle && n.s.od == j.od && exists f: Frame :: RequestAt(n, f) && IsDownInit(f, j))
    || ((if |j.data| <= 4 then n.s.od == Downloaded(j) else n.s.state == SIdle || Receiving(n.s, j, 0, false))
        && exists f: Frame :: ResponseAt(n, f) && IsInitReply(f, j))
  }

  /** The client has sent the segment at q, which ends at its offset. */
  ghost predicate SegmentSent(n: Net, j: Job, q: nat)
    requires ValidDownload(j)
  {
    && q < |j.data| && n.c.offset == (if |j.data| <= q + 7 then |j.data| else q + 7)
    && (n.s.state == SIdle || Receiving(n.s, j, q, n.c.toggle))
    && exists f: Frame :: RequestAt(n, f) && IsSegment(f, j, q, n.c.toggle)
  }

  ghost predicate SegmentTaken(n: Net, j: Job)
    requires ValidDownload(j)
  {
    && (if n.c.offset == |j.data| then n.s.od == Downloaded(j)
        else n.s.state == SIdle || Receiving(n.s, j, n.c.offset, !n.c.toggle))
    && exists f: Frame :: ResponseAt(n, f) && IsSegmentReply(f, n.c.toggle)
  }

  ghost predicate Downloading(n: Net, j: Job)
    requires ValidDownload(j)
  {
    && Sound(n) && n.c.data == j.data && n.c.index == j.index && n.c.sub == j.sub
    && (match n.c.state
        case CDownRequest => n.c.internal && NoFrames(n) && n.s.state == SIdle && n.s.od == j.od
        case CDownResponse => !n.c.internal && !n.c.toggle && n.c.status == Busy && AwaitsInit(n, j)
        case CDownSegment => !n.c.internal && n.c.status == Busy && |j.data| > 4 &&
                             (Hopeless(n) || SegmentTaken(n, j) || exists q :: SegmentSent(n, j, q))
        case CIdle => n.c.status == Aborted ||
                      (n.c.status == Success && NoFrames(n) && n.s.od == Downloaded(j))
        case _ => false)
  }

  /* ---- every event keeps it ---- */

  /** A line event moves or loses the frame in flight. */
  lemma LineMoves(n: Net, e: Event)
    requires Sound(n) && !e.ClientTick? && !e.ServerTick?
    ensures var m := NetStep(n, e);
      && Sound(m)
      && m.c == n.c.(rx := m.c.rx, isNew := m.c.isNew) && m.s == n.s.(rx := m.s.rx, isNew := m.s.isNew)
      && (NoFrames(n) ==> NoFrames(m))
      && (forall f: Frame :: RequestAt(n, f) ==> RequestAt(m, f) || NoFrames(m))
      && (forall f: Frame :: ResponseAt(n, f) ==> ResponseAt(m, f) || NoFrames(m))
  {
    hide Sound;
    StepSound(n, e);
  }

  lemma LineKeeps(n: Net, e: Event, j: Job)
    requires ValidDownload(j) && Downloading(n, j) && !e.ClientTick? && !e.ServerTick?
    ensures Downloading(NetStep(n, e), j)
  {
    hide NetStep, Sound, ValidDownload, Downloaded, Held;
    LineMoves(n, e);
    var m := NetStep(n, e);
    if n.c.state == CDownResponse {
      LineKeepsInit(n, m, j);
    } else if n.c.state == CDownSegment {
      LineKeepsSegment(n, m, j);
    }
  }

  ghost predicate Moved(n: Net, m: Net) {
    && m.c == n.c.(rx := m.c.rx, isNew := m.c.isNew) && m.s == n.s.(rx := m.s.rx, isNew := m.s.isNew)
    && (NoFrames(n) ==> NoFrames(m))
    && (forall f: Frame :: RequestAt(n, f) ==> RequestAt(m, f) || NoFrames(m))
    && (forall f: Frame :: ResponseAt(n, f) ==> ResponseAt(m, f) || NoFrames(m))
  }

  lemma LineKeepsInit(n: Net, m: Net, j: Job)
    requires ValidDownload(j) && Moved(n, m) && AwaitsInit(n, j)
    ensures AwaitsInit(m, j)
  {
    hide ValidDownload, NoFrames, RequestAt, ResponseAt, IsDownInit, IsInitReply, IsAbort, Downloaded, Held;
    if !NoFrames(m) {
      if Hopeless(n) {
        var f: Frame :| ResponseAt(n, f) && IsAbort(f);
        assert ResponseAt(m, f);
      } else if exists f: Frame :: ResponseAt(n, f) && IsInitReply(f, j) {
        var f: Frame :| ResponseAt(n, f) && IsInitReply(f, j);
        if f0: Frame :| RequestAt(n, f0) && IsDownInit(f0, j) {
          assert RequestAt(m, f0);
        }
        assert ResponseAt(m, f);
      } else {
        var f: Frame :| RequestAt(n, f) && IsDownInit(f, j);
        assert RequestAt(m, f);
      }
    }
  }

  lemma LineKeepsSegment(n: Net, m: Net, j: Job)
    requires ValidDownload(j) && Moved(n, m)
    requires Hopeless(n) || SegmentTaken(n, j) || exists q :: SegmentSent(n, j, q)
    ensures Hopeless(m) || SegmentTaken(m, j) || exists q :: SegmentSent(m, j, q)
  {
    hide ValidDownload, NoFrames, RequestAt, ResponseAt, IsSegment, IsSegmentReply, IsAbort, Downloaded, Held;
    if !NoFrames(m) {
      if Hopeless(n) {
        var f: Frame :| ResponseAt(n, f) && IsAbort(f);
        assert ResponseAt(m, f);
      } else if SegmentTaken(n, j) {
        var f: Frame :| ResponseAt(n, f) && IsSegmentReply(f, n.c.toggle);
        assert ResponseAt(m, f);
      } else {
        var q :| SegmentSent(n, j, q);
        var f: Frame :| RequestAt(n, f) && IsSegment(f, j, q, n.c.toggle);
        assert RequestAt(m, f);
        assert SegmentSent(m, j, q);
      }
    }
  }

  /** A tick of the server. */
  lemma ServerTickKeeps(n: Net, elapsed: nat, j: Job)
    requires ValidDownload(j) && Downloading(n, j)
    ensures Downloading(NetStep(n, ServerTick(elapsed)), j)
  {
    hide Sound, ValidDownload, Downloaded, Held, ServerProcess, ClientProcess, ServerInv, ClientInv, AwaitsInit,
         SegmentTaken, SegmentSent;
    var m := NetStep(n, ServerTick(elapsed));
    StepSound(n, ServerTick(elapsed));
    SoundParts(n);
    if !n.s.isNew {
      ServerWaits(n.s, elapsed);
    }
    if n.c.state == CDownResponse {
      ServerTickInit(n, elapsed, j);
    } else if n.c.state == CDownSegment {
      ServerTickSegment(n, elapsed, j);
    }
  }

  lemma SoundParts(n: Net)
    requires Sound(n)
    ensures ClientInv(n.c) && ServerInv(n.s)
  {}

  /** A late server drops the frame and gives up. */
  lemma ServerLate(s: Server, elapsed: nat)
    requires ServerInv(s) && !Timely(s.timer, elapsed, s.allowed)
    ensures var r := ServerProcess(s, elapsed); r.out == None && !r.s.isNew && r.s.state == SIdle && r.s.od == s.od
  {}

  lemma ServerTickInit(n: Net, elapsed: nat, j: Job)
    requires ValidDownload(j) && Sound(n) && n.c.state == CDownResponse && AwaitsInit(n, j)
    ensures AwaitsInit(NetStep(n, ServerTick(elapsed)), j)
  {
    hide ValidDownload, Downloaded, Held, ServerProcess, ClientProcess, ServerInv, ClientInv, IsDownInit,
         IsInitReply, IsAbort;
    var m := NetStep(n, ServerTick(elapsed));
    if !n.s.isNew {
      ServerWaits(n.s, elapsed);
      if Hopeless(n) {
        if f: Frame :| ResponseAt(n, f) && IsAbort(f) {
          assert ResponseAt(m, f);
        }
      } else if f: Frame :| RequestAt(n, f) && IsDownInit(f, j) && n.s.state == SIdle && n.s.od == j.od {
        assert RequestAt(m, f);
      } else {
        var f: Frame :| ResponseAt(n, f) && IsInitReply(f, j);
        assert ResponseAt(m, f);
      }
    } else {
      var f: Frame :| RequestAt(n, f) && IsDownInit(f, j);
      if Timely(n.s.timer, elapsed, n.s.allowed) {
        ServerTakesInit(n.s, j, elapsed);
        var g := ServerProcess(n.s, elapsed).out.value;
        assert ResponseAt(m, g);
      } else {
        ServerLate(n.s, elapsed);
        assert NoFrames(m);
      }
    }
  }

  lemma ServerTickSegment(n: Net, elapsed: nat, j: Job)
    requires ValidDownload(j) && Sound(n) && n.c.state == CDownSegment
    requires Hopeless(n) || SegmentTaken(n, j) || exists q :: SegmentSent(n, j, q)
    ensures var m := NetStep(n, ServerTick(elapsed));
      Hopeless(m) || SegmentTaken(m, j) || exists q :: SegmentSent(m, j, q)
  {
    hide ValidDownload, Downloaded, Held, ServerProcess, ClientProcess, ServerInv, ClientInv, IsSegment,
         IsSegmentReply, IsAbort;
    var m := NetStep(n, ServerTick(elapsed));
    if !n.s.isNew {
      ServerWaits(n.s, elapsed);
      if Hopeless(n) {
        if f: Frame :| ResponseAt(n, f) && IsAbort(f) {
          assert ResponseAt(m, f);
        }
      } else if SegmentTaken(n, j) {
        var f: Frame :| ResponseAt(n, f) && IsSegmentReply(f, n.c.toggle);
        assert ResponseAt(m, f);
      } else {
        var q :| SegmentSent(n, j, q);
        var f: Frame :| RequestAt(n, f) && IsSegment(f, j, q, n.c.toggle);
        assert RequestAt(m, f);
        assert SegmentSent(m, j, q);
      }
    } else {
      var q :| SegmentSent(n, j, q);
      var f: Frame :| RequestAt(n, f) && IsSegment(f, j, q, n.c.toggle);
      ServerTickTakes(n, elapsed, j, q);
    }
  }

  lemma ServerTickTakes(n: Net, elapsed: nat, j: Job, q: nat)
    requires ValidDownload(j) && Sound(n) && n.s.isNew && SegmentSent(n, j, q)
    ensures var m := NetStep(n, ServerTick(elapsed)); Hopeless(m) || SegmentTaken(m, j)
  {
    hide ValidDownload, Downloaded, Held, ServerProcess, ClientProcess, ServerInv, ClientInv, IsSegmentReply, IsAbort;
    var m := NetStep(n, ServerTick(elapsed));
    if !Timely(n.s.timer, elapsed, n.s.allowed) {
      ServerLate(n.s, elapsed);
      assert NoFrames(m);
    } else if n.s.state == SIdle {
      ServerRefusesSegment(n.s, elapsed);
      var r := ServerProcess(n.s, elapsed);
      if r.out.Some? {
        assert ResponseAt(m, r.out.value);
      }
    } else {
      ServerTakesSegment(n.s, j, q, n.c.toggle, elapsed);
      var g := ServerProcess(n.s, elapsed).out.value;
      assert ResponseAt(m, g);
    }
  }

  /* ---- a tick of the client ---- */

  /** The client after its timer has advanced and the new frame has stopped it. */
  function Woken(c: Client, elapsed: nat): Client {
    (if c.timer > 0 then c.(timer := Advance(c.timer, elapsed)) else c).(timer := 0)
  }

  /** Without a new frame a waiting client sends nothing; it may give up. */
  lemma ClientWaits(c: Client, elapsed: nat)
    requires ClientInv(c) && !c.isNew && !c.internal && c.state != CIdle
    ensures var r := ClientProcess(c, elapsed);
      && r.out == None && !r.c.isNew
      && (r.c == c.(timer := r.c.timer, status := Busy) || (r.c.state == CIdle && r.c.status == Aborted))
      && r.c.data == c.data && r.c.index == c.index && r.c.sub == c.sub
      && (Timely(c.timer, elapsed, c.allowed) ==> r.c.state == c.state)
  {
    hide DownRequest, DownResponse, DownSegmentResponse, UpRequest, UpResponse, UpSegmentResponse;
  }

  lemma ClientLate(c: Client, elapsed: nat)
    requires ClientInv(c) && c.state != CIdle && !Timely(c.timer, elapsed, c.allowed)
    ensures var r := ClientProcess(c, elapsed);
      && r.c.state == CIdle && r.c.status == Aborted && r.c.data == c.data && r.c.index == c.index && r.c.sub == c.sub
  {
    hide DownRequest, DownResponse, DownSegmentResponse, UpRequest, UpResponse, UpSegmentResponse;
  }

  lemma ClientRefused(c: Client, elapsed: nat)
    requires ClientInv(c) && c.state != CIdle && c.isNew && IsAbort(c.rx)
    ensures var r := ClientProcess(c, elapsed);
      && r.c.state == CIdle && r.c.status == Aborted && r.c.data == c.data && r.c.index == c.index && r.c.sub == c.sub
  {
    hide DownRequest, DownResponse, DownSegmentResponse, UpRequest, UpResponse, UpSegmentResponse;
  }

  lemma ClientHandles(c: Client, elapsed: nat)
    requires ClientInv(c) && c.isNew && !IsAbort(c.rx) && Timely(c.timer, elapsed, c.allowed)
    requires c.state == CDownResponse || c.state == CDownSegment
    ensures ClientInv(Woken(c, elapsed))
    ensures var r := if c.state == CDownResponse then DownResponse(Woken(c, elapsed))
        else DownSegmentResponse(Woken(c, elapsed));
      ClientProcess(c, elapsed) == r.(c := r.c.(isNew := false))
  {
    hide DownRequest, DownResponse, DownSegmentResponse, UpRequest, UpResponse, UpSegmentResponse;
  }

  lemma ClientTickKeeps(n: Net, elapsed: nat, j: Job)
    requires ValidDownload(j) && Downloading(n, j)
    ensures Downloading(NetStep(n, ClientTick(elapsed)), j)
  {
    hide Sound, ValidDownload, Downloaded, Held, ServerProcess, ClientProcess, ServerInv, ClientInv, AwaitsInit,
         SegmentTaken, SegmentSent;
    StepSound(n, ClientTick(elapsed));
    SoundParts(n);
    match n.c.state
    case CIdle => IdleStays(n.c, elapsed);
    case CDownRequest => ClientTickStart(n, elapsed, j);
    case CDownResponse => ClientTickInit(n, elapsed, j);
    case CDownSegment => ClientTickSegment(n, elapsed, j);
    case _ =>
  }

  lemma IdleStays(c: Client, elapsed: nat)
    requires ClientInv(c) && c.state == CIdle
    ensures ClientProcess(c, elapsed) == ClientStep(c, None)
  {}

  lemma ClientTickStart(n: Net, elapsed: nat, j: Job)
    requires ValidDownload(j) && Downloading(n, j) && n.c.state == CDownRequest
    ensures Downloading(NetStep(n, ClientTick(elapsed)), j)
  {
    hide Downloaded, Held, ServerProcess, ServerInv, ValidDownload, IsDownInit;
    StepSound(n, ClientTick(elapsed));
    var m := NetStep(n, ClientTick(elapsed));
    hide Sound;
    if Timely(n.c.timer, elapsed, n.c.allowed) {
      StartHandles(n.c, elapsed);
      var c1 := if n.c.timer > 0 then n.c.(timer := Advance(n.c.timer, elapsed)) else n.c;
      ClientAsks(c1, j);
      assert RequestAt(m, DownRequest(c1).out.value);
    } else {
      ClientLate(n.c, elapsed);
    }
  }

  lemma StartHandles(c: Client, elapsed: nat)
    requires ClientInv(c) && !c.isNew && c.internal && Timely(c.timer, elapsed, c.allowed)
    requires c.state == CDownRequest || c.state == CUpRequest
    ensures var c1 := if c.timer > 0 then c.(timer := Advance(c.timer, elapsed)) else c;
      && ClientInv(c1)
      && var r := if c.state == CDownRequest then DownRequest(c1) else UpRequest(c1);
         ClientProcess(c, elapsed) == r.(c := r.c.(isNew := false))
  {
    hide DownRequest, DownResponse, DownSegmentResponse, UpRequest, UpResponse, UpSegmentResponse;
  }

  lemma ClientTickInit(n: Net, elapsed: nat, j: Job)
    requires ValidDownload(j) && Downloading(n, j) && n.c.state == CDownResponse
    ensures Downloading(NetStep(n, ClientTick(elapsed)), j)
  {
    hide Downloaded, Held, ServerProcess, ClientProcess, ServerInv, ClientInv, ValidDownload, IsDownInit, Word16,
         Sound, IsSegment;
    StepSound(n, ClientTick(elapsed));
    SoundParts(n);
    var m := NetStep(n, ClientTick(elapsed));
    if !n.c.isNew {
      ClientWaits(n.c, elapsed);
      if m.c.state != CIdle {
        StillAwaitsInit(n, m, j);
      }
    } else if !Timely(n.c.timer, elapsed, n.c.allowed) {
      ClientLate(n.c, elapsed);
    } else if IsAbort(n.c.rx) {
      ClientRefused(n.c, elapsed);
    } else {
      ClientHandles(n.c, elapsed);
      var c1 := Woken(n.c, elapsed);
      InitSizes(n.c);
      if |j.data| > 4 {
        ClientSegment(c1, j);
        assert RequestAt(m, NextSegment(c1).out.value);
        assert SegmentSent(m, j, 0);
      }
    }
  }

  lemma InitSizes(c: Client)
    requires ClientInv(c) && c.state == CDownResponse
    ensures c.offset == 0 && c.size == |c.data| <= 65535
  {}

  lemma StillAwaitsInit(n: Net, m: Net, j: Job)
    requires ValidDownload(j) && AwaitsInit(n, j) && !n.c.isNew
    requires m.s == n.s && m.toServer == n.toServer && m.toClient == n.toClient && !m.c.isNew
    ensures AwaitsInit(m, j)
  {
    hide ValidDownload, Downloaded, IsDownInit, IsInitReply, IsAbort;
    assert Moved(n, m.(c := n.c.(rx := m.c.rx, isNew := m.c.isNew)));
    LineKeepsInit(n, m.(c := n.c.(rx := m.c.rx, isNew := m.c.isNew)), j);
    var k := m.(c := n.c.(rx := m.c.rx, isNew := m.c.isNew));
    assert forall f: Frame :: RequestAt(k, f) ==> RequestAt(m, f);
    assert forall f: Frame :: ResponseAt(k, f) ==> ResponseAt(m, f);
  }

  lemma SegmentSizes(c: Client)
    requires ClientInv(c) && c.state == CDownSegment
    ensures c.offset <= c.size == |c.data| <= 65535
  {}

  lemma ClientTickSegment(n: Net, elapsed: nat, j: Job)
    requires ValidDownload(j) && Downloading(n, j) && n.c.state == CDownSegment
    ensures Downloading(NetStep(n, ClientTick(elapsed)), j)
  {
    hide Downloaded, Held, ServerProcess, ClientProcess, ServerInv, ClientInv, ValidDownload, Sound, IsSegment;
    StepSound(n, ClientTick(elapsed));
    SoundParts(n);
    var m := NetStep(n, ClientTick(elapsed));
    if !n.c.isNew {
      ClientWaits(n.c, elapsed);
      if m.c.state != CIdle {
        LineKeepsSegment(n, m.(c := n.c), j);
        StillSegment(n, m, j);
      }
    } else if !Timely(n.c.timer, elapsed, n.c.allowed) {
      ClientLate(n.c, elapsed);
    } else if IsAbort(n.c.rx) {
      ClientRefused(n.c, elapsed);
    } else {
      ClientHandles(n.c, elapsed);
      SegmentSizes(n.c);
      var c1 := Woken(n.c, elapsed);
      var c2 := c1.(toggle := !c1.toggle);
      if n.c.offset < |j.data| {
        ClientSegment(c2, j);
        assert RequestAt(m, NextSegment(c2).out.value);
        assert SegmentSent(m, j, n.c.offset);
      }
    }
  }

  lemma StillSegment(n: Net, m: Net, j: Job)
    requires ValidDownload(j) && !n.c.isNew
    requires m.s == n.s && m.toServer == n.toServer && m.toClient == n.toClient && !m.c.isNew
    requires m.c.offset == n.c.offset && m.c.toggle == n.c.toggle
    requires Hopeless(n) || SegmentTaken(n, j) || exists q :: SegmentSent(n, j, q)
    ensures Hopeless(m) || SegmentTaken(m, j) || exists q :: SegmentSent(m, j, q)
  {
    hide ValidDownload, Downloaded, Held, IsSegment, IsSegmentReply, IsAbort;
    assert forall f: Frame :: RequestAt(n, f) ==> RequestAt(m, f);
    assert forall f: Frame :: ResponseAt(n, f) ==> ResponseAt(m, f);
    if q :| SegmentSent(n, j, q) {
      assert SegmentSent(m, j, q);
    }
  }

  lemma DownloadingStep(n: Net, e: Event, j: Job)
    requires ValidDownload(j) && Downloading(n, j)
    ensures Downloading(NetStep(n, e), j)
  {
    hide Downloading, NetStep;
    match e
    case ClientTick(elapsed) => ClientTickKeeps(n, elapsed, j);
    case ServerTick(elapsed) => ServerTickKeeps(n, elapsed, j);
    case _ => LineKeeps(n, e, j);
  }

  /** Both sides idle, the download just requested. */
  ghost predicate DownloadStart(n: Net, j: Job) {
    && Sound(n) && NoFrames(n) && n.s.state == SIdle && n.s.od == j.od
    && n.c.state == CDownRequest && n.c.internal && n.c.data == j.data && n.c.index == j.index && n.c.sub == j.sub
  }

  /** However frames are lost and timers run: if the client reports success, the object holds
      exactly the bytes sent, followed by what it held before, and nothing else has changed. */
  lemma {:induction false} DownloadSound(n: Net, j: Job, es: seq<Event>)
    requires ValidDownload(j) && (DownloadStart(n, j) || Downloading(n, j))
    ensures Sound(n)
    ensures var m := NetRun(n, es);
      m.c.state == CIdle && m.c.status == Success ==> m.s.od == Downloaded(j)
    decreases |es|
  {
    hide NetStep, ValidDownload, Downloaded, Held, AwaitsInit, SegmentTaken, SegmentSent, Sound;
    assert Downloading(n, j);
    if es != [] {
      DownloadingStep(n, es[0], j);
      DownloadSound(NetStep(n, es[0]), j, es[1..]);
    }
  }

  /** What a completed download means, byte by byte. */
  lemma DownloadedHolds(j: Job)
    requires ValidDownload(j)
    ensures var r, x := Downloaded(j), SubAt(j.od, j.place);
      && SameElsewhere(j.od, r, j.place) && At(r, j.place)
      && var y := SubAt(r, j.place);
         && SameShape(x, y)
         && Receiver(y) == j.data + Receiver(x)[|j.data|..]
         && y.data == (if x.temp.None? || !x.afterReset then Receiver(y) else x.data)
  {
    var x := SubAt(j.od, j.place);
    SpliceShape(x, 0, j.data);
    WithSubKeeps(j.od, j.place, Commit(WithReceiver(x, Splice(Receiver(x), 0, j.data))));
  }

  /* ---- no bytes at all ---- */

  /** The two-bit size field tells how many bytes an expedited frame carries exactly if there are any. */
  lemma ExpeditedSizeExact(cs: byte, n: nat, f: Frame)
    requires cs < 8 && n <= 4 && f[0] == Expedited(cs, n)
    ensures ExpeditedSize(f) == n <==> n >= 1
  {}

  /** A download of no bytes makes the server write the four bytes left in the client's frame. */
  lemma EmptyDownloadWrites(c: Client, s: Server)
    requires ClientInv(c) && c.data == []
    requires Engaged(s) && s.state == SDownInit && s.rx == DownRequest(c).out.value && 4 <= |Target(s).data|
    ensures var x := Target(s);
      && DownInit(s).s.state == SIdle
      && DownInit(s).s.od == WithSub(s.od, s.target.value, Commit(WithReceiver(x, Splice(Receiver(x), 0, c.tx[4..8]))))
  {
    hide WellFormed, Word16, Splice, WithSub;
    var t := StartRequest(c);
    var g := Put(t.tx, 0, [Expedited(1, 0)]);
    assert s.rx[4..8] == g[4..8] == t.tx[4..8] == c.tx[4..8];
    ExpeditedSizeExact(1, 0, s.rx);
    var u := StartTransfer(s).(size := 4);
    EmptyFrame(s.rx);
    assert Target(u) == Target(s);
    CommitTx(u, s.rx[4..8], Put(u.tx, 0, [96]));
    var x := Target(s);
    SubAgain(s.od, s.target.value, WithReceiver(x, Splice(Receiver(x), 0, c.tx[4..8])),
             Commit(WithReceiver(x, Splice(Receiver(x), 0, c.tx[4..8]))));
  }

  lemma EmptyFrame(f: Frame)
    requires f[0] == Expedited(1, 0)
    ensures f[0] % 4 == 3 && ExpeditedSize(f) == 4
  {}
}
