/** Without losses and timeouts a transfer succeeds, after a number of frames fixed by its length. */
module SdoProgress {
  import opened Bytes
  import opened ObjectDictionary
  import opened Sdo
  import opened SdoLink
  import opened SdoSafety
  import opened SdoUpload
  import L = SdoLink
  import U = SdoUpload

  datatype Task = Download(j: Job) | Upload(j: Job, buffer: seq<byte>)

  ghost predicate ValidTask(t: Task) {
    match t
    case Download(j) => ValidDownload(j) && |j.data| <= 65535
    case Upload(j, buffer) => ValidUpload(j, buffer)
  }

  /** The seven-byte segments that k bytes take. */
  function Segments(k: nat): nat {
    (k + 6) / 7
  }

  /* ---- the one frame in flight ---- */

  predicate Requesting(n: Net) {
    n.toClient.None? && !n.c.isNew && n.s.isNew == n.toServer.None?
  }

  predicate Responding(n: Net) {
    n.toServer.None? && !n.s.isNew && n.c.isNew == n.toClient.None?
  }

  function RequestOf(n: Net): Frame
    requires Requesting(n)
  {
    if n.s.isNew then n.s.rx else n.toServer.value
  }

  function ResponseOf(n: Net): Frame
    requires Responding(n)
  {
    if n.c.isNew then n.c.rx else n.toClient.value
  }

  /** The moves a frame in flight has still to make before it is answered. */
  function Transit(n: Net): nat {
    if n.toServer.Some? then 4 else if n.s.isNew then 3 else if n.toClient.Some? then 2 else if n.c.isNew then 1 else 0
  }

  /* ---- transfers that go well ---- */

  ghost predicate DownAsked(n: Net, j: Job) {
    n.s.state == SIdle && n.s.od == j.od && Requesting(n) && IsDownInit(RequestOf(n), j)
  }

  ghost predicate DownConfirmed(n: Net, j: Job)
    requires ValidDownload(j)
  {
    && Responding(n) && IsInitReply(ResponseOf(n), j)
    && if |j.data| <= 4 then n.s.state == SIdle && n.s.od == Downloaded(j) else Receiving(n.s, j, 0, false)
  }

  ghost predicate DownSent(n: Net, j: Job)
    requires ValidDownload(j)
  {
    && Receiving(n.s, j, n.s.offset, n.c.toggle) && Requesting(n)
    && n.c.offset == (if |j.data| <= n.s.offset + 7 then |j.data| else n.s.offset + 7)
    && IsSegment(RequestOf(n), j, n.s.offset, n.c.toggle)
  }

  ghost predicate DownTaken(n: Net, j: Job)
    requires ValidDownload(j)
  {
    && Responding(n) && IsSegmentReply(ResponseOf(n), n.c.toggle)
    && if n.c.offset == |j.data| then n.s.state == SIdle && n.s.od == Downloaded(j)
       else Receiving(n.s, j, n.c.offset, !n.c.toggle)
  }

  ghost predicate DownOnTrack(n: Net, j: Job)
    requires ValidDownload(j)
  {
    && n.c.data == j.data && n.c.index == j.index && n.c.sub == j.sub
    && match n.c.state
       case CDownRequest => n.c.internal && NoFrames(n) && n.s.state == SIdle && n.s.od == j.od
       case CDownResponse => !n.c.internal && !n.c.toggle && (DownAsked(n, j) || DownConfirmed(n, j))
       case CDownSegment => !n.c.internal && |j.data| > 4 && (DownSent(n, j) || DownTaken(n, j))
       case CIdle => n.c.status == Success && NoFrames(n) && n.s.od == Downloaded(j)
       case _ => false
  }

  ghost predicate UpAsked(n: Net, j: Job) {
    n.s.state == SIdle && Requesting(n) && IsUpInit(RequestOf(n), j)
  }

  ghost predicate UpConfirmed(n: Net, j: Job) {
    && Responding(n) && IsUpReply(ResponseOf(n), j)
    && if |j.data| <= 4 then n.s.state == SIdle else Sending(n.s, j, 0, false)
  }

  ghost predicate UpAskedSegment(n: Net, j: Job) {
    Sending(n.s, j, n.c.offset, n.c.toggle) && Requesting(n) && IsSegmentRequest(RequestOf(n), n.c.toggle)
  }

  ghost predicate UpGotSegment(n: Net, j: Job) {
    && n.c.offset < |j.data| && Responding(n) && IsSegment(ResponseOf(n), j, n.c.offset, n.c.toggle)
    && if |j.data| <= n.c.offset + 7 then n.s.state == SIdle else Sending(n.s, j, n.c.offset + 7, !n.c.toggle)
  }

  ghost predicate UpOnTrack(n: Net, j: Job, buffer: seq<byte>)
    requires ValidUpload(j, buffer)
  {
    && n.c.index == j.index && n.c.sub == j.sub && n.s.od == j.od
    && match n.c.state
       case CUpRequest => n.c.internal && NoFrames(n) && n.s.state == SIdle && n.c.data == buffer
       case CUpResponse => !n.c.internal && !n.c.toggle && n.c.data == buffer && (UpAsked(n, j) || UpConfirmed(n, j))
       case CUpSegment => && !n.c.internal && n.c.size == |j.data| && n.c.offset < |j.data|
                          && n.c.data == Filled(j, buffer, n.c.offset)
                          && (UpAskedSegment(n, j) || UpGotSegment(n, j))
       case CIdle => n.c.status == Success && NoFrames(n) && n.c.data == Filled(j, buffer, |j.data|)
       case _ => false
  }

  ghost predicate OnTrack(n: Net, t: Task)
    requires ValidTask(t)
  {
    Sound(n) && match t
                case Download(j) => DownOnTrack(n, j)
                case Upload(j, buffer) => UpOnTrack(n, j, buffer)
  }

  /** The moves left until the client reports success. */
  ghost function Left(n: Net, t: Task): int {
    var k := |t.j.data|;
    var all := if k <= 4 then 0 else Segments(k);
    match n.c.state
    case CIdle => 0
    case CDownRequest => 4 * all + 5
    case CUpRequest => 4 * all + 5
    case CDownResponse => 4 * all + Transit(n)
    case CUpResponse => 4 * all + Transit(n)
    case CDownSegment =>
      if Transit(n) >= 3 then (if n.s.offset <= k then 4 * Segments(k - n.s.offset) + Transit(n) - 4 else 0)
      else (if n.c.offset <= k then 4 * Segments(k - n.c.offset) + Transit(n) else 0)
    case CUpSegment => if n.c.offset <= k then 4 * Segments(k - n.c.offset) + Transit(n) - 4 else 0
  }

  /** The frames that the moves left will send. */
  function FramesIn(left: int): int {
    if left <= 0 then 0 else (left - 1) / 2
  }

  /** The kind of event that moves the transfer on. */
  predicate Due(n: Net, e: Event) {
    match Transit(n)
    case 4 => e.ArriveAtServer?
    case 3 => e.ServerTick?
    case 2 => e.ArriveAtClient?
    case _ => e.ClientTick?
  }

  /** The event loses nothing and does not find that the wait for an answer has been too long. */
  ghost predicate Calm(n: Net, e: Event) {
    match e
    case ClientTick(elapsed) => n.c.state != CIdle ==> Timely(n.c.timer, elapsed, n.c.allowed)
    case ServerTick(elapsed) => Timely(n.s.timer, elapsed, n.s.allowed)
    case ArriveAtServer => true
    case ArriveAtClient => true
    case _ => false
  }

  /** The frames that an event sends. */
  ghost function Sends(n: Net, e: Event): nat
    requires Sound(n)
  {
    match e
    case ClientTick(elapsed) => if ClientProcess(n.c, elapsed).out.Some? then 1 else 0
    case ServerTick(elapsed) => if ServerProcess(n.s, elapsed).out.Some? then 1 else 0
    case _ => 0
  }

  /** A due event makes one move, any other makes none. */
  ghost predicate Moves(n: Net, e: Event, t: Task)
    requires ValidTask(t) && Sound(n)
  {
    var m := NetStep(n, e);
    && OnTrack(m, t)
    && Left(m, t) == (if Due(n, e) && Left(n, t) > 0 then Left(n, t) - 1 else Left(n, t))
    && (!Due(n, e) ==> Transit(m) == Transit(n))
    && Sends(n, e) + FramesIn(Left(m, t)) == FramesIn(Left(n, t))
  }

  /* ---- numbers ---- */

  lemma OneSegment(k: nat)
    requires 1 <= k
    ensures Segments(0) == 0
    ensures k <= 7 ==> Segments(k) == 1
    ensures k > 7 ==> Segments(k) == Segments(k - 7) + 1
  {}

  lemma LeftPositive(n: Net, t: Task)
    requires ValidTask(t) && OnTrack(n, t)
    ensures Left(n, t) >= 0
    ensures Left(n, t) == 0 <==> n.c.state == CIdle
  {
    hide Sound, ValidDownload, ValidUpload, Downloaded, Filled, IsSegment, IsSegmentReply, IsSegmentRequest,
         IsInitReply, IsUpReply, IsUpInit,
         IsDownInit;
    assert Segments(0) == 0;
  }

  /* ---- events that are not due ---- */

  /** Only timers have moved, and the status of a side that is busy. */
  ghost predicate OnlyTimers(n: Net, m: Net) {
    && m.toServer == n.toServer && m.toClient == n.toClient
    && m.s == n.s.(timer := m.s.timer, status := m.s.status)
    && m.c == n.c.(timer := m.c.timer, status := m.c.status) && (n.c.state == CIdle ==> m.c == n.c)
  }

  lemma DownTimers(n: Net, m: Net, j: Job)
    requires ValidDownload(j) && DownOnTrack(n, j) && OnlyTimers(n, m)
    ensures DownOnTrack(m, j)
  {
    hide ValidDownload, Downloaded, Held, IsSegment, IsSegmentReply, IsInitReply, IsDownInit;
  }

  lemma UpTimers(n: Net, m: Net, j: Job, buffer: seq<byte>)
    requires ValidUpload(j, buffer) && UpOnTrack(n, j, buffer) && OnlyTimers(n, m)
    ensures UpOnTrack(m, j, buffer)
  {
    assert |j.data| <= |buffer|;
    hide ValidUpload, Filled, IsSegment, IsSegmentRequest, IsUpReply, IsUpInit;
  }

  lemma TimersKeep(n: Net, m: Net, t: Task)
    requires ValidTask(t) && OnTrack(n, t) && OnlyTimers(n, m) && Sound(m)
    ensures OnTrack(m, t) && Left(m, t) == Left(n, t) && Transit(m) == Transit(n)
  {
    hide Sound, DownOnTrack, UpOnTrack, ValidDownload, ValidUpload;
    match t
    case Download(j) => DownTimers(n, m, j);
    case Upload(j, buffer) => UpTimers(n, m, j, buffer);
  }

  lemma ServerQuiet(n: Net, elapsed: nat)
    requires Sound(n) && !n.s.isNew && Timely(n.s.timer, elapsed, n.s.allowed)
    ensures OnlyTimers(n, NetStep(n, ServerTick(elapsed))) && Sends(n, ServerTick(elapsed)) == 0
  {}

  lemma ClientQuiet(n: Net, elapsed: nat)
    requires Sound(n) && !n.c.isNew && !n.c.internal && Timely(n.c.timer, elapsed, n.c.allowed)
    ensures OnlyTimers(n, NetStep(n, ClientTick(elapsed))) && Sends(n, ClientTick(elapsed)) == 0
  {
    hide DownRequest, DownResponse, DownSegmentResponse, UpRequest, UpResponse, UpSegmentResponse;
  }

  lemma ClientDone(n: Net, elapsed: nat)
    requires Sound(n) && n.c.state == CIdle
    ensures NetStep(n, ClientTick(elapsed)) == n && Sends(n, ClientTick(elapsed)) == 0
  {
    hide DownRequest, DownResponse, DownSegmentResponse, UpRequest, UpResponse, UpSegmentResponse;
  }

  /* ---- the line ---- */

  /** The frame has arrived, or there is none to arrive. */
  ghost predicate Delivered(n: Net, m: Net) {
    && m.c == n.c.(rx := m.c.rx, isNew := m.c.isNew) && m.s == n.s.(rx := m.s.rx, isNew := m.s.isNew)
    && (NoFrames(n) ==> NoFrames(m))
    && (Requesting(n) ==> Requesting(m) && RequestOf(m) == RequestOf(n))
    && (Responding(n) ==> Responding(m) && ResponseOf(m) == ResponseOf(n))
  }

  lemma LineDelivers(n: Net, e: Event)
    requires Sound(n) && (e.ArriveAtServer? || e.ArriveAtClient?)
    ensures var m := NetStep(n, e);
      && Sound(m)
      && (Requesting(n) || Responding(n) || NoFrames(n) ==>
            && Delivered(n, m)
            && Transit(m) == (if Due(n, e) then Transit(n) - 1 else Transit(n))
            && (Transit(m) >= 3 <==> Transit(n) >= 3))
  {
    hide Sound;
    StepSound(n, e);
  }

  lemma DownDelivered(n: Net, m: Net, j: Job)
    requires ValidDownload(j) && DownOnTrack(n, j) && Delivered(n, m)
    ensures DownOnTrack(m, j)
  {
    hide ValidDownload, Downloaded, Held, IsSegment, IsSegmentReply, IsInitReply, IsDownInit, RequestOf, ResponseOf,
         NoFrames;
  }

  lemma UpDelivered(n: Net, m: Net, j: Job, buffer: seq<byte>)
    requires ValidUpload(j, buffer) && UpOnTrack(n, j, buffer) && Delivered(n, m)
    ensures UpOnTrack(m, j, buffer)
  {
    assert |j.data| <= |buffer|;
    hide ValidUpload, Filled, IsSegment, IsSegmentRequest, IsUpReply, IsUpInit, RequestOf, ResponseOf, NoFrames;
  }

  lemma TrackFrames(n: Net, t: Task)
    requires ValidTask(t) && OnTrack(n, t)
    ensures Requesting(n) || Responding(n) || NoFrames(n)
    ensures n.c.state == CIdle || n.c.state == CDownRequest || n.c.state == CUpRequest <==> NoFrames(n)
    ensures n.c.state == CDownSegment ==> n.c.offset <= |t.j.data| && (Transit(n) >= 3 ==> n.s.offset < |t.j.data|)
    ensures n.c.state == CUpSegment ==> n.c.offset < |t.j.data|
    ensures NoFrames(n) ==> n.c.internal || n.c.state == CIdle
    ensures !NoFrames(n) ==> !n.c.internal
    ensures !NoFrames(n) ==> Left(n, t) > 0
  {
    hide Sound, ValidDownload, ValidUpload, Downloaded, Held, Filled, IsSegment, IsSegmentReply, IsSegmentRequest,
         IsInitReply, IsUpReply,
         IsUpInit, IsDownInit, RequestOf, ResponseOf;
  }

  /** What is left follows the frame. */
  lemma LeftFollows(n: Net, m: Net, t: Task)
    requires n.c.state == m.c.state && n.c.offset == m.c.offset && n.s.offset == m.s.offset
    requires Transit(m) >= 3 <==> Transit(n) >= 3
    requires n.c.state == CDownSegment ==> n.c.offset <= |t.j.data| && (Transit(n) >= 3 ==> n.s.offset < |t.j.data|)
    requires n.c.state == CUpSegment ==> n.c.offset < |t.j.data|
    ensures n.c.state == CIdle || n.c.state == CDownRequest || n.c.state == CUpRequest ==> Left(m, t) == Left(n, t)
    ensures !(n.c.state == CIdle || n.c.state == CDownRequest || n.c.state == CUpRequest) ==>
              Left(m, t) == Left(n, t) + Transit(m) - Transit(n)
  {
    hide Transit, Segments;
  }

  lemma Half(x: int, h: int)
    requires x == 2 * h || x == 2 * h + 1
    ensures x / 2 == h
  {}

  lemma FramesAre(left: int, h: nat)
    requires left == 2 * h + 1 || left == 2 * h + 2
    ensures FramesIn(left) == h
  {
    Half(left - 1, h);
  }

  lemma HalfOdd(left: int, s: nat)
    requires left == 4 * s + 4 || left == 4 * s + 2
    ensures FramesIn(left) == FramesIn(left - 1)
  {
    var h := if left == 4 * s + 4 then 2 * s + 1 else 2 * s;
    FramesAre(left, h);
    FramesAre(left - 1, h);
  }

  /** A frame on the line leaves an even number of moves. */
  lemma LeftEven(n: Net, t: Task)
    requires ValidTask(t) && OnTrack(n, t) && (Transit(n) == 4 || Transit(n) == 2)
    ensures FramesIn(Left(n, t)) == FramesIn(Left(n, t) - 1)
  {
    hide Sound, ValidDownload, ValidUpload, DownOnTrack, UpOnTrack, FramesIn, Segments;
    TrackFrames(n, t);
    var k := |t.j.data|;
    if n.c.state == CDownSegment && Transit(n) >= 3 {
      OneSegment(k - n.s.offset);
    } else if n.c.state == CUpSegment {
      OneSegment(k - n.c.offset);
    }
    var s :=
      if n.c.state == CDownSegment then
        (if Transit(n) >= 3 then Segments(k - n.s.offset) - 1 else Segments(k - n.c.offset))
      else if n.c.state == CUpSegment then Segments(k - n.c.offset) - 1
      else if k <= 4 then 0
      else Segments(k);
    HalfOdd(Left(n, t), s);
  }

  lemma LineMovesOn(n: Net, e: Event, t: Task)
    requires ValidTask(t) && OnTrack(n, t) && (e.ArriveAtServer? || e.ArriveAtClient?)
    ensures Moves(n, e, t)
  {
    hide Sound, DownOnTrack, UpOnTrack, ValidDownload, ValidUpload, NetStep, Left, FramesIn, Segments, Transit,
         NoFrames;
    var m := NetStep(n, e);
    TrackFrames(n, t);
    LineDelivers(n, e);
    LeftFollows(n, m, t);
    match t {
      case Download(j) => DownDelivered(n, m, j);
      case Upload(j, buffer) => UpDelivered(n, m, j, buffer);
    }
    LineDue(n, e);
    if Due(n, e) {
      LeftEven(n, t);
    }
  }

  lemma LineDue(n: Net, e: Event)
    requires e.ArriveAtServer? || e.ArriveAtClient?
    ensures Due(n, e) ==> (Transit(n) == 4 || Transit(n) == 2) && !NoFrames(n)
  {}

  /* ---- a due tick of the server ---- */

  lemma DownServerAnswers(n: Net, elapsed: nat, j: Job)
    requires ValidDownload(j) && Sound(n) && DownOnTrack(n, j) && n.s.isNew && Timely(n.s.timer, elapsed, n.s.allowed)
    ensures var m := NetStep(n, ServerTick(elapsed));
      && DownOnTrack(m, j) && Sends(n, ServerTick(elapsed)) == 1 && m.c == n.c && Transit(m) == 2 && Transit(n) == 3
      && (n.c.state == CDownSegment ==>
            && n.s.offset < |j.data|
            && m.c.offset == (if |j.data| <= n.s.offset + 7 then |j.data| else n.s.offset + 7))
  {
    hide ValidDownload, Downloaded, Held, ServerProcess, ClientProcess, ServerInv, ClientInv, IsDownInit,
         IsInitReply, IsSegment, IsSegmentReply;
    if n.c.state == CDownResponse {
      ServerTakesInit(n.s, j, elapsed);
    } else {
      ServerTakesSegment(n.s, j, n.s.offset, n.c.toggle, elapsed);
    }
  }

  lemma UpServerAnswers(n: Net, elapsed: nat, j: Job, buffer: seq<byte>)
    requires ValidUpload(j, buffer) && Sound(n) && UpOnTrack(n, j, buffer) && n.s.isNew
    requires Timely(n.s.timer, elapsed, n.s.allowed)
    ensures var m := NetStep(n, ServerTick(elapsed));
      UpOnTrack(m, j, buffer) && Sends(n, ServerTick(elapsed)) == 1 && m.c == n.c && Transit(m) == 2 && Transit(n) == 3
  {
    UploadSizes(j, buffer);
    hide ValidUpload, Filled, ServerProcess, ClientProcess, ServerInv, ClientInv, IsUpInit, IsUpReply, IsSegment,
         IsSegmentRequest;
    if n.c.state == CUpResponse {
      ServerAnswersInit(n.s, j, buffer, elapsed);
    } else {
      ServerAnswersSegment(n.s, j, buffer, n.c.offset, n.c.toggle, elapsed);
    }
  }

  lemma HalfEven(left: int, s: nat)
    requires left == 4 * s + 3
    ensures FramesIn(left) == FramesIn(left - 1) + 1
  {
    FramesAre(left, 2 * s + 1);
    FramesAre(left - 1, 2 * s);
  }

  /** The whole segments that remain after the answer. */
  ghost function After(n: Net, t: Task): int {
    var k := |t.j.data|;
    match n.c.state
    case CDownSegment => (if n.s.offset <= k then Segments(k - n.s.offset) - 1 else 0)
    case CUpSegment => (if n.c.offset <= k then Segments(k - n.c.offset) - 1 else 0)
    case _ => if k <= 4 then 0 else Segments(k)
  }

  lemma ServerLeft(n: Net, m: Net, t: Task)
    requires m.c == n.c && Transit(n) == 3 && Transit(m) == 2
    requires n.c.state == CDownResponse || n.c.state == CDownSegment || n.c.state == CUpResponse
      || n.c.state == CUpSegment
    requires n.c.state == CDownSegment ==>
               n.s.offset < |t.j.data| && n.c.offset ==
                   (if |t.j.data| <= n.s.offset + 7 then |t.j.data| else n.s.offset + 7)
    requires n.c.state == CUpSegment ==> n.c.offset < |t.j.data|
    ensures After(n, t) >= 0 && Left(n, t) == 4 * After(n, t) + 3 && Left(m, t) == 4 * After(n, t) + 2
  {
    hide Segments, Transit;
    var k := |t.j.data|;
    if n.c.state == CDownSegment {
      OneSegment(k - n.s.offset);
    } else if n.c.state == CUpSegment {
      OneSegment(k - n.c.offset);
    }
  }

  lemma DownServerMoves(n: Net, elapsed: nat, j: Job)
    requires ValidTask(Download(j)) && OnTrack(n, Download(j)) && n.s.isNew && Timely(n.s.timer, elapsed, n.s.allowed)
    ensures Moves(n, ServerTick(elapsed), Download(j))
  {
    hide Sound, DownOnTrack, ValidDownload, NetStep, FramesIn, Left, After, NoFrames, Transit, Sends;
    var t := Download(j);
    StepSound(n, ServerTick(elapsed));
    DownServerAnswers(n, elapsed, j);
    ServerHasWork(n, j);
    ServerLeft(n, NetStep(n, ServerTick(elapsed)), t);
    HalfEven(Left(n, t), After(n, t));
  }

  lemma ServerHasWork(n: Net, j: Job)
    requires ValidDownload(j) && DownOnTrack(n, j) && n.s.isNew
    ensures n.c.state == CDownResponse || n.c.state == CDownSegment
  {}

  lemma UpServerMoves(n: Net, elapsed: nat, j: Job, buffer: seq<byte>)
    requires ValidTask(Upload(j, buffer)) && OnTrack(n, Upload(j, buffer)) && n.s.isNew
    requires Timely(n.s.timer, elapsed, n.s.allowed)
    ensures Moves(n, ServerTick(elapsed), Upload(j, buffer))
  {
    hide Sound, UpOnTrack, ValidUpload, NetStep, FramesIn, Left, After, NoFrames, Transit, Sends;
    var t := Upload(j, buffer);
    StepSound(n, ServerTick(elapsed));
    TrackFrames(n, t);
    UpServerAnswers(n, elapsed, j, buffer);
    ServerHasRequest(n, j, buffer);
    ServerLeft(n, NetStep(n, ServerTick(elapsed)), t);
    HalfEven(Left(n, t), After(n, t));
  }

  lemma ServerHasRequest(n: Net, j: Job, buffer: seq<byte>)
    requires ValidUpload(j, buffer) && UpOnTrack(n, j, buffer) && n.s.isNew
    ensures n.c.state == CUpResponse || n.c.state == CUpSegment
  {}

  lemma ServerMovesOn(n: Net, elapsed: nat, t: Task)
    requires ValidTask(t) && OnTrack(n, t) && Timely(n.s.timer, elapsed, n.s.allowed)
    ensures Moves(n, ServerTick(elapsed), t)
  {
    if n.s.isNew {
      hide OnTrack, Moves, Timely, ValidDownload, ValidUpload;
      match t {
        case Download(j) => DownServerMoves(n, elapsed, j);
        case Upload(j, buffer) => UpServerMoves(n, elapsed, j, buffer);
      }
    } else {
      hide Sound, DownOnTrack, UpOnTrack, ValidDownload, ValidUpload, NetStep, FramesIn, Segments, NoFrames, Left;
      StepSound(n, ServerTick(elapsed));
      TrackFrames(n, t);
      ServerQuiet(n, elapsed);
      TimersKeep(n, NetStep(n, ServerTick(elapsed)), t);
      assert Transit(n) != 3 by { NotAtServer(n); }
    }
  }

  lemma NotAtServer(n: Net)
    requires !n.s.isNew
    ensures Transit(n) != 3
  {}

  /* ---- a due tick of the client ---- */

  lemma DownClientStarts(n: Net, elapsed: nat, j: Job)
    requires ValidDownload(j) && Sound(n) && DownOnTrack(n, j) && n.c.state == CDownRequest
    requires Timely(n.c.timer, elapsed, n.c.allowed)
    ensures var m := NetStep(n, ClientTick(elapsed));
      && DownOnTrack(m, j) && Sends(n, ClientTick(elapsed)) == 1 && m.c.state == CDownResponse && m.s == n.s
      && Transit(m) == 4 && Transit(n) == 0
  {
    hide ValidDownload, Downloaded, Held, ServerProcess, ServerInv, IsDownInit;
    StartHandles(n.c, elapsed);
    var c1 := if n.c.timer > 0 then n.c.(timer := Advance(n.c.timer, elapsed)) else n.c;
    L.ClientAsks(c1, j);
  }

  lemma DownClientReads(n: Net, elapsed: nat, j: Job)
    requires ValidDownload(j) && Sound(n) && DownOnTrack(n, j) && n.c.isNew
    requires Timely(n.c.timer, elapsed, n.c.allowed)
    ensures n.c.state == CDownResponse || n.c.state == CDownSegment
    ensures var m := NetStep(n, ClientTick(elapsed));
      && DownOnTrack(m, j) && m.s == n.s && Transit(n) == 1
      && var q := if n.c.state == CDownResponse then (if |j.data| <= 4 then |j.data| else 0) else n.c.offset;
         if q == |j.data| then m.c.state == CIdle && Sends(n, ClientTick(elapsed)) == 0
         else && Transit(m) == 4 && m.c.state == CDownSegment && n.s.offset == q < |j.data|
              && Sends(n, ClientTick(elapsed)) == 1
  {
    hide Downloaded, Held, ServerProcess, ClientProcess, ServerInv, ClientInv, ValidDownload, IsDownInit, Word16,
         IsSegment;
    L.ClientHandles(n.c, elapsed);
    var c1 := Woken(n.c, elapsed);
    if n.c.state == CDownResponse {
      InitSizes(n.c);
      if |j.data| > 4 {
        ClientSegment(c1, j);
      }
    } else {
      SegmentSizes(n.c);
      if n.c.offset < |j.data| {
        ClientSegment(c1.(toggle := !c1.toggle), j);
      }
    }
  }

  lemma UpClientStarts(n: Net, elapsed: nat, j: Job, buffer: seq<byte>)
    requires ValidUpload(j, buffer) && Sound(n) && UpOnTrack(n, j, buffer) && n.c.state == CUpRequest
    requires Timely(n.c.timer, elapsed, n.c.allowed)
    ensures var m := NetStep(n, ClientTick(elapsed));
      && UpOnTrack(m, j, buffer) && Sends(n, ClientTick(elapsed)) == 1 && m.c.state == CUpResponse && m.s == n.s
      && Transit(m) == 4 && Transit(n) == 0
  {
    UploadSizes(j, buffer);
    hide ValidUpload, Filled, ServerProcess, ServerInv, IsUpInit;
    StartHandles(n.c, elapsed);
    var c1 := if n.c.timer > 0 then n.c.(timer := Advance(n.c.timer, elapsed)) else n.c;
    U.ClientAsks(c1, j);
  }

  ghost predicate UpRead(n: Net, elapsed: nat, j: Job, buffer: seq<byte>, q: nat)
    requires ValidUpload(j, buffer) && Sound(n)
  {
    var m := NetStep(n, ClientTick(elapsed));
    && UpOnTrack(m, j, buffer) && m.s == n.s && Transit(n) == 1
    && if |j.data| <= q then m.c.state == CIdle && Sends(n, ClientTick(elapsed)) == 0
       else && Transit(m) == 4 && m.c.state == CUpSegment && m.c.offset == q && Sends(n, ClientTick(elapsed)) == 1
  }

  lemma UpClientReadsInit(n: Net, elapsed: nat, j: Job, buffer: seq<byte>)
    requires ValidUpload(j, buffer) && Sound(n) && UpOnTrack(n, j, buffer) && n.c.isNew && n.c.state == CUpResponse
    requires Timely(n.c.timer, elapsed, n.c.allowed)
    ensures UpRead(n, elapsed, j, buffer, if |j.data| <= 4 then |j.data| else 0)
  {
    UploadSizes(j, buffer);
    hide Filled, ServerProcess, ClientProcess, ServerInv, ClientInv, ValidUpload, IsUpInit, Word16, IsSegment;
    U.ClientHandles(n.c, elapsed);
    ClientTakesInit(Woken(n.c, elapsed), j, buffer);
    FilledNothing(j, buffer);
  }

  lemma UpClientReadsSegment(n: Net, elapsed: nat, j: Job, buffer: seq<byte>)
    requires ValidUpload(j, buffer) && Sound(n) && UpOnTrack(n, j, buffer) && n.c.isNew && n.c.state == CUpSegment
    requires Timely(n.c.timer, elapsed, n.c.allowed)
    ensures UpRead(n, elapsed, j, buffer, n.c.offset + 7)
  {
    UploadSizes(j, buffer);
    hide Filled, ServerProcess, ClientProcess, ServerInv, ClientInv, ValidUpload, IsUpInit, Word16, IsSegment;
    U.ClientHandles(n.c, elapsed);
    ClientTakesSegment(Woken(n.c, elapsed), j, buffer);
  }

  lemma UpClientReads(n: Net, elapsed: nat, j: Job, buffer: seq<byte>)
    requires ValidUpload(j, buffer) && Sound(n) && UpOnTrack(n, j, buffer) && n.c.isNew
    requires Timely(n.c.timer, elapsed, n.c.allowed)
    ensures n.c.state == CUpResponse || n.c.state == CUpSegment
    ensures UpRead(n, elapsed, j, buffer, if n.c.state == CUpResponse then (if |j.data| <= 4 then |j.data| else 0)
        else n.c.offset + 7)
  {
    UploadSizes(j, buffer);
    hide ValidUpload, Sound, Filled, UpRead, UpConfirmed, UpAsked, UpAskedSegment, UpGotSegment;
    if n.c.state == CUpResponse {
      UpClientReadsInit(n, elapsed, j, buffer);
    } else {
      UpClientReadsSegment(n, elapsed, j, buffer);
    }
  }

  /** The segments that remain once the client has read what has come. */
  ghost function Ahead(n: Net, t: Task): int {
    var k := |t.j.data|;
    match n.c.state
    case CDownSegment => (if n.c.offset <= k then Segments(k - n.c.offset) else 0)
    case CUpSegment => (if n.c.offset <= k then Segments(k - n.c.offset) - 1 else 0)
    case _ => if k <= 4 then 0 else Segments(k)
  }

  lemma FramesStep(s: nat)
    ensures FramesIn(4 * s + 5) == FramesIn(4 * s + 4) + 1
    ensures s > 0 ==> FramesIn(4 * s + 1) == FramesIn(4 * s) + 1
    ensures FramesIn(1) == FramesIn(0) == 0
  {
    FramesAre(4 * s + 5, 2 * s + 2);
    FramesAre(4 * s + 4, 2 * s + 1);
    FramesAre(4 * s + 1, 2 * s);
    FramesAre(1, 0);
    if s > 0 {
      FramesAre(4 * s, 2 * s - 1);
    }
  }

  lemma DownLeft(n: Net, m: Net, t: Task)
    requires n.c.state == CDownResponse || n.c.state == CDownSegment
    requires m.s == n.s && Transit(n) == 1 && (n.c.state == CDownSegment ==> n.c.offset <= |t.j.data|)
    requires var k := |t.j.data|;
      var q := if n.c.state == CDownResponse then (if k <= 4 then k else 0) else n.c.offset;
      if q == k then m.c.state == CIdle else Transit(m) == 4 && m.c.state == CDownSegment && n.s.offset == q < k
    ensures Ahead(n, t) >= 0 && Left(n, t) == 4 * Ahead(n, t) + 1 && Left(m, t) == 4 * Ahead(n, t)
    ensures m.c.state == CIdle <==> Ahead(n, t) == 0
  {
    hide Segments, Transit;
    var k := |t.j.data|;
    OneSegment(1);
    if n.c.state == CDownSegment && n.c.offset < k {
      OneSegment(k - n.c.offset);
    } else if k > 4 {
      OneSegment(k);
    }
  }

  lemma UpLeft(n: Net, m: Net, t: Task)
    requires n.c.state == CUpResponse || n.c.state == CUpSegment
    requires Transit(n) == 1 && (n.c.state == CUpSegment ==> n.c.offset < |t.j.data|)
    requires var k := |t.j.data|;
      var q := if n.c.state == CUpResponse then (if k <= 4 then k else 0) else n.c.offset + 7;
      if k <= q then m.c.state == CIdle else Transit(m) == 4 && m.c.state == CUpSegment && m.c.offset == q
    ensures Ahead(n, t) >= 0 && Left(n, t) == 4 * Ahead(n, t) + 1 && Left(m, t) == 4 * Ahead(n, t)
    ensures m.c.state == CIdle <==> Ahead(n, t) == 0
  {
    hide Segments, Transit;
    var k := |t.j.data|;
    OneSegment(1);
    if n.c.state == CUpSegment {
      OneSegment(k - n.c.offset);
      if k > n.c.offset + 7 {
        OneSegment(k - n.c.offset - 7);
      }
    } else if k > 4 {
      OneSegment(k);
    }
  }

  lemma DownClientMoves(n: Net, elapsed: nat, j: Job)
    requires ValidTask(Download(j)) && OnTrack(n, Download(j)) && n.c.isNew && Timely(n.c.timer, elapsed, n.c.allowed)
    ensures Moves(n, ClientTick(elapsed), Download(j))
  {
    hide Sound, DownOnTrack, ValidDownload, NetStep, FramesIn, Left, Ahead, NoFrames, Transit, Sends;
    var t, m := Download(j), NetStep(n, ClientTick(elapsed));
    StepSound(n, ClientTick(elapsed));
    TrackFrames(n, t);
    DownClientReads(n, elapsed, j);
    DownLeft(n, m, t);
    FramesStep(Ahead(n, t));
    IdleEmpty(m, t);
  }

  /** A client that has finished leaves nothing on the line. */
  lemma IdleEmpty(m: Net, t: Task)
    requires ValidTask(t) && OnTrack(m, t)
    ensures m.c.state == CIdle ==> Transit(m) == 0
  {
    hide Sound, ValidDownload, ValidUpload;
  }

  lemma UpClientMoves(n: Net, elapsed: nat, j: Job, buffer: seq<byte>)
    requires ValidTask(Upload(j, buffer)) && OnTrack(n, Upload(j, buffer)) && n.c.isNew
    requires Timely(n.c.timer, elapsed, n.c.allowed)
    ensures Moves(n, ClientTick(elapsed), Upload(j, buffer))
  {
    hide Sound, UpOnTrack, ValidUpload, NetStep, FramesIn, Left, Ahead, NoFrames, Transit, Sends;
    var t, m := Upload(j, buffer), NetStep(n, ClientTick(elapsed));
    StepSound(n, ClientTick(elapsed));
    TrackFrames(n, t);
    UpClientReads(n, elapsed, j, buffer);
    UpLeft(n, m, t);
    FramesStep(Ahead(n, t));
    IdleEmpty(m, t);
  }

  lemma ClientStarts(n: Net, elapsed: nat, t: Task)
    requires ValidTask(t) && OnTrack(n, t) && (n.c.state == CDownRequest || n.c.state == CUpRequest)
    requires Timely(n.c.timer, elapsed, n.c.allowed)
    ensures Moves(n, ClientTick(elapsed), t)
  {
    hide Sound, DownOnTrack, UpOnTrack, ValidDownload, ValidUpload, NetStep, FramesIn, Segments, NoFrames, Transit,
         Sends;
    StepSound(n, ClientTick(elapsed));
    TrackFrames(n, t);
    match t {
      case Download(j) =>
        assert n.c.state == CDownRequest by { StartKind(n, t); }
        DownClientStarts(n, elapsed, j);
      case Upload(j, buffer) =>
        assert n.c.state == CUpRequest by { StartKind(n, t); }
        UpClientStarts(n, elapsed, j, buffer);
    }
    FramesStep(if |t.j.data| <= 4 then 0 else Segments(|t.j.data|));
  }

  lemma StartKind(n: Net, t: Task)
    requires ValidTask(t) && OnTrack(n, t) && (n.c.state == CDownRequest || n.c.state == CUpRequest)
    ensures if t.Download? then n.c.state == CDownRequest else n.c.state == CUpRequest
  {
    hide Sound, ValidDownload, ValidUpload;
  }

  lemma ClientMovesOn(n: Net, elapsed: nat, t: Task)
    requires ValidTask(t) && OnTrack(n, t) && Calm(n, ClientTick(elapsed))
    ensures Moves(n, ClientTick(elapsed), t)
  {
    hide Sound, DownOnTrack, UpOnTrack, ValidDownload, ValidUpload, NetStep, FramesIn, Segments, NoFrames, Left,
         Sends, Timely;
    TrackFrames(n, t);
    StepSound(n, ClientTick(elapsed));
    if n.c.state == CIdle {
      ClientDone(n, elapsed);
      LeftPositive(n, t);
    } else if n.c.state == CDownRequest || n.c.state == CUpRequest {
      ClientStarts(n, elapsed, t);
    } else if n.c.isNew {
      match t {
        case Download(j) => DownClientMoves(n, elapsed, j);
        case Upload(j, buffer) => UpClientMoves(n, elapsed, j, buffer);
      }
    } else {
      ClientQuiet(n, elapsed);
      TimersKeep(n, NetStep(n, ClientTick(elapsed)), t);
      InTransit(n);
    }
  }

  lemma InTransit(n: Net)
    requires !NoFrames(n) && !n.c.isNew
    ensures Transit(n) >= 2
  {}

  lemma MovesOn(n: Net, e: Event, t: Task)
    requires ValidTask(t) && OnTrack(n, t) && Calm(n, e)
    ensures Moves(n, e, t)
  {
    hide OnTrack, Moves, ValidTask, Timely;
    match e
    case ClientTick(elapsed) => ClientMovesOn(n, elapsed, t);
    case ServerTick(elapsed) => ServerMovesOn(n, elapsed, t);
    case _ => LineMovesOn(n, e, t);
  }

  /* ---- runs ---- */

  /** Every event of the run is calm. */
  ghost predicate CalmRun(n: Net, es: seq<Event>)
    requires Sound(n)
    decreases |es|
  {
    es == [] || (Calm(n, es[0]) && (StepSound(n, es[0]); CalmRun(NetStep(n, es[0]), es[1..])))
  }

  /** The frames that both sides send. */
  ghost function Sent(n: Net, es: seq<Event>): nat
    requires Sound(n)
    decreases |es|
  {
    if es == [] then 0
    else
      StepSound(n, es[0]);
      Sends(n, es[0]) + Sent(NetStep(n, es[0]), es[1..])
  }

  predicate HasDue(n: Net, es: seq<Event>) {
    exists i :: 0 <= i < |es| && Due(n, es[i])
  }

  /** A calm run keeps the transfer on track, sends no frame in vain and, if it holds a due event, moves on. */
  lemma {:induction false} RunMoves(n: Net, es: seq<Event>, t: Task)
    requires ValidTask(t) && OnTrack(n, t) && CalmRun(n, es)
    ensures var m := NetRun(n, es);
      && OnTrack(m, t) && Left(m, t) <= Left(n, t)
      && Sent(n, es) + FramesIn(Left(m, t)) == FramesIn(Left(n, t))
      && (HasDue(n, es) && Left(n, t) > 0 ==> Left(m, t) < Left(n, t))
    decreases |es|
  {
    hide NetStep, Sound, DownOnTrack, UpOnTrack, Left, FramesIn, Calm, Due, Transit, Sends, ValidTask;
    if es != [] {
      MovesOn(n, es[0], t);
      var k := NetStep(n, es[0]);
      RunMoves(k, es[1..], t);
      if HasDue(n, es) && !Due(n, es[0]) {
        DueLater(n, k, es);
      }
    }
  }

  lemma DueLater(n: Net, k: Net, es: seq<Event>)
    requires es != [] && HasDue(n, es) && !Due(n, es[0]) && Transit(k) == Transit(n)
    ensures HasDue(k, es[1..])
  {
    hide Transit;
    var i :| 0 <= i < |es| && Due(n, es[i]);
    assert es[1..][i - 1] == es[i];
    assert Due(k, es[1..][i - 1]);
  }

  /** Both sides are processed and both directions deliver, in any order and any number of times. */
  predicate FairRound(es: seq<Event>) {
    && (exists i :: 0 <= i < |es| && es[i].ClientTick?)
    && (exists i :: 0 <= i < |es| && es[i].ServerTick?)
    && (exists i :: 0 <= i < |es| && es[i].ArriveAtServer?)
    && (exists i :: 0 <= i < |es| && es[i].ArriveAtClient?)
  }

  lemma FairHasDue(n: Net, es: seq<Event>)
    requires FairRound(es)
    ensures HasDue(n, es)
  {
    match Transit(n)
    case 4 =>
      var i :| 0 <= i < |es| && es[i].ArriveAtServer?;
      assert Due(n, es[i]);
    case 3 =>
      var i :| 0 <= i < |es| && es[i].ServerTick?;
      assert Due(n, es[i]);
    case 2 =>
      var i :| 0 <= i < |es| && es[i].ArriveAtClient?;
      assert Due(n, es[i]);
    case _ =>
      var i :| 0 <= i < |es| && es[i].ClientTick?;
      assert Due(n, es[i]);
  }

  function Flatten(rounds: seq<seq<Event>>): seq<Event> {
    if rounds == [] then [] else rounds[0] + Flatten(rounds[1..])
  }

  lemma {:induction false} RunSplits(n: Net, a: seq<Event>, b: seq<Event>)
    requires Sound(n)
    ensures Sound(NetRun(n, a))
    ensures NetRun(n, a + b) == NetRun(NetRun(n, a), b)
    ensures CalmRun(n, a + b) <==> CalmRun(n, a) && CalmRun(NetRun(n, a), b)
    ensures Sent(n, a + b) == Sent(n, a) + Sent(NetRun(n, a), b)
    decreases |a|
  {
    hide NetStep, Sound, Calm, Sends;
    if a == [] {
      assert a + b == b;
    } else {
      StepSound(n, a[0]);
      assert (a + b)[1..] == a[1..] + b;
      RunSplits(NetStep(n, a[0]), a[1..], b);
    }
  }

  lemma {:induction false} FairRunFinishes(n: Net, rounds: seq<seq<Event>>, t: Task)
    requires ValidTask(t) && OnTrack(n, t) && CalmRun(n, Flatten(rounds))
    requires forall i :: 0 <= i < |rounds| ==> FairRound(rounds[i])
    requires |rounds| >= Left(n, t)
    ensures var m := NetRun(n, Flatten(rounds)); OnTrack(m, t) && Left(m, t) <= 0
    decreases |rounds|
  {
    hide Sound, DownOnTrack, UpOnTrack, Left, FairRound, HasDue, ValidTask;
    if rounds != [] {
      RunSplits(n, rounds[0], Flatten(rounds[1..]));
      RunMoves(n, rounds[0], t);
      FairHasDue(n, rounds[0]);
      FairRunFinishes(NetRun(n, rounds[0]), rounds[1..], t);
    }
  }

  /* ---- when a run is calm: nothing is lost and less time passes than the sides allow ---- */

  function Elapsed(es: seq<Event>): nat {
    if es == [] then 0
    else (match es[0] case ClientTick(k) => k case ServerTick(k) => k case _ => 0) + Elapsed(es[1..])
  }

  predicate Lossless(es: seq<Event>) {
    forall i :: 0 <= i < |es| ==> !es[i].LoseToServer? && !es[i].LoseToClient?
  }

  /** Neither timer can expire within the given time. */
  predicate Patient(n: Net, time: nat) {
    && (if n.c.timer > 1 then n.c.timer else 1) + time <= n.c.allowed <= 65535
    && (if n.s.timer > 1 then n.s.timer else 1) + time <= n.s.allowed <= 65535
  }

  lemma ClientDownTimer(c: Client)
    requires ClientInv(c)
    ensures var r := DownRequest(c).c; r.timer <= 1 && r.allowed == c.allowed
    ensures c.state == CDownResponse && c.timer == 0
        ==> (var r := DownResponse(c).c; r.timer <= 1 && r.allowed == c.allowed)
    ensures c.state == CDownSegment && c.timer == 0
        ==> (var r := DownSegmentResponse(c).c; r.timer <= 1 && r.allowed == c.allowed)
  {
    hide Put, Pack32, Word16, Expedited, LastSegment, Command, ToggleOf;
  }

  lemma ClientUpTimer(c: Client)
    requires ClientInv(c)
    ensures var r := UpRequest(c).c; r.timer <= 1 && r.allowed == c.allowed
    ensures c.timer == 0 ==> (var r := UpResponse(c).c; r.timer <= 1 && r.allowed == c.allowed)
  {
    hide Put, Splice, Pack32, Word32, Word16, Command, ExpeditedSize;
  }

  lemma ClientUpSegmentTimer(c: Client)
    requires ClientInv(c) && c.state == CUpSegment && c.timer == 0
    ensures var r := UpSegmentResponse(c).c; r.timer <= 1 && r.allowed == c.allowed
  {
    hide Put, Splice, Pack32, Command, ToggleOf;
  }

  /** A request is pending only in a state that sends it, so that only new frames reach the response handlers. */
  ghost predicate Consistent(c: Client) {
    c.internal ==> c.state == CDownRequest || c.state == CUpRequest || c.state == CIdle
  }

  lemma InternalCleared(c: Client)
    requires ClientInv(c)
    ensures !DownRequest(c).c.internal && !UpRequest(c).c.internal
    ensures c.state == CDownResponse && !c.internal ==> !DownResponse(c).c.internal
    ensures c.state == CDownSegment && !c.internal ==> !DownSegmentResponse(c).c.internal
  {
    hide Put, Pack32, Word16, Expedited, LastSegment, Command, ToggleOf;
  }

  lemma InternalKept(c: Client)
    requires ClientInv(c) && !c.internal
    ensures !UpResponse(c).c.internal
    ensures c.state == CUpSegment ==> !UpSegmentResponse(c).c.internal
  {
    hide Put, Splice, Pack32, Word32, Word16, Command, ExpeditedSize, ToggleOf;
  }

  lemma ClientConsistent(c: Client, elapsed: nat)
    requires ClientInv(c) && Consistent(c)
    ensures Consistent(ClientProcess(c, elapsed).c)
  {
    hide DownRequest, DownResponse, DownSegmentResponse, UpRequest, UpResponse, UpSegmentResponse, Word32, Command;
    var c1 := if c.timer > 0 then c.(timer := Advance(c.timer, elapsed)) else c;
    var c2 := if c1.isNew then c1.(timer := 0) else c1;
    InternalCleared(c2);
    if !c2.internal {
      InternalKept(c2);
    }
  }

  lemma ClientTimer(c: Client, elapsed: nat)
    requires ClientInv(c) && Consistent(c) && c.timer + elapsed <= 65535
    ensures var r := ClientProcess(c, elapsed).c;
      r.allowed == c.allowed && (r.timer <= 1 || r.timer <= c.timer + elapsed)
  {
    hide DownRequest, DownResponse, DownSegmentResponse, UpRequest, UpResponse, UpSegmentResponse, Word32, Command;
    var c1 := if c.timer > 0 then c.(timer := Advance(c.timer, elapsed)) else c;
    var c2 := if c1.isNew then c1.(timer := 0) else c1;
    ClientDownTimer(c2);
    ClientUpTimer(c2);
    if c2.state == CUpSegment && c1.isNew {
      ClientUpSegmentTimer(c2);
    }
  }

  lemma ServerDownTimer(s: Server)
    requires Engaged(s) && s.timer == 0
    ensures s.state == SDownInit ==> (var r := DownInit(s).s; r.timer <= 1 && r.allowed == s.allowed)
    ensures s.state == SDownSegment ==> (var r := DownSegment(s).s; r.timer <= 1 && r.allowed == s.allowed)
  {
    hide Put, Splice, Pack32, Word32, Word16, WithSub, SoundSub, Command, ToggleOf, ExpeditedSize;
  }

  lemma ServerUpTimer(s: Server)
    requires Engaged(s) && s.timer == 0
    ensures s.state == SUpInit ==> (var r := UpInit(s).s; r.timer <= 1 && r.allowed == s.allowed)
    ensures s.state == SUpSegment ==> (var r := UpSegment(s).s; r.timer <= 1 && r.allowed == s.allowed)
  {
    hide Put, Splice, Pack32, Word32, Word16, WithSub, SoundSub, Command, ToggleOf, ExpeditedSize;
  }

  lemma FirstFrameTimer(s: Server)
    requires WellFormed(s.od) && s.timer == 0
    ensures var f := FirstFrame(s); f.s.timer == 0 && f.s.allowed == s.allowed && (f.out.None? ==> Engaged(f.s))
  {
    FirstFrameSafe(s);
    hide Put, Pack32, Word16, Lookup, WellFormed, Engaged;
  }

  lemma ServerTimer(s: Server, elapsed: nat)
    requires ServerInv(s) && s.timer + elapsed <= 65535
    ensures var r := ServerProcess(s, elapsed).s;
      r.allowed == s.allowed && (r.timer <= 1 || r.timer <= s.timer + elapsed)
  {
    hide DownInit, DownSegment, UpInit, UpSegment, FirstFrame, WellFormed, Engaged, Word32, Command;
    var s1 := (if s.timer > 0 then s.(timer := Advance(s.timer, elapsed)) else s).(timer := 0);
    if s.state == SIdle {
      FirstFrameTimer(s1);
      var f := FirstFrame(s1);
      if f.out.None? {
        ServerDownTimer(f.s);
        ServerUpTimer(f.s);
      }
    } else {
      EngagedAgain(s, s1);
      ServerDownTimer(s1);
      ServerUpTimer(s1);
    }
  }

  lemma EngagedAgain(s: Server, t: Server)
    requires Engaged(s) && t == s.(timer := t.timer)
    ensures Engaged(t)
  {}

  lemma {:induction false} PromptIsCalm(n: Net, es: seq<Event>)
    requires Sound(n) && Consistent(n.c) && Lossless(es) && Patient(n, Elapsed(es))
    ensures CalmRun(n, es)
    decreases |es|
  {
    hide ClientInv, ServerInv, ClientProcess, ServerProcess;
    if es != [] {
      match es[0] {
        case ClientTick(k) =>
          ClientTimer(n.c, k);
          ClientConsistent(n.c, k);
        case ServerTick(k) => ServerTimer(n.s, k);
        case _ =>
      }
      StepSound(n, es[0]);
      PromptIsCalm(NetStep(n, es[0]), es[1..]);
    }
  }

  /* ---- results ---- */

  ghost predicate Started(n: Net, t: Task) {
    match t
    case Download(j) => DownloadStart(n, j)
    case Upload(j, buffer) => UploadStart(n, j, buffer)
  }

  /** The object holds what was sent, or the buffer what was asked for. */
  ghost predicate Transferred(n: Net, t: Task)
    requires ValidTask(t)
  {
    match t
    case Download(j) => n.s.od == Downloaded(j)
    case Upload(j, buffer) => n.c.data == j.data + buffer[|j.data|..]
  }

  /** Two frames to begin with, and two for each segment. */
  function FramesFor(t: Task): nat {
    2 + 2 * (if |t.j.data| <= 4 then 0 else Segments(|t.j.data|))
  }

  lemma StartIsOnTrack(n: Net, t: Task)
    requires ValidTask(t) && Started(n, t)
    ensures OnTrack(n, t) && Left(n, t) == 2 * FramesFor(t) + 1 && FramesIn(Left(n, t)) == FramesFor(t)
  {
    hide Sound, ValidDownload, ValidUpload, Segments;
  }

  lemma FinishMeans(n: Net, t: Task)
    requires ValidTask(t) && OnTrack(n, t) && n.c.state == CIdle
    ensures n.c.status == Success && Transferred(n, t)
  {
    hide Sound, ValidDownload, ValidUpload, Downloaded;
    if t.Upload? {
      UploadSizes(t.j, t.buffer);
      assert t.j.data[..|t.j.data|] == t.j.data;
    }
  }

  /** Without losses, and with both sides patient enough, any sufficiently long fair schedule ends
      in success with the data transferred, and takes exactly the frames that their length calls for. */
  lemma TransferSucceeds(n: Net, rounds: seq<seq<Event>>, t: Task)
    requires ValidTask(t) && Started(n, t)
    requires Lossless(Flatten(rounds)) && Patient(n, Elapsed(Flatten(rounds)))
    requires forall i :: 0 <= i < |rounds| ==> FairRound(rounds[i])
    requires |rounds| >= 2 * FramesFor(t) + 1
    ensures Sound(n)
    ensures var m := NetRun(n, Flatten(rounds));
      && m.c.state == CIdle && m.c.status == Success && Transferred(m, t)
      && Sent(n, Flatten(rounds)) == FramesFor(t)
  {
    hide Sound, ValidTask, Left, FairRound, FramesIn, FramesFor, Patient, Lossless, Transferred, DownOnTrack, UpOnTrack;
    StartIsOnTrack(n, t);
    assert Consistent(n.c);
    PromptIsCalm(n, Flatten(rounds));
    FairRunFinishes(n, rounds, t);
    RunMoves(n, Flatten(rounds), t);
    var m := NetRun(n, Flatten(rounds));
    LeftPositive(m, t);
    FinishMeans(m, t);
    assert FramesIn(0) == 0 by { FramesStep(0); }
  }
}
