/** The frames of the SDO client byte by byte, with the codes of CiA 301, section 7.2.4.3, given literally. */
module SdoRequests {
  import opened Bytes
  import opened ObjectDictionary
  import opened Sdo
  import opened SdoReplies

  /** The answer is for another object. */
  predicate Elsewhere(c: Client) {
    Little16(c.rx, 1) != c.index || c.rx[3] != c.sub
  }

  /** The code with which the client has to give up: another answer than the one due, or for another object; the wrong
      toggle bit; more data than the buffer holds, or their size is not given; the end too early or too late. */
  predicate ClientObjection(c: Client, code: nat) {
    var f := c.rx;
    var cs, how, toggle := f[0] / 32, f[0] % 4, (f[0] / 16) % 2;
    match c.state
    case CDownResponse =>
      if cs != 3 then code == 0x060A0023 else Elsewhere(c) && code == 0x06040043
    case CDownSegment =>
      if cs != 1 then code == 0x060A0023 else toggle != (if c.toggle then 1 else 0) && code == 0x05030000
    case CUpResponse =>
      if cs != 2 then code == 0x060A0023
      else if Elsewhere(c) then code == 0x06040043
      else if how == 3 then |c.data| < 4 - (f[0] / 4) % 4 && code == 0x05040005
      else if how == 1 then |c.data| < Little32(f, 4) % 65536 && code == 0x05040005
      else code == 0x06070010
    case CUpSegment =>
      if cs != 0 then code == 0x060A0023
      else if toggle != (if c.toggle then 1 else 0) then code == 0x05030000
      else (f[0] % 2 == 1) != (c.size <= c.offset + 7) && code == 0x08000000
    case _ => false
  }

  /** The client aborts the transfer; only of an expedited answer that is too long it does not tell the server. */
  predicate GivesUp(c: Client, r: ClientStep, code: nat) {
    && r.c.state == CIdle && r.c.status == Aborted && r.c.txAbort == code && r.c.data == c.data && !r.c.isNew
    && if c.state == CUpResponse && code == 0x05040005 && c.rx[0] % 4 == 3 then r.out.None?
       else r.out.Some? && AbortFrame(r.out.value, code)
  }

  /** The first request of a transfer, for the object. */
  predicate Addresses(c: Client, f: Sdo.Frame) {
    Little16(f, 1) == c.index && f[3] as int == c.sub
  }

  predicate Waits(r: ClientStep, state: ClientState) {
    r.c.state == state && r.c.timer == 1 && r.c.status == Busy && r.out.Some? && !r.c.isNew
  }

  /** A download is announced; up to four bytes go with the request, otherwise their number. */
  predicate DownRequested(c: Client, r: ClientStep) {
    var n := |c.data|;
    && Waits(r, CDownResponse) && Addresses(c, r.out.value) && r.c.data == c.data && r.c.size == n
    && r.c.offset == 0 && !r.c.toggle && !r.c.internal
    && if n <= 4 then
         && r.out.value[0] as int == 0x23 + 4 * (if n == 0 then 0 else 4 - n)
         && r.out.value[4..4 + n] == c.data
       else r.out.value[0] == 0x21 && Little32(r.out.value, 4) == n
  }

  predicate UpRequested(c: Client, r: ClientStep) {
    && Waits(r, CUpResponse) && Addresses(c, r.out.value) && r.out.value[0] == 0x40
    && r.c.data == c.data && !r.c.toggle && !r.c.internal
  }

  /** The segment at an offset goes out; the last one tells how many of its bytes do not count. */
  predicate SegmentOut(c: Client, r: ClientStep, toggle: bool)
    requires c.offset <= c.size == |c.data|
  {
    var last := c.size <= c.offset + 7;
    var k := if last then c.size - c.offset else 7;
    && Waits(r, CDownSegment) && r.c.data == c.data && r.c.size == c.size && r.c.offset == c.offset + k
    && r.c.toggle == toggle
    && r.out.value[0] as int == (if toggle then 0x10 else 0) + (if last then 2 * (7 - k) + 1 else 0)
    && r.out.value[1..1 + k] == c.data[c.offset..c.offset + k]
  }

  predicate Succeeded(r: ClientStep) {
    r.out.None? && r.c.state == CIdle && r.c.status == Success && !r.c.isNew
  }

  /** A segment of an upload is stored at the offset; unless it was the last one, the next is asked for with the
      other toggle bit. */
  predicate SegmentIn(c: Client, r: ClientStep)
    requires c.offset <= c.size <= |c.data|
  {
    var last := c.size <= c.offset + 7;
    var k := if last then c.size - c.offset else 7;
    && r.c.data == c.data[..c.offset] + c.rx[1..1 + k] + c.data[c.offset + k..]
    && if last then Succeeded(r)
       else
         && Waits(r, CUpSegment) && r.out.value[0] == (if c.toggle then 0x60 else 0x70)
         && r.c.offset == c.offset + 7 && r.c.size == c.size && r.c.toggle != c.toggle
  }

  /** What the client does with an answer that it does not object to. */
  predicate Proceeds(c: Client, r: ClientStep)
    requires ClientInv(c)
  {
    match c.state
    case CDownRequest => DownRequested(c, r)
    case CUpRequest => UpRequested(c, r)
    case CDownResponse => if |c.data| <= 4 then Succeeded(r) && r.c.data == c.data else SegmentOut(c, r, c.toggle)
    case CDownSegment =>
      if c.size <= c.offset then Succeeded(r) && r.c.data == c.data else SegmentOut(c, r, !c.toggle)
    case CUpResponse =>
      if c.rx[0] % 4 == 3 then
        var n := 4 - (c.rx[0] / 4) % 4;
        n <= |c.data| && Succeeded(r) && r.c.data == c.rx[4..4 + n] + c.data[n..] && r.c.size == n
      else
        && Waits(r, CUpSegment) && r.out.value[0] == 0x60 && r.c.data == c.data
        && r.c.size == Little32(c.rx, 4) % 65536 && r.c.offset == 0 && r.c.toggle == c.toggle
    case CUpSegment => SegmentIn(c, r)
    case CIdle => r.out.None?
  }

  lemma RejectIs(c: Client, code: nat)
    requires code < 0x1_0000_0000
    ensures var r := Reject(c, code);
      && r.out.Some? && AbortFrame(r.out.value, code) && r.c.data == c.data
      && r.c.state == CIdle && r.c.status == Aborted && r.c.txAbort == code && !r.c.isNew
  {
    var tx := Put(c.tx, 0, [ABORT]);
    PackedBehind(tx[..4] + Pack32(code), tx[..4], code);
    hide Pack32;
  }

  /** What a handler leaves once its frame has been taken. */
  function Taken(r: ClientStep): ClientStep {
    r.(c := r.c.(isNew := false))
  }

  lemma GivesUpIs(c: Client, code: nat)
    requires ClientInv(c) && ClientObjection(c, code)
    ensures GivesUp(c, Taken(Dispatch(c)), code)
  {
    hide Reject, AbortFrame, Put;
    RejectIs(c, code);
    if c.state == CUpResponse {
      RejectIs(c.(size := Word32(c.rx) % 0x1_0000), code);
    } else if c.state == CUpSegment {
      RejectIs(c.(toggle := !c.toggle), code);
    }
  }

  lemma RequestParts(c: Client)
    requires c.index <= 65535 && c.sub <= 255
    ensures var tx := StartRequest(c).tx; Little16(tx, 1) == c.index && tx[3] as int == c.sub
  {
    var m := [c.index % 256, c.index / 256, c.sub];
    var tx := Put(c.tx, 1, m);
    assert tx[1..4] == m;
    assert tx[1] == m[0] && tx[2] == m[1] && tx[3] == m[2];
  }

  lemma DownRequestIs(c: Client)
    requires ClientInv(c)
    ensures DownRequested(c, Taken(DownRequest(c)))
  {
    RequestParts(c);
    var n := |c.data|;
    var t := StartRequest(c);
    if n > 4 {
      var tx := Put(t.tx, 0, [33]);
      PackedBehind(tx[..4] + Pack32(n), tx[..4], n);
    }
    hide Put, Pack32;
  }

  lemma UpRequestIs(c: Client)
    requires ClientInv(c)
    ensures UpRequested(c, Taken(UpRequest(c)))
  {
    RequestParts(c);
  }

  lemma NextSegmentIs(c: Client)
    requires c.offset <= c.size == |c.data|
    ensures SegmentOut(c, Taken(NextSegment(c)), c.toggle)
  {
    hide Put;
    if c.size <= c.offset + 7 {
      assert c.data[c.offset..] == c.data[c.offset..c.size];
      SegmentFrame(c.tx, c.data[c.offset..c.size], LastSegment(c.toggle, c.size - c.offset));
    } else {
      SegmentFrame(c.tx, c.data[c.offset..c.offset + 7], ToggleBit(c.toggle));
    }
  }

  /** A segment's bytes behind its command byte. */
  lemma SegmentFrame(tx: Sdo.Frame, d: seq<byte>, first: byte)
    requires |d| <= 7
    ensures var f := Put(Put(tx, 1, d), 0, [first]); f[0] == first && f[1..1 + |d|] == d
  {
    PutFirst(Put(tx, 1, d), first);
    hide Put;
  }

  lemma DownResponseTaken(c: Client)
    requires ClientInv(c) && (c.state == CDownResponse || c.state == CDownSegment)
    requires forall code: nat :: !ClientObjection(c, code)
    ensures Dispatch(c) ==
      if c.state == CDownResponse then if c.size <= 4 then Succeed(c) else NextSegment(c)
      else
        var t := c.(toggle := !c.toggle);
        if c.size <= c.offset then Succeed(t) else NextSegment(t)
  {
    assert !ClientObjection(c, 0x060A0023) && !ClientObjection(c, 0x06040043) && !ClientObjection(c, 0x05030000);
    hide Reject, NextSegment, Succeed;
  }

  lemma DownResponseIs(c: Client)
    requires ClientInv(c) && (c.state == CDownResponse || c.state == CDownSegment)
    requires forall code: nat :: !ClientObjection(c, code)
    ensures Proceeds(c, Taken(Dispatch(c)))
  {
    hide Reject, NextSegment, SegmentOut, Dispatch, ClientObjection;
    DownResponseTaken(c);
    var t := if c.state == CDownSegment then c.(toggle := !c.toggle) else c;
    if c.offset <= c.size == |c.data| {
      NextSegmentIs(t);
      SegmentSame(c, t, Taken(NextSegment(t)));
    }
  }

  lemma SegmentSame(c: Client, t: Client, r: ClientStep)
    requires c.offset <= c.size == |c.data| && t == c.(toggle := t.toggle)
    ensures SegmentOut(t, r, t.toggle) == SegmentOut(c, r, t.toggle)
  {}

  lemma UpResponseIs(c: Client)
    requires ClientInv(c) && c.state == CUpResponse && forall code: nat :: !ClientObjection(c, code)
    ensures Proceeds(c, Taken(Dispatch(c)))
  {
    assert !ClientObjection(c, 0x060A0023) && !ClientObjection(c, 0x06040043);
    assert !ClientObjection(c, 0x05040005) && !ClientObjection(c, 0x06070010);
    PutFirst(c.tx, 96);
    hide Reject, Put;
  }

  lemma LastIn(c: Client)
    requires ClientInv(c) && c.state == CUpSegment && c.size <= c.offset + 7
    ensures var k := c.size - c.offset;
      var t := c.(toggle := !c.toggle, data := Splice(c.data, c.offset, c.rx[1..1 + k]), offset := c.size);
      SegmentIn(c, Taken(Succeed(t)))
  {}

  lemma MoreIn(c: Client)
    requires ClientInv(c) && c.state == CUpSegment && c.offset + 7 < c.size
    ensures var t := c.(toggle := !c.toggle, data := Splice(c.data, c.offset, c.rx[1..8]), offset := c.offset + 7,
                        tx := Put(c.tx, 0, [96 + ToggleBit(!c.toggle)]));
      SegmentIn(c, Taken(Ask(t, CUpSegment)))
  {
    PutFirst(c.tx, 96 + ToggleBit(!c.toggle));
    hide Put;
  }

  /** What the client does with a segment that it does not object to. */
  lemma UpSegmentTaken(c: Client)
    requires ClientInv(c) && c.state == CUpSegment && forall code: nat :: !ClientObjection(c, code)
    ensures UpSegmentResponse(c) ==
      if c.size <= c.offset + 7 then
        Succeed(c.(toggle := !c.toggle, data := Splice(c.data, c.offset, c.rx[1..1 + (c.size - c.offset)]),
                   offset := c.size))
      else
        Ask(c.(toggle := !c.toggle, data := Splice(c.data, c.offset, c.rx[1..8]), offset := c.offset + 7,
               tx := Put(c.tx, 0, [96 + ToggleBit(!c.toggle)])), CUpSegment)
  {
    assert !ClientObjection(c, 0x060A0023) && !ClientObjection(c, 0x05030000) && !ClientObjection(c, 0x08000000);
    hide Reject, Put, Splice, Ask, Succeed;
  }

  lemma UpSegmentIs(c: Client)
    requires ClientInv(c) && c.state == CUpSegment && forall code: nat :: !ClientObjection(c, code)
    ensures Proceeds(c, Taken(Dispatch(c)))
  {
    hide Reject, Put, SegmentIn, Splice, Ask, Succeed, Taken, UpSegmentResponse, ClientObjection;
    UpSegmentTaken(c);
    if c.size <= c.offset + 7 {
      LastIn(c);
    } else {
      MoreIn(c);
    }
  }

  lemma ProceedsIs(c: Client)
    requires ClientInv(c) && forall code: nat :: !ClientObjection(c, code)
    ensures Proceeds(c, Taken(Dispatch(c)))
  {
    match c.state
    case CDownRequest =>
      DownRequestIs(c);
      hide DownRequest, DownRequested;
    case CUpRequest =>
      UpRequestIs(c);
      hide UpRequest, UpRequested;
    case CDownResponse => DownResponseIs(c);
    case CDownSegment => DownResponseIs(c);
    case CUpResponse => UpResponseIs(c);
    case CUpSegment => UpSegmentIs(c);
    case CIdle =>
  }

  /** The client meets the standard on every frame and at every moment: it gives up, without a frame, what takes
      too long; an abort from the server ends the transfer; it objects to what is objectionable with the code
      for it, and otherwise goes on with the next frame that is due. */
  lemma ClientConforms(c: Client, elapsed: nat)
    requires ClientInv(c)
    ensures var r := ClientProcess(c, elapsed);
      if c.state == CIdle then r == ClientStep(c, None)
      else if Expired(c.timer, elapsed, c.allowed) then
        && r.out == None && r.c.data == c.data && r.c.state == CIdle && r.c.txAbort == 0x05040000
        && r.c.status == Aborted
      else if !c.isNew && !c.internal then
        && r.out == None && r.c.data == c.data && r.c.state == c.state && r.c.status == Busy
        && r.c.timer == if c.timer == 0 then 0 else (c.timer + elapsed) % 65536
      else if c.isNew && c.rx[0] / 32 == 4 then
        && r.out == None && r.c.data == c.data && r.c.state == CIdle && !r.c.isNew
        && r.c.rxAbort == Little32(c.rx, 4) && r.c.status == Aborted
      else
        && (forall code: nat :: ClientObjection(c, code) ==> GivesUp(c, r, code))
        && ((forall code: nat :: !ClientObjection(c, code)) ==> Proceeds(c, r))
  {
    hide Dispatch, ClientObjection, GivesUp, Proceeds;
    if c.state != CIdle && !Expired(c.timer, elapsed, c.allowed) && (c.isNew || c.internal)
       && !(c.isNew && c.rx[0] / 32 == 4) {
      var t := c.(timer := if c.isNew then 0 else if c.timer > 0 then Advance(c.timer, elapsed) else 0);
      assert ClientProcess(c, elapsed) == Taken(Dispatch(t));
      hide ClientProcess;
      ObjectionSame(c, t);
      forall code: nat | ClientObjection(c, code)
        ensures GivesUp(c, Taken(Dispatch(t)), code)
      {
        GivesUpIs(t, code);
        GivesUpSame(c, t, Taken(Dispatch(t)), code);
      }
      if forall code: nat :: !ClientObjection(c, code) {
        ProceedsIs(t);
        ProceedsSame(c, t, Taken(Dispatch(t)));
      }
    }
  }

  lemma ObjectionSame(c: Client, t: Client)
    requires t == c.(timer := t.timer)
    ensures forall code: nat :: ClientObjection(t, code) == ClientObjection(c, code)
  {}

  lemma GivesUpSame(c: Client, t: Client, r: ClientStep, code: nat)
    requires t == c.(timer := t.timer)
    ensures GivesUp(t, r, code) == GivesUp(c, r, code)
  {}

  lemma ProceedsSame(c: Client, t: Client, r: ClientStep)
    requires ClientInv(c) && ClientInv(t) && t == c.(timer := t.timer)
    ensures Proceeds(t, r) == Proceeds(c, r)
  {
    PartsSame(c, t, r);
    hide DownRequested, UpRequested, SegmentOut, SegmentIn;
  }

  lemma PartsSame(c: Client, t: Client, r: ClientStep)
    requires t == c.(timer := t.timer)
    ensures DownRequested(t, r) == DownRequested(c, r) && UpRequested(t, r) == UpRequested(c, r)
    ensures c.offset <= c.size == |c.data| ==>
      && SegmentOut(t, r, c.toggle) == SegmentOut(c, r, c.toggle)
      && SegmentOut(t, r, !c.toggle) == SegmentOut(c, r, !c.toggle)
    ensures c.offset <= c.size <= |c.data| ==> SegmentIn(t, r) == SegmentIn(c, r)
  {}
}
