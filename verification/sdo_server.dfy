/** The SDO server as an object whose handlers update its fields in place. */
module SdoServer {
  import opened Bytes
  import opened ObjectDictionary
  import opened Sdo
  import opened SdoSafety

  class Endpoint {
    var od: Dictionary
    var state: ServerState
    var target: Option<Place>
    var toggle: bool
    var offset: nat
    var size: nat
    const tx: array<byte>
    const rx: array<byte>
    var isNew: bool
    var timer: nat
    var allowed: nat
    var txAbort: nat
    var rxAbort: nat
    var status: Status

    ghost predicate Valid()
      reads this
    {
      tx.Length == 8 && rx.Length == 8 && tx != rx
    }

    /** The value that the fields hold together. */
    ghost function View(): Server
      reads this, tx, rx
      requires Valid()
    {
      Server(od, state, target, toggle, offset, size, tx[..], rx[..], isNew, timer, allowed, txAbort, rxAbort, status)
    }

    constructor (od: Dictionary, allowed: nat)
      ensures Valid() && fresh(tx) && fresh(rx)
      ensures View() == Server(od, SIdle, None, false, 0, 0, tx[..], rx[..], false, 0, allowed, 0, 0, Idle)
    {
      this.od, state, target, toggle, offset, size := od, SIdle, None, false, 0, 0;
      isNew, timer, txAbort, rxAbort, status := false, 0, 0, 0, Idle;
      this.allowed := allowed;
      tx := new byte[8];
      rx := new byte[8];
    }

    /** A frame from the bus replaces the one received last. */
    method Arrive(f: Frame)
      requires Valid()
      modifies this`isNew, rx
      ensures Valid() && View() == old(View()).(rx := f, isNew := true)
    {
      for i := 0 to 8
        invariant forall k :: 0 <= k < i ==> rx[k] == f[k]
      {
        rx[i] := f[i];
      }
      isNew := true;
      assert rx[..] == f;
    }

    /** Overwrite the frame to be sent from position at on. */
    method Fill(at: nat, b: seq<byte>)
      requires Valid() && at + |b| <= 8
      modifies tx
      ensures tx[..] == Put(old(tx[..]), at, b)
    {
      ghost var before := tx[..];
      for i := 0 to |b|
        invariant forall k :: 0 <= k < 8 ==> tx[k] == if at <= k < at + i then b[k - at] else before[k]
      {
        tx[at + i] := b[i];
      }
      assert tx[..] == Put(before, at, b);
    }

    method Abort(code: nat)
      requires Valid()
      modifies this`txAbort, this`timer, this`isNew, this`state, this`status
      ensures Valid() && View() == AbortServer(old(View()), code)
    {
      txAbort := code;
      timer := 0;
      isNew := false;
      state := SIdle;
      status := Aborted;
    }

    method AbortAndRespond(code: nat) returns (out: Option<Frame>)
      requires Valid() && code < 0x1_0000_0000
      modifies this, tx
      ensures Valid() && ServerStep(View(), out) == Refuse(old(View()), code)
    {
      Fill(0, [ABORT]);
      Fill(4, Pack32(code));
      assert tx[..] == Put(old(tx[..]), 0, [ABORT])[..4] + Pack32(code);
      out := Some(tx[..]);
      Abort(code);
    }

    /** Find the object addressed, check that it may be accessed, and choose the handler. */
    method ProcessFirst() returns (out: Option<Frame>)
      requires Valid() && WellFormed(od)
      modifies this, tx
      ensures Valid() && ServerStep(View(), out) == FirstFrame(old(View()))
    {
      out := None;
      var cs := rx[0] / 32;
      if cs != 1 && cs != 2 {
        out := AbortAndRespond(AB_CMD);
        return;
      }
      target := GetSubObject(od, rx[1] as int + rx[2] as int * 256, rx[3]);
      if target.None? {
        out := AbortAndRespond(AB_SUB_UNKNOWN);
        return;
      }
      var x := SubAt(od, target.value);
      if cs == 1 {
        if !x.writable {
          out := AbortAndRespond(AB_UNSUPPORTED_ACCESS);
          return;
        }
        state := SDownInit;
      } else {
        if !x.readable {
          out := AbortAndRespond(AB_UNSUPPORTED_ACCESS);
          return;
        }
        state := SUpInit;
      }
    }

    /** Copy received bytes into the buffer of the target. */
    method Store(d: seq<byte>)
      requires Valid() && Engaged(View()) && offset + |d| <= |Target(View()).data|
      modifies this`od, this`offset
      ensures Valid() && View() == Receive(old(View()), d)
    {
      var x := SubAt(od, target.value);
      if x.temp.Some? {
        od := WithSub(od, target.value, x.(temp := Some(Splice(x.temp.value, offset, d))));
      } else {
        od := WithSub(od, target.value, x.(data := Splice(x.data, offset, d)));
      }
      offset := offset + |d|;
    }

    /** The received bytes take effect, the last response goes out. */
    method Finish() returns (out: Option<Frame>)
      requires Valid() && target.Some? && At(od, target.value)
      modifies this`od, this`state, this`status
      ensures Valid() && ServerStep(View(), out) == Finished(CommitTarget(old(View())))
    {
      var x := SubAt(od, target.value);
      if x.temp.Some? && !x.afterReset {
        od := WithSub(od, target.value, x.(data := x.temp.value));
      } else {
        assert WithSub(od, target.value, x) == od by { SameSub(od, target.value); }
      }
      out := Some(tx[..]);
      state := SIdle;
      status := Success;
    }

    method Begin()
      requires Valid()
      modifies this`toggle, this`offset, tx
      ensures Valid() && View() == StartTransfer(old(View()))
    {
      toggle := false;
      offset := 0;
      Fill(1, rx[1..4]);
      assert rx[1..4] == rx[..][1..4];
    }

    method DownloadInit() returns (out: Option<Frame>)
      requires Valid() && Engaged(View()) && state == SDownInit
      modifies this, tx
      ensures Valid() && ServerStep(View(), out) == DownInit(old(View()))
    {
      hide Put, Pack32, Word32, Splice, CommitTarget, Receive, Finished, Refuse, WellFormed;
      Begin();
      ghost var v := View();
      if rx[0] % 4 == 3 {
        out := TakeExpedited();
      } else if rx[0] % 4 == 1 {
        size := Word32(rx[..]) % 0x1_0000;
        ghost var w := View();
        assert w == v.(size := Word32(v.rx) % 0x1_0000);
        if |SubAt(od, target.value).data| < size {
          out := AbortAndRespond(AB_OUT_OF_MEM);
          return;
        }
        offset := 0;
        Fill(0, [96]);
        out := Continue(SDownSegment);
      } else {
        out := AbortAndRespond(AB_TYPE_MISMATCH);
      }
    }

    /** The bytes stand in the frame itself. */
    method TakeExpedited() returns (out: Option<Frame>)
      requires Valid() && Engaged(View()) && state == SDownInit && offset == 0
      modifies this, tx
      ensures Valid() && ServerStep(View(), out) == ExpeditedInit(old(View()))
    {
      hide Put, Splice, CommitTarget, Receive, Finished, Refuse, WellFormed, WithSub;
      ghost var v := View();
      size := 4 - (rx[0] / 4) % 4;
      ghost var w := View();
      assert w == v.(size := ExpeditedSize(v.rx));
      if |SubAt(od, target.value).data| < size {
        out := AbortAndRespond(AB_OUT_OF_MEM);
        return;
      }
      Store(rx[4..4 + size]);
      StillEngaged(w, rx[..][4..4 + size]);
      ghost var x := View();
      Fill(0, [96]);
      assert View() == x.(tx := Put(x.tx, 0, [96]));
      out := Finish();
    }

    /** Send the frame and wait for the next one. */
    method Continue(next: ServerState) returns (out: Option<Frame>)
      requires Valid()
      modifies this`timer, this`state, this`status
      ensures Valid() && ServerStep(View(), out) == Reply(old(View()).(state := next), 1)
    {
      timer := 1;
      out := Some(tx[..]);
      state := next;
      status := Busy;
    }

    method DownloadSegment() returns (out: Option<Frame>)
      requires Valid() && Engaged(View()) && state == SDownSegment
      modifies this, tx
      ensures Valid() && ServerStep(View(), out) == DownSegment(old(View()))
    {
      hide Put, Pack32, Splice, CommitTarget, Receive, Finished, Refuse, WellFormed;
      ghost var v := View();
      if rx[0] / 32 != 0 {
        out := AbortAndRespond(AB_NO_RESOURCE);
        return;
      }
      if ((rx[0] / 16) % 2 == 1) != toggle {
        out := AbortAndRespond(AB_TOGGLE_BIT);
        return;
      }
      if size <= offset + 7 {
        if rx[0] % 2 != 1 {
          out := AbortAndRespond(AB_GENERAL);
          return;
        }
        out := TakeLast();
      } else {
        if rx[0] % 2 == 1 {
          out := AbortAndRespond(AB_GENERAL);
          return;
        }
        out := TakeSegment();
      }
    }

    /** The last bytes of a download. */
    method TakeLast() returns (out: Option<Frame>)
      requires Valid() && Engaged(View()) && state == SDownSegment && size <= offset + 7
      modifies this, tx
      ensures Valid() && ServerStep(View(), out) == LastTaken(old(View()))
    {
      hide Put, Splice, CommitTarget, Receive, Finished, WellFormed, WithSub;
      ghost var v := View();
      StillEngaged(v, v.rx[1..1 + (size - offset)]);
      Store(rx[1..1 + (size - offset)]);
      ghost var x := View();
      Fill(0, [32 + ToggleBit(toggle)]);
      assert View() == x.(tx := Put(x.tx, 0, [32 + ToggleBit(v.toggle)]));
      out := Finish();
    }

    /** Seven bytes of a download that goes on. */
    method TakeSegment() returns (out: Option<Frame>)
      requires Valid() && Engaged(View()) && state == SDownSegment && offset + 7 < size
      modifies this, tx
      ensures Valid() && ServerStep(View(), out) == SegmentTaken(old(View()))
    {
      hide Put, Splice, Receive, WellFormed, WithSub;
      ghost var v := View();
      StillEngaged(v, v.rx[1..8]);
      Store(rx[1..8]);
      ghost var x := View();
      Fill(0, [32 + ToggleBit(toggle)]);
      assert View() == x.(tx := Put(x.tx, 0, [32 + ToggleBit(v.toggle)]));
      out := Continue(state);
      toggle := !toggle;
    }

    method UploadInit() returns (out: Option<Frame>)
      requires Valid() && Engaged(View()) && state == SUpInit
      modifies this, tx
      ensures Valid() && ServerStep(View(), out) == UpInit(old(View()))
    {
      hide Put, Splice, WellFormed, Expedited;
      Begin();
      ghost var v := View();
      var data := SubAt(od, target.value).data;
      size := |data|;
      assert View() == v.(size := |data|);
      if size <= 4 {
        Fill(0, [Expedited(2, size)]);
        Fill(4, data);
        out := Some(tx[..]);
        offset := size;
        state := SIdle;
        status := Success;
      } else {
        Fill(0, [65]);
        FillTail(Pack32(size));
        out := Continue(SUpSegment);
      }
    }

    /** Overwrite the last four bytes. */
    method FillTail(b: seq<byte>)
      requires Valid() && |b| == 4
      modifies tx
      ensures tx[..] == old(tx[..])[..4] + b
    {
      Fill(4, b);
    }

    method UploadSegment() returns (out: Option<Frame>)
      requires Valid() && Engaged(View()) && state == SUpSegment
      modifies this, tx
      ensures Valid() && ServerStep(View(), out) == UpSegment(old(View()))
    {
      hide Put, Pack32, Refuse, WellFormed, LastSegment;
      ghost var v := View();
      if rx[0] / 32 != 3 {
        out := AbortAndRespond(AB_NO_RESOURCE);
        return;
      }
      if ((rx[0] / 16) % 2 == 1) != toggle {
        out := AbortAndRespond(AB_TOGGLE_BIT);
        return;
      }
      if size <= offset + 7 {
        out := SendLast();
      } else {
        out := SendSegment();
      }
    }

    /** The last bytes of an upload. */
    method SendLast() returns (out: Option<Frame>)
      requires Valid() && Engaged(View()) && state == SUpSegment && size <= offset + 7
      modifies this, tx
      ensures Valid() && ServerStep(View(), out) == LastSent(old(View()))
    {
      hide Put, WellFormed, LastSegment, SubAt;
      var data := SubAt(od, target.value).data;
      Fill(1, data[offset..size]);
      Fill(0, [LastSegment(toggle, size - offset)]);
      out := Some(tx[..]);
      offset := size;
      toggle := !toggle;
      state := SIdle;
      status := Success;
    }

    /** Seven bytes of an upload that goes on. */
    method SendSegment() returns (out: Option<Frame>)
      requires Valid() && Engaged(View()) && state == SUpSegment && offset + 7 < size
      modifies this, tx
      ensures Valid() && ServerStep(View(), out) == SegmentSent(old(View()))
    {
      hide Put, WellFormed, SubAt;
      var data := SubAt(od, target.value).data;
      Fill(1, data[offset..offset + 7]);
      Fill(0, [ToggleBit(toggle)]);
      offset := offset + 7;
      toggle := !toggle;
      out := Continue(state);
    }

    /** Run the handler of the state. */
    method Handle() returns (out: Option<Frame>)
      requires Valid() && Engaged(View()) && state != SIdle
      modifies this, tx
      ensures Valid() && ServerStep(View(), out) == Settle(HandlerOf(old(View())))
    {
      hide DownInit, DownSegment, UpInit, UpSegment, Engaged;
      match state {
        case SDownInit => out := DownloadInit();
        case SDownSegment => out := DownloadSegment();
        case SUpInit => out := UploadInit();
        case SUpSegment => out := UploadSegment();
      }
      isNew := false;
      if state == SIdle {
        status := Idle;
      }
    }

    method Process(elapsed: nat) returns (out: Option<Frame>)
      requires Valid() && ServerInv(View())
      modifies this, tx
      ensures Valid() && ServerStep(View(), out) == ServerProcess(old(View()), elapsed)
    {
      hide DownInit, DownSegment, UpInit, UpSegment, FirstFrame, Word32, Advance, Engaged, WellFormed;
      ghost var v := View();
      out := None;
      if timer > 0 {
        timer := Advance(timer, elapsed);
        if timer > allowed {
          Abort(AB_TIMEOUT);
          return;
        }
      }
      ghost var w := View();
      assert w == v.(timer := w.timer);
      TimerPlaysNoPart(v, w);
      if !isNew {
        status := if state == SIdle then Idle else Busy;
        return;
      }
      out := Answer();
    }

    /** A frame has arrived. */
    method Answer() returns (out: Option<Frame>)
      requires Valid() && ServerInv(View())
      modifies this, tx
      ensures Valid() && ServerStep(View(), out) == OnFrame(old(View()))
    {
      hide DownInit, DownSegment, UpInit, UpSegment, FirstFrame, Word32, Engaged, WellFormed;
      ghost var v := View();
      out := None;
      timer := 0;
      if rx[0] / 32 == 4 {
        rxAbort := Word32(rx[..]);
        isNew := false;
        state := SIdle;
        status := Aborted;
        return;
      }
      ghost var w := View();
      assert w == v.(timer := 0);
      if state == SIdle {
        FirstFrameSafe(w);
        out := ProcessFirst();
        if out.Some? {
          return;
        }
      } else {
        TimerPlaysNoPart(v, w);
      }
      out := Handle();
    }
  }

  ghost function HandlerOf(s: Server): ServerStep
    requires Engaged(s) && s.state != SIdle
  {
    match s.state
    case SDownInit => DownInit(s)
    case SDownSegment => DownSegment(s)
    case SUpInit => UpInit(s)
    case SUpSegment => UpSegment(s)
  }

  lemma StillEngaged(s: Server, d: seq<byte>)
    requires Engaged(s) && s.offset + |d| <= |Target(s).data|
    ensures var r := Receive(s, d);
      r == s.(od := r.od, offset := s.offset + |d|) && r.target.Some? && At(r.od, r.target.value)
  {}

  lemma TimerPlaysNoPart(s: Server, t: Server)
    requires t == s.(timer := t.timer)
    ensures Engaged(s) ==> Engaged(t)
    ensures ServerInv(s) ==> ServerInv(t)
  {}

  lemma SameSub(od: Dictionary, p: Place)
    requires At(od, p)
    ensures WithSub(od, p, SubAt(od, p)) == od
  {
    var o := od.objects[p.no];
    assert o.subs[p.sub := o.subs[p.sub]] == o.subs;
    assert od.objects[p.no := o] == od.objects;
  }
}
