/** The SDO client as an object whose handlers update its fields and the caller's buffer in place. */
module SdoClient {
  import opened Bytes
  import opened Sdo

  class Endpoint {
    var state: ClientState
    var internal: bool
    var index: nat
    var sub: nat
    var data: array<byte>   // the bytes to send, or the buffer to fill: it belongs to the caller
    var toggle: bool
    var offset: nat
    var size: nat
    const tx: array<byte>
    const rx: array<byte>
    var isNew: bool
    var timer: nat
    var allowed: nat
    var txAbort: nat
    var rxAbort: nat
    var status: Status

    ghost predicate Valid()
      reads this
    {
      tx.Length == 8 && rx.Length == 8 && tx != rx && data != tx && data != rx
    }

    ghost function View(): Client
      reads this, tx, rx, data
      requires Valid()
    {
      Client(state, internal, index, sub, data[..], toggle, offset, size, tx[..], rx[..], isNew, timer, allowed,
          txAbort, rxAbort, status)
    }

    /** Let the client work on the caller's bytes. */
    method Attach(d: array<byte>)
      requires Valid() && d != tx && d != rx
      modifies this`data
      ensures Valid() && data == d && View() == old(View()).(data := d[..])
    {
      data := d;
    }

    method Address(index: nat, sub: nat, allowed: nat)
      requires Valid()
      modifies this`index, this`sub, this`allowed
      ensures Valid() && View() == old(View()).(index := index, sub := sub, allowed := allowed)
    {
      this.index := index;
      this.sub := sub;
      this.allowed := allowed;
    }

    /** Begin to write the bytes of d to the object. */
    method Download(index: nat, sub: nat, d: array<byte>, allowed: nat)
      requires Valid() && d != tx && d != rx
      modifies this
      ensures Valid() && data == d && View() == StartDownload(old(View()), index, sub, d[..], allowed)
    {
      Address(index, sub, allowed);
      Attach(d);
      status := Busy;
      internal := true;
      state := CDownRequest;
    }

    /** Begin to read the object into d. */
    method Upload(index: nat, sub: nat, d: array<byte>, allowed: nat)
      requires Valid() && d != tx && d != rx
      modifies this
      ensures Valid() && data == d && View() == StartUpload(old(View()), index, sub, d[..], allowed)
    {
      Address(index, sub, allowed);
      Attach(d);
      status := Busy;
      internal := true;
      state := CUpRequest;
    }

    method Arrive(f: Frame)
      requires Valid()
      modifies this`isNew, rx
      ensures Valid() && View() == old(View()).(rx := f, isNew := true)
    {
      for i := 0 to 8
        invariant forall k :: 0 <= k < i ==> rx[k] == f[k]
      {
        rx[i] := f[i];
      }
      isNew := true;
      assert rx[..] == f;
    }

    method Fill(at: nat, b: seq<byte>)
      requires Valid() && at + |b| <= 8
      modifies tx
      ensures tx[..] == Put(old(tx[..]), at, b)
    {
      ghost var before := tx[..];
      for i := 0 to |b|
        invariant forall k :: 0 <= k < 8 ==> tx[k] == if at <= k < at + i then b[k - at] else before[k]
      {
        tx[at + i] := b[i];
      }
      assert tx[..] == Put(before, at, b);
    }

    method FillTail(b: seq<byte>)
      requires Valid() && |b| == 4
      modifies tx
      ensures tx[..] == old(tx[..])[..4] + b
    {
      Fill(4, b);
    }

    /** Copy received bytes into the buffer. */
    method Store(b: seq<byte>)
      requires Valid() && offset + |b| <= data.Length
      modifies data
      ensures data[..] == Splice(old(data[..]), offset, b)
    {
      ghost var before := data[..];
      for i := 0 to |b|
        invariant forall k :: 0 <= k < data.Length ==>
                    data[k] == if offset <= k < offset + i then b[k - offset] else before[k]
      {
        data[offset + i] := b[i];
      }
      assert data[..] == Splice(before, offset, b);
    }

    method Abort(code: nat)
      requires Valid()
      modifies this`txAbort, this`timer, this`isNew, this`internal, this`state, this`status
      ensures Valid() && data == old(data) && View() == AbortClient(old(View()), code)
    {
      txAbort := code;
      timer := 0;
      isNew := false;
      internal := false;
      state := CIdle;
      status := Aborted;
    }

    method AbortAndRespond(code: nat) returns (out: Option<Frame>)
      requires Valid() && code < 0x1_0000_0000
      modifies this, tx
      ensures Valid() && data == old(data) && ClientStep(View(), out) == Reject(old(View()), code)
    {
      Fill(0, [ABORT]);
      FillTail(Pack32(code));
      out := Some(tx[..]);
      Abort(code);
    }

    /** Send the frame and wait for the answer. */
    method Continue(next: ClientState) returns (out: Option<Frame>)
      requires Valid()
      modifies this`timer, this`state, this`status
      ensures Valid() && ClientStep(View(), out) == Ask(old(View()), next)
    {
      timer := 1;
      out := Some(tx[..]);
      state := next;
      status := Busy;
    }

    method Complete() returns (out: Option<Frame>)
      requires Valid()
      modifies this`state, this`status
      ensures Valid() && ClientStep(View(), out) == Succeed(old(View()))
    {
      out := None;
      state := CIdle;
      status := Success;
    }

    method Begin()
      requires Valid() && index <= 65535 && sub <= 255
      modifies this`toggle, this`offset, this`internal, tx
      ensures Valid() && View() == StartRequest(old(View()))
    {
      toggle := false;
      offset := 0;
      internal := false;
      Fill(1, [index % 256, index / 256, sub]);
    }

    method DownloadRequest() returns (out: Option<Frame>)
      requires Valid() && ClientInv(View())
      modifies this, tx
      ensures Valid() && data == old(data) && ClientStep(View(), out) == DownRequest(old(View()))
    {
      hide Put, Expedited;
      Begin();
      ghost var v := View();
      size := data.Length;
      assert View() == v.(size := |v.data|);
      if size <= 4 {
        Fill(0, [Expedited(1, size)]);
        Fill(4, data[..]);
      } else {
        Fill(0, [33]);
        FillTail(Pack32(size));
      }
      out := Continue(CDownResponse);
    }

    method SendSegment() returns (out: Option<Frame>)
      requires Valid() && offset <= size == data.Length
      modifies this, tx
      ensures Valid() && data == old(data) && ClientStep(View(), out) == NextSegment(old(View()))
    {
      hide Put, LastSegment;
      ghost var v := View();
      if size <= offset + 7 {
        Fill(1, data[offset..]);
        assert data[offset..] == v.data[offset..];
        Fill(0, [LastSegment(toggle, size - offset)]);
        offset := size;
      } else {
        Fill(1, data[offset..offset + 7]);
        assert data[offset..offset + 7] == v.data[offset..offset + 7];
        Fill(0, [ToggleBit(toggle)]);
        offset := offset + 7;
      }
      assert View() == v.(tx := tx[..], offset := offset);
      out := Continue(CDownSegment);
    }

    method DownloadResponse() returns (out: Option<Frame>)
      requires Valid() && ClientInv(View()) && state == CDownResponse
      modifies this, tx
      ensures Valid() && data == old(data) && ClientStep(View(), out) == DownResponse(old(View()))
    {
      hide NextSegment, Reject;
      if rx[0] / 32 != 3 {
        out := AbortAndRespond(AB_NO_RESOURCE);
        return;
      }
      if rx[1] as int + rx[2] as int * 256 != index || rx[3] != sub {
        out := AbortAndRespond(AB_PRAM_INCOMPAT);
        return;
      }
      if size <= 4 {
        out := Complete();
      } else {
        out := SendSegment();
      }
    }

    method DownloadSegmentResponse() returns (out: Option<Frame>)
      requires Valid() && ClientInv(View()) && state == CDownSegment
      modifies this, tx
      ensures Valid() && data == old(data) && ClientStep(View(), out) == DownSegmentResponse(old(View()))
    {
      hide NextSegment, Reject;
      ghost var v := View();
      if rx[0] / 32 != 1 {
        out := AbortAndRespond(AB_NO_RESOURCE);
        return;
      }
      if ((rx[0] / 16) % 2 == 1) != toggle {
        out := AbortAndRespond(AB_TOGGLE_BIT);
        return;
      }
      toggle := !toggle;
      assert View() == v.(toggle := !v.toggle);
      if size <= offset {
        out := Complete();
      } else {
        out := SendSegment();
      }
    }

    method UploadRequest() returns (out: Option<Frame>)
      requires Valid() && ClientInv(View())
      modifies this, tx
      ensures Valid() && data == old(data) && ClientStep(View(), out) == UpRequest(old(View()))
    {
      hide Put;
      Begin();
      Fill(0, [64]);
      out := Continue(CUpResponse);
    }

    /** The answer carries the bytes itself. */
    method TakeExpedited() returns (out: Option<Frame>)
      requires Valid()
      modifies this, data
      ensures Valid() && data == old(data)
      ensures var c, n := old(View()), ExpeditedSize(old(rx[..]));
        ClientStep(View(), out) ==
        if |c.data| < n then ClientStep(AbortClient(c.(size := n), AB_OUT_OF_MEM), None)
        else Succeed(c.(size := n, data := Splice(c.data, 0, c.rx[4..4 + n]), offset := n))
    {
      hide Splice;
      ghost var v := View();
      size := 4 - (rx[0] / 4) % 4;
      out := None;
      if data.Length < size {
        Abort(AB_OUT_OF_MEM);
        return;
      }
      offset := 0;
      Store(rx[4..4 + size]);
      assert rx[4..4 + size] == v.rx[4..4 + size];
      offset := size;
      out := Complete();
    }

    /** The answer announces segments. */
    method OpenSegmented() returns (out: Option<Frame>)
      requires Valid()
      modifies this, tx
      ensures Valid() && data == old(data)
      ensures var c, n := old(View()), Word32(old(rx[..])) % 0x1_0000;
        ClientStep(View(), out) ==
        if |c.data| < n then Reject(c.(size := n), AB_OUT_OF_MEM)
        else Ask(c.(size := n, offset := 0, tx := Put(c.tx, 0, [96])), CUpSegment)
    {
      hide Put, Reject, Word32;
      ghost var v := View();
      size := Word32(rx[..]) % 0x1_0000;
      assert View() == v.(size := Word32(v.rx) % 0x1_0000);
      if data.Length < size {
        out := AbortAndRespond(AB_OUT_OF_MEM);
        return;
      }
      offset := 0;
      Fill(0, [96]);
      out := Continue(CUpSegment);
    }

    method UploadResponse() returns (out: Option<Frame>)
      requires Valid() && ClientInv(View()) && state == CUpResponse
      modifies this, tx, data
      ensures Valid() && data == old(data) && ClientStep(View(), out) == UpResponse(old(View()))
    {
      hide Put, Reject, Word32, Splice, ExpeditedSize, AbortClient, Succeed, Ask;
      if rx[0] / 32 != 2 {
        out := AbortAndRespond(AB_NO_RESOURCE);
      } else if rx[1] as int + rx[2] as int * 256 != index || rx[3] != sub {
        out := AbortAndRespond(AB_PRAM_INCOMPAT);
      } else if rx[0] % 4 == 3 {
        out := TakeExpedited();
      } else if rx[0] % 4 == 1 {
        out := OpenSegmented();
      } else {
        out := AbortAndRespond(AB_TYPE_MISMATCH);
      }
    }

    /** Append the first n bytes of a segment to the buffer. */
    method TakeBytes(n: nat)
      requires Valid() && n <= 7 && offset + n <= data.Length
      modifies this`offset, data
      ensures Valid()
      ensures View() == var c := old(View()); c.(data := Splice(c.data, c.offset, c.rx[1..1 + n]),
          offset := c.offset + n)
    {
      hide Splice;
      ghost var v := View();
      Store(rx[1..1 + n]);
      assert rx[1..1 + n] == v.rx[1..1 + n];
      offset := offset + n;
    }

    /** A segment that is not the last one, and the request for the next. */
    method TakeMiddle() returns (out: Option<Frame>)
      requires Valid() && offset + 7 <= data.Length && state == CUpSegment
      modifies this, tx, data
      ensures Valid() && data == old(data)
      ensures var c := old(View());
        ClientStep(View(), out) ==
        if IsLast(c.rx) then Reject(c, AB_GENERAL)
        else Ask(c.(data := Splice(c.data, c.offset, c.rx[1..8]), offset := c.offset + 7,
                    tx := Put(c.tx, 0, [96 + ToggleBit(c.toggle)])), CUpSegment)
    {
      hide Put, Reject, Splice, Ask;
      if rx[0] % 2 == 1 {
        out := AbortAndRespond(AB_GENERAL);
        return;
      }
      TakeBytes(7);
      Fill(0, [96 + ToggleBit(toggle)]);
      out := Continue(state);
    }

    method UploadSegmentResponse() returns (out: Option<Frame>)
      requires Valid() && ClientInv(View()) && state == CUpSegment
      modifies this, tx, data
      ensures Valid() && data == old(data) && ClientStep(View(), out) == UpSegmentResponse(old(View()))
    {
      hide Put, Reject, Splice, Succeed, Ask;
      ghost var v := View();
      if rx[0] / 32 != 0 {
        out := AbortAndRespond(AB_NO_RESOURCE);
        return;
      }
      if ((rx[0] / 16) % 2 == 1) != toggle {
        out := AbortAndRespond(AB_TOGGLE_BIT);
        return;
      }
      toggle := !toggle;
      assert View() == v.(toggle := !v.toggle);
      if size <= offset + 7 {
        if rx[0] % 2 != 1 {
          out := AbortAndRespond(AB_GENERAL);
          return;
        }
        TakeBytes(size - offset);
        out := Complete();
      } else {
        out := TakeMiddle();
      }
    }

    /** Run the handler of the state. */
    method Handle() returns (out: Option<Frame>)
      requires Valid() && ClientInv(View())
      modifies this, tx, data
      ensures Valid() && data == old(data) && ClientStep(View(), out) == Dispatch(old(View()))
    {
      hide DownRequest, DownResponse, DownSegmentResponse, UpRequest, UpResponse, UpSegmentResponse, ClientInv;
      match state {
        case CDownRequest => out := DownloadRequest();
        case CDownResponse => out := DownloadResponse();
        case CDownSegment => out := DownloadSegmentResponse();
        case CUpRequest => out := UploadRequest();
        case CUpResponse => out := UploadResponse();
        case CUpSegment => out := UploadSegmentResponse();
        case CIdle => out := None;
      }
    }

    method Process(elapsed: nat) returns (out: Option<Frame>)
      requires Valid() && ClientInv(View())
      modifies this, tx, data
      ensures Valid() && data == old(data) && ClientStep(View(), out) == ClientProcess(old(View()), elapsed)
    {
      hide Dispatch, Word32, Advance, ClientInv;
      ghost var v := View();
      out := None;
      if state == CIdle {
        return;
      }
      if timer > 0 {
        timer := Advance(timer, elapsed);
        if timer > allowed {
          Abort(AB_TIMEOUT);
          return;
        }
      }
      ghost var w := View();
      assert w == v.(timer := w.timer);
      TimerPlaysNoPart(v, w);
      if !isNew && !internal {
        status := Busy;
        return;
      }
      out := Answer();
    }

    /** A frame has arrived, or a request is to be sent. */
    method Answer() returns (out: Option<Frame>)
      requires Valid() && ClientInv(View())
      modifies this, tx, data
      ensures Valid() && data == old(data) && ClientStep(View(), out) == OnEvent(old(View()))
    {
      hide Dispatch, Word32, ClientInv;
      ghost var v := View();
      if isNew {
        timer := 0;
        if rx[0] / 32 == 4 {
          rxAbort := Word32(rx[..]);
          isNew := false;
          state := CIdle;
          status := Aborted;
          return None;
        }
      }
      TimerPlaysNoPart(v, View());
      out := Handle();
      isNew := false;
    }
  }

  lemma TimerPlaysNoPart(c: Client, d: Client)
    requires ClientInv(c) && d == c.(timer := d.timer)
    ensures ClientInv(d)
  {}
}
