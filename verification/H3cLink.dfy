/** The C implementation of the data plane, updating its own fields and the receive buffer in place.

    Every method is proved to do to `View()` what the function of the same name in `Link` does. */
module H3cLink {
  import opened Wrappers
  import opened Wire
  import opened Link

  // ---------------------------------------------------------------------
  // What the parsing loop has done so far

  /** Of the stream decoding to `all`, the frames `done` are dealt with, as the two counters say, and `rest` is to
      come. */
  ghost predicate Progress(all: Decoded, rest: Decoded, done: seq<Raw>, allocs: nat, queued: nat, work: nat) {
    && all == Decoded(done + rest.raws, rest.tail)
    && queued == |Packets(done)| <= allocs
    && work == |Frames(done)|
    && Handled(all.raws, allocs) == |done| + Handled(rest.raws, allocs - queued)
  }

  lemma ProgressStart(all: Decoded, allocs: nat)
    ensures Progress(all, all, [], allocs, 0, 0)
    ensures Packets([]) == []
  {
  }

  lemma HandledFirst(head: Raw, rs: seq<Raw>, left: nat)
    requires head.kind == TYPE_IPV4 ==> left > 0
    ensures Handled([head] + rs, left) == 1 + Handled(rs, if head.kind == TYPE_IPV4 then left - 1 else left)
  {
  }

  lemma ProgressStep(all: Decoded, here: Bytes, done: seq<Raw>, allocs: nat, queued: nat, work: nat)
    requires Ready(here) && Progress(all, Decode(here), done, allocs, queued, work)
    requires Kind(here) == TYPE_IPV4 ==> queued < allocs
    ensures var head := Head(here);
            var isPacket := head.kind == TYPE_IPV4;
            && Progress(all, Decode(Rest(here)), done + [head], allocs,
                        if isPacket then queued + 1 else queued, work + |Classify(head)|)
            && Packets(done + [head]) == Packets(done) + (if isPacket then [head.payload] else [])
  {
    var head, rest := Head(here), Decode(Rest(here));
    assert done + ([head] + rest.raws) == done + [head] + rest.raws;
    HandledFirst(head, rest.raws, allocs - queued);
    PacketsAppend(done, [head]);
    FramesAppend(done, [head]);
    assert [head][1..] == [];
  }

  lemma ProgressStop(bytes: Bytes, rest: Bytes, done: seq<Raw>, allocs: nat, queued: nat, work: nat)
    requires Progress(Decode(bytes), Decode(rest), done, allocs, queued, work)
    requires Ready(rest) ==> Kind(rest) == TYPE_IPV4 && queued == allocs
    ensures queued == |Packets(done)|
    ensures Parse(bytes, allocs) ==
            Parsed(Packets(done), rest,
                   if Ready(rest) then NoMemory else if Oversized(rest) then TooLarge else NoError,
                   work)
  {
    DecodeSound(rest);
    var more := Decode(rest).raws;
    var raws := done + more;
    assert raws[..|done|] == done && raws[|done|..] == more;
    if !Ready(rest) {
      assert more == [];
    }
  }

  /** Classifying by bytes, as the parser does. */
  lemma RecogniseHead(b: Bytes)
    requires Ready(b)
    ensures (b[0] == 2 && b[1] == 2 && PayloadLen(b) == 0) ==> |Classify(Head(b))| == 1 && Kind(b) != TYPE_IPV4
    ensures Kind(b) == TYPE_IPV4 ==> |Classify(Head(b))| == 1
    ensures !(b[0] == 2 && b[1] == 2 && PayloadLen(b) == 0) && Kind(b) != TYPE_IPV4 ==> Classify(Head(b)) == []
  {
  }

  /** Reading the header in place. */
  lemma HereInBuffer(buf: array<byte>, len: nat, off: nat)
    requires off + 4 <= len <= buf.Length
    ensures var here := buf[..len][off..];
            && here[0] == buf[off] && here[1] == buf[off + 1]
            && here[2] == buf[off + 2] && here[3] == buf[off + 3]
            && PayloadLen(here) == 256 * buf[off + 2] as int + buf[off + 3] as int
            && Kind(here) == buf[off] as int + 256 * buf[off + 1] as int
    ensures var here := buf[..len][off..];
            Ready(here) ==>
              && Head(here).payload == buf[off + 4..off + 4 + PayloadLen(here)]
              && Rest(here) == buf[..len][off + 4 + PayloadLen(here)..]
  {
    var here := buf[..len][off..];
    if Ready(here) {
      var plen := PayloadLen(here);
      assert forall k :: off <= k < len ==> here[k - off] == buf[k];
      assert here[4..4 + plen] == buf[off + 4..off + 4 + plen];
      assert here[4 + plen..] == buf[..len][off + 4 + plen..];
    }
  }

  // ---------------------------------------------------------------------
  // The connection

  class H3cLink {
    // transport state kept by the library
    var mtu: nat
    var cstpPkt: array?<byte>
    var partialRecSize: nat
    var incomingQueue: seq<Packet>
    var outgoingQueue: seq<Packet>
    var currentSslPkt: Option<Packet>
    var quitReason: bool

    // protocol state kept by the H3C code
    var keepaliveTime: int
    var lastRx: int
    var lastTx: int
    var txOffset: nat
    const hbBuf: array<byte>
    var hbOffset: nat
    var hbPending: bool

    // history
    ghost var received: Bytes
    ghost var before: seq<Packet>
    ghost var wire: Bytes
    ghost var dataWire: Bytes
    ghost var items: seq<Item>
    ghost var closed: seq<Session>

    ghost predicate Valid()
      reads this, hbBuf, cstpPkt
    {
      && hbBuf.Length == 4
      && (hbPending ==> hbBuf[..] == KEEPALIVE_REQUEST)
      && (cstpPkt == null ==> partialRecSize == 0)
      && (cstpPkt != null ==>
            cstpPkt != hbBuf && cstpPkt.Length == ReceiveMtu(mtu) && partialRecSize <= cstpPkt.Length)
      && OffsetsInRange(TxView())
    }

    ghost function RxView(): Rx
      requires cstpPkt != null ==> partialRecSize <= cstpPkt.Length
      reads this, cstpPkt
    {
      Rx(mtu, cstpPkt != null, if cstpPkt == null then [] else cstpPkt[..partialRecSize],
         incomingQueue, lastRx, received, before)
    }

    ghost function TxView(): Tx
      reads this
    {
      Tx(currentSslPkt, txOffset, outgoingQueue, hbPending, hbOffset, lastTx, wire, dataWire, items)
    }

    ghost function View(): Conn
      requires cstpPkt != null ==> partialRecSize <= cstpPkt.Length
      reads this, cstpPkt
    {
      Conn(keepaliveTime, RxView(), TxView(), quitReason, closed)
    }

    constructor (mtu: nat, keepaliveTime: int, at: int)
      ensures Valid() && fresh(hbBuf) && cstpPkt == null
      ensures Fresh(View())
      ensures View().keepaliveTime == keepaliveTime && View().rx.mtu == mtu
      ensures View().rx.lastRx == at && View().tx.lastTx == at
      ensures View().rx.incoming == [] && View().tx.outgoing == []
    {
      this.mtu, this.keepaliveTime := mtu, keepaliveTime;
      cstpPkt, partialRecSize := null, 0;
      incomingQueue, outgoingQueue := [], [];
      currentSslPkt, txOffset := None, 0;
      hbBuf := new byte[4];
      hbOffset, hbPending := 0, false;
      lastRx, lastTx := at, at;
      quitReason := false;
      received, before, wire, dataWire, items, closed := [], [], [], [], [], [];
    }

    /** The parsing loop: queue every complete packet at the front of the buffer and say where it stopped. */
    method ScanFrames(allocs: nat) returns (off: nat, error: ParseError, queued: nat, work: nat)
      requires cstpPkt != null && partialRecSize <= cstpPkt.Length
      modifies this`incomingQueue
      ensures off <= partialRecSize
      ensures var p := Parse(cstpPkt[..partialRecSize], allocs);
              && incomingQueue == old(incomingQueue) + p.queued
              && cstpPkt[..partialRecSize][off..] == p.rest
              && error == p.error && work == p.work && queued == |p.queued|
    {
      hide Decode, Handled, Packets, EncodeAll, Parse, Progress, Classify;
      var buf, len := cstpPkt, partialRecSize;
      off, error, queued, work := 0, NoError, 0, 0;
      ghost var bytes := buf[..len];
      ghost var all := Decode(bytes);
      ghost var done: seq<Raw> := [];
      ghost var here := bytes;
      ProgressStart(all, allocs);
      while len - off >= 4
        invariant off <= len && here == bytes[off..]
        invariant error == NoError && queued <= allocs
        invariant Progress(all, Decode(here), done, allocs, queued, work)
        invariant incomingQueue == old(incomingQueue) + Packets(done)
        decreases len - off
      {
        HereInBuffer(buf, len, off);
        var plen := 256 * buf[off + 2] as int + buf[off + 3] as int;
        if plen > MAX_FRAME_LEN {
          error := TooLarge;
          break;
        }
        if len - off < 4 + plen {
          break;
        }
        RecogniseHead(here);
        var isPacket := buf[off] as int + 256 * buf[off + 1] as int == TYPE_IPV4;
        if isPacket && queued == allocs {
          error := NoMemory;
          break;
        }
        ProgressStep(all, here, done, allocs, queued, work);
        done, here := done + [Head(here)], Rest(here);
        if buf[off] == 0x02 && buf[off + 1] == 0x02 && plen == 0 {
          work := work + 1;
        } else if isPacket {
          incomingQueue := incomingQueue + [buf[off + 4..off + 4 + plen]];
          queued, work := queued + 1, work + 1;
        }
        off := off + 4 + plen;
      }
      ProgressStop(bytes, here, done, allocs, queued, work);
    }

    /** The end of `h3c_parse_frames`: what was not parsed moves to the front of the buffer. */
    method Compact(off: nat)
      requires Valid() && cstpPkt != null && off <= partialRecSize
      modifies this`partialRecSize, cstpPkt
      ensures Valid()
      ensures RxView() == old(RxView()).(partial := old(RxView()).partial[off..])
    {
      var buf := cstpPkt;
      if off > 0 {
        forall k | 0 <= k < partialRecSize - off {
          buf[k] := buf[k + off];
        }
        assert buf[..partialRecSize - off] == old(buf[off..partialRecSize]);
        partialRecSize := partialRecSize - off;
      }
    }

    /** `h3c_parse_frames`: queue every complete packet, then move the rest to the front of the buffer. */
    method ParseFrames(allocs: nat) returns (error: ParseError, queued: nat, work: nat)
      requires Valid() && cstpPkt != null
      modifies this`incomingQueue, this`partialRecSize, cstpPkt
      ensures Valid()
      ensures var p := Parse(old(RxView().partial), allocs);
              RxView() == AfterParse(old(RxView()), p) && error == p.error && work == p.work && queued == |p.queued|
    {
      var off;
      off, error, queued, work := ScanFrames(allocs);
      Compact(off);
    }

    /** One non-blocking read of `bytes` into the free part of the buffer. */
    method StoreRead(bytes: Bytes, at: int)
      requires Valid() && cstpPkt != null && partialRecSize + |bytes| <= cstpPkt.Length
      modifies this`partialRecSize, this`lastRx, this`received, cstpPkt
      ensures Valid()
      ensures RxView() == Received(old(RxView()), bytes, at)
    {
      var buf := cstpPkt;
      forall k | 0 <= k < |bytes| {
        buf[partialRecSize + k] := bytes[k];
      }
      ghost var n := partialRecSize;
      assert buf[..n] == old(buf[..n]);
      assert forall k :: n <= k < n + |bytes| ==> buf[k] == bytes[k - n];
      assert buf[..n + |bytes|] == buf[..n] + bytes;
      partialRecSize := partialRecSize + |bytes|;
      lastRx := at;
      received := received + bytes;
    }

    /** The receive buffer is allocated when it is first needed. */
    method EnsureBuffer()
      requires Valid()
      modifies this`cstpPkt, this`partialRecSize
      ensures Valid() && cstpPkt != null && (cstpPkt == old(cstpPkt) || fresh(cstpPkt))
      ensures RxView() == WithBuffer(old(RxView()))
    {
      if cstpPkt == null {
        cstpPkt := new byte[ReceiveMtu(mtu)];
        partialRecSize := 0;
      }
    }

    /** The body of the `while (readable)` loop; `stop` says whether and why it ends there. */
    method ReadTurn(net: Bytes, script: seq<ReadEvent>, bufferAlloc: bool, allocs: nat)
      returns (stop: Option<ReadStop>, used: nat, work: nat, left: nat)
      requires Valid()
      modifies this`cstpPkt, this`partialRecSize, this`incomingQueue, this`lastRx, this`received, cstpPkt
      ensures Valid() && (cstpPkt == old(cstpPkt) || fresh(cstpPkt))
      ensures Link.ReadTurn(old(RxView()), net, script, bufferAlloc, allocs) ==
              if stop.Some? then Stop(ReadResult(RxView(), used, stop.value, work))
              else Again(RxView(), used, work, left)
    {
      hide Parse, OffsetsInRange, ReceiveMtu;
      stop, used, work, left := None, 0, 0, allocs;
      if cstpPkt == null && !bufferAlloc {
        stop := Some(NoBuffer);
        return;
      }
      EnsureBuffer();
      ghost var rx0 := RxView();
      var capacity := ReceiveMtu(mtu);
      if partialRecSize >= capacity {
        stop := Some(Overflow);
        return;
      }
      if script == [] {
        stop := Some(Drained);
        return;
      }
      if script[0].ReadFails? {
        stop := Some(ReadError);
        return;
      }
      used := Min(script[0].limit, Min(capacity - partialRecSize, |net|));
      if used == 0 {
        stop := Some(Drained);
        return;
      }
      StoreRead(net[..used], script[0].at);
      ghost var rx1 := RxView();
      var error, queued;
      error, queued, work := ParseFrames(allocs);
      QueuedWithinBudget(rx1.partial, allocs);
      if error != NoError {
        stop := Some(ParserStopped(error));
        return;
      }
      left := allocs - queued;
    }

    /** The `while (readable)` loop. */
    method ReadLoop(net: Bytes, script: seq<ReadEvent>, bufferAlloc: bool, allocs: nat)
      returns (used: nat, stop: ReadStop, work: nat)
      requires Valid()
      modifies this`cstpPkt, this`partialRecSize, this`incomingQueue, this`lastRx, this`received, cstpPkt
      ensures Valid() && (cstpPkt == old(cstpPkt) || fresh(cstpPkt))
      ensures Link.ReadLoop(old(RxView()), net, script, bufferAlloc, allocs) == ReadResult(RxView(), used, stop, work)
    {
      hide Link.ReadTurn, OffsetsInRange, ReceiveMtu;
      var pending, turns, left := net, script, allocs;
      used, stop, work := 0, Drained, 0;
      ghost var goal := Link.ReadLoop(RxView(), net, script, bufferAlloc, allocs);
      while true
        invariant Valid() && (cstpPkt == old(cstpPkt) || fresh(cstpPkt))
        invariant goal == Shifted(Link.ReadLoop(RxView(), pending, turns, bufferAlloc, left), used, work)
        decreases |turns|
      {
        var stopped, n, more, rest := ReadTurn(pending, turns, bufferAlloc, left);
        used, work := used + n, work + more;
        if stopped.Some? {
          stop := stopped.value;
          return;
        }
        pending, turns, left := pending[n..], turns[1..], rest;
      }
    }

    // -------------------------------------------------------------------
    // Transmitting

    /** `h3c_write_data_frame`: offer the rest of the current frame to the socket. */
    method WriteDataFrame(write: WriteEvent, at: int) returns (ok: bool, work: nat)
      requires OffsetsInRange(TxView()) && currentSslPkt.Some?
      modifies this`currentSslPkt, this`txOffset, this`lastTx, this`wire, this`dataWire, this`items
      ensures TxResult(TxView(), ok, work) == WriteData(old(TxView()), write, at)
    {
      var packet := currentSslPkt.value;
      var frame := FrameOf(packet);
      var off := txOffset;
      ok, work := true, 0;
      if write.WriteFails? {
        return false, 0;
      }
      var accepted := Min(write.limit, |frame| - off);
      wire, dataWire := wire + frame[off..off + accepted], dataWire + frame[off..off + accepted];
      off := off + accepted;
      txOffset := off;
      if off == |frame| {
        lastTx := at;
        items := items + [Data(packet)];
        currentSslPkt := None;
        txOffset := 0;
        work := 1;
      }
    }

    /** `h3c_handle_outgoing`: dequeue a packet if none is in flight, then write. */
    method HandleOutgoing(write: WriteEvent, at: int) returns (ok: bool, work: nat)
      requires OffsetsInRange(TxView())
      modifies this`currentSslPkt, this`txOffset, this`outgoingQueue, this`lastTx, this`wire, this`dataWire, this`items
      ensures TxResult(TxView(), ok, work) == Link.HandleOutgoing(old(TxView()), write, at)
    {
      if currentSslPkt.None? {
        if outgoingQueue == [] {
          return true, 0;
        }
        currentSslPkt := Some(outgoingQueue[0]);
        outgoingQueue := outgoingQueue[1..];
        txOffset := 0;
      }
      ok, work := WriteDataFrame(write, at);
    }

    /** `h3c_start_keepalive`: fill the four-octet buffer and mark it pending. */
    method StartKeepalive()
      requires hbBuf.Length == 4
      modifies this`hbOffset, this`hbPending, hbBuf
      ensures hbBuf[..] == KEEPALIVE_REQUEST
      ensures TxView() == Link.StartKeepalive(old(TxView()))
    {
      hbBuf[0] := 0x02;
      hbBuf[1] := 0x00;
      hbBuf[2] := 0x00;
      hbBuf[3] := 0x00;
      hbOffset := 0;
      hbPending := true;
    }

    /** `h3c_write_keepalive`: offer the rest of the keepalive to the socket. */
    method WriteKeepalive(write: WriteEvent, at: int) returns (ok: bool, work: nat)
      requires hbBuf.Length == 4 && hbBuf[..] == KEEPALIVE_REQUEST && hbOffset <= 4
      modifies this`hbOffset, this`hbPending, this`lastTx, this`wire, this`items
      ensures TxResult(TxView(), ok, work) == Link.WriteKeepalive(old(TxView()), write, at)
    {
      var off := hbOffset;
      ok, work := true, 0;
      if write.WriteFails? {
        return false, 0;
      }
      var accepted := Min(write.limit, 4 - off);
      assert hbBuf[off..off + accepted] == KEEPALIVE_REQUEST[off..off + accepted];
      wire := wire + hbBuf[off..off + accepted];
      off := off + accepted;
      hbOffset := off;
      if off == 4 {
        lastTx := at;
        items := items + [Beat];
        hbPending := false;
        hbOffset := 0;
        work := 1;
      }
    }

    // -------------------------------------------------------------------
    // The main loop

    /** The start of `do_reconnect`: the packet in flight is freed and every offset reset. */
    method DropInFlight()
      requires Valid()
      modifies this`currentSslPkt, this`txOffset, this`hbPending, this`hbOffset,
               this`wire, this`dataWire, this`items, this`closed
      ensures Valid()
      ensures TxView() == CloseTx(old(TxView())) && closed == old(closed) + [SessionOf(old(TxView()))]
    {
      hide SessionOf, ReceiveMtu;
      closed := closed + [SessionOf(TxView())];
      currentSslPkt := None;
      txOffset, hbPending, hbOffset := 0, false, 0;
      wire, dataWire, items := [], [], [];
    }

    /** The receive half of the resets in `h3c_connect`. */
    method ResetReceive(at: int, newMtu: nat)
      modifies this`mtu, this`cstpPkt, this`partialRecSize, this`lastRx, this`received, this`before
      ensures cstpPkt == null && partialRecSize == 0
      ensures RxView() == Rx(newMtu, false, [], incomingQueue, at, [], incomingQueue)
    {
      mtu := newMtu;
      cstpPkt, partialRecSize := null, 0;
      lastRx := at;
      received, before := [], incomingQueue;
    }

    /** The transmit half of the resets in `h3c_connect`. */
    method ResetTransmit(at: int)
      modifies this`txOffset, this`hbOffset, this`hbPending, this`lastTx
      ensures TxView() == old(TxView()).(txOffset := 0, hbOffset := 0, hbPending := false, lastTx := at)
    {
      txOffset, hbOffset, hbPending := 0, 0, false;
      lastTx := at;
    }

    /** `do_reconnect`: drop what is in flight, then re-establish the session or give up. */
    method DoReconnect(event: ReconnectEvent) returns (outcome: Outcome)
      requires Valid()
      modifies this
      ensures Valid() && (cstpPkt == old(cstpPkt) || cstpPkt == null)
      ensures CallResult(View(), outcome) == Reconnect(old(View()), event)
    {
      DropInFlight();
      if event.ReconnectFails? {
        outcome := GiveUp();
      } else {
        outcome := Connect(event.at, event.mtu, event.keepaliveTime);
      }
    }

    /** The session could not be re-established. */
    method GiveUp() returns (outcome: Outcome)
      requires Valid()
      modifies this`quitReason
      ensures Valid()
      ensures CallResult(View(), outcome) == CallResult(old(View()).(quit := true), Quit)
    {
      quitReason := true;
      outcome := Quit;
    }

    /** The part of `h3c_connect` that follows the gateway's answer. */
    method Connect(at: int, newMtu: nat, newKeepaliveTime: int) returns (outcome: Outcome)
      requires Valid() && currentSslPkt.None?
      modifies this`mtu, this`keepaliveTime, this`cstpPkt, this`partialRecSize, this`txOffset, this`hbOffset,
               this`hbPending, this`lastRx, this`lastTx, this`received, this`before
      ensures Valid() && cstpPkt == null
      ensures View() == Restart(old(View()), at, newMtu, newKeepaliveTime) && outcome == Reconnected
    {
      hide FrameOf, ReceiveMtu;
      ResetReceive(at, newMtu);
      ResetTransmit(at);
      keepaliveTime := newKeepaliveTime;
      outcome := Reconnected;
    }

    /** The keepalive and dead-peer part of `h3c_mainloop`. */
    method Timers(now: int, beatWrite: WriteEvent, beatAt: int) returns (ok: bool, work: nat)
      requires Valid() && keepaliveTime > 0
      modifies this`hbOffset, this`hbPending, this`lastTx, this`wire, this`items, hbBuf
      ensures Valid()
      ensures var beat := Keepalive(old(TxView()), keepaliveTime, now, beatWrite, beatAt);
              && TxView() == beat.tx && work == beat.work
              && ok == (beat.ok && !PeerOverdue(keepaliveTime, lastRx, now))
    {
      var nextHb := lastTx + keepaliveTime;
      var dpdDue := lastRx + keepaliveTime * KEEPALIVE_MISS_LIMIT;
      ok, work := true, 0;
      KeepaliveKeepsOffsets(TxView(), keepaliveTime, now, beatWrite, beatAt);
      if hbPending {
        ok, work := WriteKeepalive(beatWrite, beatAt);
      } else if now >= nextHb {
        StartKeepalive();
        ok, work := WriteKeepalive(beatWrite, beatAt);
      }
      if now >= dpdDue {
        ok := false;
      }
    }

    /** The second half of `h3c_mainloop`: send, keep alive, detect a dead peer. */
    method SendPhase(i: Input) returns (ok: bool, work: nat)
      requires Valid()
      modifies this`currentSslPkt, this`txOffset, this`outgoingQueue, this`hbOffset, this`hbPending, this`lastTx,
               this`wire, this`dataWire, this`items, hbBuf
      ensures Valid()
      ensures TxResult(TxView(), ok, work) == Link.SendPhase(old(TxView()), keepaliveTime, lastRx, i)
    {
      hide Link.HandleOutgoing, Keepalive, PeerOverdue, FrameOf, ReceiveMtu, OffsetsInRange;
      OutgoingKeepsOffsets(TxView(), i.dataWrite, i.dataAt);
      ok, work := HandleOutgoing(i.dataWrite, i.dataAt);
      if ok && keepaliveTime > 0 {
        var beats;
        ok, beats := Timers(i.now, i.beatWrite, i.beatAt);
        work := work + beats;
      }
    }

    /** `h3c_mainloop` up to the point where it returns or goes to `do_reconnect`. */
    method TryCall(i: Input) returns (alive: bool, work: nat)
      requires Valid()
      modifies this, hbBuf, cstpPkt
      ensures Valid() && (cstpPkt == old(cstpPkt) || fresh(cstpPkt))
      ensures Attempt(View(), alive, work) == Link.TryCall(old(View()), i)
    {
      hide Link.ReadLoop, Link.SendPhase, FrameOf, ReceiveMtu, OffsetsInRange;
      alive, work := i.fdOpen, 0;
      if alive && i.readable {
        var used, stop;
        used, stop, work := ReadLoop(i.net, i.script, i.bufferAlloc, i.packetAllocs);
        alive := !MustReconnect(stop);
      }
      if alive {
        var sent;
        alive, sent := SendPhase(i);
        work := work + sent;
      }
    }

    /** `h3c_mainloop`: reconnect on any failure. */
    method Mainloop(i: Input) returns (outcome: Outcome)
      requires Valid()
      modifies this, hbBuf, cstpPkt
      ensures Valid() && (cstpPkt == old(cstpPkt) || cstpPkt == null || fresh(cstpPkt))
      ensures CallResult(View(), outcome) == Call(old(View()), i)
    {
      hide Link.TryCall, Reconnect, FrameOf, ReceiveMtu, OffsetsInRange;
      var alive, work := TryCall(i);
      if alive {
        outcome := Worked(work);
      } else {
        outcome := DoReconnect(i.reconnect);
      }
    }
  }
}
