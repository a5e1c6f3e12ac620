/** What one call of the main loop brings about: which bytes go out and come in, what the clocks show, when the call
    reconnects and in what state a reconnect leaves the connection. */
module CallEffects {
  import opened Wrappers
  import opened Wire
  import opened Link
  import opened Transmit
  import opened Receive
  import opened PeerDetection

  // ---------------------------------------------------------------------
  // Keepalives

  /** A keepalive that is pending, or due, goes on from where it stopped: the socket gets the next octets of
      `02 00 00 00`; when the last one is accepted, it is finished and the transmit clock is set. */
  lemma DueKeepaliveGoesOut(tx: Tx, keepaliveTime: int, now: int, write: WriteEvent, at: int)
    requires OffsetsInRange(tx) && write.Took?
    requires tx.hbPending || now >= tx.lastTx + keepaliveTime
    ensures var r := Keepalive(tx, keepaliveTime, now, write, at);
            var off := if tx.hbPending then tx.hbOffset else 0;
            && r.ok && r.tx.current == tx.current && r.tx.txOffset == tx.txOffset && r.tx.outgoing == tx.outgoing
            && if write.limit >= 4 - off then
                 && r.tx.wire == tx.wire + [2, 0, 0, 0][off..]
                 && !r.tx.hbPending && r.tx.hbOffset == 0 && r.tx.lastTx == at && r.tx.items == tx.items + [Beat]
               else
                 && r.tx.wire == tx.wire + [2, 0, 0, 0][off..off + write.limit]
                 && r.tx.hbPending && r.tx.hbOffset == off + write.limit
                 && r.tx.lastTx == tx.lastTx && r.tx.items == tx.items
  {
    assert KEEPALIVE_REQUEST[tx.hbOffset..4] == [2, 0, 0, 0][tx.hbOffset..];
    assert KEEPALIVE_REQUEST[0..4] == [2, 0, 0, 0][0..];
  }

  /** Otherwise none is written; and only a failing write fails. */
  lemma KeepaliveNotDue(tx: Tx, keepaliveTime: int, now: int, write: WriteEvent, at: int)
    requires OffsetsInRange(tx)
    ensures !tx.hbPending && now < tx.lastTx + keepaliveTime ==>
              Keepalive(tx, keepaliveTime, now, write, at) == TxResult(tx, true, 0)
    ensures Keepalive(tx, keepaliveTime, now, write, at).ok
            <==> write.Took? || (!tx.hbPending && now < tx.lastTx + keepaliveTime)
  {
  }

  /** A pending keepalive goes out in the first call that reaches the timers and accepts its octets... */
  lemma PendingGoesOut(c: Conn, i: Input)
    requires OffsetsInRange(c.tx) && c.tx.hbPending && c.keepaliveTime > 0
    requires i.fdOpen && !MustReconnect(ReadPhase(c, i).stop) && HandleOutgoing(c.tx, i.dataWrite, i.dataAt).ok
    requires i.beatWrite.Took? && i.beatWrite.limit >= 4 - c.tx.hbOffset
    ensures var out, tx := HandleOutgoing(c.tx, i.dataWrite, i.dataAt).tx, TryCall(c, i).conn.tx;
            && !tx.hbPending && tx.lastTx == i.beatAt && tx.items == out.items + [Beat]
            && tx.wire == out.wire + [2, 0, 0, 0][c.tx.hbOffset..]
  {
    hide ReadPhase, PeerOverdue, HandleOutgoing, Keepalive;
    OutgoingKeepsBeat(c.tx, i.dataWrite, i.dataAt);
    OutgoingKeepsOffsets(c.tx, i.dataWrite, i.dataAt);
    DueKeepaliveGoesOut(HandleOutgoing(c.tx, i.dataWrite, i.dataAt).tx, c.keepaliveTime, i.now, i.beatWrite, i.beatAt);
  }

  lemma OutgoingKeepsBeat(tx: Tx, write: WriteEvent, at: int)
    requires OffsetsInRange(tx)
    ensures var out := HandleOutgoing(tx, write, at).tx; out.hbPending == tx.hbPending && out.hbOffset == tx.hbOffset
  {
    hide FrameOf;
  }

  /** ... and stays pending through calls that do not reconnect and accept none of it. */
  lemma PendingStays(c: Conn, i: Input)
    requires OffsetsInRange(c.tx) && c.tx.hbPending && TryCall(c, i).alive && i.beatWrite == Took(0)
    ensures var next := Call(c, i).conn;
            next.tx.hbPending && next.tx.hbOffset == c.tx.hbOffset && next.keepaliveTime == c.keepaliveTime
  {
    hide ReadPhase, PeerOverdue, HandleOutgoing, Keepalive;
    OutgoingKeepsBeat(c.tx, i.dataWrite, i.dataAt);
    OutgoingKeepsOffsets(c.tx, i.dataWrite, i.dataAt);
    DueKeepaliveGoesOut(HandleOutgoing(c.tx, i.dataWrite, i.dataAt).tx, c.keepaliveTime, i.now, i.beatWrite, i.beatAt);
  }

  // ---------------------------------------------------------------------
  // Data

  /** The packet a call works on: the one in flight, or the first of the queue. */
  function InHand(tx: Tx): Option<Packet> {
    if tx.current.Some? then tx.current else if tx.outgoing != [] then Some(tx.outgoing[0]) else None
  }

  /** The socket gets the next octets of the packet in hand, from where it stopped; when the last one is accepted, the
      packet is finished and the transmit clock is set. */
  lemma DataGoesOut(tx: Tx, write: WriteEvent, at: int)
    requires OffsetsInRange(tx) && InHand(tx).Some? && write.Took?
    ensures var r, packet := HandleOutgoing(tx, write, at), InHand(tx).value;
            var frame, off := Encode(Raw(1, packet)), tx.txOffset;
            && r.ok && r.tx.hbPending == tx.hbPending && r.tx.hbOffset == tx.hbOffset
            && r.tx.outgoing == (if tx.current.Some? then tx.outgoing else tx.outgoing[1..])
            && if off + write.limit >= |frame| then
                 && r.tx.wire == tx.wire + frame[off..] && r.tx.dataWire == tx.dataWire + frame[off..]
                 && r.tx.current.None? && r.tx.txOffset == 0
                 && r.tx.lastTx == at && r.tx.items == tx.items + [Data(packet)]
               else
                 && r.tx.wire == tx.wire + frame[off..off + write.limit]
                 && r.tx.dataWire == tx.dataWire + frame[off..off + write.limit]
                 && r.tx.current == Some(packet) && r.tx.txOffset == off + write.limit
                 && r.tx.lastTx == tx.lastTx && r.tx.items == tx.items
  {
    hide Encode;
    var packet := InHand(tx).value;
    assert FrameOf(packet)[tx.txOffset..|FrameOf(packet)|] == FrameOf(packet)[tx.txOffset..];
  }

  /** With nothing in hand nothing is written; and only a failing write of something fails. */
  lemma NoDataInHand(tx: Tx, write: WriteEvent, at: int)
    requires OffsetsInRange(tx)
    ensures InHand(tx).None? ==> HandleOutgoing(tx, write, at) == TxResult(tx, true, 0)
    ensures HandleOutgoing(tx, write, at).ok <==> InHand(tx).None? || write.Took?
  {
    hide FrameOf;
  }

  /** A call in which nothing is read and the socket takes whatever it is offered. */
  ghost predicate TakesAll(i: Input, size: nat) {
    i.fdOpen && !i.readable && i.dataWrite.Took? && i.dataWrite.limit >= size
  }

  /** One such call sends one packet. */
  lemma OnePacketSent(c: Conn, i: Input, size: nat)
    requires OffsetsInRange(c.tx) && c.keepaliveTime <= 0 && TakesAll(i, size) && InHand(c.tx).Some?
    requires |InHand(c.tx).value| + 4 <= size
    ensures var next := Call(c, i).conn;
            && Call(c, i).outcome.Worked? && next.keepaliveTime == c.keepaliveTime && OffsetsInRange(next.tx)
            && next.tx.current.None? && next.quit == c.quit
            && next.tx.outgoing == (if c.tx.current.Some? then c.tx.outgoing else c.tx.outgoing[1..])
            && next.tx.items == c.tx.items + [Data(InHand(c.tx).value)]
  {
    hide HandleOutgoing, Encode;
    assert ReadPhase(c, i) == ReadResult(c.rx, 0, Drained, 0);
    CallKeepsOffsets(c, i);
    DataGoesOut(c.tx, i.dataWrite, i.dataAt);
  }

  ghost function Calls(c: Conn, inputs: seq<Input>): Conn
    requires OffsetsInRange(c.tx)
    decreases |inputs|
  {
    if inputs == [] then c
    else
      CallKeepsOffsets(c, inputs[0]);
      Calls(Call(c, inputs[0]).conn, inputs[1..])
  }

  /** The packets that are not completely sent. */
  function Waiting(tx: Tx): seq<Packet> {
    Optional(tx.current) + tx.outgoing
  }

  lemma WaitingIsInHand(tx: Tx)
    ensures InHand(tx) == if Waiting(tx) == [] then None else Some(Waiting(tx)[0])
    ensures Waiting(tx) != [] ==>
              Waiting(tx)[1..] == if tx.current.Some? then tx.outgoing else tx.outgoing[1..]
  {
  }

  /** As many such calls as there are packets send them all, in order. */
  lemma {:induction false} QueueDrains(c: Conn, inputs: seq<Input>, size: nat)
    requires OffsetsInRange(c.tx) && c.keepaliveTime <= 0 && |inputs| == |Waiting(c.tx)|
    requires forall k :: 0 <= k < |inputs| ==> TakesAll(inputs[k], size)
    requires forall k :: 0 <= k < |inputs| ==> |Waiting(c.tx)[k]| + 4 <= size
    ensures var end := Calls(c, inputs).tx;
            Waiting(end) == [] && DataOf(end.items) == DataOf(c.tx.items) + Waiting(c.tx)
    decreases |inputs|
  {
    hide Call, OffsetsInRange, TakesAll, InHand, DataOf, Waiting;
    var waiting := Waiting(c.tx);
    if inputs == [] {
      assert DataOf(c.tx.items) + [] == DataOf(c.tx.items);
    } else {
      WaitingIsInHand(c.tx);
      OnePacketSent(c, inputs[0], size);
      var next := Call(c, inputs[0]).conn;
      NoneInFlight(next.tx);
      QueueDrains(next, inputs[1..], size);
      AppendItem(c.tx.items, Data(waiting[0]));
      assert DataOf(c.tx.items) + [waiting[0]] + waiting[1..] == DataOf(c.tx.items) + waiting;
    }
  }

  lemma NoneInFlight(tx: Tx)
    requires tx.current.None?
    ensures Waiting(tx) == tx.outgoing
  {
  }

  // ---------------------------------------------------------------------
  // Reading

  /** The read loop takes one read after the other and stops for exactly one of these reasons: the socket has no more to
      give, a read fails, there is no buffer, the buffer is full, or the parser refuses.  The receive clock shows the
      last read. */
  lemma {:induction false} ReadsInOrder(rx: Rx, net: Bytes, script: seq<ReadEvent>, bufferAlloc: bool, allocs: nat)
    returns (count: nat)
    requires Quiet(rx)
    ensures var r := ReadLoop(rx, net, script, bufferAlloc, allocs);
            && count <= |script| && count <= r.used && (r.used > 0 ==> count > 0)
            && (forall k :: 0 <= k < count ==> script[k].Got? && script[k].limit > 0)
            && r.rx.lastRx == (if count == 0 then rx.lastRx else script[count - 1].at)
            && match r.stop
               case Drained =>
                 |r.rx.partial| < ReceiveMtu(rx.mtu)
                 && (count == |script| || (script[count].Got? && (script[count].limit == 0 || r.used == |net|)))
               case ReadError => count < |script| && script[count].ReadFails?
               case NoBuffer => count == 0 && !rx.hasBuffer && !bufferAlloc
               case Overflow => |r.rx.partial| == ReceiveMtu(rx.mtu)
               case ParserStopped(error) => count > 0
    decreases |script|
  {
    hide ReadTurn, Quiet, ReceiveMtu;
    TurnInStep(rx, net, script, bufferAlloc, allocs);
    TurnReads(rx, net, script, bufferAlloc, allocs);
    var turn := ReadTurn(rx, net, script, bufferAlloc, allocs);
    if turn.Stop? {
      count := if turn.result.stop.ParserStopped? then 1 else 0;
    } else {
      var more := ReadsInOrder(turn.rx, net[turn.used..], script[1..], bufferAlloc, turn.left);
      count := more + 1;
      assert forall k :: 0 < k < count ==> script[k] == script[1..][k - 1];
    }
  }

  /** A read is offered all the room there is in the buffer. */
  lemma OneReadTakes(rx: Rx, net: Bytes, limit: nat, at: int, allocs: nat)
    requires Quiet(rx) && |rx.partial| < ReceiveMtu(rx.mtu)
    ensures var r := ReadLoop(rx, net, [Got(limit, at)], true, allocs);
            var room := ReceiveMtu(rx.mtu) - |rx.partial|;
            && r.used <= limit && r.used <= |net| && r.used <= room
            && (r.used == limit || r.used == |net| || r.used == room)
  {
    hide Parse, Decode, ReceiveMtu;
    var script := [Got(limit, at)];
    assert script[1..] == [];
    var turn := ReadTurn(rx, net, script, true, allocs);
    if turn.Again? {
      assert ReadLoop(turn.rx, net[turn.used..], [], true, turn.left).used == 0;
    }
  }

  lemma TurnReads(rx: Rx, net: Bytes, script: seq<ReadEvent>, bufferAlloc: bool, allocs: nat)
    requires Quiet(rx)
    ensures match ReadTurn(rx, net, script, bufferAlloc, allocs)
            case Again(rx', used, work, left) =>
              script[0].Got? && script[0].limit > 0 && rx'.lastRx == script[0].at && rx'.hasBuffer
            case Stop(r) =>
              match r.stop
              case Drained =>
                && r.used == 0 && r.rx.lastRx == rx.lastRx && |r.rx.partial| < ReceiveMtu(rx.mtu)
                && (script == [] || (script[0].Got? && (script[0].limit == 0 || net == [])))
              case ReadError => r.used == 0 && r.rx.lastRx == rx.lastRx && script != [] && script[0].ReadFails?
              case NoBuffer => r.used == 0 && r.rx.lastRx == rx.lastRx && !rx.hasBuffer && !bufferAlloc
              case Overflow => r.used == 0 && r.rx.lastRx == rx.lastRx && |r.rx.partial| == ReceiveMtu(rx.mtu)
              case ParserStopped(error) =>
                r.used > 0 && script != [] && script[0].Got? && script[0].limit > 0 && r.rx.lastRx == script[0].at
  {
    hide Parse, Decode, Packets, Oversized;
  }

  /** The parser refuses for want of memory only when every packet that can be allocated has been queued. */
  lemma {:induction false} AllPacketsUsed(rx: Rx, net: Bytes, script: seq<ReadEvent>, bufferAlloc: bool, allocs: nat)
    ensures var r := ReadLoop(rx, net, script, bufferAlloc, allocs);
            r.stop == ParserStopped(NoMemory) ==> |r.rx.incoming| == |rx.incoming| + allocs
    decreases |script|
  {
    hide ReadTurn;
    TurnUsesPackets(rx, net, script, bufferAlloc, allocs);
    var turn := ReadTurn(rx, net, script, bufferAlloc, allocs);
    if turn.Again? {
      AllPacketsUsed(turn.rx, net[turn.used..], script[1..], bufferAlloc, turn.left);
    }
  }

  lemma TurnUsesPackets(rx: Rx, net: Bytes, script: seq<ReadEvent>, bufferAlloc: bool, allocs: nat)
    ensures match ReadTurn(rx, net, script, bufferAlloc, allocs)
            case Again(rx', used, work, left) => |rx'.incoming| + left == |rx.incoming| + allocs
            case Stop(r) => r.stop == ParserStopped(NoMemory) ==> |r.rx.incoming| == |rx.incoming| + allocs
  {
    hide Decode, Packets, EncodeAll, Handled, Oversized;
    var rx0 := WithBuffer(rx);
    if script != [] && script[0].Got? {
      var rx1 := Received(rx0, net[..ReadSize(rx0, net, script[0].limit)], script[0].at);
      HandledStopsAtPacket(Decode(rx1.partial).raws, allocs);
      QueuedWithinBudget(rx1.partial, allocs);
    }
  }

  /** If the peer's frames fit the buffer, the socket gives at least a byte at each read, and no allocation fails, a
      call reads and delivers everything that is waiting. */
  lemma EverythingIsRead(rx: Rx, net: Bytes, script: seq<ReadEvent>, allocs: nat, rs: seq<Raw>)
    requires Quiet(rx) && |script| >= |net|
    requires forall k :: 0 <= k < |script| ==> script[k].Got? && script[k].limit > 0
    requires AllSendable(rs) && forall k :: 0 <= k < |rs| ==> 4 + |rs[k].payload| <= ReceiveMtu(rx.mtu)
    requires IsPrefix(rx.received + net, EncodeAll(rs))
    ensures var r := ReadLoop(rx, net, script, true, allocs);
            |r.rx.incoming| < |rx.incoming| + allocs ==>
              && r.stop.Drained? && r.used == |net|
              && r.rx.incoming == rx.before + Packets(Decode(rx.received + net).raws)
  {
    hide ReadLoop, Decode, ReceiveMtu, Packets, EncodeAll;
    var r := ReadLoop(rx, net, script, true, allocs);
    var count := ReadsInOrder(rx, net, script, true, allocs);
    FittingStreamNeverStops(rx, net, script, true, allocs, rs);
    AllPacketsUsed(rx, net, script, true, allocs);
    ReadLoopInStep(rx, net, script, true, allocs);
    if |r.rx.incoming| < |rx.incoming| + allocs {
      assert net[..|net|] == net;
      PostconditionSize(rx, net, r);
      InStepUnlessNoMemory(rx, net, r);
      hide LoopPostcondition;
    }
  }

  /** The receive buffer holds as many bytes as the MTU and the frame limit, whichever is more. */
  lemma BufferSize(mtu: nat)
    ensures ReceiveMtu(mtu) == if mtu >= 16384 then mtu else 16384
  {
  }

  /** With an MTU up to 16384, packets of 16381 to 16384 octets are never delivered, however their frame is read; they
      fill the buffer until it overflows. */
  lemma LargestAreNeverDelivered(rx: Rx, packet: Packet, script: seq<ReadEvent>, bufferAlloc: bool, allocs: nat)
    requires Quiet(rx) && rx.partial == [] && rx.mtu <= 16384 && 16381 <= |packet| <= 16384
    ensures var r := ReadLoop(rx, FrameOf(packet), script, bufferAlloc, allocs);
            r.stop != ParserStopped(NoMemory) ==>
              r.rx.incoming == rx.incoming && (r.stop.Overflow? <==> r.used == 16384)
  {
    BufferSize(rx.mtu);
    hide ReadLoop, Encode;
    DeliveredIffFits(rx, packet, script, bufferAlloc, allocs);
  }

  // ---------------------------------------------------------------------
  // Work done

  /** The frames of known type received on this connection. */
  function FramesSoFar(rx: Rx): nat {
    |Frames(Decode(rx.received).raws)|
  }

  lemma TurnCounts(rx: Rx, net: Bytes, script: seq<ReadEvent>, bufferAlloc: bool, allocs: nat)
    requires Quiet(rx)
    ensures match ReadTurn(rx, net, script, bufferAlloc, allocs)
            case Again(rx', used, work, left) => FramesSoFar(rx') == FramesSoFar(rx) + work
            case Stop(r) => r.stop.Drained? || r.stop.NoBuffer? ==> FramesSoFar(r.rx) == FramesSoFar(rx) + r.work
  {
    hide Decode, Packets, EncodeAll, Handled, Frames, Oversized, ReceiveMtu;
    var rx0 := WithBuffer(rx);
    if script != [] && script[0].Got? {
      var bytes := net[..ReadSize(rx0, net, script[0].limit)];
      var part := Decode(rx0.partial + bytes);
      DecodeAppend(rx.received, bytes);
      FramesAppend(Decode(rx.received).raws, part.raws);
      assert part.raws[..|part.raws|] == part.raws;
    }
  }

  lemma {:induction false} ReadLoopCounts(rx: Rx, net: Bytes, script: seq<ReadEvent>, bufferAlloc: bool, allocs: nat)
    requires Quiet(rx)
    ensures var r := ReadLoop(rx, net, script, bufferAlloc, allocs);
            r.stop.Drained? || r.stop.NoBuffer? ==> FramesSoFar(r.rx) == FramesSoFar(rx) + r.work
    decreases |script|
  {
    hide ReadTurn, Quiet, FramesSoFar;
    TurnInStep(rx, net, script, bufferAlloc, allocs);
    TurnCounts(rx, net, script, bufferAlloc, allocs);
    var turn := ReadTurn(rx, net, script, bufferAlloc, allocs);
    if turn.Again? {
      ReadLoopCounts(turn.rx, net[turn.used..], script[1..], bufferAlloc, turn.left);
    }
  }

  lemma SendCounts(tx: Tx, keepaliveTime: int, lastRx: int, i: Input)
    requires OffsetsInRange(tx)
    ensures var r := SendPhase(tx, keepaliveTime, lastRx, i);
            r.ok ==> |r.tx.items| == |tx.items| + r.work
  {
    hide FrameOf, PeerOverdue;
    OutgoingKeepsOffsets(tx, i.dataWrite, i.dataAt);
  }

  /** The work a call reports is the number of frames it received and finished sending. */
  lemma WorkCounted(c: Conn, i: Input)
    requires OffsetsInRange(c.tx) && Quiet(c.rx) && Call(c, i).outcome.Worked?
    ensures var next := Call(c, i).conn;
            Call(c, i).outcome.work
            == (FramesSoFar(next.rx) - FramesSoFar(c.rx)) + (|next.tx.items| - |c.tx.items|)
  {
    hide ReadLoop, SendPhase, FramesSoFar, Quiet, OffsetsInRange;
    var read := ReadPhase(c, i);
    ReadLoopCounts(c.rx, i.net, i.script, i.bufferAlloc, i.packetAllocs);
    SendCounts(c.tx, c.keepaliveTime, read.rx.lastRx, i);
  }

  // ---------------------------------------------------------------------
  // When a call reconnects

  /** The call keeps the connection exactly if the socket is open, reading ends with nothing more to read or no buffer,
      neither write fails, and with keepalives on something was received less than three keepalive times ago. */
  lemma KeepsConnectionExactly(c: Conn, i: Input)
    requires OffsetsInRange(c.tx)
    ensures var read, out := ReadPhase(c, i), HandleOutgoing(c.tx, i.dataWrite, i.dataAt).tx;
            Call(c, i).outcome.Worked?
            <==> && i.fdOpen
                 && (i.readable ==> read.stop.Drained? || read.stop.NoBuffer?)
                 && (InHand(c.tx).Some? ==> i.dataWrite.Took?)
                 && (c.keepaliveTime > 0 ==>
                       && (out.hbPending || i.now >= out.lastTx + c.keepaliveTime ==> i.beatWrite.Took?)
                       && i.now < read.rx.lastRx + 3 * c.keepaliveTime)
    ensures Call(c, i).outcome.Reconnected? <==> !Call(c, i).outcome.Worked? && i.reconnect.Restored?
    ensures Call(c, i).outcome.Quit? <==> !Call(c, i).outcome.Worked? && i.reconnect.ReconnectFails?
  {
    hide ReadLoop, HandleOutgoing, Keepalive;
    NoDataInHand(c.tx, i.dataWrite, i.dataAt);
    OutgoingKeepsOffsets(c.tx, i.dataWrite, i.dataAt);
    KeepaliveNotDue(HandleOutgoing(c.tx, i.dataWrite, i.dataAt).tx, c.keepaliveTime, i.now, i.beatWrite, i.beatAt);
  }

  /** A call whose read fails, or whose write of data or of a due keepalive fails, does not go on. */
  lemma FailuresReconnect(c: Conn, i: Input)
    requires OffsetsInRange(c.tx) && i.fdOpen
    requires || (i.readable && ReadPhase(c, i).stop.ReadError?)
             || (InHand(c.tx).Some? && i.dataWrite.WriteFails?)
             || (c.keepaliveTime > 0 && c.tx.hbPending && i.beatWrite.WriteFails?)
    ensures !Call(c, i).outcome.Worked?
  {
    hide ReadPhase, HandleOutgoing;
    KeepsConnectionExactly(c, i);
    OutgoingKeepsBeat(c.tx, i.dataWrite, i.dataAt);
  }

  /** After a reconnect nothing of the old connection is left but the queues; both clocks show the time of the new
      session, whose MTU and keepalive time apply. */
  lemma ReconnectIsFresh(c: Conn, i: Input)
    requires OffsetsInRange(c.tx) && Call(c, i).outcome.Reconnected?
    ensures i.reconnect.Restored?
    ensures var tried, next, e := TryCall(c, i).conn, Call(c, i).conn, i.reconnect;
            && next.rx == Rx(e.mtu, false, [], tried.rx.incoming, e.at, [], tried.rx.incoming)
            && next.tx == Tx(None, 0, tried.tx.outgoing, false, 0, e.at, [], [], [])
            && next.keepaliveTime == e.keepaliveTime && next.quit == c.quit
  {
    hide ReadPhase, SendPhase;
  }

  /** So a live idle peer is as safe on the new connection as on the first. */
  lemma SafeAfterReconnect(c: Conn, i: Input, inputs: seq<Input>, s: int, d: int)
    requires OffsetsInRange(c.tx) && Call(c, i).outcome.Reconnected?
    requires var next, at := Call(c, i).conn, i.reconnect.at;
             && next.tx.outgoing == [] && next.keepaliveTime > 0
             && s > 0 && d >= 0 && s + d <= 2 * next.keepaliveTime
             && TimelyRun(next, inputs, at, [at], s, d)
    ensures NeverOverdue(Call(c, i).conn, inputs)
  {
    hide TimelyRun, NeverOverdue, Call;
    ReconnectIsFresh(c, i);
    var next, at := Call(c, i).conn, i.reconnect.at;
    assert Paced(next, at, [at], s);
    PacedRunIsSafe(next, inputs, at, [at], s, d);
  }
}
