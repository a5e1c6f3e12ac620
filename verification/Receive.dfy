/** The receive side: whatever the read boundaries, the C parser follows the reference decoder. */
module Receive {
  import opened Wire
  import opened Link

  /** Everything received is accounted for: complete packets are queued, the undecoded tail is in the buffer. */
  ghost predicate InStep(rx: Rx) {
    var d := Decode(rx.received);
    && rx.partial == d.tail
    && rx.incoming == rx.before + Packets(d.raws)
    && |rx.partial| <= ReceiveMtu(rx.mtu)
    && (!rx.hasBuffer ==> rx.partial == [])
  }

  /** In step, and no oversized header is waiting. */
  ghost predicate Quiet(rx: Rx) {
    InStep(rx) && !Oversized(rx.partial)
  }

  /** An allocation failed: the queue ends just before a packet, which starts the buffer. */
  ghost predicate StoppedShort(rx: Rx, k: nat) {
    var d := Decode(rx.received);
    && k < |d.raws| && d.raws[k].kind == TYPE_IPV4
    && rx.incoming == rx.before + Packets(d.raws[..k])
    && rx.partial == EncodeAll(d.raws[k..]) + d.tail
  }

  /** The head of the buffer is the start of a frame that does not fit. */
  ghost predicate BlockedByBigFrame(rx: Rx) {
    |rx.partial| >= 4 && PayloadLen(rx.partial) <= MAX_FRAME_LEN && 4 + PayloadLen(rx.partial) > ReceiveMtu(rx.mtu)
  }

  // ---------------------------------------------------------------------
  // One parser pass

  lemma {:induction false} HandledStopsAtPacket(rs: seq<Raw>, allocs: nat)
    ensures var n := Handled(rs, allocs); n < |rs| ==> rs[n].kind == TYPE_IPV4 && |Packets(rs[..n])| == allocs
  {
    if rs != [] {
      var n := Handled(rs, allocs);
      if n > 0 {
        assert rs[..n][1..] == rs[1..][..n - 1];
        HandledStopsAtPacket(rs[1..], if rs[0].kind == TYPE_IPV4 then allocs - 1 else allocs);
      }
    }
  }

  /** What a parser pass does to a buffer that was in step before `bytes` were appended. */
  lemma ParseInStep(rx: Rx, bytes: Bytes, at: int, allocs: nat)
    requires InStep(rx) && rx.hasBuffer && |rx.partial| + |bytes| <= ReceiveMtu(rx.mtu)
    ensures var rx1 := Received(rx, bytes, at);
            var p := Parse(rx1.partial, allocs);
            var rx2 := AfterParse(rx1, p);
            && (p.error == NoError ==> Quiet(rx2))
            && (p.error == TooLarge ==> InStep(rx2) && Oversized(rx2.partial))
            && (p.error == NoMemory ==> exists k :: StoppedShort(rx2, k))
            && |p.queued| <= allocs
  {
    hide Decode, Packets, EncodeAll, ReceiveMtu, Handled, Frames, Oversized;
    var d := Decode(rx.received);
    var rx1 := Received(rx, bytes, at);
    var e := Decode(rx1.partial);
    var n := Handled(e.raws, allocs);
    var whole := Decode(rx1.received);
    QueuedWithinBudget(rx1.partial, allocs);
    DecodeAppend(rx.received, bytes);
    DecodeSound(rx1.partial);
    var rx2 := AfterParse(rx1, Parse(rx1.partial, allocs));
    PacketsAppend(d.raws, e.raws[..n]);
    var k := |d.raws| + n;
    assert whole.raws[..k] == d.raws + e.raws[..n] && whole.raws[k..] == e.raws[n..];
    if n < |e.raws| {
      HandledStopsAtPacket(e.raws, allocs);
      assert StoppedShort(rx2, k);
    } else {
      assert whole.raws[..k] == whole.raws;
      EncodeNothing(e.raws, n, e.tail);
    }
  }

  lemma EncodeNothing(rs: seq<Raw>, n: nat, tail: Bytes)
    requires n == |rs|
    ensures EncodeAll(rs[n..]) + tail == tail
  {
  }

  // ---------------------------------------------------------------------
  // The read loop

  /** What the read loop guarantees, for every split of the stream into reads and every allocation outcome. */
  ghost predicate LoopPostcondition(rx: Rx, net: Bytes, r: ReadResult) {
    && r.used <= |net|
    && r.rx.received == rx.received + net[..r.used]
    && r.rx.mtu == rx.mtu && r.rx.before == rx.before
    && (r.stop.Drained? || r.stop.NoBuffer? || r.stop.ReadError? ==> Quiet(r.rx))
    && (r.stop.Overflow? ==> Quiet(r.rx) && |r.rx.partial| == ReceiveMtu(rx.mtu) && BlockedByBigFrame(r.rx))
    && (r.stop == ParserStopped(TooLarge) ==> InStep(r.rx) && Oversized(r.rx.partial))
    && (r.stop == ParserStopped(NoMemory) ==> exists k :: StoppedShort(r.rx, k))
    && r.stop != ParserStopped(NoError)
  }

  lemma BufferAllocationInStep(rx: Rx)
    requires Quiet(rx)
    ensures Quiet(WithBuffer(rx)) && WithBuffer(rx).hasBuffer && WithBuffer(rx).partial == rx.partial
  {
  }

  lemma OverflowMeansBigFrame(rx: Rx)
    requires Quiet(rx) && |rx.partial| >= ReceiveMtu(rx.mtu)
    ensures |rx.partial| == ReceiveMtu(rx.mtu) && BlockedByBigFrame(rx)
  {
    DecodeSound(rx.received);
  }

  lemma TurnInStep(rx: Rx, net: Bytes, script: seq<ReadEvent>, bufferAlloc: bool, allocs: nat)
    requires Quiet(rx)
    ensures match ReadTurn(rx, net, script, bufferAlloc, allocs)
            case Stop(r) => LoopPostcondition(rx, net, r)
            case Again(rx', used, work, left) =>
              && Quiet(rx') && 1 <= used <= |net|
              && rx'.received == rx.received + net[..used] && rx'.mtu == rx.mtu && rx'.before == rx.before
  {
    hide InStep, Parse, Oversized, BlockedByBigFrame, StoppedShort, ReceiveMtu;
    BufferAllocationInStep(rx);
    var rx0 := WithBuffer(rx);
    assert rx.received + net[..0] == rx.received;
    if |rx0.partial| >= ReceiveMtu(rx.mtu) {
      OverflowMeansBigFrame(rx0);
    } else if script != [] && script[0].Got? {
      var n := ReadSize(rx0, net, script[0].limit);
      ParseInStep(rx0, net[..n], script[0].at, allocs);
    }
  }

  lemma {:induction false} ReadLoopInStep(rx: Rx, net: Bytes, script: seq<ReadEvent>, bufferAlloc: bool, allocs: nat)
    requires Quiet(rx)
    ensures LoopPostcondition(rx, net, ReadLoop(rx, net, script, bufferAlloc, allocs))
    decreases |script|
  {
    hide ReadTurn, Quiet, InStep, StoppedShort, BlockedByBigFrame, Oversized, ReceiveMtu;
    TurnInStep(rx, net, script, bufferAlloc, allocs);
    var turn := ReadTurn(rx, net, script, bufferAlloc, allocs);
    if turn.Again? {
      ReadLoopInStep(turn.rx, net[turn.used..], script[1..], bufferAlloc, turn.left);
      var rest := ReadLoop(turn.rx, net[turn.used..], script[1..], bufferAlloc, turn.left);
      assert net[..turn.used] + net[turn.used..][..rest.used] == net[..turn.used + rest.used];
    }
  }

  /** Two ways of cutting the same bytes into reads leave the same queue and the same buffer. */
  lemma ChunkingDoesNotMatter(rx: Rx, netA: Bytes, scriptA: seq<ReadEvent>, allocsA: nat,
                              netB: Bytes, scriptB: seq<ReadEvent>, allocsB: nat)
    requires Quiet(rx)
    ensures var a, b := ReadLoop(rx, netA, scriptA, true, allocsA), ReadLoop(rx, netB, scriptB, true, allocsB);
            && netA[..a.used] == netB[..b.used]
            && a.stop != ParserStopped(NoMemory) && b.stop != ParserStopped(NoMemory)
            ==>
              && a.rx.incoming == b.rx.incoming && a.rx.partial == b.rx.partial
              && (a.stop == ParserStopped(TooLarge) <==> b.stop == ParserStopped(TooLarge))
  {
    hide ReadLoop, Decode, ReceiveMtu, Oversized, LoopPostcondition;
    var a, b := ReadLoop(rx, netA, scriptA, true, allocsA), ReadLoop(rx, netB, scriptB, true, allocsB);
    ReadLoopInStep(rx, netA, scriptA, true, allocsA);
    ReadLoopInStep(rx, netB, scriptB, true, allocsB);
    if a.stop != ParserStopped(NoMemory) && b.stop != ParserStopped(NoMemory) {
      InStepUnlessNoMemory(rx, netA, a);
      InStepUnlessNoMemory(rx, netB, b);
    }
  }

  lemma InStepUnlessNoMemory(rx: Rx, net: Bytes, r: ReadResult)
    requires LoopPostcondition(rx, net, r) && r.stop != ParserStopped(NoMemory)
    ensures InStep(r.rx)
    ensures r.rx.received == rx.received + net[..r.used] && r.rx.before == rx.before
    ensures r.stop == ParserStopped(TooLarge) <==> Oversized(r.rx.partial)
  {
    match r.stop
    case Drained | NoBuffer | Overflow | ReadError =>
    case ParserStopped(error) => assert error == TooLarge;
  }

  // ---------------------------------------------------------------------
  // Whole runs

  lemma FreshIsQuiet(c: Conn)
    requires Fresh(c)
    ensures Quiet(c.rx)
  {
  }

  lemma RestartIsQuiet(c: Conn, at: int, mtu: nat, keepaliveTime: int)
    ensures Quiet(Restart(c, at, mtu, keepaliveTime).rx)
  {
  }

  lemma CallStaysQuiet(c: Conn, i: Input)
    requires OffsetsInRange(c.tx) && Quiet(c.rx)
    ensures var r := Call(c, i);
            && (!r.outcome.Quit? ==> Quiet(r.conn.rx) && r.conn.quit == c.quit)
            && (r.outcome.Quit? ==> r.conn.quit)
  {
    hide ReadLoop, SendPhase, Quiet, InStep, Restart, StoppedShort, OffsetsInRange, BlockedByBigFrame, Oversized,
      ReceiveMtu;
    ReadLoopInStep(c.rx, i.net, i.script, i.bufferAlloc, i.packetAllocs);
    var a := TryCall(c, i);
    if !a.alive && i.reconnect.Restored? {
      var e := i.reconnect;
      RestartIsQuiet(DropInFlight(a.conn), e.at, e.mtu, e.keepaliveTime);
      RestartKeepsQuit(DropInFlight(a.conn), e.at, e.mtu, e.keepaliveTime);
    }
  }

  lemma RestartKeepsQuit(c: Conn, at: int, mtu: nat, keepaliveTime: int)
    ensures Restart(c, at, mtu, keepaliveTime).quit == c.quit
  {
  }

  /** In every reachable state of a connection that has not been given up, the packets queued since the connection
      began are those of the decoded stream, and the buffer holds the undecoded tail and nothing more. */
  lemma {:induction false} RunStaysQuiet(c: Conn, events: seq<Event>)
    requires OffsetsInRange(c.tx) && (c.quit || Quiet(c.rx))
    ensures var end := Run(c, events); end.quit || Quiet(end.rx)
    decreases |events|
  {
    hide Call, Quiet, OffsetsInRange;
    if events != [] {
      var e := events[0];
      StepKeepsOffsets(c, e);
      if e.MainLoop? && !c.quit {
        CallStaysQuiet(c, e.input);
      }
      RunStaysQuiet(Step(c, e), events[1..]);
    }
  }

  // ---------------------------------------------------------------------
  // Which frames can be received

  ghost predicate IsPrefix<T>(a: seq<T>, b: seq<T>) {
    |a| <= |b| && a == b[..|a|]
  }

  /** A cut through a stream of whole frames: some frames complete, the next one begun. */
  lemma {:induction false} DecodePrefix(rs: seq<Raw>, p: Bytes)
    requires AllSendable(rs) && IsPrefix(p, EncodeAll(rs))
    ensures var d := Decode(p);
            && IsPrefix(d.raws, rs)
            && (|d.raws| == |rs| ==> d.tail == [])
            && (|d.raws| < |rs| ==> |d.tail| < |Encode(rs[|d.raws|])| && IsPrefix(d.tail, Encode(rs[|d.raws|])))
  {
    hide Decode, Encode;
    if rs == [] {
      NotReadyDecodes(p);
    } else {
      var first := Encode(rs[0]);
      if |p| < |first| {
        PrefixNotReady(rs[0], p);
        NotReadyDecodes(p);
      } else {
        var more := p[|first|..];
        assert p == first + more;
        FrameThenRest(rs[0], more);
        assert IsPrefix(more, EncodeAll(rs[1..]));
        DecodePrefix(rs[1..], more);
        assert rs == [rs[0]] + rs[1..];
      }
    }
  }

  lemma NotReadyDecodes(p: Bytes)
    requires !Ready(p)
    ensures Decode(p) == Decoded([], p)
  {
  }

  lemma FrameThenRest(r: Raw, rest: Bytes)
    requires Sendable(r)
    ensures Decode(Encode(r) + rest) == Decoded([r] + Decode(rest).raws, Decode(rest).tail)
  {
    EncodeThenHead(r, rest);
  }

  lemma PrefixNotReady(r: Raw, p: Bytes)
    requires Sendable(r) && |p| < |Encode(r)| && IsPrefix(p, Encode(r))
    ensures !Ready(p) && !Oversized(p)
    ensures |p| >= 4 ==> PayloadLen(p) == |r.payload|
  {
  }

  /** While a peer sends frames that fit the buffer, neither the overflow nor the oversized branch is reached. */
  lemma FittingStreamNeverStops(rx: Rx, net: Bytes, script: seq<ReadEvent>, bufferAlloc: bool, allocs: nat,
                                rs: seq<Raw>)
    requires Quiet(rx)
    requires AllSendable(rs) && forall k :: 0 <= k < |rs| ==> 4 + |rs[k].payload| <= ReceiveMtu(rx.mtu)
    requires IsPrefix(rx.received + net, EncodeAll(rs))
    ensures var r := ReadLoop(rx, net, script, bufferAlloc, allocs);
            !r.stop.Overflow? && r.stop != ParserStopped(TooLarge)
  {
    hide ReadLoop, ReceiveMtu, Decode, StoppedShort, EncodeAll, Packets;
    var r := ReadLoop(rx, net, script, bufferAlloc, allocs);
    ReadLoopInStep(rx, net, script, bufferAlloc, allocs);
    var got := r.rx.received;
    assert got == (rx.received + net)[..|got|];
    DecodePrefix(rs, got);
    var d := Decode(got);
    if |d.raws| < |rs| {
      PrefixNotReady(rs[|d.raws|], d.tail);
    }
  }

  lemma ParseBlocked(rx: Rx, allocs: nat)
    requires BlockedByBigFrame(rx) && |rx.partial| <= ReceiveMtu(rx.mtu)
    ensures Parse(rx.partial, allocs) == Parsed([], rx.partial, NoError, 0)
  {
  }

  lemma TurnBlocked(rx: Rx, net: Bytes, script: seq<ReadEvent>, bufferAlloc: bool, allocs: nat)
    requires Quiet(rx) && BlockedByBigFrame(rx)
    ensures match ReadTurn(rx, net, script, bufferAlloc, allocs)
            case Stop(r) =>
              && r.rx == rx && r.used == 0 && !r.stop.ParserStopped?
              && (r.stop.Overflow? <==> |rx.partial| == ReceiveMtu(rx.mtu))
            case Again(rx', used, work, left) =>
              && rx'.incoming == rx.incoming && rx'.partial == rx.partial + net[..used] && rx'.mtu == rx.mtu
              && |rx'.partial| <= ReceiveMtu(rx.mtu) && BlockedByBigFrame(rx')
  {
    hide Decode, ReceiveMtu, Parse, Packets;
    assert rx.hasBuffer;
    if |rx.partial| < ReceiveMtu(rx.mtu) && script != [] && script[0].Got? {
      var n := ReadSize(rx, net, script[0].limit);
      var rx1 := Received(rx, net[..n], script[0].at);
      assert PayloadLen(rx1.partial) == PayloadLen(rx.partial);
      ParseBlocked(rx1, allocs);
    }
  }

  /** Behind the start of a frame that does not fit, nothing is ever delivered: the buffer fills until it overflows. */
  lemma {:induction false} BigFrameBlocks(rx: Rx, net: Bytes, script: seq<ReadEvent>, bufferAlloc: bool, allocs: nat)
    requires Quiet(rx) && BlockedByBigFrame(rx)
    ensures var r := ReadLoop(rx, net, script, bufferAlloc, allocs);
            && r.rx.incoming == rx.incoming
            && !r.stop.ParserStopped?
            && r.rx.partial == rx.partial + net[..r.used] && |r.rx.partial| <= ReceiveMtu(rx.mtu)
            && (r.stop.Overflow? <==> |rx.partial| + r.used == ReceiveMtu(rx.mtu))
    decreases |script|
  {
    hide ReadTurn, Quiet, BlockedByBigFrame, ReceiveMtu;
    TurnInStep(rx, net, script, bufferAlloc, allocs);
    TurnBlocked(rx, net, script, bufferAlloc, allocs);
    QuietFitsBuffer(rx);
    var turn := ReadTurn(rx, net, script, bufferAlloc, allocs);
    if turn.Again? {
      BigFrameBlocks(turn.rx, net[turn.used..], script[1..], bufferAlloc, turn.left);
      var rest := ReadLoop(turn.rx, net[turn.used..], script[1..], bufferAlloc, turn.left);
      assert net[..turn.used] + net[turn.used..][..rest.used] == net[..turn.used + rest.used];
    }
  }

  lemma QuietFitsBuffer(rx: Rx)
    requires Quiet(rx)
    ensures |rx.partial| <= ReceiveMtu(rx.mtu)
  {
  }

  /** A loop that neither overflows nor is stopped by the parser leaves room in the buffer. */
  lemma {:induction false} RoomLeft(rx: Rx, net: Bytes, script: seq<ReadEvent>, bufferAlloc: bool, allocs: nat)
    requires Quiet(rx)
    ensures var r := ReadLoop(rx, net, script, bufferAlloc, allocs);
            r.stop.Drained? || r.stop.NoBuffer? || r.stop.ReadError? ==> |r.rx.partial| < ReceiveMtu(rx.mtu)
    decreases |script|
  {
    hide ReadTurn, Quiet, ReceiveMtu;
    TurnInStep(rx, net, script, bufferAlloc, allocs);
    TurnLeavesRoom(rx, net, script, bufferAlloc, allocs);
    var turn := ReadTurn(rx, net, script, bufferAlloc, allocs);
    if turn.Again? {
      RoomLeft(turn.rx, net[turn.used..], script[1..], bufferAlloc, turn.left);
    }
  }

  lemma TurnLeavesRoom(rx: Rx, net: Bytes, script: seq<ReadEvent>, bufferAlloc: bool, allocs: nat)
    requires Quiet(rx)
    ensures var t := ReadTurn(rx, net, script, bufferAlloc, allocs);
            t.Stop? && (t.result.stop.Drained? || t.result.stop.NoBuffer? || t.result.stop.ReadError?) ==>
              |t.result.rx.partial| < ReceiveMtu(rx.mtu)
  {
    hide Decode, Parse, Packets, Oversized;
  }

  lemma DecodeNothing()
    ensures Decode([]) == Decoded([], [])
  {
  }

  /** The beginning of one frame, decoded. */
  lemma FramePrefix(r: Raw, n: nat)
    requires Sendable(r) && n <= |Encode(r)|
    ensures var d := Decode(Encode(r)[..n]);
            if n == |Encode(r)| then d == Decoded([r], []) else d == Decoded([], Encode(r)[..n])
  {
    var b := Encode(r);
    if n == |b| {
      assert b[..n] == b + [];
      EncodeThenHead(r, []);
      hide Encode;
      DecodeNothing();
    } else {
      PrefixNotReady(r, b[..n]);
      NotReadyDecodes(b[..n]);
    }
  }

  /** What the receiver holds after reading the first bytes of a packet's frame at a frame boundary. */
  lemma PartOfFrame(rx: Rx, packet: Packet, next: Rx, n: nat)
    requires InStep(rx) && rx.partial == [] && |packet| <= MAX_FRAME_LEN && n <= |FrameOf(packet)|
    requires InStep(next) && next.before == rx.before && next.received == rx.received + FrameOf(packet)[..n]
    ensures next.incoming == if n == |FrameOf(packet)| then rx.incoming + [packet] else rx.incoming
    ensures next.partial == if n == |FrameOf(packet)| then [] else FrameOf(packet)[..n]
  {
    hide Decode, Packets, Encode, ReceiveMtu;
    var raw := Raw(TYPE_IPV4, packet);
    var part := FrameOf(packet)[..n];
    DecodeAppend(rx.received, part);
    assert [] + part == part;
    FramePrefix(raw, n);
    PacketsAppend(Decode(rx.received).raws, Decode(part).raws);
    OnePacket(packet);
    assert rx.before + (Packets(Decode(rx.received).raws) + [packet]) == rx.incoming + [packet];
  }

  lemma OnePacket(packet: Packet)
    ensures Packets([Raw(TYPE_IPV4, packet)]) == [packet] && Packets([]) == []
  {
    assert [Raw(TYPE_IPV4, packet)][1..] == [];
  }

  /** However a packet's frame is read at a frame boundary, if no allocation fails: a packet that fits the buffer with
      its header is delivered exactly when all of it was read, and never overflows; one that does not fit is never
      delivered and overflows exactly when the buffer is full. */
  lemma DeliveredIffFits(rx: Rx, packet: Packet, script: seq<ReadEvent>, bufferAlloc: bool, allocs: nat)
    requires Quiet(rx) && rx.partial == [] && |packet| <= MAX_FRAME_LEN
    ensures var net := FrameOf(packet);
            var r := ReadLoop(rx, net, script, bufferAlloc, allocs);
            r.stop != ParserStopped(NoMemory) ==>
              && r.stop != ParserStopped(TooLarge)
              && if |net| <= ReceiveMtu(rx.mtu) then
                   && r.rx.incoming == (if r.used == |net| then rx.incoming + [packet] else rx.incoming)
                   && !r.stop.Overflow?
                 else
                   && r.rx.incoming == rx.incoming && r.used <= ReceiveMtu(rx.mtu)
                   && (r.stop.Overflow? <==> r.used == ReceiveMtu(rx.mtu))
  {
    hide ReadLoop, Decode, Packets, ReceiveMtu, Encode, LoopPostcondition;
    var net := FrameOf(packet);
    var r := ReadLoop(rx, net, script, bufferAlloc, allocs);
    ReadLoopInStep(rx, net, script, bufferAlloc, allocs);
    RoomLeft(rx, net, script, bufferAlloc, allocs);
    if r.stop != ParserStopped(NoMemory) {
      InStepUnlessNoMemory(rx, net, r);
      PostconditionSize(rx, net, r);
      PartOfFrame(rx, packet, r.rx, r.used);
      if r.used < |net| {
        PrefixNotReady(Raw(TYPE_IPV4, packet), net[..r.used]);
      } else {
        DeliveredPacketsFit(rx, net, script, bufferAlloc, allocs);
        assert r.rx.incoming[|rx.incoming|] == packet;
      }
    }
  }

  lemma PostconditionSize(rx: Rx, net: Bytes, r: ReadResult)
    requires LoopPostcondition(rx, net, r) && r.stop != ParserStopped(NoMemory)
    ensures r.used <= |net| && |r.rx.partial| <= ReceiveMtu(rx.mtu)
    ensures r.stop.Overflow? ==> |r.rx.partial| == ReceiveMtu(rx.mtu) && BlockedByBigFrame(r.rx)
    ensures r.rx.mtu == rx.mtu && (r.stop.ParserStopped? ==> r.stop == ParserStopped(TooLarge))
  {
    hide Decode, Packets, Oversized;
    if r.stop.ParserStopped? {
      assert r.stop.error == TooLarge;
    }
  }

  /** Every packet handed over by a read loop fits the receive buffer together with its header. */
  lemma {:induction false} DeliveredPacketsFit(rx: Rx, net: Bytes, script: seq<ReadEvent>, bufferAlloc: bool,
                                               allocs: nat)
    requires Quiet(rx)
    ensures var r := ReadLoop(rx, net, script, bufferAlloc, allocs);
            && IsPrefix(rx.incoming, r.rx.incoming)
            && forall k :: |rx.incoming| <= k < |r.rx.incoming| ==> |r.rx.incoming[k]| + 4 <= ReceiveMtu(rx.mtu)
    decreases |script|
  {
    hide ReadTurn, Quiet, ReceiveMtu;
    TurnInStep(rx, net, script, bufferAlloc, allocs);
    TurnDeliversFitting(rx, net, script, bufferAlloc, allocs);
    var turn := ReadTurn(rx, net, script, bufferAlloc, allocs);
    if turn.Again? {
      DeliveredPacketsFit(turn.rx, net[turn.used..], script[1..], bufferAlloc, turn.left);
    }
  }

  lemma TurnDeliversFitting(rx: Rx, net: Bytes, script: seq<ReadEvent>, bufferAlloc: bool, allocs: nat)
    requires Quiet(rx)
    ensures var rx' := match ReadTurn(rx, net, script, bufferAlloc, allocs)
                       case Stop(r) => r.rx
                       case Again(rx', used, work, left) => rx';
            && IsPrefix(rx.incoming, rx'.incoming)
            && forall k :: |rx.incoming| <= k < |rx'.incoming| ==> |rx'.incoming[k]| + 4 <= ReceiveMtu(rx.mtu)
  {
    hide Decode, ReceiveMtu, Packets, Oversized;
    var rx0 := WithBuffer(rx);
    if script != [] && script[0].Got? {
      var n := ReadSize(rx0, net, script[0].limit);
      var rx1 := Received(rx0, net[..n], script[0].at);
      var d := Decode(rx1.partial);
      DecodeSound(rx1.partial);
      RawsNoLonger(d.raws, |rx1.partial|, d.tail);
      PacketsNoLonger(d.raws[..Handled(d.raws, allocs)], |rx1.partial|);
    }
  }

  lemma {:induction false} RawsNoLonger(rs: seq<Raw>, total: nat, tail: Bytes)
    requires |EncodeAll(rs) + tail| <= total
    ensures forall r :: r in rs ==> |r.payload| + 4 <= total
  {
    if rs != [] {
      RawsNoLonger(rs[1..], total, tail);
      assert forall r :: r in rs ==> r == rs[0] || r in rs[1..];
    }
  }

  lemma {:induction false} PacketsNoLonger(rs: seq<Raw>, total: nat)
    requires forall r :: r in rs ==> |r.payload| + 4 <= total
    ensures forall p :: p in Packets(rs) ==> |p| + 4 <= total
  {
    if rs != [] {
      PacketsNoLonger(rs[1..], total);
    }
  }

  /** No connection of the run has a receive buffer larger than `size`. */
  predicate BuffersWithin(c: Conn, events: seq<Event>, size: nat) {
    && ReceiveMtu(c.rx.mtu) <= size
    && forall k :: 0 <= k < |events| && events[k].MainLoop? && events[k].input.reconnect.Restored? ==>
         ReceiveMtu(events[k].input.reconnect.mtu) <= size
  }

  lemma CallDeliversFitting(c: Conn, i: Input, size: nat)
    requires OffsetsInRange(c.tx) && Quiet(c.rx) && BuffersWithin(c, [MainLoop(i)], size)
    ensures var next := Call(c, i).conn;
            && IsPrefix(c.rx.incoming, next.rx.incoming) && ReceiveMtu(next.rx.mtu) <= size
            && forall k :: |c.rx.incoming| <= k < |next.rx.incoming| ==> |next.rx.incoming[k]| + 4 <= size
  {
    hide ReadLoop, SendPhase, Quiet, OffsetsInRange, ReceiveMtu, LoopPostcondition;
    assert [MainLoop(i)][0] == MainLoop(i);
    DeliveredPacketsFit(c.rx, i.net, i.script, i.bufferAlloc, i.packetAllocs);
    ReadLoopInStep(c.rx, i.net, i.script, i.bufferAlloc, i.packetAllocs);
    MtuKept(c.rx, i.net, ReadLoop(c.rx, i.net, i.script, i.bufferAlloc, i.packetAllocs));
  }

  lemma MtuKept(rx: Rx, net: Bytes, r: ReadResult)
    requires LoopPostcondition(rx, net, r)
    ensures r.rx.mtu == rx.mtu
  {
  }

  /** In every run the incoming queue only grows, and every packet added fits the receive buffer with its header. */
  lemma {:induction false} RunDeliversFitting(c: Conn, events: seq<Event>, size: nat)
    requires OffsetsInRange(c.tx) && (c.quit || Quiet(c.rx)) && BuffersWithin(c, events, size)
    ensures var incoming := Run(c, events).rx.incoming;
            && IsPrefix(c.rx.incoming, incoming)
            && forall k :: |c.rx.incoming| <= k < |incoming| ==> |incoming[k]| + 4 <= size
    decreases |events|
  {
    hide Call, Quiet, OffsetsInRange, ReceiveMtu;
    if events != [] {
      var e := events[0];
      StepKeepsOffsets(c, e);
      if e.MainLoop? && !c.quit {
        assert BuffersWithin(c, [e], size) by { assert [e][0] == events[0]; }
        CallStaysQuiet(c, e.input);
        CallDeliversFitting(c, e.input, size);
      }
      assert BuffersWithin(Step(c, e), events[1..], size) by {
        assert forall k :: 0 <= k < |events[1..]| ==> events[1..][k] == events[k + 1];
      }
      RunDeliversFitting(Step(c, e), events[1..], size);
    }
  }
}
