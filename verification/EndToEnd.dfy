/** One transmit side, one receive side, and the bytes between them.

    The sender takes arbitrary main-loop calls; the receiver reads what is on the wire in arbitrary pieces.  As long
    as the sender does not reconnect, its two writers keep out of each other's frames and its packets fit the
    receiver's buffer, the packets queued by the receiver are at all times a prefix of the packets the sender has
    dequeued, byte for byte. */
module EndToEnd {
  import opened Wire
  import opened Link
  import opened Transmit
  import opened Framing
  import opened Receive

  datatype Joint = Joint(sender: Conn, rx: Rx, broken: bool)

  datatype JointEvent =
    | Send(event: Event)
    | Deliver(script: seq<ReadEvent>, bufferAlloc: bool, allocs: nat)

  /** The packets the sender has taken off its queue. */
  function Dequeued(tx: Tx): seq<Packet> {
    DataOf(tx.items) + Optional(tx.current)
  }

  predicate FitsReceiver(p: Packet, mtu: nat) {
    |p| <= MAX_FRAME_LEN && |p| + 4 <= ReceiveMtu(mtu)
  }

  /** What the theorem assumes of one event. */
  ghost predicate Admissible(j: Joint, e: JointEvent)
    requires OffsetsInRange(j.sender.tx)
  {
    match e
    case Send(Enqueue(p)) => FitsReceiver(p, j.rx.mtu)
    case Send(MainLoop(i)) => CallDisjoint(j.sender, i) && TryCall(j.sender, i).alive
    case Deliver(_, _, _) => true
  }

  ghost function JointStep(j: Joint, e: JointEvent): Joint
    requires OffsetsInRange(j.sender.tx)
  {
    match e
    case Send(event) => j.(sender := Step(j.sender, event))
    case Deliver(script, bufferAlloc, allocs) =>
      if j.broken || |j.rx.received| > |j.sender.tx.wire| then j
      else
        var r := ReadLoop(j.rx, j.sender.tx.wire[|j.rx.received|..], script, bufferAlloc, allocs);
        j.(rx := r.rx, broken := MustReconnect(r.stop))
  }

  /** The receiver is in step, or stopped for want of memory. */
  ghost predicate RxSound(rx: Rx) {
    InStep(rx) || exists k :: StoppedShort(rx, k)
  }

  ghost predicate SenderGood(c: Conn, mtu: nat) {
    && !c.quit && AllFramed(c) && Conserving(c)
    && forall p :: p in OnThisConnection(c.tx) ==> FitsReceiver(p, mtu)
  }

  ghost predicate Good(j: Joint) {
    && SenderGood(j.sender, j.rx.mtu)
    && IsPrefix(j.rx.received, j.sender.tx.wire)
    && (if j.broken then RxSound(j.rx) else Quiet(j.rx))
  }

  // ---------------------------------------------------------------------
  // From the wire to the receiver's queue

  function RawOf(item: Item): Raw {
    match item
    case Data(p) => Raw(TYPE_IPV4, p)
    case Beat => Raw(TYPE_KEEPALIVE, [])
  }

  function RawsOf(items: seq<Item>): seq<Raw> {
    if items == [] then [] else RawsOf(items[..|items| - 1]) + [RawOf(items[|items| - 1])]
  }

  lemma {:induction false} RawsEncode(items: seq<Item>)
    ensures EncodeAll(RawsOf(items)) == EncodeItems(items)
    ensures Packets(RawsOf(items)) == DataOf(items)
  {
    if items != [] {
      hide EncodeAll, Packets, EncodeItem;
      var front, last := items[..|items| - 1], items[|items| - 1];
      RawsEncode(front);
      EncodeAllAppend(RawsOf(front), [RawOf(last)]);
      PacketsAppend(RawsOf(front), [RawOf(last)]);
      OneRawOfItem(last);
    }
  }

  lemma {:induction false} RawsFit(items: seq<Item>, mtu: nat)
    requires forall p :: p in DataOf(items) ==> FitsReceiver(p, mtu)
    ensures AllSendable(RawsOf(items))
    ensures forall k :: 0 <= k < |RawsOf(items)| ==> 4 + |RawsOf(items)[k].payload| <= ReceiveMtu(mtu)
  {
    if items != [] {
      hide ReceiveMtu;
      var front, last := items[..|items| - 1], items[|items| - 1];
      assert forall p :: p in DataOf(front) ==> p in DataOf(items);
      assert last.Data? ==> last.packet in DataOf(items);
      RawsFit(front, mtu);
      RoomForHeader(mtu);
    }
  }

  lemma RawsOfItems(items: seq<Item>, mtu: nat)
    requires forall p :: p in DataOf(items) ==> FitsReceiver(p, mtu)
    ensures EncodeAll(RawsOf(items)) == EncodeItems(items)
    ensures Packets(RawsOf(items)) == DataOf(items)
    ensures AllSendable(RawsOf(items))
    ensures forall k :: 0 <= k < |RawsOf(items)| ==> 4 + |RawsOf(items)[k].payload| <= ReceiveMtu(mtu)
  {
    RawsEncode(items);
    RawsFit(items, mtu);
  }

  lemma RoomForHeader(mtu: nat)
    ensures 4 <= ReceiveMtu(mtu)
  {
  }

  lemma OneRawOfItem(item: Item)
    ensures EncodeAll([RawOf(item)]) == EncodeItem(item)
    ensures Packets([RawOf(item)]) == if item.Data? then [item.packet] else []
    ensures RawOf(item).kind < 0x1_0000
  {
  }

  /** What is on the wire is the beginning of the encoding of some items, whose packets have all been dequeued. */
  lemma WireIsBegunItems(tx: Tx) returns (items: seq<Item>)
    requires Framed(tx)
    ensures IsPrefix(tx.wire, EncodeItems(items)) && IsPrefix(DataOf(items), Dequeued(tx))
    ensures tx.txOffset == 0 && tx.hbOffset == 0 ==> tx.wire == EncodeItems(items) && DataOf(items) == DataOf(tx.items)
  {
    hide EncodeItems, DataOf, Encode;
    if tx.hbOffset > 0 {
      items := tx.items + [Beat];
      AppendItem(tx.items, Beat);
      assert Begun(tx.current, 0) == [];
      assert tx.wire == EncodeItems(tx.items) + KEEPALIVE_REQUEST[..tx.hbOffset];
    } else if tx.txOffset > 0 {
      items := tx.items + [Data(tx.current.value)];
      AppendItem(tx.items, Data(tx.current.value));
      assert tx.wire == EncodeItems(tx.items) + FrameOf(tx.current.value)[..tx.txOffset];
    } else {
      items := tx.items;
      assert Begun(tx.current, 0) == [];
      assert tx.wire == EncodeItems(tx.items);
    }
  }

  lemma PacketsOfPrefix(a: seq<Raw>, b: seq<Raw>)
    requires IsPrefix(a, b)
    ensures IsPrefix(Packets(a), Packets(b))
  {
  }

  lemma PrefixTransitive<T>(a: seq<T>, b: seq<T>, c: seq<T>)
    requires IsPrefix(a, b) && IsPrefix(b, c)
    ensures IsPrefix(a, c)
  {
  }

  lemma DequeuedFits(tx: Tx, items: seq<Item>, mtu: nat)
    requires IsPrefix(DataOf(items), Dequeued(tx))
    requires forall p :: p in OnThisConnection(tx) ==> FitsReceiver(p, mtu)
    ensures forall p :: p in DataOf(items) ==> FitsReceiver(p, mtu)
  {
  }

  /** Decoding any beginning of the wire gives packets the sender has dequeued, in order. */
  lemma DecodedWasDequeued(tx: Tx, mtu: nat, received: Bytes)
    requires Framed(tx) && IsPrefix(received, tx.wire)
    requires forall p :: p in OnThisConnection(tx) ==> FitsReceiver(p, mtu)
    ensures IsPrefix(Packets(Decode(received).raws), Dequeued(tx))
  {
    hide Framed, DataOf, EncodeItems, Decode, Packets, RawsOf, EncodeAll, OnThisConnection, FitsReceiver;
    var items := WireIsBegunItems(tx);
    DequeuedFits(tx, items, mtu);
    RawsOfItems(items, mtu);
    PrefixTransitive(received, tx.wire, EncodeItems(items));
    DecodePrefix(RawsOf(items), received);
    PacketsOfPrefix(Decode(received).raws, RawsOf(items));
    PrefixTransitive(Packets(Decode(received).raws), DataOf(items), Dequeued(tx));
  }

  // ---------------------------------------------------------------------
  // Events keep the invariant

  lemma OutgoingGrowsWire(tx: Tx, write: WriteEvent, at: int)
    requires OffsetsInRange(tx)
    ensures IsPrefix(tx.wire, HandleOutgoing(tx, write, at).tx.wire)
  {
    hide FrameOf;
  }

  lemma KeepaliveGrowsWire(tx: Tx, keepaliveTime: int, now: int, write: WriteEvent, at: int)
    requires OffsetsInRange(tx)
    ensures IsPrefix(tx.wire, Keepalive(tx, keepaliveTime, now, write, at).tx.wire)
  {
    hide FrameOf;
  }

  lemma SendGrowsWire(tx: Tx, keepaliveTime: int, lastRx: int, i: Input)
    requires OffsetsInRange(tx)
    ensures IsPrefix(tx.wire, SendPhase(tx, keepaliveTime, lastRx, i).tx.wire)
  {
    hide HandleOutgoing, Keepalive, OffsetsInRange;
    OutgoingKeepsOffsets(tx, i.dataWrite, i.dataAt);
    OutgoingGrowsWire(tx, i.dataWrite, i.dataAt);
    KeepaliveGrowsWire(HandleOutgoing(tx, i.dataWrite, i.dataAt).tx, keepaliveTime, i.now, i.beatWrite, i.beatAt);
  }

  lemma AliveCall(c: Conn, i: Input, mtu: nat)
    requires SenderGood(c, mtu) && OffsetsInRange(c.tx)
    requires CallDisjoint(c, i) && TryCall(c, i).alive
    ensures SenderGood(Step(c, MainLoop(i)), mtu)
    ensures IsPrefix(c.tx.wire, Step(c, MainLoop(i)).tx.wire)
  {
    hide SendPhase, ReadPhase, Framed, DataInOrder, SessionFramed, SessionInOrder, OffsetsInRange, OnThisConnection,
      CallDisjoint, CallFramed, FitsReceiver, Whereabouts;
    CallFramedExactly(c, i);
    InOrderMeansInRange(c.tx);
    var read := ReadPhase(c, i);
    SendConserves(c.tx, c.keepaliveTime, read.rx.lastRx, i);
    SendGrowsWire(c.tx, c.keepaliveTime, read.rx.lastRx, i);
  }

  lemma EnqueueGood(c: Conn, p: Packet, mtu: nat)
    requires SenderGood(c, mtu) && FitsReceiver(p, mtu) && OffsetsInRange(c.tx)
    ensures SenderGood(Step(c, Enqueue(p)), mtu) && Step(c, Enqueue(p)).tx.wire == c.tx.wire
  {
  }

  lemma SenderInRange(c: Conn, mtu: nat)
    requires SenderGood(c, mtu)
    ensures OffsetsInRange(c.tx) && Framed(c.tx)
  {
  }

  lemma DeliverGood(j: Joint, e: JointEvent)
    requires Good(j) && e.Deliver? && OffsetsInRange(j.sender.tx)
    ensures Good(JointStep(j, e))
  {
    hide ReadLoop, SenderGood, Quiet, InStep, StoppedShort, BlockedByBigFrame, Oversized, OffsetsInRange, ReceiveMtu;
    if !j.broken {
      var net := j.sender.tx.wire[|j.rx.received|..];
      ReadLoopInStep(j.rx, net, e.script, e.bufferAlloc, e.allocs);
      var r := ReadLoop(j.rx, net, e.script, e.bufferAlloc, e.allocs);
      assert j.sender.tx.wire == j.rx.received + net;
      assert r.rx.received == j.sender.tx.wire[..|j.rx.received| + r.used];
      QuietIsInStep(r.rx);
      match r.stop
      case Drained | NoBuffer | ReadError | Overflow =>
      case ParserStopped(error) =>
        assert error == NoMemory || error == TooLarge;
        assert RxSound(r.rx);
    }
  }

  lemma QuietIsInStep(rx: Rx)
    ensures Quiet(rx) ==> InStep(rx)
  {
  }

  lemma JointStepGood(j: Joint, e: JointEvent)
    requires Good(j) && OffsetsInRange(j.sender.tx) && Admissible(j, e)
    ensures Good(JointStep(j, e))
  {
    hide SenderGood, Quiet, RxSound, CallDisjoint, TryCall, Step, ReadLoop, FitsReceiver;
    match e
    case Deliver(script, bufferAlloc, allocs) => DeliverGood(j, e);
    case Send(Enqueue(p)) => EnqueueGood(j.sender, p, j.rx.mtu);
    case Send(MainLoop(i)) =>
      AliveCall(j.sender, i, j.rx.mtu);
      PrefixTransitive(j.rx.received, j.sender.tx.wire, Step(j.sender, MainLoop(i)).tx.wire);
  }

  // ---------------------------------------------------------------------
  // Whole joint runs

  ghost predicate AllAdmissible(j: Joint, events: seq<JointEvent>)
    decreases |events|
  {
    events != [] ==>
      && OffsetsInRange(j.sender.tx)
      && Admissible(j, events[0])
      && AllAdmissible(JointStep(j, events[0]), events[1..])
  }

  ghost function JointRun(j: Joint, events: seq<JointEvent>): Joint
    requires AllAdmissible(j, events)
    decreases |events|
  {
    if events == [] then j else JointRun(JointStep(j, events[0]), events[1..])
  }

  lemma {:induction false} JointRunGood(j: Joint, events: seq<JointEvent>)
    requires Good(j) && AllAdmissible(j, events)
    ensures Good(JointRun(j, events))
    ensures JointRun(j, events).rx.before == j.rx.before
    decreases |events|
  {
    hide Good, Admissible, JointStep;
    if events != [] {
      JointStepGood(j, events[0]);
      ReceiverKeepsBase(j, events[0]);
      JointRunGood(JointStep(j, events[0]), events[1..]);
    }
  }

  lemma ReceiverKeepsBase(j: Joint, e: JointEvent)
    requires Good(j) && OffsetsInRange(j.sender.tx)
    ensures JointStep(j, e).rx.before == j.rx.before
  {
    hide ReadLoop, SenderGood, Quiet, Step, RxSound;
    if e.Deliver? && !j.broken {
      ReadLoopInStep(j.rx, j.sender.tx.wire[|j.rx.received|..], e.script, e.bufferAlloc, e.allocs);
    }
  }

  lemma SoundQueueIsPrefix(rx: Rx)
    requires RxSound(rx)
    ensures IsPrefix(rx.incoming, rx.before + Packets(Decode(rx.received).raws))
  {
    hide Decode, Packets, EncodeAll;
    var d := Decode(rx.received);
    if !InStep(rx) {
      var k: nat :| StoppedShort(rx, k);
      PacketsOfPrefix(d.raws[..k], d.raws);
    }
  }

  /** In every joint run from a fresh pair, the receiver's queue is a prefix of what the sender dequeued. */
  lemma QueuedIsPrefixOfDequeued(j: Joint, events: seq<JointEvent>)
    requires Fresh(j.sender) && j.sender.tx.outgoing == []
    requires !j.broken && !j.rx.hasBuffer && j.rx.partial == [] && j.rx.received == [] && j.rx.incoming == j.rx.before
    requires AllAdmissible(j, events)
    ensures var end := JointRun(j, events);
            IsPrefix(end.rx.incoming, j.rx.before + Dequeued(end.sender.tx))
  {
    hide AllAdmissible, JointRun, Decode, Packets, Dequeued, RxSound, EncodeItems, Framed, FitsReceiver, Conserving;
    StartIsGood(j);
    JointRunGood(j, events);
    var end := JointRun(j, events);
    QuietIsInStep(end.rx);
    assert RxSound(end.rx) by { SoundEitherWay(end); }
    SenderInRange(end.sender, end.rx.mtu);
    SoundQueueIsPrefix(end.rx);
    DecodedWasDequeued(end.sender.tx, end.rx.mtu, end.rx.received);
    PrefixUnder(end.rx.before, Packets(Decode(end.rx.received).raws), Dequeued(end.sender.tx));
    PrefixTransitive(end.rx.incoming, end.rx.before + Packets(Decode(end.rx.received).raws),
                     end.rx.before + Dequeued(end.sender.tx));
  }

  lemma SoundEitherWay(j: Joint)
    requires Good(j)
    ensures RxSound(j.rx)
  {
  }

  lemma PrefixUnder<T>(front: seq<T>, a: seq<T>, b: seq<T>)
    requires IsPrefix(a, b)
    ensures IsPrefix(front + a, front + b)
  {
  }

  lemma StartIsGood(j: Joint)
    requires Fresh(j.sender) && j.sender.tx.outgoing == []
    requires !j.broken && !j.rx.hasBuffer && j.rx.partial == [] && j.rx.received == [] && j.rx.incoming == j.rx.before
    ensures Good(j)
  {
  }

  // ---------------------------------------------------------------------
  // The two operating conditions

  /** The packets fit and the call does not reconnect; with `whole`, its writes take all or nothing. */
  ghost predicate InOperation(j: Joint, e: JointEvent, whole: bool)
    requires OffsetsInRange(j.sender.tx)
  {
    match e
    case Send(Enqueue(p)) => FitsReceiver(p, j.rx.mtu)
    case Send(MainLoop(i)) => TryCall(j.sender, i).alive && (whole ==> CallWhole(j.sender, i))
    case Deliver(_, _, _) => true
  }

  ghost predicate AllInOperation(j: Joint, events: seq<JointEvent>, whole: bool)
    decreases |events|
  {
    events != [] ==>
      && OffsetsInRange(j.sender.tx)
      && InOperation(j, events[0], whole)
      && AllInOperation(JointStep(j, events[0]), events[1..], whole)
  }

  /** Either operating condition: writes are whole and no frame is begun, or keepalives are off. */
  ghost predicate Conditions(c: Conn, whole: bool) {
    OffsetsInRange(c.tx) && if whole then AtBoundary(c.tx) else WithoutBeats(c)
  }

  lemma QuietCallDisjoint(c: Conn, i: Input)
    requires WithoutBeats(c) && TryCall(c, i).alive
    ensures CallDisjoint(c, i) && WithoutBeats(TryCall(c, i).conn)
  {
    hide ReadPhase, FrameOf, PeerOverdue;
    CallKeepsOffsets(c, i);
  }

  lemma WholeCallDisjoint(c: Conn, i: Input)
    requires OffsetsInRange(c.tx) && AtBoundary(c.tx) && CallWhole(c, i) && TryCall(c, i).alive
    ensures CallDisjoint(c, i) && OffsetsInRange(TryCall(c, i).conn.tx) && AtBoundary(TryCall(c, i).conn.tx)
  {
    hide HandleOutgoing, Keepalive, ReadPhase, OffsetsInRange, CallWhole, PeerOverdue;
    SendAtBoundary(c, i);
    CallKeepsOffsets(c, i);
  }

  lemma CallInOperation(c: Conn, i: Input, whole: bool)
    requires Conditions(c, whole) && TryCall(c, i).alive && (whole ==> CallWhole(c, i))
    ensures CallDisjoint(c, i) && Conditions(Step(c, MainLoop(i)), whole)
  {
    hide TryCall, CallDisjoint, AtBoundary, WithoutBeats, OffsetsInRange, CallWhole;
    if whole {
      WholeCallDisjoint(c, i);
    } else {
      QuietCallDisjoint(c, i);
      CallKeepsOffsets(c, i);
    }
  }

  lemma EventAdmissible(j: Joint, e: JointEvent, whole: bool)
    requires Conditions(j.sender, whole) && InOperation(j, e, whole)
    ensures Admissible(j, e) && Conditions(JointStep(j, e).sender, whole)
  {
    hide TryCall, CallDisjoint, FrameOf, CallWhole, FitsReceiver, ReadLoop;
    match e
    case Send(Enqueue(p)) =>
    case Send(MainLoop(i)) =>
      hide Step;
      CallInOperation(j.sender, i, whole);
    case Deliver(script, bufferAlloc, allocs) =>
  }

  /** In operation the two writers keep out of each other's frames. */
  lemma {:induction false} OperationIsAdmissible(j: Joint, events: seq<JointEvent>, whole: bool)
    requires Conditions(j.sender, whole) && AllInOperation(j, events, whole)
    ensures AllAdmissible(j, events)
    decreases |events|
  {
    hide JointStep, Admissible, InOperation;
    if events != [] {
      EventAdmissible(j, events[0], whole);
      OperationIsAdmissible(JointStep(j, events[0]), events[1..], whole);
    }
  }

  /** From a fresh pair, with keepalives off or with writes that take all or nothing, packets that fit and no
      reconnect, the receiver's queue is at all times a prefix of what the sender dequeued. */
  lemma QueuedIsPrefixInOperation(j: Joint, events: seq<JointEvent>, whole: bool)
    requires Fresh(j.sender) && j.sender.tx.outgoing == [] && (whole || j.sender.keepaliveTime <= 0)
    requires !j.broken && !j.rx.hasBuffer && j.rx.partial == [] && j.rx.received == [] && j.rx.incoming == j.rx.before
    requires AllInOperation(j, events, whole)
    ensures AllAdmissible(j, events)
    ensures IsPrefix(JointRun(j, events).rx.incoming, j.rx.before + Dequeued(JointRun(j, events).sender.tx))
  {
    hide AllAdmissible, AllInOperation, JointRun, Dequeued;
    assert Conditions(j.sender, whole);
    OperationIsAdmissible(j, events, whole);
    QueuedIsPrefixOfDequeued(j, events);
  }

  /** Once everything on the wire has been read and no frame is begun, the receiver has every finished packet. */
  lemma NothingMissing(j: Joint)
    requires Good(j) && !j.broken
    requires j.rx.received == j.sender.tx.wire && AtBoundary(j.sender.tx)
    ensures j.rx.incoming == j.rx.before + DataOf(j.sender.tx.items) && j.rx.partial == []
  {
    hide Framed, DataOf, EncodeItems, Decode, Packets, RawsOf, EncodeAll, OnThisConnection, FitsReceiver, Conserving;
    var tx := j.sender.tx;
    SenderInRange(j.sender, j.rx.mtu);
    var items := WireIsBegunItems(tx);
    DequeuedFits(tx, items, j.rx.mtu);
    RawsOfItems(items, j.rx.mtu);
    assert EncodeAll(RawsOf(items)) + [] == tx.wire;
    NothingIsReady();
    DecodeEncode(RawsOf(items), []);
  }

  lemma NothingIsReady()
    ensures !Ready([])
  {
  }

  /** The receiver's overflow and oversized-frame branches are never reached. */
  lemma ReceiverNeverOverflows(j: Joint, e: JointEvent)
    requires Good(j) && !j.broken && e.Deliver?
    ensures var r := ReadLoop(j.rx, j.sender.tx.wire[|j.rx.received|..], e.script, e.bufferAlloc, e.allocs);
            !r.stop.Overflow? && r.stop != ParserStopped(TooLarge)
  {
    hide Framed, DataOf, EncodeItems, Decode, Packets, RawsOf, EncodeAll, OnThisConnection, FitsReceiver, ReadLoop,
      ReceiveMtu, Conserving, Quiet;
    var tx := j.sender.tx;
    SenderInRange(j.sender, j.rx.mtu);
    var items := WireIsBegunItems(tx);
    DequeuedFits(tx, items, j.rx.mtu);
    RawsOfItems(items, j.rx.mtu);
    assert j.rx.received + tx.wire[|j.rx.received|..] == tx.wire;
    FittingStreamNeverStops(j.rx, tx.wire[|j.rx.received|..], e.script, e.bufferAlloc, e.allocs, RawsOf(items));
  }
}
