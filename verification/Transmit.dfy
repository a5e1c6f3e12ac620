/** The transmit side: what reaches the wire, and what becomes of every packet. */
module Transmit {
  import opened Wrappers
  import opened Wire
  import opened Link

  function EncodeItem(item: Item): Bytes {
    match item
    case Data(packet) => FrameOf(packet)
    case Beat => KEEPALIVE_REQUEST
  }

  function EncodeItems(items: seq<Item>): Bytes {
    if items == [] then [] else EncodeItems(items[..|items| - 1]) + EncodeItem(items[|items| - 1])
  }

  function EncodePackets(packets: seq<Packet>): Bytes {
    if packets == [] then [] else EncodePackets(packets[..|packets| - 1]) + FrameOf(packets[|packets| - 1])
  }

  function DataOf(items: seq<Item>): seq<Packet> {
    if items == [] then []
    else
      var last := items[|items| - 1];
      DataOf(items[..|items| - 1]) + (if last.Data? then [last.packet] else [])
  }

  function Optional<T>(o: Option<T>): seq<T> {
    if o.Some? then [o.value] else []
  }

  /** The first `cut` bytes of a frame that is not finished. */
  function Begun(packet: Option<Packet>, cut: nat): Bytes
    requires packet.Some? ==> cut <= |FrameOf(packet.value)|
  {
    if packet.Some? then FrameOf(packet.value)[..cut] else []
  }

  lemma AppendItem(items: seq<Item>, item: Item)
    ensures EncodeItems(items + [item]) == EncodeItems(items) + EncodeItem(item)
    ensures DataOf(items + [item]) == DataOf(items) + (if item.Data? then [item.packet] else [])
  {
  }

  lemma AppendPacket(packets: seq<Packet>, packet: Packet)
    ensures EncodePackets(packets + [packet]) == EncodePackets(packets) + FrameOf(packet)
  {
  }

  // ---------------------------------------------------------------------
  // No packet is lost, repeated, reordered or resumed on another connection

  /** The data bytes on this connection are the finished packets in order, then the accepted part of the current one. */
  ghost predicate DataInOrder(tx: Tx) {
    && OffsetsInRange(tx)
    && tx.dataWire == EncodePackets(DataOf(tx.items)) + Begun(tx.current, tx.txOffset)
  }

  /** The same for a connection that was closed; at most one packet was cut off. */
  ghost predicate SessionInOrder(s: Session) {
    && (s.dropped.Some? ==> s.cut < |FrameOf(s.dropped.value)|)
    && s.dataWire == EncodePackets(DataOf(s.items)) + Begun(s.dropped, s.cut)
  }

  /** The packets written or dropped on closed connections, oldest first. */
  function Departed(closed: seq<Session>): seq<Packet> {
    if closed == [] then []
    else
      var last := closed[|closed| - 1];
      Departed(closed[..|closed| - 1]) + DataOf(last.items) + Optional(last.dropped)
  }

  /** Where every packet is: gone with an earlier connection, finished, in flight, or still queued. */
  function Whereabouts(c: Conn): seq<Packet> {
    Departed(c.closed) + DataOf(c.tx.items) + Optional(c.tx.current) + c.tx.outgoing
  }

  function OnThisConnection(tx: Tx): seq<Packet> {
    DataOf(tx.items) + Optional(tx.current) + tx.outgoing
  }

  ghost predicate Conserving(c: Conn) {
    DataInOrder(c.tx) && forall k :: 0 <= k < |c.closed| ==> SessionInOrder(c.closed[k])
  }

  lemma PartialWriteConserves(tx: Tx, write: WriteEvent, at: int)
    requires DataInOrder(tx) && tx.current.Some? && write.Took?
    requires tx.txOffset + write.limit < |FrameOf(tx.current.value)|
    ensures var next := WriteData(tx, write, at).tx;
            DataInOrder(next) && OnThisConnection(next) == OnThisConnection(tx)
  {
    hide FrameOf, EncodePackets, DataOf;
    var frame := FrameOf(tx.current.value);
    var off := tx.txOffset + write.limit;
    assert frame[..tx.txOffset] + frame[tx.txOffset..off] == frame[..off];
    var done := EncodePackets(DataOf(tx.items));
    assert done + frame[..tx.txOffset] + frame[tx.txOffset..off] == done + frame[..off];
  }

  lemma FinalWriteConserves(tx: Tx, write: WriteEvent, at: int)
    requires DataInOrder(tx) && tx.current.Some? && write.Took?
    requires tx.txOffset + write.limit >= |FrameOf(tx.current.value)|
    ensures var next := WriteData(tx, write, at).tx;
            DataInOrder(next) && OnThisConnection(next) == OnThisConnection(tx)
  {
    hide FrameOf, EncodePackets, DataOf;
    var packet := tx.current.value;
    var frame := FrameOf(packet);
    assert frame[..tx.txOffset] + frame[tx.txOffset..|frame|] == frame;
    var done := EncodePackets(DataOf(tx.items));
    assert done + frame[..tx.txOffset] + frame[tx.txOffset..|frame|] == done + frame;
    AppendItem(tx.items, Data(packet));
    AppendPacket(DataOf(tx.items), packet);
    assert done + frame + [] == done + frame;
  }

  lemma WriteDataConserves(tx: Tx, write: WriteEvent, at: int)
    requires DataInOrder(tx) && tx.current.Some?
    ensures var next := WriteData(tx, write, at).tx;
            DataInOrder(next) && OnThisConnection(next) == OnThisConnection(tx)
  {
    hide FrameOf, OnThisConnection;
    if write.Took? {
      hide WriteData, DataInOrder;
      if tx.txOffset + write.limit < |FrameOf(tx.current.value)| {
        PartialWriteConserves(tx, write, at);
      } else {
        FinalWriteConserves(tx, write, at);
      }
    }
  }

  lemma OutgoingConserves(tx: Tx, write: WriteEvent, at: int)
    requires DataInOrder(tx)
    ensures var next := HandleOutgoing(tx, write, at).tx;
            DataInOrder(next) && OnThisConnection(next) == OnThisConnection(tx)
  {
    hide WriteData, EncodePackets, Encode;
    var next := TakeNext(tx);
    assert Begun(next.current, next.txOffset) == Begun(tx.current, tx.txOffset);
    assert OnThisConnection(next) == OnThisConnection(tx) by {
      if tx.current.None? && tx.outgoing != [] {
        assert tx.outgoing == [tx.outgoing[0]] + tx.outgoing[1..];
      }
    }
    if next.current.Some? {
      WriteDataConserves(next, write, at);
    }
  }

  lemma KeepaliveConserves(tx: Tx, keepaliveTime: int, now: int, write: WriteEvent, at: int)
    requires DataInOrder(tx)
    ensures var next := Keepalive(tx, keepaliveTime, now, write, at).tx;
            DataInOrder(next) && OnThisConnection(next) == OnThisConnection(tx)
  {
    hide EncodePackets, FrameOf;
    AppendItem(tx.items, Beat);
    assert DataOf(tx.items + [Beat]) == DataOf(tx.items);
  }

  lemma SendConserves(tx: Tx, keepaliveTime: int, lastRx: int, i: Input)
    requires DataInOrder(tx)
    ensures var next := SendPhase(tx, keepaliveTime, lastRx, i).tx;
            DataInOrder(next) && OnThisConnection(next) == OnThisConnection(tx)
  {
    hide HandleOutgoing, Keepalive, DataInOrder, OnThisConnection, OffsetsInRange;
    InOrderMeansInRange(tx);
    OutgoingConserves(tx, i.dataWrite, i.dataAt);
    var out := HandleOutgoing(tx, i.dataWrite, i.dataAt);
    InOrderMeansInRange(out.tx);
    KeepaliveConserves(out.tx, keepaliveTime, i.now, i.beatWrite, i.beatAt);
  }

  lemma InOrderMeansInRange(tx: Tx)
    requires DataInOrder(tx)
    ensures OffsetsInRange(tx)
  {
  }

  lemma WhereaboutsSplit(c: Conn)
    ensures Whereabouts(c) == Departed(c.closed) + OnThisConnection(c.tx)
  {
  }

  /** Dropping the connection drops at most the packet in flight, and forgets no other. */
  lemma DropConserves(c: Conn)
    requires Conserving(c)
    ensures var next := DropInFlight(c);
            && Conserving(next) && Whereabouts(next) == Whereabouts(c)
            && |next.closed| == |c.closed| + 1 && next.closed[..|c.closed|] == c.closed
  {
  }

  lemma RestartConserves(c: Conn, at: int, mtu: nat, keepaliveTime: int)
    requires Conserving(c) && c.tx.current.None?
    ensures var next := Restart(c, at, mtu, keepaliveTime);
            Conserving(next) && Whereabouts(next) == Whereabouts(c) && next.closed == c.closed
  {
  }

  lemma ReconnectConserves(c: Conn, event: ReconnectEvent)
    requires Conserving(c)
    ensures var next := Reconnect(c, event).conn;
            && Conserving(next) && Whereabouts(next) == Whereabouts(c)
            && |next.closed| == |c.closed| + 1 && next.closed[..|c.closed|] == c.closed
            && next.tx.current.None?
            && !Reconnect(c, event).outcome.Worked?
  {
    hide DataInOrder, SessionInOrder, Departed, DataOf, OnThisConnection, SessionOf, Restart;
    DropConserves(c);
    if event.Restored? {
      RestartConserves(DropInFlight(c), event.at, event.mtu, event.keepaliveTime);
      RestartKeepsCurrent(DropInFlight(c), event.at, event.mtu, event.keepaliveTime);
    }
  }

  lemma RestartKeepsCurrent(c: Conn, at: int, mtu: nat, keepaliveTime: int)
    ensures Restart(c, at, mtu, keepaliveTime).tx.current == c.tx.current
  {
  }

  lemma TryConserves(c: Conn, i: Input)
    requires Conserving(c)
    ensures OffsetsInRange(c.tx)
    ensures var a := TryCall(c, i);
            Conserving(a.conn) && Whereabouts(a.conn) == Whereabouts(c) && a.conn.closed == c.closed
  {
    hide SendPhase, ReadPhase, DataInOrder, SessionInOrder, DataOf, Departed, OffsetsInRange, Whereabouts,
      OnThisConnection;
    InOrderMeansInRange(c.tx);
    var a := TryCall(c, i);
    SendConserves(c.tx, c.keepaliveTime, ReadPhase(c, i).rx.lastRx, i);
    WhereaboutsSplit(c);
    WhereaboutsSplit(a.conn);
  }

  lemma CallConserves(c: Conn, i: Input)
    requires Conserving(c)
    ensures OffsetsInRange(c.tx)
    ensures var r := Call(c, i);
            && Conserving(r.conn) && Whereabouts(r.conn) == Whereabouts(c)
            && (r.outcome.Worked? ==> r.conn.closed == c.closed)
            && (!r.outcome.Worked? ==> |r.conn.closed| == |c.closed| + 1 && r.conn.closed[..|c.closed|] == c.closed)
  {
    hide TryCall, Reconnect, Conserving, Whereabouts, OffsetsInRange;
    TryConserves(c, i);
    ReconnectConserves(TryCall(c, i).conn, i.reconnect);
  }

  function Enqueued(events: seq<Event>): seq<Packet> {
    if events == [] then []
    else (if events[0].Enqueue? then [events[0].packet] else []) + Enqueued(events[1..])
  }

  /** In every run, whatever the sockets do: each packet is in exactly one place, in order; the data bytes of every
      connection are whole packets and at most one cut-off packet, which starts from its first byte. */
  lemma {:induction false} PacketsConserved(c: Conn, events: seq<Event>)
    requires Conserving(c)
    ensures OffsetsInRange(c.tx)
    ensures Conserving(Run(c, events))
    ensures Whereabouts(Run(c, events)) == Whereabouts(c) + Enqueued(events)
    ensures |Run(c, events).closed| <= |c.closed| + |events|
    decreases |events|
  {
    hide Step, Conserving, Whereabouts, OffsetsInRange;
    ConservingMeansInRange(c);
    if events != [] {
      var e := events[0];
      StepConserves(c, e);
      PacketsConserved(Step(c, e), events[1..]);
      var now, soon := Enqueued([e]), Enqueued(events[1..]);
      assert Enqueued(events) == now + soon by { assert [e][1..] == []; }
      assert Whereabouts(c) + now + soon == Whereabouts(c) + (now + soon);
    }
  }

  lemma ConservingMeansInRange(c: Conn)
    requires Conserving(c)
    ensures OffsetsInRange(c.tx)
  {
  }

  lemma StepConserves(c: Conn, e: Event)
    requires Conserving(c)
    ensures OffsetsInRange(c.tx)
    ensures Conserving(Step(c, e))
    ensures Whereabouts(Step(c, e)) == Whereabouts(c) + Enqueued([e])
    ensures |Step(c, e).closed| <= |c.closed| + 1
  {
    hide Call, EncodePackets, SessionInOrder, DataOf, Departed, FrameOf;
    if e.MainLoop? && !c.quit {
      CallConserves(c, e.input);
    }
  }

  lemma FreshConserves(c: Conn)
    requires Fresh(c)
    ensures Conserving(c) && Whereabouts(c) == c.tx.outgoing
  {
  }
}
