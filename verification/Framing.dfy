/** When is the byte stream on the wire a sequence of whole frames?

    The data writer and the keepalive writer each save their own offset and do not look at the other's.  The stream
    stays framed exactly as long as neither writes while the other has begun a frame (`FramedExactly`).  Both
    operating conditions the design relies on, keepalives switched off and writes that take all or nothing, imply
    that; a partial write followed by a keepalive does not (`InterleavingBreaksFraming`). */
module Framing {
  import opened Wrappers
  import opened Wire
  import opened Link
  import opened Transmit

  /** Whole frames, then at most one that is begun. */
  ghost predicate Framed(tx: Tx) {
    && OffsetsInRange(tx)
    && (tx.txOffset == 0 || tx.hbOffset == 0)
    && tx.wire == EncodeItems(tx.items) + Begun(tx.current, tx.txOffset) + KEEPALIVE_REQUEST[..tx.hbOffset]
  }

  ghost predicate SessionFramed(s: Session) {
    && (s.dropped.Some? ==> s.cut < |FrameOf(s.dropped.value)|)
    && s.beatCut < 4 && (s.cut == 0 || s.beatCut == 0)
    && s.wire == EncodeItems(s.items) + Begun(s.dropped, s.cut) + KEEPALIVE_REQUEST[..s.beatCut]
  }

  predicate AcceptsBytes(write: WriteEvent) {
    write.Took? && write.limit > 0
  }

  /** No data goes out while a keepalive is begun. */
  predicate DataDisjoint(tx: Tx, write: WriteEvent) {
    AcceptsBytes(write) && TakeNext(tx).current.Some? ==> tx.hbOffset == 0
  }

  predicate BeatDue(tx: Tx, keepaliveTime: int, now: int) {
    tx.hbPending || now >= tx.lastTx + keepaliveTime
  }

  /** No keepalive goes out while a data frame is begun. */
  predicate BeatDisjoint(tx: Tx, keepaliveTime: int, now: int, write: WriteEvent) {
    AcceptsBytes(write) && BeatDue(tx, keepaliveTime, now) ==> tx.txOffset == 0
  }

  // ---------------------------------------------------------------------
  // One write

  lemma FirstBytes(packet: Packet)
    ensures FrameOf(packet)[0] == 1 && KEEPALIVE_REQUEST[0] == 2
  {
  }

  /** Bytes placed at the same position can be compared. */
  lemma DifferAt(front: Bytes, a: Bytes, b: Bytes)
    requires a != [] && b != [] && a[0] != b[0]
    ensures front + a != front + b
  {
    assert (front + a)[|front|] == a[0] && (front + b)[|front|] == b[0];
  }

  lemma DataPart(tx: Tx, write: WriteEvent, at: int)
    requires Framed(tx) && tx.current.Some? && tx.hbOffset == 0
    requires write.Took? && tx.txOffset + write.limit < |FrameOf(tx.current.value)|
    ensures Framed(WriteData(tx, write, at).tx)
  {
    hide FrameOf, EncodeItems;
    var frame := FrameOf(tx.current.value);
    var off := tx.txOffset + write.limit;
    assert frame[..tx.txOffset] + frame[tx.txOffset..off] == frame[..off];
    assert WriteData(tx, write, at).tx.wire == EncodeItems(tx.items) + frame[..off] + KEEPALIVE_REQUEST[..0];
  }

  lemma DataWhole(tx: Tx, write: WriteEvent, at: int)
    requires Framed(tx) && tx.current.Some? && tx.hbOffset == 0
    requires write.Took? && tx.txOffset + write.limit >= |FrameOf(tx.current.value)|
    ensures Framed(WriteData(tx, write, at).tx)
  {
    hide FrameOf, EncodeItems;
    var frame := FrameOf(tx.current.value);
    AppendItem(tx.items, Data(tx.current.value));
    assert frame[..tx.txOffset] + frame[tx.txOffset..|frame|] == frame;
    assert WriteData(tx, write, at).tx.wire == EncodeItems(tx.items) + frame + [] + KEEPALIVE_REQUEST[..0];
  }

  lemma DataAlone(tx: Tx, write: WriteEvent, at: int)
    requires Framed(tx) && tx.current.Some? && tx.hbOffset == 0
    ensures Framed(WriteData(tx, write, at).tx)
  {
    hide FrameOf, Framed;
    if write.Took? {
      hide WriteData;
      if tx.txOffset + write.limit < |FrameOf(tx.current.value)| {
        DataPart(tx, write, at);
      } else {
        DataWhole(tx, write, at);
      }
    }
  }

  lemma DataBlocked(tx: Tx, write: WriteEvent, at: int)
    requires Framed(tx) && tx.current.Some? && !AcceptsBytes(write)
    ensures WriteData(tx, write, at).tx == tx
  {
  }

  lemma DataOverBeat(tx: Tx, write: WriteEvent, at: int)
    requires Framed(tx) && tx.current.Some? && AcceptsBytes(write) && tx.hbOffset > 0
    ensures !Framed(WriteData(tx, write, at).tx)
  {
    hide FrameOf, EncodeItems;
    var packet := tx.current.value;
    var frame, beat, done := FrameOf(packet), KEEPALIVE_REQUEST[..tx.hbOffset], EncodeItems(tx.items);
    var next := WriteData(tx, write, at).tx;
    if next.txOffset == 0 {
      FirstBytes(packet);
      AppendItem(tx.items, Data(packet));
      assert frame[0..|frame|] == frame;
      assert next.wire == done + (beat + frame);
      DifferAt(done, beat + frame, frame + beat);
      assert EncodeItems(next.items) + [] + beat == done + (frame + beat);
    }
  }

  lemma WriteDataFramedExactly(tx: Tx, write: WriteEvent, at: int)
    requires Framed(tx) && tx.current.Some?
    ensures Framed(WriteData(tx, write, at).tx) <==> (AcceptsBytes(write) ==> tx.hbOffset == 0)
  {
    hide WriteData, EncodeItems, FrameOf;
    if tx.hbOffset == 0 {
      DataAlone(tx, write, at);
    } else if AcceptsBytes(write) {
      DataOverBeat(tx, write, at);
    } else {
      DataBlocked(tx, write, at);
    }
  }

  lemma BeatPart(tx: Tx, write: WriteEvent, at: int)
    requires Framed(tx) && tx.hbPending && tx.txOffset == 0 && write.Took? && tx.hbOffset + write.limit < 4
    ensures Framed(WriteKeepalive(tx, write, at).tx)
  {
  }

  lemma BeatWhole(tx: Tx, write: WriteEvent, at: int)
    requires Framed(tx) && tx.hbPending && tx.txOffset == 0 && write.Took? && tx.hbOffset + write.limit >= 4
    ensures Framed(WriteKeepalive(tx, write, at).tx)
  {
  }

  lemma BeatAlone(tx: Tx, write: WriteEvent, at: int)
    requires Framed(tx) && tx.hbPending && tx.txOffset == 0
    ensures Framed(WriteKeepalive(tx, write, at).tx)
  {
    hide Framed;
    if write.Took? {
      hide WriteKeepalive;
      if tx.hbOffset + write.limit < 4 {
        BeatPart(tx, write, at);
      } else {
        BeatWhole(tx, write, at);
      }
    }
  }

  lemma BeatBlocked(tx: Tx, write: WriteEvent, at: int)
    requires Framed(tx) && tx.hbPending && !AcceptsBytes(write)
    ensures WriteKeepalive(tx, write, at).tx == tx
  {
  }

  lemma BeatOverData(tx: Tx, write: WriteEvent, at: int)
    requires Framed(tx) && tx.hbPending && AcceptsBytes(write) && tx.txOffset > 0
    ensures !Framed(WriteKeepalive(tx, write, at).tx)
  {
    hide FrameOf, EncodeItems;
    var beat, done := KEEPALIVE_REQUEST, EncodeItems(tx.items);
    var data := FrameOf(tx.current.value)[..tx.txOffset];
    var next := WriteKeepalive(tx, write, at).tx;
    if next.hbOffset == 0 {
      FirstBytes(tx.current.value);
      AppendItem(tx.items, Beat);
      assert beat[..0] == [] && beat[0..4] == beat;
      assert next.wire == done + (data + beat);
      DifferAt(done, data + beat, beat + data);
      assert EncodeItems(next.items) + data + beat[..0] == done + (beat + data);
    }
  }

  lemma WriteKeepaliveFramedExactly(tx: Tx, write: WriteEvent, at: int)
    requires Framed(tx) && tx.hbPending
    ensures Framed(WriteKeepalive(tx, write, at).tx) <==> (AcceptsBytes(write) ==> tx.txOffset == 0)
  {
    hide WriteKeepalive, EncodeItems, FrameOf;
    if tx.txOffset == 0 {
      BeatAlone(tx, write, at);
    } else if AcceptsBytes(write) {
      BeatOverData(tx, write, at);
    } else {
      BeatBlocked(tx, write, at);
    }
  }

  lemma OutgoingFramedExactly(tx: Tx, write: WriteEvent, at: int)
    requires Framed(tx)
    ensures Framed(HandleOutgoing(tx, write, at).tx) <==> DataDisjoint(tx, write)
  {
    hide WriteData, EncodeItems, FrameOf;
    var next := TakeNext(tx);
    assert Begun(next.current, next.txOffset) == Begun(tx.current, tx.txOffset);
    TakeNextFramed(tx);
    if next.current.Some? {
      WriteDataFramedExactly(next, write, at);
    }
  }

  lemma TakeNextFramed(tx: Tx)
    requires Framed(tx)
    ensures Framed(TakeNext(tx))
  {
  }

  lemma KeepaliveFramedExactly(tx: Tx, keepaliveTime: int, now: int, write: WriteEvent, at: int)
    requires Framed(tx)
    ensures Framed(Keepalive(tx, keepaliveTime, now, write, at).tx) <==> BeatDisjoint(tx, keepaliveTime, now, write)
  {
    hide WriteKeepalive, EncodeItems, FrameOf;
    if tx.hbPending {
      WriteKeepaliveFramedExactly(tx, write, at);
    } else if now >= tx.lastTx + keepaliveTime {
      WriteKeepaliveFramedExactly(StartKeepalive(tx), write, at);
    }
  }

  // ---------------------------------------------------------------------
  // Whole runs

  /** The call gets as far as sending. */
  predicate Sends(c: Conn, i: Input) {
    i.fdOpen && !MustReconnect(ReadPhase(c, i).stop)
  }

  predicate Beats(c: Conn, i: Input)
    requires OffsetsInRange(c.tx)
  {
    HandleOutgoing(c.tx, i.dataWrite, i.dataAt).ok && c.keepaliveTime > 0
  }

  /** The two writers keep out of each other's frames during this call. */
  ghost predicate CallDisjoint(c: Conn, i: Input)
    requires OffsetsInRange(c.tx)
  {
    Sends(c, i) ==>
      && DataDisjoint(c.tx, i.dataWrite)
      && (Beats(c, i) ==>
            BeatDisjoint(HandleOutgoing(c.tx, i.dataWrite, i.dataAt).tx, c.keepaliveTime, i.now, i.beatWrite))
  }

  /** The wire is framed after each of the two writes of this call. */
  ghost predicate CallFramed(c: Conn, i: Input)
    requires OffsetsInRange(c.tx)
  {
    Sends(c, i) ==>
      var out := HandleOutgoing(c.tx, i.dataWrite, i.dataAt).tx;
      && Framed(out)
      && (Beats(c, i) ==> Framed(Keepalive(out, c.keepaliveTime, i.now, i.beatWrite, i.beatAt).tx))
  }

  ghost predicate RunDisjoint(c: Conn, events: seq<Event>)
    requires OffsetsInRange(c.tx)
    decreases |events|
  {
    NextKeepsOffsets(c, events);
    events != [] ==>
      && (events[0].MainLoop? && !c.quit ==> CallDisjoint(c, events[0].input))
      && RunDisjoint(Step(c, events[0]), events[1..])
  }

  ghost predicate RunFramed(c: Conn, events: seq<Event>)
    requires OffsetsInRange(c.tx)
    decreases |events|
  {
    NextKeepsOffsets(c, events);
    events != [] ==>
      && (events[0].MainLoop? && !c.quit ==> CallFramed(c, events[0].input))
      && RunFramed(Step(c, events[0]), events[1..])
  }

  lemma NextKeepsOffsets(c: Conn, events: seq<Event>)
    requires OffsetsInRange(c.tx)
    ensures events != [] ==> OffsetsInRange(Step(c, events[0]).tx)
  {
    if events != [] {
      StepKeepsOffsets(c, events[0]);
    }
  }

  lemma FramedMeansInRange(tx: Tx)
    requires Framed(tx)
    ensures OffsetsInRange(tx)
  {
  }

  lemma CallFramedExactly(c: Conn, i: Input)
    requires Framed(c.tx)
    ensures OffsetsInRange(c.tx)
    ensures CallFramed(c, i) <==> CallDisjoint(c, i)
    ensures CallFramed(c, i) ==> Framed(TryCall(c, i).conn.tx) && TryCall(c, i).conn.closed == c.closed
  {
    hide ReadPhase, HandleOutgoing, Keepalive, Framed, DataDisjoint, BeatDisjoint, OffsetsInRange;
    FramedMeansInRange(c.tx);
    OutgoingFramedExactly(c.tx, i.dataWrite, i.dataAt);
    var out := HandleOutgoing(c.tx, i.dataWrite, i.dataAt);
    if Framed(out.tx) {
      FramedMeansInRange(out.tx);
      KeepaliveFramedExactly(out.tx, c.keepaliveTime, i.now, i.beatWrite, i.beatAt);
    }
  }

  ghost predicate AllFramed(c: Conn) {
    Framed(c.tx) && forall k :: 0 <= k < |c.closed| ==> SessionFramed(c.closed[k])
  }

  lemma ReconnectFramed(c: Conn, event: ReconnectEvent)
    requires AllFramed(c)
    ensures AllFramed(Reconnect(c, event).conn)
  {
  }

  lemma StepFramed(c: Conn, e: Event)
    requires AllFramed(c)
    ensures OffsetsInRange(c.tx)
    ensures (e.MainLoop? && !c.quit ==> CallFramed(c, e.input)) ==> AllFramed(Step(c, e))
  {
    hide CallFramed, TryCall, Reconnect, SessionFramed, EncodeItems, FrameOf;
    FramedMeansInRange(c.tx);
    if e.MainLoop? && !c.quit && CallFramed(c, e.input) {
      CallFramedExactly(c, e.input);
      ReconnectFramed(TryCall(c, e.input).conn, e.input.reconnect);
    }
  }

  /** The stream is framed after every write of a run exactly when the writers keep out of each other's frames;
      then every connection, past and present, carried whole frames and at most one begun. */
  lemma {:induction false} FramedExactly(c: Conn, events: seq<Event>)
    requires AllFramed(c)
    ensures OffsetsInRange(c.tx)
    ensures RunFramed(c, events) <==> RunDisjoint(c, events)
    ensures RunDisjoint(c, events) ==> AllFramed(Run(c, events))
    decreases |events|
  {
    hide CallFramed, CallDisjoint, Step, AllFramed, OffsetsInRange;
    AllFramedMeansFramed(c);
    FramedMeansInRange(c.tx);
    if events != [] {
      var e := events[0];
      StepKeepsOffsets(c, e);
      if e.MainLoop? {
        CallFramedExactly(c, e.input);
      }
      StepFramed(c, e);
      if e.MainLoop? && !c.quit ==> CallFramed(c, e.input) {
        FramedExactly(Step(c, e), events[1..]);
      }
    }
  }

  lemma AllFramedMeansFramed(c: Conn)
    requires AllFramed(c)
    ensures Framed(c.tx)
  {
  }

  lemma FreshIsFramed(c: Conn)
    requires Fresh(c)
    ensures AllFramed(c)
  {
  }

  // ---------------------------------------------------------------------
  // Operating condition one: keepalives are switched off

  /** No gateway answer during the run switches keepalives on. */
  predicate KeepaliveOff(events: seq<Event>) {
    forall k :: 0 <= k < |events| && events[k].MainLoop? && events[k].input.reconnect.Restored? ==>
      events[k].input.reconnect.keepaliveTime <= 0
  }

  ghost predicate WithoutBeats(c: Conn) {
    && c.keepaliveTime <= 0 && !c.tx.hbPending && OffsetsInRange(c.tx)
    && forall k :: 0 <= k < |c.tx.items| ==> c.tx.items[k].Data?
  }

  lemma StepWithoutBeats(c: Conn, e: Event)
    requires WithoutBeats(c) && KeepaliveOff([e])
    ensures WithoutBeats(Step(c, e))
    ensures e.MainLoop? && !c.quit ==> CallDisjoint(c, e.input)
  {
    hide ReadPhase, FrameOf;
    assert [e][0] == e;
    StepKeepsOffsets(c, e);
  }

  lemma {:induction false} KeepaliveOffIsDisjoint(c: Conn, events: seq<Event>)
    requires WithoutBeats(c) && KeepaliveOff(events)
    ensures RunDisjoint(c, events) && WithoutBeats(Run(c, events))
    decreases |events|
  {
    hide Step, CallDisjoint;
    if events != [] {
      var e := events[0];
      assert KeepaliveOff([e]) && KeepaliveOff(events[1..]) by {
        assert [e][0] == events[0];
        assert forall k :: 0 <= k < |events[1..]| ==> events[1..][k] == events[k + 1];
      }
      StepWithoutBeats(c, e);
      KeepaliveOffIsDisjoint(Step(c, e), events[1..]);
    }
  }

  lemma {:induction false} EncodeDataOnly(items: seq<Item>)
    requires forall k :: 0 <= k < |items| ==> items[k].Data?
    ensures EncodeItems(items) == EncodePackets(DataOf(items))
  {
    hide FrameOf;
    if items != [] {
      var front, last := items[..|items| - 1], items[|items| - 1];
      EncodeDataOnly(front);
      AppendPacket(DataOf(front), last.packet);
    }
  }

  /** For every sequence of partial and blocked writes, the bytes accepted since the connection began are the
      finished packets in queue order followed by the accepted part of the current one. */
  lemma KeepaliveOffStream(c: Conn, events: seq<Event>)
    requires Fresh(c) && c.keepaliveTime <= 0 && KeepaliveOff(events)
    ensures var tx := Run(c, events).tx;
            tx.wire == EncodePackets(DataOf(tx.items)) + Begun(tx.current, tx.txOffset)
  {
    hide Run, Step, EncodeItems, EncodePackets, DataOf;
    FreshIsFramed(c);
    assert WithoutBeats(c);
    KeepaliveOffIsDisjoint(c, events);
    FramedExactly(c, events);
    var tx := Run(c, events).tx;
    AllFramedMeansFramed(Run(c, events));
    EncodeDataOnly(tx.items);
    assert KEEPALIVE_REQUEST[..0] == [];
  }

  // ---------------------------------------------------------------------
  // Operating condition two: every write takes all or nothing

  predicate AllOrNothing(write: WriteEvent, size: nat) {
    write.Took? ==> write.limit == 0 || write.limit >= size
  }

  /** Both writes of the call accept everything they are offered, or nothing. */
  predicate CallWhole(c: Conn, i: Input) {
    var next := TakeNext(c.tx);
    && (next.current.Some? ==> AllOrNothing(i.dataWrite, |FrameOf(next.current.value)|))
    && AllOrNothing(i.beatWrite, 4)
  }

  ghost predicate RunWhole(c: Conn, events: seq<Event>)
    requires OffsetsInRange(c.tx)
    decreases |events|
  {
    NextKeepsOffsets(c, events);
    events != [] ==>
      && (events[0].MainLoop? && !c.quit ==> CallWhole(c, events[0].input))
      && RunWhole(Step(c, events[0]), events[1..])
  }

  predicate AtBoundary(tx: Tx) {
    tx.txOffset == 0 && tx.hbOffset == 0
  }

  lemma SendAtBoundary(c: Conn, i: Input)
    requires OffsetsInRange(c.tx) && AtBoundary(c.tx) && CallWhole(c, i)
    ensures AtBoundary(HandleOutgoing(c.tx, i.dataWrite, i.dataAt).tx)
    ensures var out := HandleOutgoing(c.tx, i.dataWrite, i.dataAt).tx;
            OffsetsInRange(out) && AtBoundary(Keepalive(out, c.keepaliveTime, i.now, i.beatWrite, i.beatAt).tx)
  {
  }

  lemma StepAtBoundary(c: Conn, e: Event)
    requires OffsetsInRange(c.tx) && AtBoundary(c.tx)
    requires e.MainLoop? && !c.quit ==> CallWhole(c, e.input)
    ensures AtBoundary(Step(c, e).tx)
    ensures e.MainLoop? && !c.quit ==> CallDisjoint(c, e.input)
  {
    hide HandleOutgoing, Keepalive, ReadPhase, OffsetsInRange, CallWhole;
    if e.MainLoop? && !c.quit {
      SendAtBoundary(c, e.input);
    }
  }

  lemma {:induction false} WholeWritesAreDisjoint(c: Conn, events: seq<Event>)
    requires OffsetsInRange(c.tx) && AtBoundary(c.tx) && RunWhole(c, events)
    ensures RunDisjoint(c, events) && AtBoundary(Run(c, events).tx)
    decreases |events|
  {
    hide Step, CallDisjoint, CallWhole;
    if events != [] {
      var e := events[0];
      StepKeepsOffsets(c, e);
      StepAtBoundary(c, e);
      WholeWritesAreDisjoint(Step(c, e), events[1..]);
    }
  }

  /** With keepalives on and writes that take all or nothing, the wire carries a sequence of whole frames. */
  lemma WholeWritesStream(c: Conn, events: seq<Event>)
    requires Fresh(c)
    requires OffsetsInRange(c.tx) && RunWhole(c, events)
    ensures var tx := Run(c, events).tx; tx.wire == EncodeItems(tx.items)
  {
    hide Run, Step, RunWhole, EncodeItems;
    FreshIsFramed(c);
    WholeWritesAreDisjoint(c, events);
    FramedExactly(c, events);
    AllFramedMeansFramed(Run(c, events));
    assert KEEPALIVE_REQUEST[..0] == [];
  }

  // ---------------------------------------------------------------------
  // Why the condition is needed

  lemma EncodeSmall()
    ensures FrameOf([69]) == [1, 0, 0, 1, 69]
  {
  }

  /** Two octets of a data frame, a keepalive, then the rest: both frames count as sent, and nothing can be decoded. */
  lemma InterleavingBreaksFraming()
    ensures var tx0 := Tx(Some([69]), 0, [], false, 0, 0, [], [], []);
            var tx1 := WriteData(tx0, Took(2), 0).tx;
            OffsetsInRange(tx1) &&
            var tx2 := Keepalive(tx1, 30, 30, Took(4), 30).tx;
            OffsetsInRange(tx2) && tx2.current.Some? &&
            var tx3 := WriteData(tx2, Took(5), 31).tx;
            && tx3.items == [Beat, Data([69])]
            && tx3.wire == [1, 0, 2, 0, 0, 0, 0, 1, 69]
            && Decode(tx3.wire).raws == []
  {
    hide FrameOf;
    EncodeSmall();
    var frame := FrameOf([69]);
    assert frame[0..2] == [1, 0] && frame[2..5] == [0, 1, 69];
    assert KEEPALIVE_REQUEST[0..4] == KEEPALIVE_REQUEST;
    var wire: Bytes := [1, 0, 2, 0, 0, 0, 0, 1, 69];
    assert PayloadLen(wire) == 512;
  }
}
