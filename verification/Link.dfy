/** What one call of the H3C main loop does to a connection, as functions on values.

    The class in `H3cLink.dfy` performs these steps in place; the theorems in
    `Receive`, `Transmit`, `Framing`, `PeerDetection` and `EndToEnd` are about them.
    What the operating system decides (socket results, clock readings, whether an
    allocation succeeds, what a reconnect brings) is an input.

    Besides the program's own variables the values carry history: the bytes received
    and accepted on the current connection, the frames completely written on it, and
    a record of each connection that was closed. */
module Link {
  import opened Wrappers
  import opened Wire

  type Packet = Bytes

  const KEEPALIVE_MISS_LIMIT: int := 3

  // ---------------------------------------------------------------------
  // The environment

  /** The result of a non-blocking read: at most `limit` of the bytes waiting, or a hard error. */
  datatype ReadEvent = Got(limit: nat, at: int) | ReadFails

  /** The result of a non-blocking write: at most `limit` of the bytes offered, or a hard error. */
  datatype WriteEvent = Took(limit: nat) | WriteFails

  /** The result of re-establishing the TLS session. */
  datatype ReconnectEvent = Restored(at: int, mtu: nat, keepaliveTime: int) | ReconnectFails

  /** Everything the outside world contributes to one call of the main loop. */
  datatype Input = Input(
    fdOpen: bool,
    readable: bool,
    net: Bytes,             // bytes waiting in the socket
    script: seq<ReadEvent>,  // when they run out, the next read would block
    bufferAlloc: bool,      // can the receive buffer be allocated?
    packetAllocs: nat,      // incoming packets that can be allocated before one fails
    dataWrite: WriteEvent,
    dataAt: int,            // clock when a data frame is finished
    now: int,               // clock when the timers are inspected
    beatWrite: WriteEvent,
    beatAt: int,            // clock when a keepalive is finished
    reconnect: ReconnectEvent)

  // ---------------------------------------------------------------------
  // Receiving

  datatype Rx = Rx(
    mtu: nat,
    hasBuffer: bool,
    partial: Bytes,            // the first partial_rec_size bytes of the receive buffer
    incoming: seq<Packet>,
    lastRx: int,
    received: Bytes,           // history: bytes read on this connection
    before: seq<Packet>)       // history: the incoming queue when this connection began

  function Max(a: nat, b: nat): nat {
    if a > b then a else b
  }

  function Min(a: nat, b: nat): nat {
    if a < b then a else b
  }

  /** The size of the receive buffer. */
  function ReceiveMtu(mtu: nat): (size: nat)
    ensures size >= MAX_FRAME_LEN && size >= mtu
  {
    Max(MAX_FRAME_LEN, mtu)
  }

  datatype ParseError = NoError | NoMemory | TooLarge

  datatype Parsed = Parsed(queued: seq<Packet>, rest: Bytes, error: ParseError, work: nat)

  /** How many frames are dealt with if only `allocs` packets can be allocated. */
  function Handled(rs: seq<Raw>, allocs: nat): (n: nat)
    ensures n <= |rs|
  {
    if rs == [] then 0
    else if rs[0].kind != TYPE_IPV4 then 1 + Handled(rs[1..], allocs)
    else if allocs == 0 then 0
    else 1 + Handled(rs[1..], allocs - 1)
  }

  /** One pass over the receive buffer, in terms of the reference decoder. */
  function Parse(buf: Bytes, allocs: nat): Parsed {
    var d := Decode(buf);
    var n := Handled(d.raws, allocs);
    Parsed(
      Packets(d.raws[..n]),
      EncodeAll(d.raws[n..]) + d.tail,
      if n < |d.raws| then NoMemory else if Oversized(d.tail) then TooLarge else NoError,
      |Frames(d.raws[..n])|)
  }

  lemma {:induction false} HandledWithinBudget(rs: seq<Raw>, allocs: nat)
    ensures |Packets(rs[..Handled(rs, allocs)])| <= allocs
  {
    var n := Handled(rs, allocs);
    if n > 0 {
      assert rs[..n][1..] == rs[1..][..n - 1];
      if rs[0].kind != TYPE_IPV4 {
        HandledWithinBudget(rs[1..], allocs);
      } else {
        HandledWithinBudget(rs[1..], allocs - 1);
      }
    }
  }

  lemma QueuedWithinBudget(buf: Bytes, allocs: nat)
    ensures |Parse(buf, allocs).queued| <= allocs
  {
    HandledWithinBudget(Decode(buf).raws, allocs);
  }

  datatype ReadStop = Drained | NoBuffer | Overflow | ReadError | ParserStopped(error: ParseError)

  predicate MustReconnect(stop: ReadStop) {
    !stop.Drained? && !stop.NoBuffer?
  }

  datatype ReadResult = ReadResult(rx: Rx, used: nat, stop: ReadStop, work: nat)

  /** The receive buffer is allocated on first use. */
  function WithBuffer(rx: Rx): Rx {
    if rx.hasBuffer then rx else rx.(hasBuffer := true, partial := [])
  }

  /** Appending the bytes of one read. */
  function Received(rx: Rx, bytes: Bytes, at: int): Rx {
    rx.(partial := rx.partial + bytes, received := rx.received + bytes, lastRx := at)
  }

  /** Handing over what a parser pass found. */
  function AfterParse(rx: Rx, p: Parsed): Rx {
    rx.(partial := p.rest, incoming := rx.incoming + p.queued)
  }

  /** How many bytes the next read brings. */
  function ReadSize(rx: Rx, net: Bytes, limit: nat): (n: nat)
    ensures n <= |net|
    ensures |rx.partial| <= ReceiveMtu(rx.mtu) ==> |rx.partial| + n <= ReceiveMtu(rx.mtu)
  {
    var room := if |rx.partial| <= ReceiveMtu(rx.mtu) then ReceiveMtu(rx.mtu) - |rx.partial| else 0;
    Min(limit, Min(room, |net|))
  }

  /** One turn of the read loop ends it, or leaves `rx`, `used` bytes further on, with `left` allocations. */
  datatype Turn = Stop(result: ReadResult) | Again(rx: Rx, used: nat, work: nat, left: nat)

  /** One turn: allocate, check for overflow, read, parse. */
  function ReadTurn(rx: Rx, net: Bytes, script: seq<ReadEvent>, bufferAlloc: bool, allocs: nat): (t: Turn)
    ensures t.Again? ==> t.used <= |net| && script != []
    ensures t.Stop? ==> t.result.used <= |net|
  {
    if !rx.hasBuffer && !bufferAlloc then Stop(ReadResult(rx, 0, NoBuffer, 0))
    else
      var rx0 := WithBuffer(rx);
      if |rx0.partial| >= ReceiveMtu(rx.mtu) then Stop(ReadResult(rx0, 0, Overflow, 0))
      else if script == [] then Stop(ReadResult(rx0, 0, Drained, 0))
      else if script[0].ReadFails? then Stop(ReadResult(rx0, 0, ReadError, 0))
      else
        var n := ReadSize(rx0, net, script[0].limit);
        if n == 0 then Stop(ReadResult(rx0, 0, Drained, 0))
        else ParseTurn(Received(rx0, net[..n], script[0].at), n, allocs)
  }

  /** The parsing half of a turn, after `n` bytes were read. */
  function ParseTurn(rx: Rx, n: nat, allocs: nat): (t: Turn)
    ensures t.Again? ==> t.used == n
    ensures t.Stop? ==> t.result.used == n
  {
    var p := Parse(rx.partial, allocs);
    QueuedWithinBudget(rx.partial, allocs);
    if p.error != NoError then Stop(ReadResult(AfterParse(rx, p), n, ParserStopped(p.error), p.work))
    else Again(AfterParse(rx, p), n, p.work, allocs - |p.queued|)
  }

  /** The read loop: repeat until the socket is drained or the connection must go. */
  function ReadLoop(rx: Rx, net: Bytes, script: seq<ReadEvent>, bufferAlloc: bool, allocs: nat): (r: ReadResult)
    ensures r.used <= |net|
    decreases |script|
  {
    match ReadTurn(rx, net, script, bufferAlloc, allocs)
    case Stop(result) => result
    case Again(rx', used, work, left) =>
      Shifted(ReadLoop(rx', net[used..], script[1..], bufferAlloc, left), used, work)
  }

  /** The result of a loop that had already used `used` bytes and done `work`. */
  function Shifted(r: ReadResult, used: nat, work: nat): ReadResult {
    ReadResult(r.rx, used + r.used, r.stop, work + r.work)
  }

  // ---------------------------------------------------------------------
  // Transmitting

  /** A frame completely written to the socket. */
  datatype Item = Data(packet: Packet) | Beat

  datatype Tx = Tx(
    current: Option<Packet>,
    txOffset: nat,
    outgoing: seq<Packet>,
    hbPending: bool,
    hbOffset: nat,
    lastTx: int,
    wire: Bytes,               // history: bytes accepted on this connection
    dataWire: Bytes,           // history: those of them that belong to data frames
    items: seq<Item>)          // history: frames finished on this connection

  function FrameOf(p: Packet): (bytes: Bytes)
    ensures |bytes| == 4 + |p|
  {
    Encode(Raw(TYPE_IPV4, p))
  }

  datatype TxResult = TxResult(tx: Tx, ok: bool, work: nat)

  function WriteData(tx: Tx, write: WriteEvent, at: int): TxResult
    requires tx.current.Some? && tx.txOffset <= |FrameOf(tx.current.value)|
  {
    if write.WriteFails? then TxResult(tx, false, 0)
    else
      var frame := FrameOf(tx.current.value);
      var off := tx.txOffset + Min(write.limit, |frame| - tx.txOffset);
      var sent := frame[tx.txOffset..off];
      var next := tx.(txOffset := off, wire := tx.wire + sent, dataWire := tx.dataWire + sent);
      if off == |frame| then
        TxResult(next.(current := None, txOffset := 0, lastTx := at,
                       items := tx.items + [Data(tx.current.value)]), true, 1)
      else
        TxResult(next, true, 0)
  }

  /** If nothing is in flight, the next outgoing packet becomes the current one. */
  function TakeNext(tx: Tx): Tx {
    if tx.current.None? && tx.outgoing != [] then
      tx.(current := Some(tx.outgoing[0]), outgoing := tx.outgoing[1..], txOffset := 0)
    else tx
  }

  ghost predicate OffsetsInRange(tx: Tx) {
    && (tx.current.Some? ==> tx.txOffset < |FrameOf(tx.current.value)|)
    && (tx.current.None? ==> tx.txOffset == 0)
    && (tx.hbPending ==> tx.hbOffset < 4)
    && (!tx.hbPending ==> tx.hbOffset == 0)
  }

  function HandleOutgoing(tx: Tx, write: WriteEvent, at: int): TxResult
    requires OffsetsInRange(tx)
  {
    var next := TakeNext(tx);
    if next.current.None? then TxResult(next, true, 0) else WriteData(next, write, at)
  }

  function StartKeepalive(tx: Tx): Tx {
    tx.(hbPending := true, hbOffset := 0)
  }

  function WriteKeepalive(tx: Tx, write: WriteEvent, at: int): TxResult
    requires tx.hbOffset <= 4
  {
    if write.WriteFails? then TxResult(tx, false, 0)
    else
      var off := tx.hbOffset + Min(write.limit, 4 - tx.hbOffset);
      var next := tx.(hbOffset := off, wire := tx.wire + KEEPALIVE_REQUEST[tx.hbOffset..off]);
      if off == 4 then
        TxResult(next.(hbPending := false, hbOffset := 0, lastTx := at, items := tx.items + [Beat]), true, 1)
      else
        TxResult(next, true, 0)
  }

  /** The keepalive part of the main loop: finish a pending one, or start one when it is due. */
  function Keepalive(tx: Tx, keepaliveTime: int, now: int, write: WriteEvent, at: int): TxResult
    requires OffsetsInRange(tx)
  {
    if tx.hbPending then WriteKeepalive(tx, write, at)
    else if now >= tx.lastTx + keepaliveTime then WriteKeepalive(StartKeepalive(tx), write, at)
    else TxResult(tx, true, 0)
  }

  // ---------------------------------------------------------------------
  // The main loop

  /** What is remembered of a connection that was closed. */
  datatype Session = Session(
    wire: Bytes,
    dataWire: Bytes,
    items: seq<Item>,
    dropped: Option<Packet>,   // the packet in flight when the connection went
    cut: nat,                  // how much of it had been accepted
    beatCut: nat)              // how much of an unfinished keepalive had been accepted

  datatype Conn = Conn(
    keepaliveTime: int,
    rx: Rx,
    tx: Tx,
    quit: bool,
    closed: seq<Session>)      // history: earlier connections, oldest first

  datatype Outcome = Worked(work: nat) | Reconnected | Quit

  datatype CallResult = CallResult(conn: Conn, outcome: Outcome)

  /** Dropping the packet in flight and resetting the transmit side. */
  function CloseTx(tx: Tx): Tx {
    tx.(current := None, txOffset := 0, hbPending := false, hbOffset := 0, wire := [], dataWire := [], items := [])
  }

  function SessionOf(tx: Tx): Session {
    Session(tx.wire, tx.dataWire, tx.items, tx.current, tx.txOffset, tx.hbOffset)
  }

  /** `do_reconnect` before the new session: drop what is in flight. */
  function DropInFlight(c: Conn): Conn {
    c.(tx := CloseTx(c.tx), closed := c.closed + [SessionOf(c.tx)])
  }

  /** A new session: empty receive buffer, fresh timers. */
  function Restart(c: Conn, at: int, mtu: nat, keepaliveTime: int): Conn {
    c.(keepaliveTime := keepaliveTime,
       rx := Rx(mtu, false, [], c.rx.incoming, at, [], c.rx.incoming),
       tx := c.tx.(txOffset := 0, hbOffset := 0, hbPending := false, lastTx := at))
  }

  function Reconnect(c: Conn, event: ReconnectEvent): CallResult {
    match event
    case ReconnectFails => CallResult(DropInFlight(c).(quit := true), Quit)
    case Restored(at, mtu, keepaliveTime) => CallResult(Restart(DropInFlight(c), at, mtu, keepaliveTime), Reconnected)
  }

  function ReadPhase(c: Conn, i: Input): ReadResult {
    if i.readable then ReadLoop(c.rx, i.net, i.script, i.bufferAlloc, i.packetAllocs)
    else ReadResult(c.rx, 0, Drained, 0)
  }

  /** The peer has been silent for longer than the limit allows. */
  predicate PeerOverdue(keepaliveTime: int, lastRx: int, now: int) {
    now >= lastRx + keepaliveTime * KEEPALIVE_MISS_LIMIT
  }

  /** The sending half of a call: data, keepalive, dead-peer check.  `ok` is false if the connection must go. */
  function SendPhase(tx: Tx, keepaliveTime: int, lastRx: int, i: Input): TxResult
    requires OffsetsInRange(tx)
  {
    OutgoingKeepsOffsets(tx, i.dataWrite, i.dataAt);
    var out := HandleOutgoing(tx, i.dataWrite, i.dataAt);
    if !out.ok || keepaliveTime <= 0 then out
    else
      var beat := Keepalive(out.tx, keepaliveTime, i.now, i.beatWrite, i.beatAt);
      TxResult(beat.tx, beat.ok && !PeerOverdue(keepaliveTime, lastRx, i.now), out.work + beat.work)
  }

  lemma OutgoingKeepsOffsets(tx: Tx, write: WriteEvent, at: int)
    requires OffsetsInRange(tx)
    ensures OffsetsInRange(HandleOutgoing(tx, write, at).tx)
  {
  }

  /** A call before the decision whether to reconnect. */
  datatype Attempt = Attempt(conn: Conn, alive: bool, work: nat)

  function TryCall(c: Conn, i: Input): Attempt
    requires OffsetsInRange(c.tx)
  {
    if !i.fdOpen then Attempt(c, false, 0)
    else
      var read := ReadPhase(c, i);
      if MustReconnect(read.stop) then Attempt(c.(rx := read.rx), false, read.work)
      else
        var sent := SendPhase(c.tx, c.keepaliveTime, read.rx.lastRx, i);
        Attempt(c.(rx := read.rx, tx := sent.tx), sent.ok, read.work + sent.work)
  }

  /** One call of the main loop. */
  function Call(c: Conn, i: Input): CallResult
    requires OffsetsInRange(c.tx)
  {
    var a := TryCall(c, i);
    if a.alive then CallResult(a.conn, Worked(a.work)) else Reconnect(a.conn, i.reconnect)
  }

  /** A fresh connection: nothing received, nothing sent. */
  ghost predicate Fresh(c: Conn) {
    && !c.quit && c.closed == []
    && !c.rx.hasBuffer && c.rx.partial == [] && c.rx.received == [] && c.rx.before == c.rx.incoming
    && c.tx.current.None? && c.tx.txOffset == 0 && !c.tx.hbPending && c.tx.hbOffset == 0
    && c.tx.wire == [] && c.tx.dataWire == [] && c.tx.items == []
  }

  // ---------------------------------------------------------------------
  // Runs

  datatype Event = Enqueue(packet: Packet) | MainLoop(input: Input)

  ghost function Step(c: Conn, e: Event): Conn
    requires OffsetsInRange(c.tx)
  {
    match e
    case Enqueue(p) => c.(tx := c.tx.(outgoing := c.tx.outgoing + [p]))
    case MainLoop(i) => if c.quit then c else Call(c, i).conn
  }

  lemma KeepaliveKeepsOffsets(tx: Tx, keepaliveTime: int, now: int, write: WriteEvent, at: int)
    requires OffsetsInRange(tx)
    ensures OffsetsInRange(Keepalive(tx, keepaliveTime, now, write, at).tx)
  {
  }

  lemma SendKeepsOffsets(tx: Tx, keepaliveTime: int, lastRx: int, i: Input)
    requires OffsetsInRange(tx)
    ensures OffsetsInRange(SendPhase(tx, keepaliveTime, lastRx, i).tx)
  {
    hide HandleOutgoing, Keepalive, FrameOf;
    OutgoingKeepsOffsets(tx, i.dataWrite, i.dataAt);
    var out := HandleOutgoing(tx, i.dataWrite, i.dataAt);
    KeepaliveKeepsOffsets(out.tx, keepaliveTime, i.now, i.beatWrite, i.beatAt);
  }

  lemma CallKeepsOffsets(c: Conn, i: Input)
    requires OffsetsInRange(c.tx)
    ensures OffsetsInRange(TryCall(c, i).conn.tx) && OffsetsInRange(Call(c, i).conn.tx)
  {
    hide SendPhase, ReadPhase, FrameOf;
    SendKeepsOffsets(c.tx, c.keepaliveTime, ReadPhase(c, i).rx.lastRx, i);
  }

  lemma StepKeepsOffsets(c: Conn, e: Event)
    requires OffsetsInRange(c.tx)
    ensures OffsetsInRange(Step(c, e).tx)
  {
    if e.MainLoop? {
      CallKeepsOffsets(c, e.input);
    }
  }

  ghost function Run(c: Conn, events: seq<Event>): (end: Conn)
    requires OffsetsInRange(c.tx)
    ensures OffsetsInRange(end.tx)
    decreases |events|
  {
    if events == [] then c
    else
      StepKeepsOffsets(c, events[0]);
      Run(Step(c, events[0]), events[1..])
  }
}
