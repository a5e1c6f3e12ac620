/** Dead-peer detection on an idle connection.

    A keepalive goes out when nothing was sent for `K` seconds, and the peer is declared dead when nothing was
    received for `3 * K`.  If the main loop runs at least every `s` seconds and each answer is read within `d`
    seconds, a live peer is never declared dead exactly when `s + d <= 2 * K` (`LivePeerIsSafeExactly`). */
module PeerDetection {
  import opened Wrappers
  import opened Link

  /** Nothing to send and nothing half sent. */
  ghost predicate Idle(tx: Tx) {
    tx.current.None? && tx.outgoing == [] && tx.txOffset == 0 && !tx.hbPending && tx.hbOffset == 0
  }

  /** One call of the main loop in a timed run.  `prev` is the time of the previous call; `sent` the times of the
      keepalives sent so far, after the time of connecting.  Writes are immediate, and every keepalive whose answer
      is due has been answered. */
  ghost predicate TimelyCall(c: Conn, i: Input, prev: int, sent: seq<int>, s: int, d: int) {
    var read := ReadPhase(c, i);
    && i.fdOpen && !MustReconnect(read.stop)
    && i.beatWrite.Took? && i.beatWrite.limit >= 4 && i.beatAt == i.now
    && prev <= i.now <= prev + s
    && c.rx.lastRx <= read.rx.lastRx
    && forall b :: b in sent && i.now > b + d ==> read.rx.lastRx >= b
  }

  predicate SendsBeat(c: Conn, i: Input) {
    i.now >= c.tx.lastTx + c.keepaliveTime
  }

  /** The dead-peer branch is taken in this call. */
  predicate Overdue(c: Conn, i: Input) {
    PeerOverdue(c.keepaliveTime, ReadPhase(c, i).rx.lastRx, i.now)
  }

  function Sent(c: Conn, i: Input, sent: seq<int>): seq<int> {
    if SendsBeat(c, i) then sent + [i.now] else sent
  }

  /** The connection after an idle call that did not find the peer overdue. */
  function After(c: Conn, i: Input): Conn {
    c.(rx := ReadPhase(c, i).rx,
       tx := if SendsBeat(c, i) then
               c.tx.(lastTx := i.now, wire := c.tx.wire + Wire.KEEPALIVE_REQUEST, items := c.tx.items + [Beat])
             else c.tx)
  }

  lemma IdleCall(c: Conn, i: Input)
    requires Idle(c.tx) && c.keepaliveTime > 0
    requires i.fdOpen && !MustReconnect(ReadPhase(c, i).stop)
    requires i.beatWrite.Took? && i.beatWrite.limit >= 4 && i.beatAt == i.now
    ensures OffsetsInRange(c.tx)
    ensures TryCall(c, i).alive <==> !Overdue(c, i)
    ensures !Overdue(c, i) ==> Call(c, i).conn == After(c, i) && Call(c, i).outcome.Worked?
  {
  }

  ghost predicate TimelyRun(c: Conn, inputs: seq<Input>, prev: int, sent: seq<int>, s: int, d: int)
    decreases |inputs|
  {
    inputs != [] ==>
      && OffsetsInRange(c.tx)
      && TimelyCall(c, inputs[0], prev, sent, s, d)
      && TimelyRun(Call(c, inputs[0]).conn, inputs[1..], inputs[0].now, Sent(c, inputs[0], sent), s, d)
  }

  /** The dead-peer branch is taken in no call of the run. */
  ghost predicate NeverOverdue(c: Conn, inputs: seq<Input>)
    decreases |inputs|
  {
    inputs != [] ==>
      && OffsetsInRange(c.tx)
      && !Overdue(c, inputs[0])
      && NeverOverdue(Call(c, inputs[0]).conn, inputs[1..])
  }

  // ---------------------------------------------------------------------
  // The bound suffices

  /** Keepalives follow each other within `K + s - 1` seconds, and the last is recent. */
  ghost predicate Paced(c: Conn, prev: int, sent: seq<int>, s: int) {
    && Idle(c.tx) && c.keepaliveTime > 0
    && sent != [] && sent[|sent| - 1] == c.tx.lastTx
    && sent[0] <= c.rx.lastRx
    && prev < c.tx.lastTx + c.keepaliveTime
    && forall k :: 0 <= k < |sent| - 1 ==> sent[k + 1] <= sent[k] + c.keepaliveTime + s - 1
  }

  /** Some keepalive was answered recently enough. */
  lemma {:induction false} RecentAnswer(sent: seq<int>, lastRx: int, now: int, K: int, s: int, d: int)
    requires K > 0 && s > 0 && d >= 0 && s + d <= 2 * K
    requires sent != [] && sent[0] <= lastRx
    requires forall k :: 0 <= k < |sent| - 1 ==> sent[k + 1] <= sent[k] + K + s - 1
    requires forall b :: b in sent && now > b + d ==> lastRx >= b
    requires now <= sent[|sent| - 1] + K + s - 1 || now <= sent[|sent| - 1] + d
    ensures now < lastRx + 3 * K
  {
    var n := |sent| - 1;
    if now > sent[n] + d {
      assert sent[n] in sent;
    } else if n > 0 {
      assert sent[n - 1] in sent;
      if now <= sent[n - 1] + d {
        var front := sent[..n];
        assert front[0] == sent[0] && forall b :: b in front ==> b in sent;
        RecentAnswer(front, lastRx, now, K, s, d);
      }
    }
  }

  lemma PacedCall(c: Conn, i: Input, prev: int, sent: seq<int>, s: int, d: int)
    requires s > 0 && d >= 0 && s + d <= 2 * c.keepaliveTime
    requires Paced(c, prev, sent, s) && TimelyCall(c, i, prev, sent, s, d)
    ensures !Overdue(c, i)
    ensures OffsetsInRange(c.tx)
    ensures Paced(Call(c, i).conn, i.now, Sent(c, i, sent), s)
    ensures Call(c, i).conn.keepaliveTime == c.keepaliveTime
  {
    hide ReadPhase, Call;
    RecentAnswer(sent, ReadPhase(c, i).rx.lastRx, i.now, c.keepaliveTime, s, d);
    IdleCall(c, i);
  }

  lemma {:induction false} PacedRunIsSafe(c: Conn, inputs: seq<Input>, prev: int, sent: seq<int>, s: int, d: int)
    requires s > 0 && d >= 0 && s + d <= 2 * c.keepaliveTime
    requires Paced(c, prev, sent, s) && TimelyRun(c, inputs, prev, sent, s, d)
    ensures NeverOverdue(c, inputs)
    decreases |inputs|
  {
    hide Call, Paced, TimelyCall, Overdue;
    if inputs != [] {
      PacedCall(c, inputs[0], prev, sent, s, d);
      PacedRunIsSafe(Call(c, inputs[0]).conn, inputs[1..], inputs[0].now, Sent(c, inputs[0], sent), s, d);
    }
  }

  // ---------------------------------------------------------------------
  // The bound is needed

  /** A call at time `now` in which nothing is read. */
  function QuietInput(now: int): Input {
    Input(true, false, [], [], true, 0, Took(0), now, now, Took(4), now, ReconnectFails)
  }

  /** Connected at time 0 and idle since. */
  function IdleConn(K: int): Conn {
    Conn(K, Rx(1400, false, [], [], 0, [], []), Tx(None, 0, [], false, 0, 0, [], [], []), false, [])
  }

  /** Until time `3 * K` no answer is due: every keepalive after the first entry is younger than `d`. */
  ghost predicate NoAnswerDue(c: Conn, sent: seq<int>, d: int) {
    && Idle(c.tx) && c.keepaliveTime > 0 && c.rx.lastRx == 0
    && forall b :: b in sent ==> b <= 0 || 3 * c.keepaliveTime <= b + d
  }

  /** One silent call per second up to `3 * K` ends with the peer declared dead. */
  lemma {:induction false} SilentUntilOverdue(c: Conn, base: int, prev: int, sent: seq<int>, s: int, d: int)
    returns (inputs: seq<Input>)
    requires NoAnswerDue(c, sent, d) && s >= 1
    requires prev < 3 * c.keepaliveTime
    requires base <= prev + 1 && 3 * c.keepaliveTime <= base + d
    ensures TimelyRun(c, inputs, prev, sent, s, d) && !NeverOverdue(c, inputs)
    decreases 3 * c.keepaliveTime - prev
  {
    var i := QuietInput(prev + 1);
    assert ReadPhase(c, i) == ReadResult(c.rx, 0, Drained, 0);
    IdleCall(c, i);
    if prev + 1 == 3 * c.keepaliveTime {
      inputs := [i];
      assert inputs[1..] == [];
    } else {
      var next := After(c, i);
      var rest := SilentUntilOverdue(next, base, prev + 1, Sent(c, i, sent), s, d);
      inputs := [i] + rest;
      assert inputs[1..] == rest;
    }
  }

  /** Calls every second before the first keepalive is due, then a gap of `s` seconds. */
  lemma {:induction false} SilentRun(c: Conn, prev: int, s: int, d: int) returns (inputs: seq<Input>)
    requires Idle(c.tx) && c.keepaliveTime > 0 && c.rx.lastRx == 0 && c.tx.lastTx == 0
    requires s >= 1 && d >= 0 && s + d > 2 * c.keepaliveTime
    requires 0 <= prev < c.keepaliveTime
    ensures TimelyRun(c, inputs, prev, [0], s, d) && !NeverOverdue(c, inputs)
    decreases c.keepaliveTime - prev
  {
    var K := c.keepaliveTime;
    var late := prev + 1 == K;
    var now := if !late then prev + 1 else if prev + s < 3 * K then prev + s else 3 * K;
    var i := QuietInput(now);
    assert ReadPhase(c, i) == ReadResult(c.rx, 0, Drained, 0);
    IdleCall(c, i);
    if now == 3 * K {
      inputs := [i];
      assert inputs[1..] == [];
    } else {
      var next := After(c, i);
      var rest: seq<Input>;
      if late {
        assert Sent(c, i, [0]) == [0, now];
        rest := SilentUntilOverdue(next, now, now, [0, now], s, d);
      } else {
        rest := SilentRun(next, now, s, d);
      }
      inputs := [i] + rest;
      assert inputs[1..] == rest;
    }
  }

  /** A run that begins when the connection is made: the time of connecting counts as sent and received. */
  ghost predicate TimelyFromConnect(c: Conn, inputs: seq<Input>, s: int, d: int) {
    Idle(c.tx) && c.rx.lastRx == c.tx.lastTx && TimelyRun(c, inputs, c.tx.lastTx, [c.tx.lastTx], s, d)
  }

  ghost predicate SafeFor(K: int, s: int, d: int) {
    forall c: Conn, inputs: seq<Input> ::
      c.keepaliveTime == K && TimelyFromConnect(c, inputs, s, d) ==> NeverOverdue(c, inputs)
  }

  /** A live idle peer is never declared dead, whatever the run, exactly when `s + d <= 2 * K`. */
  lemma LivePeerIsSafeExactly(K: int, s: int, d: int)
    requires K > 0 && s > 0 && d >= 0
    ensures SafeFor(K, s, d) <==> s + d <= 2 * K
  {
    if s + d <= 2 * K {
      forall c: Conn, inputs: seq<Input> | c.keepaliveTime == K && TimelyFromConnect(c, inputs, s, d)
        ensures NeverOverdue(c, inputs)
      {
        PacedRunIsSafe(c, inputs, c.tx.lastTx, [c.tx.lastTx], s, d);
      }
    } else {
      var c := IdleConn(K);
      var inputs := SilentRun(c, 0, s, d);
      assert TimelyFromConnect(c, inputs, s, d);
    }
  }

  // ---------------------------------------------------------------------
  // Idleness is needed

  /** One packet goes out in full in every call, so no keepalive is ever due and a silent peer is never asked. */
  function BusyInput(now: int, packet: Packet): Input {
    Input(true, false, [], [], true, 0, Took(|FrameOf(packet)|), now, now, Took(4), now, ReconnectFails)
  }

  lemma BusyCall(c: Conn, now: int)
    requires c.tx.current.None? && c.tx.txOffset == 0 && !c.tx.hbPending && c.tx.hbOffset == 0
    requires c.keepaliveTime > 0 && c.tx.outgoing != []
    ensures OffsetsInRange(c.tx)
    ensures var i := BusyInput(now, c.tx.outgoing[0]);
            && ReadPhase(c, i).rx == c.rx
            && TryCall(c, i).conn.tx.items == c.tx.items + [Data(c.tx.outgoing[0])]
            && TryCall(c, i).alive == !Overdue(c, i)
            && (TryCall(c, i).alive ==>
                  var next := Call(c, i).conn;
                  && next == TryCall(c, i).conn
                  && next.rx == c.rx && next.keepaliveTime == c.keepaliveTime
                  && next.tx.current.None? && next.tx.txOffset == 0 && !next.tx.hbPending && next.tx.hbOffset == 0
                  && next.tx.outgoing == c.tx.outgoing[1..])
  {
  }

  /** With a packet sent every second, the peer is declared dead after `3 * K` seconds without one keepalive. */
  lemma {:induction false} BusySenderNeverAsks(c: Conn, now: int) returns (inputs: seq<Input>)
    requires c.tx.current.None? && c.tx.txOffset == 0 && !c.tx.hbPending && c.tx.hbOffset == 0
    requires c.keepaliveTime > 0 && c.rx.lastRx <= now < c.rx.lastRx + 3 * c.keepaliveTime
    requires |c.tx.outgoing| >= c.rx.lastRx + 3 * c.keepaliveTime - now
    requires Beat !in c.tx.items
    ensures !NeverOverdue(c, inputs)
    ensures |inputs| == c.rx.lastRx + 3 * c.keepaliveTime - now
    ensures forall k :: 0 <= k < |inputs| ==> inputs[k] == BusyInput(now + 1 + k, c.tx.outgoing[k])
    ensures SendsNoBeat(c, inputs)
    decreases c.rx.lastRx + 3 * c.keepaliveTime - now
  {
    hide Call, TryCall, ReadPhase;
    var i := BusyInput(now + 1, c.tx.outgoing[0]);
    BusyCall(c, now + 1);
    if now + 1 == c.rx.lastRx + 3 * c.keepaliveTime {
      inputs := [i];
      assert inputs[1..] == [];
    } else {
      var next := Call(c, i).conn;
      var rest := BusySenderNeverAsks(next, now + 1);
      inputs := [i] + rest;
      assert inputs[1..] == rest;
    }
  }

  /** No keepalive is among the frames written in any call of the run. */
  ghost predicate SendsNoBeat(c: Conn, inputs: seq<Input>)
    decreases |inputs|
  {
    inputs != [] ==>
      && OffsetsInRange(c.tx)
      && Beat !in TryCall(c, inputs[0]).conn.tx.items
      && (TryCall(c, inputs[0]).alive ==> SendsNoBeat(Call(c, inputs[0]).conn, inputs[1..]))
  }
}
