/** The daemon's own streaming frame codec: `H3cFrame::to_wire` and `H3cFrameStream::push`. */
module FrameStream {
  import opened Wire

  datatype FrameError =
    | Incomplete
    | IncompletePayload(have: nat, need: nat)
    | TooLarge(len: nat)

  datatype PushResult = Ok(frames: seq<Frame>) | Err(error: FrameError)

  function ToWire(f: Frame): Bytes {
    match f
    case Ipv4(payload) => Encode(Raw(TYPE_IPV4, payload))
    case KeepaliveRequest => KEEPALIVE_REQUEST
    case KeepaliveResponse => KEEPALIVE_RESPONSE
  }

  function ToWireAll(fs: seq<Frame>): Bytes {
    if fs == [] then [] else ToWire(fs[0]) + ToWireAll(fs[1..])
  }

  /** What a push answers when the bytes it holds decode to `d`. */
  function Answer(d: Decoded): PushResult {
    if |d.tail| < 4 then Ok(Frames(d.raws))
    else if Oversized(d.tail) then Err(TooLarge(PayloadLen(d.tail)))
    else Err(IncompletePayload(|d.tail| - 4, PayloadLen(d.tail)))
  }

  /** The parser tells frames apart by their bytes, which amounts to `Classify`. */
  lemma HeadBytes(b: Bytes)
    requires Ready(b)
    ensures var frame := b[..4 + PayloadLen(b)];
            Classify(Head(b)) ==
            if frame == KEEPALIVE_RESPONSE then [KeepaliveResponse]
            else if Kind(frame) == TYPE_IPV4 then [Ipv4(frame[4..])]
            else []
  {
  }

  lemma TakeHead(b: Bytes, done: seq<Raw>, all: Decoded)
    requires Ready(b) && all == Decoded(done + Decode(b).raws, Decode(b).tail)
    ensures all == Decoded(done + [Head(b)] + Decode(Rest(b)).raws, Decode(Rest(b)).tail)
    ensures Frames(done + [Head(b)]) == Frames(done) + Classify(Head(b))
  {
    FramesAppend(done, [Head(b)]);
    assert [Head(b)][1..] == [];
    assert done + ([Head(b)] + Decode(Rest(b)).raws) == done + [Head(b)] + Decode(Rest(b)).raws;
  }

  class H3cFrameStream {
    var buffer: Bytes

    constructor ()
      ensures buffer == []
    {
      buffer := [];
    }

    /** Appends `data`, drains every complete frame, and reports what stands at the front.

        The frames collected before an error are local to the call and are dropped with it. */
    method Push(data: Bytes) returns (r: PushResult)
      modifies this
      ensures buffer == Decode(old(buffer) + data).tail
      ensures r == Answer(Decode(old(buffer) + data))
      ensures r.Err? && r.error.IncompletePayload? ==> r.error.have < r.error.need
    {
      buffer := buffer + data;
      var frames := [];
      ghost var all := Decode(buffer);
      ghost var done: seq<Raw> := [];
      while true
        invariant all == Decoded(done + Decode(buffer).raws, Decode(buffer).tail)
        invariant frames == Frames(done)
        decreases |buffer|
      {
        if |buffer| < 4 {
          assert done + [] == done;
          return Ok(frames);
        }
        var len := PayloadLen(buffer);
        if len > MAX_FRAME_LEN {
          return Err(TooLarge(len));
        }
        var total := 4 + len;
        if |buffer| < total {
          return Err(IncompletePayload(|buffer| - 4, len));
        }
        var frame := buffer[..total];
        HeadBytes(buffer);
        TakeHead(buffer, done, all);
        if frame == KEEPALIVE_RESPONSE {
          frames := frames + [KeepaliveResponse];
        } else if Kind(frame) == TYPE_IPV4 {
          frames := frames + [Ipv4(frame[4..])];
        }
        done := done + [Head(buffer)];
        buffer := buffer[total..];
      }
    }

    method BufferedLen() returns (n: nat)
      ensures n == |buffer|
    {
      n := |buffer|;
    }
  }

  // ---------------------------------------------------------------------
  // Whole runs of pushes

  datatype PushRun = PushRun(results: seq<PushResult>, completed: seq<seq<Frame>>, buffer: Bytes)

  function Concat<T>(parts: seq<seq<T>>): seq<T> {
    if parts == [] then [] else parts[0] + Concat(parts[1..])
  }

  /** The answers of successive pushes, the frames each of them completed, and the final buffer. */
  function Pushes(buffer: Bytes, chunks: seq<Bytes>): (run: PushRun)
    ensures |run.results| == |run.completed| == |chunks|
    decreases |chunks|
  {
    if chunks == [] then PushRun([], [], buffer)
    else
      var d := Decode(buffer + chunks[0]);
      var rest := Pushes(d.tail, chunks[1..]);
      PushRun([Answer(d)] + rest.results, [Frames(d.raws)] + rest.completed, rest.buffer)
  }

  /** Everything the caller got out of a list of answers. */
  function Returned(results: seq<PushResult>): seq<Frame> {
    if results == [] then []
    else (if results[0].Ok? then results[0].frames else []) + Returned(results[1..])
  }

  /** The frames completed by pushes that answered with an error. */
  function Lost(results: seq<PushResult>, completed: seq<seq<Frame>>): seq<Frame>
    requires |results| == |completed|
  {
    if results == [] then []
    else (if results[0].Err? then completed[0] else []) + Lost(results[1..], completed[1..])
  }

  /** Any sequence of pushes, errors included, keeps exactly the undecoded tail and completes exactly the decoded
      frames. */
  lemma {:induction false} PushesRefineDecode(buffer: Bytes, chunks: seq<Bytes>)
    requires !Ready(buffer)
    ensures Pushes(buffer, chunks).buffer == Decode(buffer + Concat(chunks)).tail
    ensures Concat(Pushes(buffer, chunks).completed) == Frames(Decode(buffer + Concat(chunks)).raws)
    decreases |chunks|
  {
    hide Decode, Frames, Pushes, Ready;
    if chunks == [] {
      assert buffer + Concat(chunks) == buffer;
      PushesNone(buffer);
    } else {
      var first, later := buffer + chunks[0], Concat(chunks[1..]);
      DecodeSound(first);
      PushesRefineDecode(Decode(first).tail, chunks[1..]);
      assert buffer + Concat(chunks) == first + later;
      FramesInTwoSteps(first, later);
      PushesUnfold(buffer, chunks);
    }
  }

  lemma PushesNone(buffer: Bytes)
    requires !Ready(buffer)
    ensures Pushes(buffer, []) == PushRun([], [], buffer)
    ensures Decode(buffer) == Decoded([], buffer) && Frames([]) == []
  {
  }

  lemma FramesInTwoSteps(a: Bytes, b: Bytes)
    ensures Frames(Decode(a + b).raws) == Frames(Decode(a).raws) + Frames(Decode(Decode(a).tail + b).raws)
    ensures Decode(a + b).tail == Decode(Decode(a).tail + b).tail
  {
    DecodeAppend(a, b);
    FramesAppend(Decode(a).raws, Decode(Decode(a).tail + b).raws);
  }

  lemma PushesUnfold(buffer: Bytes, chunks: seq<Bytes>)
    requires chunks != []
    ensures var d := Decode(buffer + chunks[0]);
            var run, rest := Pushes(buffer, chunks), Pushes(d.tail, chunks[1..]);
            && run.buffer == rest.buffer
            && run.results[0] == Answer(d) && run.results[1..] == rest.results
            && run.completed[0] == Frames(d.raws) && run.completed[1..] == rest.completed
  {
  }

  /** An `Ok` carries the frames its push completed; an error truthfully describes the head of the buffer. */
  lemma {:induction false} PushesAnswerTruthfully(buffer: Bytes, chunks: seq<Bytes>, i: nat)
    requires i < |chunks|
    ensures var run := Pushes(buffer, chunks);
            var held := Pushes(buffer, chunks[..i + 1]).buffer;
            match run.results[i]
            case Ok(frames) => frames == run.completed[i] && |held| < 4
            case Err(IncompletePayload(have, need)) =>
              |held| == 4 + have && PayloadLen(held) == need && have < need <= MAX_FRAME_LEN
            case Err(TooLarge(len)) => |held| >= 4 && PayloadLen(held) == len > MAX_FRAME_LEN
            case Err(Incomplete) => false
    decreases |chunks|
  {
    var d := Decode(buffer + chunks[0]);
    DecodeSound(buffer + chunks[0]);
    assert chunks[..i + 1][0] == chunks[0];
    if i == 0 {
      assert chunks[..1][1..] == [];
    } else {
      assert chunks[..i + 1][1..] == chunks[1..][..i];
      PushesAnswerTruthfully(d.tail, chunks[1..], i - 1);
    }
  }

  /** Of lists of answers and completed frames that agree where the answer is `Ok`, nothing is missing exactly when the
      failing pushes completed nothing; the lost frames make up the difference. */
  lemma {:induction false} OkPartIsAll(results: seq<PushResult>, completed: seq<seq<Frame>>)
    requires |results| == |completed|
    requires forall i :: 0 <= i < |results| && results[i].Ok? ==> results[i].frames == completed[i]
    ensures |Returned(results)| + |Lost(results, completed)| == |Concat(completed)|
    ensures Returned(results) == Concat(completed)
            <==> forall i :: 0 <= i < |results| && results[i].Err? ==> completed[i] == []
    decreases |results|
  {
    if results != [] {
      OkPartIsAll(results[1..], completed[1..]);
      var later, laterAll := Returned(results[1..]), Concat(completed[1..]);
      if results[0].Ok? {
        CancelFront(completed[0], later, laterAll);
      } else if completed[0] == [] {
        assert Returned(results) == later && Concat(completed) == laterAll;
      }
      var tail, tailAll := results[1..], completed[1..];
      assert forall i :: 0 < i < |results| ==> results[i] == tail[i - 1] && completed[i] == tailAll[i - 1];
      assert forall i :: 0 <= i < |tail| ==> tail[i] == results[i + 1] && tailAll[i] == completed[i + 1];
    }
  }

  /** The bytes held back after the first `n` pushes: the undecoded tail of the stream so far. */
  function HeldAfter(buffer: Bytes, chunks: seq<Bytes>, n: nat): Bytes
    requires n <= |chunks|
  {
    Decode(buffer + Concat(chunks[..n])).tail
  }

  /** Each push answers and completes what decoding the held bytes and its chunk says. */
  lemma {:induction false} PushAt(buffer: Bytes, chunks: seq<Bytes>, i: nat)
    requires !Ready(buffer) && i < |chunks|
    ensures var run, d := Pushes(buffer, chunks), Decode(HeldAfter(buffer, chunks, i) + chunks[i]);
            run.results[i] == Answer(d) && run.completed[i] == Frames(d.raws)
    decreases |chunks|
  {
    hide Decode, Frames, Pushes, Ready, Answer;
    PushesUnfold(buffer, chunks);
    if i == 0 {
      assert buffer + Concat(chunks[..0]) == buffer;
      PushesNone(buffer);
    } else {
      var first, rest := buffer + chunks[0], chunks[1..];
      var run, later := Pushes(buffer, chunks), Pushes(Decode(first).tail, rest);
      DecodeSound(first);
      PushAt(Decode(first).tail, rest, i - 1);
      assert chunks[..i][0] == chunks[0] && chunks[..i][1..] == rest[..i - 1];
      assert buffer + Concat(chunks[..i]) == first + Concat(rest[..i - 1]);
      FramesInTwoSteps(first, Concat(rest[..i - 1]));
      assert run.results[i] == run.results[1..][i - 1] && run.completed[i] == run.completed[1..][i - 1];
    }
  }

  /** A push on these bytes returns what it completes: it ends inside a header or between frames, or completes
      nothing. */
  predicate ReturnsAll(bytes: Bytes) {
    var d := Decode(bytes);
    |d.tail| < 4 || Frames(d.raws) == []
  }

  /** The caller receives every frame of the stream exactly when each chunk that ends behind a whole header of an
      incomplete or oversized frame completes no frame.  In any case what it does not receive is what such pushes
      completed. */
  lemma ReturnedExactly(buffer: Bytes, chunks: seq<Bytes>)
    requires !Ready(buffer)
    ensures var run, all := Pushes(buffer, chunks), Frames(Decode(buffer + Concat(chunks)).raws);
            |Returned(run.results)| + |Lost(run.results, run.completed)| == |all|
    ensures var run, all := Pushes(buffer, chunks), Frames(Decode(buffer + Concat(chunks)).raws);
            Returned(run.results) == all
            <==> forall i :: 0 <= i < |chunks| ==> ReturnsAll(HeldAfter(buffer, chunks, i) + chunks[i])
  {
    hide Decode, Frames, Pushes, Ready, Returned, Lost, HeldAfter;
    var run := Pushes(buffer, chunks);
    PushesRefineDecode(buffer, chunks);
    forall i | 0 <= i < |chunks|
      ensures run.results[i].Ok? ==> run.results[i].frames == run.completed[i]
      ensures (run.results[i].Err? ==> run.completed[i] == [])
              <==> ReturnsAll(HeldAfter(buffer, chunks, i) + chunks[i])
    {
      PushAt(buffer, chunks, i);
    }
    OkPartIsAll(run.results, run.completed);
  }

  lemma OneRaw(r: Raw)
    ensures Frames([r]) == Classify(r)
  {
  }

  lemma DecodeOneAndRest(r: Raw, rest: Bytes)
    requires Sendable(r) && !Ready(rest)
    ensures Decode(Encode(r) + rest) == Decoded([r], rest)
  {
    EncodeThenHead(r, rest);
    assert Decode(rest).raws == [];
  }

  /** One push can complete a frame and still not return it: a whole frame followed by the start of another. */
  lemma FramesGetLost(first: Raw, second: Raw)
    requires Sendable(first) && Sendable(second) && first.kind == second.kind == TYPE_IPV4
    requires second.payload != []
    ensures var cut := Encode(second)[..4];
            var run := Pushes([], [Encode(first) + cut, second.payload]);
            && run.results == [Err(IncompletePayload(0, |second.payload|)), Ok([Ipv4(second.payload)])]
            && run.completed == [[Ipv4(first.payload)], [Ipv4(second.payload)]]
  {
    hide Decode, Frames, Ready, Encode, Pushes;
    var cut := Encode(second)[..4];
    var c0 := Encode(first) + cut;
    assert !Ready(cut) && PayloadLen(cut) == |second.payload| by { HeaderAlone(second); }
    assert [] + c0 == c0;
    DecodeOneAndRest(first, cut);
    assert cut + second.payload == Encode(second) + [] by { HeaderAlone(second); }
    NothingReady();
    DecodeOneAndRest(second, []);
    PushesUnfold([], [c0, second.payload]);
    assert [c0, second.payload][1..] == [second.payload];
    PushesUnfold(cut, [second.payload]);
    OneRaw(first);
    OneRaw(second);
    var run, rest := Pushes([], [c0, second.payload]), Pushes(cut, [second.payload]);
    assert run.results == [run.results[0]] + [rest.results[0]];
    assert run.completed == [run.completed[0]] + [rest.completed[0]];
  }

  lemma NothingReady()
    ensures !Ready([])
  {
  }

  lemma HeaderAlone(r: Raw)
    requires Sendable(r) && r.payload != []
    ensures var cut := Encode(r)[..4];
            !Ready(cut) && PayloadLen(cut) == |r.payload| && cut + r.payload == Encode(r) + []
  {
  }

  /** Once a header is too large, every later push gives the same answer and completes nothing. */
  lemma {:induction false} TooLargeIsFinal(buffer: Bytes, chunks: seq<Bytes>)
    requires Oversized(buffer)
    ensures var run := Pushes(buffer, chunks);
            forall i :: 0 <= i < |chunks| ==>
              run.results[i] == Err(TooLarge(PayloadLen(buffer))) && run.completed[i] == []
    ensures Pushes(buffer, chunks).buffer == buffer + Concat(chunks)
    decreases |chunks|
  {
    if chunks != [] {
      var b := buffer + chunks[0];
      assert Oversized(b) && PayloadLen(b) == PayloadLen(buffer);
      assert Decode(b) == Decoded([], b);
      TooLargeIsFinal(b, chunks[1..]);
      assert buffer + Concat(chunks) == b + Concat(chunks[1..]);
    }
  }

  // ---------------------------------------------------------------------
  // Round trip of frames

  function AsRaw(f: Frame): Raw {
    match f
    case Ipv4(payload) => Raw(TYPE_IPV4, payload)
    case KeepaliveRequest => Raw(TYPE_KEEPALIVE, [])
    case KeepaliveResponse => Raw(0x0202, [])
  }

  /** A receiver never reports a keepalive request: the parser drops that type. */
  function WithoutRequests(fs: seq<Frame>): seq<Frame> {
    if fs == [] then []
    else (if fs[0].KeepaliveRequest? then [] else [fs[0]]) + WithoutRequests(fs[1..])
  }

  predicate Fits(f: Frame) {
    f.Ipv4? ==> |f.payload| <= MAX_FRAME_LEN
  }

  lemma ToWireIsEncode(f: Frame)
    ensures ToWire(f) == Encode(AsRaw(f))
  {
  }

  lemma FirstFrame(f: Frame, more: Bytes)
    requires Fits(f)
    ensures Decode(ToWire(f) + more) == Decoded([AsRaw(f)] + Decode(more).raws, Decode(more).tail)
  {
    ToWireIsEncode(f);
    EncodeThenHead(AsRaw(f), more);
  }

  /** A payload over the limit is refused, or cut to its length modulo 2^16. */
  lemma MisfitFrame(f: Frame, more: Bytes)
    requires !Fits(f)
    ensures f.Ipv4?
    ensures var d := Decode(ToWire(f) + more);
            d.tail != [] || (d.raws != [] && Frames(d.raws) != [] && Frames(d.raws)[0] != f)
  {
    var n := |f.payload|;
    var b := ToWire(f) + more;
    assert b[..4] == ToWire(f)[..4];
    assert PayloadLen(b) == n % 0x1_0000;
    if Ready(b) {
      var head := Head(b);
      assert head.kind == TYPE_IPV4 && |head.payload| < n;
      assert Frames(Decode(b).raws)[0] == Ipv4(head.payload);
    }
  }

  /** The wire form of a list of frames decodes to that list, without keepalive requests and with nothing left. */
  ghost predicate RoundTrips(fs: seq<Frame>) {
    var d := Decode(ToWireAll(fs));
    Frames(d.raws) == WithoutRequests(fs) && d.tail == []
  }

  lemma RoundTripStep(fs: seq<Frame>)
    requires fs != []
    ensures RoundTrips(fs) <==> Fits(fs[0]) && RoundTrips(fs[1..])
  {
    hide Decode, Frames, Classify, Encode, Fits;
    var f, more := fs[0], ToWireAll(fs[1..]);
    if Fits(f) {
      FirstFrame(f, more);
      FrontOf(f);
      var rest := Decode(more);
      FramesOfCons(AsRaw(f), rest.raws);
      CancelFront(Classify(AsRaw(f)), Frames(rest.raws), WithoutRequests(fs[1..]));
    } else {
      MisfitFrame(f, more);
      assert WithoutRequests(fs)[0] == f;
    }
  }

  lemma FrontOf(f: Frame)
    ensures Classify(AsRaw(f)) == if f.KeepaliveRequest? then [] else [f]
  {
  }

  lemma FramesOfCons(r: Raw, rs: seq<Raw>)
    ensures Frames([r] + rs) == Classify(r) + Frames(rs)
  {
  }

  lemma CancelFront<T>(front: seq<T>, a: seq<T>, b: seq<T>)
    ensures front + a == front + b <==> a == b
  {
    assert (front + a)[|front|..] == a && (front + b)[|front|..] == b;
  }

  lemma {:induction false} RoundTripsIffFits(fs: seq<Frame>)
    ensures RoundTrips(fs) <==> forall f :: f in fs ==> Fits(f)
  {
    if fs != [] {
      RoundTripStep(fs);
      RoundTripsIffFits(fs[1..]);
      assert forall f :: f in fs <==> f == fs[0] || f in fs[1..];
    }
  }

  /** Pushing the wire form of a list of frames on a fresh stream gives the list back, without keepalive requests
      and with nothing left over, exactly when every payload is within the limit. */
  lemma RoundTripExactly(fs: seq<Frame>)
    ensures (var d := Decode(ToWireAll(fs)); Answer(d) == Ok(WithoutRequests(fs)) && d.tail == [])
            <==> forall f :: f in fs ==> Fits(f)
  {
    RoundTripsIffFits(fs);
  }

  /** The same, pushed through the class. */
  method RoundTrip(fs: seq<Frame>) returns (r: PushResult, left: nat)
    ensures r == Ok(WithoutRequests(fs)) && left == 0 <==> forall f :: f in fs ==> Fits(f)
  {
    var stream := new H3cFrameStream();
    assert [] + ToWireAll(fs) == ToWireAll(fs);
    r := stream.Push(ToWireAll(fs));
    left := stream.BufferedLen();
    RoundTripExactly(fs);
  }
}
