/** The H3C wire format: `type u16-LE | len u16-BE | payload`.

    `Decode` is the reference both parsers are proved against.  It splits a byte
    stream into raw frames of any type plus the bytes that do not yet form one.
    `Decode` and `EncodeAll` are inverse to each other (`DecodeEncode`,
    `DecodeSound`), and decoding is independent of how the stream was cut into
    chunks (`DecodeAppend`). */
module Wire {

  type byte = b: int | 0 <= b < 256
  type Bytes = seq<byte>

  const MAX_FRAME_LEN: nat := 16384
  const TYPE_IPV4: nat := 1
  const TYPE_KEEPALIVE: nat := 2

  /** The four octets a client sends to ask for a sign of life. */
  const KEEPALIVE_REQUEST: Bytes := [2, 0, 0, 0]

  /** The four octets the gateway answers with. */
  const KEEPALIVE_RESPONSE: Bytes := [2, 2, 0, 0]

  /** One frame as it appears on the wire, whatever its type. */
  datatype Raw = Raw(kind: nat, payload: Bytes)

  /** What a frame stands for to the program. */
  datatype Frame = Ipv4(payload: Bytes) | KeepaliveRequest | KeepaliveResponse

  /** Raw frames in order of arrival, then the bytes left over. */
  datatype Decoded = Decoded(raws: seq<Raw>, tail: Bytes)

  // ---------------------------------------------------------------------
  // Encoding

  /** Frames a peer that respects the limits can send. */
  ghost predicate Sendable(r: Raw) {
    r.kind < 0x1_0000 && |r.payload| <= MAX_FRAME_LEN
  }

  ghost predicate AllSendable(rs: seq<Raw>) {
    forall i :: 0 <= i < |rs| ==> Sendable(rs[i])
  }

  /** The length field is 16 bits wide, so longer payloads are announced modulo 2^16. */
  function Encode(r: Raw): (bytes: Bytes)
    ensures |bytes| == 4 + |r.payload|
  {
    [r.kind % 256, r.kind / 256 % 256, |r.payload| / 256 % 256, |r.payload| % 256] + r.payload
  }

  function EncodeAll(rs: seq<Raw>): Bytes {
    if rs == [] then [] else Encode(rs[0]) + EncodeAll(rs[1..])
  }

  // ---------------------------------------------------------------------
  // Decoding

  function Kind(b: Bytes): nat
    requires |b| >= 4
  {
    b[0] as int + 256 * b[1] as int
  }

  function PayloadLen(b: Bytes): nat
    requires |b| >= 4
  {
    256 * b[2] as int + b[3] as int
  }

  /** The header at the front of `b` announces more than the limit. */
  predicate Oversized(b: Bytes) {
    |b| >= 4 && PayloadLen(b) > MAX_FRAME_LEN
  }

  /** A complete acceptable frame stands at the front of `b`. */
  predicate Ready(b: Bytes) {
    |b| >= 4 && PayloadLen(b) <= MAX_FRAME_LEN && |b| >= 4 + PayloadLen(b)
  }

  function Head(b: Bytes): Raw
    requires Ready(b)
  {
    Raw(Kind(b), b[4..4 + PayloadLen(b)])
  }

  function Rest(b: Bytes): Bytes
    requires Ready(b)
  {
    b[4 + PayloadLen(b)..]
  }

  function Decode(b: Bytes): Decoded
    decreases |b|
  {
    if Ready(b) then
      var rest := Decode(Rest(b));
      Decoded([Head(b)] + rest.raws, rest.tail)
    else
      Decoded([], b)
  }

  // ---------------------------------------------------------------------
  // Meaning of frames

  /** Frame types nobody knows are dropped; a response is recognised by its two type octets and empty payload. */
  function Classify(r: Raw): seq<Frame> {
    if r.kind == 0x0202 && r.payload == [] then [KeepaliveResponse]
    else if r.kind == TYPE_IPV4 then [Ipv4(r.payload)]
    else []
  }

  function Frames(rs: seq<Raw>): seq<Frame> {
    if rs == [] then [] else Classify(rs[0]) + Frames(rs[1..])
  }

  /** The IPv4 packets among the frames. */
  function Packets(rs: seq<Raw>): seq<Bytes> {
    if rs == [] then []
    else (if rs[0].kind == TYPE_IPV4 then [rs[0].payload] else []) + Packets(rs[1..])
  }

  // ---------------------------------------------------------------------
  // Encoding and decoding are inverse

  lemma EncodeThenHead(r: Raw, rest: Bytes)
    requires Sendable(r)
    ensures Ready(Encode(r) + rest) && Head(Encode(r) + rest) == r && Rest(Encode(r) + rest) == rest
  {
  }

  lemma HeadThenEncode(b: Bytes)
    requires Ready(b)
    ensures Sendable(Head(b)) && Encode(Head(b)) + Rest(b) == b
  {
    assert b == b[..4] + b[4..4 + PayloadLen(b)] + Rest(b);
    assert b[..4] == Encode(Head(b))[..4];
  }

  /** Nothing is invented and nothing is lost: the pieces put together again are the input, and no frame is left
      behind. */
  lemma {:induction false} DecodeSound(b: Bytes)
    ensures AllSendable(Decode(b).raws)
    ensures EncodeAll(Decode(b).raws) + Decode(b).tail == b
    ensures !Ready(Decode(b).tail)
    decreases |b|
  {
    hide Encode, Head, Sendable;
    if Ready(b) {
      HeadThenEncode(b);
      DecodeSound(Rest(b));
      var rest := Decode(Rest(b));
      assert Decode(b).raws[1..] == rest.raws;
      assert Encode(Head(b)) + EncodeAll(rest.raws) + rest.tail == Encode(Head(b)) + (EncodeAll(rest.raws) + rest.tail);
    }
  }

  /** Decoding recovers exactly the frames that were sent, and no other reading of the bytes is possible. */
  lemma {:induction false} DecodeEncode(rs: seq<Raw>, tail: Bytes)
    requires AllSendable(rs) && !Ready(tail)
    ensures Decode(EncodeAll(rs) + tail) == Decoded(rs, tail)
  {
    if rs == [] {
      assert EncodeAll(rs) + tail == tail;
    } else {
      var more := EncodeAll(rs[1..]) + tail;
      assert EncodeAll(rs) + tail == Encode(rs[0]) + more;
      EncodeThenHead(rs[0], more);
      DecodeEncode(rs[1..], tail);
    }
  }

  /** Decoding in two chunks, keeping the tail in between, is decoding in one. */
  lemma {:induction false} DecodeAppend(a: Bytes, b: Bytes)
    ensures Decode(a + b).raws == Decode(a).raws + Decode(Decode(a).tail + b).raws
    ensures Decode(a + b).tail == Decode(Decode(a).tail + b).tail
    decreases |a|
  {
    if Ready(a) {
      assert Ready(a + b) && Head(a + b) == Head(a) && Rest(a + b) == Rest(a) + b;
      DecodeAppend(Rest(a), b);
    }
  }

  // ---------------------------------------------------------------------
  // The octets

  /** The first two octets are the type, low octet first; the next two the payload's length, high octet first. */
  lemma HeaderOctets(r: Raw)
    requires r.kind < 0x1_0000
    ensures var b := Encode(r);
            && b[0] as int + 256 * b[1] as int == r.kind
            && 256 * b[2] as int + b[3] as int == |r.payload| % 0x1_0000
            && b[4..] == r.payload
  {
    TwoOctets(r.kind);
    TwoOctets(|r.payload|);
  }

  lemma TwoOctets(n: nat)
    ensures n % 256 + 256 * (n / 256 % 256) == n % 0x1_0000
  {
    var a := n / 256;
    assert n == 256 * a + n % 256 && a == 256 * (a / 256) + a % 256;
    assert n == 0x1_0000 * (a / 256) + (256 * (a % 256) + n % 256);
  }

  /** Octets of that form are read as that frame, up to the longest payload of 16384 octets. */
  lemma FrameOctets(type0: byte, type1: byte, len0: byte, len1: byte, payload: Bytes, rest: Bytes)
    requires 256 * len0 as int + len1 as int == |payload|
    ensures var b := [type0, type1, len0, len1] + (payload + rest);
            if |payload| <= 16384 then
              Decode(b)
              == Decoded([Raw(type0 as int + 256 * type1 as int, payload)] + Decode(rest).raws, Decode(rest).tail)
            else
              Oversized(b) && Decode(b) == Decoded([], b)
  {
    var b := [type0, type1, len0, len1] + (payload + rest);
    assert b[4..4 + |payload|] == payload && b[4 + |payload|..] == rest;
  }

  /** Type 1 is an IPv4 packet, `02 02 00 00` the gateway's sign of life; a request for one is dropped. */
  lemma KnownFrames(payload: Bytes)
    ensures Frames([Raw(1, payload)]) == [Ipv4(payload)]
    ensures Frames(Decode([2, 2, 0, 0]).raws) == [KeepaliveResponse]
    ensures Frames(Decode([2, 0, 0, 0]).raws) == []
  {
    FrameOctets(2, 2, 0, 0, [], []);
    FrameOctets(2, 0, 0, 0, [], []);
    assert [2, 2, 0, 0] + ([] + []) == [2, 2, 0, 0] && [2, 0, 0, 0] + ([] + []) == [2, 0, 0, 0];
    assert Decode([]) == Decoded([], []);
    assert Decode([2, 2, 0, 0]).raws == [Raw(0x0202, [])] && Decode([2, 0, 0, 0]).raws == [Raw(2, [])];
    assert [Raw(1, payload)][1..] == [] && [Raw(0x0202, [])][1..] == [] && [Raw(2, [])][1..] == [];
  }

  /** Every other type, and a sign of life with a payload, is dropped; and packets are exactly the frames of type 1. */
  lemma OtherTypesAreDropped(r: Raw)
    ensures Frames([r]) == [] <==> r.kind != 1 && !(r.kind == 2 + 256 * 2 && r.payload == [])
    ensures Packets([r]) == if r.kind == 1 then [r.payload] else []
  {
    assert [r][1..] == [];
  }

  // ---------------------------------------------------------------------
  // Concatenation laws

  lemma {:induction false} EncodeAllAppend(a: seq<Raw>, b: seq<Raw>)
    ensures EncodeAll(a + b) == EncodeAll(a) + EncodeAll(b)
  {
    if a == [] {
      assert a + b == b;
    } else {
      assert (a + b)[1..] == a[1..] + b;
      EncodeAllAppend(a[1..], b);
    }
  }

  lemma {:induction false} FramesAppend(a: seq<Raw>, b: seq<Raw>)
    ensures Frames(a + b) == Frames(a) + Frames(b)
  {
    if a == [] {
      assert a + b == b;
    } else {
      assert (a + b)[1..] == a[1..] + b;
      FramesAppend(a[1..], b);
    }
  }

  lemma {:induction false} PacketsAppend(a: seq<Raw>, b: seq<Raw>)
    ensures Packets(a + b) == Packets(a) + Packets(b)
  {
    if a == [] {
      assert a + b == b;
    } else {
      assert (a + b)[1..] == a[1..] + b;
      PacketsAppend(a[1..], b);
    }
  }
}
