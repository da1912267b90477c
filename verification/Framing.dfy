// The worker's length-prefixed pipe protocol: a 4-byte big-endian length and
// then the payload. The receiver sees the byte stream in arbitrary chunks.

module Framing {
  newtype byte = x: int | 0 <= x < 256

  type Bytes = seq<byte>

  const HEADER := 4
  const LENGTH_LIMIT := 0x1_0000_0000

  lemma DigitsAddUp(n: nat)
    ensures n == n / 0x100_0000 * 0x100_0000 + n / 0x1_0000 % 0x100 * 0x1_0000 + n / 0x100 % 0x100 * 0x100 + n % 0x100
  {
    assert n / 0x1_0000 == n / 0x100 / 0x100;
    assert n / 0x100_0000 == n / 0x100 / 0x100 / 0x100;
  }

  function WriteUInt32BE(n: nat): (header: Bytes)
    requires n < LENGTH_LIMIT
    ensures |header| == HEADER
    ensures ReadUInt32BE(header) == n
  {
    DigitsAddUp(n);
    [(n / 0x100_0000) as byte, (n / 0x1_0000 % 0x100) as byte, (n / 0x100 % 0x100) as byte, (n % 0x100) as byte]
  }

  function ReadUInt32BE(b: Bytes): (n: nat)
    requires |b| >= HEADER
    ensures n < LENGTH_LIMIT
  {
    b[0] as int * 0x100_0000 + b[1] as int * 0x1_0000 + b[2] as int * 0x100 + b[3] as int
  }

  lemma WriteReadsBack(b: Bytes)
    requires |b| >= HEADER
    ensures WriteUInt32BE(ReadUInt32BE(b)) == b[..HEADER]
  {
    var n := ReadUInt32BE(b);
    assert n / 0x100_0000 == b[0] as int;
    assert n / 0x1_0000 == b[0] as int * 0x100 + b[1] as int;
    assert n / 0x100 == b[0] as int * 0x1_0000 + b[1] as int * 0x100 + b[2] as int;
  }

  // The most significant byte comes first.
  lemma HeaderIsBigEndian(n: nat)
    requires n < LENGTH_LIMIT
    ensures var h := WriteUInt32BE(n);
      n == ((h[0] as int * 256 + h[1] as int) * 256 + h[2] as int) * 256 + h[3] as int
  {
  }

  predicate Fits(payload: Bytes) { |payload| < LENGTH_LIMIT }

  function Frame(payload: Bytes): Bytes
    requires Fits(payload)
  {
    WriteUInt32BE(|payload|) + payload
  }

  function Encode(payloads: seq<Bytes>): Bytes
    requires forall p | p in payloads :: Fits(p)
  {
    if payloads == [] then [] else Frame(payloads[0]) + Encode(payloads[1..])
  }

  predicate HasFrame(b: Bytes) {
    |b| >= HEADER && |b| >= HEADER + ReadUInt32BE(b)
  }

  function FirstPayload(b: Bytes): (p: Bytes)
    requires HasFrame(b)
    ensures Fits(p)
  {
    b[HEADER..HEADER + ReadUInt32BE(b)]
  }

  function AfterFrame(b: Bytes): Bytes
    requires HasFrame(b)
  {
    b[HEADER + ReadUInt32BE(b)..]
  }

  datatype Decoded = Decoded(payloads: seq<Bytes>, rest: Bytes)

  // One-shot decoding of a whole byte string.
  function Decode(b: Bytes): (d: Decoded)
    ensures forall p | p in d.payloads :: Fits(p)
    ensures !HasFrame(d.rest)
    decreases |b|
  {
    if HasFrame(b) then
      var d := Decode(AfterFrame(b));
      Decoded([FirstPayload(b)] + d.payloads, d.rest)
    else Decoded([], b)
  }

  function Join(chunks: seq<Bytes>): Bytes {
    if chunks == [] then [] else chunks[0] + Join(chunks[1..])
  }

  // What a receiver that held `rest` has delivered and holds after more chunks.
  function Feed(rest: Bytes, chunks: seq<Bytes>): Decoded
    decreases |chunks|
  {
    if chunks == [] then Decoded([], rest)
    else
      var d := Decode(rest + chunks[0]);
      var e := Feed(d.rest, chunks[1..]);
      Decoded(d.payloads + e.payloads, e.rest)
  }

  lemma FrameIsFirst(payload: Bytes, tail: Bytes)
    requires Fits(payload)
    ensures HasFrame(Frame(payload) + tail)
    ensures FirstPayload(Frame(payload) + tail) == payload
    ensures AfterFrame(Frame(payload) + tail) == tail
  {
  }

  // More bytes never change a frame that is already complete.
  lemma FrameIsStable(a: Bytes, b: Bytes)
    requires HasFrame(a)
    ensures HasFrame(a + b)
    ensures FirstPayload(a + b) == FirstPayload(a)
    ensures AfterFrame(a + b) == AfterFrame(a) + b
  {
  }

  // Decoding a concatenation is decoding the front, then the leftover with the back.
  lemma {:induction false} DecodeSplits(a: Bytes, b: Bytes)
    ensures Decode(a + b) ==
            Decoded(Decode(a).payloads + Decode(Decode(a).rest + b).payloads, Decode(Decode(a).rest + b).rest)
    decreases |a|
  {
    if HasFrame(a) {
      FrameIsStable(a, b);
      DecodeSplits(AfterFrame(a), b);
    }
  }

  // Chunk-by-chunk feeding equals one-shot decoding, whatever the cuts.
  lemma {:induction false} FeedEqualsDecode(rest: Bytes, chunks: seq<Bytes>)
    requires !HasFrame(rest)
    ensures Feed(rest, chunks) == Decode(rest + Join(chunks))
    decreases |chunks|
  {
    if chunks == [] {
      assert rest + [] == rest;
    } else {
      var front, back := rest + chunks[0], Join(chunks[1..]);
      assert rest + Join(chunks) == front + back;
      DecodeSplits(front, back);
      FeedEqualsDecode(Decode(front).rest, chunks[1..]);
    }
  }

  lemma DecodeFrame(payload: Bytes, later: Bytes)
    requires Fits(payload)
    ensures Decode(Frame(payload) + later) == Decoded([payload] + Decode(later).payloads, Decode(later).rest)
  {
    FrameIsFirst(payload, later);
  }

  // Decoding inverts encoding, up to an unfinished tail.
  lemma {:induction false} DecodeInvertsEncode(payloads: seq<Bytes>, tail: Bytes)
    requires forall p | p in payloads :: Fits(p)
    requires !HasFrame(tail)
    ensures Decode(Encode(payloads) + tail) == Decoded(payloads, tail)
    decreases |payloads|
  {
    if payloads == [] {
      assert [] + tail == tail;
    } else {
      var later := Encode(payloads[1..]) + tail;
      assert Encode(payloads) + tail == Frame(payloads[0]) + later;
      DecodeFrame(payloads[0], later);
      DecodeInvertsEncode(payloads[1..], tail);
      assert payloads == [payloads[0]] + payloads[1..];
    }
  }

  lemma FrameReadsBack(b: Bytes)
    requires HasFrame(b)
    ensures Frame(FirstPayload(b)) + AfterFrame(b) == b
  {
    WriteReadsBack(b);
    assert b == b[..HEADER] + FirstPayload(b) + AfterFrame(b);
  }

  lemma EncodeCons(p: Bytes, ps: seq<Bytes>)
    requires Fits(p) && forall q | q in ps :: Fits(q)
    ensures Encode([p] + ps) == Frame(p) + Encode(ps)
  {
  }

  lemma Associate(a: Bytes, b: Bytes, c: Bytes)
    ensures a + b + c == a + (b + c)
  {
  }

  // Encoding inverts decoding: no byte of any stream is lost, added or moved.
  lemma {:induction false} EncodeInvertsDecode(b: Bytes)
    ensures Encode(Decode(b).payloads) + Decode(b).rest == b
    decreases |b|
  {
    if HasFrame(b) {
      var d := Decode(AfterFrame(b));
      EncodeInvertsDecode(AfterFrame(b));
      FrameReadsBack(b);
      EncodeCons(FirstPayload(b), d.payloads);
      Associate(Frame(FirstPayload(b)), Encode(d.payloads), d.rest);
    }
  }

  // Any list of payloads, cut anywhere, arrives complete, in order and once.
  lemma {:induction false} AnyChunkingDelivers(payloads: seq<Bytes>, chunks: seq<Bytes>)
    requires forall p | p in payloads :: Fits(p)
    requires Join(chunks) == Encode(payloads)
    ensures Feed([], chunks) == Decoded(payloads, [])
  {
    FeedEqualsDecode([], chunks);
    assert [] + Join(chunks) == Encode(payloads) + [];
    DecodeInvertsEncode(payloads, []);
  }

  datatype SendResult = NotConnected | TooLong | Sent

  class SecureIpcClient {
    var connected: bool
    var rxBuffer: Bytes
    // Bytes handed to the socket, and frames handed to the JSON layer.
    var written: Bytes
    var delivered: seq<Bytes>

    constructor ()
      ensures !connected && rxBuffer == [] && written == [] && delivered == []
    {
      connected, rxBuffer, written, delivered := false, [], [], [];
    }

    // The 32-bit length field cannot be written for a longer payload.
    method Send(payload: Bytes) returns (r: SendResult)
      modifies this`written
      ensures r == NotConnected <==> !connected
      ensures r == TooLong <==> connected && |payload| >= 0x1_0000_0000
      ensures written == if connected && Fits(payload) then old(written) + Frame(payload) else old(written)
    {
      if !connected {
        return NotConnected;
      }
      if |payload| >= LENGTH_LIMIT {
        return TooLong;
      }
      var header := WriteUInt32BE(|payload|);
      written := written + (header + payload);
      r := Sent;
    }

    method HandleData(chunk: Bytes)
      requires !HasFrame(rxBuffer)
      modifies this`rxBuffer, this`delivered
      ensures !HasFrame(rxBuffer)
      ensures var d := Decode(old(rxBuffer) + chunk);
        delivered == old(delivered) + d.payloads && rxBuffer == d.rest
    {
      rxBuffer := rxBuffer + chunk;
      ghost var goal := Decode(rxBuffer);
      while |rxBuffer| >= HEADER
        invariant delivered + Decode(rxBuffer).payloads == old(delivered) + goal.payloads
        invariant Decode(rxBuffer).rest == goal.rest
        decreases |rxBuffer|
      {
        var msgLen := ReadUInt32BE(rxBuffer);
        if |rxBuffer| < HEADER + msgLen {
          break;
        }
        var frameData := rxBuffer[HEADER..HEADER + msgLen];
        rxBuffer := rxBuffer[HEADER + msgLen..];
        delivered := delivered + [frameData];
      }
    }
  }
}
