/** The message stream framing of quic/handler/protocol/four-yte_protocol.go and the read loop of
    quic/handler/message_handler.go. A frame is a 4-byte big-endian length, a 12-byte nonce and an
    AEAD ciphertext. The AEAD (AES-256-GCM, section 5.2 of RFC 5116) is a parameter. */
module Framing {
  import opened Options

  type Byte = x: nat | x < 0x100
  type Bytes = seq<Byte>

  const HEADER_SIZE: nat := 4
  const NONCE_SIZE: nat := 12
  const LENGTH_LIMIT: nat := 0x1_0000_0000

  datatype Aead = Aead(seal: (Bytes, Bytes) -> Bytes, open: (Bytes, Bytes) -> Option<Bytes>) {
    /** Opening a sealed plaintext under the same nonce returns it. */
    ghost predicate Lawful()
    {
      forall nonce, plaintext :: open(nonce, seal(nonce, plaintext)) == Some(plaintext)
    }
  }

  // ---------- Frames ----------

  /** The low 32 bits of n, most significant byte first. */
  function PutUint32(n: nat): (b: Bytes)
    ensures |b| == HEADER_SIZE
  {
    [n / 0x100 / 0x100 / 0x100 % 0x100, n / 0x100 / 0x100 % 0x100, n / 0x100 % 0x100, n % 0x100]
  }

  function Uint32(b: Bytes): (n: nat)
    requires |b| == HEADER_SIZE
    ensures n < LENGTH_LIMIT
  {
    var b0: nat, b1: nat, b2: nat, b3: nat := b[0], b[1], b[2], b[3];
    ((b0 * 0x100 + b1) * 0x100 + b2) * 0x100 + b3
  }

  lemma Uint32OfPut(n: nat)
    ensures Uint32(PutUint32(n)) == n % LENGTH_LIMIT
  {
    var q3 := n / 0x100;
    var q2 := q3 / 0x100;
    var q1 := q2 / 0x100;
    var q0 := q1 / 0x100;
    assert n == q0 * LENGTH_LIMIT + Uint32(PutUint32(n));
  }

  /** The most significant byte comes first. */
  lemma BigEndian(b0: Byte, b1: Byte, b2: Byte, b3: Byte)
    ensures PutUint32(b0 * 0x100_0000 + b1 * 0x1_0000 + b2 * 0x100 + b3) == [b0, b1, b2, b3]
    ensures Uint32([b0, b1, b2, b3]) == b0 * 0x100_0000 + b1 * 0x1_0000 + b2 * 0x100 + b3
  {
    var n := b0 * 0x100_0000 + b1 * 0x1_0000 + b2 * 0x100 + b3;
    assert n / 0x100 == b0 * 0x1_0000 + b1 * 0x100 + b2;
    assert n / 0x100 / 0x100 == b0 * 0x100 + b1;
    assert n / 0x100 / 0x100 / 0x100 == b0;
  }

  /** A plaintext and the nonce drawn for it. */
  datatype Message = Message(nonce: Bytes, payload: Bytes)

  function Body(aead: Aead, m: Message): Bytes
  {
    m.nonce + aead.seal(m.nonce, m.payload)
  }

  /** A frame of whatever body, also one that nobody sealed. */
  function RawFrame(body: Bytes): Bytes
  {
    PutUint32(|body|) + body
  }

  function Frame(aead: Aead, m: Message): Bytes
  {
    RawFrame(Body(aead, m))
  }

  function Bodies(aead: Aead, ms: seq<Message>): (bodies: seq<Bytes>)
    ensures |bodies| == |ms| && forall i :: 0 <= i < |ms| ==> bodies[i] == Body(aead, ms[i])
  {
    seq(|ms|, i requires 0 <= i < |ms| => Body(aead, ms[i]))
  }

  function Frames(bodies: seq<Bytes>): Bytes
  {
    if bodies == [] then [] else RawFrame(bodies[0]) + Frames(bodies[1..])
  }

  function Payloads(ms: seq<Message>): (ps: seq<Bytes>)
    ensures |ps| == |ms| && forall i :: 0 <= i < |ms| ==> ps[i] == ms[i].payload
  {
    seq(|ms|, i requires 0 <= i < |ms| => ms[i].payload)
  }

  // ---------- Parsing ----------

  predicate HasFrame(buffer: Bytes)
  {
    |buffer| >= HEADER_SIZE && |buffer| >= HEADER_SIZE + Uint32(buffer[..HEADER_SIZE])
  }

  /** What a complete body yields: nothing for an empty plaintext (a nil slice in Go, which the caller
      takes for "no complete frame yet"), and an empty packet for a body that cannot be opened. */
  function OpenBody(aead: Aead, body: Bytes): Option<Bytes>
  {
    if |body| < NONCE_SIZE then Some([])
    else match aead.open(body[..NONCE_SIZE], body[NONCE_SIZE..])
      case None => Some([])
      case Some(plaintext) => if plaintext == [] then None else Some(plaintext)
  }

  /** One call of TryParse: the packet, if any, and the remaining buffer. */
  function Parse(aead: Aead, buffer: Bytes): (r: (Option<Bytes>, Bytes))
    ensures r.0.Some? ==> |r.1| < |buffer|
  {
    if HasFrame(buffer) then
      var total := HEADER_SIZE + Uint32(buffer[..HEADER_SIZE]);
      (OpenBody(aead, buffer[HEADER_SIZE..total]), buffer[total..])
    else (None, buffer)
  }

  /** The inner loop of run: packets until TryParse returns nil. */
  function Drain(aead: Aead, buffer: Bytes): (seq<Bytes>, Bytes)
    decreases |buffer|
  {
    var r := Parse(aead, buffer);
    match r.0
    case None => ([], r.1)
    case Some(packet) =>
      var more := Drain(aead, r.1);
      ([packet] + more.0, more.1)
  }

  /** What one read of the stream returns. It may return bytes together with an error, such as the end of the stream. */
  datatype Read = Read(data: Bytes, failed: bool)

  /** The chunks that the loop takes: it stops at the first failed or empty read and drops the bytes of that read. */
  function Received(results: seq<Read>): seq<Bytes>
  {
    if results == [] || results[0].failed || results[0].data == [] then []
    else [results[0].data] + Received(results[1..])
  }

  /** The read loop over the chunks it takes. */
  function Feed(aead: Aead, buffer: Bytes, chunks: seq<Bytes>): (seq<Bytes>, Bytes)
    decreases |chunks|
  {
    if chunks == [] then ([], buffer)
    else
      var first := Drain(aead, buffer + chunks[0]);
      var more := Feed(aead, first.1, chunks[1..]);
      (first.0 + more.0, more.1)
  }

  class FourByteProtocol {
    var buffer: Bytes
    const aead: Aead

    constructor (aead: Aead)
      ensures buffer == [] && this.aead == aead
    {
      buffer := [];
      this.aead := aead;
    }

    method AddData(chunk: Bytes)
      modifies this
      ensures buffer == old(buffer) + chunk
    {
      buffer := buffer + chunk;
    }

    method TryParse() returns (packet: Option<Bytes>)
      modifies this
      ensures (packet, buffer) == Parse(aead, old(buffer))
    {
      if |buffer| < HEADER_SIZE {
        return None;
      }
      var length := Uint32(buffer[..HEADER_SIZE]);
      var totalLength := length + HEADER_SIZE;
      if |buffer| < totalLength {
        return None;
      }
      var blob := buffer[HEADER_SIZE..totalLength];
      buffer := buffer[totalLength..];
      if |blob| < NONCE_SIZE {
        return Some([]);
      }
      var plaintext := aead.open(blob[..NONCE_SIZE], blob[NONCE_SIZE..]);
      if plaintext.None? {
        return Some([]);
      }
      return if plaintext.value == [] then None else plaintext;
    }

    /** The nonce is the one the random source yields. */
    method Encode(bytes: Bytes, nonce: Bytes) returns (buf: Bytes)
      ensures buf == Frame(aead, Message(nonce, bytes))
      ensures buf[HEADER_SIZE..] == nonce + aead.seal(nonce, bytes)
    {
      var ciphertext := aead.seal(nonce, bytes);
      var blob := nonce + ciphertext;
      var header := PutUint32(|blob|);
      return header + blob;
    }

    /** The loop of MessageHandler.run, with the packets it hands to the decoder. */
    method Run(results: seq<Read>) returns (packets: seq<Bytes>)
      modifies this
      ensures packets == Feed(aead, old(buffer), Received(results)).0
      ensures buffer == Feed(aead, old(buffer), Received(results)).1
    {
      packets := [];
      var i := 0;
      while i < |results|
        invariant 0 <= i <= |results|
        invariant Feed(aead, old(buffer), Received(results)).0 == packets + Feed(aead, buffer, Received(results[i..])).0
        invariant Feed(aead, old(buffer), Received(results)).1 == Feed(aead, buffer, Received(results[i..])).1
      {
        if results[i].failed {
          break;
        }
        if results[i].data == [] {
          break;
        }
        ReceivedStep(results, i);
        AddData(results[i].data);
        var parsed := ParseAll();
        packets := packets + parsed;
        i := i + 1;
      }
    }

    method ParseAll() returns (packets: seq<Bytes>)
      modifies this
      ensures packets == Drain(aead, old(buffer)).0 && buffer == Drain(aead, old(buffer)).1
    {
      packets := [];
      while true
        invariant Drain(aead, old(buffer)).0 == packets + Drain(aead, buffer).0
        invariant Drain(aead, old(buffer)).1 == Drain(aead, buffer).1
        decreases |buffer|
      {
        var packet := TryParse();
        if packet.None? {
          return;
        }
        packets := packets + [packet.value];
      }
    }
  }

  lemma ReceivedStep(results: seq<Read>, i: nat)
    requires i < |results| && !results[i].failed && results[i].data != []
    ensures Received(results[i..]) == [results[i].data] + Received(results[i + 1..])
  {
    assert results[i..][1..] == results[i + 1..];
  }

  // ---------- Single frames ----------

  lemma ParseOfFrame(aead: Aead, body: Bytes, more: Bytes)
    requires |body| < LENGTH_LIMIT
    ensures HasFrame(RawFrame(body) + more)
    ensures Parse(aead, RawFrame(body) + more) == (OpenBody(aead, body), more)
  {
    var buffer := RawFrame(body) + more;
    Uint32OfPut(|body|);
    assert buffer[..HEADER_SIZE] == PutUint32(|body|);
    assert buffer[HEADER_SIZE..HEADER_SIZE + |body|] == body;
    assert buffer[HEADER_SIZE + |body|..] == more;
  }

  lemma NoFrameInPart(body: Bytes, part: Bytes)
    requires |body| < LENGTH_LIMIT && part <= RawFrame(body) && |part| < HEADER_SIZE + |body|
    ensures !HasFrame(part)
  {
    Uint32OfPut(|body|);
    if |part| >= HEADER_SIZE {
      assert part[..HEADER_SIZE] == PutUint32(|body|);
    }
  }

  /** A body is a nonce of 12 bytes and a ciphertext. One that is shorter, or that cannot be opened, yields an empty
      packet; one with an empty plaintext yields none. */
  lemma OpenBodyIs(aead: Aead, nonce: Bytes, ciphertext: Bytes)
    ensures |nonce| == 12 ==>
              var plain := aead.open(nonce, ciphertext);
              OpenBody(aead, nonce + ciphertext) ==
                if plain.None? then Some([]) else if plain.value == [] then None else plain
    ensures |nonce| < 12 ==> OpenBody(aead, nonce) == Some([])
  {
    var body := nonce + ciphertext;
    if |nonce| == 12 {
      assert body[..12] == nonce && body[12..] == ciphertext;
    }
  }

  lemma OpenBodyOfMessage(aead: Aead, m: Message)
    requires aead.Lawful() && |m.nonce| == NONCE_SIZE
    ensures OpenBody(aead, Body(aead, m)) == if m.payload == [] then None else Some(m.payload)
  {
    assert Body(aead, m)[..NONCE_SIZE] == m.nonce;
    assert Body(aead, m)[NONCE_SIZE..] == aead.seal(m.nonce, m.payload);
  }

  /** A body that cannot be opened costs exactly its own frame: what follows is parsed as if it stood alone. */
  lemma CorruptFrameIsSkipped(aead: Aead, body: Bytes, more: Bytes)
    requires |body| < LENGTH_LIMIT
    requires |body| >= NONCE_SIZE ==> aead.open(body[..NONCE_SIZE], body[NONCE_SIZE..]).None?
    ensures Drain(aead, RawFrame(body) + more) == ([[]] + Drain(aead, more).0, Drain(aead, more).1)
  {
    ParseOfFrame(aead, body, more);
  }

  /** A lone frame is consumed whole exactly when its body fits the length field. */
  lemma LoneFrameIsConsumed(aead: Aead, m: Message)
    requires |m.nonce| == NONCE_SIZE
    ensures Parse(aead, Frame(aead, m)).1 == [] <==> |Body(aead, m)| < LENGTH_LIMIT
  {
    var body := Body(aead, m);
    Uint32OfPut(|body|);
    assert Frame(aead, m)[..HEADER_SIZE] == PutUint32(|body|);
    if |body| < LENGTH_LIMIT {
      assert Frame(aead, m) == RawFrame(body) + [];
      ParseOfFrame(aead, body, []);
    }
  }

  // ---------- Streams ----------

  function Flatten(chunks: seq<Bytes>): Bytes
  {
    if chunks == [] then [] else chunks[0] + Flatten(chunks[1..])
  }

  /** Every body fits the length field. */
  predicate AllFit(bodies: seq<Bytes>)
  {
    forall i :: 0 <= i < |bodies| ==> |bodies[i]| < LENGTH_LIMIT
  }

  /** No body opens to an empty plaintext; a body that cannot be opened yields an empty packet. */
  predicate AllYield(aead: Aead, bodies: seq<Bytes>)
  {
    forall i :: 0 <= i < |bodies| ==> OpenBody(aead, bodies[i]).Some?
  }

  /** The packets that the loop can hand on. */
  function Delivered(aead: Aead, bodies: seq<Bytes>): seq<Bytes>
  {
    if bodies == [] then []
    else
      match OpenBody(aead, bodies[0])
      case None => Delivered(aead, bodies[1..])
      case Some(packet) => [packet] + Delivered(aead, bodies[1..])
  }

  lemma {:induction false} DeliveredPackets(aead: Aead, bodies: seq<Bytes>)
    ensures |Delivered(aead, bodies)| <= |bodies|
    ensures |Delivered(aead, bodies)| == |bodies| <==> AllYield(aead, bodies)
    ensures AllYield(aead, bodies) ==>
              forall i :: 0 <= i < |bodies| ==> Delivered(aead, bodies)[i] == OpenBody(aead, bodies[i]).value
  {
    if bodies != [] {
      DeliveredPackets(aead, bodies[1..]);
      assert bodies == [bodies[0]] + bodies[1..];
    }
  }

  /** The buffer holds less than the first of the frames that are still to come. */
  predicate Leftover(buffer: Bytes, bodies: seq<Bytes>)
  {
    if bodies == [] then buffer == [] else |buffer| < |RawFrame(bodies[0])|
  }

  /** Where a stream of frames stands: k of them were consumed, and buffer and tail make up the others. */
  ghost predicate Consumed(aead: Aead, bodies: seq<Bytes>, k: nat, packets: seq<Bytes>, buffer: Bytes, tail: Bytes)
  {
    && k <= |bodies|
    && buffer + tail == Frames(bodies[k..])
    && packets == Delivered(aead, bodies[..k])
  }

  lemma {:induction false} DrainConsumes(aead: Aead, bodies: seq<Bytes>, buffer: Bytes, tail: Bytes) returns (k: nat)
    requires AllFit(bodies) && buffer + tail == Frames(bodies)
    ensures Consumed(aead, bodies, k, Drain(aead, buffer).0, Drain(aead, buffer).1, tail)
    ensures AllYield(aead, bodies) ==> Leftover(Drain(aead, buffer).1, bodies[k..])
    decreases |bodies|
  {
    if bodies == [] {
      return 0;
    }
    var body := bodies[0];
    var frame := RawFrame(body);
    if |buffer| < |frame| {
      assert buffer == (buffer + tail)[..|buffer|] == frame[..|buffer|];
      NoFrameInPart(body, buffer);
      assert bodies[0..] == bodies && bodies[..0] == [];
      return 0;
    }
    var more := buffer[|frame|..];
    assert buffer == frame + more by {
      assert buffer[..|frame|] == (buffer + tail)[..|frame|] == frame;
    }
    assert more + tail == (buffer + tail)[|frame|..] == Frames(bodies[1..]);
    ParseOfFrame(aead, body, more);
    if OpenBody(aead, body).None? {
      assert bodies[..1] == [body];
      return 1;
    }
    var k' := DrainConsumes(aead, bodies[1..], more, tail);
    k := k' + 1;
    assert bodies[1..][k'..] == bodies[k..];
    assert bodies[..k][1..] == bodies[1..][..k'];
  }

  lemma {:induction false} DeliveredAppend(aead: Aead, a: seq<Bytes>, b: seq<Bytes>)
    ensures Delivered(aead, a + b) == Delivered(aead, a) + Delivered(aead, b)
  {
    if a == [] {
      assert a + b == b;
    } else {
      assert (a + b)[1..] == a[1..] + b;
      DeliveredAppend(aead, a[1..], b);
    }
  }

  lemma {:induction false} FeedConsumes(aead: Aead, bodies: seq<Bytes>, buffer: Bytes, chunks: seq<Bytes>, tail: Bytes)
    returns (k: nat)
    requires AllFit(bodies) && buffer + (Flatten(chunks) + tail) == Frames(bodies)
    ensures Consumed(aead, bodies, k, Feed(aead, buffer, chunks).0, Feed(aead, buffer, chunks).1, tail)
    ensures AllYield(aead, bodies) && Leftover(buffer, bodies) ==> Leftover(Feed(aead, buffer, chunks).1, bodies[k..])
    decreases |chunks|
  {
    if chunks == [] {
      assert bodies[0..] == bodies && bodies[..0] == [] && Flatten(chunks) + tail == tail;
      return 0;
    }
    var data := buffer + chunks[0];
    var rest := Flatten(chunks[1..]) + tail;
    assert data + rest == Frames(bodies) by {
      assert data + rest == buffer + (Flatten(chunks) + tail);
    }
    var first := DrainConsumes(aead, bodies, data, rest);
    var drained := Drain(aead, data);
    var more := FeedConsumes(aead, bodies[first..], drained.1, chunks[1..], tail);
    var fed := Feed(aead, drained.1, chunks[1..]);
    k := first + more;
    ConsumedTwice(aead, bodies, first, more, drained.0, fed.0, fed.1, tail);
    assert Feed(aead, buffer, chunks) == (drained.0 + fed.0, fed.1);
  }

  lemma ConsumedTwice(aead: Aead, bodies: seq<Bytes>, first: nat, more: nat, packets: seq<Bytes>, packets': seq<Bytes>,
                      buffer: Bytes, tail: Bytes)
    requires first <= |bodies| && packets == Delivered(aead, bodies[..first])
    requires Consumed(aead, bodies[first..], more, packets', buffer, tail)
    ensures Consumed(aead, bodies, first + more, packets + packets', buffer, tail)
    ensures bodies[first..][more..] == bodies[first + more..]
  {
    assert bodies[first..][more..] == bodies[first + more..];
    DeliveredAppend(aead, bodies[..first], bodies[first..][..more]);
    assert bodies[..first + more] == bodies[..first] + bodies[first..][..more];
  }

  // ---------- Main results ----------

  /** Frames of arbitrary bodies, sealed by the peer, corrupt or too short, cut into chunks in any way: the loop hands
      on one packet for each frame, in order and an empty one for each body that cannot be opened, if and only if no
      body opens to an empty plaintext; and then nothing is left over. */
  lemma AnyChunkingYields(aead: Aead, bodies: seq<Bytes>, chunks: seq<Bytes>)
    requires AllFit(bodies) && Flatten(chunks) == Frames(bodies)
    ensures |Feed(aead, [], chunks).0| == |bodies| <==> AllYield(aead, bodies)
    ensures AllYield(aead, bodies) ==> Feed(aead, [], chunks) == (Delivered(aead, bodies), [])
    ensures AllYield(aead, bodies) ==>
              forall i :: 0 <= i < |bodies| ==> Feed(aead, [], chunks).0[i] == OpenBody(aead, bodies[i]).value
  {
    assert [] + (Flatten(chunks) + []) == Flatten(chunks);
    var k := FeedConsumes(aead, bodies, [], chunks, []);
    DeliveredPackets(aead, bodies);
    DeliveredPackets(aead, bodies[..k]);
    if k == |bodies| {
      assert bodies[..k] == bodies;
    }
    if AllYield(aead, bodies) {
      var rest := Feed(aead, [], chunks).1;
      assert rest + [] == rest == Frames(bodies[k..]);
      assert k == |bodies|;
    }
  }

  /** The nonce has its length and the frame body fits the length field. */
  ghost predicate Sendable(aead: Aead, m: Message)
  {
    |m.nonce| == NONCE_SIZE && |Body(aead, m)| < LENGTH_LIMIT
  }

  ghost predicate AllSendable(aead: Aead, ms: seq<Message>)
  {
    aead.Lawful() && forall i :: 0 <= i < |ms| ==> Sendable(aead, ms[i])
  }

  predicate NoneEmpty(ms: seq<Message>)
  {
    forall i :: 0 <= i < |ms| ==> ms[i].payload != []
  }

  lemma BodiesOfMessages(aead: Aead, ms: seq<Message>)
    requires AllSendable(aead, ms)
    ensures AllFit(Bodies(aead, ms)) && (AllYield(aead, Bodies(aead, ms)) <==> NoneEmpty(ms))
    ensures NoneEmpty(ms) ==> Delivered(aead, Bodies(aead, ms)) == Payloads(ms)
  {
    DeliveredPackets(aead, Bodies(aead, ms));
    forall i | 0 <= i < |ms|
      ensures |Body(aead, ms[i])| < LENGTH_LIMIT
      ensures OpenBody(aead, Body(aead, ms[i])) == if ms[i].payload == [] then None else Some(ms[i].payload)
    {
      assert Sendable(aead, ms[i]);
      OpenBodyOfMessage(aead, ms[i]);
    }
  }

  /** However a stream of sent frames is cut into chunks, the loop delivers exactly the payloads, in order,
      if and only if none of them is empty; and then nothing is left over. */
  lemma AnyChunkingDelivers(aead: Aead, ms: seq<Message>, chunks: seq<Bytes>)
    requires AllSendable(aead, ms) && Flatten(chunks) == Frames(Bodies(aead, ms))
    ensures Feed(aead, [], chunks).0 == Payloads(ms) <==> NoneEmpty(ms)
    ensures NoneEmpty(ms) ==> Feed(aead, [], chunks).1 == []
  {
    BodiesOfMessages(aead, ms);
    DeliveredPackets(aead, Bodies(aead, ms));
    AnyChunkingYields(aead, Bodies(aead, ms), chunks);
  }

  /** After every chunk the buffer is a proper prefix of one frame, and the frames before it were handed on. */
  lemma LeftoverIsPartOfOneFrame(aead: Aead, bodies: seq<Bytes>, chunks: seq<Bytes>, tail: Bytes) returns (k: nat)
    requires AllFit(bodies) && AllYield(aead, bodies) && Flatten(chunks) + tail == Frames(bodies)
    ensures k <= |bodies| && Feed(aead, [], chunks).0 == Delivered(aead, bodies[..k])
    ensures if k == |bodies| then Feed(aead, [], chunks).1 == [] else Feed(aead, [], chunks).1 < RawFrame(bodies[k])
  {
    assert [] + (Flatten(chunks) + tail) == Flatten(chunks) + tail;
    k := FeedConsumes(aead, bodies, [], chunks, tail);
    var rest := Feed(aead, [], chunks).1;
    if k < |bodies| {
      var frame := RawFrame(bodies[k]);
      assert rest == (rest + tail)[..|rest|] == frame[..|rest|];
    }
  }

  /** Reads that return these chunks without an error. */
  function GoodReads(chunks: seq<Bytes>): seq<Read>
  {
    seq(|chunks|, i requires 0 <= i < |chunks| => Read(chunks[i], false))
  }

  /** The loop takes the chunks before the first failed or empty read, and nothing of what comes later. */
  lemma {:induction false} ReceivedUntilFailure(chunks: seq<Bytes>, failure: Read, more: seq<Read>)
    requires (failure.failed || failure.data == []) && forall i :: 0 <= i < |chunks| ==> chunks[i] != []
    ensures Received(GoodReads(chunks) + [failure] + more) == chunks
  {
    var results := GoodReads(chunks) + [failure] + more;
    if chunks != [] {
      ReceivedUntilFailure(chunks[1..], failure, more);
      assert results[1..] == GoodReads(chunks[1..]) + [failure] + more;
    }
  }

  lemma {:induction false} FeedAppend(aead: Aead, buffer: Bytes, chunks: seq<Bytes>, last: Bytes)
    ensures var fed := Feed(aead, buffer, chunks);
      Feed(aead, buffer, chunks + [last]).0 == fed.0 + Drain(aead, fed.1 + last).0
    decreases |chunks|
  {
    if chunks == [] {
      assert (chunks + [last])[1..] == [];
    } else {
      assert (chunks + [last])[1..] == chunks[1..] + [last];
      FeedAppend(aead, Drain(aead, buffer + chunks[0]).1, chunks[1..], last);
    }
  }

  /** A part of a stream yields a packet exactly when it holds the whole first frame. */
  lemma FirstFrameYields(aead: Aead, bodies: seq<Bytes>, buffer: Bytes, tail: Bytes)
    requires AllFit(bodies) && AllYield(aead, bodies) && buffer + tail == Frames(bodies)
    ensures Drain(aead, buffer).0 != [] <==> bodies != [] && |buffer| >= |RawFrame(bodies[0])|
  {
    if bodies != [] {
      var frame := RawFrame(bodies[0]);
      if |buffer| < |frame| {
        assert buffer == (buffer + tail)[..|buffer|] == frame[..|buffer|];
        NoFrameInPart(bodies[0], buffer);
      } else {
        assert buffer == frame + buffer[|frame|..] by {
          assert buffer[..|frame|] == (buffer + tail)[..|frame|] == frame;
        }
        ParseOfFrame(aead, bodies[0], buffer[|frame|..]);
      }
    }
  }

  /** The read that ends the loop returns some last bytes together with an error. Dropping them loses packets exactly
      when they complete the next frame, number k. */
  lemma FailedReadLosesFrames(aead: Aead, bodies: seq<Bytes>, chunks: seq<Bytes>, last: Bytes, tail: Bytes)
    returns (k: nat)
    requires AllFit(bodies) && AllYield(aead, bodies) && Flatten(chunks) + (last + tail) == Frames(bodies)
    requires forall i :: 0 <= i < |chunks| ==> chunks[i] != []
    ensures var packets := Feed(aead, [], Received(GoodReads(chunks) + [Read(last, true)])).0;
      && k <= |bodies| && packets == Delivered(aead, bodies[..k])
      && (packets != Feed(aead, [], chunks + [last]).0 <==>
          k < |bodies| && |Feed(aead, [], chunks).1| + |last| >= |RawFrame(bodies[k])|)
  {
    ReceivedUntilFailure(chunks, Read(last, true), []);
    assert GoodReads(chunks) + [Read(last, true)] + [] == GoodReads(chunks) + [Read(last, true)];
    assert [] + (Flatten(chunks) + (last + tail)) == Flatten(chunks) + (last + tail);
    k := FeedConsumes(aead, bodies, [], chunks, last + tail);
    var rest := Feed(aead, [], chunks).1;
    assert (rest + last) + tail == rest + (last + tail);
    FirstFrameYields(aead, bodies[k..], rest + last, tail);
    FeedAppend(aead, [], chunks, last);
  }

  /** A peer that sends its frames and closes the stream: everything is handed on if and only if the end of the stream
      is reported by a read without bytes. */
  lemma ClosedStreamDelivers(aead: Aead, bodies: seq<Bytes>, chunks: seq<Bytes>, last: Bytes)
    requires AllFit(bodies) && AllYield(aead, bodies) && Flatten(chunks) + last == Frames(bodies)
    requires forall i :: 0 <= i < |chunks| ==> chunks[i] != []
    ensures Feed(aead, [], Received(GoodReads(chunks) + [Read(last, true)])).0 == Delivered(aead, bodies) <==>
            last == []
  {
    ReceivedUntilFailure(chunks, Read(last, true), []);
    assert GoodReads(chunks) + [Read(last, true)] + [] == GoodReads(chunks) + [Read(last, true)];
    assert [] + (Flatten(chunks) + last) == Flatten(chunks) + last;
    var k := FeedConsumes(aead, bodies, [], chunks, last);
    var rest := Feed(aead, [], chunks).1;
    DeliveredPackets(aead, bodies);
    DeliveredPackets(aead, bodies[..k]);
    if k == |bodies| {
      assert bodies[..k] == bodies;
      assert rest + last == [];
    } else {
      assert |rest| < |RawFrame(bodies[k])| <= |rest + last|;
    }
  }
}
