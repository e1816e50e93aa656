// How the network delivers a client's stream, how far ahead of the parser the buffered
// reader gets, and which bytes the relay that follows the handshake therefore misses.
module Socks5Delivery {
  import opened Options
  import opened Socks5Spec

  // The number of bytes on offer at each read of the connection, in turn. A read that can
  // have bytes gets at least one.
  type Chunks = nat -> nat

  // How much has left the connection, and in how many reads.
  datatype Place = Place(pos: nat, turn: nat)

  // The size of bufio.Reader's buffer.
  const BUFFER_SIZE := 4096

  // What the sniffer looks at.
  const PEEKED := 3

  function Min(a: nat, b: nat): nat { if a <= b then a else b }

  function ReadAt(size: nat, chunks: Chunks, p: Place, room: nat): (q: Place)
    requires p.pos < size && 0 < room
    ensures p.pos < q.pos <= size && q.pos <= p.pos + room && q.turn == p.turn + 1
  {
    var most := Min(room, size - p.pos);
    Place(p.pos + (if chunks(p.turn) == 0 then 1 else Min(chunks(p.turn), most)), p.turn + 1)
  }

  // Reads for exactly the bytes up to `target`.
  function ReadUpTo(size: nat, chunks: Chunks, p: Place, target: nat): (q: Place)
    requires p.pos <= size
    ensures q.pos == if target <= p.pos then p.pos else Min(target, size)
    decreases size - p.pos
  {
    if target <= p.pos || p.pos == size then p
    else ReadUpTo(size, chunks, ReadAt(size, chunks, p, target - p.pos), target)
  }

  lemma ReadUpToStep(size: nat, chunks: Chunks, p: Place, target: nat)
    requires p.pos <= size
    ensures ReadUpTo(size, chunks, p, target) ==
            if target <= p.pos || p.pos == size then p
            else ReadUpTo(size, chunks, ReadAt(size, chunks, p, target - p.pos), target)
  {
  }

  // Buffer-sized reads until `target` is covered.
  function FillUpTo(size: nat, chunks: Chunks, p: Place, target: nat): (q: Place)
    requires p.pos <= size
    ensures p.pos <= q.pos <= size && Min(target, size) <= q.pos
    decreases size - p.pos
  {
    if target <= p.pos || p.pos == size then p
    else FillUpTo(size, chunks, ReadAt(size, chunks, p, BUFFER_SIZE), target)
  }

  // A target that has been covered already needs no more reads.
  lemma {:induction false} FillStable(size: nat, chunks: Chunks, p: Place, target: nat, further: nat)
    requires p.pos <= size && target <= further <= FillUpTo(size, chunks, p, target).pos
    ensures FillUpTo(size, chunks, p, further) == FillUpTo(size, chunks, p, target)
    decreases size - p.pos
  {
    if p.pos < target && p.pos < size {
      FillStable(size, chunks, ReadAt(size, chunks, p, BUFFER_SIZE), target, further);
    }
  }

  // The next byte after the covered ones costs one more read.
  lemma {:induction false} FillNext(size: nat, chunks: Chunks, p: Place, target: nat)
    requires p.pos <= size && FillUpTo(size, chunks, p, target).pos == target < size
    ensures FillUpTo(size, chunks, p, target + 1) ==
            ReadAt(size, chunks, FillUpTo(size, chunks, p, target), BUFFER_SIZE)
    decreases size - p.pos
  {
    if p.pos < target {
      FillNext(size, chunks, ReadAt(size, chunks, p, BUFFER_SIZE), target);
    } else {
      assert p.pos == target;
      var q := ReadAt(size, chunks, p, BUFFER_SIZE);
      assert FillUpTo(size, chunks, q, target + 1) == q;
    }
  }

  // Where the relay starts to read, after a peek and a handshake of `consumed` bytes.
  function RelayStart(size: nat, chunks: Chunks, consumed: nat): nat {
    FillUpTo(size, chunks, ReadUpTo(size, chunks, Place(0, 0), PEEKED), consumed).pos
  }

  // The bytes that have left the connection when the handshake is over and that the
  // handshake has not consumed: the buffered reader holds them.
  function ReadAhead(input: seq<byte>, chunks: Chunks, d: Dial): int
    requires ValidDial(d)
  {
    RelayStart(|input|, chunks, Replayed(input, d).consumed) - Replayed(input, d).consumed
  }

  // A relay follows a dial that connected, and nothing else.
  predicate Relays(end: End) { end.Dialled? && end.up }

  // The bytes that the relay misses.
  function Lost(input: seq<byte>, chunks: Chunks, d: Dial): int
    requires ValidDial(d)
  {
    if Relays(Replayed(input, d).end) then ReadAhead(input, chunks, d) else 0
  }

  // ---------- when the buffered reader gets ahead ----------

  lemma ConsumedBounds(input: seq<byte>, d: Dial)
    requires PEEKED <= |input| && input[0] == 5 && ValidDial(d)
    ensures var n := Replayed(input, d).consumed;
            PEEKED <= n <= |input| && (n < |input| ==> PEEKED < n <= 268)
  {
    hide Padded, DialReply, U16;
    assert Num(input[0]) == 5;
  }

  // A delivery that always offers everything left.
  ghost predicate Eager(chunks: Chunks, size: nat) {
    forall k :: chunks(k) >= size
  }

  lemma EagerRelayStart(size: nat, chunks: Chunks, consumed: nat)
    requires Eager(chunks, size) && PEEKED < consumed < size && consumed <= PEEKED + BUFFER_SIZE
    ensures RelayStart(size, chunks, consumed) == Min(size, PEEKED + BUFFER_SIZE)
  {
    var p := Place(0, 0);
    var q := ReadAt(size, chunks, p, PEEKED);
    assert q == Place(PEEKED, 1);
    assert ReadUpTo(size, chunks, q, PEEKED) == q;
    var f := ReadAt(size, chunks, q, BUFFER_SIZE);
    assert FillUpTo(size, chunks, f, consumed) == f;
  }

  lemma {:induction false} ByteByByteFill(size: nat, chunks: Chunks, p: Place, target: nat)
    requires p.pos <= target <= size && forall k :: chunks(k) == 1
    ensures FillUpTo(size, chunks, p, target).pos == target
    decreases size - p.pos
  {
    if p.pos < target {
      ByteByByteFill(size, chunks, ReadAt(size, chunks, p, BUFFER_SIZE), target);
    }
  }

  // Delivered byte by byte, no stream gets ahead of its handshake.
  lemma ByteByByteLosesNothing(input: seq<byte>, chunks: Chunks, d: Dial)
    requires PEEKED <= |input| && input[0] == 5 && ValidDial(d) && forall k :: chunks(k) == 1
    ensures ReadAhead(input, chunks, d) == 0 && Lost(input, chunks, d) == 0
  {
    ConsumedBounds(input, d);
    ByteByByteFill(|input|, chunks, ReadUpTo(|input|, chunks, Place(0, 0), PEEKED), Replayed(input, d).consumed);
  }

  // Delivered eagerly, everything behind the handshake that fits in the first fill of the
  // buffer is read ahead.
  lemma EagerDeliveryGetsAhead(input: seq<byte>, chunks: Chunks, d: Dial)
    requires PEEKED <= |input| && input[0] == 5 && ValidDial(d) && Eager(chunks, |input|)
    ensures var n := Replayed(input, d).consumed;
            if n < |input| then ReadAhead(input, chunks, d) == Min(|input|, 4099) - n > 0
            else ReadAhead(input, chunks, d) == 0
  {
    ConsumedBounds(input, d);
    var n := Replayed(input, d).consumed;
    if n < |input| {
      EagerRelayStart(|input|, chunks, n);
    } else {
      NothingLeftToRead(input, chunks, d);
    }
  }

  lemma NothingLeftToRead(input: seq<byte>, chunks: Chunks, d: Dial)
    requires ValidDial(d) && Replayed(input, d).consumed == |input|
    ensures ReadAhead(input, chunks, d) == 0
  {
    assert Min(|input|, |input|) <= RelayStart(|input|, chunks, |input|) <= |input|;
  }

  // ---------- when a relay misses bytes ----------

  // There is something behind the request, of a CONNECT with its header complete: what
  // may be lost, if the dial connects.
  predicate PayloadFollows(input: seq<byte>) {
    10 <= |input| && input[7] == 1 && LooseHostEnd(input, 6) + 2 < |input|
  }

  lemma RelayedPart(input: seq<byte>, d: Dial)
    requires PEEKED <= |input| && input[0] == 5 && ValidDial(d)
    ensures var r := Replayed(input, d);
            Relays(r.end) && r.consumed < |input| <==> d.Connected? && PayloadFollows(input)
  {
    hide Padded, DialReply, U16, LooseHost;
    assert Num(input[0]) == 5;
  }

  // A stream is safe under every delivery exactly when its dial does not connect or
  // nothing follows the request in it.
  lemma NeverLosesIff(input: seq<byte>, d: Dial)
    requires PEEKED <= |input| && input[0] == 5 && ValidDial(d)
    ensures (forall chunks: Chunks :: Lost(input, chunks, d) == 0) <==> !(d.Connected? && PayloadFollows(input))
  {
    RelayedPart(input, d);
    ConsumedBounds(input, d);
    hide Replayed, ReadAhead, PayloadFollows, Eager;
    if d.Connected? && PayloadFollows(input) {
      var eager: Chunks := _ => |input|;
      EagerOffer(eager, |input|);
      EagerDeliveryGetsAhead(input, eager, d);
      assert Lost(input, eager, d) != 0;
    } else {
      forall chunks: Chunks ensures Lost(input, chunks, d) == 0 {
        if Relays(Replayed(input, d).end) {
          NothingLeftToRead(input, chunks, d);
        }
      }
    }
  }

  lemma EagerOffer(chunks: Chunks, size: nat)
    requires forall k :: chunks(k) == size
    ensures Eager(chunks, size)
  {
  }

  // A client that offers four methods and sends its payload along with its request: the
  // dial connects as it should, and the payload does not reach the target.
  lemma EarlyPayloadIsLost(m: Message, payload: seq<byte>, chunks: Chunks, d: Dial)
    requires m.Valid() && m.version == 5 && |m.methods| == 4 && payload != [] && ValidDial(d) && d.Connected?
    requires Eager(chunks, |m.Encode()| + |payload|)
    ensures Replayed(m.Encode() + payload, d) == Finish(m.host, m.port, |m.Encode()|, d)
    ensures Lost(m.Encode() + payload, chunks, d) ==
            Min(|payload|, 4099 - |m.Encode()|) > 0
  {
    hide Message.Encode, Message.Valid, Replayed, Handshake, ReadAhead, Eager;
    var s := m.Encode() + payload;
    EncodeFits(m, payload);
    HandshakeRoundTrip(m, payload, d);
    HandlersAgreeIffFourMethods(m, payload, d);
    EagerDeliveryGetsAhead(s, chunks, d);
  }

  // One such client: four methods, 10.0.0.1 port 80, and one byte of payload.
  lemma OneByteLost(d: Dial)
    requires ValidDial(d) && d.Connected?
    ensures var input: seq<byte> := [5, 4, 0, 1, 2, 3, 5, 1, 0, 1, 10, 0, 0, 1, 0, 80, 71];
            var chunks: Chunks := _ => 17;
            Replayed(input, d) == Finish(IPv4([10, 0, 0, 1]), 80, 16, d) && Lost(input, chunks, d) == 1
  {
    var m := Message(5, [0, 1, 2, 3], 5, 0, IPv4([10, 0, 0, 1]), 80);
    var input: seq<byte> := [5, 4, 0, 1, 2, 3, 5, 1, 0, 1, 10, 0, 0, 1, 0, 80, 71];
    assert m.Encode() + [71] == input;
    EarlyPayloadIsLost(m, [71], _ => 17, d);
  }
}
