// The SOCKS5 handshake of RFC 1928 as the proxy's two handlers parse it, as functions
// of the whole client stream, and the client's own encoder.
module Socks5Spec {
  import opened Options

  type byte = x: int | 0 <= x < 256

  // NoHost is the empty host string that one handler is left with.
  datatype Host = IPv4(addr: seq<byte>) | Domain(name: seq<byte>) | IPv6(addr: seq<byte>) | NoHost

  // How dialling the target went; a local address outside IPv4 has no four-byte form.
  datatype Dial = Refused | Connected(ip4: Option<seq<byte>>, port: nat)

  datatype End =
    | Truncated                                    // the stream ended inside the handshake
    | BadCommand
    | BadAddressType
    | Dialled(host: Host, port: nat, up: bool)

  // What a handler wrote, how much of the stream it parsed and how it ended.
  datatype Outcome = Outcome(output: seq<byte>, consumed: nat, end: End)

  function Num(b: byte): nat { b }

  // A big-endian 16-bit number.
  function U16(hi: byte, lo: byte): (r: nat)
    ensures r < 65536 && r / 256 == hi && r % 256 == lo
  {
    Num(hi) * 256 + Num(lo)
  }

  const METHOD_REPLY: seq<byte> := [5, 0]
  const COMMAND_REPLY: seq<byte> := [5, 7, 0, 1, 0, 0, 0, 0, 0, 0]
  const FAILURE_REPLY: seq<byte> := [5, 4, 0, 1, 0, 0, 0, 0, 0, 0]

  predicate ValidDial(d: Dial) {
    d.Connected? ==> d.port < 65536 && (d.ip4.Some? ==> |d.ip4.value| == 4)
  }

  function SuccessReply(d: Dial): (r: seq<byte>)
    requires ValidDial(d) && d.Connected?
    ensures |r| == 10 && r[..4] == [5, 0, 0, 1]
    ensures r[4..8] == (if d.ip4.Some? then d.ip4.value else [0, 0, 0, 0])
    ensures U16(r[8], r[9]) == d.port
  {
    [5, 0, 0, 1] + (match d.ip4 case Some(ip) => ip case None => [0, 0, 0, 0]) + Port(d.port)
  }

  function Port(p: nat): (r: seq<byte>)
    requires p < 65536
    ensures |r| == 2 && U16(r[0], r[1]) == p
  {
    [p / 256, p % 256]
  }

  function DialReply(d: Dial): (r: seq<byte>)
    requires ValidDial(d)
    ensures |r| == 10 && r[0] == 5
  {
    if d.Connected? then SuccessReply(d) else FAILURE_REPLY
  }

  function Finish(host: Host, port: nat, consumed: nat, d: Dial): Outcome
    requires ValidDial(d)
  {
    Outcome(METHOD_REPLY + DialReply(d), consumed, Dialled(host, port, d.Connected?))
  }

  // What a client may read by position: nothing, the method reply, or behind it one
  // ten-byte reply: 7 for a command other than CONNECT, 4 for a refused dial, and 0 with
  // the local address and port for a dial that connected.
  ghost predicate RepliesFit(output: seq<byte>, end: End, d: Dial) {
    match end
    case Truncated => output == [] || output == [5, 0]
    case BadAddressType => output == [5, 0]
    case BadCommand => output == [5, 0, 5, 7, 0, 1, 0, 0, 0, 0, 0, 0]
    case Dialled(_, _, up) =>
      up == d.Connected? && |output| == 12 &&
      if d.Connected?
      then output[..6] == [5, 0, 5, 0, 0, 1] && U16(output[10], output[11]) == d.port &&
           output[6..10] == if d.ip4.Some? then d.ip4.value else [0, 0, 0, 0]
      else output == [5, 0, 5, 4, 0, 1, 0, 0, 0, 0, 0, 0]
  }

  lemma FinishFits(host: Host, port: nat, consumed: nat, d: Dial)
    requires ValidDial(d)
    ensures var r := Finish(host, port, consumed, d); RepliesFit(r.output, r.end, d)
  {
    var r := Finish(host, port, consumed, d);
    if d.Connected? {
      var reply := SuccessReply(d);
      assert r.output == [5, 0] + reply;
      assert r.output[6..10] == reply[4..8] && r.output[10] == reply[8] && r.output[11] == reply[9];
      assert r.output[..6] == [5, 0] + reply[..4];
    }
  }

  // ---------- the standalone server's handler ----------

  // For every byte stream: at most 519 bytes are parsed, and the output is nothing, the
  // method reply, or the method reply and one ten-byte reply, which says success only
  // when a complete request was dialled.
  function Handshake(input: seq<byte>, d: Dial): (r: Outcome)
    requires ValidDial(d)
    ensures r.consumed <= 519 && r.consumed <= |input|
    ensures r.output == [] || r.output == METHOD_REPLY || (|r.output| == 12 && r.output[..2] == METHOD_REPLY)
    ensures |r.output| == 12 ==> r.output[2] == 5 && (r.output[3] == 0 <==> r.end.Dialled? && r.end.up)
    ensures r.end.Truncated? ==> r.consumed == |input| && |r.output| <= 2
  {
    if |input| < 2 || |input| < 2 + Num(input[1]) then Outcome([], |input|, Truncated)
    else Request(input, 2 + Num(input[1]), d)
  }

  // The request that starts at position `at`.
  function Request(input: seq<byte>, at: nat, d: Dial): Outcome
    requires at <= |input| && ValidDial(d)
  {
    if |input| < at + 4 then Outcome(METHOD_REPLY, |input|, Truncated)
    else if input[at + 1] != 1 then Outcome(METHOD_REPLY + COMMAND_REPLY, at + 4, BadCommand)
    else if input[at + 3] == 1 then Address(input, at + 4, 4, d)
    else if input[at + 3] == 3 then
      if |input| < at + 5 then Outcome(METHOD_REPLY, |input|, Truncated)
      else Name(input, at + 5, input[at + 4], d)
    else if input[at + 3] == 4 then Address(input, at + 4, 16, d)
    else Outcome(METHOD_REPLY, at + 4, BadAddressType)
  }

  function Address(input: seq<byte>, pos: nat, n: nat, d: Dial): Outcome
    requires pos <= |input| && ValidDial(d) && (n == 4 || n == 16)
  {
    if |input| < pos + n then Outcome(METHOD_REPLY, |input|, Truncated)
    else PortThenDial(input, pos + n, if n == 4 then IPv4(input[pos..pos + n]) else IPv6(input[pos..pos + n]), d)
  }

  function Name(input: seq<byte>, pos: nat, n: nat, d: Dial): Outcome
    requires pos <= |input| && ValidDial(d)
  {
    if |input| < pos + n then Outcome(METHOD_REPLY, |input|, Truncated)
    else PortThenDial(input, pos + n, Domain(input[pos..pos + n]), d)
  }

  function PortThenDial(input: seq<byte>, pos: nat, host: Host, d: Dial): Outcome
    requires pos <= |input| && ValidDial(d)
  {
    if |input| < pos + 2 then Outcome(METHOD_REPLY, |input|, Truncated)
    else Finish(host, U16(input[pos], input[pos + 1]), pos + 2, d)
  }

  // ---------- the handler behind the protocol sniffer ----------

  // The n bytes from pos on, zero where the stream has already ended: what an unchecked
  // full read leaves in a new buffer.
  function Padded(input: seq<byte>, pos: nat, n: nat): (r: seq<byte>)
    ensures |r| == n
    ensures forall i :: 0 <= i < n ==> r[i] == if pos + i < |input| then input[pos + i] else 0
  {
    seq(n, i => if 0 <= i && pos + i < |input| then input[pos + i] else 0)
  }

  function Clip(input: seq<byte>, pos: nat): nat {
    if pos <= |input| then pos else |input|
  }

  // What is left from pos on.
  function From(input: seq<byte>, pos: nat): seq<byte> {
    input[Clip(input, pos)..]
  }

  function Replayed(input: seq<byte>, d: Dial): (r: Outcome)
    requires ValidDial(d)
    ensures r.consumed <= |input|
  {
    if |input| < 1 || |input| < 1 + Num(input[0]) then Outcome([], |input|, Truncated)
    else LooseRequest(input, 1 + Num(input[0]), d)
  }

  function LooseRequest(input: seq<byte>, at: nat, d: Dial): Outcome
    requires at <= |input| && ValidDial(d)
  {
    if |input| < at + 4 then Outcome(METHOD_REPLY, |input|, Truncated)
    else if input[at + 1] != 1 then Outcome(METHOD_REPLY + COMMAND_REPLY, at + 4, BadCommand)
    else LoosePort(input, LooseHostEnd(input, at), LooseHost(input, at), d)
  }

  // The host that the unchecked reads leave behind; an unknown address type reads nothing.
  function LooseHost(input: seq<byte>, at: nat): Host
    requires at + 4 <= |input|
  {
    match input[at + 3]
    case 1 => IPv4(Padded(input, at + 4, 4))
    case 3 => Domain(Padded(input, at + 5, Padded(input, at + 4, 1)[0]))
    case 4 => IPv6(Padded(input, at + 4, 16))
    case _ => NoHost
  }

  function LooseHostEnd(input: seq<byte>, at: nat): nat
    requires at + 4 <= |input|
  {
    match input[at + 3]
    case 1 => at + 8
    case 3 => at + 5 + Num(Padded(input, at + 4, 1)[0])
    case 4 => at + 20
    case _ => at + 4
  }

  function LoosePort(input: seq<byte>, pos: nat, host: Host, d: Dial): Outcome
    requires ValidDial(d)
  {
    var p := Padded(input, pos, 2);
    Finish(host, U16(p[0], p[1]), Clip(input, pos + 2), d)
  }

  // ---------- what the client reads ----------

  predicate KnownAddressType(b: byte) { b == 1 || b == 3 || b == 4 }

  lemma PortThenDialFits(input: seq<byte>, pos: nat, host: Host, d: Dial)
    requires pos <= |input| && ValidDial(d)
    ensures var r := PortThenDial(input, pos, host, d);
            RepliesFit(r.output, r.end, d) && (r.end.Truncated? || r.end.Dialled?) && r.output != []
  {
    if pos + 2 <= |input| {
      FinishFits(host, U16(input[pos], input[pos + 1]), pos + 2, d);
    }
  }

  lemma RequestFitsReplies(input: seq<byte>, at: nat, d: Dial)
    requires at <= |input| && ValidDial(d)
    ensures var r := Request(input, at, d);
            RepliesFit(r.output, r.end, d) && r.output != [] && (|input| < at + 4 ==> r.end.Truncated?)
    ensures at + 4 <= |input| ==>
      var r := Request(input, at, d);
      (r.end.BadCommand? <==> input[at + 1] != 1) &&
      (r.end.BadAddressType? <==> input[at + 1] == 1 && !KnownAddressType(input[at + 3])) &&
      (r.end.BadCommand? || r.end.BadAddressType? ==> r.consumed == at + 4)
  {
    hide PortThenDial, RepliesFit;
    ShortRepliesFit(d);
    if at + 4 <= |input| && input[at + 1] == 1 {
      if input[at + 3] == 1 && at + 8 <= |input| {
        PortThenDialFits(input, at + 8, IPv4(input[at + 4..at + 8]), d);
      } else if input[at + 3] == 3 && at + 5 <= |input| && at + 5 + Num(input[at + 4]) <= |input| {
        var p := at + 5 + Num(input[at + 4]);
        PortThenDialFits(input, p, Domain(input[at + 5..p]), d);
      } else if input[at + 3] == 4 && at + 20 <= |input| {
        PortThenDialFits(input, at + 20, IPv6(input[at + 4..at + 20]), d);
      }
    }
  }

  lemma ShortRepliesFit(d: Dial)
    ensures RepliesFit([], Truncated, d) && RepliesFit(METHOD_REPLY, Truncated, d)
    ensures RepliesFit(METHOD_REPLY, BadAddressType, d) && RepliesFit(METHOD_REPLY + COMMAND_REPLY, BadCommand, d)
  {
  }

  // What the standalone handler writes, byte by byte, for every stream, and which streams
  // get which refusal.
  lemma HandshakeReplies(input: seq<byte>, d: Dial)
    requires ValidDial(d)
    ensures var r := Handshake(input, d);
            RepliesFit(r.output, r.end, d) && (r.output == [] <==> |input| < 2 || |input| < 2 + Num(input[1]))
    ensures 2 <= |input| && 6 + Num(input[1]) <= |input| ==>
      var r, at := Handshake(input, d), 2 + Num(input[1]);
      (r.end.BadCommand? <==> input[at + 1] != 1) &&
      (r.end.BadAddressType? <==> input[at + 1] == 1 && !KnownAddressType(input[at + 3])) &&
      (r.end.BadCommand? || r.end.BadAddressType? ==> r.consumed == at + 4)
  {
    ShortRepliesFit(d);
    hide RepliesFit, Request;
    if 2 <= |input| && 2 + Num(input[1]) <= |input| {
      RequestFitsReplies(input, 2 + Num(input[1]), d);
    }
  }

  // The same for the handler behind the sniffer; it refuses no address type.
  lemma ReplayedReplies(input: seq<byte>, d: Dial)
    requires ValidDial(d)
    ensures var r := Replayed(input, d);
            RepliesFit(r.output, r.end, d) && (r.output == [] <==> |input| < 1 || |input| < 1 + Num(input[0])) &&
            !r.end.BadAddressType?
    ensures 1 <= |input| && 5 + Num(input[0]) <= |input| ==>
      var r, at := Replayed(input, d), 1 + Num(input[0]);
      (r.end.BadCommand? <==> input[at + 1] != 1) && (r.end.BadCommand? ==> r.consumed == at + 4)
  {
    hide RepliesFit, LooseHost, LooseHostEnd, U16, Padded;
    ShortRepliesFit(d);
    if 1 <= |input| && 5 + Num(input[0]) <= |input| {
      var at := 1 + Num(input[0]);
      var p := Padded(input, LooseHostEnd(input, at), 2);
      FinishFits(LooseHost(input, at), U16(p[0], p[1]), Clip(input, LooseHostEnd(input, at) + 2), d);
    }
  }

  // ---------- the client ----------

  predicate ValidHost(h: Host) {
    match h
    case IPv4(a) => |a| == 4
    case Domain(n) => |n| < 256
    case IPv6(a) => |a| == 16
    case NoHost => false
  }

  function EncodeHost(h: Host): seq<byte>
    requires ValidHost(h)
  {
    match h
    case IPv4(a) => [1] + a
    case Domain(n) => [3, |n|] + n
    case IPv6(a) => [4] + a
  }

  // Section 3: version, method count, methods.
  function EncodeGreeting(version: byte, methods: seq<byte>): seq<byte>
    requires |methods| < 256
  {
    [version, |methods|] + methods
  }

  // Section 4: version, command 1, a reserved byte, address type, address, port.
  function EncodeRequest(version: byte, reserved: byte, h: Host, port: nat): seq<byte>
    requires ValidHost(h) && port < 65536
  {
    [version, 1, reserved] + EncodeHost(h) + Port(port)
  }

  // A complete handshake. A client sends version 5 and reserved 0; the handlers ignore both.
  datatype Message = Message(version: byte, methods: seq<byte>, requestVersion: byte, reserved: byte,
                             host: Host, port: nat)
  {
    predicate Valid() { |methods| < 256 && ValidHost(host) && port < 65536 }

    function Encode(): seq<byte>
      requires Valid()
    {
      EncodeGreeting(version, methods) + EncodeRequest(requestVersion, reserved, host, port)
    }
  }

  // The parts of a request that the handlers look at, by position.
  predicate RequestFits(input: seq<byte>, at: nat, h: Host, port: nat)
    requires ValidHost(h) && port < 65536
  {
    at + 5 + |EncodeHost(h)| <= |input| && input[at + 1] == 1 &&
    input[at + 3..at + 3 + |EncodeHost(h)|] == EncodeHost(h) &&
    input[at + 3 + |EncodeHost(h)|..at + 5 + |EncodeHost(h)|] == Port(port)
  }

  lemma EncodeFits(m: Message, rest: seq<byte>)
    requires m.Valid()
    ensures var s := m.Encode() + rest;
            |m.Encode()| == 2 + |m.methods| + 5 + |EncodeHost(m.host)| && s[0] == m.version &&
            s[1] == |m.methods| && RequestFits(s, 2 + |m.methods|, m.host, m.port)
  {
    var s, at, h := m.Encode() + rest, 2 + |m.methods|, EncodeHost(m.host);
    var request := [m.requestVersion, 1, m.reserved] + h + Port(m.port);
    assert s == EncodeGreeting(m.version, m.methods) + (request + rest);
    assert forall i :: 0 <= i < |request| ==> s[at + i] == request[i];
  }

  lemma IPv4Parsed(input: seq<byte>, at: nat, a: seq<byte>, d: Dial)
    requires ValidDial(d) && |a| == 4 && at + 10 <= |input| && input[at + 1] == 1
    requires input[at + 3..at + 8] == [1] + a
    ensures Request(input, at, d) == PortThenDial(input, at + 8, IPv4(a), d)
  {
    hide PortThenDial;
    assert input[at + 3..at + 8][0] == input[at + 3];
    assert input[at + 4..at + 8] == input[at + 3..at + 8][1..] == a;
  }

  lemma IPv6Parsed(input: seq<byte>, at: nat, a: seq<byte>, d: Dial)
    requires ValidDial(d) && |a| == 16 && at + 22 <= |input| && input[at + 1] == 1
    requires input[at + 3..at + 20] == [4] + a
    ensures Request(input, at, d) == PortThenDial(input, at + 20, IPv6(a), d)
  {
    hide PortThenDial;
    assert input[at + 3..at + 20][0] == input[at + 3];
    assert input[at + 4..at + 20] == input[at + 3..at + 20][1..] == a;
  }

  lemma DomainParsed(input: seq<byte>, at: nat, n: seq<byte>, d: Dial)
    requires ValidDial(d) && |n| < 256 && at + 7 + |n| <= |input| && input[at + 1] == 1
    requires input[at + 3..at + 5 + |n|] == [3, |n|] + n
    ensures Request(input, at, d) == PortThenDial(input, at + 5 + |n|, Domain(n), d)
  {
    hide PortThenDial;
    var e := input[at + 3..at + 5 + |n|];
    assert e[0] == input[at + 3] && e[1] == input[at + 4];
    assert input[at + 5..at + 5 + |n|] == e[2..] == n;
  }

  lemma PortFinishes(input: seq<byte>, pos: nat, h: Host, port: nat, d: Dial)
    requires ValidDial(d) && port < 65536 && pos + 2 <= |input| && input[pos..pos + 2] == Port(port)
    ensures PortThenDial(input, pos, h, d) == Finish(h, port, pos + 2, d)
  {
    hide Finish, Port;
    assert input[pos..pos + 2][0] == input[pos] && input[pos..pos + 2][1] == input[pos + 1];
  }

  lemma RequestParsed(input: seq<byte>, at: nat, h: Host, port: nat, d: Dial)
    requires ValidHost(h) && port < 65536 && RequestFits(input, at, h, port) && ValidDial(d)
    ensures Request(input, at, d) == Finish(h, port, at + 5 + |EncodeHost(h)|, d)
  {
    hide Request, PortThenDial, Finish, Port;
    PortFinishes(input, at + 3 + |EncodeHost(h)|, h, port, d);
    match h
    case IPv4(a) => IPv4Parsed(input, at, a, d);
    case IPv6(a) => IPv6Parsed(input, at, a, d);
    case Domain(n) => DomainParsed(input, at, n, d);
  }

  // Every complete CONNECT handshake is parsed back exactly, and the stream is left at
  // the first byte after it.
  lemma HandshakeRoundTrip(m: Message, payload: seq<byte>, d: Dial)
    requires m.Valid() && ValidDial(d)
    ensures Handshake(m.Encode() + payload, d) == Finish(m.host, m.port, |m.Encode()|, d)
    ensures (m.Encode() + payload)[Handshake(m.Encode() + payload, d).consumed..] == payload
  {
    EncodeFits(m, payload);
    RequestParsed(m.Encode() + payload, 2 + |m.methods|, m.host, m.port, d);
  }

  lemma PortParsed(hi: byte, lo: byte)
    ensures Port(U16(hi, lo)) == [hi, lo]
  {
  }

  lemma SliceFits(input: seq<byte>, at: nat, h: Host, p: nat)
    requires ValidHost(h) && at + 4 <= p <= |input| - 2 && input[at + 1] == 1
    requires EncodeHost(h) == input[at + 3..p]
    ensures |EncodeHost(h)| == p - at - 3 && RequestFits(input, at, h, U16(input[p], input[p + 1]))
  {
    PortParsed(input[p], input[p + 1]);
    assert input[p..p + 2] == [input[p], input[p + 1]];
  }

  lemma ByteThenRest(input: seq<byte>, i: nat, j: nat)
    requires i < j <= |input|
    ensures input[i..j] == [input[i]] + input[i + 1..j]
  {
  }

  lemma AddressFits(input: seq<byte>, at: nat, n: nat, h: Host)
    requires at + 6 + n <= |input| && input[at + 1] == 1
    requires (n == 4 && input[at + 3] == 1 && h == IPv4(input[at + 4..at + 4 + n])) ||
             (n == 16 && input[at + 3] == 4 && h == IPv6(input[at + 4..at + 4 + n]))
    ensures ValidHost(h) && |EncodeHost(h)| == n + 1
    ensures RequestFits(input, at, h, U16(input[at + 4 + n], input[at + 5 + n]))
  {
    hide RequestFits;
    ByteThenRest(input, at + 3, at + 4 + n);
    SliceFits(input, at, h, at + 4 + n);
  }

  lemma NameFits(input: seq<byte>, at: nat)
    requires at + 5 <= |input| && at + 7 + Num(input[at + 4]) <= |input| && input[at + 1] == 1 && input[at + 3] == 3
    ensures var p := at + 5 + Num(input[at + 4]); var h := Domain(input[at + 5..p]);
            ValidHost(h) && |EncodeHost(h)| == p - at - 3 && RequestFits(input, at, h, U16(input[p], input[p + 1]))
  {
    hide RequestFits;
    var p := at + 5 + Num(input[at + 4]);
    ByteThenRest(input, at + 3, p);
    ByteThenRest(input, at + 4, p);
    SliceFits(input, at, Domain(input[at + 5..p]), p);
  }

  lemma HostParsed(input: seq<byte>, at: nat, d: Dial)
    requires at <= |input| && ValidDial(d) && Request(input, at, d).end.Dialled?
    ensures var r := Request(input, at, d);
            ValidHost(r.end.host) && r.end.port < 65536 && RequestFits(input, at, r.end.host, r.end.port) &&
            r.consumed == at + 5 + |EncodeHost(r.end.host)|
  {
    hide RequestFits, EncodeHost, U16, DialReply;
    var h := Request(input, at, d).end.host;
    if input[at + 3] == 1 {
      AddressFits(input, at, 4, h);
    } else if input[at + 3] == 3 {
      NameFits(input, at);
    } else {
      AddressFits(input, at, 16, h);
    }
  }

  lemma FittingIsEncoded(input: seq<byte>, m: Message)
    requires m.Valid() && 2 + |m.methods| <= |input| && RequestFits(input, 2 + |m.methods|, m.host, m.port)
    requires input[0] == m.version && input[1] == |m.methods| && input[2..2 + |m.methods|] == m.methods
    requires input[2 + |m.methods|] == m.requestVersion && input[4 + |m.methods|] == m.reserved
    ensures input[..7 + |m.methods| + |EncodeHost(m.host)|] == m.Encode()
  {
    var at := 2 + |m.methods|;
    var b := at + 3 + |EncodeHost(m.host)|;
    assert input[..at] == EncodeGreeting(m.version, m.methods);
    assert input[at..at + 3] == [m.requestVersion, 1, m.reserved];
    assert input[..b + 2] == input[..at] + (input[at..at + 3] + input[at + 3..b] + input[b..b + 2]);
  }

  // The message that the handler parsed.
  function ParsedMessage(input: seq<byte>, d: Dial): Message
    requires ValidDial(d) && Handshake(input, d).end.Dialled?
  {
    var at := 2 + Num(input[1]);
    var r := Handshake(input, d);
    Message(input[0], input[2..at], input[at], input[at + 2], r.end.host, r.end.port)
  }

  // And nothing else is dialled: what the handler consumed is one encoded message, and
  // that message carries the host and port that it dialled.
  lemma OnlyMessagesAreDialled(input: seq<byte>, d: Dial)
    requires ValidDial(d) && Handshake(input, d).end.Dialled?
    ensures var r, m := Handshake(input, d), ParsedMessage(input, d);
            m.Valid() && r.end.host == m.host && r.end.port == m.port && input[..r.consumed] == m.Encode()
  {
    HostParsed(input, 2 + Num(input[1]), d);
    FittingIsEncoded(input, ParsedMessage(input, d));
  }

  lemma RequestLooksNoFurther(input: seq<byte>, more: seq<byte>, at: nat, d: Dial)
    requires ValidDial(d) && at <= |input| && !Request(input, at, d).end.Truncated?
    ensures Request(input + more, at, d) == Request(input, at, d)
  {
    var s := input + more;
    if input[at + 3] == 3 && input[at + 1] == 1 {
      var n := Num(input[at + 4]);
      assert s[at + 5..at + 5 + n] == input[at + 5..at + 5 + n];
    } else if input[at + 3] == 1 && input[at + 1] == 1 {
      assert s[at + 4..at + 8] == input[at + 4..at + 8];
    } else if input[at + 3] == 4 && input[at + 1] == 1 {
      assert s[at + 4..at + 20] == input[at + 4..at + 20];
    }
  }

  // A handshake that is not cut short does not depend on what follows it.
  lemma HandshakeLooksNoFurther(input: seq<byte>, more: seq<byte>, d: Dial)
    requires ValidDial(d)
    ensures !Handshake(input, d).end.Truncated? ==> Handshake(input + more, d) == Handshake(input, d)
  {
    if !Handshake(input, d).end.Truncated? {
      RequestLooksNoFurther(input, more, 2 + Num(input[1]), d);
    }
  }

  // ---------- when the two handlers agree ----------

  // What the unchecked reads find where a whole host stands.
  lemma LooseHostParsed(input: seq<byte>, at: nat, h: Host)
    requires ValidHost(h) && at + 3 + |EncodeHost(h)| <= |input|
    requires input[at + 3..at + 3 + |EncodeHost(h)|] == EncodeHost(h)
    ensures LooseHost(input, at) == h && LooseHostEnd(input, at) == at + 3 + |EncodeHost(h)|
  {
    var p := at + 3 + |EncodeHost(h)|;
    assert input[at + 3..p][0] == input[at + 3];
    match h
    case IPv4(a) => assert Padded(input, at + 4, 4) == input[at + 3..p][1..] == a;
    case IPv6(a) => assert Padded(input, at + 4, 16) == input[at + 3..p][1..] == a;
    case Domain(n) =>
      assert input[at + 3..p][1] == input[at + 4];
      assert Padded(input, at + 4, 1)[0] == |n|;
      assert Padded(input, at + 5, |n|) == input[at + 3..p][2..] == n;
  }

  // On a request that is complete, the second handler's unchecked reads do no harm.
  lemma LooseRequestParsed(input: seq<byte>, at: nat, h: Host, port: nat, d: Dial)
    requires ValidHost(h) && port < 65536 && RequestFits(input, at, h, port) && ValidDial(d)
    ensures LooseRequest(input, at, d) == Finish(h, port, at + 5 + |EncodeHost(h)|, d)
  {
    hide LooseHost, LooseHostEnd, EncodeHost, Finish, U16, Port;
    var p := at + 3 + |EncodeHost(h)|;
    LooseHostParsed(input, at, h);
    assert Padded(input, p, 2) == input[p..p + 2] == Port(port);
  }

  lemma PaddedSplit(input: seq<byte>, pos: nat, a: nat, b: nat)
    ensures Padded(input, pos, a + b) == Padded(input, pos, a) + Padded(input, pos + a, b)
  {
  }

  // A host that the second handler reads is the encoding that the zero-padded stream shows.
  lemma LooseHostPadded(input: seq<byte>, at: nat)
    requires at + 4 <= |input| && LooseHost(input, at) != NoHost
    ensures var h := LooseHost(input, at);
            ValidHost(h) && LooseHostEnd(input, at) == at + 3 + |EncodeHost(h)| &&
            Padded(input, at + 3, |EncodeHost(h)|) == EncodeHost(h)
  {
    var n := LooseHostEnd(input, at) - at - 3;
    assert Padded(input, at + 3, 1) == [input[at + 3]];
    PaddedSplit(input, at + 3, 1, n - 1);
    if input[at + 3] == 3 {
      PaddedSplit(input, at + 4, 1, n - 2);
    }
  }

  lemma PortOfPair(q: seq<byte>)
    requires |q| == 2
    ensures Port(U16(q[0], q[1])) == q
  {
  }

  lemma LooseDials(input: seq<byte>, at: nat, h: Host, port: nat, d: Dial)
    requires at <= |input| && ValidDial(d) && h != NoHost
    requires LooseRequest(input, at, d).end == Dialled(h, port, d.Connected?)
    ensures at + 4 <= |input| && h == LooseHost(input, at)
    ensures LooseRequest(input, at, d).consumed == Clip(input, LooseHostEnd(input, at) + 2)
    ensures var p := Padded(input, LooseHostEnd(input, at), 2); port == U16(p[0], p[1])
  {
    hide LooseHost, LooseHostEnd, Padded, U16, DialReply;
  }

  // What the second handler's result says about the zero-padded stream.
  lemma LooseHostRead(input: seq<byte>, at: nat, h: Host, port: nat, d: Dial)
    requires at <= |input| && ValidDial(d) && ValidHost(h) && port < 65536
    requires LooseRequest(input, at, d).end == Dialled(h, port, d.Connected?)
    ensures at + 4 <= |input| && LooseRequest(input, at, d).consumed == Clip(input, at + 5 + |EncodeHost(h)|)
    ensures Padded(input, at + 3, |EncodeHost(h)| + 2) == EncodeHost(h) + Port(port)
  {
    assert h != NoHost;
    hide *;
    LooseDials(input, at, h, port, d);
    LooseHostPadded(input, at);
    var e := |EncodeHost(h)|;
    assert LooseHostEnd(input, at) == at + 3 + e;
    PortRead(input, at + 3 + e, port);
    PaddedSplit(input, at + 3, e, 2);
  }

  lemma PortRead(input: seq<byte>, pos: nat, port: nat)
    requires port < 65536
    requires var p := Padded(input, pos, 2); port == U16(p[0], p[1])
    ensures Padded(input, pos, 2) == Port(port)
  {
    hide Padded, Port, U16;
    PortOfPair(Padded(input, pos, 2));
  }

  // Two copies of one request, the second read `shift` bytes late off the end of the
  // stream: every byte from the first address byte on is zero.
  lemma {:induction false} ShiftedTailIsZero(input: seq<byte>, from: nat, shift: nat, i: nat)
    requires 0 < shift && from <= i < |input|
    requires forall j :: from <= j < |input| ==> input[j] == if j + shift < |input| then input[j + shift] else 0
    ensures input[i] == 0
    decreases |input| - i
  {
    assert input[i] == if i + shift < |input| then input[i + shift] else 0;
    if i + shift < |input| {
      ShiftedTailIsZero(input, from, shift, i + shift);
    }
  }

  // A tail of the stream that equals itself read late is zero from the start.
  lemma ShiftedTailStartsZero(input: seq<byte>, from: nat, shift: nat)
    requires 0 < shift && from + shift < |input| && input[from..] == Padded(input, from + shift, |input| - from)
    ensures input[from] == 0
  {
    forall j | from <= j < |input| ensures input[j] == if j + shift < |input| then input[j + shift] else 0 {
      assert input[j] == input[from..][j - from];
    }
    ShiftedTailIsZero(input, from, shift, from);
  }

  lemma MessageTail(m: Message)
    requires m.Valid()
    ensures 5 + |m.methods| <= |m.Encode()|
    ensures m.Encode()[5 + |m.methods|..] == EncodeHost(m.host) + Port(m.port)
    ensures m.Encode()[5 + |m.methods|] != 0
    ensures |m.Encode()| == 5 + |m.methods| + |EncodeHost(m.host)| + 2
    ensures ValidHost(m.host) && m.port < 65536
  {
    var b := 5 + |m.methods| + |EncodeHost(m.host)|;
    EncodeFits(m, []);
    assert m.Encode() + [] == m.Encode();
    assert m.Encode()[5 + |m.methods|..] == m.Encode()[5 + |m.methods|..b] + m.Encode()[b..b + 2];
    assert m.Encode()[5 + |m.methods|] == EncodeHost(m.host)[0];
  }

  lemma LateReadDiffers(m: Message, d: Dial)
    requires m.Valid() && ValidDial(d) && |m.methods| < 4 && 6 <= |m.Encode()|
    ensures LooseRequest(m.Encode(), 6, d).end != Dialled(m.host, m.port, d.Connected?)
  {
    hide *;
    MessageTail(m);
    if LooseRequest(m.Encode(), 6, d).end == Dialled(m.host, m.port, d.Connected?) {
      LooseHostRead(m.Encode(), 6, m.host, m.port, d);
      ShiftedTailStartsZero(m.Encode(), 5 + |m.methods|, 4 - |m.methods|);
      assert false;
    }
  }

  // The second handler takes the version byte 5 for the method count.
  lemma VersionSkipsFive(input: seq<byte>, d: Dial)
    requires 6 <= |input| && input[0] == 5 && ValidDial(d)
    ensures Replayed(input, d) == LooseRequest(input, 6, d)
  {
    hide LooseRequest;
  }

  // Unless the client offers four methods, reading the request from byte 6 cannot give
  // the encoded host and port and also end where the message ends.
  lemma LooseReadDiffers(m: Message, payload: seq<byte>, d: Dial)
    requires m.Valid() && ValidDial(d) && |m.methods| != 4 && 6 <= |m.Encode() + payload|
    ensures LooseRequest(m.Encode() + payload, 6, d) != Finish(m.host, m.port, |m.Encode()|, d)
  {
    hide LooseRequest, Padded, EncodeHost, Port, U16, DialReply, RequestFits, m.Encode;
    var s := m.Encode() + payload;
    EncodeFits(m, payload);
    if LooseRequest(s, 6, d) == Finish(m.host, m.port, |m.Encode()|, d) {
      LooseHostRead(s, 6, m.host, m.port, d);
      assert |m.methods| < 4 && payload == [] && s == m.Encode();
      LateReadDiffers(m, d);
      assert false;
    }
  }

  // The second handler reads the version byte as the method count, so it starts the
  // request at byte 6. On complete messages of version 5 it does what the first handler
  // does exactly when the client offers four methods.
  lemma HandlersAgreeIffFourMethods(m: Message, payload: seq<byte>, d: Dial)
    requires m.Valid() && m.version == 5 && ValidDial(d)
    ensures Replayed(m.Encode() + payload, d) == Handshake(m.Encode() + payload, d) <==> |m.methods| == 4
  {
    assert ValidHost(m.host) && m.port < 65536;
    hide *;
    var s := m.Encode() + payload;
    EncodeFits(m, payload);
    HandshakeRoundTrip(m, payload, d);
    VersionSkipsFive(s, d);
    if |m.methods| == 4 {
      LooseRequestParsed(s, 6, m.host, m.port, d);
    } else {
      LooseReadDiffers(m, payload, d);
    }
  }

  lemma RequestsAgreeUnlessIncomplete(input: seq<byte>, at: nat, d: Dial)
    requires at <= |input| && ValidDial(d)
    ensures LooseRequest(input, at, d) == Request(input, at, d) <==>
            !(at + 4 <= |input| && input[at + 1] == 1 && !Request(input, at, d).end.Dialled?)
  {
    var r := Request(input, at, d);
    if at + 4 <= |input| && input[at + 1] == 1 {
      assert LooseRequest(input, at, d).end.Dialled?;
      if r.end.Dialled? {
        HostParsed(input, at, d);
        LooseRequestParsed(input, at, r.end.host, r.end.port, d);
        RequestParsed(input, at, r.end.host, r.end.port, d);
      }
    }
  }

  // The stream starts with a complete CONNECT handshake.
  ghost predicate Complete(input: seq<byte>) {
    exists m: Message :: m.Valid() && m.Encode() <= input
  }

  lemma DialledIffComplete(input: seq<byte>, d: Dial)
    requires ValidDial(d)
    ensures Handshake(input, d).end.Dialled? <==> Complete(input)
  {
    if Handshake(input, d).end.Dialled? {
      OnlyMessagesAreDialled(input, d);
      assert ParsedMessage(input, d).Valid() && ParsedMessage(input, d).Encode() <= input;
    }
    if Complete(input) {
      var m: Message :| m.Valid() && m.Encode() <= input;
      assert input == m.Encode() + input[|m.Encode()|..];
      HandshakeRoundTrip(m, input[|m.Encode()|..], d);
    }
  }

  // With four methods the two still part ways on a CONNECT request that the first handler
  // gives up on, for being cut short or for its address type: the second dials whatever
  // it finds there and the zeros beyond spell.
  lemma FourMethodsAgreeUnlessIncomplete(input: seq<byte>, d: Dial)
    requires 2 <= |input| && input[0] == 5 && input[1] == 4 && ValidDial(d)
    ensures Replayed(input, d) == Handshake(input, d) <==>
            !(10 <= |input| && input[7] == 1 && !Complete(input))
  {
    DialledIffComplete(input, d);
    assert Num(input[1]) == 4 && Num(input[0]) == 5;
    if 6 <= |input| {
      RequestsAgreeUnlessIncomplete(input, 2 + Num(input[1]), d);
    }
  }

  // How the request part ends.
  lemma RequestEnds(input: seq<byte>, at: nat, d: Dial)
    requires at <= |input| && ValidDial(d)
    ensures var r := Request(input, at, d);
            (r.end.Truncated? <==>
              (|input| < at + 4 || (input[at + 1] == 1 && KnownAddressType(input[at + 3]) && !r.end.Dialled?))) &&
            (r.end.Truncated? ==> r == Outcome(METHOD_REPLY, |input|, Truncated)) &&
            (r.end.BadCommand? ==> r.consumed == at + 4)
  {
  }

  // The second handler, once it has four bytes to take for the request's header.
  lemma LooseRequestEnds(input: seq<byte>, at: nat, d: Dial)
    requires at + 4 <= |input| && ValidDial(d)
    ensures var r := LooseRequest(input, at, d);
            (r.end.BadCommand? && r.consumed == at + 4) || r.end.Dialled?
  {
  }

  // A complete message with another count than four is never handled alike.
  lemma DialledDiffers(input: seq<byte>, d: Dial)
    requires 6 <= |input| && ValidDial(d) && input[1] != 4 && Handshake(input, d).end.Dialled?
    ensures LooseRequest(input, 6, d) != Handshake(input, d)
  {
    var m := ParsedMessage(input, d);
    assert |m.methods| == input[1];
    OnlyMessagesAreDialled(input, d);
    hide *;
    var n := Handshake(input, d).consumed;
    assert input == m.Encode() + input[n..];
    HandshakeRoundTrip(m, input[n..], d);
    LooseReadDiffers(m, input[n..], d);
  }

  // Both handlers have read their greeting, and the second has a header to look at.
  lemma LongStreamsDiffer(input: seq<byte>, d: Dial)
    requires ValidDial(d) && 10 <= |input| && input[1] != 4 && 2 + Num(input[1]) <= |input|
    ensures LooseRequest(input, 6, d) != Handshake(input, d)
  {
    hide LooseRequest, Request;
    LooseRequestEnds(input, 6, d);
    RequestEnds(input, 2 + Num(input[1]), d);
    if Handshake(input, d).end.Dialled? {
      DialledDiffers(input, d);
    }
  }

  // On which version-5 streams the second handler does what the first one does.
  ghost predicate HandledAlike(input: seq<byte>)
    requires 2 <= |input|
  {
    var n := Num(input[1]);
    if n == 4 then !(10 <= |input| && input[7] == 1 && !Complete(input))
    else if |input| < 6 then |input| < 2 + n
    else 2 + n <= |input| < 10 &&
         (|input| < 6 + n || (input[3 + n] == 1 && KnownAddressType(input[5 + n]) && !Complete(input)))
  }

  lemma OtherCountsAgreeIff(input: seq<byte>, d: Dial)
    requires 2 <= |input| && input[0] == 5 && input[1] != 4 && ValidDial(d)
    ensures Replayed(input, d) == Handshake(input, d) <==> HandledAlike(input)
  {
    hide LooseRequest, Request;
    var n := Num(input[1]);
    DialledIffComplete(input, d);
    if 2 + n <= |input| {
      RequestEnds(input, 2 + n, d);
      RequestReplies(input, 2 + n, d);
    }
    if 6 <= |input| {
      VersionSkipsFive(input, d);
      LooseReplies(input, 6, d);
      if 2 + n <= |input| && 10 <= |input| {
        LongStreamsDiffer(input, d);
      }
    }
  }

  lemma RequestReplies(input: seq<byte>, at: nat, d: Dial)
    requires at <= |input| && ValidDial(d)
    ensures Request(input, at, d).output != []
  {
  }

  lemma LooseReplies(input: seq<byte>, at: nat, d: Dial)
    requires at <= |input| && ValidDial(d)
    ensures LooseRequest(input, at, d).output != []
    ensures |input| < at + 4 ==> LooseRequest(input, at, d) == Outcome(METHOD_REPLY, |input|, Truncated)
  {
  }

  // The main comparison: for every stream that starts with version 5, exactly when the
  // handler behind the sniffer writes, consumes and dials what the standalone one does.
  lemma HandlersAgreeIff(input: seq<byte>, d: Dial)
    requires 2 <= |input| && input[0] == 5 && ValidDial(d)
    ensures Replayed(input, d) == Handshake(input, d) <==> HandledAlike(input)
  {
    if input[1] == 4 {
      FourMethodsAgreeUnlessIncomplete(input, d);
    } else {
      OtherCountsAgreeIff(input, d);
    }
  }
}
