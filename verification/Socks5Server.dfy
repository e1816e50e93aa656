// The handshake handlers as they run: a connection that delivers its bytes in arbitrary
// chunks, the peek-and-replay reader, the buffered reader on top, and the reused buffer.
module Socks5Server {
  import opened Socks5Delivery
  import opened Socks5Spec

  // What one io.Reader read into buf[lo..hi] does: it moves the next n bytes of what is
  // still to come, at least one if there is room and data, and touches nothing else.
  ghost predicate IoRead(rest: seq<byte>, rest': seq<byte>, was: seq<byte>, now: seq<byte>,
                         lo: nat, hi: nat, n: nat, eof: bool)
  {
    lo <= hi <= |was| && n <= hi - lo && n <= |rest| && rest' == rest[n..] &&
    (eof <==> lo < hi && rest == []) && (lo < hi && rest != [] ==> 0 < n) &&
    now == was[..lo] + rest[..n] + was[lo + n..]
  }

  lemma SplitPrefix(a: seq<byte>, b: seq<byte>, n: nat)
    requires n <= |a|
    ensures (a + b)[..n] == a[..n] && (a + b)[n..] == a[n..] + b
  {
  }

  lemma FrontRead(front: seq<byte>, back: seq<byte>, was: seq<byte>, now: seq<byte>, lo: nat, hi: nat, n: nat)
    requires lo < hi <= |was| && front != [] && n == if hi - lo <= |front| then hi - lo else |front|
    requires now == was[..lo] + front[..n] + was[lo + n..]
    ensures IoRead(front + back, front[n..] + back, was, now, lo, hi, n, false)
  {
    SplitPrefix(front, back, n);
  }

  lemma NothingRead(rest: seq<byte>, was: seq<byte>, lo: nat, hi: nat)
    requires lo <= hi <= |was|
    ensures lo == hi ==> IoRead(rest, rest, was, was, lo, hi, 0, false)
    ensures lo < hi && rest == [] ==> IoRead(rest, rest, was, was, lo, hi, 0, true)
  {
  }

  lemma ChunkRead(input: seq<byte>, pos: nat, was: seq<byte>, now: seq<byte>, lo: nat, hi: nat, n: nat)
    requires 0 < n && pos + n <= |input| && lo + n <= hi <= |was|
    requires now == was[..lo] + input[pos..pos + n] + was[lo + n..]
    ensures IoRead(input[pos..], input[pos + n..], was, now, lo, hi, n, false)
  {
    assert input[pos..][..n] == input[pos..pos + n] && input[pos..][n..] == input[pos + n..];
  }

  lemma PieceRead(rest: seq<byte>, was: seq<byte>, now: seq<byte>, lo: nat, hi: nat, n: nat)
    requires lo <= hi <= |was| && n <= hi - lo && n <= |rest| && (lo < hi ==> 0 < n)
    requires now == was[..lo] + rest[..n] + was[lo + n..]
    ensures IoRead(rest, rest[n..], was, now, lo, hi, n, false)
  {
  }

  // A read that continues one of hi bytes in all.
  lemma ReadOn(input: seq<byte>, pos: nat, was: seq<byte>, now: seq<byte>, n: nat, hi: nat, k: nat, eof: bool)
    requires n <= pos <= pos + k <= |input| && n < hi <= |was| && was[..n] == input[pos - n..pos]
    requires IoRead(input[pos..], input[pos + k..], was, now, n, hi, k, eof)
    ensures n + k <= hi && |now| == |was| && (eof <==> pos == |input|) && (eof || 0 < k)
    ensures now[..n + k] == input[pos - n..pos + k] && now[hi..] == was[hi..]
  {
    assert input[pos..][..k] == input[pos..pos + k];
    assert input[pos - n..pos + k] == input[pos - n..pos] + input[pos..pos + k];
  }

  // What a read into the whole of an empty buffer leaves to come.
  lemma WholeRead(rest: seq<byte>, rest': seq<byte>, was: seq<byte>, now: seq<byte>, n: nat, eof: bool)
    requires 0 < |was| && IoRead(rest, rest', was, now, 0, |was|, n, eof)
    ensures n <= |now| == |was| && now[0..n] + rest' == rest && (eof <==> rest == []) && (!eof ==> 0 < n)
  {
  }

  // The builtin copy.
  method CopyBytes(dst: array<byte>, lo: nat, bytes: seq<byte>)
    requires lo + |bytes| <= dst.Length
    modifies dst
    ensures dst[..] == old(dst[..])[..lo] + bytes + old(dst[..])[lo + |bytes|..]
  {
    forall i | 0 <= i < |bytes| {
      dst[lo + i] := bytes[i];
    }
  }

  // A client connection. `input` is all the client sends before it closes, times out or
  // fails, `chunks` how it arrives; `output` is what the handler writes.
  class Conn {
    const input: seq<byte>
    const chunks: Chunks
    var pos: nat
    var turn: nat
    var output: seq<byte>

    ghost predicate Valid()
      reads this`pos
    {
      pos <= |input|
    }

    function Here(): Place
      reads this`pos, this`turn
    {
      Place(pos, turn)
    }

    constructor (input: seq<byte>, chunks: Chunks)
      ensures Valid() && this.input == input && this.chunks == chunks && Here() == Place(0, 0) && output == []
    {
      this.input, this.chunks, pos, turn, output := input, chunks, 0, 0, [];
    }

    // One read: the next chunk of what is left, at least one byte if there is room and data.
    method Read(buf: array<byte>, lo: nat, hi: nat) returns (n: nat, eof: bool)
      requires Valid() && lo <= hi <= buf.Length
      modifies this`pos, this`turn, buf
      ensures Valid() && pos == old(pos) + n
      ensures Here() ==
        if lo < hi && old(pos) < |input| then ReadAt(|input|, chunks, old(Here()), hi - lo) else old(Here())
      ensures IoRead(input[old(pos)..], input[pos..], old(buf[..]), buf[..], lo, hi, n, eof)
    {
      hide IoRead;
      n, eof := 0, lo < hi && pos == |input|;
      NothingRead(input[pos..], buf[..], lo, hi);
      if lo < hi && pos < |input| {
        var room := if hi - lo <= |input| - pos then hi - lo else |input| - pos;
        n := if chunks(turn) == 0 then 1 else if chunks(turn) <= room then chunks(turn) else room;
        CopyBytes(buf, lo, input[pos..pos + n]);
        ChunkRead(input, pos, old(buf[..]), buf[..], lo, hi, n);
        pos, turn := pos + n, turn + 1;
      }
    }

    method Write(bytes: seq<byte>)
      modifies this`output
      ensures output == old(output) + bytes
    {
      output := output + bytes;
    }
  }

  // io.ReadFull into buf[..hi]: loops over short reads until full or end of stream.
  method ReadFull(conn: Conn, buf: array<byte>, hi: nat) returns (ok: bool)
    requires conn.Valid() && hi <= buf.Length
    modifies conn`pos, conn`turn, buf
    ensures conn.Valid() && (ok <==> old(conn.pos) + hi <= |conn.input|)
    ensures conn.pos == if ok then old(conn.pos) + hi else |conn.input|
    ensures ok ==> buf[..hi] == conn.input[old(conn.pos)..conn.pos]
    ensures buf[hi..] == old(buf[hi..])
    ensures conn.Here() == ReadUpTo(|conn.input|, conn.chunks, old(conn.Here()), old(conn.pos) + hi)
  {
    hide ReadUpTo, ReadAt, IoRead;
    var n, eof := 0, false;
    while n < hi && !eof
      invariant conn.Valid() && n <= hi && conn.pos == old(conn.pos) + n
      invariant eof ==> n < hi && conn.pos == |conn.input|
      invariant buf[..n] == conn.input[old(conn.pos)..conn.pos]
      invariant buf[hi..] == old(buf[hi..])
      invariant ReadUpTo(|conn.input|, conn.chunks, conn.Here(), old(conn.pos) + hi) ==
                ReadUpTo(|conn.input|, conn.chunks, old(conn.Here()), old(conn.pos) + hi)
      decreases hi - n, !eof
    {
      var k;
      ReadUpToStep(|conn.input|, conn.chunks, conn.Here(), old(conn.pos) + hi);
      ghost var was := buf[..];
      k, eof := conn.Read(buf, n, hi);
      ReadOn(conn.input, conn.pos - k, was, buf[..], n, hi, k, eof);
      n := n + k;
    }
    ReadUpToStep(|conn.input|, conn.chunks, conn.Here(), old(conn.pos) + hi);
    ok := n == hi;
  }

  // The standalone SOCKS5 server's handler, up to the point where bytes are relayed. One
  // 256-byte buffer serves every read; the host is copied out before the port overwrites it.
  method HandleSocks5(conn: Conn, d: Dial) returns (end: End)
    requires conn.Valid() && conn.pos == 0 && conn.output == [] && ValidDial(d)
    modifies conn
    ensures conn.Valid() && Outcome(conn.output, conn.pos, end) == Handshake(conn.input, d)
  {
    var buf := new byte[256];
    var ok := ReadFull(conn, buf, 2);
    if !ok { return Truncated; }
    assert conn.input[0..2][1] == conn.input[1];
    var nMethods: nat := buf[1];
    if nMethods > 0 {
      ok := ReadFull(conn, buf, nMethods);
      if !ok { return Truncated; }
    }
    conn.Write(METHOD_REPLY);
    end := HandleRequest(conn, buf, d);
  }

  // The request part, from the reading of its four-byte header on.
  method HandleRequest(conn: Conn, buf: array<byte>, d: Dial) returns (end: End)
    requires conn.Valid() && buf.Length == 256 && conn.output == METHOD_REPLY && ValidDial(d)
    modifies conn, buf
    ensures conn.Valid() && Outcome(conn.output, conn.pos, end) == Request(conn.input, old(conn.pos), d)
  {
    ghost var at := conn.pos;
    var ok := ReadFull(conn, buf, 4);
    if !ok { return Truncated; }
    var cmd, atyp := buf[..4][1], buf[..4][3];
    assert cmd == conn.input[at + 1] && atyp == conn.input[at + 3];
    if cmd != 1 {
      conn.Write(COMMAND_REPLY);
      return BadCommand;
    }
    var host := ReadHost(conn, buf, atyp, at, d);
    if host.Cut? { return Truncated; }
    if host.Unknown? { return BadAddressType; }
    end := FinishRequest(conn, buf, host.host, d);
  }

  datatype HostRead = Got(host: Host) | Cut | Unknown

  method ReadHost(conn: Conn, buf: array<byte>, atyp: byte, ghost at: nat, ghost d: Dial) returns (r: HostRead)
    requires conn.Valid() && buf.Length == 256 && ValidDial(d)
    requires conn.pos == at + 4 && conn.input[at + 1] == 1 && atyp == conn.input[at + 3]
    modifies conn`pos, conn`turn, buf
    ensures conn.Valid()
    ensures Request(conn.input, at, d) ==
            match r
            case Got(host) => PortThenDial(conn.input, conn.pos, host, d)
            case Cut => Outcome(METHOD_REPLY, conn.pos, Truncated)
            case Unknown => Outcome(METHOD_REPLY, conn.pos, BadAddressType)
  {
    if atyp == 1 {
      var ok := ReadFull(conn, buf, 4);
      r := if ok then Got(IPv4(buf[..4])) else Cut;
    } else if atyp == 3 {
      r := ReadName(conn, buf, d);
    } else if atyp == 4 {
      var ok := ReadFull(conn, buf, 16);
      r := if ok then Got(IPv6(buf[..16])) else Cut;
    } else {
      r := Unknown;
    }
  }

  method ReadName(conn: Conn, buf: array<byte>, ghost d: Dial) returns (r: HostRead)
    requires conn.Valid() && buf.Length == 256 && ValidDial(d)
    modifies conn`pos, conn`turn, buf
    ensures conn.Valid() && !r.Unknown?
    ensures var p := old(conn.pos);
            (if |conn.input| < p + 1 then Outcome(METHOD_REPLY, |conn.input|, Truncated)
             else Name(conn.input, p + 1, conn.input[p], d)) ==
            match r
            case Got(host) => PortThenDial(conn.input, conn.pos, host, d)
            case _ => Outcome(METHOD_REPLY, conn.pos, Truncated)
  {
    var ok := ReadFull(conn, buf, 1);
    if !ok { return Cut; }
    var domainLen: nat := buf[..1][0];
    ok := ReadFull(conn, buf, domainLen);
    r := if ok then Got(Domain(buf[..domainLen])) else Cut;
  }

  method FinishRequest(conn: Conn, buf: array<byte>, host: Host, d: Dial) returns (end: End)
    requires conn.Valid() && buf.Length == 256 && conn.output == METHOD_REPLY && ValidDial(d)
    modifies conn, buf
    ensures conn.Valid() && Outcome(conn.output, conn.pos, end) == PortThenDial(conn.input, old(conn.pos), host, d)
  {
    ghost var at := conn.pos;
    var ok := ReadFull(conn, buf, 2);
    if !ok { return Truncated; }
    var hi, lo := buf[..2][0], buf[..2][1];
    assert hi == conn.input[at] && lo == conn.input[at + 1];
    conn.Write(DialReply(d));
    end := Dialled(host, U16(hi, lo), d.Connected?);
  }

  // ---------- peek and replay ----------

  // io.MultiReader over a limited reader of the peeked bytes and the connection.
  class ReplayReader {
    const peeked: seq<byte>
    const conn: Conn
    var pos: nat        // bytesReader.pos
    var limit: nat      // what the LimitReader still allows
    var first: bool     // still on the first reader

    ghost predicate Valid()
      reads this, conn`pos
    {
      conn.Valid() && pos <= |peeked| && limit == |peeked| - pos && (!first ==> pos == |peeked|)
    }

    // What is still to come.
    ghost function Rest(): seq<byte>
      requires Valid()
      reads this, conn`pos
    {
      peeked[pos..] + conn.input[conn.pos..]
    }

    constructor (peeked: seq<byte>, conn: Conn)
      requires conn.Valid()
      ensures Valid() && this.conn == conn && Rest() == peeked + conn.input[conn.pos..]
    {
      this.peeked, this.conn, pos, limit, first := peeked, conn, 0, |peeked|, true;
    }

    // bytesReader.Read behind the LimitReader.
    method ReadPeeked(buf: array<byte>, lo: nat, hi: nat) returns (n: nat, eof: bool)
      requires Valid() && lo <= hi <= buf.Length
      modifies this`pos, this`limit, buf
      ensures Valid() && n <= hi - lo && pos == old(pos) + n
      ensures eof <==> old(pos) == |peeked|
      ensures lo < hi && !eof ==> 0 < n
      ensures n <= |old(Rest())| && Rest() == old(Rest())[n..]
      ensures buf[..] == old(buf[..])[..lo] + old(Rest())[..n] + old(buf[..])[lo + n..]
    {
      n, eof := 0, limit == 0;
      if limit > 0 {
        n := if hi - lo <= limit then hi - lo else limit;
        CopyBytes(buf, lo, peeked[pos..pos + n]);
        SplitPrefix(peeked[pos..], conn.input[conn.pos..], n);
        assert peeked[pos..][..n] == peeked[pos..pos + n];
        pos, limit := pos + n, limit - n;
      }
    }

    // Every read yields the next piece of the client's stream: first the peeked bytes,
    // then the connection, nothing lost or repeated in between.
    method Read(buf: array<byte>, lo: nat, hi: nat) returns (n: nat, eof: bool)
      requires Valid() && lo <= hi <= buf.Length
      modifies this, conn`pos, conn`turn, buf
      ensures Valid() && conn.output == old(conn.output) && old(pos) <= pos
      ensures conn.Here() ==
        if lo < hi && old(pos) == |peeked| && old(conn.pos) < |conn.input|
        then ReadAt(|conn.input|, conn.chunks, old(conn.Here()), hi - lo) else old(conn.Here())
      ensures old(pos) == |peeked| ==> n == conn.pos - old(conn.pos)
      ensures old(pos) < |peeked| ==> n == pos - old(pos)
      ensures IoRead(old(Rest()), Rest(), old(buf[..]), buf[..], lo, hi, n, eof)
    {
      hide IoRead, ReadAt;
      n, eof := 0, false;
      if first {
        n, eof := ReadPeeked(buf, lo, hi);
        if !eof {
          PieceRead(old(Rest()), old(buf[..]), buf[..], lo, hi, n);
          return;
        }
        assert buf[..] == old(buf[..]);
        first := false;
      }
      assert peeked[pos..] == [] && Rest() == conn.input[conn.pos..] == old(Rest());
      n, eof := conn.Read(buf, lo, hi);
      assert Rest() == conn.input[conn.pos..];
    }
  }

  // ---------- the buffered reader and the sniffing handler ----------

  // bufio.Reader with its default 4096-byte buffer.
  class BufReader {
    const rd: ReplayReader
    const store: array<byte>
    var r: nat
    var w: nat
    ghost const start: Place    // how far the connection was when the reader was made

    ghost predicate Valid()
      reads this, rd, rd.conn`pos
    {
      rd.Valid() && r <= w <= store.Length == 4096
    }

    ghost function Rest(): seq<byte>
      requires Valid()
      reads this, store, rd, rd.conn`pos
    {
      store[r..w] + rd.Rest()
    }

    // How many bytes are out of the connection and not yet parsed.
    function Held(): nat
      requires r <= w && rd.pos <= |rd.peeked|
      reads this, rd
    {
      w - r + |rd.peeked| - rd.pos
    }

    // How far the stream has been parsed.
    function Parsed(): int
      requires r <= w && rd.pos <= |rd.peeked|
      reads this, rd, rd.conn`pos
    {
      rd.conn.pos - Held()
    }

    // The connection is where buffer-sized reads for `target` bytes leave it.
    ghost predicate Covers(target: nat)
      reads rd.conn`pos, rd.conn`turn
    {
      start.pos <= |rd.conn.input| &&
      rd.conn.Here() == FillUpTo(|rd.conn.input|, rd.conn.chunks, start, target)
    }

    // The connection is no further ahead than what has been parsed called for.
    ghost predicate JustAhead()
      requires Valid()
      reads this, rd, rd.conn`pos, rd.conn`turn
    {
      0 <= Parsed() && Covers(Parsed())
    }

    lemma CoversFurther(target: nat, further: nat)
      requires Covers(target) && target <= further <= rd.conn.pos
      ensures Covers(further)
    {
      FillStable(|rd.conn.input|, rd.conn.chunks, start, target, further);
    }

    constructor (rd: ReplayReader)
      requires rd.Valid()
      ensures Valid() && this.rd == rd && fresh(store) && Rest() == rd.Rest() && start == rd.conn.Here()
      ensures r == w && (|rd.peeked| - rd.pos <= rd.conn.pos ==> JustAhead())
    {
      this.rd, store, r, w, start := rd, new byte[4096], 0, 0, rd.conn.Here();
    }

    // One read into the empty buffer.
    method Refill() returns (eof: bool)
      requires Valid() && r == w
      modifies this, store, rd, rd.conn`pos, rd.conn`turn
      ensures Valid() && rd.conn.output == old(rd.conn.output) && Rest() == old(Rest())
      ensures eof <==> old(Rest()) == []
      ensures !eof ==> r < w
      ensures Parsed() == old(Parsed())
      ensures rd.conn.Here() ==
        if old(rd.pos) == |rd.peeked| && old(rd.conn.pos) < |rd.conn.input|
        then ReadAt(|rd.conn.input|, rd.conn.chunks, old(rd.conn.Here()), BUFFER_SIZE) else old(rd.conn.Here())
    {
      hide ReadAt, IoRead;
      r, w := 0, 0;
      var n;
      n, eof := rd.Read(store, 0, store.Length);
      WholeRead(old(rd.Rest()), rd.Rest(), old(store[..]), store[..], n, eof);
      w := n;
    }

    method Fill() returns (eof: bool)
      requires Valid() && r == w
      modifies this, store, rd, rd.conn`pos, rd.conn`turn
      ensures Valid() && rd.conn.output == old(rd.conn.output) && Rest() == old(Rest())
      ensures eof <==> old(Rest()) == []
      ensures !eof ==> r < w
      ensures old(JustAhead()) ==>
        Parsed() == old(Parsed()) && if eof then JustAhead() else Covers(Parsed() + 1)
    {
      hide FillUpTo, ReadAt;
      ghost var peeking, target, ahead := rd.pos < |rd.peeked|, Parsed(), JustAhead();
      if ahead && !peeking && rd.conn.pos < |rd.conn.input| {
        FillNext(|rd.conn.input|, rd.conn.chunks, start, target);
      }
      eof := Refill();
      if ahead && peeking {
        CoversFurther(target, target + 1);
      }
    }

    // Hand over buffered bytes.
    method Copy(buf: array<byte>, lo: nat, hi: nat) returns (n: nat)
      requires Valid() && lo < hi <= buf.Length && buf != store && r < w
      modifies this`r, buf
      ensures Valid() && IoRead(old(Rest()), Rest(), old(buf[..]), buf[..], lo, hi, n, false)
      ensures 0 < n && Parsed() == old(Parsed()) + n <= rd.conn.pos
    {
      n := if hi - lo <= w - r then hi - lo else w - r;
      ghost var front := store[r..w];
      assert front[..n] == store[r..r + n] && front[n..] == store[r + n..w];
      CopyBytes(buf, lo, store[r..r + n]);
      FrontRead(front, rd.Rest(), old(buf[..]), buf[..], lo, hi, n);
      hide IoRead;
      r := r + n;
    }

    method Read(buf: array<byte>, lo: nat, hi: nat) returns (n: nat, eof: bool)
      requires Valid() && lo <= hi <= buf.Length && buf != store
      modifies this, store, rd, rd.conn`pos, rd.conn`turn, buf
      ensures Valid() && rd.conn.output == old(rd.conn.output)
      ensures IoRead(old(Rest()), Rest(), old(buf[..]), buf[..], lo, hi, n, eof)
      ensures old(JustAhead()) && hi - lo < store.Length ==> JustAhead()
    {
      hide FillUpTo, ReadAt, Covers, IoRead;
      n, eof := 0, false;
      NothingRead(Rest(), buf[..], lo, hi);
      if lo == hi { return; }
      ghost var ahead := JustAhead();
      if r == w {
        assert Rest() == rd.Rest();
        if store.Length <= hi - lo {
          n, eof := rd.Read(buf, lo, hi);
          assert Rest() == rd.Rest();
          return;
        }
        eof := Fill();
        if eof { return; }
      } else if ahead {
        CoversFurther(Parsed(), Parsed() + 1);
      }
      ghost var target := Parsed();
      n := Copy(buf, lo, hi);
      if ahead {
        CoversFurther(target + 1, target + n);
      }
    }
  }

  lemma PaddedStep(rest: seq<byte>, k: nat, m: nat, n: nat)
    requires k + m <= n && k + m <= |rest|
    ensures rest[..k] + rest[k..][..m] + (rest[..k] + Padded([], 0, n - k))[k + m..] ==
            rest[..k + m] + Padded([], 0, n - k - m)
  {
  }

  lemma BufferedStep(rest: seq<byte>, rest': seq<byte>, was: seq<byte>, now: seq<byte>,
                     k: nat, n: nat, m: nat, eof: bool)
    requires k < n && k <= |rest| && was == rest[..k] + Padded([], 0, n - k)
    requires IoRead(rest[k..], rest', was, now, k, n, m, eof)
    ensures k + m <= n && k + m <= |rest| && rest' == rest[k + m..]
    ensures now == rest[..k + m] + Padded([], 0, n - k - m)
    ensures (eof <==> k == |rest|) && (eof || 0 < m)
  {
    PaddedStep(rest, k, m, n);
  }

  // io.ReadFull on the buffered reader, its error not always looked at: at the end of the
  // stream the rest of the buffer keeps its zeros. `all` is the stream and `pos` how far
  // it has been parsed.
  method ReadFullBuffered(br: BufReader, n: nat, ghost all: seq<byte>, ghost pos: nat)
    returns (bytes: array<byte>, ok: bool)
    requires br.Valid() && br.Rest() == From(all, pos)
    modifies br, br.store, br.rd, br.rd.conn`pos, br.rd.conn`turn
    ensures br.Valid() && br.rd.conn.output == old(br.rd.conn.output)
    ensures fresh(bytes) && bytes[..] == Padded(all, pos, n) && br.Rest() == From(all, pos + n)
    ensures ok <==> n <= |From(all, pos)|
    ensures old(br.JustAhead()) && n < br.store.Length ==> br.JustAhead()
  {
    hide IoRead, BufReader.JustAhead;
    bytes := new byte[n](_ => 0);
    var k, eof := 0, false;
    ghost var rest := br.Rest();
    while k < n && !eof
      invariant br.Valid() && k <= n && k <= |rest| && br.Rest() == rest[k..]
      invariant br.rd.conn.output == old(br.rd.conn.output)
      invariant old(br.JustAhead()) && n < br.store.Length ==> br.JustAhead()
      invariant eof ==> k < n && k == |rest|
      invariant bytes[..] == rest[..k] + Padded([], 0, n - k)
      decreases n - k, !eof
    {
      var m;
      ghost var was := bytes[..];
      m, eof := br.Read(bytes, k, n);
      BufferedStep(rest, br.Rest(), was, bytes[..], k, n, m, eof);
      k := k + m;
    }
    ok := k == n;
    PaddedPrefix(all, pos, n, k);
  }

  lemma PaddedPrefix(all: seq<byte>, pos: nat, n: nat, k: nat)
    requires k == n <= |From(all, pos)| || k == |From(all, pos)| < n
    ensures From(all, pos)[..k] + Padded([], 0, n - k) == Padded(all, pos, n)
    ensures From(all, pos)[k..] == From(all, pos + n)
  {
  }

  lemma WholeStream(all: seq<byte>)
    ensures From(all, 0) == all && (all != [] ==> Padded(all, 0, 1)[0] == all[0])
    ensures all == [] ==> From(all, 1) == From(all, |all|)
  {
  }

  lemma TailOfStream(all: seq<byte>, pos: nat, n: nat)
    requires pos <= |all|
    ensures |From(all, pos)| == |all| - pos
    ensures |all| - pos <= n ==> From(all, pos + n) == From(all, |all|)
  {
  }

  // The handler behind the sniffer, reading through the buffered reader. Errors after the
  // request header are not looked at.
  method HandleSocks5FromReader(conn: Conn, br: BufReader, d: Dial) returns (end: End)
    requires br.Valid() && br.rd.conn == conn && conn.output == [] && ValidDial(d)
    modifies br, br.store, br.rd, conn
    ensures br.Valid() && (old(br.JustAhead()) ==> br.JustAhead())
    ensures var spec := Replayed(old(br.Rest()), d);
            conn.output == spec.output && end == spec.end && br.Rest() == From(old(br.Rest()), spec.consumed)
  {
    hide BufReader.JustAhead, LooseRequest, Padded, From, Clip;
    ghost var all := br.Rest();
    WholeStream(all);
    var count, ok := ReadFullBuffered(br, 1, all, 0);
    if !ok { return Truncated; }
    var nMethods: nat := count[..][0];
    assert nMethods == all[0];
    TailOfStream(all, 1, nMethods);
    var methods;
    methods, ok := ReadFullBuffered(br, nMethods, all, 1);
    if !ok { return Truncated; }
    assert Replayed(all, d) == LooseRequest(all, 1 + nMethods, d);
    conn.Write(METHOD_REPLY);
    end := HandleLooseRequest(conn, br, all, 1 + nMethods, d);
  }

  method HandleLooseRequest(conn: Conn, br: BufReader, ghost all: seq<byte>, ghost at: nat, d: Dial)
    returns (end: End)
    requires br.Valid() && br.rd.conn == conn && conn.output == METHOD_REPLY && ValidDial(d)
    requires at <= |all| && br.Rest() == From(all, at)
    modifies br, br.store, br.rd, conn
    ensures br.Valid() && (old(br.JustAhead()) ==> br.JustAhead())
    ensures var spec := LooseRequest(all, at, d);
            conn.output == spec.output && end == spec.end && br.Rest() == From(all, spec.consumed)
  {
    hide BufReader.JustAhead;
    var header, ok := ReadFullBuffered(br, 4, all, at);
    if !ok { return Truncated; }
    var cmd, atyp := header[..][1], header[..][3];
    if cmd != 1 {
      conn.Write(COMMAND_REPLY);
      return BadCommand;
    }
    var host := ReadLooseHost(conn, br, atyp, all, at);
    end := FinishLooseRequest(conn, br, host, all, LooseHostEnd(all, at), d);
  }

  method ReadLooseHost(conn: Conn, br: BufReader, atyp: byte, ghost all: seq<byte>, ghost at: nat)
    returns (host: Host)
    requires br.Valid() && br.rd.conn == conn && at + 4 <= |all| && atyp == all[at + 3]
    requires br.Rest() == From(all, at + 4)
    modifies br, br.store, br.rd, conn`pos, conn`turn
    ensures br.Valid() && conn.output == old(conn.output) && (old(br.JustAhead()) ==> br.JustAhead())
    ensures host == LooseHost(all, at) && br.Rest() == From(all, LooseHostEnd(all, at))
  {
    hide BufReader.JustAhead;
    if atyp == 1 {
      var b, _ := ReadFullBuffered(br, 4, all, at + 4);
      host := IPv4(b[..]);
    } else if atyp == 3 {
      host := ReadLooseName(conn, br, all, at);
    } else if atyp == 4 {
      var b, _ := ReadFullBuffered(br, 16, all, at + 4);
      host := IPv6(b[..]);
    } else {
      host := NoHost;
    }
  }

  method ReadLooseName(conn: Conn, br: BufReader, ghost all: seq<byte>, ghost at: nat) returns (host: Host)
    requires br.Valid() && br.rd.conn == conn && at + 4 <= |all| && all[at + 3] == 3
    requires br.Rest() == From(all, at + 4)
    modifies br, br.store, br.rd, conn`pos, conn`turn
    ensures br.Valid() && conn.output == old(conn.output) && (old(br.JustAhead()) ==> br.JustAhead())
    ensures host == LooseHost(all, at) && br.Rest() == From(all, LooseHostEnd(all, at))
  {
    hide BufReader.JustAhead;
    var b, _ := ReadFullBuffered(br, 1, all, at + 4);
    var l: nat := b[..][0];
    var name, _ := ReadFullBuffered(br, l, all, at + 5);
    host := Domain(name[..]);
  }

  lemma FromClip(all: seq<byte>, pos: nat)
    ensures From(all, Clip(all, pos)) == From(all, pos)
  {
  }

  method FinishLooseRequest(conn: Conn, br: BufReader, host: Host, ghost all: seq<byte>, ghost pos: nat, d: Dial)
    returns (end: End)
    requires br.Valid() && br.rd.conn == conn && conn.output == METHOD_REPLY && ValidDial(d)
    requires br.Rest() == From(all, pos)
    modifies br, br.store, br.rd, conn
    ensures br.Valid() && (old(br.JustAhead()) ==> br.JustAhead())
    ensures var spec := LoosePort(all, pos, host, d);
            conn.output == spec.output && end == spec.end && br.Rest() == From(all, spec.consumed)
  {
    hide BufReader.JustAhead, From, Clip, Padded, U16, DialReply;
    FromClip(all, pos + 2);
    var pb, _ := ReadFullBuffered(br, 2, all, pos);
    conn.Write(DialReply(d));
    end := Dialled(host, U16(pb[..][0], pb[..][1]), d.Connected?);
  }

  // ---------- the sniffer ----------

  datatype Protocol = Failed | Socks5(end: End, br: BufReader) | Connect(rd: ReplayReader) | Http(rd: ReplayReader)

  // The SOCKS5 path. A relay that follows it reads the connection itself, so it misses the
  // bytes that the buffered reader holds: those up to where its last fill went.
  method ServeSocks5(conn: Conn, rd: ReplayReader, d: Dial) returns (end: End, br: BufReader)
    requires rd.Valid() && rd.conn == conn && rd.Rest() == conn.input && conn.output == [] && ValidDial(d)
    modifies conn, rd
    ensures br.Valid() && br.rd == rd
    ensures Outcome(conn.output, Replayed(conn.input, d).consumed, end) == Replayed(conn.input, d)
    ensures conn.pos == Replayed(conn.input, d).consumed + br.Held()
    ensures old(|rd.peeked| - rd.pos <= conn.pos) ==>
      conn.pos == FillUpTo(|conn.input|, conn.chunks, old(conn.Here()), Replayed(conn.input, d).consumed).pos
  {
    br := new BufReader(rd);
    end := HandleSocks5FromReader(conn, br, d);
    HeldIsUnparsed(br, Replayed(conn.input, d).consumed);
  }

  lemma HeldIsUnparsed(br: BufReader, parsed: nat)
    requires br.Valid() && parsed <= |br.rd.conn.input| && br.Rest() == From(br.rd.conn.input, parsed)
    ensures br.rd.conn.pos == parsed + br.Held()
  {
    assert |From(br.rd.conn.input, parsed)| == |br.rd.conn.input| - parsed;
    assert |br.Rest()| == (br.w - br.r) + |br.rd.Rest()|;
  }

  // Peek three bytes and put them back in front.
  method Peek(conn: Conn) returns (ok: bool, peeked: seq<byte>, rd: ReplayReader)
    requires conn.Valid() && conn.pos == 0
    modifies conn`pos, conn`turn
    ensures conn.Valid() && (ok <==> 3 <= |conn.input|) && fresh(rd) && rd.Valid() && rd.conn == conn
    ensures ok ==> peeked == conn.input[..3] && rd.Rest() == conn.input
    ensures ok ==> conn.pos == 3 && |rd.peeked| - rd.pos <= 3
    ensures conn.Here() == ReadUpTo(|conn.input|, conn.chunks, old(conn.Here()), PEEKED)
  {
    var buf := new byte[3];
    ok := ReadFull(conn, buf, 3);
    peeked := buf[..];
    rd := new ReplayReader(peeked, conn);
    if ok {
      assert conn.input[..3] + conn.input[3..] == conn.input;
    }
  }

  const CON: seq<byte> := [67, 79, 78]

  // handleConnection: peek, replay, and choose the protocol.
  method HandleConnection(conn: Conn, d: Dial) returns (r: Protocol)
    requires conn.Valid() && conn.Here() == Place(0, 0) && conn.output == [] && ValidDial(d)
    modifies conn
    ensures r.Failed? <==> |conn.input| < 3
    ensures r.Socks5? <==> 3 <= |conn.input| && conn.input[0] == 5
    ensures r.Connect? <==> 3 <= |conn.input| && conn.input[..3] == [67, 79, 78]
    ensures r.Socks5? ==> Outcome(conn.output, Replayed(conn.input, d).consumed, r.end) == Replayed(conn.input, d)
    ensures r.Socks5? ==> r.br.Valid() && conn.pos == Replayed(conn.input, d).consumed + r.br.Held()
    ensures r.Socks5? ==> r.br.Held() == ReadAhead(conn.input, conn.chunks, d)
    ensures r.Socks5? ==> Lost(conn.input, conn.chunks, d) == if Relays(r.end) then r.br.Held() else 0
    ensures r.Connect? || r.Http? ==>
      r.rd.Valid() && r.rd.conn == conn && r.rd.Rest() == conn.input && conn.output == []
  {
    var ok, peeked, rd := Peek(conn);
    if !ok { return Failed; }
    if peeked[0] == 5 {
      var end, br := ServeSocks5(conn, rd, d);
      r := Socks5(end, br);
    } else if peeked == CON {
      r := Connect(rd);
    } else {
      r := Http(rd);
    }
  }
}
