/**
 Length-prefixed frames over a WebSocket connection (internal/transport/transport.go), the
 relay's copy loop (internal/relay/server.go), and the two together end to end.
 */
module Transport {
  import opened Bytes
  import opened Codec = WsCodec
  import opened WsConn

  const MAX_FRAME_SIZE := 0x10_0000

  datatype TransportError = FrameTooLarge | Io(error: WsError)

  // ---- The framing as functions ----

  predicate Sendable(ps: seq<Bytes>) {
    forall k | 0 <= k < |ps| :: |ps[k]| <= MAX_FRAME_SIZE
  }

  /** A frame: its length in four bytes, and the payload. */
  function Framed(p: Bytes): Bytes
    requires |p| <= MAX_FRAME_SIZE
  {
    BE32(|p|) + p
  }

  function FramedAll(ps: seq<Bytes>): Bytes
    requires Sendable(ps)
  {
    if ps == [] then [] else Framed(ps[0]) + FramedAll(ps[1..])
  }

  /** Whether a whole acceptable frame lies at the front of the data. */
  predicate Complete(data: Bytes) {
    |data| >= 4 && Uint32(data[..4]) <= MAX_FRAME_SIZE && |data| - 4 >= Uint32(data[..4])
  }

  /** The payloads of the complete frames at the front of the data. */
  function Unframed(data: Bytes): seq<Bytes>
    decreases |data|
  {
    if !Complete(data) then []
    else
      var n := Uint32(data[..4]);
      [data[4..4 + n]] + Unframed(data[4 + n..])
  }

  lemma FirstFrame(p: Bytes, tail: Bytes)
    requires |p| <= MAX_FRAME_SIZE
    ensures Complete(Framed(p) + tail)
    ensures Unframed(Framed(p) + tail) == [p] + Unframed(tail)
  {
    var data := Framed(p) + tail;
    RoundTrip32(|p|);
    assert data[..4] == BE32(|p|);
    assert data[4..4 + |p|] == p && data[4 + |p|..] == tail;
  }

  /** A strict prefix of one frame holds no complete frame. */
  lemma PartialFrame(p: Bytes, n: nat)
    requires |p| <= MAX_FRAME_SIZE && n < 4 + |p|
    ensures !Complete(Framed(p)[..n])
  {
    if n >= 4 {
      RoundTrip32(|p|);
      assert Framed(p)[..n][..4] == BE32(|p|);
    }
  }

  lemma EmptyIncomplete()
    ensures !Complete([])
  {
  }

  lemma NoFrame(data: Bytes)
    requires !Complete(data)
    ensures Unframed(data) == []
  {
  }

  /** Framed payloads come back whole and in order; a cut stream gives back the frames before the cut. */
  lemma {:induction false} UnframedPrefix(ps: seq<Bytes>, n: nat)
    requires Sendable(ps) && n <= |FramedAll(ps)|
    ensures Unframed(FramedAll(ps)[..n]) <= ps
    ensures n == |FramedAll(ps)| ==> Unframed(FramedAll(ps)[..n]) == ps
  {
    hide Unframed, Complete;
    if ps == [] {
      EmptyIncomplete();
      NoFrame([]);
    } else {
      var first, others := Framed(ps[0]), FramedAll(ps[1..]);
      if n < |first| {
        assert FramedAll(ps)[..n] == first[..n];
        PartialFrame(ps[0], n);
        NoFrame(first[..n]);
      } else {
        var cut := others[..n - |first|];
        assert FramedAll(ps)[..n] == first + cut;
        FirstFrame(ps[0], cut);
        UnframedPrefix(ps[1..], n - |first|);
        assert ps == [ps[0]] + ps[1..];
      }
    }
  }

  // ---- FrameIO ----

  /** One frame handed to a connection's writer: payload bytes, or a ping or pong. */
  datatype Write = Binary(payload: Bytes) | Control(ping: bool, payload: Bytes)

  predicate ValidWrite(w: Write) {
    |w.payload| <= if w.Binary? then MAX_PAYLOAD else MAX_CONTROL_PAYLOAD
  }

  predicate ValidWrites(ws: seq<Write>) {
    forall k | 0 <= k < |ws| :: ValidWrite(ws[k])
  }

  function ItemOf(key: Option<MaskKey>, w: Write): Item {
    match w
    case Binary(p) => Data(key, p)
    case Control(true, p) => Ping(key, p)
    case Control(false, p) => PongItem(key, p)
  }

  /** The bytes a run of writes puts on the wire, its frames numbered from n. */
  function EncodeWrites(client: bool, random: Random, n: nat, ws: seq<Write>): Bytes
    requires ValidWrites(ws)
    decreases |ws|
  {
    if ws == [] then []
    else EncodeItem(ItemOf(KeyAt(client, random, n), ws[0])) + EncodeWrites(client, random, n + 1, ws[1..])
  }

  /** The payload bytes a run of writes carries. */
  function Carried(ws: seq<Write>): Bytes {
    if ws == [] then [] else (if ws[0].Binary? then ws[0].payload else []) + Carried(ws[1..])
  }

  lemma {:induction false} CarriedAppend(ws: seq<Write>, vs: seq<Write>)
    ensures Carried(ws + vs) == Carried(ws) + Carried(vs)
    decreases |ws|
  {
    if ws == [] {
      assert ws + vs == vs;
    } else {
      CarriedAppend(ws[1..], vs);
      assert (ws + vs)[1..] == ws[1..] + vs;
    }
  }

  lemma {:induction false} EncodeAppend(client: bool, random: Random, n: nat, ws: seq<Write>, vs: seq<Write>)
    requires ValidWrites(ws) && ValidWrites(vs) && ValidWrites(ws + vs)
    ensures EncodeWrites(client, random, n, ws + vs)
         == EncodeWrites(client, random, n, ws) + EncodeWrites(client, random, n + |ws|, vs)
    decreases |ws|
  {
    hide EncodeItem, KeyAt, ItemOf;
    if ws == [] {
      assert ws + vs == vs;
    } else {
      assert (ws + vs)[1..] == ws[1..] + vs;
      EncodeAppend(client, random, n + 1, ws[1..], vs);
    }
  }

  lemma WritesAppend(client: bool, random: Random, n: nat, ws: seq<Write>, vs: seq<Write>)
    requires ValidWrites(ws) && ValidWrites(vs)
    ensures ValidWrites(ws + vs) && Carried(ws + vs) == Carried(ws) + Carried(vs)
    ensures EncodeWrites(client, random, n, ws + vs)
         == EncodeWrites(client, random, n, ws) + EncodeWrites(client, random, n + |ws|, vs)
  {
    hide EncodeWrites, Carried;
    CarriedAppend(ws, vs);
    EncodeAppend(client, random, n, ws, vs);
  }

  lemma OneWrite(client: bool, random: Random, n: nat, w: Write)
    requires ValidWrite(w)
    ensures ValidWrites([w]) && Carried([w]) == if w.Binary? then w.payload else []
    ensures EncodeWrites(client, random, n, [w])
         == EncodeFrame(KeyAt(client, random, n),
                        if w.Binary? then OP_BINARY else if w.ping then OP_PING else OP_PONG,
                        w.payload)
  {
    hide EncodeFrame, KeyAt;
    assert [w][1..] == [];
  }

  lemma NoWrites(client: bool, random: Random, n: nat)
    ensures EncodeWrites(client, random, n, []) == [] && Carried([]) == []
  {
  }

  /** The other side reads the payload bytes that were written, and then what follows on the wire. */
  lemma {:induction false} WritesThen(client: bool, random: Random, n: nat, ws: seq<Write>, tail: Bytes)
    requires ValidWrites(ws)
    ensures var s, later := StreamOf(FreshReader(!client, EncodeWrites(client, random, n, ws) + tail)),
                            StreamOf(FreshReader(!client, tail));
            s == later.(data := Carried(ws) + later.data)
    decreases |ws|
  {
    hide StreamOf, EncodeItem, KeyAt;
    var data := StreamOf(FreshReader(!client, tail)).data;
    if ws == [] {
      assert EncodeWrites(client, random, n, ws) + tail == tail && Carried(ws) + data == data;
    } else {
      var i, others := ItemOf(KeyAt(client, random, n), ws[0]), EncodeWrites(client, random, n + 1, ws[1..]);
      KeyIff(client, random, n);
      assert EncodeWrites(client, random, n, ws) + tail == EncodeItem(i) + (others + tail);
      ItemFirst(!client, i, others + tail);
      WritesThen(client, random, n + 1, ws[1..], tail);
      var first := if i.Data? then i.payload else [];
      assert first + (Carried(ws[1..]) + data) == first + Carried(ws[1..]) + data;
    }
  }

  /** Clients mask each frame under its own key, servers none. */
  lemma KeyIff(client: bool, random: Random, n: nat)
    ensures KeyAt(client, random, n) == if client then Some(random(n)) else None
  {
  }

  lemma NothingLeft(client: bool)
    ensures StreamOf(FreshReader(client, [])) == Stream([], OutOfInput)
  {
    assert ParseHead(client, []) == Err(Eof);
  }

  /** The other side reads exactly the payload bytes that were written, whatever control frames lie between. */
  lemma WritesRead(client: bool, random: Random, n: nat, ws: seq<Write>)
    requires ValidWrites(ws)
    ensures StreamOf(FreshReader(!client, EncodeWrites(client, random, n, ws))) == Stream(Carried(ws), OutOfInput)
  {
    hide StreamOf, EncodeWrites, Carried;
    NothingLeft(!client);
    WritesThen(client, random, n, ws, []);
    assert EncodeWrites(client, random, n, ws) + [] == EncodeWrites(client, random, n, ws);
    assert Carried(ws) + [] == Carried(ws);
  }

  /** After the close frame that ends a connection the other side reads nothing more, whatever is on the wire. */
  lemma ClosedRead(client: bool, random: Random, n: nat, ws: seq<Write>, tail: Bytes)
    requires ValidWrites(ws)
    ensures var wire := EncodeWrites(client, random, n, ws)
                        + (EncodeFrame(KeyAt(client, random, n + |ws|), 0x8, [0x03, 0xE8]) + tail);
            StreamOf(FreshReader(!client, wire)) == Stream(Carried(ws), OutOfInput)
  {
    hide EncodeWrites, Carried, EncodeFrame, EncodeItem;
    var key := KeyAt(client, random, n + |ws|);
    var last := EncodeFrame(key, 0x8, [0x03, 0xE8]) + tail;
    CloseEnds(!client, [], key, [0x03, 0xE8], tail);
    assert EncodeItems(!client, []) + last == last && Payloads([]) == [];
    hide StreamOf;
    WritesThen(client, random, n, ws, last);
    assert Carried(ws) + [] == Carried(ws);
  }

  /** The two writes of one Send; an empty payload has no second one. */
  function SendWrites(p: Bytes): seq<Write>
    requires |p| <= MAX_FRAME_SIZE
  {
    [Binary(BE32(|p|))] + if p == [] then [] else [Binary(p)]
  }

  lemma SendCarries(p: Bytes)
    requires |p| <= MAX_FRAME_SIZE
    ensures ValidWrites(SendWrites(p)) && Carried(SendWrites(p)) == Framed(p)
  {
    var ws := SendWrites(p);
    assert ws[1..] == if p == [] then [] else [Binary(p)];
    if p != [] {
      assert [Binary(p)][1..] == [];
      assert Carried([Binary(p)]) == p;
    }
  }

  /** Cutting d off what follows position n; at the end of the data, nothing follows. */
  lemma SplitAt(data: Bytes, n: nat, d: Bytes, rest: Bytes, more: bool)
    requires n <= |data| && (if more then d + rest else d) == data[n..]
    ensures n + |d| <= |data| && data[..n + |d|] == data[..n] + d
    ensures if more then data[n + |d|..] == rest else n + |d| == |data|
  {
    assert data == data[..n] + data[n..];
  }

  class FrameIO {
    const conn: WSConn

    constructor (conn: WSConn)
      ensures this.conn == conn
    {
      this.conn := conn;
    }

    /** Writes one length-prefixed frame, or refuses it untouched. */
    method Send(p: Bytes) returns (r: Result<(), TransportError>)
      modifies conn
      ensures r == if |p| <= 0x10_0000 then Ok(()) else Err(FrameTooLarge)
      ensures r.Ok? ==> conn.written == old(conn.written) + if p == [] then 1 else 2
      ensures r.Err? ==> conn.output == old(conn.output) && conn.written == old(conn.written)
      ensures r.Ok? ==> ValidWrites(SendWrites(p))
                        && conn.output == old(conn.output) + EncodeWrites(conn.mask, conn.random, old(conn.written),
                                                                          SendWrites(p))
                        && conn.written == old(conn.written) + |SendWrites(p)|
    {
      hide EncodeFrame, KeyAt;
      if |p| > MAX_FRAME_SIZE {
        return Err(FrameTooLarge);
      }
      SendCarries(p);
      var _ := conn.Write(BE32(|p|));
      OneWrite(conn.mask, conn.random, old(conn.written), Binary(BE32(|p|)));
      if |p| == 0 {
        return Ok(());
      }
      var _ := conn.Write(p);
      OneWrite(conn.mask, conn.random, old(conn.written) + 1, Binary(p));
      WritesAppend(conn.mask, conn.random, old(conn.written), [Binary(BE32(|p|))], [Binary(p)]);
      return Ok(());
    }

    /** One read into the rest of buf, whose first n bytes are those of the stream s. */
    method ReadMore(buf: array<byte>, n: nat, ghost s: Stream) returns (m: nat, err: Option<WsError>)
      requires n < buf.Length && n <= |s.data| && buf[..n] == s.data[..n] && conn.Left() == s.(data := s.data[n..])
      modifies conn, buf
      ensures n + m <= buf.Length && n + m <= |s.data| && buf[..n + m] == s.data[..n + m]
      ensures err.None? ==> |conn.input| < |old(conn.input)| && conn.Left() == s.(data := s.data[n + m..])
      ensures err.Some? ==> n + m == |s.data| < buf.Length && EndingOf(err.value) == s.end
    {
      hide ReadSome, StreamOf, EncodeReplies;
      ReadIsPrefix(conn.View(), buf.Length - n);
      ghost var t := ReadSome(conn.View(), buf.Length - n);
      m, err := conn.Read(buf, n);
      SplitAt(s.data, n, t.data, StreamOf(t.reader).data, err.None?);
      assert buf[..n + m] == buf[..n] + t.data;
    }

    /** Fills buf by repeated reads. */
    method ReadFull(buf: array<byte>) returns (err: Option<WsError>)
      modifies conn, buf
      ensures var s := old(conn.Left());
              && (err.None? <==> |s.data| >= buf.Length)
              && (err.None? ==> buf[..] == s.data[..buf.Length] && conn.Left() == s.(data := s.data[buf.Length..]))
              && (err.Some? ==> EndingOf(err.value) == s.end)
    {
      hide ReadSome, StreamOf, EncodeReplies;
      var n: nat := 0;
      err := None;
      ghost var s := conn.Left();
      while n < buf.Length && err.None?
        invariant n <= buf.Length && n <= |s.data|
        invariant buf[..n] == s.data[..n]
        invariant err.None? ==> conn.Left() == s.(data := s.data[n..])
        invariant err.Some? ==> n == |s.data| < buf.Length && EndingOf(err.value) == s.end
        decreases if err.None? then 1 else 0, |conn.input|
      {
        var m;
        m, err := ReadMore(buf, n, s);
        n := n + m;
      }
      if n >= buf.Length {
        return None;
      }
      if n > 0 && err == Some(Eof) {
        return Some(UnexpectedEof);
      }
    }

    /** Reads one frame: the next payload of the stream, leaving the stream after it. */
    method Recv() returns (r: Result<Bytes, TransportError>)
      modifies conn
      ensures var s := old(conn.Left());
              && (r.Ok? <==> Complete(s.data))
              && (r.Ok? ==> |s.data| >= 4 + |r.value|
                            && Unframed(s.data) == [r.value] + Unframed(conn.Left().data)
                            && conn.Left() == s.(data := s.data[4 + |r.value|..]))
              && (r == Err(FrameTooLarge) <==> |s.data| >= 4 && Uint32(s.data[..4]) > 0x10_0000)
    {
      hide StreamOf, Unframed, Uint32;
      var hdr := new byte[4];
      var err := ReadFull(hdr);
      if err.Some? {
        return Err(Io(err.value));
      }
      var n := Uint32(hdr[..]);
      ghost var s := old(conn.Left()).data;
      assert s[..4] == hdr[..];
      if n > MAX_FRAME_SIZE {
        return Err(FrameTooLarge);
      }
      UnframedFirst(s);
      var payload := new byte[n];
      if n == 0 {
        assert payload[..] == s[4..4 + n];
        return Ok(payload[..]);
      }
      err := ReadFull(payload);
      if err.Some? {
        return Err(Io(err.value));
      }
      assert payload[..] == s[4..4 + n] && s[4..][n..] == s[4 + n..];
      return Ok(payload[..]);
    }

    /** Receives until the connection fails, as the session's read loop does. */
    method RecvAll() returns (ps: seq<Bytes>)
      modifies conn
      ensures ps == Unframed(old(conn.Left()).data)
    {
      hide StreamOf, Unframed;
      ps := [];
      ghost var s := conn.Left();
      while true
        invariant Unframed(s.data) == ps + Unframed(conn.Left().data)
        decreases |conn.Left().data|
      {
        Incomplete(conn.Left().data);
        var r := Recv();
        if r.Err? {
          return;
        }
        ps := ps + [r.value];
      }
    }
  }

  lemma UnframedFirst(data: Bytes)
    ensures Complete(data) ==>
              var n := Uint32(data[..4]); Unframed(data) == [data[4..4 + n]] + Unframed(data[4 + n..])
  {
  }

  lemma Incomplete(data: Bytes)
    ensures !Complete(data) ==> Unframed(data) == []
  {
  }

  // ---- The relay's copy loop ----

  const PUMP_BUFFER := 0x8000

  /** Writes one more chunk after those already forwarded. */
  method Forward(dst: WSConn, chunk: Bytes, ghost output: Bytes, ghost written: nat, ghost chunks: seq<Write>)
    requires |chunk| <= MAX_PAYLOAD && ValidWrites(chunks)
    requires dst.written == written + |chunks|
    requires dst.output == output + EncodeWrites(dst.mask, dst.random, written, chunks)
    modifies dst`output, dst`written
    ensures ValidWrites(chunks + [Binary(chunk)]) && Carried(chunks + [Binary(chunk)]) == Carried(chunks) + chunk
    ensures dst.written == written + |chunks| + 1
    ensures dst.output == output + EncodeWrites(dst.mask, dst.random, written, chunks + [Binary(chunk)])
  {
    hide EncodeFrame, EncodeWrites, Carried, KeyAt;
    var _ := dst.Write(chunk);
    OneWrite(dst.mask, dst.random, written + |chunks|, Binary(chunk));
    WritesAppend(dst.mask, dst.random, written, chunks, [Binary(chunk)]);
  }

  /** Data in frames of 1 byte to 32 KiB. */
  predicate InChunks(ws: seq<Write>) {
    forall k | 0 <= k < |ws| :: ws[k].Binary? && 0 < |ws[k].payload| <= 0x8000
  }

  /** One turn of the copy loop: reads once and forwards what it got, unless that passes the ceiling. */
  method CopyOnce(dst: WSConn, src: WSConn, buf: array<byte>, total: nat, circuitBytes: int,
                  ghost output: Bytes, ghost written: nat, ghost chunks: seq<Write>)
    returns (n: nat, stop: bool, ghost more: seq<Write>)
    requires dst != src && 0 < buf.Length <= MAX_PAYLOAD && ValidWrites(chunks)
    requires dst.written == written + |chunks|
    requires dst.output == output + EncodeWrites(dst.mask, dst.random, written, chunks)
    modifies dst`output, dst`written, src, buf
    ensures ValidWrites(more) && dst.written == written + |more|
    ensures dst.output == output + EncodeWrites(dst.mask, dst.random, written, more)
    ensures InChunks(chunks) && buf.Length <= 0x8000 ==> InChunks(more)
    ensures !stop ==> |src.input| < old(|src.input|)
    ensures n <= |old(src.Left()).data|
    ensures var s := old(src.Left()).data;
            if n > 0 && total + n > circuitBytes then stop && more == chunks
            else
              && Carried(more) == Carried(chunks) + s[..n]
              && (!stop ==> src.Left().data == s[n..])
              && (stop ==> n == |s|)
  {
    hide ReadSome, StreamOf, EncodeReplies, EncodeFrame, EncodeWrites, Carried, KeyAt;
    more := chunks;
    ReadIsPrefix(src.View(), buf.Length);
    ghost var s := src.Left().data;
    var err;
    n, err := src.Read(buf, 0);
    stop := err.Some?;
    if n > 0 {
      if total + n > circuitBytes {
        stop := true;
        return;
      }
      assert buf[..n] == s[..n];
      Forward(dst, buf[..n], output, written, chunks);
      more := chunks + [Binary(buf[..n])];
    }
  }

  lemma SliceOn(data: Bytes, i: nat, n: nat)
    requires i + n <= |data|
    ensures data[..i] + data[i..][..n] == data[..i + n] && data[i..][n..] == data[i + n..]
  {
  }

  /** Copies src to dst until src fails or the byte ceiling would be passed. */
  method Pump(dst: WSConn, src: WSConn, circuitBytes: int) returns (ghost chunks: seq<Write>)
    requires dst != src
    modifies dst, src
    ensures ValidWrites(chunks) && InChunks(chunks)
    ensures dst.output == old(dst.output) + EncodeWrites(dst.mask, dst.random, old(dst.written), chunks)
    ensures Carried(chunks) <= old(src.Left()).data
    ensures |Carried(chunks)| <= if circuitBytes < 0 then 0 else circuitBytes
    ensures Carried(chunks) == old(src.Left()).data <==>
              (|old(src.Left()).data| <= circuitBytes || old(src.Left()).data == [])
  {
    hide StreamOf, EncodeWrites, Carried;
    NoWrites(dst.mask, dst.random, dst.written);
    var buf := new byte[PUMP_BUFFER];
    var total := 0;
    chunks := [];
    ghost var s := src.Left();
    while true
      invariant ValidWrites(chunks) && InChunks(chunks)
      invariant dst.output == old(dst.output) + EncodeWrites(dst.mask, dst.random, old(dst.written), chunks)
      invariant dst.written == old(dst.written) + |chunks|
      invariant 0 <= total <= |s.data| && Carried(chunks) == s.data[..total] && src.Left().data == s.data[total..]
      invariant total <= circuitBytes || total == 0
      decreases |src.input|
    {
      var n, stop;
      n, stop, chunks := CopyOnce(dst, src, buf, total, circuitBytes, old(dst.output), old(dst.written), chunks);
      SliceOn(s.data, total, n);
      if n > 0 && total + n > circuitBytes {
        return;
      }
      total := total + n;
      if stop {
        return;
      }
    }
  }

  // ---- End to end ----

  /** However short a connection is cut, even inside a frame, its reader gets a prefix of what was written. */
  lemma CutWrites(client: bool, random: Random, n: nat, ws: seq<Write>, cut: nat)
    requires ValidWrites(ws) && cut <= |EncodeWrites(client, random, n, ws)|
    ensures StreamOf(FreshReader(!client, EncodeWrites(client, random, n, ws)[..cut])).data <= Carried(ws)
  {
    hide StreamOf, EncodeWrites, Carried;
    var wire := EncodeWrites(client, random, n, ws);
    WritesRead(client, random, n, ws);
    CutStream(FreshReader(!client, wire[..cut]), wire);
  }

  /**
   The sender writes framed payloads with pings and pongs anywhere between its frames;
   the relay reads them and writes some prefix of what it read, cut into frames as it
   likes and with its own pings and pongs between them; either connection may break after
   any byte. The receiver gets a prefix of the payloads, whole and in order, and all of
   them if the relay forwarded everything and its connection did not break.
   */
  lemma EndToEnd(ps: seq<Bytes>, sent: seq<Write>, forwarded: seq<Write>, random: Random, m: nat, random': Random,
                 n: nat, cut: nat, cut': nat)
    requires Sendable(ps) && ValidWrites(sent) && Carried(sent) == FramedAll(ps) && ValidWrites(forwarded)
    requires cut <= |EncodeWrites(true, random, m, sent)| && cut' <= |EncodeWrites(false, random', n, forwarded)|
    ensures StreamOf(FreshReader(false, EncodeWrites(true, random, m, sent))) == Stream(FramedAll(ps), OutOfInput)
    ensures var wire := EncodeWrites(false, random', n, forwarded);
            var got := Unframed(StreamOf(FreshReader(true, wire[..cut'])).data);
            Carried(forwarded) <= StreamOf(FreshReader(false, EncodeWrites(true, random, m, sent)[..cut])).data ==>
              got <= ps && (Carried(forwarded) == FramedAll(ps) && cut' == |wire| ==> got == ps)
  {
    hide StreamOf, EncodeWrites, Unframed, Carried;
    WritesRead(true, random, m, sent);
    CutWrites(true, random, m, sent, cut);
    WritesRead(false, random', n, forwarded);
    CutWrites(false, random', n, forwarded, cut');
    var wire := EncodeWrites(false, random', n, forwarded);
    assert wire[..|wire|] == wire;
    var data := StreamOf(FreshReader(true, wire[..cut'])).data;
    if data <= FramedAll(ps) {
      assert FramedAll(ps)[..|data|] == data;
      UnframedPrefix(ps, |data|);
    }
  }

  lemma {:induction false} FramedAppend(ps: seq<Bytes>, p: Bytes)
    requires Sendable(ps) && |p| <= MAX_FRAME_SIZE
    ensures Sendable(ps + [p]) && FramedAll(ps + [p]) == FramedAll(ps) + Framed(p)
  {
    hide Framed;
    if ps == [] {
      assert ps + [p] == [p] && [p][1..] == [];
    } else {
      FramedAppend(ps[1..], p);
      assert (ps + [p])[1..] == ps[1..] + [p];
    }
  }

  /** Sends every payload, pinging before any of them it pleases. */
  method SendAll(io: FrameIO, ps: seq<Bytes>) returns (ghost sent: seq<Write>)
    requires Sendable(ps)
    modifies io.conn
    ensures ValidWrites(sent) && Carried(sent) == FramedAll(ps)
    ensures io.conn.output == old(io.conn.output) + EncodeWrites(io.conn.mask, io.conn.random, old(io.conn.written),
                                                                 sent)
  {
    hide EncodeWrites, Carried, EncodeFrame, KeyAt, FramedAll;
    ghost var start := io.conn.written;
    NoWrites(io.conn.mask, io.conn.random, start);
    NothingFramed();
    sent := [];
    for i := 0 to |ps|
      invariant ValidWrites(sent) && Sendable(ps[..i]) && Carried(sent) == FramedAll(ps[..i])
      invariant io.conn.written == start + |sent|
      invariant io.conn.output == old(io.conn.output) + EncodeWrites(io.conn.mask, io.conn.random, start, sent)
    {
      var pinging: bool := *;
      if pinging {
        io.conn.WriteControl(OP_PING, []);
        OneWrite(io.conn.mask, io.conn.random, start + |sent|, Control(true, []));
        WritesAppend(io.conn.mask, io.conn.random, start, sent, [Control(true, [])]);
        sent := sent + [Control(true, [])];
      }
      var _ := io.Send(ps[i]);
      SendCarries(ps[i]);
      WritesAppend(io.conn.mask, io.conn.random, start, sent, SendWrites(ps[i]));
      FramedAppend(ps[..i], ps[i]);
      assert ps[..i + 1] == ps[..i] + [ps[i]];
      sent := sent + SendWrites(ps[i]);
    }
    assert ps[..|ps|] == ps;
  }

  lemma NothingFramed()
    ensures FramedAll([]) == []
  {
  }

  /** What arrives of a connection's output: all of it, unless the connection breaks before. */
  function Arriving(output: Bytes, cut: Option<nat>): Bytes {
    if cut.Some? && cut.value <= |output| then output[..cut.value] else output
  }

  lemma ArrivingCut(output: Bytes, cut: Option<nat>) returns (n: nat)
    ensures n <= |output| && Arriving(output, cut) == output[..n] && (cut.None? ==> n == |output|)
  {
    n := if cut.Some? && cut.value <= |output| then cut.value else |output|;
    assert output[..|output|] == output;
  }

  /** A whole circuit: send, copy through the relay, receive; each connection may break. */
  method ThroughRelay(ps: seq<Bytes>, circuitBytes: int, keys: Random, cut: Option<nat>, cut': Option<nat>)
    returns (got: seq<Bytes>)
    requires Sendable(ps)
    ensures got <= ps
    ensures |FramedAll(ps)| <= circuitBytes && cut.None? && cut'.None? ==> got == ps
  {
    hide StreamOf, EncodeWrites, Unframed, Carried;
    var sender := new WSConn(true, keys, []);
    var io := new FrameIO(sender);
    ghost var sent := SendAll(io, ps);
    ghost var wire := EncodeWrites(true, keys, 0, sent);
    assert sender.output == wire;
    var src := new WSConn(false, keys, Arriving(sender.output, cut));
    var dst := new WSConn(false, keys, []);
    ghost var n := ArrivingCut(wire, cut);
    assert src.Left() == StreamOf(FreshReader(false, wire[..n]));
    ghost var forwarded := Pump(dst, src, circuitBytes);
    assert dst.output == EncodeWrites(false, keys, 0, forwarded);
    var receiver := new WSConn(true, keys, Arriving(dst.output, cut'));
    ghost var n' := ArrivingCut(dst.output, cut');
    assert wire[..|wire|] == wire;
    EndToEnd(ps, sent, forwarded, keys, 0, keys, 0, n, n');
    var out := new FrameIO(receiver);
    got := out.RecvAll();
  }
}
