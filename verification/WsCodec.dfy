/**
 WebSocket frames as byte strings (internal/rendezvous/ws.go; sections 5.2, 5.3 and 5.5
 of RFC 6455): encoding, header decoding, and what a reader makes of a whole byte stream.
 */
module WsCodec {
  import opened Words
  import opened Bytes

  const OP_CONTINUATION: nat := 0x0
  const OP_BINARY: nat := 0x2
  const OP_CLOSE: nat := 0x8
  const OP_PING: nat := 0x9
  const OP_PONG: nat := 0xA

  const MAX_PAYLOAD := 0x10_0000 + 1024
  const MAX_CONTROL_PAYLOAD := 125

  datatype WsError = Eof | UnexpectedEof | Protocol | ControlTooLarge

  // ---- Masking ----

  type MaskKey = k: Bytes | |k| == 4 witness [0, 0, 0, 0]

  /** data with the key applied, its first byte being at position pos of the payload. */
  function Mask(key: MaskKey, pos: nat, data: Bytes): (r: Bytes)
    ensures |r| == |data|
  {
    seq(|data|, i requires 0 <= i < |data| => Xor(data[i], key[(pos + i) % 4]))
  }

  function MaskIf(key: Option<MaskKey>, pos: nat, data: Bytes): (r: Bytes)
    ensures |r| == |data|
  {
    if key.Some? then Mask(key.value, pos, data) else data
  }

  lemma MaskTwice(key: Option<MaskKey>, pos: nat, data: Bytes)
    ensures MaskIf(key, pos, MaskIf(key, pos, data)) == data
  {
    if key.Some? {
      forall i | 0 <= i < |data|
        ensures Mask(key.value, pos, Mask(key.value, pos, data))[i] == data[i]
      {
        XorTwice(data[i], key.value[(pos + i) % 4]);
      }
    }
  }

  /** Unmasking is right however the payload is cut up. */
  lemma MaskSplit(key: Option<MaskKey>, pos: nat, data: Bytes, n: nat)
    requires n <= |data|
    ensures MaskIf(key, pos, data) == MaskIf(key, pos, data[..n]) + MaskIf(key, pos + n, data[n..])
  {
    if key.Some? {
      var whole := Mask(key.value, pos, data);
      var left, right := Mask(key.value, pos, data[..n]), Mask(key.value, pos + n, data[n..]);
      forall i | 0 <= i < |data|
        ensures whole[i] == (left + right)[i]
      {
        if i >= n {
          assert pos + n + (i - n) == pos + i;
        }
      }
    } else {
      assert data == data[..n] + data[n..];
    }
  }

  // ---- Writing ----

  /** The header: 7-bit, 16-bit or 64-bit length, then the mask key if there is one. */
  function EncodeHead(key: Option<MaskKey>, opcode: nat, n: uint64): (r: Bytes)
    requires opcode < 16
    ensures |r| >= 2
  {
    var mark := if key.Some? then 0x80 else 0;
    (if n < 126 then [0x80 + opcode, mark + n]
     else if n <= 0xFFFF then [0x80 + opcode, mark + 126] + BE16(n)
     else [0x80 + opcode, mark + 127] + BE64(n))
    + if key.Some? then key.value else []
  }

  function EncodeFrame(key: Option<MaskKey>, opcode: nat, payload: Bytes): Bytes
    requires opcode < 16 && |payload| < TWO_64
  {
    EncodeHead(key, opcode, |payload|) + MaskIf(key, 0, payload)
  }

  // ---- Reading one header ----

  datatype Head = Head(fin: bool, opcode: nat, key: Option<MaskKey>, length: nat)

  /** The error of a read that wanted more bytes than the stream still had. */
  function Short(available: nat): (e: WsError)
    ensures e in {Eof, UnexpectedEof} && (e == Eof <==> available == 0)
  {
    if available == 0 then Eof else UnexpectedEof
  }

  /** The length field and how many bytes it takes after the first two. */
  function ParseLength(code: nat, input: Bytes): Result<(nat, nat), WsError>
    requires code < 128
  {
    if code == 126 then
      if |input| < 2 then Err(Short(|input|)) else Ok((Uint16(input[..2]), 2))
    else if code == 127 then
      if |input| < 8 then Err(Short(|input|))
      else if Uint64(input[..8]) > MAX_PAYLOAD then Err(Protocol)
      else Ok((Uint64(input[..8]), 8))
    else Ok((code, 0))
  }

  /** Decodes a header; `client` tells which side is reading. Also gives its size. */
  function ParseHead(client: bool, input: Bytes): (r: Result<(Head, nat), WsError>)
    ensures r.Ok? ==> 2 <= r.value.1 <= |input| && r.value.0.length <= MAX_PAYLOAD
  {
    if |input| < 2 then Err(Short(|input|))
    else if input[0] / 16 % 8 != 0 then Err(Protocol)
    else
      var masked := input[1] >= 0x80;
      match ParseLength(input[1] % 0x80, input[2..])
      case Err(e) => Err(e)
      case Ok((length, ext)) =>
        if length > MAX_PAYLOAD then Err(Protocol)
        else if !client && !masked then Err(Protocol)
        else if client && masked then Err(Protocol)
        else
          var rest := input[2 + ext..];
          if masked && |rest| < 4 then Err(Short(|rest|))
          else Ok((Head(input[0] >= 0x80, input[0] % 16, if masked then Some(rest[..4]) else None, length),
                   2 + ext + if masked then 4 else 0))
  }

  /** The length field in its three forms, and the 7-bit code that announces it. */
  function LengthField(n: uint64): Bytes {
    if n < 126 then [] else if n <= 0xFFFF then BE16(n) else BE64(n)
  }

  function LengthCode(n: uint64): (code: byte)
    ensures code < 128
  {
    if n < 126 then n else if n <= 0xFFFF then 126 else 127
  }

  lemma HeadShape(key: Option<MaskKey>, opcode: nat, n: uint64)
    requires opcode < 16
    ensures EncodeHead(key, opcode, n) ==
              [0x80 + opcode, (if key.Some? then 0x80 else 0) + LengthCode(n)]
              + (LengthField(n) + if key.Some? then key.value else [])
  {
    hide BE16, BE64;
  }

  lemma LengthParses(n: uint64, rest: Bytes)
    requires n <= MAX_PAYLOAD
    ensures ParseLength(LengthCode(n), LengthField(n) + rest) == Ok((n, |LengthField(n)|))
  {
    hide BE16, BE64, Uint16, Uint64;
    if n > 0xFFFF {
      RoundTrip64(n);
      assert (BE64(n) + rest)[..8] == BE64(n);
    } else if n >= 126 {
      RoundTrip16(n);
      assert (BE16(n) + rest)[..2] == BE16(n);
    }
  }

  lemma ShapeParses(client: bool, key: Option<MaskKey>, opcode: nat, code: byte, field: Bytes, n: nat, tail: Bytes)
    requires opcode < 16 && code < 128 && n <= MAX_PAYLOAD && (key.Some? <==> !client)
    requires var k: Bytes := if key.Some? then key.value else [];
             ParseLength(code, field + (k + tail)) == Ok((n, |field|))
    ensures var k: Bytes := if key.Some? then key.value else [];
            ParseHead(client, [0x80 + opcode, (if key.Some? then 0x80 else 0) + code] + (field + (k + tail))) ==
              Ok((Head(true, opcode, key, n), 2 + |field| + |k|))
  {
    hide ParseLength;
    var k: Bytes := if key.Some? then key.value else [];
    var two: Bytes := [0x80 + opcode, (if key.Some? then 0x80 else 0) + code];
    var input := two + (field + (k + tail));
    assert input[2..] == field + (k + tail);
    assert input[2 + |field|..] == k + tail;
    assert (k + tail)[..|k|] == k;
  }

  /** Every header decodes to what was encoded, at any of the three length forms. */
  lemma ParseOfEncoded(client: bool, key: Option<MaskKey>, opcode: nat, n: nat, tail: Bytes)
    requires opcode < 16 && n <= MAX_PAYLOAD && (key.Some? <==> !client)
    ensures ParseHead(client, EncodeHead(key, opcode, n) + tail)
         == Ok((Head(true, opcode, key, n), |EncodeHead(key, opcode, n)|))
  {
    hide ParseHead, ParseLength, EncodeHead, LengthField, LengthCode;
    var k: Bytes := if key.Some? then key.value else [];
    HeadShape(key, opcode, n);
    LengthParses(n, k + tail);
    ShapeParses(client, key, opcode, LengthCode(n), LengthField(n), n, tail);
    var two: Bytes := [0x80 + opcode, (if key.Some? then 0x80 else 0) + LengthCode(n)];
    assert two + (LengthField(n) + k) + tail == two + (LengthField(n) + (k + tail));
  }

  // ---- Reading a stream ----

  /** A reader sends these back while it reads. */
  datatype Reply = Pong(payload: Bytes) | CloseBack

  /** What one frame makes a reader do. */
  datatype Turn =
    | Stop(error: WsError, replies: seq<Reply>)
    | Payload(head: Head, rest: Bytes)
    | Skip(rest: Bytes, replies: seq<Reply>)

  function OneFrame(client: bool, input: Bytes): (t: Turn)
    ensures !t.Stop? ==> |t.rest| < |input|
    ensures t.Payload? ==> t.head.length > 0
  {
    match ParseHead(client, input)
    case Err(e) => Stop(e, [])
    case Ok((h, size)) =>
      var rest := input[size..];
      if h.opcode == OP_BINARY || h.opcode == OP_CONTINUATION then
        if h.length == 0 then Skip(rest, []) else Payload(h, rest)
      else if h.opcode == OP_CLOSE then
        if |rest| < h.length then Stop(Short(|rest|), []) else Stop(Eof, [CloseBack])
      else if h.opcode == OP_PING || h.opcode == OP_PONG then
        if h.length > MAX_CONTROL_PAYLOAD || !h.fin then Stop(Protocol, [])
        else if |rest| < h.length then Stop(Short(|rest|), [])
        else Skip(rest[h.length..], if h.opcode == OP_PING then [Pong(MaskIf(h.key, 0, rest[..h.length]))] else [])
      else Stop(Protocol, [])
  }

  /** Where the next data payload starts; after an error nothing is said about what is left. */
  datatype Next = Next(result: Result<Head, WsError>, rest: Bytes, replies: seq<Reply>)

  /** Skips control and empty frames up to the payload of the next data frame. */
  function NextFrame(client: bool, input: Bytes): (r: Next)
    ensures r.result.Ok? ==> |r.rest| < |input| && 0 < r.result.value.length
    decreases |input|
  {
    match OneFrame(client, input)
    case Stop(e, replies) => Next(Err(e), [], replies)
    case Payload(h, rest) => Next(Ok(h), rest, [])
    case Skip(rest, replies) =>
      var later := NextFrame(client, rest);
      later.(replies := replies + later.replies)
  }

  /** What one frame contributes to the search for the next payload. */
  lemma NextUnfolds(client: bool, input: Bytes)
    ensures var n := NextFrame(client, input);
            match OneFrame(client, input)
            case Stop(e, replies) => n.result == Err(e) && n.replies == replies
            case Payload(h, rest) => n == Next(Ok(h), rest, [])
            case Skip(rest, replies) =>
              var later := NextFrame(client, rest);
              n == later.(replies := replies + later.replies)
  {
    hide OneFrame;
  }

  /** A reader: what is left unread, and where it stands inside the current data frame. */
  datatype Reader = Reader(client: bool, input: Bytes, rem: nat, key: Option<MaskKey>, pos: nat)

  /**
   All the payload a reader will still hand out, and how it ends. Whether running out
   shows as EOF or as an unexpected EOF depends on how reads were sized, so the two are one.
   */
  datatype Stream = Stream(data: Bytes, end: Ending)

  datatype Ending = OutOfInput | Violation

  function EndingOf(e: WsError): Ending {
    if e == Eof || e == UnexpectedEof then OutOfInput else Violation
  }

  function StreamOf(r: Reader): Stream
    decreases |r.input|
  {
    if r.rem > 0 then
      if r.rem <= |r.input| then
        var later := StreamOf(r.(input := r.input[r.rem..], rem := 0));
        later.(data := MaskIf(r.key, r.pos, r.input[..r.rem]) + later.data)
      else Stream(MaskIf(r.key, r.pos, r.input), OutOfInput)
    else
      var next := NextFrame(r.client, r.input);
      match next.result
      case Err(e) => Stream([], EndingOf(e))
      case Ok(h) => StreamOf(Reader(r.client, next.rest, h.length, h.key, 0))
  }

  /** Between frames, the mask state left over from the last one does not matter. */
  lemma AtBoundary(r: Reader, s: Reader)
    requires r.client == s.client && r.input == s.input && r.rem == 0 == s.rem
    ensures StreamOf(r) == StreamOf(s)
  {
  }

  // ---- A stream cut short ----

  /** A header that decodes does so whatever follows it. */
  lemma HeadMore(client: bool, cut: Bytes, whole: Bytes)
    requires cut <= whole && ParseHead(client, cut).Ok?
    ensures ParseHead(client, whole) == ParseHead(client, cut)
  {
    hide Uint16, Uint64;
    assert cut[2..] <= whole[2..];
    var code := cut[1] % 0x80;
    LengthMore(code, cut[2..], whole[2..]);
    hide ParseLength;
    var ext := ParseLength(code, cut[2..]).value.1;
    assert cut[2 + ext..] <= whole[2 + ext..];
    assert |cut[2 + ext..]| >= 4 ==> cut[2 + ext..][..4] == whole[2 + ext..][..4];
  }

  lemma LengthMore(code: nat, cut: Bytes, whole: Bytes)
    requires code < 128 && cut <= whole && ParseLength(code, cut).Ok?
    ensures ParseLength(code, whole) == ParseLength(code, cut) && ParseLength(code, cut).value.1 <= |cut|
  {
    hide Uint16, Uint64;
    assert |cut| >= 2 ==> cut[..2] == whole[..2];
    assert |cut| >= 8 ==> cut[..8] == whole[..8];
  }

  lemma FrameMore(client: bool, cut: Bytes, whole: Bytes)
    requires cut <= whole && !OneFrame(client, cut).Stop?
    ensures var t, t' := OneFrame(client, cut), OneFrame(client, whole);
            !t'.Stop? && t.rest <= t'.rest && t' == t.(rest := t'.rest)
  {
    hide ParseHead;
    HeadMore(client, cut, whole);
    var (h, size) := ParseHead(client, cut).value;
    assert cut[size..] <= whole[size..];
    if h.length <= |cut[size..]| {
      assert cut[size..][..h.length] == whole[size..][..h.length];
      assert cut[size..][h.length..] <= whole[size..][h.length..];
    }
  }

  lemma {:induction false} NextMore(client: bool, cut: Bytes, whole: Bytes)
    requires cut <= whole && NextFrame(client, cut).result.Ok?
    ensures var n, n' := NextFrame(client, cut), NextFrame(client, whole);
            n'.result == n.result && n.rest <= n'.rest
    decreases |cut|
  {
    hide OneFrame;
    FrameMore(client, cut, whole);
    var t := OneFrame(client, cut);
    if t.Skip? {
      NextMore(client, t.rest, OneFrame(client, whole).rest);
    }
  }

  lemma MaskPrefix(key: Option<MaskKey>, pos: nat, cut: Bytes, whole: Bytes)
    requires cut <= whole
    ensures MaskIf(key, pos, cut) <= MaskIf(key, pos, whole)
  {
    hide MaskIf;
    MaskSplit(key, pos, whole, |cut|);
    assert whole[..|cut|] == cut;
  }

  /** A reader whose input is cut short anywhere hands out a prefix of what it would have. */
  lemma {:induction false} CutStream(r: Reader, whole: Bytes)
    requires r.input <= whole
    ensures StreamOf(r).data <= StreamOf(r.(input := whole)).data
    decreases |r.input|, r.rem
  {
    hide MaskIf, NextFrame;
    var s := r.(input := whole);
    if r.rem == 0 {
      var n := NextFrame(r.client, r.input);
      if n.result.Ok? {
        NextMore(r.client, r.input, whole);
        var h := n.result.value;
        CutStream(Reader(r.client, n.rest, h.length, h.key, 0), NextFrame(r.client, whole).rest);
      }
    } else if r.rem <= |r.input| {
      assert r.input[..r.rem] == whole[..r.rem] && r.input[r.rem..] <= whole[r.rem..];
      CutStream(r.(input := r.input[r.rem..], rem := 0), whole[r.rem..]);
    } else {
      MaskPrefix(r.key, r.pos, r.input, if r.rem <= |whole| then whole[..r.rem] else whole);
    }
  }

  // ---- One Read ----

  /** What a single Read hands out. After an error nothing is said about the reader. */
  datatype ReadResult = ReadResult(data: Bytes, err: Option<WsError>, reader: Reader)

  /** Takes up to `want` bytes of the current frame's payload. */
  function TakePayload(r: Reader, want: nat): ReadResult {
    var n := if want > r.rem then r.rem else want;
    if n <= |r.input| then
      ReadResult(MaskIf(r.key, r.pos, r.input[..n]), None,
                 r.(input := r.input[n..], rem := r.rem - n, pos := if r.key.Some? then r.pos + n else r.pos))
    else ReadResult(MaskIf(r.key, r.pos, r.input), Some(Short(|r.input|)), r)
  }

  function ReadSome(r: Reader, want: nat): ReadResult {
    if r.rem > 0 then TakePayload(r, want)
    else
      var next := NextFrame(r.client, r.input);
      match next.result
      case Err(e) => ReadResult([], Some(e), r)
      case Ok(h) => TakePayload(Reader(r.client, next.rest, h.length, h.key, 0), want)
  }

  lemma StreamWhole(r: Reader)
    requires 0 < r.rem <= |r.input|
    ensures var later := StreamOf(r.(input := r.input[r.rem..], rem := 0));
            StreamOf(r) == later.(data := MaskIf(r.key, r.pos, r.input[..r.rem]) + later.data)
  {
  }

  /** Where a stream stands after n bytes of the current payload, when the whole payload is there. */
  lemma SplitWhole(r: Reader, n: nat)
    requires 0 < r.rem <= |r.input| && n <= r.rem
    ensures var r' := TakePayload(r, n).reader;
            && StreamOf(r').end == StreamOf(r).end
            && MaskIf(r.key, r.pos, r.input[..n]) + StreamOf(r').data == StreamOf(r).data
  {
    hide StreamOf, MaskIf;
    var r' := TakePayload(r, n).reader;
    StreamWhole(r);
    var payload, after := r.input[..r.rem], r.(input := r.input[r.rem..], rem := 0);
    assert payload[..n] == r.input[..n] && payload[n..] == r'.input[..r'.rem];
    assert r'.input[r'.rem..] == after.input;
    var left, right := MaskIf(r.key, r.pos, r.input[..n]), MaskIf(r.key, r'.pos, payload[n..]);
    assert MaskIf(r.key, r.pos, payload) == left + right by {
      MaskSplit(r.key, r.pos, payload, n);
      PosMatters(r.key, r.pos + n, r'.pos, payload[n..]);
    }
    AtBoundary(r'.(input := after.input, rem := 0), after);
    assert StreamOf(r') == StreamOf(after).(data := right + StreamOf(after).data) by {
      if n == r.rem {
        assert r' == r'.(input := after.input, rem := 0);
      } else {
        StreamWhole(r');
      }
    }
    assert left + (right + StreamOf(after).data) == left + right + StreamOf(after).data;
  }

  /** The same when the input ends inside the payload. */
  lemma SplitTruncated(r: Reader, n: nat)
    requires |r.input| < r.rem && n <= |r.input|
    ensures var r' := TakePayload(r, n).reader;
            && StreamOf(r').end == StreamOf(r).end
            && MaskIf(r.key, r.pos, r.input[..n]) + StreamOf(r').data == StreamOf(r).data
  {
    hide NextFrame, MaskIf;
    MaskSplit(r.key, r.pos, r.input, n);
    PosMatters(r.key, r.pos + n, TakePayload(r, n).reader.pos, r.input[n..]);
  }

  lemma TakeIsPrefix(r: Reader, want: nat)
    requires r.rem > 0
    ensures var t, s := TakePayload(r, want), StreamOf(r);
            && (t.err.None? ==> StreamOf(t.reader).end == s.end && t.data + StreamOf(t.reader).data == s.data)
            && (t.err.Some? ==> t.data == s.data && EndingOf(t.err.value) == s.end)
  {
    hide NextFrame, MaskIf;
    var n := if want > r.rem then r.rem else want;
    if n <= |r.input| {
      hide StreamOf;
      if r.rem <= |r.input| {
        SplitWhole(r, n);
      } else {
        SplitTruncated(r, n);
      }
    }
  }

  lemma PosMatters(key: Option<MaskKey>, pos: nat, pos': nat, data: Bytes)
    requires key.Some? ==> pos == pos'
    ensures MaskIf(key, pos, data) == MaskIf(key, pos', data)
  {
  }

  /**
   However reads are sized, they hand out the stream in order: without an error a prefix
   of it, nonempty when something was asked for; with an error all that was left of it.
   */
  lemma ReadIsPrefix(r: Reader, want: nat)
    ensures var t, s := ReadSome(r, want), StreamOf(r);
            && (t.err.None? ==> StreamOf(t.reader).end == s.end && t.data + StreamOf(t.reader).data == s.data)
            && (t.err.None? && want > 0 ==> t.data != [] && |t.reader.input| < |r.input|)
            && (t.err.Some? && want > 0 ==> |t.data| < want)
            && (t.err.Some? ==> t.data == s.data && EndingOf(t.err.value) == s.end)
  {
    hide NextFrame, MaskIf;
    if r.rem > 0 {
      TakeIsPrefix(r, want);
    } else {
      var next := NextFrame(r.client, r.input);
      if next.result.Ok? {
        TakeIsPrefix(Reader(r.client, next.rest, next.result.value.length, next.result.value.key, 0), want);
      }
    }
  }

  // ---- Streams of frames ----

  /** What a writer puts on the wire: data, or a ping or pong between data frames. */
  datatype Item =
    | Data(key: Option<MaskKey>, payload: Bytes)
    | Ping(key: Option<MaskKey>, payload: Bytes)
    | PongItem(key: Option<MaskKey>, payload: Bytes)

  predicate ValidItem(client: bool, i: Item) {
    && (i.key.Some? <==> !client)
    && |i.payload| <= if i.Data? then MAX_PAYLOAD else MAX_CONTROL_PAYLOAD
  }

  predicate ValidItems(client: bool, items: seq<Item>) {
    forall k | 0 <= k < |items| :: ValidItem(client, items[k])
  }

  function OpcodeOf(i: Item): nat {
    match i
    case Data(_, _) => OP_BINARY
    case Ping(_, _) => OP_PING
    case PongItem(_, _) => OP_PONG
  }

  function EncodeItem(i: Item): Bytes
    requires |i.payload| <= MAX_PAYLOAD
  {
    EncodeFrame(i.key, OpcodeOf(i), i.payload)
  }

  /** The bytes a reader on side `client` is sent for a run of items. */
  function EncodeItems(client: bool, items: seq<Item>): Bytes
    requires ValidItems(client, items)
  {
    if items == [] then [] else EncodeItem(items[0]) + EncodeItems(client, items[1..])
  }

  function FreshReader(client: bool, input: Bytes): Reader {
    Reader(client, input, 0, None, 0)
  }

  /** A frame at the front of a stream: its header decodes, and its payload and the rest follow. */
  lemma FrameHead(client: bool, key: Option<MaskKey>, opcode: nat, payload: Bytes, tail: Bytes)
    requires opcode < 16 && |payload| <= MAX_PAYLOAD && (key.Some? <==> !client)
    ensures var size, input := |EncodeHead(key, opcode, |payload|)|, EncodeFrame(key, opcode, payload) + tail;
            && |input| >= size + |payload|
            && ParseHead(client, input) == Ok((Head(true, opcode, key, |payload|), size))
            && input[size..][..|payload|] == MaskIf(key, 0, payload) && input[size..][|payload|..] == tail
  {
    hide ParseHead, EncodeHead, MaskIf;
    var head, body := EncodeHead(key, opcode, |payload|), MaskIf(key, 0, payload);
    assert EncodeFrame(key, opcode, payload) + tail == head + (body + tail);
    ParseOfEncoded(client, key, opcode, |payload|, body + tail);
  }

  lemma ItemHead(client: bool, i: Item, tail: Bytes)
    requires ValidItem(client, i)
    ensures var size := |EncodeHead(i.key, OpcodeOf(i), |i.payload|)|;
            && |EncodeItem(i) + tail| >= size + |i.payload|
            && ParseHead(client, EncodeItem(i) + tail) == Ok((Head(true, OpcodeOf(i), i.key, |i.payload|), size))
            && (EncodeItem(i) + tail)[size..][..|i.payload|] == MaskIf(i.key, 0, i.payload)
            && (EncodeItem(i) + tail)[size..][|i.payload|..] == tail
  {
    hide ParseHead, EncodeHead, MaskIf, EncodeFrame;
    FrameHead(client, i.key, OpcodeOf(i), i.payload, tail);
  }

  lemma DataNext(client: bool, i: Item, tail: Bytes)
    requires ValidItem(client, i) && i.Data? && i.payload != []
    ensures var n := NextFrame(client, EncodeItem(i) + tail);
            && n.result == Ok(Head(true, OP_BINARY, i.key, |i.payload|)) && n.replies == []
            && |n.rest| >= |i.payload|
            && MaskIf(i.key, 0, n.rest[..|i.payload|]) == i.payload && n.rest[|i.payload|..] == tail
  {
    hide ParseHead, EncodeItem, EncodeHead, MaskIf;
    ItemHead(client, i, tail);
    MaskTwice(i.key, 0, i.payload);
  }

  lemma ControlNext(client: bool, i: Item, tail: Bytes)
    requires ValidItem(client, i) && (!i.Data? || i.payload == [])
    ensures var n, m := NextFrame(client, EncodeItem(i) + tail), NextFrame(client, tail);
            && n.result == m.result && n.rest == m.rest
            && n.replies == (if i.Ping? then [Pong(i.payload)] else []) + m.replies
  {
    hide ParseHead, EncodeItem, EncodeHead, MaskIf;
    ItemHead(client, i, tail);
    MaskTwice(i.key, 0, i.payload);
    var size := |EncodeHead(i.key, OpcodeOf(i), |i.payload|)|;
    assert i.payload == [] ==> (EncodeItem(i) + tail)[size..] == tail;
  }

  /** One frame at the front of a stream contributes its payload if it is data, and nothing otherwise. */
  lemma ItemFirst(client: bool, i: Item, tail: Bytes)
    requires ValidItem(client, i)
    ensures var s, later := StreamOf(FreshReader(client, EncodeItem(i) + tail)), StreamOf(FreshReader(client, tail));
            s == later.(data := (if i.Data? then i.payload else []) + later.data)
  {
    hide NextFrame, EncodeItem, MaskIf;
    var input := EncodeItem(i) + tail;
    if i.Data? && i.payload != [] {
      DataNext(client, i, tail);
      var r := Reader(client, NextFrame(client, input).rest, |i.payload|, i.key, 0);
      AtBoundary(r.(input := tail, rem := 0), FreshReader(client, tail));
    } else {
      ControlNext(client, i, tail);
      assert StreamOf(FreshReader(client, tail)).data == [] + StreamOf(FreshReader(client, tail)).data;
    }
  }

  // ---- Close frames ----

  /** A close frame, whatever it carries and whatever follows, is answered with one close and ends the reading. */
  lemma CloseNext(client: bool, key: Option<MaskKey>, payload: Bytes, tail: Bytes)
    requires |payload| <= MAX_PAYLOAD && (key.Some? <==> !client)
    ensures NextFrame(client, EncodeFrame(key, 0x8, payload) + tail) == Next(Err(Eof), [], [CloseBack])
  {
    hide ParseHead, EncodeFrame, EncodeHead, MaskIf;
    FrameHead(client, key, 0x8, payload, tail);
  }

  /** The payload bytes a run of items carries. */
  function Payloads(items: seq<Item>): Bytes {
    if items == [] then [] else (if items[0].Data? then items[0].payload else []) + Payloads(items[1..])
  }

  lemma {:induction false} ItemsThen(client: bool, items: seq<Item>, tail: Bytes)
    requires ValidItems(client, items)
    ensures var s, later := StreamOf(FreshReader(client, EncodeItems(client, items) + tail)),
                            StreamOf(FreshReader(client, tail));
            s == later.(data := Payloads(items) + later.data)
    decreases |items|
  {
    hide StreamOf, EncodeItem;
    var data := StreamOf(FreshReader(client, tail)).data;
    if items == [] {
      assert EncodeItems(client, items) + tail == tail && Payloads(items) + data == data;
    } else {
      var i, later := items[0], EncodeItems(client, items[1..]) + tail;
      assert EncodeItems(client, items) + tail == EncodeItem(i) + later;
      ItemFirst(client, i, later);
      ItemsThen(client, items[1..], tail);
      var first := if i.Data? then i.payload else [];
      assert first + (Payloads(items[1..]) + data) == first + Payloads(items[1..]) + data;
    }
  }

  /** Nothing after a close frame is ever handed out: the stream is what came before it. */
  lemma CloseEnds(client: bool, items: seq<Item>, key: Option<MaskKey>, payload: Bytes, tail: Bytes)
    requires ValidItems(client, items) && |payload| <= MAX_PAYLOAD && (key.Some? <==> !client)
    ensures StreamOf(FreshReader(client, EncodeItems(client, items) + (EncodeFrame(key, 0x8, payload) + tail)))
         == Stream(Payloads(items), OutOfInput)
  {
    CloseNext(client, key, payload, tail);
    var last := EncodeFrame(key, 0x8, payload) + tail;
    assert StreamOf(FreshReader(client, last)) == Stream([], OutOfInput);
    hide StreamOf, NextFrame, EncodeFrame, EncodeItems;
    ItemsThen(client, items, last);
  }

  // ---- What is refused, read off the bytes ----

  function FieldSize(code: nat): nat {
    if code == 126 then 2 else if code == 127 then 8 else 0
  }

  /** The length a header announces, once its length field is there. */
  function AnnouncedLength(input: Bytes): nat
    requires |input| >= 2 && |input| >= 2 + FieldSize(input[1] % 128)
  {
    if input[1] % 128 == 126 then Uint16(input[2..4])
    else if input[1] % 128 == 127 then Uint64(input[2..10])
    else input[1] % 128
  }

  function HeadSize(input: Bytes): nat
    requires |input| >= 2
  {
    2 + FieldSize(input[1] % 128) + if input[1] >= 128 then 4 else 0
  }

  /** One of the three bits below the highest is set. */
  predicate ReservedSet(first: byte) {
    first % 128 >= 16
  }

  /** Neither data nor a close frame, nor a ping or pong in one piece of at most 125 bytes. */
  predicate BadKind(first: byte, length: nat) {
    first % 16 !in {0, 2, 8, 9, 10} || (first % 16 in {9, 10} && (length > 125 || first < 128))
  }

  /**
   A reserved bit is set; or, as soon as the bytes that show it are there, the length is over
   the limit, the masking is wrong for the side that reads, or the kind is bad.
   */
  predicate Refused(client: bool, input: Bytes) {
    |input| >= 2 &&
    (|| ReservedSet(input[0])
     || (|input| >= 2 + FieldSize(input[1] % 128) &&
         (|| AnnouncedLength(input) > 0x10_0400
          || (input[1] >= 128 <==> client)
          || (|input| >= HeadSize(input) && BadKind(input[0], AnnouncedLength(input))))))
  }

  lemma ReservedBits(b: byte)
    ensures ReservedSet(b) <==> b / 16 % 8 != 0
  {
  }

  lemma LengthRead(input: Bytes)
    requires |input| >= 2
    ensures ParseLength(input[1] % 128, input[2..]) ==
              if |input| < 2 + FieldSize(input[1] % 128) then Err(Short(|input| - 2))
              else if input[1] % 128 == 127 && AnnouncedLength(input) > MAX_PAYLOAD then Err(Protocol)
              else Ok((AnnouncedLength(input), FieldSize(input[1] % 128)))
  {
    hide Uint16, Uint64;
    assert |input| >= 4 ==> input[2..][..2] == input[2..4];
    assert |input| >= 10 ==> input[2..][..8] == input[2..10];
  }

  lemma HeadRead(client: bool, input: Bytes)
    requires |input| >= 2
    ensures ParseHead(client, input) ==
              if ReservedSet(input[0]) then Err(Protocol)
              else if |input| < 2 + FieldSize(input[1] % 128) then Err(Short(|input| - 2))
              else if AnnouncedLength(input) > MAX_PAYLOAD || (input[1] >= 128 <==> client) then Err(Protocol)
              else if |input| < HeadSize(input) then Err(Short(|input| - 2 - FieldSize(input[1] % 128)))
              else
                Ok((Head(input[0] >= 128, input[0] % 16,
                         if input[1] >= 128 then Some(input[HeadSize(input) - 4..HeadSize(input)]) else None,
                         AnnouncedLength(input)), HeadSize(input)))
  {
    LengthRead(input);
    var size := FieldSize(input[1] % 128);
    ReservedBits(input[0]);
    hide ParseLength, AnnouncedLength, Short, FieldSize, ReservedSet;
    KeyBytes(input, size);
  }

  lemma KeyBytes(input: Bytes, size: nat)
    ensures |input| >= 6 + size ==> input[2 + size..][..4] == input[2 + size..6 + size]
  {
  }

  /** Exactly these bytes are refused as a violation of the protocol, with no reply. */
  lemma RefusedIff(client: bool, input: Bytes)
    ensures OneFrame(client, input) == Stop(Protocol, []) <==> Refused(client, input)
  {
    if |input| >= 2 {
      HeadRead(client, input);
    }
    hide ParseLength, AnnouncedLength, MaskIf;
  }

  /** Exactly the frames of kind 0 and 2 with a payload are handed out, and with all of it. */
  lemma DataIff(client: bool, input: Bytes)
    ensures OneFrame(client, input).Payload? <==>
              && |input| >= 2 && |input| >= HeadSize(input) && !Refused(client, input)
              && input[0] % 16 in {0, 2} && AnnouncedLength(input) > 0
    ensures OneFrame(client, input).Payload? ==>
              var t := OneFrame(client, input);
              && t.head.length == AnnouncedLength(input) && t.rest == input[HeadSize(input)..]
              && t.head.key == if client then None else Some(input[HeadSize(input) - 4..HeadSize(input)])
  {
    if |input| >= 2 {
      HeadRead(client, input);
    }
    hide ParseLength, AnnouncedLength, MaskIf;
  }

  /**
   A close, ping or pong whose payload is there is acted on; one whose payload is cut off only
   ends the reading, and is not answered.
   */
  lemma ControlRead(client: bool, input: Bytes)
    requires |input| >= 2 && |input| >= HeadSize(input) && !Refused(client, input) && input[0] % 16 in {8, 9, 10}
    ensures var n, rest := AnnouncedLength(input), input[HeadSize(input)..];
            var key := if client then None else Some(input[HeadSize(input) - 4..HeadSize(input)]);
            OneFrame(client, input) ==
              if |rest| < n then Stop(if rest == [] then Eof else UnexpectedEof, [])
              else if input[0] % 16 == 8 then Stop(Eof, [CloseBack])
              else Skip(rest[n..], if input[0] % 16 == 9 then [Pong(MaskIf(key, 0, rest[..n]))] else [])
  {
    HeadRead(client, input);
    hide ParseLength, AnnouncedLength, MaskIf;
  }

  /** What is refused hands out nothing and counts as a violation, not as an end. */
  lemma RefusedEnds(client: bool, input: Bytes)
    requires Refused(client, input)
    ensures StreamOf(FreshReader(client, input)) == Stream([], Violation)
  {
    RefusedIff(client, input);
    hide OneFrame, Refused;
  }

  /** Headers take the shortest of the three length forms. */
  lemma HeadLength(key: Option<MaskKey>, opcode: nat, n: uint64)
    requires opcode < 16
    ensures var head := EncodeHead(key, opcode, n);
            && |head| == (if n <= 125 then 2 else if n <= 65535 then 4 else 10) + (if key.Some? then 4 else 0)
            && head[0] == 0x80 + opcode
  {
    HeadShape(key, opcode, n);
    Widths();
    hide EncodeHead;
  }
}
