/**
 A WebSocket connection (internal/rendezvous/ws.go). The network is two byte strings:
 what is still to be read, and what has been written. Writes do not fail.
 */
module WsConn {
  import opened Words
  import opened Bytes
  import opened Codec = WsCodec

  const MAX_CONTROL_FRAME := 0x2000

  type Random = nat -> MaskKey

  /** The key of a connection's n-th frame; servers do not mask. */
  function KeyAt(client: bool, random: Random, n: nat): Option<MaskKey> {
    if client then Some(random(n)) else None
  }

  /** Control payloads are cut to the RFC's limit. */
  function Clip(payload: Bytes): (r: Bytes)
    ensures |r| <= MAX_CONTROL_PAYLOAD
  {
    if |payload| > MAX_CONTROL_PAYLOAD then payload[..MAX_CONTROL_PAYLOAD] else payload
  }

  function EncodeReply(key: Option<MaskKey>, reply: Reply): Bytes {
    match reply
    case Pong(payload) => EncodeFrame(key, OP_PONG, Clip(payload))
    case CloseBack => EncodeFrame(key, OP_CLOSE, [])
  }

  /** The frames that answer a run of control frames, each under its own key. */
  function EncodeReplies(client: bool, random: Random, n: nat, rs: seq<Reply>): Bytes {
    if rs == [] then []
    else EncodeReplies(client, random, n, rs[..|rs| - 1]) + EncodeReply(KeyAt(client, random, n + |rs| - 1),
                                                                        rs[|rs| - 1])
  }

  lemma {:induction false} RepliesAppend(client: bool, random: Random, n: nat, rs: seq<Reply>, ss: seq<Reply>)
    ensures EncodeReplies(client, random, n, rs + ss)
         == EncodeReplies(client, random, n, rs) + EncodeReplies(client, random, n + |rs|, ss)
  {
    hide EncodeReply, KeyAt;
    if ss == [] {
      assert rs + ss == rs;
    } else {
      RepliesAppend(client, random, n, rs, ss[..|ss| - 1]);
      assert (rs + ss)[..|rs + ss| - 1] == rs + ss[..|ss| - 1];
      assert n + |rs + ss| - 1 == n + |rs| + |ss| - 1;
    }
  }

  /** What reading a close frame makes one side write makes the other side stop in turn. */
  lemma CloseAnswered(client: bool, random: Random, n: nat, key: Option<MaskKey>, payload: Bytes, tail: Bytes,
                      tail': Bytes)
    requires |payload| <= MAX_PAYLOAD && (key.Some? <==> !client)
    ensures var replies := Codec.NextFrame(client, EncodeFrame(key, 0x8, payload) + tail).replies;
            Codec.NextFrame(!client, EncodeReplies(client, random, n, replies) + tail') ==
              Next(Err(Eof), [], [CloseBack])
  {
    CloseNext(client, key, payload, tail);
    hide Codec.NextFrame;
    var rs := [CloseBack];
    assert rs[..0] == [];
    assert EncodeReplies(client, random, n, rs) == EncodeFrame(KeyAt(client, random, n), 0x8, []);
    CloseNext(!client, KeyAt(client, random, n), [], tail');
  }

  /** A ping is answered by a pong of the same payload, which the other side passes over without a reply. */
  lemma PingAnswered(client: bool, random: Random, n: nat, i: Item, tail: Bytes, tail': Bytes)
    requires ValidItem(client, i) && i.Ping?
    ensures var replies := Codec.NextFrame(client, EncodeItem(i) + tail).replies;
            replies == [Pong(i.payload)] + Codec.NextFrame(client, tail).replies
    ensures EncodeReplies(client, random, n, [Pong(i.payload)]) == EncodeFrame(KeyAt(client, random, n), 0xA, i.payload)
    ensures var next := Codec.NextFrame(!client, EncodeReplies(client, random, n, [Pong(i.payload)]) + tail');
            next == Codec.NextFrame(!client, tail')
  {
    hide Codec.NextFrame;
    ControlNext(client, i, tail);
    var rs := [Pong(i.payload)];
    assert rs[..0] == [];
    var pong := PongItem(KeyAt(client, random, n), i.payload);
    assert EncodeReplies(client, random, n, rs) == EncodeItem(pong);
    ControlNext(!client, pong, tail');
  }

  // ---- Control messages ----

  /** One RecvMessage: a single bounded read that must exhaust its frame. */
  function RecvOne(r: Reader): Result<Bytes, WsError> {
    var t := ReadSome(r, MAX_CONTROL_FRAME);
    match t.err
    case Some(e) => Err(e)
    case None => if t.reader.rem > 0 then Err(ControlTooLarge) else Ok(t.data)
  }

  /** The messages in a run of frames. */
  function Messages(items: seq<Item>): seq<Bytes> {
    if items == [] then [] else (if items[0].Data? then [items[0].payload] else []) + Messages(items[1..])
  }

  /** Encoded messages are never empty and never over the control limit. */
  predicate MessageItems(items: seq<Item>) {
    forall k | 0 <= k < |items| :: items[k].Data? ==> 0 < |items[k].payload| <= MAX_CONTROL_FRAME
  }

  /** Receives k messages in a row. */
  function RecvMany(r: Reader, k: nat): Result<seq<Bytes>, WsError>
    decreases k
  {
    if k == 0 then Ok([])
    else match RecvOne(r)
      case Err(e) => Err(e)
      case Ok(m) =>
        match RecvMany(ReadSome(r, MAX_CONTROL_FRAME).reader, k - 1)
        case Err(e) => Err(e)
        case Ok(ms) => Ok([m] + ms)
  }

  /** A message is returned whole by one RecvMessage, which leaves the stream at the next frame. */
  lemma OneMessage(r: Reader, i: Item, tail: Bytes)
    requires r.rem == 0 && ValidItem(r.client, i) && i.Data? && 0 < |i.payload| <= MAX_CONTROL_FRAME
    requires r.input == EncodeItem(i) + tail
    ensures RecvOne(r) == Ok(i.payload)
    ensures var r' := ReadSome(r, MAX_CONTROL_FRAME).reader;
            r'.client == r.client && r'.rem == 0 && r'.input == tail
  {
    hide Codec.NextFrame, EncodeItem, MaskIf;
    DataNext(r.client, i, tail);
  }

  lemma {:induction false} SkipsControl(r: Reader, r': Reader, i: Item)
    requires r.client == r'.client && r.rem == 0 == r'.rem && ValidItem(r.client, i) && !i.Data?
    requires r.input == EncodeItem(i) + r'.input
    ensures RecvOne(r) == RecvOne(r')
    ensures RecvOne(r).Ok? ==> ReadSome(r, MAX_CONTROL_FRAME).reader == ReadSome(r', MAX_CONTROL_FRAME).reader
  {
    hide Codec.NextFrame, EncodeItem, MaskIf;
    ControlNext(r.client, i, r'.input);
  }

  /** Every message sent is returned whole by exactly one RecvMessage, in order, with pings and pongs in between. */
  lemma {:induction false} MessagesReceived(r: Reader, items: seq<Item>, tail: Bytes)
    requires r.rem == 0 && ValidItems(r.client, items) && MessageItems(items)
    requires r.input == EncodeItems(r.client, items) + tail
    ensures RecvMany(r, |Messages(items)|) == Ok(Messages(items))
    decreases |items|
  {
    hide RecvOne, ReadSome, EncodeItem;
    if items == [] {
    } else {
      var i, later := items[0], EncodeItems(r.client, items[1..]) + tail;
      assert r.input == EncodeItem(i) + later;
      if i.Data? {
        OneMessage(r, i, later);
        MessagesReceived(ReadSome(r, MAX_CONTROL_FRAME).reader, items[1..], tail);
        assert Messages(items) == [i.payload] + Messages(items[1..]);
      } else {
        var r' := r.(input := later);
        SkipsControl(r, r', i);
        MessagesReceived(r', items[1..], tail);
        assert Messages(items) == Messages(items[1..]);
      }
    }
  }

  /** Applies a key byte by byte, into a copy. */
  method MaskedCopy(key: MaskKey, data: Bytes) returns (r: Bytes)
    ensures r == Mask(key, 0, data)
  {
    var copy := new byte[|data|];
    for i := 0 to |data|
      invariant forall k | 0 <= k < i :: copy[k] == Xor(data[k], key[k % 4])
    {
      copy[i] := Xor(data[i], key[i % 4]);
    }
    r := copy[..];
  }

  class WSConn {
    const mask: bool
    const random: Random
    /** How many frames this side has written. */
    var written: nat
    var input: Bytes
    var output: Bytes
    var rem: nat
    var rmask: MaskKey
    var rmasked: bool
    var rmaskPos: nat
    /** The closing frame has gone out. */
    var closing: bool

    ghost function View(): Reader
      reads this
    {
      Reader(mask, input, rem, if rmasked then Some(rmask) else None, rmaskPos)
    }

    ghost function Left(): Stream
      reads this
    {
      StreamOf(View())
    }

    constructor (client: bool, random: Random, input: Bytes)
      ensures mask == client && this.random == random && written == 0 && output == []
      ensures View() == FreshReader(client, input) && !closing
    {
      mask, this.random, written := client, random, 0;
      this.input, output := input, [];
      rem, rmask, rmasked, rmaskPos := 0, [0, 0, 0, 0], false, 0;
      closing := false;
    }

    // ---- Writing ----

    /** Writes one whole frame, masked under a fresh key on the client side. */
    method WriteFrame(opcode: nat, payload: Bytes)
      requires opcode < 16 && |payload| < TWO_64
      modifies this`output, this`written
      ensures output == old(output) + EncodeFrame(KeyAt(mask, random, old(written)), opcode, payload)
      ensures written == old(written) + 1
    {
      var n := |payload|;
      var b0 := 0x80 + opcode;
      var head: Bytes;
      if n < 126 {
        head := [b0, n];
      } else if n <= 0xFFFF {
        head := [b0, 126] + BE16(n);
      } else {
        head := [b0, 127] + BE64(n);
      }
      var body := payload;
      if mask {
        var key := random(written);
        head := head[1 := head[1] + 0x80] + key;
        body := MaskedCopy(key, payload);
      }
      assert head == EncodeHead(KeyAt(mask, random, old(written)), opcode, n);
      output := output + (head + body);
      written := written + 1;
    }

    /** Sends p as a single binary frame, refusing what is over the limit. */
    method Write(p: Bytes) returns (ok: bool)
      modifies this`output, this`written
      ensures ok <==> |p| <= 0x10_0400
      ensures !ok ==> output == old(output) && written == old(written)
      ensures ok ==> output == old(output) + EncodeFrame(KeyAt(mask, random, old(written)), OP_BINARY, p)
      ensures ok ==> written == old(written) + 1
    {
      if |p| > MAX_PAYLOAD {
        return false;
      }
      WriteFrame(OP_BINARY, p);
      return true;
    }

    method WriteControl(opcode: nat, payload: Bytes)
      requires opcode < 16
      modifies this`output, this`written
      ensures var sent := if |payload| <= 125 then payload else payload[..125];
              output == old(output) + EncodeFrame(KeyAt(mask, random, old(written)), opcode, sent)
      ensures written == old(written) + 1
    {
      var sent := payload;
      if |sent| > MAX_CONTROL_PAYLOAD {
        sent := sent[..MAX_CONTROL_PAYLOAD];
      }
      WriteFrame(opcode, sent);
    }

    /** Says goodbye, once: a close frame with the code 1000. */
    method Close()
      modifies this`output, this`written, this`closing
      ensures closing
      ensures old(closing) ==> output == old(output) && written == old(written)
      ensures !old(closing) ==>
                && output == old(output) + EncodeFrame(KeyAt(mask, random, old(written)), 0x8, [0x03, 0xE8])
                && written == old(written) + 1
    {
      if !closing {
        closing := true;
        WriteControl(OP_CLOSE, [0x03, 0xE8]);
      }
    }

    // ---- Reading ----

    /** Takes n bytes off the connection, or all there are. */
    method ReadFull(n: nat) returns (b: Bytes, err: Option<WsError>)
      modifies this`input
      ensures n <= |old(input)| ==> b == old(input)[..n] && input == old(input)[n..] && err == None
      ensures n > |old(input)| ==> b == old(input) && input == [] && err == Some(Short(|old(input)|))
    {
      if n <= |input| {
        b, input, err := input[..n], input[n..], None;
      } else {
        b, input, err := input, [], Some(Short(|input|));
      }
    }

    /** Reads one frame header, step by step as it arrives. */
    method ReadHead() returns (r: Result<Head, WsError>)
      modifies this`input
      ensures var p := ParseHead(mask, old(input));
              && (r.Ok? ==> p.Ok? && r.value == p.value.0 && input == old(input)[p.value.1..])
              && (r.Err? ==> p.Err? && r.error == p.error)
    {
      var hdr, err := ReadFull(2);
      if err.Some? {
        return Err(err.value);
      }
      var fin := hdr[0] >= 0x80;
      if hdr[0] / 16 % 8 != 0 {
        return Err(Protocol);
      }
      var opcode, masked, length := hdr[0] % 16, hdr[1] >= 0x80, hdr[1] % 0x80;
      var ext: Bytes := [];
      if length == 126 {
        ext, err := ReadFull(2);
        if err.Some? {
          return Err(err.value);
        }
        length := Uint16(ext);
      } else if length == 127 {
        ext, err := ReadFull(8);
        if err.Some? {
          return Err(err.value);
        }
        var v := Uint64(ext);
        if v > MAX_PAYLOAD {
          return Err(Protocol);
        }
        length := v;
      }
      if length > MAX_PAYLOAD {
        return Err(Protocol);
      }
      if !mask && !masked {
        return Err(Protocol);
      }
      if mask && masked {
        return Err(Protocol);
      }
      var key: Option<MaskKey> := None;
      if masked {
        var k;
        k, err := ReadFull(4);
        if err.Some? {
          return Err(err.value);
        }
        key := Some(k);
      }
      return Ok(Head(fin, opcode, key, length));
    }

    /** Reads and unmasks a control payload. */
    method ReadPayload(length: nat, key: Option<MaskKey>) returns (r: Result<Bytes, WsError>)
      modifies this`input
      ensures length <= |old(input)| ==> r == Ok(MaskIf(key, 0, old(input)[..length])) && input == old(input)[length..]
      ensures length > |old(input)| ==> r == Err(Short(|old(input)|))
    {
      if length == 0 {
        return Ok([]);
      }
      var buf, err := ReadFull(length);
      if err.Some? {
        return Err(err.value);
      }
      if key.Some? {
        var plain := MaskedCopy(key.value, buf);
        return Ok(plain);
      }
      return Ok(buf);
    }

    /** The replies have gone out and nothing else has. */
    twostate predicate Answered(replies: seq<Reply>)
      reads this
    {
      && output == old(output) + EncodeReplies(mask, random, old(written), replies)
      && written == old(written) + |replies|
    }

    /** One turn of the frame loop: reads a frame and answers or installs it. */
    method OneFrame() returns (done: bool, err: Option<WsError>)
      requires rem == 0
      modifies this
      ensures var t := Codec.OneFrame(mask, old(input));
              match t
              case Stop(e, replies) => done && err == Some(e) && Answered(replies)
              case Payload(h, rest) => done && err == None && View() == Reader(mask, rest, h.length, h.key, 0)
                && Answered([])
              case Skip(rest, replies) => !done && err == None && rem == 0 && input == rest && Answered(replies)
    {
      hide ParseHead, EncodeFrame, MaskIf, EncodeReplies;
      NoReplies(written);
      var r := ReadHead();
      if r.Err? {
        return true, Some(r.error);
      }
      var h := r.value;
      if h.opcode == OP_BINARY || h.opcode == OP_CONTINUATION {
        rem, rmasked, rmaskPos := h.length, h.key.Some?, 0;
        if h.key.Some? {
          rmask := h.key.value;
        }
        return h.length != 0, None;
      }
      if h.opcode != OP_CLOSE && h.opcode != OP_PING && h.opcode != OP_PONG {
        return true, Some(Protocol);
      }
      if h.opcode != OP_CLOSE && (h.length > MAX_CONTROL_PAYLOAD || !h.fin) {
        return true, Some(Protocol);
      }
      var p := ReadPayload(h.length, h.key);
      if p.Err? {
        return true, Some(p.error);
      }
      if h.opcode == OP_CLOSE {
        WriteControl(OP_CLOSE, []);
        OneReply(old(written), CloseBack);
        return true, Some(Eof);
      }
      if h.opcode == OP_PING {
        WriteControl(OP_PONG, p.value);
        OneReply(old(written), Pong(p.value));
      }
      return false, None;
    }

    lemma OneReply(n: nat, reply: Reply)
      ensures EncodeReplies(mask, random, n, [reply]) == EncodeReply(KeyAt(mask, random, n), reply)
    {
      assert [reply][..0] == [];
    }

    /** Advances to the next data frame, answering control frames on the way; ends on any finite input. */
    method NextFrame() returns (err: Option<WsError>)
      requires rem == 0
      modifies this
      ensures var n := Codec.NextFrame(mask, old(input));
              && (err.None? ==>
                        && n.result.Ok?
                        && View() == Reader(mask, n.rest, n.result.value.length, n.result.value.key, 0))
              && (err.Some? ==> n.result == Err(err.value))
              && Answered(n.replies)
    {
      hide Codec.OneFrame, Codec.NextFrame, EncodeReply, EncodeReplies;
      ghost var sent: seq<Reply> := [];
      ghost var whole := Codec.NextFrame(mask, input);
      NoReplies(written);
      while true
        invariant rem == 0
        invariant var ahead := Codec.NextFrame(mask, input);
                  whole == ahead.(replies := sent + ahead.replies)
        invariant Answered(sent)
        decreases |input|
      {
        ghost var turn := Codec.OneFrame(mask, input);
        ghost var replies := if turn.Payload? then [] else turn.replies;
        RepliesAppend(mask, random, old(written), sent, replies);
        NextUnfolds(mask, input);
        var done;
        done, err := OneFrame();
        sent := sent + replies;
        if done {
          return;
        }
      }
    }

    lemma NoReplies(n: nat)
      ensures EncodeReplies(mask, random, n, []) == []
    {
    }

    /** Fills p from index `from` on with payload bytes, unmasking them in place. */
    method Read(p: array<byte>, from: nat) returns (n: nat, err: Option<WsError>)
      requires from <= p.Length
      modifies this, p
      ensures var t := ReadSome(old(View()), p.Length - from);
              && n == |t.data| <= p.Length - from && err == t.err
              && p[from..from + n] == t.data
              && (err.None? ==> View() == t.reader)
      ensures forall k | 0 <= k < p.Length && !(from <= k < from + n) :: p[k] == old(p[k])
      ensures Answered(if old(rem) > 0 then [] else Codec.NextFrame(mask, old(input)).replies)
    {
      hide Codec.NextFrame, EncodeReplies, TakePayload;
      NoReplies(written);
      if rem == 0 {
        err := NextFrame();
        if err.Some? {
          return 0, err;
        }
      }
      n, err := TakeSome(p, from);
    }

    /** Takes what it can of the current frame's payload. */
    method TakeSome(p: array<byte>, from: nat) returns (n: nat, err: Option<WsError>)
      requires from <= p.Length && rem > 0
      modifies this`input, this`rem, this`rmaskPos, p
      ensures var t := TakePayload(old(View()), p.Length - from);
              && n == |t.data| <= p.Length - from && err == t.err
              && p[from..from + n] == t.data
              && (err.None? ==> View() == t.reader)
      ensures forall k | 0 <= k < p.Length && !(from <= k < from + n) :: p[k] == old(p[k])
    {
      hide MaskIf;
      var want := p.Length - from;
      if want > rem {
        want := rem;
      }
      var got;
      got, err := ReadFull(want);
      n := |got|;
      Unmask(p, from, got);
      rem := rem - n;
    }

    /** Puts received bytes into p and, if the frame is masked, unmasks them there. */
    method Unmask(p: array<byte>, from: nat, got: Bytes)
      requires from + |got| <= p.Length
      modifies this`rmaskPos, p
      ensures p[from..from + |got|] == MaskIf(View().key, old(rmaskPos), got)
      ensures forall k | 0 <= k < p.Length && !(from <= k < from + |got|) :: p[k] == old(p[k])
      ensures rmaskPos == if rmasked then old(rmaskPos) + |got| else old(rmaskPos)
    {
      for i := 0 to |got|
        invariant rmaskPos == old(rmaskPos)
        invariant forall k | 0 <= k < i :: p[from + k] == got[k]
        invariant forall k | 0 <= k < p.Length && !(from <= k < from + i) :: p[k] == old(p[k])
      {
        p[from + i] := got[i];
      }
      if rmasked {
        ghost var plain := Mask(rmask, rmaskPos, got);
        for i := 0 to |got|
          invariant rmaskPos == old(rmaskPos) + i
          invariant forall k | 0 <= k < i :: p[from + k] == plain[k]
          invariant forall k | i <= k < |got| :: p[from + k] == got[k]
          invariant forall k | 0 <= k < p.Length && !(from <= k < from + |got|) :: p[k] == old(p[k])
        {
          p[from + i] := Xor(p[from + i], rmask[rmaskPos % 4]);
          rmaskPos := rmaskPos + 1;
        }
      }
    }

    /** Sends one encoded control message as a binary frame, or refuses it whole. */
    method SendMessage(message: Bytes) returns (ok: bool)
      modifies this`output, this`written
      ensures ok <==> |message| <= 8192
      ensures ok ==> output == old(output) + EncodeFrame(KeyAt(mask, random, old(written)), OP_BINARY, message)
      ensures ok ==> written == old(written) + 1
      ensures !ok ==> output == old(output) && written == old(written)
    {
      if |message| > MAX_CONTROL_FRAME {
        return false;
      }
      WriteFrame(OP_BINARY, message);
      return true;
    }

    /** Receives one control message with a single bounded read. */
    method RecvMessage() returns (r: Result<Bytes, WsError>)
      modifies this
      ensures r == RecvOne(old(View()))
      ensures r.Ok? ==> View() == ReadSome(old(View()), MAX_CONTROL_FRAME).reader && rem == 0
    {
      hide ReadSome, EncodeReplies;
      var buf := new byte[MAX_CONTROL_FRAME];
      var n, err := Read(buf, 0);
      if err.Some? {
        return Err(err.value);
      }
      var residue := rem;
      if residue > 0 {
        return Err(ControlTooLarge);
      }
      return Ok(buf[..n]);
    }
  }
}
