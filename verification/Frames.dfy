/** Session frames and chat payloads (internal/proto/frame.go). */
module Frames {
  import opened Words
  import opened Bytes

  const PROTOCOL_VERSION: byte := 1
  const TYPE_CHAT: byte := 1
  const TYPE_PING: byte := 2
  const TYPE_PONG: byte := 3
  const TYPE_CLOSE: byte := 4
  const TYPE_PAIR_CONFIRM: byte := 5

  const HEADER_SIZE := 22
  const MAX_PLAINTEXT := 4096
  const MAX_FRAME := HEADER_SIZE + MAX_PLAINTEXT + 64

  datatype ProtoError = Malformed | Auth | Replay | BadSession | BadEpoch | Closed | TooLarge

  datatype Frame = Frame(typ: byte, session: uint64, sequence: uint64, rotation: uint32, blob: Bytes)

  predicate KnownType(typ: byte) {
    typ in {TYPE_CHAT, TYPE_PING, TYPE_PONG, TYPE_CLOSE, TYPE_PAIR_CONFIRM}
  }

  /** The 22-byte header, which is also the authenticated data. */
  function Header(f: Frame): (h: Bytes)
    ensures |h| == HEADER_SIZE
  {
    [PROTOCOL_VERSION, f.typ] + BE64(f.session) + BE64(f.sequence) + BE32(f.rotation)
  }

  function Marshal(f: Frame): Bytes {
    Header(f) + f.blob
  }

  function Parse(buf: Bytes): Result<Frame, ProtoError> {
    if |buf| < HEADER_SIZE then Err(Malformed)
    else if |buf| > MAX_FRAME then Err(Malformed)
    else if buf[0] != PROTOCOL_VERSION then Err(Malformed)
    else if !KnownType(buf[1]) then Err(Malformed)
    else Ok(Frame(buf[1], Uint64(buf[2..10]), Uint64(buf[10..18]), Uint32(buf[18..22]), buf[HEADER_SIZE..]))
  }

  lemma HeaderIgnoresBlob(f: Frame, blob: Bytes)
    ensures Header(f.(blob := blob)) == Header(f)
  {
  }

  lemma MarshalParts(f: Frame)
    ensures |Marshal(f)| == HEADER_SIZE + |f.blob|
    ensures Marshal(f)[..HEADER_SIZE] == Header(f) && Marshal(f)[HEADER_SIZE..] == f.blob
  {
  }

  lemma HeaderFields(f: Frame)
    ensures var h := Header(f);
            && h[0] == PROTOCOL_VERSION && h[1] == f.typ
            && h[2..10] == BE64(f.session) && h[10..18] == BE64(f.sequence) && h[18..22] == BE32(f.rotation)
  {
  }

  /** A header determines every field but the blob. */
  lemma HeaderInjective(f: Frame, g: Frame)
    requires Header(f) == Header(g)
    ensures f.(blob := g.blob) == g
  {
    HeaderFields(f);
    HeaderFields(g);
    Widths();
    BigEndianInjective(f.session, g.session, 8);
    BigEndianInjective(f.sequence, g.sequence, 8);
    BigEndianInjective(f.rotation, g.rotation, 4);
  }

  /** Parsing accepts exactly the marshalled frames of a known type that fit, and recovers them. */
  lemma ParseOfMarshal(f: Frame)
    ensures Parse(Marshal(f)) == if 1 <= f.typ <= 5 && |f.blob| <= 4160 then Ok(f) else Err(Malformed)
    ensures 1 <= f.typ <= 5 <==> KnownType(f.typ)
  {
    var buf, h := Marshal(f), Header(f);
    HeaderFields(f);
    assert buf[2..10] == h[2..10] && buf[10..18] == h[10..18] && buf[18..22] == h[18..22];
    assert buf[HEADER_SIZE..] == f.blob;
    RoundTrip64(f.session);
    RoundTrip64(f.sequence);
    RoundTrip32(f.rotation);
  }

  lemma ParseErrors(buf: Bytes)
    ensures Parse(buf).Err? ==> Parse(buf).error == Malformed
  {
  }

  /** Parsing accepts nothing but what marshalling its result gives back. */
  lemma MarshalOfParse(buf: Bytes)
    requires Parse(buf).Ok?
    ensures Marshal(Parse(buf).value) == buf
    ensures 1 <= Parse(buf).value.typ <= 5
  {
    var f := Parse(buf).value;
    BigEndianOfValue(buf[2..10]);
    BigEndianOfValue(buf[10..18]);
    BigEndianOfValue(buf[18..22]);
    assert buf == buf[..2] + buf[2..10] + buf[10..18] + buf[18..22] + buf[22..];
    assert buf[..2] == [PROTOCOL_VERSION, f.typ];
  }

  // ---- Chat payloads ----

  /** The text's length, cut to 16 bits, and the text. */
  function EncodeChat(text: Bytes): Bytes {
    BE16(|text| % 0x1_0000) + text
  }

  function DecodeChat(b: Bytes): Result<Bytes, ProtoError> {
    if |b| < 2 then Err(Malformed)
    else
      var n := Uint16(b[..2]);
      if |b| - 2 < n then Err(Malformed) else Ok(b[2..2 + n])
  }

  /** A chat text survives encoding exactly when its length fits the 16-bit prefix. */
  lemma ChatRoundTrip(text: Bytes)
    ensures DecodeChat(EncodeChat(text)) == Ok(text) <==> |text| < 0x1_0000
  {
    var n, b := |text| % 0x1_0000, EncodeChat(text);
    assert b[..2] == BE16(n);
    assert b[2..2 + n] == text[..n];
    assert n == |text| ==> text[..n] == text;
    RoundTrip16(n);
  }

  lemma DecodedIsPrefix(b: Bytes)
    requires DecodeChat(b).Ok?
    ensures |DecodeChat(b).value| < 0x1_0000 && EncodeChat(DecodeChat(b).value) <= b
  {
    var n := Uint16(b[..2]);
    assert BE16(n) == b[..2] by {
      BigEndianOfValue(b[..2]);
    }
    hide BE16, Uint16;
    assert b[..2 + n] == b[..2] + b[2..2 + n];
  }

  lemma PrefixDecodes(b: Bytes, text: Bytes)
    requires |text| < 0x1_0000 && EncodeChat(text) <= b
    ensures DecodeChat(b) == Ok(text)
  {
    RoundTrip16(|text|);
    hide BE16, Uint16;
    assert b[..2] == EncodeChat(text)[..2] == BE16(|text|);
    assert b[2..2 + |text|] == EncodeChat(text)[2..] == text;
  }

  /** A payload decodes to a text exactly when it starts with that text encoded; what follows is ignored. */
  lemma ChatPrefix(b: Bytes, text: Bytes)
    ensures DecodeChat(b) == Ok(text) <==> |text| < 0x1_0000 && EncodeChat(text) <= b
  {
    hide DecodeChat, EncodeChat;
    if DecodeChat(b) == Ok(text) {
      DecodedIsPrefix(b);
    }
    if |text| < 0x1_0000 && EncodeChat(text) <= b {
      PrefixDecodes(b, text);
    }
  }
}
