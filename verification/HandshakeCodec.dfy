/** Handshake messages as byte strings (internal/proto/handshake.go). */
module HandshakeCodec {
  import opened Words
  import opened Bytes

  const HS_TYPE_INIT: byte := 1
  const HS_TYPE_AUTH: byte := 2
  const MAX_HS_SIZE := 4096
  const MAX_PEER_NAME := 64

  datatype HsError = BadMessage | BadSignature | SelfConnection | AlreadyDone

  // ---- msg1: type, length, ephemeral key ----

  function MarshalInit(eph: Bytes): Bytes {
    [HS_TYPE_INIT] + BE16(|eph| % 0x1_0000) + eph
  }

  function ParseInit(msg: Bytes): Result<Bytes, HsError> {
    if |msg| < 3 || msg[0] != HS_TYPE_INIT then Err(BadMessage)
    else
      var n := Uint16(msg[1..3]);
      if n != 32 || |msg| != 3 + n then Err(BadMessage) else Ok(msg[3..])
  }

  /** A key survives exactly when it is 32 bytes long. */
  lemma InitRoundTrip(eph: Bytes)
    ensures ParseInit(MarshalInit(eph)) == if |eph| == 32 then Ok(eph) else Err(BadMessage)
  {
    var msg := MarshalInit(eph);
    RoundTrip16(|eph| % 0x1_0000);
    assert msg[1..3] == BE16(|eph| % 0x1_0000);
    assert msg[3..] == eph;
  }

  lemma InitExact(msg: Bytes)
    requires ParseInit(msg).Ok?
    ensures |ParseInit(msg).value| == 32 && MarshalInit(ParseInit(msg).value) == msg
  {
    BigEndianOfValue(msg[1..3]);
    assert msg == [msg[0]] + msg[1..3] + msg[3..];
  }

  // ---- msg2 and msg3: type, ephemeral key, length, sealed blob ----

  function MarshalAuth(eph: Bytes, blob: Bytes): Bytes {
    [HS_TYPE_AUTH] + eph + BE32(|blob| % TWO_32) + blob
  }

  function ParseAuth(msg: Bytes): Result<(Bytes, Bytes), HsError> {
    if |msg| < 37 || msg[0] != HS_TYPE_AUTH then Err(BadMessage)
    else
      var n := Uint32(msg[33..37]);
      if n <= 0 || |msg| != 37 + n then Err(BadMessage) else Ok((msg[1..33], msg[37..]))
  }

  lemma AuthRoundTrip(eph: Bytes, blob: Bytes)
    requires |eph| == 32
    ensures ParseAuth(MarshalAuth(eph, blob)) == if 0 < |blob| < TWO_32 then Ok((eph, blob)) else Err(BadMessage)
  {
    var msg := MarshalAuth(eph, blob);
    RoundTrip32(|blob| % TWO_32);
    assert msg[1..33] == eph && msg[33..37] == BE32(|blob| % TWO_32) && msg[37..] == blob;
  }

  lemma AuthExact(msg: Bytes)
    requires ParseAuth(msg).Ok?
    ensures var (eph, blob) := ParseAuth(msg).value;
            |eph| == 32 && |blob| > 0 && MarshalAuth(eph, blob) == msg
  {
    BigEndianOfValue(msg[33..37]);
    assert msg == [msg[0]] + msg[1..33] + msg[33..37] + msg[37..];
  }

  // ---- The sealed part: identity key, name, signature ----

  datatype AuthPlain = AuthPlain(publicKey: Bytes, name: Bytes, signature: Bytes)

  predicate ValidName(name: Bytes) {
    0 < |name| <= MAX_PEER_NAME
  }

  function MarshalAuthPlain(a: AuthPlain): Bytes {
    a.publicKey + BE16(|a.name| % 0x1_0000) + a.name + a.signature
  }

  function ParseAuthPlain(b: Bytes): Result<AuthPlain, HsError> {
    if |b| < 32 + 2 + 64 then Err(BadMessage)
    else
      var n := Uint16(b[32..34]);
      if n <= 0 || n > MAX_PEER_NAME || |b| != 34 + n + 64 then Err(BadMessage)
      else Ok(AuthPlain(b[..32], b[34..34 + n], b[34 + n..]))
  }

  /** A name survives exactly when it has 1 to 64 bytes. */
  lemma AuthPlainRoundTrip(a: AuthPlain)
    requires |a.publicKey| == 32 && |a.signature| == 64
    ensures ParseAuthPlain(MarshalAuthPlain(a)) == if 1 <= |a.name| <= 64 then Ok(a) else Err(BadMessage)
  {
    var b, n := MarshalAuthPlain(a), |a.name| % 0x1_0000;
    RoundTrip16(n);
    assert b[..32] == a.publicKey && b[32..34] == BE16(n);
    assert b[34..34 + |a.name|] == a.name && b[34 + |a.name|..] == a.signature;
  }

  lemma AuthPlainExact(b: Bytes)
    requires ParseAuthPlain(b).Ok?
    ensures var a := ParseAuthPlain(b).value;
            |a.publicKey| == 32 && ValidName(a.name) && |a.signature| == 64 && MarshalAuthPlain(a) == b
  {
    var n := Uint16(b[32..34]);
    assert BE16(n) == b[32..34] by {
      BigEndianOfValue(b[32..34]);
    }
    hide Uint16, BE16;
    FourParts(b, n);
  }

  lemma FourParts(b: Bytes, n: nat)
    requires 34 + n <= |b|
    ensures b == b[..32] + b[32..34] + b[34..34 + n] + b[34 + n..]
  {
  }
}
