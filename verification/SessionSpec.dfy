/**
 What a session does, as functions on its abstract state (internal/proto/session.go).

 The abstract state holds no chain keys: which key is used follows from the session
 secret, the direction and the epoch alone.
 */
module SessionSpec {
  import opened Words
  import opened Bytes
  import opened Crypto
  import opened Frames
  import ReplayWindow

  const ROTATION_INTERVAL := 1000

  const INFO_ROOT := "heimdall v1 root"
  const INFO_SEND_AB := "heimdall v1 send A-to-B"
  const INFO_SEND_BA := "heimdall v1 send B-to-A"
  const INFO_MSG := "heimdall v1 msg"
  const INFO_ROTATE := "heimdall v1 rotate"
  const INFO_SESSION := "heimdall v1 session id"

  // ---- Decimal rendering of epochs ----

  function Digit(d: nat): (c: char)
    requires d < 10
  {
    '0' + d as char
  }

  /** The decimal digits of v. */
  function Decimal(v: nat): (s: string)
    ensures |s| > 0
  {
    if v < 10 then [Digit(v)] else Decimal(v / 10) + [Digit(v % 10)]
  }

  lemma {:induction false} DecimalInjective(v: nat, w: nat)
    requires Decimal(v) == Decimal(w)
    ensures v == w
  {
    var s, t := Decimal(v), Decimal(w);
    assert s[|s| - 1] == Digit(v % 10) && t[|t| - 1] == Digit(w % 10);
    if v < 10 || w < 10 {
    } else {
      assert s[..|s| - 1] == Decimal(v / 10) && t[..|t| - 1] == Decimal(w / 10);
      DecimalInjective(v / 10, w / 10);
    }
  }

  function Pow10(k: nat): nat {
    if k == 0 then 1 else 10 * Pow10(k - 1)
  }

  lemma {:induction false} DecimalLength(v: nat, k: nat)
    requires k > 0 && v < Pow10(k)
    ensures |Decimal(v)| <= k
  {
    if v < 10 {
    } else {
      DecimalLength(v / 10, k - 1);
    }
  }

  // ---- Keys ----

  datatype Direction = AToB | BToA

  function SendDirection(initiator: bool): Direction {
    if initiator then AToB else BToA
  }

  function EpochSeed(root: Secret, epoch: uint32): Secret {
    Hkdf(root, NoSalt, INFO_ROTATE + " " + Decimal(epoch), KEY_SIZE)
  }

  function ChainKey(root: Secret, dir: Direction, epoch: uint32): Secret {
    Hkdf(EpochSeed(root, epoch), NoSalt, if dir.AToB? then INFO_SEND_AB else INFO_SEND_BA, KEY_SIZE)
  }

  function MessageKey(chain: Secret, sequence: uint64): Secret {
    Hkdf(chain, Raw(BE64(sequence)), INFO_MSG, KEY_SIZE)
  }

  /** Two message keys are equal only for the same secret, direction, epoch and number. */
  lemma MessageKeyInjective(r: Secret, d: Direction, e: uint32, n: uint64, r': Secret, d': Direction, e': uint32,
                            n': uint64)
    requires MessageKey(ChainKey(r, d, e), n) == MessageKey(ChainKey(r', d', e'), n')
    ensures r == r' && d == d' && e == e' && n == n'
  {
    Widths();
    BigEndianInjective(n, n', 8);
    assert INFO_SEND_AB[17] != INFO_SEND_BA[17];
    var prefix := INFO_ROTATE + " ";
    assert (prefix + Decimal(e))[|prefix|..] == Decimal(e);
    assert (prefix + Decimal(e'))[|prefix|..] == Decimal(e');
    DecimalInjective(e, e');
  }

  // ---- State and steps ----

  datatype State = State(
    root: Secret, id: uint64, initiator: bool,
    epoch: uint32, hasOld: bool, sendSeq: uint64, accepted: set<uint64>, closed: bool)

  function Next32(e: uint32): uint32 {
    (e + 1) % TWO_32
  }

  function Prev32(e: uint32): uint32 {
    (e - 1) % TWO_32
  }

  function Next64(n: uint64): uint64 {
    (n + 1) % TWO_64
  }

  /** A new session: the root secret comes from the shared secret and the transcript. */
  function RootOf(shared: Secret, transcript: Digest): Secret {
    Hkdf(shared, Hash(transcript), INFO_ROOT, KEY_SIZE)
  }

  /** Sessions share a message key only for one secret and transcript, and then only for the same frame. */
  lemma RootsSeparate(shared: Secret, t: Digest, d: Direction, e: uint32, n: uint64,
                      shared': Secret, t': Digest, d': Direction, e': uint32, n': uint64)
    ensures MessageKey(ChainKey(RootOf(shared, t), d, e), n) == MessageKey(ChainKey(RootOf(shared', t'), d', e'), n')
       <==> shared == shared' && t == t' && d == d' && e == e' && n == n'
  {
    hide ChainKey, MessageKey;
    var r, r' := RootOf(shared, t), RootOf(shared', t');
    if MessageKey(ChainKey(r, d, e), n) == MessageKey(ChainKey(r', d', e'), n') {
      MessageKeyInjective(r, d, e, n, r', d', e', n');
    }
  }

  function Initial(root: Secret, id: uint64, initiator: bool): State {
    State(root, id, initiator, 0, false, 0, {}, false)
  }

  function Install(s: State, epoch: uint32): State {
    s.(epoch := epoch, hasOld := true)
  }

  /** The next send rotates first when the counter sits on a nonzero multiple of the interval. */
  predicate RotatesAt(n: nat) {
    n > 0 && n % ROTATION_INTERVAL == 0
  }

  function Rotated(s: State): State {
    if RotatesAt(s.sendSeq) then Install(s, Next32(s.epoch)) else s
  }

  predicate CanSeal(s: State, plaintext: Bytes) {
    !s.closed && |plaintext| <= MAX_PLAINTEXT
  }

  function SealedState(s: State): State {
    Rotated(s).(sendSeq := Next64(s.sendSeq))
  }

  function SealedFrame(s: State, typ: byte, blob: Bytes): Frame {
    Frame(typ, s.id, s.sendSeq, Rotated(s).epoch, blob)
  }

  function SendKey(s: State): Secret {
    MessageKey(ChainKey(s.root, SendDirection(s.initiator), Rotated(s).epoch), s.sendSeq)
  }

  /** What a sealing adds to the AEAD ledger. */
  function SealedEntry(s: State, typ: byte, blob: Bytes): Entry {
    Entry(SendKey(s), Header(SealedFrame(s, typ, blob)), blob)
  }

  function RecvKey(s: State, f: Frame): Secret {
    MessageKey(ChainKey(s.root, SendDirection(!s.initiator), f.rotation), f.sequence)
  }

  /** The epochs a frame may carry: the current one, the next, or the one just left. */
  predicate EpochAccepted(s: State, epoch: uint32) {
    epoch == s.epoch || epoch == Next32(s.epoch) || (Next32(epoch) == s.epoch && s.hasOld)
  }

  /** A frame of the next epoch installs it. */
  function Followed(s: State, epoch: uint32): State {
    if epoch == Next32(s.epoch) then Install(s, epoch) else s
  }

  datatype Opened = Opened(state: State, result: Result<(byte, Bytes), ProtoError>)

  /** Opening any buffer whatsoever. */
  ghost function Open(s: State, ledger: Ledger, buf: Bytes): Opened {
    if s.closed then Opened(s, Err(Closed))
    else match Parse(buf)
      case Err(e) => Opened(s, Err(e))
      case Ok(f) =>
        if f.session != s.id then Opened(s, Err(BadSession))
        else if !EpochAccepted(s, f.rotation) then Opened(s, Err(BadEpoch))
        else
          var s' := Followed(s, f.rotation);
          match Unseal(ledger, RecvKey(s, f), Header(f), f.blob)
          case None => Opened(s', Err(Auth))
          case Some(pt) =>
            if ReplayWindow.Fresh(s.accepted, f.sequence)
            then Opened(s'.(accepted := s.accepted + {f.sequence}), Ok((f.typ, pt)))
            else Opened(s', Err(Replay))
  }

  /** The buffer is a frame of this session whose rotation is the epoch after the current one. */
  predicate Announces(s: State, buf: Bytes) {
    Parse(buf).Ok? && Parse(buf).value.session == s.id && Parse(buf).value.rotation == (s.epoch + 1) % 0x1_0000_0000
  }

  /**
   Whether or not a buffer authenticates, opening it moves the epoch exactly when it announces
   the next one. A frame of another session is told apart and changes nothing.
   */
  lemma OpenMoves(s: State, ledger: Ledger, buf: Bytes)
    ensures var o := Open(s, ledger, buf);
            && (o.state.epoch != s.epoch <==> !s.closed && Announces(s, buf))
            && (o.state.epoch == s.epoch ==> o.state.(accepted := s.accepted) == s)
            && (o.result == Err(Closed) <==> s.closed)
            && (o.result == Err(BadSession) <==> !s.closed && Parse(buf).Ok? && Parse(buf).value.session != s.id)
            && (o.result == Err(BadSession) ==> o.state == s)
  {
    hide Parse, Unseal, RecvKey, Header, ReplayWindow.Fresh;
    ParseErrors(buf);
  }

  /** Every sealed frame fits the frame limit and parses back to what was sealed. */
  lemma SealedFrameParses(s: State, typ: byte, plaintext: Bytes, blob: Bytes)
    requires CanSeal(s, plaintext) && KnownType(typ)
    requires |blob| == NONCE_SIZE + |plaintext| + TAG_SIZE
    ensures |Marshal(SealedFrame(s, typ, blob))| <= MAX_FRAME
    ensures Parse(Marshal(SealedFrame(s, typ, blob))) == Ok(SealedFrame(s, typ, blob))
  {
    ParseOfMarshal(SealedFrame(s, typ, blob));
  }

  /** A chat text can be sealed exactly up to 4094 bytes, and then it decodes to itself. */
  lemma ChatLimit(s: State, text: Bytes)
    requires !s.closed
    ensures CanSeal(s, EncodeChat(text)) <==> |text| <= 4094
    ensures CanSeal(s, EncodeChat(text)) ==> DecodeChat(EncodeChat(text)) == Ok(text)
  {
    ChatRoundTrip(text);
  }
}
