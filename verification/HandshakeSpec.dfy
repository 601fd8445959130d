/**
 One side of the handshake as a function of its state and the next message
 (internal/proto/handshake.go). Signatures are ideal: one verifies exactly when the
 owner of the key made it over that digest.
 */
module HandshakeSpec {
  import opened Words
  import opened Bytes
  import opened Crypto
  import opened HandshakeCodec
  import Session = SessionSpec

  const INFO_HS2 := "heimdall v1 hs2"
  const INFO_HS3 := "heimdall v1 hs3"

  function Ascii(s: string): (b: Bytes)
    ensures |b| == |s|
  {
    seq(|s|, i requires 0 <= i < |s| => s[i] as int % 256)
  }

  const DOMAIN := Ascii("heimdall v1 handshake")
  const HS_AAD := Ascii("heimdall v1 hs aad")

  datatype Signature = Signature(publicKey: Bytes, digest: Digest, bytes: Bytes)

  /** Everything sealed and signed by anyone so far. */
  datatype Oracle = Oracle(ledger: Ledger, signed: set<Signature>)

  /** The random parts of one reply. */
  datatype Coins = Coins(signature: Bytes, blob: Bytes)

  datatype Identity = Identity(publicKey: Bytes, name: Bytes)

  /** lowOrder: the peer keys on which the key agreement itself fails. */
  datatype State = State(
    id: Identity, initiator: bool, eph: Bytes, lowOrder: set<Bytes>,
    peerEph: Option<Bytes>, transcript: Option<Digest>, shared: Option<Secret>, done: bool)

  datatype Done = Done(session: Session.State, peerName: Bytes, peerKey: Bytes, transcript: Digest)

  datatype Answer = Answer(reply: Option<Bytes>, result: Option<Done>)

  datatype Handled = Handled(state: State, oracle: Oracle, answer: Result<Answer, HsError>)

  type IdOf = Secret -> uint64

  function Fresh(id: Identity, initiator: bool, eph: Bytes, lowOrder: set<Bytes>): State {
    State(id, initiator, eph, lowOrder, None, None, None, false)
  }

  /** The digest both sides sign: the initiator's key first. */
  function TranscriptOf(ephA: Bytes, ephB: Bytes): Digest {
    Sha256(DOMAIN + ephA + ephB)
  }

  function OwnTranscript(s: State, peer: Bytes): Digest {
    if s.initiator then TranscriptOf(s.eph, peer) else TranscriptOf(peer, s.eph)
  }

  function Agree(a: Bytes, b: Bytes): Secret {
    Agreed(multiset{a, b})
  }

  function AuthKey(shared: Secret, transcript: Digest, info: string): Secret {
    Hkdf(shared, Hash(transcript), info, KEY_SIZE)
  }

  function OwnPlain(s: State, coins: Coins): Bytes {
    MarshalAuthPlain(AuthPlain(s.id.publicKey, s.id.name, coins.signature))
  }

  function SealAuth(s: State, o: Oracle, shared: Secret, transcript: Digest, info: string, coins: Coins): Oracle {
    Oracle(o.ledger[Entry(AuthKey(shared, transcript, info), HS_AAD, coins.blob) := OwnPlain(s, coins)],
           o.signed + {Signature(s.id.publicKey, transcript, coins.signature)})
  }

  /** Opens, parses and verifies the peer's half. */
  function CheckAuth(s: State, o: Oracle, shared: Secret, transcript: Digest, info: string,
                     blob: Bytes): Result<AuthPlain, HsError> {
    match Unseal(o.ledger, AuthKey(shared, transcript, info), HS_AAD, blob)
    case None => Err(BadMessage)
    case Some(plain) =>
      match ParseAuthPlain(plain)
      case Err(e) => Err(e)
      case Ok(a) =>
        if Signature(a.publicKey, transcript, a.signature) !in o.signed then Err(BadSignature)
        else if a.publicKey == s.id.publicKey then Err(SelfConnection)
        else Ok(a)
  }

  /** Installs the peer's key: transcript first, then the shared secret if agreement works. */
  function Meet(s: State, peer: Bytes): State {
    var s' := s.(peerEph := Some(peer), transcript := Some(OwnTranscript(s, peer)));
    if |peer| == 32 && peer !in s.lowOrder then s'.(shared := Some(Agree(s.eph, peer))) else s'
  }

  predicate Meets(s: State, peer: Bytes) {
    |peer| == 32 && peer !in s.lowOrder
  }

  function Finish(s: State): State {
    s.(done := true, shared := None)
  }

  function Established(s: State, idOf: IdOf, shared: Secret, transcript: Digest, a: AuthPlain): Done {
    var root := Session.RootOf(shared, transcript);
    Done(Session.Initial(root, idOf(Hkdf(root, NoSalt, Session.INFO_SESSION, 8)), s.initiator), a.name, a.publicKey,
         transcript)
  }

  function HandleInit(s: State, o: Oracle, msg: Bytes, coins: Coins): Handled {
    match ParseInit(msg)
    case Err(e) => Handled(s, o, Err(e))
    case Ok(peer) =>
      var s' := Meet(s, peer);
      if !Meets(s, peer) then Handled(s', o, Err(BadMessage))
      else
        Handled(s', SealAuth(s, o, Agree(s.eph, peer), OwnTranscript(s, peer), INFO_HS2, coins),
                Ok(Answer(Some(MarshalAuth(s.eph, coins.blob)), None)))
  }

  function HandleAuthInitiator(s: State, o: Oracle, idOf: IdOf, msg: Bytes, coins: Coins): Handled {
    match ParseAuth(msg)
    case Err(e) => Handled(s, o, Err(e))
    case Ok((peer, blob)) =>
      var s' := Meet(s, peer);
      if !Meets(s, peer) then Handled(s', o, Err(BadMessage))
      else
        var shared, transcript := Agree(s.eph, peer), OwnTranscript(s, peer);
        match CheckAuth(s, o, shared, transcript, INFO_HS2, blob)
        case Err(e) => Handled(s', o, Err(e))
        case Ok(a) =>
          Handled(Finish(s'), SealAuth(s, o, shared, transcript, INFO_HS3, coins),
                  Ok(Answer(Some(MarshalAuth(s.eph, coins.blob)), Some(Established(s, idOf, shared, transcript, a)))))
  }

  function HandleAuthResponder(s: State, o: Oracle, idOf: IdOf, msg: Bytes): Handled {
    if s.transcript.None? then Handled(s, o, Err(BadMessage))
    else match ParseAuth(msg)
      case Err(e) => Handled(s, o, Err(e))
      case Ok((_, blob)) =>
        // An empty secret is refused by the key derivation.
        if s.shared.None? then Handled(s, o, Err(BadMessage))
        else match CheckAuth(s, o, s.shared.value, s.transcript.value, INFO_HS3, blob)
          case Err(e) => Handled(s, o, Err(e))
          case Ok(a) =>
            Handled(Finish(s), o, Ok(Answer(None, Some(Established(s, idOf, s.shared.value, s.transcript.value, a)))))
  }

  function Handle(s: State, o: Oracle, idOf: IdOf, msg: Bytes, coins: Coins): Handled {
    if s.done then Handled(s, o, Err(AlreadyDone))
    else if |msg| == 0 || |msg| > MAX_HS_SIZE then Handled(s, o, Err(BadMessage))
    else if !s.initiator && msg[0] == HS_TYPE_INIT && s.transcript.None? then HandleInit(s, o, msg, coins)
    else if msg[0] == HS_TYPE_AUTH then
      if s.initiator then HandleAuthInitiator(s, o, idOf, msg, coins) else HandleAuthResponder(s, o, idOf, msg)
    else Handled(s, o, Err(BadMessage))
  }

  // ---- Any sequence of messages ----

  /** A message arriving in some state of the world; what others seal and sign in between is arbitrary. */
  datatype Input = Input(oracle: Oracle, msg: Bytes, coins: Coins)

  function Feed(s: State, idOf: IdOf, ins: seq<Input>): State {
    if ins == [] then s
    else
      var i := ins[|ins| - 1];
      Handle(Feed(s, idOf, ins[..|ins| - 1]), i.oracle, idOf, i.msg, i.coins).state
  }

  /** What the k-th message is answered with. */
  function AnswerTo(s: State, idOf: IdOf, ins: seq<Input>, k: nat): Result<Answer, HsError>
    requires k < |ins|
  {
    Handle(Feed(s, idOf, ins[..k]), ins[k].oracle, idOf, ins[k].msg, ins[k].coins).answer
  }

  predicate Completes(a: Result<Answer, HsError>) {
    a.Ok? && a.value.result.Some?
  }

  /** The shared secret, while there is one, is the one agreed with the peer key the transcript covers. */
  ghost predicate Coherent(s: State) {
    && (s.peerEph.None? ==> s.transcript.None?)
    && (!s.initiator && s.shared.Some? ==>
          s.peerEph.Some? && |s.peerEph.value| == 32 && s.transcript == Some(OwnTranscript(s, s.peerEph.value))
            && s.shared == Some(Agree(s.eph, s.peerEph.value)))
  }

  ghost predicate Progress(s: State, t: State) {
    Coherent(t) && t.eph == s.eph && t.initiator == s.initiator && t.id == s.id
  }

  lemma MeetCoherent(s: State, peer: Bytes)
    requires Coherent(s) && (s.initiator || s.transcript.None?) && (!s.initiator ==> s.shared.None?)
    ensures Progress(s, Meet(s, peer)) && Progress(s, Finish(Meet(s, peer)))
  {
    hide TranscriptOf;
  }

  lemma HandleCoherent(s: State, o: Oracle, idOf: IdOf, msg: Bytes, coins: Coins)
    requires Coherent(s)
    ensures Progress(s, Handle(s, o, idOf, msg, coins).state)
  {
    hide ParseInit, ParseAuth, CheckAuth, SealAuth, MarshalAuth, Meet, Established;
    if |msg| > 0 && !s.initiator && s.transcript.None? && ParseInit(msg).Ok? {
      MeetCoherent(s, ParseInit(msg).value);
    } else if s.initiator && ParseAuth(msg).Ok? {
      MeetCoherent(s, ParseAuth(msg).value.0);
    }
  }

  lemma {:induction false} FeedCoherent(s: State, idOf: IdOf, ins: seq<Input>)
    requires Coherent(s)
    ensures Progress(s, Feed(s, idOf, ins))
  {
    if ins == [] {
    } else {
      hide Handle;
      var front, i := ins[..|ins| - 1], ins[|ins| - 1];
      FeedCoherent(s, idOf, front);
      HandleCoherent(Feed(s, idOf, front), i.oracle, idOf, i.msg, i.coins);
    }
  }

  /** A completing message ends the handshake; every message after the end is refused and changes nothing. */
  lemma CompletionEnds(s: State, o: Oracle, idOf: IdOf, msg: Bytes, coins: Coins)
    ensures var h := Handle(s, o, idOf, msg, coins);
            && h.state.done == (s.done || Completes(h.answer))
            && (s.done ==> h == Handled(s, o, Err(AlreadyDone)))
  {
  }

  lemma {:induction false} DoneStays(s: State, idOf: IdOf, ins: seq<Input>, j: nat)
    requires j <= |ins| && Feed(s, idOf, ins[..j]).done
    ensures Feed(s, idOf, ins) == Feed(s, idOf, ins[..j])
  {
    if j == |ins| {
      assert ins[..j] == ins;
    } else {
      hide Handle;
      var front, i := ins[..|ins| - 1], ins[|ins| - 1];
      assert front[..j] == ins[..j];
      DoneStays(s, idOf, front, j);
      CompletionEnds(Feed(s, idOf, front), i.oracle, idOf, i.msg, i.coins);
    }
  }

  /** Over any messages, at most one result comes out, and every later message is refused as late. */
  lemma OneResult(s: State, idOf: IdOf, ins: seq<Input>, j: nat, k: nat)
    requires j < k < |ins| && Completes(AnswerTo(s, idOf, ins, j))
    ensures AnswerTo(s, idOf, ins, k) == Err(AlreadyDone)
  {
    hide Handle;
    var i := ins[j];
    CompletionEnds(Feed(s, idOf, ins[..j]), i.oracle, idOf, i.msg, i.coins);
    assert ins[..j + 1][..j] == ins[..j];
    assert ins[..k][..j + 1] == ins[..j + 1];
    DoneStays(s, idOf, ins[..k], j + 1);
    CompletionEnds(Feed(s, idOf, ins[..k]), ins[k].oracle, idOf, ins[k].msg, ins[k].coins);
  }

  /**
   What a result vouches for: one peer key p for transcript and secret alike, and a signature
   over it by another identity.
   */
  ghost predicate Vouched(s: State, o: Oracle, idOf: IdOf, d: Done, p: Bytes) {
    && |p| == 32 && d.transcript == OwnTranscript(s, p)
    && d.session.root == Hkdf(Agreed(multiset{s.eph, p}), Hash(d.transcript), "heimdall v1 root", 32)
    && d.session == Session.Initial(d.session.root, idOf(Hkdf(d.session.root, NoSalt, Session.INFO_SESSION, 8)),
                                    s.initiator)
    && d.peerKey != s.id.publicKey
    && exists sig :: Signature(d.peerKey, d.transcript, sig) in o.signed
  }

  lemma CheckedIsSigned(s: State, o: Oracle, shared: Secret, transcript: Digest, info: string, blob: Bytes)
    requires CheckAuth(s, o, shared, transcript, info, blob).Ok?
    ensures var a := CheckAuth(s, o, shared, transcript, info, blob).value;
            Signature(a.publicKey, transcript, a.signature) in o.signed && a.publicKey != s.id.publicKey
              && ValidName(a.name)
  {
    var plain := Unseal(o.ledger, AuthKey(shared, transcript, info), HS_AAD, blob).value;
    AuthPlainExact(plain);
  }

  /** The half opens under its key and decodes. */
  predicate Readable(o: Oracle, shared: Secret, transcript: Digest, info: string, blob: Bytes) {
    var plain := Unseal(o.ledger, AuthKey(shared, transcript, info), HS_AAD, blob);
    plain.Some? && ParseAuthPlain(plain.value).Ok?
  }

  /** Why a half is refused: it cannot be read, its signature over this transcript was never made, or it is our own. */
  lemma CheckErrors(s: State, o: Oracle, shared: Secret, transcript: Digest, info: string, blob: Bytes)
    ensures var r := CheckAuth(s, o, shared, transcript, info, blob);
            && (r == Err(BadMessage) <==> !Readable(o, shared, transcript, info, blob))
            && (Readable(o, shared, transcript, info, blob) ==>
                  var plain := Unseal(o.ledger, AuthKey(shared, transcript, info), HS_AAD, blob).value;
                  var a := ParseAuthPlain(plain).value;
                  && (r == Err(BadSignature) <==> Signature(a.publicKey, transcript, a.signature) !in o.signed)
                  && (r == Err(SelfConnection) <==> r != Err(BadSignature) && a.publicKey == s.id.publicKey))
  {
    hide AuthKey, Unseal;
    PlainErrors(o, shared, transcript, info, blob);
  }

  lemma PlainErrors(o: Oracle, shared: Secret, transcript: Digest, info: string, blob: Bytes)
    ensures var plain := Unseal(o.ledger, AuthKey(shared, transcript, info), HS_AAD, blob);
            plain.Some? && ParseAuthPlain(plain.value).Err? ==> ParseAuthPlain(plain.value).error == BadMessage
  {
  }

  lemma ResultVouched(s: State, o: Oracle, idOf: IdOf, msg: Bytes, coins: Coins)
    requires Coherent(s) && Completes(Handle(s, o, idOf, msg, coins).answer)
    ensures exists p :: Vouched(s, o, idOf, Handle(s, o, idOf, msg, coins).answer.value.result.value, p)
  {
    hide CheckAuth, ParseAuth, ParseInit;
    var (peer, blob) := ParseAuth(msg).value;
    if s.initiator {
      CheckedIsSigned(s, o, Agree(s.eph, peer), OwnTranscript(s, peer), INFO_HS2, blob);
      assert Vouched(s, o, idOf, Handle(s, o, idOf, msg, coins).answer.value.result.value, peer);
    } else {
      CheckedIsSigned(s, o, s.shared.value, s.transcript.value, INFO_HS3, blob);
      assert Vouched(s, o, idOf, Handle(s, o, idOf, msg, coins).answer.value.result.value, s.peerEph.value);
    }
  }

  /**
   Over any messages, a result's transcript covers exactly our ephemeral key and the peer
   key that went into the shared secret, and some other identity has signed it.
   */
  lemma ResultsAreVouched(id: Identity, initiator: bool, eph: Bytes, lowOrder: set<Bytes>, idOf: IdOf, ins: seq<Input>,
                          k: nat)
    requires k < |ins| && Completes(AnswerTo(Fresh(id, initiator, eph, lowOrder), idOf, ins, k))
    ensures var s := Fresh(id, initiator, eph, lowOrder);
            exists p :: Vouched(s, ins[k].oracle, idOf, AnswerTo(s, idOf, ins, k).value.result.value, p)
  {
    hide Handle;
    var s := Fresh(id, initiator, eph, lowOrder);
    FeedCoherent(s, idOf, ins[..k]);
    var t := Feed(s, idOf, ins[..k]);
    ResultVouched(t, ins[k].oracle, idOf, ins[k].msg, ins[k].coins);
    var d := AnswerTo(s, idOf, ins, k).value.result.value;
    var p :| Vouched(t, ins[k].oracle, idOf, d, p);
    assert Vouched(s, ins[k].oracle, idOf, d, p);
  }

  /** One side from its start: nothing received yet, an ephemeral key of 32 bytes. */
  predicate Begins(s: State) {
    s == Fresh(s.id, s.initiator, s.eph, s.lowOrder) && |s.eph| == 32
  }

  ghost predicate Results(s: State, idOf: IdOf, ins: seq<Input>, k: nat, d: Done) {
    k < |ins| && Completes(AnswerTo(s, idOf, ins, k)) && d == AnswerTo(s, idOf, ins, k).value.result.value
  }

  /** The two ephemeral keys of a handshake, the initiator's first. */
  function Pair(s: State, peer: Bytes): (Bytes, Bytes) {
    if s.initiator then (s.eph, peer) else (peer, s.eph)
  }

  lemma VouchedSeparate(s: State, o: Oracle, idOf: IdOf, d: Done, p: Bytes,
                        s': State, o': Oracle, idOf': IdOf, d': Done, p': Bytes)
    requires Begins(s) && Begins(s') && Vouched(s, o, idOf, d, p) && Vouched(s', o', idOf', d', p')
    ensures d.transcript == d'.transcript <==> Pair(s, p) == Pair(s', p')
    ensures d.session.root == d'.session.root <==> d.transcript == d'.transcript
  {
    hide TranscriptOf;
    if d.transcript == d'.transcript {
      TranscriptInjective(Pair(s, p).0, Pair(s, p).1, Pair(s', p').0, Pair(s', p').1);
      assert multiset{s.eph, p} == multiset{Pair(s, p).0, Pair(s, p).1};
      assert multiset{s'.eph, p'} == multiset{Pair(s', p').0, Pair(s', p').1};
    }
  }

  /**
   Any two completed handshakes, of whatever parties and over whatever messages, have a
   message key in common only if the same two ephemeral keys went into both in the same
   roles, and then only for the same direction, epoch and number.
   */
  lemma SessionsSeparate(s: State, idOf: IdOf, ins: seq<Input>, k: nat, d: Done,
                         s': State, idOf': IdOf, ins': seq<Input>, k': nat, d': Done,
                         dir: Session.Direction, e: uint32, n: uint64, dir': Session.Direction, e': uint32, n': uint64)
    requires Begins(s) && Begins(s') && Results(s, idOf, ins, k, d) && Results(s', idOf', ins', k', d')
    ensures exists p, p' :: Vouched(s, ins[k].oracle, idOf, d, p) && Vouched(s', ins'[k'].oracle, idOf', d', p')
              && (d.transcript == d'.transcript <==> Pair(s, p) == Pair(s', p'))
    ensures Session.MessageKey(Session.ChainKey(d.session.root, dir, e), n)
              == Session.MessageKey(Session.ChainKey(d'.session.root, dir', e'), n')
       <==> d.transcript == d'.transcript && dir == dir' && e == e' && n == n'
  {
    hide AnswerTo, Session.MessageKey, Session.ChainKey, Vouched;
    ResultsAreVouched(s.id, s.initiator, s.eph, s.lowOrder, idOf, ins, k);
    ResultsAreVouched(s'.id, s'.initiator, s'.eph, s'.lowOrder, idOf', ins', k');
    var p :| Vouched(s, ins[k].oracle, idOf, d, p);
    var p' :| Vouched(s', ins'[k'].oracle, idOf', d', p');
    VouchedSeparate(s, ins[k].oracle, idOf, d, p, s', ins'[k'].oracle, idOf', d', p');
    var r, r' := d.session.root, d'.session.root;
    if Session.MessageKey(Session.ChainKey(r, dir, e), n) == Session.MessageKey(Session.ChainKey(r', dir', e'), n') {
      Session.MessageKeyInjective(r, dir, e, n, r', dir', e', n');
    }
  }

  /** The keys of the sealed halves differ for any other secret, transcript or message, and are no message keys. */
  lemma AuthKeysSeparate(shared: Secret, t: Digest, info: string, shared': Secret, t': Digest, info': string,
                         chain: Secret, n: uint64)
    requires info in {INFO_HS2, INFO_HS3} && info' in {INFO_HS2, INFO_HS3}
    ensures AuthKey(shared, t, info) == AuthKey(shared', t', info') <==> shared == shared' && t == t' && info == info'
    ensures AuthKey(shared, t, info) != Session.MessageKey(chain, n)
    ensures AuthKey(shared, t, info) != Session.RootOf(shared', t')
  {
    assert INFO_HS2[12] != Session.INFO_MSG[12] && INFO_HS3[12] != Session.INFO_MSG[12];
    assert INFO_HS2[12] != Session.INFO_ROOT[12] && INFO_HS3[12] != Session.INFO_ROOT[12];
  }

  /** Sealing a half makes at most that half open anew, and only for its secret, transcript and message. */
  lemma HalfOpensOnlyThere(s: State, o: Oracle, shared: Secret, t: Digest, info: string, coins: Coins,
                           shared': Secret, t': Digest, info': string, blob: Bytes)
    ensures var o' := SealAuth(s, o, shared, t, info, coins);
            if shared' == shared && t' == t && info' == info && blob == coins.blob
            then Unseal(o'.ledger, AuthKey(shared', t', info'), HS_AAD, blob) == Some(OwnPlain(s, coins))
            else Unseal(o'.ledger, AuthKey(shared', t', info'), HS_AAD, blob)
                   == Unseal(o.ledger, AuthKey(shared', t', info'), HS_AAD, blob)
  {
    hide OwnPlain;
  }

  /** A message that is empty, over 4096 bytes, of no known kind, or out of turn. */
  predicate Unexpected(s: State, msg: Bytes) {
    || |msg| == 0 || |msg| > 4096
    || msg[0] !in {1, 2}
    || (msg[0] == 1 && (s.initiator || s.transcript.Some?))
    || (msg[0] == 2 && !s.initiator && s.transcript.None?)
  }

  /** Such messages are refused without any change, and an ongoing handshake survives them. */
  lemma UnexpectedRefused(s: State, o: Oracle, idOf: IdOf, msg: Bytes, coins: Coins)
    requires !s.done && Unexpected(s, msg)
    ensures Handle(s, o, idOf, msg, coins) == Handled(s, o, Err(BadMessage))
  {
    hide ParseInit, ParseAuth, CheckAuth, SealAuth;
  }

  /** Once a handshake has its result, the shared secret is gone. */
  lemma {:induction false} SecretDropped(s: State, idOf: IdOf, ins: seq<Input>)
    requires Begins(s)
    ensures Feed(s, idOf, ins).done ==> Feed(s, idOf, ins).shared == None
  {
    if ins == [] {
    } else {
      var front, i := ins[..|ins| - 1], ins[|ins| - 1];
      SecretDropped(s, idOf, front);
      hide Feed;
      FinishDrops(Feed(s, idOf, front), i.oracle, idOf, i.msg, i.coins);
    }
  }

  lemma FinishDrops(s: State, o: Oracle, idOf: IdOf, msg: Bytes, coins: Coins)
    requires s.done ==> s.shared == None
    ensures var t := Handle(s, o, idOf, msg, coins).state; t.done ==> t.shared == None
  {
    hide ParseInit, ParseAuth, CheckAuth, SealAuth;
  }

  /** The transcript determines both keys. */
  lemma TranscriptInjective(a: Bytes, b: Bytes, a': Bytes, b': Bytes)
    requires |a| == |b| == |a'| == |b'| == 32 && TranscriptOf(a, b) == TranscriptOf(a', b')
    ensures a == a' && b == b'
  {
    var n := |DOMAIN|;
    var x, y := DOMAIN + a + b, DOMAIN + a' + b';
    assert x[n..n + 32] == a && x[n + 32..] == b && y[n..n + 32] == a' && y[n + 32..] == b';
  }

  // ---- The honest run ----

  /** Ed25519 signatures have 64 bytes; a blob is nonce, ciphertext and tag. */
  predicate ProperCoins(s: State, coins: Coins) {
    |coins.signature| == 64 && |coins.blob| == NONCE_SIZE + |OwnPlain(s, coins)| + TAG_SIZE
  }

  predicate Ready(s: State, initiator: bool, peer: Bytes) {
    s == Fresh(s.id, initiator, s.eph, s.lowOrder) && |s.id.publicKey| == 32 && |s.eph| == 32 && Meets(s, peer)
  }

  lemma PlainLength(s: State, coins: Coins)
    requires |s.id.publicKey| == 32 && ProperCoins(s, coins)
    ensures |coins.blob| == 126 + |s.id.name|
  {
  }

  /** What was sealed and signed last opens, and checks out exactly when the name is valid and the keys differ. */
  lemma CheckOfSealed(s: State, peer: State, o: Oracle, shared: Secret, transcript: Digest, info: string, coins: Coins)
    requires |peer.id.publicKey| == 32 && |coins.signature| == 64
    ensures var o' := SealAuth(peer, o, shared, transcript, info, coins);
            var a := AuthPlain(peer.id.publicKey, peer.id.name, coins.signature);
            CheckAuth(s, o', shared, transcript, info, coins.blob) ==
              if !ValidName(peer.id.name) then Err(BadMessage)
              else if peer.id.publicKey == s.id.publicKey then Err(SelfConnection)
              else Ok(a)
  {
    hide MarshalAuthPlain, ParseAuthPlain;
    AuthPlainRoundTrip(AuthPlain(peer.id.publicKey, peer.id.name, coins.signature));
  }

  lemma SameTranscript(a: State, b: State)
    requires a.initiator && !b.initiator
    ensures OwnTranscript(a, b.eph) == OwnTranscript(b, a.eph) && Agree(a.eph, b.eph) == Agree(b.eph, a.eph)
  {
    assert multiset{a.eph, b.eph} == multiset{b.eph, a.eph};
  }

  /** Message 1: the responder always answers. */
  lemma FirstMessage(a: State, b: State, o: Oracle, idOf: IdOf, coins: Coins)
    requires Ready(a, true, b.eph) && Ready(b, false, a.eph)
    ensures Handle(b, o, idOf, MarshalInit(a.eph), coins) ==
              Handled(Meet(b, a.eph), SealAuth(b, o, Agree(b.eph, a.eph), OwnTranscript(b, a.eph), INFO_HS2, coins),
                      Ok(Answer(Some(MarshalAuth(b.eph, coins.blob)), None)))
  {
    hide ParseInit, SealAuth;
    InitRoundTrip(a.eph);
  }

  /** Message 2: the initiator completes exactly when the responder's name is valid and the identities differ. */
  lemma SecondMessage(a: State, b: State, o: Oracle, idOf: IdOf, coinsB: Coins, coinsA: Coins)
    requires Ready(a, true, b.eph) && Ready(b, false, a.eph) && ProperCoins(b, coinsB)
    ensures var shared, transcript := Agree(b.eph, a.eph), OwnTranscript(b, a.eph);
            var o' := SealAuth(b, o, shared, transcript, INFO_HS2, coinsB);
            var h := Handle(a, o', idOf, MarshalAuth(b.eph, coinsB.blob), coinsA);
            && (Completes(h.answer) <==> ValidName(b.id.name) && a.id.publicKey != b.id.publicKey)
            && (!Completes(h.answer) ==> h.answer.Err?)
            && (Completes(h.answer) ==>
                  && h.oracle == SealAuth(a, o', shared, transcript, INFO_HS3, coinsA)
                  && h.answer == Ok(Answer(Some(MarshalAuth(a.eph, coinsA.blob)),
                       Some(Established(a, idOf, shared, transcript,
                                        AuthPlain(b.id.publicKey, b.id.name, coinsB.signature))))))
  {
    hide ParseAuth, CheckAuth, SealAuth, OwnTranscript, Established;
    SameTranscript(a, b);
    var shared, transcript := Agree(b.eph, a.eph), OwnTranscript(b, a.eph);
    AuthRoundTrip(b.eph, coinsB.blob);
    CheckOfSealed(a, b, o, shared, transcript, INFO_HS2, coinsB);
    PlainLength(b, coinsB);
  }

  /** Message 3: then the responder completes exactly when the initiator's name is valid. */
  lemma ThirdMessage(a: State, b: State, o: Oracle, idOf: IdOf, coinsA: Coins, coinsB: Coins)
    requires Ready(a, true, b.eph) && Ready(b, false, a.eph) && ProperCoins(a, coinsA)
    requires a.id.publicKey != b.id.publicKey
    ensures var shared, transcript := Agree(b.eph, a.eph), OwnTranscript(b, a.eph);
            var h := Handle(Meet(b, a.eph), SealAuth(a, o, shared, transcript, INFO_HS3, coinsA), idOf,
                            MarshalAuth(a.eph, coinsA.blob), coinsB);
            && (Completes(h.answer) <==> ValidName(a.id.name))
            && (Completes(h.answer) ==>
                  h.answer == Ok(Answer(None,
                    Some(Established(b, idOf, shared, transcript,
                                     AuthPlain(a.id.publicKey, a.id.name, coinsA.signature))))))
  {
    hide ParseAuth, CheckAuth, SealAuth, OwnTranscript;
    var shared, transcript := Agree(b.eph, a.eph), OwnTranscript(b, a.eph);
    AuthRoundTrip(a.eph, coinsA.blob);
    CheckOfSealed(Meet(b, a.eph), a, o, shared, transcript, INFO_HS3, coinsA);
    PlainLength(a, coinsA);
  }

  /** The three messages of an honest run, and what each side gets out of it. */
  datatype Transcript3 = Transcript3(answerA: Result<Answer, HsError>, answerB: Result<Answer, HsError>)

  function HonestRun(a: State, b: State, o: Oracle, idOf: IdOf, coinsB: Coins, coinsA: Coins): Transcript3 {
    var h1 := Handle(b, o, idOf, MarshalInit(a.eph), coinsB);
    if h1.answer.Err? || h1.answer.value.reply.None? then Transcript3(Err(BadMessage), Err(BadMessage))
    else
      var h2 := Handle(a, h1.oracle, idOf, h1.answer.value.reply.value, coinsA);
      if h2.answer.Err? || h2.answer.value.reply.None? then Transcript3(h2.answer, Err(BadMessage))
      else Transcript3(h2.answer, Handle(h1.state, h2.oracle, idOf, h2.answer.value.reply.value, coinsB).answer)
  }

  /**
   An honest run: the initiator completes exactly when the responder's name has 1 to 64
   bytes and the identities differ; the responder exactly when moreover the initiator's
   name does. Then each has the other's key and name, both have the same transcript, and
   their sessions are the two ends of one channel: same root, same ID, mirrored chains.
   */
  lemma HonestRunCompletes(a: State, b: State, o: Oracle, idOf: IdOf, coinsB: Coins, coinsA: Coins)
    requires Ready(a, true, b.eph) && Ready(b, false, a.eph) && ProperCoins(a, coinsA) && ProperCoins(b, coinsB)
    ensures var r := HonestRun(a, b, o, idOf, coinsB, coinsA);
            && (Completes(r.answerA) <==> ValidName(b.id.name) && a.id.publicKey != b.id.publicKey)
            && (Completes(r.answerB) <==> Completes(r.answerA) && ValidName(a.id.name))
            && (Completes(r.answerB) ==>
                  var x, y := r.answerA.value.result.value, r.answerB.value.result.value;
                  && x.peerKey == b.id.publicKey && x.peerName == b.id.name
                  && y.peerKey == a.id.publicKey && y.peerName == a.id.name
                  && x.transcript == y.transcript == TranscriptOf(a.eph, b.eph)
                  && x.session == Session.Initial(x.session.root, x.session.id, true)
                  && y.session == Session.Initial(x.session.root, x.session.id, false))
  {
    hide Handle, SealAuth;
    FirstMessage(a, b, o, idOf, coinsB);
    SecondMessage(a, b, o, idOf, coinsB, coinsA);
    if ValidName(b.id.name) && a.id.publicKey != b.id.publicKey {
      var o' := SealAuth(b, o, Agree(b.eph, a.eph), OwnTranscript(b, a.eph), INFO_HS2, coinsB);
      ThirdMessage(a, b, o', idOf, coinsA, coinsB);
    }
  }

  // ---- Whether a side can still complete ----

  /** Some messages, in some state of the world, would complete the handshake. */
  ghost predicate CanComplete(s: State, idOf: IdOf) {
    exists ins: seq<Input>, k: nat | k < |ins| :: Completes(AnswerTo(s, idOf, ins, k))
  }

  /** Not over; and a responder that has met a peer has agreed on a secret with it. */
  predicate Hopeful(s: State) {
    !s.done && (s.initiator || s.transcript.None? || s.shared.Some?)
  }

  lemma HopelessStep(s: State, o: Oracle, idOf: IdOf, msg: Bytes, coins: Coins)
    requires !Hopeful(s)
    ensures var h := Handle(s, o, idOf, msg, coins); !Hopeful(h.state) && !Completes(h.answer)
  {
    hide ParseInit, ParseAuth, CheckAuth, SealAuth;
  }

  lemma {:induction false} HopelessStays(s: State, idOf: IdOf, ins: seq<Input>)
    requires !Hopeful(s)
    ensures !Hopeful(Feed(s, idOf, ins))
  {
    if ins == [] {
    } else {
      hide Handle, Hopeful;
      var front, i := ins[..|ins| - 1], ins[|ins| - 1];
      HopelessStays(s, idOf, front);
      HopelessStep(Feed(s, idOf, front), i.oracle, idOf, i.msg, i.coins);
    }
  }

  /** Another identity, and the coins and the state of the world in which it has just sealed its half. */
  lemma SomeoneElse(s: State, shared: Secret, transcript: Digest, info: string) returns (o: Oracle, coins: Coins)
    ensures 0 < |coins.blob| < 200 && CheckAuth(s, o, shared, transcript, info, coins.blob).Ok?
  {
    hide CheckAuth, SealAuth;
    var first: byte := if s.id.publicKey != [] && s.id.publicKey[0] == 0 then 1 else 0;
    var key: Bytes := seq(32, _ => first);
    assert key[0] == first;
    var peer := Fresh(Identity(key, [65]), true, [], {});
    coins := Coins(seq(64, _ => 0), [0]);
    o := SealAuth(peer, Oracle(map[], {}), shared, transcript, info, coins);
    CheckOfSealed(s, peer, Oracle(map[], {}), shared, transcript, info, coins);
  }

  /** A side that has what it needs, or gets it from this very message, completes on its peer's half. */
  lemma NextCompletes(s: State, idOf: IdOf, peer: Bytes) returns (i: Input)
    requires !s.done && Meets(s, peer) && (s.initiator || (s.transcript.Some? && s.shared.Some?))
    ensures Completes(Handle(s, i.oracle, idOf, i.msg, i.coins).answer)
  {
    hide ParseAuth, CheckAuth, SealAuth, OwnTranscript, Agree;
    var shared := if s.initiator then Agree(s.eph, peer) else s.shared.value;
    var transcript := if s.initiator then OwnTranscript(s, peer) else s.transcript.value;
    var o, coins := SomeoneElse(s, shared, transcript, if s.initiator then INFO_HS2 else INFO_HS3);
    i := Input(o, MarshalAuth(peer, coins.blob), coins);
    AuthRoundTrip(peer, coins.blob);
  }

  lemma InitMeets(s: State, idOf: IdOf, peer: Bytes, i: Input)
    requires !s.done && !s.initiator && s.transcript.None? && Meets(s, peer) && i.msg == MarshalInit(peer)
    ensures Handle(s, i.oracle, idOf, i.msg, i.coins).state == Meet(s, peer)
  {
    hide ParseInit, SealAuth, OwnTranscript;
    InitRoundTrip(peer);
  }

  lemma CompletesLast(s: State, idOf: IdOf, ins: seq<Input>)
    requires ins != [] && Completes(AnswerTo(s, idOf, ins, |ins| - 1))
    ensures CanComplete(s, idOf)
  {
  }

  /**
   Where key agreement works for some peer key, a side can still complete exactly while it
   is not done and, as responder, has not met a key on which agreement failed.
   */
  lemma CanCompleteIff(s: State, idOf: IdOf, peer: Bytes)
    requires Meets(s, peer)
    ensures CanComplete(s, idOf) <==> Hopeful(s)
  {
    hide Handle, Meet;
    if !Hopeful(s) {
      forall ins: seq<Input>, k: nat | k < |ins|
        ensures !Completes(AnswerTo(s, idOf, ins, k))
      {
        HopelessStays(s, idOf, ins[..k]);
        HopelessStep(Feed(s, idOf, ins[..k]), ins[k].oracle, idOf, ins[k].msg, ins[k].coins);
      }
    } else if s.initiator || s.transcript.Some? {
      var i := NextCompletes(s, idOf, peer);
      assert [i][..0] == [];
      CompletesLast(s, idOf, [i]);
    } else {
      InitThenAuth(s, idOf, peer);
    }
  }

  lemma InitThenAuth(s: State, idOf: IdOf, peer: Bytes)
    requires !s.done && !s.initiator && s.transcript.None? && Meets(s, peer)
    ensures CanComplete(s, idOf)
  {
    var first := Input(Oracle(map[], {}), MarshalInit(peer), Coins([], []));
    InitMeets(s, idOf, peer, first);
    var second := NextCompletes(Meet(s, peer), idOf, peer);
    hide Handle, Meet;
    var ins := [first, second];
    assert ins[..1] == [first] && [first][..0] == [];
    assert Feed(s, idOf, [first]) == Meet(s, peer);
    CompletesLast(s, idOf, ins);
  }

  /** A key met in turn stays met, transcript included, whether or not the message is then refused. */
  lemma MetStays(s: State, o: Oracle, idOf: IdOf, peer: Bytes, msg: Bytes, coins: Coins)
    requires !s.done && !Unexpected(s, msg)
    requires if s.initiator then ParseAuth(msg).Ok? && peer == ParseAuth(msg).value.0 else ParseInit(msg) == Ok(peer)
    ensures var t := Handle(s, o, idOf, msg, coins).state;
            && t.peerEph == Some(peer)
            && t.transcript == Some(if s.initiator then TranscriptOf(s.eph, peer) else TranscriptOf(peer, s.eph))
  {
    hide ParseAuth, CheckAuth, SealAuth, TranscriptOf;
    if !s.initiator {
      InitExact(msg);
    }
    hide ParseInit;
  }

  /** A responder that is first sent a key on which agreement fails can never complete. */
  lemma BadKeyDooms(s: State, o: Oracle, idOf: IdOf, peer: Bytes, coins: Coins, good: Bytes)
    requires !s.done && !s.initiator && s.transcript.None? && s.shared.None?
    requires |peer| == 32 && peer in s.lowOrder && Meets(s, good)
    ensures var h := Handle(s, o, idOf, MarshalInit(peer), coins);
            h.answer == Err(BadMessage) && !CanComplete(h.state, idOf)
  {
    InitRoundTrip(peer);
    hide ParseInit, SealAuth, OwnTranscript;
    var h := Handle(s, o, idOf, MarshalInit(peer), coins);
    assert h.state == Meet(s, peer);
    CanCompleteIff(h.state, idOf, good);
  }
}
