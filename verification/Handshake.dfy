/** The object that drives one side of the handshake (internal/proto/handshake.go). */
module Handshake {
  import opened Bytes
  import opened Crypto
  import opened HandshakeCodec
  import opened Spec = HandshakeSpec
  import SessionSpec
  import Sessions = Session

  /** Ideal signatures: what has been signed verifies, and nothing else does. */
  class Signer {
    var signed: set<Signature>

    constructor ()
      ensures signed == {}
    {
      signed := {};
    }

    method Sign(publicKey: Bytes, digest: Digest) returns (bytes: Bytes)
      modifies this
      ensures |bytes| == 64 && signed == old(signed) + {Signature(publicKey, digest, bytes)}
    {
      bytes := *;
      if |bytes| != 64 {
        bytes := seq(64, _ => 0);
      }
      signed := signed + {Signature(publicKey, digest, bytes)};
    }
  }

  class Handshaker {
    const id: Identity
    const initiator: bool
    const ephPub: Bytes
    const lowOrder: set<Bytes>
    const idOf: IdOf
    const aead: Aead
    const signer: Signer
    var peerEph: Option<Bytes>
    var transcript: Option<Digest>
    var shared: Option<Secret>
    var done: bool

    ghost function View(): State
      reads this
    {
      State(id, initiator, ephPub, lowOrder, peerEph, transcript, shared, done)
    }

    ghost function World(): Oracle
      reads this, aead, signer
    {
      Oracle(aead.ledger, signer.signed)
    }

    constructor (id: Identity, initiator: bool, ephPub: Bytes, lowOrder: set<Bytes>, idOf: IdOf, aead: Aead,
                 signer: Signer)
      ensures View() == Fresh(id, initiator, ephPub, lowOrder)
      ensures this.idOf == idOf && this.aead == aead && this.signer == signer
    {
      this.id, this.initiator, this.ephPub, this.lowOrder := id, initiator, ephPub, lowOrder;
      this.idOf, this.aead, this.signer := idOf, aead, signer;
      peerEph, transcript, shared, done := None, None, None, false;
    }

    /** The initiator's first message. */
    method InitMessage() returns (msg: Option<Bytes>)
      ensures msg == if initiator then Some(MarshalInit(ephPub)) else None
    {
      if !initiator {
        return None;
      }
      return Some([HS_TYPE_INIT] + BE16(|ephPub| % 0x1_0000) + ephPub);
    }

    /** Installs the peer's ephemeral key; the transcript is set even if the agreement then fails. */
    method MeetPeer(peer: Bytes) returns (ok: bool)
      modifies this
      ensures View() == Meet(old(View()), peer) && ok == Meets(old(View()), peer)
    {
      peerEph := Some(peer);
      transcript := Some(Sha256(if initiator then DOMAIN + ephPub + peer else DOMAIN + peer + ephPub));
      if |peer| != 32 || peer in lowOrder {
        return false;
      }
      shared := Some(Agreed(multiset{ephPub, peer}));
      return true;
    }

    method SealOwn(info: string) returns (blob: Bytes, ghost coins: Coins)
      requires shared.Some? && transcript.Some?
      modifies aead, signer
      ensures ProperCoins(View(), coins) && coins.blob == blob
      ensures World() == SealAuth(View(), old(World()), shared.value, transcript.value, info, coins)
    {
      var k := Hkdf(shared.value, Hash(transcript.value), info, KEY_SIZE);
      var sig := signer.Sign(id.publicKey, transcript.value);
      var plain := MarshalAuthPlain(AuthPlain(id.publicKey, id.name, sig));
      blob := aead.Seal(k, HS_AAD, plain);
      coins := Coins(sig, blob);
    }

    /** Opens the peer's part, then checks its signature and that it is not our own identity. */
    method OpenPeer(blob: Bytes, info: string) returns (r: Result<AuthPlain, HsError>)
      requires shared.Some? && transcript.Some?
      ensures r == CheckAuth(View(), World(), shared.value, transcript.value, info, blob)
    {
      var k := Hkdf(shared.value, Hash(transcript.value), info, KEY_SIZE);
      var plain := aead.Open(k, HS_AAD, blob);
      if plain.None? {
        return Err(BadMessage);
      }
      r := ParseAuthPlain(plain.value);
      if r.Err? {
        return;
      }
      if Signature(r.value.publicKey, transcript.value, r.value.signature) !in signer.signed {
        return Err(BadSignature);
      }
      if r.value.publicKey == id.publicKey {
        return Err(SelfConnection);
      }
    }

    /**
     Processes the next message exactly as the specification does. On completion the
     session object starts in the state the result names.
     */
    method HandleMessage(msg: Bytes) returns (answer: Result<Answer, HsError>, session: Sessions.Session?,
                                              ghost coins: Coins)
      modifies this, aead, signer
      ensures Handled(View(), World(), answer) == Handle(old(View()), old(World()), idOf, msg, coins)
      ensures session != null <==> Completes(answer)
      ensures session != null ==>
                && fresh(session) && session.Valid()
                && session.View() == answer.value.result.value.session
    {
      hide ParseInit, ParseAuth, CheckAuth, SealAuth, MarshalAuth;
      session, coins := null, Coins([], []);
      if done {
        return Err(AlreadyDone), null, coins;
      }
      if |msg| == 0 || |msg| > MAX_HS_SIZE {
        return Err(BadMessage), null, coins;
      }
      if !initiator && msg[0] == HS_TYPE_INIT && transcript.None? {
        answer, coins := HandleInitMessage(msg);
      } else if msg[0] == HS_TYPE_AUTH {
        if initiator {
          answer, session, coins := HandleAuthAsInitiator(msg);
        } else {
          answer, session := HandleAuthAsResponder(msg);
        }
      } else {
        answer := Err(BadMessage);
      }
    }

    method HandleInitMessage(msg: Bytes) returns (answer: Result<Answer, HsError>, ghost coins: Coins)
      modifies this, aead, signer
      ensures Handled(View(), World(), answer) == HandleInit(old(View()), old(World()), msg, coins)
    {
      hide ParseInit, SealAuth, MarshalAuth;
      coins := Coins([], []);
      var peer := ParseInit(msg);
      if peer.Err? {
        return Err(peer.error), coins;
      }
      var ok := MeetPeer(peer.value);
      if !ok {
        return Err(BadMessage), coins;
      }
      var blob;
      blob, coins := SealOwn(INFO_HS2);
      SealIgnoresProgress(old(View()), View(), old(World()), shared.value, transcript.value, INFO_HS2, coins);
      return Ok(Answer(Some(MarshalAuth(ephPub, blob)), None)), coins;
    }

    method HandleAuthAsInitiator(msg: Bytes) returns (answer: Result<Answer, HsError>, session: Sessions.Session?,
                                                      ghost coins: Coins)
      requires initiator
      modifies this, aead, signer
      ensures Handled(View(), World(), answer) == HandleAuthInitiator(old(View()), old(World()), idOf, msg, coins)
      ensures session != null <==> Completes(answer)
      ensures session != null ==>
                && fresh(session) && session.Valid()
                && session.View() == answer.value.result.value.session
    {
      hide ParseAuth, SealAuth, MarshalAuth, CheckAuth;
      session, coins := null, Coins([], []);
      var parsed := ParseAuth(msg);
      if parsed.Err? {
        return Err(parsed.error), null, coins;
      }
      var ok := MeetPeer(parsed.value.0);
      if !ok {
        return Err(BadMessage), null, coins;
      }
      var a := OpenPeer(parsed.value.1, INFO_HS2);
      CheckIgnoresProgress(old(View()), View(), World(), shared.value, transcript.value, INFO_HS2, parsed.value.1);
      if a.Err? {
        return Err(a.error), null, coins;
      }
      var blob;
      blob, coins := SealOwn(INFO_HS3);
      SealIgnoresProgress(old(View()), View(), old(World()), shared.value, transcript.value, INFO_HS3, coins);
      session := new Sessions.Session(shared.value, transcript.value, true, idOf);
      answer := Ok(Answer(Some(MarshalAuth(ephPub, blob)), Some(Outcome(a.value))));
      done, shared := true, None;
    }

    method HandleAuthAsResponder(msg: Bytes) returns (answer: Result<Answer, HsError>, session: Sessions.Session?)
      requires !initiator
      modifies this
      ensures Handled(View(), World(), answer) == HandleAuthResponder(old(View()), old(World()), idOf, msg)
      ensures session != null <==> Completes(answer)
      ensures session != null ==>
                && fresh(session) && session.Valid()
                && session.View() == answer.value.result.value.session
    {
      hide ParseAuth, CheckAuth;
      session := null;
      if transcript.None? {
        return Err(BadMessage), null;
      }
      var parsed := ParseAuth(msg);
      if parsed.Err? {
        return Err(parsed.error), null;
      }
      if shared.None? {
        return Err(BadMessage), null;
      }
      var a := OpenPeer(parsed.value.1, INFO_HS3);
      if a.Err? {
        return Err(a.error), null;
      }
      session := new Sessions.Session(shared.value, transcript.value, false, idOf);
      answer := Ok(Answer(None, Some(Outcome(a.value))));
      done, shared := true, None;
    }

    /** The result record, before the secrets are dropped. */
    function Outcome(a: AuthPlain): (d: Done)
      requires shared.Some? && transcript.Some?
      reads this
      ensures d == Established(View(), idOf, shared.value, transcript.value, a)
    {
      var root := SessionSpec.RootOf(shared.value, transcript.value);
      Done(SessionSpec.Initial(root, idOf(Hkdf(root, NoSalt, SessionSpec.INFO_SESSION, 8)), initiator), a.name,
           a.publicKey, transcript.value)
    }
  }

  // Sealing and checking depend on a state only through its identity.

  lemma SealIgnoresProgress(s: State, s': State, o: Oracle, shared: Secret, transcript: Digest, info: string,
                            coins: Coins)
    requires s.id == s'.id
    ensures SealAuth(s, o, shared, transcript, info, coins) == SealAuth(s', o, shared, transcript, info, coins)
  {
  }

  lemma CheckIgnoresProgress(s: State, s': State, o: Oracle, shared: Secret, transcript: Digest, info: string,
                             blob: Bytes)
    requires s.id == s'.id
    ensures CheckAuth(s, o, shared, transcript, info, blob) == CheckAuth(s', o, shared, transcript, info, blob)
  {
  }
}
