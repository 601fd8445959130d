/**
 The session object (internal/proto/session.go): key buffers, epochs, sealing and
 opening, proved against the functions of SessionSpec.
 */
module Session {
  import opened Words
  import opened Bytes
  import opened Crypto
  import opened Frames
  import opened Spec = SessionSpec
  import ReplayWindow

  /** Decimal rendering into a 10-byte buffer filled from its end; no uint32 needs more. */
  method Itoa(v: uint32) returns (s: string)
    ensures s == Decimal(v)
    ensures |s| <= 10
  {
    DecimalLength(v, 10);
    if v == 0 {
      return "0";
    }
    var buf := new char[10](_ => '0');
    var i, left := buf.Length, v;
    while left > 0
      invariant 0 <= i <= 10 && 0 <= left <= v
      invariant left > 0 ==> |Decimal(left)| <= i
      invariant Decimal(v) == (if left == 0 then [] else Decimal(left)) + buf[i..]
    {
      i := i - 1;
      ghost var tail := buf[i + 1..];
      buf[i] := Digit(left % 10);
      assert buf[i..] == [Digit(left % 10)] + tail;
      left := left / 10;
    }
    s := buf[i..];
  }

  class Session {
    const sessionID: uint64
    const initiator: bool
    // A chain is its key buffer; recvOld is the chain of the epoch just left.
    var send: KeyBuffer?
    var recv: KeyBuffer?
    var recvOld: KeyBuffer?
    var root: KeyBuffer?
    var epoch: uint32
    var sendSeq: uint64
    const recvWin: ReplayWindow.Window
    var closed: bool
    /** The root secret the session was created with. */
    ghost const secret: Secret

    ghost function Buffers(): set<KeyBuffer?>
      reads this
    {
      {send, recv, recvOld, root}
    }

    /** No two of the session's key buffers are the same memory. */
    ghost predicate Disjoint()
      reads this
    {
      && (send != null ==> send !in {recv, recvOld, root})
      && (recv != null ==> recv !in {recvOld, root})
      && (recvOld != null ==> recvOld != root)
    }

    ghost function SendChain(): Secret
      reads this
    {
      ChainKey(secret, SendDirection(initiator), epoch)
    }

    ghost function RecvChain(epoch: uint32): Secret {
      ChainKey(secret, SendDirection(!initiator), epoch)
    }

    /** Open: every chain holds its epoch's directional key. Closed: every buffer is wiped. */
    ghost predicate Valid()
      reads this, Buffers(), recvWin, recvWin.bitmap
    {
      && recvWin.Valid()
      && Disjoint()
      && send != null && recv != null
      && (recvOld == null ==> epoch == 0)
      && (!closed ==>
            && root != null && root.content == secret
            && send.content == SendChain()
            && recv.content == RecvChain(epoch)
            && (recvOld != null ==> recvOld.content == RecvChain(Prev32(epoch))))
      && (closed ==>
            && root == null
            && send.content == Zeroed && recv.content == Zeroed
            && (recvOld != null ==> recvOld.content == Zeroed))
    }

    ghost function View(): State
      reads this, recvWin
    {
      State(secret, sessionID, initiator, epoch, recvOld != null, sendSeq, recvWin.accepted, closed)
    }

    constructor (shared: Secret, transcript: Digest, initiator: bool, idOf: Secret -> uint64)
      ensures Valid() && fresh(Buffers() - {null}) && fresh(recvWin) && fresh(recvWin.bitmap)
      ensures View() == Initial(RootOf(shared, transcript),
                                idOf(Hkdf(RootOf(shared, transcript), NoSalt, INFO_SESSION, 8)), initiator)
      ensures View().root == Hkdf(shared, Hash(transcript), "heimdall v1 root", 32)
      ensures View().id == idOf(Hkdf(View().root, NoSalt, "heimdall v1 session id", 8)) && View().initiator == initiator
    {
      var key := Hkdf(shared, Hash(transcript), INFO_ROOT, KEY_SIZE);
      root := new KeyBuffer(key);
      secret := key;
      sessionID := idOf(Hkdf(key, NoSalt, INFO_SESSION, 8));
      this.initiator := initiator;
      send, recv, recvOld := null, null, null;
      epoch, sendSeq, closed := 0, 0, false;
      recvWin := new ReplayWindow.Window();
      new;
      InstallEpoch(0);
    }

    /** Both directions' chain keys for an epoch, in fresh buffers; the seed is wiped. */
    method DeriveChains(epoch: uint32) returns (ab: KeyBuffer, ba: KeyBuffer)
      requires root != null && root.content == secret
      ensures fresh(ab) && ab.content == ChainKey(secret, AToB, epoch)
      ensures fresh(ba) && ba.content == ChainKey(secret, BToA, epoch) && ab != ba
    {
      var decimal := Itoa(epoch);
      var seed := new KeyBuffer(Hkdf(root.content, NoSalt, INFO_ROTATE + " " + decimal, KEY_SIZE));
      ab := new KeyBuffer(Hkdf(seed.content, NoSalt, INFO_SEND_AB, KEY_SIZE));
      ba := new KeyBuffer(Hkdf(seed.content, NoSalt, INFO_SEND_BA, KEY_SIZE));
      seed.Zeroise();
    }

    /** Derives fresh chains for the epoch; the receive chain retires, older buffers are wiped. */
    method InstallEpoch(epoch: uint32)
      requires !closed && root != null && root.content == secret && Disjoint()
      modifies this`send, this`recv, this`recvOld, this`epoch, send, recvOld
      ensures Disjoint()
      ensures send != null && fresh(send) && send.content == SendChain()
      ensures recv != null && fresh(recv) && recv.content == RecvChain(epoch)
      ensures old(recv) != null ==> recvOld == old(recv) && recvOld.content == old(recv.content)
      ensures old(recv) == null ==> recvOld == old(recvOld)
      ensures old(send) != null ==> old(send).content == Zeroed
      ensures old(recvOld) != null ==> old(recvOld).content == Zeroed
      ensures this.epoch == epoch
    {
      hide ChainKey, ReplayWindow.Has, ReplayWindow.IsMax;
      var ab, ba := DeriveChains(epoch);
      if recvOld != null {
        recvOld.Zeroise();
      }
      if recv != null {
        recvOld := recv;
      }
      if send != null {
        send.Zeroise();
      }
      if initiator {
        send, recv := ab, ba;
      } else {
        send, recv := ba, ab;
      }
      this.epoch := epoch;
    }

    /** The full key rotation at the interval boundary. */
    method RotateIfDue()
      requires Valid() && !closed
      modifies this, send, recvOld
      ensures Valid() && fresh(Buffers() - old(Buffers()) - {null})
      ensures View() == Rotated(old(View()))
    {
      hide ChainKey, ReplayWindow.Has, ReplayWindow.IsMax;
      if sendSeq > 0 && sendSeq % ROTATION_INTERVAL == 0 {
        InstallEpoch((epoch + 1) % TWO_32);
      }
    }

    /** Seals one frame: the result, the new state and the ledger entry are those of the specification. */
    method Seal(aead: Aead, typ: byte, plaintext: Bytes) returns (r: Result<Bytes, ProtoError>)
      requires Valid()
      modifies this, send, recvOld, aead
      ensures Valid() && fresh(Buffers() - old(Buffers()) - {null})
      ensures r.Ok? <==> CanSeal(old(View()), plaintext)
      ensures r.Err? ==> r.error == (if closed then Closed else TooLarge)
      ensures r.Err? ==> View() == old(View()) && aead.ledger == old(aead.ledger)
      ensures r.Ok? ==>
                && |r.value| == HEADER_SIZE + NONCE_SIZE + |plaintext| + TAG_SIZE
                && var blob := r.value[HEADER_SIZE..];
                && r.value == Marshal(SealedFrame(old(View()), typ, blob))
                && View() == SealedState(old(View()))
                && aead.ledger == old(aead.ledger)[SealedEntry(old(View()), typ, blob) := plaintext]
    {
      hide ChainKey, MessageKey, Header, Marshal, ReplayWindow.Has, ReplayWindow.IsMax;
      if closed {
        return Err(Closed);
      }
      if |plaintext| > MAX_PLAINTEXT {
        return Err(TooLarge);
      }
      RotateIfDue();
      var sealed := SealFrame(aead, typ, plaintext);
      return Ok(sealed);
    }

    /** Seals the next frame under the message key of its number in the current epoch. */
    method SealFrame(aead: Aead, typ: byte, plaintext: Bytes) returns (sealed: Bytes)
      requires Valid() && !closed
      modifies this`sendSeq, aead
      ensures Valid() && sendSeq == (old(sendSeq) + 1) % TWO_64
      ensures |sealed| == HEADER_SIZE + NONCE_SIZE + |plaintext| + TAG_SIZE
      ensures var f := Frame(typ, sessionID, old(sendSeq), epoch, sealed[HEADER_SIZE..]);
              && sealed == Marshal(f)
              && aead.ledger ==
                   old(aead.ledger)[Entry(MessageKey(SendChain(), old(sendSeq)), Header(f), f.blob) := plaintext]
    {
      hide ChainKey, MessageKey, Header, Marshal, ReplayWindow.Has, ReplayWindow.IsMax;
      var msgKey := new KeyBuffer(MessageKey(send.content, sendSeq));
      var f := Frame(typ, sessionID, sendSeq, epoch, []);
      var blob := aead.Seal(msgKey.content, Header(f), plaintext);
      HeaderIgnoresBlob(f, blob);
      f := f.(blob := blob);
      sendSeq := (sendSeq + 1) % TWO_64;
      msgKey.Zeroise();
      MarshalParts(f);
      return Marshal(f);
    }

    /** The receive chain for a frame's epoch, installing the next epoch when the peer rotated first. */
    method ChainForEpoch(e: uint32) returns (chain: KeyBuffer?)
      requires Valid() && !closed
      modifies this, send, recvOld
      ensures Valid() && fresh(Buffers() - old(Buffers()) - {null})
      ensures chain != null <==> EpochAccepted(old(View()), e)
      ensures chain == null ==> View() == old(View())
      ensures chain != null ==>
                && View() == Followed(old(View()), e) && chain in Buffers()
                && chain.content == RecvChain(e)
    {
      hide ChainKey, ReplayWindow.Has, ReplayWindow.IsMax;
      if e == epoch {
        return recv;
      } else if e == (epoch + 1) % TWO_32 {
        InstallEpoch(e);
        return recv;
      } else if (e + 1) % TWO_32 == epoch && recvOld != null {
        return recvOld;
      } else {
        return null;
      }
    }

    /** Opens any buffer exactly as the specification does. */
    method Open(aead: Aead, buf: Bytes) returns (r: Result<(byte, Bytes), ProtoError>)
      requires Valid()
      modifies this, send, recvOld, recvWin, recvWin.bitmap
      ensures Valid() && fresh(Buffers() - old(Buffers()) - {null})
      ensures Opened(View(), r) == Spec.Open(old(View()), aead.ledger, buf)
    {
      hide ChainKey, MessageKey, Header, Parse, ReplayWindow.Has, ReplayWindow.IsMax, ReplayWindow.Fresh;
      if closed {
        return Err(Closed);
      }
      var parsed := Parse(buf);
      if parsed.Err? {
        return Err(parsed.error);
      }
      var f := parsed.value;
      if f.session != sessionID {
        return Err(BadSession);
      }
      var chain := ChainForEpoch(f.rotation);
      if chain == null {
        return Err(BadEpoch);
      }
      var msgKey := new KeyBuffer(MessageKey(chain.content, f.sequence));
      var pt := aead.Open(msgKey.content, Header(f), f.blob);
      msgKey.Zeroise();
      if pt.None? {
        return Err(Auth);
      }
      var isFresh := recvWin.Check(f.sequence);
      if !isFresh {
        return Err(Replay);
      }
      return Ok((f.typ, pt.value));
    }

    /** Closing wipes every key buffer the session still holds, the root included. */
    method Close()
      requires Valid()
      modifies this, Buffers()
      ensures Valid() && closed
      ensures View() == old(View()).(closed := true)
      ensures forall b <- old(Buffers()) | b != null :: b.content == Zeroed
    {
      closed := true;
      send.Zeroise();
      recv.Zeroise();
      if recvOld != null {
        recvOld.Zeroise();
      }
      if root != null {
        root.Zeroise();
        root := null;
      }
    }
  }
}
