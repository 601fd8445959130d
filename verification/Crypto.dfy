/**
 Idealised cryptography.

 Key derivation, key agreement and hashing are free constructors, so two derived
 secrets are equal only when they were derived the same way. Key agreement depends on
 the unordered pair of public keys, which makes it commutative. Authenticated
 encryption is a ledger: opening succeeds exactly on what was sealed under the same
 key and the same authenticated data.
 */
module Crypto {
  import opened Bytes

  const KEY_SIZE := 32
  const NONCE_SIZE := 12
  const TAG_SIZE := 16

  datatype Digest = Sha256(preimage: Bytes)

  datatype Salt = NoSalt | Raw(b: Bytes) | Hash(d: Digest)

  datatype Secret =
    | Zeroed
    | Agreed(publics: multiset<Bytes>)
    | Hkdf(secret: Secret, salt: Salt, info: string, length: nat)

  /** What one sealing binds together. */
  datatype Entry = Entry(key: Secret, aad: Bytes, blob: Bytes)

  type Ledger = map<Entry, Bytes>

  /** Opens a blob: the sealed plaintext, if this very blob was sealed under this key and data. */
  function Unseal(ledger: Ledger, key: Secret, aad: Bytes, blob: Bytes): Option<Bytes> {
    if Entry(key, aad, blob) in ledger then Some(ledger[Entry(key, aad, blob)]) else None
  }

  /** A buffer of key material, wiped in place. */
  class KeyBuffer {
    var content: Secret

    constructor (content: Secret)
      ensures this.content == content
    {
      this.content := content;
    }

    method Zeroise()
      modifies this
      ensures content == Zeroed
    {
      content := Zeroed;
    }
  }

  /** The ideal AEAD shared by everyone who seals or opens. */
  class Aead {
    var ledger: Ledger

    constructor ()
      ensures ledger == map[]
    {
      ledger := map[];
    }

    /** Seals under a fresh nonce: nonce, ciphertext and tag come back as one blob. */
    method Seal(key: Secret, aad: Bytes, plaintext: Bytes) returns (blob: Bytes)
      modifies this
      ensures |blob| == NONCE_SIZE + |plaintext| + TAG_SIZE
      ensures ledger == old(ledger)[Entry(key, aad, blob) := plaintext]
    {
      blob := *;
      if |blob| != NONCE_SIZE + |plaintext| + TAG_SIZE {
        blob := seq(NONCE_SIZE + |plaintext| + TAG_SIZE, _ => 0);
      }
      ledger := ledger[Entry(key, aad, blob) := plaintext];
    }

    method Open(key: Secret, aad: Bytes, blob: Bytes) returns (plaintext: Option<Bytes>)
      ensures plaintext == Unseal(ledger, key, aad, blob)
    {
      plaintext := Unseal(ledger, key, aad, blob);
    }
  }
}
