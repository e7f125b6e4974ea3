/** Symbolic models of the two foreign primitives the servers use: Fernet symmetric
    encryption (secure_server.py) and SHA-256 hex digests (auth.py).
    Neither is computed: a ciphertext remembers the key and the plaintext it was made
    from, and a digest remembers its preimage, so the only facts available about them
    are the ones the source relies on. */
module Crypto {
  import opened Options

  /** The process-wide Fernet key (`secret.key`). */
  type Key = int

  /** A stored message body: either a token issued by `Encrypt`, or bytes that did not
      come from `Encrypt` (a corrupted record, or one from an older key file). */
  datatype Ciphertext = Token(key: Key, plaintext: string) | Garbled(raw: string)

  function Encrypt(k: Key, plaintext: string): (c: Ciphertext)
    ensures c.Token? && c.key == k
  {
    Token(k, plaintext)
  }

  /** `fernet.decrypt(...).decode()`, with `None` for the exception the source catches. */
  function Decrypt(k: Key, c: Ciphertext): (r: Option<string>)
    ensures r.Some? <==> c.Token? && c.key == k
    ensures r.Some? ==> c == Encrypt(k, r.value)
  {
    match c
    case Token(k', p) => if k' == k then Some(p) else None
    case Garbled(_) => None
  }

  /** Decryption undoes encryption under the same key. */
  lemma DecryptEncrypt(k: Key, plaintext: string)
    ensures Decrypt(k, Encrypt(k, plaintext)) == Some(plaintext)
  {
  }

  /** A token issued under another key is rejected. */
  lemma DecryptForeignKey(k: Key, other: Key, plaintext: string)
    requires k != other
    ensures Decrypt(k, Encrypt(other, plaintext)) == None
  {
  }

  /** A SHA-256 hex digest, represented by the string it was computed from; two digests
      are equal exactly when their preimages are (the model has no collisions). */
  datatype Digest = Sha256Hex(preimage: string)

  /** `hashlib.sha256(pw.encode("utf-8")).hexdigest()` */
  function Sha256(s: string): Digest
  {
    Sha256Hex(s)
  }
}
