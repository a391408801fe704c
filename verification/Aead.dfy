/** The AEAD provider as an ideal sealed box (src/aead/aead.cpp): two functions of which only the laws in `Sound`
    are known. OpenSSL itself is not part of this model. */
module Aead {
  import opened Core

  datatype Algorithm = Aes256Gcm | ChaCha20Poly1305

  const KEY_BYTES: nat := 32
  const NONCE_BYTES: nat := 12
  const TAG_BYTES: nat := 16

  datatype Ciphertext = Ciphertext(nonce: Bytes, data: Bytes, tag: Bytes)

  datatype Provider = Provider(
    encrypt: (Algorithm, Bytes, Bytes, Bytes, Bytes) -> (Bytes, Bytes),
    decrypt: (Algorithm, Bytes, Bytes, Bytes, Bytes, Bytes) -> Option<Bytes>)
  {
    /** Length preserving, and a box opens to a plaintext exactly when that plaintext seals to the box. */
    ghost predicate Sound() {
      && (forall alg, key, nonce, p, aad :: |encrypt(alg, key, nonce, p, aad).0| == |p|)
      && (forall alg, key, nonce, p, aad :: |encrypt(alg, key, nonce, p, aad).1| == TAG_BYTES)
      && (forall alg, key, nonce, data, tag, aad, p ::
            decrypt(alg, key, nonce, data, tag, aad) == Some(p) <==> encrypt(alg, key, nonce, p, aad) == (data, tag))
    }

    function Encrypt(alg: Algorithm, key: Bytes, nonce: Bytes, plaintext: Bytes, aad: Bytes): Result<Ciphertext> {
      if |key| != KEY_BYTES then Err(InvalidKey)
      else if |nonce| != NONCE_BYTES then Err(InvalidArgument)
      else
        var (data, tag) := encrypt(alg, key, nonce, plaintext, aad);
        Ok(Ciphertext(nonce, data, tag))
    }

    function Decrypt(alg: Algorithm, key: Bytes, box: Ciphertext, aad: Bytes): Result<Bytes> {
      if |key| != KEY_BYTES then Err(InvalidKey)
      else if |box.nonce| != NONCE_BYTES || |box.tag| != TAG_BYTES then Err(InvalidArgument)
      else
        match decrypt(alg, key, box.nonce, box.data, box.tag, aad)
        case Some(p) => Ok(p)
        case None => Err(AuthenticationFailed)
    }

    /** What was sealed opens, to the same plaintext. */
    lemma DecryptOfEncrypt(alg: Algorithm, key: Bytes, nonce: Bytes, plaintext: Bytes, aad: Bytes)
      requires Sound() && Encrypt(alg, key, nonce, plaintext, aad).Ok?
      ensures var box := Encrypt(alg, key, nonce, plaintext, aad).value;
              && Decrypt(alg, key, box, aad) == Ok(plaintext)
              && box.nonce == nonce && |box.data| == |plaintext| && |box.tag| == TAG_BYTES
    {}
  }

  /** The laws are consistent: a provider that satisfies them exists. */
  lemma SoundIsSatisfiable()
    ensures exists p: Provider :: p.Sound()
  {
    var p := Provider(
      (alg, key, nonce, plaintext, aad) => (plaintext, Zeros(TAG_BYTES)),
      (alg, key, nonce, data, tag, aad) => if tag == Zeros(TAG_BYTES) then Some(data) else None);
    assert p.Sound();
  }
}
