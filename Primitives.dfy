/** Bytes, and the cryptographic library calls the encryptor relies on.

    The encryptor owns none of its cryptography: PBKDF2, HMAC-SHA256 and
    AES-256-CBC are calls into PHP's hash and OpenSSL extensions. They are
    modelled here as function values bundled in a `Crypto` record, together
    with the only facts the encryptor depends on: the output lengths of the
    key derivation and of the MAC, and that decryption inverts encryption
    under the same key and IV.
 */
module Primitives {

  newtype byte = x: int | 0 <= x < 256

  datatype Option<+T> = None | Some(value: T)

  /** Digest size of HMAC-SHA256, in bytes. */
  const HMAC_SHA256_LENGTH: nat := 32

  datatype Crypto = Crypto(
    /** hash_pbkdf2('sha256', password, salt, iterations, length, true) */
    pbkdf2Sha256: (seq<byte>, seq<byte>, nat, nat) -> seq<byte>,
    /** hash_hmac('sha256', message, key, true), arguments as (key, message) */
    hmacSha256: (seq<byte>, seq<byte>) -> seq<byte>,
    /** openssl_encrypt(plaintext, 'aes-256-cbc', key, OPENSSL_RAW_DATA, iv) */
    aesEncrypt: (seq<byte>, seq<byte>, seq<byte>) -> seq<byte>,
    /** openssl_decrypt(ciphertext, 'aes-256-cbc', key, OPENSSL_RAW_DATA, iv); None stands for `false` */
    aesDecrypt: (seq<byte>, seq<byte>, seq<byte>) -> Option<seq<byte>>
  )

  /** Raw PBKDF2 output has exactly the requested length when that length is
      positive (a length of 0 asks for the hash's full digest instead). */
  ghost predicate KdfSpec(c: Crypto) {
    forall password, salt, iterations, length | length > 0 ::
      |c.pbkdf2Sha256(password, salt, iterations, length)| == length
  }

  /** A raw HMAC-SHA256 tag is always 32 bytes. */
  ghost predicate MacSpec(c: Crypto) {
    forall key, message :: |c.hmacSha256(key, message)| == HMAC_SHA256_LENGTH
  }

  /** Decrypting with the key and IV used to encrypt gives the plaintext back. */
  ghost predicate CipherSpec(c: Crypto) {
    forall plaintext, key, iv ::
      c.aesDecrypt(c.aesEncrypt(plaintext, key, iv), key, iv) == Some(plaintext)
  }

  ghost predicate Valid(c: Crypto) {
    KdfSpec(c) && MacSpec(c) && CipherSpec(c)
  }

  /** The assumptions are consistent: a (cryptographically worthless) library
      that zero-fills key material and tags and uses the identity as cipher
      meets all of them. */
  lemma ValidCryptoExists()
    ensures exists c :: Valid(c)
  {
    var c := Crypto(
      (password: seq<byte>, salt: seq<byte>, iterations: nat, length: nat) => seq(length, _ => 0 as byte),
      (key: seq<byte>, message: seq<byte>) => seq(HMAC_SHA256_LENGTH, _ => 0 as byte),
      (plaintext: seq<byte>, key: seq<byte>, iv: seq<byte>) => plaintext,
      (ciphertext: seq<byte>, key: seq<byte>, iv: seq<byte>) => Some(ciphertext));
    assert Valid(c);
  }
}
