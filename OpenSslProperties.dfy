/** What the encryptor promises its callers, stated over the model. */
module OpenSslProperties {
  import opened Primitives
  import opened OpenSsl

  /** Decryption undoes encryption, for every password, plaintext and draw
      of salt and IV. */
  lemma RoundTrip(c: Crypto, e: Encryptor, data: seq<byte>, salt: seq<byte>, iv: seq<byte>)
    requires Valid(c)
    requires |salt| == SALT_LENGTH && |iv| == IV_LENGTH
    ensures Decrypt(c, e, Encrypt(c, e, data, salt, iv)) == Ok(data)
  {
    var blob := Encrypt(c, e, data, salt, iv);
    var keys := DeriveKeys(c, e, salt);
    var ciphertext := c.aesEncrypt(data, keys.encKey, iv);
    var b := Blob(salt, iv, Mac(c, keys.authKey, ciphertext, iv), ciphertext);
    ParseSerialize(b);
    assert blob == Serialize(b);
  }

  /** Every encrypted blob is at least 56 bytes long, so never empty. */
  lemma EncryptNonEmpty(c: Crypto, e: Encryptor, data: seq<byte>, salt: seq<byte>, iv: seq<byte>)
    requires KdfSpec(c) && MacSpec(c)
    requires |salt| == SALT_LENGTH && |iv| == IV_LENGTH
    ensures |Encrypt(c, e, data, salt, iv)| >= HEADER_LENGTH > 0
  {
  }

  /** Anything shorter than the header is refused as an invalid argument,
      whatever its bytes, the password or the library: no key derivation,
      MAC or cipher result can change the outcome. */
  lemma ShortInputRejected(c: Crypto, c': Crypto, e: Encryptor, e': Encryptor, data: seq<byte>)
    requires KdfSpec(c) && KdfSpec(c')
    requires |data| < HEADER_LENGTH
    ensures Decrypt(c, e, data) == Decrypt(c', e', data) == Err(InvalidData)
    ensures Kind(Decrypt(c, e, data).error) == InvalidArgumentException
  {
  }

  /** The length check is strict: 56 bytes pass it and parse to an empty
      ciphertext. */
  lemma HeaderOnlyParses(c: Crypto, e: Encryptor, data: seq<byte>)
    requires KdfSpec(c)
    requires |data| == HEADER_LENGTH
    ensures Parse(data).Some? && Parse(data).value.ciphertext == []
    ensures Decrypt(c, e, data) != Err(InvalidData)
  {
  }

  /** A blob long enough to parse only ever fails with a RuntimeException. */
  lemma LongInputFailsAtRuntime(c: Crypto, e: Encryptor, data: seq<byte>)
    requires KdfSpec(c)
    requires |data| >= HEADER_LENGTH
    ensures Decrypt(c, e, data).Err? ==> Kind(Decrypt(c, e, data).error) == RuntimeException
  {
  }

  /** When the MAC does not match, decryption reports the HMAC error and the
      cipher is never consulted: replacing the decryption primitive by any
      other function changes nothing. */
  lemma MacMismatchSkipsCipher(c: Crypto, e: Encryptor, data: seq<byte>,
                               decrypt: (seq<byte>, seq<byte>, seq<byte>) -> Option<seq<byte>>)
    requires KdfSpec(c)
    requires Parse(data).Some? && !Authentic(c, e, Parse(data).value)
    ensures Decrypt(c.(aesDecrypt := decrypt), e, data) == Decrypt(c, e, data) == Err(HmacMismatch)
  {
    var c' := c.(aesDecrypt := decrypt);
    assert KdfSpec(c');
    var b := Parse(data).value;
    assert DeriveKeys(c', e, b.salt) == DeriveKeys(c, e, b.salt);
  }

  /** Once the MAC matches, the outcome is the cipher's verdict: its
      plaintext, or the decrypt failure when it reports false. */
  lemma AuthenticYieldsCipherVerdict(c: Crypto, e: Encryptor, data: seq<byte>)
    requires KdfSpec(c)
    requires Parse(data).Some? && Authentic(c, e, Parse(data).value)
    ensures var b := Parse(data).value;
            match c.aesDecrypt(b.ciphertext, DeriveKeys(c, e, b.salt).encKey, b.iv)
            case None => Decrypt(c, e, data) == Err(DecryptFailed)
            case Some(p) => Decrypt(c, e, data) == Ok(p)
  {
  }

  /** Exactly the blobs that decrypt to a plaintext p are the framings of a
      salt, an IV, the matching MAC and a ciphertext the cipher opens to p. */
  lemma DecryptOkIff(c: Crypto, e: Encryptor, data: seq<byte>, p: seq<byte>)
    requires KdfSpec(c) && MacSpec(c)
    ensures Decrypt(c, e, data) == Ok(p) <==>
            exists salt, iv, ciphertext ::
              && |salt| == SALT_LENGTH && |iv| == IV_LENGTH
              && c.aesDecrypt(ciphertext, DeriveKeys(c, e, salt).encKey, iv) == Some(p)
              && data == Serialize(Blob(salt, iv, Mac(c, DeriveKeys(c, e, salt).authKey, ciphertext, iv), ciphertext))
  {
    if Decrypt(c, e, data) == Ok(p) {
      var b := Parse(data).value;
      assert c.aesDecrypt(b.ciphertext, DeriveKeys(c, e, b.salt).encKey, b.iv) == Some(p);
      assert data == Serialize(Blob(b.salt, b.iv, Mac(c, DeriveKeys(c, e, b.salt).authKey, b.ciphertext, b.iv), b.ciphertext));
    }
    if exists salt, iv, ciphertext ::
         && |salt| == SALT_LENGTH && |iv| == IV_LENGTH
         && c.aesDecrypt(ciphertext, DeriveKeys(c, e, salt).encKey, iv) == Some(p)
         && data == Serialize(Blob(salt, iv, Mac(c, DeriveKeys(c, e, salt).authKey, ciphertext, iv), ciphertext))
    {
      var salt, iv, ciphertext :|
         && |salt| == SALT_LENGTH && |iv| == IV_LENGTH
         && c.aesDecrypt(ciphertext, DeriveKeys(c, e, salt).encKey, iv) == Some(p)
         && data == Serialize(Blob(salt, iv, Mac(c, DeriveKeys(c, e, salt).authKey, ciphertext, iv), ciphertext));
      var b := Blob(salt, iv, Mac(c, DeriveKeys(c, e, salt).authKey, ciphertext, iv), ciphertext);
      ParseSerialize(b);
    }
  }

  /** Distinct calls give distinct blobs: the blob determines the salt, the
      IV and the plaintext it was made from. With fresh random salts and IVs
      repeated encryptions of one plaintext therefore never collide. */
  lemma EncryptInjective(c: Crypto, e: Encryptor,
                         data1: seq<byte>, salt1: seq<byte>, iv1: seq<byte>,
                         data2: seq<byte>, salt2: seq<byte>, iv2: seq<byte>)
    requires Valid(c)
    requires |salt1| == SALT_LENGTH && |iv1| == IV_LENGTH
    requires |salt2| == SALT_LENGTH && |iv2| == IV_LENGTH
    requires Encrypt(c, e, data1, salt1, iv1) == Encrypt(c, e, data2, salt2, iv2)
    ensures data1 == data2 && salt1 == salt2 && iv1 == iv2
  {
    RoundTrip(c, e, data1, salt1, iv1);
    RoundTrip(c, e, data2, salt2, iv2);
  }

  /** The key derivation is the 32-byte PBKDF2 output cut in half. */
  lemma DeriveKeysHalves(c: Crypto, e: Encryptor, salt: seq<byte>)
    requires KdfSpec(c)
    ensures var key := c.pbkdf2Sha256(e.password, salt, PBKDF2_ITERATIONS, KEY_LENGTH * 2);
            |key| == 32 &&
            DeriveKeys(c, e, salt) == Keys(key[..16], key[16..])
  {
    var key := c.pbkdf2Sha256(e.password, salt, PBKDF2_ITERATIONS, KEY_LENGTH * 2);
    var keys := DeriveKeys(c, e, salt);
    assert keys.encKey == (keys.encKey + keys.authKey)[..16];
    assert keys.authKey == (keys.encKey + keys.authKey)[16..];
  }

  /** The three failures are told apart by exception class and message: the
      short-input failure is the only InvalidArgumentException, and the two
      RuntimeExceptions carry the messages callers match on. */
  lemma ErrorsDistinguishable()
    ensures Kind(InvalidData) == InvalidArgumentException
    ensures Kind(HmacMismatch) == Kind(DecryptFailed) == RuntimeException
    ensures "Data is not valid" <= Message(InvalidData)
    ensures "HMAC" <= Message(HmacMismatch)
    ensures Message(DecryptFailed) == "Failed to decrypt data"
    ensures Message(HmacMismatch) != Message(DecryptFailed)
  {
  }
}
