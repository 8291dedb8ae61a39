/** The OpenSsl encryptor: password-based encrypt-then-MAC with a fixed
    binary framing.

    Wire format of an encrypted blob:

      offset  length  field
        0        8    salt      (PBKDF2 salt)
        8       16    iv        (AES-256-CBC initialisation vector)
       24       32    mac       (HMAC-SHA256 over ciphertext || iv)
       56        *    ciphertext

    The random salt and IV drawn by `encrypt` are parameters here; the
    password is the immutable state of an `Encryptor` value.
 */
module OpenSsl {
  import opened Primitives
  import PhpString

  const PBKDF2_ITERATIONS: nat := 50000
  const SALT_LENGTH: nat := 8
  const MAC_LENGTH: nat := 32
  /** 128-bit keys, one for encryption and one for authentication. */
  const KEY_LENGTH: nat := 16
  /** openssl_cipher_iv_length('aes-256-cbc') */
  const IV_LENGTH: nat := 16
  /** Shortest input `Decrypt` accepts: 8 + 16 + 32 = 56 bytes. */
  const HEADER_LENGTH: nat := SALT_LENGTH + IV_LENGTH + MAC_LENGTH

  /** An encryptor holds its password and nothing else. */
  datatype Encryptor = Encryptor(password: seq<byte>)

  /** The exception class a failure is reported with. */
  datatype ExceptionClass = InvalidArgumentException | RuntimeException

  datatype Error = InvalidData | HmacMismatch | DecryptFailed

  datatype DecryptResult = Ok(plaintext: seq<byte>) | Err(error: Error)

  /** Only the short-input failure is an InvalidArgumentException. */
  function Kind(e: Error): (k: ExceptionClass)
    ensures k == InvalidArgumentException <==> e == InvalidData
  {
    match e
    case InvalidData => InvalidArgumentException
    case HmacMismatch => RuntimeException
    case DecryptFailed => RuntimeException
  }

  /** Each message is recognised by the words callers match on. */
  function Message(e: Error): (m: string)
    ensures e == InvalidData <==> "Data is not valid" <= m
    ensures e == HmacMismatch <==> "HMAC" <= m
    ensures e == DecryptFailed <==> "Failed to decrypt" <= m
  {
    // The three messages already differ in their first letter.
    assert "Data is not valid"[0] == 'D' && "HMAC"[0] == 'H' && "Failed to decrypt"[0] == 'F';
    match e
    case InvalidData => "Data is not valid for decryption"
    case HmacMismatch => "HMAC failed to match"
    case DecryptFailed => "Failed to decrypt data"
  }

  /** The two keys derived from the password and a salt. */
  datatype Keys = Keys(encKey: seq<byte>, authKey: seq<byte>)

  /** PBKDF2-HMAC-SHA256 over the password and salt, 50000 iterations, 32
      bytes of output, cut by str_split into 16-byte keys: the first for the
      cipher, the second for the MAC. */
  function DeriveKeys(c: Crypto, e: Encryptor, salt: seq<byte>): (keys: Keys)
    requires KdfSpec(c)
    ensures |keys.encKey| == KEY_LENGTH && |keys.authKey| == KEY_LENGTH
    ensures keys.encKey + keys.authKey
         == c.pbkdf2Sha256(e.password, salt, PBKDF2_ITERATIONS, KEY_LENGTH * 2)
  {
    var key := c.pbkdf2Sha256(e.password, salt, PBKDF2_ITERATIONS, KEY_LENGTH * 2);
    PhpString.StrSplitHalves(key, KEY_LENGTH);
    var chunks := PhpString.StrSplit(key, KEY_LENGTH);
    Keys(chunks[0], chunks[1])
  }

  /** The authentication tag: HMAC-SHA256 keyed with the authentication key
      over the ciphertext followed by the IV. Encrypt and Decrypt both use
      this one definition. */
  function Mac(c: Crypto, authKey: seq<byte>, ciphertext: seq<byte>, iv: seq<byte>): (tag: seq<byte>)
    ensures MacSpec(c) ==> |tag| == MAC_LENGTH
  {
    c.hmacSha256(authKey, ciphertext + iv)
  }

  /** The four fields of an encrypted blob. */
  datatype Blob = Blob(salt: seq<byte>, iv: seq<byte>, mac: seq<byte>, ciphertext: seq<byte>)

  /** The fixed-width fields have their wire lengths. */
  predicate WellFormed(b: Blob)
  {
    |b.salt| == SALT_LENGTH && |b.iv| == IV_LENGTH && |b.mac| == MAC_LENGTH
  }

  /** salt || iv || mac || ciphertext: with wire-length fields, each field
      sits at its offset of the wire format. */
  function Serialize(b: Blob): (data: seq<byte>)
    ensures |data| == |b.salt| + |b.iv| + |b.mac| + |b.ciphertext|
    ensures WellFormed(b) ==>
              && data[..SALT_LENGTH] == b.salt
              && data[SALT_LENGTH..SALT_LENGTH + IV_LENGTH] == b.iv
              && data[SALT_LENGTH + IV_LENGTH..HEADER_LENGTH] == b.mac
              && data[HEADER_LENGTH..] == b.ciphertext
  {
    b.salt + b.iv + b.mac + b.ciphertext
  }

  /** The length check followed by the four substr calls of decrypt. */
  function Parse(data: seq<byte>): (r: Option<Blob>)
    ensures r.Some? <==> |data| >= HEADER_LENGTH
    ensures r.Some? ==> WellFormed(r.value) && Serialize(r.value) == data
  {
    if |data| < HEADER_LENGTH then None
    else
      var b := Blob(data[..SALT_LENGTH],
                    data[SALT_LENGTH..SALT_LENGTH + IV_LENGTH],
                    data[SALT_LENGTH + IV_LENGTH..HEADER_LENGTH],
                    data[HEADER_LENGTH..]);
      assert Serialize(b) == data;
      Some(b)
  }

  /** Framing followed by parsing gives the fields back. */
  lemma ParseSerialize(b: Blob)
    requires WellFormed(b)
    ensures Parse(Serialize(b)) == Some(b)
  {
    var data := Serialize(b);
    assert data[..SALT_LENGTH] == b.salt;
    assert data[SALT_LENGTH..SALT_LENGTH + IV_LENGTH] == b.iv;
    assert data[SALT_LENGTH + IV_LENGTH..HEADER_LENGTH] == b.mac;
    assert data[HEADER_LENGTH..] == b.ciphertext;
  }

  /** The MAC stored in a blob is the one recomputed from its salt, IV and
      ciphertext. hash_equals is plain equality here, so, as hash_equals
      does, a stored MAC of the wrong length never matches. */
  predicate Authentic(c: Crypto, e: Encryptor, b: Blob)
    requires KdfSpec(c)
    ensures MacSpec(c) && |b.mac| != MAC_LENGTH ==> !Authentic(c, e, b)
  {
    Mac(c, DeriveKeys(c, e, b.salt).authKey, b.ciphertext, b.iv) == b.mac
  }

  /** encrypt(data), given the random salt and IV it draws. */
  function Encrypt(c: Crypto, e: Encryptor, data: seq<byte>, salt: seq<byte>, iv: seq<byte>): (blob: seq<byte>)
    requires KdfSpec(c) && MacSpec(c)
    requires |salt| == SALT_LENGTH && |iv| == IV_LENGTH
    ensures var keys := DeriveKeys(c, e, salt);
            var ciphertext := c.aesEncrypt(data, keys.encKey, iv);
            && |blob| == HEADER_LENGTH + |ciphertext|
            && blob[..SALT_LENGTH] == salt
            && blob[SALT_LENGTH..SALT_LENGTH + IV_LENGTH] == iv
            && blob[SALT_LENGTH + IV_LENGTH..HEADER_LENGTH] == c.hmacSha256(keys.authKey, ciphertext + iv)
            && blob[HEADER_LENGTH..] == ciphertext
  {
    var keys := DeriveKeys(c, e, salt);
    var encryptedData := c.aesEncrypt(data, keys.encKey, iv);
    var mac := Mac(c, keys.authKey, encryptedData, iv);
    var b := Blob(salt, iv, mac, encryptedData);
    ParseSerialize(b);
    Serialize(b)
  }

  /** decrypt(data): the length check, then the MAC check, then the cipher. */
  function Decrypt(c: Crypto, e: Encryptor, data: seq<byte>): (r: DecryptResult)
    requires KdfSpec(c)
    ensures r == Err(InvalidData) <==> |data| < HEADER_LENGTH
    ensures r == Err(HmacMismatch) <==>
              |data| >= HEADER_LENGTH && !Authentic(c, e, Parse(data).value)
    ensures r == Err(DecryptFailed) <==>
              && |data| >= HEADER_LENGTH
              && Authentic(c, e, Parse(data).value)
              && var b := Parse(data).value;
                 c.aesDecrypt(b.ciphertext, DeriveKeys(c, e, b.salt).encKey, b.iv) == None
    ensures r.Ok? ==>
              var b := Parse(data).value;
              Authentic(c, e, b) &&
              c.aesDecrypt(b.ciphertext, DeriveKeys(c, e, b.salt).encKey, b.iv) == Some(r.plaintext)
  {
    match Parse(data)
    case None => Err(InvalidData)
    case Some(b) =>
      var keys := DeriveKeys(c, e, b.salt);
      var calculatedMac := Mac(c, keys.authKey, b.ciphertext, b.iv);
      if calculatedMac != b.mac then Err(HmacMismatch)
      else
        match c.aesDecrypt(b.ciphertext, keys.encKey, b.iv)
        case None => Err(DecryptFailed)
        case Some(decryptedData) => Ok(decryptedData)
  }
}
