# phlib/encrypt — the OpenSsl encryptor, modelled in Dafny

The `OpenSsl` encryptor turns a password and a plaintext into a
self-contained blob and back. It uses encrypt-then-MAC:

- Keys come from PBKDF2-HMAC-SHA256 with 50000 iterations over the password and a random 8-byte salt.
- The 32-byte PBKDF2 output is cut into a 16-byte encryption key and a 16-byte authentication key.
- The plaintext is encrypted with AES-256-CBC under a random 16-byte IV.
- The tag is HMAC-SHA256 over `ciphertext || iv`.
- The blob is `salt(8) || iv(16) || mac(32) || ciphertext`.

Decryption runs three checks in a fixed order:

1. A length check. Fewer than 56 bytes gives `InvalidArgumentException`.
2. The MAC check. A mismatch gives `RuntimeException('HMAC failed to match')`.
3. The cipher. A failure gives `RuntimeException('Failed to decrypt data')`.

Files:

- `Primitives.dfy` holds bytes and the `Crypto` record. That record stands for the library calls `hash_pbkdf2`, `hash_hmac`, `openssl_encrypt` and `openssl_decrypt`. Three predicates state the only facts the encryptor relies on: the output lengths of PBKDF2 and of the MAC, and that decryption inverts encryption. The PBKDF2 length fact is stated for positive lengths only, because `hash_pbkdf2` with length 0 returns the full digest; the encryptor always asks for 32 bytes. `ValidCryptoExists` shows these facts can all hold at once.
- `StrSplit.dfy` holds PHP's `str_split`, which the key derivation uses.
- `OpenSsl.dfy` holds the constants, the key derivation, the framing (`Serialize`/`Parse`), `Encrypt` and `Decrypt`. Exceptions become the `Error` datatype. `Kind` gives each error's exception class and `Message` gives its text.
- `OpenSslProperties.dfy` holds the properties: round trip, error precedence, the strict length threshold, independence from the cipher on MAC failure, a characterisation of the accepted blobs, and injectivity of encryption.

The encryptor's password is the immutable `Encryptor` value. The random salt and IV that `encrypt` draws are parameters of `Encrypt`, with the lengths `random_bytes` gives them.

## Model

| member | source | states |
|---|---|---|
| `PhpString.StrSplit` | src/Encryptor/OpenSsl.php:80 | str_split: the chunks join back to the input; every chunk is 1..n bytes and all but the last are exactly n |
| `PhpString.StrSplitHalves` | src/Encryptor/OpenSsl.php:78-80 | 2n bytes split into n-byte chunks gives exactly two chunks, the first and the second half, so the two-element destructuring always succeeds |
| `OpenSsl.DeriveKeys` | src/Encryptor/OpenSsl.php:76-81 | both keys are 16 bytes, and encKey followed by authKey is the 32-byte PBKDF2 output for (password, salt, 50000 iterations) |
| `OpenSslProperties.DeriveKeysHalves` | src/Encryptor/OpenSsl.php:78-80 | encKey is bytes 0-15 and authKey bytes 16-31 of the PBKDF2 output |
| `OpenSsl.Kind` | src/Encryptor/OpenSsl.php:48-68 | the failure is an InvalidArgumentException exactly for the short-input error; the HMAC and cipher failures are RuntimeExceptions |
| `OpenSsl.Message` | src/Encryptor/OpenSsl.php:48-68 | each error is recognised by its message: "Data is not valid" only for short input, "HMAC" only for the MAC mismatch, "Failed to decrypt" only for the cipher failure |
| `OpenSsl.Mac` | src/Encryptor/OpenSsl.php:41 | the tag is HMAC-SHA256 under authKey over ciphertext followed by IV, and is MAC_LENGTH (32) bytes long; Encrypt and Decrypt both use this one definition (line 58) |
| `OpenSsl.Serialize` | src/Encryptor/OpenSsl.php:43 | the blob is as long as its four fields together; with 8/16/32-byte salt, IV and MAC, the salt is at bytes 0-7, the IV at 8-23, the MAC at 24-55 and the ciphertext from 56 on |
| `OpenSsl.Authentic` | src/Encryptor/OpenSsl.php:56-60 | the stored MAC equals the one recomputed from the blob's salt, IV and ciphertext; a stored MAC of the wrong length never matches, as with hash_equals |
| `OpenSsl.Parse` | src/Encryptor/OpenSsl.php:48-54 | parsing succeeds exactly when the input has at least 56 bytes; then the fields have wire lengths 8/16/32 and framing them again gives the input back |
| `OpenSsl.ParseSerialize` | src/Encryptor/OpenSsl.php:43-54 | parsing inverts framing: for salt/iv/mac of lengths 8/16/32, the offset split of salt‖iv‖mac‖ct returns exactly those four fields |
| `OpenSsl.Encrypt` | src/Encryptor/OpenSsl.php:33-44 | the blob has length 56 + |ciphertext|; bytes 0-7 are the salt, 8-23 the IV, 24-55 the HMAC of ciphertext‖iv under authKey, and 56.. the ciphertext under encKey |
| `OpenSslProperties.EncryptNonEmpty` | src/Encryptor/OpenSsl.php:43 | every encrypted blob has at least 56 bytes, so it is never empty |
| `OpenSsl.Decrypt` | src/Encryptor/OpenSsl.php:46-71 | InvalidArgument exactly when the input is under 56 bytes; the HMAC error exactly when the input is long enough and the stored MAC differs from the one recomputed over ciphertext‖iv; the decrypt failure exactly when the MAC matches and the cipher reports failure; a plaintext only when the MAC matches and the cipher opens the ciphertext to it. Together these fix the result for every input |
| `OpenSslProperties.RoundTrip` | src/Encryptor/OpenSsl.php:33-71 | decrypt(encrypt(p, salt, iv)) == Ok(p) for every password, plaintext, salt and IV, given that the cipher's decryption inverts its encryption |
| `OpenSslProperties.ShortInputRejected` | src/Encryptor/OpenSsl.php:48-50 | any input under 56 bytes gives InvalidArgument (an InvalidArgumentException), identically for every password and every library, so no key derivation, MAC or cipher result matters |
| `OpenSslProperties.HeaderOnlyParses` | src/Encryptor/OpenSsl.php:48-54 | the threshold is strict: exactly 56 bytes pass the length check and parse with an empty ciphertext |
| `OpenSslProperties.LongInputFailsAtRuntime` | src/Encryptor/OpenSsl.php:60-68 | an input of 56 bytes or more never gives InvalidArgument; any failure on it is a RuntimeException |
| `OpenSslProperties.MacMismatchSkipsCipher` | src/Encryptor/OpenSsl.php:58-64 | on a MAC mismatch the result is the HMAC error whatever the decryption primitive is, so the cipher is never consulted |
| `OpenSslProperties.AuthenticYieldsCipherVerdict` | src/Encryptor/OpenSsl.php:64-70 | once the MAC matches, a cipher failure gives "Failed to decrypt data" and a cipher success gives its plaintext |
| `OpenSslProperties.DecryptOkIff` | src/Encryptor/OpenSsl.php:46-71 | a blob decrypts to p if and only if it is the framing of some 8-byte salt, 16-byte IV, correct MAC and ciphertext that the cipher opens to p |
| `OpenSslProperties.EncryptInjective` | src/Encryptor/OpenSsl.php:35-43 | equal blobs come from equal plaintext, salt and IV, so different random draws always give different blobs |
| `OpenSslProperties.ErrorsDistinguishable` | src/Encryptor/OpenSsl.php:48-67 | the short-input error is the only InvalidArgumentException; the two RuntimeExceptions have distinct messages ("HMAC failed to match", "Failed to decrypt data") |

## Left out

- The internals of PBKDF2 (RFC 8018), HMAC-SHA256 (RFC 2104) and AES-256-CBC are left out. They are library calls, modelled as uninterpreted function values with length facts and the decrypt-after-encrypt fact only.
- PKCS7 padding and block-multiple ciphertext lengths are left out. The repository does not implement them, and the ciphertext length is left unconstrained.
- openssl_encrypt zero-pads the 16-byte encKey to the 32 bytes that AES-256 expects. This happens inside the library and is not modelled.
- `random_bytes` is left out. The salt and IV are parameters of the right lengths. That repeated calls give distinct blobs rests on fresh randomness; the model proves only that distinct draws give distinct blobs (`EncryptInjective`).
- `openssl_cipher_iv_length` is left out. The IV length is the constant 16 for 'aes-256-cbc'.
- The constant-time behaviour of `hash_equals` is left out. Timing cannot be expressed, so the comparison is plain sequence equality.
- Tamper detection and "the blob differs from the plaintext" are left out. They rest on cryptographic hardness, not on the code's logic. For the same reason the model cannot show that the garbage input of the tests fails; `LongInputFailsAtRuntime` shows only that any failure on it is a RuntimeException.
- `openssl_encrypt` returning `false` is not modelled. With a valid cipher name and IV length it does not fail.
- src/EncryptorInterface.php is not part of this model. It only declares the two methods.
- PhpString.StrSplit: the empty string gives no chunk, as in PHP 8.2 and later; earlier PHP versions give one empty chunk. Only 32-byte inputs reach it here.
