/** Encryption of stored tokens: a fresh 12-byte nonce in front of what AES-GCM seals under it. */
module TokenCrypto {
  import opened Wrappers

  type Byte = x: int | 0 <= x < 256
  type Bytes = seq<Byte>

  const KEY_SIZE := 32
  const NONCE_SIZE := 12

  datatype CryptoError = BadKeySize | NoRandomness | TooShort | NotAuthentic

  /** An authenticated cipher: sealing and opening under a key and a nonce. */
  datatype Cipher = Cipher(seal: (Bytes, Bytes, Bytes) -> Bytes, open: (Bytes, Bytes, Bytes) -> Option<Bytes>)

  /** What is assumed of AES-GCM (section 7 of NIST SP 800-38D): opening undoes sealing. */
  ghost predicate Genuine(c: Cipher) {
    forall key: Bytes, nonce: Bytes, plain: Bytes :: |key| == KEY_SIZE && |nonce| == NONCE_SIZE ==>
      c.open(key, nonce, c.seal(key, nonce, plain)) == Some(plain)
  }

  /** The ciphertext for the first bytes the random source delivers. */
  function Encrypted(c: Cipher, key: Bytes, random: Bytes, plain: Bytes): Result<Bytes, CryptoError> {
    if |key| != KEY_SIZE then Err(BadKeySize)
    else if |random| < NONCE_SIZE then Err(NoRandomness)
    else Ok(random[..NONCE_SIZE] + c.seal(key, random[..NONCE_SIZE], plain))
  }

  method Encrypt(c: Cipher, key: Bytes, random: Bytes, plain: Bytes) returns (r: Result<Bytes, CryptoError>)
    ensures r == Encrypted(c, key, random, plain)
  {
    if |key| != KEY_SIZE {
      return Err(BadKeySize);
    }
    var nonce := new Byte[NONCE_SIZE];
    var n := 0;
    while n < NONCE_SIZE
      invariant 0 <= n <= NONCE_SIZE && n <= |random|
      invariant nonce[..n] == random[..n]
    {
      if n == |random| {
        return Err(NoRandomness);
      }
      nonce[n] := random[n];
      n := n + 1;
    }
    assert nonce[..] == random[..NONCE_SIZE];
    r := Ok(nonce[..] + c.seal(key, nonce[..], plain));
  }

  function Decrypt(c: Cipher, key: Bytes, ciphertext: Bytes): Result<Bytes, CryptoError> {
    if |key| != KEY_SIZE then Err(BadKeySize)
    else if |ciphertext| < NONCE_SIZE then Err(TooShort)
    else match c.open(key, ciphertext[..NONCE_SIZE], ciphertext[NONCE_SIZE..])
         case Some(plain) => Ok(plain)
         case None => Err(NotAuthentic)
  }

  /** The framing: a ciphertext is accepted exactly when it is a nonce followed by something that opens under it. */
  lemma DecryptsExactly(c: Cipher, key: Bytes, ciphertext: Bytes, plain: Bytes)
    ensures Decrypt(c, key, ciphertext) == Ok(plain) <==>
            |key| == KEY_SIZE && exists nonce, body ::
              |nonce| == NONCE_SIZE && ciphertext == nonce + body && c.open(key, nonce, body) == Some(plain)
  {
    if |ciphertext| >= NONCE_SIZE {
      assert ciphertext == ciphertext[..NONCE_SIZE] + ciphertext[NONCE_SIZE..];
    }
  }

  /** Decryption undoes encryption, for every plaintext and every nonce drawn, and the nonce is the one drawn. */
  lemma DecryptEncrypted(c: Cipher, key: Bytes, random: Bytes, plain: Bytes)
    requires Genuine(c) && Encrypted(c, key, random, plain).Ok?
    ensures Decrypt(c, key, Encrypted(c, key, random, plain).value) == Ok(plain)
    ensures |Encrypted(c, key, random, plain).value| >= 12
    ensures Encrypted(c, key, random, plain).value[..12] == random[..12]
  {
    var nonce := random[..NONCE_SIZE];
    var body := c.seal(key, nonce, plain);
    assert nonce + body == Encrypted(c, key, random, plain).value;
  }
}
