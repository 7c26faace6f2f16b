// The cryptographic libraries as arbitrary functions. The only laws are the ones
// the schemes promise: decryption undoes encryption, ECDH commutes, and ML-KEM
// decapsulation returns the encapsulated secret (section 7.3 of FIPS 203).

module Primitives {
  import opened Basics
  import opened Hashing

  type Bytes = seq<byte>

  datatype Cipher = Aes256Gcm | ChaCha20Poly1305

  datatype Crypto = Crypto(
    lib: Library,
    aeadEncrypt: (Cipher, Bytes, Bytes, Bytes) -> Bytes,          // cipher, key, nonce, plaintext
    aeadDecrypt: (Cipher, Bytes, Bytes, Bytes) -> Option<Bytes>,  // cipher, key, nonce, ciphertext
    rsaEncrypt: (string, Bytes, Bytes) -> Bytes,                  // key pair of a user, padding, message
    rsaDecrypt: (string, Bytes) -> Option<Bytes>,
    ecValid: Bytes -> bool,                                       // a P-256 private key
    ecPublic: Bytes -> Bytes,
    ecExchange: (Bytes, Bytes) -> Option<Bytes>,                  // private key, public key
    kemKeyPair: Bytes -> (Bytes, Bytes),                          // seed to (public, secret)
    kemEncapsulate: (Bytes, Bytes) -> (Bytes, Bytes),             // public key, coins to (ciphertext, secret)
    kemDecapsulate: (Bytes, Bytes) -> Bytes,                      // secret key, ciphertext
    hkdf: (Option<string>, string, Bytes, Bytes) -> Bytes,        // salt, info label, info context, input
    base64: Bytes -> string,
    unbase64: string -> Option<Bytes>)
  {
    predicate AeadOpens(cipher: Cipher, key: Bytes, nonce: Bytes, message: Bytes) {
      aeadDecrypt(cipher, key, nonce, aeadEncrypt(cipher, key, nonce, message)) == Some(message)
    }

    predicate RsaOpens(user: string, padding: Bytes, message: Bytes) {
      var wrapped := rsaEncrypt(user, padding, message);
      wrapped != [] && rsaDecrypt(user, wrapped) == Some(message)
    }

    predicate EcAgrees(a: Bytes, b: Bytes) {
      ecExchange(a, ecPublic(b)) == ecExchange(b, ecPublic(a)) && ecExchange(a, ecPublic(b)).Some?
    }

    predicate KemAgrees(seed: Bytes, coins: Bytes) {
      var sent := kemEncapsulate(kemKeyPair(seed).0, coins);
      kemDecapsulate(kemKeyPair(seed).1, sent.0) == sent.1
    }

    predicate Base64Opens(b: Bytes) {
      unbase64(base64(b)) == Some(b) && (base64(b) == "" <==> b == [])
    }

    ghost predicate AeadLaw() {
      forall cipher, key, nonce, message :: AeadOpens(cipher, key, nonce, message)
    }

    ghost predicate RsaLaw() {
      forall user, padding, message :: RsaOpens(user, padding, message)
    }

    ghost predicate EcLaw() {
      forall a, b {:trigger EcAgrees(a, b)} :: ecValid(a) && ecValid(b) ==> EcAgrees(a, b)
    }

    ghost predicate KemLaw() {
      forall seed, coins :: KemAgrees(seed, coins)
    }

    ghost predicate Base64Law() {
      forall b :: Base64Opens(b)
    }

    ghost predicate Lawful() {
      lib.Lawful() && AeadLaw() && RsaLaw() && EcLaw() && KemLaw() && Base64Law()
    }
  }

  // ---- The laws hold of something ----

  function Chars(b: Bytes): string {
    seq(|b|, i requires 0 <= i < |b| => b[i] as char)
  }

  function FromChars(s: string): Option<Bytes> {
    if forall i :: 0 <= i < |s| ==> s[i] as int < 256
        then Some(seq(|s|, i requires 0 <= i < |s| && s[i] as int < 256 => s[i] as int as byte))
    else None
  }

  lemma CharsOpen(b: Bytes)
    ensures FromChars(Chars(b)) == Some(b) && (Chars(b) == "" <==> b == [])
  {
    if b == [] {
      assert Chars(b) == "";
    }
    assert FromChars(Chars(b)).value == b;
  }

  /** Schemes that hide nothing: a ciphertext is the key and the message, a derived key the context and the
      input, an encapsulated secret the coins; an exchanged secret is as long as both keys. */
  function Transparent(lib: Library): Crypto {
    Crypto(lib,
           (cipher: Cipher, key: Bytes, nonce: Bytes, m: Bytes) => key + m,
           (cipher: Cipher, key: Bytes, nonce: Bytes, m: Bytes) => if key <= m then Some(m[|key|..]) else None,
           (user: string, padding: Bytes, m: Bytes) => [0] + m,
           (user: string, m: Bytes) => if m == [] then None else Some(m[1..]),
           (k: Bytes) => true,
           (k: Bytes) => k,
           (a: Bytes, b: Bytes) => Some(Zeros(|a| + |b|)),
           (seed: Bytes) => (seed, seed),
           (k: Bytes, coins: Bytes) => (coins, coins),
           (k: Bytes, sent: Bytes) => sent,
           (salt: Option<string>, info: string, context: Bytes, m: Bytes) => context + m,
           Chars, FromChars)
  }

  /** A ciphertext starts with its key and opens under no other key of that length; a derived key is the
      context and the input. */
  predicate PlainAt(c: Crypto, key: Bytes, other: Bytes, nonce: Bytes, m: Bytes) {
    && c.aeadEncrypt(Aes256Gcm, key, nonce, m) == key + m
    && (|other| == |key| && other != key ==> c.aeadDecrypt(Aes256Gcm, other, nonce, key + m) == None)
  }

  predicate ConcatenatesAt(c: Crypto, salt: Option<string>, info: string, context: Bytes, m: Bytes) {
    c.hkdf(salt, info, context, m) == context + m
  }

  predicate PlainKeysAt(c: Crypto, k: Bytes, coins: Bytes) {
    && c.ecValid(k) && c.ecPublic(k) == k && c.ecExchange(k, coins) == Some(Zeros(|k| + |coins|))
    && c.kemKeyPair(k).0 == k && c.kemEncapsulate(k, coins) == (coins, coins)
  }

  ghost predicate Plain(c: Crypto) {
    && (forall key, other, nonce, m :: PlainAt(c, key, other, nonce, m))
    && (forall salt, info, context, m :: ConcatenatesAt(c, salt, info, context, m))
    && (forall k, coins :: PlainKeysAt(c, k, coins))
  }

  lemma TransparentPlain(lib: Library)
    ensures Plain(Transparent(lib))
  {
    var c := Transparent(lib);
    forall key, other, nonce, m ensures PlainAt(c, key, other, nonce, m) {
      assert (key + m)[..|key|] == key;
    }
  }

  /** The laws do not contradict each other: transparent schemes satisfy them all. */
  lemma LawsHoldOfSomething(lib: Library) returns (c: Crypto)
    requires lib.Lawful()
    ensures c.lib == lib && c.Lawful() && Plain(c)
  {
    c := Transparent(lib);
    TransparentPlain(lib);
    forall cipher, key, nonce, m ensures c.AeadOpens(cipher, key, nonce, m) {
      assert (key + m)[|key|..] == m;
    }
    forall user, padding, m ensures c.RsaOpens(user, padding, m) {
      assert ([0] + m)[1..] == m;
    }
    forall seed, coins ensures c.KemAgrees(seed, coins) {
    }
    forall b ensures c.Base64Opens(b) {
      CharsOpen(b);
    }
  }
}
