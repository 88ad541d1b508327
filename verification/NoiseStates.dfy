/**
 * The Noise cipher and symmetric states with the FIPS deviations (packages/core/src/noise/cipherState.ts,
 * packages/core/src/noise/symmetricState.ts; Noise Protocol Framework revision 34, sections 5.1 and 5.2).
 *
 * The primitives are a record of functions, of which only the laws in Lawful are used.
 */
module NoiseStates {
  import opened Wrappers
  import opened BinaryCodec

  const DHLEN: nat := 33
  const HASHLEN: nat := 32
  const TAGLEN: nat := 16
  const NONCE_LIMIT: nat := 0xffff_ffff_ffff_ffff

  // publicKey: the compressed public key of a private key; dh: the shared x coordinate; hkdf: two 32-byte outputs;
  // seal and open: the AEAD under a key, a nonce and associated data.
  datatype Crypto = Crypto(
    publicKey: Bytes -> Bytes,
    dh: (Bytes, Bytes) -> Option<Bytes>,
    hash: Bytes -> Bytes,
    hkdf: (Bytes, Bytes) -> (Bytes, Bytes),
    seal: (Bytes, nat, Bytes, Bytes) -> Bytes,
    open: (Bytes, nat, Bytes, Bytes) -> Option<Bytes>)

  function PublicKey(c: Crypto, priv: Bytes): Bytes {
    c.publicKey(priv)
  }

  function Dh(c: Crypto, priv: Bytes, pub: Bytes): Option<Bytes> {
    c.dh(priv, pub)
  }

  function Hash(c: Crypto, b: Bytes): Bytes {
    c.hash(b)
  }

  function Hkdf(c: Crypto, ck: Bytes, ikm: Bytes): (Bytes, Bytes) {
    c.hkdf(ck, ikm)
  }

  function Seal(c: Crypto, key: Bytes, nonce: nat, ad: Bytes, plaintext: Bytes): Bytes {
    c.seal(key, nonce, ad, plaintext)
  }

  function Open(c: Crypto, key: Bytes, nonce: nat, ad: Bytes, ciphertext: Bytes): Option<Bytes> {
    c.open(key, nonce, ad, ciphertext)
  }

  predicate IsCompressed(p: Bytes) {
    |p| == DHLEN && (p[0] == 2 || p[0] == 3)
  }

  function Zeros(n: nat): (b: Bytes)
    ensures |b| == n
  {
    if n == 0 then [] else [0] + Zeros(n - 1)
  }

  // Two encodings of one x coordinate.
  predicate SameX(p: Bytes, q: Bytes) {
    IsCompressed(p) && IsCompressed(q) && p[1..] == q[1..]
  }

  // Key agreement commutes and ignores parity; opening undoes sealing, which adds a tag.
  ghost predicate Lawful(c: Crypto) {
    && (forall a {:trigger PublicKey(c, a)} :: IsCompressed(PublicKey(c, a)))
    && (forall a, b {:trigger Dh(c, a, PublicKey(c, b))} ::
          Dh(c, a, PublicKey(c, b)) == Dh(c, b, PublicKey(c, a)) && Dh(c, a, PublicKey(c, b)).Some?
          && |Dh(c, a, PublicKey(c, b)).value| == HASHLEN)
    && (forall a, p, q {:trigger Dh(c, a, p), Dh(c, a, q)} :: SameX(p, q) ==> Dh(c, a, p) == Dh(c, a, q))
    && (forall k, n, ad, p {:trigger Seal(c, k, n, ad, p)} ::
          Open(c, k, n, ad, Seal(c, k, n, ad, p)) == Some(p) && |Seal(c, k, n, ad, p)| == |p| + TAGLEN)
  }

  // ---- The laws are consistent: some functions satisfy them ----

  function ConstantKey(priv: Bytes): Bytes {
    [2] + Zeros(HASHLEN)
  }

  function ConstantSecret(priv: Bytes, pub: Bytes): Option<Bytes> {
    Some(Zeros(HASHLEN))
  }

  function ConstantHash(b: Bytes): Bytes {
    Zeros(HASHLEN)
  }

  function ConstantKeys(ck: Bytes, ikm: Bytes): (Bytes, Bytes) {
    (Zeros(HASHLEN), Zeros(HASHLEN))
  }

  function ZeroTag(key: Bytes, nonce: nat, ad: Bytes, plaintext: Bytes): Bytes {
    plaintext + Zeros(TAGLEN)
  }

  function WithoutTag(key: Bytes, nonce: nat, ad: Bytes, ciphertext: Bytes): Option<Bytes> {
    if |ciphertext| < TAGLEN then None else Some(ciphertext[..|ciphertext| - TAGLEN])
  }

  lemma LawsAreConsistent()
    ensures Lawful(Crypto(ConstantKey, ConstantSecret, ConstantHash, ConstantKeys, ZeroTag, WithoutTag))
  {
    var c := Crypto(ConstantKey, ConstantSecret, ConstantHash, ConstantKeys, ZeroTag, WithoutTag);
    forall k, n, ad, p
      ensures Open(c, k, n, ad, Seal(c, k, n, ad, p)) == Some(p)
    {
      assert (p + Zeros(TAGLEN))[..|p|] == p;
    }
  }

  // ---- CipherState ----

  datatype Cipher = Cipher(key: Option<Bytes>, n: nat)

  const NO_KEY := Cipher(None, 0)

  function Encrypt(c: Crypto, s: Cipher, ad: Bytes, plaintext: Bytes): (Cipher, Result<Bytes>) {
    if s.key.None? then (s, Ok(plaintext))
    else if s.n >= NONCE_LIMIT then (s, Err("Noise nonce exhausted"))
    else (s.(n := s.n + 1), Ok(Seal(c, s.key.value, s.n, ad, plaintext)))
  }

  function Decrypt(c: Crypto, s: Cipher, ad: Bytes, ciphertext: Bytes): (Cipher, Result<Bytes>) {
    if s.key.None? then (s, Ok(ciphertext))
    else if s.n >= NONCE_LIMIT then (s, Err("Noise nonce exhausted"))
    else
      match Open(c, s.key.value, s.n, ad, ciphertext)
      case None => (s, Err("invalid tag"))
      case Some(plaintext) => (s.(n := s.n + 1), Ok(plaintext))
  }

  // ---- SymmetricState ----

  datatype Symmetric = Symmetric(h: Bytes, ck: Bytes, cipher: Cipher)

  // The name is padded to the hash length, or hashed if it is longer.
  function NamedHash(c: Crypto, name: Bytes): Bytes {
    if |name| <= HASHLEN then name + Zeros(HASHLEN - |name|) else Hash(c, name)
  }

  function NewSymmetric(c: Crypto, name: Bytes): Symmetric {
    Symmetric(NamedHash(c, name), NamedHash(c, name), NO_KEY)
  }

  function MixHash(c: Crypto, s: Symmetric, data: Bytes): Symmetric {
    s.(h := Hash(c, s.h + data))
  }

  // An output of any other length than a key's is refused by CipherState.withKey; HKDF has no other.
  function MixKey(c: Crypto, s: Symmetric, ikm: Bytes): Symmetric {
    var (ck, key) := Hkdf(c, s.ck, ikm);
    s.(ck := ck, cipher := Cipher(Some(key), 0))
  }

  // Unlike the framework, which binds h here, the associated data is empty.
  function EncryptAndHash(c: Crypto, s: Symmetric, plaintext: Bytes): (Symmetric, Result<Bytes>) {
    var (cipher, r) := Encrypt(c, s.cipher, [], plaintext);
    if r.Err? then (s, r) else (MixHash(c, s.(cipher := cipher), r.value), r)
  }

  function DecryptAndHash(c: Crypto, s: Symmetric, ciphertext: Bytes): (Symmetric, Result<Bytes>) {
    var (cipher, r) := Decrypt(c, s.cipher, [], ciphertext);
    if r.Err? then (s, r) else (MixHash(c, s.(cipher := cipher), ciphertext), r)
  }

  // The two transport keys; the first is the initiator's sending key.
  function SplitKeys(c: Crypto, s: Symmetric): (Bytes, Bytes) {
    Hkdf(c, s.ck, [])
  }

  // One side's encryption is undone by an equal state of the other, and leaves the two equal.
  lemma EqualStatesAgree(c: Crypto, s: Symmetric, plaintext: Bytes)
    requires Lawful(c) && s.cipher.n < NONCE_LIMIT
    ensures var (after, r) := EncryptAndHash(c, s, plaintext);
      && r.Ok? && DecryptAndHash(c, s, r.value) == (after, Ok(plaintext))
      && |r.value| == |plaintext| + (if s.cipher.key.Some? then TAGLEN else 0)
      && after.cipher.n <= s.cipher.n + 1
  {
    if s.cipher.key.Some? {
      var sealed := Seal(c, s.cipher.key.value, s.cipher.n, [], plaintext);
    }
  }

  // ---- The classes ----

  class CipherState {
    const crypto: Crypto
    var key: Option<Bytes>
    var n: nat

    ghost function Value(): Cipher
      reads this
    {
      Cipher(key, n)
    }

    constructor (c: Crypto, k: Option<Bytes>)
      ensures crypto == c && Value() == Cipher(k, 0)
    {
      crypto, key, n := c, k, 0;
    }

    method Clone() returns (copy: CipherState)
      ensures fresh(copy) && copy.crypto == crypto && copy.Value() == Value()
    {
      copy := new CipherState(crypto, key);
      copy.n := n;
    }

    method EncryptWithAd(ad: Bytes, plaintext: Bytes) returns (r: Result<Bytes>)
      modifies this
      ensures (Value(), r) == Encrypt(crypto, old(Value()), ad, plaintext)
    {
      if key.None? {
        return Ok(plaintext);
      }
      if n >= NONCE_LIMIT {
        return Err("Noise nonce exhausted");
      }
      r := Ok(Seal(crypto, key.value, n, ad, plaintext));
      n := n + 1;
    }

    method DecryptWithAd(ad: Bytes, ciphertext: Bytes) returns (r: Result<Bytes>)
      modifies this
      ensures (Value(), r) == Decrypt(crypto, old(Value()), ad, ciphertext)
    {
      if key.None? {
        return Ok(ciphertext);
      }
      if n >= NONCE_LIMIT {
        return Err("Noise nonce exhausted");
      }
      var text := Open(crypto, key.value, n, ad, ciphertext);
      if text.None? {
        return Err("invalid tag");
      }
      n := n + 1;
      r := Ok(text.value);
    }
  }

  class SymmetricState {
    const crypto: Crypto
    var h: Bytes
    var ck: Bytes
    var cipher: CipherState

    ghost predicate Valid()
      reads this, cipher
    {
      cipher.crypto == crypto
    }

    ghost function Value(): Symmetric
      reads this, cipher
    {
      Symmetric(h, ck, cipher.Value())
    }

    constructor (c: Crypto, name: Bytes)
      ensures Valid() && fresh(cipher) && crypto == c && Value() == NewSymmetric(c, name)
    {
      crypto := c;
      h, ck := NamedHash(c, name), NamedHash(c, name);
      cipher := new CipherState(c, None);
    }

    constructor Copy(other: SymmetricState)
      requires other.Valid()
      ensures Valid() && fresh(cipher) && crypto == other.crypto && Value() == other.Value()
    {
      crypto := other.crypto;
      h, ck := other.h, other.ck;
      cipher := other.cipher;
      new;
      cipher := other.cipher.Clone();
    }

    method Clone() returns (copy: SymmetricState)
      requires Valid()
      ensures copy.Valid() && fresh(copy) && fresh(copy.cipher) && copy.crypto == crypto && copy.Value() == Value()
    {
      copy := new SymmetricState.Copy(this);
    }

    method MixHashWith(data: Bytes)
      requires Valid()
      modifies this`h
      ensures Valid() && Value() == MixHash(crypto, old(Value()), data)
    {
      h := Hash(crypto, h + data);
    }

    method MixKeyWith(ikm: Bytes)
      requires Valid()
      modifies this`ck, this`cipher
      ensures Valid() && fresh(cipher) && Value() == MixKey(crypto, old(Value()), ikm)
    {
      var (nextCk, tempK) := Hkdf(crypto, ck, ikm);
      ck := nextCk;
      cipher := new CipherState(crypto, Some(tempK));
    }

    method EncryptThenHash(plaintext: Bytes) returns (r: Result<Bytes>)
      requires Valid()
      modifies this`h, cipher
      ensures Valid() && (Value(), r) == EncryptAndHash(crypto, old(Value()), plaintext)
    {
      r := cipher.EncryptWithAd([], plaintext);
      if r.Ok? {
        MixHashWith(r.value);
      }
    }

    method DecryptThenHash(ciphertext: Bytes) returns (r: Result<Bytes>)
      requires Valid()
      modifies this`h, cipher
      ensures Valid() && (Value(), r) == DecryptAndHash(crypto, old(Value()), ciphertext)
    {
      r := cipher.DecryptWithAd([], ciphertext);
      if r.Ok? {
        MixHashWith(ciphertext);
      }
    }
  }
}
