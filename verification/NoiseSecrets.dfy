/**
 * What the Noise handshakes put on the wire and mix into their keys, written out message by message
 * (packages/core/src/noise/handshake.ts, writeMessage, mixDh and tokensForStep).
 */
module NoiseSecrets {
  import opened Wrappers
  import opened BinaryCodec
  import opened NoiseStates
  import opened NoiseHandshakes

  // ---- The five messages, straight down ----

  // A public text enters the hash.
  function Public(c: Crypto, ss: Symmetric, text: Bytes): Symmetric {
    Symmetric(Hash(c, ss.h + text), ss.ck, ss.cipher)
  }

  // A shared secret enters the chaining key and gives a new key, to be used from nonce 0.
  function Secret(c: Crypto, ss: Symmetric, shared: Bytes): Symmetric {
    var (ck, key) := Hkdf(c, ss.ck, shared);
    Symmetric(ss.h, ck, Cipher(Some(key), 0))
  }

  // A text is sealed under the key, if there is one, and what is sent enters the hash.
  function Sealed(c: Crypto, ss: Symmetric, text: Bytes): (Symmetric, Bytes) {
    if ss.cipher.key.None? then (Symmetric(Hash(c, ss.h + text), ss.ck, ss.cipher), text)
    else
      var out := Seal(c, ss.cipher.key.value, ss.cipher.n, [], text);
      (Symmetric(Hash(c, ss.h + out), ss.ck, Cipher(ss.cipher.key, ss.cipher.n + 1)), out)
  }

  function Payload(c: Crypto, ss: Symmetric, payload: Bytes): (Symmetric, Bytes) {
    if payload == [] then (ss, []) else Sealed(c, ss, payload)
  }

  // IK, first message: e, es, s, ss.
  function IkFirst(c: Crypto, ss: Symmetric, e: Bytes, s: Bytes, rs: Bytes, payload: Bytes): (Symmetric, Bytes)
    requires Dh(c, e, rs).Some? && Dh(c, s, rs).Some?
  {
    var a := Secret(c, Public(c, ss, PublicKey(c, e)), Dh(c, e, rs).value);
    var (b, identity) := Sealed(c, a, PublicKey(c, s));
    var (d, text) := Payload(c, Secret(c, b, Dh(c, s, rs).value), payload);
    (d, PublicKey(c, e) + identity + text)
  }

  // IK, second message, by the responder with static key s: e, ee, and the secret of es again.
  function IkSecond(c: Crypto, ss: Symmetric, e: Bytes, s: Bytes, re: Bytes, payload: Bytes): (Symmetric, Bytes)
    requires Dh(c, e, re).Some? && Dh(c, s, re).Some?
  {
    var a := Secret(c, Public(c, ss, PublicKey(c, e)), Dh(c, e, re).value);
    var (d, text) := Payload(c, Secret(c, a, Dh(c, s, re).value), payload);
    (d, PublicKey(c, e) + text)
  }

  // XK, first and second message: e, then one secret of the new ephemeral key.
  function XkEphemeral(c: Crypto, ss: Symmetric, e: Bytes, remote: Bytes, payload: Bytes): (Symmetric, Bytes)
    requires Dh(c, e, remote).Some?
  {
    var (d, text) := Payload(c, Secret(c, Public(c, ss, PublicKey(c, e)), Dh(c, e, remote).value), payload);
    (d, PublicKey(c, e) + text)
  }

  // XK, third message: s, then its secret with the responder's ephemeral key.
  function XkThird(c: Crypto, ss: Symmetric, s: Bytes, re: Bytes, payload: Bytes): (Symmetric, Bytes)
    requires Dh(c, s, re).Some?
  {
    var (b, identity) := Sealed(c, ss, PublicKey(c, s));
    var (d, text) := Payload(c, Secret(c, b, Dh(c, s, re).value), payload);
    (d, identity + text)
  }

  lemma WriteMore(c: Crypto, hs: Handshake, token: Token, rest: seq<Token>, e: Bytes)
    ensures var (next, out) := WriteToken(c, hs, token, e);
      var (end, more) := WriteTokens(c, next, rest, e);
      out.Ok? && more.Ok? ==> WriteTokens(c, hs, [token] + rest, e) == (end, Ok(out.value + more.value))
    ensures WriteTokens(c, hs, [], e) == (hs, Ok([]))
  {
    hide WriteToken;
    assert ([token] + rest)[1..] == rest;
  }

  predicate Usable(shared: Option<Bytes>) {
    shared.Some? && |shared.value| == HASHLEN
  }

  lemma DhTokenWritten(c: Crypto, hs: Handshake, token: Token, priv: Bytes, pub: Bytes, e: Bytes)
    requires !token.E? && !token.S? && Operands(hs, token) == (Some(priv), Some(pub)) && Usable(Dh(c, priv, pub))
    ensures WriteToken(c, hs, token, e) == (hs.(ss := Secret(c, hs.ss, Dh(c, priv, pub).value)), Ok([]))
  {
  }

  lemma StaticWritten(c: Crypto, hs: Handshake, e: Bytes)
    requires hs.ss.cipher.n < NONCE_LIMIT
    ensures var (ss, out) := Sealed(c, hs.ss, PublicKey(c, hs.s)); WriteToken(c, hs, S, e) == (hs.(ss := ss), Ok(out))
  {
  }

  lemma EphemeralWritten(c: Crypto, hs: Handshake, e: Bytes)
    ensures WriteToken(c, hs, E, e) == (hs.(e := Some(e), ss := Public(c, hs.ss, PublicKey(c, e))), Ok(PublicKey(c, e)))
  {
  }

  lemma PayloadWritten(c: Crypto, hs: Handshake, payload: Bytes)
    requires hs.ss.cipher.n < NONCE_LIMIT
    ensures var (ss, out) := Payload(c, hs.ss, payload); WritePayload(c, hs, payload) == (hs.(ss := ss), Ok(out))
  {
  }

  // Two tokens.
  lemma WriteTwo(c: Crypto, hs: Handshake, a: Token, b: Token, e: Bytes)
    ensures var (h1, x) := WriteToken(c, hs, a, e);
      var (h2, y) := WriteToken(c, h1, b, e);
      x.Ok? && y.Ok? ==> WriteTokens(c, hs, [a, b], e) == (h2, Ok(x.value + y.value))
  {
    hide WriteToken, WriteTokens;
    var h1 := WriteToken(c, hs, a, e).0;
    var (h2, y) := WriteToken(c, h1, b, e);
    WriteMore(c, h1, b, [], e);
    WriteMore(c, h2, b, [], e);
    WriteMore(c, hs, a, [b], e);
    assert [b] + [] == [b] && [a] + [b] == [a, b];
    if y.Ok? {
      assert y.value + [] == y.value;
    }
  }

  lemma WriteThree(c: Crypto, hs: Handshake, a: Token, b: Token, d: Token, e: Bytes)
    ensures var (h1, x) := WriteToken(c, hs, a, e);
      var (h2, y) := WriteToken(c, h1, b, e);
      var (h3, z) := WriteToken(c, h2, d, e);
      x.Ok? && y.Ok? && z.Ok? ==> WriteTokens(c, hs, [a, b, d], e) == (h3, Ok(x.value + (y.value + z.value)))
  {
    hide WriteToken, WriteTokens;
    var h1 := WriteToken(c, hs, a, e).0;
    WriteTwo(c, h1, b, d, e);
    WriteMore(c, hs, a, [b, d], e);
    assert [a] + [b, d] == [a, b, d];
  }

  lemma WriteFour(c: Crypto, hs: Handshake, a: Token, b: Token, d: Token, f: Token, e: Bytes)
    ensures var (h1, x) := WriteToken(c, hs, a, e);
      var (h2, y) := WriteToken(c, h1, b, e);
      var (h3, z) := WriteToken(c, h2, d, e);
      var (h4, u) := WriteToken(c, h3, f, e);
      x.Ok? && y.Ok? && z.Ok? && u.Ok? ==>
        WriteTokens(c, hs, [a, b, d, f], e) == (h4, Ok(x.value + (y.value + (z.value + u.value))))
  {
    hide WriteToken, WriteTokens;
    var h1 := WriteToken(c, hs, a, e).0;
    WriteThree(c, h1, b, d, f, e);
    WriteMore(c, hs, a, [b, d, f], e);
    assert [a] + [b, d, f] == [a, b, d, f];
  }

  // The initiator's IK message.
  lemma IkFirstIs(c: Crypto, hs: Handshake, payload: Bytes, e: Bytes)
    requires hs.pattern == IK && hs.role == Initiator && hs.step == 0 && hs.rs.Some?
    requires Usable(Dh(c, e, hs.rs.value)) && Usable(Dh(c, hs.s, hs.rs.value))
    ensures var (ss, message) := IkFirst(c, hs.ss, e, hs.s, hs.rs.value, payload);
      WriteMessage(c, hs, payload, e) == (hs.(e := Some(e), ss := ss, step := 1), Ok(message))
  {
    var rs := hs.rs.value;
    var h1 := hs.(e := Some(e), ss := Public(c, hs.ss, PublicKey(c, e)));
    var h2 := h1.(ss := Secret(c, h1.ss, Dh(c, e, rs).value));
    var (ss3, identity) := Sealed(c, h2.ss, PublicKey(c, hs.s));
    var h3 := h2.(ss := ss3);
    var h4 := h3.(ss := Secret(c, h3.ss, Dh(c, hs.s, rs).value));
    EphemeralWritten(c, hs, e);
    DhTokenWritten(c, h1, ES, e, rs, e);
    StaticWritten(c, h2, e);
    DhTokenWritten(c, h3, SS, hs.s, rs, e);
    WriteFour(c, hs, E, ES, S, SS, e);
    PayloadWritten(c, h4, payload);
    hide WriteToken, WriteTokens, WritePayload, Payload, Sealed, Secret, Public;
    var text := Payload(c, h4.ss, payload).1;
    assert [] + (identity + []) == identity;
    assert PublicKey(c, e) + identity + text == (PublicKey(c, e) + identity) + text;
  }

  lemma IkSecondIs(c: Crypto, hs: Handshake, payload: Bytes, e: Bytes)
    requires hs.pattern == IK && hs.role == Responder && hs.step == 1 && hs.re.Some?
    requires Usable(Dh(c, e, hs.re.value)) && Usable(Dh(c, hs.s, hs.re.value))
    ensures var (ss, message) := IkSecond(c, hs.ss, e, hs.s, hs.re.value, payload);
      WriteMessage(c, hs, payload, e) == (hs.(e := Some(e), ss := ss, step := 2), Ok(message))
  {
    var re := hs.re.value;
    var h1 := hs.(e := Some(e), ss := Public(c, hs.ss, PublicKey(c, e)));
    var h2 := h1.(ss := Secret(c, h1.ss, Dh(c, e, re).value));
    var h3 := h2.(ss := Secret(c, h2.ss, Dh(c, hs.s, re).value));
    EphemeralWritten(c, hs, e);
    DhTokenWritten(c, h1, EE, e, re, e);
    DhTokenWritten(c, h2, SE, hs.s, re, e);
    WriteThree(c, hs, E, EE, SE, e);
    PayloadWritten(c, h3, payload);
    hide WriteToken, WriteTokens, WritePayload, Payload, Sealed, Secret, Public;
    assert PublicKey(c, e) + ([] + []) == PublicKey(c, e);
  }

  lemma XkFirstIs(c: Crypto, hs: Handshake, payload: Bytes, e: Bytes)
    requires hs.pattern == XK && hs.role == Initiator && hs.step == 0 && hs.rs.Some? && Usable(Dh(c, e, hs.rs.value))
    ensures var (ss, message) := XkEphemeral(c, hs.ss, e, hs.rs.value, payload);
      WriteMessage(c, hs, payload, e) == (hs.(e := Some(e), ss := ss, step := 1), Ok(message))
  {
    var h1 := hs.(e := Some(e), ss := Public(c, hs.ss, PublicKey(c, e)));
    var h2 := h1.(ss := Secret(c, h1.ss, Dh(c, e, hs.rs.value).value));
    EphemeralWritten(c, hs, e);
    DhTokenWritten(c, h1, ES, e, hs.rs.value, e);
    WriteTwo(c, hs, E, ES, e);
    PayloadWritten(c, h2, payload);
    hide WriteToken, WriteTokens, WritePayload, Payload, Sealed, Secret, Public;
    assert PublicKey(c, e) + [] == PublicKey(c, e);
  }

  lemma XkSecondIs(c: Crypto, hs: Handshake, payload: Bytes, e: Bytes)
    requires hs.pattern == XK && hs.role == Responder && hs.step == 1 && hs.re.Some? && Usable(Dh(c, e, hs.re.value))
    ensures var (ss, message) := XkEphemeral(c, hs.ss, e, hs.re.value, payload);
      WriteMessage(c, hs, payload, e) == (hs.(e := Some(e), ss := ss, step := 2), Ok(message))
  {
    var h1 := hs.(e := Some(e), ss := Public(c, hs.ss, PublicKey(c, e)));
    var h2 := h1.(ss := Secret(c, h1.ss, Dh(c, e, hs.re.value).value));
    EphemeralWritten(c, hs, e);
    DhTokenWritten(c, h1, EE, e, hs.re.value, e);
    WriteTwo(c, hs, E, EE, e);
    PayloadWritten(c, h2, payload);
    hide WriteToken, WriteTokens, WritePayload, Payload, Sealed, Secret, Public;
    assert PublicKey(c, e) + [] == PublicKey(c, e);
  }

  lemma XkThirdIs(c: Crypto, hs: Handshake, payload: Bytes, e: Bytes)
    requires hs.pattern == XK && hs.role == Initiator && hs.step == 2 && hs.re.Some? && Usable(Dh(c, hs.s, hs.re.value))
    requires hs.ss.cipher.n < NONCE_LIMIT
    ensures var (ss, message) := XkThird(c, hs.ss, hs.s, hs.re.value, payload);
      WriteMessage(c, hs, payload, e) == (hs.(ss := ss, step := 3), Ok(message))
  {
    var (ss1, identity) := Sealed(c, hs.ss, PublicKey(c, hs.s));
    var h1 := hs.(ss := ss1);
    var h2 := h1.(ss := Secret(c, h1.ss, Dh(c, hs.s, hs.re.value).value));
    StaticWritten(c, hs, e);
    DhTokenWritten(c, h1, SE, hs.s, hs.re.value, e);
    WriteTwo(c, hs, S, SE, e);
    PayloadWritten(c, h2, payload);
    hide WriteToken, WriteTokens, WritePayload, Payload, Sealed, Secret, Public;
    assert identity + [] == identity;
  }

  // ---- The chaining key of a whole handshake ----

  // The secret of two private keys.
  function Shared(c: Crypto, a: Bytes, b: Bytes): Bytes {
    var shared := Dh(c, a, PublicKey(c, b));
    if shared.Some? then shared.value else []
  }

  function Chain(c: Crypto, ck: Bytes, secrets: seq<Bytes>): Bytes
    decreases |secrets|
  {
    if secrets == [] then ck else Hkdf(c, Chain(c, ck, secrets[..|secrets| - 1]), secrets[|secrets| - 1]).0
  }

  // The secrets mixed in before a step, from the static and ephemeral keys of the initiator and the responder.
  function SecretsBefore(c: Crypto, pattern: Pattern, step: nat, si: Bytes, ei: Bytes, sr: Bytes, er: Bytes): seq<Bytes> {
    match pattern
    case IK =>
      if step == 0 then []
      else if step == 1 then [Shared(c, ei, sr), Shared(c, si, sr)]
      else [Shared(c, ei, sr), Shared(c, si, sr), Shared(c, ei, er), Shared(c, ei, sr)]
    case XK =>
      if step == 0 then []
      else if step == 1 then [Shared(c, ei, sr)]
      else if step == 2 then [Shared(c, ei, sr), Shared(c, ei, er)]
      else [Shared(c, ei, sr), Shared(c, ei, er), Shared(c, si, er)]
  }

  function KeyOf(key: Option<Bytes>): Bytes {
    if key.Some? then key.value else []
  }

  // The chaining key of one side is that of the secrets before the step.
  predicate Mixed(c: Crypto, ck: Bytes, i: Handshake, r: Handshake, step: nat) {
    ck == Chain(c, NamedHash(c, ProtocolName(i.pattern)), SecretsBefore(c, i.pattern, step, i.s, KeyOf(i.e), r.s, KeyOf(r.e)))
  }

  // A side that has written a message has a new symmetric state and step, and a new ephemeral key if the message brings one.
  predicate Wrote(hs: Handshake, after: Handshake, e: Bytes) {
    after == hs.(e := if hs.step < 2 then Some(e) else hs.e, ss := after.ss, step := hs.step + 1)
  }

  lemma ChainMore(c: Crypto, ck: Bytes, secrets: seq<Bytes>, secret: Bytes)
    ensures Chain(c, ck, secrets + [secret]) == Hkdf(c, Chain(c, ck, secrets), secret).0
  {
    assert (secrets + [secret])[..|secrets|] == secrets;
  }

  lemma SharedIs(c: Crypto, a: Bytes, b: Bytes, pub: Bytes)
    requires Lawful(c) && SameX(pub, PublicKey(c, b))
    ensures Usable(Dh(c, a, pub)) && Dh(c, a, pub).value == Shared(c, a, b) == Shared(c, b, a)
  {
    assert Dh(c, a, pub) == Dh(c, a, PublicKey(c, b)) == Dh(c, b, PublicKey(c, a));
  }

  // The chaining key after each message.
  lemma IkFirstKey(c: Crypto, ss: Symmetric, e: Bytes, s: Bytes, rs: Bytes, payload: Bytes)
    requires Dh(c, e, rs).Some? && Dh(c, s, rs).Some?
    ensures IkFirst(c, ss, e, s, rs, payload).0.ck == Hkdf(c, Hkdf(c, ss.ck, Dh(c, e, rs).value).0, Dh(c, s, rs).value).0
  {
  }

  lemma IkSecondKey(c: Crypto, ss: Symmetric, e: Bytes, s: Bytes, re: Bytes, payload: Bytes)
    requires Dh(c, e, re).Some? && Dh(c, s, re).Some?
    ensures IkSecond(c, ss, e, s, re, payload).0.ck == Hkdf(c, Hkdf(c, ss.ck, Dh(c, e, re).value).0, Dh(c, s, re).value).0
  {
  }

  lemma XkEphemeralKey(c: Crypto, ss: Symmetric, e: Bytes, remote: Bytes, payload: Bytes)
    requires Dh(c, e, remote).Some?
    ensures XkEphemeral(c, ss, e, remote, payload).0.ck == Hkdf(c, ss.ck, Dh(c, e, remote).value).0
  {
  }

  lemma XkThirdKey(c: Crypto, ss: Symmetric, s: Bytes, re: Bytes, payload: Bytes)
    requires Dh(c, s, re).Some?
    ensures XkThird(c, ss, s, re, payload).0.ck == Hkdf(c, ss.ck, Dh(c, s, re).value).0
  {
  }

  // Two more secrets, or one.
  lemma ChainTwo(c: Crypto, ck: Bytes, secrets: seq<Bytes>, a: Bytes, b: Bytes)
    ensures Chain(c, ck, secrets + [a, b]) == Hkdf(c, Hkdf(c, Chain(c, ck, secrets), a).0, b).0
  {
    ChainMore(c, ck, secrets, a);
    ChainMore(c, ck, secrets + [a], b);
    assert secrets + [a] + [b] == secrets + [a, b];
  }

  // What two parties before a step know of each other.
  lemma Acquainted(c: Crypto, i: Handshake, r: Handshake, step: nat)
    requires Lawful(c) && InStep(c, i, r, step) && step < Steps(i.pattern)
    ensures i.role == Initiator && r.role == Responder && i.pattern == r.pattern && i.ss == r.ss && i.step == r.step == step
    ensures i.rs.Some? && SameX(i.rs.value, PublicKey(c, r.s)) && i.ss.cipher.n < NONCE_LIMIT
    ensures step > 0 ==> i.e.Some? && r.re == Some(PublicKey(c, i.e.value)) && SameX(r.re.value, PublicKey(c, i.e.value))
    ensures step > 1 ==> r.e.Some? && i.re == Some(PublicKey(c, r.e.value)) && SameX(i.re.value, PublicKey(c, r.e.value))
  {
  }

  lemma IkFirstMixes(c: Crypto, i: Handshake, r: Handshake, payload: Bytes, e: Bytes)
    requires Lawful(c) && i.pattern == IK && InStep(c, i, r, 0) && Mixed(c, i.ss.ck, i, r, 0)
    ensures var w := WriteMessage(c, i, payload, e).0; Wrote(i, w, e) && Mixed(c, w.ss.ck, w, r, 1)
  {
    hide Lawful, InStep, WriteMessage, SameX, NamedHash, ProtocolName, Shared, Dh, Public, Secret, Sealed, Payload, IkFirst;
    Acquainted(c, i, r, 0);
    SharedIs(c, e, r.s, i.rs.value);
    SharedIs(c, i.s, r.s, i.rs.value);
    IkFirstIs(c, i, payload, e);
    IkFirstKey(c, i.ss, e, i.s, i.rs.value, payload);
    var pair := [Shared(c, e, r.s), Shared(c, i.s, r.s)];
    ChainTwo(c, NamedHash(c, ProtocolName(IK)), [], pair[0], pair[1]);
    assert [] + pair == pair;
  }

  lemma IkSecondMixes(c: Crypto, i: Handshake, r: Handshake, payload: Bytes, e: Bytes)
    requires Lawful(c) && i.pattern == IK && InStep(c, i, r, 1) && Mixed(c, i.ss.ck, i, r, 1)
    ensures var w := WriteMessage(c, r, payload, e).0; Wrote(r, w, e) && Mixed(c, w.ss.ck, i, w, 2)
  {
    hide Lawful, InStep, WriteMessage, SameX, NamedHash, ProtocolName, Shared, Dh, Public, Secret, Sealed, Payload, IkSecond;
    Acquainted(c, i, r, 1);
    var (own, re) := (i.e.value, r.re.value);
    SharedIs(c, e, own, re);
    SharedIs(c, r.s, own, re);
    IkSecondIs(c, r, payload, e);
    IkSecondKey(c, r.ss, e, r.s, re, payload);
    var before := [Shared(c, own, r.s), Shared(c, i.s, r.s)];
    ChainTwo(c, NamedHash(c, ProtocolName(IK)), before, Shared(c, own, e), Shared(c, own, r.s));
    assert before + [Shared(c, own, e), Shared(c, own, r.s)] == SecretsBefore(c, IK, 2, i.s, own, r.s, e);
  }

  lemma XkFirstMixes(c: Crypto, i: Handshake, r: Handshake, payload: Bytes, e: Bytes)
    requires Lawful(c) && i.pattern == XK && InStep(c, i, r, 0) && Mixed(c, i.ss.ck, i, r, 0)
    ensures var w := WriteMessage(c, i, payload, e).0; Wrote(i, w, e) && Mixed(c, w.ss.ck, w, r, 1)
  {
    hide Lawful, InStep, WriteMessage, SameX, NamedHash, ProtocolName, Shared, Dh, Public, Secret, Sealed, Payload, XkEphemeral;
    Acquainted(c, i, r, 0);
    SharedIs(c, e, r.s, i.rs.value);
    XkFirstIs(c, i, payload, e);
    XkEphemeralKey(c, i.ss, e, i.rs.value, payload);
    ChainMore(c, NamedHash(c, ProtocolName(XK)), [], Shared(c, e, r.s));
    assert [] + [Shared(c, e, r.s)] == [Shared(c, e, r.s)];
  }

  lemma XkSecondMixes(c: Crypto, i: Handshake, r: Handshake, payload: Bytes, e: Bytes)
    requires Lawful(c) && i.pattern == XK && InStep(c, i, r, 1) && Mixed(c, i.ss.ck, i, r, 1)
    ensures var w := WriteMessage(c, r, payload, e).0; Wrote(r, w, e) && Mixed(c, w.ss.ck, i, w, 2)
  {
    hide Lawful, InStep, WriteMessage, SameX, NamedHash, ProtocolName, Shared, Dh, Public, Secret, Sealed, Payload, XkEphemeral;
    Acquainted(c, i, r, 1);
    var own := i.e.value;
    SharedIs(c, e, own, r.re.value);
    XkSecondIs(c, r, payload, e);
    XkEphemeralKey(c, r.ss, e, r.re.value, payload);
    ChainMore(c, NamedHash(c, ProtocolName(XK)), [Shared(c, own, r.s)], Shared(c, own, e));
    assert [Shared(c, own, r.s)] + [Shared(c, own, e)] == SecretsBefore(c, XK, 2, i.s, own, r.s, e);
  }

  lemma XkThirdMixes(c: Crypto, i: Handshake, r: Handshake, payload: Bytes, e: Bytes)
    requires Lawful(c) && i.pattern == XK && InStep(c, i, r, 2) && Mixed(c, i.ss.ck, i, r, 2)
    ensures var w := WriteMessage(c, i, payload, e).0; Wrote(i, w, e) && Mixed(c, w.ss.ck, w, r, 3)
  {
    hide Lawful, InStep, WriteMessage, SameX, NamedHash, ProtocolName, Shared, Dh, Public, Secret, Sealed, Payload, XkThird;
    Acquainted(c, i, r, 2);
    var (own, er) := (i.e.value, r.e.value);
    SharedIs(c, i.s, er, i.re.value);
    XkThirdIs(c, i, payload, e);
    XkThirdKey(c, i.ss, i.s, i.re.value, payload);
    var before := [Shared(c, own, r.s), Shared(c, own, er)];
    ChainMore(c, NamedHash(c, ProtocolName(XK)), before, Shared(c, i.s, er));
    assert before + [Shared(c, i.s, er)] == SecretsBefore(c, XK, 3, i.s, own, r.s, er);
  }

  lemma StepMixes(c: Crypto, i: Handshake, r: Handshake, payload: Bytes, e: Bytes, step: nat)
    requires Lawful(c) && InStep(c, i, r, step) && step < Steps(i.pattern) && Mixed(c, i.ss.ck, i, r, step)
    ensures step % 2 == 0 ==> var w := WriteMessage(c, i, payload, e).0; Wrote(i, w, e) && Mixed(c, w.ss.ck, w, r, step + 1)
    ensures step % 2 == 1 ==> var w := WriteMessage(c, r, payload, e).0; Wrote(r, w, e) && Mixed(c, w.ss.ck, i, w, step + 1)
  {
    hide Lawful, InStep, Mixed, Wrote, WriteMessage;
    match i.pattern
    case IK =>
      if step == 0 {
        IkFirstMixes(c, i, r, payload, e);
      } else {
        IkSecondMixes(c, i, r, payload, e);
      }
    case XK =>
      if step == 0 {
        XkFirstMixes(c, i, r, payload, e);
      } else if step == 1 {
        XkSecondMixes(c, i, r, payload, e);
      } else {
        XkThirdMixes(c, i, r, payload, e);
      }
  }

  // ---- Runs ----

  // Both sides hold their own static keys, and the side that is ahead has mixed in the secrets of its step.
  predicate Chained(c: Crypto, x: Exchange, pattern: Pattern, i: Bytes, r: Bytes) {
    && x.i.pattern == x.r.pattern == pattern && x.i.s == i && x.r.s == r
    && var ahead := if x.wire.Some? && x.wire.value.toInitiator then x.r else x.i;
       Mixed(c, ahead.ss.ck, x.i, x.r, ahead.step)
  }

  lemma ReadKeepsOwnKeys(c: Crypto, hs: Handshake, message: Bytes)
    ensures OnlyReading(hs, ReadMessage(c, hs, message).0)
  {
    hide ReadTokens;
    if Tokens(hs.pattern, hs.step).Some? {
      ReadTokensOnlyRead(c, hs, Tokens(hs.pattern, hs.step).value, message);
    }
  }

  lemma ReadingKeepsChained(c: Crypto, x: Exchange, event: Event, pattern: Pattern, i: Bytes, r: Bytes)
    requires Synchronised(c, x) && event.Reads? && Possible(c, x, event) && Chained(c, x, pattern, i, r)
    ensures Chained(c, Next(c, x, event), pattern, i, r)
  {
    hide ReadMessage, ProgressAt, Holds, SecretsBefore, Chain, NamedHash, ProtocolName, SameX;
    var hs := if event.byInitiator then x.i else x.r;
    FailedReadChangesNothing(c, hs, event.message);
    ReadKeepsOwnKeys(c, hs, event.message);
  }

  lemma WritingKeepsChained(c: Crypto, x: Exchange, event: Event, pattern: Pattern, i: Bytes, r: Bytes)
    requires Lawful(c) && Synchronised(c, x) && event.Writes? && Chained(c, x, pattern, i, r)
    ensures Chained(c, Next(c, x, event), pattern, i, r)
  {
    hide Lawful, WriteMessage, ReadMessage, Paired, ProgressAt, Mixed;
    var hs := if event.byInitiator then x.i else x.r;
    if x.wire.None? && hs.step < Steps(hs.pattern) && IsSender(hs.role, hs.step) {
      PairedRoles(c, x.i, x.r);
      StepMixes(c, x.i, x.r, event.payload, event.ephemeral, hs.step);
      MessageInStep(c, hs, if event.byInitiator then x.r else x.i, event.payload, event.ephemeral, event.byInitiator, hs.step);
    } else {
      if x.wire.None? {
        PairedRoles(c, x.i, x.r);
      }
      WriteOutOfTurn(c, hs, event.payload, event.ephemeral);
    }
  }

  lemma {:induction false} RunKeepsChained(c: Crypto, x: Exchange, events: seq<Event>, end: Exchange, pattern: Pattern, i: Bytes,
                                           r: Bytes)
    requires Lawful(c) && Synchronised(c, x) && Run(c, x, events, end) && Chained(c, x, pattern, i, r)
    ensures Synchronised(c, end) && Chained(c, end, pattern, i, r)
    decreases |events|
  {
    hide Synchronised, Lawful, Chained, Next, Possible;
    if events != [] {
      if events[0].Writes? {
        WritingKeepsSynchronised(c, x, events[0]);
        WritingKeepsChained(c, x, events[0], pattern, i, r);
      } else {
        ReadingKeepsSynchronised(c, x, events[0]);
        ReadingKeepsChained(c, x, events[0], pattern, i, r);
      }
      RunKeepsChained(c, Next(c, x, events[0]), events[1..], end, pattern, i, r);
    }
  }

  lemma NewExchangeIsChained(c: Crypto, pattern: Pattern, i: Bytes, r: Bytes, rs: Bytes)
    ensures Chained(c, NewExchange(c, pattern, i, r, rs), pattern, i, r)
  {
    hide NamedHash, ProtocolName, Normalized;
  }

  lemma {:induction false} AsciiIs(s: string)
    ensures |Ascii(s)| == |s| && forall k :: 0 <= k < |s| ==> Ascii(s)[k] == s[k] as int % 256
  {
    if s != "" {
      AsciiIs(s[1..]);
    }
  }

  lemma NameIsHashed(c: Crypto, s: string)
    requires |s| == 36
    ensures NamedHash(c, Ascii(s)) == Hash(c, Ascii(s))
  {
    AsciiIs(s);
  }

  // Both sides start from the hash of the protocol name, into which the responder's static key goes with its parity byte
  // set to 2; the initiator cannot start without that key.
  lemma StartIs(c: Crypto, role: NoiseRole, s: Bytes, rs: Option<Bytes>, pattern: Pattern)
    requires |PublicKey(c, s)| == 33 && (rs.Some? ==> |rs.value| == 33)
    ensures var name := Hash(c, Ascii(
        if pattern == XK then "Noise_XK_secp256k1_ChaChaPoly_SHA256" else "Noise_IK_secp256k1_ChaChaPoly_SHA256"));
      var known := if role == Responder then Some(PublicKey(c, s)) else rs;
      var r := NewHandshake(c, pattern, role, s, rs);
      if known.None? then r.Err?
      else r == Ok(Handshake(pattern, role, Symmetric(Hash(c, name + ([2] + known.value[1..])), name, Cipher(None, 0)),
                             s, None, rs, None, 0))
  {
    hide Ascii, NamedHash;
    NameIsHashed(c, "Noise_XK_secp256k1_ChaChaPoly_SHA256");
    NameIsHashed(c, "Noise_IK_secp256k1_ChaChaPoly_SHA256");
    var own := PublicKey(c, s);
    assert own[0 := 2] == [2] + own[1..];
    assert rs.Some? ==> rs.value[0 := 2] == [2] + rs.value[1..];
  }

  // The next chaining key, from a secret of the private keys a and b.
  ghost function After(c: Crypto, ck: Bytes, a: Bytes, b: Bytes): Bytes
    requires Lawful(c)
  {
    Hkdf(c, ck, Dh(c, a, PublicKey(c, b)).value).0
  }

  lemma ChainOfThree(c: Crypto, ck: Bytes, a: Bytes, b: Bytes, d: Bytes)
    ensures Chain(c, ck, [a, b, d]) == Hkdf(c, Hkdf(c, Hkdf(c, ck, a).0, b).0, d).0
  {
    ChainTwo(c, ck, [a], b, d);
    ChainMore(c, ck, [], a);
    assert [a] + [b, d] == [a, b, d] && [] + [a] == [a];
  }

  lemma ChainOfFour(c: Crypto, ck: Bytes, a: Bytes, b: Bytes, d: Bytes, e: Bytes)
    ensures Chain(c, ck, [a, b, d, e]) == Hkdf(c, Hkdf(c, Hkdf(c, Hkdf(c, ck, a).0, b).0, d).0, e).0
  {
    ChainOfThree(c, ck, a, b, d);
    ChainMore(c, ck, [a, b, d], e);
    assert [a, b, d] + [e] == [a, b, d, e];
  }

  // Which secrets a handshake stands on. After any finished run of two honest parties both chaining keys are the hash of
  // the protocol name stirred with these secrets in this order: for XK the initiator's ephemeral key with the responder's
  // static one, the two ephemeral keys, and the initiator's static key with the responder's ephemeral one; for IK the
  // first, the two static keys, the two ephemeral ones, and the first once more. The transport keys are drawn from it.
  lemma HandshakeChain(c: Crypto, pattern: Pattern, i: Bytes, r: Bytes, rs: Bytes, events: seq<Event>, end: Exchange)
    requires Lawful(c) && SameX(rs, PublicKey(c, r))
    requires Run(c, NewExchange(c, pattern, i, r, rs), events, end) && Finished(end)
    ensures end.i.e.Some? && end.r.e.Some? && end.i.ss.ck == end.r.ss.ck
    ensures var (ei, er) := (end.i.e.value, end.r.e.value);
      end.i.ss.ck ==
      if pattern == XK then
        var name := Hash(c, Ascii("Noise_XK_secp256k1_ChaChaPoly_SHA256"));
        After(c, After(c, After(c, name, ei, r), ei, er), i, er)
      else
        var name := Hash(c, Ascii("Noise_IK_secp256k1_ChaChaPoly_SHA256"));
        After(c, After(c, After(c, After(c, name, ei, r), i, r), ei, er), ei, r)
    ensures SplitTxRx(c, end.i) == Hkdf(c, end.i.ss.ck, []) && SplitTxRx(c, end.r) == (SplitTxRx(c, end.i).1, SplitTxRx(c, end.i).0)
  {
    hide ReadMessage, Lawful, Run, NewExchange, Ascii, Chain, NamedHash;
    NewExchangeIsSynchronised(c, pattern, i, r, rs);
    NewExchangeIsChained(c, pattern, i, r, rs);
    RunKeepsChained(c, NewExchange(c, pattern, i, r, rs), events, end, pattern, i, r);
    EndKeys(c, end);
    var (ei, er) := (end.i.e.value, end.r.e.value);
    NameIsHashed(c, "Noise_XK_secp256k1_ChaChaPoly_SHA256");
    NameIsHashed(c, "Noise_IK_secp256k1_ChaChaPoly_SHA256");
    SharedWith(c, ei, r);
    SharedWith(c, ei, er);
    SharedWith(c, i, er);
    SharedWith(c, i, r);
    hide Shared, Dh;
    var name := NamedHash(c, ProtocolName(pattern));
    match pattern
    case XK => ChainOfThree(c, name, Shared(c, ei, r), Shared(c, ei, er), Shared(c, i, er));
    case IK => ChainOfFour(c, name, Shared(c, ei, r), Shared(c, i, r), Shared(c, ei, er), Shared(c, ei, r));
  }

  lemma SharedWith(c: Crypto, a: Bytes, b: Bytes)
    requires Lawful(c)
    ensures Dh(c, a, PublicKey(c, b)) == Some(Shared(c, a, b))
  {
  }

  lemma EndKeys(c: Crypto, x: Exchange)
    requires Synchronised(c, x) && Finished(x) && x.i.pattern == x.r.pattern
    ensures x.i.e.Some? && x.r.e.Some? && x.i.ss == x.r.ss && x.i.role == Initiator && x.r.role == Responder
  {
  }
}
