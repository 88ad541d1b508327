/**
 * The Noise IK and XK handshakes as FIPS uses them (packages/core/src/noise/handshake.ts; Noise Protocol Framework
 * revision 34, sections 5.3 and 7.5): empty associated data, no tag on an empty payload, `se` of IK on the operands of
 * `es`, and the responder key hashed with its parity byte set to 0x02.
 */
module NoiseHandshakes {
  import opened Wrappers
  import opened BinaryCodec
  import opened NoiseStates

  datatype Pattern = IK | XK

  datatype NoiseRole = Initiator | Responder

  datatype Token = E | S | EE | ES | SE | SS

  datatype Handshake = Handshake(
    pattern: Pattern, role: NoiseRole, ss: Symmetric, s: Bytes, e: Option<Bytes>, rs: Option<Bytes>, re: Option<Bytes>, step: nat)

  function Ascii(s: string): Bytes {
    if s == "" then [] else [s[0] as int % 256] + Ascii(s[1..])
  }

  function ProtocolName(pattern: Pattern): Bytes {
    match pattern
    case IK => Ascii("Noise_IK_secp256k1_ChaChaPoly_SHA256")
    case XK => Ascii("Noise_XK_secp256k1_ChaChaPoly_SHA256")
  }

  function Steps(pattern: Pattern): nat {
    match pattern
    case IK => 2
    case XK => 3
  }

  function Tokens(pattern: Pattern, step: nat): Option<seq<Token>> {
    match pattern
    case IK => if step == 0 then Some([E, ES, S, SS]) else if step == 1 then Some([E, EE, SE]) else None
    case XK => if step == 0 then Some([E, ES]) else if step == 1 then Some([E, EE]) else if step == 2 then Some([S, SE]) else None
  }

  predicate IsSender(role: NoiseRole, step: nat) {
    (step % 2 == 0) == (role == Initiator)
  }

  function Normalized(pub: Bytes): Bytes {
    if pub == [] then [] else pub[0 := 2]
  }

  // Without a remote static key an initiator cannot start.
  function NewHandshake(c: Crypto, pattern: Pattern, role: NoiseRole, s: Bytes, rs: Option<Bytes>): Result<Handshake> {
    if role == Initiator && rs.None? then Err("initiator must know the responder's static key")
    else
      var known := if role == Initiator then rs.value else PublicKey(c, s);
      Ok(Handshake(pattern, role, MixHash(c, NewSymmetric(c, ProtocolName(pattern)), Normalized(known)), s, None, rs, None, 0))
  }

  // The private and public operands of a Diffie-Hellman token, as far as they are there.
  function Operands(hs: Handshake, token: Token): (Option<Bytes>, Option<Bytes>) {
    match token
    case EE => (hs.e, hs.re)
    case ES => if hs.role == Initiator then (hs.e, hs.rs) else (Some(hs.s), hs.re)
    case SE =>
      if hs.pattern == IK then (if hs.role == Initiator then (hs.e, hs.rs) else (Some(hs.s), hs.re))
      else if hs.role == Initiator then (Some(hs.s), hs.re)
      else (hs.e, hs.rs)
    case _ => (Some(hs.s), hs.rs)
  }

  function MixDh(c: Crypto, hs: Handshake, token: Token): (Handshake, Result<()>) {
    var (priv, pub) := Operands(hs, token);
    if priv.None? || pub.None? then (hs, Err("missing key"))
    else
      match Dh(c, priv.value, pub.value)
      case None => (hs, Err("bad public key"))
      case Some(shared) =>
        if |shared| != HASHLEN then (hs, Err("noise DH must produce 32-byte output"))
        else (hs.(ss := MixKey(c, hs.ss, shared)), Ok(()))
  }

  // ---- Writing ----

  function WriteToken(c: Crypto, hs: Handshake, token: Token, ephemeral: Bytes): (Handshake, Result<Bytes>) {
    match token
    case E =>
      var pub := PublicKey(c, ephemeral);
      (hs.(e := Some(ephemeral), ss := MixHash(c, hs.ss, pub)), Ok(pub))
    case S =>
      var (ss, r) := EncryptAndHash(c, hs.ss, PublicKey(c, hs.s));
      (hs.(ss := ss), r)
    case _ =>
      var (mixed, r) := MixDh(c, hs, token);
      (mixed, if r.Ok? then Ok([]) else Err(r.error))
  }

  function WriteTokens(c: Crypto, hs: Handshake, tokens: seq<Token>, ephemeral: Bytes): (Handshake, Result<Bytes>)
    decreases |tokens|
  {
    if tokens == [] then (hs, Ok([]))
    else
      var (next, out) := WriteToken(c, hs, tokens[0], ephemeral);
      if out.Err? then (next, out)
      else
        var (end, rest) := WriteTokens(c, next, tokens[1..], ephemeral);
        (end, if rest.Ok? then Ok(out.value + rest.value) else rest)
  }

  // An empty payload is not sealed.
  function WritePayload(c: Crypto, hs: Handshake, payload: Bytes): (Handshake, Result<Bytes>) {
    if payload == [] then (hs, Ok([]))
    else
      var (ss, r) := EncryptAndHash(c, hs.ss, payload);
      (hs.(ss := ss), r)
  }

  function WriteMessage(c: Crypto, hs: Handshake, payload: Bytes, ephemeral: Bytes): (Handshake, Result<Bytes>) {
    var tokens := Tokens(hs.pattern, hs.step);
    if tokens.None? then (hs, Err("no tokens for step"))
    else if !IsSender(hs.role, hs.step) then (hs, Err("not our turn to write"))
    else
      var (mid, head) := WriteTokens(c, hs, tokens.value, ephemeral);
      if head.Err? then (mid, head)
      else
        var (end, tail) := WritePayload(c, mid, payload);
        if tail.Err? then (end, tail) else (end.(step := hs.step + 1), Ok(head.value + tail.value))
  }

  // ---- Reading ----

  // The rest of the message is returned.
  function ReadToken(c: Crypto, hs: Handshake, token: Token, message: Bytes): (Handshake, Result<Bytes>) {
    match token
    case E =>
      if |message| < DHLEN then (hs, Err("short message reading e"))
      else (hs.(re := Some(message[..DHLEN]), ss := MixHash(c, hs.ss, message[..DHLEN])), Ok(message[DHLEN..]))
    case S =>
      var len := if hs.ss.cipher.key.Some? then DHLEN + TAGLEN else DHLEN;
      if |message| < len then (hs, Err("short message reading s"))
      else
        var (ss, r) := DecryptAndHash(c, hs.ss, message[..len]);
        if r.Err? then (hs.(ss := ss), r)
        else if |r.value| != DHLEN then (hs.(ss := ss, rs := Some(r.value)), Err("decrypted s is wrong length"))
        else (hs.(ss := ss, rs := Some(r.value)), Ok(message[len..]))
    case _ =>
      var (mixed, r) := MixDh(c, hs, token);
      (mixed, if r.Ok? then Ok(message) else Err(r.error))
  }

  function ReadTokens(c: Crypto, hs: Handshake, tokens: seq<Token>, message: Bytes): (Handshake, Result<Bytes>)
    decreases |tokens|
  {
    if tokens == [] then (hs, Ok(message))
    else
      var (next, rest) := ReadToken(c, hs, tokens[0], message);
      if rest.Err? then (next, rest) else ReadTokens(c, next, tokens[1..], rest.value)
  }

  function ReadPayload(c: Crypto, hs: Handshake, rest: Bytes): (Handshake, Result<Bytes>) {
    if rest == [] then (hs, Ok([]))
    else
      var (ss, r) := DecryptAndHash(c, hs.ss, rest);
      (hs.(ss := ss), r)
  }

  // readMessageInPlace, which leaves the state wherever the failure found it.
  function ReadInPlace(c: Crypto, hs: Handshake, message: Bytes): (Handshake, Result<Bytes>) {
    var tokens := Tokens(hs.pattern, hs.step);
    if tokens.None? then (hs, Err("no tokens for step"))
    else if IsSender(hs.role, hs.step) then (hs, Err("not our turn to read"))
    else
      var (mid, rest) := ReadTokens(c, hs, tokens.value, message);
      if rest.Err? then (mid, rest)
      else
        var (end, payload) := ReadPayload(c, mid, rest.value);
        if payload.Err? then (end, payload) else (end.(step := hs.step + 1), payload)
  }

  // On a failure the symmetric state, the remote keys and the step are put back.
  function ReadMessage(c: Crypto, hs: Handshake, message: Bytes): (Handshake, Result<Bytes>) {
    var (after, r) := ReadInPlace(c, hs, message);
    if r.Ok? then (after, r) else (after.(ss := hs.ss, rs := hs.rs, re := hs.re, step := hs.step), r)
  }

  function SplitTxRx(c: Crypto, hs: Handshake): (Bytes, Bytes) {
    var (k1, k2) := SplitKeys(c, hs.ss);
    if hs.role == Initiator then (k1, k2) else (k2, k1)
  }

  // ---- A failed read leaves the state unchanged ----

  // What reading may touch at all.
  predicate OnlyReading(hs: Handshake, after: Handshake) {
    after == hs.(ss := after.ss, rs := after.rs, re := after.re, step := after.step)
  }

  lemma {:induction false} ReadTokensOnlyRead(c: Crypto, hs: Handshake, tokens: seq<Token>, message: Bytes)
    ensures OnlyReading(hs, ReadTokens(c, hs, tokens, message).0)
    decreases |tokens|
  {
    if tokens != [] {
      var (next, rest) := ReadToken(c, hs, tokens[0], message);
      if rest.Ok? {
        ReadTokensOnlyRead(c, next, tokens[1..], rest.value);
      }
    }
  }

  lemma FailedReadChangesNothing(c: Crypto, hs: Handshake, message: Bytes)
    ensures ReadMessage(c, hs, message).1.Err? ==> ReadMessage(c, hs, message).0 == hs
  {
    hide ReadTokens;
    if Tokens(hs.pattern, hs.step).Some? {
      ReadTokensOnlyRead(c, hs, Tokens(hs.pattern, hs.step).value, message);
    }
  }

  // ---- Two parties in step ----

  // The initiator may hold the responder's key under either parity.
  predicate Paired(c: Crypto, i: Handshake, r: Handshake) {
    && i.pattern == r.pattern && i.role == Initiator && r.role == Responder && i.ss == r.ss
    && i.rs.Some? && SameX(i.rs.value, PublicKey(c, r.s))
    && Holds(c, i.e, r.re) && Holds(c, r.e, i.re)
    && (r.rs.Some? ==> r.rs.value == PublicKey(c, i.s))
  }

  // One side's private key, if generated, has reached the other as its public key.
  predicate Holds(c: Crypto, priv: Option<Bytes>, pub: Option<Bytes>) {
    if priv.Some? then pub == Some(PublicKey(c, priv.value)) else pub.None?
  }

  // Which exchanges have happened.
  datatype Progress = Progress(initiatorEphemeral: bool, responderEphemeral: bool, initiatorStatic: bool)

  function ProgressOf(i: Handshake, r: Handshake): Progress {
    Progress(i.e.Some?, r.e.Some?, r.rs.Some?)
  }

  // The operands the token needs have been exchanged; only the initiator sends its static key.
  predicate Ready(pattern: Pattern, p: Progress, token: Token, byInitiator: bool) {
    match token
    case E => if byInitiator then !p.initiatorEphemeral else !p.responderEphemeral
    case S => byInitiator
    case EE => p.initiatorEphemeral && p.responderEphemeral
    case ES => p.initiatorEphemeral
    case SE => if pattern == IK then p.initiatorEphemeral else p.responderEphemeral && p.initiatorStatic
    case SS => p.initiatorStatic
  }

  function Advance(p: Progress, token: Token, byInitiator: bool): Progress {
    match token
    case E => if byInitiator then p.(initiatorEphemeral := true) else p.(responderEphemeral := true)
    case S => p.(initiatorStatic := true)
    case _ => p
  }

  predicate AllReady(pattern: Pattern, p: Progress, tokens: seq<Token>, byInitiator: bool)
    decreases |tokens|
  {
    tokens == [] ||
    (Ready(pattern, p, tokens[0], byInitiator) && AllReady(pattern, Advance(p, tokens[0], byInitiator), tokens[1..], byInitiator))
  }

  function AdvanceAll(p: Progress, tokens: seq<Token>, byInitiator: bool): Progress
    decreases |tokens|
  {
    if tokens == [] then p else AdvanceAll(Advance(p, tokens[0], byInitiator), tokens[1..], byInitiator)
  }

  // Writer and reader as initiator and responder.
  predicate PairedAs(c: Crypto, w: Handshake, rd: Handshake, byInitiator: bool) {
    if byInitiator then Paired(c, w, rd) else Paired(c, rd, w)
  }

  function ProgressAs(w: Handshake, rd: Handshake, byInitiator: bool): Progress {
    if byInitiator then ProgressOf(w, rd) else ProgressOf(rd, w)
  }

  // Both sides of a Diffie-Hellman token reach the same secret.
  lemma DhAgrees(c: Crypto, i: Handshake, r: Handshake, token: Token)
    requires Lawful(c) && Paired(c, i, r) && !token.E? && !token.S?
    requires Ready(i.pattern, ProgressOf(i, r), token, true)
    ensures MixDh(c, i, token).1.Ok? && MixDh(c, r, token).1.Ok?
    ensures MixDh(c, i, token).0.ss == MixDh(c, r, token).0.ss && MixDh(c, i, token).0.ss.cipher.n == 0
    ensures MixDh(c, i, token).0 == i.(ss := MixDh(c, i, token).0.ss) && MixDh(c, r, token).0 == r.(ss := MixDh(c, r, token).0.ss)
  {
    hide MixKey;
    var (a, p) := Operands(i, token);
    var (b, q) := Operands(r, token);
    assert a.Some? && b.Some? && p.Some? && q.Some?;
    assert q.value == PublicKey(c, a.value);
    assert SameX(p.value, PublicKey(c, b.value));
    assert Dh(c, a.value, p.value) == Dh(c, a.value, PublicKey(c, b.value)) == Dh(c, b.value, q.value);
    FreshKeyHasNoNonce(c, i.ss, Dh(c, a.value, p.value).value);
  }

  lemma FreshKeyHasNoNonce(c: Crypto, s: Symmetric, ikm: Bytes)
    ensures MixKey(c, s, ikm).cipher.n == 0
  {
  }

  // One token written and read keeps the two in step.
  lemma TokenInStep(c: Crypto, w: Handshake, rd: Handshake, token: Token, ephemeral: Bytes, rest: Bytes, byInitiator: bool)
    requires Lawful(c) && PairedAs(c, w, rd, byInitiator) && w.ss.cipher.n < NONCE_LIMIT
    requires Ready(w.pattern, ProgressAs(w, rd, byInitiator), token, byInitiator)
    ensures var (w', out) := WriteToken(c, w, token, ephemeral);
      && out.Ok?
      && var (rd', left) := ReadToken(c, rd, token, out.value + rest);
      && left == Ok(rest) && PairedAs(c, w', rd', byInitiator) && w'.ss.cipher.n <= w.ss.cipher.n + 1
      && ProgressAs(w', rd', byInitiator) == Advance(ProgressAs(w, rd, byInitiator), token, byInitiator)
      && w'.pattern == w.pattern && w'.step == w.step && rd'.step == rd.step
  {
    match token {
      case E =>
        var pub := PublicKey(c, ephemeral);
        assert (pub + rest)[..DHLEN] == pub && (pub + rest)[DHLEN..] == rest;
      case S =>
        var pub := PublicKey(c, w.s);
        hide EncryptAndHash, DecryptAndHash, Dh, SameX;
        EqualStatesAgree(c, w.ss, pub);
        var sealed := EncryptAndHash(c, w.ss, pub).1.value;
        assert (sealed + rest)[..|sealed|] == sealed && (sealed + rest)[|sealed|..] == rest;
      case _ =>
        hide MixDh, Lawful;
        if byInitiator {
          DhAgrees(c, w, rd, token);
        } else {
          ReadyEitherWay(w.pattern, ProgressOf(rd, w), token);
          DhAgrees(c, rd, w, token);
        }
        assert [] + rest == rest;
    }
  }

  lemma ReadyEitherWay(pattern: Pattern, p: Progress, token: Token)
    requires Ready(pattern, p, token, false) && !token.E?
    ensures Ready(pattern, p, token, true)
  {
  }

  lemma {:induction false} TokensInStep(c: Crypto, w: Handshake, rd: Handshake, tokens: seq<Token>, ephemeral: Bytes, rest: Bytes,
                                        byInitiator: bool)
    requires Lawful(c) && PairedAs(c, w, rd, byInitiator) && w.ss.cipher.n + |tokens| < NONCE_LIMIT
    requires AllReady(w.pattern, ProgressAs(w, rd, byInitiator), tokens, byInitiator)
    ensures var (w', out) := WriteTokens(c, w, tokens, ephemeral);
      && out.Ok?
      && var (rd', left) := ReadTokens(c, rd, tokens, out.value + rest);
      && left == Ok(rest) && PairedAs(c, w', rd', byInitiator) && w'.ss.cipher.n <= w.ss.cipher.n + |tokens|
      && ProgressAs(w', rd', byInitiator) == AdvanceAll(ProgressAs(w, rd, byInitiator), tokens, byInitiator)
      && w'.pattern == w.pattern && w'.step == w.step && rd'.step == rd.step
    decreases |tokens|
  {
    hide WriteToken, ReadToken, Lawful, PairedAs, ProgressAs, Ready, Advance;
    if tokens == [] {
      assert [] + rest == rest;
    } else {
      var (w1, head) := WriteToken(c, w, tokens[0], ephemeral);
      var (w2, tail) := WriteTokens(c, w1, tokens[1..], ephemeral);
      TokenInStep(c, w, rd, tokens[0], ephemeral, [], byInitiator);
      if tail.Ok? {
        TokenInStep(c, w, rd, tokens[0], ephemeral, tail.value + rest, byInitiator);
        assert head.value + (tail.value + rest) == (head.value + tail.value) + rest;
        var rd1 := ReadToken(c, rd, tokens[0], head.value + (tail.value + rest)).0;
        TokensInStep(c, w1, rd1, tokens[1..], ephemeral, rest, byInitiator);
      } else {
        var rd1 := ReadToken(c, rd, tokens[0], head.value + []).0;
        TokensInStep(c, w1, rd1, tokens[1..], ephemeral, rest, byInitiator);
      }
    }
  }

  // What each pattern has exchanged before a step.
  function ProgressAt(pattern: Pattern, step: nat): Progress {
    match pattern
    case IK => if step == 0 then Progress(false, false, false) else if step == 1 then Progress(true, false, true) else Progress(true, true, true)
    case XK =>
      if step == 0 then Progress(false, false, false) else if step == 1 then Progress(true, false, false)
      else if step == 2 then Progress(true, true, false) else Progress(true, true, true)
  }

  lemma StepIsReady(pattern: Pattern, step: nat)
    requires step < Steps(pattern)
    ensures Tokens(pattern, step).Some? && |Tokens(pattern, step).value| <= 4
    ensures var tokens := Tokens(pattern, step).value;
      && AllReady(pattern, ProgressAt(pattern, step), tokens, step % 2 == 0)
      && AdvanceAll(ProgressAt(pattern, step), tokens, step % 2 == 0) == ProgressAt(pattern, step + 1)
  {
    var tokens := Tokens(pattern, step).value;
    var p := ProgressAt(pattern, step);
    var byInitiator := step % 2 == 0;
    assert tokens[1..][1..] == tokens[2..];
    if |tokens| > 2 {
      assert tokens[2..][1..] == tokens[3..];
      if |tokens| > 3 {
        assert tokens[3..][1..] == tokens[4..];
      }
    }
  }

  // The two sides are before the same step, with what that step needs.
  predicate InStep(c: Crypto, i: Handshake, r: Handshake, step: nat) {
    && Paired(c, i, r) && i.step == r.step == step && ProgressOf(i, r) == ProgressAt(i.pattern, step)
    && i.ss.cipher.n <= 5 * step
  }

  predicate InStepAs(c: Crypto, w: Handshake, rd: Handshake, byInitiator: bool, step: nat) {
    if byInitiator then InStep(c, w, rd, step) else InStep(c, rd, w, step)
  }

  lemma PayloadInStep(c: Crypto, w: Handshake, rd: Handshake, payload: Bytes, byInitiator: bool)
    requires Lawful(c) && PairedAs(c, w, rd, byInitiator) && w.ss.cipher.n < NONCE_LIMIT
    ensures var (w', tail) := WritePayload(c, w, payload);
      && tail.Ok?
      && var (rd', got) := ReadPayload(c, rd, tail.value);
      && got == Ok(payload) && PairedAs(c, w', rd', byInitiator) && w'.ss.cipher.n <= w.ss.cipher.n + 1
      && ProgressAs(w', rd', byInitiator) == ProgressAs(w, rd, byInitiator)
      && w'.pattern == w.pattern && w'.step == w.step && rd'.step == rd.step
  {
    hide EncryptAndHash, DecryptAndHash, Lawful;
    if payload != [] {
      EqualStatesAgree(c, w.ss, payload);
    }
  }

  // Writing a message in turn succeeds, the other side reads exactly the payload, and both come out in step.
  lemma MessageInStep(c: Crypto, w: Handshake, rd: Handshake, payload: Bytes, ephemeral: Bytes, byInitiator: bool, step: nat)
    requires Lawful(c) && InStepAs(c, w, rd, byInitiator, step) && step < Steps(w.pattern) && byInitiator == (step % 2 == 0)
    ensures var (w', m) := WriteMessage(c, w, payload, ephemeral);
      && m.Ok?
      && var (rd', got) := ReadMessage(c, rd, m.value);
      && got == Ok(payload) && InStepAs(c, w', rd', byInitiator, step + 1) && w'.pattern == w.pattern
  {
    hide WriteTokens, ReadTokens, WritePayload, ReadPayload, Lawful, Tokens, AllReady, AdvanceAll;
    StepIsReady(w.pattern, step);
    var tokens := Tokens(w.pattern, step).value;
    var (w1, head) := WriteTokens(c, w, tokens, ephemeral);
    TokensInStep(c, w, rd, tokens, ephemeral, [], byInitiator);
    PayloadInStep(c, w1, ReadTokens(c, rd, tokens, head.value + []).0, payload, byInitiator);
    var tail := WritePayload(c, w1, payload).1.value;
    TokensInStep(c, w, rd, tokens, ephemeral, tail, byInitiator);
    PayloadInStep(c, w1, ReadTokens(c, rd, tokens, head.value + tail).0, payload, byInitiator);
  }

  // Two new parties are in step even if the initiator has the responder's key under the other parity.
  lemma StartInStep(c: Crypto, pattern: Pattern, i: Bytes, r: Bytes, rs: Bytes)
    requires Lawful(c) && SameX(rs, PublicKey(c, r))
    ensures var a := NewHandshake(c, pattern, Initiator, i, Some(rs));
      var b := NewHandshake(c, pattern, Responder, r, None);
      a.Ok? && b.Ok? && InStep(c, a.value, b.value, 0)
  {
    hide NewSymmetric, MixHash, ProtocolName;
    var p := PublicKey(c, r);
    assert rs[0 := 2] == [2] + rs[1..] && p[0 := 2] == [2] + p[1..];
    SmallNonce(c, ProtocolName(pattern), Normalized(p));
  }

  lemma SmallNonce(c: Crypto, name: Bytes, data: Bytes)
    ensures MixHash(c, NewSymmetric(c, name), data).cipher.n == 0
  {
  }

  // ---- What goes on the wire ----

  // Bytes put out for the tokens, and whether a key is in place after them.
  function WireLength(tokens: seq<Token>, keyed: bool): nat {
    if tokens == [] then 0 else TokenBytes(tokens[0], keyed) + WireLength(tokens[1..], Keyed(tokens[0], keyed))
  }

  function Keyed(token: Token, keyed: bool): bool {
    keyed || !(token.E? || token.S?)
  }

  function KeyedAfter(tokens: seq<Token>, keyed: bool): bool {
    if tokens == [] then keyed else KeyedAfter(tokens[1..], Keyed(tokens[0], keyed))
  }

  lemma TokenLength(c: Crypto, hs: Handshake, token: Token, ephemeral: Bytes)
    requires Lawful(c) && WriteToken(c, hs, token, ephemeral).1.Ok?
    ensures var (after, out) := WriteToken(c, hs, token, ephemeral);
      && |out.value| == WireLength([token], hs.ss.cipher.key.Some?)
      && after.ss.cipher.key.Some? == Keyed(token, hs.ss.cipher.key.Some?)
  {
    assert [token][1..] == [];
    if token == S && hs.ss.cipher.key.Some? && hs.ss.cipher.n < NONCE_LIMIT {
      EqualStatesAgree(c, hs.ss, PublicKey(c, hs.s));
    }
  }

  lemma {:induction false} TokensLength(c: Crypto, hs: Handshake, tokens: seq<Token>, ephemeral: Bytes)
    requires Lawful(c) && WriteTokens(c, hs, tokens, ephemeral).1.Ok?
    ensures var (after, out) := WriteTokens(c, hs, tokens, ephemeral);
      && |out.value| == WireLength(tokens, hs.ss.cipher.key.Some?)
      && after.ss.cipher.key.Some? == KeyedAfter(tokens, hs.ss.cipher.key.Some?)
    decreases |tokens|
  {
    hide Lawful, WriteToken;
    if tokens != [] {
      TokenLength(c, hs, tokens[0], ephemeral);
      assert [tokens[0]][1..] == [];
      TokensLength(c, WriteToken(c, hs, tokens[0], ephemeral).0, tokens[1..], ephemeral);
    }
  }

  // The fixed part of each message.
  function Overhead(pattern: Pattern, step: nat): nat {
    match pattern
    case IK => if step == 0 then 82 else 33
    case XK => if step == 2 then 49 else 33
  }

  lemma StepLength(pattern: Pattern, step: nat)
    requires step < Steps(pattern)
    ensures var tokens := Tokens(pattern, step).value;
      WireLength(tokens, step > 0) == Overhead(pattern, step) && KeyedAfter(tokens, step > 0)
  {
    match pattern {
      case IK =>
        if step == 0 {
          OneMoreToken(SS, [], true);
          OneMoreToken(S, [SS], true);
          OneMoreToken(ES, [S, SS], false);
          OneMoreToken(E, [ES, S, SS], false);
        } else {
          OneMoreToken(SE, [], true);
          OneMoreToken(EE, [SE], true);
          OneMoreToken(E, [EE, SE], true);
        }
      case XK =>
        if step == 0 {
          OneMoreToken(ES, [], false);
          OneMoreToken(E, [ES], false);
        } else if step == 1 {
          OneMoreToken(EE, [], true);
          OneMoreToken(E, [EE], true);
        } else {
          OneMoreToken(SE, [], true);
          OneMoreToken(S, [SE], true);
        }
    }
  }

  function TokenBytes(token: Token, keyed: bool): nat {
    match token
    case E => DHLEN
    case S => DHLEN + (if keyed then TAGLEN else 0)
    case _ => 0
  }

  lemma OneMoreToken(token: Token, rest: seq<Token>, keyed: bool)
    ensures WireLength([token] + rest, keyed) == TokenBytes(token, keyed) + WireLength(rest, Keyed(token, keyed))
    ensures KeyedAfter([token] + rest, keyed) == KeyedAfter(rest, Keyed(token, keyed))
  {
    assert ([token] + rest)[1..] == rest;
  }

  // With the 8-byte epoch as payload the messages are the 106 and 57 bytes of IK and the 57 and 73 bytes of XK; the first
  // message of XK, which carries none, is 33 bytes.
  lemma MessageLength(c: Crypto, hs: Handshake, payload: Bytes, ephemeral: Bytes)
    requires Lawful(c) && hs.step < Steps(hs.pattern) && (hs.ss.cipher.key.Some? <==> hs.step > 0)
    requires WriteMessage(c, hs, payload, ephemeral).1.Ok?
    ensures var (after, m) := WriteMessage(c, hs, payload, ephemeral);
      && |m.value| == Overhead(hs.pattern, hs.step) + (if payload == [] then 0 else |payload| + TAGLEN)
      && after.ss.cipher.key.Some? && after.step == hs.step + 1
  {
    hide Lawful, WriteTokens, Tokens, WireLength, KeyedAfter;
    var tokens := Tokens(hs.pattern, hs.step).value;
    StepLength(hs.pattern, hs.step);
    TokensLength(c, hs, tokens, ephemeral);
    var mid := WriteTokens(c, hs, tokens, ephemeral).0;
    if payload != [] && mid.ss.cipher.n < NONCE_LIMIT {
      EqualStatesAgree(c, mid.ss, payload);
    }
  }

  // The departure in IK: `se` mixes the secret of `es` once more. In XK it is the initiator's static key with the
  // responder's ephemeral one, on both sides.
  lemma OperandsOfSe(c: Crypto, i: Handshake, r: Handshake)
    requires Lawful(c) && Paired(c, i, r) && r.e.Some? && r.rs.Some? && i.e.Some?
    ensures i.pattern == IK ==> MixDh(c, i, SE) == MixDh(c, i, ES) && MixDh(c, r, SE) == MixDh(c, r, ES)
    ensures i.pattern == XK ==>
      && MixDh(c, i, SE).0.ss == MixKey(c, i.ss, Dh(c, i.s, PublicKey(c, r.e.value)).value)
      && MixDh(c, r, SE).0.ss == MixKey(c, i.ss, Dh(c, i.s, PublicKey(c, r.e.value)).value)
  {
    hide MixKey;
    assert Dh(c, i.s, PublicKey(c, r.e.value)) == Dh(c, r.e.value, PublicKey(c, i.s));
  }

  // ---- Runs ----

  // wire: the message under way, to be read by the initiator if toInitiator; sent and got: the payloads so far.
  datatype Wire = Wire(toInitiator: bool, message: Bytes)

  datatype Exchange = Exchange(i: Handshake, r: Handshake, wire: Option<Wire>, sent: seq<Bytes>, got: seq<Bytes>)

  datatype Event =
    | Writes(byInitiator: bool, payload: Bytes, ephemeral: Bytes)
    | Reads(byInitiator: bool, message: Bytes)

  function Next(c: Crypto, x: Exchange, event: Event): Exchange {
    match event
    case Writes(byInitiator, payload, ephemeral) =>
      var (after, m) := WriteMessage(c, if byInitiator then x.i else x.r, payload, ephemeral);
      var y := if byInitiator then x.(i := after) else x.(r := after);
      if m.Ok? then y.(wire := Some(Wire(!byInitiator, m.value)), sent := x.sent + [payload]) else y
    case Reads(byInitiator, message) =>
      var (after, payload) := ReadMessage(c, if byInitiator then x.i else x.r, message);
      var y := if byInitiator then x.(i := after) else x.(r := after);
      if payload.Ok? then y.(wire := None, got := x.got + [payload.value]) else y
  }

  // Whatever a side is given to read is either the genuine message under way to it or gets rejected.
  predicate Possible(c: Crypto, x: Exchange, event: Event) {
    event.Reads? ==>
      || x.wire == Some(Wire(event.byInitiator, event.message))
      || ReadMessage(c, if event.byInitiator then x.i else x.r, event.message).1.Err?
  }

  predicate Run(c: Crypto, x: Exchange, events: seq<Event>, end: Exchange)
    decreases |events|
  {
    if events == [] then end == x else Possible(c, x, events[0]) && Run(c, Next(c, x, events[0]), events[1..], end)
  }

  // Between messages the two are in step; with a message under way, reading it brings them back in step.
  ghost predicate Synchronised(c: Crypto, x: Exchange) {
    if x.wire.None? then InStep(c, x.i, x.r, x.i.step) && x.sent == x.got
    else
      var w := x.wire.value;
      var (after, payload) := ReadMessage(c, if w.toInitiator then x.i else x.r, w.message);
      && payload.Ok? && x.sent == x.got + [payload.value]
      && (if w.toInitiator then InStep(c, after, x.r, x.r.step) && x.i.step + 1 == x.r.step
          else InStep(c, x.i, after, x.i.step) && x.r.step + 1 == x.i.step)
      && (if w.toInitiator then x.r.step % 2 == 0 && 0 < x.r.step <= Steps(x.r.pattern)
          else x.i.step % 2 == 1 && x.i.step <= Steps(x.i.pattern))
      && x.i.pattern == x.r.pattern && x.i.role == Initiator && x.r.role == Responder
  }

  lemma WriteOutOfTurn(c: Crypto, hs: Handshake, payload: Bytes, ephemeral: Bytes)
    requires !IsSender(hs.role, hs.step) || hs.step >= Steps(hs.pattern)
    ensures WriteMessage(c, hs, payload, ephemeral).0 == hs && WriteMessage(c, hs, payload, ephemeral).1.Err?
  {
  }

  lemma WritingKeepsSynchronised(c: Crypto, x: Exchange, event: Event)
    requires Lawful(c) && Synchronised(c, x) && event.Writes?
    ensures Synchronised(c, Next(c, x, event))
  {
    hide Lawful, WriteMessage, ReadMessage, Paired, ProgressAt;
    var hs, other := if event.byInitiator then x.i else x.r, if event.byInitiator then x.r else x.i;
    if x.wire.None? && hs.step < Steps(hs.pattern) && IsSender(hs.role, hs.step) {
      PairedRoles(c, x.i, x.r);
      MessageInStep(c, hs, other, event.payload, event.ephemeral, event.byInitiator, hs.step);
      var w := WriteMessage(c, hs, event.payload, event.ephemeral).0;
      var rd := ReadMessage(c, other, WriteMessage(c, hs, event.payload, event.ephemeral).1.value).0;
      if event.byInitiator {
        PairedRoles(c, w, rd);
      } else {
        PairedRoles(c, rd, w);
      }
      ReadingKeepsRole(c, other, WriteMessage(c, hs, event.payload, event.ephemeral).1.value);
    } else {
      if x.wire.None? {
        PairedRoles(c, x.i, x.r);
      }
      WriteOutOfTurn(c, hs, event.payload, event.ephemeral);
    }
  }

  lemma PairedRoles(c: Crypto, i: Handshake, r: Handshake)
    requires Paired(c, i, r)
    ensures i.role == Initiator && r.role == Responder && i.pattern == r.pattern
  {
  }

  lemma ReadingKeepsRole(c: Crypto, hs: Handshake, message: Bytes)
    ensures var after := ReadMessage(c, hs, message).0; after.role == hs.role && after.pattern == hs.pattern
  {
    hide ReadTokens;
    if Tokens(hs.pattern, hs.step).Some? {
      ReadTokensOnlyRead(c, hs, Tokens(hs.pattern, hs.step).value, message);
    }
  }

  lemma ReadingKeepsSynchronised(c: Crypto, x: Exchange, event: Event)
    requires Synchronised(c, x) && event.Reads? && Possible(c, x, event)
    ensures Synchronised(c, Next(c, x, event))
  {
    hide ReadMessage, Paired, ProgressAt;
    FailedReadChangesNothing(c, if event.byInitiator then x.i else x.r, event.message);
  }

  lemma {:induction false} RunKeepsSynchronised(c: Crypto, x: Exchange, events: seq<Event>, end: Exchange)
    requires Lawful(c) && Synchronised(c, x) && Run(c, x, events, end)
    ensures Synchronised(c, end)
    decreases |events|
  {
    hide Synchronised, Lawful;
    if events != [] {
      if events[0].Writes? {
        WritingKeepsSynchronised(c, x, events[0]);
      } else {
        ReadingKeepsSynchronised(c, x, events[0]);
      }
      RunKeepsSynchronised(c, Next(c, x, events[0]), events[1..], end);
    }
  }

  // Both sides have done every step.
  predicate Finished(x: Exchange) {
    x.i.step == Steps(x.i.pattern) && x.r.step == Steps(x.r.pattern) && x.wire.None?
  }

  // One hash, one chaining key, crossed transport keys.
  predicate Agreed(c: Crypto, i: Handshake, r: Handshake) {
    && i.ss.h == r.ss.h && i.ss.ck == r.ss.ck
    && SplitTxRx(c, i).0 == SplitTxRx(c, r).1 && SplitTxRx(c, i).1 == SplitTxRx(c, r).0
  }

  // Agreement with recovery: any run of two honest parties, however many messages are rejected on the way and under
  // whichever parity the initiator knows the responder's key, delivers the payloads intact, and a finished run agrees on
  // hash, chaining key and crossed transport keys. The responder has learnt the initiator's key.
  lemma HandshakeAgrees(c: Crypto, pattern: Pattern, i: Bytes, r: Bytes, rs: Bytes, events: seq<Event>, end: Exchange)
    requires Lawful(c) && SameX(rs, PublicKey(c, r))
    requires Run(c, NewExchange(c, pattern, i, r, rs), events, end)
    ensures end.wire.None? ==> end.got == end.sent
    ensures end.wire.Some? ==> |end.sent| > 0 && end.got == end.sent[..|end.sent| - 1]
    ensures Finished(end) ==> Agreed(c, end.i, end.r) && end.r.rs == Some(PublicKey(c, end.i.s))
  {
    hide ReadMessage, Lawful, InStep, SplitKeys, Run, NewExchange, Agreed, Synchronised;
    NewExchangeIsSynchronised(c, pattern, i, r, rs);
    RunKeepsSynchronised(c, NewExchange(c, pattern, i, r, rs), events, end);
    SynchronisedDelivers(c, end);
    if Finished(end) {
      SynchronisedFinish(c, end);
    }
  }

  lemma NewExchangeIsSynchronised(c: Crypto, pattern: Pattern, i: Bytes, r: Bytes, rs: Bytes)
    requires Lawful(c) && SameX(rs, PublicKey(c, r))
    ensures Synchronised(c, NewExchange(c, pattern, i, r, rs))
  {
    hide Lawful, InStep, NewSymmetric, MixHash, ProtocolName;
    StartInStep(c, pattern, i, r, rs);
  }

  lemma SynchronisedDelivers(c: Crypto, x: Exchange)
    requires Synchronised(c, x)
    ensures x.wire.None? ==> x.got == x.sent
    ensures x.wire.Some? ==> |x.sent| > 0 && x.got == x.sent[..|x.sent| - 1]
  {
    hide ReadMessage, InStep;
  }

  lemma SynchronisedFinish(c: Crypto, x: Exchange)
    requires Synchronised(c, x) && Finished(x)
    ensures Agreed(c, x.i, x.r) && x.r.rs == Some(PublicKey(c, x.i.s))
  {
    hide ReadMessage, InStep, Agreed;
    FinishedAgrees(c, x.i, x.r);
  }

  lemma FinishedAgrees(c: Crypto, i: Handshake, r: Handshake)
    requires InStep(c, i, r, Steps(i.pattern))
    ensures Agreed(c, i, r) && r.rs == Some(PublicKey(c, i.s))
  {
    hide SplitKeys;
  }

  function NewExchange(c: Crypto, pattern: Pattern, i: Bytes, r: Bytes, rs: Bytes): Exchange {
    Exchange(NewHandshake(c, pattern, Initiator, i, Some(rs)).value, NewHandshake(c, pattern, Responder, r, None).value, None, [], [])
  }

  // ---- NoiseHandshake ----

  class NoiseHandshake {
    const crypto: Crypto
    const pattern: Pattern
    const role: NoiseRole
    const s: Bytes
    var ss: SymmetricState
    var e: Option<Bytes>
    var rs: Option<Bytes>
    var re: Option<Bytes>
    var step: nat

    ghost predicate Valid()
      reads this, ss, ss.cipher
    {
      ss.Valid() && ss.crypto == crypto
    }

    ghost function Value(): Handshake
      reads this, ss, ss.cipher
    {
      Handshake(pattern, role, ss.Value(), s, e, rs, re, step)
    }

    // The symmetric state, whose parts are replaced as the handshake goes on.
    ghost function Inner(): set<object>
      reads this, ss
    {
      {ss, ss.cipher}
    }

    constructor (c: Crypto, asPattern: Pattern, asRole: NoiseRole, priv: Bytes, remoteStatic: Option<Bytes>)
      requires asRole == Initiator ==> remoteStatic.Some?
      ensures Valid() && crypto == c && fresh(Inner())
      ensures Ok(Value()) == NewHandshake(c, asPattern, asRole, priv, remoteStatic)
    {
      hide ProtocolName, NamedHash;
      crypto, pattern, role, s := c, asPattern, asRole, priv;
      e, rs, re, step := None, remoteStatic, None, 0;
      ss := new SymmetricState(c, ProtocolName(asPattern));
      new;
      ss.MixHashWith(Normalized(if asRole == Initiator then remoteStatic.value else PublicKey(c, priv)));
    }

    // The checks of the constructor of the original.
    static method Create(c: Crypto, asPattern: Pattern, asRole: NoiseRole, priv: Bytes, remoteStatic: Option<Bytes>)
      returns (r: Result<NoiseHandshake>)
      ensures r.Err? <==> NewHandshake(c, asPattern, asRole, priv, remoteStatic).Err?
      ensures r.Ok? ==> r.value.Valid() && fresh(r.value) && fresh(r.value.Inner()) && r.value.crypto == c
      ensures r.Ok? ==> Ok(r.value.Value()) == NewHandshake(c, asPattern, asRole, priv, remoteStatic)
    {
      hide ProtocolName;
      if asRole == Initiator && remoteStatic.None? {
        return Err("initiator must know the responder's static key");
      }
      var handshake := new NoiseHandshake(c, asPattern, asRole, priv, remoteStatic);
      r := Ok(handshake);
    }

    method MixDhToken(token: Token) returns (r: Result<()>)
      requires Valid() && !token.E? && !token.S?
      modifies this, Inner()
      ensures Valid() && fresh(Inner() - old(Inner())) && (Value(), r) == MixDh(crypto, old(Value()), token)
    {
      var (priv, pub) := Operands(Handshake(pattern, role, Symmetric([], [], NO_KEY), s, e, rs, re, step), token);
      if priv.None? || pub.None? {
        return Err("missing key");
      }
      var shared := Dh(crypto, priv.value, pub.value);
      if shared.None? {
        return Err("bad public key");
      }
      if |shared.value| != HASHLEN {
        return Err("noise DH must produce 32-byte output");
      }
      ss.MixKeyWith(shared.value);
      r := Ok(());
    }

    method PutToken(token: Token, ephemeral: Bytes) returns (r: Result<Bytes>)
      requires Valid()
      modifies this, Inner()
      ensures Valid() && fresh(Inner() - old(Inner())) && (Value(), r) == WriteToken(crypto, old(Value()), token, ephemeral)
    {
      match token {
        case E =>
          e := Some(ephemeral);
          var pub := PublicKey(crypto, ephemeral);
          ss.MixHashWith(pub);
          r := Ok(pub);
        case S => r := ss.EncryptThenHash(PublicKey(crypto, s));
        case _ =>
          var mixed := MixDhToken(token);
          r := if mixed.Ok? then Ok([]) else Err(mixed.error);
      }
    }

    method GetToken(token: Token, message: Bytes) returns (r: Result<Bytes>)
      requires Valid()
      modifies this, Inner()
      ensures Valid() && fresh(Inner() - old(Inner())) && (Value(), r) == ReadToken(crypto, old(Value()), token, message)
    {
      match token {
        case E =>
          if |message| < DHLEN {
            return Err("short message reading e");
          }
          re := Some(message[..DHLEN]);
          ss.MixHashWith(message[..DHLEN]);
          r := Ok(message[DHLEN..]);
        case S =>
          var len := if ss.cipher.key.Some? then DHLEN + TAGLEN else DHLEN;
          if |message| < len {
            return Err("short message reading s");
          }
          var key := ss.DecryptThenHash(message[..len]);
          if key.Err? {
            return key;
          }
          rs := Some(key.value);
          if |key.value| != DHLEN {
            return Err("decrypted s is wrong length");
          }
          r := Ok(message[len..]);
        case _ =>
          var mixed := MixDhToken(token);
          r := if mixed.Ok? then Ok(message) else Err(mixed.error);
      }
    }

    // The token loop of writeMessage.
    method PutTokens(tokens: seq<Token>, ephemeral: Bytes) returns (r: Result<Bytes>)
      requires Valid()
      modifies this, Inner()
      ensures Valid() && fresh(Inner() - old(Inner())) && (Value(), r) == WriteTokens(crypto, old(Value()), tokens, ephemeral)
    {
      hide WriteToken;
      var out: Bytes := [];
      ghost var whole := WriteTokens(crypto, Value(), tokens, ephemeral);
      assert tokens[0..] == tokens;
      ContinuesStart(whole);
      for k := 0 to |tokens|
        invariant Valid() && fresh(Inner() - old(Inner()))
        invariant Continues(whole, out, WriteTokens(crypto, Value(), tokens[k..], ephemeral))
      {
        assert tokens[k..][1..] == tokens[k + 1..];
        var piece := PutToken(tokens[k], ephemeral);
        if piece.Err? {
          return piece;
        }
        ContinuesMore(whole, out, piece.value, WriteTokens(crypto, Value(), tokens[k + 1..], ephemeral));
        out := out + piece.value;
      }
      assert tokens[|tokens|..] == [] && out + [] == out;
      r := Ok(out);
    }

    // The token loop of readMessageInPlace; the rest of the message is returned.
    method GetTokens(tokens: seq<Token>, message: Bytes) returns (r: Result<Bytes>)
      requires Valid()
      modifies this, Inner()
      ensures Valid() && fresh(Inner() - old(Inner())) && (Value(), r) == ReadTokens(crypto, old(Value()), tokens, message)
    {
      hide ReadToken;
      var left := message;
      assert tokens[0..] == tokens;
      for k := 0 to |tokens|
        invariant Valid() && fresh(Inner() - old(Inner()))
        invariant ReadTokens(crypto, Value(), tokens[k..], left) == ReadTokens(crypto, old(Value()), tokens, message)
      {
        assert tokens[k..][1..] == tokens[k + 1..];
        var rest := GetToken(tokens[k], left);
        if rest.Err? {
          return rest;
        }
        left := rest.value;
      }
      assert tokens[|tokens|..] == [];
      r := Ok(left);
    }

    // writeMessage
    method Write(payload: Bytes, ephemeral: Bytes) returns (r: Result<Bytes>)
      requires Valid()
      modifies this, Inner()
      ensures Valid() && (Value(), r) == WriteMessage(crypto, old(Value()), payload, ephemeral)
    {
      hide WriteTokens, Tokens;
      var tokens := Tokens(pattern, step);
      if tokens.None? {
        return Err("no tokens for step");
      }
      if !IsSender(role, step) {
        return Err("not our turn to write");
      }
      WritingKeepsStep(crypto, Value(), tokens.value, ephemeral);
      var out := PutTokens(tokens.value, ephemeral);
      if out.Err? {
        return out;
      }
      if payload != [] {
        var sealed := ss.EncryptThenHash(payload);
        if sealed.Err? {
          return sealed;
        }
        out := Ok(out.value + sealed.value);
      } else {
        assert out.value + [] == out.value;
      }
      step := step + 1;
      r := out;
    }

    method ReadInto(message: Bytes) returns (r: Result<Bytes>)
      requires Valid()
      modifies this, Inner()
      ensures Valid() && fresh(Inner() - old(Inner())) && (Value(), r) == ReadInPlace(crypto, old(Value()), message)
    {
      hide ReadTokens, Tokens;
      var tokens := Tokens(pattern, step);
      if tokens.None? {
        return Err("no tokens for step");
      }
      if IsSender(role, step) {
        return Err("not our turn to read");
      }
      ReadingKeepsStep(crypto, Value(), tokens.value, message);
      var rest := GetTokens(tokens.value, message);
      if rest.Err? {
        return rest;
      }
      var payload := Ok([]);
      if rest.value != [] {
        payload := ss.DecryptThenHash(rest.value);
        if payload.Err? {
          return payload;
        }
      }
      step := step + 1;
      r := payload;
    }

    // readMessage: the state a failure leaves behind is thrown away.
    method Read(message: Bytes) returns (r: Result<Bytes>)
      requires Valid()
      modifies this, Inner()
      ensures Valid() && (Value(), r) == ReadMessage(crypto, old(Value()), message)
      ensures r.Err? ==> Value() == old(Value())
    {
      hide ReadInPlace;
      FailedReadChangesNothing(crypto, Value(), message);
      var savedSs := ss.Clone();
      var savedRs, savedRe, savedStep := rs, re, step;
      r := ReadInto(message);
      if r.Err? {
        ss, rs, re, step := savedSs, savedRs, savedRe, savedStep;
      }
    }

    // splitTxRx
    method TransportKeys() returns (tx: Bytes, rx: Bytes)
      requires Valid()
      ensures (tx, rx) == SplitTxRx(crypto, Value())
    {
      var (k1, k2) := Hkdf(crypto, ss.ck, []);
      if role == Initiator {
        tx, rx := k1, k2;
      } else {
        tx, rx := k2, k1;
      }
    }
  }

  lemma {:induction false} WritingKeepsStep(c: Crypto, hs: Handshake, tokens: seq<Token>, ephemeral: Bytes)
    ensures WriteTokens(c, hs, tokens, ephemeral).0.step == hs.step
    decreases |tokens|
  {
    if tokens != [] {
      WritingKeepsStep(c, WriteToken(c, hs, tokens[0], ephemeral).0, tokens[1..], ephemeral);
    }
  }

  lemma {:induction false} ReadingKeepsStep(c: Crypto, hs: Handshake, tokens: seq<Token>, message: Bytes)
    ensures ReadTokens(c, hs, tokens, message).0.step == hs.step
    decreases |tokens|
  {
    if tokens != [] {
      var (next, rest) := ReadToken(c, hs, tokens[0], message);
      if rest.Ok? {
        ReadingKeepsStep(c, next, tokens[1..], rest.value);
      }
    }
  }

  // What is left to write, after `out`, ends as the whole does.
  ghost predicate Continues(whole: (Handshake, Result<Bytes>), out: Bytes, left: (Handshake, Result<Bytes>)) {
    whole.0 == left.0 && whole.1 == if left.1.Ok? then Ok(out + left.1.value) else left.1
  }

  lemma ContinuesStart(whole: (Handshake, Result<Bytes>))
    ensures Continues(whole, [], whole)
  {
    if whole.1.Ok? {
      assert [] + whole.1.value == whole.1.value;
    }
  }

  lemma ContinuesMore(whole: (Handshake, Result<Bytes>), out: Bytes, piece: Bytes, left: (Handshake, Result<Bytes>))
    requires Continues(whole, out, (left.0, if left.1.Ok? then Ok(piece + left.1.value) else left.1))
    ensures Continues(whole, out + piece, left)
  {
    if left.1.Ok? {
      assert out + (piece + left.1.value) == (out + piece) + left.1.value;
    }
  }
}
