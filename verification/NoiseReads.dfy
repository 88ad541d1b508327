/**
 * Which handshake messages a party accepts, and what it takes from them, written out message by message
 * (packages/core/src/noise/handshake.ts, readMessage, readMessageInPlace and mixDh).
 */
module NoiseReads {
  import opened Wrappers
  import opened BinaryCodec
  import opened NoiseStates
  import opened NoiseHandshakes
  import opened NoiseSecrets

  // ---- The steps of reading ----

  // A text that was sealed under the key, if there is one; what came enters the hash.
  function Unsealed(c: Crypto, ss: Symmetric, text: Bytes): Option<(Symmetric, Bytes)> {
    if ss.cipher.key.None? then Some((Symmetric(Hash(c, ss.h + text), ss.ck, ss.cipher), text))
    else if ss.cipher.n >= 0xffff_ffff_ffff_ffff then None
    else
      match Open(c, ss.cipher.key.value, ss.cipher.n, [], text)
      case None => None
      case Some(plain) => Some((Symmetric(Hash(c, ss.h + text), ss.ck, Cipher(ss.cipher.key, ss.cipher.n + 1)), plain))
  }

  // The secret of a private and a public key, if they have one of 32 bytes.
  function Agreeing(c: Crypto, ss: Symmetric, priv: Bytes, pub: Bytes): Option<Symmetric> {
    match Dh(c, priv, pub)
    case None => None
    case Some(shared) => if |shared| == 32 then Some(Secret(c, ss, shared)) else None
  }

  // The rest of a message, which may be empty.
  function Rest(c: Crypto, ss: Symmetric, text: Bytes): Option<(Symmetric, Bytes)> {
    if text == [] then Some((ss, [])) else Unsealed(c, ss, text)
  }

  // What a party has after a message: its symmetric state, the remote keys it has learnt, and the payload.
  datatype Read = Read(ss: Symmetric, re: Option<Bytes>, rs: Option<Bytes>, payload: Bytes)

  // IK, first message, by the responder with static key s.
  function IkFirstRead(c: Crypto, ss: Symmetric, s: Bytes, m: Bytes): Option<Read> {
    if |m| < 33 then None
    else
      var a :- Agreeing(c, Public(c, ss, m[..33]), s, m[..33]);
      if |m| < 82 then None
      else
        var b :- Unsealed(c, a, m[33..82]);
        if |b.1| != 33 then None
        else
          var d :- Agreeing(c, b.0, s, b.1);
          var payload :- Rest(c, d, m[82..]);
          Some(Read(payload.0, Some(m[..33]), Some(b.1), payload.1))
  }

  // IK, second message, by the initiator with ephemeral key e.
  function IkSecondRead(c: Crypto, ss: Symmetric, e: Bytes, rs: Bytes, m: Bytes): Option<Read> {
    if |m| < 33 then None
    else
      var a :- Agreeing(c, Public(c, ss, m[..33]), e, m[..33]);
      var b :- Agreeing(c, a, e, rs);
      var payload :- Rest(c, b, m[33..]);
      Some(Read(payload.0, Some(m[..33]), Some(rs), payload.1))
  }

  // XK, first and second message: an ephemeral key and one secret of it with an own key.
  function XkEphemeralRead(c: Crypto, ss: Symmetric, own: Bytes, rs: Option<Bytes>, m: Bytes): Option<Read> {
    if |m| < 33 then None
    else
      var a :- Agreeing(c, Public(c, ss, m[..33]), own, m[..33]);
      var payload :- Rest(c, a, m[33..]);
      Some(Read(payload.0, Some(m[..33]), rs, payload.1))
  }

  // XK, third message, by the responder with ephemeral key e.
  function XkThirdRead(c: Crypto, ss: Symmetric, e: Bytes, re: Option<Bytes>, m: Bytes): Option<Read> {
    if |m| < 49 then None
    else
      var b :- Unsealed(c, ss, m[..49]);
      if |b.1| != 33 then None
      else
        var d :- Agreeing(c, b.0, e, b.1);
        var payload :- Rest(c, d, m[49..]);
        Some(Read(payload.0, re, Some(b.1), payload.1))
  }

  // A message read as told, or refused without a trace.
  predicate IsRead(hs: Handshake, read: Option<Read>, outcome: (Handshake, Result<Bytes>)) {
    match read
    case None => outcome.0 == hs && outcome.1.Err?
    case Some(r) => outcome == (hs.(ss := r.ss, re := r.re, rs := r.rs, step := hs.step + 1), Ok(r.payload))
  }

  // ---- One token, then the next ----

  lemma ReadMore(c: Crypto, hs: Handshake, token: Token, rest: seq<Token>, m: Bytes)
    ensures var (next, left) := ReadToken(c, hs, token, m);
      ReadTokens(c, hs, [token] + rest, m) == if left.Err? then (next, left) else ReadTokens(c, next, rest, left.value)
    ensures ReadTokens(c, hs, [], m) == (hs, Ok(m))
  {
    hide ReadToken;
    assert ([token] + rest)[1..] == rest;
  }

  lemma ReadOne(c: Crypto, hs: Handshake, token: Token, m: Bytes)
    ensures ReadTokens(c, hs, [token], m) == ReadToken(c, hs, token, m)
  {
    hide ReadToken, ReadTokens;
    ReadMore(c, hs, token, [], m);
    assert [token] + [] == [token];
    var (next, left) := ReadToken(c, hs, token, m);
    if left.Ok? {
      ReadMore(c, next, token, [], left.value);
    }
  }

  lemma ReadTwo(c: Crypto, hs: Handshake, a: Token, b: Token, m: Bytes)
    ensures var (next, left) := ReadToken(c, hs, a, m);
      ReadTokens(c, hs, [a, b], m) == if left.Err? then (next, left) else ReadToken(c, next, b, left.value)
  {
    hide ReadToken, ReadTokens;
    ReadMore(c, hs, a, [b], m);
    assert [a] + [b] == [a, b];
    var (next, left) := ReadToken(c, hs, a, m);
    if left.Ok? {
      ReadOne(c, next, b, left.value);
    }
  }

  lemma ReadThree(c: Crypto, hs: Handshake, a: Token, b: Token, d: Token, m: Bytes)
    ensures var (next, left) := ReadToken(c, hs, a, m);
      ReadTokens(c, hs, [a, b, d], m) == if left.Err? then (next, left) else ReadTokens(c, next, [b, d], left.value)
  {
    hide ReadToken, ReadTokens;
    ReadMore(c, hs, a, [b, d], m);
    assert [a] + [b, d] == [a, b, d];
  }

  lemma ReadFour(c: Crypto, hs: Handshake, a: Token, b: Token, d: Token, f: Token, m: Bytes)
    ensures var (next, left) := ReadToken(c, hs, a, m);
      ReadTokens(c, hs, [a, b, d, f], m) == if left.Err? then (next, left) else ReadTokens(c, next, [b, d, f], left.value)
  {
    hide ReadToken, ReadTokens;
    ReadMore(c, hs, a, [b, d, f], m);
    assert [a] + [b, d, f] == [a, b, d, f];
  }

  lemma DhTokenRead(c: Crypto, hs: Handshake, token: Token, priv: Bytes, pub: Bytes, m: Bytes)
    requires !token.E? && !token.S? && Operands(hs, token) == (Some(priv), Some(pub))
    ensures var next := Agreeing(c, hs.ss, priv, pub);
      var (after, left) := ReadToken(c, hs, token, m);
      if next.None? then after == hs && left.Err? else after == hs.(ss := next.value) && left == Ok(m)
  {
  }

  lemma EphemeralRead(c: Crypto, hs: Handshake, m: Bytes)
    ensures var (after, left) := ReadToken(c, hs, E, m);
      if |m| < 33 then after == hs && left.Err?
      else after == hs.(re := Some(m[..33]), ss := Public(c, hs.ss, m[..33])) && left == Ok(m[33..])
  {
  }

  lemma StaticRead(c: Crypto, hs: Handshake, m: Bytes)
    requires hs.ss.cipher.key.Some?
    ensures var (after, left) := ReadToken(c, hs, S, m);
      if |m| < 49 || Unsealed(c, hs.ss, m[..49]).None? || |Unsealed(c, hs.ss, m[..49]).value.1| != 33 then left.Err?
      else
        var u := Unsealed(c, hs.ss, m[..49]).value;
        after == hs.(rs := Some(u.1), ss := u.0) && left == Ok(m[49..])
  {
  }

  lemma PayloadRead(c: Crypto, hs: Handshake, text: Bytes)
    ensures var r := Rest(c, hs.ss, text);
      if r.None? then ReadPayload(c, hs, text).1.Err?
      else ReadPayload(c, hs, text) == (hs.(ss := r.value.0), Ok(r.value.1))
  {
  }

  // ---- The five messages ----

  lemma IkFirstReadIs(c: Crypto, hs: Handshake, m: Bytes)
    requires hs.pattern == IK && hs.role == Responder && hs.step == 0
    ensures IsRead(hs, IkFirstRead(c, hs.ss, hs.s, m), ReadMessage(c, hs, m))
  {
    FailedReadChangesNothing(c, hs, m);
    ReadFour(c, hs, E, ES, S, SS, m);
    EphemeralRead(c, hs, m);
    if |m| >= 33 {
      var h1 := hs.(re := Some(m[..33]), ss := Public(c, hs.ss, m[..33]));
      ReadThree(c, h1, ES, S, SS, m[33..]);
      DhTokenRead(c, h1, ES, hs.s, m[..33], m[33..]);
      var a := Agreeing(c, h1.ss, hs.s, m[..33]);
      if a.Some? {
        var h2 := h1.(ss := a.value);
        ReadTwo(c, h2, S, SS, m[33..]);
        StaticRead(c, h2, m[33..]);
        if |m| >= 82 {
          assert m[33..][..49] == m[33..82] && m[33..][49..] == m[82..];
          var b := Unsealed(c, h2.ss, m[33..82]);
          if b.Some? && |b.value.1| == 33 {
            var h3 := h2.(rs := Some(b.value.1), ss := b.value.0);
            DhTokenRead(c, h3, SS, hs.s, b.value.1, m[82..]);
            var d := Agreeing(c, h3.ss, hs.s, b.value.1);
            if d.Some? {
              PayloadRead(c, h3.(ss := d.value), m[82..]);
            }
          }
        }
      }
    }
    hide ReadToken, ReadTokens, ReadPayload, Rest, Unsealed, Agreeing, Public;
  }

  lemma IkSecondReadIs(c: Crypto, hs: Handshake, m: Bytes)
    requires hs.pattern == IK && hs.role == Initiator && hs.step == 1 && hs.e.Some? && hs.rs.Some?
    ensures IsRead(hs, IkSecondRead(c, hs.ss, hs.e.value, hs.rs.value, m), ReadMessage(c, hs, m))
  {
    FailedReadChangesNothing(c, hs, m);
    ReadThree(c, hs, E, EE, SE, m);
    EphemeralRead(c, hs, m);
    if |m| >= 33 {
      var h1 := hs.(re := Some(m[..33]), ss := Public(c, hs.ss, m[..33]));
      ReadTwo(c, h1, EE, SE, m[33..]);
      DhTokenRead(c, h1, EE, hs.e.value, m[..33], m[33..]);
      var a := Agreeing(c, h1.ss, hs.e.value, m[..33]);
      if a.Some? {
        var h2 := h1.(ss := a.value);
        DhTokenRead(c, h2, SE, hs.e.value, hs.rs.value, m[33..]);
        var b := Agreeing(c, h2.ss, hs.e.value, hs.rs.value);
        if b.Some? {
          PayloadRead(c, h2.(ss := b.value), m[33..]);
        }
      }
    }
    hide ReadToken, ReadTokens, ReadPayload, Rest, Agreeing, Public;
  }

  lemma XkFirstReadIs(c: Crypto, hs: Handshake, m: Bytes)
    requires hs.pattern == XK && hs.role == Responder && hs.step == 0
    ensures IsRead(hs, XkEphemeralRead(c, hs.ss, hs.s, hs.rs, m), ReadMessage(c, hs, m))
  {
    FailedReadChangesNothing(c, hs, m);
    ReadTwo(c, hs, E, ES, m);
    EphemeralRead(c, hs, m);
    if |m| >= 33 {
      var h1 := hs.(re := Some(m[..33]), ss := Public(c, hs.ss, m[..33]));
      DhTokenRead(c, h1, ES, hs.s, m[..33], m[33..]);
      var a := Agreeing(c, h1.ss, hs.s, m[..33]);
      if a.Some? {
        PayloadRead(c, h1.(ss := a.value), m[33..]);
      }
    }
    hide ReadToken, ReadTokens, ReadPayload, Rest, Agreeing, Public;
  }

  lemma XkSecondReadIs(c: Crypto, hs: Handshake, m: Bytes)
    requires hs.pattern == XK && hs.role == Initiator && hs.step == 1 && hs.e.Some?
    ensures IsRead(hs, XkEphemeralRead(c, hs.ss, hs.e.value, hs.rs, m), ReadMessage(c, hs, m))
  {
    FailedReadChangesNothing(c, hs, m);
    ReadTwo(c, hs, E, EE, m);
    EphemeralRead(c, hs, m);
    if |m| >= 33 {
      var h1 := hs.(re := Some(m[..33]), ss := Public(c, hs.ss, m[..33]));
      DhTokenRead(c, h1, EE, hs.e.value, m[..33], m[33..]);
      var a := Agreeing(c, h1.ss, hs.e.value, m[..33]);
      if a.Some? {
        PayloadRead(c, h1.(ss := a.value), m[33..]);
      }
    }
    hide ReadToken, ReadTokens, ReadPayload, Rest, Agreeing, Public;
  }

  lemma XkThirdReadIs(c: Crypto, hs: Handshake, m: Bytes)
    requires hs.pattern == XK && hs.role == Responder && hs.step == 2 && hs.e.Some? && hs.ss.cipher.key.Some?
    ensures IsRead(hs, XkThirdRead(c, hs.ss, hs.e.value, hs.re, m), ReadMessage(c, hs, m))
  {
    FailedReadChangesNothing(c, hs, m);
    ReadTwo(c, hs, S, SE, m);
    StaticRead(c, hs, m);
    if |m| >= 49 {
      var b := Unsealed(c, hs.ss, m[..49]);
      if b.Some? && |b.value.1| == 33 {
        var h1 := hs.(rs := Some(b.value.1), ss := b.value.0);
        DhTokenRead(c, h1, SE, hs.e.value, b.value.1, m[49..]);
        var d := Agreeing(c, h1.ss, hs.e.value, b.value.1);
        if d.Some? {
          PayloadRead(c, h1.(ss := d.value), m[49..]);
        }
      }
    }
    hide ReadToken, ReadTokens, ReadPayload, Rest, Unsealed, Agreeing;
  }

  // A cipher without a key passes texts through; with one it takes 2^64 - 1 nonces, one for each text it seals or opens under
  // the associated data given.
  lemma CipherOutcome(c: Crypto, s: Cipher, ad: Bytes, text: Bytes)
    ensures var (next, sealed) := Encrypt(c, s, ad, text);
      if s.key.None? then next == s && sealed == Ok(text)
      else if s.n >= 0xffff_ffff_ffff_ffff then next == s && sealed.Err?
      else next == Cipher(s.key, s.n + 1) && sealed == Ok(Seal(c, s.key.value, s.n, ad, text))
    ensures var (next, unsealed) := Decrypt(c, s, ad, text);
      if s.key.None? then next == s && unsealed == Ok(text)
      else if s.n >= 0xffff_ffff_ffff_ffff || Open(c, s.key.value, s.n, ad, text).None? then next == s && unsealed.Err?
      else next == Cipher(s.key, s.n + 1) && unsealed == Ok(Open(c, s.key.value, s.n, ad, text).value)
  {
  }

  // The initiator writes the messages at even steps and reads those at odd ones; IK has two, XK three. Out of turn nothing
  // is written, read or changed.
  lemma OutOfTurn(c: Crypto, hs: Handshake, payload: Bytes, ephemeral: Bytes, m: Bytes)
    ensures var left := hs.step < if hs.pattern == IK then 2 else 3;
      var writes := if hs.role == Initiator then hs.step % 2 == 0 else hs.step % 2 == 1;
      && (!(left && writes) ==> WriteMessage(c, hs, payload, ephemeral).0 == hs && WriteMessage(c, hs, payload, ephemeral).1.Err?)
      && (!(left && !writes) ==> ReadMessage(c, hs, m).0 == hs && ReadMessage(c, hs, m).1.Err?)
  {
    FailedReadChangesNothing(c, hs, m);
  }
}
