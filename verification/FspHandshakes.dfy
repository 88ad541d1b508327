/**
 * One end of an FSP session: the XK handshake with exact-replay caching, and the explicit-counter
 * record channel it opens (packages/core/src/fsp/session.ts).
 *
 * Noise is ideal here: a message opens exactly for the party that reached the same transcript.
 */
module FspHandshakes {
  import opened Wrappers
  import opened ReplayWindows
  import FspWire

  // A static key and the node address derived from it.
  type NodeId = nat

  // ---- What the parties agree on, message by message ----

  datatype Transcript = Transcript(ephemeral: nat, responder: NodeId, responderEphemeral: nat, responderEpoch: nat)

  datatype Agreement = Agreement(transcript: Transcript, initiator: NodeId, initiatorEpoch: nat)

  datatype Key = Key(agreement: Agreement, fromInitiator: bool)

  datatype Keys = Keys(tx: Key, rx: Key)

  function Split(a: Agreement, role: Role): Keys {
    Keys(Key(a, role == Initiator), Key(a, role == Responder))
  }

  // ---- Frames; `intact` is false of bytes that do not decode or whose tag was not made for their contents ----

  datatype Setup = Setup(ephemeral: nat, direct: bool, coords: nat, intact: bool)

  datatype Ack = Ack(transcript: Transcript, direct: bool, coords: nat, intact: bool)

  datatype Msg3 = Msg3(agreement: Agreement, intact: bool)

  // sealedBy: the key whose holder made the tag, if anyone did.
  datatype Record = Record(
    sealedBy: Option<Key>, kBit: bool, direct: bool, counter: nat, size: nat, msgType: nat, body: nat, intact: bool, innerIntact: bool)

  // ---- The state of one end ----

  datatype Role = Initiator | Responder

  datatype Phase = Init | Handshaking | Established | Closed

  datatype Noise = Start | SentHello(ephemeral: nat) | Answered(transcript: Transcript)

  datatype Fsp = Fsp(
    self: NodeId, role: Role, localEpoch: nat, state: Phase, hs: Option<Noise>,
    remote: Option<NodeId>, remoteEpoch: Option<nat>, remoteDirect: bool,
    receivedSetup: Option<Setup>, sentAck: Option<Ack>, receivedAck: Option<Ack>, sentMsg3: Option<Msg3>,
    establishedMsg3: Option<Msg3>, keys: Option<Keys>, txCounter: nat, seen: Seen)

  function NewFsp(self: NodeId, role: Role, remote: Option<NodeId>, localEpoch: nat): Fsp {
    Fsp(self, role, localEpoch, Init, Some(Start), remote, None, false, None, None, None, None, None, None, 0, NOTHING_SEEN)
  }

  function BuildSetup(f: Fsp, ephemeral: nat, coords: nat): (Fsp, Result<Setup>) {
    if f.role != Initiator || f.remote.None? || f.hs.None? then (f, Err("cannot build SessionSetup"))
    else
      var g := f.(state := Handshaking);
      if f.hs.value != Start then (g, Err("out of turn"))
      else (g.(hs := Some(SentHello(ephemeral))), Ok(Setup(ephemeral, true, coords, true)))
  }

  function HandleSetup(f: Fsp, setup: Setup, ephemeral: nat, coords: nat): (Fsp, Result<Ack>) {
    if f.role != Responder then (f, Err("only responder handles SessionSetup"))
    else if f.receivedSetup.Some? then
      if f.receivedSetup.value == setup && f.sentAck.Some? then (f, Ok(f.sentAck.value))
      else (f, Err("unexpected SessionSetup"))
    else if f.hs != Some(Start) || !setup.intact then (f, Err("handshake failed"))
    else
      var transcript := Transcript(setup.ephemeral, f.self, ephemeral, f.localEpoch);
      var ack := Ack(transcript, true, coords, true);
      (f.(state := Handshaking, hs := Some(Answered(transcript)), remoteDirect := setup.direct,
          receivedSetup := Some(setup), sentAck := Some(ack)), Ok(ack))
  }

  // The Ack that continues this initiator's SessionSetup.
  predicate OpensAck(f: Fsp, ack: Ack) {
    ack.intact && f.hs == Some(SentHello(ack.transcript.ephemeral)) && f.remote == Some(ack.transcript.responder)
  }

  function Finalized(f: Fsp, a: Agreement, remoteEpoch: nat): Fsp {
    f.(keys := Some(Split(a, f.role)), remoteEpoch := Some(remoteEpoch), state := Established, hs := None)
  }

  function HandleAck(f: Fsp, ack: Ack): (Fsp, Result<Msg3>) {
    if f.role != Initiator then (f, Err("only initiator handles SessionAck"))
    else if f.receivedAck.Some? then
      if f.receivedAck.value == ack && f.sentMsg3.Some? then (f, Ok(f.sentMsg3.value))
      else (f, Err("unexpected SessionAck"))
    else if !OpensAck(f, ack) then (f, Err("handshake failed"))
    else
      var a := Agreement(ack.transcript, f.self, f.localEpoch);
      (Finalized(f, a, ack.transcript.responderEpoch).(
         remoteDirect := ack.direct, receivedAck := Some(ack), sentMsg3 := Some(Msg3(a, true))), Ok(Msg3(a, true)))
  }

  // The Msg3 that continues this responder's SessionAck.
  predicate OpensMsg3(f: Fsp, m: Msg3) {
    m.intact && f.hs == Some(Answered(m.agreement.transcript))
  }

  function HandleMsg3(f: Fsp, m: Msg3): (Fsp, Result<()>) {
    if f.role != Responder then (f, Err("only responder handles SessionMsg3"))
    else if f.state == Established then
      if f.establishedMsg3 == Some(m) then (f, Ok(())) else (f, Err("unexpected Msg3"))
    else if !OpensMsg3(f, m) then (f, Err("handshake failed"))
    else
      (Finalized(f, m.agreement, m.agreement.initiatorEpoch).(
         remote := Some(m.agreement.initiator), establishedMsg3 := Some(m)), Ok(()))
  }

  const FSP_INNER_HEADER_LEN: nat := 6
  const FSP_RECORD_OVERHEAD: nat := 34
  const MAX_INNER_LEN: nat := 0xffff

  // The flags a sender may ask for.
  predicate AllowedFlags(flags: int) {
    || flags == 0 || flags == FspWire.FSP_FLAG_K || flags == FspWire.FSP_FLAG_DIRECT_TRANSPORT
    || flags == FspWire.FSP_FLAG_K + FspWire.FSP_FLAG_DIRECT_TRANSPORT
  }

  // The counter is used up even if the message then cannot be encoded.
  function EncryptRecord(f: Fsp, msgType: int, flags: int, length: nat, body: nat): (Fsp, Result<Record>) {
    if f.state != Established || f.keys.None? then (f, Err("FSP not established"))
    else if !(0 <= msgType <= 0xff) then (f, Err("FSP message type must be one byte"))
    else if f.txCounter >= COUNTER_LIMIT then (f, Err("FSP nonce exhausted"))
    else
      var g := f.(txCounter := f.txCounter + 1);
      if !AllowedFlags(flags) then (g, Err("unsupported FSP established flags"))
      else if length + FSP_INNER_HEADER_LEN > MAX_INNER_LEN then (g, Err("payload too long"))
      else
        (g, Ok(Record(Some(f.keys.value.tx), FspWire.HasFlag(flags, FspWire.FSP_FLAG_K),
                      FspWire.HasFlag(flags, FspWire.FSP_FLAG_DIRECT_TRANSPORT), f.txCounter,
                      length + FSP_RECORD_OVERHEAD, msgType, body, true, true)))
  }

  predicate OpensRecord(f: Fsp, r: Record) {
    f.keys.Some? && r.sealedBy == Some(f.keys.value.rx)
  }

  // A record that opens is accepted by the window even if its inner message then does not decode.
  function DecryptRecord(f: Fsp, r: Record): (Fsp, Result<nat>) {
    if f.state != Established || f.keys.None? then (f, Err("FSP not established"))
    else if !r.intact then (f, Err("not an FSP Established record"))
    else if !Fresh(f.seen, r.counter) then (f, Err("FSP replay/duplicate counter"))
    else if !OpensRecord(f, r) then (f, Err("invalid tag"))
    else (f.(seen := ReplayWindows.Record(f.seen, r.counter)), if r.innerIntact then Ok(r.body) else Err("bad inner message"))
  }

  function ClosedFsp(f: Fsp): Fsp {
    f.(state := Closed, hs := None, keys := None)
  }

  // ---- What every step keeps ----

  // The handshake and the cached packets are those of the stage reached.
  predicate ValidFsp(f: Fsp) {
    && (f.receivedSetup.Some? <==> f.sentAck.Some?) && (f.receivedSetup.Some? ==> f.role == Responder)
    && (f.receivedAck.Some? <==> f.sentMsg3.Some?)
    && match f.state
       case Init => f.hs == Some(Start) && f.sentAck.None? && f.sentMsg3.None? && f.establishedMsg3.None? && f.keys.None?
       case Handshaking => f.establishedMsg3.None? && f.sentMsg3.None? && f.keys.None? && HandshakeUnderway(f)
       case Established => f.hs.None? && KeysAgreed(f)
       case Closed => f.hs.None? && f.keys.None?
  }

  predicate HandshakeUnderway(f: Fsp) {
    match f.role
    case Initiator => f.remote.Some? && f.hs.Some? && f.hs.value.SentHello? && f.sentAck.None?
    case Responder => f.sentAck.Some? && f.hs == Some(Answered(f.sentAck.value.transcript))
  }

  predicate KeysAgreed(f: Fsp) {
    match f.role
    case Initiator =>
      && f.sentAck.None? && f.receivedAck.Some? && f.sentMsg3.Some? && f.sentMsg3.value.agreement.transcript == f.receivedAck.value.transcript
      && f.keys == Some(Split(f.sentMsg3.value.agreement, Initiator))
      && f.remote == Some(f.receivedAck.value.transcript.responder)
      && f.remoteEpoch == Some(f.receivedAck.value.transcript.responderEpoch)
    case Responder =>
      && f.establishedMsg3.Some? && f.sentAck.Some?
      && f.establishedMsg3.value.agreement.transcript == f.sentAck.value.transcript
      && f.keys == Some(Split(f.establishedMsg3.value.agreement, Responder))
      && f.remote == Some(f.establishedMsg3.value.agreement.initiator)
      && f.remoteEpoch == Some(f.establishedMsg3.value.agreement.initiatorEpoch)
  }

  lemma ResponderStepsKeepValid(f: Fsp, setup: Setup, m: Msg3, ephemeral: nat, coords: nat)
    requires ValidFsp(f)
    ensures ValidFsp(HandleSetup(f, setup, ephemeral, coords).0) && ValidFsp(HandleMsg3(f, m).0)
  {
  }

  lemma InitiatorStepsKeepValid(f: Fsp, ack: Ack, ephemeral: nat, coords: nat)
    requires ValidFsp(f)
    ensures ValidFsp(HandleAck(f, ack).0)
    ensures ValidFsp(BuildSetup(f, ephemeral, coords).0)
  {
  }

  lemma EncryptMovesCounter(f: Fsp, msgType: int, flags: int, length: nat, body: nat)
    ensures var (g, r) := EncryptRecord(f, msgType, flags, length, body);
      && g == f.(txCounter := g.txCounter)
      && (r.Ok? ==>
        && f.state == Established && f.keys.Some? && r.value.sealedBy == Some(f.keys.value.tx) && r.value.body == body
        && r.value.counter == f.txCounter < COUNTER_LIMIT && g.txCounter == f.txCounter + 1
        && AllowedFlags(flags) && r.value.kBit == FspWire.HasFlag(flags, FspWire.FSP_FLAG_K)
        && r.value.intact && r.value.innerIntact)
  {
    hide FspWire.HasFlag;
  }

  lemma CounterKeepsValid(f: Fsp, counter: nat)
    requires ValidFsp(f)
    ensures ValidFsp(f.(txCounter := counter))
  {
  }

  // A packet that was once answered is answered the same way again, and neither it nor any other packet of its kind
  // changes anything after that.
  lemma ReplayIsIdempotent(f: Fsp, setup: Setup, ack: Ack, m: Msg3, e0: nat, c0: nat, e1: nat, c1: nat)
    requires ValidFsp(f)
    ensures var (g, r) := HandleSetup(f, setup, e0, c0); r.Ok? ==>
      && HandleSetup(g, setup, e1, c1) == (g, r)
      && forall other {:trigger HandleSetup(g, other, e1, c1)} :: other != setup ==>
        HandleSetup(g, other, e1, c1).0 == g && HandleSetup(g, other, e1, c1).1.Err?
    ensures var (g, r) := HandleAck(f, ack); r.Ok? ==>
      && HandleAck(g, ack) == (g, r)
      && forall other {:trigger HandleAck(g, other)} :: other != ack ==> HandleAck(g, other).0 == g && HandleAck(g, other).1.Err?
    ensures var (g, r) := HandleMsg3(f, m); r.Ok? ==>
      && HandleMsg3(g, m) == (g, r)
      && forall other {:trigger HandleMsg3(g, other)} :: other != m ==> HandleMsg3(g, other).0 == g && HandleMsg3(g, other).1.Err?
  {
  }

  // The two ends of one handshake end with crossed keys and each other's epoch.
  lemma HandshakeCrossesKeys(a: NodeId, b: NodeId, aEpoch: nat, bEpoch: nat, e: nat, re: nat, c0: nat, c1: nat)
    ensures var (i1, setup) := BuildSetup(NewFsp(a, Initiator, Some(b), aEpoch), e, c0);
      && setup.Ok?
      && var (r1, ack) := HandleSetup(NewFsp(b, Responder, None, bEpoch), setup.value, re, c1);
      && ack.Ok?
      && var (i2, m) := HandleAck(i1, ack.value);
      && m.Ok?
      && var (r2, done) := HandleMsg3(r1, m.value);
      && done.Ok? && i2.state == r2.state == Established
      && i2.keys.value.tx == r2.keys.value.rx && i2.keys.value.rx == r2.keys.value.tx && i2.keys.value.tx != i2.keys.value.rx
      && r2.remote == Some(a) && i2.remoteEpoch == Some(bEpoch) && r2.remoteEpoch == Some(aEpoch)
      && i2.remoteDirect && r2.remoteDirect
  {
  }

  // ---- FspSession ----

  class FspSession {
    const identity: NodeId
    const role: Role
    const localEpoch: nat
    var state: Phase
    var hs: Option<Noise>
    var remotePubkey: Option<NodeId>
    var remoteEpoch: Option<nat>
    var remoteDirectFspTransport: bool
    var receivedSessionSetup: Option<Setup>
    var sentSessionAck: Option<Ack>
    var receivedSessionAck: Option<Ack>
    var sentSessionMsg3: Option<Msg3>
    var establishedMsg3: Option<Msg3>
    var keys: Option<Keys>
    var txCounter: nat
    const replay: ReplayWindow

    // The session as a value.
    ghost function Value(): Fsp
      reads this, replay
    {
      Fsp(identity, role, localEpoch, state, hs, remotePubkey, remoteEpoch, remoteDirectFspTransport,
          receivedSessionSetup, sentSessionAck, receivedSessionAck, sentSessionMsg3, establishedMsg3, keys, txCounter,
          replay.history)
    }

    ghost predicate Valid()
      reads this, replay, replay.seen
    {
      replay.Valid() && ValidFsp(Value())
    }

    constructor (self: NodeId, asRole: Role, remote: Option<NodeId>, epoch: nat)
      ensures Valid() && fresh(replay) && fresh(replay.seen) && Value() == NewFsp(self, asRole, remote, epoch)
    {
      identity, role, localEpoch, remotePubkey := self, asRole, epoch, remote;
      state, hs, remoteEpoch, remoteDirectFspTransport := Init, Some(Start), None, false;
      receivedSessionSetup, sentSessionAck, receivedSessionAck, sentSessionMsg3 := None, None, None, None;
      establishedMsg3, keys, txCounter := None, None, 0;
      replay := new ReplayWindow();
    }

    method BuildSessionSetup(ephemeral: nat, coords: nat) returns (r: Result<Setup>)
      requires Valid()
      modifies this
      ensures Valid() && (Value(), r) == BuildSetup(old(Value()), ephemeral, coords)
    {
      InitiatorStepsKeepValid(Value(), Ack(Transcript(0, 0, 0, 0), false, 0, false), ephemeral, coords);
      if role != Initiator || remotePubkey.None? || hs.None? {
        return Err("cannot build SessionSetup");
      }
      state := Handshaking;
      if hs.value != Start {
        return Err("out of turn");
      }
      hs := Some(SentHello(ephemeral));
      r := Ok(Setup(ephemeral, true, coords, true));
    }

    method HandleSessionSetup(setup: Setup, ephemeral: nat, coords: nat) returns (r: Result<Ack>)
      requires Valid()
      modifies this
      ensures Valid() && (Value(), r) == HandleSetup(old(Value()), setup, ephemeral, coords)
    {
      ResponderStepsKeepValid(Value(), setup, Msg3(Agreement(Transcript(0, 0, 0, 0), 0, 0), false), ephemeral, coords);
      if role != Responder {
        return Err("only responder handles SessionSetup");
      }
      if receivedSessionSetup.Some? {
        if receivedSessionSetup.value == setup && sentSessionAck.Some? {
          return Ok(sentSessionAck.value);
        }
        return Err("unexpected SessionSetup");
      }
      if hs != Some(Start) || !setup.intact {
        return Err("handshake failed");
      }
      remoteDirectFspTransport := setup.direct;
      var transcript := Transcript(setup.ephemeral, identity, ephemeral, localEpoch);
      hs := Some(Answered(transcript));
      var reply := Ack(transcript, true, coords, true);
      state := Handshaking;
      receivedSessionSetup := Some(setup);
      sentSessionAck := Some(reply);
      r := Ok(reply);
    }

    method HandleSessionAck(ack: Ack) returns (r: Result<Msg3>)
      requires Valid()
      modifies this
      ensures Valid() && (Value(), r) == HandleAck(old(Value()), ack)
    {
      InitiatorStepsKeepValid(Value(), ack, 0, 0);
      hide ValidFsp;
      if role != Initiator {
        return Err("only initiator handles SessionAck");
      }
      if receivedSessionAck.Some? {
        if receivedSessionAck.value == ack && sentSessionMsg3.Some? {
          return Ok(sentSessionMsg3.value);
        }
        return Err("unexpected SessionAck");
      }
      if !(ack.intact && hs == Some(SentHello(ack.transcript.ephemeral)) && remotePubkey == Some(ack.transcript.responder)) {
        return Err("handshake failed");
      }
      remoteDirectFspTransport := ack.direct;
      remoteEpoch := Some(ack.transcript.responderEpoch);
      var reply := Msg3(Agreement(ack.transcript, identity, localEpoch), true);
      receivedSessionAck := Some(ack);
      sentSessionMsg3 := Some(reply);
      Finalize(reply.agreement);
      r := Ok(reply);
    }

    method HandleSessionMsg3(m: Msg3) returns (r: Result<()>)
      requires Valid()
      modifies this
      ensures Valid() && (Value(), r) == HandleMsg3(old(Value()), m)
    {
      ResponderStepsKeepValid(Value(), Setup(0, false, 0, false), m, 0, 0);
      hide ValidFsp;
      if role != Responder {
        return Err("only responder handles SessionMsg3");
      }
      if state == Established {
        if establishedMsg3 == Some(m) {
          return Ok(());
        }
        return Err("unexpected Msg3");
      }
      if !(m.intact && hs == Some(Answered(m.agreement.transcript))) {
        return Err("handshake failed");
      }
      remoteEpoch := Some(m.agreement.initiatorEpoch);
      remotePubkey := Some(m.agreement.initiator);
      establishedMsg3 := Some(m);
      Finalize(m.agreement);
      r := Ok(());
    }

    method Finalize(a: Agreement)
      modifies this`keys, this`state, this`hs
      ensures keys == Some(Split(a, role)) && state == Established && hs.None?
    {
      keys := Some(Split(a, role));
      state := Established;
      hs := None;
    }

    method EncryptMessage(msgType: int, flags: int, length: nat, body: nat) returns (r: Result<Record>)
      requires Valid()
      modifies this
      ensures Valid() && (Value(), r) == EncryptRecord(old(Value()), msgType, flags, length, body)
    {
      if state != Established || keys.None? {
        return Err("FSP not established");
      }
      if !(0 <= msgType <= 0xff) {
        return Err("FSP message type must be one byte");
      }
      if txCounter >= COUNTER_LIMIT {
        return Err("FSP nonce exhausted");
      }
      var counter := txCounter;
      txCounter := txCounter + 1;
      if !AllowedFlags(flags) {
        return Err("unsupported FSP established flags");
      }
      if length + FSP_INNER_HEADER_LEN > MAX_INNER_LEN {
        return Err("payload too long");
      }
      r := Ok(Record(Some(keys.value.tx), FspWire.HasFlag(flags, FspWire.FSP_FLAG_K),
                     FspWire.HasFlag(flags, FspWire.FSP_FLAG_DIRECT_TRANSPORT), counter, length + FSP_RECORD_OVERHEAD, msgType,
                     body, true, true));
    }

    method DecryptIncoming(record: Record) returns (r: Result<nat>)
      requires Valid()
      modifies replay, replay.seen
      ensures Valid() && (Value(), r) == DecryptRecord(old(Value()), record)
    {
      if state != Established || keys.None? {
        return Err("FSP not established");
      }
      if !record.intact {
        return Err("not an FSP Established record");
      }
      if !replay.Check(record.counter) {
        return Err("FSP replay/duplicate counter");
      }
      if record.sealedBy != Some(keys.value.rx) {
        return Err("invalid tag");
      }
      var _ := replay.Accept(record.counter);
      r := if record.innerIntact then Ok(record.body) else Err("bad inner message");
    }

    method Close()
      requires Valid()
      modifies this
      ensures Valid() && Value() == ClosedFsp(old(Value()))
      ensures state == Closed && hs.None? && keys.None?
    {
      state := Closed;
      hs := None;
      keys := None;
    }
  }
}
