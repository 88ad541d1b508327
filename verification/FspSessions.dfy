/**
 * The FSP session manager: crossed setups, rekeying through a pending session with a draining one behind it, restart
 * replacement and the queue of early records (packages/core/src/node/FspSessionManager.ts).
 */
module FspSessions {
  import opened Wrappers
  import opened FspHandshakes
  import FspWire

  const FSP_REKEY_DRAIN_MS: nat := 45_000
  const MAX_EARLY_RECORDS: nat := 16
  const MAX_EARLY_BYTES: nat := 64 * 1024

  datatype Previous = Previous(fsp: Fsp, kBit: bool, expiresAt: int)

  datatype Session = Session(
    remotePubkey: Option<NodeId>, fsp: Fsp, kBit: bool, pending: Option<Fsp>, previous: Option<Previous>,
    early: seq<Record>, earlyBytes: nat)

  datatype Frame =
    SetupFrame(setup: Setup) | AckFrame(ack: Ack) | Msg3Frame(msg3: Msg3) | RecordFrame(record: Record) | UnknownFrame

  datatype Local = Local(self: NodeId, epoch: nat)

  // What a call finds around it: the clock, fresh key material, the node's coordinates, and the admission checks.
  datatype Context = Context(now: int, ephemeral: nat, coords: nat, nodeAllowed: bool, peerAllowed: bool)

  // What a call leaves: the session with that peer, the frame sent back, the bodies handed on.
  datatype Handled = Handled(session: Option<Session>, reply: Option<Frame>, delivered: seq<nat>, ok: bool)

  // ---- Records ----

  function PrunePrevious(s: Session, now: int): Session {
    if s.previous.Some? && s.previous.value.expiresAt <= now then s.(previous := None) else s
  }

  function QueueEarly(s: Session, r: Record): (Session, Result<Option<nat>>) {
    if !r.intact then (s, Err("not an FSP Established record"))
    else if |s.early| >= MAX_EARLY_RECORDS || s.earlyBytes + r.size > MAX_EARLY_BYTES then (s, Err("early queue full"))
    else (s.(early := s.early + [r], earlyBytes := s.earlyBytes + r.size), Ok(None))
  }

  function Promoted(s: Session, fsp: Fsp, kBit: bool, now: int): Session {
    s.(previous := Some(Previous(s.fsp, s.kBit, now + FSP_REKEY_DRAIN_MS)), fsp := fsp, kBit := kBit, pending := None,
       remotePubkey := if fsp.remote.Some? then fsp.remote else s.remotePubkey)
  }

  function Received(r: Result<nat>): Result<Option<nat>> {
    if r.Ok? then Ok(Some(r.value)) else Err(r.error)
  }

  function HandleEstablished(s: Session, r: Record, now: int): (Session, Result<Option<nat>>) {
    if s.fsp.state == Handshaking then QueueEarly(s, r)
    else if s.fsp.state != Established then (s, Err("FSP Established before handshake"))
    else
      var p := PrunePrevious(s, now);
      if !r.intact then (p, Err("not an FSP Established record"))
      else if r.kBit == p.kBit then
        var (fsp, got) := DecryptRecord(p.fsp, r);
        (p.(fsp := fsp), Received(got))
      else if p.pending.Some? && p.pending.value.state == Established then
        var (fsp, got) := DecryptRecord(p.pending.value, r);
        (if got.Ok? then Promoted(p, fsp, r.kBit, now) else p.(pending := Some(fsp)), Received(got))
      else if p.pending.Some? && p.pending.value.state == Handshaking then QueueEarly(p, r)
      else if p.previous.Some? && p.previous.value.kBit == r.kBit then
        var (fsp, got) := DecryptRecord(p.previous.value.fsp, r);
        (p.(previous := Some(p.previous.value.(fsp := fsp))), Received(got))
      else (p, Err("epoch mismatch"))
  }

  function Flags(direct: bool, kBit: bool): (flags: nat)
    ensures AllowedFlags(flags) && FspWire.HasFlag(flags, FspWire.FSP_FLAG_K) == kBit
  {
    (if direct then FspWire.FSP_FLAG_DIRECT_TRANSPORT else 0) + (if kBit then FspWire.FSP_FLAG_K else 0)
  }

  // sendSessionMessage, where every record carries the session's K-bit.
  function SendRecord(s: Session, msgType: int, direct: bool, length: nat, body: nat): (Session, Result<Record>) {
    var (fsp, r) := EncryptRecord(s.fsp, msgType, Flags(direct, s.kBit), length, body);
    (s.(fsp := fsp), r)
  }

  // The queued records one after another; each failure is its own.
  function Drain(s: Session, records: seq<Record>, now: int): (Session, seq<nat>)
    decreases |records|
  {
    if records == [] then (s, [])
    else
      var (t, got) := HandleEstablished(s, records[0], now);
      var (end, rest) := Drain(t, records[1..], now);
      (end, (if got.Ok? && got.value.Some? then [got.value.value] else []) + rest)
  }

  function DrainEarly(s: Session, now: int): (Session, seq<nat>) {
    Drain(s.(early := [], earlyBytes := 0), s.early, now)
  }

  // ---- Handshake frames ----

  function NewResponder(local: Local): Fsp {
    NewFsp(local.self, Responder, None, local.epoch)
  }

  function NewSession(fsp: Fsp): Session {
    Session(None, fsp, false, None, None, [], 0)
  }

  function Matches(fsp: Fsp, setup: Setup): bool {
    fsp.receivedSetup == Some(setup)
  }

  function Replied(ack: Result<Ack>): Option<Frame> {
    if ack.Ok? then Some(AckFrame(ack.value)) else None
  }

  function HandleSetupFrame(local: Local, src: NodeId, session: Option<Session>, setup: Setup, ctx: Context): Handled {
    var (responder, answer) := HandleSetup(NewResponder(local), setup, ctx.ephemeral, ctx.coords);
    match session
    case None =>
      Handled(if answer.Ok? then Some(NewSession(responder)) else None, Replied(answer), [], answer.Ok?)
    case Some(s) =>
      if s.pending.Some? && Matches(s.pending.value, setup) then
        var (fsp, again) := HandleSetup(s.pending.value, setup, ctx.ephemeral, ctx.coords);
        Handled(Some(s.(pending := Some(fsp))), Replied(again), [], again.Ok?)
      else if Matches(s.fsp, setup) then
        var (fsp, again) := HandleSetup(s.fsp, setup, ctx.ephemeral, ctx.coords);
        Handled(Some(s.(fsp := fsp)), Replied(again), [], again.Ok?)
      else if s.fsp.state == Established then
        Handled(Some(if answer.Ok? then s.(pending := Some(responder)) else s), Replied(answer), [], answer.Ok?)
      else if s.fsp.state == Handshaking && s.fsp.role == Initiator then
        if local.self < src then Handled(session, None, [], true)
        else if local.self == src then Handled(session, None, [], false)
        else
          // The local attempt is closed before the remote Setup is looked at.
          Handled(Some(s.(fsp := if answer.Ok? then responder else ClosedFsp(s.fsp))), Replied(answer), [], answer.Ok?)
      else
        Handled(if answer.Ok? then Some(NewSession(responder)) else session, Replied(answer), [], answer.Ok?)
  }

  function HandleAckFrame(s: Session, ack: Ack): Handled {
    var (fsp, reply) := HandleAck(s.fsp, ack);
    Handled(Some(s.(fsp := fsp)), if reply.Ok? then Some(Msg3Frame(reply.value)) else None, [], reply.Ok?)
  }

  // The authenticated key is admitted, belongs to the claimed source, and is the one this session had before.
  predicate Admissible(s: Session, src: NodeId, fsp: Fsp, ctx: Context) {
    fsp.remote.Some? ==> ctx.peerAllowed && fsp.remote.value == src && (s.remotePubkey.Some? ==> s.remotePubkey == fsp.remote)
  }

  // The other end came back with a new epoch.
  predicate Restarted(s: Session, fsp: Fsp) {
    s.fsp.remoteEpoch.Some? && fsp.remoteEpoch.Some? && s.fsp.remoteEpoch != fsp.remoteEpoch
  }

  function Replaced(s: Session, fsp: Fsp): Session {
    s.(fsp := fsp, kBit := false, pending := None, previous := None,
       remotePubkey := if fsp.remote.Some? then fsp.remote else s.remotePubkey)
  }

  // The session once Msg3 is accepted and before the early records are drained.
  function AfterMsg3(s: Session, fsp: Fsp, now: int): Session {
    if s.pending.Some? then
      if Restarted(s, fsp) then Replaced(s, fsp) else Promoted(s, fsp, !s.kBit, now)
    else s.(fsp := fsp, remotePubkey := if fsp.remote.Some? then fsp.remote else s.remotePubkey)
  }

  function HandshakeFsp(s: Session): Fsp {
    if s.pending.Some? then s.pending.value else s.fsp
  }

  function HandleMsg3Frame(src: NodeId, s: Session, m: Msg3, ctx: Context): Handled {
    var (fsp, r) := HandleMsg3(HandshakeFsp(s), m);
    if r.Err? then Handled(Some(s), None, [], false)
    else if !Admissible(s, src, fsp, ctx) then
      Handled(if s.pending.Some? then Some(s.(pending := None)) else None, None, [], false)
    else
      var (end, delivered) := DrainEarly(AfterMsg3(s, fsp, ctx.now), ctx.now);
      Handled(Some(end), None, delivered, true)
  }

  // A record without a session only makes the node look for one, which is not part of this model.
  function HandleFrame(local: Local, src: NodeId, session: Option<Session>, frame: Frame, ctx: Context): Handled {
    if !ctx.nodeAllowed then Handled(session, None, [], false)
    else if frame.SetupFrame? then HandleSetupFrame(local, src, session, frame.setup, ctx)
    else if session.None? || frame.UnknownFrame? then Handled(session, None, [], false)
    else if frame.AckFrame? then HandleAckFrame(session.value, frame.ack)
    else if frame.Msg3Frame? then HandleMsg3Frame(src, session.value, frame.msg3, ctx)
    else
      var (s, got) := HandleEstablished(session.value, frame.record, ctx.now);
      Handled(Some(s), None, if got.Ok? && got.value.Some? then [got.value.value] else [], got.Ok?)
  }

  // ensureSession: a session that is up or under way is kept, otherwise a new one is started.
  function StartSession(local: Local, dst: NodeId, session: Option<Session>, ctx: Context): Handled {
    if session.Some? && (session.value.fsp.state == Established || session.value.fsp.state == Handshaking) then
      Handled(session, None, [], true)
    else
      var (fsp, setup) := BuildSetup(NewFsp(local.self, Initiator, Some(dst), local.epoch), ctx.ephemeral, ctx.coords);
      Handled(Some(NewSession(fsp).(remotePubkey := Some(dst))), if setup.Ok? then Some(SetupFrame(setup.value)) else None, [],
              setup.Ok?)
  }

  // ---- What every step keeps ----

  function Sizes(records: seq<Record>): nat {
    if records == [] then 0 else records[0].size + Sizes(records[1..])
  }

  predicate ValidQueue(s: Session) {
    |s.early| <= MAX_EARLY_RECORDS && s.earlyBytes == Sizes(s.early) <= MAX_EARLY_BYTES
  }

  // A stored pending session is still handshaking; the draining epoch has the opposite K-bit.
  predicate ValidEpochs(src: NodeId, s: Session) {
    && ValidFsp(s.fsp) && s.fsp.state != Init
    && (s.fsp.state == Established ==> s.fsp.remote == Some(src) && s.remotePubkey == Some(src))
    && (s.pending.Some? ==>
      && s.fsp.state == Established && ValidFsp(s.pending.value)
      && s.pending.value.state == Handshaking && s.pending.value.role == Responder)
    && (s.previous.Some? ==>
      && s.fsp.state == Established && ValidFsp(s.previous.value.fsp)
      && s.previous.value.fsp.state == Established && s.previous.value.kBit == !s.kBit)
    && (s.remotePubkey.Some? ==> s.remotePubkey == Some(src))
    && (s.fsp.state == Handshaking && s.fsp.role == Initiator ==> s.fsp.remote == Some(src) && s.remotePubkey == Some(src))
  }

  predicate ValidSession(src: NodeId, s: Session) {
    ValidEpochs(src, s) && ValidQueue(s)
  }

  lemma {:induction false} SizesSnoc(records: seq<Record>, r: Record)
    ensures Sizes(records + [r]) == Sizes(records) + r.size
  {
    if records == [] {
      assert ([] + [r])[1..] == [];
    } else {
      SizesSnoc(records[1..], r);
      assert (records + [r])[1..] == records[1..] + [r];
    }
  }

  // Sending moves the counter and nothing else.
  lemma SendingKeepsInvariant(src: NodeId, s: Session, msgType: int, direct: bool, length: nat, body: nat)
    requires ValidSession(src, s)
    ensures var (t, r) := SendRecord(s, msgType, direct, length, body);
      && ValidSession(src, t) && t == s.(fsp := s.fsp.(txCounter := t.fsp.txCounter))
      && (r.Ok? ==>
        && s.fsp.keys.Some? && r.value.sealedBy == Some(s.fsp.keys.value.tx) && r.value.kBit == s.kBit && r.value.body == body
        && r.value.counter == s.fsp.txCounter < t.fsp.txCounter && r.value.intact && r.value.innerIntact)
  {
    EncryptMovesCounter(s.fsp, msgType, Flags(direct, s.kBit), length, body);
    var fsp := EncryptRecord(s.fsp, msgType, Flags(direct, s.kBit), length, body).0;
    CounterKeepsValid(s.fsp, fsp.txCounter);
    hide EncryptRecord, ValidFsp, FspWire.HasFlag, Flags;
  }

  // What a record may move: the receive windows, the queue, and a draining epoch that has run out.
  predicate OnlyWindowsMove(s: Session, t: Session, now: int) {
    && t.kBit == s.kBit && t.pending == s.pending && t.remotePubkey == s.remotePubkey
    && WindowMoved(s.fsp, t.fsp)
    && (t.previous.Some? ==> s.previous.Some? && PreviousMoved(s.previous.value, t.previous.value))
    && (s.previous.Some? && t.previous.None? ==> s.previous.value.expiresAt <= now)
  }

  predicate WindowMoved(f: Fsp, g: Fsp) {
    g == f.(seen := g.seen)
  }

  predicate PreviousMoved(p: Previous, q: Previous) {
    q.kBit == p.kBit && q.expiresAt == p.expiresAt && WindowMoved(p.fsp, q.fsp)
  }

  lemma QueueKeepsInvariant(src: NodeId, s: Session, r: Record, now: int)
    requires ValidSession(src, s)
    ensures ValidSession(src, QueueEarly(s, r).0) && OnlyWindowsMove(s, QueueEarly(s, r).0, now)
  {
    hide ValidFsp, Sizes;
    SizesSnoc(s.early, r);
  }

  lemma DecryptMovesWindow(f: Fsp, r: Record)
    requires ValidFsp(f)
    ensures WindowMoved(f, DecryptRecord(f, r).0) && ValidFsp(DecryptRecord(f, r).0)
  {
  }

  lemma PruneKeepsInvariant(src: NodeId, s: Session, now: int)
    requires ValidSession(src, s)
    ensures ValidSession(src, PrunePrevious(s, now)) && OnlyWindowsMove(s, PrunePrevious(s, now), now)
  {
    hide ValidFsp;
  }

  // No record ever changes keys or K-bit: the branch that would promote a pending session is never taken.
  lemma RecordNeverRekeys(src: NodeId, s: Session, r: Record, now: int)
    requires ValidSession(src, s)
    ensures OnlyWindowsMove(s, HandleEstablished(s, r, now).0, now) && ValidSession(src, HandleEstablished(s, r, now).0)
  {
    hide ValidFsp, DecryptRecord, QueueEarly, PrunePrevious, Sizes;
    var p := PrunePrevious(s, now);
    PruneKeepsInvariant(src, s, now);
    QueueKeepsInvariant(src, s, r, now);
    QueueKeepsInvariant(src, p, r, now);
    DecryptMovesWindow(p.fsp, r);
    if p.previous.Some? {
      DecryptMovesWindow(p.previous.value.fsp, r);
    }
  }

  lemma MovesCompose(s: Session, t: Session, u: Session, now: int)
    requires OnlyWindowsMove(s, t, now) && OnlyWindowsMove(t, u, now)
    ensures OnlyWindowsMove(s, u, now)
  {
  }

  lemma {:induction false} DrainNeverRekeys(src: NodeId, s: Session, records: seq<Record>, now: int)
    requires ValidSession(src, s)
    ensures OnlyWindowsMove(s, Drain(s, records, now).0, now) && ValidSession(src, Drain(s, records, now).0)
    decreases |records|
  {
    hide ValidSession, HandleEstablished, OnlyWindowsMove;
    if records == [] {
      NothingMoves(s, now);
    } else {
      var t := HandleEstablished(s, records[0], now).0;
      RecordNeverRekeys(src, s, records[0], now);
      DrainNeverRekeys(src, t, records[1..], now);
      MovesCompose(s, t, Drain(t, records[1..], now).0, now);
    }
  }

  lemma NothingMoves(s: Session, now: int)
    ensures OnlyWindowsMove(s, s, now)
  {
  }

  lemma DrainEarlyKeepsInvariant(src: NodeId, s: Session, now: int)
    requires ValidEpochs(src, s)
    ensures ValidSession(src, DrainEarly(s, now).0) && OnlyWindowsMove(s, DrainEarly(s, now).0, now)
  {
    hide ValidFsp, Drain;
    DrainNeverRekeys(src, s.(early := [], earlyBytes := 0), s.early, now);
  }

  // ---- Setups ----

  lemma AnswerIsValid(local: Local, setup: Setup, ctx: Context)
    ensures var (f, r) := HandleSetup(NewResponder(local), setup, ctx.ephemeral, ctx.coords);
      r.Ok? <==> setup.intact
    ensures var (f, r) := HandleSetup(NewResponder(local), setup, ctx.ephemeral, ctx.coords);
      r.Ok? ==> ValidFsp(f) && f.state == Handshaking && f.role == Responder && f.receivedSetup == Some(setup) && f.sentAck == Some(r.value)
  {
  }

  lemma RepeatedSetup(f: Fsp, setup: Setup, ctx: Context)
    requires ValidFsp(f) && Matches(f, setup) && f.role == Responder
    ensures HandleSetup(f, setup, ctx.ephemeral, ctx.coords) == (f, Ok(f.sentAck.value))
  {
  }

  lemma ReceivedMeansResponder(f: Fsp)
    requires ValidFsp(f) && f.receivedSetup.Some? && f.state != Closed
    ensures f.role == Responder
  {
  }

  lemma InitiatorReceivedNothing(f: Fsp)
    requires ValidFsp(f) && f.state == Handshaking && f.role == Initiator
    ensures f.receivedSetup.None?
  {
  }

  // Over an established session a SessionSetup moves nothing but the pending session.
  lemma SetupNeverRekeys(local: Local, src: NodeId, s: Session, setup: Setup, ctx: Context)
    requires ValidSession(src, s) && s.fsp.state == Established
    ensures var h := HandleSetupFrame(local, src, Some(s), setup, ctx);
      h.session.Some? && h.session.value == s.(pending := h.session.value.pending) && ValidSession(src, h.session.value)
    ensures var h := HandleSetupFrame(local, src, Some(s), setup, ctx);
      if Matches(s.fsp, setup) && !(s.pending.Some? && Matches(s.pending.value, setup)) then
        h.session == Some(s) && h.reply == Some(AckFrame(s.fsp.sentAck.value))
      else if setup.intact || (s.pending.Some? && Matches(s.pending.value, setup)) then
        && h.session.value.pending.Some? && Matches(h.session.value.pending.value, setup)
        && h.reply == Some(AckFrame(h.session.value.pending.value.sentAck.value))
      else h.session == Some(s) && h.reply.None? && !h.ok
  {
    hide ValidFsp, HandleSetup;
    AnswerIsValid(local, setup, ctx);
    if s.pending.Some? && Matches(s.pending.value, setup) {
      RepeatedSetup(s.pending.value, setup, ctx);
    } else if Matches(s.fsp, setup) {
      ReceivedMeansResponder(s.fsp);
      RepeatedSetup(s.fsp, setup, ctx);
    }
  }

  lemma SetupKeepsInvariant(local: Local, src: NodeId, session: Option<Session>, setup: Setup, ctx: Context)
    requires session.Some? ==> ValidSession(src, session.value)
    ensures var h := HandleSetupFrame(local, src, session, setup, ctx); h.session.Some? ==> ValidSession(src, h.session.value)
  {
    AnswerIsValid(local, setup, ctx);
    hide HandleSetup;
    if session.Some? {
      var s := session.value;
      if s.fsp.state == Established {
        SetupNeverRekeys(local, src, s, setup, ctx);
      } else if Matches(s.fsp, setup) {
        RepeatedOrClosed(s.fsp, setup, ctx);
      }
    }
  }

  lemma RepeatedOrClosed(f: Fsp, setup: Setup, ctx: Context)
    requires ValidFsp(f) && Matches(f, setup)
    ensures HandleSetup(f, setup, ctx.ephemeral, ctx.coords).0 == f
  {
  }

  // ---- Msg3 ----

  lemma Msg3Outcome(f: Fsp, m: Msg3)
    requires ValidFsp(f)
    ensures var (g, r) := HandleMsg3(f, m);
      && ValidFsp(g)
      && (r.Ok? ==>
        && g.state == Established && g.role == Responder && g.remote == Some(m.agreement.initiator)
        && g.remoteEpoch == Some(m.agreement.initiatorEpoch) && g.keys == Some(Split(m.agreement, Responder)))
      && (r.Err? ==> g == f)
      && (f.state == Established ==> g == f)
      && (f.state == Handshaking && f.role == Responder ==> (r.Ok? <==> OpensMsg3(f, m)))
      && (f.role == Initiator ==> r.Err?)
  {
  }

  lemma AfterMsg3IsValid(src: NodeId, s: Session, m: Msg3, ctx: Context)
    requires ValidSession(src, s) && HandleMsg3(HandshakeFsp(s), m).1.Ok?
    requires Admissible(s, src, HandleMsg3(HandshakeFsp(s), m).0, ctx)
    ensures ValidEpochs(src, AfterMsg3(s, HandleMsg3(HandshakeFsp(s), m).0, ctx.now))
  {
    Msg3Outcome(HandshakeFsp(s), m);
    hide ValidFsp, HandleMsg3;
  }

  lemma Msg3KeepsInvariant(src: NodeId, s: Session, m: Msg3, ctx: Context)
    requires ValidSession(src, s)
    ensures var h := HandleMsg3Frame(src, s, m, ctx); h.session.Some? ==> ValidSession(src, h.session.value)
  {
    hide HandleMsg3, DrainEarly, ValidFsp, AfterMsg3;
    var fsp := HandleMsg3(HandshakeFsp(s), m).0;
    if HandleMsg3(HandshakeFsp(s), m).1.Ok? && Admissible(s, src, fsp, ctx) {
      AfterMsg3IsValid(src, s, m, ctx);
      DrainEarlyKeepsInvariant(src, AfterMsg3(s, fsp, ctx.now), ctx.now);
    }
  }

  // What it takes to change epochs: a Msg3 that opens for the pending session, from the node it claims, still admitted.
  predicate Rekeys(src: NodeId, s: Session, frame: Frame, ctx: Context) {
    && ctx.nodeAllowed && frame.Msg3Frame? && s.pending.Some? && OpensMsg3(s.pending.value, frame.msg3)
    && ctx.peerAllowed && frame.msg3.agreement.initiator == src
  }

  // The new epoch: under a new remote epoch everything old is dropped, otherwise the old keys drain under the old K-bit.
  predicate Rekeyed(s: Session, t: Session, a: Agreement, now: int) {
    && t.fsp.keys == Some(Split(a, Responder)) && t.pending.None?
    && if s.fsp.remoteEpoch != Some(a.initiatorEpoch) then t.kBit == false && t.previous.None?
       else t.kBit == !s.kBit && t.previous.Some? && PreviousMoved(Previous(s.fsp, s.kBit, now + FSP_REKEY_DRAIN_MS), t.previous.value)
  }

  predicate EpochsKept(s: Session, t: Session, now: int) {
    && t.fsp.keys == s.fsp.keys && t.fsp.state == s.fsp.state && t.kBit == s.kBit && t.remotePubkey == s.remotePubkey
    && (t.previous.Some? ==> s.previous.Some? && PreviousMoved(s.previous.value, t.previous.value))
    && (s.previous.Some? && t.previous.None? ==> s.previous.value.expiresAt <= now)
  }

  lemma OpenMsg3Rekeys(src: NodeId, s: Session, m: Msg3, ctx: Context)
    requires ValidSession(src, s) && Rekeys(src, s, Msg3Frame(m), ctx)
    ensures var h := HandleMsg3Frame(src, s, m, ctx); h.session.Some? && Rekeyed(s, h.session.value, m.agreement, ctx.now)
  {
    Msg3Outcome(s.pending.value, m);
    RemoteEpochKnown(s.fsp);
    AfterMsg3IsValid(src, s, m, ctx);
    hide HandleMsg3, DrainEarly, ValidFsp;
    DrainEarlyKeepsInvariant(src, AfterMsg3(s, HandleMsg3(s.pending.value, m).0, ctx.now), ctx.now);
  }

  lemma RemoteEpochKnown(f: Fsp)
    requires ValidFsp(f) && f.state == Established
    ensures f.remoteEpoch.Some?
  {
  }

  // Any other Msg3 over an established session leaves its epochs alone; it can at most end a session whose peer is no
  // longer admitted.
  lemma OtherMsg3Rekeys(src: NodeId, s: Session, m: Msg3, ctx: Context)
    requires ValidSession(src, s) && s.fsp.state == Established && ctx.nodeAllowed && !Rekeys(src, s, Msg3Frame(m), ctx)
    ensures var h := HandleMsg3Frame(src, s, m, ctx);
      if h.session.Some? then EpochsKept(s, h.session.value, ctx.now) else !ctx.peerAllowed && s.pending.None?
  {
    Msg3Outcome(HandshakeFsp(s), m);
    hide HandleMsg3, DrainEarly, ValidFsp;
    var fsp := HandleMsg3(HandshakeFsp(s), m).0;
    if s.pending.None? && HandleMsg3(HandshakeFsp(s), m).1.Ok? && Admissible(s, src, fsp, ctx) {
      assert AfterMsg3(s, fsp, ctx.now) == s;
      DrainEarlyKeepsInvariant(src, s, ctx.now);
    }
  }

  lemma AckOverEstablished(f: Fsp, ack: Ack)
    requires ValidFsp(f) && f.state == Established
    ensures HandleAck(f, ack).0 == f
  {
  }

  // Rekey safety: whatever arrives, the keys, the K-bit and the draining epoch of an established session change only when
  // an authentic Msg3 completes the pending handshake.
  lemma RekeySafety(local: Local, src: NodeId, s: Session, frame: Frame, ctx: Context)
    requires ValidSession(src, s) && s.fsp.state == Established
    ensures var h := HandleFrame(local, src, Some(s), frame, ctx);
      if Rekeys(src, s, frame, ctx) then h.session.Some? && Rekeyed(s, h.session.value, frame.msg3.agreement, ctx.now)
      else if h.session.Some? then EpochsKept(s, h.session.value, ctx.now)
      else frame.Msg3Frame? && !ctx.peerAllowed && s.pending.None?
  {
    hide HandleSetupFrame, HandleMsg3Frame, HandleAck, HandleEstablished, Rekeyed;
    if ctx.nodeAllowed {
      match frame {
        case SetupFrame(setup) => SetupNeverRekeys(local, src, s, setup, ctx);
        case AckFrame(ack) => AckOverEstablished(s.fsp, ack);
        case Msg3Frame(m) =>
          if Rekeys(src, s, frame, ctx) {
            OpenMsg3Rekeys(src, s, m, ctx);
          } else {
            OtherMsg3Rekeys(src, s, m, ctx);
          }
        case RecordFrame(r) => RecordNeverRekeys(src, s, r, ctx.now);
        case UnknownFrame =>
      }
    }
  }

  lemma AckKeepsValid(src: NodeId, s: Session, ack: Ack)
    requires ValidSession(src, s)
    ensures ValidSession(src, HandleAckFrame(s, ack).session.value)
  {
    InitiatorStepsKeepValid(s.fsp, ack, 0, 0);
    if s.fsp.state == Established {
      AckOverEstablished(s.fsp, ack);
    }
  }

  // Every frame keeps the invariant: a pending session is still handshaking, the draining K-bit is the opposite one, the
  // queue is bounded and counted.
  lemma FrameKeepsInvariant(local: Local, src: NodeId, session: Option<Session>, frame: Frame, ctx: Context)
    requires session.Some? ==> ValidSession(src, session.value)
    ensures var h := HandleFrame(local, src, session, frame, ctx); h.session.Some? ==> ValidSession(src, h.session.value)
  {
    hide HandleSetupFrame, HandleMsg3Frame, HandleAckFrame, HandleEstablished, ValidSession;
    if frame.SetupFrame? {
      SetupKeepsInvariant(local, src, session, frame.setup, ctx);
    } else if session.Some? {
      match frame {
        case AckFrame(ack) => AckKeepsValid(src, session.value, ack);
        case Msg3Frame(m) => Msg3KeepsInvariant(src, session.value, m, ctx);
        case RecordFrame(r) => RecordNeverRekeys(src, session.value, r, ctx.now);
        case UnknownFrame =>
      }
    }
  }

  lemma StartKeepsInvariant(local: Local, dst: NodeId, session: Option<Session>, ctx: Context)
    requires session.Some? ==> ValidSession(dst, session.value)
    ensures ValidSession(dst, StartSession(local, dst, session, ctx).session.value)
    ensures StartSession(local, dst, session, ctx).session.value.fsp.state != Closed
  {
  }

  // A node that starts over with its old epoch expects the K-bit false; the other side agrees exactly if the epoch is new
  // to it or its own K-bit was set.
  lemma FreshInitiatorKBit(local: Local, other: Local, s: Session, m: Msg3, ctx: Context)
    requires ValidSession(other.self, s) && s.fsp.state == Established && Rekeys(other.self, s, Msg3Frame(m), ctx)
    requires m.agreement.initiatorEpoch == other.epoch
    ensures var started := StartSession(other, local.self, None, ctx).session.value;
      var h := HandleFrame(local, other.self, Some(s), Msg3Frame(m), ctx);
      h.session.Some? && (h.session.value.kBit == started.kBit <==> s.fsp.remoteEpoch != Some(other.epoch) || s.kBit)
  {
    RekeySafety(local, other.self, s, Msg3Frame(m), ctx);
  }

  // ---- Early records ----

  predicate AllIntact(records: seq<Record>) {
    forall r :: r in records ==> r.intact
  }

  // The records one at a time, before the session is up.
  function Queued(s: Session, records: seq<Record>, now: int): Session
    decreases |records|
  {
    if records == [] then s else Queued(HandleEstablished(s, records[0], now).0, records[1..], now)
  }

  lemma {:induction false} QueuedInOrder(s: Session, records: seq<Record>, now: int)
    requires s.fsp.state == Handshaking && AllIntact(records)
    requires |s.early| + |records| <= MAX_EARLY_RECORDS && s.earlyBytes + Sizes(records) <= MAX_EARLY_BYTES
    ensures Queued(s, records, now) == s.(early := s.early + records, earlyBytes := s.earlyBytes + Sizes(records))
    decreases |records|
  {
    if records == [] {
      assert s.early + [] == s.early;
    } else {
      assert records[0] in records;
      var t := s.(early := s.early + [records[0]], earlyBytes := s.earlyBytes + records[0].size);
      assert HandleEstablished(s, records[0], now).0 == t;
      QueuedInOrder(t, records[1..], now);
      assert t.early + records[1..] == s.early + records;
    }
  }

  // Records that overtake Msg3 end as if they had come after it.
  lemma RecordsMayOvertakeMsg3(src: NodeId, s: Session, records: seq<Record>, m: Msg3, ctx: Context)
    requires ValidSession(src, s) && s.fsp.state == Handshaking && s.fsp.role == Responder && s.early == []
    requires AllIntact(records) && |records| <= MAX_EARLY_RECORDS && Sizes(records) <= MAX_EARLY_BYTES
    requires OpensMsg3(s.fsp, m) && m.agreement.initiator == src && ctx.peerAllowed
    ensures var before := HandleMsg3Frame(src, Queued(s, records, ctx.now), m, ctx);
      var after := HandleMsg3Frame(src, s, m, ctx);
      && before.session.Some? && after.session.Some? && after.delivered == []
      && (before.session.value, before.delivered) == Drain(after.session.value, records, ctx.now)
  {
    QueuedInOrder(s, records, ctx.now);
    var q := Queued(s, records, ctx.now);
    assert q.early == records;
    Msg3Outcome(s.fsp, m);
    hide ValidFsp, HandleMsg3, HandleEstablished;
    var fsp := HandleMsg3(s.fsp, m).0;
    assert AfterMsg3(q, fsp, ctx.now).(early := [], earlyBytes := 0) == AfterMsg3(s, fsp, ctx.now);
  }

  // ---- FspSessionManager ----

  function Lookup(sessions: map<NodeId, Session>, src: NodeId): Option<Session> {
    if src in sessions then Some(sessions[src]) else None
  }

  function Updated(sessions: map<NodeId, Session>, src: NodeId, session: Option<Session>): map<NodeId, Session> {
    if session.Some? then sessions[src := session.value] else sessions - {src}
  }

  lemma Regroup(delivered: seq<nat>, got: Result<Option<nat>>, rest: seq<nat>)
    ensures got.Ok? && got.value.Some? ==> delivered + ([got.value.value] + rest) == (delivered + [got.value.value]) + rest
    ensures delivered + ([] + rest) == delivered + rest
  {
  }

  class FspSessionManager {
    const local: Local
    var sessions: map<NodeId, Session>

    ghost predicate Valid()
      reads this
    {
      forall src {:trigger sessions[src]} :: src in sessions ==> ValidSession(src, sessions[src])
    }

    constructor (self: NodeId, epoch: nat)
      ensures Valid() && local == Local(self, epoch) && sessions == map[]
    {
      local, sessions := Local(self, epoch), map[];
    }

    // One frame from src: its session becomes what HandleFrame says, no other session is touched.
    method HandleFromPeer(src: NodeId, frame: Frame, ctx: Context) returns (reply: Option<Frame>, delivered: seq<nat>, ok: bool)
      requires Valid()
      modifies this
      ensures Valid()
      ensures var h := HandleFrame(local, src, Lookup(old(sessions), src), frame, ctx);
        sessions == Updated(old(sessions), src, h.session) && reply == h.reply && delivered == h.delivered && ok == h.ok
    {
      hide HandleSetupFrame, HandleMsg3Frame, HandleAckFrame, HandleEstablished, ValidSession;
      FrameKeepsInvariant(local, src, Lookup(sessions, src), frame, ctx);
      reply, delivered, ok := None, [], false;
      if !ctx.nodeAllowed {
        return;
      }
      match frame {
        case RecordFrame(record) =>
          if src in sessions {
            var got := ReceiveEstablished(src, record, ctx.now);
            ok := got.Ok?;
            if got.Ok? && got.value.Some? {
              delivered := [got.value.value];
            }
          }
        case SetupFrame(setup) =>
          reply, ok := ReceiveSetup(src, setup, ctx);
        case AckFrame(ack) =>
          if src in sessions {
            reply, ok := ReceiveAck(src, ack);
          }
        case Msg3Frame(m) =>
          if src in sessions {
            delivered, ok := ReceiveMsg3(src, m, ctx);
          }
        case UnknownFrame =>
      }
    }

    method ReceiveAck(src: NodeId, ack: Ack) returns (reply: Option<Frame>, ok: bool)
      requires src in sessions
      modifies this
      ensures var h := HandleAckFrame(old(sessions)[src], ack);
        && h.session.Some? && h.delivered == []
        && sessions == old(sessions)[src := h.session.value] && reply == h.reply && ok == h.ok
    {
      hide HandleAck;
      var session := sessions[src];
      var (fsp, msg3) := HandleAck(session.fsp, ack);
      sessions := sessions[src := session.(fsp := fsp)];
      reply := if msg3.Ok? then Some(Msg3Frame(msg3.value)) else None;
      ok := msg3.Ok?;
    }

    method QueueEarlyRecord(src: NodeId, r: Record) returns (got: Result<Option<nat>>)
      requires src in sessions
      modifies this
      ensures sessions == old(sessions)[src := QueueEarly(old(sessions)[src], r).0]
      ensures got == QueueEarly(old(sessions)[src], r).1
    {
      var session := sessions[src];
      if !r.intact {
        assert sessions == sessions[src := session];
        return Err("not an FSP Established record");
      }
      if |session.early| >= MAX_EARLY_RECORDS || session.earlyBytes + r.size > MAX_EARLY_BYTES {
        assert sessions == sessions[src := session];
        return Err("early queue full");
      }
      sessions := sessions[src := session.(early := session.early + [r], earlyBytes := session.earlyBytes + r.size)];
      got := Ok(None);
    }

    method ReceiveEstablished(src: NodeId, r: Record, now: int) returns (got: Result<Option<nat>>)
      requires src in sessions
      modifies this
      ensures sessions == old(sessions)[src := HandleEstablished(old(sessions)[src], r, now).0]
      ensures got == HandleEstablished(old(sessions)[src], r, now).1
    {
      hide QueueEarly, DecryptRecord, Promoted;
      if sessions[src].fsp.state == Handshaking {
        got := QueueEarlyRecord(src, r);
        return;
      }
      if sessions[src].fsp.state != Established {
        assert sessions == sessions[src := sessions[src]];
        return Err("FSP Established before handshake");
      }
      var session := PrunePrevious(sessions[src], now);
      sessions := sessions[src := session];
      if !r.intact {
        return Err("not an FSP Established record");
      }
      if r.kBit != session.kBit {
        if session.pending.Some? && session.pending.value.state == Established {
          var (fsp, result) := DecryptRecord(session.pending.value, r);
          session := if result.Ok? then Promoted(session, fsp, r.kBit, now) else session.(pending := Some(fsp));
          sessions := sessions[src := session];
          return Received(result);
        }
        if session.pending.Some? && session.pending.value.state == Handshaking {
          got := QueueEarlyRecord(src, r);
          return;
        }
        if session.previous.None? || session.previous.value.kBit != r.kBit {
          return Err("epoch mismatch");
        }
        var previous := session.previous.value;
        var (fsp, result) := DecryptRecord(previous.fsp, r);
        sessions := sessions[src := session.(previous := Some(previous.(fsp := fsp)))];
        return Received(result);
      }
      var (fsp, result) := DecryptRecord(session.fsp, r);
      sessions := sessions[src := session.(fsp := fsp)];
      got := Received(result);
    }

    method ReceiveSetup(src: NodeId, setup: Setup, ctx: Context) returns (reply: Option<Frame>, ok: bool)
      modifies this
      ensures var h := HandleSetupFrame(local, src, Lookup(old(sessions), src), setup, ctx);
        && h.delivered == []
        && sessions == Updated(old(sessions), src, h.session) && reply == h.reply && ok == h.ok
    {
      hide HandleSetup;
      var answer: Result<Ack>;
      var session := Lookup(sessions, src);
      if session.Some? && session.value.pending.Some? && Matches(session.value.pending.value, setup) {
        var (fsp, r) := HandleSetup(session.value.pending.value, setup, ctx.ephemeral, ctx.coords);
        answer := r;
        sessions := sessions[src := session.value.(pending := Some(fsp))];
      } else if session.Some? && Matches(session.value.fsp, setup) {
        var (fsp, r) := HandleSetup(session.value.fsp, setup, ctx.ephemeral, ctx.coords);
        answer := r;
        sessions := sessions[src := session.value.(fsp := fsp)];
      } else {
        var (responder, r) := HandleSetup(NewResponder(local), setup, ctx.ephemeral, ctx.coords);
        answer := r;
        if session.Some? && session.value.fsp.state == Established {
          if answer.Ok? {
            sessions := sessions[src := session.value.(pending := Some(responder))];
          }
        } else if session.Some? && session.value.fsp.state == Handshaking && session.value.fsp.role == Initiator {
          if local.self <= src {
            return None, local.self < src;
          }
          sessions := sessions[src := session.value.(fsp := ClosedFsp(session.value.fsp))];
          if answer.Ok? {
            sessions := sessions[src := session.value.(fsp := responder)];
          }
        } else if answer.Ok? {
          sessions := sessions[src := NewSession(responder)];
        }
      }
      reply, ok := Replied(answer), answer.Ok?;
    }

    method ReceiveMsg3(src: NodeId, m: Msg3, ctx: Context) returns (delivered: seq<nat>, ok: bool)
      requires src in sessions
      modifies this
      ensures var h := HandleMsg3Frame(src, old(sessions)[src], m, ctx);
        && h.reply.None?
        && sessions == Updated(old(sessions), src, h.session) && delivered == h.delivered && ok == h.ok
    {
      hide HandleMsg3, Drain, AfterMsg3;
      var session := sessions[src];
      var (fsp, r) := HandleMsg3(HandshakeFsp(session), m);
      if r.Err? {
        return [], false;
      }
      if !Admissible(session, src, fsp, ctx) {
        if session.pending.Some? {
          sessions := sessions[src := session.(pending := None)];
        } else {
          sessions := sessions - {src};
        }
        return [], false;
      }
      sessions := sessions[src := AfterMsg3(session, fsp, ctx.now)];
      delivered := DrainEarlyRecords(src, ctx.now);
      ok := true;
    }

    method DrainEarlyRecords(src: NodeId, now: int) returns (delivered: seq<nat>)
      requires src in sessions
      modifies this
      ensures src in sessions && sessions == old(sessions)[src := sessions[src]]
      ensures (sessions[src], delivered) == DrainEarly(old(sessions)[src], now)
    {
      hide HandleEstablished;
      var records := sessions[src].early;
      var cleared := sessions[src].(early := [], earlyBytes := 0);
      sessions := sessions[src := cleared];
      delivered := [];
      assert records[0..] == records;
      for i := 0 to |records|
        invariant src in sessions && sessions == old(sessions)[src := sessions[src]]
        invariant Drain(cleared, records, now).0 == Drain(sessions[src], records[i..], now).0
        invariant Drain(cleared, records, now).1 == delivered + Drain(sessions[src], records[i..], now).1
      {
        assert records[i..][1..] == records[i + 1..];
        ghost var rest := Drain(HandleEstablished(sessions[src], records[i], now).0, records[i + 1..], now).1;
        Regroup(delivered, HandleEstablished(sessions[src], records[i], now).1, rest);
        var got := ReceiveEstablished(src, records[i], now);
        if got.Ok? && got.value.Some? {
          delivered := delivered + [got.value.value];
        }
      }
      assert records[|records|..] == [] && delivered + [] == delivered;
    }

    // The state part of ensureSession: the Setup to send, if a new session was started.
    method EnsureSession(dst: NodeId, ctx: Context) returns (setup: Option<Frame>)
      requires Valid()
      modifies this
      ensures Valid() && dst in sessions
      ensures var h := StartSession(local, dst, Lookup(old(sessions), dst), ctx);
        sessions == Updated(old(sessions), dst, h.session) && setup == h.reply
    {
      hide BuildSetup, ValidSession;
      StartKeepsInvariant(local, dst, Lookup(sessions, dst), ctx);
      if dst in sessions && (sessions[dst].fsp.state == Established || sessions[dst].fsp.state == Handshaking) {
        assert sessions == sessions[dst := sessions[dst]];
        return None;
      }
      var (fsp, built) := BuildSetup(NewFsp(local.self, Initiator, Some(dst), local.epoch), ctx.ephemeral, ctx.coords);
      sessions := sessions[dst := NewSession(fsp).(remotePubkey := Some(dst))];
      setup := if built.Ok? then Some(SetupFrame(built.value)) else None;
    }
  }
}
