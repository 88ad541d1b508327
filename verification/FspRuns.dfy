/**
 * Two nodes setting up FSP sessions with each other over a network that loses, repeats and reorders frames
 * (packages/core/src/node/FspSessionManager.ts, packages/core/src/fsp/session.ts).
 */
module FspRuns {
  import opened Wrappers
  import opened FspHandshakes
  import opened FspSessions
  import FspOutcomes

  // One node: its session with the other, the Setup it started with, and every frame ever sent to it.
  datatype Side = Side(local: Local, session: Option<Session>, setup: Option<Setup>, inbox: set<Frame>)

  // `small` has the smaller address, whose initiator wins a crossed setup.
  datatype World = World(small: Side, large: Side)

  datatype Event =
    | Starts(atSmall: bool, ctx: Context)
    | Arrives(atSmall: bool, frame: Frame, ctx: Context)
    | Sends(atSmall: bool, msgType: int, direct: bool, length: nat, body: nat)

  // Handshake frames are delivered as they were sent, any number of times; anything may be injected among the records.
  // Each node starts at most one session, none times out, and the other node stays admitted.
  predicate Possible(w: World, event: Event) {
    match event
    case Starts(atSmall, ctx) => At(w, atSmall).setup.None?
    case Arrives(atSmall, frame, ctx) =>
      ctx.peerAllowed && (frame in At(w, atSmall).inbox || frame.RecordFrame? || frame.UnknownFrame?)
    case Sends(atSmall, _, _, _, _) => At(w, atSmall).session.Some?
  }

  function At(w: World, atSmall: bool): Side {
    if atSmall then w.small else w.large
  }

  function Put(side: Side, frame: Option<Frame>): Side {
    if frame.Some? then side.(inbox := side.inbox + {frame.value}) else side
  }

  // One side acts; what it sends goes to the other's inbox.
  function Acted(w: World, atSmall: bool, side: Side, sent: Option<Frame>): World {
    if atSmall then World(side, Put(w.large, sent)) else World(Put(w.small, sent), side)
  }

  function Next(w: World, event: Event): World
    requires Possible(w, event)
  {
    var me := At(w, event.atSmall);
    var other := At(w, !event.atSmall).local.self;
    match event
    case Starts(atSmall, ctx) =>
      var h := StartSession(me.local, other, me.session, ctx);
      var setup := if h.reply.Some? && h.reply.value.SetupFrame? then Some(h.reply.value.setup) else me.setup;
      Acted(w, atSmall, me.(session := h.session, setup := setup), h.reply)
    case Arrives(atSmall, frame, ctx) =>
      var h := HandleFrame(me.local, other, me.session, frame, ctx);
      Acted(w, atSmall, me.(session := h.session), h.reply)
    case Sends(atSmall, msgType, direct, length, body) =>
      var (session, r) := SendRecord(me.session.value, msgType, direct, length, body);
      Acted(w, atSmall, me.(session := Some(session)), if r.Ok? then Some(RecordFrame(r.value)) else None)
  }

  predicate Run(w: World, events: seq<Event>, end: World)
    decreases |events|
  {
    if events == [] then end == w else Possible(w, events[0]) && Run(Next(w, events[0]), events[1..], end)
  }

  predicate Initial(w: World) {
    && w.small.local.self < w.large.local.self
    && w.small.session.None? && w.small.setup.None? && w.small.inbox == {}
    && w.large.session.None? && w.large.setup.None? && w.large.inbox == {}
  }

  predicate Up(side: Side) {
    side.session.Some? && side.session.value.fsp.state == Established && side.session.value.fsp.keys.Some?
  }

  // One end initiated and the other responded, under one K-bit, and what either seals the other opens.
  predicate Crossed(s: Session, l: Session)
    requires s.fsp.keys.Some? && l.fsp.keys.Some?
  {
    && s.fsp.role != l.fsp.role && s.kBit == l.kBit
    && s.fsp.keys.value.tx == l.fsp.keys.value.rx && s.fsp.keys.value.rx == l.fsp.keys.value.tx
  }

  // ---- The invariant ----

  predicate Initiates(side: Side, other: Side) {
    && side.session.Some? && side.session.value.fsp.role == Initiator && side.setup.Some?
    && side.session.value.fsp.self == side.local.self
    && (side.session.value.fsp.state == Handshaking ==> side.session.value.fsp.hs == Some(SentHello(side.setup.value.ephemeral)))
  }

  predicate InitiatorUp(side: Side, other: Side) {
    && Initiates(side, other) && side.session.value.fsp.state == Established
    && side.session.value.fsp.sentMsg3.Some? && side.session.value.fsp.sentMsg3.value.intact
    && side.session.value.fsp.sentMsg3.value.agreement.initiator == side.local.self
  }

  // A responder that answered the other's Setup.
  predicate Responds(side: Side, other: Side) {
    && side.session.Some? && side.session.value.fsp.role == Responder && side.session.value.pending.None?
    && other.setup.Some? && side.session.value.fsp.receivedSetup == other.setup && side.session.value.fsp.sentAck.Some?
    && Answers(side.session.value.fsp.sentAck.value, side, other)
  }

  // The Ack that the other's attempt opens.
  predicate Answers(ack: Ack, side: Side, other: Side) {
    && other.setup.Some? && ack.intact
    && ack.transcript.ephemeral == other.setup.value.ephemeral && ack.transcript.responder == side.local.self
  }

  predicate WellFormed(side: Side, other: Side) {
    && (side.session.Some? ==>
      && ValidSession(other.local.self, side.session.value)
      && (side.session.value.fsp.state == Handshaking || side.session.value.fsp.state == Established)
      && !side.session.value.kBit && side.session.value.previous.None?)
    && (side.setup.Some? ==> side.setup.value.intact)
  }

  // An established end has its counterpart.
  predicate Paired(side: Side, other: Side) {
    && (InitiatorUp(side, other) ==> Responds(other, side) && other.session.value.fsp.sentAck == side.session.value.fsp.receivedAck)
    && (side.session.Some? && side.session.value.fsp.role == Responder && side.session.value.fsp.state == Established ==>
      InitiatorUp(other, side) && side.session.value.fsp.establishedMsg3 == other.session.value.fsp.sentMsg3)
  }

  // What may be in flight towards `to`.
  predicate FromOther(to: Side, from: Side, frame: Frame) {
    match frame
    case SetupFrame(setup) => from.setup == Some(setup)
    case AckFrame(ack) =>
      || (Responds(from, to) && from.session.value.fsp.sentAck == Some(ack))
      || (InitiatorUp(from, to) && from.session.value.pending.Some? && from.session.value.pending.value.sentAck == Some(ack))
    case Msg3Frame(m) => InitiatorUp(from, to) && from.session.value.fsp.sentMsg3 == Some(m)
    case _ => true
  }

  predicate SmallRoles(w: World) {
    && (w.small.setup.Some? ==> Initiates(w.small, w.large))
    && (w.small.session.Some? ==>
      || (Initiates(w.small, w.large)
          && (w.small.session.value.fsp.state == Established ==> InitiatorUp(w.small, w.large))
          && (w.small.session.value.pending.Some? ==> w.small.session.value.pending.value.receivedSetup == w.large.setup))
      || (w.small.setup.None? && Responds(w.small, w.large)))
  }

  predicate LargeRoles(w: World) {
    && (w.large.setup.Some? ==> w.large.session.Some?)
    && (w.large.session.Some? ==>
      && w.large.session.value.pending.None?
      && (|| (Initiates(w.large, w.small) && (w.large.session.value.fsp.state == Established ==> InitiatorUp(w.large, w.small)))
          || Responds(w.large, w.small)))
  }

  ghost predicate Invariant(w: World) {
    && w.small.local.self < w.large.local.self
    && WellFormed(w.small, w.large) && WellFormed(w.large, w.small)
    && SmallRoles(w) && LargeRoles(w)
    && Paired(w.small, w.large) && Paired(w.large, w.small)
    && InFlight(w.small, w.large) && InFlight(w.large, w.small)
    && Posted(w.small, w.large) && Posted(w.large, w.small)
  }

  // The Setup a side started with and the Ack of its responder are on their way to the other.
  predicate Posted(to: Side, from: Side) {
    && (from.setup.Some? ==> SetupFrame(from.setup.value) in to.inbox)
    && (Responds(from, to) ==> AckFrame(from.session.value.fsp.sentAck.value) in to.inbox)
  }

  ghost predicate InFlight(to: Side, from: Side) {
    forall f {:trigger FromOther(to, from, f)} :: f in to.inbox ==> FromOther(to, from, f)
  }

  lemma BothUpIsCrossed(w: World)
    requires Invariant(w) && Up(w.small) && Up(w.large)
    ensures Crossed(w.small.session.value, w.large.session.value)
  {
  }

  // ---- Each step keeps the invariant ----

  // What `from` had sent it could still have sent.
  predicate KeepsSending(from: Side, to: Side, from': Side, to': Side) {
    && (from.setup.Some? ==> from'.setup == from.setup)
    && (Responds(from, to) ==> Responds(from', to') && from'.session.value.fsp.sentAck == from.session.value.fsp.sentAck)
    && (InitiatorUp(from, to) ==>
      && InitiatorUp(from', to') && from'.session.value.fsp.sentMsg3 == from.session.value.fsp.sentMsg3
      && (from.session.value.pending.Some? ==>
        from'.session.value.pending.Some?
        && from'.session.value.pending.value.sentAck == from.session.value.pending.value.sentAck))
  }

  lemma FlightKept(to: Side, from: Side, to': Side, from': Side, sent: Option<Frame>)
    requires InFlight(to, from) && KeepsSending(from, to, from', to') && to'.inbox == Put(to, sent).inbox
    requires sent.Some? ==> FromOther(to', from', sent.value)
    ensures InFlight(to', from')
  {
    forall f | f in to'.inbox ensures FromOther(to', from', f) {
      if f in to.inbox {
        assert FromOther(to, from, f);
      }
    }
  }

  // Two sessions that differ only in windows, counters and queue.
  predicate SameHandshake(s: Session, t: Session) {
    && t.fsp == s.fsp.(seen := t.fsp.seen, txCounter := t.fsp.txCounter)
    && t.pending == s.pending && t.kBit == s.kBit && t.previous == s.previous
  }

  lemma QuietStep(w: World, atSmall: bool, session: Session, sent: Option<Frame>)
    requires Invariant(w) && At(w, atSmall).session.Some? && SameHandshake(At(w, atSmall).session.value, session)
    requires ValidSession(At(w, !atSmall).local.self, session)
    requires sent.Some? ==> sent.value.RecordFrame?
    ensures Invariant(Acted(w, atSmall, At(w, atSmall).(session := Some(session)), sent))
  {
    hide ValidSession, InFlight;
    var me, other := At(w, atSmall), At(w, !atSmall);
    var me', other' := me.(session := Some(session)), Put(other, sent);
    FlightKept(me, other, me', other', None);
    FlightKept(other, me, other', me', sent);
  }

  lemma RecordArrives(w: World, atSmall: bool, r: Record, ctx: Context)
    requires Invariant(w) && ctx.peerAllowed
    ensures Invariant(Next(w, Arrives(atSmall, RecordFrame(r), ctx)))
  {
    hide ValidSession, InFlight, HandleEstablished;
    var me, other := At(w, atSmall), At(w, !atSmall);
    if me.session.Some? && ctx.nodeAllowed {
      RecordNeverRekeys(other.local.self, me.session.value, r, ctx.now);
      QuietStep(w, atSmall, HandleEstablished(me.session.value, r, ctx.now).0, None);
    }
  }

  lemma RecordIsSent(w: World, atSmall: bool, msgType: int, direct: bool, length: nat, body: nat)
    requires Invariant(w) && At(w, atSmall).session.Some?
    ensures Invariant(Next(w, Sends(atSmall, msgType, direct, length, body)))
  {
    hide InFlight;
    var s := At(w, atSmall).session.value;
    var (t, r) := SendRecord(s, msgType, direct, length, body);
    SendingKeepsInvariant(At(w, !atSmall).local.self, s, msgType, direct, length, body);
    hide SendRecord, ValidSession, Invariant;
    QuietStep(w, atSmall, t, if r.Ok? then Some(RecordFrame(r.value)) else None);
  }

  lemma Starting(w: World, atSmall: bool, ctx: Context)
    requires Invariant(w) && At(w, atSmall).setup.None?
    ensures Invariant(Next(w, Starts(atSmall, ctx)))
  {
    hide InFlight;
    var w' := Next(w, Starts(atSmall, ctx));
    var me, other := At(w, atSmall), At(w, !atSmall);
    var h := StartSession(me.local, other.local.self, me.session, ctx);
    StartKeepsInvariant(me.local, other.local.self, me.session, ctx);
    hide ValidSession;
    FlightKept(me, other, At(w', atSmall), At(w', !atSmall), None);
    FlightKept(other, me, At(w', !atSmall), At(w', atSmall), h.reply);
  }

  // A Setup reaches the side whose initiator wins and finds no session: a responder answers.
  lemma SetupToIdleSmall(w: World, setup: Setup, ctx: Context)
    requires Invariant(w) && ctx.nodeAllowed && w.large.setup == Some(setup) && w.small.session.None?
    ensures var h := HandleSetupFrame(w.small.local, w.large.local.self, w.small.session, setup, ctx);
      Invariant(Acted(w, true, w.small.(session := h.session), h.reply))
  {
    hide InFlight;
    var h := HandleSetupFrame(w.small.local, w.large.local.self, None, setup, ctx);
    var w' := Acted(w, true, w.small.(session := h.session), h.reply);
    SetupKeepsInvariant(w.small.local, w.large.local.self, None, setup, ctx);
    hide ValidSession;
    FlightKept(w.small, w.large, w'.small, w'.large, None);
    FlightKept(w.large, w.small, w'.large, w'.small, h.reply);
  }

  // It finds an attempt of its own under way, which it keeps.
  lemma SetupToStartingSmall(w: World, setup: Setup, ctx: Context)
    requires Invariant(w) && w.large.setup == Some(setup)
    requires w.small.session.Some? && w.small.session.value.fsp.state == Handshaking && w.small.session.value.fsp.role == Initiator
    ensures var h := HandleSetupFrame(w.small.local, w.large.local.self, w.small.session, setup, ctx);
      h.session == w.small.session && h.reply.None?
  {
    InitiatorReceivedNothing(w.small.session.value.fsp);
    hide InFlight, HandleSetup, ValidFsp;
  }

  // It finds an established session, beside which a pending one answers, or the session that answered it before.
  lemma SetupToAnsweringSmall(w: World, setup: Setup, ctx: Context)
    requires Invariant(w) && ctx.nodeAllowed && w.large.setup == Some(setup) && w.small.session.Some?
    requires w.small.session.value.fsp.state == Established || w.small.session.value.fsp.role == Responder
    ensures var h := HandleSetupFrame(w.small.local, w.large.local.self, w.small.session, setup, ctx);
      Invariant(Acted(w, true, w.small.(session := h.session), h.reply))
  {
    hide InFlight;
    var h := HandleSetupFrame(w.small.local, w.large.local.self, w.small.session, setup, ctx);
    var w' := Acted(w, true, w.small.(session := h.session), h.reply);
    SetupKeepsInvariant(w.small.local, w.large.local.self, w.small.session, setup, ctx);
    hide ValidSession;
    FlightKept(w.small, w.large, w'.small, w'.large, None);
    FlightKept(w.large, w.small, w'.large, w'.small, h.reply);
  }

  lemma SetupToSmall(w: World, setup: Setup, ctx: Context)
    requires Invariant(w) && ctx.nodeAllowed && w.large.setup == Some(setup)
    ensures var h := HandleSetupFrame(w.small.local, w.large.local.self, w.small.session, setup, ctx);
      Invariant(Acted(w, true, w.small.(session := h.session), h.reply))
  {
    hide Invariant, HandleSetupFrame;
    if w.small.session.None? {
      SetupToIdleSmall(w, setup, ctx);
    } else if w.small.session.value.fsp.state == Handshaking && w.small.session.value.fsp.role == Initiator {
      SetupToStartingSmall(w, setup, ctx);
      Unmoved(w, true);
    } else {
      SmallIsUp(w);
      SetupToAnsweringSmall(w, setup, ctx);
    }
  }

  lemma SmallIsUp(w: World)
    requires Invariant(w) && w.small.session.Some?
    ensures w.small.session.value.fsp.state == Handshaking || w.small.session.value.fsp.state == Established
  {
  }

  lemma SetupToLarge(w: World, setup: Setup, ctx: Context)
    requires Invariant(w) && ctx.nodeAllowed && w.small.setup == Some(setup)
    ensures var h := HandleSetupFrame(w.large.local, w.small.local.self, w.large.session, setup, ctx);
      Invariant(Acted(w, false, w.large.(session := h.session), h.reply))
  {
    hide InFlight;
    var h := HandleSetupFrame(w.large.local, w.small.local.self, w.large.session, setup, ctx);
    var w' := Acted(w, false, w.large.(session := h.session), h.reply);
    SetupKeepsInvariant(w.large.local, w.small.local.self, w.large.session, setup, ctx);
    hide ValidSession;
    FlightKept(w.large, w.small, w'.large, w'.small, None);
    FlightKept(w.small, w.large, w'.small, w'.large, h.reply);
  }

  lemma AckArrives(w: World, atSmall: bool, ack: Ack, ctx: Context)
    requires Invariant(w) && FromOther(At(w, atSmall), At(w, !atSmall), AckFrame(ack)) && At(w, atSmall).session.Some?
    ensures var h := HandleAckFrame(At(w, atSmall).session.value, ack);
      Invariant(Acted(w, atSmall, At(w, atSmall).(session := h.session), h.reply))
  {
    hide InFlight;
    var me, other := At(w, atSmall), At(w, !atSmall);
    var h := HandleAckFrame(me.session.value, ack);
    var w' := Acted(w, atSmall, me.(session := h.session), h.reply);
    AckKeepsValid(other.local.self, me.session.value, ack);
    FspOutcomes.AckOutcome(other.local.self, me.session.value, ack);
    hide ValidSession, HandleAckFrame, HandleAck;
    FlightKept(me, other, At(w', atSmall), At(w', !atSmall), None);
    FlightKept(other, me, At(w', !atSmall), At(w', atSmall), h.reply);
  }

  // A Msg3 in flight finds the responder it was made for.
  lemma Msg3FindsResponder(w: World, atSmall: bool, m: Msg3)
    requires Invariant(w) && FromOther(At(w, atSmall), At(w, !atSmall), Msg3Frame(m))
    ensures var me, other := At(w, atSmall), At(w, !atSmall);
      && Responds(me, other) && m.agreement.initiator == other.local.self
      && me.session.value.fsp.sentAck == other.session.value.fsp.receivedAck
  {
  }

  lemma Msg3Arrives(w: World, atSmall: bool, m: Msg3, ctx: Context)
    requires Invariant(w) && FromOther(At(w, atSmall), At(w, !atSmall), Msg3Frame(m)) && ctx.peerAllowed
    ensures At(w, atSmall).session.Some?
    ensures var h := HandleMsg3Frame(At(w, !atSmall).local.self, At(w, atSmall).session.value, m, ctx);
      Invariant(Acted(w, atSmall, At(w, atSmall).(session := h.session), h.reply))
  {
    Msg3FindsResponder(w, atSmall, m);
    var me, other := At(w, atSmall), At(w, !atSmall);
    var src, s := other.local.self, me.session.value;
    var (fsp, r) := HandleMsg3(s.fsp, m);
    Msg3Outcome(s.fsp, m);
    if r.Ok? {
      var mid := AfterMsg3(s, fsp, ctx.now);
      AfterMsg3IsValid(src, s, m, ctx);
      DrainEarlyKeepsInvariant(src, mid, ctx.now);
      Msg3Accepted(w, atSmall, m, mid);
      hide HandleMsg3, DrainEarly, ValidSession, Invariant;
      var end := DrainEarly(mid, ctx.now).0;
      var me' := me.(session := Some(mid));
      assert At(Acted(w, atSmall, me', None), !atSmall) == other;
      QuietStep(Acted(w, atSmall, me', None), atSmall, end, None);
    }
  }

  // The responder as Msg3 leaves it, its queue not yet drained.
  lemma Msg3Accepted(w: World, atSmall: bool, m: Msg3, mid: Session)
    requires Invariant(w) && FromOther(At(w, atSmall), At(w, !atSmall), Msg3Frame(m)) && At(w, atSmall).session.Some?
    requires var s := At(w, atSmall).session.value;
      && HandleMsg3(s.fsp, m).1.Ok?
      && mid == s.(fsp := HandleMsg3(s.fsp, m).0, remotePubkey := HandleMsg3(s.fsp, m).0.remote)
    requires ValidSession(At(w, !atSmall).local.self, mid)
    ensures Invariant(Acted(w, atSmall, At(w, atSmall).(session := Some(mid)), None))
  {
    Msg3FindsResponder(w, atSmall, m);
    hide ValidSession, InFlight;
    var me, other := At(w, atSmall), At(w, !atSmall);
    var me' := me.(session := Some(mid));
    FlightKept(me, other, me', other, None);
    FlightKept(other, me, other, me', None);
  }

  lemma FrameArrives(w: World, atSmall: bool, frame: Frame, ctx: Context)
    requires Invariant(w) && Possible(w, Arrives(atSmall, frame, ctx)) && ctx.nodeAllowed && !frame.RecordFrame?
    ensures Invariant(Next(w, Arrives(atSmall, frame, ctx)))
  {
    var me, other := At(w, atSmall), At(w, !atSmall);
    if !frame.UnknownFrame? {
      assert FromOther(me, other, frame);
    }
    hide Invariant, HandleSetupFrame, HandleAckFrame, HandleMsg3Frame;
    match frame {
      case SetupFrame(setup) =>
        if atSmall {
          SetupToSmall(w, setup, ctx);
        } else {
          SetupToLarge(w, setup, ctx);
        }
      case AckFrame(ack) =>
        if me.session.Some? {
          AckArrives(w, atSmall, ack, ctx);
        } else {
          Unmoved(w, atSmall);
        }
      case Msg3Frame(m) => Msg3Arrives(w, atSmall, m, ctx);
      case UnknownFrame => Unmoved(w, atSmall);
    }
  }

  lemma Unmoved(w: World, atSmall: bool)
    ensures Acted(w, atSmall, At(w, atSmall).(session := At(w, atSmall).session), None) == w
  {
  }

  lemma StepKeepsInvariant(w: World, event: Event)
    requires Invariant(w) && Possible(w, event)
    ensures Invariant(Next(w, event))
  {
    hide Invariant;
    match event {
      case Starts(atSmall, ctx) => Starting(w, atSmall, ctx);
      case Sends(atSmall, msgType, direct, length, body) => RecordIsSent(w, atSmall, msgType, direct, length, body);
      case Arrives(atSmall, frame, ctx) =>
        if !ctx.nodeAllowed {
          Unmoved(w, atSmall);
        } else if frame.RecordFrame? {
          RecordArrives(w, atSmall, frame.record, ctx);
        } else {
          FrameArrives(w, atSmall, frame, ctx);
        }
    }
  }

  lemma {:induction false} RunKeepsInvariant(w: World, events: seq<Event>, end: World)
    requires Invariant(w) && Run(w, events, end)
    ensures Invariant(end)
    decreases |events|
  {
    hide Invariant;
    if events != [] {
      StepKeepsInvariant(w, events[0]);
      RunKeepsInvariant(Next(w, events[0]), events[1..], end);
    }
  }

  // No split brain: whenever both sides are up, in any run, exactly one of them initiated and their keys cross.
  lemma NoSplitBrain(w: World, events: seq<Event>, end: World)
    requires Initial(w) && Run(w, events, end) && Up(end.small) && Up(end.large)
    ensures Crossed(end.small.session.value, end.large.session.value)
  {
    RunKeepsInvariant(w, events, end);
    BothUpIsCrossed(end);
  }

  // Msg3 may be lost: as long as the responder waits, its Ack delivered once more brings the same Msg3, and that brings
  // the responder up.
  lemma LostMsg3IsReplayed(w: World, events: seq<Event>, end: World, atSmall: bool, ctx: Context)
    requires Initial(w) && Run(w, events, end) && ctx.nodeAllowed && ctx.peerAllowed
    requires var me, other := At(end, atSmall), At(end, !atSmall);
      && Up(me) && me.session.value.fsp.role == Initiator
      && other.session.Some? && other.session.value.fsp.state == Handshaking
    ensures At(end, !atSmall).session.value.fsp.sentAck.Some?
    ensures var ack := AckFrame(At(end, !atSmall).session.value.fsp.sentAck.value);
      var h := HandleFrame(At(end, atSmall).local, At(end, !atSmall).local.self, At(end, atSmall).session, ack, ctx);
      && h.session == At(end, atSmall).session && h.reply.Some? && h.reply.value.Msg3Frame?
      && var g := HandleFrame(At(end, !atSmall).local, At(end, atSmall).local.self, At(end, !atSmall).session, h.reply.value, ctx);
      && g.ok && g.session.Some? && g.session.value.fsp.state == Established
  {
    RunKeepsInvariant(w, events, end);
    var me, other := At(end, atSmall), At(end, !atSmall);
    var m := me.session.value.fsp.sentMsg3.value;
    Msg3FindsResponder(end, !atSmall, m);
    Msg3Outcome(other.session.value.fsp, m);
    var fsp := HandleMsg3(other.session.value.fsp, m).0;
    AfterMsg3IsValid(me.local.self, other.session.value, m, ctx);
    DrainEarlyKeepsInvariant(me.local.self, AfterMsg3(other.session.value, fsp, ctx.now), ctx.now);
  }

  // ---- Progress ----

  predicate Admits(ctx: Context) {
    ctx.nodeAllowed && ctx.peerAllowed
  }

  // A responder answers an initiator.
  lemma ResponderHasInitiator(w: World, atSmall: bool)
    requires Invariant(w) && Responds(At(w, atSmall), At(w, !atSmall))
    ensures Initiates(At(w, !atSmall), At(w, atSmall))
  {
    hide ValidSession, InFlight;
  }

  // Its Ack brings the initiator up, or brings the same Msg3 again.
  lemma AckBringsMsg3(w: World, atSmall: bool, ctx: Context)
    requires Invariant(w) && Admits(ctx) && Responds(At(w, atSmall), At(w, !atSmall))
    ensures At(w, atSmall).session.value.fsp.sentAck.Some?
    ensures var e := Arrives(!atSmall, AckFrame(At(w, atSmall).session.value.fsp.sentAck.value), ctx);
      && Possible(w, e)
      && var v := Next(w, e);
      && InitiatorUp(At(v, !atSmall), At(v, atSmall)) && At(v, !atSmall).session.value.fsp.keys.Some?
      && At(v, atSmall).session == At(w, atSmall).session && At(v, atSmall).local == At(w, atSmall).local
      && Msg3Frame(At(v, !atSmall).session.value.fsp.sentMsg3.value) in At(v, atSmall).inbox
  {
    ResponderHasInitiator(w, atSmall);
    hide InFlight;
  }

  lemma Msg3BringsResponderUp(w: World, atSmall: bool, ctx: Context)
    requires Invariant(w) && Admits(ctx) && InitiatorUp(At(w, !atSmall), At(w, atSmall)) && Responds(At(w, atSmall), At(w, !atSmall))
    requires Msg3Frame(At(w, !atSmall).session.value.fsp.sentMsg3.value) in At(w, atSmall).inbox
    requires At(w, atSmall).session.value.fsp.state == Handshaking
    ensures var e := Arrives(atSmall, Msg3Frame(At(w, !atSmall).session.value.fsp.sentMsg3.value), ctx);
      Possible(w, e) && Up(At(Next(w, e), atSmall)) && At(Next(w, e), !atSmall).session == At(w, !atSmall).session
  {
    var me, other := At(w, atSmall), At(w, !atSmall);
    var m := other.session.value.fsp.sentMsg3.value;
    Msg3FindsResponder(w, atSmall, m);
    Msg3Outcome(me.session.value.fsp, m);
    var fsp := HandleMsg3(me.session.value.fsp, m).0;
    AfterMsg3IsValid(other.local.self, me.session.value, m, ctx);
    DrainEarlyKeepsInvariant(other.local.self, AfterMsg3(me.session.value, fsp, ctx.now), ctx.now);
    hide InFlight, DrainEarly, ValidEpochs;
  }

  // From a responder still waiting: its Ack, then Msg3.
  lemma ResponderComesUp(w: World, atSmall: bool, ctx: Context) returns (events: seq<Event>, end: World)
    requires Invariant(w) && Admits(ctx) && Responds(At(w, atSmall), At(w, !atSmall))
    requires At(w, atSmall).session.value.fsp.state == Handshaking
    ensures Run(w, events, end) && |events| == 2 && Up(end.small) && Up(end.large)
  {
    AckBringsMsg3(w, atSmall, ctx);
    var first := Arrives(!atSmall, AckFrame(At(w, atSmall).session.value.fsp.sentAck.value), ctx);
    var v := Next(w, first);
    StepKeepsInvariant(w, first);
    UpHasResponder(v, !atSmall);
    Msg3BringsResponderUp(v, atSmall, ctx);
    var second := Arrives(atSmall, Msg3Frame(At(v, !atSmall).session.value.fsp.sentMsg3.value), ctx);
    events, end := [first, second], Next(v, second);
    hide Next, Invariant, Possible, Responds, InitiatorUp;
    assert [second][1..] == [] && Run(v, [second], end);
    assert events[1..] == [second] && events[0] == first;
  }

  lemma UpHasResponder(w: World, atSmall: bool)
    requires Invariant(w) && InitiatorUp(At(w, atSmall), At(w, !atSmall))
    ensures Responds(At(w, !atSmall), At(w, atSmall))
  {
  }

  // A Setup that finds no session, or finds the larger side's own attempt, is answered.
  lemma SetupIsAnswered(w: World, toSmall: bool, ctx: Context)
    requires Invariant(w) && Admits(ctx) && At(w, !toSmall).setup.Some?
    requires At(w, toSmall).session.Some? ==>
      !toSmall && w.large.session.value.fsp.role == Initiator && w.large.session.value.fsp.state == Handshaking
    ensures var e := Arrives(toSmall, SetupFrame(At(w, !toSmall).setup.value), ctx);
      && Possible(w, e) && var v := Next(w, e);
      && Responds(At(v, toSmall), At(v, !toSmall)) && At(v, toSmall).session.value.fsp.state == Handshaking
      && At(v, !toSmall).session == At(w, !toSmall).session
  {
    hide InFlight;
    if w.large.session.Some? && w.large.session.value.fsp.role == Initiator && w.large.session.value.fsp.state == Handshaking {
      InitiatorReceivedNothing(w.large.session.value.fsp);
    }
  }

  // Crossed setups: the side with the smaller address keeps its attempt and says nothing; the other gives its own up, answers,
  // and both come up.
  lemma CrossedSetups(w: World, ctx: Context)
    requires Invariant(w) && Admits(ctx) && w.small.session.Some? && w.large.session.Some?
    requires w.small.session.value.fsp.role == w.large.session.value.fsp.role == Initiator
    requires w.small.session.value.fsp.state == w.large.session.value.fsp.state == Handshaking
    ensures w.small.setup.Some? && w.large.setup.Some?
    ensures var e := Arrives(true, SetupFrame(w.large.setup.value), ctx); Possible(w, e) && Next(w, e) == w
    ensures var e := Arrives(false, SetupFrame(w.small.setup.value), ctx);
      && Possible(w, e) && var v := Next(w, e);
      && v.small.session == w.small.session && v.large.session.Some?
      && v.large.session.value.fsp.role == Responder && v.large.session.value.fsp.receivedSetup == w.small.setup
      && v.large.session.value.fsp.sentAck.Some? && AckFrame(v.large.session.value.fsp.sentAck.value) in v.small.inbox
  {
    BothInitiated(w);
    SetupToStartingSmall(w, w.large.setup.value, ctx);
    SetupIsAnswered(w, false, ctx);
    hide InFlight, HandleSetupFrame;
  }

  lemma BothInitiated(w: World)
    requires Invariant(w) && w.small.session.Some? && w.large.session.Some?
    requires w.small.session.value.fsp.role == w.large.session.value.fsp.role == Initiator
    ensures w.small.setup.Some? && w.large.setup.Some?
    ensures SetupFrame(w.large.setup.value) in w.small.inbox && SetupFrame(w.small.setup.value) in w.large.inbox
  {
    hide ValidSession, InFlight;
  }

  // As long as somebody has started, whatever was lost, repeated or crossed so far: at most three deliveries of frames already
  // sent bring both sides up, and crossed.
  lemma EveryStartComesUp(start: World, before: seq<Event>, w: World, ctx: Context) returns (events: seq<Event>, end: World)
    requires Initial(start) && Run(start, before, w) && (w.small.setup.Some? || w.large.setup.Some?) && Admits(ctx)
    ensures Run(w, events, end) && |events| <= 3 && Up(end.small) && Up(end.large)
    ensures Crossed(end.small.session.value, end.large.session.value)
  {
    RunKeepsInvariant(start, before, w);
    SomeoneWaits(w);
    hide Invariant, Next, Possible, Responds, InitiatorUp;
    if Up(w.small) && Up(w.large) {
      events, end := [], w;
      assert Run(w, events, end);
    } else if Waits(w, true) {
      events, end := ResponderComesUp(w, true, ctx);
    } else if Waits(w, false) {
      events, end := ResponderComesUp(w, false, ctx);
    } else {
      var toSmall := !w.small.setup.Some?;
      SetupIsAnswered(w, toSmall, ctx);
      var first := Arrives(toSmall, SetupFrame(At(w, !toSmall).setup.value), ctx);
      StepKeepsInvariant(w, first);
      var rest;
      rest, end := ResponderComesUp(Next(w, first), toSmall, ctx);
      events := [first] + rest;
      assert events[1..] == rest && events[0] == first;
    }
    RunKeepsInvariant(w, events, end);
    BothUpIsCrossed(end);
  }

  predicate Waits(w: World, atSmall: bool) {
    Responds(At(w, atSmall), At(w, !atSmall)) && At(w, atSmall).session.value.fsp.state == Handshaking
  }

  // Both are up, or a responder waits, or a Setup has not been answered yet.
  lemma SomeoneWaits(w: World)
    requires Invariant(w) && (w.small.setup.Some? || w.large.setup.Some?)
    ensures (Up(w.small) && Up(w.large)) || Waits(w, true) || Waits(w, false)
      || (w.small.setup.Some? && (w.large.session.Some? ==>
            w.large.session.value.fsp.role == Initiator && w.large.session.value.fsp.state == Handshaking))
      || (w.small.setup.None? && w.large.setup.Some? && w.small.session.None?)
  {
    hide InFlight;
  }
}
