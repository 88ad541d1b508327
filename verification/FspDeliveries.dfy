/**
 * What one node hands on from its sessions with another: no record twice, over all handshakes, epochs, restarts and
 * queued records (packages/core/src/node/FspSessionManager.ts, packages/core/src/fsp/session.ts).
 */
module FspDeliveries {
  import opened Wrappers
  import opened FspHandshakes
  import opened FspSessions

  // A record is known by the key that sealed it and its counter.
  datatype Id = Id(key: Key, counter: nat)

  // Which record a body came from.
  type Source = nat -> Id

  // The node's session, the bodies handed on, and the ephemeral keys it made.
  datatype Node = Node(session: Option<Session>, delivered: seq<nat>, used: set<nat>)

  datatype Event =
    | Starts(ctx: Context)
    | Closes
    | Arrives(frame: Frame, ctx: Context)

  predicate Tells(source: Source, r: FspHandshakes.Record) {
    r.intact && r.sealedBy.Some? ==> source(r.body) == Id(r.sealedBy.value, r.counter)
  }

  // Anything may arrive at any time; the ephemeral key of a call is new.
  predicate Possible(source: Source, x: Node, e: Event) {
    && (!e.Closes? ==> e.ctx.ephemeral !in x.used)
    && (e.Arrives? && e.frame.RecordFrame? ==> Tells(source, e.frame.record))
  }

  function Next(local: Local, src: NodeId, x: Node, e: Event): Node {
    match e
    case Starts(ctx) => Node(StartSession(local, src, x.session, ctx).session, x.delivered, x.used + {ctx.ephemeral})
    case Closes => x.(session := None)
    case Arrives(frame, ctx) =>
      var h := HandleFrame(local, src, x.session, frame, ctx);
      Node(h.session, x.delivered + h.delivered, x.used + {ctx.ephemeral})
  }

  predicate Run(source: Source, local: Local, src: NodeId, x: Node, events: seq<Event>, end: Node)
    decreases |events|
  {
    if events == [] then end == x
    else Possible(source, x, events[0]) && Run(source, local, src, Next(local, src, x, events[0]), events[1..], end)
  }

  // ---- The invariant ----

  // The ephemeral key this end gave to the handshake of a key it receives under.
  function Own(key: Key): nat {
    if key.fromInitiator then key.agreement.transcript.responderEphemeral else key.agreement.transcript.ephemeral
  }

  predicate Live(f: Fsp) {
    f.state == Handshaking || f.state == Established
  }

  function OwnEphemeral(f: Fsp): nat {
    if f.sentAck.Some? then f.sentAck.value.transcript.responderEphemeral
    else if f.sentMsg3.Some? then f.sentMsg3.value.agreement.transcript.ephemeral
    else if f.hs.Some? && f.hs.value.SentHello? then f.hs.value.ephemeral
    else 0
  }

  lemma ReceivesUnderOwn(f: Fsp)
    requires ValidFsp(f) && f.state == Established
    ensures f.keys.Some? && Own(f.keys.value.rx) == OwnEphemeral(f)
  {
  }

  // What was delivered under a handshake's keys is marked in its window; one that is not complete delivered nothing.
  ghost predicate Marks(source: Source, delivered: seq<nat>, f: Fsp) {
    Live(f) ==> forall b {:trigger source(b)} :: b in delivered && Own(source(b).key) == OwnEphemeral(f) ==>
      f.state == Established && source(b).counter in f.seen.accepted
  }

  predicate InUse(f: Fsp, used: set<nat>) {
    Live(f) ==> OwnEphemeral(f) in used
  }

  predicate Apart(f: Fsp, g: Fsp) {
    Live(f) && Live(g) ==> OwnEphemeral(f) != OwnEphemeral(g)
  }

  predicate AllTell(source: Source, records: seq<FspHandshakes.Record>) {
    forall i :: 0 <= i < |records| ==> Tells(source, records[i])
  }

  ghost predicate SessionMarks(source: Source, s: Session, delivered: seq<nat>, used: set<nat>) {
    && AllTell(source, s.early)
    && Marks(source, delivered, s.fsp) && InUse(s.fsp, used)
    && (s.pending.Some? ==>
      Marks(source, delivered, s.pending.value) && InUse(s.pending.value, used) && Apart(s.fsp, s.pending.value))
    && (s.previous.Some? ==>
      Marks(source, delivered, s.previous.value.fsp) && InUse(s.previous.value.fsp, used) && Apart(s.fsp, s.previous.value.fsp))
    && (s.pending.Some? && s.previous.Some? ==> Apart(s.pending.value, s.previous.value.fsp))
  }

  ghost predicate Once(source: Source, delivered: seq<nat>) {
    forall i, j :: 0 <= i < j < |delivered| ==> source(delivered[i]) != source(delivered[j])
  }

  ghost predicate UnderOwn(source: Source, delivered: seq<nat>, used: set<nat>) {
    forall b {:trigger source(b)} :: b in delivered ==> Own(source(b).key) in used
  }

  ghost predicate Invariant(source: Source, src: NodeId, x: Node) {
    && Once(source, x.delivered) && UnderOwn(source, x.delivered, x.used)
    && (x.session.Some? ==> ValidSession(src, x.session.value) && SessionMarks(source, x.session.value, x.delivered, x.used))
  }

  // ---- Records ----

  function Got(got: Result<Option<nat>>): seq<nat> {
    if got.Ok? && got.value.Some? then [got.value.value] else []
  }

  // A record that opens under f is marked there and was not before.
  lemma OpenedIsNew(source: Source, f: Fsp, r: FspHandshakes.Record, delivered: seq<nat>)
    requires ValidFsp(f) && Tells(source, r) && Marks(source, delivered, f)
    ensures var (g, got) := DecryptRecord(f, r);
      && OwnEphemeral(g) == OwnEphemeral(f) && Live(g) == Live(f) && Marks(source, delivered + Got(Received(got)), g)
      && (got.Ok? ==>
        && got.value == r.body && Live(f) && Own(source(r.body).key) == OwnEphemeral(f)
        && forall b :: b in delivered ==> source(b) != source(r.body))
  {
    if f.state == Established {
      ReceivesUnderOwn(f);
    }
  }

  lemma OthersStayMarked(source: Source, f: Fsp, g: Fsp, b: nat, delivered: seq<nat>)
    requires Marks(source, delivered, g) && Apart(f, g) && Live(f) && Own(source(b).key) == OwnEphemeral(f)
    ensures Marks(source, delivered + [b], g)
  {
  }

  lemma OnceMore(source: Source, delivered: seq<nat>, b: nat, used: set<nat>)
    requires Once(source, delivered) && UnderOwn(source, delivered, used)
    requires (forall d :: d in delivered ==> source(d) != source(b)) && Own(source(b).key) in used
    ensures Once(source, delivered + [b]) && UnderOwn(source, delivered + [b], used)
  {
    var more := delivered + [b];
    forall i, j | 0 <= i < j < |more| ensures source(more[i]) != source(more[j]) {
      if j == |delivered| {
        assert more[i] == delivered[i] && delivered[i] in delivered;
      }
    }
  }

  ghost predicate AllMarked(source: Source, s: Session, delivered: seq<nat>, used: set<nat>) {
    Once(source, delivered) && UnderOwn(source, delivered, used) && SessionMarks(source, s, delivered, used)
  }

  lemma OpenedUnderCurrent(source: Source, s: Session, r: FspHandshakes.Record, delivered: seq<nat>, used: set<nat>)
    requires ValidFsp(s.fsp) && Tells(source, r) && AllMarked(source, s, delivered, used)
    ensures var (f, got) := DecryptRecord(s.fsp, r); AllMarked(source, s.(fsp := f), delivered + Got(Received(got)), used)
  {
    OpenedIsNew(source, s.fsp, r, delivered);
    hide Marks, Once, UnderOwn, OwnEphemeral, Own, Tells, ValidFsp, DecryptRecord, Live, AllTell;
    var (f, got) := DecryptRecord(s.fsp, r);
    if got.Ok? {
      OnceMore(source, delivered, r.body, used);
      if s.pending.Some? {
        OthersStayMarked(source, s.fsp, s.pending.value, r.body, delivered);
      }
      if s.previous.Some? {
        OthersStayMarked(source, s.fsp, s.previous.value.fsp, r.body, delivered);
      }
    } else {
      assert delivered + [] == delivered;
    }
  }

  lemma OpenedUnderPrevious(source: Source, s: Session, r: FspHandshakes.Record, delivered: seq<nat>, used: set<nat>)
    requires s.previous.Some? && ValidFsp(s.previous.value.fsp) && Tells(source, r) && AllMarked(source, s, delivered, used)
    ensures var (f, got) := DecryptRecord(s.previous.value.fsp, r);
      AllMarked(source, s.(previous := Some(s.previous.value.(fsp := f))), delivered + Got(Received(got)), used)
  {
    var g := s.previous.value.fsp;
    OpenedIsNew(source, g, r, delivered);
    hide Marks, Once, UnderOwn, OwnEphemeral, Own, Tells, ValidFsp, DecryptRecord, Live, AllTell;
    var (f, got) := DecryptRecord(g, r);
    if got.Ok? {
      OnceMore(source, delivered, r.body, used);
      OthersStayMarked(source, g, s.fsp, r.body, delivered);
      if s.pending.Some? {
        OthersStayMarked(source, g, s.pending.value, r.body, delivered);
      }
    } else {
      assert delivered + [] == delivered;
    }
  }

  lemma QueuedIsMarked(source: Source, s: Session, r: FspHandshakes.Record, now: int, delivered: seq<nat>, used: set<nat>)
    requires AllMarked(source, s, delivered, used) && Tells(source, r)
    ensures AllMarked(source, QueueEarly(s, r).0, delivered + Got(QueueEarly(s, r).1), used)
    ensures AllMarked(source, PrunePrevious(s, now), delivered, used)
  {
    hide Marks, Once, UnderOwn, Tells, InUse, Apart;
    assert delivered + [] == delivered;
  }

  lemma RecordKeepsMarks(source: Source, src: NodeId, s: Session, r: FspHandshakes.Record, now: int, delivered: seq<nat>, used: set<nat>)
    requires ValidSession(src, s) && AllMarked(source, s, delivered, used) && Tells(source, r)
    ensures var (t, got) := HandleEstablished(s, r, now);
      ValidSession(src, t) && AllMarked(source, t, delivered + Got(got), used)
  {
    var p := PrunePrevious(s, now);
    RecordNeverRekeys(src, s, r, now);
    PruneKeepsInvariant(src, s, now);
    QueuedIsMarked(source, s, r, now, delivered, used);
    QueuedIsMarked(source, p, r, now, delivered, used);
    OpenedUnderCurrent(source, p, r, delivered, used);
    if p.previous.Some? {
      OpenedUnderPrevious(source, p, r, delivered, used);
    }
    assert delivered + [] == delivered;
    hide AllMarked, ValidFsp, DecryptRecord, QueueEarly, PrunePrevious, ValidQueue, Tells;
  }

  lemma {:induction false} DrainKeepsMarks(
    source: Source, src: NodeId, s: Session, records: seq<FspHandshakes.Record>, now: int, delivered: seq<nat>, used: set<nat>)
    requires ValidSession(src, s) && AllMarked(source, s, delivered, used) && AllTell(source, records)
    ensures var (t, got) := Drain(s, records, now); AllMarked(source, t, delivered + got, used)
    decreases |records|
  {
    hide AllMarked, ValidSession, HandleEstablished, Tells;
    if records == [] {
      assert delivered + [] == delivered;
    } else {
      var (t, got) := HandleEstablished(s, records[0], now);
      RecordKeepsMarks(source, src, s, records[0], now, delivered, used);
      DrainKeepsMarks(source, src, t, records[1..], now, delivered + Got(got), used);
      assert delivered + Got(got) + Drain(t, records[1..], now).1 == delivered + Drain(s, records, now).1;
    }
  }

  // ---- Handshake frames ----

  // g goes on with the handshake of f.
  predicate GoesOn(f: Fsp, g: Fsp) {
    Live(g) ==> Live(f) && OwnEphemeral(g) == OwnEphemeral(f) && (f.state == Established ==> g.state == Established) && g.seen == f.seen
  }

  lemma GoingOnStaysMarked(source: Source, delivered: seq<nat>, f: Fsp, g: Fsp, h: Fsp, used: set<nat>, e: nat)
    requires GoesOn(f, g)
    ensures Marks(source, delivered, f) ==> Marks(source, delivered, g)
    ensures InUse(f, used) ==> InUse(g, used + {e})
    ensures Apart(f, h) ==> Apart(g, h)
    ensures Apart(h, f) ==> Apart(h, g)
  {
  }

  // A handshake with a new ephemeral key.
  lemma NewHandshakeIsMarked(source: Source, delivered: seq<nat>, f: Fsp, other: Fsp, used: set<nat>)
    requires UnderOwn(source, delivered, used) && OwnEphemeral(f) !in used
    ensures Marks(source, delivered, f) && InUse(f, used + {OwnEphemeral(f)})
    ensures InUse(other, used) ==> Apart(other, f) && Apart(f, other)
  {
  }

  lemma MoreInUse(source: Source, s: Session, delivered: seq<nat>, used: set<nat>, e: nat)
    requires AllMarked(source, s, delivered, used)
    ensures AllMarked(source, s, delivered, used + {e})
  {
    hide Marks, Once, OwnEphemeral, Apart;
  }

  lemma AckGoesOn(f: Fsp, ack: Ack)
    requires ValidFsp(f)
    ensures GoesOn(f, HandleAck(f, ack).0)
  {
  }

  lemma Msg3GoesOn(f: Fsp, m: Msg3)
    requires ValidFsp(f)
    ensures GoesOn(f, HandleMsg3(f, m).0)
  {
  }

  lemma AnswerIsNew(local: Local, setup: Setup, ctx: Context)
    requires setup.intact
    ensures OwnEphemeral(HandleSetup(NewResponder(local), setup, ctx.ephemeral, ctx.coords).0) == ctx.ephemeral
  {
  }

  lemma StartIsNew(local: Local, dst: NodeId, ctx: Context)
    ensures OwnEphemeral(BuildSetup(NewFsp(local.self, Initiator, Some(dst), local.epoch), ctx.ephemeral, ctx.coords).0) == ctx.ephemeral
  {
  }

  lemma OnlyHandshakeIsMarked(source: Source, f: Fsp, remote: Option<NodeId>, delivered: seq<nat>, used: set<nat>)
    requires Once(source, delivered) && UnderOwn(source, delivered, used) && OwnEphemeral(f) !in used
    ensures AllMarked(source, NewSession(f).(remotePubkey := remote), delivered, used + {OwnEphemeral(f)})
  {
    NewHandshakeIsMarked(source, delivered, f, f, used);
    hide Marks, Once, OwnEphemeral, Apart, Own;
  }

  lemma NewPendingIsMarked(source: Source, s: Session, f: Fsp, delivered: seq<nat>, used: set<nat>)
    requires AllMarked(source, s, delivered, used) && OwnEphemeral(f) !in used
    ensures AllMarked(source, s.(pending := Some(f)), delivered, used + {OwnEphemeral(f)})
  {
    MoreInUse(source, s, delivered, used, OwnEphemeral(f));
    NewHandshakeIsMarked(source, delivered, f, s.fsp, used);
    if s.previous.Some? {
      NewHandshakeIsMarked(source, delivered, f, s.previous.value.fsp, used);
    }
    hide Marks, Once, OwnEphemeral, Apart, Own, InUse, UnderOwn;
  }

  // The local attempt gives way to the answer, or ends.
  lemma GivingWayIsMarked(source: Source, s: Session, f: Fsp, delivered: seq<nat>, used: set<nat>)
    requires AllMarked(source, s, delivered, used) && s.pending.None? && s.previous.None?
    ensures OwnEphemeral(f) !in used ==> AllMarked(source, s.(fsp := f), delivered, used + {OwnEphemeral(f)})
    ensures AllMarked(source, s.(fsp := ClosedFsp(s.fsp)), delivered, used)
  {
    if OwnEphemeral(f) !in used {
      NewHandshakeIsMarked(source, delivered, f, f, used);
      MoreInUse(source, s, delivered, used, OwnEphemeral(f));
    }
    hide Once, OwnEphemeral, Apart, Own, UnderOwn;
  }

  lemma SetupKeepsMarks(
    source: Source, local: Local, src: NodeId, session: Option<Session>, setup: Setup, ctx: Context,
    delivered: seq<nat>, used: set<nat>)
    requires Once(source, delivered) && UnderOwn(source, delivered, used) && ctx.ephemeral !in used
    requires session.Some? ==> ValidSession(src, session.value) && SessionMarks(source, session.value, delivered, used)
    ensures var h := HandleSetupFrame(local, src, session, setup, ctx);
      h.delivered == [] && (h.session.Some? ==> AllMarked(source, h.session.value, delivered, used + {ctx.ephemeral}))
  {
    var responder := HandleSetup(NewResponder(local), setup, ctx.ephemeral, ctx.coords).0;
    AnswerIsValid(local, setup, ctx);
    if setup.intact {
      AnswerIsNew(local, setup, ctx);
      OnlyHandshakeIsMarked(source, responder, None, delivered, used);
    }
    if session.Some? {
      var s := session.value;
      MoreInUse(source, s, delivered, used, ctx.ephemeral);
      if s.pending.Some? && Matches(s.pending.value, setup) {
        RepeatedOrClosed(s.pending.value, setup, ctx);
      } else if Matches(s.fsp, setup) {
        RepeatedOrClosed(s.fsp, setup, ctx);
      } else if s.fsp.state == Established {
        if setup.intact {
          NewPendingIsMarked(source, s, responder, delivered, used);
        }
      } else if s.fsp.state == Handshaking && s.fsp.role == Initiator {
        GivingWayIsMarked(source, s, responder, delivered, used);
        GivingWayIsMarked(source, s, responder, delivered, used + {ctx.ephemeral});
      }
    }
    hide AllMarked, SessionMarks, Once, UnderOwn, OwnEphemeral, HandleSetup, ValidFsp;
  }

  lemma AckKeepsMarks(source: Source, src: NodeId, s: Session, ack: Ack, delivered: seq<nat>, used: set<nat>, e: nat)
    requires ValidSession(src, s) && AllMarked(source, s, delivered, used)
    ensures AllMarked(source, HandleAckFrame(s, ack).session.value, delivered, used + {e})
  {
    var f, g := s.fsp, HandleAck(s.fsp, ack).0;
    AckGoesOn(f, ack);
    MoreInUse(source, s, delivered, used, e);
    GoingOnStaysMarked(source, delivered, f, g, if s.pending.Some? then s.pending.value else f, used, e);
    GoingOnStaysMarked(source, delivered, f, g, if s.previous.Some? then s.previous.value.fsp else f, used, e);
    hide Marks, Once, OwnEphemeral, Apart, Own, UnderOwn, InUse, GoesOn, HandleAck, ValidFsp;
  }

  // The session as Msg3 leaves it, its queue not yet drained.
  lemma Msg3KeepsMarks(source: Source, src: NodeId, s: Session, m: Msg3, now: int, delivered: seq<nat>, used: set<nat>, e: nat)
    requires ValidSession(src, s) && AllMarked(source, s, delivered, used)
    ensures AllMarked(source, AfterMsg3(s, HandleMsg3(HandshakeFsp(s), m).0, now), delivered, used + {e})
  {
    var f, g := HandshakeFsp(s), HandleMsg3(HandshakeFsp(s), m).0;
    Msg3GoesOn(f, m);
    MoreInUse(source, s, delivered, used, e);
    GoingOnStaysMarked(source, delivered, f, g, s.fsp, used, e);
    GoingOnStaysMarked(source, delivered, f, g, if s.previous.Some? then s.previous.value.fsp else f, used, e);
    ApartIsSymmetric(s.fsp, g);
    hide Marks, Once, OwnEphemeral, Apart, Own, UnderOwn, InUse, GoesOn, HandleMsg3, ValidFsp;
  }

  lemma ApartIsSymmetric(f: Fsp, g: Fsp)
    ensures Apart(f, g) <==> Apart(g, f)
  {
  }

  lemma Msg3FrameKeepsMarks(source: Source, src: NodeId, s: Session, m: Msg3, ctx: Context, delivered: seq<nat>, used: set<nat>)
    requires ValidSession(src, s) && AllMarked(source, s, delivered, used)
    ensures var h := HandleMsg3Frame(src, s, m, ctx);
      if h.session.Some? then AllMarked(source, h.session.value, delivered + h.delivered, used + {ctx.ephemeral}) else h.delivered == []
  {
    var (fsp, r) := HandleMsg3(HandshakeFsp(s), m);
    MoreInUse(source, s, delivered, used, ctx.ephemeral);
    assert delivered + [] == delivered;
    if r.Ok? && Admissible(s, src, fsp, ctx) {
      var t := AfterMsg3(s, fsp, ctx.now);
      AfterMsg3IsValid(src, s, m, ctx);
      Msg3KeepsMarks(source, src, s, m, ctx.now, delivered, used, ctx.ephemeral);
      DrainKeepsMarks(source, src, t.(early := [], earlyBytes := 0), t.early, ctx.now, delivered, used + {ctx.ephemeral});
    }
    hide Marks, Once, OwnEphemeral, Own, UnderOwn, InUse, HandleMsg3, ValidFsp, Drain, AfterMsg3, Apart;
  }

  // ---- Runs ----

  lemma NothingDelivered(source: Source, delivered: seq<nat>, used: set<nat>, e: nat)
    requires Once(source, delivered) && UnderOwn(source, delivered, used)
    ensures Once(source, delivered + []) && UnderOwn(source, delivered + [], used + {e})
  {
    assert delivered + [] == delivered;
  }

  lemma ArrivalKeepsInvariant(source: Source, local: Local, src: NodeId, x: Node, frame: Frame, ctx: Context)
    requires Invariant(source, src, x) && Possible(source, x, Arrives(frame, ctx))
    ensures Invariant(source, src, Next(local, src, x, Arrives(frame, ctx)))
  {
    FrameKeepsInvariant(local, src, x.session, frame, ctx);
    NothingDelivered(source, x.delivered, x.used, ctx.ephemeral);
    assert x.delivered + [] == x.delivered;
    hide ValidSession, Once, UnderOwn, SessionMarks, HandleSetupFrame, HandleMsg3Frame, HandleEstablished, HandleAckFrame;
    if ctx.nodeAllowed && frame.SetupFrame? {
      SetupKeepsMarks(source, local, src, x.session, frame.setup, ctx, x.delivered, x.used);
    } else if x.session.Some? {
      var s := x.session.value;
      MoreInUse(source, s, x.delivered, x.used, ctx.ephemeral);
      if ctx.nodeAllowed {
        match frame {
          case AckFrame(ack) =>
            assert HandleAckFrame(s, ack).delivered == [] && HandleAckFrame(s, ack).session.Some? by {
              NothingFromAck(s, ack);
            }
            AckKeepsMarks(source, src, s, ack, x.delivered, x.used, ctx.ephemeral);
          case Msg3Frame(m) => Msg3FrameKeepsMarks(source, src, s, m, ctx, x.delivered, x.used);
          case RecordFrame(r) => RecordKeepsMarks(source, src, s, r, ctx.now, x.delivered, x.used + {ctx.ephemeral});
          case _ =>
        }
      }
    }
  }

  lemma NothingFromAck(s: Session, ack: Ack)
    ensures HandleAckFrame(s, ack).delivered == [] && HandleAckFrame(s, ack).session.Some?
  {
  }

  lemma StartKeepsMarks(source: Source, local: Local, src: NodeId, x: Node, ctx: Context)
    requires Invariant(source, src, x) && Possible(source, x, Starts(ctx))
    ensures Invariant(source, src, Next(local, src, x, Starts(ctx)))
  {
    StartKeepsInvariant(local, src, x.session, ctx);
    NothingDelivered(source, x.delivered, x.used, ctx.ephemeral);
    assert x.delivered + [] == x.delivered;
    if x.session.Some? {
      MoreInUse(source, x.session.value, x.delivered, x.used, ctx.ephemeral);
    }
    var fsp := BuildSetup(NewFsp(local.self, Initiator, Some(src), local.epoch), ctx.ephemeral, ctx.coords).0;
    StartIsNew(local, src, ctx);
    OnlyHandshakeIsMarked(source, fsp, Some(src), x.delivered, x.used);
    hide ValidSession, Once, UnderOwn, SessionMarks, BuildSetup, NewFsp, OwnEphemeral;
  }

  lemma {:induction false} RunKeepsInvariant(source: Source, local: Local, src: NodeId, x: Node, events: seq<Event>, end: Node)
    requires Invariant(source, src, x) && Run(source, local, src, x, events, end)
    ensures Invariant(source, src, end)
    decreases |events|
  {
    if events != [] {
      match events[0] {
        case Starts(ctx) => StartKeepsMarks(source, local, src, x, ctx);
        case Closes =>
        case Arrives(frame, ctx) => ArrivalKeepsInvariant(source, local, src, x, frame, ctx);
      }
      hide Invariant, Possible, StartSession, HandleFrame;
      RunKeepsInvariant(source, local, src, Next(local, src, x, events[0]), events[1..], end);
    }
  }

  // However sessions are started, answered, rekeyed, replaced, drained and closed, and whatever is repeated, reordered or
  // forged, no record is handed on twice: no two bodies come from one counter of one key.
  lemma DeliveredOnce(source: Source, local: Local, src: NodeId, events: seq<Event>, end: Node)
    requires Run(source, local, src, Node(None, [], {}), events, end)
    ensures Once(source, end.delivered)
  {
    RunKeepsInvariant(source, local, src, Node(None, [], {}), events, end);
  }
}
