/**
 * A node that starts its session with another over again, and which records then still get through
 * (packages/core/src/node/FspSessionManager.ts).
 */
module FspRestarts {
  import opened Wrappers
  import opened ReplayWindows
  import opened FspHandshakes
  import opened FspSessions

  // ---- Which records get through after a change of epochs ----

  // A record one end of an agreement sealed under a K-bit.
  predicate SealedUnder(r: FspHandshakes.Record, key: Key, kBit: bool) {
    r.sealedBy == Some(key) && r.kBit == kBit && r.intact && r.innerIntact
  }

  predicate Delivers(s: Session, r: FspHandshakes.Record, now: int) {
    HandleEstablished(s, r, now).1 == Ok(Some(r.body))
  }

  // The keys of the earlier session are not the new ones: its handshake had other ephemerals.
  predicate OtherKeys(s: Session, a: Agreement) {
    s.fsp.keys.Some? && s.fsp.keys.value.rx.agreement != a
  }

  // The responder's session at any time after the change, while records only move windows and the draining epoch runs out.
  predicate RekeyedSince(s: Session, t: Session, a: Agreement, at: int) {
    && t.fsp.keys == Some(Split(a, Responder)) && t.pending.None?
    && if s.fsp.remoteEpoch != Some(a.initiatorEpoch) then t.kBit == false && t.previous.None?
       else
         && t.kBit == !s.kBit
         && (t.previous.Some? ==> PreviousMoved(Previous(s.fsp, s.kBit, at + FSP_REKEY_DRAIN_MS), t.previous.value))
  }

  lemma RekeyedStays(s: Session, t: Session, u: Session, a: Agreement, at: int, now: int)
    requires RekeyedSince(s, t, a, at) && OnlyWindowsMove(t, u, now)
    ensures RekeyedSince(s, u, a, at)
  {
  }

  // The initiator's session as its handshake leaves it, until it is closed.
  predicate InitiatedUnder(x: Session, a: Agreement) {
    && x.fsp.state == Established && x.fsp.keys == Some(Split(a, Initiator))
    && !x.kBit && x.pending.None? && x.previous.None?
  }

  // The two ends expect the same K-bit exactly if the initiator's epoch was new to the responder, or the responder's K-bit
  // was set before.
  predicate BitsAgree(s: Session, a: Agreement) {
    s.fsp.remoteEpoch != Some(a.initiatorEpoch) || s.kBit
  }

  // What the initiator seals is delivered, up to the window, exactly if the bits agree: otherwise it is tried under the
  // draining keys or under none.
  lemma InitiatorIsHeardExactlyIf(src: NodeId, s: Session, t: Session, a: Agreement, at: int, r: FspHandshakes.Record, now: int)
    requires ValidSession(src, t) && t.fsp.state == Established && RekeyedSince(s, t, a, at) && OtherKeys(s, a)
    requires SealedUnder(r, Key(a, true), false)
    ensures Delivers(t, r, now) <==> BitsAgree(s, a) && Fresh(t.fsp.seen, r.counter)
    ensures !BitsAgree(s, a) ==> HandleEstablished(t, r, now).1.Err?
  {
    hide ValidFsp;
  }

  // What the responder seals reaches the initiator exactly if the bits agree: otherwise it belongs to no epoch there.
  lemma ResponderIsHeardExactlyIf(s: Session, t: Session, a: Agreement, at: int, x: Session, r: FspHandshakes.Record, now: int)
    requires RekeyedSince(s, t, a, at) && InitiatedUnder(x, a) && SealedUnder(r, Key(a, false), t.kBit)
    ensures Delivers(x, r, now) <==> BitsAgree(s, a) && Fresh(x.fsp.seen, r.counter)
    ensures !BitsAgree(s, a) ==> HandleEstablished(x, r, now).1 == Err("epoch mismatch")
  {
  }

  // Records of the epoch before are delivered for the time of draining, if the remote epoch stayed the same, and never
  // after a restart under a new one.
  lemma OldRecordsDrain(src: NodeId, s: Session, t: Session, a: Agreement, at: int, r: FspHandshakes.Record, now: int)
    requires ValidSession(src, t) && t.fsp.state == Established && RekeyedSince(s, t, a, at) && OtherKeys(s, a)
    requires SealedUnder(r, s.fsp.keys.value.rx, s.kBit) && s.fsp.state == Established
    ensures Delivers(t, r, now) <==>
      && s.fsp.remoteEpoch == Some(a.initiatorEpoch) && t.previous.Some? && now < at + FSP_REKEY_DRAIN_MS
      && Fresh(t.previous.value.fsp.seen, r.counter)
  {
    hide ValidFsp;
  }

  // ---- Sessions started over and over ----

  // One session of the starter: its handshake with the other node, then records for both, from anyone, in any order. When
  // the next one begins, the starter has closed this one; the other node has not.
  datatype Episode = Episode(
    starter: Context, answerer: Context, toStarter: seq<FspHandshakes.Record>, toAnswerer: seq<FspHandshakes.Record>, now: int)

  function Sent(h: Handled): Frame {
    if h.reply.Some? then h.reply.value else UnknownFrame
  }

  // The four calls of one handshake, with the session that the answerer has.
  function Exchange(a: Local, b: Local, s: Option<Session>, e: Episode): (Option<Session>, Option<Session>) {
    var started := StartSession(a, b.self, None, e.starter);
    var answered := HandleFrame(b, a.self, s, Sent(started), e.answerer);
    var up := HandleFrame(a, b.self, started.session, Sent(answered), e.starter);
    var done := HandleFrame(b, a.self, answered.session, Sent(up), e.answerer);
    (up.session, done.session)
  }

  function WithRecords(s: Option<Session>, records: seq<FspHandshakes.Record>, now: int): Option<Session> {
    if s.Some? then Some(Drain(s.value, records, now).0) else None
  }

  // Both ends after all episodes, from managers without sessions.
  function After(a: Local, b: Local, episodes: seq<Episode>): (Option<Session>, Option<Session>) {
    if episodes == [] then (None, None)
    else
      var e := episodes[|episodes| - 1];
      var (x, y) := Exchange(a, b, After(a, b, episodes[..|episodes| - 1]).1, e);
      (WithRecords(x, e.toStarter, e.now), WithRecords(y, e.toAnswerer, e.now))
  }

  predicate Admitted(e: Episode) {
    e.starter.nodeAllowed && e.starter.peerAllowed && e.answerer.nodeAllowed && e.answerer.peerAllowed
  }

  function Agreed(a: Local, b: Local, e: Episode): Agreement {
    Agreement(Transcript(e.starter.ephemeral, b.self, e.answerer.ephemeral, b.epoch), a.self, a.epoch)
  }

  function StartedFsp(a: Local, b: Local, e: Episode): Fsp {
    BuildSetup(NewFsp(a.self, Initiator, Some(b.self), a.epoch), e.starter.ephemeral, e.starter.coords).0
  }

  function StartSetup(e: Episode): Setup {
    Setup(e.starter.ephemeral, true, e.starter.coords, true)
  }

  function AnsweredFsp(a: Local, b: Local, e: Episode): Fsp {
    HandleSetup(NewResponder(b), StartSetup(e), e.answerer.ephemeral, e.answerer.coords).0
  }

  function AnswerAck(b: Local, e: Episode): Ack {
    Ack(Transcript(e.starter.ephemeral, b.self, e.answerer.ephemeral, b.epoch), true, e.answerer.coords, true)
  }

  // The session that waits for Msg3: the only one, or the pending one of an established session.
  function Waiting(a: Local, b: Local, s: Option<Session>, e: Episode): Session {
    if s.Some? then s.value.(pending := Some(AnsweredFsp(a, b, e))) else NewSession(AnsweredFsp(a, b, e))
  }

  // The answerer's session before an episode: none, or up with the starter, from a handshake with another ephemeral.
  predicate Ready(a: Local, s: Session, e: Episode) {
    && ValidSession(a.self, s) && s.fsp.state == Established && s.fsp.keys.Some? && s.fsp.role == Responder && s.pending.None?
    && s.fsp.remoteEpoch == Some(a.epoch)
    && s.fsp.keys.value.rx.agreement.transcript.ephemeral != e.starter.ephemeral
    && s.fsp.receivedSetup.Some? && s.fsp.receivedSetup.value.ephemeral != e.starter.ephemeral
  }

  lemma StartsAndAnswers(a: Local, b: Local, s: Option<Session>, e: Episode)
    requires Admitted(e) && (s.Some? ==> Ready(a, s.value, e))
    ensures var started := StartSession(a, b.self, None, e.starter);
      && Sent(started) == SetupFrame(StartSetup(e))
      && started.session == Some(NewSession(StartedFsp(a, b, e)).(remotePubkey := Some(b.self)))
      && var answered := HandleFrame(b, a.self, s, Sent(started), e.answerer);
      && answered.session == Some(Waiting(a, b, s, e)) && Sent(answered) == AckFrame(AnswerAck(b, e))
  {
    hide ValidSession;
  }

  lemma AckBringsStarterUp(a: Local, b: Local, e: Episode)
    requires Admitted(e)
    ensures var started := NewSession(StartedFsp(a, b, e)).(remotePubkey := Some(b.self));
      var up := HandleFrame(a, b.self, Some(started), AckFrame(AnswerAck(b, e)), e.starter);
      && Sent(up) == Msg3Frame(Msg3(Agreed(a, b, e), true)) && up.session.Some? && InitiatedUnder(up.session.value, Agreed(a, b, e))
      && ValidSession(b.self, up.session.value) && up.session.value.fsp.seen == NOTHING_SEEN && up.session.value.early == []
  {
  }

  lemma WaitingIsValid(a: Local, b: Local, s: Option<Session>, e: Episode)
    requires s.Some? ==> Ready(a, s.value, e)
    ensures ValidSession(a.self, Waiting(a, b, s, e))
    ensures OpensMsg3(AnsweredFsp(a, b, e), Msg3(Agreed(a, b, e), true))
  {
    if s.Some? {
      AnswerIsValid(b, StartSetup(e), e.answerer);
    }
  }

  // The answerer's session after the handshake of an episode.
  predicate AnswererUp(a: Local, b: Local, y: Session, e: Episode) {
    && ValidSession(a.self, y) && y.fsp.state == Established && y.fsp.role == Responder && y.pending.None?
    && y.fsp.keys == Some(Split(Agreed(a, b, e), Responder))
    && y.fsp.remoteEpoch == Some(a.epoch) && y.fsp.receivedSetup == Some(StartSetup(e))
  }

  // Its K-bit: false at first, turned by every restart.
  predicate BitTurned(a: Local, b: Local, s: Option<Session>, y: Session, e: Episode) {
    if s.Some? then RekeyedSince(s.value, y, Agreed(a, b, e), e.answerer.now) else !y.kBit && y.previous.None?
  }

  lemma Msg3BringsAnswererUp(a: Local, b: Local, s: Option<Session>, e: Episode)
    requires Admitted(e) && (s.Some? ==> Ready(a, s.value, e))
    ensures var done := HandleFrame(b, a.self, Some(Waiting(a, b, s, e)), Msg3Frame(Msg3(Agreed(a, b, e), true)), e.answerer);
      done.session.Some? && AnswererUp(a, b, done.session.value, e) && BitTurned(a, b, s, done.session.value, e)
  {
    var w, m := Waiting(a, b, s, e), Msg3(Agreed(a, b, e), true);
    WaitingIsValid(a, b, s, e);
    Msg3Outcome(HandshakeFsp(w), m);
    var fsp := HandleMsg3(HandshakeFsp(w), m).0;
    assert fsp.receivedSetup == Some(StartSetup(e));
    AfterMsg3IsValid(a.self, w, m, e.answerer);
    DrainEarlyKeepsInvariant(a.self, AfterMsg3(w, fsp, e.answerer.now), e.answerer.now);
    hide ValidSession, ValidEpochs, HandleMsg3, DrainEarly, HandleSetup;
  }

  lemma ExchangeBringsBothUp(a: Local, b: Local, s: Option<Session>, e: Episode)
    requires Admitted(e) && (s.Some? ==> Ready(a, s.value, e))
    ensures var (x, y) := Exchange(a, b, s, e);
      && x.Some? && InitiatedUnder(x.value, Agreed(a, b, e)) && ValidSession(b.self, x.value)
      && y.Some? && AnswererUp(a, b, y.value, e) && BitTurned(a, b, s, y.value, e)
  {
    StartsAndAnswers(a, b, s, e);
    AckBringsStarterUp(a, b, e);
    Msg3BringsAnswererUp(a, b, s, e);
    hide HandleFrame, StartSession, StartedFsp, Waiting, InitiatedUnder, ValidSession, AnswererUp, BitTurned, Agreed, AnswerAck;
  }

  // Records between one start and the next change nothing of this.
  lemma RecordsKeepBothUp(a: Local, b: Local, s: Option<Session>, x: Session, y: Session, e: Episode)
    requires InitiatedUnder(x, Agreed(a, b, e)) && ValidSession(b.self, x)
    requires AnswererUp(a, b, y, e) && BitTurned(a, b, s, y, e)
    ensures var (x', y') := (WithRecords(Some(x), e.toStarter, e.now), WithRecords(Some(y), e.toAnswerer, e.now));
      && InitiatedUnder(x'.value, Agreed(a, b, e)) && ValidSession(b.self, x'.value)
      && AnswererUp(a, b, y'.value, e) && BitTurned(a, b, s, y'.value, e)
  {
    DrainNeverRekeys(b.self, x, e.toStarter, e.now);
    DrainNeverRekeys(a.self, y, e.toAnswerer, e.now);
    if s.Some? {
      RekeyedStays(s.value, y, Drain(y, e.toAnswerer, e.now).0, Agreed(a, b, e), e.answerer.now, e.now);
    }
    hide ValidSession, Drain, Agreed;
  }

  // No two sessions in a row start with the same ephemeral key.
  predicate AllFresh(episodes: seq<Episode>) {
    && (forall e :: e in episodes ==> Admitted(e))
    && forall i :: 0 <= i < |episodes| - 1 ==> episodes[i].starter.ephemeral != episodes[i + 1].starter.ephemeral
  }

  lemma UpIsReady(a: Local, b: Local, y: Session, e: Episode, next: Episode)
    requires AnswererUp(a, b, y, e) && e.starter.ephemeral != next.starter.ephemeral
    ensures Ready(a, y, next)
  {
  }

  ghost predicate EndOf(a: Local, b: Local, s: Option<Session>, x: Option<Session>, y: Option<Session>, e: Episode) {
    && x.Some? && InitiatedUnder(x.value, Agreed(a, b, e)) && ValidSession(b.self, x.value)
    && y.Some? && AnswererUp(a, b, y.value, e) && BitTurned(a, b, s, y.value, e)
  }

  function Before(a: Local, b: Local, episodes: seq<Episode>): Option<Session>
    requires episodes != []
  {
    After(a, b, episodes[..|episodes| - 1]).1
  }

  // Every start succeeds, and the answerer's K-bit is set after every second one.
  lemma {:induction false} EveryStartSucceeds(a: Local, b: Local, episodes: seq<Episode>)
    requires episodes != [] && AllFresh(episodes)
    ensures var (x, y) := After(a, b, episodes);
      && EndOf(a, b, Before(a, b, episodes), x, y, episodes[|episodes| - 1]) && y.value.kBit == (|episodes| % 2 == 0)
      && (Before(a, b, episodes).Some? ==>
        Ready(a, Before(a, b, episodes).value, episodes[|episodes| - 1]) && Before(a, b, episodes).value.kBit == (|episodes| % 2 == 1))
      && (Before(a, b, episodes).None? ==> |episodes| == 1)
    decreases |episodes|
  {
    hide InitiatedUnder, ValidSession, Exchange, Drain, Ready;
    var e := episodes[|episodes| - 1];
    var earlier := episodes[..|episodes| - 1];
    var s := Before(a, b, episodes);
    if earlier != [] {
      EveryStartSucceeds(a, b, earlier);
      var last := earlier[|earlier| - 1];
      assert last.starter.ephemeral != e.starter.ephemeral;
      UpIsReady(a, b, s.value, last, e);
    }
    var (x, y) := Exchange(a, b, s, e);
    ExchangeBringsBothUp(a, b, s, e);
    RecordsKeepBothUp(a, b, s, x.value, y.value, e);
    assert After(a, b, episodes) == (WithRecords(x, e.toStarter, e.now), WithRecords(y, e.toAnswerer, e.now));
    TurnedBit(a, b, s, After(a, b, episodes).1.value, e);
  }

  lemma TurnedBit(a: Local, b: Local, s: Option<Session>, y: Session, e: Episode)
    requires BitTurned(a, b, s, y, e) && (s.Some? ==> Ready(a, s.value, e))
    ensures y.kBit == (s.Some? && !s.value.kBit)
  {
  }

  // What a session sends under its present keys and K-bit.
  lemma SentIsSealed(src: NodeId, s: Session, msgType: int, direct: bool, length: nat, body: nat)
    requires ValidSession(src, s) && SendRecord(s, msgType, direct, length, body).1.Ok?
    ensures s.fsp.keys.Some? && SealedUnder(SendRecord(s, msgType, direct, length, body).1.value, s.fsp.keys.value.tx, s.kBit)
  {
    SendingKeepsInvariant(src, s, msgType, direct, length, body);
  }

  // A node that starts over and over in one epoch: after an odd number of sessions the two ends hear each other, after an
  // even number neither hears anything from the other, whatever records came before.
  lemma RestartsAlternate(a: Local, b: Local, episodes: seq<Episode>, msgType: int, direct: bool, length: nat, body: nat, now: int)
    requires episodes != [] && AllFresh(episodes)
    ensures var (x, y) := After(a, b, episodes);
      && x.Some? && y.Some?
      && (x.value.kBit == y.value.kBit <==> |episodes| % 2 == 1)
      && var (toY, toX) := (SendRecord(x.value, msgType, direct, length, body).1, SendRecord(y.value, msgType, direct, length, body).1);
      && (toY.Ok? ==> (Delivers(y.value, toY.value, now) <==> |episodes| % 2 == 1 && Fresh(y.value.fsp.seen, toY.value.counter)))
      && (toX.Ok? ==> (Delivers(x.value, toX.value, now) <==> |episodes| % 2 == 1 && Fresh(x.value.fsp.seen, toX.value.counter)))
  {
    EveryStartSucceeds(a, b, episodes);
    var (x, y) := After(a, b, episodes);
    var e, s := episodes[|episodes| - 1], Before(a, b, episodes);
    var (toY, toX) := (SendRecord(x.value, msgType, direct, length, body).1, SendRecord(y.value, msgType, direct, length, body).1);
    if toY.Ok? {
      SentIsSealed(b.self, x.value, msgType, direct, length, body);
      HeardAtAnswerer(a, b, s, y.value, e, toY.value, now);
    }
    if toX.Ok? {
      SentIsSealed(a.self, y.value, msgType, direct, length, body);
      HeardAtStarter(a, b, s, x.value, y.value, e, toX.value, now);
    }
    hide After, SendRecord, Delivers, ValidSession, Ready, BitTurned;
  }

  lemma HeardAtAnswerer(a: Local, b: Local, s: Option<Session>, y: Session, e: Episode, r: FspHandshakes.Record, now: int)
    requires AnswererUp(a, b, y, e) && BitTurned(a, b, s, y, e) && (s.Some? ==> Ready(a, s.value, e))
    requires SealedUnder(r, Key(Agreed(a, b, e), true), false)
    ensures Delivers(y, r, now) <==> (s.Some? ==> s.value.kBit) && Fresh(y.fsp.seen, r.counter)
  {
    if s.Some? {
      InitiatorIsHeardExactlyIf(a.self, s.value, y, Agreed(a, b, e), e.answerer.now, r, now);
    }
  }

  lemma HeardAtStarter(a: Local, b: Local, s: Option<Session>, x: Session, y: Session, e: Episode, r: FspHandshakes.Record, now: int)
    requires AnswererUp(a, b, y, e) && BitTurned(a, b, s, y, e) && (s.Some? ==> Ready(a, s.value, e))
    requires InitiatedUnder(x, Agreed(a, b, e)) && SealedUnder(r, Key(Agreed(a, b, e), false), y.kBit)
    ensures Delivers(x, r, now) <==> (s.Some? ==> s.value.kBit) && Fresh(x.fsp.seen, r.counter)
  {
    if s.Some? {
      ResponderIsHeardExactlyIf(s.value, y, Agreed(a, b, e), e.answerer.now, x, r, now);
    }
  }

  // The shortest run that ends apart: one session is up, the starter closes it and starts again.
  lemma SecondStartEndsApart()
    ensures var first := Episode(Context(0, 1, 0, true, true), Context(0, 2, 0, true, true), [], [], 0);
      var second := Episode(Context(5, 3, 0, true, true), Context(5, 4, 0, true, true), [], [], 5);
      var (x, y) := After(Local(1, 10), Local(2, 20), [first, second]);
      x.Some? && y.Some? && x.value.fsp.state == y.value.fsp.state == Established && !x.value.kBit && y.value.kBit
  {
    hide After, InitiatedUnder, ValidSession;
    var first := Episode(Context(0, 1, 0, true, true), Context(0, 2, 0, true, true), [], [], 0);
    var second := Episode(Context(5, 3, 0, true, true), Context(5, 4, 0, true, true), [], [], 5);
    EveryStartSucceeds(Local(1, 10), Local(2, 20), [first, second]);
    var x := After(Local(1, 10), Local(2, 20), [first, second]).0.value;
    InitiatedIsUp(x, Agreed(Local(1, 10), Local(2, 20), second));
  }

  lemma InitiatedIsUp(x: Session, a: Agreement)
    requires InitiatedUnder(x, a)
    ensures x.fsp.state == Established && !x.kBit
  {
  }
}
