/**
 * When each frame of a session takes effect, and what it then leaves (packages/core/src/fsp/session.ts and
 * packages/core/src/node/FspSessionManager.ts): the conditions on what a node holds and what arrives, all of them.
 */
module FspOutcomes {
  import opened Wrappers
  import opened ReplayWindows
  import opened FspHandshakes
  import opened FspSessions
  import FspWire

  // ---- One end by itself ----

  // A Setup is built exactly by an initiator that knows whom to reach and has not begun; a second try is refused, though the
  // end is handshaking by then.
  lemma SetupBuiltExactlyIf(f: Fsp, ephemeral: nat, coords: nat)
    ensures var (g, r) := BuildSetup(f, ephemeral, coords);
      if f.role != Initiator || f.remote.None? || f.hs.None? then g == f && r.Err?
      else if f.hs != Some(Start) then g == f.(state := Handshaking) && r.Err?
      else g == f.(state := Handshaking, hs := Some(SentHello(ephemeral))) && r == Ok(Setup(ephemeral, true, coords, true))
  {
  }

  // A Setup is answered exactly by a responder, if it is whole and the first, or the one answered before.
  lemma SetupAnsweredExactlyIf(f: Fsp, setup: Setup, ephemeral: nat, coords: nat)
    requires ValidFsp(f)
    ensures var (g, r) := HandleSetup(f, setup, ephemeral, coords);
      var t := Transcript(setup.ephemeral, f.self, ephemeral, f.localEpoch);
      if f.receivedSetup == Some(setup) then g == f && r == Ok(f.sentAck.value)
      else if f.role == Responder && f.receivedSetup.None? && f.hs == Some(Start) && setup.intact then
        && r == Ok(Ack(t, true, coords, true))
        && g == f.(state := Handshaking, hs := Some(Answered(t)), remoteDirect := setup.direct, receivedSetup := Some(setup),
                   sentAck := Some(Ack(t, true, coords, true)))
      else g == f && r.Err?
  {
  }

  // A record is read exactly by an established end that has not seen its counter, if it is whole and sealed for this end; the
  // counter is then seen, also if what was sealed does not decode.
  lemma RecordReadExactlyIf(f: Fsp, r: Record, body: nat)
    requires ValidFsp(f)
    ensures var (g, got) := DecryptRecord(f, r);
      var opens := f.state == Established && r.intact && Unseen(f, r.counter) && f.keys.Some? && r.sealedBy == Some(f.keys.value.rx);
      && (got == Ok(body) <==> opens && r.innerIntact && r.body == body)
      && g == if opens then f.(seen := Seen(if r.counter > f.seen.high then r.counter else f.seen.high,
                                            f.seen.accepted + {r.counter})) else f
  {
  }

  // ---- Records ----

  // The end of the session that a record's K-bit speaks to: the current one, or one that still drains.
  function Holder(s: Session, r: Record, now: int): Option<Fsp> {
    if r.kBit == s.kBit then Some(s.fsp)
    else if s.pending.None? && s.previous.Some? && now < s.previous.value.expiresAt then Some(s.previous.value.fsp)
    else None
  }

  // Not seen yet, and less than 2048 below the highest seen.
  predicate Unseen(f: Fsp, counter: nat) {
    counter < 0xffff_ffff_ffff_ffff && counter !in f.seen.accepted && f.seen.high - counter < 2048
  }

  // A record is handed on exactly if the session is up, the record is whole and sealed under the receiving key of the end its
  // K-bit speaks to, and its counter is new there.
  lemma HandedOnExactlyIf(src: NodeId, s: Session, r: Record, now: int, body: nat)
    requires ValidSession(src, s)
    ensures var holder := Holder(s, r, now);
      HandleEstablished(s, r, now).1 == Ok(Some(body)) <==>
        && s.fsp.state == Established && r.intact && r.innerIntact && r.body == body && holder.Some?
        && r.sealedBy == Some(holder.value.keys.value.rx) && Unseen(holder.value, r.counter)
  {
    hide Sizes;
    if s.fsp.state == Established {
      EstablishedHasKeys(s.fsp);
      if s.previous.Some? {
        EstablishedHasKeys(s.previous.value.fsp);
      }
    }
    hide ValidFsp;
  }

  lemma EstablishedHasKeys(f: Fsp)
    requires ValidFsp(f) && f.state == Established
    ensures f.keys.Some?
  {
  }

  // A record waits exactly while a handshake is under way that it may belong to, if it is whole and leaves at most sixteen
  // records of at most 64 KiB waiting.
  lemma WaitsExactlyIf(src: NodeId, s: Session, r: Record, now: int)
    requires ValidSession(src, s)
    ensures var (t, got) := HandleEstablished(s, r, now);
      got == Ok(None) <==>
        && (s.fsp.state == Handshaking || (s.fsp.state == Established && r.kBit != s.kBit && s.pending.Some?))
        && r.intact && |s.early| < 16 && s.earlyBytes + r.size <= 65536
    ensures var (t, got) := HandleEstablished(s, r, now);
      if got == Ok(None) then t.early == s.early + [r] && t.earlyBytes == s.earlyBytes + r.size
      else t.early == s.early && t.earlyBytes == s.earlyBytes
  {
    hide ValidFsp, Sizes, Fresh;
  }

  // A record is sealed exactly if the session is up, its type is a byte, counters are left, and it fits 65535 bytes with
  // its inner header; it carries the session's K-bit, the direct-transport flag if asked for, the next counter and the sending
  // key. The counter is used up as soon as the first three hold.
  lemma SealedExactlyIf(src: NodeId, s: Session, msgType: int, direct: bool, length: nat, body: nat)
    requires ValidSession(src, s)
    ensures var (t, r) := SendRecord(s, msgType, direct, length, body);
      var counted := s.fsp.state == Established && 0 <= msgType < 256 && s.fsp.txCounter < 0xffff_ffff_ffff_ffff;
      && t == s.(fsp := s.fsp.(txCounter := s.fsp.txCounter + if counted then 1 else 0))
      && (r.Ok? <==> counted && length + 6 <= 65535)
      && (r.Ok? ==> s.fsp.keys.Some?
                    && r.value == Record(Some(s.fsp.keys.value.tx), s.kBit, direct, s.fsp.txCounter, length + 34, msgType, body,
                                         true, true))
  {
    if s.fsp.state == Established {
      EstablishedHasKeys(s.fsp);
    }
    hide ValidFsp, FspWire.HasFlag;
  }

  // The flags a caller may pass are 0, 2, 8 and 10.
  lemma FlagsAre(flags: int)
    ensures AllowedFlags(flags) <==> flags in {0, 2, 8, 10}
  {
  }

  // ---- Setups ----

  // What the answer to a Setup says, and the responder's end that gives it.
  function Offered(local: Local, setup: Setup, ctx: Context): Transcript {
    Transcript(setup.ephemeral, local.self, ctx.ephemeral, local.epoch)
  }

  function Answering(local: Local, setup: Setup, ctx: Context): Fsp {
    var t := Offered(local, setup, ctx);
    Fsp(local.self, Responder, local.epoch, Handshaking, Some(Answered(t)), None, None, setup.direct, Some(setup),
        Some(Ack(t, true, ctx.coords, true)), None, None, None, None, 0, Seen(-1, {}))
  }

  // The end that has answered this very Setup before; a pending one comes first.
  function AnsweredBefore(session: Option<Session>, setup: Setup): Option<Fsp> {
    if session.None? then None
    else if session.value.pending.Some? && session.value.pending.value.receivedSetup == Some(setup) then session.value.pending
    else if session.value.fsp.receivedSetup == Some(setup) then Some(session.value.fsp)
    else None
  }

  // A Setup answered before gets the same Ack. A node that has sent a Setup itself ignores one from a node with a larger
  // address. Otherwise a whole Setup is answered as a fresh responder: beside an established session, in place of an attempt
  // of its own, or as a new session; one that does not decode is not, and ends an attempt that would have given way.
  lemma SetupOutcome(local: Local, src: NodeId, session: Option<Session>, setup: Setup, ctx: Context)
    requires session.Some? ==> ValidSession(src, session.value)
    ensures var h := HandleSetupFrame(local, src, session, setup, ctx);
      var before := AnsweredBefore(session, setup);
      var attempt := session.Some? && session.value.fsp.state == Handshaking && session.value.fsp.role == Initiator;
      && h.delivered == []
      && if before.Some? then h.session == session && h.reply == Some(AckFrame(before.value.sentAck.value)) && h.ok
         else if attempt && local.self <= src then h.session == session && h.reply.None? && h.ok == (local.self < src)
         else if !setup.intact then
           && h.reply.None? && !h.ok
           && h.session == if !attempt then session
                           else Some(session.value.(fsp := session.value.fsp.(state := Closed, hs := None, keys := None)))
         else
           && h.ok && h.reply == Some(AckFrame(Ack(Offered(local, setup, ctx), true, ctx.coords, true)))
           && h.session == Some(
                if session.Some? && session.value.fsp.state == Established then
                  session.value.(pending := Some(Answering(local, setup, ctx)))
                else if attempt then session.value.(fsp := Answering(local, setup, ctx))
                else Session(None, Answering(local, setup, ctx), false, None, None, [], 0))
  {
    hide Sizes;
    if session.Some? {
      var s := session.value;
      if s.pending.Some? && Matches(s.pending.value, setup) {
        RepeatedSetup(s.pending.value, setup, ctx);
      } else if Matches(s.fsp, setup) {
        RepeatedSetup(s.fsp, setup, ctx);
      }
    }
  }

  // ---- Acks ----

  // An Ack brings an initiator up exactly if it continues the Setup it sent and comes from the node it was sent to; repeated,
  // it brings the same Msg3. Any other changes nothing.
  lemma AckOutcome(src: NodeId, s: Session, ack: Ack)
    requires ValidSession(src, s)
    ensures var h := HandleAckFrame(s, ack);
      var f := s.fsp;
      var a := Agreement(ack.transcript, f.self, f.localEpoch);
      if f.role == Initiator && f.receivedAck == Some(ack) then
        h == Handled(Some(s), Some(Msg3Frame(f.sentMsg3.value)), [], true)
      else if f.role == Initiator && f.receivedAck.None? && ack.intact
              && f.hs == Some(SentHello(ack.transcript.ephemeral)) && f.remote == Some(ack.transcript.responder) then
        h == Handled(
          Some(s.(fsp := f.(state := Established, hs := None, keys := Some(Keys(Key(a, true), Key(a, false))), receivedAck := Some(ack),
                            sentMsg3 := Some(Msg3(a, true)), remoteDirect := ack.direct,
                            remoteEpoch := Some(ack.transcript.responderEpoch)))),
          Some(Msg3Frame(Msg3(a, true))), [], true)
      else h == Handled(Some(s), None, [], false)
  {
    hide Sizes;
  }

  // ---- Msg3 ----

  // The handshake that a Msg3 may complete: a pending one, or that of a session which is not up.
  function Underway(s: Session): Option<Fsp> {
    if s.pending.Some? then s.pending
    else if s.fsp.state == Handshaking && s.fsp.role == Responder then Some(s.fsp)
    else None
  }

  // What a Msg3 makes of the session before any waiting record is looked at. The old end drains for 45 seconds under the old
  // K-bit, unless the other node has started over with a new epoch.
  predicate Completed(s: Session, f: Fsp, t: Session, m: Msg3, now: int) {
    var a := m.agreement;
    && t.fsp == f.(state := Established, hs := None, keys := Some(Keys(Key(a, false), Key(a, true))), remote := Some(a.initiator),
                   remoteEpoch := Some(a.initiatorEpoch), establishedMsg3 := Some(m))
    && t.remotePubkey == Some(a.initiator) && t.pending.None? && t.early == s.early && t.earlyBytes == s.earlyBytes
    && if s.pending.None? then t.kBit == s.kBit && t.previous == s.previous
       else if s.fsp.remoteEpoch == Some(a.initiatorEpoch) then
         t.kBit == !s.kBit && t.previous == Some(Previous(s.fsp, s.kBit, now + 45000))
       else !t.kBit && t.previous.None?
  }

  // A Msg3 completes a handshake exactly if it continues the Ack of that handshake, names the node it comes from, and that
  // node is admitted; then the waiting records are looked at. If only the name or the admission fails the handshake is given
  // up, with the session if it was not up.
  lemma Msg3Completes(src: NodeId, s: Session, m: Msg3, ctx: Context) returns (t: Session)
    requires ValidSession(src, s) && Underway(s).Some?
    ensures var h := HandleMsg3Frame(src, s, m, ctx);
      var f := Underway(s).value;
      h.reply.None? &&
      if !(m.intact && f.sentAck.Some? && m.agreement.transcript == f.sentAck.value.transcript) then
        h.session == Some(s) && h.delivered == [] && !h.ok
      else if m.agreement.initiator != src || !ctx.peerAllowed then
        h.session == (if s.pending.Some? then Some(s.(pending := None)) else None) && h.delivered == [] && !h.ok
      else
        && Completed(s, f, t, m, ctx.now) && h.ok
        && (h.session, h.delivered) == (Some(DrainEarly(t, ctx.now).0), DrainEarly(t, ctx.now).1)
  {
    hide Sizes, DrainEarly;
    t := AfterMsg3(s, HandleMsg3(HandshakeFsp(s), m).0, ctx.now);
  }

  // With no handshake to complete a Msg3 counts only if it is the very one that brought the session up; then, if the node is
  // still admitted, the waiting records are looked at, otherwise the session ends.
  lemma Msg3Repeats(src: NodeId, s: Session, m: Msg3, ctx: Context)
    requires ValidSession(src, s) && Underway(s).None?
    ensures var h := HandleMsg3Frame(src, s, m, ctx);
      if !(s.fsp.role == Responder && s.fsp.state == Established && s.fsp.establishedMsg3 == Some(m)) then
        h == Handled(Some(s), None, [], false)
      else if !ctx.peerAllowed then h == Handled(None, None, [], false)
      else h == Handled(Some(DrainEarly(s, ctx.now).0), None, DrainEarly(s, ctx.now).1, true)
  {
    hide Sizes, DrainEarly;
  }

  // ---- Starting ----

  // A node starts a handshake exactly if it has none up or under way.
  lemma StartOutcome(local: Local, dst: NodeId, session: Option<Session>, ctx: Context)
    ensures var h := StartSession(local, dst, session, ctx);
      if session.Some? && session.value.fsp.state in {Handshaking, Established} then h == Handled(session, None, [], true)
      else
        h == Handled(
          Some(Session(Some(dst),
                       Fsp(local.self, Initiator, local.epoch, Handshaking, Some(SentHello(ctx.ephemeral)), Some(dst), None, false,
                           None, None, None, None, None, None, 0, Seen(-1, {})),
                       false, None, None, [], 0)),
          Some(SetupFrame(Setup(ctx.ephemeral, true, ctx.coords, true))), [], true)
  {
  }

  // A node that is not admitted, a frame of no known kind, or anything but a Setup without a session has no effect.
  lemma IgnoredFrames(local: Local, src: NodeId, session: Option<Session>, frame: Frame, ctx: Context)
    requires !ctx.nodeAllowed || frame.UnknownFrame? || (session.None? && !frame.SetupFrame?)
    ensures HandleFrame(local, src, session, frame, ctx) == Handled(session, None, [], false)
  {
  }
}
