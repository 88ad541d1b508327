/**
 * The explicit-counter channel of an established link: FmpLink.encryptOutgoing and
 * FmpLink.decryptIncoming (packages/core/src/fmp/link.ts); FspSession.encryptMessage and
 * FspSession.decryptIncoming (packages/core/src/fsp/session.ts) have the same shape.
 *
 * The AEAD is ideal: a sealed text opens under exactly its key, nonce and associated data.
 */
module Channels {
  import opened Wrappers
  import opened ReplayWindows

  type Key = nat

  // The public header, authenticated as associated data.
  datatype Header = Header(flags: nat, receiverIdx: nat, counter: nat, payloadLen: nat)

  datatype Inner = Inner(timestamp: nat, msgType: nat, payload: seq<nat>)

  // What is sealed need not decode.
  datatype Plaintext = Whole(inner: Inner) | Short(bytes: seq<nat>)

  datatype Ciphertext =
    | Sealed(key: Key, nonce: nat, plaintext: Plaintext, aad: Header)
    | Junk(bytes: seq<nat>)

  datatype Frame = Frame(header: Header, ciphertext: Ciphertext)

  const INNER_HEADER_LEN: nat := 5
  const MAX_PAYLOAD_LEN: nat := 0xffff

  function InnerLen(inner: Inner): nat {
    INNER_HEADER_LEN + |inner.payload|
  }

  function Open(key: Key, nonce: nat, ciphertext: Ciphertext, aad: Header): Option<Plaintext> {
    if ciphertext.Sealed? && ciphertext.key == key && ciphertext.nonce == nonce && ciphertext.aad == aad
    then Some(ciphertext.plaintext) else None
  }

  // ---- Sender and receiver as functions ----

  datatype Sender = Sender(key: Key, receiverIdx: nat, txCounter: nat)

  // The counter is taken before the frame is encoded, so an oversized message still uses it up.
  function Encrypt(tx: Sender, inner: Inner): (Sender, Result<Frame>) {
    if tx.txCounter >= COUNTER_LIMIT then (tx, Err("FMP nonce exhausted"))
    else
      var next := tx.(txCounter := tx.txCounter + 1);
      if InnerLen(inner) > MAX_PAYLOAD_LEN then (next, Err("u16 out of range"))
      else
        var header := Header(0, tx.receiverIdx, tx.txCounter, InnerLen(inner));
        (next, Ok(Frame(header, Sealed(tx.key, tx.txCounter, Whole(inner), header))))
  }

  datatype Receiver = Receiver(key: Key, localIdx: nat, seen: Seen)

  // A frame that opens moves the window even if its inner message then does not decode.
  function Decrypt(rx: Receiver, frame: Frame): (Receiver, Result<Inner>) {
    var h := frame.header;
    if h.receiverIdx != rx.localIdx then (rx, Err("FMP Established receiver_idx mismatch"))
    else if !Fresh(rx.seen, h.counter) then (rx, Err("FMP replay/duplicate counter"))
    else match Open(rx.key, h.counter, frame.ciphertext, h)
      case None => (rx, Err("invalid tag"))
      case Some(plaintext) => (rx.(seen := Record(rx.seen, h.counter)), Decoded(plaintext))
  }

  function Decoded(plaintext: Plaintext): Result<Inner> {
    if plaintext.Whole? then Ok(plaintext.inner) else Err("FMP inner packet too short")
  }

  // ---- The class ----

  datatype LinkState = Init | Handshaking | Established | Closed

  class FmpLink {
    var state: LinkState
    const localSessionIdx: nat
    const remoteSessionIdx: nat
    const tx: Key
    const rx: Key
    var txCounter: nat
    const rxReplay: ReplayWindow

    ghost predicate Valid()
      reads this, rxReplay, rxReplay.seen
    {
      rxReplay.Valid() && txCounter <= COUNTER_LIMIT
    }

    ghost function SenderState(): Sender
      reads this
    {
      Sender(tx, remoteSessionIdx, txCounter)
    }

    ghost function ReceiverState(): Receiver
      reads this, rxReplay
    {
      Receiver(rx, localSessionIdx, rxReplay.history)
    }

    // The link as finalize leaves it.
    constructor Finalized(localIdx: nat, remoteIdx: nat, txKey: Key, rxKey: Key)
      ensures Valid() && state == Established && fresh(rxReplay) && fresh(rxReplay.seen)
      ensures SenderState() == Sender(txKey, remoteIdx, 0) && ReceiverState() == Receiver(rxKey, localIdx, NOTHING_SEEN)
    {
      state := Established;
      localSessionIdx, remoteSessionIdx := localIdx, remoteIdx;
      tx, rx, txCounter := txKey, rxKey, 0;
      rxReplay := new ReplayWindow();
    }

    method EncryptOutgoing(timestamp: nat, msgType: nat, payload: seq<nat>) returns (r: Result<Frame>)
      requires Valid()
      modifies this`txCounter
      ensures Valid()
      ensures state != Established ==> r.Err? && txCounter == old(txCounter)
      ensures state == Established ==> (SenderState(), r) == Encrypt(old(SenderState()), Inner(timestamp, msgType, payload))
    {
      if state != Established {
        return Err("FMP link not established");
      }
      if txCounter >= COUNTER_LIMIT {
        return Err("FMP nonce exhausted");
      }
      var counter := txCounter;
      txCounter := txCounter + 1;
      var inner := Inner(timestamp, msgType, payload);
      if InnerLen(inner) > MAX_PAYLOAD_LEN {
        return Err("u16 out of range");
      }
      var aad := Header(0, remoteSessionIdx, counter, InnerLen(inner));
      r := Ok(Frame(aad, Sealed(tx, counter, Whole(inner), aad)));
    }

    method DecryptIncoming(frame: Frame) returns (r: Result<Inner>)
      requires Valid()
      modifies rxReplay, rxReplay.seen
      ensures Valid()
      ensures state != Established ==> r.Err? && ReceiverState() == old(ReceiverState())
      ensures state == Established ==> (ReceiverState(), r) == Decrypt(old(ReceiverState()), frame)
    {
      if state != Established {
        return Err("FMP link not established");
      }
      var h := frame.header;
      if h.receiverIdx != localSessionIdx {
        return Err("FMP Established receiver_idx mismatch");
      }
      if !rxReplay.Check(h.counter) {
        return Err("FMP replay/duplicate counter");
      }
      match Open(rx, h.counter, frame.ciphertext, h) {
        case None => r := Err("invalid tag");
        case Some(plaintext) =>
          var _ := rxReplay.Accept(h.counter);
          r := Decoded(plaintext);
      }
    }

    method Close()
      requires Valid()
      modifies this`state
      ensures Valid() && state == Closed
    {
      state := Closed;
    }
  }

  // ---- Runs over an adversarial network ----

  datatype Event = Send(inner: Inner) | Arrive(frame: Frame)

  // frames: all that were put on the wire, each for the text given to Send at that place; delivered: those that reached the
  // application, each as the text read there.
  datatype Channel = Channel(
    tx: Sender, rx: Receiver, frames: seq<Frame>, texts: seq<Inner>, delivered: seq<Frame>, read: seq<Inner>)

  function Start(key: Key, idx: nat): Channel {
    Channel(Sender(key, idx, 0), Receiver(key, idx, NOTHING_SEEN), [], [], [], [])
  }

  // Nobody but the sender can seal under the key.
  ghost predicate Possible(ch: Channel, event: Event) {
    event.Arrive? && event.frame.ciphertext.Sealed? && event.frame.ciphertext.key == ch.rx.key ==>
      exists sent :: sent in ch.frames && sent.ciphertext == event.frame.ciphertext
  }

  function Next(ch: Channel, event: Event): Channel {
    match event
    case Send(inner) =>
      var (tx, r) := Encrypt(ch.tx, inner);
      if r.Ok? then ch.(tx := tx, frames := ch.frames + [r.value], texts := ch.texts + [inner]) else ch.(tx := tx)
    case Arrive(frame) =>
      var (rx, r) := Decrypt(ch.rx, frame);
      if r.Ok? then ch.(rx := rx, delivered := ch.delivered + [frame], read := ch.read + [r.value]) else ch.(rx := rx)
  }

  ghost predicate Run(ch: Channel, events: seq<Event>, end: Channel)
    decreases |events|
  {
    if events == [] then end == ch
    else Possible(ch, events[0]) && Run(Next(ch, events[0]), events[1..], end)
  }

  ghost predicate Honest(tx: Sender, frame: Frame) {
    && frame.ciphertext.Sealed? && frame.ciphertext.key == tx.key && frame.ciphertext.plaintext.Whole?
    && frame.ciphertext.nonce == frame.header.counter < tx.txCounter
    && frame.ciphertext.aad == frame.header && frame.header.receiverIdx == tx.receiverIdx
  }

  ghost predicate SentInOrder(tx: Sender, frames: seq<Frame>) {
    && tx.txCounter <= COUNTER_LIMIT
    && (forall i :: 0 <= i < |frames| ==> Honest(tx, frames[i]))
    && (forall i, j :: 0 <= i < j < |frames| ==> frames[i].header.counter < frames[j].header.counter)
  }

  ghost predicate DeliveredOnce(rx: Receiver, frames: seq<Frame>, delivered: seq<Frame>) {
    && (forall i :: 0 <= i < |delivered| ==> delivered[i] in frames)
    && (forall i, j :: 0 <= i < j < |delivered| ==> delivered[i].header.counter != delivered[j].header.counter)
    && (forall c :: c in rx.seen.accepted <==> exists i :: 0 <= i < |delivered| && delivered[i].header.counter == c)
    && (forall c :: c in rx.seen.accepted ==> c <= rx.seen.high) && (rx.seen.high == -1 || rx.seen.high in rx.seen.accepted)
  }

  // Every frame carries its text, and what was read from a frame is the text it carries.
  ghost predicate Carries(ch: Channel) {
    && |ch.texts| == |ch.frames| && |ch.read| == |ch.delivered|
    && (forall i :: 0 <= i < |ch.frames| ==> ch.frames[i].ciphertext.Sealed? && ch.frames[i].ciphertext.plaintext == Whole(ch.texts[i]))
    && (forall i :: 0 <= i < |ch.delivered| ==>
          ch.delivered[i].ciphertext.Sealed? && ch.delivered[i].ciphertext.plaintext == Whole(ch.read[i]))
  }

  ghost predicate Invariant(ch: Channel) {
    && Carries(ch)
    && ch.tx.key == ch.rx.key && ch.tx.receiverIdx == ch.rx.localIdx
    && SentInOrder(ch.tx, ch.frames)
    && DeliveredOnce(ch.rx, ch.frames, ch.delivered)
  }

  // A message is sealed exactly if a counter is left and it fits; the other end, if it has not taken that counter and the
  // window reaches so far back, reads exactly what was given to it.
  lemma SealedIsRead(tx: Sender, rx: Receiver, inner: Inner)
    requires rx.key == tx.key && rx.localIdx == tx.receiverIdx
    ensures var (next, r) := Encrypt(tx, inner);
      && (r.Ok? <==> tx.txCounter < 0xffff_ffff_ffff_ffff && |inner.payload| <= 65530)
      && (tx.txCounter < 0xffff_ffff_ffff_ffff ==> next == tx.(txCounter := tx.txCounter + 1))
      && (tx.txCounter >= 0xffff_ffff_ffff_ffff ==> next == tx)
      && (r.Ok? ==>
        && r.value.header == Header(0, tx.receiverIdx, tx.txCounter, 5 + |inner.payload|)
        && (Fresh(rx.seen, tx.txCounter) ==>
          Decrypt(rx, r.value) == (rx.(seen := Record(rx.seen, tx.txCounter)), Ok(inner)))
        && (!Fresh(rx.seen, tx.txCounter) ==> Decrypt(rx, r.value).0 == rx && Decrypt(rx, r.value).1.Err?))
  {
  }

  lemma OpenedWasSent(ch: Channel, frame: Frame)
    requires Invariant(ch) && Possible(ch, Arrive(frame)) && Open(ch.rx.key, frame.header.counter, frame.ciphertext, frame.header).Some?
    ensures frame in ch.frames && frame.ciphertext.plaintext.Whole?
  {
    var sent :| sent in ch.frames && sent.ciphertext == frame.ciphertext;
    assert sent == frame;
  }

  lemma AcceptedWasDelivered(ch: Channel, frame: Frame)
    requires Invariant(ch) && frame in ch.frames
    ensures frame in ch.delivered <==> frame.header.counter in ch.rx.seen.accepted
  {
    if frame in ch.delivered {
      var i :| 0 <= i < |ch.delivered| && ch.delivered[i] == frame;
    }
  }

  lemma DeliveryKeepsOnce(rx: Receiver, frames: seq<Frame>, delivered: seq<Frame>, frame: Frame)
    requires DeliveredOnce(rx, frames, delivered) && frame in frames && Fresh(rx.seen, frame.header.counter)
    ensures DeliveredOnce(rx.(seen := Record(rx.seen, frame.header.counter)), frames, delivered + [frame])
  {
    var more := delivered + [frame];
    assert more[|delivered|] == frame && forall i :: 0 <= i < |delivered| ==> more[i] == delivered[i];
    forall c | c in rx.seen.accepted ensures exists i :: 0 <= i < |more| && more[i].header.counter == c {
      var i :| 0 <= i < |delivered| && delivered[i].header.counter == c;
      assert more[i].header.counter == c;
    }
  }

  lemma SendKeepsInvariant(ch: Channel, inner: Inner)
    requires Invariant(ch)
    ensures Invariant(Next(ch, Send(inner)))
  {
    hide DeliveredOnce;
    var next := Next(ch, Send(inner));
    assert forall i :: 0 <= i < |ch.frames| ==> next.frames[i] == ch.frames[i] && Honest(ch.tx, ch.frames[i]);
    OnceAmongMore(ch.rx, ch.frames, next.frames, ch.delivered);
  }

  lemma OnceAmongMore(rx: Receiver, frames: seq<Frame>, more: seq<Frame>, delivered: seq<Frame>)
    requires DeliveredOnce(rx, frames, delivered) && frames <= more
    ensures DeliveredOnce(rx, more, delivered)
  {
  }

  lemma ArrivalKeepsInvariant(ch: Channel, frame: Frame)
    requires Invariant(ch) && Possible(ch, Arrive(frame))
    ensures Invariant(Next(ch, Arrive(frame)))
  {
    if Open(ch.rx.key, frame.header.counter, frame.ciphertext, frame.header).Some? {
      OpenedWasSent(ch, frame);
    }
    hide Possible, SentInOrder;
    if Decrypt(ch.rx, frame).1.Ok? {
      DeliveryKeepsOnce(ch.rx, ch.frames, ch.delivered, frame);
    }
    hide DeliveredOnce;
  }

  lemma StepKeepsInvariant(ch: Channel, event: Event)
    requires Invariant(ch) && Possible(ch, event)
    ensures Invariant(Next(ch, event))
  {
    match event {
      case Send(inner) => SendKeepsInvariant(ch, inner);
      case Arrive(frame) => ArrivalKeepsInvariant(ch, frame);
    }
  }

  lemma {:induction false} RunKeepsInvariant(ch: Channel, events: seq<Event>, end: Channel)
    requires Invariant(ch) && Run(ch, events, end)
    ensures Invariant(end)
    decreases |events|
  {
    if events != [] {
      StepKeepsInvariant(ch, events[0]);
      RunKeepsInvariant(Next(ch, events[0]), events[1..], end);
    }
  }

  // At most once: each delivery is of a frame that was sent, and no frame is delivered twice.
  lemma AtMostOnce(key: Key, idx: nat, events: seq<Event>, end: Channel)
    requires Run(Start(key, idx), events, end)
    ensures forall i :: 0 <= i < |end.delivered| ==> end.delivered[i] in end.frames
    ensures forall i, j :: 0 <= i < j < |end.delivered| ==> end.delivered[i] != end.delivered[j]
  {
    RunKeepsInvariant(Start(key, idx), events, end);
  }

  // What the application reads is what was given to Send, for the frame that brought it.
  lemma ReadIsSent(key: Key, idx: nat, events: seq<Event>, end: Channel, i: nat) returns (j: nat)
    requires Run(Start(key, idx), events, end)
    ensures |end.read| == |end.delivered| && |end.texts| == |end.frames|
    ensures i < |end.read| ==> j < |end.texts| && end.read[i] == end.texts[j] && end.delivered[i] == end.frames[j]
  {
    RunKeepsInvariant(Start(key, idx), events, end);
    j := 0;
    if i < |end.read| {
      assert end.delivered[i] in end.frames;
      j :| 0 <= j < |end.frames| && end.frames[j] == end.delivered[i];
    }
  }

  // No counter is used twice, and none reaches the reserved value.
  lemma CountersAreNeverReused(key: Key, idx: nat, events: seq<Event>, end: Channel)
    requires Run(Start(key, idx), events, end)
    ensures forall i, j :: 0 <= i < j < |end.frames| ==> end.frames[i].header.counter < end.frames[j].header.counter
    ensures forall i :: 0 <= i < |end.frames| ==> end.frames[i].header.counter < COUNTER_LIMIT
  {
    RunKeepsInvariant(Start(key, idx), events, end);
  }

  function Attempts(events: seq<Event>): nat {
    if events == [] then 0 else (if events[0].Send? then 1 else 0) + Attempts(events[1..])
  }

  // Every attempt to send takes the next counter until none is left, whether or not the message fits.
  lemma {:induction false} CounterCountsAttempts(ch: Channel, events: seq<Event>, end: Channel)
    requires Run(ch, events, end) && ch.tx.txCounter <= 0xffff_ffff_ffff_ffff
    ensures var counter := ch.tx.txCounter + Attempts(events);
      end.tx == ch.tx.(txCounter := if counter <= 0xffff_ffff_ffff_ffff then counter else 0xffff_ffff_ffff_ffff)
    decreases |events|
  {
    if events != [] {
      CounterCountsAttempts(Next(ch, events[0]), events[1..], end);
    }
  }

  // A sent frame is delivered when it arrives exactly if it was not delivered before and nothing 2048 or more counters later was.
  lemma DeliveredOnArrival(key: Key, idx: nat, events: seq<Event>, end: Channel, frame: Frame)
    requires Run(Start(key, idx), events, end) && frame in end.frames
    ensures Next(end, Arrive(frame)).delivered == end.delivered + [frame] <==>
      && frame !in end.delivered
      && forall i :: 0 <= i < |end.delivered| ==> end.delivered[i].header.counter - frame.header.counter < 2048
    ensures Decrypt(end.rx, frame).1.Ok? ==> Whole(Decrypt(end.rx, frame).1.value) == frame.ciphertext.plaintext
  {
    RunKeepsInvariant(Start(key, idx), events, end);
    AcceptedWasDelivered(end, frame);
    assert |end.delivered + [frame]| != |end.delivered|;
    if end.rx.seen.high != -1 {
      var i :| 0 <= i < |end.delivered| && end.delivered[i].header.counter == end.rx.seen.high;
    }
    assert forall i :: 0 <= i < |end.delivered| ==> end.delivered[i].header.counter in end.rx.seen.accepted;
  }

  // A whole frame whose text does not decode is not delivered, but its counter counts as seen.
  lemma ShortTextIsSeen(rx: Receiver, frame: Frame)
    requires frame.ciphertext.Sealed? && frame.ciphertext.plaintext.Short? && frame.header.receiverIdx == rx.localIdx
    requires frame.ciphertext == Sealed(rx.key, frame.header.counter, frame.ciphertext.plaintext, frame.header)
    ensures Decrypt(rx, frame).1.Err? && !Fresh(Decrypt(rx, frame).0.seen, frame.header.counter)
  {
  }

  // Whatever was not sent moves neither the window nor anything else.
  lemma ForgeryIsIgnored(key: Key, idx: nat, events: seq<Event>, end: Channel, frame: Frame)
    requires Run(Start(key, idx), events, end)
    requires Possible(end, Arrive(frame)) && frame !in end.frames
    ensures Next(end, Arrive(frame)) == end
  {
    RunKeepsInvariant(Start(key, idx), events, end);
    if Open(end.rx.key, frame.header.counter, frame.ciphertext, frame.header).Some? {
      OpenedWasSent(end, frame);
    }
  }
}
