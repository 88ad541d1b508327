/**
 * The 2048-slot replay window (packages/core/src/crypto/replay.ts) and the unbounded set of
 * accepted counters that it stands for.
 */
module ReplayWindows {
  import opened Wrappers

  const WINDOW: nat := 2048

  // u64::MAX is reserved for nonce exhaustion.
  const COUNTER_LIMIT: nat := 0xffff_ffff_ffff_ffff

  // ---- The specification: everything ever accepted, and the highest of it ----

  datatype Seen = Seen(high: int, accepted: set<int>)

  const NOTHING_SEEN := Seen(-1, {})

  predicate Fresh(s: Seen, counter: int) {
    0 <= counter < COUNTER_LIMIT && s.high - counter < WINDOW && counter !in s.accepted
  }

  function Record(s: Seen, counter: int): Seen {
    if Fresh(s, counter) then Seen(if counter > s.high then counter else s.high, s.accepted + {counter}) else s
  }

  // ---- The ring ----

  datatype Ring = Ring(high: int, slots: seq<Option<int>>)

  function SlotOf(counter: int): (i: nat)
    ensures i < WINDOW
  {
    counter % WINDOW
  }

  predicate RingCheck(ring: Ring, counter: int)
    requires |ring.slots| == WINDOW
  {
    0 <= counter < COUNTER_LIMIT && ring.high - counter < WINDOW && ring.slots[SlotOf(counter)] != Some(counter)
  }

  function RingAccept(ring: Ring, counter: int): (r: Ring)
    requires |ring.slots| == WINDOW
    ensures |r.slots| == WINDOW
  {
    if RingCheck(ring, counter) then
      Ring(if counter > ring.high then counter else ring.high, ring.slots[SlotOf(counter) := Some(counter)])
    else ring
  }

  function EmptyRing(): (r: Ring)
    ensures |r.slots| == WINDOW
  {
    Ring(-1, seq(WINDOW, _ => None))
  }

  // Stale slots may hold counters that have left the window; counters inside it are all present.
  ghost predicate Represents(ring: Ring, s: Seen) {
    && |ring.slots| == WINDOW && ring.high == s.high
    && (if s.accepted == {} then s.high == -1 else s.high in s.accepted)
    && (forall c :: c in s.accepted ==> 0 <= c <= s.high)
    && (forall c :: c in s.accepted && s.high - c < WINDOW ==> ring.slots[SlotOf(c)] == Some(c))
    && (forall i :: 0 <= i < WINDOW && ring.slots[i].Some? ==> ring.slots[i].value in s.accepted)
  }

  // Two counters of one slot are a multiple of the window apart.
  lemma SameSlotIsFar(c: int, d: int)
    requires SlotOf(c) == SlotOf(d) && c != d
    ensures c - d >= WINDOW || d - c >= WINDOW
  {
  }

  lemma CheckAgrees(ring: Ring, s: Seen, counter: int)
    requires Represents(ring, s)
    ensures RingCheck(ring, counter) <==> Fresh(s, counter)
  {
  }

  lemma AcceptAgrees(ring: Ring, s: Seen, counter: int)
    requires Represents(ring, s)
    ensures Represents(RingAccept(ring, counter), Record(s, counter))
  {
    CheckAgrees(ring, s, counter);
    if Fresh(s, counter) {
      var t := Record(s, counter);
      forall c | c in t.accepted && t.high - c < WINDOW && c != counter ensures SlotOf(c) != SlotOf(counter) {
        if SlotOf(c) == SlotOf(counter) {
          SameSlotIsFar(c, counter);
        }
      }
    }
  }

  // ---- Every sequence of calls ----

  datatype Call = Check(counter: int) | Accept(counter: int) | Reset

  function RingAnswers(ring: Ring, calls: seq<Call>): seq<bool>
    requires |ring.slots| == WINDOW
    decreases |calls|
  {
    if calls == [] then []
    else match calls[0]
      case Check(c) => [RingCheck(ring, c)] + RingAnswers(ring, calls[1..])
      case Accept(c) => [RingCheck(ring, c)] + RingAnswers(RingAccept(ring, c), calls[1..])
      case Reset => [true] + RingAnswers(EmptyRing(), calls[1..])
  }

  function SeenAnswers(s: Seen, calls: seq<Call>): seq<bool>
    decreases |calls|
  {
    if calls == [] then []
    else match calls[0]
      case Check(c) => [Fresh(s, c)] + SeenAnswers(s, calls[1..])
      case Accept(c) => [Fresh(s, c)] + SeenAnswers(Record(s, c), calls[1..])
      case Reset => [true] + SeenAnswers(NOTHING_SEEN, calls[1..])
  }

  // The bounded ring answers every sequence of calls as the unbounded set does.
  lemma {:induction false} RingRefinesSet(ring: Ring, s: Seen, calls: seq<Call>)
    requires Represents(ring, s)
    ensures RingAnswers(ring, calls) == SeenAnswers(s, calls)
    decreases |calls|
  {
    if calls != [] {
      match calls[0] {
        case Check(c) =>
          CheckAgrees(ring, s, c);
          RingRefinesSet(ring, s, calls[1..]);
        case Accept(c) =>
          CheckAgrees(ring, s, c);
          AcceptAgrees(ring, s, c);
          RingRefinesSet(RingAccept(ring, c), Record(s, c), calls[1..]);
        case Reset =>
          RingRefinesSet(EmptyRing(), NOTHING_SEEN, calls[1..]);
      }
    }
  }

  // The ring after some counters have been offered to accept, from the empty one.
  function Offered(counters: seq<int>): (r: Ring)
    ensures |r.slots| == WINDOW
    decreases |counters|
  {
    if counters == [] then EmptyRing() else RingAccept(Offered(counters[..|counters| - 1]), counters[|counters| - 1])
  }

  function SeenOf(counters: seq<int>): Seen
    decreases |counters|
  {
    if counters == [] then NOTHING_SEEN else Record(SeenOf(counters[..|counters| - 1]), counters[|counters| - 1])
  }

  predicate InRange(counter: int) {
    0 <= counter < 0xffff_ffff_ffff_ffff
  }

  lemma {:induction false} OfferedRepresents(counters: seq<int>)
    ensures Represents(Offered(counters), SeenOf(counters))
    decreases |counters|
  {
    if counters != [] {
      OfferedRepresents(counters[..|counters| - 1]);
      AcceptAgrees(Offered(counters[..|counters| - 1]), SeenOf(counters[..|counters| - 1]), counters[|counters| - 1]);
    }
  }

  // The highest counter is the highest in range; what was accepted was offered, and what was not is 2048 below it.
  lemma {:induction false} SeenIs(counters: seq<int>, c: int)
    ensures var s := SeenOf(counters);
      && (c in counters && InRange(c) ==> c <= s.high && (c in s.accepted || s.high - c >= 2048))
      && (c in s.accepted ==> c in counters && InRange(c))
      && (s.high == -1 || (s.high in counters && InRange(s.high)))
    decreases |counters|
  {
    if counters != [] {
      var n := |counters| - 1;
      assert counters == counters[..n] + [counters[n]];
      SeenIs(counters[..n], c);
      SeenIs(counters[..n], counters[n]);
    }
  }

  // A counter passes exactly if it is in range, has never been offered, and no counter in range 2048 or more above it has.
  lemma WindowExactly(counters: seq<int>, c: int)
    ensures RingCheck(Offered(counters), c) <==>
      && InRange(c) && c !in counters
      && forall d :: d in counters && InRange(d) ==> d - c < 2048
  {
    hide Represents, RingCheck, Offered;
    OfferedRepresents(counters);
    CheckAgrees(Offered(counters), SeenOf(counters), c);
    SeenIs(counters, c);
    forall d | d in counters && InRange(d) ensures d <= SeenOf(counters).high {
      SeenIs(counters, d);
    }
  }

  // ---- The class ----

  class ReplayWindow {
    var high: int
    const seen: array<Option<int>>
    ghost var history: Seen

    ghost predicate Valid()
      reads this, seen
    {
      seen.Length == WINDOW && Represents(Ring(high, seen[..]), history)
    }

    constructor ()
      ensures Valid() && history == NOTHING_SEEN && fresh(seen)
    {
      high := -1;
      seen := new Option<int>[WINDOW](_ => None);
      history := NOTHING_SEEN;
      new;
      assert seen[..] == EmptyRing().slots;
    }

    predicate Check(counter: int)
      requires Valid()
      reads this, seen
      ensures Check(counter) <==> Fresh(history, counter)
    {
      CheckAgrees(Ring(high, seen[..]), history, counter);
      0 <= counter < COUNTER_LIMIT && high - counter < WINDOW && seen[SlotOf(counter)] != Some(counter)
    }

    method Accept(counter: int) returns (ok: bool)
      requires Valid()
      modifies this, seen
      ensures Valid() && history == Record(old(history), counter)
      ensures ok == Fresh(old(history), counter)
    {
      ok := Check(counter);
      if !ok {
        return;
      }
      ghost var before := Ring(high, seen[..]);
      AcceptAgrees(before, history, counter);
      if counter > high {
        high := counter;
      }
      seen[SlotOf(counter)] := Some(counter);
      history := Record(history, counter);
      assert seen[..] == before.slots[SlotOf(counter) := Some(counter)];
    }

    // The highest counter accepted since the last reset, or 0.
    method Highest() returns (h: nat)
      requires Valid()
      ensures if history.accepted == {} then h == 0 else h in history.accepted
      ensures forall c :: c in history.accepted ==> c <= h
    {
      h := if high < 0 then 0 else high;
    }

    method ResetAll()
      requires Valid()
      modifies this, seen
      ensures Valid() && history == NOTHING_SEEN
    {
      high := -1;
      forall i | 0 <= i < seen.Length {
        seen[i] := None;
      }
      history := NOTHING_SEEN;
    }
  }
}
