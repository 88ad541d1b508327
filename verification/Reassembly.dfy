/**
 * The bounded reassembler of DFP1 fragments, and the proof that it undoes segmentation
 * (packages/core/src/fsp/directTransport.ts).
 */
module Reassembly {
  import opened Wrappers
  import opened Collections
  import opened BinaryCodec
  import opened DirectTransport
  import FspWire

  // The text key `source:recordId` splits at its last colon, so it is as good as the pair.
  datatype Key = Key(source: string, recordId: nat)

  datatype Entry = Entry(createdAt: int, totalLen: nat, receivedBytes: nat, parts: seq<Option<Bytes>>)

  type Entries = map<Key, Entry>

  datatype Outcome = Outcome(entries: Entries, record: Option<Bytes>)

  // ---- What one call does ----

  function Prune(entries: Entries, now: int): Entries {
    map k | k in entries && now - entries[k].createdAt <= REASSEMBLY_TTL_MS :: entries[k]
  }

  // reserveEntry gives up an entry created no later than any other.
  predicate IsOldest(entries: Entries, victim: Key) {
    victim in entries && forall k :: k in entries ==> entries[victim].createdAt <= entries[k].createdAt
  }

  function Reserved(entries: Entries, victim: Key): Entries {
    if |entries| < MAX_REASSEMBLY_RECORDS then entries else entries - {victim}
  }

  predicate Continues(entries: Entries, key: Key, f: Fragment) {
    key in entries && entries[key].totalLen == f.totalLen && |entries[key].parts| == f.count
  }

  function Blank(count: nat): (r: seq<Option<Bytes>>)
    ensures |r| == count && forall i :: 0 <= i < count ==> r[i] == None
  {
    if count == 0 then [] else Blank(count - 1) + [None]
  }

  function Opened(entries: Entries, key: Key, f: Fragment, now: int, victim: Key): Entries {
    if Continues(entries, key, f) then entries
    else Reserved(entries, victim)[key := Entry(now, f.totalLen, 0, Blank(f.count))]
  }

  // What reserveEntry leaves open: which of the oldest entries goes when there is no room for a new one.
  predicate MakesRoom(entries: Entries, key: Key, f: Fragment, victim: Key) {
    Continues(entries, key, f) || |entries| < MAX_REASSEMBLY_RECORDS || IsOldest(entries, victim)
  }

  predicate Missing(parts: seq<Option<Bytes>>) {
    exists i :: 0 <= i < |parts| && parts[i].None?
  }

  function PartBytes(part: Option<Bytes>): Bytes {
    if part.Some? then part.value else []
  }

  function Joined(parts: seq<Option<Bytes>>): Bytes {
    if parts == [] then [] else PartBytes(parts[0]) + Joined(parts[1..])
  }

  function Finished(entries: Entries, key: Key): Outcome
    requires key in entries
  {
    var e := entries[key];
    if e.receivedBytes != e.totalLen || Missing(e.parts) then Outcome(entries, None)
    else Outcome(entries - {key}, Some(Joined(e.parts)))
  }

  function Holding(e: Entry, index: nat, payload: Bytes): Entry
    requires index < |e.parts|
  {
    e.(parts := e.parts[index := Some(payload)], receivedBytes := e.receivedBytes + |payload|)
  }

  function Stored(entries: Entries, key: Key, f: Fragment): Outcome
    requires key in entries && f.index < |entries[key].parts|
  {
    var e := entries[key];
    if e.parts[f.index].Some? then Finished(entries, key)
    else if e.receivedBytes + |f.payload| > f.totalLen then Outcome(entries - {key}, None)
    else Finished(entries[key := Holding(e, f.index, f.payload)], key)
  }

  function Ingested(entries: Entries, source: string, packet: Bytes, now: int, victim: Key): Outcome {
    match Accepted(packet)
    case None => Outcome(entries, None)
    case Some(f) =>
      var key := Key(source, f.recordId);
      Stored(Opened(Prune(entries, now), key, f, now, victim), key, f)
  }

  predicate Evicts(entries: Entries, source: string, packet: Bytes, now: int, victim: Key) {
    match Accepted(packet)
    case None => true
    case Some(f) => MakesRoom(Prune(entries, now), Key(source, f.recordId), f, victim)
  }

  // ---- What every call keeps ----

  function StoredBytes(parts: seq<Option<Bytes>>): nat {
    if parts == [] then 0 else (if parts[0].Some? then |parts[0].value| else 0) + StoredBytes(parts[1..])
  }

  predicate ValidEntry(e: Entry) {
    && e.receivedBytes == StoredBytes(e.parts) <= e.totalLen <= MAX_REASSEMBLED_LEN
    && 1 < |e.parts| <= MAX_FRAGMENTS
    && (e.receivedBytes == e.totalLen ==> Missing(e.parts))
  }

  ghost predicate ValidEntries(entries: Entries) {
    && |entries| <= MAX_REASSEMBLY_RECORDS
    && forall k {:trigger entries[k]} :: k in entries ==> ValidEntry(entries[k])
  }

  lemma {:induction false} BlankStoresNothing(count: nat)
    ensures StoredBytes(Blank(count)) == 0
  {
    if count > 0 {
      BlankStoresNothing(count - 1);
      StoredBytesOfTwo(Blank(count - 1), [None]);
    }
  }

  lemma {:induction false} StoredBytesOfTwo(a: seq<Option<Bytes>>, b: seq<Option<Bytes>>)
    ensures StoredBytes(a + b) == StoredBytes(a) + StoredBytes(b)
  {
    if a == [] {
      assert a + b == b;
    } else {
      StoredBytesOfTwo(a[1..], b);
      assert (a + b)[1..] == a[1..] + b;
    }
  }

  lemma {:induction false} StoringAddsItsBytes(parts: seq<Option<Bytes>>, index: nat, payload: Bytes)
    requires index < |parts| && parts[index].None?
    ensures StoredBytes(parts[index := Some(payload)]) == StoredBytes(parts) + |payload|
  {
    if index > 0 {
      StoringAddsItsBytes(parts[1..], index - 1, payload);
      assert parts[index := Some(payload)][1..] == parts[1..][index - 1 := Some(payload)];
    }
  }

  lemma {:induction false} JoinedLength(parts: seq<Option<Bytes>>)
    ensures |Joined(parts)| == StoredBytes(parts)
  {
    if parts != [] {
      JoinedLength(parts[1..]);
    }
  }

  lemma PruneKeepsInvariant(entries: Entries, now: int)
    requires ValidEntries(entries)
    ensures ValidEntries(Prune(entries, now))
  {
    SmallerMap(Prune(entries, now), entries);
  }

  lemma OpenedKeepsInvariant(entries: Entries, key: Key, f: Fragment, now: int, victim: Key)
    requires ValidEntries(entries) && Acceptable(f)
    requires MakesRoom(entries, key, f, victim)
    ensures ValidEntries(Opened(entries, key, f, now, victim)) && Continues(Opened(entries, key, f, now, victim), key, f)
  {
    hide ValidEntries, Reserved, ValidEntry;
    if !Continues(entries, key, f) {
      ReservedHasRoom(entries, victim);
      NewEntryIsValid(f, now);
      AddingKeepsInvariant(Reserved(entries, victim), key, Entry(now, f.totalLen, 0, Blank(f.count)));
    }
  }

  lemma NewEntryIsValid(f: Fragment, now: int)
    requires Acceptable(f)
    ensures ValidEntry(Entry(now, f.totalLen, 0, Blank(f.count)))
  {
    BlankStoresNothing(f.count);
  }

  lemma ReservedHasRoom(entries: Entries, victim: Key)
    requires ValidEntries(entries) && (|entries| < MAX_REASSEMBLY_RECORDS || IsOldest(entries, victim))
    ensures ValidEntries(Reserved(entries, victim)) && |Reserved(entries, victim)| < MAX_REASSEMBLY_RECORDS
  {
    hide ValidEntry;
    var room := Reserved(entries, victim);
    if |entries| >= MAX_REASSEMBLY_RECORDS {
      assert room.Keys == entries.Keys - {victim};
      assert |room.Keys| == |room| && |entries.Keys| == |entries|;
    }
  }

  lemma AddingKeepsInvariant(entries: Entries, key: Key, e: Entry)
    requires ValidEntries(entries) && |entries| < MAX_REASSEMBLY_RECORDS && ValidEntry(e)
    ensures ValidEntries(entries[key := e])
  {
    hide ValidEntry;
    var more := entries[key := e];
    assert more.Keys == entries.Keys + {key};
    assert |more.Keys| == |more| && |entries.Keys| == |entries|;
  }

  lemma StoredKeepsInvariant(entries: Entries, key: Key, f: Fragment)
    requires ValidEntries(entries) && Acceptable(f) && Continues(entries, key, f)
    ensures ValidEntries(Stored(entries, key, f).entries)
    ensures var r := Stored(entries, key, f).record; r.Some? ==> |r.value| == f.totalLen
  {
    var e := entries[key];
    SmallerMap(entries - {key}, entries);
    if e.parts[f.index].None? && e.receivedBytes + |f.payload| <= f.totalLen {
      StoringAddsItsBytes(e.parts, f.index, f.payload);
      var held := Holding(e, f.index, f.payload);
      JoinedLength(held.parts);
      assert entries[key := held] - {key} == entries - {key};
      assert entries[key := held].Keys == entries.Keys;
    }
  }

  // At most 512 records, each with as many bytes as it says and no more than its length; an emitted record has the length announced.
  lemma IngestKeepsInvariant(entries: Entries, source: string, packet: Bytes, now: int, victim: Key)
    requires ValidEntries(entries)
    requires Evicts(entries, source, packet, now, victim)
    ensures ValidEntries(Ingested(entries, source, packet, now, victim).entries)
    ensures var r := Ingested(entries, source, packet, now, victim).record;
      r.Some? ==> Accepted(packet).Some? && |r.value| == Accepted(packet).value.totalLen
  {
    hide Accepted;
    if Accepted(packet).Some? {
      var f := Accepted(packet).value;
      var key := Key(source, f.recordId);
      PruneKeepsInvariant(entries, now);
      OpenedKeepsInvariant(Prune(entries, now), key, f, now, victim);
      StoredKeepsInvariant(Opened(Prune(entries, now), key, f, now, victim), key, f);
    }
  }

  // ---- One packet ----

  // The entry that a fragment goes into, if it is at most two seconds old and of the same size.
  predicate Current(entries: Entries, key: Key, f: Fragment, now: int) {
    && key in entries && now - entries[key].createdAt <= 2000
    && entries[key].totalLen == f.totalLen && |entries[key].parts| == f.count
  }

  // What has arrived of the record once the fragment has; of two pieces under one index the first counts.
  function PartsWith(entries: Entries, key: Key, f: Fragment, now: int): (parts: seq<Option<Bytes>>)
    requires f.index < f.count
    ensures |parts| == f.count
  {
    var parts := if Current(entries, key, f, now) then entries[key].parts else seq(f.count, _ => None);
    if parts[f.index].None? then parts[f.index := Some(f.payload)] else parts
  }

  lemma BlankIs(count: nat)
    ensures Blank(count) == seq(count, _ => None)
  {
  }

  // A packet brings its record out exactly if the parts are then all there and have the announced length; parts that are
  // longer are dropped, otherwise the entry waits on with the age it had.
  lemma PacketOutcome(entries: Entries, source: string, packet: Bytes, now: int, victim: Key, f: Fragment)
    requires ValidEntries(entries) && Accepted(packet) == Some(f)
    ensures var o := Ingested(entries, source, packet, now, victim);
      var key := Key(source, f.recordId);
      var parts := PartsWith(entries, key, f, now);
      var bytes := StoredBytes(parts);
      if bytes > f.totalLen || (bytes == f.totalLen && forall i :: 0 <= i < f.count ==> parts[i].Some?) then
        key !in o.entries && o.record == if bytes > f.totalLen then None else Some(Joined(parts))
      else
        && o.record.None? && key in o.entries
        && o.entries[key] == Entry(if Current(entries, key, f, now) then entries[key].createdAt else now, f.totalLen, bytes, parts)
  {
    hide Accepted, Reserved, Joined;
    var key := Key(source, f.recordId);
    var kept := Prune(entries, now);
    assert Current(entries, key, f, now) <==> Continues(kept, key, f);
    BlankIs(f.count);
    BlankStoresNothing(f.count);
    var parts := if Current(entries, key, f, now) then entries[key].parts else Blank(f.count);
    if parts[f.index].None? {
      StoringAddsItsBytes(parts, f.index, f.payload);
    }
    hide StoredBytes, Blank;
  }

  // It touches no other record that is still young enough, unless it opens a new one and there are 512: then one goes that is
  // as old as any.
  lemma OtherRecordsStay(entries: Entries, source: string, packet: Bytes, now: int, victim: Key, k: Key)
    requires Evicts(entries, source, packet, now, victim)
    requires Accepted(packet).Some? && k != Key(source, Accepted(packet).value.recordId)
    ensures var after := Ingested(entries, source, packet, now, victim).entries;
      var f := Accepted(packet).value;
      var gone := k == victim && !Current(entries, Key(source, f.recordId), f, now) && |Prune(entries, now)| >= 512;
      && (k in after <==> k in entries && now - entries[k].createdAt <= 2000 && !gone)
      && (k in after ==> after[k] == entries[k])
      && (gone ==> k in entries && forall j {:trigger entries[j]} :: j in entries && now - entries[j].createdAt <= 2000 ==>
                                     entries[k].createdAt <= entries[j].createdAt)
  {
    hide Accepted, Joined, Missing;
    var kept, f := Prune(entries, now), Accepted(packet).value;
    assert Current(entries, Key(source, f.recordId), f, now) <==> Continues(kept, Key(source, f.recordId), f);
    forall j | j in entries && now - entries[j].createdAt <= 2000 && IsOldest(kept, k)
      ensures entries[k].createdAt <= entries[j].createdAt
    {
      assert j in kept;
    }
  }

  // ---- DirectFspTransportReassembler ----

  lemma {:induction false} JoinedSnoc(parts: seq<Option<Bytes>>, part: Option<Bytes>)
    ensures Joined(parts + [part]) == Joined(parts) + PartBytes(part)
  {
    hide PartBytes;
    var longer := parts + [part];
    if parts == [] {
      assert longer[1..] == [];
    } else {
      JoinedSnoc(parts[1..], part);
      assert longer[1..] == parts[1..] + [part] && longer[0] == parts[0];
    }
  }

  method HasMissing(parts: seq<Option<Bytes>>) returns (missing: bool)
    ensures missing == Missing(parts)
  {
    for i := 0 to |parts|
      invariant forall j :: 0 <= j < i ==> parts[j].Some?
    {
      if parts[i].None? {
        return true;
      }
    }
    missing := false;
  }

  method Join(parts: seq<Option<Bytes>>) returns (record: Bytes)
    requires !Missing(parts)
    ensures record == Joined(parts)
  {
    record := [];
    for i := 0 to |parts|
      invariant record == Joined(parts[..i])
    {
      assert parts[i].Some?;
      JoinedSnoc(parts[..i], parts[i]);
      assert parts[..i + 1] == parts[..i] + [parts[i]];
      record := record + parts[i].value;
    }
    assert parts[..|parts|] == parts;
  }

  class DirectFspTransportReassembler {
    var entries: Entries

    ghost predicate Valid()
      reads this
    {
      ValidEntries(entries)
    }

    constructor ()
      ensures Valid() && entries == map[]
    {
      entries := map[];
    }

    method PruneExpired(now: int)
      modifies this
      ensures entries == Prune(old(entries), now)
    {
      var keys := entries.Keys;
      while keys != {}
        invariant keys <= old(entries).Keys
        invariant forall k :: k in entries <==> k in old(entries) && (k in keys || now - old(entries)[k].createdAt <= REASSEMBLY_TTL_MS)
        invariant forall k :: k in entries ==> entries[k] == old(entries)[k]
      {
        var k :| k in keys;
        keys := keys - {k};
        if now - entries[k].createdAt > REASSEMBLY_TTL_MS {
          entries := entries - {k};
        }
      }
    }

    // The search of reserveEntry; Map iteration order decides among equally old entries.
    method FindOldest() returns (oldest: Key)
      requires entries != map[]
      ensures IsOldest(entries, oldest)
    {
      var keys := entries.Keys;
      assert keys != {};
      oldest :| oldest in keys;
      keys := keys - {oldest};
      while keys != {}
        invariant keys <= entries.Keys && oldest in entries
        invariant forall k :: k in entries ==> k in keys || entries[oldest].createdAt <= entries[k].createdAt
      {
        var current :| current in keys;
        keys := keys - {current};
        if entries[current].createdAt < entries[oldest].createdAt {
          oldest := current;
        }
      }
    }

    method ReserveEntry() returns (victim: Key)
      modifies this
      ensures |old(entries)| < MAX_REASSEMBLY_RECORDS || IsOldest(old(entries), victim)
      ensures entries == Reserved(old(entries), victim)
    {
      if |entries| < MAX_REASSEMBLY_RECORDS {
        return Key("", 0);
      }
      victim := FindOldest();
      entries := entries - {victim};
    }

    // A packet without the magic is an error and changes nothing.
    method Ingest(source: string, packet: Bytes, now: int) returns (r: Result<Option<Bytes>>, ghost victim: Key)
      requires Valid()
      modifies this
      ensures Valid()
      ensures !IsFragment(packet) ==> r.Err? && entries == old(entries)
      ensures IsFragment(packet) ==>
        && Evicts(old(entries), source, packet, now, victim)
        && r.Ok?
        && Outcome(entries, r.value) == Ingested(old(entries), source, packet, now, victim)
    {
      hide Accepted;
      victim := Key("", 0);
      if !IsFragment(packet) {
        r := Err("packet is not a direct FSP transport fragment");
        return;
      }
      var accepted := Accepted(packet);
      if accepted.None? {
        r := Ok(None);
        return;
      }
      var f := accepted.value;
      var key := Key(source, f.recordId);
      PruneExpired(now);
      if !Continues(entries, key, f) {
        var evicted := ReserveEntry();
        victim := evicted;
        entries := entries[key := Entry(now, f.totalLen, 0, Blank(f.count))];
      }
      IngestKeepsInvariant(old(entries), source, packet, now, victim);
      var record := Store(key, f);
      r := Ok(record);
    }

    method Store(key: Key, f: Fragment) returns (record: Option<Bytes>)
      requires key in entries && f.index < |entries[key].parts|
      modifies this
      ensures Outcome(entries, record) == Stored(old(entries), key, f)
    {
      var entry := entries[key];
      if entry.parts[f.index].None? {
        if entry.receivedBytes + |f.payload| > f.totalLen {
          entries := entries - {key};
          return None;
        }
        entry := Holding(entry, f.index, f.payload);
        entries := entries[key := entry];
      }
      var missing := HasMissing(entry.parts);
      if entry.receivedBytes != entry.totalLen || missing {
        return None;
      }
      var joined := Join(entry.parts);
      entries := entries - {key};
      record := Some(joined);
    }
  }

  // ---- Runs ----

  datatype Arrival = Arrival(source: string, packet: Bytes, now: int, victim: Key)

  function Step(entries: Entries, a: Arrival): Outcome {
    Ingested(entries, a.source, a.packet, a.now, a.victim)
  }

  // The entries after the first n arrivals.
  function After(start: Entries, arrivals: seq<Arrival>, n: nat): Entries
    requires n <= |arrivals|
  {
    if n == 0 then start else Step(After(start, arrivals, n - 1), arrivals[n - 1]).entries
  }

  function RecordAt(start: Entries, arrivals: seq<Arrival>, n: nat): Option<Bytes>
    requires n < |arrivals|
  {
    Step(After(start, arrivals, n), arrivals[n]).record
  }

  // A record some sender cut into fragments, as this receiver knows the sender.
  datatype Sent = Sent(source: string, recordId: nat, record: Bytes, maxPayload: nat)

  predicate IsSent(s: Sent) {
    s.recordId < Limit(8) && Fragmentable(s.record, s.maxPayload)
  }

  function KeyOf(s: Sent): Key {
    Key(s.source, s.recordId)
  }

  function PiecesOf(s: Sent): seq<Bytes>
    requires s.maxPayload > 0
  {
    Pieces(s.record, s.maxPayload)
  }

  function FragmentsOfSent(s: Sent): seq<Bytes>
    requires s.maxPayload > 0
  {
    Fragments(s.recordId, s.record, s.maxPayload)
  }

  // The arrival bears the source and record id of s.
  predicate Claims(s: Sent, a: Arrival)
    requires IsSent(s)
  {
    Accepted(a.packet).Some? && Key(a.source, Accepted(a.packet).value.recordId) == KeyOf(s)
  }

  function IndexOf(a: Arrival): nat {
    if Accepted(a.packet).Some? then Accepted(a.packet).value.index else 0
  }

  predicate NoEviction(entries: Entries, a: Arrival) {
    match Accepted(a.packet)
    case None => true
    case Some(f) =>
      var kept := Prune(entries, a.now);
      Continues(kept, Key(a.source, f.recordId), f) || |kept| < MAX_REASSEMBLY_RECORDS
  }

  // What the theorem asks of the network: fragments of s, in any order, any number of times, among anything else, within the TTL.
  ghost predicate Undisturbed(start: Entries, arrivals: seq<Arrival>, s: Sent, from: int)
    requires IsSent(s)
  {
    && KeyOf(s) !in start
    && forall n {:trigger arrivals[n]} :: 0 <= n < |arrivals| ==>
      && from <= arrivals[n].now <= from + REASSEMBLY_TTL_MS
      && NoEviction(After(start, arrivals, n), arrivals[n])
      && (Claims(s, arrivals[n]) ==> arrivals[n].packet in FragmentsOfSent(s))
  }

  function Below(n: nat): (r: set<nat>)
    ensures forall i: nat :: i in r <==> i < n
  {
    if n == 0 then {} else Below(n - 1) + {n - 1}
  }

  function AllIndices(s: Sent): (r: set<nat>)
    requires IsSent(s)
    ensures forall i: nat :: i in r <==> i < |PiecesOf(s)|
  {
    Below(|PiecesOf(s)|)
  }

  // The indices of s that have arrived since it was last complete.
  function Seen(arrivals: seq<Arrival>, s: Sent, n: nat): set<nat>
    requires IsSent(s) && n <= |arrivals|
  {
    if n == 0 then {}
    else
      var before := Seen(arrivals, s, n - 1);
      if !Claims(s, arrivals[n - 1]) then before
      else
        var now := before + {IndexOf(arrivals[n - 1])};
        if now == AllIndices(s) then {} else now
  }

  ghost predicate Holds(parts: seq<Option<Bytes>>, pieces: seq<Bytes>, seen: set<nat>) {
    && |parts| == |pieces|
    && forall i: nat {:trigger parts[i]} :: i < |parts| ==> parts[i] == if i in seen then Some(pieces[i]) else None
  }

  // The entry of s holds exactly the pieces seen.
  ghost predicate Tracks(entries: Entries, s: Sent, seen: set<nat>, from: int)
    requires IsSent(s)
  {
    var key := KeyOf(s);
    if seen == {} then key !in entries
    else
      && key in entries
      && entries[key].createdAt >= from
      && entries[key].totalLen == |s.record|
      && entries[key].receivedBytes == StoredBytes(entries[key].parts)
      && Holds(entries[key].parts, PiecesOf(s), seen)
  }

  // Parts that hold some of the pieces hold no more bytes than there are; parts that hold all of them join to the record.
  lemma {:induction false} HeldPieces(parts: seq<Option<Bytes>>, pieces: seq<Bytes>)
    requires |parts| == |pieces|
    requires forall i {:trigger parts[i]} :: 0 <= i < |parts| && parts[i].Some? ==> parts[i].value == pieces[i]
    ensures StoredBytes(parts) <= |Flatten(pieces)|
    ensures !Missing(parts) ==> StoredBytes(parts) == |Flatten(pieces)| && Joined(parts) == Flatten(pieces)
  {
    if parts != [] {
      var tail := parts[1..];
      assert forall i {:trigger tail[i]} :: 0 <= i < |tail| ==> tail[i] == parts[i + 1];
      HeldPieces(tail, pieces[1..]);
      if !Missing(parts) {
        assert parts[0].Some?;
        assert !Missing(tail);
      }
    }
  }

  lemma MissingIffUnseen(parts: seq<Option<Bytes>>, s: Sent, seen: set<nat>)
    requires IsSent(s) && Holds(parts, PiecesOf(s), seen) && seen <= AllIndices(s)
    ensures Missing(parts) <==> seen != AllIndices(s)
  {
    hide PiecesOf;
    if seen != AllIndices(s) {
      var i :| i in AllIndices(s) && i !in seen;
      assert parts[i].None?;
    }
  }

  // An accepted fragment of s is what FragmentOf says.
  lemma ClaimIsGenuine(s: Sent, a: Arrival)
    requires IsSent(s) && Claims(s, a) && a.packet in FragmentsOfSent(s)
    ensures IndexOf(a) < |PiecesOf(s)| && Accepted(a.packet).value == FragmentOf(s.recordId, s.record, s.maxPayload, IndexOf(a))
  {
    hide Accepted, FragmentOf;
    var fragments := FragmentsOfSent(s);
    var i :| 0 <= i < |fragments| && fragments[i] == a.packet;
    FragmentsAreAccepted(s.recordId, s.record, s.maxPayload, i);
    FragmentHasIndex(s, i);
  }

  lemma FragmentHasIndex(s: Sent, i: nat)
    requires IsSent(s) && i < |PiecesOf(s)|
    ensures var f := FragmentOf(s.recordId, s.record, s.maxPayload, i);
      && f.index == i && f.count == |PiecesOf(s)| && f.totalLen == |s.record| && f.payload == PiecesOf(s)[i]
      && f.recordId == KeyOf(s).recordId
  {
    hide Pieces;
  }

  lemma PruneKeepsYoung(entries: Entries, s: Sent, seen: set<nat>, from: int, now: int)
    requires IsSent(s) && Tracks(entries, s, seen, from) && now <= from + REASSEMBLY_TTL_MS
    ensures Tracks(Prune(entries, now), s, seen, from)
  {
    hide PiecesOf, KeyOf, Holds, StoredBytes;
  }

  // A fragment of another record leaves s alone.
  lemma OthersLeaveAlone(entries: Entries, s: Sent, seen: set<nat>, from: int, a: Arrival)
    requires IsSent(s) && Tracks(entries, s, seen, from) && a.now <= from + REASSEMBLY_TTL_MS
    requires !Claims(s, a) && NoEviction(entries, a)
    ensures Tracks(Step(entries, a).entries, s, seen, from)
  {
    hide PiecesOf, KeyOf, Holds, StoredBytes, Accepted;
    if Accepted(a.packet).Some? {
      PruneKeepsYoung(entries, s, seen, from, a.now);
    }
  }

  // Opening an entry for s, if there is none, leaves it holding exactly what was seen.
  lemma OpenedTracks(entries: Entries, s: Sent, seen: set<nat>, from: int, f: Fragment, now: int, victim: Key)
    requires IsSent(s) && Tracks(entries, s, seen, from) && from <= now
    requires f.totalLen == |s.record| && f.count == |PiecesOf(s)|
    requires Continues(entries, KeyOf(s), f) || |entries| < MAX_REASSEMBLY_RECORDS
    ensures var e := Opened(entries, KeyOf(s), f, now, victim);
      && KeyOf(s) in e && e[KeyOf(s)].createdAt >= from && e[KeyOf(s)].totalLen == |s.record|
      && e[KeyOf(s)].receivedBytes == StoredBytes(e[KeyOf(s)].parts)
      && Holds(e[KeyOf(s)].parts, PiecesOf(s), seen)
  {
    hide PiecesOf, KeyOf;
    BlankStoresNothing(f.count);
  }

  lemma PiecesJoin(s: Sent)
    requires IsSent(s)
    ensures Flatten(PiecesOf(s)) == s.record
  {
  }

  // One more piece held.
  lemma HoldsOneMore(parts: seq<Option<Bytes>>, s: Sent, seen: set<nat>, index: nat)
    requires IsSent(s) && Holds(parts, PiecesOf(s), seen) && index in AllIndices(s) && index !in seen && seen <= AllIndices(s)
    ensures parts[index].None?
    ensures var held := parts[index := Some(PiecesOf(s)[index])];
      && StoredBytes(held) == StoredBytes(parts) + |PiecesOf(s)[index]| <= |s.record|
      && Holds(held, PiecesOf(s), seen + {index})
      && (Missing(held) <==> seen + {index} != AllIndices(s))
      && (!Missing(held) ==> StoredBytes(held) == |s.record| && Joined(held) == s.record)
  {
    hide KeyOf, PiecesOf, StoredBytes;
    var held := parts[index := Some(PiecesOf(s)[index])];
    PiecesJoin(s);
    StoringAddsItsBytes(parts, index, PiecesOf(s)[index]);
    HeldPieces(held, PiecesOf(s));
    MissingIffUnseen(held, s, seen + {index});
  }

  // Storing piece i in an entry that holds exactly the pieces seen.
  lemma StoredTracks(entries: Entries, s: Sent, seen: set<nat>, from: int, f: Fragment)
    requires IsSent(s) && seen <= AllIndices(s) && seen != AllIndices(s) && f.index in AllIndices(s)
    requires f.totalLen == |s.record| && f.payload == PiecesOf(s)[f.index]
    requires KeyOf(s) in entries && entries[KeyOf(s)].createdAt >= from && entries[KeyOf(s)].totalLen == |s.record|
    requires entries[KeyOf(s)].receivedBytes == StoredBytes(entries[KeyOf(s)].parts)
    requires Holds(entries[KeyOf(s)].parts, PiecesOf(s), seen)
    ensures var now := seen + {f.index};
      var out := Stored(entries, KeyOf(s), f);
      if now == AllIndices(s) then out.record == Some(s.record) && Tracks(out.entries, s, {}, from)
      else out.record == None && Tracks(out.entries, s, now, from)
  {
    hide KeyOf, PiecesOf, StoredBytes, AllIndices, Joined, Missing;
    var e := entries[KeyOf(s)];
    if f.index in seen {
      assert seen + {f.index} == seen;
      MissingIffUnseen(e.parts, s, seen);
      assert e.parts[f.index].Some?;
    } else {
      HoldsOneMore(e.parts, s, seen, f.index);
    }
  }

  // One fragment of s: nothing while an index is missing, the record on the last one.
  lemma OwnFragment(entries: Entries, s: Sent, seen: set<nat>, from: int, a: Arrival)
    requires IsSent(s) && Tracks(entries, s, seen, from) && from <= a.now <= from + REASSEMBLY_TTL_MS
    requires seen <= AllIndices(s) && seen != AllIndices(s)
    requires Claims(s, a) && NoEviction(entries, a) && a.packet in FragmentsOfSent(s)
    ensures IndexOf(a) in AllIndices(s)
    ensures var now := seen + {IndexOf(a)};
      var out := Step(entries, a);
      if now == AllIndices(s) then out.record == Some(s.record) && Tracks(out.entries, s, {}, from)
      else out.record == None && Tracks(out.entries, s, now, from)
  {
    hide Accepted, FragmentOf, PiecesOf, Tracks, AllIndices, Stored, Opened, Prune;
    ClaimIsGenuine(s, a);
    FragmentHasIndex(s, IndexOf(a));
    PruneKeepsYoung(entries, s, seen, from, a.now);
    var f := Accepted(a.packet).value;
    var kept := Prune(entries, a.now);
    OpenedTracks(kept, s, seen, from, f, a.now, a.victim);
    StoredTracks(Opened(kept, KeyOf(s), f, a.now, a.victim), s, seen, from, f);
  }

  lemma ArrivalIsFair(start: Entries, arrivals: seq<Arrival>, s: Sent, from: int, n: nat)
    requires IsSent(s) && n < |arrivals| && Undisturbed(start, arrivals, s, from)
    ensures from <= arrivals[n].now <= from + REASSEMBLY_TTL_MS
    ensures NoEviction(After(start, arrivals, n), arrivals[n])
    ensures Claims(s, arrivals[n]) ==> arrivals[n].packet in FragmentsOfSent(s)
  {
    hide Claims, NoEviction, After;
  }

  lemma {:induction false} SeenIsPartial(start: Entries, arrivals: seq<Arrival>, s: Sent, from: int, n: nat)
    requires IsSent(s) && n <= |arrivals| && Undisturbed(start, arrivals, s, from)
    ensures Seen(arrivals, s, n) <= AllIndices(s) && Seen(arrivals, s, n) != AllIndices(s)
    ensures Tracks(After(start, arrivals, n), s, Seen(arrivals, s, n), from)
  {
    hide Claims, Tracks, NoEviction, Step, Undisturbed, AllIndices;
    if n == 0 {
      SomeIndex(s);
      NothingTracked(start, arrivals, s, from);
    } else {
      SeenIsPartial(start, arrivals, s, from, n - 1);
      ArrivalIsFair(start, arrivals, s, from, n - 1);
      var a, entries, seen := arrivals[n - 1], After(start, arrivals, n - 1), Seen(arrivals, s, n - 1);
      if Claims(s, a) {
        OwnFragment(entries, s, seen, from, a);
        SomeIndex(s);
      } else {
        OthersLeaveAlone(entries, s, seen, from, a);
      }
    }
  }

  lemma NothingTracked(start: Entries, arrivals: seq<Arrival>, s: Sent, from: int)
    requires IsSent(s) && Undisturbed(start, arrivals, s, from)
    ensures Tracks(start, s, {}, from)
  {
  }

  lemma SomeIndex(s: Sent)
    requires IsSent(s)
    ensures 0 in AllIndices(s)
  {
    hide Pieces;
    PiecesAreCounted(s.record, s.maxPayload);
    AtLeastTwoPieces(|s.record|, s.maxPayload);
  }

  // Reassembly undoes segmentation: under any interleaving a fragment yields nothing unless it brings the last missing
  // index, and then it yields exactly the record that was segmented.
  lemma ReassemblyUndoesSegmentation(start: Entries, arrivals: seq<Arrival>, s: Sent, from: int, n: nat)
    requires IsSent(s) && n < |arrivals| && Undisturbed(start, arrivals, s, from)
    ensures Claims(s, arrivals[n]) ==>
      RecordAt(start, arrivals, n)
      == if Seen(arrivals, s, n) + {IndexOf(arrivals[n])} == AllIndices(s) then Some(s.record) else None
  {
    hide Claims, Tracks, NoEviction, Step, AllIndices, Undisturbed;
    SeenIsPartial(start, arrivals, s, from, n);
    ArrivalIsFair(start, arrivals, s, from, n);
    if Claims(s, arrivals[n]) {
      OwnFragment(After(start, arrivals, n), s, Seen(arrivals, s, n), from, arrivals[n]);
    }
  }

  // The record comes out at arrival m.
  predicate YieldedAt(start: Entries, arrivals: seq<Arrival>, s: Sent, m: nat)
    requires IsSent(s) && m < |arrivals|
  {
    Claims(s, arrivals[m]) && RecordAt(start, arrivals, m) == Some(s.record)
  }

  predicate BringsAt(arrivals: seq<Arrival>, s: Sent, n: nat, i: nat)
    requires IsSent(s) && n < |arrivals|
  {
    Claims(s, arrivals[n]) && IndexOf(arrivals[n]) == i
  }

  predicate Brought(arrivals: seq<Arrival>, s: Sent, i: nat)
    requires IsSent(s)
  {
    exists n :: 0 <= n < |arrivals| && BringsAt(arrivals, s, n, i)
  }

  // Once every index has arrived, the record has come out.
  lemma EveryIndexBringsTheRecord(start: Entries, arrivals: seq<Arrival>, s: Sent, from: int)
    requires IsSent(s) && Undisturbed(start, arrivals, s, from)
    requires forall i: nat {:trigger Brought(arrivals, s, i)} :: i < |PiecesOf(s)| ==> Brought(arrivals, s, i)
    ensures exists m :: 0 <= m < |arrivals| && YieldedAt(start, arrivals, s, m)
  {
    hide Claims, Tracks, Step, NoEviction, PiecesOf, Undisturbed;
    if forall m :: 0 <= m < |arrivals| ==> !YieldedAt(start, arrivals, s, m) {
      SeenIsPartial(start, arrivals, s, from, |arrivals|);
      var i :| i in AllIndices(s) && i !in Seen(arrivals, s, |arrivals|);
      assert Brought(arrivals, s, i);
      var n :| 0 <= n < |arrivals| && BringsAt(arrivals, s, n, i);
      SeenStays(start, arrivals, s, from, n, |arrivals|);
    }
  }

  lemma {:induction false} SeenStays(start: Entries, arrivals: seq<Arrival>, s: Sent, from: int, n: nat, upto: nat)
    requires IsSent(s) && Undisturbed(start, arrivals, s, from) && n < upto <= |arrivals| && Claims(s, arrivals[n])
    requires forall m :: 0 <= m < |arrivals| ==> !YieldedAt(start, arrivals, s, m)
    ensures IndexOf(arrivals[n]) in Seen(arrivals, s, upto)
    decreases upto
  {
    hide Claims, Tracks, Step, NoEviction, PiecesOf, RecordAt, Undisturbed, AllIndices, IndexOf;
    if Claims(s, arrivals[upto - 1]) {
      ReassemblyUndoesSegmentation(start, arrivals, s, from, upto - 1);
      assert !YieldedAt(start, arrivals, s, upto - 1);
    }
    if n < upto - 1 {
      SeenStays(start, arrivals, s, from, n, upto - 1);
    }
  }

  // What segmentation puts out is such a record.
  lemma SegmentedIsSent(source: string, record: Bytes, pathMtu: int)
    requires Segmented(record, pathMtu)
    ensures IsSent(Sent(source, FspWire.ParseEstablished(record).value.counter, record, pathMtu - FRAGMENT_HEADER_LEN))
  {
    SegmentedIsFragmentable(record, pathMtu);
  }

  // From end to end: a frame longer than the path MTU that asks for direct transport, and that 128 fragments and 72 KiB can
  // hold, comes out again once a fragment of every index has arrived, whatever order, repetition or other traffic there is.
  lemma DirectFrameComesOut(source: string, frame: FspWire.FspEstablished, pathMtu: int, start: Entries, arrivals: seq<Arrival>, from: int)
    requires FspWire.ValidEstablished(frame) && (frame.flags / 8) % 2 == 1
    requires var size := |FspWire.EstablishedBytes(frame)|; 20 < pathMtu < size <= 73728 && size <= 128 * (pathMtu - 20)
    ensures var s := Sent(source, frame.counter, FspWire.EstablishedBytes(frame), pathMtu - 20);
      && IsSent(s)
      && (Undisturbed(start, arrivals, s, from)
          && (forall i: nat {:trigger Brought(arrivals, s, i)} :: i < |PiecesOf(s)| ==> Brought(arrivals, s, i)) ==>
            exists m :: 0 <= m < |arrivals| && YieldedAt(start, arrivals, s, m))
  {
    var record := FspWire.EstablishedBytes(frame);
    var s := Sent(source, frame.counter, record, pathMtu - 20);
    DirectFramesAreSegmented(frame, pathMtu);
    SegmentedIsSent(source, record, pathMtu);
    hide IsSent, Undisturbed, Brought, PiecesOf, FspWire.EstablishedBytes, FspWire.ValidEstablished, FspWire.ParseEstablished;
    if Undisturbed(start, arrivals, s, from) && forall i: nat {:trigger Brought(arrivals, s, i)} :: i < |PiecesOf(s)| ==> Brought(arrivals, s, i) {
      EveryIndexBringsTheRecord(start, arrivals, s, from);
    }
  }
}
