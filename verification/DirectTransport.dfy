/**
 * DFP1 fragmentation of direct FSP records and their reassembly
 * (packages/core/src/fsp/directTransport.ts).
 */
module DirectTransport {
  import opened Wrappers
  import opened BinaryCodec
  import opened FspWire
  import opened Powers

  const FRAGMENT_HEADER_LEN: nat := 20
  const MAX_REASSEMBLED_LEN: nat := 72 * 1024
  const MAX_FRAGMENTS: nat := 128
  const REASSEMBLY_TTL_MS: nat := 2000
  const MAX_REASSEMBLY_RECORDS: nat := 512
  const FRAGMENT_MAGIC: Bytes := [0x44, 0x46, 0x50, 0x31]  // DFP1

  // ---- One fragment ----

  datatype Fragment = Fragment(recordId: nat, totalLen: nat, index: nat, count: nat, payload: Bytes)

  function FragmentBytes(f: Fragment): (b: Bytes)
    ensures |b| == FRAGMENT_HEADER_LEN + |f.payload|
  {
    FRAGMENT_MAGIC + LittleEndian(f.recordId, 8) + LittleEndian(f.totalLen, 4) + LittleEndian(f.index, 2)
    + LittleEndian(f.count, 2) + f.payload
  }

  predicate IsFragment(b: Bytes) {
    |b| >= 4 && b[..4] == FRAGMENT_MAGIC
  }

  function ReadFragment(b: Bytes): Fragment
    requires |b| >= FRAGMENT_HEADER_LEN
  {
    Fragment(FromLittleEndian(b[4..12]), FromLittleEndian(b[12..16]), FromLittleEndian(b[16..18]), FromLittleEndian(b[18..20]),
             b[FRAGMENT_HEADER_LEN..])
  }

  predicate Acceptable(f: Fragment) {
    && 0 < f.totalLen <= MAX_REASSEMBLED_LEN
    && 1 < f.count <= MAX_FRAGMENTS && f.count <= f.totalLen
    && f.index < f.count
  }

  // What ingest makes of a packet: nothing, or the fragment it goes on with.
  function Accepted(b: Bytes): (r: Option<Fragment>)
    ensures r.Some? ==> |b| > FRAGMENT_HEADER_LEN && Acceptable(r.value) && r.value.payload != [] && r.value == ReadFragment(b)
  {
    if |b| <= FRAGMENT_HEADER_LEN then None
    else
      var f := ReadFragment(b);
      if Acceptable(f) then Some(f) else None
  }

  lemma FragmentRoundTrip(f: Fragment)
    requires f.recordId < Limit(8) && f.totalLen < Limit(4) && f.index < Limit(2) && f.count < Limit(2)
    ensures IsFragment(FragmentBytes(f)) && ReadFragment(FragmentBytes(f)) == f
  {
    var b := FragmentBytes(f);
    assert b[..4] == FRAGMENT_MAGIC;
    assert b[4..12] == LittleEndian(f.recordId, 8);
    assert b[12..16] == LittleEndian(f.totalLen, 4);
    assert b[16..18] == LittleEndian(f.index, 2);
    assert b[18..20] == LittleEndian(f.count, 2);
    assert b[20..] == f.payload;
    IntegerRoundTrip(f.recordId, 8);
    IntegerRoundTrip(f.totalLen, 4);
    IntegerRoundTrip(f.index, 2);
    IntegerRoundTrip(f.count, 2);
  }

  // ---- Segmentation ----

  function PieceCount(len: nat, maxPayload: nat): nat
    requires maxPayload > 0
  {
    (len + maxPayload - 1) / maxPayload
  }

  // The record cut into pieces of maxPayload bytes, the last one shorter.
  function Pieces(record: Bytes, maxPayload: nat): (r: seq<Bytes>)
    requires maxPayload > 0
    ensures Flatten(r) == record
    ensures forall p :: p in r ==> 0 < |p| <= maxPayload
    decreases |record|
  {
    if record == [] then []
    else if |record| <= maxPayload then
      assert Flatten([record]) == record + Flatten([record][1..]) == record;
      [record]
    else
      var rest := Pieces(record[maxPayload..], maxPayload);
      assert ([record[..maxPayload]] + rest)[1..] == rest;
      [record[..maxPayload]] + rest
  }

  function EndOf(start: nat, maxPayload: nat, len: nat): (end: nat)
    requires start <= len
    ensures start <= end <= len
  {
    if start + maxPayload <= len then start + maxPayload else len
  }

  // The i-th piece is read off the record at `start`; the next one maxPayload bytes further on.
  lemma NextPiece(pieces: seq<Bytes>, i: nat, record: Bytes, start: nat, maxPayload: nat)
    requires maxPayload > 0 && i < |pieces| && start <= |record| && pieces[i..] == Pieces(record[start..], maxPayload)
    ensures pieces[i] == record[start..EndOf(start, maxPayload, |record|)]
    ensures i + 1 < |pieces| ==>
      start + maxPayload <= |record| && pieces[i + 1..] == Pieces(record[start + maxPayload..], maxPayload)
  {
    var rest := record[start..];
    assert pieces[i] == pieces[i..][0];
    assert pieces[i + 1..] == pieces[i..][1..];
    if maxPayload < |rest| {
      assert rest[maxPayload..] == record[start + maxPayload..];
    }
  }

  // From the i-th piece on, the pieces are read off the record every maxPayload bytes.
  ghost predicate ReadOff(pieces: seq<Bytes>, i: nat, record: Bytes, start: nat, maxPayload: nat)
    decreases |pieces| - i
  {
    i < |pieces| ==>
      && start <= |record|
      && pieces[i] == record[start..EndOf(start, maxPayload, |record|)]
      && ReadOff(pieces, i + 1, record, start + maxPayload, maxPayload)
  }

  lemma {:induction false} PiecesAreReadOff(pieces: seq<Bytes>, i: nat, record: Bytes, start: nat, maxPayload: nat)
    requires maxPayload > 0 && i <= |pieces|
    requires i < |pieces| ==> start <= |record| && pieces[i..] == Pieces(record[start..], maxPayload)
    ensures ReadOff(pieces, i, record, start, maxPayload)
    decreases |pieces| - i
  {
    hide Pieces, EndOf;
    if i < |pieces| {
      NextPiece(pieces, i, record, start, maxPayload);
      PiecesAreReadOff(pieces, i + 1, record, start + maxPayload, maxPayload);
    }
  }

  lemma WholeRecordIsReadOff(record: Bytes, maxPayload: nat)
    requires maxPayload > 0
    ensures ReadOff(Pieces(record, maxPayload), 0, record, 0, maxPayload)
  {
    var pieces := Pieces(record, maxPayload);
    assert record[0..] == record;
    assert pieces[0..] == pieces;
    PiecesAreReadOff(pieces, 0, record, 0, maxPayload);
  }

  lemma OneMorePiece(len: nat, maxPayload: nat)
    requires maxPayload > 0
    ensures PieceCount(len + maxPayload, maxPayload) == PieceCount(len, maxPayload) + 1
  {
    var n := len + maxPayload - 1;
    var q := n / maxPayload;
    assert q * maxPayload <= n < q * maxPayload + maxPayload;
    assert (q + 1) * maxPayload == q * maxPayload + maxPayload;
    DivisionIs(n + maxPayload, q + 1, n % maxPayload, maxPayload);
  }

  lemma AtMostOnePiece(len: nat, maxPayload: nat)
    requires len <= maxPayload && maxPayload > 0
    ensures PieceCount(len, maxPayload) == if len == 0 then 0 else 1
  {
    DivisionIs(len + maxPayload - 1, if len == 0 then 0 else 1, if len == 0 then maxPayload - 1 else len - 1, maxPayload);
  }

  lemma {:induction false} PiecesAreCounted(record: Bytes, maxPayload: nat)
    requires maxPayload > 0
    ensures |Pieces(record, maxPayload)| == PieceCount(|record|, maxPayload)
    decreases |record|
  {
    hide PieceCount;
    if |record| > maxPayload {
      PiecesAreCounted(record[maxPayload..], maxPayload);
      OneMorePiece(|record| - maxPayload, maxPayload);
    } else {
      AtMostOnePiece(|record|, maxPayload);
    }
  }

  datatype SegmentError =
    BadPathMtu | RecordTooLong | NotEstablished | NotDirectTransport | PathMtuTooSmall | TooManyFragments

  datatype Segmentation = Packets(packets: seq<Bytes>) | Refused(error: SegmentError)

  // Why a record is refused, if it is.
  function Refusal(record: Bytes, pathMtu: int): Option<SegmentError> {
    if pathMtu <= 0 then Some(BadPathMtu)
    else if |record| <= pathMtu then None
    else if |record| > MAX_REASSEMBLED_LEN then Some(RecordTooLong)
    else if ParseEstablished(record).None? then Some(NotEstablished)
    else if !HasFlag(ParseEstablished(record).value.flags, FSP_FLAG_DIRECT_TRANSPORT) then Some(NotDirectTransport)
    else if pathMtu <= FRAGMENT_HEADER_LEN then Some(PathMtuTooSmall)
    else if PieceCount(|record|, pathMtu - FRAGMENT_HEADER_LEN) > MAX_FRAGMENTS then Some(TooManyFragments)
    else None
  }

  // The record goes out as DFP1 fragments.
  predicate Segmented(record: Bytes, pathMtu: int) {
    Refusal(record, pathMtu).None? && |record| > pathMtu
  }

  // A record and payload size whose fragments a reassembler takes: more than one piece, and not too many.
  predicate Fragmentable(record: Bytes, maxPayload: nat) {
    0 < maxPayload < |record| <= MAX_REASSEMBLED_LEN && |Pieces(record, maxPayload)| <= MAX_FRAGMENTS
  }

  function FragmentOf(recordId: nat, record: Bytes, maxPayload: nat, index: nat): Fragment
    requires maxPayload > 0 && index < |Pieces(record, maxPayload)|
  {
    var pieces := Pieces(record, maxPayload);
    Fragment(recordId, |record|, index, |pieces|, pieces[index])
  }

  function Fragments(recordId: nat, record: Bytes, maxPayload: nat): seq<Bytes>
    requires maxPayload > 0
  {
    var pieces := Pieces(record, maxPayload);
    FragmentsOf(recordId, |record|, pieces, |pieces|)
  }

  // As many pieces as the header can count.
  lemma FewPiecesExactlyIf(len: nat, maxPayload: nat)
    requires maxPayload > 0
    ensures PieceCount(len, maxPayload) <= 128 <==> len <= 128 * maxPayload
  {
    var n := len + maxPayload - 1;
    QuotientBounds(n, maxPayload);
    if n / maxPayload <= 128 {
      MoreTimes(n / maxPayload, 128, maxPayload);
    } else {
      MoreTimes(129, n / maxPayload, maxPayload);
    }
  }

  lemma QuotientBounds(n: nat, m: nat)
    requires m > 0
    ensures (n / m) * m <= n < (n / m) * m + m
  {
  }

  lemma MoreTimes(a: nat, b: nat, m: nat)
    requires a <= b
    ensures a * m <= b * m
  {
    assert b * m == a * m + (b - a) * m;
  }

  // A record longer than the path MTU that goes out in fragments, from its bytes.
  predicate FitsTransport(record: Bytes, pathMtu: int) {
    && |record| <= 73728 && 20 < pathMtu && |record| <= 128 * (pathMtu - 20)
    && ParseEstablished(record).Some? && (ParseEstablished(record).value.flags / 8) % 2 == 1
  }

  lemma SegmentedExactlyIf(record: Bytes, pathMtu: int)
    requires 0 < pathMtu < |record|
    ensures Segmented(record, pathMtu) <==> FitsTransport(record, pathMtu)
  {
    hide ParseEstablished, PieceCount;
    if pathMtu > 20 {
      FewPiecesExactlyIf(|record|, pathMtu - 20);
    }
  }

  // For the frames that exist: those that ask for direct transport, as far as 128 fragments of this path and 72 KiB reach.
  lemma DirectFramesAreSegmented(frame: FspEstablished, pathMtu: int)
    requires ValidEstablished(frame) && 0 < pathMtu < |EstablishedBytes(frame)|
    ensures var record := EstablishedBytes(frame);
      && (Segmented(record, pathMtu) <==>
        (frame.flags / 8) % 2 == 1 && |record| <= 73728 && 20 < pathMtu && |record| <= 128 * (pathMtu - 20))
      && ParseEstablished(record).Some? && ParseEstablished(record).value.counter == frame.counter
  {
    SegmentedExactlyIf(EstablishedBytes(frame), pathMtu);
    EstablishedRoundTrip(frame);
    hide ParseEstablished, EstablishedBytes, Segmented;
  }

  method SegmentRecord(record: Bytes, pathMtu: int) returns (r: Segmentation)
    ensures 0 < pathMtu < |record| ==> (r.Packets? <==> FitsTransport(record, pathMtu))
    ensures 0 < pathMtu && |record| <= pathMtu ==> r == Packets([record])
    ensures pathMtu <= 0 ==> r == Refused(BadPathMtu)
    ensures Refusal(record, pathMtu).Some? ==> r == Refused(Refusal(record, pathMtu).value)
    ensures Refusal(record, pathMtu).None? && !Segmented(record, pathMtu) ==> r == Packets([record])
    ensures Segmented(record, pathMtu) ==>
      r == Packets(Fragments(ParseEstablished(record).value.counter, record, pathMtu - FRAGMENT_HEADER_LEN))
  {
    if 0 < pathMtu < |record| {
      SegmentedExactlyIf(record, pathMtu);
    }
    hide FragmentBytes, Pieces, ParseEstablished, FragmentsOf, HasFlag, PieceCount, FitsTransport;
    if pathMtu <= 0 {
      return Refused(BadPathMtu);
    }
    if |record| <= pathMtu {
      return Packets([record]);
    }
    if |record| > MAX_REASSEMBLED_LEN {
      return Refused(RecordTooLong);
    }
    var decoded := DecodeEstablished(record);
    if decoded.Err? {
      return Refused(NotEstablished);
    }
    var established := decoded.value;
    if !HasFlag(established.flags, FSP_FLAG_DIRECT_TRANSPORT) {
      return Refused(NotDirectTransport);
    }
    var maxPayload := pathMtu - FRAGMENT_HEADER_LEN;
    if maxPayload <= 0 {
      return Refused(PathMtuTooSmall);
    }
    var fragmentCount := PieceCount(|record|, maxPayload);
    if fragmentCount > MAX_FRAGMENTS {
      return Refused(TooManyFragments);
    }
    PiecesAreCounted(record, maxPayload);
    var fragments := Cut(record, established.counter, maxPayload, fragmentCount);
    r := Packets(fragments);
  }

  // The fragments that carry the first n pieces.
  function FragmentsOf(counter: nat, totalLen: nat, pieces: seq<Bytes>, n: nat): (r: seq<Bytes>)
    requires n <= |pieces|
    ensures |r| == n
  {
    if n == 0 then []
    else FragmentsOf(counter, totalLen, pieces, n - 1) + [FragmentBytes(Fragment(counter, totalLen, n - 1, |pieces|, pieces[n - 1]))]
  }

  lemma {:induction false} FragmentsOfAt(counter: nat, totalLen: nat, pieces: seq<Bytes>, n: nat, i: nat)
    requires i < n <= |pieces|
    ensures FragmentsOf(counter, totalLen, pieces, n)[i] == FragmentBytes(Fragment(counter, totalLen, i, |pieces|, pieces[i]))
  {
    if i < n - 1 {
      FragmentsOfAt(counter, totalLen, pieces, n - 1, i);
    }
  }

  lemma NextReadOff(pieces: seq<Bytes>, i: nat, record: Bytes, start: nat, maxPayload: nat)
    requires i < |pieces| && ReadOff(pieces, i, record, start, maxPayload)
    ensures start <= |record| && pieces[i] == record[start..EndOf(start, maxPayload, |record|)]
    ensures ReadOff(pieces, i + 1, record, start + maxPayload, maxPayload)
  {
  }

  lemma OneMoreFragment(counter: nat, totalLen: nat, pieces: seq<Bytes>, n: nat)
    requires n < |pieces|
    ensures FragmentsOf(counter, totalLen, pieces, n + 1)
      == FragmentsOf(counter, totalLen, pieces, n) + [FragmentBytes(Fragment(counter, totalLen, n, |pieces|, pieces[n]))]
  {
  }

  // The loop of segmentDirectFspTransportRecord; start is index * maxPayload.
  method Cut(record: Bytes, counter: nat, maxPayload: nat, fragmentCount: nat) returns (fragments: seq<Bytes>)
    requires maxPayload > 0 && |Pieces(record, maxPayload)| == fragmentCount
    ensures fragments == FragmentsOf(counter, |record|, Pieces(record, maxPayload), fragmentCount)
  {
    hide FragmentBytes, Pieces, ReadOff;
    ghost var pieces := Pieces(record, maxPayload);
    WholeRecordIsReadOff(record, maxPayload);
    fragments := [];
    var start := 0;
    for index := 0 to fragmentCount
      invariant fragments == FragmentsOf(counter, |record|, pieces, index)
      invariant ReadOff(pieces, index, record, start, maxPayload)
    {
      hide FragmentsOf;
      NextReadOff(pieces, index, record, start, maxPayload);
      OneMoreFragment(counter, |record|, pieces, index);
      var payload := record[start..EndOf(start, maxPayload, |record|)];
      fragments := fragments + [FragmentBytes(Fragment(counter, |record|, index, fragmentCount, payload))];
      start := start + maxPayload;
    }
  }

  lemma SegmentedIsFragmentable(record: Bytes, pathMtu: int)
    requires Segmented(record, pathMtu)
    ensures Fragmentable(record, pathMtu - FRAGMENT_HEADER_LEN) && ParseEstablished(record).value.counter < Limit(8)
  {
    PiecesAreCounted(record, pathMtu - FRAGMENT_HEADER_LEN);
    CounterIsU64(record);
  }

  // Every fragment fits the path MTU, is recognised, and is accepted as what it is.
  lemma FragmentsAreAccepted(recordId: nat, record: Bytes, maxPayload: nat, i: nat)
    requires recordId < Limit(8) && Fragmentable(record, maxPayload) && i < |Pieces(record, maxPayload)|
    ensures var b := Fragments(recordId, record, maxPayload)[i];
      && |b| <= maxPayload + FRAGMENT_HEADER_LEN && IsFragment(b) && Accepted(b) == Some(FragmentOf(recordId, record, maxPayload, i))
  {
    hide Limit;
    var pieces := Pieces(record, maxPayload);
    PiecesAreCounted(record, maxPayload);
    assert pieces[i] in pieces;
    AtLeastTwoPieces(|record|, maxPayload);
    NoMorePiecesThanBytes(pieces);
    AcceptableIsAccepted(FragmentOf(recordId, record, maxPayload, i));
    FragmentsOfAt(recordId, |record|, pieces, |pieces|, i);
  }

  lemma AcceptableIsAccepted(f: Fragment)
    requires Acceptable(f) && f.recordId < Limit(8) && f.payload != []
    ensures IsFragment(FragmentBytes(f)) && Accepted(FragmentBytes(f)) == Some(f)
  {
    Limits();
    FragmentRoundTrip(f);
  }

  lemma CounterIsU64(record: Bytes)
    requires ParseEstablished(record).Some?
    ensures ParseEstablished(record).value.counter < Limit(8)
  {
    EstablishedIsCanonical(record);
  }

  lemma Limits()
    ensures Limit(2) == 0x1_0000 && Limit(4) == 0x1_0000_0000
  {
    assert Limit(4) == 256 * Limit(3) == 65536 * Limit(2);
  }

  lemma AtLeastTwoPieces(len: nat, maxPayload: nat)
    requires 0 < maxPayload < len
    ensures PieceCount(len, maxPayload) >= 2
  {
    assert len + maxPayload - 1 >= 2 * maxPayload;
  }

  lemma {:induction false} NoMorePiecesThanBytes(pieces: seq<Bytes>)
    requires forall p :: p in pieces ==> |p| > 0
    ensures |pieces| <= |Flatten(pieces)|
  {
    if pieces != [] {
      NoMorePiecesThanBytes(pieces[1..]);
      assert pieces[0] in pieces;
    }
  }
}
