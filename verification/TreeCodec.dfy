/**
 * The TreeAnnounce frame (packages/core/src/protocol/tree.ts), and the step from 16-byte addresses
 * to the numbers by which the election orders them (packages/core/src/nodeaddr/index.ts).
 */
module TreeCodec {
  import opened Wrappers
  import opened BinaryCodec
  import opened CoordLists
  import TreeElection

  const TREE_ANNOUNCE_TYPE: nat := 0x10
  const TREE_ANNOUNCE_VERSION: nat := 1
  const TREE_COORD_ENTRY_SIZE: nat := 32
  const TREE_ANNOUNCE_MIN_PAYLOAD_SIZE: nat := 99
  const SIGNATURE_LEN: nat := 64

  datatype Entry = Entry(nodeAddr: Bytes, sequence: nat, timestamp: nat)

  datatype TreeAnnounce = TreeAnnounce(sequence: nat, timestamp: nat, parent: Bytes, ancestry: seq<Entry>, signature: Bytes)

  // ---- Address order ----

  // compareNodeAddr(a, b) < 0: the first differing byte decides.
  predicate Before(a: Bytes, b: Bytes)
    requires |a| == |b|
  {
    a != [] && (a[0] < b[0] || (a[0] == b[0] && Before(a[1..], b[1..])))
  }

  function BigEndian(b: Bytes): (n: nat)
    ensures n < Limit(|b|)
  {
    if b == [] then 0
    else
      BigEndianStep(b[0], BigEndian(b[1..]), Limit(|b| - 1));
      b[0] * Limit(|b| - 1) + BigEndian(b[1..])
  }

  lemma BigEndianStep(d: Byte, low: nat, limit: nat)
    requires low < limit
    ensures 0 <= d * limit + low < 256 * limit
  {
    assert d * limit <= 255 * limit;
  }

  lemma {:induction false} Multiples(a: nat, b: nat, limit: nat)
    requires a <= b
    ensures a * limit <= b * limit
    decreases b
  {
    if a < b {
      Multiples(a, b - 1, limit);
      assert b * limit == (b - 1) * limit + limit;
    }
  }

  lemma DigitDecides(d: Byte, e: Byte, low: nat, high: nat, limit: nat)
    requires d < e && low < limit
    ensures d * limit + low < e * limit + high
  {
    Multiples(d + 1, e, limit);
    assert (d + 1) * limit == d * limit + limit;
  }

  // Byte order is the order of the numbers the addresses spell.
  lemma {:induction false} ByteOrderIsNumeric(a: Bytes, b: Bytes)
    requires |a| == |b|
    ensures Before(a, b) <==> BigEndian(a) < BigEndian(b)
    ensures a == b <==> BigEndian(a) == BigEndian(b)
  {
    if a != [] {
      ByteOrderIsNumeric(a[1..], b[1..]);
      var limit := Limit(|a| - 1);
      if a[0] < b[0] {
        DigitDecides(a[0], b[0], BigEndian(a[1..]), BigEndian(b[1..]), limit);
      } else if b[0] < a[0] {
        DigitDecides(b[0], a[0], BigEndian(b[1..]), BigEndian(a[1..]), limit);
      } else {
        assert a == [a[0]] + a[1..] && b == [b[0]] + b[1..];
      }
    }
  }

  // ---- Validation ----

  predicate WellSized(ancestry: seq<Entry>) {
    forall e :: e in ancestry ==> |e.nodeAddr| == ADDR_LEN && e.sequence < Limit(8) && e.timestamp < Limit(8)
  }

  // validateTreeAnnounceSemantics
  predicate Semantics(parent: Bytes, ancestry: seq<Entry>)
    requires |parent| == ADDR_LEN && WellSized(ancestry)
  {
    && ancestry != []
    && (var isRoot := ancestry[0].nodeAddr == parent;
        && (isRoot ==> |ancestry| == 1)
        && (!isRoot ==> |ancestry| > 1 && ancestry[1].nodeAddr == parent))
    && (forall i :: 0 <= i < |ancestry| ==> !Before(ancestry[i].nodeAddr, ancestry[|ancestry| - 1].nodeAddr))
  }

  function Abstract(ancestry: seq<Entry>): (r: seq<TreeElection.Entry>)
    ensures |r| == |ancestry|
    ensures forall i :: 0 <= i < |r| ==>
      r[i] == TreeElection.Entry(BigEndian(ancestry[i].nodeAddr), ancestry[i].sequence, ancestry[i].timestamp)
  {
    if ancestry == [] then []
    else [TreeElection.Entry(BigEndian(ancestry[0].nodeAddr), ancestry[0].sequence, ancestry[0].timestamp)] + Abstract(ancestry[1..])
  }

  // What the decoder accepts is what the election requires of an announcement.
  lemma SemanticsAgree(parent: Bytes, ancestry: seq<Entry>)
    requires |parent| == ADDR_LEN && WellSized(ancestry)
    ensures Semantics(parent, ancestry) <==> TreeElection.ValidAncestry(BigEndian(parent), Abstract(ancestry))
  {
    if ancestry != [] {
      var last := ancestry[|ancestry| - 1].nodeAddr;
      forall i | 0 <= i < |ancestry|
        ensures Before(ancestry[i].nodeAddr, last) <==> BigEndian(ancestry[i].nodeAddr) < BigEndian(last)
        ensures ancestry[i].nodeAddr == parent <==> BigEndian(ancestry[i].nodeAddr) == BigEndian(parent)
      {
        ByteOrderIsNumeric(ancestry[i].nodeAddr, last);
        ByteOrderIsNumeric(ancestry[i].nodeAddr, parent);
      }
    }
  }

  // ---- The format ----

  function EntryBytes(e: Entry): Bytes {
    e.nodeAddr + LittleEndian(e.sequence, 8) + LittleEndian(e.timestamp, 8)
  }

  function EntriesBytes(ancestry: seq<Entry>): Bytes {
    if ancestry == [] then [] else EntryBytes(ancestry[0]) + EntriesBytes(ancestry[1..])
  }

  function ParseEntry(b: Bytes): (r: Option<Parsed<Entry>>)
    ensures r.Some? <==> TREE_COORD_ENTRY_SIZE <= |b|
    ensures r.Some? ==> |r.value.rest| == |b| - TREE_COORD_ENTRY_SIZE && WellSized([r.value.value])
  {
    var node :- ParseBytes(b, ADDR_LEN);
    var sequence :- ParseInteger(node.rest, 8);
    var timestamp :- ParseInteger(sequence.rest, 8);
    Some(Parsed(Entry(node.value, sequence.value, timestamp.value), timestamp.rest))
  }

  function ParseEntries(b: Bytes, count: nat): (r: Option<Parsed<seq<Entry>>>)
    ensures r.Some? ==> |r.value.value| == count && WellSized(r.value.value)
  {
    if count == 0 then Some(Parsed([], b))
    else
      var head :- ParseEntry(b);
      var tail :- ParseEntries(head.rest, count - 1);
      Some(Parsed([head.value] + tail.value, tail.rest))
  }

  lemma ParseEntryInverse(e: Entry, rest: Bytes)
    requires WellSized([e])
    ensures ParseEntry(EntryBytes(e) + rest) == Some(Parsed(e, rest))
  {
    assert e in [e];
    Regroup4(e.nodeAddr, LittleEndian(e.sequence, 8), LittleEndian(e.timestamp, 8), rest);
    ParseBytesInverse(e.nodeAddr, LittleEndian(e.sequence, 8) + (LittleEndian(e.timestamp, 8) + rest));
    ParseIntegerInverse(e.sequence, 8, LittleEndian(e.timestamp, 8) + rest);
    ParseIntegerInverse(e.timestamp, 8, rest);
  }

  lemma ParsedEntryIsCanonical(b: Bytes)
    requires ParseEntry(b).Some?
    ensures var p := ParseEntry(b).value; EntryBytes(p.value) + p.rest == b
  {
    var node := ParseBytes(b, ADDR_LEN).value;
    ParsedIntegerIsCanonical(node.rest, 8);
    var sequence := ParseInteger(node.rest, 8).value;
    ParsedIntegerIsCanonical(sequence.rest, 8);
    var timestamp := ParseInteger(sequence.rest, 8).value;
    Regroup4(node.value, LittleEndian(sequence.value, 8), LittleEndian(timestamp.value, 8), timestamp.rest);
  }

  lemma {:induction false} ParseEntriesInverse(ancestry: seq<Entry>, rest: Bytes)
    requires WellSized(ancestry)
    ensures ParseEntries(EntriesBytes(ancestry) + rest, |ancestry|) == Some(Parsed(ancestry, rest))
  {
    if ancestry == [] {
      assert EntriesBytes(ancestry) + rest == rest;
    } else {
      Regroup3(EntryBytes(ancestry[0]), EntriesBytes(ancestry[1..]), rest);
      ParseEntryInverse(ancestry[0], EntriesBytes(ancestry[1..]) + rest);
      ParseEntriesInverse(ancestry[1..], rest);
      assert [ancestry[0]] + ancestry[1..] == ancestry;
    }
  }

  lemma {:induction false} ParsedEntriesAreCanonical(b: Bytes, count: nat)
    requires ParseEntries(b, count).Some?
    ensures var p := ParseEntries(b, count).value; EntriesBytes(p.value) + p.rest == b
  {
    if count > 0 {
      var head := ParseEntry(b).value;
      ParsedEntryIsCanonical(b);
      ParsedEntriesAreCanonical(head.rest, count - 1);
      var tail := ParseEntries(head.rest, count - 1).value;
      assert ([head.value] + tail.value)[1..] == tail.value;
      Regroup3(EntryBytes(head.value), EntriesBytes(tail.value), tail.rest);
    }
  }

  lemma {:induction false} EntriesLength(ancestry: seq<Entry>)
    requires WellSized(ancestry)
    ensures |EntriesBytes(ancestry)| == |ancestry| * TREE_COORD_ENTRY_SIZE
  {
    if ancestry != [] {
      EntriesLength(ancestry[1..]);
    }
  }

  lemma {:induction false} EntriesSnoc(ancestry: seq<Entry>, e: Entry)
    ensures EntriesBytes(ancestry + [e]) == EntriesBytes(ancestry) + EntryBytes(e)
  {
    if ancestry == [] {
      assert ([] + [e])[1..] == [];
    } else {
      EntriesSnoc(ancestry[1..], e);
      assert (ancestry + [e])[1..] == ancestry[1..] + [e];
    }
  }

  predicate ValidTreeAnnounce(m: TreeAnnounce) {
    && m.sequence < Limit(8) && m.timestamp < Limit(8) && |m.parent| == ADDR_LEN && |m.signature| == SIGNATURE_LEN
    && |m.ancestry| < Limit(2) && WellSized(m.ancestry) && Semantics(m.parent, m.ancestry)
  }

  function HeadBytes(m: TreeAnnounce): Bytes {
    [TREE_ANNOUNCE_TYPE, TREE_ANNOUNCE_VERSION] + LittleEndian(m.sequence, 8) + LittleEndian(m.timestamp, 8) + m.parent
    + LittleEndian(|m.ancestry|, 2)
  }

  function TreeAnnounceBytes(m: TreeAnnounce): Bytes {
    HeadBytes(m) + EntriesBytes(m.ancestry) + m.signature
  }

  datatype Head = Head(sequence: nat, timestamp: nat, parent: Bytes, count: nat)

  function ParseHead(b: Bytes): (r: Option<Parsed<Head>>)
    ensures r.Some? ==> |r.value.value.parent| == ADDR_LEN && r.value.value.count < Limit(2)
    ensures r.Some? ==> r.value.value.sequence < Limit(8) && r.value.value.timestamp < Limit(8)
  {
    var msgType :- ParseInteger(b, 1);
    var version :- ParseInteger(msgType.rest, 1);
    if msgType.value != TREE_ANNOUNCE_TYPE || version.value != TREE_ANNOUNCE_VERSION then None
    else
      var sequence :- ParseInteger(version.rest, 8);
      var timestamp :- ParseInteger(sequence.rest, 8);
      var parent :- ParseBytes(timestamp.rest, ADDR_LEN);
      var count :- ParseInteger(parent.rest, 2);
      Some(Parsed(Head(sequence.value, timestamp.value, parent.value, count.value), count.rest))
  }

  function ParseTreeAnnounce(b: Bytes): Option<TreeAnnounce> {
    if |b| < 1 + TREE_ANNOUNCE_MIN_PAYLOAD_SIZE then None
    else
      var head :- ParseHead(b);
      if head.value.count == 0 || |head.rest| != head.value.count * TREE_COORD_ENTRY_SIZE + SIGNATURE_LEN then None
      else
        var entries :- ParseEntries(head.rest, head.value.count);
        var signature :- ParseBytes(entries.rest, SIGNATURE_LEN);
        if !Semantics(head.value.parent, entries.value) then None
        else Some(TreeAnnounce(head.value.sequence, head.value.timestamp, head.value.parent, entries.value, signature.value))
  }

  lemma ParseHeadInverse(m: TreeAnnounce, rest: Bytes)
    requires ValidTreeAnnounce(m)
    ensures ParseHead(HeadBytes(m) + rest) == Some(Parsed(Head(m.sequence, m.timestamp, m.parent, |m.ancestry|), rest))
  {
    var d := LittleEndian(|m.ancestry|, 2) + rest;
    var c := LittleEndian(m.timestamp, 8) + (m.parent + d);
    var b := LittleEndian(m.sequence, 8) + c;
    Regroup6([TREE_ANNOUNCE_TYPE, TREE_ANNOUNCE_VERSION], LittleEndian(m.sequence, 8), LittleEndian(m.timestamp, 8), m.parent,
             LittleEndian(|m.ancestry|, 2), rest);
    assert HeadBytes(m) + rest == [TREE_ANNOUNCE_TYPE] + ([TREE_ANNOUNCE_VERSION] + b);
    OneByte(TREE_ANNOUNCE_TYPE);
    OneByte(TREE_ANNOUNCE_VERSION);
    ParseIntegerInverse(TREE_ANNOUNCE_TYPE, 1, [TREE_ANNOUNCE_VERSION] + b);
    ParseIntegerInverse(TREE_ANNOUNCE_VERSION, 1, b);
    ParseIntegerInverse(m.sequence, 8, c);
    ParseIntegerInverse(m.timestamp, 8, m.parent + d);
    ParseBytesInverse(m.parent, d);
    ParseIntegerInverse(|m.ancestry|, 2, rest);
  }

  lemma ParsedHeadIsCanonical(b: Bytes, m: TreeAnnounce)
    requires ParseHead(b).Some? && ParseHead(b).value.value == Head(m.sequence, m.timestamp, m.parent, |m.ancestry|)
    ensures HeadBytes(m) + ParseHead(b).value.rest == b
  {
    ParsedIntegerIsCanonical(b, 1);
    OneByte(TREE_ANNOUNCE_TYPE);
    var afterType := ParseInteger(b, 1).value.rest;
    ParsedIntegerIsCanonical(afterType, 1);
    OneByte(TREE_ANNOUNCE_VERSION);
    var afterVersion := ParseInteger(afterType, 1).value.rest;
    ParsedIntegerIsCanonical(afterVersion, 8);
    var afterSequence := ParseInteger(afterVersion, 8).value.rest;
    ParsedIntegerIsCanonical(afterSequence, 8);
    var afterTimestamp := ParseInteger(afterSequence, 8).value.rest;
    var afterParent := ParseBytes(afterTimestamp, ADDR_LEN).value.rest;
    ParsedIntegerIsCanonical(afterParent, 2);
    Regroup6([TREE_ANNOUNCE_TYPE, TREE_ANNOUNCE_VERSION], LittleEndian(m.sequence, 8), LittleEndian(m.timestamp, 8), m.parent,
             LittleEndian(|m.ancestry|, 2), ParseHead(b).value.rest);
    assert b == [TREE_ANNOUNCE_TYPE] + ([TREE_ANNOUNCE_VERSION] + afterVersion);
  }

  // Decoding undoes encoding.
  lemma TreeAnnounceRoundTrip(m: TreeAnnounce)
    requires ValidTreeAnnounce(m)
    ensures ParseTreeAnnounce(TreeAnnounceBytes(m)) == Some(m)
  {
    hide ParseHead, ParseEntries, EntriesBytes, LittleEndian, Limit;
    var rest := EntriesBytes(m.ancestry) + m.signature;
    Regroup3(HeadBytes(m), EntriesBytes(m.ancestry), m.signature);
    ParseHeadInverse(m, rest);
    EntriesLength(m.ancestry);
    ParseEntriesInverse(m.ancestry, m.signature);
    assert m.signature + [] == m.signature;
    ParseBytesInverse(m.signature, []);
  }

  // Every accepted frame is the encoding of what it decodes to.
  lemma TreeAnnounceIsCanonical(b: Bytes)
    ensures var r := ParseTreeAnnounce(b); r.Some? ==> ValidTreeAnnounce(r.value) && TreeAnnounceBytes(r.value) == b
  {
    hide ParseHead, ParseEntries, HeadBytes, EntriesBytes, Semantics, Limit;
    var r := ParseTreeAnnounce(b);
    if r.Some? {
      var m := r.value;
      ParsedHeadIsCanonical(b, m);
      var rest := ParseHead(b).value.rest;
      ParsedEntriesAreCanonical(rest, |m.ancestry|);
      EntriesLength(m.ancestry);
      Regroup3(HeadBytes(m), EntriesBytes(m.ancestry), m.signature);
    }
  }

  // ---- Encoder and decoder ----

  method EncodeTreeAnnounce(m: TreeAnnounce) returns (r: Result<Bytes>)
    requires |m.parent| == ADDR_LEN && WellSized(m.ancestry)
    ensures r.Ok? <==> ValidTreeAnnounce(m)
    ensures r.Ok? ==> r.value == TreeAnnounceBytes(m)
  {
    if !Semantics(m.parent, m.ancestry) {
      return Err("TreeAnnounce ancestry is inconsistent");
    }
    if |m.signature| != SIGNATURE_LEN {
      return Err("TreeAnnounce signature must be 64 bytes");
    }
    var w := new BinaryWriter();
    w.PutBytes([TREE_ANNOUNCE_TYPE, TREE_ANNOUNCE_VERSION]);
    assert w.written == [TREE_ANNOUNCE_TYPE, TREE_ANNOUNCE_VERSION];
    var _ :- w.PutInteger(m.sequence, 8);
    var _ :- w.PutInteger(m.timestamp, 8);
    w.PutBytes(m.parent);
    var _ :- w.PutInteger(|m.ancestry|, 2);
    WriteEntries(w, m.ancestry);
    w.PutBytes(m.signature);
    var out := w.ToBytes();
    r := Ok(out);
  }

  method WriteEntry(w: BinaryWriter, e: Entry)
    requires w.Valid() && e.sequence < Limit(8) && e.timestamp < Limit(8)
    modifies w
    ensures w.Valid() && w.written == old(w.written) + EntryBytes(e)
  {
    hide LittleEndian, Limit;
    w.PutBytes(e.nodeAddr);
    var _ := w.PutInteger(e.sequence, 8);
    var _ := w.PutInteger(e.timestamp, 8);
    Regroup4(old(w.written), e.nodeAddr, LittleEndian(e.sequence, 8), LittleEndian(e.timestamp, 8));
    Regroup3(e.nodeAddr, LittleEndian(e.sequence, 8), LittleEndian(e.timestamp, 8));
  }

  method WriteEntries(w: BinaryWriter, ancestry: seq<Entry>)
    requires w.Valid() && WellSized(ancestry)
    modifies w
    ensures w.Valid() && w.written == old(w.written) + EntriesBytes(ancestry)
  {
    for i := 0 to |ancestry|
      invariant w.Valid() && w.written == old(w.written) + EntriesBytes(ancestry[..i])
    {
      hide EntryBytes, EntriesBytes, Limit;
      Regroup3(old(w.written), EntriesBytes(ancestry[..i]), EntryBytes(ancestry[i]));
      WriteEntry(w, ancestry[i]);
      EntriesSnoc(ancestry[..i], ancestry[i]);
      assert ancestry[..i + 1] == ancestry[..i] + [ancestry[i]];
    }
    assert ancestry[..|ancestry|] == ancestry;
  }

  method ReadHead(reader: BinaryReader) returns (r: Result<Head>)
    requires reader.Valid()
    modifies reader
    ensures reader.Valid()
    ensures match ParseHead(old(reader.rest))
      case None => r.Err?
      case Some(p) => r == Ok(p.value) && reader.rest == p.rest
  {
    var msgType :- reader.GetInteger(1);
    if msgType != TREE_ANNOUNCE_TYPE {
      return Err("not a TreeAnnounce");
    }
    var version :- reader.GetInteger(1);
    if version != TREE_ANNOUNCE_VERSION {
      return Err("unsupported TreeAnnounce version");
    }
    var sequence :- reader.GetInteger(8);
    var timestamp :- reader.GetInteger(8);
    var parent :- reader.GetBytes(ADDR_LEN);
    var count :- reader.GetInteger(2);
    r := Ok(Head(sequence, timestamp, parent, count));
  }

  method ReadEntries(reader: BinaryReader, count: nat) returns (ancestry: seq<Entry>)
    requires reader.Valid() && count * TREE_COORD_ENTRY_SIZE <= |reader.rest|
    modifies reader
    ensures reader.Valid() && ParseEntries(old(reader.rest), count) == Some(Parsed(ancestry, reader.rest))
  {
    ancestry := [];
    for i := 0 to count
      invariant reader.Valid() && |ancestry| == i && WellSized(ancestry)
      invariant (count - i) * TREE_COORD_ENTRY_SIZE <= |reader.rest|
      invariant old(reader.rest) == EntriesBytes(ancestry) + reader.rest
    {
      ghost var before := reader.rest;
      ParsedEntryIsCanonical(before);
      var entry := ReadEntry(reader);
      EntriesSnoc(ancestry, entry);
      Regroup3(EntriesBytes(ancestry), EntryBytes(entry), reader.rest);
      ancestry := ancestry + [entry];
    }
    ParseEntriesInverse(ancestry, reader.rest);
  }

  method ReadEntry(reader: BinaryReader) returns (e: Entry)
    requires reader.Valid() && TREE_COORD_ENTRY_SIZE <= |reader.rest|
    modifies reader
    ensures reader.Valid() && ParseEntry(old(reader.rest)) == Some(Parsed(e, reader.rest))
  {
    var node := reader.GetBytes(ADDR_LEN);
    var sequence := reader.GetInteger(8);
    var timestamp := reader.GetInteger(8);
    e := Entry(node.value, sequence.value, timestamp.value);
  }

  method DecodeTreeAnnounce(b: Bytes) returns (r: Result<TreeAnnounce>)
    ensures match ParseTreeAnnounce(b)
      case None => r.Err?
      case Some(m) => r == Ok(m)
  {
    if |b| < 1 + TREE_ANNOUNCE_MIN_PAYLOAD_SIZE {
      return Err("TreeAnnounce too short");
    }
    var reader := new BinaryReader(b);
    var head :- ReadHead(reader);
    if head.count == 0 || reader.Remaining() != head.count * TREE_COORD_ENTRY_SIZE + SIGNATURE_LEN {
      return Err("invalid TreeAnnounce ancestry length");
    }
    var ancestry := ReadEntries(reader, head.count);
    var signature :- reader.GetBytes(SIGNATURE_LEN);
    if !Semantics(head.parent, ancestry) {
      return Err("TreeAnnounce ancestry is inconsistent");
    }
    r := Ok(TreeAnnounce(head.sequence, head.timestamp, head.parent, ancestry, signature));
  }
}
