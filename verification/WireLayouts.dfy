/**
 * Which bytes the decoders accept and what they read where: each format by its offsets
 * (packages/core/src/codec/binary.ts, packages/core/src/protocol/discovery.ts, packages/core/src/protocol/tree.ts,
 * packages/core/src/fsp/wire.ts, packages/core/src/fsp/directTransport.ts).
 */
module WireLayouts {
  import opened Wrappers
  import opened BinaryCodec
  import opened CoordLists
  import opened DiscoveryCodec
  import opened TreeCodec
  import opened FspWire
  import opened DirectTransport

  // ---- Fields at an offset ----

  function Two(b: Bytes, at: nat): nat
    requires at + 2 <= |b|
  {
    (b[at] as nat) + 0x100 * (b[at + 1] as nat)
  }

  function Four(b: Bytes, at: nat): nat
    requires at + 4 <= |b|
  {
    Two(b, at) + 0x1_0000 * Two(b, at + 2)
  }

  function Eight(b: Bytes, at: nat): nat
    requires at + 8 <= |b|
  {
    Four(b, at) + 0x1_0000_0000 * Four(b, at + 4)
  }

  // Consecutive 16-byte addresses.
  function Addresses(b: Bytes, at: nat, count: nat): seq<Bytes>
    requires at + 16 * count <= |b|
  {
    seq(count, i requires 0 <= i < count => b[at + 16 * i..at + 16 * i + 16])
  }

  // Consecutive 32-byte entries: address, sequence number, time.
  function Entries(b: Bytes, at: nat, count: nat): seq<Entry>
    requires at + 32 * count <= |b|
  {
    seq(count, i requires 0 <= i < count =>
      Entry(b[at + 32 * i..at + 32 * i + 16], Eight(b, at + 32 * i + 16), Eight(b, at + 32 * i + 24)))
  }

  lemma TwoBytes(b: Bytes)
    requires |b| == 2
    ensures FromLittleEndian(b) == Two(b, 0)
  {
    assert FromLittleEndian(b[1..]) == b[1] + 256 * FromLittleEndian(b[1..][1..]);
  }

  lemma FourBytes(b: Bytes)
    requires |b| == 4
    ensures FromLittleEndian(b) == Four(b, 0)
  {
    TwoBytes(b[2..]);
    assert b[1..][1..] == b[2..];
    assert FromLittleEndian(b[1..]) == b[1] + 256 * FromLittleEndian(b[2..]);
  }

  lemma EightBytes(b: Bytes)
    requires |b| == 8
    ensures FromLittleEndian(b) == Eight(b, 0)
  {
    FourBytes(b[4..]);
    assert b[1..][1..] == b[2..] && b[2..][1..] == b[3..] && b[3..][1..] == b[4..];
    assert FromLittleEndian(b[3..]) == b[3] + 256 * FromLittleEndian(b[4..]);
    assert FromLittleEndian(b[2..]) == b[2] + 256 * FromLittleEndian(b[3..]);
    assert FromLittleEndian(b[1..]) == b[1] + 256 * FromLittleEndian(b[2..]);
  }

  // An integer of one, two, four or eight bytes at an offset.
  function IntegerAt(b: Bytes, at: nat, width: nat): nat
    requires at + width <= |b| && width in {1, 2, 4, 8}
  {
    if width == 1 then b[at] else if width == 2 then Two(b, at) else if width == 4 then Four(b, at) else Eight(b, at)
  }

  lemma IntegerIs(b: Bytes, at: nat, width: nat)
    requires at + width <= |b| && width in {1, 2, 4, 8}
    ensures FromLittleEndian(b[at..at + width]) == IntegerAt(b, at, width)
  {
    var field := b[at..at + width];
    if width == 2 {
      TwoBytes(field);
    } else if width == 4 {
      FourBytes(field);
    } else if width == 8 {
      EightBytes(field);
    }
  }

  // Little-endian integers of the widths in use, in both directions.
  lemma LittleEndianIs(b: Bytes)
    requires |b| in {1, 2, 4, 8}
    ensures FromLittleEndian(b) == IntegerAt(b, 0, |b|) && LittleEndian(IntegerAt(b, 0, |b|), |b|) == b
  {
    assert b[0..|b|] == b;
    IntegerIs(b, 0, |b|);
    BytesRoundTrip(b);
  }

  // ---- Parsing from an offset ----

  lemma IntegerParsed(b: Bytes, at: nat, width: nat)
    requires at <= |b| && width in {1, 2, 4, 8}
    ensures ParseInteger(b[at..], width) ==
      if at + width <= |b| then Some(Parsed(IntegerAt(b, at, width), b[at + width..])) else None
  {
    hide FromLittleEndian, IntegerAt;
    if at + width <= |b| {
      assert b[at..][..width] == b[at..at + width] && b[at..][width..] == b[at + width..];
      IntegerIs(b, at, width);
    }
  }

  lemma BytesParsed(b: Bytes, at: nat, n: nat)
    requires at <= |b|
    ensures ParseBytes(b[at..], n) == if at + n <= |b| then Some(Parsed(b[at..at + n], b[at + n..])) else None
  {
    if at + n <= |b| {
      assert b[at..][..n] == b[at..at + n] && b[at..][n..] == b[at + n..];
    }
  }

  lemma FirstAddress(b: Bytes, at: nat, count: nat)
    requires at + 16 * count <= |b| && count > 0
    ensures Addresses(b, at, count) == [b[at..at + 16]] + Addresses(b, at + 16, count - 1)
  {
    var all, rest := Addresses(b, at, count), Addresses(b, at + 16, count - 1);
    assert forall i :: 0 < i < count ==> all[i] == rest[i - 1];
  }

  lemma NoAddresses(b: Bytes, at: nat)
    requires at <= |b|
    ensures Addresses(b, at, 0) == []
  {
  }

  lemma AddressParsed(b: Bytes, count: nat)
    requires count > 0
    ensures ParseAddrs(b, count) ==
      if |b| < 16 || ParseAddrs(b[16..], count - 1).None? then None
      else var rest := ParseAddrs(b[16..], count - 1).value; Some(Parsed([b[..16]] + rest.value, rest.rest))
  {
  }

  lemma {:induction false} AddressesParsed(b: Bytes, at: nat, count: nat)
    requires at <= |b|
    ensures ParseAddrs(b[at..], count) ==
      if at + 16 * count <= |b| then Some(Parsed(Addresses(b, at, count), b[at + 16 * count..])) else None
    decreases count
  {
    hide Addresses, Flatten, AllAddrs;
    if count == 0 {
      NoAddresses(b, at);
    } else {
      AddressParsed(b[at..], count);
      hide ParseAddrs;
      if at + 16 <= |b| {
        var after := at + 16;
        assert b[at..][..16] == b[at..after] && b[at..][16..] == b[after..];
        AddressesParsed(b, after, count - 1);
        assert after + 16 * (count - 1) == at + 16 * count;
        if at + 16 * count <= |b| {
          FirstAddress(b, at, count);
        }
      }
    }
  }

  // A counted list of addresses: where it ends, if it is all there.
  function ListEnd(b: Bytes, at: nat): (r: Option<nat>)
    ensures r.Some? ==> at + 2 <= r.value <= |b|
  {
    if at + 2 <= |b| && at + 2 + 16 * Two(b, at) <= |b| then Some(at + 2 + 16 * Two(b, at)) else None
  }

  function ListAt(b: Bytes, at: nat): seq<Bytes>
    requires ListEnd(b, at).Some?
  {
    Addresses(b, at + 2, Two(b, at))
  }

  lemma ListParsed(b: Bytes, at: nat, least: nat)
    requires at <= |b|
    ensures ParseCoords(b[at..], least) ==
      if ListEnd(b, at).Some? && Two(b, at) >= least then Some(Parsed(ListAt(b, at), b[ListEnd(b, at).value..])) else None
  {
    hide ParseInteger, ParseAddrs, Addresses;
    IntegerParsed(b, at, 2);
    if at + 2 <= |b| {
      AddressesParsed(b, at + 2, Two(b, at));
    }
  }

  // ---- Discovery ----

  // LookupRequest: id 0, target 8, origin 24, hops 40, least MTU 41, coordinates 43 up to the end, at least one.
  lemma LookupRequestLayout(b: Bytes)
    ensures ParseLookupRequest(b) ==
      if |b| < 45 || Two(b, 43) == 0 || |b| != 45 + 16 * Two(b, 43) then None
      else Some(LookupRequest(Eight(b, 0), b[8..24], b[24..40], b[40], Two(b, 41), Addresses(b, 45, Two(b, 43))))
  {
    hide ParseInteger, ParseBytes, ParseCoords, Addresses, Eight;
    assert b[0..] == b;
    IntegerParsed(b, 0, 8);
    if |b| >= 8 {
      BytesParsed(b, 8, 16);
    }
    if |b| >= 24 {
      BytesParsed(b, 24, 16);
    }
    if |b| >= 40 {
      IntegerParsed(b, 40, 1);
    }
    if |b| >= 41 {
      IntegerParsed(b, 41, 2);
    }
    if |b| >= 43 {
      ListParsed(b, 43, 1);
    }
  }

  // LookupResponse: id 0, target 8, path MTU 24, coordinates 26, at least one, then 64 bytes of proof up to the end.
  lemma LookupResponseLayout(b: Bytes)
    ensures ParseLookupResponse(b) ==
      if |b| < 28 || Two(b, 26) == 0 || |b| != 28 + 16 * Two(b, 26) + 64 then None
      else Some(LookupResponse(Eight(b, 0), b[8..24], Two(b, 24), Addresses(b, 28, Two(b, 26)), b[|b| - 64..]))
  {
    hide ParseInteger, ParseBytes, ParseCoords, Addresses, Eight;
    assert b[0..] == b;
    IntegerParsed(b, 0, 8);
    if |b| >= 8 {
      BytesParsed(b, 8, 16);
    }
    if |b| >= 24 {
      IntegerParsed(b, 24, 2);
    }
    if |b| >= 26 {
      ListParsed(b, 26, 1);
      if ListEnd(b, 26).Some? {
        var end := ListEnd(b, 26).value;
        BytesParsed(b, end, 64);
        assert end + 64 == |b| ==> b[end..end + 64] == b[end..];
      }
    }
  }

  // ---- TreeAnnounce ----

  lemma EntryParsed(b: Bytes, at: nat)
    requires at <= |b|
    ensures ParseEntry(b[at..]) ==
      if at + 32 <= |b| then Some(Parsed(Entry(b[at..at + 16], Eight(b, at + 16), Eight(b, at + 24)), b[at + 32..])) else None
  {
    hide ParseInteger, ParseBytes, Eight;
    BytesParsed(b, at, 16);
    if at + 16 <= |b| {
      IntegerParsed(b, at + 16, 8);
    }
    if at + 24 <= |b| {
      IntegerParsed(b, at + 24, 8);
    }
  }

  lemma {:induction false} EntriesParsed(b: Bytes, at: nat, count: nat)
    requires at <= |b|
    ensures ParseEntries(b[at..], count) ==
      if at + 32 * count <= |b| then Some(Parsed(Entries(b, at, count), b[at + 32 * count..])) else None
    decreases count
  {
    hide ParseEntry, Eight;
    if count == 0 {
      assert Entries(b, at, 0) == [];
    } else {
      EntryParsed(b, at);
      if at + 32 <= |b| {
        EntriesParsed(b, at + 32, count - 1);
        if at + 32 * count <= |b| {
          assert Entries(b, at, count)
            == [Entry(b[at..at + 16], Eight(b, at + 16), Eight(b, at + 24))] + Entries(b, at + 32, count - 1);
        }
      }
    }
  }

  // The first entry is the parent exactly if it is the only one, otherwise the second is, and no entry is below the last.
  predicate Announces(parent: Bytes, entries: seq<Entry>)
    requires |parent| == 16 && forall e :: e in entries ==> |e.nodeAddr| == 16
  {
    && entries != []
    && (if |entries| == 1 then entries[0].nodeAddr == parent
        else entries[0].nodeAddr != parent && entries[1].nodeAddr == parent)
    && forall e :: e in entries ==> BigEndian(e.nodeAddr) >= BigEndian(entries[|entries| - 1].nodeAddr)
  }

  lemma SemanticsAre(parent: Bytes, entries: seq<Entry>)
    requires |parent| == 16 && WellSized(entries)
    ensures Semantics(parent, entries) <==> Announces(parent, entries)
  {
    if entries != [] {
      forall i | 0 <= i < |entries|
        ensures Before(entries[i].nodeAddr, entries[|entries| - 1].nodeAddr)
          <==> BigEndian(entries[i].nodeAddr) < BigEndian(entries[|entries| - 1].nodeAddr)
      {
        ByteOrderIsNumeric(entries[i].nodeAddr, entries[|entries| - 1].nodeAddr);
      }
      hide Before, BigEndian;
      if Announces(parent, entries) {
        assert forall i :: 0 <= i < |entries| ==> entries[i] in entries;
      }
    }
  }

  lemma HeadParsed(b: Bytes)
    ensures ParseHead(b) ==
      if |b| < 36 || b[0] != 0x10 || b[1] != 1 then None
      else Some(Parsed(Head(Eight(b, 2), Eight(b, 10), b[18..34], Two(b, 34)), b[36..]))
  {
    hide ParseInteger, ParseBytes, Eight, Two;
    assert b[0..] == b;
    IntegerParsed(b, 0, 1);
    if |b| >= 1 {
      IntegerParsed(b, 1, 1);
    }
    if |b| >= 2 {
      IntegerParsed(b, 2, 8);
    }
    if |b| >= 10 {
      IntegerParsed(b, 10, 8);
    }
    if |b| >= 18 {
      BytesParsed(b, 18, 16);
    }
    if |b| >= 34 {
      IntegerParsed(b, 34, 2);
    }
  }

  lemma EntriesAreSized(b: Bytes, at: nat, count: nat)
    requires at + 32 * count <= |b|
    ensures WellSized(Entries(b, at, count))
  {
    hide Eight;
    EntriesParsed(b, at, count);
  }

  // TreeAnnounce: type 0x10, version 1, sequence number 2, time 10, parent 18, entry count 34, entries 36, signature.
  lemma TreeAnnounceLayout(b: Bytes)
    ensures |b| >= 36 && |b| == 36 + 32 * Two(b, 34) + 64 ==> WellSized(Entries(b, 36, Two(b, 34)))
    ensures ParseTreeAnnounce(b) ==
      if |b| < 36 || b[0] != 0x10 || b[1] != 1 || |b| != 36 + 32 * Two(b, 34) + 64 then None
      else if !Announces(b[18..34], Entries(b, 36, Two(b, 34))) then None
      else Some(TreeAnnounce(Eight(b, 2), Eight(b, 10), b[18..34], Entries(b, 36, Two(b, 34)), b[|b| - 64..]))
  {
    hide ParseHead, ParseEntries, ParseBytes, Entries, Eight, Semantics, Announces;
    HeadParsed(b);
    if |b| >= 36 && |b| == 36 + 32 * Two(b, 34) + 64 {
      var count := Two(b, 34);
      EntriesAreSized(b, 36, count);
      EntriesParsed(b, 36, count);
      BytesParsed(b, 36 + 32 * count, 64);
      assert b[36 + 32 * count..36 + 32 * count + 64] == b[|b| - 64..];
      SemanticsAre(b[18..34], Entries(b, 36, count));
      if count == 0 {
        assert !Announces(b[18..34], Entries(b, 36, 0)) by {
          NoneAnnounces(b);
        }
      }
    }
  }

  lemma NoneAnnounces(b: Bytes)
    requires |b| >= 36
    ensures Entries(b, 36, 0) == [] && !Announces(b[18..34], Entries(b, 36, 0))
  {
  }

  // ---- FSP ----

  // Established: version and phase 0, flags 1, payload length 2, counter 4, from 12 the two coordinate lists if the flags are
  // odd, and a sealed payload of the length and its tag up to the end. The flag of value 4 is refused.
  lemma EstablishedLayout(b: Bytes)
    ensures ParseEstablished(b) ==
      if |b| < 28 || b[0] != 0 || b[1] / 4 % 2 == 1 then None
      else if b[1] % 2 == 0 then
        if |b| != 12 + Two(b, 2) + 16 then None
        else Some(FspEstablished(b[1], Eight(b, 4), Two(b, 2), None, None, b[12..]))
      else if ListEnd(b, 12).None? || ListEnd(b, ListEnd(b, 12).value).None? then None
      else
        var second := ListEnd(b, 12).value;
        var end := ListEnd(b, second).value;
        if |b| != end + Two(b, 2) + 16 then None
        else Some(FspEstablished(b[1], Eight(b, 4), Two(b, 2), Present(ListAt(b, 12)), Present(ListAt(b, second)), b[end..]))
  {
    hide ParseHeader, ParseOptionalCoords, Eight, Two, ListEnd, ListAt, Present;
    if |b| >= 28 {
      FspHeaderParsed(b);
      OptionalListsParsed(b, b[1]);
    }
  }

  function Present(coords: seq<Bytes>): Option<seq<Bytes>> {
    if |coords| == 0 then None else Some(coords)
  }

  lemma FspHeaderParsed(b: Bytes)
    requires |b| >= 12
    ensures ParseHeader(b) ==
      if b[0] != 0 || b[1] / 4 % 2 == 1 then None else Some(Parsed(Header(b[1], Two(b, 2), Eight(b, 4)), b[12..]))
  {
    hide ParseInteger, Eight, Two;
    assert b[0..] == b;
    IntegerParsed(b, 0, 1);
    IntegerParsed(b, 1, 1);
    IntegerParsed(b, 2, 2);
    IntegerParsed(b, 4, 8);
  }

  lemma OptionalListsParsed(b: Bytes, flags: nat)
    requires |b| >= 12
    ensures ParseOptionalCoords(flags, b[12..]) ==
      if flags % 2 == 0 then Some(Parsed((None, None), b[12..]))
      else if ListEnd(b, 12).None? || ListEnd(b, ListEnd(b, 12).value).None? then None
      else
        var second := ListEnd(b, 12).value;
        Some(Parsed((Present(ListAt(b, 12)), Present(ListAt(b, second))), b[ListEnd(b, second).value..]))
  {
    hide ParseCoords, ListAt;
    ListParsed(b, 12, 0);
    if ListEnd(b, 12).Some? {
      ListParsed(b, ListEnd(b, 12).value, 0);
    }
  }

  // DFP1 fragment: "DFP1" 0, record id 4, total length 12, index 16, count 18, payload 20. Of those, ingest goes on with what
  // has a payload, a total of at most 72 KiB and from 2 to 128 fragments, no more of them than bytes.
  lemma FragmentLayout(b: Bytes)
    ensures IsFragment(b) <==> |b| >= 4 && b[0] == 0x44 && b[1] == 0x46 && b[2] == 0x50 && b[3] == 0x31
    ensures Accepted(b) ==
      if |b| <= 20 then None
      else if !(1 <= Four(b, 12) <= 73728 && 2 <= Two(b, 18) <= 128 && Two(b, 18) <= Four(b, 12) && Two(b, 16) < Two(b, 18)) then None
      else Some(Fragment(Eight(b, 4), Four(b, 12), Two(b, 16), Two(b, 18), b[20..]))
  {
    hide FromLittleEndian, Eight, Four, Two;
    if |b| > 20 {
      IntegerIs(b, 4, 8);
      IntegerIs(b, 12, 4);
      IntegerIs(b, 16, 2);
      IntegerIs(b, 18, 2);
    }
  }
}
