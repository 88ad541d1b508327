/**
 * Counted lists of node addresses, as the discovery and session codecs carry them
 * (packages/core/src/protocol/discovery.ts, packages/core/src/fsp/wire.ts).
 */
module CoordLists {
  import opened Wrappers
  import opened BinaryCodec

  function CoordsBytes(coords: seq<Bytes>): Bytes {
    LittleEndian(|coords|, 2) + Flatten(coords)
  }

  // Count first, then the addresses; `least` is the smallest count the format allows.
  function ParseCoords(b: Bytes, least: nat): (r: Option<Parsed<seq<Bytes>>>)
    ensures r.Some? ==> least <= |r.value.value| < Limit(2) && AllAddrs(r.value.value)
  {
    var count :- ParseInteger(b, 2);
    if count.value < least then None else ParseAddrs(count.rest, count.value)
  }

  predicate ValidCoords(coords: seq<Bytes>, least: nat) {
    least <= |coords| < Limit(2) && AllAddrs(coords)
  }

  lemma ParseCoordsInverse(coords: seq<Bytes>, least: nat, rest: Bytes)
    requires ValidCoords(coords, least)
    ensures ParseCoords(CoordsBytes(coords) + rest, least) == Some(Parsed(coords, rest))
  {
    ParseIntegerInverse(|coords|, 2, Flatten(coords) + rest);
    assert CoordsBytes(coords) + rest == LittleEndian(|coords|, 2) + (Flatten(coords) + rest);
    ParseAddrsInverse(coords, rest);
  }

  lemma ParsedCoordsAreCanonical(b: Bytes, least: nat)
    ensures var r := ParseCoords(b, least); r.Some? ==> CoordsBytes(r.value.value) + r.value.rest == b
  {
    var r := ParseCoords(b, least);
    if r.Some? {
      ParsedIntegerIsCanonical(b, 2);
      var count := ParseInteger(b, 2).value;
      assert CoordsBytes(r.value.value) + r.value.rest == LittleEndian(count.value, 2) + (Flatten(r.value.value) + r.value.rest);
    }
  }

  method WriteCoords(w: BinaryWriter, coords: seq<Bytes>, least: nat) returns (r: Result<()>)
    requires w.Valid() && least <= 1
    modifies w
    ensures w.Valid()
    ensures r.Ok? <==> ValidCoords(coords, least)
    ensures r.Ok? ==> w.written == old(w.written) + CoordsBytes(coords)
  {
    if |coords| < least || |coords| > 0xffff {
      return Err("coordinates count is out of range");
    }
    ghost var start := w.written;
    var _ := w.PutInteger(|coords|, 2);
    r := WriteAddrs(w, coords);
    assert start + LittleEndian(|coords|, 2) + Flatten(coords) == start + CoordsBytes(coords);
  }

  method WriteAddrs(w: BinaryWriter, addrs: seq<Bytes>) returns (r: Result<()>)
    requires w.Valid()
    modifies w
    ensures w.Valid()
    ensures r.Ok? <==> AllAddrs(addrs)
    ensures r.Ok? ==> w.written == old(w.written) + Flatten(addrs)
  {
    assert Flatten(addrs[..0]) == [];
    hide Flatten;
    for i := 0 to |addrs|
      invariant w.Valid() && AllAddrs(addrs[..i])
      invariant w.written == old(w.written) + Flatten(addrs[..i])
    {
      if |addrs[i]| != ADDR_LEN {
        return Err("coordinate must be 16 bytes");
      }
      w.PutBytes(addrs[i]);
      FlattenSnoc(addrs[..i], addrs[i]);
      assert addrs[..i + 1] == addrs[..i] + [addrs[i]];
    }
    assert addrs[..|addrs|] == addrs;
    r := Ok(());
  }

  method ReadCoords(reader: BinaryReader, least: nat) returns (r: Result<seq<Bytes>>)
    requires reader.Valid()
    modifies reader
    ensures reader.Valid()
    ensures match ParseCoords(old(reader.rest), least)
      case None => r.Err?
      case Some(p) => r == Ok(p.value) && reader.rest == p.rest
  {
    var count :- reader.GetInteger(2);
    if count < least {
      return Err("lookup coordinates must not be empty");
    }
    r := ReadAddrs(reader, count);
  }

  lemma AddrsSnoc(addrs: seq<Bytes>, addr: Bytes, rest: Bytes)
    ensures Flatten(addrs + [addr]) + rest == Flatten(addrs) + (addr + rest)
  {
    FlattenSnoc(addrs, addr);
  }

  method ReadAddrs(reader: BinaryReader, count: nat) returns (r: Result<seq<Bytes>>)
    requires reader.Valid()
    modifies reader
    ensures reader.Valid()
    ensures match ParseAddrs(old(reader.rest), count)
      case None => r.Err?
      case Some(p) => r == Ok(p.value) && reader.rest == p.rest
  {
    var coords: seq<Bytes> := [];
    ParseAddrsSucceeds(reader.rest, count);
    for index := 0 to count
      invariant reader.Valid() && |coords| == index && AllAddrs(coords)
      invariant old(reader.rest) == Flatten(coords) + reader.rest
    {
      FlattenLength(coords);
      var addr :- reader.GetBytes(ADDR_LEN);
      AddrsSnoc(coords, addr, reader.rest);
      coords := coords + [addr];
    }
    ParseAddrsInverse(coords, reader.rest);
    r := Ok(coords);
  }

  // Fields written one after another, seen from either end.
  lemma Regroup3(a: Bytes, b: Bytes, c: Bytes)
    ensures a + b + c == a + (b + c)
  {
  }

  lemma Regroup4(a: Bytes, b: Bytes, c: Bytes, d: Bytes)
    ensures a + b + c + d == a + (b + (c + d))
  {
  }

  lemma Regroup5(a: Bytes, b: Bytes, c: Bytes, d: Bytes, e: Bytes)
    ensures a + b + c + d + e == a + (b + (c + (d + e)))
  {
    Regroup4(a + b, c, d, e);
    Regroup4(a, b, c, d + e);
  }

  lemma Regroup6(a: Bytes, b: Bytes, c: Bytes, d: Bytes, e: Bytes, f: Bytes)
    ensures a + b + c + d + e + f == a + (b + (c + (d + (e + f))))
  {
    Regroup4(a + b, c, d, e + f);
    Regroup4(a, b, c, d + (e + f));
    Regroup4(a + b + c, d, e, f);
  }
}
