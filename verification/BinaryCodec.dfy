/**
 * Little-endian integers, and the writer and reader the codecs rest on
 * (packages/core/src/codec/binary.ts).
 */
module BinaryCodec {
  import opened Wrappers

  type Byte = n: nat | n < 256

  type Bytes = seq<Byte>

  // ---- Little-endian integers ----

  function Limit(width: nat): (l: nat)
    ensures l > 0
  {
    if width == 0 then 1 else 256 * Limit(width - 1)
  }

  function LittleEndian(n: nat, width: nat): (b: Bytes)
    ensures |b| == width
  {
    if width == 0 then [] else [n % 256] + LittleEndian(n / 256, width - 1)
  }

  function FromLittleEndian(b: Bytes): (n: nat)
    ensures n < Limit(|b|)
  {
    if b == [] then 0 else b[0] + 256 * FromLittleEndian(b[1..])
  }

  lemma {:induction false} IntegerRoundTrip(n: nat, width: nat)
    requires n < Limit(width)
    ensures FromLittleEndian(LittleEndian(n, width)) == n
  {
    if width > 0 {
      IntegerRoundTrip(n / 256, width - 1);
      assert LittleEndian(n, width)[1..] == LittleEndian(n / 256, width - 1);
    }
  }

  lemma {:induction false} BytesRoundTrip(b: Bytes)
    ensures LittleEndian(FromLittleEndian(b), |b|) == b
  {
    if b != [] {
      BytesRoundTrip(b[1..]);
      assert b == [b[0]] + b[1..];
    }
  }

  lemma OneByte(n: nat)
    requires n < 256
    ensures LittleEndian(n, 1) == [n]
  {
    assert LittleEndian(n / 256, 0) == [];
  }

  // ---- Parsing: a value and what is left ----

  datatype Parsed<+T> = Parsed(value: T, rest: Bytes)

  function ParseBytes(b: Bytes, n: nat): (r: Option<Parsed<Bytes>>)
    ensures r.Some? <==> n <= |b|
    ensures r.Some? ==> |r.value.value| == n && r.value.value + r.value.rest == b
  {
    if n <= |b| then Some(Parsed(b[..n], b[n..])) else None
  }

  function ParseInteger(b: Bytes, width: nat): (r: Option<Parsed<nat>>)
    ensures r.Some? <==> width <= |b|
    ensures r.Some? ==> r.value.value < Limit(width)
  {
    var p :- ParseBytes(b, width);
    Some(Parsed(FromLittleEndian(p.value), p.rest))
  }

  lemma ParseBytesInverse(v: Bytes, rest: Bytes)
    ensures ParseBytes(v + rest, |v|) == Some(Parsed(v, rest))
  {
    assert (v + rest)[..|v|] == v && (v + rest)[|v|..] == rest;
  }

  lemma ParseIntegerInverse(n: nat, width: nat, rest: Bytes)
    requires n < Limit(width)
    ensures ParseInteger(LittleEndian(n, width) + rest, width) == Some(Parsed(n, rest))
  {
    ParseBytesInverse(LittleEndian(n, width), rest);
    IntegerRoundTrip(n, width);
  }

  lemma ParsedIntegerIsCanonical(b: Bytes, width: nat)
    requires width <= |b|
    ensures var p := ParseInteger(b, width).value; LittleEndian(p.value, width) + p.rest == b
  {
    BytesRoundTrip(b[..width]);
  }

  // ---- Lists of 16-byte addresses ----

  const ADDR_LEN: nat := 16

  predicate AllAddrs(addrs: seq<Bytes>) {
    forall a :: a in addrs ==> |a| == ADDR_LEN
  }

  function Flatten(parts: seq<Bytes>): Bytes {
    if parts == [] then [] else parts[0] + Flatten(parts[1..])
  }

  function ParseAddrs(b: Bytes, count: nat): (r: Option<Parsed<seq<Bytes>>>)
    ensures r.Some? ==> |r.value.value| == count && AllAddrs(r.value.value) && Flatten(r.value.value) + r.value.rest == b
  {
    if count == 0 then Some(Parsed([], b))
    else
      var head :- ParseBytes(b, ADDR_LEN);
      var tail :- ParseAddrs(head.rest, count - 1);
      assert ([head.value] + tail.value)[1..] == tail.value;
      Some(Parsed([head.value] + tail.value, tail.rest))
  }

  lemma {:induction false} ParseAddrsInverse(addrs: seq<Bytes>, rest: Bytes)
    requires AllAddrs(addrs)
    ensures ParseAddrs(Flatten(addrs) + rest, |addrs|) == Some(Parsed(addrs, rest))
  {
    if addrs == [] {
      assert Flatten(addrs) + rest == rest;
    } else {
      var tail := Flatten(addrs[1..]) + rest;
      assert Flatten(addrs) + rest == addrs[0] + tail;
      ParseBytesInverse(addrs[0], tail);
      ParseAddrsInverse(addrs[1..], rest);
      assert [addrs[0]] + addrs[1..] == addrs;
    }
  }

  lemma {:induction false} ParseAddrsSucceeds(b: Bytes, count: nat)
    ensures ParseAddrs(b, count).Some? <==> count * ADDR_LEN <= |b|
  {
    if count > 0 && ADDR_LEN <= |b| {
      ParseAddrsSucceeds(b[ADDR_LEN..], count - 1);
    }
  }

  lemma {:induction false} FlattenLength(addrs: seq<Bytes>)
    requires AllAddrs(addrs)
    ensures |Flatten(addrs)| == |addrs| * ADDR_LEN
  {
    if addrs != [] {
      FlattenLength(addrs[1..]);
    }
  }

  lemma {:induction false} FlattenSnoc(parts: seq<Bytes>, part: Bytes)
    ensures Flatten(parts + [part]) == Flatten(parts) + part
  {
    if parts == [] {
      assert ([] + [part])[1..] == [];
    } else {
      FlattenSnoc(parts[1..], part);
      assert (parts + [part])[1..] == parts[1..] + [part];
    }
  }

  // ---- BinaryWriter ----

  class BinaryWriter {
    var chunks: seq<Bytes>
    var len: nat
    ghost var written: Bytes

    ghost predicate Valid()
      reads this
    {
      written == Flatten(chunks) && len == |written|
    }

    constructor ()
      ensures Valid() && written == []
    {
      chunks, len, written := [], 0, [];
    }

    method PutBytes(b: Bytes)
      requires Valid()
      modifies this
      ensures Valid() && written == old(written) + b
    {
      FlattenSnoc(chunks, b);
      chunks := chunks + [b];
      len := len + |b|;
      written := written + b;
    }

    // u8, u16le, u32le and u64le: the integer in 1, 2, 4 or 8 bytes, or a RangeError.
    method PutInteger(n: int, width: nat) returns (r: Result<()>)
      requires Valid()
      modifies this
      ensures Valid() && (r.Ok? <==> 0 <= n < Limit(width))
      ensures written == if r.Ok? then old(written) + LittleEndian(n, width) else old(written)
    {
      if n < 0 || n >= Limit(width) {
        return Err("integer out of range");
      }
      var b: Bytes := [];
      var v := n;
      for i := 0 to width
        invariant v >= 0 && |b| == i
        invariant b + LittleEndian(v, width - i) == LittleEndian(n, width)
      {
        assert LittleEndian(v, width - i) == [v % 256] + LittleEndian(v / 256, width - i - 1);
        b := b + [v % 256];
        v := v / 256;
      }
      PutBytes(b);
      r := Ok(());
    }

    method ToBytes() returns (out: Bytes)
      requires Valid()
      ensures out == written
    {
      out := [];
      for i := 0 to |chunks|
        invariant out == Flatten(chunks[..i])
      {
        FlattenSnoc(chunks[..i], chunks[i]);
        assert chunks[..i + 1] == chunks[..i] + [chunks[i]];
        out := out + chunks[i];
      }
      assert chunks[..|chunks|] == chunks;
    }
  }

  // ---- BinaryReader ----

  class BinaryReader {
    const buf: Bytes
    var off: nat
    ghost var read: Bytes
    ghost var rest: Bytes

    ghost predicate Valid()
      reads this
    {
      off == |read| && buf == read + rest
    }

    constructor (b: Bytes)
      ensures Valid() && buf == b && rest == b
    {
      buf, off, read, rest := b, 0, [], b;
    }

    // bytes(n): the next n bytes, or a RangeError that leaves the position alone.
    method GetBytes(n: nat) returns (r: Result<Bytes>)
      requires Valid()
      modifies this
      ensures Valid()
      ensures match ParseBytes(old(rest), n)
        case None => r.Err? && off == old(off)
        case Some(p) => r == Ok(p.value) && rest == p.rest
    {
      if off + n > |buf| {
        return Err("BinaryReader: need more bytes");
      }
      r := Ok(buf[off..off + n]);
      assert buf[off..] == rest && rest[..n] == buf[off..off + n];
      off := off + n;
      read, rest := read + rest[..n], rest[n..];
    }

    // u8, u16le, u32le and u64le, most significant byte first as the u64 loop does.
    method GetInteger(width: nat) returns (r: Result<nat>)
      requires Valid()
      modifies this
      ensures Valid()
      ensures match ParseInteger(old(rest), width)
        case None => r.Err? && off == old(off)
        case Some(p) => r == Ok(p.value) && rest == p.rest
    {
      if off + width > |buf| {
        return Err("BinaryReader: need more bytes");
      }
      var b := buf[off..off + width];
      var v: nat := 0;
      var i := width;
      while i > 0
        invariant 0 <= i <= width
        invariant v == FromLittleEndian(b[i..])
      {
        i := i - 1;
        assert b[i..][1..] == b[i + 1..];
        v := 256 * v + b[i];
      }
      assert buf[off..] == rest && rest[..width] == b == b[0..];
      off := off + width;
      read, rest := read + rest[..width], rest[width..];
      r := Ok(v);
    }

    // rest(): everything that is left.
    method GetRest() returns (b: Bytes)
      requires Valid()
      modifies this
      ensures Valid() && b == old(rest) && rest == []
    {
      b := buf[off..];
      off := |buf|;
      read, rest := buf, [];
    }

    function Remaining(): nat
      requires Valid()
      reads this
      ensures Remaining() == |rest|
    {
      |buf| - off
    }
  }
}
