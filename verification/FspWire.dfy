/**
 * The FSP Established frame with its optional coordinate lists (packages/core/src/fsp/wire.ts).
 */
module FspWire {
  import opened Wrappers
  import opened BinaryCodec
  import opened CoordLists

  const FSP_FLAG_CP: nat := 0x01
  const FSP_FLAG_K: nat := 0x02
  const FSP_FLAG_U: nat := 0x04
  const FSP_FLAG_DIRECT_TRANSPORT: nat := 0x08
  const FSP_AEAD_TAG_LEN: nat := 16
  const FSP_ESTABLISHED_HEADER_LEN: nat := 12

  predicate HasFlag(flags: nat, flag: nat)
    requires flag > 0
  {
    (flags / flag) % 2 == 1
  }

  datatype FspEstablished = FspEstablished(
    flags: nat, counter: nat, payloadLen: nat, srcCoords: Option<seq<Bytes>>, destCoords: Option<seq<Bytes>>, ciphertext: Bytes)

  function Listed(coords: Option<seq<Bytes>>): seq<Bytes> {
    if coords.Some? then coords.value else []
  }

  // An empty list decodes as an absent one.
  function Unlisted(coords: seq<Bytes>): Option<seq<Bytes>> {
    if coords == [] then None else Some(coords)
  }

  function EstablishedCoords(m: FspEstablished): Bytes {
    if HasFlag(m.flags, FSP_FLAG_CP) then CoordsBytes(Listed(m.srcCoords)) + CoordsBytes(Listed(m.destCoords)) else []
  }

  // What the encoder accepts: without FSP_FLAG_CP it ignores the coordinates altogether.
  predicate Encodable(m: FspEstablished) {
    && m.counter < Limit(8) && m.payloadLen < Limit(2) && |m.ciphertext| == m.payloadLen + FSP_AEAD_TAG_LEN
    && EncodableCoords(m)
  }

  // Frames that survive: one flag byte, no plaintext-error flag, coordinates only where they are sent.
  predicate ValidEstablished(m: FspEstablished) {
    && Encodable(m) && m.flags < Limit(1) && !HasFlag(m.flags, FSP_FLAG_U)
    && (!HasFlag(m.flags, FSP_FLAG_CP) ==> Listed(m.srcCoords) == Listed(m.destCoords) == [])
  }

  function Normalised(m: FspEstablished): FspEstablished {
    m.(srcCoords := Unlisted(Listed(m.srcCoords)), destCoords := Unlisted(Listed(m.destCoords)))
  }

  function HeaderOf(m: FspEstablished): Header {
    Header(m.flags, m.payloadLen, m.counter)
  }

  function EstablishedBytes(m: FspEstablished): Bytes {
    HeaderBytes(HeaderOf(m)) + EstablishedCoords(m) + m.ciphertext
  }

  function ParseEstablished(b: Bytes): Option<FspEstablished> {
    if |b| < FSP_ESTABLISHED_HEADER_LEN + FSP_AEAD_TAG_LEN then None
    else
      var header :- ParseHeader(b);
      var coords :- ParseOptionalCoords(header.value.flags, header.rest);
      if |coords.rest| != header.value.payloadLen + FSP_AEAD_TAG_LEN then None
      else Some(FspEstablished(header.value.flags, header.value.counter, header.value.payloadLen,
                               coords.value.0, coords.value.1, coords.rest))
  }

  datatype Header = Header(flags: nat, payloadLen: nat, counter: nat)

  function HeaderBytes(h: Header): Bytes {
    [0, h.flags % 256] + LittleEndian(h.payloadLen, 2) + LittleEndian(h.counter, 8)
  }

  function ParseHeader(b: Bytes): Option<Parsed<Header>> {
    var versionAndPhase :- ParseInteger(b, 1);
    var flags :- ParseInteger(versionAndPhase.rest, 1);
    var payloadLen :- ParseInteger(flags.rest, 2);
    if versionAndPhase.value != 0 || HasFlag(flags.value, FSP_FLAG_U) then None
    else
      var counter :- ParseInteger(payloadLen.rest, 8);
      Some(Parsed(Header(flags.value, payloadLen.value, counter.value), counter.rest))
  }

  predicate ValidHeader(h: Header) {
    h.flags < Limit(1) && h.payloadLen < Limit(2) && h.counter < Limit(8) && !HasFlag(h.flags, FSP_FLAG_U)
  }

  lemma ParseHeaderInverse(h: Header, rest: Bytes)
    requires ValidHeader(h)
    ensures ParseHeader(HeaderBytes(h) + rest) == Some(Parsed(h, rest))
  {
    var c := LittleEndian(h.counter, 8) + rest;
    var b := LittleEndian(h.payloadLen, 2) + c;
    Regroup4([0, h.flags], LittleEndian(h.payloadLen, 2), LittleEndian(h.counter, 8), rest);
    assert HeaderBytes(h) + rest == [0] + ([h.flags] + b);
    OneByte(0);
    OneByte(h.flags);
    ParseIntegerInverse(0, 1, [h.flags] + b);
    ParseIntegerInverse(h.flags, 1, b);
    ParseIntegerInverse(h.payloadLen, 2, c);
    ParseIntegerInverse(h.counter, 8, rest);
  }

  lemma ParsedHeaderIsCanonical(b: Bytes)
    ensures var r := ParseHeader(b); r.Some? ==> ValidHeader(r.value.value) && HeaderBytes(r.value.value) + r.value.rest == b
  {
    var r := ParseHeader(b);
    if r.Some? {
      var h, rest := r.value.value, r.value.rest;
      ParsedIntegerIsCanonical(b, 1);
      OneByte(0);
      var afterVersion := ParseInteger(b, 1).value.rest;
      ParsedIntegerIsCanonical(afterVersion, 1);
      OneByte(h.flags);
      var afterFlags := ParseInteger(afterVersion, 1).value.rest;
      ParsedIntegerIsCanonical(afterFlags, 2);
      ParsedIntegerIsCanonical(ParseInteger(afterFlags, 2).value.rest, 8);
      Regroup4([0, h.flags], LittleEndian(h.payloadLen, 2), LittleEndian(h.counter, 8), rest);
      assert b == [0] + ([h.flags] + afterFlags) == [0, h.flags] + afterFlags;
    }
  }

  function ParseOptionalCoords(flags: nat, b: Bytes): (r: Option<Parsed<(Option<seq<Bytes>>, Option<seq<Bytes>>)>>) {
    if !HasFlag(flags, FSP_FLAG_CP) then Some(Parsed((None, None), b))
    else
      var src :- ParseCoords(b, 0);
      var dest :- ParseCoords(src.rest, 0);
      Some(Parsed((Unlisted(src.value), Unlisted(dest.value)), dest.rest))
  }

  lemma ParseOptionalCoordsInverse(m: FspEstablished, rest: Bytes)
    requires ValidEstablished(m)
    ensures ParseOptionalCoords(m.flags, EstablishedCoords(m) + rest)
      == Some(Parsed((Unlisted(Listed(m.srcCoords)), Unlisted(Listed(m.destCoords))), rest))
  {
    if HasFlag(m.flags, FSP_FLAG_CP) {
      var src, dest := CoordsBytes(Listed(m.srcCoords)), CoordsBytes(Listed(m.destCoords));
      Regroup3(src, dest, rest);
      ParseCoordsInverse(Listed(m.srcCoords), 0, dest + rest);
      ParseCoordsInverse(Listed(m.destCoords), 0, rest);
    } else {
      assert EstablishedCoords(m) + rest == rest;
    }
  }

  // Decoding undoes encoding, up to absent and empty coordinate lists.
  lemma EstablishedRoundTrip(m: FspEstablished)
    requires ValidEstablished(m)
    ensures ParseEstablished(EstablishedBytes(m)) == Some(Normalised(m))
  {
    Regroup3(HeaderBytes(HeaderOf(m)), EstablishedCoords(m), m.ciphertext);
    ParseHeaderInverse(HeaderOf(m), EstablishedCoords(m) + m.ciphertext);
    ParseOptionalCoordsInverse(m, m.ciphertext);
  }

  // Every accepted frame is the encoding of what it decodes to.
  lemma EstablishedIsCanonical(b: Bytes)
    ensures var r := ParseEstablished(b);
      r.Some? ==> ValidEstablished(r.value) && Normalised(r.value) == r.value && EstablishedBytes(r.value) == b
  {
    var r := ParseEstablished(b);
    if r.Some? {
      var m := r.value;
      ParsedHeaderIsCanonical(b);
      ParsedOptionalCoordsAreCanonical(m, ParseHeader(b).value.rest);
      Regroup3(HeaderBytes(HeaderOf(m)), EstablishedCoords(m), m.ciphertext);
    }
  }

  lemma ParsedOptionalCoordsAreCanonical(m: FspEstablished, b: Bytes)
    requires ParseOptionalCoords(m.flags, b) == Some(Parsed((m.srcCoords, m.destCoords), m.ciphertext))
    ensures EstablishedCoords(m) + m.ciphertext == b
    ensures ValidCoords(Listed(m.srcCoords), 0) && ValidCoords(Listed(m.destCoords), 0)
    ensures Normalised(m) == m && (!HasFlag(m.flags, FSP_FLAG_CP) ==> m.srcCoords == m.destCoords == None)
  {
    if HasFlag(m.flags, FSP_FLAG_CP) {
      ParsedCoordsAreCanonical(b, 0);
      var src := ParseCoords(b, 0).value;
      ParsedCoordsAreCanonical(src.rest, 0);
      var dest := ParseCoords(src.rest, 0).value;
      Regroup3(CoordsBytes(src.value), CoordsBytes(dest.value), dest.rest);
    }
  }

  predicate EncodableCoords(m: FspEstablished) {
    HasFlag(m.flags, FSP_FLAG_CP) ==> ValidCoords(Listed(m.srcCoords), 0) && ValidCoords(Listed(m.destCoords), 0)
  }

  method WriteOptionalCoords(w: BinaryWriter, m: FspEstablished) returns (r: Result<()>)
    requires w.Valid()
    modifies w
    ensures w.Valid()
    ensures r.Ok? <==> EncodableCoords(m)
    ensures r.Ok? ==> w.written == old(w.written) + EstablishedCoords(m)
  {
    if HasFlag(m.flags, FSP_FLAG_CP) {
      var _ :- WriteCoords(w, Listed(m.srcCoords), 0);
      var _ :- WriteCoords(w, Listed(m.destCoords), 0);
      Regroup3(old(w.written), CoordsBytes(Listed(m.srcCoords)), CoordsBytes(Listed(m.destCoords)));
    } else {
      assert w.written + [] == w.written;
    }
    r := Ok(());
  }

  method ReadOptionalCoords(reader: BinaryReader, flags: nat) returns (r: Result<(Option<seq<Bytes>>, Option<seq<Bytes>>)>)
    requires reader.Valid()
    modifies reader
    ensures reader.Valid()
    ensures match ParseOptionalCoords(flags, old(reader.rest))
      case None => r.Err?
      case Some(p) => r == Ok(p.value) && reader.rest == p.rest
  {
    if !HasFlag(flags, FSP_FLAG_CP) {
      return Ok((None, None));
    }
    var src :- ReadCoords(reader, 0);
    var dest :- ReadCoords(reader, 0);
    r := Ok((Unlisted(src), Unlisted(dest)));
  }

  method ReadHeader(reader: BinaryReader) returns (r: Result<Header>)
    requires reader.Valid()
    modifies reader
    ensures reader.Valid()
    ensures match ParseHeader(old(reader.rest))
      case None => r.Err?
      case Some(p) => r == Ok(p.value) && reader.rest == p.rest
  {
    var versionAndPhase :- reader.GetInteger(1);
    var flags :- reader.GetInteger(1);
    var payloadLen :- reader.GetInteger(2);
    if versionAndPhase != 0 {
      return Err("bad FSP version or phase");
    }
    if HasFlag(flags, FSP_FLAG_U) {
      return Err("plaintext FSP error frames are not supported here");
    }
    var counter :- reader.GetInteger(8);
    r := Ok(Header(flags, payloadLen, counter));
  }

  method EncodeEstablished(m: FspEstablished) returns (r: Result<Bytes>)
    ensures r.Ok? <==> Encodable(m)
    ensures r.Ok? ==> r.value == EstablishedBytes(m)
  {
    if |m.ciphertext| != m.payloadLen + FSP_AEAD_TAG_LEN {
      return Err("ciphertext length is not payload_len + tag");
    }
    var w := new BinaryWriter();
    w.PutBytes([0, m.flags % 256]);
    assert w.written == [0, m.flags % 256];
    var _ :- w.PutInteger(m.payloadLen, 2);
    var _ :- w.PutInteger(m.counter, 8);
    var _ :- WriteOptionalCoords(w, m);
    w.PutBytes(m.ciphertext);
    var out := w.ToBytes();
    r := Ok(out);
  }

  method DecodeEstablished(b: Bytes) returns (r: Result<FspEstablished>)
    ensures match ParseEstablished(b)
      case None => r.Err?
      case Some(m) => r == Ok(m)
  {
    if |b| < FSP_ESTABLISHED_HEADER_LEN + FSP_AEAD_TAG_LEN {
      return Err("FSP Established too short");
    }
    var reader := new BinaryReader(b);
    var header :- ReadHeader(reader);
    var coords :- ReadOptionalCoords(reader, header.flags);
    if reader.Remaining() != header.payloadLen + FSP_AEAD_TAG_LEN {
      return Err("FSP payload_len mismatch");
    }
    var ciphertext := reader.GetRest();
    r := Ok(FspEstablished(header.flags, header.counter, header.payloadLen, coords.0, coords.1, ciphertext));
  }
}
