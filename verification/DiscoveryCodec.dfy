/**
 * LookupRequest and LookupResponse (packages/core/src/protocol/discovery.ts): each format as a pair
 * of functions, the encoder and decoder that compute them, and proofs that the two are inverses.
 */
module DiscoveryCodec {
  import opened Wrappers
  import opened BinaryCodec
  import opened CoordLists

  // ---- LookupRequest ----

  datatype LookupRequest = LookupRequest(requestId: nat, target: Bytes, origin: Bytes, ttl: nat, minMtu: nat, originCoords: seq<Bytes>)

  predicate ValidLookupRequest(m: LookupRequest) {
    && m.requestId < Limit(8) && |m.target| == |m.origin| == ADDR_LEN && m.ttl < Limit(1) && m.minMtu < Limit(2)
    && ValidCoords(m.originCoords, 1)
  }

  function LookupRequestBytes(m: LookupRequest): Bytes {
    LittleEndian(m.requestId, 8) + m.target + m.origin + LittleEndian(m.ttl, 1) + LittleEndian(m.minMtu, 2)
    + CoordsBytes(m.originCoords)
  }

  function ParseLookupRequest(b: Bytes): Option<LookupRequest> {
    var requestId :- ParseInteger(b, 8);
    var target :- ParseBytes(requestId.rest, ADDR_LEN);
    var origin :- ParseBytes(target.rest, ADDR_LEN);
    var ttl :- ParseInteger(origin.rest, 1);
    var minMtu :- ParseInteger(ttl.rest, 2);
    var coords :- ParseCoords(minMtu.rest, 1);
    if coords.rest != [] then None
    else Some(LookupRequest(requestId.value, target.value, origin.value, ttl.value, minMtu.value, coords.value))
  }

  lemma LookupRequestRoundTrip(m: LookupRequest)
    requires ValidLookupRequest(m)
    ensures ParseLookupRequest(LookupRequestBytes(m)) == Some(m)
  {
    var e := CoordsBytes(m.originCoords);
    var d := LittleEndian(m.minMtu, 2) + e;
    var c := LittleEndian(m.ttl, 1) + d;
    Regroup6(LittleEndian(m.requestId, 8), m.target, m.origin, LittleEndian(m.ttl, 1), LittleEndian(m.minMtu, 2), e);
    ParseIntegerInverse(m.requestId, 8, m.target + (m.origin + c));
    ParseBytesInverse(m.target, m.origin + c);
    ParseBytesInverse(m.origin, c);
    ParseIntegerInverse(m.ttl, 1, d);
    ParseIntegerInverse(m.minMtu, 2, e);
    ParseCoordsInverse(m.originCoords, 1, []);
    assert e + [] == e;
  }

  lemma LookupRequestIsCanonical(b: Bytes)
    ensures var r := ParseLookupRequest(b); r.Some? ==> ValidLookupRequest(r.value) && LookupRequestBytes(r.value) == b
  {
    var r := ParseLookupRequest(b);
    if r.Some? {
      var m := r.value;
      ParsedIntegerIsCanonical(b, 8);
      var afterId := ParseInteger(b, 8).value.rest;
      var afterTarget := ParseBytes(afterId, ADDR_LEN).value.rest;
      var afterOrigin := ParseBytes(afterTarget, ADDR_LEN).value.rest;
      ParsedIntegerIsCanonical(afterOrigin, 1);
      var afterTtl := ParseInteger(afterOrigin, 1).value.rest;
      ParsedIntegerIsCanonical(afterTtl, 2);
      ParsedCoordsAreCanonical(ParseInteger(afterTtl, 2).value.rest, 1);
      var e := CoordsBytes(m.originCoords);
      assert e + [] == e;
      Regroup6(LittleEndian(m.requestId, 8), m.target, m.origin, LittleEndian(m.ttl, 1), LittleEndian(m.minMtu, 2), e);
    }
  }

  method EncodeLookupRequest(m: LookupRequest) returns (r: Result<Bytes>)
    requires |m.target| == |m.origin| == ADDR_LEN
    ensures r.Ok? <==> ValidLookupRequest(m)
    ensures r.Ok? ==> r.value == LookupRequestBytes(m)
  {
    var w := new BinaryWriter();
    var _ :- w.PutInteger(m.requestId, 8);
    assert w.written == LittleEndian(m.requestId, 8);
    w.PutBytes(m.target);
    w.PutBytes(m.origin);
    var _ :- w.PutInteger(m.ttl, 1);
    var _ :- w.PutInteger(m.minMtu, 2);
    var _ :- WriteCoords(w, m.originCoords, 1);
    var out := w.ToBytes();
    r := Ok(out);
  }

  method DecodeLookupRequest(payload: Bytes) returns (r: Result<LookupRequest>)
    ensures match ParseLookupRequest(payload)
      case None => r.Err?
      case Some(m) => r == Ok(m)
  {
    var reader := new BinaryReader(payload);
    var requestId :- reader.GetInteger(8);
    var target :- reader.GetBytes(ADDR_LEN);
    var origin :- reader.GetBytes(ADDR_LEN);
    var ttl :- reader.GetInteger(1);
    var minMtu :- reader.GetInteger(2);
    var coords :- ReadCoords(reader, 1);
    if reader.Remaining() != 0 {
      return Err("trailing LookupRequest bytes");
    }
    r := Ok(LookupRequest(requestId, target, origin, ttl, minMtu, coords));
  }

  // ---- LookupResponse ----

  const PROOF_LEN: nat := 64

  datatype LookupResponse = LookupResponse(requestId: nat, target: Bytes, pathMtu: nat, targetCoords: seq<Bytes>, proof: Bytes)

  predicate ValidLookupResponse(m: LookupResponse) {
    && m.requestId < Limit(8) && |m.target| == ADDR_LEN && m.pathMtu < Limit(2)
    && ValidCoords(m.targetCoords, 1) && |m.proof| == PROOF_LEN
  }

  function LookupResponseBytes(m: LookupResponse): Bytes {
    LittleEndian(m.requestId, 8) + m.target + LittleEndian(m.pathMtu, 2) + CoordsBytes(m.targetCoords) + m.proof
  }

  function ParseLookupResponse(b: Bytes): Option<LookupResponse> {
    var requestId :- ParseInteger(b, 8);
    var target :- ParseBytes(requestId.rest, ADDR_LEN);
    var pathMtu :- ParseInteger(target.rest, 2);
    var coords :- ParseCoords(pathMtu.rest, 1);
    var proof :- ParseBytes(coords.rest, PROOF_LEN);
    if proof.rest != [] then None
    else Some(LookupResponse(requestId.value, target.value, pathMtu.value, coords.value, proof.value))
  }

  lemma LookupResponseRoundTrip(m: LookupResponse)
    requires ValidLookupResponse(m)
    ensures ParseLookupResponse(LookupResponseBytes(m)) == Some(m)
  {
    var d := CoordsBytes(m.targetCoords) + m.proof;
    var c := LittleEndian(m.pathMtu, 2) + d;
    Regroup5(LittleEndian(m.requestId, 8), m.target, LittleEndian(m.pathMtu, 2), CoordsBytes(m.targetCoords), m.proof);
    ParseIntegerInverse(m.requestId, 8, m.target + c);
    ParseBytesInverse(m.target, c);
    ParseIntegerInverse(m.pathMtu, 2, d);
    ParseCoordsInverse(m.targetCoords, 1, m.proof);
    ParseBytesInverse(m.proof, []);
    assert m.proof + [] == m.proof;
  }

  lemma LookupResponseIsCanonical(b: Bytes)
    ensures var r := ParseLookupResponse(b); r.Some? ==> ValidLookupResponse(r.value) && LookupResponseBytes(r.value) == b
  {
    var r := ParseLookupResponse(b);
    if r.Some? {
      var m := r.value;
      ParsedIntegerIsCanonical(b, 8);
      var afterTarget := ParseBytes(ParseInteger(b, 8).value.rest, ADDR_LEN).value.rest;
      ParsedIntegerIsCanonical(afterTarget, 2);
      var afterMtu := ParseInteger(afterTarget, 2).value.rest;
      ParsedCoordsAreCanonical(afterMtu, 1);
      assert m.proof + [] == m.proof;
      Regroup5(LittleEndian(m.requestId, 8), m.target, LittleEndian(m.pathMtu, 2), CoordsBytes(m.targetCoords), m.proof);
    }
  }

  method EncodeLookupResponse(m: LookupResponse) returns (r: Result<Bytes>)
    requires |m.target| == ADDR_LEN
    ensures r.Ok? <==> ValidLookupResponse(m)
    ensures r.Ok? ==> r.value == LookupResponseBytes(m)
  {
    if |m.proof| != PROOF_LEN {
      return Err("LookupResponse proof must be 64 bytes");
    }
    var w := new BinaryWriter();
    var _ :- w.PutInteger(m.requestId, 8);
    assert w.written == LittleEndian(m.requestId, 8);
    w.PutBytes(m.target);
    var _ :- w.PutInteger(m.pathMtu, 2);
    var _ :- WriteCoords(w, m.targetCoords, 1);
    w.PutBytes(m.proof);
    var out := w.ToBytes();
    r := Ok(out);
  }

  method DecodeLookupResponse(payload: Bytes) returns (r: Result<LookupResponse>)
    ensures match ParseLookupResponse(payload)
      case None => r.Err?
      case Some(m) => r == Ok(m)
  {
    var reader := new BinaryReader(payload);
    var requestId :- reader.GetInteger(8);
    var target :- reader.GetBytes(ADDR_LEN);
    var pathMtu :- reader.GetInteger(2);
    var coords :- ReadCoords(reader, 1);
    var proof :- reader.GetBytes(PROOF_LEN);
    if reader.Remaining() != 0 {
      return Err("trailing LookupResponse bytes");
    }
    r := Ok(LookupResponse(requestId, target, pathMtu, coords, proof));
  }
}
