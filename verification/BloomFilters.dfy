/**
 * The Bloom filter as a set of bit indices (packages/core/src/bloom/index.ts).
 */
module BloomFilters {
  import opened Powers
  import opened Wrappers

  const MAX_HASH_COUNT: nat := 0xff

  type Word = n: nat | n < TWO_TO_64

  // The two words of a key's SHA-256 digest that the filter uses.
  datatype Digest = Digest(h1: Word, h2: Word)

  // ---- Probes ----

  function Probe(d: Digest, k: nat, numBits: nat): (i: nat)
    requires numBits > 0
    ensures i < numBits
  {
    ((d.h1 + k * d.h2) % TWO_TO_64) % numBits
  }

  // The indices of the first n probes.
  function Probes(d: Digest, n: nat, numBits: nat): (s: set<nat>)
    requires numBits > 0
    ensures forall i :: i in s ==> i < numBits
  {
    if n == 0 then {} else Probes(d, n - 1, numBits) + {Probe(d, n - 1, numBits)}
  }

  lemma {:induction false} FewerProbes(d: Digest, n: nat, m: nat, numBits: nat)
    requires numBits > 0 && n <= m
    ensures Probes(d, n, numBits) <= Probes(d, m, numBits)
    decreases m
  {
    if n < m {
      FewerProbes(d, n, m - 1, numBits);
    }
  }

  // ---- One byte ----

  function Bit(k: nat): bv8
    requires k < 8
  {
    if k == 0 then 1 else if k == 1 then 2 else if k == 2 then 4 else if k == 3 then 8
    else if k == 4 then 16 else if k == 5 then 32 else if k == 6 then 64 else 128
  }

  predicate HasBit(b: bv8, k: nat) {
    k < 8 && b & Bit(k) != 0
  }

  lemma SetBits(b: bv8, c: bv8, k: nat, j: nat)
    requires k < 8 && j < 8
    ensures HasBit(b | Bit(k), j) <==> HasBit(b, j) || j == k
    ensures HasBit(b | c, j) <==> HasBit(b, j) || HasBit(c, j)
    ensures !HasBit(0, j)
  {
  }

  // Clearing the lowest set bit with b & (b - 1).
  lemma LowestBit(b: bv8) returns (k: nat)
    requires b != 0
    ensures HasBit(b, k)
    ensures forall j {:trigger HasBit(b & (b - 1), j)} :: HasBit(b & (b - 1), j) <==> HasBit(b, j) && j != k
  {
    k := 0;
    while b & Bit(k) == 0
      invariant k < 8
      invariant k >= 1 ==> b & 1 == 0
      invariant k >= 2 ==> b & 2 == 0
      invariant k >= 3 ==> b & 4 == 0
      invariant k >= 4 ==> b & 8 == 0
      invariant k >= 5 ==> b & 16 == 0
      invariant k >= 6 ==> b & 32 == 0
      invariant k >= 7 ==> b & 64 == 0
      decreases 8 - k
    {
      if k == 7 {
        AllBitsClear(b);
      }
      k := k + 1;
    }
    forall j | j < 8 ensures HasBit(b & (b - 1), j) <==> HasBit(b, j) && j != k {
      ClearsLowest(b, k, j);
    }
  }

  lemma AllBitsClear(b: bv8)
    requires b & 1 == 0 && b & 2 == 0 && b & 4 == 0 && b & 8 == 0 && b & 16 == 0 && b & 32 == 0 && b & 64 == 0 && b & 128 == 0
    ensures b == 0
  {
  }

  lemma ClearsLowest(b: bv8, k: nat, j: nat)
    requires k < 8 && j < 8 && b & Bit(k) != 0
    requires k >= 1 ==> b & 1 == 0
    requires k >= 2 ==> b & 2 == 0
    requires k >= 3 ==> b & 4 == 0
    requires k >= 4 ==> b & 8 == 0
    requires k >= 5 ==> b & 16 == 0
    requires k >= 6 ==> b & 32 == 0
    requires k >= 7 ==> b & 64 == 0
    ensures HasBit(b & (b - 1), j) <==> HasBit(b, j) && j != k
  {
  }

  // ---- The bytes as a set of indices ----

  predicate IsSet(bits: seq<bv8>, i: nat) {
    i / 8 < |bits| && HasBit(bits[i / 8], i % 8)
  }

  ghost function Members(bits: seq<bv8>): set<nat> {
    set i: nat | i < 8 * |bits| && IsSet(bits, i)
  }

  lemma MemberIsSet(bits: seq<bv8>, i: nat)
    ensures i in Members(bits) <==> IsSet(bits, i)
    ensures i in Members(bits) ==> i < 8 * |bits|
  {
  }

  // Index i is bit i mod 8, from the least significant, of byte i / 8.
  lemma MemberIsBit(bits: seq<bv8>, i: nat)
    ensures i in Members(bits) <==> i < 8 * |bits| && bits[i / 8] & (1 << (i % 8)) != 0
  {
    BitIsShift(i % 8);
  }

  lemma BitIsShift(k: nat)
    requires k < 8
    ensures Bit(k) == 1 << k
  {
    match k {
      case 0 => case 1 => case 2 => case 3 => case 4 => case 5 => case 6 => case _ =>
    }
  }

  // ---- Counting ----

  lemma BitsAreInByte(b: bv8)
    ensures forall k: nat :: HasBit(b, k) ==> k < 8
  {
  }

  // The first n bits of a byte, as indices from an offset on.
  ghost function BitsBelow(b: bv8, n: nat, offset: nat): (s: set<nat>)
    requires n <= 8
    ensures forall i: nat :: i in s <==> offset <= i < offset + n && HasBit(b, i - offset)
  {
    if n == 0 then {} else BitsBelow(b, n - 1, offset) + (if HasBit(b, n - 1) then {offset + n - 1} else {})
  }

  ghost function BitsOf(b: bv8): (s: set<nat>)
    ensures forall k: nat :: k in s <==> HasBit(b, k)
  {
    hide HasBit;
    assert forall k: nat :: HasBit(b, k) ==> k < 8 by {
      BitsAreInByte(b);
    }
    BitsBelow(b, 8, 0)
  }

  lemma {:induction false} OffsetKeepsSize(b: bv8, n: nat, offset: nat)
    requires n <= 8
    ensures |BitsBelow(b, n, offset)| == |BitsBelow(b, n, 0)|
  {
    hide HasBit;
    if n > 0 {
      OffsetKeepsSize(b, n - 1, offset);
    }
  }

  lemma MemberSnoc(bits: seq<bv8>, b: bv8, i: nat)
    ensures i in Members(bits + [b]) <==> i in Members(bits) || i in BitsBelow(b, 8, 8 * |bits|)
  {
    hide HasBit, Members, BitsBelow;
    var more := bits + [b];
    MemberIsSet(bits, i);
    MemberIsSet(more, i);
    WhichByte(i, |bits|);
    if i < 8 * |bits| {
      assert more[i / 8] == bits[i / 8];
    } else if i < 8 * |bits| + 8 {
      assert more[i / 8] == b;
    }
  }

  lemma WhichByte(i: nat, n: nat)
    ensures i / 8 < n <==> i < 8 * n
    ensures 8 * n <= i < 8 * n + 8 ==> i / 8 == n && i % 8 == i - 8 * n
  {
  }

  // One more byte adds its bits, eight places further on for each byte before it.
  lemma MembersSnoc(bits: seq<bv8>, b: bv8)
    ensures |Members(bits + [b])| == |Members(bits)| + |BitsOf(b)|
  {
    hide Members, HasBit;
    var added := BitsBelow(b, 8, 8 * |bits|);
    forall i: nat ensures i in Members(bits + [b]) <==> i in Members(bits) + added {
      MemberSnoc(bits, b, i);
    }
    forall i | i in Members(bits) ensures i < 8 * |bits| {
      MemberIsSet(bits, i);
    }
    assert Members(bits + [b]) == Members(bits) + added && Members(bits) !! added;
    OffsetKeepsSize(b, 8, 8 * |bits|);
  }

  // Clearing one bit leaves one fewer.
  lemma OneFewer(b: bv8)
    requires b != 0
    ensures |BitsOf(b)| == |BitsOf(b & (b - 1))| + 1
  {
    var k := LowestBit(b);
    FewerBits(b, b & (b - 1), k);
  }

  lemma FewerBits(b: bv8, c: bv8, k: nat)
    requires HasBit(b, k) && forall j {:trigger HasBit(c, j)} :: HasBit(c, j) <==> HasBit(b, j) && j != k
    ensures |BitsOf(b)| == |BitsOf(c)| + 1
  {
    hide HasBit, BitsOf, BitsBelow;
    assert BitsOf(b) == BitsOf(c) + {k};
  }

  lemma NoBits()
    ensures BitsOf(0) == {}
  {
    forall k | k < 8 ensures !HasBit(0, k) {
      SetBits(0, 0, k, k);
    }
  }

  // ---- BloomFilter ----

  class BloomFilter {
    const bits: array<bv8>
    const numBits: nat
    const hashCount: nat

    ghost predicate Valid()
      reads this
    {
      numBits == 8 * bits.Length && numBits > 0 && 0 < hashCount <= MAX_HASH_COUNT
    }

    ghost function Indices(): set<nat>
      reads this, bits
    {
      Members(bits[..])
    }

    static method WithParams(size: nat, hashes: nat) returns (r: Result<BloomFilter>)
      ensures r.Ok? <==> size > 0 && size % 8 == 0 && 0 < hashes <= MAX_HASH_COUNT
      ensures r.Ok? ==>
        && fresh(r.value) && fresh(r.value.bits) && r.value.Valid()
        && r.value.numBits == size && r.value.hashCount == hashes && r.value.Indices() == {}
    {
      if size == 0 || size % 8 != 0 {
        return Err("numBits must be a positive multiple of 8");
      }
      if hashes == 0 || hashes > MAX_HASH_COUNT {
        return Err("hashCount must be in [1, 255]");
      }
      var filter := new BloomFilter(size, hashes);
      r := Ok(filter);
    }

    constructor (size: nat, hashes: nat)
      requires size > 0 && size % 8 == 0 && 0 < hashes <= MAX_HASH_COUNT
      ensures Valid() && fresh(bits) && numBits == size && hashCount == hashes && Indices() == {}
    {
      bits := new bv8[size / 8](_ => 0);
      numBits, hashCount := size, hashes;
      new;
      NothingSet(bits[..]);
    }

    predicate GetBit(i: nat)
      requires Valid() && i < numBits
      reads this, bits
      ensures GetBit(i) <==> i in Indices()
    {
      HasBit(bits[i / 8], i % 8)
    }

    method SetBit(i: nat)
      requires Valid() && i < numBits
      modifies bits
      ensures Indices() == old(Indices()) + {i}
    {
      ghost var before := bits[..];
      bits[i / 8] := bits[i / 8] | Bit(i % 8);
      OneMoreSet(before, bits[..], i);
    }

    method InsertBytes(d: Digest)
      requires Valid()
      modifies bits
      ensures Indices() == old(Indices()) + Probes(d, hashCount, numBits)
    {
      for k := 0 to hashCount
        invariant Indices() == old(Indices()) + Probes(d, k, numBits)
      {
        SetBit(Probe(d, k, numBits));
      }
    }

    method ContainsBytes(d: Digest) returns (present: bool)
      requires Valid()
      ensures present <==> Probes(d, hashCount, numBits) <= Indices()
    {
      for k := 0 to hashCount
        invariant Probes(d, k, numBits) <= Indices()
      {
        if !GetBit(Probe(d, k, numBits)) {
          FewerProbes(d, k + 1, hashCount, numBits);
          return false;
        }
      }
      present := true;
    }

    method Merge(other: BloomFilter) returns (r: Result<()>)
      requires Valid() && other.Valid()
      modifies bits
      ensures r.Err? <==> numBits != other.numBits
      ensures Indices() == if r.Ok? then old(Indices()) + old(other.Indices()) else old(Indices())
    {
      if numBits != other.numBits {
        return Err("filter size mismatch");
      }
      ghost var mine, theirs := bits[..], other.bits[..];
      for i := 0 to bits.Length
        invariant forall j :: 0 <= j < bits.Length ==> bits[j] == if j < i then mine[j] | theirs[j] else mine[j]
        invariant bits != other.bits ==> other.bits[..] == theirs
      {
        OrIsIdempotent(mine[i]);
        bits[i] := bits[i] | other.bits[i];
      }
      ByteWiseUnion(mine, theirs, bits[..]);
      r := Ok(());
    }

    // Takes the other's bits as far as this filter goes; there is no check of the sizes.
    method Union(other: BloomFilter) returns (out: BloomFilter)
      requires Valid() && other.Valid()
      ensures out.Valid() && fresh(out) && fresh(out.bits) && out.numBits == numBits && out.hashCount == hashCount
      ensures forall i :: i in out.Indices() <==> i in Indices() || (i in other.Indices() && i < numBits)
    {
      out := new BloomFilter(numBits, hashCount);
      ghost var theirs := Fitted(other.bits[..], bits.Length);
      for i := 0 to bits.Length
        invariant forall j :: 0 <= j < i ==> out.bits[j] == bits[j] | theirs[j]
      {
        out.bits[i] := if i < other.bits.Length then bits[i] | other.bits[i] else bits[i];
        OrWithZero(bits[i]);
      }
      ByteWiseUnion(bits[..], theirs, out.bits[..]);
      FittedMembers(other.bits[..], bits.Length);
    }

    method Clear()
      requires Valid()
      modifies bits
      ensures Indices() == {}
    {
      forall i | 0 <= i < bits.Length {
        bits[i] := 0;
      }
      NothingSet(bits[..]);
    }

    method CountOnes() returns (count: nat)
      requires Valid()
      ensures count == |Indices()|
    {
      count := 0;
      assert Members([]) == {};
      for i := 0 to bits.Length
        invariant count == |Members(bits[..i])|
      {
        MembersSnoc(bits[..i], bits[i]);
        assert bits[..i + 1] == bits[..i] + [bits[i]];
        var b := bits[i];
        NoBits();
        while b != 0
          invariant count + |BitsOf(b)| == |Members(bits[..i + 1])|
          decreases |BitsOf(b)|
        {
          OneFewer(b);
          b := b & (b - 1);
          count := count + 1;
        }
      }
      assert bits[..bits.Length] == bits[..];
    }
  }

  lemma NothingSet(bits: seq<bv8>)
    requires forall i :: 0 <= i < |bits| ==> bits[i] == 0
    ensures Members(bits) == {}
  {
    forall i: nat | IsSet(bits, i) ensures false {
      SetBits(0, 0, 0, i % 8);
    }
  }

  lemma SamePlace(i: nat, j: nat)
    ensures i == j <==> i / 8 == j / 8 && i % 8 == j % 8
  {
    assert i == 8 * (i / 8) + i % 8 && j == 8 * (j / 8) + j % 8;
  }

  lemma OneMoreSet(before: seq<bv8>, after: seq<bv8>, i: nat)
    requires i / 8 < |before| && after == before[i / 8 := before[i / 8] | Bit(i % 8)]
    ensures Members(after) == Members(before) + {i}
  {
    hide HasBit, Bit;
    forall j: nat | j < 8 * |before| ensures IsSet(after, j) <==> IsSet(before, j) || j == i {
      SetBits(before[i / 8], 0, i % 8, j % 8);
      SamePlace(i, j);
    }
  }

  lemma ByteWiseUnion(a: seq<bv8>, b: seq<bv8>, c: seq<bv8>)
    requires |a| == |b| == |c| && forall i :: 0 <= i < |a| ==> c[i] == a[i] | b[i]
    ensures Members(c) == Members(a) + Members(b)
  {
    forall j: nat | j < 8 * |a| ensures IsSet(c, j) <==> IsSet(a, j) || IsSet(b, j) {
      SetBits(a[j / 8], b[j / 8], 0, j % 8);
    }
  }

  lemma OrIsIdempotent(b: bv8)
    ensures b | b == b
  {
  }

  lemma OrWithZero(b: bv8)
    ensures b | 0 == b
  {
  }

  // The first n bytes, with zero bytes added if there are fewer.
  function Fitted(bits: seq<bv8>, n: nat): (r: seq<bv8>)
    ensures |r| == n && forall i :: 0 <= i < n ==> r[i] == if i < |bits| then bits[i] else 0
  {
    if n == 0 then [] else Fitted(bits, n - 1) + [if n <= |bits| then bits[n - 1] else 0]
  }

  lemma FittedMembers(bits: seq<bv8>, n: nat)
    ensures forall i: nat :: i in Members(Fitted(bits, n)) <==> i in Members(bits) && i < 8 * n
  {
    forall i: nat ensures i in Members(Fitted(bits, n)) <==> i in Members(bits) && i < 8 * n {
      SetBits(0, 0, 0, i % 8);
    }
  }

  // ---- When one filter's probes cover another's ----

  // Indices beyond a filter of n bits are lost to it.
  function Clip(s: set<nat>, n: nat): set<nat> {
    set i | i in s && i < n
  }

  lemma {:induction false} ProbesAre(d: Digest, n: nat, numBits: nat)
    requires numBits > 0
    ensures forall i :: i in Probes(d, n, numBits) <==> exists k: nat :: k < n && Probe(d, k, numBits) == i
  {
    hide Probe;
    if n > 0 {
      ProbesAre(d, n - 1, numBits);
      assert Probe(d, n - 1, numBits) in Probes(d, n, numBits);
    }
  }

  // The k-th probe of a key is its two words, the second k times, added in 64 bits and reduced to the size.
  lemma ProbedExactlyIf(d: Digest, hashCount: nat, numBits: nat, i: nat)
    requires numBits > 0
    ensures i in Probes(d, hashCount, numBits) <==>
      exists k: nat {:trigger k * d.h2} :: k < hashCount && i == (d.h1 + k * d.h2) % 18446744073709551616 % numBits
  {
    ProbesAre(d, hashCount, numBits);
    forall k: nat ensures Probe(d, k, numBits) == (d.h1 + k * d.h2) % 18446744073709551616 % numBits {
    }
  }

  // A filter whose size divides 2^64 has no more different probes than bits: they repeat.
  lemma ProbeRepeats(d: Digest, k: nat, numBits: nat)
    requires numBits > 0 && TWO_TO_64 % numBits == 0
    ensures Probe(d, k, numBits) == Probe(d, k % numBits, numBits)
  {
    hide Probe;
    PlainProbe(d, k, numBits);
    PlainProbe(d, k % numBits, numBits);
    SameRemainder(d.h1, d.h2, k, numBits);
  }

  lemma PlainProbe(d: Digest, k: nat, numBits: nat)
    requires numBits > 0 && TWO_TO_64 % numBits == 0
    ensures d.h1 + k * d.h2 >= 0 && Probe(d, k, numBits) == (d.h1 + k * d.h2) % numBits
  {
    ModOfMod(d.h1 + k * d.h2, TWO_TO_64, numBits);
  }

  lemma SameRemainder(h1: nat, h2: nat, k: nat, n: nat)
    requires n > 0
    ensures (h1 + k * h2) % n == (h1 + (k % n) * h2) % n
  {
    var q, r := k / n, k % n;
    assert k == r + q * n;
    Distribute(r, q, n, h2);
    assert h1 + r * h2 >= 0 && q * h2 >= 0;
    AddMultiple(h1 + r * h2, q * h2, n);
  }

  lemma Distribute(r: nat, q: nat, n: nat, h: nat)
    ensures (r + q * n) * h == r * h + (q * h) * n
  {
  }

  // The guard a caller can check before joining two filters: the sizes, and the receiver's and the other's hash counts.
  predicate SafeJoin(numBits: nat, hashCount: nat, otherBits: nat, otherCount: nat) {
    numBits == otherBits && (hashCount <= otherCount || (IsPowerOfTwo(numBits) && numBits <= otherCount))
  }

  // What the other filter sets for a key, as far as it fits the receiver, is what the receiver looks for.
  predicate Covers(d: Digest, numBits: nat, hashCount: nat, otherBits: nat, otherCount: nat)
    requires numBits > 0 && otherBits > 0
  {
    Probes(d, hashCount, numBits) <= Clip(Probes(d, otherCount, otherBits), numBits)
  }

  predicate Parameters(numBits: nat, hashCount: nat) {
    0 < numBits < TWO_TO_64 && 0 < hashCount <= MAX_HASH_COUNT
  }

  lemma SafeJoinCovers(d: Digest, numBits: nat, hashCount: nat, otherBits: nat, otherCount: nat)
    requires Parameters(numBits, hashCount) && Parameters(otherBits, otherCount)
    requires SafeJoin(numBits, hashCount, otherBits, otherCount)
    ensures Covers(d, numBits, hashCount, otherBits, otherCount)
  {
    if hashCount <= otherCount {
      FewerProbes(d, hashCount, otherCount, numBits);
    } else {
      PowerIs64();
      DividesPowerExactlyIf(64, numBits);
      ProbesAre(d, hashCount, numBits);
      ProbesAre(d, otherCount, numBits);
      hide Probe, Probes, Power, IsPowerOfTwo;
      forall i | i in Probes(d, hashCount, numBits) ensures i in Probes(d, otherCount, numBits) {
        var k: nat :| k < hashCount && Probe(d, k, numBits) == i;
        ProbeRepeats(d, k, numBits);
        assert k % numBits < otherCount;
      }
    }
  }

  // A key whose probes are 0, 1, 2 and so on.
  lemma CountingKey(k: nat, numBits: nat)
    requires k < numBits < TWO_TO_64
    ensures Probe(Digest(0, 1), k, numBits) == k
  {
    DivisionIs(k, 0, k, TWO_TO_64);
    DivisionIs(k, 0, k, numBits);
  }

  // A key whose probes start again from 0 at 2^64, which they reach after count steps of numBits.
  function WrappingKey(count: nat, numBits: nat): (d: Digest)
    requires 0 < count <= MAX_HASH_COUNT && 0 < numBits <= MAX_HASH_COUNT
  {
    SmallProduct(count, numBits);
    Digest(TWO_TO_64 - count * numBits, numBits)
  }

  lemma SmallProduct(a: nat, b: nat)
    requires 0 < a <= MAX_HASH_COUNT && 0 < b <= MAX_HASH_COUNT
    ensures 0 < a * b <= 0xffff
  {
    AtLeastOneMultiple(a, b);
    assert (MAX_HASH_COUNT - a) * b >= 0;
    assert (MAX_HASH_COUNT - a) * b == MAX_HASH_COUNT * b - a * b;
  }

  lemma WrappingProbe(k: nat, count: nat, numBits: nat)
    requires 0 < count <= MAX_HASH_COUNT && 0 < numBits <= MAX_HASH_COUNT && k <= count
    ensures Probe(WrappingKey(count, numBits), k, numBits) == if k == count then 0 else TWO_TO_64 % numBits
  {
    SmallProduct(count, numBits);
    var x := TWO_TO_64 - count * numBits + k * numBits;
    assert (count - k) * numBits == count * numBits - k * numBits;
    if k < count {
      SmallProduct(count - k, numBits);
      DivisionIs(x, 0, x, TWO_TO_64);
      AddMultiple(x, count - k, numBits);
    } else {
      DivisionIs(x, 1, 0, TWO_TO_64);
      DivisionIs(0, 0, 0, numBits);
    }
  }

  // A key that the receiver does not find after an unsafe join of empty filters with it.
  lemma UnsafeJoinLoses(numBits: nat, hashCount: nat, otherBits: nat, otherCount: nat) returns (d: Digest)
    requires Parameters(numBits, hashCount) && Parameters(otherBits, otherCount)
    requires !SafeJoin(numBits, hashCount, otherBits, otherCount)
    ensures !Covers(d, numBits, hashCount, otherBits, otherCount)
  {
    var missed: nat;
    if numBits != otherBits {
      var h1: Word := if numBits < otherBits then numBits else otherBits;
      d := Digest(h1, 0);
      missed := 0;
      SizesDiffer(h1, numBits, otherBits);
      assert forall k: nat {:trigger Probe(d, k, otherBits)} :: Probe(d, k, otherBits) == h1 % otherBits;
      assert Probe(d, 0, numBits) == h1 % numBits;
    } else if otherCount < numBits {
      d := Digest(0, 1);
      missed := otherCount;
      forall k: nat | k <= otherCount ensures Probe(d, k, numBits) == k {
        CountingKey(k, numBits);
      }
    } else {
      PowerIs64();
      DividesPowerExactlyIf(64, numBits);
      d := WrappingKey(otherCount, numBits);
      missed := otherCount;
      forall k: nat | k <= otherCount
        ensures Probe(d, k, numBits) == if k == otherCount then 0 else TWO_TO_64 % numBits
      {
        WrappingProbe(k, otherCount, numBits);
      }
    }
    ProbesAre(d, hashCount, numBits);
    ProbesAre(d, otherCount, otherBits);
    hide Probe, Probes, Power, IsPowerOfTwo;
    assert Probe(d, missed, numBits) in Probes(d, hashCount, numBits);
  }

  lemma SizesDiffer(h1: nat, a: nat, b: nat)
    requires 0 < a < TWO_TO_64 && 0 < b < TWO_TO_64 && a != b && h1 == if a < b then a else b
    ensures h1 % a != h1 % b
  {
    DivisionIs(h1, if a < b then 1 else 0, if a < b then 0 else h1, a);
    DivisionIs(h1, if a < b then 0 else 1, if a < b then h1 else 0, b);
  }

  // One filter's keys are found in another that takes over its bits exactly if the sizes agree and the receiver probes no
  // more often, or as often as there are bits already covers every probe.
  lemma KeysCarryOverExactlyIf(numBits: nat, hashCount: nat, otherBits: nat, otherCount: nat)
    requires Parameters(numBits, hashCount) && Parameters(otherBits, otherCount)
    ensures SafeJoin(numBits, hashCount, otherBits, otherCount)
      <==> forall d :: Covers(d, numBits, hashCount, otherBits, otherCount)
  {
    hide Covers;
    if SafeJoin(numBits, hashCount, otherBits, otherCount) {
      forall d ensures Covers(d, numBits, hashCount, otherBits, otherCount) {
        SafeJoinCovers(d, numBits, hashCount, otherBits, otherCount);
      }
    } else {
      var d := UnsafeJoinLoses(numBits, hashCount, otherBits, otherCount);
    }
  }

  // ---- No false negatives ----

  // How a filter came about.
  datatype History =
    | New(numBits: nat, hashCount: nat)
    | Inserted(into: History, key: Digest)
    | Merged(receiver: History, other: History)
    | United(receiver: History, other: History)
  {
    function Size(): nat {
      match this
      case New(numBits, _) => numBits
      case Inserted(into, _) => into.Size()
      case Merged(receiver, _) => receiver.Size()
      case United(receiver, _) => receiver.Size()
    }

    function HashCount(): nat {
      match this
      case New(_, hashCount) => hashCount
      case Inserted(into, _) => into.HashCount()
      case Merged(receiver, _) => receiver.HashCount()
      case United(receiver, _) => receiver.HashCount()
    }

    function Keys(): set<Digest> {
      match this
      case New(_, _) => {}
      case Inserted(into, key) => into.Keys() + {key}
      case Merged(receiver, other) => receiver.Keys() + other.Keys()
      case United(receiver, other) => receiver.Keys() + other.Keys()
    }

    // Every operation succeeded: merge refuses another size, union does not.
    predicate Valid()
      ensures Valid() ==> Parameters(Size(), HashCount())
    {
      match this
      case New(numBits, hashCount) => Parameters(numBits, hashCount)
      case Inserted(into, _) => into.Valid()
      case Merged(receiver, other) => receiver.Valid() && other.Valid() && receiver.Size() == other.Size()
      case United(receiver, other) => receiver.Valid() && other.Valid()
    }

    function Bits(): set<nat>
      requires Valid()
    {
      match this
      case New(_, _) => {}
      case Inserted(into, key) => into.Bits() + Probes(key, into.HashCount(), into.Size())
      case Merged(receiver, other) => receiver.Bits() + other.Bits()
      case United(receiver, other) => receiver.Bits() + Clip(other.Bits(), receiver.Size())
    }

    predicate Finds(key: Digest)
      requires Valid()
    {
      Probes(key, HashCount(), Size()) <= Bits()
    }

    // Every filter on the way finds every key that was put into it.
    predicate FindsAll()
      requires Valid()
    {
      && (forall key :: key in Keys() ==> Finds(key))
      && match this
         case New(_, _) => true
         case Inserted(into, _) => into.FindsAll()
         case Merged(receiver, other) => receiver.FindsAll() && other.FindsAll()
         case United(receiver, other) => receiver.FindsAll() && other.FindsAll()
    }

    predicate SafeJoins() {
      match this
      case New(_, _) => true
      case Inserted(into, _) => into.SafeJoins()
      case Merged(receiver, other) => receiver.SafeJoins() && other.SafeJoins() && SafelyJoined(receiver, other)
      case United(receiver, other) => receiver.SafeJoins() && other.SafeJoins() && SafelyJoined(receiver, other)
    }

    static predicate SafelyJoined(receiver: History, other: History) {
      SafeJoin(receiver.Size(), receiver.HashCount(), other.Size(), other.HashCount())
    }

    // The same filters and joins with nothing inserted.
    function Emptied(): (r: History)
      ensures r.Size() == Size() && r.HashCount() == HashCount() && r.SafeJoins() == SafeJoins() && r.Valid() == Valid()
    {
      match this
      case New(_, _) => this
      case Inserted(into, _) => into.Emptied()
      case Merged(receiver, other) => Merged(receiver.Emptied(), other.Emptied())
      case United(receiver, other) => United(receiver.Emptied(), other.Emptied())
    }
  }

  lemma {:induction false} EmptiedIsEmpty(f: History)
    requires f.Valid()
    ensures f.Emptied().Bits() == {} && f.Emptied().Keys() == {} && f.Emptied().Emptied() == f.Emptied()
    decreases f
  {
    match f {
      case New(_, _) =>
      case Inserted(into, _) => EmptiedIsEmpty(into);
      case Merged(receiver, other) => EmptiedIsEmpty(receiver); EmptiedIsEmpty(other);
      case United(receiver, other) => EmptiedIsEmpty(receiver); EmptiedIsEmpty(other);
    }
  }

  // What the other filter holds of a key carries over to the receiver.
  lemma JoinFinds(receiver: History, other: History, key: Digest)
    requires receiver.Valid() && other.Valid() && History.SafelyJoined(receiver, other) && other.Finds(key)
    ensures Probes(key, receiver.HashCount(), receiver.Size()) <= other.Bits()
    ensures Probes(key, receiver.HashCount(), receiver.Size()) <= Clip(other.Bits(), receiver.Size())
  {
    SafeJoinCovers(key, receiver.Size(), receiver.HashCount(), other.Size(), other.HashCount());
  }

  // A key put in anywhere is reported present, if every join on the way was safe.
  lemma {:induction false} NoFalseNegatives(f: History, key: Digest)
    requires f.Valid() && f.SafeJoins() && key in f.Keys()
    ensures f.Finds(key)
    decreases f
  {
    hide Probes;
    match f {
      case New(_, _) =>
      case Inserted(into, k) =>
        if key != k {
          NoFalseNegatives(into, key);
        }
      case Merged(receiver, other) =>
        if key in receiver.Keys() {
          NoFalseNegatives(receiver, key);
        } else {
          NoFalseNegatives(other, key);
          JoinFinds(receiver, other, key);
        }
      case United(receiver, other) =>
        if key in receiver.Keys() {
          NoFalseNegatives(receiver, key);
        } else {
          NoFalseNegatives(other, key);
          JoinFinds(receiver, other, key);
        }
    }
  }

  lemma {:induction false} SafeJoinsFindAll(f: History)
    requires f.Valid() && f.SafeJoins()
    ensures f.FindsAll()
    decreases f
  {
    hide Probes, f.Finds;
    forall key | key in f.Keys() ensures f.Finds(key) {
      NoFalseNegatives(f, key);
    }
    match f {
      case New(_, _) =>
      case Inserted(into, _) => SafeJoinsFindAll(into);
      case Merged(receiver, other) => SafeJoinsFindAll(receiver); SafeJoinsFindAll(other);
      case United(receiver, other) => SafeJoinsFindAll(receiver); SafeJoinsFindAll(other);
    }
  }

  // One key, put into the other filter of an unsafe join and nowhere else, that the result does not find.
  lemma UnsafeJoinLosesAKey(receiver: History, other: History) returns (key: Digest)
    requires receiver.Valid() && other.Valid() && !History.SafelyJoined(receiver, other)
    ensures !United(receiver.Emptied(), Inserted(other.Emptied(), key)).Finds(key)
    ensures receiver.Size() == other.Size() ==> !Merged(receiver.Emptied(), Inserted(other.Emptied(), key)).Finds(key)
  {
    key := UnsafeJoinLoses(receiver.Size(), receiver.HashCount(), other.Size(), other.HashCount());
    EmptiedIsEmpty(receiver);
    EmptiedIsEmpty(other);
    hide Probes;
    var there := Inserted(other.Emptied(), key);
    assert there.Bits() == Probes(key, other.HashCount(), other.Size());
    assert United(receiver.Emptied(), there).Bits() == Clip(there.Bits(), receiver.Size());
    if receiver.Size() == other.Size() {
      assert Merged(receiver.Emptied(), there).Bits() == there.Bits() == Clip(there.Bits(), receiver.Size());
    }
  }

  // The contents of one side of a join, changed.
  lemma LostInside(receiver: History, other: History, r: History, o: History)
    requires receiver.Valid() && other.Valid() && r.Valid() && o.Valid() && !(r.FindsAll() && o.FindsAll())
    requires r.Emptied() == receiver.Emptied() && o.Emptied() == other.Emptied()
    ensures United(r, o).Valid() && !United(r, o).FindsAll() && United(r, o).Emptied() == United(receiver, other).Emptied()
    ensures receiver.Size() == other.Size() ==>
      Merged(r, o).Valid() && !Merged(r, o).FindsAll() && Merged(r, o).Emptied() == Merged(receiver, other).Emptied()
  {
    assert r.Size() == r.Emptied().Size() == receiver.Size();
    assert o.Size() == o.Emptied().Size() == other.Size();
  }

  lemma LostInJoin(receiver: History, other: History) returns (o: History)
    requires receiver.Valid() && other.Valid() && !History.SafelyJoined(receiver, other)
    ensures var r := receiver.Emptied();
      && r.Emptied() == r && o.Valid() && o.Emptied() == other.Emptied()
      && !United(r, o).FindsAll() && (receiver.Size() == other.Size() ==> !Merged(r, o).FindsAll())
  {
    EmptiedIsEmpty(receiver);
    EmptiedIsEmpty(other);
    var key := UnsafeJoinLosesAKey(receiver, other);
    o := Inserted(other.Emptied(), key);
    hide Probes, History.Finds;
    assert key in o.Keys();
  }

  // Contents with which some filter on the way does not find one of its keys.
  lemma {:induction false} SomeKeyIsLost(f: History) returns (g: History)
    requires f.Valid() && !f.SafeJoins()
    ensures g.Valid() && g.Emptied() == f.Emptied() && !g.FindsAll()
    decreases f, 0
  {
    match f {
      case New(_, _) =>
        assert false;
        g := f;
      case Inserted(into, _) => g := SomeKeyIsLost(into);
      case Merged(receiver, other) =>
        var r, o := LostSides(receiver, other);
        g := Merged(r, o);
      case United(receiver, other) =>
        var r, o := LostSides(receiver, other);
        g := United(r, o);
    }
  }

  lemma {:induction false} LostSides(receiver: History, other: History) returns (r: History, o: History)
    requires receiver.Valid() && other.Valid()
    requires !(receiver.SafeJoins() && other.SafeJoins() && History.SafelyJoined(receiver, other))
    ensures United(r, o).Valid() && !United(r, o).FindsAll() && United(r, o).Emptied() == United(receiver, other).Emptied()
    ensures receiver.Size() == other.Size() ==>
      Merged(r, o).Valid() && !Merged(r, o).FindsAll() && Merged(r, o).Emptied() == Merged(receiver, other).Emptied()
    decreases if receiver.SafeJoins() then other else receiver, 1
  {
    r, o := receiver, other;
    if !receiver.SafeJoins() {
      r := SomeKeyIsLost(receiver);
      LostInside(receiver, other, r, o);
    } else if !other.SafeJoins() {
      o := SomeKeyIsLost(other);
      LostInside(receiver, other, r, o);
    } else {
      r := receiver.Emptied();
      o := LostInJoin(receiver, other);
      assert o.Size() == o.Emptied().Size() == other.Size();
    }
  }

  // However filters are made, filled and joined, every one of them finds all its keys whatever these are, exactly if every
  // join was safe.
  lemma KeysAreKeptExactlyIf(f: History)
    requires f.Valid()
    ensures f.SafeJoins() <==> forall g: History {:trigger g.FindsAll()} :: g.Valid() && g.Emptied() == f.Emptied() ==> g.FindsAll()
  {
    hide Probes;
    if f.SafeJoins() {
      forall g: History | g.Valid() && g.Emptied() == f.Emptied() ensures g.FindsAll() {
        assert g.SafeJoins() == g.Emptied().SafeJoins() && f.SafeJoins() == f.Emptied().SafeJoins();
        SafeJoinsFindAll(g);
      }
    } else {
      var g := SomeKeyIsLost(f);
    }
  }

  // A merge loses a key: one probe of it is set where two are looked for.
  lemma MergeLosesAKey()
    ensures var f := Merged(New(8, 2), Inserted(New(8, 1), Digest(0, 1)));
      f.Valid() && Digest(0, 1) in f.Keys() && !f.Finds(Digest(0, 1))
  {
    var key := Digest(0, 1);
    assert Probe(key, 0, 8) == 0 && Probe(key, 1, 8) == 1;
    assert Probes(key, 1, 8) == {0};
    assert 1 in Probes(key, 2, 8);
  }

  // A union of another size loses a key: its probe lies beyond the receiver.
  lemma UnionLosesAKey()
    ensures var f := United(New(8, 1), Inserted(New(16, 1), Digest(8, 0)));
      f.Valid() && Digest(8, 0) in f.Keys() && !f.Finds(Digest(8, 0))
  {
    var key := Digest(8, 0);
    assert Probe(key, 0, 16) == 8 && Probe(key, 0, 8) == 0;
    assert Probes(key, 1, 16) == {8};
    assert 0 in Probes(key, 1, 8);
  }
}
