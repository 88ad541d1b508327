/**
 * Tree coordinates: a node's ancestry from itself up to its root, and the distance
 * between two of them (packages/core/src/node/TreeState.ts, treeDistance).
 */
module TreeCoordinates {
  import opened Wrappers

  // A 16-byte address; compareNodeAddr orders addresses as the big-endian numbers they spell.
  type NodeAddr = nat

  type Coords = seq<NodeAddr>

  function Root(a: Coords): NodeAddr
    requires a != []
  {
    a[|a| - 1]
  }

  // The i-th ancestor counted down from the root.
  function FromRoot(a: Coords, i: nat): NodeAddr
    requires i < |a|
  {
    a[|a| - 1 - i]
  }

  // The n entries nearest the root agree.
  ghost predicate SameTail(a: Coords, b: Coords, n: nat) {
    n <= |a| && n <= |b| && forall i :: 0 <= i < n ==> FromRoot(a, i) == FromRoot(b, i)
  }

  // The number of entries shared from the root down: the depth of the deepest common ancestor.
  function CommonSuffix(a: Coords, b: Coords): (n: nat)
    ensures SameTail(a, b, n)
    ensures n < |a| && n < |b| ==> FromRoot(a, n) != FromRoot(b, n)
  {
    CommonFrom(a, b, 0)
  }

  function CommonFrom(a: Coords, b: Coords, k: nat): (n: nat)
    requires SameTail(a, b, k)
    ensures SameTail(a, b, n)
    ensures n < |a| && n < |b| ==> FromRoot(a, n) != FromRoot(b, n)
    decreases |a| - k
  {
    if k < |a| && k < |b| && FromRoot(a, k) == FromRoot(b, k) then CommonFrom(a, b, k + 1) else k
  }

  // None stands for the source's Infinity.
  function Distance(a: Coords, b: Coords): Option<nat> {
    if a == [] || b == [] || Root(a) != Root(b) then None
    else Some(|a| + |b| - 2 * CommonSuffix(a, b))
  }

  method TreeDistance(a: Coords, b: Coords) returns (d: Option<nat>)
    ensures d == Distance(a, b)
  {
    if |a| == 0 || |b| == 0 || a[|a| - 1] != b[|b| - 1] {
      return None;
    }
    var common := 0;
    while common < |a| && common < |b|
      invariant SameTail(a, b, common)
    {
      if a[|a| - 1 - common] != b[|b| - 1 - common] {
        break;
      }
      common := common + 1;
    }
    CommonSuffixAt(a, b, common);
    d := Some(|a| + |b| - 2 * common);
  }

  // The two clauses pin the common suffix down.
  lemma CommonSuffixAt(a: Coords, b: Coords, n: nat)
    requires SameTail(a, b, n)
    requires n < |a| && n < |b| ==> FromRoot(a, n) != FromRoot(b, n)
    ensures CommonSuffix(a, b) == n
  {
    var m := CommonSuffix(a, b);
  }

  lemma CommonSuffixIsLongest(a: Coords, b: Coords, n: nat)
    requires SameTail(a, b, n)
    ensures n <= CommonSuffix(a, b)
  {
    var m := CommonSuffix(a, b);
  }

  // ---- Distance is a metric on the coordinates that share a root ----

  lemma DistanceIsZeroOnlyOnEquals(a: Coords, b: Coords)
    requires a != [] && b != []
    ensures Distance(a, b) == Some(0) <==> a == b
  {
    if a == b {
      CommonSuffixAt(a, b, |a|);
    } else if |a| == |b| && CommonSuffix(a, b) == |a| {
      assert forall i :: 0 <= i < |a| ==> a[i] == FromRoot(a, |a| - 1 - i) && b[i] == FromRoot(b, |a| - 1 - i);
    }
  }

  lemma DistanceIsSymmetric(a: Coords, b: Coords)
    ensures Distance(a, b) == Distance(b, a)
  {
    CommonSuffixAt(b, a, CommonSuffix(a, b));
  }

  lemma TriangleInequality(a: Coords, b: Coords, c: Coords)
    requires a != [] && b != [] && c != [] && Root(a) == Root(b) == Root(c)
    ensures Distance(a, c).value <= Distance(a, b).value + Distance(b, c).value
  {
    var m, n := CommonSuffix(a, b), CommonSuffix(b, c);
    var k := if m <= n then m else n;
    assert forall i :: 0 <= i < k ==> FromRoot(a, i) == FromRoot(b, i) == FromRoot(c, i);
    CommonSuffixIsLongest(a, c, k);
  }

  // ---- Distance is the number of steps of a shortest walk on the tree ----

  // One step: from a node to its parent, or from a parent to one of its children.
  predicate Step(a: Coords, b: Coords) {
    a != [] && b != [] && (a == b[1..] || b == a[1..])
  }

  ghost predicate Walk(p: seq<Coords>, a: Coords, b: Coords) {
    && p != [] && p[0] == a != []
    && if |p| == 1 then a == b else Step(a, p[1]) && Walk(p[1..], p[1], b)
  }

  lemma StepDistance(a: Coords, b: Coords)
    requires Step(a, b)
    ensures Distance(a, b) == Some(1)
  {
    if a == b[1..] {
      CommonSuffixAt(a, b, |a|);
    } else {
      CommonSuffixAt(a, b, |b|);
    }
  }

  lemma {:induction false} NoWalkIsShorter(p: seq<Coords>, a: Coords, b: Coords)
    requires Walk(p, a, b)
    ensures Distance(a, b).Some? && Distance(a, b).value <= |p| - 1
  {
    if |p| == 1 {
      DistanceIsZeroOnlyOnEquals(a, b);
    } else {
      NoWalkIsShorter(p[1..], p[1], b);
      StepDistance(a, p[1]);
      TriangleInequality(a, p[1], b);
    }
  }

  // Climb to the deepest common ancestor, then descend.
  function NextOnWalk(a: Coords, b: Coords): Coords {
    var n := CommonSuffix(a, b);
    if n < |a| then a[1..] else if n < |b| then b[|b| - n - 1..] else b
  }

  lemma ClimbIsNearer(a: Coords, b: Coords)
    requires Distance(a, b).Some? && CommonSuffix(a, b) < |a|
    ensures Step(a, a[1..]) && Distance(a[1..], b) == Some(Distance(a, b).value - 1)
  {
    hide CommonSuffix;
    var n, up := CommonSuffix(a, b), a[1..];
    CommonSuffixIsLongest(a, b, 1);
    assert forall i :: 0 <= i < |up| ==> FromRoot(up, i) == FromRoot(a, i);
    CommonSuffixAt(up, b, n);
  }

  lemma DescentIsNearer(a: Coords, b: Coords)
    requires Distance(a, b).Some? && CommonSuffix(a, b) == |a| < |b|
    ensures var next := b[|b| - |a| - 1..]; Step(a, next) && Distance(next, b) == Some(Distance(a, b).value - 1)
  {
    hide CommonSuffix;
    var next := b[|b| - |a| - 1..];
    assert forall i :: 0 <= i < |next| ==> FromRoot(next, i) == FromRoot(b, i);
    CommonSuffixAt(next, b, |a| + 1);
    assert forall i :: 0 <= i < |a| ==> a[i] == FromRoot(a, |a| - 1 - i) && next[1..][i] == FromRoot(b, |a| - 1 - i);
  }

  lemma NextOnWalkIsNearer(a: Coords, b: Coords)
    requires Distance(a, b).Some? && a != b
    ensures var next := NextOnWalk(a, b); Step(a, next) && Distance(next, b) == Some(Distance(a, b).value - 1)
  {
    hide CommonSuffix;
    if CommonSuffix(a, b) < |a| {
      ClimbIsNearer(a, b);
    } else if CommonSuffix(a, b) < |b| {
      DescentIsNearer(a, b);
    } else {
      DistanceIsZeroOnlyOnEquals(a, b);
    }
  }

  lemma {:induction false} ShortestWalk(a: Coords, b: Coords) returns (p: seq<Coords>)
    requires Distance(a, b).Some?
    ensures Walk(p, a, b) && |p| - 1 == Distance(a, b).value
    decreases Distance(a, b).value
  {
    DistanceIsZeroOnlyOnEquals(a, b);
    if a == b {
      p := [a];
    } else {
      NextOnWalkIsNearer(a, b);
      var q := ShortestWalk(NextOnWalk(a, b), b);
      p := [a] + q;
      assert p[1..] == q;
    }
  }

  ghost predicate Connected(a: Coords, b: Coords, steps: nat) {
    exists p :: Walk(p, a, b) && |p| - 1 == steps
  }

  // treeDistance is the length of the shortest walk, and Infinity exactly when there is none.
  lemma DistanceIsShortestWalkLength(a: Coords, b: Coords)
    ensures Distance(a, b).Some? ==> Connected(a, b, Distance(a, b).value)
    ensures forall steps :: Connected(a, b, steps) ==> Distance(a, b).Some? && Distance(a, b).value <= steps
  {
    if Distance(a, b).Some? {
      var p := ShortestWalk(a, b);
    }
    forall steps | Connected(a, b, steps)
      ensures Distance(a, b).Some? && Distance(a, b).value <= steps
    {
      var p :| Walk(p, a, b) && |p| - 1 == steps;
      NoWalkIsShorter(p, a, b);
    }
  }
}
