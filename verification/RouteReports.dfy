/**
 * What successes, failures and selections do to the routes of a destination, in numbers
 * (packages/core/src/node/LearnedRouteTable.ts, learn, recordFailure, selectNextHop, compareRoutes and routeWeight).
 */
module RouteReports {
  import opened Wrappers
  import opened LearnedRoutes

  // ---- The weight of a score ----

  // The power of the source, x^1.5, on non-negative reals.
  ghost predicate IsThreeHalves(power: real -> real) {
    forall x: real {:trigger power(x)} :: x >= 0.0 ==> power(x) >= 0.0 && power(x) * power(x) == Cube(x)
  }

  function Cube(x: real): real {
    x * x * x
  }

  function Held(score: real): real {
    if score < 0.05 then 0.05 else if score > 64.0 then 64.0 else score
  }

  lemma PositiveProduct(x: real, y: real)
    requires x > 0.0 && y > 0.0
    ensures x * y > 0.0
  {
  }

  lemma SquareOrder(a: real, b: real)
    requires a >= 0.0 && b >= 0.0
    ensures a <= b <==> a * a <= b * b
  {
    assert a * a - b * b == (a - b) * (a + b);
    if b < a {
      PositiveProduct(a - b, a + b);
    } else if a < b {
      PositiveProduct(b - a, a + b);
      assert (b - a) * (a + b) == b * b - a * a;
    }
  }

  lemma CubeOrder(x: real, y: real)
    requires 0.0 <= x <= y
    ensures Cube(x) <= Cube(y)
  {
    assert x * x <= y * x <= y * y;
    var s, t := x * x, y * y;
    assert s * x <= t * x <= t * y;
  }

  // Whatever the power, it is that of the score held between 0.05 and 64, and is itself held between 0.05 and 512.
  lemma WeightIsHeld(power: real -> real, route: Route)
    ensures var p := power(Held(route.score));
      RouteWeight(power, route) == if p < 0.05 then 0.05 else if p > 512.0 then 512.0 else p
  {
  }

  // A route weighs the 1.5th power of its score, and never less than 0.05: the bound of 512 on weights is that of the
  // score 64. A better score never weighs less.
  lemma WeightIsPowerOfScore(power: real -> real, route: Route)
    requires IsThreeHalves(power)
    ensures var w, x := RouteWeight(power, route), Held(route.score);
      && 0.05 <= w <= 512.0
      && (if Cube(x) <= 0.0025 then w == 0.05 else w * w == Cube(x))
  {
    var x := Held(route.score);
    var p := power(x);
    assert p * p == Cube(x);
    CubeOrder(x, 64.0);
    SquareOrder(p, 512.0);
    SquareOrder(p, 0.05);
  }

  lemma WeightGrowsWithScore(power: real -> real, worse: Route, better: Route)
    requires IsThreeHalves(power) && worse.score <= better.score
    ensures RouteWeight(power, worse) <= RouteWeight(power, better)
  {
    var x, y := Held(worse.score), Held(better.score);
    assert power(x) * power(x) == Cube(x) && power(y) * power(y) == Cube(y);
    CubeOrder(x, y);
    SquareOrder(power(x), power(y));
  }

  // ---- Reports on one route ----

  // A reply through the route, or a failure to send through it.
  datatype Report = Reply(nowMs: int, expiresAtMs: int, pathMtu: Option<nat>) | Failure

  function AfterReport(route: Route, report: Report): Route {
    match report
    case Reply(nowMs, expiresAtMs, pathMtu) => Reinforced(route, nowMs, expiresAtMs, pathMtu)
    case Failure => Penalised(route)
  }

  function AfterReports(route: Route, reports: seq<Report>): Route
    decreases |reports|
  {
    if reports == [] then route else AfterReport(AfterReports(route, reports[..|reports| - 1]), reports[|reports| - 1])
  }

  function Replies(reports: seq<Report>): nat {
    if reports == [] then 0 else Replies(reports[..|reports| - 1]) + if reports[|reports| - 1].Reply? then 1 else 0
  }

  // The score as the reports leave it: each reply adds one up to 64, each failure halves it down to 0.05.
  function Score(start: real, reports: seq<Report>): real {
    if reports == [] then start
    else
      var before := Score(start, reports[..|reports| - 1]);
      if reports[|reports| - 1].Reply? then (if before > 63.0 then 64.0 else before + 1.0)
      else if before < 0.1 then 0.05 else before / 2.0
  }

  // Any run of reports: they are all counted, the score is theirs, a failure leaves no credit for the next selections,
  // and the route was last seen, expires and has its path MTU as the last reply, and the last one with an MTU, said.
  lemma {:induction false} ReportsAreCounted(route: Route, reports: seq<Report>)
    requires 0.05 <= route.score <= 64.0
    ensures var after := AfterReports(route, reports);
      && after.nextHop == route.nextHop && after.selected == route.selected
      && after.successes == route.successes + Replies(reports)
      && after.failures == route.failures + (|reports| - Replies(reports))
      && after.score == Score(route.score, reports) && 0.05 <= after.score <= 64.0
      && after.currentWeight ==
         (if Replies(reports) < |reports| && route.currentWeight > 0.0 then 0.0 else route.currentWeight)
    ensures Replies(reports) <= |reports|
    decreases |reports|
  {
    if reports != [] {
      ReportsAreCounted(route, reports[..|reports| - 1]);
    }
  }

  // The latest reply decides the times; the path MTU stays with the latest reply that brought one.
  lemma LastReplyDecides(route: Route, reports: seq<Report>, reply: Report)
    requires reply.Reply?
    ensures var before, after := AfterReports(route, reports), AfterReports(route, reports + [reply]);
      && after.lastSeenMs == reply.nowMs && after.expiresAtMs == reply.expiresAtMs
      && (if reply.pathMtu.Some? then after.pathMtu == reply.pathMtu && after.pathMtuExpiresAtMs == Some(reply.expiresAtMs)
          else after.pathMtu == before.pathMtu && after.pathMtuExpiresAtMs == before.pathMtuExpiresAtMs)
    ensures var before, after := AfterReports(route, reports), AfterReports(route, reports + [Failure]);
      && after.lastSeenMs == before.lastSeenMs && after.expiresAtMs == before.expiresAtMs
      && after.pathMtu == before.pathMtu && after.pathMtuExpiresAtMs == before.pathMtuExpiresAtMs
  {
    assert (reports + [reply])[..|reports|] == reports && (reports + [Failure])[..|reports|] == reports;
  }

  // However badly a route has done, 64 replies in a row make it a best one again.
  lemma RepliesRestore(route: Route, reports: seq<Report>, replies: seq<Report>)
    requires 0.05 <= route.score <= 64.0 && |replies| >= 64 && forall k :: 0 <= k < |replies| ==> replies[k].Reply?
    ensures AfterReports(route, reports + replies).score == 64.0
  {
    ReportsAreCounted(route, reports);
    ReportsAreCounted(route, reports + replies);
    ScoreRises(route.score, reports, replies);
  }

  lemma {:induction false} ScoreRises(start: real, reports: seq<Report>, replies: seq<Report>)
    requires forall k :: 0 <= k < |replies| ==> replies[k].Reply?
    requires 0.0 <= Score(start, reports) <= 64.0
    ensures var s := Score(start, reports) + |replies| as real; Score(start, reports + replies) == if s > 64.0 then 64.0 else s
    decreases |replies|
  {
    if replies == [] {
      assert reports + [] == reports;
    } else {
      var n := |replies| - 1;
      ScoreRises(start, reports, replies[..n]);
      assert (reports + replies)[..|reports| + n] == reports + replies[..n] && (reports + replies)[|reports| + n] == replies[n];
    }
  }

  // ---- The list of a destination ----

  // What learning makes of the route to the next hop, or of there being none.
  predicate IsLearned(before: Option<Route>, after: Route, hop: NodeKey, nowMs: int, expiresAtMs: int, pathMtu: Option<nat>) {
    && after.nextHop == hop && after.lastSeenMs == nowMs && after.expiresAtMs == expiresAtMs
    && (pathMtu.Some? ==> after.pathMtu == pathMtu && after.pathMtuExpiresAtMs == Some(expiresAtMs))
    && match before
       case None =>
         && after.score == 1.0 && after.successes == 1 && after.failures == 0 && after.currentWeight == 0.0
         && after.selected == 0 && (pathMtu.None? ==> after.pathMtu.None? && after.pathMtuExpiresAtMs.None?)
       case Some(r) =>
         && after.score == (if r.score > 63.0 then 64.0 else r.score + 1.0) && after.successes == r.successes + 1
         && after.failures == r.failures && after.currentWeight == r.currentWeight && after.selected == r.selected
         && (pathMtu.None? ==> after.pathMtu == r.pathMtu && after.pathMtuExpiresAtMs == r.pathMtuExpiresAtMs)
  }

  // Learning touches the route to its next hop alone, or adds it.
  lemma LearningTouchesOneHop(routes: seq<Route>, hop: NodeKey, nowMs: int, expiresAtMs: int, pathMtu: Option<nat>)
    returns (before: Option<Route>, learned: Route)
    requires WellFormed(routes)
    ensures before.None? ==> forall r :: r in routes ==> r.nextHop != hop
    ensures before.Some? ==> before.value in routes && before.value.nextHop == hop
    ensures IsLearned(before, learned, hop, nowMs, expiresAtMs, pathMtu)
    ensures var after := Learned(routes, hop, nowMs, expiresAtMs, pathMtu);
      && learned in after && |after| == |routes| + (if before.None? then 1 else 0)
      && forall r: Route {:trigger r in after} :: r.nextHop != hop ==> (r in after <==> r in routes)
  {
    var after := Learned(routes, hop, nowMs, expiresAtMs, pathMtu);
    match IndexOf(routes, hop) {
      case None =>
        before, learned := None, after[|routes|];
      case Some(i) =>
        before, learned := Some(routes[i]), after[i];
        forall r: Route | r.nextHop != hop ensures r in after <==> r in routes {
          ElsewhereKept(routes, i, after[i], r);
        }
    }
  }

  lemma ElsewhereKept(routes: seq<Route>, i: nat, changed: Route, r: Route)
    requires i < |routes| && r != routes[i] && r != changed
    ensures r in routes[i := changed] <==> r in routes
  {
    var after := routes[i := changed];
    if r in routes {
      var k :| 0 <= k < |routes| && routes[k] == r;
      assert after[k] == r;
    }
    if r in after {
      var k :| 0 <= k < |after| && after[k] == r;
      assert routes[k] == r;
    }
  }

  // ---- The order of routes, and who is selected ----

  // The better score first, then the later one seen, then the lesser next hop.
  predicate NotAfter(left: Route, right: Route) {
    || left.score > right.score
    || (left.score == right.score && left.lastSeenMs > right.lastSeenMs)
    || (left.score == right.score && left.lastSeenMs == right.lastSeenMs && left.nextHop <= right.nextHop)
  }

  lemma NotAfterIs(left: Route, right: Route)
    ensures NotAfter(left, right) <==> !Precedes(right, left)
  {
  }

  // Keeping the best `maximum` of the routes drops none that comes before one it keeps.
  lemma BestAreKept(routes: seq<Route>, maximum: nat)
    requires WellFormed(routes)
    ensures var kept := SortedAndTruncated(routes, maximum);
      && |kept| == (if |routes| <= maximum then |routes| else maximum)
      && (forall r :: r in kept ==> r in routes)
      && (forall j, k :: 0 <= j < k < |kept| ==> NotAfter(kept[j], kept[k]))
      && (forall r, q :: r in kept && q in routes && q !in kept ==> NotAfter(r, q))
  {
    hide NotAfter, Precedes, SortedAndTruncated;
    TruncationKeepsBest(routes, maximum);
    var kept := SortedAndTruncated(routes, maximum);
    forall j, k | 0 <= j < k < |kept| ensures NotAfter(kept[j], kept[k]) {
      NotAfterIs(kept[j], kept[k]);
    }
    forall r, q | r in kept && q in routes && q !in kept ensures NotAfter(r, q) {
      NotAfterIs(r, q);
    }
  }

  // The routes that have not expired by a time are those that expire after it.
  lemma {:induction false} LiveIs(routes: seq<Route>, nowMs: int, r: Route)
    ensures r in Live(routes, nowMs) <==> r in routes && r.expiresAtMs > nowMs
  {
    if routes != [] {
      LiveIs(routes[1..], nowMs, r);
      assert r in routes <==> r == routes[0] || r in routes[1..];
    }
  }

  // The weight a route enters a selection with.
  function Claim(power: real -> real, route: Route): real {
    route.currentWeight + RouteWeight(power, route)
  }

  // What a selection leaves of a route: the claim of a sendable one, less the total if it was chosen.
  function Settled(power: real -> real, canSend: NodeKey -> bool, route: Route, chosen: bool, total: real): Route {
    if !canSend(route.nextHop) then route
    else if chosen then
      route.(currentWeight := route.currentWeight + RouteWeight(power, route) - total, selected := route.selected + 1)
    else route.(currentWeight := route.currentWeight + RouteWeight(power, route))
  }

  // One selection: the sendable route of the greatest claim, and among those the first in the order, is chosen; it pays the
  // weights of all, every other sendable route keeps its claim, and the list is put in order again.
  lemma SelectionOutcome(power: real -> real, canSend: NodeKey -> bool, routes: seq<Route>, hop: NodeKey, after: seq<Route>)
    returns (i: nat)
    requires Selection(power, canSend, routes, hop, after)
    ensures i < |routes| && routes[i].nextHop == hop && canSend(hop) && |after| == |routes|
    ensures forall j :: 0 <= j < |routes| && canSend(routes[j].nextHop) ==>
      || Claim(power, routes[j]) < Claim(power, routes[i])
      || (Claim(power, routes[j]) == Claim(power, routes[i]) && NotAfter(routes[i], routes[j]))
    ensures var total := TotalWeight(power, canSend, routes);
      forall r {:trigger r in after} :: r in after ==>
        exists j {:trigger routes[j]} :: 0 <= j < |routes| && r == Settled(power, canSend, routes[j], j == i, total)
    ensures var total := TotalWeight(power, canSend, routes);
      forall j :: 0 <= j < |routes| ==> Settled(power, canSend, routes[j], j == i, total) in after
    ensures forall j, k :: 0 <= j < k < |after| ==> NotAfter(after[j], after[k])
  {
    hide RouteWeight, Sort, TotalWeight, NotAfter, Precedes;
    i :| Picks(power, canSend, routes, i, after) && routes[i].nextHop == hop;
    var boosted, charged := Boosted(power, canSend, routes), Charged(power, canSend, routes, i);
    var total := TotalWeight(power, canSend, routes);
    SortIsPermutation(charged);
    assert |multiset(after)| == |after| && |multiset(charged)| == |charged|;
    SortSorts(charged);
    forall j | 0 <= j < |routes| ensures charged[j] == Settled(power, canSend, routes[j], j == i, total) {
    }
    forall j, k | 0 <= j < k < |after| ensures NotAfter(after[j], after[k]) {
      NotAfterIs(after[j], after[k]);
    }
    forall j | 0 <= j < |routes| && canSend(routes[j].nextHop)
      ensures Claim(power, routes[j]) <= Claim(power, routes[i])
      ensures Claim(power, routes[j]) == Claim(power, routes[i]) ==> NotAfter(routes[i], routes[j])
    {
      NotAfterIs(boosted[i], boosted[j]);
      BoostKeepsOrder(power, canSend, routes[i], routes[j]);
    }
  }

  lemma BoostKeepsOrder(power: real -> real, canSend: NodeKey -> bool, left: Route, right: Route)
    ensures NotAfter(Boost(power, canSend, left), Boost(power, canSend, right)) <==> NotAfter(left, right)
  {
  }
}
