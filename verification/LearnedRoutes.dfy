/**
 * Reply-learned routes and their smooth weighted round-robin
 * (packages/core/src/node/LearnedRouteTable.ts). Scores and weights are reals; x^1.5 is a
 * parameter, because only its clamped value matters.
 */
module LearnedRoutes {
  import opened Wrappers

  type NodeKey = nat

  const MIN_ROUTE_SCORE: real := 0.05
  const MAX_ROUTE_SCORE: real := 64.0
  const MAX_ROUTE_WEIGHT: real := 512.0

  datatype Route = Route(
    nextHop: NodeKey, lastSeenMs: int, expiresAtMs: int, successes: nat, failures: nat,
    score: real, currentWeight: real, selected: nat, pathMtu: Option<nat>, pathMtuExpiresAtMs: Option<int>)

  function Clamp(value: real, minimum: real, maximum: real): (r: real)
    requires minimum <= maximum
    ensures minimum <= r <= maximum && (minimum <= value <= maximum ==> r == value)
  {
    var atLeast := if value < minimum then minimum else value;
    if atLeast > maximum then maximum else atLeast
  }

  function RouteWeight(power: real -> real, route: Route): (w: real)
    ensures MIN_ROUTE_SCORE <= w <= MAX_ROUTE_WEIGHT
  {
    Clamp(power(Clamp(route.score, MIN_ROUTE_SCORE, MAX_ROUTE_SCORE)), MIN_ROUTE_SCORE, MAX_ROUTE_WEIGHT)
  }

  // compareRoutes(left, right) < 0
  predicate Precedes(left: Route, right: Route) {
    || left.score > right.score
    || (left.score == right.score
        && (left.lastSeenMs > right.lastSeenMs || (left.lastSeenMs == right.lastSeenMs && left.nextHop < right.nextHop)))
  }

  // ---- Sorting ----

  predicate Sorted(routes: seq<Route>) {
    forall i, j :: 0 <= i < j < |routes| ==> !Precedes(routes[j], routes[i])
  }

  function Insert(route: Route, routes: seq<Route>): seq<Route> {
    if routes == [] then [route]
    else if Precedes(routes[0], route) then [routes[0]] + Insert(route, routes[1..])
    else [route] + routes
  }

  function Sort(routes: seq<Route>): seq<Route> {
    if routes == [] then [] else Insert(routes[0], Sort(routes[1..]))
  }

  lemma {:induction false} InsertIsPermutation(route: Route, routes: seq<Route>)
    ensures multiset(Insert(route, routes)) == multiset{route} + multiset(routes)
    ensures forall q :: q in Insert(route, routes) <==> q == route || q in routes
  {
    if routes != [] && Precedes(routes[0], route) {
      assert routes == [routes[0]] + routes[1..];
      InsertIsPermutation(route, routes[1..]);
    }
  }

  lemma {:induction false} SortIsPermutation(routes: seq<Route>)
    ensures multiset(Sort(routes)) == multiset(routes)
    ensures forall q :: q in Sort(routes) <==> q in routes
  {
    if routes != [] {
      assert routes == [routes[0]] + routes[1..];
      SortIsPermutation(routes[1..]);
      InsertIsPermutation(routes[0], Sort(routes[1..]));
    }
  }

  lemma {:induction false} InsertKeepsSorted(route: Route, routes: seq<Route>)
    requires Sorted(routes)
    ensures Sorted(Insert(route, routes))
  {
    if routes != [] && Precedes(routes[0], route) {
      InsertKeepsSorted(route, routes[1..]);
      InsertIsPermutation(route, routes[1..]);
      forall q | q in Insert(route, routes[1..]) ensures !Precedes(q, routes[0]) {
        assert q == route || q in routes[1..];
      }
    }
  }

  lemma {:induction false} SortSorts(routes: seq<Route>)
    ensures Sorted(Sort(routes))
  {
    if routes != [] {
      SortSorts(routes[1..]);
      InsertKeepsSorted(routes[0], Sort(routes[1..]));
    }
  }

  // ---- Sums ----

  // The sum of a quantity of the routes that qualify.
  function Sum(routes: seq<Route>, qualifies: NodeKey -> bool, quantity: Route -> real): real {
    if routes == [] then 0.0
    else (if qualifies(routes[0].nextHop) then quantity(routes[0]) else 0.0) + Sum(routes[1..], qualifies, quantity)
  }

  function Count(routes: seq<Route>, qualifies: NodeKey -> bool): nat {
    if routes == [] then 0 else (if qualifies(routes[0].nextHop) then 1 else 0) + Count(routes[1..], qualifies)
  }

  function CurrentWeight(route: Route): real {
    route.currentWeight
  }

  predicate Any(k: NodeKey) {
    true
  }

  lemma {:induction false} InsertKeepsSum(route: Route, routes: seq<Route>, qualifies: NodeKey -> bool, quantity: Route -> real)
    ensures Sum(Insert(route, routes), qualifies, quantity) == Sum([route] + routes, qualifies, quantity)
    ensures Count(Insert(route, routes), qualifies) == Count([route] + routes, qualifies)
  {
    assert ([route] + routes)[1..] == routes;
    if routes != [] && Precedes(routes[0], route) {
      InsertKeepsSum(route, routes[1..], qualifies, quantity);
      assert ([route] + routes[1..])[1..] == routes[1..];
      assert Insert(route, routes)[1..] == Insert(route, routes[1..]);
    }
  }

  lemma {:induction false} SortKeepsSum(routes: seq<Route>, qualifies: NodeKey -> bool, quantity: Route -> real)
    ensures Sum(Sort(routes), qualifies, quantity) == Sum(routes, qualifies, quantity)
    ensures Count(Sort(routes), qualifies) == Count(routes, qualifies)
  {
    if routes != [] {
      SortKeepsSum(routes[1..], qualifies, quantity);
      InsertKeepsSum(routes[0], Sort(routes[1..]), qualifies, quantity);
      assert ([routes[0]] + Sort(routes[1..]))[1..] == Sort(routes[1..]);
    }
  }

  lemma {:induction false} SumUpdate(routes: seq<Route>, i: nat, route: Route, qualifies: NodeKey -> bool, quantity: Route -> real)
    requires i < |routes| && route.nextHop == routes[i].nextHop
    ensures Sum(routes[i := route], qualifies, quantity)
      == Sum(routes, qualifies, quantity) + if qualifies(route.nextHop) then quantity(route) - quantity(routes[i]) else 0.0
    ensures Count(routes[i := route], qualifies) == Count(routes, qualifies)
  {
    if i == 0 {
      assert routes[i := route][1..] == routes[1..];
    } else {
      SumUpdate(routes[1..], i - 1, route, qualifies, quantity);
      assert routes[i := route][1..] == routes[1..][i - 1 := route];
    }
  }

  // ---- One selection ----

  predicate Alive(nowMs: int, route: Route) {
    route.expiresAtMs > nowMs
  }

  function Live(routes: seq<Route>, nowMs: int): (r: seq<Route>)
    ensures forall route :: route in r ==> route in routes && Alive(nowMs, route)
    ensures |r| <= |routes|
  {
    if routes == [] then []
    else IfAlive(routes[0], nowMs) + Live(routes[1..], nowMs)
  }

  function IfAlive(route: Route, nowMs: int): seq<Route> {
    if Alive(nowMs, route) then [route] else []
  }

  // Every sendable route gains its weight.
  function Boost(power: real -> real, canSend: NodeKey -> bool, route: Route): Route {
    if canSend(route.nextHop) then route.(currentWeight := route.currentWeight + RouteWeight(power, route)) else route
  }

  function Boosted(power: real -> real, canSend: NodeKey -> bool, routes: seq<Route>): (r: seq<Route>)
    ensures |r| == |routes| && forall i :: 0 <= i < |r| ==> r[i] == Boost(power, canSend, routes[i])
  {
    if routes == [] then [] else [Boost(power, canSend, routes[0])] + Boosted(power, canSend, routes[1..])
  }

  function WeightOf(power: real -> real): Route -> real {
    route => RouteWeight(power, route)
  }

  function TotalWeight(power: real -> real, canSend: NodeKey -> bool, routes: seq<Route>): real {
    Sum(routes, canSend, WeightOf(power))
  }

  // The heaviest sendable route; ties go to the one that sorts first.
  predicate Chosen(routes: seq<Route>, canSend: NodeKey -> bool, i: nat) {
    ChosenAmong(routes, canSend, |routes|, i)
  }

  predicate ChosenAmong(routes: seq<Route>, canSend: NodeKey -> bool, bound: nat, i: nat) {
    && i < bound <= |routes| && canSend(routes[i].nextHop)
    && forall j :: 0 <= j < bound && canSend(routes[j].nextHop) ==>
         || routes[j].currentWeight < routes[i].currentWeight
         || (routes[j].currentWeight == routes[i].currentWeight && !Precedes(routes[j], routes[i]))
  }

  predicate Outweighs(left: Route, right: Route) {
    left.currentWeight > right.currentWeight || (left.currentWeight == right.currentWeight && Precedes(left, right))
  }

  lemma ChosenAmongMore(routes: seq<Route>, canSend: NodeKey -> bool, bound: nat, chosen: Option<nat>)
    requires bound < |routes| && canSend(routes[bound].nextHop)
    requires chosen.None? ==> forall j :: 0 <= j < bound ==> !canSend(routes[j].nextHop)
    requires chosen.Some? ==> ChosenAmong(routes, canSend, bound, chosen.value)
    ensures ChosenAmong(routes, canSend, bound + 1,
                        if chosen.None? || Outweighs(routes[bound], routes[chosen.value]) then bound else chosen.value)
  {
  }

  lemma ChosenAmongRest(routes: seq<Route>, canSend: NodeKey -> bool, bound: nat, i: nat)
    requires bound < |routes| && !canSend(routes[bound].nextHop) && ChosenAmong(routes, canSend, bound, i)
    ensures ChosenAmong(routes, canSend, bound + 1, i)
  {
  }

  // The chosen route pays the total of the weights.
  function Charge(routes: seq<Route>, i: nat, total: real): seq<Route>
    requires i < |routes|
  {
    routes[i := routes[i].(currentWeight := routes[i].currentWeight - total, selected := routes[i].selected + 1)]
  }

  function Charged(power: real -> real, canSend: NodeKey -> bool, routes: seq<Route>, i: nat): (r: seq<Route>)
    requires i < |routes|
    ensures |r| == |routes|
  {
    Charge(Boosted(power, canSend, routes), i, TotalWeight(power, canSend, routes))
  }

  // One call of selectNextHop that picks the i-th route and leaves the routes `after`.
  ghost predicate Picks(power: real -> real, canSend: NodeKey -> bool, routes: seq<Route>, i: nat, after: seq<Route>) {
    && i < |routes| && Chosen(Boosted(power, canSend, routes), canSend, i)
    && after == Sort(Charged(power, canSend, routes, i))
  }

  ghost predicate Selection(power: real -> real, canSend: NodeKey -> bool, routes: seq<Route>, hop: NodeKey, after: seq<Route>) {
    exists i: nat :: Picks(power, canSend, routes, i, after) && routes[i].nextHop == hop
  }

  lemma {:induction false} BoostedSums(power: real -> real, canSend: NodeKey -> bool, routes: seq<Route>)
    ensures Sum(Boosted(power, canSend, routes), canSend, CurrentWeight)
      == Sum(routes, canSend, CurrentWeight) + TotalWeight(power, canSend, routes)
    ensures Sum(Boosted(power, canSend, routes), Any, CurrentWeight)
      == Sum(routes, Any, CurrentWeight) + TotalWeight(power, canSend, routes)
    ensures TotalWeight(power, canSend, Boosted(power, canSend, routes)) == TotalWeight(power, canSend, routes)
    ensures Count(Boosted(power, canSend, routes), canSend) == Count(routes, canSend)
  {
    if routes != [] {
      BoostedSums(power, canSend, routes[1..]);
      assert Boosted(power, canSend, routes)[1..] == Boosted(power, canSend, routes[1..]);
    }
  }

  // Conservation: a selection moves weight between routes but neither creates nor destroys any.
  lemma SelectionConservesWeight(power: real -> real, canSend: NodeKey -> bool, routes: seq<Route>, hop: NodeKey, after: seq<Route>)
    requires Selection(power, canSend, routes, hop, after)
    ensures Sum(after, Any, CurrentWeight) == Sum(routes, Any, CurrentWeight)
    ensures Sum(after, canSend, CurrentWeight) == Sum(routes, canSend, CurrentWeight)
    ensures TotalWeight(power, canSend, after) == TotalWeight(power, canSend, routes)
    ensures Count(after, canSend) == Count(routes, canSend)
  {
    var i: nat :| Picks(power, canSend, routes, i, after);
    var boosted, charged := Boosted(power, canSend, routes), Charged(power, canSend, routes, i);
    BoostedSums(power, canSend, routes);
    SumUpdate(boosted, i, charged[i], canSend, CurrentWeight);
    SumUpdate(boosted, i, charged[i], Any, CurrentWeight);
    SumUpdate(boosted, i, charged[i], canSend, WeightOf(power));
    SortKeepsSum(charged, canSend, CurrentWeight);
    SortKeepsSum(charged, Any, CurrentWeight);
    SortKeepsSum(charged, canSend, WeightOf(power));
  }

  // ---- Fairness over any number of selections ----

  // No two routes of a destination share a next hop: learn looks the next hop up first.
  ghost predicate UniqueHops(routes: seq<Route>) {
    routes != [] ==> Absent(routes[0].nextHop, routes[1..]) && UniqueHops(routes[1..])
  }

  predicate Absent(hop: NodeKey, routes: seq<Route>) {
    forall r :: r in routes ==> r.nextHop != hop
  }

  lemma {:induction false} UniqueHopsAt(routes: seq<Route>, i: nat, j: nat)
    requires UniqueHops(routes) && i < j < |routes|
    ensures routes[i].nextHop != routes[j].nextHop
  {
    if i == 0 {
      assert routes[j] in routes[1..];
    } else {
      UniqueHopsAt(routes[1..], i - 1, j - 1);
    }
  }

  lemma {:induction false} SameHopsStayUnique(routes: seq<Route>, others: seq<Route>)
    requires UniqueHops(routes) && |others| == |routes| && forall i :: 0 <= i < |routes| ==> others[i].nextHop == routes[i].nextHop
    ensures UniqueHops(others)
  {
    if routes != [] {
      SameHopsStayUnique(routes[1..], others[1..]);
      forall r | r in others[1..] ensures r.nextHop != others[0].nextHop {
        var i :| 0 < i < |others| && others[i] == r;
        assert routes[i] in routes[1..];
      }
    }
  }

  lemma {:induction false} InsertKeepsUnique(route: Route, routes: seq<Route>)
    requires Absent(route.nextHop, routes) && UniqueHops(routes)
    ensures UniqueHops(Insert(route, routes))
  {
    InsertIsPermutation(route, routes);
    if routes != [] && Precedes(routes[0], route) {
      InsertIsPermutation(route, routes[1..]);
      InsertKeepsUnique(route, routes[1..]);
      assert Insert(route, routes)[1..] == Insert(route, routes[1..]);
    } else {
      assert Insert(route, routes)[1..] == routes;
    }
  }

  lemma {:induction false} SortKeepsUnique(routes: seq<Route>)
    requires UniqueHops(routes)
    ensures UniqueHops(Sort(routes))
  {
    if routes != [] {
      SortKeepsUnique(routes[1..]);
      SortIsPermutation(routes[1..]);
      InsertKeepsUnique(routes[0], Sort(routes[1..]));
    }
  }

  function Times(hops: seq<NodeKey>, hop: NodeKey): nat {
    if hops == [] then 0 else Times(hops[..|hops| - 1], hop) + if hops[|hops| - 1] == hop then 1 else 0
  }

  // states[m] holds the routes after m calls of selectNextHop, which returned hops[..m].
  ghost predicate Selections(power: real -> real, canSend: NodeKey -> bool, states: seq<seq<Route>>, hops: seq<NodeKey>, nows: seq<int>) {
    && |states| == |hops| + 1 && |nows| == |hops|
    && forall m :: 0 <= m < |hops| ==> SelectionAt(power, canSend, states, hops, nows, m)
  }

  ghost predicate SelectionAt(power: real -> real, canSend: NodeKey -> bool, states: seq<seq<Route>>, hops: seq<NodeKey>, nows: seq<int>, m: nat)
    requires m < |hops| == |nows| == |states| - 1
  {
    Selection(power, canSend, Live(states[m], nows[m]), hops[m], states[m + 1])
  }

  // What a sendable route of weight w has gained and paid over the selections.
  function Credit(w: real, total: real, hops: seq<NodeKey>, hop: NodeKey): real {
    if hops == [] then 0.0
    else Credit(w, total, hops[..|hops| - 1], hop) + w - if hops[|hops| - 1] == hop then total else 0.0
  }

  lemma {:induction false} CreditInClosedForm(w: real, total: real, hops: seq<NodeKey>, hop: NodeKey)
    ensures Credit(w, total, hops, hop) == |hops| as real * w - total * Times(hops, hop) as real
  {
    if hops != [] {
      CreditInClosedForm(w, total, hops[..|hops| - 1], hop);
      Distribute(w, |hops| as real - 1.0);
      Distribute(total, Times(hops[..|hops| - 1], hop) as real);
    }
  }

  lemma Distribute(a: real, n: real)
    ensures (n + 1.0) * a == n * a + a && a * (n + 1.0) == a * n + a
  {
  }

  // k * x, by repeated addition.
  function Scaled(k: nat, x: real): real {
    if k == 0 then 0.0 else x + Scaled(k - 1, x)
  }

  lemma {:induction false} ScaledIsProduct(k: nat, x: real)
    ensures Scaled(k, x) == k as real * x
  {
    if k > 0 {
      ScaledIsProduct(k - 1, x);
      Distribute(x, k as real - 1.0);
    }
  }

  lemma {:induction false} ScaledIsMonotonic(k: nat, a: real, b: real)
    requires a < b
    ensures k > 0 ==> Scaled(k, a) < Scaled(k, b)
  {
    if k > 1 {
      ScaledIsMonotonic(k - 1, a, b);
    }
  }

  // The invariant of a run: every route holds its credit, the sendable ones hold nothing on
  // balance, and none is further in debt than a route chosen at the average weight.
  ghost predicate Balanced(power: real -> real, canSend: NodeKey -> bool, total: real, average: real, hops: seq<NodeKey>, routes: seq<Route>) {
    && UniqueHops(routes)
    && TotalWeight(power, canSend, routes) == total == Scaled(Count(routes, canSend), average)
    && Sum(routes, canSend, CurrentWeight) == 0.0
    && forall r :: r in routes ==> BalancedRoute(power, canSend, total, average, hops, r)
  }

  ghost predicate BalancedRoute(power: real -> real, canSend: NodeKey -> bool, total: real, average: real, hops: seq<NodeKey>, r: Route) {
    if canSend(r.nextHop) then
      r.currentWeight == Credit(RouteWeight(power, r), total, hops, r.nextHop) && r.currentWeight >= average - total
    else r.currentWeight == 0.0
  }

  lemma {:induction false} SumAtMost(routes: seq<Route>, canSend: NodeKey -> bool, bound: real)
    requires forall r :: r in routes && canSend(r.nextHop) ==> r.currentWeight <= bound
    ensures Sum(routes, canSend, CurrentWeight) <= Scaled(Count(routes, canSend), bound)
  {
    if routes != [] {
      SumAtMost(routes[1..], canSend, bound);
    }
  }

  lemma {:induction false} SumAtLeast(routes: seq<Route>, canSend: NodeKey -> bool, bound: real)
    requires forall r :: r in routes && canSend(r.nextHop) ==> r.currentWeight >= bound
    ensures Sum(routes, canSend, CurrentWeight) >= Scaled(Count(routes, canSend), bound)
  {
    if routes != [] {
      SumAtLeast(routes[1..], canSend, bound);
    }
  }

  lemma {:induction false} CountIsPositive(routes: seq<Route>, canSend: NodeKey -> bool, i: nat)
    requires i < |routes| && canSend(routes[i].nextHop)
    ensures Count(routes, canSend) > 0
  {
    if i > 0 {
      CountIsPositive(routes[1..], canSend, i - 1);
    }
  }

  lemma ChosenIsAboveAverage(power: real -> real, canSend: NodeKey -> bool, total: real, average: real,
                             hops: seq<NodeKey>, routes: seq<Route>, i: nat)
    requires Balanced(power, canSend, total, average, hops, routes) && Chosen(Boosted(power, canSend, routes), canSend, i)
    ensures Boosted(power, canSend, routes)[i].currentWeight >= average
  {
    var boosted := Boosted(power, canSend, routes);
    BoostedSums(power, canSend, routes);
    SumAtMost(boosted, canSend, boosted[i].currentWeight);
    CountIsPositive(boosted, canSend, i);
    if boosted[i].currentWeight < average {
      ScaledIsMonotonic(Count(routes, canSend), boosted[i].currentWeight, average);
    }
  }

  lemma ChargedIsBalanced(power: real -> real, canSend: NodeKey -> bool, total: real, average: real,
                          hops: seq<NodeKey>, routes: seq<Route>, i: nat, j: nat)
    requires Balanced(power, canSend, total, average, hops, routes) && Chosen(Boosted(power, canSend, routes), canSend, i) && j < |routes|
    ensures BalancedRoute(power, canSend, total, average, hops + [routes[i].nextHop], Charged(power, canSend, routes, i)[j])
  {
    var boosted := Boosted(power, canSend, routes);
    assert (hops + [routes[i].nextHop])[..|hops|] == hops;
    assert BalancedRoute(power, canSend, total, average, hops, routes[j]);
    assert boosted[j] == Boost(power, canSend, routes[j]) && boosted[i] == Boost(power, canSend, routes[i]);
    if i != j {
      UniqueHopsAt(routes, if i < j then i else j, if i < j then j else i);
    }
    ChosenIsAboveAverage(power, canSend, total, average, hops, routes, i);
  }

  lemma SelectionKeepsUnique(power: real -> real, canSend: NodeKey -> bool, routes: seq<Route>, hop: NodeKey, after: seq<Route>)
    requires UniqueHops(routes) && Selection(power, canSend, routes, hop, after)
    ensures UniqueHops(after)
  {
    var i: nat :| Picks(power, canSend, routes, i, after);
    var charged := Charged(power, canSend, routes, i);
    SameHopsStayUnique(routes, charged);
    SortKeepsUnique(charged);
  }

  lemma SelectionKeepsCredits(power: real -> real, canSend: NodeKey -> bool, total: real, average: real,
                              hops: seq<NodeKey>, routes: seq<Route>, hop: NodeKey, after: seq<Route>)
    requires Balanced(power, canSend, total, average, hops, routes) && Selection(power, canSend, routes, hop, after)
    ensures forall r :: r in after ==> BalancedRoute(power, canSend, total, average, hops + [hop], r)
  {
    var i: nat :| Picks(power, canSend, routes, i, after) && routes[i].nextHop == hop;
    var charged := Charged(power, canSend, routes, i);
    SortIsPermutation(charged);
    forall r | r in after ensures BalancedRoute(power, canSend, total, average, hops + [hop], r) {
      var j :| 0 <= j < |charged| && charged[j] == r;
      ChargedIsBalanced(power, canSend, total, average, hops, routes, i, j);
    }
  }

  lemma SelectionKeepsBalance(power: real -> real, canSend: NodeKey -> bool, total: real, average: real,
                              hops: seq<NodeKey>, routes: seq<Route>, hop: NodeKey, after: seq<Route>)
    requires Balanced(power, canSend, total, average, hops, routes) && Selection(power, canSend, routes, hop, after)
    ensures Balanced(power, canSend, total, average, hops + [hop], after)
  {
    SelectionConservesWeight(power, canSend, routes, hop, after);
    SelectionKeepsUnique(power, canSend, routes, hop, after);
    SelectionKeepsCredits(power, canSend, total, average, hops, routes, hop, after);
  }

  lemma {:induction false} AllLive(routes: seq<Route>, nowMs: int)
    requires forall r :: r in routes ==> Alive(nowMs, r)
    ensures Live(routes, nowMs) == routes
  {
    if routes != [] {
      AllLive(routes[1..], nowMs);
    }
  }

  lemma SelectionKeepsExpiry(power: real -> real, canSend: NodeKey -> bool, routes: seq<Route>, hop: NodeKey, after: seq<Route>, nowMs: int)
    requires Selection(power, canSend, routes, hop, after) && AliveUntil(routes, nowMs)
    ensures AliveUntil(after, nowMs)
  {
    var i: nat :| Picks(power, canSend, routes, i, after);
    var charged := Charged(power, canSend, routes, i);
    SortIsPermutation(charged);
    forall j | 0 <= j < |charged| ensures Alive(nowMs, charged[j]) {
      assert routes[j] in routes;
    }
  }

  ghost predicate AliveUntil(routes: seq<Route>, nowMs: int) {
    forall r :: r in routes ==> Alive(nowMs, r)
  }

  lemma AliveEarlier(routes: seq<Route>, nowMs: int, deadline: int)
    requires AliveUntil(routes, deadline) && nowMs <= deadline
    ensures AliveUntil(routes, nowMs)
  {
  }

  // What a run of selections preserves: the routes on offer, and the balance if it held at the start.
  lemma {:induction false} RunKeepsBalance(power: real -> real, canSend: NodeKey -> bool, total: real, average: real,
                                           states: seq<seq<Route>>, hops: seq<NodeKey>, nows: seq<int>, deadline: int, m: nat)
    requires Selections(power, canSend, states, hops, nows) && m <= |hops| && RunsBefore(states, nows, deadline)
    requires Balanced(power, canSend, total, average, [], states[0])
    ensures Balanced(power, canSend, total, average, hops[..m], states[m]) && AliveUntil(states[m], deadline)
    ensures Count(states[m], canSend) == Count(states[0], canSend)
  {
    if m == 0 {
      assert hops[..0] == [];
    } else {
      RunKeepsBalance(power, canSend, total, average, states, hops, nows, deadline, m - 1);
      SelectionAtKeepsAll(power, canSend, total, average, states, hops, nows, deadline, m - 1);
    }
  }

  lemma SelectionAtKeepsAll(power: real -> real, canSend: NodeKey -> bool, total: real, average: real,
                            states: seq<seq<Route>>, hops: seq<NodeKey>, nows: seq<int>, deadline: int, m: nat)
    requires Selections(power, canSend, states, hops, nows) && m < |hops| && RunsBefore(states, nows, deadline)
    requires Balanced(power, canSend, total, average, hops[..m], states[m]) && AliveUntil(states[m], deadline)
    ensures Balanced(power, canSend, total, average, hops[..m + 1], states[m + 1]) && AliveUntil(states[m + 1], deadline)
    ensures Count(states[m + 1], canSend) == Count(states[m], canSend)
  {
    assert SelectionAt(power, canSend, states, hops, nows, m);
    assert hops[..m + 1] == hops[..m] + [hops[m]];
    SelectionKeepsAll(power, canSend, total, average, hops[..m], states[m], hops[m], states[m + 1], nows[m], deadline);
  }

  // No route expires during the run.
  ghost predicate RunsBefore(states: seq<seq<Route>>, nows: seq<int>, deadline: int) {
    states != [] && AliveUntil(states[0], deadline) && forall i :: 0 <= i < |nows| ==> nows[i] <= deadline
  }

  lemma SelectionKeepsAll(power: real -> real, canSend: NodeKey -> bool, total: real, average: real, hops: seq<NodeKey>,
                          routes: seq<Route>, hop: NodeKey, after: seq<Route>, nowMs: int, deadline: int)
    requires AliveUntil(routes, deadline) && nowMs <= deadline && Selection(power, canSend, Live(routes, nowMs), hop, after)
    requires Balanced(power, canSend, total, average, hops, routes)
    ensures Balanced(power, canSend, total, average, hops + [hop], after) && AliveUntil(after, deadline)
    ensures Count(after, canSend) == Count(routes, canSend)
  {
    AliveEarlier(routes, nowMs, deadline);
    AllLive(routes, nowMs);
    SelectionKeepsBalance(power, canSend, total, average, hops, routes, hop, after);
    SelectionKeepsExpiry(power, canSend, routes, hop, after, deadline);
    SelectionConservesWeight(power, canSend, routes, hop, after);
  }

  lemma {:induction false} ZeroSum(routes: seq<Route>, canSend: NodeKey -> bool)
    requires forall r :: r in routes ==> r.currentWeight == 0.0
    ensures Sum(routes, canSend, CurrentWeight) == 0.0
  {
    if routes != [] {
      ZeroSum(routes[1..], canSend);
    }
  }

  // The sum is zero and nobody is far in debt, so nobody is far in credit either.
  lemma CreditIsBounded(power: real -> real, canSend: NodeKey -> bool, total: real, average: real,
                        hops: seq<NodeKey>, routes: seq<Route>, i: nat)
    requires Balanced(power, canSend, total, average, hops, routes) && i < |routes| && canSend(routes[i].nextHop)
    ensures Count(routes, canSend) > 0
    ensures average - total <= routes[i].currentWeight <= Scaled(Count(routes, canSend) - 1, total - average)
  {
    CountIsPositive(routes, canSend, i);
    var k, capped := Count(routes, canSend), routes[i].(currentWeight := average - total);
    var others := routes[i := capped];
    assert BalancedRoute(power, canSend, total, average, hops, routes[i]);
    SumUpdate(routes, i, capped, canSend, CurrentWeight);
    forall r | r in others && canSend(r.nextHop) ensures r.currentWeight >= average - total {
      assert r == capped || r in routes;
      assert r in routes ==> BalancedRoute(power, canSend, total, average, hops, r);
    }
    SumAtLeast(others, canSend, average - total);
    ScaledNegates(k - 1, total - average);
  }

  lemma {:induction false} ScaledNegates(k: nat, x: real)
    ensures Scaled(k, -x) == -Scaled(k, x)
  {
    if k > 0 {
      ScaledNegates(k - 1, x);
    }
  }

  lemma {:induction false} TotalOf(power: real -> real, canSend: NodeKey -> bool, routes: seq<Route>)
    ensures Count(routes, canSend) == 0 ==> TotalWeight(power, canSend, routes) == 0.0
    ensures Count(routes, canSend) > 0 ==> TotalWeight(power, canSend, routes) > 0.0
  {
    if routes != [] {
      TotalOf(power, canSend, routes[1..]);
    }
  }

  lemma {:induction false} TotalOfOne(power: real -> real, canSend: NodeKey -> bool, routes: seq<Route>, i: nat)
    requires i < |routes| && canSend(routes[i].nextHop) && Count(routes, canSend) == 1
    ensures TotalWeight(power, canSend, routes) == RouteWeight(power, routes[i])
  {
    TotalOf(power, canSend, routes[1..]);
    if i > 0 {
      CountIsPositive(routes[1..], canSend, i - 1);
      TotalOfOne(power, canSend, routes[1..], i - 1);
    }
  }

  lemma Average(k: nat, total: real) returns (average: real)
    requires k > 0 && total > 0.0
    ensures 0.0 < average <= total && Scaled(k, average) == total && (k == 1 ==> average == total)
  {
    average := total / k as real;
    ScaledIsProduct(k, average);
    if k > 1 {
      ScaledIsMonotonic(k - 1, 0.0, average);
      ScaledIsProduct(k - 1, 0.0);
    }
  }

  lemma StrictBounds(k: nat, total: real, average: real, credit: real)
    requires k > 0 && 0.0 < average <= total && (k == 1 ==> average == total)
    requires average - total <= credit <= Scaled(k - 1, total - average)
    ensures -total < credit
    ensures k > 1 ==> credit < Scaled(k - 1, total)
    ensures k == 1 ==> credit == 0.0
  {
    if k > 1 {
      ScaledIsMonotonic(k - 1, total - average, total);
    }
  }

  // Chosen `times` times out of n, with weight out of total, among k.
  ghost predicate FairShare(n: real, times: real, weight: real, total: real, k: nat, credit: real) {
    && credit == n * weight - total * times
    && (k > 1 ==> n * weight - (k as real - 1.0) * total < total * times < n * weight + total)
    && (k == 1 ==> times == n)
  }

  lemma FromCredit(hops: seq<NodeKey>, hop: NodeKey, weight: real, total: real, k: nat, credit: real)
    requires weight > 0.0 && credit == Credit(weight, total, hops, hop) && -total < credit
    requires k > 1 ==> credit < Scaled(k - 1, total)
    requires k == 1 ==> credit == 0.0 && total == weight
    ensures FairShare(|hops| as real, Times(hops, hop) as real, weight, total, k, credit)
  {
    hide Credit, Times, Scaled;
    CreditInClosedForm(weight, total, hops, hop);
    if k > 1 {
      ScaledIsProduct(k - 1, total);
    } else if k == 1 {
      EqualProducts(|hops| as real, Times(hops, hop) as real, weight);
    }
  }

  lemma EqualProducts(n: real, times: real, weight: real)
    requires weight > 0.0 && n * weight - weight * times == 0.0
    ensures times == n
  {
    assert (n - times) * weight == 0.0;
  }

  // The credits after any number of selections from zero weights, in terms of additions only.
  lemma RunCredits(power: real -> real, canSend: NodeKey -> bool, states: seq<seq<Route>>, hops: seq<NodeKey>, nows: seq<int>,
                   deadline: int, k: nat, total: real, i: nat)
    requires Selections(power, canSend, states, hops, nows) && RunsBefore(states, nows, deadline)
    requires UniqueHops(states[0]) && forall r :: r in states[0] ==> r.currentWeight == 0.0
    requires k == Count(states[0], canSend) > 0 && total == TotalWeight(power, canSend, states[0])
    requires i < |states[|hops|]| && canSend(states[|hops|][i].nextHop)
    ensures var end := states[|hops|];
      && k == Count(end, canSend) && total == TotalWeight(power, canSend, end) && Sum(end, canSend, CurrentWeight) == 0.0
      && end[i].currentWeight == Credit(RouteWeight(power, end[i]), total, hops, end[i].nextHop)
      && -total < end[i].currentWeight
      && (k > 1 ==> end[i].currentWeight < Scaled(k - 1, total))
      && (k == 1 ==> end[i].currentWeight == 0.0 && total == RouteWeight(power, end[i]))
  {
    TotalOf(power, canSend, states[0]);
    var average := Average(k, total);
    ZeroSum(states[0], canSend);
    RunKeepsBalance(power, canSend, total, average, states, hops, nows, deadline, |hops|);
    assert hops[..|hops|] == hops;
    var end := states[|hops|];
    CreditIsBounded(power, canSend, total, average, hops, end, i);
    assert BalancedRoute(power, canSend, total, average, hops, end[i]);
    StrictBounds(k, total, average, end[i].currentWeight);
    if k == 1 {
      TotalOfOne(power, canSend, end, i);
    }
  }

  // Fairness. Over n selections among k sendable routes with fixed weights, starting from zero,
  // each sendable route holds n times its weight less the total for each time it was chosen, and so
  // it was chosen within one too many and k - 1 too few times of its share n * weight / total.
  lemma Fairness(power: real -> real, canSend: NodeKey -> bool, states: seq<seq<Route>>, hops: seq<NodeKey>, nows: seq<int>,
                 deadline: int, i: nat)
    requires Selections(power, canSend, states, hops, nows) && RunsBefore(states, nows, deadline)
    requires UniqueHops(states[0]) && forall r :: r in states[0] ==> r.currentWeight == 0.0
    requires Count(states[0], canSend) > 0
    requires i < |states[|hops|]| && canSend(states[|hops|][i].nextHop)
    ensures
      var end, total := states[|hops|], TotalWeight(power, canSend, states[0]);
      && Sum(end, canSend, CurrentWeight) == 0.0
      && FairShare(|hops| as real, Times(hops, end[i].nextHop) as real, RouteWeight(power, end[i]), total,
                   Count(states[0], canSend), end[i].currentWeight)
  {
    var end, k, total := states[|hops|], Count(states[0], canSend), TotalWeight(power, canSend, states[0]);
    RunCredits(power, canSend, states, hops, nows, deadline, k, total, i);
    FromCredit(hops, end[i].nextHop, RouteWeight(power, end[i]), total, k, end[i].currentWeight);
  }

  // ---- The table ----

  predicate InRange(routes: seq<Route>) {
    forall r :: r in routes ==> MIN_ROUTE_SCORE <= r.score <= MAX_ROUTE_SCORE
  }

  // A destination's routes: one per next hop, with scores in range.
  ghost predicate WellFormed(routes: seq<Route>) {
    UniqueHops(routes) && InRange(routes)
  }

  function Reinforced(route: Route, nowMs: int, expiresAtMs: int, pathMtu: Option<nat>): Route {
    var stronger := route.(successes := route.successes + 1, lastSeenMs := nowMs, expiresAtMs := expiresAtMs,
                           score := Clamp(route.score + 1.0, MIN_ROUTE_SCORE, MAX_ROUTE_SCORE));
    if pathMtu.Some? then stronger.(pathMtu := pathMtu, pathMtuExpiresAtMs := Some(expiresAtMs)) else stronger
  }

  function Penalised(route: Route): Route {
    var halved := route.score * 0.5;
    route.(failures := route.failures + 1, score := if halved < MIN_ROUTE_SCORE then MIN_ROUTE_SCORE else halved,
           currentWeight := if route.currentWeight > 0.0 then 0.0 else route.currentWeight)
  }

  function IndexOf(routes: seq<Route>, hop: NodeKey): (r: Option<nat>)
    ensures r.None? <==> Absent(hop, routes)
    ensures r.Some? ==> r.value < |routes| && routes[r.value].nextHop == hop
  {
    if routes == [] then None
    else if routes[0].nextHop == hop then Some(0)
    else match IndexOf(routes[1..], hop)
      case None => None
      case Some(i) => Some(i + 1)
  }

  function Learned(routes: seq<Route>, hop: NodeKey, nowMs: int, expiresAtMs: int, pathMtu: Option<nat>): seq<Route> {
    match IndexOf(routes, hop)
    case Some(i) => routes[i := Reinforced(routes[i], nowMs, expiresAtMs, pathMtu)]
    case None =>
      routes + [Route(hop, nowMs, expiresAtMs, 1, 0, 1.0, 0.0, 0, pathMtu, if pathMtu.None? then None else Some(expiresAtMs))]
  }

  function SortedAndTruncated(routes: seq<Route>, maximum: nat): seq<Route> {
    var sorted := Sort(routes);
    if |sorted| <= maximum then sorted else sorted[..maximum]
  }

  lemma {:induction false} AppendKeepsUnique(routes: seq<Route>, route: Route)
    requires UniqueHops(routes) && Absent(route.nextHop, routes)
    ensures UniqueHops(routes + [route])
  {
    if routes == [] {
      assert ([] + [route])[1..] == [];
    } else {
      AppendKeepsUnique(routes[1..], route);
      assert (routes + [route])[1..] == routes[1..] + [route];
    }
  }

  lemma {:induction false} PrefixKeepsUnique(routes: seq<Route>, n: nat)
    requires UniqueHops(routes) && n <= |routes|
    ensures UniqueHops(routes[..n])
  {
    if n > 0 {
      PrefixKeepsUnique(routes[1..], n - 1);
      assert routes[..n][1..] == routes[1..][..n - 1];
    }
  }

  lemma {:induction false} LiveKeepsUnique(routes: seq<Route>, nowMs: int)
    requires UniqueHops(routes)
    ensures UniqueHops(Live(routes, nowMs))
  {
    if routes != [] {
      LiveKeepsUnique(routes[1..], nowMs);
      assert Live(routes, nowMs) == Live(routes[1..], nowMs) || Live(routes, nowMs)[1..] == Live(routes[1..], nowMs);
    }
  }

  lemma LearnedIsWellFormed(routes: seq<Route>, hop: NodeKey, nowMs: int, expiresAtMs: int, pathMtu: Option<nat>)
    requires WellFormed(routes)
    ensures WellFormed(Learned(routes, hop, nowMs, expiresAtMs, pathMtu))
  {
    var learned := Learned(routes, hop, nowMs, expiresAtMs, pathMtu);
    match IndexOf(routes, hop) {
      case Some(i) =>
        SameHopsStayUnique(routes, learned);
      case None =>
        AppendKeepsUnique(routes, learned[|routes|]);
    }
  }

  // Truncation keeps the best routes: sorted, at most `maximum`, and ahead of whatever was dropped.
  lemma TruncationKeepsBest(routes: seq<Route>, maximum: nat)
    requires WellFormed(routes)
    ensures var kept := SortedAndTruncated(routes, maximum);
      && WellFormed(kept) && Sorted(kept) && |kept| == (if |routes| <= maximum then |routes| else maximum)
      && (forall r :: r in kept ==> r in routes)
      && (forall r, q :: r in kept && q in routes && q !in kept ==> !Precedes(q, r))
  {
    hide Sort, Precedes;
    var sorted, kept := Sort(routes), SortedAndTruncated(routes, maximum);
    SortSorts(routes);
    SortIsPermutation(routes);
    SortKeepsUnique(routes);
    assert |multiset(sorted)| == |sorted| && |multiset(routes)| == |routes|;
    PrefixKeepsUnique(sorted, |kept|);
    assert sorted[..|sorted|] == sorted;
    forall r, q | r in kept && q in routes && q !in kept ensures !Precedes(q, r) {
      var i :| 0 <= i < |kept| && kept[i] == r;
      var j :| 0 <= j < |sorted| && sorted[j] == q;
    }
  }

  lemma {:induction false} SumSnoc(routes: seq<Route>, route: Route, qualifies: NodeKey -> bool, quantity: Route -> real)
    ensures Sum(routes + [route], qualifies, quantity)
      == Sum(routes, qualifies, quantity) + if qualifies(route.nextHop) then quantity(route) else 0.0
  {
    var longer := routes + [route];
    if routes == [] {
      assert longer[1..] == [];
    } else {
      SumSnoc(routes[1..], route, qualifies, quantity);
      assert longer[1..] == routes[1..] + [route] && longer[0] == routes[0];
    }
  }

  lemma {:induction false} LiveSnoc(routes: seq<Route>, route: Route, nowMs: int)
    ensures Live(routes + [route], nowMs) == Live(routes, nowMs) + IfAlive(route, nowMs)
  {
    hide Alive, IfAlive;
    var longer := routes + [route];
    if routes == [] {
      assert longer[1..] == [];
    } else {
      LiveSnoc(routes[1..], route, nowMs);
      assert longer[1..] == routes[1..] + [route] && longer[0] == routes[0];
    }
  }

  predicate NoneSendable(canSend: NodeKey -> bool, routes: seq<Route>) {
    forall r :: r in routes ==> !canSend(r.nextHop)
  }

  // What selectNextHop answers among live routes, and how it leaves them.
  ghost predicate Answer(power: real -> real, canSend: NodeKey -> bool, live: seq<Route>, hop: Option<NodeKey>, after: seq<Route>) {
    match hop
    case None => NoneSendable(canSend, live) && after == live
    case Some(h) => Selection(power, canSend, live, h, after)
  }

  class LearnedRouteTable {
    const power: real -> real  // x^1.5
    var routes: map<NodeKey, seq<Route>>

    ghost predicate Valid()
      reads this
    {
      forall d :: d in routes ==> WellFormed(routes[d])
    }

    constructor (power: real -> real)
      ensures Valid() && this.power == power && routes == map[]
    {
      this.power := power;
      routes := map[];
    }

    method Learn(destination: NodeKey, nextHop: NodeKey, nowMs: int, ttlSeconds: nat, maximum: nat, pathMtu: Option<nat>)
      requires Valid()
      modifies this
      ensures Valid()
      ensures destination == nextHop || maximum == 0 ==> routes == old(routes)
      ensures destination != nextHop && maximum != 0 ==>
        var before := if destination in old(routes) then old(routes)[destination] else [];
        routes == old(routes)[destination :=
          SortedAndTruncated(Learned(before, nextHop, nowMs, nowMs + ttlSeconds * 1000, pathMtu), maximum)]
    {
      if destination == nextHop || maximum == 0 {
        return;
      }
      var before := if destination in routes then routes[destination] else [];
      LearnedIsWellFormed(before, nextHop, nowMs, nowMs + ttlSeconds * 1000, pathMtu);
      var learned := Learned(before, nextHop, nowMs, nowMs + ttlSeconds * 1000, pathMtu);
      TruncationKeepsBest(learned, maximum);
      routes := routes[destination := SortedAndTruncated(learned, maximum)];
    }

    method RecordFailure(destination: NodeKey, nextHop: NodeKey)
      requires Valid()
      modifies this
      ensures Valid()
      ensures destination !in old(routes) || Absent(nextHop, old(routes)[destination]) ==> routes == old(routes)
      ensures destination in old(routes) && !Absent(nextHop, old(routes)[destination]) ==>
        var before, i := old(routes)[destination], IndexOf(old(routes)[destination], nextHop).value;
        routes == old(routes)[destination := before[i := Penalised(before[i])]]
    {
      if destination in routes {
        var before := routes[destination];
        var found := IndexOf(before, nextHop);
        if found.Some? {
          var after := before[found.value := Penalised(before[found.value])];
          SameHopsStayUnique(before, after);
          routes := routes[destination := after];
        }
      }
    }

    method RetainLive(all: seq<Route>, nowMs: int) returns (live: seq<Route>)
      ensures live == Live(all, nowMs)
    {
      live := [];
      for i := 0 to |all|
        invariant live == Live(all[..i], nowMs)
      {
        LiveSnoc(all[..i], all[i], nowMs);
        assert all[..i + 1] == all[..i] + [all[i]];
        if all[i].expiresAtMs > nowMs {
          live := live + [all[i]];
        }
      }
      assert all[..|all|] == all;
    }

    method SelectNextHop(destination: NodeKey, nowMs: int, canSend: NodeKey -> bool) returns (hop: Option<NodeKey>)
      requires Valid()
      modifies this
      ensures Valid()
      ensures destination !in old(routes) ==> hop == None && routes == old(routes)
      ensures destination in old(routes) ==>
        var live := Live(old(routes)[destination], nowMs);
        && (live == [] ==> hop == None && routes == old(routes) - {destination})
        && (live != [] ==>
              && destination in routes && routes == old(routes)[destination := routes[destination]]
              && Answer(power, canSend, live, hop, routes[destination]))
    {
      if destination !in routes {
        return None;
      }
      var live := RetainLive(routes[destination], nowMs);
      LiveKeepsUnique(routes[destination], nowMs);
      if |live| == 0 {
        routes := routes - {destination};
        return None;
      }
      var after;
      hop, after := SelectFrom(live, canSend);
      routes := routes[destination := after];
    }

    // selectNextHop once the expired routes are gone.
    method SelectFrom(live: seq<Route>, canSend: NodeKey -> bool) returns (hop: Option<NodeKey>, after: seq<Route>)
      requires WellFormed(live)
      ensures Answer(power, canSend, live, hop, after) && WellFormed(after)
    {
      hide Sort, Chosen;
      var chosen, charged := PickRoute(live, canSend);
      if chosen.None? {
        return None, live;
      }
      hop, after := Some(charged[chosen.value].nextHop), Sort(charged);
      SameHopsStayUnique(live, charged);
      SortKeepsUnique(charged);
      SortIsPermutation(charged);
      assert Picks(power, canSend, live, chosen.value, after);
    }

    // The loop of selectNextHop: add every weight, remember the heaviest, charge it the total.
    method PickRoute(live: seq<Route>, canSend: NodeKey -> bool) returns (chosen: Option<nat>, charged: seq<Route>)
      ensures chosen.None? <==> NoneSendable(canSend, live)
      ensures chosen.Some? ==>
        && chosen.value < |live| && Chosen(Boosted(power, canSend, live), canSend, chosen.value)
        && charged == Charged(power, canSend, live, chosen.value)
    {
      hide RouteWeight, Outweighs, ChosenAmong, Boosted, Charge;
      chosen, charged := None, live;
      var total := 0.0;
      ghost var boosted := Boosted(power, canSend, live);
      for i := 0 to |live|
        invariant |charged| == |live|
        invariant forall j :: 0 <= j < |live| ==> charged[j] == if j < i then boosted[j] else live[j]
        invariant total == TotalWeight(power, canSend, live[..i])
        invariant chosen.None? ==> forall j :: 0 <= j < i ==> !canSend(live[j].nextHop)
        invariant chosen.Some? ==> chosen.value < i && canSend(live[chosen.value].nextHop) && ChosenAmong(boosted, canSend, i, chosen.value)
      {
        SumSnoc(live[..i], live[i], canSend, WeightOf(power));
        assert live[..i + 1] == live[..i] + [live[i]];
        if canSend(live[i].nextHop) {
          var weight := RouteWeight(power, live[i]);
          charged := charged[i := charged[i].(currentWeight := charged[i].currentWeight + weight)];
          total := total + weight;
          ChosenAmongMore(boosted, canSend, i, chosen);
          if chosen.None? || Outweighs(charged[i], charged[chosen.value]) {
            chosen := Some(i);
          }
        } else if chosen.Some? {
          ChosenAmongRest(boosted, canSend, i, chosen.value);
        }
      }
      assert live[..|live|] == live && charged == boosted;
      if chosen.Some? {
        charged := Charge(charged, chosen.value, total);
      }
    }
  }
}
