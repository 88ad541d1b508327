/**
 * Greedy forwarding over a settled tree (packages/core/src/node/TreeState.ts, nextHop).
 */
module TreeForwarding {
  import opened Wrappers
  import opened Collections
  import opened TreeCoordinates
  import opened TreeElection
  import opened TreeNetwork

  // The network no round changes any more, with one root everywhere.
  ghost predicate Settled(g: Graph, r: NodeAddr, net: Network) {
    && g.WellFormed() && IsRound(g, net, net)
    && forall v :: v in g.nodes ==> Root(net[v]) == r
  }

  // The network reached by convergence is settled.
  lemma ConvergedIsSettled(g: Graph, nets: seq<Network>, r: NodeAddr, round: nat)
    requires g.ConnectedGraph() && Execution(g, nets) && Least(g, r) && |g.nodes| - 1 <= round < |nets| - 1
    ensures Settled(g, r, nets[round])
  {
    Convergence(g, nets, r, round);
    Convergence(g, nets, r, round + 1);
    assert RoundAt(g, nets, round + 1);
  }

  // In a settled network a node's coordinates are itself and then its parent's coordinates.
  lemma ParentStep(g: Graph, r: NodeAddr, net: Network, v: NodeAddr)
    requires Settled(g, r, net) && v in g.nodes
    ensures net[v][0] == v
    ensures |net[v]| > 1 ==> net[v][1] in g.Neighbours(v) && net[net[v][1]] == net[v][1..]
  {
    assert HoldsElection(g, net, net, v);
    ElectionOutcome(v, Heard(g, net, v));
    if |net[v]| > 1 {
      var u :| Best(v, Heard(g, net, v), u) && net[v] == [v] + net[u];
      assert HoldsElection(g, net, net, u);
      ElectionOutcome(u, Heard(g, net, u));
      assert net[v][1..] == net[u];
    }
  }

  // Each suffix of a node's coordinates is the coordinates of the ancestor it starts at.
  lemma {:induction false} AncestorCoords(g: Graph, r: NodeAddr, net: Network, v: NodeAddr, i: nat)
    requires Settled(g, r, net) && v in g.nodes && i < |net[v]|
    ensures net[v][i] in g.nodes && net[net[v][i]] == net[v][i..]
    ensures i + 1 < |net[v]| ==> g.Linked(net[v][i], net[v][i + 1])
    decreases i
  {
    ParentStep(g, r, net, v);
    if i == 0 {
      assert net[v][0..] == net[v];
    } else {
      var u := net[v][1];
      AncestorCoords(g, r, net, u, i - 1);
      assert net[u][i - 1..] == net[v][i..];
    }
  }

  // Away from the destination, some neighbour is strictly nearer: the parent, or the child on the way down.
  lemma SomeNeighbourIsNearer(g: Graph, r: NodeAddr, net: Network, v: NodeAddr, d: NodeAddr) returns (k: NodeAddr)
    requires Settled(g, r, net) && v in g.nodes && d in g.nodes && v != d
    ensures k in g.Neighbours(v) && Nearer(net[v], Heard(g, net, v), net[d], k)
  {
    var a, b := net[v], net[d];
    ParentStep(g, r, net, v);
    ParentStep(g, r, net, d);
    NextOnWalkIsNearer(a, b);
    var n := CommonSuffix(a, b);
    CommonSuffixIsLongest(a, b, 1);
    if n < |a| {
      k := a[1];
    } else {
      var i := |b| - n - 1;
      AncestorCoords(g, r, net, d, i);
      AncestorCoords(g, r, net, d, i + 1);
      assert FromRoot(a, n - 1) == FromRoot(b, n - 1);
      k := b[i];
    }
    assert net[k] == NextOnWalk(a, b);
  }

  predicate Everyone(k: NodeAddr) {
    true
  }

  // What node v forwards a packet for d to, every peer being eligible.
  ghost predicate ForwardsTo(g: Graph, net: Network, v: NodeAddr, d: NodeAddr, hop: Option<NodeAddr>)
    requires g.nodes == net.Keys && v in g.nodes && d in g.nodes
  {
    IsNextHop(net[v], Heard(g, net, v), net[d], Everyone, hop)
  }

  lemma NextHopIsUnique(coords: Coords, table: Table, dest: Coords, eligible: NodeAddr -> bool,
                        hop: Option<NodeAddr>, other: Option<NodeAddr>)
    requires IsNextHop(coords, table, dest, eligible, hop) && IsNextHop(coords, table, dest, eligible, other)
    ensures hop == other
  {
  }

  // Away from the destination the next hop is a strictly nearer neighbour; at the destination there is none.
  lemma GreedyProgress(g: Graph, r: NodeAddr, net: Network, v: NodeAddr, d: NodeAddr, hop: Option<NodeAddr>)
    requires Settled(g, r, net) && v in g.nodes && d in g.nodes
    requires ForwardsTo(g, net, v, d, hop)
    ensures hop.None? <==> v == d
    ensures hop.Some? ==>
      && hop.value in g.Neighbours(v)
      && Distance(net[hop.value], net[d]).Some?
      && Distance(net[hop.value], net[d]).value < Distance(net[v], net[d]).value
  {
    if v == d {
      DistanceIsZeroOnlyOnEquals(net[v], net[d]);
    } else {
      var k := SomeNeighbourIsNearer(g, r, net, v, d);
      assert Reaches(net[v], Heard(g, net, v), net[d], Everyone, k);
    }
  }

  // A packet's route: each node but the last forwards to the following one.
  ghost predicate ForwardingRoute(g: Graph, net: Network, d: NodeAddr, route: seq<NodeAddr>) {
    && g.nodes == net.Keys && d in g.nodes && route != []
    && (forall i :: 0 <= i < |route| ==> route[i] in g.nodes)
    && (forall i {:trigger route[i]} :: 0 < i < |route| ==> ForwardsTo(g, net, route[i - 1], d, Some(route[i])))
  }

  // However far a packet has travelled, it has used up that much of the initial distance.
  lemma {:induction false} RouteConsumesDistance(g: Graph, r: NodeAddr, net: Network, d: NodeAddr, route: seq<NodeAddr>, i: nat, j: nat)
    requires Settled(g, r, net) && ForwardingRoute(g, net, d, route) && i <= j < |route|
    ensures Distance(net[route[i]], net[d]).Some? && Distance(net[route[j]], net[d]).Some?
    ensures Distance(net[route[j]], net[d]).value + (j - i) <= Distance(net[route[i]], net[d]).value
    decreases j - i
  {
    if i < j {
      RouteConsumesDistance(g, r, net, d, route, i, j - 1);
      GreedyProgress(g, r, net, route[j - 1], d, Some(route[j]));
    }
  }

  // No route visits a node twice or is longer than the initial distance.
  lemma RoutesDoNotLoop(g: Graph, r: NodeAddr, net: Network, d: NodeAddr, route: seq<NodeAddr>)
    requires Settled(g, r, net) && ForwardingRoute(g, net, d, route)
    ensures NoRepeats(route)
    ensures Distance(net[route[0]], net[d]).Some? && |route| - 1 <= Distance(net[route[0]], net[d]).value
  {
    RouteConsumesDistance(g, r, net, d, route, 0, |route| - 1);
    forall i, j | 0 <= i < j < |route| ensures route[i] != route[j] {
      RouteConsumesDistance(g, r, net, d, route, i, j);
    }
  }

  // A route that cannot be prolonged has arrived; by the bound above every packet gets that far.
  lemma Delivery(g: Graph, r: NodeAddr, net: Network, d: NodeAddr, route: seq<NodeAddr>)
    requires Settled(g, r, net) && ForwardingRoute(g, net, d, route)
    ensures route[|route| - 1] == d <==> forall next :: !ForwardingRoute(g, net, d, route + [next])
    ensures route[|route| - 1] != d ==> exists next :: next in g.nodes && ForwardingRoute(g, net, d, route + [next])
  {
    hide Settled, ForwardsTo, IsNextHop;
    var v := route[|route| - 1];
    if v == d {
      forall next ensures !ForwardingRoute(g, net, d, route + [next]) {
        if ForwardingRoute(g, net, d, route + [next]) {
          assert (route + [next])[|route|] == next && (route + [next])[|route| - 1] == v;
          GreedyProgress(g, r, net, v, d, Some(next));
        }
      }
    } else {
      var next := TheNextHop(g, r, net, v, d);
      var longer := route + [next];
      assert forall i {:trigger longer[i]} :: 0 < i < |route| ==> longer[i] == route[i] && longer[i - 1] == route[i - 1];
      assert ForwardingRoute(g, net, d, longer);
    }
  }

  lemma TheNextHop(g: Graph, r: NodeAddr, net: Network, v: NodeAddr, d: NodeAddr) returns (next: NodeAddr)
    requires Settled(g, r, net) && v in g.nodes && d in g.nodes && v != d
    ensures next in g.nodes && ForwardsTo(g, net, v, d, Some(next))
  {
    var table := Heard(g, net, v);
    var k := SomeNeighbourIsNearer(g, r, net, v, d);
    assert Reaches(net[v], table, net[d], Everyone, k);
    var hop := NearestAmong(table.Keys, net[v], table, net[d], Everyone);
    next := hop.value;
  }

  lemma {:induction false} NearestAmong(keys: set<NodeAddr>, coords: Coords, table: Table, dest: Coords, eligible: NodeAddr -> bool)
    returns (hop: Option<NodeAddr>)
    ensures IsNextHopAmong(keys, coords, table, dest, eligible, hop)
    decreases keys
  {
    hop := None;
    if keys != {} {
      var k :| k in keys;
      hop := NearestAmong(keys - {k}, coords, table, dest, eligible);
      NextHopAmongMore(keys - {k}, coords, table, dest, eligible, hop, k);
      assert keys - {k} + {k} == keys;
      if Reaches(coords, table, dest, eligible, k) && (hop.None? || Ahead(table, dest, k, hop.value)) {
        hop := Some(k);
      }
    }
  }

  // Hop by hop, a packet reaches its destination within the initial distance.
  lemma {:induction false} PacketArrives(g: Graph, r: NodeAddr, net: Network, v: NodeAddr, d: NodeAddr) returns (route: seq<NodeAddr>)
    requires Settled(g, r, net) && v in g.nodes && d in g.nodes
    ensures ForwardingRoute(g, net, d, route) && route[0] == v && route[|route| - 1] == d
    ensures Distance(net[v], net[d]).Some? && |route| - 1 <= Distance(net[v], net[d]).value
    decreases Distance(net[v], net[d])
  {
    route := [v];
    RoutesDoNotLoop(g, r, net, d, route);
    while route[|route| - 1] != d
      invariant ForwardingRoute(g, net, d, route) && route[0] == v
      decreases Distance(net[v], net[d]).value - |route|
    {
      RoutesDoNotLoop(g, r, net, d, route);
      Delivery(g, r, net, d, route);
      var next :| next in g.nodes && ForwardingRoute(g, net, d, route + [next]);
      route := route + [next];
      RoutesDoNotLoop(g, r, net, d, route);
    }
    RoutesDoNotLoop(g, r, net, d, route);
  }
}
