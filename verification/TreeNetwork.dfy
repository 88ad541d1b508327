/**
 * The spanning tree that a whole network elects, and greedy forwarding over it.
 *
 * In one synchronous round every node announces its coordinates to every neighbour and then
 * holds the result of the election over its neighbours' announcements
 * (packages/core/src/node/TreeState.ts, updatePeer and evaluateParent; nextHop).
 */
module TreeNetwork {
  import opened Collections
  import opened TreeCoordinates
  import opened TreeElection

  // A static graph of established links. Node addresses are distinct because they are set elements.
  datatype Graph = Graph(nodes: set<NodeAddr>, links: set<(NodeAddr, NodeAddr)>) {
    predicate Linked(u: NodeAddr, v: NodeAddr) {
      (u, v) in links
    }

    function Neighbours(v: NodeAddr): set<NodeAddr> {
      set u | u in nodes && Linked(v, u)
    }

    ghost predicate WellFormed() {
      forall u, v {:trigger Linked(u, v)} :: Linked(u, v) ==> u in nodes && v in nodes && Linked(v, u)
    }

    // p runs from v to w over links.
    ghost predicate Path(p: Coords, v: NodeAddr, w: NodeAddr) {
      p != [] && p[0] == v && Root(p) == w && Chain(p)
    }

    ghost predicate Chain(p: Coords) {
      p != [] ==> p[0] in nodes && (|p| > 1 ==> Linked(p[0], p[1]) && Chain(p[1..]))
    }

    ghost predicate ShortestPath(p: Coords, v: NodeAddr, w: NodeAddr) {
      Path(p, v, w) && forall q {:trigger NoLonger(p, q)} :: Path(q, v, w) ==> NoLonger(p, q)
    }

    static predicate NoLonger(p: Coords, q: Coords) {
      |p| <= |q|
    }

    ghost predicate Joined(v: NodeAddr, w: NodeAddr) {
      exists p :: Path(p, v, w)
    }

    ghost predicate ConnectedGraph() {
      WellFormed() && forall v, w {:trigger Joined(v, w)} :: v in nodes && w in nodes ==> Joined(v, w)
    }
  }

  // Every node's coordinates.
  type Network = net: map<NodeAddr, Coords> | forall v :: v in net ==> net[v] != []

  // What the neighbours of v announce.
  function Heard(g: Graph, net: Network, v: NodeAddr): (t: Table)
    requires g.nodes == net.Keys
    ensures t.Keys == g.Neighbours(v) && forall u :: u in t ==> t[u] == net[u]
  {
    map u | u in g.Neighbours(v) :: net[u]
  }

  // One synchronous round: everybody's announcement reaches every neighbour.
  ghost predicate IsRound(g: Graph, net: Network, next: Network) {
    g.nodes == net.Keys == next.Keys && forall v {:trigger HoldsElection(g, net, next, v)} :: v in g.nodes ==> HoldsElection(g, net, next, v)
  }

  ghost predicate HoldsElection(g: Graph, net: Network, next: Network, v: NodeAddr)
    requires g.nodes == net.Keys == next.Keys && v in g.nodes
  {
    next[v] == Elect(v, Heard(g, net, v))
  }

  // The networks after 0, 1, 2, ... rounds, from the state in which every node is its own root.
  ghost predicate Execution(g: Graph, nets: seq<Network>) {
    && nets != [] && nets[0] == (map v | v in g.nodes :: [v])
    && forall i :: 0 < i < |nets| ==> RoundAt(g, nets, i)
  }

  ghost predicate RoundAt(g: Graph, nets: seq<Network>, i: nat)
    requires 0 < i < |nets|
  {
    IsRound(g, nets[i - 1], nets[i])
  }

  // ---- What one round achieves ----

  // Coordinates are paths of at most round + 1 nodes, without repeats, and beat every path of that length.
  ghost predicate Shortest(g: Graph, round: nat, v: NodeAddr, c: Coords) {
    && c != [] && g.Path(c, v, Root(c)) && |c| <= round + 1 && NoRepeats(c)
    && forall p, w :: g.Path(p, v, w) && |p| <= round + 1 ==> Root(c) < w || (Root(c) == w && |c| <= |p|)
  }

  lemma {:induction false} PathTail(g: Graph, p: Coords, v: NodeAddr, w: NodeAddr, i: nat)
    requires g.Path(p, v, w) && i < |p|
    ensures g.Path(p[i..], p[i], w)
  {
    if i == 0 {
      assert p[0..] == p;
    } else {
      PathTail(g, p[1..], p[1], w, i - 1);
      assert p[1..][i - 1..] == p[i..];
    }
  }

  lemma PathCons(g: Graph, v: NodeAddr, p: Coords, u: NodeAddr, w: NodeAddr)
    requires v in g.nodes && g.Linked(v, u) && g.Path(p, u, w)
    ensures g.Path([v] + p, v, w)
  {
    assert ([v] + p)[1..] == p;
  }

  ghost predicate AllShortest(g: Graph, round: nat, net: Network) {
    g.nodes == net.Keys && forall v {:trigger Shortest(g, round, v, net[v])} :: v in g.nodes ==> Shortest(g, round, v, net[v])
  }

  lemma {:induction false} ElectedBeatsPath(g: Graph, round: nat, net: Network, c: Coords, p: Coords, v: NodeAddr, w: NodeAddr)
    requires g.WellFormed() && AllShortest(g, round, net)
    requires g.Path(p, v, w) && |p| <= round + 2
    requires c == Elect(v, Heard(g, net, v)) && c != []
    ensures Root(c) < w || (Root(c) == w && |c| <= |p|)
    decreases w, |p|
  {
    var table := Heard(g, net, v);
    ElectionOutcome(v, table);
    if |p| > 1 {
      var u := p[1];
      assert g.Linked(v, u);
      PathTail(g, p, v, w, 1);
      assert Shortest(g, round, u, table[u]);
      if v in table[u] {
        // u's coordinates lead back through v: follow them from there instead.
        var i :| 0 <= i < |table[u]| && table[u][i] == v;
        PathTail(g, table[u], u, Root(table[u]), i);
        ElectedBeatsPath(g, round, net, c, table[u][i..], v, Root(table[u]));
      } else {
        assert Candidate(v, table, u);
      }
    }
  }

  lemma ElectedIsPath(g: Graph, round: nat, net: Network, v: NodeAddr, c: Coords)
    requires g.WellFormed() && AllShortest(g, round, net) && v in g.nodes
    requires c == Elect(v, Heard(g, net, v)) && c != []
    ensures g.Path(c, v, Root(c)) && |c| <= round + 2 && NoRepeats(c)
  {
    var table := Heard(g, net, v);
    ElectionOutcome(v, table);
    if c != [v] {
      var u :| Best(v, table, u) && c == [v] + table[u] && Root(c) == Root(table[u]);
      assert Shortest(g, round, u, table[u]);
      PathCons(g, v, table[u], u, Root(c));
    }
    forall u | u in table ensures NoRepeats(table[u]) {
      assert Shortest(g, round, u, table[u]);
    }
    ElectionHasNoRepeats(v, table);
  }

  lemma RoundKeepsShortest(g: Graph, round: nat, net: Network, next: Network)
    requires g.WellFormed() && AllShortest(g, round, net) && IsRound(g, net, next)
    ensures AllShortest(g, round + 1, next)
  {
    forall v | v in g.nodes ensures Shortest(g, round + 1, v, next[v]) {
      assert HoldsElection(g, net, next, v);
      ElectedIsPath(g, round, net, v, next[v]);
      forall p, w | g.Path(p, v, w) && |p| <= round + 2
        ensures Root(next[v]) < w || (Root(next[v]) == w && |next[v]| <= |p|)
      {
        ElectedBeatsPath(g, round, net, next[v], p, v, w);
      }
    }
  }

  lemma {:induction false} RoundsElectShortestPaths(g: Graph, nets: seq<Network>, round: nat)
    requires g.WellFormed() && Execution(g, nets) && round < |nets|
    ensures AllShortest(g, round, nets[round])
  {
    if round > 0 {
      RoundsElectShortestPaths(g, nets, round - 1);
      assert RoundAt(g, nets, round);
      RoundKeepsShortest(g, round - 1, nets[round - 1], nets[round]);
    }
  }

  // ---- Convergence ----

  ghost predicate Least(g: Graph, r: NodeAddr) {
    r in g.nodes && forall v :: v in g.nodes ==> r <= v
  }

  lemma {:induction false} PathStaysInside(g: Graph, p: Coords)
    requires g.Chain(p)
    ensures forall i :: 0 <= i < |p| ==> p[i] in g.nodes
  {
    if p != [] {
      PathStaysInside(g, p[1..]);
      assert forall i :: 0 < i < |p| ==> p[i] == p[1..][i - 1];
    }
  }

  // Once the least root can have been heard of, it is elected, over a shortest path.
  lemma RootIsHeard(g: Graph, r: NodeAddr, round: nat, net: Network, v: NodeAddr, p: Coords)
    requires AllShortest(g, round, net) && Least(g, r)
    requires g.Path(p, v, r) && |p| <= round + 1
    ensures v in g.nodes && Root(net[v]) == r && |net[v]| <= |p| && g.ShortestPath(net[v], v, r) && NoRepeats(net[v])
  {
    assert Shortest(g, round, v, net[v]);
    PathStaysInside(g, net[v]);
  }

  lemma ShortestTail(g: Graph, v: NodeAddr, u: NodeAddr, p: Coords, r: NodeAddr)
    requires v in g.nodes && g.Linked(v, u) && g.Path(p, u, r) && g.ShortestPath([v] + p, v, r)
    ensures g.ShortestPath(p, u, r)
  {
    forall q | g.Path(q, u, r) ensures |p| <= |q| {
      PathCons(g, v, q, u, r);
      assert Graph.NoLonger([v] + p, [v] + q);
    }
  }

  // The best neighbour's coordinates are themselves a shortest path.
  lemma ParentCoords(g: Graph, r: NodeAddr, round: nat, net: Network, next: Network, v: NodeAddr, p: Coords) returns (u: NodeAddr)
    requires g.WellFormed() && AllShortest(g, round, net) && IsRound(g, net, next) && Least(g, r)
    requires g.ShortestPath(p, v, r) && 1 < |p| <= round + 2
    ensures v in g.nodes && u in g.nodes && next[v] == [v] + net[u]
    ensures Best(v, Heard(g, net, v), u)
    ensures |net[u]| == |p| - 1 && g.ShortestPath(net[u], u, r)
  {
    RoundKeepsShortest(g, round, net, next);
    RootIsHeard(g, r, round + 1, next, v, p);
    assert Graph.NoLonger(p, next[v]) && Shortest(g, round + 1, v, next[v]) && HoldsElection(g, net, next, v);
    var table := Heard(g, net, v);
    ElectionOutcome(v, table);
    u :| Best(v, table, u) && next[v] == [v] + table[u] && Root(next[v]) == Root(table[u]);
    assert Shortest(g, round, u, net[u]);
    ShortestTail(g, v, u, net[u], r);
  }

  // v elects the same coordinates in two rounds that start from the same coordinates of its parents.
  lemma SameElection(g: Graph, nets: seq<Network>, r: NodeAddr, v: NodeAddr, p: Coords, k: nat, round: nat)
    returns (u: NodeAddr, w: NodeAddr)
    requires g.WellFormed() && Execution(g, nets) && Least(g, r) && g.ShortestPath(p, v, r)
    requires |p| == k + 2 && k <= round < |nets| - 1
    ensures v in g.nodes && g.nodes == nets[k].Keys == nets[round].Keys == nets[k + 1].Keys == nets[round + 1].Keys
    ensures u in g.nodes && |nets[round][u]| == k + 1 && g.ShortestPath(nets[round][u], u, r)
    ensures w in g.nodes && |nets[k][w]| == k + 1 && g.ShortestPath(nets[k][w], w, r)
    ensures nets[round][u] == nets[k][u] && nets[round][w] == nets[k][w] ==> nets[round + 1][v] == nets[k + 1][v]
  {
    var early, late := nets[k], nets[round];
    RoundsElectShortestPaths(g, nets, round);
    RoundsElectShortestPaths(g, nets, k);
    assert RoundAt(g, nets, round + 1) && RoundAt(g, nets, k + 1);
    u := ParentCoords(g, r, round, late, nets[round + 1], v, p);
    w := ParentCoords(g, r, k, early, nets[k + 1], v, p);
    if late[u] == early[u] && late[w] == early[w] {
      BestAgrees(v, Heard(g, late, v), Heard(g, early, v), u, w);
    }
  }

  lemma RootStaysRoot(g: Graph, nets: seq<Network>, r: NodeAddr, v: NodeAddr, p: Coords, round: nat)
    requires g.WellFormed() && Execution(g, nets) && Least(g, r)
    requires g.ShortestPath(p, v, r) && |p| == 1 && round < |nets|
    ensures v in g.nodes && g.nodes == nets[round].Keys == nets[0].Keys
    ensures nets[round][v] == nets[0][v]
  {
    RoundsElectShortestPaths(g, nets, round);
    RoundsElectShortestPaths(g, nets, 0);
    RootIsHeard(g, r, round, nets[round], v, p);
    RootIsHeard(g, r, 0, nets[0], v, p);
  }

  // A node at distance k from the least root is fixed after round k.
  lemma {:induction false} FixedAfterDistance(g: Graph, nets: seq<Network>, r: NodeAddr, v: NodeAddr, p: Coords, k: nat, round: nat)
    requires g.WellFormed() && Execution(g, nets) && Least(g, r)
    requires g.ShortestPath(p, v, r) && |p| - 1 == k <= round < |nets|
    ensures v in g.nodes && g.nodes == nets[round].Keys == nets[k].Keys
    ensures nets[round][v] == nets[k][v]
    decreases k
  {
    if k == 0 {
      RootStaysRoot(g, nets, r, v, p, round);
    } else {
      var u, w := SameElection(g, nets, r, v, p, k - 1, round - 1);
      FixedAfterDistance(g, nets, r, u, nets[round - 1][u], k - 1, round - 1);
      FixedAfterDistance(g, nets, r, w, nets[k - 1][w], k - 1, round - 1);
    }
  }

  lemma {:induction false} NoRepeatsBound(c: Coords, nodes: set<NodeAddr>)
    requires NoRepeats(c) && forall i :: 0 <= i < |c| ==> c[i] in nodes
    ensures |c| <= |nodes|
  {
    if c != [] {
      NoRepeatsBound(c[1..], nodes - {c[0]});
    }
  }

  // Every network has a next one.
  lemma RoundOf(g: Graph, net: Network) returns (next: Network)
    requires g.nodes == net.Keys
    ensures IsRound(g, net, next)
    ensures g.nodes == next.Keys
  {
    forall v | v in g.nodes ensures Elect(v, Heard(g, net, v)) != [] {
      ElectionOutcome(v, Heard(g, net, v));
    }
    hide Elect, Heard;
    next := map v | v in g.nodes :: Elect(v, Heard(g, net, v));
  }

  // Any longer execution exists.
  lemma {:induction false} ExecutionOf(g: Graph, rounds: nat) returns (nets: seq<Network>)
    ensures Execution(g, nets) && |nets| == rounds + 1 && g.nodes == nets[rounds].Keys
  {
    if rounds == 0 {
      nets := [map v | v in g.nodes :: [v]];
    } else {
      var prefix := ExecutionOf(g, rounds - 1);
      var next := RoundOf(g, prefix[rounds - 1]);
      nets := prefix + [next];
      hide IsRound;
      forall i | 0 < i < |nets| ensures RoundAt(g, nets, i) {
        assert i < rounds ==> RoundAt(g, prefix, i);
      }
    }
  }

  // Every node has a shortest path to the least address, of at most |nodes| nodes.
  lemma SomeShortestPath(g: Graph, r: NodeAddr, v: NodeAddr) returns (p: Coords)
    requires g.ConnectedGraph() && Least(g, r) && v in g.nodes
    ensures g.ShortestPath(p, v, r) && 1 <= |p| <= |g.nodes|
  {
    assert g.Joined(v, r);
    var q :| g.Path(q, v, r);
    var nets := ExecutionOf(g, |q|);
    RoundsElectShortestPaths(g, nets, |q|);
    RootIsHeard(g, r, |q|, nets[|q|], v, q);
    p := nets[|q|][v];
    PathStaysInside(g, p);
    NoRepeatsBound(p, g.nodes);
  }

  // From round |nodes| - 1 on every node holds a shortest path to the least address and nothing moves.
  lemma Convergence(g: Graph, nets: seq<Network>, r: NodeAddr, round: nat)
    requires g.ConnectedGraph() && Execution(g, nets) && Least(g, r) && |g.nodes| - 1 <= round < |nets|
    ensures nets[round].Keys == g.nodes
    ensures forall v {:trigger nets[round][v]} :: v in g.nodes ==> g.ShortestPath(nets[round][v], v, r)
    ensures nets[round] == nets[|g.nodes| - 1]
  {
    RoundsElectShortestPaths(g, nets, round);
    RoundsElectShortestPaths(g, nets, |g.nodes| - 1);
    hide Execution, Least, Shortest;
    forall v {:trigger nets[round][v]} | v in g.nodes
      ensures g.ShortestPath(nets[round][v], v, r) && nets[round][v] == nets[|g.nodes| - 1][v]
    {
      ConvergenceAt(g, nets, r, round, v);
    }
  }

  lemma ConvergenceAt(g: Graph, nets: seq<Network>, r: NodeAddr, round: nat, v: NodeAddr)
    requires g.ConnectedGraph() && Execution(g, nets) && Least(g, r) && |g.nodes| - 1 <= round < |nets|
    requires v in g.nodes
    ensures nets[round].Keys == nets[|g.nodes| - 1].Keys == g.nodes
    ensures g.ShortestPath(nets[round][v], v, r) && nets[round][v] == nets[|g.nodes| - 1][v]
  {
    var p := SomeShortestPath(g, r, v);
    ShortestPathHeld(g, nets, r, round, v, p);
    FixedBetween(g, nets, r, v, p, |g.nodes| - 1, round);
  }

  lemma FixedBetween(g: Graph, nets: seq<Network>, r: NodeAddr, v: NodeAddr, p: Coords, early: nat, late: nat)
    requires g.WellFormed() && Execution(g, nets) && Least(g, r) && g.ShortestPath(p, v, r)
    requires 1 <= |p| <= early + 1 && early <= late < |nets|
    ensures v in g.nodes && nets[late].Keys == nets[early].Keys == g.nodes && nets[late][v] == nets[early][v]
  {
    FixedAfterDistance(g, nets, r, v, p, |p| - 1, late);
    FixedAfterDistance(g, nets, r, v, p, |p| - 1, early);
  }

  lemma ShortestPathHeld(g: Graph, nets: seq<Network>, r: NodeAddr, round: nat, v: NodeAddr, p: Coords)
    requires g.WellFormed() && Execution(g, nets) && Least(g, r) && round < |nets|
    requires g.Path(p, v, r) && |p| <= round + 1
    ensures v in g.nodes && nets[round].Keys == g.nodes && g.ShortestPath(nets[round][v], v, r)
  {
    RoundsElectShortestPaths(g, nets, round);
    RootIsHeard(g, r, round, nets[round], v, p);
  }

  // ---- One round, message by message ----

  type Peers = peers: map<NodeAddr, PeerTreeState> | forall k :: k in peers ==> peers[k].ancestry != []

  type Message = m: (NodeAddr, Announce) | m.1.ancestry != [] witness (0, Announce(0, 0, 0, [Entry(0, 0, 0)]))

  function Delivered(peers: Peers, messages: seq<Message>): Peers
    decreases |messages|
  {
    if messages == [] then peers
    else Delivered(Retained(peers, messages[0].0, messages[0].1), messages[1..])
  }

  // What is retained of a node after some messages: what was there, if nothing from it was newer, or the first of those
  // from it that no other exceeds.
  ghost predicate KeepsNewest(peers: Peers, messages: seq<Message>, k: NodeAddr, after: Peers) {
    && (forall m :: m in messages && m.0 == k ==> k in after && m.1.sequence <= after[k].sequence)
    && (|| ((k in after <==> k in peers) && (k in after ==> after[k] == peers[k]))
        || exists i :: 0 <= i < |messages| && IsNewest(peers, messages, k, after, i))
  }

  ghost predicate IsNewest(peers: Peers, messages: seq<Message>, k: NodeAddr, after: Peers, i: nat)
    requires i < |messages|
  {
    var a := messages[i].1;
    && messages[i].0 == k && k in after && after[k] == PeerTreeState(a.sequence, a.parent, a.ancestry)
    && (k in peers ==> peers[k].sequence < a.sequence)
    && forall j :: 0 <= j < i && messages[j].0 == k ==> messages[j].1.sequence < a.sequence
  }

  lemma {:induction false} NewestIsKept(peers: Peers, messages: seq<Message>, k: NodeAddr)
    ensures KeepsNewest(peers, messages, k, Delivered(peers, messages))
    decreases |messages|
  {
    if messages != [] {
      var first, rest := messages[0], messages[1..];
      NewestIsKept(Retained(peers, first.0, first.1), rest, k);
      hide Delivered, KeepsNewest, Retained;
      NewestWithOneMore(peers, first, rest, k, Delivered(peers, messages));
      assert messages == [first] + rest;
    }
  }

  lemma NewestWithOneMore(peers: Peers, first: Message, rest: seq<Message>, k: NodeAddr, after: Peers)
    requires KeepsNewest(Retained(peers, first.0, first.1), rest, k, after)
    ensures KeepsNewest(peers, [first] + rest, k, after)
  {
    var messages, next: Peers := [first] + rest, Retained(peers, first.0, first.1);
    if i :| 0 <= i < |rest| && IsNewest(next, rest, k, after, i) {
      NewestComesLater(peers, first, rest, k, after, i);
    } else if first.0 == k && !(k in peers && first.1.sequence <= peers[k].sequence) {
      assert IsNewest(peers, messages, k, after, 0);
    }
  }

  lemma NewestComesLater(peers: Peers, first: Message, rest: seq<Message>, k: NodeAddr, after: Peers, i: nat)
    requires i < |rest| && IsNewest(Retained(peers, first.0, first.1), rest, k, after, i)
    ensures IsNewest(peers, [first] + rest, k, after, i + 1)
    ensures first.0 == k ==> first.1.sequence < after[k].sequence
  {
    var messages := [first] + rest;
    assert messages[i + 1] == rest[i];
    assert forall j :: 0 < j < i + 1 ==> messages[j] == rest[j - 1];
  }

  // The sender's current coordinates, under a newer sequence number unless they are those already retained.
  ghost predicate Truthful(peers: Peers, heard: Table, m: Message) {
    && m.0 in heard && Nodes(m.1.ancestry) == heard[m.0]
    && (m.0 in peers && m.1.sequence <= peers[m.0].sequence ==> UpToDate(peers, heard, m.0))
  }

  predicate UpToDate(peers: Peers, heard: Table, k: NodeAddr) {
    k in peers && k in heard && Nodes(peers[k].ancestry) == heard[k]
  }

  lemma FirstIsUpToDate(peers: Peers, heard: Table, first: Message)
    requires peers.Keys <= heard.Keys && Truthful(peers, heard, first)
    ensures UpToDate(Retained(peers, first.0, first.1), heard, first.0)
    ensures Retained(peers, first.0, first.1).Keys <= heard.Keys
  {
  }

  lemma StaysTruthful(peers: Peers, heard: Table, first: Message, m: Message)
    requires Truthful(peers, heard, first) && Truthful(peers, heard, m)
    ensures Truthful(Retained(peers, first.0, first.1), heard, m)
  {
  }

  lemma OthersStayUpToDate(peers: Peers, heard: Table, first: Message, k: NodeAddr)
    requires Truthful(peers, heard, first) && UpToDate(peers, heard, k)
    ensures UpToDate(Retained(peers, first.0, first.1), heard, k)
  {
  }

  // One announcement of each neighbour, in any order and with any repetition, leaves the table
  // over which the round elects.
  lemma {:induction false} DeliveryGivesHeardTable(peers: Peers, messages: seq<Message>, heard: Table)
    requires peers.Keys <= heard.Keys
    requires forall m :: m in messages ==> Truthful(peers, heard, m)
    requires forall k :: k in heard ==> UpToDate(peers, heard, k) || exists m :: m in messages && m.0 == k
    ensures TableOf(Delivered(peers, messages)) == heard
    decreases |messages|
  {
    if messages == [] {
      assert forall k :: k in heard ==> UpToDate(peers, heard, k);
    } else {
      var first, rest := messages[0], messages[1..];
      var next: Peers := Retained(peers, first.0, first.1);
      assert messages == [first] + rest;
      FirstIsUpToDate(peers, heard, first);
      forall m | m in rest ensures Truthful(next, heard, m) {
        StaysTruthful(peers, heard, first, m);
      }
      hide TableOf, Truthful, UpToDate, Retained;
      forall k | k in heard ensures UpToDate(next, heard, k) || exists m :: m in rest && m.0 == k {
        if UpToDate(peers, heard, k) {
          OthersStayUpToDate(peers, heard, first, k);
        } else if k != first.0 {
          var m :| m in messages && m.0 == k;
          assert m in rest;
        }
      }
      DeliveryGivesHeardTable(next, rest, heard);
    }
  }
}
