/**
 * The spanning tree after nodes have left: the election started again from whatever coordinates the others still hold
 * (packages/core/src/node/TreeState.ts, removePeer, updatePeer and evaluateParent).
 */
module TreeRecovery {
  import opened Collections
  import opened TreeCoordinates
  import opened TreeElection
  import opened TreeNetwork

  // Coordinates as any election leaves them, perhaps over nodes that are gone.
  ghost predicate Leftover(g: Graph, net: Network) {
    g.nodes == net.Keys && forall v {:trigger net[v]} :: v in g.nodes ==> net[v][0] == v && NoRepeats(net[v])
  }

  ghost predicate ExecutionFrom(g: Graph, start: Network, nets: seq<Network>) {
    && nets != [] && nets[0] == start && Leftover(g, start)
    && forall i :: 0 < i < |nets| ==> RoundAt(g, nets, i)
  }

  // ---- Stale roots ----

  // After t rounds the first t + 1 entries are nodes that are there, each linked to the next.
  ghost predicate Grounded(g: Graph, t: nat, v: NodeAddr, c: Coords) {
    c != [] && c[0] == v && NoRepeats(c) && g.Chain(c[..Min(|c|, t + 1)])
  }

  ghost predicate AllGrounded(g: Graph, t: nat, net: Network) {
    g.nodes == net.Keys && forall v {:trigger Grounded(g, t, v, net[v])} :: v in g.nodes ==> Grounded(g, t, v, net[v])
  }

  // What v elects over neighbours that are grounded t deep is grounded one deeper.
  lemma ElectedIsGrounded(g: Graph, t: nat, v: NodeAddr, table: Table)
    requires g.WellFormed() && v in g.nodes && table.Keys <= g.Neighbours(v)
    requires forall u :: u in table ==> Grounded(g, t, u, table[u])
    ensures Grounded(g, t + 1, v, Elect(v, table)) && Root(Elect(v, table)) <= v
  {
    ElectionOutcome(v, table);
    ElectionHasNoRepeats(v, table);
    hide Elect;
    var c := Elect(v, table);
    if c == [v] {
      assert c[..Min(|c|, t + 2)] == [v];
    } else {
      var u :| Best(v, table, u) && c == [v] + table[u];
      var p := table[u][..Min(|table[u]|, t + 1)];
      assert c[..Min(|c|, t + 2)] == [v] + p && ([v] + p)[1..] == p && p[0] == u;
      assert g.Linked(v, u);
    }
  }

  lemma RoundGrounds(g: Graph, t: nat, net: Network, next: Network)
    requires g.WellFormed() && AllGrounded(g, t, net) && IsRound(g, net, next)
    ensures AllGrounded(g, t + 1, next)
    ensures forall v {:trigger next[v]} :: v in g.nodes ==> Root(next[v]) <= v
  {
    forall v {:trigger next[v]} | v in g.nodes ensures Grounded(g, t + 1, v, next[v]) && Root(next[v]) <= v {
      assert HoldsElection(g, net, next, v);
      var table := Heard(g, net, v);
      forall u | u in table ensures Grounded(g, t, u, table[u]) {
        assert Grounded(g, t, u, net[u]);
      }
      ElectedIsGrounded(g, t, v, table);
    }
  }

  lemma {:induction false} RoundsGround(g: Graph, start: Network, nets: seq<Network>, t: nat)
    requires g.WellFormed() && ExecutionFrom(g, start, nets) && t < |nets|
    ensures AllGrounded(g, t, nets[t])
    ensures t > 0 ==> forall v {:trigger nets[t][v]} :: v in g.nodes ==> Root(nets[t][v]) <= v
    decreases t
  {
    if t == 0 {
      forall v | v in g.nodes ensures Grounded(g, 0, v, start[v]) {
        assert start[v][..1] == [v];
      }
    } else {
      RoundsGround(g, start, nets, t - 1);
      assert RoundAt(g, nets, t);
      RoundGrounds(g, t - 1, nets[t - 1], nets[t]);
    }
  }

  // Coordinates over nodes that are there, to a root that is no more than the node itself.
  ghost predicate Sound(g: Graph, v: NodeAddr, c: Coords) {
    c != [] && g.Path(c, v, Root(c)) && NoRepeats(c) && Root(c) <= v
  }

  ghost predicate AllSound(g: Graph, net: Network) {
    g.nodes == net.Keys && forall v {:trigger Sound(g, v, net[v])} :: v in g.nodes ==> Sound(g, v, net[v])
  }

  lemma DeepIsSound(g: Graph, t: nat, v: NodeAddr, c: Coords)
    requires Grounded(g, t, v, c) && Root(c) <= v && |g.nodes| <= t
    ensures Sound(g, v, c)
  {
    var p := c[..Min(|c|, t + 1)];
    PathStaysInside(g, p);
    NoRepeatsBound(p, g.nodes);
    assert p == c;
  }

  // No root or other node that has left is named in any coordinates from round |nodes| on.
  lemma StaleRootsVanish(g: Graph, start: Network, nets: seq<Network>, t: nat)
    requires g.WellFormed() && ExecutionFrom(g, start, nets) && 0 < |g.nodes| <= t < |nets|
    ensures AllSound(g, nets[t])
  {
    RoundsGround(g, start, nets, t);
    forall v | v in g.nodes ensures Sound(g, v, nets[t][v]) {
      assert Grounded(g, t, v, nets[t][v]) && Root(nets[t][v]) <= v;
      DeepIsSound(g, t, v, nets[t][v]);
    }
  }

  // It can take as long. On a line of n nodes the far end still names the old root, 0, in round n - 1.
  ghost function Line(n: nat): Graph {
    Graph(UpTo(n), set i, j | i in UpTo(n) && j in UpTo(n) && (i == j + 1 || j == i + 1) :: (i, j))
  }

  function UpTo(n: nat): (s: set<NodeAddr>)
    ensures |s| == n && forall i :: i in s <==> 1 <= i <= n
  {
    if n == 0 then {} else UpTo(n - 1) + {n}
  }

  // i, i - 1, ..., low.
  function Down(i: nat, low: nat): (c: Coords)
    requires low <= i
    ensures c != []
  {
    if i == low then [i] else [i] + Down(i - 1, low)
  }

  // The first t nodes have heard that 0 is gone.
  function LineCoords(i: nat, t: nat): (c: Coords)
    requires i > 0
    ensures c != []
  {
    Down(i, if i <= t then 1 else 0)
  }

  ghost function LineAt(n: nat, t: nat): (net: Network)
    ensures net.Keys == Line(n).nodes
  {
    map i | i in Line(n).nodes :: LineCoords(i, t)
  }

  lemma {:induction false} DownAt(i: nat, low: nat)
    requires low <= i
    ensures |Down(i, low)| == i - low + 1 && forall k :: 0 <= k <= i - low ==> Down(i, low)[k] == i - k
  {
    if i > low {
      DownAt(i - 1, low);
    }
  }

  lemma LineCoordsAre(i: nat, t: nat)
    requires i > 0
    ensures var c := LineCoords(i, t);
      && c[0] == i && Root(c) == (if i <= t then 1 else 0) && NoRepeats(c)
      && i + 1 !in c && (i > 1 ==> i - 1 in c)
  {
    DownAt(i, if i <= t then 1 else 0);
    hide Down;
    assert i > 1 ==> LineCoords(i, t)[1] == i - 1;
  }

  lemma LineLinks(n: nat, i: nat, k: nat)
    ensures Line(n).nodes == UpTo(n)
    ensures Line(n).Linked(i, k) <==> 1 <= i <= n && 1 <= k <= n && (i == k + 1 || k == i + 1)
  {
    hide UpTo;
  }

  lemma LineAtIs(n: nat, t: nat, k: nat)
    requires 1 <= k <= n
    ensures k in LineAt(n, t) && LineAt(n, t)[k] == LineCoords(k, t)
  {
    LineLinks(n, k, k);
    hide LineCoords, UpTo, Line;
  }

  // What node i hears: the next node leads back through i, the one before does not.
  lemma LineHears(n: nat, t: nat, i: nat, k: nat)
    requires 1 <= i <= n && k in Heard(Line(n), LineAt(n, t), i)
    ensures var table := Heard(Line(n), LineAt(n, t), i);
      table[k] == LineCoords(k, t) && (k == i - 1 || (k == i + 1 && i in table[k]))
  {
    hide LineCoords, Line, LineAt, NoRepeats, Heard, UpTo;
    LineLinks(n, i, k);
    LineAtIs(n, t, k);
    if k == i + 1 {
      LineCoordsAre(k, t);
    }
  }

  lemma BeforeIsHeard(n: nat, t: nat, i: nat)
    requires 1 < i <= n
    ensures i - 1 in Heard(Line(n), LineAt(n, t), i)
  {
    LineLinks(n, i, i - 1);
    hide LineAt, Line;
  }

  lemma OnlyCandidate(i: nat, table: Table, c: Coords)
    requires forall k :: k in table ==> k == i - 1 || (k == i + 1 && i in table[k])
    requires i > 0 && (i == 1 ==> 0 !in table)
    requires i > 1 ==> i - 1 in table && table[i - 1] == c && c != [] && i !in c && Root(c) < i
    ensures Elect(i, table) == if i == 1 then [1] else [i] + c
  {
    if i == 1 {
      ElectionOutcome(1, table);
    } else {
      assert Best(i, table, i - 1);
      ElectIsBest(i, table, i - 1);
    }
  }

  lemma LineElection(n: nat, t: nat, i: nat)
    requires 1 <= i <= n
    ensures Elect(i, Heard(Line(n), LineAt(n, t), i)) == LineCoords(i, t + 1)
  {
    hide Elect, Heard, LineAt, Line, UpTo, NoRepeats;
    LineLinks(n, i, i);
    var table := Heard(Line(n), LineAt(n, t), i);
    forall k | k in table ensures k > 0 && table[k] == LineCoords(k, t) && (k == i - 1 || (k == i + 1 && i in table[k])) {
      LineHears(n, t, i, k);
    }
    if i > 1 {
      BeforeIsHeard(n, t, i);
      LineCoordsAre(i - 1, t);
    }
    OnlyCandidate(i, table, if i > 1 then LineCoords(i - 1, t) else []);
  }

  lemma LineRound(n: nat, t: nat)
    ensures IsRound(Line(n), LineAt(n, t), LineAt(n, t + 1))
  {
    hide Elect, Heard, LineCoords, LineAt, Line;
    forall i | i in Line(n).nodes ensures HoldsElection(Line(n), LineAt(n, t), LineAt(n, t + 1), i) {
      LineLinks(n, i, i);
      LineElection(n, t, i);
      LineAtIs(n, t + 1, i);
    }
  }

  // The path from v to w along the line.
  ghost function Along(v: nat, w: nat): (p: Coords)
    ensures p != [] && p[0] == v && Root(p) == w
    decreases if v < w then w - v else v - w
  {
    if v == w then [v] else [v] + Along(if v < w then v + 1 else v - 1, w)
  }

  lemma {:induction false} AlongIsPath(n: nat, v: nat, w: nat)
    requires 1 <= v <= n && 1 <= w <= n
    ensures Line(n).Path(Along(v, w), v, w)
    decreases if v < w then w - v else v - w
  {
    if v == w {
      assert [v][1..] == [];
    } else {
      var u := if v < w then v + 1 else v - 1;
      AlongIsPath(n, u, w);
      LineLinks(n, v, u);
      PathCons(Line(n), v, Along(u, w), u, w);
    }
  }

  lemma LineIsConnected(n: nat)
    ensures Line(n).ConnectedGraph()
  {
    var g := Line(n);
    forall v, w | v in g.nodes && w in g.nodes ensures g.Joined(v, w) {
      AlongIsPath(n, v, w);
    }
  }

  lemma LineStart(n: nat)
    requires n > 0
    ensures Leftover(Line(n), LineAt(n, 0)) && Least(Line(n), 1) && |Line(n).nodes| == n
  {
    LineLinks(n, n, n);
    hide Line, LineAt;
    forall i | i in Line(n).nodes ensures LineAt(n, 0)[i][0] == i && NoRepeats(LineAt(n, 0)[i]) {
      LineAtIs(n, 0, i);
      LineCoordsAre(i, 0);
    }
  }

  lemma LineEnd(n: nat)
    requires n > 0
    ensures n in LineAt(n, n - 1) && Root(LineAt(n, n - 1)[n]) !in Line(n).nodes
  {
    LineLinks(n, n, n);
    LineAtIs(n, n - 1, n);
    LineCoordsAre(n, n - 1);
    hide Line, LineAt, LineCoords;
  }

  ghost function LineNets(n: nat, rounds: nat): (nets: seq<Network>)
    ensures |nets| == rounds && forall t :: 0 <= t < rounds ==> nets[t] == LineAt(n, t)
  {
    if rounds == 0 then [] else LineNets(n, rounds - 1) + [LineAt(n, rounds - 1)]
  }

  lemma LineRoundAt(n: nat, t: nat)
    requires 0 < t < n
    ensures RoundAt(Line(n), LineNets(n, n), t)
  {
    LineRound(n, t - 1);
    hide IsRound, Line, LineAt, LineNets;
  }

  lemma LineExecution(n: nat)
    requires n > 0
    ensures ExecutionFrom(Line(n), LineAt(n, 0), LineNets(n, n))
  {
    LineStart(n);
    hide Leftover, Line, LineAt, LineNets, RoundAt, Least;
    forall t | 0 < t < n ensures RoundAt(Line(n), LineNets(n, n), t) {
      LineRoundAt(n, t);
    }
  }

  lemma StaleRootLasts(n: nat)
    requires n > 0
    ensures var (g, nets) := (Line(n), LineNets(n, n));
      && g.ConnectedGraph() && Least(g, 1) && |g.nodes| == n && |nets| == n && ExecutionFrom(g, LineAt(n, 0), nets)
      && n in nets[n - 1] && Root(nets[n - 1][n]) !in g.nodes
  {
    hide ExecutionFrom, Least, Line, LineAt, LineNets, Line(n).ConnectedGraph;
    LineIsConnected(n);
    LineStart(n);
    LineEnd(n);
    LineExecution(n);
  }

  // ---- Shortest paths ----

  // Every node within k links of r holds a shortest path to it.
  ghost predicate Near(g: Graph, r: NodeAddr, k: nat, net: Network) {
    g.nodes == net.Keys && forall v, p {:trigger g.ShortestPath(p, v, r)} ::
      v in g.nodes && g.ShortestPath(p, v, r) && |p| <= k + 1 ==> g.ShortestPath(net[v], v, r)
  }

  lemma LeastIsItsRoot(g: Graph, r: NodeAddr, net: Network, v: NodeAddr, p: Coords)
    requires AllSound(g, net) && Least(g, r) && g.ShortestPath(p, v, r) && |p| == 1
    ensures v == r && v in g.nodes && net[v] == [r]
  {
    PathStaysInside(g, p);
    assert Sound(g, r, net[r]);
    PathStaysInside(g, net[r]);
    assert Root(net[r]) == r;
  }

  lemma NoShorter(g: Graph, p: Coords, q: Coords, v: NodeAddr, r: NodeAddr)
    requires g.ShortestPath(p, v, r) && g.Path(q, v, r)
    ensures |p| <= |q|
  {
    assert Graph.NoLonger(p, q);
  }

  // u, the next node on a shortest path of v, offers v coordinates that do not lead through v.
  lemma OffersShortest(g: Graph, v: NodeAddr, u: NodeAddr, c: Coords, p: Coords, r: NodeAddr)
    requires g.ShortestPath(p, v, r) && |p| > 1 && p[1] == u && g.ShortestPath(c, u, r)
    ensures v !in c && |c| == |p| - 1
  {
    PathTail(g, p, v, r, 1);
    NoShorter(g, c, p[1..], u, r);
    if v in c {
      var i :| 0 <= i < |c| && c[i] == v;
      PathTail(g, c, u, r, i);
      NoShorter(g, p, c[i..], v, r);
    } else {
      assert g.Chain(p) && g.Linked(v, u) && v in g.nodes;
      PathCons(g, v, c, u, r);
      NoShorter(g, p, [v] + c, v, r);
    }
  }

  lemma NextIsShortest(g: Graph, r: NodeAddr, k: nat, net: Network, next: Network, v: NodeAddr, p: Coords)
    requires g.WellFormed() && AllSound(g, next) && Near(g, r, k, net) && IsRound(g, net, next) && Least(g, r)
    requires g.ShortestPath(p, v, r) && 1 < |p| <= k + 2
    ensures v in g.nodes && g.ShortestPath(next[v], v, r)
  {
    var u := p[1];
    PathStaysInside(g, p);
    assert p == [v] + p[1..];
    PathTail(g, p, v, r, 1);
    ShortestTail(g, v, u, p[1..], r);
    assert g.ShortestPath(net[u], u, r);
    OffersShortest(g, v, u, net[u], p, r);
    var table := Heard(g, net, v);
    assert HoldsElection(g, net, next, v) && Candidate(v, table, u);
    ElectionOutcome(v, table);
    assert Sound(g, v, next[v]);
    PathStaysInside(g, next[v]);
    SingletonIsShortest(g, v, p, r);
    SameLengthIsShortest(g, next[v], p, v, r);
  }

  lemma SingletonIsShortest(g: Graph, v: NodeAddr, p: Coords, r: NodeAddr)
    requires g.ShortestPath(p, v, r) && |p| > 1
    ensures v != r
  {
    if v == r {
      assert [v][1..] == [];
      assert g.Path([v], v, r);
      NoShorter(g, p, [v], v, r);
    }
  }

  lemma SameLengthIsShortest(g: Graph, c: Coords, p: Coords, v: NodeAddr, r: NodeAddr)
    requires g.ShortestPath(p, v, r) && g.Path(c, v, r) && |c| <= |p|
    ensures g.ShortestPath(c, v, r)
  {
    forall q | g.Path(q, v, r) ensures Graph.NoLonger(c, q) {
      assert Graph.NoLonger(p, q);
    }
  }

  lemma RoundReachesFurther(g: Graph, r: NodeAddr, k: nat, net: Network, next: Network)
    requires g.WellFormed() && AllSound(g, next) && Near(g, r, k, net) && IsRound(g, net, next) && Least(g, r)
    ensures Near(g, r, k + 1, next)
  {
    hide AllSound, IsRound, Least;
    assert g.nodes == next.Keys by {
      SameNodes(g, net, next);
    }
    forall v, p {:trigger g.ShortestPath(p, v, r)} | v in g.nodes && g.ShortestPath(p, v, r) && |p| <= k + 2
      ensures g.ShortestPath(next[v], v, r)
    {
      if |p| == 1 {
        LeastIsItsRoot(g, r, next, v, p);
      } else {
        NextIsShortest(g, r, k, net, next, v, p);
      }
    }
  }

  lemma SameNodes(g: Graph, net: Network, next: Network)
    requires IsRound(g, net, next)
    ensures g.nodes == net.Keys == next.Keys
  {
  }

  // From round base + k on, every node within k links of r holds a shortest path.
  lemma {:induction false} RoundsReachFurther(g: Graph, r: NodeAddr, nets: seq<Network>, base: nat, k: nat, round: nat)
    requires g.WellFormed() && Least(g, r) && SoundFrom(g, nets, base) && base + k <= round < |nets|
    ensures Near(g, r, k, nets[round])
    decreases k
  {
    assert SoundAt(g, nets, round);
    if k == 0 {
      forall v, p {:trigger g.ShortestPath(p, v, r)} | v in g.nodes && g.ShortestPath(p, v, r) && |p| <= 1
        ensures g.ShortestPath(nets[round][v], v, r)
      {
        LeastIsItsRoot(g, r, nets[round], v, p);
        SameLengthIsShortest(g, nets[round][v], p, v, r);
      }
    } else {
      RoundsReachFurther(g, r, nets, base, k - 1, round - 1);
      assert RoundAt(g, nets, round);
      RoundReachesFurther(g, r, k - 1, nets[round - 1], nets[round]);
    }
  }

  ghost predicate SoundAt(g: Graph, nets: seq<Network>, i: nat)
    requires i < |nets|
  {
    AllSound(g, nets[i]) && (i > 0 ==> RoundAt(g, nets, i))
  }

  // An execution whose coordinates are sound from some round on.
  ghost predicate SoundFrom(g: Graph, nets: seq<Network>, base: nat) {
    && (forall i :: base <= i < |nets| ==> SoundAt(g, nets, i))
    && forall i :: 0 < i < |nets| ==> RoundAt(g, nets, i)
  }

  // ---- One result, whatever was left over ----

  // The nodes within k links of r hold the same coordinates.
  ghost predicate AgreeWithin(g: Graph, r: NodeAddr, k: nat, net: Network, other: Network) {
    && g.nodes == net.Keys == other.Keys
    && forall v, p {:trigger g.ShortestPath(p, v, r)} :: v in g.nodes && g.ShortestPath(p, v, r) && |p| <= k + 1 ==> net[v] == other[v]
  }

  // The parent that v elects on a shortest path.
  lemma ShortestParent(g: Graph, r: NodeAddr, net: Network, next: Network, v: NodeAddr, p: Coords) returns (u: NodeAddr)
    requires g.WellFormed() && AllSound(g, net) && IsRound(g, net, next) && v in g.nodes
    requires g.ShortestPath(p, v, r) && |p| > 1 && g.ShortestPath(next[v], v, r)
    ensures u in g.nodes && Best(v, Heard(g, net, v), u) && next[v] == [v] + net[u]
    ensures g.ShortestPath(net[u], u, r) && |net[u]| == |p| - 1
  {
    NoShorter(g, p, next[v], v, r);
    NoShorter(g, next[v], p, v, r);
    assert HoldsElection(g, net, next, v);
    var table := Heard(g, net, v);
    ElectionOutcome(v, table);
    u :| Best(v, table, u) && next[v] == [v] + table[u] && Root(next[v]) == Root(table[u]);
    assert Sound(g, u, net[u]);
    ShortestTail(g, v, u, net[u], r);
  }

  lemma AgreementSpreads(
    g: Graph, r: NodeAddr, k: nat, net: Network, next: Network, other: Network, otherNext: Network, v: NodeAddr, p: Coords)
    requires g.WellFormed() && AllSound(g, net) && AllSound(g, other) && AgreeWithin(g, r, k, net, other)
    requires IsRound(g, net, next) && IsRound(g, other, otherNext) && v in g.nodes && g.ShortestPath(p, v, r) && 1 < |p| <= k + 2
    requires g.ShortestPath(next[v], v, r) && g.ShortestPath(otherNext[v], v, r)
    ensures next[v] == otherNext[v]
  {
    var u := ShortestParent(g, r, net, next, v, p);
    var w := ShortestParent(g, r, other, otherNext, v, p);
    assert net[u] == other[u] && net[w] == other[w];
    BestAgrees(v, Heard(g, net, v), Heard(g, other, v), u, w);
  }

  lemma {:induction false} ExecutionsAgree(
    g: Graph, r: NodeAddr, nets: seq<Network>, base: nat, i: nat, others: seq<Network>, otherBase: nat, j: nat, k: nat)
    requires g.WellFormed() && Least(g, r) && SoundFrom(g, nets, base) && SoundFrom(g, others, otherBase)
    requires base + k <= i < |nets| && otherBase + k <= j < |others|
    ensures AgreeWithin(g, r, k, nets[i], others[j])
    decreases k
  {
    RoundsReachFurther(g, r, nets, base, k, i);
    RoundsReachFurther(g, r, others, otherBase, k, j);
    assert SoundAt(g, nets, i) && SoundAt(g, others, j);
    if k > 0 {
      ExecutionsAgree(g, r, nets, base, i - 1, others, otherBase, j - 1, k - 1);
      assert SoundAt(g, nets, i - 1) && SoundAt(g, others, j - 1);
      assert RoundAt(g, nets, i) && RoundAt(g, others, j);
    }
    hide Least, SoundFrom, IsRound, AllSound;
    forall v, p {:trigger g.ShortestPath(p, v, r)} | v in g.nodes && g.ShortestPath(p, v, r) && |p| <= k + 1
      ensures nets[i][v] == others[j][v]
    {
      if |p| == 1 {
        LeastIsItsRoot(g, r, nets[i], v, p);
        LeastIsItsRoot(g, r, others[j], v, p);
      } else {
        AgreementSpreads(g, r, k - 1, nets[i - 1], nets[i], others[j - 1], others[j], v, p);
      }
    }
  }

  lemma ShortestIsSound(g: Graph, round: nat, v: NodeAddr, c: Coords)
    requires v in g.nodes && Shortest(g, round, v, c)
    ensures Sound(g, v, c)
  {
    assert [v][1..] == [];
    assert g.Path([v], v, v);
  }

  lemma FirstStartIsSound(g: Graph, nets: seq<Network>)
    requires g.WellFormed() && Execution(g, nets)
    ensures SoundFrom(g, nets, 0)
  {
    forall i | 0 <= i < |nets| ensures SoundAt(g, nets, i) {
      RoundsElectShortestPaths(g, nets, i);
      forall v | v in g.nodes ensures Sound(g, v, nets[i][v]) {
        assert Shortest(g, i, v, nets[i][v]);
        ShortestIsSound(g, i, v, nets[i][v]);
      }
    }
  }

  lemma LaterStartIsSound(g: Graph, start: Network, nets: seq<Network>)
    requires g.WellFormed() && ExecutionFrom(g, start, nets) && g.nodes != {}
    ensures SoundFrom(g, nets, |g.nodes|)
  {
    forall i | |g.nodes| <= i < |nets| ensures SoundAt(g, nets, i) {
      StaleRootsVanish(g, start, nets, i);
      assert RoundAt(g, nets, i);
    }
  }

  lemma LeastIsThere(g: Graph, r: NodeAddr)
    requires Least(g, r)
    ensures |g.nodes| > 0
  {
  }

  // Recovery: whatever coordinates were left over, from round 2 |nodes| - 1 on every node holds a shortest path to the least
  // address, nothing moves any more, and the tree is the one that nodes starting on their own elect.
  lemma Recovery(g: Graph, start: Network, nets: seq<Network>, first: seq<Network>, r: NodeAddr, round: nat)
    requires g.ConnectedGraph() && ExecutionFrom(g, start, nets) && Execution(g, first) && Least(g, r)
    requires 2 * |g.nodes| - 1 <= round < |nets| && |g.nodes| <= |first|
    ensures |g.nodes| > 0 && nets[round].Keys == g.nodes
    ensures forall v {:trigger nets[round][v]} :: v in g.nodes ==> g.ShortestPath(nets[round][v], v, r)
    ensures nets[round] == nets[2 * |g.nodes| - 1] == first[|g.nodes| - 1]
  {
    LeastIsThere(g, r);
    var n := |g.nodes|;
    FirstStartIsSound(g, first);
    LaterStartIsSound(g, start, nets);
    hide ExecutionFrom, Execution, SoundFrom, Least, Near, AgreeWithin;
    RoundsReachFurther(g, r, nets, n, n - 1, round);
    ExecutionsAgree(g, r, nets, n, round, first, 0, n - 1, n - 1);
    ExecutionsAgree(g, r, nets, n, 2 * n - 1, first, 0, n - 1, n - 1);
    SameNetwork(g, r, nets[round], first[n - 1]);
    SameNetwork(g, r, nets[2 * n - 1], first[n - 1]);
    AllShortestAtLast(g, r, nets[round]);
  }

  lemma SameNetwork(g: Graph, r: NodeAddr, net: Network, other: Network)
    requires g.ConnectedGraph() && Least(g, r) && |g.nodes| > 0 && AgreeWithin(g, r, |g.nodes| - 1, net, other)
    ensures net == other
  {
    hide Least, g.ConnectedGraph;
    forall v | v in g.nodes ensures net[v] == other[v] {
      var p := SomeShortestPath(g, r, v);
    }
  }

  lemma AllShortestAtLast(g: Graph, r: NodeAddr, net: Network)
    requires g.ConnectedGraph() && Least(g, r) && |g.nodes| > 0 && Near(g, r, |g.nodes| - 1, net)
    ensures g.nodes == net.Keys && forall v {:trigger net[v]} :: v in g.nodes ==> g.ShortestPath(net[v], v, r)
  {
    hide Least, g.ConnectedGraph;
    forall v | v in g.nodes ensures g.ShortestPath(net[v], v, r) {
      var p := SomeShortestPath(g, r, v);
    }
  }
}
