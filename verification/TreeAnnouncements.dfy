/**
 * The spanning tree over announcements that are delivered late: every link keeps their order, and every node retains the
 * newest of each neighbour and elects over what it has (packages/core/src/node/TreeState.ts, updatePeer, buildAnnounce and
 * evaluateParent; packages/core/src/node/FipsRouting.ts, handleTreeAnnounce and sendTreeAnnounceToAll).
 */
module TreeAnnouncements {
  import opened Collections
  import opened TreeCoordinates
  import opened TreeElection
  import opened TreeNetwork
  import opened TreeRecovery

  type Link = (NodeAddr, NodeAddr)

  type Ancestry = c: Coords | c != [] witness [0]

  datatype News = News(sequence: nat, coords: Ancestry)

  // Every node's sequence number and coordinates; what the second end of a link retains of the first; what is in flight.
  datatype State = State(
    sequences: map<NodeAddr, nat>, coords: map<NodeAddr, Ancestry>, retained: map<Link, News>, channels: map<Link, seq<News>>)

  datatype Event = Delivers(link: Link) | Announces(link: Link)

  function TableAt(g: Graph, x: State, v: NodeAddr): (t: Table)
    ensures t.Keys <= g.Neighbours(v)
    ensures forall u :: u in t <==> u in g.Neighbours(v) && (u, v) in x.retained
    ensures forall u :: u in t ==> t[u] == x.retained[(u, v)].coords
  {
    map u | u in g.Neighbours(v) && (u, v) in x.retained :: x.retained[(u, v)].coords
  }

  // Taking the oldest announcement off a link; it is kept if it is newer than what is retained.
  function Taken(x: State, p: Link): State
    requires p in x.channels && x.channels[p] != []
  {
    var head := x.channels[p][0];
    var kept := p in x.retained && head.sequence <= x.retained[p].sequence;
    x.(channels := x.channels[p := x.channels[p][1..]], retained := if kept then x.retained else x.retained[p := head])
  }

  function Current(x: State, v: NodeAddr): News
    requires v in x.sequences && v in x.coords
  {
    News(x.sequences[v], x.coords[v])
  }

  // On one link, or on all links of a node.
  function Put(x: State, p: Link): State
    requires p.0 in x.sequences && p.0 in x.coords && p in x.channels
  {
    x.(channels := x.channels[p := x.channels[p] + [Current(x, p.0)]])
  }

  function PutToAll(x: State, v: NodeAddr): State
    requires v in x.sequences && v in x.coords
  {
    x.(channels := map p | p in x.channels :: if p.0 == v then x.channels[p] + [Current(x, v)] else x.channels[p])
  }

  ghost function Elected(g: Graph, x: State, v: NodeAddr): (c: Ancestry) {
    ElectionOutcome(v, TableAt(g, x, v));
    Elect(v, TableAt(g, x, v))
  }

  // The election; a change is numbered and announced to every neighbour.
  ghost function Settled(g: Graph, x: State, v: NodeAddr): State
    requires v in x.sequences && v in x.coords
  {
    var c := Elected(g, x, v);
    if c == x.coords[v] then x
    else PutToAll(x.(sequences := x.sequences[v := x.sequences[v] + 1], coords := x.coords[v := c]), v)
  }

  predicate WellFormed(g: Graph, x: State) {
    g.nodes == x.sequences.Keys == x.coords.Keys && g.links == x.channels.Keys && x.retained.Keys <= g.links
  }

  // Announcements arrive late; a node may announce itself at any time, and does when its coordinates change.
  predicate Possible(g: Graph, x: State, e: Event) {
    e.link in g.links && (e.Delivers? ==> e.link in x.channels && x.channels[e.link] != [])
  }

  ghost function Next(g: Graph, x: State, e: Event): State
    requires g.WellFormed() && WellFormed(g, x) && Possible(g, x, e)
  {
    assert g.Linked(e.link.0, e.link.1);
    match e
    case Delivers(p) => Settled(g, Taken(x, p), p.1)
    case Announces(p) => Put(x, p)
  }

  ghost predicate Run(g: Graph, x: State, events: seq<Event>, end: State)
    requires g.WellFormed()
    decreases |events|
  {
    if events == [] then end == x
    else WellFormed(g, x) && Possible(g, x, events[0]) && Run(g, Next(g, x, events[0]), events[1..], end)
  }

  // ---- Every link carries the truth, in order ----

  // What is retained and what is in flight over a link, oldest first.
  function Line(x: State, p: Link): seq<News> {
    (if p in x.retained then [x.retained[p]] else []) + (if p in x.channels then x.channels[p] else [])
  }

  predicate Ordered(line: seq<News>) {
    forall i, j :: 0 <= i < j < |line| ==> line[i].sequence < line[j].sequence || line[i] == line[j]
  }

  // The newest news of a link are its first end's current coordinates.
  predicate InOrder(x: State, p: Link) {
    && p.0 in x.sequences && p.0 in x.coords
    && Line(x, p) != [] && Line(x, p)[|Line(x, p)| - 1] == Current(x, p.0) && Ordered(Line(x, p))
  }

  ghost predicate AllInOrder(g: Graph, x: State) {
    WellFormed(g, x) && forall p {:trigger InOrder(x, p)} :: p in g.links ==> InOrder(x, p)
  }

  ghost predicate AllElected(g: Graph, x: State) {
    forall v {:trigger Elected(g, x, v)} :: v in g.nodes ==> v in x.coords && x.coords[v] == Elected(g, x, v)
  }

  ghost predicate Invariant(g: Graph, x: State) {
    AllInOrder(g, x) && AllElected(g, x)
  }

  // The oldest announcement in flight is what is retained once it has been taken.
  lemma TakenIsRetained(x: State, p: Link)
    requires p in x.channels && x.channels[p] != [] && Ordered(Line(x, p))
    ensures p in Taken(x, p).retained && Taken(x, p).retained[p] == x.channels[p][0]
    ensures Line(Taken(x, p), p) == x.channels[p]
    ensures forall q {:trigger Line(Taken(x, p), q)} :: q != p ==> Line(Taken(x, p), q) == Line(x, q)
  {
    if p in x.retained {
      assert Line(x, p)[0] == x.retained[p] && Line(x, p)[1] == x.channels[p][0];
    }
    assert [x.channels[p][0]] + x.channels[p][1..] == x.channels[p];
  }

  lemma SuffixIsOrdered(line: seq<News>, tail: seq<News>)
    requires Ordered(line) && |tail| <= |line| && tail == line[|line| - |tail|..]
    ensures Ordered(tail)
  {
    var d := |line| - |tail|;
    forall i, j | 0 <= i < j < |tail| ensures tail[i].sequence < tail[j].sequence || tail[i] == tail[j] {
      assert tail[i] == line[d + i] && tail[j] == line[d + j];
    }
  }

  lemma ChannelEndsLine(x: State, p: Link)
    requires p in x.channels && x.channels[p] != []
    ensures var (line, ch) := (Line(x, p), x.channels[p]);
      |ch| <= |line| && ch == line[|line| - |ch|..] && line[|line| - 1] == ch[|ch| - 1]
  {
    assert Line(x, p)[|Line(x, p)| - |x.channels[p]|..] == x.channels[p];
  }

  lemma TakingKeepsOrderAt(x: State, p: Link, q: Link)
    requires p in x.channels && x.channels[p] != [] && InOrder(x, p) && InOrder(x, q)
    ensures InOrder(Taken(x, p), q)
  {
    TakenIsRetained(x, p);
    if p == q {
      ChannelEndsLine(x, p);
      hide Ordered, Line;
      SuffixIsOrdered(Line(x, p), x.channels[p]);
    } else {
      hide Ordered, Line;
      assert Line(Taken(x, p), q) == Line(x, q);
    }
  }

  lemma TakingKeepsOrder(g: Graph, x: State, p: Link)
    requires g.WellFormed() && AllInOrder(g, x) && p in g.links && x.channels[p] != []
    ensures AllInOrder(g, Taken(x, p))
  {
    hide InOrder;
    forall q | q in g.links ensures InOrder(Taken(x, p), q) {
      assert InOrder(x, p) && InOrder(x, q);
      TakingKeepsOrderAt(x, p, q);
    }
  }

  // One more announcement, of the same or a higher number than all before it.
  lemma LongerIsOrdered(line: seq<News>, news: News)
    requires Ordered(line)
    requires line != [] ==> line[|line| - 1] == news || line[|line| - 1].sequence < news.sequence
    ensures Ordered(line + [news])
  {
    var longer := line + [news];
    forall i, j | 0 <= i < j < |longer| ensures longer[i].sequence < longer[j].sequence || longer[i] == longer[j] {
      if j == |line| {
        assert i < |line| - 1 ==> line[i].sequence < line[|line| - 1].sequence || line[i] == line[|line| - 1];
      }
    }
  }

  lemma PutAtEnd(x: State, y: State, p: Link, news: News)
    requires p in x.channels && p in y.channels && y.channels[p] == x.channels[p] + [news]
    requires p in x.retained <==> p in y.retained
    requires p in x.retained ==> x.retained[p] == y.retained[p]
    ensures Line(y, p) == Line(x, p) + [news]
  {
  }

  // x's news from one node, renumbered or not, announced on some of its links.
  lemma AnnouncingKeepsOrderAt(x: State, y: State, q: Link)
    requires InOrder(x, q) && q.0 in y.sequences && q.0 in y.coords
    requires Current(y, q.0) == Current(x, q.0) || x.sequences[q.0] < y.sequences[q.0]
    requires Line(y, q) == Line(x, q) + [Current(y, q.0)] || (Line(y, q) == Line(x, q) && Current(y, q.0) == Current(x, q.0))
    ensures InOrder(y, q)
  {
    LongerIsOrdered(Line(x, q), Current(y, q.0));
    hide Line, Ordered;
  }

  lemma PuttingKeepsOrder(g: Graph, x: State, p: Link)
    requires g.WellFormed() && AllInOrder(g, x) && p in g.links
    ensures p.0 in x.sequences && p.0 in x.coords && p in x.channels && AllInOrder(g, Put(x, p))
  {
    assert g.Linked(p.0, p.1);
    var y := Put(x, p);
    PutAtEnd(x, y, p, Current(x, p.0));
    hide InOrder;
    forall q | q in g.links ensures InOrder(y, q) {
      assert InOrder(x, q);
      assert g.Linked(q.0, q.1);
      assert q != p ==> Line(y, q) == Line(x, q);
      AnnouncingKeepsOrderAt(x, y, q);
    }
  }

  lemma SettledIsWellFormed(g: Graph, x: State, v: NodeAddr)
    requires WellFormed(g, x) && v in g.nodes
    ensures WellFormed(g, Settled(g, x, v))
  {
    hide Elected;
  }

  // What an election sends on one link.
  lemma SettledLine(g: Graph, x: State, v: NodeAddr, q: Link)
    requires WellFormed(g, x) && v in g.nodes && q in g.links && q.0 in g.nodes
    ensures var y := Settled(g, x, v);
      && q.0 in y.sequences && q.0 in y.coords && y.retained == x.retained
      && (|| (Line(y, q) == Line(x, q) && Current(y, q.0) == Current(x, q.0))
          || (Line(y, q) == Line(x, q) + [Current(y, q.0)] && x.sequences[q.0] < y.sequences[q.0]))
  {
    hide Elected;
    var y := Settled(g, x, v);
    if q.0 == v && y != x {
      PutAtEnd(x, y, q, Current(y, v));
    } else {
      assert Line(y, q) == Line(x, q);
    }
  }

  lemma SettlingKeepsOrder(g: Graph, x: State, v: NodeAddr)
    requires g.WellFormed() && AllInOrder(g, x) && v in g.nodes
    ensures AllInOrder(g, Settled(g, x, v))
  {
    hide InOrder, Settled;
    SettledIsWellFormed(g, x, v);
    forall q | q in g.links ensures InOrder(Settled(g, x, v), q) {
      assert InOrder(x, q);
      assert g.Linked(q.0, q.1);
      SettledLine(g, x, v, q);
      AnnouncingKeepsOrderAt(x, Settled(g, x, v), q);
    }
  }

  lemma SettlingElects(g: Graph, x: State, v: NodeAddr)
    requires WellFormed(g, x) && v in g.nodes
    requires forall w {:trigger Elected(g, x, w)} :: w in g.nodes && w != v ==> x.coords[w] == Elected(g, x, w)
    ensures AllElected(g, Settled(g, x, v))
  {
    SettledIs(g, x, v);
    hide Settled, Elected;
    var y := Settled(g, x, v);
    forall w | w in g.nodes ensures w in y.coords && y.coords[w] == Elected(g, y, w) {
      SameRetained(g, x, y, w);
    }
  }

  lemma SettledIs(g: Graph, x: State, v: NodeAddr)
    requires WellFormed(g, x) && v in g.nodes
    ensures var y := Settled(g, x, v); y.retained == x.retained && y.coords == x.coords[v := Elected(g, x, v)]
  {
    hide Elected;
  }

  // An election looks at what is retained only.
  lemma SameRetained(g: Graph, x: State, y: State, w: NodeAddr)
    requires x.retained == y.retained
    ensures Elected(g, y, w) == Elected(g, x, w)
  {
    assert TableAt(g, y, w) == TableAt(g, x, w);
    hide Elect;
  }

  // Taking an announcement at one end concerns no other node's election.
  lemma TakingKeepsOthers(g: Graph, x: State, p: Link, w: NodeAddr)
    requires p in x.channels && x.channels[p] != [] && w != p.1
    ensures Elected(g, Taken(x, p), w) == Elected(g, x, w)
  {
    assert TableAt(g, Taken(x, p), w) == TableAt(g, x, w);
    hide Elect;
  }

  lemma StepKeepsInvariant(g: Graph, x: State, e: Event)
    requires g.WellFormed() && Invariant(g, x) && Possible(g, x, e)
    ensures Invariant(g, Next(g, x, e))
  {
    assert g.Linked(e.link.0, e.link.1);
    match e {
      case Delivers(p) =>
        var y := Taken(x, p);
        TakingKeepsOrder(g, x, p);
        SettlingKeepsOrder(g, y, p.1);
        forall w | w in g.nodes && w != p.1 ensures y.coords[w] == Elected(g, y, w) {
          TakingKeepsOthers(g, x, p, w);
          assert x.coords[w] == Elected(g, x, w);
        }
        SettlingElects(g, y, p.1);
      case Announces(p) =>
        PuttingKeepsOrder(g, x, p);
        var y := Put(x, p);
        forall w | w in g.nodes ensures w in y.coords && y.coords[w] == Elected(g, y, w) {
          SameRetained(g, x, y, w);
          assert x.coords[w] == Elected(g, x, w);
        }
    }
  }

  // ---- How near coordinates are to the final ones ----

  // The tree that self-rooted nodes elect in rounds; one more round changes nothing.
  ghost predicate Final(g: Graph, final: Network, r: NodeAddr) {
    && g.ConnectedGraph() && Least(g, r) && AllSound(g, final) && IsRound(g, final, final)
    && forall v {:trigger final[v]} :: v in g.nodes ==> g.ShortestPath(final[v], v, r)
  }

  // First the entries that may name missing nodes are pushed out; then nodes reach their final coordinates, the nearest to
  // the least address first.
  ghost predicate Within(g: Graph, final: Network, r: NodeAddr, k: nat, v: NodeAddr, c: Coords) {
    if k < |g.nodes| then Grounded(g, k, v, c) else Sound(g, v, c) && FinalWithin(g, final, r, k - |g.nodes|, v, c)
  }

  ghost predicate FinalWithin(g: Graph, final: Network, r: NodeAddr, j: nat, v: NodeAddr, c: Coords) {
    forall p {:trigger g.ShortestPath(p, v, r)} :: g.ShortestPath(p, v, r) && |p| <= j ==> v in final && c == final[v]
  }

  lemma {:induction false} ChainPrefix(g: Graph, c: Coords, m: nat)
    requires g.Chain(c) && m <= |c|
    ensures g.Chain(c[..m])
  {
    if m > 0 {
      ChainPrefix(g, c[1..], m - 1);
      assert c[..m][1..] == c[1..][..m - 1];
    }
  }

  lemma SoundIsGrounded(g: Graph, t: nat, v: NodeAddr, c: Coords)
    requires Sound(g, v, c)
    ensures Grounded(g, t, v, c)
  {
    ChainPrefix(g, c, Min(|c|, t + 1));
  }

  lemma WithinLess(g: Graph, final: Network, r: NodeAddr, k: nat, v: NodeAddr, c: Coords)
    requires Within(g, final, r, k + 1, v, c)
    ensures Within(g, final, r, k, v, c)
  {
    if k + 1 < |g.nodes| {
      var longer := c[..Min(|c|, k + 2)];
      ChainPrefix(g, longer, Min(|c|, k + 1));
      assert longer[..Min(|c|, k + 1)] == c[..Min(|c|, k + 1)];
    } else if k + 1 == |g.nodes| {
      SoundIsGrounded(g, k, v, c);
    }
  }

  lemma RoundKeepsSound(g: Graph, net: Network, next: Network)
    requires g.WellFormed() && AllSound(g, net) && IsRound(g, net, next)
    ensures AllSound(g, next)
  {
    var t := |g.nodes|;
    forall v | v in g.nodes ensures Grounded(g, t, v, net[v]) {
      assert Sound(g, v, net[v]);
      SoundIsGrounded(g, t, v, net[v]);
    }
    RoundGrounds(g, t, net, next);
    forall v | v in g.nodes ensures Sound(g, v, next[v]) {
      assert Grounded(g, t + 1, v, next[v]) && Root(next[v]) <= v;
      DeepIsSound(g, t + 1, v, next[v]);
    }
  }

  // The network in which the neighbours of v hold what it heard from them, and everybody else is final.
  ghost function Completed(g: Graph, final: Network, table: Table): Network
    requires g.nodes == final.Keys
  {
    map w | w in g.nodes :: if w in table then table[w] else final[w]
  }

  ghost predicate TableWithin(g: Graph, final: Network, r: NodeAddr, k: nat, table: Table) {
    forall u {:trigger table[u]} :: u in table ==> Within(g, final, r, k, u, table[u])
  }

  lemma CompletedAt(g: Graph, final: Network, r: NodeAddr, j: nat, table: Table, u: NodeAddr)
    requires g.nodes == final.Keys && u in g.nodes && Sound(g, u, final[u]) && TableWithin(g, final, r, |g.nodes| + j, table)
    ensures var c := Completed(g, final, table)[u]; Sound(g, u, c) && FinalWithin(g, final, r, j, u, c)
  {
    hide Sound;
    if u in table {
      assert Within(g, final, r, |g.nodes| + j, u, table[u]);
    }
  }

  lemma CompletedIsHeard(g: Graph, final: Network, v: NodeAddr, table: Table)
    requires g.nodes == final.Keys && table.Keys == g.Neighbours(v)
    ensures Heard(g, Completed(g, final, table), v) == table
  {
  }

  lemma FinalIsNear(g: Graph, final: Network, r: NodeAddr, j: nat, net: Network)
    requires Final(g, final, r) && g.nodes == net.Keys && j > 0
    requires forall u {:trigger net[u]} :: u in g.nodes ==> FinalWithin(g, final, r, j, u, net[u])
    ensures Near(g, r, j - 1, net) && AgreeWithin(g, r, j - 1, net, final)
  {
    assert g.nodes == final.Keys;
    hide g.ShortestPath, g.ConnectedGraph, IsRound, AllSound, Least;
    forall u, p {:trigger g.ShortestPath(p, u, r)} | u in g.nodes && g.ShortestPath(p, u, r) && |p| <= j
      ensures net[u] == final[u] && g.ShortestPath(net[u], u, r)
    {
      assert FinalWithin(g, final, r, j, u, net[u]);
    }
  }

  lemma FinalIsSound(g: Graph, final: Network, r: NodeAddr)
    requires Final(g, final, r)
    ensures AllSound(g, final)
  {
  }

  lemma CompletedIsSound(g: Graph, final: Network, r: NodeAddr, j: nat, table: Table)
    requires AllSound(g, final) && TableWithin(g, final, r, |g.nodes| + j, table)
    ensures AllSound(g, Completed(g, final, table))
    ensures var net := Completed(g, final, table);
      forall u {:trigger net[u]} :: u in g.nodes ==> FinalWithin(g, final, r, j, u, net[u])
  {
    var net := Completed(g, final, table);
    assert g.nodes == net.Keys;
    hide Sound, FinalWithin, TableWithin, Completed;
    forall u | u in g.nodes ensures Sound(g, u, net[u]) && FinalWithin(g, final, r, j, u, net[u]) {
      assert Sound(g, u, final[u]);
      CompletedAt(g, final, r, j, table, u);
    }
  }

  lemma CompletedIsNear(g: Graph, final: Network, r: NodeAddr, j: nat, v: NodeAddr, table: Table)
    requires Final(g, final, r) && v in g.nodes && table.Keys == g.Neighbours(v)
    requires TableWithin(g, final, r, |g.nodes| + j, table)
    ensures g.nodes == final.Keys
    ensures var net := Completed(g, final, table);
      && AllSound(g, net) && Heard(g, net, v) == table
      && (j > 0 ==> Near(g, r, j - 1, net) && AgreeWithin(g, r, j - 1, net, final))
  {
    FinalIsSound(g, final, r);
    assert g.nodes == final.Keys == Completed(g, final, table).Keys;
    hide Sound, FinalWithin, TableWithin, Completed, Near, AgreeWithin, Heard, Final, AllSound;
    CompletedIsSound(g, final, r, j, table);
    CompletedIsHeard(g, final, v, table);
    if j > 0 {
      FinalIsNear(g, final, r, j, Completed(g, final, table));
    }
  }

  lemma ElectedIsFinal(g: Graph, final: Network, r: NodeAddr, j: nat, net: Network, next: Network, v: NodeAddr, p: Coords)
    requires Final(g, final, r) && v in g.nodes && AllSound(g, net) && IsRound(g, net, next) && AllSound(g, next)
    requires j > 0 ==> Near(g, r, j - 1, net) && AgreeWithin(g, r, j - 1, net, final)
    requires g.ShortestPath(p, v, r) && |p| <= j + 1
    ensures v in final && next[v] == final[v]
  {
    if |p| == 1 {
      LeastIsItsRoot(g, r, next, v, p);
      LeastIsItsRoot(g, r, final, v, p);
    } else {
      RoundReachesFurther(g, r, j - 1, net, next);
      assert g.ShortestPath(final[v], v, r) && g.ShortestPath(next[v], v, r);
      AgreementSpreads(g, r, j - 1, net, next, final, final, v, p);
    }
  }

  lemma ElectsDeeper(g: Graph, final: Network, r: NodeAddr, k: nat, v: NodeAddr, table: Table)
    requires g.WellFormed() && v in g.nodes && table.Keys <= g.Neighbours(v) && TableWithin(g, final, r, k, table)
    requires k < |g.nodes|
    ensures Within(g, final, r, k + 1, v, Elect(v, table))
  {
    hide Grounded, Sound, Elect, FinalWithin;
    forall u | u in table ensures Grounded(g, k, u, table[u]) {
      assert Within(g, final, r, k, u, table[u]);
    }
    ElectedIsGrounded(g, k, v, table);
    if k + 1 == |g.nodes| {
      DeepIsSound(g, k + 1, v, Elect(v, table));
      NoPathIsEmpty(g, final, r, v, Elect(v, table));
    }
  }

  lemma FinalIsWellFormed(g: Graph, final: Network, r: NodeAddr)
    requires Final(g, final, r)
    ensures g.WellFormed()
  {
  }

  lemma NoPathIsEmpty(g: Graph, final: Network, r: NodeAddr, v: NodeAddr, c: Coords)
    ensures FinalWithin(g, final, r, 0, v, c)
  {
  }

  lemma ElectsFinal(g: Graph, final: Network, r: NodeAddr, j: nat, v: NodeAddr, table: Table)
    requires Final(g, final, r) && v in g.nodes && table.Keys == g.Neighbours(v) && TableWithin(g, final, r, |g.nodes| + j, table)
    ensures Within(g, final, r, |g.nodes| + j + 1, v, Elect(v, table))
  {
    CompletedIsNear(g, final, r, j, v, table);
    var net := Completed(g, final, table);
    var next := RoundOf(g, net);
    FinalIsWellFormed(g, final, r);
    hide Within, TableWithin, Completed, Near, AgreeWithin, AllSound, Elect, Final, Heard, IsRound;
    RoundKeepsSound(g, net, next);
    NextIsElected(g, net, next, v);
    forall p {:trigger g.ShortestPath(p, v, r)} | g.ShortestPath(p, v, r) && |p| <= j + 1
      ensures v in final && next[v] == final[v]
    {
      ElectedIsFinal(g, final, r, j, net, next, v, p);
    }
    BothWithin(g, final, r, |g.nodes| + j + 1, v, next);
  }

  // What a node elects over neighbours at one level is at the next.
  lemma ElectsNearer(g: Graph, final: Network, r: NodeAddr, k: nat, v: NodeAddr, table: Table)
    requires Final(g, final, r) && v in g.nodes && table.Keys <= g.Neighbours(v) && TableWithin(g, final, r, k, table)
    requires k >= |g.nodes| ==> table.Keys == g.Neighbours(v)
    ensures Within(g, final, r, k + 1, v, Elect(v, table))
  {
    hide Final, Within, TableWithin, Elect;
    if k < |g.nodes| {
      FinalIsWellFormed(g, final, r);
      ElectsDeeper(g, final, r, k, v, table);
    } else {
      ElectsFinal(g, final, r, k - |g.nodes|, v, table);
    }
  }

  lemma NextIsElected(g: Graph, net: Network, next: Network, v: NodeAddr)
    requires IsRound(g, net, next) && v in g.nodes
    ensures g.nodes == net.Keys == next.Keys && next[v] == Elect(v, Heard(g, net, v))
  {
    assert HoldsElection(g, net, next, v);
  }

  lemma BothWithin(g: Graph, final: Network, r: NodeAddr, k: nat, v: NodeAddr, next: Network)
    requires k >= |g.nodes| && AllSound(g, next) && v in g.nodes && FinalWithin(g, final, r, k - |g.nodes|, v, next[v])
    ensures Within(g, final, r, k, v, next[v])
  {
    assert Sound(g, v, next[v]);
  }

  // ---- Levels of the whole state ----

  // The coordinates of one link's news, all at a level.
  ghost predicate NewsWithin(g: Graph, final: Network, r: NodeAddr, k: nat, u: NodeAddr, news: seq<News>) {
    forall i {:trigger news[i]} :: 0 <= i < |news| ==> Within(g, final, r, k, u, news[i].coords)
  }

  ghost predicate LinkWithin(g: Graph, final: Network, r: NodeAddr, k: nat, x: State, p: Link) {
    NewsWithin(g, final, r, k, p.0, Line(x, p)) && (k > 0 ==> p in x.retained)
  }

  ghost predicate Level(g: Graph, final: Network, r: NodeAddr, k: nat, x: State) {
    forall p {:trigger LinkWithin(g, final, r, k, x, p)} :: p in g.links ==> LinkWithin(g, final, r, k, x, p)
  }

  // In a state at one level, every node's election is already at the next.
  lemma LevelElects(g: Graph, final: Network, r: NodeAddr, k: nat, x: State, v: NodeAddr)
    requires Final(g, final, r) && WellFormed(g, x) && Level(g, final, r, k, x) && v in g.nodes
    ensures Within(g, final, r, k + 1, v, Elected(g, x, v))
  {
    FinalIsWellFormed(g, final, r);
    LeastIsThere(g, r);
    hide Final, Within, Elect;
    var table := TableAt(g, x, v);
    forall u | u in g.Neighbours(v) ensures (k > 0 ==> u in table) && (u in table ==> Within(g, final, r, k, u, table[u])) {
      assert g.Linked(u, v) by {
        assert g.Linked(v, u);
      }
      assert LinkWithin(g, final, r, k, x, (u, v));
      if u in table {
        assert Line(x, (u, v))[0] == x.retained[(u, v)];
      }
    }
    ElectsNearer(g, final, r, k, v, table);
  }

  // `left` announcements of a link are still to be taken; the last of them is at the next level already, and so is all that
  // follows.
  ghost predicate Renewed(g: Graph, final: Network, r: NodeAddr, k: nat, x: State, p: Link, left: nat) {
    && p in x.channels && left <= |x.channels[p]|
    && (if left == 0 then
          && p in x.retained && Within(g, final, r, k + 1, p.0, x.retained[p].coords)
          && NewsWithin(g, final, r, k + 1, p.0, x.channels[p])
        else NewsWithin(g, final, r, k + 1, p.0, x.channels[p][left - 1..]))
  }

  ghost predicate AllRenewed(g: Graph, final: Network, r: NodeAddr, k: nat, x: State, left: map<Link, nat>) {
    g.links <= left.Keys && forall p {:trigger left[p]} :: p in g.links ==> Renewed(g, final, r, k, x, p, left[p])
  }

  lemma PhaseStarts(g: Graph, final: Network, r: NodeAddr, k: nat, x: State, p: Link)
    requires Final(g, final, r) && Invariant(g, x) && Level(g, final, r, k, x) && p in g.links
    ensures p in x.channels && Renewed(g, final, r, k, x, p, |x.channels[p]|)
  {
    assert InOrder(x, p);
    assert p.0 in g.nodes && x.coords[p.0] == Elected(g, x, p.0);
    LevelElects(g, final, r, k, x, p.0);
    hide Final, Within, Level;
    var n := |x.channels[p]|;
    if n > 0 {
      assert x.channels[p][n - 1..] == [Current(x, p.0)];
    } else {
      assert Line(x, p) == [x.retained[p]];
    }
  }

  function OneLess(left: nat): nat {
    if left > 0 then left - 1 else 0
  }

  lemma TakingRenews(g: Graph, final: Network, r: NodeAddr, k: nat, x: State, p: Link, q: Link, left: nat)
    requires p in x.channels && x.channels[p] != [] && Ordered(Line(x, p)) && Renewed(g, final, r, k, x, q, left)
    ensures Renewed(g, final, r, k, Taken(x, p), q, if p == q then OneLess(left) else left)
  {
    TakenIsRetained(x, p);
    hide Within, Ordered, Line;
    if p == q {
      var ch := x.channels[p];
      if left > 1 {
        assert ch[1..][left - 2..] == ch[left - 1..];
      } else if left == 1 {
        assert ch[0..] == ch;
      }
    }
  }

  lemma LongerIsRenewed(g: Graph, final: Network, r: NodeAddr, k: nat, x: State, y: State, q: Link, left: nat)
    requires Renewed(g, final, r, k, x, q, left) && q in y.channels && q.0 in y.sequences && q.0 in y.coords
    requires q in x.retained ==> q in y.retained && y.retained[q] == x.retained[q]
    requires y.channels[q] == x.channels[q]
      || (y.channels[q] == x.channels[q] + [Current(y, q.0)] && Within(g, final, r, k + 1, q.0, Current(y, q.0).coords))
    ensures Renewed(g, final, r, k, y, q, left)
  {
    hide Within;
    if y.channels[q] != x.channels[q] && left > 0 {
      var ch := x.channels[q];
      assert y.channels[q][left - 1..] == ch[left - 1..] + [Current(y, q.0)];
    }
  }

  function Remaining(left: map<Link, nat>, e: Event): map<Link, nat> {
    if e.Delivers? && e.link in left then left[e.link := OneLess(left[e.link])] else left
  }

  lemma TakingKeepsLevel(g: Graph, final: Network, r: NodeAddr, k: nat, x: State, p: Link, q: Link)
    requires p in x.channels && x.channels[p] != [] && Ordered(Line(x, p)) && LinkWithin(g, final, r, k, x, q)
    ensures LinkWithin(g, final, r, k, Taken(x, p), q)
  {
    TakenIsRetained(x, p);
    hide Within, Ordered;
    if p == q {
      var d := |Line(x, p)| - |x.channels[p]|;
      assert forall i :: 0 <= i < |x.channels[p]| ==> x.channels[p][i] == Line(x, p)[d + i];
    }
  }

  lemma LongerKeepsLevel(g: Graph, final: Network, r: NodeAddr, k: nat, x: State, y: State, q: Link)
    requires LinkWithin(g, final, r, k, x, q) && q.0 in y.sequences && q.0 in y.coords && y.retained == x.retained
    requires Line(y, q) == Line(x, q)
      || (Line(y, q) == Line(x, q) + [Current(y, q.0)] && Within(g, final, r, k + 1, q.0, Current(y, q.0).coords))
    ensures LinkWithin(g, final, r, k, y, q)
  {
    hide Within, Line;
    if Line(y, q) != Line(x, q) {
      WithinLess(g, final, r, k, q.0, Current(y, q.0).coords);
    }
  }

  // Where a node announces coordinates that are at the next level, links stay at theirs.
  lemma SendingAdvances(g: Graph, final: Network, r: NodeAddr, k: nat, x: State, y: State, q: Link, left: nat)
    requires LinkWithin(g, final, r, k, x, q) && Renewed(g, final, r, k, x, q, left)
    requires q in y.channels && q.0 in y.sequences && q.0 in y.coords && y.retained == x.retained
    requires y.channels[q] == x.channels[q]
      || (y.channels[q] == x.channels[q] + [Current(y, q.0)] && Within(g, final, r, k + 1, q.0, Current(y, q.0).coords))
    ensures LinkWithin(g, final, r, k, y, q) && Renewed(g, final, r, k, y, q, left)
  {
    LongerIsRenewed(g, final, r, k, x, y, q, left);
    if y.channels[q] != x.channels[q] {
      PutAtEnd(x, y, q, Current(y, q.0));
    } else {
      assert Line(y, q) == Line(x, q);
    }
    hide Within, Line, Renewed, LinkWithin;
    LongerKeepsLevel(g, final, r, k, x, y, q);
  }

  ghost predicate Advancing(g: Graph, final: Network, r: NodeAddr, k: nat, x: State, left: map<Link, nat>) {
    Final(g, final, r) && Invariant(g, x) && Level(g, final, r, k, x) && AllRenewed(g, final, r, k, x, left)
  }

  lemma TakingAdvances(g: Graph, final: Network, r: NodeAddr, k: nat, x: State, left: map<Link, nat>, p: Link)
    requires Advancing(g, final, r, k, x, left) && p in g.links && p in x.channels && x.channels[p] != []
    ensures Level(g, final, r, k, Taken(x, p)) && AllRenewed(g, final, r, k, Taken(x, p), Remaining(left, Delivers(p)))
  {
    var after := Remaining(left, Delivers(p));
    assert InOrder(x, p);
    hide Final, LinkWithin, Renewed, Taken, AllElected, Line, Ordered;
    forall q | q in g.links
      ensures LinkWithin(g, final, r, k, Taken(x, p), q) && q in after && Renewed(g, final, r, k, Taken(x, p), q, after[q])
    {
      assert LinkWithin(g, final, r, k, x, q) && Renewed(g, final, r, k, x, q, left[q]);
      TakingKeepsLevel(g, final, r, k, x, p, q);
      TakingRenews(g, final, r, k, x, p, q, left[q]);
    }
  }

  lemma SettlingAdvances(g: Graph, final: Network, r: NodeAddr, k: nat, x: State, left: map<Link, nat>, v: NodeAddr)
    requires Final(g, final, r) && WellFormed(g, x) && v in g.nodes
    requires Level(g, final, r, k, x) && AllRenewed(g, final, r, k, x, left)
    ensures Level(g, final, r, k, Settled(g, x, v)) && AllRenewed(g, final, r, k, Settled(g, x, v), left)
  {
    LevelElects(g, final, r, k, x, v);
    FinalIsWellFormed(g, final, r);
    var y := Settled(g, x, v);
    hide Final, LinkWithin, Renewed, Elected, Within;
    forall q | q in g.links ensures LinkWithin(g, final, r, k, y, q) && q in left && Renewed(g, final, r, k, y, q, left[q]) {
      assert g.Linked(q.0, q.1);
      assert LinkWithin(g, final, r, k, x, q) && Renewed(g, final, r, k, x, q, left[q]);
      SendingAdvances(g, final, r, k, x, y, q, left[q]);
    }
  }

  lemma PuttingAdvances(g: Graph, final: Network, r: NodeAddr, k: nat, x: State, left: map<Link, nat>, p: Link)
    requires Advancing(g, final, r, k, x, left) && p in g.links
    ensures p.0 in x.sequences && p.0 in x.coords && p in x.channels
    ensures Level(g, final, r, k, Put(x, p)) && AllRenewed(g, final, r, k, Put(x, p), left)
  {
    FinalIsWellFormed(g, final, r);
    assert g.Linked(p.0, p.1);
    LevelElects(g, final, r, k, x, p.0);
    assert x.coords[p.0] == Elected(g, x, p.0);
    var y := Put(x, p);
    hide Final, LinkWithin, Renewed, Elected, Within, AllInOrder;
    forall q | q in g.links ensures LinkWithin(g, final, r, k, y, q) && q in left && Renewed(g, final, r, k, y, q, left[q]) {
      assert g.Linked(q.0, q.1);
      assert LinkWithin(g, final, r, k, x, q) && Renewed(g, final, r, k, x, q, left[q]);
      SendingAdvances(g, final, r, k, x, y, q, left[q]);
    }
  }

  lemma StepAdvances(g: Graph, final: Network, r: NodeAddr, k: nat, x: State, left: map<Link, nat>, e: Event)
    requires g.WellFormed() && Advancing(g, final, r, k, x, left) && Possible(g, x, e)
    ensures Advancing(g, final, r, k, Next(g, x, e), Remaining(left, e))
  {
    StepKeepsInvariant(g, x, e);
    assert g.Linked(e.link.0, e.link.1);
    match e {
      case Delivers(p) =>
        TakingAdvances(g, final, r, k, x, left, p);
        TakingKeepsOrder(g, x, p);
        hide Final, Level, AllRenewed, AllElected, Taken, Settled;
        SettlingAdvances(g, final, r, k, Taken(x, p), Remaining(left, e), p.1);
      case Announces(p) =>
        hide Final, Level, AllRenewed, Put;
        PuttingAdvances(g, final, r, k, x, left, p);
    }
  }

  // ---- Phases ----

  function Deliveries(events: seq<Event>, p: Link): nat {
    if events == [] then 0 else (if events[0] == Delivers(p) then 1 else 0) + Deliveries(events[1..], p)
  }

  // Everything in flight at the beginning is delivered.
  ghost predicate Drains(g: Graph, x: State, events: seq<Event>) {
    forall p {:trigger x.channels[p]} :: p in g.links && p in x.channels ==> |x.channels[p]| <= Deliveries(events, p)
  }

  ghost predicate Enough(g: Graph, left: map<Link, nat>, events: seq<Event>) {
    forall p {:trigger left[p]} :: p in g.links && p in left ==> left[p] <= Deliveries(events, p)
  }

  lemma EnoughRemains(g: Graph, left: map<Link, nat>, events: seq<Event>)
    requires events != [] && Enough(g, left, events)
    ensures Enough(g, Remaining(left, events[0]), events[1..])
  {
    var after := Remaining(left, events[0]);
    forall p | p in g.links && p in after ensures after[p] <= Deliveries(events[1..], p) {
      assert left[p] <= Deliveries(events, p);
    }
  }

  lemma {:induction false} RunAdvances(
    g: Graph, final: Network, r: NodeAddr, k: nat, x: State, left: map<Link, nat>, events: seq<Event>, end: State)
    requires g.WellFormed() && Advancing(g, final, r, k, x, left) && Run(g, x, events, end) && Enough(g, left, events)
    ensures Final(g, final, r) && Invariant(g, end) && Level(g, final, r, k + 1, end)
    decreases |events|
  {
    if events == [] {
      AllTaken(g, final, r, k, x, left);
    } else {
      hide Advancing, Enough, Possible, Remaining, Final, Invariant, Level;
      StepAdvances(g, final, r, k, x, left, events[0]);
      EnoughRemains(g, left, events);
      RunAdvances(g, final, r, k, Next(g, x, events[0]), Remaining(left, events[0]), events[1..], end);
    }
  }

  lemma AllTaken(g: Graph, final: Network, r: NodeAddr, k: nat, x: State, left: map<Link, nat>)
    requires AllRenewed(g, final, r, k, x, left) && Enough(g, left, [])
    ensures Level(g, final, r, k + 1, x)
  {
    hide Within;
    forall p | p in g.links ensures LinkWithin(g, final, r, k + 1, x, p) {
      assert left[p] == 0 && Renewed(g, final, r, k, x, p, 0);
    }
  }

  // Every phase brings the whole state one level further.
  lemma PhaseAdvances(g: Graph, final: Network, r: NodeAddr, k: nat, x: State, events: seq<Event>, end: State)
    requires g.WellFormed() && Final(g, final, r) && Invariant(g, x) && Level(g, final, r, k, x)
    requires Run(g, x, events, end) && Drains(g, x, events)
    ensures Invariant(g, end) && Level(g, final, r, k + 1, end)
  {
    var left := map p | p in x.channels :: |x.channels[p]|;
    hide Final, Level, Renewed, Run;
    forall p | p in g.links ensures p in left && Renewed(g, final, r, k, x, p, left[p]) {
      PhaseStarts(g, final, r, k, x, p);
    }
    RunAdvances(g, final, r, k, x, left, events, end);
  }

  // Nothing that is delivered or announced ever takes a level back.
  lemma {:induction false} LevelStays(g: Graph, final: Network, r: NodeAddr, k: nat, x: State, events: seq<Event>, end: State)
    requires g.WellFormed() && Final(g, final, r) && Invariant(g, x) && Level(g, final, r, k, x) && Run(g, x, events, end)
    ensures Invariant(g, end) && Level(g, final, r, k, end)
    decreases |events|
  {
    hide Final, Level, Renewed;
    if events != [] {
      var left := map p | p in x.channels :: |x.channels[p]|;
      forall p | p in g.links ensures p in left && Renewed(g, final, r, k, x, p, left[p]) {
        PhaseStarts(g, final, r, k, x, p);
      }
      hide Invariant, Possible;
      StepAdvances(g, final, r, k, x, left, events[0]);
      LevelStays(g, final, r, k, Next(g, x, events[0]), events[1..], end);
    }
  }

  // Coordinates are elected; what is retained and in flight may name nodes that are gone, but starts with its sender and
  // repeats no node.
  ghost predicate Start(g: Graph, x: State) {
    Invariant(g, x) && forall p, i {:trigger Line(x, p)[i]} :: p in g.links && 0 <= i < |Line(x, p)| ==>
      Line(x, p)[i].coords[0] == p.0 && NoRepeats(Line(x, p)[i].coords)
  }

  lemma StartIsLevel(g: Graph, final: Network, r: NodeAddr, x: State)
    requires Final(g, final, r) && Start(g, x)
    ensures Level(g, final, r, 0, x)
  {
    FinalIsWellFormed(g, final, r);
    LeastIsThere(g, r);
    hide Final, Invariant;
    forall p | p in g.links ensures LinkWithin(g, final, r, 0, x, p) {
      assert g.Linked(p.0, p.1);
      forall i {:trigger Line(x, p)[i]} | 0 <= i < |Line(x, p)| ensures Within(g, final, r, 0, p.0, Line(x, p)[i].coords) {
        var c := Line(x, p)[i].coords;
        assert c[..1] == [p.0];
      }
    }
  }

  // All nodes on their own, each with its first announcement on the way to its neighbours.
  function Fresh(g: Graph): State {
    State(map v | v in g.nodes :: 1, map v | v in g.nodes :: [v], map[], map p | p in g.links :: [News(1, [p.0])])
  }

  lemma FreshIsInOrder(g: Graph, p: Link)
    requires g.WellFormed() && p in g.links
    ensures InOrder(Fresh(g), p) && Line(Fresh(g), p) == [News(1, [p.0])]
  {
    assert g.Linked(p.0, p.1);
  }

  lemma FreshIsElected(g: Graph, v: NodeAddr)
    requires v in g.nodes
    ensures Fresh(g).coords[v] == Elected(g, Fresh(g), v)
  {
    assert TableAt(g, Fresh(g), v) == map[];
    ElectionOutcome(v, TableAt(g, Fresh(g), v));
    hide Elect;
  }

  lemma FreshIsWellFormed(g: Graph)
    ensures WellFormed(g, Fresh(g))
  {
  }

  lemma FreshIsStart(g: Graph)
    requires g.WellFormed()
    ensures Start(g, Fresh(g))
  {
    hide Fresh, Elected, InOrder, Line, WellFormed;
    FreshIsWellFormed(g);
    forall p | p in g.links ensures InOrder(Fresh(g), p) && Line(Fresh(g), p) == [News(1, [p.0])] {
      FreshIsInOrder(g, p);
    }
    forall v | v in g.nodes ensures v in Fresh(g).coords && Fresh(g).coords[v] == Elected(g, Fresh(g), v) {
      NodesHaveCoords(g, Fresh(g));
      FreshIsElected(g, v);
    }
  }

  lemma NodesHaveCoords(g: Graph, x: State)
    requires WellFormed(g, x)
    ensures x.coords.Keys == g.nodes
  {
  }

  lemma FirstIsFinal(g: Graph, first: seq<Network>, r: NodeAddr)
    requires g.ConnectedGraph() && Execution(g, first) && Least(g, r) && |g.nodes| < |first|
    ensures |g.nodes| > 0 && Final(g, first[|g.nodes| - 1], r)
  {
    LeastIsThere(g, r);
    var n := |g.nodes|;
    FirstStartIsSound(g, first);
    assert SoundAt(g, first, n - 1) && RoundAt(g, first, n);
    hide Execution, Least, g.ConnectedGraph, AllSound, IsRound;
    Convergence(g, first, r, n);
    Convergence(g, first, r, n - 1);
  }

  ghost predicate PhaseAt(g: Graph, states: seq<State>, phases: seq<seq<Event>>, i: nat)
    requires g.WellFormed() && i < |phases| && |states| == |phases| + 1
  {
    Run(g, states[i], phases[i], states[i + 1]) && Drains(g, states[i], phases[i])
  }

  ghost predicate Phases(g: Graph, states: seq<State>, phases: seq<seq<Event>>)
    requires g.WellFormed()
  {
    |states| == |phases| + 1 && Start(g, states[0]) && forall i :: 0 <= i < |phases| ==> PhaseAt(g, states, phases, i)
  }

  lemma {:induction false} PhasesAdvance(g: Graph, final: Network, r: NodeAddr, states: seq<State>, phases: seq<seq<Event>>, i: nat)
    requires g.WellFormed() && Final(g, final, r) && Phases(g, states, phases) && i <= |phases|
    ensures Invariant(g, states[i]) && Level(g, final, r, i, states[i])
  {
    hide Final, Level, Invariant, Run, Drains;
    if i == 0 {
      StartIsLevel(g, final, r, states[0]);
      StartIsInvariant(g, states[0]);
    } else {
      PhasesAdvance(g, final, r, states, phases, i - 1);
      assert PhaseAt(g, states, phases, i - 1);
      PhaseAdvances(g, final, r, i - 1, states[i - 1], phases[i - 1], states[i]);
    }
  }

  lemma StartIsInvariant(g: Graph, x: State)
    requires Start(g, x)
    ensures Invariant(g, x)
  {
  }

  lemma LevelIsFinal(g: Graph, final: Network, r: NodeAddr, k: nat, x: State, v: NodeAddr)
    requires Final(g, final, r) && Invariant(g, x) && Level(g, final, r, k, x) && 2 * |g.nodes| - 1 <= k && v in g.nodes
    ensures v in x.coords && v in final && x.coords[v] == final[v]
  {
    assert x.coords[v] == Elected(g, x, v);
    LevelElects(g, final, r, k, x, v);
    var p := SomeShortestPath(g, r, v);
    hide Final, Level, Invariant, Sound;
    assert FinalWithin(g, final, r, k + 1 - |g.nodes|, v, x.coords[v]);
  }

  // Convergence whatever the delays: once everything in flight has been delivered 2 n - 1 times over, every node holds, and
  // keeps through all that still arrives, the shortest path that the self-rooted nodes elect in rounds.
  lemma AsynchronousConvergence(
    g: Graph, r: NodeAddr, first: seq<Network>, states: seq<State>, phases: seq<seq<Event>>, more: seq<Event>, end: State)
    requires g.ConnectedGraph() && Least(g, r) && Execution(g, first) && |g.nodes| < |first|
    requires Phases(g, states, phases) && 2 * |g.nodes| - 1 <= |phases| && Run(g, states[|phases|], more, end)
    ensures |g.nodes| > 0 && end.coords.Keys == g.nodes
    ensures forall v {:trigger end.coords[v]} :: v in g.nodes ==>
      v in first[|g.nodes| - 1] && end.coords[v] == first[|g.nodes| - 1][v] && g.ShortestPath(end.coords[v], v, r)
  {
    FirstIsFinal(g, first, r);
    var final, k := first[|g.nodes| - 1], |phases|;
    PhasesAdvance(g, final, r, states, phases, k);
    LevelStays(g, final, r, k, states[k], more, end);
    NodesHaveCoords(g, end);
    hide Level, Invariant, Run, Phases, Execution, Least;
    forall v {:trigger end.coords[v]} | v in g.nodes
      ensures v in final && end.coords[v] == final[v] && g.ShortestPath(end.coords[v], v, r)
    {
      LevelIsFinal(g, final, r, k, end, v);
    }
  }

  // ---- There are such phases ----

  // A delivery shortens no other link.
  lemma DeliveryShortensOne(g: Graph, x: State, p: Link, q: Link)
    requires g.WellFormed() && Invariant(g, x) && Possible(g, x, Delivers(p)) && q in g.links
    ensures q in x.channels && q in Next(g, x, Delivers(p)).channels
    ensures |Next(g, x, Delivers(p)).channels[q]| >= |x.channels[q]| - (if p == q then 1 else 0)
  {
    assert g.Linked(p.0, p.1);
    hide Elected;
  }

  lemma {:induction false} RunTogether(g: Graph, x: State, a: seq<Event>, y: State, b: seq<Event>, z: State)
    requires g.WellFormed() && Run(g, x, a, y) && Run(g, y, b, z)
    ensures Run(g, x, a + b, z)
    decreases |a|
  {
    hide Possible, Next, WellFormed;
    var both := a + b;
    if a == [] {
      assert both == b;
    } else {
      RunTogether(g, Next(g, x, a[0]), a[1..], y, b, z);
      assert both[1..] == a[1..] + b && both[0] == a[0];
    }
  }

  lemma {:induction false} DeliveriesTogether(a: seq<Event>, b: seq<Event>, p: Link)
    ensures Deliveries(a + b, p) == Deliveries(a, p) + Deliveries(b, p)
    decreases |a|
  {
    if a == [] {
      assert a + b == b;
    } else {
      DeliveriesTogether(a[1..], b, p);
      assert (a + b)[1..] == a[1..] + b && (a + b)[0] == a[0];
    }
  }

  // At least so many announcements are in flight on the links still to be drained.
  ghost predicate InFlight(g: Graph, x: State, links: set<Link>, counts: map<Link, nat>) {
    && links <= counts.Keys && links <= x.channels.Keys
    && forall q {:trigger counts[q]} :: q in links ==> counts[q] <= |x.channels[q]|
  }

  lemma {:induction false} LinkDrains(g: Graph, x: State, p: Link, m: nat, others: set<Link>, counts: map<Link, nat>)
    returns (events: seq<Event>, end: State)
    requires g.WellFormed() && Invariant(g, x) && p in g.links && others <= g.links && p !in others
    requires m <= |x.channels[p]| && InFlight(g, x, others, counts)
    ensures Run(g, x, events, end) && Invariant(g, end) && Deliveries(events, p) >= m && InFlight(g, end, others, counts)
    decreases m
  {
    if m == 0 {
      events, end := [], x;
    } else {
      var e := Delivers(p);
      var y := Next(g, x, e);
      StepKeepsInvariant(g, x, e);
      DeliveryShortensOne(g, x, p, p);
      forall q {:trigger counts[q]} | q in others ensures q in y.channels && counts[q] <= |y.channels[q]| {
        DeliveryShortensOne(g, x, p, q);
      }
      hide Next;
      var rest;
      rest, end := LinkDrains(g, y, p, m - 1, others, counts);
      events := [e] + rest;
      assert events[1..] == rest && events[0] == e;
    }
  }

  lemma {:induction false} LinksDrain(g: Graph, x: State, links: set<Link>, counts: map<Link, nat>)
    returns (events: seq<Event>, end: State)
    requires g.WellFormed() && Invariant(g, x) && links <= g.links && InFlight(g, x, links, counts)
    ensures Run(g, x, events, end) && Invariant(g, end)
    ensures forall p :: p in links ==> p in counts && counts[p] <= Deliveries(events, p)
    decreases links
  {
    if links == {} {
      events, end := [], x;
    } else {
      var p :| p in links;
      assert p in counts && counts[p] <= |x.channels[p]|;
      var first, mid := LinkDrains(g, x, p, counts[p], links - {p}, counts);
      var rest;
      rest, end := LinksDrain(g, mid, links - {p}, counts);
      events := first + rest;
      hide Invariant, InFlight, Run;
      RunTogether(g, x, first, mid, rest, end);
      forall q | q in links ensures q in counts && counts[q] <= Deliveries(events, q) {
        DeliveriesTogether(first, rest, q);
      }
    }
  }

  // From every such state everything in flight can be delivered.
  lemma PhaseExists(g: Graph, x: State) returns (events: seq<Event>, end: State)
    requires g.WellFormed() && Invariant(g, x)
    ensures Run(g, x, events, end) && Drains(g, x, events) && Invariant(g, end)
  {
    var counts := map p | p in x.channels :: |x.channels[p]|;
    events, end := LinksDrain(g, x, g.links, counts);
  }
}
