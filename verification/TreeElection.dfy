/**
 * Parent election and greedy next-hop choice of one node
 * (packages/core/src/node/TreeState.ts, packages/core/src/protocol/tree.ts).
 */
module TreeElection {
  import opened Wrappers
  import opened Collections
  import opened TreeCoordinates

  datatype Entry = Entry(node: NodeAddr, sequence: nat, timestamp: nat)

  // The announcement without its signature.
  datatype Announce = Announce(sequence: nat, timestamp: nat, parent: NodeAddr, ancestry: seq<Entry>)

  datatype PeerTreeState = PeerTreeState(sequence: nat, parent: NodeAddr, ancestry: seq<Entry>)

  function Nodes(ancestry: seq<Entry>): (c: Coords)
    ensures |c| == |ancestry| && forall i :: 0 <= i < |c| ==> c[i] == ancestry[i].node
  {
    if ancestry == [] then [] else [ancestry[0].node] + Nodes(ancestry[1..])
  }

  // validateTreeAnnounceSemantics: the parent is the second entry (or the node itself, alone),
  // and no entry is below the root.
  predicate ValidAncestry(parent: NodeAddr, ancestry: seq<Entry>) {
    && ancestry != []
    && (if ancestry[0].node == parent then |ancestry| == 1 else |ancestry| > 1 && ancestry[1].node == parent)
    && (forall i :: 0 <= i < |ancestry| ==> ancestry[|ancestry| - 1].node <= ancestry[i].node)
  }

  // ---- The election as a function of the announced coordinates ----

  type Table = t: map<NodeAddr, Coords> | forall k :: k in t ==> t[k] != []

  predicate Candidate(self: NodeAddr, table: Table, k: NodeAddr) {
    k in table && self !in table[k]
  }

  // The order in which evaluateParent sorts its candidates: root, then depth, then address.
  predicate Preferred(table: Table, j: NodeAddr, k: NodeAddr)
    requires j in table && k in table
  {
    || Root(table[j]) < Root(table[k])
    || (Root(table[j]) == Root(table[k])
        && (|table[j]| < |table[k]| || (|table[j]| == |table[k]| && j < k)))
  }

  // k heads the sorted candidate list.
  predicate Best(self: NodeAddr, table: Table, k: NodeAddr) {
    Candidate(self, table, k)
    && forall j {:trigger Preferred(table, k, j)} :: j in table && Candidate(self, table, j) && j != k ==> Preferred(table, k, j)
  }

  ghost function Elect(self: NodeAddr, table: Table): Coords {
    if exists k :: Best(self, table, k) && Root(table[k]) < self then
      var k :| Best(self, table, k) && Root(table[k]) < self;
      [self] + table[k]
    else [self]
  }

  function ParentOf(c: Coords): NodeAddr
    requires c != []
  {
    if |c| == 1 then c[0] else c[1]
  }

  lemma BestIsUnique(self: NodeAddr, table: Table, j: NodeAddr, k: NodeAddr)
    requires Best(self, table, j) && Best(self, table, k)
    ensures j == k
  {
    assert j != k ==> !(Preferred(table, j, k) && Preferred(table, k, j));
  }

  // Two tables that agree on each other's best candidate have the same one.
  lemma BestAgrees(self: NodeAddr, s: Table, t: Table, j: NodeAddr, k: NodeAddr)
    requires Best(self, s, j) && Best(self, t, k)
    requires j in t && k in s && s[j] == t[j] && s[k] == t[k]
    ensures j == k
  {
    assert j != k ==> !(Preferred(s, j, k) && Preferred(t, k, j));
  }

  lemma {:induction false} BestAmong(self: NodeAddr, table: Table, keys: set<NodeAddr>) returns (k: NodeAddr)
    requires keys <= table.Keys && exists j :: j in keys && Candidate(self, table, j)
    ensures k in keys && Candidate(self, table, k)
    ensures forall j :: j in keys && Candidate(self, table, j) && j != k ==> Preferred(table, k, j)
    decreases keys
  {
    k :| k in keys && Candidate(self, table, k);
    var rest := keys - {k};
    if exists j :: j in rest && Candidate(self, table, j) {
      var m := BestAmong(self, table, rest);
      if Preferred(table, m, k) {
        k := m;
      }
    }
  }

  // Whenever some peer is a candidate, one of them heads the list.
  lemma BestExists(self: NodeAddr, table: Table)
    requires exists j :: Candidate(self, table, j)
    ensures exists k :: Best(self, table, k)
  {
    var j :| Candidate(self, table, j);
    assert j in table.Keys;
    var k := BestAmong(self, table, table.Keys);
    assert Best(self, table, k);
  }

  lemma ElectIsBest(self: NodeAddr, table: Table, best: NodeAddr)
    requires Best(self, table, best)
    ensures Elect(self, table) == if Root(table[best]) < self then [self] + table[best] else [self]
  {
    forall k | Best(self, table, k) ensures k == best {
      BestIsUnique(self, table, best, k);
    }
  }

  lemma ElectedBeats(self: NodeAddr, table: Table, k: NodeAddr)
    requires Candidate(self, table, k)
    ensures var c := Elect(self, table);
      c != [] && (Root(c) < Root(table[k]) || (Root(c) == Root(table[k]) && (Root(c) == self || |c| <= 1 + |table[k]|)))
  {
    BestExists(self, table);
    var b :| Best(self, table, b);
    ElectIsBest(self, table, b);
    hide Elect;
    assert b == k || Preferred(table, b, k);
    assert Root([self] + table[b]) == Root(table[b]);
  }

  // What the election achieves: the least root on offer, at the least depth, with the least address.
  lemma ElectionOutcome(self: NodeAddr, table: Table)
    ensures var c := Elect(self, table);
      && c != [] && c[0] == self && Root(c) <= self
      && (c == [self] || exists k :: Best(self, table, k) && c == [self] + table[k] && Root(c) == Root(table[k]) < self)
      && (forall k :: Candidate(self, table, k) ==>
            Root(c) < Root(table[k]) || (Root(c) == Root(table[k]) && (Root(c) == self || |c| <= 1 + |table[k]|)))
  {
    forall k | Candidate(self, table, k)
      ensures var c := Elect(self, table);
        c != [] && (Root(c) < Root(table[k]) || (Root(c) == Root(table[k]) && (Root(c) == self || |c| <= 1 + |table[k]|)))
    {
      ElectedBeats(self, table, k);
    }
    if exists k :: Best(self, table, k) && Root(table[k]) < self {
      var k :| Best(self, table, k) && Root(table[k]) < self && Elect(self, table) == [self] + table[k];
      assert Root([self] + table[k]) == Root(table[k]);
    }
  }

  // The order of the election written out: a node stays its own root exactly if no eligible peer has a lesser one;
  // otherwise it joins the eligible peer k with the least root, among these the shortest ancestry, among these the least
  // address.
  lemma ElectionPicksLeast(self: NodeAddr, table: Table) returns (k: NodeAddr)
    ensures Elect(self, table) == [self] <==> forall j :: j in table && self !in table[j] ==> self <= Root(table[j])
    ensures Elect(self, table) != [self] ==>
      && k in table && self !in table[k] && Root(table[k]) < self && Elect(self, table) == [self] + table[k]
      && forall j :: j in table && self !in table[j] ==>
        || Root(table[k]) < Root(table[j])
        || (Root(table[k]) == Root(table[j]) && (|table[k]| < |table[j]| || (|table[k]| == |table[j]| && k <= j)))
  {
    ElectionOutcome(self, table);
    k := self;
    if Elect(self, table) != [self] {
      k :| Best(self, table, k) && Elect(self, table) == [self] + table[k] && Root(Elect(self, table)) == Root(table[k]) < self;
      forall j | j in table && self !in table[j]
        ensures || Root(table[k]) < Root(table[j])
          || (Root(table[k]) == Root(table[j]) && (|table[k]| < |table[j]| || (|table[k]| == |table[j]| && k <= j)))
      {
        assert Candidate(self, table, j);
        assert j == k || Preferred(table, k, j);
      }
    } else {
      forall j | j in table && self !in table[j] ensures self <= Root(table[j]) {
        assert Candidate(self, table, j);
      }
    }
  }

  // The elected root is the minimum of the node itself and the candidates' roots.
  lemma ElectedRootIsMinimum(self: NodeAddr, table: Table)
    ensures Root(Elect(self, table)) == self || exists k :: Candidate(self, table, k) && Root(Elect(self, table)) == Root(table[k])
    ensures Root(Elect(self, table)) <= self && forall k :: Candidate(self, table, k) ==> Root(Elect(self, table)) <= Root(table[k])
  {
    ElectionOutcome(self, table);
  }

  lemma ElectionHasNoRepeats(self: NodeAddr, table: Table)
    requires forall k :: k in table ==> NoRepeats(table[k])
    ensures NoRepeats(Elect(self, table))
  {
    ElectionOutcome(self, table);
    var c := Elect(self, table);
    if c != [self] {
      var k :| Best(self, table, k) && c == [self] + table[k];
      assert forall i :: 0 < i < |c| ==> c[i] == table[k][i - 1];
    }
  }

  // Coordinates of k whose root is their least address.
  predicate RootedAt(k: NodeAddr, c: Coords) {
    c != [] && c[0] == k && forall i :: 0 <= i < |c| ==> Root(c) <= c[i]
  }

  // An announcement built on elected coordinates passes the receiver's validation.
  lemma ElectedAncestryIsValid(self: NodeAddr, table: Table, ancestry: seq<Entry>)
    requires forall k :: k in table ==> RootedAt(k, table[k])
    requires Nodes(ancestry) == Elect(self, table)
    ensures ValidAncestry(ParentOf(Nodes(ancestry)), ancestry)
  {
    ElectionOutcome(self, table);
    var c := Elect(self, table);
    if c != [self] {
      var k :| Best(self, table, k) && c == [self] + table[k] && Root(c) == Root(table[k]) < self;
      assert RootedAt(k, table[k]);
      assert forall i :: 0 < i < |c| ==> c[i] == table[k][i - 1];
    }
  }

  // ---- Greedy next hop ----

  // The peer is strictly nearer the destination than this node.
  predicate Nearer(coords: Coords, table: Table, dest: Coords, k: NodeAddr) {
    && k in table
    && Distance(coords, dest).Some? && Distance(table[k], dest).Some?
    && Distance(table[k], dest).value < Distance(coords, dest).value
  }

  predicate Reaches(coords: Coords, table: Table, dest: Coords, eligible: NodeAddr -> bool, k: NodeAddr) {
    eligible(k) && Nearer(coords, table, dest, k)
  }

  predicate Ahead(table: Table, dest: Coords, h: NodeAddr, k: NodeAddr)
    requires h in table && k in table && Distance(table[h], dest).Some? && Distance(table[k], dest).Some?
  {
    var dh, dk := Distance(table[h], dest).value, Distance(table[k], dest).value;
    dh < dk || (dh == dk && h < k)
  }

  // Among the given peers, the nearest to the destination, with the least address.
  ghost predicate IsNextHopAmong(keys: set<NodeAddr>, coords: Coords, table: Table, dest: Coords, eligible: NodeAddr -> bool,
                                 hop: Option<NodeAddr>)
  {
    match hop
    case None => forall k :: k in keys ==> !Reaches(coords, table, dest, eligible, k)
    case Some(h) =>
      && h in keys && Reaches(coords, table, dest, eligible, h)
      && forall k :: k in keys && Reaches(coords, table, dest, eligible, k) ==>
           h == k || Ahead(table, dest, h, k)
  }

  lemma NextHopAmongMore(keys: set<NodeAddr>, coords: Coords, table: Table, dest: Coords, eligible: NodeAddr -> bool,
                         hop: Option<NodeAddr>, k: NodeAddr)
    requires IsNextHopAmong(keys, coords, table, dest, eligible, hop)
    ensures
      var better := Reaches(coords, table, dest, eligible, k) && (hop.None? || Ahead(table, dest, k, hop.value));
      IsNextHopAmong(keys + {k}, coords, table, dest, eligible, if better then Some(k) else hop)
  {
  }

  ghost predicate IsNextHop(coords: Coords, table: Table, dest: Coords, eligible: NodeAddr -> bool, hop: Option<NodeAddr>) {
    IsNextHopAmong(table.Keys, coords, table, dest, eligible, hop)
  }

  // Only eligible peers that are strictly nearer than the node count; of these the one at least distance is taken, and of several
  // the one with the least address.
  lemma NextHopPicksNearest(coords: Coords, table: Table, dest: Coords, eligible: NodeAddr -> bool, hop: Option<NodeAddr>, k: NodeAddr)
    requires IsNextHop(coords, table, dest, eligible, hop) && k in table && eligible(k)
    requires Distance(coords, dest).Some? && Distance(table[k], dest).Some?
    ensures Distance(table[k], dest).value < Distance(coords, dest).value ==> hop.Some?
    ensures hop.Some? ==>
      && hop.value in table && eligible(hop.value) && Distance(table[hop.value], dest).Some?
      && var h, d := Distance(table[hop.value], dest).value, Distance(table[k], dest).value;
         h < Distance(coords, dest).value && (h < d || (h == d && hop.value <= k) || d >= Distance(coords, dest).value)
  {
    hide Distance;
  }

  // ---- The node's state ----

  ghost predicate WellFormedPeer(k: NodeAddr, peer: PeerTreeState) {
    ValidAncestry(peer.parent, peer.ancestry) && peer.ancestry[0].node == k
  }

  ghost predicate WellFormedPeers(peers: map<NodeAddr, PeerTreeState>) {
    forall k :: k in peers ==> WellFormedPeer(k, peers[k])
  }

  // Decoding yields no empty ancestry.
  predicate NonEmptyPeers(peers: map<NodeAddr, PeerTreeState>) {
    forall k :: k in peers ==> peers[k].ancestry != []
  }

  function TableOf(peers: map<NodeAddr, PeerTreeState>): (t: Table)
    requires forall k :: k in peers ==> peers[k].ancestry != []
    ensures t.Keys == peers.Keys && forall k :: k in t ==> t[k] == Nodes(peers[k].ancestry)
  {
    map k | k in peers :: Nodes(peers[k].ancestry)
  }

  function Announced(announce: Announce): PeerTreeState {
    PeerTreeState(announce.sequence, announce.parent, announce.ancestry)
  }

  lemma TableIsRooted(peers: map<NodeAddr, PeerTreeState>)
    requires WellFormedPeers(peers)
    ensures forall k :: k in TableOf(peers) ==> RootedAt(k, TableOf(peers)[k])
  {
    forall k | k in TableOf(peers) ensures RootedAt(k, TableOf(peers)[k]) {
      assert WellFormedPeer(k, peers[k]);
    }
  }

  // updatePeer keeps an announcement only when it is newer than the one it holds.
  function Retained(peers: map<NodeAddr, PeerTreeState>, peer: NodeAddr, announce: Announce): map<NodeAddr, PeerTreeState> {
    if peer in peers && announce.sequence <= peers[peer].sequence then peers
    else peers[peer := Announced(announce)]
  }

  lemma RetainedIsWellFormed(peers: map<NodeAddr, PeerTreeState>, peer: NodeAddr, announce: Announce)
    requires WellFormedPeers(peers) && WellFormedPeer(peer, Announced(announce))
    ensures WellFormedPeers(Retained(peers, peer, announce))
  {
  }

  lemma NodesIgnoreStamps(a: seq<Entry>, b: seq<Entry>)
    requires |a| == |b| && forall i :: 0 <= i < |a| ==> a[i].node == b[i].node
    ensures Nodes(a) == Nodes(b)
  {
  }

  // Behind the node's own entry, the entries of a peer as it announced them, or none.
  predicate FromPeer(ancestry: seq<Entry>, peers: map<NodeAddr, PeerTreeState>) {
    |ancestry| > 1 ==> exists k :: k in peers && ancestry[1..] == peers[k].ancestry
  }

  // The body of evaluateParent up to the comparison with the current state.
  method ElectFrom(head: Entry, peers: map<NodeAddr, PeerTreeState>) returns (nextParent: NodeAddr, nextAncestry: seq<Entry>)
    requires NonEmptyPeers(peers)
    ensures nextAncestry != [] && nextAncestry[0] == head && FromPeer(nextAncestry, peers)
    ensures Nodes(nextAncestry) == Elect(head.node, TableOf(peers)) && nextParent == ParentOf(Nodes(nextAncestry))
  {
    var self, table := head.node, TableOf(peers);
    if exists k :: k in table && Candidate(self, table, k) {
      BestExists(self, table);
      var best: NodeAddr :| best in table && Best(self, table, best);
      ElectIsBest(self, table, best);
      if Root(table[best]) < self {
        nextParent := peers[best].ancestry[0].node;
        nextAncestry := [head] + peers[best].ancestry;
        assert best in peers && nextAncestry[1..] == peers[best].ancestry;
        return;
      }
    }
    nextParent, nextAncestry := self, [head];
  }

  class TreeState {
    const self: NodeAddr
    var sequence: nat
    var timestamp: nat
    var parent: NodeAddr
    var ancestry: seq<Entry>
    var peers: map<NodeAddr, PeerTreeState>

    // The cached parent and coordinates are those a fresh election over the retained announcements gives.
    ghost predicate Valid()
      reads this
    {
      && NonEmptyPeers(peers)
      && ancestry != [] && ancestry[0] == Entry(self, sequence, timestamp)
      && Coordinates() == Elect(self, TableOf(peers))
      && parent == ParentOf(Coordinates())
    }

    function Coordinates(): Coords
      reads this`ancestry
    {
      Nodes(ancestry)
    }

    // The result says whether parent or coordinates moved; exactly then the sequence number grows by one and the entries are
    // those of the parent's announcement.
    twostate predicate Reelected(changed: bool, now: nat)
      reads this
    {
      && changed == (parent != old(parent) || Coordinates() != old(Coordinates()))
      && (if changed then sequence == old(sequence) + 1 && timestamp == now && FromPeer(ancestry, peers)
          else sequence == old(sequence) && timestamp == old(timestamp) && ancestry == old(ancestry))
    }

    constructor (self: NodeAddr, now: nat)
      ensures Valid() && this.self == self && peers == map[] && Coordinates() == [self] && sequence == 1
    {
      this.self := self;
      sequence, timestamp := 1, now;
      parent := self;
      ancestry := [Entry(self, 1, now)];
      peers := map[];
    }

    method UpdatePeer(peer: NodeAddr, announce: Announce, now: nat) returns (changed: bool)
      requires Valid()
      requires announce.ancestry != []
      modifies this
      ensures Valid() && peers == Retained(old(peers), peer, announce)
      ensures Reelected(changed, now)
      ensures old(WellFormedPeers(peers)) && WellFormedPeer(peer, Announced(announce)) ==> WellFormedPeers(peers)
    {
      hide WellFormedPeers, WellFormedPeer, Elect;
      if WellFormedPeers(peers) && WellFormedPeer(peer, Announced(announce)) {
        RetainedIsWellFormed(peers, peer, announce);
      }
      if peer in peers && announce.sequence <= peers[peer].sequence {
        return false;
      }
      peers := peers[peer := Announced(announce)];
      changed := EvaluateParent(now);
    }

    method RemovePeer(peer: NodeAddr, now: nat) returns (changed: bool)
      requires Valid()
      modifies this
      ensures Valid() && peers == old(peers) - {peer}
      ensures Reelected(changed, now)
    {
      if peer !in peers {
        assert peers - {peer} == peers;
        return false;
      }
      peers := peers - {peer};
      changed := EvaluateParent(now);
    }

    method Reset(now: nat) returns (changed: bool)
      requires Valid()
      modifies this
      ensures Valid() && peers == map[] && Coordinates() == [self]
      ensures Reelected(changed, now)
    {
      peers := map[];
      changed := EvaluateParent(now);
    }

    method EvaluateParent(now: nat) returns (changed: bool)
      requires NonEmptyPeers(peers)
      requires ancestry != [] && ancestry[0] == Entry(self, sequence, timestamp) && parent == ParentOf(Coordinates())
      modifies this`sequence, this`timestamp, this`parent, this`ancestry
      ensures Valid() && Reelected(changed, now)
    {
      var nextParent, nextAncestry := ElectFrom(Entry(self, sequence, timestamp), peers);
      if parent == nextParent && Coordinates() == Nodes(nextAncestry) {
        return false;
      }
      sequence, timestamp := sequence + 1, now;
      parent := nextParent;
      ancestry := nextAncestry[0 := Entry(self, sequence, timestamp)];
      NodesIgnoreStamps(nextAncestry, ancestry);
      assert ancestry[1..] == nextAncestry[1..];
      return true;
    }

    method BuildAnnounce() returns (announce: Announce)
      requires Valid()
      ensures WellFormedPeers(peers) ==> ValidAncestry(announce.parent, announce.ancestry)
      ensures announce == Announce(sequence, timestamp, parent, ancestry)
      ensures announce.ancestry != [] && announce.ancestry[0] == Entry(self, announce.sequence, announce.timestamp)
      ensures Nodes(announce.ancestry) == Coordinates() && announce.parent == ParentOf(Coordinates())
    {
      if forall k :: k in peers ==> WellFormedPeer(k, peers[k]) {
        TableIsRooted(peers);
        ElectedAncestryIsValid(self, TableOf(peers), ancestry);
      }
      announce := Announce(sequence, timestamp, parent, ancestry);
    }

    method NextHop(dest: Coords, eligible: NodeAddr -> bool) returns (hop: Option<NodeAddr>)
      requires Valid()
      ensures IsNextHop(Coordinates(), TableOf(peers), dest, eligible, hop)
    {
      if |dest| == 0 || Root(Coordinates()) != Root(dest) {
        return None;
      }
      var table := TableOf(peers);
      var mine := TreeDistance(Coordinates(), dest);
      hop := None;
      var best := 0;
      var rest := table.Keys;
      while rest != {}
        invariant rest <= table.Keys && mine.Some?
        invariant hop.Some? ==> hop.value in table && Distance(table[hop.value], dest) == Some(best)
        invariant IsNextHopAmong(table.Keys - rest, Coordinates(), table, dest, eligible, hop)
      {
        hide Distance;
        var k :| k in rest;
        NextHopAmongMore(table.Keys - rest, Coordinates(), table, dest, eligible, hop, k);
        assert table.Keys - (rest - {k}) == table.Keys - rest + {k};
        rest := rest - {k};
        if eligible(k) {
          var distance := TreeDistance(table[k], dest);
          if distance.Some? && distance.value < mine.value {
            if hop.None? || distance.value < best || (distance.value == best && k < hop.value) {
              hop, best := Some(k), distance.value;
            }
          }
        }
      }
      assert table.Keys - rest == table.Keys;
    }
  }
}
