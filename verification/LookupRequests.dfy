/**
 * One node's part in a lookup: forwarding requests along remembered reverse paths and responses back over them
 * (the lookup functions of packages/core/src/node/FipsRouting.ts).
 */
module LookupRequests {
  import opened Wrappers
  import opened Collections

  const LOOKUP_REVERSE_PATH_TTL_MS: nat := 30_000
  const MAX_LOOKUP_REVERSE_PATHS: nat := 256
  const MAX_LOOKUP_PEERS: nat := 16

  type NodeId = nat

  // One link to an adjacent node; a node can be adjacent over several.
  datatype Carrier = Carrier(node: NodeId, line: nat, established: bool, capacity: nat)

  datatype Request = Request(id: nat, target: NodeId, origin: NodeId, ttl: nat, minMtu: nat)

  datatype Response = Response(id: nat, target: NodeId, pathMtu: nat)

  datatype Key = Key(id: nat, target: NodeId)

  datatype Reverse = Reverse(peer: Carrier, expiresAt: int, forwarded: set<NodeId>, request: Request)

  // The reverse paths and the order in which they were inserted.
  datatype Paths = Paths(entries: map<Key, Reverse>, order: seq<Key>)

  // What a request finds at this node: its links, the next hop its routing tables choose, and whether a transport can
  // resolve the target.
  datatype Surroundings = Surroundings(
    self: NodeId, forwarding: bool, replyLearned: bool, isTreePeer: NodeId -> bool, peers: seq<Carrier>,
    nextHop: Option<Carrier>, resolvable: bool, now: int)

  datatype Outcome = Answered(response: Response) | Dropped | Forwarded(nextHops: seq<Carrier>, resolves: bool)

  function KeyOf(r: Request): Key {
    Key(r.id, r.target)
  }

  // ---- The table ----

  function Unexpired(entries: map<Key, Reverse>, order: seq<Key>, now: int): (r: seq<Key>)
    decreases |order|
  {
    if order == [] then [] else KeptKey(entries, order[0], now) + Unexpired(entries, order[1..], now)
  }

  function KeptKey(entries: map<Key, Reverse>, k: Key, now: int): seq<Key> {
    if k in entries && entries[k].expiresAt > now then [k] else []
  }

  function Prune(p: Paths, now: int): Paths {
    Paths(map k | k in p.entries && p.entries[k].expiresAt > now :: p.entries[k], Unexpired(p.entries, p.order, now))
  }

  // reserveLookupReversePath gives up the entry inserted first.
  function Reserve(p: Paths): Paths {
    if |p.entries| < MAX_LOOKUP_REVERSE_PATHS || p.order == [] then p
    else Paths(p.entries - {p.order[0]}, p.order[1..])
  }

  function Without(order: seq<Key>, key: Key): seq<Key> {
    if order == [] then [] else (if order[0] == key then [] else [order[0]]) + Without(order[1..], key)
  }

  function Delete(p: Paths, key: Key): Paths {
    Paths(p.entries - {key}, Without(p.order, key))
  }

  function Stored(p: Paths, key: Key, reverse: Reverse): Paths {
    Paths(p.entries[key := reverse], if key in p.entries then p.order else p.order + [key])
  }

  // ---- Requests ----

  predicate IsFallback(env: Surroundings, source: Carrier, r: Request, peer: Carrier) {
    && peer != source && peer.established && (env.isTreePeer(peer.node) || env.replyLearned)
    && peer.node != r.origin && peer.capacity >= r.minMtu
  }

  function Fallbacks(env: Surroundings, source: Carrier, r: Request, peers: seq<Carrier>): (f: seq<Carrier>)
    ensures forall c :: c in f ==> c in peers && IsFallback(env, source, r, c)
  {
    if peers == [] then []
    else (if IsFallback(env, source, r, peers[0]) then [peers[0]] else []) + Fallbacks(env, source, r, peers[1..])
  }

  function FirstSixteen(peers: seq<Carrier>): seq<Carrier> {
    if |peers| <= MAX_LOOKUP_PEERS then peers else peers[..MAX_LOOKUP_PEERS]
  }

  function Candidates(env: Surroundings, source: Carrier, r: Request): seq<Carrier> {
    if env.nextHop.Some? then [env.nextHop.value] else FirstSixteen(Fallbacks(env, source, r, env.peers))
  }

  // Tested against the hops of earlier messages only, before any of this batch is added.
  function NotYet(candidates: seq<Carrier>, forwarded: set<NodeId>): (f: seq<Carrier>)
    ensures forall c :: c in f <==> c in candidates && c.node !in forwarded
  {
    if candidates == [] then []
    else (if candidates[0].node in forwarded then [] else [candidates[0]]) + NotYet(candidates[1..], forwarded)
  }

  function Nodes(carriers: seq<Carrier>): (s: set<NodeId>)
    ensures forall n :: n in s <==> exists i :: 0 <= i < |carriers| && carriers[i].node == n
  {
    if carriers == [] then {} else {carriers[0].node} + Nodes(carriers[1..])
  }

  function NewReverse(env: Surroundings, source: Carrier, r: Request): Reverse {
    Reverse(source, env.now + LOOKUP_REVERSE_PATH_TTL_MS, {}, if r.ttl > 0 then r.(ttl := r.ttl - 1) else r)
  }

  function HandleRequest(p: Paths, env: Surroundings, source: Carrier, r: Request): (Paths, Outcome) {
    if source.capacity < r.minMtu then (p, Dropped)
    else if r.target == env.self then (p, Answered(Response(r.id, r.target, source.capacity)))
    else if !env.forwarding || r.ttl == 0 then (p, Dropped)
    else
      var key := KeyOf(r);
      var kept := Prune(p, env.now);
      if key in kept.entries && kept.entries[key].peer.node != source.node then (kept, Dropped)
      else
        var existing := key in kept.entries;
        var reverse := if existing then kept.entries[key].(peer := source) else NewReverse(env, source, r);
        var candidates := Candidates(env, source, r);
        var nextHops := NotYet(candidates, reverse.forwarded);
        var resolves := candidates == [] && env.resolvable;
        if nextHops == [] && !resolves then (if existing then Stored(kept, key, reverse) else kept, Dropped)
        else
          var room := if existing then kept else Reserve(kept);
          (Stored(room, key, reverse.(forwarded := reverse.forwarded + Nodes(nextHops))), Forwarded(nextHops, resolves))
  }

  // A hop found later, by resolving the target or because the target connected.
  function ForwardLater(p: Paths, key: Key, hop: Carrier): (Paths, bool) {
    if key !in p.entries || hop.node in p.entries[key].forwarded then (p, false)
    else (Stored(p, key, p.entries[key].(forwarded := p.entries[key].forwarded + {hop.node})), true)
  }

  // replayPendingLookupsFor: which pending requests go to a peer that just connected.
  predicate Replays(p: Paths, key: Key, peer: Carrier) {
    && key in p.entries && key.target == peer.node && p.entries[key].peer.node != peer.node
    && peer.node !in p.entries[key].forwarded && peer.capacity >= p.entries[key].request.minMtu
  }

  function Replayed(p: Paths, key: Key, peer: Carrier): Reverse
    requires key in p.entries
  {
    if Replays(p, key, peer) then p.entries[key].(forwarded := p.entries[key].forwarded + {peer.node}) else p.entries[key]
  }

  // The nodes a batch did not reach, and those it did, in order.
  function Failed(batch: seq<Carrier>, ok: seq<bool>): set<NodeId>
    requires |ok| == |batch|
  {
    if batch == [] then {} else (if ok[0] then {} else {batch[0].node}) + Failed(batch[1..], ok[1..])
  }

  function Successful(batch: seq<Carrier>, ok: seq<bool>): seq<NodeId>
    requires |ok| == |batch|
  {
    if batch == [] then [] else (if ok[0] then [batch[0].node] else []) + Successful(batch[1..], ok[1..])
  }

  predicate AllRejected(ok: seq<bool>) {
    forall i :: 0 <= i < |ok| ==> !ok[i]
  }

  // Once every send of a request's batch has ended, the failed hops are forgotten; if all failed and nothing else is
  // remembered, so is the request.
  function Settled(p: Paths, key: Key, batch: seq<Carrier>, ok: seq<bool>): Paths
    requires |ok| == |batch|
  {
    if key !in p.entries then p
    else
      var rest := p.entries[key].forwarded - Failed(batch, ok);
      if AllRejected(ok) && rest == {} then Delete(p, key) else Stored(p, key, p.entries[key].(forwarded := rest))
  }

  // A hop found later that could not be sent to.
  function SendFailed(p: Paths, key: Key, hop: NodeId): Paths {
    if key !in p.entries then p else Stored(p, key, p.entries[key].(forwarded := p.entries[key].forwarded - {hop}))
  }

  // ---- Responses ----

  // The response goes back to the remembered peer with the MTU narrowed to both links, and the entry is gone.
  function HandleResponse(p: Paths, source: Carrier, r: Response, now: int): (Paths, Option<(Carrier, Response)>) {
    var kept := Prune(p, now);
    var key := Key(r.id, r.target);
    if key !in kept.entries || kept.entries[key].peer == source then (kept, None)
    else
      var reverse := kept.entries[key];
      var mtu := Min(r.pathMtu, Min(source.capacity, reverse.peer.capacity));
      if mtu < reverse.request.minMtu then (kept, None)
      else (Delete(kept, key), Some((reverse.peer, r.(pathMtu := mtu))))
  }

  // ---- What every step keeps ----

  // The order lists exactly the entries, each once; there are at most 256; an entry never answers for another key.
  ghost predicate ValidPaths(p: Paths) {
    && NoRepeats(p.order) && (forall k :: k in p.order <==> k in p.entries)
    && |p.entries| <= MAX_LOOKUP_REVERSE_PATHS
    && (forall k {:trigger p.entries[k]} :: k in p.entries ==> KeyOf(p.entries[k].request) == k)
  }

  lemma {:induction false} UnexpiredIsSublist(entries: map<Key, Reverse>, order: seq<Key>, now: int)
    requires NoRepeats(order)
    ensures NoRepeats(Unexpired(entries, order, now))
    ensures forall k :: k in Unexpired(entries, order, now) <==> k in order && k in entries && entries[k].expiresAt > now
  {
    if order != [] {
      var tail := order[1..];
      assert forall i :: 0 <= i < |tail| ==> tail[i] == order[i + 1];
      UnexpiredIsSublist(entries, tail, now);
      assert order[0] !in tail;
    }
  }

  lemma {:induction false} WithoutIsSublist(order: seq<Key>, key: Key)
    requires NoRepeats(order)
    ensures NoRepeats(Without(order, key))
    ensures forall k :: k in Without(order, key) <==> k in order && k != key
  {
    if order != [] {
      var tail := order[1..];
      assert forall i :: 0 <= i < |tail| ==> tail[i] == order[i + 1];
      WithoutIsSublist(tail, key);
      assert order[0] !in tail;
    }
  }

  lemma PruneKeepsValid(p: Paths, now: int)
    requires ValidPaths(p)
    ensures ValidPaths(Prune(p, now))
  {
    UnexpiredIsSublist(p.entries, p.order, now);
    SmallerMap(Prune(p, now).entries, p.entries);
  }

  lemma DeleteKeepsValid(p: Paths, key: Key)
    requires ValidPaths(p)
    ensures ValidPaths(Delete(p, key))
  {
    WithoutIsSublist(p.order, key);
    SmallerMap(Delete(p, key).entries, p.entries);
  }

  lemma ReserveMakesRoom(p: Paths)
    requires ValidPaths(p)
    ensures ValidPaths(Reserve(p)) && |Reserve(p).entries| < MAX_LOOKUP_REVERSE_PATHS
  {
    if |p.entries| >= MAX_LOOKUP_REVERSE_PATHS {
      assert |p.entries.Keys| == |p.entries|;
      var k :| k in p.entries.Keys;
      assert k in p.order;
      var tail := p.order[1..];
      assert forall i :: 0 <= i < |tail| ==> tail[i] == p.order[i + 1];
      assert p.order[0] in p.entries && p.order[0] !in tail;
      assert Reserve(p).entries.Keys == p.entries.Keys - {p.order[0]};
      assert |Reserve(p).entries| == |Reserve(p).entries.Keys| && |p.entries| == |p.entries.Keys|;
    }
  }

  lemma StoringKeepsValid(p: Paths, key: Key, reverse: Reverse)
    requires ValidPaths(p) && KeyOf(reverse.request) == key
    requires key in p.entries || |p.entries| < MAX_LOOKUP_REVERSE_PATHS
    ensures ValidPaths(Stored(p, key, reverse))
  {
    var q := Stored(p, key, reverse);
    assert q.entries.Keys == p.entries.Keys + {key};
    assert |q.entries| == |q.entries.Keys| && |p.entries| == |p.entries.Keys|;
  }

  // The table stays bounded and in agreement with its order whatever arrives.
  lemma RequestKeepsValid(p: Paths, env: Surroundings, source: Carrier, r: Request)
    requires ValidPaths(p)
    ensures ValidPaths(HandleRequest(p, env, source, r).0)
  {
    hide ValidPaths, Prune, Reserve, Stored, Candidates, NotYet, Nodes;
    var kept := Prune(p, env.now);
    PruneKeepsValid(p, env.now);
    var key := KeyOf(r);
    if key in kept.entries {
      EntryKnowsItsKey(kept, key);
      var reverse := kept.entries[key].(peer := source);
      StoringKeepsValid(kept, key, reverse);
      StoringKeepsValid(kept, key, reverse.(forwarded := reverse.forwarded + Nodes(NotYet(Candidates(env, source, r), reverse.forwarded))));
    } else {
      ReserveMakesRoom(kept);
      var reverse := NewReverse(env, source, r);
      StoringKeepsValid(Reserve(kept), key,
                        reverse.(forwarded := reverse.forwarded + Nodes(NotYet(Candidates(env, source, r), reverse.forwarded))));
    }
  }

  lemma EntryKnowsItsKey(p: Paths, key: Key)
    requires ValidPaths(p) && key in p.entries
    ensures KeyOf(p.entries[key].request) == key
  {
  }

  lemma SettlingKeepsValid(p: Paths, key: Key, batch: seq<Carrier>, ok: seq<bool>)
    requires ValidPaths(p) && |ok| == |batch|
    ensures ValidPaths(Settled(p, key, batch, ok))
  {
    hide ValidPaths, Failed;
    DeleteKeepsValid(p, key);
    if key in p.entries {
      EntryKnowsItsKey(p, key);
      StoringKeepsValid(p, key, p.entries[key].(forwarded := p.entries[key].forwarded - Failed(batch, ok)));
    }
  }

  lemma {:induction false} FailedSnoc(batch: seq<Carrier>, ok: seq<bool>, c: Carrier, o: bool)
    requires |ok| == |batch|
    ensures Failed(batch + [c], ok + [o]) == Failed(batch, ok) + (if o then {} else {c.node})
  {
    var longer, oks := batch + [c], ok + [o];
    if batch == [] {
      assert longer[1..] == [] && oks[1..] == [];
    } else {
      FailedSnoc(batch[1..], ok[1..], c, o);
      assert longer[1..] == batch[1..] + [c] && oks[1..] == ok[1..] + [o] && longer[0] == batch[0] && oks[0] == ok[0];
    }
  }

  lemma ResponseKeepsValid(p: Paths, source: Carrier, r: Response, now: int)
    requires ValidPaths(p)
    ensures ValidPaths(HandleResponse(p, source, r, now).0)
  {
    hide ValidPaths, Prune, Delete;
    PruneKeepsValid(p, now);
    DeleteKeepsValid(Prune(p, now), Key(r.id, r.target));
  }

  // A response goes back to the peer the request came from, promising no more than any link so far carries, and only
  // once: the entry is used up.
  lemma ResponseGoesBackOnce(p: Paths, source: Carrier, r: Response, now: int, again: Carrier, later: int)
    ensures var (after, sent) := HandleResponse(p, source, r, now);
      var key := Key(r.id, r.target);
      sent.Some? ==>
        && key in p.entries && p.entries[key].expiresAt > now && sent.value.0 == p.entries[key].peer && sent.value.0 != source
        && sent.value.1.pathMtu <= r.pathMtu && sent.value.1.pathMtu <= source.capacity
        && sent.value.1.pathMtu <= sent.value.0.capacity && sent.value.1.pathMtu >= p.entries[key].request.minMtu
        && HandleResponse(after, again, r, later).1.None?
  {
    hide Unexpired, Without;
  }

  // ---- A batch of sends and the hops remembered ----

  // What a request does to the hops remembered under a key, as long as the same entry is there before and after: those of
  // its batch are added, and none of them was there before.
  lemma RequestRemembers(p: Paths, env: Surroundings, source: Carrier, r: Request, key: Key)
    ensures var (after, outcome) := HandleRequest(p, env, source, r);
      var sent := if outcome.Forwarded? && KeyOf(r) == key then outcome.nextHops else [];
      && (key in after.entries && key in p.entries && after.entries[key].expiresAt == p.entries[key].expiresAt ==>
        && after.entries[key].forwarded == p.entries[key].forwarded + Nodes(sent)
        && (forall c :: c in sent ==> c.node !in p.entries[key].forwarded)
        && (sent != [] ==> Remembered(Prune(p, env.now), key) == p.entries[key].forwarded))
      && (key in after.entries && key !in p.entries ==>
        && KeyOf(r) == key && outcome.Forwarded? && after.entries[key].forwarded == Nodes(sent)
        && Remembered(Prune(p, env.now), key) == {})
      && (key !in after.entries && key !in p.entries ==> sent == [])
  {
    hide Candidates, Unexpired, Nodes, NotYet;
  }

  function Remembered(p: Paths, key: Key): set<NodeId> {
    if key in p.entries then p.entries[key].forwarded else {}
  }

  // No two of the links lead to one node, unless the request went there before.
  predicate NoTwoLinks(links: seq<Carrier>, forwarded: set<NodeId>) {
    forall i, j :: 0 <= i < j < |links| && links[i].node !in forwarded ==> links[i].node != links[j].node
  }

  // A route is known, or the fallback links it would use lead to different nodes.
  predicate OneLinkPerNode(env: Surroundings, source: Carrier, r: Request, forwarded: set<NodeId>) {
    env.nextHop.Some? || NoTwoLinks(FirstSixteen(Fallbacks(env, source, r, env.peers)), forwarded)
  }

  function NodesOf(batch: seq<Carrier>): (r: seq<NodeId>)
    ensures |r| == |batch| && forall i :: 0 <= i < |batch| ==> r[i] == batch[i].node
  {
    if batch == [] then [] else [batch[0].node] + NodesOf(batch[1..])
  }

  predicate LeadsTo(links: seq<Carrier>, node: NodeId) {
    exists i :: 0 <= i < |links| && links[i].node == node
  }

  // One link more: a second one to a node of the others must go to a remembered node.
  lemma NoTwoLinksStep(links: seq<Carrier>, forwarded: set<NodeId>)
    requires links != []
    ensures NoTwoLinks(links, forwarded)
      <==> NoTwoLinks(links[1..], forwarded) && (links[0].node in forwarded || !LeadsTo(links[1..], links[0].node))
  {
    var tail := links[1..];
    assert forall i :: 0 <= i < |tail| ==> tail[i] == links[i + 1];
    if NoTwoLinks(links, forwarded) {
      assert forall i, j :: 0 <= i < j < |tail| ==> tail[i] == links[i + 1] && tail[j] == links[j + 1];
    }
  }

  lemma NoRepeatsStep(nodes: seq<NodeId>)
    requires nodes != []
    ensures NoRepeats(nodes) <==> NoRepeats(nodes[1..]) && nodes[0] !in nodes[1..]
  {
    var tail := nodes[1..];
    assert forall i :: 0 <= i < |tail| ==> tail[i] == nodes[i + 1];
    if NoRepeats(nodes) {
      assert forall i, j :: 0 <= i < j < |tail| ==> tail[i] == nodes[i + 1] && tail[j] == nodes[j + 1];
    }
  }

  lemma NodesLeadTo(links: seq<Carrier>, node: NodeId)
    ensures node in NodesOf(links) <==> LeadsTo(links, node)
  {
    if LeadsTo(links, node) {
      var i :| 0 <= i < |links| && links[i].node == node;
      assert NodesOf(links)[i] == node;
    }
  }

  lemma NotYetLeadsTo(links: seq<Carrier>, forwarded: set<NodeId>, node: NodeId)
    requires node !in forwarded
    ensures LeadsTo(NotYet(links, forwarded), node) <==> LeadsTo(links, node)
  {
    var rest := NotYet(links, forwarded);
    if LeadsTo(links, node) {
      var i :| 0 <= i < |links| && links[i].node == node;
      assert links[i] in rest;
    }
    if LeadsTo(rest, node) {
      var i :| 0 <= i < |rest| && rest[i].node == node;
      assert rest[i] in links;
    }
  }

  lemma {:induction false} NotYetIsDistinctExactlyIf(links: seq<Carrier>, forwarded: set<NodeId>)
    ensures NoRepeats(NodesOf(NotYet(links, forwarded))) <==> NoTwoLinks(links, forwarded)
  {
    if links != [] {
      hide NoTwoLinks, NoRepeats, LeadsTo;
      NoTwoLinksStep(links, forwarded);
      NotYetIsDistinctExactlyIf(links[1..], forwarded);
      var rest := NotYet(links[1..], forwarded);
      if links[0].node !in forwarded {
        var nodes := NodesOf([links[0]] + rest);
        NoRepeatsStep(nodes);
        assert nodes[1..] == NodesOf(rest);
        NodesLeadTo(rest, links[0].node);
        NotYetLeadsTo(links[1..], forwarded, links[0].node);
      } else {
        assert [] + rest == rest;
      }
    } else {
      assert NodesOf(NotYet([], forwarded)) == [];
    }
  }

  // The next hops of a batch are different nodes exactly if a route was known or no two of the first sixteen fallback links
  // lead to one node not yet remembered.
  lemma BatchIsDistinctExactlyIf(p: Paths, env: Surroundings, source: Carrier, r: Request)
    requires HandleRequest(p, env, source, r).1.Forwarded?
    ensures NoRepeats(NodesOf(HandleRequest(p, env, source, r).1.nextHops))
      <==> OneLinkPerNode(env, source, r, Remembered(Prune(p, env.now), KeyOf(r)))
  {
    var forwarded := Remembered(Prune(p, env.now), KeyOf(r));
    NotYetIsDistinctExactlyIf(Candidates(env, source, r), forwarded);
    hide Fallbacks, Prune, Nodes, NotYet, NodesOf;
  }

  // The request handler makes a batch that is not: with no route and two established links to one neighbour it sends the
  // request over both.
  lemma FallbackReachesANeighbourTwice()
    ensures var a, b := Carrier(7, 0, true, 1500), Carrier(7, 1, true, 1500);
      var env := Surroundings(1, true, true, NoTreePeer, [a, b], None, false, 0);
      var r := Request(5, 9, 3, 8, 0);
      HandleRequest(Paths(map[], []), env, Carrier(3, 0, true, 1500), r).1 == Forwarded([a, b], false)
  {
    var a, b, source := Carrier(7, 0, true, 1500), Carrier(7, 1, true, 1500), Carrier(3, 0, true, 1500);
    var env := Surroundings(1, true, true, NoTreePeer, [a, b], None, false, 0);
    var r := Request(5, 9, 3, 8, 0);
    assert [a, b][1..] == [b] && [b][1..] == [];
    assert Fallbacks(env, source, r, [b]) == [b];
    assert Fallbacks(env, source, r, [a, b]) == [a, b];
    assert NotYet([b], {}) == [b];
    assert NotYet([a, b], {}) == [a, b];
    assert Prune(Paths(map[], []), 0).entries == map[];
  }

  function NoTreePeer(node: NodeId): bool {
    false
  }

  // ---- The lookup part of FipsRouting ----

  lemma {:induction false} UnexpiredSnoc(entries: map<Key, Reverse>, order: seq<Key>, k: Key, now: int)
    ensures Unexpired(entries, order + [k], now) == Unexpired(entries, order, now) + KeptKey(entries, k, now)
    decreases |order|
  {
    hide KeptKey;
    var longer := order + [k];
    if order == [] {
      assert longer[1..] == [];
    } else {
      UnexpiredSnoc(entries, order[1..], k, now);
      assert longer[1..] == order[1..] + [k] && longer[0] == order[0];
    }
  }

  lemma NothingUnexpired(entries: map<Key, Reverse>, now: int)
    ensures Unexpired(entries, [], now) == []
  {
  }

  lemma StoredTwice(p: Paths, key: Key, a: Reverse, b: Reverse)
    ensures Stored(Stored(p, key, a), key, b) == Stored(p, key, b)
  {
    assert p.entries[key := a][key := b] == p.entries[key := b];
  }

  // The entries of the keys done so far are marked as sent to the peer where they go to it, and their requests collected, each
  // once.
  ghost predicate Marked(kept: Paths, peer: Carrier, done: seq<Key>, entries: map<Key, Reverse>) {
    && entries.Keys == kept.entries.Keys
    && forall k :: k in entries ==> entries[k] == if k in done then Replayed(kept, k, peer) else kept.entries[k]
  }

  ghost predicate Collected(kept: Paths, peer: Carrier, done: seq<Key>, requests: seq<Request>) {
    && NoRepeats(requests)
    && forall r :: r in requests <==> exists k :: k in done && Replays(kept, k, peer) && kept.entries[k].request == r
  }

  // The requests that went to a peer that just connected, and what is remembered of them.
  ghost predicate ReplayedTo(p: Paths, peer: Carrier, now: int, after: Paths, requests: seq<Request>) {
    var kept := Prune(p, now);
    after.order == kept.order && Marked(kept, peer, kept.order, after.entries) && Collected(kept, peer, kept.order, requests)
  }

  lemma MarkedMore(kept: Paths, peer: Carrier, done: seq<Key>, entries: map<Key, Reverse>, k: Key)
    requires Marked(kept, peer, done, entries) && k in kept.entries && k !in done
    ensures entries[k] == kept.entries[k] && Marked(kept, peer, done + [k], entries[k := Replayed(kept, k, peer)])
  {
    hide Replayed;
  }

  lemma CollectedMore(kept: Paths, peer: Carrier, done: seq<Key>, requests: seq<Request>, k: Key)
    requires ValidPaths(kept) && Collected(kept, peer, done, requests) && k in kept.entries && k !in done
    ensures Collected(kept, peer, done + [k], requests + (if Replays(kept, k, peer) then [kept.entries[k].request] else []))
  {
    EntryKnowsItsKey(kept, k);
    var r := kept.entries[k].request;
    forall other | other in done && Replays(kept, other, peer) ensures other in kept.entries && kept.entries[other].request != r {
      EntryKnowsItsKey(kept, other);
    }
    hide Replays, NoRepeats, ValidPaths;
    assert requests + [] == requests;
    NoRepeatsMore(requests, r);
  }

  class LookupForwarder {
    var entries: map<Key, Reverse>
    var order: seq<Key>

    ghost function Value(): Paths
      reads this
    {
      Paths(entries, order)
    }

    ghost predicate Valid()
      reads this
    {
      ValidPaths(Value())
    }

    constructor ()
      ensures Valid() && Value() == Paths(map[], [])
    {
      entries, order := map[], [];
    }

    method PruneReversePaths(now: int)
      requires Valid()
      modifies this
      ensures Valid() && Value() == Prune(old(Value()), now)
    {
      hide Unexpired, ValidPaths;
      PruneKeepsValid(Value(), now);
      ghost var before := Value();
      ghost var all := entries;
      OrderIsEntries(before);
      assert order[..0] == [];
      assert Unexpired(all, [], now) == [] by {
        NothingUnexpired(all, now);
      }
      var kept: seq<Key> := [];
      for i := 0 to |order|
        invariant order == before.order
        invariant kept == Unexpired(all, order[..i], now)
        invariant forall k :: k in entries <==> k in all && (k in order[..i] ==> all[k].expiresAt > now)
        invariant forall k :: k in entries ==> entries[k] == all[k]
      {
        var k := order[i];
        UnexpiredSnoc(all, order[..i], k, now);
        assert order[..i + 1] == order[..i] + [k];
        OrderAt(before, i);
        if entries[k].expiresAt <= now {
          entries := entries - {k};
        } else {
          kept := kept + [k];
        }
      }
      assert order[..|order|] == order;
      order := kept;
      assert entries == Prune(before, now).entries;
    }

    method ReserveReversePath()
      requires Valid()
      modifies this
      ensures Valid() && Value() == Reserve(old(Value()))
    {
      ReserveMakesRoom(Value());
      if |entries| < MAX_LOOKUP_REVERSE_PATHS || order == [] {
        return;
      }
      entries := entries - {order[0]};
      order := order[1..];
    }

    method Store(key: Key, reverse: Reverse)
      modifies this
      ensures Value() == Stored(old(Value()), key, reverse)
    {
      if key !in entries {
        order := order + [key];
      }
      entries := entries[key := reverse];
    }

    // Up to the sends: the outcome names the next hops they go to.
    method HandleLookupRequest(env: Surroundings, source: Carrier, r: Request) returns (outcome: Outcome)
      requires Valid()
      modifies this
      ensures Valid() && (Value(), outcome) == HandleRequest(old(Value()), env, source, r)
    {
      hide ValidPaths, Prune, Reserve, Candidates, NotYet, Nodes;
      RequestKeepsValid(Value(), env, source, r);
      if source.capacity < r.minMtu {
        return Dropped;
      }
      if r.target == env.self {
        return Answered(Response(r.id, r.target, source.capacity));
      }
      if !env.forwarding || r.ttl == 0 {
        return Dropped;
      }
      var key := KeyOf(r);
      PruneReversePaths(env.now);
      var existing := key in entries;
      if existing && entries[key].peer.node != source.node {
        return Dropped;
      }
      ghost var kept := Value();
      if existing {
        Store(key, entries[key].(peer := source));
      }
      var candidates := Candidates(env, source, r);
      var reverse := if existing then entries[key] else NewReverse(env, source, r);
      var nextHops := NotYet(candidates, reverse.forwarded);
      var resolves := candidates == [] && env.resolvable;
      if nextHops == [] && !resolves {
        return Dropped;
      }
      if !existing {
        ReserveReversePath();
      }
      StoredTwice(kept, key, reverse, reverse.(forwarded := reverse.forwarded + Nodes(nextHops)));
      Store(key, reverse.(forwarded := reverse.forwarded + Nodes(nextHops)));
      outcome := Forwarded(nextHops, resolves);
    }

    // The end of handleLookupRequest, when every send of the batch has ended.
    method SettleSends(key: Key, batch: seq<Carrier>, ok: seq<bool>) returns (failed: bool)
      requires Valid() && batch != [] && |ok| == |batch|
      modifies this
      ensures Valid() && Value() == Settled(old(Value()), key, batch, ok)
      ensures failed == AllRejected(ok)
    {
      hide ValidPaths;
      SettlingKeepsValid(Value(), key, batch, ok);
      failed := true;
      var rest := if key in entries then entries[key].forwarded else {};
      ghost var before := rest;
      for i := 0 to |batch|
        invariant entries == old(entries) && order == old(order)
        invariant failed == AllRejected(ok[..i])
        invariant rest == before - Failed(batch[..i], ok[..i])
      {
        TakeOneMore(batch, i);
        TakeOneMore(ok, i);
        FailedSnoc(batch[..i], ok[..i], batch[i], ok[i]);
        if ok[i] {
          failed := false;
          assert ok[..i + 1][i];
        } else {
          rest := rest - {batch[i].node};
        }
      }
      assert batch[..|batch|] == batch && ok[..|ok|] == ok;
      if key in entries {
        if failed && rest == {} {
          entries := entries - {key};
          order := Without(order, key);
        } else {
          Store(key, entries[key].(forwarded := rest));
        }
      }
    }

    method HandleSendFailure(key: Key, hop: NodeId)
      requires Valid()
      modifies this
      ensures Valid() && Value() == SendFailed(old(Value()), key, hop)
    {
      if key in entries {
        StoringKeepsValid(Value(), key, entries[key].(forwarded := entries[key].forwarded - {hop}));
        Store(key, entries[key].(forwarded := entries[key].forwarded - {hop}));
      }
    }

    method ForwardLookupResponse(source: Carrier, r: Response, now: int) returns (sent: Option<(Carrier, Response)>)
      requires Valid()
      modifies this
      ensures Valid() && (Value(), sent) == HandleResponse(old(Value()), source, r, now)
    {
      hide ValidPaths, Prune;
      ResponseKeepsValid(Value(), source, r, now);
      PruneReversePaths(now);
      var key := Key(r.id, r.target);
      if key !in entries || entries[key].peer == source {
        return None;
      }
      var reverse := entries[key];
      var mtu := Min(r.pathMtu, Min(source.capacity, reverse.peer.capacity));
      if mtu < reverse.request.minMtu {
        return None;
      }
      entries := entries - {key};
      order := Without(order, key);
      sent := Some((reverse.peer, r.(pathMtu := mtu)));
    }

    // The pending requests for a peer that just connected, each marked as sent to it; current: the peer is still the one
    // this node knows under that address.
    method ReplayPendingLookups(peer: Carrier, current: bool, now: int) returns (requests: seq<Request>)
      requires Valid()
      modifies this
      ensures Valid()
      ensures if peer.established && current then ReplayedTo(old(Value()), peer, now, Value(), requests)
              else Value() == old(Value()) && requests == []
    {
      if !peer.established || !current {
        return [];
      }
      hide ValidPaths, Prune, Replays, Replayed;
      requests := MarkAndCollect(peer, now);
    }

    method MarkAndCollect(peer: Carrier, now: int) returns (requests: seq<Request>)
      requires Valid()
      modifies this
      ensures Valid() && ReplayedTo(old(Value()), peer, now, Value(), requests)
    {
      hide ValidPaths, Replays, Prune, KeyOf, Marked, Collected;
      PruneReversePaths(now);
      ghost var kept := Value();
      requests := [];
      NothingMarked(kept, peer);
      for i := 0 to |order|
        invariant order == kept.order && Valid()
        invariant Marked(kept, peer, order[..i], entries)
        invariant Collected(kept, peer, order[..i], requests)
      {
        var k := order[i];
        OrderAt(kept, i);
        assert order[..i + 1] == order[..i] + [k];
        MarkedMore(kept, peer, order[..i], entries, k);
        CollectedMore(kept, peer, order[..i], requests, k);
        MarkedHasKeys(kept, peer, order[..i], entries);
        ReplaysLooksAtOneEntry(kept, Value(), k, peer);
        if Replays(Paths(entries, order), k, peer) {
          EntryKnowsItsKey(Value(), k);
          requests := requests + [entries[k].request];
          StoringKeepsValid(Value(), k, entries[k].(forwarded := entries[k].forwarded + {peer.node}));
          Store(k, entries[k].(forwarded := entries[k].forwarded + {peer.node}));
        } else {
          assert entries[k := entries[k]] == entries;
          assert requests + [] == requests;
        }
      }
      assert order[..|order|] == order;
    }
  }

  lemma NothingMarked(kept: Paths, peer: Carrier)
    ensures Marked(kept, peer, [], kept.entries) && Collected(kept, peer, [], [])
  {
  }

  lemma MarkedHasKeys(kept: Paths, peer: Carrier, done: seq<Key>, entries: map<Key, Reverse>)
    requires Marked(kept, peer, done, entries)
    ensures entries.Keys == kept.entries.Keys
  {
  }

  lemma ReplaysLooksAtOneEntry(p: Paths, q: Paths, key: Key, peer: Carrier)
    requires key in p.entries && key in q.entries && p.entries[key] == q.entries[key]
    ensures Replays(p, key, peer) == Replays(q, key, peer)
  {
  }

  lemma OrderAt(p: Paths, i: nat)
    requires ValidPaths(p) && i < |p.order|
    ensures p.order[i] in p.entries && p.order[i] !in p.order[..i] && KeyOf(p.entries[p.order[i]].request) == p.order[i]
  {
  }

  lemma OrderIsEntries(p: Paths)
    requires ValidPaths(p)
    ensures forall k :: k in p.order <==> k in p.entries
  {
  }
}
