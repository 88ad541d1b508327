/**
 * When a lookup request is answered, dropped or forwarded, when its response goes back, and what a whole lookup through a
 * line of nodes returns (packages/core/src/node/FipsRouting.ts, handleLookupRequest and forwardLookupResponse).
 */
module LookupOutcomes {
  import opened Wrappers
  import opened Collections
  import opened LookupRequests

  // The entry that is live under a key.
  function Pending(p: Paths, key: Key, now: int): Option<Reverse> {
    if key in p.entries && p.entries[key].expiresAt > now then Some(p.entries[key]) else None
  }

  lemma PruneIs(p: Paths, key: Key, now: int)
    ensures key in Prune(p, now).entries <==> Pending(p, key, now).Some?
    ensures key in Prune(p, now).entries ==> Prune(p, now).entries[key] == p.entries[key] == Pending(p, key, now).value
    ensures Pending(p, key, now).Some? ==> Pending(p, key, now).value.expiresAt > now
    ensures Pending(Prune(p, now), key, now) == Pending(p, key, now)
  {
  }

  // The links a request without a route may go over.
  predicate Eligible(env: Surroundings, source: Carrier, r: Request, link: Carrier) {
    && link != source && link.established && link.node != r.origin && link.capacity >= r.minMtu
    && (env.replyLearned || env.isTreePeer(link.node))
  }

  function EligibleLinks(env: Surroundings, source: Carrier, r: Request, links: seq<Carrier>): seq<Carrier> {
    if links == [] then []
    else if Eligible(env, source, r, links[0]) then [links[0]] + EligibleLinks(env, source, r, links[1..])
    else EligibleLinks(env, source, r, links[1..])
  }

  function NewLinks(links: seq<Carrier>, used: set<NodeId>): seq<Carrier> {
    if links == [] then []
    else if links[0].node in used then NewLinks(links[1..], used)
    else [links[0]] + NewLinks(links[1..], used)
  }

  // Where a request would go: over the route, or over the first sixteen eligible links.
  function Ways(env: Surroundings, source: Carrier, r: Request): seq<Carrier> {
    if env.nextHop.Some? then [env.nextHop.value]
    else
      var links := EligibleLinks(env, source, r, env.peers);
      if |links| <= 16 then links else links[..16]
  }

  lemma {:induction false} FallbacksAre(env: Surroundings, source: Carrier, r: Request, links: seq<Carrier>)
    ensures Fallbacks(env, source, r, links) == EligibleLinks(env, source, r, links)
  {
    if links != [] {
      FallbacksAre(env, source, r, links[1..]);
    }
  }

  lemma {:induction false} NotYetIs(links: seq<Carrier>, used: set<NodeId>)
    ensures NotYet(links, used) == NewLinks(links, used)
  {
    if links != [] {
      NotYetIs(links[1..], used);
    }
  }

  lemma WaysAre(env: Surroundings, source: Carrier, r: Request)
    ensures Candidates(env, source, r) == Ways(env, source, r)
  {
    FallbacksAre(env, source, r, env.peers);
  }

  // A request over a link too narrow for it is dropped; at its target it is answered, with the capacity of the link it came
  // over; a node that does not forward, or a request whose hops are used up, ends it; so does a live entry for another node.
  // Otherwise it goes over its ways that lead to nodes it has not gone to, or waits for the target to be resolved if there
  // is no way at all; the node remembers for 30 seconds whom to answer, where the request went, and what to ask further.
  lemma RequestOutcome(p: Paths, env: Surroundings, source: Carrier, r: Request)
    ensures var (after, outcome) := HandleRequest(p, env, source, r);
      var key := Key(r.id, r.target);
      var pending := Pending(p, key, env.now);
      if source.capacity < r.minMtu then after == p && outcome == Dropped
      else if r.target == env.self then after == p && outcome == Answered(Response(r.id, r.target, source.capacity))
      else if !env.forwarding || r.ttl == 0 then after == p && outcome == Dropped
      else if pending.Some? && pending.value.peer.node != source.node then outcome == Dropped && Pending(after, key, env.now) == pending
      else
        var used := if pending.Some? then pending.value.forwarded else {};
        var ways := Ways(env, source, r);
        var batch := NewLinks(ways, used);
        if batch == [] && (ways != [] || !env.resolvable) then
          && outcome == Dropped
          && Pending(after, key, env.now) == (if pending.Some? then Some(pending.value.(peer := source)) else None)
        else
          && outcome == Forwarded(batch, ways == [] && env.resolvable)
          && Pending(after, key, env.now) == Some(Reverse(
               source, if pending.Some? then pending.value.expiresAt else env.now + 30000, used + set c | c in batch :: c.node,
               if pending.Some? then pending.value.request else r.(ttl := r.ttl - 1)))
  {
    hide Candidates, NotYet, Ways, NewLinks, Prune, Nodes, Stored, Reserve, Pending;
    var key := Key(r.id, r.target);
    var kept := Prune(p, env.now);
    PruneIs(p, key, env.now);
    var pending := Pending(p, key, env.now);
    var used := if pending.Some? then pending.value.forwarded else {};
    var batch := NewLinks(Ways(env, source, r), used);
    WaysAre(env, source, r);
    NotYetIs(Ways(env, source, r), used);
    NodesAre(batch);
    if pending.Some? {
      var reverse := pending.value.(peer := source);
      StoredIsPending(kept, key, reverse, env.now);
      StoredIsPending(kept, key, reverse.(forwarded := reverse.forwarded + Nodes(batch)), env.now);
    } else {
      var reverse := NewReverse(env, source, r);
      StoredIsPending(Reserve(kept), key, reverse.(forwarded := reverse.forwarded + Nodes(batch)), env.now);
    }
  }

  lemma StoredIsPending(p: Paths, key: Key, reverse: Reverse, now: int)
    requires reverse.expiresAt > now
    ensures Pending(Stored(p, key, reverse), key, now) == Some(reverse)
  {
  }

  lemma NodesAre(links: seq<Carrier>)
    ensures Nodes(links) == set c | c in links :: c.node
  {
    assert forall n :: n in Nodes(links) ==> exists i :: 0 <= i < |links| && links[i].node == n;
  }

  // A request changes no live entry but its own, unless it is new and the table full: then the oldest one is given up.
  lemma OtherEntriesStay(p: Paths, env: Surroundings, source: Carrier, r: Request, k: Key)
    requires k != Key(r.id, r.target)
    ensures var after := HandleRequest(p, env, source, r).0;
      || Pending(after, k, env.now) == Pending(p, k, env.now)
      || (Pending(p, Key(r.id, r.target), env.now).None? && |Prune(p, env.now).entries| >= 256 && Prune(p, env.now).order != []
          && k == Prune(p, env.now).order[0] && Pending(after, k, env.now).None?)
  {
    hide Candidates, NotYet, Nodes, Unexpired;
  }

  // The least of three capacities.
  predicate IsLeast(mtu: nat, a: nat, b: nat, d: nat) {
    mtu <= a && mtu <= b && mtu <= d && (mtu == a || mtu == b || mtu == d)
  }

  // A response goes back exactly if the request is remembered, came over another link, and is content with what both links
  // and the path so far carry; it then promises exactly that, and the request is forgotten. No other entry is touched.
  lemma ResponseOutcome(p: Paths, source: Carrier, r: Response, now: int) returns (mtu: nat)
    ensures var (after, sent) := HandleResponse(p, source, r, now);
      var key := Key(r.id, r.target);
      var pending := Pending(p, key, now);
      && (pending.Some? ==> IsLeast(mtu, r.pathMtu, source.capacity, pending.value.peer.capacity))
      && (if pending.Some? && pending.value.peer != source && pending.value.request.minMtu <= mtu then
            sent == Some((pending.value.peer, Response(r.id, r.target, mtu))) && key !in after.entries
          else sent == None && Pending(after, key, now) == pending)
      && forall k {:trigger Pending(after, k, now)} :: k != key ==> Pending(after, k, now) == Pending(p, k, now)
  {
    hide Unexpired, Without;
    var pending := Pending(p, Key(r.id, r.target), now);
    mtu := if pending.Some? then Min(r.pathMtu, Min(source.capacity, pending.value.peer.capacity)) else 0;
  }

  // A node that connects is sent exactly the live requests for it that did not come from it, have not gone to it and are content
  // with the link; they count as sent to it, and no other entry changes.
  lemma ReplayOutcome(p: Paths, peer: Carrier, now: int, after: Paths, requests: seq<Request>, key: Key)
    requires ValidPaths(p) && ReplayedTo(p, peer, now, after, requests)
    ensures var entry := Pending(p, key, now);
      var sent := entry.Some? && key.target == peer.node && entry.value.peer.node != peer.node
                  && peer.node !in entry.value.forwarded && entry.value.request.minMtu <= peer.capacity;
      && (sent ==> entry.value.request in requests)
      && Pending(after, key, now) ==
         if sent then Some(entry.value.(forwarded := entry.value.forwarded + {peer.node})) else entry
    ensures forall r :: r in requests && Key(r.id, r.target) == key ==>
      Pending(p, key, now).Some? && Pending(p, key, now).value.request == r && key.target == peer.node
  {
    PruneIs(p, key, now);
    PruneKeepsValid(p, now);
    var kept := Prune(p, now);
    assert key in kept.entries ==> key in kept.order;
    forall r | r in requests && Key(r.id, r.target) == key
      ensures Pending(p, key, now).Some? && Pending(p, key, now).value.request == r && key.target == peer.node
    {
      var k :| k in kept.order && Replays(kept, k, peer) && kept.entries[k].request == r;
      EntryKnowsItsKey(kept, k);
    }
    hide Prune, ValidPaths;
  }

  // When the sends of a batch have ended, what was sent to stays remembered and what failed is forgotten; the entry goes if
  // nothing was sent and nothing is remembered.
  lemma SettlingOutcome(p: Paths, key: Key, batch: seq<Carrier>, ok: seq<bool>)
    requires |ok| == |batch| && key in p.entries
    ensures var after := Settled(p, key, batch, ok);
      var rest := p.entries[key].forwarded - (set k | 0 <= k < |batch| && !ok[k] :: batch[k].node);
      && (if rest == {} && (forall k :: 0 <= k < |ok| ==> !ok[k]) then key !in after.entries
          else key in after.entries && after.entries[key] == p.entries[key].(forwarded := rest))
      && forall k {:trigger k in after.entries} :: k != key ==>
        (k in after.entries <==> k in p.entries) && (k in p.entries ==> after.entries[k] == p.entries[k])
  {
    hide Without;
    FailedAre(batch, ok);
  }

  lemma {:induction false} FailedAre(batch: seq<Carrier>, ok: seq<bool>)
    requires |ok| == |batch|
    ensures Failed(batch, ok) == set k | 0 <= k < |batch| && !ok[k] :: batch[k].node
  {
    var failed := set k | 0 <= k < |batch| && !ok[k] :: batch[k].node;
    if batch != [] {
      var tail, oks := batch[1..], ok[1..];
      FailedAre(tail, oks);
      var rest := set k | 0 <= k < |tail| && !oks[k] :: tail[k].node;
      forall n ensures n in failed <==> n in rest || (!ok[0] && n == batch[0].node) {
        if n in rest {
          var k :| 0 <= k < |tail| && !oks[k] && tail[k].node == n;
          assert batch[k + 1].node == n && !ok[k + 1];
        }
        if n in failed {
          var k :| 0 <= k < |batch| && !ok[k] && batch[k].node == n;
          assert k > 0 ==> tail[k - 1].node == n && !oks[k - 1];
        }
      }
    }
  }

  // A hop found later is sent to exactly if the request is remembered and has not gone there; if the send fails it is forgotten.
  lemma LaterHopOutcome(p: Paths, key: Key, hop: Carrier)
    ensures var (after, sends) := ForwardLater(p, key, hop);
      && sends == (key in p.entries && hop.node !in p.entries[key].forwarded)
      && (!sends ==> after == p)
      && (sends ==>
        && key in after.entries && after.order == p.order
        && after.entries == p.entries[key := p.entries[key].(forwarded := p.entries[key].forwarded + {hop.node})]
        && SendFailed(after, key, hop.node) == p)
  {
    var (after, sends) := ForwardLater(p, key, hop);
    if sends {
      var reverse := p.entries[key];
      assert reverse.forwarded + {hop.node} - {hop.node} == reverse.forwarded;
      assert reverse.(forwarded := reverse.forwarded) == reverse;
      assert p.entries[key := reverse.(forwarded := reverse.forwarded + {hop.node})][key := reverse] == p.entries;
    }
  }

  // ---- A lookup through a line of nodes ----

  // A node on the way: its table and surroundings when the request comes over `source`, and its table when the response does.
  datatype Relay = Relay(paths: Paths, env: Surroundings, source: Carrier, back: Paths, backAt: int)

  function Hopped(r: Request): Request {
    r.(ttl := if r.ttl == 0 then 0 else r.ttl - 1)
  }

  // It forwards, has a route over another link, hears of the request for the first time, and still remembers it when the
  // response comes, whatever else it has handled.
  predicate Ready(x: Relay, r: Request) {
    var key := Key(r.id, r.target);
    && x.env.forwarding && x.env.self != r.target && x.env.nextHop.Some? && x.env.nextHop.value != x.source
    && Pending(x.paths, key, x.env.now).None?
    && var entry := Pending(x.back, key, x.backAt);
       entry.Some? && entry.value.peer == x.source && entry.value.request == Hopped(r)
  }

  predicate AllReady(relays: seq<Relay>, r: Request)
    decreases |relays|
  {
    relays == [] || (Ready(relays[0], r) && AllReady(relays[1..], Hopped(r)))
  }

  // The request goes down the line to the last node, and what that node answers comes back up.
  function Trip(relays: seq<Relay>, last: Relay, r: Request): Option<Response>
    decreases |relays|
  {
    if relays == [] then
      var answer := HandleRequest(last.paths, last.env, last.source, r).1;
      if answer.Answered? then Some(answer.response) else None
    else
      var x := relays[0];
      var (after, outcome) := HandleRequest(x.paths, x.env, x.source, r);
      var sent := Pending(after, KeyOf(r), x.env.now);
      if !outcome.Forwarded? || |outcome.nextHops| != 1 || sent.None? then None
      else
        var reply := Trip(relays[1..], last, sent.value.request);
        if reply.None? then None
        else
          var returned := HandleResponse(x.back, outcome.nextHops[0], reply.value, x.backAt).1;
          if returned.Some? && returned.value.0 == x.source then Some(returned.value.1) else None
  }

  // The least capacity on the way, at either end of any link.
  function Narrowest(relays: seq<Relay>, last: Relay): nat
    requires forall k :: 0 <= k < |relays| ==> relays[k].env.nextHop.Some?
  {
    if relays == [] then last.source.capacity
    else
      var rest := Narrowest(relays[1..], last);
      var here := if relays[0].source.capacity <= relays[0].env.nextHop.value.capacity then relays[0].source.capacity
                  else relays[0].env.nextHop.value.capacity;
      if rest <= here then rest else here
  }

  lemma {:induction false} ReadyHaveRoutes(relays: seq<Relay>, r: Request)
    requires AllReady(relays, r)
    ensures forall k :: 0 <= k < |relays| ==> relays[k].env.nextHop.Some?
    decreases |relays|
  {
    if relays != [] {
      ReadyHaveRoutes(relays[1..], Hopped(r));
      assert forall k :: 0 < k < |relays| ==> relays[k] == relays[1..][k - 1];
    }
  }

  lemma RelayForwards(x: Relay, r: Request)
    requires Ready(x, r)
    ensures var (after, outcome) := HandleRequest(x.paths, x.env, x.source, r);
      if x.source.capacity < r.minMtu || r.ttl == 0 then outcome == Dropped
      else
        && outcome == Forwarded([x.env.nextHop.value], false)
        && Pending(after, KeyOf(r), x.env.now).Some? && Pending(after, KeyOf(r), x.env.now).value.request == Hopped(r)
  {
    hide HandleRequest;
    RequestOutcome(x.paths, x.env, x.source, r);
    assert NewLinks([x.env.nextHop.value], {}) == [x.env.nextHop.value] + NewLinks([x.env.nextHop.value][1..], {});
  }

  // A whole lookup: it returns exactly if its hops suffice and no link on the way is narrower than it asks for, and then
  // it brings the capacity of the narrowest of them.
  lemma {:induction false} LookupReturns(relays: seq<Relay>, last: Relay, r: Request)
    requires AllReady(relays, r) && last.env.self == r.target
    ensures forall k :: 0 <= k < |relays| ==> relays[k].env.nextHop.Some?
    ensures var narrowest := Narrowest(relays, last);
      Trip(relays, last, r) ==
      if |relays| <= r.ttl && r.minMtu <= narrowest then Some(Response(r.id, r.target, narrowest)) else None
    decreases |relays|
  {
    ReadyHaveRoutes(relays, r);
    if relays == [] {
      hide HandleRequest;
      RequestOutcome(last.paths, last.env, last.source, r);
    } else {
      hide HandleRequest, HandleResponse;
      var x := relays[0];
      RelayForwards(x, r);
      LookupReturns(relays[1..], last, Hopped(r));
      if r.ttl > 0 && x.source.capacity >= r.minMtu {
        var reply := Trip(relays[1..], last, Hopped(r));
        if reply.Some? {
          var mtu := ResponseOutcome(x.back, x.env.nextHop.value, reply.value, x.backAt);
        }
      }
    }
  }
}
