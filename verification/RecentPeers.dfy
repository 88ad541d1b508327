/**
 * The cache of recently authenticated peers and their endpoints (packages/core/src/recentPeers.ts).
 *
 * A canonical address is an opaque ordered key. Peers of one time rank by descending npub, so a peer's key is the negative
 * of its place in the order of npubs.
 */
module RecentPeers {
  import opened Wrappers
  import opened TopK

  const RECENT_PEERS_MAX_PEERS: nat := 256
  const RECENT_PEERS_MAX_ENDPOINTS: nat := 4
  const MAX_SAFE_INTEGER: nat := 0x1f_ffff_ffff_ffff

  datatype Transport = Udp

  type Endpoint = Item<Transport>

  type PeerEntry = Item<seq<Endpoint>>

  // local: the key of the local identity; peers in the order of the record.
  datatype Cache = Cache(local: int, peers: seq<PeerEntry>)

  // ---- parseRecentPeers, on values of the right shape ----

  predicate ParsesEndpoints(endpoints: seq<Endpoint>, at: nat) {
    && |endpoints| <= RECENT_PEERS_MAX_ENDPOINTS && DistinctKeys(endpoints)
    && forall i :: 0 <= i < |endpoints| ==> endpoints[i].at <= at
  }

  // A record has each key once.
  predicate Parses(c: Cache) {
    && |c.peers| <= RECENT_PEERS_MAX_PEERS && DistinctKeys(c.peers)
    && forall i :: 0 <= i < |c.peers| ==>
      && c.peers[i].key != c.local && c.peers[i].at <= MAX_SAFE_INTEGER
      && ParsesEndpoints(c.peers[i].value, c.peers[i].at)
  }

  // ---- observeAuthenticatedPeer ----

  function EndpointsOf(peers: seq<PeerEntry>, key: int): (e: seq<Endpoint>)
    ensures !Listed(peers, key) ==> e == []
    ensures Listed(peers, key) ==> exists i :: 0 <= i < |peers| && peers[i].key == key && peers[i].value == e && peers[i].at == TimeOf(peers, key)
  {
    if peers == [] then [] else if peers[0].key == key then peers[0].value
    else
      assert forall i :: 0 <= i < |peers[1..]| ==> peers[1..][i] == peers[i + 1];
      EndpointsOf(peers[1..], key)
  }

  function ObservedEndpoints(endpoints: seq<Endpoint>, at: nat, addr: Option<int>): seq<Endpoint> {
    var all := if addr.Some? then Observed(endpoints, addr.value, at, Udp) else Sort(endpoints);
    Cut(all, RECENT_PEERS_MAX_ENDPOINTS)
  }

  function Observe(c: Cache, key: int, at: nat, addr: Option<int>): Result<Cache> {
    if !Parses(c) then Err("recent peers do not parse")
    else if key == c.local then Err("cannot observe the local identity")
    else if at > MAX_SAFE_INTEGER then Err("bad timestamp")
    else
      var endpoints := ObservedEndpoints(EndpointsOf(c.peers, key), at, addr);
      Ok(c.(peers := Cut(Observed(c.peers, key, at, endpoints), RECENT_PEERS_MAX_PEERS)))
  }

  // ---- pruneRecentPeers ----

  function NotBefore<T>(items: seq<Item<T>>, cutoff: int): (r: seq<Item<T>>)
    ensures forall i :: 0 <= i < |r| ==> r[i].at >= cutoff
  {
    if items == [] then [] else (if items[0].at >= cutoff then [items[0]] else []) + NotBefore(items[1..], cutoff)
  }

  // The peer with its recent endpoints, unless it is too old itself.
  function PrunedEntry(p: PeerEntry, cutoff: int): seq<PeerEntry> {
    if p.at >= cutoff then [p.(value := Sort(NotBefore(p.value, cutoff)))] else []
  }

  function PrunedPeers(peers: seq<PeerEntry>, cutoff: int): seq<PeerEntry> {
    if peers == [] then [] else PrunedEntry(peers[0], cutoff) + PrunedPeers(peers[1..], cutoff)
  }

  function Prune(c: Cache, now: nat, ttl: nat): Result<Cache> {
    if !Parses(c) then Err("recent peers do not parse")
    else if now > MAX_SAFE_INTEGER || ttl > MAX_SAFE_INTEGER then Err("bad timestamp")
    else Ok(c.(peers := Cut(Sort(PrunedPeers(c.peers, now - ttl)), RECENT_PEERS_MAX_PEERS)))
  }

  // ---- Outputs re-parse to themselves ----

  lemma CutKeeps<T(!new)>(items: seq<Item<T>>, k: nat)
    requires DistinctKeys(items)
    ensures DistinctKeys(Cut(items, k)) && |Cut(items, k)| <= k
    ensures forall x :: x in Cut(items, k) ==> x in items
  {
  }

  lemma ObservedEndpointsParse(endpoints: seq<Endpoint>, at: nat, addr: Option<int>, newest: nat)
    requires ParsesEndpoints(endpoints, newest)
    ensures ParsesEndpoints(ObservedEndpoints(endpoints, at, addr), Max(newest, at))
  {
    var all := if addr.Some? then Observed(endpoints, addr.value, at, Udp) else Sort(endpoints);
    if addr.Some? {
      ObservedUpdates(endpoints, addr.value, at, Udp);
    } else {
      SortRanks(endpoints);
      SameItemsStayDistinct(endpoints, all);
    }
    CutKeeps(all, RECENT_PEERS_MAX_ENDPOINTS);
    var cut := Cut(all, RECENT_PEERS_MAX_ENDPOINTS);
    forall i | 0 <= i < |cut| ensures cut[i].at <= Max(newest, at) {
      assert cut[i] in cut;
      assert cut[i] in all;
    }
  }

  lemma ObserveReparses(c: Cache, key: int, at: nat, addr: Option<int>)
    ensures Observe(c, key, at, addr).Ok? ==> Parses(Observe(c, key, at, addr).value)
  {
    if Observe(c, key, at, addr).Ok? {
      var endpoints := ObservedEndpoints(EndpointsOf(c.peers, key), at, addr);
      var all := Observed(c.peers, key, at, endpoints);
      var cut := Cut(all, RECENT_PEERS_MAX_PEERS);
      ObservedUpdates(c.peers, key, at, endpoints);
      CutKeeps(all, RECENT_PEERS_MAX_PEERS);
      ObservedEndpointsParse(EndpointsOf(c.peers, key), at, addr, TimeOf(c.peers, key));
      forall i | 0 <= i < |cut|
        ensures cut[i].key != c.local && cut[i].at <= MAX_SAFE_INTEGER && ParsesEndpoints(cut[i].value, cut[i].at)
      {
        assert cut[i] in cut;
        assert cut[i] in all;
      }
    }
  }

  lemma {:induction false} NotBeforeElements<T(!new)>(items: seq<Item<T>>, cutoff: int)
    ensures |NotBefore(items, cutoff)| <= |items|
    ensures forall x :: x in NotBefore(items, cutoff) <==> x in items && x.at >= cutoff
  {
    if items != [] {
      NotBeforeElements(items[1..], cutoff);
      assert items == [items[0]] + items[1..];
    }
  }

  lemma {:induction false} NotBeforeKeeps<T(!new)>(items: seq<Item<T>>, cutoff: int)
    requires DistinctKeys(items)
    ensures DistinctKeys(NotBefore(items, cutoff))
  {
    if items != [] {
      var tail := items[1..];
      assert forall i :: 0 <= i < |tail| ==> tail[i] == items[i + 1];
      NotBeforeKeeps(tail, cutoff);
      NotBeforeElements(tail, cutoff);
      var rest := NotBefore(tail, cutoff);
      forall i | 0 <= i < |rest| ensures rest[i].key != items[0].key {
        assert rest[i] in rest;
        var j :| 0 <= j < |tail| && tail[j] == rest[i];
        assert items[j + 1].key != items[0].key;
      }
    }
  }

  lemma PrunedEndpointsParse(endpoints: seq<Endpoint>, cutoff: int, at: nat)
    requires ParsesEndpoints(endpoints, at)
    ensures ParsesEndpoints(Sort(NotBefore(endpoints, cutoff)), at)
  {
    var kept := NotBefore(endpoints, cutoff);
    NotBeforeKeeps(endpoints, cutoff);
    NotBeforeElements(endpoints, cutoff);
    SortRanks(kept);
    SameItemsStayDistinct(kept, Sort(kept));
    forall i | 0 <= i < |Sort(kept)| ensures Sort(kept)[i].at <= at {
      assert Sort(kept)[i] in Sort(kept);
      assert Sort(kept)[i] in endpoints;
    }
  }

  predicate IsPruned(x: PeerEntry, y: PeerEntry, cutoff: int) {
    x.key == y.key && x.at == y.at >= cutoff && x.value == Sort(NotBefore(y.value, cutoff))
  }

  lemma {:induction false} PrunedPeersKeep(peers: seq<PeerEntry>, cutoff: int)
    requires DistinctKeys(peers)
    ensures DistinctKeys(PrunedPeers(peers, cutoff)) && |PrunedPeers(peers, cutoff)| <= |peers|
    ensures forall x :: x in PrunedPeers(peers, cutoff) ==> exists y :: y in peers && IsPruned(x, y, cutoff)
  {
    if peers != [] {
      var tail := peers[1..];
      assert forall i :: 0 <= i < |tail| ==> tail[i] == peers[i + 1];
      PrunedPeersKeep(tail, cutoff);
      var rest := PrunedPeers(tail, cutoff);
      forall i | 0 <= i < |rest| ensures rest[i].key != peers[0].key {
        assert rest[i] in rest;
        var y :| y in tail && IsPruned(rest[i], y, cutoff);
        var j :| 0 <= j < |tail| && tail[j] == y;
        assert peers[j + 1].key != peers[0].key;
      }
      forall x | x in PrunedPeers(peers, cutoff) ensures exists y :: y in peers && IsPruned(x, y, cutoff) {
        if x in rest {
          var y :| y in tail && IsPruned(x, y, cutoff);
          assert y in peers;
        } else {
          assert IsPruned(x, peers[0], cutoff);
        }
      }
    }
  }

  lemma PrunedEntryParses(c: Cache, x: PeerEntry, y: PeerEntry, cutoff: int)
    requires Parses(c) && y in c.peers && IsPruned(x, y, cutoff)
    ensures x.key != c.local && x.at <= MAX_SAFE_INTEGER && ParsesEndpoints(x.value, x.at)
  {
    hide ParsesEndpoints;
    var i :| 0 <= i < |c.peers| && c.peers[i] == y;
    PrunedEndpointsParse(y.value, cutoff, y.at);
  }

  lemma PrunedListParses(c: Cache, cutoff: int)
    requires Parses(c)
    ensures Parses(c.(peers := Cut(Sort(PrunedPeers(c.peers, cutoff)), RECENT_PEERS_MAX_PEERS)))
  {
    hide Sort, PrunedPeers, Ranked, ParsesEndpoints, IsPruned, DistinctKeys;
    var kept := PrunedPeers(c.peers, cutoff);
    PrunedPeersKeep(c.peers, cutoff);
    SortRanks(kept);
    SameItemsStayDistinct(kept, Sort(kept));
    CutKeeps(Sort(kept), RECENT_PEERS_MAX_PEERS);
    hide Cut;
    var cut := Cut(Sort(kept), RECENT_PEERS_MAX_PEERS);
    forall i | 0 <= i < |cut|
      ensures cut[i].key != c.local && cut[i].at <= MAX_SAFE_INTEGER && ParsesEndpoints(cut[i].value, cut[i].at)
    {
      assert cut[i] in cut;
      assert cut[i] in kept;
      var y :| y in c.peers && IsPruned(cut[i], y, cutoff);
      PrunedEntryParses(c, cut[i], y, cutoff);
    }
  }

  lemma PruneReparses(c: Cache, now: nat, ttl: nat)
    ensures Prune(c, now, ttl).Ok? ==> Parses(Prune(c, now, ttl).value)
  {
    hide Parses;
    if Prune(c, now, ttl).Ok? {
      PrunedListParses(c, now - ttl);
    }
  }

  lemma {:induction false} PrunedPeersSnoc(peers: seq<PeerEntry>, p: PeerEntry, cutoff: int)
    ensures PrunedPeers(peers + [p], cutoff) == PrunedPeers(peers, cutoff) + PrunedEntry(p, cutoff)
    decreases |peers|
  {
    hide PrunedEntry;
    var longer, entry := peers + [p], PrunedEntry(p, cutoff);
    if peers == [] {
      assert longer[1..] == [] && entry + [] == entry == [] + entry;
    } else {
      PrunedPeersSnoc(peers[1..], p, cutoff);
      assert longer[1..] == peers[1..] + [p] && longer[0] == peers[0];
    }
  }

  lemma NothingPruned(cutoff: int)
    ensures PrunedPeers([], cutoff) == []
  {
  }

  method PruneRecentPeers(c: Cache, now: nat, ttl: nat) returns (r: Result<Cache>)
    ensures r == Prune(c, now, ttl)
    ensures r.Ok? ==> Parses(r.value)
  {
    hide Sort, NotBefore, PrunedPeers;
    PruneReparses(c, now, ttl);
    if !Parses(c) {
      return Err("recent peers do not parse");
    }
    if now > MAX_SAFE_INTEGER || ttl > MAX_SAFE_INTEGER {
      return Err("bad timestamp");
    }
    hide Parses;
    var cutoff := now - ttl;
    var peers: seq<PeerEntry> := [];
    NothingPruned(cutoff);
    assert c.peers[..0] == [];
    for i := 0 to |c.peers|
      invariant peers == PrunedPeers(c.peers[..i], cutoff)
    {
      var peer := c.peers[i];
      PrunedPeersSnoc(c.peers[..i], peer, cutoff);
      assert c.peers[..i + 1] == c.peers[..i] + [peer];
      if peer.at >= cutoff {
        peers := peers + [peer.(value := Sort(NotBefore(peer.value, cutoff)))];
      }
    }
    assert c.peers[..|c.peers|] == c.peers;
    r := Ok(c.(peers := Cut(Sort(peers), RECENT_PEERS_MAX_PEERS)));
  }

  // What pruning leaves of a peer: nothing if it was last seen before the cutoff, otherwise its endpoints seen since, in order.
  ghost predicate IsKept(x: PeerEntry, y: PeerEntry, cutoff: int) {
    && y.at >= cutoff && x.key == y.key && x.at == y.at && Ranked(x.value)
    && (forall e :: e in x.value <==> e in y.value && e.at >= cutoff)
  }

  lemma {:induction false} PrunedPeersAre(peers: seq<PeerEntry>, cutoff: int, y: PeerEntry)
    requires y in peers && y.at >= cutoff && DistinctKeys(y.value)
    ensures exists x :: x in PrunedPeers(peers, cutoff) && IsKept(x, y, cutoff)
  {
    hide Sort;
    if peers[0] == y {
      var x := y.(value := Sort(NotBefore(y.value, cutoff)));
      NotBeforeKeeps(y.value, cutoff);
      NotBeforeElements(y.value, cutoff);
      SortRanks(NotBefore(y.value, cutoff));
      assert x in PrunedEntry(y, cutoff) && IsKept(x, y, cutoff);
    } else {
      PrunedPeersAre(peers[1..], cutoff, y);
      var x :| x in PrunedPeers(peers[1..], cutoff) && IsKept(x, y, cutoff);
      assert x in PrunedPeers(peers, cutoff);
    }
  }

  // Pruning fails exactly on what does not parse or a time beyond the safe integers; it keeps exactly the peers seen since the
  // cutoff and of those the endpoints seen since.
  lemma PrunedExactly(c: Cache, now: nat, ttl: nat)
    ensures Prune(c, now, ttl).Ok? <==> Parses(c) && now <= 9007199254740991 && ttl <= 9007199254740991
    ensures Prune(c, now, ttl).Ok? ==>
      var kept := Prune(c, now, ttl).value.peers;
      && Ranked(kept) && Prune(c, now, ttl).value.local == c.local
      && (forall y :: y in c.peers && y.at >= now - ttl ==> exists x :: x in kept && IsKept(x, y, now - ttl))
      && (forall x :: x in kept ==> exists y :: y in c.peers && IsPruned(x, y, now - ttl))
  {
    hide Sort, PrunedPeers, IsKept, IsPruned, DistinctKeys, Ranked, ParsesEndpoints;
    if Prune(c, now, ttl).Ok? {
      var cutoff := now - ttl;
      var all := PrunedPeers(c.peers, cutoff);
      PrunedPeersKeep(c.peers, cutoff);
      SortRanks(all);
      assert Prune(c, now, ttl).value.peers == Sort(all);
      forall y | y in c.peers && y.at >= cutoff ensures exists x :: x in Sort(all) && IsKept(x, y, cutoff) {
        EndpointsAreDistinct(c, y);
        PrunedPeersAre(c.peers, cutoff, y);
        var x :| x in all && IsKept(x, y, cutoff);
        assert x in Sort(all);
      }
    }
  }

  lemma EndpointsAreDistinct(c: Cache, y: PeerEntry)
    requires Parses(c) && y in c.peers
    ensures DistinctKeys(y.value)
  {
    var i :| 0 <= i < |c.peers| && c.peers[i] == y;
  }

  // Observing fails exactly on what does not parse, on the local identity, or on a time beyond the safe integers; what parses has
  // at most 256 peers, other than the local one and with at most four endpoints each, none of these seen after its peer.
  lemma ObservedExactly(c: Cache, key: int, at: nat, addr: Option<int>)
    ensures Observe(c, key, at, addr).Ok? <==> Parses(c) && key != c.local && at <= 9007199254740991
    ensures Parses(c) <==>
      && |c.peers| <= 256
      && (forall i, j :: 0 <= i < j < |c.peers| ==> c.peers[i].key != c.peers[j].key)
      && forall i :: 0 <= i < |c.peers| ==>
        && c.peers[i].key != c.local && c.peers[i].at <= 9007199254740991 && |c.peers[i].value| <= 4
        && (forall j, k :: 0 <= j < k < |c.peers[i].value| ==> c.peers[i].value[j].key != c.peers[i].value[k].key)
        && (forall j :: 0 <= j < |c.peers[i].value| ==> c.peers[i].value[j].at <= c.peers[i].at)
  {
  }

  // ---- Any order of observations ----

  datatype Observation = Observation(key: int, at: nat, addr: Option<int>)

  predicate Observable(local: int, obs: seq<Observation>) {
    forall i :: 0 <= i < |obs| ==> obs[i].key != local && obs[i].at <= MAX_SAFE_INTEGER
  }

  // The cache after the observations, from an empty one.
  function Run(local: int, obs: seq<Observation>): (c: Cache)
    requires Observable(local, obs)
    ensures Parses(c) && c.local == local
  {
    if obs == [] then Cache(local, [])
    else
      var o := obs[|obs| - 1];
      var before := Run(local, obs[..|obs| - 1]);
      ObserveReparses(before, o.key, o.at, o.addr);
      Observe(before, o.key, o.at, o.addr).value
  }

  // The latest time of each key among (key, time) pairs.
  function Latest(pairs: seq<(int, nat)>): map<int, nat> {
    if pairs == [] then map[] else Raised(Latest(pairs[..|pairs| - 1]), pairs[|pairs| - 1].0, pairs[|pairs| - 1].1)
  }

  function PeerPairs(obs: seq<Observation>): seq<(int, nat)> {
    if obs == [] then [] else PeerPairs(obs[..|obs| - 1]) + [(obs[|obs| - 1].key, obs[|obs| - 1].at)]
  }

  function EndpointPairs(obs: seq<Observation>, key: int): seq<(int, nat)> {
    if obs == [] then []
    else
      var o := obs[|obs| - 1];
      EndpointPairs(obs[..|obs| - 1], key) + (if o.key == key && o.addr.Some? then [(o.addr.value, o.at)] else [])
  }

  lemma LatestSnoc(pairs: seq<(int, nat)>, p: (int, nat))
    ensures Latest(pairs + [p]) == Raised(Latest(pairs), p.0, p.1)
  {
    assert (pairs + [p])[..|pairs|] == pairs;
  }

  // The peers kept are always the first 256 by their latest times.
  lemma {:induction false} PeersAreTop(local: int, obs: seq<Observation>)
    requires Observable(local, obs)
    ensures IsTop(Run(local, obs).peers, Latest(PeerPairs(obs)), 256)
    decreases |obs|
  {
    if obs != [] {
      hide Run, IsTop, Observed, ObservedEndpoints, Cut, Raised, Latest, EndpointsOf, Parses;
      var o, earlier := obs[|obs| - 1], obs[..|obs| - 1];
      RunSnoc(local, obs);
      PeersAreTop(local, earlier);
      var c := Run(local, earlier);
      LatestSnoc(PeerPairs(earlier), (o.key, o.at));
      ObserveKeepsTop(c.peers, Latest(PeerPairs(earlier)), 256, o.key, o.at,
                      ObservedEndpoints(EndpointsOf(c.peers, o.key), o.at, o.addr));
    } else {
      NobodyIsTop(local);
    }
  }

  lemma NobodyIsTop(local: int)
    ensures IsTop(Run(local, []).peers, Latest([]), 256)
  {
  }

  // Once observed the peer is never cut from the cache.
  predicate NeverCut(local: int, obs: seq<Observation>, key: int)
    requires Observable(local, obs)
    decreases |obs|
  {
    obs == [] ||
    (NeverCut(local, obs[..|obs| - 1], key)
     && ((Listed(Run(local, obs[..|obs| - 1]).peers, key) || obs[|obs| - 1].key == key) ==> Listed(Run(local, obs).peers, key)))
  }

  lemma EntryOf(peers: seq<PeerEntry>, key: int, x: PeerEntry)
    requires DistinctKeys(peers) && x in peers && x.key == key
    ensures EndpointsOf(peers, key) == x.value && Listed(peers, key)
  {
    var i :| 0 <= i < |peers| && peers[i] == x;
    assert Listed(peers, key);
  }

  lemma ListedEntry(peers: seq<PeerEntry>, key: int) returns (x: PeerEntry)
    requires Listed(peers, key)
    ensures x in peers && x.key == key && x.value == EndpointsOf(peers, key)
  {
    var i :| 0 <= i < |peers| && peers[i].key == key && peers[i].value == EndpointsOf(peers, key);
    x := peers[i];
  }

  // What one observation does to the endpoints of a peer still listed afterwards.
  lemma EndpointsStep(peers: seq<PeerEntry>, o: Observation, endpoints: seq<Endpoint>, key: int)
    requires DistinctKeys(peers)
    ensures var after := Cut(Observed(peers, o.key, o.at, endpoints), RECENT_PEERS_MAX_PEERS);
      Listed(after, key) ==> EndpointsOf(after, key) == if key == o.key then endpoints else EndpointsOf(peers, key)
  {
    var all := Observed(peers, o.key, o.at, endpoints);
    var after := Cut(all, RECENT_PEERS_MAX_PEERS);
    ObservedUpdates(peers, o.key, o.at, endpoints);
    CutKeeps(all, RECENT_PEERS_MAX_PEERS);
    if Listed(after, key) {
      var x := ListedEntry(after, key);
      assert x in all;
      if key != o.key {
        EntryOf(peers, key, x);
      }
    }
  }

  lemma {:induction false} SortOfRanked<T>(items: seq<Item<T>>)
    requires Ranked(items)
    ensures Sort(items) == items
  {
    if items != [] {
      SortOfRanked(items[1..]);
      assert |items| > 1 ==> Before(items[0], items[1]);
    }
  }

  // The endpoints of a peer that was never cut are the first four of its addresses by their latest times.
  lemma {:induction false} EndpointsAreTop(local: int, obs: seq<Observation>, key: int)
    requires Observable(local, obs) && NeverCut(local, obs, key)
    ensures IsTop(EndpointsOf(Run(local, obs).peers, key), Latest(EndpointPairs(obs, key)), 4)
    ensures !Listed(Run(local, obs).peers, key) ==> EndpointPairs(obs, key) == []
    decreases |obs|
  {
    if obs != [] {
      hide Run, IsTop, ObservedEndpoints, Observed, Cut, Raised, Latest, NeverCut, Listed, DistinctKeys, EndpointsOf, EndpointPairs;
      var o, earlier := obs[|obs| - 1], obs[..|obs| - 1];
      RunSnoc(local, obs);
      NeverCutSnoc(local, obs, key);
      EndpointsAreTop(local, earlier, key);
      var c := Run(local, earlier);
      var old', pairs := EndpointsOf(c.peers, key), EndpointPairs(earlier, key);
      EndpointsStep(c.peers, o, ObservedEndpoints(EndpointsOf(c.peers, o.key), o.at, o.addr), key);
      EndpointsObserved(old', Latest(pairs), o.at, o.addr);
      if o.addr.Some? {
        LatestSnoc(pairs, (o.addr.value, o.at));
      }
      EndpointPairsSnoc(obs, key);
    } else {
      NothingIsTop();
    }
  }

  lemma EndpointPairsSnoc(obs: seq<Observation>, key: int)
    requires obs != []
    ensures var o, pairs := obs[|obs| - 1], EndpointPairs(obs[..|obs| - 1], key);
      EndpointPairs(obs, key) == if o.key == key && o.addr.Some? then pairs + [(o.addr.value, o.at)] else pairs
  {
    var pairs := EndpointPairs(obs[..|obs| - 1], key);
    assert pairs + [] == pairs;
  }

  lemma NothingIsTop()
    ensures EndpointsOf([], 0) == [] && IsTop<Transport>([], Latest([]), RECENT_PEERS_MAX_ENDPOINTS)
  {
  }

  lemma RunSnoc(local: int, obs: seq<Observation>)
    requires Observable(local, obs) && obs != []
    ensures var o, before := obs[|obs| - 1], Run(local, obs[..|obs| - 1]).peers;
      Run(local, obs).peers
      == Cut(Observed(before, o.key, o.at, ObservedEndpoints(EndpointsOf(before, o.key), o.at, o.addr)), RECENT_PEERS_MAX_PEERS)
  {
  }

  lemma NeverCutSnoc(local: int, obs: seq<Observation>, key: int)
    requires Observable(local, obs) && obs != [] && NeverCut(local, obs, key)
    ensures NeverCut(local, obs[..|obs| - 1], key)
    ensures Listed(Run(local, obs[..|obs| - 1]).peers, key) || obs[|obs| - 1].key == key ==> Listed(Run(local, obs).peers, key)
  {
  }

  lemma EndpointsObserved(endpoints: seq<Endpoint>, times: map<int, nat>, at: nat, addr: Option<int>)
    requires IsTop(endpoints, times, RECENT_PEERS_MAX_ENDPOINTS)
    ensures IsTop(ObservedEndpoints(endpoints, at, addr), if addr.Some? then Raised(times, addr.value, at) else times,
                  RECENT_PEERS_MAX_ENDPOINTS)
  {
    if addr.Some? {
      hide IsTop;
      ObserveKeepsTop(endpoints, times, RECENT_PEERS_MAX_ENDPOINTS, addr.value, at, Udp);
    } else {
      SortOfRanked(endpoints);
    }
  }

  // ---- Order independence ----

  ghost predicate IsLatest(times: map<int, nat>, pairs: seq<(int, nat)>) {
    && (forall p {:trigger p in pairs} :: p in pairs ==> p.0 in times && times[p.0] >= p.1)
    && (forall k {:trigger times[k]} :: k in times ==> (k, times[k]) in pairs)
  }

  lemma {:induction false} LatestIsLatest(pairs: seq<(int, nat)>)
    ensures IsLatest(Latest(pairs), pairs)
  {
    if pairs != [] {
      var last, earlier := pairs[|pairs| - 1], pairs[..|pairs| - 1];
      LatestIsLatest(earlier);
      assert pairs == earlier + [last];
    }
  }

  ghost predicate SamePairs(a: seq<(int, nat)>, b: seq<(int, nat)>) {
    forall p :: p in a <==> p in b
  }

  lemma LatestDependsOnSet(a: seq<(int, nat)>, b: seq<(int, nat)>)
    requires SamePairs(a, b)
    ensures Latest(a) == Latest(b)
  {
    LatestIsLatest(a);
    LatestIsLatest(b);
    var s, t := Latest(a), Latest(b);
    forall k | k in s ensures k in t && t[k] >= s[k] {
      assert (k, s[k]) in b;
    }
    forall k | k in t ensures k in s && s[k] >= t[k] {
      assert (k, t[k]) in a;
    }
  }

  ghost predicate SameObservations(a: seq<Observation>, b: seq<Observation>) {
    forall o :: o in a <==> o in b
  }

  ghost predicate HasPeerPair(obs: seq<Observation>, p: (int, nat)) {
    exists o :: o in obs && o.key == p.0 && o.at == p.1
  }

  lemma {:induction false} PeerPairsOf(obs: seq<Observation>, p: (int, nat))
    ensures p in PeerPairs(obs) <==> HasPeerPair(obs, p)
    decreases |obs|
  {
    if obs != [] {
      var o, earlier := obs[|obs| - 1], obs[..|obs| - 1];
      PeerPairsOf(earlier, p);
      assert obs == earlier + [o];
    }
  }

  lemma {:induction false} EndpointPairsOf(obs: seq<Observation>, key: int, p: (int, nat))
    ensures p in EndpointPairs(obs, key) <==> Observation(key, p.1, Some(p.0)) in obs
    decreases |obs|
  {
    if obs != [] {
      var o, earlier := obs[|obs| - 1], obs[..|obs| - 1];
      EndpointPairsOf(earlier, key, p);
      assert obs == earlier + [o];
    }
  }

  // The peers kept and their times depend only on what was observed, not on the order or on repetitions.
  lemma PeersAreOrderIndependent(local: int, a: seq<Observation>, b: seq<Observation>)
    requires Observable(local, a) && Observable(local, b) && SameObservations(a, b)
    ensures var p, q := Run(local, a).peers, Run(local, b).peers;
      |p| == |q| && forall i :: 0 <= i < |p| ==> p[i].key == q[i].key && p[i].at == q[i].at
  {
    forall p: (int, nat) ensures p in PeerPairs(a) <==> p in PeerPairs(b) {
      PeerPairsOf(a, p);
      PeerPairsOf(b, p);
    }
    LatestDependsOnSet(PeerPairs(a), PeerPairs(b));
    PeersAreTop(local, a);
    PeersAreTop(local, b);
    var p, q := Run(local, a).peers, Run(local, b).peers;
    hide Run, IsTop;
    TopIsUnique(p, q, Latest(PeerPairs(a)), RECENT_PEERS_MAX_PEERS, |p|);
    TopIsUnique(q, p, Latest(PeerPairs(a)), RECENT_PEERS_MAX_PEERS, |q|);
  }

  // So do the endpoints of a peer that neither order cut out.
  lemma EndpointsAreOrderIndependent(local: int, a: seq<Observation>, b: seq<Observation>, key: int)
    requires Observable(local, a) && Observable(local, b) && SameObservations(a, b)
    requires NeverCut(local, a, key) && NeverCut(local, b, key)
    ensures EndpointsOf(Run(local, a).peers, key) == EndpointsOf(Run(local, b).peers, key)
  {
    hide Run, IsTop, NeverCut, EndpointPairs, Latest, SamePairs, SameObservations, EndpointsOf;
    EndpointPairsAgree(a, b, key);
    LatestDependsOnSet(EndpointPairs(a, key), EndpointPairs(b, key));
    EndpointsAreTop(local, a, key);
    EndpointsAreTop(local, b, key);
    SameEndpoints(EndpointsOf(Run(local, a).peers, key), EndpointsOf(Run(local, b).peers, key), Latest(EndpointPairs(a, key)));
  }

  lemma EndpointPairsAgree(a: seq<Observation>, b: seq<Observation>, key: int)
    requires SameObservations(a, b)
    ensures SamePairs(EndpointPairs(a, key), EndpointPairs(b, key))
  {
    hide EndpointPairs;
    forall p: (int, nat) ensures p in EndpointPairs(a, key) <==> p in EndpointPairs(b, key) {
      EndpointPairsOf(a, key, p);
      EndpointPairsOf(b, key, p);
    }
  }

  lemma SameEndpoints(p: seq<Endpoint>, q: seq<Endpoint>, times: map<int, nat>)
    requires IsTop(p, times, RECENT_PEERS_MAX_ENDPOINTS) && IsTop(q, times, RECENT_PEERS_MAX_ENDPOINTS)
    ensures p == q
  {
    hide IsTop;
    TopIsUnique(p, q, times, RECENT_PEERS_MAX_ENDPOINTS, |p|);
    TopIsUnique(q, p, times, RECENT_PEERS_MAX_ENDPOINTS, |q|);
    forall i | 0 <= i < |p| ensures p[i] == q[i] {
      OneTransport(p[i].value, q[i].value);
    }
  }

  lemma OneTransport(a: Transport, b: Transport)
    ensures a == b
  {
    match a {
      case Udp => match b { case Udp => }
    }
  }
}
