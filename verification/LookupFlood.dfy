/**
 * One lookup request spreading through a network of forwarding nodes, and the tree its reverse paths form
 * (the lookup functions of packages/core/src/node/FipsRouting.ts).
 */
module LookupFlood {
  import opened Collections
  import opened LookupRequests

  const LOOKUP_ORIGIN_TTL: nat := 8

  // A request put on a link, by the node that sent it.
  datatype Message = Message(from: NodeId, to: NodeId, request: Request)

  // Every node's reverse paths, and every request ever put on a link.
  datatype World = World(paths: map<NodeId, Paths>, sent: set<Message>)

  datatype Event =
    | Originates(to: NodeId, request: Request)
    | Receives(at: NodeId, message: Message, source: Carrier, env: Surroundings)
    | Continues(at: NodeId, key: Key, hop: Carrier)
    | Fails(at: NodeId, key: Key, failed: NodeId)
    | Settles(at: NodeId, key: Key, batch: seq<Carrier>, ok: seq<bool>)
    | Responds(at: NodeId, source: Carrier, response: Response, now: int)

  function PathsAt(w: World, n: NodeId): Paths {
    if n in w.paths then w.paths[n] else Paths(map[], [])
  }

  function Outgoing(from: NodeId, request: Request, hops: seq<Carrier>): set<Message> {
    if hops == [] then {} else {Message(from, hops[0].node, request)} + Outgoing(from, request, hops[1..])
  }

  // The origin, whose lookup is pending, starts with the full TTL and drops its own request; other nodes forward.
  // Requests arrive as they were sent, in any order, any number of times, over a link to the node that sent them.
  predicate Possible(w: World, origin: NodeId, key: Key, e: Event) {
    match e
    case Originates(to, request) => KeyOf(request) == key ==> request.ttl == LOOKUP_ORIGIN_TTL
    case Receives(at, message, source, env) =>
      && message in w.sent && message.to == at && source.node == message.from && env.self == at
      && (KeyOf(message.request) == key ==> at != origin)
    case Continues(at, _, _) => true
    case Fails(_, _, _) => true
    case Settles(_, _, batch, ok) => |ok| == |batch|
    case Responds(_, _, _, _) => true
  }

  function Next(w: World, origin: NodeId, e: Event): World
    requires e.Settles? ==> |e.ok| == |e.batch|
  {
    match e
    case Originates(to, request) => w.(sent := w.sent + {Message(origin, to, request)})
    case Receives(at, message, source, env) =>
      var (after, outcome) := HandleRequest(PathsAt(w, at), env, source, message.request);
      var key := KeyOf(message.request);
      World(w.paths[at := after],
            if outcome.Forwarded? && key in after.entries then w.sent + Outgoing(at, after.entries[key].request, outcome.nextHops)
            else w.sent)
    case Continues(at, key, hop) =>
      var (after, sends) := ForwardLater(PathsAt(w, at), key, hop);
      World(w.paths[at := after],
            if sends && key in after.entries then w.sent + {Message(at, hop.node, after.entries[key].request)} else w.sent)
    case Fails(at, key, failed) => w.(paths := w.paths[at := SendFailed(PathsAt(w, at), key, failed)])
    case Settles(at, key, batch, ok) => w.(paths := w.paths[at := Settled(PathsAt(w, at), key, batch, ok)])
    case Responds(at, source, response, now) => w.(paths := w.paths[at := HandleResponse(PathsAt(w, at), source, response, now).0])
  }

  predicate HasEntry(w: World, n: NodeId, key: Key) {
    key in PathsAt(w, n).entries
  }

  function EntryAt(w: World, n: NodeId, key: Key): Reverse
    requires HasEntry(w, n, key)
  {
    PathsAt(w, n).entries[key]
  }

  // The step takes away no entry of this request: none expires, is given up for room, or is used up by a response.
  ghost predicate NoneRemoved(w: World, v: World, key: Key) {
    forall n {:trigger HasEntry(w, n, key)} :: HasEntry(w, n, key) ==>
      HasEntry(v, n, key) && EntryAt(v, n, key).expiresAt == EntryAt(w, n, key).expiresAt
  }

  ghost predicate Run(w: World, origin: NodeId, key: Key, events: seq<Event>, end: World)
    decreases |events|
  {
    if events == [] then end == w
    else
      && Possible(w, origin, key, events[0])
      && NoneRemoved(w, Next(w, origin, events[0]), key)
      && Run(Next(w, origin, events[0]), origin, key, events[1..], end)
  }

  // ---- The invariant ----

  // A request of this lookup was sent by the origin in full, or by a node that has an entry, under that entry's TTL.
  predicate Sourced(w: World, origin: NodeId, key: Key, from: NodeId, ttl: nat) {
    if from == origin then ttl == LOOKUP_ORIGIN_TTL else HasEntry(w, from, key) && EntryAt(w, from, key).request.ttl == ttl
  }

  ghost predicate SentSourced(w: World, origin: NodeId, key: Key) {
    forall m {:trigger m in w.sent} :: m in w.sent && KeyOf(m.request) == key ==> Sourced(w, origin, key, m.from, m.request.ttl)
  }

  // An entry's peer sent the request with the TTL one higher.
  ghost predicate EntriesSourced(w: World, origin: NodeId, key: Key) {
    && !HasEntry(w, origin, key)
    && forall n {:trigger HasEntry(w, n, key)} :: HasEntry(w, n, key) ==>
      && EntryAt(w, n, key).request.ttl < LOOKUP_ORIGIN_TTL
      && Sourced(w, origin, key, EntryAt(w, n, key).peer.node, EntryAt(w, n, key).request.ttl + 1)
  }

  ghost predicate AllValid(w: World) {
    forall n {:trigger PathsAt(w, n)} :: ValidPaths(PathsAt(w, n))
  }

  ghost predicate Invariant(w: World, origin: NodeId, key: Key) {
    AllValid(w) && SentSourced(w, origin, key) && EntriesSourced(w, origin, key)
  }

  // Entries keep their request; the node of their peer stays too.
  ghost predicate Kept(w: World, v: World, key: Key) {
    forall n {:trigger HasEntry(w, n, key)} :: HasEntry(w, n, key) ==>
      && HasEntry(v, n, key)
      && EntryAt(v, n, key).request == EntryAt(w, n, key).request
      && EntryAt(v, n, key).peer.node == EntryAt(w, n, key).peer.node
  }

  lemma StaysSourced(w: World, v: World, origin: NodeId, key: Key, from: NodeId, ttl: nat)
    requires Kept(w, v, key) && Sourced(w, origin, key, from, ttl)
    ensures Sourced(v, origin, key, from, ttl)
  {
  }

  // What one request does to the entry of a key: the same entry keeps its request and its peer's node, and a new entry
  // remembers the sender and a TTL one lower.
  lemma RequestTouches(p: Paths, env: Surroundings, source: Carrier, r: Request, key: Key)
    ensures var after := HandleRequest(p, env, source, r).0;
      && (key in after.entries && key in p.entries && after.entries[key].expiresAt == p.entries[key].expiresAt ==>
        after.entries[key].request == p.entries[key].request && after.entries[key].peer.node == p.entries[key].peer.node)
      && (key in after.entries && key !in p.entries ==>
        KeyOf(r) == key && r.ttl > 0 && after.entries[key].request == r.(ttl := r.ttl - 1) && after.entries[key].peer == source)
  {
    hide Candidates, NotYet, Nodes, Unexpired;
  }

  lemma {:induction false} OutgoingIsFrom(from: NodeId, request: Request, hops: seq<Carrier>)
    ensures forall m :: m in Outgoing(from, request, hops) ==> m.from == from && m.request == request
  {
    if hops != [] {
      OutgoingIsFrom(from, request, hops[1..]);
    }
  }

  // Only the acting node's entries change.
  lemma OthersUntouched(w: World, origin: NodeId, e: Event, n: NodeId)
    requires e.Settles? ==> |e.ok| == |e.batch|
    requires e.Originates? || n != e.at
    ensures PathsAt(Next(w, origin, e), n) == PathsAt(w, n)
  {
    hide HandleRequest, ForwardLater, SendFailed, Settled, HandleResponse;
  }

  lemma StepKeepsEntries(w: World, origin: NodeId, key: Key, e: Event)
    requires e.Settles? ==> |e.ok| == |e.batch|
    requires NoneRemoved(w, Next(w, origin, e), key)
    ensures Kept(w, Next(w, origin, e), key)
  {
    hide HandleRequest, Outgoing;
    var v := Next(w, origin, e);
    forall n | HasEntry(w, n, key)
      ensures HasEntry(v, n, key) && EntryAt(v, n, key).request == EntryAt(w, n, key).request
        && EntryAt(v, n, key).peer.node == EntryAt(w, n, key).peer.node
    {
      if e.Originates? || n != e.at {
        OthersUntouched(w, origin, e, n);
      } else if e.Receives? {
        RequestTouches(PathsAt(w, n), e.env, e.source, e.message.request, key);
      }
    }
  }

  // A node whose entry is new got it from the message just received.
  lemma NewEntry(w: World, origin: NodeId, key: Key, e: Event, n: NodeId)
    requires e.Settles? ==> |e.ok| == |e.batch|
    requires HasEntry(Next(w, origin, e), n, key) && !HasEntry(w, n, key)
    ensures e.Receives? && e.at == n && KeyOf(e.message.request) == key && e.message.request.ttl > 0
    ensures EntryAt(Next(w, origin, e), n, key).request == e.message.request.(ttl := e.message.request.ttl - 1)
    ensures EntryAt(Next(w, origin, e), n, key).peer == e.source
  {
    hide HandleRequest, Outgoing;
    if e.Originates? || n != e.at {
      OthersUntouched(w, origin, e, n);
    } else if e.Receives? {
      RequestTouches(PathsAt(w, n), e.env, e.source, e.message.request, key);
    }
  }

  // What a step puts on a link is sent by the origin, or under the entry of the node that acts.
  lemma NewMessage(w: World, origin: NodeId, key: Key, e: Event, m: Message)
    requires Possible(w, origin, key, e) && AllValid(Next(w, origin, e)) && !HasEntry(Next(w, origin, e), origin, key)
    requires m in Next(w, origin, e).sent && m !in w.sent && KeyOf(m.request) == key
    ensures Sourced(Next(w, origin, e), origin, key, m.from, m.request.ttl)
  {
    hide HandleRequest;
    var v := Next(w, origin, e);
    match e {
      case Originates(to, request) =>
      case Receives(at, message, source, env) =>
        var (after, outcome) := HandleRequest(PathsAt(w, at), env, source, message.request);
        var k := KeyOf(message.request);
        OutgoingIsFrom(at, after.entries[k].request, outcome.nextHops);
        assert PathsAt(v, at) == after;
        EntryKnowsItsKey(after, k);
      case Continues(at, k, hop) =>
        assert PathsAt(v, at) == ForwardLater(PathsAt(w, at), k, hop).0;
        EntryKnowsItsKey(PathsAt(v, at), k);
      case _ =>
    }
  }

  lemma StepKeepsValid(w: World, origin: NodeId, e: Event)
    requires e.Settles? ==> |e.ok| == |e.batch|
    requires AllValid(w)
    ensures AllValid(Next(w, origin, e))
  {
    hide HandleRequest, HandleResponse, ValidPaths;
    var v := Next(w, origin, e);
    forall n ensures ValidPaths(PathsAt(v, n)) {
      if e.Originates? || n != e.at {
        OthersUntouched(w, origin, e, n);
      } else {
        var p := PathsAt(w, n);
        match e {
          case Receives(at, message, source, env) => RequestKeepsValid(p, env, source, message.request);
          case Responds(at, source, response, now) => ResponseKeepsValid(p, source, response, now);
          case Continues(at, k, hop) =>
            if k in p.entries {
              EntryKnowsItsKey(p, k);
              StoringKeepsValid(p, k, p.entries[k].(forwarded := p.entries[k].forwarded + {hop.node}));
            }
          case Settles(at, k, batch, ok) => SettlingKeepsValid(p, k, batch, ok);
          case Fails(at, k, failed) =>
            if k in p.entries {
              EntryKnowsItsKey(p, k);
              StoringKeepsValid(p, k, p.entries[k].(forwarded := p.entries[k].forwarded - {failed}));
            }
        }
      }
    }
  }

  lemma StepKeepsEntriesSourced(w: World, origin: NodeId, key: Key, e: Event)
    requires Invariant(w, origin, key) && Possible(w, origin, key, e) && Kept(w, Next(w, origin, e), key)
    ensures EntriesSourced(Next(w, origin, e), origin, key)
  {
    var v := Next(w, origin, e);
    hide Next, AllValid, Kept, HasEntry, EntryAt, Sourced;
    if HasEntry(v, origin, key) {
      NewEntry(w, origin, key, e, origin);
    }
    forall n | HasEntry(v, n, key)
      ensures EntryAt(v, n, key).request.ttl < LOOKUP_ORIGIN_TTL
      ensures Sourced(v, origin, key, EntryAt(v, n, key).peer.node, EntryAt(v, n, key).request.ttl + 1)
    {
      EntryIsSourced(w, v, origin, key, e, n);
    }
  }

  lemma EntryIsSourced(w: World, v: World, origin: NodeId, key: Key, e: Event, n: NodeId)
    requires Invariant(w, origin, key) && Possible(w, origin, key, e) && v == Next(w, origin, e) && Kept(w, v, key)
    requires HasEntry(v, n, key)
    ensures EntryAt(v, n, key).request.ttl < LOOKUP_ORIGIN_TTL
    ensures Sourced(v, origin, key, EntryAt(v, n, key).peer.node, EntryAt(v, n, key).request.ttl + 1)
  {
    hide Next, AllValid, HasEntry, EntryAt;
    if HasEntry(w, n, key) {
      StaysSourced(w, v, origin, key, EntryAt(w, n, key).peer.node, EntryAt(w, n, key).request.ttl + 1);
    } else {
      NewEntry(w, origin, key, e, n);
      assert e.message in w.sent;
      StaysSourced(w, v, origin, key, e.message.from, e.message.request.ttl);
    }
  }

  lemma StepKeepsInvariant(w: World, origin: NodeId, key: Key, e: Event)
    requires Invariant(w, origin, key) && Possible(w, origin, key, e) && NoneRemoved(w, Next(w, origin, e), key)
    ensures Invariant(Next(w, origin, e), origin, key)
  {
    var v := Next(w, origin, e);
    StepKeepsValid(w, origin, e);
    StepKeepsEntries(w, origin, key, e);
    StepKeepsEntriesSourced(w, origin, key, e);
    hide Next, AllValid, NoneRemoved, HasEntry, EntryAt, Sourced, Kept;
    forall m | m in v.sent && KeyOf(m.request) == key
      ensures Sourced(v, origin, key, m.from, m.request.ttl)
    {
      if m in w.sent {
        StaysSourced(w, v, origin, key, m.from, m.request.ttl);
      } else {
        NewMessage(w, origin, key, e, m);
      }
    }
  }

  lemma {:induction false} RunKeepsInvariant(w: World, origin: NodeId, key: Key, events: seq<Event>, end: World)
    requires Invariant(w, origin, key) && Run(w, origin, key, events, end)
    ensures Invariant(end, origin, key)
    decreases |events|
  {
    hide Invariant;
    if events != [] {
      StepKeepsInvariant(w, origin, key, events[0]);
      RunKeepsInvariant(Next(w, origin, events[0]), origin, key, events[1..], end);
    }
  }

  // ---- The tree ----

  // From n over remembered peers to the origin.
  ghost predicate ReversePath(w: World, origin: NodeId, key: Key, path: seq<NodeId>) {
    && path != [] && path[|path| - 1] == origin
    && forall i {:trigger path[i]} :: 0 <= i < |path| - 1 ==>
      HasEntry(w, path[i], key) && EntryAt(w, path[i], key).peer.node == path[i + 1]
  }

  // The TTLs along the path go up by one at each hop.
  ghost predicate Climbs(w: World, key: Key, path: seq<NodeId>, ttl: nat) {
    forall i {:trigger path[i]} :: 0 <= i < |path| - 1 ==>
      HasEntry(w, path[i], key) && EntryAt(w, path[i], key).request.ttl == ttl + i
  }

  lemma {:induction false} PathFrom(w: World, origin: NodeId, key: Key, n: NodeId) returns (path: seq<NodeId>)
    requires EntriesSourced(w, origin, key) && HasEntry(w, n, key) && EntryAt(w, n, key).request.ttl < LOOKUP_ORIGIN_TTL
    ensures path != [] && path[0] == n && ReversePath(w, origin, key, path)
    ensures Climbs(w, key, path, EntryAt(w, n, key).request.ttl)
    ensures |path| == LOOKUP_ORIGIN_TTL - EntryAt(w, n, key).request.ttl + 1
    decreases LOOKUP_ORIGIN_TTL - EntryAt(w, n, key).request.ttl
  {
    hide HasEntry, EntryAt;
    var next, ttl := EntryAt(w, n, key).peer.node, EntryAt(w, n, key).request.ttl;
    assert Sourced(w, origin, key, next, ttl + 1);
    if next == origin {
      path := [n, origin];
    } else {
      var rest := PathFrom(w, origin, key, next);
      path := [n] + rest;
      assert forall i {:trigger path[i]} :: 0 < i < |path| ==> path[i] == rest[i - 1];
    }
  }

  // Reverse paths form a tree: from any node that forwarded the request, the remembered peers lead to the origin in at
  // most eight hops and through no node twice, one hop for each the request used up.
  lemma ReversePathsFormATree(origin: NodeId, key: Key, events: seq<Event>, end: World, n: NodeId) returns (path: seq<NodeId>)
    requires Run(World(map[], {}), origin, key, events, end) && HasEntry(end, n, key)
    ensures path != [] && path[0] == n && ReversePath(end, origin, key, path)
    ensures NoRepeats(path) && |path| <= 9 && |path| - 1 == 8 - EntryAt(end, n, key).request.ttl
  {
    hide HasEntry, EntryAt;
    NothingYet(origin, key);
    RunKeepsInvariant(World(map[], {}), origin, key, events, end);
    path := PathFrom(end, origin, key, n);
    ClimbingPathsDoNotRepeat(end, origin, key, path, EntryAt(end, n, key).request.ttl);
  }

  lemma NothingYet(origin: NodeId, key: Key)
    ensures Invariant(World(map[], {}), origin, key)
  {
  }

  lemma ClimbingPathsDoNotRepeat(w: World, origin: NodeId, key: Key, path: seq<NodeId>, ttl: nat)
    requires EntriesSourced(w, origin, key) && ReversePath(w, origin, key, path) && Climbs(w, key, path, ttl)
    ensures NoRepeats(path)
  {
    hide HasEntry, EntryAt;
    forall i, j | 0 <= i < j < |path| ensures path[i] != path[j] {
      if j == |path| - 1 {
        assert path[j] == origin;
      } else {
        assert EntryAt(w, path[i], key).request.ttl == ttl + i && EntryAt(w, path[j], key).request.ttl == ttl + j;
      }
    }
  }
}
