/**
 * How often one node sends one lookup request to the same next hop: its handlers and the outcomes of its sends, in any order
 * (handleLookupRequest, resolveAndForwardLookup and replayPendingLookupsFor of packages/core/src/node/FipsRouting.ts).
 */
module LookupSends {
  import opened Wrappers
  import opened Collections
  import opened LookupRequests

  // Sends under way: the batch of one request, which ends as a whole, or one hop found later.
  datatype Sending = Sending(batch: seq<Carrier>, whole: bool)

  // One node and one request: its table, the sends under way, and the nodes sent to successfully.
  datatype Node = Node(paths: Paths, underway: seq<Sending>, done: seq<NodeId>)

  datatype Event =
    | Requests(env: Surroundings, source: Carrier, request: Request)
    | Resolves(hop: Carrier)
    | Connects(peer: Carrier, now: int)
    | Responds(source: Carrier, response: Response, now: int)
    | Settles(i: nat, ok: seq<bool>)

  // Every send under way ends one way or the other; everything else may happen at any time.
  predicate Possible(x: Node, e: Event) {
    e.Settles? ==> e.i < |x.underway| && |e.ok| == |x.underway[e.i].batch|
  }

  function Replay(p: Paths, peer: Carrier): Paths {
    Paths(map k | k in p.entries :: Replayed(p, k, peer), p.order)
  }

  function Without(underway: seq<Sending>, i: nat): seq<Sending>
    requires i < |underway|
  {
    underway[..i] + underway[i + 1..]
  }

  function PathsAfter(p: Paths, key: Key, sending: Sending, ok: seq<bool>): Paths
    requires |ok| == |sending.batch|
  {
    if sending.whole then Settled(p, key, sending.batch, ok)
    else if sending.batch == [] || ok[0] then p
    else SendFailed(p, key, sending.batch[0].node)
  }

  // The next hops of a request, if it is the one looked at.
  function Batch(x: Node, key: Key, env: Surroundings, source: Carrier, r: Request): seq<Carrier> {
    var outcome := HandleRequest(x.paths, env, source, r).1;
    if outcome.Forwarded? && KeyOf(r) == key then outcome.nextHops else []
  }

  function Started(batch: seq<Carrier>, whole: bool): seq<Sending> {
    if batch == [] then [] else [Sending(batch, whole)]
  }

  function Next(x: Node, key: Key, e: Event): Node
    requires Possible(x, e)
  {
    match e
    case Requests(env, source, request) =>
      Node(HandleRequest(x.paths, env, source, request).0,
           x.underway + Started(Batch(x, key, env, source, request), true), x.done)
    case Resolves(hop) =>
      var (after, sends) := ForwardLater(x.paths, key, hop);
      Node(after, x.underway + Started(if sends then [hop] else [], false), x.done)
    case Connects(peer, now) =>
      var kept := Prune(x.paths, now);
      Node(Replay(kept, peer), x.underway + Started(if Replays(kept, key, peer) then [peer] else [], false), x.done)
    case Responds(source, response, now) =>
      Node(HandleResponse(x.paths, source, response, now).0, x.underway, x.done)
    case Settles(i, ok) =>
      Node(PathsAfter(x.paths, key, x.underway[i], ok), Without(x.underway, i), x.done + Successful(x.underway[i].batch, ok))
  }

  // No entry of the request expires, is given up for room or is used up by a response; one that its own failed sends delete
  // may be made again.
  predicate NotRemoved(x: Node, y: Node, key: Key, e: Event) {
    !e.Settles? && key in x.paths.entries ==>
      key in y.paths.entries && y.paths.entries[key].expiresAt == x.paths.entries[key].expiresAt
  }

  // What a caller can see before a request is handled: a route, or fallback links to different nodes.
  predicate Unambiguous(x: Node, key: Key, e: Event) {
    e.Requests? && KeyOf(e.request) == key ==>
      OneLinkPerNode(e.env, e.source, e.request, Remembered(Prune(x.paths, e.env.now), key))
  }

  predicate Run(x: Node, key: Key, events: seq<Event>, end: Node)
    decreases |events|
  {
    if events == [] then end == x
    else
      && Possible(x, events[0]) && NotRemoved(x, Next(x, key, events[0]), key, events[0])
      && Unambiguous(x, key, events[0])
      && Run(Next(x, key, events[0]), key, events[1..], end)
  }

  predicate Initial(x: Node, key: Key) {
    key !in x.paths.entries && x.underway == [] && x.done == []
  }

  // ---- Counting the sends to one node ----

  function Count(nodes: seq<NodeId>, n: NodeId): nat {
    if nodes == [] then 0 else (if nodes[0] == n then 1 else 0) + Count(nodes[1..], n)
  }

  function CountUnderway(underway: seq<Sending>, n: NodeId): nat {
    if underway == [] then 0 else Count(NodesOf(underway[0].batch), n) + CountUnderway(underway[1..], n)
  }

  // Sends to n that succeeded or are under way.
  function Sends(x: Node, n: NodeId): nat {
    Count(x.done, n) + CountUnderway(x.underway, n)
  }

  // At most one send to any node, and exactly the nodes sent to are remembered.
  ghost predicate Exact(x: Node, key: Key) {
    forall n {:trigger Sends(x, n)} :: Sends(x, n) <= 1 && (n in Remembered(x.paths, key) <==> Sends(x, n) == 1)
  }

  lemma {:induction false} CountAppend(a: seq<NodeId>, b: seq<NodeId>, n: NodeId)
    ensures Count(a + b, n) == Count(a, n) + Count(b, n)
  {
    if a == [] {
      assert a + b == b;
    } else {
      CountAppend(a[1..], b, n);
      assert (a + b)[1..] == a[1..] + b;
    }
  }

  lemma {:induction false} CountUnderwayAppend(a: seq<Sending>, b: seq<Sending>, n: NodeId)
    ensures CountUnderway(a + b, n) == CountUnderway(a, n) + CountUnderway(b, n)
  {
    if a == [] {
      assert a + b == b;
    } else {
      CountUnderwayAppend(a[1..], b, n);
      assert (a + b)[1..] == a[1..] + b;
    }
  }

  lemma CountOne(s: Sending, n: NodeId)
    ensures CountUnderway([s], n) == Count(NodesOf(s.batch), n) && CountUnderway([], n) == 0
  {
    assert [s][1..] == [];
  }

  lemma CountWithout(underway: seq<Sending>, i: nat, n: NodeId)
    requires i < |underway|
    ensures CountUnderway(underway, n) == CountUnderway(Without(underway, i), n) + Count(NodesOf(underway[i].batch), n)
  {
    assert underway == underway[..i] + ([underway[i]] + underway[i + 1..]);
    CountUnderwayAppend(underway[..i], [underway[i]] + underway[i + 1..], n);
    CountUnderwayAppend([underway[i]], underway[i + 1..], n);
    CountUnderwayAppend(underway[..i], underway[i + 1..], n);
    CountOne(underway[i], n);
  }

  lemma {:induction false} CountIsMembership(nodes: seq<NodeId>, n: NodeId)
    ensures Count(nodes, n) > 0 <==> n in nodes
  {
    if nodes != [] {
      CountIsMembership(nodes[1..], n);
      assert nodes == [nodes[0]] + nodes[1..];
    }
  }

  lemma {:induction false} NoRepeatsCounts(nodes: seq<NodeId>)
    ensures NoRepeats(nodes) <==> forall n {:trigger Count(nodes, n)} :: Count(nodes, n) <= 1
  {
    if nodes != [] {
      var head, tail := nodes[0], nodes[1..];
      NoRepeatsCounts(tail);
      NoRepeatsStep(nodes);
      CountIsMembership(tail, head);
      if NoRepeats(nodes) {
        forall n ensures Count(nodes, n) <= 1 {
          assert Count(tail, n) <= 1;
        }
      } else {
        hide NoRepeats;
        if head in tail {
          assert Count(tail, head) > 0;
          assert nodes[0] == head && Count(nodes, head) == 1 + Count(tail, head);
        } else {
          var n :| Count(tail, n) > 1;
          assert Count(nodes, n) > 1;
        }
      }
    }
  }

  lemma {:induction false} OutcomesCount(batch: seq<Carrier>, ok: seq<bool>, n: NodeId)
    requires |ok| == |batch|
    ensures Count(Successful(batch, ok), n) <= Count(NodesOf(batch), n)
    ensures n in Failed(batch, ok) ==> Count(Successful(batch, ok), n) < Count(NodesOf(batch), n)
    ensures n !in Failed(batch, ok) ==> Count(Successful(batch, ok), n) == Count(NodesOf(batch), n)
    ensures AllRejected(ok) ==> Count(Successful(batch, ok), n) == 0
  {
    if batch != [] {
      OutcomesCount(batch[1..], ok[1..], n);
      var head := if ok[0] then [batch[0].node] else [];
      CountAppend(head, Successful(batch[1..], ok[1..]), n);
      assert Count(head, n) == if ok[0] && batch[0].node == n then 1 else 0;
      if AllRejected(ok) {
        assert forall i :: 0 <= i < |ok[1..]| ==> ok[1..][i] == ok[i + 1];
      }
    }
  }

  // ---- The steps ----

  lemma CountStarted(x: Node, batch: seq<Carrier>, whole: bool, paths: Paths, n: NodeId)
    ensures Sends(Node(paths, x.underway + Started(batch, whole), x.done), n) == Sends(x, n) + Count(NodesOf(batch), n)
  {
    CountUnderwayAppend(x.underway, Started(batch, whole), n);
    CountOne(Sending(batch, whole), n);
    if batch == [] {
      assert NodesOf(batch) == [];
    }
  }

  lemma NodesCount(batch: seq<Carrier>, n: NodeId)
    ensures n in Nodes(batch) <==> Count(NodesOf(batch), n) > 0
  {
    NodesLeadTo(batch, n);
    CountIsMembership(NodesOf(batch), n);
  }

  // Sending to new and different nodes, and remembering them.
  lemma StartingKeepsExact(x: Node, key: Key, batch: seq<Carrier>, whole: bool, paths: Paths)
    requires Exact(x, key) && NoRepeats(NodesOf(batch))
    requires Remembered(paths, key) == Remembered(x.paths, key) + Nodes(batch)
    requires forall c :: c in batch ==> c.node !in Remembered(x.paths, key)
    ensures Exact(Node(paths, x.underway + Started(batch, whole), x.done), key)
  {
    hide Started, Remembered, Sends, NoRepeats;
    var y := Node(paths, x.underway + Started(batch, whole), x.done);
    forall n ensures Sends(y, n) <= 1 && (n in Remembered(paths, key) <==> Sends(y, n) == 1) {
      CountStarted(x, batch, whole, paths, n);
      NodesCount(batch, n);
      NoRepeatsCounts(NodesOf(batch));
      assert Sends(x, n) <= 1;
      if n in Nodes(batch) {
        var i :| 0 <= i < |batch| && batch[i].node == n;
        assert batch[i] in batch;
      }
    }
  }

  lemma OneNode(c: Carrier)
    ensures NoRepeats(NodesOf([c])) && Nodes([c]) == {c.node} && NoRepeats(NodesOf([])) && Nodes([]) == {}
  {
    assert [c][1..] == [];
  }

  lemma RequestKeepsExact(x: Node, key: Key, e: Event)
    requires Exact(x, key) && e.Requests? && NotRemoved(x, Next(x, key, e), key, e) && Unambiguous(x, key, e)
    ensures Exact(Next(x, key, e), key)
  {
    var batch := Batch(x, key, e.env, e.source, e.request);
    var after := HandleRequest(x.paths, e.env, e.source, e.request).0;
    RequestRemembers(x.paths, e.env, e.source, e.request, key);
    if batch != [] {
      BatchIsDistinctExactlyIf(x.paths, e.env, e.source, e.request);
    }
    OneNode(e.source);
    hide HandleRequest, Nodes, NodesOf, NoRepeats, Prune, OneLinkPerNode, Exact;
    StartingKeepsExact(x, key, batch, true, after);
  }

  lemma ResolutionKeepsExact(x: Node, key: Key, hop: Carrier)
    requires Exact(x, key)
    ensures Exact(Next(x, key, Resolves(hop)), key)
  {
    var (after, sends) := ForwardLater(x.paths, key, hop);
    OneNode(hop);
    hide Exact, Nodes, NodesOf, NoRepeats;
    StartingKeepsExact(x, key, if sends then [hop] else [], false, after);
  }

  lemma ConnectionKeepsExact(x: Node, key: Key, e: Event)
    requires Exact(x, key) && e.Connects? && NotRemoved(x, Next(x, key, e), key, e)
    ensures Exact(Next(x, key, e), key)
  {
    var kept := Prune(x.paths, e.now);
    OneNode(e.peer);
    hide Exact, Nodes, NodesOf, NoRepeats, Unexpired;
    StartingKeepsExact(x, key, if Replays(kept, key, e.peer) then [e.peer] else [], false, Replay(kept, e.peer));
  }

  lemma ResponseKeepsExact(x: Node, key: Key, e: Event)
    requires Exact(x, key) && e.Responds? && NotRemoved(x, Next(x, key, e), key, e)
    ensures Exact(Next(x, key, e), key)
  {
    hide Unexpired, LookupRequests.Without;
    var y := Next(x, key, e);
    forall n ensures Sends(y, n) <= 1 && (n in Remembered(y.paths, key) <==> Sends(y, n) == 1) {
      assert Sends(y, n) == Sends(x, n);
    }
  }

  lemma OutcomesForget(x: Node, key: Key, sending: Sending, ok: seq<bool>, n: NodeId)
    requires |ok| == |sending.batch| && (sending.whole || |ok| == 1)
    ensures n in Remembered(PathsAfter(x.paths, key, sending, ok), key)
      <==> n in Remembered(x.paths, key) && n !in Failed(sending.batch, ok)
  {
    hide LookupRequests.Without;
    if !sending.whole {
      assert sending.batch == [sending.batch[0]] && ok == [ok[0]];
      assert sending.batch[1..] == [];
    }
  }

  lemma OutcomeKeepsExact(x: Node, key: Key, i: nat, ok: seq<bool>)
    requires Exact(x, key) && Possible(x, Settles(i, ok)) && (x.underway[i].whole || |ok| == 1)
    ensures Exact(Next(x, key, Settles(i, ok)), key)
  {
    hide PathsAfter, Successful, Failed, Remembered, NodesOf;
    var y := Next(x, key, Settles(i, ok));
    var batch := x.underway[i].batch;
    forall n ensures Sends(y, n) <= 1 && (n in Remembered(y.paths, key) <==> Sends(y, n) == 1) {
      assert Sends(x, n) <= 1;
      CountWithout(x.underway, i, n);
      CountAppend(x.done, Successful(batch, ok), n);
      OutcomesCount(batch, ok, n);
      OutcomesForget(x, key, x.underway[i], ok, n);
    }
  }

  // A send of its own carries one hop.
  predicate SingleHops(x: Node) {
    forall i :: 0 <= i < |x.underway| && !x.underway[i].whole ==> |x.underway[i].batch| == 1
  }

  lemma StepKeepsExact(x: Node, key: Key, e: Event)
    requires Exact(x, key) && SingleHops(x) && Possible(x, e) && NotRemoved(x, Next(x, key, e), key, e) && Unambiguous(x, key, e)
    ensures Exact(Next(x, key, e), key) && SingleHops(Next(x, key, e))
  {
    assert SingleHops(Next(x, key, e)) by {
      hide Exact, HandleRequest, HandleResponse, PathsAfter, Prune, Replay, ForwardLater, NotRemoved, Unambiguous;
    }
    hide Next, Unambiguous, NotRemoved;
    match e
    case Requests(env, source, request) => RequestKeepsExact(x, key, e);
    case Resolves(hop) => ResolutionKeepsExact(x, key, hop);
    case Connects(peer, now) => ConnectionKeepsExact(x, key, e);
    case Responds(source, response, now) => ResponseKeepsExact(x, key, e);
    case Settles(i, ok) => OutcomeKeepsExact(x, key, i, ok);
  }

  lemma {:induction false} RunKeepsExact(x: Node, key: Key, events: seq<Event>, end: Node)
    requires Exact(x, key) && SingleHops(x) && Run(x, key, events, end)
    ensures Exact(end, key) && SingleHops(end)
    decreases |events|
  {
    hide Exact, SingleHops, Next, NotRemoved, Unambiguous;
    if events != [] {
      StepKeepsExact(x, key, events[0]);
      RunKeepsExact(Next(x, key, events[0]), key, events[1..], end);
    }
  }

  lemma ExactSendsOnce(x: Node, key: Key)
    requires Exact(x, key)
    ensures NoRepeats(x.done)
    ensures forall n :: n in x.done ==> n in Remembered(x.paths, key)
  {
    forall n ensures Count(x.done, n) <= 1 && (n in x.done ==> n in Remembered(x.paths, key)) {
      assert Sends(x, n) <= 1;
      CountIsMembership(x.done, n);
    }
    NoRepeatsCounts(x.done);
  }

  lemma InitialIsExact(x: Node, key: Key)
    requires Initial(x, key)
    ensures Exact(x, key) && SingleHops(x)
  {
    assert forall n :: Sends(x, n) == 0;
  }

  // However requests, replays, resolutions, responses and outcomes of sends follow each other, a node that was never asked
  // to choose between two links to one neighbour sends a request to every next hop at most once.
  lemma EachHopOnce(x: Node, key: Key, events: seq<Event>, end: Node)
    requires Initial(x, key) && Run(x, key, events, end)
    ensures NoRepeats(end.done)
    ensures forall n :: n in end.done ==> n in Remembered(end.paths, key)
  {
    InitialIsExact(x, key);
    hide Run, Exact;
    RunKeepsExact(x, key, events, end);
    ExactSendsOnce(end, key);
  }

  // A request is handled and all its sends end.
  function AfterSends(x: Node, key: Key, env: Surroundings, source: Carrier, r: Request, ok: seq<bool>): Node
    requires Batch(x, key, env, source, r) != [] && |ok| == |Batch(x, key, env, source, r)|
  {
    var y := Next(x, key, Requests(env, source, r));
    Next(y, key, Settles(|x.underway|, ok))
  }

  ghost predicate NeverTwice(x: Node, key: Key, env: Surroundings, source: Carrier, r: Request)
    requires Batch(x, key, env, source, r) != []
  {
    forall ok {:trigger AfterSends(x, key, env, source, r, ok)} ::
      |ok| == |Batch(x, key, env, source, r)| ==> NoRepeats(AfterSends(x, key, env, source, r, ok).done)
  }

  lemma {:induction false} AllSuccessful(batch: seq<Carrier>, ok: seq<bool>)
    requires |ok| == |batch| && forall i :: 0 <= i < |ok| ==> ok[i]
    ensures Successful(batch, ok) == NodesOf(batch)
  {
    if batch != [] {
      AllSuccessful(batch[1..], ok[1..]);
    }
  }

  lemma NextRequestExactlyIf(x: Node, key: Key, env: Surroundings, source: Carrier, r: Request)
    requires Exact(x, key) && SingleHops(x) && KeyOf(r) == key && Batch(x, key, env, source, r) != []
    requires NotRemoved(x, Next(x, key, Requests(env, source, r)), key, Requests(env, source, r))
    ensures NeverTwice(x, key, env, source, r) <==> OneLinkPerNode(env, source, r, Remembered(Prune(x.paths, env.now), key))
  {
    hide Exact, NotRemoved, HandleRequest, OneLinkPerNode, Prune, PathsAfter;
    var e := Requests(env, source, r);
    var y := Next(x, key, e);
    var batch := Batch(x, key, env, source, r);
    assert y.underway[|x.underway|].batch == batch;
    if OneLinkPerNode(env, source, r, Remembered(Prune(x.paths, env.now), key)) {
      StepKeepsExact(x, key, e);
      forall ok | |ok| == |batch| ensures NoRepeats(AfterSends(x, key, env, source, r, ok).done) {
        OutcomeKeepsExact(y, key, |x.underway|, ok);
        ExactSendsOnce(AfterSends(x, key, env, source, r, ok), key);
      }
    }
    if NeverTwice(x, key, env, source, r) {
      var ok := seq(|batch|, i => true);
      AllSuccessful(batch, ok);
      var done := AfterSends(x, key, env, source, r, ok).done;
      assert done == x.done + NodesOf(batch);
      assert NoRepeats(NodesOf(batch)) by {
        assert forall i :: 0 <= i < |batch| ==> done[|x.done| + i] == NodesOf(batch)[i];
      }
      BatchIsDistinctExactlyIf(x.paths, env, source, r);
    }
  }

  // In every state such a run reaches, a further request can reach a next hop twice exactly if no route to its target is
  // known and two of the first sixteen fallback links lead to one node that the request was not sent to before.
  lemma EachHopOnceExactlyIf(start: Node, key: Key, events: seq<Event>, x: Node, env: Surroundings, source: Carrier, r: Request)
    requires Initial(start, key) && Run(start, key, events, x) && KeyOf(r) == key && Batch(x, key, env, source, r) != []
    requires NotRemoved(x, Next(x, key, Requests(env, source, r)), key, Requests(env, source, r))
    ensures NeverTwice(x, key, env, source, r) <==> OneLinkPerNode(env, source, r, Remembered(Prune(x.paths, env.now), key))
  {
    InitialIsExact(start, key);
    hide Run, Exact, NotRemoved, NeverTwice, OneLinkPerNode, Batch, Next;
    RunKeepsExact(start, key, events, x);
    NextRequestExactlyIf(x, key, env, source, r);
  }

  // The node of FallbackReachesANeighbourTwice sends to its neighbour twice with success.
  lemma NeighbourReachedTwice()
    ensures var a, b, source := Carrier(7, 0, true, 1500), Carrier(7, 1, true, 1500), Carrier(3, 0, true, 1500);
      var env := Surroundings(1, true, true, NoTreePeer, [a, b], None, false, 0);
      var r := Request(5, 9, 3, 8, 0);
      var x := Node(Paths(map[], []), [], []);
      && Initial(x, KeyOf(r)) && Batch(x, KeyOf(r), env, source, r) == [a, b]
      && AfterSends(x, KeyOf(r), env, source, r, [true, true]).done == [7, 7]
  {
    hide HandleRequest, PathsAfter;
    FallbackReachesANeighbourTwice();
    var a, b := Carrier(7, 0, true, 1500), Carrier(7, 1, true, 1500);
    AllSuccessful([a, b], [true, true]);
    assert NodesOf([a, b]) == [7, 7];
  }
}
