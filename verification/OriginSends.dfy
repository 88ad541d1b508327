/**
 * How often the origin of a lookup sends one request to the same next hop
 * (originLookupPeers and retryOriginLookup of packages/core/src/node/FipsRouting.ts).
 */
module OriginSends {
  import opened Wrappers
  import opened Collections
  import opened LookupRequests
  import opened LookupSends

  // What an attempt finds at the origin; excluded: the peer the lookup was started for.
  datatype Found = Found(
    excluded: Option<Carrier>, minMtu: nat, replyLearned: bool, defaultPeer: Option<Carrier>, isTreePeer: NodeId -> bool,
    peers: seq<Carrier>)

  // Every attempt has a request id of its own and sends it once, to all eligible peers.
  datatype Attempt = Attempt(id: nat, found: Found)

  predicate IsOriginPeer(found: Found, peer: Carrier) {
    && Some(peer) != found.excluded && peer.established && peer.capacity >= found.minMtu
    && (found.replyLearned || Some(peer) == found.defaultPeer || found.isTreePeer(peer.node))
  }

  function OriginPeers(found: Found, peers: seq<Carrier>): (r: seq<Carrier>)
    ensures forall c :: c in r ==> c in peers && IsOriginPeer(found, c)
  {
    if peers == [] then []
    else (if IsOriginPeer(found, peers[0]) then [peers[0]] else []) + OriginPeers(found, peers[1..])
  }

  function OriginBatch(found: Found): seq<Carrier> {
    FirstSixteen(OriginPeers(found, found.peers))
  }

  // The links that may carry a request of the origin: established, wide enough, not the one excluded, and in one routing mode
  // any, in the other those of the tree and the default route.
  function Carrying(found: Found, links: seq<Carrier>): seq<Carrier> {
    if links == [] then []
    else
      var link, rest := links[0], Carrying(found, links[1..]);
      if found.excluded == Some(link) || !link.established || link.capacity < found.minMtu then rest
      else if found.replyLearned || found.defaultPeer == Some(link) || found.isTreePeer(link.node) then [link] + rest
      else rest
  }

  lemma {:induction false} OriginPeersAre(found: Found, links: seq<Carrier>)
    ensures OriginPeers(found, links) == Carrying(found, links)
  {
    if links != [] {
      OriginPeersAre(found, links[1..]);
    }
  }

  // An attempt goes over the first sixteen of them.
  lemma OriginBatchIs(found: Found)
    ensures var links := Carrying(found, found.peers); OriginBatch(found) == if |links| <= 16 then links else links[..16]
  {
    OriginPeersAre(found, found.peers);
  }

  function Labelled(id: nat, nodes: seq<NodeId>): (r: seq<(nat, NodeId)>)
    ensures |r| == |nodes| && forall i :: 0 <= i < |r| ==> r[i] == (id, nodes[i])
  {
    if nodes == [] then [] else [(id, nodes[0])] + Labelled(id, nodes[1..])
  }

  predicate Fits(attempts: seq<Attempt>, outcomes: seq<seq<bool>>) {
    |outcomes| == |attempts| && forall i :: 0 <= i < |attempts| ==> |outcomes[i]| == |OriginBatch(attempts[i].found)|
  }

  // The sends that succeed: under which id, to which node.
  function OriginDone(attempts: seq<Attempt>, outcomes: seq<seq<bool>>): seq<(nat, NodeId)>
    requires Fits(attempts, outcomes)
  {
    if attempts == [] then []
    else
      Labelled(attempts[0].id, Successful(OriginBatch(attempts[0].found), outcomes[0])) + OriginDone(attempts[1..], outcomes[1..])
  }

  ghost predicate OriginNeverTwice(attempts: seq<Attempt>) {
    forall outcomes {:trigger OriginDone(attempts, outcomes)} :: Fits(attempts, outcomes) ==> NoRepeats(OriginDone(attempts, outcomes))
  }

  // Allocation never gives an id that is in use.
  predicate OwnIds(attempts: seq<Attempt>) {
    forall i, j :: 0 <= i < j < |attempts| ==> attempts[i].id != attempts[j].id
  }

  predicate OneLinkEach(attempts: seq<Attempt>) {
    forall i :: 0 <= i < |attempts| ==> NoTwoLinks(OriginBatch(attempts[i].found), {})
  }

  lemma {:induction false} DoneUnderIds(attempts: seq<Attempt>, outcomes: seq<seq<bool>>, x: (nat, NodeId))
    requires Fits(attempts, outcomes) && x in OriginDone(attempts, outcomes)
    ensures exists i :: 0 <= i < |attempts| && attempts[i].id == x.0
  {
    if attempts != [] && x in OriginDone(attempts[1..], outcomes[1..]) {
      DoneUnderIds(attempts[1..], outcomes[1..], x);
      var i :| 0 <= i < |attempts[1..]| && attempts[1..][i].id == x.0;
      assert attempts[i + 1].id == x.0;
    }
  }

  lemma DisjointNoRepeats<T(!new)>(a: seq<T>, b: seq<T>)
    ensures NoRepeats(a + b) ==> NoRepeats(a) && NoRepeats(b)
    ensures NoRepeats(a) && NoRepeats(b) && (forall x :: x in a ==> x !in b) ==> NoRepeats(a + b)
  {
    var s := a + b;
    assert (forall i :: 0 <= i < |a| ==> s[i] == a[i]) && (forall i :: 0 <= i < |b| ==> s[|a| + i] == b[i]);
    if NoRepeats(a) && NoRepeats(b) && forall x :: x in a ==> x !in b {
      forall i, j | 0 <= i < j < |s| ensures s[i] != s[j] {
        if i < |a| <= j {
          assert a[i] in a && b[j - |a|] in b;
        } else if |a| <= i {
          assert b[i - |a|] != b[j - |a|];
        }
      }
    }
    if NoRepeats(s) {
      forall i, j | 0 <= i < j < |b| ensures b[i] != b[j] {
        assert s[|a| + i] != s[|a| + j];
      }
    }
  }

  lemma LabelledNoRepeats(id: nat, nodes: seq<NodeId>)
    ensures NoRepeats(Labelled(id, nodes)) <==> NoRepeats(nodes)
  {
    var labelled := Labelled(id, nodes);
    if NoRepeats(labelled) {
      forall i, j | 0 <= i < j < |nodes| ensures nodes[i] != nodes[j] {
        assert labelled[i] != labelled[j];
      }
    }
  }

  lemma SuccessfulNoRepeats(batch: seq<Carrier>, ok: seq<bool>)
    requires |ok| == |batch| && NoRepeats(NodesOf(batch))
    ensures NoRepeats(Successful(batch, ok))
  {
    NoRepeatsCounts(NodesOf(batch));
    NoRepeatsCounts(Successful(batch, ok));
    forall n ensures Count(Successful(batch, ok), n) <= 1 {
      OutcomesCount(batch, ok, n);
      assert Count(NodesOf(batch), n) <= 1;
    }
  }

  lemma {:induction false} OneLinkEachSuffices(attempts: seq<Attempt>, outcomes: seq<seq<bool>>)
    requires OwnIds(attempts) && OneLinkEach(attempts) && Fits(attempts, outcomes)
    ensures NoRepeats(OriginDone(attempts, outcomes))
  {
    if attempts != [] {
      var first, rest := attempts[0], attempts[1..];
      var batch, ok := OriginBatch(first.found), outcomes[0];
      OneLinkEachSuffices(rest, outcomes[1..]);
      assert NoTwoLinks(batch, {});
      DistinctExactlyIf(batch);
      SuccessfulNoRepeats(batch, ok);
      var head, tail := Labelled(first.id, Successful(batch, ok)), OriginDone(rest, outcomes[1..]);
      LabelledNoRepeats(first.id, Successful(batch, ok));
      forall x | x in head ensures x !in tail {
        if x in tail {
          DoneUnderIds(rest, outcomes[1..], x);
        }
      }
      DisjointNoRepeats(head, tail);
    }
  }

  lemma DistinctExactlyIf(batch: seq<Carrier>)
    ensures NoRepeats(NodesOf(batch)) <==> NoTwoLinks(batch, {})
  {
    var nodes := NodesOf(batch);
    if NoRepeats(nodes) {
      forall i, j | 0 <= i < j < |batch| ensures batch[i].node != batch[j].node {
        assert nodes[i] != nodes[j];
      }
    }
  }

  function AllSent(attempts: seq<Attempt>): (outcomes: seq<seq<bool>>)
    ensures Fits(attempts, outcomes)
    ensures forall i, j :: 0 <= i < |outcomes| && 0 <= j < |outcomes[i]| ==> outcomes[i][j]
  {
    if attempts == [] then []
    else [seq(|OriginBatch(attempts[0].found)|, j => true)] + AllSent(attempts[1..])
  }

  lemma {:induction false} OneLinkEachIsNeeded(attempts: seq<Attempt>)
    requires NoRepeats(OriginDone(attempts, AllSent(attempts)))
    ensures OneLinkEach(attempts)
  {
    if attempts != [] {
      var first, rest := attempts[0], attempts[1..];
      var batch, outcomes := OriginBatch(first.found), AllSent(attempts);
      assert outcomes[1..] == AllSent(rest);
      AllSuccessful(batch, outcomes[0]);
      DisjointNoRepeats(Labelled(first.id, NodesOf(batch)), OriginDone(rest, AllSent(rest)));
      LabelledNoRepeats(first.id, NodesOf(batch));
      DistinctExactlyIf(batch);
      OneLinkEachIsNeeded(rest);
      forall i | 0 <= i < |attempts| ensures NoTwoLinks(OriginBatch(attempts[i].found), {}) {
        if i > 0 {
          assert rest[i - 1] == attempts[i];
        }
      }
    }
  }

  // Whatever becomes of its sends, the origin sends no request to one node twice, exactly if in no attempt two of the first
  // sixteen eligible links lead to one node.
  lemma OriginHopOnceExactlyIf(attempts: seq<Attempt>)
    requires OwnIds(attempts)
    ensures OriginNeverTwice(attempts) <==> OneLinkEach(attempts)
  {
    if OneLinkEach(attempts) {
      forall outcomes | Fits(attempts, outcomes) ensures NoRepeats(OriginDone(attempts, outcomes)) {
        OneLinkEachSuffices(attempts, outcomes);
      }
    }
    if OriginNeverTwice(attempts) {
      assert NoRepeats(OriginDone(attempts, AllSent(attempts)));
      OneLinkEachIsNeeded(attempts);
    }
  }
}
