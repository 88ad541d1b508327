/**
 * The registry of lookups this node has originated, indexed by target and by request id
 * (packages/core/src/node/OriginLookupRegistry.ts).
 */
module OriginLookups {
  import opened Wrappers

  const REQUEST_ID_ATTEMPTS: nat := 8
  const ORIGIN_TIMEOUT_MS: nat := 5_000
  const FIRST_RETRY_MS: nat := 250
  const LONGEST_RETRY_MS: nat := 1_000

  type Target = string

  // The pending object a caller holds: which lookup of that target it is.
  datatype Ref = Ref(target: Target, serial: nat)

  datatype Lookup = Lookup(serial: nat, requestId: nat, requestIds: set<nat>, minMtu: nat)

  datatype Registry = Registry(maximum: nat, byTarget: map<Target, Lookup>, byRequest: map<nat, Ref>, created: nat)

  function NewRegistry(maximum: nat): Registry {
    Registry(maximum, map[], map[], 0)
  }

  // The lookup is still the one under way for its target.
  predicate Live(reg: Registry, ref: Ref) {
    ref.target in reg.byTarget && reg.byTarget[ref.target].serial == ref.serial
  }

  // What the random source gives at each attempt; None is an answer of the wrong length.
  type Draws = nat -> Option<nat>

  // The first drawn id not in use, from attempt `i` on.
  function NextRequestId(byRequest: map<nat, Ref>, draws: Draws, i: nat): Result<nat>
    requires i <= REQUEST_ID_ATTEMPTS
    decreases REQUEST_ID_ATTEMPTS - i
  {
    if i == REQUEST_ID_ATTEMPTS then Err("failed to allocate unique lookup request id")
    else if draws(i).None? then Err("random source returned invalid lookup request id")
    else if draws(i).value !in byRequest then Ok(draws(i).value)
    else NextRequestId(byRequest, draws, i + 1)
  }

  function Create(reg: Registry, target: Target, minMtu: nat, draws: Draws): (Registry, Result<Ref>) {
    if |reg.byTarget| >= reg.maximum then (reg, Err("lookup capacity exceeded"))
    else
      match NextRequestId(reg.byRequest, draws, 0)
      case Err(e) => (reg, Err(e))
      case Ok(id) =>
        var ref := Ref(target, reg.created);
        (reg.(byTarget := reg.byTarget[target := Lookup(reg.created, id, {id}, minMtu)],
              byRequest := reg.byRequest[id := ref], created := reg.created + 1), Ok(ref))
  }

  // The state part of one retry after the first: a further id for the lookup, the earlier ones kept.
  function AddRequestId(reg: Registry, ref: Ref, draws: Draws): (Registry, Result<nat>)
    requires Live(reg, ref)
  {
    match NextRequestId(reg.byRequest, draws, 0)
    case Err(e) => (reg, Err(e))
    case Ok(id) =>
      var lookup := reg.byTarget[ref.target];
      (reg.(byTarget := reg.byTarget[ref.target := lookup.(requestId := id, requestIds := lookup.requestIds + {id})],
            byRequest := reg.byRequest[id := ref]), Ok(id))
  }

  // complete and fail both end a lookup this way; a lookup no longer under way is left alone.
  function Remove(reg: Registry, ref: Ref): Registry {
    if !Live(reg, ref) then reg
    else reg.(byTarget := reg.byTarget - {ref.target}, byRequest := reg.byRequest - reg.byTarget[ref.target].requestIds)
  }

  // ---- Agreement of the two indexes ----

  // Every id leads to a live lookup that lists it, and every listed id leads back: byRequest is the disjoint union of the
  // live lookups' id sets.
  ghost predicate Agree(reg: Registry) {
    && (forall id {:trigger reg.byRequest[id]} :: id in reg.byRequest ==>
      Live(reg, reg.byRequest[id]) && id in reg.byTarget[reg.byRequest[id].target].requestIds)
    && (forall t, id {:trigger Lists(reg, t, id)} :: Lists(reg, t, id) ==>
      id in reg.byRequest && reg.byRequest[id] == Ref(t, reg.byTarget[t].serial))
    && (forall t {:trigger reg.byTarget[t]} :: t in reg.byTarget ==>
      reg.byTarget[t].serial < reg.created && reg.byTarget[t].requestId in reg.byTarget[t].requestIds)
    && |reg.byTarget| <= reg.maximum
  }

  predicate Lists(reg: Registry, t: Target, id: nat) {
    t in reg.byTarget && id in reg.byTarget[t].requestIds
  }

  lemma {:induction false} DrawnIdIsFree(byRequest: map<nat, Ref>, draws: Draws, i: nat)
    requires i <= REQUEST_ID_ATTEMPTS
    ensures var r := NextRequestId(byRequest, draws, i); r.Ok? ==> r.value !in byRequest
    decreases REQUEST_ID_ATTEMPTS - i
  {
    if i < REQUEST_ID_ATTEMPTS && draws(i).Some? && draws(i).value in byRequest {
      DrawnIdIsFree(byRequest, draws, i + 1);
    }
  }

  // The id allocated is the first of eight drawn that is free, if no answer of the wrong length comes before it; otherwise
  // the allocation fails.
  lemma {:induction false} AllocationFails(byRequest: map<nat, Ref>, draws: Draws, i: nat)
    requires i <= 8
    ensures NextRequestId(byRequest, draws, i).Err? <==>
      forall k :: i <= k < 8 && draws(k).Some? && draws(k).value !in byRequest ==> exists j :: i <= j < k && draws(j).None?
    ensures var r := NextRequestId(byRequest, draws, i);
      r.Ok? ==> exists k :: i <= k < 8 && draws(k) == Some(r.value) && r.value !in byRequest && AllTaken(byRequest, draws, i, k)
    decreases 8 - i
  {
    if i < 8 && draws(i).Some? {
      if draws(i).value in byRequest {
        AllocationFails(byRequest, draws, i + 1);
        var r := NextRequestId(byRequest, draws, i);
        if r.Ok? {
          var k :| i + 1 <= k < 8 && draws(k) == Some(r.value) && r.value !in byRequest && AllTaken(byRequest, draws, i + 1, k);
          assert AllTaken(byRequest, draws, i, k);
        }
      } else {
        assert AllTaken(byRequest, draws, i, i);
      }
    }
  }

  // The ids drawn from attempt i up to attempt k are in use.
  predicate AllTaken(byRequest: map<nat, Ref>, draws: Draws, i: nat, k: nat) {
    forall j :: i <= j < k ==> draws(j).Some? && draws(j).value in byRequest
  }

  // Where two registries differ, if at all.
  ghost predicate DifferAt(a: Registry, b: Registry, target: Target, id: nat) {
    && a.maximum == b.maximum
    && (forall t :: t != target ==> (t in a.byTarget <==> t in b.byTarget) && (t in a.byTarget ==> a.byTarget[t] == b.byTarget[t]))
    && (forall k :: k != id ==> (k in a.byRequest <==> k in b.byRequest) && (k in a.byRequest ==> a.byRequest[k] == b.byRequest[k]))
  }

  // A lookup begins exactly if there is room and an id can be drawn: it is then under way, under that id alone and with the
  // MTU asked for. A retry adds its id to those of the lookup. Both touch nothing else.
  lemma AttemptOutcome(reg: Registry, target: Target, minMtu: nat, draws: Draws, ref: Ref)
    requires Live(reg, ref)
    ensures var (after, r) := Create(reg, target, minMtu, draws);
      var id := NextRequestId(reg.byRequest, draws, 0);
      && (r.Ok? <==> |reg.byTarget| < reg.maximum && id.Ok?)
      && (r.Ok? ==>
        && r.value == Ref(target, reg.created) && Live(after, r.value) && after.created == reg.created + 1
        && after.byTarget[target] == Lookup(reg.created, id.value, {id.value}, minMtu)
        && id.value in after.byRequest && after.byRequest[id.value] == r.value && DifferAt(reg, after, target, id.value))
    ensures var (after, r) := AddRequestId(reg, ref, draws);
      && r == NextRequestId(reg.byRequest, draws, 0)
      && (r.Err? ==> after == reg)
      && (r.Ok? ==>
        var before := reg.byTarget[ref.target];
        && Live(after, ref) && after.created == reg.created
        && after.byTarget[ref.target] == Lookup(before.serial, r.value, before.requestIds + {r.value}, before.minMtu)
        && r.value in after.byRequest && after.byRequest[r.value] == ref && DifferAt(reg, after, ref.target, r.value))
  {
    hide NextRequestId;
  }

  // Creating a lookup keeps the indexes in agreement exactly if its target had none.
  lemma CreateKeepsAgreement(reg: Registry, target: Target, minMtu: nat, draws: Draws)
    requires Agree(reg)
    ensures var (after, r) := Create(reg, target, minMtu, draws);
      && (r.Ok? ==> (Agree(after) <==> target !in reg.byTarget))
      && (r.Err? ==> after == reg)
  {
    DrawnIdIsFree(reg.byRequest, draws, 0);
    var (after, r) := Create(reg, target, minMtu, draws);
    if r.Ok? {
      if target in reg.byTarget {
        // The id of the lookup that was replaced leads nowhere.
        var stale := reg.byTarget[target].requestId;
        assert Lists(reg, target, stale);
        assert after.byRequest[stale] == Ref(target, reg.byTarget[target].serial);
        assert !Live(after, after.byRequest[stale]);
      } else {
        forall t, id | Lists(after, t, id)
          ensures id in after.byRequest && after.byRequest[id] == Ref(t, after.byTarget[t].serial)
        {
          assert t != target ==> Lists(reg, t, id);
        }
        assert after.byTarget.Keys == reg.byTarget.Keys + {target};
        assert |after.byTarget.Keys| == |after.byTarget| && |reg.byTarget.Keys| == |reg.byTarget|;
      }
    }
  }

  lemma RetryKeepsAgreement(reg: Registry, ref: Ref, draws: Draws)
    requires Agree(reg) && Live(reg, ref)
    ensures Agree(AddRequestId(reg, ref, draws).0) && Live(AddRequestId(reg, ref, draws).0, ref)
  {
    DrawnIdIsFree(reg.byRequest, draws, 0);
    var (after, r) := AddRequestId(reg, ref, draws);
    if r.Ok? {
      forall t, id | Lists(after, t, id)
        ensures id in after.byRequest && after.byRequest[id] == Ref(t, after.byTarget[t].serial)
      {
        assert t != ref.target || id != r.value ==> Lists(reg, t, id);
      }
      assert after.byTarget.Keys == reg.byTarget.Keys;
      assert |after.byTarget.Keys| == |after.byTarget| && |reg.byTarget.Keys| == |reg.byTarget|;
    }
  }

  // Ending a lookup leaves no id behind that leads to it, and every other lookup as it was.
  lemma RemoveLeavesNoAlias(reg: Registry, ref: Ref)
    requires Agree(reg)
    ensures Agree(Remove(reg, ref)) && !Live(Remove(reg, ref), ref)
    ensures forall id :: id in Remove(reg, ref).byRequest <==> id in reg.byRequest && reg.byRequest[id] != ref
    ensures forall t :: t in Remove(reg, ref).byTarget <==> t in reg.byTarget && Ref(t, reg.byTarget[t].serial) != ref
  {
    var after := Remove(reg, ref);
    if Live(reg, ref) {
      forall id | id in reg.byRequest ensures id in after.byRequest <==> reg.byRequest[id] != ref {
        if id in reg.byTarget[ref.target].requestIds {
          assert Lists(reg, ref.target, id);
        }
      }
      forall t, id | Lists(after, t, id)
        ensures id in after.byRequest && after.byRequest[id] == Ref(t, after.byTarget[t].serial)
      {
        assert Lists(reg, t, id);
      }
      assert after.byTarget.Keys == reg.byTarget.Keys - {ref.target};
      assert |after.byTarget.Keys| == |after.byTarget| && |reg.byTarget.Keys| == |reg.byTarget|;
    } else {
      forall id | id in reg.byRequest ensures reg.byRequest[id] != ref {
        assert Live(reg, reg.byRequest[id]);
      }
    }
  }

  // ---- Every run ----

  datatype Call =
    | Creates(target: Target, minMtu: nat, draws: Draws)
    | Retries(ref: Ref, draws: Draws)
    | Ends(ref: Ref)

  // Both callers create only for a target without a lookup; the retry loop goes on only while its lookup is live, and
  // fails it when no id can be allocated.
  predicate Guarded(reg: Registry, call: Call) {
    match call
    case Creates(target, _, _) => target !in reg.byTarget
    case Retries(ref, _) => Live(reg, ref)
    case Ends(_) => true
  }

  function Called(reg: Registry, call: Call): Registry
    requires Guarded(reg, call)
  {
    match call
    case Creates(target, minMtu, draws) => Create(reg, target, minMtu, draws).0
    case Retries(ref, draws) =>
      var (after, r) := AddRequestId(reg, ref, draws);
      if r.Ok? then after else Remove(reg, ref)
    case Ends(ref) => Remove(reg, ref)
  }

  predicate Run(reg: Registry, calls: seq<Call>, end: Registry)
    decreases |calls|
  {
    if calls == [] then end == reg else Guarded(reg, calls[0]) && Run(Called(reg, calls[0]), calls[1..], end)
  }

  lemma {:induction false} RunKeepsAgreement(reg: Registry, calls: seq<Call>, end: Registry)
    requires Agree(reg) && Run(reg, calls, end)
    ensures Agree(end)
    decreases |calls|
  {
    hide Agree, Create, AddRequestId, Remove;
    if calls != [] {
      match calls[0] {
        case Creates(target, minMtu, draws) => CreateKeepsAgreement(reg, target, minMtu, draws);
        case Retries(ref, draws) =>
          RetryKeepsAgreement(reg, ref, draws);
          RemoveLeavesNoAlias(reg, ref);
        case Ends(ref) => RemoveLeavesNoAlias(reg, ref);
      }
      RunKeepsAgreement(Called(reg, calls[0]), calls[1..], end);
    }
  }

  // In every run the two indexes agree.
  lemma IndexesAgree(maximum: nat, calls: seq<Call>, end: Registry)
    requires Run(NewRegistry(maximum), calls, end)
    ensures Agree(end)
  {
    RunKeepsAgreement(NewRegistry(maximum), calls, end);
  }

  // ---- OriginLookupRegistry ----

  class OriginLookupRegistry {
    const maximum: nat
    var byTarget: map<Target, Lookup>
    var byRequest: map<nat, Ref>
    var created: nat

    ghost function Value(): Registry
      reads this
    {
      Registry(maximum, byTarget, byRequest, created)
    }

    ghost predicate Valid()
      reads this
    {
      Agree(Value())
    }

    constructor (max: nat)
      ensures Valid() && Value() == NewRegistry(max)
    {
      maximum, byTarget, byRequest, created := max, map[], map[], 0;
    }

    method AllocateRequestId(draws: Draws) returns (r: Result<nat>)
      ensures r == NextRequestId(byRequest, draws, 0)
    {
      for attempt := 0 to REQUEST_ID_ATTEMPTS
        invariant NextRequestId(byRequest, draws, 0) == NextRequestId(byRequest, draws, attempt)
      {
        var drawn := draws(attempt);
        if drawn.None? {
          return Err("random source returned invalid lookup request id");
        }
        if drawn.value !in byRequest {
          return Ok(drawn.value);
        }
      }
      r := Err("failed to allocate unique lookup request id");
    }

    // The indexes agree afterwards exactly if the target had no lookup, or none was created.
    method Begin(target: Target, minMtu: nat, draws: Draws) returns (r: Result<Ref>)
      requires Valid()
      modifies this
      ensures (Value(), r) == Create(old(Value()), target, minMtu, draws)
      ensures Valid() <==> r.Err? || target !in old(byTarget)
    {
      hide Agree;
      CreateKeepsAgreement(Value(), target, minMtu, draws);
      if |byTarget| >= maximum {
        return Err("lookup capacity exceeded");
      }
      var id := AllocateRequestId(draws);
      if id.Err? {
        return Err(id.error);
      }
      var pending := Ref(target, created);
      byTarget := byTarget[target := Lookup(created, id.value, {id.value}, minMtu)];
      byRequest := byRequest[id.value := pending];
      created := created + 1;
      r := Ok(pending);
    }

    // The body of the retry loop after the first attempt.
    method Renew(ref: Ref, draws: Draws) returns (r: Result<nat>)
      requires Valid() && Live(Value(), ref)
      modifies this
      ensures Valid() && (Value(), r) == AddRequestId(old(Value()), ref, draws)
    {
      hide Agree;
      RetryKeepsAgreement(Value(), ref, draws);
      r := AllocateRequestId(draws);
      if r.Err? {
        return;
      }
      var state := byTarget[ref.target];
      byTarget := byTarget[ref.target := state.(requestId := r.value, requestIds := state.requestIds + {r.value})];
      byRequest := byRequest[r.value := ref];
    }

    // remove: whether there was such a lookup.
    method End(ref: Ref) returns (removed: bool)
      requires Valid()
      modifies this
      ensures Valid() && Value() == Remove(old(Value()), ref) && removed == Live(old(Value()), ref)
    {
      hide Agree;
      RemoveLeavesNoAlias(Value(), ref);
      if ref.target !in byTarget || byTarget[ref.target].serial != ref.serial {
        return false;
      }
      var ids := byTarget[ref.target].requestIds;
      byTarget := byTarget - {ref.target};
      var rest := ids;
      while rest != {}
        invariant rest <= ids
        invariant byTarget == old(byTarget) - {ref.target} && created == old(created)
        invariant byRequest == old(byRequest) - (ids - rest)
      {
        var id :| id in rest;
        rest := rest - {id};
        byRequest := byRequest - {id};
      }
      assert ids - rest == ids;
      assert Value() == Remove(old(Value()), ref);
      removed := true;
    }

    // stop: every lookup ends.
    method Stop()
      requires Valid()
      modifies this
      ensures Valid() && byTarget == map[] && byRequest == map[]
    {
      var targets := byTarget.Keys;
      while targets != {}
        invariant Valid() && byTarget.Keys <= targets
      {
        var t :| t in targets;
        targets := targets - {t};
        if t in byTarget {
          var _ := End(Ref(t, byTarget[t].serial));
        }
      }
    }
  }

  // ---- The retry schedule ----

  // The loop of retry, a send at attempt k taking sends(k) milliseconds, until the deadline fails the lookup: the waits are 250,
  // 500 and then 1000 milliseconds, and nothing is sent after five seconds.
  method AttemptTimes(sends: nat -> nat) returns (starts: seq<nat>)
    ensures 1 <= |starts| <= 7 && starts[0] == 0
    ensures forall k :: 0 <= k < |starts| ==> starts[k] < 5000
    ensures forall j, k :: 0 <= j && k == j + 1 < |starts| ==> starts[k] == starts[j] + sends(j) + Wait(j)
    ensures starts[|starts| - 1] + sends(|starts| - 1) + Wait(|starts| - 1) >= 5000
    ensures (forall k :: sends(k) == 0) ==> starts == [0, 250, 750, 1750, 2750, 3750, 4750]
  {
    hide Wait, NoDelay;
    starts := [];
    var now, interval := 0, FIRST_RETRY_MS;
    FirstWait();
    while now < ORIGIN_TIMEOUT_MS
      invariant |starts| <= 7 && interval == Wait(|starts|) && now >= NoDelay(|starts|)
      invariant Spaced(starts, sends, now)
      invariant forall k :: 0 <= k < |starts| ==> starts[k] < ORIGIN_TIMEOUT_MS
      decreases ORIGIN_TIMEOUT_MS - now
    {
      NextWait(|starts|);
      SpacedMore(starts, sends, now);
      starts := starts + [now];
      now := now + sends(|starts| - 1) + interval;
      interval := if interval * 2 < LONGEST_RETRY_MS then interval * 2 else LONGEST_RETRY_MS;
    }
    if forall k :: sends(k) == 0 {
      PromptAttempts(starts, sends, now);
    }
  }

  // Each attempt starts when the one before it was sent and the wait after it is over; the next would at `now`.
  ghost predicate Spaced(starts: seq<nat>, sends: nat -> nat, now: nat) {
    if starts == [] then now == 0
    else
      && starts[0] == 0
      && (forall j, k :: 0 <= j && k == j + 1 < |starts| ==> starts[k] == starts[j] + sends(j) + Wait(j))
      && now == starts[|starts| - 1] + sends(|starts| - 1) + Wait(|starts| - 1)
  }

  lemma SpacedMore(starts: seq<nat>, sends: nat -> nat, now: nat)
    requires Spaced(starts, sends, now)
    ensures Spaced(starts + [now], sends, now + sends(|starts|) + Wait(|starts|))
  {
  }

  lemma FirstWait()
    ensures Wait(0) == FIRST_RETRY_MS && NoDelay(0) == 0
  {
  }

  // Doubling up to a second gives these waits; seven attempts last at least the five seconds.
  lemma NextWait(k: nat)
    ensures Wait(k + 1) == (if Wait(k) * 2 < LONGEST_RETRY_MS then Wait(k) * 2 else LONGEST_RETRY_MS)
    ensures NoDelay(k + 1) == NoDelay(k) + Wait(k) && (k >= 7 ==> NoDelay(k) >= ORIGIN_TIMEOUT_MS)
    decreases k
  {
    if k > 7 {
      NextWait(k - 1);
    }
  }

  lemma PromptAttempts(starts: seq<nat>, sends: nat -> nat, now: nat)
    requires Spaced(starts, sends, now) && 1 <= |starts| <= 7 && now >= 5000
    requires forall k :: sends(k) == 0
    requires forall k :: 0 <= k < |starts| ==> starts[k] < 5000
    ensures starts == [0, 250, 750, 1750, 2750, 3750, 4750]
  {
    assert |starts| > 1 ==> starts[1] == 250;
    assert |starts| > 2 ==> starts[2] == 750;
    assert |starts| > 3 ==> starts[3] == 1750;
    assert |starts| > 4 ==> starts[4] == 2750;
    assert |starts| > 5 ==> starts[5] == 3750;
    assert |starts| > 6 ==> starts[6] == 4750;
  }

  // The wait after attempt k, and the start of attempt k if sending takes no time.
  function Wait(k: nat): (ms: nat)
    ensures ms > 0
  {
    if k == 0 then 250 else if k == 1 then 500 else 1000
  }

  function NoDelay(k: nat): nat {
    if k == 0 then 0 else NoDelay(k - 1) + Wait(k - 1)
  }
}
