/**
 * Ranked lists cut to a size: newest first, equal times by key. The recent-peer cache keeps its peers and their endpoints
 * this way (packages/core/src/recentPeers.ts).
 */
module TopK {

  datatype Item<T> = Item(key: int, at: nat, value: T)

  predicate Before<T>(a: Item<T>, b: Item<T>) {
    a.at > b.at || (a.at == b.at && a.key < b.key)
  }

  // ---- Sorting ----

  predicate Ranked<T>(items: seq<Item<T>>) {
    forall i, j :: 0 <= i < j < |items| ==> Before(items[i], items[j])
  }

  predicate DistinctKeys<T>(items: seq<Item<T>>) {
    forall i, j :: 0 <= i < j < |items| ==> items[i].key != items[j].key
  }

  function Insert<T>(x: Item<T>, items: seq<Item<T>>): seq<Item<T>> {
    if items == [] || Before(x, items[0]) then [x] + items else [items[0]] + Insert(x, items[1..])
  }

  function Sort<T>(items: seq<Item<T>>): seq<Item<T>> {
    if items == [] then [] else Insert(items[0], Sort(items[1..]))
  }

  lemma {:induction false} InsertRanks<T(!new)>(x: Item<T>, items: seq<Item<T>>)
    requires Ranked(items) && forall i :: 0 <= i < |items| ==> items[i].key != x.key
    ensures Ranked(Insert(x, items)) && |Insert(x, items)| == |items| + 1
    ensures forall y :: y in Insert(x, items) <==> y == x || y in items
  {
    if items != [] && !Before(x, items[0]) {
      var tail := items[1..];
      assert forall i :: 0 <= i < |tail| ==> tail[i] == items[i + 1];
      InsertRanks(x, tail);
      var rest := Insert(x, tail);
      forall j | 0 <= j < |rest| ensures Before(items[0], rest[j]) {
        assert rest[j] in rest;
        if rest[j] != x {
          assert rest[j] in tail;
          var i :| 0 <= i < |tail| && tail[i] == rest[j];
          assert Before(items[0], items[i + 1]);
        }
      }
    }
  }

  lemma {:induction false} SortRanks<T(!new)>(items: seq<Item<T>>)
    requires DistinctKeys(items)
    ensures Ranked(Sort(items)) && |Sort(items)| == |items|
    ensures forall y :: y in Sort(items) <==> y in items
  {
    if items != [] {
      var tail := items[1..];
      assert forall i :: 0 <= i < |tail| ==> tail[i] == items[i + 1];
      SortRanks(tail);
      forall i | 0 <= i < |Sort(tail)| ensures Sort(tail)[i].key != items[0].key {
        assert Sort(tail)[i] in Sort(tail);
        assert Sort(tail)[i] in tail;
        var j :| 0 <= j < |tail| && tail[j] == Sort(tail)[i];
        assert items[j + 1].key != items[0].key;
      }
      InsertRanks(items[0], Sort(tail));
    }
  }

  function Cut<T>(items: seq<Item<T>>, k: nat): seq<Item<T>> {
    if |items| <= k then items else items[..k]
  }

  // ---- The top of a map from keys to times ----

  predicate Within<T>(items: seq<Item<T>>, times: map<int, nat>) {
    forall i :: 0 <= i < |items| ==> items[i].key in times && times[items[i].key] == items[i].at
  }

  predicate Listed<T>(items: seq<Item<T>>, key: int) {
    exists i :: 0 <= i < |items| && items[i].key == key
  }

  // Everything listed comes before (key, at).
  predicate AllBefore<T>(items: seq<Item<T>>, key: int, at: nat) {
    forall i :: 0 <= i < |items| ==> items[i].at > at || (items[i].at == at && items[i].key < key)
  }

  // The items are the first k of the map in rank order: whatever is not listed comes after a full list.
  ghost predicate IsTop<T>(items: seq<Item<T>>, times: map<int, nat>, k: nat) {
    && Ranked(items) && Within(items, times) && |items| <= k
    && forall key {:trigger times[key]} :: key in times && !Listed(items, key) ==> |items| == k && AllBefore(items, key, times[key])
  }

  // There is one such list of keys and times.
  lemma {:induction false} TopIsUnique<T, U>(a: seq<Item<T>>, b: seq<Item<U>>, times: map<int, nat>, k: nat, n: nat)
    requires IsTop(a, times, k) && IsTop(b, times, k) && n <= |a|
    ensures n <= |b| && forall i :: 0 <= i < n ==> a[i].key == b[i].key && a[i].at == b[i].at
  {
    hide Ranked, Within, Listed, AllBefore;
    if n > 0 {
      TopIsUnique(a, b, times, k, n - 1);
      NextAgrees(a, b, times, k, n - 1);
    }
  }

  lemma NextAgrees<T, U>(a: seq<Item<T>>, b: seq<Item<U>>, times: map<int, nat>, k: nat, n: nat)
    requires IsTop(a, times, k) && IsTop(b, times, k) && n < |a| && n <= |b|
    requires forall i :: 0 <= i < n ==> a[i].key == b[i].key && a[i].at == b[i].at
    ensures n < |b| && a[n].key == b[n].key && a[n].at == b[n].at
  {
    if Listed(b, a[n].key) {
      var j :| 0 <= j < |b| && b[j].key == a[n].key;
      assert j >= n;
      if j > n {
        // b[n] comes before a[n], so a must list it before n.
        NotLater(a, b, times, k, n);
      }
    }
  }

  lemma NotLater<T, U>(a: seq<Item<T>>, b: seq<Item<U>>, times: map<int, nat>, k: nat, n: nat)
    requires IsTop(a, times, k) && IsTop(b, times, k) && n < |a| && n < |b|
    requires forall i :: 0 <= i < n ==> a[i].key == b[i].key && a[i].at == b[i].at
    ensures !(b[n].at > a[n].at || (b[n].at == a[n].at && b[n].key < a[n].key))
  {
  }

  // ---- One more observation ----

  // The latest time seen for the key.
  function Raised(times: map<int, nat>, key: int, at: nat): map<int, nat> {
    if key in times && times[key] >= at then times else times[key := at]
  }

  function TimeOf<T>(items: seq<Item<T>>, key: int): (at: nat)
    ensures Listed(items, key) ==> exists i :: 0 <= i < |items| && items[i].key == key && items[i].at == at
    ensures !Listed(items, key) ==> at == 0
  {
    if items == [] then 0 else if items[0].key == key then items[0].at else
      assert forall i :: 0 <= i < |items[1..]| ==> items[1..][i] == items[i + 1];
      TimeOf(items[1..], key)
  }

  function Without<T(!new)>(items: seq<Item<T>>, key: int): (r: seq<Item<T>>)
    ensures forall x :: x in r <==> x in items && x.key != key
  {
    if items == [] then [] else (if items[0].key == key then [] else [items[0]]) + Without(items[1..], key)
  }

  lemma {:induction false} WithoutIsDistinct<T(!new)>(items: seq<Item<T>>, key: int)
    requires DistinctKeys(items)
    ensures DistinctKeys(Without(items, key))
  {
    if items != [] {
      var tail := items[1..];
      assert forall i :: 0 <= i < |tail| ==> tail[i] == items[i + 1];
      WithoutIsDistinct(tail, key);
      forall i | 0 <= i < |Without(tail, key)| ensures Without(tail, key)[i].key != items[0].key {
        assert Without(tail, key)[i] in Without(tail, key);
        var j :| 0 <= j < |tail| && tail[j] == Without(tail, key)[i];
        assert items[j + 1].key != items[0].key;
      }
    }
  }

  function Max(a: nat, b: nat): nat {
    if a > b then a else b
  }

  // The list after one observation of the key, before it is cut.
  function Observed<T(!new)>(items: seq<Item<T>>, key: int, at: nat, value: T): seq<Item<T>> {
    Sort(Without(items, key) + [Item(key, Max(TimeOf(items, key), at), value)])
  }

  lemma RankedIsDistinct<T>(items: seq<Item<T>>, times: map<int, nat>)
    requires Ranked(items) && Within(items, times)
    ensures DistinctKeys(items)
  {
  }

  lemma {:induction false} WithoutLength<T(!new)>(items: seq<Item<T>>, key: int)
    requires DistinctKeys(items)
    ensures |Without(items, key)| == |items| - (if Listed(items, key) then 1 else 0)
  {
    if items != [] {
      var tail := items[1..];
      assert forall i :: 0 <= i < |tail| ==> tail[i] == items[i + 1];
      WithoutLength(tail, key);
    }
  }

  lemma SameItemsStayDistinct<T(!new)>(a: seq<Item<T>>, b: seq<Item<T>>)
    requires DistinctKeys(a) && Ranked(b) && forall x :: x in b ==> x in a
    ensures DistinctKeys(b)
  {
    forall i, j | 0 <= i < j < |b| ensures b[i].key != b[j].key {
      assert b[i] in b && b[j] in b;
      var k :| 0 <= k < |a| && a[k] == b[i];
      var l :| 0 <= l < |a| && a[l] == b[j];
      assert Before(b[i], b[j]);
    }
  }

  // The ranked list after an observation: the other items and the one observed.
  ghost predicate Updates<T(!new)>(items: seq<Item<T>>, all: seq<Item<T>>, x: Item<T>) {
    && Ranked(all) && DistinctKeys(all)
    && (forall y :: y in all <==> (y in items && y.key != x.key) || y == x)
    && |all| == |items| + (if Listed(items, x.key) then 0 else 1)
  }

  lemma ObservedUpdates<T(!new)>(items: seq<Item<T>>, key: int, at: nat, value: T)
    requires DistinctKeys(items)
    ensures Updates(items, Observed(items, key, at, value), Item(key, Max(TimeOf(items, key), at), value))
  {
    var rest, x := Without(items, key), Item(key, Max(TimeOf(items, key), at), value);
    WithoutIsDistinct(items, key);
    WithoutLength(items, key);
    forall i | 0 <= i < |rest| ensures rest[i].key != key {
      assert rest[i] in rest;
    }
    SortRanks(rest + [x]);
    SameItemsStayDistinct(rest + [x], Sort(rest + [x]));
  }

  lemma CutAt<T>(all: seq<Item<T>>, k: nat, i: nat)
    requires i < |all| && i < k
    ensures all[i] in Cut(all, k)
  {
    assert Cut(all, k)[i] == all[i];
  }

  lemma InCut<T>(all: seq<Item<T>>, k: nat, y: Item<T>)
    requires y in all
    ensures y in Cut(all, k) || (|all| > k && exists i :: k <= i < |all| && all[i] == y)
  {
    var i :| 0 <= i < |all| && all[i] == y;
    if i < k {
      CutAt(all, k, i);
    }
  }

  // Where the observed item ends up when its key had been cut earlier at a later time: behind everything listed.
  lemma StaleObservation<T(!new)>(items: seq<Item<T>>, all: seq<Item<T>>, x: Item<T>, late: nat, k: nat)
    requires Updates(items, all, x) && !Listed(items, x.key) && |items| == k && AllBefore(items, x.key, late) && late > x.at
    ensures x !in Cut(all, k)
  {
    assert all[k] in all;
    assert forall p :: 0 <= p < k ==> Before(all[p], all[k]);
  }

  lemma CutIsWithin<T(!new)>(items: seq<Item<T>>, all: seq<Item<T>>, x: Item<T>, times: map<int, nat>, at: nat, k: nat)
    requires IsTop(items, times, k) && Updates(items, all, x)
    requires x.at == (if Listed(items, x.key) then Max(times[x.key], at) else at)
    ensures Within(Cut(all, k), Raised(times, x.key, at))
  {
    var cut, raised := Cut(all, k), Raised(times, x.key, at);
    forall i | 0 <= i < |cut| ensures cut[i].key in raised && raised[cut[i].key] == cut[i].at {
      assert cut[i] in all;
      if cut[i] == x {
        if !Listed(items, x.key) && x.key in times && times[x.key] > at {
          StaleObservation(items, all, x, times[x.key], k);
        }
      } else {
        var j :| 0 <= j < |items| && items[j] == cut[i];
      }
    }
  }

  lemma ListedTime<T>(items: seq<Item<T>>, times: map<int, nat>, key: int)
    requires Within(items, times) && Listed(items, key)
    ensures key in times && TimeOf(items, key) == times[key]
  {
  }

  // A key that is not listed after the cut comes after everything that is.
  lemma UnlistedIsBehind<T(!new)>(items: seq<Item<T>>, all: seq<Item<T>>, x: Item<T>, times: map<int, nat>, at: nat, k: nat, key: int)
    requires IsTop(items, times, k) && Updates(items, all, x)
    requires x.at == (if Listed(items, x.key) then Max(times[x.key], at) else at)
    requires key in Raised(times, x.key, at) && !Listed(Cut(all, k), key)
    ensures |Cut(all, k)| == k && AllBefore(Cut(all, k), key, Raised(times, x.key, at)[key])
  {
    var cut, raised := Cut(all, k), Raised(times, x.key, at);
    if key == x.key || Listed(items, key) {
      var y := x;
      if key != x.key {
        var j :| 0 <= j < |items| && items[j].key == key;
        y := items[j];
      }
      assert y in all;
      assert y !in cut;
      InCut(all, k, y);
      var i :| k <= i < |all| && all[i] == y;
      assert forall p :: 0 <= p < k ==> Before(all[p], y);
    } else {
      assert AllBefore(items, key, times[key]);
      forall p | 0 <= p < |cut| ensures Before(cut[p], Item(key, times[key], cut[p].value)) {
        assert cut[p] in all;
        if cut[p] == x {
          BehindTheObserved(items, all, x, times, k, key, p);
        } else {
          var j :| 0 <= j < |items| && items[j] == cut[p];
        }
      }
    }
  }

  lemma BehindTheObserved<T(!new)>(items: seq<Item<T>>, all: seq<Item<T>>, x: Item<T>, times: map<int, nat>, k: nat, key: int, p: nat)
    requires IsTop(items, times, k) && Updates(items, all, x) && p < |Cut(all, k)| && all[p] == x
    requires key != x.key && |items| == k && key in times && AllBefore(items, key, times[key])
    requires Listed(items, x.key) ==> x.at >= times[x.key]
    ensures Before(x, Item(key, times[key], x.value))
  {
    if Listed(items, x.key) {
      var j :| 0 <= j < |items| && items[j].key == x.key;
    } else {
      assert all[k] in all;
      assert all[k] != x;
      var j :| 0 <= j < |items| && items[j] == all[k];
      assert Before(all[p], all[k]);
    }
  }

  // Observing keeps the top: the list stays the first k of the latest time of every key ever observed.
  lemma ObserveKeepsTop<T(!new)>(items: seq<Item<T>>, times: map<int, nat>, k: nat, key: int, at: nat, value: T)
    requires IsTop(items, times, k)
    ensures IsTop(Cut(Observed(items, key, at, value), k), Raised(times, key, at), k)
  {
    var all, x := Observed(items, key, at, value), Item(key, Max(TimeOf(items, key), at), value);
    RankedIsDistinct(items, times);
    ObservedUpdates(items, key, at, value);
    hide Observed;
    if Listed(items, key) {
      ListedTime(items, times, key);
    }
    UpdatesKeepTop(items, all, x, times, at, k);
  }

  lemma UpdatesKeepTop<T(!new)>(items: seq<Item<T>>, all: seq<Item<T>>, x: Item<T>, times: map<int, nat>, at: nat, k: nat)
    requires IsTop(items, times, k) && Updates(items, all, x)
    requires x.at == (if Listed(items, x.key) then Max(times[x.key], at) else at)
    ensures IsTop(Cut(all, k), Raised(times, x.key, at), k)
  {
    CutIsWithin(items, all, x, times, at, k);
    var raised := Raised(times, x.key, at);
    forall key {:trigger raised[key]} | key in raised && !Listed(Cut(all, k), key)
      ensures |Cut(all, k)| == k && AllBefore(Cut(all, k), key, raised[key])
    {
      UnlistedIsBehind(items, all, x, times, at, k, key);
    }
    assert Ranked(Cut(all, k));
    hide Ranked, Within, Listed, AllBefore, Cut, Updates;
  }
}
