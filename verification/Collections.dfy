/** Small numbers and finite collections: what several parts use. */
module Collections {
  function Min(a: nat, b: nat): nat {
    if a < b then a else b
  }

  predicate NoRepeats<T(==)>(s: seq<T>) {
    forall i, j :: 0 <= i < j < |s| ==> s[i] != s[j]
  }

  lemma TakeOneMore<T>(s: seq<T>, i: nat)
    requires i < |s|
    ensures s[..i + 1] == s[..i] + [s[i]]
  {
  }

  lemma NoRepeatsMore<T>(s: seq<T>, x: T)
    requires NoRepeats(s) && x !in s
    ensures NoRepeats(s + [x])
  {
    var more := s + [x];
    forall i, j | 0 <= i < j < |more| ensures more[i] != more[j] {
      assert more[i] == s[i];
    }
  }

  lemma {:induction false} SmallerSet<T>(small: set<T>, large: set<T>)
    requires small <= large
    ensures |small| <= |large|
  {
    if small != {} {
      var x :| x in small;
      SmallerSet(small - {x}, large - {x});
    }
  }

  lemma SmallerMap<K, V>(small: map<K, V>, large: map<K, V>)
    requires small.Keys <= large.Keys
    ensures |small| <= |large|
  {
    SmallerSet(small.Keys, large.Keys);
    assert |small.Keys| == |small| && |large.Keys| == |large|;
  }
}
