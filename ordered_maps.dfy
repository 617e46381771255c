/**
 * Python's `OrderedDict` as a sequence of (key, value) pairs in insertion order with distinct keys.
 * Assigning to a present key keeps its place and replaces its value; deleting keeps the order of the rest.
 */
module OrderedMaps {
  import opened Wrappers

  ghost predicate DistinctKeys<K, V>(s: seq<(K, V)>)
  {
    forall i, j :: 0 <= i < j < |s| ==> s[i].0 != s[j].0
  }

  /** The keys, in order. */
  function Keys<K, V>(s: seq<(K, V)>): (ks: seq<K>)
    ensures |ks| == |s|
    ensures forall i :: 0 <= i < |s| ==> ks[i] == s[i].0
  {
    if s == [] then [] else [s[0].0] + Keys(s[1..])
  }

  /** `k in d`. */
  predicate HasKey<K(==), V>(s: seq<(K, V)>, k: K)
  {
    exists i :: 0 <= i < |s| && s[i].0 == k
  }

  /** `d.get(k)`. */
  function Get<K(==), V>(s: seq<(K, V)>, k: K): (r: Option<V>)
    ensures r.None? <==> !HasKey(s, k)
    ensures r.Some? ==> exists i :: 0 <= i < |s| && s[i] == (k, r.value)
  {
    if s == [] then None
    else if s[0].0 == k then Some(s[0].1)
    else
      var r := Get(s[1..], k);
      assert r.Some? ==> exists i :: 0 <= i < |s| && s[i] == (k, r.value) by {
        if r.Some? { var i :| 0 <= i < |s| - 1 && s[1..][i] == (k, r.value); assert s[i + 1] == (k, r.value); }
      }
      assert HasKey(s[1..], k) ==> HasKey(s, k) by {
        if HasKey(s[1..], k) { var i :| 0 <= i < |s| - 1 && s[1..][i].0 == k; assert s[i + 1].0 == k; }
      }
      assert HasKey(s, k) ==> HasKey(s[1..], k) by {
        if HasKey(s, k) { var i :| 0 <= i < |s| && s[i].0 == k; assert i > 0 && s[1..][i - 1].0 == k; }
      }
      r
  }

  /** `d[k] = v`: replaces the value in place when k is present, otherwise appends. */
  function Put<K(==), V>(s: seq<(K, V)>, k: K, v: V): (r: seq<(K, V)>)
    ensures |r| == if HasKey(s, k) then |s| else |s| + 1
    ensures forall i :: 0 <= i < |s| ==> r[i] == if s[i].0 == k then (k, v) else s[i]
    ensures !HasKey(s, k) ==> r[|s|] == (k, v)
  {
    if HasKey(s, k) then seq(|s|, i requires 0 <= i < |s| => if s[i].0 == k then (k, v) else s[i])
    else s + [(k, v)]
  }

  /** Deleting every key of `ks` (`del d[k]` for each present k), keeping the order of the rest. */
  function Without<K(==), V>(s: seq<(K, V)>, ks: set<K>): (r: seq<(K, V)>)
  {
    if s == [] then []
    else if s[0].0 in ks then Without(s[1..], ks)
    else [s[0]] + Without(s[1..], ks)
  }

  /** Deleting keeps exactly the pairs whose key is not deleted, never lengthening the sequence. */
  lemma {:induction false} WithoutFacts<K, V>(s: seq<(K, V)>, ks: set<K>)
    ensures |Without(s, ks)| <= |s|
    ensures forall i :: 0 <= i < |Without(s, ks)| ==> Without(s, ks)[i] in s && Without(s, ks)[i].0 !in ks
    ensures forall i :: 0 <= i < |s| && s[i].0 !in ks ==> s[i] in Without(s, ks)
  {
    if s != [] {
      WithoutFacts(s[1..], ks);
      var rest := Without(s[1..], ks);
      forall i | 0 <= i < |Without(s, ks)| ensures Without(s, ks)[i] in s && Without(s, ks)[i].0 !in ks {
        if s[0].0 !in ks && i > 0 {
          assert Without(s, ks)[i] == rest[i - 1];
        }
      }
      forall i | 0 <= i < |s| && s[i].0 !in ks ensures s[i] in Without(s, ks) {
        if i > 0 {
          assert s[i] == s[1..][i - 1];
        }
      }
    }
  }

  lemma PutKeepsDistinct<K, V>(s: seq<(K, V)>, k: K, v: V)
    requires DistinctKeys(s)
    ensures DistinctKeys(Put(s, k, v))
  {
  }

  lemma PutGet<K, V>(s: seq<(K, V)>, k: K, v: V, k': K)
    requires DistinctKeys(s)
    ensures Get(Put(s, k, v), k') == if k' == k then Some(v) else Get(s, k')
  {
    PutKeepsDistinct(s, k, v);
    var r := Put(s, k, v);
    var g := Get(r, k');
    if k' == k {
      assert HasKey(r, k) by {
        if HasKey(s, k) { var i :| 0 <= i < |s| && s[i].0 == k; assert r[i].0 == k; }
        else { assert r[|s|].0 == k; }
      }
      var i :| 0 <= i < |r| && r[i] == (k, g.value);
    } else {
      assert HasKey(r, k') <==> HasKey(s, k') by {
        if HasKey(r, k') { var i :| 0 <= i < |r| && r[i].0 == k'; assert i < |s| && s[i].0 == k'; }
        if HasKey(s, k') { var i :| 0 <= i < |s| && s[i].0 == k'; assert r[i].0 == k'; }
      }
      if g.Some? {
        var i :| 0 <= i < |r| && r[i] == (k', g.value);
        assert i < |s| && s[i] == r[i];
        var h := Get(s, k');
        var j :| 0 <= j < |s| && s[j] == (k', h.value);
        assert i == j;
      }
    }
  }

  /** Deleting only changes which pairs remain: it is an order-preserving subsequence, so keys stay distinct. */
  lemma {:induction false} WithoutKeepsDistinct<K, V>(s: seq<(K, V)>, ks: set<K>)
    requires DistinctKeys(s)
    ensures DistinctKeys(Without(s, ks))
  {
    if s != [] {
      assert DistinctKeys(s[1..]) by {
        forall i, j | 0 <= i < j < |s| - 1 ensures s[1..][i].0 != s[1..][j].0 {
          assert s[i + 1].0 != s[j + 1].0;
        }
      }
      WithoutKeepsDistinct(s[1..], ks);
      WithoutFacts(s[1..], ks);
      var rest := Without(s[1..], ks);
      if s[0].0 !in ks {
        forall j | 0 <= j < |rest| ensures rest[j].0 != s[0].0 {
          var i :| 0 <= i < |s| - 1 && s[1..][i] == rest[j];
          assert s[i + 1] == rest[j];
        }
      }
    }
  }

  /** Deleting in two rounds is deleting the union. */
  lemma {:induction false} WithoutWithout<K, V>(s: seq<(K, V)>, a: set<K>, b: set<K>)
    ensures Without(Without(s, a), b) == Without(s, a + b)
  {
    if s != [] {
      WithoutWithout(s[1..], a, b);
    }
  }

  /** Deleting absent keys changes nothing. */
  lemma {:induction false} WithoutAbsent<K, V>(s: seq<(K, V)>, ks: set<K>)
    requires forall i :: 0 <= i < |s| ==> s[i].0 !in ks
    ensures Without(s, ks) == s
  {
    if s != [] {
      WithoutAbsent(s[1..], ks);
    }
  }

  /** Two sets with the same members are equal. */
  lemma SetExtensionality<K>(a: set<K>, b: set<K>)
    requires forall x :: x in a <==> x in b
    ensures a == b
  {
  }

  /** The key set of the pairs. */
  function KeySet<K(==), V>(s: seq<(K, V)>): set<K>
  {
    if s == [] then {} else {s[0].0} + KeySet(s[1..])
  }

  /** A key is in the key set exactly when some pair carries it. */
  lemma {:induction false} KeySetHasKey<K, V>(s: seq<(K, V)>, k: K)
    ensures k in KeySet(s) <==> HasKey(s, k)
  {
    if s != [] {
      KeySetHasKey(s[1..], k);
      if HasKey(s[1..], k) {
        var i :| 0 <= i < |s| - 1 && s[1..][i].0 == k;
        assert s[i + 1].0 == k;
      }
      if HasKey(s, k) && s[0].0 != k {
        var i :| 0 <= i < |s| && s[i].0 == k;
        assert s[1..][i - 1].0 == k;
      }
    }
  }

  lemma KeySetPut<K, V>(s: seq<(K, V)>, k: K, v: V)
    ensures KeySet(Put(s, k, v)) == KeySet(s) + {k}
  {
    var r := Put(s, k, v);
    forall x: K ensures x in KeySet(r) <==> x in KeySet(s) + {k} {
      KeySetHasKey(r, x);
      KeySetHasKey(s, x);
      if x == k {
        if HasKey(s, k) { var i :| 0 <= i < |s| && s[i].0 == k; assert r[i].0 == k; }
        else { assert r[|s|].0 == k; }
      } else {
        if HasKey(r, x) {
          var i :| 0 <= i < |r| && r[i].0 == x;
          assert i < |s| && s[i].0 == x;
        }
        if HasKey(s, x) {
          var i :| 0 <= i < |s| && s[i].0 == x;
          assert r[i].0 == x;
        }
        assert HasKey(r, x) <==> HasKey(s, x);
      }
    }
    SetExtensionality(KeySet(r), KeySet(s) + {k});
  }

  lemma KeySetCons<K, V>(x: (K, V), s: seq<(K, V)>)
    ensures KeySet([x] + s) == {x.0} + KeySet(s)
  {
    assert ([x] + s)[1..] == s;
  }

  lemma {:induction false} KeySetWithout<K, V>(s: seq<(K, V)>, ks: set<K>)
    ensures KeySet(Without(s, ks)) == KeySet(s) - ks
  {
    if s != [] {
      KeySetWithout(s[1..], ks);
      assert s == [s[0]] + s[1..];
      KeySetCons(s[0], s[1..]);
      if s[0].0 !in ks {
        KeySetCons(s[0], Without(s[1..], ks));
      }
    }
  }

  /** Popping the first pair (`popitem(last=False)`) removes exactly its key. */
  lemma TailKeySet<K, V>(s: seq<(K, V)>)
    requires DistinctKeys(s) && s != []
    ensures DistinctKeys(s[1..])
    ensures KeySet(s[1..]) == KeySet(s) - {s[0].0}
  {
    assert DistinctKeys(s[1..]) by {
      forall i, j | 0 <= i < j < |s| - 1 ensures s[1..][i].0 != s[1..][j].0 {
        assert s[i + 1].0 != s[j + 1].0;
      }
    }
    KeySetHasKey(s[1..], s[0].0);
    assert !HasKey(s[1..], s[0].0) by {
      forall i | 0 <= i < |s| - 1 ensures s[1..][i].0 != s[0].0 {
        assert s[i + 1].0 != s[0].0;
      }
    }
  }

}
