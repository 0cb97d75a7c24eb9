/** Sums of a weight over the values of a finite map, and counting facts about bounded index sets. */
module MapSums {

  ghost function MapSum<K, V>(m: map<K, V>, w: V -> nat): nat
    decreases |m|
  {
    if m == map[] then 0
    else
      var k :| k in m;
      w(m[k]) + MapSum(m - {k}, w)
  }

  /** The sum does not depend on the order of removal. */
  lemma {:induction false} SumRemove<K, V>(m: map<K, V>, w: V -> nat, k: K)
    requires k in m
    ensures MapSum(m, w) == w(m[k]) + MapSum(m - {k}, w)
    decreases |m|
  {
    var j :| j in m && MapSum(m, w) == w(m[j]) + MapSum(m - {j}, w);
    if j != k {
      SumRemove(m - {j}, w, k);
      SumRemove(m - {k}, w, j);
      assert m - {j} - {k} == m - {k} - {j};
    }
  }

  lemma SumInsert<K, V>(m: map<K, V>, w: V -> nat, k: K, v: V)
    ensures MapSum(m[k := v], w) == w(v) + MapSum(m - {k}, w)
  {
    SumRemove(m[k := v], w, k);
    assert m[k := v] - {k} == m - {k};
  }

  lemma SumMember<K, V>(m: map<K, V>, w: V -> nat, k: K)
    requires k in m
    ensures w(m[k]) <= MapSum(m, w)
  {
    SumRemove(m, w, k);
  }

  lemma {:induction false} SumSubmap<K, V>(m: map<K, V>, w: V -> nat, s: set<K>)
    ensures MapSum(m - s, w) <= MapSum(m, w)
    decreases |s|
  {
    if s == {} {
      assert m - s == m;
    } else {
      var k :| k in s;
      SumSubmap(m, w, s - {k});
      if k in m {
        SumRemove(m - (s - {k}), w, k);
        assert m - (s - {k}) - {k} == m - s;
      } else {
        assert m - (s - {k}) == m - s;
      }
    }
  }

  lemma MulSucc(n: nat, b: nat)
    ensures (n + 1) * b == n * b + b
  {
  }

  lemma SizeRemove<K, V>(m: map<K, V>, k: K)
    requires k in m
    ensures |m| == |m - {k}| + 1
  {
    assert (m - {k}).Keys == m.Keys - {k};
  }

  lemma {:induction false} SumBound<K, V>(m: map<K, V>, w: V -> nat, bound: nat)
    requires forall k :: k in m ==> w(m[k]) <= bound
    ensures MapSum(m, w) <= |m| * bound
    decreases |m|
  {
    if m != map[] {
      var k :| k in m;
      SumRemove(m, w, k);
      SumBound(m - {k}, w, bound);
      SizeRemove(m, k);
      MulSucc(|m - {k}|, bound);
    }
  }

  ghost function Below(n: nat): (s: set<int>)
    ensures forall i :: i in s <==> 0 <= i < n
  {
    if n == 0 then {} else Below(n - 1) + {n - 1}
  }

  lemma {:induction false} BelowSize(n: nat)
    ensures |Below(n)| == n
  {
    if n > 0 {
      BelowSize(n - 1);
    }
  }

  lemma {:induction false} SubsetSize<T>(a: set<T>, b: set<T>)
    requires a <= b
    ensures |a| <= |b|
    ensures |a| == |b| ==> a == b
    decreases |a|
  {
    if a == {} {
      assert |b| == 0 ==> b == {};
    } else {
      var x :| x in a;
      SubsetSize(a - {x}, b - {x});
      assert a == a - {x} + {x} && b == b - {x} + {x};
    }
  }

  /** A set of `n` indices below `n` holds all of them. */
  lemma FullIndexSet(s: set<int>, n: nat)
    requires forall i :: i in s ==> 0 <= i < n
    ensures |s| <= n
    ensures |s| == n ==> s == Below(n)
  {
    BelowSize(n);
    SubsetSize(s, Below(n));
  }
}
