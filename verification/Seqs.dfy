/** Mapping every element of a sequence to a sequence and joining the results. */
module Seqs {

  function FlatMap<A, B>(f: A -> seq<B>, es: seq<A>): seq<B> {
    if es == [] then [] else f(es[0]) + FlatMap(f, es[1..])
  }

  lemma {:induction false} FlatMapConcat<A, B>(f: A -> seq<B>, a: seq<A>, b: seq<A>)
    ensures FlatMap(f, a + b) == FlatMap(f, a) + FlatMap(f, b)
    decreases |a|
  {
    if a == [] {
      assert a + b == b;
    } else {
      FlatMapConcat(f, a[1..], b);
      assert (a + b)[1..] == a[1..] + b;
      Assoc(f(a[0]), FlatMap(f, a[1..]), FlatMap(f, b));
    }
  }

  lemma FlatMapOne<A, B>(f: A -> seq<B>, e: A)
    ensures FlatMap(f, [e]) == f(e)
  {
    assert FlatMap(f, [e]) == f(e) + FlatMap(f, []);
  }

  lemma CutAppended<T>(s: seq<T>, u: seq<T>, j: nat)
    requires j <= |s|
    ensures (s + u)[..j] == s[..j] && (s + u)[j..] == s[j..] + u
  {
  }

  lemma SliceOfSlice<T>(s: seq<T>, a: nat, b: nat, i: nat, j: nat)
    requires a <= b <= |s| && i <= j <= b - a
    ensures s[a..b][i..j] == s[a + i..a + j]
  {
    var x, y := s[a..b][i..j], s[a + i..a + j];
    assert |x| == |y|;
    forall k | 0 <= k < |x| ensures x[k] == y[k] {
    }
  }

  lemma Assoc<T>(a: seq<T>, b: seq<T>, c: seq<T>)
    ensures a + (b + c) == a + b + c
  {
  }

  /** Two steps that each keep the whole, `held` being what the first leaves for the second, keep it together. */
  lemma Regroup<T>(x: seq<T>, y: seq<T>, rest: seq<T>, held: seq<T>, first: seq<T>, later: seq<T>, start: seq<T>)
    requires x + held == start + first && y + rest == held + later
    ensures x + y + rest == start + (first + later)
  {
    assert x + y + rest == x + (y + rest);
    assert x + (held + later) == x + held + later;
    assert start + (first + later) == start + first + later;
  }
}
