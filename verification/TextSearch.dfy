/** First occurrences of a marker, and the tail of a text that a marker might still grow out of. */
module TextSearch {
  import opened Options

  /** The first `n` characters of `m` stand in `s` at `i`. */
  predicate Matches(s: string, i: nat, m: string, n: nat)
    requires i + n <= |s| && n <= |m|
  {
    n == 0 || (s[i + n - 1] == m[n - 1] && Matches(s, i, m, n - 1))
  }

  lemma {:induction false} MatchesIsEquality(s: string, i: nat, m: string, n: nat)
    requires i + n <= |s| && n <= |m|
    ensures Matches(s, i, m, n) <==> s[i..i + n] == m[..n]
  {
    if n > 0 {
      MatchesIsEquality(s, i, m, n - 1);
      assert s[i..i + n] == s[i..i + n - 1] + [s[i + n - 1]];
      assert m[..n] == m[..n - 1] + [m[n - 1]];
    }
  }

  /** Matching looks at the text from `i` on only. */
  lemma {:induction false} MatchesElsewhere(p: string, t: string, u: string, i: nat, m: string, n: nat)
    requires i + n <= |t| && n <= |m|
    ensures Matches(p + t + u, |p| + i, m, n) == Matches(t, i, m, n)
  {
    if n > 0 {
      MatchesElsewhere(p, t, u, i, m, n - 1);
    }
  }

  lemma {:induction false} MatchesPrefix(s: string, i: nat, m: string, n: nat, k: nat)
    requires i + n <= |s| && k <= n <= |m| && Matches(s, i, m, n)
    ensures Matches(s, i, m, k)
  {
    if k < n {
      MatchesPrefix(s, i, m, n - 1, k);
    }
  }

  predicate OccursAt(s: string, m: string, i: nat) { i + |m| <= |s| && Matches(s, i, m, |m|) }

  lemma OccurrenceText(s: string, m: string, i: nat)
    requires OccursAt(s, m, i)
    ensures s[i..i + |m|] == m
  {
    MatchesIsEquality(s, i, m, |m|);
    assert m[..|m|] == m;
  }

  /** The first occurrence at or after `k`. */
  function FindFrom(s: string, m: string, k: nat): (r: Option<nat>)
    requires k <= |s|
    ensures r.Some? ==> k <= r.value && r.value + |m| <= |s|
    decreases |s| - k
  {
    if OccursAt(s, m, k) then Some(k)
    else if k == |s| then None
    else FindFrom(s, m, k + 1)
  }

  lemma {:induction false} FindFromIsFirst(s: string, m: string, k: nat)
    requires k <= |s|
    ensures var r := FindFrom(s, m, k);
      && (r.Some? ==> OccursAt(s, m, r.value) && forall i: nat :: k <= i < r.value ==> !OccursAt(s, m, i))
      && (r == None ==> forall i: nat :: k <= i ==> !OccursAt(s, m, i))
    decreases |s| - k
  {
    if !OccursAt(s, m, k) && k < |s| {
      FindFromIsFirst(s, m, k + 1);
    }
  }

  /** `str::find` */
  function Find(s: string, m: string): (r: Option<nat>) { FindFrom(s, m, 0) }

  /** An occurrence stays the first one however the text goes on. */
  lemma {:induction false} FindAppend(s: string, m: string, u: string, k: nat)
    requires k <= |s| && FindFrom(s, m, k).Some?
    ensures FindFrom(s + u, m, k) == FindFrom(s, m, k)
    decreases |s| - k
  {
    if k + |m| <= |s| {
      MatchesElsewhere("", s, u, k, m, |m|);
      assert "" + s + u == s + u;
    }
    if !OccursAt(s, m, k) {
      FindAppend(s, m, u, k + 1);
    }
  }

  lemma {:induction false} FindShifted(p: string, t: string, m: string, k: nat)
    requires k <= |t|
    ensures FindFrom(p + t, m, |p| + k) == if FindFrom(t, m, k) == None then None else Some(|p| + FindFrom(t, m, k).value)
    decreases |t| - k
  {
    if k + |m| <= |t| {
      MatchesElsewhere(p, t, "", k, m, |m|);
      assert p + t + "" == p + t;
    }
    if !OccursAt(t, m, k) && k < |t| {
      FindShifted(p, t, m, k + 1);
    }
  }

  /** A search may skip what no occurrence begins in. */
  lemma {:induction false} FindSkips(s: string, m: string, k: nat, n: nat)
    requires k <= n <= |s| && forall i: nat :: k <= i < n ==> !OccursAt(s, m, i)
    ensures FindFrom(s, m, k) == FindFrom(s, m, n)
    decreases n - k
  {
    if k < n {
      FindSkips(s, m, k + 1, n);
    }
  }

  /** The last `l` characters of `s` are a beginning of `m`. */
  predicate TailFits(s: string, m: string, l: nat) { l <= |s| && l <= |m| && Matches(s, |s| - l, m, l) }

  /** The length of the longest tail, of at most `l` characters, that is a beginning of `m`. */
  function CarryLen(s: string, m: string, l: nat): (c: nat)
    ensures c <= l
  {
    if l == 0 || TailFits(s, m, l) then l else CarryLen(s, m, l - 1)
  }

  lemma {:induction false} CarryLenIsLongest(s: string, m: string, l: nat)
    ensures var c := CarryLen(s, m, l); TailFits(s, m, c) && forall k: nat :: c < k <= l ==> !TailFits(s, m, k)
  {
    if l > 0 && !TailFits(s, m, l) {
      CarryLenIsLongest(s, m, l - 1);
    }
  }

  lemma CarryLenStep(s: string, m: string, l: nat)
    requires 0 < l <= |s| && l <= |m|
    ensures CarryLen(s, m, l) == if m[..l] == s[|s| - l..] then l else CarryLen(s, m, l - 1)
  {
    MatchesIsEquality(s, |s| - l, m, l);
    assert s[|s| - l..|s| - l + l] == s[|s| - l..];
  }

  /** How many characters `split_tail` holds back: fewer than a whole marker. */
  function HeldLen(s: string, m: string): (n: nat)
    ensures n <= |s| && (|m| > 0 ==> n < |m|)
  {
    var most := if |m| == 0 then 0 else |m| - 1;
    CarryLen(s, m, if most < |s| then most else |s|)
  }

  /** `split_tail`: what can be let go, and what a marker might still grow out of. */
  method SplitTail(s: string, m: string) returns (safe: string, carry: string)
    ensures carry == s[|s| - HeldLen(s, m)..] && safe == s[..|s| - HeldLen(s, m)]
  {
    var most := if |m| == 0 then 0 else |m| - 1;
    var maxScan := if most < |s| then most else |s|;
    var carryLen := 0;
    for l: nat := 1 to maxScan + 1
      invariant carryLen == CarryLen(s, m, l - 1)
    {
      CarryLenStep(s, m, l);
      if m[..l] == s[|s| - l..] {
        carryLen := l;
      }
    }
    safe, carry := s[..|s| - carryLen], s[|s| - carryLen..];
  }

  /** Holding back the tail is enough: no later text makes a marker begin in the part let go. */
  lemma SafePartIsSafe(s: string, m: string, u: string, i: nat)
    requires Find(s, m) == None && i < |s| - HeldLen(s, m)
    ensures !OccursAt(s + u, m, i)
  {
    FindFromIsFirst(s, m, 0);
    assert "" + s + u == s + u;
    if i + |m| <= |s| {
      assert !OccursAt(s, m, i);
      MatchesElsewhere("", s, u, i, m, |m|);
    } else if OccursAt(s + u, m, i) {
      var k := |s| - i;
      MatchesPrefix(s + u, i, m, |m|, k);
      MatchesElsewhere("", s, u, i, m, k);
      assert TailFits(s, m, k);
      CarryLenIsLongest(s, m, if |m| - 1 < |s| then |m| - 1 else |s|);
    }
  }

  lemma NothingLetGo(s: string, m: string, u: string, n: nat)
    requires Find(s, m) == None && n == |s| - HeldLen(s, m)
    ensures Find(s + u, m) == FindFrom(s + u, m, n)
  {
    forall i: nat | 0 <= i < n ensures !OccursAt(s + u, m, i) {
      SafePartIsSafe(s, m, u, i);
    }
    FindSkips(s + u, m, 0, n);
  }

  /** So the search can be resumed in what is held back, `t` being that and whatever follows. */
  lemma FindFromHeld(s: string, m: string, u: string, p: string, t: string)
    requires Find(s, m) == None
    requires p == s[..|s| - HeldLen(s, m)] && t == s[|s| - HeldLen(s, m)..] + u
    ensures s + u == p + t
    ensures Find(p + t, m) == if Find(t, m) == None then None else Some(|p| + Find(t, m).value)
  {
    NothingLetGo(s, m, u, |p|);
    assert s + u == p + t;
    FindShifted(p, t, m, 0);
  }

  lemma {:induction false} FindInShort(s: string, m: string, k: nat)
    requires k <= |s| < |m|
    ensures FindFrom(s, m, k) == None
    decreases |s| - k
  {
    if k < |s| {
      FindInShort(s, m, k + 1);
    }
  }
}
