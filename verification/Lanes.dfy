/**
 * Eight lanes packed into one word, read and written by shifts and masks: u16 lanes in a u128 and u8 lanes in a u64.
 * A word is its bits, least significant first; `n` is the width of a lane, 16 or 8. Indices of 8 and above make the
 * program stop and are not part of the model.
 */
module Lanes {

  const COUNT: nat := 8

  type Word = seq<bool>

  // ---- Operations on words of equal width

  function And(a: Word, b: Word): (r: Word)
    requires |a| == |b|
    ensures |r| == |a|
  {
    seq(|a|, i requires 0 <= i < |a| => a[i] && b[i])
  }

  function Or(a: Word, b: Word): (r: Word)
    requires |a| == |b|
    ensures |r| == |a|
  {
    seq(|a|, i requires 0 <= i < |a| => a[i] || b[i])
  }

  function Not(a: Word): (r: Word)
    ensures |r| == |a|
  {
    seq(|a|, i requires 0 <= i < |a| => !a[i])
  }

  function ShiftLeft(a: Word, k: nat): (r: Word)
    ensures |r| == |a|
  {
    seq(|a|, i requires 0 <= i < |a| => i >= k && a[i - k])
  }

  function ShiftRight(a: Word, k: nat): (r: Word)
    ensures |r| == |a|
  {
    seq(|a|, i requires 0 <= i < |a| => i + k < |a| && a[i + k])
  }

  /** Widening and narrowing to `w` bits (`as`). */
  function Resize(a: Word, w: nat): (r: Word)
    ensures |r| == w
  {
    seq(w, i requires 0 <= i < w => i < |a| && a[i])
  }

  function AllOnes(n: nat): (r: Word)
    ensures |r| == n
  {
    seq(n, i requires 0 <= i < n => true)
  }

  // ---- Lanes

  /** Where lane `i` begins: `i` times `n`, as a sum. */
  function Offset(n: nat, i: nat): nat { if i == 0 then 0 else Offset(n, i - 1) + n }

  lemma {:induction false} OffsetIsProduct(n: nat, i: nat)
    ensures Offset(n, i) == i * n
  {
    if i > 0 {
      OffsetIsProduct(n, i - 1);
      assert i * n == (i - 1) * n + n;
    }
  }

  /** A word that holds eight lanes of `n` bits. */
  ghost predicate Holds(v: Word, n: nat) { |v| == Offset(n, COUNT) }

  function Get(v: Word, n: nat, i: nat): (x: Word)
    ensures |x| == n
  {
    Resize(And(ShiftRight(v, Offset(n, i)), Resize(AllOnes(n), |v|)), n)
  }

  method Set(v: Word, n: nat, i: nat, x: Word) returns (v': Word)
    requires Holds(v, n) && i < COUNT && |x| == n
    ensures Holds(v', n) && Lanes(v', n) == Lanes(v, n)[i := x]
  {
    var shift := Offset(n, i);
    var mask := Not(ShiftLeft(Resize(AllOnes(n), |v|), shift));
    v' := And(v, mask);
    v' := Or(v', ShiftLeft(Resize(x, |v|), shift));
    LanesOfWith(v, n, i, x);
  }

  function With(v: Word, n: nat, i: nat, x: Word): (r: Word)
    ensures |r| == |v|
  {
    Or(And(v, Not(ShiftLeft(Resize(AllOnes(n), |v|), Offset(n, i)))), ShiftLeft(Resize(x, |v|), Offset(n, i)))
  }

  /** The word as the array it stands for. */
  function Lanes(v: Word, n: nat): (ls: seq<Word>)
    ensures |ls| == COUNT
  {
    seq(COUNT, i requires 0 <= i < COUNT => Get(v, n, i))
  }

  lemma Within(i: nat, n: nat)
    requires i < COUNT
    ensures Offset(n, i) + n <= Offset(n, COUNT)
  {
    Apart(i, COUNT, n);
  }

  lemma {:induction false} Apart(i: nat, j: nat, n: nat)
    requires i < j
    ensures Offset(n, i) + n <= Offset(n, j)
  {
    if i < j - 1 {
      Apart(i, j - 1, n);
    }
  }

  /** Reading cuts a lane out of the word. */
  lemma GetIsSlice(v: Word, n: nat, i: nat)
    requires Holds(v, n) && i < COUNT
    ensures Offset(n, i) == i * n
    ensures Offset(n, i) + n <= |v| && Get(v, n, i) == v[Offset(n, i)..Offset(n, i) + n]
  {
    OffsetIsProduct(n, i);
    Within(i, n);
  }

  /** Writing replaces a lane and nothing else. */
  lemma WithIsSplice(v: Word, n: nat, i: nat, x: Word)
    requires Holds(v, n) && i < COUNT && |x| == n
    ensures Offset(n, i) + n <= |v| && With(v, n, i, x) == v[..Offset(n, i)] + x + v[Offset(n, i) + n..]
  {
    Within(i, n);
  }

  /** A lane reads what was written to it, and a write touches no other lane. */
  lemma GetOfWith(v: Word, n: nat, i: nat, x: Word, j: nat)
    requires Holds(v, n) && i < COUNT && j < COUNT && |x| == n
    ensures Get(With(v, n, i, x), n, j) == if j == i then x else Get(v, n, j)
  {
    WithIsSplice(v, n, i, x);
    GetIsSlice(v, n, j);
    GetIsSlice(With(v, n, i, x), n, j);
    if i < j {
      Apart(i, j, n);
    } else if j < i {
      Apart(j, i, n);
    }
  }

  lemma LanesOfWith(v: Word, n: nat, i: nat, x: Word)
    requires Holds(v, n) && i < COUNT && |x| == n
    ensures Lanes(With(v, n, i, x), n) == Lanes(v, n)[i := x]
  {
    forall j: nat | j < COUNT ensures Get(With(v, n, i, x), n, j) == if j == i then x else Get(v, n, j) {
      GetOfWith(v, n, i, x, j);
    }
  }

  /** The lanes are all there is to a word. */
  lemma SameLanes(v: Word, u: Word, n: nat)
    requires Holds(v, n) && Holds(u, n)
    ensures v == u <==> Lanes(v, n) == Lanes(u, n)
  {
    if Lanes(v, n) == Lanes(u, n) {
      SamePrefix(v, u, n, COUNT);
      assert v[..Offset(n, COUNT)] == v && u[..Offset(n, COUNT)] == u;
    }
  }

  lemma {:induction false} SamePrefix(v: Word, u: Word, n: nat, k: nat)
    requires Holds(v, n) && Holds(u, n) && Lanes(v, n) == Lanes(u, n) && k <= COUNT
    ensures Offset(n, k) <= |v| && v[..Offset(n, k)] == u[..Offset(n, k)]
  {
    if k > 0 {
      SamePrefix(v, u, n, k - 1);
      GetIsSlice(v, n, k - 1);
      GetIsSlice(u, n, k - 1);
      assert Lanes(v, n)[k - 1] == Lanes(u, n)[k - 1];
      NextPrefix(v, n, k);
      NextPrefix(u, n, k);
    }
  }

  lemma NextPrefix(v: Word, n: nat, k: nat)
    requires Holds(v, n) && 0 < k <= COUNT
    ensures Offset(n, k) == Offset(n, k - 1) + n <= |v|
    ensures v[..Offset(n, k)] == v[..Offset(n, k - 1)] + v[Offset(n, k - 1)..Offset(n, k - 1) + n]
  {
    Within(k - 1, n);
  }

  // ---- Any sequence of writes

  datatype Write = Write(index: nat, value: Word)

  ghost predicate Fit(ws: seq<Write>, n: nat) {
    forall k :: 0 <= k < |ws| ==> ws[k].index < COUNT && |ws[k].value| == n
  }

  function Written(v: Word, n: nat, ws: seq<Write>): (r: Word)
    ensures |r| == |v|
    decreases |ws|
  {
    if ws == [] then v else With(Written(v, n, ws[..|ws| - 1]), n, ws[|ws| - 1].index, ws[|ws| - 1].value)
  }

  function WrittenArray(a: seq<Word>, ws: seq<Write>): (r: seq<Word>)
    requires forall k :: 0 <= k < |ws| ==> ws[k].index < |a|
    ensures |r| == |a|
    decreases |ws|
  {
    if ws == [] then a else WrittenArray(a, ws[..|ws| - 1])[ws[|ws| - 1].index := ws[|ws| - 1].value]
  }

  /** After any writes a word reads like an array of eight elements that took the same writes. */
  lemma {:induction false} LikeAnArray(v: Word, n: nat, ws: seq<Write>)
    requires Holds(v, n) && Fit(ws, n)
    ensures Lanes(Written(v, n, ws), n) == WrittenArray(Lanes(v, n), ws)
    decreases |ws|
  {
    if ws != [] {
      LikeAnArray(v, n, ws[..|ws| - 1]);
      LanesOfWith(Written(v, n, ws[..|ws| - 1]), n, ws[|ws| - 1].index, ws[|ws| - 1].value);
    }
  }

  /** So two ways of writing give the same word exactly when they give the same array. */
  lemma SameWrites(v: Word, n: nat, ws: seq<Write>, ws': seq<Write>)
    requires Holds(v, n) && Fit(ws, n) && Fit(ws', n)
    ensures Written(v, n, ws) == Written(v, n, ws') <==> WrittenArray(Lanes(v, n), ws) == WrittenArray(Lanes(v, n), ws')
  {
    LikeAnArray(v, n, ws);
    LikeAnArray(v, n, ws');
    SameLanes(Written(v, n, ws), Written(v, n, ws'), n);
  }
}
