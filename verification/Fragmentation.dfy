/** How a sender cuts a payload into fragments, and how fragments are put together again. */
module Fragmentation {
  import opened Words
  import opened Packet

  const MAX_PAYLOAD: nat := 1146  // MTU_PAYLOAD - HEADER_LEN

  function Min(a: nat, b: nat): nat { if a < b then a else b }

  function FragCount(n: nat): (c: nat)
    ensures c >= 1
  {
    var c := (n + MAX_PAYLOAD - 1) / MAX_PAYLOAD;
    if c < 1 then 1 else c
  }

  function Fragment(payload: Bytes, idx: nat): (f: Bytes)
    requires idx < FragCount(|payload|)
    ensures HEADER_LEN + |f| <= MTU_PAYLOAD
  {
    payload[idx * MAX_PAYLOAD..Min((idx + 1) * MAX_PAYLOAD, |payload|)]
  }

  /**
   * As few fragments as packets of 1200 bytes allow, and at least one: all but the last carry 1146 bytes, and the last the
   * rest, which is empty only if the payload is.
   */
  lemma FragmentSizes(payload: Bytes, idx: nat)
    requires idx < FragCount(|payload|)
    ensures var c := FragCount(|payload|);
      && |payload| <= 1146 * c && (c == 1 || 1146 * (c - 1) < |payload|)
      && |Fragment(payload, idx)| == if idx < c - 1 then 1146 else |payload| - 1146 * (c - 1)
  {
  }

  /** A payload the sender does not refuse with "too many fragments". */
  predicate Sendable(payload: Bytes) { FragCount(|payload|) <= MAX_FRAGMENTS_PER_MESSAGE }

  /** The parts numbered below `n`, in order. */
  function Joined(parts: map<u16, Bytes>, n: u16): (out: Bytes)
    requires forall i: u16 :: i < n ==> i in parts
  {
    if n == 0 then [] else Joined(parts, n - 1) + parts[n - 1]
  }

  /** The parts held are fragments of `payload`, each under its own index. */
  ghost predicate PartsOf(parts: map<u16, Bytes>, payload: Bytes) {
    forall i: u16 :: i in parts ==> i < FragCount(|payload|) && parts[i] == Fragment(payload, i)
  }

  lemma {:induction false} JoinedPrefix(parts: map<u16, Bytes>, n: u16, payload: Bytes)
    requires n <= FragCount(|payload|)
    requires forall i: u16 :: i < n ==> i in parts
    requires PartsOf(parts, payload)
    ensures Joined(parts, n) == payload[..Min(n * MAX_PAYLOAD, |payload|)]
  {
    if n > 0 {
      JoinedPrefix(parts, n - 1, payload);
      var lo, hi := (n - 1) * MAX_PAYLOAD, Min(n * MAX_PAYLOAD, |payload|);
      assert lo <= hi && Min(lo, |payload|) == lo;
      assert parts[n - 1] == payload[lo..hi];
      assert payload[..lo] + payload[lo..hi] == payload[..hi];
    }
  }

  /** The slices tile the payload: all fragments in index order give it back, for every length including 0. */
  lemma FragmentsTile(parts: map<u16, Bytes>, n: u16, payload: Bytes)
    requires n == FragCount(|payload|)
    requires forall i: u16 :: i < n ==> i in parts
    requires PartsOf(parts, payload)
    ensures Joined(parts, n) == payload
  {
    JoinedPrefix(parts, n, payload);
  }

  /** For a sendable payload the u16 casts of index and count lose nothing. */
  lemma SendableFitsWords(payload: Bytes, idx: nat)
    requires Sendable(payload) && idx < FragCount(|payload|)
    ensures FromBe(Be(idx, 2)) == idx && FromBe(Be(FragCount(|payload|), 2)) == FragCount(|payload|)
  {
    Pow256Values();
    FromBeOfBe(idx, 2);
    FromBeOfBe(FragCount(|payload|), 2);
  }
}
