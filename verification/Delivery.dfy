/**
 * When the reassembler hands a message out, over whole runs with any other traffic in between: exactly when the
 * fragments taken since an entry was opened complete it before the entry is dropped for its age.
 */
module Delivery {
  import opened Words
  import opened Options
  import opened Packet
  import opened Fragmentation
  import opened MapSums
  import opened Reassembly

  // ---- What a run takes in under one key

  ghost predicate At(r: Run, n: nat) { Shaped(r) && n < |r.ops| }

  /** Operation `n` is a fragment for `key`, and it is not refused. */
  ghost predicate TakenAt(r: Run, key: Key, n: nat)
    requires At(r, n)
  {
    Taken(r.tables[n], r.ops[n], key)
  }

  ghost predicate Taken(t: Table, op: Op, key: Key) {
    op.AcceptOp? && op.a.key == key && Refusal(Pruned(t, op.pruneAt), op.a, op.held) == None
  }

  /** Operation `n` takes a fragment for `key` when there is neither an entry nor a completion to add it to. */
  ghost predicate OpensAt(r: Run, key: Key, n: nat)
    requires At(r, n)
  {
    TakenAt(r, key, n) && Absent(Pruned(r.tables[n], r.ops[n].pruneAt), key)
  }

  ghost predicate Absent(t: Table, key: Key) { key !in t.inflight && key !in t.completed }

  /** The parts taken by operations `a` to `b`: for each index the one that came first. */
  ghost function Parts(r: Run, key: Key, a: nat, b: nat): map<u16, Bytes>
    requires Shaped(r) && a <= b <= |r.ops|
  {
    if a == b then map[]
    else
      var before := Parts(r, key, a, b - 1);
      if TakenAt(r, key, b - 1) then WithPart(before, r.ops[b - 1].a) else before
  }

  ghost function WithPart(parts: map<u16, Bytes>, a: Arrival): map<u16, Bytes> {
    if a.idx in parts then parts else parts[a.idx := a.payload]
  }

  ghost predicate Full(parts: map<u16, Bytes>, cnt: u16) { forall i: u16 :: i < cnt ==> i in parts }

  /** No operation between `f` and `n` prunes more than 30 s after operation `f`. */
  ghost predicate InTime(r: Run, f: nat, n: nat)
    requires f < n <= |r.ops| && r.ops[f].AcceptOp?
  {
    forall k :: f < k < n ==> r.ops[k].pruneAt <= r.ops[f].now + REASSEMBLY_TTL
  }

  /** Operation `f` opens an entry which operation `j` completes, before it is dropped. */
  ghost predicate Gathers(r: Run, key: Key, f: nat, j: nat)
    requires At(r, j)
  {
    && f <= j && OpensAt(r, key, f) && TakenAt(r, key, j) && InTime(r, f, j + 1)
    && !Full(Parts(r, key, f, j), r.ops[f].a.cnt) && Full(Parts(r, key, f, j + 1), r.ops[f].a.cnt)
  }

  // ---- One operation

  ghost predicate Entry(t: Table, key: Key, m: Assembly) { key in t.inflight && t.inflight[key] == m && key !in t.completed }

  /** An operation that takes nothing under a key leaves its entry alone, but for pruning. */
  lemma NotTaken(t: Table, op: Op, key: Key)
    requires !Taken(t, op, key)
    ensures var p, t' := Pruned(t, op.pruneAt), Next(t, op);
      && (key in t'.inflight <==> key in p.inflight) && (key in p.inflight ==> t'.inflight[key] == p.inflight[key])
      && (key in t'.completed <==> key in p.completed)
    ensures op.AcceptOp? && op.a.key == key ==> Output(t, op) == None
  {
  }

  /** A fragment added to an entry that is not too old. */
  lemma AddsPart(t: Table, op: Op, key: Key, m: Assembly)
    requires Entry(t, key, m) && Taken(t, op, key)
    requires m.createdAt <= op.pruneAt <= m.createdAt + REASSEMBLY_TTL && !Full(m.parts, m.fragCnt)
    ensures var parts := WithPart(m.parts, op.a);
      if Full(parts, m.fragCnt) then Output(t, op) == Some(Joined(parts, m.fragCnt)) && key !in Next(t, op).inflight
      else Output(t, op) == None && Entry(Next(t, op), key, m.(parts := parts))
  {
    var p := Pruned(t, op.pruneAt);
    assert Entry(p, key, m);
    if op.a.idx !in m.parts {
      assert Extended(p, op.a, op.now) == m.(parts := WithPart(m.parts, op.a));
    }
  }

  /** The first fragment of an entry. */
  lemma OpensEntry(t: Table, op: Op, key: Key)
    requires Taken(t, op, key) && Absent(Pruned(t, op.pruneAt), key)
    ensures op.a.cnt > 0
    ensures var parts := WithPart(map[], op.a);
      if Full(parts, op.a.cnt) then Output(t, op) == Some(Joined(parts, op.a.cnt)) && key !in Next(t, op).inflight
      else Output(t, op) == None && Entry(Next(t, op), key, Assembly(op.now, op.a.cnt, parts))
  {
    assert Extended(Pruned(t, op.pruneAt), op.a, op.now) == Assembly(op.now, op.a.cnt, WithPart(map[], op.a));
  }

  /** An entry that is too old is dropped, and one that is not is kept, whatever else the operation does. */
  lemma KeptIfYoung(t: Table, pruneAt: nat, key: Key, m: Assembly)
    requires Entry(t, key, m) && m.createdAt <= pruneAt
    ensures if pruneAt <= m.createdAt + REASSEMBLY_TTL then Entry(Pruned(t, pruneAt), key, m) else Absent(Pruned(t, pruneAt), key)
  {
  }

  // ---- Whole runs

  lemma {:induction false} ClockMonotone(r: Run, t0: nat, f: nat, n: nat)
    requires IsRun(r, t0) && f < n < |r.ops|
    ensures End(r.ops[f]) <= r.ops[n].pruneAt
  {
    assert ClockAt(r, t0, n);
    if f < n - 1 {
      ClockMonotone(r, t0, f, n - 1);
      assert ClockAt(r, t0, n - 1);
    }
  }

  /** Until it is full or too old, an entry holds the parts taken since it was opened. */
  lemma {:induction false} HoldsParts(r: Run, t0: nat, key: Key, f: nat, n: nat)
    requires IsRun(r, t0) && f < n <= |r.ops| && OpensAt(r, key, f) && InTime(r, f, n)
    requires !Full(Parts(r, key, f, n), r.ops[f].a.cnt)
    ensures Entry(r.tables[n], key, Assembly(r.ops[f].now, r.ops[f].a.cnt, Parts(r, key, f, n)))
  {
    var op, t := r.ops[n - 1], r.tables[n - 1];
    assert NextAt(r, n - 1);
    if n - 1 == f {
      OpensEntry(t, op, key);
      assert Parts(r, key, f, f) == map[];
    } else {
      HoldsParts(r, t0, key, f, n - 1);
      ClockMonotone(r, t0, f, n - 1);
      HoldsOneMore(t, op, key, Assembly(r.ops[f].now, r.ops[f].a.cnt, Parts(r, key, f, n - 1)));
    }
  }

  lemma HoldsOneMore(t: Table, op: Op, key: Key, m: Assembly)
    requires Entry(t, key, m) && m.createdAt <= op.pruneAt <= m.createdAt + REASSEMBLY_TTL && !Full(m.parts, m.fragCnt)
    ensures var parts := if Taken(t, op, key) then WithPart(m.parts, op.a) else m.parts;
      !Full(parts, m.fragCnt) ==> Entry(Next(t, op), key, m.(parts := parts))
  {
    if Taken(t, op, key) {
      AddsPart(t, op, key, m);
    } else {
      KeptIfYoung(t, op.pruneAt, key, m);
      NotTaken(t, op, key);
    }
  }

  /** What an entry in progress owes its existence to. */
  ghost predicate Origin(r: Run, key: Key, f: nat, n: nat)
    requires Shaped(r) && n <= |r.ops|
  {
    f < n && OpensAt(r, key, f) && InTime(r, f, n) && !Full(Parts(r, key, f, n), r.ops[f].a.cnt)
  }

  /** An entry that survives one more pruning is one that has been in time up to there. */
  lemma StillInTime(r: Run, t0: nat, key: Key, f: nat, n: nat)
    requires IsRun(r, t0) && n < |r.ops| && Origin(r, key, f, n) && key in Pruned(r.tables[n], r.ops[n].pruneAt).inflight
    ensures InTime(r, f, n + 1) && r.ops[f].now <= r.ops[n].pruneAt <= r.ops[f].now + REASSEMBLY_TTL
    ensures Entry(r.tables[n], key, Assembly(r.ops[f].now, r.ops[f].a.cnt, Parts(r, key, f, n)))
  {
    HoldsParts(r, t0, key, f, n);
    ClockMonotone(r, t0, f, n);
    KeptIfYoung(r.tables[n], r.ops[n].pruneAt, key, r.tables[n].inflight[key]);
    InTimeMore(r, f, n);
  }

  lemma InTimeMore(r: Run, f: nat, n: nat)
    requires f < n < |r.ops| && r.ops[f].AcceptOp? && InTime(r, f, n) && r.ops[n].pruneAt <= r.ops[f].now + REASSEMBLY_TTL
    ensures InTime(r, f, n + 1)
  {
  }

  lemma OpeningIsOrigin(r: Run, t0: nat, key: Key, n: nat)
    requires IsRun(r, t0) && n < |r.ops| && OpensAt(r, key, n) && key in r.tables[n + 1].inflight
    ensures Origin(r, key, n, n + 1)
  {
    assert NextAt(r, n);
    OpensEntry(r.tables[n], r.ops[n], key);
    assert Parts(r, key, n, n) == map[];
  }

  lemma OriginGoesOn(r: Run, t0: nat, key: Key, f: nat, n: nat)
    requires IsRun(r, t0) && n < |r.ops| && Origin(r, key, f, n)
    requires key in Pruned(r.tables[n], r.ops[n].pruneAt).inflight && key in r.tables[n + 1].inflight
    ensures Origin(r, key, f, n + 1)
  {
    StillInTime(r, t0, key, f, n);
    assert NextAt(r, n);
    if TakenAt(r, key, n) {
      AddsPart(r.tables[n], r.ops[n], key, r.tables[n].inflight[key]);
    }
  }

  /** Every entry was opened by some operation and has been in time and incomplete since. */
  lemma {:induction false} EveryEntryHasAnOrigin(r: Run, t0: nat, key: Key, n: nat) returns (f: nat)
    requires IsRun(r, t0) && n <= |r.ops| && key !in r.tables[0].inflight && key in r.tables[n].inflight
    ensures Origin(r, key, f, n)
  {
    var k: nat := n - 1;
    if OpensAt(r, key, k) {
      OpeningIsOrigin(r, t0, key, k);
      return k;
    }
    WasThere(r, t0, key, k);
    f := EveryEntryHasAnOrigin(r, t0, key, k);
    OriginGoesOn(r, t0, key, f, k);
  }

  lemma WasThere(r: Run, t0: nat, key: Key, n: nat)
    requires IsRun(r, t0) && n < |r.ops| && key in r.tables[n + 1].inflight && !OpensAt(r, key, n)
    ensures key in Pruned(r.tables[n], r.ops[n].pruneAt).inflight && key in r.tables[n].inflight
  {
    assert NextAt(r, n);
    StillThere(r.tables[n], r.ops[n], key);
  }

  /** An entry there after an operation that did not open it was there before, and young. */
  lemma StillThere(t: Table, op: Op, key: Key)
    requires key in Next(t, op).inflight && !(Taken(t, op, key) && Absent(Pruned(t, op.pruneAt), key))
    ensures key in Pruned(t, op.pruneAt).inflight && key in t.inflight
  {
    if !Taken(t, op, key) {
      NotTaken(t, op, key);
    }
  }

  /**
   * Exactly when a message is handed out, in every run: when an entry was opened, no operation since has pruned
   * more than 30 s after that, and this fragment is the one that completes it. It is the parts taken, put together.
   */
  lemma DeliveredExactlyWhen(r: Run, t0: nat, key: Key, j: nat)
    requires IsRun(r, t0) && j < |r.ops| && key !in r.tables[0].inflight
    requires r.ops[j].AcceptOp? && r.ops[j].a.key == key
    ensures r.outs[j].Some? <==> exists f: nat :: Gathers(r, key, f, j)
    ensures forall f: nat :: Gathers(r, key, f, j) ==> r.outs[j] == Some(Joined(Parts(r, key, f, j + 1), r.ops[f].a.cnt))
  {
    forall f: nat | Gathers(r, key, f, j) ensures r.outs[j] == Some(Joined(Parts(r, key, f, j + 1), r.ops[f].a.cnt)) {
      GatheredIsDelivered(r, t0, key, f, j);
    }
    if r.outs[j].Some? {
      var f := DeliveredWasGathered(r, t0, key, j);
    }
  }

  lemma GatheredIsDelivered(r: Run, t0: nat, key: Key, f: nat, j: nat)
    requires IsRun(r, t0) && j < |r.ops| && Gathers(r, key, f, j)
    ensures r.outs[j] == Some(Joined(Parts(r, key, f, j + 1), r.ops[f].a.cnt))
  {
    assert OutAt(r, j);
    if f == j {
      OpensEntry(r.tables[j], r.ops[j], key);
      assert Parts(r, key, f, f) == map[];
    } else {
      HoldsParts(r, t0, key, f, j);
      ClockMonotone(r, t0, f, j);
      AddsPart(r.tables[j], r.ops[j], key, r.tables[j].inflight[key]);
    }
  }

  lemma OutputMeans(t: Table, op: Op, key: Key)
    requires op.AcceptOp? && op.a.key == key && Output(t, op).Some?
    ensures Taken(t, op, key) && (Absent(Pruned(t, op.pruneAt), key) || (key in Pruned(t, op.pruneAt).inflight && key in t.inflight))
  {
    if !Taken(t, op, key) {
      NotTaken(t, op, key);
    }
  }

  lemma DeliveredWasGathered(r: Run, t0: nat, key: Key, j: nat) returns (f: nat)
    requires IsRun(r, t0) && j < |r.ops| && key !in r.tables[0].inflight
    requires r.ops[j].AcceptOp? && r.ops[j].a.key == key && r.outs[j].Some?
    ensures Gathers(r, key, f, j)
  {
    assert OutAt(r, j);
    OutputMeans(r.tables[j], r.ops[j], key);
    if OpensAt(r, key, j) {
      OpensEntry(r.tables[j], r.ops[j], key);
      assert Parts(r, key, j, j) == map[];
      return j;
    }
    f := EveryEntryHasAnOrigin(r, t0, key, j);
    StillInTime(r, t0, key, f, j);
    AddsPart(r.tables[j], r.ops[j], key, r.tables[j].inflight[key]);
  }

  /** Once an entry is dropped for its age the fragments it held count no more: a delivery starts over. */
  lemma ExpiryStartsOver(r: Run, t0: nat, key: Key, f: nat, n: nat, j: nat) returns (f': nat)
    requires IsRun(r, t0) && f < n <= j < |r.ops| && key !in r.tables[0].inflight
    requires Origin(r, key, f, n) && r.ops[n].pruneAt > r.ops[f].now + REASSEMBLY_TTL
    requires r.ops[j].AcceptOp? && r.ops[j].a.key == key && r.outs[j].Some?
    ensures n <= f' && Gathers(r, key, f', j)
  {
    f' := DeliveredWasGathered(r, t0, key, j);
    if f' < f {
      EntryBlocksOpening(r, t0, key, f', f, j);
    } else if f < f' < n {
      EntryBlocksOpening(r, t0, key, f, f', n);
    }
  }

  /** While one entry gathers no other is opened. */
  lemma EntryBlocksOpening(r: Run, t0: nat, key: Key, f: nat, n: nat, b: nat)
    requires IsRun(r, t0) && f < n < |r.ops| && n <= b <= |r.ops| && OpensAt(r, key, f)
    requires InTime(r, f, n + 1) && !Full(Parts(r, key, f, b), r.ops[f].a.cnt)
    ensures !OpensAt(r, key, n)
  {
    PartsGrow(r, key, f, n, b);
    HoldsParts(r, t0, key, f, n);
    ClockMonotone(r, t0, f, n);
    KeptIfYoung(r.tables[n], r.ops[n].pruneAt, key, r.tables[n].inflight[key]);
  }

  lemma {:induction false} PartsGrow(r: Run, key: Key, a: nat, b: nat, c: nat)
    requires Shaped(r) && a <= b <= c <= |r.ops|
    ensures forall i :: i in Parts(r, key, a, b) ==> i in Parts(r, key, a, c)
  {
    if b < c {
      PartsGrow(r, key, a, b, c - 1);
    }
  }

  // ---- The message is the payload

  ghost predicate IsFragment(a: Arrival, payload: Bytes) {
    a.cnt == FragCount(|payload|) && a.idx < a.cnt && a.payload == Fragment(payload, a.idx)
  }

  /** Whatever is taken under the key by operations `a` to `b` is a fragment of one payload. */
  ghost predicate FragmentsOnly(r: Run, key: Key, payload: Bytes, a: nat, b: nat)
    requires Shaped(r) && b <= |r.ops|
  {
    forall n :: a <= n < b && TakenAt(r, key, n) ==> IsFragment(r.ops[n].a, payload)
  }

  lemma {:induction false} PartsAreFragments(r: Run, key: Key, payload: Bytes, a: nat, b: nat)
    requires Shaped(r) && a <= b <= |r.ops| && FragmentsOnly(r, key, payload, a, b)
    ensures PartsOf(Parts(r, key, a, b), payload)
  {
    if a < b {
      PartsAreFragments(r, key, payload, a, b - 1);
    }
  }

  /** An entry that gathers fragments of one payload hands that payload out, whatever their order and repetitions. */
  lemma DeliversThePayload(r: Run, t0: nat, key: Key, payload: Bytes, f: nat, j: nat)
    requires IsRun(r, t0) && j < |r.ops| && Gathers(r, key, f, j) && FragmentsOnly(r, key, payload, f, j + 1)
    ensures r.outs[j] == Some(payload)
  {
    GatheredIsDelivered(r, t0, key, f, j);
    PartsAreFragments(r, key, payload, f, j + 1);
    FragmentsTile(Parts(r, key, f, j + 1), r.ops[f].a.cnt, payload);
  }

  // ---- Delivery does happen

  /** The indices that come in under a key with operations `a` to `b`. */
  ghost function Arrived(ops: seq<Op>, key: Key, a: nat, b: nat): set<u16>
    requires a <= b <= |ops|
  {
    if a == b then {}
    else if IsFor(ops[b - 1], key) then Arrived(ops, key, a, b - 1) + {ops[b - 1].a.idx}
    else Arrived(ops, key, a, b - 1)
  }

  ghost predicate IsFor(op: Op, key: Key) { op.AcceptOp? && op.a.key == key }

  ghost predicate Covers(got: set<u16>, payload: Bytes) { forall i: u16 :: i < FragCount(|payload|) ==> i in got }

  /** Every fragment that comes in under the key with operations `a` to `b` is one of this payload. */
  ghost predicate SentOnly(r: Run, key: Key, payload: Bytes, a: nat, b: nat)
    requires Shaped(r) && b <= |r.ops|
  {
    forall n :: a <= n < b && IsFor(r.ops[n], key) ==> IsFragment(r.ops[n].a, payload)
  }

  /** What else is in flight leaves room for the message: fewer than 128 others, 32 of its address, and a fragment's bytes. */
  ghost predicate LeavesRoom(t: Table, key: Key) {
    && |t.inflight.Keys - {key}| < MAX_INFLIGHT_MESSAGES
    && |FromIp(t.inflight.Keys - {key}, key.from.ip)| < MAX_MESSAGES_PER_SOURCE
    && Total(t.inflight) + MTU_PAYLOAD <= MAX_INFLIGHT_BYTES
  }

  /** There is room whenever a fragment comes in under the key with operations `a` to `b`. */
  ghost predicate RoomFor(r: Run, key: Key, a: nat, b: nat)
    requires Shaped(r) && b <= |r.ops|
  {
    forall n :: a <= n < b && IsFor(r.ops[n], key) ==> LeavesRoom(Pruned(r.tables[n], r.ops[n].pruneAt), key)
  }

  lemma RoomMeansTaken(t: Table, a: Arrival, payload: Bytes)
    requires LeavesRoom(t, a.key) && Sendable(payload) && IsFragment(a, payload)
    requires a.key in t.inflight ==> t.inflight[a.key].fragCnt == a.cnt
    ensures Refusal(t, a, Total(t.inflight)) == None
  {
    if a.key !in t.inflight {
      assert t.inflight.Keys - {a.key} == t.inflight.Keys;
    }
  }

  /** Every fragment under the key that comes in with operations `a` to `b` is taken. */
  ghost predicate AllTaken(r: Run, key: Key, a: nat, b: nat)
    requires Shaped(r) && b <= |r.ops|
  {
    forall n :: a <= n < b && IsFor(r.ops[n], key) ==> TakenAt(r, key, n)
  }

  lemma WithPartKeys(parts: map<u16, Bytes>, a: Arrival)
    ensures WithPart(parts, a).Keys == parts.Keys + {a.idx}
  {
  }

  lemma {:induction false} PartsHaveArrived(r: Run, key: Key, a: nat, b: nat)
    requires Shaped(r) && a <= b <= |r.ops|
    ensures Parts(r, key, a, b).Keys <= Arrived(r.ops, key, a, b)
    ensures AllTaken(r, key, a, b) ==> Parts(r, key, a, b).Keys == Arrived(r.ops, key, a, b)
  {
    if a < b {
      PartsHaveArrived(r, key, a, b - 1);
      if TakenAt(r, key, b - 1) {
        WithPartKeys(Parts(r, key, a, b - 1), r.ops[b - 1].a);
      }
    }
  }

  lemma {:induction false} ArrivedGrows(ops: seq<Op>, key: Key, a: nat, b: nat, c: nat)
    requires a <= b <= c <= |ops|
    ensures Arrived(ops, key, a, b) <= Arrived(ops, key, a, c)
  {
    if b < c {
      ArrivedGrows(ops, key, a, b, c - 1);
    }
  }

  /** While a message with room is gathered, each of its fragments is taken. */
  lemma TakenWhileGathering(r: Run, t0: nat, key: Key, payload: Bytes, f: nat, n: nat)
    requires IsRun(r, t0) && Sendable(payload) && f <= n < |r.ops| && IsFor(r.ops[f], key) && IsFor(r.ops[n], key)
    requires IsFragment(r.ops[f].a, payload) && IsFragment(r.ops[n].a, payload)
    requires LeavesRoom(Pruned(r.tables[n], r.ops[n].pruneAt), key)
    requires if n == f then Absent(Pruned(r.tables[f], r.ops[f].pruneAt), key)
             else OpensAt(r, key, f) && InTime(r, f, n + 1) && !Full(Parts(r, key, f, n), r.ops[f].a.cnt)
    ensures TakenAt(r, key, n)
  {
    assert ExactAt(r, n);
    if f < n {
      HoldsParts(r, t0, key, f, n);
      ClockMonotone(r, t0, f, n);
      KeptIfYoung(r.tables[n], r.ops[n].pruneAt, key, r.tables[n].inflight[key]);
    }
    RoomMeansTaken(Pruned(r.tables[n], r.ops[n].pruneAt), r.ops[n].a, payload);
  }

  lemma AllAreTaken(r: Run, t0: nat, key: Key, payload: Bytes, f: nat, j: nat)
    requires IsRun(r, t0) && Sendable(payload) && f <= j < |r.ops| && IsFor(r.ops[f], key)
    requires Absent(Pruned(r.tables[f], r.ops[f].pruneAt), key)
    requires SentOnly(r, key, payload, f, j + 1) && RoomFor(r, key, f, j + 1) && InTime(r, f, j + 1)
    requires !Covers(Arrived(r.ops, key, f, j), payload)
    ensures OpensAt(r, key, f) && AllTaken(r, key, f, j + 1)
  {
    TakenWhileGathering(r, t0, key, payload, f, f);
    forall n: nat | f < n <= j && IsFor(r.ops[n], key) ensures TakenAt(r, key, n) {
      PartsHaveArrived(r, key, f, n);
      ArrivedGrows(r.ops, key, f, n, j);
      TakenWhileGathering(r, t0, key, payload, f, n);
    }
  }

  lemma TakenAreFragments(r: Run, key: Key, payload: Bytes, a: nat, b: nat)
    requires Shaped(r) && b <= |r.ops| && SentOnly(r, key, payload, a, b)
    ensures FragmentsOnly(r, key, payload, a, b)
  {
    forall n | a <= n < b && TakenAt(r, key, n) ensures IsFragment(r.ops[n].a, payload) {
      assert IsFor(r.ops[n], key);
    }
  }

  /**
   * Delivery does happen, among any other traffic that leaves room: fragment `f` being the first of a message, the
   * message is handed out by exactly the arrival that completes its indices, whatever their order and repetitions, as
   * long as no more than 30 s have passed since the first.
   */
  lemma DeliveredAmongOthers(r: Run, t0: nat, key: Key, payload: Bytes, f: nat, j: nat)
    requires IsRun(r, t0) && Sendable(payload) && f <= j < |r.ops| && IsFor(r.ops[f], key) && IsFor(r.ops[j], key)
    requires Absent(Pruned(r.tables[f], r.ops[f].pruneAt), key)
    requires SentOnly(r, key, payload, f, j + 1) && RoomFor(r, key, f, j + 1) && InTime(r, f, j + 1)
    requires !Covers(Arrived(r.ops, key, f, j), payload)
    ensures r.outs[j] == if Covers(Arrived(r.ops, key, f, j + 1), payload) then Some(payload) else None
  {
    AllAreTaken(r, t0, key, payload, f, j);
    PartsHaveArrived(r, key, f, j);
    PartsHaveArrived(r, key, f, j + 1);
    if Covers(Arrived(r.ops, key, f, j + 1), payload) {
      assert Gathers(r, key, f, j);
      TakenAreFragments(r, key, payload, f, j + 1);
      DeliversThePayload(r, t0, key, payload, f, j);
    } else {
      NotYetFull(r, t0, key, f, j);
    }
  }

  lemma NotYetFull(r: Run, t0: nat, key: Key, f: nat, j: nat)
    requires IsRun(r, t0) && f <= j < |r.ops| && OpensAt(r, key, f) && TakenAt(r, key, j) && InTime(r, f, j + 1)
    requires !Full(Parts(r, key, f, j + 1), r.ops[f].a.cnt)
    ensures r.outs[j] == None
  {
    assert OutAt(r, j);
    if f == j {
      OpensEntry(r.tables[j], r.ops[j], key);
      assert Parts(r, key, f, f) == map[];
    } else {
      PartsGrow(r, key, f, j, j + 1);
      HoldsParts(r, t0, key, f, j);
      ClockMonotone(r, t0, f, j);
      AddsPart(r.tables[j], r.ops[j], key, r.tables[j].inflight[key]);
    }
  }

  // ---- A receiver that hears of one message only

  /** From an empty table on, every fragment is one of this payload under this key. */
  ghost predicate Alone(r: Run, key: Key, payload: Bytes) {
    && Shaped(r) && r.tables[0] == EMPTY
    && forall n :: 0 <= n < |r.ops| && r.ops[n].AcceptOp? ==> r.ops[n].a.key == key && IsFragment(r.ops[n].a, payload)
  }

  ghost predicate OnlyEntry(t: Table, key: Key, cnt: nat) {
    forall k :: k in t.inflight ==> k == key && t.inflight[k].fragCnt == cnt
  }

  lemma {:induction false} OnlyThisEntry(r: Run, t0: nat, key: Key, payload: Bytes, n: nat)
    requires IsRun(r, t0) && Alone(r, key, payload) && n <= |r.ops|
    ensures OnlyEntry(r.tables[n], key, FragCount(|payload|))
  {
    if n > 0 {
      OnlyThisEntry(r, t0, key, payload, n - 1);
      assert NextAt(r, n - 1);
      StaysOnly(r.tables[n - 1], r.ops[n - 1], key, FragCount(|payload|));
    }
  }

  lemma StaysOnly(t: Table, op: Op, key: Key, cnt: nat)
    requires OnlyEntry(t, key, cnt) && (op.AcceptOp? ==> op.a.key == key && op.a.cnt == cnt)
    ensures OnlyEntry(Next(t, op), key, cnt)
  {
  }

  /** One message never comes near the budgets. */
  lemma OneEntryLeavesRoom(t: Table, now: nat, key: Key, cnt: nat)
    requires OnlyEntry(t, key, cnt) && ShapeInv(t.inflight, now)
    ensures LeavesRoom(t, key)
  {
    assert t.inflight.Keys - {key} == {} && FromIp({}, key.from.ip) == {};
    if key in t.inflight {
      var parts := t.inflight[key].parts;
      SumBound(parts, PartLen, MTU_PAYLOAD);
      SumRemove(t.inflight, AssemblyBytes, key);
      assert t.inflight - {key} == map[];
      assert |parts| * MTU_PAYLOAD <= MAX_FRAGMENTS_PER_MESSAGE * MTU_PAYLOAD;
    } else {
      assert t.inflight == map[];
    }
  }

  lemma OneEntryRefusesNothing(t: Table, now: nat, a: Arrival, payload: Bytes)
    requires OnlyEntry(t, a.key, FragCount(|payload|)) && ShapeInv(t.inflight, now)
    requires Sendable(payload) && IsFragment(a, payload)
    ensures Refusal(t, a, Total(t.inflight)) == None
  {
    OneEntryLeavesRoom(t, now, a.key, FragCount(|payload|));
    RoomMeansTaken(t, a, payload);
  }

  lemma AloneLeavesRoom(r: Run, t0: nat, key: Key, payload: Bytes, n: nat)
    requires IsRun(r, t0) && Alone(r, key, payload) && n < |r.ops|
    ensures LeavesRoom(Pruned(r.tables[n], r.ops[n].pruneAt), key)
  {
    var op := r.ops[n];
    OnlyThisEntry(r, t0, key, payload, n);
    ReachableInv(r, t0, n);
    assert ClockAt(r, t0, n);
    PrunedKeepsInv(r.tables[n], Before(r, t0, n), op.pruneAt);
    OneEntryLeavesRoom(Pruned(r.tables[n], op.pruneAt), op.pruneAt, key, FragCount(|payload|));
  }

  /** The first fragment of all opens an entry. */
  lemma {:induction false} NothingYet(r: Run, t0: nat, n: nat)
    requires IsRun(r, t0) && r.tables[0] == EMPTY && n <= |r.ops| && forall k :: 0 <= k < n ==> r.ops[k].PruneOp?
    ensures r.tables[n] == EMPTY
  {
    if n > 0 {
      NothingYet(r, t0, n - 1);
      assert NextAt(r, n - 1);
    }
  }

  /** At a receiver that hears of one message only there is always room. */
  lemma DeliveredByLastMissingFragment(r: Run, t0: nat, key: Key, payload: Bytes, f: nat, j: nat)
    requires IsRun(r, t0) && Alone(r, key, payload) && Sendable(payload) && f <= j < |r.ops|
    requires r.ops[f].AcceptOp? && r.ops[j].AcceptOp? && (forall k :: 0 <= k < f ==> r.ops[k].PruneOp?)
    requires InTime(r, f, j + 1) && !Covers(Arrived(r.ops, key, f, j), payload)
    ensures r.outs[j] == if Covers(Arrived(r.ops, key, f, j + 1), payload) then Some(payload) else None
  {
    NothingYet(r, t0, f);
    forall n: nat | f <= n <= j ensures LeavesRoom(Pruned(r.tables[n], r.ops[n].pruneAt), key) {
      AloneLeavesRoom(r, t0, key, payload, n);
    }
    DeliveredAmongOthers(r, t0, key, payload, f, j);
  }
}
