/**
 * What the fragment reassembler keeps and answers, stated without its running byte counter, its saturating
 * arithmetic and its defensive error branches. `ReassemblyState` below is the stateful form.
 * Times are readings of one nondecreasing clock, in nanoseconds.
 */
module Reassembly {
  import opened Words
  import opened Options
  import opened Net
  import opened Packet
  import opened Fragmentation
  import opened MapSums

  const SECOND: nat := 1_000_000_000
  const REASSEMBLY_TTL: nat := 30 * SECOND
  const COMPLETED_TTL: nat := REPLAY_WINDOW_SECS * SECOND
  const MAX_INFLIGHT_MESSAGES: nat := 128
  const MAX_INFLIGHT_BYTES: nat := 8 * 1024 * 1024
  const MAX_MESSAGES_PER_SOURCE: nat := 32
  const MAX_MESSAGE_SIZE: nat := 10 * 1024 * 1024

  datatype Key = Key(from: SocketAddr, msgId: u32)

  datatype Assembly = Assembly(createdAt: nat, fragCnt: u16, parts: map<u16, Bytes>)

  datatype Table = Table(inflight: map<Key, Assembly>, completed: map<Key, nat>)

  /** One fragment handed to `accept_fragment`. */
  datatype Arrival = Arrival(key: Key, idx: u16, cnt: u16, payload: Bytes)

  datatype Error =
    | Metadata | TooManyFragments | PayloadTooLarge | InflightLimit | SourceLimit | ByteLimit | CountChanged
    | MaxSize | Disappeared | MissingFragment

  datatype Outcome = Rejected(error: Error) | Accepted(message: Option<Bytes>)

  const EMPTY := Table(map[], map[])

  ghost function PartLen(b: Bytes): nat { |b| }
  ghost function PartBytes(parts: map<u16, Bytes>): nat { MapSum(parts, PartLen) }
  ghost function AssemblyBytes(a: Assembly): nat { PartBytes(a.parts) }
  ghost function Total(m: map<Key, Assembly>): nat { MapSum(m, AssemblyBytes) }

  ghost function FromIp(keys: set<Key>, ip: IpAddr): set<Key> { set k | k in keys && k.from.ip == ip }

  ghost function Pruned(t: Table, now: nat): Table {
    Table(map k | k in t.inflight && SatSub(now, t.inflight[k].createdAt) <= REASSEMBLY_TTL :: t.inflight[k],
          map k | k in t.completed && SatSub(now, t.completed[k]) <= COMPLETED_TTL :: t.completed[k])
  }

  /** Why a fragment is turned away by a table that has just been pruned and holds `held` bytes, if it is. */
  ghost function Refusal(t: Table, a: Arrival, held: nat): Option<Error> {
    if a.cnt == 0 || a.idx >= a.cnt then Some(Metadata)
    else if a.cnt > MAX_FRAGMENTS_PER_MESSAGE then Some(TooManyFragments)
    else if |a.payload| > MTU_PAYLOAD then Some(PayloadTooLarge)
    else if a.key in t.completed then None
    else if a.key !in t.inflight && |t.inflight| >= MAX_INFLIGHT_MESSAGES then Some(InflightLimit)
    else if a.key !in t.inflight && |FromIp(t.inflight.Keys, a.key.from.ip)| >= MAX_MESSAGES_PER_SOURCE then Some(SourceLimit)
    else if a.key in t.inflight && a.idx in t.inflight[a.key].parts then None
    else if held + |a.payload| > MAX_INFLIGHT_BYTES then Some(ByteLimit)
    else if a.key in t.inflight && t.inflight[a.key].fragCnt != a.cnt then Some(CountChanged)
    else None
  }

  /** A completed message or a part already held: acknowledged and otherwise ignored. */
  ghost predicate Duplicate(t: Table, a: Arrival) {
    a.key in t.completed || (a.key in t.inflight && a.idx in t.inflight[a.key].parts)
  }

  /** The assembly an arrival belongs to, with its part added. */
  ghost function Extended(t: Table, a: Arrival, now: nat): Assembly {
    var held := if a.key in t.inflight then t.inflight[a.key] else Assembly(now, a.cnt, map[]);
    held.(parts := held.parts[a.idx := a.payload])
  }

  ghost predicate Complete(m: Assembly) {
    forall i: u16 :: i < m.fragCnt ==> i in m.parts
  }

  /** Storing a part that is neither refused nor a duplicate: the last missing part completes its message. */
  ghost function Store(t: Table, a: Arrival, now: nat): (Table, Option<Bytes>) {
    var m := Extended(t, a, now);
    if Complete(m) then
      (Table(t.inflight - {a.key}, t.completed[a.key := now]), Some(Joined(m.parts, m.fragCnt)))
    else
      (t.(inflight := t.inflight[a.key := m]), None)
  }

  /** `accept_fragment` once the table is pruned; `held` is the byte count the budget is checked against. */
  ghost function Admit(t: Table, a: Arrival, held: nat, now: nat): (Table, Outcome) {
    if Refusal(t, a, held).Some? then (t, Rejected(Refusal(t, a, held).value))
    else if Duplicate(t, a) then (t, Accepted(None))
    else
      var (t', out) := Store(t, a, now);
      (t', Accepted(out))
  }

  /** `accept_fragment` with its two clock readings. `Exact` below says that `held` is the true byte count. */
  ghost function Accept(t: Table, a: Arrival, held: nat, pruneAt: nat, now: nat): (Table, Outcome) {
    Admit(Pruned(t, pruneAt), a, held, now)
  }

  // ---- What a fragment is answered

  /** The messages in flight that are not more than 30 s old, and those of them from one address. */
  ghost function YoungKeys(t: Table, now: nat): set<Key> { set k | k in t.inflight && now <= t.inflight[k].createdAt + 30_000_000_000 }

  ghost function YoungKeysFrom(t: Table, now: nat, ip: IpAddr): set<Key> { set k | k in YoungKeys(t, now) && k.from.ip == ip }

  /** The message was completed not more than 300 s ago, or this part of it is there already. */
  ghost predicate Known(t: Table, now: nat, a: Arrival) {
    || (a.key in t.completed && now <= t.completed[a.key] + 300_000_000_000)
    || (a.key in YoungKeys(t, now) && a.idx in t.inflight[a.key].parts)
  }

  /** There is room: for one more message if this is a new one (128 in all, 32 from one address), and in the 8 MiB. */
  ghost predicate Room(t: Table, now: nat, a: Arrival, held: nat) {
    && (a.key !in YoungKeys(t, now) ==> |YoungKeys(t, now)| < 128 && |YoungKeysFrom(t, now, a.key.from.ip)| < 32)
    && held + |a.payload| <= 8_388_608
  }

  ghost predicate WellFormed(a: Arrival) { a.idx < a.cnt <= 128 && |a.payload| <= 1200 }

  lemma PrunedIsYoung(t: Table, now: nat, ip: IpAddr)
    ensures Pruned(t, now).inflight.Keys == YoungKeys(t, now)
    ensures FromIp(Pruned(t, now).inflight.Keys, ip) == YoungKeysFrom(t, now, ip)
  {
  }

  /**
   * Exactly which fragments are rejected: those that are not well-formed; and of the others those that are not known
   * already and for which there is no room or whose message was announced with another count.
   */
  lemma RejectedIff(t: Table, a: Arrival, held: nat, pruneAt: nat, now: nat)
    ensures Accept(t, a, held, pruneAt, now).1.Rejected? <==>
      || !WellFormed(a)
      || (&& !Known(t, pruneAt, a)
          && (!Room(t, pruneAt, a, held) || (a.key in YoungKeys(t, pruneAt) && t.inflight[a.key].fragCnt != a.cnt)))
    ensures Accept(t, a, held, pruneAt, now).1.Rejected? || Known(t, pruneAt, a) ==> Accept(t, a, held, pruneAt, now).0 == Pruned(t, pruneAt)
    ensures WellFormed(a) && Known(t, pruneAt, a) ==> Accept(t, a, held, pruneAt, now).1 == Accepted(None)
  {
    PrunedIsYoung(t, pruneAt, a.key.from.ip);
  }

  // ---- What every reachable table satisfies

  ghost predicate Partial(m: Assembly) {
    && 0 < |m.parts| < m.fragCnt <= MAX_FRAGMENTS_PER_MESSAGE
    && (forall i: u16 :: i in m.parts ==> i < m.fragCnt && |m.parts[i]| <= MTU_PAYLOAD)
  }

  /** The message budgets depend on the keys in flight only, and shrink with them. */
  ghost predicate CountsInv(keys: set<Key>) {
    && |keys| <= MAX_INFLIGHT_MESSAGES
    && (forall ip :: |FromIp(keys, ip)| <= MAX_MESSAGES_PER_SOURCE)
  }

  ghost predicate ShapeInv(inflight: map<Key, Assembly>, now: nat) {
    forall k :: k in inflight ==> Partial(inflight[k]) && inflight[k].createdAt <= now
  }

  ghost predicate CompletedInv(t: Table, now: nat) {
    && (forall k :: k in t.completed ==> t.completed[k] <= now)
    && t.inflight.Keys !! t.completed.Keys
  }

  /** The byte budget. */
  ghost predicate BytesInv(t: Table) { Total(t.inflight) <= MAX_INFLIGHT_BYTES }

  /** Nothing is dated later than `now`; no key is both in flight and completed; the message budgets hold. */
  ghost predicate Inv(t: Table, now: nat) {
    && CountsInv(t.inflight.Keys)
    && ShapeInv(t.inflight, now)
    && CompletedInv(t, now)
  }

  lemma CountsShrink(big: set<Key>, small: set<Key>)
    requires CountsInv(big) && small <= big
    ensures CountsInv(small)
  {
    SubsetSize(small, big);
    forall ip ensures |FromIp(small, ip)| <= MAX_MESSAGES_PER_SOURCE {
      SubsetSize(FromIp(small, ip), FromIp(big, ip));
    }
  }

  lemma CountsGrow(keys: set<Key>, k: Key)
    requires CountsInv(keys)
    requires |keys| < MAX_INFLIGHT_MESSAGES && |FromIp(keys, k.from.ip)| < MAX_MESSAGES_PER_SOURCE
    ensures CountsInv(keys + {k})
  {
    forall ip ensures |FromIp(keys + {k}, ip)| <= MAX_MESSAGES_PER_SOURCE {
      if k.from.ip == ip {
        assert FromIp(keys + {k}, ip) == FromIp(keys, ip) + {k};
      } else {
        assert FromIp(keys + {k}, ip) == FromIp(keys, ip);
      }
    }
  }

  lemma PrunedBytes(t: Table, now: nat)
    ensures Total(Pruned(t, now).inflight) <= Total(t.inflight)
  {
    var p := Pruned(t, now);
    var gone := t.inflight.Keys - p.inflight.Keys;
    assert p.inflight == t.inflight - gone;
    SumSubmap(t.inflight, AssemblyBytes, gone);
  }

  lemma PrunedKeepsInv(t: Table, last: nat, now: nat)
    requires Inv(t, last) && last <= now
    ensures Inv(Pruned(t, now), now)
  {
    CountsShrink(t.inflight.Keys, Pruned(t, now).inflight.Keys);
  }

  /** An assembly is complete exactly when it holds as many parts as announced (the test the code makes). */
  lemma CompleteIffFull(m: Assembly)
    requires forall i: u16 :: i in m.parts ==> i < m.fragCnt
    ensures |m.parts| <= m.fragCnt
    ensures Complete(m) <==> |m.parts| == m.fragCnt
  {
    var s: set<int> := set i | i in m.parts.Keys;
    assert s == m.parts.Keys;
    FullIndexSet(s, m.fragCnt);
    if Complete(m) {
      assert s == Below(m.fragCnt);
      BelowSize(m.fragCnt);
    }
  }

  lemma ExtendedBytes(t: Table, a: Arrival, now: nat)
    requires !Duplicate(t, a)
    ensures PartBytes(Extended(t, a, now).parts)
         == |a.payload| + if a.key in t.inflight then PartBytes(t.inflight[a.key].parts) else 0
    ensures Total(t.inflight[a.key := Extended(t, a, now)]) == Total(t.inflight) + |a.payload|
    ensures Total(t.inflight - {a.key}) <= Total(t.inflight)
  {
    var parts := if a.key in t.inflight then t.inflight[a.key].parts else map[];
    SumInsert(parts, PartLen, a.idx, a.payload);
    assert parts - {a.idx} == parts;
    SumInsert(t.inflight, AssemblyBytes, a.key, Extended(t, a, now));
    if a.key in t.inflight {
      SumRemove(t.inflight, AssemblyBytes, a.key);
    } else {
      assert t.inflight - {a.key} == t.inflight;
    }
  }

  lemma StoreKeepsCounts(t: Table, a: Arrival, held: nat, now: nat)
    requires CountsInv(t.inflight.Keys)
    requires Refusal(t, a, held) == None && !Duplicate(t, a)
    ensures CountsInv(Store(t, a, now).0.inflight.Keys)
  {
    var m := Extended(t, a, now);
    if Complete(m) {
      CountsShrink(t.inflight.Keys, (t.inflight - {a.key}).Keys);
    } else {
      assert t.inflight[a.key := m].Keys == t.inflight.Keys + {a.key};
      if a.key in t.inflight {
        assert t.inflight.Keys + {a.key} == t.inflight.Keys;
      } else {
        CountsGrow(t.inflight.Keys, a.key);
      }
    }
  }

  lemma ExtendedShape(t: Table, a: Arrival, held: nat, now: nat)
    requires Refusal(t, a, held) == None && !Duplicate(t, a)
    requires a.key in t.inflight ==> Partial(t.inflight[a.key])
    ensures var m := Extended(t, a, now);
      && m.fragCnt == a.cnt
      && (Partial(m) || Complete(m))
      && (forall i: u16 :: i in m.parts ==> i < m.fragCnt)
      && (Complete(m) <==> |m.parts| == m.fragCnt)
  {
    var m := Extended(t, a, now);
    assert a.idx in m.parts;
    CompleteIffFull(m);
  }

  lemma StoreKeepsShape(t: Table, a: Arrival, held: nat, last: nat, now: nat)
    requires ShapeInv(t.inflight, last) && last <= now
    requires Refusal(t, a, held) == None && !Duplicate(t, a)
    ensures ShapeInv(Store(t, a, now).0.inflight, now)
  {
    ExtendedShape(t, a, held, now);
  }

  lemma StoreKeepsBytes(t: Table, a: Arrival, now: nat)
    requires BytesInv(t)
    requires Refusal(t, a, Total(t.inflight)) == None && !Duplicate(t, a)
    ensures BytesInv(Store(t, a, now).0)
  {
    ExtendedBytes(t, a, now);
  }

  lemma StoreKeepsCompleted(t: Table, a: Arrival, last: nat, now: nat)
    requires CompletedInv(t, last) && last <= now
    requires !Duplicate(t, a)
    ensures CompletedInv(Store(t, a, now).0, now)
  {
  }

  lemma StoreKeepsInv(t: Table, a: Arrival, held: nat, last: nat, now: nat)
    requires Inv(t, last) && last <= now
    requires Refusal(t, a, held) == None && !Duplicate(t, a)
    ensures Inv(Store(t, a, now).0, now)
  {
    StoreKeepsCounts(t, a, held, now);
    StoreKeepsShape(t, a, held, last, now);
    StoreKeepsCompleted(t, a, last, now);
  }

  // ---- Single operations

  /** Every entry point prunes first; only `accept_fragment` does more to the table. */
  datatype Op = AcceptOp(a: Arrival, held: nat, pruneAt: nat, now: nat) | PruneOp(pruneAt: nat)

  function End(op: Op): nat { if op.AcceptOp? then op.now else op.pruneAt }

  ghost function Next(t: Table, op: Op): Table {
    if op.AcceptOp? then Accept(t, op.a, op.held, op.pruneAt, op.now).0 else Pruned(t, op.pruneAt)
  }

  /** The message an operation hands out, if any. */
  ghost function Output(t: Table, op: Op): Option<Bytes> {
    if op.PruneOp? then None
    else
      match Accept(t, op.a, op.held, op.pruneAt, op.now).1
      case Accepted(m) => m
      case Rejected(_) => None
  }

  /** The byte count an operation works with is the sum of the lengths of all parts held. */
  ghost predicate Exact(t: Table, op: Op) {
    op.AcceptOp? ==> op.held == Total(Pruned(t, op.pruneAt).inflight)
  }

  lemma NextKeepsInv(t: Table, op: Op, last: nat)
    requires Inv(t, last) && last <= op.pruneAt <= End(op)
    ensures Inv(Next(t, op), End(op))
  {
    PrunedKeepsInv(t, last, op.pruneAt);
    var p := Pruned(t, op.pruneAt);
    if op.AcceptOp? && Refusal(p, op.a, op.held) == None && !Duplicate(p, op.a) {
      StoreKeepsInv(p, op.a, op.held, op.pruneAt, op.now);
    }
  }

  lemma NextKeepsBytes(t: Table, op: Op)
    requires BytesInv(t) && Exact(t, op)
    ensures BytesInv(Next(t, op))
  {
    PrunedBytes(t, op.pruneAt);
    var p := Pruned(t, op.pruneAt);
    if op.AcceptOp? && Refusal(p, op.a, op.held) == None && !Duplicate(p, op.a) {
      StoreKeepsBytes(p, op.a, op.now);
    }
  }

  ghost predicate RemembersAt(t: Table, key: Key, time: nat) {
    key in t.completed && t.completed[key] == time
  }

  lemma DeliveryIsRemembered(t: Table, op: Op)
    requires Output(t, op).Some?
    ensures RemembersAt(Next(t, op), op.a.key, op.now)
  {
    assert Next(t, op) == Store(Pruned(t, op.pruneAt), op.a, op.now).0;
  }

  /** While a completion is young enough no operation forgets it or delivers under its key. */
  lemma CompletedBlocks(t: Table, op: Op, key: Key, time: nat)
    requires RemembersAt(t, key, time) && op.pruneAt <= time + COMPLETED_TTL
    ensures RemembersAt(Next(t, op), key, time)
    ensures Output(t, op).Some? ==> op.a.key != key
  {
    assert key in Pruned(t, op.pruneAt).completed;
  }

  // ---- Whole runs

  /** A run of the reassembler: operation `i` takes `tables[i]` to `tables[i + 1]` and hands out `outs[i]`. */
  datatype Run = Run(tables: seq<Table>, ops: seq<Op>, outs: seq<Option<Bytes>>)

  /** The last clock reading before operation `i` of a run started at `t0`. */
  function Before(r: Run, t0: nat, i: nat): nat
    requires i <= |r.ops|
  {
    if i == 0 then t0 else End(r.ops[i - 1])
  }

  ghost predicate Shaped(r: Run) { |r.tables| == |r.ops| + 1 == |r.outs| + 1 }

  ghost predicate ClockAt(r: Run, t0: nat, i: nat)
    requires i < |r.ops|
  {
    Before(r, t0, i) <= r.ops[i].pruneAt <= End(r.ops[i])
  }

  ghost predicate NextAt(r: Run, i: nat)
    requires Shaped(r) && i < |r.ops|
  {
    r.tables[i + 1] == Next(r.tables[i], r.ops[i])
  }

  ghost predicate OutAt(r: Run, i: nat)
    requires Shaped(r) && i < |r.ops|
  {
    r.outs[i] == Output(r.tables[i], r.ops[i])
  }

  ghost predicate ExactAt(r: Run, i: nat)
    requires Shaped(r) && i < |r.ops|
  {
    Exact(r.tables[i], r.ops[i])
  }

  /** Clock readings never go back, every step is an operation, and the byte counts are exact. */
  ghost predicate IsRun(r: Run, t0: nat) {
    && Shaped(r)
    && Inv(r.tables[0], t0) && BytesInv(r.tables[0])
    && (forall i :: 0 <= i < |r.ops| ==> ClockAt(r, t0, i))
    && (forall i :: 0 <= i < |r.ops| ==> NextAt(r, i))
    && (forall i :: 0 <= i < |r.ops| ==> OutAt(r, i))
    && (forall i :: 0 <= i < |r.ops| ==> ExactAt(r, i))
  }

  /** The byte budget holds in every state any run can reach. */
  lemma {:induction false} ReachableBytes(r: Run, t0: nat, i: nat)
    requires IsRun(r, t0) && i <= |r.ops|
    ensures BytesInv(r.tables[i])
  {
    if i > 0 {
      ReachableBytes(r, t0, i - 1);
      assert NextAt(r, i - 1) && ExactAt(r, i - 1);
      NextKeepsBytes(r.tables[i - 1], r.ops[i - 1]);
    }
  }

  /** The message budgets, the shape of every entry and disjointness hold in every state any run can reach. */
  lemma {:induction false} ReachableInv(r: Run, t0: nat, i: nat)
    requires IsRun(r, t0) && i <= |r.ops|
    ensures Inv(r.tables[i], Before(r, t0, i))
  {
    if i > 0 {
      ReachableInv(r, t0, i - 1);
      assert ClockAt(r, t0, i - 1) && NextAt(r, i - 1);
      NextKeepsInv(r.tables[i - 1], r.ops[i - 1], Before(r, t0, i - 1));
    }
  }

  lemma {:induction false} CompletedPersists(r: Run, t0: nat, i: nat, j: nat, key: Key, time: nat)
    requires IsRun(r, t0) && i <= j < |r.ops|
    requires RemembersAt(r.tables[i], key, time)
    requires r.ops[j].pruneAt <= time + COMPLETED_TTL
    ensures RemembersAt(r.tables[j], key, time)
  {
    if i < j {
      assert ClockAt(r, t0, j - 1) && ClockAt(r, t0, j) && NextAt(r, j - 1);
      CompletedPersists(r, t0, i, j - 1, key, time);
      CompletedBlocks(r.tables[j - 1], r.ops[j - 1], key, time);
    }
  }

  lemma DeliveryIsRememberedInRun(r: Run, t0: nat, i: nat)
    requires IsRun(r, t0) && i < |r.ops| && r.outs[i].Some?
    ensures r.ops[i].AcceptOp? && RemembersAt(r.tables[i + 1], r.ops[i].a.key, r.ops[i].now)
  {
    assert NextAt(r, i) && OutAt(r, i);
    DeliveryIsRemembered(r.tables[i], r.ops[i]);
  }

  /**
   * At-most-once: two deliveries for the same source and message id are more than 300 s apart, measured from
   * the completion of the first to the pruning clock reading of the second.
   */
  lemma AtMostOnce(r: Run, t0: nat, i: nat, j: nat)
    requires IsRun(r, t0) && i < j < |r.ops|
    requires r.outs[i].Some? && r.outs[j].Some?
    ensures r.ops[i].AcceptOp? && r.ops[j].AcceptOp?
    ensures r.ops[i].a.key == r.ops[j].a.key ==> r.ops[j].pruneAt > r.ops[i].now + COMPLETED_TTL
  {
    DeliveryIsRememberedInRun(r, t0, i);
    DeliveryIsRememberedInRun(r, t0, j);
    if r.ops[j].pruneAt <= r.ops[i].now + COMPLETED_TTL {
      CompletedPersists(r, t0, i + 1, j, r.ops[i].a.key, r.ops[i].now);
      assert OutAt(r, j);
      CompletedBlocks(r.tables[j], r.ops[j], r.ops[i].a.key, r.ops[i].now);
    }
  }
}
