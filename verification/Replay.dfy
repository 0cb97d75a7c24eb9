/**
 * The replay window of the TCP data plane: a bounded first-in first-out record of accepted sequence numbers,
 * pruned by the senders' own timestamps, behind a freshness check and a MAC. Times are wall-clock seconds and
 * never go back.
 */
module Replay {
  import opened Words
  import opened Options
  import opened Packet

  const CACHE_LIMIT: nat := 4096
  const MAX_MESSAGE_SIZE: nat := 10 * 1024 * 1024

  /** A sequence number and the timestamp signed with it. */
  datatype Entry = Entry(seqNo: u64, timestamp: u64)

  predicate StaleAt(e: Entry, now: u64) { SatSub(now, e.timestamp) > REPLAY_WINDOW_SECS }

  /** Entries are dropped from the front while the front is stale, whatever is behind it. */
  function DropStale(order: seq<Entry>, now: u64): seq<Entry> {
    if order != [] && StaleAt(order[0], now) then DropStale(order[1..], now) else order
  }

  function Newest(order: seq<Entry>): seq<Entry> {
    if |order| > CACHE_LIMIT then order[|order| - CACHE_LIMIT..] else order
  }

  lemma NewestOfRest(order: seq<Entry>)
    requires |order| > CACHE_LIMIT
    ensures Newest(order[1..]) == Newest(order)
  {
  }

  function PrunedOrder(order: seq<Entry>, now: u64): seq<Entry> { Newest(DropStale(order, now)) }

  ghost predicate Holds(order: seq<Entry>, seqNo: u64) { exists i :: 0 <= i < |order| && order[i].seqNo == seqNo }

  ghost predicate Distinct(order: seq<Entry>) {
    forall i, j :: 0 <= i < j < |order| ==> order[i].seqNo != order[j].seqNo
  }

  ghost function SeqNos(order: seq<Entry>): set<u64> { set i | 0 <= i < |order| :: order[i].seqNo }

  lemma SeqNosAppend(order: seq<Entry>, e: Entry)
    ensures SeqNos(order + [e]) == SeqNos(order) + {e.seqNo}
  {
    assert (order + [e])[|order|] == e;
    assert forall i :: 0 <= i < |order| ==> (order + [e])[i] == order[i];
  }

  class ReplayWindow {
    var seen: set<u64>
    var order: seq<Entry>

    /** `seen` is exactly the set of sequence numbers in `order`, which has no duplicates. */
    ghost predicate Valid()
      reads this
    {
      Distinct(order) && seen == SeqNos(order)
    }

    constructor ()
      ensures Valid() && order == []
    {
      seen, order := {}, [];
    }

    method PopFront()
      requires Valid() && order != []
      modifies this
      ensures Valid() && order == old(order)[1..]
    {
      var e := order[0];
      var rest := order[1..];
      assert SeqNos(order) == SeqNos(rest) + {e.seqNo};
      assert e.seqNo !in SeqNos(rest);
      order := rest;
      seen := seen - {e.seqNo};
    }

    method Prune(now: u64)
      requires Valid()
      modifies this
      ensures Valid() && order == PrunedOrder(old(order), now)
    {
      while order != [] && StaleAt(order[0], now)
        invariant Valid() && DropStale(order, now) == DropStale(old(order), now)
        decreases |order|
      {
        PopFront();
      }
      ghost var young := order;
      while |order| > CACHE_LIMIT
        invariant Valid() && Newest(order) == Newest(young)
        decreases |order|
      {
        NewestOfRest(order);
        PopFront();
      }
    }

    method AcceptTcpSeq(seqNo: u64, timestamp: u64, now: u64) returns (ok: bool)
      requires Valid()
      modifies this
      ensures Valid()
      ensures (order, ok) == Attempt(old(order), Entry(seqNo, timestamp), now)
    {
      Prune(now);
      if seqNo in seen {
        return false;
      }
      ghost var before := order;
      seen := seen + {seqNo};
      order := order + [Entry(seqNo, timestamp)];
      SeqNosAppend(before, Entry(seqNo, timestamp));
      Prune(now);
      ok := true;
    }
  }

  ghost function Attempt(order: seq<Entry>, e: Entry, now: u64): (seq<Entry>, bool) {
    var p := PrunedOrder(order, now);
    if Holds(p, e.seqNo) then (p, false) else (PrunedOrder(p + [e], now), true)
  }

  /**
   * What the window forgets, exactly: an entry from which on back all are more than 300 s old, and an entry with 4096
   * or more behind it.
   */
  lemma ForgottenIff(order: seq<Entry>, now: u64, i: nat)
    requires i < |order|
    ensures |PrunedOrder(order, now)| <= |order| && PrunedOrder(order, now) == order[|order| - |PrunedOrder(order, now)|..]
    ensures i < |order| - |PrunedOrder(order, now)|
      <==> (forall k :: 0 <= k <= i ==> order[k].timestamp + 300 < now) || |order| - 1 - i >= 4096
  {
    var d := StaleFront(order, now);
    var young := DropStale(order, now);
    if i >= d {
      assert !StaleAt(order[d], now);
    }
    assert i < d ==> forall k :: 0 <= k <= i ==> order[k].timestamp + 300 < now;
    if |young| > CACHE_LIMIT {
      assert young[|young| - CACHE_LIMIT..] == order[|order| - CACHE_LIMIT..];
    }
  }

  /** How many entries at the front are stale. */
  lemma {:induction false} StaleFront(order: seq<Entry>, now: u64) returns (d: nat)
    ensures d <= |order| && DropStale(order, now) == order[d..]
    ensures forall k :: 0 <= k < d ==> order[k].timestamp + 300 < now
    ensures d < |order| ==> !(order[d].timestamp + 300 < now)
    decreases |order|
  {
    if order == [] || !StaleAt(order[0], now) {
      return 0;
    }
    var rest := order[1..];
    d := StaleFront(rest, now);
    assert rest[d..] == order[d + 1..];
    assert forall k :: 0 < k < d + 1 ==> order[k] == rest[k - 1];
    d := d + 1;
  }

  // ---- The window against the full history of acceptances

  /** Entry `i` of the history is no longer needed: it is stale, or 4096 acceptances came after it. */
  ghost predicate Expendable(history: seq<Entry>, i: nat, now: u64)
    requires i < |history|
  {
    StaleAt(history[i], now) || |history| - 1 - i >= CACHE_LIMIT
  }

  /** The window is a suffix of the history from which only expendable entries are missing. */
  ghost predicate Remembers(order: seq<Entry>, history: seq<Entry>, now: u64) {
    && |order| <= |history| && order == history[|history| - |order|..]
    && (forall i :: 0 <= i < |history| - |order| ==> Expendable(history, i, now))
  }

  lemma {:induction false} DropStaleRemembers(order: seq<Entry>, history: seq<Entry>, now: u64)
    requires Remembers(order, history, now)
    ensures Remembers(DropStale(order, now), history, now)
    decreases |order|
  {
    if order != [] && StaleAt(order[0], now) {
      DropStaleRemembers(order[1..], history, now);
    }
  }

  lemma PruneRemembers(order: seq<Entry>, history: seq<Entry>, now: u64)
    requires Remembers(order, history, now)
    ensures Remembers(PrunedOrder(order, now), history, now)
  {
    DropStaleRemembers(order, history, now);
  }

  lemma RemembersLater(order: seq<Entry>, history: seq<Entry>, now: u64, later: u64)
    requires Remembers(order, history, now) && now <= later
    ensures Remembers(order, history, later)
  {
    forall i | 0 <= i < |history| - |order| ensures Expendable(history, i, later) {
      assert Expendable(history, i, now);
    }
  }

  lemma AppendRemembers(order: seq<Entry>, history: seq<Entry>, e: Entry, now: u64)
    requires Remembers(order, history, now)
    ensures Remembers(order + [e], history + [e], now)
  {
    forall i | 0 <= i < |history| - |order| ensures Expendable(history + [e], i, now) {
      assert Expendable(history, i, now);
    }
  }

  ghost function Extend(history: seq<Entry>, e: Entry, ok: bool): seq<Entry> { if ok then history + [e] else history }

  lemma AttemptRemembers(order: seq<Entry>, history: seq<Entry>, e: Entry, last: u64, now: u64)
    requires Remembers(order, history, last) && last <= now
    ensures var (order', ok) := Attempt(order, e, now);
      Remembers(order', Extend(history, e, ok), now) && |order'| <= CACHE_LIMIT
  {
    RemembersLater(order, history, last, now);
    PruneRemembers(order, history, now);
    var p := PrunedOrder(order, now);
    AppendRemembers(p, history, e, now);
    PruneRemembers(p + [e], history + [e], now);
  }

  /** A non-stale entry with fewer than 4096 acceptances after it is still there when the check is made. */
  lemma StillHeld(order: seq<Entry>, history: seq<Entry>, i: nat, last: u64, now: u64)
    requires Remembers(order, history, last) && last <= now
    requires i < |history| && !Expendable(history, i, now)
    ensures Holds(PrunedOrder(order, now), history[i].seqNo)
  {
    RemembersLater(order, history, last, now);
    PruneRemembers(order, history, now);
    var p := PrunedOrder(order, now);
    assert p[i - (|history| - |p|)] == history[i];
  }

  /**
   * Exactly when a replayed envelope gets past the window. Let entry `i` be the latest acceptance of its
   * sequence number, not yet stale: a further attempt is accepted if and only if at least 4096 envelopes have
   * been accepted since.
   */
  lemma ReplayAcceptedIff(order: seq<Entry>, history: seq<Entry>, i: nat, e: Entry, last: u64, now: u64)
    requires Remembers(order, history, last) && |order| <= CACHE_LIMIT && last <= now
    requires i < |history| && history[i].seqNo == e.seqNo && !StaleAt(history[i], now)
    requires forall j :: i < j < |history| ==> history[j].seqNo != e.seqNo
    ensures Attempt(order, e, now).1 <==> |history| - 1 - i >= CACHE_LIMIT
  {
    if |history| - 1 - i < CACHE_LIMIT {
      StillHeld(order, history, i, last, now);
    } else {
      RemembersLater(order, history, last, now);
      PruneRemembers(order, history, now);
      PrunedIsShort(order, now);
      var p := PrunedOrder(order, now);
      assert forall j :: 0 <= j < |p| ==> p[j] == history[j + (|history| - |p|)];
    }
  }

  lemma {:induction false} PrunedIsShort(order: seq<Entry>, now: u64)
    ensures |PrunedOrder(order, now)| <= |order| && |PrunedOrder(order, now)| <= CACHE_LIMIT
    decreases |order|
  {
    if order != [] && StaleAt(order[0], now) {
      PrunedIsShort(order[1..], now);
    }
  }

  // ---- Envelopes

  datatype Envelope = Envelope(conn: ConnectionId, seqNo: u64, timestamp: u64, payload: Bytes, tag: Tag)

  /** Only envelopes are expected on the data plane. */
  datatype Frame = Signed(env: Envelope) | Unsigned

  datatype Rejection = NotAnEnvelope | ConnectionMismatch | TooLarge | Stale | Authentication | Replayed | Undecodable

  datatype Decoded<C> = Ok(command: C) | Err(reason: Rejection)

  /** The serialisation library, with the one thing relied on: decoding inverts encoding. */
  datatype Codec<!C> = Codec(encode: C -> Bytes, decode: Bytes -> Option<C>)

  function EncodeEnvelope<C>(codec: Codec<C>, mac: Bytes -> Tag, conn: ConnectionId, command: C, seqNo: u64, timestamp: u64): Option<Envelope> {
    var payload := codec.encode(command);
    if |payload| > MAX_MESSAGE_SIZE then None
    else Some(Envelope(conn, seqNo, timestamp, payload, mac(TcpMacInput(conn, seqNo, timestamp, payload))))
  }

  /** Everything checked before the replay window is consulted. */
  function Precheck(mac: Bytes -> Tag, conn: ConnectionId, f: Frame, now: u64): (r: Option<Rejection>)
    ensures r == None ==> f.Signed? && f.env.conn == conn && !StaleAt(Entry(f.env.seqNo, f.env.timestamp), now)
    ensures r == None ==> f.env.tag == mac(TcpMacInput(conn, f.env.seqNo, f.env.timestamp, f.env.payload))
  {
    if f.Unsigned? then Some(NotAnEnvelope)
    else if f.env.conn != conn then Some(ConnectionMismatch)
    else if |f.env.payload| > MAX_MESSAGE_SIZE then Some(TooLarge)
    else if !TimestampIsFresh(f.env.timestamp, now) then Some(Rejection.Stale)
    else if mac(TcpMacInput(conn, f.env.seqNo, f.env.timestamp, f.env.payload)) != f.env.tag then Some(Rejection.Authentication)
    else None
  }

  ghost function Decode<C>(codec: Codec<C>, mac: Bytes -> Tag, conn: ConnectionId, order: seq<Entry>, f: Frame, now: u64): (seq<Entry>, Decoded<C>) {
    if Precheck(mac, conn, f, now).Some? then (order, Err(Precheck(mac, conn, f, now).value))
    else
      var (order', ok) := Attempt(order, Entry(f.env.seqNo, f.env.timestamp), now);
      if !ok then (order', Err(Replayed))
      else
        match codec.decode(f.env.payload)
        case Some(command) => (order', Ok(command))
        case None => (order', Err(Undecodable))
  }

  method DecodeEnvelope<C>(codec: Codec<C>, mac: Bytes -> Tag, conn: ConnectionId, f: Frame, w: ReplayWindow, now: u64) returns (r: Decoded<C>)
    requires w.Valid()
    modifies w
    ensures w.Valid()
    ensures (w.order, r) == Decode(codec, mac, conn, old(w.order), f, now)
  {
    var bad := Precheck(mac, conn, f, now);
    if bad.Some? {
      return Err(bad.value);
    }
    var ok := w.AcceptTcpSeq(f.env.seqNo, f.env.timestamp, now);
    if !ok {
      return Err(Replayed);
    }
    var command := codec.decode(f.env.payload);
    r := if command.Some? then Ok(command.value) else Err(Undecodable);
  }

  /**
   * A signed command whose sequence number is not held decodes to itself exactly if its time lies between 300 s before
   * and 30 s after the reader's; otherwise it is stale.
   */
  lemma EnvelopeRoundTrip<C>(codec: Codec<C>, mac: Bytes -> Tag, conn: ConnectionId, command: C, seqNo: u64, timestamp: u64, order: seq<Entry>, now: u64)
    requires codec.decode(codec.encode(command)) == Some(command)
    requires EncodeEnvelope(codec, mac, conn, command, seqNo, timestamp).Some?
    requires !Holds(order, seqNo)
    ensures Decode(codec, mac, conn, order, Signed(EncodeEnvelope(codec, mac, conn, command, seqNo, timestamp).value), now).1
         == if now - 300 <= timestamp <= now + 30 then Ok(command) else Err(Rejection.Stale)
  {
    FreshIff(timestamp, now);
    PrunedIsSuffix(order, now);
    var p := PrunedOrder(order, now);
    assert forall j :: 0 <= j < |p| ==> p[j] == order[j + (|order| - |p|)];
  }

  lemma {:induction false} PrunedIsSuffix(order: seq<Entry>, now: u64)
    ensures |PrunedOrder(order, now)| <= |order|
    ensures PrunedOrder(order, now) == order[|order| - |PrunedOrder(order, now)|..]
    decreases |order|
  {
    if order != [] && StaleAt(order[0], now) {
      PrunedIsSuffix(order[1..], now);
    }
  }

  // ---- Whole runs

  /** Frames as they come in, the window before each, and how many envelopes the window had let through. */
  datatype Run<C> = Run(frames: seq<Frame>, times: seq<u64>, orders: seq<seq<Entry>>, histories: seq<seq<Entry>>, results: seq<Decoded<C>>)

  ghost predicate Shaped<C>(r: Run<C>) {
    && |r.frames| == |r.times| == |r.results|
    && |r.orders| == |r.histories| == |r.frames| + 1
  }

  /** Envelopes let through by the window, including those that then fail to decode. */
  ghost predicate LetThrough<C>(d: Decoded<C>) { d.Ok? || d.reason.Undecodable? }

  ghost predicate FrameAt<C(!new)>(codec: Codec<C>, mac: Bytes -> Tag, conn: ConnectionId, r: Run<C>, i: nat)
    requires Shaped(r) && i < |r.frames|
  {
    && (r.orders[i + 1], r.results[i]) == Decode(codec, mac, conn, r.orders[i], r.frames[i], r.times[i])
    && r.histories[i + 1] == Extend(r.histories[i], EntryOf(r.frames[i]), LetThrough(r.results[i]))
    && (i > 0 ==> r.times[i - 1] <= r.times[i])
  }

  ghost function EntryOf(f: Frame): Entry { if f.Signed? then Entry(f.env.seqNo, f.env.timestamp) else Entry(0, 0) }

  ghost predicate IsRun<C(!new)>(codec: Codec<C>, mac: Bytes -> Tag, conn: ConnectionId, r: Run<C>) {
    && Shaped(r)
    && r.orders[0] == [] && r.histories[0] == []
    && (forall i :: 0 <= i < |r.frames| ==> FrameAt(codec, mac, conn, r, i))
  }

  ghost function TimeBefore<C>(r: Run<C>, i: nat): u64
    requires Shaped(r) && i <= |r.frames|
  {
    if i == 0 then 0 else r.times[i - 1]
  }

  lemma DecodeRemembers<C>(codec: Codec<C>, mac: Bytes -> Tag, conn: ConnectionId, order: seq<Entry>, history: seq<Entry>, f: Frame, last: u64, now: u64)
    requires Remembers(order, history, last) && |order| <= CACHE_LIMIT && last <= now
    ensures var (order', d) := Decode(codec, mac, conn, order, f, now);
      Remembers(order', Extend(history, EntryOf(f), LetThrough(d)), now) && |order'| <= CACHE_LIMIT
  {
    if Precheck(mac, conn, f, now) == None {
      AttemptRemembers(order, history, EntryOf(f), last, now);
    } else {
      RemembersLater(order, history, last, now);
    }
  }

  lemma FrameRemembers<C(!new)>(codec: Codec<C>, mac: Bytes -> Tag, conn: ConnectionId, r: Run<C>, i: nat)
    requires Shaped(r) && i < |r.frames| && FrameAt(codec, mac, conn, r, i)
    requires Remembers(r.orders[i], r.histories[i], TimeBefore(r, i)) && |r.orders[i]| <= CACHE_LIMIT
    ensures Remembers(r.orders[i + 1], r.histories[i + 1], TimeBefore(r, i + 1)) && |r.orders[i + 1]| <= CACHE_LIMIT
  {
    DecodeRemembers(codec, mac, conn, r.orders[i], r.histories[i], r.frames[i], TimeBefore(r, i), r.times[i]);
  }

  lemma {:induction false} RunRemembers<C(!new)>(codec: Codec<C>, mac: Bytes -> Tag, conn: ConnectionId, r: Run<C>, i: nat)
    requires IsRun(codec, mac, conn, r) && i <= |r.frames|
    ensures Remembers(r.orders[i], r.histories[i], TimeBefore(r, i)) && |r.orders[i]| <= CACHE_LIMIT
  {
    if i > 0 {
      RunRemembers(codec, mac, conn, r, i - 1);
      FrameRemembers(codec, mac, conn, r, i - 1);
    }
  }

  lemma {:induction false} HistoryGrows<C(!new)>(codec: Codec<C>, mac: Bytes -> Tag, conn: ConnectionId, r: Run<C>, i: nat, j: nat)
    requires IsRun(codec, mac, conn, r) && i <= j <= |r.frames|
    ensures r.histories[i] <= r.histories[j]
  {
    if i < j {
      HistoryGrows(codec, mac, conn, r, i, j - 1);
      assert FrameAt(codec, mac, conn, r, j - 1);
    }
  }

  /**
   * Replay safety over whole runs: the same envelope decodes a second time only if at least 4096 envelopes were
   * let through strictly in between.
   */
  lemma ReplaySafety<C(!new)>(codec: Codec<C>, mac: Bytes -> Tag, conn: ConnectionId, r: Run<C>, i: nat, j: nat)
    requires IsRun(codec, mac, conn, r) && i < j < |r.frames|
    requires r.frames[i] == r.frames[j] && r.results[i].Ok? && r.results[j].Ok?
    ensures |r.histories[j]| - |r.histories[i + 1]| >= CACHE_LIMIT
  {
    assert FrameAt(codec, mac, conn, r, i) && FrameAt(codec, mac, conn, r, j);
    HistoryGrows(codec, mac, conn, r, i + 1, j);
    RunRemembers(codec, mac, conn, r, j);
    var history, k := r.histories[j], |r.histories[i]|;
    assert history[k] == EntryOf(r.frames[i]);
    if !Expendable(history, k, r.times[j]) {
      StillHeld(r.orders[j], history, k, TimeBefore(r, j), r.times[j]);
    }
  }
}
