/**
 * Two messages under one id: both ends of a connection number their messages from 1, so an id may stand for one
 * payload in each direction. Exactly when their fragments cannot be mixed, and histories in which they are.
 */
module Mixing {
  import opened Words
  import opened Options
  import opened Net
  import opened Packet
  import opened Fragmentation
  import opened Reassembly
  import opened Delivery
  import BanTable
  import opened Transport

  // ---- When fragments of two payloads cannot be mixed

  /** Parts of equal lengths, but for the last, can be told from what they join to. */
  lemma {:induction false} JoinedDetermines(a: map<u16, Bytes>, b: map<u16, Bytes>, n: u16, i: u16)
    requires Full(a, n) && Full(b, n) && i < n && Joined(a, n) == Joined(b, n)
    requires forall k: u16 :: k < n - 1 ==> |a[k]| == |b[k]|
    ensures a[i] == b[i]
  {
    SameLength(a, b, n - 1);
    var x, y := Joined(a, n - 1), Joined(b, n - 1);
    assert (x + a[n - 1])[..|x|] == x && (y + b[n - 1])[..|y|] == y;
    assert (x + a[n - 1])[|x|..] == a[n - 1] && (y + b[n - 1])[|y|..] == b[n - 1];
    if i < n - 1 {
      JoinedDetermines(a, b, n - 1, i);
    }
  }

  lemma {:induction false} SameLength(a: map<u16, Bytes>, b: map<u16, Bytes>, n: u16)
    requires Full(a, n) && Full(b, n) && forall k: u16 :: k < n ==> |a[k]| == |b[k]|
    ensures |Joined(a, n)| == |Joined(b, n)|
  {
    if n > 0 {
      SameLength(a, b, n - 1);
    }
  }

  lemma FullFragment(p: Bytes, i: nat)
    requires i + 1 < FragCount(|p|)
    ensures |Fragment(p, i)| == MAX_PAYLOAD
  {
  }

  ghost predicate DifferAt(p: Bytes, q: Bytes, i: nat)
    requires FragCount(|p|) == FragCount(|q|)
  {
    i < FragCount(|p|) && Fragment(p, i) != Fragment(q, i)
  }

  ghost predicate DifferOnceAtMost(p: Bytes, q: Bytes)
    requires FragCount(|p|) == FragCount(|q|)
  {
    forall i: nat, j: nat :: DifferAt(p, q, i) && DifferAt(p, q, j) ==> i == j
  }

  /** The first `n` fragments: of `p` at the indices in `s` and of `q` at all others. */
  ghost function Mixed(p: Bytes, q: Bytes, n: u16, s: set<u16>): map<u16, Bytes>
    requires FragCount(|p|) == FragCount(|q|) >= n
  {
    map i: u16 | 0 <= i < n :: if i in s then Fragment(p, i) else Fragment(q, i)
  }

  lemma WholeIsMixed(p: Bytes, cnt: u16)
    requires FragCount(|p|) == cnt
    ensures Joined(Mixed(p, p, cnt, {}), cnt) == p
  {
    FragmentsTile(Mixed(p, p, cnt, {}), cnt, p);
  }

  lemma MixedLengths(p: Bytes, q: Bytes, cnt: u16, s: set<u16>, x: Bytes, k: u16)
    requires FragCount(|p|) == FragCount(|q|) == FragCount(|x|) == cnt && k < cnt - 1
    ensures |Mixed(p, q, cnt, s)[k]| == |Mixed(x, x, cnt, {})[k]|
  {
    FullFragment(p, k);
    FullFragment(q, k);
    FullFragment(x, k);
  }

  /** A mixture with one fragment where `p` and `q` differ from each is neither. */
  lemma MixedIsNeither(p: Bytes, q: Bytes, cnt: u16, i: u16, j: u16)
    requires FragCount(|p|) == FragCount(|q|) == cnt && i != j && DifferAt(p, q, i) && DifferAt(p, q, j)
    ensures Joined(Mixed(p, q, cnt, {i}), cnt) != p && Joined(Mixed(p, q, cnt, {i}), cnt) != q
  {
    MixedIsNot(p, q, cnt, {i}, p, j);
    MixedIsNot(p, q, cnt, {i}, q, i);
  }

  lemma MixedIsNot(p: Bytes, q: Bytes, cnt: u16, s: set<u16>, x: Bytes, k: u16)
    requires FragCount(|p|) == FragCount(|q|) == FragCount(|x|) == cnt && k < cnt && Mixed(p, q, cnt, s)[k] != Fragment(x, k)
    ensures Joined(Mixed(p, q, cnt, s), cnt) != x
  {
    var a, b := Mixed(p, q, cnt, s), Mixed(x, x, cnt, {});
    WholeIsMixed(x, cnt);
    forall l: u16 | l < cnt - 1 ensures |a[l]| == |b[l]| {
      MixedLengths(p, q, cnt, s, x, l);
    }
    if Joined(a, cnt) == x {
      JoinedDetermines(a, b, cnt, k);
    }
  }

  /** Nothing but `p` and `q` was sent under `id` in `cnt` fragments. */
  ghost predicate OnlyTwo(sent: Sent, id: u32, cnt: nat, p: Bytes, q: Bytes) {
    forall x: Bytes :: SentIn(sent, id, cnt, x) ==> x == p || x == q
  }

  lemma OneOfTwo(sent: Sent, id: u32, p: Bytes, q: Bytes, cnt: u16, parts: map<u16, Bytes>, i: u16)
    requires FragCount(|p|) == FragCount(|q|) == cnt && OnlyTwo(sent, id, cnt, p, q)
    requires Slices(sent, id, cnt, parts) && i in parts
    ensures i < cnt && (parts[i] == Fragment(p, i) || parts[i] == Fragment(q, i))
  {
    var x :| SliceOf(sent, id, cnt, i, parts[i], x);
    assert SentIn(sent, id, cnt, x);
  }

  /** With no two places to differ in, parts from both are the parts of one. */
  lemma MosaicOfTwo(sent: Sent, id: u32, p: Bytes, q: Bytes, cnt: u16, msg: Bytes)
    requires FragCount(|p|) == FragCount(|q|) == cnt && OnlyTwo(sent, id, cnt, p, q)
    requires DifferOnceAtMost(p, q) && Mosaic(sent, id, cnt, msg)
    ensures msg == p || msg == q
  {
    var parts :| MosaicOf(sent, id, cnt, msg, parts);
    forall i: u16 | i in parts ensures i < cnt && (parts[i] == Fragment(p, i) || parts[i] == Fragment(q, i)) {
      OneOfTwo(sent, id, p, q, cnt, parts, i);
    }
    if PartsOf(parts, q) {
      FragmentsTile(parts, cnt, q);
    } else {
      var d: u16 :| d in parts && parts[d] != Fragment(q, d);
      assert DifferAt(p, q, d);
      forall i: u16 | i in parts ensures parts[i] == Fragment(p, i) {
        assert i == d || !DifferAt(p, q, i);
      }
      FragmentsTile(parts, cnt, p);
    }
  }

  // ---- Histories in which they are mixed

  const NOON := Clocks(0, 0, 0, 0, 0, 0, 0)

  /** Fragment `idx` of a message as its sender signs it at time 0. */
  function SignedPacket(mac: Bytes -> Tag, conn: ConnectionId, m: Message, idx: nat): Bytes
    requires Sendable(m.payload) && idx < FragCount(|m.payload|)
  {
    MakeHeader(SignedHeader(mac, conn, m, idx)) + Fragment(m.payload, idx)
  }

  function SignedHeader(mac: Bytes -> Tag, conn: ConnectionId, m: Message, idx: nat): Header
    requires Sendable(m.payload) && idx < FragCount(|m.payload|)
  {
    var meta := Meta(0, m.id, idx, FragCount(|m.payload|), 0);
    Header(meta, mac(UdpMacInput(conn, meta, Fragment(m.payload, idx))))
  }

  function ArrivalOf(m: Message, idx: nat, from: SocketAddr): Arrival
    requires Sendable(m.payload) && idx < FragCount(|m.payload|)
  {
    Arrival(Key(from, m.id), idx, FragCount(|m.payload|), Fragment(m.payload, idx))
  }

  lemma SignedPacketIsUnforged(mac: Bytes -> Tag, conn: ConnectionId, sent: Sent, m: Message, idx: nat)
    requires Sendable(m.payload) && idx < FragCount(|m.payload|) && m in sent
    ensures Unforged(mac, conn, sent, SignedPacket(mac, conn, m, idx))
  {
    var h, f := SignedHeader(mac, conn, m, idx), Fragment(m.payload, idx);
    ParseMake(h, f);
    assert (MakeHeader(h) + f)[HEADER_LEN..] == f;
    assert SignedFragment(conn, sent, UdpMacInput(conn, h.meta, f), m, idx, 0);
  }

  /** What a receiver with a clean record does with a signed packet that it does not refuse. */
  lemma SignedPacketIsTaken(mac: Bytes -> Tag, conn: ConnectionId, t: Table, m: Message, idx: nat, from: SocketAddr, held: nat)
    requires Sendable(m.payload) && idx < FragCount(|m.payload|)
    requires Pruned(t, 0) == t && Refusal(t, ArrivalOf(m, idx, from), held) == None && !Duplicate(t, ArrivalOf(m, idx, from))
    ensures var (t', msg) := Store(t, ArrivalOf(m, idx, from), 0);
      Receive(mac, conn, Receiver(t, map[]), from, SignedPacket(mac, conn, m, idx), NOON, held) == (Receiver(t', map[]), Acknowledged(msg))
  {
    var h := SignedHeader(mac, conn, m, idx);
    ParseMake(h, Fragment(m.payload, idx));
    AdmissibleMade(mac, conn, h, Fragment(m.payload, idx), from, 0);
    assert BanTable.PrunedSources(map[], 0) == map[];
  }

  // The fragments of two payloads arriving in index order, each from one or the other.

  function Pair(id: u32, p: Bytes, q: Bytes): set<Message> { {Message(id, p), Message(id, q)} }

  ghost function Source(p: Bytes, q: Bytes, s: set<u16>, i: u16): Bytes { if i in s then p else q }

  /** The table once the first `n` have arrived and more are to come. */
  ghost function Waiting(key: Key, p: Bytes, q: Bytes, n: u16, s: set<u16>): Table
    requires FragCount(|p|) == FragCount(|q|) >= n && FragCount(|p|) <= MAX_FRAGMENTS_PER_MESSAGE
  {
    if n == 0 then EMPTY else Table(map[key := Assembly(0, FragCount(|p|), Mixed(p, q, n, s))], map[])
  }

  lemma MixedIsPartial(p: Bytes, q: Bytes, n: u16, s: set<u16>)
    requires 0 < n < FragCount(|p|) == FragCount(|q|) <= MAX_FRAGMENTS_PER_MESSAGE
    ensures Partial(Assembly(0, FragCount(|p|), Mixed(p, q, n, s)))
  {
    var m := Assembly(0, FragCount(|p|), Mixed(p, q, n, s));
    CompleteIffFull(m);
    assert 0 in m.parts && n !in m.parts;
  }

  lemma WaitingRefusesNothing(id: u32, from: SocketAddr, p: Bytes, q: Bytes, n: u16, s: set<u16>)
    requires n < FragCount(|p|) == FragCount(|q|) <= MAX_FRAGMENTS_PER_MESSAGE
    ensures var t, a := Waiting(Key(from, id), p, q, n, s), ArrivalOf(Message(id, Source(p, q, s, n)), n, from);
      Pruned(t, 0) == t && Refusal(t, a, Total(t.inflight)) == None && !Duplicate(t, a)
  {
    var x := Source(p, q, s, n);
    var t, a := Waiting(Key(from, id), p, q, n, s), ArrivalOf(Message(id, x), n, from);
    if n > 0 {
      MixedIsPartial(p, q, n, s);
    }
    assert ShapeInv(t.inflight, 0);
    OneEntryRefusesNothing(t, 0, a, x);
  }

  lemma WaitingStores(id: u32, from: SocketAddr, p: Bytes, q: Bytes, n: u16, s: set<u16>)
    requires n < FragCount(|p|) == FragCount(|q|) <= MAX_FRAGMENTS_PER_MESSAGE
    ensures var cnt := FragCount(|p|);
      var t, a := Waiting(Key(from, id), p, q, n, s), ArrivalOf(Message(id, Source(p, q, s, n)), n, from);
      var (t', msg) := Store(t, a, 0);
      if n + 1 < cnt then t' == Waiting(Key(from, id), p, q, n + 1, s) && msg == None
      else msg == Some(Joined(Mixed(p, q, cnt, s), cnt))
  {
    var t, a := Waiting(Key(from, id), p, q, n, s), ArrivalOf(Message(id, Source(p, q, s, n)), n, from);
    var m := Extended(t, a, 0);
    assert m.parts == Mixed(p, q, n + 1, s);
    if n + 1 < FragCount(|p|) {
      assert n + 1 !in m.parts;
    } else {
      assert Complete(m);
    }
  }

  /** The arrival of a signed packet as an event. */
  lemma ArrivalHappens(mac: Bytes -> Tag, conn: ConnectionId, sent: Sent, t: Table, m: Message, idx: nat, from: SocketAddr)
    requires Sendable(m.payload) && idx < FragCount(|m.payload|) && m in sent
    requires var a := ArrivalOf(m, idx, from); Pruned(t, 0) == t && Refusal(t, a, Total(t.inflight)) == None && !Duplicate(t, a)
    ensures var (t', msg) := Store(t, ArrivalOf(m, idx, from), 0);
      EventOk(mac, conn, World(sent, Receiver(t, map[])), ArriveAt(mac, conn, t, m, idx, from),
              World(sent, Receiver(t', map[])), Acknowledged(msg))
  {
    SignedPacketIsUnforged(mac, conn, sent, m, idx);
    SignedPacketIsTaken(mac, conn, t, m, idx, from, Total(t.inflight));
  }

  ghost function ArriveAt(mac: Bytes -> Tag, conn: ConnectionId, t: Table, m: Message, idx: nat, from: SocketAddr): Event
    requires Sendable(m.payload) && idx < FragCount(|m.payload|)
  {
    Arrive(from, SignedPacket(mac, conn, m, idx), NOON, Total(t.inflight))
  }

  /** A history goes on with any event that can happen in its last world. */
  ghost function Then(h: History, e: Event, w: World, reaction: Reaction): History {
    History(h.worlds + [w], h.events + [e], h.reactions + [reaction])
  }

  lemma HistoryGoesOn(mac: Bytes -> Tag, conn: ConnectionId, h: History, e: Event, w: World, reaction: Reaction)
    requires IsHistory(mac, conn, h) && EventOk(mac, conn, h.worlds[|h.events|], e, w, reaction)
    ensures IsHistory(mac, conn, Then(h, e, w, reaction))
  {
    var h' := Then(h, e, w, reaction);
    forall i | 0 <= i < |h'.events| ensures EventAt(mac, conn, h', i) {
      if i < |h.events| {
        assert EventAt(mac, conn, h, i);
      }
    }
  }

  ghost predicate EndsIn(mac: Bytes -> Tag, conn: ConnectionId, h: History, w: World) {
    IsHistory(mac, conn, h) && h.worlds[|h.events|] == w
  }

  lemma BothAreSent(mac: Bytes -> Tag, conn: ConnectionId, id: u32, p: Bytes, q: Bytes) returns (h: History)
    requires Sendable(p) && Sendable(q)
    ensures EndsIn(mac, conn, h, World(Pair(id, p, q), Receiver(EMPTY, map[])))
  {
    var start := History([START], [], []);
    assert IsHistory(mac, conn, start);
    var mp, mq := Message(id, p), Message(id, q);
    var w1, w2 := World({mp}, Receiver(EMPTY, map[])), World(Pair(id, p, q), Receiver(EMPTY, map[]));
    assert START.sent + {mp} == {mp} && {mp} + {mq} == w2.sent;
    HistoryGoesOn(mac, conn, start, Send(mp), w1, Ignored);
    HistoryGoesOn(mac, conn, Then(start, Send(mp), w1, Ignored), Send(mq), w2, Ignored);
    h := Then(Then(start, Send(mp), w1, Ignored), Send(mq), w2, Ignored);
  }

  lemma OneMoreArrives(mac: Bytes -> Tag, conn: ConnectionId, from: SocketAddr, id: u32, p: Bytes, q: Bytes, n: u16, s: set<u16>)
    requires n < FragCount(|p|) == FragCount(|q|) <= MAX_FRAGMENTS_PER_MESSAGE
    ensures var t, m := Waiting(Key(from, id), p, q, n, s), Message(id, Source(p, q, s, n));
      var (t', msg) := Store(t, ArrivalOf(m, n, from), 0);
      EventOk(mac, conn, World(Pair(id, p, q), Receiver(t, map[])), ArriveAt(mac, conn, t, m, n, from),
              World(Pair(id, p, q), Receiver(t', map[])), Acknowledged(msg))
  {
    WaitingRefusesNothing(id, from, p, q, n, s);
    ArrivalHappens(mac, conn, Pair(id, p, q), Waiting(Key(from, id), p, q, n, s), Message(id, Source(p, q, s, n)), n, from);
  }

  /** The world in which both are sent and the first `n` fragments have arrived. */
  ghost function Stage(from: SocketAddr, id: u32, p: Bytes, q: Bytes, n: u16, s: set<u16>): World
    requires FragCount(|p|) == FragCount(|q|) >= n && FragCount(|p|) <= MAX_FRAGMENTS_PER_MESSAGE
  {
    World(Pair(id, p, q), Receiver(Waiting(Key(from, id), p, q, n, s), map[]))
  }

  /** Some event leads from one world to the other. */
  ghost predicate LeadsTo(mac: Bytes -> Tag, conn: ConnectionId, w: World, w': World) {
    exists e: Event, reaction: Reaction :: EventOk(mac, conn, w, e, w', reaction)
  }

  ghost predicate Connected(mac: Bytes -> Tag, conn: ConnectionId, ws: seq<World>) {
    forall k: nat :: k + 1 < |ws| ==> LeadsTo(mac, conn, ws[k], ws[k + 1])
  }

  lemma GoOnTo(mac: Bytes -> Tag, conn: ConnectionId, h: History, w: World, w': World) returns (h': History)
    requires EndsIn(mac, conn, h, w) && LeadsTo(mac, conn, w, w')
    ensures EndsIn(mac, conn, h', w')
  {
    var e: Event, reaction: Reaction :| EventOk(mac, conn, w, e, w', reaction);
    HistoryGoesOn(mac, conn, h, e, w', reaction);
    h' := Then(h, e, w', reaction);
  }

  /** A history can be led along any worlds that events connect. */
  lemma {:induction false} GoOnAlong(mac: Bytes -> Tag, conn: ConnectionId, h: History, ws: seq<World>) returns (h': History)
    requires ws != [] && EndsIn(mac, conn, h, ws[0]) && Connected(mac, conn, ws)
    ensures EndsIn(mac, conn, h', ws[|ws| - 1])
    decreases |ws|
  {
    var k := |ws| - 1;
    if k == 0 {
      h' := h;
    } else {
      var before := GoOnAlong(mac, conn, h, ws[..k]);
      var l: nat := k - 1;
      assert LeadsTo(mac, conn, ws[l], ws[l + 1]);
      h' := GoOnTo(mac, conn, before, ws[l], ws[k]);
    }
  }

  lemma OneMoreWaits(mac: Bytes -> Tag, conn: ConnectionId, from: SocketAddr, id: u32, p: Bytes, q: Bytes, k: u16, s: set<u16>)
    requires k + 1 < FragCount(|p|) == FragCount(|q|) <= MAX_FRAGMENTS_PER_MESSAGE
    ensures LeadsTo(mac, conn, Stage(from, id, p, q, k, s), Stage(from, id, p, q, k + 1, s))
  {
    OneMoreArrives(mac, conn, from, id, p, q, k, s);
    WaitingStores(id, from, p, q, k, s);
    var e := ArriveAt(mac, conn, Waiting(Key(from, id), p, q, k, s), Message(id, Source(p, q, s, k)), k, from);
    assert EventOk(mac, conn, Stage(from, id, p, q, k, s), e, Stage(from, id, p, q, k + 1, s), Acknowledged(None));
  }

  /** The worlds in which none, one, two, ... and `n` fragments have arrived. */
  ghost function Stages(from: SocketAddr, id: u32, p: Bytes, q: Bytes, n: u16, s: set<u16>): (ws: seq<World>)
    requires n < FragCount(|p|) == FragCount(|q|) <= MAX_FRAGMENTS_PER_MESSAGE
    ensures |ws| == n + 1
  {
    seq(n + 1, k requires 0 <= k <= n => Stage(from, id, p, q, k, s))
  }

  lemma StagesConnected(mac: Bytes -> Tag, conn: ConnectionId, from: SocketAddr, id: u32, p: Bytes, q: Bytes, n: u16, s: set<u16>)
    requires n < FragCount(|p|) == FragCount(|q|) <= MAX_FRAGMENTS_PER_MESSAGE
    ensures Connected(mac, conn, Stages(from, id, p, q, n, s))
  {
    var ws := Stages(from, id, p, q, n, s);
    forall k: nat | k + 1 < |ws| ensures LeadsTo(mac, conn, ws[k], ws[k + 1]) {
      OneMoreWaits(mac, conn, from, id, p, q, k, s);
    }
  }

  lemma SomeHaveArrived(mac: Bytes -> Tag, conn: ConnectionId, from: SocketAddr, id: u32, p: Bytes, q: Bytes, n: u16, s: set<u16>)
    returns (h: History)
    requires n < FragCount(|p|) == FragCount(|q|) <= MAX_FRAGMENTS_PER_MESSAGE
    ensures EndsIn(mac, conn, h, Stage(from, id, p, q, n, s))
  {
    var ws := Stages(from, id, p, q, n, s);
    StagesConnected(mac, conn, from, id, p, q, n, s);
    var start := BothAreSent(mac, conn, id, p, q);
    assert ws[0] == World(Pair(id, p, q), Receiver(EMPTY, map[]));
    h := GoOnAlong(mac, conn, start, ws);
  }

  /** Event `i` hands out `msg` on a datagram that names `id` and `cnt`. */
  ghost predicate HandsOut(h: History, i: nat, id: u32, cnt: nat, msg: Bytes) {
    && i < |h.events| && i < |h.reactions| && i < |h.worlds| && h.events[i].Arrive? && h.reactions[i] == Acknowledged(Some(msg))
    && ParseHeader(h.events[i].datagram).Some?
    && ParseHeader(h.events[i].datagram).value.meta.msgId == id && ParseHeader(h.events[i].datagram).value.meta.fragCnt == cnt
  }

  /**
   * Every mixture does occur: for any two payloads of the same number of fragments and any choice of indices there is a
   * history in which both are sent under one id and the fragments so chosen are handed out as one message.
   */
  lemma MixedDelivery(mac: Bytes -> Tag, conn: ConnectionId, from: SocketAddr, id: u32, p: Bytes, q: Bytes, s: set<u16>)
    returns (h: History, i: nat)
    requires FragCount(|p|) == FragCount(|q|) <= MAX_FRAGMENTS_PER_MESSAGE
    ensures var cnt := FragCount(|p|);
      && IsHistory(mac, conn, h) && HandsOut(h, i, id, cnt, Joined(Mixed(p, q, cnt, s), cnt)) && h.worlds[i].sent == Pair(id, p, q)
  {
    var k: u16 := FragCount(|p|) - 1;
    var t, m := Waiting(Key(from, id), p, q, k, s), Message(id, Source(p, q, s, k));
    h := SomeHaveArrived(mac, conn, from, id, p, q, k, s);
    i := |h.events|;
    OneMoreArrives(mac, conn, from, id, p, q, k, s);
    WaitingStores(id, from, p, q, k, s);
    var (t', msg) := Store(t, ArrivalOf(m, k, from), 0);
    var e, w := ArriveAt(mac, conn, t, m, k, from), World(Pair(id, p, q), Receiver(t', map[]));
    HistoryGoesOn(mac, conn, h, e, w, Acknowledged(msg));
    ParseMake(SignedHeader(mac, conn, m, k), Fragment(m.payload, k));
    h := Then(h, e, w, Acknowledged(msg));
  }

  // ---- Exactly when they cannot be mixed

  /** In every history, wherever `p` and `q` are all that was sent under `id` in `cnt` fragments, one of them is handed out. */
  ghost predicate NeverMixed(mac: Bytes -> Tag, conn: ConnectionId, id: u32, cnt: nat, p: Bytes, q: Bytes) {
    forall h: History, i: nat, msg: Bytes ::
      IsHistory(mac, conn, h) && HandsOut(h, i, id, cnt, msg) && OnlyTwo(h.worlds[i].sent, id, cnt, p, q) ==> msg == p || msg == q
  }

  lemma SafeIfDifferOnce(mac: Bytes -> Tag, conn: ConnectionId, id: u32, p: Bytes, q: Bytes, cnt: u16)
    requires FragCount(|p|) == FragCount(|q|) == cnt && DifferOnceAtMost(p, q)
    ensures NeverMixed(mac, conn, id, cnt, p, q)
  {
    forall h: History, i: nat, msg: Bytes
      | IsHistory(mac, conn, h) && HandsOut(h, i, id, cnt, msg) && OnlyTwo(h.worlds[i].sent, id, cnt, p, q)
      ensures msg == p || msg == q
    {
      TransportSafety(mac, conn, h, i);
      MosaicOfTwo(h.worlds[i].sent, id, p, q, cnt, msg);
    }
  }

  lemma MixedOnce(mac: Bytes -> Tag, conn: ConnectionId, id: u32, cnt: nat, p: Bytes, q: Bytes, h: History, i: nat, msg: Bytes)
    requires IsHistory(mac, conn, h) && HandsOut(h, i, id, cnt, msg) && OnlyTwo(h.worlds[i].sent, id, cnt, p, q)
    requires msg != p && msg != q
    ensures !NeverMixed(mac, conn, id, cnt, p, q)
  {
  }

  lemma OnlyTwoOfPair(id: u32, cnt: nat, p: Bytes, q: Bytes)
    requires FragCount(|p|) == FragCount(|q|) == cnt <= MAX_FRAGMENTS_PER_MESSAGE
    ensures OnlyTwo(Pair(id, p, q), id, cnt, p, q)
  {
  }

  lemma UnsafeIfDifferTwice(mac: Bytes -> Tag, conn: ConnectionId, from: SocketAddr, id: u32, p: Bytes, q: Bytes, i: nat, j: nat)
    requires FragCount(|p|) == FragCount(|q|) <= MAX_FRAGMENTS_PER_MESSAGE && i != j && DifferAt(p, q, i) && DifferAt(p, q, j)
    ensures !NeverMixed(mac, conn, id, FragCount(|p|), p, q)
  {
    var cnt := FragCount(|p|);
    var h, k := MixedDelivery(mac, conn, from, id, p, q, {i});
    MixedIsNeither(p, q, cnt, i, j);
    OnlyTwoOfPair(id, cnt, p, q);
    MixedOnce(mac, conn, id, cnt, p, q, h, k, Joined(Mixed(p, q, cnt, {i}), cnt));
  }

  /**
   * Exactly when an id may stand for two payloads of the same number of fragments: in every history nothing but the two
   * is handed out under that id and count if and only if they differ in at most one fragment.
   */
  lemma TwoPayloadsAreSafeIff(mac: Bytes -> Tag, conn: ConnectionId, from: SocketAddr, id: u32, p: Bytes, q: Bytes)
    requires FragCount(|p|) == FragCount(|q|) <= MAX_FRAGMENTS_PER_MESSAGE
    ensures NeverMixed(mac, conn, id, FragCount(|p|), p, q) <==> DifferOnceAtMost(p, q)
  {
    if DifferOnceAtMost(p, q) {
      SafeIfDifferOnce(mac, conn, id, p, q, FragCount(|p|));
    } else {
      var i: nat, j: nat :| DifferAt(p, q, i) && DifferAt(p, q, j) && i != j;
      UnsafeIfDifferTwice(mac, conn, from, id, p, q, i, j);
    }
  }

  /** Two such payloads: 1147 zeros and 1147 ones. */
  lemma SuchPayloads() returns (p: Bytes, q: Bytes)
    ensures FragCount(|p|) == FragCount(|q|) == 2 && DifferAt(p, q, 0) && DifferAt(p, q, 1)
  {
    p, q := seq(1147, _ => 0), seq(1147, _ => 1);
    assert Fragment(p, 0)[0] == 0 && Fragment(q, 0)[0] == 1;
    assert Fragment(p, 1)[0] == 0 && Fragment(q, 1)[0] == 1;
  }
}
