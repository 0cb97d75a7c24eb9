/**
 * Senders, network and receiver together. Both ends of a connection sign under one key and choose their own message
 * ids. The network may lose, duplicate, reorder, delay, redirect, reflect and invent datagrams; the one thing it
 * cannot do is produce a valid tag for bytes that nobody signed.
 */
module Transport {
  import opened Words
  import opened Options
  import opened Net
  import opened Packet
  import opened Fragmentation
  import opened Reassembly
  import opened Delivery
  import opened BanTable
  import opened ReassemblyStates

  datatype Receiver = Receiver(table: Table, sources: Sources)

  /** The clock readings one datagram causes, in order, and the wall-clock seconds its age is judged by. */
  datatype Clocks = Clocks(askFirst: nat, askSecond: nat, wall: u64, first: nat, second: nat, blameFirst: nat, blameSecond: nat)

  ghost predicate Ordered(c: Clocks) {
    c.askFirst <= c.askSecond <= c.first <= c.second <= c.blameFirst <= c.blameSecond
  }

  datatype Reaction = Ignored | Blamed | Acknowledged(message: Option<Bytes>)

  ghost function Blame(r: Receiver, from: SocketAddr, first: nat, second: nat): Receiver {
    Receiver(Pruned(r.table, first), BanTable.After(r.sources, Record(from.ip, first, second)))
  }

  /** The fragment a datagram carries if its header parses, it is no ack, and it validates. */
  function Admissible(mac: Bytes -> Tag, conn: ConnectionId, datagram: Bytes, from: SocketAddr, wall: u64): Option<Arrival> {
    var h := ParseHeader(datagram);
    if h == None || IsAck(h.value.meta.flags) then None
    else if ValidateFragment(mac, conn, h.value, datagram[HEADER_LEN..], wall).Some? then None
    else
      var m := h.value.meta;
      Some(Arrival(Key(from, m.msgId), m.fragIdx, m.fragCnt, datagram[HEADER_LEN..]))
  }

  /** What a receiver makes of a header with a payload behind it. */
  lemma AdmissibleMade(mac: Bytes -> Tag, conn: ConnectionId, h: Header, payload: Bytes, from: SocketAddr, wall: u64)
    requires !IsAck(h.meta.flags)
    ensures Admissible(mac, conn, MakeHeader(h) + payload, from, wall)
         == if ValidateFragment(mac, conn, h, payload, wall).Some? then None
            else Some(Arrival(Key(from, h.meta.msgId), h.meta.fragIdx, h.meta.fragCnt, payload))
  {
    ParseMake(h, payload);
    assert (MakeHeader(h) + payload)[HEADER_LEN..] == payload;
  }

  ghost function Held(r: Receiver, c: Clocks): nat { Total(Pruned(Pruned(r.table, c.askFirst), c.first).inflight) }

  /** One turn of the receive loop. */
  ghost function Receive(mac: Bytes -> Tag, conn: ConnectionId, r: Receiver, from: SocketAddr, datagram: Bytes, c: Clocks, held: nat)
    : (Receiver, Reaction)
  {
    var r1 := Receiver(Pruned(r.table, c.askFirst), BanTable.After(r.sources, Ask(from.ip, c.askFirst, c.askSecond)));
    var h := ParseHeader(datagram);
    var a := Admissible(mac, conn, datagram, from, c.wall);
    if Answer(r.sources, Ask(from.ip, c.askFirst, c.askSecond)) then (r1, Ignored)
    else if h.Some? && IsAck(h.value.meta.flags) then (r1, Ignored)
    else if a == None then (Blame(r1, from, c.blameFirst, c.blameSecond), Blamed)
    else
      var (t, out) := Accept(r1.table, a.value, held, c.first, c.second);
      var r2 := Receiver(t, PrunedSources(r1.sources, c.first));
      if out.Rejected? then (Blame(r2, from, c.blameFirst, c.blameSecond), Blamed)
      else (r2, Acknowledged(out.message))
  }

  ghost function View(s: ReassemblyState): Receiver
    reads s
  {
    Receiver(s.Table(), s.sourceState)
  }

  method ReceiveDatagram(mac: Bytes -> Tag, conn: ConnectionId, s: ReassemblyState, from: SocketAddr, datagram: Bytes, c: Clocks)
    returns (out: Reaction)
    requires s.Valid() && s.clock <= c.askFirst && Ordered(c)
    modifies s
    ensures s.Valid() && s.clock <= c.blameSecond
    ensures (View(s), out) == Receive(mac, conn, old(View(s)), from, datagram, c, Held(old(View(s)), c))
  {
    var banned := s.IsSourceBanned(from, c.askFirst, c.askSecond);
    if banned {
      return Ignored;
    }
    var h := ParseHeader(datagram);
    if h == None {
      s.RecordInvalidSource(from, c.blameFirst, c.blameSecond);
      return Blamed;
    }
    var m := h.value.meta;
    if IsAck(m.flags) {
      return Ignored;
    }
    var payload := datagram[HEADER_LEN..];
    if ValidateFragment(mac, conn, h.value, payload, c.wall).Some? {
      s.RecordInvalidSource(from, c.blameFirst, c.blameSecond);
      return Blamed;
    }
    var r := s.AcceptFragment(Arrival(Key(from, m.msgId), m.fragIdx, m.fragCnt, payload), c.first, c.second);
    if r.Rejected? {
      s.RecordInvalidSource(from, c.blameFirst, c.blameSecond);
      return Blamed;
    }
    out := Acknowledged(r.message);
  }

  /** On the reassembler a datagram is a pruning, then perhaps a fragment, then perhaps another pruning. */
  lemma ReceiveIsOperations(mac: Bytes -> Tag, conn: ConnectionId, r: Receiver, from: SocketAddr, datagram: Bytes, c: Clocks, held: nat)
    ensures var (r', out) := Receive(mac, conn, r, from, datagram, c, held);
      var t1 := Next(r.table, PruneOp(c.askFirst));
      var a := Admissible(mac, conn, datagram, from, c.wall);
      if out == Ignored then r'.table == t1
      else if a == None then out == Blamed && r'.table == Next(t1, PruneOp(c.blameFirst))
      else
        var op := AcceptOp(a.value, held, c.first, c.second);
        if out == Blamed then r'.table == Next(Next(t1, op), PruneOp(c.blameFirst))
        else r'.table == Next(t1, op) && out == Acknowledged(Output(t1, op))
  {
  }

  // ---- Safety end to end

  /** A message signed under the connection's key, by either end. */
  datatype Message = Message(id: u32, payload: Bytes)

  type Sent = set<Message>

  /** The bytes authenticated for fragment `idx` of a message. */
  ghost predicate SignedFragment(conn: ConnectionId, sent: Sent, input: Bytes, m: Message, idx: u16, ts: u64) {
    && m in sent && Sendable(m.payload) && idx < FragCount(|m.payload|)
    && input == UdpMacInput(conn, Meta(0, m.id, idx, FragCount(|m.payload|), ts), Fragment(m.payload, idx))
  }

  ghost predicate SignedAck(conn: ConnectionId, input: Bytes, id: u32, ts: u64) {
    input == UdpMacInput(conn, Meta(1, id, 0, 0, ts), [])
  }

  ghost predicate Signed(conn: ConnectionId, sent: Sent, input: Bytes) {
    (exists m: Message, idx: u16, ts: u64 :: SignedFragment(conn, sent, input, m, idx, ts))
    || (exists id: u32, ts: u64 :: SignedAck(conn, input, id, ts))
  }

  /** What is assumed of the network: a datagram with a valid tag carries bytes that were signed. */
  ghost predicate Unforged(mac: Bytes -> Tag, conn: ConnectionId, sent: Sent, datagram: Bytes) {
    var h := ParseHeader(datagram);
    h.Some? && h.value.tag == mac(UdpMacInput(conn, h.value.meta, datagram[HEADER_LEN..]))
    ==> Signed(conn, sent, UdpMacInput(conn, h.value.meta, datagram[HEADER_LEN..]))
  }

  /** `p` was sent under `id` in `cnt` fragments. */
  ghost predicate SentIn(sent: Sent, id: u32, cnt: nat, p: Bytes) { Message(id, p) in sent && FragCount(|p|) == cnt }

  ghost predicate SliceOf(sent: Sent, id: u32, cnt: u16, idx: u16, part: Bytes, p: Bytes) {
    idx < cnt && SentIn(sent, id, cnt, p) && part == Fragment(p, idx)
  }

  /** `part` is the slice at `idx` of some payload sent under `id` in `cnt` fragments. */
  ghost predicate Slice(sent: Sent, id: u32, cnt: u16, idx: u16, part: Bytes) {
    exists p: Bytes :: SliceOf(sent, id, cnt, idx, part, p)
  }

  ghost predicate Genuine(a: Arrival, sent: Sent) { Slice(sent, a.key.msgId, a.cnt, a.idx, a.payload) }

  /** Whatever passes validation is a slice of a sent payload, from whatever address it came. */
  lemma AdmissibleIsGenuine(mac: Bytes -> Tag, conn: ConnectionId, sent: Sent, datagram: Bytes, from: SocketAddr, wall: u64)
    requires Unforged(mac, conn, sent, datagram)
    requires Admissible(mac, conn, datagram, from, wall).Some?
    ensures Genuine(Admissible(mac, conn, datagram, from, wall).value, sent)
  {
    var h := ParseHeader(datagram).value;
    var payload := datagram[HEADER_LEN..];
    var input := UdpMacInput(conn, h.meta, payload);
    if id: u32, ts: u64 :| SignedAck(conn, input, id, ts) {
      UdpMacInputInjective(conn, h.meta, payload, conn, Meta(1, id, 0, 0, ts), []);
      assert false;
    } else {
      var m: Message, idx: u16, ts: u64 :| SignedFragment(conn, sent, input, m, idx, ts);
      UdpMacInputInjective(conn, h.meta, payload, conn, Meta(0, m.id, idx, FragCount(|m.payload|), ts), Fragment(m.payload, idx));
      assert SliceOf(sent, m.id, h.meta.fragCnt, idx, payload, m.payload);
    }
  }

  /** Every part is a slice, at its own index, of a payload sent under `id` in `cnt` fragments. */
  ghost predicate Slices(sent: Sent, id: u32, cnt: u16, parts: map<u16, Bytes>) {
    forall i: u16 :: i in parts ==> Slice(sent, id, cnt, i, parts[i])
  }

  ghost predicate AllFaithful(t: Table, sent: Sent) {
    forall k :: k in t.inflight ==> Slices(sent, k.msgId, t.inflight[k].fragCnt, t.inflight[k].parts)
  }

  ghost predicate MosaicOf(sent: Sent, id: u32, cnt: u16, msg: Bytes, parts: map<u16, Bytes>) {
    Full(parts, cnt) && Slices(sent, id, cnt, parts) && msg == Joined(parts, cnt)
  }

  /** `msg` is put together from slices of payloads sent under `id` in `cnt` fragments. */
  ghost predicate Mosaic(sent: Sent, id: u32, cnt: u16, msg: Bytes) {
    exists parts: map<u16, Bytes> :: MosaicOf(sent, id, cnt, msg, parts)
  }

  lemma ExtendedFaithful(t: Table, a: Arrival, now: nat, held: nat, sent: Sent)
    requires AllFaithful(t, sent) && Genuine(a, sent) && Refusal(t, a, held) == None && !Duplicate(t, a)
    ensures var m := Extended(t, a, now); m.fragCnt == a.cnt && Slices(sent, a.key.msgId, m.fragCnt, m.parts)
  {
    var m := Extended(t, a, now);
    forall i: u16 | i in m.parts ensures Slice(sent, a.key.msgId, m.fragCnt, i, m.parts[i]) {
      if i != a.idx {
        assert i in t.inflight[a.key].parts;
      }
    }
  }

  lemma AcceptFaithful(t: Table, a: Arrival, held: nat, pruneAt: nat, now: nat, sent: Sent)
    requires AllFaithful(t, sent) && Genuine(a, sent)
    ensures var (t', out) := Accept(t, a, held, pruneAt, now);
      AllFaithful(t', sent) && (out.Accepted? && out.message.Some? ==> Mosaic(sent, a.key.msgId, a.cnt, out.message.value))
  {
    var p := Pruned(t, pruneAt);
    assert AllFaithful(p, sent);
    if Refusal(p, a, held) == None && !Duplicate(p, a) {
      ExtendedFaithful(p, a, now, held, sent);
      var m := Extended(p, a, now);
      if Complete(m) {
        assert MosaicOf(sent, a.key.msgId, a.cnt, Joined(m.parts, m.fragCnt), m.parts);
      }
    }
  }

  lemma ReceiveFaithful(mac: Bytes -> Tag, conn: ConnectionId, r: Receiver, from: SocketAddr, datagram: Bytes, c: Clocks, held: nat, sent: Sent)
    requires AllFaithful(r.table, sent) && Unforged(mac, conn, sent, datagram)
    ensures var (r', out) := Receive(mac, conn, r, from, datagram, c, held);
      && AllFaithful(r'.table, sent)
      && (out.Acknowledged? && out.message.Some? ==>
            ParseHeader(datagram).Some? &&
            var m := ParseHeader(datagram).value.meta; m.fragCnt > 0 && Mosaic(sent, m.msgId, m.fragCnt, out.message.value))
  {
    var t := Pruned(r.table, c.askFirst);
    assert AllFaithful(t, sent);
    var a := Admissible(mac, conn, datagram, from, c.wall);
    if a.Some? {
      AdmissibleIsGenuine(mac, conn, sent, datagram, from, c.wall);
      AcceptFaithful(t, a.value, held, c.first, c.second, sent);
    }
  }

  datatype World = World(sent: Sent, receiver: Receiver)

  datatype Event =
    | Send(message: Message)
    | Arrive(from: SocketAddr, datagram: Bytes, clocks: Clocks, held: nat)

  /** A history: `events[i]` takes `worlds[i]` to `worlds[i + 1]` and the receiver reacts with `reactions[i]`. */
  datatype History = History(worlds: seq<World>, events: seq<Event>, reactions: seq<Reaction>)

  ghost predicate EventOk(mac: Bytes -> Tag, conn: ConnectionId, w: World, e: Event, w': World, reaction: Reaction) {
    match e
    case Send(m) =>
      Sendable(m.payload) && w' == w.(sent := w.sent + {m}) && reaction == Ignored
    case Arrive(from, datagram, c, held) =>
      && Unforged(mac, conn, w.sent, datagram)
      && (w'.receiver, reaction) == Receive(mac, conn, w.receiver, from, datagram, c, held)
      && w'.sent == w.sent
  }

  ghost predicate EventAt(mac: Bytes -> Tag, conn: ConnectionId, h: History, i: nat)
    requires i < |h.events| == |h.reactions| && |h.worlds| == |h.events| + 1
  {
    EventOk(mac, conn, h.worlds[i], h.events[i], h.worlds[i + 1], h.reactions[i])
  }

  const START := World({}, Receiver(EMPTY, map[]))

  ghost predicate IsHistory(mac: Bytes -> Tag, conn: ConnectionId, h: History) {
    && |h.worlds| == |h.events| + 1 == |h.reactions| + 1
    && h.worlds[0] == START
    && (forall i :: 0 <= i < |h.events| ==> EventAt(mac, conn, h, i))
  }

  lemma SlicesOfMore(sent: Sent, m: Message, id: u32, cnt: u16, parts: map<u16, Bytes>)
    requires Slices(sent, id, cnt, parts)
    ensures Slices(sent + {m}, id, cnt, parts)
  {
    forall i: u16 | i in parts ensures Slice(sent + {m}, id, cnt, i, parts[i]) {
      var p :| SliceOf(sent, id, cnt, i, parts[i], p);
      assert SliceOf(sent + {m}, id, cnt, i, parts[i], p);
    }
  }

  lemma SendFaithful(t: Table, sent: Sent, m: Message)
    requires AllFaithful(t, sent)
    ensures AllFaithful(t, sent + {m})
  {
    forall k | k in t.inflight ensures Slices(sent + {m}, k.msgId, t.inflight[k].fragCnt, t.inflight[k].parts) {
      SlicesOfMore(sent, m, k.msgId, t.inflight[k].fragCnt, t.inflight[k].parts);
    }
  }

  lemma EventFaithful(mac: Bytes -> Tag, conn: ConnectionId, w: World, e: Event, w': World, reaction: Reaction)
    requires AllFaithful(w.receiver.table, w.sent) && EventOk(mac, conn, w, e, w', reaction)
    ensures AllFaithful(w'.receiver.table, w'.sent)
  {
    match e
    case Send(m) =>
      SendFaithful(w.receiver.table, w.sent, m);
    case Arrive(from, datagram, c, held) =>
      ReceiveFaithful(mac, conn, w.receiver, from, datagram, c, held, w.sent);
  }

  lemma StepFaithful(mac: Bytes -> Tag, conn: ConnectionId, h: History, i: nat)
    requires IsHistory(mac, conn, h) && i < |h.events| && AllFaithful(h.worlds[i].receiver.table, h.worlds[i].sent)
    ensures AllFaithful(h.worlds[i + 1].receiver.table, h.worlds[i + 1].sent)
  {
    assert EventAt(mac, conn, h, i);
    EventFaithful(mac, conn, h.worlds[i], h.events[i], h.worlds[i + 1], h.reactions[i]);
  }

  lemma {:induction false} AlwaysFaithful(mac: Bytes -> Tag, conn: ConnectionId, h: History, i: nat)
    requires IsHistory(mac, conn, h) && i <= |h.events|
    ensures AllFaithful(h.worlds[i].receiver.table, h.worlds[i].sent)
  {
    if i > 0 {
      AlwaysFaithful(mac, conn, h, i - 1);
      StepFaithful(mac, conn, h, i - 1);
    }
  }

  /** The only payload sent under `id` in `cnt` fragments. */
  ghost predicate Only(sent: Sent, id: u32, cnt: u16, p: Bytes) {
    SentIn(sent, id, cnt, p) && forall q: Bytes :: SentIn(sent, id, cnt, q) ==> q == p
  }

  /** Where an id has one payload of a count, it can only be put together to that payload. */
  lemma MosaicOfOne(sent: Sent, id: u32, cnt: u16, msg: Bytes, p: Bytes)
    requires Mosaic(sent, id, cnt, msg) && Only(sent, id, cnt, p)
    ensures msg == p
  {
    var parts :| MosaicOf(sent, id, cnt, msg, parts);
    forall i: u16 | i in parts ensures i < cnt && parts[i] == Fragment(p, i) {
      var q :| SliceOf(sent, id, cnt, i, parts[i], q);
      assert SentIn(sent, id, cnt, q);
    }
    FragmentsTile(parts, cnt, p);
  }

  /**
   * End-to-end safety: in every history, with any interleaving of sends from either end and deliveries, losses,
   * duplicates, expiries, bans and refusals, a message handed out for an id is put together, slice by slice, from
   * payloads sent under that id in that number of fragments. Where there is only one such payload it is that payload.
   */
  lemma TransportSafety(mac: Bytes -> Tag, conn: ConnectionId, h: History, i: nat)
    requires IsHistory(mac, conn, h) && i < |h.events|
    requires h.reactions[i].Acknowledged? && h.reactions[i].message.Some?
    ensures h.events[i].Arrive? && ParseHeader(h.events[i].datagram).Some?
    ensures var m := ParseHeader(h.events[i].datagram).value.meta;
      && m.fragCnt > 0 && Mosaic(h.worlds[i].sent, m.msgId, m.fragCnt, h.reactions[i].message.value)
      && forall p: Bytes :: Only(h.worlds[i].sent, m.msgId, m.fragCnt, p) ==> h.reactions[i].message.value == p
  {
    assert EventAt(mac, conn, h, i);
    AlwaysFaithful(mac, conn, h, i);
    var w, e := h.worlds[i], h.events[i];
    ReceiveFaithful(mac, conn, w.receiver, e.from, e.datagram, e.clocks, e.held, w.sent);
    var m := ParseHeader(e.datagram).value.meta;
    forall p: Bytes | Only(w.sent, m.msgId, m.fragCnt, p) ensures h.reactions[i].message.value == p {
      MosaicOfOne(w.sent, m.msgId, m.fragCnt, h.reactions[i].message.value, p);
    }
  }

  /** No id stands for two payloads. */
  ghost predicate DistinctIds(sent: Sent) { forall a, b :: a in sent && b in sent && a.id == b.id ==> a == b }

  lemma MosaicOfDistinct(sent: Sent, id: u32, cnt: u16, msg: Bytes)
    requires Mosaic(sent, id, cnt, msg) && cnt > 0 && DistinctIds(sent)
    ensures Message(id, msg) in sent
  {
    var parts :| MosaicOf(sent, id, cnt, msg, parts);
    var p :| SliceOf(sent, id, cnt, 0, parts[0], p);
    forall q: Bytes | SentIn(sent, id, cnt, q) ensures q == p {
      assert Message(id, p) in sent && Message(id, q) in sent;
    }
    MosaicOfOne(sent, id, cnt, msg, p);
  }

  /** Where no two messages share an id, a message handed out for an id is exactly the payload sent under it. */
  lemma DistinctIdsAreSafe(mac: Bytes -> Tag, conn: ConnectionId, h: History, i: nat)
    requires IsHistory(mac, conn, h) && i < |h.events| && DistinctIds(h.worlds[i].sent)
    requires h.reactions[i].Acknowledged? && h.reactions[i].message.Some?
    ensures h.events[i].Arrive? && ParseHeader(h.events[i].datagram).Some?
    ensures Message(ParseHeader(h.events[i].datagram).value.meta.msgId, h.reactions[i].message.value) in h.worlds[i].sent
  {
    TransportSafety(mac, conn, h, i);
    var m := ParseHeader(h.events[i].datagram).value.meta;
    MosaicOfDistinct(h.worlds[i].sent, m.msgId, m.fragCnt, h.reactions[i].message.value);
  }
}
