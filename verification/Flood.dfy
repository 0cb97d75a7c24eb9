/**
 * What invalid traffic does to the address it comes from, over whole histories of the receive loop: a datagram that is
 * blamed is counted against its address and no other is, 64 of them within 10 s silence the address for 60 s, and
 * nothing else does.
 */
module Flood {
  import opened Words
  import opened Options
  import opened Net
  import opened Packet
  import opened Reassembly
  import opened BanTable
  import opened BanCounting
  import opened Transport

  // ---- What the loop makes of one datagram

  /** Unreadable, a fragment that does not validate, or one the reassembler turns away. */
  ghost predicate Bad(mac: Bytes -> Tag, conn: ConnectionId, r: Receiver, e: Event)
    requires e.Arrive?
  {
    var h, c := ParseHeader(e.datagram), e.clocks;
    || h == None
    || (&& !IsAck(h.value.meta.flags)
        && (var payload, m := e.datagram[HEADER_LEN..], h.value.meta;
            || ValidateFragment(mac, conn, h.value, payload, c.wall).Some?
            || Accept(Pruned(r.table, c.askFirst), Arrival(Key(e.from, m.msgId), m.fragIdx, m.fragCnt, payload), e.held, c.first, c.second).1.Rejected?))
  }

  ghost predicate CarriesAck(e: Event)
    requires e.Arrive?
  {
    ParseHeader(e.datagram).Some? && IsAck(ParseHeader(e.datagram).value.meta.flags)
  }

  ghost predicate Banned(r: Receiver, e: Event)
    requires e.Arrive?
  {
    e.from.ip in r.sources && r.sources[e.from.ip].bannedUntil.Some? && r.sources[e.from.ip].bannedUntil.value > e.clocks.askSecond
  }

  /** Entries may be dropped, but none is added or changed. */
  ghost predicate Forgets(m: Sources, m': Sources) { forall ip :: ip in m' ==> ip in m && m'[ip] == m[ip] }

  /**
   * The three reactions, exactly: a datagram is ignored if its address is banned or it carries an acknowledgement,
   * blamed if it is bad and neither of the two, and otherwise acknowledged. Only a blamed datagram is counted.
   */
  lemma ReactsExactly(mac: Bytes -> Tag, conn: ConnectionId, w: World, e: Event, w': World, reaction: Reaction)
    requires e.Arrive? && Ordered(e.clocks) && EventOk(mac, conn, w, e, w', reaction)
    ensures reaction == Ignored <==> Banned(w.receiver, e) || CarriesAck(e)
    ensures reaction == Blamed <==> !Banned(w.receiver, e) && Bad(mac, conn, w.receiver, e)
    ensures reaction == Ignored ==> w'.receiver.table == Pruned(w.receiver.table, e.clocks.askFirst)
    ensures reaction != Blamed ==> Forgets(w.receiver.sources, w'.receiver.sources)
  {
  }

  // ---- The calls a history makes to the table of addresses

  /** Whether a datagram that is not ignored is handed to the reassembler, which prunes the table too. */
  ghost function Looker(mac: Bytes -> Tag, conn: ConnectionId): Event -> bool {
    (e: Event) => e.Arrive? && Admissible(mac, conn, e.datagram, e.from, e.clocks.wall).Some?
  }

  ghost function CallsAt(look: Event -> bool, e: Event, reaction: Reaction): seq<Call> {
    if e.Send? then []
    else
      var c, ip := e.clocks, e.from.ip;
      [Ask(ip, c.askFirst, c.askSecond)]
      + (if reaction != Ignored && look(e) then [Ask(ip, c.first, c.first)] else [])
      + (if reaction == Blamed then [Record(ip, c.blameFirst, c.blameSecond)] else [])
  }

  lemma StateAfterTwo(m: Sources, a: Call, b: Call)
    ensures StateAfter(m, [a] + [b]) == After(After(m, a), b)
  {
    StateAfterConcat(m, [a], [b]);
    StateAfterOne(m, a);
    StateAfterOne(After(m, a), b);
  }

  lemma StateAfterThree(m: Sources, a: Call, b: Call, c: Call)
    ensures StateAfter(m, [a] + [b] + [c]) == After(After(After(m, a), b), c)
  {
    StateAfterTwo(m, a, b);
    StateAfterConcat(m, [a] + [b], [c]);
    StateAfterOne(After(After(m, a), b), c);
  }

  lemma EventCalls(mac: Bytes -> Tag, conn: ConnectionId, w: World, e: Event, w': World, reaction: Reaction)
    requires EventOk(mac, conn, w, e, w', reaction)
    ensures w'.receiver.sources == StateAfter(w.receiver.sources, CallsAt(Looker(mac, conn), e, reaction))
  {
    if e.Arrive? {
      var c, ip, m := e.clocks, e.from.ip, w.receiver.sources;
      var ask, look, blame := Ask(ip, c.askFirst, c.askSecond), Ask(ip, c.first, c.first), Record(ip, c.blameFirst, c.blameSecond);
      StateAfterOne(m, ask);
      StateAfterTwo(m, ask, look);
      StateAfterTwo(m, ask, blame);
      StateAfterThree(m, ask, look, blame);
      assert [ask] + [] + [] == [ask] && [ask] + [look] + [] == [ask] + [look] && [ask] + [] + [blame] == [ask] + [blame];
    }
  }

  /** A log of calls, some for each event, and the table between the events. */
  ghost predicate Follows(ss: seq<Sources>, log: seq<seq<Call>>) {
    |ss| == |log| + 1 && forall i :: 0 <= i < |log| ==> ss[i + 1] == StateAfter(ss[i], log[i])
  }

  /** The calls of events `a` up to `b`. */
  ghost function Calls(log: seq<seq<Call>>, a: nat, b: nat): seq<Call>
    requires a <= b <= |log|
  {
    if a == b then [] else Calls(log, a, b - 1) + log[b - 1]
  }

  lemma {:induction false} CallsLead(ss: seq<Sources>, log: seq<seq<Call>>, a: nat, b: nat)
    requires Follows(ss, log) && a <= b <= |log|
    ensures ss[b] == StateAfter(ss[a], Calls(log, a, b))
    decreases b
  {
    if a < b {
      CallsLead(ss, log, a, b - 1);
      StateAfterConcat(ss[a], Calls(log, a, b - 1), log[b - 1]);
    }
  }

  ghost predicate IsLog(look: Event -> bool, h: History, log: seq<seq<Call>>) {
    && |log| == |h.events| == |h.reactions|
    && forall i :: 0 <= i < |log| ==> log[i] == CallsAt(look, h.events[i], h.reactions[i])
  }

  ghost predicate AreSources(h: History, ss: seq<Sources>) {
    |ss| == |h.worlds| && forall i :: 0 <= i < |ss| ==> ss[i] == h.worlds[i].receiver.sources
  }

  lemma CallsLeadOn(mac: Bytes -> Tag, conn: ConnectionId, h: History, i: nat)
    requires IsHistory(mac, conn, h) && i < |h.events|
    ensures h.worlds[i + 1].receiver.sources == StateAfter(h.worlds[i].receiver.sources, CallsAt(Looker(mac, conn), h.events[i], h.reactions[i]))
  {
    assert EventAt(mac, conn, h, i);
    EventCalls(mac, conn, h.worlds[i], h.events[i], h.worlds[i + 1], h.reactions[i]);
  }

  lemma HistoryFollows(mac: Bytes -> Tag, conn: ConnectionId, h: History, ss: seq<Sources>, log: seq<seq<Call>>)
    requires IsHistory(mac, conn, h) && IsLog(Looker(mac, conn), h, log) && AreSources(h, ss)
    ensures Follows(ss, log)
  {
    forall i | 0 <= i < |log| ensures ss[i + 1] == StateAfter(ss[i], log[i]) {
      CallsLeadOn(mac, conn, h, i);
    }
  }

  // ---- Clocks

  /** The readings of each event come after those of the events before; `times[i]` lies between events `i - 1` and `i`. */
  ghost predicate Timed(h: History, times: seq<nat>) {
    && |times| == |h.events| + 1
    && forall i :: 0 <= i < |h.events| ==> TimedAt(h.events[i], times[i], times[i + 1])
  }

  ghost predicate TimedAt(e: Event, before: nat, after: nat) {
    if e.Send? then before <= after
    else before <= e.clocks.askFirst && Ordered(e.clocks) && e.clocks.blameSecond <= after
  }

  /** All calls lie between two times. */
  ghost predicate Within(cs: seq<Call>, lo: nat, hi: nat) {
    forall k :: 0 <= k < |cs| ==> lo <= cs[k].first <= cs[k].second <= hi
  }

  lemma {:induction false} ClockedConcat(cs: seq<Call>, ds: seq<Call>, now: nat, mid: nat)
    requires Clocked(cs, now) && now <= mid && Within(cs, now, mid) && Clocked(ds, mid)
    ensures Clocked(cs + ds, now)
    decreases |cs|
  {
    if cs == [] {
      assert cs + ds == ds;
      ClockedEarlier(ds, mid, now);
    } else {
      forall k | 0 <= k < |cs[1..]| ensures cs[0].second <= cs[1..][k].first {
        ClockedUpTo(cs[1..], cs[0].second, k);
      }
      ClockedConcat(cs[1..], ds, cs[0].second, mid);
      assert (cs + ds)[1..] == cs[1..] + ds;
    }
  }

  lemma ClockedEarlier(cs: seq<Call>, now: nat, before: nat)
    requires Clocked(cs, now) && before <= now
    ensures Clocked(cs, before)
  {
  }

  ghost predicate TimedLog(log: seq<seq<Call>>, times: seq<nat>) {
    |times| == |log| + 1 && forall i :: 0 <= i < |log| ==> LogTimedAt(log[i], times[i], times[i + 1])
  }

  ghost predicate LogTimedAt(cs: seq<Call>, before: nat, after: nat) {
    before <= after && Clocked(cs, before) && Within(cs, before, after)
  }

  lemma {:induction false} TimesGrow(log: seq<seq<Call>>, times: seq<nat>, a: nat, b: nat)
    requires TimedLog(log, times) && a <= b < |times|
    ensures times[a] <= times[b]
  {
    if a < b {
      TimesGrow(log, times, a, b - 1);
      assert LogTimedAt(log[b - 1], times[b - 1], times[b]);
    }
  }

  lemma {:induction false} CallsClocked(log: seq<seq<Call>>, times: seq<nat>, a: nat, b: nat)
    requires TimedLog(log, times) && a <= b <= |log|
    ensures var cs := Calls(log, a, b); Clocked(cs, times[a]) && Within(cs, times[a], times[b])
    decreases b
  {
    if a < b {
      var k: nat := b - 1;
      CallsClocked(log, times, a, k);
      TimesGrow(log, times, a, k);
      assert LogTimedAt(log[k], times[k], times[b]);
      ClockedOn(Calls(log, a, k), log[k], times[a], times[k], times[b]);
    }
  }

  lemma ClockedOn(cs: seq<Call>, ds: seq<Call>, lo: nat, mid: nat, hi: nat)
    requires Clocked(cs, lo) && Within(cs, lo, mid) && Clocked(ds, mid) && Within(ds, mid, hi) && lo <= mid <= hi
    ensures Clocked(cs + ds, lo) && Within(cs + ds, lo, hi)
  {
    ClockedConcat(cs, ds, lo, mid);
  }

  lemma ClockedThree(a: Call, b: Call, c: Call, now: nat)
    requires now <= a.first <= a.second <= b.first <= b.second <= c.first <= c.second
    ensures Clocked([a], now) && Clocked([a] + [b], now) && Clocked([a] + [b] + [c], now)
  {
    assert [a][1..] == [] && ([a] + [b])[1..] == [b] && [b][1..] == [] && ([a] + [b] + [c])[1..] == [b] + [c];
    assert ([b] + [c])[1..] == [c] && [c][1..] == [];
    assert Clocked([c], b.second) && Clocked([b] + [c], a.second) && Clocked([b], a.second);
  }

  lemma CallsAtClocked(look: Event -> bool, e: Event, reaction: Reaction, before: nat, after: nat)
    requires TimedAt(e, before, after)
    ensures var cs := CallsAt(look, e, reaction); Clocked(cs, before) && Within(cs, before, after)
  {
    if e.Arrive? {
      var c, ip := e.clocks, e.from.ip;
      var ask, look, blame := Ask(ip, c.askFirst, c.askSecond), Ask(ip, c.first, c.first), Record(ip, c.blameFirst, c.blameSecond);
      ClockedThree(ask, look, blame, before);
      ClockedThree(ask, blame, blame.(first := blame.second), before);
      assert [ask] + [] + [] == [ask] && [ask] + [look] + [] == [ask] + [look] && [ask] + [] + [blame] == [ask] + [blame];
    }
  }

  lemma HistoryIsTimed(look: Event -> bool, h: History, times: seq<nat>, log: seq<seq<Call>>)
    requires IsLog(look, h, log) && Timed(h, times)
    ensures TimedLog(log, times)
  {
    forall i | 0 <= i < |log| ensures LogTimedAt(log[i], times[i], times[i + 1]) {
      assert TimedAt(h.events[i], times[i], times[i + 1]);
      CallsAtClocked(look, h.events[i], h.reactions[i], times[i], times[i + 1]);
    }
  }

  /** Every history has its log and its tables. */
  lemma Logged(mac: Bytes -> Tag, conn: ConnectionId, h: History, times: seq<nat>) returns (ss: seq<Sources>, log: seq<seq<Call>>)
    requires IsHistory(mac, conn, h) && Timed(h, times)
    ensures IsLog(Looker(mac, conn), h, log) && AreSources(h, ss) && Follows(ss, log) && TimedLog(log, times)
  {
    ss := seq(|h.worlds|, i requires 0 <= i < |h.worlds| => h.worlds[i].receiver.sources);
    log := seq(|h.events|, i requires 0 <= i < |h.events| => CallsAt(Looker(mac, conn), h.events[i], h.reactions[i]));
    HistoryIsTimed(Looker(mac, conn), h, times, log);
    HistoryFollows(mac, conn, h, ss, log);
  }

  // ---- Blamed datagrams are the records

  ghost predicate BlamedAt(h: History, i: nat, ip: IpAddr) {
    i < |h.events| && i < |h.reactions| && h.events[i].Arrive? && h.events[i].from.ip == ip && h.reactions[i] == Blamed
  }

  /** How many datagrams of an address are blamed by events `a` up to `b`. */
  ghost function Blames(h: History, ip: IpAddr, a: nat, b: nat): nat
    requires a <= b
  {
    if a == b then 0 else Blames(h, ip, a, b - 1) + if BlamedAt(h, b - 1, ip) then 1 else 0
  }

  lemma EventRecords(look: Event -> bool, e: Event, reaction: Reaction, ip: IpAddr)
    ensures Records(CallsAt(look, e, reaction), ip) == if e.Arrive? && e.from.ip == ip && reaction == Blamed then 1 else 0
  {
    if e.Arrive? {
      var c := e.clocks;
      var ask := [Ask(e.from.ip, c.askFirst, c.askSecond)];
      var look := if reaction != Ignored && look(e) then [Ask(e.from.ip, c.first, c.first)] else [];
      var blame := if reaction == Blamed then [Record(e.from.ip, c.blameFirst, c.blameSecond)] else [];
      RecordsConcat(ask + look, blame, ip);
      RecordsConcat(ask, look, ip);
      RecordsOne(ask[0], ip);
      RecordsOne(Ask(e.from.ip, c.first, c.first), ip);
      RecordsOne(Record(e.from.ip, c.blameFirst, c.blameSecond), ip);
    }
  }

  lemma {:induction false} RecordsAreBlames(look: Event -> bool, h: History, log: seq<seq<Call>>, ip: IpAddr, a: nat, b: nat)
    requires IsLog(look, h, log) && a <= b <= |log|
    ensures Records(Calls(log, a, b), ip) == Blames(h, ip, a, b)
    decreases b
  {
    if a < b {
      RecordsAreBlames(look, h, log, ip, a, b - 1);
      RecordsConcat(Calls(log, a, b - 1), log[b - 1], ip);
      EventRecords(look, h.events[b - 1], h.reactions[b - 1], ip);
    }
  }

  // ---- A flood silences its address

  /** The calls a blamed event makes before it records, and the record. */
  ghost function Asked(look: Event -> bool, e: Event): seq<Call>
    requires e.Arrive?
  {
    var c, ip := e.clocks, e.from.ip;
    [Ask(ip, c.askFirst, c.askSecond)]
    + if look(e) then [Ask(ip, c.first, c.first)] else []
  }

  ghost function RecordOf(e: Event): Call
    requires e.Arrive?
  {
    Record(e.from.ip, e.clocks.blameFirst, e.clocks.blameSecond)
  }

  lemma BlamedCalls(look: Event -> bool, e: Event, ip: IpAddr)
    requires e.Arrive?
    ensures CallsAt(look, e, Blamed) == Asked(look, e) + [RecordOf(e)]
    ensures Records(Asked(look, e), ip) == 0
  {
    RecordsConcat(Asked(look, e), [RecordOf(e)], ip);
    RecordsOne(RecordOf(e), ip);
    EventRecords(look, e, Blamed, ip);
  }

  /** No window of the address runs any more when the datagram is recorded. */
  ghost predicate Fresh(m: Sources, e: Event)
    requires e.Arrive?
  {
    e.from.ip in m ==> m[e.from.ip].windowStarted + BAD_WINDOW < e.clocks.blameSecond
  }

  lemma AskedForgets(look: Event -> bool, m: Sources, e: Event)
    requires e.Arrive?
    ensures Forgets(m, StateAfter(m, Asked(look, e)))
  {
    var c, ip := e.clocks, e.from.ip;
    StateAfterOne(m, Ask(ip, c.askFirst, c.askSecond));
    StateAfterTwo(m, Ask(ip, c.askFirst, c.askSecond), Ask(ip, c.first, c.first));
    assert Asked(look, e) == [Ask(ip, c.askFirst, c.askSecond)] || Asked(look, e) == [Ask(ip, c.askFirst, c.askSecond)] + [Ask(ip, c.first, c.first)];
  }

  lemma FreshIsRested(look: Event -> bool, r: Receiver, e: Event)
    requires e.Arrive? && Ordered(e.clocks) && !Banned(r, e) && Fresh(r.sources, e)
    ensures Rested(StateAfter(r.sources, Asked(look, e)), RecordOf(e))
  {
    AskedForgets(look, r.sources, e);
  }

  lemma {:induction false} CallsFirst(log: seq<seq<Call>>, a: nat, b: nat)
    requires a < b <= |log|
    ensures Calls(log, a, b) == log[a] + Calls(log, a + 1, b)
    decreases b
  {
    if a + 1 < b {
      CallsFirst(log, a, b - 1);
      assert log[a] + Calls(log, a + 1, b - 1) + log[b - 1] == log[a] + (Calls(log, a + 1, b - 1) + log[b - 1]);
    } else {
      assert Calls(log, a, a) == [] && Calls(log, b, b) == [];
    }
  }

  /** Events `a` and `b` are the first and the last of 64 blamed datagrams of an address, not more than 10 s apart. */
  ghost predicate SixtyFourBlamed(h: History, ip: IpAddr, a: nat, b: nat) {
    && a < b && BlamedAt(h, a, ip) && BlamedAt(h, b, ip) && Blames(h, ip, a, b + 1) == BAN_THRESHOLD
    && h.events[b].clocks.blameSecond <= h.events[a].clocks.blameSecond + BAD_WINDOW
  }

  /** Two events that end with records of one address, `mid` being the calls between the records. */
  ghost predicate Framed(log: seq<seq<Call>>, a: nat, b: nat, pa: seq<Call>, ra: Call, mid: seq<Call>, pb: seq<Call>, rb: Call) {
    && a < b < |log| && ra.Record? && rb.Record? && ra.ip == rb.ip && Records(pa, ra.ip) == 0
    && log[a] == pa + [ra] && log[b] == pb + [rb] && mid == Calls(log, a + 1, b) + pb
  }

  lemma Pieces(x: seq<Call>, y: seq<Call>, c: seq<Call>, z: seq<Call>, w: seq<Call>)
    ensures (x + y) + c + (z + w) == x + (y + (c + z) + w)
  {
  }

  lemma FramedCalls(log: seq<seq<Call>>, a: nat, b: nat, pa: seq<Call>, ra: Call, mid: seq<Call>, pb: seq<Call>, rb: Call)
    requires Framed(log, a, b, pa, ra, mid, pb, rb)
    ensures Calls(log, a, b + 1) == pa + ([ra] + mid + [rb])
    ensures Records(Calls(log, a, b + 1), ra.ip) == Records(mid, ra.ip) + 2
  {
    var ip := ra.ip;
    CallsFirst(log, a, b);
    Pieces(pa, [ra], Calls(log, a + 1, b), pb, [rb]);
    RecordsConcat(pa, [ra] + mid + [rb], ip);
    RecordsConcat([ra] + mid, [rb], ip);
    RecordsConcat([ra], mid, ip);
    RecordsOne(ra, ip);
    RecordsOne(rb, ip);
  }

  /** Nothing between the two records is later than the last. */
  lemma MidIsBefore(log: seq<seq<Call>>, times: seq<nat>, a: nat, b: nat, mid: seq<Call>, pb: seq<Call>, rb: Call, ip: IpAddr)
    requires TimedLog(log, times) && a <= b < |log| && log[b] == pb + [rb] && mid == Calls(log, a, b) + pb
    ensures RecordedBy(mid, ip, rb.second)
  {
    MidCalls(log, a, b, pb, rb);
    var cs := Calls(log, a, b + 1);
    CallsClocked(log, times, a, b + 1);
    assert cs == mid + [rb];
    NoneIsLater(mid, rb, times[a], ip);
  }

  lemma MidCalls(log: seq<seq<Call>>, a: nat, b: nat, pb: seq<Call>, rb: Call)
    requires a <= b < |log| && log[b] == pb + [rb]
    ensures Calls(log, a, b + 1) == Calls(log, a, b) + pb + [rb]
  {
    assert Calls(log, a, b) + (pb + [rb]) == Calls(log, a, b) + pb + [rb];
  }

  lemma NoneIsLater(cs: seq<Call>, c: Call, now: nat, ip: IpAddr)
    requires Clocked(cs + [c], now)
    ensures RecordedBy(cs, ip, c.second)
  {
    forall k | 0 <= k < |cs| ensures cs[k].second <= c.second {
      ClockedFrom(cs + [c], now, k, |cs|);
    }
  }

  lemma FramedBan(ss: seq<Sources>, log: seq<seq<Call>>, times: seq<nat>, a: nat, b: nat,
                  pa: seq<Call>, ra: Call, mid: seq<Call>, pb: seq<Call>, rb: Call)
    requires Framed(log, a, b, pa, ra, mid, pb, rb) && TimedLog(log, times) && Follows(ss, log)
    requires Rested(StateAfter(ss[a], pa), ra) && rb.second <= ra.second + BAD_WINDOW
    requires Records(Calls(log, a, b + 1), ra.ip) == BAN_THRESHOLD
    ensures BanIs(ss[b + 1], ra.ip, rb.second + BAN_TTL)
  {
    FramedCalls(log, a, b, pa, ra, mid, pb, rb);
    MidIsBefore(log, times, a + 1, b, mid, pb, rb, ra.ip);
    SixtyFourBan(StateAfter(ss[a], pa), ra, mid, rb);
    StateAfterConcat(ss[a], pa, [ra] + mid + [rb]);
    CallsLead(ss, log, a, b + 1);
  }

  lemma BlamedAreFramed(look: Event -> bool, h: History, log: seq<seq<Call>>, ip: IpAddr, a: nat, b: nat) returns (mid: seq<Call>)
    requires IsLog(look, h, log) && a < b && BlamedAt(h, a, ip) && BlamedAt(h, b, ip)
    ensures var ea, eb := h.events[a], h.events[b];
      Framed(log, a, b, Asked(look, ea), RecordOf(ea), mid, Asked(look, eb), RecordOf(eb))
  {
    BlamedCalls(look, h.events[a], ip);
    BlamedCalls(look, h.events[b], ip);
    mid := Calls(log, a + 1, b) + Asked(look, h.events[b]);
  }

  /** In every history 64 blamed datagrams within 10 s, no window running before, set a ban until 60 s after the last. */
  lemma FloodBans(mac: Bytes -> Tag, conn: ConnectionId, h: History, times: seq<nat>, ip: IpAddr, a: nat, b: nat)
    requires IsHistory(mac, conn, h) && Timed(h, times) && SixtyFourBlamed(h, ip, a, b)
    requires Fresh(h.worlds[a].receiver.sources, h.events[a])
    ensures BanIs(h.worlds[b + 1].receiver.sources, ip, h.events[b].clocks.blameSecond + BAN_TTL)
  {
    BlamedIsRested(mac, conn, h, times, ip, a);
    var ss, log, mid := Observed(mac, conn, h, times, ip, a, b);
    var ea, eb := h.events[a], h.events[b];
    FramedBan(ss, log, times, a, b, Asked(Looker(mac, conn), ea), RecordOf(ea), mid, Asked(Looker(mac, conn), eb), RecordOf(eb));
  }

  lemma BlamedIsRested(mac: Bytes -> Tag, conn: ConnectionId, h: History, times: seq<nat>, ip: IpAddr, a: nat)
    requires IsHistory(mac, conn, h) && Timed(h, times) && BlamedAt(h, a, ip)
    requires Fresh(h.worlds[a].receiver.sources, h.events[a])
    ensures Rested(StateAfter(h.worlds[a].receiver.sources, Asked(Looker(mac, conn), h.events[a])), RecordOf(h.events[a]))
  {
    NotBannedIfBlamed(mac, conn, h, times, ip, a);
    FreshIsRested(Looker(mac, conn), h.worlds[a].receiver, h.events[a]);
  }

  /** The history as a log of calls, with two blamed events in it. */
  lemma Observed(mac: Bytes -> Tag, conn: ConnectionId, h: History, times: seq<nat>, ip: IpAddr, a: nat, b: nat)
    returns (ss: seq<Sources>, log: seq<seq<Call>>, mid: seq<Call>)
    requires IsHistory(mac, conn, h) && Timed(h, times) && SixtyFourBlamed(h, ip, a, b)
    ensures Follows(ss, log) && TimedLog(log, times) && |log| == |h.events|
    ensures ss[a] == h.worlds[a].receiver.sources && ss[b] == h.worlds[b].receiver.sources && ss[b + 1] == h.worlds[b + 1].receiver.sources
    ensures Records(Calls(log, a, b + 1), ip) == BAN_THRESHOLD
    ensures var ea, eb := h.events[a], h.events[b];
      Framed(log, a, b, Asked(Looker(mac, conn), ea), RecordOf(ea), mid, Asked(Looker(mac, conn), eb), RecordOf(eb))
  {
    ss, log := Logged(mac, conn, h, times);
    mid := BlamedAreFramed(Looker(mac, conn), h, log, ip, a, b);
    SixtyFourRecords(Looker(mac, conn), h, log, ip, a, b);
  }

  lemma SixtyFourRecords(look: Event -> bool, h: History, log: seq<seq<Call>>, ip: IpAddr, a: nat, b: nat)
    requires IsLog(look, h, log) && a <= b < |log| && Blames(h, ip, a, b + 1) == BAN_THRESHOLD
    ensures Records(Calls(log, a, b + 1), ip) == BAN_THRESHOLD
  {
    RecordsAreBlames(look, h, log, ip, a, b + 1);
  }

  lemma ReactsAt(mac: Bytes -> Tag, conn: ConnectionId, h: History, times: seq<nat>, i: nat)
    requires IsHistory(mac, conn, h) && Timed(h, times) && i < |h.events| && h.events[i].Arrive?
    ensures var r, e := h.worlds[i].receiver, h.events[i];
      && Ordered(e.clocks) && times[i] <= e.clocks.askFirst
      && (h.reactions[i] == Ignored <==> Banned(r, e) || CarriesAck(e))
      && (h.reactions[i] == Blamed ==> !Banned(r, e))
      && (h.reactions[i] == Ignored ==> h.worlds[i + 1].receiver.table == Pruned(r.table, e.clocks.askFirst))
  {
    assert EventAt(mac, conn, h, i) && TimedAt(h.events[i], times[i], times[i + 1]);
    ReactsExactly(mac, conn, h.worlds[i], h.events[i], h.worlds[i + 1], h.reactions[i]);
  }

  lemma NotBannedIfBlamed(mac: Bytes -> Tag, conn: ConnectionId, h: History, times: seq<nat>, ip: IpAddr, a: nat)
    requires IsHistory(mac, conn, h) && Timed(h, times) && BlamedAt(h, a, ip)
    ensures Ordered(h.events[a].clocks) && !Banned(h.worlds[a].receiver, h.events[a])
  {
    ReactsAt(mac, conn, h, times, a);
  }

  /** While a ban lasts nothing that comes from the address gets past it. */
  lemma SilencedUntil(mac: Bytes -> Tag, conn: ConnectionId, h: History, times: seq<nat>, ip: IpAddr, n: nat, until: nat, i: nat)
    requires IsHistory(mac, conn, h) && Timed(h, times) && n <= i < |h.events| && BanIs(h.worlds[n].receiver.sources, ip, until)
    requires h.events[i].Arrive? && h.events[i].from.ip == ip && h.events[i].clocks.askSecond < until
    ensures h.reactions[i] == Ignored && h.worlds[i + 1].receiver.table == Pruned(h.worlds[i].receiver.table, h.events[i].clocks.askFirst)
  {
    var ss, log := Logged(mac, conn, h, times);
    assert TimedAt(h.events[i], times[i], times[i + 1]);
    CallsClocked(log, times, n, i);
    BanOutlasts(ss[n], Calls(log, n, i), ip, until);
    CallsLead(ss, log, n, i);
    ReactsAt(mac, conn, h, times, i);
  }

  /**
   * A flood is silenced. In every history, after 64 datagrams of an address have been blamed within 10 s (no earlier
   * window running at the first), every datagram from that address in the next 60 s is ignored: nothing is handed out and
   * the reassembler is only pruned.
   */
  lemma FloodIsSilenced(mac: Bytes -> Tag, conn: ConnectionId, h: History, times: seq<nat>, ip: IpAddr, a: nat, b: nat, i: nat)
    requires IsHistory(mac, conn, h) && Timed(h, times) && SixtyFourBlamed(h, ip, a, b)
    requires Fresh(h.worlds[a].receiver.sources, h.events[a])
    requires b < i < |h.events| && h.events[i].Arrive? && h.events[i].from.ip == ip
    requires h.events[i].clocks.askSecond < h.events[b].clocks.blameSecond + BAN_TTL
    ensures h.reactions[i] == Ignored && h.worlds[i + 1].receiver.table == Pruned(h.worlds[i].receiver.table, h.events[i].clocks.askFirst)
  {
    FloodBans(mac, conn, h, times, ip, a, b);
    SilencedUntil(mac, conn, h, times, ip, b + 1, h.events[b].clocks.blameSecond + BAN_TTL, i);
  }

  // ---- Exactly when

  /** A ban outlives the window it came from. */
  ghost predicate Lasting(m: Sources) {
    forall ip :: ip in m && m[ip].bannedUntil.Some? ==> m[ip].windowStarted + BAN_TTL <= m[ip].bannedUntil.value
  }

  lemma LastingAfter(m: Sources, c: Call, now: nat)
    requires Lasting(m) && SourcesInv(m, now) && now <= c.first <= c.second && !Straddles(m, c)
    ensures Lasting(After(m, c)) && SourcesInv(After(m, c), c.second)
  {
    AfterKeepsInv(m, c, now);
  }

  lemma AskedLasting(look: Event -> bool, m: Sources, e: Event, now: nat)
    requires e.Arrive? && Lasting(m) && SourcesInv(m, now) && now <= e.clocks.askFirst && Ordered(e.clocks)
    ensures var m' := StateAfter(m, Asked(look, e)); Lasting(m') && SourcesInv(m', e.clocks.blameFirst)
  {
    AskedForgets(look, m, e);
    SourcesAge(m, now, e.clocks.blameFirst);
  }

  lemma SourcesAge(m: Sources, now: nat, later: nat)
    requires SourcesInv(m, now) && now <= later
    ensures SourcesInv(m, later)
  {
  }

  lemma ForgetsLasting(m: Sources, m': Sources, now: nat, later: nat)
    requires Forgets(m, m') && Lasting(m) && SourcesInv(m, now) && now <= later
    ensures Lasting(m') && SourcesInv(m', later)
  {
    SourcesAge(m, now, later);
  }

  lemma RecordLasting(look: Event -> bool, r: Receiver, e: Event, now: nat)
    requires e.Arrive? && Lasting(r.sources) && SourcesInv(r.sources, now) && now <= e.clocks.askFirst && Ordered(e.clocks)
    requires !Banned(r, e)
    ensures var m' := After(StateAfter(r.sources, Asked(look, e)), RecordOf(e)); Lasting(m') && SourcesInv(m', e.clocks.blameSecond)
  {
    AskedLasting(look, r.sources, e, now);
    AskedForgets(look, r.sources, e);
    LastingAfter(StateAfter(r.sources, Asked(look, e)), RecordOf(e), e.clocks.blameFirst);
  }

  lemma EventLasting(mac: Bytes -> Tag, conn: ConnectionId, w: World, e: Event, w': World, reaction: Reaction, before: nat, after: nat)
    requires EventOk(mac, conn, w, e, w', reaction) && TimedAt(e, before, after)
    requires Lasting(w.receiver.sources) && SourcesInv(w.receiver.sources, before)
    ensures Lasting(w'.receiver.sources) && SourcesInv(w'.receiver.sources, after)
  {
    if e.Send? {
      SourcesAge(w.receiver.sources, before, after);
    } else {
      ReactsExactly(mac, conn, w, e, w', reaction);
      if reaction == Blamed {
        BlamedLasting(mac, conn, w, e, w', before);
        SourcesAge(w'.receiver.sources, e.clocks.blameSecond, after);
      } else {
        ForgetsLasting(w.receiver.sources, w'.receiver.sources, before, after);
      }
    }
  }

  lemma BlamedLasting(mac: Bytes -> Tag, conn: ConnectionId, w: World, e: Event, w': World, before: nat)
    requires EventOk(mac, conn, w, e, w', Blamed) && e.Arrive? && Ordered(e.clocks) && before <= e.clocks.askFirst
    requires !Banned(w.receiver, e) && Lasting(w.receiver.sources) && SourcesInv(w.receiver.sources, before)
    ensures Lasting(w'.receiver.sources) && SourcesInv(w'.receiver.sources, e.clocks.blameSecond)
  {
    var m := w.receiver.sources;
    EventCalls(mac, conn, w, e, w', Blamed);
    BlamedCalls(Looker(mac, conn), e, e.from.ip);
    StateAfterConcat(m, Asked(Looker(mac, conn), e), [RecordOf(e)]);
    StateAfterOne(StateAfter(m, Asked(Looker(mac, conn), e)), RecordOf(e));
    RecordLasting(Looker(mac, conn), w.receiver, e, before);
  }

  lemma {:induction false} AlwaysLasting(mac: Bytes -> Tag, conn: ConnectionId, h: History, times: seq<nat>, i: nat)
    requires IsHistory(mac, conn, h) && Timed(h, times) && i <= |h.events|
    ensures Lasting(h.worlds[i].receiver.sources) && SourcesInv(h.worlds[i].receiver.sources, times[i])
  {
    if i > 0 {
      var k: nat := i - 1;
      AlwaysLasting(mac, conn, h, times, k);
      LastingStep(mac, conn, h, times, k);
    }
  }

  lemma LastingStep(mac: Bytes -> Tag, conn: ConnectionId, h: History, times: seq<nat>, k: nat)
    requires IsHistory(mac, conn, h) && Timed(h, times) && k < |h.events|
    requires Lasting(h.worlds[k].receiver.sources) && SourcesInv(h.worlds[k].receiver.sources, times[k])
    ensures Lasting(h.worlds[k + 1].receiver.sources) && SourcesInv(h.worlds[k + 1].receiver.sources, times[k + 1])
  {
    assert EventAt(mac, conn, h, k) && TimedAt(h.events[k], times[k], times[k + 1]);
    EventLasting(mac, conn, h.worlds[k], h.events[k], h.worlds[k + 1], h.reactions[k], times[k], times[k + 1]);
  }

  /** If the datagram is not fresh, a window of its address is running. */
  lemma RunningIsCounted(r: Receiver, e: Event, now: nat)
    requires e.Arrive? && Ordered(e.clocks) && now <= e.clocks.askFirst && Lasting(r.sources) && SourcesInv(r.sources, now)
    requires !Banned(r, e) && !Fresh(r.sources, e)
    ensures var s := r.sources[e.from.ip];
      && Counted(r.sources, e.from.ip, s.windowStarted, s.badCount)
      && s.windowStarted <= now && e.clocks.blameSecond <= s.windowStarted + BAD_WINDOW
  {
  }

  /** If the datagrams under the running window were enough, the last would not have been blamed. */
  lemma FramedEnough(m: Sources, cs: seq<Call>, last: seq<Call>, ip: IpAddr, w: nat, n: nat)
    requires Counted(m, ip, w, n) && Clocked(cs + last, w) && Records(cs, ip) == BAN_THRESHOLD - 1
    requires n + RecordsUpTo(cs + last, ip, w + BAD_WINDOW) >= BAN_THRESHOLD
    requires forall k :: 0 <= k < |cs| ==> cs[k].second < w + BAN_TTL
    ensures ip in StateAfter(m, cs) && forall t: nat :: t < w + BAN_TTL ==> BannedAt(StateAfter(m, cs)[ip], t)
  {
    var t, all := w + BAD_WINDOW, cs + last;
    forall k | 0 <= k < |cs| ensures w <= cs[k].first <= cs[k].second {
      ClockedFrom(all, w, k, k);
    }
    if RecordedBy(cs, ip, t) {
      assert cs[..|cs|] == cs;
      EnoughInWindow(m, cs, ip, w, n, |cs|);
    } else {
      var j := FindCut(cs, ip, t);
      assert all[..j] == cs[..j];
      UpToIsAhead(all, ip, t, w, j);
      EnoughInWindow(m, cs, ip, w, n, j);
    }
  }

  lemma FramedSixtyFour(log: seq<seq<Call>>, times: seq<nat>, a: nat, b: nat, pa: seq<Call>, ra: Call, mid: seq<Call>, pb: seq<Call>, rb: Call)
    requires Framed(log, a, b, pa, ra, mid, pb, rb) && TimedLog(log, times) && rb.second <= ra.second + BAD_WINDOW
    requires Records(Calls(log, a, b + 1), ra.ip) == BAN_THRESHOLD
    ensures var cs := Calls(log, a, b + 1); SixtyFour(cs, ra.ip) && |pa| < |cs| && cs[|pa|] == ra && cs[|cs| - 1] == rb
  {
    FramedCalls(log, a, b, pa, ra, mid, pb, rb);
    CallsClocked(log, times, a, b + 1);
    var cs := Calls(log, a, b + 1);
    NoRecords(pa, ra.ip);
    assert forall k :: 0 <= k < |pa| ==> cs[k] == pa[k];
    forall k | 0 <= k < |cs| && IsRecord(cs[k], ra.ip) ensures rb.second <= cs[k].second + BAD_WINDOW {
      ClockedFrom(cs, times[a], |pa|, k);
    }
  }

  lemma {:induction false} NoRecords(cs: seq<Call>, ip: IpAddr)
    requires Records(cs, ip) == 0
    ensures forall k :: 0 <= k < |cs| ==> !IsRecord(cs[k], ip)
    decreases |cs|
  {
    if cs != [] {
      NoRecords(cs[1..], ip);
      assert forall k :: 0 < k < |cs| ==> cs[k] == cs[1..][k - 1];
    }
  }

  lemma {:induction false} SomeUpTo(cs: seq<Call>, ip: IpAddr, t: nat, k: nat)
    requires k < |cs| && IsRecord(cs[k], ip) && cs[k].second <= t
    ensures RecordsUpTo(cs, ip, t) > 0
    decreases |cs|
  {
    if k > 0 {
      SomeUpTo(cs[1..], ip, t, k - 1);
    }
  }

  lemma FramedNoBan(ss: seq<Sources>, log: seq<seq<Call>>, times: seq<nat>, a: nat, b: nat,
                    pa: seq<Call>, ra: Call, mid: seq<Call>, pb: seq<Call>, rb: Call, w: nat, n: nat, asked: nat)
    requires Framed(log, a, b, pa, ra, mid, pb, rb) && TimedLog(log, times) && Follows(ss, log)
    requires Records(Calls(log, a, b + 1), ra.ip) == BAN_THRESHOLD && rb.second <= ra.second + BAD_WINDOW
    requires Counted(ss[a], ra.ip, w, n) && w <= times[a] && ra.second <= w + BAD_WINDOW
    requires asked <= rb.second && !(ra.ip in ss[b] && BannedAt(ss[b][ra.ip], asked)) && Records(pb, ra.ip) == 0
    ensures ra.ip in ss[b + 1] && !BannedAt(ss[b + 1][ra.ip], rb.second)
  {
    FramedReady(log, times, a, b, pa, ra, mid, pb, rb, w);
    CallsLead(ss, log, a, b + 1);
    CallsLead(ss, log, a, b);
    NoBan(ss[a], Calls(log, a, b), log[b], ra.ip, w, n, |pa|, asked);
  }

  lemma FramedReady(log: seq<seq<Call>>, times: seq<nat>, a: nat, b: nat,
                    pa: seq<Call>, ra: Call, mid: seq<Call>, pb: seq<Call>, rb: Call, w: nat)
    requires Framed(log, a, b, pa, ra, mid, pb, rb) && TimedLog(log, times) && w <= times[a]
    requires Records(Calls(log, a, b + 1), ra.ip) == BAN_THRESHOLD && rb.second <= ra.second + BAD_WINDOW && Records(pb, ra.ip) == 0
    ensures var all := Calls(log, a, b) + log[b];
      && Clocked(all, w) && SixtyFour(all, ra.ip) && Records(Calls(log, a, b), ra.ip) == BAN_THRESHOLD - 1
      && |pa| < |all| && all[|pa|] == ra && all[|all| - 1] == rb
  {
    FramedSixtyFour(log, times, a, b, pa, ra, mid, pb, rb);
    CallsClocked(log, times, a, b + 1);
    ClockedEarlier(Calls(log, a, b + 1), times[a], w);
    AllButLast(log, a, b, ra.ip, pb, rb);
  }

  lemma NoBan(m: Sources, cs: seq<Call>, last: seq<Call>, ip: IpAddr, w: nat, n: nat, f: nat, asked: nat)
    requires Counted(m, ip, w, n) && Clocked(cs + last, w) && SixtyFour(cs + last, ip) && Records(cs, ip) == BAN_THRESHOLD - 1
    requires f < |cs + last| && IsRecord((cs + last)[f], ip) && (cs + last)[f].second <= w + BAD_WINDOW
    requires asked <= (cs + last)[|cs + last| - 1].second && !(ip in StateAfter(m, cs) && BannedAt(StateAfter(m, cs)[ip], asked))
    ensures var m' := StateAfter(m, cs + last); ip in m' && !BannedAt(m'[ip], (cs + last)[|cs + last| - 1].second)
  {
    var all := cs + last;
    SixtyFourBanIff(m, all, ip, w, n);
    SomeUpTo(all, ip, w + BAD_WINDOW, f);
    forall k | 0 <= k < |cs| ensures cs[k].second < w + BAN_TTL {
      ClockedFrom(all, w, k, |all| - 1);
    }
    if n + RecordsUpTo(all, ip, w + BAD_WINDOW) >= BAN_THRESHOLD {
      FramedEnough(m, cs, last, ip, w, n);
    }
  }

  lemma AllButLast(log: seq<seq<Call>>, a: nat, b: nat, ip: IpAddr, pb: seq<Call>, rb: Call)
    requires a <= b < |log| && log[b] == pb + [rb] && IsRecord(rb, ip) && Records(pb, ip) == 0
    ensures Records(Calls(log, a, b), ip) == Records(Calls(log, a, b + 1), ip) - 1
  {
    RecordsConcat(Calls(log, a, b), log[b], ip);
    RecordsConcat(pb, [rb], ip);
    RecordsOne(rb, ip);
  }

  lemma FloodUnderWindow(mac: Bytes -> Tag, conn: ConnectionId, h: History, times: seq<nat>, ip: IpAddr, a: nat, b: nat)
    requires IsHistory(mac, conn, h) && Timed(h, times) && SixtyFourBlamed(h, ip, a, b)
    requires !Fresh(h.worlds[a].receiver.sources, h.events[a])
    ensures !BanIs(h.worlds[b + 1].receiver.sources, ip, h.events[b].clocks.blameSecond + BAN_TTL)
  {
    var ea, eb := h.events[a], h.events[b];
    NotBannedIfBlamed(mac, conn, h, times, ip, a);
    NotBannedIfBlamed(mac, conn, h, times, ip, b);
    AlwaysLasting(mac, conn, h, times, a);
    assert TimedAt(ea, times[a], times[a + 1]);
    RunningIsCounted(h.worlds[a].receiver, ea, times[a]);
    var s := h.worlds[a].receiver.sources[ip];
    BlamedCalls(Looker(mac, conn), eb, ip);
    var ss, log, mid := Observed(mac, conn, h, times, ip, a, b);
    FramedNoBan(ss, log, times, a, b, Asked(Looker(mac, conn), ea), RecordOf(ea), mid, Asked(Looker(mac, conn), eb), RecordOf(eb),
                s.windowStarted, s.badCount, eb.clocks.askSecond);
  }

  /**
   * Exactly when 64 datagrams blamed within 10 s silence their address: if and only if no earlier window of it was still
   * running at the first. Windows do not slide, so otherwise the count starts again in between.
   */
  lemma FloodBansIff(mac: Bytes -> Tag, conn: ConnectionId, h: History, times: seq<nat>, ip: IpAddr, a: nat, b: nat)
    requires IsHistory(mac, conn, h) && Timed(h, times) && SixtyFourBlamed(h, ip, a, b)
    ensures BanIs(h.worlds[b + 1].receiver.sources, ip, h.events[b].clocks.blameSecond + BAN_TTL)
      <==> Fresh(h.worlds[a].receiver.sources, h.events[a])
  {
    if Fresh(h.worlds[a].receiver.sources, h.events[a]) {
      FloodBans(mac, conn, h, times, ip, a, b);
    } else {
      FloodUnderWindow(mac, conn, h, times, ip, a, b);
    }
  }

  lemma {:induction false} UnrecordedForgets(m: Sources, cs: seq<Call>, ip: IpAddr)
    requires Records(cs, ip) == 0
    ensures ip in StateAfter(m, cs) ==> ip in m && StateAfter(m, cs)[ip] == m[ip]
    decreases |cs|
  {
    if cs != [] {
      UnrecordedForgets(After(m, cs[0]), cs[1..], ip);
    }
  }

  /** A ban is over after its time: until the address is blamed again, a datagram is ignored exactly if it comes earlier. */
  lemma IgnoredWhileBanned(mac: Bytes -> Tag, conn: ConnectionId, h: History, times: seq<nat>, ip: IpAddr, n: nat, until: nat, i: nat)
    requires IsHistory(mac, conn, h) && Timed(h, times) && n <= i < |h.events| && BanIs(h.worlds[n].receiver.sources, ip, until)
    requires h.events[i].Arrive? && h.events[i].from.ip == ip && !CarriesAck(h.events[i]) && Blames(h, ip, n, i) == 0
    ensures h.reactions[i] == Ignored <==> h.events[i].clocks.askSecond < until
  {
    if h.events[i].clocks.askSecond < until {
      SilencedUntil(mac, conn, h, times, ip, n, until, i);
    } else {
      var ss, log := Logged(mac, conn, h, times);
      RecordsAreBlames(Looker(mac, conn), h, log, ip, n, i);
      UnrecordedForgets(ss[n], Calls(log, n, i), ip);
      CallsLead(ss, log, n, i);
      ReactsAt(mac, conn, h, times, i);
    }
  }

  // ---- Nobody is silenced without cause

  /** Datagrams of an address blamed by the first `n` events, between two times. */
  ghost function BlamesIn(h: History, ip: IpAddr, n: nat, lo: nat, hi: nat): nat {
    if n == 0 then 0
    else
      var more := if BlamedAt(h, n - 1, ip) && lo <= h.events[n - 1].clocks.blameSecond <= hi then 1 else 0;
      BlamesIn(h, ip, n - 1, lo, hi) + more
  }

  lemma {:induction false} HitsConcat(cs: seq<Call>, ds: seq<Call>, ip: IpAddr, lo: nat, hi: nat)
    ensures Hits(cs + ds, ip, lo, hi) == Hits(cs, ip, lo, hi) + Hits(ds, ip, lo, hi)
    decreases |ds|
  {
    if ds == [] {
      assert cs + ds == cs;
    } else {
      var n := |ds| - 1;
      HitsConcat(cs, ds[..n], ip, lo, hi);
      assert (cs + ds)[..|cs + ds| - 1] == cs + ds[..n];
    }
  }

  lemma HitsOne(c: Call, ip: IpAddr, lo: nat, hi: nat)
    ensures Hits([c], ip, lo, hi) == if IsRecord(c, ip) && lo <= c.second <= hi then 1 else 0
  {
    assert [c][..0] == [];
    assert Hits([], ip, lo, hi) == 0;
  }

  lemma EventHits(look: Event -> bool, e: Event, reaction: Reaction, ip: IpAddr, lo: nat, hi: nat)
    ensures Hits(CallsAt(look, e, reaction), ip, lo, hi)
         == if e.Arrive? && e.from.ip == ip && reaction == Blamed && lo <= e.clocks.blameSecond <= hi then 1 else 0
  {
    if e.Arrive? {
      var c := e.clocks;
      var ask := [Ask(e.from.ip, c.askFirst, c.askSecond)];
      var look := if reaction != Ignored && look(e) then [Ask(e.from.ip, c.first, c.first)] else [];
      var blame := if reaction == Blamed then [Record(e.from.ip, c.blameFirst, c.blameSecond)] else [];
      HitsConcat(ask + look, blame, ip, lo, hi);
      HitsConcat(ask, look, ip, lo, hi);
      HitsOne(ask[0], ip, lo, hi);
      HitsOne(Ask(e.from.ip, c.first, c.first), ip, lo, hi);
      HitsOne(Record(e.from.ip, c.blameFirst, c.blameSecond), ip, lo, hi);
    }
  }

  lemma {:induction false} HitsAreBlames(look: Event -> bool, h: History, log: seq<seq<Call>>, ip: IpAddr, n: nat, lo: nat, hi: nat)
    requires IsLog(look, h, log) && n <= |log|
    ensures Hits(Calls(log, 0, n), ip, lo, hi) == BlamesIn(h, ip, n, lo, hi)
    decreases n
  {
    if n > 0 {
      var k: nat := n - 1;
      HitsAreBlames(look, h, log, ip, k, lo, hi);
      HitsConcat(Calls(log, 0, k), log[k], ip, lo, hi);
      EventHits(look, h.events[k], h.reactions[k], ip, lo, hi);
    }
  }

  /** A record is the last call of its event. */
  ghost predicate RecordsLast(log: seq<seq<Call>>) {
    forall i, j :: 0 <= i < |log| && 0 <= j < |log[i]| && log[i][j].Record? ==> j == |log[i]| - 1
  }

  lemma {:induction false} EventOfRecord(log: seq<seq<Call>>, n: nat, k: nat) returns (i: nat)
    requires RecordsLast(log) && n <= |log| && k < |Calls(log, 0, n)| && Calls(log, 0, n)[k].Record?
    ensures i < n && log[i] != [] && log[i][|log[i]| - 1] == Calls(log, 0, n)[k] && Calls(log, 0, n)[..k + 1] == Calls(log, 0, i + 1)
    decreases n
  {
    var cs := Calls(log, 0, n - 1);
    if k < |cs| {
      i := EventOfRecord(log, n - 1, k);
      assert (cs + log[n - 1])[..k + 1] == cs[..k + 1];
    } else {
      i := n - 1;
      assert log[i][k - |cs|] == Calls(log, 0, n)[k];
      assert Calls(log, 0, n)[..k + 1] == Calls(log, 0, n);
    }
  }

  /** Datagram `k` is blamed, and with it 64 of its address were within the 10 s from `w` on. */
  ghost predicate Cause(h: History, ip: IpAddr, w: nat, k: nat) {
    && BlamedAt(h, k, ip) && w <= h.events[k].clocks.blameSecond <= w + BAD_WINDOW
    && BlamesIn(h, ip, k + 1, w, w + BAD_WINDOW) >= BAN_THRESHOLD
  }

  lemma LogRecordsLast(look: Event -> bool, h: History, log: seq<seq<Call>>)
    requires IsLog(look, h, log)
    ensures RecordsLast(log)
  {
  }

  lemma CauseOfBan(look: Event -> bool, h: History, log: seq<seq<Call>>, ip: IpAddr, n: nat, w: nat, c: nat) returns (k: nat)
    requires IsLog(look, h, log) && n <= |log| && Justified(Calls(log, 0, n), ip, w, c)
    ensures k < n && Cause(h, ip, w, k) && h.events[k].clocks.blameSecond == Calls(log, 0, n)[c].second
  {
    k := BlamedRecord(look, h, log, ip, n, c);
    HitsAreBlames(look, h, log, ip, k + 1, w, w + BAD_WINDOW);
  }

  lemma BlamedRecord(look: Event -> bool, h: History, log: seq<seq<Call>>, ip: IpAddr, n: nat, c: nat) returns (k: nat)
    requires IsLog(look, h, log) && n <= |log| && c < |Calls(log, 0, n)| && IsRecord(Calls(log, 0, n)[c], ip)
    ensures k < n && BlamedAt(h, k, ip) && h.events[k].clocks.blameSecond == Calls(log, 0, n)[c].second
    ensures Calls(log, 0, n)[..c + 1] == Calls(log, 0, k + 1)
  {
    LogRecordsLast(look, h, log);
    k := EventOfRecord(log, n, c);
    LastOfEvent(look, h.events[k], h.reactions[k]);
  }

  lemma LastOfEvent(look: Event -> bool, e: Event, reaction: Reaction)
    ensures var cs := CallsAt(look, e, reaction);
      cs != [] && cs[|cs| - 1].Record? ==> e.Arrive? && reaction == Blamed && cs[|cs| - 1] == RecordOf(e)
  {
  }

  lemma BannedHasCause(mac: Bytes -> Tag, conn: ConnectionId, h: History, times: seq<nat>, i: nat) returns (w: nat, k: nat)
    requires IsHistory(mac, conn, h) && Timed(h, times) && i < |h.events| && h.events[i].Arrive?
    requires Ordered(h.events[i].clocks) && Banned(h.worlds[i].receiver, h.events[i])
    ensures k < i && Cause(h, h.events[i].from.ip, w, k) && h.events[i].clocks.askSecond < h.events[k].clocks.blameSecond + BAN_TTL
  {
    var ss, log := Logged(mac, conn, h, times);
    var ip, c := h.events[i].from.ip, h.events[i].clocks;
    CallsLead(ss, log, 0, i);
    CallsClocked(log, times, 0, i);
    ClockedEarlier(Calls(log, 0, i), times[0], 0);
    assert ss[0] == map[];
    BannedOnlyWithCause(Calls(log, 0, i), Ask(ip, c.askFirst, c.askSecond));
    var n: nat;
    w, n :| Justified(Calls(log, 0, i), ip, w, n) && c.askSecond < Calls(log, 0, i)[n].second + BAN_TTL;
    k := CauseOfBan(Looker(mac, conn), h, log, ip, i, w, n);
  }

  /**
   * Nobody is silenced without cause. In every history a datagram that is ignored carries an acknowledgement, or within
   * the last 60 s one from its address was blamed with which 64 had been within 10 s.
   */
  lemma IgnoredOnlyWithCause(mac: Bytes -> Tag, conn: ConnectionId, h: History, times: seq<nat>, i: nat)
    requires IsHistory(mac, conn, h) && Timed(h, times) && i < |h.events| && h.events[i].Arrive? && h.reactions[i] == Ignored
    ensures CarriesAck(h.events[i]) || exists w: nat, k: nat ::
      k < i && Cause(h, h.events[i].from.ip, w, k) && h.events[i].clocks.askSecond < h.events[k].clocks.blameSecond + BAN_TTL
  {
    ReactsAt(mac, conn, h, times, i);
    if !CarriesAck(h.events[i]) {
      var w, k := BannedHasCause(mac, conn, h, times, i);
    }
  }
}
