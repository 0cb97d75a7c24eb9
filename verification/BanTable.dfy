/**
 * The per-address table of invalid traffic: 64 invalid datagrams within 10 s of a window start ban an address
 * for 60 s. Every call takes two clock readings: entries are dropped by the first, the decision uses the second.
 */
module BanTable {
  import opened Words
  import opened Options
  import opened Net
  import opened Reassembly

  const BAN_THRESHOLD: nat := 64
  const BAN_TTL: nat := 60 * SECOND
  const BAD_WINDOW: nat := 10 * SECOND

  datatype SourceState = SourceState(windowStarted: nat, badCount: nat, bannedUntil: Option<nat>)

  type Sources = map<IpAddr, SourceState>

  predicate BannedAt(s: SourceState, now: nat) { s.bannedUntil.Some? && s.bannedUntil.value > now }

  /** What pruning keeps. */
  predicate Keep(s: SourceState, now: nat) {
    if s.bannedUntil.Some? then s.bannedUntil.value > now
    else SatSub(now, s.windowStarted) <= BAN_TTL || s.badCount > 0
  }

  function PrunedSources(m: Sources, now: nat): Sources { map ip | ip in m && Keep(m[ip], now) :: m[ip] }

  function Lookup(m: Sources, ip: IpAddr): Option<SourceState> { if ip in m then Some(m[ip]) else None }

  /** What a further invalid datagram at `now` makes of an entry. */
  function Bump(o: Option<SourceState>, now: nat): SourceState {
    var s := if o.Some? then o.value else SourceState(now, 0, None);
    if BannedAt(s, now) then s
    else
      var w := if SatSub(now, s.windowStarted) > BAD_WINDOW then SourceState(now, 0, s.bannedUntil) else s;
      if w.badCount + 1 >= BAN_THRESHOLD then SourceState(w.windowStarted, 0, Some(now + BAN_TTL))
      else w.(badCount := w.badCount + 1)
  }

  // One call, as the code makes it and as a table that never forgets would.

  datatype Call = Ask(ip: IpAddr, first: nat, second: nat) | Record(ip: IpAddr, first: nat, second: nat)

  function After(m: Sources, c: Call): Sources {
    var p := PrunedSources(m, c.first);
    if c.Ask? then p else p[c.ip := Bump(Lookup(p, c.ip), c.second)]
  }

  function Answer(m: Sources, c: Call): bool {
    var p := PrunedSources(m, c.first);
    c.Ask? && c.ip in p && BannedAt(p[c.ip], c.second)
  }

  function RefAfter(m: Sources, c: Call): Sources {
    if c.Ask? then m else m[c.ip := Bump(Lookup(m, c.ip), c.second)]
  }

  function RefAnswer(m: Sources, c: Call): bool { c.Ask? && c.ip in m && BannedAt(m[c.ip], c.second) }

  // ---- When forgetting is invisible

  /** All that later calls can depend on. */
  datatype Standing = Idle | Counting(windowStarted: nat, badCount: nat) | Banned(until: nat)

  function StandingOf(o: Option<SourceState>, now: nat): Standing {
    if o == None then Idle
    else if BannedAt(o.value, now) then Banned(o.value.bannedUntil.value)
    else if SatSub(now, o.value.windowStarted) > BAD_WINDOW then Idle
    else Counting(o.value.windowStarted, o.value.badCount)
  }

  /** The standing an entry of the pruned table will have from the next call on. */
  function KeptStanding(o: Option<SourceState>, now: nat): Standing {
    if o.Some? && !Keep(o.value, now) then Idle else StandingOf(o, now)
  }

  /** Entries are dated; a count of zero is left only by a ban, which outlives the window it came from. */
  predicate EntryInv(s: SourceState, now: nat) {
    && s.windowStarted <= now
    && s.badCount < BAN_THRESHOLD
    && (s.bannedUntil.Some? && s.bannedUntil.value > now ==> s.windowStarted + BAN_TTL <= s.bannedUntil.value)
    && (s.badCount == 0 ==> s.bannedUntil.Some? && s.windowStarted + BAN_TTL <= s.bannedUntil.value)
  }

  ghost predicate SourcesInv(m: Sources, now: nat) { forall ip :: ip in m ==> EntryInv(m[ip], now) }

  lemma AfterKeepsInv(m: Sources, c: Call, now: nat)
    requires SourcesInv(m, now) && now <= c.first <= c.second
    ensures SourcesInv(After(m, c), c.second)
    ensures SourcesInv(RefAfter(m, c), c.second)
  {
  }

  /** The pruned table and the one that forgets nothing will be told apart by no call. */
  ghost predicate Alike(m: Sources, r: Sources, now: nat) {
    forall ip :: KeptStanding(Lookup(m, ip), now) == StandingOf(Lookup(r, ip), now)
  }

  /** The one case in which a call loses information: the ban of the address ends between the two readings. */
  predicate Straddles(m: Sources, c: Call) {
    c.Record? && c.ip in m && m[c.ip].bannedUntil.Some? && c.first < m[c.ip].bannedUntil.value <= c.second
  }

  lemma EntriesAge(o: Option<SourceState>, q: Option<SourceState>, now: nat, later: nat)
    requires (o.Some? ==> EntryInv(o.value, now)) && (q.Some? ==> EntryInv(q.value, now))
    requires KeptStanding(o, now) == StandingOf(q, now) && now <= later
    ensures KeptStanding(o, later) == StandingOf(q, later)
  {
  }

  lemma AlikeAges(m: Sources, r: Sources, now: nat, later: nat)
    requires SourcesInv(m, now) && SourcesInv(r, now) && Alike(m, r, now) && now <= later
    ensures Alike(m, r, later)
  {
    forall ip ensures KeptStanding(Lookup(m, ip), later) == StandingOf(Lookup(r, ip), later) {
      EntriesAge(Lookup(m, ip), Lookup(r, ip), now, later);
    }
  }

  lemma AlikeAnswers(m: Sources, r: Sources, c: Call, now: nat)
    requires SourcesInv(m, now) && SourcesInv(r, now) && Alike(m, r, now) && now <= c.first <= c.second
    ensures Answer(m, c) == RefAnswer(r, c)
  {
    assert KeptStanding(Lookup(m, c.ip), now) == StandingOf(Lookup(r, c.ip), now);
  }

  /** One entry: without a straddled ban, bumping after pruning and bumping without it agree. */
  lemma BumpAlike(o: Option<SourceState>, q: Option<SourceState>, now: nat, first: nat, second: nat)
    requires (o.Some? ==> EntryInv(o.value, now)) && (q.Some? ==> EntryInv(q.value, now))
    requires KeptStanding(o, now) == StandingOf(q, now) && now <= first <= second
    requires !(o.Some? && o.value.bannedUntil.Some? && first < o.value.bannedUntil.value <= second)
    ensures var kept := if o.Some? && Keep(o.value, first) then o else None;
      KeptStanding(Some(Bump(kept, second)), second) == StandingOf(Some(Bump(q, second)), second)
  {
  }

  lemma AlikeStep(m: Sources, r: Sources, c: Call, now: nat)
    requires SourcesInv(m, now) && SourcesInv(r, now) && Alike(m, r, now) && now <= c.first <= c.second
    requires !Straddles(m, c)
    ensures Alike(After(m, c), RefAfter(r, c), c.second)
  {
    AlikeAges(m, r, now, c.second);
    forall ip ensures KeptStanding(Lookup(After(m, c), ip), c.second) == StandingOf(Lookup(RefAfter(r, c), ip), c.second) {
      assert KeptStanding(Lookup(m, ip), c.second) == StandingOf(Lookup(r, ip), c.second);
      if c.Record? && ip == c.ip {
        assert KeptStanding(Lookup(m, ip), now) == StandingOf(Lookup(r, ip), now);
        BumpAlike(Lookup(m, ip), Lookup(r, ip), now, c.first, c.second);
      }
    }
  }

  ghost predicate Clocked(cs: seq<Call>, now: nat)
  {
    cs != [] ==> now <= cs[0].first <= cs[0].second && Clocked(cs[1..], cs[0].second)
  }

  function Answers(m: Sources, cs: seq<Call>): (a: seq<bool>)
    ensures |a| == |cs|
    decreases cs
  {
    if cs == [] then [] else [Answer(m, cs[0])] + Answers(After(m, cs[0]), cs[1..])
  }

  function RefAnswers(r: Sources, cs: seq<Call>): (a: seq<bool>)
    ensures |a| == |cs|
    decreases cs
  {
    if cs == [] then [] else [RefAnswer(r, cs[0])] + RefAnswers(RefAfter(r, cs[0]), cs[1..])
  }

  /** No call of the run straddles the end of a ban. */
  ghost predicate NoStraddle(m: Sources, cs: seq<Call>)
    decreases cs
  {
    cs != [] ==> !Straddles(m, cs[0]) && NoStraddle(After(m, cs[0]), cs[1..])
  }

  /** Over any run without a straddled ban, pruning changes no answer. */
  lemma {:induction false} ForgettingIsInvisible(m: Sources, r: Sources, cs: seq<Call>, now: nat)
    requires SourcesInv(m, now) && SourcesInv(r, now) && Alike(m, r, now)
    requires Clocked(cs, now) && NoStraddle(m, cs)
    ensures Answers(m, cs) == RefAnswers(r, cs)
    decreases cs
  {
    if cs != [] {
      AlikeAnswers(m, r, cs[0], now);
      AlikeStep(m, r, cs[0], now);
      AfterKeepsInv(m, cs[0], now);
      AfterKeepsInv(r, cs[0], now);
      ForgettingIsInvisible(After(m, cs[0]), RefAfter(r, cs[0]), cs[1..], cs[0].second);
    }
  }

  /** No continuation tells the two tables apart, short of a further straddled ban. */
  ghost predicate Indistinguishable(m: Sources, r: Sources, now: nat) {
    forall cs :: Clocked(cs, now) && NoStraddle(m, cs) ==> Answers(m, cs) == RefAnswers(r, cs)
  }

  /** `n` invalid datagrams from one address at one instant, then the question whether it is banned. */
  function Burst(ip: IpAddr, n: nat, t: nat): (cs: seq<Call>)
    ensures |cs| == n + 1
  {
    if n == 0 then [Ask(ip, t, t)] else [Record(ip, t, t)] + Burst(ip, n - 1, t)
  }

  lemma {:induction false} BurstIsClocked(ip: IpAddr, n: nat, t: nat)
    ensures Clocked(Burst(ip, n, t), t)
  {
    if n > 0 {
      BurstIsClocked(ip, n - 1, t);
      assert Burst(ip, n, t)[1..] == Burst(ip, n - 1, t);
    }
  }

  lemma {:induction false} BurstDoesNotStraddle(m: Sources, ip: IpAddr, n: nat, t: nat)
    ensures NoStraddle(m, Burst(ip, n, t))
    decreases n
  {
    var cs := Burst(ip, n, t);
    if n > 0 {
      BurstDoesNotStraddle(After(m, cs[0]), ip, n - 1, t);
      assert cs[1..] == Burst(ip, n - 1, t);
    }
  }

  /** An entry whose ban has just run out, or none: the next prune starts it afresh. */
  lemma {:induction false} BurstAfterPruning(m: Sources, ip: IpAddr, n: nat, t: nat, k: nat)
    requires n + k < BAN_THRESHOLD
    requires var p := PrunedSources(m, t); if k == 0 then ip !in p else ip in p && p[ip] == SourceState(t, k, None)
    ensures !Answers(m, Burst(ip, n, t))[n]
    decreases n
  {
    var cs := Burst(ip, n, t);
    if n > 0 {
      assert cs[1..] == Burst(ip, n - 1, t);
      assert After(m, cs[0])[ip] == SourceState(t, k + 1, None);
      BurstAfterPruning(After(m, cs[0]), ip, n - 1, t, k + 1);
    }
  }

  lemma {:induction false} BurstWithoutPruning(r: Sources, ip: IpAddr, n: nat, t: nat, k: nat)
    requires n + k == BAN_THRESHOLD && 0 < k < BAN_THRESHOLD
    requires ip in r && r[ip].windowStarted == t && r[ip].badCount == k && !BannedAt(r[ip], t)
    ensures RefAnswers(r, Burst(ip, n, t))[n]
    decreases n
  {
    var cs := Burst(ip, n, t);
    assert cs[1..] == Burst(ip, n - 1, t);
    var r' := RefAfter(r, cs[0]);
    if n == 1 {
      assert BannedAt(r'[ip], t);
      assert RefAnswers(r', cs[1..])[0];
    } else {
      BurstWithoutPruning(r', ip, n - 1, t, k + 1);
    }
  }

  lemma StraddledBurst(m: Sources, r: Sources, c: Call, now: nat)
    requires SourcesInv(m, now) && SourcesInv(r, now) && Alike(m, r, now) && now <= c.first <= c.second
    requires Straddles(m, c)
    ensures !Indistinguishable(After(m, c), RefAfter(r, c), c.second)
  {
    var n := BAN_THRESHOLD - 1;
    var cs := Burst(c.ip, n, c.second);
    BurstIsClocked(c.ip, n, c.second);
    BurstDoesNotStraddle(After(m, c), c.ip, n, c.second);
    assert KeptStanding(Lookup(m, c.ip), now) == StandingOf(Lookup(r, c.ip), now);
    assert r[c.ip].bannedUntil == m[c.ip].bannedUntil;
    BurstAfterPruning(After(m, c), c.ip, n, c.second, 0);
    BurstWithoutPruning(RefAfter(r, c), c.ip, n, c.second, 1);
    assert Answers(After(m, c), cs) != RefAnswers(RefAfter(r, c), cs);
  }

  /**
   * Exactly when forgetting is harmless. From states no call can tell apart, one more call leaves states no
   * run can tell apart if and only if it does not straddle the end of the address's ban. If it does, the
   * record is counted under an expired ban and the next prune throws the count away.
   */
  lemma ForgettingIsInvisibleIffNoStraddle(m: Sources, r: Sources, c: Call, now: nat)
    requires SourcesInv(m, now) && SourcesInv(r, now) && Alike(m, r, now) && now <= c.first <= c.second
    ensures Indistinguishable(After(m, c), RefAfter(r, c), c.second) <==> !Straddles(m, c)
  {
    if Straddles(m, c) {
      StraddledBurst(m, r, c, now);
    } else {
      AlikeStep(m, r, c, now);
      AfterKeepsInv(m, c, now);
      AfterKeepsInv(r, c, now);
      forall cs | Clocked(cs, c.second) && NoStraddle(After(m, c), cs)
        ensures Answers(After(m, c), cs) == RefAnswers(RefAfter(r, c), cs)
      {
        ForgettingIsInvisible(After(m, c), RefAfter(r, c), cs, c.second);
      }
    }
  }

  function StateAfter(m: Sources, cs: seq<Call>): Sources
    decreases cs
  {
    if cs == [] then m else StateAfter(After(m, cs[0]), cs[1..])
  }

  lemma {:induction false} BurstSetsBan(m: Sources, ip: IpAddr, n: nat, k: nat)
    requires n + k == BAN_THRESHOLD && n > 0
    requires m == if k == 0 then map[] else map[ip := SourceState(0, k, None)]
    ensures StateAfter(m, Burst(ip, n, 0)) == map[ip := SourceState(0, 0, Some(BAN_TTL))]
    decreases n
  {
    var cs := Burst(ip, n, 0);
    var m' := After(m, cs[0]);
    assert cs[1..] == Burst(ip, n - 1, 0);
    if n == 1 {
      assert m' == map[ip := SourceState(0, 0, Some(BAN_TTL))];
      assert After(m', cs[1]) == m';
      assert StateAfter(m', cs[1..]) == StateAfter(After(m', cs[1]), []);
    } else {
      assert m' == map[ip := SourceState(0, k + 1, None)];
      BurstSetsBan(m', ip, n - 1, k + 1);
    }
  }

  /** The straddle does occur: a ban set at time 0 by 64 records, and a call whose readings enclose its end. */
  lemma ForgettingIsVisible(ip: IpAddr)
    ensures var m := StateAfter(map[], Burst(ip, BAN_THRESHOLD, 0));
      !Indistinguishable(After(m, Record(ip, BAN_TTL - 1, BAN_TTL)), RefAfter(m, Record(ip, BAN_TTL - 1, BAN_TTL)), BAN_TTL)
  {
    BurstSetsBan(map[], ip, BAN_THRESHOLD, 0);
    var m: Sources := map[ip := SourceState(0, 0, Some(BAN_TTL))];
    ForgettingIsInvisibleIffNoStraddle(m, m, Record(ip, BAN_TTL - 1, BAN_TTL), 0);
  }

  // ---- What a ban takes, and how long it lasts

  /** Invalid datagrams recorded for an address between two times, inclusive. */
  function Hits(cs: seq<Call>, ip: IpAddr, lo: nat, hi: nat): nat {
    if cs == [] then 0
    else
      var c := cs[|cs| - 1];
      Hits(cs[..|cs| - 1], ip, lo, hi) + if c.Record? && c.ip == ip && lo <= c.second <= hi then 1 else 0
  }

  /** Call `k` records the address, and with it there are 64 records in the 10 s after `w`: what it takes to set a ban. */
  ghost predicate Justified(cs: seq<Call>, ip: IpAddr, w: nat, k: nat) {
    && k < |cs| && cs[k].Record? && cs[k].ip == ip && w <= cs[k].second <= w + BAD_WINDOW
    && Hits(cs[..k + 1], ip, w, w + BAD_WINDOW) >= BAN_THRESHOLD
  }

  /** A ban ends exactly 60 s after the record that set it. */
  ghost predicate BanFrom(cs: seq<Call>, ip: IpAddr, w: nat, k: nat, until: nat) {
    Justified(cs, ip, w, k) && until == cs[k].second + BAN_TTL
  }

  ghost predicate Evidence(s: SourceState, cs: seq<Call>, ip: IpAddr) {
    && s.badCount <= Hits(cs, ip, s.windowStarted, s.windowStarted + BAD_WINDOW)
    && (s.bannedUntil.Some? ==> exists w: nat, k: nat :: BanFrom(cs, ip, w, k, s.bannedUntil.value))
  }

  ghost predicate AllEvidence(m: Sources, cs: seq<Call>) { forall ip :: ip in m ==> Evidence(m[ip], cs, ip) }

  lemma HitsGrow(cs: seq<Call>, c: Call, ip: IpAddr, lo: nat, hi: nat)
    ensures Hits(cs + [c], ip, lo, hi) == Hits(cs, ip, lo, hi) + if c.Record? && c.ip == ip && lo <= c.second <= hi then 1 else 0
  {
    assert (cs + [c])[..|cs|] == cs;
  }

  lemma EvidenceGrows(s: SourceState, cs: seq<Call>, c: Call, ip: IpAddr)
    requires Evidence(s, cs, ip)
    ensures Evidence(s, cs + [c], ip)
  {
    HitsGrow(cs, c, ip, s.windowStarted, s.windowStarted + BAD_WINDOW);
    if s.bannedUntil.Some? {
      var w: nat, k: nat :| BanFrom(cs, ip, w, k, s.bannedUntil.value);
      assert (cs + [c])[..k + 1] == cs[..k + 1];
      assert BanFrom(cs + [c], ip, w, k, s.bannedUntil.value);
    }
  }

  lemma BumpEvidence(o: Option<SourceState>, cs: seq<Call>, c: Call)
    requires c.Record?
    requires o.Some? ==> Evidence(o.value, cs, c.ip) && o.value.windowStarted <= c.second
    ensures Evidence(Bump(o, c.second), cs + [c], c.ip)
  {
    var s := Bump(o, c.second);
    HitsGrow(cs, c, c.ip, s.windowStarted, s.windowStarted + BAD_WINDOW);
    if o.Some? {
      EvidenceGrows(o.value, cs, c, c.ip);
    }
    if !(o.Some? && BannedAt(o.value, c.second)) && s.badCount == 0 {
      assert (cs + [c])[..|cs| + 1] == cs + [c];
      assert BanFrom(cs + [c], c.ip, s.windowStarted, |cs|, s.bannedUntil.value);
    }
  }

  lemma EvidenceStep(m: Sources, cs: seq<Call>, c: Call, now: nat)
    requires SourcesInv(m, now) && AllEvidence(m, cs) && now <= c.first <= c.second
    ensures AllEvidence(After(m, c), cs + [c])
  {
    forall ip | ip in After(m, c) ensures Evidence(After(m, c)[ip], cs + [c], ip) {
      if c.Record? && ip == c.ip {
        BumpEvidence(Lookup(PrunedSources(m, c.first), ip), cs, c);
      } else {
        EvidenceGrows(m[ip], cs, c, ip);
      }
    }
  }

  lemma {:induction false} EvidenceAlways(m: Sources, past: seq<Call>, cs: seq<Call>, now: nat)
    requires SourcesInv(m, now) && AllEvidence(m, past) && Clocked(cs, now)
    ensures AllEvidence(StateAfter(m, cs), past + cs)
    decreases cs
  {
    if cs == [] {
      assert past + cs == past;
    } else {
      EvidenceStep(m, past, cs[0], now);
      AfterKeepsInv(m, cs[0], now);
      EvidenceAlways(After(m, cs[0]), past + [cs[0]], cs[1..], cs[0].second);
      assert past + [cs[0]] + cs[1..] == past + cs;
    }
  }

  /**
   * An address is reported banned only if fewer than 60 s ago one of its datagrams was recorded as invalid with which
   * there were 64 of them within 10 s.
   */
  lemma BannedOnlyWithCause(cs: seq<Call>, ask: Call)
    requires Clocked(cs, 0) && Answer(StateAfter(map[], cs), ask)
    ensures exists w: nat, k: nat :: Justified(cs, ask.ip, w, k) && ask.second < cs[k].second + BAN_TTL
  {
    EvidenceAlways(map[], [], cs, 0);
    assert [] + cs == cs;
    var s := StateAfter(map[], cs)[ask.ip];
    assert Evidence(s, cs, ask.ip);
    var w: nat, k: nat :| BanFrom(cs, ask.ip, w, k, s.bannedUntil.value);
    assert Justified(cs, ask.ip, w, k) && ask.second < cs[k].second + BAN_TTL;
  }

  /** Until its end a ban is neither lifted nor extended by any calls, and every question is answered yes. */
  lemma {:induction false} BanLasts(m: Sources, cs: seq<Call>, ip: IpAddr, until: nat, i: nat)
    requires ip in m && m[ip].bannedUntil == Some(until)
    requires forall k :: 0 <= k < |cs| ==> cs[k].first <= cs[k].second < until
    requires i < |cs|
    ensures Lookup(StateAfter(m, cs), ip) == Lookup(m, ip)
    ensures cs[i].Ask? && cs[i].ip == ip ==> Answers(m, cs)[i]
    decreases cs
  {
    assert After(m, cs[0])[ip] == m[ip];
    if i > 0 {
      BanLasts(After(m, cs[0]), cs[1..], ip, until, i - 1);
    } else if |cs| > 1 {
      BanLasts(After(m, cs[0]), cs[1..], ip, until, 0);
    }
  }

  /** From its end on, the address is reported free until it is recorded again. */
  lemma {:induction false} BanEnds(m: Sources, cs: seq<Call>, ip: IpAddr, until: nat, i: nat)
    requires ip in m ==> m[ip].bannedUntil == Some(until)
    requires forall k :: 0 <= k < |cs| ==> until <= cs[k].second && !(cs[k].Record? && cs[k].ip == ip)
    requires i < |cs|
    ensures !(cs[i].ip == ip && Answers(m, cs)[i])
    decreases cs
  {
    if i > 0 {
      BanEnds(After(m, cs[0]), cs[1..], ip, until, i - 1);
    }
  }

  /** The record turns an address that is not banned into one that is. */
  predicate SetsBan(m: Sources, c: Call) {
    && c.Record?
    && (var p := PrunedSources(m, c.first); !(c.ip in p && BannedAt(p[c.ip], c.second)))
    && BannedAt(After(m, c)[c.ip], c.second)
  }

  lemma BanIsSixtySeconds(m: Sources, c: Call)
    requires SetsBan(m, c)
    ensures After(m, c)[c.ip].bannedUntil == Some(c.second + BAN_TTL)
  {
  }

  ghost predicate BanIs(m: Sources, ip: IpAddr, until: nat) { ip in m && m[ip].bannedUntil == Some(until) }

  lemma BanStays(m: Sources, c: Call, ip: IpAddr, until: nat)
    requires BanIs(m, ip, until) && c.first <= c.second && (c.Record? && c.ip == ip ==> c.second < until)
    ensures BanIs(After(m, c), ip, until) || (ip !in After(m, c) && until <= c.second)
  {
  }

  /** A ban that runs until `until`: every question before is answered yes, and from then on no until a new record. */
  lemma {:induction false} BanRunsOut(m: Sources, cs: seq<Call>, ip: IpAddr, until: nat, i: nat, now: nat)
    requires Clocked(cs, now) && i < |cs| && cs[i].Ask? && cs[i].ip == ip
    requires BanIs(m, ip, until) || (ip !in m && until <= now)
    requires forall n :: 0 <= n < i && cs[n].Record? && cs[n].ip == ip ==> cs[n].second < until || cs[i].second < until
    ensures Answers(m, cs)[i] <==> cs[i].second < until
    decreases cs
  {
    ClockedUpTo(cs, now, i);
    if i > 0 {
      assert now <= cs[0].second <= cs[i].second;
      if ip in m {
        BanStays(m, cs[0], ip, until);
      }
      assert cs[1..][i - 1] == cs[i];
      BanRunsOut(After(m, cs[0]), cs[1..], ip, until, i - 1, cs[0].second);
    }
  }

  lemma {:induction false} ClockedUpTo(cs: seq<Call>, now: nat, i: nat)
    requires Clocked(cs, now) && i < |cs|
    ensures now <= cs[0].second <= cs[i].second && cs[i].first <= cs[i].second && now <= cs[i].first
    decreases cs
  {
    if i > 0 {
      ClockedUpTo(cs[1..], cs[0].second, i - 1);
    }
  }

  /**
   * Each ban lasts exactly 60 s. In every run, when call `k` sets a ban at `t`, a later question is answered yes before
   * `t + 60 s`, however often the address is recorded meanwhile, and no from then on until it is recorded again.
   */
  lemma {:induction false} BanLastsSixtySeconds(m: Sources, cs: seq<Call>, now: nat, k: nat, i: nat)
    requires Clocked(cs, now) && k < i < |cs| && SetsBan(StateAfter(m, cs[..k]), cs[k])
    requires cs[i].Ask? && cs[i].ip == cs[k].ip
    requires cs[i].second < cs[k].second + BAN_TTL
          || forall n :: k < n < i && cs[n].Record? && cs[n].ip == cs[k].ip ==> cs[n].second < cs[k].second + BAN_TTL
    ensures Answers(m, cs)[i] <==> cs[i].second < cs[k].second + BAN_TTL
    decreases cs
  {
    var rest := cs[1..];
    assert rest[i - 1] == cs[i];
    if k == 0 {
      assert cs[..0] == [];
      BanIsSixtySeconds(m, cs[0]);
      BanRunsOut(After(m, cs[0]), rest, cs[0].ip, cs[0].second + BAN_TTL, i - 1, cs[0].second);
    } else {
      assert cs[..k][1..] == rest[..k - 1] && rest[k - 1] == cs[k];
      BanLastsSixtySeconds(After(m, cs[0]), rest, cs[0].second, k - 1, i - 1);
    }
  }
}
