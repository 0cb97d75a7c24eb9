/** How invalid datagrams add up: exactly when 64 of them within 10 s ban an address. */
module BanCounting {
  import opened Words
  import opened Options
  import opened Net
  import opened BanTable

  predicate IsRecord(c: Call, ip: IpAddr) { c.Record? && c.ip == ip }

  /** How often an address is recorded. */
  function Records(cs: seq<Call>, ip: IpAddr): nat
    decreases |cs|
  {
    if cs == [] then 0 else (if IsRecord(cs[0], ip) then 1 else 0) + Records(cs[1..], ip)
  }

  lemma {:induction false} RecordsConcat(cs: seq<Call>, ds: seq<Call>, ip: IpAddr)
    ensures Records(cs + ds, ip) == Records(cs, ip) + Records(ds, ip)
    decreases |cs|
  {
    if cs == [] {
      assert cs + ds == ds;
    } else {
      RecordsConcat(cs[1..], ds, ip);
      assert (cs + ds)[1..] == cs[1..] + ds;
    }
  }

  lemma {:induction false} StateAfterConcat(m: Sources, cs: seq<Call>, ds: seq<Call>)
    ensures StateAfter(m, cs + ds) == StateAfter(StateAfter(m, cs), ds)
    decreases |cs|
  {
    if cs == [] {
      assert cs + ds == ds;
    } else {
      StateAfterConcat(After(m, cs[0]), cs[1..], ds);
      assert (cs + ds)[1..] == cs[1..] + ds;
    }
  }

  lemma StateAfterOne(m: Sources, c: Call)
    ensures StateAfter(m, [c]) == After(m, c)
  {
    assert [c][1..] == [];
    assert StateAfter(After(m, c), []) == After(m, c);
  }

  /** Every record of the address is made at `t` or before. */
  ghost predicate RecordedBy(cs: seq<Call>, ip: IpAddr, t: nat) {
    forall k :: 0 <= k < |cs| && IsRecord(cs[k], ip) ==> cs[k].second <= t
  }

  /** The address has `n` records in the window that began at `w`, and no ban. */
  ghost predicate Counted(m: Sources, ip: IpAddr, w: nat, n: nat) {
    ip in m && m[ip] == SourceState(w, n, None) && 0 < n < BAN_THRESHOLD
  }

  /** Only its own records change what is counted for an address. */
  lemma OtherCallKeeps(m: Sources, c: Call, ip: IpAddr, w: nat, n: nat)
    requires Counted(m, ip, w, n) && !IsRecord(c, ip)
    ensures Counted(After(m, c), ip, w, n)
  {
  }

  lemma RecordCounts(m: Sources, c: Call, w: nat, n: nat)
    requires c.Record? && Counted(m, c.ip, w, n) && c.second <= w + BAD_WINDOW
    ensures if n + 1 < BAN_THRESHOLD then Counted(After(m, c), c.ip, w, n + 1)
            else BanIs(After(m, c), c.ip, c.second + BAN_TTL)
  {
  }

  /** An address that is unknown, or whose window is over: a record begins a new window. */
  ghost predicate Rested(m: Sources, c: Call) {
    var p := PrunedSources(m, c.first);
    c.ip in p ==> p[c.ip].bannedUntil == None && p[c.ip].windowStarted + BAD_WINDOW < c.second
  }

  lemma FirstRecordCounts(m: Sources, c: Call)
    requires c.Record? && Rested(m, c)
    ensures Counted(After(m, c), c.ip, c.second, 1)
  {
  }

  lemma {:induction false} CountsOn(m: Sources, cs: seq<Call>, ip: IpAddr, w: nat, n: nat)
    requires Counted(m, ip, w, n) && RecordedBy(cs, ip, w + BAD_WINDOW) && n + Records(cs, ip) < BAN_THRESHOLD
    ensures Counted(StateAfter(m, cs), ip, w, n + Records(cs, ip))
    decreases |cs|
  {
    if cs != [] {
      if IsRecord(cs[0], ip) {
        RecordCounts(m, cs[0], w, n);
        CountsOn(After(m, cs[0]), cs[1..], ip, w, n + 1);
      } else {
        OtherCallKeeps(m, cs[0], ip, w, n);
        CountsOn(After(m, cs[0]), cs[1..], ip, w, n);
      }
    }
  }

  /** With the record that makes 64 in one window the address is banned, until 60 s after it. */
  lemma CountsToBan(m: Sources, cs: seq<Call>, c: Call, w: nat, n: nat)
    requires Counted(m, c.ip, w, n) && RecordedBy(cs, c.ip, w + BAD_WINDOW) && n + Records(cs, c.ip) == BAN_THRESHOLD - 1
    requires c.Record? && c.second <= w + BAD_WINDOW
    ensures BanIs(StateAfter(m, cs + [c]), c.ip, c.second + BAN_TTL)
  {
    CountsOn(m, cs, c.ip, w, n);
    StateAfterConcat(m, cs, [c]);
    StateAfterOne(StateAfter(m, cs), c);
    RecordCounts(StateAfter(m, cs), c, w, n + Records(cs, c.ip));
  }

  /** 64 records within 10 s of the first ban an address that had rested, until 60 s after the last. */
  lemma SixtyFourBan(m: Sources, first: Call, cs: seq<Call>, last: Call)
    requires first.Record? && Rested(m, first) && IsRecord(last, first.ip) && Records(cs, first.ip) == BAN_THRESHOLD - 2
    requires RecordedBy(cs, first.ip, first.second + BAD_WINDOW) && last.second <= first.second + BAD_WINDOW
    ensures BanIs(StateAfter(m, [first] + cs + [last]), first.ip, last.second + BAN_TTL)
  {
    FirstRecordCounts(m, first);
    CountsToBan(After(m, first), cs, last, first.second, 1);
    StateAfterOne(m, first);
    StateAfterConcat(m, [first], cs + [last]);
    assert [first] + (cs + [last]) == [first] + cs + [last];
  }

  // ---- A window that is still running

  /** Where the first record behind `t` is: before it all are at `t` or before, from it on all are later. */
  ghost predicate CutAt(cs: seq<Call>, ip: IpAddr, t: nat, j: nat) {
    && j < |cs| && RecordedBy(cs[..j], ip, t) && IsRecord(cs[j], ip) && t < cs[j].second
  }

  lemma {:induction false} FindCut(cs: seq<Call>, ip: IpAddr, t: nat) returns (j: nat)
    requires !RecordedBy(cs, ip, t)
    ensures CutAt(cs, ip, t, j)
    decreases |cs|
  {
    var n := |cs| - 1;
    if RecordedBy(cs[..n], ip, t) {
      return n;
    }
    j := FindCut(cs[..n], ip, t);
    assert cs[..n][..j] == cs[..j];
  }

  /** A record in a window that is over. */
  lemma NewWindow(m: Sources, c: Call, w: nat, n: nat)
    requires c.Record? && Counted(m, c.ip, w, n) && w + BAD_WINDOW < c.second
    ensures Counted(After(m, c), c.ip, c.second, 1)
  {
    FirstRecordCounts(m, c);
  }

  lemma CutCounts(m: Sources, cs: seq<Call>, ip: IpAddr, w: nat, n: nat, j: nat)
    requires Counted(m, ip, w, n) && CutAt(cs, ip, w + BAD_WINDOW, j) && n + Records(cs[..j], ip) < BAN_THRESHOLD
    ensures Counted(StateAfter(m, cs[..j + 1]), ip, cs[j].second, 1)
  {
    CountsOn(m, cs[..j], ip, w, n);
    var m' := StateAfter(m, cs[..j]);
    assert cs[..j + 1] == cs[..j] + [cs[j]];
    StateAfterConcat(m, cs[..j], [cs[j]]);
    StateAfterOne(m', cs[j]);
    NewWindow(m', cs[j], w, n + Records(cs[..j], ip));
  }

  /**
   * The window does not slide. Of records within 10 s of each other those that still fall into an earlier window are
   * lost for the next one: with `n` counted before, the address is left unbanned if neither they nor the others
   * reach 64.
   */
  lemma CutKeepsFromBan(m: Sources, cs: seq<Call>, ip: IpAddr, w: nat, n: nat, j: nat)
    requires Counted(m, ip, w, n) && CutAt(cs, ip, w + BAD_WINDOW, j) && RecordedBy(cs, ip, cs[j].second + BAD_WINDOW)
    requires n + Records(cs[..j], ip) < BAN_THRESHOLD && Records(cs[j..], ip) < BAN_THRESHOLD
    ensures Counted(StateAfter(m, cs), ip, cs[j].second, Records(cs[j..], ip))
  {
    CutCounts(m, cs, ip, w, n, j);
    var rest := cs[j + 1..];
    assert cs[j..] == [cs[j]] + rest && cs == cs[..j + 1] + rest;
    CountsOn(StateAfter(m, cs[..j + 1]), rest, ip, cs[j].second, 1);
    StateAfterConcat(m, cs[..j + 1], rest);
  }

  /** How many records of the address are made at `t` or before. */
  function RecordsUpTo(cs: seq<Call>, ip: IpAddr, t: nat): nat
    decreases |cs|
  {
    if cs == [] then 0 else (if IsRecord(cs[0], ip) && cs[0].second <= t then 1 else 0) + RecordsUpTo(cs[1..], ip, t)
  }

  lemma {:induction false} UpToConcat(cs: seq<Call>, ds: seq<Call>, ip: IpAddr, t: nat)
    ensures RecordsUpTo(cs + ds, ip, t) == RecordsUpTo(cs, ip, t) + RecordsUpTo(ds, ip, t)
    decreases |cs|
  {
    if cs == [] {
      assert cs + ds == ds;
    } else {
      UpToConcat(cs[1..], ds, ip, t);
      assert (cs + ds)[1..] == cs[1..] + ds;
    }
  }

  lemma {:induction false} UpToAll(cs: seq<Call>, ip: IpAddr, t: nat)
    requires RecordedBy(cs, ip, t)
    ensures RecordsUpTo(cs, ip, t) == Records(cs, ip)
    decreases |cs|
  {
    if cs != [] {
      UpToAll(cs[1..], ip, t);
    }
  }

  lemma {:induction false} UpToNone(cs: seq<Call>, ip: IpAddr, t: nat)
    requires forall k :: 0 <= k < |cs| ==> t < cs[k].second
    ensures RecordsUpTo(cs, ip, t) == 0
    decreases |cs|
  {
    if cs != [] {
      UpToNone(cs[1..], ip, t);
    }
  }

  lemma {:induction false} ClockedFrom(cs: seq<Call>, now: nat, i: nat, k: nat)
    requires Clocked(cs, now) && i <= k < |cs|
    ensures cs[i].second <= cs[k].second && now <= cs[k].first <= cs[k].second
    decreases |cs|
  {
    ClockedUpTo(cs, now, k);
    if i > 0 {
      ClockedFrom(cs[1..], cs[0].second, i - 1, k - 1);
    }
  }

  /** The records at `t` or before are those ahead of the cut. */
  lemma UpToIsAhead(cs: seq<Call>, ip: IpAddr, t: nat, now: nat, j: nat)
    requires Clocked(cs, now) && CutAt(cs, ip, t, j)
    ensures RecordsUpTo(cs, ip, t) == Records(cs[..j], ip)
    ensures Records(cs, ip) == Records(cs[..j], ip) + Records(cs[j..], ip)
  {
    assert cs == cs[..j] + cs[j..];
    UpToConcat(cs[..j], cs[j..], ip, t);
    RecordsConcat(cs[..j], cs[j..], ip);
    UpToAll(cs[..j], ip, t);
    forall k | 0 <= k < |cs[j..]| ensures t < cs[j..][k].second {
      ClockedFrom(cs, now, j, j + k);
    }
    UpToNone(cs[j..], ip, t);
  }

  /** A ban that outlasts a run of calls is still there after it. */
  lemma BanOutlasts(m: Sources, cs: seq<Call>, ip: IpAddr, until: nat)
    requires BanIs(m, ip, until) && forall k :: 0 <= k < |cs| ==> cs[k].first <= cs[k].second < until
    ensures BanIs(StateAfter(m, cs), ip, until)
  {
    if cs != [] {
      BanLasts(m, cs, ip, until, 0);
    }
  }

  /** Enough records in one window ban the address, and the ban outlasts the window. */
  lemma {:induction false} ReachesBan(m: Sources, cs: seq<Call>, ip: IpAddr, w: nat, n: nat) returns (until: nat)
    requires Counted(m, ip, w, n) && RecordedBy(cs, ip, w + BAD_WINDOW) && n + Records(cs, ip) >= BAN_THRESHOLD
    requires forall k :: 0 <= k < |cs| ==> w <= cs[k].first <= cs[k].second < w + BAN_TTL
    ensures BanIs(StateAfter(m, cs), ip, until) && w + BAN_TTL <= until
    decreases |cs|
  {
    var m' := After(m, cs[0]);
    if !IsRecord(cs[0], ip) {
      OtherCallKeeps(m, cs[0], ip, w, n);
      until := ReachesBan(m', cs[1..], ip, w, n);
    } else {
      RecordCounts(m, cs[0], w, n);
      if n + 1 < BAN_THRESHOLD {
        until := ReachesBan(m', cs[1..], ip, w, n + 1);
      } else {
        until := cs[0].second + BAN_TTL;
        BanOutlasts(m', cs[1..], ip, until);
      }
    }
  }

  /** The calls of a run whose last records `ip`, with 64 records of it in all, none more than 10 s before the last. */
  ghost predicate SixtyFour(cs: seq<Call>, ip: IpAddr) {
    && cs != [] && IsRecord(cs[|cs| - 1], ip) && Records(cs, ip) == BAN_THRESHOLD
    && forall k :: 0 <= k < |cs| && IsRecord(cs[k], ip) ==> cs[|cs| - 1].second <= cs[k].second + BAD_WINDOW
  }

  lemma EnoughInWindow(m: Sources, cs: seq<Call>, ip: IpAddr, w: nat, n: nat, j: nat)
    requires Counted(m, ip, w, n) && j <= |cs| && RecordedBy(cs[..j], ip, w + BAD_WINDOW) && n + Records(cs[..j], ip) >= BAN_THRESHOLD
    requires forall k :: 0 <= k < |cs| ==> w <= cs[k].first <= cs[k].second < w + BAN_TTL
    ensures ip in StateAfter(m, cs) && forall t: nat :: t < w + BAN_TTL ==> BannedAt(StateAfter(m, cs)[ip], t)
  {
    var until := ReachesBan(m, cs[..j], ip, w, n);
    BanOutlasts(StateAfter(m, cs[..j]), cs[j..], ip, until);
    StateAfterConcat(m, cs[..j], cs[j..]);
    assert cs == cs[..j] + cs[j..];
  }

  lemma AllAfterCut(m: Sources, cs: seq<Call>, ip: IpAddr, w: nat, n: nat, j: nat)
    requires Counted(m, ip, w, n) && CutAt(cs, ip, w + BAD_WINDOW, j) && n + Records(cs[..j], ip) < BAN_THRESHOLD
    requires j < |cs| - 1 && IsRecord(cs[|cs| - 1], ip) && Records(cs[j..], ip) == BAN_THRESHOLD
    requires RecordedBy(cs, ip, cs[j].second + BAD_WINDOW)
    ensures BanIs(StateAfter(m, cs), ip, cs[|cs| - 1].second + BAN_TTL)
  {
    var l := |cs| - 1;
    var mid := cs[j + 1..l];
    CutCounts(m, cs, ip, w, n, j);
    assert cs[j..] == [cs[j]] + (mid + [cs[l]]);
    RecordsBetween(cs[j], mid, cs[l], ip);
    CountsToBan(StateAfter(m, cs[..j + 1]), mid, cs[l], cs[j].second, 1);
    StateAfterConcat(m, cs[..j + 1], mid + [cs[l]]);
    assert cs == cs[..j + 1] + (mid + [cs[l]]);
  }

  lemma RecordsBetween(a: Call, mid: seq<Call>, b: Call, ip: IpAddr)
    requires IsRecord(a, ip) && IsRecord(b, ip)
    ensures Records([a] + (mid + [b]), ip) == Records(mid, ip) + 2
  {
    RecordsConcat([a], mid + [b], ip);
    RecordsConcat(mid, [b], ip);
    RecordsOne(a, ip);
    RecordsOne(b, ip);
  }

  lemma RecordsOne(c: Call, ip: IpAddr)
    ensures Records([c], ip) == if IsRecord(c, ip) then 1 else 0
  {
    assert [c][1..] == [];
    assert Records([], ip) == 0;
  }

  lemma {:induction false} RecordsAreCalls(cs: seq<Call>, ip: IpAddr)
    ensures Records(cs, ip) <= |cs|
    decreases |cs|
  {
    if cs != [] {
      RecordsAreCalls(cs[1..], ip);
    }
  }

  lemma {:induction false} SomeRecord(cs: seq<Call>, ip: IpAddr) returns (k: nat)
    requires Records(cs, ip) > 0
    ensures k < |cs| && IsRecord(cs[k], ip)
    decreases |cs|
  {
    if IsRecord(cs[0], ip) {
      return 0;
    }
    k := SomeRecord(cs[1..], ip);
    k := k + 1;
  }

  /**
   * Exactly when 64 records within 10 s leave an address banned for which `n` were counted in a window from `w` on.
   * The window does not slide: if `p` of the 64 still fall into it, they must reach 64 with the `n`, or there must be
   * none of them, so that all 64 fall into the next.
   */
  lemma SixtyFourBanIff(m: Sources, cs: seq<Call>, ip: IpAddr, w: nat, n: nat)
    requires Counted(m, ip, w, n) && Clocked(cs, w) && SixtyFour(cs, ip)
    ensures ip in StateAfter(m, cs)
    ensures var p := RecordsUpTo(cs, ip, w + BAD_WINDOW);
      BannedAt(StateAfter(m, cs)[ip], cs[|cs| - 1].second) <==> p == 0 || n + p >= BAN_THRESHOLD
  {
    var l, t := |cs| - 1, w + BAD_WINDOW;
    forall k | 0 <= k < |cs| ensures w <= cs[k].first <= cs[k].second <= cs[l].second {
      ClockedFrom(cs, w, k, l);
      ClockedFrom(cs, w, k, k);
    }
    if RecordedBy(cs, ip, t) {
      UpToAll(cs, ip, t);
      assert cs[..|cs|] == cs;
      EnoughInWindow(m, cs, ip, w, n, |cs|);
    } else {
      var j := FindCut(cs, ip, t);
      UpToIsAhead(cs, ip, t, w, j);
      var p := Records(cs[..j], ip);
      if n + p >= BAN_THRESHOLD {
        var k := SomeRecord(cs[..j], ip);
        assert cs[l].second <= cs[k].second + BAD_WINDOW;
        EnoughInWindow(m, cs, ip, w, n, j);
      } else if p == 0 {
        RecordsAreCalls(cs[j..], ip);
        AllAfterCut(m, cs, ip, w, n, j);
      } else {
        CutKeepsFromBan(m, cs, ip, w, n, j);
      }
    }
  }

  lemma {:induction false} BurstRecords(ip: IpAddr, n: nat, t: nat)
    ensures Records(Burst(ip, n, t), ip) == n
    ensures forall k :: 0 <= k < n ==> Burst(ip, n, t)[k] == Record(ip, t, t)
    ensures Burst(ip, n, t)[n] == Ask(ip, t, t)
  {
    var cs := Burst(ip, n, t);
    if n == 0 {
      RecordsOne(cs[0], ip);
    } else {
      BurstRecords(ip, n - 1, t);
      assert cs[1..] == Burst(ip, n - 1, t);
      assert forall k :: 0 < k < n ==> cs[k] == cs[1..][k - 1];
      assert cs[n] == cs[1..][n - 1];
    }
  }

  /** One record, and 10 s later 64 more at two neighbouring instants: the address is not banned. */
  lemma SixtyFourMayNotBan(ip: IpAddr)
    ensures var m := After(map[], Record(ip, 0, 0));
      var cs := [Record(ip, BAD_WINDOW, BAD_WINDOW)] + Burst(ip, BAN_THRESHOLD - 1, BAD_WINDOW + 1);
      Records(cs, ip) == BAN_THRESHOLD && !Answer(StateAfter(m, cs), Ask(ip, BAD_WINDOW + 1, BAD_WINDOW + 1))
  {
    var m := After(map[], Record(ip, 0, 0));
    var late := Burst(ip, BAN_THRESHOLD - 1, BAD_WINDOW + 1);
    var cs := [Record(ip, BAD_WINDOW, BAD_WINDOW)] + late;
    BurstRecords(ip, BAN_THRESHOLD - 1, BAD_WINDOW + 1);
    RecordsOne(cs[0], ip);
    RecordsConcat([cs[0]], late, ip);
    assert cs[..1] == [cs[0]] && cs[1..] == late;
    assert Counted(m, ip, 0, 1);
    forall k | 0 <= k < |cs| && IsRecord(cs[k], ip) ensures cs[k].second <= cs[1].second + BAD_WINDOW {
      assert k > 0 ==> cs[k] == late[k - 1];
    }
    CutKeepsFromBan(m, cs, ip, 0, 1, 1);
  }
}
