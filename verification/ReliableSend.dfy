/**
 * Stop-and-wait sending of one message, through a TURN relay. The network is a script of what each
 * wait of 400 ms brings; past its end nothing comes any more.
 */
module ReliableSend {
  import opened Words
  import opened Options
  import opened Net
  import opened Packet
  import opened Fragmentation
  import opened StunAddress

  /** Fixed for one call: the keyed MAC, the connection, the peer and the message id. */
  datatype Session = Session(mac: Bytes -> Tag, conn: ConnectionId, peer: SocketAddr, msgId: u32)

  const MAX_TRIES: nat := 10

  /** A header that acknowledges this message, freshly and under the right key. Extra bytes after it are ignored. */
  predicate IsValidAck(s: Session, data: Bytes, now: u64) {
    var h := ParseHeader(data);
    && h.Some?
    && IsAck(h.value.meta.flags) && h.value.meta.msgId == s.msgId
    && h.value.meta.fragIdx == 0 && h.value.meta.fragCnt == 0
    && ValidateFragment(s.mac, s.conn, h.value, [], now) == None
  }

  /** Fragment `idx` as sent at time `timestamp`. */
  function FragmentPacket(s: Session, payload: Bytes, idx: nat, timestamp: u64): (p: Bytes)
    requires Sendable(payload) && idx < FragCount(|payload|)
    ensures |p| <= MTU_PAYLOAD
  {
    var m := Meta(0, s.msgId, idx, FragCount(|payload|), timestamp);
    MakeHeader(Header(m, s.mac(UdpMacInput(s.conn, m, Fragment(payload, idx))))) + Fragment(payload, idx)
  }

  // ---- Through a relay

  /** What a wait brings: nothing, or a STUN message with the time at which it is looked at. */
  datatype Reply = Silence | Message(msg: Bytes, now: u64)

  /** What it is to the sender: nothing of use, the acknowledgement it waits for, or data for somebody else. */
  datatype Heard = Nothing | Release | Other(ind: Indication)

  function Hear(s: Session, r: Reply): Heard {
    if r.Silence? then Nothing
    else
      match ParseDataIndication(r.msg)
      case None => Nothing
      case Some(i) => if i.peer == s.peer && IsValidAck(s, i.data, r.now) then Release else Other(i)
  }

  function HearAll(s: Session, script: seq<Reply>): (hs: seq<Heard>)
    ensures |hs| == |script|
  {
    if script == [] then [] else HearAll(s, script[..|script| - 1]) + [Hear(s, script[|script| - 1])]
  }

  lemma {:induction false} HearAllAt(s: Session, script: seq<Reply>, i: nat)
    requires i < |script|
    ensures HearAll(s, script)[i] == Hear(s, script[i])
  {
    if i < |script| - 1 {
      HearAllAt(s, script[..|script| - 1], i);
    }
  }

  function Copies<T>(x: T, n: nat): (c: seq<T>)
    ensures |c| == n
  {
    if n == 0 then [] else Copies(x, n - 1) + [x]
  }

  lemma {:induction false} CopiesAt<T>(x: T, n: nat)
    ensures forall i :: 0 <= i < n ==> Copies(x, n)[i] == x
  {
    if n > 0 {
      CopiesAt(x, n - 1);
    }
  }

  function At(hs: seq<Heard>, i: nat): Heard { if i < |hs| then hs[i] else Nothing }

  /** The inbox after `k` replies: what it held, then the indications that were not the awaited acknowledgement, in order. */
  function Kept(inbox: seq<Indication>, hs: seq<Heard>, k: nat): seq<Indication> {
    if k == 0 then inbox
    else Kept(inbox, hs, k - 1) + if At(hs, k - 1).Other? then [At(hs, k - 1).ind] else []
  }

  /** A reply that carries data for somebody: a Data indication that is not the awaited acknowledgement from the peer. */
  predicate IsOther(s: Session, r: Reply) {
    && r.Message? && ParseDataIndication(r.msg).Some?
    && (var ind := ParseDataIndication(r.msg).value; !(ind.peer == s.peer && IsValidAck(s, ind.data, r.now)))
  }

  /** How many of the first `k` replies do. */
  function Others(s: Session, script: seq<Reply>, k: nat): nat {
    if k == 0 then 0 else Others(s, script, k - 1) + if k <= |script| && IsOther(s, script[k - 1]) then 1 else 0
  }

  lemma OtherIsHeard(s: Session, r: Reply)
    ensures IsOther(s, r) <==> Hear(s, r).Other?
    ensures IsOther(s, r) ==> Hear(s, r).ind == ParseDataIndication(r.msg).value
  {
  }

  /** The inbox grows by one indication for each reply that carries data for somebody, behind what it held. */
  lemma InboxGrows(s: Session, script: seq<Reply>, inbox: seq<Indication>, k: nat)
    ensures var kept := Kept(inbox, HearAll(s, script), k); inbox <= kept && |kept| == |inbox| + Others(s, script, k)
  {
    KeptGrows(inbox, HearAll(s, script), k);
    OthersAreKept(s, script, k);
  }

  /** And each such reply is there as it was parsed, in the order of arrival. */
  lemma InboxHolds(s: Session, script: seq<Reply>, inbox: seq<Indication>, k: nat, i: nat) returns (n: nat)
    requires i < k && i < |script| && IsOther(s, script[i])
    ensures n == |inbox| + Others(s, script, i)
    ensures n < |Kept(inbox, HearAll(s, script), k)|
    ensures Some(Kept(inbox, HearAll(s, script), k)[n]) == ParseDataIndication(script[i].msg)
  {
    var ind := OtherIsHeardAt(s, script, i);
    OthersAreKept(s, script, i);
    n := |inbox| + Others(s, script, i);
    HeldAt(inbox, HearAll(s, script), k, i, Others(s, script, i), ind);
  }

  lemma HeldAt(inbox: seq<Indication>, hs: seq<Heard>, k: nat, i: nat, n: nat, ind: Indication)
    requires i < k && At(hs, i) == Other(ind) && n == KeptCount(hs, i)
    ensures var kept := Kept(inbox, hs, k); |inbox| + n < |kept| && kept[|inbox| + n] == ind
  {
    KeptHolds(inbox, hs, k, i);
  }

  lemma OtherIsHeardAt(s: Session, script: seq<Reply>, i: nat) returns (ind: Indication)
    requires i < |script| && IsOther(s, script[i])
    ensures At(HearAll(s, script), i) == Other(ind) && ParseDataIndication(script[i].msg) == Some(ind)
  {
    HearAllAt(s, script, i);
    OtherIsHeard(s, script[i]);
    ind := ParseDataIndication(script[i].msg).value;
  }

  /** How many of the first `k` replies are kept. */
  function KeptCount(hs: seq<Heard>, k: nat): nat {
    if k == 0 then 0 else KeptCount(hs, k - 1) + if At(hs, k - 1).Other? then 1 else 0
  }

  lemma {:induction false} OthersAreKept(s: Session, script: seq<Reply>, k: nat)
    ensures Others(s, script, k) == KeptCount(HearAll(s, script), k)
  {
    if k > 0 {
      OthersAreKept(s, script, k - 1);
      if k <= |script| {
        HearAllAt(s, script, k - 1);
        OtherIsHeard(s, script[k - 1]);
      }
    }
  }

  lemma {:induction false} KeptGrows(inbox: seq<Indication>, hs: seq<Heard>, k: nat)
    ensures var kept := Kept(inbox, hs, k); inbox <= kept && |kept| == |inbox| + KeptCount(hs, k)
  {
    if k > 0 {
      KeptGrows(inbox, hs, k - 1);
    }
  }

  lemma {:induction false} KeptHolds(inbox: seq<Indication>, hs: seq<Heard>, k: nat, i: nat)
    requires i < k && At(hs, i).Other?
    ensures var kept := Kept(inbox, hs, k);
      |inbox| + KeptCount(hs, i) < |kept| && kept[|inbox| + KeptCount(hs, i)] == At(hs, i).ind
  {
    KeptGrows(inbox, hs, k - 1);
    if i < k - 1 {
      KeptHolds(inbox, hs, k - 1, i);
    }
  }

  /** A fragment is released exactly by a Data indication from the peer with an acknowledgement of this message. */
  lemma ReleasedBy(s: Session, script: seq<Reply>, i: nat)
    ensures At(HearAll(s, script), i).Release? <==>
      && i < |script| && script[i].Message? && ParseDataIndication(script[i].msg).Some?
      && ParseDataIndication(script[i].msg).value.peer == s.peer
      && IsValidAck(s, ParseDataIndication(script[i].msg).value.data, script[i].now)
  {
    if i < |script| {
      HearAllAt(s, script, i);
    }
  }

  /** Where the replies to a fragment end when the first is number `a`: after the one that releases it, or the tenth. */
  function Stop(hs: seq<Heard>, a: nat, b: nat): (e: nat)
    requires a < b <= a + MAX_TRIES
    ensures b <= e <= a + MAX_TRIES
    decreases a + MAX_TRIES - b
  {
    if At(hs, b - 1).Release? || b == a + MAX_TRIES then b else Stop(hs, a, b + 1)
  }

  /** How often a fragment is sent when its first reply is number `k`: until it is released, at most ten times. */
  function Tries(hs: seq<Heard>, k: nat): (t: nat)
    ensures 1 <= t <= MAX_TRIES
  {
    Stop(hs, k, k + 1) - k
  }

  predicate Acked(hs: seq<Heard>, k: nat) { At(hs, Stop(hs, k, k + 1) - 1).Release? }

  method Listen(s: Session, script: seq<Reply>, i: nat) returns (h: Heard)
    ensures h == At(HearAll(s, script), i)
  {
    if i < |script| {
      HearAllAt(s, script, i);
    }
    if i >= |script| || script[i].Silence? {
      return Nothing;
    }
    var ind := ParseDataIndication(script[i].msg);
    if ind == None {
      return Nothing;
    }
    if ind.value.peer == s.peer && IsValidAck(s, ind.value.data, script[i].now) {
      return Release;
    }
    return Other(ind.value);
  }

  /** The loop for one fragment: send, wait, keep what is for others, until released or after ten tries. */
  method SendFragment(s: Session, pkt: Bytes, script: seq<Reply>, k: nat, inbox: seq<Indication>, sent: seq<Bytes>,
                      ghost hs: seq<Heard>, ghost inbox0: seq<Indication>)
    returns (k': nat, inbox': seq<Indication>, sent': seq<Bytes>, acked: bool)
    requires hs == HearAll(s, script) && inbox == Kept(inbox0, hs, k)
    ensures k' == k + Tries(hs, k)
    ensures inbox' == Kept(inbox0, hs, k')
    ensures sent' == sent + Copies(pkt, Tries(hs, k))
    ensures acked == Acked(hs, k)
  {
    k', inbox', sent', acked := k, inbox, sent, false;
    var tries := 0;
    while true
      invariant 0 <= tries < MAX_TRIES && k' == k + tries
      invariant Stop(hs, k, k + 1) == Stop(hs, k, k' + 1)
      invariant sent' == sent + Copies(pkt, tries)
      invariant inbox' == Kept(inbox0, hs, k')
      decreases MAX_TRIES - tries
    {
      tries := tries + 1;
      sent' := sent' + [pkt];
      var heard := Listen(s, script, k');
      k' := k' + 1;
      if heard.Release? {
        return k', inbox', sent', true;
      }
      if heard.Other? {
        inbox' := inbox' + [heard.ind];
      }
      if tries >= MAX_TRIES {
        return k', inbox', sent', false;
      }
    }
  }

  // ---- A whole call

  /** Which fragment each send of a call carries, from fragment `i` on with its first reply being number `k`, and the outcome. */
  function Schedule(hs: seq<Heard>, k: nat, i: nat, cnt: nat): (seq<nat>, bool)
    requires i <= cnt
    decreases cnt - i
  {
    if i == cnt then ([], true)
    else if !Acked(hs, k) then (Copies(i, Tries(hs, k)), false)
    else
      var n := Tries(hs, k);
      var (later, ok) := Schedule(hs, k + n, i + 1, cnt);
      (Copies(i, n) + later, ok)
  }

  /** The packet of each fragment of a message, `clock` giving the time at which it is first sent. */
  function PacketAt(s: Session, payload: Bytes, clock: nat -> u64): nat -> Bytes {
    (i: nat) => if Sendable(payload) && i < FragCount(|payload|) then FragmentPacket(s, payload, i, clock(i)) else []
  }

  function Packets(pkt: nat -> Bytes, idxs: seq<nat>): (ps: seq<Bytes>)
    ensures |ps| == |idxs|
  {
    if idxs == [] then [] else Packets(pkt, idxs[..|idxs| - 1]) + [pkt(idxs[|idxs| - 1])]
  }

  lemma {:induction false} PacketsMore(pkt: nat -> Bytes, idxs: seq<nat>, i: nat, n: nat)
    ensures Packets(pkt, idxs + Copies(i, n)) == Packets(pkt, idxs) + Copies(pkt(i), n)
  {
    var more := idxs + Copies(i, n);
    if n == 0 {
      assert more == idxs;
    } else {
      PacketsMore(pkt, idxs, i, n - 1);
      assert more[..|more| - 1] == idxs + Copies(i, n - 1);
    }
  }

  datatype SendResult = Sent | TooManyFragments | TimedOut

  /** What is still to come of a call after the sends `idxs` of the fragments before `i`, put behind them. */
  function Resumed(hs: seq<Heard>, idxs: seq<nat>, i: nat, cnt: nat): (seq<nat>, bool)
    requires i <= cnt
  {
    var later := Schedule(hs, |idxs|, i, cnt);
    (idxs + later.0, later.1)
  }

  lemma ResumedStep(hs: seq<Heard>, idxs: seq<nat>, i: nat, cnt: nat)
    requires i < cnt
    ensures var idxs' := idxs + Copies(i, Tries(hs, |idxs|));
      Resumed(hs, idxs, i, cnt) == if Acked(hs, |idxs|) then Resumed(hs, idxs', i + 1, cnt) else (idxs', false)
  {
    var n := Tries(hs, |idxs|);
    if Acked(hs, |idxs|) {
      var later := Schedule(hs, |idxs| + n, i + 1, cnt).0;
      assert idxs + (Copies(i, n) + later) == idxs + Copies(i, n) + later;
    }
  }

  /** What holds between two fragments: the sends so far, in packets and in fragment numbers, and the rest of the plan. */
  ghost predicate Underway(pkt: nat -> Bytes, hs: seq<Heard>, plan: (seq<nat>, bool), i: nat, cnt: nat, idxs: seq<nat>,
                           k: nat, sent: seq<Bytes>)
    requires i <= cnt
  {
    sent == Packets(pkt, idxs) && k == |idxs| && plan == Resumed(hs, idxs, i, cnt)
  }

  ghost predicate Finished(pkt: nat -> Bytes, plan: (seq<nat>, bool), k: nat, sent: seq<Bytes>, ok: bool) {
    sent == Packets(pkt, plan.0) && k == |plan.0| && ok == plan.1
  }

  lemma Advance(pkt: nat -> Bytes, hs: seq<Heard>, plan: (seq<nat>, bool), i: nat, cnt: nat, idxs: seq<nat>,
                k: nat, sent: seq<Bytes>, n: nat, sent': seq<Bytes>, acked: bool)
    requires i < cnt && Underway(pkt, hs, plan, i, cnt, idxs, k, sent)
    requires n == Tries(hs, k) && sent' == sent + Copies(pkt(i), n) && acked == Acked(hs, k)
    ensures acked ==> Underway(pkt, hs, plan, i + 1, cnt, idxs + Copies(i, n), k + n, sent')
    ensures !acked ==> Finished(pkt, plan, k + n, sent', false)
  {
    PacketsMore(pkt, idxs, i, n);
    ResumedStep(hs, idxs, i, cnt);
  }

  lemma AllDone(pkt: nat -> Bytes, hs: seq<Heard>, plan: (seq<nat>, bool), cnt: nat, idxs: seq<nat>, k: nat, sent: seq<Bytes>)
    requires Underway(pkt, hs, plan, cnt, cnt, idxs, k, sent)
    ensures Finished(pkt, plan, k, sent, true)
  {
    assert idxs + [] == idxs;
  }

  /** All fragments in turn; the packets are given by number. */
  method SendAll(s: Session, pkt: nat -> Bytes, cnt: nat, script: seq<Reply>, inbox: seq<Indication>,
                 ghost hs: seq<Heard>, ghost plan: (seq<nat>, bool))
    returns (ok: bool, k: nat, sent: seq<Bytes>, inbox': seq<Indication>)
    requires hs == HearAll(s, script) && Underway(pkt, hs, plan, 0, cnt, [], 0, [])
    ensures Finished(pkt, plan, k, sent, ok) && inbox' == Kept(inbox, hs, k)
  {
    k, sent, inbox' := 0, [], inbox;
    ghost var idxs: seq<nat> := [];
    for fragIdx: nat := 0 to cnt
      invariant Underway(pkt, hs, plan, fragIdx, cnt, idxs, k, sent)
      invariant inbox' == Kept(inbox, hs, k)
    {
      ghost var k0, sent0, n := k, sent, Tries(hs, k);
      var acked: bool;
      k, inbox', sent, acked := SendFragment(s, pkt(fragIdx), script, k, inbox', sent, hs, inbox);
      Advance(pkt, hs, plan, fragIdx, cnt, idxs, k0, sent0, n, sent, acked);
      idxs := idxs + Copies<nat>(fragIdx, n);
      if !acked {
        return false, k, sent, inbox';
      }
    }
    AllDone(pkt, hs, plan, cnt, idxs, k, sent);
    ok := true;
  }

  /**
   * `turn_send_reliable_over_indication`: the packets are sent as scheduled, and every Data indication that
   * comes in and is not the awaited acknowledgement ends up in the inbox, in order, also on a timeout.
   */
  method TurnSendReliable(s: Session, payload: Bytes, clock: nat -> u64, script: seq<Reply>, inbox: seq<Indication>)
    returns (r: SendResult, sent: seq<Bytes>, inbox': seq<Indication>)
    ensures r == TooManyFragments <==> !Sendable(payload)
    ensures r == TooManyFragments ==> sent == [] && inbox' == inbox
    ensures r != TooManyFragments ==>
      var hs := HearAll(s, script);
      var (idxs, ok) := Schedule(hs, 0, 0, FragCount(|payload|));
      && sent == Packets(PacketAt(s, payload, clock), idxs)
      && inbox' == Kept(inbox, hs, |idxs|)
      && r == if ok then Sent else TimedOut
  {
    var fragCnt := FragCount(|payload|);
    if fragCnt > MAX_FRAGMENTS_PER_MESSAGE {
      return TooManyFragments, [], inbox;
    }
    var ok: bool;
    ghost var hs := HearAll(s, script);
    ghost var plan := Schedule(hs, 0, 0, fragCnt);
    assert [] + plan.0 == plan.0;
    var k: nat;
    ok, k, sent, inbox' := SendAll(s, PacketAt(s, payload, clock), fragCnt, script, inbox, hs, plan);
    r := if ok then Sent else TimedOut;
  }

  // ---- Bounds and conservation

  function Times(idxs: seq<nat>, f: nat): nat {
    if idxs == [] then 0 else (if idxs[0] == f then 1 else 0) + Times(idxs[1..], f)
  }

  lemma {:induction false} TimesConcat(a: seq<nat>, b: seq<nat>, f: nat)
    ensures Times(a + b, f) == Times(a, f) + Times(b, f)
  {
    if a == [] {
      assert a + b == b;
    } else {
      TimesConcat(a[1..], b, f);
      assert (a + b)[1..] == a[1..] + b;
    }
  }

  lemma {:induction false} TimesCopies(i: nat, n: nat, f: nat)
    ensures Times(Copies(i, n), f) == if f == i then n else 0
  {
    if n > 0 {
      TimesCopies(i, n - 1, f);
      TimesConcat(Copies(i, n - 1), [i], f);
      assert Times([i], f) == (if i == f then 1 else 0) + Times([], f);
    }
  }

  lemma {:induction false} TimesAbsent(idxs: seq<nat>, f: nat)
    requires forall j :: 0 <= j < |idxs| ==> idxs[j] != f
    ensures Times(idxs, f) == 0
  {
    if idxs != [] {
      TimesAbsent(idxs[1..], f);
    }
  }

  lemma {:induction false} ScheduleFrom(hs: seq<Heard>, k: nat, i: nat, cnt: nat)
    requires i <= cnt
    ensures forall j :: 0 <= j < |Schedule(hs, k, i, cnt).0| ==> i <= Schedule(hs, k, i, cnt).0[j] < cnt
    decreases cnt - i
  {
    if i < cnt {
      CopiesAt(i, Tries(hs, k));
    }
    if i < cnt && Acked(hs, k) {
      ScheduleFrom(hs, k + Tries(hs, k), i + 1, cnt);
    }
  }

  /** No fragment is sent more than ten times, and on success every fragment is sent. */
  lemma {:induction false} AtMostTenTimes(hs: seq<Heard>, k: nat, i: nat, cnt: nat, f: nat)
    requires i <= cnt
    ensures Times(Schedule(hs, k, i, cnt).0, f) <= MAX_TRIES
    ensures Schedule(hs, k, i, cnt).1 && i <= f < cnt ==> Times(Schedule(hs, k, i, cnt).0, f) >= 1
    decreases cnt - i
  {
    if i < cnt {
      var n := Tries(hs, k);
      TimesCopies(i, n, f);
      if Acked(hs, k) {
        var later := Schedule(hs, k + n, i + 1, cnt).0;
        TimesConcat(Copies(i, n), later, f);
        AtMostTenTimes(hs, k + n, i + 1, cnt, f);
        if f == i {
          ScheduleFrom(hs, k + n, i + 1, cnt);
          TimesAbsent(later, f);
        }
      }
    }
  }

  lemma {:induction false} StopsWhen(hs: seq<Heard>, a: nat, b: nat)
    requires a < b <= a + MAX_TRIES
    ensures At(hs, Stop(hs, a, b) - 1).Release? || Stop(hs, a, b) == a + MAX_TRIES
    decreases a + MAX_TRIES - b
  {
    if !At(hs, b - 1).Release? && b < a + MAX_TRIES {
      StopsWhen(hs, a, b + 1);
    }
  }

  /** A call fails only after its last fragment has been sent ten times. */
  lemma {:induction false} GivesUpAfterTen(hs: seq<Heard>, k: nat, i: nat, cnt: nat)
    requires i <= cnt && !Schedule(hs, k, i, cnt).1
    ensures var idxs := Schedule(hs, k, i, cnt).0; |idxs| >= MAX_TRIES && i <= idxs[|idxs| - 1] < cnt
    ensures var idxs := Schedule(hs, k, i, cnt).0;
      forall j :: |idxs| - MAX_TRIES <= j < |idxs| ==> idxs[j] == idxs[|idxs| - 1]
    decreases cnt - i
  {
    var n := Tries(hs, k);
    if Acked(hs, k) {
      GivesUpAfterTen(hs, k + n, i + 1, cnt);
    } else {
      StopsWhen(hs, k, k + 1);
      CopiesAt(i, n);
    }
  }

  /** So the whole call ends after at most ten sends per fragment. */
  lemma {:induction false} CallIsBounded(hs: seq<Heard>, k: nat, i: nat, cnt: nat)
    requires i <= cnt
    ensures |Schedule(hs, k, i, cnt).0| <= MAX_TRIES * (cnt - i)
    decreases cnt - i
  {
    if i < cnt && Acked(hs, k) {
      CallIsBounded(hs, k + Tries(hs, k), i + 1, cnt);
    }
  }

  function ReleasesIn(hs: seq<Heard>, a: nat, b: nat): nat
    requires a <= b
  {
    if a == b then 0 else ReleasesIn(hs, a, b - 1) + if At(hs, b - 1).Release? then 1 else 0
  }

  lemma {:induction false} ReleasesJoin(hs: seq<Heard>, a: nat, b: nat, c: nat)
    requires a <= b <= c
    ensures ReleasesIn(hs, a, c) == ReleasesIn(hs, a, b) + ReleasesIn(hs, b, c)
  {
    if b < c {
      ReleasesJoin(hs, a, b, c - 1);
    }
  }

  /** Of the replies to one fragment only the last can release it. */
  lemma {:induction false} OneRelease(hs: seq<Heard>, a: nat, b: nat)
    requires a < b <= a + MAX_TRIES && ReleasesIn(hs, a, b - 1) == 0
    ensures ReleasesIn(hs, a, Stop(hs, a, b)) == if At(hs, Stop(hs, a, b) - 1).Release? then 1 else 0
    decreases a + MAX_TRIES - b
  {
    if !At(hs, b - 1).Release? && b < a + MAX_TRIES {
      OneRelease(hs, a, b + 1);
    }
  }

  /**
   * Acknowledgements and fragments match: over a whole call exactly as many replies are taken as the awaited
   * acknowledgement as fragments were released, so (with the inbox) no indication is dropped or kept twice.
   */
  lemma {:induction false} EachReleaseReleasesOne(hs: seq<Heard>, k: nat, i: nat, cnt: nat)
    requires i <= cnt
    ensures var (idxs, ok) := Schedule(hs, k, i, cnt);
      ReleasesIn(hs, k, k + |idxs|) == if ok then cnt - i else idxs[|idxs| - 1] - i
    decreases cnt - i
  {
    if i < cnt {
      var n := Tries(hs, k);
      if Acked(hs, k) {
        EachReleaseReleasesOne(hs, k + n, i + 1, cnt);
        ReleasesAcked(hs, k, i, cnt, n, Schedule(hs, k + n, i + 1, cnt));
      } else {
        ReleasesUnacked(hs, k, i, cnt, n);
      }
    }
  }

  lemma ReleasesUnacked(hs: seq<Heard>, k: nat, i: nat, cnt: nat, n: nat)
    requires i < cnt && n == Tries(hs, k) && !Acked(hs, k)
    ensures var (idxs, ok) := Schedule(hs, k, i, cnt); !ok && idxs != [] && idxs[|idxs| - 1] == i && ReleasesIn(hs, k, k + |idxs|) == 0
  {
    OneRelease(hs, k, k + 1);
    CopiesAt(i, n);
  }

  lemma ReleasesAcked(hs: seq<Heard>, k: nat, i: nat, cnt: nat, n: nat, later: (seq<nat>, bool))
    requires i < cnt && n == Tries(hs, k) && Acked(hs, k) && later == Schedule(hs, k + n, i + 1, cnt)
    requires later.1 || later.0 != []
    requires ReleasesIn(hs, k + n, k + n + |later.0|) == if later.1 then cnt - i - 1 else later.0[|later.0| - 1] - i - 1
    ensures var (idxs, ok) := Schedule(hs, k, i, cnt);
      && (ok || idxs != []) && ReleasesIn(hs, k, k + |idxs|) == if ok then cnt - i else idxs[|idxs| - 1] - i
  {
    OneRelease(hs, k, k + 1);
    ReleasesJoin(hs, k, k + n, k + n + |later.0|);
    ScheduleAcked(hs, k, i, cnt, n, later);
  }

  lemma ScheduleAcked(hs: seq<Heard>, k: nat, i: nat, cnt: nat, n: nat, later: (seq<nat>, bool))
    requires i < cnt && n == Tries(hs, k) && Acked(hs, k) && later == Schedule(hs, k + n, i + 1, cnt)
    ensures Schedule(hs, k, i, cnt) == (Copies(i, n) + later.0, later.1)
  {
  }
}
