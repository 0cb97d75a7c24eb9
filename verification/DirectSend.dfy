/**
 * Sending a fragment straight to the peer and waiting for its acknowledgement, and what the two ends make of each
 * other's packets. Datagrams from other addresses skip the check of the number of tries.
 */
module DirectSend {
  import opened Words
  import opened Options
  import opened Net
  import opened Packet
  import opened Fragmentation
  import opened Reassembly
  import opened ReliableSend
  import Transport

  // ---- The two ends understand each other

  /** `p2p_udp_ack_packet` */
  function AckPacket(mac: Bytes -> Tag, conn: ConnectionId, msgId: u32, timestamp: u64): Bytes {
    var m := Meta(1, msgId, 0, 0, timestamp);
    MakeHeader(Header(m, mac(UdpMacInput(conn, m, []))))
  }

  /**
   * A receiver under the same key admits a sent packet as the fragment it carries, exactly if the time in it lies between
   * 300 s before and 30 s after the receiver's.
   */
  lemma SentPacketIsAdmitted(s: Session, payload: Bytes, idx: nat, timestamp: u64, from: SocketAddr, wall: u64)
    requires Sendable(payload) && idx < FragCount(|payload|)
    ensures Transport.Admissible(s.mac, s.conn, FragmentPacket(s, payload, idx, timestamp), from, wall)
         == if wall - 300 <= timestamp <= wall + 30
            then Some(Arrival(Key(from, s.msgId), idx, FragCount(|payload|), Fragment(payload, idx))) else None
  {
    var m := Meta(0, s.msgId, idx, FragCount(|payload|), timestamp);
    var h := Header(m, s.mac(UdpMacInput(s.conn, m, Fragment(payload, idx))));
    FreshIff(timestamp, wall);
    Transport.AdmissibleMade(s.mac, s.conn, h, Fragment(payload, idx), from, wall);
  }

  /**
   * An acknowledgement under the same key releases the sender exactly if it is of its message and its time so near. Bytes
   * behind it do not matter.
   */
  lemma AckIsValidIff(s: Session, msgId: u32, timestamp: u64, now: u64, extra: Bytes)
    ensures IsValidAck(s, AckPacket(s.mac, s.conn, msgId, timestamp) + extra, now)
      <==> msgId == s.msgId && now - 300 <= timestamp <= now + 30
  {
    FreshIff(timestamp, now);
    var m := Meta(1, msgId, 0, 0, timestamp);
    ParseMake(Header(m, s.mac(UdpMacInput(s.conn, m, []))), extra);
  }

  /** The header of an acknowledgement of the session's message, signed under its key. */
  function SignedAck(s: Session, flags: byte, timestamp: u64): Bytes {
    var m := Meta(flags, s.msgId, 0, 0, timestamp);
    MakeHeader(Header(m, s.mac(UdpMacInput(s.conn, m, []))))
  }

  /** And nothing else releases it: whatever does begins with such an acknowledgement. */
  lemma OnlyAcksAreValid(s: Session, data: Bytes, now: u64)
    requires IsValidAck(s, data, now)
    ensures exists flags: byte, timestamp: u64 ::
      flags % 2 == 1 && now - 300 <= timestamp <= now + 30 && SignedAck(s, flags, timestamp) <= data
  {
    var h := ParseHeader(data).value;
    ValidIff(s.mac, s.conn, h, [], now);
    MakeParse(data);
    assert h.meta == Meta(h.meta.flags, s.msgId, 0, 0, h.meta.timestamp);
    assert SignedAck(s, h.meta.flags, h.meta.timestamp) == data[..HEADER_LEN] <= data;
  }

  // ---- Stop-and-wait

  /** What a wait of 400 ms brings: nothing, or a datagram with the time at which it is looked at. */
  datatype Received = Timeout | Datagram(from: SocketAddr, data: Bytes, now: u64)

  predicate Foreign(s: Session, r: Received) { r.Datagram? && r.from != s.peer }

  predicate Releases(s: Session, r: Received) { r.Datagram? && r.from == s.peer && IsValidAck(s, r.data, r.now) }

  function ReplyAt(script: seq<Received>, i: nat): Received { if i < |script| then script[i] else Timeout }

  function Max(a: nat, b: nat): nat { if a < b then b else a }

  /** Where the replies to a fragment end when the first is number `a` and those before `b - 1` did not end them. */
  function End(s: Session, script: seq<Received>, a: nat, b: nat): (e: nat)
    requires a < b
    ensures b <= e
    decreases Max(|script| + 1, a + MAX_TRIES) - b
  {
    var r := ReplyAt(script, b - 1);
    if Foreign(s, r) then End(s, script, a, b + 1)
    else if Releases(s, r) || b - a >= MAX_TRIES then b
    else End(s, script, a, b + 1)
  }

  /** The loop for one fragment: how far it gets in the script, how often it sends, and whether it is released. */
  method SendDirect(s: Session, pkt: Bytes, script: seq<Received>, k: nat) returns (k': nat, sent: seq<Bytes>, acked: bool)
    ensures k' == End(s, script, k, k + 1)
    ensures sent == Copies(pkt, k' - k)
    ensures acked == Releases(s, ReplyAt(script, k' - 1))
  {
    k', sent := k, [];
    var tries := 0;
    while true
      invariant k' == k + tries && sent == Copies(pkt, tries)
      invariant End(s, script, k, k + 1) == End(s, script, k, k' + 1)
      decreases Max(|script| + 1, k + MAX_TRIES) - k'
    {
      tries := tries + 1;
      sent := sent + [pkt];
      var reply := ReplyAt(script, k');
      k' := k' + 1;
      if Foreign(s, reply) {
        continue;
      }
      if Releases(s, reply) {
        return k', sent, true;
      }
      if tries >= MAX_TRIES {
        return k', sent, false;
      }
    }
  }

  function Foreigners(s: Session, script: seq<Received>, a: nat, b: nat): nat
    requires a <= b
  {
    if a == b then 0 else Foreigners(s, script, a, b - 1) + if Foreign(s, ReplyAt(script, b - 1)) then 1 else 0
  }

  lemma {:induction false} EndIsBounded(s: Session, script: seq<Received>, a: nat, b: nat)
    requires a < b && b - 1 <= a + MAX_TRIES + Foreigners(s, script, a, b - 1)
    requires b - 1 >= a + MAX_TRIES ==> b - 1 - a - MAX_TRIES < Foreigners(s, script, a, b - 1)
    ensures End(s, script, a, b) <= a + MAX_TRIES + Foreigners(s, script, a, End(s, script, a, b))
    ensures End(s, script, a, b) < a + MAX_TRIES ==> Releases(s, ReplyAt(script, End(s, script, a, b) - 1))
    decreases Max(|script| + 1, a + MAX_TRIES) - b
  {
    var r := ReplyAt(script, b - 1);
    if Foreign(s, r) || !(Releases(s, r) || b - a >= MAX_TRIES) {
      EndIsBounded(s, script, a, b + 1);
    }
  }

  /**
   * A fragment is sent at most ten times more often than datagrams from other addresses come in meanwhile, and fewer
   * than ten times only if it is released.
   */
  lemma SendsAreBounded(s: Session, script: seq<Received>, k: nat)
    ensures var e := End(s, script, k, k + 1);
      e - k <= MAX_TRIES + Foreigners(s, script, k, e) && (e - k < MAX_TRIES ==> Releases(s, ReplyAt(script, e - 1)))
  {
    EndIsBounded(s, script, k, k + 1);
  }

  /** Whether replies `a` up to `b` all leave the fragment unacknowledged. */
  predicate NoneReleases(s: Session, script: seq<Received>, a: nat, b: nat) {
    forall i: nat :: a <= i < b ==> !Releases(s, ReplyAt(script, i))
  }

  lemma {:induction false} EndIsBeyondIff(s: Session, script: seq<Received>, a: nat, b: nat)
    requires a < b <= a + MAX_TRIES
    ensures End(s, script, a, b) > a + MAX_TRIES
      <==> NoneReleases(s, script, b - 1, a + MAX_TRIES) && Foreign(s, ReplyAt(script, a + MAX_TRIES - 1))
    decreases a + MAX_TRIES - b
  {
    if b < a + MAX_TRIES {
      EndIsBeyondIff(s, script, a, b + 1);
    }
  }

  /** A fragment is sent more than ten times if and only if none of ten replies releases it and the tenth is foreign. */
  lemma MoreThanTenIff(s: Session, script: seq<Received>, k: nat)
    ensures End(s, script, k, k + 1) - k > MAX_TRIES
      <==> NoneReleases(s, script, k, k + MAX_TRIES) && Foreign(s, ReplyAt(script, k + MAX_TRIES - 1))
  {
    EndIsBeyondIff(s, script, k, k + 1);
  }

  /** Nine waits in vain, then `n` datagrams from another address, then nothing any more. */
  ghost predicate Worst(s: Session, script: seq<Received>, n: nat) {
    && |script| == MAX_TRIES - 1 + n
    && (forall i :: 0 <= i < MAX_TRIES - 1 ==> script[i] == Timeout)
    && (forall i :: MAX_TRIES - 1 <= i < |script| ==> Foreign(s, script[i]))
  }

  lemma {:induction false} WorstGoesOn(s: Session, script: seq<Received>, n: nat, b: nat)
    requires Worst(s, script, n) && 0 < b <= MAX_TRIES + n
    ensures End(s, script, 0, b) == MAX_TRIES + n
    decreases MAX_TRIES + n - b
  {
    if b < MAX_TRIES + n {
      WorstGoesOn(s, script, n, b + 1);
    }
  }

  lemma {:induction false} WorstForeigners(s: Session, script: seq<Received>, n: nat, c: nat)
    requires Worst(s, script, n) && c <= MAX_TRIES + n
    ensures Foreigners(s, script, 0, c) == if c < MAX_TRIES then 0 else if c == MAX_TRIES + n then n else c - MAX_TRIES + 1
  {
    if c > 0 {
      WorstForeigners(s, script, n, c - 1);
    }
  }

  /** The bound is attained for every number of such datagrams. */
  lemma BoundIsAttained(s: Session, script: seq<Received>, n: nat)
    requires Worst(s, script, n)
    ensures var e := End(s, script, 0, 1); e == MAX_TRIES + n && Foreigners(s, script, 0, e) == n
  {
    WorstGoesOn(s, script, n, 1);
    WorstForeigners(s, script, n, MAX_TRIES + n);
  }
}
