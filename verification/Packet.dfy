/** Addresses as the data plane sees them: IPv6 flow labels and scope ids are not part of an address here. */
module Net {
  import opened Words

  type Octets16 = s: Bytes | |s| == 16 witness seq(16, _ => 0)

  datatype IpAddr = Ip4(addr: u32) | Ip6(octets: Octets16)
  datatype SocketAddr = SocketAddr(ip: IpAddr, port: u16)
}

/** The P2P UDP packet header, the bytes that are authenticated, and fragment validation. */
module Packet {
  import opened Words
  import opened Options

  type Tag = s: Bytes | |s| == 32 witness seq(32, _ => 0)
  type ConnectionId = s: Bytes | |s| == 16 witness seq(16, _ => 0)

  const MAGIC: Bytes := [0x50, 0x32, 0x50, 0x55]  // "P2PU"
  const VERSION: byte := 2
  const HEADER_LEN: nat := 54
  const MTU_PAYLOAD: nat := 1200
  const REPLAY_WINDOW_SECS: nat := 300
  const MAX_FRAGMENTS_PER_MESSAGE: nat := 128

  // "GPUF-P2P-UDP-V2" and "GPUF-P2P-TCP-V1"
  const UDP_DOMAIN: Bytes := [0x47, 0x50, 0x55, 0x46, 0x2D, 0x50, 0x32, 0x50, 0x2D, 0x55, 0x44, 0x50, 0x2D, 0x56, 0x32]
  const TCP_DOMAIN: Bytes := [0x47, 0x50, 0x55, 0x46, 0x2D, 0x50, 0x32, 0x50, 0x2D, 0x54, 0x43, 0x50, 0x2D, 0x56, 0x31]

  /** Everything in a header except the tag. */
  datatype Meta = Meta(flags: byte, msgId: u32, fragIdx: u16, fragCnt: u16, timestamp: u64)

  datatype Header = Header(meta: Meta, tag: Tag)

  /** `flags & P2P_UDP_FLAG_ACK != 0` */
  predicate IsAck(flags: byte) { flags % 2 == 1 }

  function MetaBytes(m: Meta): (s: Bytes)
    ensures |s| == 17
  {
    [m.flags] + Be32(m.msgId) + Be16(m.fragIdx) + Be16(m.fragCnt) + Be64(m.timestamp)
  }

  function ParseMeta(s: Bytes): Meta
    requires |s| == 17
  {
    Meta(s[0], Get32(s[1..5]), Get16(s[5..7]), Get16(s[7..9]), Get64(s[9..17]))
  }

  lemma FiveParts(a: Bytes, b: Bytes, c: Bytes, d: Bytes, e: Bytes)
    requires |a| == 1 && |b| == 4 && |c| == 2 && |d| == 2 && |e| == 8
    ensures var s := a + b + c + d + e;
      |s| == 17 && s[0] == a[0] && s[1..5] == b && s[5..7] == c && s[7..9] == d && s[9..17] == e
  {
  }

  lemma ParseMetaInvertsMetaBytes(m: Meta)
    ensures ParseMeta(MetaBytes(m)) == m
  {
    var s := MetaBytes(m);
    FiveParts([m.flags], Be32(m.msgId), Be16(m.fragIdx), Be16(m.fragCnt), Be64(m.timestamp));
    Words32(m.msgId, s[1..5]);
    Words16(m.fragIdx, s[5..7]);
    Words16(m.fragCnt, s[7..9]);
    Words64(m.timestamp, s[9..17]);
  }

  lemma MetaBytesInvertsParseMeta(s: Bytes)
    requires |s| == 17
    ensures MetaBytes(ParseMeta(s)) == s
  {
    var m := ParseMeta(s);
    Words32(m.msgId, s[1..5]);
    Words16(m.fragIdx, s[5..7]);
    Words16(m.fragCnt, s[7..9]);
    Words64(m.timestamp, s[9..17]);
  }

  function MakeHeader(h: Header): (s: Bytes)
    ensures |s| == HEADER_LEN
  {
    MAGIC + [VERSION] + MetaBytes(h.meta) + h.tag
  }

  function ParseHeader(buf: Bytes): (r: Option<Header>)
  {
    if |buf| < HEADER_LEN then None
    else if buf[0..4] != MAGIC then None
    else if buf[4] != VERSION then None
    else Some(Header(ParseMeta(buf[5..22]), buf[22..54]))
  }

  /** Where each field stands on the wire, most significant byte first. */
  lemma HeaderOnTheWire(h: Header)
    ensures var b := MakeHeader(h);
      && b[0] == 'P' as int && b[1] == '2' as int && b[2] == 'P' as int && b[3] == 'U' as int && b[4] == 2
      && b[5] == h.meta.flags
      && Value4(b[6], b[7], b[8], b[9]) == h.meta.msgId
      && Value2(b[10], b[11]) == h.meta.fragIdx && Value2(b[12], b[13]) == h.meta.fragCnt
      && FromBe(b[14..22]) == h.meta.timestamp && b[22..] == h.tag
  {
    var b, m := MakeHeader(h), h.meta;
    var s := MetaBytes(m);
    FiveParts([m.flags], Be32(m.msgId), Be16(m.fragIdx), Be16(m.fragCnt), Be64(m.timestamp));
    assert b[5..22] == s;
    assert s[0] == b[5] && s[1..5] == b[6..10] && s[5..7] == b[10..12] && s[7..9] == b[12..14] && s[9..17] == b[14..22];
    Words32(m.msgId, b[6..10]);
    Words16(m.fragIdx, b[10..12]);
    Words16(m.fragCnt, b[12..14]);
    Words64(m.timestamp, b[14..22]);
    FourBytes(b[6..10]);
    TwoBytes(b[10..12]);
    TwoBytes(b[12..14]);
  }

  /** What is authenticated: the domain, the connection, and the same fields in the same order, then the payload. */
  lemma MacInputOnTheWire(conn: ConnectionId, h: Header, payload: Bytes)
    ensures UdpMacInput(conn, h.meta, payload) == UDP_DOMAIN + conn + MakeHeader(h)[5..22] + payload
  {
    assert MakeHeader(h)[5..22] == MetaBytes(h.meta);
  }

  /** Parsing a packet gives back the header it was made from, whatever payload follows. */
  lemma ParseMake(h: Header, payload: Bytes)
    ensures ParseHeader(MakeHeader(h) + payload) == Some(h)
  {
    var buf := MakeHeader(h) + payload;
    assert buf[0..4] == MAGIC;
    assert buf[5..22] == MetaBytes(h.meta);
    assert buf[22..54] == h.tag;
    ParseMetaInvertsMetaBytes(h.meta);
  }

  /** An accepted header re-encodes to exactly the 54 bytes it was read from: nothing in them is ignored. */
  lemma MakeParse(buf: Bytes)
    requires ParseHeader(buf).Some?
    ensures MakeHeader(ParseHeader(buf).value) == buf[..HEADER_LEN]
  {
    MetaBytesInvertsParseMeta(buf[5..22]);
    assert buf[..54] == buf[0..4] + [buf[4]] + buf[5..22] + buf[22..54];
  }

  /** A buffer is accepted exactly when it starts with an encoded header. */
  lemma ParseHeaderAcceptsExactlyEncodings(buf: Bytes)
    ensures ParseHeader(buf).Some? <==> exists h: Header :: MakeHeader(h) <= buf
  {
    if ParseHeader(buf).Some? {
      MakeParse(buf);
    }
    forall h: Header | MakeHeader(h) <= buf
      ensures ParseHeader(buf).Some?
    {
      ParseMake(h, buf[HEADER_LEN..]);
      assert buf == MakeHeader(h) + buf[HEADER_LEN..];
    }
  }

  function UdpMacInput(conn: ConnectionId, m: Meta, payload: Bytes): (s: Bytes)
    ensures |s| == 48 + |payload|
  {
    UDP_DOMAIN + conn + MetaBytes(m) + payload
  }

  function TcpMacInput(conn: ConnectionId, seqNo: u64, timestamp: u64, payload: Bytes): (s: Bytes)
    ensures |s| == 47 + |payload|
  {
    TCP_DOMAIN + conn + Be64(seqNo) + Be64(timestamp) + payload
  }

  /** Two packets with the same authenticated bytes agree in every authenticated field. */
  lemma UdpMacInputInjective(c1: ConnectionId, m1: Meta, p1: Bytes, c2: ConnectionId, m2: Meta, p2: Bytes)
    requires UdpMacInput(c1, m1, p1) == UdpMacInput(c2, m2, p2)
    ensures c1 == c2 && m1 == m2 && p1 == p2
  {
    var s1, s2 := UdpMacInput(c1, m1, p1), UdpMacInput(c2, m2, p2);
    assert s1[15..31] == c1 && s2[15..31] == c2;
    assert s1[31..48] == MetaBytes(m1) && s2[31..48] == MetaBytes(m2);
    assert s1[48..] == p1 && s2[48..] == p2;
    ParseMetaInvertsMetaBytes(m1);
    ParseMetaInvertsMetaBytes(m2);
  }

  lemma TcpMacInputInjective(c1: ConnectionId, q1: u64, t1: u64, p1: Bytes, c2: ConnectionId, q2: u64, t2: u64, p2: Bytes)
    requires TcpMacInput(c1, q1, t1, p1) == TcpMacInput(c2, q2, t2, p2)
    ensures c1 == c2 && q1 == q2 && t1 == t2 && p1 == p2
  {
    var s1, s2 := TcpMacInput(c1, q1, t1, p1), TcpMacInput(c2, q2, t2, p2);
    assert s1[15..31] == c1 && s2[15..31] == c2;
    assert s1[31..39] == Be64(q1) && s2[31..39] == Be64(q2);
    assert s1[39..47] == Be64(t1) && s2[39..47] == Be64(t2);
    assert s1[47..] == p1 && s2[47..] == p2;
    Words64(q1, Be64(q2));
    Words64(t1, Be64(t2));
    Words64(q2, Be64(q1));
    Words64(t2, Be64(t1));
  }

  /** The two transports never authenticate the same bytes, so a tag of one is never a tag of the other. */
  lemma MacDomainsDisjoint(c1: ConnectionId, m: Meta, p1: Bytes, c2: ConnectionId, q: u64, t: u64, p2: Bytes)
    ensures UdpMacInput(c1, m, p1) != TcpMacInput(c2, q, t, p2)
  {
    assert UdpMacInput(c1, m, p1)[9] == 0x55;
    assert TcpMacInput(c2, q, t, p2)[9] == 0x54;
  }

  /** Seconds since the epoch: not more than 30 s ahead and not older than the replay window. */
  predicate TimestampIsFresh(timestamp: u64, now: u64) {
    timestamp <= (if now + 30 > USIZE_MAX then USIZE_MAX else now + 30) && SatSub(now, timestamp) <= REPLAY_WINDOW_SECS
  }

  /** In plain numbers: at most 300 s back and 30 s ahead. The saturation makes no difference. */
  lemma FreshIff(timestamp: u64, now: u64)
    ensures TimestampIsFresh(timestamp, now) <==> now - 300 <= timestamp <= now + 30
  {
  }

  datatype Invalid = AckMetadata | FragmentCount | FragmentIndex | Stale | Authentication

  /** The HMAC under the connection's secret is a parameter: nothing is assumed about it here. */
  function ValidateFragment(mac: Bytes -> Tag, conn: ConnectionId, h: Header, payload: Bytes, now: u64): (r: Option<Invalid>)
    ensures r == None && !IsAck(h.meta.flags) ==> h.meta.fragIdx < h.meta.fragCnt <= MAX_FRAGMENTS_PER_MESSAGE
    ensures r == None ==> h.tag == mac(UdpMacInput(conn, h.meta, payload))
  {
    if IsAck(h.meta.flags) && (h.meta.fragIdx != 0 || h.meta.fragCnt != 0 || payload != []) then Some(AckMetadata)
    else if !IsAck(h.meta.flags) && (h.meta.fragCnt == 0 || h.meta.fragCnt > MAX_FRAGMENTS_PER_MESSAGE) then Some(FragmentCount)
    else if !IsAck(h.meta.flags) && h.meta.fragIdx >= h.meta.fragCnt then Some(FragmentIndex)
    else if !TimestampIsFresh(h.meta.timestamp, now) then Some(Stale)
    else if mac(UdpMacInput(conn, h.meta, payload)) != h.tag then Some(Authentication)
    else None
  }

  /**
   * Exactly which packets are valid, whoever made them: the tag is that of the packet, its time is at most 300 s back and
   * 30 s ahead, and it is an acknowledgement with nothing in it or fragment `idx` of at most 128.
   */
  lemma ValidIff(mac: Bytes -> Tag, conn: ConnectionId, h: Header, payload: Bytes, now: u64)
    ensures ValidateFragment(mac, conn, h, payload, now) == None <==>
      && h.tag == mac(UdpMacInput(conn, h.meta, payload)) && now - 300 <= h.meta.timestamp <= now + 30
      && (if h.meta.flags % 2 == 1 then h.meta.fragIdx == 0 && h.meta.fragCnt == 0 && payload == []
          else h.meta.fragIdx < h.meta.fragCnt <= 128)
  {
    FreshIff(h.meta.timestamp, now);
  }
}
