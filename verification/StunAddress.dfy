/** XOR-ed addresses, TURN Data indications, and the two independent searches for XOR-MAPPED-ADDRESS. */
module StunAddress {
  import opened Words
  import opened Options
  import opened Seqs
  import opened Bits
  import opened Net
  import opened Stun

  const PORT_MASK: u16 := 0x2112
  const BINDING_SUCCESS: u16 := 0x0101
  const DATA_INDICATION: u16 := 0x0017

  function Mask(txid: TxId): Octets16 { Be32(COOKIE) + txid }

  function XorBytes(a: Octets16, b: Octets16): Octets16 { seq(16, i requires 0 <= i < 16 => Xor8(a[i], b[i])) }

  /** The byte-by-byte loop, in place on a scratch array. */
  method XorMask(a: Octets16, mask: Octets16) returns (out: Octets16)
    ensures out == XorBytes(a, mask)
  {
    var x := new byte[16];
    for i := 0 to 16
      invariant forall k :: 0 <= k < i ==> x[k] == Xor8(a[k], mask[k])
    {
      x[i] := Xor8(a[i], mask[i]);
    }
    out := x[..];
  }

  /** `turn_encode_xor_peer_address` */
  function EncodeAddr(peer: SocketAddr, txid: TxId): (v: Bytes)
    ensures |v| == if peer.ip.Ip4? then 8 else 20
  {
    match peer.ip
    case Ip4(addr) => [0, 1] + Be16(Xor16(peer.port, PORT_MASK)) + Be32(Xor32(addr, COOKIE))
    case Ip6(octets) => [0, 2] + Be16(Xor16(peer.port, PORT_MASK)) + XorBytes(octets, Mask(txid))
  }

  /** `stun_parse_xor_addr` */
  function DecodeAddr(v: Bytes, txid: TxId): (r: Option<SocketAddr>) {
    if |v| < 8 then None
    else
      var port := Xor16(Get16(v[2..4]), PORT_MASK);
      if v[1] == 1 then Some(SocketAddr(Ip4(Xor32(Get32(v[4..8]), COOKIE)), port))
      else if v[1] == 2 && |v| >= 20 then Some(SocketAddr(Ip6(XorBytes(v[4..20], Mask(txid))), port))
      else None
  }

  /**
   * An address on the wire (section 15.2 of RFC 5389): family, port and, for an IPv6 address, which bytes are masked by the
   * cookie and which by the transaction id.
   */
  lemma AddrOnTheWire(peer: SocketAddr, txid: TxId)
    ensures var v := EncodeAddr(peer, txid);
      && v[0] == 0 && v[1] == (if peer.ip.Ip4? then 1 else 2) && Value2(v[2], v[3]) == Xor16(peer.port, 0x2112)
      && (peer.ip.Ip4? ==> FromBe(v[4..]) == Xor32(peer.ip.addr, 0x2112_A442))
      && (peer.ip.Ip6? ==> forall i :: 0 <= i < 4 ==> v[4 + i] == Xor8(peer.ip.octets[i], [0x21, 0x12, 0xA4, 0x42][i]))
      && (peer.ip.Ip6? ==> forall i :: 4 <= i < 16 ==> v[4 + i] == Xor8(peer.ip.octets[i], txid[i - 4]))
  {
    var v := EncodeAddr(peer, txid);
    assert v[2..4] == Be16(Xor16(peer.port, PORT_MASK));
    Words16(Xor16(peer.port, PORT_MASK), v[2..4]);
    TwoBytes(v[2..4]);
    if peer.ip.Ip4? {
      assert v[4..] == Be32(Xor32(peer.ip.addr, COOKIE));
      Words32(Xor32(peer.ip.addr, COOKIE), v[4..]);
    } else {
      CookieBytes();
      assert v[4..20] == XorBytes(peer.ip.octets, Mask(txid));
      forall i | 0 <= i < 16 ensures v[4 + i] == Xor8(peer.ip.octets[i], Mask(txid)[i]) {
        assert v[4 + i] == v[4..20][i];
      }
    }
  }

  lemma CookieBytes()
    ensures Be32(COOKIE) == [0x21, 0x12, 0xA4, 0x42]
  {
    var b: Bytes := [0x21, 0x12, 0xA4, 0x42];
    FourBytes(b);
    Words32(COOKIE, b);
  }

  lemma XorUndone(port: u16, addr: u32)
    ensures Xor16(Xor16(port, PORT_MASK), PORT_MASK) == port
    ensures Xor32(Xor32(addr, COOKIE), COOKIE) == addr
  {
    Pow2Values();
    XorTwice(port, PORT_MASK, 16);
    XorTwice(addr, COOKIE, 32);
  }

  lemma XorBytesUndone(a: Octets16, m: Octets16)
    ensures XorBytes(XorBytes(a, m), m) == a
  {
    Pow2Values();
    forall i | 0 <= i < 16 ensures XorBytes(XorBytes(a, m), m)[i] == a[i] {
      XorTwice(a[i], m[i], 8);
    }
  }

  /** Sections 14.3 of RFC 5766 and 15.2 of RFC 5389: decoding inverts encoding, for both families. */
  lemma AddrRoundTrip(peer: SocketAddr, txid: TxId)
    ensures DecodeAddr(EncodeAddr(peer, txid), txid) == Some(peer)
  {
    var v := EncodeAddr(peer, txid);
    assert v[2..4] == Be16(Xor16(peer.port, PORT_MASK));
    Words16(Xor16(peer.port, PORT_MASK), v[2..4]);
    match peer.ip
    case Ip4(addr) =>
      assert v[4..8] == Be32(Xor32(addr, COOKIE));
      Words32(Xor32(addr, COOKIE), v[4..8]);
      XorUndone(peer.port, addr);
    case Ip6(octets) =>
      assert v[4..20] == XorBytes(octets, Mask(txid));
      XorUndone(peer.port, 0);
      XorBytesUndone(octets, Mask(txid));
  }

  // ---- Data indications

  /** The value of the first attribute of a kind. */
  function FindAttr(attrs: seq<Attr>, kind: u16): Option<Bytes> {
    if attrs == [] then None else if attrs[0].kind == kind then Some(attrs[0].value) else FindAttr(attrs[1..], kind)
  }

  /** The first one of the kind, wherever it stands. */
  lemma {:induction false} FindAttrIsFirst(attrs: seq<Attr>, kind: u16, i: nat)
    requires i < |attrs| && attrs[i].kind == kind && forall j :: 0 <= j < i ==> attrs[j].kind != kind
    ensures FindAttr(attrs, kind) == Some(attrs[i].value)
  {
    if i > 0 {
      FindAttrIsFirst(attrs[1..], kind, i - 1);
    }
  }

  lemma {:induction false} FindAttrIsNone(attrs: seq<Attr>, kind: u16)
    requires forall j :: 0 <= j < |attrs| ==> attrs[j].kind != kind
    ensures FindAttr(attrs, kind) == None
  {
    if attrs != [] {
      FindAttrIsNone(attrs[1..], kind);
    }
  }

  /**
   * Exactly what a Data indication is read as, for any attributes in any order: the first peer address and the first data
   * count, and both must be there and the address must decode.
   */
  lemma IndicationExactly(txid: TxId, attrs: seq<Attr>, i: nat, j: nat)
    requires |Body(attrs)| < 0x1_0000 && i < |attrs| && attrs[i].kind == XOR_PEER && j < |attrs| && attrs[j].kind == DATA
    requires forall k :: 0 <= k < i ==> attrs[k].kind != XOR_PEER
    requires forall k :: 0 <= k < j ==> attrs[k].kind != DATA
    ensures ParseDataIndication(Message(DATA_INDICATION, txid, attrs))
         == match DecodeAddr(attrs[i].value, txid) case Some(peer) => Some(Indication(peer, attrs[j].value)) case None => None
  {
    FindAttrIsFirst(attrs, XOR_PEER, i);
    FindAttrIsFirst(attrs, DATA, j);
    HeaderFields(DATA_INDICATION, txid, attrs);
    MessageParses(DATA_INDICATION, txid, attrs);
  }

  /** Without either of the two there is no indication. */
  lemma NoIndication(txid: TxId, attrs: seq<Attr>, kind: u16)
    requires |Body(attrs)| < 0x1_0000 && (kind == XOR_PEER || kind == DATA) && forall k :: 0 <= k < |attrs| ==> attrs[k].kind != kind
    ensures ParseDataIndication(Message(DATA_INDICATION, txid, attrs)) == None
  {
    FindAttrIsNone(attrs, kind);
    HeaderFields(DATA_INDICATION, txid, attrs);
    MessageParses(DATA_INDICATION, txid, attrs);
  }

  datatype Indication = Indication(peer: SocketAddr, data: Bytes)

  function DecodeFound(v: Option<Bytes>, txid: TxId): Option<SocketAddr> {
    if v == None then None else DecodeAddr(v.value, txid)
  }

  function IndicationOf(attrs: seq<Attr>, txid: TxId): Option<Indication> {
    var peer := DecodeFound(FindAttr(attrs, XOR_PEER), txid);
    var data := FindAttr(attrs, DATA);
    if peer == None || data == None then None else Some(Indication(peer.value, data.value))
  }

  /** `turn_parse_data_indication` */
  function ParseDataIndication(msg: Bytes): Option<Indication> {
    if |msg| < 20 || Get16(msg[0..2]) != DATA_INDICATION then None
    else
      match Attributes(msg)
      case Attrs(attrs) => IndicationOf(attrs, msg[8..20])
      case _ => None
  }

  lemma HeaderFields(msgType: u16, txid: TxId, attrs: seq<Attr>)
    ensures var msg := Message(msgType, txid, attrs); |msg| >= 20 && Get16(msg[0..2]) == msgType && msg[8..20] == txid
  {
    var msg := Message(msgType, txid, attrs);
    assert msg[0..2] == Be16(msgType);
    Words16(msgType, msg[0..2]);
  }

  lemma FoundFirst(all: seq<Attr>, v: Bytes, data: Bytes)
    requires [Attr(XOR_PEER, v), Attr(DATA, data)] <= all
    ensures FindAttr(all, XOR_PEER) == Some(v) && FindAttr(all, DATA) == Some(data)
  {
    assert all[0] == Attr(XOR_PEER, v) && all[1..][0] == Attr(DATA, data);
  }

  /**
   * Section 14.4 of RFC 5766: a Data indication built from a peer and data parses back to both, with or without
   * integrity and fingerprint, whenever it fits the 16-bit length.
   */
  lemma IndicationRoundTrip(keys: Keys, txid: TxId, peer: SocketAddr, data: Bytes)
    requires |Body(AllAttrs(keys, DATA_INDICATION, txid, [Attr(XOR_PEER, EncodeAddr(peer, txid)), Attr(DATA, data)]))| < 0x1_0000
    ensures var attrs := [Attr(XOR_PEER, EncodeAddr(peer, txid)), Attr(DATA, data)];
      ParseDataIndication(Message(DATA_INDICATION, txid, AllAttrs(keys, DATA_INDICATION, txid, attrs))) == Some(Indication(peer, data))
  {
    var attrs := [Attr(XOR_PEER, EncodeAddr(peer, txid)), Attr(DATA, data)];
    var all := AllAttrs(keys, DATA_INDICATION, txid, attrs);
    BuiltMessageParses(keys, DATA_INDICATION, txid, attrs);
    HeaderFields(DATA_INDICATION, txid, all);
    AddrRoundTrip(peer, txid);
    FoundFirst(all, attrs[0].value, data);
  }

  // ---- Two searches for the mapped address

  predicate ExpectedHeader(resp: Bytes, txid: TxId) {
    && |resp| >= 20 && Get16(resp[0..2]) == BINDING_SUCCESS
    && resp[4..8] == Be32(COOKIE) && resp[8..20] == txid
  }

  predicate KnownFamily(v: Bytes) { |v| >= 2 && (v[1] == 1 || v[1] == 2) }

  /** The attribute at which the combined walker stops: too short to have a family, or of a known one. */
  predicate Decides(a: Attr) { a.kind == XOR_MAPPED && (|a.value| < 8 || KnownFamily(a.value)) }

  /** The combined walk: attributes are decoded as they are met, and one of an unknown family is passed over. */
  function MappedWalk(b: Bytes, txid: TxId): Option<SocketAddr> {
    if |b| < 4 then None
    else
      var l := Get16(b[2..4]);
      if 4 + l > |b| then None
      else
        var a := Attr(Get16(b[0..2]), b[4..4 + l]);
        if Decides(a) then DecodeAddr(a.value, txid) else MappedWalk(b[Next(l, |b|)..], txid)
  }

  function MappedAddress(resp: Bytes, txid: TxId): Option<SocketAddr> {
    if !ExpectedHeader(resp, txid) then None
    else
      var len := Get16(resp[2..4]);
      if |resp| < 20 + len then None else MappedWalk(resp[20..20 + len], txid)
  }

  lemma MappedFirst(b: Bytes, a: Attr, txid: TxId)
    requires |b| >= 4 && 4 + |a.value| <= |b| && a == Attr(Get16(b[0..2]), b[4..4 + |a.value|]) && Get16(b[2..4]) == |a.value|
    ensures MappedWalk(b, txid) == if Decides(a) then DecodeAddr(a.value, txid) else MappedWalk(b[Next(|a.value|, |b|)..], txid)
  {
  }

  lemma MappedStep(msg: Bytes, pos: nat, end: nat, l: nat, txid: TxId)
    requires pos + 4 + l <= end <= |msg|
    requires l == Get16(msg[pos + 2..pos + 4])
    ensures var a := Attr(Get16(msg[pos..pos + 2]), msg[pos + 4..pos + 4 + l]);
      MappedWalk(Rest(msg, pos, end), txid)
      == if Decides(a) then DecodeAddr(a.value, txid) else MappedWalk(Rest(msg, pos + 4 + l + Pad(l), end), txid)
  {
    var b := Rest(msg, pos, end);
    RestFields(msg, pos, end, l);
    MappedFirst(b, Attr(Get16(msg[pos..pos + 2]), msg[pos + 4..pos + 4 + l]), txid);
    RestNext(msg, pos, end, l);
  }

  lemma MappedStop(msg: Bytes, pos: nat, end: nat, txid: TxId)
    requires end <= |msg|
    requires pos + 4 <= end ==> pos + 4 + Get16(msg[pos + 2..pos + 4]) > end
    ensures MappedWalk(Rest(msg, pos, end), txid) == None
  {
    if pos + 4 <= end {
      SliceOfSlice(msg, pos, end, 2, 4);
    }
  }

  /** The decision `parse_xor_mapped_address` takes on one XOR-MAPPED-ADDRESS; `None` means go on. */
  method Decide(v: Bytes, txid: TxId) returns (r: Option<Option<SocketAddr>>)
    ensures r == if |v| < 8 || KnownFamily(v) then Some(DecodeAddr(v, txid)) else None
  {
    if |v| < 8 {
      return Some(None);
    }
    var family := v[1];
    var port := Xor16(Get16(v[2..4]), PORT_MASK);
    if family == 1 {
      return Some(Some(SocketAddr(Ip4(Xor32(Get32(v[4..8]), COOKIE)), port)));
    }
    if family == 2 {
      if |v| < 20 {
        return Some(None);
      }
      var octets := XorMask(v[4..20], Mask(txid));
      return Some(Some(SocketAddr(Ip6(octets), port)));
    }
    return None;
  }

  /** One turn of the loop: an answer, or where to go on. */
  method MappedTurn(resp: Bytes, pos: nat, end: nat, txid: TxId) returns (answer: Option<Option<SocketAddr>>, next: nat)
    requires pos + 4 <= end <= |resp|
    ensures answer.Some? ==> MappedWalk(Rest(resp, pos, end), txid) == answer.value
    ensures answer == None ==> next > pos && MappedWalk(Rest(resp, pos, end), txid) == MappedWalk(Rest(resp, next, end), txid)
  {
    var kind := Get16(resp[pos..pos + 2]);
    var l: nat := Get16(resp[pos + 2..pos + 4]);
    next := pos + 4 + l + Pad(l);
    if pos + 4 + l > end {
      MappedStop(resp, pos, end, txid);
      return Some(None), next;
    }
    MappedStep(resp, pos, end, l, txid);
    answer := None;
    if kind == XOR_MAPPED {
      answer := Decide(resp[pos + 4..pos + 4 + l], txid);
    }
  }

  method MappedLoop(resp: Bytes, end: nat, txid: TxId) returns (r: Option<SocketAddr>)
    requires 20 <= end <= |resp|
    ensures r == MappedWalk(Rest(resp, 20, end), txid)
  {
    var pos := 20;
    ghost var whole := MappedWalk(Rest(resp, 20, end), txid);
    while pos + 4 <= end
      invariant whole == MappedWalk(Rest(resp, pos, end), txid)
      decreases end - pos
    {
      var answer, next := MappedTurn(resp, pos, end, txid);
      if answer.Some? {
        return answer.value;
      }
      pos := next;
    }
    MappedStop(resp, pos, end, txid);
    r := None;
  }

  /** `parse_xor_mapped_address` */
  method ParseXorMappedAddress(resp: Bytes, txid: TxId) returns (r: Option<SocketAddr>)
    ensures r == MappedAddress(resp, txid)
  {
    if |resp| < 20 {
      return None;
    }
    if Get16(resp[0..2]) != BINDING_SUCCESS {
      return None;
    }
    var len: nat := Get16(resp[2..4]);
    if |resp| < 20 + len {
      return None;
    }
    if resp[4..8] != Be32(COOKIE) {
      return None;
    }
    if resp[8..20] != txid {
      return None;
    }
    r := MappedLoop(resp, 20 + len, txid);
    assert Rest(resp, 20, 20 + len) == resp[20..20 + len];
  }

  /** Decode the first deciding attribute. */
  function FirstDeciding(attrs: seq<Attr>, txid: TxId): Option<SocketAddr> {
    if attrs == [] then None
    else if Decides(attrs[0]) then DecodeAddr(attrs[0].value, txid)
    else FirstDeciding(attrs[1..], txid)
  }

  lemma {:induction false} MappedWalkIsFirstDeciding(b: Bytes, txid: TxId)
    ensures MappedWalk(b, txid) == FirstDeciding(Walk(b), txid)
  {
    if |b| >= 4 {
      var l: nat := Get16(b[2..4]);
      if 4 + l <= |b| {
        WalkOne(b, l);
        MappedWalkIsFirstDeciding(b[Next(l, |b|)..], txid);
      }
    }
  }

  /** The other search: all attributes are collected, then the first XOR-MAPPED-ADDRESS is decoded. */
  function FirstMapped(attrs: seq<Attr>, txid: TxId): Option<SocketAddr> { DecodeFound(FindAttr(attrs, XOR_MAPPED), txid) }

  /** The first XOR-MAPPED-ADDRESS has room for a family and the family is neither 1 nor 2. */
  predicate FirstIsUnknown(attrs: seq<Attr>) {
    var v := FindAttr(attrs, XOR_MAPPED);
    v.Some? && |v.value| >= 8 && !KnownFamily(v.value)
  }

  lemma {:induction false} SearchesOnAttrs(attrs: seq<Attr>, txid: TxId)
    ensures FirstIsUnknown(attrs) ==> FirstMapped(attrs, txid) == None
    ensures !FirstIsUnknown(attrs) ==> FirstMapped(attrs, txid) == FirstDeciding(attrs, txid)
  {
    if attrs != [] && attrs[0].kind != XOR_MAPPED {
      SearchesOnAttrs(attrs[1..], txid);
    }
  }

  /** An XOR-MAPPED-ADDRESS that the combined walk passes over, or another attribute. */
  predicate PassedOver(a: Attr) { a.kind == XOR_MAPPED ==> |a.value| >= 8 && !KnownFamily(a.value) }

  /** Attribute `k` is an XOR-MAPPED-ADDRESS that decodes, and those before it all have an unknown family. */
  ghost predicate Reached(attrs: seq<Attr>, txid: TxId, k: nat) {
    && k < |attrs| && attrs[k].kind == XOR_MAPPED && DecodeAddr(attrs[k].value, txid).Some?
    && forall i :: 0 <= i < k ==> PassedOver(attrs[i])
  }

  lemma {:induction false} DecidesIffReached(attrs: seq<Attr>, txid: TxId)
    ensures FirstDeciding(attrs, txid).Some? <==> exists k: nat :: Reached(attrs, txid, k)
  {
    if attrs != [] {
      var rest := attrs[1..];
      DecidesIffReached(rest, txid);
      forall k: nat | Reached(attrs, txid, k) && k > 0 ensures Reached(rest, txid, k - 1) {
        assert forall i :: 0 <= i < k - 1 ==> rest[i] == attrs[i + 1];
      }
      forall k: nat | Reached(rest, txid, k) && PassedOver(attrs[0]) ensures Reached(attrs, txid, k + 1) {
        assert forall i :: 0 < i < k + 1 ==> attrs[i] == rest[i - 1];
      }
      if Decides(attrs[0]) && DecodeAddr(attrs[0].value, txid).Some? {
        assert Reached(attrs, txid, 0);
      }
    }
  }

  lemma {:induction false} FoundAt(attrs: seq<Attr>, kind: u16) returns (i: nat)
    requires FindAttr(attrs, kind).Some?
    ensures i < |attrs| && attrs[i] == Attr(kind, FindAttr(attrs, kind).value) && forall k :: 0 <= k < i ==> attrs[k].kind != kind
  {
    if attrs[0].kind == kind {
      i := 0;
    } else {
      i := FoundAt(attrs[1..], kind);
      assert forall k :: 0 < k < i + 1 ==> attrs[k] == attrs[1..][k - 1];
      i := i + 1;
    }
  }

  lemma {:induction false} Findable(attrs: seq<Attr>, kind: u16, i: nat)
    requires i < |attrs| && attrs[i].kind == kind
    ensures FindAttr(attrs, kind).Some?
  {
    if attrs[0].kind != kind {
      Findable(attrs[1..], kind, i - 1);
    }
  }

  /** Attribute `k` decodes; attribute `i` before it is an XOR-MAPPED-ADDRESS too, and all those have an unknown family. */
  ghost predicate Overtakes(attrs: seq<Attr>, txid: TxId, i: nat, k: nat) {
    i < k && Reached(attrs, txid, k) && attrs[i].kind == XOR_MAPPED
  }

  lemma OvertakesIff(attrs: seq<Attr>, txid: TxId)
    ensures FirstIsUnknown(attrs) && FirstDeciding(attrs, txid).Some? <==> exists i: nat, k: nat :: Overtakes(attrs, txid, i, k)
  {
    DecidesIffReached(attrs, txid);
    if FirstIsUnknown(attrs) && FirstDeciding(attrs, txid).Some? {
      var i := FoundAt(attrs, XOR_MAPPED);
      var k: nat :| Reached(attrs, txid, k);
      assert Overtakes(attrs, txid, i, k);
    }
    if i: nat, k: nat :| Overtakes(attrs, txid, i, k) {
      Findable(attrs, XOR_MAPPED, i);
      var f := FoundAt(attrs, XOR_MAPPED);
      assert PassedOver(attrs[f]);
    }
  }

  /**
   * On every response with the expected header whose attributes can be listed: an address found by listing is
   * also what the combined walk finds; and the two searches differ exactly when an XOR-MAPPED-ADDRESS that decodes
   * comes after others that all have an unknown family.
   */
  lemma SearchesAgree(resp: Bytes, txid: TxId)
    requires ExpectedHeader(resp, txid) && Attributes(resp).Attrs?
    ensures var attrs := Attributes(resp).attrs;
      && (FirstMapped(attrs, txid).Some? ==> MappedAddress(resp, txid) == FirstMapped(attrs, txid))
      && (MappedAddress(resp, txid) != FirstMapped(attrs, txid) <==> exists i: nat, k: nat :: Overtakes(attrs, txid, i, k))
  {
    var len: nat := Get16(resp[2..4]);
    var attrs := Attributes(resp).attrs;
    MappedWalkIsFirstDeciding(resp[20..20 + len], txid);
    SearchesOnAttrs(attrs, txid);
    OvertakesIff(attrs, txid);
  }

  /** An address behind an attribute of family 3. */
  function Overtaking(addr: SocketAddr, txid: TxId): seq<Attr> {
    [Attr(XOR_MAPPED, [0, 3, 0, 0, 0, 0, 0, 0]), Attr(XOR_MAPPED, EncodeAddr(addr, txid))]
  }

  lemma OvertakingBody(addr: SocketAddr, txid: TxId)
    ensures |Body(Overtaking(addr, txid))| == 16 + |EncodeAddr(addr, txid)|
  {
    var a := Overtaking(addr, txid);
    assert [] + [a[0]] == [a[0]] && [a[0]] + [a[1]] == a;
    AppendedSize([], a[0]);
    AppendedSize([a[0]], a[1]);
  }

  /** The difference does occur, for every address: the listing finds nothing and the combined walk finds it. */
  lemma SearchesDiffer(addr: SocketAddr, txid: TxId)
    ensures var attrs := Overtaking(addr, txid);
      var resp := Message(BINDING_SUCCESS, txid, attrs);
      && ExpectedHeader(resp, txid) && Attributes(resp) == Attrs(attrs)
      && FirstMapped(attrs, txid) == None && MappedAddress(resp, txid) == Some(addr)
  {
    var attrs := Overtaking(addr, txid);
    var resp := Message(BINDING_SUCCESS, txid, attrs);
    OvertakingBody(addr, txid);
    ResponseParses(txid, attrs);
    AddrRoundTrip(addr, txid);
    OvertakingDecides(addr, txid);
  }

  lemma ResponseHeader(txid: TxId, attrs: seq<Attr>)
    ensures ExpectedHeader(Message(BINDING_SUCCESS, txid, attrs), txid)
  {
    HeaderFields(BINDING_SUCCESS, txid, attrs);
    assert Message(BINDING_SUCCESS, txid, attrs)[4..8] == Be32(COOKIE);
  }

  /** What both searches work on when the response is built from a list of attributes. */
  lemma ResponseParses(txid: TxId, attrs: seq<Attr>)
    requires |Body(attrs)| < 0x1_0000
    ensures var resp := Message(BINDING_SUCCESS, txid, attrs);
      ExpectedHeader(resp, txid) && Attributes(resp) == Attrs(attrs) && MappedAddress(resp, txid) == FirstDeciding(attrs, txid)
  {
    var resp := Message(BINDING_SUCCESS, txid, attrs);
    ResponseHeader(txid, attrs);
    MessageParses(BINDING_SUCCESS, txid, attrs);
    MappedWalkIsFirstDeciding(resp[20..20 + Get16(resp[2..4])], txid);
  }

  lemma OvertakingDecides(addr: SocketAddr, txid: TxId)
    ensures var attrs := Overtaking(addr, txid);
      FirstMapped(attrs, txid) == None && FirstDeciding(attrs, txid) == DecodeAddr(EncodeAddr(addr, txid), txid)
  {
    var attrs := Overtaking(addr, txid);
    assert attrs[1..] == [attrs[1]];
  }
}
