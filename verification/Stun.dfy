/**
 * STUN messages (sections 6 and 15 of RFC 5389) and the TURN indications built from them (section 14 of
 * RFC 5766): building, walking attributes, and XOR-ed addresses. The HMAC and the CRC are parameters.
 */
module Stun {
  import opened Words
  import opened Options
  import opened Seqs
  import opened Bits

  type TxId = s: Bytes | |s| == 12 witness seq(12, _ => 0)
  type Digest = s: Bytes | |s| == 20 witness seq(20, _ => 0)

  const COOKIE: u32 := 0x2112_A442
  const HEADER_LEN: nat := 20
  const XOR_MAPPED: u16 := 0x0020
  const XOR_PEER: u16 := 0x0012
  const DATA: u16 := 0x0013
  const MESSAGE_INTEGRITY: u16 := 0x0008
  const FINGERPRINT: u16 := 0x8028

  datatype Attr = Attr(kind: u16, value: Bytes)

  function Pad(n: nat): (p: nat)
    ensures p < 4 && (n + p) % 4 == 0
  {
    (4 - n % 4) % 4
  }

  function Zeros(n: nat): (s: Bytes)
    ensures |s| == n
  {
    seq(n, _ => 0)
  }

  /** An attribute on the wire; the length field is the length truncated to 16 bits. */
  function AttrBytes(a: Attr): Bytes {
    Be16(a.kind) + Be(|a.value|, 2) + a.value + Zeros(Pad(|a.value|))
  }

  function Body(attrs: seq<Attr>): Bytes { FlatMap(AttrBytes, attrs) }

  function Header(msgType: u16, len: nat, txid: TxId): (h: Bytes)
    ensures |h| == HEADER_LEN
  {
    Be16(msgType) + Be(len, 2) + Be32(COOKIE) + txid
  }

  /** `stun_write_attr` */
  method WriteAttr(buf: Bytes, kind: u16, value: Bytes) returns (out: Bytes)
    ensures out == buf + AttrBytes(Attr(kind, value))
  {
    out := buf + Be16(kind);
    out := out + Be(|value|, 2);
    out := out + value;
    var pad := Pad(|value|);
    if pad != 0 {
      out := out + Zeros(pad);
    }
  }

  // ---- Walking

  /** The attributes in a stretch of bytes: up to its end, or up to the first one that does not fit. */
  function Walk(b: Bytes): seq<Attr> {
    if |b| < 4 then []
    else
      var l := Get16(b[2..4]);
      if 4 + l > |b| then []
      else [Attr(Get16(b[0..2]), b[4..4 + l])] + Walk(b[Next(l, |b|)..])
  }

  /** Where the next attribute starts; padding may run past the end. */
  function Next(l: nat, n: nat): (k: nat)
    requires 4 + l <= n
    ensures 4 + l <= k <= n
  {
    if 4 + l + Pad(l) < n then 4 + l + Pad(l) else n
  }

  datatype Walked = Attrs(attrs: seq<Attr>) | TooShort | LengthMismatch

  function Attributes(msg: Bytes): Walked {
    if |msg| < HEADER_LEN then TooShort
    else
      var len := Get16(msg[2..4]);
      if |msg| < HEADER_LEN + len then LengthMismatch else Attrs(Walk(msg[HEADER_LEN..HEADER_LEN + len]))
  }

  function Rest(msg: Bytes, pos: nat, end: nat): Bytes
    requires end <= |msg|
  {
    if pos < end then msg[pos..end] else []
  }

  lemma WalkOne(b: Bytes, l: nat)
    requires |b| >= 4 && l == Get16(b[2..4]) && 4 + l <= |b|
    ensures Walk(b) == [Attr(Get16(b[0..2]), b[4..4 + l])] + Walk(b[Next(l, |b|)..])
  {
  }

  lemma RestFields(msg: Bytes, pos: nat, end: nat, l: nat)
    requires pos + 4 + l <= end <= |msg|
    ensures var b := Rest(msg, pos, end);
      && |b| >= 4 + l && b[0..2] == msg[pos..pos + 2] && b[2..4] == msg[pos + 2..pos + 4]
      && b[4..4 + l] == msg[pos + 4..pos + 4 + l]
  {
    SliceOfSlice(msg, pos, end, 0, 2);
    SliceOfSlice(msg, pos, end, 2, 4);
    SliceOfSlice(msg, pos, end, 4, 4 + l);
  }

  lemma RestNext(msg: Bytes, pos: nat, end: nat, l: nat)
    requires pos + 4 + l <= end <= |msg|
    ensures var b := Rest(msg, pos, end); b[Next(l, |b|)..] == Rest(msg, pos + 4 + l + Pad(l), end)
  {
  }

  lemma StepInMessage(msg: Bytes, pos: nat, end: nat, l: nat)
    requires pos + 4 + l <= end <= |msg|
    requires l == Get16(msg[pos + 2..pos + 4])
    ensures Walk(Rest(msg, pos, end))
         == [Attr(Get16(msg[pos..pos + 2]), msg[pos + 4..pos + 4 + l])] + Walk(Rest(msg, pos + 4 + l + Pad(l), end))
  {
    RestFields(msg, pos, end, l);
    RestNext(msg, pos, end, l);
    WalkOne(Rest(msg, pos, end), l);
  }

  lemma StopInMessage(msg: Bytes, pos: nat, end: nat)
    requires end <= |msg|
    requires pos + 4 <= end ==> pos + 4 + Get16(msg[pos + 2..pos + 4]) > end
    ensures Walk(Rest(msg, pos, end)) == []
  {
    if pos + 4 <= end {
      SliceOfSlice(msg, pos, end, 2, 4);
    }
  }

  /** One turn of the loop: an attribute and where the next one starts, unless this one does not fit. */
  method WalkTurn(msg: Bytes, pos: nat, end: nat) returns (a: Option<Attr>, next: nat)
    requires pos + 4 <= end <= |msg|
    ensures a == None ==> Walk(Rest(msg, pos, end)) == []
    ensures a.Some? ==> next > pos && Walk(Rest(msg, pos, end)) == [a.value] + Walk(Rest(msg, next, end))
  {
    var t := Get16(msg[pos..pos + 2]);
    var l: nat := Get16(msg[pos + 2..pos + 4]);
    next := pos + 4 + l + Pad(l);
    if pos + 4 + l > end {
      StopInMessage(msg, pos, end);
      return None, next;
    }
    StepInMessage(msg, pos, end, l);
    a := Some(Attr(t, msg[pos + 4..pos + 4 + l]));
  }

  method WalkLoop(msg: Bytes, start: nat, end: nat) returns (out: seq<Attr>)
    requires end <= |msg|
    ensures out == Walk(Rest(msg, start, end))
  {
    out := [];
    var pos := start;
    ghost var whole := Walk(Rest(msg, start, end));
    while pos + 4 <= end
      invariant whole == out + Walk(Rest(msg, pos, end))
      decreases end - pos
    {
      var a, next := WalkTurn(msg, pos, end);
      if a == None {
        return;
      }
      Assoc(out, [a.value], Walk(Rest(msg, next, end)));
      out, pos := out + [a.value], next;
    }
    StopInMessage(msg, pos, end);
  }

  /** `stun_attr_iter` */
  method AttrIter(msg: Bytes) returns (r: Walked)
    ensures r == Attributes(msg)
  {
    if |msg| < 20 {
      return TooShort;
    }
    var len: nat := Get16(msg[2..4]);
    if |msg| < 20 + len {
      return LengthMismatch;
    }
    var out := WalkLoop(msg, 20, 20 + len);
    r := Attrs(out);
  }

  // ---- Building

  lemma {:induction false} BodyLength(attrs: seq<Attr>)
    ensures |Body(attrs)| % 4 == 0
  {
    if attrs != [] {
      BodyLength(attrs[1..]);
    }
  }

  lemma BodyMore(attrs: seq<Attr>, a: Attr)
    ensures Body(attrs + [a]) == Body(attrs) + AttrBytes(a)
  {
    FlatMapConcat(AttrBytes, attrs, [a]);
    FlatMapOne(AttrBytes, a);
  }

  /** The HMAC-SHA1 under the long-term key, if the message is to carry one; the CRC-32. */
  datatype Keys = Keys(integrity: Option<Bytes -> Digest>, fingerprint: Option<Bytes -> u32>)

  const FINGERPRINT_XOR: u32 := 0x5354_554E

  function Xor32(a: u32, b: u32): u32 {
    BitwiseBound(BitXor(), a, b, 32); Pow2Values(); Xor(a, b, 32)
  }

  function Xor16(a: u16, b: u16): u16 {
    BitwiseBound(BitXor(), a, b, 16); Pow2Values(); Xor(a, b, 16)
  }

  function Xor8(a: byte, b: byte): byte {
    BitwiseBound(BitXor(), a, b, 8); Pow2Values(); Xor(a, b, 8)
  }

  /** The integrity attribute: the digest of the message so far, its length field already that of the whole. */
  function IntegrityAttr(mac: Bytes -> Digest, msgType: u16, txid: TxId, attrs: seq<Attr>, fingerprint: bool): Attr {
    var len := |Body(attrs)| + 24 + if fingerprint then 8 else 0;
    Attr(MESSAGE_INTEGRITY, mac(Header(msgType, len, txid) + Body(attrs) + Be16(MESSAGE_INTEGRITY) + Be16(20) + Zeros(20)))
  }

  function FingerprintAttr(crc: Bytes -> u32, msgType: u16, txid: TxId, attrs: seq<Attr>): Attr {
    Attr(FINGERPRINT, Be32(Xor32(crc(Header(msgType, |Body(attrs)| + 8, txid) + Body(attrs)), FINGERPRINT_XOR)))
  }

  function WithIntegrity(keys: Keys, msgType: u16, txid: TxId, attrs: seq<Attr>): seq<Attr> {
    if keys.integrity == None then attrs
    else attrs + [IntegrityAttr(keys.integrity.value, msgType, txid, attrs, keys.fingerprint.Some?)]
  }

  function WithFingerprint(keys: Keys, msgType: u16, txid: TxId, attrs: seq<Attr>): seq<Attr> {
    if keys.fingerprint == None then attrs
    else attrs + [FingerprintAttr(keys.fingerprint.value, msgType, txid, attrs)]
  }

  /** The attributes of a message, the appended ones included. */
  function AllAttrs(keys: Keys, msgType: u16, txid: TxId, attrs: seq<Attr>): seq<Attr> {
    WithFingerprint(keys, msgType, txid, WithIntegrity(keys, msgType, txid, attrs))
  }

  function Message(msgType: u16, txid: TxId, attrs: seq<Attr>): Bytes {
    Header(msgType, |Body(attrs)|, txid) + Body(attrs)
  }

  /** `msg[2..4].copy_from_slice(&new_len.to_be_bytes())` */
  function SetLength(msg: Bytes, len: nat): Bytes
    requires |msg| >= 4
  {
    msg[..2] + Be(len, 2) + msg[4..]
  }

  lemma SetHeaderLength(msgType: u16, len: nat, txid: TxId, body: Bytes, len': nat)
    ensures SetLength(Header(msgType, len, txid) + body, len') == Header(msgType, len', txid) + body
  {
  }

  method WriteAttrs(attrs: seq<Attr>) returns (body: Bytes)
    ensures body == Body(attrs)
  {
    body := [];
    for i := 0 to |attrs|
      invariant body == Body(attrs[..i])
    {
      BodyMore(attrs[..i], attrs[i]);
      assert attrs[..i] + [attrs[i]] == attrs[..i + 1];
      body := WriteAttr(body, attrs[i].kind, attrs[i].value);
    }
    assert attrs[..|attrs|] == attrs;
  }

  lemma IntegrityBytes(digest: Digest)
    ensures AttrBytes(Attr(MESSAGE_INTEGRITY, digest)) == Be16(MESSAGE_INTEGRITY) + Be16(20) + digest
  {
  }

  lemma FingerprintBytes(v: u32)
    ensures AttrBytes(Attr(FINGERPRINT, Be32(v))) == Be16(FINGERPRINT) + Be16(4) + Be32(v)
  {
  }

  lemma HeadedBodyMore(h: Bytes, attrs: seq<Attr>, a: Attr, bytes: Bytes)
    requires bytes == AttrBytes(a)
    ensures h + Body(attrs) + bytes == h + Body(attrs + [a])
  {
    BodyMore(attrs, a);
  }

  method AppendIntegrity(msg: Bytes, mac: Bytes -> Digest, fingerprint: bool, ghost msgType: u16, ghost txid: TxId, ghost attrs: seq<Attr>)
    returns (out: Bytes)
    requires msg == Header(msgType, 0, txid) + Body(attrs)
    ensures var len := |Body(attrs)| + 24 + if fingerprint then 8 else 0;
      out == Header(msgType, len, txid) + Body(attrs + [IntegrityAttr(mac, msgType, txid, attrs, fingerprint)])
  {
    var newLen := |msg| - 20 + 24 + if fingerprint then 8 else 0;
    SetHeaderLength(msgType, 0, txid, Body(attrs), newLen);
    out := SetLength(msg, newLen);
    var tmp := out + Be16(MESSAGE_INTEGRITY) + Be16(20) + Zeros(20);
    var digest := mac(tmp);
    IntegrityBytes(digest);
    HeadedBodyMore(Header(msgType, newLen, txid), attrs, Attr(MESSAGE_INTEGRITY, digest), Be16(MESSAGE_INTEGRITY) + Be16(20) + digest);
    out := out + (Be16(MESSAGE_INTEGRITY) + Be16(20) + digest);
  }

  method AppendFingerprint(msg: Bytes, crc: Bytes -> u32, ghost msgType: u16, ghost len: nat, ghost txid: TxId, ghost attrs: seq<Attr>)
    returns (out: Bytes)
    requires msg == Header(msgType, len, txid) + Body(attrs)
    ensures out == Header(msgType, |Body(attrs)| + 8, txid) + Body(attrs + [FingerprintAttr(crc, msgType, txid, attrs)])
  {
    var newLen := |msg| - 20 + 8;
    SetHeaderLength(msgType, len, txid, Body(attrs), newLen);
    out := SetLength(msg, newLen);
    var v := Xor32(crc(out), FINGERPRINT_XOR);
    FingerprintBytes(v);
    HeadedBodyMore(Header(msgType, newLen, txid), attrs, Attr(FINGERPRINT, Be32(v)), Be16(FINGERPRINT) + Be16(4) + Be32(v));
    out := out + (Be16(FINGERPRINT) + Be16(4) + Be32(v));
  }

  lemma AppendedSize(attrs: seq<Attr>, a: Attr)
    requires |a.value| % 4 == 0
    ensures |Body(attrs + [a])| == |Body(attrs)| + 4 + |a.value|
  {
    BodyMore(attrs, a);
  }

  lemma SignedSize(keys: Keys, msgType: u16, txid: TxId, attrs: seq<Attr>)
    requires keys.integrity.Some?
    ensures |Body(WithIntegrity(keys, msgType, txid, attrs))| == |Body(attrs)| + 24
  {
    AppendedSize(attrs, IntegrityAttr(keys.integrity.value, msgType, txid, attrs, keys.fingerprint.Some?));
  }

  lemma PlainLength(msgType: u16, txid: TxId, attrs: seq<Attr>, msg: Bytes)
    requires msg == Header(msgType, 0, txid) + Body(attrs)
    ensures |msg| >= 20 && SetLength(msg, |msg| - 20) == Header(msgType, |Body(attrs)|, txid) + Body(attrs)
  {
    SetHeaderLength(msgType, 0, txid, Body(attrs), |msg| - 20);
  }

  /** Up to the integrity attribute, with a length field that is final unless a fingerprint follows. */
  method BuildSigned(msgType: u16, txid: TxId, attrs: seq<Attr>, keys: Keys) returns (msg: Bytes, ghost len: nat)
    ensures msg == Header(msgType, len, txid) + Body(WithIntegrity(keys, msgType, txid, attrs))
    ensures keys.fingerprint == None ==> len == |Body(WithIntegrity(keys, msgType, txid, attrs))|
  {
    var body := WriteAttrs(attrs);
    msg := Header(msgType, 0, txid) + body;
    if keys.integrity.Some? {
      msg := AppendIntegrity(msg, keys.integrity.value, keys.fingerprint.Some?, msgType, txid, attrs);
      len := |Body(attrs)| + 24 + if keys.fingerprint.Some? then 8 else 0;
      SignedSize(keys, msgType, txid, attrs);
    } else {
      len := |body|;
      PlainLength(msgType, txid, attrs, msg);
      msg := SetLength(msg, |msg| - 20);
    }
  }

  /** `stun_build_message`; the length field ends up as the size of everything after the header. */
  method BuildMessage(msgType: u16, txid: TxId, attrs: seq<Attr>, keys: Keys) returns (msg: Bytes)
    ensures msg == Message(msgType, txid, AllAttrs(keys, msgType, txid, attrs))
  {
    ghost var len: nat;
    msg, len := BuildSigned(msgType, txid, attrs, keys);
    if keys.fingerprint.Some? {
      ghost var a := WithIntegrity(keys, msgType, txid, attrs);
      msg := AppendFingerprint(msg, keys.fingerprint.value, msgType, len, txid, a);
      AppendedSize(a, FingerprintAttr(keys.fingerprint.value, msgType, txid, a));
    }
  }

  // ---- Round trip

  lemma AttrFields(a: Attr, t: Bytes)
    requires |a.value| < 0x1_0000
    ensures var b, l := AttrBytes(a) + t, |a.value|;
      && Get16(b[0..2]) == a.kind && Get16(b[2..4]) == l && b[4..4 + l] == a.value
      && b[Next(l, |b|)..] == t
  {
    var b, l := AttrBytes(a) + t, |a.value|;
    assert b[0..2] == Be16(a.kind);
    assert b[2..4] == Be16(l);
    Words16(a.kind, b[0..2]);
    Words16(l, b[2..4]);
    assert b[4..4 + l] == a.value;
    assert Next(l, |b|) == 4 + l + Pad(l);
    assert b[4 + l + Pad(l)..] == t;
  }

  lemma {:induction false} WalkBody(attrs: seq<Attr>)
    requires forall i :: 0 <= i < |attrs| ==> |attrs[i].value| < 0x1_0000
    ensures Walk(Body(attrs)) == attrs
  {
    if attrs != [] {
      var t := Body(attrs[1..]);
      WalkBody(attrs[1..]);
      AttrFields(attrs[0], t);
      assert Body(attrs) == AttrBytes(attrs[0]) + t;
      WalkOne(Body(attrs), |attrs[0].value|);
    }
  }

  /** Whatever follows a well-formed attribute is walked as if it stood alone. */
  lemma WalkThen(a: Attr, t: Bytes)
    requires |a.value| < 0x1_0000
    ensures Walk(AttrBytes(a) + t) == [a] + Walk(t)
  {
    AttrFields(a, t);
    WalkOne(AttrBytes(a) + t, |a.value|);
  }

  /** The padding of the last attribute may be missing or cut short. */
  lemma WalkUnpadded(a: Attr, pad: Bytes)
    requires |a.value| < 0x1_0000 && |pad| <= Pad(|a.value|)
    ensures Walk(Be16(a.kind) + Be16(|a.value|) + a.value + pad) == [a]
  {
    var b, l := Be16(a.kind) + Be16(|a.value|) + a.value + pad, |a.value|;
    FourPieces(Be16(a.kind), Be16(l), a.value, pad);
    Words16(a.kind, b[0..2]);
    Words16(l, b[2..4]);
    WalkOne(b, l);
    NothingBehind(b, l);
  }

  lemma FourPieces(x: Bytes, y: Bytes, v: Bytes, pad: Bytes)
    requires |x| == 2 && |y| == 2
    ensures var b := x + y + v + pad; b[0..2] == x && b[2..4] == y && b[4..4 + |v|] == v
  {
  }

  lemma NothingBehind(b: Bytes, l: nat)
    requires 4 + l <= |b| <= 4 + l + Pad(l)
    ensures Walk(b[Next(l, |b|)..]) == []
  {
    assert b[Next(l, |b|)..] == [];
  }

  /** The walk ends at fewer than four bytes, and at an attribute that announces more than there is. */
  lemma WalkEnds(b: Bytes)
    ensures Walk(b) == [] <==> |b| < 4 || 4 + Value2(b[2], b[3]) > |b|
  {
    if |b| >= 4 {
      TwoBytes(b[2..4]);
    }
  }

  lemma {:induction false} ValuesFitBody(attrs: seq<Attr>, i: nat)
    requires i < |attrs|
    ensures |attrs[i].value| <= |Body(attrs)|
  {
    if i > 0 {
      ValuesFitBody(attrs[1..], i - 1);
    }
  }

  lemma LengthField(msgType: u16, txid: TxId, attrs: seq<Attr>)
    ensures var msg := Message(msgType, txid, attrs);
      |msg| == HEADER_LEN + |Body(attrs)| && Be(|Body(attrs)|, 2) == msg[2..4] && msg[HEADER_LEN..] == Body(attrs)
  {
  }

  /**
   * The length field is the size of the body, and a multiple of 4, exactly when the body is below 2^16 bytes:
   * `as u16` drops the rest otherwise.
   */
  lemma LengthFieldIsBodySize(msgType: u16, txid: TxId, attrs: seq<Attr>)
    ensures |Body(attrs)| % 4 == 0
    ensures var msg := Message(msgType, txid, attrs); Get16(msg[2..4]) == |msg| - HEADER_LEN <==> |Body(attrs)| < 0x1_0000
  {
    var msg := Message(msgType, txid, attrs);
    BodyLength(attrs);
    LengthField(msgType, txid, attrs);
    if |Body(attrs)| < 0x1_0000 {
      Words16(|Body(attrs)|, msg[2..4]);
    }
  }

  lemma LowBytes()
    ensures Get16(Be(0x1_0004, 2)) == 4
  {
    assert Be(0x1_0004, 2) == Be(0x100, 1) + [4] == [0, 4];
  }

  /** The wrong length does occur: one attribute of 65536 bytes makes for a length field of 4. */
  lemma LengthFieldCanBeWrong(msgType: u16, txid: TxId, kind: u16)
    ensures var attrs := [Attr(kind, Zeros(0x1_0000))];
      var msg := Message(msgType, txid, attrs);
      |Body(attrs)| == 0x1_0004 && Get16(msg[2..4]) == 4
  {
    var a := Attr(kind, Zeros(0x1_0000));
    assert [] + [a] == [a];
    AppendedSize([], a);
    LengthField(msgType, txid, [a]);
    LowBytes();
  }

  /**
   * Round trip in all four combinations of integrity and fingerprint: walking a built message gives the given
   * attributes followed by the appended ones.
   */
  lemma BuiltMessageParses(keys: Keys, msgType: u16, txid: TxId, attrs: seq<Attr>)
    requires |Body(AllAttrs(keys, msgType, txid, attrs))| < 0x1_0000
    ensures var all := AllAttrs(keys, msgType, txid, attrs);
      Attributes(Message(msgType, txid, all)) == Attrs(all) && attrs <= all
  {
    var all := AllAttrs(keys, msgType, txid, attrs);
    MessageParses(msgType, txid, all);
  }

  lemma MessageParses(msgType: u16, txid: TxId, all: seq<Attr>)
    requires |Body(all)| < 0x1_0000
    ensures Attributes(Message(msgType, txid, all)) == Attrs(all)
  {
    var msg := Message(msgType, txid, all);
    LengthField(msgType, txid, all);
    Words16(|Body(all)|, msg[2..4]);
    forall i | 0 <= i < |all| ensures |all[i].value| < 0x1_0000 {
      ValuesFitBody(all, i);
    }
    WalkBody(all);
    assert msg[HEADER_LEN..HEADER_LEN + |Body(all)|] == msg[HEADER_LEN..];
  }

  // ---- The appended attributes, read off the message

  lemma MessageMore(msgType: u16, txid: TxId, attrs: seq<Attr>, a: Attr)
    requires |a.value| % 4 == 0
    ensures var msg, n := Message(msgType, txid, attrs + [a]), 20 + |Body(attrs)|;
      |msg| == n + 4 + |a.value| && msg[..n] == Header(msgType, |Body(attrs)| + 4 + |a.value|, txid) + Body(attrs) && msg[n..] == AttrBytes(a)
  {
    AppendedSize(attrs, a);
    BodyMore(attrs, a);
    var h := Header(msgType, |Body(attrs)| + 4 + |a.value|, txid);
    assert h + (Body(attrs) + AttrBytes(a)) == (h + Body(attrs)) + AttrBytes(a);
  }

  /**
   * Section 15.5 of RFC 5389: a message with a fingerprint ends with that attribute, and its value is the CRC-32 of
   * everything before it, the length field counting it already, XOR-ed with 0x5354554e.
   */
  lemma FingerprintOnTheWire(keys: Keys, msgType: u16, txid: TxId, attrs: seq<Attr>)
    requires keys.fingerprint.Some?
    ensures CrcAtEnd(Message(msgType, txid, AllAttrs(keys, msgType, txid, attrs)), keys.fingerprint.value)
  {
    var b, crc := WithIntegrity(keys, msgType, txid, attrs), keys.fingerprint.value;
    var a := FingerprintAttr(crc, msgType, txid, b);
    var pre := Header(msgType, |Body(b)| + 8, txid) + Body(b);
    MessageMore(msgType, txid, b, a);
    CrcTail(pre, Xor32(crc(pre), FINGERPRINT_XOR), crc);
    var msg := Message(msgType, txid, b + [a]);
    assert msg == msg[..|pre|] + msg[|pre|..];
  }

  ghost predicate CrcAtEnd(msg: Bytes, crc: Bytes -> u32) {
    var n := |msg| - 8;
    n >= 20 && msg[n..n + 4] == [0x80, 0x28, 0, 4] && FromBe(msg[n + 4..]) == Xor32(crc(msg[..n]), 0x5354_554E)
  }

  lemma CrcTail(pre: Bytes, v: u32, crc: Bytes -> u32)
    requires |pre| >= 20 && v == Xor32(crc(pre), FINGERPRINT_XOR)
    ensures CrcAtEnd(pre + AttrBytes(Attr(FINGERPRINT, Be32(v))), crc)
  {
    var msg := pre + AttrBytes(Attr(FINGERPRINT, Be32(v)));
    FingerprintBytes(v);
    FingerprintHead();
    assert msg[..|pre|] == pre && msg[|pre| + 4..] == Be32(v);
    Words32(v, Be32(v));
  }

  lemma FingerprintHead()
    ensures Be16(FINGERPRINT) == [0x80, 0x28] && Be16(4) == [0, 4]
  {
    var x: Bytes, y: Bytes := [0x80, 0x28], [0, 4];
    TwoBytes(x);
    TwoBytes(y);
    Words16(FINGERPRINT, x);
    Words16(4, y);
  }

  lemma IntegrityHead()
    ensures Be16(MESSAGE_INTEGRITY) == [0, 8] && Be16(20) == [0, 20]
  {
    var x: Bytes, y: Bytes := [0, 8], [0, 20];
    TwoBytes(x);
    TwoBytes(y);
    Words16(MESSAGE_INTEGRITY, x);
    Words16(20, y);
  }

  /**
   * A message with an integrity attribute, which is the last or followed by the fingerprint only: the digest is that of
   * the message itself up to and with the attribute, the digest in it set to zero and the length field counting it all.
   */
  lemma IntegrityOnTheWire(keys: Keys, msgType: u16, txid: TxId, attrs: seq<Attr>)
    requires keys.integrity.Some?
    ensures var msg := Message(msgType, txid, AllAttrs(keys, msgType, txid, attrs));
      DigestAt(msg, |msg| - (if keys.fingerprint.Some? then 8 else 0), keys.integrity.value)
  {
    SignedSize(keys, msgType, txid, attrs);
    if keys.fingerprint.Some? {
      SignedThenFingerprint(keys, msgType, txid, attrs);
    } else {
      SignedTail(keys, msgType, txid, attrs, 0, Message(msgType, txid, AllAttrs(keys, msgType, txid, attrs)));
    }
  }

  /** The integrity attribute of `msg` ends at `n`. */
  ghost predicate DigestAt(msg: Bytes, n: int, mac: Bytes -> Digest) {
    44 <= n <= |msg| && msg[n - 24..n - 20] == [0, 8, 0, 20] && msg[n - 20..n] == mac(msg[..n - 20] + Zeros(20))
  }

  lemma DigestBefore(msg: Bytes, n: nat, mac: Bytes -> Digest)
    requires n <= |msg| && DigestAt(msg[..n], n, mac)
    ensures DigestAt(msg, n, mac)
  {
    var p := msg[..n];
    assert p[n - 24..n - 20] == msg[n - 24..n - 20] && p[n - 20..n] == msg[n - 20..n] && p[..n - 20] == msg[..n - 20];
  }

  lemma SignedThenFingerprint(keys: Keys, msgType: u16, txid: TxId, attrs: seq<Attr>)
    requires keys.integrity.Some? && keys.fingerprint.Some?
    ensures var msg := Message(msgType, txid, AllAttrs(keys, msgType, txid, attrs));
      |msg| >= 8 && DigestAt(msg, |msg| - 8, keys.integrity.value)
  {
    var b := WithIntegrity(keys, msgType, txid, attrs);
    var msg := Message(msgType, txid, AllAttrs(keys, msgType, txid, attrs));
    SignedSize(keys, msgType, txid, attrs);
    MessageMore(msgType, txid, b, FingerprintAttr(keys.fingerprint.value, msgType, txid, b));
    SignedTail(keys, msgType, txid, attrs, 8, msg[..|msg| - 8]);
    DigestBefore(msg, |msg| - 8, keys.integrity.value);
  }

  lemma SignedTail(keys: Keys, msgType: u16, txid: TxId, attrs: seq<Attr>, more: nat, msg: Bytes)
    requires keys.integrity.Some? && more == (if keys.fingerprint.Some? then 8 else 0)
    requires msg == Header(msgType, |Body(attrs)| + 24 + more, txid) + Body(WithIntegrity(keys, msgType, txid, attrs))
    ensures DigestAt(msg, |msg|, keys.integrity.value)
  {
    var a := IntegrityAttr(keys.integrity.value, msgType, txid, attrs, keys.fingerprint.Some?);
    var h := Header(msgType, |Body(attrs)| + 24 + more, txid);
    BodyMore(attrs, a);
    IntegrityBytes(a.value);
    assert msg == h + Body(attrs) + AttrBytes(a);
    DigestTail(h + Body(attrs), a.value, keys.integrity.value);
  }

  lemma DigestTail(pre: Bytes, digest: Digest, mac: Bytes -> Digest)
    requires |pre| >= 20 && digest == mac(pre + Be16(MESSAGE_INTEGRITY) + Be16(20) + Zeros(20))
    ensures DigestAt(pre + (Be16(MESSAGE_INTEGRITY) + Be16(20) + digest), |pre| + 24, mac)
  {
    var msg, n := pre + (Be16(MESSAGE_INTEGRITY) + Be16(20) + digest), |pre| + 24;
    IntegrityHead();
    assert msg[..n - 20] == pre + Be16(MESSAGE_INTEGRITY) + Be16(20);
    assert msg[n - 20..n] == digest;
  }
}
