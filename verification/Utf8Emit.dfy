/**
 * The emit buffer between a tokenizer and text output: bytes come in chunks that may end inside a character,
 * and go out in pieces that do not. Well-formedness is the grammar in section 4 of RFC 3629.
 */
module Utf8Emit {
  import opened Words
  import opened Seqs

  predicate IsTail(b: byte) { 0x80 <= b <= 0xBF }

  /** The length a leading byte announces, or 0 if no character starts with it. */
  function Announced(b: byte): (n: nat)
    ensures n <= 4
  {
    if b <= 0x7F then 1
    else if 0xC2 <= b <= 0xDF then 2
    else if 0xE0 <= b <= 0xEF then 3
    else if 0xF0 <= b <= 0xF4 then 4
    else 0
  }

  /** The second byte excludes overlong forms, surrogates and values above 0x10FFFF. */
  predicate SecondOk(lead: byte, b: byte) {
    if lead == 0xE0 then 0xA0 <= b <= 0xBF
    else if lead == 0xED then 0x80 <= b <= 0x9F
    else if lead == 0xF0 then 0x90 <= b <= 0xBF
    else if lead == 0xF4 then 0x80 <= b <= 0x8F
    else IsTail(b)
  }

  /** The length of the character the bytes start with, or 0 if they do not start with a complete one. */
  function CharLen(s: Bytes): (n: nat)
    ensures n <= |s| && n <= 4
  {
    if s == [] then 0
    else
      var n := Announced(s[0]);
      if n == 0 || |s| < n then 0
      else if n >= 2 && !SecondOk(s[0], s[1]) then 0
      else if n >= 3 && !IsTail(s[2]) then 0
      else if n >= 4 && !IsTail(s[3]) then 0
      else n
  }

  /** `Utf8Error::valid_up_to`, or the length if there is no error. */
  function ValidUpTo(s: Bytes): (v: nat)
    ensures v <= |s|
  {
    var n := CharLen(s);
    if n == 0 then 0 else n + ValidUpTo(s[n..])
  }

  predicate Valid(s: Bytes) { ValidUpTo(s) == |s| }

  function DropNul(b: byte): Bytes { if b == 0 then [] else [b] }

  function NulFree(s: Bytes): Bytes { FlatMap(DropNul, s) }

  /** Text that is certain, or bytes handed to the lossy conversion. */
  datatype Emission = Exact(bytes: Bytes) | Lossy(of: Bytes)

  const LIMIT: nat := 8192

  /** What a push makes of everything in hand. */
  function Take(b: Bytes): (Emission, Bytes) {
    if Valid(b) then (Exact(b), [])
    else if ValidUpTo(b) > 0 then (Exact(b[..ValidUpTo(b)]), b[ValidUpTo(b)..])
    else if |b| > LIMIT then (Lossy(b), [])
    else (Exact([]), b)
  }

  class Utf8EmitBuffer {
    var buf: Bytes

    constructor ()
      ensures buf == []
    {
      buf := [];
    }

    method PushAndTakeValid(bytes: Bytes) returns (out: Emission)
      modifies this
      ensures (out, buf) == Take(old(buf) + NulFree(bytes))
    {
      ghost var start := buf;
      for i := 0 to |bytes|
        invariant buf + NulFree(bytes[i..]) == start + NulFree(bytes)
      {
        assert bytes[i..][1..] == bytes[i + 1..];
        if bytes[i] != 0 {
          buf := buf + [bytes[i]];
        }
      }
      assert buf == start + NulFree(bytes);
      var validUpTo := ValidUpTo(buf);
      if validUpTo == |buf| {
        out := Exact(buf);
        buf := [];
        return;
      }
      if validUpTo == 0 {
        if |buf| > LIMIT {
          out := Lossy(buf);
          buf := [];
          return;
        }
        return Exact([]);
      }
      out := Exact(buf[..validUpTo]);
      buf := buf[validUpTo..];
    }

    method FlushLossy() returns (out: Emission)
      modifies this
      ensures buf == [] && out == if old(buf) == [] then Exact([]) else Lossy(old(buf))
    {
      if buf == [] {
        return Exact([]);
      }
      out := Lossy(buf);
      buf := [];
    }
  }

  /**
   * Exactly what a push emits: the longest valid beginning of everything in hand, or, if there is none and more than 8192
   * bytes have come together, everything in hand for lossy conversion.
   */
  lemma TakesLongest(b: Bytes)
    ensures var (e, rest) := Take(b);
      && (e.Exact? ==> Valid(e.bytes) && e.bytes + rest == b && forall k :: |e.bytes| < k <= |b| ==> !Valid(b[..k]))
      && (e.Lossy? <==> |b| > 8192 && forall k :: 0 < k <= |b| ==> !Valid(b[..k]))
      && (e.Lossy? ==> e.of == b && rest == [])
  {
    TakeExact(b);
    ValidBeforeError(b);
    forall k | 0 <= k <= |b| && Valid(b[..k]) ensures k <= ValidUpTo(b) {
      ValidUpToAppend(b[..k], b[k..]);
      assert b[..k] + b[k..] == b;
    }
  }

  // ---- Characters form a prefix code

  /** Whether bytes start with a character is settled by that character. */
  lemma CharLenStable(s: Bytes, t: Bytes)
    requires CharLen(s) > 0
    ensures CharLen(s + t) == CharLen(s)
  {
  }

  /** Four bytes always settle it. */
  lemma CharLenSettled(s: Bytes, t: Bytes)
    requires |s| >= 4
    ensures CharLen(s + t) == CharLen(s)
  {
  }

  lemma {:induction false} ValidUpToAppend(s: Bytes, t: Bytes)
    requires Valid(s)
    ensures ValidUpTo(s + t) == |s| + ValidUpTo(t)
  {
    if s == [] {
      assert s + t == t;
    } else {
      var n := CharLen(s);
      CharLenStable(s, t);
      ValidUpToAppend(s[n..], t);
      assert (s + t)[n..] == s[n..] + t;
    }
  }

  lemma CharLenOfChar(s: Bytes)
    ensures CharLen(s[..CharLen(s)]) == CharLen(s)
  {
  }

  lemma OneCharIsValid(s: Bytes)
    ensures Valid(s[..CharLen(s)])
  {
    CharLenOfChar(s);
    var c := s[..CharLen(s)];
    assert c[CharLen(s)..] == [];
  }

  lemma CharThenValid(s: Bytes, t: Bytes, n: nat)
    requires n == CharLen(s) && Valid(t)
    ensures Valid(s[..n] + t)
  {
    OneCharIsValid(s);
    ValidUpToAppend(s[..n], t);
  }

  /** The part up to the first error is valid. */
  lemma {:induction false} ValidBeforeError(s: Bytes)
    ensures Valid(s[..ValidUpTo(s)])
  {
    var n := CharLen(s);
    if n > 0 {
      var t := s[n..];
      ValidBeforeError(t);
      CharThenValid(s, t[..ValidUpTo(t)], n);
      assert s[..ValidUpTo(s)] == s[..n] + t[..ValidUpTo(t)];
    }
  }

  /** The rest does not start with a character. */
  lemma {:induction false} NoCharAtError(s: Bytes)
    ensures CharLen(s[ValidUpTo(s)..]) == 0
  {
    var n := CharLen(s);
    if n == 0 {
      assert s[0..] == s;
    } else {
      NoCharAtError(s[n..]);
      assert s[n..][ValidUpTo(s[n..])..] == s[ValidUpTo(s)..];
    }
  }

  lemma ShortOrWrong(rest: Bytes, q: Bytes)
    requires CharLen(rest) == 0 && Valid(rest + q)
    ensures |rest| <= 3
  {
    if |rest| >= 4 {
      CharLenSettled(rest, q);
    }
  }

  /** A beginning of valid text is valid but for at most three bytes of its last character. */
  lemma IncompleteIsShort(p: Bytes, q: Bytes, head: Bytes, rest: Bytes)
    requires Valid(p + q) && head == p[..ValidUpTo(p)] && rest == p[ValidUpTo(p)..]
    ensures Valid(head) && Valid(rest + q) && |rest| <= 3
  {
    ValidBeforeError(p);
    NoCharAtError(p);
    assert p + q == head + (rest + q);
    ValidAfterValid(head, rest + q);
    ShortOrWrong(rest, q);
  }

  lemma ValidAfterValid(s: Bytes, t: Bytes)
    requires Valid(s) && Valid(s + t)
    ensures Valid(t)
  {
    ValidUpToAppend(s, t);
  }

  // ---- Whole runs

  datatype Fed = Fed(out: seq<Emission>, buf: Bytes)

  /** Pushing the chunks one after the other. */
  function Feed(buf: Bytes, chunks: seq<Bytes>): Fed
    decreases chunks
  {
    if chunks == [] then Fed([], buf)
    else
      var (e, buf') := Take(buf + NulFree(chunks[0]));
      var rest := Feed(buf', chunks[1..]);
      Fed([e] + rest.out, rest.buf)
  }

  function Joined(chunks: seq<Bytes>): Bytes { if chunks == [] then [] else chunks[0] + Joined(chunks[1..]) }

  /** The input without its NULs, chunk by chunk. */
  function AllBytes(chunks: seq<Bytes>): Bytes { if chunks == [] then [] else NulFree(chunks[0]) + AllBytes(chunks[1..]) }

  lemma {:induction false} AllBytesIsNulFree(chunks: seq<Bytes>)
    ensures AllBytes(chunks) == NulFree(Joined(chunks))
  {
    if chunks != [] {
      AllBytesIsNulFree(chunks[1..]);
      FlatMapConcat(DropNul, chunks[0], Joined(chunks[1..]));
    }
  }

  function ExactBytes(e: Emission): Bytes { if e.Exact? then e.bytes else [] }

  /** The text of the emissions, all of them exact. */
  function Emitted(out: seq<Emission>): Bytes { if out == [] then [] else ExactBytes(out[0]) + Emitted(out[1..]) }

  predicate NoneLossy(out: seq<Emission>) { out == [] || (out[0].Exact? && NoneLossy(out[1..])) }

  predicate AllValid(out: seq<Emission>) { out == [] || (Valid(ExactBytes(out[0])) && AllValid(out[1..])) }

  lemma TakeExact(b: Bytes)
    ensures var (e, rest) := Take(b); e.Exact? ==> Valid(e.bytes) && e.bytes + rest == b
  {
    ValidBeforeError(b);
  }

  lemma FeedFirst(buf: Bytes, chunks: seq<Bytes>)
    requires chunks != []
    ensures var (e, buf') := Take(buf + NulFree(chunks[0]));
      var f, r := Feed(buf, chunks), Feed(buf', chunks[1..]);
      f.out != [] && f.out[0] == e && f.out[1..] == r.out && f.buf == r.buf
  {
  }

  /**
   * For any bytes at all: as long as no emission is lossy, every emission is valid UTF-8 and the emissions with
   * what is still held are the input without its NULs.
   */
  lemma {:induction false} NothingLostUntilLossy(buf: Bytes, chunks: seq<Bytes>)
    requires NoneLossy(Feed(buf, chunks).out)
    ensures AllValid(Feed(buf, chunks).out)
    ensures Emitted(Feed(buf, chunks).out) + Feed(buf, chunks).buf == buf + AllBytes(chunks)
    decreases chunks
  {
    if chunks != [] {
      var (e, buf') := Take(buf + NulFree(chunks[0]));
      var r := Feed(buf', chunks[1..]);
      FeedFirst(buf, chunks);
      TakeExact(buf + NulFree(chunks[0]));
      NothingLostUntilLossy(buf', chunks[1..]);
      Regroup(e.bytes, Emitted(r.out), r.buf, buf', NulFree(chunks[0]), AllBytes(chunks[1..]), buf);
    }
  }

  lemma TakeValidPrefix(b: Bytes, q: Bytes)
    requires Valid(b + q)
    ensures var (e, rest) := Take(b); e.Exact? && |rest| <= 3 && Valid(rest + q)
  {
    IncompleteIsShort(b, q, b[..ValidUpTo(b)], b[ValidUpTo(b)..]);
    if Valid(b) {
      assert b[|b|..] + q == [] + q;
    } else if ValidUpTo(b) == 0 {
      assert b[0..] == b;
    }
  }

  /** A beginning of valid text is never emitted lossily, and at most three bytes are ever held. */
  lemma {:induction false} ValidTextIsNeverLossy(buf: Bytes, chunks: seq<Bytes>, q: Bytes)
    requires |buf| <= 3 && Valid(buf + AllBytes(chunks) + q)
    ensures var f := Feed(buf, chunks); |f.buf| <= 3 && Valid(f.buf + q) && NoneLossy(f.out)
    decreases chunks
  {
    if chunks == [] {
      assert buf + [] == buf;
    } else {
      var b, later := buf + NulFree(chunks[0]), AllBytes(chunks[1..]);
      assert buf + AllBytes(chunks) + q == b + (later + q);
      TakeValidPrefix(b, later + q);
      FeedFirst(buf, chunks);
      var buf' := Take(b).1;
      assert buf' + (later + q) == buf' + later + q;
      ValidTextIsNeverLossy(buf', chunks[1..], q);
    }
  }

  lemma TakeLeavesInvalid(b: Bytes)
    ensures Take(b).1 == [] || !Valid(Take(b).1)
  {
    NoCharAtError(b);
  }

  lemma {:induction false} FeedLeavesInvalid(buf: Bytes, chunks: seq<Bytes>)
    requires buf == [] || !Valid(buf)
    ensures Feed(buf, chunks).buf == [] || !Valid(Feed(buf, chunks).buf)
    decreases chunks
  {
    if chunks != [] {
      TakeLeavesInvalid(buf + NulFree(chunks[0]));
      FeedLeavesInvalid(Take(buf + NulFree(chunks[0])).1, chunks[1..]);
    }
  }

  // ---- Dropping NULs does not break characters

  lemma {:induction false} NulFreeIdentity(s: Bytes)
    requires forall i :: 0 <= i < |s| ==> s[i] != 0
    ensures NulFree(s) == s
  {
    if s != [] {
      NulFreeIdentity(s[1..]);
    }
  }

  lemma NulFreeChar(s: Bytes)
    requires CharLen(s) > 0
    ensures NulFree(s[..CharLen(s)]) == if s[0] == 0 then [] else s[..CharLen(s)]
  {
    var c := s[..CharLen(s)];
    if s[0] == 0 {
      assert c == [0];
      FlatMapOne(DropNul, 0);
    } else {
      NulFreeIdentity(c);
    }
  }

  lemma {:induction false} NulFreeKeepsValid(s: Bytes)
    requires Valid(s)
    ensures Valid(NulFree(s))
  {
    if s != [] {
      var n := CharLen(s);
      NulFreeKeepsValid(s[n..]);
      assert s == s[..n] + s[n..];
      FlatMapConcat(DropNul, s[..n], s[n..]);
      NulFreeChar(s);
      if s[0] == 0 {
        assert [] + NulFree(s[n..]) == NulFree(s[n..]);
      } else {
        CharThenValid(s, NulFree(s[n..]), n);
      }
    }
  }

  /**
   * Every chunking of valid text: the emissions are valid UTF-8, their concatenation is the text without its
   * NULs, and nothing is left for the lossy flush.
   */
  lemma ValidTextComesThrough(chunks: seq<Bytes>)
    requires Valid(Joined(chunks))
    ensures var f := Feed([], chunks); NoneLossy(f.out) && AllValid(f.out) && Emitted(f.out) == NulFree(Joined(chunks)) && f.buf == []
  {
    var text := NulFree(Joined(chunks));
    AllBytesIsNulFree(chunks);
    NulFreeKeepsValid(Joined(chunks));
    assert [] + text + [] == text && [] + text == text;
    ValidTextIsNeverLossy([], chunks, []);
    NothingLostUntilLossy([], chunks);
    FeedLeavesInvalid([], chunks);
    assert Feed([], chunks).buf + [] == Feed([], chunks).buf;
  }

  // ---- Memory

  /** Beyond the limit only bytes that can never become a character are held. */
  predicate Stuck(buf: Bytes) { |buf| >= 4 && CharLen(buf) == 0 }

  /** Whatever comes in, a push leaves less than the limit plus its own chunk, and what is stuck is cleared next. */
  lemma TakeIsBounded(buf: Bytes, chunk: Bytes)
    requires |buf| > LIMIT ==> Stuck(buf)
    ensures var rest := Take(buf + chunk).1;
      |rest| <= LIMIT + |chunk| && (|rest| > LIMIT ==> Stuck(rest)) && (|buf| > LIMIT ==> rest == [])
  {
    var b := buf + chunk;
    NoCharAtError(b);
    if |buf| > LIMIT {
      CharLenSettled(buf, chunk);
    }
  }

  /** Over every run, with chunks of at most `n` bytes, no more than the limit and one chunk is ever held. */
  lemma {:induction false} BufferIsBounded(buf: Bytes, chunks: seq<Bytes>, n: nat)
    requires |buf| <= LIMIT + n && (|buf| > LIMIT ==> Stuck(buf))
    requires forall i :: 0 <= i < |chunks| ==> |NulFree(chunks[i])| <= n
    ensures |Feed(buf, chunks).buf| <= LIMIT + n
    decreases chunks
  {
    if chunks != [] {
      TakeIsBounded(buf, NulFree(chunks[0]));
      FeedFirst(buf, chunks);
      BufferIsBounded(Take(buf + NulFree(chunks[0])).1, chunks[1..], n);
    }
  }

  // ---- The grammar against the encoding it describes

  predicate IsScalar(v: nat) { v < 0xD800 || 0xE000 <= v < 0x11_0000 }

  /** Section 3 of RFC 3629. */
  function Encode(v: nat): (s: Bytes)
    requires IsScalar(v)
  {
    if v < 0x80 then [v]
    else if v < 0x800 then [0xC0 + v / 64, 0x80 + v % 64]
    else if v < 0x1_0000 then [0xE0 + v / 64 / 64, 0x80 + v / 64 % 64, 0x80 + v % 64]
    else [0xF0 + v / 64 / 64 / 64, 0x80 + v / 64 / 64 % 64, 0x80 + v / 64 % 64, 0x80 + v % 64]
  }

  lemma EncodedIsOneChar(v: nat, t: Bytes)
    requires IsScalar(v)
    ensures CharLen(Encode(v) + t) == |Encode(v)|
  {
  }

  /** The next six bits. */
  function Six(q: int, b: byte): int { q * 64 + (b as int - 0x80) }

  lemma SixApart(q: nat, b: byte)
    requires IsTail(b)
    ensures Six(q, b) / 64 == q && 0x80 + Six(q, b) % 64 == b
  {
  }

  /** The scalar value a character stands for. */
  function Scalar(s: Bytes): (v: int)
    requires CharLen(s) > 0
  {
    var n := CharLen(s);
    if n == 1 then s[0]
    else if n == 2 then Six(s[0] as int - 0xC0, s[1])
    else if n == 3 then Six(Six(s[0] as int - 0xE0, s[1]), s[2])
    else Six(Six(Six(s[0] as int - 0xF0, s[1]), s[2]), s[3])
  }

  /** What the grammar accepts at the start of a string is exactly one encoded scalar value. */
  lemma CharIsEncodedScalar(s: Bytes)
    requires CharLen(s) > 0
    ensures Scalar(s) >= 0 && IsScalar(Scalar(s)) && Encode(Scalar(s)) == s[..CharLen(s)]
  {
    var n := CharLen(s);
    if n == 2 {
      SixApart(s[0] as int - 0xC0, s[1]);
    } else if n == 3 {
      SixApart(s[0] as int - 0xE0, s[1]);
      SixApart(Six(s[0] as int - 0xE0, s[1]), s[2]);
    } else if n == 4 {
      SixApart(s[0] as int - 0xF0, s[1]);
      SixApart(Six(s[0] as int - 0xF0, s[1]), s[2]);
      SixApart(Six(Six(s[0] as int - 0xF0, s[1]), s[2]), s[3]);
    }
  }
}
