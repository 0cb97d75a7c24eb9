/**
 * Sending generated text to the server: tokens are cleaned of control tokens, split into phases, and gathered into
 * numbered chunks of one phase each. The control stream is the sequence of chunks written to it.
 */
module ChunkSend {
  import opened Words
  import opened Options
  import opened Seqs
  import opened TextSearch
  import opened PhaseSplit
  import opened PhaseStream
  import Utf8Emit

  // ---- Control tokens

  type NonEmpty = s: string | s != "" witness "<"

  const CONTROL_TOKENS: seq<NonEmpty> :=
    ["<|end|>", "<|start|>", "<|channel|>", "<|message|>", "<|eot_id|>", "<|start_header_id|>", "<|end_header_id|>"]

  /** `str::replace` by nothing. */
  function Without(s: string, m: NonEmpty): (r: string)
    decreases |s|
  {
    match Find(s, m)
    case None => s
    case Some(i) => s[..i] + Without(s[i + |m|..], m)
  }

  function Cleaned(s: string, ms: seq<NonEmpty>): string
    decreases |ms|
  {
    if ms == [] then s else Cleaned(Without(s, ms[0]), ms[1..])
  }

  lemma {:induction false} WithoutShrinks(s: string, m: NonEmpty)
    ensures |Without(s, m)| <= |s|
    ensures Find(s, m).Some? ==> |Without(s, m)| < |s|
    decreases |s|
  {
    if Find(s, m).Some? {
      WithoutShrinks(s[Find(s, m).value + |m|..], m);
    }
  }

  lemma {:induction false} CleanedShrinks(s: string, ms: seq<NonEmpty>)
    ensures |Cleaned(s, ms)| <= |s|
    decreases |ms|
  {
    if ms != [] {
      WithoutShrinks(s, ms[0]);
      CleanedShrinks(Without(s, ms[0]), ms[1..]);
    }
  }

  /** `filter_control_tokens` leaves a text alone exactly when none of the control tokens occurs in it. */
  lemma {:induction false} CleanedUnchanged(s: string, ms: seq<NonEmpty>)
    ensures Cleaned(s, ms) == s <==> forall i :: 0 <= i < |ms| ==> Find(s, ms[i]) == None
    decreases |ms|
  {
    if ms != [] {
      if Find(s, ms[0]) == None {
        CleanedUnchanged(s, ms[1..]);
      } else {
        WithoutShrinks(s, ms[0]);
        CleanedShrinks(Without(s, ms[0]), ms[1..]);
      }
    }
  }

  // ---- What the filter leaves behind

  /** A token that opens with `<` and has no other `<`, as all control tokens do. */
  predicate Bracketed(m: NonEmpty) { m[0] == '<' && forall i :: 0 < i < |m| ==> m[i] != '<' }

  lemma TokensAreBracketed(i: nat)
    requires i < |CONTROL_TOKENS|
    ensures Bracketed(CONTROL_TOKENS[i])
  {
  }

  lemma OccurrenceAt(s: string, m: string, i: nat, k: nat)
    requires OccursAt(s, m, i) && k < |m|
    ensures s[i + k] == m[k]
  {
    OccurrenceText(s, m, i);
    assert s[i..i + |m|][k] == s[i + k];
  }

  lemma NoBracketNoToken(s: string, m: NonEmpty)
    requires Bracketed(m) && '<' !in s
    ensures Find(s, m) == None
  {
    FindFromIsFirst(s, m, 0);
    if Find(s, m).Some? {
      OccurrenceAt(s, m, Find(s, m).value, 0);
    }
  }

  /** A token put inside a copy of itself is found at the inner place only. */
  lemma InnerIsFirst(m: NonEmpty, k: nat, j: nat)
    requires Bracketed(m) && 0 < k < |m| && j < k
    ensures !OccursAt(m[..k] + m + m[k..], m, j)
  {
    var s := m[..k] + m + m[k..];
    assert s[k] == m[0];
    if OccursAt(s, m, j) {
      OccurrenceAt(s, m, j, k - j);
    }
  }

  lemma InnerIsFound(m: NonEmpty, k: nat)
    requires Bracketed(m) && 0 < k < |m|
    ensures Find(m[..k] + m + m[k..], m) == Some(k)
  {
    var s := m[..k] + m + m[k..];
    forall j: nat | j < k ensures !OccursAt(s, m, j) {
      InnerIsFirst(m, k, j);
    }
    MatchesIsEquality(m, 0, m, |m|);
    OccursInside(m[..k], m, m[k..], m, 0);
    FindFromIsFirst(s, m, 0);
  }

  /** A token put inside a copy of itself leaves that copy behind. */
  lemma NestedTokenStays(m: NonEmpty, k: nat)
    requires Bracketed(m) && 0 < k < |m|
    ensures Without(m[..k] + m + m[k..], m) == m
  {
    var s := m[..k] + m + m[k..];
    InnerIsFound(m, k);
    assert s[..k] == m[..k] && s[k + |m|..] == m[k..];
    NoBracketNoToken(m[k..], m);
  }

  lemma {:induction false} TooShort(s: string, ms: seq<NonEmpty>)
    requires forall i :: 0 <= i < |ms| ==> |s| < |ms[i]|
    ensures Cleaned(s, ms) == s
    decreases |ms|
  {
    CleanedUnchanged(s, ms);
  }

  /** `filter_control_tokens` does not always leave a text free of control tokens. */
  lemma FilterLeavesToken()
    ensures Cleaned("<|e<|end|>nd|>", CONTROL_TOKENS) == "<|end|>"
  {
    var m: NonEmpty := CONTROL_TOKENS[0];
    TokensAreBracketed(0);
    assert m[..3] + m + m[3..] == "<|e<|end|>nd|>";
    NestedTokenStays(m, 3);
    TooShort(m, CONTROL_TOKENS[1..]);
  }

  /** Some token stands in `s` at `i`. */
  predicate Opens(s: string, ms: seq<NonEmpty>, i: nat) { exists j :: 0 <= j < |ms| && OccursAt(s, ms[j], i) }

  /** Every `<` opens a token. */
  ghost predicate AllOpen(s: string, ms: seq<NonEmpty>) { forall i: nat :: i < |s| && s[i] == '<' ==> Opens(s, ms, i) }

  lemma OpensWithin(s: string, ms: seq<NonEmpty>, j: nat, i: nat, lo: nat, hi: nat)
    requires j < |ms| && OccursAt(s, ms[j], i) && lo <= i && i + |ms[j]| <= hi <= |s|
    ensures Opens(s[lo..hi], ms, i - lo)
  {
    assert s == s[..lo] + s[lo..hi] + s[hi..];
    MatchesElsewhere(s[..lo], s[lo..hi], s[hi..], i - lo, ms[j], |ms[j]|);
    assert OccursAt(s[lo..hi], ms[j], i - lo);
  }

  lemma OpensAround(p: string, s: string, q: string, ms: seq<NonEmpty>, i: nat)
    requires Opens(s, ms, i)
    ensures Opens(p + s + q, ms, |p| + i)
  {
    var j :| 0 <= j < |ms| && OccursAt(s, ms[j], i);
    OccursInside(p, s, q, ms[j], i);
  }

  lemma AllOpenConcat(a: string, b: string, ms: seq<NonEmpty>)
    requires AllOpen(a, ms) && AllOpen(b, ms)
    ensures AllOpen(a + b, ms)
  {
    forall i: nat | i < |a + b| && (a + b)[i] == '<' ensures Opens(a + b, ms, i) {
      if i < |a| {
        OpensAround("", a, b, ms, i);
        assert "" + a + b == a + b;
      } else {
        OpensAround(a, b, "", ms, i - |a|);
        assert a + b + "" == a + b;
      }
    }
  }

  ghost predicate AllBracketed(ms: seq<NonEmpty>) { forall i :: 0 <= i < |ms| ==> Bracketed(ms[i]) }

  lemma AllOpenAfter(s: string, ms: seq<NonEmpty>, c: nat)
    requires AllOpen(s, ms) && c <= |s|
    ensures AllOpen(s[c..], ms)
  {
    forall i: nat | i < |s[c..]| && s[c..][i] == '<' ensures Opens(s[c..], ms, i) {
      assert Opens(s, ms, c + i);
      var j :| 0 <= j < |ms| && OccursAt(s, ms[j], c + i);
      OpensWithin(s, ms, j, c + i, c, |s|);
      assert s[c..|s|] == s[c..];
    }
  }

  /** A token that opens before a later `<` has ended there. */
  lemma EndsBefore(s: string, m: NonEmpty, i: nat, c: nat)
    requires Bracketed(m) && OccursAt(s, m, i) && i < c < |s| && s[c] == '<'
    ensures i + |m| <= c
  {
    if c < i + |m| {
      OccurrenceAt(s, m, i, c - i);
    }
  }

  /** Where no `ms[0]` opens, another token does. */
  lemma OpensOther(s: string, ms: seq<NonEmpty>, i: nat) returns (j: nat)
    requires ms != [] && Opens(s, ms, i) && !OccursAt(s, ms[0], i)
    ensures j < |ms[1..]| && ms[1..][j] == ms[j + 1] && OccursAt(s, ms[1..][j], i)
  {
    var k :| 0 <= k < |ms| && OccursAt(s, ms[k], i);
    j := k - 1;
  }

  lemma AllOpenBefore(s: string, ms: seq<NonEmpty>, c: nat)
    requires ms != [] && AllBracketed(ms) && AllOpen(s, ms) && OccursAt(s, ms[0], c)
    requires forall i: nat :: i < c ==> !OccursAt(s, ms[0], i)
    ensures AllOpen(s[..c], ms[1..])
  {
    OccurrenceAt(s, ms[0], c, 0);
    forall i: nat | i < |s[..c]| && s[..c][i] == '<' ensures Opens(s[..c], ms[1..], i) {
      var j := OpensOther(s, ms, i);
      EndsBefore(s, ms[1..][j], i, c);
      OpensWithin(s, ms[1..], j, i, 0, c);
      assert s[0..c] == s[..c];
    }
  }

  lemma AllOpenUpTo(s: string, ms: seq<NonEmpty>, c: nat, rest: string)
    requires ms != [] && AllBracketed(ms) && AllOpen(s, ms) && Find(s, ms[0]) == Some(c) && AllOpen(rest, ms[1..])
    ensures AllOpen(s[..c] + rest, ms[1..])
  {
    FindFromIsFirst(s, ms[0], 0);
    AllOpenBefore(s, ms, c);
    AllOpenConcat(s[..c], rest, ms[1..]);
  }

  lemma AllOpenOther(s: string, ms: seq<NonEmpty>)
    requires ms != [] && AllOpen(s, ms) && Find(s, ms[0]) == None
    ensures AllOpen(s, ms[1..])
  {
    FindFromIsFirst(s, ms[0], 0);
    forall i: nat | i < |s| && s[i] == '<' ensures Opens(s, ms[1..], i) {
      var j := OpensOther(s, ms, i);
    }
  }

  lemma {:induction false} WithoutAllOpen(s: string, ms: seq<NonEmpty>)
    requires ms != [] && AllBracketed(ms) && AllOpen(s, ms)
    ensures AllOpen(Without(s, ms[0]), ms[1..])
    decreases |s|
  {
    match Find(s, ms[0])
    case None =>
      AllOpenOther(s, ms);
    case Some(c) =>
      AllOpenAfter(s, ms, c + |ms[0]|);
      WithoutAllOpen(s[c + |ms[0]|..], ms);
      AllOpenUpTo(s, ms, c, Without(s[c + |ms[0]|..], ms[0]));
  }

  lemma {:induction false} CleanedHasNoBracket(s: string, ms: seq<NonEmpty>)
    requires AllBracketed(ms) && AllOpen(s, ms)
    ensures '<' !in Cleaned(s, ms)
    decreases |ms|
  {
    if ms == [] {
      forall i: nat | i < |s| ensures s[i] != '<' {
        assert !Opens(s, ms, i);
      }
    } else {
      WithoutAllOpen(s, ms);
      CleanedHasNoBracket(Without(s, ms[0]), ms[1..]);
    }
  }

  /** A text in which every `<` opens a control token is left without any control token. */
  lemma FilterIsComplete(s: string, i: nat)
    requires AllOpen(s, CONTROL_TOKENS) && i < |CONTROL_TOKENS|
    ensures Find(Cleaned(s, CONTROL_TOKENS), CONTROL_TOKENS[i]) == None
  {
    forall k | 0 <= k < |CONTROL_TOKENS| ensures Bracketed(CONTROL_TOKENS[k]) {
      TokensAreBracketed(k);
    }
    CleanedHasNoBracket(s, CONTROL_TOKENS);
    NoBracketNoToken(Cleaned(s, CONTROL_TOKENS), CONTROL_TOKENS[i]);
  }

  // ---- Chunks

  /** The number of bytes a character takes in UTF-8. */
  function Width(c: char): nat {
    if c as int < 0x80 then 1 else if c as int < 0x800 then 2 else if c as int < 0x10000 then 3 else 4
  }

  /** As many bytes as the encoding of section 3 of RFC 3629 has. */
  lemma WidthIsEncoded(c: char)
    ensures Utf8Emit.IsScalar(c as int) && Width(c) == |Utf8Emit.Encode(c as int)|
  {
  }

  function ByteLen(s: string): nat {
    if s == "" then 0 else ByteLen(s[..|s| - 1]) + Width(s[|s| - 1])
  }

  const MAX_BYTES: nat := 8
  const U32: int := 0x1_0000_0000

  datatype Counts = Counts(completion: u32, analysis: u32, final: u32)

  datatype Problem = Failed(rc: int) | CancelledByServer

  datatype Chunk = Chunk(seqNo: u32, delta: string, phase: Phase, done: bool, error: Option<Problem>, counts: Counts)

  /** The sending half of the callback's state, and what has been written to the stream. */
  datatype Sender = Sender(seqNo: u32, buf: string, bufPhase: Phase, counts: Counts, sent: seq<Chunk>)

  const FIRST := Sender(0, "", Unknown, Counts(0, 0, 0), [])

  function SatInc(n: u32): u32 { if n == U32 - 1 then n else n + 1 }

  function Count(c: Counts, ph: Phase): Counts {
    match ph
    case Analysis => c.(analysis := SatInc(c.analysis))
    case Final => c.(final := SatInc(c.final))
    case Unknown => c
  }

  function Flush(o: Sender): Sender {
    o.(seqNo := (o.seqNo + 1) % U32, buf := "",
       sent := o.sent + [Chunk(o.seqNo, o.buf, o.bufPhase, false, None, o.counts)])
  }

  /** Makes room for text of phase `ph`: a buffer of another phase goes out. */
  function MakeRoom(o: Sender, ph: Phase): Sender {
    (if o.buf != "" && o.bufPhase != ph then Flush(o) else o).(bufPhase := ph)
  }

  function Append(o: Sender, text: string): Sender { o.(buf := o.buf + text) }

  function Settle(o: Sender): Sender { if ByteLen(o.buf) < MAX_BYTES then o else Flush(o) }

  function Add(o: Sender, seg: Segment): Sender {
    if seg.text == "" then o
    else Settle(Append(MakeRoom(o.(counts := Count(o.counts, seg.phase)), seg.phase), seg.text))
  }

  function AddAll(o: Sender, segs: seq<Segment>): Sender
    decreases |segs|
  {
    if segs == [] then o else Add(AddAll(o, segs[..|segs| - 1]), segs[|segs| - 1])
  }

  // ---- Text and phases are kept

  /** A text with every character labelled with its phase. */
  function Paint(ph: Phase, s: string): (p: seq<(Phase, char)>)
    ensures |p| == |s|
  {
    if s == "" then [] else Paint(ph, s[..|s| - 1]) + [(ph, s[|s| - 1])]
  }

  lemma {:induction false} PaintConcat(ph: Phase, a: string, b: string)
    ensures Paint(ph, a + b) == Paint(ph, a) + Paint(ph, b)
    decreases |b|
  {
    if b == "" {
      assert a + b == a;
    } else {
      PaintConcat(ph, a, b[..|b| - 1]);
      assert (a + b)[..|a + b| - 1] == a + b[..|b| - 1];
    }
  }

  function PaintChunk(c: Chunk): seq<(Phase, char)> { Paint(c.phase, c.delta) }
  function PaintChunks(cs: seq<Chunk>): seq<(Phase, char)> { FlatMap(PaintChunk, cs) }
  function PaintSegment(g: Segment): seq<(Phase, char)> { Paint(g.phase, g.text) }
  function PaintSegments(gs: seq<Segment>): seq<(Phase, char)> { FlatMap(PaintSegment, gs) }

  /** All text taken in so far: what has been sent and what is in the buffer. */
  function Painted(o: Sender): seq<(Phase, char)> { PaintChunks(o.sent) + Paint(o.bufPhase, o.buf) }

  lemma FlushPaints(o: Sender, ph: Phase)
    ensures Painted(Flush(o).(bufPhase := ph)) == Painted(o)
  {
    var c := Chunk(o.seqNo, o.buf, o.bufPhase, false, None, o.counts);
    FlatMapConcat(PaintChunk, o.sent, [c]);
    FlatMapOne(PaintChunk, c);
  }

  lemma MakeRoomPaints(o: Sender, ph: Phase)
    ensures Painted(MakeRoom(o, ph)) == Painted(o)
  {
    if o.buf != "" && o.bufPhase != ph {
      FlushPaints(o, ph);
    }
  }

  lemma AppendPaints(o: Sender, text: string)
    ensures Painted(Append(o, text)) == Painted(o) + Paint(o.bufPhase, text)
  {
    PaintConcat(o.bufPhase, o.buf, text);
  }

  lemma SettlePaints(o: Sender)
    ensures Painted(Settle(o)) == Painted(o)
  {
    FlushPaints(o, o.bufPhase);
  }

  lemma AddPaints(o: Sender, seg: Segment)
    ensures Painted(Add(o, seg)) == Painted(o) + PaintSegment(seg)
  {
    if seg.text != "" {
      var counted := o.(counts := Count(o.counts, seg.phase));
      MakeRoomPaints(counted, seg.phase);
      AppendPaints(MakeRoom(counted, seg.phase), seg.text);
      SettlePaints(Append(MakeRoom(counted, seg.phase), seg.text));
    }
  }

  lemma {:induction false} AddAllPaints(o: Sender, segs: seq<Segment>)
    ensures Painted(AddAll(o, segs)) == Painted(o) + PaintSegments(segs)
    decreases |segs|
  {
    if segs != [] {
      var n := |segs| - 1;
      AddAllPaints(o, segs[..n]);
      AddPaints(AddAll(o, segs[..n]), segs[n]);
      FlatMapConcat(PaintSegment, segs[..n], [segs[n]]);
      FlatMapOne(PaintSegment, segs[n]);
      assert segs[..n] + [segs[n]] == segs;
    }
  }

  // ---- Numbers and sizes

  /** Chunk `i` has number `i` modulo 2^32, and none sent from the callback is the last or an error. */
  ghost predicate Numbered(o: Sender) {
    && o.seqNo == |o.sent| % U32
    && forall i :: 0 <= i < |o.sent| ==> o.sent[i].seqNo == i % U32 && !o.sent[i].done && o.sent[i].error == None
  }

  predicate Small(c: Chunk) { ByteLen(c.delta) < MAX_BYTES }

  /** No chunk is empty, and a small one is followed by text of another phase. The buffer is small. */
  ghost predicate Gathered(o: Sender) {
    && ByteLen(o.buf) < MAX_BYTES
    && (forall i :: 0 <= i < |o.sent| ==> o.sent[i].delta != "")
    && (forall i :: 0 <= i < |o.sent| - 1 && Small(o.sent[i]) ==> o.sent[i].phase != o.sent[i + 1].phase)
    && (o.sent != [] && Small(o.sent[|o.sent| - 1]) ==> o.buf != "" && o.bufPhase != o.sent[|o.sent| - 1].phase)
  }

  lemma AddKeepsNumbers(o: Sender, seg: Segment)
    requires Numbered(o)
    ensures Numbered(Add(o, seg))
  {
    if seg.text != "" {
      FlushKeepsNumbers(o.(counts := Count(o.counts, seg.phase)));
      FlushKeepsNumbers(Append(MakeRoom(o.(counts := Count(o.counts, seg.phase)), seg.phase), seg.text));
    }
  }

  lemma FlushKeepsNumbers(o: Sender)
    requires Numbered(o)
    ensures Numbered(Flush(o))
  {
  }

  /** What holds between making room and settling: a non-empty buffer of any size, of another phase than a small chunk before it. */
  ghost predicate Open(o: Sender) {
    && o.buf != ""
    && (forall i :: 0 <= i < |o.sent| ==> o.sent[i].delta != "")
    && (forall i :: 0 <= i < |o.sent| - 1 && Small(o.sent[i]) ==> o.sent[i].phase != o.sent[i + 1].phase)
    && (o.sent != [] && Small(o.sent[|o.sent| - 1]) ==> o.bufPhase != o.sent[|o.sent| - 1].phase)
  }

  lemma RoomIsOpen(o: Sender, seg: Segment)
    requires Gathered(o) && seg.text != ""
    ensures Open(Append(MakeRoom(o, seg.phase), seg.text))
  {
  }

  lemma SettleGathers(o: Sender)
    requires Open(o)
    ensures Gathered(Settle(o))
  {
  }

  lemma AddGathers(o: Sender, seg: Segment)
    requires Gathered(o)
    ensures Gathered(Add(o, seg))
  {
    if seg.text != "" {
      var counted := o.(counts := Count(o.counts, seg.phase));
      RoomIsOpen(counted, seg);
      SettleGathers(Append(MakeRoom(counted, seg.phase), seg.text));
    }
  }

  lemma {:induction false} AddAllKeeps(o: Sender, segs: seq<Segment>)
    requires Numbered(o) && Gathered(o)
    ensures Numbered(AddAll(o, segs)) && Gathered(AddAll(o, segs))
    decreases |segs|
  {
    if segs != [] {
      AddAllKeeps(o, segs[..|segs| - 1]);
      AddKeepsNumbers(AddAll(o, segs[..|segs| - 1]), segs[|segs| - 1]);
      AddGathers(AddAll(o, segs[..|segs| - 1]), segs[|segs| - 1]);
    }
  }
}
