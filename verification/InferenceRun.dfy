/** One inference task as the server sees it: every token the engine hands to the callback, and the closing chunks. */
module InferenceRun {
  import opened Words
  import opened Options
  import opened Seqs
  import opened PhaseSplit
  import opened PhaseStream
  import opened ChunkSend

  /** What the engine passes: a null pointer, bytes that are not UTF-8, or text. */
  datatype Token = Null | NotUtf8 | Str(text: string)

  /** A call of the callback; `cancel` if the task is found marked as cancelled. */
  datatype Call = Call(token: Token, cancel: bool)

  datatype Callback = Callback(splitter: Splitter, out: Sender, cancelled: bool)

  const FRESH := Callback(START, FIRST, false)

  /** What is fixed in the program: the markers and the control tokens. */
  datatype Setup = Setup(markers: seq<Marker>, controls: seq<NonEmpty>)

  const PROGRAM := Setup(MARKERS, CONTROL_TOKENS)

  function Filter(g: Setup, text: string): string { Cleaned(text, g.controls) }

  function CountCompletion(o: Sender): Sender { o.(counts := o.counts.(completion := SatInc(o.counts.completion))) }

  /** The call brings text that is looked at. */
  predicate HasText(c: Call) { c.token.Str? && !c.cancel && c.token.text != "" }

  function Take(g: Setup, st: Callback, text: string): Callback {
    var p := Step(g.markers, st.splitter, Filter(g, text));
    st.(splitter := p.next, out := AddAll(CountCompletion(st.out), SegmentsOf(p.items)))
  }

  function OnToken(g: Setup, st: Callback, c: Call): Callback {
    if HasText(c) then Take(g, st, c.token.text)
    else if c.cancel && !c.token.Null? then st.(cancelled := true)
    else st
  }

  class TokenCallback {
    const controls: seq<NonEmpty>
    const splitter: PhaseSplitter
    var seqNo: u32
    var buf: string
    var bufPhase: Phase
    var counts: Counts
    var cancelled: bool
    var sent: seq<Chunk>

    constructor ()
      ensures State() == FRESH && Program() == PROGRAM && fresh(splitter)
    {
      controls := CONTROL_TOKENS;
      splitter := new PhaseSplitter();
      seqNo, buf, bufPhase, counts, cancelled, sent := 0, "", Unknown, Counts(0, 0, 0), false, [];
    }

    function Program(): Setup { Setup(splitter.markers, controls) }

    function Out(): Sender
      reads this
    {
      Sender(seqNo, buf, bufPhase, counts, sent)
    }

    function State(): Callback
      reads this, splitter
    {
      Callback(splitter.State(), Out(), cancelled)
    }

    method SendBuffer()
      modifies `seqNo, `buf, `sent
      ensures Out() == Flush(old(Out()))
    {
      var delta := buf;
      buf := "";
      sent := sent + [Chunk(seqNo, delta, bufPhase, false, None, counts)];
      seqNo := (seqNo + 1) % U32;
    }

    method TakeSegment(seg: Segment)
      modifies `seqNo, `buf, `bufPhase, `counts, `sent
      ensures Out() == Add(old(Out()), seg)
    {
      if seg.text == "" {
        return;
      }
      match seg.phase {
        case Analysis => counts := counts.(analysis := SatInc(counts.analysis));
        case Final => counts := counts.(final := SatInc(counts.final));
        case Unknown =>
      }
      if buf == "" {
        bufPhase := seg.phase;
      } else if bufPhase != seg.phase {
        SendBuffer();
        bufPhase := seg.phase;
      }
      buf := buf + seg.text;
      if ByteLen(buf) < MAX_BYTES {
        return;
      }
      SendBuffer();
    }

    method TakeSegments(segs: seq<Segment>)
      modifies `seqNo, `buf, `bufPhase, `counts, `sent
      ensures Out() == AddAll(old(Out()), segs)
    {
      for i := 0 to |segs|
        invariant Out() == AddAll(old(Out()), segs[..i])
      {
        TakeSegment(segs[i]);
        assert segs[..i + 1][..i] == segs[..i];
      }
      assert segs[..|segs|] == segs;
    }

    method HandleToken(c: Call)
      modifies this, splitter
      ensures State() == OnToken(Program(), old(State()), c)
    {
      if c.token.Null? {
        return;
      }
      if c.cancel {
        cancelled := true;
        return;
      }
      if c.token.NotUtf8? || c.token.text == "" {
        return;
      }
      counts := counts.(completion := SatInc(counts.completion));
      var filtered := Cleaned(c.token.text, controls);
      if filtered == "" {
        assert SegmentsOf([]) == [];
        return;
      }
      var segs := splitter.PushText(filtered);
      TakeSegments(segs);
    }

    /** What the task sends once the engine has returned `rc`. */
    method Close(rc: int)
      modifies `seqNo, `buf, `sent
      ensures sent == Closed(old(State()), rc)
    {
      if rc < 0 {
        sent := sent + [Chunk(0, "", Final, true, Some(Failed(rc)), Counts(0, 0, 0))];
        return;
      }
      if buf != "" {
        SendBuffer();
      }
      sent := sent + [Chunk(seqNo, "", splitter.phase, true, if cancelled then Some(CancelledByServer) else None, counts)];
    }
  }

  /** All chunks of a task after the engine has returned `rc`. */
  function Closed(st: Callback, rc: int): seq<Chunk> {
    if rc < 0 then st.out.sent + [Chunk(0, "", Final, true, Some(Failed(rc)), Counts(0, 0, 0))]
    else
      var o := if st.out.buf != "" then Flush(st.out) else st.out;
      o.sent + [Chunk(o.seqNo, "", st.splitter.phase, true, if st.cancelled then Some(CancelledByServer) else None, o.counts)]
  }

  function AfterCalls(g: Setup, st: Callback, calls: seq<Call>): Callback
    decreases |calls|
  {
    if calls == [] then st else AfterCalls(g, OnToken(g, st, calls[0]), calls[1..])
  }

  /** The texts that calls hand to the splitter. */
  function Fed(g: Setup, calls: seq<Call>): seq<string>
    decreases |calls|
  {
    if calls == [] then []
    else if HasText(calls[0]) then [Filter(g, calls[0].token.text)] + Fed(g, calls[1..])
    else Fed(g, calls[1..])
  }

  // ---- Nothing is lost between the tokens and the chunks

  /** The segments that each call with text brings. */
  function Pieces(g: Setup, st: Splitter, calls: seq<Call>): seq<seq<Segment>>
    decreases |calls|
  {
    if calls == [] then []
    else if HasText(calls[0]) then
      var p := Step(g.markers, st, Filter(g, calls[0].token.text));
      [SegmentsOf(p.items)] + Pieces(g, p.next, calls[1..])
    else Pieces(g, st, calls[1..])
  }

  function Absorb(o: Sender, ps: seq<seq<Segment>>): Sender
    decreases |ps|
  {
    if ps == [] then o else Absorb(AddAll(CountCompletion(o), ps[0]), ps[1..])
  }

  function Same(segs: seq<Segment>): seq<Segment> { segs }

  function AllSegments(ps: seq<seq<Segment>>): seq<Segment> { FlatMap(Same, ps) }

  /** The sender sees the segments and nothing else of the calls. */
  lemma {:induction false} CallsAbsorb(g: Setup, st: Callback, calls: seq<Call>)
    ensures AfterCalls(g, st, calls).out == Absorb(st.out, Pieces(g, st.splitter, calls))
    decreases |calls|
  {
    if calls != [] {
      CallsAbsorb(g, OnToken(g, st, calls[0]), calls[1..]);
      if HasText(calls[0]) {
        var p := Step(g.markers, st.splitter, Filter(g, calls[0].token.text));
        var more := Pieces(g, p.next, calls[1..]);
        assert ([SegmentsOf(p.items)] + more)[1..] == more;
      }
    }
  }

  lemma RunFirst(ms: seq<Marker>, st: Splitter, text: string, more: seq<string>)
    ensures var p := Step(ms, st, text);
      Run(ms, st, [text] + more) == PhaseStream.After(p.items, Run(ms, p.next, more))
  {
    assert ([text] + more)[1..] == more;
  }

  lemma AllSegmentsFirst(items: seq<Item>, ps: seq<seq<Segment>>, rest: seq<Item>)
    requires AllSegments(ps) == SegmentsOf(rest)
    ensures AllSegments([SegmentsOf(items)] + ps) == SegmentsOf(items + rest)
  {
    FlatMapConcat(ItemSegments, items, rest);
    assert ([SegmentsOf(items)] + ps)[1..] == ps;
  }

  /** The splitter sees the texts and nothing else, and its segments are those of the run over them. */
  lemma {:induction false} CallsSplit(g: Setup, st: Callback, calls: seq<Call>)
    ensures var p := Run(g.markers, st.splitter, Fed(g, calls));
      AfterCalls(g, st, calls).splitter == p.next && AllSegments(Pieces(g, st.splitter, calls)) == SegmentsOf(p.items)
    decreases |calls|
  {
    if calls != [] {
      CallsSplit(g, OnToken(g, st, calls[0]), calls[1..]);
      if HasText(calls[0]) {
        var text, more := Filter(g, calls[0].token.text), Fed(g, calls[1..]);
        var p := Step(g.markers, st.splitter, text);
        RunFirst(g.markers, st.splitter, text, more);
        AllSegmentsFirst(p.items, Pieces(g, p.next, calls[1..]), Run(g.markers, p.next, more).items);
      }
    }
  }

  lemma {:induction false} AbsorbPaints(o: Sender, ps: seq<seq<Segment>>)
    ensures Painted(Absorb(o, ps)) == Painted(o) + PaintSegments(AllSegments(ps))
    decreases |ps|
  {
    if ps != [] {
      AddAllPaints(CountCompletion(o), ps[0]);
      AbsorbPaints(AddAll(CountCompletion(o), ps[0]), ps[1..]);
      FlatMapConcat(PaintSegment, ps[0], AllSegments(ps[1..]));
    }
  }

  lemma CallsPaint(g: Setup, st: Callback, calls: seq<Call>)
    ensures Painted(AfterCalls(g, st, calls).out) ==
      Painted(st.out) + PaintSegments(SegmentsOf(Run(g.markers, st.splitter, Fed(g, calls)).items))
  {
    CallsSplit(g, st, calls);
    CallsAbsorb(g, st, calls);
    AbsorbPaints(st.out, Pieces(g, st.splitter, calls));
  }

  lemma ClosingPaints(st: Callback, rc: int)
    ensures PaintChunks(Closed(st, rc)) == if rc < 0 then PaintChunks(st.out.sent) else Painted(st.out)
  {
    var cs := Closed(st, rc);
    var n := |cs| - 1;
    FlatMapConcat(PaintChunk, cs[..n], [cs[n]]);
    FlatMapOne(PaintChunk, cs[n]);
    assert cs == cs[..n] + [cs[n]];
    FlushPaints(st.out, st.out.bufPhase);
  }

  /**
   * A task that does not fail: the chunks, character by character and each with the phase it is sent under, are what
   * was already taken in (at the start nothing) and the segments of the text handed over.
   */
  lemma ChunksAreTheText(g: Setup, st: Callback, calls: seq<Call>, rc: int)
    requires rc >= 0
    ensures PaintChunks(Closed(AfterCalls(g, st, calls), rc)) ==
      Painted(st.out) + PaintSegments(SegmentsOf(Run(g.markers, st.splitter, Fed(g, calls)).items))
  {
    CallsPaint(g, st, calls);
    ClosingPaints(AfterCalls(g, st, calls), rc);
  }

  /**
   * And those segments with the removed markers between them, then the last carry, are the text itself. The carry is
   * empty if and only if the text since the last marker does not end in a beginning of a marker.
   */
  lemma MarkersAndCarryAreLost(g: Setup, calls: seq<Call>)
    ensures var p := Run(g.markers, START, Fed(g, calls)); TextOf(p.items) + p.next.carry == TextIn(g, calls)
    ensures var p := Run(g.markers, START, Fed(g, calls)); var last := SinceMarker(p);
      p.next.carry == "" <==> forall l: nat :: !MayBegin(g.markers, last, l)
  {
    FedIsTheText(g, calls);
    RunKeepsText(g.markers, START, Fed(g, calls));
    WhatIsLeft(g.markers, Fed(g, calls));
    assert "" + Joined(Fed(g, calls)) == Joined(Fed(g, calls));
  }

  // ---- Numbers, sizes and the end of a task

  lemma {:induction false} CallsKeep(g: Setup, st: Callback, calls: seq<Call>)
    requires Numbered(st.out) && Gathered(st.out)
    ensures Numbered(AfterCalls(g, st, calls).out) && Gathered(AfterCalls(g, st, calls).out)
    decreases |calls|
  {
    if calls != [] {
      CallKeeps(g, st, calls[0]);
      CallsKeep(g, OnToken(g, st, calls[0]), calls[1..]);
    }
  }

  lemma CallKeeps(g: Setup, st: Callback, c: Call)
    requires Numbered(st.out) && Gathered(st.out)
    ensures Numbered(OnToken(g, st, c).out) && Gathered(OnToken(g, st, c).out)
  {
    if HasText(c) {
      AddAllKeeps(CountCompletion(st.out), SegmentsOf(Step(g.markers, st.splitter, Filter(g, c.token.text)).items));
    }
  }

  /** The last chunk of a task, and only the last, is marked done; only it can carry an error. */
  ghost predicate OneEnd(cs: seq<Chunk>) {
    cs != [] && forall i :: 0 <= i < |cs| ==> (cs[i].done <==> i == |cs| - 1) && (cs[i].error.Some? ==> i == |cs| - 1)
  }

  ghost predicate InOrder(cs: seq<Chunk>) { forall i :: 0 <= i < |cs| ==> cs[i].seqNo == i % U32 }

  /** Chunks before the last are not empty, and one of fewer than eight bytes is the last with text or followed by another phase. */
  ghost predicate WellFilled(cs: seq<Chunk>) {
    && (forall i :: 0 <= i < |cs| - 1 ==> cs[i].delta != "")
    && (forall i :: 0 <= i < |cs| - 2 && Small(cs[i]) ==> cs[i].phase != cs[i + 1].phase)
  }

  /** Every task ends with one done chunk; unless it fails the chunks are numbered 0, 1, 2, ... and well filled. */
  lemma TasksEndOnce(g: Setup, calls: seq<Call>, rc: int)
    ensures var cs := Closed(AfterCalls(g, FRESH, calls), rc);
      && OneEnd(cs)
      && (rc >= 0 ==> InOrder(cs) && WellFilled(cs))
      && (cs[|cs| - 1].error == if rc < 0 then Some(Failed(rc))
                                else if AfterCalls(g, FRESH, calls).cancelled then Some(CancelledByServer) else None)
  {
    CallsKeep(g, FRESH, calls);
    ClosingKeeps(AfterCalls(g, FRESH, calls), rc);
  }

  lemma ClosingKeeps(st: Callback, rc: int)
    requires Numbered(st.out) && Gathered(st.out)
    ensures OneEnd(Closed(st, rc)) && (rc >= 0 ==> InOrder(Closed(st, rc)) && WellFilled(Closed(st, rc)))
  {
    if rc >= 0 && st.out.buf != "" {
      FlushKeepsNumbers(st.out);
    }
  }

  lemma FailedInOrder(st: Callback, rc: int)
    requires rc < 0 && Numbered(st.out)
    ensures InOrder(Closed(st, rc)) <==> |st.out.sent| % U32 == 0
  {
    var cs := Closed(st, rc);
    assert cs[|st.out.sent|].seqNo == 0;
  }

  /** The closing chunk of a failed task is numbered 0: in order exactly when a multiple of 2^32 chunks came before it. */
  lemma FailureRestartsNumbers(g: Setup, calls: seq<Call>, rc: int)
    requires rc < 0
    ensures InOrder(Closed(AfterCalls(g, FRESH, calls), rc)) <==> |AfterCalls(g, FRESH, calls).out.sent| % U32 == 0
  {
    CallsKeep(g, FRESH, calls);
    FailedInOrder(AfterCalls(g, FRESH, calls), rc);
  }

  /** The cancellation mark is set exactly when a call found the task cancelled. */
  lemma {:induction false} CancelledWhen(g: Setup, st: Callback, calls: seq<Call>)
    ensures AfterCalls(g, st, calls).cancelled <==>
      st.cancelled || exists i :: 0 <= i < |calls| && !calls[i].token.Null? && calls[i].cancel
    decreases |calls|
  {
    if calls != [] {
      CancelledWhen(g, OnToken(g, st, calls[0]), calls[1..]);
      assert forall i :: 0 <= i < |calls| - 1 ==> calls[i + 1] == calls[1..][i];
    }
  }

  lemma TakeAdds(g: Setup, st: Callback, text: string, segs: seq<Segment>)
    requires segs == SegmentsOf(Step(g.markers, st.splitter, Filter(g, text)).items)
    ensures Take(g, st, text).out == AddAll(CountCompletion(st.out), segs)
  {
  }

  // ---- Counters

  function Counted(c: Counts, seg: Segment): Counts { if seg.text == "" then c else Count(c, seg.phase) }

  function CountedAll(c: Counts, segs: seq<Segment>): Counts
    decreases |segs|
  {
    if segs == [] then c else Counted(CountedAll(c, segs[..|segs| - 1]), segs[|segs| - 1])
  }

  function CountedPieces(c: Counts, ps: seq<seq<Segment>>): Counts
    decreases |ps|
  {
    if ps == [] then c else CountedPieces(CountedAll(c.(completion := SatInc(c.completion)), ps[0]), ps[1..])
  }

  lemma AddCounts(o: Sender, seg: Segment)
    ensures Add(o, seg).counts == Counted(o.counts, seg)
  {
  }

  lemma {:induction false} AddAllCounts(o: Sender, segs: seq<Segment>)
    ensures AddAll(o, segs).counts == CountedAll(o.counts, segs)
    decreases |segs|
  {
    if segs != [] {
      AddAllCounts(o, segs[..|segs| - 1]);
      AddCounts(AddAll(o, segs[..|segs| - 1]), segs[|segs| - 1]);
    }
  }

  lemma {:induction false} AbsorbCounts(o: Sender, ps: seq<seq<Segment>>)
    ensures Absorb(o, ps).counts == CountedPieces(o.counts, ps)
    decreases |ps|
  {
    if ps != [] {
      AddAllCounts(CountCompletion(o), ps[0]);
      AbsorbCounts(AddAll(CountCompletion(o), ps[0]), ps[1..]);
    }
  }

  function Sat(n: nat): u32 { if n < U32 then n else U32 - 1 }

  /** How many segments are of the given phase. */
  function Times(segs: seq<Segment>, ph: Phase): nat
    decreases |segs|
  {
    if segs == [] then 0
    else Times(segs[..|segs| - 1], ph) + if segs[|segs| - 1].text != "" && segs[|segs| - 1].phase == ph then 1 else 0
  }

  lemma {:induction false} TimesConcat(a: seq<Segment>, b: seq<Segment>, ph: Phase)
    ensures Times(a + b, ph) == Times(a, ph) + Times(b, ph)
    decreases |b|
  {
    if b == [] {
      assert a + b == a;
    } else {
      TimesConcat(a, b[..|b| - 1], ph);
      assert (a + b)[..|a + b| - 1] == a + b[..|b| - 1];
    }
  }

  /** The counters after `n` tokens, `a` analysis segments and `f` final ones. */
  function Tally(n: nat, a: nat, f: nat): Counts { Counts(Sat(n), Sat(a), Sat(f)) }

  lemma {:induction false} AllTally(n: nat, a: nat, f: nat, segs: seq<Segment>)
    ensures CountedAll(Tally(n, a, f), segs) == Tally(n, a + Times(segs, Analysis), f + Times(segs, Final))
    decreases |segs|
  {
    if segs != [] {
      AllTally(n, a, f, segs[..|segs| - 1]);
    }
  }

  lemma TimesFirst(ps: seq<seq<Segment>>, ph: Phase)
    requires ps != []
    ensures Times(AllSegments(ps), ph) == Times(ps[0], ph) + Times(AllSegments(ps[1..]), ph)
  {
    TimesConcat(ps[0], AllSegments(ps[1..]), ph);
  }

  lemma FirstTally(n: nat, a: nat, f: nat, ps: seq<seq<Segment>>)
    requires ps != []
    ensures CountedPieces(Tally(n, a, f), ps)
         == CountedPieces(Tally(n + 1, a + Times(ps[0], Analysis), f + Times(ps[0], Final)), ps[1..])
  {
    AllTally(n + 1, a, f, ps[0]);
  }

  lemma {:induction false} PiecesTally(n: nat, a: nat, f: nat, ps: seq<seq<Segment>>, a': nat, f': nat)
    requires a' == a + Times(AllSegments(ps), Analysis) && f' == f + Times(AllSegments(ps), Final)
    ensures CountedPieces(Tally(n, a, f), ps) == Tally(n + |ps|, a', f')
    decreases |ps|
  {
    if ps != [] {
      FirstTally(n, a, f, ps);
      TimesFirst(ps, Analysis);
      TimesFirst(ps, Final);
      PiecesTally(n + 1, a + Times(ps[0], Analysis), f + Times(ps[0], Final), ps[1..], a', f');
    }
  }

  lemma {:induction false} OnePieceEach(g: Setup, st: Splitter, calls: seq<Call>)
    ensures |Pieces(g, st, calls)| == |Fed(g, calls)|
    decreases |calls|
  {
    if calls != [] {
      if HasText(calls[0]) {
        OnePieceEach(g, Step(g.markers, st, Filter(g, calls[0].token.text)).next, calls[1..]);
      } else {
        OnePieceEach(g, st, calls[1..]);
      }
    }
  }

  lemma CallsCount(g: Setup, st: Callback, calls: seq<Call>, ps: seq<seq<Segment>>)
    requires ps == Pieces(g, st.splitter, calls) && st.out.counts == Tally(0, 0, 0)
    ensures AfterCalls(g, st, calls).out.counts == Tally(|ps|, Times(AllSegments(ps), Analysis), Times(AllSegments(ps), Final))
  {
    CallsAbsorb(g, st, calls);
    AbsorbCounts(st.out, ps);
    PiecesTally(0, 0, 0, ps, Times(AllSegments(ps), Analysis), Times(AllSegments(ps), Final));
  }

  /**
   * The counters of a whole task: how many non-empty tokens came in, and how many analysis and final segments were made
   * of them, each saturating.
   */
  lemma CountersAreExact(g: Setup, st: Callback, calls: seq<Call>, segs: seq<Segment>)
    requires st.out.counts == Tally(0, 0, 0) && segs == SegmentsOf(Run(g.markers, st.splitter, Fed(g, calls)).items)
    ensures AfterCalls(g, st, calls).out.counts == Tally(|Fed(g, calls)|, Times(segs, Analysis), Times(segs, Final))
  {
    CallsCount(g, st, calls, Pieces(g, st.splitter, calls));
    OnePieceEach(g, st.splitter, calls);
    CallsSplit(g, st, calls);
  }

  /**
   * What the closing chunk of a task says. If the task failed: nothing but that. Otherwise no text, the phase of the last
   * marker taken out (final if there was none), how many tokens and segments there were, and whether it was cancelled.
   */
  lemma ClosingChunk(g: Setup, calls: seq<Call>, rc: int)
    ensures var p := Run(g.markers, START, Fed(g, calls));
      var cs, cut, segs := Closed(AfterCalls(g, FRESH, calls), rc), LastCut(p.items), SegmentsOf(p.items);
      var last := cs[|cs| - 1];
      && last.delta == "" && last.done
      && (rc < 0 ==> last.phase == Final && last.counts == Counts(0, 0, 0) && last.error == Some(Failed(rc)))
      && (rc >= 0 ==>
            && last.phase == (if cut == 0 then Final else p.items[cut - 1].marker.phase)
            && last.counts == Tally(Texts(calls), Times(segs, Analysis), Times(segs, Final))
            && last.error == if Cancels(calls) then Some(CancelledByServer) else None)
  {
    var p := Run(g.markers, START, Fed(g, calls));
    FedIsTheText(g, calls);
    CountersAreExact(g, FRESH, calls, SegmentsOf(p.items));
    CallsSplit(g, FRESH, calls);
    RunIsPhased(g.markers, START, Fed(g, calls));
    PhasedEnd(g.markers, Final, p.items, p.next.phase);
    CancelledWhen(g, FRESH, calls);
  }

  /** All text that calls bring before or while the task is not found cancelled, cleaned token by token. */
  function TextIn(g: Setup, calls: seq<Call>): string
    decreases |calls|
  {
    if calls == [] then ""
    else (if calls[0].token.Str? && !calls[0].cancel then Filter(g, calls[0].token.text) else "") + TextIn(g, calls[1..])
  }

  /** How many calls bring text that is not empty. */
  function Texts(calls: seq<Call>): nat
    decreases |calls|
  {
    if calls == [] then 0
    else (if calls[0].token.Str? && !calls[0].cancel && |calls[0].token.text| > 0 then 1 else 0) + Texts(calls[1..])
  }

  lemma {:induction false} CleanedNothing(ms: seq<NonEmpty>)
    ensures Cleaned("", ms) == ""
    decreases |ms|
  {
    CleanedShrinks("", ms);
  }

  /** Nothing that comes in is left out: the splitter is fed all the text, in order. */
  lemma {:induction false} FedIsTheText(g: Setup, calls: seq<Call>)
    ensures Joined(Fed(g, calls)) == TextIn(g, calls) && |Fed(g, calls)| == Texts(calls)
    decreases |calls|
  {
    if calls != [] {
      FedIsTheText(g, calls[1..]);
      CleanedNothing(g.controls);
      if HasText(calls[0]) {
        JoinedFirst(Filter(g, calls[0].token.text), Fed(g, calls[1..]));
      } else {
        assert "" + TextIn(g, calls[1..]) == TextIn(g, calls[1..]);
      }
    }
  }

  lemma JoinedFirst(s: string, texts: seq<string>)
    ensures Joined([s] + texts) == s + Joined(texts)
  {
    assert ([s] + texts)[1..] == texts;
  }

  /** Some call with a token finds the task cancelled. */
  ghost predicate Cancels(calls: seq<Call>) { exists i :: 0 <= i < |calls| && !calls[i].token.Null? && calls[i].cancel }
}
