/** The server-sent event stream of an answer: how split events become numbered, bracketed content blocks. */
module Sse {
  import opened Options
  import opened Seqs
  import opened ThinkSplit
  import opened ThinkBlocks

  datatype SseEvent =
    | MessageStart
    | BlockStart(index: nat, kind: Kind)
    | BlockDelta(index: nat, kind: Kind, text: string)
    | BlockStop(index: nat)
    | MessageDelta
    | MessageStop

  /** The two counters shared by all calls of `append_event`. */
  datatype Emitter = Emitter(blockIndex: nat, blockStarted: bool)

  /** What one split event appends, and the counters after it. */
  function Emit(m: Emitter, e: SplitEvent): (seq<SseEvent>, Emitter) {
    match e
    case TextDelta(s) =>
      ((if m.blockStarted then [] else [BlockStart(m.blockIndex, Text)]) + [BlockDelta(m.blockIndex, Text, s)],
       m.(blockStarted := true))
    case StartThinking =>
      if m.blockStarted then
        ([BlockStop(m.blockIndex), BlockStart(m.blockIndex + 1, Thinking)], Emitter(m.blockIndex + 1, true))
      else
        ([BlockStart(m.blockIndex, Thinking)], Emitter(m.blockIndex, true))
    case ThinkingDelta(s) => ([BlockDelta(m.blockIndex, Thinking, s)], m)
    case EndThinking => ([BlockStop(m.blockIndex)], Emitter(m.blockIndex + 1, false))
  }

  /** `append_event`, updating the event list and both counters in step. */
  method AppendEvent(events: seq<SseEvent>, e: SplitEvent, blockIndex: nat, blockStarted: bool)
    returns (events': seq<SseEvent>, blockIndex': nat, blockStarted': bool)
    ensures events' == events + Emit(Emitter(blockIndex, blockStarted), e).0
    ensures Emitter(blockIndex', blockStarted') == Emit(Emitter(blockIndex, blockStarted), e).1
  {
    events', blockIndex', blockStarted' := events, blockIndex, blockStarted;
    match e
    case TextDelta(s) =>
      if !blockStarted' {
        events' := events' + [BlockStart(blockIndex', Text)];
        blockStarted' := true;
      }
      events' := events' + [BlockDelta(blockIndex', Text, s)];
    case StartThinking =>
      if blockStarted' {
        events' := events' + [BlockStop(blockIndex')];
        blockIndex' := blockIndex' + 1;
      }
      events' := events' + [BlockStart(blockIndex', Thinking)];
      blockStarted' := true;
    case ThinkingDelta(s) =>
      events' := events' + [BlockDelta(blockIndex', Thinking, s)];
    case EndThinking =>
      events' := events' + [BlockStop(blockIndex')];
      blockIndex' := blockIndex' + 1;
      blockStarted' := false;
  }

  function EmitAll(m: Emitter, es: seq<SplitEvent>): (seq<SseEvent>, Emitter)
    decreases es
  {
    if es == [] then ([], m)
    else
      var (out, m') := Emit(m, es[0]);
      var (rest, m'') := EmitAll(m', es[1..]);
      (out + rest, m'')
  }

  function Footer(m: Emitter): seq<SseEvent> {
    (if m.blockStarted then [BlockStop(m.blockIndex)] else []) + [MessageDelta, MessageStop]
  }

  /** The whole stream for the split events of an answer. */
  function Trace(es: seq<SplitEvent>): seq<SseEvent> {
    var (out, m) := EmitAll(Emitter(0, false), es);
    [MessageStart] + out + Footer(m)
  }

  // ---- The shape every stream has

  /** One content block: its kind and its deltas. */
  datatype Section = Section(kind: Kind, deltas: seq<string>)

  function DeltaEvents(i: nat, k: Kind, ds: seq<string>): seq<SseEvent> {
    if ds == [] then [] else DeltaEvents(i, k, ds[..|ds| - 1]) + [BlockDelta(i, k, ds[|ds| - 1])]
  }

  function Opened(i: nat, s: Section): seq<SseEvent> { [BlockStart(i, s.kind)] + DeltaEvents(i, s.kind, s.deltas) }

  /** Blocks numbered 0, 1, 2, ...: each one start, its own deltas under its own number and kind, one stop. */
  function Written(ss: seq<Section>): seq<SseEvent> {
    if ss == [] then []
    else
      var n := |ss| - 1;
      Written(ss[..n]) + Opened(n, ss[n]) + [BlockStop(n)]
  }

  /** Finished blocks and the one still open. */
  datatype Group = Group(done: seq<Section>, cur: Option<Section>)

  function Sections(g: Group): seq<Section> { if g.cur.Some? then g.done + [g.cur.value] else g.done }

  function Step(g: Group, e: SplitEvent): Group {
    match e
    case TextDelta(s) =>
      var c := if g.cur.Some? then g.cur.value else Section(Text, []);
      g.(cur := Some(c.(deltas := c.deltas + [s])))
    case ThinkingDelta(s) =>
      var c := if g.cur.Some? then g.cur.value else Section(Thinking, []);
      g.(cur := Some(c.(deltas := c.deltas + [s])))
    case StartThinking => Group(Sections(g), Some(Section(Thinking, [])))
    case EndThinking => Group(Sections(g), None)
  }

  function StepAll(g: Group, es: seq<SplitEvent>): Group
    decreases es
  {
    if es == [] then g else StepAll(Step(g, es[0]), es[1..])
  }

  /** What the client has seen while the group is as given. */
  function Seen(g: Group): seq<SseEvent> {
    Written(g.done) + if g.cur.Some? then Opened(|g.done|, g.cur.value) else []
  }

  function EmitterOf(g: Group): Emitter { Emitter(|g.done|, g.cur.Some?) }

  /** The splitter is inside a thinking stretch exactly while a thinking block is open. */
  predicate Fits(g: Group, k: Kind) {
    if k.Thinking? then g.cur.Some? && g.cur.value.kind == Thinking else g.cur.Some? ==> g.cur.value.kind == Text
  }

  /** Whether an event may come while the splitter is in the given kind, and the kind after it. */
  function KindAfter(k: Kind, e: SplitEvent): Option<Kind> {
    match e
    case TextDelta(_) => if k.Text? then Some(Text) else None
    case StartThinking => if k.Text? then Some(Thinking) else None
    case ThinkingDelta(_) => if k.Thinking? then Some(Thinking) else None
    case EndThinking => if k.Thinking? then Some(Text) else None
  }

  function KindAfterAll(k: Kind, es: seq<SplitEvent>): Option<Kind>
    decreases es
  {
    if es == [] then Some(k)
    else if KindAfter(k, es[0]) == None then None
    else KindAfterAll(KindAfter(k, es[0]).value, es[1..])
  }

  lemma WrittenMore(ss: seq<Section>, s: Section)
    ensures Written(ss + [s]) == Written(ss) + Opened(|ss|, s) + [BlockStop(|ss|)]
  {
    assert (ss + [s])[..|ss|] == ss;
  }

  lemma OpenedMore(i: nat, c: Section, d: string)
    ensures Opened(i, c.(deltas := c.deltas + [d])) == Opened(i, c) + [BlockDelta(i, c.kind, d)]
  {
    assert (c.deltas + [d])[..|c.deltas|] == c.deltas;
  }

  lemma SeenDelta(g: Group, c: Section, d: string)
    requires g.cur == Some(c) || (g.cur == None && c.deltas == [])
    ensures Seen(g.(cur := Some(c.(deltas := c.deltas + [d])))) ==
      Seen(g) + ((if g.cur.Some? then [] else [BlockStart(|g.done|, c.kind)]) + [BlockDelta(|g.done|, c.kind, d)])
  {
    OpenedMore(|g.done|, c, d);
  }

  lemma SeenStop(g: Group)
    requires g.cur.Some?
    ensures Written(Sections(g)) == Seen(g) + [BlockStop(|g.done|)]
  {
    WrittenMore(g.done, g.cur.value);
  }

  lemma SeenThinking(done: seq<Section>)
    ensures Seen(Group(done, Some(Section(Thinking, [])))) == Written(done) + [BlockStart(|done|, Thinking)]
  {
  }

  /** One event keeps what the client sees in step with the blocks. */
  lemma EmitStep(g: Group, k: Kind, e: SplitEvent)
    requires Fits(g, k) && KindAfter(k, e).Some?
    ensures Fits(Step(g, e), KindAfter(k, e).value)
    ensures Emit(EmitterOf(g), e).1 == EmitterOf(Step(g, e))
    ensures Seen(g) + Emit(EmitterOf(g), e).0 == Seen(Step(g, e))
  {
    match e
    case TextDelta(s) =>
      SeenDelta(g, if g.cur.Some? then g.cur.value else Section(Text, []), s);
    case ThinkingDelta(s) =>
      SeenDelta(g, g.cur.value, s);
    case StartThinking =>
      if g.cur.Some? {
        SeenStop(g);
      }
      SeenThinking(Sections(g));
    case EndThinking =>
      SeenStop(g);
  }

  lemma {:induction false} EmitAllSteps(g: Group, k: Kind, es: seq<SplitEvent>)
    requires Fits(g, k) && KindAfterAll(k, es).Some?
    ensures Fits(StepAll(g, es), KindAfterAll(k, es).value)
    ensures EmitAll(EmitterOf(g), es).1 == EmitterOf(StepAll(g, es))
    ensures Seen(g) + EmitAll(EmitterOf(g), es).0 == Seen(StepAll(g, es))
    decreases es
  {
    if es != [] {
      EmitStep(g, k, es[0]);
      var g' := Step(g, es[0]);
      EmitAllSteps(g', KindAfter(k, es[0]).value, es[1..]);
      Assoc(Seen(g), Emit(EmitterOf(g), es[0]).0, EmitAll(EmitterOf(g'), es[1..]).0);
    }
  }

  // ---- What the splitter feeds it

  lemma {:induction false} KindAfterConcat(k: Kind, a: seq<SplitEvent>, b: seq<SplitEvent>)
    requires KindAfterAll(k, a).Some?
    ensures KindAfterAll(k, a + b) == KindAfterAll(KindAfterAll(k, a).value, b)
    decreases a
  {
    if a == [] {
      assert a + b == b;
    } else {
      KindAfterConcat(KindAfter(k, a[0]).value, a[1..], b);
      assert (a + b)[1..] == a[1..] + b;
    }
  }

  lemma KindAfterDeltas(k: Kind, s: string)
    ensures KindAfterAll(k, Deltas(k, s)) == Some(k)
    ensures KindAfterAll(k, Deltas(k, s) + [Switch(k)]) == Some(Other(k))
  {
    KindAfterConcat(k, Deltas(k, s), [Switch(k)]);
  }

  ghost predicate Lively(es: seq<SplitEvent>) {
    forall i :: 0 <= i < |es| ==> (es[i].TextDelta? || es[i].ThinkingDelta?) ==> es[i].text != ""
  }

  /** Pushing keeps the kinds in step and says nothing empty. */
  lemma {:induction false} PushAlternates(g: Tags, k: Kind, s: string)
    ensures KindAfterAll(k, Push(g, k, s).events) == Some(Push(g, k, s).kind) && Lively(Push(g, k, s).events)
    decreases |s|
  {
    if s != [] {
      match TextSearch.Find(s, Tag(g, k))
      case None => KindAfterDeltas(k, s[..|s| - TextSearch.HeldLen(s, Tag(g, k))]);
      case Some(i) =>
        var rest := s[i + |Tag(g, k)|..];
        PushTag(g, k, s, i);
        PushAlternates(g, Other(k), rest);
        KindAfterDeltas(k, s[..i]);
        KindAfterConcat(k, Deltas(k, s[..i]) + [Switch(k)], Push(g, Other(k), rest).events);
    }
  }

  lemma {:induction false} PushAllAlternates(g: Tags, k: Kind, carry: string, tokens: seq<string>)
    ensures var p := PushAll(g, k, carry, tokens); KindAfterAll(k, p.events) == Some(p.kind) && Lively(p.events)
    decreases tokens
  {
    if tokens != [] {
      var p := Push(g, k, carry + tokens[0]);
      PushAlternates(g, k, carry + tokens[0]);
      PushAllAlternates(g, p.kind, p.carry, tokens[1..]);
      KindAfterConcat(k, p.events, PushAll(g, p.kind, p.carry, tokens[1..]).events);
    }
  }

  /** A flushed stream ends outside thinking. */
  lemma StreamAlternates(g: Tags, tokens: seq<string>)
    ensures KindAfterAll(Text, StreamEvents(g, tokens)) == Some(Text) && Lively(StreamEvents(g, tokens))
  {
    var p := PushAll(g, Text, "", tokens);
    PushAllAlternates(g, Text, "", tokens);
    KindAfterConcat(Text, p.events, FlushEvents(p.kind, p.carry));
    KindAfterDeltas(p.kind, p.carry);
    assert Deltas(p.kind, p.carry) + [] == Deltas(p.kind, p.carry);
  }

  // ---- What the blocks say

  function BlockOf(s: Section): Block {
    if s.kind.Text? then TextBlock(Concat(s.deltas)) else ThinkingBlock(Concat(s.deltas))
  }

  function BlocksOf(ss: seq<Section>): seq<Block> { seq(|ss|, i requires 0 <= i < |ss| => BlockOf(ss[i])) }

  lemma {:induction false} ConcatMore(ds: seq<string>, d: string)
    ensures Concat(ds + [d]) == Concat(ds) + d
  {
    if ds == [] {
      assert ds + [d] == [d];
      assert Concat([d]) == d + Concat([]);
    } else {
      ConcatMore(ds[1..], d);
      assert (ds + [d])[1..] == ds[1..] + [d];
    }
  }

  function OpenAtoms(o: Option<Section>): seq<Atom> {
    if o == None then []
    else (if o.value.kind.Text? then [] else [Open]) + Label(o.value.kind, Concat(o.value.deltas))
  }

  function GroupAtoms(g: Group): seq<Atom> { Render(BlocksOf(g.done)) + OpenAtoms(g.cur) }

  lemma RenderMore(ss: seq<Section>, s: Section)
    ensures Render(BlocksOf(ss + [s])) == Render(BlocksOf(ss)) + BlockAtoms(BlockOf(s))
  {
    assert BlocksOf(ss + [s]) == BlocksOf(ss) + [BlockOf(s)];
    FlatMapConcat(BlockAtoms, BlocksOf(ss), [BlockOf(s)]);
    FlatMapOne(BlockAtoms, BlockOf(s));
  }

  lemma OpenAtomsMore(c: Section, d: string)
    ensures OpenAtoms(Some(c.(deltas := c.deltas + [d]))) == OpenAtoms(Some(c)) + Label(c.kind, d)
  {
    ConcatMore(c.deltas, d);
    LabelConcat(c.kind, Concat(c.deltas), d);
  }

  lemma DeltaAtoms(g: Group, c: Section, d: string)
    requires g.cur == Some(c) || (g.cur == None && c == Section(Text, []))
    ensures GroupAtoms(g.(cur := Some(c.(deltas := c.deltas + [d])))) == GroupAtoms(g) + Label(c.kind, d)
  {
    OpenAtomsMore(c, d);
    assert OpenAtoms(g.cur) == OpenAtoms(Some(c));
  }

  lemma SectionsAtoms(g: Group, k: Kind)
    requires Fits(g, k)
    ensures Render(BlocksOf(Sections(g))) == GroupAtoms(g) + Closing(k)
  {
    if g.cur.Some? {
      RenderMore(g.done, g.cur.value);
    }
  }

  lemma StepAtoms(g: Group, k: Kind, e: SplitEvent)
    requires Fits(g, k) && KindAfter(k, e).Some?
    ensures GroupAtoms(Step(g, e)) == GroupAtoms(g) + AtomsOf(e)
  {
    match e
    case TextDelta(s) => DeltaAtoms(g, if g.cur.Some? then g.cur.value else Section(Text, []), s);
    case ThinkingDelta(s) => DeltaAtoms(g, g.cur.value, s);
    case StartThinking => SectionsAtoms(g, k);
    case EndThinking => SectionsAtoms(g, k);
  }

  lemma {:induction false} StepAllAtoms(g: Group, k: Kind, es: seq<SplitEvent>)
    requires Fits(g, k) && KindAfterAll(k, es).Some?
    ensures GroupAtoms(StepAll(g, es)) == GroupAtoms(g) + Flat(es)
    decreases es
  {
    if es != [] {
      EmitStep(g, k, es[0]);
      StepAtoms(g, k, es[0]);
      StepAllAtoms(Step(g, es[0]), KindAfter(k, es[0]).value, es[1..]);
    }
  }

  /** Blocks are merged, and between blocks the last one was thinking. */
  ghost predicate Tidy(g: Group) {
    && Merged(BlocksOf(Sections(g)))
    && (g.cur == None && g.done != [] ==> g.done[|g.done| - 1].kind == Thinking)
  }

  lemma MergedReplace(bs: seq<Block>, x: Block, y: Block)
    requires Merged(bs + [x]) && x.TextBlock? == y.TextBlock? && (y.TextBlock? ==> y.text != "")
    ensures Merged(bs + [y])
  {
    var a, b := bs + [x], bs + [y];
    assert forall i :: 0 <= i < |b| ==> b[i].TextBlock? == a[i].TextBlock?;
  }

  lemma MergedAppend(bs: seq<Block>, y: Block)
    requires Merged(bs) && (y.TextBlock? ==> y.text != "" && (bs == [] || bs[|bs| - 1].ThinkingBlock?))
    ensures Merged(bs + [y])
  {
  }

  lemma DeltaTidy(g: Group, k: Kind, c: Section, d: string)
    requires Fits(g, k) && Tidy(g) && d != "" && c.kind == k
    requires g.cur == Some(c) || (g.cur == None && c == Section(Text, []))
    ensures Tidy(g.(cur := Some(c.(deltas := c.deltas + [d]))))
  {
    var c' := c.(deltas := c.deltas + [d]);
    ConcatMore(c.deltas, d);
    assert BlocksOf(g.done + [c']) == BlocksOf(g.done) + [BlockOf(c')];
    if g.cur.Some? {
      assert BlocksOf(g.done + [c]) == BlocksOf(g.done) + [BlockOf(c)];
      MergedReplace(BlocksOf(g.done), BlockOf(c), BlockOf(c'));
    } else {
      MergedAppend(BlocksOf(g.done), BlockOf(c'));
    }
  }

  lemma StepTidy(g: Group, k: Kind, e: SplitEvent)
    requires Fits(g, k) && KindAfter(k, e).Some? && Tidy(g) && Lively([e])
    ensures Tidy(Step(g, e))
  {
    assert [e][0] == e;
    match e
    case TextDelta(s) => DeltaTidy(g, k, if g.cur.Some? then g.cur.value else Section(Text, []), s);
    case ThinkingDelta(s) => DeltaTidy(g, k, g.cur.value, s);
    case StartThinking =>
      assert BlocksOf(Sections(g) + [Section(Thinking, [])]) == BlocksOf(Sections(g)) + [BlockOf(Section(Thinking, []))];
      MergedAppend(BlocksOf(Sections(g)), BlockOf(Section(Thinking, [])));
    case EndThinking =>
  }

  lemma {:induction false} StepAllTidy(g: Group, k: Kind, es: seq<SplitEvent>)
    requires Fits(g, k) && KindAfterAll(k, es).Some? && Tidy(g) && Lively(es)
    ensures Tidy(StepAll(g, es))
    decreases es
  {
    if es != [] {
      EmitStep(g, k, es[0]);
      assert [es[0]][0] == es[0];
      StepTidy(g, k, es[0]);
      StepAllTidy(Step(g, es[0]), KindAfter(k, es[0]).value, es[1..]);
    }
  }

  const NOTHING := Group([], None)

  /** Every well-alternating sequence of events is streamed as numbered, bracketed, un-nested blocks. */
  lemma TraceIsBracketed(es: seq<SplitEvent>)
    requires KindAfterAll(Text, es).Some?
    ensures Trace(es) == [MessageStart] + Written(Sections(StepAll(NOTHING, es))) + [MessageDelta, MessageStop]
  {
    var g := StepAll(NOTHING, es);
    EmitAllSteps(NOTHING, Text, es);
    assert EmitterOf(NOTHING) == Emitter(0, false) && Seen(NOTHING) == [];
    var out := EmitAll(Emitter(0, false), es).0;
    assert out == Seen(g);
    if g.cur.Some? {
      WrittenMore(g.done, g.cur.value);
    }
    assert Seen(g) + Footer(EmitterOf(g)) == Written(Sections(g)) + [MessageDelta, MessageStop];
  }

  /**
   * The stream of an answer with thinking enabled, for every cutting into tokens: message_start, then content
   * blocks 0, 1, 2, ... each properly bracketed, then message_delta and message_stop; and block `i` says, delta
   * after delta, exactly what block `i` of the whole text is.
   */
  lemma StreamTrace(g: Tags, tokens: seq<string>)
    ensures var ss := Sections(StepAll(NOTHING, StreamEvents(g, tokens)));
      && Trace(StreamEvents(g, tokens)) == [MessageStart] + Written(ss) + [MessageDelta, MessageStop]
      && BlocksOf(ss) == RawBlocks(g, Concat(tokens))
  {
    var es := StreamEvents(g, tokens);
    var ss := Sections(StepAll(NOTHING, es));
    StreamAlternates(g, tokens);
    TraceIsBracketed(es);
    EmitAllSteps(NOTHING, Text, es);
    StepAllAtoms(NOTHING, Text, es);
    StepAllTidy(NOTHING, Text, es);
    SectionsAtoms(StepAll(NOTHING, es), Text);
    assert GroupAtoms(NOTHING) + Flat(es) + [] == Flat(es);
    StreamAgreesWithBatch(g, tokens, BlocksOf(ss));
  }

  /** With thinking disabled there is at most one block, and its deltas are the tokens. */
  lemma DisabledTrace(tokens: seq<string>)
    ensures Trace(TextEvents(tokens))
         == [MessageStart] + Written(if tokens == [] then [] else [Section(Text, tokens)]) + [MessageDelta, MessageStop]
  {
    TextEventsGroup(tokens);
    TraceIsBracketed(TextEvents(tokens));
  }

  lemma {:induction false} StepAllMore(g: Group, es: seq<SplitEvent>, e: SplitEvent)
    ensures StepAll(g, es + [e]) == Step(StepAll(g, es), e)
    decreases es
  {
    if es == [] {
      assert es + [e] == [e];
      assert StepAll(g, [e]) == StepAll(Step(g, e), []);
    } else {
      StepAllMore(Step(g, es[0]), es[1..], e);
      assert (es + [e])[1..] == es[1..] + [e];
    }
  }

  lemma KindAfterText(es: seq<SplitEvent>, t: string)
    requires KindAfterAll(Text, es) == Some(Text)
    ensures KindAfterAll(Text, es + [TextDelta(t)]) == Some(Text)
  {
    KindAfterConcat(Text, es, [TextDelta(t)]);
    assert [TextDelta(t)][1..] == [];
  }

  /** The group of a text: one section with its tokens, if there are any. */
  function TextGroup(tokens: seq<string>): Group { Group([], if tokens == [] then None else Some(Section(Text, tokens))) }

  lemma TextGroupMore(es: seq<SplitEvent>, tokens: seq<string>, t: string)
    requires StepAll(NOTHING, es) == TextGroup(tokens)
    ensures StepAll(NOTHING, es + [TextDelta(t)]) == TextGroup(tokens + [t])
  {
    StepAllMore(NOTHING, es, TextDelta(t));
    assert tokens == [] ==> [] + [t] == tokens + [t];
  }

  lemma {:induction false} TextEventsGroup(tokens: seq<string>)
    ensures KindAfterAll(Text, TextEvents(tokens)) == Some(Text)
    ensures StepAll(NOTHING, TextEvents(tokens)) == TextGroup(tokens)
  {
    if tokens != [] {
      var init, t := tokens[..|tokens| - 1], tokens[|tokens| - 1];
      TextEventsGroup(init);
      KindAfterText(TextEvents(init), t);
      TextGroupMore(TextEvents(init), init, t);
      assert tokens == init + [t];
    }
  }

  // ---- The stream as the handler composes it

  /** The tokens that arrive without an error; the others produce no events. */
  function Good(tokens: seq<Option<string>>): seq<string> {
    if tokens == [] then []
    else
      var n := |tokens| - 1;
      Good(tokens[..n]) + if tokens[n].Some? then [tokens[n].value] else []
  }

  lemma EmitAllFirst(m: Emitter, a: seq<SplitEvent>)
    requires a != []
    ensures var (out, m') := Emit(m, a[0]); var (rest, m'') := EmitAll(m', a[1..]); EmitAll(m, a) == (out + rest, m'')
  {
  }

  lemma EmitAllConcatFirst(m: Emitter, a: seq<SplitEvent>, b: seq<SplitEvent>, x: seq<SseEvent>, y: seq<SseEvent>, m2: Emitter, m3: Emitter)
    requires a != []
    requires EmitAll(Emit(m, a[0]).1, a[1..]) == (x, m2) && EmitAll(Emit(m, a[0]).1, a[1..] + b) == (x + y, m3)
    ensures var out := Emit(m, a[0]).0; EmitAll(m, a) == (out + x, m2) && EmitAll(m, a + b) == (out + x + y, m3)
  {
    EmitAllFirst(m, a);
    EmitAllFirst(m, a + b);
    assert (a + b)[1..] == a[1..] + b;
    var out := Emit(m, a[0]).0;
    assert out + (x + y) == out + x + y;
  }

  lemma {:induction false} EmitAllConcat(m: Emitter, a: seq<SplitEvent>, b: seq<SplitEvent>)
    ensures var (x, m') := EmitAll(m, a); var (y, m'') := EmitAll(m', b); EmitAll(m, a + b) == (x + y, m'')
    decreases a
  {
    if a == [] {
      assert a + b == b;
      assert [] + EmitAll(m, b).0 == EmitAll(m, b).0;
    } else {
      var m1 := Emit(m, a[0]).1;
      EmitAllConcat(m1, a[1..], b);
      var (x, m2) := EmitAll(m1, a[1..]);
      var (y, m3) := EmitAll(m2, b);
      EmitAllConcatFirst(m, a, b, x, y, m2, m3);
    }
  }

  method AppendEvents(events: seq<SseEvent>, es: seq<SplitEvent>, blockIndex: nat, blockStarted: bool)
    returns (events': seq<SseEvent>, blockIndex': nat, blockStarted': bool)
    ensures events' == events + EmitAll(Emitter(blockIndex, blockStarted), es).0
    ensures Emitter(blockIndex', blockStarted') == EmitAll(Emitter(blockIndex, blockStarted), es).1
  {
    events', blockIndex', blockStarted' := events, blockIndex, blockStarted;
    ghost var m := Emitter(blockIndex, blockStarted);
    for i := 0 to |es|
      invariant events' == events + EmitAll(m, es[..i]).0 && Emitter(blockIndex', blockStarted') == EmitAll(m, es[..i]).1
    {
      EmitAllConcat(m, es[..i], [es[i]]);
      EmitAllOne(EmitAll(m, es[..i]).1, es[i]);
      assert es[..i] + [es[i]] == es[..i + 1];
      events', blockIndex', blockStarted' := AppendEvent(events', es[i], blockIndex', blockStarted');
    }
    assert es[..|es|] == es;
  }

  lemma EmitAllOne(m: Emitter, e: SplitEvent)
    ensures EmitAll(m, [e]) == Emit(m, e)
  {
    assert [e][1..] == [];
    assert Emit(m, e).0 + [] == Emit(m, e).0;
  }

  function Answer(enabled: bool, tokens: seq<string>): seq<SplitEvent> {
    if enabled then StreamEvents(THINK_TAGS, tokens) else TextEvents(tokens)
  }

  /** The state of the splitter after some tokens, and the events they gave. */
  ghost predicate After(enabled: bool, tokens: seq<string>, es: seq<SplitEvent>, kind: Kind, carry: string) {
    if enabled then Pushed(es, kind, carry) == PushAll(THINK_TAGS, Text, "", tokens)
    else es == TextEvents(tokens) && kind == Text && carry == ""
  }

  lemma AfterOne(enabled: bool, tokens: seq<string>, es: seq<SplitEvent>, kind: Kind, carry: string,
                 t: string, more: seq<SplitEvent>, kind': Kind, carry': string)
    requires After(enabled, tokens, es, kind, carry)
    requires if enabled then Pushed(more, kind', carry') == Push(THINK_TAGS, kind, carry + t) else more == [TextDelta(t)] && kind' == kind && carry' == carry
    ensures After(enabled, tokens + [t], es + more, kind', carry')
  {
    if enabled {
      PushAllMore(THINK_TAGS, Text, "", tokens, t);
    } else {
      assert (tokens + [t])[..|tokens|] == tokens;
    }
  }

  /** What has been streamed for the events so far. */
  ghost predicate Streamed(out: seq<SseEvent>, blockIndex: nat, blockStarted: bool, es: seq<SplitEvent>) {
    var (body, m) := EmitAll(Emitter(0, false), es);
    out == [MessageStart] + body && Emitter(blockIndex, blockStarted) == m
  }

  lemma StreamedMore(out: seq<SseEvent>, m: Emitter, es: seq<SplitEvent>, more: seq<SplitEvent>)
    requires Streamed(out, m.blockIndex, m.blockStarted, es)
    ensures var (body, m') := EmitAll(m, more); Streamed(out + body, m'.blockIndex, m'.blockStarted, es + more)
  {
    EmitAllConcat(Emitter(0, false), es, more);
    Assoc([MessageStart], EmitAll(Emitter(0, false), es).0, EmitAll(m, more).0);
  }

  /** A token is split and its events are appended, all under the locks. */
  method StreamToken(splitter: StreamSplitter, token: string, out: seq<SseEvent>, blockIndex: nat, blockStarted: bool,
                     ghost tokens: seq<string>, ghost es: seq<SplitEvent>)
    returns (out': seq<SseEvent>, blockIndex': nat, blockStarted': bool, ghost es': seq<SplitEvent>)
    requires splitter.tags == THINK_TAGS && After(splitter.enabled, tokens, es, splitter.state, splitter.carry)
    requires Streamed(out, blockIndex, blockStarted, es)
    modifies splitter
    ensures After(splitter.enabled, tokens + [token], es', splitter.state, splitter.carry)
    ensures Streamed(out', blockIndex', blockStarted', es')
  {
    ghost var kind, carry := splitter.state, splitter.carry;
    var more := splitter.PushText(token);
    AfterOne(splitter.enabled, tokens, es, kind, carry, token, more, splitter.state, splitter.carry);
    StreamedMore(out, Emitter(blockIndex, blockStarted), es, more);
    out', blockIndex', blockStarted' := AppendEvents(out, more, blockIndex, blockStarted);
    es' := es + more;
  }

  lemma GoodMore(tokens: seq<Option<string>>, i: nat)
    requires i < |tokens|
    ensures Good(tokens[..i + 1]) == if tokens[i].Some? then Good(tokens[..i]) + [tokens[i].value] else Good(tokens[..i])
  {
    assert tokens[..i + 1][..i] == tokens[..i];
  }

  method MessagesStream(enabled: bool, tokens: seq<Option<string>>) returns (out: seq<SseEvent>)
    ensures out == Trace(Answer(enabled, Good(tokens)))
  {
    var splitter := new StreamSplitter(enabled);
    var blockIndex, blockStarted := 0, false;
    out := [MessageStart];
    ghost var es: seq<SplitEvent> := [];
    for i := 0 to |tokens|
      invariant splitter.enabled == enabled && splitter.tags == THINK_TAGS
      invariant After(enabled, Good(tokens[..i]), es, splitter.state, splitter.carry)
      invariant Streamed(out, blockIndex, blockStarted, es)
    {
      GoodMore(tokens, i);
      if tokens[i].Some? {
        out, blockIndex, blockStarted, es :=
          StreamToken(splitter, tokens[i].value, out, blockIndex, blockStarted, Good(tokens[..i]), es);
      }
    }
    assert tokens[..|tokens|] == tokens;
    var last := splitter.Flush();
    StreamedMore(out, Emitter(blockIndex, blockStarted), es, last);
    out, blockIndex, blockStarted := AppendEvents(out, last, blockIndex, blockStarted);
    out := AppendFooterEvents(out, blockIndex, blockStarted);
    assert es + last == Answer(enabled, Good(tokens));
  }

  method AppendFooterEvents(events: seq<SseEvent>, finalIndex: nat, blockStarted: bool) returns (events': seq<SseEvent>)
    ensures events' == events + Footer(Emitter(finalIndex, blockStarted))
  {
    events' := events;
    if blockStarted {
      events' := events' + [BlockStop(finalIndex)];
    }
    events' := events' + [MessageDelta];
    events' := events' + [MessageStop];
  }
}
