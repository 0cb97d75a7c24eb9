/**
 * Splitting generated text into thinking and answer: once over the whole text, and incrementally over tokens
 * whose boundaries may fall anywhere. Text is a sequence of Unicode scalar values; the tags are ASCII, so a
 * tail that could begin a tag has as many bytes as characters and always begins at a character boundary.
 */
module ThinkSplit {
  import opened Options
  import opened Seqs
  import opened TextSearch

  datatype Kind = Text | Thinking

  /** The pair of tags. Nothing but their being non-empty matters. */
  datatype TagPair = TagPair(open: string, close: string)

  type Tags = g: TagPair | g.open != "" && g.close != "" witness TagPair("<", ">")

  const THINK_TAGS: Tags := TagPair("<think>", "</think>")

  /** The tag that ends a stretch of the given kind. */
  function Tag(g: Tags, k: Kind): (m: string)
    ensures |m| > 0
  {
    if k.Text? then g.open else g.close
  }

  function Other(k: Kind): Kind { if k.Text? then Thinking else Text }

  datatype SplitEvent = TextDelta(text: string) | StartThinking | ThinkingDelta(text: string) | EndThinking

  function Delta(k: Kind, s: string): SplitEvent { if k.Text? then TextDelta(s) else ThinkingDelta(s) }
  function Switch(k: Kind): SplitEvent { if k.Text? then StartThinking else EndThinking }

  /** A delta, unless there is nothing to say. */
  function Deltas(k: Kind, s: string): seq<SplitEvent> { if s == [] then [] else [Delta(k, s)] }

  // ---- The incremental splitter

  datatype Pushed = Pushed(events: seq<SplitEvent>, kind: Kind, carry: string)

  /** What `push` makes of the text it has in hand. */
  function Push(g: Tags, k: Kind, s: string): Pushed
    decreases |s|
  {
    if s == [] then Pushed([], k, "")
    else
      match Find(s, Tag(g, k))
      case Some(i) =>
        var rest := Push(g, Other(k), s[i + |Tag(g, k)|..]);
        Pushed(Deltas(k, s[..i]) + [Switch(k)] + rest.events, rest.kind, rest.carry)
      case None =>
        var n := |s| - HeldLen(s, Tag(g, k));
        Pushed(Deltas(k, s[..n]), k, s[n..])
  }

  function After(events: seq<SplitEvent>, p: Pushed): Pushed { p.(events := events + p.events) }

  lemma AfterAfter(a: seq<SplitEvent>, b: seq<SplitEvent>, p: Pushed)
    ensures After(a, After(b, p)) == After(a + b, p)
  {
    assert a + (b + p.events) == a + b + p.events;
  }

  lemma PushTag(g: Tags, k: Kind, s: string, i: nat)
    requires Find(s, Tag(g, k)) == Some(i)
    ensures var q := Push(g, Other(k), s[i + |Tag(g, k)|..]);
      Push(g, k, s) == Pushed(Deltas(k, s[..i]) + [Switch(k)] + q.events, q.kind, q.carry)
  {
  }

  lemma PushHeld(g: Tags, k: Kind, s: string)
    requires Find(s, Tag(g, k)) == None && s != []
    ensures var n := |s| - HeldLen(s, Tag(g, k)); Push(g, k, s) == Pushed(Deltas(k, s[..n]), k, s[n..])
  {
  }

  /** What a turn that ends at `next`, or with `carry` held back if there is no `next`, is to have written. */
  ghost predicate TurnIs(g: Tags, k: Kind, rest: string, events: seq<SplitEvent>, next: Option<nat>, carry: string) {
    match next
    case None => Push(g, k, rest) == Pushed(events, k, carry)
    case Some(n) => 0 < n <= |rest| && carry == "" && Push(g, k, rest) == After(events, Push(g, Other(k), rest[n..]))
  }

  lemma TurnTag(g: Tags, k: Kind, rest: string, i: nat, events: seq<SplitEvent>)
    requires Find(rest, Tag(g, k)) == Some(i) && events == Deltas(k, rest[..i]) + [Switch(k)]
    ensures TurnIs(g, k, rest, events, Some(i + |Tag(g, k)|), "")
  {
    PushTag(g, k, rest, i);
  }

  lemma TurnHeld(g: Tags, k: Kind, rest: string, n: nat, events: seq<SplitEvent>)
    requires rest != [] && Find(rest, Tag(g, k)) == None
    requires n == |rest| - HeldLen(rest, Tag(g, k)) && events == Deltas(k, rest[..n])
    ensures TurnIs(g, k, rest, events, None, rest[n..])
  {
    PushHeld(g, k, rest);
  }

  /** One turn of the loop of `push` on the text still to be looked at: up to a tag, or up to what is held back. */
  method Turn(g: Tags, k: Kind, rest: string) returns (events: seq<SplitEvent>, next: Option<nat>, carry: string)
    requires rest != []
    ensures TurnIs(g, k, rest, events, next, carry)
  {
    var found := Find(rest, Tag(g, k));
    if found.Some? {
      var idx := found.value;
      var before := if idx > 0 then [Delta(k, rest[..idx])] else [];
      events, next, carry := before + [Switch(k)], Some(idx + |Tag(g, k)|), "";
      TurnTag(g, k, rest, idx, events);
    } else {
      var safe, held := SplitTail(rest, Tag(g, k));
      events, next, carry := if safe != [] then [Delta(k, safe)] else [], None, held;
      TurnHeld(g, k, rest, |safe|, events);
    }
  }

  method PushLoop(g: Tags, k: Kind, combined: string) returns (events: seq<SplitEvent>, state: Kind, carry: string)
    ensures Pushed(events, state, carry) == Push(g, k, combined)
  {
    events, state, carry := [], k, "";
    var rest := combined;
    while rest != []
      invariant Push(g, k, combined) == After(events, Push(g, state, rest)) && carry == ""
      decreases |rest|
    {
      var more, next, held := Turn(g, state, rest);
      if next == None {
        events, carry := events + more, held;
        return;
      }
      AfterAfter(events, more, Push(g, Other(state), rest[next.value..]));
      events, rest, state := events + more, rest[next.value..], Other(state);
    }
  }

  function FlushEvents(k: Kind, carry: string): seq<SplitEvent> {
    Deltas(k, carry) + if k.Thinking? then [EndThinking] else []
  }

  class StreamSplitter {
    var state: Kind
    var carry: string
    const enabled: bool
    const tags: Tags

    constructor (enabled: bool)
      ensures this.enabled == enabled && tags == THINK_TAGS && state == Text && carry == ""
    {
      state, carry := Text, "";
      this.enabled, tags := enabled, THINK_TAGS;
    }

    method PushText(text: string) returns (events: seq<SplitEvent>)
      modifies this
      ensures !enabled ==> events == [TextDelta(text)] && state == old(state) && carry == old(carry)
      ensures enabled ==> Pushed(events, state, carry) == Push(tags, old(state), old(carry) + text)
    {
      if !enabled {
        return [TextDelta(text)];
      }
      events, state, carry := PushLoop(tags, state, carry + text);
    }

    method Flush() returns (events: seq<SplitEvent>)
      modifies `carry
      ensures carry == ""
      ensures !enabled ==> events == if old(carry) == "" then [] else [TextDelta(old(carry))]
      ensures enabled ==> events == FlushEvents(state, old(carry))
    {
      if !enabled {
        if carry == "" {
          return [];
        }
        events := [TextDelta(carry)];
        carry := "";
        return;
      }
      events := [];
      if carry != "" {
        events := events + [Delta(state, carry)];
        carry := "";
      }
      if state == Thinking {
        events := events + [EndThinking];
      }
    }
  }

  // ---- What the events mean

  /** A character of either kind, or a change of kind. Splitting a delta in two makes no difference here. */
  datatype Atom = Ch(kind: Kind, c: char) | Open | Close

  function Label(k: Kind, s: string): (a: seq<Atom>)
  {
    if s == [] then [] else [Ch(k, s[0])] + Label(k, s[1..])
  }

  lemma {:induction false} LabelConcat(k: Kind, s: string, t: string)
    ensures Label(k, s + t) == Label(k, s) + Label(k, t)
  {
    if s == [] {
      assert s + t == t;
    } else {
      LabelConcat(k, s[1..], t);
      assert (s + t)[1..] == s[1..] + t;
    }
  }

  function Mark(k: Kind): Atom { if k.Text? then Open else Close }

  function AtomsOf(e: SplitEvent): seq<Atom> {
    match e
    case TextDelta(s) => Label(Text, s)
    case ThinkingDelta(s) => Label(Thinking, s)
    case StartThinking => [Open]
    case EndThinking => [Close]
  }

  function Flat(es: seq<SplitEvent>): seq<Atom> { FlatMap(AtomsOf, es) }

  lemma FlatDeltas(k: Kind, s: string)
    ensures Flat(Deltas(k, s)) == Label(k, s)
  {
    if s != [] {
      FlatMapOne(AtomsOf, Delta(k, s));
    }
  }

  // ---- The whole text at once

  datatype Parsed = Parsed(atoms: seq<Atom>, last: Kind)

  function Before(a: seq<Atom>, p: Parsed): Parsed { p.(atoms := a + p.atoms) }

  lemma BeforeBefore(a: seq<Atom>, b: seq<Atom>, p: Parsed)
    ensures Before(a, Before(b, p)) == Before(a + b, p)
  {
    assert a + (b + p.atoms) == a + b + p.atoms;
  }

  /** The whole text read from the given kind: cut at the first tag that ends it, then go on with the other kind. */
  function Parse(g: Tags, k: Kind, s: string): Parsed
    decreases |s|
  {
    match Find(s, Tag(g, k))
    case Some(i) => Before(Label(k, s[..i]) + [Mark(k)], Parse(g, Other(k), s[i + |Tag(g, k)|..]))
    case None => Parsed(Label(k, s), k)
  }

  lemma LabelSplit(k: Kind, p: string, q: string, b: seq<Atom>)
    ensures Label(k, p + q) + b == Label(k, p) + (Label(k, q) + b)
  {
    LabelConcat(k, p, q);
  }

  lemma ParseTag(g: Tags, k: Kind, s: string, i: nat, rest: string)
    requires Find(s, Tag(g, k)) == Some(i) && rest == s[i + |Tag(g, k)|..]
    ensures Parse(g, k, s) == Before(Label(k, s[..i]) + [Mark(k)], Parse(g, Other(k), rest))
  {
  }

  /** Text in which no tag begins may be put in front. */
  lemma ParseWithPrefix(g: Tags, k: Kind, p: string, t: string)
    requires Find(p + t, Tag(g, k)) == if Find(t, Tag(g, k)) == None then None else Some(|p| + Find(t, Tag(g, k)).value)
    ensures Parse(g, k, p + t) == Before(Label(k, p), Parse(g, k, t))
  {
    if Find(t, Tag(g, k)) == None {
      LabelConcat(k, p, t);
    } else {
      var i := Find(t, Tag(g, k)).value;
      TagWithPrefix(g, k, p, t, i, t[i + |Tag(g, k)|..]);
    }
  }

  lemma TagWithPrefix(g: Tags, k: Kind, p: string, t: string, i: nat, rest: string)
    requires Find(t, Tag(g, k)) == Some(i) && Find(p + t, Tag(g, k)) == Some(|p| + i) && rest == t[i + |Tag(g, k)|..]
    ensures Parse(g, k, p + t) == Before(Label(k, p), Parse(g, k, t))
  {
    ParseTag(g, k, t, i, rest);
    ParseTag(g, k, p + t, |p| + i, rest);
    assert (p + t)[..|p| + i] == p + t[..i];
    LabelSplit(k, p, t[..i], [Mark(k)]);
    BeforeBefore(Label(k, p), Label(k, t[..i]) + [Mark(k)], Parse(g, Other(k), rest));
  }

  /** Letting go of the safe part and reading on from what is held back is reading the whole. */
  lemma HoldingBackIsSound(g: Tags, k: Kind, s: string, u: string, n: nat)
    requires Find(s, Tag(g, k)) == None && n == |s| - HeldLen(s, Tag(g, k))
    ensures Parse(g, k, s + u) == Before(Label(k, s[..n]), Parse(g, k, s[n..] + u))
  {
    FindFromHeld(s, Tag(g, k), u, s[..n], s[n..] + u);
    ParseWithPrefix(g, k, s[..n], s[n..] + u);
  }

  lemma FlatHead(k: Kind, s: string, es: seq<SplitEvent>)
    ensures Flat(Deltas(k, s) + [Switch(k)] + es) == Label(k, s) + [Mark(k)] + Flat(es)
  {
    FlatMapConcat(AtomsOf, Deltas(k, s) + [Switch(k)], es);
    FlatMapConcat(AtomsOf, Deltas(k, s), [Switch(k)]);
    FlatMapOne(AtomsOf, Switch(k));
    FlatDeltas(k, s);
  }

  lemma ParseTagAppended(g: Tags, k: Kind, s: string, u: string, i: nat)
    requires Find(s, Tag(g, k)) == Some(i)
    ensures Parse(g, k, s + u) == Before(Label(k, s[..i]) + [Mark(k)], Parse(g, Other(k), s[i + |Tag(g, k)|..] + u))
  {
    FindAppend(s, Tag(g, k), u, 0);
    CutAppended(s, u, i);
    CutAppended(s, u, i + |Tag(g, k)|);
    ParseTag(g, k, s + u, i, s[i + |Tag(g, k)|..] + u);
  }

  lemma BeforeHead(k: Kind, s: string, es: seq<SplitEvent>, z: Parsed)
    ensures Before(Label(k, s) + [Mark(k)], Before(Flat(es), z)) == Before(Flat(Deltas(k, s) + [Switch(k)] + es), z)
  {
    FlatHead(k, s, es);
    BeforeBefore(Label(k, s) + [Mark(k)], Flat(es), z);
  }

  /** What has been emitted, followed by the reading of what is held back and of what comes later, is right. */
  ghost predicate Sound(g: Tags, k: Kind, s: string, p: Pushed, u: string) {
    Parse(g, k, s + u) == Before(Flat(p.events), Parse(g, p.kind, p.carry + u))
  }

  lemma PushTagIsSound(g: Tags, k: Kind, s: string, u: string, i: nat, q: Pushed, p: Pushed)
    requires Find(s, Tag(g, k)) == Some(i)
    requires Sound(g, Other(k), s[i + |Tag(g, k)|..], q, u)
    requires p == Pushed(Deltas(k, s[..i]) + [Switch(k)] + q.events, q.kind, q.carry)
    ensures Sound(g, k, s, p, u)
  {
    ParseTagAppended(g, k, s, u, i);
    BeforeHead(k, s[..i], q.events, Parse(g, q.kind, q.carry + u));
  }

  lemma PushHeldIsSound(g: Tags, k: Kind, s: string, u: string, n: nat, p: Pushed)
    requires Find(s, Tag(g, k)) == None && n == |s| - HeldLen(s, Tag(g, k))
    requires p == Pushed(Deltas(k, s[..n]), k, s[n..])
    ensures Sound(g, k, s, p, u)
  {
    HoldingBackIsSound(g, k, s, u, n);
    FlatDeltas(k, s[..n]);
  }

  /** One push, followed by whatever comes later, means what the text in hand followed by it means. */
  lemma {:induction false} PushIsSound(g: Tags, k: Kind, s: string, u: string)
    ensures Sound(g, k, s, Push(g, k, s), u)
    decreases |s|
  {
    if s == [] {
      assert s + u == "" + u;
    } else {
      match Find(s, Tag(g, k))
      case None =>
        PushHeld(g, k, s);
        PushHeldIsSound(g, k, s, u, |s| - HeldLen(s, Tag(g, k)), Push(g, k, s));
      case Some(i) =>
        var rest := s[i + |Tag(g, k)|..];
        PushIsSound(g, Other(k), rest, u);
        PushTag(g, k, s, i);
        PushTagIsSound(g, k, s, u, i, Push(g, Other(k), rest), Push(g, k, s));
    }
  }

  // ---- Any number of tokens

  function Concat(tokens: seq<string>): string { if tokens == [] then "" else tokens[0] + Concat(tokens[1..]) }

  /** Pushing the tokens one after the other. */
  function PushAll(g: Tags, k: Kind, carry: string, tokens: seq<string>): Pushed
    decreases tokens
  {
    if tokens == [] then Pushed([], k, carry)
    else
      var p := Push(g, k, carry + tokens[0]);
      After(p.events, PushAll(g, p.kind, p.carry, tokens[1..]))
  }

  lemma SoundThenSound(g: Tags, k: Kind, s: string, t: string, p: Pushed, q: Pushed, u: string)
    requires Sound(g, k, s, p, t + u) && Sound(g, p.kind, p.carry + t, q, u)
    ensures Sound(g, k, s + t, After(p.events, q), u)
  {
    assert s + t + u == s + (t + u) && p.carry + (t + u) == p.carry + t + u;
    FlatMapConcat(AtomsOf, p.events, q.events);
    BeforeBefore(Flat(p.events), Flat(q.events), Parse(g, q.kind, q.carry + u));
  }

  lemma PushAllFirst(g: Tags, k: Kind, carry: string, tokens: seq<string>)
    requires tokens != []
    ensures var p := Push(g, k, carry + tokens[0]);
      PushAll(g, k, carry, tokens) == After(p.events, PushAll(g, p.kind, p.carry, tokens[1..]))
  {
  }

  lemma NothingIsSound(g: Tags, k: Kind, carry: string, u: string)
    ensures Sound(g, k, carry + Concat([]), PushAll(g, k, carry, []), u)
  {
    assert carry + "" == carry;
  }

  lemma PushIsSoundThen(g: Tags, k: Kind, s: string, t: string, q: Pushed, u: string)
    requires Sound(g, Push(g, k, s).kind, Push(g, k, s).carry + t, q, u)
    ensures Sound(g, k, s + t, After(Push(g, k, s).events, q), u)
  {
    PushIsSound(g, k, s, t + u);
    SoundThenSound(g, k, s, t, Push(g, k, s), q, u);
  }

  lemma ConcatFirst(carry: string, tokens: seq<string>)
    requires tokens != []
    ensures carry + tokens[0] + Concat(tokens[1..]) == carry + Concat(tokens)
  {
    Assoc(carry, tokens[0], Concat(tokens[1..]));
  }

  lemma FirstIsSound(g: Tags, k: Kind, carry: string, tokens: seq<string>, u: string)
    requires tokens != []
    requires var p := Push(g, k, carry + tokens[0]);
      Sound(g, k, carry + tokens[0] + Concat(tokens[1..]), After(p.events, PushAll(g, p.kind, p.carry, tokens[1..])), u)
    ensures Sound(g, k, carry + Concat(tokens), PushAll(g, k, carry, tokens), u)
  {
    PushAllFirst(g, k, carry, tokens);
    ConcatFirst(carry, tokens);
  }

  lemma {:induction false} PushAllIsSound(g: Tags, k: Kind, carry: string, tokens: seq<string>, u: string)
    ensures Sound(g, k, carry + Concat(tokens), PushAll(g, k, carry, tokens), u)
    decreases tokens
  {
    if tokens == [] {
      NothingIsSound(g, k, carry, u);
    } else {
      var p := Push(g, k, carry + tokens[0]);
      var q := PushAll(g, p.kind, p.carry, tokens[1..]);
      PushAllIsSound(g, p.kind, p.carry, tokens[1..], u);
      PushIsSoundThen(g, k, carry + tokens[0], Concat(tokens[1..]), q, u);
      FirstIsSound(g, k, carry, tokens, u);
    }
  }

  /** What is held back between tokens is shorter than the tag it might become. */
  lemma {:induction false} PushHoldsLittle(g: Tags, k: Kind, s: string)
    ensures |Push(g, k, s).carry| < |Tag(g, Push(g, k, s).kind)|
    decreases |s|
  {
    if s != [] {
      match Find(s, Tag(g, k))
      case None =>
      case Some(i) =>
        PushTag(g, k, s, i);
        PushHoldsLittle(g, Other(k), s[i + |Tag(g, k)|..]);
    }
  }

  lemma {:induction false} PushAllHoldsLittle(g: Tags, k: Kind, carry: string, tokens: seq<string>)
    requires |carry| < |Tag(g, k)|
    ensures var p := PushAll(g, k, carry, tokens); |p.carry| < |Tag(g, p.kind)|
    decreases tokens
  {
    if tokens != [] {
      PushHoldsLittle(g, k, carry + tokens[0]);
      var p := Push(g, k, carry + tokens[0]);
      PushAllHoldsLittle(g, p.kind, p.carry, tokens[1..]);
    }
  }

  /** All events of a stream: every token pushed, then one flush. */
  function StreamEvents(g: Tags, tokens: seq<string>): seq<SplitEvent> {
    var p := PushAll(g, Text, "", tokens);
    p.events + FlushEvents(p.kind, p.carry)
  }

  /** A thinking stretch left open by the text is closed at its end. */
  function Closing(k: Kind): seq<Atom> { if k.Thinking? then [Close] else [] }

  function Whole(g: Tags, s: string): seq<Atom> { Parse(g, Text, s).atoms + Closing(Parse(g, Text, s).last) }

  lemma FlushIsSound(g: Tags, k: Kind, carry: string)
    requires |carry| < |Tag(g, k)|
    ensures Flat(FlushEvents(k, carry)) == Parse(g, k, carry).atoms + Closing(k) && Parse(g, k, carry).last == k
  {
    FindInShort(carry, Tag(g, k), 0);
    FlatDeltas(k, carry);
    FlatMapConcat(AtomsOf, Deltas(k, carry), if k.Thinking? then [EndThinking] else []);
    FlatMapOne(AtomsOf, EndThinking);
  }

  lemma SoundAlone(g: Tags, k: Kind, s: string, p: Pushed)
    requires Sound(g, k, s, p, "")
    ensures Parse(g, k, s) == Before(Flat(p.events), Parse(g, p.kind, p.carry))
  {
    assert s + "" == s && p.carry + "" == p.carry;
  }

  lemma FinishIsSound(g: Tags, s: string, p: Pushed)
    requires Sound(g, Text, s, p, "") && |p.carry| < |Tag(g, p.kind)|
    ensures Flat(p.events + FlushEvents(p.kind, p.carry)) == Whole(g, s)
  {
    FlushIsSound(g, p.kind, p.carry);
    FlatMapConcat(AtomsOf, p.events, FlushEvents(p.kind, p.carry));
    SoundAlone(g, Text, s, p);
    Assoc(Flat(p.events), Parse(g, p.kind, p.carry).atoms, Closing(p.kind));
  }

  lemma StreamIsSound(g: Tags, tokens: seq<string>, p: Pushed)
    requires p == PushAll(g, Text, "", tokens)
    ensures Sound(g, Text, Concat(tokens), p, "") && |p.carry| < |Tag(g, p.kind)|
  {
    PushAllIsSound(g, Text, "", tokens, "");
    PushAllHoldsLittle(g, Text, "", tokens);
    assert "" + Concat(tokens) == Concat(tokens);
  }

  /**
   * Chunking does not matter: however a text is cut into tokens, pushing them and flushing once produces, up to
   * where deltas are divided, the reading of the whole text.
   */
  lemma ChunkingDoesNotMatter(g: Tags, tokens: seq<string>)
    ensures Flat(StreamEvents(g, tokens)) == Whole(g, Concat(tokens))
  {
    var p := PushAll(g, Text, "", tokens);
    StreamIsSound(g, tokens, p);
    FinishIsSound(g, Concat(tokens), p);
  }

  /** With splitting disabled every token is one text event, empty or not. */
  function TextEvents(tokens: seq<string>): seq<SplitEvent> {
    if tokens == [] then [] else TextEvents(tokens[..|tokens| - 1]) + [TextDelta(tokens[|tokens| - 1])]
  }

  lemma {:induction false} PushAllMore(g: Tags, k: Kind, carry: string, tokens: seq<string>, t: string)
    ensures var p := PushAll(g, k, carry, tokens);
      PushAll(g, k, carry, tokens + [t]) == After(p.events, Push(g, p.kind, p.carry + t))
    decreases tokens
  {
    if tokens == [] {
      assert tokens + [t] == [t];
      var p := Push(g, k, carry + t);
      assert PushAll(g, k, carry, [t]) == After(p.events, PushAll(g, p.kind, p.carry, []));
    } else {
      var p := Push(g, k, carry + tokens[0]);
      PushAllMore(g, p.kind, p.carry, tokens[1..], t);
      assert (tokens + [t])[1..] == tokens[1..] + [t];
      var q := PushAll(g, p.kind, p.carry, tokens[1..]);
      AfterAfter(p.events, q.events, Push(g, q.kind, q.carry + t));
    }
  }
}
