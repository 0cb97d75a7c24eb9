/** The incremental phase splitter: what it emits, what it removes and what it keeps, over any sequence of pushes. */
module PhaseStream {
  import opened Options
  import opened Seqs
  import opened TextSearch
  import opened PhaseSplit

  datatype Segment = Segment(phase: Phase, text: string)

  /** Everything a text is taken apart into: the segments emitted, and the markers removed between them. */
  datatype Item = Emitted(seg: Segment) | Removed(marker: Marker)

  /** What a splitter carries from one push to the next. */
  datatype Splitter = Splitter(phase: Phase, carry: string)

  const START := Splitter(Final, "")

  function ItemText(e: Item): string { if e.Emitted? then e.seg.text else e.marker.text }

  function TextOf(es: seq<Item>): string { FlatMap(ItemText, es) }

  function ItemSegments(e: Item): seq<Segment> { if e.Emitted? then [e.seg] else [] }

  function SegmentsOf(es: seq<Item>): seq<Segment> { FlatMap(ItemSegments, es) }

  function Emit(ph: Phase, s: string): seq<Item> { if s == "" then [] else [Emitted(Segment(ph, s))] }

  // ---- One push

  datatype Pushed = Pushed(items: seq<Item>, next: Splitter)

  function After(es: seq<Item>, p: Pushed): Pushed { p.(items := es + p.items) }

  function UpToMarker(ph: Phase, s: string, m: Marker): seq<Item> { Emit(ph, s) + [Removed(m)] }

  /** The place behind a marker found. */
  function Behind(ms: seq<Marker>, h: Hit): nat
    requires h.index < |ms|
  {
    h.pos + |ms[h.index].text|
  }

  /** What `push` makes of the text it has in hand. */
  function Push(ms: seq<Marker>, ph: Phase, s: string): Pushed
    decreases |s|
  {
    if s == "" then Pushed([], Splitter(ph, ""))
    else
      match Leftmost(ms, s, |ms|)
      case Some(h) =>
        After(UpToMarker(ph, s[..h.pos], ms[h.index]), Push(ms, ms[h.index].phase, s[Behind(ms, h)..]))
      case None =>
        var n := |s| - HeldBack(ms, s);
        Pushed(Emit(ph, s[..n]), Splitter(ph, s[n..]))
  }

  lemma PushHit(ms: seq<Marker>, ph: Phase, s: string, h: Hit)
    requires s != "" && Leftmost(ms, s, |ms|) == Some(h)
    ensures Push(ms, ph, s) == After(UpToMarker(ph, s[..h.pos], ms[h.index]), Push(ms, ms[h.index].phase, s[Behind(ms, h)..]))
  {
  }

  lemma PushMiss(ms: seq<Marker>, ph: Phase, s: string)
    requires s != "" && Leftmost(ms, s, |ms|) == None
    ensures var n := |s| - HeldBack(ms, s); Push(ms, ph, s) == Pushed(Emit(ph, s[..n]), Splitter(ph, s[n..]))
  {
  }

  /** An empty push changes nothing, not even what is carried. */
  function Step(ms: seq<Marker>, st: Splitter, text: string): Pushed {
    if text == "" then Pushed([], st) else Push(ms, st.phase, st.carry + text)
  }

  /** One turn of the loop: up to a marker, or up to what is held back. */
  method Turn(ms: seq<Marker>, ph: Phase, rest: string)
    returns (ghost items: seq<Item>, out: seq<Segment>, hit: Option<Hit>, carry: string)
    requires rest != ""
    ensures out == SegmentsOf(items)
    ensures hit == None ==> Push(ms, ph, rest) == Pushed(items, Splitter(ph, carry))
    ensures hit.Some? ==> hit.value.index < |ms| && Behind(ms, hit.value) <= |rest|
    ensures hit.Some? ==>
      Push(ms, ph, rest) == After(items, Push(ms, ms[hit.value.index].phase, rest[Behind(ms, hit.value)..]))
  {
    hit := NextMarker(ms, rest);
    if hit == None {
      var safe, held := SplitForCarry(ms, rest);
      PushMiss(ms, ph, rest);
      out, carry := if safe != "" then [Segment(ph, safe)] else [], held;
      items := Emit(ph, safe);
      EmitSegments(ph, safe);
    } else {
      var seg := rest[..hit.value.pos];
      PushHit(ms, ph, rest, hit.value);
      out, carry := if hit.value.pos > 0 then [Segment(ph, seg)] else [], "";
      items := UpToMarker(ph, seg, ms[hit.value.index]);
      UpToMarkerParts(ph, seg, ms[hit.value.index]);
    }
  }

  lemma UpToMarkerParts(ph: Phase, s: string, m: Marker)
    ensures SegmentsOf(UpToMarker(ph, s, m)) == if s == "" then [] else [Segment(ph, s)]
    ensures TextOf(UpToMarker(ph, s, m)) == s + m.text
  {
    EmitSegments(ph, s);
    FlatMapConcat(ItemSegments, Emit(ph, s), [Removed(m)]);
    FlatMapOne(ItemSegments, Removed(m));
    EmitText(ph, s);
    FlatMapConcat(ItemText, Emit(ph, s), [Removed(m)]);
    FlatMapOne(ItemText, Removed(m));
  }

  lemma EmitSegments(ph: Phase, s: string)
    ensures SegmentsOf(Emit(ph, s)) == if s == "" then [] else [Segment(ph, s)]
  {
    if s != "" {
      FlatMapOne(ItemSegments, Emitted(Segment(ph, s)));
    }
  }

  lemma AfterAfter(a: seq<Item>, b: seq<Item>, p: Pushed)
    ensures After(a, After(b, p)) == After(a + b, p)
  {
    assert a + (b + p.items) == a + b + p.items;
  }

  method PushLoop(ms: seq<Marker>, ph: Phase, combined: string)
    returns (ghost items: seq<Item>, out: seq<Segment>, phase: Phase, carry: string)
    ensures Pushed(items, Splitter(phase, carry)) == Push(ms, ph, combined) && out == SegmentsOf(items)
  {
    items, out, phase, carry := [], [], ph, "";
    var rest := combined;
    while rest != ""
      invariant Push(ms, ph, combined) == After(items, Push(ms, phase, rest)) && carry == ""
      invariant out == SegmentsOf(items)
      decreases |rest|
    {
      ghost var more;
      var segs, hit, held;
      more, segs, hit, held := Turn(ms, phase, rest);
      FlatMapConcat(ItemSegments, items, more);
      if hit == None {
        items, out, carry := items + more, out + segs, held;
        return;
      }
      var m := ms[hit.value.index];
      var next := Behind(ms, hit.value);
      AfterAfter(items, more, Push(ms, m.phase, rest[next..]));
      items, out, phase, rest := items + more, out + segs, m.phase, rest[next..];
    }
  }

  class PhaseSplitter {
    const markers: seq<Marker>
    var phase: Phase
    var carry: string

    constructor ()
      ensures markers == MARKERS && State() == START
    {
      markers := MARKERS;
      phase, carry := Final, "";
    }

    function State(): Splitter
      reads this
    {
      Splitter(phase, carry)
    }

    method PushText(text: string) returns (out: seq<Segment>)
      modifies this
      ensures State() == Step(markers, old(State()), text).next
      ensures out == SegmentsOf(Step(markers, old(State()), text).items)
    {
      if text == "" {
        return [];
      }
      ghost var items;
      items, out, phase, carry := PushLoop(markers, phase, carry + text);
    }
  }

  // ---- Nothing is lost but the markers

  lemma {:induction false} PushKeepsText(ms: seq<Marker>, ph: Phase, s: string)
    ensures var p := Push(ms, ph, s); TextOf(p.items) + p.next.carry == s
    decreases |s|
  {
    if s != "" {
      var hit := Leftmost(ms, s, |ms|);
      if hit.Some? {
        var m, cut := ms[hit.value.index], Behind(ms, hit.value);
        PushKeepsText(ms, m.phase, s[cut..]);
        HitText(ms, s, hit.value);
        PushHit(ms, ph, s, hit.value);
        AfterKeepsText(ph, s, hit.value.pos, m, Push(ms, m.phase, s[cut..]));
      } else {
        EmitText(ph, s[..|s| - HeldBack(ms, s)]);
        PushMiss(ms, ph, s);
      }
    }
  }

  lemma AfterKeepsText(ph: Phase, s: string, i: nat, m: Marker, rest: Pushed)
    requires i + |m.text| <= |s| && s[i..i + |m.text|] == m.text
    requires TextOf(rest.items) + rest.next.carry == s[i + |m.text|..]
    ensures TextOf(After(UpToMarker(ph, s[..i], m), rest).items) + rest.next.carry == s
  {
    UpToMarkerParts(ph, s[..i], m);
    FlatMapConcat(ItemText, UpToMarker(ph, s[..i], m), rest.items);
    Glue(s, i, m.text, TextOf(rest.items), rest.next.carry);
  }

  lemma Glue(s: string, i: nat, m: string, t: string, c: string)
    requires i + |m| <= |s| && s[i..i + |m|] == m && t + c == s[i + |m|..]
    ensures s[..i] + m + t + c == s
  {
    assert s == s[..i] + s[i..i + |m|] + s[i + |m|..];
  }

  lemma EmitText(ph: Phase, s: string)
    ensures TextOf(Emit(ph, s)) == s
  {
    if s != "" {
      FlatMapOne(ItemText, Emitted(Segment(ph, s)));
    }
  }

  /** Where a hit is reported its marker does stand in the text. */
  lemma HitText(ms: seq<Marker>, s: string, h: Hit)
    requires Leftmost(ms, s, |ms|) == Some(h)
    ensures s[h.pos..h.pos + |ms[h.index].text|] == ms[h.index].text
  {
    LeftmostIsLeftmost(ms, s, |ms|);
    assert Stands(s, ms[h.index], h.pos);
    OccurrenceText(s, ms[h.index].text, h.pos);
  }

  /** A whole run of pushes. */
  function Run(ms: seq<Marker>, st: Splitter, texts: seq<string>): Pushed
    decreases |texts|
  {
    if texts == [] then Pushed([], st)
    else
      var p := Step(ms, st, texts[0]);
      After(p.items, Run(ms, p.next, texts[1..]))
  }

  function Id(s: string): string { s }

  function Joined(texts: seq<string>): string { FlatMap(Id, texts) }

  /** Over every run: segments and removed markers in order, then what is still carried, are the text fed in. */
  lemma {:induction false} RunKeepsText(ms: seq<Marker>, st: Splitter, texts: seq<string>)
    ensures var p := Run(ms, st, texts); TextOf(p.items) + p.next.carry == st.carry + Joined(texts)
    decreases |texts|
  {
    if texts == [] {
      assert st.carry + Joined(texts) == st.carry;
    } else {
      var p := Step(ms, st, texts[0]);
      var rest := Run(ms, p.next, texts[1..]);
      StepKeepsText(ms, st, texts[0]);
      RunKeepsText(ms, p.next, texts[1..]);
      FlatMapConcat(ItemText, p.items, rest.items);
      Regroup(TextOf(p.items), TextOf(rest.items), rest.next.carry, p.next.carry, texts[0], Joined(texts[1..]), st.carry);
    }
  }

  lemma StepKeepsText(ms: seq<Marker>, st: Splitter, text: string)
    ensures var p := Step(ms, st, text); TextOf(p.items) + p.next.carry == st.carry + text
  {
    if text != "" {
      PushKeepsText(ms, st.phase, st.carry + text);
    } else {
      assert st.carry + text == st.carry;
    }
  }

  // ---- Every segment is of the phase its markers say

  /** Segments are non-empty and of the current phase, which starts as `ph`, ends as `end` and changes at markers of the list only. */
  ghost predicate Phased(ms: seq<Marker>, ph: Phase, es: seq<Item>, end: Phase)
    decreases |es|
  {
    if es == [] then ph == end
    else
      match es[0]
      case Emitted(seg) => seg.phase == ph && seg.text != "" && Phased(ms, ph, es[1..], end)
      case Removed(m) => m in ms && Phased(ms, m.phase, es[1..], end)
  }

  lemma {:induction false} PhasedConcat(ms: seq<Marker>, ph: Phase, a: seq<Item>, mid: Phase, b: seq<Item>, end: Phase)
    requires Phased(ms, ph, a, mid) && Phased(ms, mid, b, end)
    ensures Phased(ms, ph, a + b, end)
    decreases |a|
  {
    if a == [] {
      assert a + b == b;
    } else {
      assert (a + b)[1..] == a[1..] + b;
      PhasedConcat(ms, if a[0].Emitted? then ph else a[0].marker.phase, a[1..], mid, b, end);
    }
  }

  lemma UpToMarkerIsPhased(ms: seq<Marker>, ph: Phase, s: string, m: Marker)
    requires m in ms
    ensures Phased(ms, ph, UpToMarker(ph, s, m), m.phase)
  {
    assert Phased(ms, m.phase, [Removed(m)][1..], m.phase);
    assert Phased(ms, ph, [Removed(m)], m.phase);
    EmitIsPhased(ms, ph, s);
    PhasedConcat(ms, ph, Emit(ph, s), ph, [Removed(m)], m.phase);
  }

  lemma EmitIsPhased(ms: seq<Marker>, ph: Phase, s: string)
    ensures Phased(ms, ph, Emit(ph, s), ph)
  {
    if s != "" {
      assert Phased(ms, ph, Emit(ph, s)[1..], ph);
    }
  }

  lemma {:induction false} PushIsPhased(ms: seq<Marker>, ph: Phase, s: string)
    ensures var p := Push(ms, ph, s); Phased(ms, ph, p.items, p.next.phase)
    decreases |s|
  {
    if s != "" {
      var hit := Leftmost(ms, s, |ms|);
      if hit.Some? {
        var h := hit.value;
        var m := ms[h.index];
        var rest := Push(ms, m.phase, s[Behind(ms, h)..]);
        PushIsPhased(ms, m.phase, s[Behind(ms, h)..]);
        UpToMarkerIsPhased(ms, ph, s[..h.pos], m);
        PhasedConcat(ms, ph, UpToMarker(ph, s[..h.pos], m), m.phase, rest.items, rest.next.phase);
        PushHit(ms, ph, s, h);
      } else {
        EmitIsPhased(ms, ph, s[..|s| - HeldBack(ms, s)]);
        PushMiss(ms, ph, s);
      }
    }
  }

  lemma {:induction false} RunIsPhased(ms: seq<Marker>, st: Splitter, texts: seq<string>)
    ensures var p := Run(ms, st, texts); Phased(ms, st.phase, p.items, p.next.phase)
    decreases |texts|
  {
    if texts != [] {
      var p := Step(ms, st, texts[0]);
      if texts[0] != "" {
        PushIsPhased(ms, st.phase, st.carry + texts[0]);
      }
      RunIsPhased(ms, p.next, texts[1..]);
      var rest := Run(ms, p.next, texts[1..]);
      PhasedConcat(ms, st.phase, p.items, p.next.phase, rest.items, rest.next.phase);
    }
  }

  // ---- No tag is let through, not even in pieces

  ghost predicate NoTag(ms: seq<Marker>, s: string) {
    forall j :: 0 <= j < |ms| && ms[j].place.Anywhere? ==> Find(s, ms[j].text) == None
  }

  ghost predicate TagAt(ms: seq<Marker>, j: nat, s: string, i: nat) {
    j < |ms| && ms[j].place.Anywhere? && OccursAt(s, ms[j].text, i)
  }

  /** However `t + s` goes on, no tag begins in `t`. */
  ghost predicate Clear(ms: seq<Marker>, t: string, s: string) {
    forall x: string, j: nat, i: nat :: t + s <= x && i < |t| ==> !TagAt(ms, j, x, i)
  }

  /** No stretch of emitted items between removed markers holds a tag, the first stretch being continued from `t`. */
  ghost predicate Clean(ms: seq<Marker>, t: string, es: seq<Item>)
    decreases |es|
  {
    if es == [] then NoTag(ms, t)
    else if es[0].Emitted? then Clean(ms, t + es[0].seg.text, es[1..])
    else NoTag(ms, t) && Clean(ms, "", es[1..])
  }

  /** What is emitted after the last removed marker, the first stretch being continued from `t`. */
  ghost function Tail(t: string, es: seq<Item>): string
    decreases |es|
  {
    if es == [] then t
    else if es[0].Emitted? then Tail(t + es[0].seg.text, es[1..])
    else Tail("", es[1..])
  }

  lemma OccursInside(p: string, x: string, q: string, m: string, i: nat)
    requires OccursAt(x, m, i)
    ensures OccursAt(p + x + q, m, |p| + i)
  {
    MatchesElsewhere(p, x, q, i, m, |m|);
  }

  lemma OccursLater(p: string, y: string, m: string, i: nat)
    ensures OccursAt(p + y, m, |p| + i) == OccursAt(y, m, i)
  {
    if i + |m| <= |y| {
      MatchesElsewhere(p, y, "", i, m, |m|);
      assert p + y + "" == p + y;
    }
  }

  lemma NoTagInside(ms: seq<Marker>, p: string, x: string, q: string)
    requires NoTag(ms, p + x + q)
    ensures NoTag(ms, x)
  {
    forall j | 0 <= j < |ms| && ms[j].place.Anywhere? ensures Find(x, ms[j].text) == None {
      FindFromIsFirst(x, ms[j].text, 0);
      FindFromIsFirst(p + x + q, ms[j].text, 0);
      if Find(x, ms[j].text).Some? {
        OccursInside(p, x, q, ms[j].text, Find(x, ms[j].text).value);
      }
    }
  }

  /** A text that no tag begins in holds none. */
  lemma ClearIsNoTag(ms: seq<Marker>, t: string, s: string)
    requires Clear(ms, t, s)
    ensures NoTag(ms, t)
  {
    forall j: nat | j < |ms| && ms[j].place.Anywhere? ensures Find(t, ms[j].text) == None {
      FindFromIsFirst(t, ms[j].text, 0);
      if Find(t, ms[j].text).Some? {
        var i := Find(t, ms[j].text).value;
        OccursInside("", t, s, ms[j].text, i);
        assert "" + t + s == t + s;
        assert TagAt(ms, j, t + s, i);
      }
    }
  }

  lemma ClearMore(ms: seq<Marker>, t: string, s: string, u: string)
    requires Clear(ms, t, s)
    ensures Clear(ms, t, s + u)
  {
    forall x: string, j: nat, i: nat | t + (s + u) <= x && i < |t| ensures !TagAt(ms, j, x, i) {
      assert t + s == (t + (s + u))[..|t + s|];
    }
  }

  lemma NoTagBegins(ms: seq<Marker>, t: string, s: string, x: string, j: nat, i: nat)
    requires Leftmost(ms, s, |ms|) == None && t + s <= x && |t| <= i < |t| + |s| - HeldBack(ms, s)
    ensures !TagAt(ms, j, x, i)
  {
    if j < |ms| {
      var u := x[|t + s|..];
      assert x == t + (s + u);
      OccursLater(t, s + u, ms[j].text, i - |t|);
      NoMarkerIsCut(ms, s, u, j, i - |t|);
    }
  }

  /** With no marker in hand, what is let go is clear if what went before is. */
  lemma LetGoIsClear(ms: seq<Marker>, t: string, s: string, n: nat)
    requires Clear(ms, t, s) && Leftmost(ms, s, |ms|) == None && n == |s| - HeldBack(ms, s)
    ensures Clear(ms, t + s[..n], s[n..])
  {
    var t', s' := t + s[..n], s[n..];
    assert t' + s' == t + s;
    forall x: string, j: nat, i: nat | t' + s' <= x && i < |t'| ensures !TagAt(ms, j, x, i) {
      if i >= |t| {
        NoTagBegins(ms, t, s, x, j, i);
      }
    }
  }

  /** Up to the first marker there is no tag if none begins in what went before. */
  lemma NoTagUpTo(ms: seq<Marker>, t: string, s: string, n: nat)
    requires Clear(ms, t, s) && Leftmost(ms, s, |ms|).Some? && n == Leftmost(ms, s, |ms|).value.pos
    ensures NoTag(ms, t + s[..n])
  {
    var x := t + s[..n];
    assert x + s[n..] == t + s;
    forall j: nat | j < |ms| && ms[j].place.Anywhere? ensures Find(x, ms[j].text) == None {
      FindFromIsFirst(x, ms[j].text, 0);
      if Find(x, ms[j].text).Some? {
        var i := Find(x, ms[j].text).value;
        OccursBefore(x, s[n..], ms[j].text, i);
        NothingUpTo(ms, t, s, n, j, i);
      }
    }
  }

  lemma NothingUpTo(ms: seq<Marker>, t: string, s: string, n: nat, j: nat, i: nat)
    requires Clear(ms, t, s) && Leftmost(ms, s, |ms|).Some? && n == Leftmost(ms, s, |ms|).value.pos
    requires j < |ms| && ms[j].place.Anywhere? && i < |t| + n
    ensures !OccursAt(t + s, ms[j].text, i)
  {
    if i < |t| {
      assert !TagAt(ms, j, t + s, i);
    } else {
      OccursLater(t, s, ms[j].text, i - |t|);
      NothingBeforeLeftmost(ms, s, n, j, i - |t|);
    }
  }

  lemma NothingBeforeLeftmost(ms: seq<Marker>, s: string, n: nat, j: nat, i: nat)
    requires Leftmost(ms, s, |ms|).Some? && n == Leftmost(ms, s, |ms|).value.pos
    requires j < |ms| && ms[j].place.Anywhere? && i < n
    ensures !OccursAt(s, ms[j].text, i)
  {
    LeftmostIsLeftmost(ms, s, |ms|);
    assert Standing(ms, s, |ms|, j, i) == Stands(s, ms[j], i);
  }

  lemma {:induction false} CleanThen(ms: seq<Marker>, t: string, a: seq<Item>, b: seq<Item>)
    requires Clean(ms, t, a) && Clean(ms, Tail(t, a), b)
    ensures Clean(ms, t, a + b) && Tail(t, a + b) == Tail(Tail(t, a), b)
    decreases |a|
  {
    if a == [] {
      assert a + b == b;
    } else {
      assert (a + b)[1..] == a[1..] + b;
      CleanThen(ms, if a[0].Emitted? then t + a[0].seg.text else "", a[1..], b);
    }
  }

  lemma CleanEmit(ms: seq<Marker>, t: string, ph: Phase, s: string)
    requires NoTag(ms, t + s)
    ensures Clean(ms, t, Emit(ph, s)) && Tail(t, Emit(ph, s)) == t + s
  {
    if s == "" {
      assert t + s == t;
    } else {
      assert Emit(ph, s)[1..] == [];
    }
  }

  lemma CleanUpToMarker(ms: seq<Marker>, t: string, ph: Phase, s: string, m: Marker)
    requires NoTag(ms, t + s) && NoTag(ms, "")
    ensures Clean(ms, t, UpToMarker(ph, s, m)) && Tail(t, UpToMarker(ph, s, m)) == ""
  {
    CleanEmit(ms, t, ph, s);
    var one := [Removed(m)];
    assert one[1..] == [];
    assert Tail(t + s, one) == Tail("", one[1..]) == "";
    assert Clean(ms, "", one[1..]);
    assert Clean(ms, t + s, one);
    CleanThen(ms, t, Emit(ph, s), one);
  }

  /** A push leaves every stretch clean, the one it continues included. */
  lemma {:induction false} PushIsClean(ms: seq<Marker>, ph: Phase, s: string, t: string)
    requires Clear(ms, t, s)
    ensures var p := Push(ms, ph, s); Clean(ms, t, p.items) && Clear(ms, Tail(t, p.items), p.next.carry)
    decreases |s|
  {
    if s == "" {
      ClearIsNoTag(ms, t, s);
    } else {
      var hit := Leftmost(ms, s, |ms|);
      if hit.Some? {
        var m, rest := ms[hit.value.index], s[Behind(ms, hit.value)..];
        NoTagUpTo(ms, t, s, hit.value.pos);
        ClearIsNoTag(ms, "", "");
        CleanUpToMarker(ms, t, ph, s[..hit.value.pos], m);
        PushIsClean(ms, m.phase, rest, "");
        CleanThen(ms, t, UpToMarker(ph, s[..hit.value.pos], m), Push(ms, m.phase, rest).items);
        PushHit(ms, ph, s, hit.value);
      } else {
        var n := |s| - HeldBack(ms, s);
        LetGoIsClear(ms, t, s, n);
        ClearIsNoTag(ms, t + s[..n], s[n..]);
        CleanEmit(ms, t, ph, s[..n]);
        PushMiss(ms, ph, s);
      }
    }
  }

  lemma {:induction false} RunIsClean(ms: seq<Marker>, st: Splitter, texts: seq<string>, t: string)
    requires Clear(ms, t, st.carry)
    ensures Clean(ms, t, Run(ms, st, texts).items)
    decreases |texts|
  {
    if texts == [] {
      ClearIsNoTag(ms, t, st.carry);
    } else {
      var p := Step(ms, st, texts[0]);
      StepIsClean(ms, st, texts[0], t);
      RunIsClean(ms, p.next, texts[1..], Tail(t, p.items));
      CleanThen(ms, t, p.items, Run(ms, p.next, texts[1..]).items);
    }
  }

  lemma StepIsClean(ms: seq<Marker>, st: Splitter, text: string, t: string)
    requires Clear(ms, t, st.carry)
    ensures var p := Step(ms, st, text); Clean(ms, t, p.items) && Clear(ms, Tail(t, p.items), p.next.carry)
  {
    if text == "" {
      ClearIsNoTag(ms, t, st.carry);
    } else {
      ClearMore(ms, t, st.carry, text);
      PushIsClean(ms, st.phase, st.carry + text, t);
    }
  }

  lemma {:induction false} CleanStart(ms: seq<Marker>, t: string, es: seq<Item>)
    requires Clean(ms, t, es)
    ensures NoTag(ms, t)
    decreases |es|
  {
    if es != [] && es[0].Emitted? {
      CleanStart(ms, t + es[0].seg.text, es[1..]);
      assert "" + t + es[0].seg.text == t + es[0].seg.text;
      NoTagInside(ms, "", t, es[0].seg.text);
    }
  }

  /** Items `a` to `b` with no marker removed between them. */
  ghost predicate Stretch(es: seq<Item>, a: nat, b: nat) {
    a <= b <= |es| && forall k :: a <= k < b ==> es[k].Emitted?
  }

  lemma {:induction false} CleanFromStart(ms: seq<Marker>, t: string, es: seq<Item>, b: nat)
    requires Clean(ms, t, es) && Stretch(es, 0, b)
    ensures NoTag(ms, t + TextOf(es[..b]))
    decreases |es|
  {
    if b == 0 {
      CleanStart(ms, t, es);
      assert t + TextOf(es[..b]) == t;
    } else {
      CleanFromStart(ms, t + es[0].seg.text, es[1..], b - 1);
      assert es[..b][1..] == es[1..][..b - 1];
      assert t + es[0].seg.text + TextOf(es[1..][..b - 1]) == t + TextOf(es[..b]);
    }
  }

  lemma SliceOfRest(es: seq<Item>, a: nat, b: nat)
    requires 0 < a <= b <= |es|
    ensures es[a..b] == es[1..][a - 1..b - 1]
  {
    var x, y := es[a..b], es[1..][a - 1..b - 1];
    assert |x| == |y| && forall k :: 0 <= k < |x| ==> x[k] == es[a + k] == y[k];
  }

  lemma {:induction false} CleanStretch(ms: seq<Marker>, t: string, es: seq<Item>, a: nat, b: nat)
    requires Clean(ms, t, es) && Stretch(es, a, b)
    ensures NoTag(ms, TextOf(es[a..b]))
    decreases |es|
  {
    if a == 0 {
      CleanFromStart(ms, t, es, b);
      assert t + TextOf(es[..b]) == t + TextOf(es[..b]) + "";
      NoTagInside(ms, t, TextOf(es[..b]), "");
    } else {
      SliceOfRest(es, a, b);
      CleanStretch(ms, if es[0].Emitted? then t + es[0].seg.text else "", es[1..], a - 1, b - 1);
    }
  }

  /**
   * Over every run no tag is let through, whole or cut: the text of any items in a row with no marker removed
   * between them, put together, holds no tag.
   */
  lemma RunLetsNoTagThrough(ms: seq<Marker>, texts: seq<string>, a: nat, b: nat)
    requires Stretch(Run(ms, START, texts).items, a, b)
    ensures NoTag(ms, TextOf(Run(ms, START, texts).items[a..b]))
  {
    RunIsClean(ms, START, texts, "");
    CleanStretch(ms, "", Run(ms, START, texts).items, a, b);
  }

  // ---- What is carried is short

  /** Fewer characters than the longest marker has are ever carried, so no more are lost when a run ends. */
  lemma {:induction false} PushCarriesLittle(ms: seq<Marker>, ph: Phase, s: string)
    ensures var c := Push(ms, ph, s).next.carry; c == "" || |c| < MaxLen(ms, |ms|)
    decreases |s|
  {
    if s != "" && Leftmost(ms, s, |ms|).Some? {
      var h := Leftmost(ms, s, |ms|).value;
      PushCarriesLittle(ms, ms[h.index].phase, s[Behind(ms, h)..]);
    }
  }

  lemma {:induction false} RunCarriesLittle(ms: seq<Marker>, st: Splitter, texts: seq<string>)
    requires st.carry == "" || |st.carry| < MaxLen(ms, |ms|)
    ensures var c := Run(ms, st, texts).next.carry; c == "" || |c| < MaxLen(ms, |ms|)
    decreases |texts|
  {
    if texts != [] {
      if texts[0] != "" {
        PushCarriesLittle(ms, st.phase, st.carry + texts[0]);
      }
      RunCarriesLittle(ms, Step(ms, st, texts[0]).next, texts[1..]);
    }
  }

  /** With the markers of the program no more than 12 characters of a run are ever still carried at its end. */
  lemma LittleIsLost(texts: seq<string>)
    ensures |Run(MARKERS, START, texts).next.carry| <= 12
  {
    MarkersAreShort();
    RunCarriesLittle(MARKERS, START, texts);
  }

  // ---- What is left unsent

  /** No tail of `t + s` that reaches into `t` may begin a marker. */
  ghost predicate NoneReachesBack(ms: seq<Marker>, t: string, s: string) {
    forall l: nat :: |s| < l < MaxLen(ms, |ms|) ==> !Fits(ms, t + s, l, |ms|)
  }

  /** What is carried is the longest tail that may begin a marker, of all the text since the last removed marker. */
  ghost predicate CarriesLongest(ms: seq<Marker>, t: string, carry: string) { |carry| == HeldBack(ms, t + carry) }

  /** A tail that may begin a marker is one that may after its last characters are taken off. */
  lemma ShorterTailFits(x: string, u: string, m: string, l: nat)
    requires TailFits(x + u, m, l) && l >= |u|
    ensures TailFits(x, m, l - |u|)
  {
    var i := |x + u| - l;
    MatchesPrefix(x + u, i, m, l, l - |u|);
    MatchesElsewhere("", x, u, i, m, l - |u|);
    assert "" + x + u == x + u;
  }

  lemma {:induction false} ShorterFits(ms: seq<Marker>, x: string, u: string, l: nat, n: nat)
    requires n <= |ms| && Fits(ms, x + u, l, n) && l >= |u|
    ensures Fits(ms, x, l - |u|, n)
  {
    if TailFits(x + u, ms[n - 1].text, l) {
      ShorterTailFits(x, u, ms[n - 1].text, l);
    } else if TailFits(x + u, Line(ms[n - 1]), l) {
      ShorterTailFits(x, u, Line(ms[n - 1]), l);
    } else {
      ShorterFits(ms, x, u, l, n - 1);
    }
  }

  lemma {:induction false} FitsWithin(ms: seq<Marker>, s: string, l: nat, n: nat)
    requires n <= |ms| && Fits(ms, s, l, n)
    ensures l <= |s|
  {
    if !TailFits(s, ms[n - 1].text, l) && !TailFits(s, Line(ms[n - 1]), l) {
      FitsWithin(ms, s, l, n - 1);
    }
  }

  /** Nothing longer than what is held back fits. */
  lemma NothingLongerFits(ms: seq<Marker>, s: string, l: nat)
    requires HeldBack(ms, s) < l < MaxLen(ms, |ms|)
    ensures !Fits(ms, s, l, |ms|)
  {
    if Fits(ms, s, l, |ms|) {
      FitsWithin(ms, s, l, |ms|);
      HeldIsLongest(ms, s, MaxScan(ms, s), l);
    }
  }

  /** More text after a longest carry: still nothing reaches back behind the carry. */
  lemma StillNoneReachesBack(ms: seq<Marker>, t: string, carry: string, text: string)
    requires CarriesLongest(ms, t, carry)
    ensures NoneReachesBack(ms, t, carry + text)
  {
    forall l: nat | |carry + text| < l < MaxLen(ms, |ms|) ensures !Fits(ms, t + (carry + text), l, |ms|) {
      assert t + (carry + text) == t + carry + text;
      if Fits(ms, t + (carry + text), l, |ms|) {
        ShorterFits(ms, t + carry, text, l, |ms|);
        NothingLongerFits(ms, t + carry, l - |text|);
      }
    }
  }

  lemma {:induction false} HeldDown(ms: seq<Marker>, s: string, k: nat, l: nat)
    requires k <= l && forall j: nat :: k < j <= l ==> !Fits(ms, s, j, |ms|)
    ensures Held(ms, s, l) == Held(ms, s, k)
  {
    if k < l {
      HeldDown(ms, s, k, l - 1);
    }
  }

  lemma {:induction false} HeldInSuffix(ms: seq<Marker>, t: string, s: string, l: nat)
    requires l <= |s|
    ensures Held(ms, t + s, l) == Held(ms, s, l)
  {
    if l > 0 {
      HeldInSuffix(ms, t, s, l - 1);
      FitsInSuffix(ms, t + s, l, |ms|);
      FitsInSuffix(ms, s, l, |ms|);
      assert (t + s)[|t + s| - l..] == s[|s| - l..];
    }
  }

  /** So the longest tail of all the text is the longest tail of the text in hand. */
  lemma SameHeldBack(ms: seq<Marker>, t: string, s: string)
    requires NoneReachesBack(ms, t, s)
    ensures HeldBack(ms, t + s) == HeldBack(ms, s)
  {
    HeldDown(ms, t + s, MaxScan(ms, s), MaxScan(ms, t + s));
    HeldInSuffix(ms, t, s, MaxScan(ms, s));
  }

  lemma NothingBeforeReachesBack(ms: seq<Marker>, s: string)
    ensures NoneReachesBack(ms, "", s)
  {
    assert "" + s == s;
    forall l: nat | |s| < l < MaxLen(ms, |ms|) ensures !Fits(ms, "" + s, l, |ms|) {
      if Fits(ms, s, l, |ms|) {
        FitsWithin(ms, s, l, |ms|);
      }
    }
  }

  lemma TailAfterMarker(t: string, ph: Phase, s: string, m: Marker, rest: seq<Item>)
    ensures Tail(t, UpToMarker(ph, s, m) + rest) == Tail("", rest)
  {
    TailConcat(t, UpToMarker(ph, s, m), rest);
    TailConcat(t, Emit(ph, s), [Removed(m)]);
    assert [Removed(m)][1..] == [];
  }

  lemma {:induction false} TailConcat(t: string, a: seq<Item>, b: seq<Item>)
    ensures Tail(t, a + b) == Tail(Tail(t, a), b)
    decreases |a|
  {
    if a == [] {
      assert a + b == b;
    } else {
      assert (a + b)[1..] == a[1..] + b;
      TailConcat(if a[0].Emitted? then t + a[0].seg.text else "", a[1..], b);
    }
  }

  lemma TailEmit(t: string, ph: Phase, s: string)
    ensures Tail(t, Emit(ph, s)) == t + s
  {
    if s == "" {
      assert t + s == t;
    } else {
      assert Emit(ph, s)[1..] == [];
    }
  }

  lemma {:induction false} PushCarriesLongest(ms: seq<Marker>, ph: Phase, s: string, t: string)
    requires NoneReachesBack(ms, t, s)
    ensures var p := Push(ms, ph, s); CarriesLongest(ms, Tail(t, p.items), p.next.carry)
    decreases |s|
  {
    if s == "" {
      SameHeldBack(ms, t, s);
    } else {
      var hit := Leftmost(ms, s, |ms|);
      if hit.Some? {
        var m, rest := ms[hit.value.index], s[Behind(ms, hit.value)..];
        NothingBeforeReachesBack(ms, rest);
        PushCarriesLongest(ms, m.phase, rest, "");
        PushHit(ms, ph, s, hit.value);
        TailAfterMarker(t, ph, s[..hit.value.pos], m, Push(ms, m.phase, rest).items);
      } else {
        var n := |s| - HeldBack(ms, s);
        SameHeldBack(ms, t, s);
        PushMiss(ms, ph, s);
        TailEmit(t, ph, s[..n]);
        assert t + s[..n] + s[n..] == t + s;
      }
    }
  }

  lemma {:induction false} RunCarriesLongest(ms: seq<Marker>, st: Splitter, texts: seq<string>, t: string)
    requires CarriesLongest(ms, t, st.carry)
    ensures var p := Run(ms, st, texts); CarriesLongest(ms, Tail(t, p.items), p.next.carry)
    decreases |texts|
  {
    if texts != [] {
      var p := Step(ms, st, texts[0]);
      if texts[0] != "" {
        StillNoneReachesBack(ms, t, st.carry, texts[0]);
        PushCarriesLongest(ms, st.phase, st.carry + texts[0], t);
      }
      RunCarriesLongest(ms, p.next, texts[1..], Tail(t, p.items));
      TailConcat(t, p.items, Run(ms, p.next, texts[1..]).items);
    }
  }

  /** The first item behind the last removed marker. */
  ghost function LastCut(es: seq<Item>): (b: nat)
    ensures b <= |es| && Stretch(es, b, |es|) && (b == 0 || es[b - 1].Removed?)
    decreases |es|
  {
    if es == [] || es[|es| - 1].Removed? then |es|
    else LastCut(es[..|es| - 1])
  }

  /** The phase at the end is that of the last removed marker. */
  lemma {:induction false} PhasedEnd(ms: seq<Marker>, ph: Phase, es: seq<Item>, end: Phase)
    requires Phased(ms, ph, es, end)
    ensures end == var b := LastCut(es); if b == 0 then ph else es[b - 1].marker.phase
    decreases |es|
  {
    if es != [] {
      var rest := es[1..];
      PhasedEnd(ms, if es[0].Emitted? then ph else es[0].marker.phase, rest, end);
      CutOfRest(es);
    }
  }

  lemma CutOfRest(es: seq<Item>)
    requires es != []
    ensures var b := LastCut(es[1..]); LastCut(es) == if b > 0 then b + 1 else if es[0].Removed? then 1 else 0
  {
    var b, c := LastCut(es[1..]), LastCut(es);
    assert forall k :: 1 <= k < |es| ==> es[1..][k - 1] == es[k];
    assert b > 0 ==> es[b].Removed?;
  }

  /** The text since the last removed marker: what was emitted of it and what is carried. */
  ghost function SinceMarker(p: Pushed): string { Tail("", p.items) + p.next.carry }

  /** It is the end of the text fed in, from the last removed marker on. */
  lemma SinceMarkerIsTheEnd(ms: seq<Marker>, texts: seq<string>)
    ensures var p := Run(ms, START, texts);
      Joined(texts) == TextOf(p.items[..LastCut(p.items)]) + SinceMarker(p)
  {
    RunKeepsText(ms, START, texts);
    assert "" + Joined(texts) == Joined(texts);
    EndOfPush(Run(ms, START, texts));
  }

  lemma EndOfPush(p: Pushed)
    ensures TextOf(p.items) + p.next.carry == TextOf(p.items[..LastCut(p.items)]) + SinceMarker(p)
  {
    var b := LastCut(p.items);
    assert p.items[..b] + p.items[b..] == p.items;
    FlatMapConcat(ItemText, p.items[..b], p.items[b..]);
    TailFromCut(p.items, b);
    Assoc(TextOf(p.items[..b]), TextOf(p.items[b..]), p.next.carry);
  }

  lemma TailFromCut(es: seq<Item>, b: nat)
    requires Stretch(es, b, |es|) && (b == 0 || es[b - 1].Removed?)
    ensures Tail("", es) == TextOf(es[b..])
  {
    assert es == es[..b] + es[b..];
    TailConcat("", es[..b], es[b..]);
    TailOfStretch("", es[b..]);
    if b > 0 {
      assert es[..b] == es[..b - 1] + [es[b - 1]];
      TailConcat("", es[..b - 1], [es[b - 1]]);
      assert [es[b - 1]][1..] == [];
    }
  }

  lemma {:induction false} TailOfStretch(t: string, es: seq<Item>)
    requires Stretch(es, 0, |es|)
    ensures Tail(t, es) == t + TextOf(es)
    decreases |es|
  {
    if es == [] {
      assert t + TextOf(es) == t;
    } else {
      TailOfStretch(t + es[0].seg.text, es[1..]);
      Assoc(t, es[0].seg.text, TextOf(es[1..]));
    }
  }

  /** The last `l` characters, fewer than the longest marker has, begin a marker or a newline and a marker. */
  ghost predicate MayBegin(ms: seq<Marker>, s: string, l: nat) { 0 < l < MaxLen(ms, |ms|) && Fits(ms, s, l, |ms|) }

  /**
   * Exactly what is left unsent at the end of every run: of the text since the last removed marker the longest tail,
   * shorter than the longest marker, that begins a marker or a newline and a marker. So nothing is left if and only if
   * no such tail does.
   */
  lemma WhatIsLeft(ms: seq<Marker>, texts: seq<string>)
    ensures var p := Run(ms, START, texts);
      var last := SinceMarker(p);
      && p.next.carry == last[|last| - HeldBack(ms, last)..]
      && (p.next.carry == "" <==> forall l: nat :: !MayBegin(ms, last, l))
  {
    StartCarriesLongest(ms);
    RunCarriesLongest(ms, START, texts, "");
    LeftByPush(ms, Run(ms, START, texts));
  }

  lemma StartCarriesLongest(ms: seq<Marker>)
    ensures CarriesLongest(ms, "", "")
  {
    NothingBeforeReachesBack(ms, "");
    SameHeldBack(ms, "", "");
  }

  lemma LeftByPush(ms: seq<Marker>, p: Pushed)
    requires CarriesLongest(ms, Tail("", p.items), p.next.carry)
    ensures var last := SinceMarker(p);
      && p.next.carry == last[|last| - HeldBack(ms, last)..]
      && (p.next.carry == "" <==> forall l: nat :: !MayBegin(ms, last, l))
  {
    LongestIsEnd(ms, Tail("", p.items), p.next.carry);
    NoneIsHeldIff(ms, SinceMarker(p));
  }

  lemma LongestIsEnd(ms: seq<Marker>, t: string, carry: string)
    requires CarriesLongest(ms, t, carry)
    ensures var last := t + carry; carry == last[|last| - HeldBack(ms, last)..]
  {
  }

  lemma NoneIsHeldIff(ms: seq<Marker>, s: string)
    ensures HeldBack(ms, s) == 0 <==> forall l: nat :: !MayBegin(ms, s, l)
  {
    if HeldBack(ms, s) == 0 {
      forall l: nat ensures !MayBegin(ms, s, l) {
        if 0 < l < MaxLen(ms, |ms|) {
          NothingLongerFits(ms, s, l);
        }
      }
    } else {
      HeldFits(ms, s, MaxScan(ms, s));
      assert MayBegin(ms, s, HeldBack(ms, s));
    }
  }

  lemma {:induction false} HeldFits(ms: seq<Marker>, s: string, l: nat)
    ensures Held(ms, s, l) > 0 ==> Fits(ms, s, Held(ms, s, l), |ms|)
  {
    if l > 0 && !Fits(ms, s, l, |ms|) {
      HeldFits(ms, s, l - 1);
    }
  }
}
