/** Inference tasks in which text stays unsent, and in which a chunk number is used twice. */
module TaskExamples {
  import opened Options
  import opened Seqs
  import opened TextSearch
  import opened PhaseSplit
  import opened PhaseStream
  import opened ChunkSend
  import opened InferenceRun

  // ---- Texts without markers

  ghost predicate NoneOccurs(ms: seq<Marker>, s: string) {
    forall j: nat, i: nat :: j < |ms| ==> !OccursAt(s, ms[j].text, i)
  }

  lemma NoneOccursConcat(a: seq<Marker>, b: seq<Marker>, s: string)
    requires NoneOccurs(a, s) && NoneOccurs(b, s)
    ensures NoneOccurs(a + b, s)
  {
    forall j: nat, i: nat | j < |a + b| ensures !OccursAt(s, (a + b)[j].text, i) {
      if j >= |a| {
        assert (a + b)[j] == b[j - |a|];
      }
    }
  }

  lemma NoneOfAll(s: string)
    requires NoneOccurs(OPENING_TAGS, s) && NoneOccurs(CLOSING_TAGS, s)
    requires NoneOccurs(FINAL_HEADINGS, s) && NoneOccurs(ANALYSIS_HEADINGS, s) && NoneOccurs(ANSWER_HEADINGS, s)
    ensures NoneOccurs(MARKERS, s)
  {
    NoneOccursConcat(OPENING_TAGS, CLOSING_TAGS, s);
    NoneOccursConcat(OPENING_TAGS + CLOSING_TAGS, FINAL_HEADINGS, s);
    NoneOccursConcat(OPENING_TAGS + CLOSING_TAGS + FINAL_HEADINGS, ANALYSIS_HEADINGS, s);
    NoneOccursConcat(OPENING_TAGS + CLOSING_TAGS + FINAL_HEADINGS + ANALYSIS_HEADINGS, ANSWER_HEADINGS, s);
  }

  lemma NoneIsFound(ms: seq<Marker>, s: string)
    requires NoneOccurs(ms, s)
    ensures Leftmost(ms, s, |ms|) == None
  {
    forall j: nat, i: nat ensures !Standing(ms, s, |ms|, j, i) {
    }
    LeftmostIsLeftmost(ms, s, |ms|);
  }

  /** A text does not hold what has a character that it does not have. */
  lemma Lacks(s: string, m: string, k: nat)
    requires k < |m| && m[k] !in s
    ensures forall i: nat :: !OccursAt(s, m, i)
  {
    forall i: nat ensures !OccursAt(s, m, i) {
      if OccursAt(s, m, i) {
        HasAll(s, m, i, k);
      }
    }
  }

  lemma HasAll(s: string, m: string, i: nat, k: nat)
    requires OccursAt(s, m, i) && k < |m|
    ensures m[k] in s
  {
    OccurrenceText(s, m, i);
    assert s[i + k] == s[i..i + |m|][k];
  }

  lemma TooLong(s: string, m: string)
    requires |s| < |m|
    ensures forall i: nat :: !OccursAt(s, m, i)
  {
  }

  // ---- Twelve characters that are never sent

  const CUT: string := "### Reasonin"

  lemma NoTagInCut()
    ensures NoneOccurs(OPENING_TAGS, CUT) && NoneOccurs(CLOSING_TAGS, CUT)
  {
    forall j: nat | j < 4 ensures forall i: nat :: !OccursAt(CUT, OPENING_TAGS[j].text, i) {
      Lacks(CUT, OPENING_TAGS[j].text, 0);
    }
    forall j: nat | j < 4 ensures forall i: nat :: !OccursAt(CUT, CLOSING_TAGS[j].text, i) {
      Lacks(CUT, CLOSING_TAGS[j].text, 0);
    }
  }

  lemma NoHeadingInCut()
    ensures NoneOccurs(FINAL_HEADINGS, CUT)
  {
    Lacks(CUT, "### Final", 4);
    Lacks(CUT, "Final:", 0);
    Lacks(CUT, "final:", 0);
    Lacks(CUT, "final", 0);
    Lacks(CUT, "### Answer", 4);
  }

  lemma NoAnswerInCut()
    ensures NoneOccurs(ANSWER_HEADINGS, CUT)
  {
    Lacks(CUT, "### Answer", 4);
    Lacks(CUT, "Answer:", 0);
  }

  lemma NoAnalysisInCut()
    ensures NoneOccurs(ANALYSIS_HEADINGS, CUT)
  {
    TooLong(CUT, "### Reasoning");
    Lacks(CUT, "Reasoning:", 9);
    Lacks(CUT, "Analysis:", 0);
    Lacks(CUT, "analysis:", 8);
    Lacks(CUT, "analysis", 4);
  }

  lemma CutIsHeld()
    ensures HeldBack(MARKERS, CUT) == 12
  {
    assert |MARKERS| == 20 && MARKERS[13] == ANALYSIS_HEADINGS[0];
    var m := MARKERS[13].text;
    assert m == "### Reasoning" && |m| == 13;
    MaxLenIsMax(MARKERS, |MARKERS|, 13);
    MarkersAreShort();
    MatchesIsEquality(CUT, 0, m, 12);
    assert CUT[0..12] == m[..12];
    assert TailFits(CUT, m, 12);
    FitsAny(MARKERS, CUT, 12, |MARKERS|, 13);
  }

  /** The bound on what is carried at the end is attained: of this text nothing is ever emitted. */
  lemma TwelveAreLost()
    ensures Run(MARKERS, START, [CUT]) == Pushed([], Splitter(Final, CUT)) && |CUT| == 12
  {
    NoTagInCut();
    NoHeadingInCut();
    NoAnswerInCut();
    NoAnalysisInCut();
    NoneOfAll(CUT);
    NoneIsFound(MARKERS, CUT);
    CutIsHeld();
    PushOnly(MARKERS, CUT);
    PushMiss(MARKERS, Final, CUT);
  }

  /** A run of one push from the start. */
  lemma PushOnly(ms: seq<Marker>, s: string)
    requires s != ""
    ensures Run(ms, START, [s]) == Push(ms, Final, s)
  {
    assert "" + s == s;
    var p := Push(ms, Final, s);
    assert Run(ms, START, [s]) == PhaseStream.After(p.items, Run(ms, p.next, [s][1..]));
    assert p.items + [] == p.items;
  }

  // ---- Two chunks with one number

  const PLAIN: string := "xxxxxxxx"

  ghost predicate NotX(ms: seq<Marker>) { forall j :: 0 <= j < |ms| ==> ms[j].text[0] != 'x' }

  lemma MarkersAreNotX()
    ensures NotX(MARKERS)
  {
    assert NotX(OPENING_TAGS) && NotX(CLOSING_TAGS);
    assert NotX(FINAL_HEADINGS) && NotX(ANALYSIS_HEADINGS) && NotX(ANSWER_HEADINGS);
    NotXConcat(OPENING_TAGS, CLOSING_TAGS);
    NotXConcat(OPENING_TAGS + CLOSING_TAGS, FINAL_HEADINGS);
    NotXConcat(OPENING_TAGS + CLOSING_TAGS + FINAL_HEADINGS, ANALYSIS_HEADINGS);
    NotXConcat(OPENING_TAGS + CLOSING_TAGS + FINAL_HEADINGS + ANALYSIS_HEADINGS, ANSWER_HEADINGS);
  }

  lemma NotXConcat(a: seq<Marker>, b: seq<Marker>)
    requires NotX(a) && NotX(b)
    ensures NotX(a + b)
  {
  }

  ghost predicate AllX(s: string) { forall i :: 0 <= i < |s| ==> s[i] == 'x' }

  lemma {:induction false} FirstMatches(s: string, i: nat, m: string, n: nat)
    requires 0 < n <= |m| && i + n <= |s| && Matches(s, i, m, n)
    ensures s[i] == m[0]
  {
    if n > 1 {
      FirstMatches(s, i, m, n - 1);
    }
  }

  lemma {:induction false} NothingFits(ms: seq<Marker>, s: string, l: nat, n: nat)
    requires NotX(ms) && AllX(s) && 0 < l <= |s| && n <= |ms|
    ensures !Fits(ms, s, l, n)
  {
    if n > 0 {
      NothingFits(ms, s, l, n - 1);
      if TailFits(s, ms[n - 1].text, l) {
        FirstMatches(s, |s| - l, ms[n - 1].text, l);
      }
      if TailFits(s, Line(ms[n - 1]), l) {
        FirstMatches(s, |s| - l, Line(ms[n - 1]), l);
      }
    }
  }

  lemma {:induction false} NothingHeld(ms: seq<Marker>, s: string, l: nat)
    requires NotX(ms) && AllX(s) && l <= |s|
    ensures Held(ms, s, l) == 0
  {
    if l > 0 {
      NothingFits(ms, s, l, |ms|);
      NothingHeld(ms, s, l - 1);
    }
  }

  lemma PlainIsEmitted(ms: seq<Marker>, s: string)
    requires NotX(ms) && AllX(s) && s != ""
    ensures Push(ms, Final, s) == Pushed([Emitted(Segment(Final, s))], Splitter(Final, ""))
  {
    forall j: nat, i: nat | j < |ms| ensures !OccursAt(s, ms[j].text, i) {
      Lacks(s, ms[j].text, 0);
    }
    NoneIsFound(ms, s);
    NothingHeld(ms, s, MaxScan(ms, s));
    PushMiss(ms, Final, s);
    assert s[..|s|] == s && s[|s|..] == "";
  }

  lemma PlainIsKept(s: string, ms: seq<NonEmpty>)
    requires AllX(s) && forall i :: 0 <= i < |ms| ==> ms[i][0] != 'x'
    ensures Cleaned(s, ms) == s
  {
    forall i | 0 <= i < |ms| ensures Find(s, ms[i]) == None {
      Lacks(s, ms[i], 0);
      FindFromIsFirst(s, ms[i], 0);
    }
    CleanedUnchanged(s, ms);
  }

  lemma {:induction false} BytesOfX(s: string)
    requires AllX(s)
    ensures ByteLen(s) == |s|
  {
    if s != "" {
      BytesOfX(s[..|s| - 1]);
    }
  }

  const TOKEN := Call(Str(PLAIN), false)

  lemma TextIsTaken(g: Setup, st: Callback, text: string)
    requires text != ""
    ensures AfterCalls(g, st, [Call(Str(text), false)]) == Take(g, st, text)
  {
    var c := Call(Str(text), false);
    assert AfterCalls(g, st, [c]) == AfterCalls(g, OnToken(g, st, c), [c][1..]);
  }

  lemma PlainIsSent(g: Setup, text: string)
    requires NotX(g.markers) && Filter(g, text) == text && AllX(text) && |text| >= MAX_BYTES
    ensures var o := Take(g, FRESH, text).out; |o.sent| == 1 && o.sent[0].seqNo == 0 && o.sent[0].delta == text
  {
    var seg := Segment(Final, text);
    PlainIsEmitted(g.markers, text);
    assert "" + text == text;
    FlatMapOne(ItemSegments, Emitted(seg));
    TakeAdds(g, FRESH, text, [seg]);
    BytesOfX(text);
    OneSegmentIsSent(CountCompletion(FIRST), seg);
  }

  lemma OneSegmentIsSent(o: Sender, seg: Segment)
    requires o.buf == "" && o.sent == [] && o.seqNo == 0 && ByteLen(seg.text) >= MAX_BYTES
    ensures var o' := AddAll(o, [seg]); |o'.sent| == 1 && o'.sent[0].seqNo == 0 && o'.sent[0].delta == seg.text
  {
    assert [seg][..0] == [];
    assert AddAll(o, [seg]) == Add(AddAll(o, []), seg);
    assert "" + seg.text == seg.text;
  }

  /** A task that fails after sending one chunk: both of its chunks are numbered 0. */
  lemma NumberUsedTwice(rc: int)
    requires rc < 0
    ensures var cs := Closed(AfterCalls(PROGRAM, FRESH, [TOKEN]), rc);
      |cs| == 2 && cs[0].seqNo == 0 && cs[1].seqNo == 0 && cs[0].delta == PLAIN && cs[1].done
  {
    PlainIsKept(PLAIN, CONTROL_TOKENS);
    MarkersAreNotX();
    PlainIsSent(PROGRAM, PLAIN);
    TextIsTaken(PROGRAM, FRESH, PLAIN);
  }
}
