/**
 * Splitting generated text into analysis and final answer at any of many markers, over tokens whose boundaries
 * may fall anywhere. Text is a sequence of Unicode scalar values; all markers are ASCII, so a tail that could
 * begin a marker has as many bytes as characters and begins at a character boundary.
 */
module PhaseSplit {
  import opened Options
  import opened TextSearch

  datatype Phase = Unknown | Analysis | Final

  /** A tag counts wherever it stands, a word only where a line begins; a bare word must not go on as a longer one. */
  datatype Place = Anywhere | LineStart | LineStartBare

  datatype AnyMarker = AnyMarker(text: string, phase: Phase, place: Place)

  type Marker = m: AnyMarker | m.text != "" witness AnyMarker("<", Final, Anywhere)

  const OPENING_TAGS: seq<Marker> := [
    AnyMarker("<analysis>", Analysis, Anywhere), AnyMarker("<think>", Analysis, Anywhere),
    AnyMarker("<reasoning>", Analysis, Anywhere), AnyMarker("<final>", Final, Anywhere)]

  const CLOSING_TAGS: seq<Marker> := [
    AnyMarker("</analysis>", Final, Anywhere), AnyMarker("</think>", Final, Anywhere),
    AnyMarker("</reasoning>", Final, Anywhere), AnyMarker("</final>", Final, Anywhere)]

  const FINAL_HEADINGS: seq<Marker> := [
    AnyMarker("### Final", Final, LineStart), AnyMarker("Final:", Final, LineStart),
    AnyMarker("final:", Final, LineStart), AnyMarker("final", Final, LineStartBare),
    AnyMarker("### Answer", Final, LineStart)]

  const ANALYSIS_HEADINGS: seq<Marker> := [
    AnyMarker("### Reasoning", Analysis, LineStart), AnyMarker("Reasoning:", Analysis, LineStart),
    AnyMarker("Analysis:", Analysis, LineStart), AnyMarker("analysis:", Analysis, LineStart),
    AnyMarker("analysis", Analysis, LineStartBare)]

  const ANSWER_HEADINGS: seq<Marker> := [
    AnyMarker("### Answer", Final, LineStart), AnyMarker("Answer:", Final, LineStart)]

  const MARKERS: seq<Marker> := OPENING_TAGS + CLOSING_TAGS + FINAL_HEADINGS + ANALYSIS_HEADINGS + ANSWER_HEADINGS

  // ---- Finding the next marker

  predicate EndsWord(c: char) { c == ' ' || c == '\n' || c == '\r' || c == '\t' || c == ':' }

  /** A word counts at the very start of the text in hand. Only there is it asked what follows a bare word. */
  predicate StandsFirst(s: string, m: Marker) {
    && !m.place.Anywhere? && OccursAt(s, m.text, 0)
    && (m.place.LineStartBare? && |s| > |m.text| ==> EndsWord(s[|m.text|]))
  }

  /** Marker `m` stands in `s` at `i`. */
  predicate Stands(s: string, m: Marker, i: nat) {
    if m.place.Anywhere? then OccursAt(s, m.text, i)
    else if i == 0 then StandsFirst(s, m)
    else i <= |s| && s[i - 1] == '\n' && OccursAt(s, m.text, i)
  }

  /**
   * Where a marker counts, in plain words: a tag wherever it is written; a heading at the start of the text or behind a
   * newline; and at the start of the text a bare word only if the text ends with it or a space, a line end, a tab or a
   * colon follows, so that `finally` is no heading.
   */
  lemma StandsExactly(s: string, m: Marker, i: nat)
    ensures Stands(s, m, i) <==>
      && i + |m.text| <= |s| && s[i..i + |m.text|] == m.text
      && (|| m.place.Anywhere?
          || (i > 0 && s[i - 1] == '\n')
          || (i == 0 && (m.place.LineStartBare? && |s| > |m.text| ==> s[|m.text|] in " \n\r\t:")))
  {
    if i + |m.text| <= |s| {
      MatchesIsEquality(s, i, m.text, |m.text|);
      assert m.text[..|m.text|] == m.text;
    }
  }

  function Line(m: Marker): (t: string)
    ensures |t| == 1 + |m.text|
  {
    "\n" + m.text
  }

  lemma {:induction false} MatchesAfterNewline(s: string, i: nat, t: string, n: nat)
    requires i + 1 + n <= |s| && n <= |t|
    ensures Matches(s, i, "\n" + t, n + 1) <==> s[i] == '\n' && Matches(s, i + 1, t, n)
  {
    if n > 0 {
      MatchesAfterNewline(s, i, t, n - 1);
    } else {
      assert Matches(s, i, "\n" + t, 0);
    }
  }

  /** Looking for a newline and a word finds the word at the start of a line other than the first. */
  lemma LineOccurs(s: string, m: Marker, i: nat)
    ensures OccursAt(s, Line(m), i) <==> i < |s| && s[i] == '\n' && OccursAt(s, m.text, i + 1)
  {
    if i + 1 + |m.text| <= |s| {
      MatchesAfterNewline(s, i, m.text, |m.text|);
    }
  }

  /** The first place where `m` stands. */
  function Where(s: string, m: Marker): (r: Option<nat>)
    ensures r.Some? ==> r.value + |m.text| <= |s|
  {
    if m.place.Anywhere? then Find(s, m.text)
    else if StandsFirst(s, m) then Some(0)
    else
      match Find(s, Line(m))
      case Some(i) => Some(i + 1)
      case None => None
  }

  lemma WhereIsFirst(s: string, m: Marker)
    ensures var r := Where(s, m);
      && (r.Some? ==> Stands(s, m, r.value) && forall i: nat :: Stands(s, m, i) ==> r.value <= i)
      && (r == None ==> forall i: nat :: !Stands(s, m, i))
  {
    if m.place.Anywhere? {
      FindFromIsFirst(s, m.text, 0);
    } else {
      FindFromIsFirst(s, Line(m), 0);
      forall i: nat | Stands(s, m, i) && i > 0 ensures OccursAt(s, Line(m), i - 1) {
        LineOccurs(s, m, i - 1);
      }
      if Find(s, Line(m)).Some? {
        LineOccurs(s, m, Find(s, Line(m)).value);
      }
    }
  }

  /** A marker found: its place in the text and its number in the list. */
  datatype Hit = Hit(pos: nat, index: nat)

  function Better(best: Option<Hit>, cand: Option<Hit>): Option<Hit> {
    if best == None || (cand.Some? && cand.value.pos < best.value.pos) then cand else best
  }

  function HitAt(w: Option<nat>, index: nat): Option<Hit> { if w == None then None else Some(Hit(w.value, index)) }

  /** The best hit among the first `n` markers: the leftmost, and of several there the first of the list. */
  function Leftmost(ms: seq<Marker>, s: string, n: nat): (r: Option<Hit>)
    requires n <= |ms|
    ensures r.Some? ==> r.value.index < n && r.value.pos + |ms[r.value.index].text| <= |s|
  {
    if n == 0 then None else Better(Leftmost(ms, s, n - 1), HitAt(Where(s, ms[n - 1]), n - 1))
  }

  ghost predicate Standing(ms: seq<Marker>, s: string, n: nat, j: nat, i: nat)
    requires n <= |ms|
  {
    j < n && Stands(s, ms[j], i)
  }

  /** `next_marker` finds a marker if one stands anywhere, and then the leftmost, ties going to the earlier in the list. */
  lemma {:induction false} LeftmostIsLeftmost(ms: seq<Marker>, s: string, n: nat)
    requires n <= |ms|
    ensures var r := Leftmost(ms, s, n);
      && (r == None ==> forall j: nat, i: nat :: !Standing(ms, s, n, j, i))
      && (r.Some? ==> Standing(ms, s, n, r.value.index, r.value.pos))
      && (r.Some? ==> forall j: nat, i: nat :: Standing(ms, s, n, j, i) ==>
                        r.value.pos < i || (r.value.pos == i && r.value.index <= j))
  {
    if n > 0 {
      LeftmostIsLeftmost(ms, s, n - 1);
      WhereIsFirst(s, ms[n - 1]);
      forall j: nat, i: nat | Standing(ms, s, n, j, i)
        ensures j == n - 1 || Standing(ms, s, n - 1, j, i)
      {
      }
    }
  }

  method NextMarker(ms: seq<Marker>, rest: string) returns (best: Option<Hit>)
    ensures best == Leftmost(ms, rest, |ms|)
  {
    best := None;
    for j := 0 to |ms|
      invariant best == Leftmost(ms, rest, j)
    {
      var m := ms[j];
      if m.place.Anywhere? {
        best := Better(best, HitAt(Find(rest, m.text), j));
      } else {
        if StandsFirst(rest, m) {
          best := Better(best, Some(Hit(0, j)));
        }
        var line := Find(rest, Line(m));
        if line.Some? {
          best := Better(best, Some(Hit(line.value + 1, j)));
        }
      }
    }
  }

  // ---- Holding back a tail

  function MaxLen(ms: seq<Marker>, n: nat): (l: nat)
    requires n <= |ms|
  {
    if n == 0 then 0 else
      var l := MaxLen(ms, n - 1);
      if |ms[n - 1].text| > l then |ms[n - 1].text| else l
  }

  lemma {:induction false} MaxLenIsMax(ms: seq<Marker>, n: nat, j: nat)
    requires j < n <= |ms|
    ensures |ms[j].text| <= MaxLen(ms, n)
  {
    if j < n - 1 {
      MaxLenIsMax(ms, n - 1, j);
    }
  }

  lemma {:induction false} MaxLenWithin(ms: seq<Marker>, n: nat, b: nat)
    requires n <= |ms| && forall j :: 0 <= j < n ==> |ms[j].text| <= b
    ensures MaxLen(ms, n) <= b
  {
    if n > 0 {
      MaxLenWithin(ms, n - 1, b);
    }
  }

  ghost predicate Short(ms: seq<Marker>) { forall j :: 0 <= j < |ms| ==> |ms[j].text| <= 13 }

  /** No marker of the program is longer than 13 characters. */
  lemma MarkersAreShort()
    ensures MaxLen(MARKERS, |MARKERS|) <= 13
  {
    assert Short(OPENING_TAGS);
    assert Short(CLOSING_TAGS);
    assert Short(FINAL_HEADINGS);
    assert Short(ANALYSIS_HEADINGS);
    assert Short(ANSWER_HEADINGS);
    ShortConcat(OPENING_TAGS, CLOSING_TAGS);
    ShortConcat(OPENING_TAGS + CLOSING_TAGS, FINAL_HEADINGS);
    ShortConcat(OPENING_TAGS + CLOSING_TAGS + FINAL_HEADINGS, ANALYSIS_HEADINGS);
    ShortConcat(OPENING_TAGS + CLOSING_TAGS + FINAL_HEADINGS + ANALYSIS_HEADINGS, ANSWER_HEADINGS);
    MaxLenWithin(MARKERS, |MARKERS|, 13);
  }

  lemma ShortConcat(a: seq<Marker>, b: seq<Marker>)
    requires Short(a) && Short(b)
    ensures Short(a + b)
  {
  }

  /** The last `l` characters begin one of the first `n` markers, or a newline and one of them. */
  predicate Fits(ms: seq<Marker>, s: string, l: nat, n: nat)
    requires n <= |ms|
  {
    n > 0 && (TailFits(s, ms[n - 1].text, l) || TailFits(s, Line(ms[n - 1]), l) || Fits(ms, s, l, n - 1))
  }

  lemma {:induction false} FitsAny(ms: seq<Marker>, s: string, l: nat, n: nat, j: nat)
    requires j < n <= |ms| && (TailFits(s, ms[j].text, l) || TailFits(s, Line(ms[j]), l))
    ensures Fits(ms, s, l, n)
  {
    if j < n - 1 {
      FitsAny(ms, s, l, n - 1, j);
    }
  }

  /** In plain words: the text ends with the first `l` characters of a marker, or of a newline and a marker. */
  lemma {:induction false} FitsExactly(ms: seq<Marker>, s: string, l: nat, n: nat)
    requires n <= |ms|
    ensures Fits(ms, s, l, n) <==> exists j: nat :: j < n && (EndsWithStart(s, ms[j].text, l) || EndsWithStart(s, "\n" + ms[j].text, l))
  {
    if n > 0 {
      FitsExactly(ms, s, l, n - 1);
      TailFitsExactly(s, ms[n - 1].text, l);
      TailFitsExactly(s, Line(ms[n - 1]), l);
    }
  }

  predicate EndsWithStart(s: string, t: string, l: nat) { l <= |s| && l <= |t| && s[|s| - l..] == t[..l] }

  lemma TailFitsExactly(s: string, t: string, l: nat)
    ensures TailFits(s, t, l) <==> EndsWithStart(s, t, l)
  {
    if l <= |s| && l <= |t| {
      MatchesIsEquality(s, |s| - l, t, l);
      assert s[|s| - l..|s|] == s[|s| - l..];
    }
  }

  /** The length of the longest tail, of at most `l` characters, that may begin a marker. */
  function Held(ms: seq<Marker>, s: string, l: nat): (c: nat)
    ensures c <= l
  {
    if l == 0 || Fits(ms, s, l, |ms|) then l else Held(ms, s, l - 1)
  }

  lemma {:induction false} HeldIsLongest(ms: seq<Marker>, s: string, l: nat, k: nat)
    requires k <= l && Fits(ms, s, k, |ms|)
    ensures k <= Held(ms, s, l)
  {
    if k < l {
      HeldIsLongest(ms, s, l - 1, k);
    }
  }

  function Min(a: nat, b: nat): nat { if a < b then a else b }

  /** How many characters are looked at from the end: fewer than the longest marker has. */
  function MaxScan(ms: seq<Marker>, s: string): nat {
    Min(if MaxLen(ms, |ms|) == 0 then 0 else MaxLen(ms, |ms|) - 1, |s|)
  }

  function HeldBack(ms: seq<Marker>, s: string): (c: nat)
    ensures c <= |s| && (c == 0 || c < MaxLen(ms, |ms|))
  {
    Held(ms, s, MaxScan(ms, s))
  }

  method FitsSome(ms: seq<Marker>, suf: string) returns (fits: bool)
    ensures fits == Fits(ms, suf, |suf|, |ms|)
  {
    fits := false;
    for j := 0 to |ms|
      invariant fits == Fits(ms, suf, |suf|, j)
    {
      fits := fits || suf <= ms[j].text || suf <= Line(ms[j]);
      PrefixFits(suf, ms[j].text);
      PrefixFits(suf, Line(ms[j]));
    }
  }

  lemma PrefixFits(suf: string, m: string)
    ensures TailFits(suf, m, |suf|) <==> suf <= m
  {
    if |suf| <= |m| {
      MatchesIsEquality(suf, 0, m, |suf|);
      assert suf[0..|suf|] == suf;
    }
  }

  lemma {:induction false} FitsInSuffix(ms: seq<Marker>, s: string, l: nat, n: nat)
    requires n <= |ms| && l <= |s|
    ensures Fits(ms, s[|s| - l..], l, n) == Fits(ms, s, l, n)
  {
    if n > 0 {
      FitsInSuffix(ms, s, l, n - 1);
      TailInSuffix(s, ms[n - 1].text, l);
      TailInSuffix(s, Line(ms[n - 1]), l);
    }
  }

  lemma TailInSuffix(s: string, m: string, l: nat)
    requires l <= |s|
    ensures TailFits(s[|s| - l..], m, l) == TailFits(s, m, l)
  {
    if l <= |m| {
      var p, t := s[..|s| - l], s[|s| - l..];
      MatchesElsewhere(p, t, "", 0, m, l);
      assert p + t + "" == s;
    }
  }

  /** `split_tail_for_carry` */
  method SplitForCarry(ms: seq<Marker>, tail: string) returns (safe: string, carry: string)
    ensures carry == tail[|tail| - HeldBack(ms, tail)..] && safe == tail[..|tail| - HeldBack(ms, tail)]
  {
    var carryLen := 0;
    for l := 1 to MaxScan(ms, tail) + 1
      invariant carryLen == Held(ms, tail, l - 1)
    {
      var fits := FitsSome(ms, tail[|tail| - l..]);
      FitsInSuffix(ms, tail, l, |ms|);
      if fits {
        carryLen := l;
      }
    }
    safe, carry := tail[..|tail| - carryLen], tail[|tail| - carryLen..];
  }

  /** A marker that begins in `s` and ends beyond it has its beginning held back. */
  lemma CutMarkerIsHeld(ms: seq<Marker>, s: string, u: string, j: nat, i: nat)
    requires j < |ms| && i < |s| < i + |ms[j].text| && OccursAt(s + u, ms[j].text, i)
    ensures |s| - HeldBack(ms, s) <= i
  {
    var m, k := ms[j].text, |s| - i;
    MatchesPrefix(s + u, i, m, |m|, k);
    MatchesElsewhere("", s, u, i, m, k);
    assert "" + s + u == s + u;
    assert TailFits(s, m, k);
    FitsAny(ms, s, k, |ms|, j);
    MaxLenIsMax(ms, |ms|, j);
    HeldIsLongest(ms, s, MaxScan(ms, s), k);
  }

  lemma OccursBefore(s: string, u: string, m: string, i: nat)
    requires i + |m| <= |s|
    ensures OccursAt(s + u, m, i) == OccursAt(s, m, i)
  {
    MatchesElsewhere("", s, u, i, m, |m|);
    assert "" + s + u == s + u;
  }

  /** What is let go is let go for good: whatever follows, no marker stands at a place in it. */
  lemma NoMarkerIsCut(ms: seq<Marker>, s: string, u: string, j: nat, i: nat)
    requires j < |ms| && Leftmost(ms, s, |ms|) == None && i < |s| - HeldBack(ms, s)
    ensures !Stands(s + u, ms[j], i)
  {
    LeftmostIsLeftmost(ms, s, |ms|);
    assert !Standing(ms, s, |ms|, j, i);
    if i + |ms[j].text| <= |s| {
      OccursBefore(s, u, ms[j].text, i);
    } else if OccursAt(s + u, ms[j].text, i) {
      CutMarkerIsHeld(ms, s, u, j, i);
    }
  }
}
