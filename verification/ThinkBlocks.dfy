/** The content blocks of a whole answer, and their agreement with the stream. */
module ThinkBlocks {
  import opened Options
  import opened Seqs
  import opened TextSearch
  import opened ThinkSplit

  datatype Block = TextBlock(text: string) | ThinkingBlock(thinking: string)

  /** Unicode White_Space, as `str::trim` uses it. */
  predicate IsWhite(c: char) {
    var n := c as int;
    9 <= n <= 13 || n == 0x20 || n == 0x85 || n == 0xA0 || n == 0x1680 || 0x2000 <= n <= 0x200A
    || n == 0x2028 || n == 0x2029 || n == 0x202F || n == 0x205F || n == 0x3000
  }

  /** `s.trim().is_empty()` */
  predicate IsBlank(s: string) { forall i :: 0 <= i < |s| ==> IsWhite(s[i]) }

  function TextIf(s: string): seq<Block> { if s == [] then [] else [TextBlock(s)] }

  /** All blocks of a text, blank ones included: text up to a tag, thinking up to its end or the end of the text. */
  function RawBlocks(g: Tags, s: string): seq<Block>
    decreases |s|
  {
    match Find(s, g.open)
    case None => TextIf(s)
    case Some(i) => TextIf(s[..i]) + Reopened(g, s[i + |g.open|..])
  }

  /** The same behind an opening tag. */
  function Reopened(g: Tags, r: string): seq<Block>
    decreases |r|
  {
    match Find(r, g.close)
    case None => [ThinkingBlock(r)]
    case Some(j) => [ThinkingBlock(r[..j])] + RawBlocks(g, r[j + |g.close|..])
  }

  predicate Shown(b: Block) { b.ThinkingBlock? || !IsBlank(b.text) }

  function Filter(bs: seq<Block>): seq<Block> {
    if bs == [] then [] else (if Shown(bs[0]) then [bs[0]] else []) + Filter(bs[1..])
  }

  /** What the reader gets: no blank text, unless there is nothing else. */
  function Visible(bs: seq<Block>, text: string): seq<Block> {
    if Filter(bs) == [] then [TextBlock(text)] else Filter(bs)
  }

  lemma {:induction false} FilterConcat(a: seq<Block>, b: seq<Block>)
    ensures Filter(a + b) == Filter(a) + Filter(b)
  {
    if a == [] {
      assert a + b == b;
    } else {
      FilterConcat(a[1..], b);
      assert (a + b)[1..] == a[1..] + b;
      Assoc(if Shown(a[0]) then [a[0]] else [], Filter(a[1..]), Filter(b));
    }
  }

  function ShownText(s: string): seq<Block> { if IsBlank(s) then [] else [TextBlock(s)] }

  lemma FilterTextIf(s: string)
    ensures Filter(TextIf(s)) == ShownText(s)
  {
  }

  lemma FilterUnclosed(s: string, r: string)
    ensures Filter(TextIf(s) + [ThinkingBlock(r)]) == ShownText(s) + [ThinkingBlock(r)]
  {
    FilterTextIf(s);
    FilterConcat(TextIf(s), [ThinkingBlock(r)]);
  }

  lemma FilterClosed(s: string, r: string, bs: seq<Block>)
    ensures Filter(TextIf(s) + ([ThinkingBlock(r)] + bs)) == ShownText(s) + [ThinkingBlock(r)] + Filter(bs)
  {
    FilterUnclosed(s, r);
    FilterConcat(TextIf(s) + [ThinkingBlock(r)], bs);
    assert TextIf(s) + [ThinkingBlock(r)] + bs == TextIf(s) + ([ThinkingBlock(r)] + bs);
  }

  lemma RawClosed(g: Tags, s: string, i: nat, r: string, j: nat, t: string)
    requires Find(s, g.open) == Some(i) && r == s[i + |g.open|..]
    requires Find(r, g.close) == Some(j) && t == r[j + |g.close|..]
    ensures RawBlocks(g, s) == TextIf(s[..i]) + ([ThinkingBlock(r[..j])] + RawBlocks(g, t))
  {
    RawOpened(g, s, i, r);
    ReopenedClosed(g, r, j, t);
  }

  lemma RawOpened(g: Tags, s: string, i: nat, r: string)
    requires Find(s, g.open) == Some(i) && r == s[i + |g.open|..]
    ensures RawBlocks(g, s) == TextIf(s[..i]) + Reopened(g, r)
  {
  }

  lemma ReopenedClosed(g: Tags, r: string, j: nat, t: string)
    requires Find(r, g.close) == Some(j) && t == r[j + |g.close|..]
    ensures Reopened(g, r) == [ThinkingBlock(r[..j])] + RawBlocks(g, t)
  {
  }

  /** One turn of the loop: the blocks up to the end of the next thinking stretch and the text after it. */
  method NextBlocks(g: Tags, rest: string, i: nat) returns (blocks: seq<Block>, after: Option<string>)
    requires Find(rest, g.open) == Some(i)
    ensures after == None ==> Filter(RawBlocks(g, rest)) == blocks && blocks != []
    ensures after.Some? ==> Filter(RawBlocks(g, rest)) == blocks + Filter(RawBlocks(g, after.value)) && |after.value| < |rest|
  {
    var before := rest[..i];
    blocks := if IsBlank(before) then [] else [TextBlock(before)];
    var inside := rest[i + |g.open|..];
    match Find(inside, g.close)
    case Some(j) =>
      RawClosed(g, rest, i, inside, j, inside[j + |g.close|..]);
      FilterClosed(before, inside[..j], RawBlocks(g, inside[j + |g.close|..]));
      blocks, after := blocks + [ThinkingBlock(inside[..j])], Some(inside[j + |g.close|..]);
    case None =>
      FilterUnclosed(before, inside);
      blocks, after := blocks + [ThinkingBlock(inside)], None;
  }

  method ShownBlocks(g: Tags, text: string) returns (blocks: seq<Block>)
    ensures blocks == Filter(RawBlocks(g, text))
  {
    blocks := [];
    var rest := text;
    ghost var goal := Filter(RawBlocks(g, text));
    var start := Find(rest, g.open);
    while start.Some?
      invariant start == Find(rest, g.open)
      invariant goal == blocks + Filter(RawBlocks(g, rest))
      decreases |rest|
    {
      var more, after := NextBlocks(g, rest, start.value);
      if after == None {
        return blocks + more;
      }
      Assoc(blocks, more, Filter(RawBlocks(g, after.value)));
      blocks, rest := blocks + more, after.value;
      start := Find(rest, g.open);
    }
    FilterTextIf(rest);
    if !IsBlank(rest) {
      blocks := blocks + [TextBlock(rest)];
    }
  }

  /**
   * `split_thinking_text`: the blocks of the text without the blank texts. But for white characters of the answer they
   * say what the text says; no text in them is blank, unless the text itself is all there is.
   */
  method SplitThinkingText(g: Tags, text: string) returns (blocks: seq<Block>)
    ensures blocks == Visible(RawBlocks(g, text), text)
    ensures blocks != [] && Solid(Render(blocks)) == Solid(Whole(g, text))
    ensures blocks == [TextBlock(text)] || forall i :: 0 <= i < |blocks| ==> blocks[i] in RawBlocks(g, text)
    ensures blocks == [TextBlock(text)] || forall i :: 0 <= i < |blocks| && blocks[i].TextBlock? ==> HasSolid(blocks[i].text)
  {
    VisibleSaysTheSame(g, text);
    FilterKeeps(RawBlocks(g, text));
    blocks := ShownBlocks(g, text);
    if blocks == [] {
      blocks := blocks + [TextBlock(text)];
    }
  }

  // ---- Blocks and stream say the same

  function BlockAtoms(b: Block): seq<Atom> {
    if b.TextBlock? then Label(Text, b.text) else [Open] + Label(Thinking, b.thinking) + [Close]
  }

  function Render(bs: seq<Block>): seq<Atom> { FlatMap(BlockAtoms, bs) }

  lemma RenderTextIf(s: string, bs: seq<Block>)
    ensures Render(TextIf(s) + bs) == Label(Text, s) + Render(bs)
  {
    FlatMapConcat(BlockAtoms, TextIf(s), bs);
    if s != [] {
      FlatMapOne(BlockAtoms, TextBlock(s));
    }
  }

  lemma RenderThinking(r: string, bs: seq<Block>)
    ensures Render([ThinkingBlock(r)] + bs) == [Open] + Label(Thinking, r) + [Close] + Render(bs)
  {
    FlatMapConcat(BlockAtoms, [ThinkingBlock(r)], bs);
    FlatMapOne(BlockAtoms, ThinkingBlock(r));
  }

  lemma Close1(s: string, r: string)
    ensures Before(Label(Text, s) + [Open], Parsed(Label(Thinking, r), Thinking)).atoms + [Close]
         == Label(Text, s) + ([Open] + Label(Thinking, r) + [Close] + [])
  {
  }

  lemma Close2(s: string, r: string, p: Parsed)
    ensures Before(Label(Text, s) + [Open], Before(Label(Thinking, r) + [Close], p)).atoms + Closing(p.last)
         == Label(Text, s) + ([Open] + Label(Thinking, r) + [Close] + (p.atoms + Closing(p.last)))
  {
  }

  lemma RenderUnclosed(g: Tags, s: string, i: nat, r: string)
    requires Find(s, g.open) == Some(i) && r == s[i + |g.open|..] && Find(r, g.close) == None
    ensures Render(RawBlocks(g, s)) == Whole(g, s)
  {
    RenderTextIf(s[..i], [ThinkingBlock(r)]);
    RenderThinking(r, []);
    assert [ThinkingBlock(r)] + [] == [ThinkingBlock(r)];
    ParseTag(g, Text, s, i, r);
    Close1(s[..i], r);
  }

  lemma WholeClosed(g: Tags, s: string, i: nat, r: string, j: nat, t: string)
    requires Find(s, g.open) == Some(i) && r == s[i + |g.open|..]
    requires Find(r, g.close) == Some(j) && t == r[j + |g.close|..]
    ensures Whole(g, s) == Label(Text, s[..i]) + ([Open] + Label(Thinking, r[..j]) + [Close] + Whole(g, t))
  {
    ParseTag(g, Text, s, i, r);
    ParseTag(g, Thinking, r, j, t);
    Close2(s[..i], r[..j], Parse(g, Text, t));
  }

  lemma RenderHead(s: string, r: string, bs: seq<Block>)
    ensures Render(TextIf(s) + ([ThinkingBlock(r)] + bs)) == Label(Text, s) + ([Open] + Label(Thinking, r) + [Close] + Render(bs))
  {
    RenderTextIf(s, [ThinkingBlock(r)] + bs);
    RenderThinking(r, bs);
  }

  /** The blocks of a text, written out, are the reading of the text. */
  lemma {:induction false} RenderRaw(g: Tags, s: string)
    ensures Render(RawBlocks(g, s)) == Whole(g, s)
    decreases |s|
  {
    match Find(s, g.open)
    case None =>
      RenderTextIf(s, []);
      assert TextIf(s) + [] == TextIf(s);
    case Some(i) =>
      var r := s[i + |g.open|..];
      match Find(r, g.close)
      case None => RenderUnclosed(g, s, i, r);
      case Some(j) =>
        var t := r[j + |g.close|..];
        RenderRaw(g, t);
        RawClosed(g, s, i, r, j, t);
        RenderHead(s[..i], r[..j], RawBlocks(g, t));
        WholeClosed(g, s, i, r, j, t);
  }

  // ---- What the reader does not get

  ghost predicate HasSolid(s: string) { exists j :: 0 <= j < |s| && !IsWhite(s[j]) }

  function SolidAtom(a: Atom): seq<Atom> { if a.Ch? && a.kind.Text? && IsWhite(a.c) then [] else [a] }

  /** Everything but the white characters outside thinking. */
  function Solid(a: seq<Atom>): seq<Atom> { FlatMap(SolidAtom, a) }

  lemma {:induction false} BlankIsNotSolid(s: string)
    requires !HasSolid(s)
    ensures Solid(Label(Text, s)) == []
  {
    if s != [] {
      assert IsWhite(s[0]);
      assert forall j :: 0 <= j < |s[1..]| ==> s[1..][j] == s[j + 1];
      BlankIsNotSolid(s[1..]);
      FlatMapConcat(SolidAtom, [Ch(Text, s[0])], Label(Text, s[1..]));
      FlatMapOne(SolidAtom, Ch(Text, s[0]));
    }
  }

  lemma SolidFirst(b: Block, bs: seq<Block>)
    ensures Solid(Render([b] + bs)) == Solid(BlockAtoms(b)) + Solid(Render(bs))
  {
    FlatMapConcat(BlockAtoms, [b], bs);
    FlatMapOne(BlockAtoms, b);
    FlatMapConcat(SolidAtom, BlockAtoms(b), Render(bs));
  }

  lemma {:induction false} FilterKeepsSolid(bs: seq<Block>)
    ensures Solid(Render(Filter(bs))) == Solid(Render(bs))
  {
    if bs != [] {
      FilterKeepsSolid(bs[1..]);
      SolidFirst(bs[0], bs[1..]);
      assert [bs[0]] + bs[1..] == bs;
      if Shown(bs[0]) {
        SolidFirst(bs[0], Filter(bs[1..]));
      } else {
        BlankIsNotSolid(bs[0].text);
        assert [] + Filter(bs[1..]) == Filter(bs[1..]);
      }
    }
  }

  lemma {:induction false} FilterKeeps(bs: seq<Block>)
    ensures forall i :: 0 <= i < |Filter(bs)| ==> Filter(bs)[i] in bs && (Filter(bs)[i].TextBlock? ==> HasSolid(Filter(bs)[i].text))
  {
    if bs != [] {
      FilterKeeps(bs[1..]);
    }
  }

  lemma ThinkingIsShown(a: seq<Block>, r: string, b: seq<Block>)
    ensures Filter(a + ([ThinkingBlock(r)] + b)) != []
  {
    FilterConcat(a, [ThinkingBlock(r)] + b);
    FilterConcat([ThinkingBlock(r)], b);
    assert Filter([ThinkingBlock(r)]) == [ThinkingBlock(r)];
  }

  /** If nothing is left there is no tag, and the text is its own reading. */
  lemma NothingShown(g: Tags, text: string)
    requires Filter(RawBlocks(g, text)) == []
    ensures Whole(g, text) == Label(Text, text)
  {
    if Find(text, g.open).Some? {
      var i := Find(text, g.open).value;
      var r := text[i + |g.open|..];
      RawOpened(g, text, i, r);
      ReopenedThinks(g, r);
      ThinkingIsShown(TextIf(text[..i]), Reopened(g, r)[0].thinking, Reopened(g, r)[1..]);
    }
  }

  lemma ReopenedThinks(g: Tags, r: string)
    ensures var bs := Reopened(g, r); bs != [] && bs[0].ThinkingBlock? && bs == [ThinkingBlock(bs[0].thinking)] + bs[1..]
  {
    if Find(r, g.close).Some? {
      var j := Find(r, g.close).value;
      ReopenedClosed(g, r, j, r[j + |g.close|..]);
    }
  }

  lemma VisibleSaysTheSame(g: Tags, text: string)
    ensures Solid(Render(Visible(RawBlocks(g, text), text))) == Solid(Whole(g, text))
  {
    RenderRaw(g, text);
    FilterKeepsSolid(RawBlocks(g, text));
    if Filter(RawBlocks(g, text)) == [] {
      NothingShown(g, text);
      FlatMapOne(BlockAtoms, TextBlock(text));
    }
  }

  /** No empty text and no two texts in a row: the form blocks have once adjacent deltas are merged. */
  ghost predicate Merged(bs: seq<Block>) {
    && (forall i :: 0 <= i < |bs| ==> bs[i].ThinkingBlock? || bs[i].text != "")
    && (forall i :: 0 < i < |bs| ==> bs[i].ThinkingBlock? || bs[i - 1].ThinkingBlock?)
  }

  lemma MergedHead(s: string, r: string, bs: seq<Block>)
    requires Merged(bs)
    ensures Merged(TextIf(s) + ([ThinkingBlock(r)] + bs))
  {
  }

  lemma {:induction false} RawIsMerged(g: Tags, s: string)
    ensures Merged(RawBlocks(g, s))
    decreases |s|
  {
    match Find(s, g.open)
    case None =>
    case Some(i) =>
      var r := s[i + |g.open|..];
      match Find(r, g.close)
      case None =>
        MergedHead(s[..i], r, []);
        assert [ThinkingBlock(r)] + [] == [ThinkingBlock(r)];
      case Some(j) =>
        var t := r[j + |g.close|..];
        RawIsMerged(g, t);
        RawClosed(g, s, i, r, j, t);
        MergedHead(s[..i], r[..j], RawBlocks(g, t));
  }

  ghost predicate NotKind(a: seq<Atom>, k: Kind) { a == [] || !(a[0].Ch? && a[0].kind == k) }

  /** A stretch of one kind ends where something else begins. */
  lemma {:induction false} StretchIsUnique(k: Kind, s: string, x: seq<Atom>, t: string, y: seq<Atom>)
    requires Label(k, s) + x == Label(k, t) + y && NotKind(x, k) && NotKind(y, k)
    ensures s == t && x == y
  {
    var a, b := Label(k, s) + x, Label(k, t) + y;
    if s == [] || t == [] {
      assert a == b;
      assert s == [] ==> a == x;
      assert t == [] ==> b == y;
    } else {
      assert a[0] == Ch(k, s[0]) && b[0] == Ch(k, t[0]);
      assert a[1..] == Label(k, s[1..]) + x && b[1..] == Label(k, t[1..]) + y;
      StretchIsUnique(k, s[1..], x, t[1..], y);
    }
  }

  lemma RenderStart(bs: seq<Block>)
    requires bs != [] ==> bs[0].ThinkingBlock? || bs[0].text != ""
    ensures bs == [] ==> Render(bs) == []
    ensures bs != [] ==> Render(bs) == BlockAtoms(bs[0]) + Render(bs[1..]) && Render(bs) != []
    ensures bs != [] ==> Render(bs)[0] == if bs[0].ThinkingBlock? then Open else Ch(Text, bs[0].text[0])
  {
  }

  lemma SameThinking(r: string, x: seq<Atom>, t: string, y: seq<Atom>)
    requires [Open] + Label(Thinking, r) + [Close] + x == [Open] + Label(Thinking, t) + [Close] + y
    ensures r == t && x == y
  {
    var a, b := [Open] + Label(Thinking, r) + [Close] + x, [Open] + Label(Thinking, t) + [Close] + y;
    assert a[1..] == Label(Thinking, r) + ([Close] + x);
    assert b[1..] == Label(Thinking, t) + ([Close] + y);
    StretchIsUnique(Thinking, r, [Close] + x, t, [Close] + y);
    assert ([Close] + x)[1..] == x && ([Close] + y)[1..] == y;
  }

  /** Merged blocks are determined by what they say. */
  lemma {:induction false} RenderInjective(a: seq<Block>, b: seq<Block>)
    requires Merged(a) && Merged(b) && Render(a) == Render(b)
    ensures a == b
  {
    RenderStart(a);
    RenderStart(b);
    if a != [] && b != [] {
      RenderStart(a[1..]);
      RenderStart(b[1..]);
      if a[0].TextBlock? {
        StretchIsUnique(Text, a[0].text, Render(a[1..]), b[0].text, Render(b[1..]));
      } else {
        SameThinking(a[0].thinking, Render(a[1..]), b[0].thinking, Render(b[1..]));
      }
      RenderInjective(a[1..], b[1..]);
      assert a == [a[0]] + a[1..] && b == [b[0]] + b[1..];
    }
  }

  /**
   * Stream and batch agree: however the text is cut into tokens, merging the deltas of the stream gives exactly
   * one list of blocks, and the batch answer is that list without its blank texts (or the text itself, if
   * nothing would be left).
   */
  lemma StreamAgreesWithBatch(g: Tags, tokens: seq<string>, bs: seq<Block>)
    ensures Merged(bs) && Render(bs) == Flat(StreamEvents(g, tokens)) <==> bs == RawBlocks(g, Concat(tokens))
  {
    var raw := RawBlocks(g, Concat(tokens));
    ChunkingDoesNotMatter(g, tokens);
    RenderRaw(g, Concat(tokens));
    RawIsMerged(g, Concat(tokens));
    if Merged(bs) && Render(bs) == Flat(StreamEvents(g, tokens)) {
      RenderInjective(bs, raw);
    }
  }

  // ---- Nothing is lost

  function AtomText(g: Tags): Atom -> string {
    (a: Atom) => match a case Ch(_, c) => [c] case Open => g.open case Close => g.close
  }

  /** The characters in order, with the tags put back where the kind changes. */
  function Retagged(g: Tags, a: seq<Atom>): string { FlatMap(AtomText(g), a) }

  lemma {:induction false} RetaggedLabel(g: Tags, k: Kind, s: string)
    ensures Retagged(g, Label(k, s)) == s
  {
    if s != [] {
      RetaggedLabel(g, k, s[1..]);
      FlatMapConcat(AtomText(g), [Ch(k, s[0])], Label(k, s[1..]));
      FlatMapOne(AtomText(g), Ch(k, s[0]));
      assert s == [s[0]] + s[1..];
    }
  }

  /** Putting the tags back restores the text, whatever it is. */
  lemma {:induction false} RetaggedParse(g: Tags, k: Kind, s: string)
    ensures Retagged(g, Parse(g, k, s).atoms) == s
    decreases |s|
  {
    match Find(s, Tag(g, k))
    case None => RetaggedLabel(g, k, s);
    case Some(i) =>
      var rest := s[i + |Tag(g, k)|..];
      ParseTag(g, k, s, i, rest);
      RetaggedParse(g, Other(k), rest);
      RetaggedLabel(g, k, s[..i]);
      FlatMapConcat(AtomText(g), Label(k, s[..i]) + [Mark(k)], Parse(g, Other(k), rest).atoms);
      FlatMapConcat(AtomText(g), Label(k, s[..i]), [Mark(k)]);
      FlatMapOne(AtomText(g), Mark(k));
      TagStands(s, Tag(g, k), i);
  }

  lemma TagStands(s: string, m: string, i: nat)
    requires Find(s, m) == Some(i)
    ensures s == s[..i] + m + s[i + |m|..]
  {
    FindFromIsFirst(s, m, 0);
    OccurrenceText(s, m, i);
  }

  /** Putting the tags back into the stream restores the input, followed by the closing tag if flush had to add one. */
  lemma RetaggedStream(g: Tags, tokens: seq<string>)
    ensures Retagged(g, Flat(StreamEvents(g, tokens))) ==
      Concat(tokens) + if Parse(g, Text, Concat(tokens)).last.Thinking? then g.close else ""
  {
    var p := Parse(g, Text, Concat(tokens));
    ChunkingDoesNotMatter(g, tokens);
    RetaggedParse(g, Text, Concat(tokens));
    FlatMapConcat(AtomText(g), p.atoms, Closing(p.last));
    FlatMapOne(AtomText(g), Close);
  }
}
