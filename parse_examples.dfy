/**
 * The two-slide document of the parser's tests, parsed: two paragraphs, a rule
 * line, two more paragraphs give exactly two slides, each holding its two
 * paragraphs, trimmed.
 */
module ParseExamples {
  import opened Text
  import opened Slides
  import opened Patterns
  import opened Parsing
  import opened ParserProperties
  import opened SlideProperties

  /** A line of plain text: no newline, no markup, no white space at either end, not a rule. */
  predicate PlainLine(s: string) {
    && s != "" && NoNewline(s) && Unmarked(s)
    && !IsSpace(s[0], Unicode) && !IsSpace(s[|s| - 1], Unicode) && !IsDelimiter(s)
  }

  /** The lines of the test document: a heading and a sentence, a rule, a heading and a sentence. */
  function TestLines(h1: string, t1: string, h2: string, t2: string): seq<string> {
    [h1, "", t1, "", "---", "", h2, "", t2]
  }

  /**
   * Two slides, each a heading line, a blank line and a text line, separated by
   * a `---` line with blank lines around it, become exactly two slides whose
   * content is the heading, the blank line and the text, with no metadata and
   * no notes; the presentation metadata is untouched.
   */
  lemma TwoSlides(h1: string, t1: string, h2: string, t2: string, pm: PresentationMetadata)
    requires PlainLine(h1) && PlainLine(t1) && PlainLine(h2) && PlainLine(t2) && !IsKeyChar(h1[0])
    ensures ParseDocument(Join(TestLines(h1, t1, h2, t2), "\n"), pm)
      == Document([Slide(NoSlideMetadata, Join([h1, "", t1], "\n"), ""),
                   Slide(NoSlideMetadata, Join([h2, "", t2], "\n"), "")], pm)
  {
    TestDocument(h1, t1, h2, t2, pm);
    TestBlocks(h1, t1, h2, t2);
    KeptPair(RenderLines([h1, "", t1, ""]), RenderLines(["", h2, "", t2]));
  }

  /** The test document has no presentation comment and no configuration, and its lines are the test lines. */
  lemma TestDocument(h1: string, t1: string, h2: string, t2: string, pm: PresentationMetadata)
    requires PlainLine(h1) && PlainLine(t1) && PlainLine(h2) && PlainLine(t2) && !IsKeyChar(h1[0])
    ensures var lines := TestLines(h1, t1, h2, t2);
      var doc := Join(lines, "\n");
      PresentationStep(doc, pm) == Stripped(doc, pm) && ScannerLines(doc) == lines
  {
    var lines := TestLines(h1, t1, h2, t2);
    var doc := Join(lines, "\n");
    TestLinesJoined(h1, t1, h2, t2);
    DocumentKept(doc, lines, pm);
    JoinFirst(lines);
  }

  /** The test lines, joined, split back into themselves and carry no markup. */
  lemma TestLinesJoined(h1: string, t1: string, h2: string, t2: string)
    requires PlainLine(h1) && PlainLine(t1) && PlainLine(h2) && PlainLine(t2)
    ensures var lines := TestLines(h1, t1, h2, t2);
      Split(Join(lines, "\n"), "\n") == lines && Unmarked(Join(lines, "\n"))
  {
    var lines := TestLines(h1, t1, h2, t2);
    SplitJoin(lines);
    UnmarkedJoin(lines);
  }

  /** The test document's lines split at the rule into two blocks, neither of them blank. */
  lemma TestBlocks(h1: string, t1: string, h2: string, t2: string)
    requires PlainLine(h1) && PlainLine(t1) && PlainLine(h2) && PlainLine(t2)
    ensures var b1, b2 := RenderLines([h1, "", t1, ""]), RenderLines(["", h2, "", t2]);
      && NonBlank(Segments(TestLines(h1, t1, h2, t2))) == [b1, b2]
      && Unmarked(b1) && TrimSpace(b1) == Join([h1, "", t1], "\n")
      && Unmarked(b2) && TrimSpace(b2) == Join([h2, "", t2], "\n")
  {
    var a, b := [h1, "", t1, ""], ["", h2, "", t2];
    TestSegments(h1, t1, h2, t2);
    FirstBlock(h1, t1);
    SecondBlock(h2, t2);
    JoinEnds(h1, t1);
    JoinEnds(h2, t2);
    NonBlankPair(a, b);
  }

  /** The test document's lines form two groups, one on either side of the rule. */
  lemma TestSegments(h1: string, t1: string, h2: string, t2: string)
    requires PlainLine(h1) && PlainLine(t1) && PlainLine(h2) && PlainLine(t2)
    ensures Segments(TestLines(h1, t1, h2, t2)) == [[h1, "", t1, ""], ["", h2, "", t2]]
  {
    TestLinesSplit(h1, t1, h2, t2);
    FirstNoRule(h1, t1);
    SecondNoRule(h2, t2);
    RuleSplits([h1, "", t1, ""], ["", h2, "", t2]);
  }

  /** The test document is the first slide's lines, the rule, and the second slide's lines. */
  lemma TestLinesSplit(h1: string, t1: string, h2: string, t2: string)
    ensures TestLines(h1, t1, h2, t2) == [h1, "", t1, ""] + ["---"] + ["", h2, "", t2]
  {
  }

  /** A plain line, trimmed, is not a rule. */
  lemma PlainNotRule(s: string)
    requires PlainLine(s)
    ensures !IsDelimiter(TrimSpace(s))
  {
    TrimIdle(s, Unicode);
  }

  /** No line of the first slide is a rule. */
  lemma FirstNoRule(h: string, t: string)
    requires PlainLine(h) && PlainLine(t)
    ensures forall i :: 0 <= i < |[h, "", t, ""]| ==> !IsDelimiter(TrimSpace([h, "", t, ""][i]))
  {
    PlainNotRule(h);
    PlainNotRule(t);
    EmptyNotRule();
    NoRuleQuad(h, "", t, "");
  }

  /** No line of the second slide is a rule. */
  lemma SecondNoRule(h: string, t: string)
    requires PlainLine(h) && PlainLine(t)
    ensures forall i :: 0 <= i < |["", h, "", t]| ==> !IsDelimiter(TrimSpace(["", h, "", t][i]))
  {
    PlainNotRule(h);
    PlainNotRule(t);
    EmptyNotRule();
    NoRuleQuad("", h, "", t);
  }

  /** The empty line is not a rule. */
  lemma EmptyNotRule()
    ensures !IsDelimiter(TrimSpace(""))
  {
    TrimIdle("", Unicode);
  }

  /** Four lines none of which is a rule. */
  lemma NoRuleQuad(w: string, x: string, y: string, z: string)
    requires !IsDelimiter(TrimSpace(w)) && !IsDelimiter(TrimSpace(x))
    requires !IsDelimiter(TrimSpace(y)) && !IsDelimiter(TrimSpace(z))
    ensures forall i :: 0 <= i < |[w, x, y, z]| ==> !IsDelimiter(TrimSpace([w, x, y, z][i]))
  {
    forall i | 0 <= i < |[w, x, y, z]| ensures !IsDelimiter(TrimSpace([w, x, y, z][i])) {
      QuadAt(w, x, y, z, i);
    }
  }

  lemma QuadAt<T>(w: T, x: T, y: T, z: T, i: int)
    requires 0 <= i < 4
    ensures [w, x, y, z][i] == w || [w, x, y, z][i] == x || [w, x, y, z][i] == y || [w, x, y, z][i] == z
  {
  }

  /** Two groups of lines whose texts are not blank are both kept. */
  lemma NonBlankPair(a: seq<string>, b: seq<string>)
    requires TrimSpace(RenderLines(a)) != "" && TrimSpace(RenderLines(b)) != ""
    ensures NonBlank([a, b]) == [RenderLines(a), RenderLines(b)]
  {
    PairFront(a, b);
    NonBlankOne(a);
  }

  lemma NonBlankOne(a: seq<string>)
    requires TrimSpace(RenderLines(a)) != ""
    ensures NonBlank([a]) == [RenderLines(a)]
  {
    TakeNone([a]);
  }

  /** No presentation comment and no top-of-file configuration: the document goes on unchanged. */
  lemma DocumentKept(doc: string, lines: seq<string>, pm: PresentationMetadata)
    requires Unmarked(doc) && Split(doc, "\n") == lines && |lines| > 0
    requires lines[0] != "" && !IsSpace(lines[0][0], Unicode) && !IsKeyChar(lines[0][0])
    ensures PresentationStep(doc, pm) == Stripped(doc, pm)
  {
    UnmarkedNoMatch(Presentation, doc);
    PresentationFirst(doc, pm);
    assert TrimSpace(lines[0]) != "" by {
      TrimLeftIdle(lines[0], Unicode);
      TrimRightDropped(lines[0], Unicode);
    }
    assert LeadingBlank(lines, 0) == 0;
    assert SkipKey(lines[0], 0) == 0;
    assert ConfigRun(lines, 0) == 0;
    GlobalConfigRemoves(doc, pm);
  }

  /** The first block: heading, blank line, text, blank line, each followed by a newline. */
  lemma FirstBlock(h: string, t: string)
    requires PlainLine(h) && PlainLine(t)
    ensures var block := RenderLines([h, "", t, ""]);
      Unmarked(block) && TrimSpace(block) == Join([h, "", t], "\n")
  {
    var j := Join([h, "", t], "\n");
    RenderJoin([h, "", t, ""]);
    JoinSnoc([h, "", t], "", "\n");
    assert [h, "", t] + [""] == [h, "", t, ""];
    UnmarkedJoin([h, "", t]);
    JoinEnds(h, t);
    var block := j + "\n" + "" + "\n";
    assert block == j + "\n" + "\n";
    TrimLeftIdle(block, Unicode);
    TrimRightSpace(j + "\n", '\n', Unicode);
    TrimRightSpace(j, '\n', Unicode);
    TrimRightIdle(j, Unicode);
  }

  /** The second block: blank line, heading, blank line, text, each followed by a newline. */
  lemma SecondBlock(h: string, t: string)
    requires PlainLine(h) && PlainLine(t)
    ensures var block := RenderLines(["", h, "", t]);
      Unmarked(block) && TrimSpace(block) == Join([h, "", t], "\n")
  {
    var j := Join([h, "", t], "\n");
    RenderJoin(["", h, "", t]);
    assert ["", h, "", t][1..] == [h, "", t];
    UnmarkedJoin([h, "", t]);
    JoinEnds(h, t);
    var block := "" + "\n" + j + "\n";
    assert block[1..] == j + "\n";
    TrimLeftIdle(j + "\n", Unicode);
    TrimRightSpace(j, '\n', Unicode);
    TrimRightIdle(j, Unicode);
  }

  /** Heading, blank line and text joined: it starts with the heading and ends with the text. */
  lemma JoinEnds(h: string, t: string)
    requires h != "" && t != ""
    ensures var j := Join([h, "", t], "\n");
      j == h + "\n" + "\n" + t && j[0] == h[0] && j[|j| - 1] == t[|t| - 1]
  {
    assert [h, "", t][1..] == ["", t];
    assert ["", t][1..] == [t];
    assert Join(["", t], "\n") == "" + "\n" + t;
    assert "" + "\n" + t == "\n" + t;
    Assoc(h, "\n", "\n" + t);
    Assoc(h + "\n", "\n", t);
  }

  /** Two blocks that parse as plain text both become slides, in order. */
  lemma KeptPair(b1: string, b2: string)
    requires Unmarked(b1) && Unmarked(b2) && TrimSpace(b1) != "" && TrimSpace(b2) != ""
    ensures KeptSlides([b1, b2])
      == [Slide(NoSlideMetadata, TrimSpace(b1), ""), Slide(NoSlideMetadata, TrimSpace(b2), "")]
  {
    ParsePair(b1, b2);
    PlainBlock(b1);
    PlainBlock(b2);
    TrimSpaceIdem(b1);
    TrimSpaceIdem(b2);
    NonEmptyPair(Slide(NoSlideMetadata, TrimSpace(b1), ""), Slide(NoSlideMetadata, TrimSpace(b2), ""));
  }

  lemma ParsePair(b1: string, b2: string)
    ensures ParseBlocks([b1, b2]) == [SlideOf(b1), SlideOf(b2)]
  {
    var bs := [b1, b2];
    ParseBlocksAt(bs, 0);
    ParseBlocksAt(bs, 1);
    SlidePair(ParseBlocks(bs), SlideOf(b1), SlideOf(b2));
  }

  /** A list of two slides is the pair of its elements. */
  lemma SlidePair(ss: seq<Slide>, x: Slide, y: Slide)
    requires |ss| == 2 && ss[0] == x && ss[1] == y
    ensures ss == [x, y]
  {
  }

  lemma NonEmptyPair(s1: Slide, s2: Slide)
    requires TrimSpace(s1.content) != "" && TrimSpace(s2.content) != ""
    ensures NonEmpty([s1, s2]) == [s1, s2]
  {
    PairFront(s1, s2);
    NonEmptyOne(s1);
  }

  lemma NonEmptyOne(s: Slide)
    requires TrimSpace(s.content) != ""
    ensures NonEmpty([s]) == [s]
  {
    TakeNone([s]);
  }

  /** Lines with no newline, joined by newlines, split back into the same lines. */
  lemma {:induction false} SplitJoin(ls: seq<string>)
    requires |ls| > 0 && forall i :: 0 <= i < |ls| ==> NoNewline(ls[i])
    ensures Split(Join(ls, "\n"), "\n") == ls
    decreases |ls|
  {
    if |ls| == 1 {
      SplitNone(ls[0], '\n');
    } else {
      SplitJoin(ls[1..]);
      SplitCons(ls[0], '\n', Join(ls[1..], "\n"));
      assert [ls[0]] + ls[1..] == ls;
    }
  }

  /** Unmarked lines joined by newlines are unmarked. */
  lemma {:induction false} UnmarkedJoin(ls: seq<string>)
    requires forall i :: 0 <= i < |ls| ==> Unmarked(ls[i])
    ensures Unmarked(Join(ls, "\n"))
    decreases |ls|
  {
    if |ls| > 1 {
      UnmarkedJoin(ls[1..]);
    }
  }

  /** A join of lines whose first line is not empty starts with that line. */
  lemma JoinFirst(ls: seq<string>)
    requires |ls| > 1 && ls[0] != ""
    ensures Join(ls, "\n") != "" && Join(ls, "\n")[0] == ls[0][0]
  {
  }

  /** The test of the parser with two slides, and its expected contents. */
  lemma TwoSlideTest(pm: PresentationMetadata)
    ensures ParseDocument(Join(TestLines("# First Slide", "This is the first slide.",
                                         "# Second Slide", "This is the second slide."), "\n"), pm).slides
      == [Slide(NoSlideMetadata, "# First Slide" + "\n\n" + "This is the first slide.", ""),
          Slide(NoSlideMetadata, "# Second Slide" + "\n\n" + "This is the second slide.", "")]
  {
    var h1, t1, h2, t2 := "# First Slide", "This is the first slide.", "# Second Slide", "This is the second slide.";
    HeadingsPlain(h1, h2);
    FirstTextPlain(t1);
    SecondTextPlain(t2);
    TwoSlides(h1, t1, h2, t2, pm);
    ExpectedContent(h1, t1);
    ExpectedContent(h2, t2);
  }

  /** The two headings of the test are plain lines, and the first does not start a configuration key. */
  lemma HeadingsPlain(h1: string, h2: string)
    requires h1 == "# First Slide" && h2 == "# Second Slide"
    ensures PlainLine(h1) && PlainLine(h2) && !IsKeyChar(h1[0])
  {
    assert h1[0] == '#' && h2[0] == '#';
  }

  /** The text of the first slide is a plain line. */
  lemma FirstTextPlain(t: string)
    requires t == "This is the first slide."
    ensures PlainLine(t)
  {
    assert t[0] == 'T';
  }

  /** The text of the second slide is a plain line. */
  lemma SecondTextPlain(t: string)
    requires t == "This is the second slide."
    ensures PlainLine(t)
  {
    assert t[0] == 'T';
  }

  /** A heading and a text joined with a blank line between them. */
  lemma ExpectedContent(h: string, t: string)
    requires h != "" && t != ""
    ensures Join([h, "", t], "\n") == h + "\n\n" + t
  {
    JoinEnds(h, t);
    assert "\n\n" == "\n" + "\n";
    Assoc(h, "\n", "\n");
  }
}
