/**
 * What the per-block extractors of parseSlide promise: only the first slide
 * comment is decoded but all are removed, directives override field by field,
 * images default an empty layout, comment notes come before caret notes, and a
 * block with none of the extractors' marks is just trimmed.
 */
module SlideProperties {
  import opened Wrappers
  import opened Text
  import opened Slides
  import opened Yaml
  import opened Patterns
  import opened Parsing

  // ----- slide frontmatter ----------------------------------------------------------

  /**
   * Every `<!-- slide ... -->` comment leaves the content, but only the first
   * one's YAML is decoded; a decoding error leaves the metadata as it was.
   */
  lemma FrontmatterFirstOnly(content: string, slide: Slide)
    ensures var ms := FindAll(SlideFrontmatter, content, 0);
      var st := FrontmatterStep(content, slide);
      && st.content == Concat(Gaps(content, 0, ms))
      && st.slide.content == slide.content && st.slide.notes == slide.notes
      && (|ms| == 0 ==> st.slide == slide)
      && (|ms| > 0 ==> NextMatch(SlideFrontmatter, content, 0) == Some(ms[0]))
      && (forall md :: |ms| > 0 && UnmarshalSlide(ms[0].groups[0], slide.metadata) == Some(md) ==>
            st.slide.metadata == md)
      && (|ms| > 0 && UnmarshalSlide(ms[0].groups[0], slide.metadata).None? ==> st.slide.metadata == slide.metadata)
  {
    Erase(SlideFrontmatter, content);
    if NextMatch(SlideFrontmatter, content, 0).None? {
      NoMatchUnchanged(SlideFrontmatter, content);
    }
  }

  // ----- directives -----------------------------------------------------------------

  /**
   * The directives are decoded together, after the frontmatter: when their
   * values are single-line scalars, the fields they name take the last value
   * given, the others keep what they had (see DecodeSlideFields); any decoding
   * error leaves the metadata as it was. Every directive leaves the content.
   */
  lemma DirectivesOverride(content: string, slide: Slide)
    requires AllWritable(DirectivePairs(FindAll(Directive, content, 0)))
    ensures var ms := FindAll(Directive, content, 0);
      var ps := DirectivePairs(ms);
      var st := DirectiveStep(content, slide);
      && st.content == Concat(Gaps(content, 0, ms))
      && st.slide.content == slide.content && st.slide.notes == slide.notes
      && (|ms| == 0 ==> st.slide == slide)
      && (!ScalarsOk(ps) ==> st.slide.metadata == slide.metadata)
      && (forall md :: ScalarsOk(ps) && DecodeSlide(ps, slide.metadata) == Some(md) ==> st.slide.metadata == md)
      && (ScalarsOk(ps) && DecodeSlide(ps, slide.metadata).None? ==> st.slide.metadata == slide.metadata)
  {
    var ms := FindAll(Directive, content, 0);
    Erase(Directive, content);
    if |ms| == 0 {
      NoMatchUnchanged(Directive, content);
    } else {
      ParseRender(DirectivePairs(ms));
    }
  }

  // ----- images -----------------------------------------------------------------------

  /** Some image's alt text, lowered, mentions the word. */
  lemma {:induction false} AnyModifierIff(ms: seq<Match>, word: string)
    requires forall i :: 0 <= i < |ms| ==> |ms[i].groups| == 2
    ensures AnyModifier(ms, word) <==> exists i :: 0 <= i < |ms| && Mentions(ms[i], word)
    decreases |ms|
  {
    if |ms| > 0 {
      var init := ms[..|ms| - 1];
      AnyModifierIff(init, word);
      forall i | 0 <= i < |init| ensures init[i] == ms[i] {
      }
      if Mentions(ms[|ms| - 1], word) {
        assert AnyModifier(ms, word);
      } else {
        MentionsBefore(ms, init, word);
      }
    }
  }

  lemma MentionsBefore(ms: seq<Match>, init: seq<Match>, word: string)
    requires forall i :: 0 <= i < |ms| ==> |ms[i].groups| == 2
    requires |ms| > 0 && init == ms[..|ms| - 1] && !Mentions(ms[|ms| - 1], word)
    ensures (exists i :: 0 <= i < |ms| && Mentions(ms[i], word))
      <==> (exists i :: 0 <= i < |init| && Mentions(init[i], word))
  {
    forall i | 0 <= i < |init| ensures init[i] == ms[i] {
    }
  }

  /** An image whose alt text, lowered, mentions left or right. */
  predicate Positioned(ms: seq<Match>)
    requires forall i :: 0 <= i < |ms| ==> |ms[i].groups| == 2
  {
    exists i :: 0 <= i < |ms| && (Mentions(ms[i], "left") || Mentions(ms[i], "right"))
  }

  /**
   * The image pass on the metadata: an empty layout becomes "50-50" exactly
   * when some alt text mentions left or right, a layout already set is kept,
   * and nothing else in the slide changes.
   */
  lemma ImageLayoutRule(content: string, slide: Slide)
    ensures var ms := FindAll(Image, content, 0);
      var st := ImageStep(content, slide);
      var md := slide.metadata;
      && st.slide == slide.(metadata := md.(layout := st.slide.metadata.layout))
      && (md.layout != "" ==> st.slide.metadata.layout == md.layout)
      && (md.layout == "" ==> (st.slide.metadata.layout == "50-50" <==> Positioned(ms)))
      && (md.layout == "" ==> (st.slide.metadata.layout == "" <==> !Positioned(ms)))
  {
    var ms := FindAll(Image, content, 0);
    AnyModifierIff(ms, "left");
    AnyModifierIff(ms, "right");
  }

  /** The image pass on the text: every image is rewritten as `![](path)`, the text between images kept. */
  lemma ImageRewrite(content: string, slide: Slide)
    ensures var ms := FindAll(Image, content, 0);
      && ImageStep(content, slide).content == Weave(Gaps(content, 0, ms), Replacements(Image, ms))
      && (forall i :: 0 <= i < |ms| ==> Replacements(Image, ms)[i] == "![](" + ms[i].groups[1] + ")")
  {
    var ms := FindAll(Image, content, 0);
    ReplaceWeave(Image, content);
    if |ms| == 0 {
      NoMatchUnchanged(Image, content);
      assert Gaps(content, 0, ms) == [content];
    }
  }

  /** The path of an image match is the text between `](` and the first `)`, and the alt text is dropped. */
  lemma ImagePath(s: string, j: nat)
    requires ImageAt(s, j).Some?
    ensures var m := ImageAt(s, j).value;
      var a := j + 2 + |m.groups[0]|;
      && a + 2 < m.end
      && s[j..a + 2] == "![" + m.groups[0] + "](" && m.groups[1] == s[a + 2..m.end - 1] && s[m.end - 1] == ')'
      && Replacement(Image, m) == "![](" + m.groups[1] + ")"
  {
    var a := FindChar(s, ']', j + 2).value;
    var q := FindChar(s, ')', a + 2).value;
    var m := ImageAt(s, j).value;
    assert s[j..a + 2] == "![" + s[j + 2..a] + "](";
  }

  // ----- notes ------------------------------------------------------------------------

  /** Joining two non-empty lists is joining each, with the separator between. */
  lemma {:induction false} JoinAppend(a: seq<string>, b: seq<string>, sep: string)
    requires |a| > 0 && |b| > 0
    ensures Join(a + b, sep) == Join(a, sep) + sep + Join(b, sep)
    decreases |a|
  {
    var ab := a + b;
    assert ab[0] == a[0];
    if |a| == 1 {
      assert ab[1..] == b;
    } else {
      assert ab[1..] == a[1..] + b;
      JoinAppend(a[1..], b, sep);
    }
  }

  /** A join whose first part is not empty is not empty. */
  lemma JoinNonEmpty(a: seq<string>, sep: string)
    requires |a| > 0 && a[0] != ""
    ensures Join(a, sep) != ""
  {
    if |a| > 1 {
      assert |Join(a, sep)| >= |a[0]|;
    }
  }

  /** Appending two batches of notes to no notes joins them all, in order, with newlines. */
  lemma AppendTwice(a: seq<string>, b: seq<string>)
    requires forall k :: 0 <= k < |a| ==> a[k] != ""
    ensures AppendNotes(AppendNotes("", a), b) == Join(a + b, "\n")
  {
    if |a| == 0 {
      assert a + b == b;
    } else if |b| == 0 {
      assert a + b == a;
    } else {
      JoinNonEmpty(a, "\n");
      JoinAppend(a, b, "\n");
    }
  }

  /** The notes an HTML-comment pass takes from the text. */
  function CommentNotes(content: string): seq<string> {
    TrimmedParts(Captures(FindAll(Comment, content, 0), 0))
  }

  /** The notes a `^`-line pass takes from the text. */
  function CaretNotes(content: string): seq<string> {
    TrimmedParts(Captures(FindAll(Note, content, 0), 0))
  }

  /**
   * The two note passes: starting from no notes, the comment notes come
   * first and the caret notes after them, whatever their places in the block;
   * both kinds leave the content, and the metadata is untouched.
   */
  lemma NotesOrder(content: string, slide: Slide)
    requires slide.notes == ""
    ensures var s4 := CommentNoteStep(content, slide);
      var s5 := CaretNoteStep(s4.content, s4.slide);
      && s5.slide.notes == Join(CommentNotes(content) + CaretNotes(s4.content), "\n")
      && s5.slide.metadata == slide.metadata && s5.slide.content == slide.content
      && s4.content == Concat(Gaps(content, 0, FindAll(Comment, content, 0)))
      && s5.content == Concat(Gaps(s4.content, 0, FindAll(Note, s4.content, 0)))
  {
    var s4 := CommentNoteStep(content, slide);
    TrimmedPartsShape(Captures(FindAll(Comment, content, 0), 0));
    AppendTwice(CommentNotes(content), CaretNotes(s4.content));
    Erase(Comment, content);
    Erase(Note, s4.content);
  }

  /** The first three extractors never touch the notes. */
  lemma AnnotatedNotes(content: string)
    ensures Annotated(content).slide.notes == ""
  {
  }

  /** parseSlide's notes: the comment notes of what the first three extractors leave, then its caret notes. */
  lemma SlideNotes(content: string)
    ensures var a := Annotated(content).content;
      SlideOf(content).notes == Join(CommentNotes(a) + CaretNotes(CommentNoteStep(a, Annotated(content).slide).content), "\n")
  {
    var s3 := Annotated(content);
    AnnotatedNotes(content);
    NotesOrder(s3.content, s3.slide);
  }

  /** A slide's content is its own trim. */
  lemma SlideContentTrimmed(content: string)
    ensures TrimSpace(SlideOf(content).content) == SlideOf(content).content
  {
    var s3 := Annotated(content);
    var s4 := CommentNoteStep(s3.content, s3.slide);
    var s5 := CaretNoteStep(s4.content, s4.slide);
    TrimSpaceIdem(s5.content);
  }

  // ----- blocks without marks -------------------------------------------------------

  /** No character that starts a comment, a directive, an image or a caret note. */
  predicate Unmarked(s: string) {
    forall i :: 0 <= i < |s| ==> s[i] != '<' && s[i] != '[' && s[i] != '!' && s[i] != '^'
  }

  /** In unmarked text no pattern matches anywhere. */
  lemma UnmarkedNoMatch(p: Pattern, s: string)
    requires Unmarked(s)
    ensures NextMatch(p, s, 0).None?
  {
    forall j: nat ensures MatchAt(p, s, j).None? {
      UnmarkedNoMatchAt(p, s, j);
    }
  }

  lemma UnmarkedNoMatchAt(p: Pattern, s: string, j: nat)
    requires Unmarked(s)
    ensures MatchAt(p, s, j).None?
  {
    forall i | 0 <= i && i + 4 <= |s| ensures !OccursAt(s, "<!--", i) {
      assert s[i..i + 4][0] == s[i];
    }
  }

  /** A block with none of the extractors' marks becomes a slide holding just its trimmed text. */
  lemma PlainBlock(content: string)
    requires Unmarked(content)
    ensures SlideOf(content) == Slide(NoSlideMetadata, TrimSpace(content), "")
  {
    UnmarkedNoMatch(SlideFrontmatter, content);
    UnmarkedNoMatch(Directive, content);
    UnmarkedNoMatch(Image, content);
    UnmarkedNoMatch(Comment, content);
    UnmarkedNoMatch(Note, content);
    NoMatchUnchanged(SlideFrontmatter, content);
    NoMatchUnchanged(Directive, content);
    NoMatchUnchanged(Image, content);
    NoMatchUnchanged(Comment, content);
    NoMatchUnchanged(Note, content);
    assert Annotated(content) == Step(content, NewSlide());
    assert CommentNoteStep(content, NewSlide()) == Step(content, NewSlide());
  }
}
