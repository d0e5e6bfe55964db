/**
 * The HTML generator: the rule that picks a slide's time-to-next, the slide
 * element with its optional attributes and notes, layouts as CSS grids, the
 * paragraph split for layouts, the document title, and the MIME type of an
 * image file. The Markdown conversion and the image inlining are
 * parameters: goldmark and the file system are not part of this model.
 */
module HtmlGen {
  import opened Wrappers
  import opened Text
  import opened Slides
  import opened Escaping

  /** The generator's options. */
  datatype Options = Options(
    theme: string,
    title: string,
    aspectRatio: string,
    basePath: string,
    presentationMetadata: PresentationMetadata)

  /**
   * A generator: its options, goldmark's Markdown conversion (None when the
   * conversion fails) and the image inlining applied to converted HTML; both
   * functions are outside this model.
   */
  datatype Generator = Generator(options: Options, convert: string -> Option<string>, inline: string -> string)

  /** NewGenerator: an empty theme becomes "dark"; every other option is kept. */
  function NewGenerator(opts: Options, convert: string -> Option<string>, inline: string -> string): (g: Generator)
    ensures g.options.theme != ""
    ensures opts.theme != "" ==> g.options == opts
    ensures opts.theme == "" ==> g.options.theme == "dark" && g.options.(theme := "") == opts
    ensures forall markdown :: g.convert(markdown) == convert(markdown)
    ensures forall html :: g.inline(html) == inline(html)
  {
    var o := if opts.theme == "" then opts.(theme := "dark") else opts;
    Generator(o, convert, inline)
  }

  /** markdownToHTML: the converted HTML with its images inlined, trimmed; the raw Markdown when conversion fails. */
  function MarkdownToHTML(g: Generator, markdown: string): string {
    match g.convert(markdown)
    case None => markdown
    case Some(html) => TrimSpace(g.inline(html))
  }

  /**
   * A failed conversion falls back to the raw Markdown, untrimmed; a successful
   * one neither starts nor ends with white space.
   */
  lemma MarkdownToHTMLResult(g: Generator, markdown: string)
    ensures g.convert(markdown).None? ==> MarkdownToHTML(g, markdown) == markdown
    ensures g.convert(markdown).Some? ==>
      var h := MarkdownToHTML(g, markdown);
      h == [] || (!IsSpace(h[0], Unicode) && !IsSpace(h[|h| - 1], Unicode))
  {
    if g.convert(markdown).Some? {
      TrimEnds(g.inline(g.convert(markdown).value), Unicode);
    }
  }

  // ----- time-to-next -------------------------------------------------------------

  /**
   * The time-to-next a slide gets: its own value unless that is 0 ("unset"),
   * in which case the presentation's value when that is positive, else 0.
   */
  function EffectiveTimeToNext(slideValue: int, presentationValue: int): (t: int)
    ensures slideValue != 0 ==> t == slideValue
    ensures slideValue == 0 && presentationValue > 0 ==> t == presentationValue
    ensures slideValue == 0 && presentationValue <= 0 ==> t == 0
  {
    var t := slideValue;
    if t == 0 && presentationValue > 0 then presentationValue else t
  }

  /**
   * The attribute is written exactly when the slide's own value is positive, or
   * it is unset and the presentation's is positive; a negative slide value
   * hides the presentation's.
   */
  lemma TimeToNextEmitted(slideValue: int, presentationValue: int)
    ensures EffectiveTimeToNext(slideValue, presentationValue) > 0
      <==> slideValue > 0 || (slideValue == 0 && presentationValue > 0)
  {
  }

  // ----- the attributes of a slide element ------------------------------------------

  /** One HTML attribute, written ` name="value"`. */
  datatype Attr = Attr(name: string, value: string)

  function AttrText(a: Attr): string {
    " " + a.name + "=\"" + a.value + "\""
  }

  /** The attributes, written one after the other. */
  function AttrsText(attrs: seq<Attr>): string
    decreases |attrs|
  {
    if |attrs| == 0 then "" else AttrsText(attrs[..|attrs| - 1]) + AttrText(attrs[|attrs| - 1])
  }

  const TimeToNextName := "data-time-to-next"
  const BodyStyleName := "data-body-style"
  const BodyClassName := "data-body-class"

  function TimeToNextAttrs(t: int): seq<Attr> {
    if t > 0 then [Attr(TimeToNextName, Itoa(t))] else []
  }

  function BodyStyleAttrs(style: string): seq<Attr> {
    if style != "" then [Attr(BodyStyleName, EscapeAttr(style))] else []
  }

  function BodyClassAttrs(cssClass: string): seq<Attr> {
    if cssClass != "" then [Attr(BodyClassName, EscapeAttr(cssClass))] else []
  }

  /** The attributes of a slide's element: time-to-next, body style, body class, each only when set. */
  function SlideAttrs(pm: PresentationMetadata, md: SlideMetadata): seq<Attr> {
    TimeToNextAttrs(EffectiveTimeToNext(md.timeToNext, pm.timeToNext))
      + BodyStyleAttrs(md.bodyStyle) + BodyClassAttrs(md.bodyClass)
  }

  predicate HasAttr(attrs: seq<Attr>, name: string) {
    exists i :: 0 <= i < |attrs| && attrs[i].name == name
  }

  /**
   * `data-time-to-next` is present exactly when the effective value is
   * positive, and its text reads back as that value.
   */
  lemma TimeToNextAttr(pm: PresentationMetadata, md: SlideMetadata)
    requires IsInt64(pm.timeToNext) && IsInt64(md.timeToNext)
    ensures var attrs := SlideAttrs(pm, md);
      var t := EffectiveTimeToNext(md.timeToNext, pm.timeToNext);
      && (HasAttr(attrs, TimeToNextName) <==> t > 0)
      && (forall i :: 0 <= i < |attrs| && attrs[i].name == TimeToNextName ==> ParseInt(attrs[i].value) == Some(t))
  {
    var t := EffectiveTimeToNext(md.timeToNext, pm.timeToNext);
    SlideAttrRuns(pm, md);
    if t > 0 {
      ParseItoa(t);
    }
  }

  /**
   * `data-body-style` and `data-body-class` are present exactly when their
   * field is set, hold no `"`, and read back as the field when it has no `&`.
   */
  lemma BodyAttrs(pm: PresentationMetadata, md: SlideMetadata)
    ensures var attrs := SlideAttrs(pm, md);
      && (HasAttr(attrs, BodyStyleName) <==> md.bodyStyle != "")
      && (HasAttr(attrs, BodyClassName) <==> md.bodyClass != "")
      && (forall i :: 0 <= i < |attrs| && attrs[i].name == BodyStyleName ==> AttrValueOf(attrs[i].value, md.bodyStyle))
      && (forall i :: 0 <= i < |attrs| && attrs[i].name == BodyClassName ==> AttrValueOf(attrs[i].value, md.bodyClass))
  {
    SlideAttrRuns(pm, md);
    EscapeAttrSafe(md.bodyStyle);
    EscapeAttrSafe(md.bodyClass);
    if NoChar(md.bodyStyle, '&') {
      UnescapeEscapeAttr(md.bodyStyle);
    }
    if NoChar(md.bodyClass, '&') {
      UnescapeEscapeAttr(md.bodyClass);
    }
  }

  /** Each of the three attribute names is present iff its attribute is emitted, and names only that attribute. */
  lemma SlideAttrRuns(pm: PresentationMetadata, md: SlideMetadata)
    ensures var attrs := SlideAttrs(pm, md);
      var t := EffectiveTimeToNext(md.timeToNext, pm.timeToNext);
      var a0, a1, a2 := Attr(TimeToNextName, Itoa(t)), Attr(BodyStyleName, EscapeAttr(md.bodyStyle)),
        Attr(BodyClassName, EscapeAttr(md.bodyClass));
      && (HasAttr(attrs, TimeToNextName) <==> t > 0)
      && (HasAttr(attrs, BodyStyleName) <==> md.bodyStyle != "")
      && (HasAttr(attrs, BodyClassName) <==> md.bodyClass != "")
      && (forall i :: 0 <= i < |attrs| && attrs[i].name == TimeToNextName ==> attrs[i] == a0)
      && (forall i :: 0 <= i < |attrs| && attrs[i].name == BodyStyleName ==> attrs[i] == a1)
      && (forall i :: 0 <= i < |attrs| && attrs[i].name == BodyClassName ==> attrs[i] == a2)
  {
    var t := EffectiveTimeToNext(md.timeToNext, pm.timeToNext);
    NamesDistinct();
    ThreeRuns(SlideAttrs(pm, md), TimeToNextAttrs(t), BodyStyleAttrs(md.bodyStyle), BodyClassAttrs(md.bodyClass),
      Attr(TimeToNextName, Itoa(t)), Attr(BodyStyleName, EscapeAttr(md.bodyStyle)),
      Attr(BodyClassName, EscapeAttr(md.bodyClass)));
  }

  lemma NamesDistinct()
    ensures TimeToNextName != BodyStyleName && TimeToNextName != BodyClassName && BodyStyleName != BodyClassName
  {
    assert TimeToNextName[5] != BodyStyleName[5] && TimeToNextName[5] != BodyClassName[5];
    assert BodyStyleName[10] != BodyClassName[10];
  }

  /** Three runs of at most one attribute each, under three different names. */
  lemma ThreeRuns(attrs: seq<Attr>, r0: seq<Attr>, r1: seq<Attr>, r2: seq<Attr>, a0: Attr, a1: Attr, a2: Attr)
    requires attrs == r0 + r1 + r2
    requires (r0 == [] || r0 == [a0]) && (r1 == [] || r1 == [a1]) && (r2 == [] || r2 == [a2])
    requires a0.name != a1.name && a0.name != a2.name && a1.name != a2.name
    ensures HasAttr(attrs, a0.name) <==> r0 != []
    ensures HasAttr(attrs, a1.name) <==> r1 != []
    ensures HasAttr(attrs, a2.name) <==> r2 != []
    ensures forall i :: 0 <= i < |attrs| ==> attrs[i] == a0 || attrs[i] == a1 || attrs[i] == a2
  {
    if r0 != [] {
      assert attrs[0] == a0;
    }
    if r1 != [] {
      assert attrs[|r0|] == a1;
    }
    if r2 != [] {
      assert attrs[|r0| + |r1|] == a2;
    }
    forall i | 0 <= i < |attrs| ensures (attrs[i] == a0 && r0 != []) || (attrs[i] == a1 && r1 != []) || (attrs[i] == a2 && r2 != []) {
      if i < |r0| {
        assert attrs[i] == r0[i];
      } else if i < |r0| + |r1| {
        assert attrs[i] == r1[i - |r0|];
      } else {
        assert attrs[i] == r2[i - |r0| - |r1|];
      }
    }
  }

  /** An attribute value written for a field: no `"` in it, and it reads back as the field when the field has no `&`. */
  predicate AttrValueOf(value: string, field: string) {
    NoChar(value, '"') && (NoChar(field, '&') ==> Unescape(value) == field)
  }

  lemma {:induction false} AttrsTextSnoc(attrs: seq<Attr>, a: Attr)
    ensures AttrsText(attrs + [a]) == AttrsText(attrs) + AttrText(a)
  {
    TakeSnoc(attrs, a);
  }

  // ----- notes ------------------------------------------------------------------------

  const NotesOpen := "\n    <notes>"
  const NotesClose := "</notes>"

  /** The notes element: absent without notes, else the notes escaped for HTML. */
  function NotesElement(notes: string): (e: string)
    ensures e == "" <==> notes == ""
  {
    if notes != "" then NotesOpen + EscapeHTML(notes) + NotesClose else ""
  }

  /** The text inside the notes element holds no markup and reads back as the notes. */
  lemma NotesElementText(notes: string)
    requires notes != ""
    ensures var e := NotesElement(notes);
      && |e| >= |NotesOpen| + |NotesClose|
      && HasPrefix(e, NotesOpen) && HasSuffix(e, NotesClose)
      && NoMarkup(e[|NotesOpen|..|e| - |NotesClose|])
      && Unescape(e[|NotesOpen|..|e| - |NotesClose|]) == notes
  {
    var x := EscapeHTML(notes);
    var e := NotesOpen + x + NotesClose;
    assert e[|NotesOpen|..|e| - |NotesClose|] == x;
    assert e[..|NotesOpen|] == NotesOpen;
    assert e[|e| - |NotesClose|..] == NotesClose;
    EscapeHTMLSafe(notes);
    UnescapeEscapeHTML(notes);
  }

  // ----- layouts ----------------------------------------------------------------------

  /** The named layouts and their CSS grid declarations. */
  const GridStyles: map<string, string> := map[
    "50-50" := "grid-template-columns: 50% 50%;",
    "75-25" := "grid-template-columns: 75% 25%;",
    "25-75" := "grid-template-columns: 25% 75%;",
    "75-25-rows" := "grid-template-rows: 75% 25%;",
    "25-75-rows" := "grid-template-rows: 25% 75%;",
    "50-50-rows" := "grid-template-rows: 50% 50%;",
    "grid-3x2" := "grid-template-columns: repeat(3, 1fr); grid-template-rows: repeat(2, 1fr);",
    "grid-2x3" := "grid-template-columns: repeat(2, 1fr); grid-template-rows: repeat(3, 1fr);"]

  /** layoutToGridStyle: a named layout gives its grid declaration; any other text is used as the style itself. */
  function LayoutToGridStyle(layout: string): (style: string)
    ensures layout in GridStyles ==> style == GridStyles[layout]
    ensures layout !in GridStyles ==> style == layout
  {
    if layout == "50-50" then "grid-template-columns: 50% 50%;"
    else if layout == "75-25" then "grid-template-columns: 75% 25%;"
    else if layout == "25-75" then "grid-template-columns: 25% 75%;"
    else if layout == "75-25-rows" then "grid-template-rows: 75% 25%;"
    else if layout == "25-75-rows" then "grid-template-rows: 25% 75%;"
    else if layout == "50-50-rows" then "grid-template-rows: 50% 50%;"
    else if layout == "grid-3x2" then "grid-template-columns: repeat(3, 1fr); grid-template-rows: repeat(2, 1fr);"
    else if layout == "grid-2x3" then "grid-template-columns: repeat(2, 1fr); grid-template-rows: repeat(3, 1fr);"
    else layout
  }

  /** Exactly the named layouts are translated: a grid declaration is never a layout name itself. */
  lemma GridStyleNamed(layout: string)
    ensures layout in GridStyles <==> LayoutToGridStyle(layout) != layout
  {
    if layout in GridStyles {
      assert |layout| <= 10 < |GridStyles[layout]|;
    }
  }

  /** splitContentForLayout: the content cut at blank lines ("\n\n"), each piece trimmed, the empty ones dropped. */
  method SplitContentForLayout(content: string) returns (parts: seq<string>)
    ensures parts == TrimmedParts(Split(content, "\n\n"))
  {
    var sections := Split(content, "\n\n");
    parts := [];
    for i := 0 to |sections|
      invariant parts == TrimmedParts(sections[..i])
    {
      TrimmedPartsSnoc(sections, i);
      var section := TrimSpace(sections[i]);
      if section != "" {
        parts := parts + [section];
      }
    }
    assert sections[..|sections|] == sections;
  }

  /** Text with no blank line in it is one paragraph, when it is not blank. */
  lemma SingleParagraph(content: string)
    requires !Contains(content, "\n\n") && TrimSpace(content) != ""
    ensures TrimmedParts(Split(content, "\n\n")) == [TrimSpace(content)]
  {
    assert Split(content, "\n\n") == [content];
    TakeNone([content]);
  }

  /** One part of a layout, rendered on its own line. */
  function PartHTML(g: Generator, part: string): string {
    "\n      " + MarkdownToHTML(g, part)
  }

  function PartRenderer(g: Generator): string -> string {
    part => PartHTML(g, part)
  }

  /** Each part of a layout, rendered on its own line. */
  function PartsHTML(g: Generator, parts: seq<string>): string {
    ConcatMap(PartRenderer(g), parts)
  }

  /** Parts are rendered independently: the rendering of two runs of parts is the two renderings. */
  lemma PartsHTMLAppend(g: Generator, a: seq<string>, b: seq<string>)
    ensures PartsHTML(g, a + b) == PartsHTML(g, a) + PartsHTML(g, b)
  {
    ConcatMapAppend(PartRenderer(g), a, b);
  }

  const LayoutOpen := "\n    <div class=\"layout\" style=\""
  const LayoutClose := "\n    </div>"

  /** The grid a slide with a layout becomes: one item per paragraph, in order. */
  function LayoutSlideHTML(g: Generator, slide: Slide): string {
    LayoutOpen + LayoutToGridStyle(slide.metadata.layout) + "\">"
      + PartsHTML(g, TrimmedParts(Split(slide.content, "\n\n"))) + LayoutClose
  }

  /** generateLayoutSlide */
  method GenerateLayoutSlide(g: Generator, slide: Slide) returns (html: string)
    ensures html == LayoutSlideHTML(g, slide)
  {
    var gridStyle := LayoutToGridStyle(slide.metadata.layout);
    var parts := SplitContentForLayout(slide.content);
    html := WriteParts(g, LayoutOpen + gridStyle + "\">", parts);
    html := html + LayoutClose;
  }

  /** The loop of generateLayoutSlide: each part, rendered on its own line, after what is written. */
  method WriteParts(g: Generator, open: string, parts: seq<string>) returns (html: string)
    ensures html == open + PartsHTML(g, parts)
  {
    html := open;
    for i := 0 to |parts|
      invariant html == open + PartsHTML(g, parts[..i])
    {
      var item := PartHTML(g, parts[i]);
      ConcatMapSnoc(PartRenderer(g), parts, i);
      Assoc(open, PartsHTML(g, parts[..i]), item);
      html := html + item;
    }
    assert parts[..|parts|] == parts;
  }

  // ----- slides -----------------------------------------------------------------------

  /** A slide's body: the grid when it has a layout, else its rendered Markdown. */
  function SlideBody(g: Generator, slide: Slide): string {
    if slide.metadata.layout != "" then LayoutSlideHTML(g, slide) else MarkdownToHTML(g, slide.content)
  }

  const SlideOpen := "  <div"

  /** The element of one slide. */
  function SlideHTML(g: Generator, slide: Slide): string {
    SlideTag(g.options.presentationMetadata, slide.metadata) + SlideBody(g, slide) + NotesElement(slide.notes) + "\n  </div>"
  }

  /** The opening tag of a slide's element. */
  function SlideTag(pm: PresentationMetadata, md: SlideMetadata): string {
    SlideOpen + AttrsText(SlideAttrs(pm, md)) + ">"
  }

  /** generateSlide: the element is built piece by piece, each optional attribute and the notes only when set. */
  method GenerateSlide(g: Generator, slide: Slide) returns (html: string)
    ensures html == SlideHTML(g, slide)
  {
    html := WriteSlideTag(g.options.presentationMetadata, slide.metadata);
    ghost var tag := html;
    if slide.metadata.layout != "" {
      var layoutHTML := GenerateLayoutSlide(g, slide);
      html := html + layoutHTML;
    } else {
      html := html + MarkdownToHTML(g, slide.content);
    }
    assert html == tag + SlideBody(g, slide);
    ghost var body := html;
    if slide.notes != "" {
      html := html + (NotesOpen + EscapeHTML(slide.notes) + NotesClose);
    } else {
      assert html == html + NotesElement(slide.notes);
    }
    assert html == body + NotesElement(slide.notes);
    html := html + "\n  </div>";
  }

  /** The opening tag of generateSlide: the time-to-next falls back to the presentation's, and each attribute is written only when set. */
  method WriteSlideTag(pm: PresentationMetadata, md: SlideMetadata) returns (html: string)
    ensures html == SlideTag(pm, md)
  {
    html := SlideOpen;
    var timeToNext := md.timeToNext;
    if timeToNext == 0 && pm.timeToNext > 0 {
      timeToNext := pm.timeToNext;
    }
    if timeToNext > 0 {
      html := html + AttrText(Attr(TimeToNextName, Itoa(timeToNext)));
    }
    ghost var written := TimeToNextAttrs(timeToNext);
    FirstAttr(timeToNext, html);
    ghost var before := html;
    if md.bodyStyle != "" {
      html := html + AttrText(Attr(BodyStyleName, EscapeAttr(md.bodyStyle)));
    }
    NextAttr(written, BodyStyleAttrs(md.bodyStyle), before, html);
    written := written + BodyStyleAttrs(md.bodyStyle);
    before := html;
    if md.bodyClass != "" {
      html := html + AttrText(Attr(BodyClassName, EscapeAttr(md.bodyClass)));
    }
    NextAttr(written, BodyClassAttrs(md.bodyClass), before, html);
    written := written + BodyClassAttrs(md.bodyClass);
    assert written == SlideAttrs(pm, md);
    html := html + ">";
  }

  /** The tag after the time-to-next attribute, if any. */
  lemma FirstAttr(t: int, html: string)
    requires html == if t > 0 then SlideOpen + AttrText(Attr(TimeToNextName, Itoa(t))) else SlideOpen
    ensures html == SlideOpen + AttrsText(TimeToNextAttrs(t))
  {
    if t > 0 {
      AttrsTextOne(Attr(TimeToNextName, Itoa(t)));
    }
  }

  lemma AttrsTextOne(a: Attr)
    ensures AttrsText([a]) == AttrText(a)
  {
    TakeNone([a]);
  }

  /** The tag after one more optional attribute. */
  lemma NextAttr(attrs: seq<Attr>, extra: seq<Attr>, before: string, html: string)
    requires before == SlideOpen + AttrsText(attrs) && |extra| <= 1
    requires html == if |extra| == 1 then before + AttrText(extra[0]) else before
    ensures html == SlideOpen + AttrsText(attrs + extra)
  {
    if |extra| == 1 {
      AttrsTextSnoc(attrs, extra[0]);
      Assoc(SlideOpen, AttrsText(attrs), AttrText(extra[0]));
      Singleton(extra, extra[0]);
    } else {
      AppendEmpty(attrs, extra);
    }
  }

  /** Every slide element opens with `<div`, closes with `</div>`, and ends with its notes when it has some. */
  lemma SlideHTMLShape(g: Generator, slide: Slide)
    ensures var html := SlideHTML(g, slide);
      && HasPrefix(html, "  <div") && HasSuffix(html, NotesElement(slide.notes) + "\n  </div>")
  {
    var html := SlideHTML(g, slide);
    var front := SlideTag(g.options.presentationMetadata, slide.metadata) + SlideBody(g, slide);
    var back := NotesElement(slide.notes) + "\n  </div>";
    Assoc(front, NotesElement(slide.notes), "\n  </div>");
    assert html == front + back;
    assert html[|html| - |back|..] == back;
    assert html[..6] == "  <div";
  }

  /** One slide's element and the newline after it. */
  function SlideLine(g: Generator, slide: Slide): string {
    SlideHTML(g, slide) + "\n"
  }

  function SlideRenderer(g: Generator): Slide -> string {
    slide => SlideLine(g, slide)
  }

  /** The slide elements, each followed by a newline. */
  function SlidesHTML(g: Generator, slides: seq<Slide>): string {
    ConcatMap(SlideRenderer(g), slides)
  }

  /** generateSlides */
  method GenerateSlides(g: Generator, slides: seq<Slide>) returns (html: string)
    ensures html == SlidesHTML(g, slides)
  {
    html := "";
    for i := 0 to |slides|
      invariant html == SlidesHTML(g, slides[..i])
    {
      ConcatMapSnoc(SlideRenderer(g), slides, i);
      var slideHTML := GenerateSlide(g, slides[i]);
      Assoc(html, slideHTML, "\n");
      html := html + slideHTML + "\n";
    }
    assert slides[..|slides|] == slides;
  }

  /** Slides are rendered independently: the rendering of two runs of slides is the two renderings. */
  lemma SlidesHTMLAppend(g: Generator, a: seq<Slide>, b: seq<Slide>)
    ensures SlidesHTML(g, a + b) == SlidesHTML(g, a) + SlidesHTML(g, b)
  {
    ConcatMapAppend(SlideRenderer(g), a, b);
  }

  // ----- the title --------------------------------------------------------------------

  /** A trimmed line that opens a level-one heading. */
  predicate IsHeading(t: string) {
    HasPrefix(t, "# ")
  }

  /** The lines of the markdown, each with its surrounding white space trimmed. */
  function TrimmedLines(markdown: string): (ts: seq<string>)
    ensures |ts| == |Split(markdown, "\n")|
    ensures forall k :: 0 <= k < |ts| ==> ts[k] == TrimSpace(Split(markdown, "\n")[k])
  {
    var lines := Split(markdown, "\n");
    seq(|lines|, k requires 0 <= k < |lines| => TrimSpace(lines[k]))
  }

  /** The first trimmed line, at or after i, that is a level-one heading. */
  function TitleIndex(ts: seq<string>, i: nat): (r: Option<nat>)
    requires i <= |ts|
    ensures r.Some? ==> i <= r.value < |ts| && IsHeading(ts[r.value])
    ensures r.Some? ==> forall j :: i <= j < r.value ==> !IsHeading(ts[j])
    ensures r.None? ==> forall j :: i <= j < |ts| ==> !IsHeading(ts[j])
    decreases |ts| - i
  {
    if i == |ts| then None
    else if IsHeading(ts[i]) then Some(i)
    else TitleIndex(ts, i + 1)
  }

  /** A trimmed heading line has text after its `# `. */
  lemma TitleLineText(line: string)
    requires IsHeading(TrimSpace(line))
    ensures |TrimSpace(line)| > 2
  {
    TrimShape(line, Unicode);
    SecondSpace(TrimSpace(line));
  }

  lemma SecondSpace(t: string)
    requires HasPrefix(t, "# ") && !IsSpace(t[|t| - 1], Unicode)
    ensures |t| > 2
  {
    assert t[1] == "# "[1];
  }

  /** Every heading among the trimmed lines has text after its `# `. */
  lemma HeadingsHaveText(markdown: string)
    ensures var ts := TrimmedLines(markdown);
      forall k :: 0 <= k < |ts| && IsHeading(ts[k]) ==> |ts[k]| > 2
  {
    var ts := TrimmedLines(markdown);
    forall k | 0 <= k < |ts| && IsHeading(ts[k]) ensures |ts[k]| > 2 {
      TitleLineText(Split(markdown, "\n")[k]);
    }
  }

  /** Trimmed line i is the first level-one heading. */
  predicate FirstHeading(ts: seq<string>, i: int) {
    0 <= i < |ts| && IsHeading(ts[i]) && forall j :: 0 <= j < i ==> !IsHeading(ts[j])
  }

  /**
   * extractTitle: the text after `# ` on the first line whose trimmed form
   * starts with `# `; "" when there is none. A found title is never empty.
   */
  function ExtractTitle(markdown: string): (title: string)
    ensures var ts := TrimmedLines(markdown);
      title == "" <==> forall j :: 0 <= j < |ts| ==> !IsHeading(ts[j])
    ensures var ts := TrimmedLines(markdown);
      title != "" ==> exists i :: FirstHeading(ts, i) && title == ts[i][2..]
  {
    HeadingsHaveText(markdown);
    HeadingText(TrimmedLines(markdown))
  }

  /** The text after `# ` on the first heading among trimmed lines whose headings all have text. */
  function HeadingText(ts: seq<string>): (title: string)
    requires forall k :: 0 <= k < |ts| && IsHeading(ts[k]) ==> |ts[k]| > 2
    ensures title == "" <==> forall j :: 0 <= j < |ts| ==> !IsHeading(ts[j])
    ensures title != "" ==> exists i :: FirstHeading(ts, i) && title == ts[i][2..]
  {
    match TitleIndex(ts, 0)
    case None => ""
    case Some(i) =>
      assert FirstHeading(ts, i);
      ts[i][2..]
  }

  /** The document title: the title option, else the first slide's heading, else "Presentation". */
  function DocumentTitle(option: string, slides: seq<Slide>): (title: string)
    ensures title != ""
    ensures option != "" ==> title == option
    ensures option == "" && |slides| > 0 && ExtractTitle(slides[0].content) != "" ==> title == ExtractTitle(slides[0].content)
    ensures option == "" && (|slides| == 0 || ExtractTitle(slides[0].content) == "") ==> title == "Presentation"
  {
    var title := if option == "" && |slides| > 0 then ExtractTitle(slides[0].content) else option;
    if title == "" then "Presentation" else title
  }

  // ----- MIME types -------------------------------------------------------------------

  /** The last dot in the final path element, scanning back from i. */
  function LastDot(path: string, i: nat): (r: Option<nat>)
    requires i <= |path|
    ensures r.Some? ==> r.value < i && path[r.value] == '.' && forall k :: r.value < k < i ==> path[k] != '.' && path[k] != '/'
    decreases i
  {
    if i == 0 || path[i - 1] == '/' then None
    else if path[i - 1] == '.' then Some(i - 1)
    else LastDot(path, i - 1)
  }

  /** filepath.Ext: from the last dot of the final path element to the end, or "". */
  function Ext(path: string): (e: string)
    ensures e == "" || (e[0] == '.' && HasSuffix(path, e) && forall k :: 0 < k < |e| ==> e[k] != '.' && e[k] != '/')
  {
    match LastDot(path, |path|)
    case None => ""
    case Some(k) =>
      assert path[|path| - |path[k..]|..] == path[k..];
      path[k..]
  }

  /** The image types the generator knows, by lower-case extension. */
  const MimeTypes: map<string, string> := map[
    ".jpg" := "image/jpeg", ".jpeg" := "image/jpeg", ".png" := "image/png",
    ".gif" := "image/gif", ".svg" := "image/svg+xml", ".webp" := "image/webp"]

  /** detectContentType: the MIME type of the file's extension, ignoring case; octet-stream otherwise. */
  function DetectContentType(filename: string): (mime: string)
    ensures var ext := ToLower(Ext(filename));
      && (ext in MimeTypes ==> mime == MimeTypes[ext])
      && (ext !in MimeTypes ==> mime == "application/octet-stream")
  {
    MimeOf(ToLower(Ext(filename)))
  }

  /** The switch on the lower-cased extension. */
  function MimeOf(ext: string): (mime: string)
    ensures ext in MimeTypes ==> mime == MimeTypes[ext]
    ensures ext !in MimeTypes ==> mime == "application/octet-stream"
  {
    if ext == ".jpg" || ext == ".jpeg" then "image/jpeg"
    else if ext == ".png" then "image/png"
    else if ext == ".gif" then "image/gif"
    else if ext == ".svg" then "image/svg+xml"
    else if ext == ".webp" then "image/webp"
    else "application/octet-stream"
  }

  /** A name ending in a dot and a dot-free, slash-free tail has that extension. */
  lemma ExtOfName(name: string, ext: string)
    requires |ext| > 0 && ext[0] == '.' && forall k :: 0 < k < |ext| ==> ext[k] != '.' && ext[k] != '/'
    ensures Ext(name + ext) == ext
  {
    var path := name + ext;
    ExtScan(path, |name|, |path|);
  }

  lemma {:induction false} ExtScan(path: string, d: nat, i: nat)
    requires d < i <= |path| && path[d] == '.' && forall k :: d < k < |path| ==> path[k] != '.' && path[k] != '/'
    ensures LastDot(path, i) == Some(d)
    decreases i
  {
    if i - 1 > d {
      ExtScan(path, d, i - 1);
    }
  }

  /** The type depends on the extension only, whatever its case: `.JPG` is a JPEG. */
  lemma DetectJpegUpperCase(name: string)
    ensures DetectContentType(name + ".JPG") == "image/jpeg"
  {
    ExtOfName(name, ".JPG");
    LowerOf(".JPG", ".jpg");
  }

  /** An extension outside the table gives the generic type. */
  lemma DetectUnknown(name: string)
    ensures DetectContentType(name + ".txt") == "application/octet-stream"
  {
    ExtOfName(name, ".txt");
    LowerOf(".txt", ".txt");
    DiffAt(".txt", ".jpg", 1); DiffAt(".txt", ".jpeg", 1); DiffAt(".txt", ".png", 1);
    DiffAt(".txt", ".gif", 1); DiffAt(".txt", ".svg", 1); DiffAt(".txt", ".webp", 1);
    MimeOfOther(".txt");
  }

  /** An extension that is none of the six known ones gives the generic type. */
  lemma MimeOfOther(ext: string)
    requires ext != ".jpg" && ext != ".jpeg" && ext != ".png" && ext != ".gif" && ext != ".svg" && ext != ".webp"
    ensures MimeOf(ext) == "application/octet-stream"
  {
  }

  lemma DiffAt(s: string, t: string, i: int)
    requires 0 <= i < |s| && i < |t| && s[i] != t[i]
    ensures s != t
  {
  }

  lemma LowerOf(s: string, t: string)
    requires |s| == |t| && forall i :: 0 <= i < |s| ==> LowerChar(s[i]) == t[i]
    ensures ToLower(s) == t
  {
  }
}
