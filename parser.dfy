/**
 * The Markdown-to-slides parser: document-wide configuration, the split into
 * blocks at horizontal rules, and the per-block pipeline of extractors.
 *
 * Every step is first given as a function (the specification), and the
 * operations that loop or update state are methods proved equal to it.
 */
module Parsing {
  import opened Wrappers
  import opened Text
  import opened Slides
  import opened Yaml
  import opened Patterns

  /** A block of slide text part-way through the pipeline, with the slide built so far. */
  datatype Step = Step(content: string, slide: Slide)

  /** The document once its configuration is removed, and the presentation metadata. */
  datatype Stripped = Stripped(content: string, metadata: PresentationMetadata)

  /** The parser's output: the kept slides and the presentation metadata. */
  datatype Document = Document(slides: seq<Slide>, metadata: PresentationMetadata)

  /** The decoded value, or the value it was decoded into when decoding failed (a warning only). */
  function OrElse<T>(r: Option<T>, current: T): T {
    match r
    case Some(v) => v
    case None => current
  }

  // ----- delimiter lines --------------------------------------------------------

  function CountDashes(s: string): (n: nat)
    ensures n <= |s|
    decreases |s|
  {
    if |s| == 0 then 0 else CountDashes(s[..|s| - 1]) + (if s[|s| - 1] == '-' then 1 else 0)
  }

  /** A horizontal rule: at least three characters, only dashes and spaces, at least three dashes. */
  predicate IsDelimiter(line: string) {
    |line| >= 3 && (forall i :: 0 <= i < |line| ==> line[i] == '-' || line[i] == ' ') && CountDashes(line) >= 3
  }

  /** isHorizontalRule */
  method IsHorizontalRule(line: string) returns (r: bool)
    ensures r <==> IsDelimiter(line)
  {
    if |line| < 3 {
      return false;
    }
    var i := 0;
    while i < |line|
      invariant 0 <= i <= |line|
      invariant forall k :: 0 <= k < i ==> line[k] == '-' || line[k] == ' '
    {
      if line[i] != '-' && line[i] != ' ' {
        return false;
      }
      i := i + 1;
    }
    r := CountDashes(line) >= 3;
  }

  // ----- splitting into blocks ----------------------------------------------------

  /**
   * The lines a bufio.Scanner yields for text with `\n` line endings: split on
   * newlines, with no empty last line for a final newline. (The scanner also
   * drops a `\r` before each `\n`; this model keeps it.)
   */
  function ScannerLines(content: string): seq<string> {
    if content == "" then []
    else
      var parts := Split(content, "\n");
      if parts[|parts| - 1] == "" then parts[..|parts| - 1] else parts
  }

  /** The text a block's builder holds: each line followed by a newline. */
  function RenderLines(lines: seq<string>): string
    decreases |lines|
  {
    if |lines| == 0 then "" else RenderLines(lines[..|lines| - 1]) + lines[|lines| - 1] + "\n"
  }

  /** The lines between delimiter lines, in order: one more group than there are delimiters. */
  function Segments(lines: seq<string>): (segs: seq<seq<string>>)
    ensures |segs| >= 1
    decreases |lines|
  {
    if |lines| == 0 then [[]]
    else
      var segs := Segments(lines[..|lines| - 1]);
      var line := lines[|lines| - 1];
      if IsDelimiter(TrimSpace(line)) then segs + [[]]
      else segs[..|segs| - 1] + [segs[|segs| - 1] + [line]]
  }

  /** The rendered groups whose text is not blank. */
  function NonBlank(segs: seq<seq<string>>): seq<string>
    decreases |segs|
  {
    if |segs| == 0 then []
    else
      var text := RenderLines(segs[|segs| - 1]);
      NonBlank(segs[..|segs| - 1]) + (if TrimSpace(text) != "" then [text] else [])
  }

  /** What splitOnHorizontalRule returns for the document text. */
  function Blocks(content: string): seq<string> {
    NonBlank(Segments(ScannerLines(content)))
  }

  /** The state of the splitting loop after the first i lines: the finished blocks and the open one. */
  predicate SplitState(lines: seq<string>, i: nat, blocks: seq<string>, current: string)
    requires i <= |lines|
  {
    var segs := Segments(lines[..i]);
    current == RenderLines(segs[|segs| - 1]) && blocks == NonBlank(segs[..|segs| - 1])
  }

  /** A delimiter line closes the open block, which is kept when it is not blank. */
  lemma SplitAtRule(lines: seq<string>, i: nat, blocks: seq<string>, current: string)
    requires i < |lines| && SplitState(lines, i, blocks, current)
    requires IsDelimiter(TrimSpace(lines[i]))
    ensures SplitState(lines, i + 1, blocks + (if TrimSpace(current) != "" then [current] else []), "")
  {
    var segs := Segments(lines[..i]);
    assert lines[..i + 1][..i] == lines[..i];
    var segs' := Segments(lines[..i + 1]);
    assert segs' == segs + [[]];
    assert segs'[..|segs'| - 1] == segs;
    assert segs[..|segs| - 1] == segs[..|segs| - 1];
  }

  /** Any other line is added to the open block. */
  lemma SplitAtText(lines: seq<string>, i: nat, blocks: seq<string>, current: string)
    requires i < |lines| && SplitState(lines, i, blocks, current)
    requires !IsDelimiter(TrimSpace(lines[i]))
    ensures SplitState(lines, i + 1, blocks, current + lines[i] + "\n")
  {
    var segs := Segments(lines[..i]);
    assert lines[..i + 1][..i] == lines[..i];
    var last := segs[|segs| - 1] + [lines[i]];
    var segs' := Segments(lines[..i + 1]);
    assert segs' == segs[..|segs| - 1] + [last];
    assert segs'[..|segs'| - 1] == segs[..|segs| - 1];
    assert last[..|last| - 1] == segs[|segs| - 1];
  }

  /** The last block is kept when it is not blank. */
  lemma SplitAtEnd(lines: seq<string>, blocks: seq<string>, current: string)
    requires SplitState(lines, |lines|, blocks, current)
    ensures NonBlank(Segments(lines)) == blocks + (if TrimSpace(current) != "" then [current] else [])
  {
    assert lines[..|lines|] == lines;
  }

  /** splitOnHorizontalRule */
  method SplitOnHorizontalRule(content: string) returns (blocks: seq<string>)
    ensures blocks == Blocks(content)
  {
    var lines := ScannerLines(content);
    var current := "";
    blocks := [];
    var i := 0;
    while i < |lines|
      invariant 0 <= i <= |lines|
      invariant SplitState(lines, i, blocks, current)
    {
      var line := lines[i];
      var rule := IsHorizontalRule(TrimSpace(line));
      if rule {
        SplitAtRule(lines, i, blocks, current);
        if TrimSpace(current) != "" {
          blocks := blocks + [current];
        }
        current := "";
      } else {
        SplitAtText(lines, i, blocks, current);
        current := current + line + "\n";
      }
      i := i + 1;
    }
    SplitAtEnd(lines, blocks, current);
    if TrimSpace(current) != "" {
      blocks := blocks + [current];
    }
  }

  // ----- presentation configuration ----------------------------------------------

  /**
   * A top-of-file `key: value` line (the pattern `^([\w-]+):\s*(.+)\s*$` on one
   * line): the key is the whole leading `[\w-]` run, something must follow
   * its colon, and the value is that rest, trimmed.
   */
  function ConfigLine(line: string): (r: Option<Pair>)
    ensures r.Some? ==> IsKey(r.value.key)
  {
    var ke := SkipKey(line, 0);
    if ke == 0 || ke + 1 >= |line| || line[ke] != ':' then None
    else Some(Pair(line[..ke], TrimSpace(line[ke + 1..])))
  }

  /** The index of the first line from i on that is not blank. */
  function LeadingBlank(lines: seq<string>, i: nat): (b: nat)
    requires i <= |lines|
    ensures i <= b <= |lines|
    decreases |lines| - i
  {
    if i < |lines| && TrimSpace(lines[i]) == "" then LeadingBlank(lines, i + 1) else i
  }

  /** The end of the run of configuration lines that starts at i. */
  function ConfigRun(lines: seq<string>, i: nat): (e: nat)
    requires i <= |lines|
    ensures i <= e <= |lines|
    decreases |lines| - i
  {
    if i < |lines| && ConfigLine(lines[i]).Some? then ConfigRun(lines, i + 1) else i
  }

  /** How many lines the top-of-file configuration takes, blank lines above it included; 0 when there is none. */
  function ConfigEnd(lines: seq<string>): (n: nat)
    ensures n <= |lines|
  {
    var b := LeadingBlank(lines, 0);
    var e := ConfigRun(lines, b);
    if e > b then e else 0
  }

  /** The configuration map after reading the given lines: a later line wins over an earlier one with the same key. */
  function ConfigMap(lines: seq<string>): map<string, string>
    decreases |lines|
  {
    if |lines| == 0 then map[]
    else
      var m := ConfigMap(lines[..|lines| - 1]);
      match ConfigLine(lines[|lines| - 1])
      case None => m
      case Some(p) => m[p.key := p.raw]
  }

  /** extractDeckSetGlobalConfig, as a function of the document and the metadata so far. */
  function GlobalConfigStep(content: string, pm: PresentationMetadata): Stripped {
    var lines := Split(content, "\n");
    var n := ConfigEnd(lines);
    if n > 0 then
      Stripped(Join(lines[n..], "\n"), OrElse(UnmarshalPresentationMap(ConfigMap(lines[..n]), pm), pm))
    else Stripped(content, pm)
  }

  /** extractPresentationFrontmatter, as a function of the document and the metadata so far. */
  function PresentationStep(content: string, pm: PresentationMetadata): Stripped {
    match NextMatch(Presentation, content, 0)
    case Some(m) =>
      Stripped(ReplaceAll(Presentation, content), OrElse(UnmarshalPresentation(m.groups[0], pm), pm))
    case None => GlobalConfigStep(content, pm)
  }

  // ----- the per-block extractors ---------------------------------------------------

  /** extractFrontmatter: the first slide comment is decoded, every one is removed. */
  function FrontmatterStep(content: string, slide: Slide): Step {
    match NextMatch(SlideFrontmatter, content, 0)
    case None => Step(content, slide)
    case Some(m) =>
      var md := OrElse(UnmarshalSlide(m.groups[0], slide.metadata), slide.metadata);
      Step(ReplaceAll(SlideFrontmatter, content), slide.(metadata := md))
  }

  /** The `key: value` pair a directive contributes, both sides trimmed. */
  function DirectivePair(m: Match): Pair
    requires |m.groups| == 2
  {
    Pair(TrimSpace(m.groups[0]), TrimSpace(m.groups[1]))
  }

  /** The pairs of the directives, in order. */
  function DirectivePairs(ms: seq<Match>): (ps: seq<Pair>)
    requires forall i :: 0 <= i < |ms| ==> |ms[i].groups| == 2
    ensures |ps| == |ms|
    decreases |ms|
  {
    if |ms| == 0 then [] else DirectivePairs(ms[..|ms| - 1]) + [DirectivePair(ms[|ms| - 1])]
  }

  /** extractDeckSetDirectives: all directives are decoded together, then removed. */
  function DirectiveStep(content: string, slide: Slide): Step {
    var ms := FindAll(Directive, content, 0);
    if |ms| == 0 then Step(content, slide)
    else
      var md := OrElse(UnmarshalSlide(Render(DirectivePairs(ms)), slide.metadata), slide.metadata);
      Step(ReplaceAll(Directive, content), slide.(metadata := md))
  }

  /** Some image's alt text, lowered, contains the word. */
  predicate AnyModifier(ms: seq<Match>, word: string)
    requires forall i :: 0 <= i < |ms| ==> |ms[i].groups| == 2
    decreases |ms|
  {
    |ms| > 0 && (AnyModifier(ms[..|ms| - 1], word) || Mentions(ms[|ms| - 1], word))
  }

  /** The image's alt text, lowered, contains the word. */
  predicate Mentions(m: Match, word: string)
    requires |m.groups| == 2
  {
    Contains(ToLower(m.groups[0]), word)
  }

  /** The layout after the image pass: "50-50" when it was empty and an image sits left or right. */
  function ImageLayout(layout: string, hasLeft: bool, hasRight: bool): (r: string)
    ensures layout != "" ==> r == layout
    ensures layout == "" ==> (r == "50-50" <==> hasLeft || hasRight) && (r == "" <==> !hasLeft && !hasRight)
  {
    if layout == "" && (hasLeft || hasRight) then "50-50" else layout
  }

  /** processDeckSetImages: a left or right image defaults an empty layout to "50-50"; alt texts are dropped. */
  function ImageStep(content: string, slide: Slide): Step {
    var ms := FindAll(Image, content, 0);
    if |ms| == 0 then Step(content, slide)
    else
      var layout := ImageLayout(slide.metadata.layout, AnyModifier(ms, "left"), AnyModifier(ms, "right"));
      Step(ReplaceAll(Image, content), slide.(metadata := slide.metadata.(layout := layout)))
  }

  /** Notes appended to the slide's notes: joined by newlines, after a newline when there were notes already. */
  function AppendNotes(existing: string, notes: seq<string>): string {
    if |notes| == 0 then existing
    else (if existing != "" then existing + "\n" else "") + Join(notes, "\n")
  }

  /** extractNotes: every HTML comment left becomes a note and leaves the content. */
  function CommentNoteStep(content: string, slide: Slide): Step {
    var notes := TrimmedParts(Captures(FindAll(Comment, content, 0), 0));
    Step(ReplaceAll(Comment, content), slide.(notes := AppendNotes(slide.notes, notes)))
  }

  /** extractDeckSetNotes: every line that starts with `^` becomes a note and is emptied. */
  function CaretNoteStep(content: string, slide: Slide): Step {
    var notes := TrimmedParts(Captures(FindAll(Note, content, 0), 0));
    Step(ReplaceAll(Note, content), slide.(notes := AppendNotes(slide.notes, notes)))
  }

  /** The first three extractors of parseSlide: frontmatter, directives, images. */
  function Annotated(content: string): Step {
    var s1 := FrontmatterStep(content, NewSlide());
    var s2 := DirectiveStep(s1.content, s1.slide);
    ImageStep(s2.content, s2.slide)
  }

  /** parseSlide: the extractors in order, then the trimmed remainder as the content. */
  function SlideOf(content: string): Slide {
    var s3 := Annotated(content);
    var s4 := CommentNoteStep(s3.content, s3.slide);
    var s5 := CaretNoteStep(s4.content, s4.slide);
    s5.slide.(content := TrimSpace(s5.content))
  }

  /** f applied to each element, in order. */
  function MapSeq<A, B>(f: A -> B, xs: seq<A>): (ys: seq<B>)
    ensures |ys| == |xs|
    decreases |xs|
  {
    if |xs| == 0 then [] else MapSeq(f, xs[..|xs| - 1]) + [f(xs[|xs| - 1])]
  }

  lemma {:induction false} MapSeqAt<A, B>(f: A -> B, xs: seq<A>, i: int)
    requires 0 <= i < |xs|
    ensures MapSeq(f, xs)[i] == f(xs[i])
    decreases |xs|
  {
    var init := xs[..|xs| - 1];
    if i < |init| {
      MapSeqAt(f, init, i);
      assert init[i] == xs[i];
    }
  }

  /** parseSlide, as a value that can be applied to each block. */
  function SlideParser(): string -> Slide {
    content => SlideOf(content)
  }

  /** parseSlide applied to each block, in order. */
  function ParseBlocks(blocks: seq<string>): (ss: seq<Slide>)
    ensures |ss| == |blocks|
  {
    MapSeq(SlideParser(), blocks)
  }

  /** The i-th parsed slide is the slide of the i-th block. */
  lemma ParseBlocksAt(blocks: seq<string>, i: int)
    requires 0 <= i < |blocks|
    ensures ParseBlocks(blocks)[i] == SlideOf(blocks[i])
  {
    MapSeqAt(SlideParser(), blocks, i);
  }

  /** The slides whose trimmed content is not empty, in order. */
  function NonEmpty(ss: seq<Slide>): seq<Slide>
    decreases |ss|
  {
    if |ss| == 0 then []
    else
      var s := ss[|ss| - 1];
      NonEmpty(ss[..|ss| - 1]) + (if TrimSpace(s.content) != "" then [s] else [])
  }

  /** The slide alone when its trimmed content is not empty, else nothing. */
  function Kept(s: Slide): (r: seq<Slide>)
    ensures r == [s] <==> TrimSpace(s.content) != ""
    ensures r == [] <==> TrimSpace(s.content) == ""
  {
    if TrimSpace(s.content) != "" then [s] else []
  }

  /** The slides of the given blocks whose content is not empty. */
  function KeptSlides(blocks: seq<string>): seq<Slide> {
    NonEmpty(ParseBlocks(blocks))
  }

  /** What ParseString adds to the parser, from the document text and the metadata it had. */
  function ParseDocument(content: string, pm: PresentationMetadata): Document {
    var stripped := PresentationStep(content, pm);
    Document(KeptSlides(Blocks(stripped.content)), stripped.metadata)
  }

  // ----- the parser --------------------------------------------------------------------

  class Parser {
    var slides: seq<Slide>
    var presentationMetadata: PresentationMetadata

    /** NewParser */
    constructor ()
      ensures slides == [] && presentationMetadata == NoPresentationMetadata
    {
      slides := [];
      presentationMetadata := NoPresentationMetadata;
    }

    /** GetSlides: the slides parsed so far, in order. */
    method GetSlides() returns (ss: seq<Slide>)
      ensures ss == slides
    {
      ss := slides;
    }

    /** GetPresentationMetadata: the presentation-level settings parsed so far. */
    method GetPresentationMetadata() returns (pm: PresentationMetadata)
      ensures pm == presentationMetadata
    {
      pm := presentationMetadata;
    }

    /** ParseString: slides are appended; an error when the parser holds none afterwards. */
    method ParseString(content: string) returns (err: Option<string>)
      modifies this
      ensures var d := ParseDocument(content, old(presentationMetadata));
        slides == old(slides) + d.slides && presentationMetadata == d.metadata
      ensures err.None? <==> |slides| > 0
      ensures err.Some? ==> err.value == "no slides found in input"
    {
      var rest := ExtractPresentationFrontmatter(content);
      var blocks := SplitOnHorizontalRule(rest);
      AddSlides(blocks);
      if |slides| == 0 {
        return Some("no slides found in input");
      }
      return None;
    }

    /** The loop of ParseString: parse each block and keep the slides with content. */
    method AddSlides(blocks: seq<string>)
      modifies this`slides
      ensures slides == old(slides) + KeptSlides(blocks)
    {
      ghost var before := slides;
      ghost var parsed := ParseBlocks(blocks);
      NoneKept(before, parsed);
      for i := 0 to |blocks|
        invariant slides == before + NonEmpty(parsed[..i])
      {
        AddBlock(blocks, i, before, parsed);
      }
      AllKept(blocks, parsed);
    }

    /**
     * One turn of ParseString's loop: parse the i-th block and keep its slide
     * if it has content, so that the slides kept from the first i + 1 blocks
     * follow the earlier ones.
     */
    method AddBlock(blocks: seq<string>, i: int, ghost before: seq<Slide>, ghost parsed: seq<Slide>)
      requires 0 <= i < |blocks| && parsed == ParseBlocks(blocks)
      requires slides == before + NonEmpty(parsed[..i])
      modifies this`slides
      ensures slides == before + NonEmpty(parsed[..i + 1])
    {
      var slide := ParseSlide(blocks[i]);
      ParseBlocksAt(blocks, i);
      NonEmptySnoc(before, parsed, i);
      KeepIfContent(slide);
    }

    /** Only slides with content are kept (ParseString's append). */
    method KeepIfContent(slide: Slide)
      modifies this`slides
      ensures slides == old(slides) + (if TrimSpace(slide.content) != "" then [slide] else [])
    {
      if TrimSpace(slide.content) != "" {
        slides := slides + [slide];
      }
    }

    /** extractPresentationFrontmatter */
    method ExtractPresentationFrontmatter(content: string) returns (rest: string)
      modifies this`presentationMetadata
      ensures Stripped(rest, presentationMetadata) == PresentationStep(content, old(presentationMetadata))
    {
      var found := NextMatch(Presentation, content, 0);
      if found.Some? {
        var decoded := UnmarshalPresentation(found.value.groups[0], presentationMetadata);
        if decoded.Some? {
          presentationMetadata := decoded.value;
        }
        rest := ReplaceAll(Presentation, content);
        return;
      }
      rest := ExtractDeckSetGlobalConfig(content);
    }

    /** extractDeckSetGlobalConfig */
    method ExtractDeckSetGlobalConfig(content: string) returns (rest: string)
      modifies this`presentationMetadata
      ensures Stripped(rest, presentationMetadata) == GlobalConfigStep(content, old(presentationMetadata))
    {
      var lines := Split(content, "\n");
      var configLines, configMap := ScanConfig(lines);
      if configLines > 0 {
        SplitLinesFree(content);
        ConfigMapWritable(lines[..configLines]);
        var text := WriteConfig(configMap);
        ghost var ps :| Enumerates(ps, configMap) && text == Render(ps) && AllWritable(ps);
        UnmarshalAnyOrder(ps, configMap, presentationMetadata);
        var decoded := UnmarshalPresentation(text, presentationMetadata);
        if decoded.Some? {
          presentationMetadata := decoded.value;
        }
        rest := Join(lines[configLines..], "\n");
      } else {
        rest := content;
      }
    }

    /** parseSlide */
    method ParseSlide(content: string) returns (slide: Slide)
      ensures slide == SlideOf(content)
    {
      var step := ExtractFrontmatter(content, NewSlide());
      step := ExtractDeckSetDirectives(step.content, step.slide);
      step := ProcessDeckSetImages(step.content, step.slide);
      step := ExtractNotes(step.content, step.slide);
      step := ExtractDeckSetNotes(step.content, step.slide);
      slide := step.slide.(content := TrimSpace(step.content));
    }

    /** extractFrontmatter */
    method ExtractFrontmatter(content: string, slide: Slide) returns (r: Step)
      ensures r == FrontmatterStep(content, slide)
    {
      var found := NextMatch(SlideFrontmatter, content, 0);
      var s := slide;
      var rest := content;
      if found.Some? {
        var decoded := UnmarshalSlide(found.value.groups[0], s.metadata);
        if decoded.Some? {
          s := s.(metadata := decoded.value);
        }
        rest := ReplaceAll(SlideFrontmatter, content);
      }
      r := Step(rest, s);
    }

    /** extractDeckSetDirectives */
    method ExtractDeckSetDirectives(content: string, slide: Slide) returns (r: Step)
      ensures r == DirectiveStep(content, slide)
    {
      var ms := FindAll(Directive, content, 0);
      if |ms| == 0 {
        return Step(content, slide);
      }
      var text := DirectiveYaml(ms);
      var md := slide.metadata;
      if |text| > 0 {
        var decoded := UnmarshalSlide(text, md);
        if decoded.Some? {
          md := decoded.value;
        }
      }
      r := Step(ReplaceAll(Directive, content), slide.(metadata := md));
    }

    /** processDeckSetImages */
    method ProcessDeckSetImages(content: string, slide: Slide) returns (r: Step)
      ensures r == ImageStep(content, slide)
    {
      var ms := FindAll(Image, content, 0);
      if |ms| == 0 {
        return Step(content, slide);
      }
      var hasLeft, hasRight := ImagePositions(ms);
      var md := slide.metadata;
      if md.layout == "" {
        if hasLeft && hasRight {
          md := md.(layout := "50-50");
        } else if hasLeft || hasRight {
          if hasLeft {
            md := md.(layout := "50-50");
          } else {
            md := md.(layout := "50-50");
          }
        }
      }
      r := Step(ReplaceAll(Image, content), slide.(metadata := md));
    }

    /** extractNotes */
    method ExtractNotes(content: string, slide: Slide) returns (r: Step)
      ensures r == CommentNoteStep(content, slide)
    {
      var ms := FindAll(Comment, content, 0);
      var notes := CollectNotes(Captures(ms, 0));
      var s := slide;
      if |notes| > 0 {
        if s.notes != "" {
          s := s.(notes := s.notes + "\n");
        }
        s := s.(notes := s.notes + Join(notes, "\n"));
      }
      r := Step(ReplaceAll(Comment, content), s);
    }

    /** extractDeckSetNotes */
    method ExtractDeckSetNotes(content: string, slide: Slide) returns (r: Step)
      ensures r == CaretNoteStep(content, slide)
    {
      var ms := FindAll(Note, content, 0);
      var notes := CollectNotes(Captures(ms, 0));
      var s := slide;
      if |notes| > 0 {
        if s.notes != "" {
          s := s.(notes := s.notes + "\n");
        }
        s := s.(notes := s.notes + Join(notes, "\n"));
      }
      r := Step(ReplaceAll(Note, content), s);
    }
  }

  /** Before the first block, nothing is kept. */
  lemma NoneKept(before: seq<Slide>, parsed: seq<Slide>)
    ensures before == before + NonEmpty(parsed[..0])
  {
    TakeNone(parsed);
  }

  /** After the last block, the slides kept are those of all the blocks. */
  lemma AllKept(blocks: seq<string>, parsed: seq<Slide>)
    requires parsed == ParseBlocks(blocks)
    ensures NonEmpty(parsed[..|blocks|]) == KeptSlides(blocks)
  {
    WholePrefix(parsed, |blocks|);
  }

  lemma WholePrefix(ss: seq<Slide>, n: int)
    requires n == |ss|
    ensures ss[..n] == ss
  {
  }

  /** Keeping the slides with content, one more slide at a time. */
  lemma NonEmptySnoc(before: seq<Slide>, ss: seq<Slide>, i: int)
    requires 0 <= i < |ss|
    ensures before + NonEmpty(ss[..i + 1]) == before + NonEmpty(ss[..i]) + Kept(ss[i])
  {
    var prefix := ss[..i + 1];
    assert prefix[..i] == ss[..i] && prefix[i] == ss[i];
    var kept := Kept(ss[i]);
    assert NonEmpty(prefix) == NonEmpty(ss[..i]) + kept;
    SeqAssoc(before, NonEmpty(ss[..i]), kept);
  }

  lemma SeqAssoc<T>(a: seq<T>, b: seq<T>, c: seq<T>)
    ensures a + (b + c) == a + b + c
  {
  }

  // ----- the loops of the extractors ------------------------------------------------

  /** The loop of extractDeckSetGlobalConfig: count the configuration lines and collect their pairs. */
  method ScanConfig(lines: seq<string>) returns (configLines: nat, configMap: map<string, string>)
    ensures configLines == ConfigEnd(lines)
    ensures configMap == ConfigMap(lines[..configLines])
  {
    ghost var b := LeadingBlank(lines, 0);
    configLines := 0;
    configMap := map[];
    var i := 0;
    while i < |lines|
      invariant 0 <= i <= |lines|
      invariant configLines == 0 ==> LeadingBlank(lines, i) == b && configMap == map[]
      invariant configLines > 0 ==> configLines == i && b < i && ConfigRun(lines, i) == ConfigRun(lines, b)
      invariant configMap == ConfigMap(lines[..i])
    {
      var trimmed := TrimSpace(lines[i]);
      ConfigMapSnoc(lines, i);
      if trimmed == "" {
        NotConfigLine(lines[i]);
        if configLines > 0 {
          break;
        }
        i := i + 1;
        continue;
      }
      var rule := IsHorizontalRule(trimmed);
      if rule {
        NotConfigLine(lines[i]);
        break;
      }
      match ConfigLine(lines[i]) {
        case Some(pair) =>
          configMap := configMap[pair.key := pair.raw];
          configLines := i + 1;
        case None =>
          break;
      }
      i := i + 1;
    }
  }

  /** One more line: a configuration line sets its key. */
  lemma ConfigMapSnoc(lines: seq<string>, i: nat)
    requires i < |lines|
    ensures ConfigMap(lines[..i + 1]) == match ConfigLine(lines[i])
      case None => ConfigMap(lines[..i])
      case Some(p) => ConfigMap(lines[..i])[p.key := p.raw]
  {
    assert lines[..i + 1][..i] == lines[..i];
  }

  /** The YAML text the configuration map is written as, one `key: value` line per entry, in map order. */
  method WriteConfig(configMap: map<string, string>) returns (text: string)
    requires MapWritable(configMap)
    ensures exists ps :: Enumerates(ps, configMap) && text == Render(ps) && AllWritable(ps)
  {
    text := "";
    ghost var written: seq<Pair> := [];
    var keys := configMap.Keys;
    WrittenNone(configMap);
    while keys != {}
      invariant Written(configMap, keys, written, text)
      decreases keys
    {
      var k :| k in keys;
      WrittenStep(configMap, keys, written, text, k);
      text := text + k + ": " + configMap[k] + "\n";
      written := written + [Pair(k, configMap[k])];
      keys := keys - {k};
    }
    WrittenAll(configMap, written, text);
  }

  /** The entries of m whose keys are not in keys. */
  function Without(m: map<string, string>, keys: set<string>): (r: map<string, string>)
    ensures r.Keys == m.Keys - keys
    ensures forall k :: k in r ==> r[k] == m[k]
  {
    map k | k in m && k !in keys :: m[k]
  }

  /** The state of WriteConfig's loop: the keys still to write, and the text of those written. */
  ghost predicate Written(m: map<string, string>, keys: set<string>, ps: seq<Pair>, text: string) {
    keys <= m.Keys && text == Render(ps) && AllWritable(ps) && Enumerates(ps, Without(m, keys))
  }

  lemma WrittenNone(m: map<string, string>)
    ensures Written(m, m.Keys, [], "")
  {
    assert Without(m, m.Keys) == map[];
  }

  /** Writing the entry of one more key keeps the loop's state. */
  lemma WrittenStep(m: map<string, string>, keys: set<string>, ps: seq<Pair>, text: string, k: string)
    requires MapWritable(m) && Written(m, keys, ps, text) && k in keys
    ensures Written(m, keys - {k}, ps + [Pair(k, m[k])], text + k + ": " + m[k] + "\n")
  {
    var p := Pair(k, m[k]);
    RenderSnoc(ps, p);
    AllWritableSnoc(ps, p);
    EnumeratesSnoc(ps, Without(m, keys), p);
    WithoutStep(m, keys, k);
  }

  /** Writing key k takes it out of the keys still to write. */
  lemma WithoutStep(m: map<string, string>, keys: set<string>, k: string)
    requires keys <= m.Keys && k in keys
    ensures Without(m, keys)[k := m[k]] == Without(m, keys - {k})
  {
  }

  lemma AllWritableSnoc(ps: seq<Pair>, p: Pair)
    requires AllWritable(ps) && Writable(p)
    ensures AllWritable(ps + [p])
  {
    forall i | 0 <= i < |ps| + 1 ensures Writable((ps + [p])[i]) {
      if i < |ps| {
        assert (ps + [p])[i] == ps[i];
      }
    }
  }

  /** Once every key is written, the pairs enumerate the whole map. */
  lemma WrittenAll(m: map<string, string>, ps: seq<Pair>, text: string)
    requires Written(m, {}, ps, text)
    ensures Enumerates(ps, m) && text == Render(ps) && AllWritable(ps)
  {
    WithoutNone(m);
  }

  lemma WithoutNone(m: map<string, string>)
    ensures Without(m, {}) == m
  {
  }

  /** The loop of extractDeckSetDirectives: one `key: value` line per directive. */
  method DirectiveYaml(ms: seq<Match>) returns (text: string)
    requires forall i :: 0 <= i < |ms| ==> |ms[i].groups| == 2
    ensures text == Render(DirectivePairs(ms))
  {
    text := "";
    var i := 0;
    while i < |ms|
      invariant 0 <= i <= |ms|
      invariant text == Render(DirectivePairs(ms[..i]))
    {
      var key := TrimSpace(ms[i].groups[0]);
      var value := TrimSpace(ms[i].groups[1]);
      DirectivePairsSnoc(ms, i);
      RenderSnoc(DirectivePairs(ms[..i]), Pair(key, value));
      text := text + key + ": " + value + "\n";
      i := i + 1;
    }
    assert ms[..i] == ms;
  }

  lemma DirectivePairsSnoc(ms: seq<Match>, i: nat)
    requires forall i :: 0 <= i < |ms| ==> |ms[i].groups| == 2
    requires i < |ms|
    ensures DirectivePairs(ms[..i + 1]) == DirectivePairs(ms[..i]) + [DirectivePair(ms[i])]
  {
    assert ms[..i + 1][..i] == ms[..i];
  }

  /** The loop of processDeckSetImages: does some alt text mention left, or right? */
  method ImagePositions(ms: seq<Match>) returns (hasLeft: bool, hasRight: bool)
    requires forall i :: 0 <= i < |ms| ==> |ms[i].groups| == 2
    ensures hasLeft == AnyModifier(ms, "left") && hasRight == AnyModifier(ms, "right")
  {
    hasLeft, hasRight := false, false;
    var i := 0;
    while i < |ms|
      invariant 0 <= i <= |ms|
      invariant hasLeft == AnyModifier(ms[..i], "left") && hasRight == AnyModifier(ms[..i], "right")
    {
      var modifiers := ToLower(ms[i].groups[0]);
      assert ms[..i + 1][..i] == ms[..i];
      if Contains(modifiers, "left") {
        hasLeft := true;
      }
      if Contains(modifiers, "right") {
        hasRight := true;
      }
      i := i + 1;
    }
    assert ms[..i] == ms;
  }

  /** The loop both note extractors run over their captures: trim each, keep the non-empty ones. */
  method CollectNotes(captures: seq<string>) returns (notes: seq<string>)
    ensures notes == TrimmedParts(captures)
  {
    notes := [];
    var i := 0;
    while i < |captures|
      invariant 0 <= i <= |captures|
      invariant notes == TrimmedParts(captures[..i])
    {
      TrimmedPartsSnoc(captures, i);
      var noteContent := TrimSpace(captures[i]);
      if noteContent != "" {
        notes := notes + [noteContent];
      }
      i := i + 1;
    }
    assert captures[..i] == captures;
  }

  // ----- facts the methods rely on ---------------------------------------------------

  /** A configuration line is neither blank nor a horizontal rule. */
  lemma ConfigLineShape(line: string)
    requires ConfigLine(line).Some?
    ensures TrimSpace(line) != "" && !IsDelimiter(TrimSpace(line))
  {
    var ke := SkipKey(line, 0);
    ColonKept(line, ke);
    var t := TrimSpace(line);
    assert !(t[ke] == '-' || t[ke] == ' ');
  }

  /** The colon after a leading key survives trimming, at the same place. */
  lemma ColonKept(line: string, ke: nat)
    requires 0 < ke < |line| && line[ke] == ':' && IsKeyChar(line[0])
    ensures ke < |TrimSpace(line)| && TrimSpace(line)[ke] == ':'
  {
    TrimLeftIdle(line, Unicode);
    TrimRightDropped(line, Unicode);
    assert !IsSpace(line[ke], Unicode);
  }

  /** A blank line or a horizontal rule is not a configuration line. */
  lemma NotConfigLine(line: string)
    requires TrimSpace(line) == "" || IsDelimiter(TrimSpace(line))
    ensures ConfigLine(line).None?
  {
    if ConfigLine(line).Some? {
      ConfigLineShape(line);
    }
  }

  predicate NoNewline(s: string) {
    forall i :: 0 <= i < |s| ==> s[i] != '\n'
  }

  /** The lines of a split on newlines hold no newline. */
  lemma SplitLinesFree(content: string)
    ensures forall i :: 0 <= i < |Split(content, "\n")| ==> NoNewline(Split(content, "\n")[i])
  {
    var parts := Split(content, "\n");
    SplitPiecesFree(content, "\n");
    forall i | 0 <= i < |parts| ensures NoNewline(parts[i]) {
      assert parts[i] in parts;
      NoNewlineOf(parts[i]);
    }
  }

  lemma NoNewlineOf(s: string)
    requires !Contains(s, "\n")
    ensures NoNewline(s)
  {
    forall k | 0 <= k < |s| ensures s[k] != '\n' {
      if s[k] == '\n' {
        assert s[k..k + 1] == "\n";
        assert OccursAt(s, "\n", k);
      }
    }
  }

  /** Every entry of the map can be written as one `key: value` line. */
  predicate MapWritable(m: map<string, string>) {
    forall k :: k in m ==> Writable(Pair(k, m[k]))
  }

  /** A configuration line without newlines gives a pair that can be written back. */
  lemma ConfigLineWritable(line: string)
    requires NoNewline(line) && ConfigLine(line).Some?
    ensures Writable(ConfigLine(line).value)
  {
    var p := ConfigLine(line).value;
    var ke := SkipKey(line, 0);
    var rest := line[ke + 1..];
    assert p.raw == TrimSpace(rest);
    assert NoNewline(rest) by {
      forall i | 0 <= i < |rest| ensures rest[i] != '\n' {
        assert rest[i] == line[ke + 1 + i];
      }
    }
    TrimSpaceIdem(rest);
    TrimSpaceFrom(rest, '\n');
    assert IsKey(p.key) && TrimSpace(p.raw) == p.raw;
  }

  /** Configuration read from lines without newlines can be written one entry per line. */
  lemma {:induction false} ConfigMapWritable(lines: seq<string>)
    requires forall i :: 0 <= i < |lines| ==> NoNewline(lines[i])
    ensures MapWritable(ConfigMap(lines))
    decreases |lines|
  {
    if |lines| > 0 {
      var line := lines[|lines| - 1];
      ConfigMapWritable(lines[..|lines| - 1]);
      if ConfigLine(line).Some? {
        ConfigLineWritable(line);
      }
    }
  }

  /** Writing one more entry, under a new key, enumerates the map with that entry added. */
  lemma EnumeratesSnoc(ps: seq<Pair>, m: map<string, string>, p: Pair)
    requires Enumerates(ps, m) && p.key !in m
    ensures Enumerates(ps + [p], m[p.key := p.raw])
  {
    var ps' := ps + [p];
    var m' := m[p.key := p.raw];
    forall k | k in m' ensures exists i :: 0 <= i < |ps'| && ps'[i].key == k {
      if k == p.key {
        assert ps'[|ps|].key == k;
      } else {
        var i :| 0 <= i < |ps| && ps[i].key == k;
        assert ps'[i].key == k;
      }
    }
  }
}
