/** The parser's data model: slide and presentation metadata, slides, slide types. */
module Slides {

  /**
   * Per-slide settings decoded from YAML, keyed `layout`, `class`,
   * `body-style`, `body-class` and `time-to-next`.
   * A `timeToNext` of 0 means "not set": the presentation default applies.
   */
  datatype SlideMetadata = SlideMetadata(
    layout: string,
    cssClass: string,
    bodyStyle: string,
    bodyClass: string,
    timeToNext: int)

  /** Document-wide settings, keyed `title` and `time-to-next`. */
  datatype PresentationMetadata = PresentationMetadata(title: string, timeToNext: int)

  /** One slide: its metadata, its Markdown body, and its speaker notes. */
  datatype Slide = Slide(metadata: SlideMetadata, content: string, notes: string)

  /** The zero value of SlideMetadata. */
  const NoSlideMetadata := SlideMetadata("", "", "", "", 0)

  /** The zero value of PresentationMetadata. */
  const NoPresentationMetadata := PresentationMetadata("", 0)

  /** The slide parseSlide starts from: zero metadata, no content, no notes. */
  function NewSlide(): (s: Slide)
    ensures s.content == "" && s.notes == ""
    ensures s.metadata.layout == "" && s.metadata.cssClass == ""
    ensures s.metadata.bodyStyle == "" && s.metadata.bodyClass == ""
    ensures s.metadata.timeToNext == 0
  {
    Slide(NoSlideMetadata, "", "")
  }

  datatype SlideType = ContentSlide | TitleSlide | SectionSlide | TableSlide

  /** The integer value of each SlideType constant (declared with iota). */
  function SlideTypeValue(t: SlideType): (v: int)
    ensures 0 <= v <= 3
    ensures t.ContentSlide? <==> v == 0
    ensures t.TitleSlide? <==> v == 1
    ensures t.SectionSlide? <==> v == 2
    ensures t.TableSlide? <==> v == 3
  {
    match t
    case ContentSlide => 0
    case TitleSlide => 1
    case SectionSlide => 2
    case TableSlide => 3
  }

  /** Slide type detection is not implemented: every slide is a content slide. */
  function DetectType(s: Slide, htmlContent: string): (t: SlideType)
    ensures t == ContentSlide && SlideTypeValue(t) == 0
  {
    ContentSlide
  }
}
