/** The HTML document template and the aspect-ratio script. */
module Templates {
  import opened Text

  const FalseRatioScript := "<script>BIG_ASPECT_RATIO = false;</script>"
  const RatioOpen := "<script>BIG_ASPECT_RATIO = "
  const RatioClose := ";</script>"

  /**
   * aspectRatioScript: nothing for the default ratio (empty or "1.6"), a script
   * that turns the ratio off for "false" and "none", and otherwise a script that
   * sets the ratio to the text given, spliced in as it is.
   */
  function AspectRatioScript(ratio: string): (script: string)
    ensures script == "" <==> ratio == "" || ratio == "1.6"
    ensures ratio == "false" || ratio == "none" ==> script == FalseRatioScript
    ensures ratio != "" && ratio != "1.6" && ratio != "false" && ratio != "none" ==>
      && |script| == |RatioOpen| + |ratio| + |RatioClose|
      && HasPrefix(script, RatioOpen) && HasSuffix(script, RatioClose)
      && script[|RatioOpen|..|RatioOpen| + |ratio|] == ratio
  {
    if ratio == "" || ratio == "1.6" then ""
    else if ratio == "false" || ratio == "none" then FalseRatioScript
    else RatioOpen + ratio + RatioClose
  }

  /** The three fixed answers of aspectRatioScript. */
  lemma AspectRatioExamples()
    ensures AspectRatioScript("") == "" && AspectRatioScript("1.6") == ""
    ensures AspectRatioScript("false") == FalseRatioScript && AspectRatioScript("none") == FalseRatioScript
    ensures AspectRatioScript("2") == "<script>BIG_ASPECT_RATIO = 2;</script>"
  {
    assert "2" != "1.6" && "2" != "none" && "2" != "false";
  }

  const ShikiOpen := "  <script type=\"module\">\n"
  const ShikiClose := "\n  </script>"

  /** The module script that loads the highlighter, present only when its source is. */
  function ShikiScriptTag(shikiJS: string): (tag: string)
    ensures tag == "" <==> shikiJS == ""
    ensures shikiJS != "" ==>
      && |tag| == |ShikiOpen| + |shikiJS| + |ShikiClose|
      && HasPrefix(tag, ShikiOpen) && HasSuffix(tag, ShikiClose)
      && tag[|ShikiOpen|..|ShikiOpen| + |shikiJS|] == shikiJS
  {
    if shikiJS != "" then ShikiOpen + shikiJS + ShikiClose else ""
  }

  const Doctype := "<!DOCTYPE html>"
  const HeadMeta := "\n<html>\n<head>\n  <meta charset=\"utf-8\">\n"
    + "  <meta name=\"viewport\" content=\"width=device-width, initial-scale=1.0, maximum-scale=1.0, user-scalable=0\" />\n  "
  /** The document up to the title element. */
  const DocumentHead := Doctype + HeadMeta
  const StyleBreak := "\n  </style>\n  <style>\n"
  const HeadClose := "\n</head>\n"

  function TitleElement(title: string): string {
    "<title>" + title + "</title>"
  }

  function BodyOpen(themeClass: string): string {
    "<body class=\"" + themeClass + "\">"
  }

  function BodyRest(slides: string): string {
    "\n" + slides + "\n</body>\n</html>"
  }

  /** The part of the document after the module script: the body with its theme class and the slides. */
  function DocumentTail(themeClass: string, slides: string): string {
    HeadClose + BodyOpen(themeClass) + BodyRest(slides)
  }

  /**
   * generateHTML: the nine strings placed, verbatim, into the document
   * template (fmt.Sprintf with %s does no escaping).
   */
  function GenerateHTML(title: string, bigCSS: string, themeCSS: string, codeBlocksCSS: string,
                        customCSS: string, bigJS: string, shikiJS: string, themeClass: string,
                        slides: string): (html: string)
    ensures HasPrefix(html, Doctype)
    ensures OccursAt(html, TitleElement(title), |DocumentHead|)
    ensures HasSuffix(html, ShikiScriptTag(shikiJS) + DocumentTail(themeClass, slides))
    ensures OccursAt(html, BodyOpen(themeClass), |html| - |DocumentTail(themeClass, slides)| + |HeadClose|)
  {
    var styles := "\n  <style>\n" + bigCSS + StyleBreak + themeCSS + StyleBreak + codeBlocksCSS + "\n  </style>\n  "
      + customCSS + "\n  <script>\n" + bigJS + "\n  </script>\n";
    var tail := DocumentTail(themeClass, slides);
    var front := DocumentHead + TitleElement(title);
    Front(Doctype, HeadMeta, TitleElement(title), styles + (ShikiScriptTag(shikiJS) + tail));
    Back(front, styles, ShikiScriptTag(shikiJS), tail);
    BodyAfter(front, styles, ShikiScriptTag(shikiJS), HeadClose, BodyOpen(themeClass), BodyRest(slides), tail);
    front + (styles + (ShikiScriptTag(shikiJS) + tail))
  }

  /** The doctype opens the document, and the title element follows the head. */
  lemma Front(dt: string, meta: string, te: string, rest: string)
    ensures HasPrefix(dt + meta + te + rest, dt) && OccursAt(dt + meta + te + rest, te, |dt + meta|)
  {
    var head := dt + meta;
    Parts(head, te);
    Within(head + te, te, |head|, rest);
    assert (dt + meta + te + rest)[..|dt|] == dt;
  }

  /** The module script and the body end the document. */
  lemma Back(front: string, styles: string, shiki: string, d: string)
    ensures HasSuffix(front + (styles + (shiki + d)), shiki + d)
  {
    Assoc(front, styles, shiki + d);
    Parts(front + styles, shiki + d);
  }

  /** The body element sits right after the end of the head. */
  lemma BodyAfter(front: string, styles: string, shiki: string, hc: string, b: string, br: string, d: string)
    requires d == hc + b + br
    ensures var html := front + (styles + (shiki + d));
      OccursAt(html, b, |html| - |d| + |hc|)
  {
    var p := front + styles + shiki;
    Regroup(front, styles, shiki, d);
    Parts(hc, b);
    Within(hc + b, b, |hc|, br);
    Shifted(d, b, |hc|, p);
  }

  lemma Regroup(a: string, b: string, c: string, d: string)
    ensures a + (b + (c + d)) == a + b + c + d
  {
    Assoc(a, b, c + d);
    Assoc(a + b, c, d);
  }

  /** The two halves of a concatenation. */
  lemma Parts(a: string, b: string)
    ensures (a + b)[..|a|] == a && (a + b)[|a|..] == b && HasPrefix(a + b, a) && HasSuffix(a + b, b)
    ensures OccursAt(a + b, a, 0) && OccursAt(a + b, b, |a|)
  {
  }

  /** What occurs in a string occurs at the same place once more text follows. */
  lemma Within(s: string, x: string, k: int, t: string)
    requires OccursAt(s, x, k)
    ensures OccursAt(s + t, x, k)
  {
    assert (s + t)[k..k + |x|] == s[k..k + |x|];
  }

  /** What occurs in a string occurs further on once text comes before it. */
  lemma Shifted(s: string, x: string, k: int, t: string)
    requires OccursAt(s, x, k)
    ensures OccursAt(t + s, x, |t| + k)
  {
    assert (t + s)[|t| + k..|t| + k + |x|] == s[k..k + |x|];
  }
}
