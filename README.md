# gobig core, modelled in Dafny

gobig turns a Markdown file into a single-file HTML slide deck for the `big`
presentation framework. This project models its core:

- **The parser** (`internal/parser/parser.go`, `internal/parser/slide.go`).
  - It reads optional presentation metadata at the head of the document. This is
    either an HTML comment `<!-- presentation ... -->` or a run of DeckSet-style
    `key: value` lines.
  - It splits the rest into blocks on standalone `---` lines.
  - It turns each block into a slide. Slide frontmatter `<!-- slide ... -->` and
    DeckSet directives `[.key: value]` set the slide's metadata. Images marked
    `left` or `right` imply a `50-50` layout. The remaining HTML comments and
    `^` lines become speaker notes. Blocks whose content is empty are dropped.
- **The pure helpers of the HTML generator** (`internal/generator/generator.go`).
  These are:
  - the effective time-to-next and the attributes of a slide's element;
  - the speaker-notes element;
  - named layouts as CSS grid styles;
  - the paragraph split of layout slides;
  - the title taken from the first heading;
  - HTML and attribute escaping;
  - the MIME type of an image file name.

  The slide, layout and deck writers are modelled as methods that build their
  text step by step.
- **The document template** and the aspect-ratio script
  (`internal/generator/templates.go`).
- **The theme check** (`internal/assets/assets.go`).

Modules, one per concern:

| file | module | contents |
|---|---|---|
| `wrappers.dfy` | `Wrappers` | `Option` |
| `text.dfy` | `Text` | the string functions of Go's `strings` and `strconv` that the core relies on: `TrimSpace` with Unicode white space, `Split`, `Join`, `Contains`, `ToLower`, `Itoa`, `ParseInt` |
| `slide.dfy` | `Slides` | the slide data model |
| `yaml.dfy` | `Yaml` | the flat `key: value` YAML decoding the parser performs into its metadata records |
| `patterns.dfy` | `Patterns` | the parser's regular expressions as leftmost-first scanners, with `FindAll` and `ReplaceAll` |
| `parser.dfy` | `Parsing` | the `Parser` class, its extractors as methods, and the functions that specify them |
| `parser_props.dfy` | `ParserProperties` | properties of splitting, global configuration, presentation frontmatter and slide filtering |
| `slide_props.dfy` | `SlideProperties` | properties of the per-slide extractors |
| `parse_examples.dfy` | `ParseExamples` | the two-slide document of the parser's tests, proved for all plain lines and for the test's own text |
| `escape.dfy` | `Escaping` | `escapeHTML`, `escapeAttr`, and the reading a browser gives their output |
| `generator.dfy` | `HtmlGen` | the generator's helpers and writers |
| `templates.dfy` | `Templates` | `generateHTML` and `aspectRatioScript` |
| `assets.dfy` | `Assets` | `ValidateTheme` |

Parameters stand in for two things:
- Markdown conversion by goldmark is the `convert` function a `Generator`
  carries. It returns None where goldmark reports an error. The inlining of
  images (`processImages`) is its `inline` function.
- Iterating a Go map visits keys in an unspecified order. `WriteConfig` therefore
  promises only some order, and `UnmarshalAnyOrder` proves that the order does
  not change the decoded metadata.

## Model

| member | source | states |
|---|---|---|
| Slides.NewSlide | internal/parser/parser.go:183-185 | a new slide has empty content, empty notes and every metadata field at its zero value |
| Slides.SlideTypeValue | internal/parser/slide.go:26-33 | the four slide types carry the distinct values 0 to 3 in declaration order |
| Slides.DetectType | internal/parser/slide.go:36-40 | type detection always answers the content type, value 0 |
| Yaml.ParseRender | internal/parser/parser.go:264-275 | pairs written as `key: value` lines parse back to exactly the same pairs, in order; the parse fails exactly when some value is not a scalar |
| Yaml.DecodeSlideFields | internal/parser/slide.go:4-10 | decoding fails exactly when `time-to-next` is present and is neither null nor a plain integer; otherwise each string field takes the text of its plain or quoted value and keeps its old value when its key is absent or null, and `time-to-next` is the integer its plain value reads as, or its old value when absent or null |
| Yaml.DecodeStringText | internal/parser/slide.go:5-8 | a string field takes the text of a plain or quoted scalar and keeps its value for an absent key, a null or a non-scalar |
| Yaml.DecodeIntValue | internal/parser/slide.go:9 | an int field fails on a quoted value, a non-scalar or a plain value that is not an integer; it takes the integer a plain value reads as, and keeps its value for an absent key or a null |
| Yaml.NumeralPlain | internal/parser/slide.go:9 | a decimal numeral with an optional minus sign is a plain scalar whose text is itself |
| Yaml.DecodeTimeToNext | internal/parser/slide.go:9 | `time-to-next: n`, with n written in decimal, decodes to n for every 64-bit n and leaves the other fields unchanged |
| Yaml.UnmarshalAnyOrder | internal/parser/parser.go:162-168 | the metadata decoded from YAML written out of a map is the same for every order in which the map's entries are written |
| Patterns.MatchAt | internal/parser/parser.go:15-30 | a match found at a position starts there, ends inside the text and has the pattern's number of capture groups |
| Patterns.CommentAt | internal/parser/parser.go:21 | an HTML comment match starts at the given position, ends inside the text and captures one group |
| Patterns.DirectiveAt | internal/parser/parser.go:24 | a directive match starts at the given position, ends inside the text and captures the key and the value |
| Patterns.NoteAt | internal/parser/parser.go:30 | a caret-note match starts at the given position, ends inside the text and captures the note text |
| Patterns.ImageAt | internal/parser/parser.go:318 | an image match starts at the given position, ends inside the text and captures the alt text and the path |
| Patterns.NextMatch | internal/parser/parser.go:98 | the first match is the leftmost one: it matches at its start, and no position between the search start and it matches; None means no position matches |
| Patterns.FindAll | internal/parser/parser.go:231 | all matches form a non-overlapping left-to-right chain inside the text, each with the pattern's group count; the list is empty exactly when there is no first match |
| Patterns.Reassemble | internal/parser/parser.go:231 | the text between the matches, interleaved with the matched texts, gives back the whole input: the matches partition it |
| Patterns.ReplaceWeave | internal/parser/parser.go:359-368 | replacing every match keeps the text between matches and puts each match's replacement in its place |
| Patterns.Erase | internal/parser/parser.go:250 | removing every match of a removal pattern leaves exactly the text between the matches, in order |
| Patterns.NoMatchUnchanged | internal/parser/parser.go:282 | with no match, the list of matches is empty and replacing leaves the text unchanged |
| Patterns.PresentationAnchored | internal/parser/parser.go:15 | the presentation pattern matches only at the start of the document, so it matches at most once; removing it drops exactly the matched prefix |
| Patterns.ImageRematch | internal/parser/parser.go:359-365 | matching the image pattern again on a matched text alone yields the same alt text and path |
| Parsing.IsHorizontalRule | internal/parser/parser.go:408-424 | a line is a rule iff it has at least three characters, all of them dashes or spaces, and at least three dashes |
| Parsing.SplitOnHorizontalRule | internal/parser/parser.go:374-405 | the blocks are the text runs between rule lines, each line followed by a newline, keeping only the runs that are not blank |
| Parsing.ImageLayout | internal/parser/parser.go:342-354 | a layout already set is kept; otherwise the layout becomes `50-50` iff some image is marked left or right, and stays empty iff none is |
| Parsing.ScanConfig | internal/parser/parser.go:122-157 | the scan stops where the run of configuration lines after leading blank lines ends; the map holds the last value of each key in that run |
| Parsing.WriteConfig | internal/parser/parser.go:162-165 | the YAML text lists every map entry exactly once as a `key: value` line, in some order |
| Parsing.DirectiveYaml | internal/parser/parser.go:264-271 | the YAML text holds one trimmed `key: value` line per directive, in document order |
| Parsing.ImagePositions | internal/parser/parser.go:326-339 | the flags say whether some image's lower-cased alt text contains `left` and whether some contains `right` |
| Parsing.CollectNotes | internal/parser/parser.go:232-240 | the notes are the trimmed captures that are not empty, in order |
| Parsing.Parser.constructor | internal/parser/parser.go:40-45 | a new parser has no slides and zero presentation metadata |
| Parsing.Parser.GetSlides | internal/parser/parser.go:86-88 | returns the parser's slides |
| Parsing.Parser.GetPresentationMetadata | internal/parser/parser.go:91-93 | returns the parser's presentation metadata |
| Parsing.Parser.ParseString | internal/parser/parser.go:58-83 | the kept slides of the document are appended to the earlier ones, and the metadata becomes the one its head sets; the error "no slides found in input" is returned iff the parser then holds no slide |
| Parsing.Parser.AddSlides | internal/parser/parser.go:66-76 | each block is parsed in order, and a slide is appended iff its trimmed content is not empty |
| Parsing.Parser.AddBlock | internal/parser/parser.go:67-75 | parsing block i and keeping its slide iff its trimmed content is not empty extends the slides kept from the first i blocks to those kept from the first i + 1 |
| Parsing.Parser.KeepIfContent | internal/parser/parser.go:72-75 | the slide is appended iff its trimmed content is not empty; the other slides are unchanged |
| Parsing.Parser.ExtractPresentationFrontmatter | internal/parser/parser.go:96-118 | returns the document without the presentation comment and sets the metadata as the presentation step defines; PresentationFirst states that step |
| Parsing.Parser.ExtractDeckSetGlobalConfig | internal/parser/parser.go:121-179 | returns the document without its configuration lines and sets the metadata as the global-configuration step defines; GlobalConfigRemoves states that step |
| Parsing.Parser.ParseSlide | internal/parser/parser.go:182-204 | the slide is the result of the five extractors applied in order to a new slide, with the remaining text trimmed as its content |
| Parsing.Parser.ExtractFrontmatter | internal/parser/parser.go:207-224 | returns the frontmatter step: FrontmatterFirstOnly states what it does |
| Parsing.Parser.ExtractDeckSetDirectives | internal/parser/parser.go:256-285 | returns the directive step: DirectivesOverride states what it does |
| Parsing.Parser.ProcessDeckSetImages | internal/parser/parser.go:316-371 | returns the image step: ImageLayoutRule and ImageRewrite state what it does |
| Parsing.Parser.ExtractNotes | internal/parser/parser.go:228-253 | returns the comment-notes step: NotesOrder states what it does |
| Parsing.Parser.ExtractDeckSetNotes | internal/parser/parser.go:288-313 | returns the caret-notes step: NotesOrder states what it does |
| ParserProperties.DelimiterExamples | internal/parser/parser.go:408-424 | `---`, `- - -` and `-- -` are rules; `--`, `***`, `---x` and `- -` are not |
| ParserProperties.SegmentsKeepOrder | internal/parser/parser.go:380-396 | taken together, the segments between rules are exactly the lines that are not rules, in their original order |
| ParserProperties.BlocksShape | internal/parser/parser.go:386-402 | every block is not blank, and every block is the text of one segment between rules |
| ParserProperties.OneBlock | internal/parser/parser.go:374-405 | a text with no rule line and some content is one block: the text itself, ending in exactly one newline |
| ParserProperties.RuleSplits | internal/parser/parser.go:385-395 | two runs of lines without rules, joined by a `---` line, give exactly those two segments |
| ParserProperties.SegmentsAfterRule | internal/parser/parser.go:385-395 | the lines after the last rule form the last segment, and the segments before the rule are unaffected |
| ParserProperties.ConfigEndSpec | internal/parser/parser.go:128-157 | the configuration run begins after the leading blank lines and holds only configuration lines; it ends at the text's end or at a line that is not one; it is empty iff the first non-blank line is not a configuration line |
| ParserProperties.ScanStops | internal/parser/parser.go:132-142 | neither a blank line nor a rule line is a configuration line |
| ParserProperties.GlobalConfigRemoves | internal/parser/parser.go:173-178 | the remaining content is the lines after the configuration run, joined with newlines; without such a run, content and metadata are untouched |
| ParserProperties.PresentationFirst | internal/parser/parser.go:96-118 | the presentation comment can only match at the start; if it matches, the content after it is kept and the metadata is decoded from it, or left unchanged if decoding fails; otherwise the global configuration step applies |
| ParserProperties.PresentationBadYaml | internal/parser/parser.go:103-110 | presentation YAML that does not decode leaves the metadata unchanged, but the comment is still removed |
| ParserProperties.EmptyDocument | internal/parser/parser_test.go:70-78 | the empty document yields no slides and leaves the metadata unchanged, so parsing it reports an error |
| ParserProperties.NonEmptyMembers | internal/parser/parser.go:72-75 | a slide is kept iff it was parsed and its trimmed content is not empty |
| ParserProperties.KeptSlidesContent | internal/parser/parser.go:66-76 | no more slides are kept than there were blocks, and every kept slide has content |
| ParserProperties.KeptSlidesComplete | internal/parser/parser.go:66-76 | every block whose slide has content contributes that slide |
| ParserProperties.KeptSlidesFrom | internal/parser/parser.go:66-76 | every kept slide is the parse of one of the blocks |
| SlideProperties.FrontmatterFirstOnly | internal/parser/parser.go:207-224 | only the first slide comment is decoded, and it sets the metadata unless it fails to decode; every slide comment is removed; content and notes are untouched |
| SlideProperties.DirectivesOverride | internal/parser/parser.go:256-285 | all directives are removed; their values, decoded together, replace the metadata fields they name; a decoding failure leaves the metadata unchanged |
| SlideProperties.AnyModifierIff | internal/parser/parser.go:329-339 | the left or right flag is set iff some image's lower-cased alt text contains that word |
| SlideProperties.ImageLayoutRule | internal/parser/parser.go:341-354 | only the layout can change; a set layout is kept; an unset one becomes `50-50` iff some image is positioned left or right |
| SlideProperties.ImageRewrite | internal/parser/parser.go:359-368 | every image is rewritten to `![](path)` with its path kept, and the text around the images is unchanged |
| SlideProperties.ImagePath | internal/parser/parser.go:318 | an image match is `![alt](path)`, with the path running to the first closing parenthesis, and its replacement keeps that path |
| SlideProperties.NotesOrder | internal/parser/parser.go:196-198 | starting from no notes, the comment notes come first and the caret notes after them, joined by newlines; both kinds leave the content, and the metadata is untouched |
| SlideProperties.SlideNotes | internal/parser/parser.go:182-204 | a slide's notes are its comment notes followed by its caret notes |
| SlideProperties.SlideContentTrimmed | internal/parser/parser.go:201 | a slide's content has no leading or trailing white space |
| SlideProperties.PlainBlock | internal/parser/parser.go:182-204 | a block without comment, directive, image or note syntax becomes a slide with zero metadata, no notes and the trimmed block as content |
| SlideProperties.AppendTwice | internal/parser/parser.go:242-247 | appending two lists of notes to empty notes gives the two lists joined by newlines |
| ParseExamples.TwoSlides | internal/parser/parser_test.go:22-51 | any two slides, each a heading, a blank line and a text line, separated by `---` with blank lines around it, give exactly two slides with no metadata, no notes and the expected content |
| ParseExamples.TwoSlideTest | internal/parser/parser_test.go:22-51 | the test's document gives exactly the two slides whose content the test expects |
| Escaping.Entity | internal/generator/generator.go:328-335 | a character is written as itself iff it is none of `&`, `<`, `>`, `"` and `'` |
| Escaping.EscapeHTMLAppend | internal/generator/generator.go:328-335 | escaping works one character at a time: escaping two texts joined is the two escapes joined |
| Escaping.EscapeHTMLSafe | internal/generator/generator.go:328-335 | escaped text contains no `<`, `>`, `"` or `'` |
| Escaping.UnescapeEscapeHTML | internal/generator/generator.go:328-335 | a browser reading the escaped text gets the original text back, for every text |
| Escaping.EscapeAttrSafe | internal/generator/generator.go:338-341 | an escaped attribute value contains no `"`, so it cannot end its attribute early |
| Escaping.UnescapeEscapeAttr | internal/generator/generator.go:338-341 | an attribute value without `&` is read back unchanged |
| Escaping.EscapeAttrAmbiguous | internal/generator/generator.go:338-341 | `"` and the text `&quot;` escape to the same value, because `&` itself is not escaped |
| Templates.AspectRatioScript | internal/generator/templates.go:58-68 | no script for an empty ratio or `1.6`; the false script for `false` and `none`; otherwise a script holding the ratio verbatim |
| Templates.AspectRatioExamples | internal/generator/templates.go:58-68 | `""`, `1.6`, `false`, `none` and `2` give the expected scripts |
| Templates.ShikiScriptTag | internal/generator/templates.go:10-15 | no tag iff there is no Shiki script; otherwise a module script tag holding the script verbatim |
| Templates.GenerateHTML | internal/generator/templates.go:8-55 | the document starts with the doctype, has the title element right after the head's opening lines, and ends with the Shiki tag, the body with its theme class and the slides |
| Assets.ValidateTheme | internal/assets/assets.go:43-50 | a theme is valid iff it is exactly one of `dark`, `light` and `white` |
| Assets.ValidateThemeExamples | internal/assets/assets_test.go:99-120 | the three themes pass; `invalid`, the empty name and `Dark` fail |
| HtmlGen.MarkdownToHTMLResult | internal/generator/generator.go:192-204 | a failed conversion gives back the raw Markdown, untrimmed; a successful one neither starts nor ends with white space |
| HtmlGen.NewGenerator | internal/generator/generator.go:37-63 | an empty theme becomes `dark`; every other option, and the conversion and inlining functions, are kept as given |
| HtmlGen.EffectiveTimeToNext | internal/generator/generator.go:133-137 | a slide's own value wins when it is set, that is not 0; otherwise the presentation's value applies when positive, else 0 |
| HtmlGen.TimeToNextEmitted | internal/generator/generator.go:133-140 | a time-to-next is written iff the slide's value is positive, or it is unset and the presentation's value is positive |
| HtmlGen.TimeToNextAttr | internal/generator/generator.go:133-140 | the element has a `data-time-to-next` attribute iff the effective value is positive, and its text reads back as that value |
| HtmlGen.BodyAttrs | internal/generator/generator.go:142-147 | the body-style and body-class attributes are present iff those fields are set; their values contain no `"` and read back as the field when it has no `&` |
| HtmlGen.NotesElement | internal/generator/generator.go:161-163 | there is a notes element iff there are notes |
| HtmlGen.NotesElementText | internal/generator/generator.go:161-163 | the notes element wraps text that contains no markup and reads back as the notes |
| HtmlGen.LayoutToGridStyle | internal/generator/generator.go:273-295 | each of the eight named layouts gives its grid template; any other string passes through as a custom style |
| HtmlGen.GridStyleNamed | internal/generator/generator.go:273-295 | a layout is changed iff it is one of the named layouts |
| HtmlGen.SplitContentForLayout | internal/generator/generator.go:299-313 | the parts are the sections between blank lines, trimmed, with the empty ones dropped, in order |
| HtmlGen.SingleParagraph | internal/generator/generator.go:299-313 | content without a blank line is a single part: the content trimmed |
| HtmlGen.GenerateLayoutSlide | internal/generator/generator.go:171-189 | a layout slide is the grid container with the layout's style around each part rendered on its own line |
| HtmlGen.WriteParts | internal/generator/generator.go:180-184 | the loop appends each part's rendering, in order |
| HtmlGen.PartsHTMLAppend | internal/generator/generator.go:180-184 | parts are rendered independently of each other |
| HtmlGen.GenerateSlide | internal/generator/generator.go:126-168 | a slide element is the opening tag with its attributes, the layout or plain rendering of the content, the optional notes element and the closing tag |
| HtmlGen.WriteSlideTag | internal/generator/generator.go:130-149 | the opening tag holds the time-to-next, body-style and body-class attributes, each only when set, in that order |
| HtmlGen.SlideHTMLShape | internal/generator/generator.go:126-168 | a slide element starts with `  <div` and ends with its notes element and the closing tag |
| HtmlGen.GenerateSlides | internal/generator/generator.go:113-123 | the deck is each slide's element followed by a newline, in slide order |
| HtmlGen.SlidesHTMLAppend | internal/generator/generator.go:113-123 | slides are rendered independently of each other |
| HtmlGen.TitleIndex | internal/generator/generator.go:317-323 | finds the first trimmed line that starts with `# `; None means no line does |
| HtmlGen.HeadingText | internal/generator/generator.go:317-323 | over trimmed lines: empty iff none starts with `# `; otherwise the text after `# ` on the first line that does |
| HtmlGen.ExtractTitle | internal/generator/generator.go:316-325 | the title is empty iff no trimmed line starts with `# `; otherwise it is the text after `# ` on the first such line |
| HtmlGen.DocumentTitle | internal/generator/generator.go:87-93 | the title option wins; then the first slide's title; otherwise `Presentation`; the title is never empty |
| HtmlGen.Ext | internal/generator/generator.go:255 | the extension is empty, or a suffix of the name that starts with a dot and has no other dot and no slash |
| HtmlGen.DetectContentType | internal/generator/generator.go:254-270 | the lower-cased extension picks the type from the table of five image types; any other extension gives `application/octet-stream` |
| HtmlGen.ExtOfName | internal/generator/generator.go:255 | a name ending in a dotted suffix without another dot or slash has that suffix as its extension |
| HtmlGen.DetectJpegUpperCase | internal/generator/generator.go:255-258 | any name ending in `.JPG` is `image/jpeg`: the extension is compared lower-cased |
| HtmlGen.DetectUnknown | internal/generator/generator.go:267-268 | any name ending in `.txt` is `application/octet-stream` |

## Left out

- Reading files (`ParseFile`), the warnings written to standard error, and the
  `Generate` entry point's reading of embedded assets (`GetBigJS`, `GetBigCSS`,
  `GetTheme`) are I/O, and are not modelled.
- `Generate` calls `generateHTML` with seven arguments while it declares nine, so
  that code does not compile as written. Only its title fallback is modelled, as
  `DocumentTitle`. `generateHTML` itself is modelled as declared.
- Markdown conversion (goldmark) and `processImages`, which inlines images as
  base64 data URLs, are the `convert` and `inline` parameters of a `Generator`.
  Their output is not modelled. The fallback to the untrimmed raw Markdown when
  conversion fails is modelled, in `MarkdownToHTML`.
- The command-line program, the JavaScript runtime and the browser tests are
  outside the core.
- YAML is a flat `key: value` decoder standing in for gopkg.in/yaml.v3. It
  differs from yaml.v3 in, among others, these ways:
  - A key given twice takes its last value, where yaml.v3 rejects the document.
  - A type error leaves the whole record unchanged, where yaml.v3 still sets the
    fields that did decode.
  - Nested mappings, flow collections and block scalars are rejected.
  - A float such as `5.0` for `time-to-next` is a type error here. yaml.v3
    truncates it into the int field.
  - A plain scalar that continues on an indented next line is a syntax error
    here. yaml.v3 folds the lines into one value.
  - Every line is trimmed before it is read, so an indented `key: value` line
    counts as a top-level key. yaml.v3 rejects it when it follows a plain value,
    and reads it as nested when it follows a key with no value.
- Slides are values, not `*Slide` pointers. The extractors return the updated
  slide instead of writing through a pointer, so aliasing between slides is not
  modelled.
- Line endings are assumed to be `\n`. `bufio.Scanner` also drops a `\r` before
  each `\n`; `ScannerLines` does not, so with CRLF input the lines of a
  multi-line slide keep their `\r`.
- The 64 KB line limit of `bufio.Scanner` is not modelled. A longer line would
  stop the Go scanner early.
- `ToLower` covers ASCII plus the two non-ASCII characters that Go lowers to ASCII
  letters (U+0130 and U+212A). It is used only on image alt text and file
  extensions.
- `parseSlide` never returns an error, so the error branch of `ParseString`'s loop
  cannot be taken and is not modelled.
- Integers in YAML are decimal values within the 64-bit range. Other integer
  spellings such as hex, octal or underscores are treated as type errors.
- DirectivesOverride: requires that every directive value fits on one line once
  written as YAML. A directive value spanning lines makes the generated YAML
  something other than `key: value` lines, and that case is not described.
- Patterns.MatchAt: the contract states only where a match lies and how many
  groups it has. Which text each pattern accepts is given by the definition, and
  by the lemmas ImagePath and ImageRematch for images.
- Patterns.CommentAt: the contract states only the span and the group count.
  The accepted text is given by the definition.
- Patterns.DirectiveAt: the contract states only the span and the group count.
  The accepted text is given by the definition.
- Patterns.NoteAt: the contract states only the span and the group count.
  The accepted text is given by the definition.
- Patterns.ImageAt: the contract states only the span and the group count.
  ImagePath states the accepted text.
- A negative time-to-next on a slide counts as set, because the code tests for 0.
  It is then not written out, because only positive values are. The model follows
  the code here.
