/**
 * A flat YAML block-mapping decoder standing in for `yaml.Unmarshal` when it
 * decodes into the two metadata records. Decoding is all-or-nothing: on any
 * error the caller keeps its record as it was. A key that is absent, or whose
 * value is null, leaves its field as it was; unknown keys are ignored; when a
 * key repeats, its last occurrence wins.
 */
module Yaml {
  import opened Wrappers
  import opened Text
  import opened Slides

  /** One `key: value` line: the key, and the value as raw, trimmed text. */
  datatype Pair = Pair(key: string, raw: string)

  /** What a raw value denotes. */
  datatype Scalar = Null | Plain(text: string) | Quoted(text: string)

  /** Characters that cannot start a plain scalar destined for a string or an int. */
  predicate IsIndicator(c: char) {
    c == '[' || c == '{' || c == '|' || c == '>' || c == '&' || c == '*'
    || c == '!' || c == '%' || c == '@' || c == '`'
  }

  /** A colon that separates a key from its value: followed by a blank or the end of the text. */
  predicate IsMappingColon(s: string, i: int) {
    0 <= i < |s| && s[i] == ':' && (i + 1 == |s| || s[i + 1] == ' ' || s[i + 1] == '\t')
  }

  /** The first mapping colon of `s` at or after `from`. */
  function KeyEnd(s: string, from: nat): (r: Option<nat>)
    ensures r.Some? ==> from <= r.value && IsMappingColon(s, r.value)
    ensures r.Some? ==> forall j :: from <= j < r.value ==> !IsMappingColon(s, j)
    ensures r.None? ==> forall j :: from <= j ==> !IsMappingColon(s, j)
    decreases |s| - from
  {
    if from >= |s| then None
    else if IsMappingColon(s, from) then Some(from)
    else KeyEnd(s, from + 1)
  }

  /** The text of a plain scalar before a ` #` comment. */
  function StripComment(s: string): (r: string)
    ensures |r| <= |s| && r == s[..|r|]
  {
    match Find(s, " #", 0)
    case Some(i) => s[..i]
    case None =>
      match Find(s, "\t#", 0)
      case Some(i) => s[..i]
      case None => s
  }

  predicate IsNullWord(s: string) {
    s == "" || s == "~" || s == "null" || s == "Null" || s == "NULL"
  }

  /**
   * The scalar a trimmed raw value denotes, or None when it is not a scalar
   * this decoder accepts (a flow collection, a block scalar, an unterminated
   * quote, a nested mapping, a sequence entry ...).
   */
  function ParseScalar(raw: string): (r: Option<Scalar>)
    ensures raw == "" ==> r == Some(Null)
  {
    if raw == "" || raw[0] == '#' then Some(Null)
    else if raw[0] == '"' || raw[0] == '\'' then
      if |raw| >= 2 && raw[|raw| - 1] == raw[0] && (forall i :: 0 < i < |raw| - 1 ==> raw[i] != raw[0])
      then Some(Quoted(raw[1..|raw| - 1]))
      else None
    else if IsIndicator(raw[0]) || raw == "-" || HasPrefix(raw, "- ") then None
    else
      var v := TrimRight(StripComment(raw), Unicode);
      if KeyEnd(v, 0).Some? then None
      else if IsNullWord(v) then Some(Null)
      else Some(Plain(v))
  }

  /** One line of a block mapping: None on a syntax error, Some(None) for a blank or comment line. */
  function ParseLine(line: string): Option<Option<Pair>> {
    ParseTrimmedLine(TrimSpace(line))
  }

  function ParseTrimmedLine(t: string): Option<Option<Pair>> {
    if t == "" || t[0] == '#' then Some(None)
    else
      match KeyEnd(t, 0)
      case None => None
      case Some(i) => Entry(TrimRight(t[..i], Unicode), TrimSpace(t[i + 1..]))
  }

  /** The pair a line holds once its key and raw value are cut out, or None when they are not acceptable. */
  function Entry(key: string, raw: string): Option<Option<Pair>> {
    if key == "" || ParseScalar(raw).None? then None else Some(Some(Pair(key, raw)))
  }

  function ParseLines(lines: seq<string>): Option<seq<Pair>>
    decreases |lines|
  {
    if |lines| == 0 then Some([])
    else
      match ParseLine(lines[0])
      case None => None
      case Some(entry) =>
        match ParseLines(lines[1..])
        case None => None
        case Some(rest) => Some((if entry.Some? then [entry.value] else []) + rest)
  }

  /** The pairs of a flat block mapping, in document order; None on a syntax error. */
  function ParseMapping(text: string): Option<seq<Pair>> {
    ParseLines(Split(text, "\n"))
  }

  /** The index of the last pair with the given key. */
  function LastIndex(ps: seq<Pair>, key: string): (r: Option<nat>)
    ensures r.Some? ==> r.value < |ps| && ps[r.value].key == key
    ensures r.Some? ==> forall j :: r.value < j < |ps| ==> ps[j].key != key
    ensures r.None? ==> forall j :: 0 <= j < |ps| ==> ps[j].key != key
    decreases |ps|
  {
    if |ps| == 0 then None
    else if ps[|ps| - 1].key == key then Some(|ps| - 1)
    else LastIndex(ps[..|ps| - 1], key)
  }

  /** The raw value of the last pair with the given key. */
  function Lookup(ps: seq<Pair>, key: string): Option<string> {
    match LastIndex(ps, key)
    case None => None
    case Some(i) => Some(ps[i].raw)
  }

  /** A string field after decoding the raw value found for its key. */
  function DecodeString(raw: Option<string>, current: string): string {
    match raw
    case None => current
    case Some(r) =>
      match ParseScalar(r)
      case Some(Plain(v)) => v
      case Some(Quoted(v)) => v
      case _ => current
  }

  /** An int field after decoding the raw value found for its key; None on a type error. */
  function DecodeInt(raw: Option<string>, current: int): Option<int> {
    match raw
    case None => Some(current)
    case Some(r) =>
      match ParseScalar(r)
      case Some(Null) => Some(current)
      case Some(Plain(v)) => ParseInt(v)
      case _ => None
  }

  function DecodeSlide(ps: seq<Pair>, md: SlideMetadata): Option<SlideMetadata> {
    match DecodeInt(Lookup(ps, "time-to-next"), md.timeToNext)
    case None => None
    case Some(t) =>
      Some(SlideMetadata(
        DecodeString(Lookup(ps, "layout"), md.layout),
        DecodeString(Lookup(ps, "class"), md.cssClass),
        DecodeString(Lookup(ps, "body-style"), md.bodyStyle),
        DecodeString(Lookup(ps, "body-class"), md.bodyClass),
        t))
  }

  function DecodePresentation(title: Option<string>, timeToNext: Option<string>, pm: PresentationMetadata)
    : Option<PresentationMetadata>
  {
    match DecodeInt(timeToNext, pm.timeToNext)
    case None => None
    case Some(t) => Some(PresentationMetadata(DecodeString(title, pm.title), t))
  }

  /** yaml.Unmarshal of `text` into a SlideMetadata holding `md`: None on any error. */
  function UnmarshalSlide(text: string, md: SlideMetadata): Option<SlideMetadata> {
    match ParseMapping(text)
    case None => None
    case Some(ps) => DecodeSlide(ps, md)
  }

  /** yaml.Unmarshal of `text` into a PresentationMetadata holding `pm`: None on any error. */
  function UnmarshalPresentation(text: string, pm: PresentationMetadata): Option<PresentationMetadata> {
    match ParseMapping(text)
    case None => None
    case Some(ps) => DecodePresentation(Lookup(ps, "title"), Lookup(ps, "time-to-next"), pm)
  }

  // ----- text the parser writes for the decoder --------------------------------

  /** A pair the parser can write as one `key: value` line. */
  predicate Writable(p: Pair) {
    IsKey(p.key) && TrimSpace(p.raw) == p.raw && forall i :: 0 <= i < |p.raw| ==> p.raw[i] != '\n'
  }

  predicate AllWritable(ps: seq<Pair>) {
    forall i :: 0 <= i < |ps| ==> Writable(ps[i])
  }

  /** The YAML text fmt.Sprintf("%s: %s\n", key, value) builds, pair by pair. */
  function Render(ps: seq<Pair>): string
    decreases |ps|
  {
    if |ps| == 0 then "" else ps[0].key + ": " + ps[0].raw + "\n" + Render(ps[1..])
  }

  /** Writing one more pair appends its line. */
  lemma {:induction false} RenderSnoc(ps: seq<Pair>, p: Pair)
    ensures Render(ps + [p]) == Render(ps) + p.key + ": " + p.raw + "\n"
    decreases |ps|
  {
    var line := p.key + ": " + p.raw + "\n";
    if |ps| == 0 {
      assert [p][1..] == [];
      AppendLine("", p.key, p.raw);
    } else {
      var first := ps[0].key + ": " + ps[0].raw + "\n";
      DropSnoc(ps, p);
      assert (ps + [p])[0] == ps[0];
      RenderSnoc(ps[1..], p);
      AppendLine(Render(ps[1..]), p.key, p.raw);
      AppendLine(Render(ps), p.key, p.raw);
      Assoc(first, Render(ps[1..]), line);
    }
  }

  lemma AppendLine(r: string, key: string, raw: string)
    ensures r + key + ": " + raw + "\n" == r + (key + ": " + raw + "\n")
  {
  }

  predicate ScalarsOk(ps: seq<Pair>) {
    forall i :: 0 <= i < |ps| ==> ParseScalar(ps[i].raw).Some?
  }

  lemma KeyHasNoSpace(key: string, k: Whitespace)
    requires IsKey(key)
    ensures forall i :: 0 <= i < |key| ==> !IsSpace(key[i], k)
  {
  }

  /** A written line is already trimmed, except for the blank after the colon of an empty value. */
  lemma WrittenLineTrim(p: Pair)
    requires Writable(p)
    ensures TrimSpace(p.key + ": " + p.raw) == if p.raw == "" then p.key + ":" else p.key + ": " + p.raw
  {
    var line := p.key + ": " + p.raw;
    assert line[0] == p.key[0];
    assert !IsSpace(p.key[0], Unicode);
    TrimLeftIdle(line, Unicode);
    if p.raw == "" {
      var kc := p.key + ":";
      assert line == kc + [' '];
      TrimRightSpace(kc, ' ', Unicode);
      TrimRightIdle(kc, Unicode);
    } else {
      TrimShape(p.raw, Unicode);
      assert line[|line| - 1] == p.raw[|p.raw| - 1];
      TrimRightIdle(line, Unicode);
    }
  }

  /** The key of a written line ends at the colon written after it. */
  lemma KeyEndAfterKey(key: string, rest: string)
    requires IsKey(key)
    requires rest == ":" || (|rest| >= 2 && rest[0] == ':' && rest[1] == ' ')
    ensures KeyEnd(key + rest, 0) == Some(|key|)
  {
    var t := key + rest;
    forall j | 0 <= j < |key| ensures !IsMappingColon(t, j) {
      assert t[j] == key[j];
    }
    assert IsMappingColon(t, |key|);
  }

  /** The value of a written line, read back after its colon. */
  lemma WrittenValueTrim(raw: string)
    requires raw != "" && TrimSpace(raw) == raw
    ensures TrimSpace(" " + raw) == raw
  {
    TrimmedEnds(raw);
    TrimLeftIdle(raw, Unicode);
    TrimRightIdle(raw, Unicode);
    var t := " " + raw;
    assert t[1..] == raw;
    assert TrimLeft(t, Unicode) == raw;
  }

  /** A written line reads back as the pair it was written from. */
  lemma ParseWrittenLine(p: Pair)
    requires Writable(p)
    ensures ParseLine(p.key + ": " + p.raw) == Entry(p.key, p.raw)
  {
    if p.raw == "" {
      ParseEmptyValue(p);
    } else {
      ParseValue(p);
    }
  }

  lemma ParseEmptyValue(p: Pair)
    requires Writable(p) && p.raw == ""
    ensures ParseLine(p.key + ": " + p.raw) == Entry(p.key, p.raw)
  {
    WrittenLineTrim(p);
    KeyHasNoSpace(p.key, Unicode);
    TrimRightIdle(p.key, Unicode);
    var t := p.key + ":";
    KeyEndAfterKey(p.key, ":");
    CutAfterKey(p.key, ":");
    TrimEmpty();
    ParseTrimmedAt(t, |p.key|);
  }

  lemma ParseValue(p: Pair)
    requires Writable(p) && p.raw != ""
    ensures ParseLine(p.key + ": " + p.raw) == Entry(p.key, p.raw)
  {
    WrittenLineTrim(p);
    ValueLineEntry(p);
  }

  /** The trimmed line of a written pair with a value splits at the colon after the key. */
  lemma ValueLineEntry(p: Pair)
    requires Writable(p) && p.raw != ""
    ensures ParseTrimmedLine(p.key + ": " + p.raw) == Entry(p.key, p.raw)
  {
    KeyHasNoSpace(p.key, Unicode);
    TrimRightIdle(p.key, Unicode);
    var rest := ": " + p.raw;
    var t := p.key + rest;
    Assoc(p.key, ": ", p.raw);
    ColonSpace(p.raw);
    KeyEndAfterKey(p.key, rest);
    CutAfterKey(p.key, rest);
    WrittenValueTrim(p.raw);
    KeyStart(p.key);
    ParseTrimmedAt(t, |p.key|);
  }

  lemma KeyStart(key: string)
    requires IsKey(key)
    ensures |key| > 0 && key[0] != '#'
  {
    assert IsKeyChar(key[0]);
  }

  lemma ColonSpace(raw: string)
    ensures |": " + raw| >= 2 && (": " + raw)[0] == ':' && (": " + raw)[1] == ' '
    ensures (": " + raw)[1..] == " " + raw
  {
  }

  lemma TrimEmpty()
    ensures TrimSpace("") == ""
  {
  }

  /** The text before and after the colon of key + rest. */
  lemma CutAfterKey(key: string, rest: string)
    requires |rest| > 0
    ensures (key + rest)[..|key|] == key && (key + rest)[|key| + 1..] == rest[1..]
    ensures (key + rest)[0] == if |key| > 0 then key[0] else rest[0]
  {
  }

  /** A line with a key reads as the entry its key and value make. */
  lemma ParseTrimmedAt(t: string, i: nat)
    requires t != "" && t[0] != '#' && KeyEnd(t, 0) == Some(i)
    ensures ParseTrimmedLine(t) == Entry(TrimRight(t[..i], Unicode), TrimSpace(t[i + 1..]))
  {
  }

  /** Reading back what the parser wrote gives its pairs, or an error when one value is not a scalar. */
  lemma {:induction false} ParseRender(ps: seq<Pair>)
    requires forall i :: 0 <= i < |ps| ==> Writable(ps[i])
    ensures ParseMapping(Render(ps)) == if ScalarsOk(ps) then Some(ps) else None
    decreases |ps|
  {
    if |ps| == 0 {
      assert Render(ps) == "";
      ParseEmpty();
    } else {
      ParseRender(ps[1..]);
      ParseRenderStep(ps);
    }
  }

  /** The empty text is the empty mapping. */
  lemma ParseEmpty()
    ensures ParseMapping("") == Some([])
  {
    SplitNone("", '\n');
    var lines := [""];
    assert Split("", "\n") == lines;
    assert ParseLine(lines[0]) == Some(None);
    assert lines[1..] == [];
    assert ParseLines(lines[1..]) == Some([]);
    var none: seq<Pair> := [];
    assert none + none == none;
    assert ParseLines(lines) == Some(none + none);
  }

  lemma ParseRenderStep(ps: seq<Pair>)
    requires |ps| > 0 && Writable(ps[0])
    requires ParseMapping(Render(ps[1..])) == if ScalarsOk(ps[1..]) then Some(ps[1..]) else None
    ensures ParseMapping(Render(ps)) == if ScalarsOk(ps) then Some(ps) else None
  {
    var p := ps[0];
    RenderedLines(ps);
    ParseWrittenLine(p);
    ScalarsOkCons(ps);
    var lines := Split(Render(ps), "\n");
    var tail := ParseMapping(Render(ps[1..]));
    if ParseScalar(p.raw).Some? {
      ParseLinesCons(lines, p, tail);
      if ScalarsOk(ps) {
        ConsTail(ps);
      }
    } else {
      assert ParseLine(lines[0]) == None;
    }
  }

  lemma ConsTail(ps: seq<Pair>)
    requires |ps| > 0
    ensures [ps[0]] + ps[1..] == ps
  {
  }

  /** A first line holding a pair puts that pair in front of what the other lines read as. */
  lemma ParseLinesCons(lines: seq<string>, p: Pair, tail: Option<seq<Pair>>)
    requires |lines| > 0 && ParseLine(lines[0]) == Some(Some(p)) && ParseLines(lines[1..]) == tail
    ensures ParseLines(lines) == if tail.Some? then Some([p] + tail.value) else None
  {
  }

  /** The first line of a rendering is the first pair's line; the rest are the rest's. */
  lemma RenderedLines(ps: seq<Pair>)
    requires |ps| > 0 && Writable(ps[0])
    ensures var lines := Split(Render(ps), "\n");
      |lines| >= 1 && lines[0] == ps[0].key + ": " + ps[0].raw && lines[1..] == Split(Render(ps[1..]), "\n")
  {
    var p := ps[0];
    var line := p.key + ": " + p.raw;
    forall i | 0 <= i < |line| ensures line[i] != '\n' {
      if i < |p.key| {
        assert line[i] == p.key[i];
      } else if i >= |p.key| + 2 {
        assert line[i] == p.raw[i - |p.key| - 2];
      }
    }
    var rest := Render(ps[1..]);
    assert Render(ps) == line + ['\n'] + rest;
    SplitCons(line, '\n', rest);
  }

  lemma ScalarsOkCons(ps: seq<Pair>)
    requires |ps| > 0
    ensures ScalarsOk(ps) <==> ParseScalar(ps[0].raw).Some? && ScalarsOk(ps[1..])
  {
    if ParseScalar(ps[0].raw).Some? && ScalarsOk(ps[1..]) {
      forall i | 0 <= i < |ps| ensures ParseScalar(ps[i].raw).Some? {
        if i > 0 { assert ps[i] == ps[1..][i - 1]; }
      }
    }
    if ScalarsOk(ps) {
      forall i | 0 <= i < |ps| - 1 ensures ParseScalar(ps[1..][i].raw).Some? {
        assert ps[1..][i] == ps[i + 1];
      }
    }
  }

  // ----- what decoding does to the fields ------------------------------------

  /** The scalar a looked-up raw value holds, if there is one and it is a scalar. */
  function ScalarIn(raw: Option<string>): Option<Scalar> {
    match raw
    case None => None
    case Some(r) => ParseScalar(r)
  }

  /** The scalar the last pair with the given key holds. */
  function ScalarOf(ps: seq<Pair>, key: string): Option<Scalar> {
    ScalarIn(Lookup(ps, key))
  }

  /** A scalar that carries text: plain or quoted. */
  predicate IsText(s: Option<Scalar>) {
    s.Some? && (s.value.Plain? || s.value.Quoted?)
  }

  /** A string field takes the text of a plain or quoted value, and keeps its value otherwise. */
  lemma DecodeStringText(raw: Option<string>, current: string)
    ensures IsText(ScalarIn(raw)) ==> DecodeString(raw, current) == ScalarIn(raw).value.text
    ensures !IsText(ScalarIn(raw)) ==> DecodeString(raw, current) == current
  {
  }

  /**
   * An int field fails on a value that is neither null nor a plain integer; it
   * takes the integer a plain value reads as, and keeps its value when the key
   * is absent or null.
   */
  lemma DecodeIntValue(raw: Option<string>, current: int)
    ensures var t := ScalarIn(raw);
      DecodeInt(raw, current).None? <==>
        raw.Some? && (t.None? || t.value.Quoted? || (t.value.Plain? && ParseInt(t.value.text).None?))
    ensures DecodeInt(raw, current).Some? && ScalarIn(raw).Some? && ScalarIn(raw).value.Plain? ==>
      ParseInt(ScalarIn(raw).value.text) == DecodeInt(raw, current)
    ensures raw.None? || ScalarIn(raw) == Some(Null) ==> DecodeInt(raw, current) == Some(current)
  {
  }

  /**
   * Decoding slide metadata fails exactly when `time-to-next` is present and
   * is neither null nor an integer in plain style. Otherwise each string field
   * takes the text of its plain or quoted value and keeps what it had when its
   * key is absent or null, and `time-to-next` is the integer its plain value
   * reads as, or what it was when absent or null.
   */
  lemma DecodeSlideFields(ps: seq<Pair>, md: SlideMetadata)
    ensures var t := ScalarOf(ps, "time-to-next");
      DecodeSlide(ps, md).None? <==>
        Lookup(ps, "time-to-next").Some? && (t.None? || t.value.Quoted? || (t.value.Plain? && ParseInt(t.value.text).None?))
    ensures DecodeSlide(ps, md).Some? ==>
      var r := DecodeSlide(ps, md).value;
      && (IsText(ScalarOf(ps, "layout")) ==> r.layout == ScalarOf(ps, "layout").value.text)
      && (!IsText(ScalarOf(ps, "layout")) ==> r.layout == md.layout)
      && (IsText(ScalarOf(ps, "class")) ==> r.cssClass == ScalarOf(ps, "class").value.text)
      && (!IsText(ScalarOf(ps, "class")) ==> r.cssClass == md.cssClass)
      && (IsText(ScalarOf(ps, "body-style")) ==> r.bodyStyle == ScalarOf(ps, "body-style").value.text)
      && (!IsText(ScalarOf(ps, "body-style")) ==> r.bodyStyle == md.bodyStyle)
      && (IsText(ScalarOf(ps, "body-class")) ==> r.bodyClass == ScalarOf(ps, "body-class").value.text)
      && (!IsText(ScalarOf(ps, "body-class")) ==> r.bodyClass == md.bodyClass)
      && (ScalarOf(ps, "time-to-next").Some? && ScalarOf(ps, "time-to-next").value.Plain? ==>
            ParseInt(ScalarOf(ps, "time-to-next").value.text) == Some(r.timeToNext))
      && (Lookup(ps, "time-to-next").None? || ScalarOf(ps, "time-to-next") == Some(Null) ==> r.timeToNext == md.timeToNext)
  {
    DecodeIntValue(Lookup(ps, "time-to-next"), md.timeToNext);
    DecodeStringText(Lookup(ps, "layout"), md.layout);
    DecodeStringText(Lookup(ps, "class"), md.cssClass);
    DecodeStringText(Lookup(ps, "body-style"), md.bodyStyle);
    DecodeStringText(Lookup(ps, "body-class"), md.bodyClass);
  }

  /** A decimal numeral: digits, after an optional minus sign. */
  predicate IsNumeral(s: string) {
    |s| >= 1 && if s[0] == '-' then |s| >= 2 && AllDigits(s[1..]) else AllDigits(s)
  }

  lemma ItoaNumeral(n: int)
    ensures IsNumeral(Itoa(n))
  {
    if n < 0 {
      var d := NatToString(-n);
      HeadTail(Itoa(n), '-', d);
    }
  }

  /** Every character of a numeral is a digit or its leading minus sign, and it ends in a digit. */
  lemma NumeralChars(s: string)
    requires IsNumeral(s)
    ensures forall i :: 0 <= i < |s| ==> IsDigit(s[i]) || (i == 0 && s[i] == '-')
    ensures s[0] == '-' ==> IsDigit(s[1])
    ensures IsDigit(s[|s| - 1])
  {
    if s[0] == '-' {
      forall i | 1 <= i < |s| ensures IsDigit(s[i]) {
        DropAt(s, s[1..], 1, i);
      }
    }
  }

  /** A numeral is a plain scalar whose text is the numeral itself. */
  lemma NumeralPlain(s: string)
    requires IsNumeral(s)
    ensures ParseScalar(s) == Some(Plain(s))
  {
    NumeralChars(s);
    NumeralStart(s);
    NumeralKept(s);
    NoColonKey(s);
  }

  /** Neither comment stripping nor trimming changes a numeral. */
  lemma NumeralKept(s: string)
    requires |s| >= 1 && IsDigit(s[|s| - 1])
    requires forall i :: 0 <= i < |s| ==> IsDigit(s[i]) || s[i] == '-'
    ensures TrimRight(StripComment(s), Unicode) == s
  {
    NoBlankFind(s, " #");
    NoBlankFind(s, "\t#");
    assert !IsSpace(s[|s| - 1], Unicode);
  }

  /** A numeral starts with no character that opens anything but a plain scalar. */
  lemma NumeralStart(s: string)
    requires |s| >= 1 && (IsDigit(s[0]) || s[0] == '-') && (s[0] == '-' ==> |s| >= 2 && IsDigit(s[1]))
    ensures s[0] != '#' && s[0] != '"' && s[0] != '\'' && !IsIndicator(s[0]) && s != "-" && !HasPrefix(s, "- ")
    ensures !IsNullWord(s)
  {
    if s[0] == '-' {
      NotPrefixAt(s, "- ", 1);
    } else {
      NotPrefixAt(s, "- ", 0);
    }
  }

  /** A text that starts with a blank does not occur in a text of digits and minus signs. */
  lemma NoBlankFind(s: string, t: string)
    requires |t| > 0 && (t[0] == ' ' || t[0] == '\t')
    requires forall i :: 0 <= i < |s| ==> IsDigit(s[i]) || s[i] == '-'
    ensures Find(s, t, 0).None?
  {
    forall j | 0 <= j ensures !OccursAt(s, t, j) {
      if 0 <= j < |s| {
        assert IsDigit(s[j]) || s[j] == '-';
      }
    }
  }

  /** A text with no colon has no mapping colon. */
  lemma NoColonKey(s: string)
    requires forall i :: 0 <= i < |s| ==> IsDigit(s[i]) || s[i] == '-'
    ensures KeyEnd(s, 0).None?
  {
    forall j | 0 <= j ensures !IsMappingColon(s, j) {
      if 0 <= j < |s| {
        assert IsDigit(s[j]) || s[j] == '-';
      }
    }
  }

  /** `time-to-next: n`, as strconv writes n, decodes to n and leaves the other fields alone. */
  lemma DecodeTimeToNext(n: int, md: SlideMetadata)
    requires IsInt64(n)
    ensures DecodeSlide([Pair("time-to-next", Itoa(n))], md) == Some(md.(timeToNext := n))
  {
    ItoaNumeral(n);
    NumeralPlain(Itoa(n));
    ParseItoa(n);
  }

  /** The last occurrence of a key is the one that counts. */
  lemma LookupLastWins(ps: seq<Pair>, key: string, raw: string)
    ensures Lookup(ps + [Pair(key, raw)], key) == Some(raw)
  {
  }

  /** A later pair with another key does not change what a key looks up to. */
  lemma LookupOtherKey(ps: seq<Pair>, p: Pair, key: string)
    requires p.key != key
    ensures Lookup(ps + [p], key) == Lookup(ps, key)
  {
    TakeSnoc(ps, p);
  }

  /** A pair list that lists each entry of a map exactly once, in some order. */
  predicate Enumerates(ps: seq<Pair>, m: map<string, string>) {
    && (forall i :: 0 <= i < |ps| ==> ps[i].key in m && m[ps[i].key] == ps[i].raw)
    && (forall i, j :: 0 <= i < j < |ps| ==> ps[i].key != ps[j].key)
    && (forall k :: k in m ==> exists i :: 0 <= i < |ps| && ps[i].key == k)
  }

  function MapGet(m: map<string, string>, key: string): Option<string> {
    if key in m then Some(m[key]) else None
  }

  /** Decoding a map of raw values into a PresentationMetadata, whatever the order of its entries. */
  function UnmarshalPresentationMap(m: map<string, string>, pm: PresentationMetadata): Option<PresentationMetadata> {
    if forall k :: k in m ==> ParseScalar(m[k]).Some? then
      DecodePresentation(MapGet(m, "title"), MapGet(m, "time-to-next"), pm)
    else None
  }

  lemma LookupEnumerated(ps: seq<Pair>, m: map<string, string>, key: string)
    requires Enumerates(ps, m)
    ensures Lookup(ps, key) == MapGet(m, key)
  {
    if Lookup(ps, key).Some? {
      var i :| 0 <= i < |ps| && ps[i].key == key && ps[i].raw == Lookup(ps, key).value;
    }
  }

  /**
   * The YAML text written from a map's entries decodes the same way whatever
   * order the entries were written in.
   */
  lemma UnmarshalAnyOrder(ps: seq<Pair>, m: map<string, string>, pm: PresentationMetadata)
    requires Enumerates(ps, m)
    requires AllWritable(ps)
    ensures UnmarshalPresentation(Render(ps), pm) == UnmarshalPresentationMap(m, pm)
  {
    ParseRender(ps);
    LookupEnumerated(ps, m, "title");
    LookupEnumerated(ps, m, "time-to-next");
    if ScalarsOk(ps) {
      forall k | k in m ensures ParseScalar(m[k]).Some? {
        var i :| 0 <= i < |ps| && ps[i].key == k;
      }
    } else {
      var i :| 0 <= i < |ps| && ParseScalar(ps[i].raw).None?;
      assert ps[i].key in m;
    }
  }
}
