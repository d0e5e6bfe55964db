/**
 * What the parser promises, stated over the specification functions of
 * module Parsing: the delimiter rule, the split into blocks, the top-of-file
 * configuration scan, the presentation comment, and the per-block extractors.
 */
module ParserProperties {
  import opened Wrappers
  import opened Text
  import opened Slides
  import opened Yaml
  import opened Patterns
  import opened Parsing

  // ----- delimiter lines ----------------------------------------------------------

  /** Spaced dashes are a rule; two dashes, stars, or a trailing letter are not. */
  lemma DelimiterExamples()
    ensures IsDelimiter("---") && IsDelimiter("- - -") && IsDelimiter("-- -")
    ensures !IsDelimiter("--") && !IsDelimiter("***") && !IsDelimiter("---x") && !IsDelimiter("- -")
  {
    assert CountDashes("- - -") == 3 by {
      assert "- - -"[..4] == "- - " && "- - "[..3] == "- -" && "- -"[..2] == "- " && "- "[..1] == "-";
    }
    assert CountDashes("-- -") == 3 by {
      assert "-- -"[..3] == "-- " && "-- "[..2] == "--" && "--"[..1] == "-";
    }
    assert CountDashes("---") == 3 by {
      assert "---"[..2] == "--" && "--"[..1] == "-";
    }
    assert "***"[0] == '*';
    assert "---x"[3] == 'x';
    assert CountDashes("- -") == 2 by {
      assert "- -"[..2] == "- " && "- "[..1] == "-";
    }
  }

  // ----- splitting into blocks ------------------------------------------------------

  /** The lines that are not delimiters, in order. */
  function NonRules(lines: seq<string>): (r: seq<string>)
    ensures forall i :: 0 <= i < |r| ==> !IsDelimiter(TrimSpace(r[i]))
    decreases |lines|
  {
    if |lines| == 0 then []
    else
      var line := lines[|lines| - 1];
      NonRules(lines[..|lines| - 1]) + (if IsDelimiter(TrimSpace(line)) then [] else [line])
  }

  /** The groups of lines, one after the other. */
  function Flatten(segs: seq<seq<string>>): seq<string>
    decreases |segs|
  {
    if |segs| == 0 then [] else Flatten(segs[..|segs| - 1]) + segs[|segs| - 1]
  }

  lemma FlattenSnoc(segs: seq<seq<string>>, x: seq<string>)
    ensures Flatten(segs + [x]) == Flatten(segs) + x
  {
    TakeSnoc(segs, x);
  }

  /** The groups hold every line that is not a delimiter, in source order, and nothing else. */
  lemma {:induction false} SegmentsKeepOrder(lines: seq<string>)
    ensures Flatten(Segments(lines)) == NonRules(lines)
    decreases |lines|
  {
    if |lines| > 0 {
      var prefix := lines[..|lines| - 1];
      var line := lines[|lines| - 1];
      SegmentsKeepOrder(prefix);
      if IsDelimiter(TrimSpace(line)) {
        FlattenRule(Segments(prefix));
      } else {
        FlattenText(Segments(prefix), line);
      }
    }
  }

  lemma FlattenRule(segs: seq<seq<string>>)
    ensures Flatten(segs + [[]]) == Flatten(segs)
  {
    FlattenSnoc(segs, []);
  }

  lemma FlattenText(segs: seq<seq<string>>, line: string)
    requires |segs| > 0
    ensures Flatten(segs[..|segs| - 1] + [segs[|segs| - 1] + [line]]) == Flatten(segs) + [line]
  {
    var init := segs[..|segs| - 1];
    var last := segs[|segs| - 1];
    FlattenSnoc(init, last + [line]);
    SeqAssoc(Flatten(init), last, [line]);
  }

  /** No block is blank. */
  lemma {:induction false} NonBlankKept(segs: seq<seq<string>>)
    ensures forall i :: 0 <= i < |NonBlank(segs)| ==> TrimSpace(NonBlank(segs)[i]) != ""
    decreases |segs|
  {
    if |segs| > 0 {
      NonBlankKept(segs[..|segs| - 1]);
    }
  }

  /** Every block is the text of one group of lines, each line followed by a newline. */
  lemma {:induction false} NonBlankRendered(segs: seq<seq<string>>)
    ensures forall i :: 0 <= i < |NonBlank(segs)| ==> exists j :: 0 <= j < |segs| && NonBlank(segs)[i] == RenderLines(segs[j])
    decreases |segs|
  {
    if |segs| > 0 {
      var init := segs[..|segs| - 1];
      NonBlankRendered(init);
      var bs := NonBlank(segs);
      forall i | 0 <= i < |bs| ensures exists j :: 0 <= j < |segs| && bs[i] == RenderLines(segs[j]) {
        var text := RenderLines(segs[|segs| - 1]);
        assert bs == NonBlank(init) + (if TrimSpace(text) != "" then [text] else []);
        if i < |NonBlank(init)| {
          var j :| 0 <= j < |init| && NonBlank(init)[i] == RenderLines(init[j]);
          assert bs[i] == NonBlank(init)[i];
          assert segs[j] == init[j];
        } else {
          var j := |segs| - 1;
          assert bs[i] == text == RenderLines(segs[j]);
        }
      }
      assert NonBlank(segs) == bs;
    } else {
      assert NonBlank(segs) == [];
    }
  }

  /** The blocks of a document: none is blank, and each is a group of its lines, each followed by a newline. */
  lemma BlocksShape(content: string)
    ensures forall i :: 0 <= i < |Blocks(content)| ==> TrimSpace(Blocks(content)[i]) != ""
    ensures var segs := Segments(ScannerLines(content));
      forall i :: 0 <= i < |Blocks(content)| ==> exists j :: 0 <= j < |segs| && Blocks(content)[i] == RenderLines(segs[j])
    ensures Flatten(Segments(ScannerLines(content))) == NonRules(ScannerLines(content))
  {
    var segs := Segments(ScannerLines(content));
    assert Blocks(content) == NonBlank(segs);
    NonBlankKept(segs);
    NonBlankRendered(segs);
    SegmentsKeepOrder(ScannerLines(content));
  }

  /** With no delimiter line, all lines form one group. */
  lemma {:induction false} SegmentsNoRule(lines: seq<string>)
    requires forall i :: 0 <= i < |lines| ==> !IsDelimiter(TrimSpace(lines[i]))
    ensures Segments(lines) == [lines]
    decreases |lines|
  {
    if |lines| > 0 {
      var prefix := lines[..|lines| - 1];
      SegmentsNoRule(prefix);
      InitLast(lines, prefix, lines[|lines| - 1]);
    }
  }

  /** Three dashes, trimmed, are a rule. */
  lemma RuleLine()
    ensures IsDelimiter(TrimSpace("---"))
  {
    TrimLeftIdle("---", Unicode);
    TrimRightIdle("---", Unicode);
    DelimiterExamples();
  }

  /** The groups of lines on either side of the rule. */
  lemma RuleSplits(a: seq<string>, b: seq<string>)
    requires forall i :: 0 <= i < |a| ==> !IsDelimiter(TrimSpace(a[i]))
    requires forall i :: 0 <= i < |b| ==> !IsDelimiter(TrimSpace(b[i]))
    ensures Segments(a + ["---"] + b) == [a, b]
  {
    RuleLine();
    SegmentsAfterRule(a, "---", b);
    SegmentsNoRule(a);
  }

  /** A rule line closes the group before it; the lines after it, with no rule among them, form the last group. */
  lemma {:induction false} SegmentsAfterRule(pre: seq<string>, r: string, post: seq<string>)
    requires IsDelimiter(TrimSpace(r))
    requires forall i :: 0 <= i < |post| ==> !IsDelimiter(TrimSpace(post[i]))
    ensures Segments(pre + [r] + post) == Segments(pre) + [post]
    decreases |post|
  {
    if |post| == 0 {
      assert pre + [r] + post == pre + [r];
      SegmentsRule(pre, r);
    } else {
      var init := post[..|post| - 1];
      var line := post[|post| - 1];
      SegmentsAfterRule(pre, r, init);
      SegmentsGrow(pre + [r] + init, Segments(pre), init, line);
      InitLast(post, init, line);
      AppendAssoc(pre + [r], init, [line]);
    }
  }

  /** A line that is not a rule extends the last group. */
  lemma SegmentsGrow(lines: seq<string>, front: seq<seq<string>>, last: seq<string>, line: string)
    requires Segments(lines) == front + [last] && !IsDelimiter(TrimSpace(line))
    ensures Segments(lines + [line]) == front + [last + [line]]
  {
    SegmentsText(lines, line);
    var segs := front + [last];
    assert segs[..|segs| - 1] == front;
  }

  /** A rule line starts a new, empty group. */
  lemma SegmentsRule(lines: seq<string>, r: string)
    requires IsDelimiter(TrimSpace(r))
    ensures Segments(lines + [r]) == Segments(lines) + [[]]
  {
    TakeSnoc(lines, r);
  }

  /** Any other line joins the last group. */
  lemma SegmentsText(lines: seq<string>, line: string)
    requires !IsDelimiter(TrimSpace(line))
    ensures var segs := Segments(lines);
      Segments(lines + [line]) == segs[..|segs| - 1] + [segs[|segs| - 1] + [line]]
  {
    TakeSnoc(lines, line);
  }

  /** Joining one more piece. */
  lemma {:induction false} JoinSnoc(parts: seq<string>, x: string, sep: string)
    requires |parts| > 0
    ensures Join(parts + [x], sep) == Join(parts, sep) + sep + x
    decreases |parts|
  {
    if |parts| > 1 {
      JoinSnoc(parts[1..], x, sep);
      DropSnoc(parts, x);
    } else {
      assert (parts + [x])[1..] == [x];
    }
  }

  /** The text of a group of lines is the lines joined by newlines, with a final newline. */
  lemma {:induction false} RenderJoin(lines: seq<string>)
    requires |lines| > 0
    ensures RenderLines(lines) == Join(lines, "\n") + "\n"
    decreases |lines|
  {
    var prefix := lines[..|lines| - 1];
    if |prefix| > 0 {
      RenderJoin(prefix);
      JoinSnoc(prefix, lines[|lines| - 1], "\n");
      InitLast(lines, prefix, lines[|lines| - 1]);
    }
  }

  /** The scanner's lines, written back with a newline after each, give the document with a final newline. */
  lemma ScannerText(content: string)
    requires content != ""
    ensures content[|content| - 1] == '\n' ==> RenderLines(ScannerLines(content)) == content
    ensures content[|content| - 1] != '\n' ==> RenderLines(ScannerLines(content)) == content + "\n"
  {
    var parts := Split(content, "\n");
    JoinSplit(content, "\n");
    var n := |parts|;
    var last := parts[n - 1];
    if last == "" {
      var init := parts[..n - 1];
      InitLast(parts, init, last);
      if n == 1 {
        assert false;
      } else {
        JoinSnoc(init, last, "\n");
        RenderJoin(init);
        assert content == Join(init, "\n") + "\n";
      }
    } else {
      RenderJoin(parts);
      SplitPiecesFree(content, "\n");
      assert last in parts;
      LastNotNewline(content, parts);
    }
  }

  /** A join whose last piece is not empty and holds no newline does not end with a newline. */
  lemma LastNotNewline(content: string, parts: seq<string>)
    requires |parts| > 0 && parts[|parts| - 1] != "" && Join(parts, "\n") == content
    requires !Contains(parts[|parts| - 1], "\n")
    ensures content[|content| - 1] != '\n'
  {
    var last := parts[|parts| - 1];
    NoNewlineOf(last);
    JoinLastChar(parts);
  }

  /** A join whose last piece is not empty ends with that piece's last character. */
  lemma JoinLastChar(parts: seq<string>)
    requires |parts| > 0 && parts[|parts| - 1] != ""
    ensures var j := Join(parts, "\n"); var last := parts[|parts| - 1];
      |j| > 0 && j[|j| - 1] == last[|last| - 1]
  {
    var last := parts[|parts| - 1];
    if |parts| > 1 {
      var init := parts[..|parts| - 1];
      JoinSnoc(init, last, "\n");
      InitLast(parts, init, last);
    }
  }

  /** A document that is not blank and has no delimiter line is exactly one block: the document with a final newline. */
  lemma OneBlock(content: string)
    requires TrimSpace(content) != ""
    requires forall i :: 0 <= i < |ScannerLines(content)| ==> !IsDelimiter(TrimSpace(ScannerLines(content)[i]))
    ensures Blocks(content) == [RenderLines(ScannerLines(content))]
    ensures RenderLines(ScannerLines(content)) == if content[|content| - 1] == '\n' then content else content + "\n"
  {
    var lines := ScannerLines(content);
    SegmentsNoRule(lines);
    ScannerText(content);
    var text := RenderLines(lines);
    TrimSpaceEmptyIffBlank(content);
    TrimSpaceEmptyIffBlank(text);
    BlankAppend(content, "\n");
    assert NonBlank([lines]) == NonBlank([lines][..0]) + [text];
  }

  /** The scanner's lines hold no newline. */
  lemma ScannerLinesFree(content: string)
    ensures forall i :: 0 <= i < |ScannerLines(content)| ==> NoNewline(ScannerLines(content)[i])
  {
    SplitLinesFree(content);
  }

  // ----- document-wide configuration ------------------------------------------------

  /** The lines skipped before the configuration are blank, and the scan stops at the first line that is not. */
  lemma {:induction false} LeadingBlankSpec(lines: seq<string>, i: nat)
    requires i <= |lines|
    ensures var b := LeadingBlank(lines, i);
      (forall k :: i <= k < b ==> TrimSpace(lines[k]) == "") && (b == |lines| || TrimSpace(lines[b]) != "")
    decreases |lines| - i
  {
    if i < |lines| && TrimSpace(lines[i]) == "" {
      LeadingBlankSpec(lines, i + 1);
    }
  }

  /** The run of configuration lines: each is a `key: value` line, and the line after it is not. */
  lemma {:induction false} ConfigRunSpec(lines: seq<string>, i: nat)
    requires i <= |lines|
    ensures var e := ConfigRun(lines, i);
      (forall k :: i <= k < e ==> ConfigLine(lines[k]).Some?) && (e == |lines| || ConfigLine(lines[e]).None?)
    decreases |lines| - i
  {
    if i < |lines| && ConfigLine(lines[i]).Some? {
      ConfigRunSpec(lines, i + 1);
    }
  }

  /**
   * The top-of-file configuration: after the leading blank lines comes a
   * run of `key: value` lines that ends at the first other line (a blank
   * line and a delimiter are never configuration lines); it is removed with
   * the blank lines above it, and when the first non-blank line is not a
   * configuration line there is no configuration.
   */
  lemma ConfigEndSpec(lines: seq<string>)
    ensures var n := ConfigEnd(lines); var b := LeadingBlank(lines, 0);
      && (forall k :: 0 <= k < b ==> TrimSpace(lines[k]) == "")
      && (n == 0 <==> b == |lines| || ConfigLine(lines[b]).None?)
      && (n > 0 ==> b < n && forall k :: b <= k < n ==> ConfigLine(lines[k]).Some?)
      && (n > 0 ==> n == |lines| || ConfigLine(lines[n]).None?)
  {
    LeadingBlankSpec(lines, 0);
    var b := LeadingBlank(lines, 0);
    ConfigRunSpec(lines, b);
  }

  /** A line that stops the scan before any configuration, or ends it, is not a configuration line. */
  lemma ScanStops(line: string)
    ensures TrimSpace(line) == "" ==> ConfigLine(line).None?
    ensures IsDelimiter(TrimSpace(line)) ==> ConfigLine(line).None?
  {
    if TrimSpace(line) == "" || IsDelimiter(TrimSpace(line)) {
      NotConfigLine(line);
    }
  }

  /**
   * The top-of-file scan removes exactly the configuration lines and the
   * blank lines above them; everything after is kept as it was, and with no
   * configuration the document and the metadata are unchanged.
   */
  lemma GlobalConfigRemoves(content: string, pm: PresentationMetadata)
    ensures var lines := Split(content, "\n");
      GlobalConfigStep(content, pm).content == Join(lines[ConfigEnd(lines)..], "\n")
    ensures ConfigEnd(Split(content, "\n")) == 0 ==> GlobalConfigStep(content, pm) == Stripped(content, pm)
  {
    var lines := Split(content, "\n");
    JoinSplit(content, "\n");
    assert lines[0..] == lines;
  }

  // ----- the presentation comment ------------------------------------------------------

  /**
   * A presentation comment is recognised only at the start of the document,
   * after optional white space; when there is one it is removed whether or
   * not its YAML decodes, and the top-of-file scan does not run.
   */
  lemma PresentationFirst(content: string, pm: PresentationMetadata)
    ensures forall j :: j > 0 ==> MatchAt(Presentation, content, j).None?
    ensures NextMatch(Presentation, content, 0).None? ==> PresentationStep(content, pm) == GlobalConfigStep(content, pm)
    ensures forall m :: NextMatch(Presentation, content, 0) == Some(m) ==>
      && m.start == 0
      && PresentationStep(content, pm).content == content[m.end..]
      && PresentationStep(content, pm).metadata == OrElse(UnmarshalPresentation(m.groups[0], pm), pm)
  {
    PresentationAnchored(content);
  }

  /** A presentation comment whose YAML does not decode is still removed, and the metadata stays as it was. */
  lemma PresentationBadYaml(content: string, pm: PresentationMetadata, m: Match)
    requires NextMatch(Presentation, content, 0) == Some(m)
    requires UnmarshalPresentation(m.groups[0], pm).None?
    ensures PresentationStep(content, pm) == Stripped(content[m.end..], pm)
  {
    PresentationAnchored(content);
  }

  // ----- assembly ------------------------------------------------------------------------

  /** The empty document has no slides, so ParseString reports that none were found. */
  lemma EmptyDocument(pm: PresentationMetadata)
    ensures ParseDocument("", pm) == Document([], pm)
  {
    EmptyPresentationStep(pm);
    EmptyBlocks();
    assert ParseBlocks([]) == [];
  }

  /** The empty document has no front matter to strip. */
  lemma EmptyPresentationStep(pm: PresentationMetadata)
    ensures PresentationStep("", pm) == Stripped("", pm)
  {
    var lines := Split("", "\n");
    SplitNone("", '\n');
    assert lines == [""];
    assert LeadingBlank(lines, 1) == 1;
    assert LeadingBlank(lines, 0) == 1;
    assert ConfigRun(lines, 1) == 1;
    assert ConfigEnd(lines) == 0;
  }

  /** The empty document splits into no blocks. */
  lemma EmptyBlocks()
    ensures Blocks("") == []
  {
    assert ScannerLines("") == [];
    assert Segments([]) == [[]];
    assert RenderLines([]) == "";
    assert NonBlank([[]]) == NonBlank([]) + [];
  }

  /** Every slide kept has content, and there are no more of them than slides. */
  lemma {:induction false} NonEmptyKept(ss: seq<Slide>)
    ensures |NonEmpty(ss)| <= |ss|
    ensures forall k :: 0 <= k < |NonEmpty(ss)| ==> TrimSpace(NonEmpty(ss)[k].content) != ""
    decreases |ss|
  {
    if |ss| > 0 {
      NonEmptyKept(ss[..|ss| - 1]);
    }
  }

  /** The slides kept are exactly the slides with content. */
  lemma {:induction false} NonEmptyMembers(ss: seq<Slide>, s: Slide)
    ensures s in NonEmpty(ss) <==> s in ss && TrimSpace(s.content) != ""
    decreases |ss|
  {
    if |ss| > 0 {
      var init := ss[..|ss| - 1];
      NonEmptyMembers(init, s);
      InitLast(ss, init, ss[|ss| - 1]);
    }
  }

  /** The slides ParseString keeps all have content, and there are no more of them than blocks. */
  lemma KeptSlidesContent(blocks: seq<string>)
    ensures |KeptSlides(blocks)| <= |blocks|
    ensures forall k :: 0 <= k < |KeptSlides(blocks)| ==> TrimSpace(KeptSlides(blocks)[k].content) != ""
  {
    NonEmptyKept(ParseBlocks(blocks));
  }

  /** ParseString keeps the slide of every block that has content. */
  lemma KeptSlidesComplete(blocks: seq<string>, i: int)
    requires 0 <= i < |blocks|
    requires TrimSpace(SlideOf(blocks[i]).content) != ""
    ensures SlideOf(blocks[i]) in KeptSlides(blocks)
  {
    ParseBlocksAt(blocks, i);
    NonEmptyMembers(ParseBlocks(blocks), SlideOf(blocks[i]));
  }

  /** Every slide ParseString keeps is the slide of one of the blocks. */
  lemma KeptSlidesFrom(blocks: seq<string>, s: Slide)
    requires s in KeptSlides(blocks)
    ensures exists i :: 0 <= i < |blocks| && s == SlideOf(blocks[i])
  {
    var ss := ParseBlocks(blocks);
    NonEmptyMembers(ss, s);
    var i :| 0 <= i < |ss| && ss[i] == s;
    ParseBlocksAt(blocks, i);
  }
}
