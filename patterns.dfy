/**
 * The regular expressions of the parser, each written out as a scanner that
 * gives the leftmost-first match Go's regexp package reports, together with
 * FindAll and ReplaceAll over those scanners.
 */
module Patterns {
  import opened Wrappers
  import opened Text

  /** The six patterns the parser matches against slide text. */
  datatype Pattern =
    | Presentation       // (?s)^\s*<!--\s*presentation\s+(.*?)\s*-->
    | SlideFrontmatter   // (?s)<!--\s*slide\s+(.*?)\s*-->
    | Comment            // (?s)<!--(.*?)-->
    | Directive          // (?m)^\s*\[\.([\w-]+):\s*([^\]]+)\]\s*$
    | Note               // (?m)^\^(.*)$
    | Image              // !\[([^\]]*)\]\(([^)]+)\)

  /** A match: the span s[start..end] and the text of each capture group. */
  datatype Match = Match(start: nat, end: nat, groups: seq<string>)

  function GroupCount(p: Pattern): nat {
    match p
    case Directive => 2
    case Image => 2
    case _ => 1
  }

  // ----- scanning helpers ---------------------------------------------------

  /** The end of the run of regexp white space (`\s`) that starts at i. */
  function SkipSpace(s: string, i: nat): (r: nat)
    requires i <= |s|
    ensures i <= r <= |s|
    ensures forall k :: i <= k < r ==> IsSpace(s[k], Regex)
    ensures r == |s| || !IsSpace(s[r], Regex)
    decreases |s| - i
  {
    if i < |s| && IsSpace(s[i], Regex) then SkipSpace(s, i + 1) else i
  }

  /** The start of the run of regexp white space that ends at hi, not going below lo. */
  function BackSpace(s: string, lo: nat, hi: nat): (r: nat)
    requires lo <= hi <= |s|
    ensures lo <= r <= hi
    ensures forall k :: r <= k < hi ==> IsSpace(s[k], Regex)
    ensures r == lo || !IsSpace(s[r - 1], Regex)
    decreases hi - lo
  {
    if lo < hi && IsSpace(s[hi - 1], Regex) then BackSpace(s, lo, hi - 1) else hi
  }

  /** The end of the run of `[\w-]` characters that starts at i. */
  function SkipKey(s: string, i: nat): (r: nat)
    requires i <= |s|
    ensures i <= r <= |s|
    ensures forall k :: i <= k < r ==> IsKeyChar(s[k])
    ensures r == |s| || !IsKeyChar(s[r])
    decreases |s| - i
  {
    if i < |s| && IsKeyChar(s[i]) then SkipKey(s, i + 1) else i
  }

  /** Where `^` holds in multi-line mode. */
  predicate LineStart(s: string, j: nat) {
    j == 0 || (0 < j <= |s| && s[j - 1] == '\n')
  }

  /** Where `$` holds in multi-line mode. */
  predicate LineEnd(s: string, j: nat) {
    j == |s| || (j < |s| && s[j] == '\n')
  }

  /** The last position in [lo, hi] where `$` holds. */
  function LastLineEnd(s: string, lo: nat, hi: nat): (r: Option<nat>)
    requires lo <= hi <= |s|
    ensures r.Some? ==> lo <= r.value <= hi && LineEnd(s, r.value)
    ensures r.Some? ==> forall k :: r.value < k <= hi ==> !LineEnd(s, k)
    ensures r.None? ==> forall k :: lo <= k <= hi ==> !LineEnd(s, k)
    decreases hi - lo
  {
    if LineEnd(s, hi) then Some(hi)
    else if lo == hi then None
    else LastLineEnd(s, lo, hi - 1)
  }

  /** The end of the line that contains position i: the next newline, or the end of the text. */
  function NextNewline(s: string, i: nat): (r: nat)
    requires i <= |s|
    ensures i <= r <= |s| && LineEnd(s, r)
    ensures forall k :: i <= k < r ==> s[k] != '\n'
  {
    match FindChar(s, '\n', i)
    case None => |s|
    case Some(n) => n
  }

  // ----- one scanner per pattern ------------------------------------------------

  /**
   * `<!--\s*word\s+(.*?)\s*-->` tried at j. The comment ends at the first
   * `-->` after the blank that follows the word; the capture is the text in
   * between without its surrounding regexp white space.
   */
  function CommentWordAt(s: string, j: nat, word: string): (r: Option<Match>)
    requires |word| > 0 && !IsSpace(word[0], Regex)
    ensures r.Some? ==> r.value.start == j < r.value.end <= |s| && |r.value.groups| == 1
  {
    if !OccursAt(s, "<!--", j) then None
    else
      var a := SkipSpace(s, j + 4);
      var k := a + |word|;
      if !OccursAt(s, word, a) || k >= |s| || !IsSpace(s[k], Regex) then None
      else
        match Find(s, "-->", k)
        case None => None
        case Some(f) =>
          var m := SkipSpace(s, k);
          assert s[f] == s[f..f + 3][0] == '-';
          Some(Match(j, f + 3, [s[m..BackSpace(s, m, f)]]))
  }

  /** `<!--(.*?)-->` tried at j: the comment ends at the first `-->` after its opening. */
  function CommentAt(s: string, j: nat): (r: Option<Match>)
    ensures r.Some? ==> r.value.start == j < r.value.end <= |s| && |r.value.groups| == 1
  {
    if !OccursAt(s, "<!--", j) then None
    else
      match Find(s, "-->", j + 4)
      case None => None
      case Some(f) => Some(Match(j, f + 3, [s[j + 4..f]]))
  }

  /**
   * `^\s*\[\.([\w-]+):\s*([^\]]+)\]\s*$` tried at j in multi-line mode: the key
   * is the whole `[\w-]` run after `[.`, the value runs to the first `]`, and
   * the match swallows the white space after the `]` up to the last line end
   * inside it.
   */
  function DirectiveAt(s: string, j: nat): (r: Option<Match>)
    ensures r.Some? ==> r.value.start == j < r.value.end <= |s| && |r.value.groups| == 2
  {
    if j > |s| || !LineStart(s, j) then None
    else
      var a := SkipSpace(s, j);
      if a + 1 >= |s| || s[a] != '[' || s[a + 1] != '.' then None
      else
        var ke := SkipKey(s, a + 2);
        if ke == a + 2 || ke >= |s| || s[ke] != ':' then None
        else
          match FindChar(s, ']', ke + 1)
          case None => None
          case Some(c) =>
            if c == ke + 1 then None
            else
              match LastLineEnd(s, c + 1, SkipSpace(s, c + 1))
              case None => None
              case Some(e) =>
                var v := SkipSpace(s, ke + 1);
                var value := if v < c then s[v..c] else s[c - 1..c];
                Some(Match(j, e, [s[a + 2..ke], value]))
  }

  /** `^\^(.*)$` tried at j in multi-line mode: a line that starts with a caret. */
  function NoteAt(s: string, j: nat): (r: Option<Match>)
    ensures r.Some? ==> r.value.start == j < r.value.end <= |s| && |r.value.groups| == 1
  {
    if j >= |s| || !LineStart(s, j) || s[j] != '^' then None
    else
      var e := NextNewline(s, j + 1);
      Some(Match(j, e, [s[j + 1..e]]))
  }

  /** `!\[([^\]]*)\]\(([^)]+)\)` tried at j: alt text up to the first `]`, path up to the first `)`. */
  function ImageAt(s: string, j: nat): (r: Option<Match>)
    ensures r.Some? ==> r.value.start == j < r.value.end <= |s| && |r.value.groups| == 2
  {
    if j + 1 >= |s| || s[j] != '!' || s[j + 1] != '[' then None
    else
      match FindChar(s, ']', j + 2)
      case None => None
      case Some(a) =>
        if a + 1 >= |s| || s[a + 1] != '(' then None
        else
          match FindChar(s, ')', a + 2)
          case None => None
          case Some(q) =>
            if q == a + 2 then None else Some(Match(j, q + 1, [s[j + 2..a], s[a + 2..q]]))
  }

  /** The match of pattern p that starts at j, if any. */
  function MatchAt(p: Pattern, s: string, j: nat): (r: Option<Match>)
    ensures r.Some? ==> r.value.start == j < r.value.end <= |s|
    ensures r.Some? ==> |r.value.groups| == GroupCount(p)
  {
    match p
    case Presentation =>
      if j != 0 then None
      else
        (match CommentWordAt(s, SkipSpace(s, 0), "presentation")
         case None => None
         case Some(m) => Some(m.(start := 0)))
    case SlideFrontmatter => CommentWordAt(s, j, "slide")
    case Comment => CommentAt(s, j)
    case Directive => DirectiveAt(s, j)
    case Note => NoteAt(s, j)
    case Image => ImageAt(s, j)
  }

  // ----- FindAll and ReplaceAll -------------------------------------------------

  /** The leftmost match that starts at or after `from` (FindStringSubmatch from there). */
  function NextMatch(p: Pattern, s: string, from: nat): (r: Option<Match>)
    ensures r.Some? ==> from <= r.value.start && MatchAt(p, s, r.value.start) == r
    ensures r.Some? ==> forall j :: from <= j < r.value.start ==> MatchAt(p, s, j).None?
    ensures r.None? ==> forall j :: from <= j ==> MatchAt(p, s, j).None?
    decreases |s| - from
  {
    if from >= |s| then None
    else
      match MatchAt(p, s, from)
      case Some(m) => Some(m)
      case None => NextMatch(p, s, from + 1)
  }

  /**
   * Matches in order within s[from..n]: each starts at or after the end of
   * the one before.
   */
  predicate Chain(ms: seq<Match>, from: nat, n: nat)
    decreases |ms|
  {
    from <= n && (|ms| == 0 || (from <= ms[0].start <= ms[0].end <= n && Chain(ms[1..], ms[0].end, n)))
  }

  /** Every match from `from` on, each search resuming where the previous match ended. */
  function FindAll(p: Pattern, s: string, from: nat): (ms: seq<Match>)
    requires from <= |s|
    ensures Chain(ms, from, |s|)
    ensures forall i :: 0 <= i < |ms| ==> |ms[i].groups| == GroupCount(p)
    ensures |ms| == 0 <==> NextMatch(p, s, from).None?
    decreases |s| - from
  {
    match NextMatch(p, s, from)
    case None => []
    case Some(m) =>
      var rest := FindAll(p, s, m.end);
      assert ([m] + rest)[1..] == rest;
      [m] + rest
  }

  /** Each match of a chain lies inside the searched text. */
  lemma {:induction false} ChainBounds(ms: seq<Match>, from: nat, n: nat)
    requires Chain(ms, from, n)
    ensures forall i :: 0 <= i < |ms| ==> from <= ms[i].start <= ms[i].end <= n
    decreases |ms|
  {
    if |ms| > 0 {
      ChainBounds(ms[1..], ms[0].end, n);
      forall i | 1 <= i < |ms| ensures from <= ms[i].start <= ms[i].end <= n {
        assert ms[i] == ms[1..][i - 1];
      }
    }
  }

  /** What ReplaceAll puts in place of a match: the image pass keeps the path and drops the alt text. */
  function Replacement(p: Pattern, m: Match): string {
    if p == Image && |m.groups| == 2 then "![](" + m.groups[1] + ")" else ""
  }

  /**
   * s[from..] with the i-th match of the chain replaced by rs[i]: the text
   * before a match is copied, then its replacement, then the search goes on
   * after it.
   */
  function Splice(s: string, from: nat, ms: seq<Match>, rs: seq<string>): string
    requires Chain(ms, from, |s|) && |rs| == |ms|
    decreases |ms|
  {
    if |ms| == 0 then s[from..]
    else s[from..ms[0].start] + rs[0] + Splice(s, ms[0].end, ms[1..], rs[1..])
  }

  /** The text with every match replaced (ReplaceAllString / ReplaceAllStringFunc). */
  function ReplaceAll(p: Pattern, s: string): string {
    var ms := FindAll(p, s, 0);
    Splice(s, 0, ms, Replacements(p, ms))
  }

  /** The text between the matches of a chain: one more piece than there are matches. */
  function Gaps(s: string, from: nat, ms: seq<Match>): (gs: seq<string>)
    requires Chain(ms, from, |s|)
    ensures |gs| == |ms| + 1
    decreases |ms|
  {
    if |ms| == 0 then [s[from..]]
    else [s[from..ms[0].start]] + Gaps(s, ms[0].end, ms[1..])
  }

  /** gs[0] + ts[0] + gs[1] + ts[1] + ... + gs[|ts|]. */
  function Weave(gs: seq<string>, ts: seq<string>): string
    requires |gs| == |ts| + 1
    decreases |ts|
  {
    if |ts| == 0 then gs[0] else gs[0] + ts[0] + Weave(gs[1..], ts[1..])
  }

  /** The matched text of each match of a chain. */
  function Texts(s: string, from: nat, ms: seq<Match>): (ts: seq<string>)
    requires Chain(ms, from, |s|)
    ensures |ts| == |ms|
    decreases |ms|
  {
    if |ms| == 0 then [] else [s[ms[0].start..ms[0].end]] + Texts(s, ms[0].end, ms[1..])
  }

  function Replacements(p: Pattern, ms: seq<Match>): (rs: seq<string>)
    ensures |rs| == |ms|
    ensures forall i :: 0 <= i < |ms| ==> rs[i] == Replacement(p, ms[i])
  {
    seq(|ms|, i requires 0 <= i < |ms| => Replacement(p, ms[i]))
  }

  /** The i-th group of every match. */
  function Captures(ms: seq<Match>, i: nat): (cs: seq<string>)
    requires forall k :: 0 <= k < |ms| ==> i < |ms[k].groups|
    ensures |cs| == |ms|
    ensures forall k :: 0 <= k < |ms| ==> cs[k] == ms[k].groups[i]
  {
    seq(|ms|, k requires 0 <= k < |ms| => ms[k].groups[i])
  }

  // ----- what FindAll and ReplaceAll promise -----------------------------------

  /** The gaps and the matched texts, interleaved, give back the text searched. */
  lemma {:induction false} Reassemble(s: string, from: nat, ms: seq<Match>)
    requires Chain(ms, from, |s|)
    ensures Weave(Gaps(s, from, ms), Texts(s, from, ms)) == s[from..]
    decreases |ms|
  {
    if |ms| > 0 {
      var m := ms[0];
      Reassemble(s, m.end, ms[1..]);
      var ts := Texts(s, from, ms);
      assert ts[1..] == Texts(s, m.end, ms[1..]);
      var gs := Gaps(s, from, ms);
      assert gs[1..] == Gaps(s, m.end, ms[1..]);
      SliceSplit(s, from, m.start, m.end);
    }
  }

  lemma SliceSplit(s: string, a: nat, b: nat, c: nat)
    requires a <= b <= c <= |s|
    ensures s[a..] == s[a..b] + s[b..c] + s[c..]
  {
  }

  /** Splicing puts each replacement between the same gaps. */
  lemma {:induction false} SpliceWeave(s: string, from: nat, ms: seq<Match>, rs: seq<string>)
    requires Chain(ms, from, |s|) && |rs| == |ms|
    ensures Splice(s, from, ms, rs) == Weave(Gaps(s, from, ms), rs)
    decreases |ms|
  {
    if |ms| > 0 {
      SpliceWeave(s, ms[0].end, ms[1..], rs[1..]);
      assert Gaps(s, from, ms)[1..] == Gaps(s, ms[0].end, ms[1..]);
    }
  }

  /** Weaving empty replacements concatenates the gaps. */
  lemma {:induction false} WeaveEmpty(gs: seq<string>, ts: seq<string>)
    requires |gs| == |ts| + 1
    requires forall i :: 0 <= i < |ts| ==> ts[i] == ""
    ensures Weave(gs, ts) == Concat(gs)
    decreases |ts|
  {
    if |ts| > 0 {
      WeaveEmpty(gs[1..], ts[1..]);
    } else {
      assert gs[1..] == [];
    }
  }

  /** ReplaceAll keeps the gaps between matches and puts each replacement in its match's place. */
  lemma ReplaceWeave(p: Pattern, s: string)
    ensures var ms := FindAll(p, s, 0);
      ReplaceAll(p, s) == Weave(Gaps(s, 0, ms), Replacements(p, ms))
  {
    var ms := FindAll(p, s, 0);
    SpliceWeave(s, 0, ms, Replacements(p, ms));
  }

  /** Patterns other than the image pattern erase their matches: what is left is the gaps. */
  lemma Erase(p: Pattern, s: string)
    requires p != Image
    ensures ReplaceAll(p, s) == Concat(Gaps(s, 0, FindAll(p, s, 0)))
  {
    var ms := FindAll(p, s, 0);
    SpliceWeave(s, 0, ms, Replacements(p, ms));
    WeaveEmpty(Gaps(s, 0, ms), Replacements(p, ms));
  }

  /** With no match, ReplaceAll leaves the text alone. */
  lemma NoMatchUnchanged(p: Pattern, s: string)
    requires NextMatch(p, s, 0).None?
    ensures FindAll(p, s, 0) == [] && ReplaceAll(p, s) == s
  {
  }

  /** The presentation pattern is anchored: it can only match at the start of the document. */
  lemma PresentationAnchored(s: string)
    ensures NextMatch(Presentation, s, 0) == MatchAt(Presentation, s, 0)
    ensures forall m :: MatchAt(Presentation, s, 0) == Some(m) ==>
      FindAll(Presentation, s, 0) == [m] && ReplaceAll(Presentation, s) == s[m.end..]
  {
    var r := MatchAt(Presentation, s, 0);
    if r.Some? {
      var m := r.value;
      var none := NextMatch(Presentation, s, m.end);
      if none.Some? {
        assert false;
      }
      var ms := FindAll(Presentation, s, 0);
      assert ms == [m];
      assert s[0..0] == "";
      assert Splice(s, 0, ms, Replacements(Presentation, ms)) == "" + "" + s[m.end..];
    }
  }

  /** Running the image pattern again on a matched image gives the same groups (the ReplaceAllStringFunc callback). */
  lemma ImageRematch(s: string, j: nat)
    requires ImageAt(s, j).Some?
    ensures var m := ImageAt(s, j).value;
      ImageAt(s[j..m.end], 0) == Some(Match(0, m.end - j, m.groups))
  {
    var a := FindChar(s, ']', j + 2).value;
    var q := FindChar(s, ')', a + 2).value;
    assert q != a + 2;
    ImageParts(s, j, a, q);
    ImageSliceParts(s, j, a, q);
  }

  /** The image parts found in s are found at the same places in the slice that holds the image. */
  lemma ImageSliceParts(s: string, j: nat, a: nat, q: nat)
    requires j + 1 < |s| && s[j] == '!' && s[j + 1] == '[' && FindChar(s, ']', j + 2) == Some(a)
    requires a + 1 < |s| && s[a + 1] == '(' && FindChar(s, ')', a + 2) == Some(q) && q != a + 2
    ensures ImageAt(s[j..q + 1], 0) == Some(Match(0, q + 1 - j, [s[j + 2..a], s[a + 2..q]]))
  {
    var t := s[j..q + 1];
    SliceBrackets(s, j, a, q);
    ImageParts(t, 0, a - j, q - j);
    SameGroups(ImageAt(t, 0), s, t, j, a, q);
  }

  /** Groups read from the slice t = s[j..q + 1] are the same groups read from s. */
  lemma SameGroups(m: Option<Match>, s: string, t: string, j: nat, a: nat, q: nat)
    requires j + 2 <= a && a + 2 <= q < |s| && t == s[j..q + 1]
    requires m == Some(Match(0, q - j + 1, [t[2..a - j], t[a - j + 2..q - j]]))
    ensures m == Some(Match(0, q + 1 - j, [s[j + 2..a], s[a + 2..q]]))
  {
    SubSliceAt(s, j, q + 1, j + 2, a, 2, a - j);
    SubSliceAt(s, j, q + 1, a + 2, q, a - j + 2, q - j);
  }

  /** The brackets of an image keep their places, shifted, in the slice that holds it. */
  lemma SliceBrackets(s: string, j: nat, a: nat, q: nat)
    requires j + 1 < |s| && s[j] == '!' && s[j + 1] == '[' && FindChar(s, ']', j + 2) == Some(a)
    requires a + 1 < |s| && s[a + 1] == '(' && FindChar(s, ')', a + 2) == Some(q)
    ensures var t := s[j..q + 1];
      && |t| == q - j + 1 && t[0] == '!' && t[1] == '[' && t[a - j + 1] == '('
      && FindChar(t, ']', 2) == Some(a - j) && FindChar(t, ')', a - j + 2) == Some(q - j)
  {
    FindInSlice(s, j, q + 1, ']', 2, a);
    FindInSlice(s, j, q + 1, ')', a - j + 2, q);
  }

  /** An image match: `![`, the alt text up to the first `]`, `(`, a non-empty path up to the first `)`. */
  lemma ImageParts(s: string, j: nat, a: nat, q: nat)
    requires j + 1 < |s| && s[j] == '!' && s[j + 1] == '[' && FindChar(s, ']', j + 2) == Some(a)
    requires a + 1 < |s| && s[a + 1] == '(' && FindChar(s, ')', a + 2) == Some(q) && q != a + 2
    ensures ImageAt(s, j) == Some(Match(j, q + 1, [s[j + 2..a], s[a + 2..q]]))
  {
  }

  lemma SubSliceAt(s: string, lo: nat, hi: nat, x: nat, y: nat, u: int, v: int)
    requires lo <= x <= y <= hi <= |s| && u == x - lo && v == y - lo
    ensures 0 <= u <= v <= hi - lo && s[lo..hi][u..v] == s[x..y]
  {
    var w := s[lo..hi][u..v];
    assert |w| == y - x;
    assert forall i :: 0 <= i < y - x ==> w[i] == s[x + i];
  }

  /** A character found in s is found at the same place in a slice of s that contains it. */
  lemma FindInSlice(s: string, lo: nat, hi: nat, c: char, from: nat, x: nat)
    requires lo <= hi <= |s| && lo + from <= x < hi
    requires FindChar(s, c, lo + from) == Some(x)
    ensures FindChar(s[lo..hi], c, from) == Some(x - lo)
    decreases x - lo - from
  {
    if from < x - lo {
      FindInSlice(s, lo, hi, c, from + 1, x);
    }
  }
}
