/**
 * The generator's escaping: escapeHTML replaces the five characters that are
 * special in HTML by entities, `&` first; escapeAttr replaces only the double
 * quote. Both are chains of strings.ReplaceAll with a one-character pattern.
 */
module Escaping {
  import opened Text

  /** strings.ReplaceAll(s, string(c), r): every c replaced by r. */
  function ReplaceChar(s: string, c: char, r: string): (t: string)
    decreases |s|
  {
    if |s| == 0 then "" else (if s[0] == c then r else [s[0]]) + ReplaceChar(s[1..], c, r)
  }

  /** Replacing in two pieces is replacing in each. */
  lemma {:induction false} ReplaceCharAppend(a: string, b: string, c: char, r: string)
    ensures ReplaceChar(a + b, c, r) == ReplaceChar(a, c, r) + ReplaceChar(b, c, r)
    decreases |a|
  {
    if |a| == 0 {
      assert a + b == b;
    } else {
      assert (a + b)[0] == a[0];
      assert (a + b)[1..] == a[1..] + b;
      ReplaceCharAppend(a[1..], b, c, r);
    }
  }

  /** What escapeHTML puts in place of one character. */
  function Entity(ch: char): (e: string)
    ensures |e| >= 1
    ensures ch != '&' && ch != '<' && ch != '>' && ch != '"' && ch != '\'' <==> e == [ch]
  {
    if ch == '&' then "&amp;"
    else if ch == '<' then "&lt;"
    else if ch == '>' then "&gt;"
    else if ch == '"' then "&quot;"
    else if ch == '\'' then "&#39;"
    else [ch]
  }

  /** escapeHTML: `&`, then `<`, `>`, `"` and `'` replaced by their entities. */
  function EscapeHTML(s: string): string {
    var s1 := ReplaceChar(s, '&', "&amp;");
    var s2 := ReplaceChar(s1, '<', "&lt;");
    var s3 := ReplaceChar(s2, '>', "&gt;");
    var s4 := ReplaceChar(s3, '"', "&quot;");
    ReplaceChar(s4, '\'', "&#39;")
  }

  /** escapeAttr: only `"` is replaced. */
  function EscapeAttr(s: string): string {
    ReplaceChar(s, '"', "&quot;")
  }

  /**
   * The reading a browser gives the five entities escapeHTML writes, left to
   * right; any other character stands for itself.
   */
  function Unescape(s: string): (r: string)
    decreases |s|
  {
    if |s| == 0 then ""
    else if HasPrefix(s, "&amp;") then "&" + Unescape(s[5..])
    else if HasPrefix(s, "&lt;") then "<" + Unescape(s[4..])
    else if HasPrefix(s, "&gt;") then ">" + Unescape(s[4..])
    else if HasPrefix(s, "&quot;") then "\"" + Unescape(s[6..])
    else if HasPrefix(s, "&#39;") then "'" + Unescape(s[5..])
    else [s[0]] + Unescape(s[1..])
  }

  /** No character that could open a tag or close an attribute value. */
  predicate NoMarkup(s: string) {
    forall i :: 0 <= i < |s| ==> s[i] != '<' && s[i] != '>' && s[i] != '"' && s[i] != '\''
  }

  predicate NoChar(s: string, c: char) {
    forall i :: 0 <= i < |s| ==> s[i] != c
  }

  // ----- escapeHTML, one character at a time ----------------------------------------

  /** Escaping works character by character: it commutes with concatenation. */
  lemma EscapeHTMLAppend(a: string, b: string)
    ensures EscapeHTML(a + b) == EscapeHTML(a) + EscapeHTML(b)
  {
    var a1, b1 := ReplaceChar(a, '&', "&amp;"), ReplaceChar(b, '&', "&amp;");
    ReplaceCharAppend(a, b, '&', "&amp;");
    var a2, b2 := ReplaceChar(a1, '<', "&lt;"), ReplaceChar(b1, '<', "&lt;");
    ReplaceCharAppend(a1, b1, '<', "&lt;");
    var a3, b3 := ReplaceChar(a2, '>', "&gt;"), ReplaceChar(b2, '>', "&gt;");
    ReplaceCharAppend(a2, b2, '>', "&gt;");
    var a4, b4 := ReplaceChar(a3, '"', "&quot;"), ReplaceChar(b3, '"', "&quot;");
    ReplaceCharAppend(a3, b3, '"', "&quot;");
    ReplaceCharAppend(a4, b4, '\'', "&#39;");
  }

  /** A string without c is left alone by replacing c. */
  lemma {:induction false} ReplaceCharAbsent(s: string, c: char, r: string)
    requires NoChar(s, c)
    ensures ReplaceChar(s, c, r) == s
    decreases |s|
  {
    if |s| > 0 {
      ReplaceCharAbsent(s[1..], c, r);
    }
  }

  lemma ReplaceCharOne(ch: char, c: char, r: string)
    ensures ReplaceChar([ch], c, r) == if ch == c then r else [ch]
  {
    assert [ch][1..] == "";
  }

  /** One character escapes to its entity. */
  lemma EscapeHTMLChar(ch: char)
    ensures EscapeHTML([ch]) == Entity(ch)
  {
    ReplaceCharOne(ch, '&', "&amp;");
    if ch == '&' {
      var e := "&amp;";
      assert NoChar(e, '<') && NoChar(e, '>') && NoChar(e, '"') && NoChar(e, '\'');
      ReplaceCharAbsent(e, '<', "&lt;");
      ReplaceCharAbsent(e, '>', "&gt;");
      ReplaceCharAbsent(e, '"', "&quot;");
      ReplaceCharAbsent(e, '\'', "&#39;");
      return;
    }
    ReplaceCharOne(ch, '<', "&lt;");
    if ch == '<' {
      var e := "&lt;";
      assert NoChar(e, '>') && NoChar(e, '"') && NoChar(e, '\'');
      ReplaceCharAbsent(e, '>', "&gt;");
      ReplaceCharAbsent(e, '"', "&quot;");
      ReplaceCharAbsent(e, '\'', "&#39;");
      return;
    }
    ReplaceCharOne(ch, '>', "&gt;");
    if ch == '>' {
      var e := "&gt;";
      assert NoChar(e, '"') && NoChar(e, '\'');
      ReplaceCharAbsent(e, '"', "&quot;");
      ReplaceCharAbsent(e, '\'', "&#39;");
      return;
    }
    ReplaceCharOne(ch, '"', "&quot;");
    if ch == '"' {
      var e := "&quot;";
      assert NoChar(e, '\'');
      ReplaceCharAbsent(e, '\'', "&#39;");
      return;
    }
    ReplaceCharOne(ch, '\'', "&#39;");
  }

  /** escapeHTML is the concatenation of the entities of the characters. */
  function EscapeEach(s: string): string
    decreases |s|
  {
    if |s| == 0 then "" else Entity(s[0]) + EscapeEach(s[1..])
  }

  lemma {:induction false} EscapeHTMLEach(s: string)
    ensures EscapeHTML(s) == EscapeEach(s)
    decreases |s|
  {
    if |s| > 0 {
      HeadTail(s, s[0], s[1..]);
      EscapeHTMLAppend([s[0]], s[1..]);
      EscapeHTMLChar(s[0]);
      EscapeHTMLEach(s[1..]);
    }
  }

  // ----- what escapeHTML promises ---------------------------------------------------

  /** The escaped text holds none of `<`, `>`, `"`, `'`. */
  lemma EscapeHTMLSafe(s: string)
    ensures NoMarkup(EscapeHTML(s))
  {
    EscapeHTMLEach(s);
    EscapeEachSafe(s);
  }

  lemma {:induction false} EscapeEachSafe(s: string)
    ensures NoMarkup(EscapeEach(s))
    decreases |s|
  {
    if |s| > 0 {
      EscapeEachSafe(s[1..]);
      var e := Entity(s[0]);
      assert NoMarkup(e);
      NoMarkupAppend(e, EscapeEach(s[1..]));
    }
  }

  lemma NoMarkupAppend(a: string, b: string)
    requires NoMarkup(a) && NoMarkup(b)
    ensures NoMarkup(a + b)
  {
    forall i | 0 <= i < |a + b| ensures (a + b)[i] != '<' && (a + b)[i] != '>' && (a + b)[i] != '"' && (a + b)[i] != '\'' {
      if i >= |a| {
        assert (a + b)[i] == b[i - |a|];
      }
    }
  }

  /** Reading the entities back gives the original text: escaping loses nothing, because `&` goes first. */
  lemma UnescapeEscapeHTML(s: string)
    ensures Unescape(EscapeHTML(s)) == s
  {
    EscapeHTMLEach(s);
    UnescapeEach(s);
  }

  lemma {:induction false} UnescapeEach(s: string)
    ensures Unescape(EscapeEach(s)) == s
    decreases |s|
  {
    if |s| > 0 {
      UnescapeEach(s[1..]);
      UnescapeEntity(s[0], EscapeEach(s[1..]));
    }
  }

  /** An entity at the front reads back as its character. */
  lemma UnescapeEntity(ch: char, rest: string)
    ensures Unescape(Entity(ch) + rest) == [ch] + Unescape(rest)
  {
    var e := Entity(ch);
    var t := e + rest;
    if e == [ch] {
      UnescapePlain(ch, rest);
      return;
    }
    JoinParts(e, rest, t);
    if ch == '<' {
      NotPrefixAt(t, "&amp;", 1);
    } else if ch == '>' {
      NotPrefixAt(t, "&amp;", 1); NotPrefixAt(t, "&lt;", 1);
    } else if ch == '"' {
      NotPrefixAt(t, "&amp;", 1); NotPrefixAt(t, "&lt;", 1); NotPrefixAt(t, "&gt;", 1);
    } else if ch == '\'' {
      NotPrefixAt(t, "&amp;", 1); NotPrefixAt(t, "&lt;", 1); NotPrefixAt(t, "&gt;", 1);
      NotPrefixAt(t, "&quot;", 1);
    }
  }

  /** A character other than `&` reads as itself. */
  lemma UnescapePlain(ch: char, rest: string)
    requires ch != '&'
    ensures Unescape([ch] + rest) == [ch] + Unescape(rest)
  {
    var t := [ch] + rest;
    JoinParts([ch], rest, t);
    NotPrefixAt(t, "&amp;", 0); NotPrefixAt(t, "&lt;", 0); NotPrefixAt(t, "&gt;", 0);
    NotPrefixAt(t, "&quot;", 0); NotPrefixAt(t, "&#39;", 0);
  }

  /** A joined string starts with its first part, character by character, and continues with the second. */
  lemma JoinParts(e: string, rest: string, t: string)
    requires t == e + rest
    ensures HasPrefix(t, e) && t[|e|..] == rest
    ensures forall k :: 0 <= k < |e| ==> t[k] == e[k]
  {
  }

  // ----- what escapeAttr promises ----------------------------------------------------

  /** The escaped attribute value holds no `"`, so it cannot end the attribute early. */
  lemma {:induction false} EscapeAttrSafe(s: string)
    ensures NoChar(EscapeAttr(s), '"')
    decreases |s|
  {
    if |s| > 0 {
      EscapeAttrSafe(s[1..]);
      var head := if s[0] == '"' then "&quot;" else [s[0]];
      var t := EscapeAttr(s[1..]);
      forall i | 0 <= i < |head + t| ensures (head + t)[i] != '"' {
        if i >= |head| {
          assert (head + t)[i] == t[i - |head|];
        }
      }
    }
  }

  /** A value without `&` reads back as itself. */
  lemma {:induction false} UnescapeEscapeAttr(s: string)
    requires NoChar(s, '&')
    ensures Unescape(EscapeAttr(s)) == s
    decreases |s|
  {
    if |s| > 0 {
      UnescapeEscapeAttr(s[1..]);
      var rest := EscapeAttr(s[1..]);
      assert s[0] != '&';
      if s[0] == '"' {
        UnescapeEntity('"', rest);
      } else {
        UnescapePlain(s[0], rest);
      }
      HeadTail(s, s[0], s[1..]);
    }
  }

  /** Since `&` is not escaped, two values can give the same attribute text. */
  lemma EscapeAttrAmbiguous()
    ensures EscapeAttr("\"") == EscapeAttr("&quot;") == "&quot;"
  {
    ReplaceCharAbsent("&quot;", '"', "&quot;");
    assert "\""[1..] == "";
  }
}
