/**
 * The parts of Go's `strings`, `strconv` and `regexp` character classes that
 * the parser and the generator rely on, over `seq<char>`.
 */
module Text {
  import opened Wrappers

  /** The two notions of white space the source mixes. */
  datatype Whitespace =
    | Unicode  // unicode.IsSpace, used by strings.TrimSpace
    | Regex    // the `\s` class of Go's regexp syntax: [\t\n\f\r ]

  predicate IsSpace(c: char, k: Whitespace) {
    match k
    case Regex => c == ' ' || c == '\t' || c == '\n' || c == '\U{000C}' || c == '\r'
    case Unicode =>
      c == ' ' || c == '\t' || c == '\n' || c == '\U{000B}' || c == '\U{000C}' || c == '\r'
      || c == '\U{0085}' || c == '\U{00A0}' || c == '\U{1680}' || ('\U{2000}' <= c <= '\U{200A}')
      || c == '\U{2028}' || c == '\U{2029}' || c == '\U{202F}' || c == '\U{205F}' || c == '\U{3000}'
  }

  /** Every regexp `\s` character is also a unicode.IsSpace character. */
  lemma RegexSpaceIsSpace(c: char)
    requires IsSpace(c, Regex)
    ensures IsSpace(c, Unicode)
  {
  }

  predicate IsBlank(s: string) {
    forall i :: 0 <= i < |s| ==> IsSpace(s[i], Unicode)
  }

  function TrimLeft(s: string, k: Whitespace): (r: string)
    ensures |r| <= |s| && r == s[|s| - |r|..]
    ensures r == [] || !IsSpace(r[0], k)
    decreases |s|
  {
    if |s| > 0 && IsSpace(s[0], k) then TrimLeft(s[1..], k) else s
  }

  /** What TrimLeft drops is white space. */
  lemma {:induction false} TrimLeftDropped(s: string, k: Whitespace)
    ensures forall i :: 0 <= i < |s| - |TrimLeft(s, k)| ==> IsSpace(s[i], k)
    decreases |s|
  {
    if |s| > 0 && IsSpace(s[0], k) {
      TrimLeftDropped(s[1..], k);
      forall i | 1 <= i < |s| - |TrimLeft(s, k)| ensures IsSpace(s[i], k) {
        DropAt(s, s[1..], 1, i);
      }
    }
  }

  function TrimRight(s: string, k: Whitespace): (r: string)
    ensures |r| <= |s| && r == s[..|r|]
    ensures r == [] || !IsSpace(r[|r| - 1], k)
    decreases |s|
  {
    if |s| > 0 && IsSpace(s[|s| - 1], k) then TrimRight(s[..|s| - 1], k) else s
  }

  /** What TrimRight drops is white space. */
  lemma {:induction false} TrimRightDropped(s: string, k: Whitespace)
    ensures forall i :: |TrimRight(s, k)| <= i < |s| ==> IsSpace(s[i], k)
    decreases |s|
  {
    if |s| > 0 && IsSpace(s[|s| - 1], k) {
      TrimRightDropped(s[..|s| - 1], k);
      forall i | |TrimRight(s, k)| <= i < |s| - 1 ensures IsSpace(s[i], k) {
        assert s[i] == s[..|s| - 1][i];
      }
    }
  }

  function Trim(s: string, k: Whitespace): string {
    TrimRight(TrimLeft(s, k), k)
  }

  /** strings.TrimSpace */
  function TrimSpace(s: string): string {
    Trim(s, Unicode)
  }

  /** TrimSpace keeps a contiguous middle part of its input, with no white space at either end. */
  lemma TrimShape(s: string, k: Whitespace)
    ensures exists a, b :: (0 <= a <= b <= |s| && Trim(s, k) == s[a..b]
      && (forall i :: 0 <= i < a ==> IsSpace(s[i], k))
      && (forall i :: b <= i < |s| ==> IsSpace(s[i], k)))
    ensures Trim(s, k) == [] || (!IsSpace(Trim(s, k)[0], k) && !IsSpace(Trim(s, k)[|Trim(s, k)| - 1], k))
  {
    TrimSlice(s, k);
    TrimHead(s, k);
    TrimTail(s, k);
    TrimEnds(s, k);
  }

  /** Where the trimmed text starts in its input. */
  function TrimStart(s: string, k: Whitespace): nat {
    |s| - |TrimLeft(s, k)|
  }

  /** Where the trimmed text ends in its input. */
  function TrimEnd(s: string, k: Whitespace): nat {
    TrimStart(s, k) + |Trim(s, k)|
  }

  /** The trimmed text is the slice of the input between the two dropped runs. */
  lemma TrimSlice(s: string, k: Whitespace)
    ensures TrimStart(s, k) <= TrimEnd(s, k) <= |s| && Trim(s, k) == s[TrimStart(s, k)..TrimEnd(s, k)]
  {
    var l := TrimLeft(s, k);
    var r := TrimRight(l, k);
    TrimBounds(s, k);
    SliceOfSlice(s, l, r, TrimStart(s, k), TrimEnd(s, k), Trim(s, k));
  }

  /** The definitions of the trimmed text and its bounds, in one place. */
  lemma TrimBounds(s: string, k: Whitespace)
    ensures var l := TrimLeft(s, k);
      && Trim(s, k) == TrimRight(l, k)
      && TrimStart(s, k) == |s| - |l|
      && TrimEnd(s, k) == |s| - |l| + |TrimRight(l, k)|
  {
  }

  /** A suffix of s starting at a holds s's characters a places earlier. */
  lemma DropAt(s: string, t: string, a: int, i: int)
    requires 0 <= a <= i < |s| && t == s[a..]
    ensures s[i] == t[i - a]
  {
  }

  lemma SliceAt(s: string, a: int, b: int, t: string, i: int)
    requires 0 <= a <= b <= |s| && t == s[a..b] && 0 <= i < |t|
    ensures t[i] == s[a + i]
  {
  }

  /** A prefix r of a suffix l of s is the slice of s from where l starts. */
  lemma SliceOfSlice(s: string, l: string, r: string, a: int, e: int, t: string)
    requires |l| <= |s| && l == s[|s| - |l|..] && |r| <= |l| && r == l[..|r|]
    requires a == |s| - |l| && e == a + |r| && t == r
    ensures 0 <= a <= e <= |s| && t == s[a..e]
  {
  }

  /** What precedes the trimmed text is white space. */
  lemma TrimHead(s: string, k: Whitespace)
    ensures forall i :: 0 <= i < TrimStart(s, k) ==> IsSpace(s[i], k)
  {
    TrimLeftDropped(s, k);
  }

  /** What follows the trimmed text is white space. */
  lemma TrimTail(s: string, k: Whitespace)
    ensures TrimEnd(s, k) <= |s| && forall i :: TrimEnd(s, k) <= i < |s| ==> IsSpace(s[i], k)
  {
    var l := TrimLeft(s, k);
    var a := |s| - |l|;
    TrimRightDropped(l, k);
    forall i | a + |TrimRight(l, k)| <= i < |s| ensures IsSpace(s[i], k) {
      DropAt(s, l, a, i);
    }
  }

  /** The trimmed text neither starts nor ends with white space. */
  lemma TrimEnds(s: string, k: Whitespace)
    ensures Trim(s, k) == [] || (!IsSpace(Trim(s, k)[0], k) && !IsSpace(Trim(s, k)[|Trim(s, k)| - 1], k))
  {
    var l := TrimLeft(s, k);
    var r := TrimRight(l, k);
    if r != [] {
      assert r[0] == l[0];
    }
  }

  /** The trimmed text is empty exactly when the input is all white space. */
  lemma TrimSpaceEmptyIffBlank(s: string)
    ensures TrimSpace(s) == [] <==> IsBlank(s)
  {
    TrimShape(s, Unicode);
  }

  lemma BlankAppend(a: string, b: string)
    ensures IsBlank(a + b) <==> IsBlank(a) && IsBlank(b)
  {
    if IsBlank(a + b) {
      forall i | 0 <= i < |a| ensures IsSpace(a[i], Unicode) {
        assert a[i] == (a + b)[i];
      }
      forall i | 0 <= i < |b| ensures IsSpace(b[i], Unicode) {
        assert b[i] == (a + b)[|a| + i];
      }
    }
    if IsBlank(a) && IsBlank(b) {
      forall i | 0 <= i < |a + b| ensures IsSpace((a + b)[i], Unicode) {
        if i >= |a| {
          assert (a + b)[i] == b[i - |a|];
        }
      }
    }
  }

  /** A string with no leading or trailing white space is its own trim. */
  lemma TrimIdle(s: string, k: Whitespace)
    requires s == [] || (!IsSpace(s[0], k) && !IsSpace(s[|s| - 1], k))
    ensures Trim(s, k) == s
  {
  }

  lemma TrimLeftIdle(s: string, k: Whitespace)
    requires s == [] || !IsSpace(s[0], k)
    ensures TrimLeft(s, k) == s
  {
  }

  lemma TrimRightIdle(s: string, k: Whitespace)
    requires s == [] || !IsSpace(s[|s| - 1], k)
    ensures TrimRight(s, k) == s
  {
  }

  /** A trailing white-space character does not survive TrimRight. */
  lemma TrimRightSpace(s: string, c: char, k: Whitespace)
    requires IsSpace(c, k)
    ensures TrimRight(s + [c], k) == TrimRight(s, k)
  {
    TakeSnoc(s, c);
  }

  /** A trimmed non-empty string starts and ends with a character that is not white space. */
  lemma TrimmedEnds(s: string)
    requires s != [] && TrimSpace(s) == s
    ensures !IsSpace(s[0], Unicode) && !IsSpace(s[|s| - 1], Unicode)
  {
    var l := TrimLeft(s, Unicode);
    assert TrimRight(l, Unicode) == s;
    assert l[0] == s[0];
  }

  /** Trimming twice is trimming once. */
  lemma TrimSpaceIdem(s: string)
    ensures TrimSpace(TrimSpace(s)) == TrimSpace(s)
  {
    TrimShape(s, Unicode);
    TrimIdle(TrimSpace(s), Unicode);
  }

  /** Trimming keeps only characters of its input. */
  lemma TrimSpaceFrom(s: string, c: char)
    requires forall i :: 0 <= i < |s| ==> s[i] != c
    ensures forall i :: 0 <= i < |TrimSpace(s)| ==> TrimSpace(s)[i] != c
  {
    TrimSlice(s, Unicode);
    var a, b := TrimStart(s, Unicode), TrimEnd(s, Unicode);
    forall i | 0 <= i < |TrimSpace(s)| ensures TrimSpace(s)[i] != c {
      SliceAt(s, a, b, TrimSpace(s), i);
    }
  }

  // ----- substrings ---------------------------------------------------------

  predicate HasPrefix(s: string, p: string) {
    |p| <= |s| && s[..|p|] == p
  }

  /** One differing character rules a prefix out. */
  lemma NotPrefixAt(t: string, p: string, k: int)
    requires 0 <= k < |t| && k < |p| && t[k] != p[k]
    ensures !HasPrefix(t, p)
  {
  }

  predicate HasSuffix(s: string, p: string) {
    |p| <= |s| && s[|s| - |p|..] == p
  }

  predicate OccursAt(s: string, t: string, i: int) {
    0 <= i && i + |t| <= |s| && s[i..i + |t|] == t
  }

  /** The first index at or after `from` where `t` occurs in `s` (strings.Index). */
  function Find(s: string, t: string, from: nat): (r: Option<nat>)
    ensures r.Some? ==> from <= r.value && OccursAt(s, t, r.value)
    ensures r.Some? ==> forall j :: from <= j < r.value ==> !OccursAt(s, t, j)
    ensures r.None? ==> forall j :: from <= j ==> !OccursAt(s, t, j)
    decreases |s| - from
  {
    if from + |t| > |s| then None
    else if s[from..from + |t|] == t then Some(from)
    else Find(s, t, from + 1)
  }

  /** The first index at or after `from` that holds c (strings.IndexByte on s[from:]). */
  function FindChar(s: string, c: char, from: nat): (r: Option<nat>)
    ensures r.Some? ==> from <= r.value < |s| && s[r.value] == c
    ensures r.Some? ==> forall k :: from <= k < r.value ==> s[k] != c
    ensures r.None? ==> forall k :: from <= k < |s| ==> s[k] != c
    decreases |s| - from
  {
    if from >= |s| then None
    else if s[from] == c then Some(from)
    else FindChar(s, c, from + 1)
  }

  predicate Contains(s: string, t: string) {
    Find(s, t, 0).Some?
  }

  lemma ContainsIff(s: string, t: string)
    ensures Contains(s, t) <==> exists j :: OccursAt(s, t, j)
  {
  }

  // ----- Split and Join -------------------------------------------------------

  /** strings.Split for a non-empty separator. */
  function Split(s: string, sep: string): (parts: seq<string>)
    requires |sep| > 0
    ensures |parts| >= 1
    decreases |s|
  {
    match Find(s, sep, 0)
    case None => [s]
    case Some(k) => [s[..k]] + Split(s[k + |sep|..], sep)
  }

  /** strings.Join */
  function Join(parts: seq<string>, sep: string): string
    decreases |parts|
  {
    if |parts| == 0 then ""
    else if |parts| == 1 then parts[0]
    else parts[0] + sep + Join(parts[1..], sep)
  }

  /** Joining the pieces of a split with the same separator gives back the input. */
  lemma {:induction false} JoinSplit(s: string, sep: string)
    requires |sep| > 0
    ensures Join(Split(s, sep), sep) == s
    decreases |s|
  {
    match Find(s, sep, 0)
    case None =>
    case Some(k) =>
      var rest := s[k + |sep|..];
      var tail := Split(rest, sep);
      JoinSplit(rest, sep);
      assert Split(s, sep) == [s[..k]] + tail;
      assert ([s[..k]] + tail)[1..] == tail;
      assert Join([s[..k]] + tail, sep) == s[..k] + sep + Join(tail, sep);
      assert s == s[..k] + sep + rest;
  }

  /** No piece of a split contains the separator. */
  lemma {:induction false} SplitPiecesFree(s: string, sep: string)
    requires |sep| > 0
    ensures forall p :: p in Split(s, sep) ==> !Contains(p, sep)
    decreases |s|
  {
    var r := Find(s, sep, 0);
    if r.None? {
      NotFound(s, sep);
    } else {
      var k := r.value;
      var rest := s[k + |sep|..];
      SplitPiecesFree(rest, sep);
      HeadFree(s, sep, k);
      assert Split(s, sep) == [s[..k]] + Split(rest, sep);
    }
  }

  lemma NotFound(s: string, sep: string)
    requires Find(s, sep, 0).None?
    ensures !Contains(s, sep)
  {
  }

  /** The text before the first occurrence of sep does not contain sep. */
  lemma HeadFree(s: string, sep: string, k: nat)
    requires |sep| > 0 && Find(s, sep, 0) == Some(k)
    ensures !Contains(s[..k], sep)
  {
    var head := s[..k];
    if Contains(head, sep) {
      var j := Find(head, sep, 0).value;
      assert s[j..j + |sep|] == head[j..j + |sep|];
      assert OccursAt(s, sep, j);
      assert false;
    }
  }

  /** Splitting on a single character peels off the text before its first occurrence. */
  lemma SplitCons(a: string, c: char, b: string)
    requires forall i :: 0 <= i < |a| ==> a[i] != c
    ensures Split(a + [c] + b, [c]) == [a] + Split(b, [c])
  {
    var s := a + [c] + b;
    assert OccursAt(s, [c], |a|);
    forall j | 0 <= j < |a| ensures !OccursAt(s, [c], j) {
      assert s[j..j + 1] == [a[j]];
    }
    var k := Find(s, [c], 0).value;
    assert k == |a|;
    assert s[..k] == a;
    assert s[k + 1..] == b;
  }

  /** A string without the separator character splits into itself. */
  lemma SplitNone(a: string, c: char)
    requires forall i :: 0 <= i < |a| ==> a[i] != c
    ensures Split(a, [c]) == [a]
  {
    FindCharAbsent(a, c);
  }

  /** A character that does not occur is not found. */
  lemma FindCharAbsent(a: string, c: char)
    requires forall i :: 0 <= i < |a| ==> a[i] != c
    ensures Find(a, [c], 0).None?
  {
    forall j | 0 <= j < |a| ensures !OccursAt(a, [c], j) {
      assert a[j..j + 1] == [a[j]];
    }
  }

  function Concat(parts: seq<string>): string
    decreases |parts|
  {
    if |parts| == 0 then "" else parts[0] + Concat(parts[1..])
  }

  lemma {:induction false} ConcatAppend(a: seq<string>, b: seq<string>)
    ensures Concat(a + b) == Concat(a) + Concat(b)
    decreases |a|
  {
    if |a| > 0 {
      assert (a + b)[1..] == a[1..] + b;
      ConcatAppend(a[1..], b);
    } else {
      assert a + b == b;
    }
  }

  /** A non-empty sequence is its front followed by its last element. */
  lemma InitLast<T>(s: seq<T>, init: seq<T>, last: T)
    requires |s| > 0 && init == s[..|s| - 1] && last == s[|s| - 1]
    ensures init + [last] == s
  {
  }

  /** A non-empty sequence is its first element followed by its tail. */
  lemma HeadTail<T>(s: seq<T>, head: T, tail: seq<T>)
    requires |s| > 0 && head == s[0] && tail == s[1..]
    ensures s == [head] + tail
  {
  }

  /** A sequence of length one holds just its element. */
  lemma Singleton<T>(s: seq<T>, x: T)
    requires |s| == 1 && x == s[0]
    ensures s == [x]
  {
  }

  /** Appending an empty sequence changes nothing. */
  lemma AppendEmpty<T>(s: seq<T>, e: seq<T>)
    requires |e| == 0
    ensures s + e == s
  {
  }

  /** Taking back the front of a sequence after one element was appended. */
  lemma TakeSnoc<T>(s: seq<T>, x: T)
    ensures (s + [x])[..|s|] == s
  {
  }

  /** Dropping the first element commutes with appending one at the end. */
  lemma DropSnoc<T>(s: seq<T>, x: T)
    requires |s| > 0
    ensures (s + [x])[1..] == s[1..] + [x]
  {
  }

  lemma PairFront<T>(x: T, y: T)
    ensures [x, y][..1] == [x]
  {
  }

  lemma TakeNone<T>(s: seq<T>)
    ensures s[..0] == []
  {
  }

  /** Concatenation of sequences is associative. */
  lemma AppendAssoc<T>(a: seq<T>, b: seq<T>, c: seq<T>)
    ensures a + (b + c) == a + b + c
  {
  }

  /** Concatenation is associative. */
  lemma Assoc(a: string, b: string, c: string)
    ensures a + b + c == a + (b + c)
  {
  }

  /** The texts f gives for each element, one after the other, in order. */
  function ConcatMap<T>(f: T -> string, xs: seq<T>): string
    decreases |xs|
  {
    if |xs| == 0 then "" else ConcatMap(f, xs[..|xs| - 1]) + f(xs[|xs| - 1])
  }

  lemma ConcatMapSnoc<T>(f: T -> string, xs: seq<T>, i: nat)
    requires i < |xs|
    ensures ConcatMap(f, xs[..i + 1]) == ConcatMap(f, xs[..i]) + f(xs[i])
  {
    assert xs[..i + 1][..i] == xs[..i];
  }

  /** Each element's text depends on that element only: two runs of elements give their two texts. */
  lemma {:induction false} ConcatMapAppend<T>(f: T -> string, a: seq<T>, b: seq<T>)
    ensures ConcatMap(f, a + b) == ConcatMap(f, a) + ConcatMap(f, b)
    decreases |b|
  {
    if |b| == 0 {
      assert a + b == a;
    } else {
      var init := b[..|b| - 1];
      ConcatMapAppend(f, a, init);
      assert (a + b)[..|a + b| - 1] == a + init;
      Assoc(ConcatMap(f, a), ConcatMap(f, init), f(b[|b| - 1]));
    }
  }

  // ----- trimming lists ------------------------------------------------------

  /** Each string trimmed, the empty ones dropped, in order. */
  function TrimmedParts(cs: seq<string>): seq<string>
    decreases |cs|
  {
    if |cs| == 0 then []
    else
      var t := TrimSpace(cs[|cs| - 1]);
      TrimmedParts(cs[..|cs| - 1]) + (if t != "" then [t] else [])
  }

  /** One more string: its trimmed text is kept when it is not empty. */
  lemma TrimmedPartsSnoc(cs: seq<string>, i: nat)
    requires i < |cs|
    ensures var t := TrimSpace(cs[i]);
      TrimmedParts(cs[..i + 1]) == TrimmedParts(cs[..i]) + (if t != "" then [t] else [])
  {
    assert cs[..i + 1][..i] == cs[..i];
  }

  /** Every string kept is trimmed and not empty. */
  lemma {:induction false} TrimmedPartsShape(cs: seq<string>)
    ensures forall k :: 0 <= k < |TrimmedParts(cs)| ==> TrimmedParts(cs)[k] != "" && TrimSpace(TrimmedParts(cs)[k]) == TrimmedParts(cs)[k]
    decreases |cs|
  {
    if |cs| > 0 {
      TrimmedPartsShape(cs[..|cs| - 1]);
      TrimSpaceIdem(cs[|cs| - 1]);
    }
  }

  // ----- case ---------------------------------------------------------------

  /**
   * unicode.ToLower restricted to what can matter when the result is compared
   * with ASCII text: ASCII capitals, and the two non-ASCII runes that Go lowers
   * to ASCII letters (U+0130 to 'i', the Kelvin sign U+212A to 'k').
   */
  function LowerChar(c: char): char {
    if 'A' <= c <= 'Z' then (c as int + 32) as char
    else if c == '\U{0130}' then 'i'
    else if c == '\U{212A}' then 'k'
    else c
  }

  /** strings.ToLower, character by character */
  function ToLower(s: string): (r: string)
    ensures |r| == |s|
    ensures forall i :: 0 <= i < |s| ==> r[i] == LowerChar(s[i])
  {
    seq(|s|, i requires 0 <= i < |s| => LowerChar(s[i]))
  }

  /** The regexp class `[\w-]` that the parser's key patterns use. */
  predicate IsKeyChar(c: char) {
    ('a' <= c <= 'z') || ('A' <= c <= 'Z') || ('0' <= c <= '9') || c == '_' || c == '-'
  }

  /** A non-empty run of `[\w-]` characters. */
  predicate IsKey(s: string) {
    |s| > 0 && forall i :: 0 <= i < |s| ==> IsKeyChar(s[i])
  }

  // ----- decimal integers -------------------------------------------------------

  predicate IsDigit(c: char) {
    '0' <= c <= '9'
  }

  function DigitChar(d: nat): (c: char)
    requires d < 10
    ensures IsDigit(c)
  {
    ('0' as int + d) as char
  }

  function DigitValue(c: char): nat
    requires IsDigit(c)
  {
    c as int - '0' as int
  }

  /** The decimal digits of `n`, most significant first, with no leading zero. */
  function NatToString(n: nat): (r: string)
    ensures |r| >= 1 && (forall i :: 0 <= i < |r| ==> IsDigit(r[i]))
    ensures |r| > 1 ==> r[0] != '0'
    decreases n
  {
    if n < 10 then [DigitChar(n)] else NatToString(n / 10) + [DigitChar(n % 10)]
  }

  /** fmt.Sprintf("%d", n) */
  function Itoa(n: int): string {
    if n < 0 then "-" + NatToString(-n) else NatToString(n)
  }

  predicate AllDigits(s: string) {
    forall i :: 0 <= i < |s| ==> IsDigit(s[i])
  }

  function DigitsValue(s: string): nat
    requires AllDigits(s)
    decreases |s|
  {
    if |s| == 0 then 0 else DigitsValue(s[..|s| - 1]) * 10 + DigitValue(s[|s| - 1])
  }

  const Int64Min: int := -0x8000_0000_0000_0000
  const Int64Max: int := 0x7FFF_FFFF_FFFF_FFFF

  predicate IsInt64(n: int) {
    Int64Min <= n <= Int64Max
  }

  /**
   * A decimal integer as the YAML decoder reads one into a Go `int`: an
   * optional sign, then digits without a redundant leading zero, in 64-bit range.
   */
  function ParseInt(s: string): (r: Option<int>)
    ensures r.Some? ==> IsInt64(r.value)
  {
    var neg := |s| > 0 && s[0] == '-';
    var digits := if |s| > 0 && (s[0] == '-' || s[0] == '+') then s[1..] else s;
    if |digits| == 0 || !AllDigits(digits) || (|digits| > 1 && digits[0] == '0') then None
    else
      var v: int := if neg then -(DigitsValue(digits) as int) else DigitsValue(digits) as int;
      if IsInt64(v) then Some(v) else None
  }

  lemma {:induction false} DigitsOfNat(n: nat)
    ensures DigitsValue(NatToString(n)) == n
    decreases n
  {
    if n >= 10 {
      DigitsOfNat(n / 10);
      var s := NatToString(n);
      assert s[..|s| - 1] == NatToString(n / 10);
    }
  }

  /** Reading back what %d printed gives the same integer. */
  lemma ParseItoa(n: int)
    requires IsInt64(n)
    ensures ParseInt(Itoa(n)) == Some(n)
  {
    var d := if n < 0 then NatToString(-n) else NatToString(n);
    var s := Itoa(n);
    DigitsOfNat(if n < 0 then -n else n);
    if n < 0 {
      assert s == "-" + d && s[0] == '-' && s[1..] == d;
    } else {
      assert s == d && s[0] != '-' && s[0] != '+';
    }
    assert AllDigits(d);
  }
}
