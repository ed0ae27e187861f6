/**
 * Character classes, accent folding, whitespace stripping, evidence windows and
 * whole-word keyword search: the string helpers of `GoldProcessor`.
 *
 * Python's `re` and `str` classify characters by the whole Unicode database; this
 * module restricts every class to ASCII plus the Latin-1 Supplement (U+0080-U+00FF),
 * which covers Portuguese text.
 */
module Text {

  predicate IsDigit(c: char) { '0' <= c <= '9' }
  predicate IsUpper(c: char) { 'A' <= c <= 'Z' }
  predicate IsLower(c: char) { 'a' <= c <= 'z' }
  predicate IsAscii(c: char) { c < '\U{80}' }

  /** Letters of the Latin-1 Supplement: ª, µ, º and À-ÿ except × and ÷. */
  predicate IsLatin1Letter(c: char) {
    c == 'ª' || c == 'µ' || c == 'º' || ('À' <= c <= 'ÿ' && c != '×' && c != '÷')
  }

  /** Numeric characters of the Latin-1 Supplement: ², ³, ¹, ¼, ½, ¾. */
  predicate IsLatin1Numeric(c: char) {
    c == '²' || c == '³' || c == '¹' || ('¼' <= c <= '¾')
  }

  /** `\w` of a `re` pattern over `str`: letters, digits, numerics and underscore. */
  predicate IsWordChar(c: char) {
    IsDigit(c) || IsUpper(c) || IsLower(c) || c == '_' || IsLatin1Letter(c) || IsLatin1Numeric(c)
  }

  /** `\s` of a `re` pattern over `str`, which is also what `str.strip()` removes. */
  predicate IsSpace(c: char) {
    c == ' ' || ('\t' <= c <= '\r') || ('\U{1C}' <= c <= '\U{1F}') || c == '\U{85}' || c == '\U{A0}'
  }

  /** Simple lower-case mapping used by `re.IGNORECASE`: A-Z and À-Þ (without ×). */
  function FoldCase(c: char): (r: char)
    ensures IsWordChar(r) <==> IsWordChar(c)
    ensures !IsWordChar(c) ==> r == c
  {
    if IsUpper(c) || ('À' <= c <= 'Þ' && c != '×') then (c as int + 32) as char else c
  }

  /** Case-insensitive equality of two characters, as `re.IGNORECASE` compares them. */
  predicate SameLetter(a: char, b: char) {
    FoldCase(a) == FoldCase(b)
  }

  /** Case-insensitive equality of two strings of the same length. */
  predicate SameLetters(s: string, t: string) {
    |s| == |t| && forall k :: 0 <= k < |s| ==> SameLetter(s[k], t[k])
  }

  // ---------------------------------------------------------------------------
  // _normalize_text: NFKD decomposition, drop non-ASCII, lower-case
  // ---------------------------------------------------------------------------

  /** Lower-case of an ASCII letter; identity on every other character. */
  function AsciiLower(c: char): (r: char)
    ensures IsAscii(c) ==> IsAscii(r) && !IsUpper(r)
  {
    if IsUpper(c) then (c as int + 32) as char else c
  }

  /**
   * What `NFKD` followed by `encode('ASCII', 'ignore')` and `lower()` makes of one
   * character: accented Latin-1 letters lose their accent, the compatibility forms
   * ª º ¹ ² ³ ¼ ½ ¾ and the spacing accents become their ASCII decomposition, and
   * every other non-ASCII character disappears.
   */
  function NormalizeChar(c: char): (r: string)
    ensures |r| <= 2
    ensures forall k :: 0 <= k < |r| ==> IsAscii(r[k]) && !IsUpper(r[k])
    ensures IsAscii(c) ==> r == [AsciiLower(c)]
  {
    // À-Þ are the upper-case forms of à-þ, 32 code points further on
    var l := if 'À' <= c <= 'Þ' then (c as int + 32) as char else c;
    if IsAscii(c) then [AsciiLower(c)]
    else if ('à' <= l <= 'å') || c == 'ª' then "a"
    else if l == 'ç' then "c"
    else if 'è' <= l <= 'ë' then "e"
    else if 'ì' <= l <= 'ï' then "i"
    else if l == 'ñ' then "n"
    else if ('ò' <= l <= 'ö') || c == 'º' then "o"
    else if 'ù' <= l <= 'ü' then "u"
    else if l == 'ý' || c == 'ÿ' then "y"
    else if c == '¹' then "1"
    else if c == '²' then "2"
    else if c == '³' then "3"
    else if c == '¼' then "14"
    else if c == '½' then "12"
    else if c == '¾' then "34"
    else if c == '\U{A0}' || c == '¨' || c == '¯' || c == '´' || c == '¸' then " "
    else ""
  }

  /** The text as `_normalize_text` returns it: ASCII only and without upper case. */
  function Normalize(s: string): (r: string)
    ensures forall k :: 0 <= k < |r| ==> IsAscii(r[k]) && !IsUpper(r[k])
    ensures |r| <= 2 * |s|
  {
    if s == [] then [] else NormalizeChar(s[0]) + Normalize(s[1..])
  }

  /** Normalisation works character by character, so it distributes over `+`. */
  lemma {:induction false} NormalizeConcat(a: string, b: string)
    ensures Normalize(a + b) == Normalize(a) + Normalize(b)
  {
    if a == [] {
      assert a + b == b;
    } else {
      assert (a + b)[0] == a[0];
      assert (a + b)[1..] == a[1..] + b;
      NormalizeConcat(a[1..], b);
    }
  }

  /** Text that is already ASCII and lower-case comes out of normalisation unchanged. */
  lemma {:induction false} NormalizeIdempotent(s: string)
    requires forall k :: 0 <= k < |s| ==> IsAscii(s[k]) && !IsUpper(s[k])
    ensures Normalize(s) == s
  {
    if s != [] {
      NormalizeIdempotent(s[1..]);
    }
  }

  /** Normalising twice is normalising once. */
  lemma NormalizeTwice(s: string)
    ensures Normalize(Normalize(s)) == Normalize(s)
  {
    NormalizeIdempotent(Normalize(s));
  }

  // ---------------------------------------------------------------------------
  // Evidence windows: slice, newlines to spaces, str.strip()
  // ---------------------------------------------------------------------------

  /** `s.replace('\n', ' ')`. */
  function ReplaceNewlines(s: string): (r: string)
    ensures |r| == |s|
    ensures forall k :: 0 <= k < |s| ==> r[k] == if s[k] == '\n' then ' ' else s[k]
  {
    seq(|s|, k requires 0 <= k < |s| => if s[k] == '\n' then ' ' else s[k])
  }

  /** Index of the first non-whitespace character of `s` at or after `i` (or `|s|`). */
  function SkipSpaces(s: string, i: nat): (j: nat)
    requires i <= |s|
    ensures i <= j <= |s|
    ensures forall k :: i <= k < j ==> IsSpace(s[k])
    ensures j < |s| ==> !IsSpace(s[j])
    decreases |s| - i
  {
    if i < |s| && IsSpace(s[i]) then SkipSpaces(s, i + 1) else i
  }

  /** End of `s[lo:j]` once its trailing whitespace is dropped. */
  function TrimEnd(s: string, lo: nat, j: nat): (e: nat)
    requires lo <= j <= |s|
    ensures lo <= e <= j
    ensures forall k :: e <= k < j ==> IsSpace(s[k])
    ensures e > lo ==> !IsSpace(s[e - 1])
    decreases j
  {
    if j > lo && IsSpace(s[j - 1]) then TrimEnd(s, lo, j - 1) else j
  }

  /** Number of leading whitespace characters `strip()` removes. */
  function StripOffset(s: string): nat
    ensures StripOffset(s) <= |s|
  {
    SkipSpaces(s, 0)
  }

  /**
   * `s.strip()`: the slice of `s` between its leading and trailing whitespace, with no
   * whitespace at either end.
   */
  function Strip(s: string): (r: string)
    ensures StripOffset(s) + |r| <= |s|
    ensures r == s[StripOffset(s)..StripOffset(s) + |r|]
    ensures forall k :: 0 <= k < StripOffset(s) ==> IsSpace(s[k])
    ensures forall k :: StripOffset(s) + |r| <= k < |s| ==> IsSpace(s[k])
    ensures r != [] ==> !IsSpace(r[0]) && !IsSpace(r[|r| - 1])
  {
    var a := SkipSpaces(s, 0);
    s[a..TrimEnd(s, a, |s|)]
  }

  /** First index of the context window `max(0, start - w)`. */
  function WindowStart(start: nat, w: nat): nat {
    if start >= w then start - w else 0
  }

  /** End of the context window `min(len(text), end + w)`. */
  function WindowEnd(len: nat, end: nat, w: nat): nat {
    if end + w <= len then end + w else len
  }

  /**
   * The evidence text kept for a match `text[start:end]` with a `w`-character window:
   * `text[max(0, start-w):min(len, end+w)].replace('\n', ' ').strip()`.
   */
  function Evidence(text: string, start: nat, end: nat, w: nat): string
    requires start <= end <= |text|
  {
    Strip(ReplaceNewlines(text[WindowStart(start, w)..WindowEnd(|text|, end, w)]))
  }

  /**
   * The evidence is a piece of the window around the match with its newlines turned into
   * spaces, and it neither starts nor ends with whitespace.
   */
  lemma EvidenceFacts(text: string, start: nat, end: nat, w: nat)
    requires start <= end <= |text|
    ensures var r := Evidence(text, start, end, w);
      && |r| <= WindowEnd(|text|, end, w) - WindowStart(start, w)
      && (forall k :: 0 <= k < |r| ==> r[k] != '\n')
      && (r != [] ==> !IsSpace(r[0]) && !IsSpace(r[|r| - 1]))
      && exists a :: WindowStart(start, w) <= a && a + |r| <= WindowEnd(|text|, end, w) && FlatSliceAt(text, r, a)
  {
    var lo, hi := WindowStart(start, w), WindowEnd(|text|, end, w);
    StripFlat(text[lo..hi]);
    FlatPiece(text, lo, hi);
  }

  /** The stripped flat window `text[lo:hi]` is the flat slice of `text` where it begins. */
  lemma FlatPiece(text: string, lo: nat, hi: nat)
    requires lo <= hi <= |text|
    ensures var f := ReplaceNewlines(text[lo..hi]);
      lo + StripOffset(f) + |Strip(f)| <= hi && FlatSliceAt(text, Strip(f), lo + StripOffset(f))
  {
    var f := ReplaceNewlines(text[lo..hi]);
    var a := StripOffset(f);
    ReplaceSlice(text, lo, hi, a, a + |Strip(f)|);
  }

  /** Flattening then stripping leaves a newline-free piece of the flattened text. */
  lemma StripFlat(s: string)
    ensures var f := ReplaceNewlines(s);
      var r := Strip(f);
      && StripOffset(f) + |r| <= |s|
      && r == f[StripOffset(f)..StripOffset(f) + |r|]
      && (forall k :: 0 <= k < |r| ==> r[k] != '\n')
  {
    var f := ReplaceNewlines(s);
    FlatNoNewline(s);
    StripNoNewline(f);
  }

  lemma FlatNoNewline(s: string)
    ensures forall k :: 0 <= k < |ReplaceNewlines(s)| ==> ReplaceNewlines(s)[k] != '\n'
  {
  }

  lemma StripNoNewline(f: string)
    requires forall k :: 0 <= k < |f| ==> f[k] != '\n'
    ensures forall k :: 0 <= k < |Strip(f)| ==> Strip(f)[k] != '\n'
  {
    var r, a := Strip(f), StripOffset(f);
    forall k | 0 <= k < |r| ensures r[k] != '\n' {
      assert r[k] == f[a + k];
    }
  }

  /** `r` is `text[a:a+len(r)]` with its newlines turned into spaces. */
  predicate FlatSliceAt(text: string, r: string, a: int) {
    0 <= a && a + |r| <= |text| && r == ReplaceNewlines(text[a..a + |r|])
  }

  /** Replacing newlines commutes with slicing. */
  lemma ReplaceSlice(text: string, lo: nat, hi: nat, a: nat, b: nat)
    requires lo <= hi <= |text| && a <= b <= hi - lo
    ensures ReplaceNewlines(text[lo..hi])[a..b] == ReplaceNewlines(text[lo + a..lo + b])
  {
    var x, y := ReplaceNewlines(text[lo..hi])[a..b], ReplaceNewlines(text[lo + a..lo + b]);
    assert |x| == |y|;
    forall k | 0 <= k < |x| ensures x[k] == y[k] {
      assert text[lo..hi][a + k] == text[lo + a..lo + b][k];
    }
  }

  // ---------------------------------------------------------------------------
  // Substrings and whole words
  // ---------------------------------------------------------------------------

  /** `sub in s` for Python strings. */
  predicate IsSubstring(sub: string, s: string) {
    exists i :: 0 <= i <= |s| - |sub| && OccursAt(sub, s, i)
  }

  /** `sub` occurs in `s` starting at index `i`. */
  predicate OccursAt(sub: string, s: string, i: int) {
    0 <= i && i + |sub| <= |s| && s[i..i + |sub|] == sub
  }

  /** A word character stands just before position `j`. */
  predicate WordBefore(s: string, j: int) {
    0 < j <= |s| && IsWordChar(s[j - 1])
  }

  /** A word character stands at position `j`. */
  predicate WordAfter(s: string, j: int) {
    0 <= j < |s| && IsWordChar(s[j])
  }

  /** `\b` holds at position `j`: a word character on exactly one side. */
  predicate Boundary(s: string, j: int) {
    WordBefore(s, j) != WordAfter(s, j)
  }

  /** `\bkw\b` matches (case-sensitively) at position `i`. */
  predicate WordAt(s: string, kw: string, i: int) {
    0 <= i && i + |kw| <= |s| && s[i..i + |kw|] == kw && Boundary(s, i) && Boundary(s, i + |kw|)
  }

  /** `re.search(r'\b' + re.escape(kw) + r'\b', s)` finds a match. */
  predicate HasWord(s: string, kw: string) {
    exists i :: 0 <= i <= |s| && WordAt(s, kw, i)
  }

  /**
   * Some keyword of the list occurs in `s` as a whole word
   * (`re.search(r'\b' + re.escape(kw) + r'\b', s)` for some `kw`), tried in list order.
   */
  predicate AnyKeyword(s: string, keywords: seq<string>)
    decreases |keywords|
  {
    |keywords| > 0 && (HasWord(s, keywords[0]) || AnyKeyword(s, keywords[1..]))
  }

  /** `AnyKeyword` holds exactly when one of the keywords is a whole word of `s`. */
  lemma {:induction false} AnyKeywordExists(s: string, keywords: seq<string>)
    ensures AnyKeyword(s, keywords) <==> exists k :: 0 <= k < |keywords| && HasWord(s, keywords[k])
    decreases |keywords|
  {
    if |keywords| > 0 {
      AnyKeywordExists(s, keywords[1..]);
      if AnyKeyword(s, keywords[1..]) {
        var k :| 0 <= k < |keywords[1..]| && HasWord(s, keywords[1..][k]);
        assert HasWord(s, keywords[k + 1]);
      }
      if exists k :: 0 <= k < |keywords| && HasWord(s, keywords[k]) {
        var k :| 0 <= k < |keywords| && HasWord(s, keywords[k]);
        if k > 0 {
          assert keywords[1..][k - 1] == keywords[k];
        }
      }
    }
  }

  /** `_has_keyword_simple`: the keywords are tried in order and the first hit answers. */
  method HasKeywordSimple(s: string, keywords: seq<string>) returns (found: bool)
    ensures found == AnyKeyword(s, keywords)
  {
    for k := 0 to |keywords|
      invariant AnyKeyword(s, keywords) == AnyKeyword(s, keywords[k..])
    {
      assert keywords[k..][1..] == keywords[k + 1..];
      if HasWord(s, keywords[k]) {
        return true;
      }
    }
    return false;
  }

  /** For a keyword that starts and ends with word characters, `\b` means "not inside a longer word". */
  lemma WordAtIsWholeWord(s: string, kw: string, i: int)
    requires kw != [] && IsWordChar(kw[0]) && IsWordChar(kw[|kw| - 1])
    ensures WordAt(s, kw, i) <==>
              0 <= i && i + |kw| <= |s| && s[i..i + |kw|] == kw
              && !WordBefore(s, i) && !WordAfter(s, i + |kw|)
  {
    if 0 <= i && i + |kw| <= |s| && s[i..i + |kw|] == kw {
      assert s[i] == kw[0];
      assert s[i + |kw| - 1] == kw[|kw| - 1];
    }
  }
}
