/**
 * The part of Python's `re` that the role and bond tables use: literal characters,
 * character classes `[..]`, `\s+`, an optional single character `(?:c)?`, `\b` and
 * the lookahead `(?!\w)`. A pattern string is translated into a list of elements
 * and matched by backtracking, greedy quantifiers first, as `re` does.
 */
module Pattern {
  import opened Wrappers
  import opened Text
  import opened Sorting

  datatype Elem =
    | Lit(c: char)        // one character
    | OneOf(cs: string)   // a class `[..]` of single characters
    | Spaces              // `\s+`
    | OptLit(o: char)     // `(?:c)?`
    | WordBoundary        // `\b`
    | NotWordAhead        // `(?!\w)`

  /** Index of the first `]` in `p`, or `|p|` when there is none. */
  function ClassClose(p: string): (r: nat)
    ensures r <= |p|
    ensures r < |p| ==> p[r] == ']'
    ensures forall k :: 0 <= k < r ==> p[k] != ']'
  {
    if p == [] then 0 else if p[0] == ']' then 0 else 1 + ClassClose(p[1..])
  }

  /**
   * The elements a pattern string stands for. Only the constructs listed in the module
   * comment are recognised; every other character is taken literally.
   */
  function Translate(p: string): seq<Elem>
    decreases |p|
  {
    if p == [] then []
    else if |p| >= 2 && p[..2] == "\\b" then [WordBoundary] + Translate(p[2..])
    else if |p| >= 3 && p[..3] == "\\s+" then [Spaces] + Translate(p[3..])
    else if |p| >= 6 && p[..6] == "(?!\\w)" then [NotWordAhead] + Translate(p[6..])
    else if |p| >= 6 && p[..3] == "(?:" && p[4..6] == ")?" then [OptLit(p[3])] + Translate(p[6..])
    else if p[0] == '[' && ClassClose(p[1..]) < |p| - 1 then
      var close := 1 + ClassClose(p[1..]);
      [OneOf(p[1..close])] + Translate(p[close + 1..])
    else [Lit(p[0])] + Translate(p[1..])
  }

  /** The markers of `basic_markers` in `extract_instruments`. */
  const BasicMarkers: seq<string> := ["\\s", "[", "(", "|", "*", "+", "?", "{"]

  /** `is_complex`: the pattern carries regex syntax of its own and is used verbatim. */
  predicate IsComplex(p: string) {
    || '\\' in p
    || IsSubstring("\\b", p)
    || IsSubstring("(?", p)
    || exists k :: 0 <= k < |BasicMarkers| && IsSubstring(BasicMarkers[k], p)
  }

  /** `regex_pattern`: a bare pattern is wrapped as `\b...\b`, a complex one is kept. */
  function Compile(p: string): seq<Elem> {
    if IsComplex(p) then Translate(p) else Translate("\\b" + p + "\\b")
  }

  /** One literal element per character. */
  function Lits(s: string): (r: seq<Elem>)
    ensures |r| == |s| && forall k :: 0 <= k < |s| ==> r[k] == Lit(s[k])
  {
    seq(|s|, k requires 0 <= k < |s| => Lit(s[k]))
  }

  /** No character of `p` opens an escape, a class or a group. */
  predicate Plain(p: string) {
    forall k :: 0 <= k < |p| ==> p[k] != '\\' && p[k] != '[' && p[k] != '('
  }

  /** A first character other than `\`, `[` or `(` is a literal. */
  lemma TranslateLit(s: string)
    requires s != [] && s[0] != '\\' && s[0] != '[' && s[0] != '('
    ensures Translate(s) == [Lit(s[0])] + Translate(s[1..])
  {
    if |s| >= 2 { assert s[..2][0] == s[0]; }
    if |s| >= 3 { assert s[..3][0] == s[0]; }
    if |s| >= 6 { assert s[..6][0] == s[0]; }
  }

  /** The first step of `TranslatePlain`: a plain first character, then the rest. */
  lemma PlainStep(p: string, tail: string)
    requires p != [] && Plain(p)
    ensures Plain(p[1..]) && (p + tail)[1..] == p[1..] + tail
    ensures Translate(p + tail) == [Lit(p[0])] + Translate(p[1..] + tail)
  {
    var s := p + tail;
    assert s[0] == p[0] && s[1..] == p[1..] + tail;
    TranslateLit(s);
  }

  /** Characters without `\`, `[` or `(` translate to literals. */
  lemma {:induction false} TranslatePlain(p: string, tail: string)
    requires Plain(p)
    ensures Translate(p + tail) == Lits(p) + Translate(tail)
    decreases |p|
  {
    if p == [] {
      assert p + tail == tail;
    } else {
      var q := p[1..];
      PlainStep(p, tail);
      TranslatePlain(q, tail);
      LitsCons(p);
      ConcatAssoc([Lit(p[0])], Lits(q), Translate(tail));
    }
  }

  lemma LitsCons(p: string)
    requires p != []
    ensures Lits(p) == [Lit(p[0])] + Lits(p[1..])
  {
  }

  /**
   * A pattern made of word characters only, as every bare pattern of the taxonomy is;
   * other bare characters such as `.`, `^` or `$` would be metacharacters to `re`.
   */
  predicate WordPattern(p: string) {
    forall k :: 0 <= k < |p| ==> IsWordChar(p[k])
  }

  /** A bare pattern compiles to `\b`, its characters taken literally, `\b`. */
  lemma BareIsWrapped(p: string)
    requires !IsComplex(p) && WordPattern(p)
    ensures Compile(p) == [WordBoundary] + Lits(p) + [WordBoundary]
  {
    forall k | 0 <= k < |p| ensures p[k] != '\\' && p[k] != '[' && p[k] != '(' {
      CharIsSubstring(p, k);
      assert BasicMarkers[1] == "[" && BasicMarkers[2] == "(";
    }
    var s := "\\b" + p + "\\b";
    assert s[..2] == "\\b";
    assert s[2..] == p + "\\b";
    TranslatePlain(p, "\\b");
    assert Translate("\\b") == [WordBoundary] + Translate([]);
  }

  /** Every character of `p` is a one-character substring of it. */
  lemma CharIsSubstring(p: string, k: nat)
    requires k < |p|
    ensures IsSubstring([p[k]], p)
  {
    assert OccursAt([p[k]], p, k);
  }

  // ---------------------------------------------------------------------------
  // Matching
  // ---------------------------------------------------------------------------

  /** One character of the text against one pattern character. */
  predicate CharMatches(t: char, c: char, ignoreCase: bool) {
    if ignoreCase then SameLetter(t, c) else t == c
  }

  /** A run of text against a run of pattern characters. */
  predicate CharsMatch(t: string, s: string, ignoreCase: bool) {
    |t| == |s| && forall k :: 0 <= k < |s| ==> CharMatches(t[k], s[k], ignoreCase)
  }

  /** Number of whitespace characters from position `i` on. */
  function SpaceRun(text: string, i: nat): (n: nat)
    requires i <= |text|
    ensures i + n <= |text|
    ensures forall k :: i <= k < i + n ==> IsSpace(text[k])
    ensures i + n < |text| ==> !IsSpace(text[i + n])
    decreases |text| - i
  {
    if i < |text| && IsSpace(text[i]) then 1 + SpaceRun(text, i + 1) else 0
  }

  /**
   * Where a match of `es` that starts at `i` ends, or `None`. Greedy elements try
   * their longest choice first and give back one character at a time.
   */
  function MatchElems(es: seq<Elem>, text: string, i: nat, ignoreCase: bool): (r: Option<nat>)
    requires i <= |text|
    ensures r.Some? ==> i <= r.value <= |text|
    decreases |es|, |text| + 1
  {
    if es == [] then Some(i)
    else match es[0]
      case Lit(c) =>
        if i < |text| && CharMatches(text[i], c, ignoreCase) then MatchElems(es[1..], text, i + 1, ignoreCase)
        else None
      case OneOf(cs) =>
        if i < |text| && exists k :: 0 <= k < |cs| && CharMatches(text[i], cs[k], ignoreCase)
        then MatchElems(es[1..], text, i + 1, ignoreCase)
        else None
      case Spaces =>
        TrySpaces(es[1..], text, i, i + SpaceRun(text, i), ignoreCase)
      case OptLit(c) =>
        var taken :=
          if i < |text| && CharMatches(text[i], c, ignoreCase) then MatchElems(es[1..], text, i + 1, ignoreCase)
          else None;
        if taken.Some? then taken else MatchElems(es[1..], text, i, ignoreCase)
      case WordBoundary =>
        if Boundary(text, i) then MatchElems(es[1..], text, i, ignoreCase) else None
      case NotWordAhead =>
        if !WordAfter(text, i) then MatchElems(es[1..], text, i, ignoreCase) else None
  }

  /** `\s+` followed by `rest`, the run of spaces ending at `j` or earlier (and after `i`). */
  function TrySpaces(rest: seq<Elem>, text: string, i: nat, j: nat, ignoreCase: bool): (r: Option<nat>)
    requires i <= j <= |text|
    ensures r.Some? ==> i < r.value <= |text|
    decreases |rest| + 1, j
  {
    if j <= i then None
    else
      var r := MatchElems(rest, text, j, ignoreCase);
      if r.Some? then r else TrySpaces(rest, text, i, j - 1, ignoreCase)
  }

  /** Literal elements match exactly a run of equal characters. */
  lemma {:induction false} MatchLits(s: string, rest: seq<Elem>, text: string, i: nat, ignoreCase: bool)
    requires i <= |text|
    ensures MatchElems(Lits(s) + rest, text, i, ignoreCase) ==
              if i + |s| <= |text| && CharsMatch(text[i..i + |s|], s, ignoreCase)
              then MatchElems(rest, text, i + |s|, ignoreCase) else None
    decreases |s|
  {
    var es := Lits(s) + rest;
    if s == [] {
      assert es == rest;
    } else {
      assert es[0] == Lit(s[0]);
      assert es[1..] == Lits(s[1..]) + rest;
      if i < |text| && CharMatches(text[i], s[0], ignoreCase) {
        MatchLits(s[1..], rest, text, i + 1, ignoreCase);
        if i + |s| <= |text| {
          var t := text[i..i + |s|];
          assert text[i + 1..i + 1 + |s[1..]|] == t[1..];
          if CharsMatch(t[1..], s[1..], ignoreCase) {
            forall k | 0 <= k < |s| ensures CharMatches(t[k], s[k], ignoreCase) {
              if k > 0 { assert t[1..][k - 1] == t[k]; }
            }
          } else {
            assert !CharsMatch(t, s, ignoreCase) by {
              var k :| 0 <= k < |s[1..]| && !CharMatches(t[1..][k], s[1..][k], ignoreCase);
              assert t[k + 1] == t[1..][k];
            }
          }
        }
      } else if i + |s| <= |text| {
        assert text[i..i + |s|][0] == text[i];
      }
    }
  }

  /**
   * A bare pattern matches at `i` exactly when the next `|p|` characters equal it up
   * to case and `\b` holds on both sides; the match then ends right after them.
   */
  lemma BareMatch(p: string, text: string, i: nat)
    requires !IsComplex(p) && WordPattern(p) && i <= |text|
    ensures MatchElems(Compile(p), text, i, true) ==
              if i + |p| <= |text| && SameLetters(text[i..i + |p|], p)
                 && Boundary(text, i) && Boundary(text, i + |p|)
              then Some(i + |p|) else None
  {
    BareIsWrapped(p);
    var es := [WordBoundary] + Lits(p) + [WordBoundary];
    assert es[0] == WordBoundary && es[1..] == Lits(p) + [WordBoundary];
    MatchLits(p, [WordBoundary], text, i, true);
    if i + |p| <= |text| {
      var w: seq<Elem> := [WordBoundary];
      assert w[0] == WordBoundary && w[1..] == [];
      assert CharsMatch(text[i..i + |p|], p, true) <==> SameLetters(text[i..i + |p|], p);
    }
  }

  /**
   * For a non-empty bare pattern of word characters (every bare role keyword),
   * a match is a case-insensitive occurrence that is a whole word: no word character
   * touches it on either side.
   */
  lemma BareMatchIsWholeWord(p: string, text: string, i: nat)
    requires !IsComplex(p) && WordPattern(p) && p != [] && i <= |text|
    ensures MatchElems(Compile(p), text, i, true).Some? <==>
              i + |p| <= |text| && SameLetters(text[i..i + |p|], p)
              && !WordBefore(text, i) && !WordAfter(text, i + |p|)
  {
    BareMatch(p, text, i);
    if i + |p| <= |text| && SameLetters(text[i..i + |p|], p) {
      var t := text[i..i + |p|];
      assert SameLetter(t[0], p[0]) && SameLetter(t[|p| - 1], p[|p| - 1]);
      assert IsWordChar(text[i]) by { assert t[0] == text[i]; }
      assert IsWordChar(text[i + |p| - 1]) by { assert t[|p| - 1] == text[i + |p| - 1]; }
    }
  }

  // ---------------------------------------------------------------------------
  // finditer and search
  // ---------------------------------------------------------------------------

  /** The span `[start, end)` of one match. */
  datatype Span = Span(start: nat, end: nat)

  /**
   * The non-overlapping matches found scanning from `p` on, as `re.finditer` reports
   * them: after a match the scan resumes where it ended.
   */
  function FindFrom(es: seq<Elem>, text: string, p: nat, ignoreCase: bool): (r: seq<Span>)
    requires p <= |text|
    ensures forall k :: 0 <= k < |r| ==> p <= r[k].start < r[k].end <= |text|
    ensures forall k :: 0 <= k < |r| ==> MatchElems(es, text, r[k].start, ignoreCase) == Some(r[k].end)
    ensures forall k :: 0 <= k < |r| - 1 ==> r[k].end <= r[k + 1].start
    decreases |text| - p
  {
    if p == |text| then []
    else match MatchElems(es, text, p, ignoreCase)
      case Some(e) =>
        if e > p then [Span(p, e)] + FindFrom(es, text, e, ignoreCase)
        else FindFrom(es, text, p + 1, ignoreCase)
      case None => FindFrom(es, text, p + 1, ignoreCase)
  }

  /** Position `q` lies inside one of the spans. */
  predicate SpansCover(spans: seq<Span>, q: nat) {
    exists k :: 0 <= k < |spans| && spans[k].start <= q < spans[k].end
  }

  /**
   * The scan misses nothing: every position from `p` on where a non-empty match starts
   * lies inside a reported span (at its start, or inside a match reported before it).
   */
  lemma {:induction false} FindFromComplete(es: seq<Elem>, text: string, p: nat, ignoreCase: bool, q: nat)
    requires p <= q < |text|
    requires MatchElems(es, text, q, ignoreCase).Some? && MatchElems(es, text, q, ignoreCase).value > q
    ensures SpansCover(FindFrom(es, text, p, ignoreCase), q)
    decreases |text| - p
  {
    var r := FindFrom(es, text, p, ignoreCase);
    if q == p {
      assert r[0] == Span(p, MatchElems(es, text, p, ignoreCase).value);
    } else {
      var m := MatchElems(es, text, p, ignoreCase);
      if m.Some? && m.value > p {
        var rest := FindFrom(es, text, m.value, ignoreCase);
        assert r == [Span(p, m.value)] + rest;
        if q < m.value {
          assert r[0] == Span(p, m.value);
        } else {
          FindFromComplete(es, text, m.value, ignoreCase, q);
          SpanCoveredCons(Span(p, m.value), rest, q);
        }
      } else {
        assert r == FindFrom(es, text, p + 1, ignoreCase);
        FindFromComplete(es, text, p + 1, ignoreCase, q);
      }
    }
  }

  /** A position covered by a span of `rest` is still covered once `sp` is put in front. */
  lemma SpanCoveredCons(sp: Span, rest: seq<Span>, q: nat)
    requires SpansCover(rest, q)
    ensures SpansCover([sp] + rest, q)
  {
    var k :| 0 <= k < |rest| && rest[k].start <= q < rest[k].end;
    assert ([sp] + rest)[k + 1] == rest[k];
  }

  /** `re.finditer(pattern, text)`. */
  function FindAll(es: seq<Elem>, text: string, ignoreCase: bool): seq<Span> {
    FindFrom(es, text, 0, ignoreCase)
  }

  /** `re.search(pattern, text)` finds something. */
  predicate Search(es: seq<Elem>, text: string, ignoreCase: bool) {
    exists p :: 0 <= p <= |text| && MatchElems(es, text, p, ignoreCase).Some?
  }
}
