/**
 * The salary token recogniser: `re.finditer` with the pattern
 * `(?<!\d)(R\$\s*)?((?:\d{1,3}(?:\.\d{3})+)|(?:\d{3,6}))(?:,(\d{2}))?(?!\d)`,
 * written out in the order Python's backtracking engine tries the alternatives, and the
 * conversion of a matched token into an amount in cents.
 */
module Amount {
  import opened Wrappers
  import opened Text
  import opened Pattern

  // ---------------------------------------------------------------------------
  // Shapes of the integer part
  // ---------------------------------------------------------------------------

  predicate AllDigits(s: string) {
    forall k :: 0 <= k < |s| ==> IsDigit(s[k])
  }

  /** Length of the run of digits that starts at `i`. */
  function DigitRun(text: string, i: nat): (n: nat)
    requires i <= |text|
    ensures i + n <= |text|
    ensures forall k :: i <= k < i + n ==> IsDigit(text[k])
    ensures i + n < |text| ==> !IsDigit(text[i + n])
    decreases |text| - i
  {
    if i < |text| && IsDigit(text[i]) then 1 + DigitRun(text, i + 1) else 0
  }

  /** Zero or more `.ddd` groups and nothing else. */
  predicate GroupedTail(s: string)
    decreases |s|
  {
    s == [] || (|s| >= 4 && s[0] == '.' && AllDigits(s[1..4]) && GroupedTail(s[4..]))
  }

  /** `\d{1,3}(?:\.\d{3})+`: one to three digits, then at least one `.ddd` group. */
  predicate IsGroupedInt(s: string) {
    var lead := DigitRun(s, 0);
    1 <= lead <= 3 && lead < |s| && GroupedTail(s[lead..])
  }

  /** `\d{3,6}`: three to six digits. */
  predicate IsBareInt(s: string) {
    3 <= |s| <= 6 && AllDigits(s)
  }

  // ---------------------------------------------------------------------------
  // The recogniser
  // ---------------------------------------------------------------------------

  /** A `.ddd` group starts at `i`. */
  predicate GroupAt(text: string, i: nat) {
    i + 4 <= |text| && text[i] == '.' && IsDigit(text[i + 1]) && IsDigit(text[i + 2]) && IsDigit(text[i + 3])
  }

  /** How many `.ddd` groups follow one another from `i` (the greedy `(?:\.\d{3})+`). */
  function GroupRun(text: string, i: nat): (g: nat)
    requires i <= |text|
    ensures i + 4 * g <= |text|
    decreases |text| - i
  {
    if GroupAt(text, i) then 1 + GroupRun(text, i + 4) else 0
  }

  /** The ends `base + 4g` for `g = count, ..., 1`, longest first. */
  function GroupEnds(base: nat, count: nat): (r: seq<nat>)
    ensures |r| == count
    ensures forall k :: 0 <= k < count ==> r[k] == base + 4 * (count - k)
  {
    if count == 0 then [] else [base + 4 * count] + GroupEnds(base, count - 1)
  }

  /**
   * Ends the first alternative tries: `\d{1,3}` takes `k` digits (`k` going down to 1)
   * and for each `k` the groups are given back one at a time.
   */
  function Alt1Ends(text: string, q: nat, k: nat): (r: seq<nat>)
    requires q + k <= |text|
    ensures forall j :: 0 <= j < |r| ==> r[j] <= |text|
  {
    if k == 0 then [] else GroupEnds(q + k, GroupRun(text, q + k)) + Alt1Ends(text, q, k - 1)
  }

  /** Ends the second alternative tries: `\d{3,6}` takes `n` digits, `n` going down to 3. */
  function Alt2Ends(q: nat, n: nat): (r: seq<nat>)
    ensures forall k :: 0 <= k < |r| ==> q + 3 <= r[k] <= q + n
  {
    if n < 3 then [] else [q + n] + Alt2Ends(q, n - 1)
  }

  function Min(a: nat, b: nat): nat { if a <= b then a else b }

  /** Every end the integer group can take at `q`, in the order the engine tries them. */
  function IntEnds(text: string, q: nat): (r: seq<nat>)
    requires q <= |text|
    ensures forall k :: 0 <= k < |r| ==> r[k] <= |text|
  {
    var run := DigitRun(text, q);
    Alt1Ends(text, q, Min(3, run)) + Alt2Ends(q, Min(6, run))
  }

  /** Where a match ends and what the decimal group captured. */
  datatype Tail = Tail(end: nat, decRaw: Option<string>)

  /**
   * The part after the integer group: `(?:,(\d{2}))?` is tried first with the decimal
   * group, then without, each followed by the lookahead `(?!\d)`.
   */
  function TailAt(text: string, e: nat): Option<Tail>
    requires e <= |text|
  {
    if e + 3 <= |text| && text[e] == ',' && IsDigit(text[e + 1]) && IsDigit(text[e + 2])
       && (e + 3 == |text| || !IsDigit(text[e + 3]))
    then Some(Tail(e + 3, Some(text[e + 1..e + 3])))
    else if e == |text| || !IsDigit(text[e]) then Some(Tail(e, None))
    else None
  }

  /** The integer and decimal groups of a number: the first end that admits a tail. */
  datatype Number = Number(intEnd: nat, tail: Tail)

  function FirstNumber(text: string, ends: seq<nat>): (r: Option<Number>)
    requires forall k :: 0 <= k < |ends| ==> ends[k] <= |text|
    ensures r.Some? ==> r.value.intEnd in ends && TailAt(text, r.value.intEnd) == Some(r.value.tail)
  {
    if ends == [] then None
    else match TailAt(text, ends[0])
      case Some(t) => Some(Number(ends[0], t))
      case None => FirstNumber(text, ends[1..])
  }

  /** A match of the salary pattern. */
  datatype Token = Token(start: nat, intStart: nat, intEnd: nat, end: nat, symbol: bool, decRaw: Option<string>)

  /** The match and its integer group lie inside `text`. */
  predicate Within(text: string, t: Token) {
    t.start <= t.end <= |text| && t.intStart <= t.intEnd <= |text|
  }

  /** Group 2 of the match. */
  function IntRaw(text: string, t: Token): string
    requires t.intStart <= t.intEnd <= |text|
  {
    text[t.intStart..t.intEnd]
  }

  /** Group 0 of the match. */
  function RawValue(text: string, t: Token): string
    requires t.start <= t.end <= |text|
  {
    text[t.start..t.end]
  }

  /** The tail that `TailAt` reports: a lookahead-checked end, with or without `,dd`. */
  predicate TailOk(text: string, e: nat, t: Tail) {
    && e <= t.end <= |text|
    && (t.end == |text| || !IsDigit(text[t.end]))
    && (t.decRaw.None? ==> t.end == e)
    && (t.decRaw.Some? ==> t.end == e + 3 && text[e] == ',' && t.decRaw.value == text[e + 1..e + 3]
                           && |t.decRaw.value| == 2 && AllDigits(t.decRaw.value))
  }

  lemma TailAtOk(text: string, e: nat)
    requires e <= |text| && TailAt(text, e).Some?
    ensures TailOk(text, e, TailAt(text, e).value)
  {
  }

  /** The number (groups 2 and 3 and the match end) found at `q`, if any. */
  function NumberAt(text: string, q: nat): (r: Option<Number>)
    requires q <= |text|
    ensures r.Some? ==> q < r.value.intEnd && TailOk(text, r.value.intEnd, r.value.tail)
    ensures r.Some? ==> IsGroupedInt(text[q..r.value.intEnd]) || IsBareInt(text[q..r.value.intEnd])
  {
    var ends := IntEnds(text, q);
    var r := FirstNumber(text, ends);
    if r.Some? then
      IntEndShape(text, q, r.value.intEnd);
      TailAtOk(text, r.value.intEnd);
      r
    else r
  }

  /**
   * The match that starts at `p`, if any: the lookbehind `(?<!\d)` first, then the
   * number with the `R$` prefix, then the number without it.
   */
  function TokenAt(text: string, p: nat): (r: Option<Token>)
    requires p <= |text|
    ensures r.Some? ==> r.value.start == p && TokenOk(text, r.value)
  {
    if p > 0 && IsDigit(text[p - 1]) then None
    else
      var withSymbol :=
        if p + 2 <= |text| && text[p] == 'R' && text[p + 1] == '$' then
          var q := p + 2 + SpaceRun(text, p + 2);
          match NumberAt(text, q)
          case Some(n) => Some(Token(p, q, n.intEnd, n.tail.end, true, n.tail.decRaw))
          case None => None
        else None;
      if withSymbol.Some? then withSymbol
      else match NumberAt(text, p)
        case Some(n) => Some(Token(p, p, n.intEnd, n.tail.end, false, n.tail.decRaw))
        case None => None
  }

  /**
   * What every match of the salary pattern looks like: it is not preceded or followed by a
   * digit; with the symbol it starts with `R$` and optional whitespace; its integer group
   * is grouped (`1.234.567`) or bare (three to six digits); its decimal group, when
   * present, is a comma and two digits.
   */
  predicate TokenOk(text: string, t: Token) {
    && t.start <= t.intStart < t.intEnd <= t.end <= |text|
    && (t.start == 0 || !IsDigit(text[t.start - 1]))
    && (t.symbol ==> t.start + 2 <= t.intStart && text[t.start] == 'R' && text[t.start + 1] == '$'
                     && forall k :: t.start + 2 <= k < t.intStart ==> IsSpace(text[k]))
    && (!t.symbol ==> t.intStart == t.start)
    && (IsGroupedInt(text[t.intStart..t.intEnd]) || IsBareInt(text[t.intStart..t.intEnd]))
    && TailOk(text, t.intEnd, Tail(t.end, t.decRaw))
  }

  /**
   * `re.finditer` from `p` on: a match is tried at every position; after a match the
   * search resumes at its end (matches are never empty).
   */
  function TokensFrom(text: string, p: nat): (r: seq<Token>)
    requires p <= |text|
    ensures forall k :: 0 <= k < |r| ==> p <= r[k].start && TokenOk(text, r[k])
    ensures forall k :: 0 <= k < |r| - 1 ==> r[k].end <= r[k + 1].start
    decreases |text| - p
  {
    if p == |text| then []
    else match TokenAt(text, p)
      case Some(t) => [t] + TokensFrom(text, t.end)
      case None => TokensFrom(text, p + 1)
  }

  /** Position `q` lies inside one of the matches `ts`. */
  predicate Covers(ts: seq<Token>, q: nat) {
    exists k :: 0 <= k < |ts| && ts[k].start <= q < ts[k].end
  }

  /**
   * The scan misses nothing: every position from `p` on where the salary expression
   * matches lies inside a reported match (its own, or one reported before it).
   */
  lemma {:induction false} TokensFromComplete(text: string, p: nat, q: nat)
    requires p <= q < |text| && TokenAt(text, q).Some?
    ensures Covers(TokensFrom(text, p), q)
    decreases |text| - p
  {
    var r := TokensFrom(text, p);
    var m := TokenAt(text, p);
    if q == p {
      assert r == [m.value] + TokensFrom(text, m.value.end);
      assert r[0] == m.value;
    } else if m.Some? {
      var rest := TokensFrom(text, m.value.end);
      assert r == [m.value] + rest;
      if q < m.value.end {
        assert r[0] == m.value;
      } else {
        TokensFromComplete(text, m.value.end, q);
        CoveredCons(m.value, rest, q);
      }
    } else {
      assert r == TokensFrom(text, p + 1);
      TokensFromComplete(text, p + 1, q);
    }
  }

  /** A position covered by a match of `rest` is still covered once `t` is put in front. */
  lemma CoveredCons(t: Token, rest: seq<Token>, q: nat)
    requires Covers(rest, q)
    ensures Covers([t] + rest, q)
  {
    var k :| 0 <= k < |rest| && rest[k].start <= q < rest[k].end;
    assert ([t] + rest)[k + 1] == rest[k];
  }

  /** `salary_pattern.finditer(text)`. */
  function Tokens(text: string): seq<Token> {
    TokensFrom(text, 0)
  }

  /** Every match `finditer` reports has the shape of a match. */
  lemma TokensMember(text: string, t: Token)
    requires t in Tokens(text)
    ensures TokenOk(text, t)
  {
  }

  // ---------------------------------------------------------------------------
  // From token to amount
  // ---------------------------------------------------------------------------

  /** `s.replace('.', '')`. */
  function RemoveDots(s: string): (r: string)
    ensures forall k :: 0 <= k < |r| ==> r[k] != '.'
    ensures (forall k :: 0 <= k < |s| ==> IsDigit(s[k]) || s[k] == '.') ==> AllDigits(r)
    ensures r == [] ==> forall k :: 0 <= k < |s| ==> s[k] == '.'
  {
    if s == [] then []
    else
      var init, c := s[..|s| - 1], s[|s| - 1];
      assert forall k :: 0 <= k < |init| ==> init[k] == s[k];
      RemoveDots(init) + (if c == '.' then [] else [c])
  }

  /** The value of a string of decimal digits. */
  function DigitsValue(s: string): nat
    requires AllDigits(s)
  {
    if s == [] then 0 else DigitsValue(s[..|s| - 1]) * 10 + ((s[|s| - 1] as int) - ('0' as int))
  }

  /**
   * The amount in cents that `float(f"{int_clean}.{dec_clean}")` denotes, where
   * `int_clean` is the integer group without its dots and `dec_clean` the decimal group or
   * "00", for the groups a match delivers: digits (and dots) before, two digits after.
   * `None` stands for inputs no match delivers (no integer digit, other characters, a
   * decimal group that is not two digits); `TokenCents` shows a match never yields it.
   */
  function ParseAmount(intRaw: string, decRaw: Option<string>): Option<nat> {
    var clean := RemoveDots(intRaw);
    var dec := decRaw.GetOr("00");
    if clean != [] && AllDigits(clean) && |dec| == 2 && AllDigits(dec)
    then Some(DigitsValue(clean) * 100 + DigitsValue(dec))
    else None
  }

  /** The decimal group in cents, 0 when absent. */
  function DecimalCents(decRaw: Option<string>): nat {
    if decRaw.Some? && AllDigits(decRaw.value) then DigitsValue(decRaw.value) else 0
  }

  /** The value of a match in cents; the conversion of a match never fails. */
  function TokenCents(text: string, t: Token): (c: nat)
    requires TokenOk(text, t)
    ensures ParseAmount(IntRaw(text, t), t.decRaw) == Some(c)
  {
    TokenAmount(text, t);
    DigitsValue(RemoveDots(IntRaw(text, t))) * 100 + DecimalCents(t.decRaw)
  }

  // ---------------------------------------------------------------------------
  // Shape proofs
  // ---------------------------------------------------------------------------

  /** A digit run that stops at `k` has length `k`. */
  lemma DigitRunExact(s: string, k: nat)
    requires k < |s| && (forall j :: 0 <= j < k ==> IsDigit(s[j])) && !IsDigit(s[k])
    ensures DigitRun(s, 0) == k
  {
  }

  /** The first `j` groups of a run of groups form a grouped tail. */
  lemma {:induction false} GroupsAreGrouped(text: string, i: nat, j: nat)
    requires i <= |text| && j <= GroupRun(text, i)
    ensures i + 4 * j <= |text| && GroupedTail(text[i..i + 4 * j])
    decreases j
  {
    if j > 0 {
      assert GroupAt(text, i);
      GroupsAreGrouped(text, i + 4, j - 1);
      var s := text[i..i + 4 * j];
      assert s[4..] == text[i + 4..i + 4 + 4 * (j - 1)];
      assert s[1..4] == text[i + 1..i + 4];
    }
  }

  /** `k` digits followed by `j` groups form a grouped integer. */
  lemma GroupedIntAt(text: string, q: nat, k: nat, j: nat)
    requires 1 <= k <= 3 && q + k <= |text| && k <= DigitRun(text, q)
    requires 1 <= j <= GroupRun(text, q + k)
    ensures q + k + 4 * j <= |text| && IsGroupedInt(text[q..q + k + 4 * j])
  {
    GroupsAreGrouped(text, q + k, j);
    assert GroupAt(text, q + k);
    var s := text[q..q + k + 4 * j];
    assert s[k] == '.';
    assert forall i :: 0 <= i < k ==> s[i] == text[q + i];
    DigitRunExact(s, k);
    assert s[k..] == text[q + k..q + k + 4 * j];
  }

  lemma GroupEndsMember(base: nat, count: nat, e: nat)
    requires e in GroupEnds(base, count)
    ensures exists j :: 1 <= j <= count && e == base + 4 * j
  {
    var idx :| 0 <= idx < count && GroupEnds(base, count)[idx] == e;
    assert e == base + 4 * (count - idx);
  }

  /** An end reached by giving back groups after `k` digits closes a grouped integer. */
  lemma GroupEndShape(text: string, q: nat, k: nat, e: nat)
    requires 1 <= k <= 3 && q + k <= |text| && k <= DigitRun(text, q)
    requires e in GroupEnds(q + k, GroupRun(text, q + k))
    ensures q < e <= |text| && IsGroupedInt(text[q..e])
  {
    GroupEndsMember(q + k, GroupRun(text, q + k), e);
    var j :| 1 <= j <= GroupRun(text, q + k) && e == q + k + 4 * j;
    GroupedIntAt(text, q, k, j);
  }

  lemma {:induction false} Alt1Shape(text: string, q: nat, k: nat, e: nat)
    requires q + k <= |text| && k <= 3 && k <= DigitRun(text, q) && e in Alt1Ends(text, q, k)
    ensures q < e <= |text| && IsGroupedInt(text[q..e])
    decreases k
  {
    assert k > 0;
    var g := GroupRun(text, q + k);
    var ends := GroupEnds(q + k, g);
    assert Alt1Ends(text, q, k) == ends + Alt1Ends(text, q, k - 1);
    if e in ends {
      GroupEndShape(text, q, k, e);
    } else {
      Alt1Shape(text, q, k - 1, e);
    }
  }

  lemma {:induction false} IntEndShape(text: string, q: nat, e: nat)
    requires q <= |text| && e in IntEnds(text, q)
    ensures q < e <= |text|
    ensures IsGroupedInt(text[q..e]) || IsBareInt(text[q..e])
  {
    var run := DigitRun(text, q);
    if e in Alt1Ends(text, q, Min(3, run)) {
      Alt1Shape(text, q, Min(3, run), e);
    } else {
      var r := Alt2Ends(q, Min(6, run));
      var idx :| 0 <= idx < |r| && r[idx] == e;
      assert e - q <= run;
    }
  }

  /** A grouped tail holds only digits and dots. */
  lemma {:induction false} GroupedTailChars(s: string)
    requires GroupedTail(s)
    ensures forall k :: 0 <= k < |s| ==> IsDigit(s[k]) || s[k] == '.'
    decreases |s|
  {
    if s != [] {
      GroupedTailChars(s[4..]);
      forall k | 4 <= k < |s| ensures IsDigit(s[k]) || s[k] == '.' {
        assert s[k] == s[4..][k - 4];
      }
      forall k | 1 <= k < 4 ensures IsDigit(s[k]) {
        assert s[k] == s[1..4][k - 1];
      }
    }
  }

  /** The integer group of a match starts with a digit and holds only digits and dots. */
  lemma IntShapeChars(s: string)
    requires IsGroupedInt(s) || IsBareInt(s)
    ensures s != [] && IsDigit(s[0])
    ensures forall k :: 0 <= k < |s| ==> IsDigit(s[k]) || s[k] == '.'
  {
    if IsGroupedInt(s) {
      var lead := DigitRun(s, 0);
      GroupedTailChars(s[lead..]);
      forall k | lead <= k < |s| ensures IsDigit(s[k]) || s[k] == '.' {
        assert s[k] == s[lead..][k - lead];
      }
    }
  }

  /**
   * Parsing never fails on a match: the amount is the digits of the integer group, dots
   * removed, times 100, plus the two decimal digits when present.
   */
  lemma TokenAmount(text: string, t: Token)
    requires TokenOk(text, t)
    ensures var intRaw := IntRaw(text, t);
      && AllDigits(RemoveDots(intRaw)) && RemoveDots(intRaw) != []
      && ParseAmount(intRaw, t.decRaw)
         == Some(DigitsValue(RemoveDots(intRaw)) * 100 + (if t.decRaw.Some? then DigitsValue(t.decRaw.value) else 0))
  {
    var intRaw := IntRaw(text, t);
    IntShapeChars(intRaw);
    assert intRaw[0] != '.';
    assert TailOk(text, t.intEnd, Tail(t.end, t.decRaw));
    if t.decRaw.None? {
      var zeros := "00";
      assert zeros[..1] == "0" && zeros[..1][..0] == "";
      assert DigitsValue(zeros) == 0;
    }
  }
}
