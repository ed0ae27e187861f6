/**
 * Salary extraction (`extract_salaries`): every match of the salary pattern on a page
 * with a numeric page number is parsed, judged by its surroundings (currency symbol,
 * positive and negative keywords in the normalised 120-character window) and either
 * dropped or kept with a score.
 */
module Salaries {
  import opened Wrappers
  import opened Text
  import opened Config
  import opened Pages
  import opened Amount
  import opened Sorting

  /** 1900.0 and 2100.0, the bounds of the "looks like a year" rule, in cents. */
  const YearMinCents: nat := 190000
  const YearMaxCents: nat := 210000

  /** An accepted amount and its score. */
  datatype Verdict = Verdict(cents: nat, score: int)

  /** One row of the salary staging table (`entity_type` 'SALARIO'); `cents` is `canonical_value`. */
  datatype Salary = Salary(
    docId: string, sourceName: string, pageNum: int, cents: nat,
    rawValue: string, evidence: string, start: nat, score: int)

  function ScoreOf(s: Salary): int {
    s.score
  }

  /**
   * The rules of `extract_salaries` for one match, in the order the source applies them:
   * the no-symbol format rule, the conversion, the range, the year rule, the score and
   * the two final gates. Taken together they accept exactly the amounts in range that
   * carry a currency symbol or a positive keyword and no negative keyword, scoring 2 for
   * the symbol and 3 for the keyword.
   */
  function Assess(symbol: bool, intRaw: string, decRaw: Option<string>, positive: bool, negative: bool): (r: Option<Verdict>)
    ensures r.Some? <==>
      && ParseAmount(intRaw, decRaw).Some?
      && MinCents <= ParseAmount(intRaw, decRaw).value <= MaxCents
      && (symbol || positive) && !negative
    ensures r.Some? ==> r.value.cents == ParseAmount(intRaw, decRaw).value
    ensures r.Some? ==> r.value.score == (if symbol then 2 else 0) + (if positive then 3 else 0)
    ensures r.Some? ==> r.value.score in {2, 3, 5}
  {
    if !symbol && !('.' in intRaw || decRaw.Some?) && !positive then None
    else match ParseAmount(intRaw, decRaw)
      case None => None
      case Some(cents) =>
        if !(MinCents <= cents <= MaxCents) then None
        else if YearMinCents <= cents <= YearMaxCents && '.' !in intRaw && decRaw.None? && !symbol && !positive then None
        else
          var score := (if symbol then 2 else 0) + (if positive then 3 else 0) - (if negative then 10 else 0);
          if !symbol && !positive then None
          else if score < 0 then None
          else Some(Verdict(cents, score))
  }

  /** The normalised context window (120 characters either side) a match is judged by. */
  function Context(text: string, t: Token): string
    requires t.start <= t.end <= |text|
  {
    Normalize(text[WindowStart(t.start, SalaryWindow)..WindowEnd(|text|, t.end, SalaryWindow)])
  }

  /** The row a match yields, if the rules keep it. */
  function SalaryFor(row: PageRow, page: int, t: Token): Option<Salary>
    requires Within(row.fullText, t)
  {
    var text := row.fullText;
    var ctx := Context(text, t);
    match Assess(t.symbol, IntRaw(text, t), t.decRaw, AnyKeyword(ctx, PositiveKeywords), AnyKeyword(ctx, NegativeKeywords))
    case None => None
    case Some(v) =>
      Some(Salary(row.docId, SourceOf(row), page, v.cents, RawValue(text, t),
                  Evidence(text, t.start, t.end, SalaryWindow), t.start, v.score))
  }

  /**
   * What a match yields: it is kept exactly when its value is within [700.00, 45000.00],
   * a currency symbol or a positive keyword is present and no negative keyword is; the
   * kept row carries the value in cents, the raw match, the 120-character evidence
   * window, the match offset and the score 2 for the symbol plus 3 for the keyword.
   */
  lemma SalaryForFacts(row: PageRow, page: int, t: Token)
    requires TokenOk(row.fullText, t)
    ensures var text := row.fullText;
      var r := SalaryFor(row, page, t);
      var cents := TokenCents(text, t);
      var positive := AnyKeyword(Context(text, t), PositiveKeywords);
      var negative := AnyKeyword(Context(text, t), NegativeKeywords);
      && (r.Some? <==> MinCents <= cents <= MaxCents && (t.symbol || positive) && !negative)
      && (r.Some? ==> r.value == Salary(row.docId, SourceOf(row), page, cents, RawValue(text, t),
                                        Evidence(text, t.start, t.end, SalaryWindow), t.start,
                                        (if t.symbol then 2 else 0) + (if positive then 3 else 0)))
  {
  }

  predicate AllWithin(text: string, tokens: seq<Token>) {
    forall k :: 0 <= k < |tokens| ==> Within(text, tokens[k])
  }

  /** The decision on one match of a page, as a function value. */
  function Judge(row: PageRow, page: int): Token --> Option<Salary> {
    t requires Within(row.fullText, t) => SalaryFor(row, page, t)
  }

  /** Rows kept from a list of matches, in match order. */
  function TokenRows(row: PageRow, page: int, tokens: seq<Token>): seq<Salary>
    requires AllWithin(row.fullText, tokens)
  {
    Kept(tokens, Judge(row, page))
  }

  /** The rows of one page; a page whose number is not numeric is skipped. */
  function PageSalaries(row: PageRow): seq<Salary> {
    if row.pageNum.None? then [] else TokenRows(row, row.pageNum.value, Tokens(row.fullText))
  }

  /** The rows of a page table, page by page (`extracted_rows`). */
  function RawSalaries(pages: seq<PageRow>): seq<Salary> {
    FlatMap(pages, PageSalaries)
  }

  /** The body of the loop of `extract_salaries`: judge one match, in the source's order. */
  method JudgeMatch(row: PageRow, page: int, t: Token) returns (kept: Option<Salary>)
    requires Within(row.fullText, t)
    ensures kept == Judge(row, page)(t)
  {
    var text := row.fullText;
    var intPartRaw := text[t.intStart..t.intEnd];
    var ctxStart, ctxEnd := WindowStart(t.start, SalaryWindow), WindowEnd(|text|, t.end, SalaryWindow);
    var evidence := Evidence(text, t.start, t.end, SalaryWindow);
    var contextNorm := Normalize(text[ctxStart..ctxEnd]);
    var hasPositive := HasKeywordSimple(contextNorm, PositiveKeywords);
    var hasNegative := HasKeywordSimple(contextNorm, NegativeKeywords);
    var verdict := ApplyGates(t.symbol, intPartRaw, t.decRaw, hasPositive, hasNegative);
    SalaryForVerdict(row, page, t);
    if verdict.None? {
      return None;
    }
    kept := Some(Salary(row.docId, SourceOf(row), page, verdict.value.cents, text[t.start..t.end],
                        evidence, t.start, verdict.value.score));
  }

  /**
   * The gates of `extract_salaries` as the source runs them, one `continue` each: format
   * without a symbol, conversion, range, year, score, and the two final checks. This
   * mirrors the guard chain of src/pipeline/process_gold.py:202-230 step by step; `Assess`
   * is the same decision, and its contract gives the verdict in closed form.
   */
  method ApplyGates(symbolFound: bool, intPartRaw: string, decPartRaw: Option<string>, hasPositive: bool, hasNegative: bool)
    returns (verdict: Option<Verdict>)
    ensures verdict == Assess(symbolFound, intPartRaw, decPartRaw, hasPositive, hasNegative)
  {
    if !symbolFound {
      var hasFormat := '.' in intPartRaw || decPartRaw.Some?;
      if !hasFormat && !hasPositive {
        return None;
      }
    }
    var parsed := ParseAmount(intPartRaw, decPartRaw);
    if parsed.None? {
      return None;
    }
    var cents := parsed.value;
    if !(MinCents <= cents <= MaxCents) {
      return None;
    }
    var isYearRange := YearMinCents <= cents <= YearMaxCents;
    var isRawNumber := '.' !in intPartRaw && decPartRaw.None?;
    if isYearRange && isRawNumber && !symbolFound && !hasPositive {
      return None;
    }
    var score := 0;
    if symbolFound { score := score + 2; }
    if hasPositive { score := score + 3; }
    if hasNegative { score := score - 10; }
    if !symbolFound && !hasPositive {
      return None;
    }
    if score < 0 {
      return None;
    }
    verdict := Some(Verdict(cents, score));
  }

  /** `SalaryFor` unfolded once. */
  lemma SalaryForVerdict(row: PageRow, page: int, t: Token)
    requires Within(row.fullText, t)
    ensures var text := row.fullText;
      var ctx := Context(text, t);
      var v := Assess(t.symbol, IntRaw(text, t), t.decRaw, AnyKeyword(ctx, PositiveKeywords), AnyKeyword(ctx, NegativeKeywords));
      SalaryFor(row, page, t)
        == if v.None? then None
           else Some(Salary(row.docId, SourceOf(row), page, v.value.cents, RawValue(text, t),
                            Evidence(text, t.start, t.end, SalaryWindow), t.start, v.value.score))
  {
  }

  /** The loop of `extract_salaries` over the matches of one page, in match order. */
  method ScanPageSalaries(row: PageRow, page: int, matches: seq<Token>) returns (rows: seq<Salary>)
    requires AllWithin(row.fullText, matches)
    ensures rows == TokenRows(row, page, matches)
  {
    rows := [];
    for m := 0 to |matches|
      invariant AllWithin(row.fullText, matches[..m])
      invariant rows == TokenRows(row, page, matches[..m])
    {
      var kept := JudgeMatch(row, page, matches[m]);
      KeptStep(matches, Judge(row, page), m);
      if kept.Some? {
        rows := rows + [kept.value];
      }
    }
    assert matches[..|matches|] == matches;
  }

  // ---------------------------------------------------------------------------
  // Properties of the extracted rows
  // ---------------------------------------------------------------------------

  /** `s` is the row kept for one of the matches on `row`. */
  ghost predicate KeptFrom(s: Salary, row: PageRow) {
    row.pageNum == Some(s.pageNum)
    && exists t :: t in Tokens(row.fullText) && TokenOk(row.fullText, t) && SalaryFor(row, s.pageNum, t) == Some(s)
  }

  lemma TokenRowsSound(row: PageRow, page: int, tokens: seq<Token>, s: Salary)
    requires AllWithin(row.fullText, tokens) && s in TokenRows(row, page, tokens)
    ensures exists t :: t in tokens && Within(row.fullText, t) && SalaryFor(row, page, t) == Some(s)
  {
    KeptSound(tokens, Judge(row, page), s);
    var k :| 0 <= k < |tokens| && Judge(row, page)(tokens[k]) == Some(s);
    assert tokens[k] in tokens;
  }

  /** Every row of a page comes from one of its matches and satisfies the gates. */
  lemma PageSalariesSound(row: PageRow, s: Salary)
    requires s in PageSalaries(row)
    ensures KeptFrom(s, row)
    ensures MinCents <= s.cents <= MaxCents && s.score in {2, 3, 5}
  {
    var page := row.pageNum.value;
    TokenRowsSound(row, page, Tokens(row.fullText), s);
    var t :| t in Tokens(row.fullText) && Within(row.fullText, t) && SalaryFor(row, page, t) == Some(s);
    TokensMember(row.fullText, t);
    SalaryForFacts(row, page, t);
  }

  /**
   * Soundness of the extraction: every row comes from a match on a page with a numeric
   * page number; its amount is within [700.00, 45000.00] and its score is 2, 3 or 5.
   */
  lemma RawSalariesSound(pages: seq<PageRow>, s: Salary)
    requires s in RawSalaries(pages)
    ensures exists i :: 0 <= i < |pages| && KeptFrom(s, pages[i])
    ensures MinCents <= s.cents <= MaxCents && s.score in {2, 3, 5}
  {
    FlatMapSound(pages, PageSalaries, s);
    var i :| 0 <= i < |pages| && s in PageSalaries(pages[i]);
    PageSalariesSound(pages[i], s);
  }

  lemma TokenRowsComplete(row: PageRow, page: int, tokens: seq<Token>, k: nat)
    requires AllWithin(row.fullText, tokens) && k < |tokens|
    requires SalaryFor(row, page, tokens[k]).Some?
    ensures SalaryFor(row, page, tokens[k]).value in TokenRows(row, page, tokens)
  {
    KeptComplete(tokens, Judge(row, page), k);
  }

  /**
   * Completeness of the extraction: every match the rules keep, on a page with a numeric
   * page number, yields a row.
   */
  lemma RawSalariesComplete(pages: seq<PageRow>, i: nat, k: nat)
    requires i < |pages| && pages[i].pageNum.Some? && k < |Tokens(pages[i].fullText)|
    requires SalaryFor(pages[i], pages[i].pageNum.value, Tokens(pages[i].fullText)[k]).Some?
    ensures SalaryFor(pages[i], pages[i].pageNum.value, Tokens(pages[i].fullText)[k]).value in RawSalaries(pages)
  {
    var row := pages[i];
    TokenRowsComplete(row, row.pageNum.value, Tokens(row.fullText), k);
    FlatMapComplete(pages, PageSalaries, i, SalaryFor(row, row.pageNum.value, Tokens(row.fullText)[k]).value);
  }
}
