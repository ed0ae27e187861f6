/**
 * Role extraction (`extract_instruments`): every pattern of the instrument taxonomy is
 * run case-insensitively over every page, each match becomes a candidate with an
 * 80-character evidence window, and the candidates are then reduced to one per
 * (document, page, canonical role), keeping the longest evidence.
 */
module Roles {
  import opened Wrappers
  import opened Text
  import opened Pattern
  import opened Config
  import opened Pages
  import opened Sorting

  /** One row of the role staging table (`entity_type` 'INSTRUMENTO', `confidence` 'HIGH'). */
  datatype RoleCandidate = RoleCandidate(
    docId: string, sourceName: string, pageNum: int, canonical: string,
    rawValue: string, evidence: string, start: nat)

  /** The `drop_duplicates` subset: `(doc_id, page_num, canonical_value)`. */
  datatype GroupKey = GroupKey(docId: string, pageNum: int, canonical: string)

  function KeyOf(c: RoleCandidate): GroupKey {
    GroupKey(c.docId, c.pageNum, c.canonical)
  }

  /** The `evidence_len` column. */
  function EvidenceLen(c: RoleCandidate): int {
    |c.evidence|
  }

  // ---------------------------------------------------------------------------
  // Specification of the raw (pre-deduplication) rows
  // ---------------------------------------------------------------------------

  /** The row appended for the match `sp` of a pattern of `canonical`. */
  function MatchRow(row: PageRow, page: int, canonical: string, sp: Span): RoleCandidate
    requires sp.start <= sp.end <= |row.fullText|
  {
    RoleCandidate(row.docId, SourceOf(row), page, canonical,
                  row.fullText[sp.start..sp.end], Evidence(row.fullText, sp.start, sp.end, RoleWindow), sp.start)
  }

  /** The matches of a pattern list are in range of the text. */
  predicate SpansFit(spans: seq<Span>, text: string) {
    forall k :: 0 <= k < |spans| ==> spans[k].start <= spans[k].end <= |text|
  }

  /** Rows for a list of matches, in match order. */
  function SpanRows(row: PageRow, page: int, canonical: string, spans: seq<Span>): seq<RoleCandidate>
    requires SpansFit(spans, row.fullText)
    decreases |spans|
  {
    if spans == [] then []
    else SpanRows(row, page, canonical, spans[..|spans| - 1])
         + [MatchRow(row, page, canonical, spans[|spans| - 1])]
  }

  /** One more match, one more row. */
  lemma SpanRowsSnoc(row: PageRow, page: int, canonical: string, spans: seq<Span>, m: nat)
    requires SpansFit(spans, row.fullText) && m < |spans|
    ensures SpanRows(row, page, canonical, spans[..m + 1])
         == SpanRows(row, page, canonical, spans[..m]) + [MatchRow(row, page, canonical, spans[m])]
  {
    var next := spans[..m + 1];
    assert next[..|next| - 1] == spans[..m];
  }

  /** The matches of one taxonomy pattern on a page. */
  function PatternSpans(row: PageRow, pattern: string): (r: seq<Span>)
    ensures SpansFit(r, row.fullText)
  {
    FindAll(Compile(pattern), row.fullText, true)
  }

  /** Rows for the patterns `pats` of one canonical role, pattern by pattern. */
  function EntryRows(row: PageRow, page: int, canonical: string, pats: seq<string>): seq<RoleCandidate>
    decreases |pats|
  {
    if pats == [] then []
    else EntryRows(row, page, canonical, pats[..|pats| - 1])
         + SpanRows(row, page, canonical, PatternSpans(row, pats[|pats| - 1]))
  }

  /** Rows for the taxonomy entries `entries`, entry by entry. */
  function TaxonomyRows(row: PageRow, page: int, entries: seq<TaxonomyEntry>): seq<RoleCandidate>
    decreases |entries|
  {
    if entries == [] then []
    else TaxonomyRows(row, page, entries[..|entries| - 1])
         + EntryRows(row, page, entries[|entries| - 1].canonical, entries[|entries| - 1].patterns)
  }

  /** The raw rows of one page; a page whose number is not numeric is skipped. */
  function PageRoles(row: PageRow): seq<RoleCandidate> {
    if row.pageNum.None? then [] else TaxonomyRows(row, row.pageNum.value, InstrumentTaxonomy)
  }

  /** The raw rows of a page table, page by page (`extracted_rows`). */
  function RawRoles(pages: seq<PageRow>): seq<RoleCandidate> {
    FlatMap(pages, PageRoles)
  }

  /**
   * The staging table after `sort_values('evidence_len', ascending=False)` (ties kept in
   * scan order) and `drop_duplicates(subset=['doc_id', 'page_num', 'canonical_value'])`.
   */
  function DedupRoles(raw: seq<RoleCandidate>): seq<RoleCandidate> {
    DropDuplicates(SortDesc(raw, EvidenceLen), KeyOf)
  }

  // ---------------------------------------------------------------------------
  // The scan, as the source runs it
  // ---------------------------------------------------------------------------

  /** The innermost loop of `extract_instruments`: one row per match, with its evidence window. */
  method ScanMatches(row: PageRow, page: int, canonical: string, matches: seq<Span>) returns (rows: seq<RoleCandidate>)
    requires SpansFit(matches, row.fullText)
    ensures rows == SpanRows(row, page, canonical, matches)
  {
    var text := row.fullText;
    rows := [];
    var m := 0;
    while m < |matches|
      invariant 0 <= m <= |matches|
      invariant rows == SpanRows(row, page, canonical, matches[..m])
    {
      var start, end := matches[m].start, matches[m].end;
      var evidence := Evidence(text, start, end, RoleWindow);
      rows := rows + [RoleCandidate(row.docId, SourceOf(row), page, canonical, text[start..end], evidence, start)];
      SpanRowsSnoc(row, page, canonical, matches, m);
      m := m + 1;
    }
    assert matches[..m] == matches;
  }

  /** The pattern loop of `extract_instruments` for one canonical role. */
  method ScanPatterns(row: PageRow, page: int, canonical: string, patterns: seq<string>) returns (rows: seq<RoleCandidate>)
    ensures rows == EntryRows(row, page, canonical, patterns)
  {
    rows := [];
    var k := 0;
    while k < |patterns|
      invariant 0 <= k <= |patterns|
      invariant rows == EntryRows(row, page, canonical, patterns[..k])
    {
      var found := ScanMatches(row, page, canonical, FindAll(Compile(patterns[k]), row.fullText, true));
      rows := rows + found;
      assert patterns[..k + 1][..k] == patterns[..k];
      k := k + 1;
    }
    assert patterns[..k] == patterns;
  }

  /**
   * The taxonomy loop of `extract_instruments` for one page with a numeric page number:
   * for each canonical role, in table order, the rows of its patterns.
   */
  method ScanPageRoles(row: PageRow, page: int, taxonomy: seq<TaxonomyEntry>) returns (rows: seq<RoleCandidate>)
    ensures rows == TaxonomyRows(row, page, taxonomy)
  {
    rows := [];
    var j := 0;
    while j < |taxonomy|
      invariant 0 <= j <= |taxonomy|
      invariant rows == TaxonomyRows(row, page, taxonomy[..j])
    {
      var found := ScanPatterns(row, page, taxonomy[j].canonical, taxonomy[j].patterns);
      rows := rows + found;
      assert taxonomy[..j + 1][..j] == taxonomy[..j];
      j := j + 1;
    }
    assert taxonomy[..j] == taxonomy;
  }

  // ---------------------------------------------------------------------------
  // Properties of the raw rows
  // ---------------------------------------------------------------------------

  /**
   * `c` was cut from `row`: same document, source and page number, its raw value is a
   * non-empty slice of the page text at offset `start`, and its evidence is the
   * 80-character window around that slice.
   */
  ghost predicate CutFrom(c: RoleCandidate, row: PageRow) {
    && row.pageNum == Some(c.pageNum) && c.docId == row.docId && c.sourceName == SourceOf(row)
    && c.rawValue != [] && c.start + |c.rawValue| <= |row.fullText|
    && c.rawValue == row.fullText[c.start..c.start + |c.rawValue|]
    && c.evidence == Evidence(row.fullText, c.start, c.start + |c.rawValue|, RoleWindow)
  }

  /** `c`'s slice is one of the matches `re.finditer` reports for `pat` on the page. */
  ghost predicate MatchedAt(c: RoleCandidate, row: PageRow, pat: string) {
    Span(c.start, c.start + |c.rawValue|) in PatternSpans(row, pat)
  }

  /** Some pattern of `pats` matches exactly on `c`'s slice. */
  ghost predicate MatchedBy(c: RoleCandidate, row: PageRow, pats: seq<string>) {
    exists p :: p in pats && MatchedAt(c, row, p)
  }

  /** `c` is a match of a pattern of the taxonomy entry named by its canonical role. */
  ghost predicate FoundOn(c: RoleCandidate, row: PageRow) {
    CutFrom(c, row) && exists e :: e in InstrumentTaxonomy && e.canonical == c.canonical && MatchedBy(c, row, e.patterns)
  }

  /** Every row of a match list is the row of one of its matches. */
  lemma {:induction false} SpanRowsMember(row: PageRow, page: int, canonical: string, spans: seq<Span>, c: RoleCandidate)
    requires SpansFit(spans, row.fullText)
    requires c in SpanRows(row, page, canonical, spans)
    ensures exists k :: 0 <= k < |spans| && c == MatchRow(row, page, canonical, spans[k])
  {
    var init := spans[..|spans| - 1];
    if c in SpanRows(row, page, canonical, init) {
      SpanRowsMember(row, page, canonical, init, c);
      var k :| 0 <= k < |init| && c == MatchRow(row, page, canonical, init[k]);
      assert init[k] == spans[k];
    } else {
      assert c == MatchRow(row, page, canonical, spans[|spans| - 1]);
    }
  }

  /** A row of a match list is cut from its page. */
  lemma SpanRowsCut(row: PageRow, page: int, canonical: string, spans: seq<Span>, c: RoleCandidate)
    requires row.pageNum == Some(page) && SpansFit(spans, row.fullText)
    requires forall k :: 0 <= k < |spans| ==> spans[k].start < spans[k].end
    requires c in SpanRows(row, page, canonical, spans)
    ensures CutFrom(c, row) && c.canonical == canonical
  {
    SpanRowsMember(row, page, canonical, spans, c);
    var k :| 0 <= k < |spans| && c == MatchRow(row, page, canonical, spans[k]);
    MatchRowCut(row, page, canonical, spans[k]);
  }

  /** A row of the match list of `pat` lies on one of its matches. */
  lemma SpanRowsMatched(row: PageRow, page: int, canonical: string, pat: string, c: RoleCandidate)
    requires c in SpanRows(row, page, canonical, PatternSpans(row, pat))
    ensures MatchedAt(c, row, pat)
  {
    SpanRowsSpan(row, page, canonical, PatternSpans(row, pat), c);
  }

  /** A row of a match list covers exactly one of its matches. */
  lemma SpanRowsSpan(row: PageRow, page: int, canonical: string, spans: seq<Span>, c: RoleCandidate)
    requires SpansFit(spans, row.fullText)
    requires c in SpanRows(row, page, canonical, spans)
    ensures Span(c.start, c.start + |c.rawValue|) in spans
  {
    SpanRowsMember(row, page, canonical, spans, c);
    var k :| 0 <= k < |spans| && c == MatchRow(row, page, canonical, spans[k]);
    assert c.start == spans[k].start && c.rawValue == row.fullText[spans[k].start..spans[k].end];
    assert Span(c.start, c.start + |c.rawValue|) == spans[k];
  }

  /** The row of a non-empty match is cut from its page. */
  lemma MatchRowCut(row: PageRow, page: int, canonical: string, sp: Span)
    requires row.pageNum == Some(page) && sp.start < sp.end <= |row.fullText|
    ensures CutFrom(MatchRow(row, page, canonical, sp), row)
  {
    var c := MatchRow(row, page, canonical, sp);
    assert |c.rawValue| == sp.end - sp.start;
  }

  lemma {:induction false} EntryRowsFound(row: PageRow, page: int, canonical: string, pats: seq<string>, c: RoleCandidate)
    requires row.pageNum == Some(page)
    requires c in EntryRows(row, page, canonical, pats)
    ensures CutFrom(c, row) && c.canonical == canonical && MatchedBy(c, row, pats)
  {
    var init, pat := pats[..|pats| - 1], pats[|pats| - 1];
    if c in EntryRows(row, page, canonical, init) {
      EntryRowsFound(row, page, canonical, init, c);
      var p :| p in init && MatchedAt(c, row, p);
      assert p in pats;
    } else {
      var spans := PatternSpans(row, pat);
      SpanRowsCut(row, page, canonical, spans, c);
      SpanRowsMatched(row, page, canonical, pat, c);
    }
  }

  lemma {:induction false} TaxonomyRowsFound(row: PageRow, page: int, entries: seq<TaxonomyEntry>, c: RoleCandidate)
    requires row.pageNum == Some(page)
    requires c in TaxonomyRows(row, page, entries)
    ensures CutFrom(c, row)
    ensures exists e :: e in entries && e.canonical == c.canonical && MatchedBy(c, row, e.patterns)
  {
    var init, e := entries[..|entries| - 1], entries[|entries| - 1];
    if c in TaxonomyRows(row, page, init) {
      TaxonomyRowsFound(row, page, init, c);
      var e' :| e' in init && e'.canonical == c.canonical && MatchedBy(c, row, e'.patterns);
      assert e' in entries;
    } else {
      EntryRowsFound(row, page, e.canonical, e.patterns, c);
    }
  }

  /**
   * Soundness of the scan: every raw row is a match, on a page with a numeric page
   * number, of one of the patterns of its canonical role.
   */
  lemma RawRolesFound(pages: seq<PageRow>, c: RoleCandidate)
    requires c in RawRoles(pages)
    ensures exists i :: 0 <= i < |pages| && FoundOn(c, pages[i])
  {
    FlatMapSound(pages, PageRoles, c);
    var i :| 0 <= i < |pages| && c in PageRoles(pages[i]);
    TaxonomyRowsFound(pages[i], pages[i].pageNum.value, InstrumentTaxonomy, c);
  }

  lemma {:induction false} SpanRowsComplete(row: PageRow, page: int, canonical: string, spans: seq<Span>, k: nat)
    requires SpansFit(spans, row.fullText) && k < |spans|
    ensures MatchRow(row, page, canonical, spans[k]) in SpanRows(row, page, canonical, spans)
  {
    if k < |spans| - 1 {
      SpanRowsComplete(row, page, canonical, spans[..|spans| - 1], k);
    }
  }

  lemma {:induction false} EntryRowsComplete(row: PageRow, page: int, canonical: string, pats: seq<string>, pat: string, sp: Span)
    requires pat in pats && sp in PatternSpans(row, pat)
    ensures sp.start <= sp.end <= |row.fullText|
    ensures MatchRow(row, page, canonical, sp) in EntryRows(row, page, canonical, pats)
  {
    var init := pats[..|pats| - 1];
    if pat == pats[|pats| - 1] {
      var spans := PatternSpans(row, pat);
      var k :| 0 <= k < |spans| && spans[k] == sp;
      SpanRowsComplete(row, page, canonical, spans, k);
    } else {
      assert pat in init;
      EntryRowsComplete(row, page, canonical, init, pat, sp);
    }
  }

  lemma {:induction false} TaxonomyRowsComplete(row: PageRow, page: int, entries: seq<TaxonomyEntry>, e: TaxonomyEntry, pat: string, sp: Span)
    requires e in entries && pat in e.patterns && sp in PatternSpans(row, pat)
    ensures sp.start <= sp.end <= |row.fullText|
    ensures MatchRow(row, page, e.canonical, sp) in TaxonomyRows(row, page, entries)
  {
    var init, last := entries[..|entries| - 1], entries[|entries| - 1];
    if e == last {
      EntryRowsComplete(row, page, e.canonical, e.patterns, pat, sp);
    } else {
      assert e in init;
      TaxonomyRowsComplete(row, page, init, e, pat, sp);
    }
  }

  /**
   * Completeness of the scan: every match of every taxonomy pattern on a page with a
   * numeric page number yields a raw row.
   */
  lemma RawRolesComplete(pages: seq<PageRow>, i: nat, e: TaxonomyEntry, pat: string, sp: Span)
    requires i < |pages| && pages[i].pageNum.Some?
    requires e in InstrumentTaxonomy && pat in e.patterns && sp in PatternSpans(pages[i], pat)
    ensures sp.start <= sp.end <= |pages[i].fullText|
    ensures MatchRow(pages[i], pages[i].pageNum.value, e.canonical, sp) in RawRoles(pages)
  {
    TaxonomyRowsComplete(pages[i], pages[i].pageNum.value, InstrumentTaxonomy, e, pat, sp);
    FlatMapComplete(pages, PageRoles, i, MatchRow(pages[i], pages[i].pageNum.value, e.canonical, sp));
  }

  /**
   * A whole-word mention of a bare taxonomy keyword, in any letter case, on a page with
   * a page number always leaves a staged row of that role for the page.
   */
  lemma BareMentionStaged(pages: seq<PageRow>, i: nat, e: TaxonomyEntry, pat: string, q: nat)
    requires i < |pages| && pages[i].pageNum.Some?
    requires e in InstrumentTaxonomy && pat in e.patterns
    requires !IsComplex(pat) && WordPattern(pat) && pat != []
    requires q + |pat| <= |pages[i].fullText|
    requires SameLetters(pages[i].fullText[q..q + |pat|], pat)
    requires !WordBefore(pages[i].fullText, q) && !WordAfter(pages[i].fullText, q + |pat|)
    ensures exists y :: y in DedupRoles(RawRoles(pages))
              && y.docId == pages[i].docId && y.pageNum == pages[i].pageNum.value && y.canonical == e.canonical
  {
    var row := pages[i];
    BareMentionSpans(row, pat, q);
    var spans := PatternSpans(row, pat);
    var k :| 0 <= k < |spans| && spans[k].start <= q < spans[k].end;
    RawRolesComplete(pages, i, e, pat, spans[k]);
    DedupKeepsKey(RawRoles(pages), MatchRow(row, row.pageNum.value, e.canonical, spans[k]));
  }

  /** The mention lies inside a match the scan of the pattern reports. */
  lemma BareMentionSpans(row: PageRow, pat: string, q: nat)
    requires !IsComplex(pat) && WordPattern(pat) && pat != []
    requires q + |pat| <= |row.fullText| && SameLetters(row.fullText[q..q + |pat|], pat)
    requires !WordBefore(row.fullText, q) && !WordAfter(row.fullText, q + |pat|)
    ensures SpansCover(PatternSpans(row, pat), q)
  {
    BareMatchIsWholeWord(pat, row.fullText, q);
    BareMatch(pat, row.fullText, q);
    FindFromComplete(Compile(pat), row.fullText, 0, true, q);
  }

  /** Deduplication keeps a row of every key of the raw table. */
  lemma DedupKeepsKey(raw: seq<RoleCandidate>, x: RoleCandidate)
    requires x in raw
    ensures exists y :: y in DedupRoles(raw) && KeyOf(y) == KeyOf(x)
  {
    DedupRolesFacts(raw);
  }

  // ---------------------------------------------------------------------------
  // Properties of the deduplication
  // ---------------------------------------------------------------------------

  /** Same group and same evidence length as `y`: the rows that tie with `y`. */
  function TiesWith(y: RoleCandidate): RoleCandidate -> bool {
    (x: RoleCandidate) => KeyOf(x) == KeyOf(y) && |x.evidence| == |y.evidence|
  }

  /**
   * The deduplicated table: at most one row per (document, page, canonical role);
   * every surviving row is a raw row whose evidence is at least as long as that of
   * every raw row of its group; every group of the raw rows survives; and the
   * survivors are ordered by evidence length, longest first.
   */
  lemma DedupRolesFacts(raw: seq<RoleCandidate>)
    ensures forall i, j :: 0 <= i < j < |DedupRoles(raw)| ==> KeyOf(DedupRoles(raw)[i]) != KeyOf(DedupRoles(raw)[j])
    ensures forall y :: y in DedupRoles(raw) ==> y in raw
    ensures forall y, x :: y in DedupRoles(raw) && x in raw && KeyOf(x) == KeyOf(y) ==> |x.evidence| <= |y.evidence|
    ensures forall x :: x in raw ==> exists y :: y in DedupRoles(raw) && KeyOf(y) == KeyOf(x)
    ensures SortedDesc(DedupRoles(raw), EvidenceLen)
  {
    var s := SortDesc(raw, EvidenceLen);
    DropDuplicatesFacts(s, KeyOf);
    DropDuplicatesSorted(s, KeyOf, EvidenceLen);
    forall y | y in DedupRoles(raw) ensures y in raw {
      var i :| 0 <= i < |s| && s[i] == y && FirstOfKey(s, KeyOf, i);
      assert y in multiset(s);
    }
    forall y, x | y in DedupRoles(raw) && x in raw && KeyOf(x) == KeyOf(y) ensures |x.evidence| <= |y.evidence| {
      DedupRolesMaximal(raw, y, x);
    }
    forall x | x in raw ensures exists y :: y in DedupRoles(raw) && KeyOf(y) == KeyOf(x) {
      assert x in multiset(s);
      assert x in s;
    }
  }

  /** The survivor of a group has evidence at least as long as every row of the group. */
  lemma DedupRolesMaximal(raw: seq<RoleCandidate>, y: RoleCandidate, x: RoleCandidate)
    requires y in DedupRoles(raw) && x in raw && KeyOf(x) == KeyOf(y)
    ensures |x.evidence| <= |y.evidence|
  {
    var s := SortDesc(raw, EvidenceLen);
    DropDuplicatesFacts(s, KeyOf);
    var i :| 0 <= i < |s| && s[i] == y && FirstOfKey(s, KeyOf, i);
    assert x in multiset(s);
    var j :| 0 <= j < |s| && s[j] == x;
    assert i <= j;
    assert EvidenceLen(s[i]) >= EvidenceLen(s[j]);
  }

  /**
   * Tie-break: among the raw rows of its group with the same (maximal) evidence length,
   * the survivor is the first one in scan order.
   */
  lemma DedupTieBreak(raw: seq<RoleCandidate>, y: RoleCandidate)
    requires y in DedupRoles(raw)
    ensures Filter(raw, TiesWith(y)) != [] && Filter(raw, TiesWith(y))[0] == y
  {
    var s := SortDesc(raw, EvidenceLen);
    var P := TiesWith(y);
    DropDuplicatesFacts(s, KeyOf);
    var i :| 0 <= i < |s| && s[i] == y && FirstOfKey(s, KeyOf, i);
    SortStable(raw, EvidenceLen, P, |y.evidence|);
    FirstFilter(s, P, i);
  }

}
