/**
 * `GoldProcessor`: the gold stage of the pipeline. It holds the page table and the three
 * tables it derives from it, each filled by one stage: the role candidates, the salaries
 * and the opportunities.
 */
module Processor {
  import opened Wrappers
  import opened Config
  import opened Pages
  import opened Sorting
  import opened Amount
  import opened Roles
  import opened Salaries
  import opened Matchmaker

  class GoldProcessor {
    /** `silver_data`: the page table after `load_data`. */
    var silverData: seq<PageRow>
    /** `candidates`: the deduplicated role staging table. */
    var candidates: seq<RoleCandidate>
    /** `salaries`: the salary staging table, highest score first. */
    var salaries: seq<Salary>
    /** `opportunities`: the gold table. */
    var opportunities: seq<Opportunity>

    /** `__init__` followed by `load_data`, which leaves `pages` in `silver_data`. */
    constructor (pages: seq<PageRow>)
      ensures silverData == pages
      ensures candidates == [] && salaries == [] && opportunities == []
    {
      silverData := pages;
      candidates := [];
      salaries := [];
      opportunities := [];
    }

    /**
     * `extract_instruments`: every page with a numeric page number is scanned with the
     * whole taxonomy; the rows are then sorted by evidence length, longest first, and
     * reduced to one per (document, page, canonical role).
     */
    method ExtractInstruments()
      modifies this
      ensures candidates == DedupRoles(RawRoles(silverData))
      ensures silverData == old(silverData) && salaries == old(salaries)
      ensures opportunities == old(opportunities)
    {
      var pages := silverData;
      var extractedRows: seq<RoleCandidate> := [];
      for i := 0 to |pages|
        invariant extractedRows == RawRoles(pages[..i])
        invariant unchanged(this)
      {
        var row := pages[i];
        FlatMapStep(pages, PageRoles, i);
        if row.pageNum.None? {
          continue;
        }
        var found := ScanPageRoles(row, row.pageNum.value, InstrumentTaxonomy);
        extractedRows := extractedRows + found;
      }
      assert pages[..|pages|] == pages;
      candidates := DedupRoles(extractedRows);
    }

    /**
     * `extract_salaries`: every match of the salary pattern on a page with a numeric page
     * number is judged; the kept rows are sorted by score, highest first.
     */
    method ExtractSalaries()
      modifies this
      ensures salaries == SortDesc(RawSalaries(silverData), ScoreOf)
      ensures silverData == old(silverData) && candidates == old(candidates)
      ensures opportunities == old(opportunities)
    {
      var pages := silverData;
      var extractedRows: seq<Salary> := [];
      for i := 0 to |pages|
        invariant extractedRows == RawSalaries(pages[..i])
        invariant unchanged(this)
      {
        var row := pages[i];
        FlatMapStep(pages, PageSalaries, i);
        if row.pageNum.None? {
          continue;
        }
        var matches := Tokens(row.fullText);
        var found := ScanPageSalaries(row, row.pageNum.value, matches);
        extractedRows := extractedRows + found;
      }
      assert pages[..|pages|] == pages;
      salaries := SortDesc(extractedRows, ScoreOf);
    }

    /**
     * `match_opportunities`: without candidates nothing happens; otherwise the salaries
     * are indexed by page and every candidate yields one row, in candidate order.
     */
    method MatchOpportunities()
      modifies this
      ensures old(candidates) == [] ==> opportunities == old(opportunities)
      ensures old(candidates) != [] ==> opportunities == Opportunities(candidates, salaries)
      ensures silverData == old(silverData) && candidates == old(candidates) && salaries == old(salaries)
    {
      if candidates == [] {
        return;
      }
      var roles, table := candidates, salaries;
      var salariesMap := IndexSalaries(table);
      var finalRows: seq<Opportunity> := [];
      for i := 0 to |roles|
        invariant finalRows == Opportunities(roles[..i], table)
        invariant unchanged(this)
      {
        var row := MatchCandidate(roles[i], salariesMap, table);
        finalRows := finalRows + [row];
      }
      assert roles[..|roles|] == roles;
      opportunities := finalRows;
    }
  }

  /** The three stages in the order the pipeline runs them, as functions of the page table. */
  function GoldTable(pages: seq<PageRow>): seq<Opportunity> {
    var candidates := DedupRoles(RawRoles(pages));
    if candidates == [] then [] else Opportunities(candidates, SortDesc(RawSalaries(pages), ScoreOf))
  }

  /** Running the stages on a fresh processor produces the gold table of its pages. */
  method RunPipeline(pages: seq<PageRow>) returns (p: GoldProcessor)
    ensures p.opportunities == GoldTable(pages)
  {
    p := new GoldProcessor(pages);
    p.ExtractInstruments();
    p.ExtractSalaries();
    p.MatchOpportunities();
  }

  /** Every row of the table is the row of one of the candidates, with the salary (if any) of one of the salaries. */
  lemma OpportunitiesFrom(candidates: seq<RoleCandidate>, salaries: seq<Salary>, o: Opportunity)
    requires o in Opportunities(candidates, salaries)
    ensures exists c :: c in candidates && c.docId == o.docId && c.pageNum == o.pageNum && c.canonical == o.instrument
    ensures o.matchType == PageProximity ==>
              exists s :: s in salaries && o.salaryCents == Some(s.cents) && o.salaryScore == s.score
  {
    var k :| 0 <= k < |candidates| && Opportunities(candidates, salaries)[k] == o;
    RoleColumns(candidates[k], salaries);
    ProximityRow(candidates[k], salaries);
  }

  /**
   * Every row of the gold table belongs to a raw role row of its document, page and
   * role; a row with a salary carries an amount in [700.00, 45000.00] with score 2, 3
   * or 5.
   */
  lemma GoldTableSound(pages: seq<PageRow>, o: Opportunity)
    requires o in GoldTable(pages)
    ensures exists c :: c in RawRoles(pages) && c.docId == o.docId && c.pageNum == o.pageNum && c.canonical == o.instrument
    ensures o.matchType == PageProximity ==>
              o.salaryCents.Some? && MinCents <= o.salaryCents.value <= MaxCents && o.salaryScore in {2, 3, 5}
  {
    var raw := RawRoles(pages);
    var candidates := DedupRoles(raw);
    var salaries := SortDesc(RawSalaries(pages), ScoreOf);
    OpportunitiesFrom(candidates, salaries, o);
    var c :| c in candidates && c.docId == o.docId && c.pageNum == o.pageNum && c.canonical == o.instrument;
    DedupRolesFacts(raw);
    assert c in raw;
    if o.matchType == PageProximity {
      var s :| s in salaries && o.salaryCents == Some(s.cents) && o.salaryScore == s.score;
      assert s in multiset(salaries);
      RawSalariesSound(pages, s);
    }
  }
}
