/**
 * The matchmaker of `match_opportunities`: each role candidate is paired with the best
 * salary of its own page less than 3000 characters away (highest score, then smallest
 * distance, then first in table order), classified by bond, and written as one row of
 * the opportunity table.
 */
module Matchmaker {
  import opened Wrappers
  import opened Text
  import opened Config
  import opened Pages
  import opened Sorting
  import opened Roles
  import opened Salaries
  import opened Bonds
  import opened Display

  /** The `match_type` column. */
  datatype MatchType = PageProximity | NoMatch {
    function Label(): string {
      match this
      case PageProximity => "PAGE_PROXIMITY"
      case NoMatch => "NO_MATCH"
    }
  }

  /**
   * One row of the opportunity table. `salaryCents` is `salario_valor` (`None` for a row
   * without salary), `distance` is `distancia_chars` and `display` is `salario_formatado`.
   */
  datatype Opportunity = Opportunity(
    docId: string, sourceName: string, pageNum: int, instrument: string, roleEvidence: string,
    bond: Bond, salaryCents: Option<nat>, salaryScore: int, distance: int,
    salaryEvidence: Option<string>, matchType: MatchType, display: string)

  function SalaryPage(s: Salary): PageKey {
    PageKey(s.docId, s.pageNum)
  }

  function RolePage(c: RoleCandidate): PageKey {
    PageKey(c.docId, c.pageNum)
  }

  function OnPage(key: PageKey): Salary -> bool {
    s => SalaryPage(s) == key
  }

  // ---------------------------------------------------------------------------
  // The salary index (`salaries_map`)
  // ---------------------------------------------------------------------------

  /** `salaries_map.get(key, [])`. */
  function Lookup(index: map<PageKey, seq<Salary>>, key: PageKey): seq<Salary> {
    if key in index then index[key] else []
  }

  /**
   * The first loop of `match_opportunities`: every salary is appended to the list of its
   * page, so each page gets its salaries in table order and pages without salaries get
   * no entry.
   */
  method IndexSalaries(salaries: seq<Salary>) returns (index: map<PageKey, seq<Salary>>)
    ensures forall key :: Lookup(index, key) == Filter(salaries, OnPage(key))
    ensures forall key :: key in index ==> index[key] != []
  {
    index := map[];
    for i := 0 to |salaries|
      invariant forall key :: Lookup(index, key) == Filter(salaries[..i], OnPage(key))
      invariant forall key :: key in index ==> index[key] != []
    {
      var s := salaries[i];
      var key := SalaryPage(s);
      var bucket := if key in index then index[key] else [];
      index := index[key := bucket + [s]];
      forall k ensures Lookup(index, k) == Filter(salaries[..i + 1], OnPage(k)) {
        FilterSnoc(salaries, OnPage(k), i);
      }
    }
    assert salaries[..|salaries|] == salaries;
  }

  // ---------------------------------------------------------------------------
  // Salaries near a role (`valid_candidates`)
  // ---------------------------------------------------------------------------

  /** A salary of the page and its distance to the role. */
  datatype Nearby = Nearby(salary: Salary, dist: nat)

  /** `abs(a - b)`. */
  function Distance(a: nat, b: nat): nat {
    if a >= b then a - b else b - a
  }

  /** The salaries of `ss` less than 3000 characters from `pos`, in order, with their distance. */
  function NearbyOf(pos: nat, ss: seq<Salary>): (r: seq<Nearby>)
    ensures forall k :: 0 <= k < |r| ==> r[k].dist < ProximityWindow
    decreases |ss|
  {
    if ss == [] then []
    else
      var s := ss[|ss| - 1];
      var d := Distance(pos, s.start);
      NearbyOf(pos, ss[..|ss| - 1]) + (if d < ProximityWindow then [Nearby(s, d)] else [])
  }

  /** Exactly the salaries within the window are listed, each with its distance. */
  lemma {:induction false} NearbyOfMembers(pos: nat, ss: seq<Salary>, n: Nearby)
    ensures n in NearbyOf(pos, ss) <==>
              n.salary in ss && n.dist == Distance(pos, n.salary.start) && n.dist < ProximityWindow
    decreases |ss|
  {
    if ss != [] {
      var init := ss[..|ss| - 1];
      NearbyOfMembers(pos, init, n);
      assert ss == init + [ss[|ss| - 1]];
    }
  }

  /** The loop that collects `valid_candidates`. */
  method CollectNearby(pos: nat, possible: seq<Salary>) returns (valid: seq<Nearby>)
    ensures valid == NearbyOf(pos, possible)
  {
    valid := [];
    for i := 0 to |possible|
      invariant valid == NearbyOf(pos, possible[..i])
    {
      var sal := possible[i];
      var dist := Distance(pos, sal.start);
      if dist < ProximityWindow {
        valid := valid + [Nearby(sal, dist)];
      }
      assert possible[..i + 1][..i] == possible[..i];
    }
    assert possible[..|possible|] == possible;
  }

  // ---------------------------------------------------------------------------
  // The best salary
  // ---------------------------------------------------------------------------

  /**
   * The sort key `(-score, dist)` as one integer, larger first: within the window the
   * distance is below 3000, so a higher score always outranks a shorter distance.
   */
  function Rank(n: Nearby): int {
    n.salary.score * ProximityWindow + (ProximityWindow - 1 - n.dist)
  }

  /** `n` is at least as good as `m`: a higher score, or the same score and no farther. */
  predicate AtLeastAsGood(n: Nearby, m: Nearby) {
    n.salary.score > m.salary.score || (n.salary.score == m.salary.score && n.dist <= m.dist)
  }

  /** The rank orders window entries by score, then by distance. */
  lemma RankOrder(n: Nearby, m: Nearby)
    requires n.dist < ProximityWindow && m.dist < ProximityWindow
    ensures Rank(n) >= Rank(m) <==> AtLeastAsGood(n, m)
    ensures Rank(n) == Rank(m) <==> n.salary.score == m.salary.score && n.dist == m.dist
  {
  }

  /** `valid_candidates.sort(key=lambda x: (-x[0]['score'], x[1]))` then `[0]`; the sort is stable. */
  function Best(valid: seq<Nearby>): Option<Nearby> {
    if valid == [] then None else Some(SortDesc(valid, Rank)[0])
  }

  function RankIs(v: int): Nearby -> bool {
    n => Rank(n) == v
  }

  /**
   * The chosen salary is in the window, at least as good as every other entry, and the
   * first entry of its score and distance: every entry before it is strictly worse.
   */
  lemma BestFacts(valid: seq<Nearby>)
    requires forall k :: 0 <= k < |valid| ==> valid[k].dist < ProximityWindow
    ensures Best(valid).Some? <==> valid != []
    ensures Best(valid).Some? ==>
              var b := Best(valid).value;
              && b in valid
              && (forall n :: n in valid ==> AtLeastAsGood(b, n))
              && exists j :: 0 <= j < |valid| && valid[j] == b
                             && forall i :: 0 <= i < j ==> !AtLeastAsGood(valid[i], b)
  {
    if valid != [] {
      var sorted := SortDesc(valid, Rank);
      var b := sorted[0];
      assert b in multiset(valid);
      forall n | n in valid ensures AtLeastAsGood(b, n) {
        assert n in multiset(sorted);
        var k :| 0 <= k < |sorted| && sorted[k] == n;
        assert Rank(b) >= Rank(n);
        RankOrder(b, n);
      }
      var p := RankIs(Rank(b));
      SortStable(valid, Rank, p, Rank(b));
      FirstFilter(sorted, p, 0);
      FilterHead(valid, p);
      var j :| 0 <= j < |valid| && valid[j] == Filter(valid, p)[0] && p(valid[j])
               && forall i :: 0 <= i < j ==> !p(valid[i]);
      forall i | 0 <= i < j ensures !AtLeastAsGood(valid[i], b) {
        assert valid[i] in valid;
        RankOrder(b, valid[i]);
        RankOrder(valid[i], b);
      }
    }
  }

  // ---------------------------------------------------------------------------
  // One row per candidate
  // ---------------------------------------------------------------------------

  /** `valid_candidates` for a role: its page's salaries in the window. */
  function Window(c: RoleCandidate, salaries: seq<Salary>): seq<Nearby> {
    NearbyOf(c.start, Filter(salaries, OnPage(RolePage(c))))
  }

  /** `combined_context`: the role evidence, a space and the salary evidence, normalised. */
  function CombinedContext(roleEvidence: string, salaryEvidence: string): string {
    Normalize(roleEvidence + " " + salaryEvidence)
  }

  /** The row `match_opportunities` writes for a candidate. */
  function OpportunityFor(c: RoleCandidate, salaries: seq<Salary>): Opportunity {
    var best := Best(Window(c, salaries));
    var salaryEvidence := if best.Some? then best.value.salary.evidence else "";
    var bond := BondOf(CombinedContext(c.evidence, salaryEvidence), BondKeywords);
    match best
    case Some(n) =>
      Opportunity(c.docId, c.sourceName, c.pageNum, c.canonical, c.evidence, bond,
                  Some(n.salary.cents), n.salary.score, n.dist, Some(n.salary.evidence),
                  PageProximity, FormatReal(Some(n.salary.cents)))
    case None =>
      Opportunity(c.docId, c.sourceName, c.pageNum, c.canonical, c.evidence, bond,
                  None, 0, -1, None, NoMatch, FormatReal(None))
  }

  /** The table `match_opportunities` builds: one row per candidate, in candidate order. */
  function Opportunities(candidates: seq<RoleCandidate>, salaries: seq<Salary>): (r: seq<Opportunity>)
    ensures |r| == |candidates|
  {
    seq(|candidates|, i requires 0 <= i < |candidates| => OpportunityFor(candidates[i], salaries))
  }

  /** The body of the loop over the candidates. */
  method MatchCandidate(c: RoleCandidate, index: map<PageKey, seq<Salary>>, ghost salaries: seq<Salary>)
    returns (row: Opportunity)
    requires forall key :: Lookup(index, key) == Filter(salaries, OnPage(key))
    ensures row == OpportunityFor(c, salaries)
  {
    var possible := Lookup(index, RolePage(c));
    var valid := CollectNearby(c.start, possible);
    var best: Option<Nearby> := None;
    var minDist: int := -1;
    if valid != [] {
      var sorted := SortDesc(valid, Rank);
      best := Some(sorted[0]);
      minDist := sorted[0].dist;
    }
    var salEvidence := if best.Some? then best.value.salary.evidence else "";
    var combinedContext := Normalize(c.evidence + " " + salEvidence);
    var detectedBond := DetectBond(combinedContext, BondKeywords);
    if best.Some? {
      var sal := best.value.salary;
      row := Opportunity(c.docId, c.sourceName, c.pageNum, c.canonical, c.evidence, detectedBond,
                         Some(sal.cents), sal.score, minDist, Some(sal.evidence), PageProximity,
                         FormatReal(Some(sal.cents)));
    } else {
      row := Opportunity(c.docId, c.sourceName, c.pageNum, c.canonical, c.evidence, detectedBond,
                         None, 0, -1, None, NoMatch, FormatReal(None));
    }
  }

  // ---------------------------------------------------------------------------
  // Properties of a row
  // ---------------------------------------------------------------------------

  /** `s` is a salary of the role's page less than 3000 characters from it. */
  predicate InReach(c: RoleCandidate, s: Salary) {
    SalaryPage(s) == RolePage(c) && Distance(c.start, s.start) < ProximityWindow
  }

  lemma WindowMembers(c: RoleCandidate, salaries: seq<Salary>, n: Nearby)
    ensures n in Window(c, salaries) <==>
              n.salary in salaries && InReach(c, n.salary) && n.dist == Distance(c.start, n.salary.start)
  {
    NearbyOfMembers(c.start, Filter(salaries, OnPage(RolePage(c))), n);
    FilterMembers(salaries, OnPage(RolePage(c)), n.salary);
  }

  /** A row carries its candidate's document, source, page, role and evidence. */
  lemma RoleColumns(c: RoleCandidate, salaries: seq<Salary>)
    ensures var o := OpportunityFor(c, salaries);
      o.docId == c.docId && o.sourceName == c.sourceName && o.pageNum == c.pageNum
      && o.instrument == c.canonical && o.roleEvidence == c.evidence
  {
  }

  /**
   * NO_MATCH exactly when no salary of the page is within reach; such a row has no
   * amount, score 0, distance -1, no salary evidence and shows "Não Informado".
   */
  lemma NoMatchRow(c: RoleCandidate, salaries: seq<Salary>)
    ensures var o := OpportunityFor(c, salaries);
      o.matchType == NoMatch <==> forall s :: s in salaries ==> !InReach(c, s)
    ensures var o := OpportunityFor(c, salaries);
      o.matchType == NoMatch ==>
        o.salaryCents == None && o.salaryScore == 0 && o.distance == -1 && o.salaryEvidence == None
        && o.display == "Não Informado"
  {
    var w := Window(c, salaries);
    BestFacts(w);
    if w != [] {
      var n := w[0];
      WindowMembers(c, salaries, n);
    } else {
      forall s | s in salaries ensures !InReach(c, s) {
        WindowMembers(c, salaries, Nearby(s, Distance(c.start, s.start)));
      }
    }
  }

  /**
   * A PAGE_PROXIMITY row takes amount, score and evidence from a salary of the same page
   * within reach, records its distance and shows its amount; no salary within reach has a
   * higher score, or the same score and a shorter distance.
   */
  lemma ProximityRow(c: RoleCandidate, salaries: seq<Salary>)
    ensures var o := OpportunityFor(c, salaries);
      o.matchType == PageProximity ==>
        exists s :: s in salaries && InReach(c, s)
          && o.distance == Distance(c.start, s.start)
          && o.salaryCents == Some(s.cents) && o.salaryScore == s.score
          && o.salaryEvidence == Some(s.evidence) && o.display == FormatReal(Some(s.cents))
          && forall s' :: s' in salaries && InReach(c, s') ==>
               s'.score < s.score
               || (s'.score == s.score && Distance(c.start, s.start) <= Distance(c.start, s'.start))
  {
    var w := Window(c, salaries);
    BestFacts(w);
    if w != [] {
      var b := Best(w).value;
      WindowMembers(c, salaries, b);
      forall s' | s' in salaries && InReach(c, s')
        ensures s'.score < b.salary.score
                || (s'.score == b.salary.score && b.dist <= Distance(c.start, s'.start))
      {
        WindowMembers(c, salaries, Nearby(s', Distance(c.start, s'.start)));
      }
    }
  }

  /**
   * On ties the salary listed first wins: the row's salary columns are those of one entry
   * of the window list, and every entry before it has a lower score, or the same score
   * and a longer distance.
   */
  lemma ProximityTieBreak(c: RoleCandidate, salaries: seq<Salary>)
    ensures var o := OpportunityFor(c, salaries);
      var w := Window(c, salaries);
      o.matchType == PageProximity ==>
        exists j :: 0 <= j < |w| && Some(w[j].salary.cents) == o.salaryCents
          && w[j].salary.score == o.salaryScore && w[j].dist == o.distance
          && o.salaryEvidence == Some(w[j].salary.evidence)
          && forall i :: 0 <= i < j ==> !AtLeastAsGood(w[i], w[j])
  {
    BestFacts(Window(c, salaries));
  }

  /** The bond is judged on the normalised role evidence, a space and the salary evidence ("" without salary). */
  lemma BondColumn(c: RoleCandidate, salaries: seq<Salary>)
    ensures var o := OpportunityFor(c, salaries);
      o.bond == BondOf(Normalize(c.evidence) + " " + Normalize(if o.salaryEvidence.Some? then o.salaryEvidence.value else ""),
                       BondKeywords)
  {
    var o := OpportunityFor(c, salaries);
    var e := if o.salaryEvidence.Some? then o.salaryEvidence.value else "";
    NormalizeConcat(c.evidence + " ", e);
    NormalizeConcat(c.evidence, " ");
    assert Normalize(" ") == " " by {
      assert " "[1..] == [];
    }
  }
}
