/**
 * The employment-bond classifier of `match_opportunities`: the categories of
 * `BOND_KEYWORDS` are tried in their order and the first one with a pattern that
 * `re.search` finds (case-sensitively, no word boundaries) in the normalised context
 * wins; when none is found the bond is "Não Informado".
 */
module Bonds {
  import opened Text
  import opened Pattern
  import opened Config

  /** `any(re.search(pat, context) for pat in patterns)`. */
  predicate AnyPattern(context: string, patterns: seq<string>) {
    exists k :: 0 <= k < |patterns| && Search(Translate(patterns[k]), context, false)
  }

  /** The bond of the first entry of `table` with a pattern in `context`, else `NaoInformado`. */
  function BondOf(context: string, table: seq<BondEntry>): Bond
    decreases |table|
  {
    if table == [] then NaoInformado
    else if AnyPattern(context, table[0].patterns) then table[0].bond
    else BondOf(context, table[1..])
  }

  /** Entry `i` is the first entry of `table` with a pattern in `context`. */
  predicate FirstHit(context: string, table: seq<BondEntry>, i: int) {
    && 0 <= i < |table|
    && AnyPattern(context, table[i].patterns)
    && forall j :: 0 <= j < i ==> !AnyPattern(context, table[j].patterns)
  }

  /** No entry of the table carries the default label. */
  predicate ProperTable(table: seq<BondEntry>) {
    forall i :: 0 <= i < |table| ==> table[i].bond != NaoInformado
  }

  /** The loop over `BOND_KEYWORDS.items()` with its `break`. */
  method DetectBond(context: string, table: seq<BondEntry>) returns (detected: Bond)
    ensures detected == BondOf(context, table)
  {
    detected := NaoInformado;
    var i := 0;
    while i < |table|
      invariant 0 <= i <= |table|
      invariant BondOf(context, table) == BondOf(context, table[i..])
      invariant detected == NaoInformado
    {
      assert table[i..][1..] == table[i + 1..];
      if AnyPattern(context, table[i].patterns) {
        detected := table[i].bond;
        return;
      }
      i := i + 1;
    }
  }

  /**
   * The classifier picks the first category with a hit: the entry of the first hit gives
   * the bond, and the default comes out exactly when no entry has a hit.
   */
  lemma {:induction false} BondOfFirstHit(context: string, table: seq<BondEntry>)
    requires ProperTable(table)
    ensures forall i :: FirstHit(context, table, i) ==> BondOf(context, table) == table[i].bond
    ensures BondOf(context, table) == NaoInformado <==>
              forall i :: 0 <= i < |table| ==> !AnyPattern(context, table[i].patterns)
    decreases |table|
  {
    if table != [] {
      var rest := table[1..];
      assert ProperTable(rest) by {
        forall i | 0 <= i < |rest| ensures rest[i].bond != NaoInformado {
          assert rest[i] == table[i + 1];
        }
      }
      BondOfFirstHit(context, rest);
      forall i | FirstHit(context, table, i) ensures BondOf(context, table) == table[i].bond {
        if i > 0 {
          assert !AnyPattern(context, table[0].patterns);
          assert FirstHit(context, rest, i - 1) by {
            forall j | 0 <= j < i - 1 ensures !AnyPattern(context, rest[j].patterns) {
              assert rest[j] == table[j + 1];
            }
          }
        }
      }
      if !AnyPattern(context, table[0].patterns) {
        assert (forall i :: 0 <= i < |table| ==> !AnyPattern(context, table[i].patterns)) <==>
               (forall i :: 0 <= i < |rest| ==> !AnyPattern(context, rest[i].patterns)) by {
          forall i | 0 <= i < |rest| ensures rest[i] == table[i + 1] { }
        }
      }
    }
  }

  /** `BOND_KEYWORDS` has no entry for the default label. */
  lemma BondKeywordsProper()
    ensures ProperTable(BondKeywords)
  {
  }

  /**
   * On a context with a CLT pattern the bond is CLT whatever else it contains; on one with
   * none of the patterns it is "Não Informado".
   */
  lemma BondKeywordsPriority(context: string)
    ensures AnyPattern(context, BondKeywords[0].patterns) ==> BondOf(context, BondKeywords) == CLT
    ensures (forall i :: 0 <= i < |BondKeywords| ==> !AnyPattern(context, BondKeywords[i].patterns))
            ==> BondOf(context, BondKeywords).Label() == "Não Informado"
  {
    BondKeywordsProper();
    BondOfFirstHit(context, BondKeywords);
    if AnyPattern(context, BondKeywords[0].patterns) {
      assert FirstHit(context, BondKeywords, 0);
    }
  }
}
