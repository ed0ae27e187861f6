# Gold stage of the orchestra-job pipeline, in Dafny

This project models `GoldProcessor`, the last stage of the pipeline. The stage reads a
table of parsed pages from public-tender notices (document id, source, page number,
full text) and builds a table of *opportunities*: one row per orchestral role found
on a page. Where possible, each row is paired with a salary on the same page, and it
carries the kind of employment bond.

The stage runs in three steps, each filling a table of the processor:

1. `extract_instruments` scans every page with every regular expression of the
   instrument taxonomy. It records each match with an 80-character evidence window. It
   then keeps, per (document, page, role), the row with the longest evidence.
2. `extract_salaries` scans every page with the salary expression. It judges each match
   by its format, its range (700.00 to 45 000.00), the currency symbol, and positive or
   negative keywords within 120 characters. It keeps the accepted rows with a score
   (2, 3 or 5), highest first.
3. `match_opportunities` indexes the salaries by page. For each role it picks the salary
   with the best score, then the smallest distance, among those on the same page that
   start fewer than 3000 characters away. It classifies the bond from the first keyword
   category that occurs in the normalised evidence. It renders the amount the Brazilian
   way ("R$ 1.234,56").

The modules follow that structure:

- `Text`: `_normalize_text`, `_has_keyword_simple` and the evidence window.
- `Pattern`: the subset of Python `re` that the taxonomy and bond tables use, and how a
  bare pattern is wrapped in `\b…\b`.
- `Amount`: the salary expression and the conversion of a match to cents.
- `Sorting`: `sort_values`, `drop_duplicates`, filtering and flattening.
- `Roles`: `extract_instruments`.
- `Salaries`: `extract_salaries`.
- `Bonds`: the bond classifier.
- `Display`: `formatar_real`.
- `Matchmaker`: `match_opportunities`.
- `Processor`: the `GoldProcessor` class and the pipeline order.
- `Config`, `Pages`, `Wrappers`: tables, rows and the option type.

The class keeps its tables as `seq` fields. Each stage is a method that rewrites one
field and is proved equal to a function of the others. Lemmas state what the source
promises about those functions.

## Model

| member | source | states |
|---|---|---|
| Text.Normalize | src/pipeline/process_gold.py:76-78 | the normalised text is pure ASCII with no upper-case letter, at most two characters per input character |
| Text.NormalizeConcat | src/pipeline/process_gold.py:76-78 | normalising works character by character: normalising a concatenation concatenates the normalised parts |
| Text.NormalizeIdempotent | src/pipeline/process_gold.py:76-78 | lower-case ASCII text is left unchanged |
| Text.NormalizeTwice | src/pipeline/process_gold.py:76-78 | normalising twice is the same as normalising once |
| Text.AnyKeywordExists | src/pipeline/process_gold.py:80-85 | the list-order keyword test holds exactly when some keyword occurs in the text as a `\b`-delimited word |
| Text.HasKeywordSimple | src/pipeline/process_gold.py:80-85 | the loop with its early `return True` answers exactly the keyword test |
| Text.WordAtIsWholeWord | src/pipeline/process_gold.py:82-83 | for a keyword that starts and ends with word characters, `\bkw\b` matches at i iff kw occurs at i with no word character just before or just after it |
| Text.Strip | src/pipeline/process_gold.py:151 | `strip()` keeps a contiguous slice, removes only whitespace at both ends, and leaves no whitespace at either end |
| Text.EvidenceFacts | src/pipeline/process_gold.py:149-151 | the evidence is no longer than the clipped window, holds no newline, has no whitespace at either end, and is the newline-flattened text of a slice inside the window |
| Pattern.BareIsWrapped | src/pipeline/process_gold.py:138-144 | a pattern of word characters with no backslash, `\b`, `(?` or basic marker compiles to a word boundary, its characters as literals, and a word boundary |
| Pattern.BareMatch | src/pipeline/process_gold.py:144-146 | a wrapped bare pattern of word characters matches at i, ignoring case, exactly when the text there equals it up to case and `\b` holds on both sides; the match ends after the pattern |
| Pattern.BareMatchIsWholeWord | src/pipeline/process_gold.py:144-146 | for a non-empty bare pattern of word characters a match means a case-insensitive occurrence with no word character just before or after |
| Pattern.FindFrom | src/pipeline/process_gold.py:146 | `finditer` yields spans inside the text, each a match of the pattern at its start, in increasing non-overlapping order |
| Pattern.FindFromComplete | src/pipeline/process_gold.py:146 | `finditer` misses nothing: every position where a non-empty match starts lies inside a reported span |
| Amount.NumberAt | src/pipeline/process_gold.py:48 | the integer group found at a position is either dotted groups of three after one to three digits, or three to six plain digits, followed by a well-formed optional `,dd` and no further digit |
| Amount.IntEndShape | src/pipeline/process_gold.py:48 | every end the engine tries for the integer group gives one of the two integer shapes |
| Amount.TokenAt | src/pipeline/process_gold.py:48 | a match at a position has the whole shape of the salary expression: no digit before it, an optional `R$` with whitespace, an integer group, an optional decimal group, no digit after it |
| Amount.TokensFrom | src/pipeline/process_gold.py:184 | every match reported on a page has that shape, and the matches do not overlap |
| Amount.TokensMember | src/pipeline/process_gold.py:184 | any reported match has the shape of the salary expression |
| Amount.TokensFromComplete | src/pipeline/process_gold.py:184 | the salary scan misses nothing: every position where the salary expression matches lies inside a reported match |
| Amount.TokenCents | src/pipeline/process_gold.py:207-211 | the conversion of a match never fails, so the `ValueError` path is never taken |
| Amount.TokenAmount | src/pipeline/process_gold.py:207-210 | the value of a match is its integer digits without dots times 100 plus its two decimals (zero when absent) |
| Amount.RemoveDots | src/pipeline/process_gold.py:208 | removing the dots leaves no dot, and leaves digits only when the input had only digits and dots |
| Sorting.SortDesc | src/pipeline/process_gold.py:164 | the sorted table is a permutation of the input, ordered by key from highest to lowest |
| Sorting.SortStable | src/pipeline/process_gold.py:164 | rows with equal keys keep their relative order |
| Sorting.DropDuplicatesFacts | src/pipeline/process_gold.py:165 | after `drop_duplicates` the keys are unique, each kept row is the first row of its key, and every key of the input is kept |
| Sorting.DropDuplicatesOrder | src/pipeline/process_gold.py:165 | `drop_duplicates` keeps input order: of two kept rows, the earlier is the first of its key at an earlier position of the input than the later |
| Sorting.DropDuplicatesSorted | src/pipeline/process_gold.py:164-165 | dropping duplicates keeps the table sorted |
| Roles.ScanMatches | src/pipeline/process_gold.py:147-158 | the loop over the matches of one pattern appends exactly one row per match, in match order |
| Roles.ScanPatterns | src/pipeline/process_gold.py:136-159 | the loop over a role's patterns yields the rows of each pattern in turn |
| Roles.ScanPageRoles | src/pipeline/process_gold.py:135-159 | the loop over the taxonomy yields the rows of each role in taxonomy order |
| Roles.MatchRowCut | src/pipeline/process_gold.py:148-158 | a row carries the page's document, source and page number, the matched text as raw value, and the 80-character evidence of the match |
| Roles.RawRolesFound | src/pipeline/process_gold.py:126-158 | every raw row comes from one page with a page number, was cut from its text, and was matched by a pattern of its own role |
| Roles.RawRolesComplete | src/pipeline/process_gold.py:126-158 | every match of every taxonomy pattern on every page with a page number yields a raw row |
| Roles.BareMentionStaged | src/pipeline/process_gold.py:126-166 | a whole-word mention, in any letter case, of a bare taxonomy keyword on a page with a page number always leaves a staged row of that role for that document and page |
| Roles.DedupRolesFacts | src/pipeline/process_gold.py:161-166 | the staged roles are raw rows with one row per (document, page, role), every raw key is represented, each kept row has the longest evidence of its key, and the table is ordered by evidence length |
| Roles.DedupRolesMaximal | src/pipeline/process_gold.py:163-165 | no raw row of the same key has longer evidence than the kept one |
| Roles.DedupTieBreak | src/pipeline/process_gold.py:164-165 | among rows of the same key and the same evidence length, the kept one comes first in scan order |
| Salaries.Assess | src/pipeline/process_gold.py:201-230 | a match is kept iff its amount parses, lies in [700.00, 45000.00], it has the currency symbol or a positive keyword, and has no negative keyword; the kept score is 2 for the symbol plus 3 for a positive keyword, so it is 2, 3 or 5 |
| Salaries.ApplyGates | src/pipeline/process_gold.py:201-230 | the chain of `continue` guards (format, conversion, range, year, symbol-or-keyword, negative score) reaches the same verdict |
| Salaries.JudgeMatch | src/pipeline/process_gold.py:186-237 | the body of the match loop computes the context, the keyword flags and the verdict, and appends the row judged for that match |
| Salaries.SalaryForFacts | src/pipeline/process_gold.py:186-237 | a match yields a row iff its value is in range, it has the symbol or a positive keyword, and there is no negative keyword in its 120-character context; the row holds the page data, the value, the matched text, the evidence, the start and the score |
| Salaries.ScanPageSalaries | src/pipeline/process_gold.py:184-237 | the loop over a page's matches keeps the judged rows in match order |
| Salaries.TokenRowsSound | src/pipeline/process_gold.py:185-237 | every kept row is the row judged for one of the matches |
| Salaries.PageSalariesSound | src/pipeline/process_gold.py:175-237 | every salary row of a page comes from a match on that page, has an amount in range, and a score of 2, 3 or 5 |
| Salaries.RawSalariesSound | src/pipeline/process_gold.py:175-237 | the same over all pages |
| Salaries.TokenRowsComplete | src/pipeline/process_gold.py:185-237 | every match the rules accept appears among the page's rows |
| Salaries.RawSalariesComplete | src/pipeline/process_gold.py:175-237 | every accepted match of every page with a page number appears among the salary rows |
| Bonds.DetectBond | src/pipeline/process_gold.py:307-311 | the loop with `break` returns the bond of the first category with a pattern in the context, else the default |
| Bonds.BondOfFirstHit | src/pipeline/process_gold.py:307-311 | the first category with a hit decides the bond; the default comes out iff no category has a hit |
| Bonds.BondKeywordsProper | src/pipeline/process_gold.py:61-66 | no category of the bond table carries the default label |
| Bonds.BondKeywordsPriority | src/pipeline/process_gold.py:61-66 | a CLT pattern in the context makes the bond CLT whatever else occurs; with no pattern at all the label is "Não Informado" |
| Display.Grouped | src/pipeline/process_gold.py:341 | the grouped integer part is made of digits and the separator only |
| Display.GroupedShape | src/pipeline/process_gold.py:341 | the `:,` grouping: below 1000 the plain one to three digits, from 1000 on one to three leading digits followed by groups of a `.` and exactly three digits (with `.` as the separator) |
| Display.ReplacementsSwap | src/pipeline/process_gold.py:341 | the three `replace` calls through the placeholder `X` swap commas and dots in a text without `X` |
| Display.SwapGrouped | src/pipeline/process_gold.py:341 | swapping the separators of the comma-grouped integer gives the dot-grouped integer |
| Display.FormatRealShape | src/pipeline/process_gold.py:339-341 | a present amount is shown as "R$ ", the integer part grouped by dots, a comma and two decimals |
| Display.FormatRealRoundTrip | src/pipeline/process_gold.py:339-341 | the shown integer and decimal parts, parsed the way salaries are parsed, give back the amount |
| Display.FormatRealDistinct | src/pipeline/process_gold.py:340-341 | a present amount starts with "R$ " and is never shown like a missing one |
| Matchmaker.IndexSalaries | src/pipeline/process_gold.py:258-267 | the index gives, for every (document, page), the salaries of that page in table order, and has no empty bucket |
| Matchmaker.NearbyOfMembers | src/pipeline/process_gold.py:290-294 | a salary with its distance is a valid candidate iff it is in the bucket and its distance is below 3000 |
| Matchmaker.CollectNearby | src/pipeline/process_gold.py:290-294 | the loop over the bucket collects exactly the valid candidates, in bucket order |
| Matchmaker.RankOrder | src/pipeline/process_gold.py:297 | ranking by score then distance orders candidates like the sort key (-score, distance) |
| Matchmaker.BestFacts | src/pipeline/process_gold.py:296-299 | a best salary exists iff there is a valid candidate; it is one of them, at least as good as all, and the first among equals |
| Matchmaker.WindowMembers | src/pipeline/process_gold.py:286-294 | a role's candidates are the salaries on its page that start fewer than 3000 characters from it |
| Matchmaker.Opportunities | src/pipeline/process_gold.py:276-335 | there is exactly one opportunity per role candidate |
| Matchmaker.MatchCandidate | src/pipeline/process_gold.py:283-335 | the loop body builds the opportunity of a role from the indexed bucket as from the whole salary table |
| Matchmaker.RoleColumns | src/pipeline/process_gold.py:313-318 | the row copies the role's document, source, page, canonical name and evidence |
| Matchmaker.NoMatchRow | src/pipeline/process_gold.py:328-333 | a row is NO_MATCH iff no salary is on the page within reach; then it has no amount, score 0, distance -1, no salary evidence, and shows "Não Informado" |
| Matchmaker.ProximityRow | src/pipeline/process_gold.py:322-327 | a PAGE_PROXIMITY row holds the amount, score, distance and evidence of a salary within reach, and no salary within reach has a higher score, or the same score and a smaller distance |
| Matchmaker.ProximityTieBreak | src/pipeline/process_gold.py:296-299 | the row's amount, score, distance and evidence are those of one entry of the window list, and no earlier entry is at least as good, so among equally good candidates the first in bucket order is chosen |
| Matchmaker.BondColumn | src/pipeline/process_gold.py:303-311 | the bond is classified on the normalised role evidence, a space and the normalised salary evidence (empty when there is none) |
| Processor.GoldProcessor.constructor | src/pipeline/process_gold.py:69-74 | a new processor holds the page table and empty stage tables |
| Processor.GoldProcessor.ExtractInstruments | src/pipeline/process_gold.py:120-167 | the candidates become the deduplicated raw role rows of the pages; nothing else changes |
| Processor.GoldProcessor.ExtractSalaries | src/pipeline/process_gold.py:169-244 | the salaries become the kept salary rows of the pages, sorted by score; nothing else changes |
| Processor.GoldProcessor.MatchOpportunities | src/pipeline/process_gold.py:246-337 | without candidates nothing changes; otherwise the opportunities become one row per candidate, in candidate order |
| Processor.RunPipeline | src/pipeline/process_gold.py:372-380 | running the stages in pipeline order on a fresh processor leaves the gold table of its pages |
| Processor.OpportunitiesFrom | src/pipeline/process_gold.py:313-335 | every opportunity belongs to one candidate, and a matched one carries the amount and score of one salary |
| Processor.GoldTableSound | src/pipeline/process_gold.py:372-380 | every gold row belongs to a role found on its page, and a matched row carries an amount in [700.00, 45000.00] with a score of 2, 3 or 5 |

## Notes on the source's behaviour

- Reach: a salary is within reach of a role when the distance between their starts is
  strictly below 3000 (line 293).
- Evidence: each newline is replaced by one space before stripping (lines 151 and 195);
  runs of newlines are not collapsed.
- Salary gates: the guard "no symbol needs a format or a positive keyword" runs before
  the conversion and the range check (lines 202-214); `Salaries.Assess` states the
  resulting verdict, whatever the order.
- Default bond: the label when no category matches is "Não Informado" (line 307).
- Scores: a kept salary always scores 2, 3 or 5 (`Salaries.Assess`); no other score can
  reach the table.
- Year gate (lines 217-222): a bare number without symbol and without positive keyword
  has already been dropped by the format guard (line 204), so this gate never drops a
  match on its own. The model keeps it in `ApplyGates` and `Assess` as written.

## Left out

- `load_data`: reading and merging the parquet files, column checks and manifest
  deduplication. The model starts from the merged page table. A missing `source_name`
  is `"unknown"` (`Pages.SourceOf`).
- Logging, the `salary_audit` counter and its report, the preview `print`, `save_all`,
  and the parquet and CSV writes: output only.
- Exceptions:
  - The `__main__` `try`/`except` and `sys.exit`.
  - The `re.error` branch: every taxonomy pattern compiles.
  - The `AttributeError` raised when stages run out of order.
- Checks that no row reaching them can fail, because page numbers and offsets are
  always present in the model's rows:
  - The `pd.isna` checks on `doc_id`, page numbers and match offsets (lines 260-262 and
    277-291).
  - The `if not int_part_raw` guard (line 189).
  - `pd.to_numeric` on page numbers; a page number is an `Option<int>`.
- Text.Normalize: Unicode NFKD is modelled only for the Latin-1 range. The model drops
  every character above U+00FF, including those NFKD would reduce to ASCII (ā, ő, ﬁ,
  full-width forms such as Ａ, ™), which the source keeps as their ASCII decomposition.
- Text.IsWordChar, Text.IsSpace, Text.IsDigit, Text.Strip and Amount.DigitRun: the
  character classes `\w`, `\s` and `\d` of `re`, and the whitespace `str.strip()`
  removes, are modelled for ASCII and Latin-1 only. Python's classes cover all of
  Unicode, so `\b`, `(?!\w)`, `(?<!\d)`, `\s*`, `\d` and `strip()` can behave
  differently on text with characters above U+00FF (for example U+2003 or U+3000 as
  spaces, or Arabic-Indic digits).
- Pattern.FindFrom: only non-empty matches are recorded. `finditer` would also report
  empty ones, but no taxonomy pattern can match the empty string.
- Pattern.Translate: only the regular-expression constructs the taxonomy and bond
  tables use are modelled: literals, classes `[…]`, `\s+`, `(?:…)?`, `\b` and `(?!\w)`.
  Case folding is limited to ASCII and Latin-1.
- Salaries.Assess: amounts are exact integer cents, not Python floats. For the two-digit
  decimals and magnitudes the expression admits, the float comparisons with 700, 45000,
  1900 and 2100 agree.
- Sorting.SortDesc: pandas' default sort is not stable. The model sorts stably, so ties
  keep scan order, both for evidence length before `drop_duplicates` and for the salary
  score.
- Matchmaker.Opportunities: the display column is computed per row rather than as a
  column `apply` after the table is built.
