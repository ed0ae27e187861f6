/** The page table the gold stage reads (the silver pages joined with the manifest). */
module Pages {
  import opened Wrappers

  /**
   * One page row. `pageNum` is the page number after `pd.to_numeric(errors='coerce')`
   * and `int()`, `None` when the cell is not numeric; `sourceName` is `None` when the
   * joined table has no `source_name` column.
   */
  datatype PageRow = PageRow(docId: string, sourceName: Option<string>, pageNum: Option<int>, fullText: string)

  /** `row.get('source_name', 'unknown')`. */
  function SourceOf(row: PageRow): string {
    row.sourceName.GetOr("unknown")
  }

  /** The `(doc_id, page_num)` key that pages and candidates are grouped by. */
  datatype PageKey = PageKey(docId: string, pageNum: int)
}
