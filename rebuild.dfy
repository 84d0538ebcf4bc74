/** rebuild-results-index.py: both index pages rebuilt from the store,
    with the copies of the row builder and the renderer that have no GPU
    column and no row limit. */
module Rebuild {
  import opened Common
  import opened Timestamps
  import opened ReportRows
  import opened ReportsTable
  import opened MarkedSection
  import opened ResultsIndexes

  /** `main()`: `update_results_indexes` on data/reports. */
  function RebuildIndexes(entries: seq<DirEntry>, pages: Pages, fromIso: string -> Option<Instant>): Update
  {
    UpdateIndexes(RebuildIndex, entries, pages, fromIso)
  }

  /** The homepage is not capped: both pages get a table of every row,
      without a GPU column, differing only in the link prefix. */
  lemma HomeListsEveryRow(entries: seq<DirEntry>, pages: Pages, fromIso: string -> Option<Instant>)
    requires RebuildIndexes(entries, pages, fromIso).failure.None?
    ensures IndexRows(RebuildIndex, entries, fromIso).Ok?
    ensures var rows := IndexRows(RebuildIndex, entries, fromIso).value;
      && (forall k :: 0 <= k < |rows| ==> rows[k].gpu.None?)
      && RebuildIndexes(entries, pages, fromIso).pages ==
           Pages(Text(Splice(Read(pages.results), RenderTable(rows, "./", WithoutGpu, None))),
                 Text(Splice(Read(pages.home), RenderTable(rows, "./results/", WithoutGpu, None))))
  {
    IndexesShowRows(RebuildIndex, entries, pages, fromIso);
    var rows := IndexRows(RebuildIndex, entries, fromIso).value;
    RowsArePermutation(entries, false, fromIso);
    CollectedExactly(entries, false, fromIso);
    forall k | 0 <= k < |rows| ensures rows[k].gpu.None? {
      assert rows[k] in multiset(CollectRows(entries, false, fromIso).value);
      var j :| 0 <= j < |entries| && EntryStep(entries[j], false, fromIso) == Emit(rows[k]);
      EmitCases(entries[j], false, fromIso);
    }
  }

  /** The two copies of the row builder agree on every file that yields a
      row in issue-to-report.py: rebuild-results-index.py yields the same
      row without the GPU column. */
  lemma CopiesAgree(e: DirEntry, fromIso: string -> Option<Instant>)
    requires EntryStep(e, true, fromIso).Emit?
    ensures EntryStep(e, false, fromIso) == Emit(EntryStep(e, true, fromIso).row.(gpu := None))
  {
  }
}
