/** `update_results_indexes`: the report table of docs/results/index.md
    and the one of docs/index.md, rebuilt from the store. Both scripts
    carry a copy; issue-to-report.py's tables have a GPU column and cap the
    homepage at five rows, rebuild-results-index.py's have neither. */
module ResultsIndexes {
  import opened Common
  import opened PyStrings
  import opened Timestamps
  import opened StableSort
  import opened ReportRows
  import opened ReportsTable
  import opened MarkedSection

  /** Which script's copy runs. */
  datatype Script = IssueToReport | RebuildIndex

  function LayoutOf(script: Script): Layout
  {
    if script == IssueToReport then WithGpu else WithoutGpu
  }

  /** The row limit of the homepage table. */
  function HomeLimit(script: Script): Option<nat>
  {
    if script == IssueToReport then Some(5) else None
  }

  /** The two index pages as the script finds them. */
  datatype Pages = Pages(results: PageFile, home: PageFile)

  /** What `update_results_indexes` leaves: the two pages, and the
      exception that stopped it, if any. */
  datatype Update = Update(pages: Pages, failure: Option<Exception>)

  /** The rows the script renders. */
  function IndexRows(script: Script, entries: seq<DirEntry>, fromIso: string -> Option<Instant>): Result<seq<Row>>
  {
    ReportRows.ReportRows(entries, script == IssueToReport, fromIso)
  }

  /** `update_results_indexes`: the rows are built, then docs/results/index.md
      is updated, then docs/index.md. An exception stops the rest: from the
      rows, before either page is written; from reading the homepage, after
      the results page has been written. */
  function UpdateIndexes(script: Script, entries: seq<DirEntry>, pages: Pages, fromIso: string -> Option<Instant>)
    : Update
  {
    match IndexRows(script, entries, fromIso)
    case Raised(e) => Update(pages, Some(e))
    case Ok(rows) =>
      match UpdateMarkedSection(pages.results, RenderTable(rows, "./", LayoutOf(script), None))
      case Raised(e) => Update(pages, Some(e))
      case Ok(results) =>
        var written := pages.(results := Text(results));
        match UpdateMarkedSection(pages.home, RenderTable(rows, "./results/", LayoutOf(script), HomeLimit(script)))
        case Raised(e) => Update(written, Some(e))
        case Ok(home) => Update(written.(home := Text(home)), None)
  }

  /** A run completes exactly when no stored file raises and neither page
      fails to decode; then docs/results/index.md holds the table of every
      row, linked relative to its own directory, and docs/index.md the table
      of the rows from the front, at most five of them for
      issue-to-report.py and all of them for rebuild-results-index.py. */
  lemma IndexesShowRows(script: Script, entries: seq<DirEntry>, pages: Pages, fromIso: string -> Option<Instant>)
    ensures UpdateIndexes(script, entries, pages, fromIso).failure.None? <==>
      && (forall k :: 0 <= k < |entries| ==> !EntryStep(entries[k], script == IssueToReport, fromIso).Abort?)
      && !pages.results.Undecodable? && !pages.home.Undecodable?
    ensures UpdateIndexes(script, entries, pages, fromIso).failure.None? ==>
      var rows := IndexRows(script, entries, fromIso).value;
      var shown := Shown(rows, HomeLimit(script));
      && UpdateIndexes(script, entries, pages, fromIso).pages.results ==
           Text(Splice(Read(pages.results), RenderTable(rows, "./", LayoutOf(script), None)))
      && UpdateIndexes(script, entries, pages, fromIso).pages.home ==
           Text(Splice(Read(pages.home), RenderTable(shown, "./results/", LayoutOf(script), None)))
      && shown == rows[..|shown|]
      && (script == IssueToReport ==> |shown| == if |rows| < 5 then |rows| else 5)
      && (script == RebuildIndex ==> shown == rows)
  {
    CollectedExactly(entries, script == IssueToReport, fromIso);
    if UpdateIndexes(script, entries, pages, fromIso).failure.None? {
      var rows := IndexRows(script, entries, fromIso).value;
      ShownTable(rows, "./results/", LayoutOf(script), HomeLimit(script));
    }
  }

  /** Nothing is written unless the rows are built and the results page
      decodes; the homepage is the last write, so a run that changes it
      completes; and a run that fails after building the rows failed on a
      page that is not UTF-8, leaving the results page rewritten when only
      the homepage is at fault. */
  lemma IndexesFailures(script: Script, entries: seq<DirEntry>, pages: Pages, fromIso: string -> Option<Instant>)
    ensures var u := UpdateIndexes(script, entries, pages, fromIso);
      u.pages != pages ==> IndexRows(script, entries, fromIso).Ok? && !pages.results.Undecodable?
    ensures var u := UpdateIndexes(script, entries, pages, fromIso);
      u.pages.home != pages.home ==> u.failure.None?
    ensures var u := UpdateIndexes(script, entries, pages, fromIso);
      IndexRows(script, entries, fromIso).Raised? ==> u == Update(pages, Some(IndexRows(script, entries, fromIso).exc))
    ensures var u := UpdateIndexes(script, entries, pages, fromIso);
      IndexRows(script, entries, fromIso).Ok? && u.failure.Some? ==>
        && u.failure == Some(UnicodeDecodeError)
        && (pages.results.Undecodable? ==> u.pages == pages)
        && (!pages.results.Undecodable? ==>
              && pages.home.Undecodable?
              && u.pages.home == pages.home
              && u.pages.results ==
                   Text(Splice(Read(pages.results), RenderTable(IndexRows(script, entries, fromIso).value, "./", LayoutOf(script), None))))
  {
  }

  /** An empty store (or one whose files all are skipped) gives both pages
      the placeholder in place of a table. */
  lemma EmptyStorePlaceholder(script: Script, entries: seq<DirEntry>, pages: Pages, fromIso: string -> Option<Instant>)
    requires forall k :: 0 <= k < |entries| ==> EntryStep(entries[k], script == IssueToReport, fromIso) == Skip
    ensures !pages.results.Undecodable? ==>
      UpdateIndexes(script, entries, pages, fromIso).pages.results == Text(Splice(Read(pages.results), Placeholder))
    ensures !pages.results.Undecodable? && !pages.home.Undecodable? ==>
      UpdateIndexes(script, entries, pages, fromIso) ==
        Update(Pages(Text(Splice(Read(pages.results), Placeholder)), Text(Splice(Read(pages.home), Placeholder))), None)
  {
    AllSkippedNoRows(entries, script == IssueToReport, fromIso);
  }

  /** A page whose markers frame one old table keeps its text around them:
      only the table changes. */
  lemma FramedPageKept(script: Script, entries: seq<DirEntry>, pre: string, oldTable: string, post: string,
                       home: PageFile, fromIso: string -> Option<Instant>)
    requires var content := pre + Start + oldTable + End + post;
      && Find(content, Start) == Some(|pre|)
      && Find(content, End) == Some(|pre| + |Start| + |oldTable|)
      && !Contains(post, End)
    requires IndexRows(script, entries, fromIso).Ok?
    ensures var rows := IndexRows(script, entries, fromIso).value;
      UpdateIndexes(script, entries, Pages(Text(pre + Start + oldTable + End + post), home), fromIso).pages.results ==
        Text(pre + MarkedSection.Section(RenderTable(rows, "./", LayoutOf(script), None)) + post)
  {
    var rows := IndexRows(script, entries, fromIso).value;
    SpliceFramed(pre, oldTable, post, RenderTable(rows, "./", LayoutOf(script), None));
  }
}
