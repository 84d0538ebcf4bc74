/** The top level of issue-to-report.py: a validated report is saved to
    the store as data/reports/<id>.json, its detail page is written to
    docs/results/<id>/index.md, and both index pages are rebuilt from the
    store. Each step runs only if the ones before it succeeded. */
module Ingest {
  import opened Common
  import opened PyStrings
  import opened PyJson
  import opened Validation
  import opened Timestamps
  import opened StableSort
  import opened ReportRows
  import opened DetailPage
  import opened ResultsIndexes

  /** The store's listing is in `sorted(os.listdir(...))` order. */
  predicate SortedNames(entries: seq<DirEntry>)
  {
    forall i, j :: 0 <= i < j < |entries| ==> LexLess(entries[i].name, entries[j].name)
  }

  /** The listing after writing the file `e`: a file of the same name is
      replaced, otherwise `e` joins the listing in name order. */
  function Store(entries: seq<DirEntry>, e: DirEntry): seq<DirEntry>
  {
    if entries == [] then [e]
    else if entries[0].name == e.name then [e] + entries[1..]
    else if LexLess(e.name, entries[0].name) then [e] + entries
    else [entries[0]] + Store(entries[1..], e)
  }

  /** Writing a file keeps the listing in name order, holds the new file,
      keeps every file of another name and drops the old one of that name. */
  lemma {:induction false} StoreKeeps(entries: seq<DirEntry>, e: DirEntry)
    requires SortedNames(entries)
    ensures SortedNames(Store(entries, e))
    ensures e in Store(entries, e)
    ensures forall x :: x in entries && x.name != e.name ==> x in Store(entries, e)
    ensures forall x :: x in Store(entries, e) ==> x == e || (x in entries && x.name != e.name)
  {
    if entries != [] && entries[0].name != e.name && !LexLess(e.name, entries[0].name) {
      var rest := entries[1..];
      assert SortedNames(rest) by {
        forall i, j | 0 <= i < j < |rest| ensures LexLess(rest[i].name, rest[j].name) {
          assert rest[i] == entries[i + 1] && rest[j] == entries[j + 1];
        }
      }
      StoreKeeps(rest, e);
      var r := Store(entries, e);
      LexTotal(e.name, entries[0].name);
      forall i, j | 0 <= i < j < |r| ensures LexLess(r[i].name, r[j].name) {
        if i == 0 {
          var y := r[j];
          assert y in Store(rest, e);
          if y != e {
            var m :| 0 <= m < |rest| && rest[m] == y;
            assert entries[m + 1] == y;
          }
        }
      }
      forall x | x in entries && x.name != e.name ensures x in r {
        if x != entries[0] {
          var m :| 0 <= m < |entries| && entries[m] == x;
          assert rest[m - 1] == x;
        }
      }
      forall x | x in r ensures x == e || (x in entries && x.name != e.name) {
        if x != entries[0] {
          assert x in Store(rest, e);
        }
      }
    } else if entries != [] && entries[0].name == e.name {
      var r := Store(entries, e);
      forall i, j | 0 <= i < j < |r| ensures LexLess(r[i].name, r[j].name) {
        assert r[j] == entries[j];
      }
      forall x | x in r ensures x == e || (x in entries && x.name != e.name) {
        if x != e {
          var m :| 0 <= m < |r| && r[m] == x;
          assert entries[m] == x;
          assert m > 0;
          LexIrreflexive(e.name);
        }
      }
    } else if entries != [] {
      var r := Store(entries, e);
      forall i, j | 0 <= i < j < |r| ensures LexLess(r[i].name, r[j].name) {
        if i == 0 && j > 1 {
          LexTransitive(e.name, entries[0].name, entries[j - 1].name);
        }
      }
      forall x | x in entries ensures x.name != e.name {
        var m :| 0 <= m < |entries| && entries[m] == x;
        if m > 0 {
          LexTransitive(e.name, entries[0].name, entries[m].name);
        }
        LexIrreflexive(e.name);
      }
    }
  }

  /** The files of the site the script writes. */
  datatype Site = Site(store: seq<DirEntry>, details: map<string, string>, pages: Pages)

  /** What a run leaves: the verdict on the report, the site afterwards,
      and the exception that stopped the run, if any. */
  datatype Run = Run(verdict: Verdict, site: Site, failure: Option<Exception>)

  /** The store file of a report: its JSON, read back as the report. */
  function SavedEntry(reportId: string, report: Value): DirEntry
  {
    DirEntry(reportId + ".json", Parsed(report))
  }

  /** One run of issue-to-report.py on the report decoded from the issue. */
  function Submit(report: Value, site: Site, fromIso: string -> Option<Instant>): Run
  {
    match Validate(report)
    case Rejected(why) => Run(Rejected(why), site, None)
    case Accepted(reportId) =>
      ValidateIff(report);
      Persist(SavedEntry(reportId, report), reportId, Build(report), site, fromIso)
  }

  /** The writes for an accepted report: the store file `saved`, then the
      detail page (emptied when the join raises), then the two index pages
      rebuilt from the store. */
  function Persist(saved: DirEntry, reportId: string, page: Outcome, site: Site,
                   fromIso: string -> Option<Instant>): Run
  {
    var stored := site.(store := Store(site.store, saved));
    match page
    case ListingFailed(e) => Run(Accepted(reportId), stored, Some(e))
    case JoinFailed => Run(Accepted(reportId), stored.(details := stored.details[reportId := ""]), Some(TypeError))
    case Built(text) =>
      var detailed := stored.(details := stored.details[reportId := text]);
      var update := UpdateIndexes(IssueToReport, detailed.store, site.pages, fromIso);
      Run(Accepted(reportId), detailed.(pages := update.pages), update.failure)
  }

  /** A rejected report leaves every file as it was; an accepted one is
      written under the id the validation read, with the page built from it. */
  lemma SubmitCases(report: Value, site: Site, fromIso: string -> Option<Instant>)
    ensures !WellFormed(report) ==>
      Submit(report, site, fromIso).verdict.Rejected? && Submit(report, site, fromIso).site == site
    ensures WellFormed(report) ==>
      Submit(report, site, fromIso) ==
        Persist(SavedEntry(ReportIdOf(report), report), ReportIdOf(report), Build(report), site, fromIso)
  {
    ValidateIff(report);
  }

  /** The report is saved before anything else can fail. A listing that
      raises leaves the detail page and the index pages as they were; a
      join that raises leaves the detail page empty and the index pages as
      they were; a page that is built is written, and only then are the
      index pages rebuilt from the store holding the new file. The
      homepage is the last write, so a run that changes it completes. */
  lemma PersistInOrder(saved: DirEntry, reportId: string, page: Outcome, site: Site,
                       fromIso: string -> Option<Instant>)
    ensures var run := Persist(saved, reportId, page, site, fromIso);
      && run.verdict == Accepted(reportId)
      && run.site.store == Store(site.store, saved)
      && (page.Built? ==> run.site.details == site.details[reportId := page.text])
      && (page.ListingFailed? ==> run.site == site.(store := run.site.store) && run.failure == Some(page.exc))
      && (page.JoinFailed? ==>
            && run.site == site.(store := run.site.store, details := site.details[reportId := ""])
            && run.failure == Some(TypeError))
      && (page.Built? ==>
            var update := UpdateIndexes(IssueToReport, run.site.store, site.pages, fromIso);
            run.site.pages == update.pages && run.failure == update.failure)
      && (run.site.pages != site.pages ==> page.Built?)
      && (run.site.pages.home != site.pages.home ==> run.failure.None?)
  {
    IndexesFailures(IssueToReport, Store(site.store, saved), site.pages, fromIso);
  }

  /** The saved file is a ".json" file holding an object with the id the
      validation accepted, so the row builder yields a row for it. */
  lemma SavedEntryEmits(report: Value, fromIso: string -> Option<Instant>)
    requires WellFormed(report)
    ensures var step := EntryStep(SavedEntry(ReportIdOf(report), report), true, fromIso);
      step.Emit? && step.row.reportId == ReportIdOf(report) && step.row.gpu.Some?
  {
    var reportId := ReportIdOf(report);
    var name := reportId + ".json";
    assert name[|name| - |".json"|..] == ".json";
    assert IsReportId(reportId);
    SectionKept(report, "system", Dict([]));
    SectionKept(report, "processor", Dict([]));
    SectionKept(report, "memory", Dict([]));
    SectionKept(report, "graphics", List([]));
    EmitWhen(SavedEntry(reportId, report), true, fromIso);
    EmitCases(SavedEntry(reportId, report), true, fromIso);
  }

  /** A section present with a container value keeps its kind, whether it
      is used as it is or, being empty, replaced by the empty default. */
  lemma SectionKept(data: Value, key: string, empty: Value)
    requires data.Dict?
    requires (Get(data, key, Null).Dict? && empty.Dict?) || (Get(data, key, Null).List? && empty.List?)
    ensures Section(data, key, empty).Dict? == empty.Dict?
    ensures Section(data, key, empty).List? == empty.List?
  {
  }

  /** A run that completes lists the new report on the results page: the
      rows it renders hold a row with the report's id. */
  lemma NewReportListed(report: Value, site: Site, fromIso: string -> Option<Instant>)
    requires WellFormed(report) && SortedNames(site.store)
    requires Submit(report, site, fromIso).failure.None?
    ensures var store := Submit(report, site, fromIso).site.store;
      && IndexRows(IssueToReport, store, fromIso).Ok?
      && exists row :: row in IndexRows(IssueToReport, store, fromIso).value && row.reportId == ReportIdOf(report)
  {
    SubmitCases(report, site, fromIso);
    var reportId := ReportIdOf(report);
    var e := SavedEntry(reportId, report);
    var store := Store(site.store, e);
    IndexesShowRows(IssueToReport, store, site.pages, fromIso);
    StoreKeeps(site.store, e);
    SavedEntryEmits(report, fromIso);
    var row := EntryStep(e, true, fromIso).row;
    CollectedExactly(store, true, fromIso);
    var k :| 0 <= k < |store| && store[k] == e;
    assert row in CollectRows(store, true, fromIso).value;
    RowsArePermutation(store, true, fromIso);
    assert row in multiset(CollectRows(store, true, fromIso).value);
  }
}
