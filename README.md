# AlmaLinux M&E hardware catalog: a verified model of the report pipeline

The repository collects hardware reports submitted as GitHub issues and
publishes them as Markdown pages and a JSON catalog. Three Python scripts do
the work:

- `scripts/issue-to-report.py` handles one submitted report. It validates the
  report, saves it to the store (`data/reports/<id>.json`) and writes its
  detail page (`docs/results/<id>/index.md`). It then rebuilds the report
  tables of `docs/results/index.md` and `docs/index.md` from the store. Its
  tables have a GPU column, and the homepage shows at most five rows.
- `scripts/rebuild-results-index.py` rebuilds the same two tables. Its copies
  of the row builder and the renderer have no GPU column and no row cap.
- `scripts/build_database.py` turns the whole store into `DATABASE.md` and
  `docs/index.json`.

This project models those scripts in Dafny and proves properties of the
model.

- JSON values are a datatype (`PyJson.Value`).
- Python semantics the scripts rely on are written out. This covers
  truthiness, `a or b`, `dict.get`, `in`, iteration, `str()`, `strip`,
  `split`, `join`, slicing, string comparison and the stable `list.sort`.
- Exceptions the scripts do not catch are results (`Raised(...)`), not
  preconditions.
- A directory listing is an input: a sequence of entries, each a name and
  what reading the file gives.

The loops of the scripts are methods. Each is proved equal to a
specification function:

- `BuildReportRows`, `CollectDeviceNames`, `RenderReportsTable`, `BuildPage`;
- `CollectItemLines`, `SafeGet`, `CollectDevices`;
- `ReadReportsLoop`, `WriteDatabaseMd`, `WriteIndexJson`.

The lemmas then state what the scripts promise about those functions.

Modules, one per concern:

- `Common`: Option, exceptions and results.
- `PyStrings`: Python string operations.
- `PyJson`: JSON values and Python operations on them.
- `Validation`: the checks issue-to-report.py makes on a report.
- `Timestamps`: the text step of `parse_timestamp`.
- `StableSort`: `sort(reverse=True)`.
- `ReportRows`: `build_report_rows`, both copies.
- `ReportsTable`: `render_reports_table`, both copies.
- `MarkedSection`: `update_marked_section`.
- `DetailPage`: the detail Markdown.
- `ResultsIndexes`: `update_results_indexes`, both copies.
- `Ingest`: the top level of issue-to-report.py.
- `Rebuild`: the top level of rebuild-results-index.py.
- `Catalog`: build_database.py.

## Model

| member | source | states |
|---|---|---|
| Validation.FirstMissingInDict | scripts/issue-to-report.py:57-60 | on an object, the key scan never raises; it finds nothing exactly when all keys are present, and otherwise it names the first absent key |
| Validation.MissingKeyRejected | scripts/issue-to-report.py:48-60 | when the first absent required key is key i, the report is rejected naming that key |
| Validation.WrongKindRejected | scripts/issue-to-report.py:62-76 | when all keys are present but a structured field has the wrong kind, the report is rejected as "must be an object" or "must be a list" |
| Validation.ValidateIff | scripts/issue-to-report.py:219-222 | a report is accepted iff it is an object with every required key, the right container kinds and a stripped report_id matching `[a-f0-9]{8}`; the accepted id is that stripped text |
| Validation.MatchesHexIff | scripts/issue-to-report.py:220 | the regex match holds iff the text is exactly n lower-case hex characters |
| Validation.ReportIdCase | scripts/issue-to-report.py:219-222 | upper-case hex is rejected and lower-case hex accepted |
| Timestamps.IsoText | scripts/issue-to-report.py:82-89 | no text is handed to the parser exactly when the value is falsy or its str() is blank; otherwise the text is non-empty and does not end in "Z" |
| Timestamps.ZuluRewritten | scripts/rebuild-results-index.py:13-17 | with a trailing "Z", the text before it is kept and the result ends in "+00:00", five characters longer; other stripped text is passed on unchanged |
| Timestamps.BlankIsNone | scripts/rebuild-results-index.py:10-15 | falsy or blank input parses to None without reaching the parser |
| ReportRows.FirstTruthyIsFirst | scripts/issue-to-report.py:117-118 | a `get(a) or get(b) or get(c) or ""` chain yields the first truthy candidate, and "" when none is truthy |
| ReportRows.SystemLabelCases | scripts/issue-to-report.py:117-119 | the system label is vendor and model joined by one space, either alone, or "" when both are empty |
| ReportRows.DeviceNamesExact | scripts/issue-to-report.py:123-129 | every GPU name comes from a dict entry with that non-empty stripped device, and every such entry's name is collected |
| ReportRows.DeviceNamesConcat | scripts/issue-to-report.py:123-129 | names are collected entry by entry, in order: the names of `a + b` are those of `a` followed by those of `b` |
| ReportRows.DeviceNamesOne | scripts/issue-to-report.py:124-129 | a single entry contributes its stripped device name when it is a dict with a non-empty one, and nothing otherwise |
| ReportRows.DeviceNamesOfNonDicts | scripts/issue-to-report.py:124-126 | entries that are not dicts contribute no name |
| ReportRows.CollectDeviceNames | scripts/issue-to-report.py:123-130 | the loop collects exactly the specified GPU names |
| ReportRows.ReadEntry | scripts/issue-to-report.py:100-145 | one file's loop body, as a method, gives the specified skip, row or exception |
| ReportRows.BuildReportRows | scripts/issue-to-report.py:96-151 | the method returns the specified sorted rows or the first uncaught exception |
| ReportRows.SkipCases | scripts/rebuild-results-index.py:28-39 | non-".json" names, unreadable or non-JSON files and blank report ids are skipped |
| ReportRows.EmitCases | scripts/issue-to-report.py:109-145 | a row comes only from a ".json" object with a non-empty stripped id, which the row carries; it has a GPU label exactly in the GPU copy |
| ReportRows.EmitWhen | scripts/issue-to-report.py:100-145 | conversely, a ".json" object with a non-empty stripped id and system, processor and memory that are objects after `or {}` (and iterable graphics in the GPU copy) yields a row with that id |
| ReportRows.SkippedFileIgnored | scripts/rebuild-results-index.py:28-39 | a skipped file changes nothing: the rest are collected as if it were absent |
| ReportRows.AllSkippedNoRows | scripts/rebuild-results-index.py:24-39 | a listing whose files are all skipped yields no rows |
| ReportRows.CollectedExactly | scripts/issue-to-report.py:100-145 | collection succeeds iff no file raises; then a row is collected iff some file yields it |
| ReportRows.CollectRowsConcat | scripts/issue-to-report.py:100-145 | rows are collected file by file, in listing order: `a + b` succeeds iff both parts do, and then yields the rows of `a` followed by those of `b` |
| ReportRows.CollectRowsOne | scripts/issue-to-report.py:100-145 | a single file yields exactly one row when it emits, none when it is skipped, and its exception when it aborts |
| ReportRows.RowsArePermutation | scripts/rebuild-results-index.py:65-68 | sorting loses and adds no row, and rows with equal keys keep listing order |
| ReportRows.RowsOrdered | scripts/issue-to-report.py:147-150 | rows descend by (instant or minimum, id); an untimed row follows every row later than the minimum; equal instants give descending ids |
| StableSort.SortIsStable | scripts/issue-to-report.py:147-150 | the sort keeps the order of items sharing a key |
| ReportsTable.Columns | scripts/rebuild-results-index.py:76-77 | five columns without GPU, six with it |
| ReportsTable.RowLineText | scripts/issue-to-report.py:169-170 | a row line is the link, timestamp, system, processor, memory and, in the GPU copy, the GPU label, pipe-separated |
| ReportsTable.Shown | scripts/issue-to-report.py:157-158 | the shown rows are the first `limit` rows, or all rows when there is no limit or it is larger |
| ReportsTable.RenderReportsTable | scripts/issue-to-report.py:154-171 | the loop renders exactly the specified table |
| ReportsTable.PlaceholderIff | scripts/issue-to-report.py:155-156 | the placeholder is rendered iff there are no rows; a table starts with its header |
| ReportsTable.TableLinesRoundTrip | scripts/issue-to-report.py:157-171 | with single-line cells, a table splits into 2 + min(rows, limit) lines: the header, the rule, then the shown rows in order |
| ReportsTable.ZeroLimitKeepsHeader | scripts/issue-to-report.py:155-161 | a limit of 0 on a non-empty list still gives the header and rule, not the placeholder |
| ReportsTable.ShownTable | scripts/issue-to-report.py:154-170 | with a positive limit or none, the table is the table of the rows it shows |
| ReportsTable.RowLineSingle | scripts/rebuild-results-index.py:84-85 | a row line has no line break when its cells have none |
| MarkedSection.Terminated | scripts/issue-to-report.py:194-195 | the content stays a prefix and ends in a line break unless it is empty; at most one character is added, and content that is empty or already ends in a line break is kept as it is |
| MarkedSection.SpliceReplaces | scripts/issue-to-report.py:181-192 | with both markers, the result is the text before the first START, the new section, then the text after the first END up to any second END |
| MarkedSection.SpliceFramed | scripts/rebuild-results-index.py:96-107 | a page with one well-placed marker pair keeps all text outside it; only the interior changes |
| MarkedSection.SpliceAppends | scripts/issue-to-report.py:193-204 | with a marker missing, the old content, terminated by a line break only when needed, is followed directly by START; the result ends with START, a line break, the table, a line break, END and a line break |
| MarkedSection.UnreadablePage | scripts/issue-to-report.py:175-179 | a page that cannot be opened counts as empty, so the result is the section and a line break; the update raises exactly for a page that is not UTF-8, whose UnicodeDecodeError the `except OSError` does not catch |
| DetailPage.ItemLinesOkIff | scripts/issue-to-report.py:266-287 | the listing lines are built iff every item is a dict; then one line per item, in order |
| DetailPage.CollectItemLines | scripts/issue-to-report.py:276-279 | the loop builds exactly the specified item lines |
| DetailPage.ListingShape | scripts/issue-to-report.py:275-289 | an empty listing is "- None detected"; otherwise one line per item |
| DetailPage.BuildPage | scripts/issue-to-report.py:243-293 | the method builds exactly the specified page, or stops at the same listing exception or at the join |
| DetailPage.BuildFailsIff | scripts/issue-to-report.py:234-293 | a listing fails iff the modules cannot be listed or a graphics device or storage controller is not a dict; the join fails iff the listings succeed and the notes are truthy but not a string |
| DetailPage.PageRaisesIff | scripts/issue-to-report.py:234-293 | the page fails iff modules cannot be listed, a listed item is not a dict, or the notes are not a string |
| DetailPage.FinishShape | scripts/issue-to-report.py:293 | the written text keeps the stripped joined lines and ends in exactly one line break after non-space text |
| DetailPage.HeadStart | scripts/issue-to-report.py:244-246 | the page opens with the title, a blank line and "Timestamp (UTC): " followed by the timestamp field |
| DetailPage.PageNotes | scripts/issue-to-report.py:234-249 | the line after "## Notes" holds the notes when they are truthy, and "None" otherwise |
| DetailPage.PageModules | scripts/issue-to-report.py:262-275 | the listings open with an empty line, then "### Modules" and one line per module exactly when the modules value is truthy; otherwise "## Graphics" follows directly |
| DetailPage.PageShape | scripts/issue-to-report.py:244-293 | a built page starts with "# Hardware Report: <id>" and ends with one line break after non-space text |
| ResultsIndexes.IndexesShowRows | scripts/issue-to-report.py:175-216 | a run completes iff no stored file raises and neither page fails to decode; then the results page holds the table of every row and the homepage the table of the rows it shows, the first five (issue-to-report) or all (rebuild) |
| ResultsIndexes.IndexesFailures | scripts/issue-to-report.py:175-216 | nothing is written unless the rows are built and the results page decodes; changing the homepage means the run completed; a homepage that is not UTF-8 fails the run after the results page was rewritten |
| ResultsIndexes.EmptyStorePlaceholder | scripts/rebuild-results-index.py:125-131 | a store yielding no rows puts the placeholder on each page that decodes, the homepage when the results page decodes too |
| ResultsIndexes.FramedPageKept | scripts/rebuild-results-index.py:125-130 | a results page with one marker pair keeps its text outside the markers; only the table changes |
| Ingest.StoreKeeps | scripts/issue-to-report.py:224-232 | saving the report keeps the listing sorted; it holds the new file, and keeps every other file while replacing one of the same name |
| Ingest.SubmitCases | scripts/issue-to-report.py:219-232 | a rejected report leaves every file unchanged; an accepted one is written under its validated id |
| Ingest.PersistInOrder | scripts/issue-to-report.py:229-295 | the store file is written first; a listing failure leaves the detail page as it was, a join failure leaves it empty, and a built page is written; only then are the index pages rebuilt from the store holding the new file, and a changed homepage means the run completed |
| Ingest.SavedEntryEmits | scripts/issue-to-report.py:100-145 | the saved file of an accepted report yields a row with its id and a GPU label |
| Ingest.NewReportListed | scripts/issue-to-report.py:295 | after a completed run, the rows behind the results page include the new report |
| Rebuild.HomeListsEveryRow | scripts/rebuild-results-index.py:125-131 | both pages list every row with no GPU column and no cap; only the link prefix differs |
| Rebuild.CopiesAgree | scripts/rebuild-results-index.py:24-69 | for a file that yields a row in issue-to-report.py, this copy yields the same row without the GPU label |
| Catalog.SafeGet | scripts/build_database.py:12-18 | the loop returns the value at the end of the path, or the default as soon as a step meets a non-dict or a missing key |
| Catalog.WalkAppend | scripts/build_database.py:14-17 | walking p + q is walking p and then q from where p ends |
| Catalog.WalkOne | scripts/build_database.py:15-17 | one step gives a present key's value, and the default otherwise |
| Catalog.CollectDevices | scripts/build_database.py:24-28 | the device loop builds exactly the specified device list or raises the same exception |
| Catalog.SummarizeGpuAbsent | scripts/build_database.py:21-23 | missing or falsy graphics give "N/A" |
| Catalog.SummarizeGpuList | scripts/build_database.py:20-32 | for a graphics list: empty gives "N/A"; otherwise at most two devices from the first two entries, "N/A" when none, else joined by " / " and cut at 140 |
| Catalog.TruncateBound | scripts/build_database.py:32 | the summary has at most 141 characters; it is the whole text when that fits in 140, else 140 characters and "…" |
| Catalog.SetKeyLookup | scripts/build_database.py:42 | after `d[key] = v`, the key holds v and every other key is unchanged |
| Catalog.LoadedNamesFile | scripts/build_database.py:41-43 | a loaded report names its file under "_file" |
| Catalog.LoadAllExact | scripts/build_database.py:39-45 | no more reports than files, and none when no file loads |
| Catalog.LoadAllConcat | scripts/build_database.py:39-45 | reports are read file by file, in listing order: those of `a + b` are those of `a` followed by those of `b` |
| Catalog.LoadAllOne | scripts/build_database.py:39-45 | a single file gives its report, with "_file" set, when it is a ".json" file holding an object, and nothing otherwise |
| Catalog.ReadReportsLoop | scripts/build_database.py:34-48 | the loop and sort give exactly the specified sorted reports, or TypeError |
| Catalog.ReadReportsOrdered | scripts/build_database.py:47 | the reports are a stable permutation of the loaded ones, in descending timestamp order |
| Catalog.ReadReportsByTimestamp | scripts/build_database.py:47 | with string keys, no report's timestamp (missing read as "") is greater than an earlier one's |
| Catalog.DateOf | scripts/build_database.py:59 | a string timestamp gives its first ten characters, or the whole string when it is shorter, and any other value gives the fallback |
| Catalog.MdDate | scripts/build_database.py:58-59 | DATABASE.md shows the first ten characters of a non-empty string timestamp, else "N/A" |
| Catalog.IndexDate | scripts/build_database.py:77-80 | the catalog shows the first ten characters of a string timestamp, else "" |
| Catalog.MdNotesShape | scripts/build_database.py:64-66 | Markdown notes have no line break and at most 181 characters; missing notes read "No notes" |
| Catalog.WriteDatabaseMd | scripts/build_database.py:50-70 | the loop writes exactly the specified text or raises the same exception |
| Catalog.DatabaseMdLines | scripts/build_database.py:57-70 | DATABASE.md is the four header lines, then one line per report in reading order |
| Catalog.WriteIndexJson | scripts/build_database.py:72-99 | the loop builds exactly the specified payload or raises the same exception |
| Catalog.PayloadCount | scripts/build_database.py:75-96 | the payload exists iff every report has a row; its count equals its rows, one per report, in order |
| Catalog.IndexRowColumns | scripts/build_database.py:77-89 | timestamp, report id and notes fall back to "" when falsy; the date is ten characters of a string timestamp, else ""; notes are stripped; the six nested columns are `safe_get` with default ""; gpu is the summary; raw_file is "_file" or "" |
| Catalog.RunOrder | scripts/build_database.py:101-104 | index.json is written only after DATABASE.md, and a run reports no failure exactly when both are written |

## Left out

- File and directory I/O is not modelled: `open`, reads and writes, `os.listdir`, `os.makedirs`, `Path.glob`, the `GITHUB_EVENT_PATH` lookup, printing and process exits. A directory is an input listing in `sorted()` order. A missing directory is modelled the same as an empty listing, since both give no rows. Written files are fields of `Ingest.Site`.
- Finding the JSON payload in the issue body is not modelled (issue-to-report.py:17-46). This covers the regular expressions, base64 decoding and `json.loads`. The parsed value is the input instead.
- `datetime.fromisoformat` is a parameter, a partial function into naturals, and `datetime.min` is 0. Python's error on comparing aware and naive datetimes is not modelled.
- `datetime.utcnow()` for `generated_at_utc` is a parameter.
- The text `json.dump`/`json.dumps` produce is not modelled: key order, indentation, the `sort_keys` rewrite. The saved store file is read back as the report itself.
- Strings are sequences of code points. The emoji of the DATABASE.md title and "…" are single characters, with no encoding.
- `str()` of a float is its stored text.
- The table header is given by its cells (`ReportsTable.Columns`). No lemma spells out the header and rule text.
- The in-place sorts (`rows.sort`, `reports.sort`) are modelled as a function on the sequence. Aliasing of the list is not captured.
- Catalog.ReadReports: a timestamp key that is not a string raises TypeError once there are two reports. Python still compares keys that are all numbers (or all lists) without raising.
- Catalog.FirstTwo: slicing a dict in `summarize_gpu` is modelled as TypeError. Python 3.12 and later raise KeyError instead.
- PyJson.ToStr: `str()` of a container shows its strings between single quotes without escaping. Python switches to double quotes for a string holding a single quote, and escapes other special characters.
- PyJson.Value: a `Dict` is expected to have distinct keys, as `json.load` leaves them. `Lookup` takes the last member of a repeated key, but iterating or printing a `Dict` with repeated keys visits every member.
- ReportRows.RowsOrdered: an untimed row is placed after every row later than `datetime.min`, not after all timed rows. A timestamp that parses to `datetime.min` itself ties with the untimed rows, as `or datetime.min` makes it.

Where the scripts' documentation and their code disagree, the model follows the code:

- The JSON catalog's "gpu" field uses the same truncating `summarize_gpu` as DATABASE.md (build_database.py:88), so it is cut at 140 characters too.
- A submitted report is saved before its detail page is built, and a detail page that raises leaves the JSON file written and the indexes unchanged (`Ingest.PersistInOrder`). A truthy modules value that cannot be iterated, or a module, graphics device or storage controller that is not a dict, raises before the page file is opened, so the page stays as it was. A truthy user_notes that is not a string raises in the join, after `open(md_path, "w")` has emptied the page file, so the page is left empty (`DetailPage.BuildFailsIff`).
- `update_marked_section` catches only OSError. A page that exists but is not UTF-8 stops the run. When that page is docs/index.md, docs/results/index.md has already been rewritten (`ResultsIndexes.IndexesFailures`).
- A malformed stored file can abort a rebuild; it is not simply dropped. Such a file is JSON that is not an object, a file that is not UTF-8, or an object with a non-empty report id whose system, processor or memory is a truthy non-dict. In issue-to-report.py's copy, an object with a non-empty report id and a truthy graphics value that cannot be iterated also aborts it. An object whose stripped report id is empty is skipped before those fields are read.
- `content.split(END)[1]` keeps only the text up to a second END marker, if any. `MarkedSection.SpliceReplaces` states this as written.
- rebuild-results-index.py does not cap the homepage table at five rows.
