/** `render_reports_table`: the Markdown table of report rows placed
    between the markers of the results pages. issue-to-report.py's version
    has a GPU column and an optional row limit; rebuild-results-index.py's
    has neither. */
module ReportsTable {
  import opened Common
  import opened PyStrings
  import opened ReportRows

  /** Markdown emphasis. */
  function Italic(text: string): string
  {
    "_" + text + "_"
  }

  /** What an empty store renders as. */
  const Placeholder: string := Italic("No reports yet. Submitted reports will appear here after approval.")

  /** Which of the two copies of the renderer. */
  datatype Layout = WithGpu | WithoutGpu

  /** A Markdown table line: each cell between pipes, padded by one space. */
  function Cells(cells: seq<string>): string
  {
    if cells == [] then "|" else Cells(cells[..|cells| - 1]) + " " + cells[|cells| - 1] + " |"
  }

  /** The column titles. */
  function Columns(layout: Layout): (r: seq<string>)
    ensures |r| == if layout == WithGpu then 6 else 5
  {
    ["Report ID", "Timestamp (UTC)", "System", "Processor", "Memory (GB)"] +
    (if layout == WithGpu then ["GPU"] else [])
  }

  function Header(layout: Layout): string
  {
    Cells(Columns(layout))
  }

  function Rule(layout: Layout): string
  {
    Cells(seq(|Columns(layout)|, _ => "---"))
  }

  /** `[id](prefix + id + "/")`: the link to the report's own page. */
  function Link(reportId: string, prefix: string): string
  {
    "[" + reportId + "](" + prefix + reportId + "/)"
  }

  /** The cells of one row, one per column. */
  function RowCells(row: Row, prefix: string, layout: Layout): (r: seq<string>)
    ensures |r| == |Columns(layout)|
  {
    [Link(row.reportId, prefix), row.timestamp, row.system, row.processor, row.memory] +
    (if layout == WithGpu then [row.gpu.GetOr("")] else [])
  }

  /** The table line of one row. */
  function RowLine(row: Row, prefix: string, layout: Layout): string
  {
    Cells(RowCells(row, prefix, layout))
  }

  /** A line of cells holds a line break only if a cell does. */
  lemma {:induction false} CellsSingleLine(cells: seq<string>)
    requires forall k :: 0 <= k < |cells| ==> '\n' !in cells[k]
    ensures '\n' !in Cells(cells)
  {
    if cells != [] {
      CellsSingleLine(cells[..|cells| - 1]);
    }
  }

  /** Every line of cells starts with a pipe. */
  lemma {:induction false} CellsStartWithPipe(cells: seq<string>)
    ensures |Cells(cells)| > 0 && Cells(cells)[0] == '|'
  {
    if cells != [] {
      CellsStartWithPipe(cells[..|cells| - 1]);
    }
  }

  lemma CellsAppend(cells: seq<string>, x: string)
    ensures Cells(cells + [x]) == Cells(cells) + " " + x + " |"
  {
    assert (cells + [x])[..|cells|] == cells;
  }

  /** A line ending in a pipe, extended by one cell. */
  lemma CellsExtend(cells: seq<string>, x: string, p: string)
    requires Cells(cells) == p + " |"
    ensures Cells(cells + [x]) == p + " | " + x + " |"
  {
    CellsAppend(cells, x);
    assert p + " |" + " " + x + " |" == p + " | " + x + " |";
  }

  /** Five cells, written out. */
  lemma FiveCells(a: string, b: string, c: string, d: string, e: string)
    ensures Cells([a, b, c, d, e]) == "| " + a + " | " + b + " | " + c + " | " + d + " | " + e + " |"
  {
    var p1 := "| " + a;
    var p2 := p1 + " | " + b;
    var p3 := p2 + " | " + c;
    var p4 := p3 + " | " + d;
    assert Cells([a]) == p1 + " |" by {
      assert [a][..0] == [];
    }
    CellsExtend([a], b, p1);
    assert [a] + [b] == [a, b];
    CellsExtend([a, b], c, p2);
    assert [a, b] + [c] == [a, b, c];
    CellsExtend([a, b, c], d, p3);
    assert [a, b, c] + [d] == [a, b, c, d];
    CellsExtend([a, b, c, d], e, p4);
    assert [a, b, c, d] + [e] == [a, b, c, d, e];
  }

  /** The line of a row, written out. */
  lemma RowLineText(row: Row, prefix: string, layout: Layout)
    ensures RowLine(row, prefix, layout) ==
      "| " + Link(row.reportId, prefix) + " | " + row.timestamp + " | " + row.system + " | " +
      row.processor + " | " + row.memory +
      (if layout == WithGpu then " | " + row.gpu.GetOr("") else "") + " |"
  {
    var five := [Link(row.reportId, prefix), row.timestamp, row.system, row.processor, row.memory];
    FiveCells(five[0], five[1], five[2], five[3], five[4]);
    if layout == WithGpu {
      CellsAppend(five, row.gpu.GetOr(""));
      assert RowCells(row, prefix, layout) == five + [row.gpu.GetOr("")];
      assert " |" + " " == " | ";
    } else {
      assert RowCells(row, prefix, layout) == five;
    }
  }

  /** `rows[:limit]`, or all rows when there is no limit. */
  function Shown(rows: seq<Row>, limit: Option<nat>): (r: seq<Row>)
    ensures |r| == if limit.Some? && limit.value < |rows| then limit.value else |rows|
    ensures r == rows[..|r|]
  {
    match limit
    case None => rows
    case Some(n) => if n < |rows| then rows[..n] else rows
  }

  /** One line per row, in order. */
  function RowLines(rows: seq<Row>, prefix: string, layout: Layout): (lines: seq<string>)
    ensures |lines| == |rows|
  {
    if rows == [] then []
    else RowLines(rows[..|rows| - 1], prefix, layout) + [RowLine(rows[|rows| - 1], prefix, layout)]
  }

  /** The header, the rule and one line per row. */
  function TableLines(rows: seq<Row>, prefix: string, layout: Layout): seq<string>
  {
    [Header(layout), Rule(layout)] + RowLines(rows, prefix, layout)
  }

  lemma TableLinesSnoc(rows: seq<Row>, prefix: string, layout: Layout)
    requires rows != []
    ensures TableLines(rows, prefix, layout) ==
      TableLines(rows[..|rows| - 1], prefix, layout) + [RowLine(rows[|rows| - 1], prefix, layout)]
  {
  }

  /** One more row adds its line at the end. */
  lemma TableLinesStep(rows: seq<Row>, i: nat, prefix: string, layout: Layout)
    requires i < |rows|
    ensures TableLines(rows[..i + 1], prefix, layout) == TableLines(rows[..i], prefix, layout) + [RowLine(rows[i], prefix, layout)]
  {
    TableLinesSnoc(rows[..i + 1], prefix, layout);
    assert rows[..i + 1][..i] == rows[..i];
  }

  /** Line `k` of the row lines is the line of row `k`. */
  lemma {:induction false} RowLinesAt(rows: seq<Row>, prefix: string, layout: Layout)
    ensures forall k :: 0 <= k < |rows| ==> RowLines(rows, prefix, layout)[k] == RowLine(rows[k], prefix, layout)
  {
    if rows != [] {
      var p := rows[..|rows| - 1];
      RowLinesAt(p, prefix, layout);
      forall k | 0 <= k < |rows| ensures RowLines(rows, prefix, layout)[k] == RowLine(rows[k], prefix, layout) {
        if k < |p| { assert rows[k] == p[k]; }
      }
    }
  }

  /** `render_reports_table(rows, link_prefix, limit)`. The emptiness test
      comes before the limit. */
  function RenderTable(rows: seq<Row>, prefix: string, layout: Layout, limit: Option<nat>): string
  {
    if rows == [] then Placeholder
    else Join("\n", TableLines(Shown(rows, limit), prefix, layout))
  }

  /** The renderer, building the lines in a loop. */
  method RenderReportsTable(rows: seq<Row>, prefix: string, layout: Layout, limit: Option<nat>)
    returns (table: string)
    ensures table == RenderTable(rows, prefix, layout, limit)
  {
    if rows == [] {
      return Placeholder;
    }
    var shown := rows;
    if limit.Some? && limit.value < |rows| {
      shown := rows[..limit.value];
    }
    assert shown == Shown(rows, limit);
    var lines := [Header(layout), Rule(layout)];
    var i := 0;
    while i < |shown|
      invariant 0 <= i <= |shown|
      invariant lines == TableLines(shown[..i], prefix, layout)
    {
      TableLinesStep(shown, i, prefix, layout);
      lines := lines + [RowLine(shown[i], prefix, layout)];
      i := i + 1;
    }
    assert shown[..i] == shown;
    table := Join("\n", lines);
  }

  /** No text of the row, nor the prefix, holds a line break. */
  predicate SingleLine(row: Row, prefix: string)
  {
    && '\n' !in row.reportId && '\n' !in row.timestamp && '\n' !in row.system
    && '\n' !in row.processor && '\n' !in row.memory && '\n' !in row.gpu.GetOr("")
    && '\n' !in prefix
  }

  lemma RowLineSingle(row: Row, prefix: string, layout: Layout)
    requires SingleLine(row, prefix)
    ensures '\n' !in RowLine(row, prefix, layout)
  {
    CellsSingleLine(RowCells(row, prefix, layout));
  }

  /** The placeholder is rendered exactly for an empty store; a table
      starts with its header line. */
  lemma PlaceholderIff(rows: seq<Row>, prefix: string, layout: Layout, limit: Option<nat>)
    ensures RenderTable(rows, prefix, layout, limit) == Placeholder <==> rows == []
    ensures rows != [] ==> StartsWith(RenderTable(rows, prefix, layout, limit), Header(layout))
  {
    if rows != [] {
      var lines := TableLines(Shown(rows, limit), prefix, layout);
      JoinStartsWith("\n", lines);
      CellsStartWithPipe(Columns(layout));
      assert Placeholder[0] == '_';
      assert RenderTable(rows, prefix, layout, limit)[0] == '|';
    }
  }

  /** Read back line by line, a non-empty table is its header, its rule
      and the lines of the first `limit` rows in their given order, when no
      row text holds a line break. So a limit of 5 shows at most five
      rows, and no limit shows all of them. */
  lemma TableLinesRoundTrip(rows: seq<Row>, prefix: string, layout: Layout, limit: Option<nat>)
    requires rows != []
    requires forall k :: 0 <= k < |rows| ==> SingleLine(rows[k], prefix)
    ensures var lines := Split(RenderTable(rows, prefix, layout, limit), "\n");
      && |lines| == 2 + |Shown(rows, limit)|
      && lines[0] == Header(layout) && lines[1] == Rule(layout)
      && forall k :: 0 <= k < |Shown(rows, limit)| ==> lines[k + 2] == RowLine(rows[k], prefix, layout)
  {
    var shown := Shown(rows, limit);
    assert forall k :: 0 <= k < |shown| ==> SingleLine(shown[k], prefix);
    TableSplits(shown, prefix, layout);
    var lines := TableLines(shown, prefix, layout);
    RowLinesAt(shown, prefix, layout);
    forall k | 0 <= k < |shown| ensures lines[k + 2] == RowLine(rows[k], prefix, layout) {
      assert shown[k] == rows[k];
    }
  }

  /** Splitting the joined table at line breaks gives back its lines. */
  lemma TableSplits(rows: seq<Row>, prefix: string, layout: Layout)
    requires forall k :: 0 <= k < |rows| ==> SingleLine(rows[k], prefix)
    ensures Split(Join("\n", TableLines(rows, prefix, layout)), "\n") == TableLines(rows, prefix, layout)
  {
    TableLinesSingle(rows, prefix, layout);
    JoinSplitChar(TableLines(rows, prefix, layout), '\n');
  }

  /** No line of a table of single-line rows holds a line break. */
  lemma TableLinesSingle(rows: seq<Row>, prefix: string, layout: Layout)
    requires forall k :: 0 <= k < |rows| ==> SingleLine(rows[k], prefix)
    ensures forall i :: 0 <= i < |TableLines(rows, prefix, layout)| ==> '\n' !in TableLines(rows, prefix, layout)[i]
  {
    var lines := TableLines(rows, prefix, layout);
    RowLinesAt(rows, prefix, layout);
    CellsSingleLine(Columns(layout));
    CellsSingleLine(seq(|Columns(layout)|, _ => "---"));
    forall i | 0 <= i < |lines| ensures '\n' !in lines[i] {
      if i >= 2 {
        assert lines[i] == RowLine(rows[i - 2], prefix, layout);
        RowLineSingle(rows[i - 2], prefix, layout);
      }
    }
  }

  /** A table capped at a positive limit is the table of the rows it
      shows. */
  lemma ShownTable(rows: seq<Row>, prefix: string, layout: Layout, limit: Option<nat>)
    requires limit != Some(0)
    ensures RenderTable(rows, prefix, layout, limit) == RenderTable(Shown(rows, limit), prefix, layout, None)
  {
    if rows != [] {
      assert Shown(rows, limit) != [];
    }
  }

  /** A limit of zero still renders the header and the rule for a
      non-empty store, not the placeholder. */
  lemma ZeroLimitKeepsHeader(rows: seq<Row>, prefix: string, layout: Layout)
    requires rows != []
    ensures RenderTable(rows, prefix, layout, Some(0)) == Header(layout) + "\n" + Rule(layout)
  {
    assert Shown(rows, Some(0)) == [];
    var lines := TableLines([], prefix, layout);
    assert lines == [Header(layout), Rule(layout)];
    assert lines[1..] == [Rule(layout)];
    assert Join("\n", lines[1..]) == Rule(layout);
    assert Join("\n", lines) == lines[0] + "\n" + Join("\n", lines[1..]);
  }
}
