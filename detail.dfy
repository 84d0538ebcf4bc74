/** The detail page issue-to-report.py writes for an accepted report,
    `docs/results/<id>/index.md`: a fixed run of headed sections, the
    memory modules when there are any, one line per graphics device and
    per storage controller, all joined by line breaks, stripped, and ended
    with one line break. */
module DetailPage {
  import opened Common
  import opened PyStrings
  import opened PyJson
  import opened Validation

  /** `f"{d.get(key, '')}"`. */
  function Field(d: Value, key: string): string
    requires d.Dict?
  {
    ToStr(Get(d, key, Str("")))
  }

  /** The three kinds of listed items. */
  datatype ItemKind = ModuleItem | GpuItem | ControllerItem

  /** The line of one listed item. */
  function ItemLine(kind: ItemKind, item: Value): string
    requires item.Dict?
  {
    match kind
    case ModuleItem =>
      "- " + Field(item, "size") + " @ " + Field(item, "speed") +
      " (configured: " + Field(item, "configured_speed") + ", maker: " + Field(item, "manufacturer") + ")"
    case GpuItem =>
      "- " + Field(item, "device") + " (driver: " + Field(item, "driver") + ")"
    case ControllerItem =>
      "- " + Field(item, "device")
  }

  /** The line function of one kind, as the loop applies it. Only dicts
      reach it: the loop raises on any other item first. */
  function LineOf(kind: ItemKind): Value -> string
  {
    (item: Value) => if item.Dict? then ItemLine(kind, item) else ""
  }

  /** The lines of the items, in order; `.get` on an item that is not a
      dict raises AttributeError. */
  function ItemLines(line: Value -> string, items: seq<Value>): Result<seq<string>>
  {
    if items == [] then Ok([])
    else match ItemLines(line, items[..|items| - 1])
      case Raised(e) => Raised(e)
      case Ok(lines) =>
        var item := items[|items| - 1];
        if item.Dict? then Ok(lines + [line(item)]) else Raised(AttributeError)
  }

  predicate AllDicts(items: seq<Value>)
  {
    forall i :: 0 <= i < |items| ==> items[i].Dict?
  }

  /** The items are listed exactly when all of them are dicts, one line
      each, in order. */
  lemma {:induction false} ItemLinesOkIff(line: Value -> string, items: seq<Value>)
    ensures ItemLines(line, items).Ok? <==> AllDicts(items)
    ensures ItemLines(line, items).Ok? ==>
      && |ItemLines(line, items).value| == |items|
      && forall i :: 0 <= i < |items| ==> ItemLines(line, items).value[i] == line(items[i])
  {
    if items != [] {
      var p := items[..|items| - 1];
      ItemLinesOkIff(line, p);
      assert forall i :: 0 <= i < |p| ==> p[i] == items[i];
    }
  }

  /** The "Modules" subsection: nothing for a falsy value, else a blank
      line, the heading and one line per module; a value that cannot be
      iterated raises TypeError. */
  function ModuleLines(modules: Value): Result<seq<string>>
  {
    if !Truthy(modules) then Ok([])
    else match Iterate(modules)
      case Raised(e) => Raised(e)
      case Ok(items) =>
        match ItemLines(LineOf(ModuleItem), items)
        case Raised(e) => Raised(e)
        case Ok(lines) => Ok(["", "### Modules"] + lines)
  }

  /** The lines of a graphics or storage list: "- None detected" when it
      is empty. */
  function ListingLines(kind: ItemKind, items: seq<Value>): Result<seq<string>>
  {
    if items == [] then Ok(["- None detected"]) else ItemLines(LineOf(kind), items)
  }

  /** `report.get("user_notes") or "None"`. */
  function Notes(report: Value): Value
    requires report.Dict?
  {
    Or(Get(report, "user_notes", Null), Str("None"))
  }

  /** `memory.get("modules", []) or []`. */
  function Modules(report: Value): Value
    requires WellFormed(report)
  {
    Or(Get(Get(report, "memory", Null), "modules", List([])), List([]))
  }

  function Graphics(report: Value): seq<Value>
    requires WellFormed(report)
  {
    Get(report, "graphics", Null).items
  }

  function Storage(report: Value): seq<Value>
    requires WellFormed(report)
  {
    Get(report, "storage_controllers", Null).items
  }

  /** The first line of the page. */
  function Title(reportId: string): string
  {
    "# Hardware Report: " + reportId
  }

  /** The lines from the title to the memory total. */
  function HeadLines(report: Value, notes: string): seq<string>
    requires WellFormed(report)
  {
    [Title(ReportIdOf(report)), "", "Timestamp (UTC): " + Field(report, "timestamp")] + FactLines(report, notes)
  }

  /** The notes and the system, processor and memory facts. */
  function FactLines(report: Value, notes: string): seq<string>
    requires WellFormed(report)
  {
    NotesLines(notes) + SpecLines(report)
  }

  /** The notes section. */
  function NotesLines(notes: string): seq<string>
  {
    ["", "## Notes", notes]
  }

  /** The system, processor and memory facts. */
  function SpecLines(report: Value): (r: seq<string>)
    requires WellFormed(report)
    ensures |r| == 12
  {
    var system := Get(report, "system", Null);
    var processor := Get(report, "processor", Null);
    var memory := Get(report, "memory", Null);
    [ "",
      "## System",
      "- OS: " + Field(system, "os_release"),
      "- Kernel: " + Field(system, "kernel"),
      "- Platform: " + Field(system, "platform"),
      "",
      "## Processor",
      "- Model: " + Field(processor, "model"),
      "- Cores: " + Field(processor, "cores"),
      "",
      "## Memory",
      "- Total (GB): " + Field(memory, "total_gb") ]
  }

  /** The lines after the memory total: the modules, if any, then the
      graphics and the storage sections. */
  function ListingSections(modules: seq<string>, gpus: seq<string>, controllers: seq<string>): seq<string>
  {
    modules + ["", "## Graphics"] + gpus + ["", "## Storage Controllers"] + controllers
  }

  /** The listing sections, or the exception raised while building them,
      in page order. */
  function Listings(report: Value): Result<seq<string>>
    requires WellFormed(report)
  {
    match ModuleLines(Modules(report))
    case Raised(e) => Raised(e)
    case Ok(modules) =>
      match ListingLines(GpuItem, Graphics(report))
      case Raised(e) => Raised(e)
      case Ok(gpus) =>
        match ListingLines(ControllerItem, Storage(report))
        case Raised(e) => Raised(e)
        case Ok(controllers) => Ok(ListingSections(modules, gpus, controllers))
  }

  /** `"\n".join(md_lines).strip() + "\n"`. */
  function Finish(lines: seq<string>): string
  {
    Strip(Join("\n", lines)) + "\n"
  }

  /** How building the page ends. The listing loops run before the page
      file is opened, so an exception from them leaves the file as it was;
      the join runs inside `open(md_path, "w")`, so its TypeError leaves
      the file empty. */
  datatype Outcome = Built(text: string) | ListingFailed(exc: Exception) | JoinFailed

  /** The page text, or where building it stopped: the listings raise
      first; a notes value that is not a string makes the join raise. */
  function Build(report: Value): Outcome
    requires WellFormed(report)
  {
    match Listings(report)
    case Raised(e) => ListingFailed(e)
    case Ok(sections) =>
      if !Notes(report).Str? then JoinFailed
      else Built(Finish(HeadLines(report, Notes(report).s) + sections))
  }

  /** The page text, or the exception raised while building it. */
  function Page(report: Value): Result<string>
    requires WellFormed(report)
  {
    match Build(report)
    case Built(text) => Ok(text)
    case ListingFailed(e) => Raised(e)
    case JoinFailed => Raised(TypeError)
  }

  /** One of the listing loops. */
  method CollectItemLines(kind: ItemKind, items: seq<Value>) returns (r: Result<seq<string>>)
    ensures r == ItemLines(LineOf(kind), items)
  {
    var lines: seq<string> := [];
    var i := 0;
    while i < |items|
      invariant 0 <= i <= |items|
      invariant ItemLines(LineOf(kind), items[..i]) == Ok(lines)
    {
      assert items[..i + 1][..i] == items[..i];
      var item := items[i];
      if !item.Dict? {
        RaisedStays(LineOf(kind), items, i + 1);
        assert items[..|items|] == items;
        return Raised(AttributeError);
      }
      assert LineOf(kind)(item) == ItemLine(kind, item);
      lines := lines + [ItemLine(kind, item)];
      i := i + 1;
    }
    assert items[..i] == items;
    r := Ok(lines);
  }

  /** Once a prefix of the items raises, so do all of them. */
  lemma {:induction false} RaisedStays(line: Value -> string, items: seq<Value>, n: nat)
    requires n <= |items| && ItemLines(line, items[..n]).Raised?
    ensures ItemLines(line, items) == ItemLines(line, items[..n])
    decreases |items| - n
  {
    if n < |items| {
      assert items[..n + 1][..n] == items[..n];
      RaisedStays(line, items, n + 1);
    } else {
      assert items[..n] == items;
    }
  }

  /** The page building of issue-to-report.py, with its loops. */
  method BuildPage(report: Value) returns (page: Outcome)
    requires WellFormed(report)
    ensures page == Build(report)
  {
    var modules: seq<string> := [];
    var m := Modules(report);
    if Truthy(m) {
      match Iterate(m) {
        case Raised(e) => return ListingFailed(e);
        case Ok(items) =>
          var r := CollectItemLines(ModuleItem, items);
          if r.Raised? {
            return ListingFailed(r.exc);
          }
          modules := ["", "### Modules"] + r.value;
      }
    }
    var gpus: seq<string> := ["- None detected"];
    if Graphics(report) != [] {
      var r := CollectItemLines(GpuItem, Graphics(report));
      if r.Raised? {
        return ListingFailed(r.exc);
      }
      gpus := r.value;
    }
    var controllers: seq<string> := ["- None detected"];
    if Storage(report) != [] {
      var r := CollectItemLines(ControllerItem, Storage(report));
      if r.Raised? {
        return ListingFailed(r.exc);
      }
      controllers := r.value;
    }
    var notes := Notes(report);
    if !notes.Str? {
      return JoinFailed;
    }
    page := Built(Finish(HeadLines(report, notes.s) + ListingSections(modules, gpus, controllers)));
  }

  /** The modules can be listed exactly when the value is falsy, or it
      can be iterated and yields only dicts. */
  predicate ModulesListable(modules: Value)
  {
    !Truthy(modules) || (Iterate(modules).Ok? && AllDicts(Iterate(modules).value))
  }

  /** Building the page raises exactly when the modules cannot be listed,
      a graphics device or storage controller is not a dict, or the notes
      are not a string. */
  lemma PageRaisesIff(report: Value)
    requires WellFormed(report)
    ensures Page(report).Raised? <==>
      || !ModulesListable(Modules(report))
      || !AllDicts(Graphics(report))
      || !AllDicts(Storage(report))
      || !Notes(report).Str?
  {
    BuildFailsIff(report);
    assert Page(report).Raised? <==> !Build(report).Built?;

  }

  /** The listings fail exactly when the modules cannot be listed or a
      graphics device or storage controller is not a dict; the join fails
      exactly when they succeed and the notes are truthy but not a string. */
  lemma BuildFailsIff(report: Value)
    requires WellFormed(report)
    ensures Build(report).ListingFailed? <==>
      || !ModulesListable(Modules(report))
      || !AllDicts(Graphics(report))
      || !AllDicts(Storage(report))
    ensures var userNotes := Get(report, "user_notes", Null);
      Build(report).JoinFailed? <==>
        && ModulesListable(Modules(report))
        && AllDicts(Graphics(report))
        && AllDicts(Storage(report))
        && Truthy(userNotes) && !userNotes.Str?
  {
    var m := Modules(report);
    if Truthy(m) && Iterate(m).Ok? {
      ItemLinesOkIff(LineOf(ModuleItem), Iterate(m).value);
    }
    ItemLinesOkIff(LineOf(GpuItem), Graphics(report));
    ItemLinesOkIff(LineOf(ControllerItem), Storage(report));
  }

  /** A listing has "- None detected" alone when empty and one line per
      item otherwise. */
  lemma ListingShape(kind: ItemKind, items: seq<Value>)
    requires AllDicts(items)
    ensures ListingLines(kind, items).Ok?
    ensures items == [] ==> ListingLines(kind, items).value == ["- None detected"]
    ensures items != [] ==>
      && |ListingLines(kind, items).value| == |items|
      && forall i :: 0 <= i < |items| ==> ListingLines(kind, items).value[i] == ItemLine(kind, items[i])
  {
    ItemLinesOkIff(LineOf(kind), items);
  }

  /** A position holding a character that is not whitespace survives the
      trailing strip. */
  lemma KeptBeforeTrailing(s: string, p: nat)
    requires p < |s| && !IsSpace(s[p])
    ensures p < |s| - TrailingSpace(s)
  {
    TrailingSpaceSpec(s);
  }

  /** Stripping text that starts with a non-space character keeps every
      prefix that ends before some later non-space character. */
  lemma StripKeepsPrefix(s: string, prefix: string, p: nat)
    requires StartsWith(s, prefix) && |prefix| > 0 && !IsSpace(prefix[0])
    requires |prefix| <= p < |s| && !IsSpace(s[p])
    ensures StartsWith(Strip(s), prefix)
  {
    assert s[0] == prefix[0];
    assert LeadingSpace(s) == 0;
    assert LStrip(s) == s;
    KeptBeforeTrailing(s, p);
    assert Strip(s)[..|prefix|] == s[..|prefix|];
  }

  /** Finishing lines whose first and third lines start with non-space
      text keeps the first line at the front and ends the text with one
      line break after non-space text. */
  lemma FinishShape(lines: seq<string>)
    requires |lines| >= 3
    requires lines[0] != "" && !IsSpace(lines[0][0])
    requires lines[2] != "" && !IsSpace(lines[2][0])
    ensures StartsWith(Finish(lines), lines[0])
    ensures EndsWith(Finish(lines), "\n")
    ensures |Finish(lines)| >= 2 && !IsSpace(Finish(lines)[|Finish(lines)| - 2])
  {
    var j := Join("\n", lines);
    var rest := Join("\n", lines[2..]);
    assert lines[1..][1..] == lines[2..];
    assert Join("\n", lines[1..]) == lines[1] + "\n" + rest;
    assert j == lines[0] + "\n" + (lines[1] + "\n" + rest);
    JoinStartsWith("\n", lines[2..]);
    var p := |lines[0]| + 1 + |lines[1]| + 1;
    assert j[p] == rest[0] == lines[2][0];
    StripKeepsPrefix(j, lines[0], p);
    StripEnds(j);
  }

  /** A page that is built is the finished head and listing lines. */
  lemma PageValue(report: Value)
    requires WellFormed(report) && Page(report).Ok?
    ensures Listings(report).Ok? && Notes(report).Str?
    ensures Page(report).value == Finish(HeadLines(report, Notes(report).s) + Listings(report).value)
  {
  }

  /** The page opens with the title, a blank line and the timestamp line. */
  lemma HeadStart(report: Value, notes: string)
    requires WellFormed(report)
    ensures |HeadLines(report, notes)| >= 3
    ensures HeadLines(report, notes)[0] == Title(ReportIdOf(report))
    ensures HeadLines(report, notes)[1] == ""
    ensures HeadLines(report, notes)[2] == "Timestamp (UTC): " + Field(report, "timestamp")
    ensures HeadLines(report, notes)[0] != "" && !IsSpace(HeadLines(report, notes)[0][0])
    ensures HeadLines(report, notes)[2] != "" && !IsSpace(HeadLines(report, notes)[2][0])
  {
    var ts := "Timestamp (UTC): " + Field(report, "timestamp");
    ThreeFirst(Title(ReportIdOf(report)), "", ts, FactLines(report, notes));
    LeadChars(ReportIdOf(report), Field(report, "timestamp"));
  }

  /** The three leading lines, taken apart from the
      report so that the solver does not unfold the lines themselves. */
  lemma ThreeFirst(a: string, b: string, c: string, rest: seq<string>)
    ensures var s := [a, b, c] + rest; |s| >= 3 && s[0] == a && s[1] == b && s[2] == c
  {
  }

  /** The title and the timestamp line start with '#' and 'T'. */
  lemma LeadChars(reportId: string, timestamp: string)
    ensures Title(reportId) != "" && !IsSpace(Title(reportId)[0])
    ensures var ts := "Timestamp (UTC): " + timestamp; !IsSpace(ts[0])
  {
    assert Title(reportId)[0] == '#';
    assert ("Timestamp (UTC): " + timestamp)[0] == 'T';
  }

  /** The notes among the head lines: the line after "## Notes" holds the
      notes when the report has truthy ones, and "None" otherwise. */
  lemma PageNotes(report: Value)
    requires WellFormed(report) && Notes(report).Str?
    ensures var head := HeadLines(report, Notes(report).s);
      && |head| == 18
      && head[4] == "## Notes"
    ensures var head := HeadLines(report, Notes(report).s);
      var userNotes := Get(report, "user_notes", Null);
      && (!Truthy(userNotes) ==> head[5] == "None")
      && (Truthy(userNotes) ==> userNotes.Str? && head[5] == userNotes.s)
  {
    HeadNotes(report, Notes(report).s);
    NotesValue(report);
  }

  /** The lines after the memory total: "### Modules" and one line per
      module exactly when the modules value is truthy; otherwise the
      graphics heading comes first. */
  lemma PageModules(report: Value)
    requires WellFormed(report) && Listings(report).Ok?
    ensures var lines := Listings(report).value;
      && |lines| >= 2
      && lines[0] == ""
      && (Truthy(Modules(report)) <==> lines[1] == "### Modules")
      && (!Truthy(Modules(report)) ==> lines[1] == "## Graphics")
    ensures var lines := Listings(report).value;
      Truthy(Modules(report)) ==>
        && Iterate(Modules(report)).Ok?
        && AllDicts(Iterate(Modules(report)).value)
        && var items := Iterate(Modules(report)).value;
        && |lines| >= 2 + |items|
        && forall i :: 0 <= i < |items| ==> lines[2 + i] == ItemLine(ModuleItem, items[i])
  {
    var m := Modules(report);
    var modules := ModuleLines(m).value;
    var gpus := ListingLines(GpuItem, Graphics(report)).value;
    var controllers := ListingLines(ControllerItem, Storage(report)).value;
    assert Listings(report).value == ListingSections(modules, gpus, controllers);
    ModuleLinesShape(m);
    SectionsLead(modules, gpus, controllers);
    var l := ListingSections(modules, gpus, controllers);
    assert forall i :: 0 <= i < |modules| ==> l[i] == l[..|modules|][i];
  }

  /** The notes line: the notes when they are truthy, else "None". */
  lemma NotesValue(report: Value)
    requires report.Dict? && Notes(report).Str?
    ensures var userNotes := Get(report, "user_notes", Null);
      && (!Truthy(userNotes) ==> Notes(report).s == "None")
      && (Truthy(userNotes) ==> userNotes.Str? && Notes(report).s == userNotes.s)
  {
  }

  /** The modules lines: none for a falsy value, else a blank line, the
      heading and one line per module. */
  lemma ModuleLinesShape(modules: Value)
    requires ModuleLines(modules).Ok?
    ensures !Truthy(modules) ==> ModuleLines(modules).value == []
    ensures Truthy(modules) ==>
      && Iterate(modules).Ok?
      && AllDicts(Iterate(modules).value)
      && var items := Iterate(modules).value;
      && var lines := ModuleLines(modules).value;
      && |lines| == 2 + |items|
      && lines[0] == "" && lines[1] == "### Modules"
      && forall i :: 0 <= i < |items| ==> lines[2 + i] == ItemLine(ModuleItem, items[i])
  {
    if Truthy(modules) {
      ModulesListed(modules);
    }
  }

  /** A truthy modules value that lists: the heading, then one line per
      module. */
  lemma ModulesListed(modules: Value)
    requires Truthy(modules) && ModuleLines(modules).Ok?
    ensures Iterate(modules).Ok? && AllDicts(Iterate(modules).value)
    ensures var items := Iterate(modules).value;
      var lines := ModuleLines(modules).value;
      && |lines| == 2 + |items|
      && lines[0] == "" && lines[1] == "### Modules"
      && forall i :: 0 <= i < |items| ==> lines[2 + i] == ItemLine(ModuleItem, items[i])
  {
    var items := Iterate(modules).value;
    var r := ItemLines(LineOf(ModuleItem), items);
    assert ModuleLines(modules) == Ok(["", "### Modules"] + r.value);
    ModuleItemLines(items);
    var lines := ["", "### Modules"] + r.value;
    forall i | 0 <= i < |items| ensures lines[2 + i] == ItemLine(ModuleItem, items[i]) {
      assert lines[2 + i] == r.value[i];
    }
  }

  /** One module line per item, each the item's `ItemLine`. */
  lemma ModuleItemLines(items: seq<Value>)
    requires ItemLines(LineOf(ModuleItem), items).Ok?
    ensures AllDicts(items)
    ensures var lines := ItemLines(LineOf(ModuleItem), items).value;
      && |lines| == |items|
      && forall i :: 0 <= i < |items| ==> lines[i] == ItemLine(ModuleItem, items[i])
  {
    var line := LineOf(ModuleItem);
    ItemLinesOkIff(line, items);
    forall i | 0 <= i < |items|
      ensures ItemLines(line, items).value[i] == ItemLine(ModuleItem, items[i])
    {
      assert items[i].Dict?;
    }
  }

  /** Where the notes sit among the head lines. */
  lemma HeadNotes(report: Value, notes: string)
    requires WellFormed(report)
    ensures |HeadLines(report, notes)| == 18
    ensures HeadLines(report, notes)[4] == "## Notes" && HeadLines(report, notes)[5] == notes
  {
    var x := [Title(ReportIdOf(report)), "", "Timestamp (UTC): " + Field(report, "timestamp")];
    var y := NotesLines(notes);
    assert y[1] == "## Notes" && y[2] == notes && |y| == 3;
    PartsAt(x, y, SpecLines(report));
    assert HeadLines(report, notes) == x + (y + SpecLines(report));
  }

  /** Indexing three concatenated parts inside the middle one, stated on
      plain sequences so that the head lines are not unfolded. */
  lemma PartsAt(x: seq<string>, y: seq<string>, z: seq<string>)
    ensures |x + (y + z)| == |x| + |y| + |z|
    ensures forall i :: 0 <= i < |y| ==> (x + (y + z))[|x| + i] == y[i]
  {
  }

  /** The listing sections open with the modules lines, then a blank line
      and the graphics heading. */
  lemma SectionsLead(modules: seq<string>, gpus: seq<string>, controllers: seq<string>)
    ensures var l := ListingSections(modules, gpus, controllers);
      && |l| >= |modules| + 2
      && l[..|modules|] == modules
      && l[|modules|] == "" && l[|modules| + 1] == "## Graphics"
  {
    var l := ListingSections(modules, gpus, controllers);
    assert l == modules + (["", "## Graphics"] + gpus + ["", "## Storage Controllers"] + controllers);
  }

  /** A built page starts with its title, naming the stripped report id,
      and ends with exactly one line break after non-space text. */
  lemma PageShape(report: Value)
    requires WellFormed(report) && Page(report).Ok?
    ensures StartsWith(Page(report).value, Title(ReportIdOf(report)))
    ensures EndsWith(Page(report).value, "\n")
    ensures |Page(report).value| >= 2 && !IsSpace(Page(report).value[|Page(report).value| - 2])
  {
    PageValue(report);
    var head := HeadLines(report, Notes(report).s);
    HeadStart(report, Notes(report).s);
    var lines := head + Listings(report).value;
    assert lines[0] == head[0] && lines[2] == head[2];
    FinishShape(lines);
    var page := Finish(lines);
    assert Page(report).value == page;
  }
}
