/** build_database.py: the catalog of all stored reports, written as the
    Markdown table DATABASE.md and the JSON payload docs/index.json. */
module Catalog {
  import opened Common
  import opened PyStrings
  import opened PyJson
  import opened StableSort
  import opened ReportRows

  /** The ellipsis appended to truncated text. */
  const Ellipsis: string := "\U{2026}"

  /** `[f(x) for x in xs]` for an `f` that may raise: the results in order,
      or the first exception. */
  function Each<T>(f: Value -> Result<T>, xs: seq<Value>): Result<seq<T>>
  {
    if xs == [] then Ok([])
    else match Each(f, xs[..|xs| - 1])
      case Raised(e) => Raised(e)
      case Ok(ys) =>
        match f(xs[|xs| - 1])
        case Raised(e) => Raised(e)
        case Ok(y) => Ok(ys + [y])
  }

  /** Once a prefix raises, so does the whole list, with the same exception. */
  lemma {:induction false} EachRaisedStays<T>(f: Value -> Result<T>, xs: seq<Value>, n: nat)
    requires n <= |xs| && Each(f, xs[..n]).Raised?
    ensures Each(f, xs) == Each(f, xs[..n])
    decreases |xs| - n
  {
    if n < |xs| {
      assert xs[..n + 1][..n] == xs[..n];
      EachRaisedStays(f, xs, n + 1);
    } else {
      assert xs[..n] == xs;
    }
  }

  /** `Each` succeeds exactly when `f` succeeds on every element, and then
      gives one result per element, in order. */
  lemma {:induction false} EachExact<T>(f: Value -> Result<T>, xs: seq<Value>)
    ensures Each(f, xs).Ok? <==> forall i :: 0 <= i < |xs| ==> f(xs[i]).Ok?
    ensures Each(f, xs).Ok? ==> |Each(f, xs).value| == |xs|
    ensures Each(f, xs).Ok? ==> forall i :: 0 <= i < |xs| ==> Each(f, xs).value[i] == f(xs[i]).value
  {
    if xs != [] {
      var p := xs[..|xs| - 1];
      EachExact(f, p);
      assert forall i :: 0 <= i < |p| ==> p[i] == xs[i];
    }
  }

  // ---------------------------------------------------------------- safe_get

  /** The value at the end of `path`, or `None` as soon as a step meets a
      value that is not a dict or lacks the key. */
  function Walk(v: Value, path: seq<string>): Option<Value>
  {
    if path == [] then Some(v)
    else if !v.Dict? || !HasKey(v, path[0]) then None
    else Walk(Get(v, path[0], Null), path[1..])
  }

  /** `safe_get(dct, path, default)`. */
  method SafeGet(dct: Value, path: seq<string>, default: Value) returns (r: Value)
    ensures r == Walk(dct, path).GetOr(default)
  {
    var cur := dct;
    var i := 0;
    while i < |path|
      invariant 0 <= i <= |path|
      invariant Walk(dct, path) == Walk(cur, path[i..])
    {
      var key := path[i];
      assert path[i..][0] == key && path[i..][1..] == path[i + 1..];
      if !cur.Dict? || !HasKey(cur, key) {
        return default;
      }
      cur := Get(cur, key, Null);
      i := i + 1;
    }
    return cur;
  }

  /** Walking a path is walking its first part and then the rest. */
  lemma {:induction false} WalkAppend(v: Value, p: seq<string>, q: seq<string>)
    ensures Walk(v, p + q) == match Walk(v, p) case None => None case Some(w) => Walk(w, q)
  {
    if p == [] {
      assert p + q == q;
    } else {
      assert (p + q)[0] == p[0] && (p + q)[1..] == p[1..] + q;
      if v.Dict? && HasKey(v, p[0]) {
        WalkAppend(Get(v, p[0], Null), p[1..], q);
      }
    }
  }

  /** One step of the walk is a dict lookup: present keys give their
      value, anything else the default. */
  lemma WalkOne(v: Value, key: string, default: Value)
    ensures Walk(v, [key]).GetOr(default) ==
      if v.Dict? && HasKey(v, key) then Lookup(v.members, key).value else default
  {
    assert [key][1..] == [];
  }

  // ---------------------------------------------------------------- summarize_gpu

  /** `s[:n] + ("…" if len(s) > n else "")`. */
  function Truncate(s: string, n: nat): (r: string)
    ensures |s| <= n ==> r == s
    ensures |s| > n ==> r == s[..n] + Ellipsis && |r| == n + 1
  {
    Take(s, n) + (if |s| > n then Ellipsis else "")
  }

  /** `gpus[:2]` as `for g in gpus[:2]` visits it: a list gives its first
      two items, a string its first two characters; slicing a dict or a
      number raises TypeError. */
  function FirstTwo(gpus: Value): Result<seq<Value>>
  {
    match gpus
    case List(items) => Ok(if |items| <= 2 then items else items[..2])
    case Str(s) =>
      var t := if |s| <= 2 then s else s[..2];
      Ok(seq(|t|, k requires 0 <= k < |t| => Str([t[k]])))
    case _ => Raised(TypeError)
  }

  /** `(g.get("device") or "").strip()`: `.get` needs a dict and `.strip`
      a string. */
  function DeviceOf(g: Value): Result<string>
  {
    if !g.Dict? then Raised(AttributeError)
    else
      var dev := Or(Get(g, "device", Null), Str(""));
      if dev.Str? then Ok(Strip(dev.s)) else Raised(AttributeError)
  }

  /** The non-empty device names of the items, in order. */
  function Devices(items: seq<Value>): Result<seq<string>>
  {
    if items == [] then Ok([])
    else match Devices(items[..|items| - 1])
      case Raised(e) => Raised(e)
      case Ok(devices) =>
        match DeviceOf(items[|items| - 1])
        case Raised(e) => Raised(e)
        case Ok(dev) => Ok(if dev != "" then devices + [dev] else devices)
  }

  /** `summarize_gpu(report)`. */
  function SummarizeGpu(report: Value): Result<string>
  {
    if !report.Dict? then Raised(AttributeError)
    else
    var gpus := Or(Get(report, "graphics", Null), List([]));
    if !Truthy(gpus) then Ok("N/A")
    else match FirstTwo(gpus)
      case Raised(e) => Raised(e)
      case Ok(firstTwo) =>
        match Devices(firstTwo)
        case Raised(e) => Raised(e)
        case Ok(devices) => Ok(if devices == [] then "N/A" else Truncate(Join(" / ", devices), 140))
  }

  /** The device loop of `summarize_gpu`. */
  method CollectDevices(items: seq<Value>) returns (r: Result<seq<string>>)
    ensures r == Devices(items)
  {
    var devices: seq<string> := [];
    var i := 0;
    while i < |items|
      invariant 0 <= i <= |items|
      invariant Devices(items[..i]) == Ok(devices)
    {
      assert items[..i + 1][..i] == items[..i];
      var dev := DeviceOf(items[i]);
      if dev.Raised? {
        DevicesRaisedStays(items, i + 1);
        assert items[..|items|] == items;
        return Raised(dev.exc);
      }
      if dev.value != "" {
        devices := devices + [dev.value];
      }
      i := i + 1;
    }
    assert items[..i] == items;
    r := Ok(devices);
  }

  lemma {:induction false} DevicesRaisedStays(items: seq<Value>, n: nat)
    requires n <= |items| && Devices(items[..n]).Raised?
    ensures Devices(items) == Devices(items[..n])
    decreases |items| - n
  {
    if n < |items| {
      assert items[..n + 1][..n] == items[..n];
      DevicesRaisedStays(items, n + 1);
    } else {
      assert items[..n] == items;
    }
  }

  /** The devices are at most as many as the items, none of them empty. */
  lemma {:induction false} DevicesBound(items: seq<Value>)
    requires Devices(items).Ok?
    ensures |Devices(items).value| <= |items|
    ensures forall i :: 0 <= i < |Devices(items).value| ==> Devices(items).value[i] != ""
  {
    if items != [] {
      DevicesBound(items[..|items| - 1]);
    }
  }

  /** The list case of `summarize_gpu`: "N/A" for an empty list and when
      neither of the first two entries names a device; otherwise the names
      of at most those two, joined by " / " and cut at 140 characters. */
  lemma SummarizeGpuList(report: Value)
    requires report.Dict? && Get(report, "graphics", Null).List?
    ensures var items := Get(report, "graphics", Null).items;
      var firstTwo := if |items| <= 2 then items else items[..2];
      && (items == [] ==> SummarizeGpu(report) == Ok("N/A"))
      && (Devices(firstTwo).Raised? ==> SummarizeGpu(report) == Raised(Devices(firstTwo).exc))
      && (Devices(firstTwo).Ok? ==>
            && |Devices(firstTwo).value| <= 2
            && SummarizeGpu(report) == Ok(
                 if Devices(firstTwo).value == [] then "N/A"
                 else Truncate(Join(" / ", Devices(firstTwo).value), 140)))
  {
    var items := Get(report, "graphics", Null).items;
    var firstTwo := if |items| <= 2 then items else items[..2];
    if Devices(firstTwo).Ok? {
      DevicesBound(firstTwo);
    }
  }

  /** A report whose graphics are missing or falsy is summarised "N/A". */
  lemma SummarizeGpuAbsent(report: Value)
    requires report.Dict? && !Truthy(Get(report, "graphics", Null))
    ensures SummarizeGpu(report) == Ok("N/A")
  {
  }

  /** The summary is never longer than 141 characters, is the whole joined
      text when that fits in 140, and otherwise its first 140 characters
      followed by the ellipsis. */
  lemma TruncateBound(s: string)
    ensures |Truncate(s, 140)| <= 141
    ensures |s| <= 140 ==> Truncate(s, 140) == s
    ensures |s| > 140 ==> |Truncate(s, 140)| == 141 && Truncate(s, 140)[140] == '\U{2026}'
    ensures StartsWith(Truncate(s, 140), Take(s, 140))
  {
  }

  // ---------------------------------------------------------------- read_reports

  /** `d[key] = v` on a dict: an existing key keeps its place and takes the
      new value; a new key is added at the end. */
  function SetKey(members: seq<(string, Value)>, key: string, v: Value): seq<(string, Value)>
  {
    if Lookup(members, key).Some? then Replace(members, key, v) else members + [(key, v)]
  }

  function Replace(members: seq<(string, Value)>, key: string, v: Value): seq<(string, Value)>
  {
    if members == [] then []
    else
      var last := members[|members| - 1];
      Replace(members[..|members| - 1], key, v) + [if last.0 == key then (key, v) else last]
  }

  lemma {:induction false} ReplaceLookup(members: seq<(string, Value)>, key: string, v: Value, other: string)
    ensures other == key ==> Lookup(Replace(members, key, v), other) == if Lookup(members, key).Some? then Some(v) else None
    ensures other != key ==> Lookup(Replace(members, key, v), other) == Lookup(members, other)
  {
    if members != [] {
      ReplaceLookup(members[..|members| - 1], key, v, other);
    }
  }

  /** After `d[key] = v`, the key holds `v` and every other key is as it was. */
  lemma SetKeyLookup(members: seq<(string, Value)>, key: string, v: Value, other: string)
    ensures Lookup(SetKey(members, key, v), other) == if other == key then Some(v) else Lookup(members, other)
  {
    ReplaceLookup(members, key, v, other);
  }

  /** The report a listed file contributes: a ".json" file holding an
      object, with "_file" set to its name. Anything `json.loads` or the
      item assignment raises on is caught and the file skipped. */
  function Loaded(e: DirEntry): Option<Value>
  {
    if !EndsWith(e.name, ".json") then None
    else match e.content
      case Parsed(data) =>
        if data.Dict? then Some(Dict(SetKey(data.members, "_file", Str(e.name)))) else None
      case _ => None
  }

  /** The reports of the listing, in listing order. */
  function LoadAll(entries: seq<DirEntry>): (r: seq<Value>)
    ensures forall i :: 0 <= i < |r| ==> r[i].Dict?
  {
    if entries == [] then []
    else
      var l := Loaded(entries[|entries| - 1]);
      LoadAll(entries[..|entries| - 1]) + (if l.Some? then [l.value] else [])
  }

  /** `x.get("timestamp", "")`. */
  function TimestampOf(report: Value): Value
    requires report.Dict?
  {
    Get(report, "timestamp", Str(""))
  }

  /** Every sort key is a string, so the sort compares strings only. */
  predicate StringKeys(reports: seq<Value>)
  {
    forall i :: 0 <= i < |reports| ==> reports[i].Dict? && TimestampOf(reports[i]).Str?
  }

  /** The key the sort compares: the timestamp string. */
  function TimestampKey(report: Value): Key
  {
    if report.Dict? && TimestampOf(report).Str? then Key(0, TimestampOf(report).s) else Key(0, "")
  }

  /** `read_reports()`: the reports sorted by descending timestamp string,
      equal strings keeping listing order. Comparing keys that are not
      all strings raises TypeError once there are two reports. */
  function ReadReports(entries: seq<DirEntry>): Result<seq<Value>>
  {
    var reports := LoadAll(entries);
    if |reports| >= 2 && !StringKeys(reports) then Raised(TypeError)
    else Ok(SortDescending(reports, TimestampKey))
  }

  /** The loop of `read_reports`, then the sort. */
  method ReadReportsLoop(entries: seq<DirEntry>) returns (r: Result<seq<Value>>)
    ensures r == ReadReports(entries)
  {
    var reports: seq<Value> := [];
    var i := 0;
    while i < |entries|
      invariant 0 <= i <= |entries|
      invariant reports == LoadAll(entries[..i])
    {
      assert entries[..i + 1][..i] == entries[..i];
      var l := Loaded(entries[i]);
      if l.Some? {
        reports := reports + [l.value];
      }
      i := i + 1;
    }
    assert entries[..i] == entries;
    if |reports| >= 2 && !StringKeys(reports) {
      return Raised(TypeError);
    }
    r := Ok(SortDescending(reports, TimestampKey));
  }

  /** The reports read are those of the ".json" files holding objects,
      each naming its file; sorted by descending timestamp string as a
      stable permutation of the listing order. */
  lemma ReadReportsOrdered(entries: seq<DirEntry>)
    requires ReadReports(entries).Ok?
    ensures var reports := ReadReports(entries).value;
      && multiset(reports) == multiset(LoadAll(entries))
      && (forall i, j :: 0 <= i < j < |reports| ==> !KeyLess(TimestampKey(reports[i]), TimestampKey(reports[j])))
      && (forall k :: WithKey(reports, TimestampKey, k) == WithKey(LoadAll(entries), TimestampKey, k))
  {
    var loaded := LoadAll(entries);
    SortIsDescending(loaded, TimestampKey);
    SortIsPermutation(loaded, TimestampKey);
    forall k ensures WithKey(ReadReports(entries).value, TimestampKey, k) == WithKey(loaded, TimestampKey, k) {
      SortIsStable(loaded, TimestampKey, k);
    }
  }

  /** With string keys, no two reports are out of order: a later report
      never has a timestamp string greater than an earlier one. */
  lemma ReadReportsByTimestamp(entries: seq<DirEntry>, i: nat, j: nat)
    requires ReadReports(entries).Ok?
    requires var reports := ReadReports(entries).value;
      i < j < |reports| && StringKeys(reports)
    ensures var reports := ReadReports(entries).value;
      !LexLess(TimestampOf(reports[i]).s, TimestampOf(reports[j]).s)
  {
    ReadReportsOrdered(entries);
  }

  /** A loaded report names the file it came from under "_file". */
  lemma LoadedNamesFile(e: DirEntry)
    requires Loaded(e).Some?
    ensures Lookup(Loaded(e).value.members, "_file") == Some(Str(e.name))
  {
    SetKeyLookup(e.content.value.members, "_file", Str(e.name), "_file");
  }

  /** No more reports than files, and none when no file loads. */
  lemma {:induction false} LoadAllExact(entries: seq<DirEntry>)
    ensures |LoadAll(entries)| <= |entries|
    ensures (forall i :: 0 <= i < |entries| ==> Loaded(entries[i]).None?) ==> LoadAll(entries) == []
  {
    if entries != [] {
      var p := entries[..|entries| - 1];
      LoadAllExact(p);
      if forall i :: 0 <= i < |entries| ==> Loaded(entries[i]).None? {
        assert forall i :: 0 <= i < |p| ==> p[i] == entries[i];
      }
    }
  }

  /** The reports are read file by file, in listing order: the reports of
      a concatenated listing are those of its parts, concatenated. */
  lemma {:induction false} LoadAllConcat(a: seq<DirEntry>, b: seq<DirEntry>)
    ensures LoadAll(a + b) == LoadAll(a) + LoadAll(b)
    decreases |b|
  {
    if b == [] {
      assert a + b == a;
    } else {
      var b' := b[..|b| - 1];
      var e := b[|b| - 1];
      LoadAllConcat(a, b');
      assert (a + b)[..|a + b| - 1] == a + b';
      assert (a + b)[|a + b| - 1] == e;
      var tail := if Loaded(e).Some? then [Loaded(e).value] else [];
      assert LoadAll(a + b) == LoadAll(a + b') + tail;
      assert LoadAll(b) == LoadAll(b') + tail;
    }
  }

  /** One file gives its report when it loads and nothing otherwise. */
  lemma LoadAllOne(e: DirEntry)
    ensures LoadAll([e]) == if Loaded(e).Some? then [Loaded(e).value] else []
  {
    assert [e][..0] == [];
  }

  // ---------------------------------------------------------------- shared columns

  /** The date column: the first ten characters of a string timestamp,
      `fallback` for any other value. */
  function DateOf(ts: Value, fallback: string): (r: string)
    ensures ts.Str? ==> |r| <= 10 && StartsWith(ts.s, r) && (|ts.s| >= 10 ==> |r| == 10)
    ensures ts.Str? && |ts.s| < 10 ==> r == ts.s
    ensures !ts.Str? ==> r == fallback
  {
    if ts.Str? then Take(ts.s, 10) else fallback
  }

  /** DATABASE.md's date: the first ten characters of a non-empty string
      timestamp, "N/A" for anything else (a falsy timestamp becomes "N/A"
      before the test, any other value fails it). */
  lemma MdDate(ts: Value)
    ensures DateOf(Or(ts, Str("N/A")), "N/A") == if ts.Str? && ts.s != "" then Take(ts.s, 10) else "N/A"
  {
  }

  /** The catalog's date: the first ten characters of a string timestamp,
      "" for anything else. */
  lemma IndexDate(ts: Value)
    ensures DateOf(Or(ts, Str("")), "") == if ts.Str? then Take(ts.s, 10) else ""
  {
  }

  // ---------------------------------------------------------------- DATABASE.md

  const MdHeader: seq<string> := [
    "# \U{1F5A5}\U{FE0F} M&E Hardware Compatibility Database\n\n",
    "> This database is generated automatically from approved reports (PR merged).\n\n",
    "| Date | ID | OS | CPU | GPU | Notes |\n",
    "| :--- | :--- | :--- | :--- | :--- | :--- |\n"
  ]

  /** The notes column of DATABASE.md: newlines become spaces, the text is
      stripped and cut at 180 characters; `.replace` on a value that is
      not a string raises AttributeError. */
  function MdNotes(report: Value): Result<string>
  {
    if !report.Dict? then Raised(AttributeError)
    else
    var notes := Or(Get(report, "user_notes", Null), Str("No notes"));
    if !notes.Str? then Raised(AttributeError)
    else Ok(Truncate(Strip(ReplaceChar(notes.s, '\n', ' ')), 180))
  }

  /** The DATABASE.md line of one report. */
  function MdLine(report: Value): Result<string>
  {
    if !report.Dict? then Raised(AttributeError)
    else
    var ts := Or(Get(report, "timestamp", Null), Str("N/A"));
    var date := DateOf(ts, "N/A");
    var rid := ToStr(Or(Get(report, "report_id", Null), Str("N/A")));
    var os := ToStr(Walk(report, ["system", "os_release"]).GetOr(Str("Unknown")));
    var cpu := ToStr(Walk(report, ["processor", "model"]).GetOr(Str("Unknown")));
    match SummarizeGpu(report)
    case Raised(e) => Raised(e)
    case Ok(gpu) =>
      match MdNotes(report)
      case Raised(e) => Raised(e)
      case Ok(notes) =>
        Ok("| " + date + " | `" + rid + "` | " + os + " | " + cpu + " | " + gpu + " | " + notes + " |\n")
  }

  /** `"".join(parts)`. */
  function Concat(parts: seq<string>): string
  {
    if parts == [] then "" else Concat(parts[..|parts| - 1]) + parts[|parts| - 1]
  }

  /** The text `write_database_md` writes, or the exception it raises. */
  function DatabaseMd(reports: seq<Value>): Result<string>
  {
    match Each(MdLine, reports)
    case Raised(e) => Raised(e)
    case Ok(lines) => Ok(Concat(MdHeader + lines))
  }

  /** The loop of `write_database_md`. */
  method WriteDatabaseMd(reports: seq<Value>) returns (r: Result<string>)
    ensures r == DatabaseMd(reports)
  {
    var lines: seq<string> := [];
    var i := 0;
    while i < |reports|
      invariant 0 <= i <= |reports|
      invariant Each(MdLine, reports[..i]) == Ok(lines)
    {
      assert reports[..i + 1][..i] == reports[..i];
      var line := MdLine(reports[i]);
      if line.Raised? {
        EachRaisedStays(MdLine, reports, i + 1);
        assert reports[..|reports|] == reports;
        return Raised(line.exc);
      }
      lines := lines + [line.value];
      i := i + 1;
    }
    assert reports[..i] == reports;
    r := Ok(Concat(MdHeader + lines));
  }

  /** DATABASE.md is its four header lines followed by one line per
      report, in the order the reports were read. */
  lemma DatabaseMdLines(reports: seq<Value>)
    requires DatabaseMd(reports).Ok?
    ensures Each(MdLine, reports).Ok?
    ensures DatabaseMd(reports).value == Concat(MdHeader + Each(MdLine, reports).value)
    ensures |Each(MdLine, reports).value| == |reports|
    ensures forall i :: 0 <= i < |reports| ==>
      MdLine(reports[i]).Ok? && Each(MdLine, reports).value[i] == MdLine(reports[i]).value
  {
    EachExact(MdLine, reports);
  }

  /** The notes column holds no line break and is at most 181 characters
      long; missing notes read "No notes". */
  lemma MdNotesShape(report: Value)
    requires report.Dict? && MdNotes(report).Ok?
    ensures '\n' !in MdNotes(report).value
    ensures |MdNotes(report).value| <= 181
    ensures !Truthy(Get(report, "user_notes", Null)) ==> MdNotes(report).value == "No notes"
  {
    var notes := Or(Get(report, "user_notes", Null), Str("No notes"));
    var flat := ReplaceChar(notes.s, '\n', ' ');
    var s := Strip(flat);
    StripShape(flat);
    assert '\n' !in s by {
      forall k | 0 <= k < |s| ensures s[k] != '\n' {
        assert s[k] == flat[StripStart(flat) + k];
      }
    }
    if !Truthy(Get(report, "user_notes", Null)) {
      assert notes.s == "No notes";
      NoNotesText();
    }
  }

  lemma NoNotesText()
    ensures Truncate(Strip(ReplaceChar("No notes", '\n', ' ')), 180) == "No notes"
  {
    var flat := ReplaceChar("No notes", '\n', ' ');
    assert flat == "No notes";
    assert LeadingSpace(flat) == 0;
    assert TrailingSpace(flat) == 0;
  }

  // ---------------------------------------------------------------- docs/index.json

  /** One element of the payload's "reports" list. */
  datatype CatalogRow = CatalogRow(
    timestamp: Value,
    date: string,
    reportId: Value,
    osRelease: Value,
    kernel: Value,
    platform: Value,
    cpu: Value,
    cores: Value,
    memoryTotalGb: Value,
    gpu: string,
    notes: string,
    rawFile: Value)

  /** The payload of docs/index.json; `generatedAt` is the time of the run. */
  datatype Payload = Payload(generatedAt: string, count: nat, reports: seq<CatalogRow>)

  /** The catalog row of one report. */
  function IndexRow(report: Value): Result<CatalogRow>
  {
    if !report.Dict? then Raised(AttributeError)
    else
    var ts := Or(Get(report, "timestamp", Null), Str(""));
    match SummarizeGpu(report)
    case Raised(e) => Raised(e)
    case Ok(gpu) =>
      var notes := Or(Get(report, "user_notes", Null), Str(""));
      if !notes.Str? then Raised(AttributeError)
      else Ok(CatalogRow(
        ts,
        DateOf(ts, ""),
        Or(Get(report, "report_id", Null), Str("")),
        Walk(report, ["system", "os_release"]).GetOr(Str("")),
        Walk(report, ["system", "kernel"]).GetOr(Str("")),
        Walk(report, ["system", "platform"]).GetOr(Str("")),
        Walk(report, ["processor", "model"]).GetOr(Str("")),
        Walk(report, ["processor", "cores"]).GetOr(Str("")),
        Walk(report, ["memory", "total_gb"]).GetOr(Str("")),
        gpu,
        Strip(notes.s),
        Get(report, "_file", Str(""))))
  }

  /** What `write_index_json` serialises, or the exception it raises. */
  function IndexPayload(reports: seq<Value>, generatedAt: string): Result<Payload>
  {
    match Each(IndexRow, reports)
    case Raised(e) => Raised(e)
    case Ok(rows) => Ok(Payload(generatedAt, |rows|, rows))
  }

  /** The loop of `write_index_json`. */
  method WriteIndexJson(reports: seq<Value>, generatedAt: string) returns (r: Result<Payload>)
    ensures r == IndexPayload(reports, generatedAt)
  {
    var rows: seq<CatalogRow> := [];
    var i := 0;
    while i < |reports|
      invariant 0 <= i <= |reports|
      invariant Each(IndexRow, reports[..i]) == Ok(rows)
    {
      assert reports[..i + 1][..i] == reports[..i];
      var row := IndexRow(reports[i]);
      if row.Raised? {
        EachRaisedStays(IndexRow, reports, i + 1);
        assert reports[..|reports|] == reports;
        return Raised(row.exc);
      }
      rows := rows + [row.value];
      i := i + 1;
    }
    assert reports[..i] == reports;
    r := Ok(Payload(generatedAt, |rows|, rows));
  }

  /** The payload is written exactly when every report has a row; its
      count is the number of rows, one per report read, each built from
      the report in the same position. */
  lemma PayloadCount(reports: seq<Value>, generatedAt: string)
    ensures IndexPayload(reports, generatedAt).Ok? <==> forall i :: 0 <= i < |reports| ==> IndexRow(reports[i]).Ok?
    ensures IndexPayload(reports, generatedAt).Ok? ==>
      var p := IndexPayload(reports, generatedAt).value;
      && p.count == |p.reports| == |reports|
      && p.generatedAt == generatedAt
      && forall i :: 0 <= i < |reports| ==> p.reports[i] == IndexRow(reports[i]).value
  {
    EachExact(IndexRow, reports);
  }

  /** The columns of a catalog row: the timestamp, report id and notes
      fall back to "" when falsy; the date is the first ten characters of
      a string timestamp and empty otherwise; the notes are stripped; the
      six nested columns are `safe_get` with default ""; the GPU column is
      the summary; "raw_file" is the "_file" member or "". */
  lemma IndexRowColumns(report: Value)
    requires report.Dict? && IndexRow(report).Ok?
    ensures var row := IndexRow(report).value;
      var ts := Get(report, "timestamp", Null);
      && (Truthy(ts) ==> row.timestamp == ts)
      && (!Truthy(ts) ==> row.timestamp == Str(""))
      && (row.timestamp.Str? ==> row.date == Take(row.timestamp.s, 10))
      && (!row.timestamp.Str? ==> row.date == "")
    ensures var row := IndexRow(report).value;
      var id := Get(report, "report_id", Null);
      && (Truthy(id) ==> row.reportId == id)
      && (!Truthy(id) ==> row.reportId == Str(""))
    ensures var row := IndexRow(report).value;
      && row.osRelease == Walk(report, ["system", "os_release"]).GetOr(Str(""))
      && row.kernel == Walk(report, ["system", "kernel"]).GetOr(Str(""))
      && row.platform == Walk(report, ["system", "platform"]).GetOr(Str(""))
      && row.cpu == Walk(report, ["processor", "model"]).GetOr(Str(""))
      && row.cores == Walk(report, ["processor", "cores"]).GetOr(Str(""))
      && row.memoryTotalGb == Walk(report, ["memory", "total_gb"]).GetOr(Str(""))
    ensures SummarizeGpu(report).Ok? && IndexRow(report).value.gpu == SummarizeGpu(report).value
    ensures var row := IndexRow(report).value;
      var notes := Get(report, "user_notes", Null);
      && Strip(row.notes) == row.notes
      && (Truthy(notes) ==> notes.Str? && row.notes == Strip(notes.s))
      && (!Truthy(notes) ==> row.notes == "")
    ensures var row := IndexRow(report).value;
      && (HasKey(report, "_file") ==> row.rawFile == Lookup(report.members, "_file").value)
      && (!HasKey(report, "_file") ==> row.rawFile == Str(""))
  {
    var notes := Or(Get(report, "user_notes", Null), Str(""));
    StripIdempotent(notes.s);
  }

  // ---------------------------------------------------------------- main

  /** What a run of build_database.py leaves behind: each output is written
      only if everything before it succeeded. */
  datatype CatalogRun = CatalogRun(databaseMd: Option<string>, indexJson: Option<Payload>, failure: Option<Exception>)

  function RunCatalog(entries: seq<DirEntry>, generatedAt: string): CatalogRun
  {
    match ReadReports(entries)
    case Raised(e) => CatalogRun(None, None, Some(e))
    case Ok(reports) =>
      match DatabaseMd(reports)
      case Raised(e) => CatalogRun(None, None, Some(e))
      case Ok(md) =>
        match IndexPayload(reports, generatedAt)
        case Raised(e) => CatalogRun(Some(md), None, Some(e))
        case Ok(p) => CatalogRun(Some(md), Some(p), None)
  }

  /** The JSON catalog is written only after DATABASE.md, and a run that
      raises says so. */
  lemma RunOrder(entries: seq<DirEntry>, generatedAt: string)
    ensures RunCatalog(entries, generatedAt).indexJson.Some? ==> RunCatalog(entries, generatedAt).databaseMd.Some?
    ensures RunCatalog(entries, generatedAt).failure.None? <==> RunCatalog(entries, generatedAt).indexJson.Some?
  {
  }
}
