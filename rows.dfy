/** `build_report_rows`: one summary row per usable report file of the
    store, in descending order of (parsed timestamp or `datetime.min`,
    report id). issue-to-report.py's copy also derives a GPU label;
    rebuild-results-index.py's copy does not (`withGpu` tells which). */
module ReportRows {
  import opened Common
  import opened PyStrings
  import opened PyJson
  import opened Timestamps
  import opened StableSort

  /** What opening and `json.load`-ing one listed file gives. */
  datatype FileContent =
    | Unreadable            // OSError: caught, the file is skipped
    | NotJson               // json.JSONDecodeError: caught, the file is skipped
    | NotUtf8               // UnicodeDecodeError: not caught
    | Parsed(value: Value)

  /** One name of `sorted(os.listdir(reports_dir))` and its file. */
  datatype DirEntry = DirEntry(name: string, content: FileContent)

  /** The dict appended to `rows`; `gpu` is absent in rebuild-results-index.py. */
  datatype Row = Row(
    reportId: string,
    timestamp: string,
    instant: Option<Instant>,
    system: string,
    processor: string,
    memory: string,
    gpu: Option<string>)

  /** What the loop body does with one listed file. */
  datatype Step = Skip | Emit(row: Row) | Abort(exc: Exception)

  /** `d.get(k1) or d.get(k2) or ... or ""`. */
  function FirstTruthy(d: Value, keys: seq<string>): (r: Value)
    requires d.Dict?
    ensures Truthy(r) || r == Str("")
  {
    if keys == [] then Str("") else Or(Get(d, keys[0], Null), FirstTruthy(d, keys[1..]))
  }

  /** The chain picks the first candidate that is truthy, and "" when none is. */
  lemma {:induction false} FirstTruthyIsFirst(d: Value, keys: seq<string>, i: nat)
    requires d.Dict? && i <= |keys|
    requires forall j :: 0 <= j < i ==> !Truthy(Get(d, keys[j], Null))
    ensures i < |keys| && Truthy(Get(d, keys[i], Null)) ==> FirstTruthy(d, keys) == Get(d, keys[i], Null)
    ensures i == |keys| ==> FirstTruthy(d, keys) == Str("")
  {
    if i > 0 {
      assert !Truthy(Get(d, keys[0], Null));
      forall j | 0 <= j < i - 1 ensures !Truthy(Get(d, keys[1..][j], Null)) {
        assert keys[1..][j] == keys[j + 1];
      }
      FirstTruthyIsFirst(d, keys[1..], i - 1);
    }
  }

  /** `[part for part in parts if part]`. */
  function NonEmpty(parts: seq<string>): (r: seq<string>)
    ensures forall i :: 0 <= i < |r| ==> r[i] != ""
  {
    if parts == [] then []
    else (if parts[0] != "" then [parts[0]] else []) + NonEmpty(parts[1..])
  }

  function VendorPart(system: Value): string
    requires system.Dict?
  {
    Strip(ToStr(FirstTruthy(system, ["vendor", "manufacturer", "brand"])))
  }

  function ModelPart(system: Value): string
    requires system.Dict?
  {
    Strip(ToStr(FirstTruthy(system, ["model", "product", "name"])))
  }

  /** The "system" column: vendor and model, space-joined, empty parts dropped. */
  function SystemLabel(system: Value): string
    requires system.Dict?
  {
    Join(" ", NonEmpty([VendorPart(system), ModelPart(system)]))
  }

  /** Two parts joined with a space, an empty one left out. */
  lemma JoinPresentParts(v: string, m: string)
    ensures Join(" ", NonEmpty([v, m])) ==
      if v != "" && m != "" then v + " " + m
      else if v != "" then v
      else m
  {
    assert [v, m][1..] == [m];
    assert NonEmpty([m][1..]) == [];
  }

  /** The "system" column is "vendor model", or whichever of them is non-empty. */
  lemma SystemLabelCases(system: Value)
    requires system.Dict?
    ensures var v, m := VendorPart(system), ModelPart(system);
      SystemLabel(system) ==
        if v != "" && m != "" then v + " " + m
        else if v != "" then v
        else m
  {
    JoinPresentParts(VendorPart(system), ModelPart(system));
  }

  function ProcessorLabel(processor: Value): string
    requires processor.Dict?
  {
    Strip(ToStr(FirstTruthy(processor, ["model", "name"])))
  }

  function MemoryLabel(memory: Value): string
    requires memory.Dict?
  {
    Strip(ToStr(FirstTruthy(memory, ["total_gb", "total"])))
  }

  /** `str(gpu.get("device") or "").strip()`. */
  function DeviceName(gpu: Value): string
    requires gpu.Dict?
  {
    Strip(ToStr(Or(Get(gpu, "device", Null), Str(""))))
  }

  /** The name one element of graphics contributes: a dict with a
      non-empty device name. */
  function GpuName(g: Value): Option<string>
  {
    if g.Dict? && DeviceName(g) != "" then Some(DeviceName(g)) else None
  }

  /** The names the `gpu_names` loop collects from the elements it visits:
      non-dict elements are passed over, and so are empty names. */
  function DeviceNames(items: seq<Value>): seq<string>
  {
    if items == [] then []
    else
      var n := GpuName(items[|items| - 1]);
      DeviceNames(items[..|items| - 1]) + (if n.Some? then [n.value] else [])
  }

  /** Every collected name comes from an element, and every element that
      names a device is represented (`DeviceNamesConcat` gives the order). */
  lemma DeviceNamesExact(items: seq<Value>)
    ensures forall n :: n in DeviceNames(items) ==>
      exists k :: 0 <= k < |items| && GpuName(items[k]) == Some(n)
    ensures forall k :: 0 <= k < |items| && GpuName(items[k]).Some? ==>
      GpuName(items[k]).value in DeviceNames(items)
  {
    forall n | n in DeviceNames(items)
      ensures exists k :: 0 <= k < |items| && GpuName(items[k]) == Some(n)
    {
      NameHasSource(items, n);
    }
    forall k | 0 <= k < |items| && GpuName(items[k]).Some?
      ensures GpuName(items[k]).value in DeviceNames(items)
    {
      SourceHasName(items, k);
    }
  }

  /** A collected name has an element it comes from. */
  lemma {:induction false} NameHasSource(items: seq<Value>, n: string)
    requires n in DeviceNames(items)
    ensures exists k :: 0 <= k < |items| && GpuName(items[k]) == Some(n)
  {
    var p := items[..|items| - 1];
    var last := GpuName(items[|items| - 1]);
    var tail := if last.Some? then [last.value] else [];
    assert DeviceNames(items) == DeviceNames(p) + tail;
    if n in DeviceNames(p) {
      NameHasSource(p, n);
      var k :| 0 <= k < |p| && GpuName(p[k]) == Some(n);
      assert items[k] == p[k];
    } else {
      assert n in tail;
      assert GpuName(items[|items| - 1]) == Some(n);
    }
  }

  /** An element that names a device has its name collected. */
  lemma {:induction false} SourceHasName(items: seq<Value>, k: int)
    requires 0 <= k < |items| && GpuName(items[k]).Some?
    ensures GpuName(items[k]).value in DeviceNames(items)
  {
    var p := items[..|items| - 1];
    var last := GpuName(items[|items| - 1]);
    var tail := if last.Some? then [last.value] else [];
    assert DeviceNames(items) == DeviceNames(p) + tail;
    if k < |p| {
      assert items[k] == p[k];
      SourceHasName(p, k);
    } else {
      assert k == |items| - 1;
      assert tail == [GpuName(items[k]).value];
    }
  }

  /** The names are collected element by element, in order: the names of
      a concatenation are the names of its parts, concatenated. */
  lemma {:induction false} DeviceNamesConcat(a: seq<Value>, b: seq<Value>)
    ensures DeviceNames(a + b) == DeviceNames(a) + DeviceNames(b)
    decreases |b|
  {
    if b == [] {
      assert a + b == a;
    } else {
      var b' := b[..|b| - 1];
      var x := b[|b| - 1];
      DeviceNamesConcat(a, b');
      assert (a + b)[..|a + b| - 1] == a + b';
      assert (a + b)[|a + b| - 1] == x;
      var tail := if GpuName(x).Some? then [GpuName(x).value] else [];
      assert DeviceNames(a + b) == DeviceNames(a + b') + tail;
      assert DeviceNames(b) == DeviceNames(b') + tail;
    }
  }

  /** One element contributes its own name, or none. */
  lemma DeviceNamesOne(x: Value)
    ensures DeviceNames([x]) == if GpuName(x).Some? then [GpuName(x).value] else []
  {
    assert [x][..0] == [];
  }

  /** Every collected name is non-empty. */
  lemma {:induction false} DeviceNamesNonEmpty(items: seq<Value>)
    ensures forall i :: 0 <= i < |DeviceNames(items)| ==> DeviceNames(items)[i] != ""
  {
    if items != [] {
      DeviceNamesNonEmpty(items[..|items| - 1]);
    }
  }

  /** "for gpu in graphics" over a dict or a string visits only strings,
      so no name is collected. */
  lemma {:induction false} DeviceNamesOfNonDicts(items: seq<Value>)
    requires forall k :: 0 <= k < |items| ==> !items[k].Dict?
    ensures DeviceNames(items) == []
  {
    if items != [] {
      DeviceNamesOfNonDicts(items[..|items| - 1]);
    }
  }

  /** The "gpu" column: `", ".join(gpu_names)`; iterating a graphics value
      that is not a list, dict or string raises TypeError. */
  function GpuLabel(graphics: Value): Result<string>
  {
    match Iterate(graphics)
    case Raised(e) => Raised(e)
    case Ok(items) => Ok(Join(", ", DeviceNames(items)))
  }

  /** `str(data.get("report_id", "")).strip()`. */
  function StrippedId(data: Value): string
    requires data.Dict?
  {
    Strip(ToStr(Get(data, "report_id", Str(""))))
  }

  /** `data.get(key, {}) or {}` (a list for "graphics"). */
  function Section(data: Value, key: string, empty: Value): Value
    requires data.Dict?
  {
    Or(Get(data, key, empty), empty)
  }

  /** The row of a parsed object whose sections have the right kinds. */
  function MakeRow(data: Value, system: Value, processor: Value, memory: Value, gpu: Option<string>,
                   fromIso: string -> Option<Instant>): Row
    requires data.Dict? && system.Dict? && processor.Dict? && memory.Dict?
  {
    var timestamp := Get(data, "timestamp", Str(""));
    Row(
      StrippedId(data),
      Strip(ToStr(timestamp)),
      ParseTimestamp(timestamp, fromIso),
      SystemLabel(system),
      ProcessorLabel(processor),
      MemoryLabel(memory),
      gpu)
  }

  /** The loop body for a file that parsed to an object. */
  function ObjectStep(data: Value, withGpu: bool, fromIso: string -> Option<Instant>): Step
    requires data.Dict?
  {
    if StrippedId(data) == "" then Skip
    else
      var system := Section(data, "system", Dict([]));
      var processor := Section(data, "processor", Dict([]));
      var memory := Section(data, "memory", Dict([]));
      var graphics := Section(data, "graphics", List([]));
      if !system.Dict? || !processor.Dict? || !memory.Dict? then Abort(AttributeError)
      else if !withGpu then Emit(MakeRow(data, system, processor, memory, None, fromIso))
      else match GpuLabel(graphics)
        case Raised(x) => Abort(x)
        case Ok(gpu) => Emit(MakeRow(data, system, processor, memory, Some(gpu), fromIso))
  }

  /** The loop body of `build_report_rows` for one listed file. */
  function EntryStep(e: DirEntry, withGpu: bool, fromIso: string -> Option<Instant>): Step
  {
    if !EndsWith(e.name, ".json") then Skip
    else match e.content
      case Unreadable => Skip
      case NotJson => Skip
      case NotUtf8 => Abort(UnicodeDecodeError)
      case Parsed(data) => if !data.Dict? then Abort(AttributeError) else ObjectStep(data, withGpu, fromIso)
  }

  /** The loop body's outcome for each listed file, in listing order. */
  function Steps(entries: seq<DirEntry>, step: DirEntry -> Step): (r: seq<Step>)
    ensures |r| == |entries|
    ensures forall k :: 0 <= k < |entries| ==> r[k] == step(entries[k])
  {
    seq(|entries|, k requires 0 <= k < |entries| => step(entries[k]))
  }

  /** The loop body as a function of the file alone. */
  function StepOf(withGpu: bool, fromIso: string -> Option<Instant>): DirEntry -> Step
  {
    e => EntryStep(e, withGpu, fromIso)
  }

  /** The rows the loop appends, in order, or the first uncaught exception. */
  function Gather(steps: seq<Step>): Result<seq<Row>>
  {
    if steps == [] then Ok([])
    else match Gather(steps[..|steps| - 1])
      case Raised(e) => Raised(e)
      case Ok(rows) =>
        match steps[|steps| - 1]
        case Skip => Ok(rows)
        case Emit(row) => Ok(rows + [row])
        case Abort(e) => Raised(e)
  }

  /** The rows appended over the whole listing. */
  function CollectRows(entries: seq<DirEntry>, withGpu: bool, fromIso: string -> Option<Instant>): Result<seq<Row>>
  {
    Gather(Steps(entries, StepOf(withGpu, fromIso)))
  }

  /** The sort key `(timestamp_dt or datetime.min, report_id)`. */
  function RowKey(row: Row): Key
  {
    Key(row.instant.GetOr(MinInstant), row.reportId)
  }

  /** What `build_report_rows` returns, or the exception it raises. */
  function ReportRows(entries: seq<DirEntry>, withGpu: bool, fromIso: string -> Option<Instant>): Result<seq<Row>>
  {
    match CollectRows(entries, withGpu, fromIso)
    case Raised(e) => Raised(e)
    case Ok(rows) => Ok(SortDescending(rows, RowKey))
  }

  /** The `gpu_names` loop. */
  method CollectDeviceNames(items: seq<Value>) returns (names: seq<string>)
    ensures names == DeviceNames(items)
  {
    names := [];
    var i := 0;
    while i < |items|
      invariant 0 <= i <= |items|
      invariant names == DeviceNames(items[..i])
    {
      var gpu := items[i];
      assert items[..i + 1][..i] == items[..i];
      if gpu.Dict? {
        var name := DeviceName(gpu);
        if name != "" {
          names := names + [name];
        }
      }
      assert GpuName(gpu).Some? <==> gpu.Dict? && DeviceName(gpu) != "";
      i := i + 1;
    }
    assert items[..i] == items;
  }

  /** The loop body for one listed file, with its inner GPU loop. */
  method ReadEntry(e: DirEntry, withGpu: bool, fromIso: string -> Option<Instant>) returns (step: Step)
    ensures step == StepOf(withGpu, fromIso)(e)
  {
    if !EndsWith(e.name, ".json") {
      return Skip;
    }
    match e.content {
      case Unreadable => return Skip;
      case NotJson => return Skip;
      case NotUtf8 => return Abort(UnicodeDecodeError);
      case Parsed(data) =>
        if !data.Dict? {
          return Abort(AttributeError);
        }
        var reportId := StrippedId(data);
        if reportId == "" {
          return Skip;
        }
        var system := Section(data, "system", Dict([]));
        var processor := Section(data, "processor", Dict([]));
        var memory := Section(data, "memory", Dict([]));
        var graphics := Section(data, "graphics", List([]));
        if !system.Dict? || !processor.Dict? || !memory.Dict? {
          return Abort(AttributeError);
        }
        var gpu: Option<string> := None;
        if withGpu {
          match Iterate(graphics) {
            case Raised(x) => return Abort(x);
            case Ok(items) =>
              var names := CollectDeviceNames(items);
              gpu := Some(Join(", ", names));
          }
        }
        step := Emit(MakeRow(data, system, processor, memory, gpu, fromIso));
    }
  }

  /** `build_report_rows`: the loop over the listing, then the sort. */
  method BuildReportRows(entries: seq<DirEntry>, withGpu: bool, fromIso: string -> Option<Instant>)
    returns (result: Result<seq<Row>>)
    ensures result == ReportRows(entries, withGpu, fromIso)
  {
    ghost var steps := Steps(entries, StepOf(withGpu, fromIso));
    var rows: seq<Row> := [];
    var i := 0;
    while i < |entries|
      invariant 0 <= i <= |entries|
      invariant Gather(steps[..i]) == Ok(rows)
    {
      var step := ReadEntry(entries[i], withGpu, fromIso);
      assert steps[i] == step;
      GatherNext(steps, i, rows);
      match step {
        case Skip =>
        case Emit(row) => rows := rows + [row];
        case Abort(x) =>
          RaisedPropagates(steps, i + 1);
          assert steps[..|steps|] == steps;
          return Raised(x);
      }
      i := i + 1;
    }
    assert steps[..i] == steps;
    result := Ok(SortDescending(rows, RowKey));
  }

  /** One more step of the loop over a prefix that has not raised. */
  lemma GatherNext(steps: seq<Step>, i: nat, rows: seq<Row>)
    requires i < |steps| && Gather(steps[..i]) == Ok(rows)
    ensures steps[i].Skip? ==> Gather(steps[..i + 1]) == Ok(rows)
    ensures steps[i].Emit? ==> Gather(steps[..i + 1]) == Ok(rows + [steps[i].row])
    ensures steps[i].Abort? ==> Gather(steps[..i + 1]) == Raised(steps[i].exc)
  {
    assert steps[..i + 1][..i] == steps[..i];
  }

  /** Once a prefix of the steps raises, so do all of them. */
  lemma {:induction false} RaisedPropagates(steps: seq<Step>, n: nat)
    requires n <= |steps| && Gather(steps[..n]).Raised?
    ensures Gather(steps) == Gather(steps[..n])
    decreases |steps| - n
  {
    if n < |steps| {
      assert steps[..n + 1][..n] == steps[..n];
      RaisedPropagates(steps, n + 1);
    } else {
      assert steps[..n] == steps;
    }
  }

  lemma StepsConcat(a: seq<DirEntry>, e: DirEntry, b: seq<DirEntry>, f: DirEntry -> Step)
    ensures Steps(a + [e] + b, f) == Steps(a, f) + [f(e)] + Steps(b, f)
    ensures Steps(a + b, f) == Steps(a, f) + Steps(b, f)
  {
  }

  /** A skipping step changes nothing. */
  lemma {:induction false} GatherSkip(a: seq<Step>, b: seq<Step>)
    ensures Gather(a + [Skip] + b) == Gather(a + b)
    decreases |b|
  {
    if b == [] {
      assert (a + [Skip])[..|a|] == a;
      assert a + [Skip] + b == a + [Skip] && a + b == a;
    } else {
      var b' := b[..|b| - 1];
      GatherSkip(a, b');
      assert (a + [Skip] + b)[..|a + [Skip] + b| - 1] == a + [Skip] + b';
      assert (a + b)[..|a + b| - 1] == a + b';
      assert (a + [Skip] + b)[|a + [Skip] + b| - 1] == b[|b| - 1] == (a + b)[|a + b| - 1];
    }
  }

  /** A file that is skipped (not ".json", unreadable, not JSON, or with a
      blank report_id) changes nothing: the rest are collected as if it
      were not there. */
  lemma SkippedFileIgnored(a: seq<DirEntry>, e: DirEntry, b: seq<DirEntry>, withGpu: bool, fromIso: string -> Option<Instant>)
    requires EntryStep(e, withGpu, fromIso).Skip?
    ensures CollectRows(a + [e] + b, withGpu, fromIso) == CollectRows(a + b, withGpu, fromIso)
  {
    var f := StepOf(withGpu, fromIso);
    assert f(e) == Skip;
    StepsConcat(a, e, b, f);
    GatherSkip(Steps(a, f), Steps(b, f));
  }

  /** Steps that all skip gather no row. */
  lemma {:induction false} GatherAllSkip(steps: seq<Step>)
    requires forall k :: 0 <= k < |steps| ==> steps[k] == Skip
    ensures Gather(steps) == Ok([])
  {
    if steps != [] {
      GatherAllSkip(steps[..|steps| - 1]);
    }
  }

  /** A listing whose files are all skipped yields no rows. */
  lemma AllSkippedNoRows(entries: seq<DirEntry>, withGpu: bool, fromIso: string -> Option<Instant>)
    requires forall k :: 0 <= k < |entries| ==> EntryStep(entries[k], withGpu, fromIso) == Skip
    ensures ReportRows(entries, withGpu, fromIso) == Ok([])
  {
    GatherAllSkip(Steps(entries, StepOf(withGpu, fromIso)));
  }

  /** The steps are gathered exactly when none of them raises. */
  lemma {:induction false} GatherOkIff(steps: seq<Step>)
    ensures Gather(steps).Ok? <==> forall k :: 0 <= k < |steps| ==> !steps[k].Abort?
  {
    if steps != [] {
      var p := steps[..|steps| - 1];
      GatherOkIff(p);
      if forall k :: 0 <= k < |steps| ==> !steps[k].Abort? {
        assert forall k :: 0 <= k < |p| ==> p[k] == steps[k];
      }
      if Gather(steps).Ok? {
        forall k | 0 <= k < |steps| ensures !steps[k].Abort? {
          if k < |p| { assert p[k] == steps[k]; }
        }
      }
    }
  }

  /** The gathered rows are exactly the rows of the emitting steps. */
  lemma {:induction false} GatherExact(steps: seq<Step>)
    requires Gather(steps).Ok?
    ensures forall r :: r in Gather(steps).value <==> exists k :: 0 <= k < |steps| && steps[k] == Emit(r)
  {
    if steps != [] {
      var p := steps[..|steps| - 1];
      GatherExact(p);
      forall r ensures r in Gather(steps).value <==> exists k :: 0 <= k < |steps| && steps[k] == Emit(r) {
        if exists k :: 0 <= k < |steps| && steps[k] == Emit(r) {
          var k :| 0 <= k < |steps| && steps[k] == Emit(r);
          if k < |p| { assert p[k] == steps[k]; }
        }
        if r in Gather(p).value {
          var k :| 0 <= k < |p| && p[k] == Emit(r);
          assert steps[k] == p[k];
        }
      }
    }
  }

  /** Gathering runs step by step: a concatenation of steps gathers
      without an exception exactly when both parts do, and then its rows
      are the rows of the first part followed by those of the second. */
  lemma {:induction false} GatherConcat(a: seq<Step>, b: seq<Step>)
    ensures Gather(a + b).Ok? <==> Gather(a).Ok? && Gather(b).Ok?
    ensures Gather(a + b).Ok? ==> Gather(a + b).value == Gather(a).value + Gather(b).value
    decreases |b|
  {
    if b == [] {
      assert a + b == a;
    } else {
      var b' := b[..|b| - 1];
      GatherConcat(a, b');
      assert (a + b)[..|a + b| - 1] == a + b';
      assert (a + b)[|a + b| - 1] == b[|b| - 1];
    }
  }

  /** The rows of a listing are gathered file by file, in listing order:
      the listing `a + b` yields the rows of `a` followed by the rows of
      `b`, and raises when either part does. */
  lemma CollectRowsConcat(a: seq<DirEntry>, b: seq<DirEntry>, withGpu: bool, fromIso: string -> Option<Instant>)
    ensures CollectRows(a + b, withGpu, fromIso).Ok? <==>
      CollectRows(a, withGpu, fromIso).Ok? && CollectRows(b, withGpu, fromIso).Ok?
    ensures CollectRows(a + b, withGpu, fromIso).Ok? ==>
      CollectRows(a + b, withGpu, fromIso).value ==
        CollectRows(a, withGpu, fromIso).value + CollectRows(b, withGpu, fromIso).value
  {
    var f := StepOf(withGpu, fromIso);
    assert Steps(a + b, f) == Steps(a, f) + Steps(b, f) by {
      StepsConcat(a, DirEntry("", Unreadable), b, f);
    }
    GatherConcat(Steps(a, f), Steps(b, f));
  }

  /** One file yields exactly one row when its step emits, none when it is
      skipped, and its exception when it aborts. */
  lemma CollectRowsOne(e: DirEntry, withGpu: bool, fromIso: string -> Option<Instant>)
    ensures CollectRows([e], withGpu, fromIso) ==
      match EntryStep(e, withGpu, fromIso)
      case Skip => Ok([])
      case Emit(row) => Ok([row])
      case Abort(x) => Raised(x)
  {
    var f := StepOf(withGpu, fromIso);
    assert Steps([e], f) == [f(e)];
    GatherOne(f(e));
  }

  lemma GatherOne(step: Step)
    ensures Gather([step]) ==
      match step
      case Skip => Ok([])
      case Emit(row) => Ok([row])
      case Abort(x) => Raised(x)
  {
    assert [step][..0] == [];
    assert Gather([step][..0]) == Ok([]);
    if step.Emit? {
      assert [] + [step.row] == [step.row];
    }
  }

  /** A listing is collected without an exception exactly when no file
      raises one; then the collected rows are exactly the rows the files
      yield. */
  lemma CollectedExactly(entries: seq<DirEntry>, withGpu: bool, fromIso: string -> Option<Instant>)
    ensures CollectRows(entries, withGpu, fromIso).Ok? <==>
      forall k :: 0 <= k < |entries| ==> !EntryStep(entries[k], withGpu, fromIso).Abort?
    ensures CollectRows(entries, withGpu, fromIso).Ok? ==>
      forall r :: r in CollectRows(entries, withGpu, fromIso).value <==>
        exists k :: 0 <= k < |entries| && EntryStep(entries[k], withGpu, fromIso) == Emit(r)
  {
    var steps := Steps(entries, StepOf(withGpu, fromIso));
    GatherOkIff(steps);
    if Gather(steps).Ok? {
      GatherExact(steps);
    }
  }

  /** Which files are skipped: not ".json", unreadable, not JSON, or a
      blank stripped report_id. */
  lemma SkipCases(e: DirEntry, withGpu: bool, fromIso: string -> Option<Instant>)
    ensures !EndsWith(e.name, ".json") ==> EntryStep(e, withGpu, fromIso) == Skip
    ensures e.content.Unreadable? || e.content.NotJson? ==> EntryStep(e, withGpu, fromIso) == Skip
    ensures (EndsWith(e.name, ".json") && e.content.Parsed? && e.content.value.Dict? &&
             StrippedId(e.content.value) == "") ==> EntryStep(e, withGpu, fromIso) == Skip
  {
  }

  /** A row only comes from a ".json" file that parsed to an object with a
      non-empty stripped report_id, which the row carries. */
  lemma EmitCases(e: DirEntry, withGpu: bool, fromIso: string -> Option<Instant>)
    requires EntryStep(e, withGpu, fromIso).Emit?
    ensures EndsWith(e.name, ".json") && e.content.Parsed? && e.content.value.Dict?
    ensures EntryStep(e, withGpu, fromIso).row.reportId == StrippedId(e.content.value) != ""
    ensures EntryStep(e, withGpu, fromIso).row.gpu.Some? == withGpu
  {
  }

  /** An object with a non-empty id and sections of the right kinds yields
      a row carrying that id. */
  lemma ObjectEmits(data: Value, withGpu: bool, fromIso: string -> Option<Instant>)
    requires data.Dict? && StrippedId(data) != ""
    requires Section(data, "system", Dict([])).Dict?
    requires Section(data, "processor", Dict([])).Dict?
    requires Section(data, "memory", Dict([])).Dict?
    requires withGpu ==> Iterate(Section(data, "graphics", List([]))).Ok?
    ensures ObjectStep(data, withGpu, fromIso).Emit?
    ensures ObjectStep(data, withGpu, fromIso).row.reportId == StrippedId(data)
  {
  }

  /** Conversely, such a file yields a row whenever its sections have the
      kinds the row builder reads. */
  lemma EmitWhen(e: DirEntry, withGpu: bool, fromIso: string -> Option<Instant>)
    requires EndsWith(e.name, ".json") && e.content.Parsed? && e.content.value.Dict?
    requires StrippedId(e.content.value) != ""
    requires Section(e.content.value, "system", Dict([])).Dict?
    requires Section(e.content.value, "processor", Dict([])).Dict?
    requires Section(e.content.value, "memory", Dict([])).Dict?
    requires withGpu ==> Iterate(Section(e.content.value, "graphics", List([]))).Ok?
    ensures EntryStep(e, withGpu, fromIso).Emit?
    ensures EntryStep(e, withGpu, fromIso).row.reportId == StrippedId(e.content.value)
  {
    EntryOfObject(e, withGpu, fromIso);
    ObjectEmits(e.content.value, withGpu, fromIso);
  }

  /** A ".json" file that parsed to an object gets the object's step. */
  lemma EntryOfObject(e: DirEntry, withGpu: bool, fromIso: string -> Option<Instant>)
    requires EndsWith(e.name, ".json") && e.content.Parsed? && e.content.value.Dict?
    ensures EntryStep(e, withGpu, fromIso) == ObjectStep(e.content.value, withGpu, fromIso)
  {
  }

  /** `build_report_rows` returns the collected rows reordered: nothing is
      lost or added, and equal keys keep their listing order. */
  lemma RowsArePermutation(entries: seq<DirEntry>, withGpu: bool, fromIso: string -> Option<Instant>)
    requires ReportRows(entries, withGpu, fromIso).Ok?
    ensures var rows := ReportRows(entries, withGpu, fromIso).value;
      var collected := CollectRows(entries, withGpu, fromIso).value;
      && multiset(rows) == multiset(collected)
      && forall k :: WithKey(rows, RowKey, k) == WithKey(collected, RowKey, k)
  {
    var collected := CollectRows(entries, withGpu, fromIso).value;
    SortIsPermutation(collected, RowKey);
    forall k ensures WithKey(ReportRows(entries, withGpu, fromIso).value, RowKey, k) == WithKey(collected, RowKey, k) {
      SortIsStable(collected, RowKey, k);
    }
  }

  /** The order of the returned rows: descending by (instant or minimum,
      report_id); a row without a parsable timestamp comes after every row
      whose timestamp is later than `datetime.min`, and rows with the same
      instant are in descending report_id order. */
  lemma RowsOrdered(entries: seq<DirEntry>, withGpu: bool, fromIso: string -> Option<Instant>)
    requires ReportRows(entries, withGpu, fromIso).Ok?
    ensures var rows := ReportRows(entries, withGpu, fromIso).value;
      && Descending(rows, RowKey)
      && (forall i, j :: (0 <= i < |rows| && 0 <= j < |rows| && rows[i].instant.None? &&
            rows[j].instant.Some? && rows[j].instant.value > MinInstant) ==> j < i)
      && (forall i, j :: 0 <= i < j < |rows| && rows[i].instant.GetOr(MinInstant) == rows[j].instant.GetOr(MinInstant) ==>
            !LexLess(rows[i].reportId, rows[j].reportId))
  {
    var rows := ReportRows(entries, withGpu, fromIso).value;
    SortIsDescending(CollectRows(entries, withGpu, fromIso).value, RowKey);
    forall i, j | 0 <= i < |rows| && 0 <= j < |rows| && rows[i].instant.None? &&
        rows[j].instant.Some? && rows[j].instant.value > MinInstant
      ensures j < i
    {
      assert KeyLess(RowKey(rows[i]), RowKey(rows[j]));
    }
    forall i, j | 0 <= i < j < |rows| && rows[i].instant.GetOr(MinInstant) == rows[j].instant.GetOr(MinInstant)
      ensures !LexLess(rows[i].reportId, rows[j].reportId)
    {
      assert !KeyLess(RowKey(rows[i]), RowKey(rows[j]));
    }
  }
}
