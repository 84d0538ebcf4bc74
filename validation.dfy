/** The checks `issue-to-report.py` applies to a submitted report before
    anything is written: the seven required top-level keys, the container
    kind of the structured fields, and the form of `report_id`. */
module Validation {
  import opened Common
  import opened PyStrings
  import opened PyJson

  const RequiredKeys: seq<string> :=
    ["report_id", "timestamp", "system", "processor", "memory", "graphics", "storage_controllers"]

  datatype Rejection =
    | MissingField(key: string)      // "Missing required field: <key>"
    | NotAnObject(key: string)       // "Field '<key>' must be an object"
    | NotAList(key: string)          // "Field '<key>' must be a list"
    | InvalidReportId                // "Invalid or missing report_id"
    | Crashed(exc: Exception)        // an exception the script does not catch

  datatype Verdict = Accepted(reportId: string) | Rejected(why: Rejection)

  /** The first of `keys` for which `key not in report` holds, checked in
      order; `in` on a value that supports no membership test raises. */
  function FirstMissing(report: Value, keys: seq<string>): Result<Option<string>>
  {
    if keys == [] then Ok(None)
    else match Membership(report, keys[0])
      case Raised(e) => Raised(e)
      case Ok(present) => if !present then Ok(Some(keys[0])) else FirstMissing(report, keys[1..])
  }

  /** One character of the regular-expression class `[a-f0-9]`. */
  predicate IsLowerHex(c: char) {
    ('0' <= c <= '9') || ('a' <= c <= 'f')
  }

  /** `re.fullmatch(r"[a-f0-9]{n}", s)`, as the regex engine reads it:
      one class character per repetition, then the end of the text. */
  predicate MatchesHex(s: string, n: nat) {
    if n == 0 then s == []
    else s != [] && IsLowerHex(s[0]) && MatchesHex(s[1..], n - 1)
  }

  predicate IsReportId(s: string) {
    MatchesHex(s, 8)
  }

  /** `str(report.get("report_id", "")).strip()`. */
  function ReportIdOf(report: Value): string
    requires report.Dict?
  {
    Strip(ToStr(Get(report, "report_id", Str(""))))
  }

  /** The script's checks, in the order it makes them. */
  function Validate(report: Value): Verdict
  {
    match FirstMissing(report, RequiredKeys)
    case Raised(e) => Rejected(Crashed(e))
    case Ok(Some(key)) => Rejected(MissingField(key))
    case Ok(None) =>
      if !report.Dict? then Rejected(Crashed(AttributeError))
      else if !Get(report, "system", Null).Dict? then Rejected(NotAnObject("system"))
      else if !Get(report, "processor", Null).Dict? then Rejected(NotAnObject("processor"))
      else if !Get(report, "memory", Null).Dict? then Rejected(NotAnObject("memory"))
      else if !Get(report, "graphics", Null).List? then Rejected(NotAList("graphics"))
      else if !Get(report, "storage_controllers", Null).List? then Rejected(NotAList("storage_controllers"))
      else if !IsReportId(ReportIdOf(report)) then Rejected(InvalidReportId)
      else Accepted(ReportIdOf(report))
  }

  /** The container kinds the structured fields must have. */
  predicate KindsRight(report: Value)
    requires report.Dict?
  {
    && Get(report, "system", Null).Dict?
    && Get(report, "processor", Null).Dict?
    && Get(report, "memory", Null).Dict?
    && Get(report, "graphics", Null).List?
    && Get(report, "storage_controllers", Null).List?
  }

  /** A report the script accepts, stated without reference to the order
      of the checks. */
  predicate WellFormed(report: Value) {
    && report.Dict?
    && (forall i :: 0 <= i < |RequiredKeys| ==> HasKey(report, RequiredKeys[i]))
    && KindsRight(report)
    && IsReportId(ReportIdOf(report))
  }

  /** On an object, the key scan never raises, finds nothing exactly when
      every key is present, and otherwise names the first absent key. */
  lemma {:induction false} FirstMissingInDict(report: Value, keys: seq<string>)
    requires report.Dict?
    ensures FirstMissing(report, keys).Ok?
    ensures FirstMissing(report, keys).value.None? <==>
            forall i :: 0 <= i < |keys| ==> HasKey(report, keys[i])
    ensures FirstMissing(report, keys).value.Some? ==>
            exists i :: 0 <= i < |keys| && keys[i] == FirstMissing(report, keys).value.value
              && !HasKey(report, keys[i]) && forall j :: 0 <= j < i ==> HasKey(report, keys[j])
  {
    if keys != [] && HasKey(report, keys[0]) {
      FirstMissingInDict(report, keys[1..]);
      var r := FirstMissing(report, keys[1..]);
      if r.value.Some? {
        var i :| 0 <= i < |keys| - 1 && keys[1..][i] == r.value.value
          && !HasKey(report, keys[1..][i]) && forall j :: 0 <= j < i ==> HasKey(report, keys[1..][j]);
        assert keys[i + 1] == r.value.value;
        forall j | 0 <= j < i + 1 ensures HasKey(report, keys[j]) {
          if j > 0 { assert keys[j] == keys[1..][j - 1]; }
        }
      } else {
        forall i | 0 <= i < |keys| ensures HasKey(report, keys[i]) {
          if i > 0 { assert keys[i] == keys[1..][i - 1]; }
        }
      }
    }
  }

  /** A report is accepted exactly when it is well formed, and then under
      its stripped `report_id`. */
  lemma ValidateIff(report: Value)
    ensures Validate(report).Accepted? <==> WellFormed(report)
    ensures Validate(report).Accepted? ==> Validate(report).reportId == ReportIdOf(report)
  {
    if report.Dict? {
      FirstMissingInDict(report, RequiredKeys);
    }
  }

  /** An object lacking a required key is rejected, naming the first
      absent key in the order the script checks them. */
  lemma MissingKeyRejected(report: Value, i: nat)
    requires report.Dict? && i < |RequiredKeys| && !HasKey(report, RequiredKeys[i])
    requires forall j :: 0 <= j < i ==> HasKey(report, RequiredKeys[j])
    ensures Validate(report) == Rejected(MissingField(RequiredKeys[i]))
  {
    FirstMissingInDict(report, RequiredKeys);
    var m := FirstMissing(report, RequiredKeys);
    assert m.value.Some?;
    var k :| 0 <= k < |RequiredKeys| && RequiredKeys[k] == m.value.value
      && !HasKey(report, RequiredKeys[k]) && forall j :: 0 <= j < k ==> HasKey(report, RequiredKeys[j]);
    assert k == i;
  }

  /** An object with every required key but a structured field of the
      wrong kind is rejected with a kind error, never accepted. */
  lemma WrongKindRejected(report: Value)
    requires report.Dict?
    requires forall i :: 0 <= i < |RequiredKeys| ==> HasKey(report, RequiredKeys[i])
    requires !KindsRight(report)
    ensures Validate(report).Rejected?
    ensures Validate(report).why.NotAnObject? || Validate(report).why.NotAList?
  {
    FirstMissingInDict(report, RequiredKeys);
  }

  /** `[a-f0-9]{n}` matches exactly the strings of `n` lower-case hex digits. */
  lemma {:induction false} MatchesHexIff(s: string, n: nat)
    ensures MatchesHex(s, n) <==> |s| == n && forall i :: 0 <= i < |s| ==> IsLowerHex(s[i])
  {
    if n > 0 && s != [] {
      MatchesHexIff(s[1..], n - 1);
      if forall i :: 0 <= i < |s| ==> IsLowerHex(s[i]) {
        assert forall i :: 0 <= i < |s| - 1 ==> s[1..][i] == s[i + 1];
      }
      if MatchesHex(s, n) {
        forall i | 0 <= i < |s| ensures IsLowerHex(s[i]) {
          if i > 0 { assert s[i] == s[1..][i - 1]; }
        }
      }
    }
  }

  /** Upper-case hex digits are refused; the same digits in lower case pass. */
  lemma ReportIdCase()
    ensures !IsReportId("1234ABCD")
    ensures IsReportId("1234abcd")
  {
    MatchesHexIff("1234ABCD", 8);
    assert !IsLowerHex("1234ABCD"[4]);
    MatchesHexIff("1234abcd", 8);
  }
}
