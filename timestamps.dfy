/** The deterministic part of `parse_timestamp` (issue-to-report.py and
    rebuild-results-index.py carry the same copy): the text it hands to
    `datetime.fromisoformat`. The parser itself is a parameter. */
module Timestamps {
  import opened Common
  import opened PyStrings
  import opened PyJson

  /** A point in time, counted upwards from `datetime.min`. */
  type Instant = nat

  /** `datetime.min`, what an unparsable timestamp sorts as. */
  const MinInstant: Instant := 0

  /** The argument `parse_timestamp` passes to `fromisoformat`, or `None`
      when it returns `None` before parsing: for a falsy value or one
      whose `str()` is blank. A trailing "Z" becomes "+00:00". */
  function IsoText(value: Value): (r: Option<string>)
    ensures r.None? <==> !Truthy(value) || Strip(ToStr(value)) == ""
    ensures r.Some? ==> r.value != "" && !EndsWith(r.value, "Z")
  {
    if !Truthy(value) then None
    else
      var ts := Strip(ToStr(value));
      if ts == "" then None
      else if EndsWith(ts, "Z") then
        var t := ts[..|ts| - 1] + "+00:00";
        assert t[|t| - 1] == '0';
        Some(t)
      else Some(ts)
  }

  /** `parse_timestamp(value)`, with `fromIso` standing for
      `datetime.fromisoformat` (`None` where it raises ValueError). */
  function ParseTimestamp(value: Value, fromIso: string -> Option<Instant>): Option<Instant>
  {
    match IsoText(value)
    case None => None
    case Some(text) => fromIso(text)
  }

  /** A "Z" suffix is rewritten to "+00:00" and everything before it is
      kept; any other stripped text is passed on unchanged. */
  lemma ZuluRewritten(value: Value)
    requires Truthy(value)
    ensures var ts := Strip(ToStr(value));
      ts != "" && EndsWith(ts, "Z") ==>
        && IsoText(value).Some?
        && |IsoText(value).value| == |ts| + 5
        && StartsWith(IsoText(value).value, ts[..|ts| - 1])
        && EndsWith(IsoText(value).value, "+00:00")
    ensures var ts := Strip(ToStr(value));
      ts != "" && !EndsWith(ts, "Z") ==> IsoText(value) == Some(ts)
  {
    var ts := Strip(ToStr(value));
    if ts != "" && EndsWith(ts, "Z") {
      var t := ts[..|ts| - 1] + "+00:00";
      assert t[..|ts| - 1] == ts[..|ts| - 1];
      assert t[|t| - 6..] == "+00:00";
    }
  }

  /** Blank or falsy input never reaches the parser. */
  lemma BlankIsNone(value: Value, fromIso: string -> Option<Instant>)
    requires !Truthy(value) || Strip(ToStr(value)) == ""
    ensures ParseTimestamp(value, fromIso) == None
  {
  }
}
