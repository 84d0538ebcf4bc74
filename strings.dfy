/** The Python `str` operations the scripts use, on strings as sequences
    of characters: `strip`, `join`, `startswith`/`endswith`, `in`,
    `split`, slicing `s[:n]`, one-character `replace`, `str(int)` and the
    `<` order on strings. */
module PyStrings {
  import opened Common

  /** The characters for which Python's `str.isspace()` holds. */
  const SpaceChars: set<char> := {
    '\t', '\n', '\U{B}', '\U{C}', '\r', '\U{1C}', '\U{1D}', '\U{1E}', '\U{1F}', ' ',
    '\U{85}', '\U{A0}', '\U{1680}', '\U{2000}', '\U{2001}', '\U{2002}', '\U{2003}',
    '\U{2004}', '\U{2005}', '\U{2006}', '\U{2007}', '\U{2008}', '\U{2009}', '\U{200A}',
    '\U{2028}', '\U{2029}', '\U{202F}', '\U{205F}', '\U{3000}'
  }

  predicate IsSpace(c: char) {
    c in SpaceChars
  }

  /** The number of whitespace characters `s` starts with. */
  function LeadingSpace(s: string): (n: nat)
    ensures n <= |s|
  {
    if s != [] && IsSpace(s[0]) then 1 + LeadingSpace(s[1..]) else 0
  }

  /** The number of whitespace characters `s` ends with. */
  function TrailingSpace(s: string): (n: nat)
    ensures n <= |s|
  {
    if s != [] && IsSpace(s[|s| - 1]) then 1 + TrailingSpace(s[..|s| - 1]) else 0
  }

  /** `s.lstrip()`. */
  function LStrip(s: string): string
  {
    s[LeadingSpace(s)..]
  }

  /** `s.rstrip()`. */
  function RStrip(s: string): string
  {
    s[..|s| - TrailingSpace(s)]
  }

  /** `s.strip()`. */
  function Strip(s: string): string
  {
    RStrip(LStrip(s))
  }

  /** `LeadingSpace` counts whitespace and stops at the first other character. */
  lemma {:induction false} LeadingSpaceSpec(s: string)
    ensures forall k :: 0 <= k < LeadingSpace(s) ==> IsSpace(s[k])
    ensures LeadingSpace(s) < |s| ==> !IsSpace(s[LeadingSpace(s)])
  {
    if s != [] && IsSpace(s[0]) {
      LeadingSpaceSpec(s[1..]);
      forall k | 0 < k < LeadingSpace(s) ensures IsSpace(s[k]) {
        assert s[k] == s[1..][k - 1];
      }
    }
  }

  /** `TrailingSpace` counts whitespace and stops at the last other character. */
  lemma {:induction false} TrailingSpaceSpec(s: string)
    ensures forall k :: |s| - TrailingSpace(s) <= k < |s| ==> IsSpace(s[k])
    ensures TrailingSpace(s) < |s| ==> !IsSpace(s[|s| - 1 - TrailingSpace(s)])
  {
    if s != [] && IsSpace(s[|s| - 1]) {
      var p := s[..|s| - 1];
      TrailingSpaceSpec(p);
      forall k | |s| - TrailingSpace(s) <= k < |s| - 1 ensures IsSpace(s[k]) {
        assert s[k] == p[k];
      }
      if TrailingSpace(s) < |s| {
        assert s[|s| - 1 - TrailingSpace(s)] == p[|p| - 1 - TrailingSpace(p)];
      }
    }
  }

  /** How many leading characters `s.strip()` drops. */
  function StripStart(s: string): nat
  {
    LeadingSpace(s)
  }

  /** `s.strip()` keeps a contiguous slice of `s`, and everything it
      drops is whitespace. */
  lemma StripShape(s: string)
    ensures StripStart(s) + |Strip(s)| <= |s|
    ensures Strip(s) == s[StripStart(s)..StripStart(s) + |Strip(s)|]
    ensures forall k :: 0 <= k < StripStart(s) ==> IsSpace(s[k])
    ensures forall k :: StripStart(s) + |Strip(s)| <= k < |s| ==> IsSpace(s[k])
  {
    var i := LeadingSpace(s);
    var l := s[i..];
    LeadingSpaceSpec(s);
    TrailingSpaceSpec(l);
    forall k | i + |Strip(s)| <= k < |s| ensures IsSpace(s[k]) {
      assert s[k] == l[k - i];
    }
  }

  /** What `s.strip()` keeps neither starts nor ends with whitespace. */
  lemma StripEnds(s: string)
    ensures Strip(s) == [] || (!IsSpace(Strip(s)[0]) && !IsSpace(Strip(s)[|Strip(s)| - 1]))
  {
    var i := LeadingSpace(s);
    var l := s[i..];
    LeadingSpaceSpec(s);
    TrailingSpaceSpec(l);
    var r := Strip(s);
    if r != [] {
      assert r[0] == s[i];
      assert r[|r| - 1] == l[|l| - 1 - TrailingSpace(l)];
    }
  }

  /** `s.strip()` is empty exactly when `s` is all whitespace. */
  lemma StripEmptyIff(s: string)
    ensures Strip(s) == [] <==> forall k :: 0 <= k < |s| ==> IsSpace(s[k])
  {
    StripShape(s);
    StripEnds(s);
    var r := Strip(s);
    if r != [] {
      assert !IsSpace(s[StripStart(s)]);
    }
  }

  /** Stripping twice changes nothing more. */
  lemma StripIdempotent(s: string)
    ensures Strip(Strip(s)) == Strip(s)
  {
    var r := Strip(s);
    StripEnds(s);
    if r != [] {
      assert LeadingSpace(r) == 0;
      assert LStrip(r) == r;
      assert TrailingSpace(r) == 0;
    }
  }

  /** `sep.join(parts)`. */
  function Join(sep: string, parts: seq<string>): string
  {
    if |parts| == 0 then ""
    else if |parts| == 1 then parts[0]
    else parts[0] + sep + Join(sep, parts[1..])
  }

  /** The number of occurrences of one character. */
  function Count(s: string, c: char): nat
  {
    if s == [] then 0 else (if s[0] == c then 1 else 0) + Count(s[1..], c)
  }

  lemma {:induction false} CountAppend(a: string, b: string, c: char)
    ensures Count(a + b, c) == Count(a, c) + Count(b, c)
  {
    if a == [] {
      assert a + b == b;
    } else {
      assert (a + b)[0] == a[0] && (a + b)[1..] == a[1..] + b;
      CountAppend(a[1..], b, c);
    }
  }

  lemma {:induction false} CountAbsent(s: string, c: char)
    requires c !in s
    ensures Count(s, c) == 0
  {
    if s != [] {
      CountAbsent(s[1..], c);
    }
  }

  /** Joining lines that hold no newline with "\n" gives exactly one
      newline fewer than there are lines. */
  lemma {:induction false} JoinLineCount(lines: seq<string>)
    requires |lines| > 0
    requires forall i :: 0 <= i < |lines| ==> '\n' !in lines[i]
    ensures Count(Join("\n", lines), '\n') == |lines| - 1
  {
    CountAbsent(lines[0], '\n');
    if |lines| > 1 {
      JoinLineCount(lines[1..]);
      CountAppend(lines[0] + "\n", Join("\n", lines[1..]), '\n');
      CountAppend(lines[0], "\n", '\n');
    }
  }

  predicate StartsWith(s: string, prefix: string) {
    |prefix| <= |s| && s[..|prefix|] == prefix
  }

  predicate EndsWith(s: string, suffix: string) {
    |suffix| <= |s| && s[|s| - |suffix|..] == suffix
  }

  predicate OccursAt(s: string, sub: string, i: nat) {
    i + |sub| <= |s| && s[i..i + |sub|] == sub
  }

  /** The first index at or after `k` where `sub` occurs. */
  function FindFrom(s: string, sub: string, k: nat): (r: Option<nat>)
    decreases |s| - k
    ensures r.Some? ==> k <= r.value && OccursAt(s, sub, r.value)
    ensures r.Some? ==> forall j :: k <= j < r.value ==> !OccursAt(s, sub, j)
    ensures r.None? ==> forall j :: k <= j ==> !OccursAt(s, sub, j)
  {
    if k + |sub| > |s| then None
    else if s[k..k + |sub|] == sub then Some(k)
    else FindFrom(s, sub, k + 1)
  }

  /** `s.find(sub)`, with `None` for -1. */
  function Find(s: string, sub: string): Option<nat>
  {
    FindFrom(s, sub, 0)
  }

  /** `sub in s`. */
  predicate Contains(s: string, sub: string) {
    Find(s, sub).Some?
  }

  lemma ContainsIff(s: string, sub: string)
    ensures Contains(s, sub) <==> exists i: nat :: OccursAt(s, sub, i)
  {
  }

  /** `s.split(sep)`: the pieces between the non-overlapping occurrences
      of `sep`, scanning from the left. */
  function Split(s: string, sep: string): (r: seq<string>)
    requires |sep| > 0
    decreases |s|
    ensures |r| >= 1
    ensures Find(s, sep).None? ==> r == [s]
    ensures Find(s, sep).Some? ==> |r| >= 2 && r[0] == s[..Find(s, sep).value]
  {
    match Find(s, sep)
    case None => [s]
    case Some(i) => [s[..i]] + Split(s[i + |sep|..], sep)
  }

  /** The second piece of a split is the text from the end of the first
      separator up to the next one, or to the end. */
  lemma SplitSecond(s: string, sep: string)
    requires |sep| > 0 && Find(s, sep).Some?
    ensures Split(s, sep)[1] == Split(s[Find(s, sep).value + |sep|..], sep)[0]
  {
  }

  /** Splitting and joining with the same separator gives back the string. */
  lemma {:induction false} SplitJoin(s: string, sep: string)
    requires |sep| > 0
    decreases |s|
    ensures Join(sep, Split(s, sep)) == s
  {
    match Find(s, sep)
    case None =>
    case Some(i) =>
      var rest := s[i + |sep|..];
      var tail := Split(rest, sep);
      assert Split(s, sep) == [s[..i]] + tail;
      assert ([s[..i]] + tail)[1..] == tail;
      SplitJoin(rest, sep);
      assert s == s[..i] + s[i..i + |sep|] + rest;
  }

  /** The first occurrence of a character is right after a prefix that lacks it. */
  lemma FindCharAfter(p: string, c: char, rest: string)
    requires c !in p
    ensures Find(p + [c] + rest, [c]) == Some(|p|)
  {
    var s := p + [c] + rest;
    assert OccursAt(s, [c], |p|) by {
      assert s[|p|..|p| + 1] == [c];
    }
    forall j | 0 <= j < |p| ensures !OccursAt(s, [c], j) {
      assert s[j..j + 1] == [p[j]];
    }
  }

  /** A string without the character has no occurrence of it. */
  lemma FindCharAbsent(p: string, c: char)
    requires c !in p
    ensures Find(p, [c]) == None
  {
    forall j: nat | j + 1 <= |p| ensures !OccursAt(p, [c], j) {
      assert p[j..j + 1] == [p[j]];
    }
  }

  /** Joining with a one-character separator that no part contains, then
      splitting on it, gives back the parts. */
  lemma {:induction false} JoinSplitChar(parts: seq<string>, c: char)
    requires |parts| > 0
    requires forall i :: 0 <= i < |parts| ==> c !in parts[i]
    ensures Split(Join([c], parts), [c]) == parts
  {
    if |parts| == 1 {
      FindCharAbsent(parts[0], c);
    } else {
      var rest := Join([c], parts[1..]);
      FindCharAfter(parts[0], c, rest);
      var s := parts[0] + [c] + rest;
      assert s[..|parts[0]|] == parts[0];
      assert s[|parts[0]| + 1..] == rest;
      JoinSplitChar(parts[1..], c);
      assert parts == [parts[0]] + parts[1..];
    }
  }

  /** A join starts with its first part. */
  lemma JoinStartsWith(sep: string, parts: seq<string>)
    requires |parts| > 0
    ensures StartsWith(Join(sep, parts), parts[0])
  {
    if |parts| > 1 {
      assert Join(sep, parts)[..|parts[0]|] == parts[0];
    }
  }

  /** `s[:n]` for a non-negative `n`. */
  function Take(s: string, n: nat): (r: string)
    ensures |r| == (if n <= |s| then n else |s|)
    ensures StartsWith(s, r)
  {
    if n <= |s| then s[..n] else s
  }

  /** `s.replace(from, to)` for one-character `from` and `to`. */
  function ReplaceChar(s: string, from: char, to: char): (r: string)
    ensures |r| == |s|
    ensures forall i :: 0 <= i < |s| ==> r[i] == if s[i] == from then to else s[i]
  {
    seq(|s|, i requires 0 <= i < |s| => if s[i] == from then to else s[i])
  }

  /** Python's `a < b` on strings: lexicographic by code point. */
  predicate LexLess(a: string, b: string) {
    if a == [] then b != []
    else if b == [] then false
    else a[0] < b[0] || (a[0] == b[0] && LexLess(a[1..], b[1..]))
  }

  lemma {:induction false} LexIrreflexive(a: string)
    ensures !LexLess(a, a)
  {
    if a != [] {
      LexIrreflexive(a[1..]);
    }
  }

  lemma {:induction false} LexTransitive(a: string, b: string, c: string)
    requires LexLess(a, b) && LexLess(b, c)
    ensures LexLess(a, c)
  {
    if a != [] && a[0] == b[0] && b[0] == c[0] {
      LexTransitive(a[1..], b[1..], c[1..]);
    }
  }

  lemma {:induction false} LexTotal(a: string, b: string)
    ensures a == b || LexLess(a, b) || LexLess(b, a)
  {
    if a != [] && b != [] && a[0] == b[0] {
      LexTotal(a[1..], b[1..]);
      if a[1..] == b[1..] {
        assert a == [a[0]] + a[1..] && b == [b[0]] + b[1..];
      }
    }
  }

  function DigitChar(d: nat): (c: char)
    requires d < 10
    ensures '0' <= c <= '9'
  {
    "0123456789"[d]
  }

  /** `str(n)` for a natural number: its decimal digits. */
  function NatToString(n: nat): (r: string)
    ensures |r| > 0
    ensures forall i :: 0 <= i < |r| ==> '0' <= r[i] <= '9'
  {
    if n < 10 then [DigitChar(n)] else NatToString(n / 10) + [DigitChar(n % 10)]
  }

  /** `str(i)` for an integer. */
  function IntToString(i: int): string
  {
    if i < 0 then "-" + NatToString(-i) else NatToString(i)
  }
}
