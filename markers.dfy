/** `update_marked_section`: replacing the text between the two HTML
    comment markers of a results page, or appending a marked section when
    the page lacks either marker. Both scripts carry the same copy. */
module MarkedSection {
  import opened Common
  import opened PyStrings

  /** An HTML comment `<!-- name -->`. */
  function Comment(name: string): string
  {
    "<!-- " + name + " -->"
  }

  const Start: string := Comment("REPORTS_TABLE_START")
  const End: string := Comment("REPORTS_TABLE_END")

  /** The marked section holding `table`. */
  function Section(table: string): string
  {
    Start + "\n" + table + "\n" + End
  }

  /** The page text with a line break added when it is non-empty and does
      not already end with one. */
  function Terminated(content: string): (r: string)
    ensures StartsWith(r, content)
    ensures r == "" || EndsWith(r, "\n")
    ensures |r| <= |content| + 1
    ensures (content == "" || EndsWith(content, "\n")) ==> r == content
  {
    if content != "" && !EndsWith(content, "\n") then content + "\n" else content
  }

  /** The new page text. With both markers present, the text before the
      first start marker and the text from the first end marker up to the
      next one (or the end) frame the new section; otherwise the section
      and a line break are appended. */
  function Splice(content: string, table: string): string
  {
    if Contains(content, Start) && Contains(content, End) then
      Split(content, Start)[0] + Section(table) + Split(content, End)[1]
    else
      Terminated(content) + Section(table) + "\n"
  }

  /** A page file as `open(path, "r", encoding="utf-8").read()` finds it:
      its text; a file that cannot be opened or read (OSError, such as a
      missing file); or one that is not UTF-8 (UnicodeDecodeError). */
  datatype PageFile = Text(content: string) | CannotOpen | Undecodable

  /** The content the function works on: OSError is caught and read as "".
      (A page that is not UTF-8 never gets this far.) */
  function Read(page: PageFile): string
  {
    if page.Text? then page.content else ""
  }

  /** `update_marked_section(path, new_content)`: the text written back to
      the page, or the UnicodeDecodeError that escapes the `except OSError`
      before anything is written. */
  function UpdateMarkedSection(existing: PageFile, table: string): Result<string>
  {
    if existing.Undecodable? then Raised(UnicodeDecodeError) else Ok(Splice(Read(existing), table))
  }

  /** A page with exactly one well-placed pair of markers keeps all the
      text around them; only what lies between them changes. */
  lemma SpliceFramed(pre: string, mid: string, post: string, table: string)
    requires var content := pre + Start + mid + End + post;
      && Find(content, Start) == Some(|pre|)
      && Find(content, End) == Some(|pre| + |Start| + |mid|)
      && !Contains(post, End)
    ensures Splice(pre + Start + mid + End + post, table) == pre + Section(table) + post
  {
    var content := pre + Start + mid + End + post;
    var e := |pre| + |Start| + |mid|;
    assert content[..|pre|] == pre;
    SplitSecond(content, End);
    assert content[e + |End|..] == post;
  }

  /** With both markers present, the result keeps the page up to the first
      start marker, then the new section, then the text after the first end
      marker up to the next end marker, if any. */
  lemma SpliceReplaces(content: string, table: string)
    requires Contains(content, Start) && Contains(content, End)
    ensures var s := Find(content, Start).value;
      var e := Find(content, End).value;
      var after := content[e + |End|..];
      Splice(content, table) ==
        content[..s] + Section(table) +
        (match Find(after, End) case None => after case Some(j) => after[..j])
  {
    SplitSecond(content, End);
  }

  /** A page lacking either marker is kept whole and the section is appended
      on a line of its own. */
  lemma SpliceAppends(content: string, table: string)
    requires !Contains(content, Start) || !Contains(content, End)
    ensures StartsWith(Splice(content, table), content)
    ensures StartsWith(Splice(content, table), Terminated(content) + Start)
    ensures EndsWith(Splice(content, table), Start + "\n" + table + "\n" + End + "\n")
    ensures |Splice(content, table)| == |Terminated(content)| + |Section(table)| + 1
    ensures content == "" || EndsWith(Terminated(content), "\n")
  {
    var t := Terminated(content);
    assert Splice(content, table) == t + Section(table) + "\n";
    AppendedParts(content, t, Start, table, End);
  }

  /** The parts of `t + (st + "\n" + tb + "\n" + en) + "\n"`, stated on
      plain strings so that the markers are not unfolded. */
  lemma AppendedParts(c: string, t: string, st: string, tb: string, en: string)
    requires StartsWith(t, c)
    ensures var r := t + (st + "\n" + tb + "\n" + en) + "\n";
      && StartsWith(r, c)
      && StartsWith(r, t + st)
      && EndsWith(r, st + "\n" + tb + "\n" + en + "\n")
      && |r| == |t| + |st + "\n" + tb + "\n" + en| + 1
  {
    var r := t + (st + "\n" + tb + "\n" + en) + "\n";
    var tail := st + "\n" + tb + "\n" + en + "\n";
    assert r == t + tail;
    assert r[..|c|] == t[..|c|];
    assert r[..|t + st|] == t + st;
    assert r[|r| - |tail|..] == tail;
  }

  /** A page that cannot be read is treated as empty: the result is the
      section alone and a line break. A page that is not UTF-8 makes the
      update raise, and only such a page does. */
  lemma UnreadablePage(table: string)
    ensures UpdateMarkedSection(CannotOpen, table) == Ok(Section(table) + "\n")
    ensures forall page :: UpdateMarkedSection(page, table).Raised? <==> page == Undecodable
  {
    assert !Contains("", Start) by {
      assert Find("", Start) == None;
    }
    assert Read(CannotOpen) == "";
    assert Terminated("") == "";
    assert "" + Section(table) == Section(table);
    assert Splice("", table) == Terminated("") + Section(table) + "\n";

  }
}
