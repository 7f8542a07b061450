/** Exactly how long an assignment may get before the parser loses it. */
module ConfFileLimits {
  import opened ConfText
  import opened ConfFile
  import opened ConfUpdate
  import opened ConfFileLaws

  function Length(e: Entry): nat { |e.key| + 1 + |e.val| }

  lemma TrimShortens(s: string)
    ensures |Trim(s)| <= |s|
  {
    var u, v := TrimParts(s);
  }

  lemma EntryFitsLine(line: string)
    ensures EntryOf(line).Some? ==> Length(EntryOf(line).value) <= |line|
  {
    var code := Code(line);
    var e := IndexOf(code, '=');
    if e < |code| {
      TrimShortens(code[..e]);
      TrimShortens(code[e + 1..]);
    }
  }

  lemma {:induction false} ParsedEntriesFit(lines: seq<string>)
    requires FitsBuffer(lines)
    ensures forall x :: x in Parse(lines) ==> Length(x) < BUF
    decreases |lines|
  {
    if lines != [] {
      var pre, line := lines[..|lines| - 1], lines[|lines| - 1];
      ParsedEntriesFit(pre);
      EntryFitsLine(line);
      if EntryOf(line).Some? {
        ParseUnique(pre);
        SetUnique(Parse(pre), EntryOf(line).value.key, EntryOf(line).value.val);
      }
    }
  }

  lemma {:induction false} RawLinesFit(f: string)
    ensures FitsBuffer(RawLines(f))
    decreases |f|
  {
    if f != "" { RawLinesFit(f[FgetsLength(f, BUF - 1)..]); }
  }

  predicate ShortValues(values: seq<Entry>) { forall i :: 0 <= i < |values| ==> Length(values[i]) < BUF }

  predicate NoCommentTouched(lines: seq<string>, values: seq<Entry>) {
    forall i :: 0 <= i < |lines| && Touches(lines[i], values) ==> Comment(lines[i]) == ""
  }

  lemma {:induction false} RewriteFits(lines: seq<string>, values: seq<Entry>)
    requires FitsBuffer(lines) && ShortValues(values) && NoCommentTouched(lines, values)
    ensures FitsBuffer(Rewrite(lines, values).lines)
    decreases |lines|
  {
    if lines != [] {
      var line := lines[|lines| - 1];
      RewriteFits(lines[..|lines| - 1], values);
      if Touches(line, values) { var i := FindMember(values, EntryOf(line).value.key); }
    }
  }

  lemma {:induction false} AppendFits(o: Output, values: seq<Entry>)
    requires FitsBuffer(o.lines) && ShortValues(values)
    ensures FitsBuffer(AppendNew(o, values))
    decreases |values|
  {
    if values != [] { AppendFits(o, values[..|values| - 1]); }
  }

  /** Where no inline comment is carried over, the rewritten file reads back as the updated map if
      and only if every assignment is at most 255 characters long. */
  lemma AddKeepsInStepExactly(file: Option<string>, values: seq<Entry>)
    requires GoodValues(values) && NoCommentTouched(FileLines(file), values)
    ensures ParseFile(Some(FileOf(Updated(FileLines(file), values)))) == SetAll(ParseFile(file), values)
            <==> ShortValues(values)
  {
    var lines := FileLines(file);
    var f := FileOf(Updated(lines, values));
    if ShortValues(values) {
      FileLinesAreClean(file);
      RewriteFits(lines, values);
      AppendFits(Rewrite(lines, values), values);
      AddKeepsFileAndMapInStep(file, values);
    } else {
      var i :| 0 <= i < |values| && Length(values[i]) >= BUF;
      FindSetAll(ParseFile(file), values, |values|, i);
      assert values[..|values|] == values;
      LongIsNotParsed(f, values[i].key, values[i].val);
    }
  }

  lemma LongIsNotParsed(f: string, k: string, v: string)
    requires Length(Entry(k, v)) >= BUF
    ensures Find(ParseFile(Some(f)), k) != Some(v)
  {
    RawLinesFit(f);
    ParsedEntriesFit(RawLines(f));
    if HasKey(ParseFile(Some(f)), k) { var i := FindMember(ParseFile(Some(f)), k); }
  }
}
