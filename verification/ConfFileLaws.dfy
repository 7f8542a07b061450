/** The same laws on the file itself, and the laws of repetition and removal. */
module ConfFileLaws {
  import opened ConfText
  import opened ConfFile
  import opened ConfUpdate

  // ---- what the parser reads -----------------------------------------------------------------

  /** A line is code, then a comment from the first '#'; the code assigns if it has an '=', and the first one
      splits it. Blanks around key and value do not count. Every line is of one of the two forms. */
  lemma LineAssigns(key: string, value: string, comment: string)
    requires '=' !in key && '#' !in key && '#' !in value && (comment == "" || comment[0] == '#')
    ensures EntryOf(key + "=" + value + comment) == Some(Entry(Trim(key), Trim(value)))
  {
    var code := key + "=" + value;
    CodeIs(code, comment);
    IndexOfIs(code, '=', |key|);
    assert code[..|key|] == key && code[|key| + 1..] == value;
  }

  lemma LineAssignsNothing(code: string, comment: string)
    requires '=' !in code && '#' !in code && (comment == "" || comment[0] == '#')
    ensures EntryOf(code + comment) == None
  {
    CodeIs(code, comment);
  }

  lemma CodeIs(code: string, comment: string)
    requires '#' !in code && (comment == "" || comment[0] == '#')
    ensures Code(code + comment) == code
  {
    forall j | 0 <= j < |code| ensures (code + comment)[j] != '#' { assert code[j] in code; }
    IndexOfIs(code + comment, '#', |code|);
  }

  /** Value of the last line that assigns a key. */
  function LastValue(lines: seq<string>, k: string): Option<string>
    decreases |lines|
  {
    if lines == [] then None
    else
      var e := EntryOf(lines[|lines| - 1]);
      if e.Some? && e.value.key == k then Some(e.value.val) else LastValue(lines[..|lines| - 1], k)
  }

  /** Of several lines that assign a key the last one counts. */
  lemma {:induction false} LastLineCounts(lines: seq<string>, k: string)
    ensures Find(Parse(lines), k) == LastValue(lines, k)
    decreases |lines|
  {
    hide EntryOf;
    if lines != [] {
      var pre := lines[..|lines| - 1];
      LastLineCounts(pre, k);
      var e := EntryOf(lines[|lines| - 1]);
      if e.Some? { FindSet(Parse(pre), e.value.key, e.value.val, k); }
    }
  }

  // ---- writing and reading a whole file ------------------------------------------------------

  function ParseFrom(m: seq<Entry>, lines: seq<string>): seq<Entry>
    decreases |lines|
  {
    if lines == [] then m else ParseFrom(ParseStep(m, lines[0]), lines[1..])
  }

  lemma {:induction false} ParseFromSnoc(m: seq<Entry>, lines: seq<string>, line: string)
    ensures ParseFrom(m, lines + [line]) == ParseStep(ParseFrom(m, lines), line)
    decreases |lines|
  {
    if lines == [] { assert lines + [line] == [line]; } else {
      assert (lines + [line])[1..] == lines[1..] + [line];
      ParseFromSnoc(ParseStep(m, lines[0]), lines[1..], line);
    }
  }

  lemma {:induction false} ParseIsParseFrom(lines: seq<string>)
    ensures Parse(lines) == ParseFrom([], lines)
    decreases |lines|
  {
    if lines != [] {
      var pre, line := lines[..|lines| - 1], lines[|lines| - 1];
      ParseIsParseFrom(pre);
      ParseFromSnoc([], pre, line);
      assert pre + [line] == lines;
    }
  }

  lemma SameEntrySameStep(m: seq<Entry>, a: string, b: string)
    requires EntryOf(a) == EntryOf(b)
    ensures ParseStep(m, a) == ParseStep(m, b)
  {
  }

  predicate Readable(lines: seq<string>) {
    forall i :: 0 <= i < |lines| ==> Plain(lines[i]) && |lines[i]| < BUF
  }

  lemma ParseFromCons(m: seq<Entry>, a: string, rest: seq<string>)
    ensures ParseFrom(m, [a] + rest) == ParseFrom(ParseStep(m, a), rest)
  {
    assert ([a] + rest)[1..] == rest;
  }

  /** Written lines of at most 255 characters are parsed back as they are: of a line that fills the
      buffer only the newline is left over, and reads as a blank line. */
  lemma {:induction false} ReadBack(m: seq<Entry>, lines: seq<string>)
    requires Readable(lines)
    ensures ParseFrom(m, RawLines(FileOf(lines))) == ParseFrom(m, lines)
    decreases |lines|
  {
    if lines != [] {
      ReadBack(ParseStep(m, lines[0]), lines[1..]);
      ReadBackLine(m, lines[0], FileOf(lines[1..]));
    }
  }

  lemma ReadBackLine(m: seq<Entry>, line: string, rest: string)
    requires Plain(line) && |line| < BUF
    ensures ParseFrom(m, RawLines(line + "\n" + rest)) == ParseFrom(ParseStep(m, line), RawLines(rest))
  {
    hide RawLines, ParseStep, ParseFrom, Plain;
    if |line| < BUF - 1 { ReadBackShort(m, line, rest); } else { ReadBackFull(m, line, rest); }
  }

  lemma ReadBackShort(m: seq<Entry>, line: string, rest: string)
    requires Plain(line) && |line| < BUF - 1
    ensures ParseFrom(m, RawLines(line + "\n" + rest)) == ParseFrom(ParseStep(m, line), RawLines(rest))
  {
    hide RawLines, EntryOf, ParseFrom, ParseStep;
    RawLinesOfShort(line, rest);
    EndingKeepsEntry(line, "\n");
    SameEntrySameStep(m, line + "\n", line);
    ParseFromCons(m, line + "\n", RawLines(rest));
  }

  lemma ReadBackFull(m: seq<Entry>, line: string, rest: string)
    requires Plain(line) && |line| == BUF - 1
    ensures ParseFrom(m, RawLines(line + "\n" + rest)) == ParseFrom(ParseStep(m, line), RawLines(rest))
  {
    var m', raw := ParseStep(m, line), RawLines(rest);
    BlankSaysNothing();
    assert ParseStep(m', "\n") == m';
    hide RawLines, EntryOf, ParseFrom, ParseStep;
    RawLinesOfFull(line, rest);
    ParseFromCons(m, line, ["\n"] + raw);
    ParseFromCons(m', "\n", raw);
    assert [line, "\n"] + raw == [line] + (["\n"] + raw);
  }

  lemma BlankSaysNothing()
    ensures EntryOf("\n") == None
  {
    IndexOfIs("\n", '#', 1);
    IndexOfIs("\n", '=', 1);
  }

  lemma {:induction false} ChompKeepsParse(raw: seq<string>)
    ensures Parse(ChompAll(raw)) == Parse(raw)
    decreases |raw|
  {
    if raw != [] {
      var n := |raw| - 1;
      ChompKeepsParse(raw[..n]);
      assert ChompAll(raw)[..n] == ChompAll(raw[..n]);
      ChompKeepsEntry(raw[n]);
    }
  }

  // ---- what the new lines look like ----------------------------------------------------------

  /** Lines as the rewriter holds them. */
  predicate Clean(lines: seq<string>) {
    forall i :: 0 <= i < |lines| ==> Plain(lines[i]) && EndsClean(lines[i])
  }

  lemma FileLinesAreClean(file: Option<string>)
    ensures Clean(FileLines(file)) && Readable(FileLines(file))
  {
    if file.Some? { LinesArePlain(file.value); }
  }

  lemma NewLineIsClean(k: string, v: string, line: string)
    requires GoodKey(k) && GoodValue(v) && Plain(line) && EndsClean(line)
    ensures var nl := NewLine(k, v, Comment(line)); Plain(nl) && EndsClean(nl)
  {
    var c := Comment(line);
    var nl := NewLine(k, v, c);
    if c != "" { assert nl[|nl| - 1] == c[|c| - 1] == line[|line| - 1]; }
    else if v != "" { assert nl[|nl| - 1] == v[|v| - 1]; }
    else { assert nl[|nl| - 1] == '='; }
  }

  lemma {:induction false} RewriteIsClean(lines: seq<string>, values: seq<Entry>)
    requires Clean(lines) && GoodValues(values)
    ensures Clean(Rewrite(lines, values).lines)
    decreases |lines|
  {
    if lines != [] {
      var line := lines[|lines| - 1];
      RewriteIsClean(lines[..|lines| - 1], values);
      if Touches(line, values) {
        var k := EntryOf(line).value.key;
        GoodFound(values, k);
        NewLineIsClean(k, Find(values, k).value, line);
      }
    }
  }

  lemma {:induction false} AppendIsClean(o: Output, all: seq<Entry>, n: nat)
    requires Clean(o.lines) && GoodValues(all) && n <= |all|
    ensures Clean(AppendNew(o, all[..n]))
  {
    if n > 0 {
      AppendIsClean(o, all, n - 1);
      assert all[..n][..n - 1] == all[..n - 1];
      NewLineIsClean(all[n - 1].key, all[n - 1].val, "");
    }
  }

  lemma UpdatedIsClean(lines: seq<string>, values: seq<Entry>)
    requires Clean(lines) && GoodValues(values)
    ensures Clean(Updated(lines, values))
  {
    RewriteIsClean(lines, values);
    AppendIsClean(Rewrite(lines, values), values, |values|);
    assert values[..|values|] == values;
  }

  /** Every line fits the read buffer with its newline. */
  predicate Short(lines: seq<string>) { forall i :: 0 <= i < |lines| ==> |lines[i]| < BUF - 1 }

  predicate FitsBuffer(lines: seq<string>) { forall i :: 0 <= i < |lines| ==> |lines[i]| < BUF }

  // ---- the file ------------------------------------------------------------------------------

  /** An object whose map is what its file says keeps that property over add(values, true): parsing
      the rewritten file gives the updated map, key order included. */
  lemma AddKeepsFileAndMapInStep(file: Option<string>, values: seq<Entry>)
    requires GoodValues(values) && FitsBuffer(Updated(FileLines(file), values))
    ensures ParseFile(Some(FileOf(Updated(FileLines(file), values)))) == SetAll(ParseFile(file), values)
  {
    var lines := FileLines(file);
    var out := Updated(lines, values);
    FileLinesAreClean(file);
    UpdatedIsClean(lines, values);
    ReadBack([], out);
    ParseIsParseFrom(RawLines(FileOf(out)));
    ParseIsParseFrom(out);
    UpdateCommutes(lines, values);
    if file.Some? { ChompKeepsParse(RawLines(file.value)); }
  }

  // ---- repeating an update -------------------------------------------------------------------

  lemma RewriteSnoc(lines: seq<string>, line: string, values: seq<Entry>)
    ensures Rewrite(lines + [line], values) == RewriteLine(Rewrite(lines, values), line, values)
  {
    assert (lines + [line])[..|lines + [line]| - 1] == lines;
  }

  /** A new line is rewritten to itself. */
  lemma NewLineIsStable(o: Output, k: string, comment: string, values: seq<Entry>)
    requires GoodValues(values) && HasKey(values, k) && k !in o.written && (comment == "" || comment[0] == '#')
    ensures var nl := NewLine(k, Find(values, k).value, comment);
            RewriteLine(o, nl, values) == Output(o.lines + [nl], o.written + [k])
  {
    GoodFound(values, k);
    NewLineSays(k, Find(values, k).value, comment);
  }

  lemma {:induction false} RewriteIsStable(lines: seq<string>, values: seq<Entry>)
    requires GoodValues(values)
    ensures Rewrite(Rewrite(lines, values).lines, values) == Rewrite(lines, values)
    decreases |lines|
  {
    if lines != [] {
      var pre, line := lines[..|lines| - 1], lines[|lines| - 1];
      var o := Rewrite(pre, values);
      RewriteIsStable(pre, values);
      if !Touches(line, values) { RewriteSnoc(o.lines, line, values); } else {
        var k := EntryOf(line).value.key;
        if k !in o.written {
          NewLineIsStable(o, k, Comment(line), values);
          RewriteSnoc(o.lines, NewLine(k, Find(values, k).value, Comment(line)), values);
        }
      }
    }
  }

  /** Keys written after the first n values have been appended. */
  function WrittenThen(w: seq<string>, values: seq<Entry>, n: nat): seq<string>
    requires n <= |values|
  {
    if n == 0 then w
    else
      var before := WrittenThen(w, values, n - 1);
      if values[n - 1].key in w then before else before + [values[n - 1].key]
  }

  lemma {:induction false} WrittenThenHas(w: seq<string>, values: seq<Entry>, n: nat)
    requires n <= |values|
    ensures forall k :: k in WrittenThen(w, values, n) <==> k in w || exists i :: 0 <= i < n && values[i].key == k
  {
    if n > 0 { WrittenThenHas(w, values, n - 1); }
  }

  lemma {:induction false} AppendIsStable(o: Output, values: seq<Entry>, n: nat)
    requires GoodValues(values) && n <= |values| && Rewrite(o.lines, values) == o
    ensures Rewrite(AppendNew(o, values[..n]), values)
            == Output(AppendNew(o, values[..n]), WrittenThen(o.written, values, n))
  {
    hide Rewrite, GoodValues, Assign, AppendNew;
    AppendStep(o, values, n);
    if n > 0 {
      AppendIsStable(o, values, n - 1);
      if values[n - 1].key !in o.written {
        NotYetWritten(o.written, values, n);
        AppendedIsStable(Output(AppendNew(o, values[..n - 1]), WrittenThen(o.written, values, n - 1)), values, n - 1);
      }
    }
  }

  lemma NotYetWritten(w: seq<string>, values: seq<Entry>, n: nat)
    requires GoodValues(values) && 0 < n <= |values| && values[n - 1].key !in w
    ensures values[n - 1].key !in WrittenThen(w, values, n - 1)
  {
    WrittenThenHas(w, values, n - 1);
  }

  lemma AppendStep(o: Output, values: seq<Entry>, n: nat)
    requires n <= |values|
    ensures AppendNew(o, values[..n])
            == if n == 0 then o.lines
               else
                 var e := values[n - 1];
                 var out := AppendNew(o, values[..n - 1]);
                 if e.key in o.written then out else out + [Assign(e.key, e.val)]
  {
    if n > 0 { assert values[..n][..n - 1] == values[..n - 1]; }
  }

  lemma AppendedIsStable(o: Output, values: seq<Entry>, i: nat)
    requires GoodValues(values) && i < |values| && Rewrite(o.lines, values) == o && values[i].key !in o.written
    ensures var e := values[i];
            Rewrite(o.lines + [Assign(e.key, e.val)], values)
            == Output(o.lines + [Assign(e.key, e.val)], o.written + [e.key])
  {
    hide Rewrite, EntryOf;
    var e := values[i];
    FindAt(values, i);
    NewLineIsStable(o, e.key, "", values);
    RewriteSnoc(o.lines, Assign(e.key, e.val), values);
    hide Assign;
  }

  lemma {:induction false} NothingToAppend(o: Output, values: seq<Entry>)
    requires forall i :: 0 <= i < |values| ==> values[i].key in o.written
    ensures AppendNew(o, values) == o.lines
    decreases |values|
  {
    if values != [] { NothingToAppend(o, values[..|values| - 1]); }
  }

  /** A second identical update leaves every line as the first one wrote it. */
  lemma UpdateTwice(lines: seq<string>, values: seq<Entry>)
    requires GoodValues(values)
    ensures Updated(Updated(lines, values), values) == Updated(lines, values)
  {
    var o := Rewrite(lines, values);
    RewriteIsStable(lines, values);
    AppendIsStable(o, values, |values|);
    assert values[..|values|] == values;
    WrittenThenHas(o.written, values, |values|);
    NothingToAppend(Rewrite(Updated(lines, values), values), values);
  }

  lemma WrittenFileReadsBack(lines: seq<string>)
    requires Clean(lines) && Short(lines)
    ensures FileLines(Some(FileOf(lines))) == lines
  {
    LinesOfFile(lines);
  }

  /** On the file: after add(values, true), the same add again writes the same file. */
  lemma AddTwiceSameFile(file: Option<string>, values: seq<Entry>)
    requires GoodValues(values) && Short(Updated(FileLines(file), values))
    ensures var once := FileOf(Updated(FileLines(file), values));
            FileOf(Updated(FileLines(Some(once)), values)) == once
  {
    var lines := FileLines(file);
    FileLinesAreClean(file);
    UpdatedIsClean(lines, values);
    WrittenFileReadsBack(Updated(lines, values));
    UpdateTwice(lines, values);
  }

  // ---- removal -------------------------------------------------------------------------------

  lemma SetCons(x: Entry, m: seq<Entry>, j: string, v: string)
    ensures Set([x] + m, j, v) == if x.key == j then [Entry(j, v)] + m else [x] + Set(m, j, v)
  {
    assert ([x] + m)[1..] == m;
  }

  lemma EraseCons(x: Entry, m: seq<Entry>, k: string)
    ensures Erase([x] + m, k) == if x.key == k then Erase(m, k) else [x] + Erase(m, k)
  {
    assert ([x] + m)[1..] == m;
    assert [] + Erase(m, k) == Erase(m, k);
  }

  lemma {:induction false} EraseSet(m: seq<Entry>, k: string, j: string, v: string)
    ensures Erase(Set(m, j, v), k) == if j == k then Erase(m, k) else Set(Erase(m, k), j, v)
  {
    if m == [] {
      EraseCons(Entry(j, v), [], k);
      assert [Entry(j, v)] + [] == [Entry(j, v)];
    } else {
      var x, rest := m[0], m[1..];
      assert m == [x] + rest;
      EraseSet(rest, k, j, v);
      SetCons(x, rest, j, v);
      EraseCons(x, rest, k);
      EraseCons(Entry(j, v), rest, k);
      EraseCons(x, Set(rest, j, v), k);
      SetCons(x, Erase(rest, k), j, v);
      hide Set, Erase;
    }
  }

  /** Removing a key's lines commutes with parsing, for any file: also with duplicate lines. */
  lemma {:induction false} RemoveCommutes(lines: seq<string>, k: string)
    ensures Parse(Without(lines, k)) == Erase(Parse(lines), k)
    decreases |lines|
  {
    if lines != [] {
      var pre, line := lines[..|lines| - 1], lines[|lines| - 1];
      RemoveCommutes(pre, k);
      if EntryOf(line).Some? { EraseSet(Parse(pre), k, EntryOf(line).value.key, EntryOf(line).value.val); }
      if Assigns(line, k) { assert Without(pre, k) + [] == Without(pre, k); } else { ParseSnoc(Without(pre, k), line); }
    }
  }

  lemma {:induction false} WithoutAbsent(lines: seq<string>, k: string)
    requires forall i :: 0 <= i < |lines| ==> !Assigns(lines[i], k)
    ensures Without(lines, k) == lines
    decreases |lines|
  {
    if lines != [] {
      WithoutAbsent(lines[..|lines| - 1], k);
      assert lines[..|lines| - 1] + [lines[|lines| - 1]] == lines;
    }
  }

  /** remove() of a kept line's key also keeps file and map in step. */
  lemma RemoveKeepsFileAndMapInStep(file: Option<string>, k: string)
    ensures ParseFile(Some(FileOf(Without(FileLines(file), k)))) == Erase(ParseFile(file), k)
  {
    var lines := FileLines(file);
    var out := Without(lines, k);
    FileLinesAreClean(file);
    WithoutReadable(lines, k);
    ReadBack([], out);
    ParseIsParseFrom(RawLines(FileOf(out)));
    ParseIsParseFrom(out);
    RemoveCommutes(lines, k);
    if file.Some? { ChompKeepsParse(RawLines(file.value)); }
  }

  lemma {:induction false} WithoutReadable(lines: seq<string>, k: string)
    requires Readable(lines)
    ensures Readable(Without(lines, k))
    decreases |lines|
  {
    if lines != [] { WithoutReadable(lines[..|lines| - 1], k); }
  }

  lemma LineUntouched(done: seq<string>, line: string, values: seq<Entry>)
    requires !Touches(line, values)
    ensures RewriteLine(Output(done, []), line, values) == Output(done + [line], [])
  {
  }

  lemma {:induction false} RewriteUntouched(lines: seq<string>, values: seq<Entry>)
    requires forall i :: 0 <= i < |lines| ==> !Touches(lines[i], values)
    ensures Rewrite(lines, values) == Output(lines, [])
    decreases |lines|
  {
    hide RewriteLine, Touches;
    if lines != [] {
      RewriteUntouched(lines[..|lines| - 1], values);
      LineUntouched(lines[..|lines| - 1], lines[|lines| - 1], values);
      assert lines[..|lines| - 1] + [lines[|lines| - 1]] == lines;
    }
  }

  lemma TouchesOne(line: string, e: Entry)
    ensures Touches(line, [e]) <==> Assigns(line, e.key)
  {
    if EntryOf(line).Some? {
      var k := EntryOf(line).value.key;
      assert Find([e][1..], k) == None;
      assert Find([e], k) == if e.key == k then Some(e.val) else None;
    }
  }

  lemma UpdatedFresh(lines: seq<string>, e: Entry)
    requires forall i :: 0 <= i < |lines| ==> !Assigns(lines[i], e.key)
    ensures Updated(lines, [e]) == lines + [Assign(e.key, e.val)]
  {
    forall i | 0 <= i < |lines| ensures !Touches(lines[i], [e]) { TouchesOne(lines[i], e); }
    RewriteUntouched(lines, [e]);
    assert AppendNew(Output(lines, []), [e][..0]) == lines;
  }

  /** Adding a key no line has and removing it again gives the original lines. */
  lemma RemoveUndoesAdd(lines: seq<string>, e: Entry)
    requires GoodKey(e.key) && GoodValue(e.val)
    requires forall i :: 0 <= i < |lines| ==> !Assigns(lines[i], e.key)
    ensures Without(Updated(lines, [e]), e.key) == lines
  {
    hide EntryOf, Updated, NewLine, Without, Assign;
    UpdatedFresh(lines, e);
    AssignIsNewLine(e.key, e.val);
    NewLineSays(e.key, e.val, "");
    WithoutAbsent(lines, e.key);
    WithoutSnoc(lines, Assign(e.key, e.val), e.key);
  }

  lemma WithoutSnoc(lines: seq<string>, line: string, k: string)
    ensures Without(lines + [line], k) == Without(lines, k) + if Assigns(line, k) then [] else [line]
  {
    assert (lines + [line])[..|lines|] == lines;
  }

  /** On the file: its lines are back. */
  lemma RemoveUndoesAddOnFile(file: Option<string>, e: Entry)
    requires GoodKey(e.key) && GoodValue(e.val) && Short(FileLines(file)) && |Assign(e.key, e.val)| < BUF - 1
    requires forall i :: 0 <= i < |FileLines(file)| ==> !Assigns(FileLines(file)[i], e.key)
    ensures var added := FileOf(Updated(FileLines(file), [e]));
            var removed := FileOf(Without(FileLines(Some(added)), e.key));
            removed == FileOf(FileLines(file)) && FileLines(Some(removed)) == FileLines(file)
  {
    var lines := FileLines(file);
    FileLinesAreClean(file);
    UpdatedFresh(lines, e);
    NewLineIsClean(e.key, e.val, "");
    WrittenFileReadsBack(lines + [Assign(e.key, e.val)]);
    WrittenFileReadsBack(lines);
    RemoveUndoesAdd(lines, e);
  }

  // ---- the object ----------------------------------------------------------------------------

  /** add(values, true) on an object whose map is what its file says: it stays so, unless the fsync
      fails and the update changes something. */
  method AddInStep(c: Config, values: seq<Entry>, io: Io) returns (ok: bool)
    requires c.Synced() && GoodValues(values) && FitsBuffer(Updated(FileLines(c.file), values))
    modifies c
    ensures ok == (io == Written)
    ensures c.Synced() <==> io != FsyncFails || SetAll(old(c.entries), values) == old(c.entries)
    ensures io == Written ==> forall i :: 0 <= i < |values| ==> Find(c.entries, values[i].key) == Some(values[i].val)
  {
    hide SetAll, Updated, FileLines, ParseFile, FitsBuffer;
    AddKeepsFileAndMapInStep(c.file, values);
    ghost var before := c.entries;
    var r := c.Add(values, true, io);
    ok := r.ok;
    forall i | 0 <= i < |values| ensures Find(SetAll(before, values), values[i].key) == Some(values[i].val) {
      assert values[..|values|] == values;
      FindSetAll(before, values, |values|, i);
    }
  }

  /** remove() stays in step too, unless a key that is there is removed and the file cannot be opened
      for writing. */
  method RemoveInStep(c: Config, key: string, io: Io) returns (removed: bool)
    requires c.Synced()
    modifies c
    ensures c.Synced() <==> io != CannotOpen || Erase(old(c.entries), key) == old(c.entries)
    ensures c.entries == Erase(old(c.entries), key)
  {
    hide Without, FileLines, ParseFile, Erase, FileOf;
    var file := c.file;
    RemoveKeepsFileAndMapInStep(file, key);
    ghost var lines := FileLines(file);
    if forall i :: 0 <= i < |lines| ==> !Assigns(lines[i], key) { AbsentKey(file, key); }
    removed := c.Remove(key, io);
  }

  /** A key that no line assigns is not in the map. */
  lemma AbsentKey(file: Option<string>, k: string)
    requires forall i :: 0 <= i < |FileLines(file)| ==> !Assigns(FileLines(file)[i], k)
    ensures Erase(ParseFile(file), k) == ParseFile(file)
  {
    var lines := FileLines(file);
    WithoutAbsent(lines, k);
    RemoveCommutes(lines, k);
    if file.Some? { ChompKeepsParse(RawLines(file.value)); }
  }
}
