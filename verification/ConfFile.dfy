/** The configuration file rewriter (src/conf.h): what add() and remove() write, against what the
    parser reads back. */
module ConfFile {
  import opened ConfText

  // ---- the in-memory map ---------------------------------------------------------------------

  /** The value of the first pair with this key. */
  function Find(m: seq<Entry>, k: string): Option<string> {
    if m == [] then None else if m[0].key == k then Some(m[0].val) else Find(m[1..], k)
  }

  /** Overwrites the first pair with this key, or appends one. */
  function Set(m: seq<Entry>, k: string, v: string): seq<Entry> {
    if m == [] then [Entry(k, v)]
    else if m[0].key == k then [Entry(k, v)] + m[1..]
    else [m[0]] + Set(m[1..], k, v)
  }

  function SetAll(m: seq<Entry>, values: seq<Entry>): seq<Entry>
    decreases |values|
  {
    if values == [] then m
    else var e := values[|values| - 1]; Set(SetAll(m, values[..|values| - 1]), e.key, e.val)
  }

  function Erase(m: seq<Entry>, k: string): seq<Entry> {
    if m == [] then [] else (if m[0].key == k then [] else [m[0]]) + Erase(m[1..], k)
  }

  function ParseStep(m: seq<Entry>, line: string): seq<Entry> {
    match EntryOf(line)
    case None => m
    case Some(e) => Set(m, e.key, e.val)
  }

  /** The map a list of lines describes. */
  function Parse(lines: seq<string>): seq<Entry>
    decreases |lines|
  {
    if lines == [] then [] else ParseStep(Parse(lines[..|lines| - 1]), lines[|lines| - 1])
  }

  lemma ParseNothing()
    ensures Parse([]) == []
  {
  }

  lemma ParseSnoc(lines: seq<string>, line: string)
    ensures Parse(lines + [line]) == ParseStep(Parse(lines), line)
  {
    assert (lines + [line])[..|lines + [line]| - 1] == lines;
  }

  // ---- add() ---------------------------------------------------------------------------------

  function Assign(k: string, v: string): string { k + "=" + v }

  function NewLine(k: string, v: string, comment: string): string {
    if comment == "" then Assign(k, v) else Assign(k, v) + "  " + comment
  }

  /** Lines written so far, and the keys among them that were rewritten. */
  datatype Output = Output(lines: seq<string>, written: seq<string>)

  /** The key of a line that assigns one of `values`. */
  predicate Touches(line: string, values: seq<Entry>) {
    EntryOf(line).Some? && Find(values, EntryOf(line).value.key).Some?
  }

  function RewriteLine(o: Output, line: string, values: seq<Entry>): Output {
    if !Touches(line, values) then o.(lines := o.lines + [line])
    else
      var k := EntryOf(line).value.key;
      if k in o.written then o
      else Output(o.lines + [NewLine(k, Find(values, k).value, Comment(line))], o.written + [k])
  }

  function Rewrite(lines: seq<string>, values: seq<Entry>): Output
    decreases |lines|
  {
    if lines == [] then Output([], [])
    else RewriteLine(Rewrite(lines[..|lines| - 1], values), lines[|lines| - 1], values)
  }

  function AppendNew(o: Output, values: seq<Entry>): seq<string>
    decreases |values|
  {
    if values == [] then o.lines
    else
      var e := values[|values| - 1];
      var out := AppendNew(o, values[..|values| - 1]);
      if e.key in o.written then out else out + [Assign(e.key, e.val)]
  }

  /** Every line of the new file. */
  function Updated(lines: seq<string>, values: seq<Entry>): seq<string> {
    AppendNew(Rewrite(lines, values), values)
  }

  // ---- remove() ------------------------------------------------------------------------------

  predicate Assigns(line: string, k: string) { EntryOf(line).Some? && EntryOf(line).value.key == k }

  function Without(lines: seq<string>, k: string): seq<string>
    decreases |lines|
  {
    if lines == [] then []
    else
      var pre, line := lines[..|lines| - 1], lines[|lines| - 1];
      Without(pre, k) + if Assigns(line, k) then [] else [line]
  }

  // ---- the object ----------------------------------------------------------------------------

  /** How writing the file goes. A failed fsync comes after all lines were written. */
  datatype Io = CannotOpen | FsyncFails | Written

  datatype AddResult = Done(ok: bool) | DuplicateKey(key: string)

  class Config {
    var entries: seq<Entry>

    /** Contents of the file at the object's path; None when it cannot be opened for reading. */
    var file: Option<string>

    predicate Synced()
      reads this
    {
      entries == ParseFile(file)
    }

    constructor (file: Option<string>)
      ensures Synced() && this.file == file
    {
      this.file := file;
      entries := [];
      new;
      if file.Some? { Load(file.value); }
    }

    /** The parser's loop over a file's contents. */
    method Load(contents: string)
      requires entries == []
      modifies this`entries
      ensures entries == Parse(RawLines(contents))
    {
      var f := contents;
      ghost var lines: seq<string> := [];
      assert [] + RawLines(f) == RawLines(f);
      hide ParseStep, Parse, CString, FgetsLength;
      ParseNothing();
      while f != ""
        invariant RawLines(contents) == lines + RawLines(f)
        invariant entries == Parse(lines)
        decreases |f|
      {
        var n := FgetsLength(f, BUF - 1);
        var raw := CString(f[..n]);
        RawLinesFirst(f, n);
        f := f[n..];
        ParseSnoc(lines, raw);
        lines := lines + [raw];
        ParseLine(raw);
      }
      assert lines + [] == lines;
    }

    method ParseLine(raw: string)
      modifies this`entries
      ensures entries == ParseStep(old(entries), raw)
    {
      hide Trim, Set, IndexOf;
      var line := TrimMethod(raw[..IndexOf(raw, '#')]);
      TrimKeepsEntry(Code(raw));
      if |line| != 0 {
        var ie := IndexOf(line, '=');
        if ie != |line| {
          var k := TrimMethod(line[..ie]);
          var v := TrimMethod(line[ie + 1..]);
          SetEntry(k, v);
        }
      }
    }

    method SetEntry(k: string, v: string)
      modifies this`entries
      ensures entries == Set(old(entries), k, v)
    {
      var i := 0;
      while i < |entries| && entries[i].key != k
        invariant 0 <= i <= |entries|
        invariant Set(entries, k, v) == entries[..i] + Set(entries[i..], k, v)
      {
        assert entries[i..][1..] == entries[i + 1..];
        i := i + 1;
      }
      if i < |entries| { entries := entries[i := Entry(k, v)]; } else { entries := entries + [Entry(k, v)]; }
    }

    /** fgets loop that strips line endings. */
    method ReadLines() returns (lines: seq<string>)
      ensures lines == FileLines(file)
    {
      lines := [];
      if file.Some? {
        var f := file.value;
        while f != ""
          invariant Lines(file.value) == lines + Lines(f)
          decreases |f|
        {
          var n := FgetsLength(f, BUF - 1);
          var line := CString(f[..n]);
          ghost var raw := line;
          LinesFirst(f, n);
          f := f[n..];
          while line != "" && IsNewline(line[|line| - 1])
            invariant Chomp(line) == Chomp(raw)
            decreases |line|
          {
            line := line[..|line| - 1];
          }
          lines := lines + [line];
        }
      }
    }

    /** Splits off the comment and finds the key of the code before it. */
    method LineKey(line: string) returns (key: Option<string>, comment: string)
      ensures comment == Comment(line)
      ensures key == if EntryOf(line).Some? then Some(EntryOf(line).value.key) else None
    {
      var ic := IndexOf(line, '#');
      var code := line[..ic];
      comment := line[ic..];
      var ie := IndexOf(code, '=');
      if ie == |code| { return None, comment; }
      var k := TrimMethod(code[..ie]);
      key := Some(k);
    }

    /** Rewrites the file with `values`. Without `overwrite` a key that is already there is an error
        and nothing changes. */
    method Add(values: seq<Entry>, overwrite: bool, io: Io) returns (r: AddResult)
      modifies this
      ensures var lines := FileLines(old(file));
              if !overwrite && exists i :: 0 <= i < |lines| && Touches(lines[i], values)
              then r.DuplicateKey? && file == old(file) && entries == old(entries)
                   && Find(values, r.key).Some? && exists i :: 0 <= i < |lines| && Assigns(lines[i], r.key)
              else r == Done(io == Written)
                   && file == (if io == CannotOpen then old(file) else Some(FileOf(Updated(lines, values))))
                   && entries == (if io == Written then SetAll(old(entries), values) else old(entries))
    {
      hide EntryOf, FileOf, Find;
      var lines := ReadLines();
      var written: seq<string> := [];
      var out: seq<string> := [];
      for i := 0 to |lines|
        invariant Output(out, written) == Rewrite(lines[..i], values)
        invariant !overwrite ==> forall j :: 0 <= j < i ==> !Touches(lines[j], values)
        invariant file == old(file) && entries == old(entries)
      {
        var line := lines[i];
        assert lines[..i + 1][..i] == lines[..i];
        var k, comment := LineKey(line);
        if k.None? {
          out := out + [line];
        } else {
          var key := k.value;
          var val := Find(values, key);
          if val.None? {
            out := out + [line];
          } else if !overwrite {
            assert Touches(lines[i], values) && Assigns(lines[i], key);
            return DuplicateKey(key);
          } else if key !in written {
            var nl := key + "=" + val.value;
            if comment != "" { nl := nl + "  " + comment; }
            out := out + [nl];
            written := written + [key];
          }
        }
      }
      assert lines[..|lines|] == lines;
      for i := 0 to |values|
        invariant out == AppendNew(Rewrite(lines, values), values[..i])
        invariant file == old(file) && entries == old(entries)
      {
        assert values[..i + 1][..i] == values[..i];
        if values[i].key !in written {
          out := out + [values[i].key + "=" + values[i].val];
        }
      }
      assert values[..|values|] == values;
      if io == CannotOpen { return Done(false); }
      file := Some(FileOf(out));
      if io == FsyncFails { return Done(false); }
      for i := 0 to |values|
        invariant entries == SetAll(old(entries), values[..i])
        invariant file == Some(FileOf(out))
      {
        assert values[..i + 1][..i] == values[..i];
        SetEntry(values[i].key, values[i].val);
      }
      return Done(true);
    }

    /** Rewrites the file without the lines of `key`. */
    method Remove(key: string, io: Io) returns (removed: bool)
      modifies this
      ensures entries == Erase(old(entries), key)
      ensures var lines := FileLines(old(file));
              if exists i :: 0 <= i < |lines| && Assigns(lines[i], key)
              then removed == (io == Written)
                   && file == if io == CannotOpen then old(file) else Some(FileOf(Without(lines, key)))
              else !removed && file == old(file)
    {
      hide EntryOf, FileOf;
      var lines := ReadLines();
      var out: seq<string> := [];
      var found := false;
      for i := 0 to |lines|
        invariant out == Without(lines[..i], key)
        invariant found == exists j :: 0 <= j < i && Assigns(lines[j], key)
        invariant file == old(file) && entries == old(entries)
      {
        var line := lines[i];
        assert lines[..i + 1][..i] == lines[..i];
        var k, _ := LineKey(line);
        assert (k == Some(key)) == Assigns(lines[i], key);
        if k == Some(key) { found := true; } else { out := out + [line]; }
      }
      assert lines[..|lines|] == lines;
      entries := Erase(entries, key);
      if !found { return false; }
      if io == CannotOpen { return false; }
      file := Some(FileOf(out));
      return io == Written;
    }
  }

  function ParseFile(file: Option<string>): seq<Entry> {
    if file.None? then [] else Parse(RawLines(file.value))
  }

  function FileLines(file: Option<string>): seq<string> {
    if file.None? then [] else Lines(file.value)
  }

  lemma LinesFirst(f: string, n: nat)
    requires f != "" && FgetsLength(f, BUF - 1) == n
    ensures Lines(f) == [Chomp(CString(f[..n]))] + Lines(f[n..])
  {
    RawLinesFirst(f, n);
  }
}
