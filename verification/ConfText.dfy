/** Text of a configuration file (src/conf.h): trimming, reading lines through a fixed buffer, and
    what one line says. */
module ConfText {

  datatype Option<T> = None | Some(value: T)

  /** The characters trim() removes. */
  predicate IsSpace(c: char) { c in {' ', '\t', '\n', '\U{b}', '\U{c}', '\r', '\0'} }

  predicate AllSpace(s: string) { forall i :: 0 <= i < |s| ==> IsSpace(s[i]) }

  /** Neither starts nor ends with a space. */
  predicate Trimmed(s: string) { s == "" || (!IsSpace(s[0]) && !IsSpace(s[|s| - 1])) }

  function TrimLeft(s: string): string { if s != "" && IsSpace(s[0]) then TrimLeft(s[1..]) else s }

  function TrimRight(s: string): string {
    if s != "" && IsSpace(s[|s| - 1]) then TrimRight(s[..|s| - 1]) else s
  }

  function Trim(s: string): string { TrimRight(TrimLeft(s)) }

  lemma {:induction false} TrimLeftCuts(u: string, t: string)
    requires AllSpace(u) && (t == "" || !IsSpace(t[0]))
    ensures TrimLeft(u + t) == t
  {
    if u == "" { assert u + t == t; } else {
      assert (u + t)[1..] == u[1..] + t;
      TrimLeftCuts(u[1..], t);
    }
  }

  lemma {:induction false} TrimRightCuts(t: string, v: string)
    requires AllSpace(v) && (t == "" || !IsSpace(t[|t| - 1]))
    ensures TrimRight(t + v) == t
  {
    if v == "" { assert t + v == t; } else {
      assert (t + v)[..|t + v| - 1] == t + v[..|v| - 1];
      TrimRightCuts(t, v[..|v| - 1]);
    }
  }

  lemma {:induction false} TrimAllSpace(u: string)
    requires AllSpace(u)
    ensures Trim(u) == ""
  {
    TrimLeftCuts(u, "");
    assert u + "" == u;
  }

  /** trim() yields the one trimmed string that is surrounded by spaces only. */
  lemma TrimUnique(u: string, t: string, v: string)
    requires AllSpace(u) && AllSpace(v) && Trimmed(t)
    ensures Trim(u + t + v) == t
  {
    if t == "" {
      TrimAllSpace(u + v);
      assert u + t + v == u + v;
    } else {
      assert u + t + v == u + (t + v);
      TrimLeftCuts(u, t + v);
      TrimRightCuts(t, v);
    }
  }

  /** Splits s into the parts TrimUnique speaks of. */
  lemma {:induction false} TrimParts(s: string) returns (u: string, v: string)
    ensures AllSpace(u) && AllSpace(v) && Trimmed(Trim(s)) && s == u + Trim(s) + v
  {
    if s != "" && IsSpace(s[0]) {
      u, v := TrimParts(s[1..]);
      u := [s[0]] + u;
      assert s == [s[0]] + s[1..];
    } else {
      u := "";
      assert TrimLeft(s) == s;
      v := TrimRightParts(s);
    }
  }

  lemma {:induction false} TrimRightParts(s: string) returns (v: string)
    requires s == "" || !IsSpace(s[0])
    ensures AllSpace(v) && Trimmed(TrimRight(s)) && s == TrimRight(s) + v
  {
    if s != "" && IsSpace(s[|s| - 1]) {
      var pre, c := s[..|s| - 1], s[|s| - 1];
      v := TrimRightParts(pre);
      assert s == pre + [c] == TrimRight(pre) + (v + [c]);
      v := v + [c];
    } else {
      v := "";
      assert s == s + v;
    }
  }

  method TrimMethod(s: string) returns (r: string)
    ensures r == Trim(s)
  {
    var l := |s|;
    var a, b := 0, l - 1;
    while a < l && IsSpace(s[a])
      invariant 0 <= a <= l
      invariant AllSpace(s[..a])
    {
      a := a + 1;
    }
    while b > a && IsSpace(s[b])
      invariant a - 1 <= b <= l - 1 && (a < l ==> a <= b)
      invariant AllSpace(s[b + 1..])
    {
      b := b - 1;
    }
    r := s[a..b + 1];
    assert s == s[..a] + r + s[b + 1..];
    TrimUnique(s[..a], r, s[b + 1..]);
  }

  /** `find_first_of` a character; |s| when it does not occur. */
  function IndexOf(s: string, c: char): (i: nat)
    ensures i <= |s| && (i < |s| ==> s[i] == c)
    ensures forall j :: 0 <= j < i ==> s[j] != c
  {
    if s == "" || s[0] == c then 0 else 1 + IndexOf(s[1..], c)
  }

  lemma {:induction false} IndexOfIs(s: string, c: char, i: nat)
    requires i <= |s| && (i < |s| ==> s[i] == c)
    requires forall j :: 0 <= j < i ==> s[j] != c
    ensures IndexOf(s, c) == i
  {
    if i > 0 {
      assert s[0] != c && forall j :: 0 <= j < i - 1 ==> s[1..][j] == s[j + 1];
      IndexOfIs(s[1..], c, i - 1);
    }
  }

  // ---- what a line says ----------------------------------------------------------------------

  function Code(line: string): string { line[..IndexOf(line, '#')] }

  function Comment(line: string): string { line[IndexOf(line, '#')..] }

  datatype Entry = Entry(key: string, val: string)

  /** The assignment in a line, if it has one. */
  function EntryOf(line: string): Option<Entry> {
    var code := Code(line);
    var e := IndexOf(code, '=');
    if e == |code| then None else Some(Entry(Trim(code[..e]), Trim(code[e + 1..])))
  }

  /** Trimming the code first, as the parser does, finds the same assignment. */
  lemma TrimKeepsEntry(code: string)
    ensures var t := Trim(code);
            var e, f := IndexOf(code, '='), IndexOf(t, '=');
            && (e == |code| <==> f == |t|)
            && (f < |t| ==> Trim(code[..e]) == Trim(t[..f]) && Trim(code[e + 1..]) == Trim(t[f + 1..]))
  {
    hide IndexOf, AllSpace, Trim, Trimmed;
    var u, v := TrimParts(code);
    var t := Trim(code);
    PaddedIndex(u, t, v);
    var f := IndexOf(t, '=');
    if f < |t| {
      NoSpace();
      CutPadded(u, t, v, f);
      PaddingIsTrimmed(u, t[..f], "");
      PaddingIsTrimmed("", t[f + 1..], v);
    }
  }

  lemma NoSpace()
    ensures AllSpace("")
  {
  }

  lemma CutPadded(u: string, t: string, v: string, f: nat)
    requires f < |t|
    ensures (u + t + v)[..|u| + f] == u + t[..f] + ""
    ensures (u + t + v)[|u| + f + 1..] == "" + t[f + 1..] + v
  {
  }

  lemma PaddedIndex(u: string, t: string, v: string)
    requires AllSpace(u) && AllSpace(v)
    ensures IndexOf(u + t + v, '=') == |u| + if IndexOf(t, '=') < |t| then IndexOf(t, '=') else |t| + |v|
  {
    hide IndexOf;
    var code, f := u + t + v, IndexOf(t, '=');
    var i := |u| + if f < |t| then f else |t| + |v|;
    forall j | 0 <= j < i ensures code[j] != '=' {
      if j < |u| { assert code[j] == u[j]; }
      else if j < |u| + |t| { assert code[j] == t[j - |u|]; }
      else { assert code[j] == v[j - |u| - |t|]; }
    }
    IndexOfIs(code, '=', i);
  }

  lemma PaddingIsTrimmed(u: string, s: string, v: string)
    requires AllSpace(u) && AllSpace(v)
    ensures Trim(u + s + v) == Trim(s)
  {
    var a, b := TrimParts(s);
    var t := Trim(s);
    assert u + s + v == (u + a) + t + (b + v);
    TrimUnique(u + a, t, b + v);
  }

  // ---- reading and writing lines -------------------------------------------------------------

  const BUF: nat := 256

  /** How much `fgets` takes: up to and including a newline, at most `room` characters. */
  function FgetsLength(f: string, room: nat): (n: nat)
    ensures n <= |f| && n <= room
    ensures f != "" && room > 0 ==> n > 0
  {
    if f == "" || room == 0 then 0 else if f[0] == '\n' then 1 else 1 + FgetsLength(f[1..], room - 1)
  }

  /** A C string ends at its first NUL. */
  function CString(s: string): string { s[..IndexOf(s, '\0')] }

  /** The strings successive calls of `fgets` yield. */
  function RawLines(f: string): seq<string>
    decreases |f|
  {
    if f == "" then [] else var n := FgetsLength(f, BUF - 1); [CString(f[..n])] + RawLines(f[n..])
  }

  predicate IsNewline(c: char) { c == '\n' || c == '\r' }

  /** Drops trailing newline and carriage-return characters. */
  function Chomp(line: string): string
    decreases |line|
  {
    if line != "" && IsNewline(line[|line| - 1]) then Chomp(line[..|line| - 1]) else line
  }

  function ChompAll(lines: seq<string>): (r: seq<string>)
    ensures |r| == |lines| && forall i :: 0 <= i < |lines| ==> r[i] == Chomp(lines[i])
  {
    seq(|lines|, i requires 0 <= i < |lines| => Chomp(lines[i]))
  }

  function Lines(f: string): seq<string> { ChompAll(RawLines(f)) }

  function FileOf(lines: seq<string>): string {
    if lines == [] then "" else lines[0] + "\n" + FileOf(lines[1..])
  }

  lemma {:induction false} ChompParts(line: string) returns (v: string)
    ensures line == Chomp(line) + v && forall i :: 0 <= i < |v| ==> IsNewline(v[i])
    decreases |line|
  {
    if line != "" && IsNewline(line[|line| - 1]) {
      var pre, c := line[..|line| - 1], line[|line| - 1];
      v := ChompParts(pre);
      assert line == pre + [c] == Chomp(pre) + (v + [c]);
      v := v + [c];
    } else {
      v := "";
      assert line == line + v;
    }
  }

  /** Line endings do not matter to what a line says. */
  lemma ChompKeepsEntry(line: string)
    ensures EntryOf(Chomp(line)) == EntryOf(line)
  {
    var v := ChompParts(line);
    EndingKeepsEntry(Chomp(line), v);
  }

  lemma EndingKeepsEntry(s: string, v: string)
    requires forall i :: 0 <= i < |v| ==> IsNewline(v[i])
    ensures EntryOf(s + v) == EntryOf(s)
  {
    var line := s + v;
    var h := IndexOf(s, '#');
    if h < |s| {
      IndexOfIs(line, '#', h);
      assert Code(line) == Code(s);
    } else {
      IndexOfIs(line, '#', |line|);
      assert Code(line) == line && Code(s) == s;
      var e := IndexOf(s, '=');
      if e < |s| {
        IndexOfIs(line, '=', e);
        assert line[..e] == s[..e];
        assert line[e + 1..] == "" + s[e + 1..] + v;
        assert "" + s[e + 1..] + "" == s[e + 1..];
        PaddingIsTrimmed("", s[e + 1..], v);
      } else { IndexOfIs(line, '=', |line|); }
    }
  }

  /** A line `fgets` returns whole: shorter than the buffer with its newline, and free of newline and
      NUL. At 255 characters it is still whole but its newline is left for the next call. */
  predicate Plain(line: string) { '\n' !in line && '\0' !in line }

  lemma {:induction false} FgetsOf(line: string, rest: string, room: nat)
    requires '\n' !in line
    ensures |line| < room ==> FgetsLength(line + "\n" + rest, room) == |line| + 1
    ensures |line| == room ==> FgetsLength(line + "\n" + rest, room) == room
  {
    var f := line + "\n" + rest;
    if line != "" && room > 0 {
      assert f[1..] == line[1..] + "\n" + rest;
      FgetsOf(line[1..], rest, room - 1);
    }
  }

  lemma CStringOf(s: string)
    requires '\0' !in s
    ensures CString(s) == s
  {
    IndexOfIs(s, '\0', |s|);
  }

  lemma RawLinesFirst(f: string, n: nat)
    requires f != "" && FgetsLength(f, BUF - 1) == n
    ensures RawLines(f) == [CString(f[..n])] + RawLines(f[n..])
  {
  }

  lemma RawLinesOfShort(line: string, rest: string)
    requires Plain(line) && |line| < BUF - 1
    ensures RawLines(line + "\n" + rest) == [line + "\n"] + RawLines(rest)
  {
    var f := line + "\n" + rest;
    hide RawLines;
    FgetsOf(line, rest, BUF - 1);
    RawLinesFirst(f, |line| + 1);
    assert f[..|line| + 1] == line + "\n" && f[|line| + 1..] == rest;
    CStringOf(line + "\n");
  }

  lemma RawLinesOfFull(line: string, rest: string)
    requires Plain(line) && |line| == BUF - 1
    ensures RawLines(line + "\n" + rest) == [line, "\n"] + RawLines(rest)
  {
    var f := line + "\n" + rest;
    hide RawLines;
    FgetsOf(line, rest, BUF - 1);
    RawLinesFirst(f, |line|);
    assert f == line + ("\n" + rest) && "" + "\n" + rest == "\n" + rest;
    assert f[..|line|] == line && f[|line|..] == "\n" + rest;
    CStringOf(line);
    RawLinesOfShort("", rest);
    assert "" + "\n" == "\n";
    assert [line] + (["\n"] + RawLines(rest)) == [line, "\n"] + RawLines(rest);
  }

  predicate EndsClean(line: string) { line == "" || !IsNewline(line[|line| - 1]) }

  lemma ChompOf(line: string, v: string)
    requires EndsClean(line) && v in {"", "\n"}
    ensures Chomp(line + v) == line
  {
    if v == "\n" { assert (line + v)[..|line|] == line; assert Chomp(line + v) == Chomp(line); }
    assert line + "" == line;
  }

  /** Reading back what was written, line by line. */
  lemma {:induction false} LinesOfFile(lines: seq<string>)
    requires forall i :: 0 <= i < |lines| ==> Plain(lines[i]) && |lines[i]| < BUF - 1 && EndsClean(lines[i])
    ensures Lines(FileOf(lines)) == lines
  {
    if lines != [] {
      LinesOfFile(lines[1..]);
      hide RawLines, Chomp;
      RawLinesOfShort(lines[0], FileOf(lines[1..]));
      ChompOf(lines[0], "\n");
      assert Lines(FileOf(lines)) == [lines[0]] + Lines(FileOf(lines[1..]));
    }
  }

  /** What reading a file yields can be written and read again: no newline, no NUL, no more than the
      buffer holds. */
  lemma {:induction false} LinesArePlain(f: string)
    ensures forall i :: 0 <= i < |Lines(f)| ==>
              Plain(Lines(f)[i]) && |Lines(f)[i]| < BUF && EndsClean(Lines(f)[i])
    decreases |f|
  {
    if f != "" {
      var n := FgetsLength(f, BUF - 1);
      LinesArePlain(f[n..]);
      NewlineOnlyLast(f, BUF - 1);
      ChompIsPlain(CString(f[..n]));
      assert Lines(f) == [Chomp(CString(f[..n]))] + Lines(f[n..]);
    }
  }

  lemma {:induction false} NewlineOnlyLast(f: string, room: nat)
    ensures forall i :: 0 <= i < FgetsLength(f, room) - 1 ==> f[i] != '\n'
  {
    if f != "" && room > 0 && f[0] != '\n' {
      NewlineOnlyLast(f[1..], room - 1);
      assert forall i :: 0 < i < FgetsLength(f, room) - 1 ==> f[i] == f[1..][i - 1];
    }
  }

  lemma {:induction false} ChompIsPlain(line: string)
    requires '\0' !in line && forall i :: 0 <= i < |line| - 1 ==> line[i] != '\n'
    ensures Plain(Chomp(line)) && EndsClean(Chomp(line)) && |Chomp(line)| <= |line|
    decreases |line|
  {
    if line != "" && IsNewline(line[|line| - 1]) { ChompIsPlain(line[..|line| - 1]); }
  }
}
