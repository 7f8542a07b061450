/** Updating a configuration file commutes with parsing it; repeating an update changes nothing; and
    remove() undoes an addition. */
module ConfUpdate {
  import opened ConfText
  import opened ConfFile

  // ---- laws of the map -----------------------------------------------------------------------

  predicate HasKey(m: seq<Entry>, k: string) { Find(m, k).Some? }

  lemma {:induction false} FindSet(m: seq<Entry>, k: string, v: string, j: string)
    ensures Find(Set(m, k, v), j) == if j == k then Some(v) else Find(m, j)
  {
    if m != [] && m[0].key != k { FindSet(m[1..], k, v, j); }
  }

  lemma {:induction false} SetSame(m: seq<Entry>, k: string, v: string)
    requires Find(m, k) == Some(v)
    ensures Set(m, k, v) == m
  {
    if m[0].key != k { SetSame(m[1..], k, v); }
    assert m == [m[0]] + m[1..];
  }

  /** Value `values` gives a key, or the one it has. */
  function ValueOf(values: seq<Entry>, k: string, v: string): string {
    match Find(values, k)
    case None => v
    case Some(w) => w
  }

  /** The map with the values of its own keys replaced. */
  function Replaced(m: seq<Entry>, values: seq<Entry>): seq<Entry> {
    if m == [] then [] else [Entry(m[0].key, ValueOf(values, m[0].key, m[0].val))] + Replaced(m[1..], values)
  }

  lemma {:induction false} ReplacedSet(m: seq<Entry>, values: seq<Entry>, k: string, v: string)
    ensures Replaced(Set(m, k, v), values) == Set(Replaced(m, values), k, ValueOf(values, k, v))
  {
    if m != [] {
      var s := Set(m, k, v);
      if m[0].key == k { assert s[1..] == m[1..]; } else {
        ReplacedSet(m[1..], values, k, v);
        assert s[1..] == Set(m[1..], k, v);
      }
    }
  }

  lemma {:induction false} FindReplaced(m: seq<Entry>, values: seq<Entry>, k: string)
    ensures Find(Replaced(m, values), k) == if HasKey(m, k) then Some(ValueOf(values, k, Find(m, k).value)) else None
  {
    if m != [] { FindReplaced(m[1..], values, k); }
  }

  predicate Distinct(values: seq<Entry>) {
    forall i, j :: 0 <= i < j < |values| ==> values[i].key != values[j].key
  }

  lemma {:induction false} FindAt(values: seq<Entry>, i: nat)
    requires Distinct(values) && i < |values|
    ensures Find(values, values[i].key) == Some(values[i].val)
  {
    if i > 0 { FindAt(values[1..], i - 1); }
  }

  lemma {:induction false} FindMember(values: seq<Entry>, k: string) returns (i: nat)
    requires HasKey(values, k)
    ensures i < |values| && values[i] == Entry(k, Find(values, k).value)
  {
    if values[0].key == k { i := 0; } else { i := FindMember(values[1..], k); i := i + 1; }
  }

  lemma {:induction false} FindSetAll(m: seq<Entry>, values: seq<Entry>, n: nat, i: nat)
    requires Distinct(values) && i < n <= |values|
    ensures Find(SetAll(m, values[..n]), values[i].key) == Some(values[i].val)
  {
    assert values[..n][..n - 1] == values[..n - 1];
    FindSet(SetAll(m, values[..n - 1]), values[n - 1].key, values[n - 1].val, values[i].key);
    if i < n - 1 { FindSetAll(m, values, n - 1, i); }
  }

  predicate UniqueKeys(m: seq<Entry>) { Distinct(m) }

  lemma {:induction false} SetUnique(m: seq<Entry>, k: string, v: string)
    requires UniqueKeys(m)
    ensures UniqueKeys(Set(m, k, v))
    ensures forall x :: x in Set(m, k, v) ==> x == Entry(k, v) || (x in m && x.key != k)
  {
    if m != [] {
      if m[0].key == k {
        forall x | x in m[1..] ensures x in m && x.key != k {}
      } else {
        SetUnique(m[1..], k, v);
        assert forall x :: x in m[1..] ==> x.key != m[0].key;
      }
    }
  }

  lemma {:induction false} ParseUnique(lines: seq<string>)
    ensures UniqueKeys(Parse(lines))
    decreases |lines|
  {
    if lines != [] {
      ParseUnique(lines[..|lines| - 1]);
      var e := EntryOf(lines[|lines| - 1]);
      if e.Some? { SetUnique(Parse(lines[..|lines| - 1]), e.value.key, e.value.val); }
    }
  }

  // ---- what the written lines say ------------------------------------------------------------

  /** Text that survives being written as a key: the parser trims it, ends it at the first '=' and
      cuts comments and lines off. */
  predicate GoodKey(k: string) { Trimmed(k) && '#' !in k && '=' !in k && Plain(k) }

  predicate GoodValue(v: string) { Trimmed(v) && '#' !in v && Plain(v) }

  predicate GoodValues(values: seq<Entry>) {
    Distinct(values) && forall i :: 0 <= i < |values| ==> GoodKey(values[i].key) && GoodValue(values[i].val)
  }

  lemma TrimTrimmed(s: string)
    requires Trimmed(s)
    ensures Trim(s) == s && Trim(s + "  ") == s
  {
    TrimUnique("", s, "");
    TrimUnique("", s, "  ");
    assert "" + s + "" == s && "" + s + "  " == s + "  ";
  }

  lemma AssignSays(k: string, v: string, pad: string)
    requires GoodKey(k) && GoodValue(v) && pad in {"", "  "}
    ensures var code := Assign(k, v) + pad;
            && '#' !in code && IndexOf(code, '=') == |k|
            && Trim(code[..|k|]) == k && Trim(code[|k| + 1..]) == v
  {
    var code := Assign(k, v) + pad;
    assert '#' !in code;
    AssignParts(k, v, pad);
    TrimTrimmed(k);
    TrimTrimmed(v);
    hide Trim, Assign, GoodKey, GoodValue;
  }

  lemma AssignParts(k: string, v: string, pad: string)
    requires '=' !in k && pad in {"", "  "}
    ensures var code := Assign(k, v) + pad;
            IndexOf(code, '=') == |k| && code[..|k|] == k && code[|k| + 1..] in {v, v + "  "}
  {
    var code := Assign(k, v) + pad;
    IndexOfIs(code, '=', |k|);
    assert code[..|k|] == k && code[|k| + 1..] == v + pad;
    assert v + "" == v;
  }

  /** A rewritten line says what it was given and keeps its comment. */
  lemma NewLineSays(k: string, v: string, comment: string)
    requires GoodKey(k) && GoodValue(v) && (comment == "" || comment[0] == '#')
    ensures EntryOf(NewLine(k, v, comment)) == Some(Entry(k, v))
    ensures Comment(NewLine(k, v, comment)) == comment
  {
    var nl := NewLine(k, v, comment);
    var pad := if comment == "" then "" else "  ";
    var code := Assign(k, v) + pad;
    AssignSays(k, v, pad);
    assert nl == code + comment;
    hide Trim, Assign;
    CommentSplits(code, comment);
  }

  lemma CommentSplits(code: string, comment: string)
    requires '#' !in code && (comment == "" || comment[0] == '#')
    ensures Code(code + comment) == code && Comment(code + comment) == comment
  {
    IndexOfIs(code + comment, '#', |code|);
  }

  lemma AssignIsNewLine(k: string, v: string)
    ensures Assign(k, v) == NewLine(k, v, "")
  {
  }

  // ---- update commutes with parsing ----------------------------------------------------------

  lemma GoodFound(values: seq<Entry>, k: string)
    requires GoodValues(values) && HasKey(values, k)
    ensures GoodKey(k) && GoodValue(Find(values, k).value)
  {
    var i := FindMember(values, k);
  }

  /** One line: the rewritten text stays in step with the map, and `written` holds the keys of the map
      that are being updated. */
  ghost predicate InStep(o: Output, m: seq<Entry>, values: seq<Entry>) {
    && Parse(o.lines) == Replaced(m, values)
    && forall k :: k in o.written <==> HasKey(values, k) && HasKey(m, k)
  }

  lemma RewriteLineInStep(o: Output, m: seq<Entry>, line: string, values: seq<Entry>)
    requires GoodValues(values) && InStep(o, m, values)
    ensures InStep(RewriteLine(o, line, values), ParseStep(m, line), values)
  {
    match EntryOf(line)
    case None => ParseSnoc(o.lines, line);
    case Some(e) =>
      var k := e.key;
      ReplacedSet(m, values, k, e.val);
      forall j ensures HasKey(Set(m, k, e.val), j) == (HasKey(m, j) || j == k) { FindSet(m, k, e.val, j); }
      if HasKey(values, k) {
        GoodFound(values, k);
        var v := Find(values, k).value;
        if k in o.written {
          FindReplaced(m, values, k);
          SetSame(Replaced(m, values), k, v);
        } else {
          NewLineSays(k, v, Comment(line));
          ParseSnoc(o.lines, NewLine(k, v, Comment(line)));
        }
      } else { ParseSnoc(o.lines, line); }
  }

  lemma {:induction false} RewriteInStep(lines: seq<string>, values: seq<Entry>)
    requires GoodValues(values)
    ensures InStep(Rewrite(lines, values), Parse(lines), values)
    decreases |lines|
  {
    if lines != [] {
      RewriteInStep(lines[..|lines| - 1], values);
      RewriteLineInStep(Rewrite(lines[..|lines| - 1], values), Parse(lines[..|lines| - 1]), lines[|lines| - 1], values);
    }
  }

  /** After any part of the values: the new text parses to the updated map with the remaining values
      already in place, and the keys done so far have theirs. */
  lemma {:induction false} AppendInStep(lines: seq<string>, values: seq<Entry>, n: nat)
    requires GoodValues(values) && n <= |values|
    ensures var m := SetAll(Parse(lines), values[..n]);
            && Parse(AppendNew(Rewrite(lines, values), values[..n])) == Replaced(m, values)
            && UniqueKeys(m)
            && forall k :: HasKey(Parse(lines), k) ==> HasKey(m, k)
    ensures forall x :: x in SetAll(Parse(lines), values[..n]) ==>
              forall i :: 0 <= i < n && values[i].key == x.key ==> values[i].val == x.val
  {
    var o := Rewrite(lines, values);
    RewriteInStep(lines, values);
    if n == 0 { ParseUnique(lines); } else {
      AppendInStep(lines, values, n - 1);
      assert values[..n][..n - 1] == values[..n - 1];
      var m := SetAll(Parse(lines), values[..n - 1]);
      AppendOne(o, Parse(lines), m, values, n - 1, AppendNew(o, values[..n - 1]));
      var e := values[n - 1];
      SetUnique(m, e.key, e.val);
    }
  }

  lemma AppendOne(o: Output, m0: seq<Entry>, m: seq<Entry>, values: seq<Entry>, i: nat, out: seq<string>)
    requires GoodValues(values) && i < |values| && InStep(o, m0, values)
    requires Parse(out) == Replaced(m, values) && forall k :: HasKey(m0, k) ==> HasKey(m, k)
    ensures var e := values[i];
            var out' := if e.key in o.written then out else out + [Assign(e.key, e.val)];
            Parse(out') == Replaced(Set(m, e.key, e.val), values)
    ensures forall k :: HasKey(m0, k) ==> HasKey(Set(m, values[i].key, values[i].val), k)
  {
    var e := values[i];
    FindAt(values, i);
    ReplacedSet(m, values, e.key, e.val);
    forall k ensures HasKey(Set(m, e.key, e.val), k) == (HasKey(m, k) || k == e.key) { FindSet(m, e.key, e.val, k); }
    if e.key in o.written {
      FindReplaced(m, values, e.key);
      SetSame(Replaced(m, values), e.key, e.val);
    } else {
      AssignIsNewLine(e.key, e.val);
      NewLineSays(e.key, e.val, "");
      ParseSnoc(out, Assign(e.key, e.val));
    }
  }

  lemma {:induction false} ReplacedSettled(m: seq<Entry>, values: seq<Entry>)
    requires forall x :: x in m ==> ValueOf(values, x.key, x.val) == x.val
    ensures Replaced(m, values) == m
  {
    if m != [] {
      assert m[0] in m;
      ReplacedSettled(m[1..], values);
    }
  }

  /** Parsing the updated lines gives the old map overridden by the values, in the order the
      in-memory update leaves. */
  lemma UpdateCommutes(lines: seq<string>, values: seq<Entry>)
    requires GoodValues(values)
    ensures Parse(Updated(lines, values)) == SetAll(Parse(lines), values)
  {
    AppendInStep(lines, values, |values|);
    assert values[..|values|] == values;
    var m := SetAll(Parse(lines), values);
    forall x | x in m ensures ValueOf(values, x.key, x.val) == x.val {
      if HasKey(values, x.key) { var i := FindMember(values, x.key); }
    }
    ReplacedSettled(m, values);
  }
}
