/** Core-dump transfer: the device streams the partition in 48-byte chunks as base 64 lines
    (src/cli.cpp), the host collects them between two markers (etc/fugu_console.py). */
module CoreDump {
  import opened Base64

  const RAW: nat := 48
  const BUF: nat := 68

  function Joined(lines: seq<string>): string {
    if lines == [] then "" else lines[0] + Joined(lines[1..])
  }

  lemma {:induction false} JoinedConcat(a: seq<string>, b: seq<string>)
    ensures Joined(a + b) == Joined(a) + Joined(b)
  {
    if a == [] { assert a + b == b; } else {
      assert (a + b)[1..] == a[1..] + b;
      JoinedConcat(a[1..], b);
    }
  }

  /** The lines a dump is sent as. */
  function Chunks(dump: seq<Byte>): seq<string> {
    if dump == [] then []
    else if |dump| <= RAW then [Encode(dump)]
    else [Encode(dump[..RAW])] + Chunks(dump[RAW..])
  }

  /** Encoding chunk by chunk gives the encoding of the whole. */
  lemma {:induction false} ChunksJoin(dump: seq<Byte>)
    ensures Joined(Chunks(dump)) == Encode(dump)
  {
    hide Encode;
    if dump == [] { EncodeNothing(dump); } else if |dump| <= RAW {
      JoinedOne(Encode(dump));
    } else {
      ChunksJoin(dump[RAW..]);
      EncodeConcat(dump[..RAW], dump[RAW..]);
      assert dump[..RAW] + dump[RAW..] == dump;
      assert Chunks(dump)[1..] == Chunks(dump[RAW..]);
    }
  }

  lemma JoinedOne(s: string)
    ensures Joined([s]) == s
  {
    assert Joined([s]) == s + Joined([]);
    assert s + "" == s;
  }

  predicate IsBase64Line(s: string) { s != "" && forall i :: 0 <= i < |s| ==> IsBase64Char(s[i]) }

  lemma EncodeIsBase64(x: seq<Byte>)
    requires x != []
    ensures IsBase64Line(Encode(x))
  {
    EncodeLength(x);
    EncodeChars(x);
  }

  lemma ChunkFits(x: seq<Byte>)
    requires 0 < |x| <= RAW
    ensures |Encode(x)| + 1 <= BUF && IsBase64Line(Encode(x))
  {
    EncodeLength(x);
    EncodeIsBase64(x);
  }

  /** Every line fits the 68-byte buffer with its terminator, and is one the host recognises. */
  lemma {:induction false} ChunksFit(dump: seq<Byte>, i: nat)
    requires i < |Chunks(dump)|
    ensures |Chunks(dump)[i]| + 1 <= BUF && IsBase64Line(Chunks(dump)[i])
  {
    hide Encode, IsBase64Char;
    var first := if |dump| <= RAW then dump else dump[..RAW];
    if i == 0 {
      ChunkFits(first);
    } else { ChunksFit(dump[RAW..], i - 1); }
  }

  // ---- device --------------------------------------------------------------------------------

  datatype Line = Begin(size: nat) | End | Text(s: string)

  function Texts(ss: seq<string>): (r: seq<Line>)
    ensures |r| == |ss| && forall i :: 0 <= i < |ss| ==> r[i] == Text(ss[i])
  {
    seq(|ss|, i requires 0 <= i < |ss| => Text(ss[i]))
  }

  /** `coredump get`. Partition reads are taken from `dump`; `badAt` is the offset of one that fails
      and ends the command. */
  method Get(dump: seq<Byte>, badAt: int) returns (log: seq<Line>, ok: bool)
    ensures ok ==> log == [Begin(|dump|)] + Texts(Chunks(dump)) + [End]
    ensures !ok ==> 0 <= badAt < |dump| && badAt % RAW == 0
                    && log == [Begin(|dump|)] + Texts(Chunks(dump[..badAt]))
    ensures !ok <==> 0 <= badAt < |dump| && badAt % RAW == 0
  {
    hide Chunks, Encode;
    log := [Begin(|dump|)];
    var raw := new Byte[RAW](_ => 0);
    var b64 := new char[BUF](_ => '\0');
    var done, k := 0, 0;
    ghost var sent: seq<string> := [];
    NoChunks();
    while done < |dump|
      invariant 0 <= done <= |dump| && k >= 0 && (done == RAW * k || done == |dump|)
      invariant sent == Chunks(dump[..done]) && log == [Begin(|dump|)] + Texts(sent)
      invariant 0 <= badAt < done ==> badAt % RAW != 0
      decreases |dump| - done
    {
      var n := if RAW < |dump| - done then RAW else |dump| - done;
      if done == badAt {
        return log, false;
      }
      var line := SendChunk(dump, done, n, raw, b64);
      log := log + [Text(line)];
      ChunksSnoc(dump, done, n, k);
      sent := sent + [line];
      NoMultipleBetween(badAt, k, done, n);
      done := done + n;
      k := k + 1;
    }
    assert dump[..done] == dump;
    log := log + [End];
    ok := true;
  }

  lemma NoChunks()
    ensures Chunks([]) == []
  {
  }

  /** Reads, encodes and terminates one chunk. */
  method SendChunk(dump: seq<Byte>, done: nat, n: nat, raw: array<Byte>, b64: array<char>) returns (line: string)
    requires done + n <= |dump| && n <= RAW == raw.Length && b64.Length == BUF
    modifies raw, b64
    ensures line == Encode(dump[done..done + n])
  {
    hide Encode;
    ReadRaw(dump, done, n, raw);
    var bl := B64enc(raw, n, b64);
    b64[bl] := '\0';
    line := b64[..bl];
  }

  lemma NoMultipleBetween(b: int, k: nat, done: nat, n: nat)
    requires done == RAW * k && n <= RAW
    ensures done < b < done + n ==> b % RAW != 0
  {
  }

  method ReadRaw(dump: seq<Byte>, off: nat, n: nat, raw: array<Byte>)
    requires off + n <= |dump| && n <= raw.Length
    modifies raw
    ensures raw[..n] == dump[off..off + n]
  {
    for i := 0 to n
      invariant raw[..i] == dump[off..off + i]
    {
      raw[i] := dump[off + i];
    }
  }

  /** A chunk sent after whole chunks. */
  lemma ChunksSnoc(dump: seq<Byte>, done: nat, n: nat, k: nat)
    requires done == RAW * k && 0 < n <= RAW && done + n <= |dump|
    ensures Chunks(dump[..done + n]) == Chunks(dump[..done]) + [Encode(dump[done..done + n])]
  {
    assert dump[..done + n] == dump[..done] + dump[done..done + n];
    ChunksAppend(dump[..done], dump[done..done + n], k);
  }

  lemma {:induction false} ChunksAppend(a: seq<Byte>, b: seq<Byte>, k: nat)
    requires |a| == RAW * k && 0 < |b| <= RAW
    ensures Chunks(a + b) == Chunks(a) + [Encode(b)]
    decreases k
  {
    hide Encode;
    if k == 0 { assert a + b == b; } else {
      assert (a + b)[..RAW] == a[..RAW] && (a + b)[RAW..] == a[RAW..] + b;
      ChunksAppend(a[RAW..], b, k - 1);
      if k == 1 { assert a[..RAW] == a && a[RAW..] == []; }
    }
  }

  // ---- host ----------------------------------------------------------------------------------

  /** What Python's str.strip() removes. */
  predicate IsSpace(c: char) {
    '\t' <= c <= '\r' || '\U{1c}' <= c <= ' ' || c == '\U{85}' || c == '\U{a0}' || c == '\U{1680}'
    || '\U{2000}' <= c <= '\U{200a}' || c == '\U{2028}' || c == '\U{2029}' || c == '\U{202f}' || c == '\U{205f}'
    || c == '\U{3000}'
  }

  function Strip(s: string): string {
    if s != "" && IsSpace(s[0]) then Strip(s[1..])
    else if s != "" && IsSpace(s[|s| - 1]) then Strip(s[..|s| - 1])
    else s
  }

  /** strip() leaves the one string without blanks at its ends that has only blanks around it. */
  lemma {:induction false} StripExactly(a: string, t: string, b: string)
    requires (forall i :: 0 <= i < |a| ==> IsSpace(a[i])) && (forall i :: 0 <= i < |b| ==> IsSpace(b[i]))
    requires t == "" || (!IsSpace(t[0]) && !IsSpace(t[|t| - 1]))
    ensures Strip(a + t + b) == t
    decreases |a| + |b|
  {
    hide IsSpace;
    var s := a + t + b;
    if a != [] {
      assert s[1..] == a[1..] + t + b;
      StripExactly(a[1..], t, b);
    } else if b != [] {
      assert s[..|s| - 1] == a + t + b[..|b| - 1] && s[|s| - 1] == b[|b| - 1];
      if t == "" {
        assert s == b && s[1..] == [] + t + b[1..];
        StripExactly([], t, b[1..]);
      } else {
        assert s[0] == t[0];
        StripExactly(a, t, b[..|b| - 1]);
      }
    } else { assert s == t; }
  }

  /** The lines the host skips: what is left between the blanks is nothing, or has a character that is neither
      letter, digit, '+', '/' nor '='. */
  lemma NoiseExactly(a: string, t: string, b: string)
    requires (forall i :: 0 <= i < |a| ==> IsSpace(a[i])) && (forall i :: 0 <= i < |b| ==> IsSpace(b[i]))
    requires t == "" || (!IsSpace(t[0]) && !IsSpace(t[|t| - 1]))
    ensures IsNoise(Text(a + t + b))
            <==> t == "" || exists i :: 0 <= i < |t| && !('A' <= t[i] <= 'Z' || 'a' <= t[i] <= 'z' || '0' <= t[i] <= '9'
                                                         || t[i] == '+' || t[i] == '/' || t[i] == '=')
  {
    StripExactly(a, t, b);
    hide Strip, IsSpace;
  }

  lemma Base64IsNoSpace(c: char)
    requires IsBase64Char(c)
    ensures !IsSpace(c)
  {
  }

  lemma StripsNothing(s: string)
    requires IsBase64Line(s)
    ensures Strip(s) == s
  {
    Base64IsNoSpace(s[0]);
    Base64IsNoSpace(s[|s| - 1]);
    hide IsSpace;
  }

  /** What the host has gathered. `size` is None until a dump has begun. */
  datatype Capture = Capture(size: Option<nat>, b64: seq<string>, capturing: bool)

  function CaptureLine(c: Capture, line: Line): Capture {
    match line
    case Begin(n) => Capture(Some(n), [], true)
    case End => c.(capturing := false)
    case Text(s) =>
      var t := Strip(s);
      if c.capturing && IsBase64Line(t) then c.(b64 := c.b64 + [t]) else c
  }

  function CaptureAll(c: Capture, lines: seq<Line>): Capture
    decreases |lines|
  {
    if lines == [] then c else CaptureLine(CaptureAll(c, lines[..|lines| - 1]), lines[|lines| - 1])
  }

  const IDLE: Capture := Capture(None, [], false)

  /** `size` is None if no dump began; then nothing is decoded. `data` is None as well where the decoder
      raises an error. */
  method Collect(lines: seq<Line>) returns (size: Option<nat>, data: Option<seq<Byte>>)
    ensures var c := CaptureAll(IDLE, lines);
            size == c.size && data == if c.size == None then None else Decode(Joined(c.b64))
  {
    hide Strip, IsBase64Line, Decode, Joined;
    var b64: seq<string> := [];
    var capturing := false;
    size := None;
    for i := 0 to |lines|
      invariant Capture(size, b64, capturing) == CaptureAll(IDLE, lines[..i])
    {
      assert lines[..i + 1][..i] == lines[..i];
      match lines[i] {
        case Begin(n) => size, b64, capturing := Some(n), [], true;
        case End => capturing := false;
        case Text(ln) =>
          if capturing {
            var s := Strip(ln);
            if IsBase64Line(s) { b64 := b64 + [s]; }
          }
      }
    }
    assert lines[..|lines|] == lines;
    if size == None { return None, None; }
    data := Decode(Joined(b64));
  }

  lemma {:induction false} CaptureConcat(c: Capture, a: seq<Line>, b: seq<Line>)
    ensures CaptureAll(c, a + b) == CaptureAll(CaptureAll(c, a), b)
    decreases |b|
  {
    if b == [] { assert a + b == a; } else {
      assert (a + b)[..|a + b| - 1] == a + b[..|b| - 1];
      CaptureConcat(c, a, b[..|b| - 1]);
    }
  }

  lemma OneLine(c: Capture, line: Line)
    ensures CaptureAll(c, [line]) == CaptureLine(c, line)
  {
    assert CaptureAll(c, [line][..0]) == c;
  }

  predicate AllBase64(ss: seq<string>) { forall i :: 0 <= i < |ss| ==> IsBase64Line(ss[i]) }

  lemma {:induction false} CaptureTexts(c: Capture, ss: seq<string>)
    requires c.capturing && AllBase64(ss)
    ensures CaptureAll(c, Texts(ss)) == c.(b64 := c.b64 + ss)
    decreases |ss|
  {
    hide IsBase64Line, Strip;
    if ss != [] {
      var n := |ss| - 1;
      assert Texts(ss)[..n] == Texts(ss[..n]) && ss == ss[..n] + [ss[n]];
      CaptureTexts(c, ss[..n]);
      StripsNothing(ss[n]);
    }
  }

  /** Nothing after the end marker matters unless another dump begins. */
  lemma {:induction false} AfterEnd(c: Capture, lines: seq<Line>)
    requires !c.capturing && forall i :: 0 <= i < |lines| ==> !lines[i].Begin?
    ensures CaptureAll(c, lines) == c
    decreases |lines|
  {
    if lines != [] { AfterEnd(c, lines[..|lines| - 1]); }
  }

  /** A dump as the device logs it, with the lines `body` between its markers. */
  function Reply(dump: seq<Byte>, body: seq<string>): seq<Line> { [Begin(|dump|)] + Texts(body) + [End] }

  lemma CaptureReply(c: Capture, dump: seq<Byte>, body: seq<string>)
    requires AllBase64(body)
    ensures CaptureAll(c, Reply(dump, body)) == Capture(Some(|dump|), body, false)
  {
    var c1 := Capture(Some(|dump|), [], true);
    OneLine(c, Begin(|dump|));
    CaptureConcat(c, [Begin(|dump|)], Texts(body));
    CaptureTexts(c1, body);
    assert [] + body == body;
    CaptureConcat(c, [Begin(|dump|)] + Texts(body), [End]);
    OneLine(Capture(Some(|dump|), body, true), End);
  }

  /** A status line that does not look like data once it is stripped. */
  predicate IsNoise(l: Line) { l.Text? && !IsBase64Line(Strip(l.s)) }

  /** `rx` is `log` with such lines inserted anywhere. */
  predicate Noisy(log: seq<Line>, rx: seq<Line>)
    decreases |rx|
  {
    if rx == [] then log == []
    else
      var l, pre := rx[|rx| - 1], rx[..|rx| - 1];
      || (IsNoise(l) && Noisy(log, pre))
      || (log != [] && log[|log| - 1] == l && Noisy(log[..|log| - 1], pre))
  }

  /** They are skipped. */
  lemma {:induction false} NoiseIsSkipped(c: Capture, log: seq<Line>, rx: seq<Line>)
    requires Noisy(log, rx)
    ensures CaptureAll(c, rx) == CaptureAll(c, log)
    decreases |rx|
  {
    hide IsBase64Line, Strip;
    if rx != [] {
      var l, pre := rx[|rx| - 1], rx[..|rx| - 1];
      if IsNoise(l) && Noisy(log, pre) { NoiseIsSkipped(c, log, pre); }
      else { NoiseIsSkipped(c, log[..|log| - 1], pre); }
    }
  }

  lemma ChunksAreBase64(dump: seq<Byte>)
    ensures AllBase64(Chunks(dump))
  {
    forall i | 0 <= i < |Chunks(dump)| ensures IsBase64Line(Chunks(dump)[i]) { ChunksFit(dump, i); }
  }

  /** Whatever lines came before, with noise among what the device logs, and whatever follows short of
      another dump: the host captures the lines between the markers. */
  lemma CaptureNoisy(dump: seq<Byte>, body: seq<string>, before: seq<Line>, rx: seq<Line>, after: seq<Line>)
    requires AllBase64(body) && Noisy(Reply(dump, body), rx)
    requires forall i :: 0 <= i < |after| ==> !after[i].Begin?
    ensures CaptureAll(IDLE, before + rx + after) == Capture(Some(|dump|), body, false)
  {
    hide CaptureAll, Noisy, Reply, AllBase64;
    var c0 := CaptureAll(IDLE, before);
    CaptureConcat(IDLE, before, rx);
    NoiseIsSkipped(c0, Reply(dump, body), rx);
    CaptureReply(c0, dump, body);
    CaptureConcat(IDLE, before + rx, after);
    AfterEnd(Capture(Some(|dump|), body, false), after);
  }

  /** End to end: so the host recovers the exact bytes and the announced size. */
  lemma DumpArrives(dump: seq<Byte>, before: seq<Line>, rx: seq<Line>, after: seq<Line>)
    requires Noisy(Reply(dump, Chunks(dump)), rx)
    requires forall i :: 0 <= i < |after| ==> !after[i].Begin?
    ensures var c := CaptureAll(IDLE, before + rx + after);
            c.size == Some(|dump|) && Decode(Joined(c.b64)) == Some(dump)
  {
    hide CaptureAll, Noisy, Reply, Chunks, Joined, Decode, AllBase64;
    ChunksAreBase64(dump);
    CaptureNoisy(dump, Chunks(dump), before, rx, after);
    ChunksJoin(dump);
    DecodeEncode(dump, "");
    assert Encode(dump) + "" == Encode(dump);
  }

  /** Device and host together. */
  method Transfer(dump: seq<Byte>) returns (size: Option<nat>, data: Option<seq<Byte>>)
    ensures size == Some(|dump|) && data == Some(dump)
  {
    hide Decode, Joined, Chunks;
    var log, ok := Get(dump, -1);
    size, data := Collect(log);
    NoNoise(log);
    DumpArrives(dump, [], log, []);
    assert [] + log + [] == log;
  }

  lemma {:induction false} NoNoise(log: seq<Line>)
    ensures Noisy(log, log)
    decreases |log|
  {
    hide IsNoise;
    if log != [] { NoNoise(log[..|log| - 1]); }
  }

  // ---- stray lines that look like data -------------------------------------------------------

  /** A captured line: one of the device's, or a stray one. */
  datatype Item = Data(s: string) | Stray(s: string)

  function Strings(items: seq<Item>): (r: seq<string>)
    ensures |r| == |items| && forall i :: 0 <= i < |items| ==> r[i] == items[i].s
  {
    seq(|items|, i requires 0 <= i < |items| => items[i].s)
  }

  function DataOf(items: seq<Item>): seq<string> {
    if items == [] then []
    else (if items[0].Data? then [items[0].s] else []) + DataOf(items[1..])
  }

  /** The device's lines in order, with any lines of base 64 digits among them. */
  predicate Mixed(items: seq<Item>, dump: seq<Byte>) {
    DataOf(items) == Chunks(dump)
    && forall i :: 0 <= i < |items| && items[i].Stray? ==> items[i].s != "" && AllDigits(items[i].s)
  }

  /** Characters of stray lines. */
  function StrayLength(items: seq<Item>): nat {
    if items == [] then 0 else (if items[0].Stray? then |items[0].s| else 0) + StrayLength(items[1..])
  }

  lemma {:induction false} MixedLength(items: seq<Item>)
    ensures |Joined(Strings(items))| == |Joined(DataOf(items))| + StrayLength(items)
  {
    if items != [] {
      MixedLength(items[1..]);
      assert Strings(items)[1..] == Strings(items[1..]);
      var rest := DataOf(items[1..]);
      if items[0].Data? { assert DataOf(items)[1..] == rest; } else { assert [] + rest == rest; }
    }
  }

  lemma StringsConcat(a: seq<Item>, b: seq<Item>)
    ensures Strings(a + b) == Strings(a) + Strings(b)
  {
  }

  lemma {:induction false} DataOfConcat(a: seq<Item>, b: seq<Item>)
    ensures DataOf(a + b) == DataOf(a) + DataOf(b)
  {
    if a == [] { assert a + b == b; } else {
      assert (a + b)[1..] == a[1..] + b;
      DataOfConcat(a[1..], b);
      var x := if a[0].Data? then [a[0].s] else [];
      Associate(x, DataOf(a[1..]), DataOf(b));
    }
  }

  lemma Associate<T>(x: seq<T>, y: seq<T>, z: seq<T>)
    ensures x + (y + z) == x + y + z
  {
  }

  lemma {:induction false} StrayLengthConcat(a: seq<Item>, b: seq<Item>)
    ensures StrayLength(a + b) == StrayLength(a) + StrayLength(b)
  {
    if a == [] { assert a + b == b; } else {
      assert (a + b)[1..] == a[1..] + b;
      StrayLengthConcat(a[1..], b);
    }
  }

  lemma TextOfConcat(a: seq<Item>, b: seq<Item>)
    ensures Joined(Strings(a + b)) == Joined(Strings(a)) + Joined(Strings(b))
  {
    StringsConcat(a, b);
    JoinedConcat(Strings(a), Strings(b));
  }

  /** The chunks before the last one have no padding; the last one has that of the dump. */
  lemma {:induction false} ChunksEnd(dump: seq<Byte>) returns (last: seq<Byte>)
    requires dump != []
    ensures last != [] && |last| % 3 == |dump| % 3 && Chunks(dump) != []
    ensures Chunks(dump)[|Chunks(dump)| - 1] == Encode(last)
    ensures forall i :: 0 <= i < |Chunks(dump)| - 1 ==> AllDigits(Chunks(dump)[i])
  {
    hide Encode, AllDigits;
    if |dump| <= RAW { last := dump; } else {
      last := ChunksEnd(dump[RAW..]);
      WholeChunkDigits(dump[..RAW]);
      SameRest(|dump|);
      assert Chunks(dump)[1..] == Chunks(dump[RAW..]);
    }
  }

  lemma SameRest(n: nat)
    requires n > RAW
    ensures (n - RAW) % 3 == n % 3
  {
  }

  lemma WholeChunkDigits(x: seq<Byte>)
    requires |x| == RAW
    ensures AllDigits(Encode(x))
  {
    CoreAndPadding(x);
    assert Core(x) + "" == Core(x);
  }

  /** Digits only: stray lines and data lines without padding. */
  lemma {:induction false} JoinedDigits(items: seq<Item>)
    requires forall i :: 0 <= i < |items| ==> AllDigits(items[i].s)
    ensures AllDigits(Joined(Strings(items)))
  {
    if items != [] {
      JoinedDigits(items[1..]);
      assert Strings(items)[1..] == Strings(items[1..]);
      DigitsConcat(items[0].s, Joined(Strings(items[1..])));
    }
  }

  lemma DigitsConcat(a: string, b: string)
    requires AllDigits(a) && AllDigits(b)
    ensures AllDigits(a + b)
  {
  }

  /** No stray line stands before a line of the device. */
  predicate StraysLast(items: seq<Item>) {
    forall i, j :: 0 <= i < j < |items| && items[i].Stray? ==> items[j].Stray?
  }

  predicate AllStray(items: seq<Item>) { forall i :: 0 <= i < |items| ==> items[i].Stray? }

  lemma {:induction false} StraysOnly(items: seq<Item>)
    requires AllStray(items)
    ensures DataOf(items) == []
  {
    if items != [] { StraysOnly(items[1..]); }
  }

  lemma {:induction false} DataOnly(items: seq<Item>)
    requires forall i :: 0 <= i < |items| ==> items[i].Data?
    ensures DataOf(items) == Strings(items) && StrayLength(items) == 0
  {
    if items != [] {
      DataOnly(items[1..]);
      assert Strings(items) == [items[0].s] + Strings(items[1..]);
    }
  }

  /** Splits off the stray lines at the end. */
  lemma {:induction false} TrailingStrays(items: seq<Item>) returns (p: nat)
    ensures p <= |items| && AllStray(items[p..]) && (p > 0 ==> items[p - 1].Data?)
    decreases |items|
  {
    p := |items|;
    if items != [] && items[|items| - 1].Stray? {
      var pre := items[..|items| - 1];
      p := TrailingStrays(pre);
      assert items[p..] == pre[p..] + [items[|items| - 1]];
    }
  }

  lemma {:induction false} DataIndices(items: seq<Item>, i: nat)
    requires i < |items| && items[i].Data?
    ensures items[i].s in DataOf(items) && DataOf(items) != []
  {
    if i > 0 { DataIndices(items[1..], i - 1); }
  }

  lemma {:induction false} StrayCounts(items: seq<Item>, i: nat)
    requires i < |items| && items[i].Stray? && items[i].s != ""
    ensures StrayLength(items) > 0
  {
    if i > 0 { StrayCounts(items[1..], i - 1); }
  }

  lemma {:induction false} NoStrayLength(items: seq<Item>)
    requires StrayLength(items) == 0 && forall i :: 0 <= i < |items| && items[i].Stray? ==> items[i].s != ""
    ensures forall i :: 0 <= i < |items| ==> items[i].Data?
  {
    if items != [] { NoStrayLength(items[1..]); }
  }

  /** What is left of a capture without its trailing stray lines: all digits but the padding of the
      dump, as many as the dump has and those of the stray lines among them. */
  lemma MixedDigits(items: seq<Item>, dump: seq<Byte>) returns (digits: string)
    requires Mixed(items, dump) && items != [] && items[|items| - 1].Data?
    ensures dump != [] && AllDigits(digits) && Joined(Strings(items)) == digits + Padding(|dump|)
    ensures |digits| == (|dump| + 2) / 3 * 4 - Pad(|dump|) + StrayLength(items)
  {
    var n := |items| - 1;
    var pre := items[..n];
    var last := LastLine(items, dump);
    digits := Joined(Strings(pre)) + Core(last);
    MixedJoined(items, dump, last);
    MixedTotal(items, dump);
    hide Mixed, Joined, Strings, Core, AllDigits, Pad;
  }

  /** The last line, and that nothing before it has padding. */
  lemma LastLine(items: seq<Item>, dump: seq<Byte>) returns (last: seq<Byte>)
    requires Mixed(items, dump) && items != [] && items[|items| - 1].Data?
    ensures dump != [] && |last| % 3 == |dump| % 3 && items[|items| - 1].s == Encode(last)
    ensures AllDigits(Joined(Strings(items[..|items| - 1])))
  {
    hide Encode, Joined, AllDigits, Strings;
    DataIndices(items, |items| - 1);
    NoChunks();
    last := ChunksEnd(dump);
    SplitLast(items, dump);
    hide Chunks;
    PreDigits(items[..|items| - 1], dump);
    JoinedDigits(items[..|items| - 1]);
  }

  lemma MixedJoined(items: seq<Item>, dump: seq<Byte>, last: seq<Byte>)
    requires items != [] && items[|items| - 1].Data? && items[|items| - 1].s == Encode(last) && |last| % 3 == |dump| % 3
    requires AllDigits(Joined(Strings(items[..|items| - 1])))
    ensures var d := Joined(Strings(items[..|items| - 1])) + Core(last);
            AllDigits(d) && Joined(Strings(items)) == d + Padding(|dump|)
  {
    hide Encode, Joined, AllDigits, Strings, Core, Padding;
    var n := |items| - 1;
    var pre := items[..n];
    assert items == pre + [items[n]];
    CoreAndPadding(last);
    SamePadding(|last|, |dump|);
    TextOfConcat(pre, [items[n]]);
    OneItem(items[n]);
    DigitsConcat(Joined(Strings(pre)), Core(last));
    Reassociate(Joined(Strings(pre)), Core(last), Padding(|dump|));
    hide DataOf, StrayLength;
  }

  lemma MixedTotal(items: seq<Item>, dump: seq<Byte>)
    requires Mixed(items, dump)
    ensures |Joined(Strings(items))| == (|dump| + 2) / 3 * 4 + StrayLength(items)
  {
    hide Encode, Joined, AllDigits, Strings, Chunks;
    MixedLength(items);
    ChunksJoin(dump);
    EncodeLength(dump);
  }

  lemma OneItem(i: Item)
    requires i.Data?
    ensures DataOf([i]) == [i.s] && StrayLength([i]) == 0 && Joined(Strings([i])) == i.s
  {
    assert DataOf([i][1..]) == [];
    assert Strings([i]) == [i.s];
    JoinedOne(i.s);
  }

  lemma SamePadding(m: nat, n: nat)
    requires m % 3 == n % 3
    ensures Pad(m) == Pad(n) && Padding(m) == Padding(n)
  {
  }

  lemma SplitLast(items: seq<Item>, dump: seq<Byte>)
    requires Mixed(items, dump) && items != [] && items[|items| - 1].Data?
    ensures var n, k := |items| - 1, |Chunks(dump)| - 1;
            k >= 0 && items[n].s == Chunks(dump)[k] && DataOf(items[..n]) == Chunks(dump)[..k]
  {
    var n := |items| - 1;
    assert items == items[..n] + [items[n]];
    DataOfConcat(items[..n], [items[n]]);
    OneItem(items[n]);
  }

  lemma PreDigits(pre: seq<Item>, dump: seq<Byte>)
    requires dump != [] && Chunks(dump) != [] && DataOf(pre) == Chunks(dump)[..|Chunks(dump)| - 1]
    requires forall i :: 0 <= i < |Chunks(dump)| - 1 ==> AllDigits(Chunks(dump)[i])
    requires forall i :: 0 <= i < |pre| && pre[i].Stray? ==> AllDigits(pre[i].s)
    ensures forall i :: 0 <= i < |pre| ==> AllDigits(pre[i].s)
  {
    hide AllDigits, Chunks;
    forall i | 0 <= i < |pre| && pre[i].Data? ensures AllDigits(pre[i].s) { DataIndices(pre, i); }
  }

  /** Exactly when a dump survives stray lines of base 64 digits, any number of them, of any length, at any
      place: none stands before the last line of the device, and there is none after it either unless
      that line ends in padding. Otherwise the decoder raises an error, or returns more bytes than were
      announced, which the host warns about. */
  lemma StrayLinesExactly(items: seq<Item>, dump: seq<Byte>)
    requires Mixed(items, dump)
    ensures var d := Decode(Joined(Strings(items)));
            && (d == Some(dump) <==> StraysLast(items) && (|dump| % 3 != 0 || StrayLength(items) == 0))
            && (d == Some(dump) || d == None || |d.value| > |dump|)
  {
    hide Decode, Joined, AllDigits, Strings, DataOf, Chunks;
    var p := TrailingStrays(items);
    var a, b := items[..p], items[p..];
    assert items == a + b;
    DataOfConcat(a, b);
    StrayLengthConcat(a, b);
    TextOfConcat(a, b);
    StraysOnly(b);
    assert DataOf(a) + [] == DataOf(a);
    SplitExactly(a, b, dump);
    if StrayLength(a) > 0 { NotLast(items, p); } else { ThenLast(items, p); }
  }

  /** `a` ends with a line of the device, `b` is stray. */
  lemma SplitExactly(a: seq<Item>, b: seq<Item>, dump: seq<Byte>)
    requires Mixed(a, dump) && (a != [] ==> a[|a| - 1].Data?)
    requires AllStray(b) && forall i :: 0 <= i < |b| ==> b[i].s != "" && AllDigits(b[i].s)
    ensures var d := Decode(Joined(Strings(a)) + Joined(Strings(b)));
            if StrayLength(a) == 0 && (|dump| % 3 != 0 || StrayLength(b) == 0) then d == Some(dump)
            else d == None || |d.value| > |dump|
  {
    hide Decode, Joined, AllDigits, Strings;
    JoinedDigits(b);
    StrayTotal(b);
    var r := Joined(Strings(b));
    if StrayLength(a) == 0 {
      NoStrayLength(a);
      DataOnly(a);
      ChunksJoin(dump);
      AfterDump(dump, r);
    } else { StrayBefore(a, dump, r); }
    hide Chunks, Encode;
  }

  lemma StrayTotal(b: seq<Item>)
    requires AllStray(b)
    ensures |Joined(Strings(b))| == StrayLength(b)
  {
    StraysOnly(b);
    MixedLength(b);
    JoinedNothing();
  }

  lemma JoinedNothing()
    ensures Joined([]) == ""
  {
  }

  /** Digits after a whole dump. */
  lemma AfterDump(dump: seq<Byte>, r: string)
    requires AllDigits(r)
    ensures var d := Decode(Encode(dump) + r);
            if |dump| % 3 != 0 || r == "" then d == Some(dump) else d == None || |d.value| > |dump|
  {
    hide Decode, Encode;
    if |dump| % 3 != 0 || r == "" { DecodeEncode(dump, r); } else {
      CoreAndPadding(dump);
      EncodeLength(dump);
      assert Core(dump) + "" == Core(dump);
      DigitsConcat(Encode(dump), r);
      MoreDigitsMoreBytes(|dump|, Encode(dump) + r, "");
      assert Encode(dump) + r + "" == Encode(dump) + r;
    }
  }

  /** A stray line before the last line of the device. */
  lemma StrayBefore(a: seq<Item>, dump: seq<Byte>, r: string)
    requires Mixed(a, dump) && StrayLength(a) > 0 && a != [] && a[|a| - 1].Data?
    ensures var d := Decode(Joined(Strings(a)) + r); d == None || |d.value| > |dump|
  {
    hide Decode, Encode, Joined, AllDigits, Pad;
    var digits := MixedDigits(a, dump);
    MoreDigitsMoreBytes(|dump|, digits, Padding(|dump|) + r);
    assert digits + Padding(|dump|) + r == digits + (Padding(|dump|) + r);
  }

  lemma NotLast(items: seq<Item>, p: nat)
    requires 0 < p <= |items| && items[p - 1].Data? && StrayLength(items[..p]) > 0
    ensures !StraysLast(items)
  {
    if StraysLast(items) { DataBefore(items, p); }
  }

  lemma DataBefore(items: seq<Item>, p: nat)
    requires 0 < p <= |items| && items[p - 1].Data? && StraysLast(items)
    ensures StrayLength(items[..p]) == 0
  {
    assert forall i :: 0 <= i < p ==> items[i].Data?;
    DataOnly(items[..p]);
  }

  lemma ThenLast(items: seq<Item>, p: nat)
    requires p <= |items| && AllStray(items[p..]) && StrayLength(items[..p]) == 0
    requires forall i :: 0 <= i < |items| && items[i].Stray? ==> items[i].s != ""
    ensures StraysLast(items)
  {
    NoStrayLength(items[..p]);
    assert forall i :: 0 <= i < p ==> items[i] == items[..p][i];
    assert forall i :: p <= i < |items| ==> items[i] == items[p..][i - p];
  }

  lemma MixedIsBase64(items: seq<Item>, dump: seq<Byte>)
    requires Mixed(items, dump)
    ensures AllBase64(Strings(items))
  {
    ChunksAreBase64(dump);
    forall i | 0 <= i < |items| ensures IsBase64Line(items[i].s) {
      if items[i].Data? { DataIndices(items, i); }
    }
  }

  /** The same on what the host receives, noise included. */
  lemma StrayReplyExactly(dump: seq<Byte>, items: seq<Item>, before: seq<Line>, rx: seq<Line>, after: seq<Line>)
    requires Mixed(items, dump) && Noisy(Reply(dump, Strings(items)), rx)
    requires forall i :: 0 <= i < |after| ==> !after[i].Begin?
    ensures var c := CaptureAll(IDLE, before + rx + after);
            var d := Decode(Joined(c.b64));
            && c.size == Some(|dump|)
            && (d == Some(dump) <==> StraysLast(items) && (|dump| % 3 != 0 || StrayLength(items) == 0))
            && (d == Some(dump) || d == None || |d.value| > |dump|)
  {
    hide Noisy, Reply, Mixed, AllBase64, CaptureAll, Decode, Joined, Strings, StraysLast, StrayLength;
    MixedIsBase64(items, dump);
    CaptureNoisy(dump, Strings(items), before, rx, after);
    StrayLinesExactly(items, dump);
  }
}
