/** Base 64 encoding of src/cli.cpp against the bit strings of section 4 of RFC 4648. */
module Base64 {

  type Byte = b: nat | b < 256

  const UPPER: string := "ABCDEFGHIJKLMNOPQRSTUVWXYZ"
  const LOWER: string := "abcdefghijklmnopqrstuvwxyz"

  /** The alphabet. */
  const T: string := UPPER + LOWER + "0123456789" + "+/"

  /** Sextet k of a 24-bit group, from the left, as a character. */
  function Char(v: nat, k: nat): char
    requires k < 4
  {
    T[Sextet(v, k)]
  }

  function Sextet(v: nat, k: nat): (r: nat)
    requires k < 4
    ensures r < 64
  {
    match k
    case 0 => v / 262144 % 64
    case 1 => v / 4096 % 64
    case 2 => v / 64 % 64
    case 3 => v % 64
  }

  function Quad(v: nat): string { [Char(v, 0), Char(v, 1), Char(v, 2), Char(v, 3)] }

  /** Number of '=' signs for n bytes. */
  function Pad(n: nat): nat { (3 - n % 3) % 3 }

  function Word(a: Byte, b: Byte, c: Byte): nat { a * 65536 + b * 256 + c }

  function Encode(x: seq<Byte>): string {
    if |x| >= 3 then Quad(Word(x[0], x[1], x[2])) + Encode(x[3..])
    else if |x| == 2 then Quad(Word(x[0], x[1], 0))[..3] + "="
    else if |x| == 1 then Quad(Word(x[0], 0, 0))[..2] + "=="
    else ""
  }

  /** Fills `out` and returns the number of characters written. */
  method B64enc(x: array<Byte>, n: nat, out: array<char>) returns (o: nat)
    requires n <= x.Length && (n + 2) / 3 * 4 <= out.Length
    modifies out
    ensures o == |Encode(x[..n])| == (n + 2) / 3 * 4
    ensures out[..o] == Encode(x[..n])
    ensures forall j :: o <= j < out.Length ==> out[j] == old(out[j])
  {
    hide Encode, Char, Word, Quad;
    o := 0;
    var i := 0;
    ghost var g := 0;
    EncodeLength(x[..n]);
    while i + 3 <= n
      invariant i <= n && i == 3 * g && o == 4 * g
      invariant Encode(x[..n]) == out[..o] + Encode(x[i..n])
      invariant forall j :: o <= j < out.Length ==> out[j] == old(out[j])
    {
      EncodeGroup(x[i..n]);
      assert x[i..n][3..] == x[i + 3..n];
      ghost var done := out[..o];
      o := WriteGroup(Word(x[i], x[i + 1], x[i + 2]), out, o);
      Reassociate(done, Quad(Word(x[i], x[i + 1], x[i + 2])), Encode(x[i + 3..n]));
      i := i + 3;
      g := g + 1;
    }
    if i < n {
      EncodeRest(x[i..n]);
      o := WriteRest(x[i], i + 1 < n, if i + 1 < n then x[i + 1] else 0, out, o);
    } else { EncodeNothing(x[i..n]); }
  }

  method WriteGroup(v: nat, out: array<char>, o: nat) returns (next: nat)
    requires o + 4 <= out.Length
    modifies out
    ensures next == o + 4 && out[..next] == old(out[..o]) + Quad(v)
    ensures forall j :: next <= j < out.Length ==> out[j] == old(out[j])
  {
    hide Char;
    out[o], out[o + 1], out[o + 2], out[o + 3] := Char(v, 0), Char(v, 1), Char(v, 2), Char(v, 3);
    next := o + 4;
  }

  /** The last one or two bytes, padded. */
  method WriteRest(a: Byte, two: bool, b: Byte, out: array<char>, o: nat) returns (next: nat)
    requires o + 4 <= out.Length
    modifies out
    ensures var v := Word(a, if two then b else 0, 0);
            next == o + 4
            && out[..next] == old(out[..o]) + [Char(v, 0), Char(v, 1), if two then Char(v, 2) else '=', '=']
    ensures forall j :: next <= j < out.Length ==> out[j] == old(out[j])
  {
    hide Char, Word;
    var v := Word(a, 0, 0);
    if two { v := Word(a, b, 0); }
    out[o] := Char(v, 0);
    out[o + 1] := Char(v, 1);
    out[o + 2] := if two then Char(v, 2) else '=';
    out[o + 3] := '=';
    next := o + 4;
  }

  lemma Reassociate(a: string, b: string, c: string)
    ensures a + (b + c) == a + b + c
  {
  }

  lemma QuadIs(v: nat)
    ensures Quad(v) == [Char(v, 0), Char(v, 1), Char(v, 2), Char(v, 3)]
  {
  }

  lemma EncodeNothing(x: seq<Byte>)
    requires x == []
    ensures Encode(x) == ""
  {
  }

  lemma EncodeRest(x: seq<Byte>)
    requires |x| == 1 || |x| == 2
    ensures var v := Word(x[0], if |x| == 2 then x[1] else 0, 0);
            Encode(x) == [Char(v, 0), Char(v, 1), if |x| == 2 then Char(v, 2) else '=', '=']
  {
    hide Char, Word;
  }

  lemma EncodeGroup(x: seq<Byte>)
    requires |x| >= 3
    ensures Encode(x) == Quad(Word(x[0], x[1], x[2])) + Encode(x[3..])
  {
  }

  lemma {:induction false} EncodeLength(x: seq<Byte>)
    ensures |Encode(x)| == (|x| + 2) / 3 * 4
  {
    hide Char;
    if |x| >= 3 { EncodeLength(x[3..]); }
  }

  /** Encoding a multiple of three bytes at a time loses nothing: the encodings concatenate. */
  lemma {:induction false} EncodeConcat(a: seq<Byte>, b: seq<Byte>)
    requires |a| % 3 == 0
    ensures Encode(a + b) == Encode(a) + Encode(b)
  {
    hide Encode, Quad, Word;
    if |a| == 0 {
      EncodeNothing(a);
      assert a + b == b;
      assert "" + Encode(b) == Encode(b);
    } else {
      EncodeConcat(a[3..], b);
      assert (a + b)[3..] == a[3..] + b;
      EncodeGroup(a);
      EncodeGroup(a + b);
      Reassociate(Quad(Word(a[0], a[1], a[2])), Encode(a[3..]), Encode(b));
    }
  }

  /** '=' occurs exactly in the last (-n mod 3) places. */
  lemma {:induction false} PaddingAtEnd(x: seq<Byte>, j: nat)
    requires j < |Encode(x)|
    ensures Encode(x)[j] == '=' <==> j >= |Encode(x)| - Pad(|x|)
  {
    hide Char;
    if |x| >= 3 {
      EncodeGroup(x);
      QuadIs(Word(x[0], x[1], x[2]));
      hide Encode, Quad, Word;
      if j >= 4 { PaddingAtEnd(x[3..], j - 4); } else {
        NotPad(Word(x[0], x[1], x[2]), j);
        PadFits(x[3..]);
      }
      PadRepeats(|x[3..]|);
      hide Pad;
    } else { RestPadding(x, j); }
  }

  lemma PadRepeats(n: nat)
    ensures Pad(n + 3) == Pad(n)
  {
  }

  lemma PadFits(x: seq<Byte>)
    ensures Pad(|x|) <= |Encode(x)|
  {
    EncodeLength(x);
  }

  lemma RestPadding(x: seq<Byte>, j: nat)
    requires (|x| == 1 || |x| == 2) && j < |Encode(x)|
    ensures Encode(x)[j] == '=' <==> j >= |Encode(x)| - Pad(|x|)
  {
    hide Encode, Char, Word;
    EncodeRest(x);
    var v := Word(x[0], if |x| == 2 then x[1] else 0, 0);
    NotPad(v, 0);
    NotPad(v, 1);
    NotPad(v, 2);
    assert Pad(|x|) == 3 - |x|;
    assert j == 0 || j == 1 || j == 2 || j == 3;
  }

  lemma NotPad(v: nat, k: nat)
    requires k < 4
    ensures Char(v, k) != '='
  {
    DigitOfTable(Sextet(v, k));
  }

  // ---- bit strings ---------------------------------------------------------------------------

  /** The low w bits of v, most significant first. */
  function BitsOf(v: nat, w: nat): (r: seq<bool>)
    ensures |r| == w
  {
    if w == 0 then [] else BitsOf(v / 2, w - 1) + [v % 2 == 1]
  }

  function Bits(x: seq<Byte>): (r: seq<bool>)
    ensures |r| == 8 * |x|
  {
    if x == [] then [] else BitsOf(x[0], 8) + Bits(x[1..])
  }

  function Shr(v: nat, k: nat): nat { if k == 0 then v else Shr(v / 2, k - 1) }

  lemma {:induction false} BitsSplit(v: nat, w: nat, k: nat)
    ensures BitsOf(v, w + k) == BitsOf(Shr(v, k), w) + BitsOf(v, k)
    decreases k
  {
    hide BitsOf;
    BitsSnoc(v, w + k);
    BitsSnoc(v, k);
    if k > 0 { BitsSplit(v / 2, w, k - 1); }
  }

  lemma BitsSnoc(v: nat, w: nat)
    ensures BitsOf(v, w) == if w == 0 then [] else BitsOf(v / 2, w - 1) + [v % 2 == 1]
  {
  }

  lemma Shr6(v: nat)
    ensures Shr(v, 6) == v / 64
  {
    assert Shr(v, 6) == Shr(v / 2, 5);
    assert Shr(v / 2, 5) == Shr(v / 4, 4);
    assert Shr(v / 4, 4) == Shr(v / 8, 3);
    assert Shr(v / 8, 3) == Shr(v / 16, 2);
    assert Shr(v / 16, 2) == Shr(v / 32, 1);
    assert Shr(v / 32, 1) == v / 64;
  }

  lemma Shr8(v: nat)
    ensures Shr(v, 8) == v / 256
  {
    assert Shr(v, 8) == Shr(v / 2, 7);
    assert Shr(v / 2, 7) == Shr(v / 4, 6);
    Shr6(v / 4);
  }

  lemma {:induction false} SameLowBits(v: nat, u: nat, q: nat, w: nat, m: nat)
    requires m == Pow2(w) && v == q * m + u
    ensures BitsOf(v, w) == BitsOf(u, w)
  {
    if w > 0 {
      var h := Pow2(w - 1);
      assert q * m == 2 * (q * h);
      SameLowBits(v / 2, u / 2, q, w - 1, h);
    }
  }

  function Pow2(w: nat): nat { if w == 0 then 1 else 2 * Pow2(w - 1) }

  lemma Mask6(v: nat)
    ensures BitsOf(v % 64, 6) == BitsOf(v, 6)
  {
    assert Pow2(6) == 64;
    SameLowBits(v, v % 64, v / 64, 6, 64);
  }

  lemma Mask8(v: nat, b: Byte, q: nat)
    requires v == q * 256 + b
    ensures BitsOf(v, 8) == BitsOf(b, 8)
  {
    assert Pow2(8) == 256;
    SameLowBits(v, b, q, 8, 256);
  }

  function SextetBits(v: nat): seq<bool> {
    BitsOf(Sextet(v, 0), 6) + BitsOf(Sextet(v, 1), 6) + BitsOf(Sextet(v, 2), 6) + BitsOf(Sextet(v, 3), 6)
  }

  /** The four sextets of a group have the bits of its three bytes. */
  lemma GroupBits(a: Byte, b: Byte, c: Byte)
    ensures var v := Word(a, b, c);
            SextetBits(v)
            == BitsOf(a, 8) + BitsOf(b, 8) + BitsOf(c, 8)
  {
    var v := Word(a, b, c);
    SextetsOfWord(v);
    BytesOfWord(a, b, c);
  }

  lemma SextetsOfWord(v: nat)
    ensures SextetBits(v)
            == BitsOf(v, 24)
  {
    hide BitsOf, Shr;
    BitsSplit(v, 18, 6); Shr6(v);
    BitsSplit(v / 64, 12, 6); Shr6(v / 64);
    BitsSplit(v / 64 / 64, 6, 6); Shr6(v / 64 / 64);
    assert v / 64 / 64 == v / 4096 && v / 64 / 64 / 64 == v / 262144;
    Mask6(v); Mask6(v / 64); Mask6(v / 4096); Mask6(v / 262144);
  }

  lemma BytesOfWord(a: Byte, b: Byte, c: Byte)
    ensures BitsOf(Word(a, b, c), 24) == BitsOf(a, 8) + BitsOf(b, 8) + BitsOf(c, 8)
  {
    var v := Word(a, b, c);
    hide BitsOf, Shr;
    BitsSplit(v, 16, 8); Shr8(v);
    var u := a * 256 + b;
    assert v / 256 == u;
    BitsSplit(u, 8, 8); Shr8(u);
    assert u / 256 == a;
    Mask8(v, c, u);
    Mask8(u, b, a);
  }

  // ---- decoding ------------------------------------------------------------------------------

  /** Value of a base 64 digit, from its place in the alphabet. */
  function Digit(c: char): Option<nat> {
    if 'A' <= c <= 'Z' then Some((c - 'A') as nat)
    else if 'a' <= c <= 'z' then Some((c - 'a') as nat + 26)
    else if '0' <= c <= '9' then Some((c - '0') as nat + 52)
    else if c == '+' then Some(62) else if c == '/' then Some(63) else None
  }

  datatype Option<T> = None | Some(value: T)

  lemma DigitOfTable(v: nat)
    requires v < 64
    ensures Digit(T[v]) == Some(v)
  {
    if v < 26 { Upper(v); } else if v < 52 { Lower(v - 26); } else if v < 62 { Decimal(v - 52); } else { Signs(v); }
    hide T;
  }

  lemma Upper(v: nat)
    requires v < 26
    ensures T[v] == 'A' + v as char
  {
    assert T[v] == UPPER[v];
  }

  lemma Lower(v: nat)
    requires v < 26
    ensures T[v + 26] == 'a' + v as char
  {
    assert T[v + 26] == LOWER[v];
  }

  lemma Decimal(v: nat)
    requires v < 10
    ensures T[v + 52] == '0' + v as char
  {
    assert T[v + 52] == "0123456789"[v];
  }

  lemma Signs(v: nat)
    requires 62 <= v < 64
    ensures T[v] == if v == 62 then '+' else '/'
  {
    assert T[v] == "+/"[v - 62];
  }

  /** Bits of the digits up to the first character that is none. */
  function DigitBits(s: string): seq<bool> {
    if s == "" || Digit(s[0]).None? then [] else BitsOf(Digit(s[0]).value, 6) + DigitBits(s[1..])
  }

  function ValueOf(bits: seq<bool>): nat {
    if bits == [] then 0 else 2 * ValueOf(bits[..|bits| - 1]) + if bits[|bits| - 1] then 1 else 0
  }

  lemma {:induction false} ValueBound(bits: seq<bool>)
    ensures ValueOf(bits) < Pow2(|bits|)
  {
    if bits != [] { ValueBound(bits[..|bits| - 1]); }
  }

  lemma {:induction false} ValueOfBits(v: nat, w: nat)
    requires v < Pow2(w)
    ensures ValueOf(BitsOf(v, w)) == v
  {
    if w > 0 {
      ValueOfBits(v / 2, w - 1);
      assert BitsOf(v, w)[..w - 1] == BitsOf(v / 2, w - 1);
    }
  }

  /** Whole bytes of a bit string; fewer than eight left over are dropped. */
  function BytesOf(bits: seq<bool>): seq<Byte> {
    if |bits| < 8 then []
    else
      ValueBound(bits[..8]);
      assert Pow2(8) == 256;
      [ValueOf(bits[..8])] + BytesOf(bits[8..])
  }

  function Zeros(k: nat): seq<bool> { seq(k, _ => false) }

  lemma {:induction false} ZeroBits(w: nat)
    ensures BitsOf(0, w) == Zeros(w)
  {
    if w > 0 { ZeroBits(w - 1); }
  }

  lemma DigitBitsCons(v: nat, k: nat, s: string)
    requires k < 4
    ensures DigitBits([Char(v, k)] + s) == BitsOf(Sextet(v, k), 6) + DigitBits(s)
  {
    DigitOfTable(Sextet(v, k));
    assert ([Char(v, k)] + s)[1..] == s;
    hide BitsOf, Digit, T, Sextet;
  }

  lemma QuadBits(v: nat, s: string)
    ensures DigitBits(Quad(v) + s) == SextetBits(v) + DigitBits(s)
  {
    hide DigitBits, BitsOf, Sextet, Char;
    DigitBitsCons(v, 3, s);
    DigitBitsCons(v, 2, [Char(v, 3)] + s);
    DigitBitsCons(v, 1, [Char(v, 2)] + ([Char(v, 3)] + s));
    DigitBitsCons(v, 0, [Char(v, 1)] + ([Char(v, 2)] + ([Char(v, 3)] + s)));
    assert Quad(v) + s == [Char(v, 0)] + ([Char(v, 1)] + ([Char(v, 2)] + ([Char(v, 3)] + s)));
  }

  /** The encoding is the input's bit string cut into sextets, the last one filled with zeros: the
      definition of the standard. */
  lemma {:induction false} EncodeIsBitString(x: seq<Byte>)
    ensures DigitBits(Encode(x)) == Bits(x) + Zeros(2 * Pad(|x|))
  {
    hide BitsOf, DigitBits, Encode, Bits, Pad;
    if |x| >= 3 {
      EncodeIsBitString(x[3..]);
      GroupFirst(x);
      BitsOfThree(x);
      PadRepeats(|x[3..]|);
      AppendTail(BitsOf(x[0], 8) + BitsOf(x[1], 8) + BitsOf(x[2], 8), Bits(x[3..]), Zeros(2 * Pad(|x|)));
    } else { RestIsBitString(x); }
  }

  lemma AppendTail(s: seq<bool>, t: seq<bool>, z: seq<bool>)
    ensures s + (t + z) == (s + t) + z
  {
  }

  lemma RestIsBitString(x: seq<Byte>)
    requires |x| < 3
    ensures DigitBits(Encode(x)) == Bits(x) + Zeros(2 * Pad(|x|))
  {
    hide BitsOf, DigitBits, Encode, Bits, Zeros, Pad;
    PadOfRest();
    if |x| == 2 { TwoLeft(x); } else if |x| == 1 { OneLeft(x); } else { NothingLeft(x); }
  }

  lemma PadOfRest()
    ensures Pad(0) == 0 && Pad(1) == 2 && Pad(2) == 1
  {
  }

  lemma NothingLeft(x: seq<Byte>)
    requires x == []
    ensures DigitBits(Encode(x)) == Bits(x) + Zeros(0)
  {
    assert Encode(x) == "" && DigitBits("") == [];
  }

  lemma GroupFirst(x: seq<Byte>)
    requires |x| >= 3
    ensures DigitBits(Encode(x)) == BitsOf(x[0], 8) + BitsOf(x[1], 8) + BitsOf(x[2], 8) + DigitBits(Encode(x[3..]))
  {
    EncodeGroup(x);
    hide BitsOf, DigitBits, Quad, SextetBits, Encode;
    QuadBits(Word(x[0], x[1], x[2]), Encode(x[3..]));
    GroupBits(x[0], x[1], x[2]);
  }

  lemma BitsOfThree(x: seq<Byte>)
    requires |x| >= 3
    ensures Bits(x) == BitsOf(x[0], 8) + BitsOf(x[1], 8) + BitsOf(x[2], 8) + Bits(x[3..])
  {
    hide BitsOf, Bits;
    var y, z := x[1..], x[2..];
    assert y[1..] == z && z[1..] == x[3..] && y[0] == x[1] && z[0] == x[2];
    BitsCons(x);
    BitsCons(y);
    BitsCons(z);
    Regroup(BitsOf(x[0], 8), BitsOf(x[1], 8), BitsOf(x[2], 8), Bits(x[3..]));
  }

  lemma Regroup(a: seq<bool>, b: seq<bool>, c: seq<bool>, d: seq<bool>)
    ensures a + (b + (c + d)) == a + b + c + d
  {
  }

  lemma BitsCons(x: seq<Byte>)
    requires x != []
    ensures Bits(x) == BitsOf(x[0], 8) + Bits(x[1..])
  {
  }

  lemma TwoLeft(x: seq<Byte>)
    requires |x| == 2
    ensures DigitBits(Encode(x)) == Bits(x) + Zeros(2)
  {
    var v := Word(x[0], x[1], 0);
    EncodeRest(x);
    BitsOfTwo(x);
    ThreeDigits(v);
    GroupBits(x[0], x[1], 0);
    ZeroBits(8);
    ZeroSextets(x[0], x[1]);
    ZeroBits(6);
    hide BitsOf, Sextet, Encode, DigitBits, Word, Char;
    CutTail(BitsOf(Sextet(v, 0), 6) + BitsOf(Sextet(v, 1), 6) + BitsOf(Sextet(v, 2), 6), Bits(x), 6, 8);
  }

  lemma ZeroSextets(a: Byte, b: Byte)
    ensures Sextet(Word(a, b, 0), 3) == 0 && (b == 0 ==> Sextet(Word(a, b, 0), 2) == 0)
  {
    var v := Word(a, b, 0);
    assert v == 64 * (a * 1024 + b * 4);
    if b == 0 { assert v == 4096 * (a * 16); }
  }

  lemma ThreeDigits(v: nat)
    ensures DigitBits([Char(v, 0), Char(v, 1), Char(v, 2), '='])
            == BitsOf(Sextet(v, 0), 6) + BitsOf(Sextet(v, 1), 6) + BitsOf(Sextet(v, 2), 6)
  {
    assert DigitBits("=") == [];
    hide BitsOf, Sextet, DigitBits, Char;
    DigitBitsCons(v, 2, "=");
    DigitBitsCons(v, 1, [Char(v, 2)] + "=");
    DigitBitsCons(v, 0, [Char(v, 1)] + ([Char(v, 2)] + "="));
    assert [Char(v, 0), Char(v, 1), Char(v, 2), '='] == [Char(v, 0)] + ([Char(v, 1)] + ([Char(v, 2)] + "="));
  }

  lemma TwoDigits(v: nat)
    ensures DigitBits([Char(v, 0), Char(v, 1), '=', '=']) == BitsOf(Sextet(v, 0), 6) + BitsOf(Sextet(v, 1), 6)
  {
    assert DigitBits("==") == [];
    hide BitsOf, Sextet, DigitBits, Char;
    DigitBitsCons(v, 1, "==");
    DigitBitsCons(v, 0, [Char(v, 1)] + "==");
    assert [Char(v, 0), Char(v, 1), '=', '='] == [Char(v, 0)] + ([Char(v, 1)] + "==");
  }

  lemma BitsOfTwo(x: seq<Byte>)
    requires |x| == 2
    ensures Bits(x) == BitsOf(x[0], 8) + BitsOf(x[1], 8)
  {
    hide BitsOf;
    BitsCons(x);
    BitsCons(x[1..]);
    assert Bits(x[1..][1..]) == [];
  }

  lemma CutTail(s: seq<bool>, t: seq<bool>, k: nat, l: nat)
    requires s + Zeros(k) == t + Zeros(l) && k <= l
    ensures s == t + Zeros(l - k)
  {
    assert s == (s + Zeros(k))[..|s|];
  }

  lemma OneLeft(x: seq<Byte>)
    requires |x| == 1
    ensures DigitBits(Encode(x)) == Bits(x) + Zeros(4)
  {
    var v := Word(x[0], 0, 0);
    EncodeRest(x);
    assert Bits(x) == BitsOf(x[0], 8) by { assert Bits(x[1..]) == []; }
    TwoDigits(v);
    GroupBits(x[0], 0, 0);
    ZeroBits(8);
    ZeroSextets(x[0], 0);
    ZeroBits(6);
    hide BitsOf, Sextet, Encode, DigitBits, Word, Char;
    var p := BitsOf(Sextet(v, 0), 6) + BitsOf(Sextet(v, 1), 6);
    ZerosJoin(p, 6, 6);
    ZerosJoin(Bits(x), 8, 8);
    CutTail(p, Bits(x), 12, 16);
  }

  lemma ZerosJoin(p: seq<bool>, k: nat, l: nat)
    ensures p + Zeros(k) + Zeros(l) == p + Zeros(k + l)
  {
  }

  lemma {:induction false} BytesOfBits(x: seq<Byte>, tail: seq<bool>)
    requires |tail| < 8
    ensures BytesOf(Bits(x) + tail) == x
  {
    if x == [] { assert Bits(x) + tail == tail; } else {
      var all := Bits(x) + tail;
      assert all[..8] == BitsOf(x[0], 8);
      assert all[8..] == Bits(x[1..]) + tail;
      assert Pow2(8) == 256;
      ValueOfBits(x[0], 8);
      BytesOfBits(x[1..], tail);
    }
  }

  /** The bit string of the encoding holds the exact bytes. */
  lemma BytesOfEncode(x: seq<Byte>)
    ensures BytesOf(DigitBits(Encode(x))) == x
  {
    EncodeIsBitString(x);
    BytesOfBits(x, Zeros(2 * Pad(|x|)));
  }

  // ---- the host's decoder --------------------------------------------------------------------

  /** Python's base64.b64decode as it scans: `q` digits of the current quad and `pads` padding signs
      after them have been read. Characters outside the alphabet are skipped. Padding that completes a
      quad ends the scan, other padding is ignored, and a text that ends inside a quad is an error. */
  function Scan(s: string, q: nat, pads: nat): Option<seq<bool>> {
    if s == "" then (if q == 0 then Some([]) else None)
    else if s[0] == '=' then
      if q >= 2 && q + pads + 1 >= 4 then Some([]) else Scan(s[1..], q, if q >= 2 then pads + 1 else pads)
    else match Digit(s[0])
      case None => Scan(s[1..], q, pads)
      case Some(v) => Prefixed(BitsOf(v, 6), Scan(s[1..], (q + 1) % 4, 0))
  }

  function Prefixed(bits: seq<bool>, o: Option<seq<bool>>): Option<seq<bool>> {
    match o
    case None => None
    case Some(rest) => Some(bits + rest)
  }

  /** None where it raises an error. */
  function Decode(s: string): Option<seq<Byte>> {
    match Scan(s, 0, 0)
    case None => None
    case Some(bits) => Some(BytesOf(bits))
  }

  predicate AllDigits(s: string) { forall i :: 0 <= i < |s| ==> Digit(s[i]).Some? }

  lemma PrefixedTwice(a: seq<bool>, b: seq<bool>, o: Option<seq<bool>>)
    ensures Prefixed(a, Prefixed(b, o)) == Prefixed(a + b, o)
  {
    if o.Some? { assert a + (b + o.value) == (a + b) + o.value; }
  }

  lemma NextQuad(q: nat, n: nat)
    requires q < 4 && n > 0
    ensures ((q + 1) % 4 + (n - 1)) % 4 == (q + n) % 4
  {
  }

  /** Digits are passed through and move the place in the quad. */
  lemma {:induction false} ScanDigits(a: string, b: string, q: nat, pads: nat)
    requires AllDigits(a) && q < 4
    ensures Scan(a + b, q, pads) == Prefixed(DigitBits(a), Scan(b, (q + |a|) % 4, if a == "" then pads else 0))
    ensures |DigitBits(a)| == 6 * |a|
  {
    hide BitsOf, Digit;
    if a == "" {
      assert a + b == b;
      ScanNothing(Scan(b, q, pads));
    } else {
      DigitIsNoPad(a[0]);
      assert (a + b)[0] == a[0] && (a + b)[1..] == a[1..] + b;
      ScanDigits(a[1..], b, (q + 1) % 4, 0);
      NextQuad(q, |a|);
      var v := Digit(a[0]).value;
      PrefixedTwice(BitsOf(v, 6), DigitBits(a[1..]), Scan(b, (q + |a|) % 4, 0));
    }
  }

  lemma ScanNothing(o: Option<seq<bool>>)
    ensures Prefixed([], o) == o
  {
    if o.Some? { assert [] + o.value == o.value; }
  }

  lemma DigitIsNoPad(c: char)
    requires Digit(c).Some?
    ensures c != '='
  {
  }

  /** A scan without error has read whole digits, and not one more than a multiple of four. */
  lemma {:induction false} ScanLength(s: string, q: nat, pads: nat)
    requires q < 4 && Scan(s, q, pads).Some?
    ensures var n := |Scan(s, q, pads).value|; n % 6 == 0 && (q + n / 6) % 4 != 1
  {
    hide BitsOf, Digit;
    if s != "" && !(s[0] == '=' && q >= 2 && q + pads + 1 >= 4) {
      if s[0] == '=' { ScanLength(s[1..], q, if q >= 2 then pads + 1 else pads); }
      else if Digit(s[0]) == None { ScanLength(s[1..], q, pads); }
      else {
        ScanLength(s[1..], (q + 1) % 4, 0);
        OneMoreDigit(q, |Scan(s[1..], (q + 1) % 4, 0).value|);
      }
    }
  }

  lemma OneMoreDigit(q: nat, n: nat)
    requires q < 4 && n % 6 == 0 && ((q + 1) % 4 + n / 6) % 4 != 1
    ensures (n + 6) % 6 == 0 && (q + (n + 6) / 6) % 4 != 1
  {
    assert (n + 6) / 6 == n / 6 + 1;
  }

  /** Padding in its place ends the scan, whatever follows. */
  lemma ScanPadding(q: nat, rest: string)
    requires q == 2 || q == 3
    ensures Scan((if q == 2 then "==" else "=") + rest, q, 0) == Some([])
  {
    if q == 2 {
      assert ("==" + rest)[1..] == "=" + rest;
      assert ("==" + rest)[0] == '=' && ("=" + rest)[0] == '=';
      assert Scan("=" + rest, 2, 1) == Some([]);
    } else { assert ("=" + rest)[0] == '='; }
  }

  /** The digits of an encoding, without its padding. */
  function Core(x: seq<Byte>): string
  {
    EncodeLength(x);
    assert Pad(|x|) <= |Encode(x)|;
    Encode(x)[..|Encode(x)| - Pad(|x|)]
  }

  function Padding(n: nat): (s: string)
    ensures |s| == Pad(n)
  {
    if n % 3 == 0 then "" else if n % 3 == 1 then "==" else "="
  }

  lemma CoreAndPadding(x: seq<Byte>)
    ensures Encode(x) == Core(x) + Padding(|x|) && AllDigits(Core(x))
    ensures |Core(x)| == (|x| + 2) / 3 * 4 - Pad(|x|) && DigitBits(Core(x)) == DigitBits(Encode(x))
  {
    hide Encode, Core, AllDigits;
    CoreIsPrefix(x);
    CoreDigits(x);
    RestIsPadding(x);
    PaddingStops(|x|);
    DigitBitsStop(Core(x), Padding(|x|));
  }

  lemma CoreIsPrefix(x: seq<Byte>)
    ensures |Core(x)| == (|x| + 2) / 3 * 4 - Pad(|x|) && |Encode(x)| == |Core(x)| + Pad(|x|)
    ensures Encode(x)[..|Core(x)|] == Core(x)
  {
    hide Encode;
    EncodeLength(x);
  }

  lemma CoreDigits(x: seq<Byte>)
    ensures AllDigits(Core(x))
  {
    hide Encode, Core, Digit;
    CoreIsPrefix(x);
    EncodeChars(x);
    forall j | 0 <= j < |Core(x)| ensures Digit(Core(x)[j]).Some? {
      PaddingAtEnd(x, j);
      assert Core(x)[j] == Encode(x)[j];
    }
  }

  lemma RestIsPadding(x: seq<Byte>)
    ensures Encode(x) == Core(x) + Padding(|x|)
  {
    hide Encode, Core, Pad, Padding;
    CoreIsPrefix(x);
    PaddingIs(|x|);
    var e, n := Encode(x), |Core(x)|;
    var tail := e[n..];
    forall j | 0 <= j < |tail| ensures tail[j] == '=' { PaddingAtEnd(x, n + j); }
    assert tail == Padding(|x|);
    assert e == e[..n] + tail;
  }

  lemma PaddingIs(n: nat)
    ensures |Padding(n)| == Pad(n) && forall j :: 0 <= j < Pad(n) ==> Padding(n)[j] == '='
  {
  }

  lemma PaddingStops(n: nat)
    ensures Padding(n) == "" || Digit(Padding(n)[0]).None?
  {
  }

  lemma {:induction false} DigitBitsStop(a: string, b: string)
    requires AllDigits(a) && (b == "" || Digit(b[0]).None?)
    ensures DigitBits(a + b) == DigitBits(a)
  {
    hide BitsOf, Digit;
    if a == "" { assert a + b == b; } else {
      assert (a + b)[1..] == a[1..] + b;
      DigitBitsStop(a[1..], b);
    }
  }

  predicate IsBase64Char(c: char) { Digit(c).Some? || c == '=' }

  lemma {:induction false} EncodeChars(x: seq<Byte>)
    ensures forall i :: 0 <= i < |Encode(x)| ==> IsBase64Char(Encode(x)[i])
  {
    hide Char;
    if |x| >= 3 {
      EncodeGroup(x);
      EncodeChars(x[3..]);
      QuadChars(Word(x[0], x[1], x[2]));
      hide Encode, Quad, IsBase64Char;
    } else if |x| > 0 {
      EncodeRest(x);
      QuadChars(Word(x[0], if |x| == 2 then x[1] else 0, 0));
    }
  }

  lemma QuadChars(v: nat)
    ensures forall k :: 0 <= k < 4 ==> IsBase64Char(Char(v, k))
  {
    forall k: nat | k < 4 ensures IsBase64Char(Char(v, k)) { DigitOfTable(Sextet(v, k)); }
  }

  /** Nothing is lost: decoding returns the exact bytes, and where there is padding, whatever follows
      it. */
  lemma DecodeEncode(x: seq<Byte>, rest: string)
    requires rest == "" || |x| % 3 != 0
    ensures Decode(Encode(x) + rest) == Some(x)
  {
    hide BytesOf, DigitBits, Encode, Core, Scan;
    CoreAndPadding(x);
    BytesOfEncode(x);
    var c, p := Core(x), Padding(|x|);
    assert Encode(x) + rest == c + (p + rest);
    ScanDigits(c, p + rest, 0, 0);
    PlaceOfPadding(|x|);
    ScanEnd(|x|, rest, c);
    assert DigitBits(c) + [] == DigitBits(c);
  }

  lemma PlaceOfPadding(n: nat)
    ensures ((n + 2) / 3 * 4 - Pad(n)) % 4 == (4 - Pad(n)) % 4 == if n % 3 == 0 then 0 else n % 3 + 1
  {
  }

  lemma ScanEnd(n: nat, rest: string, c: string)
    requires rest == "" || n % 3 != 0
    requires |c| % 4 == if n % 3 == 0 then 0 else n % 3 + 1
    ensures Scan(Padding(n) + rest, |c| % 4, 0) == Some([])
  {
    if n % 3 != 0 { ScanPadding(n % 3 + 1, rest); } else { assert Padding(n) + rest == ""; }
  }

  /** More digits than an encoding of n bytes has, before any padding, are an error or decode to more
      than n bytes. */
  lemma MoreDigitsMoreBytes(n: nat, a: string, rest: string)
    requires AllDigits(a) && |a| > (n + 2) / 3 * 4 - Pad(n)
    ensures Decode(a + rest).Some? ==> |Decode(a + rest).value| > n
  {
    hide DigitBits, BytesOf, Scan;
    ScanDigits(a, rest, 0, 0);
    if Scan(a + rest, 0, 0).Some? {
      ScanLength(a + rest, 0, 0);
      var bits := Scan(a + rest, 0, 0).value;
      BytesOfLength(bits);
      DigitCount(n, |bits|, |a|);
    }
  }

  lemma {:induction false} BytesOfLength(bits: seq<bool>)
    ensures |BytesOf(bits)| == |bits| / 8
    decreases |bits|
  {
    hide ValueOf;
    if |bits| >= 8 { BytesOfLength(bits[8..]); }
  }

  lemma DigitCount(n: nat, bits: nat, a: nat)
    requires bits % 6 == 0 && (bits / 6) % 4 != 1 && bits >= 6 * a && a > (n + 2) / 3 * 4 - Pad(n)
    ensures bits / 8 > n
  {
    DigitsOf(n);
    EnoughBits(n / 3, n % 3, bits / 6);
  }

  lemma DigitsOf(n: nat)
    ensures (n + 2) / 3 * 4 - Pad(n) == 4 * (n / 3) + if n % 3 == 0 then 0 else n % 3 + 1
  {
  }

  lemma EnoughBits(k: nat, r: nat, m: nat)
    requires r < 3 && m % 4 != 1 && m > 4 * k + if r == 0 then 0 else r + 1
    ensures 6 * m / 8 > 3 * k + r
  {
    assert m >= 4 * k + r + 2;
    assert 6 * m >= 8 * (3 * k + r + 1);
  }
}
