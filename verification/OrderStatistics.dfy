/** What a median is, apart from any way to compute one: how many samples are smaller and how many are
    larger. */
module OrderStatistics {

  /** Samples smaller than x, and larger ones. */
  function Below(s: seq<real>, x: real): nat {
    if s == [] then 0 else (if s[0] < x then 1 else 0) + Below(s[1..], x)
  }

  function Above(s: seq<real>, x: real): nat {
    if s == [] then 0 else (if s[0] > x then 1 else 0) + Above(s[1..], x)
  }

  /** x is a sample with at most k smaller and at most n - 1 - k larger ones: it could stand at place k of
      the sorted samples. */
  ghost predicate HasRank(s: seq<real>, k: nat, x: real) {
    x in s && Below(s, x) <= k && Above(s, x) + k < |s|
  }

  /** Of an odd number of samples the middle one, of an even number the mean of the two middle ones. */
  ghost predicate IsMedian(s: seq<real>, m: real) {
    if |s| % 2 == 1 then HasRank(s, |s| / 2, m) else exists x, y :: Middle(s, x, y) && m == (x + y) / 2.0
  }

  ghost predicate Middle(s: seq<real>, x: real, y: real) {
    |s| >= 2 && HasRank(s, |s| / 2 - 1, x) && HasRank(s, |s| / 2, y)
  }

  // ---- counting ------------------------------------------------------------------------------

  lemma {:induction false} CountsConcat(s: seq<real>, t: seq<real>, x: real)
    ensures Below(s + t, x) == Below(s, x) + Below(t, x) && Above(s + t, x) == Above(s, x) + Above(t, x)
  {
    if s == [] { assert s + t == t; } else {
      assert (s + t)[1..] == s[1..] + t;
      CountsConcat(s[1..], t, x);
    }
  }

  lemma CountsOne(y: real, x: real)
    ensures Below([y], x) == (if y < x then 1 else 0) && Above([y], x) == if y > x then 1 else 0
  {
    assert [y][1..] == [];
  }

  /** Only the samples matter, not their order. */
  lemma {:induction false} CountsOfMultiset(s: seq<real>, t: seq<real>, x: real)
    requires multiset(s) == multiset(t)
    ensures Below(s, x) == Below(t, x) && Above(s, x) == Above(t, x)
    decreases |s|
  {
    if s == [] { EmptyMultiset(s, t); } else {
      var i := Place(s, t);
      var a, b := t[..i], t[i + 1..];
      WithoutOne(s, t, i);
      CountsOfMultiset(s[1..], a + b, x);
      assert t == a + ([t[i]] + b);
      CountsConcat(a, [t[i]] + b, x);
      CountsConcat([t[i]], b, x);
      CountsConcat(a, b, x);
      CountsOne(t[i], x);
    }
  }

  lemma EmptyMultiset(s: seq<real>, t: seq<real>)
    requires multiset(s) == multiset(t) && s == []
    ensures t == []
  {
    assert |t| == |multiset(t)| == |multiset(s)|;
  }

  lemma Place(s: seq<real>, t: seq<real>) returns (i: nat)
    requires multiset(s) == multiset(t) && s != []
    ensures i < |t| && t[i] == s[0]
  {
    assert s[0] in multiset(t);
    i :| 0 <= i < |t| && t[i] == s[0];
  }

  lemma WithoutOne(s: seq<real>, t: seq<real>, i: nat)
    requires multiset(s) == multiset(t) && s != [] && i < |t| && t[i] == s[0]
    ensures multiset(s[1..]) == multiset(t[..i] + t[i + 1..])
  {
    TakeOut(s, 0);
    TakeOut(t, i);
    assert s[..0] + s[1..] == s[1..];
    Cancel(multiset(s[1..]), multiset(t[..i] + t[i + 1..]), s[0]);
  }

  lemma TakeOut(t: seq<real>, i: nat)
    requires i < |t|
    ensures multiset(t) == multiset(t[..i] + t[i + 1..]) + multiset{t[i]}
  {
    MultisetOfParts(t[..i], t[i], t[i + 1..]);
    assert t == t[..i] + [t[i]] + t[i + 1..];
  }

  lemma Cancel(a: multiset<real>, b: multiset<real>, x: real)
    requires a + multiset{x} == b + multiset{x}
    ensures a == b
  {
    assert a == a + multiset{x} - multiset{x};
    assert b == b + multiset{x} - multiset{x};
  }

  lemma MultisetOfParts(p: seq<real>, x: real, q: seq<real>)
    ensures multiset(p + [x] + q) == multiset(p + q) + multiset{x}
  {
  }

  lemma {:induction false} CountsWithin(s: seq<real>, x: real)
    ensures Below(s, x) + Above(s, x) <= |s|
    ensures x in s ==> Below(s, x) + Above(s, x) < |s|
  {
    if s != [] {
      CountsWithin(s[1..], x);
      assert s == [s[0]] + s[1..];
    }
  }

  lemma {:induction false} CountsMonotone(s: seq<real>, x: real, y: real)
    requires x < y
    ensures Below(s, x) <= Below(s, y)
    ensures Above(s, x) + Below(s, y) >= |s|
  {
    if s != [] { CountsMonotone(s[1..], x, y); }
  }

  // ---- ranks ---------------------------------------------------------------------------------

  /** At most one value has a given rank, so there is one median. */
  lemma RankUnique(s: seq<real>, k: nat, x: real, y: real)
    requires HasRank(s, k, x) && HasRank(s, k, y)
    ensures x == y
  {
    if x < y { CountsMonotone(s, x, y); }
    if y < x { CountsMonotone(s, y, x); }
  }

  lemma MedianUnique(s: seq<real>, m: real, n: real)
    requires IsMedian(s, m) && IsMedian(s, n)
    ensures m == n
  {
    hide HasRank;
    if |s| % 2 == 1 { RankUnique(s, |s| / 2, m, n); } else {
      var x, y :| Middle(s, x, y) && m == (x + y) / 2.0;
      var u, v :| Middle(s, u, v) && n == (u + v) / 2.0;
      RankUnique(s, |s| / 2 - 1, x, u);
      RankUnique(s, |s| / 2, y, v);
    }
  }

  lemma RankOfMultiset(s: seq<real>, t: seq<real>, k: nat, x: real)
    requires multiset(s) == multiset(t) && HasRank(s, k, x)
    ensures HasRank(t, k, x)
  {
    CountsOfMultiset(s, t, x);
    assert x in multiset(t);
    assert |s| == |multiset(s)| == |multiset(t)| == |t|;
  }

  lemma MedianOfMultiset(s: seq<real>, t: seq<real>, m: real)
    requires multiset(s) == multiset(t) && IsMedian(s, m)
    ensures IsMedian(t, m)
  {
    hide HasRank;
    assert |s| == |multiset(s)| == |multiset(t)| == |t|;
    if |s| % 2 == 1 { RankOfMultiset(s, t, |s| / 2, m); } else {
      var x, y :| Middle(s, x, y) && m == (x + y) / 2.0;
      RankOfMultiset(s, t, |s| / 2 - 1, x);
      RankOfMultiset(s, t, |s| / 2, y);
      assert Middle(t, x, y);
    }
  }
}
