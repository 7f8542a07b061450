/** Running median of etc/scope_client/scope-client.py: a ring of the last samples and a sorted
    vector kept beside it, against sorting the last samples anew. */
module Median {
  import opened OrderStatistics

  datatype Option<T> = None | Some(value: T)

  // ---- sorting -------------------------------------------------------------------------------

  predicate Sorted(s: seq<real>) { forall i, j :: 0 <= i <= j < |s| ==> s[i] <= s[j] }

  /** The reference: insertion sort. */
  function Sort(s: seq<real>): seq<real> {
    if s == [] then [] else Place(Sort(s[1..]), s[0])
  }

  function Place(s: seq<real>, x: real): seq<real> {
    if s == [] || x <= s[0] then [x] + s else [s[0]] + Place(s[1..], x)
  }

  lemma {:induction false} PlaceCounts(s: seq<real>, x: real)
    ensures multiset(Place(s, x)) == multiset(s) + multiset{x}
  {
    if s != [] && x > s[0] {
      PlaceCounts(s[1..], x);
      assert s == [s[0]] + s[1..];
    }
  }

  lemma {:induction false} PlaceSorted(s: seq<real>, x: real)
    requires Sorted(s)
    ensures Sorted(Place(s, x))
  {
    if s != [] && x > s[0] {
      PlaceSorted(s[1..], x);
      PlacedFrom(s[1..], x);
      PrependSorted(s[0], Place(s[1..], x));
    }
  }

  lemma PlacedFrom(s: seq<real>, x: real)
    ensures forall y :: y in Place(s, x) ==> y == x || y in s
  {
    PlaceCounts(s, x);
    forall y | y in Place(s, x) ensures y == x || y in s { assert multiset(Place(s, x))[y] > 0; }
  }

  lemma PrependSorted(x: real, t: seq<real>)
    requires Sorted(t) && forall y :: y in t ==> x <= y
    ensures Sorted([x] + t)
  {
    forall j | 0 <= j < |t| ensures x <= t[j] { assert t[j] in t; }
  }

  lemma {:induction false} SortSorts(s: seq<real>)
    ensures Sorted(Sort(s)) && multiset(Sort(s)) == multiset(s)
  {
    if s != [] {
      SortSorts(s[1..]);
      PlaceSorted(Sort(s[1..]), s[0]);
      PlaceCounts(Sort(s[1..]), s[0]);
      assert s == [s[0]] + s[1..];
    }
  }

  /** There is only one sorted arrangement. */
  lemma {:induction false} SortedUnique(s: seq<real>, t: seq<real>)
    requires Sorted(s) && Sorted(t) && multiset(s) == multiset(t)
    ensures s == t
    decreases |s|
  {
    assert |s| == |multiset(s)| == |multiset(t)| == |t|;
    if s != [] {
      SameHead(s, t);
      TailMultiset(s);
      TailMultiset(t);
      SortedUnique(s[1..], t[1..]);
      assert s == [s[0]] + s[1..] && t == [t[0]] + t[1..];
    }
  }

  lemma SameHead(s: seq<real>, t: seq<real>)
    requires Sorted(s) && Sorted(t) && multiset(s) == multiset(t) && s != [] && t != []
    ensures s[0] == t[0]
  {
    assert s[0] in multiset(s) && t[0] in multiset(t);
    assert s[0] in t && t[0] in s;
  }

  lemma TailMultiset(s: seq<real>)
    requires s != []
    ensures multiset(s[1..]) == multiset(s) - multiset{s[0]}
  {
    assert s == [s[0]] + s[1..];
  }

  // ---- sorted vector -------------------------------------------------------------------------

  /** x belongs at i: before it everything is smaller, from it on nothing is. */
  predicate IsPos(s: seq<real>, x: real, i: int) {
    0 <= i <= |s| && (forall j :: 0 <= j < i ==> s[j] < x) && (forall j :: i <= j < |s| ==> x <= s[j])
  }

  lemma InsertAt(s: seq<real>, x: real, i: nat)
    requires Sorted(s) && IsPos(s, x, i)
    ensures var t := s[..i] + [x] + s[i..]; Sorted(t) && multiset(t) == multiset(s) + multiset{x}
  {
    var p, q := s[..i], s[i..];
    assert s == p + q;
    MultisetOfParts(p, x, q);
  }

  /** The place of a value that is present holds that value. */
  lemma RemoveAt(s: seq<real>, x: real, i: nat)
    requires Sorted(s) && IsPos(s, x, i) && x in s
    ensures i < |s| && s[i] == x
    ensures var t := s[..i] + s[i + 1..]; Sorted(t) && multiset(t) == multiset(s) - multiset{x}
  {
    var k :| 0 <= k < |s| && s[k] == x;
    assert i <= k && s[i] <= s[k];
    RemoveIndex(s, i);
  }

  lemma RemoveIndex(s: seq<real>, i: nat)
    requires Sorted(s) && i < |s|
    ensures var t := s[..i] + s[i + 1..]; Sorted(t) && multiset(t) == multiset(s) - multiset{s[i]}
  {
    WithoutSorted(s, i);
    hide Sorted;
    var p, q := s[..i], s[i + 1..];
    assert s == p + [s[i]] + q;
    MultisetOfParts(p, s[i], q);
  }

  lemma WithoutSorted(s: seq<real>, i: nat)
    requires Sorted(s) && i < |s|
    ensures Sorted(s[..i] + s[i + 1..])
  {
    var t := s[..i] + s[i + 1..];
    assert forall j :: 0 <= j < |t| ==> t[j] == s[if j < i then j else j + 1];
  }

  class SortedVector {
    var data: seq<real>

    constructor ()
      ensures data == []
    {
      data := [];
    }

    method FindPos(x: real) returns (a: nat)
      requires Sorted(data)
      ensures IsPos(data, x, a)
    {
      a := 0;
      var b := |data|;
      while a < b
        invariant 0 <= a <= b <= |data|
        invariant forall j :: 0 <= j < a ==> data[j] < x
        invariant forall j :: b <= j < |data| ==> x <= data[j]
      {
        var m := (a + b) / 2;
        if data[m] < x { a := m + 1; } else { b := m; }
      }
    }

    method Insert(x: real)
      requires Sorted(data)
      modifies this
      ensures Sorted(data) && multiset(data) == multiset(old(data)) + multiset{x}
    {
      var i := FindPos(x);
      InsertAt(data, x, i);
      data := data[..i] + [x] + data[i..];
    }

    method Remove(x: real)
      requires Sorted(data) && x in data
      modifies this
      ensures Sorted(data) && multiset(data) == multiset(old(data)) - multiset{x}
    {
      var i := FindPos(x);
      RemoveAt(data, x, i);
      data := data[..i] + data[i + 1..];
    }
  }

  function MedianFromSorted(s: seq<real>): real
    requires |s| > 0
  {
    var m := |s| / 2;
    if |s| % 2 == 1 then s[m] else (s[m] + s[m - 1]) / 2.0
  }

  lemma SortLength(s: seq<real>)
    ensures |Sort(s)| == |s|
  {
    SortSorts(s);
    assert |multiset(Sort(s))| == |multiset(s)|;
  }

  /** The naive median. */
  function MedianOf(s: seq<real>): real
    requires |s| > 0
  {
    SortLength(s);
    MedianFromSorted(Sort(s))
  }

  /** In sorted order the places are the ranks. */
  lemma SortedRank(s: seq<real>, k: nat)
    requires Sorted(s) && k < |s|
    ensures HasRank(s, k, s[k])
  {
    SmallerFirst(s, k);
    LargerLast(s, k);
  }

  lemma {:induction false} SmallerFirst(s: seq<real>, k: nat)
    requires Sorted(s) && k < |s|
    ensures Below(s, s[k]) <= k
  {
    if k == 0 { NoneSmaller(s, s[0]); } else { SmallerFirst(s[1..], k - 1); }
  }

  lemma {:induction false} NoneSmaller(s: seq<real>, x: real)
    requires forall i :: 0 <= i < |s| ==> x <= s[i]
    ensures Below(s, x) == 0
  {
    if s != [] { NoneSmaller(s[1..], x); }
  }

  lemma {:induction false} LargerLast(s: seq<real>, k: nat)
    requires Sorted(s) && k < |s|
    ensures Above(s, s[k]) + k < |s|
  {
    if k == 0 { CountsWithin(s, s[0]); } else { LargerLast(s[1..], k - 1); }
  }

  /** What is read off a sorted arrangement is the median. */
  lemma FromSortedIsMedian(s: seq<real>)
    requires Sorted(s) && s != []
    ensures IsMedian(s, MedianFromSorted(s))
  {
    hide HasRank, Sorted;
    var m := |s| / 2;
    SortedRank(s, m);
    if |s| % 2 == 0 {
      SortedRank(s, m - 1);
      assert Middle(s, s[m - 1], s[m]);
    }
  }

  lemma MedianOfIsMedian(s: seq<real>)
    requires s != []
    ensures IsMedian(s, MedianOf(s))
  {
    hide IsMedian, MedianFromSorted;
    SortSorts(s);
    SortLength(s);
    FromSortedIsMedian(Sort(s));
    MedianOfMultiset(Sort(s), s, MedianOf(s));
  }

  // ---- window --------------------------------------------------------------------------------

  /** The last w samples, or all of them. */
  function Last(log: seq<real>, w: nat): seq<real> { if |log| <= w then log else log[|log| - w..] }

  /** The ring read from its oldest slot: empty slots, then the window. */
  function Slots(log: seq<real>, w: nat): (r: seq<Option<real>>)
    ensures |r| == w
  {
    var n := |Last(log, w)|;
    seq(w, i requires 0 <= i < w => if i < w - n then None else Some(Last(log, w)[i - (w - n)]))
  }

  lemma SlotsShift(log: seq<real>, w: nat, x: real)
    requires w > 0
    ensures Slots(log + [x], w) == Slots(log, w)[1..] + [Some(x)]
    ensures Slots(log, w)[0] == if |log| < w then None else Some(log[|log| - w])
  {
    var a, b := Slots(log + [x], w), Slots(log, w)[1..] + [Some(x)];
    assert |a| == |b| == w;
    forall i | 0 <= i < w ensures a[i] == b[i] {}
  }

  lemma WindowMoves(log: seq<real>, w: nat, x: real)
    requires w > 0
    ensures multiset(Last(log + [x], w))
            == if |log| < w then multiset(Last(log, w)) + multiset{x}
               else multiset(Last(log, w)) - multiset{log[|log| - w]} + multiset{x}
    ensures |log| >= w ==> log[|log| - w] in multiset(Last(log, w))
  {
    if |log| >= w {
      var l := Last(log, w);
      assert l == log[|log| - w..] && l[0] == log[|log| - w];
      assert l == [l[0]] + l[1..];
      assert Last(log + [x], w) == l[1..] + [x];
    } else { assert Last(log + [x], w) == Last(log, w) + [x]; }
  }

  /** Values in the occupied slots. */
  function Occupied(ring: seq<Option<real>>): multiset<real> {
    if ring == [] then multiset{}
    else (if ring[0].Some? then multiset{ring[0].value} else multiset{}) + Occupied(ring[1..])
  }

  lemma {:induction false} OccupiedConcat(a: seq<Option<real>>, b: seq<Option<real>>)
    ensures Occupied(a + b) == Occupied(a) + Occupied(b)
  {
    if a == [] { assert a + b == b; } else {
      assert (a + b)[1..] == a[1..] + b;
      OccupiedConcat(a[1..], b);
    }
  }

  lemma {:induction false} OccupiedFull(ring: seq<Option<real>>, s: seq<real>)
    requires |ring| == |s| && forall i :: 0 <= i < |s| ==> ring[i] == Some(s[i])
    ensures Occupied(ring) == multiset(s)
  {
    if s != [] {
      OccupiedFull(ring[1..], s[1..]);
      assert s == [s[0]] + s[1..];
    } else { assert s == []; }
  }

  lemma {:induction false} OccupiedEmpty(ring: seq<Option<real>>)
    requires forall i :: 0 <= i < |ring| ==> ring[i] == None
    ensures Occupied(ring) == multiset{}
  {
    if ring != [] { OccupiedEmpty(ring[1..]); }
  }

  /** Wherever the ring starts, its occupied slots hold the window. */
  lemma SlotsOccupied(log: seq<real>, w: nat, ring: seq<Option<real>>, head: nat)
    requires head <= |ring| && ring[head..] + ring[..head] == Slots(log, w)
    ensures Occupied(ring) == multiset(Last(log, w))
  {
    var s, n := Slots(log, w), |Last(log, w)|;
    RotationOccupied(ring, head);
    hide Occupied, Last, Slots;
    SlotsAre(log, w);
    assert s == s[..w - n] + s[w - n..];
    OccupiedConcat(s[..w - n], s[w - n..]);
    OccupiedEmpty(s[..w - n]);
    OccupiedFull(s[w - n..], Last(log, w));
  }

  lemma SlotsAre(log: seq<real>, w: nat)
    ensures |Last(log, w)| <= w
    ensures forall i :: 0 <= i < w - |Last(log, w)| ==> Slots(log, w)[i] == None
    ensures forall i :: 0 <= i < |Last(log, w)| ==> Slots(log, w)[w - |Last(log, w)|..][i] == Some(Last(log, w)[i])
  {
  }

  lemma RotationOccupied(ring: seq<Option<real>>, head: nat)
    requires head <= |ring|
    ensures Occupied(ring[head..] + ring[..head]) == Occupied(ring)
  {
    hide Occupied;
    var a, b := ring[..head], ring[head..];
    OccupiedConcat(b, a);
    OccupiedConcat(a, b);
    assert ring == a + b;
  }

  class RunningMedian {
    const ring: array<Option<real>>
    var head: nat
    const sorted: SortedVector
    ghost var log: seq<real>

    ghost predicate Valid()
      reads this, ring, sorted
    {
      && ring.Length > 0 && head < ring.Length
      && ring[..][head..] + ring[..][..head] == Slots(log, ring.Length)
      && Sorted(sorted.data)
      && multiset(sorted.data) == multiset(Last(log, ring.Length))
    }

    constructor (windowSize: nat)
      requires windowSize > 0
      ensures Valid() && fresh(ring) && fresh(sorted) && ring.Length == windowSize && log == []
    {
      ring := new Option<real>[windowSize](_ => None);
      head := 0;
      sorted := new SortedVector();
      log := [];
    }

    method Insert(x: real)
      requires Valid()
      modifies this, ring, sorted
      ensures Valid() && log == old(log) + [x]
      ensures multiset(sorted.data) == Occupied(ring[..])
    {
      ghost var l, n := log, ring.Length;
      hide Slots, Last, Sorted, Occupied;
      SlotsShift(l, n, x);
      WindowMoves(l, n, x);
      var current := Push(x);
      log := log + [x];
      if current != None {
        sorted.Remove(current.value);
      }
      sorted.Insert(x);
      SlotsOccupied(log, n, ring[..], head);
    }

    method Push(x: real) returns (current: Option<real>)
      requires ring.Length > 0 && head < ring.Length
      modifies this`head, ring
      ensures head < ring.Length
      ensures var was := old(ring[..][head..] + ring[..][..head]);
              ring[..][head..] + ring[..][..head] == was[1..] + [Some(x)] && current == was[0]
    {
      ghost var before, h := ring[..], head;
      current := ring[head];
      ring[head] := Some(x);
      head := (head + 1) % ring.Length;
      NextSlot(h, ring.Length);
      RingShift(before, h, Some(x), head);
      assert ring[..] == before[h := Some(x)];
    }

    /** Before the first sample the source raises an index error. */
    method Median() returns (m: real)
      requires Valid() && log != []
      ensures m == MedianOf(Last(log, ring.Length)) && IsMedian(Last(log, ring.Length), m)
    {
      ghost var l := Last(log, ring.Length);
      SortSorts(l);
      SortedUnique(sorted.data, Sort(l));
      SortLength(l);
      m := MedianFromSorted(sorted.data);
      MedianOfIsMedian(l);
    }
  }

  lemma NextSlot(head: nat, n: nat)
    requires head < n
    ensures (head + 1) % n == if head + 1 == n then 0 else head + 1
  {
  }

  /** Overwriting the oldest slot and moving on drops it and appends the new one. */
  lemma RingShift<T>(ring: seq<T>, head: nat, x: T, next: nat)
    requires head < |ring| && next == (if head + 1 == |ring| then 0 else head + 1)
    ensures var r := ring[head := x];
            r[next..] + r[..next] == (ring[head..] + ring[..head])[1..] + [x]
  {
    var p, t := ring[..head], ring[head + 1..];
    RingParts(ring, head, x);
    Turned(p + [x], t, next);
    assert t + (p + [x]) == t + p + [x];
  }

  lemma Turned<T>(p: seq<T>, t: seq<T>, next: nat)
    requires next == if t == [] then 0 else |p|
    ensures (p + t)[next..] + (p + t)[..next] == t + p
  {
    if t == [] { assert p + t == p && t + p == p; }
  }

  lemma RingParts<T>(ring: seq<T>, head: nat, x: T)
    requires head < |ring|
    ensures var p, t := ring[..head], ring[head + 1..];
            ring[head := x] == p + [x] + t && (ring[head..] + p)[1..] == t + p
  {
    assert ring[head..] == [ring[head]] + ring[head + 1..];
  }
}
