/** Sample buffer and timestamps of a scope channel (etc/scope_client/fugu_scope.py): the ring against
    the unbounded log of everything appended, and the clock recovery. */
module ScopeChannel {

  import Median
  import OrderStatistics

  datatype Option<T> = None | Some(value: T)

  const BUF_SAMPLES: nat := 200000

  // ---- clock recovery ------------------------------------------------------------------------

  /** A `tFirst` of zero means that no batch has arrived. */
  datatype Clock = Clock(tFirst: real, dt: real, last: real, tPrev: real)

  const STOPPED: Clock := Clock(0.0, 0.0, 0.0, 0.0)

  /** A batch of samples: arrival time and sample period to start from. */
  datatype Batch = Batch(vals: seq<real>, tNow: real, fallbackDt: real)

  /** Timestamp the batch's samples follow on. */
  function Previous(c: Clock, b: Batch): real {
    if c.tFirst == 0.0 then b.tNow - |b.vals| as real * b.fallbackDt else c.last
  }

  function Period(c: Clock, b: Batch): real
    requires b.vals != []
  {
    if c.tFirst == 0.0 then b.fallbackDt
    else if b.tNow - c.tPrev > 0.0 then c.dt + 0.1 * ((b.tNow - c.tPrev) / |b.vals| as real - c.dt)
    else c.dt
  }

  function Newest(c: Clock, b: Batch): real
    requires b.vals != []
  {
    if c.tFirst == 0.0 then b.tNow
    else
      var step := |b.vals| as real * Period(c, b);
      var naive := c.last + step;
      var t := naive + 0.2 * (b.tNow - naive);
      if t <= c.last then c.last + step else t
  }

  function Tick(c: Clock, b: Batch): Clock {
    if b.vals == [] then c
    else Clock(if c.tFirst == 0.0 then b.tNow else c.tFirst, Period(c, b), Newest(c, b), b.tNow)
  }

  /** k stamps evenly spaced after `prev`, the last one at `last`. */
  function Spread(prev: real, last: real, k: nat): (r: seq<real>)
    ensures |r| == k
  {
    seq(k, i requires 0 <= i < k => StampAt(prev, last, (i + 1) as real / k as real))
  }

  function StampAt(prev: real, last: real, share: real): real { prev + share * (last - prev) }

  function Stamps(c: Clock, b: Batch): (r: seq<real>)
    ensures |r| == |b.vals|
  {
    if b.vals == [] then [] else Spread(Previous(c, b), Newest(c, b), |b.vals|)
  }

  predicate Increasing(s: seq<real>) { forall i, j :: 0 <= i < j < |s| ==> s[i] < s[j] }

  /** Everything stamped so far is increasing and the clock stands at the last stamp. */
  predicate Steady(c: Clock, stamps: seq<real>) {
    if stamps == [] then c.tFirst == 0.0
    else c.tFirst != 0.0 && c.dt > 0.0 && Increasing(stamps) && stamps[|stamps| - 1] == c.last
  }

  lemma StampsAscend(prev: real, last: real, x: real, y: real)
    requires prev < last && x < y
    ensures StampAt(prev, last, x) < StampAt(prev, last, y)
  {
    var d := last - prev;
    Grow(y - x, d);
    Expand(y, x, d);
  }

  lemma Expand(y: real, x: real, d: real)
    ensures (y - x) * d == y * d - x * d
  {
  }

  lemma RatioMonotone(i: nat, j: nat, k: nat)
    requires i < j && k > 0
    ensures i as real / k as real < j as real / k as real
  {
  }

  lemma Grow(a: real, b: real)
    requires a > 0.0 && b > 0.0
    ensures a * b > 0.0
  {
  }

  lemma SpreadIncreases(prev: real, last: real, k: nat)
    requires prev < last && k > 0
    ensures Increasing(Spread(prev, last, k))
    ensures Spread(prev, last, k)[k - 1] == last && forall i :: 0 <= i < k ==> prev < Spread(prev, last, k)[i]
  {
    var s := Spread(prev, last, k);
    forall i, j | 0 <= i < j < k ensures s[i] < s[j] { SpreadAt(prev, last, k, i, j); }
    forall i | 0 <= i < k ensures prev < s[i] { SpreadStarts(prev, last, k, i); }
    SpreadEnds(prev, last, k);
    hide Spread;
  }

  lemma SpreadEnds(prev: real, last: real, k: nat)
    requires k > 0
    ensures Spread(prev, last, k)[k - 1] == last
  {
    Whole(k as real);
    assert StampAt(prev, last, 1.0) == last;
  }

  lemma Whole(x: real)
    requires x != 0.0
    ensures x / x == 1.0
  {
  }

  lemma SpreadAt(prev: real, last: real, k: nat, i: nat, j: nat)
    requires prev < last && i < j < k
    ensures Spread(prev, last, k)[i] < Spread(prev, last, k)[j]
  {
    RatioMonotone(i + 1, j + 1, k);
    StampsAscend(prev, last, (i + 1) as real / k as real, (j + 1) as real / k as real);
    hide StampAt;
  }

  lemma SpreadStarts(prev: real, last: real, k: nat, i: nat)
    requires prev < last && i < k
    ensures prev < Spread(prev, last, k)[i]
  {
    Grow((i + 1) as real / k as real, last - prev);
  }

  lemma PeriodPositive(c: Clock, b: Batch)
    requires b.vals != [] && b.fallbackDt > 0.0 && (c.tFirst != 0.0 ==> c.dt > 0.0)
    ensures Period(c, b) > 0.0
  {
    var gap, k := b.tNow - c.tPrev, |b.vals| as real;
    if gap > 0.0 { assert gap / k > 0.0; }
  }

  /** However late, early or out of order a batch arrives, its newest stamp lies after the stamps
      before it. */
  lemma NewestIsLater(c: Clock, b: Batch)
    requires b.vals != [] && b.fallbackDt > 0.0 && (c.tFirst != 0.0 ==> c.dt > 0.0)
    ensures Previous(c, b) < Newest(c, b)
  {
    PeriodPositive(c, b);
    if c.tFirst == 0.0 { Grow(|b.vals| as real, b.fallbackDt); }
    else { Grow(|b.vals| as real, Period(c, b)); }
  }

  lemma JoinIncreasing(a: seq<real>, b: seq<real>)
    requires Increasing(a) && Increasing(b) && (a != [] ==> forall i :: 0 <= i < |b| ==> a[|a| - 1] < b[i])
    ensures Increasing(a + b)
  {
    forall i, j | 0 <= i < j < |a + b| ensures (a + b)[i] < (a + b)[j] {
      if i < |a| <= j { assert a[i] <= a[|a| - 1]; }
    }
  }

  /** A batch keeps the stamps increasing, unless it is the first and arrives at time zero. */
  lemma TickKeepsSteady(c: Clock, stamps: seq<real>, b: Batch)
    requires Steady(c, stamps) && b.fallbackDt > 0.0 && (stamps != [] || b.tNow != 0.0)
    ensures Steady(Tick(c, b), stamps + Stamps(c, b))
  {
    if b.vals == [] { assert stamps + [] == stamps; } else {
      NewestIsLater(c, b);
      PeriodPositive(c, b);
      hide Newest, Period, Spread;
      SpreadIncreases(Previous(c, b), Newest(c, b), |b.vals|);
      JoinIncreasing(stamps, Stamps(c, b));
    }
  }

  /** The stamps of a batch stand at equal distances, the first one after the stamps before it and the
      last one where the clock then stands. */
  lemma StampsEvenlySpaced(c: Clock, b: Batch, i: nat)
    requires i < |b.vals|
    ensures var s, k := Stamps(c, b), |b.vals|;
            var start := if c.tFirst == 0.0 then b.tNow - k as real * b.fallbackDt else c.last;
            && s[k - 1] == Tick(c, b).last
            && (s[i] - if i == 0 then start else s[i - 1]) * k as real == Tick(c, b).last - start
  {
    hide Newest, Period, StampAt, Spread;
    var k, prev, last := |b.vals|, Previous(c, b), Newest(c, b);
    SpreadEnds(prev, last, k);
    SpreadStep(prev, last, i, k);
  }

  lemma SpreadStep(prev: real, last: real, i: nat, k: nat)
    requires i < k
    ensures var s := Spread(prev, last, k); (s[i] - if i == 0 then prev else s[i - 1]) * k as real == last - prev
  {
    hide StampAt;
    StampFrom(prev, last, i + 1, k);
    if i > 0 { StampFrom(prev, last, i, k); }
    EqualSteps(prev, last, i, k, StampAt(prev, last, (i + 1) as real / k as real),
               if i == 0 then prev else StampAt(prev, last, i as real / k as real));
  }

  lemma StampFrom(prev: real, last: real, i: nat, k: nat)
    requires k > 0
    ensures (StampAt(prev, last, i as real / k as real) - prev) * k as real == i as real * (last - prev)
  {
    ShareOfWhole(i as real, k as real, last - prev);
  }

  lemma ShareOfWhole(i: real, k: real, d: real)
    requires k > 0.0
    ensures (i / k * d) * k == i * d
  {
    assert i / k * k == i;
    assert (i / k * d) * k == (i / k * k) * d;
  }

  lemma EqualSteps(prev: real, last: real, i: nat, k: nat, b: real, a: real)
    requires (b - prev) * k as real == (i + 1) as real * (last - prev)
    requires (a - prev) * k as real == i as real * (last - prev)
    ensures (b - a) * k as real == last - prev
  {
    var n, d, j := k as real, last - prev, i as real;
    assert (b - a) * n == (b - prev) * n - (a - prev) * n;
    assert (j + 1.0) * d == j * d + d;
  }

  function Power(x: real, n: nat): real { if n == 0 then 1.0 else x * Power(x, n - 1) }

  /** Batches that follow time t at a period of p per sample. */
  predicate Arriving(t: real, bs: seq<Batch>, p: real)
    decreases |bs|
  {
    bs == []
    || (bs[0].vals != [] && bs[0].tNow - t == |bs[0].vals| as real * p && Arriving(bs[0].tNow, bs[1..], p))
  }

  function ClockFrom(c: Clock, bs: seq<Batch>): Clock
    decreases |bs|
  {
    if bs == [] then c else ClockFrom(Tick(c, bs[0]), bs[1..])
  }

  /** The period estimate finds the true period: over n batches its error shrinks to 0.9^n. */
  lemma {:induction false} PeriodConverges(c: Clock, bs: seq<Batch>, p: real)
    requires c.tFirst != 0.0 && p > 0.0 && Arriving(c.tPrev, bs, p)
    ensures ClockFrom(c, bs).dt - p == Power(0.9, |bs|) * (c.dt - p)
    decreases |bs|
  {
    hide Newest, Period, Power;
    if bs == [] { PowerNone(0.9, c.dt - p); } else {
      var d := Tick(c, bs[0]);
      PeriodLearns(c, bs[0], p);
      PeriodConverges(d, bs[1..], p);
      PowerNext(0.9, |bs[1..]|, c.dt - p);
    }
  }

  lemma PowerNone(x: real, e: real)
    ensures Power(x, 0) * e == e
  {
  }

  lemma PowerNext(x: real, n: nat, e: real)
    ensures Power(x, n + 1) * e == Power(x, n) * (x * e)
  {
    var q := Power(x, n);
    assert (x * q) * e == q * (x * e);
  }

  lemma PeriodLearns(c: Clock, b: Batch, p: real)
    requires c.tFirst != 0.0 && b.vals != [] && p > 0.0 && b.tNow - c.tPrev == |b.vals| as real * p
    ensures Tick(c, b).dt - p == 0.9 * (c.dt - p)
    ensures Tick(c, b).tFirst == c.tFirst && Tick(c, b).tPrev == b.tNow
  {
    hide Newest;
    var k := |b.vals| as real;
    Grow(k, p);
    Cancelled(k, p);
  }

  lemma Cancelled(k: real, p: real)
    requires k > 0.0
    ensures k * p / k == p
  {
  }

  /** Any later batch: the newest stamp goes four fifths of the way by the estimated period and one fifth by the
      arrival time, or, where that would not be later, by the period alone; a batch that does not arrive later
      teaches nothing. */
  lemma ResyncExactly(c: Clock, b: Batch)
    requires c.tFirst != 0.0 && b.vals != []
    ensures var d := Tick(c, b);
            var run := c.last + |b.vals| as real * d.dt;
            && d.tFirst == c.tFirst && d.tPrev == b.tNow
            && d.last == (if 0.8 * run + 0.2 * b.tNow > c.last then 0.8 * run + 0.2 * b.tNow else run)
            && (b.tNow <= c.tPrev ==> d.dt == c.dt)
  {
  }

  /** Clock recovery on a steady stream: while batches arrive at the estimated period the estimate does
      not change and the distance of the newest stamp from the arrival time shrinks to four fifths,
      whatever its sign, as long as time does not have to be forced forwards. */
  lemma ResyncContracts(c: Clock, b: Batch)
    requires c.tFirst != 0.0 && c.dt > 0.0 && b.vals != []
    requires b.tNow - c.tPrev == |b.vals| as real * c.dt
    requires c.tPrev - c.last > -|b.vals| as real * c.dt
    ensures var d := Tick(c, b);
            d.dt == c.dt && d.last > c.last && d.last - d.tPrev == 0.8 * (c.last - c.tPrev)
  {
    var k := |b.vals| as real;
    Grow(k, c.dt);
    assert (b.tNow - c.tPrev) / k == c.dt;
    assert Period(c, b) == c.dt;
  }

  function ClockAfter(bs: seq<Batch>): Clock
    decreases |bs|
  {
    if bs == [] then STOPPED else Tick(ClockAfter(bs[..|bs| - 1]), bs[|bs| - 1])
  }

  function AllStamps(bs: seq<Batch>): seq<real>
    decreases |bs|
  {
    if bs == [] then []
    else AllStamps(bs[..|bs| - 1]) + Stamps(ClockAfter(bs[..|bs| - 1]), bs[|bs| - 1])
  }

  predicate PositivePeriods(bs: seq<Batch>) { forall i :: 0 <= i < |bs| ==> bs[i].fallbackDt > 0.0 }

  predicate AllArrive(bs: seq<Batch>) { forall i :: 0 <= i < |bs| ==> bs[i].vals != [] }

  /** The usual case: the first batch does not arrive at exactly time zero. */
  lemma {:induction false} StampsIncrease(bs: seq<Batch>)
    requires PositivePeriods(bs) && AllArrive(bs) && (bs != [] ==> bs[0].tNow != 0.0)
    ensures Steady(ClockAfter(bs), AllStamps(bs)) && Increasing(AllStamps(bs))
    ensures bs != [] ==> AllStamps(bs) != []
    decreases |bs|
  {
    if bs != [] {
      StampsIncrease(bs[..|bs| - 1]);
      TickKeepsSteady(ClockAfter(bs[..|bs| - 1]), AllStamps(bs[..|bs| - 1]), bs[|bs| - 1]);
    }
  }

  lemma FirstSpread(t: real, k: nat, dt: real)
    requires k > 0
    ensures Spread(t - k as real * dt, t, k)[0] == t - (k - 1) as real * dt
  {
    var n := k as real;
    assert 1.0 / n * (n * dt) == (1.0 / n * n) * dt;
    assert (k - 1) as real == n - 1.0;
  }

  /** The second batch's own first sample falls after time zero. */
  predicate FollowsZero(b: Batch) { b.tNow > (|b.vals| - 1) as real * b.fallbackDt }

  /** A first batch at time zero is taken for none: the second one starts the clock again. */
  lemma TwoBatches(a: Batch, b: Batch)
    requires a.vals != [] && b.vals != [] && a.tNow == 0.0 && a.fallbackDt > 0.0 && b.fallbackDt > 0.0
    ensures Increasing(AllStamps([a, b])) <==> FollowsZero(b)
    ensures FollowsZero(b) ==> Steady(ClockAfter([a, b]), AllStamps([a, b]))
  {
    hide AllStamps, Stamps, Tick, Increasing, ClockAfter, FollowsZero;
    StampsOfTwo(a, b);
    ZeroSpreads(a, b);
    RestartedClock(a, b);
    JoinExactly(Stamps(STOPPED, a), Stamps(Tick(STOPPED, a), b));
    var s, t := Stamps(STOPPED, a), Stamps(Tick(STOPPED, a), b);
    assert (s + t)[|s + t| - 1] == t[|t| - 1];
  }

  lemma RestartedClock(a: Batch, b: Batch)
    requires a.vals != [] && b.vals != [] && a.tNow == 0.0 && b.fallbackDt > 0.0
    ensures var c := ClockAfter([a, b]);
            c.dt > 0.0 && c.last == b.tNow && (FollowsZero(b) ==> c.tFirst > 0.0)
  {
    assert [a, b][..1] == [a] && [a][..0] == [];
    assert ClockAfter([]) == STOPPED && ClockAfter([a]) == Tick(STOPPED, a);
    NotNegative((|b.vals| - 1) as real, b.fallbackDt);
  }

  lemma NotNegative(x: real, y: real)
    requires x >= 0.0 && y >= 0.0
    ensures x * y >= 0.0
  {
  }

  /** Any longer run from there is as good as its first two batches. */
  lemma {:induction false} ZeroArrivalExactly(bs: seq<Batch>)
    requires PositivePeriods(bs) && AllArrive(bs) && |bs| >= 2 && bs[0].tNow == 0.0
    ensures Increasing(AllStamps(bs)) <==> FollowsZero(bs[1])
    ensures FollowsZero(bs[1]) ==> Steady(ClockAfter(bs), AllStamps(bs)) && AllStamps(bs) != []
    decreases |bs|
  {
    hide Increasing, FollowsZero, Stamps, Tick;
    if |bs| == 2 {
      assert bs == [bs[0], bs[1]];
      TwoBatches(bs[0], bs[1]);
      StampsOfTwo(bs[0], bs[1]);
    } else {
      var pre, b := bs[..|bs| - 1], bs[|bs| - 1];
      assert pre[0] == bs[0] && pre[1] == bs[1];
      ZeroArrivalExactly(pre);
      if FollowsZero(bs[1]) { TickKeepsSteady(ClockAfter(pre), AllStamps(pre), b); }
      PrefixIncreases(AllStamps(pre), Stamps(ClockAfter(pre), b));
      SteadyIncreases(ClockAfter(bs), AllStamps(bs));
    }
  }

  lemma SteadyIncreases(c: Clock, s: seq<real>)
    requires s != []
    ensures Steady(c, s) ==> Increasing(s)
  {
  }

  lemma PrefixIncreases(s: seq<real>, t: seq<real>)
    ensures Increasing(s + t) ==> Increasing(s)
  {
    if Increasing(s + t) {
      forall i, j | 0 <= i < j < |s| ensures s[i] < s[j] { assert (s + t)[i] < (s + t)[j]; }
    }
  }

  /** The batches that bring samples. */
  function Arrived(bs: seq<Batch>): seq<Batch>
    decreases |bs|
  {
    if bs == [] then []
    else Arrived(bs[..|bs| - 1]) + if bs[|bs| - 1].vals == [] then [] else [bs[|bs| - 1]]
  }

  lemma {:induction false} EmptyBatchesIgnored(bs: seq<Batch>)
    requires PositivePeriods(bs)
    ensures var a := Arrived(bs);
            AllStamps(a) == AllStamps(bs) && ClockAfter(a) == ClockAfter(bs) && PositivePeriods(a) && AllArrive(a)
    decreases |bs|
  {
    hide Tick, Stamps, AllStamps, ClockAfter;
    if bs != [] {
      var pre, b := bs[..|bs| - 1], bs[|bs| - 1];
      EmptyBatchesIgnored(pre);
      var a := Arrived(pre);
      assert bs == pre + [b];
      StampsSnoc(pre, b);
      StampsSnoc(a, b);
      if b.vals == [] {
        EmptyTick(ClockAfter(pre), b);
        assert a + [] == a && AllStamps(pre) + [] == AllStamps(pre);
      }
    }
  }

  lemma StampsSnoc(bs: seq<Batch>, b: Batch)
    ensures AllStamps(bs + [b]) == AllStamps(bs) + Stamps(ClockAfter(bs), b)
    ensures ClockAfter(bs + [b]) == Tick(ClockAfter(bs), b)
  {
    hide Stamps, Tick;
    assert (bs + [b])[..|bs + [b]| - 1] == bs;
  }

  lemma EmptyTick(c: Clock, b: Batch)
    requires b.vals == []
    ensures Tick(c, b) == c && Stamps(c, b) == []
  {
  }

  /** Timestamps are strictly increasing within and across batches, for any run with any arrival times,
      if and only if the first batch that brings samples does not arrive at exactly time zero, or no
      other follows, or the next one follows it clear of zero. */
  lemma StampsIncreaseExactly(bs: seq<Batch>)
    requires PositivePeriods(bs)
    ensures var a := Arrived(bs);
            Increasing(AllStamps(bs)) <==> |a| < 2 || a[0].tNow != 0.0 || FollowsZero(a[1])
  {
    EmptyBatchesIgnored(bs);
    var a := Arrived(bs);
    if a == [] {} else if a[0].tNow != 0.0 { StampsIncrease(a); }
    else if |a| >= 2 { ZeroArrivalExactly(a); }
    else { OneBatch(a[0]); assert a == [a[0]]; }
    hide Arrived, FollowsZero;
  }

  lemma OneBatch(b: Batch)
    requires b.vals != [] && b.fallbackDt > 0.0
    ensures Increasing(AllStamps([b]))
  {
    assert [b][..0] == [];
    assert AllStamps([b]) == [] + Stamps(STOPPED, b);
    StartingStamps(STOPPED, b);
  }

  lemma JoinExactly(s: seq<real>, t: seq<real>)
    requires s != [] && t != [] && Increasing(s) && Increasing(t)
    ensures Increasing(s + t) <==> s[|s| - 1] < t[0]
  {
    assert (s + t)[|s| - 1] == s[|s| - 1] && (s + t)[|s|] == t[0];
    if s[|s| - 1] < t[0] {
      forall i | 0 <= i < |t| ensures s[|s| - 1] < t[i] { assert i > 0 ==> t[0] < t[i]; }
      JoinIncreasing(s, t);
    }
  }

  lemma StampsOfTwo(a: Batch, b: Batch)
    ensures AllStamps([a, b]) == Stamps(STOPPED, a) + Stamps(Tick(STOPPED, a), b)
  {
    assert [a, b][..1] == [a] && [a][..0] == [];
    assert ClockAfter([]) == STOPPED && ClockAfter([a]) == Tick(STOPPED, a);
    assert AllStamps([a]) == [] + Stamps(STOPPED, a);
    hide Stamps, Tick;
  }

  lemma ZeroSpreads(a: Batch, b: Batch)
    requires a.vals != [] && b.vals != [] && a.tNow == 0.0 && a.fallbackDt > 0.0 && b.fallbackDt > 0.0
    ensures var s, t := Stamps(STOPPED, a), Stamps(Tick(STOPPED, a), b);
            && Increasing(s) && s[|s| - 1] == 0.0
            && Increasing(t) && (0.0 < t[0] <==> FollowsZero(b)) && t[|t| - 1] == b.tNow
  {
    hide Increasing, Stamps;
    StartingStamps(STOPPED, a);
    StartingStamps(Tick(STOPPED, a), b);
  }

  lemma StartingStamps(c: Clock, b: Batch)
    requires c.tFirst == 0.0 && b.vals != [] && b.fallbackDt > 0.0
    ensures var t := Stamps(c, b);
            Increasing(t) && t[|t| - 1] == b.tNow && t[0] == b.tNow - (|b.vals| - 1) as real * b.fallbackDt
  {
    NewestIsLater(c, b);
    hide Spread, StampAt, Increasing;
    SpreadIncreases(Previous(c, b), b.tNow, |b.vals|);
    FirstSpread(b.tNow, |b.vals|, b.fallbackDt);
  }

  // ---- values --------------------------------------------------------------------------------

  /** The protocol sends signed channels as unsigned numbers. */
  function Signed(v: real, signMask: real, half: real): real {
    if signMask != 0.0 && v >= half then v - signMask else v
  }

  function SignedAll(vals: seq<real>, signMask: real, half: real): (r: seq<real>)
    ensures |r| == |vals| && forall i :: 0 <= i < |vals| ==> r[i] == Signed(vals[i], signMask, half)
  {
    seq(|vals|, i requires 0 <= i < |vals| => Signed(vals[i], signMask, half))
  }

  // ---- ring ----------------------------------------------------------------------------------

  function Somes<T>(s: seq<T>): (r: seq<Option<T>>)
    ensures |r| == |s| && forall i :: 0 <= i < |s| ==> r[i] == Some(s[i])
  {
    seq(|s|, i requires 0 <= i < |s| => Some(s[i]))
  }

  /** The buffer from its oldest entry: empty until the log is longer than it, then its end. */
  function Slots<T>(log: seq<T>, w: nat): (r: seq<Option<T>>)
    ensures |r| == w
  {
    seq(w, i requires 0 <= i < w => if |log| - w + i < 0 then None else Some(log[|log| - w + i]))
  }

  lemma SlotsAppend<T>(log: seq<T>, a: seq<T>, w: nat)
    ensures Slots(log + a, w) == (Slots(log, w) + Somes(a))[|a|..]
  {
    var l, r := Slots(log + a, w), (Slots(log, w) + Somes(a))[|a|..];
    forall i | 0 <= i < w ensures l[i] == r[i] {}
  }

  /** Content after writing `a` at `pos` in one or two slices. The second one may overwrite part of the
      first when the batch is longer than the buffer. */
  function Written<T>(r: seq<T>, pos: nat, a: seq<T>): seq<T>
    requires pos < |r| && pos + |a| <= 2 * |r|
  {
    if pos + |a| <= |r| then r[..pos] + a + r[pos + |a|..]
    else var f := |r| - pos; a[f..] + (r[..pos] + a[..f])[|a| - f..]
  }

  /** Where the next write starts. */
  function Next(pos: nat, k: nat, w: nat): nat
    requires pos < w && pos + k <= 2 * w
  {
    if pos + k < w then pos + k else if pos + k < 2 * w then pos + k - w else 0
  }

  lemma WrittenRotated<T>(r: seq<T>, pos: nat, a: seq<T>)
    requires pos < |r| && pos + |a| <= 2 * |r|
    ensures var w, next := Written(r, pos, a), Next(pos, |a|, |r|);
            |w| == |r| && w[next..] + w[..next] == (r[pos..] + r[..pos] + a)[|a|..]
  {
    var w := Written(r, pos, a);
    if pos + |a| < |r| {
      var next := pos + |a|;
      assert w[next..] == r[next..] && w[..next] == r[..pos] + a;
    } else if pos + |a| == |r| {
      assert w == r[..pos] + a && w[0..] == w;
    } else {
      WrittenAround(r, pos, a);
    }
  }

  lemma WrittenAround<T>(r: seq<T>, pos: nat, a: seq<T>)
    requires pos < |r| < pos + |a| <= 2 * |r|
    ensures var w, next := Written(r, pos, a), Next(pos, |a|, |r|);
            |w| == |r| && w[next..] + w[..next] == (r[pos..] + r[..pos] + a)[|a|..]
  {
    var f := |r| - pos;
    var p, q := a[f..], (r[..pos] + a[..f])[|a| - f..];
    assert Written(r, pos, a) == p + q;
    AroundEnd(r, pos, a);
    hide Written;
    Rotated(p, q, Next(pos, |a|, |r|));
    LastOfAll(r, pos, a);
  }

  lemma AroundEnd<T>(r: seq<T>, pos: nat, a: seq<T>)
    requires pos < |r| < pos + |a| <= 2 * |r|
    ensures var f := |r| - pos;
            var q := (r[..pos] + a[..f])[|a| - f..];
            |a[f..]| + |q| == |r| && Next(pos, |a|, |r|) == if q == [] then 0 else |a[f..]|
  {
  }

  lemma LastOfAll<T>(r: seq<T>, pos: nat, a: seq<T>)
    requires pos < |r| < pos + |a| <= 2 * |r|
    ensures var f := |r| - pos;
            (r[..pos] + a[..f])[|a| - f..] + a[f..] == (r[pos..] + r[..pos] + a)[|a|..]
  {
    var f := |r| - pos;
    var e := |a| - f;
    DropThenAppend(r[..pos] + a[..f], a[f..], e);
    Regroup(r[..pos], a, f);
    DropTwice(r[pos..], r[..pos] + a, e);
    assert r[pos..] + r[..pos] + a == r[pos..] + (r[..pos] + a);
  }

  lemma DropThenAppend<T>(p: seq<T>, q: seq<T>, e: nat)
    requires e <= |p|
    ensures p[e..] + q == (p + q)[e..]
  {
  }

  lemma Regroup<T>(p: seq<T>, a: seq<T>, f: nat)
    requires f <= |a|
    ensures p + a[..f] + a[f..] == p + a
  {
    assert a[..f] + a[f..] == a;
  }

  /** Reading two parts from the start of the second, or from the start when that is the end. */
  lemma Rotated<T>(p: seq<T>, q: seq<T>, next: nat)
    requires next == if q == [] then 0 else |p|
    ensures next <= |p + q| && (p + q)[next..] + (p + q)[..next] == q + p
  {
    if q == [] { assert p + q == p && q + p == p; }
  }

  lemma DropTwice<T>(p: seq<T>, q: seq<T>, e: nat)
    requires e <= |q|
    ensures (p + q)[|p| + e..] == q[e..]
  {
  }

  class Channel {
    const ring: array<Option<real>>
    const ts: array<Option<real>>
    const signMask: real
    const half: real
    const median: bool
    var med: seq<real>
    var head: nat
    var clock: Clock
    ghost var vals: seq<real>
    ghost var stamps: seq<real>

    ghost predicate Valid()
      reads this, ring, ts
    {
      && ring != ts && ring.Length == ts.Length == BUF_SAMPLES
      && head == |vals| == |stamps| && |med| <= TAPS
      && Chrono(ring[..], head % BUF_SAMPLES) == Slots(vals, BUF_SAMPLES)
      && Chrono(ts[..], head % BUF_SAMPLES) == Slots(stamps, BUF_SAMPLES)
    }

    constructor (signMask: real, half: real, median: bool)
      ensures Valid() && fresh(ring) && fresh(ts) && vals == [] && stamps == [] && clock == STOPPED && med == []
      ensures this.signMask == signMask && this.half == half && this.median == median
    {
      this.signMask, this.half, this.median, med := signMask, half, median, [];
      ring := new Option<real>[BUF_SAMPLES](_ => None);
      ts := new Option<real>[BUF_SAMPLES](_ => None);
      head, clock, vals, stamps := 0, STOPPED, [], [];
    }

    /** Appends samples that arrived together. A batch that would wrap around twice is a shape error in
        the source. */
    method AddBatch(b: Batch)
      requires Valid() && head % BUF_SAMPLES + |b.vals| <= 2 * BUF_SAMPLES
      modifies this, ring, ts
      ensures Valid() && clock == Tick(old(clock), b)
      ensures var a := SignedAll(b.vals, signMask, half);
              && vals == old(vals) + (if median then Filtered(old(med), a) else a)
              && med == if median then Median.Last(old(med) + a, TAPS) else old(med)
      ensures stamps == old(stamps) + Stamps(old(clock), b)
    {
      hide Stamps, Tick, Slots, Chrono, SignedAll, Filtered, Median.Last, Next;
      var k := |b.vals|;
      if k == 0 {
        NothingAdded(clock, b, vals, stamps, signMask, half, med, median);
        return;
      }
      var a := SignedAll(b.vals, signMask, half);
      if median { a := Prefilter(a); }
      var t := Recover(b);
      var pos := head % BUF_SAMPLES;
      NextPos(head, k);
      WriteRing(ring, pos, a, vals);
      WriteRing(ts, pos, t, stamps);
      head := head + k;
      vals := vals + a;
      stamps := stamps + t;
    }

    /** The spike filter: every sample is replaced by the median of the deque it is appended to. */
    method Prefilter(a: seq<real>) returns (r: seq<real>)
      requires |med| <= TAPS
      modifies this`med
      ensures r == Filtered(old(med), a) && med == Median.Last(old(med) + a, TAPS) && |med| <= TAPS
    {
      hide Median.MedianOf;
      ghost var before := med;
      r := [];
      assert before + [] == before;
      for j := 0 to |a|
        invariant r == Filtered(before, a[..j])
        invariant med == Median.Last(before + a[..j], TAPS)
      {
        assert a[..j + 1] == a[..j] + [a[j]];
        assert before + a[..j + 1] == (before + a[..j]) + [a[j]];
        FilteredNext(before, a[..j], a[j]);
        LastAppend(before + a[..j], [a[j]], TAPS);
        med := Median.Last(med + [a[j]], TAPS);
        r := r + [Median.MedianOf(med)];
      }
      assert a[..|a|] == a;
    }

    /** The clock recovery: moves the clock on and returns the samples' stamps. */
    method Recover(b: Batch) returns (t: seq<real>)
      requires b.vals != []
      modifies this`clock
      ensures clock == Tick(old(clock), b) && t == Stamps(old(clock), b)
    {
      var k := |b.vals| as real;
      var tFirst, dt, last, tPrev := clock.tFirst, clock.dt, clock.last, clock.tPrev;
      var prev: real;
      if tFirst == 0.0 {
        tFirst := b.tNow;
        dt := b.fallbackDt;
        tPrev := b.tNow;
        prev := b.tNow - k * dt;
        last := b.tNow;
      } else {
        var gap := b.tNow - tPrev;
        tPrev := b.tNow;
        if gap > 0.0 { dt := dt + 0.1 * (gap / k - dt); }
        prev := last;
        var naive := last + k * dt;
        last := naive + 0.2 * (b.tNow - naive);
        if last <= prev { last := prev + k * dt; }
      }
      assert prev == Previous(clock, b) && last == Newest(clock, b);
      clock := Clock(tFirst, dt, last, tPrev);
      t := Spread(prev, last, |b.vals|);
    }

    /** Newest k samples, oldest first, with their timestamps. */
    method Recent(k: nat) returns (v: seq<Option<real>>, t: seq<Option<real>>)
      requires Valid()
      ensures var n := if k < |vals| then k else |vals|;
              var m := if n < BUF_SAMPLES then n else BUF_SAMPLES;
              v == Somes(vals[|vals| - m..]) && t == Somes(stamps[|stamps| - m..])
    {
      var n := if head < BUF_SAMPLES then head else BUF_SAMPLES;
      var m := if k < n then k else n;
      var pos := head % BUF_SAMPLES;
      v := RecentSlice(ring[..], pos, m, vals);
      t := RecentSlice(ts[..], pos, m, stamps);
    }

    /** The whole buffer, oldest first; the front is empty until it has filled. */
    method Ordered() returns (v: seq<Option<real>>)
      requires Valid()
      ensures v == Slots(vals, BUF_SAMPLES)
    {
      var p := head % BUF_SAMPLES;
      v := ring[p..] + ring[..p];
      assert ring[p..] == ring[..][p..] && ring[..p] == ring[..][..p];
    }

    method Clear()
      requires Valid()
      modifies this, ring, ts
      ensures Valid() && vals == [] && stamps == [] && clock == STOPPED && med == []
    {
      med := [];
      forall i | 0 <= i < ring.Length { ring[i] := None; }
      forall i | 0 <= i < ts.Length { ts[i] := None; }
      head, clock, vals, stamps := 0, STOPPED, [], [];
    }
  }

  /** The ring read from position p around. */
  function Chrono<T>(r: seq<T>, p: nat): seq<T>
    requires p <= |r|
  {
    r[p..] + r[..p]
  }

  lemma NextPos(head: nat, k: nat)
    requires head % BUF_SAMPLES + k <= 2 * BUF_SAMPLES
    ensures (head + k) % BUF_SAMPLES == Next(head % BUF_SAMPLES, k, BUF_SAMPLES)
  {
  }

  lemma NothingAdded(c: Clock, b: Batch, vals: seq<real>, stamps: seq<real>, signMask: real, half: real,
                     med: seq<real>, median: bool)
    requires b.vals == [] && |med| <= TAPS
    ensures Tick(c, b) == c && stamps + Stamps(c, b) == stamps
    ensures var a := SignedAll(b.vals, signMask, half);
            vals + (if median then Filtered(med, a) else a) == vals && Median.Last(med + a, TAPS) == med
  {
  }

  /** Slice assignment `buf[pos:pos+|a|] = a`. */
  method WriteSlice(buf: array<Option<real>>, pos: nat, a: seq<real>)
    requires pos + |a| <= buf.Length
    modifies buf
    ensures buf[..] == old(buf[..])[..pos] + Somes(a) + old(buf[..])[pos + |a|..]
  {
    for i := 0 to |a|
      invariant forall j :: 0 <= j < i ==> buf[pos + j] == Some(a[j])
      invariant forall j :: 0 <= j < pos || pos + i <= j < buf.Length ==> buf[j] == old(buf[j])
    {
      buf[pos + i] := Some(a[i]);
    }
  }

  method WriteRing(buf: array<Option<real>>, pos: nat, a: seq<real>, ghost log: seq<real>)
    requires buf.Length == BUF_SAMPLES && pos < BUF_SAMPLES && pos + |a| <= 2 * BUF_SAMPLES
    requires Chrono(buf[..], pos) == Slots(log, BUF_SAMPLES)
    modifies buf
    ensures Chrono(buf[..], Next(pos, |a|, BUF_SAMPLES)) == Slots(log + a, BUF_SAMPLES)
  {
    ghost var r := buf[..];
    var end := pos + |a|;
    hide Slots, Written, Somes, Chrono, Next;
    if end <= BUF_SAMPLES {
      WriteSlice(buf, pos, a);
      WrittenOnce(r, pos, a);
    } else {
      WriteAround(buf, pos, a);
    }
    ChronoWritten(r, pos, Somes(a));
    SlotsAppend(log, a, BUF_SAMPLES);
  }

  /** The two slices of a batch that reaches the end of the buffer. */
  method WriteAround(buf: array<Option<real>>, pos: nat, a: seq<real>)
    requires pos < buf.Length < pos + |a| <= 2 * buf.Length
    modifies buf
    ensures buf[..] == Written(old(buf[..]), pos, Somes(a))
  {
    hide Written, Somes;
    ghost var r := buf[..];
    var f := buf.Length - pos;
    WriteSlice(buf, pos, a[..f]);
    ghost var first := buf[..];
    WriteSlice(buf, 0, a[f..]);
    WrittenTwice(r, first, pos, a);
  }

  lemma ChronoWritten<T>(r: seq<T>, pos: nat, a: seq<T>)
    requires pos < |r| && pos + |a| <= 2 * |r|
    ensures var w, next := Written(r, pos, a), Next(pos, |a|, |r|);
            |w| == |r| && Chrono(w, next) == (Chrono(r, pos) + a)[|a|..]
  {
    WrittenRotated(r, pos, a);
  }

  lemma WrittenOnce(r: seq<Option<real>>, pos: nat, a: seq<real>)
    requires pos < |r| && pos + |a| <= |r|
    ensures Written(r, pos, Somes(a)) == r[..pos] + Somes(a) + r[pos + |a|..]
  {
  }

  lemma WrittenTwice(r: seq<Option<real>>, first: seq<Option<real>>, pos: nat, a: seq<real>)
    requires pos < |r| < pos + |a| <= 2 * |r|
    requires first == r[..pos] + Somes(a[..|r| - pos]) + r[|r|..]
    ensures Somes(a[|r| - pos..]) + first[pos + |a| - |r|..] == Written(r, pos, Somes(a))
  {
    var f := |r| - pos;
    assert Somes(a)[f..] == Somes(a[f..]) && Somes(a)[..f] == Somes(a[..f]);
    assert first == r[..pos] + Somes(a)[..f];
  }

  // ---- spike filter --------------------------------------------------------------------------

  const TAPS: nat := 5

  /** Each sample of `a` replaced by the median of the five samples up to it, `before` included. */
  function Filtered(before: seq<real>, a: seq<real>): (r: seq<real>)
    ensures |r| == |a|
  {
    if a == [] then []
    else Filtered(before, a[..|a| - 1]) + [Median.MedianOf(Median.Last(before + a, TAPS))]
  }

  /** What the filter yields for sample k: the median of that sample and the up to four before it. */
  lemma {:induction false} FilteredIsMedian(h: seq<real>, a: seq<real>, k: nat)
    requires k < |a|
    ensures OrderStatistics.IsMedian(Median.Last(h + a[..k + 1], 5), Filtered(h, a)[k])
    decreases |a|
  {
    hide Median.MedianOf, OrderStatistics.IsMedian;
    var pre := a[..|a| - 1];
    if k < |pre| {
      assert a[..k + 1] == pre[..k + 1];
      FilteredIsMedian(h, pre, k);
    } else {
      assert a[..k + 1] == a;
      Median.MedianOfIsMedian(Median.Last(h + a, TAPS));
    }
  }

  lemma LastAppend(h: seq<real>, a: seq<real>, w: nat)
    ensures Median.Last(Median.Last(h, w) + a, w) == Median.Last(h + a, w)
  {
  }

  /** Where the stream is cut into batches does not matter: filtering the next batch with what the deque
      holds continues the filtering of the whole. */
  lemma {:induction false} FilterStreams(h: seq<real>, a: seq<real>, b: seq<real>)
    ensures Filtered(h, a + b) == Filtered(h, a) + Filtered(Median.Last(h + a, TAPS), b)
    decreases |b|
  {
    hide Median.MedianOf, Median.Last;
    if b == [] {
      assert a + b == a;
      assert Filtered(h, a) + [] == Filtered(h, a);
    } else {
      var pre, x := b[..|b| - 1], b[|b| - 1];
      FilterStreams(h, a, pre);
      assert a + b == (a + pre) + [x] && b == pre + [x];
      FilteredNext(h, a + pre, x);
      LastAppend(h + a, b, TAPS);
      assert h + ((a + pre) + [x]) == h + a + b;
      FilteredNext(Median.Last(h + a, TAPS), pre, x);
      hide Filtered;
    }
  }

  lemma FilteredNext(before: seq<real>, a: seq<real>, x: real)
    ensures Filtered(before, a + [x]) == Filtered(before, a) + [Median.MedianOf(Median.Last(before + (a + [x]), TAPS))]
  {
    assert (a + [x])[..|a + [x]| - 1] == a;
  }

  /** The last m entries before position pos, in one or two slices. */
  function RecentSlice(r: seq<Option<real>>, pos: nat, m: nat, ghost log: seq<real>): (v: seq<Option<real>>)
    requires pos < |r| && m <= |r| && m <= |log|
    requires Chrono(r, pos) == Slots(log, |r|)
    ensures v == Somes(log[|log| - m..])
  {
    var v := if m <= pos then r[pos - m..pos] else r[|r| - (m - pos)..] + r[..pos];
    assert v == Chrono(r, pos)[|r| - m..];
    assert forall i :: 0 <= i < m ==> v[i] == Slots(log, |r|)[|r| - m + i];
    v
  }

  /** Two's complement: the signed value is the one in range that agrees modulo the word. */
  lemma SignedIsTwosComplement(v: nat, half: nat)
    requires v < 2 * half
    ensures var s := Signed(v as real, (2 * half) as real, half as real);
            -(half as real) <= s < half as real && (s == v as real || s == (v - 2 * half) as real)
  {
  }
}
