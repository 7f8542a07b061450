/** Poll schedule of a muxed ADC (src/adc/sampling.h): the interleaved order, the rate each sensor
    gets from it, and which sensor a conversion is credited to. */
module Sampling {

  datatype Option<T> = None | Some(value: T)

  /** Conversion to `uint8_t`. */
  function U8(x: int): nat { x % 256 }

  // ---- the order -----------------------------------------------------------------------------

  function Length(n: nat): (m: nat)
    ensures n > 0 ==> m > 0
  {
    if n > 2 then 2 * (n - 1) else n
  }

  /** Poll order of n sensors: the last one is interleaved between the others. */
  function Order(n: nat): (order: seq<nat>)
    ensures |order| == Length(n)
    ensures forall j :: 0 <= j < |order| ==> order[j] < n
  {
    if n > 2 then seq(2 * (n - 1), j requires 0 <= j < 2 * (n - 1) => if j % 2 == 0 then j / 2 else n - 1)
    else seq(n, j requires 0 <= j < n => j)
  }

  /** The position is a uint8_t: it wraps at 256 even when the order is longer. */
  function NextPos(n: nat, pos: nat): nat
    requires n > 0
  {
    U8((pos + 1) % Length(n))
  }

  /** Position before poll k. */
  function PosAt(n: nat, k: nat): (pos: nat)
    requires n > 0
    ensures pos < Length(n)
    decreases k
  {
    if k == 0 then 0
    else
      var q := (PosAt(n, k - 1) + 1) % Length(n);
      assert U8(q) <= q;
      NextPos(n, PosAt(n, k - 1))
  }

  /** Sensor that poll k samples. */
  function Visit(n: nat, k: nat): (i: nat)
    requires n > 0
    ensures i < n
  {
    Order(n)[PosAt(n, k)]
  }

  lemma PosNext(n: nat, k: nat)
    requires n > 0
    ensures PosAt(n, k + 1) == U8((PosAt(n, k) + 1) % Length(n)) < |Order(n)|
  {
  }

  /** An order of at most 256 entries is walked cyclically. */
  lemma {:induction false} PosIsCyclic(n: nat, k: nat)
    requires 0 < n && Length(n) <= 256
    ensures PosAt(n, k) == k % Length(n)
  {
    hide Length, NextPos;
    if k == 0 { SmallMod(0, Length(n)); } else {
      PosIsCyclic(n, k - 1);
      NextIsCyclic(n, PosAt(n, k - 1));
      Following(PosAt(n, k - 1), k, Length(n));
    }
  }

  lemma NextIsCyclic(n: nat, pos: nat)
    requires 0 < n && Length(n) <= 256
    ensures NextPos(n, pos) == (pos + 1) % Length(n)
  {
  }

  lemma NextModulo(k: nat, m: nat)
    requires m > 0
    ensures (k + 1) % m == (k % m + 1) % m
  {
    var q, r := k / m, k % m;
    assert k == q * m + r && r < m;
    if r + 1 < m {
      SmallMod(r + 1, m);
      DivModUnique(k + 1, m, q, r + 1);
    } else {
      NextMultiple(q, m);
      DivModUnique(k + 1, m, q + 1, 0);
      DivModUnique(m, m, 1, 0);
    }
  }

  lemma Following(p: nat, k: nat, m: nat)
    requires 0 < m && 0 < k && p == (k - 1) % m
    ensures (p + 1) % m == k % m
  {
    NextModulo(k - 1, m);
  }

  lemma NextMultiple(q: nat, m: nat)
    ensures (q + 1) * m == q * m + m
  {
  }

  lemma DivModUnique(x: nat, m: nat, q: nat, r: nat)
    requires x == q * m + r && r < m
    ensures x / m == q && x % m == r
  {
    var q', r' := x / m, x % m;
    assert x == q' * m + r' && r' < m;
    if q' < q { ScaleMonotone(q' + 1, q, m); }
    if q < q' { ScaleMonotone(q + 1, q', m); }
  }

  lemma ScaleMonotone(a: nat, b: nat, m: nat)
    requires a <= b
    ensures a * m <= b * m
  {
  }

  lemma PosNone(n: nat)
    requires n > 0
    ensures PosAt(n, 0) == 0
  {
  }

  /** A longer one is walked only over its first 256 entries. */
  lemma {:induction false} PosWrapsAt256(n: nat, k: nat)
    requires n > 129
    ensures PosAt(n, k) == k % 256
  {
    hide PosAt;
    if k == 0 { PosNone(n); } else {
      PosWrapsAt256(n, k - 1);
      PosNext(n, k - 1);
      Following(PosAt(n, k - 1), k, 256);
      var p := PosAt(n, k - 1) + 1;
      if p < Length(n) { SmallMod(p, Length(n)); }
    }
  }

  lemma SmallMod(x: nat, m: nat)
    requires x < m
    ensures x % m == x
  {
  }

  /** For 3 to 129 sensors: the last one is polled every second time, so its latency is two polls,
      and each other one once per 2(n-1) polls. */
  lemma InterleavedSchedule(n: nat, k: nat, i: nat)
    requires 3 <= n <= 129 && i < n
    ensures Visit(n, k) == i <==> if i == n - 1 then k % 2 == 1 else k % (2 * (n - 1)) == 2 * i
  {
    PosIsCyclic(n, k);
    ParityOfMod(k, n - 1);
    EntryOfOrder(n, PosAt(n, k), i);
    hide Order, PosAt;
  }

  lemma EntryOfOrder(n: nat, j: nat, i: nat)
    requires n > 2 && j < Length(n) && i < n
    ensures Order(n)[j] == i <==> if i == n - 1 then j % 2 == 1 else j == 2 * i
  {
    assert Order(n)[j] == if j % 2 == 0 then j / 2 else n - 1;
  }

  lemma ParityOfMod(k: nat, h: nat)
    requires h > 0
    ensures (k % (2 * h)) % 2 == k % 2
  {
    var m := 2 * h;
    var q, r := k / m, k % m;
    assert k == q * m + r;
    assert q * m == 2 * (q * h);
  }

  /** Every sensor is polled at some time exactly up to 129 of them: beyond that the position wraps
      before it reaches the end of the order, and from 256 on the sensor count has wrapped as well. */
  lemma AllPolledExactly(size: nat)
    requires U8(size) > 0
    ensures (forall i :: 0 <= i < size ==> IsPolled(U8(size), i)) <==> size <= 129
  {
    var n := U8(size);
    if size <= 129 {
      forall i | 0 <= i < size ensures IsPolled(n, i) { ShortOrderPolls(n, i); }
    } else if size < 256 {
      forall k: nat ensures Visit(n, k) != 128 { PosWrapsAt256(n, k); }
      assert !IsPolled(n, 128);
    } else {
      assert !IsPolled(n, size - 1);
    }
  }

  ghost predicate IsPolled(n: nat, i: nat)
    requires n > 0
  {
    exists k: nat :: Visit(n, k) == i
  }

  lemma ShortOrderPolls(n: nat, i: nat)
    requires 0 < n <= 129 && i < n
    ensures IsPolled(n, i)
  {
    var k := if n <= 2 then i else if i == n - 1 then 1 else 2 * i;
    PosIsCyclic(n, k);
    assert k < Length(n);
    SmallMod(k, Length(n));
    if n > 2 { EntryOfOrder(n, k, i); }
    hide PosAt;
    assert Order(n)[k] == i;
    assert Visit(n, k) == i;
  }

  // ---- rates ---------------------------------------------------------------------------------

  function Appearances(order: seq<nat>, i: nat): nat
    decreases |order|
  {
    if order == [] then 0
    else Appearances(order[..|order| - 1], i) + if order[|order| - 1] == i then 1 else 0
  }

  /** Polls of sensor i among the k polls from poll a. */
  function Polls(n: nat, i: nat, a: nat, k: nat): nat
    requires n > 0
    decreases k
  {
    if k == 0 then 0 else Polls(n, i, a, k - 1) + if Visit(n, a + k - 1) == i then 1 else 0
  }

  lemma {:induction false} FirstCycle(n: nat, i: nat, k: nat)
    requires 0 < n <= 129 && k <= Length(n)
    ensures Polls(n, i, 0, k) == Appearances(Order(n)[..k], i)
  {
    hide Order, Visit, Appearances;
    if k > 0 {
      FirstCycle(n, i, k - 1);
      FirstCycleVisit(n, k - 1);
      AppearancesNext(Order(n), i, k - 1);
    } else { NoAppearances(Order(n)[..0], i); }
  }

  lemma FirstCycleVisit(n: nat, k: nat)
    requires 0 < n <= 129 && k < Length(n)
    ensures Visit(n, k) == Order(n)[k]
  {
    PosIsCyclic(n, k);
    SmallMod(k, Length(n));
    hide Order, PosAt;
  }

  lemma NoAppearances(order: seq<nat>, i: nat)
    requires order == []
    ensures Appearances(order, i) == 0
  {
  }

  lemma {:induction false} DropFirstPoll(n: nat, i: nat, a: nat, k: nat)
    requires n > 0 && k > 0
    ensures Polls(n, i, a, k) == Polls(n, i, a + 1, k - 1) + if Visit(n, a) == i then 1 else 0
    decreases k
  {
    if k > 1 {
      DropFirstPoll(n, i, a, k - 1);
    }
  }

  /** However long the ADC has been running, one cycle of polls samples a sensor as often as it
      appears in the order. */
  lemma {:induction false} PollsPerCycle(n: nat, i: nat, a: nat)
    requires 0 < n <= 129
    ensures Polls(n, i, a, Length(n)) == Appearances(Order(n), i)
    decreases a
  {
    var m := Length(n);
    hide Order, Visit, Appearances;
    if a == 0 {
      FirstCycle(n, i, m);
      assert Order(n)[..m] == Order(n);
    } else {
      PollsPerCycle(n, i, a - 1);
      VisitsRepeat(n, a - 1);
      SlideWindow(n, i, a - 1, m);
    }
  }

  lemma SlideWindow(n: nat, i: nat, a: nat, m: nat)
    requires n > 0 && Visit(n, a + m) == Visit(n, a)
    ensures Polls(n, i, a + 1, m) == Polls(n, i, a, m)
  {
    hide Visit;
    DropFirstPoll(n, i, a, m + 1);
    assert Polls(n, i, a, m + 1) == Polls(n, i, a, m) + if Visit(n, a + m) == i then 1 else 0;
  }

  lemma VisitsRepeat(n: nat, k: nat)
    requires 0 < n <= 129
    ensures Visit(n, k + Length(n)) == Visit(n, k)
  {
    var m := Length(n);
    PosIsCyclic(n, k);
    PosIsCyclic(n, k + m);
    hide PosAt, Order;
    ModuloRepeats(k, m);
  }

  lemma ModuloRepeats(k: nat, m: nat)
    requires m > 0
    ensures (k + m) % m == k % m
  {
    var q, r := k / m, k % m;
    assert k == q * m + r;
    DivModUnique(k + m, m, q + 1, r);
  }

  /** How often each sensor appears. */
  lemma {:induction false} AppearancesUpTo(n: nat, i: nat, k: nat)
    requires n > 2 && i < n && k <= 2 * (n - 1)
    ensures Appearances(Order(n)[..k], i) == if i == n - 1 then k / 2 else if k > 2 * i then 1 else 0
  {
    if k > 0 {
      AppearancesUpTo(n, i, k - 1);
      assert Order(n)[..k][..k - 1] == Order(n)[..k - 1];
    }
  }

  lemma InterleavedAppearances(n: nat, i: nat)
    requires n > 2 && i < n
    ensures Appearances(Order(n), i) == if i == n - 1 then n - 1 else 1
  {
    AppearancesUpTo(n, i, 2 * (n - 1));
    assert Order(n)[..2 * (n - 1)] == Order(n);
  }

  /** Rate of sensor i of `size` when the ADC reports the rate fs for a uniform rotation. The order is
      built for the sensor count as a uint8_t. */
  function Rate(fs: real, size: nat, i: nat): real
    requires U8(size) > 0
  {
    Share(Total(fs, size), Appearances(Order(U8(size)), i), Length(U8(size)))
  }

  /** Conversions per second of an ADC whose uniform rate is fs. */
  function Total(fs: real, n: nat): real { fs * n as real }

  /** `app` of every `len` conversions at rate x. */
  function Share(x: real, app: nat, len: nat): real
    requires len > 0
  {
    x * app as real / len as real
  }

  function TotalAppearances(order: seq<nat>, n: nat): nat {
    if n == 0 then 0 else TotalAppearances(order, n - 1) + Appearances(order, n - 1)
  }

  lemma {:induction false} TotalOfLast(order: seq<nat>, n: nat)
    requires order != []
    ensures TotalAppearances(order, n)
            == TotalAppearances(order[..|order| - 1], n) + if order[|order| - 1] < n then 1 else 0
    decreases n
  {
    if n > 0 { TotalOfLast(order, n - 1); }
  }

  lemma {:induction false} EveryEntryCounts(order: seq<nat>, n: nat)
    requires forall j :: 0 <= j < |order| ==> order[j] < n
    ensures TotalAppearances(order, n) == |order|
    decreases |order|
  {
    if order == [] { NothingAppears(n); } else {
      EveryEntryCounts(order[..|order| - 1], n);
      TotalOfLast(order, n);
    }
  }

  lemma {:induction false} NothingAppears(n: nat)
    ensures TotalAppearances([], n) == 0
  {
    if n > 0 { NothingAppears(n - 1); }
  }

  function TotalRate(fs: real, size: nat, k: nat): real
    requires U8(size) > 0 && k <= size
  {
    if k == 0 then 0.0 else TotalRate(fs, size, k - 1) + Rate(fs, size, k - 1)
  }

  function Times(x: real, k: nat): real { x * k as real }

  lemma {:induction false} TotalRateUpTo(fs: real, size: nat, k: nat)
    requires U8(size) > 0 && k <= size
    ensures var n := U8(size);
            Times(TotalRate(fs, size, k), Length(n)) == Times(Total(fs, size), TotalAppearances(Order(n), k))
  {
    if k > 0 {
      TotalRateUpTo(fs, size, k - 1);
      hide Share, Appearances, Total, Order, Length, Times;
      var n := U8(size);
      AddShare(Total(fs, size), Length(n), TotalRate(fs, size, k - 1),
               TotalAppearances(Order(n), k - 1), Appearances(Order(n), k - 1));
    }
  }

  lemma AddShare(x: real, m: nat, rate: real, total: nat, a: nat)
    requires m > 0 && Times(rate, m) == Times(x, total)
    ensures Times(rate + Share(x, a, m), m) == Times(x, total + a)
  {
    var share, n := Share(x, a, m), m as real;
    assert share * n == x * a as real;
    assert (rate + share) * n == rate * n + share * n;
    assert (total + a) as real == total as real + a as real;
    assert x * (total as real + a as real) == x * total as real + x * a as real;
  }

  /** Interleaving only redistributes conversions: the rates of all sensors add up to as many uniform
      rates as there are sensors. */
  lemma RatesAddUp(fs: real, size: nat)
    requires U8(size) > 0
    ensures TotalRate(fs, size, size) == Total(fs, size)
  {
    var n := U8(size);
    TotalRateUpTo(fs, size, size);
    EveryEntryCounts(Order(n), size);
    hide *;
    CancelFactor(TotalRate(fs, size, size), Total(fs, size), Length(n));
  }

  lemma CancelFactor(a: real, b: real, m: nat)
    requires m > 0 && Times(a, m) == Times(b, m)
    ensures a == b
  {
    assert (a - b) * m as real == 0.0;
  }

  /** Rates of an interleaved ADC: n/2 uniform rates for the last sensor, n/(2(n-1)) for the rest. */
  lemma InterleavedRates(fs: real, n: nat, i: nat)
    requires 2 < n < 256 && i < n
    ensures Rate(fs, n, i) == if i == n - 1 then Total(fs, n) / 2.0 else Total(fs, n) / (2 * (n - 1)) as real
  {
    SmallMod(n, 256);
    InterleavedAppearances(n, i);
    hide Order, Appearances;
    hide Total;
    var x, h := Total(fs, n), (n - 1) as real;
    assert Length(n) as real == 2.0 * h;
    if i == n - 1 { HalfOf(x, h); }
  }

  lemma HalfOf(x: real, h: real)
    requires h > 0.0
    ensures x * h / (2.0 * h) == x / 2.0
  {
    assert x / 2.0 * (2.0 * h) == x * h;
  }

  // ---- the sampler ---------------------------------------------------------------------------

  datatype Outcome = NoNewData | NewData | Calibrating | CalibFailure | AdcError

  /** A conversion: sensor it was added to, channel the ADC had last been told to convert, and the
      value (None for a NaN, which is dropped). */
  datatype Credit = Credit(sensor: nat, channel: nat, value: Option<real>)

  /** State of one muxed ADC: `channels[i]` is the channel of the i-th sensor added, `started` the
      channel last passed to startReading(). */
  class MuxedAdc {
    var channels: seq<nat>
    var order: seq<nat>
    var pos: nat
    var started: Option<nat>
    ghost var credits: seq<Credit>

    /** Before begin(). */
    ghost predicate Configuring()
      reads this
    {
      order == [] && credits == []
    }

    /** While running: the pending conversion is the one the schedule asks for, and every earlier one
        was of the channel of the sensor it was credited to. */
    ghost predicate Running()
      reads this
    {
      && U8(|channels|) > 0
      && order == Order(U8(|channels|))
      && pos == PosAt(U8(|channels|), |credits|)
      && started == Some(channels[order[pos]])
      && forall k :: 0 <= k < |credits| ==>
           credits[k].sensor == Visit(U8(|channels|), k) && credits[k].channel == channels[credits[k].sensor]
    }

    constructor ()
      ensures Configuring() && channels == []
    {
      channels, order, pos, started, credits := [], [], 0, None, [];
    }

    method AddSensor(channel: nat)
      requires Configuring()
      modifies this
      ensures Configuring() && channels == old(channels) + [channel]
    {
      channels := channels + [channel];
    }

    method BuildCycleOrder()
      modifies this`order
      ensures order == Order(U8(|channels|))
    {
      order := [];
      var n := U8(|channels|);
      if n > 2 {
        var vout := n - 1;
        var i := 0;
        while i < vout
          invariant 0 <= i <= vout
          invariant order == Order(n)[..2 * i]
        {
          order := order + [i];
          order := order + [vout];
          i := i + 1;
        }
      } else {
        var i := 0;
        while i < n
          invariant 0 <= i <= n
          invariant order == Order(n)[..i]
        {
          order := order + [i];
          i := i + 1;
        }
      }
    }

    /** False is the assertion that there are sensors to cycle. A multiple of 256 sensors would make the
        source read the first entry of an empty order. */
    method Begin() returns (ok: bool)
      requires Configuring() && (channels == [] || U8(|channels|) > 0)
      modifies this
      ensures ok == (channels != [])
      ensures channels == old(channels)
      ensures ok ==> Running() && credits == []
      ensures !ok ==> Configuring() && started == old(started)
    {
      if channels == [] {
        return false;
      }
      BuildCycleOrder();
      pos := 0;
      started := Some(channels[order[0]]);
      return true;
    }

    /** `fs` is the uniform rate the ADC reports; `ps` the index of the sensor. */
    method EffectiveSampleRate(fs: real, ps: nat) returns (rate: real)
      requires Running() && ps < |channels|
      ensures rate == Rate(fs, |channels|, ps)
    {
      hide Share, Total, Order, PosAt, Visit, Appearances;
      rate := fs;
      if order != [] {
        var app := CountAppearances(ps);
        rate := Share(Total(fs, |channels|), app, |order|);
      }
    }

    method CountAppearances(ps: nat) returns (app: nat)
      requires Running() && ps < |channels|
      ensures app == Appearances(order, ps)
    {
      hide Order, PosAt, Visit;
      app := 0;
      var k := 0;
      while k < |order|
        invariant 0 <= k <= |order|
        invariant app == Appearances(order[..k], ps) && app <= 254
      {
        AppearancesNext(order, ps, k);
        AppearancesBelow255(U8(|channels|), ps, k + 1);
        if order[k] == ps {
          app := U8(app + 1);
        }
        k := k + 1;
      }
      assert order[..k] == order;
    }

    /** One poll. `good`, `hasData` and `x` come from the ADC; `calib` is what the sensor's
        calibration makes of the sample, `calibrating` the sampler's flag. */
    method UpdateAdc(good: bool, hasData: bool, x: Option<real>, calib: Outcome, calibrating: bool)
      returns (res: Outcome)
      requires Running()
      modifies this
      ensures Running() && channels == old(channels) && order == old(order)
      ensures !good ==> res == AdcError
      ensures good && !hasData ==> res == NoNewData
      ensures !good || !hasData ==> credits == old(credits) && pos == old(pos) && started == old(started)
      ensures good && hasData ==>
                && credits == old(credits) + [Credit(Visit(U8(|channels|), |old(credits)|), old(started).value, x)]
                && res == if x == None then CalibFailure else if calib != NoNewData then calib
                          else if calibrating then Calibrating else NewData
    {
      if !good { return AdcError; }
      if !hasData { return NoNewData; }
      Advance(x);
      res := if x == None then CalibFailure else calib;
      if res != NoNewData { return res; }
      return if calibrating then Calibrating else NewData;
    }

    /** Credits a sample to the sensor of the pending conversion and starts the next one. */
    method Advance(x: Option<real>)
      requires Running()
      modifies this
      ensures Running() && channels == old(channels) && order == old(order)
      ensures credits == old(credits) + [Credit(Visit(U8(|channels|), |old(credits)|), old(started).value, x)]
    {
      hide Order, PosAt, Length, U8;
      U8AtMost(|channels|);
      PosNext(U8(|channels|), |credits|);
      var sensor := order[pos];
      credits := credits + [Credit(sensor, started.value, x)];
      pos := U8((pos + 1) % |order|);
      started := Some(channels[order[pos]]);
    }
  }

  lemma U8AtMost(n: nat)
    ensures U8(n) <= n
  {
  }

  lemma AppearancesNext(order: seq<nat>, i: nat, k: nat)
    requires k < |order|
    ensures Appearances(order[..k + 1], i) == Appearances(order[..k], i) + if order[k] == i then 1 else 0
  {
    assert order[..k + 1][..k] == order[..k];
  }

  lemma AppearancesBelow255(n: nat, i: nat, k: nat)
    requires 0 < n < 256 && k <= Length(n)
    ensures Appearances(Order(n)[..k], i) <= 254
  {
    if i >= n { NoneBeyond(Order(n)[..k], i, n); }
    else if n > 2 { AppearancesUpTo(n, i, k); } else { FewAppearances(Order(n)[..k], i); }
  }

  /** A sensor beyond the counted ones does not appear. */
  lemma {:induction false} NoneBeyond(order: seq<nat>, i: nat, n: nat)
    requires i >= n && forall j :: 0 <= j < |order| ==> order[j] < n
    ensures Appearances(order, i) == 0
    decreases |order|
  {
    if order != [] { NoneBeyond(order[..|order| - 1], i, n); }
  }

  lemma {:induction false} FewAppearances(order: seq<nat>, i: nat)
    ensures Appearances(order, i) <= |order|
    decreases |order|
  {
    if order != [] { FewAppearances(order[..|order| - 1], i); }
  }
}
