/** Along any sequence of update() calls: when exactly the latch sets and clears, and what a release
    on depth of discharge means. */
module ChargerTermination {
  import opened Numbers
  import opened Charger

  /** State after the first n calls. */
  function After(p: Params, us: seq<Call>, n: nat): Term
    requires p.tail > 0.0 && n <= |us|
  {
    if n == 0 then ResetTerm(p) else TermUpdate(p, After(p, us, n - 1), us[n - 1])
  }

  /** v_term never leaves the band between the float and the end-of-charge voltage. */
  lemma TermVoltageInBand(p: Params, us: seq<Call>, n: nat)
    requires ValidParams(p) && n <= |us|
    ensures p.cvMin <= After(p, us, n).vTerm <= p.cvEoc
  {
    if n > 0 {
      hide After;
      var s := After(p, us, n - 1);
      hide OverLine;
      assert p.cvMin <= TermVoltage(p, us[n - 1].ibat) <= p.cvEoc;
      hide TermVoltage;
      AfterUnfolds(p, us, n);
    }
  }

  /** The termination line: cv_min without charge current, cv_eoc from the tail current
      tail * Cbat on, and never falling in between. */
  lemma TerminationLine(p: Params, c: real, i: real, j: real)
    requires ValidParams(p) && p.cbat == Some(c) && c > 0.0 && i <= j
    ensures i <= 0.0 ==> TermVoltage(p, i) == p.cvMin
    ensures i >= p.tail * c ==> TermVoltage(p, i) == p.cvEoc
    ensures TermVoltage(p, i) <= TermVoltage(p, j)
    ensures 0.0 <= i <= p.tail * c ==> (TermVoltage(p, i) - p.cvMin) * (p.tail * c) == i * (p.cvEoc - p.cvMin)
  {
    hide Slope, Rise, TermVoltage;
    var r, full := Slope(p, c), p.tail * c;
    SlopeOfLine(p, c);
    LineIs(p, c, i);
    LineIs(p, c, j);
    RiseMonotone(r, i, j);
    RiseMonotone(r, i, 0.0);
    RiseMonotone(r, 0.0, i);
    RiseMonotone(r, full, i);
    RiseMonotone(r, i, full);
    RiseOfLine(i, r, full, TermVoltage(p, i) - p.cvMin, p.cvEoc - p.cvMin);
  }

  /** Voltage over the apparent resistance. */
  function Rise(i: real, r: real): real { i * r }

  lemma LineIs(p: Params, c: real, i: real)
    requires ValidParams(p) && p.cbat == Some(c) && c > 0.0
    ensures TermVoltage(p, i) == MinR(p.cvMin + MaxR(0.0, Rise(i, Slope(p, c))), p.cvEoc)
  {
    hide Slope;
  }

  lemma RiseMonotone(r: real, x: real, y: real)
    requires r >= 0.0
    ensures (x <= y ==> Rise(x, r) <= Rise(y, r)) && Rise(0.0, r) == 0.0
  {
    if x <= y { assert (y - x) * r >= 0.0; }
  }

  lemma RiseOfLine(i: real, r: real, full: real, over: real, span: real)
    requires Rise(full, r) == span
    ensures over == Rise(i, r) ==> over * full == i * span
  {
    if over == Rise(i, r) { assert (i * r) * full == i * (full * r); }
  }

  /** The line voltage that a call leaves is the one at its current: the current, cut off at 0 and at the tail
      current, in proportion. */
  lemma LineFollowsCurrent(p: Params, us: seq<Call>, n: nat, c: real)
    requires ValidParams(p) && n < |us| && p.cbat == Some(c) && c > 0.0
    ensures var full, i := p.tail * c, us[n].ibat;
            (After(p, us, n + 1).vTerm - p.cvMin) * full == MaxR(0.0, MinR(i, full)) * (p.cvEoc - p.cvMin)
  {
    hide TermVoltage, After;
    var full, i := p.tail * c, us[n].ibat;
    Product(p.tail, c);
    VoltageOfCall(p, us, n);
    TerminationLine(p, c, i, i);
  }

  lemma VoltageOfCall(p: Params, us: seq<Call>, n: nat)
    requires p.tail > 0.0 && n < |us|
    ensures After(p, us, n + 1).vTerm == TermVoltage(p, us[n].ibat)
  {
    hide TermVoltage, OverLine;
  }

  lemma SlopeOfLine(p: Params, c: real)
    requires ValidParams(p) && c > 0.0
    ensures Slope(p, c) >= 0.0 && Rise(p.tail * c, Slope(p, c)) == p.cvEoc - p.cvMin
  {
    Product(p.tail, c);
    QuotientSign(p.cvEoc - p.cvMin, p.tail * c);
  }

  lemma Product(a: real, b: real)
    requires a > 0.0 && b > 0.0
    ensures a * b > 0.0
  {
  }

  lemma QuotientSign(a: real, b: real)
    requires a >= 0.0 && b > 0.0
    ensures a / b >= 0.0 && b * (a / b) == a
  {
  }

  lemma AfterUnfolds(p: Params, us: seq<Call>, n: nat)
    requires p.tail > 0.0 && 0 < n <= |us|
    ensures After(p, us, n) == TermUpdate(p, After(p, us, n - 1), us[n - 1])
  {
  }

  /** Length of the run of sub-floor calls that ends before call n, all made while latched. */
  function LowRun(p: Params, us: seq<Call>, n: nat): nat
    requires p.tail > 0.0 && n <= |us|
  {
    if n > 0 && After(p, us, n - 1).latched && UnderFloor(p, us[n - 1]) then LowRun(p, us, n - 1) + 1 else 0
  }

  /** What the two streak counters mean. */
  lemma {:induction false} StreaksMean(p: Params, us: seq<Call>, n: nat)
    requires p.tail > 0.0 && n <= |us|
    ensures var s := After(p, us, n);
            && s.highStreak == (if n > 0 && !After(p, us, n - 1).latched && OverCeiling(p, us[n - 1]) && !s.latched
                                then 1 else 0)
            && (s.latched ==> s.lowStreak == LowRun(p, us, n) && s.lowStreak < VFLOOR_STREAK_REQ)
  {
    hide TermVoltage, OverLine;
    if n > 0 {
      StreaksMean(p, us, n - 1);
    }
  }

  predicate LowCall(p: Params, us: seq<Call>, k: nat)
    requires p.tail > 0.0 && k < |us|
  {
    After(p, us, k).latched && UnderFloor(p, us[k])
  }

  lemma {:induction false} LowRunMeans(p: Params, us: seq<Call>, n: nat, m: nat)
    requires p.tail > 0.0 && n <= |us|
    ensures LowRun(p, us, n) >= m <==> n >= m && forall k :: n - m <= k < n ==> LowCall(p, us, k)
  {
    if n > 0 && m > 0 {
      LowRunMeans(p, us, n - 1, m - 1);
      assert LowRun(p, us, n) >= m <==> LowCall(p, us, n - 1) && LowRun(p, us, n - 1) >= m - 1;
    }
  }

  /** A full cell at this voltage and current, in products only: not discharging by more than a fiftieth of
      the tail current, and above the end-of-charge voltage, or above cv_min and above the straight line from
      cv_min without current to cv_eoc at the tail current. The line degenerates where the capacity is not
      positive, and there is none where it is missing. */
  predicate Full(p: Params, v: real, i: real) {
    match p.cbat
    case None => false
    case Some(c) =>
      i > -0.02 * (p.tail * c)
      && (v > p.cvEoc
          || (v > p.cvMin
              && (c < 0.0 || (c > 0.0 && (v - p.cvMin) * (p.tail * c) > i * (p.cvEoc - p.cvMin)))))
  }

  lemma OverLineIsFull(p: Params, u: Call)
    requires ValidParams(p)
    ensures OverLine(p, u) <==> Full(p, u.vcell, u.ibat)
  {
    if p.cbat.Some? {
      var c := p.cbat.value;
      FloorCurrent(p.tail, c);
      if c > 0.0 { OverRisingLine(p, c, u); } else if c < 0.0 && u.ibat > -p.tail * c * 0.02 { OverFallingLine(p, c, u); }
    }
    hide TermVoltage;
  }

  lemma FloorCurrent(tail: real, c: real)
    ensures -tail * c * 0.02 == -0.02 * (tail * c)
    ensures tail > 0.0 && c > 0.0 ==> tail * c > 0.0
    ensures tail > 0.0 && c < 0.0 ==> tail * c < 0.0
  {
    if tail > 0.0 && c > 0.0 { Product(tail, c); }
    if tail > 0.0 && c < 0.0 { Product(tail, -c); assert tail * -c == -(tail * c); }
  }

  lemma OverRisingLine(p: Params, c: real, u: Call)
    requires ValidParams(p) && p.cbat == Some(c) && c > 0.0
    ensures u.vcell > TermVoltage(p, u.ibat)
            <==> u.vcell > p.cvEoc
                 || (u.vcell > p.cvMin && (u.vcell - p.cvMin) * (p.tail * c) > u.ibat * (p.cvEoc - p.cvMin))
  {
    hide Slope, Rise, TermVoltage;
    var r, full := Slope(p, c), p.tail * c;
    Product(p.tail, c);
    SlopeOfLine(p, c);
    LineIs(p, c, u.ibat);
    RiseCompared(u.vcell - p.cvMin, u.ibat, r, full, p.cvEoc - p.cvMin);
  }

  lemma RiseCompared(x: real, i: real, r: real, full: real, span: real)
    requires full > 0.0 && Rise(full, r) == span
    ensures x > Rise(i, r) <==> x * full > i * span
  {
    assert i * span == (i * r) * full;
    Scaled(x, i * r, full);
  }

  lemma Scaled(x: real, y: real, k: real)
    requires k > 0.0
    ensures x > y <==> x * k > y * k
  {
    if x > y { Product(x - y, k); } else { assert (y - x) * k >= 0.0; }
  }

  lemma OverFallingLine(p: Params, c: real, u: Call)
    requires ValidParams(p) && p.cbat == Some(c) && c < 0.0 && u.ibat > -p.tail * c * 0.02
    ensures TermVoltage(p, u.ibat) == p.cvMin
  {
    var t := p.tail * -c;
    Product(p.tail, -c);
    assert p.tail * c == -t;
    var q := Slope(p, c);
    QuotientNotPositive(p.cvEoc - p.cvMin, p.tail * c);
    hide Slope;
    assert u.ibat * q <= 0.0 by { ProductNotPositive(u.ibat, q); }
  }

  lemma QuotientNotPositive(a: real, b: real)
    requires a >= 0.0 && b < 0.0
    ensures a / b <= 0.0
  {
    assert a / b == -(a / -b);
    QuotientSign(a, -b);
  }

  lemma ProductNotPositive(a: real, b: real)
    requires a > 0.0 && b <= 0.0
    ensures a * b <= 0.0
  {
    assert a * -b >= 0.0;
  }

  /** The latch sets at a call exactly on a full cell, or on the second of two consecutive calls at or above
      the ceiling that both found it unset. */
  lemma LatchSetsExactly(p: Params, us: seq<Call>, n: nat)
    requires ValidParams(p) && n < |us| && !After(p, us, n).latched
    ensures After(p, us, n + 1).latched
            <==> Full(p, us[n].vcell, us[n].ibat)
                 || (n >= 1 && us[n].vcell >= p.cvCeiling && us[n - 1].vcell >= p.cvCeiling
                     && !After(p, us, n - 1).latched)
  {
    hide TermVoltage, OverLine, Full;
    OverLineIsFull(p, us[n]);
    StreaksMean(p, us, n);
  }

  /** It clears exactly on depth of discharge, or on the fourth of four consecutive sub-floor calls
      that all found it set. */
  lemma LatchClearsExactly(p: Params, us: seq<Call>, n: nat)
    requires ValidParams(p) && n < |us| && After(p, us, n).latched
    ensures !After(p, us, n + 1).latched
            <==> (p.cbat.Some? && p.dod > 0.0 && us[n].ah > p.dod * p.cbat.value)
                 || (n >= 3 && forall k :: n - 3 <= k <= n ==> us[k].vcell < p.cvMin - p.band && After(p, us, k).latched)
  {
    hide After, LowCall;
    ClearsOnStreak(p, us, n);
    forall k | 0 <= k <= n ensures LowCall(p, us, k) <==> us[k].vcell < p.cvMin - p.band && After(p, us, k).latched {
      LowCallIs(p, us, k);
    }
  }

  lemma LowCallIs(p: Params, us: seq<Call>, k: nat)
    requires p.tail > 0.0 && k < |us|
    ensures LowCall(p, us, k) <==> us[k].vcell < p.cvMin - p.band && After(p, us, k).latched
  {
    hide After;
  }

  lemma ClearsOnStreak(p: Params, us: seq<Call>, n: nat)
    requires ValidParams(p) && n < |us| && After(p, us, n).latched
    ensures !After(p, us, n + 1).latched
            <==> Discharged(p, us[n].ah) || (n >= 3 && forall k :: n - 3 <= k <= n ==> LowCall(p, us, k))
  {
    hide TermVoltage, OverLine, Discharged;
    StreaksMean(p, us, n);
    LowRunMeans(p, us, n, 3);
    assert LowCall(p, us, n) <==> UnderFloor(p, us[n]);
  }

  // ---- with the coulomb counter --------------------------------------------------------------

  /** The producer reports a battery current; the consumer evaluates termination on a cell voltage
      and smoothed current. */
  datatype Event = Current(ibat: real, now: nat) | Cells(vcell: real, ibat: real)

  datatype Pack = Pack(term: Term, counter: Counter)

  function CallOf(s: Pack, e: Event): Call
    requires e.Cells?
  {
    Call(e.vcell, e.ibat, AhSinceFull(s.counter))
  }

  predicate Latches(p: Params, s: Pack, e: Event)
    requires p.tail > 0.0
  {
    e.Cells? && !s.term.latched && TermUpdate(p, s.term, CallOf(s, e)).latched
  }

  /** _updateTermination() re-zeroes the counter on the rising edge. */
  function PackStep(p: Params, s: Pack, e: Event): Pack
    requires p.tail > 0.0
  {
    match e
    case Current(i, now) => s.(counter := CountCurrent(s.counter, i, now))
    case Cells(_, _) =>
      Pack(TermUpdate(p, s.term, CallOf(s, e)), if Latches(p, s, e) then MarkFull(s.counter) else s.counter)
  }

  function PackAfter(p: Params, c0: Counter, es: seq<Event>): Pack
    requires p.tail > 0.0
    decreases |es|
  {
    if es == [] then Pack(ResetTerm(p), c0) else PackStep(p, PackAfter(p, c0, es[..|es| - 1]), es[|es| - 1])
  }

  /** Battery currents reported since the most recent latch. */
  function SinceLatch(p: Params, c0: Counter, es: seq<Event>): seq<(real, nat)>
    requires p.tail > 0.0
    decreases |es|
  {
    if es == [] then []
    else
      var pre, e := es[..|es| - 1], es[|es| - 1];
      if Latches(p, PackAfter(p, c0, pre), e) then []
      else if e.Current? then SinceLatch(p, c0, pre) + [(e.ibat, e.now)]
      else SinceLatch(p, c0, pre)
  }

  /** Charge drawn between two reports: trapezoid, or nothing across a gap of 30 s or more. */
  function Drawn(i0: real, t0: nat, i1: real, t1: nat): real {
    if U64(t1 - t0) < 30000000 then -(i0 + i1) / 2.0 * (U64(t1 - t0) as real / 3600000000.0) else 0.0
  }

  /** Charge drawn over a list of reports, in Ah. The first report is paired with current 0 at
      time 0, which is a gap unless the clock itself is younger than 30 s. */
  function Discharge(rs: seq<(real, nat)>): real
    decreases |rs|
  {
    if rs == [] then 0.0
    else if |rs| == 1 then Drawn(0.0, 0, rs[0].0, rs[0].1)
    else
      var n := |rs|;
      Discharge(rs[..n - 1]) + Drawn(rs[n - 2].0, rs[n - 2].1, rs[n - 1].0, rs[n - 1].1)
  }

  /** While latched, the counter holds exactly what was drawn since that latch. */
  ghost predicate CountsSince(c: Counter, rs: seq<(real, nat)>) {
    if rs == [] then c.resetRequested
    else !c.resetRequested
         && c.integrator == Integrator(rs[|rs| - 1].1, -rs[|rs| - 1].0, Discharge(rs))
         && c.published == Discharge(rs)
  }

  lemma CurrentCounts(c: Counter, rs: seq<(real, nat)>, ibat: real, now: nat)
    requires CountsSince(c, rs)
    ensures CountsSince(CountCurrent(c, ibat, now), rs + [(ibat, now)])
  {
    var all := rs + [(ibat, now)];
    assert all[..|all| - 1] == rs;
    hide U64;
  }

  lemma {:induction false} CounterMatches(p: Params, c0: Counter, es: seq<Event>)
    requires p.tail > 0.0
    ensures var s := PackAfter(p, c0, es); s.term.latched ==> CountsSince(s.counter, SinceLatch(p, c0, es))
    decreases |es|
  {
    if es != [] {
      var pre, e := es[..|es| - 1], es[|es| - 1];
      CounterMatches(p, c0, pre);
      hide CountsSince;
      var s := PackAfter(p, c0, pre);
      if e.Current? && s.term.latched {
        CurrentCounts(s.counter, SinceLatch(p, c0, pre), e.ibat, e.now);
      }
      if Latches(p, s, e) { FullCountsNothing(s.counter); }
      hide TermUpdate, CountCurrent, MarkFull;
    }
  }

  lemma FullCountsNothing(c: Counter)
    ensures CountsSince(MarkFull(c), [])
  {
  }

  lemma ReadsDrawn(c: Counter, rs: seq<(real, nat)>)
    requires CountsSince(c, rs)
    ensures AhSinceFull(c) == Discharge(rs)
  {
  }

  /** A release on depth of discharge means that more than recharge_dod * Cbat was drawn, by the
      reports since that very latch: neither an older discharge nor a stale reading can cause it. */
  lemma ReleaseMeansDischarged(p: Params, c0: Counter, es: seq<Event>, e: Event)
    requires ValidParams(p) && p.cbat.Some? && p.cbat.value > 0.0 && e.Cells?
    requires var s := PackAfter(p, c0, es);
             s.term.latched && p.dod > 0.0 && AhSinceFull(s.counter) > p.dod * p.cbat.value
    ensures Discharge(SinceLatch(p, c0, es)) > p.dod * p.cbat.value > 0.0
    ensures SinceLatch(p, c0, es) != []
    ensures !PackStep(p, PackAfter(p, c0, es), e).term.latched
  {
    hide PackAfter, SinceLatch, CountsSince, Discharge, TermVoltage, OverLine;
    var s := PackAfter(p, c0, es);
    CounterMatches(p, c0, es);
    ReadsDrawn(s.counter, SinceLatch(p, c0, es));
    Product(p.dod, p.cbat.value);
    NothingDrawn(SinceLatch(p, c0, es));
    DischargedReleases(p, s.term, CallOf(s, e));
  }

  lemma NothingDrawn(rs: seq<(real, nat)>)
    ensures rs == [] ==> Discharge(rs) == 0.0
  {
  }

  lemma DischargedReleases(p: Params, s: Term, u: Call)
    requires p.tail > 0.0 && s.latched && Discharged(p, u.ah)
    ensures !TermUpdate(p, s, u).latched
  {
    hide TermVoltage, OverLine;
  }
}
