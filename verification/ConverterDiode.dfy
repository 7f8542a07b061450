/** Sensor-less diode emulation: in DCM the rectifier is never commanded past the zero crossing of
    the coil current, although the voltages are only known to one percent. */
module ConverterDiode {
  import opened Numbers
  import opened Converter

  /** The true voltages of the two sides. */
  datatype Plant = Plant(vh: real, vl: real)

  predicate Converting(p: Plant) { p.vh > p.vl > 0.0 }

  predicate Within1Percent(measured: real, truth: real) {
    0.99 * truth <= measured <= 1.01 * truth
  }

  /** M: below 1 for a buck, above 1 for a boost converter. */
  function TrueRatio(boost: bool, p: Plant): real
    requires Converting(p)
  {
    if boost then p.vh / p.vl else p.vl / p.vh
  }

  /** Rectifier on-time per control on-time at which the coil current is back at zero. */
  function ZeroCrossing(boost: bool, p: Plant): (r: real)
    requires Converting(p)
    ensures r > 0.0
  {
    QuotientAboveOne(p.vh, p.vl);
    if boost then 1.0 / (TrueRatio(boost, p) - 1.0) else p.vh / p.vl - 1.0
  }

  /** Largest conversion ratio the clamps can still represent. */
  function RatioCeiling(boost: bool): real { if boost then 1010.0 / 99.0 else 0.99 }

  lemma SignOfProduct(x: real, b: real)
    requires b > 0.0
    ensures x * b > 0.0 <==> x > 0.0
    ensures x * b < 0.0 <==> x < 0.0
  {
  }

  lemma QuotientAboveOne(a: real, b: real)
    requires a > b > 0.0
    ensures a / b > 1.0 && 0.0 < b / a < 1.0 && (b / a) * (a / b) == 1.0
  {
    var q, r := a / b, b / a;
    assert q * b == a && r * a == b;
    assert (q - 1.0) * b == a - b && (1.0 - r) * a == a - b;
    SignOfProduct(q - 1.0, b);
    SignOfProduct(1.0 - r, a);
    SignOfProduct(r, a);
    assert (r * q - 1.0) * b == r * (q * b) - b;
    SignOfProduct(r * q - 1.0, b);
  }

  /** A quotient of two 1% measurements is at least WCEF times the true quotient. */
  lemma QuotientError(n: real, d: real, tn: real, td: real)
    requires n >= 0.99 * tn && 0.0 < d <= 1.01 * td && tn > 0.0 && td > 0.0
    ensures n / d >= WCEF * (tn / td)
  {
    var q, t := n / d, tn / td;
    assert q * d == n && t * td == tn;
    SignOfProduct(t, td);
    assert t * d <= t * (1.01 * td);
    assert (1.01 * q - 0.99 * t) * d >= 0.0;
    SignOfProduct(1.01 * q - 0.99 * t, d);
  }

  lemma DivideByWcef(x: real, m: real)
    ensures x >= WCEF * m <==> x / WCEF >= m
  {
    assert x / WCEF == x * 1.01 / 0.99;
  }

  /** The estimate never falls below the true ratio, exactly as long as that ratio is within reach
      of the clamps. */
  lemma WorstCaseRatioIsSafe(boost: bool, p: Plant, vh: real, vl: real)
    requires Converting(p) && Within1Percent(vh, p.vh) && Within1Percent(vl, p.vl)
    ensures WorstCaseRatio(boost, vh, vl) >= TrueRatio(boost, p)
            <==> TrueRatio(boost, p) <= RatioCeiling(boost)
  {
    var t := TrueRatio(boost, p);
    var x := MeasuredRatio(boost, vh, vl);
    QuotientAboveOne(p.vh, p.vl);
    DivideByWcef(x, t);
    if boost {
      if vh > vl && vl > 0.1 { QuotientError(vh, vl, p.vh, p.vl); }
      DivideByWcef(10.0, t);
    } else {
      if vh > vl && vh > 0.1 { QuotientError(vl, vh, p.vl, p.vh); }
    }
  }

  lemma ReciprocalOrder(a: real, b: real)
    requires a > 0.0 && b > 0.0
    ensures 1.0 / a <= 1.0 / b <==> a >= b
  {
    var x, y := 1.0 / a, 1.0 / b;
    assert x * a == 1.0 && y * b == 1.0 && x > 0.0 && y > 0.0;
    assert (a - b) * (x * y) == (x * a) * y - (y * b) * x;
    SignOfProduct(a - b, x * y);
  }

  lemma BuckReciprocal(a: real, b: real)
    requires a > b > 0.0
    ensures 1.0 / (b / a) == a / b
  {
    QuotientAboveOne(a, b);
    var r := b / a;
    assert (1.0 / r) * r == 1.0;
    assert ((1.0 / r) - a / b) * r == 0.0;
  }

  /** The DCM ratio is at most the ratio of the true zero crossing, if and only if the converter
      operates below the clamp (buck: M <= 0.99; boost: M <= 10/WCEF). */
  lemma DcmRatioIsSafe(boost: bool, p: Plant, vh: real, vl: real)
    requires Converting(p) && Within1Percent(vh, p.vh) && Within1Percent(vl, p.vl)
    ensures RectCtrlRatio(boost, WorstCaseRatio(boost, vh, vl)) <= ZeroCrossing(boost, p)
            <==> TrueRatio(boost, p) <= RatioCeiling(boost)
  {
    WorstCaseRatioIsSafe(boost, p, vh, vl);
    QuotientAboveOne(p.vh, p.vl);
    hide WorstCaseRatio;
    var m, t := WorstCaseRatio(boost, vh, vl), TrueRatio(boost, p);
    if boost {
      ReciprocalOrder(m - 1.0, t - 1.0);
    } else {
      BuckReciprocal(p.vh, p.vl);
      ReciprocalOrder(m, t);
    }
  }

  // ---- runs ----------------------------------------------------------------------------------

  /** Operations as the firmware may issue them on plant p: every sample within 1%, and no offset
      that deliberately turns the rectifier off late. */
  ghost predicate Measures(c: Config, p: Plant, op: Op) {
    match op
    case OpUpdateMax(m) => Within1Percent(HighSide(c, m), p.vh) && Within1Percent(LowSide(c, m), p.vl)
    case OpSetOffset(o) => I16(o) <= 0
    case _ => true
  }

  /** Operations that compute the limit: steps, integer or fractional, and sensor updates. */
  predicate Limits(c: Config, s: Conv, op: Op) {
    match op
    case OpPerturb(_) => true
    case OpUpdateMax(_) => true
    case OpFractional(f) => InRange(c, f) && IntStep(s, f.r) != 0
    case _ => false
  }

  ghost predicate Emulating(s: Conv, crossing: real) {
    s.ratio <= crossing && s.offset <= 0 && -0.5 <= s.dither <= 0.5
  }

  lemma DcmIdealBelow(s: Conv, crossing: real)
    requires s.ratio <= crossing && s.offset <= 0
    ensures DcmIdeal(s) <= Counts(s.ctrl, crossing)
  {
    hide Counts;
    CountsMonotone(s.ctrl, s.ratio, crossing);
  }

  lemma CountsMonotone(ctrl: nat, a: real, b: real)
    requires a <= b
    ensures Counts(ctrl, a) <= Counts(ctrl, b)
  {
    ScaleMonotone(ctrl as real, a, b);
  }

  lemma ScaleMonotone(k: real, a: real, b: real)
    requires k >= 0.0 && a <= b
    ensures k * a <= k * b
  {
    assert k * b - k * a == k * (b - a);
  }

  lemma DcmRounding(s: Conv)
    requires -0.5 <= s.dither <= 0.5
    ensures DcmRounded(s) as real <= DcmIdeal(s) + 1.0
    ensures -0.5 <= DcmIdeal(s) + s.dither - DcmRounded(s) as real <= 0.5
  {
  }

  lemma U16Shrinks(x: nat)
    ensures U16(x) <= x
  {
  }

  /** Rounding, dither carry, uint16 cast and clamps cost at most one count. */
  lemma DcmLimitIsSafe(c: Config, s: Conv, crossing: real)
    requires ValidConfig(c) && s.dcm && Emulating(s, crossing)
    ensures Limit(c, s).rectMax <= c.rectMin
            || Limit(c, s).rectMax as real <= Counts(s.ctrl, crossing) + 1.0
    ensures Emulating(Limit(c, s), crossing)
  {
    DcmIdealBelow(s, crossing);
    DcmRounding(s);
    U16Shrinks(MaxI(0, DcmRounded(s)));
    hide DcmIdeal, DcmRounded, U16, CcmLimit, Counts;
  }

  ghost predicate BelowCrossing(c: Config, s: Conv, count: nat, crossing: real) {
    count <= c.rectMin || count as real <= Counts(s.ctrl, crossing) + 1.0
  }

  lemma FadeCeiling(c: Config, s: Conv)
    requires c.rectMin <= 32000 && s.rectMax < 65536
    ensures Fade(c, s) <= MaxI(c.rectMin, s.rectMax)
  {
  }

  lemma LimitRange(c: Config, s: Conv)
    ensures Limit(c, s).rectMax < 65536
    ensures !s.dcm ==> Limit(c, s).dither == s.dither
  {
  }

  lemma PerturbEmulates(c: Config, s: Conv, d: int, crossing: real)
    requires ValidConfig(c) && Emulating(s, crossing)
    ensures var t := Perturb(c, s, d);
            Emulating(t, crossing)
            && (t.dcm && t.manual < 0 ==>
                  BelowCrossing(c, t, t.rectMax, crossing) && BelowCrossing(c, t, t.rect, crossing))
  {
    hide Limit, Fade, PresumesDcm, HeldRect;
    if s.manual < 0 {
      var u := Limiting(c, s, d);
      LimitRange(c, u);
      FadeCeiling(c, Limit(c, u));
      if u.dcm {
        DcmLimitIsSafe(c, u, crossing);
      }
    }
  }

  lemma UpdateMaxEmulates(c: Config, s: Conv, m: Meas, p: Plant)
    requires ValidConfig(c) && Converting(p) && TrueRatio(c.boost, p) <= RatioCeiling(c.boost)
    requires Measures(c, p, OpUpdateMax(m)) && Emulating(s, ZeroCrossing(c.boost, p))
    ensures var t := UpdateMaxDuty(c, s, m);
            Emulating(t, ZeroCrossing(c.boost, p))
            && (t.dcm && t.manual < 0 ==>
                  BelowCrossing(c, t, t.rectMax, ZeroCrossing(c.boost, p))
                  && BelowCrossing(c, t, t.rect, ZeroCrossing(c.boost, p)))
  {
    hide Limit, WorstCaseRatio, RectCtrlRatio, ComputeDcm, ZeroCrossing, TrueRatio, RatioCeiling;
    var crossing := ZeroCrossing(c.boost, p);
    var vh, vl := HighSide(c, m), LowSide(c, m);
    DcmRatioIsSafe(c.boost, p, vh, vl);
    var s1 := ComputeSyncRectRatio(c, s, vh, vl, m.il);
    LimitRange(c, s1);
    if s1.dcm {
      DcmLimitIsSafe(c, s1, crossing);
    }
  }

  lemma ManualRectRatio(c: Config, s: Conv, ls: int)
    ensures var t := SetManualRect(c, s, ls);
            t.ratio == s.ratio && t.offset == s.offset && t.dither == s.dither
  {
  }

  lemma StepEmulates(c: Config, s: Conv, op: Op, p: Plant)
    requires ValidConfig(c)
    requires Converting(p) && TrueRatio(c.boost, p) <= RatioCeiling(c.boost) && Measures(c, p, op)
    requires Emulating(s, ZeroCrossing(c.boost, p))
    ensures var t := Step(c, s, op);
            Emulating(t, ZeroCrossing(c.boost, p))
            && (Limits(c, s, op) && t.dcm && t.manual < 0 ==>
                  BelowCrossing(c, t, t.rectMax, ZeroCrossing(c.boost, p))
                  && BelowCrossing(c, t, t.rect, ZeroCrossing(c.boost, p)))
  {
    hide Perturb, UpdateMaxDuty, ZeroCrossing, SetManualRect, I16, Counts, IntStep, TrueRatio;
    var crossing := ZeroCrossing(c.boost, p);
    match op
    case OpPerturb(d) => PerturbEmulates(c, s, d, crossing);
    case OpFractional(f) =>
      if InRange(c, f) && IntStep(s, f.r) != 0 {
        PerturbEmulates(c, s.(frac := 0.0), IntStep(s, f.r), crossing);
      }
    case OpUpdateMax(m) => UpdateMaxEmulates(c, s, m, p);
    case OpManualRect(ls) => ManualRectRatio(c, s, ls);
    case _ =>
  }

  /** All runs: on a plant within the clamps, whenever the limit has just been computed in DCM under
      automatic control, both the limit and the rectifier on-time are within one count of the true
      zero crossing (or at the bootstrap minimum), however the steps, samples, modes and fractions
      before it went. */
  lemma {:induction false} RunEmulates(c: Config, s: Conv, ops: seq<Op>, op: Op, p: Plant)
    requires ValidConfig(c)
    requires Converting(p) && TrueRatio(c.boost, p) <= RatioCeiling(c.boost)
    requires Emulating(s, ZeroCrossing(c.boost, p))
    requires forall o :: o in ops ==> Measures(c, p, o)
    requires Measures(c, p, op) && Limits(c, Run(c, s, ops), op)
    ensures var t := Step(c, Run(c, s, ops), op);
            t.dcm && t.manual < 0 ==>
              BelowCrossing(c, t, t.rectMax, ZeroCrossing(c.boost, p))
              && BelowCrossing(c, t, t.rect, ZeroCrossing(c.boost, p))
    decreases |ops|
  {
    hide Step, BelowCrossing, ZeroCrossing, TrueRatio, Measures, Limits;
    if ops == [] {
      StepEmulates(c, s, op, p);
    } else {
      StepEmulates(c, s, ops[0], p);
      RunEmulates(c, Step(c, s, ops[0]), ops[1..], op, p);
    }
  }
}
