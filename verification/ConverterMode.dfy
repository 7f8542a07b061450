/** Continuous or discontinuous conduction, against a model of the coil: volt-seconds balance over a period,
    and the valley of the current is the mean less half the swing. */
module ConverterMode {
  import opened Numbers
  import opened Converter
  import opened ConverterWindow
  import opened ConverterDiode

  /** Voltage over the coil while the control switch conducts, and against it while the rectifier does. */
  function Rising(boost: bool, m: Meas): real { if boost then m.vin else m.vin - m.vout }

  function Falling(boost: bool, m: Meas): real { if boost then m.vout - m.vin else m.vout }

  /** Share of the period for which the control switch conducts in continuous conduction: the current falls as
      far as it rises. */
  predicate Balanced(boost: bool, m: Meas, share: real) {
    Rising(boost, m) * share == Falling(boost, m) * (1.0 - share)
  }

  /** How far it rises: volt-seconds over the inductance; fL is frequency times inductance. */
  function Swing(c: Config, m: Meas, share: real): real
    requires c.fL != 0.0
  {
    Rising(c.boost, m) * share / c.fL
  }

  function Valley(c: Config, m: Meas, share: real): real
    requires c.fL != 0.0
  {
    m.il - Swing(c, m, share) / 2.0
  }

  /** The share is unique and its swing the one the firmware computes. */
  lemma RippleIsSwing(c: Config, m: Meas, share: real)
    requires c.fL != 0.0 && HighSide(c, m) != 0.0 && Balanced(c.boost, m, share)
    ensures RippleCurrent(c, HighSide(c, m), LowSide(c, m)) == Swing(c, m, share)
  {
    var vh, vl := HighSide(c, m), LowSide(c, m);
    if c.boost { BalancedBoost(vh, vl, share); } else { BalancedBuck(vh, vl, share); }
    Exchange(vl, c.fL, 1.0 - vl / vh);
  }

  lemma Exchange(a: real, f: real, b: real)
    requires f != 0.0
    ensures a / f * b == a * b / f
  {
    assert a * b / f * f == a * b;
    assert (a / f * b) * f == (a / f * f) * b;
    SameQuotient(a / f * b, a * b / f, f);
  }

  lemma SameQuotient(x: real, y: real, f: real)
    requires f != 0.0 && x * f == y * f
    ensures x == y
  {
    assert (x - y) * f == 0.0;
  }

  lemma BalancedBuck(vh: real, vl: real, d: real)
    requires vh != 0.0 && (vh - vl) * d == vl * (1.0 - d)
    ensures (vh - vl) * d == vl * (1.0 - vl / vh)
  {
    assert d * vh == vl;
    assert vl / vh * vh == vl;
    SameQuotient(d, vl / vh, vh);
  }

  lemma BalancedBoost(vh: real, vl: real, d: real)
    requires vh != 0.0 && vl * d == (vh - vl) * (1.0 - d)
    ensures vl * d == vl * (1.0 - vl / vh)
  {
    assert d * vh == vh - vl;
    assert (1.0 - vl / vh) * vh == vh - vl / vh * vh;
    assert vl / vh * vh == vl;
    SameQuotient(d, 1.0 - vl / vh, vh);
  }

  // ---- the decision --------------------------------------------------------------------------

  lemma SampleMode(c: Config, s: Conv, m: Meas)
    requires ValidConfig(c)
    ensures UpdateMaxDuty(c, s, m).dcm == ComputeDcm(c, s, HighSide(c, m), LowSide(c, m), m.il)
    ensures UpdateMaxDuty(c, s, m).forced == s.forced && UpdateMaxDuty(c, s, m).manual == s.manual
  {
    hide ComputeDcm, WorstCaseRatio, RectCtrlRatio, DcmIdeal, DcmRounded, CcmLimit;
  }

  /** The mode that a sample leads to, exactly. From continuous conduction the converter turns discontinuous
      when the valley of the current is negative or the current is below 0.1 A; back when the swing is at most
      1.8 times the current. Forced PWM is always continuous. */
  lemma ModeExactly(c: Config, s: Conv, m: Meas, share: real)
    requires ValidConfig(c) && HighSide(c, m) != 0.0 && Balanced(c.boost, m, share)
    ensures UpdateMaxDuty(c, s, m).dcm
            <==> !s.forced
                 && (m.il < 0.1 || if s.dcm then Swing(c, m, share) > 1.8 * m.il else Valley(c, m, share) < 0.0)
  {
    SampleMode(c, s, m);
    RippleIsSwing(c, m, share);
    hide RippleCurrent, Swing, UpdateMaxDuty;
  }

  /** Without a voltage to compute with, only the current decides. */
  lemma ModeWithoutVoltage(c: Config, s: Conv, m: Meas)
    requires ValidConfig(c) && HighSide(c, m) == 0.0
    ensures UpdateMaxDuty(c, s, m).dcm <==> !s.forced && m.il < 0.1
  {
    SampleMode(c, s, m);
    hide UpdateMaxDuty;
  }

  /** Continuous conduction that is not forced means that the current does not reverse. */
  lemma ContinuousMeansValley(c: Config, s: Conv, m: Meas, share: real)
    requires ValidConfig(c) && HighSide(c, m) != 0.0 && Balanced(c.boost, m, share)
    requires !s.forced && !UpdateMaxDuty(c, s, m).dcm
    ensures m.il >= 0.1 && Valley(c, m, share) >= 0.0
  {
    ModeExactly(c, s, m, share);
    hide UpdateMaxDuty, Swing;
  }

  /** The hysteresis: a mode that was left is not taken again before the swing has moved by a tenth against
      the current, so on steady readings it stays. */
  lemma ModeChangesApart(c: Config, s: Conv, m: Meas, d: real, t: Conv, n: Meas, e: real)
    requires ValidConfig(c) && !s.forced && !t.forced && m.il >= 0.1 && n.il >= 0.1
    requires HighSide(c, m) != 0.0 && Balanced(c.boost, m, d) && HighSide(c, n) != 0.0 && Balanced(c.boost, n, e)
    requires !s.dcm && UpdateMaxDuty(c, s, m).dcm && t.dcm && !UpdateMaxDuty(c, t, n).dcm
    ensures Swing(c, m, d) > 2.0 * m.il && Swing(c, n, e) <= 1.8 * n.il
    ensures m != n
  {
    ModeExactly(c, s, m, d);
    ModeExactly(c, t, n, e);
    if m == n { OneShare(c, m, d, e); }
    hide UpdateMaxDuty, Swing;
  }

  lemma OneShare(c: Config, m: Meas, d: real, e: real)
    requires c.fL != 0.0 && HighSide(c, m) != 0.0 && Balanced(c.boost, m, d) && Balanced(c.boost, m, e)
    ensures Swing(c, m, d) == Swing(c, m, e)
  {
    RippleIsSwing(c, m, d);
    RippleIsSwing(c, m, e);
    hide RippleCurrent, Swing;
  }

  /** No reverse current, whatever came before: after any run on a plant within the clamps and a 1% sample,
      the automatic low side is past the zero crossing, beyond a count and the bootstrap minimum, only where
      forced PWM asks for it or the valley of the current is not negative. */
  lemma NoReverseCurrent(c: Config, s: Conv, ops: seq<Op>, m: Meas, p: Plant, share: real)
    requires ValidConfig(c) && Converting(p) && TrueRatio(c.boost, p) <= RatioCeiling(c.boost)
    requires Emulating(s, ZeroCrossing(c.boost, p)) && forall o :: o in ops ==> Measures(c, p, o)
    requires Measures(c, p, OpUpdateMax(m)) && Balanced(c.boost, m, share)
    ensures var t := UpdateMaxDuty(c, Run(c, s, ops), m);
            || t.manual >= 0 || t.forced
            || (BelowCrossing(c, t, t.rectMax, ZeroCrossing(c.boost, p))
                && BelowCrossing(c, t, t.rect, ZeroCrossing(c.boost, p)))
            || (m.il >= 0.1 && Valley(c, m, share) >= 0.0)
  {
    hide UpdateMaxDuty, BelowCrossing, ZeroCrossing, Run, Balanced, Valley, TrueRatio;
    var u := Run(c, s, ops);
    RunEmulates(c, s, ops, OpUpdateMax(m), p);
    assert Step(c, u, OpUpdateMax(m)) == UpdateMaxDuty(c, u, m);
    SampleMode(c, u, m);
    PositiveSide(c, m, p);
    if !u.forced && !UpdateMaxDuty(c, u, m).dcm { ContinuousMeansValley(c, u, m, share); }
  }

  lemma PositiveSide(c: Config, m: Meas, p: Plant)
    requires Converting(p) && Measures(c, p, OpUpdateMax(m))
    ensures HighSide(c, m) > 0.0
  {
  }

  /** In continuous conduction the limit is the whole complement of the control switch. */
  lemma ContinuousLimit(c: Config, s: Conv, m: Meas)
    requires ValidConfig(c) && s.ctrl <= c.ctrlMax && (c.rectMin >= 1 || s.ctrl < c.ctrlMax)
    requires !UpdateMaxDuty(c, s, m).dcm && s.manual < 0
    ensures UpdateMaxDuty(c, s, m).rectMax == c.pwmMax - s.ctrl - 1
  {
    var t := ComputeSyncRectRatio(c, s, HighSide(c, m), LowSide(c, m), m.il);
    RatioKeepsDuties(c, s, m);
    ContinuousComplement(c, t);
    hide ComputeSyncRectRatio, Limit;
  }

  lemma ContinuousComplement(c: Config, s: Conv)
    requires ValidConfig(c) && s.ctrl <= c.ctrlMax && (c.rectMin >= 1 || s.ctrl < c.ctrlMax)
    ensures Limit(c, s).dcm == s.dcm && (!s.dcm ==> Limit(c, s).rectMax == c.pwmMax - s.ctrl - 1)
  {
    hide DcmIdeal, DcmRounded;
  }

  /** A held low side stays as it is held: a step fits it to the room the control switch leaves, never below the
      bootstrap minimum if that has room, and a sample leaves it and its limit alone. */
  lemma HeldExactly(c: Config, s: Conv, d: int, m: Meas)
    requires ValidConfig(c) && Duty(c, s) && s.manual >= 0 && (c.rectMin >= 1 || !ReachesTop(c, s, d))
    ensures var t := Perturb(c, s, d);
            var room := c.pwmMax - t.ctrl - 1;
            t.manual == s.manual && t.rect == if s.manual < c.rectMin then c.rectMin else MinI(s.manual, room)
    ensures var t := UpdateMaxDuty(c, s, m); t.rect == s.rect && t.rectMax == s.rectMax && t.manual == s.manual
  {
    RatioKeepsDuties(c, s, m);
    PerturbKeepsDuty(c, s, d);
    var ctrl := Perturb(c, s, d).ctrl;
    U16Same(Constrain(s.manual, c.rectMin, c.pwmMax - ctrl - 1));
    hide Limit, Fade, U16, ComputeSyncRectRatio;
  }

  /** A step down by more than a fiftieth of the period is presumed to end in discontinuous conduction: the low
      side goes to its minimum at once. No other step changes the mode. */
  lemma LargeDecreaseExactly(c: Config, s: Conv, d: int)
    requires ValidConfig(c) && s.manual < 0
    ensures var t := Perturb(c, s, d);
            if -d > c.pwmMax / 50 && !s.forced then t.dcm && t.rect == c.rectMin else t.dcm == s.dcm
  {
    hide Fade;
    hide Limit;
  }

  // ---- what the safe side costs --------------------------------------------------------------

  /** Two 1% errors against each other, and the factor that compensates them: 2% each. */
  const K: real := 1.01 / 0.99

  lemma QuotientCeiling(n: real, d: real, tn: real, td: real)
    requires n <= 1.01 * tn && d >= 0.99 * td && tn > 0.0 && td > 0.0
    ensures n / d <= K * (tn / td)
  {
    var q, t := n / d, tn / td;
    assert q * d == n && t * td == tn;
    SignOfProduct(t, td);
    ScaleMonotone(t, 0.99 * td, d);
    assert (1.01 * t - 0.99 * q) * d >= 0.0;
    SignOfProduct(1.01 * t - 0.99 * q, d);
  }

  lemma InflatedIs(x: real)
    ensures Inflated(x) == K * x
  {
    assert x / WCEF == x * 1.01 / 0.99;
  }

  /** The estimate is at most 4.1% above the true ratio, between the clamps. */
  lemma WorstCaseRatioIsClose(boost: bool, p: Plant, vh: real, vl: real)
    requires Converting(p) && Within1Percent(vh, p.vh) && Within1Percent(vl, p.vl) && vl > 0.1
    requires var t := TrueRatio(boost, p); if boost then t > K else 0.01 <= K * t && t < 1.0 / K
    ensures WorstCaseRatio(boost, vh, vl) <= K * (K * TrueRatio(boost, p))
  {
    var t := TrueRatio(boost, p);
    QuotientAboveOne(p.vh, p.vl);
    Straight(boost, p, vh, vl);
    if boost { QuotientCeiling(vh, vl, p.vh, p.vl); } else { QuotientCeiling(vl, vh, p.vl, p.vh); }
    InflatedIs(MeasuredRatio(boost, vh, vl));
    hide TrueRatio;
  }

  /** Then the measured voltages are the right way round. */
  lemma Straight(boost: bool, p: Plant, vh: real, vl: real)
    requires Converting(p) && Within1Percent(vh, p.vh) && Within1Percent(vl, p.vl)
    requires var t := TrueRatio(boost, p); if boost then t > K else t < 1.0 / K
    ensures vh > vl
  {
    assert K * 0.99 == 1.01 && 1.0 / K * 1.01 == 0.99;
    if boost { QuotientOver(p.vh, p.vl, K); } else { QuotientUnder(p.vl, p.vh, 1.0 / K); }
  }

  lemma QuotientOver(a: real, b: real, k: real)
    requires b > 0.0 && a / b > k
    ensures a > k * b
  {
    assert a / b * b == a;
    SignOfProduct(a / b - k, b);
  }

  lemma QuotientUnder(a: real, b: real, k: real)
    requires b > 0.0 && a / b < k
    ensures a < k * b
  {
    assert a / b * b == a;
    SignOfProduct(k - a / b, b);
  }

  /** The ratio that a DCM sample sets: none without current or voltage; otherwise at most the true zero
      crossing, and at least the crossing of a plant with a 4.1% higher conversion ratio. */
  lemma DcmRatioExactly(c: Config, s: Conv, m: Meas, p: Plant)
    requires ValidConfig(c) && UpdateMaxDuty(c, s, m).dcm
    requires Converting(p) && Measures(c, p, OpUpdateMax(m))
    requires var t := TrueRatio(c.boost, p); if c.boost then K < t <= 1010.0 / 99.0 else 0.01 <= K * t && K * (K * t) <= 0.99
    ensures var r, t := UpdateMaxDuty(c, s, m).ratio, TrueRatio(c.boost, p);
            if m.il < 0.01 || LowSide(c, m) < 1.0 then r == 0.0
            else r <= ZeroCrossing(c.boost, p)
                 && r >= if c.boost then 1.0 / (K * (K * t) - 1.0) else 1.0 / (K * (K * t)) - 1.0
  {
    hide TrueRatio, ZeroCrossing, WorstCaseRatio;
    var t := TrueRatio(c.boost, p);
    SampleRatio(c, s, m);
    PositiveRatio(c.boost, p);
    if m.il >= 0.01 && LowSide(c, m) >= 1.0 {
      var w := WorstCaseRatio(c.boost, HighSide(c, m), LowSide(c, m));
      assert !c.boost ==> t < 1.0 / K by { if t >= 1.0 / K { assert K * (K * t) >= K * 1.0; } }
      WorstCaseRatioIsClose(c.boost, p, HighSide(c, m), LowSide(c, m));
      DcmRatioIsSafe(c.boost, p, HighSide(c, m), LowSide(c, m));
      if c.boost { ReciprocalOrder(K * (K * t) - 1.0, w - 1.0); } else { ReciprocalOrder(K * (K * t), w); }
    }
    hide UpdateMaxDuty;
  }

  lemma PositiveRatio(boost: bool, p: Plant)
    requires Converting(p)
    ensures if boost then TrueRatio(boost, p) > 1.0 else 0.0 < TrueRatio(boost, p) < 1.0
  {
    QuotientAboveOne(p.vh, p.vl);
  }

  lemma SampleRatio(c: Config, s: Conv, m: Meas)
    requires ValidConfig(c) && UpdateMaxDuty(c, s, m).dcm
    ensures UpdateMaxDuty(c, s, m).ratio
            == if m.il < 0.01 || LowSide(c, m) < 1.0 then 0.0
               else RectCtrlRatio(c.boost, WorstCaseRatio(c.boost, HighSide(c, m), LowSide(c, m)))
  {
    hide ComputeDcm, RectCtrlRatio, DcmIdeal, DcmRounded, CcmLimit, MeasuredRatio, Inflated;
  }

  /** The conversion ratio that a sample reports: not below the true one, and at most 4.1% above. */
  lemma ReportedRatio(c: Config, s: Conv, m: Meas, p: Plant)
    requires ValidConfig(c) && Converting(p) && Measures(c, p, OpUpdateMax(m)) && LowSide(c, m) > 0.1
    requires var t := TrueRatio(c.boost, p); if c.boost then K < t <= 1010.0 / 99.0 else 0.01 <= K * t && K * (K * t) <= 0.99
    ensures TrueRatio(c.boost, p) <= UpdateMaxDuty(c, s, m).vr <= K * (K * TrueRatio(c.boost, p))
  {
    hide TrueRatio, WorstCaseRatio;
    var t := TrueRatio(c.boost, p);
    SampleReports(c, s, m);
    PositiveRatio(c.boost, p);
    assert !c.boost ==> t < 1.0 / K by { if t >= 1.0 / K { assert K * (K * t) >= K * 1.0; } }
    WorstCaseRatioIsClose(c.boost, p, HighSide(c, m), LowSide(c, m));
    WorstCaseRatioIsSafe(c.boost, p, HighSide(c, m), LowSide(c, m));
    hide UpdateMaxDuty;
  }

  lemma SampleReports(c: Config, s: Conv, m: Meas)
    requires ValidConfig(c)
    ensures UpdateMaxDuty(c, s, m).vr == WorstCaseRatio(c.boost, HighSide(c, m), LowSide(c, m))
  {
    hide ComputeDcm, RectCtrlRatio, DcmIdeal, DcmRounded, CcmLimit, MeasuredRatio, Inflated;
  }

  /** The limit in discontinuous conduction is no lower than it has to be: a whole number within a count of what
      ratio and turn-off offset give, between the bootstrap minimum and the complement of the control switch. */
  lemma DcmLimitExactly(c: Config, s: Conv)
    requires ValidConfig(c) && s.ctrl <= c.ctrlMax && (c.rectMin >= 1 || s.ctrl < c.ctrlMax) && s.dcm
    requires -0.5 <= s.dither <= 0.5 && s.ctrl as real * s.ratio + s.offset as real <= 65000.0
    ensures exists n: nat :: Nearest(n, s.ctrl as real * s.ratio + s.offset as real)
                             && Limit(c, s).rectMax == MinI(MaxI(c.rectMin, n), c.pwmMax - s.ctrl - 1)
  {
    var n := MaxI(0, DcmRounded(s));
    IdealIs(s);
    DcmRounding(s);
    U16Same(n);
    U16Same(c.pwmMax - s.ctrl - 1);
    LimitOfRounded(c, s);
    hide DcmIdeal, DcmRounded, U16, Limit;
    assert Nearest(n, s.ctrl as real * s.ratio + s.offset as real);
  }

  lemma LimitOfRounded(c: Config, s: Conv)
    requires s.dcm
    ensures Limit(c, s).rectMax == MinI(MaxI(c.rectMin, U16(MaxI(0, DcmRounded(s)))), U16(c.pwmMax - s.ctrl - 1))
  {
    hide DcmIdeal, DcmRounded, U16;
  }

  predicate Nearest(n: nat, x: real) { (x - 1.0 <= n as real <= x + 1.0) || (n == 0 && x <= 1.0) }

  lemma IdealIs(s: Conv)
    ensures DcmIdeal(s) == s.ctrl as real * s.ratio + s.offset as real
  {
  }
}
