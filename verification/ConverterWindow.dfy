/** The duty window: control and rectifier on-times do not overlap or leave the period, and a running
    converter keeps its bootstrap refresh. With a bootstrap minimum this holds in every reachable state;
    a boost converter has none, and can leave the window at full duty. */
module ConverterWindow {
  import opened Numbers
  import opened Converter

  ghost predicate Window(c: Config, s: Conv) {
    && s.ctrl <= c.ctrlMax
    && s.ctrl + s.rect <= c.pwmMax
    && (s.ctrl + s.rect == c.pwmMax ==> s.ctrl == c.ctrlMax)
    && (0 < s.ctrl < c.ctrlMax ==> s.rect >= c.rectMin)
    && (s.ctrl == c.ctrlMax ==> s.rect >= c.rectMin - 1)
    && -1 <= s.manual < c.pwmMax
    && -1.0 < s.frac < 1.0
    && -0.5 <= s.dither <= 0.5
  }

  /** What holds without exception: the control count and a held count stay in their ranges, and both
      carries are proper remainders. */
  ghost predicate Duty(c: Config, s: Conv) {
    s.ctrl <= c.ctrlMax && -1 <= s.manual < c.pwmMax && -1.0 < s.frac < 1.0 && -0.5 <= s.dither <= 0.5
  }

  /** No count of this state is the image of a negative or too large integer. */
  ghost predicate NoWrap(c: Config, s: Conv) {
    CcmLimit(c, s) == c.pwmMax - s.ctrl - 1
  }

  /** The complement of the control switch wraps in exactly one situation: boost at full duty. */
  lemma CcmLimitWrapsExactly(c: Config, s: Conv)
    requires ValidConfig(c) && Window(c, s)
    ensures NoWrap(c, s) <==> c.rectMin >= 1 || s.ctrl < c.ctrlMax
  {
    if c.rectMin == 0 && s.ctrl == c.ctrlMax {
      assert c.pwmMax - s.ctrl - 1 == -1;
    }
  }

  /** The DCM limit never exceeds the CCM limit at the same duty, whatever ratio, offset and dither. */
  lemma DcmLimitBelowCcmLimit(c: Config, s: Conv)
    requires ValidConfig(c)
    requires s.ctrl < c.ctrlMax || (c.rectMin >= 1 && s.ctrl == c.ctrlMax)
    ensures Limit(c, s.(dcm := true)).rectMax <= Limit(c, s.(dcm := false)).rectMax == c.pwmMax - s.ctrl - 1
  {
    hide DcmIdeal, DcmRounded;
  }

  lemma LimitBounds(c: Config, s: Conv)
    requires ValidConfig(c) && s.ctrl <= c.ctrlMax && (c.rectMin >= 1 || s.ctrl < c.ctrlMax)
    ensures var t := Limit(c, s);
            && t == s.(rectMax := t.rectMax, dither := t.dither)
            && t.rectMax <= c.pwmMax - s.ctrl - 1
            && t.rectMax >= MinI(c.rectMin, c.pwmMax - s.ctrl - 1)
            && (-0.5 <= s.dither <= 0.5 ==> -0.5 <= t.dither <= 0.5)
  {
  }

  lemma FadeBounds(c: Config, s: Conv)
    requires c.rectMin - 1 <= s.rectMax <= c.pwmMax <= 32000
    ensures MinI(c.rectMin, s.rectMax) <= Fade(c, s) <= MaxI(c.rectMin, s.rectMax)
  {
    hide TruncDiv, U16;
    var step := 1 + if s.rect > c.rectMin + c.pwmMax / 64 then TruncDiv(s.rectMax - s.rect, 64) else 0;
    var x := Constrain(s.rect + step, c.rectMin, s.rectMax);
    assert s.sync ==> Fade(c, s) == U16(x);
    U16Same(x);
  }

  lemma U16Same(x: int)
    ensures 0 <= x < 65536 ==> U16(x) == x
  {
  }

  /** The fade-in is gradual upwards and immediate downwards: below the limit it makes progress by at
      most one count plus a 64th of the distance, above it lands on the limit at once. */
  lemma FadeApproaches(c: Config, s: Conv)
    requires s.sync && c.rectMin <= s.rectMax <= c.pwmMax <= 32000 && c.rectMin <= s.rect <= c.pwmMax
    ensures s.rect < s.rectMax ==> s.rect < Fade(c, s) <= s.rectMax
    ensures s.rect < s.rectMax ==> Fade(c, s) <= s.rect + 1 + (s.rectMax - s.rect) / 64
    ensures s.rect >= s.rectMax ==> Fade(c, s) == s.rectMax
  {
    FadeStep(c, s);
    var step := 1 + if s.rect > c.rectMin + c.pwmMax / 64 then TruncDiv(s.rectMax - s.rect, 64) else 0;
    hide TruncDiv, Fade;
    assert Fade(c, s) == Constrain(s.rect + step, c.rectMin, s.rectMax);
  }

  lemma FadeStep(c: Config, s: Conv)
    requires s.sync && c.rectMin <= s.rectMax <= c.pwmMax <= 32000 && c.rectMin <= s.rect <= c.pwmMax
    ensures var d := TruncDiv(s.rectMax - s.rect, 64);
            && (s.rect <= s.rectMax ==> 0 <= d <= (s.rectMax - s.rect) / 64)
            && (s.rect > s.rectMax ==> s.rectMax - s.rect <= d <= 0)
    ensures var step := 1 + if s.rect > c.rectMin + c.pwmMax / 64 then TruncDiv(s.rectMax - s.rect, 64) else 0;
            Fade(c, s) == Constrain(s.rect + step, c.rectMin, s.rectMax)
  {
  }

  lemma HeldBounds(c: Config, manual: int, ctrl: nat)
    requires ValidConfig(c) && ctrl <= c.ctrlMax && (c.rectMin >= 1 || ctrl < c.ctrlMax)
    ensures var hi := c.pwmMax - ctrl - 1;
            MinI(c.rectMin, hi) <= HeldRect(c, manual, ctrl) <= MaxI(c.rectMin, hi)
  {
  }

  /** The step ends at full duty. */
  predicate ReachesTop(c: Config, s: Conv, d: int) { MaxI(CTRL_MIN, s.ctrl + d) >= c.ctrlMax }

  /** A step that ends below full duty ends in the window, wherever it started. */
  lemma PerturbKeepsWindow(c: Config, s: Conv, d: int)
    requires ValidConfig(c) && Duty(c, s)
    requires c.rectMin >= 1 || !ReachesTop(c, s, d)
    ensures Window(c, Perturb(c, s, d)) && NoWrap(c, Perturb(c, s, d))
    ensures Perturb(c, s, d).ctrl >= 1 && Perturb(c, s, d).frac == s.frac
  {
    hide Limit, Fade, HeldRect, PresumesDcm;
    if s.manual >= 0 {
      HeldBounds(c, s.manual, Moved(c, s, d).ctrl);
    } else {
      LimitBounds(c, Limiting(c, s, d));
      FadeBounds(c, Limit(c, Limiting(c, s, d)));
    }
  }

  /** The int16 cast of an accepted request is exact, and what it leaves behind is a proper fraction. */
  lemma IntStepIsTrunc(c: Config, s: Conv, f: real)
    requires ValidConfig(c) && AbsR(f) <= c.pwmMax as real && -1.0 < s.frac < 1.0
    ensures IntStep(s, f) == Trunc(f + s.frac)
    ensures -1.0 < f + s.frac - IntStep(s, f) as real < 1.0
  {
  }

  lemma FractionalKeepsWindow(c: Config, s: Conv, f: Float)
    requires ValidConfig(c) && Window(c, s)
    requires c.rectMin >= 1 || !InRange(c, f) || IntStep(s, f.r) == 0 || !ReachesTop(c, s, IntStep(s, f.r))
    ensures Window(c, PerturbFractional(c, s, f))
  {
    if InRange(c, f) {
      IntStepIsTrunc(c, s, f.r);
      hide IntStep, Perturb;
      if IntStep(s, f.r) != 0 {
        PerturbKeepsWindow(c, s.(frac := 0.0), IntStep(s, f.r));
      }
    }
  }

  /** A sensor update keeps it in every configuration: at full duty of a boost converter the limit has
      wrapped, but the low side is off already and is only ever lowered. */
  lemma UpdateMaxKeepsWindow(c: Config, s: Conv, m: Meas)
    requires ValidConfig(c) && Window(c, s)
    ensures Window(c, UpdateMaxDuty(c, s, m))
  {
    hide Limit, ComputeSyncRectRatio;
    RatioKeepsDuties(c, s, m);
    var t := ComputeSyncRectRatio(c, s, HighSide(c, m), LowSide(c, m), m.il);
    LimitDither(c, t);
    if c.rectMin >= 1 || s.ctrl < c.ctrlMax { LimitBounds(c, t); }
  }

  lemma LimitDither(c: Config, s: Conv)
    requires -0.5 <= s.dither <= 0.5
    ensures var t := Limit(c, s); t == s.(rectMax := t.rectMax, dither := t.dither) && -0.5 <= t.dither <= 0.5
  {
    hide DcmIdeal;
  }

  lemma RatioKeepsDuties(c: Config, s: Conv, m: Meas)
    requires ValidConfig(c)
    ensures var t := ComputeSyncRectRatio(c, s, HighSide(c, m), LowSide(c, m), m.il);
            t == s.(vr := t.vr, dcm := t.dcm, ratio := t.ratio)
  {
    hide ComputeDcm, WorstCaseRatio, RectCtrlRatio;
  }

  lemma ManualRectKeepsWindow(c: Config, s: Conv, ls: int)
    requires ValidConfig(c) && Window(c, s)
    requires c.rectMin >= 1 || s.ctrl < c.ctrlMax
    ensures Window(c, SetManualRect(c, s, ls))
  {
    hide CcmLimit, U16;
    if ls >= 0 {
      HeldBounds(c, ls, s.ctrl);
      ManualIsHeld(c, s, ls);
    }
  }

  lemma ManualIsHeld(c: Config, s: Conv, ls: nat)
    requires ValidConfig(c) && s.ctrl <= c.ctrlMax && (c.rectMin >= 1 || s.ctrl < c.ctrlMax)
    ensures var t := SetManualRect(c, s, ls);
            t.rect == t.manual == HeldRect(c, ls, s.ctrl)
  {
  }

  // ---- in every configuration ----------------------------------------------------------------

  lemma PerturbKeepsDuty(c: Config, s: Conv, d: int)
    requires ValidConfig(c) && Duty(c, s)
    ensures var t := Perturb(c, s, d);
            Duty(c, t) && t.frac == s.frac && t.ctrl == Constrain(s.ctrl + d, CTRL_MIN, c.ctrlMax)
            && t.badStart == (s.badStart || (s.ctrl == 0 && d <= 0))
  {
    hide Limit, Fade, HeldRect, PresumesDcm;
    LimitDither(c, Limiting(c, s, d));
  }

  lemma FractionalKeepsDuty(c: Config, s: Conv, f: Float)
    requires ValidConfig(c) && Duty(c, s)
    ensures Duty(c, PerturbFractional(c, s, f))
  {
    if InRange(c, f) {
      IntStepIsTrunc(c, s, f.r);
      hide IntStep, Perturb;
      PerturbKeepsDuty(c, s.(frac := 0.0), IntStep(s, f.r));
    }
  }

  lemma UpdateMaxKeepsDuty(c: Config, s: Conv, m: Meas)
    requires ValidConfig(c) && Duty(c, s)
    ensures var t := UpdateMaxDuty(c, s, m);
            Duty(c, t) && t.ctrl == s.ctrl && t.frac == s.frac && t.badStart == s.badStart
  {
    hide Limit, ComputeSyncRectRatio;
    RatioKeepsDuties(c, s, m);
    LimitDither(c, ComputeSyncRectRatio(c, s, HighSide(c, m), LowSide(c, m), m.il));
  }

  lemma StepKeepsDuty(c: Config, s: Conv, op: Op)
    requires ValidConfig(c) && Duty(c, s)
    ensures Duty(c, Step(c, s, op))
  {
    hide Perturb, PerturbFractional, UpdateMaxDuty, SetManualRect;
    match op
    case OpPerturb(d) => PerturbKeepsDuty(c, s, d);
    case OpFractional(f) => FractionalKeepsDuty(c, s, f);
    case OpUpdateMax(m) => UpdateMaxKeepsDuty(c, s, m);
    case OpManualRect(ls) => ManualRectKeepsDuty(c, s, ls);
    case _ =>
  }

  lemma ManualRectKeepsDuty(c: Config, s: Conv, ls: int)
    requires ValidConfig(c) && Duty(c, s)
    ensures Duty(c, SetManualRect(c, s, ls))
  {
  }

  lemma {:induction false} RunKeepsDuty(c: Config, s: Conv, ops: seq<Op>)
    requires ValidConfig(c) && Duty(c, s)
    ensures Duty(c, Run(c, s, ops))
    decreases |ops|
  {
    if ops != [] {
      StepKeepsDuty(c, s, ops[0]);
      RunKeepsDuty(c, Step(c, s, ops[0]), ops[1..]);
    }
  }

  // ---- boost at full duty --------------------------------------------------------------------

  /** The low side of a converter at full duty stays off: it is not held by hand, and it is presumed
      or rounded to nothing, or sync rectification is off. */
  predicate LowSideStaysOff(c: Config, s: Conv, d: int)
    requires ValidConfig(c)
  {
    s.manual < 0
    && (PresumesDcm(c, s, d) || !s.sync || (s.dcm && U16(MaxI(0, DcmRounded(Moved(c, s, d)))) == 0))
  }

  /** The limit of a converter without bootstrap minimum at full duty: the complement wraps to 65535
      and no longer limits anything. */
  lemma TopLimit(c: Config, s: Conv)
    requires ValidConfig(c) && c.rectMin == 0 && s.ctrl == c.ctrlMax
    ensures CcmLimit(c, s) == 65535
    ensures Limit(c, s).rectMax == if s.dcm then U16(MaxI(0, DcmRounded(s))) else 65535
  {
    hide DcmRounded, DcmIdeal;
    assert c.pwmMax - s.ctrl - 1 == -1;
  }

  /** There the fade-in turns the low side on unless the limit is zero. */
  lemma TopFade(c: Config, s: Conv)
    requires ValidConfig(c) && c.rectMin == 0 && s.rectMax <= 65535
    ensures Fade(c, s) == 0 <==> !s.sync || s.rectMax == 0
  {
    if s.sync && s.rect > c.pwmMax / 64 {
      var step := 1 + TruncDiv(s.rectMax - s.rect, 64);
      assert s.rect + step >= 1;
    }
  }

  /** Without a bootstrap minimum a step ends in the window if and only if it ends below full duty or
      leaves the low side off there, wherever it started. */
  lemma PerturbInWindowExactly(c: Config, s: Conv, d: int)
    requires ValidConfig(c) && c.rectMin == 0 && Duty(c, s)
    ensures Window(c, Perturb(c, s, d)) <==> !ReachesTop(c, s, d) || LowSideStaysOff(c, s, d)
  {
    if !ReachesTop(c, s, d) { PerturbKeepsWindow(c, s, d); } else {
      var s1, u := Moved(c, s, d), Limiting(c, s, d);
      assert s1.ctrl == u.ctrl == c.ctrlMax == c.pwmMax;
      if s.manual >= 0 { TopHold(c, s.manual); } else {
        TopLimit(c, u);
        LimitDither(c, u);
        TopFade(c, Limit(c, u));
        SameRounding(s1, u);
      }
      hide Limit, Fade, HeldRect, DcmRounded;
    }
  }

  lemma SameRounding(s: Conv, t: Conv)
    requires t == s.(dcm := t.dcm)
    ensures DcmRounded(s) == DcmRounded(t)
  {
  }

  lemma TopHold(c: Config, manual: nat)
    requires ValidConfig(c) && c.rectMin == 0
    ensures HeldRect(c, manual, c.ctrlMax) == 65535
  {
  }

  /** What a caller must observe to stay in the window; nothing if there is a bootstrap minimum. */
  predicate Admissible(c: Config, s: Conv, op: Op)
    requires ValidConfig(c)
  {
    c.rectMin >= 1
    || match op
       case OpPerturb(d) => !ReachesTop(c, s, d) || LowSideStaysOff(c, s, d)
       case OpFractional(f) =>
         !InRange(c, f) || IntStep(s, f.r) == 0
         || !ReachesTop(c, s, IntStep(s, f.r)) || LowSideStaysOff(c, s, IntStep(s, f.r))
       case OpManualRect(ls) => ls < 0 || s.ctrl < c.ctrlMax
       case _ => true
  }

  lemma FractionalInWindowExactly(c: Config, s: Conv, f: Float)
    requires ValidConfig(c) && c.rectMin == 0 && Window(c, s) && InRange(c, f) && IntStep(s, f.r) != 0
    ensures var k := IntStep(s, f.r);
            Window(c, PerturbFractional(c, s, f)) <==> !ReachesTop(c, s, k) || LowSideStaysOff(c, s, k)
  {
    IntStepIsTrunc(c, s, f.r);
    var k, s0 := IntStep(s, f.r), s.(frac := 0.0);
    PerturbInWindowExactly(c, s0, k);
    FractionSameRounding(c, s, k);
    hide IntStep, Perturb, DcmRounded, PresumesDcm;
    var t := Perturb(c, s0, k);
    assert PerturbFractional(c, s, f) == t.(frac := f.r + s.frac - k as real);
  }

  lemma FractionSameRounding(c: Config, s: Conv, d: int)
    requires ValidConfig(c)
    ensures DcmRounded(Moved(c, s.(frac := 0.0), d)) == DcmRounded(Moved(c, s, d))
    ensures PresumesDcm(c, s.(frac := 0.0), d) == PresumesDcm(c, s, d)
  {
    var a, b := Moved(c, s.(frac := 0.0), d), Moved(c, s, d);
    assert DcmIdeal(a) == DcmIdeal(b) && a.dither == b.dither;
  }

  lemma TopManualRect(c: Config, s: Conv, ls: nat)
    requires ValidConfig(c) && c.rectMin == 0 && s.ctrl == c.ctrlMax
    ensures SetManualRect(c, s, ls).rect == 65535
  {
  }

  /** Every operation, every configuration: the window is kept if and only if the operation is
      admissible. */
  lemma StepInWindowExactly(c: Config, s: Conv, op: Op)
    requires ValidConfig(c) && Window(c, s)
    ensures Window(c, Step(c, s, op)) <==> Admissible(c, s, op)
  {
    hide Perturb, PerturbFractional, UpdateMaxDuty, SetManualRect, LowSideStaysOff, IntStep;
    match op
    case OpPerturb(d) => if c.rectMin >= 1 { PerturbKeepsWindow(c, s, d); } else { PerturbInWindowExactly(c, s, d); }
    case OpFractional(f) =>
      if c.rectMin >= 1 || !InRange(c, f) || IntStep(s, f.r) == 0 { FractionalKeepsWindow(c, s, f); }
      else { FractionalInWindowExactly(c, s, f); }
    case OpUpdateMax(m) => UpdateMaxKeepsWindow(c, s, m);
    case OpManualRect(ls) =>
      if c.rectMin >= 1 || s.ctrl < c.ctrlMax || ls < 0 { ManualRectInWindow(c, s, ls); } else { TopManualRect(c, s, ls); }
    case _ =>
  }

  lemma ManualRectInWindow(c: Config, s: Conv, ls: int)
    requires ValidConfig(c) && Window(c, s) && (c.rectMin >= 1 || s.ctrl < c.ctrlMax || ls < 0)
    ensures Window(c, SetManualRect(c, s, ls))
  {
    if ls >= 0 { ManualRectKeepsWindow(c, s, ls); }
  }

  /** Every operation of the run is admissible where it is issued. */
  predicate AllAdmissible(c: Config, s: Conv, ops: seq<Op>)
    requires ValidConfig(c)
    decreases |ops|
  {
    ops == [] || (Admissible(c, s, ops[0]) && AllAdmissible(c, Step(c, s, ops[0]), ops[1..]))
  }

  /** Every state of the run is in the window. */
  ghost predicate AllInWindow(c: Config, s: Conv, ops: seq<Op>)
    requires ValidConfig(c)
    decreases |ops|
  {
    Window(c, s) && (ops != [] ==> AllInWindow(c, Step(c, s, ops[0]), ops[1..]))
  }

  /** All runs, boost converters included: a run stays in the window throughout if and only if all its
      operations are admissible. */
  lemma {:induction false} RunInWindowExactly(c: Config, s: Conv, ops: seq<Op>)
    requires ValidConfig(c) && Window(c, s)
    ensures AllInWindow(c, s, ops) <==> AllAdmissible(c, s, ops)
    decreases |ops|
  {
    if ops != [] {
      StepInWindowExactly(c, s, ops[0]);
      hide Window, Admissible, Step;
      if Window(c, Step(c, s, ops[0])) { RunInWindowExactly(c, Step(c, s, ops[0]), ops[1..]); }
    }
  }

  /** Full duty is within reach of every boost converter: from power-up, a large step, sync
      rectification and one more count leave the control switch on for the whole period and the low
      side on as well. */
  lemma BoostFullDutyBreaksWindow(c: Config)
    requires ValidConfig(c) && c.rectMin == 0 && c.pwmMax >= 2
    ensures var ops := [OpPerturb(c.pwmMax - 1), OpEnableSyncRect(true, false), OpPerturb(1)];
            var t := Run(c, InitConv(), ops);
            t.ctrl == c.pwmMax && t.rect > 0 && !Window(c, t)
  {
    InitInWindow(c);
    var s1 := Perturb(c, InitConv(), c.pwmMax - 1);
    PerturbKeepsWindow(c, InitConv(), c.pwmMax - 1);
    BoostStarts(c);
    var s2 := s1.(sync := true);
    PerturbInWindowExactly(c, s2, 1);
    BoostTops(c, s2);
    hide Perturb;
    RunOfThree(c, InitConv(), OpPerturb(c.pwmMax - 1), OpEnableSyncRect(true, false), OpPerturb(1));
  }

  lemma RunOfThree(c: Config, s: Conv, a: Op, b: Op, d: Op)
    requires ValidConfig(c)
    ensures Run(c, s, [a, b, d]) == Step(c, Step(c, Step(c, s, a), b), d)
  {
    hide Step;
    assert [a, b, d][1..] == [b, d] && [b, d][1..] == [d] && [d][1..] == [];
    var t := Step(c, Step(c, s, a), b);
    assert Run(c, Step(c, t, d), []) == Step(c, t, d);
    assert Run(c, t, [d]) == Step(c, t, d);
  }

  lemma BoostStarts(c: Config)
    requires ValidConfig(c) && c.rectMin == 0 && c.pwmMax >= 2
    ensures var t := Perturb(c, InitConv(), c.pwmMax - 1);
            t.ctrl == c.pwmMax - 1 && t.rect == 0 && !t.dcm && !t.sync && t.manual == -1 && !t.forced
  {
    hide Limit;
  }

  lemma BoostTops(c: Config, s: Conv)
    requires ValidConfig(c) && c.rectMin == 0 && s.ctrl == c.pwmMax - 1 && s.manual == -1 && s.sync && !s.dcm
    requires s.rect <= c.pwmMax
    ensures var t := Perturb(c, s, 1); t.ctrl == c.pwmMax && t.rect > 0
  {
    var u := Limiting(c, s, 1);
    TopLimit(c, u);
    TopFade(c, Limit(c, u));
    hide Limit, Fade;
  }

  /** All runs: the window holds after any sequence of public operations. */
  lemma {:induction false} RunKeepsWindow(c: Config, s: Conv, ops: seq<Op>)
    requires ValidConfig(c) && c.rectMin >= 1 && Window(c, s)
    ensures Window(c, Run(c, s, ops))
    ensures NoWrap(c, Run(c, s, ops))
    decreases |ops|
  {
    if ops == [] {
      CcmLimitWrapsExactly(c, s);
    } else {
      StepInWindowExactly(c, s, ops[0]);
      RunKeepsWindow(c, Step(c, s, ops[0]), ops[1..]);
    }
  }

  lemma InitInWindow(c: Config)
    requires ValidConfig(c)
    ensures Window(c, InitConv())
  {
  }
}
