/** The manual ramp of updateManual(): every tick outside a backoff brings the duty nearer to its
    target, so any target is reached, or the converter is off, after a bounded number of ticks. */
module ControllerManual {
  import opened Numbers
  import opened Converter
  import opened ConverterWindow
  import opened Controller
  import opened ControllerSafety

  function Distance(s: Ctl): nat {
    if s.conv.ctrl > s.manualTarget then s.conv.ctrl - s.manualTarget else s.manualTarget - s.conv.ctrl
  }

  ghost predicate Ramping(c: Setup, s: Ctl) {
    ValidSetup(c) && Safe(c, s) && !InBackoff(s) && 0 < s.manualTarget <= c.conv.ctrlMax
  }

  lemma RampIsPositive(c: Setup)
    ensures RampStep(c) >= 1
  {
  }

  /** A 512th of the period, rounded, and at least a count. */
  lemma RampStepExactly(c: Setup)
    ensures RampStep(c) >= 1
    ensures RampStep(c) == 1 || -0.5 <= RampStep(c) as real - c.conv.pwmMax as real / 512.0 <= 0.5
  {
  }

  /** One tick: the distance shrinks by the ramp step, or to nothing. */
  lemma RampApproaches(c: Setup, s: Ctl)
    requires Ramping(c, s)
    ensures var t := UpdateManual(c, s);
            && Distance(t) == MaxI(0, Distance(s) - RampStep(c))
            && Ramping(c, t) && t.manualTarget == s.manualTarget
  {
    hide Perturb, EnableSyncRect, RampStep;
    RampIsPositive(c);
    UpdateManualSafe(c, s);
    SideOpsHarmless(c, s.conv, true, false, false);
    var conv1 := if s.conv.ctrl == 0 && !c.paranoia then EnableSyncRect(c.conv, s.conv, true, false) else s.conv;
    PerturbMoves(c, conv1, Constrain(s.manualTarget - s.conv.ctrl, -RampStep(c), RampStep(c)));
  }

  function Ticks(c: Setup, s: Ctl, n: nat): Ctl
    requires ValidSetup(c)
  {
    if n == 0 then s else UpdateManual(c, Ticks(c, s, n - 1))
  }

  /** Any positive target is reached and held: after n ticks n ramp steps of the distance are gone. */
  lemma {:induction false} RampReaches(c: Setup, s: Ctl, n: nat)
    requires Ramping(c, s)
    ensures Distance(Ticks(c, s, n)) == MaxI(0, Distance(s) - n * RampStep(c))
    ensures Ramping(c, Ticks(c, s, n)) && Ticks(c, s, n).manualTarget == s.manualTarget
  {
    hide UpdateManual, Ramping, RampStep;
    RampIsPositive(c);
    RampingIsValid(c, s);
    if n > 0 {
      RampReaches(c, s, n - 1);
      RampApproaches(c, Ticks(c, s, n - 1));
      assert n * RampStep(c) == (n - 1) * RampStep(c) + RampStep(c);
    }
  }

  lemma RampingIsValid(c: Setup, s: Ctl)
    ensures Ramping(c, s) ==> ValidSetup(c)
  {
  }

  ghost predicate RampingDown(c: Setup, s: Ctl) {
    ValidSetup(c) && Safe(c, s) && !InBackoff(s) && s.manualTarget == 0
  }

  /** Target 0: down to the minimum duty, and off from there. */
  lemma RampDownApproaches(c: Setup, s: Ctl)
    requires RampingDown(c, s)
    ensures var t := UpdateManual(c, s);
            && t.conv.ctrl == (if s.conv.ctrl <= 1 then 0 else MaxI(1, s.conv.ctrl - RampStep(c)))
            && (s.conv.ctrl > 0 && t.conv.ctrl == 0 ==> t.conv.rect == 0)
            && (s.conv.ctrl == 0 ==> t.conv == s.conv)
            && RampingDown(c, t)
  {
    hide Perturb, RampStep;
    RampIsPositive(c);
    UpdateManualSafe(c, s);
    PerturbMoves(c, s.conv, -RampStep(c));
  }

  /** So the control switch is off after as many ticks as there are ramp steps in its duty, plus one;
      the low side of a converter that was running is off with it. One that was stopped keeps the
      low-side count it had. */
  lemma {:induction false} RampDownStops(c: Setup, s: Ctl, n: nat)
    requires RampingDown(c, s)
    ensures RampingDown(c, Ticks(c, s, n))
    ensures n >= 1 && s.conv.ctrl <= 1 + (n - 1) * RampStep(c) ==> Ticks(c, s, n).conv.ctrl == 0
    ensures Ticks(c, s, n).conv.ctrl <= MaxI(1, s.conv.ctrl - n * RampStep(c))
    ensures s.conv.ctrl > 0 && Ticks(c, s, n).conv.ctrl == 0 ==> Ticks(c, s, n).conv.rect == 0
    ensures s.conv.ctrl == 0 ==> Ticks(c, s, n).conv == s.conv
  {
    hide UpdateManual, RampingDown, RampStep;
    RampIsPositive(c);
    RampingDownIsValid(c, s);
    if n > 0 {
      RampDownStops(c, s, n - 1);
      RampDownApproaches(c, Ticks(c, s, n - 1));
      assert n * RampStep(c) == (n - 1) * RampStep(c) + RampStep(c);
    }
  }

  lemma RampingDownIsValid(c: Setup, s: Ctl)
    ensures RampingDown(c, s) ==> ValidSetup(c)
  {
  }
}
