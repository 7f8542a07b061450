/** The duty window under the controller. In every run of every configuration the converter is outside
    the window exactly at full duty without a bootstrap minimum while the low side is on; this module
    says which events take it there, and that an ordinary `dc` to full duty does. */
module ControllerWindow {
  import opened Numbers
  import opened Converter
  import opened ConverterWindow
  import opened Controller
  import opened ControllerSafety
  import opened ControllerRuns
  import opened ControllerSweep
  import opened ControllerLowSide
  import opened ControllerManual

  lemma KeptWindow(c: Config, s: Conv)
    requires ValidConfig(c) && Kept(c, s)
    ensures Window(c, s) <==> c.rectMin >= 1 || s.ctrl < c.ctrlMax || s.rect == 0
  {
  }

  /** Every reachable state of every configuration. */
  lemma ReachInWindowExactly(c: Setup, boot: nat, es: seq<Event>)
    requires ValidSetup(c) && forall e :: e in es ==> ValidEvent(e)
    ensures var t := Reach(c, Begin(c, boot), es).conv;
            Window(c.conv, t) <==> c.conv.rectMin >= 1 || t.ctrl < c.conv.ctrlMax || t.rect == 0
  {
    BeginSafe(c, boot);
    ReachSafe(c, Begin(c, boot), es);
    KeptWindow(c.conv, Reach(c, Begin(c, boot), es).conv);
    hide Begin, Reach, Kept, Window;
  }

  // ---- which events leave it -----------------------------------------------------------------

  lemma DcDuties(c: Setup, s: Ctl, e: Event)
    requires ValidSetup(c) && ValidEvent(e) && e.Dc?
    ensures var a, b := s.conv, Apply(c, s, e).conv;
            b.ctrl == a.ctrl
            && b.rect == if AcceptsHold(c, s, e) then U16(Constrain(e.ls.value, c.conv.rectMin, c.conv.pwmMax - a.ctrl - 1))
                         else a.rect
  {
    hide EnableSyncRect, U16, Constrain;
    EnableDuties(c.conv, s.conv, true, false);
  }

  /** Any event but a real-time iteration keeps the window, except exactly one: without a bootstrap
      minimum, a `dc` that holds the low side while the control switch is on all the time. */
  lemma EventInWindowExactly(c: Setup, s: Ctl, e: Event)
    requires ValidSetup(c) && Safe(c, s) && ValidEvent(e) && !e.RtNewData? && Window(c.conv, s.conv)
    ensures Window(c.conv, Apply(c, s, e).conv)
            <==> !(c.conv.rectMin == 0 && s.conv.ctrl == c.conv.ctrlMax && AcceptsHold(c, s, e))
  {
    hide Apply, AcceptsHold;
    StepSafe(c, s, e);
    KeptWindow(c.conv, s.conv);
    KeptWindow(c.conv, Apply(c, s, e).conv);
    hide Kept, Window;
    if e.Dc? { DcAtTop(c, s, e); } else {
      NoHold(c, s, e);
      OtherEvent(c, s, e);
    }
  }

  lemma DcAtTop(c: Setup, s: Ctl, e: Event)
    requires ValidSetup(c) && ValidEvent(e) && e.Dc?
    ensures var b := Apply(c, s, e).conv;
            && b.ctrl == s.conv.ctrl && (!AcceptsHold(c, s, e) ==> b.rect == s.conv.rect)
            && (c.conv.rectMin == 0 && s.conv.ctrl == c.conv.ctrlMax && AcceptsHold(c, s, e) ==> b.rect == 65535)
  {
    hide Apply;
    DcDuties(c, s, e);
  }

  lemma NoHold(c: Setup, s: Ctl, e: Event)
    ensures !e.Dc? ==> !AcceptsHold(c, s, e)
  {
  }

  /** A real-time iteration in manual mode reissues the duty it has set, and is in the window afterwards
      exactly if that duty is below full or leaves the low side off there. */
  lemma ManualInWindowExactly(c: Setup, s: Ctl, i: RtIn)
    requires ValidSetup(c) && Safe(c, s) && ValidEvent(RtNewData(i)) && s.manualPwm && !s.calibrating
    ensures var u := ControlBranch(c, s, i).conv;
            Window(c.conv, NewData(c, s, i).conv)
            <==> c.conv.rectMin >= 1 || u.ctrl < c.conv.ctrlMax || LowSideStaysOff(c.conv, u, 0)
  {
    hide ControlBranch, Perturb, LowSideStaysOff, Kept, Window;
    ControlBranchSafe(c, s, i);
    StaysManual(c, s, i);
    var t := ControlBranch(c, s, i);
    SafeDuty(c, t);
    if t.conv.ctrl == 0 { KeptWindow(c.conv, t.conv); } else {
      PerturbMoves(c, t.conv, 0);
      KeptWindow(c.conv, Perturb(c.conv, t.conv, 0));
      if c.conv.rectMin == 0 { PerturbInWindowExactly(c.conv, t.conv, 0); }
    }
  }

  lemma StaysManual(c: Setup, s: Ctl, i: RtIn)
    requires ValidSetup(c) && ValidEvent(RtNewData(i)) && s.manualPwm
    ensures ControlBranch(c, s, i).manualPwm
  {
    hide Guard, Perturb, EnableSyncRect, RampStep, Controller.Update;
    GuardOutcome(c, s, i);
  }

  lemma SafeDuty(c: Setup, s: Ctl)
    requires Safe(c, s)
    ensures Kept(c.conv, s.conv) && Duty(c.conv, s.conv)
  {
  }

  // ---- `dc` to full duty ---------------------------------------------------------------------

  /** A sample that shows continuous conduction. */
  predicate CcmSample(c: Config, m: Meas)
    requires ValidConfig(c)
  {
    var vh, vl := HighSide(c, m), LowSide(c, m);
    m.il >= 0.1 && (vh == 0.0 || RippleCurrent(c, vh, vl) <= m.il * 2.0)
  }

  /** An iteration with a new sample and nothing to protect from. */
  predicate Undisturbed(c: Config, i: RtIn)
    requires ValidConfig(c)
  {
    i.newSample && i.lf == LfOk && ValidTick(i.tick)
    && i.protect.NoTrip? && i.protect.rev == RevNone && !i.protect.lowCurrent && !i.protect.ratioFails
    && CcmSample(c, i.protect.m)
  }

  /** Sync rectification in continuous conduction, low side not held. */
  predicate Following(s: Conv) { s.sync && !s.dcm && s.manual < 0 }

  lemma CcmKeepsFollowing(c: Config, s: Conv, m: Meas)
    requires ValidConfig(c) && Following(s) && CcmSample(c, m)
    ensures var t := UpdateMaxDuty(c, s, m); Following(t) && t.ctrl == s.ctrl
  {
    hide Limit, WorstCaseRatio, RectCtrlRatio, RippleCurrent, HighSide, LowSide;
  }

  lemma ForwardKeepsFollowing(c: Config, s: Conv, d: nat)
    requires ValidConfig(c) && Following(s) && s.ctrl <= c.ctrlMax
    ensures var t := Perturb(c, s, d); Following(t) && t.ctrl == MaxI(CTRL_MIN, MinI(s.ctrl + d, c.ctrlMax))
  {
    hide Limit, Fade, HeldRect;
  }

  lemma FollowsToTop(c: Config, s: Conv)
    requires ValidConfig(c) && c.rectMin == 0 && Following(s) && s.ctrl == c.ctrlMax
    ensures Perturb(c, s, 0).rect > 0
  {
    var u := Limiting(c, s, 0);
    TopLimit(c, u);
    TopFade(c, Limit(c, u));
    hide Limit, Fade;
  }

  /** On the way to full duty by hand. */
  predicate Climbing(c: Setup, s: Ctl) {
    s.manualPwm && !s.calibrating && !InBackoff(s) && s.manualTarget == c.conv.ctrlMax
    && Following(s.conv) && s.conv.ctrl <= c.conv.ctrlMax
  }

  lemma ClimbTick(c: Setup, s: Ctl, i: RtIn)
    requires ValidSetup(c) && c.conv.rectMin == 0 && Climbing(c, s) && Undisturbed(c.conv, i)
    ensures var t := Apply(c, s, RtNewData(i));
            && Climbing(c, t) && t.conv.ctrl == MinI(c.conv.ctrlMax, s.conv.ctrl + RampStep(c))
            && (t.conv.ctrl == c.conv.ctrlMax ==> t.conv.rect > 0)
  {
    hide Perturb, UpdateMaxDuty, RampStep, Following, Guard, UpdateManual, CcmSample;
    RampIsPositive(c);
    UndisturbedGuard(c, s, i);
    var g := Guard(c, s, i).0;
    ClimbRamp(c, g);
    var u := UpdateManual(c, g);
    ForwardKeepsFollowing(c.conv, u.conv, 0);
    if u.conv.ctrl == c.conv.ctrlMax { FollowsToTop(c.conv, u.conv); }
    assert Apply(c, s, RtNewData(i)) == u.(conv := Perturb(c.conv, u.conv, 0));
    hide Apply;
  }

  lemma UndisturbedGuard(c: Setup, s: Ctl, i: RtIn)
    requires ValidSetup(c) && Climbing(c, s) && Undisturbed(c.conv, i)
    ensures var g := Guard(c, s, i); g.1 && Climbing(c, g.0) && g.0.conv.ctrl == s.conv.ctrl
  {
    hide UpdateMaxDuty, Following, CcmSample;
    CcmKeepsFollowing(c.conv, s.conv, i.protect.m);
  }

  lemma ClimbRamp(c: Setup, s: Ctl)
    requires ValidSetup(c) && Climbing(c, s)
    ensures var t := UpdateManual(c, s);
            Climbing(c, t) && t.conv.ctrl == MinI(c.conv.ctrlMax, s.conv.ctrl + RampStep(c)) && t.conv.ctrl > 0
  {
    hide Perturb, RampStep, EnableSyncRect, Following;
    RampIsPositive(c);
    var conv1 := if s.conv.ctrl == 0 && !c.paranoia then EnableSyncRect(c.conv, s.conv, true, false) else s.conv;
    EnableKeepsFollowing(c.conv, s.conv);
    if s.conv.ctrl < c.conv.ctrlMax {
      ForwardKeepsFollowing(c.conv, conv1, MinI(c.conv.ctrlMax - s.conv.ctrl, RampStep(c)));
    }
  }

  lemma EnableKeepsFollowing(c: Config, s: Conv)
    ensures var t := EnableSyncRect(c, s, true, false); t == s.(sync := true) && (Following(s) ==> Following(t))
  {
  }

  lemma {:induction false} Climbs(c: Setup, s: Ctl, i: RtIn, n: nat)
    requires ValidSetup(c) && c.conv.rectMin == 0 && Climbing(c, s) && Undisturbed(c.conv, i)
    ensures var es := seq(n, _ => RtNewData(i));
            (forall e :: e in es ==> ValidEvent(e))
            && var t := Reach(c, s, es);
               && t.conv.ctrl == MinI(c.conv.ctrlMax, s.conv.ctrl + n * RampStep(c))
               && (n > 0 && t.conv.ctrl == c.conv.ctrlMax ==> t.conv.rect > 0)
    decreases n
  {
    hide Apply, Climbing, RampStep;
    RampIsPositive(c);
    var es := seq(n, _ => RtNewData(i));
    if n == 0 { ClimbingDuty(c, s); } else {
      ClimbTick(c, s, i);
      var r := RampStep(c);
      assert n * r == (n - 1) * r + r && (n - 1) * r >= 0 by { Multiples(n, r); }
      assert es[0] == RtNewData(i);
      assert es[1..] == seq(n - 1, _ => RtNewData(i));
      Climbs(c, Apply(c, s, RtNewData(i)), i, n - 1);
    }
  }

  lemma Multiples(n: nat, r: int)
    requires n > 0
    ensures n * r == (n - 1) * r + r && (r >= 1 ==> (n - 1) * r >= 0)
  {
  }

  lemma ClimbingDuty(c: Setup, s: Ctl)
    ensures Climbing(c, s) ==> s.conv.ctrl <= c.conv.ctrlMax
  {
  }

  /** An ordinary run out of the window, for every boost setup: the first calibration ends, `dc` asks for
      full duty, and undisturbed iterations in continuous conduction ramp up to it. */
  lemma DcFullDutyLeavesWindow(c: Setup, i: RtIn, n: nat)
    requires ValidSetup(c) && c.conv.rectMin == 0 && !c.paranoia && Undisturbed(c.conv, i)
    requires n > 0 && n * RampStep(c) >= c.conv.ctrlMax
    ensures var es := [CalibrationEnds, Dc(c.conv.ctrlMax, None)] + seq(n, _ => RtNewData(i));
            (forall e :: e in es ==> ValidEvent(e))
            && var t := Reach(c, Begin(c, 0), es).conv;
               t.ctrl == c.conv.ctrlMax && t.rect > 0 && !Window(c.conv, t)
  {
    var s := Apply(c, Apply(c, Begin(c, 0), CalibrationEnds), Dc(c.conv.ctrlMax, None));
    DcStartsClimbing(c);
    var rest := seq(n, _ => RtNewData(i));
    Climbs(c, s, i, n);
    ReachTwo(c, Begin(c, 0), CalibrationEnds, Dc(c.conv.ctrlMax, None), rest);
    hide Apply, Begin, RampStep, Climbing;
  }

  lemma DcStartsClimbing(c: Setup)
    requires ValidSetup(c) && !c.paranoia
    ensures var s := Apply(c, Apply(c, Begin(c, 0), CalibrationEnds), Dc(c.conv.ctrlMax, None));
            Climbing(c, s) && s.conv.ctrl == 0
  {
  }

  lemma ReachTwo(c: Setup, s: Ctl, a: Event, b: Event, rest: seq<Event>)
    requires ValidSetup(c) && ValidEvent(a) && ValidEvent(b) && forall e :: e in rest ==> ValidEvent(e)
    ensures Reach(c, s, [a, b] + rest) == Reach(c, Apply(c, Apply(c, s, a), b), rest)
  {
    hide Apply;
    assert ([a, b] + rest)[1..] == [b] + rest && ([b] + rest)[1..] == rest;
  }
}
