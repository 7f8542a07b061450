/** Backoff safety over every interleaving: while a protection backoff runs, the control switch is off
    and no sweep is in progress. What the low side does is the subject of ControllerLowSide. */
module ControllerSafety {
  import opened Numbers
  import opened Converter
  import opened ConverterWindow
  import opened Controller

  /** The converter's own invariant: the duty range in every configuration, and the duty window where
      there is a bootstrap minimum or the control switch is below full duty. */
  ghost predicate Kept(c: Config, s: Conv) {
    Duty(c, s) && (c.rectMin >= 1 || s.ctrl < c.ctrlMax ==> Window(c, s))
  }

  /** What every step keeps. Besides the goal (second line) it holds the facts no single function
      shows: a sweep never starts or survives while limiting, the boot-duty mode is only entered in
      manual mode, and a disabled converter is only ever left by a positive step. */
  ghost predicate Safe(c: Setup, s: Ctl) {
    && Kept(c.conv, s.conv)
    && (InBackoff(s) ==> s.conv.ctrl == 0 && !s.sweeping)
    && (s.sweeping ==> !s.limiting)
    && (s.bootTarget != 0 ==> s.manualPwm)
    && s.backoffUntil <= s.now + s.backoffArmed * SECOND
    && s.backoffArmed in {0, DEFAULT_BACKOFF, LONG_BACKOFF}
    && !s.conv.badStart
  }

  // ---- converter steps as the controller uses them -------------------------------------------

  /** A change of the converter that neither moves the control count nor leaves the window. */
  ghost predicate Harmless(c: Setup, a: Conv, b: Conv) {
    b.ctrl == a.ctrl && b.badStart == a.badStart && (Kept(c.conv, a) ==> Kept(c.conv, b))
  }

  lemma DisableKeepsDuty(c: Setup, a: Conv)
    requires ValidSetup(c) && Kept(c.conv, a)
    ensures Kept(c.conv, Disable(a)) && Disable(a).ctrl == 0 && Disable(a).badStart == a.badStart
  {
  }

  lemma SideOpsHarmless(c: Setup, a: Conv, en: bool, over: bool, forced: bool)
    requires ValidSetup(c)
    ensures Harmless(c, a, EnableSyncRect(c.conv, a, en, over))
    ensures Harmless(c, a, SyncRectMinDuty(c.conv, a))
    ensures Harmless(c, a, a.(forced := forced))
  {
  }

  lemma ManualRectHarmless(c: Setup, a: Conv, ls: int)
    requires ValidSetup(c)
    ensures Harmless(c, a, SetManualRect(c.conv, a, ls))
  {
    if Duty(c.conv, a) { ManualRectKeepsDuty(c.conv, a, ls); }
    if Window(c.conv, a) && (c.conv.rectMin >= 1 || a.ctrl < c.conv.ctrlMax) { ManualRectInWindow(c.conv, a, ls); }
  }

  lemma UpdateMaxHarmless(c: Setup, a: Conv, m: Meas)
    requires ValidSetup(c)
    ensures Harmless(c, a, UpdateMaxDuty(c.conv, a, m))
  {
    hide Limit, ComputeSyncRectRatio;
    if Kept(c.conv, a) { UpdateMaxKeepsDuty(c.conv, a, m); }
    if Window(c.conv, a) { UpdateMaxKeepsWindow(c.conv, a, m); }
    RatioKeepsDuties(c.conv, a, m);
  }

  /** Integer steps: where the control count ends, and that a stopped one only starts forward. */
  lemma PerturbMoves(c: Setup, a: Conv, d: int)
    requires ValidSetup(c) && Kept(c.conv, a)
    ensures var b := Perturb(c.conv, a, d);
            Kept(c.conv, b) && b.ctrl == Constrain(a.ctrl + d, 1, c.conv.ctrlMax)
            && (a.ctrl > 0 || d > 0 ==> b.badStart == a.badStart)
  {
    hide Perturb, Window;
    PerturbKeepsDuty(c.conv, a, d);
    if c.conv.rectMin >= 1 || !ReachesTop(c.conv, a, d) { PerturbKeepsWindow(c.conv, a, d); }
  }

  /** Fractional steps of a request r >= -ctrl: a non-positive one never raises duty (nor starts a
      stopped converter), a positive one raises it by less than r + 1. */
  lemma FractionMoves(c: Setup, a: Conv, r: real)
    requires ValidSetup(c) && Kept(c.conv, a) && -(a.ctrl as real) <= r <= c.conv.pwmMax as real
    ensures var b := PerturbFractional(c.conv, a, Num(r));
            && InRange(c.conv, Num(r))
            && Kept(c.conv, b) && b.badStart == a.badStart
            && (r <= 0.0 ==> b.ctrl <= a.ctrl)
            && (a.ctrl > 0 && r >= 0.0 ==> a.ctrl <= b.ctrl && b.ctrl as real < a.ctrl as real + r + 1.0)
  {
    IntStepIsTrunc(c.conv, a, r);
    hide IntStep;
    var k := IntStep(a, r);
    if k != 0 {
      PerturbMoves(c, a.(frac := 0.0), k);
    }
    hide Perturb;
  }

  lemma SignOfScaled(v: real, g: real)
    requires g >= 0.0
    ensures v < 0.0 ==> v * g <= 0.0
    ensures v >= 0.0 ==> v * g >= 0.0
  {
  }

  /** The final request of a tick never leaves [-ctrl, cap]; a negative control value never asks for
      a positive step. */
  lemma RequestRange(c: Setup, s: Ctl, value: Float)
    requires ValidSetup(c) && Kept(c.conv, s.conv)
    ensures var q := Request(c, s, value);
            q == NaN
            || (q.Num? && -(s.conv.ctrl as real) <= q.r <= StepCap(c) <= c.conv.pwmMax as real
                && (Less(value, Num(0.0)) ==> q.r <= 0.0)
                && (value.Num? && value.r >= 0.0 ==> q.r >= 0.0))
  {
    hide Gain, U64, Kept;
    var g := Gain(c, U64(s.now - s.lastUs));
    if value.Num? { SignOfScaled(value.r, g); }
  }

  // ---- state changes -------------------------------------------------------------------------

  lemma ShutdownKeepsSafe(c: Setup, s: Ctl, sec: nat)
    requires ValidSetup(c) && Safe(c, s) && sec in {0, DEFAULT_BACKOFF, LONG_BACKOFF}
    ensures Safe(c, ShutdownDcdc(s, sec)) && ShutdownDcdc(s, sec).conv.ctrl == 0
  {
    DisableKeepsDuty(c, s.conv);
    hide Kept, Disable;
  }

  /** Replacing the converter by a harmless successor, or by one that is off. */
  lemma ConvKeepsSafe(c: Setup, s: Ctl, conv: Conv)
    requires Safe(c, s) && Kept(c.conv, conv) && !conv.badStart
    requires conv.ctrl == 0 || !InBackoff(s) || conv.ctrl == s.conv.ctrl
    ensures Safe(c, s.(conv := conv))
  {
  }

  lemma StartSweepSafe(c: Setup, s: Ctl)
    requires ValidSetup(c) && Safe(c, s) && !InBackoff(s)
    ensures Safe(c, StartSweep(s))
  {
    DisableKeepsDuty(c, s.conv);
    hide Kept, Disable;
  }

  // ---- the control tick ----------------------------------------------------------------------

  /** State in the middle of a tick: like Safe, but a sweep may already be known to be limited. */
  ghost predicate MidTick(c: Setup, s: Ctl) {
    Safe(c, s.(limiting := false))
  }

  /** After the scan: either nothing tripped, or the converter is off with a negative minimum. */
  lemma {:induction false} ScanSafe(c: Setup, s: Ctl, cvs: seq<Float>, n: nat)
    requires ValidSetup(c) && Safe(c, s) && !InBackoff(s) && n <= |cvs|
    ensures var a := ScanTo(c, s, cvs, n);
            && Safe(c, a.s) && a.s.bootTarget == s.bootTarget && a.s.calibrating == s.calibrating && a.lim != NaN
            && (a.s == s || (InBackoff(a.s) && a.s.conv.ctrl == 0 && !a.s.sweeping && Less(a.lim, Num(0.0))))
  {
    if n > 0 {
      ScanSafe(c, s, cvs, n - 1);
      var a := ScanTo(c, s, cvs, n - 1);
      ShutdownKeepsSafe(c, a.s, DEFAULT_BACKOFF);
      hide Safe, Disable;
    }
  }

  /** A negative output makes the minimum negative, and only a negative output does. */
  lemma {:induction false} ScanNegative(c: Setup, s: Ctl, cvs: seq<Float>, n: nat)
    requires n <= |cvs|
    ensures var a := ScanTo(c, s, cvs, n);
            && (Less(a.lim, Num(0.0)) ==> 0 <= a.idx < n)
            && ((exists k :: 0 <= k < n && Less(cvs[k], Num(0.0))) ==> Less(a.lim, Num(0.0)))
            && a.lim != NaN
  {
    if n > 0 {
      ScanNegative(c, s, cvs, n - 1);
      hide NanTrips, ShutdownDcdc;
    }
  }

  /** The value of the tick before scaling. */
  function FinalValue(p: Phase, lim: Float, i: TickIn): Float {
    MinF(if p.mode == ModeNone then i.tracker else p.value, lim)
  }

  lemma FinishSafe(c: Setup, p: Phase, lim: Float, i: TickIn)
    requires ValidSetup(c) && Safe(c, p.s)
    requires InBackoff(p.s) ==> Less(FinalValue(p, lim, i), Num(0.0))
    ensures Safe(c, Finish(c, p, lim, i))
  {
    hide Kept, PerturbFractional, EnableSyncRect, Request, StepCap;
    var v := FinalValue(p, lim, i);
    var s1 := p.s.(mode := if p.mode == ModeNone then MPPT else p.mode);
    if s1.lastUs != 0 {
      RequestRange(c, s1, v);
      var q := Request(c, s1, v);
      if InRange(c.conv, q) {
        FractionMoves(c, s1.conv, q.r);
        SideOpsHarmless(c, PerturbFractional(c.conv, s1.conv, q), i.syncOn, false, false);
      }
    } else {
      SideOpsHarmless(c, s1.conv, i.syncOn, false, false);
    }
  }

  /** What the verdict of the controllers guarantees before the sweep and fade branches run. */
  ghost predicate Decided(c: Setup, p: Phase, lim: Float) {
    && !p.s.calibrating && MidTick(c, p.s)
    && (p.s.sweeping && p.s.limiting ==> p.mode != ModeNone)
    && (p.s.sweeping && p.mode != ModeNone ==> Less(MinF(p.value, lim), Num(0.0)))
    && (InBackoff(p.s) ==> p.mode != ModeNone && p.mode != MPPT && Less(MinF(p.value, lim), Num(0.0)))
  }

  lemma SweepEnables(c: Setup, s: Ctl)
    requires ValidSetup(c) && MidTick(c, s) && !InBackoff(s)
    ensures MidTick(c, if s.conv.ctrl == 0 then s.(conv := Perturb(c.conv, s.conv, 1)) else s)
  {
    hide Perturb;
    if s.conv.ctrl == 0 { PerturbMoves(c, s.conv, 1); }
  }

  lemma StopSweepSafe(c: Setup, s: Ctl)
    requires ValidSetup(c) && MidTick(c, s)
    ensures Safe(c, StopSweep(s))
  {
    hide Kept;
    ShutdownKeepsSafe(c, s.(sweeping := false, target := 0), LONG_BACKOFF);
    hide ShutdownDcdc;
  }

  lemma SweepTickSafe(c: Setup, p: Phase, lim: Float, power: Float)
    requires ValidSetup(c) && Decided(c, p, lim) && p.s.sweeping && !InBackoff(p.s)
    ensures var r := SweepTick(c, p, lim, power);
            Safe(c, r.s) && r.mode != ModeNone
            && (InBackoff(r.s) ==> Less(MinF(r.value, lim), Num(0.0)))
  {
    hide Perturb, Kept, StopSweep;
    SweepEnables(c, p.s);
    var s1 := if p.s.conv.ctrl == 0 then p.s.(conv := Perturb(c.conv, p.s.conv, 1)) else p.s;
    if p.mode != ModeNone {
      StopSweepSafe(c, s1);
    }
  }

  lemma RouteSafe(c: Setup, p: Phase, lim: Float, i: TickIn)
    requires ValidSetup(c) && Decided(c, p, lim)
    ensures var r := Route(c, p, lim, i.power);
            Safe(c, r.s) && (InBackoff(r.s) ==> Less(FinalValue(r, lim, i), Num(0.0)))
  {
    if p.s.sweeping {
      SweepTickSafe(c, p, lim, i.power);
    }
    hide SweepTick, Kept;
  }

  lemma DecideSafe(c: Setup, s: Ctl, i: TickIn)
    requires ValidSetup(c) && Safe(c, s) && !InBackoff(s) && !s.calibrating && ValidTick(i)
    ensures Decided(c, Decide(c, s, i), ScanTo(c, s, i.cvs, 5).lim)
    ensures Decide(c, s, i).s.bootTarget == s.bootTarget
  {
    hide Kept;
    ScanSafe(c, s, i.cvs, 5);
    ScanNegative(c, s, i.cvs, 5);
    hide ScanTo;
    var a := ScanTo(c, s, i.cvs, 5);
    var j := Judge(a);
    assert a.s.sweeping || InBackoff(a.s) ==> j.mode != MPPT;
    assert j.mode == ModeNone || j.value == a.lim;
  }

  lemma UpdateSafe(c: Setup, s: Ctl, i: TickIn)
    requires ValidSetup(c) && Safe(c, s) && !s.calibrating && ValidTick(i) && s.bootTarget == 0
    ensures Safe(c, Update(c, s, i))
  {
    if s.conv.ctrl == 0 && !StartCondition(s, i.startOk) {
    } else if ResweepDue(s, i) {
      StartSweepSafe(c, s);
    } else {
      var p := Decide(c, s, i);
      var lim := ScanTo(c, s, i.cvs, 5).lim;
      DecideSafe(c, s, i);
      RouteSafe(c, p, lim, i);
      FinishSafe(c, Route(c, p, lim, i.power), lim, i);
    }
    hide Kept, Finish, Route, Decide, ScanTo, StartSweep;
  }

  // ---- the other steps -----------------------------------------------------------------------

  lemma UpdateManualSafe(c: Setup, s: Ctl)
    requires ValidSetup(c) && Safe(c, s)
    ensures Safe(c, UpdateManual(c, s))
  {
    if InBackoff(s) || s.manualTarget == 0 { ManualStopSafe(c, s); } else { ManualRampSafe(c, s); }
  }

  lemma ManualStopSafe(c: Setup, s: Ctl)
    requires ValidSetup(c) && Safe(c, s) && (InBackoff(s) || s.manualTarget == 0)
    ensures Safe(c, UpdateManual(c, s))
  {
    hide Perturb, RampStep, Disable, Kept;
    DisableKeepsDuty(c, s.conv);
    PerturbMoves(c, s.conv, -RampStep(c));
  }

  lemma ManualRampSafe(c: Setup, s: Ctl)
    requires ValidSetup(c) && Safe(c, s) && !InBackoff(s) && s.manualTarget != 0
    ensures Safe(c, UpdateManual(c, s))
  {
    hide Perturb, RampStep, EnableSyncRect, Constrain, Kept;
    var step := Constrain(s.manualTarget - s.conv.ctrl, -RampStep(c), RampStep(c));
    if s.conv.ctrl == 0 { ManualStepForward(c, s); }
    SideOpsHarmless(c, s.conv, true, false, false);
    var conv1 := if s.conv.ctrl == 0 && !c.paranoia then EnableSyncRect(c.conv, s.conv, true, false) else s.conv;
    PerturbMoves(c, conv1, step);
  }

  lemma ManualStepForward(c: Setup, s: Ctl)
    requires s.conv.ctrl == 0
    ensures Constrain(s.manualTarget - s.conv.ctrl, -RampStep(c), RampStep(c)) >= 0
  {
  }

  lemma ProtectSafe(c: Setup, s: Ctl, p: ProtectIn)
    requires ValidSetup(c) && Safe(c, s) && ValidTrip(p)
    ensures var r := Protect(c, s, p); Safe(c, r.0) && (r.1 ==> r.0.calibrating == s.calibrating)
  {
    match p
    case TripEarly(sec, recalibrate) => ShutdownKeepsSafe(c, s, sec);
    case TripLate(rev, low, sec) =>
      ReactSafe(c, s, rev, low);
      ShutdownKeepsSafe(c, ReactLowCurrent(c, ReactReverse(c, s, rev), low), sec);
    case NoTrip(rev, low, m, ratioFails) =>
      ReactSafe(c, s, rev, low);
      var s1 := ReactLowCurrent(c, ReactReverse(c, s, rev), low);
      UpdateMaxHarmless(c, s1.conv, m);
      var s2 := s1.(conv := UpdateMaxDuty(c.conv, s1.conv, m));
      ConvKeepsSafe(c, s1, s2.conv);
      ShutdownKeepsSafe(c, s2, DEFAULT_BACKOFF);
  }

  lemma ReactSafe(c: Setup, s: Ctl, rev: Reverse, low: bool)
    requires ValidSetup(c) && Safe(c, s)
    ensures var t := ReactLowCurrent(c, ReactReverse(c, s, rev), low);
            Safe(c, t) && t.calibrating == s.calibrating
  {
    ShutdownKeepsSafe(c, s, DEFAULT_BACKOFF);
    SideOpsHarmless(c, s.conv, false, false, false);
    SideOpsHarmless(c, ReactReverse(c, s, rev).conv, false, false, false);
    hide Kept, SyncRectMinDuty, ShutdownDcdc;
  }

  lemma GuardSafe(c: Setup, s: Ctl, i: RtIn)
    requires ValidSetup(c) && Safe(c, s) && ValidTrip(i.protect)
    ensures var r := Guard(c, s, i); Safe(c, r.0) && (r.1 ==> r.0.calibrating == s.calibrating)
  {
    hide Safe, Protect, ProtectLf;
    if s.conv.ctrl != 0 {
      ProtectSafe(c, s, i.protect);
      ProtectLfSafe(c, Protect(c, s, i.protect).0, i.lf);
    }
  }

  lemma ProtectLfSafe(c: Setup, s: Ctl, lf: LfIn)
    requires ValidSetup(c) && Safe(c, s)
    ensures var r := ProtectLf(s, lf); Safe(c, r.0) && r.0.calibrating == s.calibrating
  {
    hide Kept, Disable, ShutdownDcdc;
    ShutdownKeepsSafe(c, s, DEFAULT_BACKOFF);
    ShutdownKeepsCalibrating(s, DEFAULT_BACKOFF);
    DisableKeepsDuty(c, s.conv);
  }

  lemma ShutdownKeepsCalibrating(s: Ctl, sec: nat)
    ensures ShutdownDcdc(s, sec).calibrating == s.calibrating
  {
  }

  lemma StopAndBackoffSafe(c: Setup, s: Ctl, sec: nat)
    requires ValidSetup(c) && Safe(c, s)
    ensures Safe(c, StopAndBackoff(s, sec))
  {
    ShutdownKeepsSafe(c, s, DEFAULT_BACKOFF);
    hide ShutdownDcdc, Kept;
  }

  lemma ControlBranchSafe(c: Setup, s: Ctl, i: RtIn)
    requires ValidSetup(c) && Safe(c, s) && !s.calibrating && ValidTick(i.tick) && ValidTrip(i.protect)
    ensures Safe(c, ControlBranch(c, s, i))
  {
    GuardSafe(c, s, i);
    var g := Guard(c, s, i);
    StopAndBackoffSafe(c, g.0, 4);
    UpdateManualSafe(c, g.0);
    if g.1 && !g.0.manualPwm {
      UpdateSafe(c, g.0, i.tick);
    }
    hide Guard, Update, UpdateManual, Kept, StopAndBackoff;
  }

  lemma NewDataSafe(c: Setup, s: Ctl, i: RtIn)
    requires ValidSetup(c) && Safe(c, s) && ValidTick(i.tick) && ValidTrip(i.protect)
    ensures Safe(c, NewData(c, s, i))
  {
    var s1 :=
      if s.calibrating then ShutdownDcdc(s, 0)
      else if Active(s) || s.manualPwm then ControlBranch(c, s, i)
      else if s.now > s.delayStart && StartCondition(s, i.tick.startOk) && i.sweepAllowed then
        StartSweep(s).(delayStart := s.now + 4 * SECOND)
      else s;
    ShutdownKeepsSafe(c, s, 0);
    if !s.calibrating { ControlBranchSafe(c, s, i); }
    if !InBackoff(s) { StartSweepSafe(c, s); }
    hide ControlBranch, StartSweep, ShutdownDcdc;
    assert Safe(c, s1);
    if s1.conv.ctrl != 0 { PerturbMoves(c, s1.conv, 0); }
    hide Perturb, Kept;
  }

  lemma CmdDcSafe(c: Setup, s: Ctl, dc: int, ls: Option<int>)
    requires ValidSetup(c) && Safe(c, s)
    ensures Safe(c, CmdDc(c, s, dc, ls))
  {
    hide Kept, SetManualRect, EnableSyncRect;
    var conv1 := if (!s.manualPwm || s.conv.ctrl == 0) && dc != 0 && !c.paranoia
                 then EnableSyncRect(c.conv, s.conv, true, false) else s.conv;
    SideOpsHarmless(c, s.conv, true, false, false);
    ManualRectHarmless(c, conv1, if ls.Some? && dc > 0 then ls.value else -1);
  }

  lemma CmdSweepSafe(c: Setup, s: Ctl)
    requires ValidSetup(c) && Safe(c, s)
    ensures Safe(c, CmdSweep(c, s))
  {
    hide Kept, SetManualRect, StartSweep;
    ManualRectHarmless(c, s.conv, -1);
    var conv1 := if s.manualPwm then SetManualRect(c.conv, s.conv, -1) else s.conv;
    StartSweepSafe(c, ClearBackoff(s.(bootTarget := 0, manualPwm := false, conv := conv1)));
  }

  lemma CmdSyncSafe(c: Setup, s: Ctl, arg: Sync)
    requires ValidSetup(c) && Safe(c, s)
    ensures Safe(c, CmdSync(c, s, arg))
  {
    SideOpsHarmless(c, s.conv, true, false, false);
    SideOpsHarmless(c, s.conv.(forced := false), true, true, false);
    SideOpsHarmless(c, s.conv.(forced := false), false, true, false);
    SideOpsHarmless(c, EnableSyncRect(c.conv, s.conv, true, false), true, true, true);
    hide Kept, EnableSyncRect;
  }

  lemma OtherCommandSafe(c: Setup, s: Ctl, noInput: bool)
    requires ValidSetup(c) && Safe(c, s)
    ensures Safe(c, CmdMppt(c, s)) && Safe(c, OtaFailed(c, s)) && Safe(c, CmdShortLs(c, s, noInput))
  {
    DisableKeepsDuty(c, s.conv);
    ManualRectHarmless(c, s.conv, -1);
    hide Kept, SetManualRect, Disable;
  }

  /** Every step of the machine keeps the invariant. */
  lemma StepSafe(c: Setup, s: Ctl, e: Event)
    requires ValidSetup(c) && Safe(c, s) && ValidEvent(e)
    ensures Safe(c, Apply(c, s, e))
  {
    hide CmdDc, CmdSweep, CmdSync, CmdMppt, OtaFailed, CmdShortLs, NewData, StopAndBackoff, AdcPoll, Safe;
    match e
    case RtNewData(i) => NewDataSafe(c, s, i);
    case Dc(dc, ls) => CmdDcSafe(c, s, dc, ls);
    case SweepCmd => CmdSweepSafe(c, s);
    case SyncCmd(arg) => CmdSyncSafe(c, s, arg);
    case MpptCmd => OtherCommandSafe(c, s, false);
    case OtaFail => OtherCommandSafe(c, s, false);
    case ShortLs(noInput) => OtherCommandSafe(c, s, noInput);
    case _ => WatchdogSafe(c, s, e);
  }

  /** Time, calibration, watchdogs and the commands that leave the converter alone. */
  lemma WatchdogSafe(c: Setup, s: Ctl, e: Event)
    requires ValidSetup(c) && Safe(c, s)
    requires !e.RtNewData? && !e.Dc? && !e.SweepCmd? && !e.SyncCmd? && !e.MpptCmd? && !e.OtaFail? && !e.ShortLs?
    ensures Safe(c, Apply(c, s, e))
  {
    hide Kept, NewData, CmdDc, CmdSync, StopAndBackoff, Disable;
    match e
    case CalibrationFails(ended) => StopAndBackoffSafe(c, s.(calibrating := s.calibrating && !ended), 4);
    case LatencyWatchdog => StopAndBackoffSafe(c, s, 4);
    case Quiesce => StopAndBackoffSafe(c, s, 10);
    case AdcUpdate(stalled) =>
      StopAndBackoffSafe(c, s.(stalledMs := if s.stalledMs == 0 then s.now / 1000 else s.stalledMs), 16);
    case NeverSampled => DisableKeepsDuty(c, s.conv);
    case _ =>
  }
}
