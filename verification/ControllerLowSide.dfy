/** The low side of a converter that counts as off. `disabled()` looks at the control count only, but
    `dc` with a low-side argument commits that count at once, in a backoff too. This module says in
    which runs the low side is switching while the control switch is off, exactly. */
module ControllerLowSide {
  import opened Numbers
  import opened Converter
  import opened ConverterCommit
  import opened Controller
  import opened ControllerSafety
  import opened ControllerRuns

  /** The low side switches although the converter is disabled. */
  predicate Pulses(s: Ctl) { s.conv.ctrl == 0 && s.conv.rect > 0 }

  // ---- everything but `dc` leaves an idle low side alone -------------------------------------

  /** Not switching while disabled. */
  predicate Quiet(s: Conv) { s.ctrl == 0 ==> s.rect == 0 }

  lemma PerturbQuiet(c: Config, s: Conv, d: int)
    requires ValidConfig(c)
    ensures Quiet(Perturb(c, s, d)) && Perturb(c, s, d).ctrl > 0
  {
    hide Limit, Fade, HeldRect, PresumesDcm;
  }

  lemma FractionalQuiet(c: Config, s: Conv, f: Float)
    requires ValidConfig(c) && Quiet(s)
    ensures Quiet(PerturbFractional(c, s, f))
  {
    hide Perturb, IntStep;
    if InRange(c, f) { PerturbQuiet(c, s.(frac := 0.0), IntStep(s, f.r)); }
  }

  lemma SyncQuiet(c: Config, s: Conv, en: bool, over: bool)
    requires Quiet(s)
    ensures Quiet(EnableSyncRect(c, s, en, over))
  {
    hide SyncRectMinDuty;
    MinDutyQuiet(c, s.(sync := en));
  }

  lemma UpdateMaxQuiet(c: Config, s: Conv, m: Meas)
    requires ValidConfig(c) && Quiet(s)
    ensures Quiet(UpdateMaxDuty(c, s, m))
  {
    hide Limit, WorstCaseRatio, RectCtrlRatio, ComputeDcm;
  }

  lemma {:induction false} ScanQuiet(c: Setup, s: Ctl, cvs: seq<Float>, n: nat)
    requires n <= |cvs| && Quiet(s.conv)
    ensures Quiet(ScanTo(c, s, cvs, n).s.conv)
  {
    if n > 0 { ScanQuiet(c, s, cvs, n - 1); }
  }

  lemma RouteQuiet(c: Setup, p: Phase, lim: Float, power: Float)
    requires ValidSetup(c) && Quiet(p.s.conv)
    ensures Quiet(Route(c, p, lim, power).s.conv)
  {
    hide Perturb, Scale, MinF, StopSweep, Constrain;
    PerturbQuiet(c.conv, p.s.conv, 1);
    var s1 := if p.s.conv.ctrl == 0 then p.s.(conv := Perturb(c.conv, p.s.conv, 1)) else p.s;
    StopSweepQuiet(s1);
  }

  lemma StopSweepQuiet(s: Ctl)
    requires Quiet(s.conv)
    ensures Quiet(StopSweep(s).conv)
  {
  }

  lemma FinishQuiet(c: Setup, p: Phase, lim: Float, i: TickIn)
    requires ValidSetup(c) && Quiet(p.s.conv)
    ensures Quiet(Finish(c, p, lim, i).conv)
  {
    hide PerturbFractional, EnableSyncRect, Request, InRange, MinF;
    var v := MinF(if p.mode == ModeNone then i.tracker else p.value, lim);
    var f := Request(c, p.s.(mode := if p.mode == ModeNone then MPPT else p.mode), v);
    FractionalQuiet(c.conv, p.s.conv, f);
    SyncQuiet(c.conv, PerturbFractional(c.conv, p.s.conv, f), i.syncOn, false);
    SyncQuiet(c.conv, p.s.conv, i.syncOn, false);
  }

  lemma UpdateCvQuiet(c: Setup, s: Ctl, i: TickIn)
    requires ValidSetup(c) && Quiet(s.conv)
    ensures Quiet(UpdateCv(c, s, i).conv)
  {
    hide PerturbFractional, EnableSyncRect, CvStep, ShutdownDcdc, Quiet;
    var s0 := s.(mode := CV);
    if i.cvRequest.Num? {
      var f := CvStep(c, s0, i.cvRequest.r);
      var conv1 := if s.lastUs != 0 then PerturbFractional(c.conv, s.conv, f) else s.conv;
      FractionalQuiet(c.conv, s.conv, f);
      SyncQuiet(c.conv, conv1, i.syncOn, false);
      assert UpdateCv(c, s, i).conv == EnableSyncRect(c.conv, conv1, i.syncOn, false);
    } else { ShutdownQuiet(s0, DEFAULT_BACKOFF); }
  }

  lemma UpdateQuiet(c: Setup, s: Ctl, i: TickIn)
    requires ValidSetup(c) && ValidTick(i) && Quiet(s.conv)
    ensures Quiet(Update(c, s, i).conv)
  {
    UpdateCvQuiet(c, s, i);
    ScanQuiet(c, s, i.cvs, 5);
    ScanIndex(c, s, i.cvs, 5);
    hide ScanTo, Route, Finish, Controller.UpdateCv;
    var p, lim := Decide(c, s, i), ScanTo(c, s, i.cvs, 5).lim;
    RouteQuiet(c, p, lim, i.power);
    FinishQuiet(c, Route(c, p, lim, i.power), lim, i);
  }

  lemma UpdateManualQuiet(c: Setup, s: Ctl)
    requires ValidSetup(c) && Quiet(s.conv)
    ensures Quiet(UpdateManual(c, s).conv)
  {
    hide Perturb, RampStep, EnableSyncRect, Constrain;
    SyncQuiet(c.conv, s.conv, true, false);
    PerturbQuiet(c.conv, s.conv, -RampStep(c));
    var conv1 := if s.conv.ctrl == 0 && !c.paranoia then EnableSyncRect(c.conv, s.conv, true, false) else s.conv;
    PerturbQuiet(c.conv, conv1, Constrain(s.manualTarget - s.conv.ctrl, -RampStep(c), RampStep(c)));
  }

  lemma ProtectQuiet(c: Setup, s: Ctl, p: ProtectIn)
    requires ValidSetup(c) && Quiet(s.conv)
    ensures Quiet(Protect(c, s, p).0.conv)
  {
    hide ReactLowCurrent, ReactReverse, UpdateMaxDuty, ShutdownDcdc;
    match p
    case TripEarly(sec, _) => ShutdownQuiet(s, sec);
    case TripLate(rev, low, sec) => ShutdownQuiet(ReactLowCurrent(c, ReactReverse(c, s, rev), low), sec);
    case NoTrip(rev, low, m, _) =>
      ReverseQuiet(c, s, rev);
      LowCurrentQuiet(c, ReactReverse(c, s, rev), low);
      var s1 := ReactLowCurrent(c, ReactReverse(c, s, rev), low);
      UpdateMaxQuiet(c.conv, s1.conv, m);
      ShutdownQuiet(s1.(conv := UpdateMaxDuty(c.conv, s1.conv, m)), DEFAULT_BACKOFF);
  }

  lemma ShutdownQuiet(s: Ctl, sec: nat)
    ensures Quiet(ShutdownDcdc(s, sec).conv)
  {
  }

  lemma ReverseQuiet(c: Setup, s: Ctl, rev: Reverse)
    requires Quiet(s.conv)
    ensures Quiet(ReactReverse(c, s, rev).conv)
  {
    hide SyncRectMinDuty, ShutdownDcdc, Quiet;
    match rev
    case RevNone =>
    case RevHighAverage => ShutdownQuiet(s, DEFAULT_BACKOFF);
    case RevMinDuty => MinDutyQuiet(c.conv, s.conv);
  }

  lemma MinDutyQuiet(c: Config, s: Conv)
    requires Quiet(s)
    ensures Quiet(SyncRectMinDuty(c, s))
  {
  }

  lemma LowCurrentQuiet(c: Setup, s: Ctl, low: bool)
    requires Quiet(s.conv)
    ensures Quiet(ReactLowCurrent(c, s, low).conv)
  {
    hide SyncRectMinDuty, Quiet;
    MinDutyQuiet(c.conv, s.conv);
  }

  lemma ProtectLfQuiet(s: Ctl, lf: LfIn)
    requires Quiet(s.conv)
    ensures Quiet(ProtectLf(s, lf).0.conv)
  {
    hide ShutdownDcdc;
    ShutdownQuiet(s, DEFAULT_BACKOFF);
  }

  lemma GuardQuiet(c: Setup, s: Ctl, i: RtIn)
    requires ValidSetup(c) && Quiet(s.conv)
    ensures Quiet(Guard(c, s, i).0.conv)
  {
    hide Protect, ProtectLf;
    ProtectQuiet(c, s, i.protect);
    ProtectLfQuiet(Protect(c, s, i.protect).0, i.lf);
  }

  lemma NewDataQuiet(c: Setup, s: Ctl, i: RtIn)
    requires ValidSetup(c) && ValidTick(i.tick) && Quiet(s.conv)
    ensures Quiet(NewData(c, s, i).conv)
  {
    GuardQuiet(c, s, i);
    var g := Guard(c, s, i).0;
    UpdateManualQuiet(c, g);
    UpdateQuiet(c, g, i.tick);
    hide Guard, Update, UpdateManual, Perturb;
    forall u: Conv ensures Quiet(Perturb(c.conv, u, 0)) { PerturbQuiet(c.conv, u, 0); }
  }

  // ---- how a pulse arises and how it ends ----------------------------------------------------

  /** Low-side count that a hold of `ls` commits while the control switch is off. */
  function HeldCount(c: Config, ls: int): int { Constrain(ls, c.rectMin, c.pwmMax - 1) }

  /** `dc` as it is accepted with a low-side count to hold. */
  predicate AcceptsHold(c: Setup, s: Ctl, e: Event) {
    e.Dc? && 0 < e.dc <= c.conv.ctrlMax && !s.calibrating && e.ls.Some? && e.ls.value >= 0
  }

  /** The one way a pulse arises: `dc` with a low-side count while the control switch is off. A boost
      converter accepts the count 0, which holds the low side off. */
  predicate StartsPulse(c: Setup, s: Ctl, e: Event) {
    s.conv.ctrl == 0 && AcceptsHold(c, s, e) && HeldCount(c.conv, e.ls.value) > 0
  }

  /** The ways it ends: a step that runs disable(), a sweep that starts, the manual ramp leaving 0, and,
      without a bootstrap minimum, a hold of the count 0 or `sync off`. */
  predicate EndsPulse(c: Setup, s: Ctl, e: Event) {
    match e
    case CalibrationFails(_) => true
    case Quiesce => true
    case NeverSampled => true
    case SweepCmd => true
    case ShortLs(noInput) => c.conv.boost && noInput
    case RtNewData(i) =>
      s.calibrating
      || (if s.manualPwm then i.newSample && !InBackoff(s) && s.manualTarget != 0
          else s.now > s.delayStart && StartCondition(s, i.tick.startOk) && i.sweepAllowed)
    case Dc(_, _) => AcceptsHold(c, s, e) && HeldCount(c.conv, e.ls.value) == 0
    case SyncCmd(arg) => s.manualPwm && arg == SyncOff && c.conv.rectMin == 0
    case _ => false
  }

  /** A sweep starts from disable(), and `dc` ends it. */
  ghost predicate PulseFree(s: Ctl) { s.sweeping ==> !Pulses(s) }

  lemma HoldAtZero(c: Config, s: Conv, ls: int)
    requires ValidConfig(c) && s.ctrl == 0
    ensures var t := SetManualRect(c, s, ls);
            t.ctrl == 0 && t.rect == if ls >= 0 then HeldCount(c, ls) else s.rect
  {
  }

  lemma DcAtZero(c: Setup, s: Ctl, e: Event)
    requires ValidSetup(c) && s.conv.ctrl == 0 && e.Dc? && ValidEvent(e)
    ensures var t := Apply(c, s, e);
            t.conv.ctrl == 0
            && t.conv.rect == if AcceptsHold(c, s, e) then HeldCount(c.conv, e.ls.value) else s.conv.rect
  {
    hide SetManualRect, EnableSyncRect, HeldCount;
    var conv1 := EnableSyncRect(c.conv, s.conv, true, false);
    EnableDuties(c.conv, s.conv, true, false);
    var ls := if e.ls.Some? && e.dc > 0 then e.ls.value else -1;
    HoldAtZero(c.conv, conv1, ls);
    HoldAtZero(c.conv, s.conv, ls);
    assert Apply(c, s, e) == CmdDc(c, s, e.dc, e.ls);
    hide Apply;
  }

  lemma DcWhileRunning(c: Setup, s: Ctl, e: Event)
    requires s.conv.ctrl > 0 && e.Dc? && ValidSetup(c) && ValidEvent(e)
    ensures Apply(c, s, e).conv.ctrl > 0
  {
    hide U16;
  }

  /** Where there is no pulse, one arises exactly by StartsPulse. */
  lemma PulseStartsExactly(c: Setup, s: Ctl, e: Event)
    requires ValidSetup(c) && ValidEvent(e) && !Pulses(s)
    ensures Pulses(Apply(c, s, e)) <==> StartsPulse(c, s, e)
  {
    hide HeldCount;
    if e.RtNewData? { NewDataQuiet(c, s, e.i); }
    else if e.Dc? { if s.conv.ctrl == 0 { DcAtZero(c, s, e); } else { DcWhileRunning(c, s, e); } }
    else { OtherEvent(c, s, e); }
    hide Apply, AcceptsHold;
  }

  /** Whether an event other than an iteration or `dc` stops a converter whose control switch is off. */
  predicate StopsIdle(c: Setup, e: Event) {
    e.CalibrationFails? || e.Quiesce? || e.NeverSampled? || e.SweepCmd?
    || (e.ShortLs? && c.conv.boost && e.noInput)
  }

  lemma OtherEvent(c: Setup, s: Ctl, e: Event)
    requires ValidSetup(c) && ValidEvent(e) && !e.RtNewData? && !e.Dc?
    ensures var a, b := s.conv, Apply(c, s, e).conv;
            if StopsIdle(c, e) || ((e.AdcUpdate? || e.LatencyWatchdog?) && b.ctrl != a.ctrl) then b.ctrl == 0 && b.rect == 0
            else if e.SyncCmd? && s.manualPwm && e.arg == SyncOff
            then b.ctrl == a.ctrl && b.rect == MinI(a.rect, c.conv.rectMin)
            else b.ctrl == a.ctrl && b.rect == a.rect
  {
    if StopsIdle(c, e) { StopEvent(c, s, e); }
    else if e.SyncCmd? { SyncDuties(c, s, e.arg); }
    else if e.AdcUpdate? { AdcDuties(s, e.stalled); }
    else { IdleEvent(c, s, e); }
    hide CmdSync, AdcPoll, NewData;
  }

  lemma StopEvent(c: Setup, s: Ctl, e: Event)
    requires ValidSetup(c) && ValidEvent(e) && StopsIdle(c, e)
    ensures var t := Apply(c, s, e).conv; t.ctrl == 0 && t.rect == 0
  {
    hide SetManualRect, NewData, CmdDc, StopAndBackoff, AdcPoll, CmdSync;
    match e
    case Quiesce => BackoffStops(s, 10);
    case CalibrationFails(ended) => BackoffStops(s.(calibrating := s.calibrating && !ended), 4);
    case _ =>
  }

  lemma IdleEvent(c: Setup, s: Ctl, e: Event)
    requires ValidSetup(c) && ValidEvent(e) && !e.RtNewData? && !e.Dc? && !e.SyncCmd? && !e.AdcUpdate?
    requires !StopsIdle(c, e)
    ensures var a, b := s.conv, Apply(c, s, e).conv;
            (b.ctrl == a.ctrl && b.rect == a.rect) || (e.LatencyWatchdog? && a.ctrl != 0 && b.ctrl == 0 && b.rect == 0)
  {
    hide NewData, CmdDc, CmdSync, AdcPoll, SetManualRect, StopAndBackoff, CmdSweep, CmdShortLs, ReleaseCvFloorLatch;
    ReleaseKeepsRect(c.conv, s.conv);
    match e
    case LatencyWatchdog => BackoffStops(s, 4);
    case StuckWatchdog => LatchReleaseKeepsConv(s);
    case ShortLs(noInput) => RefusedShortLs(c, s, noInput);
    case _ =>
  }

  lemma BackoffStops(s: Ctl, sec: nat)
    ensures var t := StopAndBackoff(s, sec).conv; t.ctrl == 0 && t.rect == 0
  {
  }

  lemma LatchReleaseKeepsConv(s: Ctl)
    ensures ReleaseCvFloorLatch(s).conv == s.conv
  {
  }

  lemma RefusedShortLs(c: Setup, s: Ctl, noInput: bool)
    requires !(c.conv.boost && noInput)
    ensures CmdShortLs(c, s, noInput) == s
  {
  }

  lemma SyncDuties(c: Setup, s: Ctl, arg: Sync)
    ensures var a, b := s.conv, CmdSync(c, s, arg).conv;
            b.ctrl == a.ctrl
            && b.rect == if s.manualPwm && arg == SyncOff then MinI(a.rect, c.conv.rectMin) else a.rect
  {
    hide EnableSyncRect;
    EnableDuties(c.conv, s.conv, true, false);
    EnableDuties(c.conv, s.conv.(forced := false), true, true);
    EnableDuties(c.conv, s.conv.(forced := false), false, true);
  }

  lemma EnableDuties(c: Config, s: Conv, en: bool, over: bool)
    ensures var t := EnableSyncRect(c, s, en, over);
            t.ctrl == s.ctrl && t.rect == if en || (s.forced && !over) then s.rect else MinI(s.rect, c.rectMin)
  {
  }

  lemma AdcDuties(s: Ctl, stalled: bool)
    ensures var a, b := s.conv, AdcPoll(s, stalled).conv;
            (b.ctrl == a.ctrl && b.rect == a.rect) || (a.ctrl != 0 && b.ctrl == 0 && b.rect == 0)
  {
  }

  lemma ReleaseKeepsRect(c: Config, s: Conv)
    ensures SetManualRect(c, s, -1) == s.(manual := -1)
  {
  }

  lemma ManualTickAtZero(c: Setup, s: Ctl)
    requires ValidSetup(c) && s.conv.ctrl == 0
    ensures var t := UpdateManual(c, s).conv;
            if !InBackoff(s) && s.manualTarget != 0 then t.ctrl > 0 else t == s.conv
  {
    hide Perturb, EnableSyncRect, RampStep;
    var r := RampStep(c);
    assert r >= 1 by { RampAtLeastOne(c); }
    var conv1 := if !c.paranoia then EnableSyncRect(c.conv, s.conv, true, false) else s.conv;
    PerturbQuiet(c.conv, conv1, Constrain(s.manualTarget - s.conv.ctrl, -r, r));
  }

  lemma RampAtLeastOne(c: Setup)
    ensures RampStep(c) >= 1
  {
  }

  lemma NewDataEndsExactly(c: Setup, s: Ctl, i: RtIn)
    requires ValidSetup(c) && ValidTick(i.tick) && Pulses(s) && !s.sweeping
    ensures !Pulses(NewData(c, s, i)) <==> EndsPulse(c, s, RtNewData(i))
  {
    ManualTickAtZero(c, s);
    hide Update, UpdateManual, Perturb;
    forall u: Conv ensures Perturb(c.conv, u, 0).ctrl > 0 { PerturbQuiet(c.conv, u, 0); }
  }

  /** Where there is one, it ends exactly by EndsPulse. */
  lemma PulseEndsExactly(c: Setup, s: Ctl, e: Event)
    requires ValidSetup(c) && ValidEvent(e) && Pulses(s) && !s.sweeping
    ensures !Pulses(Apply(c, s, e)) <==> EndsPulse(c, s, e)
  {
    hide HeldCount;
    if e.RtNewData? { NewDataEndsExactly(c, s, e.i); }
    else if e.Dc? { DcAtZero(c, s, e); }
    else { OtherEvent(c, s, e); }
    hide Apply, AcceptsHold, NewData;
  }

  // ---- whole runs ----------------------------------------------------------------------------

  /** A sweep never starts with a pulse, and `dc` ends the sweep. */
  lemma PulseFreeStep(c: Setup, s: Ctl, e: Event)
    requires ValidSetup(c) && ValidEvent(e) && PulseFree(s)
    ensures PulseFree(Apply(c, s, e))
  {
    var t := Apply(c, s, e);
    if !Pulses(s) {
      PulseStartsExactly(c, s, e);
      if StartsPulse(c, s, e) { HoldEndsSweep(c, s, e); }
    } else if e.RtNewData? { IdleSweepStarts(c, s, e.i); } else { OtherSweepStarts(c, s, e); }
    hide Apply, StartsPulse;
  }

  lemma HoldEndsSweep(c: Setup, s: Ctl, e: Event)
    requires ValidSetup(c) && ValidEvent(e) && AcceptsHold(c, s, e)
    ensures !Apply(c, s, e).sweeping
  {
    hide SetManualRect, EnableSyncRect;
  }

  lemma IdleSweepStarts(c: Setup, s: Ctl, i: RtIn)
    requires ValidSetup(c) && ValidTick(i.tick) && Pulses(s) && !s.sweeping
    ensures NewData(c, s, i).sweeping ==> !Pulses(NewData(c, s, i))
  {
    hide Perturb, Update, RampStep, EnableSyncRect;
  }

  lemma OtherSweepStarts(c: Setup, s: Ctl, e: Event)
    requires ValidSetup(c) && ValidEvent(e) && !e.RtNewData? && !s.sweeping
    ensures Apply(c, s, e).sweeping ==> !Pulses(Apply(c, s, e))
  {
    hide SetManualRect, EnableSyncRect, SyncRectMinDuty, NewData;
  }

  /** Whether a pulse that began in the run has not ended yet; `p` says whether there is one at s. */
  predicate Pulsing(c: Setup, s: Ctl, es: seq<Event>, p: bool)
    requires ValidSetup(c) && forall e :: e in es ==> ValidEvent(e)
    decreases |es|
  {
    if es == [] then p
    else
      Pulsing(c, Apply(c, s, es[0]), es[1..],
              if p then !EndsPulse(c, s, es[0]) else StartsPulse(c, s, es[0]))
  }

  lemma {:induction false} PulsingExactly(c: Setup, s: Ctl, es: seq<Event>)
    requires ValidSetup(c) && PulseFree(s) && forall e :: e in es ==> ValidEvent(e)
    ensures Pulses(Reach(c, s, es)) == Pulsing(c, s, es, Pulses(s))
    decreases |es|
  {
    if es != [] {
      var e := es[0];
      if Pulses(s) { PulseEndsExactly(c, s, e); } else { PulseStartsExactly(c, s, e); }
      PulseFreeStep(c, s, e);
      hide Apply, Pulses, PulseFree, StartsPulse, EndsPulse;
      PulsingExactly(c, Apply(c, s, e), es[1..]);
    }
  }

  lemma BeginQuiet(c: Setup, boot: nat)
    requires ValidSetup(c)
    ensures !Pulses(Begin(c, boot)) && PulseFree(Begin(c, boot))
  {
  }

  /** The backoff and the low side, over every run from power-up: in a backoff the control switch is
      off and there is no sweep, and the low side is off as well if and only if no `dc` with a
      low-side count was accepted while the control switch was off, or the pulse has since ended. */
  lemma BackoffLowSideExactly(c: Setup, boot: nat, es: seq<Event>)
    requires ValidSetup(c) && forall e :: e in es ==> ValidEvent(e)
    ensures var t := Reach(c, Begin(c, boot), es);
            InBackoff(t) ==>
              && t.conv.ctrl == 0 && !t.sweeping
              && (LowSideTime(Settled(t.conv)) == 0 <==> !Pulsing(c, Begin(c, boot), es, false))
  {
    hide Reach, Apply, Pulsing, Begin;
    BackoffSafety(c, boot, es);
    BeginQuiet(c, boot);
    PulsingExactly(c, Begin(c, boot), es);
  }

  predicate HoldsNothing(es: seq<Event>) { forall e :: e in es ==> !(e.Dc? && e.ls.Some? && e.ls.value >= 0) }

  /** So without such a command the low side is off whenever the control switch is. */
  lemma WithoutHoldBothOff(c: Setup, boot: nat, es: seq<Event>)
    requires ValidSetup(c) && HoldsNothing(es) && forall e :: e in es ==> ValidEvent(e)
    ensures var t := Reach(c, Begin(c, boot), es); t.conv.ctrl == 0 ==> t.conv.rect == 0
  {
    hide Reach, Apply, Pulsing, Begin, HoldsNothing;
    BeginQuiet(c, boot);
    PulsingExactly(c, Begin(c, boot), es);
    WithoutHoldNoPulse(c, Begin(c, boot), es);
  }

  lemma {:induction false} WithoutHoldNoPulse(c: Setup, s: Ctl, es: seq<Event>)
    requires ValidSetup(c) && HoldsNothing(es) && forall e :: e in es ==> ValidEvent(e)
    ensures !Pulsing(c, s, es, false)
    decreases |es|
  {
    if es != [] {
      assert es[0] in es;
      hide Apply, HeldCount;
      WithoutHoldNoPulse(c, Apply(c, s, es[0]), es[1..]);
    }
  }

  /** The pulse is real, and it lasts: after a failed calibration, `dc` with a low-side count switches the
      low side in the middle of the backoff, and neither `dc 0` nor a real-time iteration stops it. */
  lemma HeldLowSidePulsesInBackoff(c: Setup, dc: int, ls: int, i: RtIn)
    requires ValidSetup(c) && 0 < dc <= c.conv.ctrlMax && ls >= 0 && HeldCount(c.conv, ls) > 0
    requires ValidEvent(RtNewData(i))
    ensures var es := [CalibrationFails(true), Dc(dc, Some(ls)), Dc(0, None), RtNewData(i)];
            var t := Reach(c, Begin(c, 0), es);
            InBackoff(t) && t.conv.ctrl == 0 && LowSideTime(Settled(t.conv)) == HeldCount(c.conv, ls)
  {
    var s1 := Apply(c, Begin(c, 0), CalibrationFails(true));
    assert InBackoff(s1) && s1.conv.ctrl == 0 && !s1.calibrating;
    var s2 := Apply(c, s1, Dc(dc, Some(ls)));
    HoldInBackoff(c, s1, Dc(dc, Some(ls)));
    var s3 := Apply(c, s2, Dc(0, None));
    HoldInBackoff(c, s2, Dc(0, None));
    BackoffIterationIdles(c, s3, i);
    hide Apply, Begin;
    ReachFour(c, Begin(c, 0), CalibrationFails(true), Dc(dc, Some(ls)), Dc(0, None), RtNewData(i));
  }

  /** An accepted `dc` takes manual mode but leaves the backoff as it is. */
  lemma HoldInBackoff(c: Setup, s: Ctl, e: Event)
    requires ValidSetup(c) && ValidEvent(e) && e.Dc? && 0 <= e.dc <= c.conv.ctrlMax
    requires s.conv.ctrl == 0 && InBackoff(s) && !s.calibrating
    ensures var t := Apply(c, s, e);
            && InBackoff(t) && t.manualPwm && !t.calibrating && t.conv.ctrl == 0
            && t.conv.rect == if AcceptsHold(c, s, e) then HeldCount(c.conv, e.ls.value) else s.conv.rect
  {
    hide HeldCount;
    DcAtZero(c, s, e);
    hide SetManualRect, EnableSyncRect, AcceptsHold;
  }

  lemma BackoffIterationIdles(c: Setup, s: Ctl, i: RtIn)
    requires ValidSetup(c) && ValidEvent(RtNewData(i)) && s.conv.ctrl == 0 && InBackoff(s) && s.manualPwm && !s.calibrating
    ensures var t := Apply(c, s, RtNewData(i)); t.conv == s.conv && InBackoff(t)
  {
    hide Perturb, Update, RampStep, EnableSyncRect;
  }

  lemma ReachFour(c: Setup, s: Ctl, a: Event, b: Event, d: Event, e: Event)
    requires ValidSetup(c) && ValidEvent(a) && ValidEvent(b) && ValidEvent(d) && ValidEvent(e)
    ensures Reach(c, s, [a, b, d, e]) == Apply(c, Apply(c, Apply(c, Apply(c, s, a), b), d), e)
  {
    hide Apply;
    var s1 := Apply(c, s, a);
    var s2 := Apply(c, s1, b);
    var s3 := Apply(c, s2, d);
    assert [a, b, d, e][1..] == [b, d, e] && [b, d, e][1..] == [d, e] && [d, e][1..] == [e] && [e][1..] == [];
    assert Reach(c, Apply(c, s3, e), []) == Apply(c, s3, e);
    assert Reach(c, s3, [e]) == Apply(c, s3, e);
    assert Reach(c, s2, [d, e]) == Reach(c, s3, [e]);
    assert Reach(c, s1, [b, d, e]) == Reach(c, s2, [d, e]);
  }
}
