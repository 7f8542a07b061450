/** The controller object and the real-time loop around it: fields updated in place, the converter
    driven through its own methods. Each method is proved to do what its function in `Controller`
    says, so every lemma about those functions is a statement about this code. */
module ControllerDevice {
  import opened Numbers
  import Converter
  import ConverterCommit
  import opened Controller
  import opened ConverterDevice
  import opened ControllerSafety
  import ControllerRuns

  class MpptController {
    const setup: Setup
    const converter: SynchronousConverter

    var loopWallClockUs: nat
    var backoffUntilUs: nat
    var backoffArmedSec: nat
    var sweeping: bool
    var limiting: bool
    var mode: Mode
    var maxPowerPoint: Peak
    var targetDutyCycle: nat
    var manualTarget: nat
    var targetPwmCnt: nat
    var manualPwm: bool
    var calibrating: bool
    var lastUs: nat
    var delayStartUntil: nat
    var adcStalledSinceMs: nat

    ghost predicate Valid()
      reads this, converter
    {
      ValidSetup(setup) && converter.Valid() && converter.cfg == setup.conv
    }

    ghost function State(): Ctl
      reads this, converter
    {
      Ctl(converter.State(), loopWallClockUs, backoffUntilUs, backoffArmedSec, sweeping, limiting, mode,
          maxPowerPoint, targetDutyCycle, manualTarget, targetPwmCnt, manualPwm, calibrating, lastUs,
          delayStartUntil, adcStalledSinceMs)
    }

    /** The object before begin(). */
    constructor (c: Setup, conv: SynchronousConverter)
      requires ValidSetup(c) && conv.Valid() && conv.cfg == c.conv
      ensures Valid() && setup == c && converter == conv
      ensures State() == Idle(conv.State())
    {
      setup, converter := c, conv;
      loopWallClockUs, backoffUntilUs, backoffArmedSec := 0, 0, 0;
      sweeping, limiting, mode, maxPowerPoint := false, false, ModeNone, NO_PEAK;
      targetDutyCycle, manualTarget, targetPwmCnt := 0, 0, 0;
      manualPwm, calibrating := false, false;
      lastUs, delayStartUntil, adcStalledSinceMs := 0, 0, 0;
    }

    method Begin(bootTarget: nat)
      requires Valid() && State() == Idle(Converter.InitConv())
      modifies this, converter
      ensures Sound() && State() == Controller.Begin(setup, bootTarget)
    {
      ControllerRuns.BeginSafe(setup, bootTarget);
      hide Converter.EnableSyncRect, Controller.StartSweep, Safe;
      targetPwmCnt := bootTarget;
      if targetPwmCnt != 0 {
        manualPwm := true;
        manualTarget := if targetPwmCnt < setup.conv.ctrlMax then targetPwmCnt else setup.conv.ctrlMax;
        if !setup.paranoia {
          converter.EnableSyncRect(true, false);
        }
      } else {
        StartSweep();
      }
    }

    predicate InBackoff()
      reads this
    {
      loopWallClockUs < backoffUntilUs
    }

    predicate StartCondition(ok: bool)
      reads this
    {
      !InBackoff() && ok && !calibrating
    }

    method ShutdownDcdc(backoffSec: nat)
      requires Valid()
      modifies this`backoffUntilUs, this`backoffArmedSec, this`sweeping, converter
      ensures Valid() && State() == Controller.ShutdownDcdc(old(State()), backoffSec)
    {
      converter.Disable();
      if backoffSec != 0 {
        if !InBackoff() || backoffSec > backoffArmedSec {
          backoffUntilUs := loopWallClockUs + backoffSec * SECOND;
          backoffArmedSec := backoffSec;
        }
        sweeping := false;
      }
    }

    method ClearBackoff()
      requires Valid()
      modifies this`backoffUntilUs, this`backoffArmedSec
      ensures Valid() && State() == Controller.ClearBackoff(old(State()))
    {
      backoffUntilUs := 0;
      backoffArmedSec := 0;
    }

    method AbortSweep()
      requires Valid()
      modifies this`sweeping, this`maxPowerPoint, this`targetDutyCycle
      ensures Valid() && State() == Controller.AbortSweep(old(State()))
    {
      sweeping := false;
      maxPowerPoint := NO_PEAK;
      targetDutyCycle := 0;
    }

    method ReleaseCvFloorLatch()
      requires Valid()
      modifies this
      ensures Valid() && State() == Controller.ReleaseCvFloorLatch(old(State()))
    {
      limiting := false;
      if mode == CV {
        mode := ModeNone;
      }
      targetDutyCycle := 0;
      ClearBackoff();
    }

    method StartSweep()
      requires Valid()
      modifies this, converter
      ensures Valid() && State() == Controller.StartSweep(old(State()))
    {
      hide ConverterCommit.OpTrace, Converter.Disable, ValidSetup, SynchronousConverter.State, SynchronousConverter.Valid;
      sweeping := true;
      converter.Disable();
      limiting := false;
      targetDutyCycle := 0;
      maxPowerPoint := NO_PEAK;
      calibrating := true;
    }

    method StopSweep()
      requires Valid()
      modifies this, converter
      ensures Valid() && State() == Controller.StopSweep(old(State()))
    {
      sweeping := false;
      if Less(maxPowerPoint.power, Num(SWEEP_MIN_POWER)) {
        targetDutyCycle := 0;
        ShutdownDcdc(LONG_BACKOFF);
        return;
      }
      targetDutyCycle := maxPowerPoint.duty;
    }

    method StopAndBackoff(secondsDelay: nat)
      requires Valid()
      modifies this, converter
      ensures Valid() && State() == Controller.StopAndBackoff(old(State()), secondsDelay)
    {
      ShutdownDcdc(DEFAULT_BACKOFF);
      delayStartUntil := loopWallClockUs + secondsDelay * SECOND;
    }

    // ---- update() ----------------------------------------------------------------------------

    /** Loop over the controllers: running minimum, and shutdown on an output that is not finite. */
    method ScanControllers(cvs: seq<Float>) returns (lim: Float, idx: int)
      requires Valid()
      modifies this, converter
      ensures Valid() && Scan(State(), lim, idx) == ScanTo(setup, old(State()), cvs, |cvs|)
    {
      hide Converter.Disable;
      lim, idx := PosInf, -1;
      var k := 0;
      while k < |cvs|
        invariant 0 <= k <= |cvs| && Valid()
        invariant Scan(State(), lim, idx) == ScanTo(setup, old(State()), cvs, k)
      {
        var cv := cvs[k];
        if !cv.Num? && !converter.Disabled() && 100 * converter.pwmCtrl > setup.conv.ctrlMax {
          ShutdownDcdc(DEFAULT_BACKOFF);
          cv := Num(-1.0);
        }
        if Less(cv, lim) {
          lim, idx := cv, k;
        }
        k := k + 1;
      }
    }

    /** Verdict of the controllers and bounce at the duty limits. */
    method DecideControl(i: TickIn) returns (lim: Float, controlMode: Mode, controlValue: Float)
      requires Valid() && ValidTick(i)
      modifies this, converter
      ensures Valid() && Phase(State(), controlMode, controlValue) == Decide(setup, old(State()), i)
      ensures lim == ScanTo(setup, old(State()), i.cvs, 5).lim
    {
      var idx;
      lim, idx := ScanControllers(i.cvs);
      ScanIndex(setup, old(State()), i.cvs, 5);
      hide ScanTo;
      controlMode, controlValue := ModeNone, Num(0.0);
      if Less(lim, Num(0.0)) {
        controlMode, controlValue := CONTROL_MODES[idx], lim;
        limiting := true;
      } else if limiting {
        limiting := false;
        controlMode, controlValue := MPPT, lim;
      }
      if converter.pwmCtrl == setup.conv.ctrlMax {
        controlMode, controlValue := CV, Num(-1.0);
      } else if converter.pwmCtrl == Converter.CTRL_MIN && !sweeping {
        controlMode, controlValue := CV, Num(1.0);
      }
    }

    method CapturePower(power: Float)
      requires Valid()
      modifies this`maxPowerPoint
      ensures Valid() && State() == Capture(old(State()), power)
    {
      if Less(maxPowerPoint.power, power) && !Less(power, Num(SWEEP_MIN_POWER)) && power != NaN {
        maxPowerPoint := Peak(power, converter.pwmCtrl);
      }
    }

    /** Sweep: enable, then capture or stop. */
    method SweepBranch(controlMode: Mode, controlValue: Float, lim: Float, power: Float)
      returns (mode': Mode, value': Float)
      requires Valid()
      modifies this, converter
      ensures Valid()
      ensures Phase(State(), mode', value')
              == SweepTick(setup, Phase(old(State()), controlMode, controlValue), lim, power)
    {
      hide Converter.Perturb, Controller.StopSweep, Scale, MinF, Capture, ConverterCommit.PerturbTrace,
        SynchronousConverter.State, SynchronousConverter.Valid;
      mode', value' := controlMode, controlValue;
      if converter.Disabled() {
        converter.PwmPerturb(1);
      }
      if controlMode == ModeNone {
        mode' := Sweep;
        value' := MinF(Scale(lim, setup.sweepSpeed * 0.05), Num(setup.sweepSpeed));
        CapturePower(power);
      } else {
        StopSweep();
      }
    }

    /** Fade to a one-shot duty target. */
    method FadeBranch(controlMode: Mode, controlValue: Float) returns (mode': Mode, value': Float)
      requires Valid()
      modifies this`targetDutyCycle
      ensures Valid()
      ensures Phase(State(), mode', value') == FadeTick(setup, Phase(old(State()), controlMode, controlValue))
    {
      mode', value' := controlMode, controlValue;
      if controlMode == ModeNone || controlMode == MPPT
         || (controlMode == CV && converter.pwmCtrl > targetDutyCycle)
      {
        mode' := Sweep;
        var v := Constrain(targetDutyCycle - converter.pwmCtrl,
                           -(setup.conv.pwmMax / 64) - 1, setup.conv.pwmMax / 128 + 1);
        value' := Num(v as real);
        if -1 <= v <= 1 {
          targetDutyCycle := 0;
        }
      } else {
        targetDutyCycle := 0;
      }
    }

    method ScaledStep(v: Float) returns (fp: Float)
      requires Valid()
      ensures fp == Request(setup, State(), v)
    {
      var dtUs := U64(loopWallClockUs - lastUs);
      fp := Scale(v, Gain(setup, dtUs));
      fp := ClampF(fp, -(converter.pwmCtrl as real), StepCap(setup));
    }

    method CloseTick(syncOn: bool)
      requires Valid()
      modifies this`lastUs, converter
      ensures Valid()
      ensures State() == old(State()).(conv := Converter.EnableSyncRect(setup.conv, old(State()).conv, syncOn, false),
                                       lastUs := old(State()).now)
    {
      hide Converter.EnableSyncRect, ConverterCommit.OpTrace, ValidSetup,
        SynchronousConverter.State, SynchronousConverter.Valid;
      lastUs := loopWallClockUs;
      converter.EnableSyncRect(syncOn, false);
    }

    /** End of the tick. */
    method FinishTick(controlMode: Mode, controlValue: Float, lim: Float, i: TickIn)
      requires Valid()
      modifies this, converter
      ensures Valid()
      ensures State() == Finish(setup, Phase(old(State()), controlMode, controlValue), lim, i)
    {
      hide StepAndSync, MinF, ValidSetup, SynchronousConverter.State, SynchronousConverter.Valid;
      var m, v := controlMode, controlValue;
      if m == ModeNone {
        m, v := MPPT, i.tracker;
      }
      mode := m;
      StepAndClose(MinF(v, lim), i.syncOn);
    }

    /** Returns early where the converter throws. */
    method StepAndClose(v: Float, syncOn: bool)
      requires Valid()
      modifies this, converter
      ensures Valid() && State() == StepAndSync(setup, old(State()), v, syncOn)
    {
      hide Converter.PerturbFractional, Converter.EnableSyncRect, Converter.InRange, Request, ValidSetup,
        SynchronousConverter.State, SynchronousConverter.Valid;
      if lastUs != 0 {
        var fp := ScaledStep(v);
        var ok := Step(fp);
        if !ok { return; }
      }
      CloseTick(syncOn);
    }

    /** False where the converter throws. */
    method Step(fp: Float) returns (ok: bool)
      requires Valid()
      modifies converter
      ensures Valid() && ok == Converter.InRange(setup.conv, fp)
      ensures State() == if ok then old(State()).(conv := Converter.PerturbFractional(setup.conv, old(State()).conv, fp))
                         else old(State())
    {
      hide Converter.PerturbFractional, Converter.InRange;
      ok := converter.PwmPerturbFractional(fp);
      if !ok { ThrowChangesNothing(setup.conv, old(converter.State()), fp); }
    }

    static lemma ThrowChangesNothing(c: Converter.Config, s: Converter.Conv, f: Float)
      requires Converter.ValidConfig(c) && !Converter.InRange(c, f)
      ensures Converter.PerturbFractional(c, s, f) == s
    {
    }

    method Update(i: TickIn)
      requires Valid() && ValidTick(i)
      modifies this, converter
      ensures Valid() && State() == Controller.Update(setup, old(State()), i)
    {
      hide Finish, SweepTick, FadeTick, Decide, ScanTo, Controller.StartSweep, Controller.UpdateCv, ValidSetup,
        SynchronousConverter.State, SynchronousConverter.Valid;
      if targetPwmCnt != 0 {
        UpdateCv(i);
        return;
      }
      if converter.Disabled() && !StartCondition(i.startOk) {
        mode := ModeNone;
        return;
      }
      if !sweeping && !(i.batteryFull || mode == CV) && !InBackoff() && i.resweepDue {
        StartSweep();
        return;
      }
      var lim, controlMode, controlValue := DecideControl(i);
      if sweeping && !calibrating {
        if converter.Disabled() && InBackoff() {
          return;
        }
        controlMode, controlValue := SweepBranch(controlMode, controlValue, lim, i.power);
      } else if targetDutyCycle != 0 {
        controlMode, controlValue := FadeBranch(controlMode, controlValue);
      }
      FinishTick(controlMode, controlValue, lim, i);
    }

    method StepToTarget(request: real) returns (q: Float)
      requires Valid()
      ensures q == CvStep(setup, State(), request)
    {
      var fp := request;
      var ctrl, goal := converter.pwmCtrl as real, targetPwmCnt as real;
      if fp + ctrl > goal {
        fp := goal - ctrl;
      }
      if AbsR(ctrl - goal) < (setup.conv.ctrlMax / 512) as real {
        if AbsR(fp).Floor < setup.conv.ctrlMax / 512 {
          fp := goal - ctrl;
        }
      }
      q := ClampF(Num(fp), -ctrl, StepCap(setup));
    }

    method UpdateCv(i: TickIn)
      requires Valid()
      modifies this, converter
      ensures Valid() && State() == Controller.UpdateCv(setup, old(State()), i)
    {
      hide Converter.PerturbFractional, Converter.EnableSyncRect, Controller.ShutdownDcdc, CvStep,
        ConverterCommit.OpTrace, ValidSetup, SynchronousConverter.State, SynchronousConverter.Valid;
      mode := CV;
      if !i.cvRequest.Num? {
        if !converter.Disabled() {
          ShutdownDcdc(DEFAULT_BACKOFF);
        }
        return;
      }
      if lastUs != 0 {
        var q := StepToTarget(i.cvRequest.r);
        var ok := converter.PwmPerturbFractional(q);
      }
      CloseTick(i.syncOn);
    }

    method UpdateManual()
      requires Valid()
      modifies this, converter
      ensures Valid() && State() == Controller.UpdateManual(setup, old(State()))
    {
      hide Converter.Perturb, Converter.EnableSyncRect, Converter.Disable, Constrain;
      lastUs := loopWallClockUs;
      mode := ModeNone;
      var rampStep := MaxI(1, RoundHalfAway(setup.conv.pwmMax as real / 512.0));
      assert rampStep == RampStep(setup);
      hide RampStep;
      if InBackoff() {
        if !converter.Disabled() {
          converter.Disable();
        }
        return;
      }
      if manualTarget == 0 {
        if !converter.Disabled() {
          if converter.pwmCtrl <= Converter.CTRL_MIN {
            converter.Disable();
          } else {
            converter.PwmPerturb(-rampStep);
          }
        }
      } else {
        var step := Constrain(manualTarget - converter.pwmCtrl, -rampStep, rampStep);
        if converter.Disabled() && !setup.paranoia {
          converter.EnableSyncRect(true, false);
        }
        if step != 0 {
          converter.PwmPerturb(step);
        }
      }
    }

    // ---- protections and the real-time loop --------------------------------------------------

    method ReactReverse(rev: Reverse)
      requires Valid()
      modifies this, converter
      ensures Valid() && State() == Controller.ReactReverse(setup, old(State()), rev)
    {
      match rev
      case RevNone =>
      case RevHighAverage => ShutdownDcdc(DEFAULT_BACKOFF);
      case RevMinDuty => converter.SyncRectMinDuty();
    }

    method Protect(p: ProtectIn) returns (ok: bool)
      requires Valid()
      modifies this, converter
      ensures Valid() && (State(), ok) == Controller.Protect(setup, old(State()), p)
    {
      hide Controller.ReactReverse, Controller.ShutdownDcdc, Converter.UpdateMaxDuty, Converter.SyncRectMinDuty;
      match p {
        case TripEarly(sec, recalibrate) =>
          ShutdownDcdc(sec);
          if recalibrate {
            calibrating := true;
          }
          return false;
        case TripLate(rev, lowCurrent, sec) =>
          ReactReverse(rev);
          if lowCurrent {
            converter.SyncRectMinDuty();
          }
          ShutdownDcdc(sec);
          return false;
        case NoTrip(rev, lowCurrent, m, ratioFails) =>
          ReactReverse(rev);
          if lowCurrent {
            converter.SyncRectMinDuty();
          }
          var vr := converter.UpdateSyncRectMaxDuty(m);
          if ratioFails {
            ShutdownDcdc(DEFAULT_BACKOFF);
            return false;
          }
          return true;
      }
    }

    method ProtectLf(lf: LfIn) returns (ok: bool)
      requires Valid()
      modifies this, converter
      ensures Valid() && (State(), ok) == Controller.ProtectLf(old(State()), lf)
    {
      match lf
      case LfOk => return true;
      case LfSupplyUv =>
        ShutdownDcdc(DEFAULT_BACKOFF);
        return false;
      case LfNoBattery =>
        converter.Disable();
        return false;
      case LfHot => return false;
    }

    /** The protections of an iteration, both of them, while the converter runs. */
    method RunProtections(i: RtIn) returns (mpptOk: bool)
      requires Valid()
      modifies this, converter
      ensures Valid() && (State(), mpptOk) == Guard(setup, old(State()), i)
    {
      hide Controller.Protect, Controller.ProtectLf;
      mpptOk := true;
      if !converter.Disabled() {
        var ok1 := Protect(i.protect);
        var ok2 := ProtectLf(i.lf);
        mpptOk := ok1 && ok2;
      }
    }

    method ControlIteration(i: RtIn)
      requires Valid() && ValidTick(i.tick)
      modifies this, converter
      ensures Valid() && State() == ControlBranch(setup, old(State()), i)
    {
      hide Guard, Controller.Update, Controller.UpdateManual, Controller.StopAndBackoff;
      var mpptOk := RunProtections(i);
      if mpptOk {
        if i.newSample {
          if !manualPwm {
            Update(i.tick);
          } else {
            UpdateManual();
          }
        }
      } else {
        StopAndBackoff(4);
      }
    }

    method LoopRTNewData(i: RtIn)
      requires Valid() && ValidTick(i.tick)
      modifies this, converter
      ensures Valid() && State() == NewData(setup, old(State()), i)
    {
      hide ControlBranch, Controller.ShutdownDcdc, Converter.Perturb;
      if calibrating {
        ShutdownDcdc(0);
      } else {
        if sweeping || calibrating || !converter.Disabled() || manualPwm {
          ControlIteration(i);
        } else if loopWallClockUs > delayStartUntil && StartCondition(i.tick.startOk) {
          if !manualPwm && i.sweepAllowed {
            StartSweep();
            delayStartUntil := loopWallClockUs + 4 * SECOND;
          }
        }
      }
      if manualPwm {
        if !converter.Disabled() {
          converter.PwmPerturb(0);
        }
      }
    }

    method AdcPoll(stalled: bool)
      requires Valid()
      modifies this, converter
      ensures Valid() && State() == Controller.AdcPoll(old(State()), stalled)
    {
      hide Controller.StopAndBackoff;
      var nowMs := loopWallClockUs / 1000;
      if stalled {
        if adcStalledSinceMs == 0 {
          adcStalledSinceMs := nowMs;
        }
        if nowMs - adcStalledSinceMs > 800 && !converter.Disabled() && !InBackoff() {
          StopAndBackoff(16);
        }
      } else {
        adcStalledSinceMs := 0;
      }
    }

    // ---- console -----------------------------------------------------------------------------

    method CmdDc(dc: int, ls: Option<int>)
      requires Valid()
      modifies this, converter
      ensures Valid() && State() == Controller.CmdDc(setup, old(State()), dc, ls)
    {
      hide Converter.SetManualRect, Converter.EnableSyncRect, ConverterCommit.OpTrace, ValidSetup,
        SynchronousConverter.State, SynchronousConverter.Valid;
      if dc < 0 || dc > setup.conv.ctrlMax {
        return;
      }
      if dc != 0 && calibrating {
        return;
      }
      AbortSweep();
      if (!manualPwm || converter.Disabled()) && dc != 0 && !setup.paranoia {
        converter.EnableSyncRect(true, false);
      }
      manualPwm := true;
      manualTarget := dc;
      if ls.Some? && dc > 0 {
        converter.SetManualRect(ls.value);
      } else {
        converter.SetManualRect(-1);
      }
    }

    method CmdMppt()
      requires Valid()
      modifies this, converter
      ensures Valid() && State() == Controller.CmdMppt(setup, old(State()))
    {
      hide Converter.SetManualRect;
      if !manualPwm {
        return;
      }
      converter.SetManualRect(-1);
      targetPwmCnt := 0;
      manualPwm := false;
    }

    method CmdSweep()
      requires Valid()
      modifies this, converter
      ensures Valid() && State() == Controller.CmdSweep(setup, old(State()))
    {
      hide Converter.SetManualRect, Controller.StartSweep;
      targetPwmCnt := 0;
      if manualPwm {
        converter.SetManualRect(-1);
        manualPwm := false;
      }
      ClearBackoff();
      StartSweep();
    }

    /** `short-ls`; the static gate levels it then sets are not part of the model. */
    method CmdShortLs(noInput: bool)
      requires Valid()
      modifies this, converter
      ensures Valid() && State() == Controller.CmdShortLs(setup, old(State()), noInput)
    {
      if setup.conv.boost && noInput {
        AbortSweep();
        manualPwm := true;
        manualTarget := 0;
        converter.Disable();
      }
    }

    method CmdStep(n: int)
      requires Valid()
      modifies this`manualTarget, this`targetDutyCycle
      ensures Valid() && State() == Controller.CmdStep(setup, old(State()), n)
    {
      if calibrating || n == 0 || n >= setup.conv.ctrlMax || -n >= setup.conv.ctrlMax {
        return;
      }
      var target := converter.pwmCtrl + n;
      if target < 0 {
        target := 0;
      }
      if target > setup.conv.ctrlMax {
        target := setup.conv.ctrlMax;
      }
      if manualPwm {
        manualTarget := target;
      } else {
        targetDutyCycle := target;
      }
    }

    method CmdSync(arg: Sync)
      requires Valid()
      modifies converter
      ensures Valid() && State() == Controller.CmdSync(setup, old(State()), arg)
    {
      hide Converter.EnableSyncRect;
      if !manualPwm {
        return;
      }
      match arg
      case SyncOn =>
        converter.ForcePwm(false);
        converter.EnableSyncRect(true, true);
      case SyncOff =>
        converter.ForcePwm(false);
        converter.EnableSyncRect(false, true);
      case SyncForced =>
        converter.EnableSyncRect(true, false);
        converter.ForcePwm(true);
    }

    method OtaBegin()
      requires Valid()
      modifies this`manualPwm, this`manualTarget
      ensures Valid() && State() == Controller.OtaBegin(old(State()))
    {
      manualPwm := true;
      manualTarget := 0;
    }

    method OtaFailed()
      requires Valid()
      modifies this, converter
      ensures Valid() && State() == Controller.OtaFailed(setup, old(State()))
    {
      hide Converter.SetManualRect;
      converter.SetManualRect(-1);
      targetPwmCnt := 0;
      manualPwm := false;
    }

    // ---- the object as a whole ---------------------------------------------------------------

    /** A started object: Begin() establishes it and every event keeps it. */
    ghost predicate Sound()
      reads this, converter
    {
      Valid() && Safe(setup, State())
    }

    /** Whatever came before, after an event a running backoff finds the control switch of this object's
        converter off and no sweep in progress. */
    method Handle(e: Event)
      requires Sound() && ValidEvent(e)
      modifies this, converter
      ensures Sound() && State() == Apply(setup, old(State()), e)
      ensures InBackoff() ==> converter.pwmCtrl == 0 && !sweeping
      ensures converter.pwmCtrl <= setup.conv.ctrlMax
      ensures setup.conv.rectMin >= 1 ==> converter.pwmCtrl + converter.pwmRect <= setup.conv.pwmMax
    {
      hide Safe, Apply;
      StepSafe(setup, State(), e);
      Dispatch(e);
      SafeMeans(setup, State());
    }

    predicate IsCommand(e: Event) {
      e.Dc? || e.MpptCmd? || e.SweepCmd? || e.ShortLs? || e.PwmStep? || e.SyncCmd? || e.OtaStart? || e.OtaFail?
    }

    /** One event, dispatched to the method it calls. */
    method Dispatch(e: Event)
      requires Valid() && ValidEvent(e)
      modifies this, converter
      ensures Valid() && State() == Apply(setup, old(State()), e)
    {
      hide NewData;
      if e.RtNewData? {
        LoopRTNewData(e.i);
      } else if IsCommand(e) {
        HandleCommand(e);
      } else {
        HandleOther(e);
      }
    }

    /** Console commands and OTA. */
    method HandleCommand(e: Event)
      requires Valid() && IsCommand(e)
      modifies this, converter
      ensures Valid() && State() == Apply(setup, old(State()), e)
    {
      hide Controller.CmdDc, Controller.CmdMppt, Controller.CmdSweep, Controller.CmdShortLs, Controller.CmdStep,
        Controller.CmdSync, Controller.OtaBegin, Controller.OtaFailed, NewData, Controller.AdcPoll,
        Controller.StopAndBackoff, Controller.ReleaseCvFloorLatch, Converter.Disable, ValidSetup,
        SynchronousConverter.State, SynchronousConverter.Valid;
      match e {
        case Dc(dc, ls) => CmdDc(dc, ls);
        case MpptCmd => CmdMppt();
        case SweepCmd => CmdSweep();
        case ShortLs(noInput) => CmdShortLs(noInput);
        case PwmStep(n) => CmdStep(n);
        case SyncCmd(arg) => CmdSync(arg);
        case OtaStart => OtaBegin();
        case OtaFail => OtaFailed();
      }
    }

    /** Time, calibration and watchdogs. */
    method HandleOther(e: Event)
      requires Valid() && ValidEvent(e)
      requires !e.RtNewData? && !IsCommand(e)
      modifies this, converter
      ensures Valid() && State() == Apply(setup, old(State()), e)
    {
      hide Controller.StopAndBackoff, Controller.ReleaseCvFloorLatch, Controller.AdcPoll, NewData, Converter.Disable,
        ConverterCommit.OpTrace, ValidSetup, SynchronousConverter.State, SynchronousConverter.Valid;
      match e {
        case AdcUpdate(stalled) => AdcPoll(stalled);
        case Advance(us) => loopWallClockUs := loopWallClockUs + us;
        case CalibrationStarts => calibrating := true;
        case CalibrationEnds => calibrating := false;
        case CalibrationFails(ended) =>
          if ended {
            calibrating := false;
          }
          StopAndBackoff(4);
        case NeverSampled => converter.Disable();
        case LatencyWatchdog =>
          if !converter.Disabled() && !manualPwm {
            StopAndBackoff(4);
          }
        case StuckWatchdog =>
          if !manualPwm {
            ReleaseCvFloorLatch();
          }
        case Quiesce => StopAndBackoff(10);
      }
    }

    static lemma SafeMeans(c: Setup, s: Ctl)
      requires Safe(c, s)
      ensures Controller.InBackoff(s) ==> s.conv.ctrl == 0 && !s.sweeping
      ensures s.conv.ctrl <= c.conv.ctrlMax
      ensures c.conv.rectMin >= 1 ==> s.conv.ctrl + s.conv.rect <= c.conv.pwmMax
    {
    }
  }
}
