/** The protection, backoff, sweep and control machine of src/mppt.h and src/mppt.cpp, with the
    real-time loop and console entry points around it. `Ctl` is the value of all fields the steps
    read or write; sensor readings, controller outputs and protection verdicts are inputs. */
module Controller {
  import opened Numbers
  import opened Converter

  datatype Mode = ModeNone | CV | CC | CP | MPPT | Sweep

  /** Best point seen so far by a sweep. */
  datatype Peak = Peak(power: Float, duty: nat)

  const NO_PEAK: Peak := Peak(Num(0.0), 0)

  datatype Setup = Setup(conv: Config, sweepSpeed: real, paranoia: bool)

  predicate ValidSetup(c: Setup) {
    ValidConfig(c.conv) && c.sweepSpeed >= 0.1
  }

  /** Times are microseconds of the loop clock; `stalledMs` is 0 while the ADC is healthy. */
  datatype Ctl = Ctl(
    conv: Conv,
    now: nat, backoffUntil: nat, backoffArmed: nat,
    sweeping: bool, limiting: bool, mode: Mode, peak: Peak,
    target: nat, manualTarget: nat, bootTarget: nat,
    manualPwm: bool, calibrating: bool,
    lastUs: nat, delayStart: nat, stalledMs: nat)

  const SECOND: nat := 1000000
  const DEFAULT_BACKOFF: nat := 5
  const LONG_BACKOFF: nat := 30
  const SWEEP_MIN_POWER: real := 5.0

  /** A controller that has not begun. */
  function Idle(conv: Conv): Ctl {
    Ctl(conv, 0, 0, 0, false, false, ModeNone, NO_PEAK, 0, 0, 0, false, false, 0, 0, 0)
  }

  /** State after begin(): either a configured boot duty in manual mode, or a first sweep. */
  function Begin(c: Setup, bootTarget: nat): Ctl {
    var s := Idle(InitConv());
    if bootTarget == 0 then StartSweep(s)
    else
      s.(bootTarget := bootTarget, manualPwm := true,
         manualTarget := if bootTarget < c.conv.ctrlMax then bootTarget else c.conv.ctrlMax,
         conv := if c.paranoia then s.conv else EnableSyncRect(c.conv, s.conv, true, false))
  }

  // ---- backoff -------------------------------------------------------------------------------

  predicate InBackoff(s: Ctl) { s.now < s.backoffUntil }

  function ShutdownDcdc(s: Ctl, sec: nat): Ctl {
    var off := s.(conv := Disable(s.conv));
    if sec == 0 then off
    else
      var armed := if !InBackoff(s) || sec > s.backoffArmed
                   then off.(backoffUntil := s.now + sec * SECOND, backoffArmed := sec)
                   else off;
      armed.(sweeping := false)
  }

  function ClearBackoff(s: Ctl): Ctl { s.(backoffUntil := 0, backoffArmed := 0) }

  function AbortSweep(s: Ctl): Ctl { s.(sweeping := false, peak := NO_PEAK, target := 0) }

  function ReleaseCvFloorLatch(s: Ctl): Ctl {
    ClearBackoff(s.(limiting := false, mode := if s.mode == CV then ModeNone else s.mode, target := 0))
  }

  /** `startBlockReason() == nullptr`; `ok` stands for the temperature and voltage clauses. */
  predicate StartCondition(s: Ctl, ok: bool) { !InBackoff(s) && ok && !s.calibrating }

  function StartSweep(s: Ctl): Ctl {
    s.(sweeping := true, conv := Disable(s.conv), limiting := false, target := 0, peak := NO_PEAK,
       calibrating := true)
  }

  function StopSweep(s: Ctl): Ctl {
    var t := s.(sweeping := false);
    if Less(s.peak.power, Num(SWEEP_MIN_POWER)) then ShutdownDcdc(t.(target := 0), LONG_BACKOFF)
    else t.(target := s.peak.duty)
  }

  /** The requested delay only postpones the next start; the backoff itself is the default one. */
  function StopAndBackoff(s: Ctl, delaySec: nat): Ctl {
    ShutdownDcdc(s, DEFAULT_BACKOFF).(delayStart := s.now + delaySec * SECOND)
  }

  // ---- update() ------------------------------------------------------------------------------

  /** What one control tick reads: the outputs of the five controllers (Vin, Vout, Iin, Iout,
      power), smoothed power, the tracker's proposal, and the conditions the code tests.
      `cvRequest` is the scaled step of the boot-duty mode. */
  datatype TickIn = TickIn(
    cvs: seq<Float>, power: Float, tracker: Float, cvRequest: Float,
    startOk: bool, resweepDue: bool, batteryFull: bool, syncOn: bool)

  const CONTROL_MODES: seq<Mode> := [CV, CV, CC, CC, CP]

  predicate ValidTick(i: TickIn) { |i.cvs| == 5 }

  /** A controller output that is not finite shuts a converter above 1% duty down. */
  predicate NanTrips(c: Setup, s: Ctl, cv: Float) {
    !cv.Num? && s.conv.ctrl != 0 && 100 * s.conv.ctrl > c.conv.ctrlMax
  }

  /** Running minimum over the controllers; `idx` is -1 before any. */
  datatype Scan = Scan(s: Ctl, lim: Float, idx: int)

  function ScanOne(c: Setup, a: Scan, cv: Float, i: nat): Scan {
    var trips := NanTrips(c, a.s, cv);
    var s1 := if trips then ShutdownDcdc(a.s, DEFAULT_BACKOFF) else a.s;
    var v := if trips then Num(-1.0) else cv;
    if Less(v, a.lim) then Scan(s1, v, i) else Scan(s1, a.lim, a.idx)
  }

  /** The scan after the first n controllers. */
  function ScanTo(c: Setup, s: Ctl, cvs: seq<Float>, n: nat): Scan
    requires n <= |cvs|
  {
    if n == 0 then Scan(s, PosInf, -1) else ScanOne(c, ScanTo(c, s, cvs, n - 1), cvs[n - 1], n - 1)
  }

  /** State, control mode and control value as the tick develops them. */
  datatype Phase = Phase(s: Ctl, mode: Mode, value: Float)

  function Judge(a: Scan): Phase
    requires Less(a.lim, Num(0.0)) ==> 0 <= a.idx < 5
  {
    if Less(a.lim, Num(0.0)) then Phase(a.s.(limiting := true), CONTROL_MODES[a.idx], a.lim)
    else if a.s.limiting then Phase(a.s.(limiting := false), MPPT, a.lim)
    else Phase(a.s, ModeNone, Num(0.0))
  }

  /** Bounce at the ends of the duty range. */
  function Bounce(c: Setup, p: Phase): Phase {
    if p.s.conv.ctrl == c.conv.ctrlMax then p.(mode := CV, value := Num(-1.0))
    else if p.s.conv.ctrl == CTRL_MIN && !p.s.sweeping then p.(mode := CV, value := Num(1.0))
    else p
  }

  predicate SweepRuns(s: Ctl) { s.sweeping && !s.calibrating }

  function Capture(s: Ctl, power: Float): Ctl {
    if Less(s.peak.power, power) && !Less(power, Num(SWEEP_MIN_POWER)) && power != NaN
    then s.(peak := Peak(power, s.conv.ctrl)) else s
  }

  function SweepTick(c: Setup, p: Phase, lim: Float, power: Float): Phase
    requires ValidSetup(c)
  {
    var s1 := if p.s.conv.ctrl == 0 then p.s.(conv := Perturb(c.conv, p.s.conv, 1)) else p.s;
    if p.mode == ModeNone then
      Phase(Capture(s1, power), Sweep, MinF(Scale(lim, c.sweepSpeed * 0.05), Num(c.sweepSpeed)))
    else
      Phase(StopSweep(s1), p.mode, p.value)
  }

  function FadeTick(c: Setup, p: Phase): Phase {
    var ctrl, target := p.s.conv.ctrl, p.s.target;
    if p.mode == ModeNone || p.mode == MPPT || (p.mode == CV && ctrl > target) then
      var v := Constrain(target - ctrl, -(c.conv.pwmMax / 64) - 1, c.conv.pwmMax / 128 + 1);
      Phase(if -1 <= v <= 1 then p.s.(target := 0) else p.s, Sweep, Num(v as real))
    else
      p.(s := p.s.(target := 0))
  }

  function Route(c: Setup, p: Phase, lim: Float, power: Float): Phase
    requires ValidSetup(c)
  {
    if SweepRuns(p.s) then SweepTick(c, p, lim, power)
    else if p.s.target != 0 then FadeTick(c, p)
    else p
  }

  /** Largest upward step of one tick, before the carried fraction. */
  function StepCap(c: Setup): real { 16.0 * c.conv.ctrlMax as real / 2000.0 }

  function Gain(c: Setup, dtUs: nat): (g: real)
    ensures g >= 0.0
  {
    c.conv.ctrlMax as real * dtUs as real * 0.000000025
  }

  /** The step finally requested from the converter. */
  function Request(c: Setup, s: Ctl, value: Float): Float {
    ClampF(Scale(value, Gain(c, U64(s.now - s.lastUs))), -(s.conv.ctrl as real), StepCap(c))
  }

  /** Step and sync rectification. A request that is not a number makes the converter throw, which ends
      the tick where it stands. */
  function StepAndSync(c: Setup, s: Ctl, value: Float, syncOn: bool): Ctl
    requires ValidSetup(c)
  {
    if s.lastUs != 0 && !InRange(c.conv, Request(c, s, value)) then s
    else
      var conv1 := if s.lastUs != 0 then PerturbFractional(c.conv, s.conv, Request(c, s, value)) else s.conv;
      s.(conv := EnableSyncRect(c.conv, conv1, syncOn, false), lastUs := s.now)
  }

  /** Tracker, cap by the limiting controller, and the step. */
  function Finish(c: Setup, p: Phase, lim: Float, i: TickIn): Ctl
    requires ValidSetup(c)
  {
    var mode := if p.mode == ModeNone then MPPT else p.mode;
    var value := MinF(if p.mode == ModeNone then i.tracker else p.value, lim);
    StepAndSync(c, p.s.(mode := mode), value, i.syncOn)
  }

  /** Step of the boot-duty mode: not past the target, and onto it once near. */
  function CvStep(c: Setup, s: Ctl, f0: real): Float {
    var ctrl, goal := s.conv.ctrl as real, s.bootTarget as real;
    var f1 := if f0 + ctrl > goal then goal - ctrl else f0;
    var lock := c.conv.ctrlMax / 512;
    var f2 := if AbsR(ctrl - goal) < lock as real && AbsR(f1).Floor < lock then goal - ctrl else f1;
    ClampF(Num(f2), -ctrl, StepCap(c))
  }

  /** Boot-duty mode. It does not look at the backoff timer. */
  function UpdateCv(c: Setup, s: Ctl, i: TickIn): Ctl
    requires ValidSetup(c)
  {
    var s0 := s.(mode := CV);
    if !i.cvRequest.Num? then
      if s.conv.ctrl != 0 then ShutdownDcdc(s0, DEFAULT_BACKOFF) else s0
    else
      var conv1 := if s.lastUs != 0 then PerturbFractional(c.conv, s.conv, CvStep(c, s0, i.cvRequest.r)) else s.conv;
      s0.(conv := EnableSyncRect(c.conv, conv1, i.syncOn, false), lastUs := s.now)
  }

  predicate ResweepDue(s: Ctl, i: TickIn) {
    !s.sweeping && !(i.batteryFull || s.mode == CV) && !InBackoff(s) && i.resweepDue
  }

  lemma ScanIndex(c: Setup, s: Ctl, cvs: seq<Float>, n: nat)
    requires n <= |cvs|
    ensures var a := ScanTo(c, s, cvs, n);
            a.idx < n && (a.idx < 0 ==> a.lim == PosInf)
  {
    if n > 0 { ScanIndex(c, s, cvs, n - 1); }
  }

  /** Verdict of the controllers on this tick, bounce included. */
  function Decide(c: Setup, s: Ctl, i: TickIn): Phase
    requires ValidTick(i)
  {
    ScanIndex(c, s, i.cvs, 5);
    Bounce(c, Judge(ScanTo(c, s, i.cvs, 5)))
  }

  function Update(c: Setup, s: Ctl, i: TickIn): Ctl
    requires ValidSetup(c) && ValidTick(i)
  {
    if s.bootTarget != 0 then UpdateCv(c, s, i)
    else if s.conv.ctrl == 0 && !StartCondition(s, i.startOk) then s.(mode := ModeNone)
    else if ResweepDue(s, i) then StartSweep(s)
    else
      var p := Decide(c, s, i);
      var lim := ScanTo(c, s, i.cvs, 5).lim;
      if SweepRuns(p.s) && p.s.conv.ctrl == 0 && InBackoff(p.s) then p.s
      else Finish(c, Route(c, p, lim, i.power), lim, i)
  }

  // ---- updateManual() ------------------------------------------------------------------------

  function RampStep(c: Setup): int { MaxI(1, RoundHalfAway(c.conv.pwmMax as real / 512.0)) }

  function UpdateManual(c: Setup, s: Ctl): Ctl
    requires ValidSetup(c)
  {
    var s0 := s.(lastUs := s.now, mode := ModeNone);
    if InBackoff(s) then
      if s.conv.ctrl != 0 then s0.(conv := Disable(s.conv)) else s0
    else if s.manualTarget == 0 then
      if s.conv.ctrl == 0 then s0
      else if s.conv.ctrl <= CTRL_MIN then s0.(conv := Disable(s.conv))
      else s0.(conv := Perturb(c.conv, s.conv, -RampStep(c)))
    else
      var conv1 := if s.conv.ctrl == 0 && !c.paranoia then EnableSyncRect(c.conv, s.conv, true, false) else s.conv;
      var step := Constrain(s.manualTarget - s.conv.ctrl, -RampStep(c), RampStep(c));
      s0.(conv := if step != 0 then Perturb(c.conv, conv1, step) else conv1)
  }

  // ---- protection ----------------------------------------------------------------------------

  /** Reaction of protect() to reverse current: nothing, shutdown that still runs the later checks,
      or low side to its minimum. */
  datatype Reverse = RevNone | RevHighAverage | RevMinDuty

  /** Verdict of protect(): a trip before or after the reverse-current check, or none. A Vout trip
      may also restart the calibration. */
  datatype ProtectIn =
    | TripEarly(sec: nat, recalibrate: bool)
    | TripLate(rev: Reverse, lowCurrent: bool, sec: nat)
    | NoTrip(rev: Reverse, lowCurrent: bool, m: Meas, ratioFails: bool)

  datatype LfIn = LfOk | LfSupplyUv | LfNoBattery | LfHot

  predicate ValidTrip(p: ProtectIn) {
    match p
    case TripEarly(sec, _) => sec == DEFAULT_BACKOFF || sec == LONG_BACKOFF
    case TripLate(_, _, sec) => sec == DEFAULT_BACKOFF || sec == LONG_BACKOFF
    case _ => true
  }

  function ReactReverse(c: Setup, s: Ctl, rev: Reverse): Ctl {
    match rev
    case RevNone => s
    case RevHighAverage => ShutdownDcdc(s, DEFAULT_BACKOFF)
    case RevMinDuty => s.(conv := SyncRectMinDuty(c.conv, s.conv))
  }

  function ReactLowCurrent(c: Setup, s: Ctl, low: bool): Ctl {
    if low then s.(conv := SyncRectMinDuty(c.conv, s.conv)) else s
  }

  function Protect(c: Setup, s: Ctl, p: ProtectIn): (Ctl, bool)
    requires ValidSetup(c)
  {
    match p
    case TripEarly(sec, recalibrate) =>
      (ShutdownDcdc(s, sec).(calibrating := s.calibrating || recalibrate), false)
    case TripLate(rev, low, sec) =>
      (ShutdownDcdc(ReactLowCurrent(c, ReactReverse(c, s, rev), low), sec), false)
    case NoTrip(rev, low, m, ratioFails) =>
      var s1 := ReactLowCurrent(c, ReactReverse(c, s, rev), low);
      var s2 := s1.(conv := UpdateMaxDuty(c.conv, s1.conv, m));
      if ratioFails then (ShutdownDcdc(s2, DEFAULT_BACKOFF), false) else (s2, true)
  }

  function ProtectLf(s: Ctl, lf: LfIn): (Ctl, bool) {
    match lf
    case LfOk => (s, true)
    case LfSupplyUv => (ShutdownDcdc(s, DEFAULT_BACKOFF), false)
    case LfNoBattery => (s.(conv := Disable(s.conv)), false)
    case LfHot => (s, false)
  }

  // ---- real-time loop ------------------------------------------------------------------------

  datatype RtIn = RtIn(newSample: bool, protect: ProtectIn, lf: LfIn, tick: TickIn, sweepAllowed: bool)

  predicate Active(s: Ctl) { s.sweeping || s.calibrating || s.conv.ctrl != 0 }

  /** Both protections run even if the first one trips. */
  function Guard(c: Setup, s: Ctl, i: RtIn): (Ctl, bool)
    requires ValidSetup(c)
  {
    if s.conv.ctrl == 0 then (s, true)
    else
      var r1 := Protect(c, s, i.protect);
      var r2 := ProtectLf(r1.0, i.lf);
      (r2.0, r1.1 && r2.1)
  }

  function ControlBranch(c: Setup, s: Ctl, i: RtIn): Ctl
    requires ValidSetup(c) && ValidTick(i.tick)
  {
    var g := Guard(c, s, i);
    if !g.1 then StopAndBackoff(g.0, 4)
    else if !i.newSample then g.0
    else if g.0.manualPwm then UpdateManual(c, g.0)
    else Update(c, g.0, i.tick)
  }

  /** loopRTNewData(). */
  function NewData(c: Setup, s: Ctl, i: RtIn): Ctl
    requires ValidSetup(c) && ValidTick(i.tick)
  {
    var s1 :=
      if s.calibrating then ShutdownDcdc(s, 0)
      else if Active(s) || s.manualPwm then ControlBranch(c, s, i)
      else if s.now > s.delayStart && StartCondition(s, i.tick.startOk) && i.sweepAllowed then
        StartSweep(s).(delayStart := s.now + 4 * SECOND)
      else s;
    if s1.manualPwm && s1.conv.ctrl != 0 then s1.(conv := Perturb(c.conv, s1.conv, 0)) else s1
  }

  /** ADC stall watchdog of loopRT(); only a stall of more than 800 ms stops a live converter. */
  function AdcPoll(s: Ctl, stalled: bool): Ctl {
    if !stalled then s.(stalledMs := 0)
    else
      var nowMs := s.now / 1000;
      var s1 := if s.stalledMs == 0 then s.(stalledMs := nowMs) else s;
      if nowMs - s1.stalledMs > 800 && s1.conv.ctrl != 0 && !InBackoff(s1) then StopAndBackoff(s1, 16) else s1
  }

  // ---- console -------------------------------------------------------------------------------

  datatype Sync = SyncOn | SyncOff | SyncForced

  datatype Option<T> = None | Some(value: T)

  function CmdDc(c: Setup, s: Ctl, dc: int, ls: Option<int>): Ctl {
    if dc < 0 || dc > c.conv.ctrlMax || (dc != 0 && s.calibrating) then s
    else
      var s1 := AbortSweep(s);
      var conv1 := if (!s.manualPwm || s.conv.ctrl == 0) && dc != 0 && !c.paranoia
                   then EnableSyncRect(c.conv, s.conv, true, false) else s.conv;
      s1.(manualPwm := true, manualTarget := dc,
          conv := SetManualRect(c.conv, conv1, if ls.Some? && dc > 0 then ls.value else -1))
  }

  function CmdMppt(c: Setup, s: Ctl): Ctl {
    if !s.manualPwm then s
    else s.(conv := SetManualRect(c.conv, s.conv, -1), bootTarget := 0, manualPwm := false)
  }

  function CmdSweep(c: Setup, s: Ctl): Ctl {
    var conv1 := if s.manualPwm then SetManualRect(c.conv, s.conv, -1) else s.conv;
    StartSweep(ClearBackoff(s.(bootTarget := 0, manualPwm := false, conv := conv1)))
  }

  /** `short-ls`, where it is accepted: boost topology and no input voltage. */
  function CmdShortLs(c: Setup, s: Ctl, noInput: bool): Ctl {
    if !(c.conv.boost && noInput) then s
    else
      var s1 := AbortSweep(s);
      s1.(manualPwm := true, manualTarget := 0, conv := Disable(s1.conv))
  }

  /** `+N` / `-N`. */
  function CmdStep(c: Setup, s: Ctl, n: int): Ctl {
    if s.calibrating || n == 0 || n >= c.conv.ctrlMax || -n >= c.conv.ctrlMax then s
    else
      var t := Constrain(s.conv.ctrl + n, 0, c.conv.ctrlMax);
      if s.manualPwm then s.(manualTarget := t) else s.(target := t)
  }

  function CmdSync(c: Setup, s: Ctl, arg: Sync): Ctl {
    if !s.manualPwm then s
    else match arg
      case SyncOn => s.(conv := EnableSyncRect(c.conv, s.conv.(forced := false), true, true))
      case SyncOff => s.(conv := EnableSyncRect(c.conv, s.conv.(forced := false), false, true))
      case SyncForced => s.(conv := EnableSyncRect(c.conv, s.conv, true, false).(forced := true))
  }

  /** OTA over the console latches manual mode and target 0; a failed one resumes tracking. */
  function OtaBegin(s: Ctl): Ctl { s.(manualPwm := true, manualTarget := 0) }

  function OtaFailed(c: Setup, s: Ctl): Ctl {
    s.(conv := SetManualRect(c.conv, s.conv, -1), bootTarget := 0, manualPwm := false)
  }

  // ---- steps ---------------------------------------------------------------------------------

  datatype Event =
    | Advance(us: nat)                     // the loop clock is read again
    | CalibrationStarts                    // a queued task restarts the sampler's calibration
    | CalibrationEnds
    | CalibrationFails(ended: bool)        // CalibFailure: stopAndBackoff(4); a NaN sample ends no calibration
    | AdcUpdate(stalled: bool)
    | NeverSampled                         // converter.disable(), also done before a restart
    | RtNewData(i: RtIn)
    | LatencyWatchdog                      // stopAndBackoff(4), only while converting automatically
    | StuckWatchdog                        // releaseCvFloorLatch(), not in manual mode
    | Quiesce                              // BLE OTA: stopAndBackoff(10)
    | Dc(dc: int, ls: Option<int>)
    | MpptCmd
    | SweepCmd
    | ShortLs(noInput: bool)
    | PwmStep(n: int)
    | SyncCmd(arg: Sync)
    | OtaStart
    | OtaFail

  predicate ValidEvent(e: Event) {
    e.RtNewData? ==> ValidTick(e.i.tick) && ValidTrip(e.i.protect)
  }

  function Apply(c: Setup, s: Ctl, e: Event): Ctl
    requires ValidSetup(c) && ValidEvent(e)
  {
    match e
    case Advance(us) => s.(now := s.now + us)
    case CalibrationStarts => s.(calibrating := true)
    case CalibrationEnds => s.(calibrating := false)
    case CalibrationFails(ended) => StopAndBackoff(s.(calibrating := s.calibrating && !ended), 4)
    case AdcUpdate(stalled) => AdcPoll(s, stalled)
    case NeverSampled => s.(conv := Disable(s.conv))
    case RtNewData(i) => NewData(c, s, i)
    case LatencyWatchdog => if s.conv.ctrl > 0 && !s.manualPwm then StopAndBackoff(s, 4) else s
    case StuckWatchdog => if !s.manualPwm then ReleaseCvFloorLatch(s) else s
    case Quiesce => StopAndBackoff(s, 10)
    case Dc(dc, ls) => CmdDc(c, s, dc, ls)
    case MpptCmd => CmdMppt(c, s)
    case SweepCmd => CmdSweep(c, s)
    case ShortLs(noInput) => CmdShortLs(c, s, noInput)
    case PwmStep(n) => CmdStep(c, s, n)
    case SyncCmd(arg) => CmdSync(c, s, arg)
    case OtaStart => OtaBegin(s)
    case OtaFail => OtaFailed(c, s)
  }
}
