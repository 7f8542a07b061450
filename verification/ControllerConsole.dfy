/** The console's promises: a duty asked for is reached, a step is a step, sync rectification is as told, and
    tracking resumes without a trace of manual control. */
module ControllerConsole {
  import opened Numbers
  import opened Converter
  import opened ConverterWindow
  import opened Controller
  import opened ControllerSafety
  import opened ControllerSweep
  import opened ControllerRuns
  import opened ControllerManual
  import opened ControllerTrips

  // ---- iterations in manual mode -------------------------------------------------------------

  /** An iteration with a new sample in which no protection stops the converter. */
  predicate Calm(i: RtIn) {
    ValidEvent(RtNewData(i)) && i.newSample && !Trips(i) && i.protect.rev != RevHighAverage
  }

  /** Manual mode outside calibration and backoff, on the way to a duty. */
  ghost predicate Steered(c: Setup, s: Ctl, target: nat) {
    ValidSetup(c) && Safe(c, s) && s.manualPwm && !s.calibrating && !InBackoff(s)
    && s.manualTarget == target <= c.conv.ctrlMax
  }

  lemma SteeredGuard(c: Setup, s: Ctl, i: RtIn, target: nat)
    requires Steered(c, s, target) && Calm(i)
    ensures var g := Guard(c, s, i); g.1 && Steered(c, g.0, target) && g.0.conv.ctrl == s.conv.ctrl
  {
    hide Protect, ProtectLf, Kept;
    GuardSafe(c, s, i);
    if s.conv.ctrl > 0 { GuardExactly(c, s, i); }
  }

  lemma ManualKeeps(c: Setup, s: Ctl)
    requires ValidSetup(c)
    ensures var t := UpdateManual(c, s);
            t.manualPwm == s.manualPwm && t.calibrating == s.calibrating && t.manualTarget == s.manualTarget
            && t.now == s.now && t.backoffUntil == s.backoffUntil
  {
    hide Perturb, RampStep, EnableSyncRect, Disable, Constrain;
  }

  /** One iteration: the distance to a positive target shrinks by the ramp step, or to nothing; on the way to 0
      the duty goes down by it, and from the lowest one off. */
  lemma IterationRamps(c: Setup, s: Ctl, i: RtIn, target: nat)
    requires Steered(c, s, target) && Calm(i)
    ensures var t := Apply(c, s, RtNewData(i));
            && Steered(c, t, target)
            && (target > 0 ==> Distance(t) == MaxI(0, Distance(s) - RampStep(c)))
            && (target == 0 ==> t.conv.ctrl == if s.conv.ctrl <= 1 then 0 else MaxI(1, s.conv.ctrl - RampStep(c)))
  {
    hide Guard, UpdateManual, Perturb, RampStep, Kept;
    SteeredGuard(c, s, i, target);
    var g := Guard(c, s, i).0;
    ManualKeeps(c, g);
    if target > 0 { RampApproaches(c, g); } else { RampDownApproaches(c, g); }
    var u := UpdateManual(c, g);
    UpdateManualSafe(c, g);
    CtrlInRange(c, u);
    if u.conv.ctrl > 0 { PerturbMoves(c, u.conv, 0); }
    assert Apply(c, s, RtNewData(i)) == if u.conv.ctrl != 0 then u.(conv := Perturb(c.conv, u.conv, 0)) else u;
    hide Apply;
  }

  lemma CtrlInRange(c: Setup, s: Ctl)
    requires Safe(c, s)
    ensures s.conv.ctrl <= c.conv.ctrlMax
  {
  }

  predicate AllCalm(rts: seq<RtIn>) { forall k :: 0 <= k < |rts| ==> Calm(rts[k]) }

  function Iterations(c: Setup, s: Ctl, rts: seq<RtIn>): Ctl
    requires ValidSetup(c) && AllCalm(rts)
    decreases |rts|
  {
    if rts == [] then s else Iterations(c, Apply(c, s, RtNewData(rts[0])), rts[1..])
  }

  /** Any iterations long enough for the way: the duty is the one asked for. */
  lemma {:induction false} SteersTo(c: Setup, s: Ctl, rts: seq<RtIn>, target: nat)
    requires Steered(c, s, target) && AllCalm(rts)
    requires if target > 0 then |rts| * RampStep(c) >= Distance(s)
             else |rts| > 0 && s.conv.ctrl <= 1 + (|rts| - 1) * RampStep(c)
    ensures Iterations(c, s, rts).conv.ctrl == target && Steered(c, Iterations(c, s, rts), target)
    decreases |rts|
  {
    hide Apply, RampStep, Steered;
    SteeredFacts(c, s, target);
    RampIsPositive(c);
    if rts != [] {
      var u := Apply(c, s, RtNewData(rts[0]));
      IterationRamps(c, s, rts[0], target);
      Multiples(|rts|, RampStep(c));
      if target > 0 { SteersTo(c, u, rts[1..], target); } else { StaysOrSteers(c, u, rts[1..], target); }
    }
  }

  lemma {:induction false} StaysOrSteers(c: Setup, s: Ctl, rts: seq<RtIn>, target: nat)
    requires Steered(c, s, target) && AllCalm(rts) && target == 0
    requires s.conv.ctrl == 0 || (|rts| > 0 && s.conv.ctrl <= 1 + (|rts| - 1) * RampStep(c))
    ensures Iterations(c, s, rts).conv.ctrl == 0 && Steered(c, Iterations(c, s, rts), target)
    decreases |rts|
  {
    hide Apply, RampStep, Steered;
    SteeredFacts(c, s, target);
    RampIsPositive(c);
    if rts != [] {
      var u := Apply(c, s, RtNewData(rts[0]));
      IterationRamps(c, s, rts[0], target);
      Multiples(|rts|, RampStep(c));
      if |rts| >= 2 { Multiples(|rts| - 1, RampStep(c)); }
      StaysOrSteers(c, u, rts[1..], target);
    }
  }

  lemma SteeredFacts(c: Setup, s: Ctl, target: nat)
    requires Steered(c, s, target)
    ensures ValidSetup(c) && (Distance(s) == 0 <==> s.conv.ctrl == target)
  {
  }

  lemma Multiples(n: nat, r: int)
    requires n > 0
    ensures n * r == (n - 1) * r + r && (r >= 1 ==> (n - 1) * r >= 0) && (n == 1 ==> (n - 1) * r == 0)
  {
  }

  // ---- commands ------------------------------------------------------------------------------

  /** `dc`: refused outside the duty range and while calibrating; otherwise manual mode, without sweep, peak or
      automatic target, and enough calm iterations set the duty. */
  lemma DcReaches(c: Setup, s: Ctl, d: int, ls: Option<int>, rts: seq<RtIn>)
    requires ValidSetup(c) && Safe(c, s) && AllCalm(rts)
    ensures var t := Apply(c, s, Dc(d, ls));
            if d < 0 || d > c.conv.ctrlMax || (d != 0 && s.calibrating) then t == s
            else
              && t.manualPwm && !t.sweeping && t.peak == NO_PEAK && t.target == 0 && t.conv.ctrl == s.conv.ctrl
              && (!s.calibrating && !InBackoff(s)
                  && (if d > 0 then |rts| * RampStep(c) >= (if s.conv.ctrl > d then s.conv.ctrl - d else d - s.conv.ctrl)
                      else |rts| > 0 && s.conv.ctrl <= 1 + (|rts| - 1) * RampStep(c))
                  ==> Iterations(c, t, rts).conv.ctrl == d)
  {
    hide SetManualRect, EnableSyncRect, RampStep, Iterations, Kept;
    CmdDcSafe(c, s, d, ls);
    DcKeepsCtrl(c, s, d, ls);
    var t := CmdDc(c, s, d, ls);
    assert Apply(c, s, Dc(d, ls)) == t;
    if 0 <= d <= c.conv.ctrlMax && !s.calibrating && !InBackoff(s)
       && (if d > 0 then |rts| * RampStep(c) >= (if s.conv.ctrl > d then s.conv.ctrl - d else d - s.conv.ctrl)
           else |rts| > 0 && s.conv.ctrl <= 1 + (|rts| - 1) * RampStep(c))
    {
      SteersTo(c, t, rts, d);
    }
  }

  lemma DcKeepsCtrl(c: Setup, s: Ctl, d: int, ls: Option<int>)
    ensures CmdDc(c, s, d, ls).conv.ctrl == s.conv.ctrl && CmdDc(c, s, d, ls).now == s.now
  {
  }

  /** `+N` and `-N`: N counts from the present duty, within its range, to where the manual ramp or, in automatic
      mode, the fade takes it; refused while calibrating and for 0 or more than the range. */
  lemma StepCommand(c: Setup, s: Ctl, n: int)
    requires ValidSetup(c)
    ensures var t, goal := Apply(c, s, PwmStep(n)), MinI(MaxI(0, s.conv.ctrl + n), c.conv.ctrlMax);
            if s.calibrating || n == 0 || -n >= c.conv.ctrlMax || n >= c.conv.ctrlMax then t == s
            else goal >= 0 && t == if s.manualPwm then s.(manualTarget := goal) else s.(target := goal)
  {
    hide NewData;
  }

  lemma StepReaches(c: Setup, s: Ctl, n: int, rts: seq<RtIn>)
    requires ValidSetup(c) && Safe(c, s) && AllCalm(rts) && s.manualPwm && !s.calibrating && !InBackoff(s)
    requires n != 0 && -n < c.conv.ctrlMax && n < c.conv.ctrlMax && 0 < s.conv.ctrl + n <= c.conv.ctrlMax
    requires |rts| * RampStep(c) >= (if n > 0 then n else -n)
    ensures Iterations(c, Apply(c, s, PwmStep(n)), rts).conv.ctrl == s.conv.ctrl + n
  {
    hide RampStep, Iterations, Kept;
    StepCommand(c, s, n);
    StepSafe(c, s, PwmStep(n));
    SteersTo(c, Apply(c, s, PwmStep(n)), rts, s.conv.ctrl + n);
  }

  /** An update over the air and `short-ls` ramp down or stop the converter for good. */
  lemma OtaStops(c: Setup, s: Ctl, rts: seq<RtIn>)
    requires ValidSetup(c) && Safe(c, s) && AllCalm(rts) && !s.calibrating && !InBackoff(s)
    requires |rts| > 0 && s.conv.ctrl <= 1 + (|rts| - 1) * RampStep(c)
    ensures var t := Apply(c, s, OtaStart); t.manualPwm && Iterations(c, t, rts).conv.ctrl == 0
  {
    hide RampStep, Iterations, Kept, NewData;
    StepSafe(c, s, OtaStart);
    SteersTo(c, Apply(c, s, OtaStart), rts, 0);
  }

  lemma ShortLsStops(c: Setup, s: Ctl, noInput: bool)
    requires ValidSetup(c)
    ensures var t := Apply(c, s, ShortLs(noInput));
            if c.conv.boost && noInput
            then Off(t) && t.manualPwm && t.manualTarget == 0 && !t.sweeping && t.target == 0 && t.peak == NO_PEAK
            else t == s
  {
    hide NewData;
  }

  /** `mppt` and a failed update leave manual mode: the low side is no longer held and no boot duty is left, and
      nothing else has changed. */
  lemma TrackingResumes(c: Setup, s: Ctl)
    requires ValidSetup(c)
    ensures var t := Apply(c, s, MpptCmd);
            t == if s.manualPwm then s.(conv := s.conv.(manual := -1), bootTarget := 0, manualPwm := false) else s
    ensures Apply(c, s, OtaFail) == s.(conv := s.conv.(manual := -1), bootTarget := 0, manualPwm := false)
  {
    hide NewData;
  }

  /** `sync`: in manual mode only; on, off and at its minimum at once, or forced. */
  lemma SyncExactly(c: Setup, s: Ctl, arg: Sync)
    requires ValidSetup(c)
    ensures var t := Apply(c, s, SyncCmd(arg));
            && (!s.manualPwm ==> t == s)
            && (s.manualPwm ==>
                  && t == s.(conv := t.conv)
                  && t.conv == s.conv.(sync := t.conv.sync, forced := t.conv.forced, rect := t.conv.rect)
                  && t.conv.sync == (arg != SyncOff) && t.conv.forced == (arg == SyncForced)
                  && t.conv.rect == if arg == SyncOff then MinI(s.conv.rect, c.conv.rectMin) else s.conv.rect)
  {
    hide NewData;
  }

  /** A boot duty is approached by hand, within the range, with sync rectification unless that is unsafe;
      without one the controller begins with a sweep. */
  lemma BeginsExactly(c: Setup, boot: nat)
    requires ValidSetup(c)
    ensures var t := Begin(c, boot);
            if boot == 0 then FreshSweep(t) && !t.manualPwm
            else t.manualPwm && t.manualTarget == MinI(boot, c.conv.ctrlMax) && t.conv.sync == !c.paranoia
                 && t.conv.ctrl == 0 && !t.sweeping && !t.calibrating
  {
  }

  /** Manual control starts the converter with sync rectification, unless reverse currents are feared. */
  lemma ManualStartSyncs(c: Setup, s: Ctl)
    requires ValidSetup(c) && !InBackoff(s) && s.manualTarget != 0 && s.conv.ctrl == 0 && !c.paranoia
    ensures UpdateManual(c, s).conv.sync
  {
    hide Perturb, Fade, Limit;
    RampIsPositive(c);
    hide RampStep;
    forall u: Conv, d: int | d >= 0 && u.sync ensures Perturb(c.conv, u, d).sync { ForwardKeepsSync(c.conv, u, d); }
  }

  lemma ForwardKeepsSync(c: Config, s: Conv, d: int)
    requires ValidConfig(c)
    ensures Perturb(c, s, d).sync == s.sync
  {
    hide Fade, HeldRect, DcmIdeal, DcmRounded, CcmLimit;
  }
}
