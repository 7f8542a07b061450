/** Duty discipline of the control tick: a limiting tick never raises duty, any other one raises it
    by a bounded step, and a sweep climbs monotonically and commits the first point of maximal
    power it saw. */
module ControllerSweep {
  import opened Numbers
  import opened Converter
  import opened ConverterWindow
  import opened Controller
  import opened ControllerSafety

  /** A state in which the automatic tick may be called. */
  ghost predicate Ready(c: Setup, s: Ctl) {
    ValidSetup(c) && Safe(c, s) && !s.calibrating && s.bootTarget == 0
  }

  ghost predicate Limited(i: TickIn) {
    exists k :: 0 <= k < |i.cvs| && Less(i.cvs[k], Num(0.0))
  }

  /** Past the gates at the top of update(): the controllers are consulted. */
  predicate Controls(s: Ctl, i: TickIn) {
    !(s.conv.ctrl == 0 && !StartCondition(s, i.startOk)) && !ResweepDue(s, i)
  }

  function Lim(c: Setup, s: Ctl, i: TickIn): Float
    requires ValidTick(i)
  {
    ScanTo(c, s, i.cvs, 5).lim
  }

  lemma ControlledUpdate(c: Setup, s: Ctl, i: TickIn)
    requires Ready(c, s) && ValidTick(i) && Controls(s, i)
    ensures Safe(c, Route(c, Decide(c, s, i), Lim(c, s, i), i.power).s)
    ensures Update(c, s, i) == Finish(c, Route(c, Decide(c, s, i), Lim(c, s, i), i.power), Lim(c, s, i), i)
  {
    var p := Decide(c, s, i);
    DecideSafe(c, s, i);
    RouteSafe(c, p, Lim(c, s, i), i);
    hide Kept, Route, Finish, ScanTo, Decide;
  }

  lemma FinishMoves(c: Setup, p: Phase, lim: Float, i: TickIn)
    requires ValidSetup(c) && Safe(c, p.s)
    ensures var t := Finish(c, p, lim, i);
            && (p.s.conv.ctrl > 0 ==> t.conv.ctrl as real < p.s.conv.ctrl as real + StepCap(c) + 1.0)
            && (Less(FinalValue(p, lim, i), Num(0.0)) ==> t.conv.ctrl <= p.s.conv.ctrl)
            && (p.s.conv.ctrl > 0 && FinalValue(p, lim, i).Num? && FinalValue(p, lim, i).r >= 0.0 ==>
                  t.conv.ctrl >= p.s.conv.ctrl)
            && t == p.s.(conv := t.conv, mode := t.mode, lastUs := t.lastUs)
  {
    hide StepAndSync, Safe;
    var v := FinalValue(p, lim, i);
    var s1 := p.s.(mode := if p.mode == ModeNone then MPPT else p.mode);
    SafeInAnyMode(c, p.s, s1.mode);
    StepMoves(c, s1, v, i.syncOn);
    hide FinalValue;
  }

  lemma SafeInAnyMode(c: Setup, s: Ctl, mode: Mode)
    requires Safe(c, s)
    ensures Safe(c, s.(mode := mode))
  {
  }

  lemma StepMoves(c: Setup, s: Ctl, v: Float, syncOn: bool)
    requires ValidSetup(c) && Safe(c, s)
    ensures var t := StepAndSync(c, s, v, syncOn);
            && (s.conv.ctrl > 0 ==> t.conv.ctrl as real < s.conv.ctrl as real + StepCap(c) + 1.0)
            && (Less(v, Num(0.0)) ==> t.conv.ctrl <= s.conv.ctrl)
            && (s.conv.ctrl > 0 && v.Num? && v.r >= 0.0 ==> t.conv.ctrl >= s.conv.ctrl)
            && t == s.(conv := t.conv, lastUs := t.lastUs)
  {
    hide Kept, PerturbFractional, EnableSyncRect, Request;
    if s.lastUs != 0 {
      RequestRange(c, s, v);
      var q := Request(c, s, v);
      if InRange(c.conv, q) {
        FractionMoves(c, s.conv, q.r);
        SideOpsHarmless(c, PerturbFractional(c.conv, s.conv, q), syncOn, false, false);
      }
    } else {
      SideOpsHarmless(c, s.conv, syncOn, false, false);
    }
  }

  // ---- limiting ticks ------------------------------------------------------------------------

  /** The sweep and fade branches do not touch the duty of a running converter, except to stop it. */
  lemma RouteKeepsDuty(c: Setup, p: Phase, lim: Float, power: Float)
    requires ValidSetup(c) && (SweepRuns(p.s) ==> p.s.conv.ctrl > 0)
    ensures var r := Route(c, p, lim, power);
            && (r.s.conv.ctrl == p.s.conv.ctrl || (r.s.conv.ctrl == 0 && InBackoff(r.s)))
            && (p.mode != ModeNone ==> r.mode != ModeNone)
            && (p.value != NaN && lim != NaN ==> r.value != NaN)
  {
    hide Perturb, StopSweep, SweepTick, FadeTick;
    if SweepRuns(p.s) { SweepTickKeepsDuty(c, p, lim, power); } else { FadeTickKeepsDuty(c, p); }
  }

  lemma SweepTickKeepsDuty(c: Setup, p: Phase, lim: Float, power: Float)
    requires ValidSetup(c) && p.s.conv.ctrl > 0
    ensures var r := SweepTick(c, p, lim, power);
            && (r.s.conv.ctrl == p.s.conv.ctrl || (r.s.conv.ctrl == 0 && InBackoff(r.s)))
            && (p.mode != ModeNone ==> r.mode != ModeNone)
            && (p.value != NaN && lim != NaN ==> r.value != NaN)
  {
    hide StopSweep, Perturb;
    StopSweepDuty(p.s);
  }

  lemma StopSweepDuty(s: Ctl)
    ensures var t := StopSweep(s); t.conv.ctrl == s.conv.ctrl || (t.conv.ctrl == 0 && InBackoff(t))
  {
  }

  lemma FadeTickKeepsDuty(c: Setup, p: Phase)
    ensures var r := FadeTick(c, p);
            r.s.conv == p.s.conv && (p.mode != ModeNone ==> r.mode != ModeNone) && (p.value != NaN ==> r.value != NaN)
  {
  }

  lemma RoutedTick(c: Setup, s: Ctl, i: TickIn)
    requires Ready(c, s) && ValidTick(i) && s.conv.ctrl > 0 && Controls(s, i)
    ensures var lim := Lim(c, s, i);
            var r := Route(c, Decide(c, s, i), lim, i.power);
            && Safe(c, r.s)
            && (r.s.conv.ctrl == s.conv.ctrl || r.s.conv.ctrl == 0)
            && (r.s.conv.ctrl == 0 || Limited(i) ==> Less(FinalValue(r, lim, i), Num(0.0)))
  {
    hide Kept, Route;
    var p, lim := Decide(c, s, i), Lim(c, s, i);
    DecideSafe(c, s, i);
    RouteSafe(c, p, lim, i);
    ScanSafe(c, s, i.cvs, 5);
    ScanNegative(c, s, i.cvs, 5);
    hide ScanTo;
    assert p.s.conv.ctrl == s.conv.ctrl || (p.s.conv.ctrl == 0 && InBackoff(p.s));
    assert p.value != NaN && (Limited(i) ==> Less(lim, Num(0.0)) && p.mode != ModeNone);
    RouteKeepsDuty(c, p, lim, i.power);
  }

  /** A tick in which some controller output is negative leaves the duty of a running converter
      unchanged or lowers it, despite boundary bounce, target fade, sweep and carried fraction. Any
      other tick raises it by less than the step cap plus one count. */
  lemma LimitingTickNeverRaises(c: Setup, s: Ctl, i: TickIn)
    requires Ready(c, s) && ValidTick(i) && s.conv.ctrl > 0
    ensures Limited(i) ==> Update(c, s, i).conv.ctrl <= s.conv.ctrl
    ensures Update(c, s, i).conv.ctrl as real < s.conv.ctrl as real + StepCap(c) + 1.0
  {
    if Controls(s, i) {
      hide Update, Route, Finish, ScanTo, Decide, Kept, Limited, FinalValue;
      ControlledUpdate(c, s, i);
      RoutedTick(c, s, i);
      FinishMoves(c, Route(c, Decide(c, s, i), Lim(c, s, i), i.power), Lim(c, s, i), i);
    }
  }

  // ---- sweeps --------------------------------------------------------------------------------

  /** A point of the power curve, sampled at the duty of that tick. */
  datatype Point = Point(power: Float, duty: nat)

  predicate Eligible(p: Point) { p.power != NaN && !Less(p.power, Num(SWEEP_MIN_POWER)) }

  /** The tick of a sweep that samples the power curve; other ticks wait for the start condition,
      stop the sweep or are ended by a trip. */
  predicate Samples(c: Setup, s: Ctl, i: TickIn)
    requires ValidTick(i)
  {
    Controls(s, i) && SweepRuns(Decide(c, s, i).s) && Decide(c, s, i).mode == ModeNone
  }

  function SampleOf(s: Ctl, i: TickIn): Point {
    Point(i.power, if s.conv.ctrl == 0 then 1 else s.conv.ctrl)
  }

  /** `peak` is the first point of maximal power among the eligible ones. */
  ghost predicate FirstMaximum(peak: Peak, pts: seq<Point>, k: nat) {
    k < |pts| && Eligible(pts[k]) && peak == Peak(pts[k].power, pts[k].duty)
    && (forall j :: 0 <= j < |pts| && Eligible(pts[j]) ==> !Less(pts[k].power, pts[j].power))
    && (forall j :: 0 <= j < k && Eligible(pts[j]) ==> Less(pts[j].power, pts[k].power))
  }

  ghost predicate NoMaximum(pts: seq<Point>) {
    forall j :: 0 <= j < |pts| ==> !Eligible(pts[j])
  }

  ghost predicate PeakOf(peak: Peak, pts: seq<Point>) {
    (peak == NO_PEAK && NoMaximum(pts)) || (exists k :: FirstMaximum(peak, pts, k))
  }

  lemma CaptureFindsMaximum(s: Ctl, pts: seq<Point>, power: Float)
    requires PeakOf(s.peak, pts)
    ensures PeakOf(Capture(s, power).peak, pts + [Point(power, s.conv.ctrl)])
  {
    var all := pts + [Point(power, s.conv.ctrl)];
    var t := Capture(s, power);
    if t.peak != s.peak || (t.peak == Peak(power, s.conv.ctrl) && s.peak == NO_PEAK && Eligible(all[|pts|])) {
      assert FirstMaximum(t.peak, all, |pts|);
    } else if s.peak == NO_PEAK && NoMaximum(pts) {
      assert NoMaximum(all);
    } else {
      var k :| FirstMaximum(s.peak, pts, k);
      assert FirstMaximum(t.peak, all, k);
    }
  }

  /** A sampling tick keeps sweeping, keeps or raises the duty and captures its point. */
  lemma SamplingTick(c: Setup, s: Ctl, i: TickIn)
    requires Ready(c, s) && ValidTick(i) && s.sweeping && Samples(c, s, i)
    ensures var u := Update(c, s, i);
            && u.sweeping && Ready(c, u) && u.manualPwm == s.manualPwm
            && u.peak == Capture(s.(conv := s.conv.(ctrl := SampleOf(s, i).duty)), i.power).peak
            && u.conv.ctrl >= s.conv.ctrl
  {
    var p, lim := Decide(c, s, i), Lim(c, s, i);
    SamplingDecided(c, s, i);
    ControlledUpdate(c, s, i);
    SamplingRouted(c, p, lim, i);
    FinishMoves(c, Route(c, p, lim, i.power), lim, i);
    UpdateSafe(c, s, i);
    hide Kept, Safe, ScanTo, Update, Finish, Route, Decide, FinalValue;
  }

  lemma SamplingDecided(c: Setup, s: Ctl, i: TickIn)
    requires Ready(c, s) && ValidTick(i) && s.sweeping && Samples(c, s, i)
    ensures Decide(c, s, i).s == s && Lim(c, s, i) != NaN && !Less(Lim(c, s, i), Num(0.0))
  {
    hide Kept;
    ScanSafe(c, s, i.cvs, 5);
    ScanNegative(c, s, i.cvs, 5);
    hide ScanTo;
  }

  lemma SamplingRouted(c: Setup, p: Phase, lim: Float, i: TickIn)
    requires ValidSetup(c) && Safe(c, p.s) && SweepRuns(p.s) && p.mode == ModeNone
    requires lim != NaN && !Less(lim, Num(0.0))
    ensures var r := Route(c, p, lim, i.power);
            && r.s.sweeping && r.s.manualPwm == p.s.manualPwm && r.s.calibrating == p.s.calibrating
            && r.s.bootTarget == p.s.bootTarget
            && r.s.conv.ctrl == (if p.s.conv.ctrl == 0 then 1 else p.s.conv.ctrl)
            && r.s.peak == Capture(p.s.(conv := p.s.conv.(ctrl := SampleOf(p.s, i).duty)), i.power).peak
            && FinalValue(r, lim, i).Num? && FinalValue(r, lim, i).r >= 0.0
  {
    hide Kept, Perturb;
    if p.s.conv.ctrl == 0 { PerturbMoves(c, p.s.conv, 1); }
    SweepValue(c, lim);
  }

  lemma SweepValue(c: Setup, lim: Float)
    requires ValidSetup(c) && lim != NaN && !Less(lim, Num(0.0))
    ensures var v := MinF(MinF(Scale(lim, c.sweepSpeed * 0.05), Num(c.sweepSpeed)), lim); v.Num? && v.r >= 0.0
  {
  }

  /** A tick that ends the sweep by a control verdict: it commits the peak, or it has none and backs
      off for 30 s with the converter off. */
  lemma StoppingTick(c: Setup, s: Ctl, i: TickIn)
    requires Ready(c, s) && ValidTick(i) && s.sweeping && Controls(s, i)
    requires SweepRuns(Decide(c, s, i).s) && !Samples(c, s, i)
    ensures var u := Update(c, s, i);
            && !u.sweeping && u.now == s.now
            && (if Less(s.peak.power, Num(SWEEP_MIN_POWER))
                then u.target == 0 && u.conv.ctrl == 0 && u.backoffArmed == LONG_BACKOFF
                     && u.backoffUntil == s.now + LONG_BACKOFF * SECOND
                else u.target == s.peak.duty)
  {
    hide Kept;
    var p, lim := Decide(c, s, i), Lim(c, s, i);
    ScanSafe(c, s, i.cvs, 5);
    ControlledUpdate(c, s, i);
    DecideSafe(c, s, i);
    RouteSafe(c, p, lim, i);
    hide ScanTo, Update, Finish, Perturb;
    assert p.s == s.(limiting := p.s.limiting);
    FinishMoves(c, Route(c, p, lim, i.power), lim, i);
  }

  /** Any other tick of a sweep waits for the start condition or was ended by a controller output
      that is not finite. */
  lemma OtherTick(c: Setup, s: Ctl, i: TickIn)
    requires Ready(c, s) && ValidTick(i) && s.sweeping && !Samples(c, s, i)
    requires !(Controls(s, i) && SweepRuns(Decide(c, s, i).s))
    ensures var u := Update(c, s, i);
            if u.sweeping then u == s.(mode := ModeNone) else InBackoff(u) && u.conv.ctrl == 0
  {
    hide Kept;
    if Controls(s, i) {
      var p, lim := Decide(c, s, i), Lim(c, s, i);
      ScanSafe(c, s, i.cvs, 5);
      ControlledUpdate(c, s, i);
      hide ScanTo, Update, Finish, Perturb;
      assert InBackoff(p.s) && !p.s.sweeping;
      var r := Route(c, p, lim, i.power);
      assert InBackoff(r.s) && !r.s.sweeping;
      FinishMoves(c, r, lim, i);
      UpdateSafe(c, s, i);
    }
  }

  // ---- whole sweeps, as iterations of the real-time loop -------------------------------------

  datatype Tick = Tick(us: nat, rt: RtIn)

  predicate ValidRt(t: Tick) { ValidTick(t.rt.tick) && ValidTrip(t.rt.protect) }

  function Later(s: Ctl, us: nat): Ctl { s.(now := s.now + us) }

  function Iterate(c: Setup, s: Ctl, t: Tick): Ctl
    requires ValidSetup(c) && ValidRt(t)
  {
    NewData(c, Later(s, t.us), t.rt)
  }

  /** The state in which this iteration calls update(), if its protections let it. */
  function Guarded(c: Setup, s: Ctl, t: Tick): (Ctl, bool)
    requires ValidSetup(c)
  {
    Guard(c, Later(s, t.us), t.rt)
  }

  predicate Updates(c: Setup, s: Ctl, t: Tick)
    requires ValidSetup(c)
  {
    Guarded(c, s, t).1 && Guarded(c, s, t).0.sweeping && t.rt.newSample
  }

  function PointsOf(c: Setup, s: Ctl, t: Tick): seq<Point>
    requires ValidSetup(c) && ValidRt(t)
  {
    if Updates(c, s, t) && Samples(c, Guarded(c, s, t).0, t.rt.tick)
    then [SampleOf(Guarded(c, s, t).0, t.rt.tick)] else []
  }

  /** The controllers, not a protection, end the sweep in this iteration. */
  predicate StopsByControl(c: Setup, s: Ctl, t: Tick)
    requires ValidSetup(c) && ValidRt(t)
  {
    var g := Guarded(c, s, t).0;
    Updates(c, s, t) && Controls(g, t.rt.tick) && SweepRuns(Decide(c, g, t.rt.tick).s) && !Samples(c, g, t.rt.tick)
  }

  /** A sweep in progress, calibration finished. */
  ghost predicate InSweep(c: Setup, s: Ctl) { Ready(c, s) && s.sweeping && !s.manualPwm }

  lemma LaterSafe(c: Setup, s: Ctl, us: nat)
    requires ValidSetup(c) && Safe(c, s)
    ensures Safe(c, Later(s, us))
  {
  }

  /** Nothing but the converter, or stopped by a trip. */
  ghost predicate Untouched(s: Ctl, t: Ctl) {
    t == s.(conv := t.conv) && t.conv.ctrl == s.conv.ctrl
  }

  ghost predicate Tripped(s: Ctl, t: Ctl) {
    InBackoff(t) && t.conv.ctrl == 0 && !t.sweeping && t.manualPwm == s.manualPwm && t.bootTarget == s.bootTarget
  }

  lemma TripsTrip(s: Ctl, u: Ctl, sec: nat)
    requires Untouched(s, u) || Tripped(s, u)
    requires sec > 0
    ensures Tripped(s, ShutdownDcdc(u, sec))
  {
  }

  lemma ReverseOutcome(c: Setup, s: Ctl, rev: Reverse)
    requires ValidSetup(c)
    ensures var u := ReactReverse(c, s, rev); Untouched(s, u) || Tripped(s, u)
  {
    hide Kept, SyncRectMinDuty, ShutdownDcdc;
    SideOpsHarmless(c, s.conv, true, true, true);
    TripsTrip(s, s, DEFAULT_BACKOFF);
  }

  lemma ReactOutcome(c: Setup, s: Ctl, rev: Reverse, low: bool)
    requires ValidSetup(c)
    ensures var t := ReactLowCurrent(c, ReactReverse(c, s, rev), low); Untouched(s, t) || Tripped(s, t)
  {
    hide Kept, SyncRectMinDuty, Disable, EnableSyncRect;
    SideOpsHarmless(c, s.conv, true, true, true);
    var u := ReactReverse(c, s, rev);
    assert Untouched(s, u) || Tripped(s, u) by { ReverseOutcome(c, s, rev); }
    hide ReactReverse;
    SideOpsHarmless(c, u.conv, true, true, true);
  }

  lemma ProtectOutcome(c: Setup, s: Ctl, p: ProtectIn)
    requires ValidSetup(c) && ValidTrip(p)
    ensures var r := Protect(c, s, p); (r.1 && Untouched(s, r.0)) || Tripped(s, r.0)
  {
    hide Kept, UpdateMaxDuty, ReactReverse, ReactLowCurrent, ShutdownDcdc;
    match p
    case TripEarly(sec, recalibrate) => TripsTrip(s, s, sec);
    case TripLate(rev, low, sec) =>
      ReactOutcome(c, s, rev, low);
      TripsTrip(s, ReactLowCurrent(c, ReactReverse(c, s, rev), low), sec);
    case NoTrip(rev, low, m, ratioFails) =>
      ReactOutcome(c, s, rev, low);
      var s1 := ReactLowCurrent(c, ReactReverse(c, s, rev), low);
      UpdateMaxHarmless(c, s1.conv, m);
      TripsTrip(s, s1.(conv := UpdateMaxDuty(c.conv, s1.conv, m)), DEFAULT_BACKOFF);
  }

  /** Protections that let an iteration go on change nothing but the rectifier; the others leave the
      converter off, and after a trip the sweep is over. */
  lemma GuardOutcome(c: Setup, s: Ctl, i: RtIn)
    requires ValidSetup(c) && ValidTrip(i.protect)
    ensures var g := Guard(c, s, i);
            && g.0.manualPwm == s.manualPwm && g.0.bootTarget == s.bootTarget
            && (g.1 ==> Untouched(s, g.0) || Tripped(s, g.0))
  {
    if s.conv.ctrl != 0 {
      ProtectOutcome(c, s, i.protect);
      LfOutcome(Protect(c, s, i.protect).0, i.lf);
    }
    hide Protect, ProtectLf, Disable;
  }

  lemma LfOutcome(s: Ctl, lf: LfIn)
    ensures var r := ProtectLf(s, lf);
            r.0.manualPwm == s.manualPwm && r.0.bootTarget == s.bootTarget && (r.1 ==> r.0 == s)
  {
    hide Disable;
  }

  /** No part of a control tick changes the manual mode or takes time. */
  predicate SameModeAndTime(s: Ctl, t: Ctl) { t.manualPwm == s.manualPwm && t.now == s.now }

  lemma {:induction false} ScanKeepsMode(c: Setup, s: Ctl, cvs: seq<Float>, n: nat)
    requires n <= |cvs|
    ensures SameModeAndTime(s, ScanTo(c, s, cvs, n).s)
  {
    if n > 0 { ScanKeepsMode(c, s, cvs, n - 1); }
  }

  lemma UpdateKeepsMode(c: Setup, s: Ctl, i: TickIn)
    requires ValidSetup(c) && ValidTick(i)
    ensures SameModeAndTime(s, Update(c, s, i))
  {
    hide ScanTo, Route, Finish, Disable, Controller.UpdateCv;
    ScanKeepsMode(c, s, i.cvs, 5);
    RouteKeepsMode(c, Decide(c, s, i), Lim(c, s, i), i);
    UpdateCvKeepsMode(c, s, i);
  }

  lemma UpdateCvKeepsMode(c: Setup, s: Ctl, i: TickIn)
    requires ValidSetup(c)
    ensures SameModeAndTime(s, UpdateCv(c, s, i))
  {
    hide PerturbFractional, EnableSyncRect, Disable, ClampF, AbsR;
  }

  lemma RouteKeepsMode(c: Setup, p: Phase, lim: Float, i: TickIn)
    requires ValidSetup(c)
    ensures SameModeAndTime(p.s, Finish(c, Route(c, p, lim, i.power), lim, i))
  {
    hide Perturb, PerturbFractional, EnableSyncRect, Request, Disable, InRange, MinF, SweepTick, FadeTick;
    SweepTickKeepsMode(c, p, lim, i.power);
    FadeTickKeepsMode(c, p);
  }

  lemma SweepTickKeepsMode(c: Setup, p: Phase, lim: Float, power: Float)
    requires ValidSetup(c)
    ensures SameModeAndTime(p.s, SweepTick(c, p, lim, power).s)
  {
    hide Perturb, Disable;
  }

  lemma FadeTickKeepsMode(c: Setup, p: Phase)
    ensures SameModeAndTime(p.s, FadeTick(c, p).s)
  {
  }

  /** An iteration of a sweep: a protection ends it, or it is one update() in an untouched state. */
  lemma IterationIsUpdate(c: Setup, s: Ctl, t: Tick)
    requires InSweep(c, s) && ValidRt(t)
    ensures var g := Guarded(c, s, t).0;
            && Iterate(c, s, t).manualPwm == false
            && (if Updates(c, s, t)
                then InSweep(c, g) && Untouched(Later(s, t.us), g) && Iterate(c, s, t) == Update(c, g, t.rt.tick)
                else if Iterate(c, s, t).sweeping
                then Untouched(Later(s, t.us), Iterate(c, s, t)) && Safe(c, Iterate(c, s, t))
                else InBackoff(Iterate(c, s, t)) && Iterate(c, s, t).conv.ctrl == 0)
  {
    hide Kept;
    var s1 := Later(s, t.us);
    LaterSafe(c, s, t.us);
    GuardSafe(c, s1, t.rt);
    GuardOutcome(c, s1, t.rt);
    hide Guard;
    UpdateKeepsMode(c, Guarded(c, s, t).0, t.rt.tick);
    if Tripped(s1, Guarded(c, s, t).0) {
      TrippedTickWaits(c, Guarded(c, s, t).0, t.rt.tick);
    }
    hide Update;
    StopAndBackoffTrips(Guarded(c, s, t).0, 4);
  }

  lemma TrippedTickWaits(c: Setup, s: Ctl, i: TickIn)
    requires ValidSetup(c) && ValidTick(i) && InBackoff(s) && s.conv.ctrl == 0 && s.bootTarget == 0
    ensures Update(c, s, i) == s.(mode := ModeNone)
  {
  }

  lemma StopAndBackoffTrips(s: Ctl, sec: nat)
    ensures var t := StopAndBackoff(s, sec); InBackoff(t) && t.conv.ctrl == 0 && !t.sweeping
  {
  }

  /** One iteration of a sweep that goes on: duty does not fall and the peak stays the first maximum
      of the points so far. */
  lemma IterationSamples(c: Setup, s: Ctl, t: Tick, pts: seq<Point>)
    requires InSweep(c, s) && ValidRt(t) && PeakOf(s.peak, pts) && Iterate(c, s, t).sweeping
    ensures var u := Iterate(c, s, t);
            InSweep(c, u) && u.conv.ctrl >= s.conv.ctrl && PeakOf(u.peak, pts + PointsOf(c, s, t))
  {
    hide Kept, Iterate, PeakOf, Guarded;
    IterationIsUpdate(c, s, t);
    var g, i := Guarded(c, s, t).0, t.rt.tick;
    assert pts + [] == pts;
    if Updates(c, s, t) {
      if Samples(c, g, i) {
        SamplingTick(c, g, i);
        CaptureFindsMaximum(g.(conv := g.conv.(ctrl := SampleOf(g, i).duty)), pts, i.power);
      } else if Controls(g, i) && SweepRuns(Decide(c, g, i).s) {
        StoppingTick(c, g, i);
      } else {
        OtherTick(c, g, i);
        UpdateSafe(c, g, i);
      }
    }
    hide Update, Samples, Capture;
  }

  /** The iteration that ends a sweep. If the controllers end it, the target becomes the duty of the
      first maximum, or there was none and a 30 s backoff starts; otherwise a trip left the
      converter off and in backoff. */
  lemma IterationStops(c: Setup, s: Ctl, t: Tick, pts: seq<Point>)
    requires InSweep(c, s) && ValidRt(t) && PeakOf(s.peak, pts) && !Iterate(c, s, t).sweeping
    ensures var u := Iterate(c, s, t);
            if StopsByControl(c, s, t) then
              (exists k :: 0 <= k < |pts| && FirstMaximum(s.peak, pts, k) && u.target == pts[k].duty)
              || (NoMaximum(pts) && u.target == 0 && u.conv.ctrl == 0 && u.backoffArmed == LONG_BACKOFF
                  && u.backoffUntil == u.now + LONG_BACKOFF * SECOND)
            else InBackoff(u) && u.conv.ctrl == 0
  {
    hide Kept, Iterate, Guarded;
    IterationIsUpdate(c, s, t);
    var g, i := Guarded(c, s, t).0, t.rt.tick;
    if StopsByControl(c, s, t) {
      StoppingTick(c, g, i);
      if !NoMaximum(pts) {
        var k: nat :| FirstMaximum(s.peak, pts, k);
        assert Iterate(c, s, t).target == pts[k].duty;
      }
    } else if Updates(c, s, t) {
      if Samples(c, g, i) {
        SamplingTick(c, g, i);
      } else {
        OtherTick(c, g, i);
      }
    }
    hide Update, Samples;
  }

  // ---- sequences of iterations ---------------------------------------------------------------

  function SweepTo(c: Setup, s: Ctl, ts: seq<Tick>): Ctl
    requires ValidSetup(c) && forall t :: t in ts ==> ValidRt(t)
    decreases |ts|
  {
    if ts == [] then s else Iterate(c, SweepTo(c, s, ts[..|ts| - 1]), ts[|ts| - 1])
  }

  /** Every point sampled on the way, in order. */
  function AllPoints(c: Setup, s: Ctl, ts: seq<Tick>): seq<Point>
    requires ValidSetup(c) && forall t :: t in ts ==> ValidRt(t)
    decreases |ts|
  {
    if ts == [] then []
    else AllPoints(c, s, ts[..|ts| - 1]) + PointsOf(c, SweepTo(c, s, ts[..|ts| - 1]), ts[|ts| - 1])
  }

  ghost predicate KeepsSweeping(c: Setup, s: Ctl, ts: seq<Tick>)
    requires ValidSetup(c) && forall t :: t in ts ==> ValidRt(t)
    decreases |ts|
  {
    ts == [] || (KeepsSweeping(c, s, ts[..|ts| - 1]) && SweepTo(c, s, ts).sweeping)
  }

  /** A whole sweep of any length: duty never decreases from one iteration to the next, and the peak
      is the first maximum of all points. */
  lemma {:induction false} SweepClimbs(c: Setup, s: Ctl, ts: seq<Tick>)
    requires InSweep(c, s) && s.peak == NO_PEAK && forall t :: t in ts ==> ValidRt(t)
    requires KeepsSweeping(c, s, ts)
    ensures InSweep(c, SweepTo(c, s, ts)) && PeakOf(SweepTo(c, s, ts).peak, AllPoints(c, s, ts))
    ensures ts != [] ==> SweepTo(c, s, ts).conv.ctrl >= SweepTo(c, s, ts[..|ts| - 1]).conv.ctrl
    decreases |ts|
  {
    hide InSweep, Iterate, PeakOf, PointsOf;
    InSweepIsReady(c, s);
    if ts == [] {
      EmptyPeak();
    } else {
      var pre := ts[..|ts| - 1];
      SweepClimbs(c, s, pre);
      IterationSamples(c, SweepTo(c, s, pre), ts[|ts| - 1], AllPoints(c, s, pre));
      InSweepIsReady(c, SweepTo(c, s, ts));
    }
  }

  lemma EmptyPeak()
    ensures PeakOf(NO_PEAK, [])
  {
    assert NoMaximum([]);
  }

  lemma InSweepIsReady(c: Setup, s: Ctl)
    ensures InSweep(c, s) ==> ValidSetup(c)
  {
  }

  /** The sweep commits the true argmax, whatever came before the iteration that stops it. */
  lemma SweepCommitsArgmax(c: Setup, s: Ctl, ts: seq<Tick>, t: Tick)
    requires InSweep(c, s) && s.peak == NO_PEAK && (forall x :: x in ts ==> ValidRt(x)) && ValidRt(t)
    requires KeepsSweeping(c, s, ts)
    requires !Iterate(c, SweepTo(c, s, ts), t).sweeping && StopsByControl(c, SweepTo(c, s, ts), t)
    ensures var u, pts := Iterate(c, SweepTo(c, s, ts), t), AllPoints(c, s, ts);
            (exists k :: 0 <= k < |pts| && FirstMaximum(SweepTo(c, s, ts).peak, pts, k) && u.target == pts[k].duty)
            || (NoMaximum(pts) && u.target == 0 && u.conv.ctrl == 0 && u.backoffArmed == LONG_BACKOFF
                && u.backoffUntil == u.now + LONG_BACKOFF * SECOND)
  {
    SweepClimbs(c, s, ts);
    hide InSweep, PeakOf, Iterate, SweepTo, AllPoints, StopsByControl;
    IterationStops(c, SweepTo(c, s, ts), t, AllPoints(c, s, ts));
  }
}
