/** What stops the converter and for how long, and what lets it start again: protections, watchdogs,
    calibration and the gates of a sweep, each stated in the verdicts themselves. */
module ControllerTrips {
  import opened Numbers
  import opened Converter
  import opened ConverterWindow
  import opened Controller
  import opened ControllerSafety
  import opened ControllerSweep
  import opened ControllerRuns

  /** Both switches off and sync rectification with them. */
  predicate Off(s: Ctl) { s.conv.ctrl == 0 && s.conv.rect == 0 && !s.conv.sync }

  // ---- protections ---------------------------------------------------------------------------

  /** A protection that ends the iteration. */
  predicate Trips(i: RtIn) {
    i.lf != LfOk || i.protect.TripEarly? || i.protect.TripLate? || i.protect.ratioFails
  }

  /** It asks for the long backoff. */
  predicate LongTrip(i: RtIn) {
    (i.protect.TripEarly? || i.protect.TripLate?) && i.protect.sec == LONG_BACKOFF
  }

  lemma ShutdownExactly(s: Ctl, sec: nat)
    ensures var t := ShutdownDcdc(s, sec);
            && Off(t) && t.now == s.now && t.manualPwm == s.manualPwm
            && (sec > 0 ==> !t.sweeping
                            && t.backoffArmed == (if !InBackoff(s) || sec > s.backoffArmed then sec else s.backoffArmed)
                            && t.backoffUntil == (if !InBackoff(s) || sec > s.backoffArmed then s.now + sec * SECOND
                                                  else s.backoffUntil))
  {
  }

  lemma StopExactly(s: Ctl, delay: nat)
    ensures var t := StopAndBackoff(s, delay);
            && Off(t) && !t.sweeping && t.delayStart == s.now + delay * SECOND && t.now == s.now && t.manualPwm == s.manualPwm
            && t.backoffUntil == if !InBackoff(s) || DEFAULT_BACKOFF > s.backoffArmed then s.now + DEFAULT_BACKOFF * SECOND
                                 else s.backoffUntil
  {
    hide ShutdownDcdc;
    ShutdownExactly(s, DEFAULT_BACKOFF);
  }

  /** A running converter that backs off from now for the given length, or is not in a backoff. */
  ghost predicate Armed(s: Ctl, u: Ctl, sec: nat) {
    && u.now == s.now && u.manualPwm == s.manualPwm
    && (if sec == 0 then !InBackoff(u) else Off(u) && u.backoffArmed == sec && u.backoffUntil == s.now + sec * SECOND)
  }

  function Longer(a: nat, b: nat): nat { if a > b then a else b }

  lemma ShutdownArms(s: Ctl, u: Ctl, a: nat, sec: nat)
    requires Armed(s, u, a) && sec > 0
    ensures Armed(s, ShutdownDcdc(u, sec), Longer(a, sec))
  {
    hide ShutdownDcdc;
    ShutdownExactly(u, sec);
  }

  lemma ReactArms(c: Setup, s: Ctl, rev: Reverse, low: bool)
    requires ValidSetup(c) && !InBackoff(s)
    ensures Armed(s, ReactLowCurrent(c, ReactReverse(c, s, rev), low), if rev == RevHighAverage then DEFAULT_BACKOFF else 0)
  {
    hide ShutdownDcdc, SyncRectMinDuty;
    ShutdownExactly(s, DEFAULT_BACKOFF);
    forall u: Conv { MinDutyExactly(c.conv, u); }
  }

  lemma MinDutyExactly(c: Config, s: Conv)
    ensures var t := SyncRectMinDuty(c, s); t == s.(rect := MinI(s.rect, c.rectMin))
  {
  }

  /** Backoff that a protect() call has armed, 0 if none. */
  function ProtectLength(p: ProtectIn): nat {
    match p
    case TripEarly(sec, _) => sec
    case TripLate(rev, _, sec) => Longer(if rev == RevHighAverage then DEFAULT_BACKOFF else 0, sec)
    case NoTrip(rev, _, _, ratioFails) => if ratioFails || rev == RevHighAverage then DEFAULT_BACKOFF else 0
  }

  lemma ProtectExactly(c: Setup, s: Ctl, p: ProtectIn)
    requires ValidSetup(c) && ValidTrip(p) && !InBackoff(s)
    ensures var r := Protect(c, s, p);
            && Armed(s, r.0, ProtectLength(p))
            && (r.1 <==> p.NoTrip? && !p.ratioFails)
            && (r.1 && p.rev != RevHighAverage ==> r.0 == s.(conv := r.0.conv) && r.0.conv.ctrl == s.conv.ctrl)
            && (r.1 && (p.rev == RevMinDuty || p.lowCurrent) ==> r.0.conv.rect <= c.conv.rectMin)
  {
    hide ReactReverse, ReactLowCurrent, UpdateMaxDuty, ShutdownDcdc, Disable;
    match p
    case TripEarly(sec, recalibrate) => ShutdownExactly(s, sec);
    case TripLate(rev, low, sec) =>
      ReactArms(c, s, rev, low);
      var before := if rev == RevHighAverage then DEFAULT_BACKOFF else 0;
      ShutdownArms(s, ReactLowCurrent(c, ReactReverse(c, s, rev), low), before, sec);
    case NoTrip(rev, low, m, ratioFails) =>
      ReactArms(c, s, rev, low);
      var s1 := ReactLowCurrent(c, ReactReverse(c, s, rev), low);
      SampleKeepsOff(c, s1, m);
      ReactLowSide(c, s, rev, low);
      var s2 := s1.(conv := UpdateMaxDuty(c.conv, s1.conv, m));
      ShutdownArms(s, s2, if rev == RevHighAverage then DEFAULT_BACKOFF else 0, DEFAULT_BACKOFF);
  }

  lemma SampleKeepsOff(c: Setup, s: Ctl, m: Meas)
    requires ValidSetup(c)
    ensures var t := UpdateMaxDuty(c.conv, s.conv, m);
            t.ctrl == s.conv.ctrl && t.rect <= s.conv.rect && t.sync == s.conv.sync
  {
    hide Limit, ComputeSyncRectRatio;
    RatioKeepsDuties(c.conv, s.conv, m);
  }

  /** Reverse or low current takes the low side down to its minimum at once. */
  lemma ReactLowSide(c: Setup, s: Ctl, rev: Reverse, low: bool)
    ensures var t := ReactLowCurrent(c, ReactReverse(c, s, rev), low);
            && (rev == RevMinDuty || low ==> t.conv.rect <= c.conv.rectMin)
            && (rev != RevHighAverage ==> t == s.(conv := t.conv) && t.conv.ctrl == s.conv.ctrl)
  {
    hide ShutdownDcdc, SyncRectMinDuty;
    MinDutyExactly(c.conv, s.conv);
    MinDutyExactly(c.conv, ReactReverse(c, s, rev).conv);
  }

  lemma LfExactly(s: Ctl, u: Ctl, a: nat, lf: LfIn)
    requires Armed(s, u, a)
    ensures var r := ProtectLf(u, lf);
            && (r.1 <==> lf == LfOk) && (r.1 ==> r.0 == u)
            && Armed(s, r.0, if lf == LfSupplyUv then Longer(a, DEFAULT_BACKOFF) else a)
  {
    hide ShutdownDcdc;
    ShutdownArms(s, u, a, DEFAULT_BACKOFF);
  }

  /** The protections of an iteration of a running converter let it go on exactly if none trips; then only the
      low side may have been lowered, or, after a high average reverse current, the converter is off. */
  lemma GuardExactly(c: Setup, s: Ctl, i: RtIn)
    requires ValidSetup(c) && ValidTrip(i.protect) && s.conv.ctrl > 0 && !InBackoff(s)
    ensures var g := Guard(c, s, i);
            && (g.1 <==> !Trips(i))
            && (g.1 && i.protect.rev != RevHighAverage ==> g.0 == s.(conv := g.0.conv) && g.0.conv.ctrl == s.conv.ctrl)
            && (g.1 && i.protect.rev == RevHighAverage ==> Off(g.0) && g.0.backoffUntil == s.now + DEFAULT_BACKOFF * SECOND)
            && (g.1 && (i.protect.rev == RevMinDuty || i.protect.lowCurrent) ==> g.0.conv.rect <= c.conv.rectMin)
  {
    hide Protect, ProtectLf, Off;
    ProtectExactly(c, s, i.protect);
    LfExactly(s, Protect(c, s, i.protect).0, ProtectLength(i.protect), i.lf);
  }

  lemma GuardArms(c: Setup, s: Ctl, i: RtIn)
    requires ValidSetup(c) && ValidTrip(i.protect) && s.conv.ctrl > 0 && !InBackoff(s)
    ensures exists a :: a in {0, DEFAULT_BACKOFF, LONG_BACKOFF} && (a == LONG_BACKOFF <==> LongTrip(i))
                        && Armed(s, Guard(c, s, i).0, a)
  {
    hide Protect, ProtectLf, Armed;
    ProtectExactly(c, s, i.protect);
    var a := ProtectLength(i.protect);
    LfExactly(s, Protect(c, s, i.protect).0, a, i.lf);
    assert Armed(s, Guard(c, s, i).0, if i.lf == LfSupplyUv then Longer(a, DEFAULT_BACKOFF) else a);
  }

  /** Any trip ends with both switches off, no sweep, a backoff of 5 s, or 30 s if the protection asks for it,
      and no automatic start for 4 s. */
  lemma TripStops(c: Setup, s: Ctl, i: RtIn)
    requires ValidSetup(c) && Safe(c, s) && ValidEvent(RtNewData(i)) && s.conv.ctrl > 0 && !s.calibrating && Trips(i)
    ensures var t := NewData(c, s, i);
            && Off(t) && !t.sweeping && t.delayStart == s.now + 4 * SECOND
            && t.backoffUntil == s.now + (if LongTrip(i) then LONG_BACKOFF else DEFAULT_BACKOFF) * SECOND
  {
    hide Guard, Perturb, Kept, Update, UpdateManual, StopAndBackoff, Armed;
    GuardExactly(c, s, i);
    GuardArms(c, s, i);
    var g := Guard(c, s, i).0;
    var a :| a in {0, DEFAULT_BACKOFF, LONG_BACKOFF} && (a == LONG_BACKOFF <==> LongTrip(i)) && Armed(s, g, a);
    StopExactly(g, 4);
    ArmedMeans(s, g, a);
  }

  lemma ArmedMeans(s: Ctl, u: Ctl, a: nat)
    requires Armed(s, u, a)
    ensures u.now == s.now
    ensures a == 0 ==> !InBackoff(u)
    ensures a > 0 ==> InBackoff(u) && u.backoffArmed == a && u.backoffUntil == s.now + a * SECOND
  {
  }

  /** An automatic iteration without a trip is one update() on a new sample, and nothing without one, on a state
      in which at most the rectifier has been adjusted. */
  lemma AutomaticIteration(c: Setup, s: Ctl, i: RtIn)
    requires ValidSetup(c) && Safe(c, s) && ValidEvent(RtNewData(i)) && !s.manualPwm && !s.calibrating
    requires s.conv.ctrl > 0 && !Trips(i) && i.protect.rev != RevHighAverage
    ensures exists conv :: Adjusted(s.conv, conv)
                           && NewData(c, s, i) == if i.newSample then Update(c, s.(conv := conv), i.tick) else s.(conv := conv)
  {
    hide Guard, Update, Kept, Perturb, UpdateManual;
    GuardExactly(c, s, i);
    var g := Guard(c, s, i).0;
    UpdateKeepsMode(c, g, i.tick);
    assert Adjusted(s.conv, g.conv) && g == s.(conv := g.conv);
  }

  predicate Adjusted(a: Conv, b: Conv) { b.ctrl == a.ctrl }

  // ---- controller outputs --------------------------------------------------------------------

  /** Among the first n outputs there is one that is no number. */
  ghost predicate NotFinite(cvs: seq<Float>, n: nat) { exists k :: 0 <= k < n <= |cvs| && !cvs[k].Num? }

  /** An output that is no number stops a converter above one percent duty, and no other. */
  lemma {:induction false} ScanStopsExactly(c: Setup, s: Ctl, cvs: seq<Float>, n: nat)
    requires n <= |cvs| && !InBackoff(s) && s.conv.ctrl > 0
    ensures var t := ScanTo(c, s, cvs, n).s;
            if 100 * s.conv.ctrl > c.conv.ctrlMax && NotFinite(cvs, n)
            then Off(t) && !t.sweeping && t.backoffUntil == s.now + DEFAULT_BACKOFF * SECOND && t.now == s.now
            else t == s
  {
    hide ShutdownDcdc, Off;
    if n > 0 {
      ScanStopsExactly(c, s, cvs, n - 1);
      ShutdownExactly(s, DEFAULT_BACKOFF);
      NotFiniteNext(cvs, n);
      OffIsOff(ScanTo(c, s, cvs, n - 1).s);
    }
  }

  lemma OffIsOff(s: Ctl)
    ensures Off(s) ==> s.conv.ctrl == 0
  {
  }

  lemma NotFiniteNext(cvs: seq<Float>, n: nat)
    requires 0 < n <= |cvs|
    ensures NotFinite(cvs, n) <==> NotFinite(cvs, n - 1) || !cvs[n - 1].Num?
  {
    if NotFinite(cvs, n) {
      var k :| 0 <= k < n && !cvs[k].Num?;
      if k < n - 1 { assert NotFinite(cvs, n - 1); }
    }
    if NotFinite(cvs, n - 1) {
      var k :| 0 <= k < n - 1 && !cvs[k].Num?;
    }
    if !cvs[n - 1].Num? { assert 0 <= n - 1 < n; }
  }

  /** And the rest of the tick does not start it again. */
  lemma NotFiniteStops(c: Setup, s: Ctl, i: TickIn)
    requires Ready(c, s) && ValidTick(i) && Controls(s, i) && 100 * s.conv.ctrl > c.conv.ctrlMax && NotFinite(i.cvs, 5)
    ensures var t := Update(c, s, i);
            t.conv.ctrl == 0 && !t.sweeping && t.backoffUntil == s.now + DEFAULT_BACKOFF * SECOND && InBackoff(t)
  {
    hide ScanTo, Route, Finish, Decide, Update, NotFinite, Off, Kept;
    ScanStopsExactly(c, s, i.cvs, 5);
    OffIsOff(ScanTo(c, s, i.cvs, 5).s);
    ControlledUpdate(c, s, i);
    var p, lim := Decide(c, s, i), Lim(c, s, i);
    DecideSafe(c, s, i);
    RouteSafe(c, p, lim, i);
    StoppedVerdict(c, s, i);
    StoppedRoute(c, p, lim, i.power);
    FinishMoves(c, Route(c, p, lim, i.power), lim, i);
  }

  lemma StoppedVerdict(c: Setup, s: Ctl, i: TickIn)
    requires ValidTick(i)
    ensures var a, p := ScanTo(c, s, i.cvs, 5).s, Decide(c, s, i).s; p == a.(limiting := p.limiting)
  {
    hide ScanTo;
    ScanIndex(c, s, i.cvs, 5);
  }

  lemma StoppedRoute(c: Setup, p: Phase, lim: Float, power: Float)
    requires ValidSetup(c) && !p.s.sweeping
    ensures var r := Route(c, p, lim, power).s; r == p.s.(target := r.target)
  {
    hide SweepTick;
  }

  // ---- watchdogs -----------------------------------------------------------------------------

  /** The latency watchdog stops a converter that tracks, and nothing else. */
  lemma LatencyStops(c: Setup, s: Ctl)
    requires ValidSetup(c)
    ensures var t := Apply(c, s, LatencyWatchdog);
            if s.conv.ctrl > 0 && !s.manualPwm then Off(t) && !t.sweeping && InBackoff(t) && t.delayStart == s.now + 4 * SECOND
            else t == s
  {
    hide StopAndBackoff, NewData;
    StopExactly(s, 4);
  }

  /** The watchdog of a stuck tracker lets it start at once: no backoff, no limit, no voltage control and no
      target left; duty and sweep are as they were. */
  lemma StuckReleases(c: Setup, s: Ctl)
    requires ValidSetup(c) && !s.manualPwm
    ensures var t := Apply(c, s, StuckWatchdog);
            && !InBackoff(t) && !t.limiting && t.mode != CV && t.target == 0
            && t.conv == s.conv && t.sweeping == s.sweeping && t.calibrating == s.calibrating && t.delayStart == s.delayStart
  {
    hide NewData;
  }

  /** A failed calibration and a firmware update over the air stop the converter, each with its delay. */
  lemma OthersStop(c: Setup, s: Ctl, ended: bool)
    requires ValidSetup(c)
    ensures var t := Apply(c, s, CalibrationFails(ended));
            Off(t) && !t.sweeping && InBackoff(t) && t.delayStart == s.now + 4 * SECOND
            && t.calibrating == (s.calibrating && !ended)
    ensures var t := Apply(c, s, Quiesce); Off(t) && !t.sweeping && InBackoff(t) && t.delayStart == s.now + 10 * SECOND
    ensures Off(Apply(c, s, NeverSampled))
  {
    hide NewData, StopAndBackoff;
    StopExactly(s.(calibrating := s.calibrating && !ended), 4);
    StopExactly(s, 10);
    StopKeepsCalibrating(s.(calibrating := s.calibrating && !ended), 4);
  }

  lemma StopKeepsCalibrating(s: Ctl, delay: nat)
    ensures StopAndBackoff(s, delay).calibrating == s.calibrating
  {
  }

  /** A converter whose ADC has delivered nothing for more than 800 ms is stopped, exactly: the stall counts
      from the first poll that finds it, in whole milliseconds, and a good poll forgets it. */
  lemma StallStopsExactly(c: Setup, s: Ctl, us: nat)
    requires ValidSetup(c) && s.stalledMs == 0 && s.now >= 1000 && s.conv.ctrl > 0 && !InBackoff(s)
    ensures var t := Reach(c, s, [AdcUpdate(true), Advance(us), AdcUpdate(true)]);
            if (s.now + us) / 1000 - s.now / 1000 > 800 then Off(t) && InBackoff(t) && t.delayStart == t.now + 16 * SECOND
            else t.conv == s.conv
    ensures Apply(c, s, AdcUpdate(false)) == s
    ensures Apply(c, Apply(c, s, AdcUpdate(true)), AdcUpdate(false)) == s
  {
    hide StopAndBackoff, NewData;
    var s1 := Apply(c, s, AdcUpdate(true));
    assert s1 == s.(stalledMs := s.now / 1000);
    var s2 := Apply(c, s1, Advance(us));
    StopExactly(s2, 16);
    ReachThree(c, s, AdcUpdate(true), Advance(us), AdcUpdate(true));
    hide Reach;
  }

  lemma ReachThree(c: Setup, s: Ctl, a: Event, b: Event, d: Event)
    requires ValidSetup(c) && ValidEvent(a) && ValidEvent(b) && ValidEvent(d)
    ensures Reach(c, s, [a, b, d]) == Apply(c, Apply(c, Apply(c, s, a), b), d)
  {
    hide Apply;
    var s1 := Apply(c, s, a);
    var s2 := Apply(c, s1, b);
    assert [a, b, d][1..] == [b, d] && [b, d][1..] == [d] && [d][1..] == [];
    assert Reach(c, Apply(c, s2, d), []) == Apply(c, s2, d);
    assert Reach(c, s2, [d]) == Apply(c, s2, d);
    assert Reach(c, s1, [b, d]) == Reach(c, s2, [d]);
  }

  // ---- starting ------------------------------------------------------------------------------

  /** While the sampler calibrates, every iteration finds the converter off. */
  lemma CalibrationHoldsOff(c: Setup, s: Ctl, i: RtIn)
    requires ValidSetup(c) && ValidEvent(RtNewData(i))
    ensures var t := Reach(c, s, [CalibrationStarts, RtNewData(i)]); Off(t) && t.calibrating && t.sweeping == s.sweeping
  {
    var s1 := Apply(c, s, CalibrationStarts);
    assert s1 == s.(calibrating := true);
    assert [CalibrationStarts, RtNewData(i)][1..] == [RtNewData(i)] && [RtNewData(i)][1..] == [];
    assert Reach(c, s1, [RtNewData(i)]) == Reach(c, Apply(c, s1, RtNewData(i)), []);
    assert Reach(c, Apply(c, s1, RtNewData(i)), []) == Apply(c, s1, RtNewData(i));
    hide ControlBranch;
  }

  /** A sweep as it starts: from rest, after a calibration, with nothing left of an earlier one. */
  predicate FreshSweep(s: Ctl) {
    Off(s) && s.sweeping && s.calibrating && !s.limiting && s.target == 0 && s.peak == NO_PEAK
  }

  lemma StartIsFresh(s: Ctl)
    ensures var t := StartSweep(s); FreshSweep(t) && t.now == s.now && t.manualPwm == s.manualPwm && t.bootTarget == s.bootTarget
  {
  }

  /** An idle converter starts a sweep at an iteration exactly if its delay and its backoff are over, it has the
      voltages and temperatures to start, and the battery data allow it; the next one is 4 s away. */
  lemma StartsExactly(c: Setup, s: Ctl, i: RtIn)
    requires ValidSetup(c) && ValidEvent(RtNewData(i))
    requires !s.sweeping && !s.calibrating && s.conv.ctrl == 0 && !s.manualPwm
    ensures var t := NewData(c, s, i);
            if s.now > s.delayStart && s.now >= s.backoffUntil && i.tick.startOk && i.sweepAllowed
            then FreshSweep(t) && t.delayStart == s.now + 4 * SECOND
            else t == s
  {
    hide ControlBranch, StartSweep;
    StartIsFresh(s);
  }

  /** `sweep` starts one at once, out of manual mode and backoff. */
  lemma SweepCommandStarts(c: Setup, s: Ctl)
    requires ValidSetup(c)
    ensures var t := Apply(c, s, SweepCmd);
            FreshSweep(t) && !t.manualPwm && t.bootTarget == 0 && !InBackoff(t)
            && t.conv.manual == if s.manualPwm then -1 else s.conv.manual
  {
    hide NewData;
  }

  /** An automatic tick of a converter at rest does nothing until it may start. */
  lemma RestWaits(c: Setup, s: Ctl, i: TickIn)
    requires ValidSetup(c) && ValidTick(i) && s.bootTarget == 0 && s.conv.ctrl == 0
    requires s.now < s.backoffUntil || !i.startOk || s.calibrating
    ensures Update(c, s, i) == s.(mode := ModeNone)
  {
    hide Finish, Route, Decide, ScanTo;
  }

  /** A running tracker starts over with a sweep exactly when one is due, unless the battery is full, the output
      voltage limits, or a sweep is on. */
  lemma ResweepsExactly(c: Setup, s: Ctl, i: TickIn)
    requires Ready(c, s) && ValidTick(i) && s.conv.ctrl > 0
    ensures i.resweepDue && !i.batteryFull && s.mode != CV && !s.sweeping ==> FreshSweep(Update(c, s, i))
    ensures !(i.resweepDue && !i.batteryFull && s.mode != CV) && !s.sweeping ==> !Update(c, s, i).sweeping
  {
    hide Kept, StartSweep;
    StartIsFresh(s);
    if !s.sweeping && !ResweepDue(s, i) { NoNewSweep(c, s, i); }
    hide Finish, Route, Decide, ScanTo;
  }

  lemma NoNewSweep(c: Setup, s: Ctl, i: TickIn)
    requires Ready(c, s) && ValidTick(i) && s.conv.ctrl > 0 && !s.sweeping && !ResweepDue(s, i)
    ensures !Update(c, s, i).sweeping
  {
    hide Kept, Finish, Route, ScanTo;
    ScanSafe(c, s, i.cvs, 5);
    ScanIndex(c, s, i.cvs, 5);
    var p, lim := Decide(c, s, i), Lim(c, s, i);
    RouteStartsNone(c, p, lim, i);
  }

  lemma RouteStartsNone(c: Setup, p: Phase, lim: Float, i: TickIn)
    requires ValidSetup(c) && !p.s.sweeping
    ensures !Finish(c, Route(c, p, lim, i.power), lim, i).sweeping
  {
    hide SweepTick, PerturbFractional, EnableSyncRect, InRange, Request;
  }

  // ---- starting from rest --------------------------------------------------------------------

  /** After any stop sync rectification is off, so the first step brings the low side no further than its
      minimum, until a tick finds current and switches it on. */
  lemma RestartsLow(c: Config, s: Conv, d: int)
    requires ValidConfig(c) && s.manual < 0 && !s.sync
    ensures Perturb(c, s, d).rect == c.rectMin && !Perturb(c, s, d).sync
  {
    hide Limit;
  }
}
