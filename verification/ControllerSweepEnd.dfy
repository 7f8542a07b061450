/** A sweep comes to an end: its ticks raise the duty by a known amount, so under controllers that allow it the
    duty reaches its maximum, where the sweep stops; and what it commits is then reached. */
module ControllerSweepEnd {
  import opened Numbers
  import opened Converter
  import opened ConverterWindow
  import opened Controller
  import opened ControllerSafety
  import opened ControllerSweep
  import opened ControllerTick
  import ControllerFade

  /** A sweep under way on a running converter. */
  ghost predicate Climbs(c: Setup, s: Ctl) {
    Ready(c, s) && s.sweeping && s.conv.ctrl > 0 && 0 < s.lastUs == s.now
  }

  /** Control value of a sweep: the sweep speed, slower where a controller is near its limit. */
  function SpeedAt(c: Setup, lim: real): real { MinR(MinR(lim * (c.sweepSpeed * 0.05), c.sweepSpeed), lim) }

  /** A tick below full duty goes on with the sweep and raises the duty by counts worth that value. */
  lemma SweepTickExactly(c: Setup, s: Ctl, i: TickIn, lim: real)
    requires Ready(c, s) && ValidTick(i) && s.sweeping && 0 < s.conv.ctrl < c.conv.ctrlMax
    requires Lowest(i.cvs, lim) && lim >= 0.0 && 0 < s.lastUs <= s.now < 0x1_0000_0000_0000_0000
    ensures var t := Update(c, s, i);
            && Moves(c.conv, s.conv, t.conv, Asked(c, s.conv.ctrl, SpeedAt(c, lim), s.now - s.lastUs))
            && t == s.(conv := t.conv, lastUs := s.now, mode := Sweep, peak := Capture(s, i.power).peak)
  {
    hide Route, Decide, StepAndSync, Moves, Asked, Kept, Lowest, ScanTo, UpdateCv;
    ScanLowest(c, s, i.cvs, lim);
    ControllerFade.Verdict(c, s, i, lim);
    var p := Decide(c, s, i);
    assert p.s == s;
    SweepRoute(c, s, p, lim, i.power);
    var r := Route(c, p, Num(lim), i.power);
    StepExactly(c, r.s.(mode := r.mode), SpeedAt(c, lim), i.syncOn);
  }

  lemma SweepRoute(c: Setup, s: Ctl, p: Phase, lim: real, power: Float)
    requires ValidSetup(c) && SweepRuns(s) && s.conv.ctrl > 0 && p.s == s && p.mode == ModeNone && lim >= 0.0
    ensures var r := Route(c, p, Num(lim), power);
            && r.mode == Sweep && MinF(r.value, Num(lim)) == Num(SpeedAt(c, lim))
            && r.s == s.(peak := Capture(s, power).peak)
  {
    hide FadeTick;
  }

  /** At full duty the sweep stops. */
  lemma TopTickStops(c: Setup, s: Ctl, i: TickIn, lim: real)
    requires Ready(c, s) && ValidTick(i) && s.sweeping && s.conv.ctrl == c.conv.ctrlMax
    requires Lowest(i.cvs, lim) && lim >= 0.0
    ensures !Update(c, s, i).sweeping
  {
    ScanLowest(c, s, i.cvs, lim);
    ControllerFade.Verdict(c, s, i, lim);
    var p := Decide(c, s, i);
    hide Decide, ScanTo, Lowest, Kept;
    TopRoute(c, s, p, Num(lim), i);
    hide Route, Finish, UpdateCv;
  }

  lemma TopRoute(c: Setup, s: Ctl, p: Phase, lim: Float, i: TickIn)
    requires ValidSetup(c) && SweepRuns(s) && s.conv.ctrl > 0 && p.s == s && p.mode == CV
    ensures !Finish(c, Route(c, p, lim, i.power), lim, i).sweeping
  {
    hide PerturbFractional, EnableSyncRect, InRange, Request, FadeTick;
  }

  // ---- the end -------------------------------------------------------------------------------

  /** What a tick of a sweep is worth if a control value of one is worth `least`. */
  function Way(c: Setup, least: real): real { MinR(0.05 * c.sweepSpeed, 1.0) * least }

  /** Duty and carried fraction still to go, and one count. */
  function Left(c: Setup, s: Ctl): real { c.conv.ctrlMax as real - s.conv.ctrl as real - s.conv.frac + 1.0 }

  ghost predicate Stops(c: Setup, s: Ctl, ts: seq<ControllerFade.Tick>)
    requires ValidSetup(c) && ControllerFade.AllValid(ts)
    decreases |ts|
  {
    ts != [] && var u := ControllerFade.TickAfter(c, s, ts[0]); !u.sweeping || Stops(c, u, ts[1..])
  }

  lemma SpeedAtLeast(c: Setup, lim: real)
    requires ValidSetup(c) && lim >= 1.0
    ensures SpeedAt(c, lim) >= MinR(0.05 * c.sweepSpeed, 1.0) > 0.0
  {
    assert (lim - 1.0) * (c.sweepSpeed * 0.05) >= 0.0;
  }

  lemma WayPositive(c: Setup, least: real)
    requires ValidSetup(c) && least > 0.0
    ensures 0.0 < Way(c, least) <= least
  {
    var low := MinR(0.05 * c.sweepSpeed, 1.0);
    Product(low, least);
    assert (1.0 - low) * least >= 0.0;
  }

  lemma Product(x: real, y: real)
    requires x > 0.0 && y > 0.0
    ensures x * y > 0.0
  {
  }

  lemma Starts(c: Setup, s: Ctl, t: ControllerFade.Tick, least: real) returns (lim: real)
    requires Climbs(c, s) && ControllerFade.Undisturbed(c, t, least) && s.now + t.dt < 0x1_0000_0000_0000_0000
    ensures var s1 := s.(now := s.now + t.dt);
            && Ready(c, s1) && s1.sweeping && s1.conv.ctrl > 0 && 0 < s1.lastUs && s1.now - s1.lastUs == t.dt > 0
            && ValidTick(t.i) && Lowest(t.i.cvs, lim) && lim >= 1.0
            && 0.0 < least <= Rate(c, t.dt) && least <= MostUp(c)
  {
    hide Safe, Lowest;
    lim := ControllerFade.LowestOf(t.i.cvs);
    ControllerFade.LaterSafe(c, s, t.dt);
  }

  /** One tick: the sweep is over, or it is at full duty, or nearer to it. */
  lemma SweepStep(c: Setup, s: Ctl, t: ControllerFade.Tick, least: real)
    requires Climbs(c, s) && ControllerFade.Undisturbed(c, t, least) && s.now + t.dt < 0x1_0000_0000_0000_0000
    ensures var u := ControllerFade.TickAfter(c, s, t);
            && u.now == s.now + t.dt
            && (if s.conv.ctrl == c.conv.ctrlMax then !u.sweeping
                else Climbs(c, u) && (u.conv.ctrl == c.conv.ctrlMax || Left(c, u) <= Left(c, s) - Way(c, least)))
  {
    hide Update, Lowest, Left, Safe, Moves, Asked, SpeedAt, Way, ControllerFade.Undisturbed, Rate, MostUp;
    var lim := Starts(c, s, t, least);
    var s1 := s.(now := s.now + t.dt);
    UpdateKeepsMode(c, s1, t.i);
    ControllerFade.SafeDuty(c, s);
    if s.conv.ctrl == c.conv.ctrlMax { TopTickStops(c, s1, t.i, lim); } else {
      UpdateSafe(c, s1, t.i);
      SweepTickExactly(c, s1, t.i, lim);
      RaisedBy(c, s1, Update(c, s1, t.i), lim, t.dt, least);
      LeftAtAnyTime(c, s, s1.now);
    }
  }

  lemma LeftAtAnyTime(c: Setup, s: Ctl, now: nat)
    ensures Left(c, s.(now := now)) == Left(c, s)
  {
  }

  lemma RaisedBy(c: Setup, s: Ctl, u: Ctl, lim: real, dt: nat, least: real)
    requires ValidSetup(c) && Duty(c.conv, s.conv) && 0 < s.conv.ctrl < c.conv.ctrlMax && lim >= 1.0
    requires Moves(c.conv, s.conv, u.conv, Asked(c, s.conv.ctrl, SpeedAt(c, lim), dt))
    requires 0.0 < least <= Rate(c, dt) && least <= MostUp(c)
    ensures u.conv.ctrl >= s.conv.ctrl
    ensures u.conv.ctrl == c.conv.ctrlMax || Left(c, u) <= Left(c, s) - Way(c, least)
  {
    hide Asked, Rate, MostUp, SpeedAt, Way;
    WayPositive(c, least);
    AskedFor(c, s.conv.ctrl, lim, dt, least);
  }

  lemma AskedFor(c: Setup, ctrl: nat, lim: real, dt: nat, least: real)
    requires ValidSetup(c) && lim >= 1.0 && 0.0 < least <= Rate(c, dt) && least <= MostUp(c)
    ensures Asked(c, ctrl, SpeedAt(c, lim), dt) >= Way(c, least)
  {
    hide Rate, MostUp, SpeedAt;
    SpeedAtLeast(c, lim);
    WayPositive(c, least);
    var v, g, low := SpeedAt(c, lim), Rate(c, dt), MinR(0.05 * c.sweepSpeed, 1.0);
    Products(v, g, low, least);
    assert Worth(c, v, dt) == v * g && Way(c, least) == low * least;
    hide Worth, Way;
  }

  lemma Products(v: real, g: real, low: real, least: real)
    requires v >= low > 0.0 && g >= least > 0.0
    ensures v * g >= low * least
  {
    assert (v - low) * g >= 0.0;
    assert low * (g - least) >= 0.0;
  }

  /** A sweep that no controller limits is over after a bounded number of ticks. */
  lemma {:induction false} SweepIsOver(c: Setup, s: Ctl, ts: seq<ControllerFade.Tick>, least: real)
    requires Climbs(c, s) && s.now + ControllerFade.Duration(ts) < 0x1_0000_0000_0000_0000
    requires ControllerFade.AllUndisturbed(c, ts, least) && least > 0.0
    requires (|ts| - 1) as real * Way(c, least) > Left(c, s)
    ensures ValidSetup(c) && ControllerFade.AllValid(ts) && Stops(c, s, ts)
    decreases |ts|
  {
    hide ControllerFade.TickAfter, ControllerFade.Undisturbed, Climbs, Left, Way;
    var way := Way(c, least);
    ClimbsIsValid(c, s);
    ControllerFade.UndisturbedIsValid(c, ts, least);
    WayPositive(c, least);
    TwoTicks(|ts|, way, Left(c, s));
    var u := ControllerFade.TickAfter(c, s, ts[0]);
    SweepStep(c, s, ts[0], least);
    if u.sweeping {
      if u.conv.ctrl == c.conv.ctrlMax { SweepStep(c, u, ts[1], least); } else {
        ControllerFade.OneLess(|ts| - 1, way);
        SweepIsOver(c, u, ts[1..], least);
      }
    }
  }

  lemma ClimbsIsValid(c: Setup, s: Ctl)
    requires Climbs(c, s)
    ensures ValidSetup(c) && Left(c, s) > 0.0
  {
  }

  lemma TwoTicks(n: nat, way: real, left: real)
    requires left > 0.0 && way > 0.0 && (n - 1) as real * way > left
    ensures n >= 2
  {
    FewSteps(n, way);
  }

  lemma FewSteps(n: nat, way: real)
    requires way > 0.0
    ensures n <= 1 ==> (n - 1) as real * way <= 0.0
  {
    if n == 0 { assert (n - 1) as real * way == -way; }
  }

  /** From the sweep to its maximum: a sweep commits the first point of maximal eligible power, and undisturbed
      ticks after the stop bring the duty within a count of it. */
  lemma SweepThenFade(
    c: Setup, s: Ctl, ts: seq<ControllerSweep.Tick>, t: ControllerSweep.Tick, fs: seq<ControllerFade.Tick>, least: real, up: bool)
    requires InSweep(c, s) && s.peak == NO_PEAK && (forall x :: x in ts ==> ValidRt(x)) && ValidRt(t)
    requires KeepsSweeping(c, s, ts)
    requires !Iterate(c, SweepTo(c, s, ts), t).sweeping && StopsByControl(c, SweepTo(c, s, ts), t)
    requires var u := Iterate(c, SweepTo(c, s, ts), t);
             && u.target != 0 && ControllerFade.Follows(c, u) && ControllerFade.Ahead(u, up)
             && u.now + ControllerFade.Duration(fs) < 0x1_0000_0000_0000_0000
             && |fs| as real * least > ControllerFade.Rest(u, up)
    requires ControllerFade.AllUndisturbed(c, fs, least) && least > 0.0
    ensures ControllerFade.AllValid(fs)
    ensures var u, pts := Iterate(c, SweepTo(c, s, ts), t), AllPoints(c, s, ts);
            exists k :: 0 <= k < |pts| && FirstMaximum(SweepTo(c, s, ts).peak, pts, k)
                        && ControllerFade.Arrives(c, u, fs, pts[k].duty)
  {
    hide InSweep, Iterate, SweepTo, AllPoints, FirstMaximum, NoMaximum, ControllerFade.Arrives, ControllerFade.Follows,
      KeepsSweeping, StopsByControl;
    InSweepIsReady(c, s);
    SweepCommitsArgmax(c, s, ts, t);
    ControllerFade.FadeArrives(c, Iterate(c, SweepTo(c, s, ts), t), fs, least, up);
  }
}
