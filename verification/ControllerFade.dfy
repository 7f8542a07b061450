/** The fade to a duty target, as a sweep commits one: a tick never leads away from the target nor past it,
    and enough undisturbed ticks bring the duty within a count of it. */
module ControllerFade {
  import opened Numbers
  import opened Converter
  import opened ConverterWindow
  import opened Controller
  import opened ControllerSafety
  import opened ControllerSweep
  import opened ControllerTick

  /** A tick that follows the target: running, past the gates of update(), and no controller limiting. */
  ghost predicate Fading(c: Setup, s: Ctl, i: TickIn, lim: real) {
    && ValidSetup(c) && Safe(c, s) && ValidTick(i)
    && !s.sweeping && !s.calibrating && s.bootTarget == 0 && !i.resweepDue
    && Lowest(i.cvs, lim) && lim >= 0.0
    && 0 < s.target <= c.conv.ctrlMax && s.conv.ctrl > 0
    && 0 < s.lastUs <= s.now < 0x1_0000_0000_0000_0000
  }

  function Gap(s: Ctl): int { s.target - s.conv.ctrl }

  function Distance(s: Ctl): nat { if Gap(s) < 0 then -Gap(s) else Gap(s) }

  /** Control value of the fade: the gap, at most a 64th of the period down and a 128th up, a count more
      each. */
  function FadeValue(c: Setup, s: Ctl): int {
    if Gap(s) < -(c.conv.pwmMax / 64) - 1 then -(c.conv.pwmMax / 64) - 1
    else if Gap(s) > c.conv.pwmMax / 128 + 1 then c.conv.pwmMax / 128 + 1
    else Gap(s)
  }

  /** The target counts as reached. */
  predicate Near(c: Setup, s: Ctl) { -1 <= FadeValue(c, s) <= 1 }

  /** That is within a count of it, if a period has 128 counts or more. */
  lemma NearExactly(c: Setup, s: Ctl)
    ensures Distance(s) <= 1 ==> Near(c, s)
    ensures c.conv.pwmMax >= 128 ==> (Near(c, s) <==> Distance(s) <= 1)
  {
  }

  /** At the ends of the duty range the bounce takes over, unless the target lies below full duty. */
  predicate Bounces(c: Setup, s: Ctl) {
    s.conv.ctrl == CTRL_MIN || (s.conv.ctrl == c.conv.ctrlMax && s.target == c.conv.ctrlMax)
  }

  /** The control value of such a tick. */
  function TickValue(c: Setup, s: Ctl): int {
    if s.conv.ctrl == c.conv.ctrlMax && Bounces(c, s) then -1
    else if s.conv.ctrl == CTRL_MIN then 1
    else FadeValue(c, s)
  }

  /** The tick, exactly: counts worth the value are asked for, up no more than the controllers allow; the
      target is dropped once it is reached, or where the duty bounces. */
  lemma FadingTick(c: Setup, s: Ctl, i: TickIn, lim: real)
    requires Fading(c, s, i, lim)
    ensures var t := Update(c, s, i);
            && Moves(c.conv, s.conv, t.conv, Asked(c, s.conv.ctrl, MinR(TickValue(c, s) as real, lim), s.now - s.lastUs))
            && t.target == (if Bounces(c, s) || Near(c, s) then 0 else s.target)
            && t == s.(conv := t.conv, lastUs := s.now, limiting := false, mode := t.mode, target := t.target)
  {
    hide Route, Decide, StepAndSync, Moves, Asked, TickValue, Kept, Bounces, Near, Lowest, ScanTo, UpdateCv;
    ScanLowest(c, s, i.cvs, lim);
    Verdict(c, s, i, lim);
    var p := Decide(c, s, i);
    FadeRoute(c, s, p, Num(lim), i.power);
    var r := Route(c, p, Num(lim), i.power);
    StepExactly(c, r.s.(mode := r.mode), MinR(TickValue(c, s) as real, lim), i.syncOn);
  }

  /** No controller limits: the verdict is none, or the end of a limitation, unless the duty bounces. */
  lemma Verdict(c: Setup, s: Ctl, i: TickIn, lim: real)
    requires ValidTick(i) && Lowest(i.cvs, lim) && lim >= 0.0
    ensures var p := Decide(c, s, i);
            && p.s == s.(limiting := false)
            && (if s.conv.ctrl == c.conv.ctrlMax then p.mode == CV && p.value == Num(-1.0)
                else if s.conv.ctrl == CTRL_MIN && !s.sweeping then p.mode == CV && p.value == Num(1.0)
                else p.mode == (if s.limiting then MPPT else ModeNone))
  {
    ScanLowest(c, s, i.cvs, lim);
    ScanIndex(c, s, i.cvs, 5);
    hide ScanTo, Lowest;
  }

  lemma FadeRoute(c: Setup, s: Ctl, p: Phase, lim: Float, power: Float)
    requires ValidSetup(c) && !s.sweeping && s.target != 0 && p.s == s.(limiting := false)
    requires s.target <= c.conv.ctrlMax
    requires if s.conv.ctrl == c.conv.ctrlMax then p.mode == CV && p.value == Num(-1.0)
             else if s.conv.ctrl == CTRL_MIN && !s.sweeping then p.mode == CV && p.value == Num(1.0)
             else p.mode == (if s.limiting then MPPT else ModeNone)
    ensures var r := Route(c, p, lim, power);
            && r.mode in {CV, Sweep} && r.value == Num(TickValue(c, s) as real)
            && r.s == s.(limiting := false, target := if Bounces(c, s) || Near(c, s) then 0 else s.target)
  {
    hide SweepTick;
  }

  // ---- where it leads ------------------------------------------------------------------------

  /** A control value of one is worth at most a count: the ticks come at least every 40 s / pwmCtrlMax. */
  predicate Prompt(c: Setup, dt: nat) { c.conv.ctrlMax * dt <= 40000000 }

  /** A tick that does not bounce never leads away from the target, nor past it. */
  lemma FadeNeverOvershoots(c: Setup, s: Ctl, i: TickIn, lim: real)
    requires Fading(c, s, i, lim) && !Bounces(c, s) && Prompt(c, s.now - s.lastUs)
    ensures var t := Update(c, s, i);
            && Distance(t.(target := s.target)) <= Distance(s)
            && (s.conv.ctrl <= s.target ==> s.conv.ctrl <= t.conv.ctrl <= s.target)
            && (s.conv.ctrl >= s.target ==> s.target <= t.conv.ctrl <= s.conv.ctrl)
  {
    hide Update, Moves, Asked, Bounces;
    FadingTick(c, s, i, lim);
    var t := Update(c, s, i);
    var dt := s.now - s.lastUs;
    var v := MinR(FadeValue(c, s) as real, lim);
    SafeDuty(c, s);
    NotBouncing(c, s);
    AskedWithin(c, s.conv.ctrl, v, dt);
    MoveWithin(c.conv, s.conv, t.conv, Asked(c, s.conv.ctrl, v, dt), Gap(s));
  }

  /** Whatever the time between ticks: the duty passes the target exactly if what is asked for and the carried
      fraction together go a whole count beyond it, and there is room. */
  lemma OvershootsExactly(c: Setup, s: Ctl, i: TickIn, lim: real)
    requires Fading(c, s, i, lim) && !Bounces(c, s) && Gap(s) != 0
    ensures var t := Update(c, s, i);
            var q := Asked(c, s.conv.ctrl, MinR(FadeValue(c, s) as real, lim), s.now - s.lastUs) + s.conv.frac;
            if Gap(s) > 0 then t.conv.ctrl > s.target <==> q >= (Gap(s) + 1) as real && s.target < c.conv.ctrlMax
            else t.conv.ctrl < s.target <==> q <= (Gap(s) - 1) as real && s.target > 1
  {
    hide Update, Asked, Bounces, FadeValue;
    FadingTick(c, s, i, lim);
    SafeDuty(c, s);
    NotBouncing(c, s);
  }

  lemma SafeDuty(c: Setup, s: Ctl)
    requires Safe(c, s)
    ensures Duty(c.conv, s.conv)
  {
  }

  lemma NotBouncing(c: Setup, s: Ctl)
    requires !Bounces(c, s)
    ensures TickValue(c, s) == FadeValue(c, s) && s.conv.ctrl != CTRL_MIN
    ensures Gap(s) >= 0 ==> 0 <= FadeValue(c, s) <= Gap(s)
    ensures Gap(s) <= 0 ==> Gap(s) <= FadeValue(c, s) <= 0
  {
  }

  lemma RateAtMostOne(c: Setup, dt: nat)
    requires Prompt(c, dt)
    ensures 0.0 <= Rate(c, dt) <= 1.0
  {
    var n := c.conv.ctrlMax;
    assert n as real * (dt as real / 40000000.0) == (n * dt) as real / 40000000.0;
  }

  /** Then it asks for no more than its value. */
  lemma AskedWithin(c: Setup, ctrl: nat, v: real, dt: nat)
    requires ValidSetup(c) && Prompt(c, dt)
    ensures v >= 0.0 ==> 0.0 <= Asked(c, ctrl, v, dt) <= v
    ensures v <= 0.0 ==> v <= Asked(c, ctrl, v, dt) <= 0.0
  {
    hide Rate, MostUp, Worth;
    RateAtMostOne(c, dt);
    WorthWithin(c, v, dt);
    MostUpPositive(c);
  }

  lemma WorthWithin(c: Setup, v: real, dt: nat)
    requires 0.0 <= Rate(c, dt) <= 1.0
    ensures v >= 0.0 ==> 0.0 <= Worth(c, v, dt) <= v
    ensures v <= 0.0 ==> v <= Worth(c, v, dt) <= 0.0
  {
    hide Rate;
    var g := Rate(c, dt);
    PartOf(v, g);
    assert Worth(c, v, dt) == v * g;
  }

  lemma PartOf(v: real, g: real)
    requires 0.0 <= g <= 1.0
    ensures v >= 0.0 ==> 0.0 <= v * g <= v
    ensures v <= 0.0 ==> v <= v * g <= 0.0
  {
    if v >= 0.0 { PartOfPositive(v, g); } else {
      PartOfPositive(-v, g);
      assert v * g == -(-v * g);
    }
  }

  lemma PartOfPositive(v: real, g: real)
    requires 0.0 <= g <= 1.0 && v >= 0.0
    ensures 0.0 <= v * g <= v
  {
    assert v * (1.0 - g) >= 0.0 && v * g >= 0.0;
  }

  lemma MostUpPositive(c: Setup)
    requires ValidSetup(c)
    ensures MostUp(c) > 0.0
  {
  }

  lemma MoveWithin(c: Config, a: Conv, b: Conv, q: real, gap: int)
    requires Duty(c, a) && Moves(c, a, b, q) && a.ctrl >= 1 && 1 <= a.ctrl + gap <= c.ctrlMax
    requires if gap >= 0 then 0.0 <= q <= gap as real else gap as real <= q <= 0.0
    ensures if gap >= 0 then a.ctrl <= b.ctrl <= a.ctrl + gap else a.ctrl + gap <= b.ctrl <= a.ctrl
    ensures b.ctrl as real + b.frac == a.ctrl as real + a.frac + q
  {
    var k := Trunc(q + a.frac);
    assert if gap >= 0 then 0 <= k <= gap else gap <= k <= 0;
  }

  // ---- arrival -------------------------------------------------------------------------------

  /** Time passes and update() is called. */
  datatype Tick = Tick(dt: nat, i: TickIn)

  function TickAfter(c: Setup, s: Ctl, t: Tick): Ctl
    requires ValidSetup(c) && ValidTick(t.i)
  {
    Update(c, s.(now := s.now + t.dt), t.i)
  }

  ghost predicate AllValid(ts: seq<Tick>) { forall k :: 0 <= k < |ts| ==> ValidTick(ts[k].i) }

  /** At some tick the target is dropped with the duty within a count of it; until then it stands. */
  ghost predicate Arrives(c: Setup, s: Ctl, ts: seq<Tick>, target: nat)
    requires ValidSetup(c) && AllValid(ts)
    decreases |ts|
  {
    ts != []
    && var u := TickAfter(c, s, ts[0]);
       Arrived(u, target) || (u.target == target && Arrives(c, u, ts[1..], target))
  }

  /** Every controller would allow a count, no new sweep is due, and a control value of one is worth at least
      `least` counts and at most one. */
  ghost predicate Undisturbed(c: Setup, t: Tick, least: real) {
    && ValidTick(t.i) && !t.i.resweepDue && (forall k :: 0 <= k < 5 ==> t.i.cvs[k].Num? && t.i.cvs[k].r >= 1.0)
    && t.dt > 0 && Prompt(c, t.dt) && 0.0 < least <= Rate(c, t.dt) && least <= MostUp(c)
  }

  /** A running converter with a target that the fade can follow. */
  ghost predicate Follows(c: Setup, s: Ctl) {
    && ValidSetup(c) && Safe(c, s) && c.conv.pwmMax >= 128
    && !s.sweeping && !s.calibrating && s.bootTarget == 0
    && 0 < s.target <= c.conv.ctrlMax && s.conv.ctrl > 0 && (s.conv.ctrl > CTRL_MIN || s.target == CTRL_MIN)
    && 0 < s.lastUs == s.now
  }

  /** Arrived: the target is dropped with the duty within a count of it. */
  predicate Arrived(u: Ctl, target: nat) { u.target == 0 && -1 <= u.conv.ctrl - target <= 1 }

  /** What is left to go in the direction of the fade, and one count. */
  function Rest(s: Ctl, up: bool): real {
    if up then Gap(s) as real - s.conv.frac + 1.0 else -(Gap(s) as real) + s.conv.frac + 1.0
  }

  ghost predicate Ahead(s: Ctl, up: bool) { if up then Gap(s) >= 0 else Gap(s) <= 0 }

  lemma LowestOf(cvs: seq<Float>) returns (lim: real)
    requires |cvs| == 5 && forall k :: 0 <= k < 5 ==> cvs[k].Num? && cvs[k].r >= 1.0
    ensures Lowest(cvs, lim) && lim >= 1.0
  {
    lim := cvs[0].r;
    for n := 1 to 5
      invariant Num(lim) in cvs && forall k :: 0 <= k < n ==> cvs[k].r >= lim
    {
      if cvs[n].r < lim { lim := cvs[n].r; }
    }
  }

  /** One tick arrives or makes way. */
  lemma FadeStep(c: Setup, s: Ctl, t: Tick, least: real, up: bool)
    requires Follows(c, s) && Undisturbed(c, t, least) && Ahead(s, up)
    requires s.now + t.dt < 0x1_0000_0000_0000_0000
    ensures var u := TickAfter(c, s, t);
            && u.now == s.now + t.dt
            && (Arrived(u, s.target)
                || (u.target == s.target && Follows(c, u) && Ahead(u, up) && Rest(u, up) <= Rest(s, up) - least))
  {
    hide Follows, Undisturbed, Fading, Update, Bounces, Near, Rest, Ahead, Arrived;
    var lim := Starts(c, s, t, least);
    var s1 := s.(now := s.now + t.dt);
    RestAtAnyTime(s, s1.now, up);
    if Bounces(c, s1) || Near(c, s1) { NearStep(c, s1, t.i, lim); } else {
      FarStep(c, s1, t.i, lim, least, up);
      Continues(c, s1, t.i, lim);
    }
    FadingTick(c, s1, t.i, lim);
    hide Safe, Moves, Asked;
  }

  lemma Starts(c: Setup, s: Ctl, t: Tick, least: real) returns (lim: real)
    requires Follows(c, s) && Undisturbed(c, t, least) && s.now + t.dt < 0x1_0000_0000_0000_0000
    ensures var s1 := s.(now := s.now + t.dt);
            && Fading(c, s1, t.i, lim) && lim >= 1.0 && s1.now - s1.lastUs == t.dt && c.conv.pwmMax >= 128
            && Prompt(c, t.dt) && 0.0 < least <= Rate(c, t.dt) && least <= MostUp(c)
            && (s.conv.ctrl > CTRL_MIN || s.target == CTRL_MIN)
  {
    hide Safe, Lowest;
    lim := LowestOf(t.i.cvs);
    LaterSafe(c, s, t.dt);
  }

  lemma Continues(c: Setup, s: Ctl, i: TickIn, lim: real)
    requires Fading(c, s, i, lim) && !Bounces(c, s) && !Near(c, s) && c.conv.pwmMax >= 128
    requires var u := Update(c, s, i); u.conv.ctrl > 0 && (u.conv.ctrl > CTRL_MIN || s.target == CTRL_MIN)
    ensures Follows(c, Update(c, s, i))
  {
    hide Safe, Update, Moves, Asked, Lowest, Bounces, Near;
    FadingTick(c, s, i, lim);
    UpdateSafe(c, s, i);
  }

  lemma RestAtAnyTime(s: Ctl, now: nat, up: bool)
    ensures var s1 := s.(now := now); Rest(s1, up) == Rest(s, up) && Ahead(s1, up) == Ahead(s, up)
  {
  }

  lemma NearStep(c: Setup, s: Ctl, i: TickIn, lim: real)
    requires Fading(c, s, i, lim) && lim >= 1.0 && (Bounces(c, s) || Near(c, s)) && c.conv.pwmMax >= 128
    requires s.conv.ctrl > CTRL_MIN || s.target == CTRL_MIN
    requires Prompt(c, s.now - s.lastUs)
    ensures Arrived(Update(c, s, i), s.target)
  {
    hide Safe, Update, Moves, Asked, Lowest, FadeValue;
    FadingTick(c, s, i, lim);
    SafeDuty(c, s);
    NearExactly(c, s);
    AtTarget(c, s, lim);
    var v := MinR(TickValue(c, s) as real, lim);
    AskedWithin(c, s.conv.ctrl, v, s.now - s.lastUs);
    MoveOne(c.conv, s.conv, Update(c, s, i).conv, Asked(c, s.conv.ctrl, v, s.now - s.lastUs));
    if !Bounces(c, s) { FadeNeverOvershoots(c, s, i, lim); }
  }

  lemma FarStep(c: Setup, s: Ctl, i: TickIn, lim: real, least: real, up: bool)
    requires Fading(c, s, i, lim) && lim >= 1.0 && !Bounces(c, s) && !Near(c, s) && Ahead(s, up)
    requires var dt := s.now - s.lastUs; Prompt(c, dt) && 0.0 < least <= Rate(c, dt) && least <= MostUp(c)
    ensures var u := Update(c, s, i);
            && Ahead(u.(target := s.target), up) && Rest(u.(target := s.target), up) <= Rest(s, up) - least
            && u.conv.ctrl > 0 && (u.conv.ctrl > CTRL_MIN || s.target == CTRL_MIN)
  {
    hide Safe, Update, Moves, Asked, Lowest, FadeValue, Rate, MostUp, Prompt;
    FadingTick(c, s, i, lim);
    SafeDuty(c, s);
    NotBouncing(c, s);
    LongWay(c, s, lim);
    var v := MinR(TickValue(c, s) as real, lim);
    var q := Asked(c, s.conv.ctrl, v, s.now - s.lastUs);
    AskedWithin(c, s.conv.ctrl, v, s.now - s.lastUs);
    AskedAtLeast(c, s.conv.ctrl, v, s.now - s.lastUs, least);
    MoveWithin(c.conv, s.conv, Update(c, s, i).conv, q, Gap(s));
  }

  lemma LaterSafe(c: Setup, s: Ctl, us: nat)
    requires Safe(c, s)
    ensures Safe(c, s.(now := s.now + us))
  {
    hide Kept;
  }

  /** Where the target is reached or the duty bounces, the value is at most a count. */
  lemma AtTarget(c: Setup, s: Ctl, lim: real)
    requires ValidSetup(c) && lim >= 1.0 && (Bounces(c, s) || Near(c, s))
    ensures -1.0 <= MinR(TickValue(c, s) as real, lim) <= 1.0
  {
  }

  lemma LongWay(c: Setup, s: Ctl, lim: real)
    requires lim >= 1.0 && !Near(c, s) && !Bounces(c, s)
    ensures var v := MinR(TickValue(c, s) as real, lim); if Gap(s) > 0 then v >= 1.0 else Gap(s) < 0 && v <= -1.0
  {
  }

  lemma MoveOne(c: Config, a: Conv, b: Conv, q: real)
    requires Duty(c, a) && Moves(c, a, b, q) && a.ctrl >= 1 && -1.0 <= q <= 1.0
    ensures -1 <= b.ctrl - a.ctrl <= 1
  {
  }

  /** A value of at least one asks for at least what one is worth. */
  lemma AskedAtLeast(c: Setup, ctrl: nat, v: real, dt: nat, least: real)
    requires ctrl >= 1 && Prompt(c, dt) && 0.0 < least <= Rate(c, dt) && least <= MostUp(c)
    ensures v >= 1.0 ==> Asked(c, ctrl, v, dt) >= least
    ensures v <= -1.0 ==> Asked(c, ctrl, v, dt) <= -least
  {
    hide Rate, MostUp;
    RateAtMostOne(c, dt);
    var g := Rate(c, dt);
    assert Worth(c, v, dt) == v * g;
    if v >= 1.0 { TimesAtLeast(v, g); } else if v <= -1.0 {
      TimesAtLeast(-v, g);
      assert v * g == -(-v * g);
    }
    hide Worth;
  }

  lemma TimesAtLeast(v: real, g: real)
    requires v >= 1.0 && g >= 0.0
    ensures v * g >= g
  {
    assert (v - 1.0) * g >= 0.0;
  }

  /** All the time the ticks take. */
  function Duration(ts: seq<Tick>): nat { if ts == [] then 0 else ts[0].dt + Duration(ts[1..]) }

  ghost predicate AllUndisturbed(c: Setup, ts: seq<Tick>, least: real) {
    forall k :: 0 <= k < |ts| ==> Undisturbed(c, ts[k], least)
  }

  lemma UndisturbedIsValid(c: Setup, ts: seq<Tick>, least: real)
    requires AllUndisturbed(c, ts, least)
    ensures AllValid(ts)
  {
  }

  /** Enough undisturbed ticks and the duty arrives: at most as many as the way is long in least steps. */
  lemma {:induction false} FadeArrives(c: Setup, s: Ctl, ts: seq<Tick>, least: real, up: bool)
    requires Follows(c, s) && Ahead(s, up) && s.now + Duration(ts) < 0x1_0000_0000_0000_0000
    requires AllUndisturbed(c, ts, least) && least > 0.0 && |ts| as real * least > Rest(s, up)
    ensures ValidSetup(c) && AllValid(ts) && Arrives(c, s, ts, s.target)
    decreases |ts|
  {
    hide TickAfter, Rest, Undisturbed, Follows;
    FollowsIsValid(c, s, up);
    NoSteps(|ts|, least);
    UndisturbedIsValid(c, ts, least);
    if ts != [] {
      var u := TickAfter(c, s, ts[0]);
      FadeStep(c, s, ts[0], least, up);
      if !Arrived(u, s.target) {
        OneLess(|ts|, least);
        FadeArrives(c, u, ts[1..], least, up);
      }
    }
  }

  lemma NoSteps(n: nat, x: real)
    ensures n == 0 ==> n as real * x == 0.0
  {
  }

  lemma OneLess(n: nat, x: real)
    requires n > 0
    ensures n as real * x == (n - 1) as real * x + x
  {
  }

  lemma FollowsIsValid(c: Setup, s: Ctl, up: bool)
    requires Follows(c, s) && Ahead(s, up)
    ensures ValidSetup(c) && Rest(s, up) > 0.0
  {
  }
}
