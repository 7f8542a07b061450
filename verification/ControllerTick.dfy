/** What an automatic tick does to the duty, exactly: which control value wins and how many counts it is
    worth. */
module ControllerTick {
  import opened Numbers
  import opened Converter
  import opened ConverterWindow
  import opened Controller
  import opened ControllerSafety
  import opened ControllerSweep

  /** Counts that a control value of one is worth after dt microseconds: fifty counts of a 2000-count period
      a second. */
  function Rate(c: Setup, dt: nat): real { c.conv.ctrlMax as real * (dt as real / 40000000.0) }

  function Worth(c: Setup, value: real, dt: nat): real { value * Rate(c, dt) }

  /** Largest step upwards: 16 counts of a 2000-count period. */
  function MostUp(c: Setup): real { 16.0 * (c.conv.ctrlMax as real / 2000.0) }

  /** What is asked of the converter: not below zero duty, and not more than that step. */
  function Asked(c: Setup, ctrl: nat, value: real, dt: nat): real {
    ConstrainR(Worth(c, value, dt), -(ctrl as real), MostUp(c))
  }

  /** Whole counts are moved, within the range of a running converter; the rest is carried. */
  predicate Moves(c: Config, a: Conv, b: Conv, q: real) {
    var k := Trunc(q + a.frac);
    b.frac == q + a.frac - k as real && b.ctrl == if k == 0 then a.ctrl else Constrain(a.ctrl + k, 1, c.ctrlMax)
  }

  lemma FractionExactly(c: Setup, a: Conv, q: real)
    requires ValidSetup(c) && Kept(c.conv, a) && -(a.ctrl as real) <= q <= c.conv.pwmMax as real
    ensures InRange(c.conv, Num(q)) && Moves(c.conv, a, PerturbFractional(c.conv, a, Num(q)), q)
    ensures Kept(c.conv, PerturbFractional(c.conv, a, Num(q)))
  {
    FractionMoves(c, a, q);
    IntStepIsTrunc(c.conv, a, q);
    PerturbKeepsDuty(c.conv, a.(frac := 0.0), IntStep(a, q));
    hide Perturb, IntStep, Window;
  }

  lemma AskedIsRequest(c: Setup, s: Ctl, v: real)
    requires ValidSetup(c) && s.lastUs <= s.now < 0x1_0000_0000_0000_0000
    ensures Request(c, s, Num(v)) == Num(Asked(c, s.conv.ctrl, v, s.now - s.lastUs))
  {
    hide U64, Gain, StepCap, Rate, MostUp;
    var dt := s.now - s.lastUs;
    NoWrapAround(dt);
    GainIs(c, dt);
    CapIs(c);
    assert Request(c, s, Num(v)) == ClampF(Num(v * Gain(c, dt)), -(s.conv.ctrl as real), StepCap(c));
  }

  lemma NoWrapAround(dt: nat)
    ensures dt < 0x1_0000_0000_0000_0000 ==> U64(dt) == dt
  {
  }

  lemma GainIs(c: Setup, dt: nat)
    ensures Gain(c, dt) == Rate(c, dt)
  {
    Regroup(c.conv.ctrlMax as real, dt as real);
  }

  lemma Regroup(n: real, dt: real)
    ensures n * dt * 0.000000025 == n * (dt / 40000000.0)
  {
    assert dt / 40000000.0 == dt * 0.000000025;
  }

  lemma CapIs(c: Setup)
    ensures StepCap(c) == MostUp(c)
  {
  }

  lemma EnableKeepsCounts(c: Config, s: Conv, en: bool)
    ensures var t := EnableSyncRect(c, s, en, false);
            && t.ctrl == s.ctrl && t.frac == s.frac && t.forced == s.forced && t.sync == (en || s.forced)
            && t.rect == if t.sync then s.rect else MinI(s.rect, c.rectMin)
  {
  }

  /** The end of a tick: the counts asked for are moved, sync rectification is as the current wants it, or
      forced, and time is taken. */
  lemma StepExactly(c: Setup, s: Ctl, v: real, syncOn: bool)
    requires ValidSetup(c) && Kept(c.conv, s.conv) && 0 < s.lastUs <= s.now < 0x1_0000_0000_0000_0000
    ensures var t := StepAndSync(c, s, Num(v), syncOn);
            && Moves(c.conv, s.conv, t.conv, Asked(c, s.conv.ctrl, v, s.now - s.lastUs))
            && t == s.(conv := t.conv, lastUs := s.now)
            && (t.conv.sync <==> syncOn || t.conv.forced) && (!t.conv.sync ==> t.conv.rect <= c.conv.rectMin)
  {
    hide Request, Asked, PerturbFractional, EnableSyncRect, InRange, Kept, Moves;
    var q := Asked(c, s.conv.ctrl, v, s.now - s.lastUs);
    AskedIsRequest(c, s, v);
    AskedRange(c, s.conv.ctrl, v, s.now - s.lastUs);
    FractionExactly(c, s.conv, q);
    var b := PerturbFractional(c.conv, s.conv, Num(q));
    EnableKeepsCounts(c.conv, b, syncOn);
    SameMove(c.conv, s.conv, b, EnableSyncRect(c.conv, b, syncOn, false), q);
  }

  /** The first tick after a start only takes the time. */
  lemma FirstStep(c: Setup, s: Ctl, v: Float, syncOn: bool)
    requires ValidSetup(c) && s.lastUs == 0
    ensures var t := StepAndSync(c, s, v, syncOn);
            t.conv.ctrl == s.conv.ctrl && t.conv.frac == s.conv.frac && t.lastUs == s.now
  {
    hide EnableSyncRect;
    EnableKeepsCounts(c.conv, s.conv, syncOn);
  }

  lemma SameMove(c: Config, a: Conv, b: Conv, d: Conv, q: real)
    requires Moves(c, a, b, q) && d.ctrl == b.ctrl && d.frac == b.frac
    ensures Moves(c, a, d, q)
  {
  }

  lemma AskedRange(c: Setup, ctrl: nat, v: real, dt: nat)
    requires ValidSetup(c)
    ensures -(ctrl as real) <= Asked(c, ctrl, v, dt) <= c.conv.pwmMax as real
  {
    hide Worth;
    Between(Worth(c, v, dt), -(ctrl as real), MostUp(c));
  }

  lemma Between(x: real, lo: real, hi: real)
    requires lo <= hi
    ensures lo <= ConstrainR(x, lo, hi) <= hi
  {
  }

  // ---- the verdict ---------------------------------------------------------------------------

  /** All controller outputs are numbers and lim is the lowest. */
  ghost predicate Lowest(cvs: seq<Float>, lim: real) {
    (forall k :: 0 <= k < |cvs| ==> cvs[k].Num? && cvs[k].r >= lim) && Num(lim) in cvs
  }

  lemma {:induction false} ScanFinite(c: Setup, s: Ctl, cvs: seq<Float>, n: nat)
    requires n <= |cvs| && forall k :: 0 <= k < |cvs| ==> cvs[k].Num?
    ensures var a := ScanTo(c, s, cvs, n);
            && a.s == s && (n == 0 ==> a.lim == PosInf)
            && (n > 0 ==> a.lim.Num? && a.lim in cvs[..n] && forall k :: 0 <= k < n ==> cvs[k].r >= a.lim.r)
  {
    if n > 0 {
      ScanFinite(c, s, cvs, n - 1);
      assert cvs[..n] == cvs[..n - 1] + [cvs[n - 1]];
    }
  }

  lemma ScanLowest(c: Setup, s: Ctl, cvs: seq<Float>, lim: real)
    requires |cvs| == 5 && Lowest(cvs, lim)
    ensures ScanTo(c, s, cvs, 5).s == s && ScanTo(c, s, cvs, 5).lim == Num(lim)
  {
    ScanFinite(c, s, cvs, 5);
    var a := ScanTo(c, s, cvs, 5);
    assert cvs[..5] == cvs;
    hide ScanTo;
    var k :| 0 <= k < |cvs| && cvs[k] == Num(lim);
    assert a.lim.r <= lim;
    var j :| 0 <= j < |cvs| && cvs[j] == a.lim;
  }

  // ---- the tracking tick ---------------------------------------------------------------------

  /** The lowest output and the first controller that has it. */
  ghost predicate LowestAt(cvs: seq<Float>, lim: real, k: nat) {
    k < |cvs| && cvs[k] == Num(lim) && (forall j :: 0 <= j < |cvs| ==> cvs[j].Num? && cvs[j].r >= lim)
    && forall j :: 0 <= j < k ==> cvs[j].r > lim
  }

  lemma {:induction false} ScanFirst(c: Setup, s: Ctl, cvs: seq<Float>, n: nat, lim: real, k: nat)
    requires n <= |cvs| && LowestAt(cvs, lim, k)
    ensures var a := ScanTo(c, s, cvs, n);
            && a.s == s
            && (k < n ==> a.lim == Num(lim) && a.idx == k)
            && (k >= n ==> if n == 0 then a.lim == PosInf else a.lim.Num? && a.lim.r > lim)
  {
    if n > 0 { ScanFirst(c, s, cvs, n - 1, lim, k); }
  }

  /** Control value of a converter that tracks: a limiting controller's, unless the duty is full; a step back
      from full duty and a step up from the lowest; what the controllers allow as a limitation ends; and
      otherwise the tracker's. None goes beyond what the controllers allow. */
  function TrackValue(c: Setup, s: Ctl, lim: real, tracker: real): real {
    if s.conv.ctrl == c.conv.ctrlMax then MinR(-1.0, lim)
    else if s.conv.ctrl == CTRL_MIN then MinR(1.0, lim)
    else if lim < 0.0 || s.limiting then lim
    else MinR(tracker, lim)
  }

  /** Mode it is done in: input or output voltage, input or output current, power, or tracking. */
  function TrackMode(c: Setup, s: Ctl, lim: real, k: nat): Mode {
    if s.conv.ctrl == c.conv.ctrlMax || s.conv.ctrl == CTRL_MIN then CV
    else if lim >= 0.0 then MPPT
    else if k < 2 then CV else if k < 4 then CC else CP
  }

  /** The tick of a running converter without sweep or target, exactly. */
  lemma TrackingTick(c: Setup, s: Ctl, i: TickIn, lim: real, k: nat, tracker: real)
    requires Ready(c, s) && ValidTick(i) && !s.sweeping && s.target == 0 && !i.resweepDue && s.conv.ctrl > 0
    requires LowestAt(i.cvs, lim, k) && i.tracker == Num(tracker) && 0 < s.lastUs <= s.now < 0x1_0000_0000_0000_0000
    ensures var t := Update(c, s, i);
            && Moves(c.conv, s.conv, t.conv, Asked(c, s.conv.ctrl, TrackValue(c, s, lim, tracker), s.now - s.lastUs))
            && (t.conv.sync <==> i.syncOn || t.conv.forced) && (!t.conv.sync ==> t.conv.rect <= c.conv.rectMin)
            && t == s.(conv := t.conv, lastUs := s.now, limiting := lim < 0.0, mode := TrackMode(c, s, lim, k))
  {
    hide Route, Decide, StepAndSync, Moves, Asked, Kept, LowestAt, ScanTo, UpdateCv;
    ScanFirst(c, s, i.cvs, 5, lim, k);
    LowestIsFive(i.cvs, lim, k);
    TrackDecides(c, s, i, lim, k);
    var p := Decide(c, s, i);
    TrackRoute(c, p, Num(lim), i.power);
    var m := if p.mode == ModeNone then MPPT else p.mode;
    StepExactly(c, p.s.(mode := m), TrackValue(c, s, lim, tracker), i.syncOn);
  }

  lemma LowestIsFive(cvs: seq<Float>, lim: real, k: nat)
    requires |cvs| == 5 && LowestAt(cvs, lim, k)
    ensures k < 5
  {
  }

  lemma TrackDecides(c: Setup, s: Ctl, i: TickIn, lim: real, k: nat)
    requires ValidTick(i) && LowestAt(i.cvs, lim, k) && !s.sweeping
    ensures var p := Decide(c, s, i);
            && p.s == s.(limiting := lim < 0.0)
            && (if p.mode == ModeNone then lim >= 0.0 && !s.limiting && TrackMode(c, s, lim, k) == MPPT
                                           && s.conv.ctrl != c.conv.ctrlMax && s.conv.ctrl != CTRL_MIN
                else p.mode == TrackMode(c, s, lim, k) && p.value.Num?
                     && forall x: real :: MinR(p.value.r, lim) == TrackValue(c, s, lim, x))
  {
    ScanFirst(c, s, i.cvs, 5, lim, k);
    ScanIndex(c, s, i.cvs, 5);
    hide ScanTo, LowestAt;
  }

  lemma TrackRoute(c: Setup, p: Phase, lim: Float, power: Float)
    requires ValidSetup(c) && !p.s.sweeping && p.s.target == 0
    ensures Route(c, p, lim, power) == p
  {
  }

  // ---- the boot-duty tick --------------------------------------------------------------------

  /** The boot-duty mode never asks for more than the way to its target; within a 512th of the range of it, and
      unless a larger step is asked for, it asks for exactly that way; further off for what the controller
      asks. It stops a converter whose controller yields no number. */
  lemma BootTick(c: Setup, s: Ctl, i: TickIn)
    requires ValidSetup(c) && Kept(c.conv, s.conv) && ValidTick(i) && s.bootTarget != 0 && s.lastUs != 0
    ensures var t := Update(c, s, i);
            t.mode == CV
            && if !i.cvRequest.Num? then t.conv.ctrl == 0 && (s.conv.ctrl != 0 ==> InBackoff(t))
               else exists q: real :: BootRequest(c, s, i.cvRequest.r, q) && Moves(c.conv, s.conv, t.conv, q) && t.lastUs == s.now
  {
    hide PerturbFractional, EnableSyncRect, Moves, BootRequest, CvStep, Kept, ShutdownDcdc;
    if i.cvRequest.Num? {
      var q := BootStep(c, s, i.cvRequest.r);
      FractionExactly(c, s.conv, q);
      BootConv(c, s, i);
      var b := PerturbFractional(c.conv, s.conv, Num(q));
      EnableKeepsCounts(c.conv, b, i.syncOn);
      SameMove(c.conv, s.conv, b, Update(c, s, i).conv, q);
    } else { BootStops(c, s, i); }
    hide Update;
  }

  lemma BootConv(c: Setup, s: Ctl, i: TickIn)
    requires ValidSetup(c) && ValidTick(i) && s.bootTarget != 0 && s.lastUs != 0 && i.cvRequest.Num?
    ensures var t := Update(c, s, i);
            && t.mode == CV && t.lastUs == s.now
            && t.conv == EnableSyncRect(c.conv, PerturbFractional(c.conv, s.conv, CvStep(c, s.(mode := CV), i.cvRequest.r)),
                                        i.syncOn, false)
  {
    hide PerturbFractional, EnableSyncRect, CvStep, Finish, Route, Decide, ScanTo, StartSweep;
  }

  lemma BootStops(c: Setup, s: Ctl, i: TickIn)
    requires ValidSetup(c) && ValidTick(i) && s.bootTarget != 0 && !i.cvRequest.Num?
    ensures var t := Update(c, s, i); t.mode == CV && t.conv.ctrl == 0 && (s.conv.ctrl != 0 ==> InBackoff(t))
  {
    hide Update, PerturbFractional, EnableSyncRect, CvStep, ShutdownDcdc;
    BootMode(c, s, i);
    Stopped(s.(mode := CV));
  }

  lemma Stopped(s: Ctl)
    ensures var t := ShutdownDcdc(s, DEFAULT_BACKOFF); t.conv.ctrl == 0 && InBackoff(t) && t.mode == s.mode
  {
  }

  lemma BootMode(c: Setup, s: Ctl, i: TickIn)
    requires ValidSetup(c) && ValidTick(i) && s.bootTarget != 0
    ensures Update(c, s, i) == UpdateCv(c, s, i)
  {
    hide UpdateCv, Finish, Route, Decide, ScanTo, StartSweep;
  }

  ghost predicate BootRequest(c: Setup, s: Ctl, f: real, q: real) {
    var way, near := s.bootTarget - s.conv.ctrl, c.conv.ctrlMax / 512;
    && -(s.conv.ctrl as real) <= q <= MostUp(c)
    && (way >= 0 ==> q <= way as real)
    && (-near < way < near && -near as real < f < near as real ==>
          q == ConstrainR(way as real, -(s.conv.ctrl as real), MostUp(c)))
    && (way <= -near || way >= near ==> q == ConstrainR(MinR(f, way as real), -(s.conv.ctrl as real), MostUp(c)))
  }

  lemma BootStep(c: Setup, s: Ctl, f: real) returns (q: real)
    requires ValidSetup(c)
    ensures CvStep(c, s.(mode := CV), f) == Num(q) && BootRequest(c, s, f, q)
    ensures -(s.conv.ctrl as real) <= q <= c.conv.pwmMax as real
  {
    CapIs(c);
    hide StepCap;
    q := CvStep(c, s.(mode := CV), f).r;
  }
}
