/** Charge termination, the coulomb counter and pack-voltage pinning of src/charger.h and
    src/etc/coulomb_counter.h, as functions on the values of the mutable fields. */
module Charger {
  import opened Numbers

  datatype Option<T> = None | Some(value: T)

  /** Parameters after load(). `cbat` is None when the capacity is not configured (NaN). */
  datatype Params = Params(
    cvMin: real, cvEoc: real, cvCeiling: real, nCells: nat, cbat: Option<real>, tail: real,
    dod: real, band: real, offsetMax: real, vbatMax: real, vbatFallback: real)

  /** What load() asserts. */
  predicate ValidParams(p: Params) {
    p.cvMin <= p.cvEoc <= p.cvCeiling && p.nCells > 0 && p.tail > 0.0 && p.band >= 0.0 && p.offsetMax >= 0.0
    && p.vbatMax > 0.0
  }

  // ---- Li_ChgTerminationCondition ------------------------------------------------------------

  const VFLOOR_STREAK_REQ: nat := 4
  const VCEIL_STREAK_REQ: nat := 2

  datatype Term = Term(latched: bool, vTerm: real, lowStreak: nat, highStreak: nat)

  /** Arguments of one update() call. */
  datatype Call = Call(vcell: real, ibat: real, ah: real)

  function ResetTerm(p: Params): Term { Term(false, p.cvMin, 0, 0) }

  /** The termination line at this current. A zero capacity makes the slope infinite, a missing one
      makes it a NaN, and fminf/fmaxf drop NaNs. */
  function TermVoltage(p: Params, ibat: real): real
    requires p.tail > 0.0
  {
    match p.cbat
    case None => p.cvMin
    case Some(c) =>
      if c == 0.0 then (if ibat > 0.0 && p.cvEoc > p.cvMin then p.cvEoc else p.cvMin)
      else MinR(p.cvMin + MaxR(0.0, ibat * Slope(p, c)), p.cvEoc)
  }

  /** Apparent cell resistance that the line implies. */
  function Slope(p: Params, c: real): real
    requires p.tail > 0.0 && c != 0.0
  {
    (p.cvEoc - p.cvMin) / (p.tail * c)
  }

  /** Over the line while not discharging: the normal trigger. */
  predicate OverLine(p: Params, u: Call)
    requires p.tail > 0.0
  {
    p.cbat.Some? && u.ibat > -p.tail * p.cbat.value * 0.02 && u.vcell > TermVoltage(p, u.ibat)
  }

  predicate OverCeiling(p: Params, u: Call) { u.vcell >= p.cvCeiling }

  predicate UnderFloor(p: Params, u: Call) { u.vcell < p.cvMin - p.band }

  predicate Discharged(p: Params, ah: real) {
    p.cbat.Some? && p.dod > 0.0 && ah > p.dod * p.cbat.value
  }

  function TermUpdate(p: Params, s: Term, u: Call): Term
    requires p.tail > 0.0
  {
    var v := TermVoltage(p, u.ibat);
    var high := if !s.latched && OverCeiling(p, u) then s.highStreak + 1 else 0;
    if !s.latched && (high >= VCEIL_STREAK_REQ || OverLine(p, u)) then Term(true, v, 0, 0)
    else if s.latched then
      var low := if UnderFloor(p, u) then s.lowStreak + 1 else 0;
      if low >= VFLOOR_STREAK_REQ then Term(false, v, 0, high)
      else Term(!Discharged(p, u.ah), v, low, high)
    else Term(false, v, s.lowStreak, high)
  }

  // ---- coulomb counter -----------------------------------------------------------------------

  const MAX_DT: nat := 30000000
  const HOURS_PER_US: real := 1.0 / 3600000000.0

  datatype Integrator = Integrator(lastTime: nat, lastX: real, value: real)

  const ZERO: Integrator := Integrator(0, 0.0, 0.0)

  function Trapezoid(x0: real, x1: real, dt: nat): real { (x0 + x1) * 0.5 * (dt as real * HOURS_PER_US) }

  function Integrate(i: Integrator, x: real, now: nat): Integrator {
    var dt := U64(now - i.lastTime);
    Integrator(now, x,
               if dt < MAX_DT then i.value + Trapezoid(i.lastX, x, dt) else i.value)
  }

  /** `published` and `resetRequested` are the two atomics shared by producer and consumer. */
  datatype Counter = Counter(integrator: Integrator, published: real, resetRequested: bool)

  /** Producer step: updateBatCurrent(), taken as one atomic step. */
  function CountCurrent(c: Counter, ibat: real, now: nat): Counter {
    var i := Integrate(if c.resetRequested then ZERO else c.integrator, -ibat, now);
    Counter(i, i.value, false)
  }

  /** Consumer steps. */
  function AhSinceFull(c: Counter): real { if c.resetRequested then 0.0 else c.published }

  function MarkFull(c: Counter): Counter { c.(resetRequested := true) }

  // ---- pack-voltage pinning ------------------------------------------------------------------

  const GLIDE_US: nat := 5000000

  /** A linear glide; `path` is None until it is first started, and survives a reset. */
  datatype Glide = Glide(startUs: nat, path: Option<(real, real)>)

  function ResetGlide(g: Glide): Glide { g.(startUs := 0) }

  predicate GlideActive(g: Glide) { g.startUs != 0 }

  function GlideValue(g: Glide, now: nat): Float {
    match g.path
    case None => NaN
    case Some((from, to)) =>
      var dt := U64(now - g.startUs);
      if dt >= GLIDE_US then Num(to) else Num(Between(from, to, dt as real / GLIDE_US as real))
  }

  function Between(from: real, to: real, x: real): real { from + (to - from) * x }

  /** `filt` is the span-4 moving average; NaN means empty. */
  datatype Pin = Pin(
    pin: Float, filt: Float, fallbackGlide: Glide, floatGlide: Glide, wasTerminated: bool, lastFrame: nat)

  function InitPin(): Pin { Pin(NaN, NaN, Glide(0, None), Glide(0, None), false, 0) }

  /** One step of EWMA_N<4>: the first sample seeds it, infinity absorbs. */
  function Smooth(y: Float, x: Float): Float {
    match (y, x)
    case (_, NaN) => y
    case (NaN, _) => x
    case (Num(a), Num(b)) => Num(0.6 * a + 0.4 * b)
    case (Num(_), inf) => inf
    case (inf, _) => inf
  }

  /** What one pinning update reads: bus authority, valid battery data, highest cell, its target, the
      latch, the clock, the BMS frame stamp and the average output voltage. */
  datatype PinIn = PinIn(
    authority: bool, dataOk: bool, vcell: real, vEoc: real, terminated: bool, now: nat, frame: nat,
    voutAvg: Option<real>)

  /** What one update() reads: highest cell (None while invalid), smoothed battery current (None while not
      warm), bus authority, clock, frame stamp and average output voltage. */
  datatype Reading = Reading(
    vcell: Option<real>, ibat: Option<real>, authority: bool, now: nat, frame: nat, voutAvg: Option<real>)

  /** How pinning sees it once termination is evaluated; a missing capacity counts as missing data. */
  function Seen(p: Params, t: Term, r: Reading): PinIn {
    PinIn(r.authority, r.vcell.Some? && p.cbat.Some?, if r.vcell.Some? then r.vcell.value else 0.0,
          MinR(p.cvEoc, t.vTerm), t.latched, r.now, r.frame, r.voutAvg)
  }

  /** Lowest voltage the feedback may pull the pin to. */
  function Floor(p: Params): real { p.vbatFallback - p.offsetMax }

  predicate Feedback(i: PinIn) { i.authority && i.dataOk && i.vcell >= i.vEoc }

  predicate NoAuthority(i: PinIn) { !i.authority && i.dataOk }

  function Release(p: Params, s: Pin): Pin {
    Pin(Num(p.vbatMax), NaN, ResetGlide(s.fallbackGlide), ResetGlide(s.floatGlide), false, s.lastFrame)
  }

  function OrFallback(p: Params, pin: Float): real { if pin.Num? then pin.r else p.vbatFallback }

  /** Glide on a change of the latch. */
  function OnLatchChange(p: Params, s: Pin, i: PinIn): Pin {
    if i.terminated == s.wasTerminated then s
    else
      s.(floatGlide := Glide(i.now, Some((OrFallback(p, s.pin), if i.terminated then p.vbatFallback else p.vbatMax))),
         wasTerminated := i.terminated)
  }

  /** Voltage the feedback integrates from. */
  function Base(s: Pin, i: PinIn): Float {
    if s.pin.Num? then s.pin else if i.voutAvg.Some? then Num(i.voutAvg.value) else PosInf
  }

  /** Cell error as a pack voltage. */
  function Overshoot(p: Params, i: PinIn): real { (i.vcell - i.vEoc) * p.nCells as real }

  /** Integrated cell error, not below the floor. */
  function RawPin(p: Params, s: Pin, i: PinIn): Float {
    match Base(s, i)
    case Num(b) => Num(MaxR(b - Overshoot(p, i), Floor(p)))
    case inf => inf
  }

  function FeedbackUpdate(p: Params, s: Pin, i: PinIn): Pin {
    var s1 := s.(fallbackGlide := ResetGlide(s.fallbackGlide), floatGlide := ResetGlide(s.floatGlide));
    if i.frame == s.lastFrame && s.pin != NaN then s1
    else
      var y := Smooth(s.filt, RawPin(p, s, i));
      s1.(lastFrame := i.frame, filt := y, pin := y)
  }

  function FallbackUpdate(p: Params, s: Pin, i: PinIn): Pin {
    var g := if GlideActive(s.fallbackGlide) then s.fallbackGlide
             else Glide(i.now, Some((OrFallback(p, s.pin), p.vbatFallback)));
    s.(filt := NaN, floatGlide := ResetGlide(s.floatGlide), fallbackGlide := g, pin := GlideValue(g, i.now))
  }

  function PinUpdate(p: Params, s: Pin, i: PinIn): Pin {
    if NoAuthority(i) then
      if i.terminated then
        Pin(Num(Floor(p)), NaN, ResetGlide(s.fallbackGlide), ResetGlide(s.floatGlide), true, s.lastFrame)
      else Release(p, s)
    else
      var s1 := OnLatchChange(p, s, i);
      if Feedback(i) then FeedbackUpdate(p, s1, i)
      else if i.terminated && i.dataOk then
        s1.(filt := NaN, fallbackGlide := ResetGlide(s1.fallbackGlide), pin := GlideValue(s1.floatGlide, i.now))
      else if !i.dataOk && p.vbatFallback >= 0.0 then FallbackUpdate(p, s1, i)
      else
        s1.(filt := NaN, fallbackGlide := ResetGlide(s1.fallbackGlide),
            pin := if GlideActive(s1.floatGlide) then GlideValue(s1.floatGlide, i.now) else Num(p.vbatMax))
  }

  function VoutMax(p: Params, s: Pin): real {
    if Less(Num(0.0), s.pin) && Less(s.pin, Num(p.vbatMax)) then s.pin.r else p.vbatMax
  }
}
