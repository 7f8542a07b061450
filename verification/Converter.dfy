/** The synchronous converter of src/buck.h: duty counts, diode-emulation limit, dither and
    fractional steps. `Conv` is the value of the mutable fields; each function below is what one
    method of the class does to it. */
module Converter {
  import opened Numbers

  /** What init() computes and never changes. A boost converter has rectMin == 0. */
  datatype Config = Config(pwmMax: nat, rectMin: nat, ctrlMax: nat, boost: bool, fL: real)

  const CTRL_MIN: nat := 1

  /** pwm_freq > 5 kHz keeps every driver's period at or below 32000 ticks; coil check fL > 1. */
  predicate ValidConfig(c: Config) {
    c.rectMin < c.pwmMax <= 32000 && c.ctrlMax == c.pwmMax - c.rectMin && c.fL > 1.0
  }

  /** `badStart` is a history flag: a disabled converter was perturbed by a step that is not
      positive, so it left the disabled state without the enabling branch. */
  datatype Conv = Conv(
    ctrl: nat, rect: nat, rectMax: nat, manual: int,
    dcm: bool, sync: bool, forced: bool,
    ratio: real, dither: real, offset: int, vr: real, frac: real,
    badStart: bool)

  function InitConv(): Conv {
    Conv(0, 0, 0, -1, false, false, false, 0.0, 0.0, 0, 0.0, 0.0, false)
  }

  /** One sample of the converter's sensors. */
  datatype Meas = Meas(vin: real, vout: real, il: real)

  // ---- computePwmRectMax ---------------------------------------------------------------------

  /** Rectifier counts at this ratio. */
  function Counts(ctrl: nat, ratio: real): real { ctrl as real * ratio }

  function DcmIdeal(s: Conv): real { Counts(s.ctrl, s.ratio) + s.offset as real }

  function DcmRounded(s: Conv): int {
    RoundHalfAway(DcmIdeal(s) + s.dither)
  }

  /** Complement of the control switch, one count short of the timer wrap. */
  function CcmLimit(c: Config, s: Conv): nat {
    U16(c.pwmMax - s.ctrl - 1)
  }

  function Limit(c: Config, s: Conv): (r: Conv)
    ensures r == s.(rectMax := r.rectMax, dither := r.dither)
  {
    var t := if s.dcm then
               s.(dither := DcmIdeal(s) + s.dither - DcmRounded(s) as real, rectMax := U16(MaxI(0, DcmRounded(s))))
             else
               s.(rectMax := CcmLimit(c, s));
    t.(rectMax := MinI(MaxI(c.rectMin, t.rectMax), CcmLimit(c, s)))
  }

  // ---- pwmPerturb ----------------------------------------------------------------------------

  predicate LargerDecrease(c: Config, direction: int) {
    -direction > c.pwmMax / 50
  }

  /** Low-side count after one fade-in step toward the limit. */
  function Fade(c: Config, s: Conv): nat {
    if s.sync then
      var step := 1 + if s.rect > c.rectMin + c.pwmMax / 64 then TruncDiv(s.rectMax - s.rect, 64) else 0;
      U16(Constrain(s.rect + step, c.rectMin, s.rectMax))
    else
      c.rectMin
  }

  function HeldRect(c: Config, manual: int, ctrl: nat): nat {
    U16(Constrain(manual, c.rectMin, c.pwmMax - ctrl - 1))
  }

  /** The control count moves first. */
  function Moved(c: Config, s: Conv, direction: int): Conv
    requires ValidConfig(c)
  {
    s.(ctrl := Constrain(s.ctrl + direction, CTRL_MIN, c.ctrlMax),
       badStart := s.badStart || (s.ctrl == 0 && direction <= 0))
  }

  /** A large decrease presumes DCM until the sensors have settled. */
  predicate PresumesDcm(c: Config, s: Conv, direction: int) {
    LargerDecrease(c, direction) && !s.forced
  }

  /** The state for which pwmPerturb computes the limit. */
  function Limiting(c: Config, s: Conv, direction: int): Conv
    requires ValidConfig(c)
  {
    var s1 := Moved(c, s, direction);
    if PresumesDcm(c, s, direction) then s1.(dcm := true) else s1
  }

  function Perturb(c: Config, s: Conv, direction: int): Conv
    requires ValidConfig(c)
  {
    var s1 := Moved(c, s, direction);
    if s.manual >= 0 then s1.(rect := HeldRect(c, s.manual, s1.ctrl))
    else
      var s2 := Limit(c, Limiting(c, s, direction));
      s2.(rect := if PresumesDcm(c, s, direction) then c.rectMin else Fade(c, s2))
  }

  /** The request pwmPerturbFractional accepts; anything else throws std::out_of_range. */
  predicate InRange(c: Config, f: Float) {
    f.Num? && AbsR(f.r) <= c.pwmMax as real
  }

  /** Integer step that a request issues, given the carried fraction. */
  function IntStep(s: Conv, f: real): int {
    I16(Trunc(f + s.frac))
  }

  /** State after a request; a rejected one changes nothing. */
  function PerturbFractional(c: Config, s: Conv, f: Float): Conv
    requires ValidConfig(c)
  {
    if !InRange(c, f) then s
    else
      var k := IntStep(s, f.r);
      var s1 := if k != 0 then Perturb(c, s.(frac := 0.0), k) else s;
      s1.(frac := f.r + s.frac - k as real)
  }

  // ---- remaining operations ------------------------------------------------------------------

  function Disable(s: Conv): Conv {
    s.(ctrl := 0, rect := 0, sync := false)
  }

  function SetManualRect(c: Config, s: Conv, ls: int): Conv {
    if ls < 0 then s.(manual := -1)
    else
      var m := Constrain(ls, c.rectMin, c.pwmMax - s.ctrl - 1);
      s.(manual := m, rect := U16(m))
  }

  function SyncRectMinDuty(c: Config, s: Conv): Conv {
    if s.rect > c.rectMin then s.(rect := c.rectMin) else s
  }

  function EnableSyncRect(c: Config, s: Conv, enable: bool, overwriteForced: bool): Conv {
    var en := enable || (s.forced && !overwriteForced);
    var s1 := s.(sync := en);
    if en then s1 else SyncRectMinDuty(c, s1)
  }

  // ---- diode emulation -----------------------------------------------------------------------

  /** Worst-case error factor of the measured voltage ratio, 1% error on each side. */
  const WCEF: real := 0.99 / 1.01

  function HighSide(c: Config, m: Meas): real { if c.boost then m.vout else m.vin }

  function LowSide(c: Config, m: Meas): real { if c.boost then m.vin else m.vout }

  function MeasuredRatio(boost: bool, vh: real, vl: real): real {
    if boost then BoostRatio(vh, vl) else BuckRatio(vh, vl)
  }

  function BoostRatio(vh: real, vl: real): real {
    if vh > vl && vl > 0.1 then ConstrainR(vh / vl, 0.01, 10.0) else 10.0
  }

  function BuckRatio(vh: real, vl: real): real {
    if vh > vl && vh > 0.1 then ConstrainR(vl / vh, 0.01, 0.99) else 1.0
  }

  /** Compensates the worst-case error. */
  function Inflated(m: real): real { m / WCEF }

  /** Estimate of the conversion ratio that errs on the safe side. */
  function WorstCaseRatio(boost: bool, vh: real, vl: real): (m: real)
    ensures if boost then m >= 1.01 else 0.0 < m <= 0.99
  {
    var m := Inflated(MeasuredRatio(boost, vh, vl));
    if boost then MaxR(m, 1.01) else MinR(m, 0.99)
  }

  /** t_rect / t_ctrl at which the coil current reaches zero. */
  function RectCtrlRatio(boost: bool, m: real): real
    requires if boost then m != 1.0 else m != 0.0
  {
    if boost then 1.0 / (m - 1.0) else 1.0 / m - 1.0
  }

  function RippleCurrent(c: Config, vh: real, vl: real): real
    requires c.fL != 0.0 && vh != 0.0
  {
    vl / c.fL * (1.0 - vl / vh)
  }

  /** CCM/DCM decision with hysteresis. With vh == 0 the ripple is not a finite positive number,
      so the comparison is false. */
  predicate ComputeDcm(c: Config, s: Conv, vh: real, vl: real, il: real)
    requires ValidConfig(c)
  {
    !s.forced
    && ((vh != 0.0 && RippleCurrent(c, vh, vl) > il * (if s.dcm then 1.8 else 2.0)) || il < 0.1)
  }

  function ComputeSyncRectRatio(c: Config, s: Conv, vh: real, vl: real, il: real): Conv
    requires ValidConfig(c)
  {
    var m := WorstCaseRatio(c.boost, vh, vl);
    var dcm := ComputeDcm(c, s, vh, vl, il);
    var s1 := s.(vr := m, dcm := dcm);
    if !dcm then s1
    else if il < 0.01 || vl < 1.0 then s1.(ratio := 0.0)
    else s1.(ratio := RectCtrlRatio(c.boost, m))
  }

  function UpdateMaxDuty(c: Config, s: Conv, m: Meas): Conv
    requires ValidConfig(c)
  {
    var s1 := ComputeSyncRectRatio(c, s, HighSide(c, m), LowSide(c, m), m.il);
    if s1.manual >= 0 then s1
    else
      var s2 := Limit(c, s1);
      if s2.rect > s2.rectMax then s2.(rect := s2.rectMax) else s2
  }

  // ---- operations as data --------------------------------------------------------------------

  datatype Op =
    | OpPerturb(direction: int)
    | OpFractional(request: Float)
    | OpDisable
    | OpManualRect(ls: int)
    | OpUpdateMax(m: Meas)
    | OpEnableSyncRect(enable: bool, overwriteForced: bool)
    | OpSyncRectMin
    | OpForcePwm(on: bool)
    | OpSetOffset(counts: int)

  function Step(c: Config, s: Conv, op: Op): Conv
    requires ValidConfig(c)
  {
    match op
    case OpPerturb(d) => Perturb(c, s, d)
    case OpFractional(f) => PerturbFractional(c, s, f)
    case OpDisable => Disable(s)
    case OpManualRect(ls) => SetManualRect(c, s, ls)
    case OpUpdateMax(m) => UpdateMaxDuty(c, s, m)
    case OpEnableSyncRect(e, o) => EnableSyncRect(c, s, e, o)
    case OpSyncRectMin => SyncRectMinDuty(c, s)
    case OpForcePwm(b) => s.(forced := b)
    case OpSetOffset(o) => s.(offset := I16(o))
  }

  /** State after a run of operations. */
  function Run(c: Config, s: Conv, ops: seq<Op>): Conv
    requires ValidConfig(c)
    decreases |ops|
  {
    if ops == [] then s else Run(c, Step(c, s, ops[0]), ops[1..])
  }
}
