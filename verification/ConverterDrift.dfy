/** Diode emulation on a moving plant: the limit rests on the last DCM sample, so what the true voltages
    have moved since then is what it can be off, and no more. */
module ConverterDrift {
  import opened Numbers
  import opened Converter
  import opened ConverterDiode

  /** An operation and the plant at that moment. */
  datatype Timed = Timed(op: Op, plant: Plant)

  ghost predicate Holds(c: Config, o: Timed) {
    Converting(o.plant) && TrueRatio(c.boost, o.plant) <= RatioCeiling(c.boost) && Measures(c, o.plant, o.op)
  }

  ghost predicate AllHold(c: Config, os: seq<Timed>) { forall o :: o in os ==> Holds(c, o) }

  function After(c: Config, s: Conv, os: seq<Timed>): Conv
    requires ValidConfig(c)
    decreases |os|
  {
    if os == [] then s else After(c, Step(c, s, os[0].op), os[1..])
  }

  /** The sample replaces the reference if it leaves the converter in DCM. */
  function NextSampled(c: Config, s: Conv, o: Timed, ref: Plant): Plant
    requires ValidConfig(c)
  {
    if o.op.OpUpdateMax? && Step(c, s, o.op).dcm then o.plant else ref
  }

  /** The plant of the last sample in DCM. */
  function Sampled(c: Config, s: Conv, os: seq<Timed>, ref: Plant): Plant
    requires ValidConfig(c)
    decreases |os|
  {
    if os == [] then ref else Sampled(c, Step(c, s, os[0].op), os[1..], NextSampled(c, s, os[0], ref))
  }

  /** A sample in CCM leaves the ratio as it is. */
  lemma CcmKeepsRatio(c: Config, s: Conv, m: Meas)
    requires ValidConfig(c)
    ensures var t := UpdateMaxDuty(c, s, m);
            !t.dcm ==> t.ratio == s.ratio && t.offset == s.offset && t.dither == s.dither
  {
    var t := ComputeSyncRectRatio(c, s, HighSide(c, m), LowSide(c, m), m.il);
    CcmSample(c, s, HighSide(c, m), LowSide(c, m), m.il);
    CcmKeepsDither(c, t);
    hide Limit, ComputeSyncRectRatio;
  }

  lemma CcmSample(c: Config, s: Conv, vh: real, vl: real, il: real)
    requires ValidConfig(c)
    ensures var t := ComputeSyncRectRatio(c, s, vh, vl, il);
            t.offset == s.offset && t.dither == s.dither && (!t.dcm ==> t.ratio == s.ratio)
  {
    hide WorstCaseRatio, RectCtrlRatio, ComputeDcm;
  }

  lemma CcmKeepsDither(c: Config, s: Conv)
    ensures var t := Limit(c, s);
            t.ratio == s.ratio && t.offset == s.offset && t.dcm == s.dcm && (!t.dcm ==> t.dither == s.dither)
  {
  }

  lemma DriftStep(c: Config, s: Conv, o: Timed, ref: Plant)
    requires ValidConfig(c) && Holds(c, o) && Converting(ref) && Emulating(s, ZeroCrossing(c.boost, ref))
    ensures var t, next := Step(c, s, o.op), NextSampled(c, s, o, ref);
            && Converting(next) && Emulating(t, ZeroCrossing(c.boost, next))
            && (Limits(c, s, o.op) && t.dcm && t.manual < 0 ==>
                  BelowCrossing(c, t, t.rectMax, ZeroCrossing(c.boost, next))
                  && BelowCrossing(c, t, t.rect, ZeroCrossing(c.boost, next)))
  {
    hide Perturb, UpdateMaxDuty, ZeroCrossing, SetManualRect, I16, Counts, IntStep, TrueRatio;
    var crossing := ZeroCrossing(c.boost, ref);
    match o.op
    case OpPerturb(d) => PerturbEmulates(c, s, d, crossing);
    case OpFractional(f) =>
      if InRange(c, f) && IntStep(s, f.r) != 0 {
        PerturbEmulates(c, s.(frac := 0.0), IntStep(s, f.r), crossing);
      }
    case OpUpdateMax(m) =>
      if UpdateMaxDuty(c, s, m).dcm {
        SampleEmulates(c, s, m, o.plant);
      } else { CcmKeepsRatio(c, s, m); }
    case OpManualRect(ls) => ManualRectRatio(c, s, ls);
    case _ =>
  }

  /** A sample in DCM does not depend on how good the ratio was before. */
  lemma SampleEmulates(c: Config, s: Conv, m: Meas, p: Plant)
    requires ValidConfig(c) && Holds(c, Timed(OpUpdateMax(m), p))
    requires s.offset <= 0 && -0.5 <= s.dither <= 0.5 && UpdateMaxDuty(c, s, m).dcm
    ensures var t, crossing := UpdateMaxDuty(c, s, m), ZeroCrossing(c.boost, p);
            Emulating(t, crossing)
            && (t.manual < 0 ==> BelowCrossing(c, t, t.rectMax, crossing) && BelowCrossing(c, t, t.rect, crossing))
  {
    hide Limit, WorstCaseRatio, RectCtrlRatio, ComputeDcm, ZeroCrossing, TrueRatio, RatioCeiling;
    var vh, vl := HighSide(c, m), LowSide(c, m);
    DcmRatioIsSafe(c.boost, p, vh, vl);
    var s1 := ComputeSyncRectRatio(c, s, vh, vl, m.il);
    LimitRange(c, s1);
    if s1.dcm { DcmLimitIsSafe(c, s1, ZeroCrossing(c.boost, p)); }
  }

  /** All runs on a plant that moves as it likes within the clamps: limit and rectifier on-time are within
      one count of the zero crossing of the plant that was last sampled in DCM. */
  lemma {:induction false} DriftEmulates(c: Config, s: Conv, os: seq<Timed>, o: Timed, ref: Plant)
    requires ValidConfig(c) && AllHold(c, os) && Holds(c, o)
    requires Converting(ref) && Emulating(s, ZeroCrossing(c.boost, ref))
    requires Limits(c, After(c, s, os), o.op)
    ensures var u := After(c, s, os);
            var t, sampled := Step(c, u, o.op), NextSampled(c, u, o, Sampled(c, s, os, ref));
            Converting(sampled)
            && (t.dcm && t.manual < 0 ==>
                  BelowCrossing(c, t, t.rectMax, ZeroCrossing(c.boost, sampled))
                  && BelowCrossing(c, t, t.rect, ZeroCrossing(c.boost, sampled)))
    decreases |os|
  {
    hide Step, BelowCrossing, ZeroCrossing, Limits, Holds, NextSampled;
    if os == [] { DriftStep(c, s, o, ref); } else {
      assert os[0] in os;
      DriftStep(c, s, os[0], ref);
      DriftEmulates(c, Step(c, s, os[0].op), os[1..], o, NextSampled(c, s, os[0], ref));
    }
  }

  /** What a stale ratio costs: a count within one of the sampled plant's crossing is past the present
      one by at most one count and what the crossing has moved down since, per control count. */
  lemma StaleRatioCost(c: Config, s: Conv, count: nat, sampled: Plant, now: Plant)
    requires Converting(sampled) && Converting(now) && BelowCrossing(c, s, count, ZeroCrossing(c.boost, sampled))
    ensures var moved := MaxR(0.0, ZeroCrossing(c.boost, sampled) - ZeroCrossing(c.boost, now));
            count <= c.rectMin
            || count as real <= Counts(s.ctrl, ZeroCrossing(c.boost, now)) + 1.0 + Counts(s.ctrl, moved)
  {
    hide ZeroCrossing;
    var x, y := ZeroCrossing(c.boost, sampled), ZeroCrossing(c.boost, now);
    CountsAdd(s.ctrl, y, MaxR(0.0, x - y));
    CountsMonotone(s.ctrl, x, y + MaxR(0.0, x - y));
    hide Counts;
  }

  lemma CountsAdd(ctrl: nat, a: real, b: real)
    ensures Counts(ctrl, a + b) == Counts(ctrl, a) + Counts(ctrl, b)
  {
  }
}
