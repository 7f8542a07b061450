/** Error feedback conserves: rounding the low-side limit and truncating fractional steps lose
    nothing over any number of computations, because the remainder is carried. */
module ConverterFeedback {
  import opened Numbers
  import opened Converter
  import opened ConverterWindow

  // ---- dithered DCM limit --------------------------------------------------------------------

  /** One DCM limit computation: the ideal count and the whole count it was rounded to. */
  datatype Rounding = Rounding(ideal: real, count: int)

  function RoundingOf(s: Conv): seq<Rounding> {
    if s.manual < 0 && s.dcm then [Rounding(DcmIdeal(s), DcmRounded(s))] else []
  }

  /** The DCM limit computation an operation performs, if it performs one. */
  function OpRoundings(c: Config, s: Conv, op: Op): seq<Rounding>
    requires ValidConfig(c)
  {
    match op
    case OpPerturb(d) => RoundingOf(Limiting(c, s, d))
    case OpFractional(f) =>
      if InRange(c, f) && IntStep(s, f.r) != 0 then RoundingOf(Limiting(c, s, IntStep(s, f.r))) else []
    case OpUpdateMax(m) => RoundingOf(ComputeSyncRectRatio(c, s, HighSide(c, m), LowSide(c, m), m.il))
    case _ => []
  }

  function RunRoundings(c: Config, s: Conv, ops: seq<Op>): seq<Rounding>
    requires ValidConfig(c)
    decreases |ops|
  {
    if ops == [] then [] else OpRoundings(c, s, ops[0]) + RunRoundings(c, Step(c, s, ops[0]), ops[1..])
  }

  function SumIdeal(rs: seq<Rounding>): real {
    if rs == [] then 0.0 else rs[0].ideal + SumIdeal(rs[1..])
  }

  function SumCount(rs: seq<Rounding>): int {
    if rs == [] then 0 else rs[0].count + SumCount(rs[1..])
  }

  lemma {:induction false} SumsSplit(a: seq<Rounding>, b: seq<Rounding>)
    ensures SumIdeal(a + b) == SumIdeal(a) + SumIdeal(b)
    ensures SumCount(a + b) == SumCount(a) + SumCount(b)
  {
    if a == [] {
      assert a + b == b;
    } else {
      assert (a + b)[1..] == a[1..] + b;
      SumsSplit(a[1..], b);
    }
  }

  lemma LimitConserves(c: Config, s: Conv)
    requires s.manual < 0
    ensures SumCount(RoundingOf(s)) as real - SumIdeal(RoundingOf(s)) == s.dither - Limit(c, s).dither
  {
    hide DcmIdeal, DcmRounded;
  }

  lemma PerturbConserves(c: Config, s: Conv, d: int)
    requires ValidConfig(c)
    ensures var rs := RoundingOf(Limiting(c, s, d));
            SumCount(rs) as real - SumIdeal(rs) == s.dither - Perturb(c, s, d).dither
  {
    hide Fade, HeldRect, PresumesDcm;
    if s.manual < 0 {
      LimitConserves(c, Limiting(c, s, d));
    }
    hide Limit;
  }

  lemma StepConserves(c: Config, s: Conv, op: Op)
    requires ValidConfig(c)
    ensures var rs := OpRoundings(c, s, op);
            SumCount(rs) as real - SumIdeal(rs) == s.dither - Step(c, s, op).dither
  {
    hide Perturb, Limit, IntStep, SetManualRect, SumCount, SumIdeal, RoundingOf;
    assert SumCount([]) as real - SumIdeal([]) == 0.0 by { EmptySums(); }
    match op
    case OpPerturb(d) => PerturbConserves(c, s, d);
    case OpFractional(f) =>
      if InRange(c, f) && IntStep(s, f.r) != 0 {
        FractionIrrelevant(c, s, IntStep(s, f.r));
        PerturbConserves(c, s.(frac := 0.0), IntStep(s, f.r));
      }
    case OpUpdateMax(m) => UpdateMaxConserves(c, s, m);
    case OpManualRect(ls) => ManualKeepsDither(c, s, ls);
    case _ =>
  }

  lemma EmptySums()
    ensures SumCount([]) == 0 && SumIdeal([]) == 0.0
  {
  }

  lemma ManualKeepsDither(c: Config, s: Conv, ls: int)
    ensures SetManualRect(c, s, ls).dither == s.dither
  {
  }

  lemma FractionIrrelevant(c: Config, s: Conv, d: int)
    requires ValidConfig(c)
    ensures RoundingOf(Limiting(c, s.(frac := 0.0), d)) == RoundingOf(Limiting(c, s, d))
  {
    var u := Limiting(c, s, d);
    assert Limiting(c, s.(frac := 0.0), d) == u.(frac := 0.0);
    assert DcmIdeal(u.(frac := 0.0)) == DcmIdeal(u);
  }

  lemma UpdateMaxConserves(c: Config, s: Conv, m: Meas)
    requires ValidConfig(c)
    ensures var rs := OpRoundings(c, s, OpUpdateMax(m));
            SumCount(rs) as real - SumIdeal(rs) == s.dither - UpdateMaxDuty(c, s, m).dither
  {
    hide WorstCaseRatio, RectCtrlRatio, ComputeDcm, Limit;
    if s.manual < 0 {
      LimitConserves(c, ComputeSyncRectRatio(c, s, HighSide(c, m), LowSide(c, m), m.il));
    }
  }

  /** Over any run, the whole low-side counts issued in DCM add up to the sum of the ideal counts
      up to the two carries, so they differ from it by at most one count, however many there were. */
  lemma {:induction false} RunConserves(c: Config, s: Conv, ops: seq<Op>)
    requires ValidConfig(c)
    ensures var rs := RunRoundings(c, s, ops);
            SumCount(rs) as real - SumIdeal(rs) == s.dither - Run(c, s, ops).dither
    decreases |ops|
  {
    if ops != [] {
      StepConserves(c, s, ops[0]);
      RunConserves(c, Step(c, s, ops[0]), ops[1..]);
      hide Step;
      SumsSplit(OpRoundings(c, s, ops[0]), RunRoundings(c, Step(c, s, ops[0]), ops[1..]));
      hide OpRoundings;
    }
  }

  lemma DitherErrorAtMostOne(c: Config, s: Conv, ops: seq<Op>)
    requires ValidConfig(c) && Duty(c, s)
    ensures var rs := RunRoundings(c, s, ops);
            -1.0 <= SumCount(rs) as real - SumIdeal(rs) <= 1.0
            && -0.5 <= Run(c, s, ops).dither <= 0.5
  {
    RunConserves(c, s, ops);
    RunKeepsDuty(c, s, ops);
  }

  // ---- fractional perturbation ---------------------------------------------------------------

  function RunRequests(c: Config, s: Conv, fs: seq<Float>): Conv
    requires ValidConfig(c)
    decreases |fs|
  {
    if fs == [] then s else RunRequests(c, PerturbFractional(c, s, fs[0]), fs[1..])
  }

  /** Sum of the requests that were accepted. */
  function SumRequests(c: Config, fs: seq<Float>): real {
    if fs == [] then 0.0
    else (if InRange(c, fs[0]) then fs[0].r else 0.0) + SumRequests(c, fs[1..])
  }

  /** Sum of the whole steps handed to pwmPerturb. */
  function SumSteps(c: Config, s: Conv, fs: seq<Float>): int
    requires ValidConfig(c)
    decreases |fs|
  {
    if fs == [] then 0
    else (if InRange(c, fs[0]) then IntStep(s, fs[0].r) else 0)
         + SumSteps(c, PerturbFractional(c, s, fs[0]), fs[1..])
  }

  /** Over any sequence of requests, what was asked for equals what was stepped plus the change of
      the carried fraction, and that fraction stays strictly between -1 and 1. */
  lemma {:induction false} FractionsConserve(c: Config, s: Conv, fs: seq<Float>)
    requires ValidConfig(c) && -1.0 < s.frac < 1.0
    ensures SumRequests(c, fs) == SumSteps(c, s, fs) as real + RunRequests(c, s, fs).frac - s.frac
    ensures -1.0 < RunRequests(c, s, fs).frac < 1.0
    decreases |fs|
  {
    if fs != [] {
      if InRange(c, fs[0]) {
        IntStepIsTrunc(c, s, fs[0].r);
      }
      hide IntStep, InRange, Perturb;
      FractionsConserve(c, PerturbFractional(c, s, fs[0]), fs[1..]);
    }
  }
}
