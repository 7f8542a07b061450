/** Register writes of the LEDC driver with InEn gate logic. `inn` is the duty of the control channel,
    `en` that of the rectifier channel; on a buck board they drive IN and EN, so the control switch
    conducts on [0, inn) and the rectifier, the "low side" of the source, on [inn, en). A boost board
    swaps the two pins (src/buck.h:489-490); there the results are about the channels only. Every commit
    is a sequence of single-register writes, each of which the hardware can act on. */
module ConverterCommit {
  import opened Numbers
  import opened Converter
  import opened ConverterWindow

  datatype Regs = Regs(inn: nat, en: nat)

  function LowSideTime(r: Regs): nat {
    if r.en > r.inn then r.en - r.inn else 0
  }

  function Settled(s: Conv): Regs { Regs(s.ctrl, s.ctrl + s.rect) }

  /** Register states that drvCommit goes through, in order. */
  function CommitTrace(before: Regs, ctrl: nat, rect: nat, larger: bool, direction: int): seq<Regs> {
    if larger then
      [Regs(before.inn, 0), Regs(ctrl, 0), Regs(ctrl, ctrl + rect)]
    else if direction < 0 then
      [Regs(before.inn, ctrl + rect), Regs(ctrl, ctrl + rect)]
    else
      [Regs(ctrl, before.en), Regs(ctrl, ctrl + rect)]
  }

  function PerturbTrace(c: Config, s: Conv, d: int): seq<Regs>
    requires ValidConfig(c)
  {
    var t := Perturb(c, s, d);
    CommitTrace(Settled(s), t.ctrl, t.rect, LargerDecrease(c, d), d)
  }

  /** Register states that one operation goes through; empty if it commits nothing. */
  function OpTrace(c: Config, s: Conv, op: Op): seq<Regs>
    requires ValidConfig(c)
  {
    var t := Step(c, s, op);
    match op
    case OpPerturb(d) => PerturbTrace(c, s, d)
    case OpFractional(f) =>
      if InRange(c, f) && IntStep(s, f.r) != 0 then PerturbTrace(c, s.(frac := 0.0), IntStep(s, f.r)) else []
    case OpDisable => [Regs(0, s.ctrl + s.rect), Regs(0, 0)]
    case OpManualRect(ls) => if ls >= 0 then [Settled(t)] else []
    case OpUpdateMax(_) => if t.rect < s.rect then [Settled(t)] else []
    case OpEnableSyncRect(_, _) => if t.rect < s.rect then [Settled(t)] else []
    case OpSyncRectMin => if t.rect < s.rect then [Settled(t)] else []
    case _ => []
  }

  ghost predicate Bounded(trace: seq<Regs>, bound: nat) {
    forall r :: r in trace ==> LowSideTime(r) <= bound
  }

  /** Two-write and three-write commits keep the low side within the larger of its old and new
      on-time, in every intermediate register state. The one exception is exact: a small negative
      perturbation of a disabled converter that does not lower the low side raises EN before IN. */
  lemma CommitBoundedExactly(c: Config, s: Conv, d: int)
    requires ValidConfig(c) && s.ctrl <= c.ctrlMax
    ensures Bounded(PerturbTrace(c, s, d), MaxI(s.rect, Perturb(c, s, d).rect))
            <==> !(s.ctrl == 0 && d < 0 && !LargerDecrease(c, d) && Perturb(c, s, d).rect >= s.rect)
  {
    hide Perturb, CommitTrace;
    PerturbMovesCtrl(c, s, d);
    if s.ctrl == 0 && d < 0 && !LargerDecrease(c, d) {
      BackwardsTrace(c, s, d);
      var trace := PerturbTrace(c, s, d);
      assert trace[0] in trace;
    } else { CommitBounded(c, s, d); }
  }

  lemma PerturbMovesCtrl(c: Config, s: Conv, d: int)
    requires ValidConfig(c)
    ensures Perturb(c, s, d).ctrl == Constrain(s.ctrl + d, CTRL_MIN, c.ctrlMax)
  {
    hide Limit, Fade, HeldRect;
  }

  lemma BackwardsTrace(c: Config, s: Conv, d: int)
    requires ValidConfig(c) && s.ctrl == 0 && d < 0 && !LargerDecrease(c, d)
    ensures PerturbTrace(c, s, d) == [Regs(0, 1 + Perturb(c, s, d).rect), Regs(1, 1 + Perturb(c, s, d).rect)]
  {
    PerturbMovesCtrl(c, s, d);
    hide Perturb;
  }

  lemma CommitBounded(c: Config, s: Conv, d: int)
    requires ValidConfig(c) && s.ctrl <= c.ctrlMax
    requires s.ctrl > 0 || d >= 0 || LargerDecrease(c, d)
    ensures Bounded(PerturbTrace(c, s, d), MaxI(s.rect, Perturb(c, s, d).rect))
  {
    hide Perturb, LargerDecrease;
    PerturbMovesCtrl(c, s, d);
  }

  /** Shutting down stops IN before EN, so for the time between the two writes the low side conducts
      for the whole EN window; it stays within its old on-time only if the converter was off. */
  lemma ShutdownBoundedExactly(c: Config, s: Conv)
    requires ValidConfig(c)
    ensures Bounded(OpTrace(c, s, OpDisable), s.ctrl + s.rect)
    ensures Bounded(OpTrace(c, s, OpDisable), s.rect) <==> s.ctrl == 0
  {
    var trace := OpTrace(c, s, OpDisable);
    assert trace[0] in trace;
  }

  /** A step that takes a disabled converter out of its state through the wrong branch. */
  ghost predicate StartsBackwards(s: Conv, op: Op) {
    s.ctrl == 0
    && match op
       case OpPerturb(d) => d < 0
       case OpFractional(f) => f.Num? && IntStep(s, f.r) < 0
       case _ => false
  }

  lemma StepCommitsBounded(c: Config, s: Conv, op: Op)
    requires ValidConfig(c) && Duty(c, s)
    requires !StartsBackwards(s, op) && (op.OpDisable? ==> s.ctrl == 0)
    ensures Bounded(OpTrace(c, s, op), MaxI(s.rect, Step(c, s, op).rect))
    ensures OpTrace(c, s, op) != [] ==> OpTrace(c, s, op)[|OpTrace(c, s, op)| - 1] == Settled(Step(c, s, op))
    ensures OpTrace(c, s, op) == [] ==> Settled(s) == Settled(Step(c, s, op))
  {
    hide Perturb, IntStep, UpdateMaxDuty, LargerDecrease, SetManualRect, EnableSyncRect, SyncRectMinDuty;
    match op
    case OpPerturb(d) => CommitBounded(c, s, d);
    case OpFractional(f) =>
      if InRange(c, f) && IntStep(s, f.r) != 0 {
        CommitBounded(c, s.(frac := 0.0), IntStep(s, f.r));
      }
    case OpUpdateMax(m) => UpdateMaxOnlyClamps(c, s, m);
    case _ => RectCommitsBounded(c, s, op);
  }

  lemma RectCommitsBounded(c: Config, s: Conv, op: Op)
    requires ValidConfig(c) && !op.OpPerturb? && !op.OpFractional? && !op.OpUpdateMax?
    requires op.OpDisable? ==> s.ctrl == 0
    ensures Bounded(OpTrace(c, s, op), MaxI(s.rect, Step(c, s, op).rect))
    ensures OpTrace(c, s, op) != [] ==> OpTrace(c, s, op)[|OpTrace(c, s, op)| - 1] == Settled(Step(c, s, op))
    ensures OpTrace(c, s, op) == [] ==> Settled(s) == Settled(Step(c, s, op))
  {
    hide Perturb, PerturbFractional, UpdateMaxDuty, PerturbTrace, IntStep, U16;
  }

  lemma UpdateMaxOnlyClamps(c: Config, s: Conv, m: Meas)
    requires ValidConfig(c)
    ensures UpdateMaxDuty(c, s, m).ctrl == s.ctrl && UpdateMaxDuty(c, s, m).rect <= s.rect
  {
    hide Limit, WorstCaseRatio, RectCtrlRatio, ComputeDcm;
  }

  /** All runs: after any sequence of operations the registers show the settled duty, and the next
      commit keeps every intermediate state within the old or the new low-side time. */
  lemma RunCommitsBounded(c: Config, s: Conv, ops: seq<Op>, op: Op)
    requires ValidConfig(c) && Duty(c, s)
    requires var r := Run(c, s, ops); !StartsBackwards(r, op) && (op.OpDisable? ==> r.ctrl == 0)
    ensures var r := Run(c, s, ops); Bounded(OpTrace(c, r, op), MaxI(r.rect, Step(c, r, op).rect))
  {
    RunKeepsDuty(c, s, ops);
    StepCommitsBounded(c, Run(c, s, ops), op);
  }
}
