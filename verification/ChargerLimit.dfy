/** The voltage limit after any run of the charger, exactly: what Vout_max() is in each regime, from the
    readings and their history. */
module ChargerLimit {
  import opened Numbers
  import opened Charger
  import opened ChargerPinning
  import ChargerRuns

  /** What a reading calls for: without authority over the bus yield to it, low when the pack is full; with
      authority regulate on the highest cell, float a full pack, charge any other; without battery data fall
      back, if there is a fallback voltage. */
  datatype Regime = YieldLow | YieldHigh | Regulate | Floating | Lost | Bulk

  function RegimeOf(p: Params, i: PinIn): Regime {
    if i.dataOk && !i.authority then (if i.terminated then YieldLow else YieldHigh)
    else if i.dataOk && i.vcell >= i.vEoc then Regulate
    else if i.dataOk && i.terminated then Floating
    else if !i.dataOk && p.vbatFallback >= 0.0 then Lost
    else Bulk
  }

  /** A pin counts only between 0 and the pack maximum. */
  function Clip(p: Params, v: real): real { if 0.0 < v < p.vbatMax then v else p.vbatMax }

  // ---- ramps ---------------------------------------------------------------------------------

  /** Five seconds from one voltage to another. */
  datatype Ramp = Ramp(at: nat, from: real, to: real)

  function RampValue(r: Ramp, now: nat): real {
    var dt := U64(now - r.at);
    if dt >= 5000000 then r.to else r.from + (r.to - r.from) * (dt as real / 5000000.0)
  }

  /** Voltage a ramp starts from. */
  function StartOf(p: Params, pin: Float): real { if pin.Num? then pin.r else p.vbatFallback }

  predicate Changes(ops: seq<Op>, i: PinIn) { i.terminated != SeenLatched(ops) }

  /** The ramp of the last change of the latch that was not met without authority. */
  function LastRamp(p: Params, s0: Pin, ops: seq<Op>): Option<Ramp>
    decreases |ops|
  {
    if ops == [] then None
    else
      var pre, op := ops[..|ops| - 1], ops[|ops| - 1];
      if op.Update? && (op.i.authority || !op.i.dataOk) && Changes(pre, op.i)
      then Some(Ramp(op.i.now, StartOf(p, Run(p, s0, pre).pin), if op.i.terminated then p.vbatFallback else p.vbatMax))
      else LastRamp(p, s0, pre)
  }

  /** It is still being followed: only floating and charging updates since. A ramp that starts when the clock
      reads 0 is not. */
  predicate Riding(p: Params, ops: seq<Op>)
    decreases |ops|
  {
    ops != []
    && var pre, op := ops[..|ops| - 1], ops[|ops| - 1];
       op.Update? && RegimeOf(p, op.i) in {Floating, Bulk}
       && if Changes(pre, op.i) then op.i.now != 0 else Riding(p, pre)
  }

  /** The ramp of an outage of the battery data that still lasts. */
  function Outage(p: Params, s0: Pin, ops: seq<Op>): Option<Ramp>
    decreases |ops|
  {
    if ops == [] then None
    else
      var pre, op := ops[..|ops| - 1], ops[|ops| - 1];
      if !op.Update? || RegimeOf(p, op.i) != Lost then None
      else
        var before := Outage(p, s0, pre);
        if before.Some? && before.value.at != 0 then before
        else Some(Ramp(op.i.now, StartOf(p, Run(p, s0, pre).pin), p.vbatFallback))
  }

  // ---- regulation ----------------------------------------------------------------------------

  /** Battery frame that was regulated on last. */
  function UsedFrame(p: Params, ops: seq<Op>): nat
    decreases |ops|
  {
    if ops == [] then 0
    else
      var op := ops[|ops| - 1];
      if op.Update? && RegimeOf(p, op.i) == Regulate then op.i.frame else UsedFrame(p, ops[..|ops| - 1])
  }

  /** In the regulation going on, some frame has moved the pin already. */
  predicate Moved(p: Params, s0: Pin, ops: seq<Op>)
    decreases |ops|
  {
    ops != []
    && var pre, op := ops[..|ops| - 1], ops[|ops| - 1];
       op.Update? && RegimeOf(p, op.i) == Regulate
       && (op.i.frame != UsedFrame(p, pre) || Run(p, s0, pre).pin == NaN || Moved(p, s0, pre))
  }

  // ---- the history in the state --------------------------------------------------------------

  ghost predicate GlideIs(g: Glide, r: Option<Ramp>, active: bool) {
    g.path == (if r == None then None else Some((r.value.from, r.value.to)))
    && g.startUs == if active && r.Some? then r.value.at else 0
  }

  ghost predicate Remembers(p: Params, s0: Pin, ops: seq<Op>, s: Pin) {
    && s.wasTerminated == SeenLatched(ops)
    && GlideIs(s.floatGlide, LastRamp(p, s0, ops), Riding(p, ops))
    && (if Outage(p, s0, ops) == None then s.fallbackGlide.startUs == 0
        else GlideIs(s.fallbackGlide, Outage(p, s0, ops), true))
    && s.lastFrame == UsedFrame(p, ops)
    && (s.filt != NaN <==> Moved(p, s0, ops))
  }

  lemma UpdateRemembers(p: Params, s0: Pin, ops: seq<Op>, s: Pin, i: PinIn)
    requires s == Run(p, s0, ops) && Remembers(p, s0, ops, s)
    ensures Remembers(p, s0, ops + [Update(i)], PinUpdate(p, s, i))
  {
    hide GlideValue, Base, Overshoot, Run;
    var all := ops + [Update(i)];
    assert all[..|all| - 1] == ops;
    FeedbackFills(p, OnLatchChange(p, s, i), i);
  }

  lemma FeedbackFills(p: Params, s: Pin, i: PinIn)
    ensures Smooth(s.filt, RawPin(p, s, i)) != NaN
  {
    hide Overshoot, Floor;
  }

  lemma ReleaseRemembers(p: Params, s0: Pin, ops: seq<Op>, s: Pin)
    requires s == Run(p, s0, ops) && Remembers(p, s0, ops, s)
    ensures Remembers(p, s0, ops + [ReleaseVoutPinning], Release(p, s))
  {
    var all := ops + [ReleaseVoutPinning];
    assert all[..|all| - 1] == ops;
  }

  lemma {:induction false} RunRemembers(p: Params, s0: Pin, ops: seq<Op>)
    requires Initial(p, s0)
    ensures Remembers(p, s0, ops, Run(p, s0, ops))
    decreases |ops|
  {
    if ops != [] {
      var pre := ops[..|ops| - 1];
      RunRemembers(p, s0, pre);
      assert ops == pre + [ops[|ops| - 1]];
      hide Remembers, PinUpdate, Release;
      match ops[|ops| - 1]
      case Update(i) => UpdateRemembers(p, s0, pre, Run(p, s0, pre), i);
      case ReleaseVoutPinning => ReleaseRemembers(p, s0, pre, Run(p, s0, pre));
    }
  }

  // ---- the limit -----------------------------------------------------------------------------

  /** The ramp that is being followed after a run. */
  function Followed(p: Params, s0: Pin, ops: seq<Op>): Option<Ramp> {
    if Riding(p, ops) then LastRamp(p, s0, ops) else None
  }

  /** A ramp that is no longer followed counts from time 0: beyond the first five seconds of the clock it is at
      its end. */
  function FloatValue(p: Params, s0: Pin, ops: seq<Op>, now: nat): Option<real> {
    match LastRamp(p, s0, ops)
    case None => None
    case Some(r) => Some(RampValue(if Riding(p, ops) then r else r.(at := 0), now))
  }

  lemma GlideIsRamp(g: Glide, r: Ramp, now: nat)
    requires g.path == Some((r.from, r.to)) && g.startUs == r.at
    ensures GlideValue(g, now) == Num(RampValue(r, now))
  {
    hide U64;
    var x := U64(now - r.at) as real / 5000000.0;
    OnTheWay(r.from, r.to, x);
    hide Between;
  }

  lemma OnTheWay(a: real, b: real, x: real)
    ensures Between(a, b, x) == a + (b - a) * x
  {
  }

  lemma VoutMaxIsClip(p: Params, s: Pin)
    ensures VoutMax(p, s) == if s.pin.Num? then Clip(p, s.pin.r) else p.vbatMax
  {
  }

  /** The exact limit after any run, regime by regime. */
  lemma LimitExactly(p: Params, s0: Pin, ops: seq<Op>, i: PinIn)
    requires ValidParams(p) && Initial(p, s0)
    ensures var all, s := ops + [Update(i)], Run(p, s0, ops);
            var v, regime := VoutMax(p, Run(p, s0, all)), RegimeOf(p, i);
            && (regime == YieldLow ==> v == Clip(p, p.vbatFallback - p.offsetMax))
            && (regime == YieldHigh ==> v == p.vbatMax)
            && (regime == Floating ==>
                  var f := FloatValue(p, s0, all, i.now); v == if f == None then p.vbatMax else Clip(p, f.value))
            && (regime == Bulk ==>
                  var f := Followed(p, s0, all); v == if f == None then p.vbatMax else Clip(p, RampValue(f.value, i.now)))
            && (regime == Lost ==>
                  var o := Outage(p, s0, all); o.Some? && v == Clip(p, RampValue(o.value, i.now)))
            && (regime == Regulate ==>
                  var e, floor := (i.vcell - i.vEoc) * p.nCells as real, p.vbatFallback - p.offsetMax;
                  if i.frame == UsedFrame(p, ops) && s.pin != NaN then v == VoutMax(p, s)
                  else if s.pin.Num? then
                    v == Clip(p, s.pin.r - (if Moved(p, s0, ops) then 0.4 else 1.0) * MinR(e, s.pin.r - floor))
                  else if Moved(p, s0, ops) || i.voutAvg == None then v == p.vbatMax
                  else v == Clip(p, MaxR(i.voutAvg.value - e, floor)))
  {
    hide PinUpdate, Remembers, VoutMax;
    var all, s := ops + [Update(i)], Run(p, s0, ops);
    PinSnoc(p, s0, ops, Update(i));
    RunRemembers(p, s0, ops);
    RunRemembers(p, s0, all);
    RunKeepsInv(p, s0, ops);
    var t := PinUpdate(p, s, i);
    VoutMaxIsClip(p, s);
    VoutMaxIsClip(p, t);
    match RegimeOf(p, i)
    case YieldLow => YieldPin(p, s, i);
    case YieldHigh => YieldPin(p, s, i);
    case Floating => FloatingPin(p, s0, ops, i);
    case Bulk => BulkPin(p, s0, ops, i);
    case Lost => LostPin(p, s0, ops, i);
    case Regulate => RegulatePin(p, s, i); RemembersFilter(p, s0, ops, s);
  }

  lemma PinSnoc(p: Params, s0: Pin, ops: seq<Op>, op: Op)
    ensures Run(p, s0, ops + [op]) == Step(p, Run(p, s0, ops), op)
  {
    assert (ops + [op])[..|ops|] == ops;
  }

  lemma RemembersFilter(p: Params, s0: Pin, ops: seq<Op>, s: Pin)
    requires Remembers(p, s0, ops, s)
    ensures s.lastFrame == UsedFrame(p, ops) && (s.filt != NaN <==> Moved(p, s0, ops))
  {
  }

  lemma YieldPin(p: Params, s: Pin, i: PinIn)
    requires RegimeOf(p, i) in {YieldLow, YieldHigh}
    ensures PinUpdate(p, s, i).pin == Num(if RegimeOf(p, i) == YieldLow then p.vbatFallback - p.offsetMax else p.vbatMax)
  {
  }

  lemma FloatingPin(p: Params, s0: Pin, ops: seq<Op>, i: PinIn)
    requires RegimeOf(p, i) == Floating
    requires var all := ops + [Update(i)]; Remembers(p, s0, all, PinUpdate(p, Run(p, s0, ops), i))
    ensures var f := FloatValue(p, s0, ops + [Update(i)], i.now);
            PinUpdate(p, Run(p, s0, ops), i).pin == if f == None then NaN else Num(f.value)
  {
    hide LastRamp, Riding, Run, RampValue;
    var all, t := ops + [Update(i)], PinUpdate(p, Run(p, s0, ops), i);
    hide GlideValue;
    assert t.pin == GlideValue(t.floatGlide, i.now);
    NoPath(t.floatGlide, i.now);
    var r := LastRamp(p, s0, all);
    if r.Some? { GlideIsRamp(t.floatGlide, if Riding(p, all) then r.value else r.value.(at := 0), i.now); }
  }

  lemma NoPath(g: Glide, now: nat)
    ensures g.path == None ==> GlideValue(g, now) == NaN
  {
  }

  lemma BulkPin(p: Params, s0: Pin, ops: seq<Op>, i: PinIn)
    requires RegimeOf(p, i) == Bulk
    requires var all := ops + [Update(i)]; Remembers(p, s0, all, PinUpdate(p, Run(p, s0, ops), i))
    ensures var f := Followed(p, s0, ops + [Update(i)]);
            PinUpdate(p, Run(p, s0, ops), i).pin == Num(if f == None then p.vbatMax else RampValue(f.value, i.now))
  {
    hide LastRamp, Riding, Run, RampValue, GlideValue;
    var all, t := ops + [Update(i)], PinUpdate(p, Run(p, s0, ops), i);
    assert t.pin == if GlideActive(t.floatGlide) then GlideValue(t.floatGlide, i.now) else Num(p.vbatMax);
    RidingRamps(p, s0, all);
    var r := LastRamp(p, s0, all);
    if r.Some? { GlideIsRamp(t.floatGlide, if Riding(p, all) then r.value else r.value.(at := 0), i.now); }
  }

  /** A ramp is followed only if there is one, and its start was not at time 0. */
  lemma {:induction false} RidingRamps(p: Params, s0: Pin, ops: seq<Op>)
    ensures Riding(p, ops) ==> LastRamp(p, s0, ops).Some? && LastRamp(p, s0, ops).value.at != 0
    decreases |ops|
  {
    hide Run;
    if ops != [] { RidingRamps(p, s0, ops[..|ops| - 1]); }
  }

  lemma LostPin(p: Params, s0: Pin, ops: seq<Op>, i: PinIn)
    requires RegimeOf(p, i) == Lost
    requires var all := ops + [Update(i)]; Remembers(p, s0, all, PinUpdate(p, Run(p, s0, ops), i))
    ensures var o := Outage(p, s0, ops + [Update(i)]);
            o.Some? && PinUpdate(p, Run(p, s0, ops), i).pin == Num(RampValue(o.value, i.now))
  {
    hide Run, RampValue, GlideValue, LastRamp, Riding;
    var all, t := ops + [Update(i)], PinUpdate(p, Run(p, s0, ops), i);
    assert all[..|all| - 1] == ops;
    assert t.pin == GlideValue(t.fallbackGlide, i.now);
    GlideIsRamp(t.fallbackGlide, Outage(p, s0, all).value, i.now);
  }

  lemma RegulatePin(p: Params, s: Pin, i: PinIn)
    requires ValidParams(p) && PinInv(p, s) && RegimeOf(p, i) == Regulate
    ensures var t, e, floor := PinUpdate(p, s, i).pin, (i.vcell - i.vEoc) * p.nCells as real, p.vbatFallback - p.offsetMax;
            if i.frame == s.lastFrame && s.pin != NaN then t == s.pin
            else if s.pin.Num? then
              t == Num(s.pin.r - (if s.filt != NaN then 0.4 else 1.0) * MinR(e, s.pin.r - floor))
            else if s.filt != NaN || i.voutAvg == None then t == PosInf
            else t == Num(MaxR(i.voutAvg.value - e, floor))
  {
    hide PinUpdate, Overshoot;
    OvershootIs(p, i);
    if s.pin.Num? { FeedbackMove(p, s, i); } else { FirstPin(p, s, i); }
  }

  lemma OvershootIs(p: Params, i: PinIn)
    ensures Overshoot(p, i) == (i.vcell - i.vEoc) * p.nCells as real
  {
  }

  lemma FirstPin(p: Params, s: Pin, i: PinIn)
    requires ValidParams(p) && PinInv(p, s) && RegimeOf(p, i) == Regulate && !s.pin.Num?
    ensures var t, floor := PinUpdate(p, s, i).pin, p.vbatFallback - p.offsetMax;
            if i.frame == s.lastFrame && s.pin != NaN then t == s.pin
            else if s.filt != NaN || i.voutAvg == None then t == PosInf
            else t == Num(MaxR(i.voutAvg.value - Overshoot(p, i), floor))
  {
    hide GlideValue, Overshoot;
  }

  // ---- what it comes to ----------------------------------------------------------------------

  predicate Settled(r: Option<Ramp>, now: nat) { r == None || U64(now - r.value.at) >= 5000000 }

  /** A pack that is being charged gets the full voltage once five seconds have passed since the last change
      of the latch. */
  lemma BulkSettles(p: Params, s0: Pin, ops: seq<Op>, i: PinIn)
    requires ValidParams(p) && Initial(p, s0) && RegimeOf(p, i) == Bulk
    requires Settled(LastRamp(p, s0, ops + [Update(i)]), i.now)
    ensures VoutMax(p, Run(p, s0, ops + [Update(i)])) == p.vbatMax
  {
    hide Run, LastRamp, Riding;
    var all := ops + [Update(i)];
    LimitExactly(p, s0, ops, i);
    if Riding(p, all) { RidingTarget(p, s0, all); }
    LatchOfUpdate(ops, i);
  }

  lemma LatchOfUpdate(ops: seq<Op>, i: PinIn)
    ensures SeenLatched(ops + [Update(i)]) == i.terminated
  {
  }

  /** A ramp that is followed leads to the target of the present latch. */
  lemma {:induction false} RidingTarget(p: Params, s0: Pin, ops: seq<Op>)
    requires Riding(p, ops)
    ensures var r := LastRamp(p, s0, ops);
            r.Some? && r.value.to == if SeenLatched(ops) then p.vbatFallback else p.vbatMax
    decreases |ops|
  {
    hide Run;
    var pre := ops[..|ops| - 1];
    if !Changes(pre, ops[|ops| - 1].i) { RidingTarget(p, s0, pre); }
  }

  /** A pack that was never taken for full always gets it. */
  lemma NeverFullIsBulk(p: Params, s0: Pin, ops: seq<Op>, i: PinIn)
    requires ValidParams(p) && Initial(p, s0) && RegimeOf(p, i) == Bulk
    requires !i.terminated && forall op :: op in ops && op.Update? ==> !op.i.terminated
    ensures VoutMax(p, Run(p, s0, ops + [Update(i)])) == p.vbatMax
  {
    var all := ops + [Update(i)];
    NoRamp(p, s0, all);
    BulkSettles(p, s0, ops, i);
    hide Run, LastRamp;
  }

  lemma {:induction false} NoRamp(p: Params, s0: Pin, ops: seq<Op>)
    requires forall op :: op in ops && op.Update? ==> !op.i.terminated
    ensures LastRamp(p, s0, ops) == None && !SeenLatched(ops)
    decreases |ops|
  {
    hide Run;
    if ops != [] {
      assert ops[|ops| - 1] in ops;
      NoRamp(p, s0, ops[..|ops| - 1]);
    }
  }

  /** An outage of the battery data ends at the fallback voltage. */
  lemma OutageSettles(p: Params, s0: Pin, ops: seq<Op>, i: PinIn)
    requires ValidParams(p) && Initial(p, s0) && RegimeOf(p, i) == Lost
    requires Settled(Outage(p, s0, ops + [Update(i)]), i.now)
    ensures VoutMax(p, Run(p, s0, ops + [Update(i)])) == Clip(p, p.vbatFallback)
  {
    hide Run;
    OutageTarget(p, s0, ops + [Update(i)]);
    LimitExactly(p, s0, ops, i);
    hide Outage, LastRamp, Riding, Moved;
  }

  lemma {:induction false} OutageTarget(p: Params, s0: Pin, ops: seq<Op>)
    ensures Outage(p, s0, ops).Some? ==> Outage(p, s0, ops).value.to == p.vbatFallback
    decreases |ops|
  {
    hide Run;
    if ops != [] { OutageTarget(p, s0, ops[..|ops| - 1]); }
  }

  lemma Regulated(p: Params, s0: Pin, ops: seq<Op>, i: PinIn, e: real)
    requires ValidParams(p) && Initial(p, s0) && RegimeOf(p, i) == Regulate && Run(p, s0, ops).pin.Num?
    requires e == (i.vcell - i.vEoc) * p.nCells as real
    ensures var s, v := Run(p, s0, ops), VoutMax(p, Run(p, s0, ops + [Update(i)]));
            var drop := MinR(e, s.pin.r - (p.vbatFallback - p.offsetMax));
            v == if i.frame == UsedFrame(p, ops) then VoutMax(p, s)
                 else Clip(p, s.pin.r - (if Moved(p, s0, ops) then 0.4 else 1.0) * drop)
  {
    hide Run, UsedFrame, Moved, LastRamp, Riding, Outage, VoutMax, Clip;
    LimitExactly(p, s0, ops, i);
  }

  /** Excess of the highest cell, as a pack voltage. */
  function CellError(p: Params, vcell: real, line: real): real { (vcell - line) * p.nCells as real }

  /** The same in short, once ramps have ended. */
  lemma SettledLimit(p: Params, s0: Pin, ops: seq<Op>, i: PinIn, e: real)
    requires ValidParams(p) && Initial(p, s0) && e == (i.vcell - i.vEoc) * p.nCells as real
    ensures var s, all := Run(p, s0, ops), ops + [Update(i)];
            var v := VoutMax(p, Run(p, s0, all));
            && (i.dataOk && !i.authority ==> v == if i.terminated then Clip(p, p.vbatFallback - p.offsetMax) else p.vbatMax)
            && (i.dataOk && i.authority && i.vcell < i.vEoc && !i.terminated && Settled(LastRamp(p, s0, all), i.now) ==>
                  v == p.vbatMax)
            && (!i.dataOk && p.vbatFallback >= 0.0 && Settled(Outage(p, s0, all), i.now) ==> v == Clip(p, p.vbatFallback))
            && (i.dataOk && i.authority && i.vcell >= i.vEoc && s.pin.Num? ==>
                  var drop := MinR(e, s.pin.r - (p.vbatFallback - p.offsetMax));
                  v == if i.frame == UsedFrame(p, ops) then VoutMax(p, s)
                       else Clip(p, s.pin.r - (if Moved(p, s0, ops) then 0.4 else 1.0) * drop))
  {
    hide Run, UsedFrame, Moved, LastRamp, Riding, Outage, VoutMax, Clip, Settled;
    if RegimeOf(p, i) == Regulate && Run(p, s0, ops).pin.Num? { Regulated(p, s0, ops, i, e); }
    if RegimeOf(p, i) in {YieldLow, YieldHigh} { LimitExactly(p, s0, ops, i); }
    if RegimeOf(p, i) == Bulk && Settled(LastRamp(p, s0, ops + [Update(i)]), i.now) { BulkSettles(p, s0, ops, i); }
    if RegimeOf(p, i) == Lost && Settled(Outage(p, s0, ops + [Update(i)]), i.now) { OutageSettles(p, s0, ops, i); }
  }

  /** The whole charger: the limit that an update leaves, from its reading, the latch and the line that the
      same update has just evaluated, and the history. */
  lemma LimitOfReading(p: Params, c0: Counter, pin0: Pin, es: seq<ChargerRuns.Event>, r: Reading)
    requires ValidParams(p) && Initial(p, pin0)
    ensures var s0 := ChargerRuns.Begin(p, c0, pin0);
            var s, ops := ChargerRuns.Run(p, s0, es), ChargerRuns.PinOps(p, s0, es);
            var t := ChargerRuns.Step(p, s, ChargerRuns.Update(r));
            var full, v, data := t.pack.term.latched, VoutMax(p, t.pin), r.vcell.Some? && p.cbat.Some?;
            var line := MinR(p.cvEoc, t.pack.term.vTerm);
            var all := ops + [Update(Seen(p, t.pack.term, r))];
            && (data && !r.authority ==> v == if full then Clip(p, p.vbatFallback - p.offsetMax) else p.vbatMax)
            && (data && r.authority && r.vcell.value < line && !full && Settled(LastRamp(p, pin0, all), r.now) ==>
                  v == p.vbatMax)
            && (!data && p.vbatFallback >= 0.0 && Settled(Outage(p, pin0, all), r.now) ==> v == Clip(p, p.vbatFallback))
            && (data && r.authority && r.vcell.value >= line && s.pin.pin.Num? ==>
                  var drop := MinR(CellError(p, r.vcell.value, line),
                                   s.pin.pin.r - (p.vbatFallback - p.offsetMax));
                  v == if r.frame == UsedFrame(p, ops) then VoutMax(p, s.pin)
                       else Clip(p, s.pin.pin.r - (if Moved(p, pin0, ops) then 0.4 else 1.0) * drop))
  {
    hide Run, LastRamp, Riding, Outage, Moved, UsedFrame, VoutMax, Clip, Settled, PinUpdate, CellError,
      ChargerRuns.Evaluated, ChargerRuns.Run, ChargerRuns.PinOps;
    var s0 := ChargerRuns.Begin(p, c0, pin0);
    var s, ops := ChargerRuns.Run(p, s0, es), ChargerRuns.PinOps(p, s0, es);
    ChargerRuns.RunComposes(p, c0, pin0, es);
    var t := ChargerRuns.Step(p, s, ChargerRuns.Update(r));
    var i := Seen(p, t.pack.term, r);
    PinSnoc(p, pin0, ops, Update(i));
    SettledReading(p, pin0, ops, t.pack.term, r);
  }

  lemma SettledReading(p: Params, s0: Pin, ops: seq<Op>, t: Term, r: Reading)
    requires ValidParams(p) && Initial(p, s0)
    ensures var i, s := Seen(p, t, r), Run(p, s0, ops);
            var all, data, line := ops + [Update(i)], r.vcell.Some? && p.cbat.Some?, MinR(p.cvEoc, t.vTerm);
            var v := VoutMax(p, Run(p, s0, all));
            && (data && !r.authority ==> v == if t.latched then Clip(p, p.vbatFallback - p.offsetMax) else p.vbatMax)
            && (data && r.authority && r.vcell.value < line && !t.latched && Settled(LastRamp(p, s0, all), r.now) ==>
                  v == p.vbatMax)
            && (!data && p.vbatFallback >= 0.0 && Settled(Outage(p, s0, all), r.now) ==> v == Clip(p, p.vbatFallback))
            && (data && r.authority && r.vcell.value >= line && s.pin.Num? ==>
                  var drop := MinR(CellError(p, r.vcell.value, line),
                                   s.pin.r - (p.vbatFallback - p.offsetMax));
                  v == if r.frame == UsedFrame(p, ops) then VoutMax(p, s)
                       else Clip(p, s.pin.r - (if Moved(p, s0, ops) then 0.4 else 1.0) * drop))
  {
    hide Run, LastRamp, Riding, Outage, Moved, UsedFrame, VoutMax, Clip, Settled;
    var line := MinR(p.cvEoc, t.vTerm);
    var i := Seen(p, t, r);
    SettledLimit(p, s0, ops, i, CellError(p, i.vcell, line));
  }
}
