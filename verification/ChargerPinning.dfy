/** Pack-voltage pinning over whole runs: the range of the voltage limit, the shape of an
    end-of-charge feedback episode, and where a terminated pack is floated. */
module ChargerPinning {
  import opened Numbers
  import opened Charger

  datatype Op = Update(i: PinIn) | ReleaseVoutPinning

  function Step(p: Params, s: Pin, op: Op): Pin {
    match op
    case Update(i) => PinUpdate(p, s, i)
    case ReleaseVoutPinning => Release(p, s)
  }

  /** beginMqtt() may preset the pin to a positive fallback voltage. */
  predicate Initial(p: Params, s: Pin) {
    s == InitPin() || (p.vbatFallback > 0.0 && s == InitPin().(pin := Num(p.vbatFallback)))
  }

  function Run(p: Params, s0: Pin, ops: seq<Op>): Pin
    decreases |ops|
  {
    if ops == [] then s0 else Step(p, Run(p, s0, ops[..|ops| - 1]), ops[|ops| - 1])
  }

  // ---- range ---------------------------------------------------------------------------------

  /** Lowest value the pin can take. */
  function Lowest(p: Params): real { MinR(p.vbatMax, Floor(p)) }

  predicate AtLeast(x: Float, lo: real) {
    match x
    case Num(r) => r >= lo
    case NegInf => false
    case _ => true
  }

  predicate GlideAtLeast(g: Glide, lo: real) { g.path.Some? ==> g.path.value.0 >= lo && g.path.value.1 >= lo }

  /** A non-empty filter holds the pin. */
  predicate PinInv(p: Params, s: Pin) {
    && AtLeast(s.pin, Lowest(p))
    && AtLeast(s.filt, Floor(p))
    && (s.filt == NaN || s.filt == s.pin)
    && GlideAtLeast(s.fallbackGlide, Lowest(p))
    && GlideAtLeast(s.floatGlide, Lowest(p))
  }

  lemma MixAtLeast(a: real, b: real, t: real, lo: real)
    requires a >= lo && b >= lo && 0.0 <= t <= 1.0
    ensures Between(a, b, t) >= lo
  {
    assert a + (b - a) * t == a * (1.0 - t) + b * t;
    assert (a - lo) * (1.0 - t) >= 0.0 && (b - lo) * t >= 0.0;
  }

  /** A glide stays between its end points. */
  lemma GlideValueAtLeast(g: Glide, now: nat, lo: real)
    requires GlideAtLeast(g, lo)
    ensures AtLeast(GlideValue(g, now), lo)
  {
    var dt := U64(now - g.startUs);
    if g.path.Some? && dt < GLIDE_US {
      var t := dt as real / GLIDE_US as real;
      assert 0.0 <= t <= 1.0;
      MixAtLeast(g.path.value.0, g.path.value.1, t, lo);
      hide Between;
    }
  }

  /** A glide starts at its origin, ends at its target after 5 s and only ever approaches it. */
  lemma GlideRamps(g: Glide, from: real, to: real, t: nat, u: nat)
    requires g.path == Some((from, to)) && g.startUs <= t <= u < 0x1_0000_0000_0000_0000
    ensures GlideValue(g, g.startUs) == Num(from)
    ensures t - g.startUs >= GLIDE_US ==> GlideValue(g, t) == Num(to)
    ensures GlideValue(g, t).Num? && GlideValue(g, u).Num?
    ensures AbsR(to - GlideValue(g, u).r) <= AbsR(to - GlideValue(g, t).r)
  {
    var d, e := t - g.startUs, u - g.startUs;
    assert U64(d) == d && U64(e) == e && U64(0) == 0;
    hide U64, Between;
    AtStart(from, to);
    var x, y := d as real / GLIDE_US as real, e as real / GLIDE_US as real;
    if e < GLIDE_US { Remaining(from, to, x, y); } else { assert GlideValue(g, u).r == to && AbsR(to - to) == 0.0; }
  }

  lemma AtStart(from: real, to: real)
    ensures Between(from, to, 0.0) == from
  {
  }

  lemma Remaining(from: real, to: real, x: real, y: real)
    requires 0.0 <= x <= y <= 1.0
    ensures AbsR(to - Between(from, to, y)) <= AbsR(to - Between(from, to, x))
  {
    hide Between, AbsR, Share;
    AbsRest(from, to, x);
    AbsRest(from, to, y);
    ShareMonotone(AbsR(to - from), 1.0 - y, 1.0 - x);
  }

  function Share(d: real, x: real): real { d * x }

  lemma ShareMonotone(d: real, x: real, y: real)
    requires 0.0 <= x <= y
    ensures d >= 0.0 ==> Share(d, x) <= Share(d, y)
  {
    if d >= 0.0 { Smaller(d, x, y); }
  }

  lemma AbsRest(from: real, to: real, x: real)
    requires x <= 1.0
    ensures AbsR(to - Between(from, to, x)) == Share(AbsR(to - from), 1.0 - x) && AbsR(to - from) >= 0.0
  {
    AbsProduct(to - Between(from, to, x), to - from, 1.0 - x);
  }

  lemma AbsProduct(z: real, d: real, x: real)
    requires x >= 0.0 && z == d * x
    ensures AbsR(z) == AbsR(d) * x
  {
    if d < 0.0 {
      Smaller(-d, 0.0, x);
      assert -z == (-d) * x;
    } else { Smaller(d, 0.0, x); }
  }

  lemma Smaller(d: real, x: real, y: real)
    requires d >= 0.0 && 0.0 <= x <= y
    ensures 0.0 <= d * x <= d * y
  {
    assert d * (y - x) >= 0.0;
  }

  /** A change of the latch does not step the setpoint: the call that first sees it leaves a finite pin
      where it was, unless the cell feedback or missing battery data take over. */
  lemma LatchChangeIsSmooth(p: Params, s: Pin, i: PinIn)
    requires s.pin.Num? && i.terminated != s.wasTerminated && i.authority && i.dataOk && i.vcell < i.vEoc
    requires 0 < i.now < 0x1_0000_0000_0000_0000
    ensures PinUpdate(p, s, i).pin == s.pin
  {
    var g := Glide(i.now, Some((s.pin.r, if i.terminated then p.vbatFallback else p.vbatMax)));
    GlideRamps(g, s.pin.r, if i.terminated then p.vbatFallback else p.vbatMax, i.now, i.now);
    assert OnLatchChange(p, s, i).floatGlide == g;
    hide GlideValue;
  }

  lemma FeedbackKeepsInv(p: Params, s: Pin, i: PinIn)
    requires ValidParams(p) && PinInv(p, s) && Feedback(i)
    ensures PinInv(p, FeedbackUpdate(p, s, i))
  {
    assert AtLeast(RawPin(p, s, i), Floor(p));
  }

  lemma LatchChangeKeepsInv(p: Params, s: Pin, i: PinIn)
    requires ValidParams(p) && PinInv(p, s)
    ensures PinInv(p, OnLatchChange(p, s, i))
  {
  }

  lemma FallbackKeepsInv(p: Params, s: Pin, i: PinIn)
    requires ValidParams(p) && PinInv(p, s)
    ensures PinInv(p, FallbackUpdate(p, s, i))
  {
    hide GlideValue;
    GlideValueAtLeast(FallbackUpdate(p, s, i).fallbackGlide, i.now, Lowest(p));
  }

  lemma StepKeepsInv(p: Params, s: Pin, op: Op)
    requires ValidParams(p) && PinInv(p, s)
    ensures PinInv(p, Step(p, s, op))
  {
    if op.Update? && !NoAuthority(op.i) {
      var i := op.i;
      LatchChangeKeepsInv(p, s, i);
      var s1 := OnLatchChange(p, s, i);
      if Feedback(i) { FeedbackKeepsInv(p, s1, i); }
      hide FeedbackUpdate;
      FallbackKeepsInv(p, s1, i);
      GlideValueAtLeast(s1.floatGlide, i.now, Lowest(p));
      hide FallbackUpdate, GlideValue, OnLatchChange;
    }
  }

  lemma {:induction false} RunKeepsInv(p: Params, s0: Pin, ops: seq<Op>)
    requires ValidParams(p) && Initial(p, s0)
    ensures PinInv(p, Run(p, s0, ops))
    decreases |ops|
  {
    if ops != [] {
      RunKeepsInv(p, s0, ops[..|ops| - 1]);
      StepKeepsInv(p, Run(p, s0, ops[..|ops| - 1]), ops[|ops| - 1]);
    }
  }

  /** Whatever regimes a run went through, the limit stays between the lower of pack maximum and
      feedback floor, and the pack maximum. */
  lemma VoutMaxInRange(p: Params, s0: Pin, ops: seq<Op>)
    requires ValidParams(p) && Initial(p, s0)
    ensures Lowest(p) <= VoutMax(p, Run(p, s0, ops)) <= p.vbatMax
  {
    RunKeepsInv(p, s0, ops);
  }

  // ---- feedback episodes ---------------------------------------------------------------------

  /** Consecutive calls that all regulate on the highest cell. */
  predicate Episode(fs: seq<PinIn>) { forall k :: 0 <= k < |fs| ==> Feedback(fs[k]) }

  /** State after the first k calls of an episode that starts in s. */
  function During(p: Params, s: Pin, fs: seq<PinIn>, k: nat): Pin
    requires k <= |fs|
  {
    if k == 0 then s else PinUpdate(p, During(p, s, fs, k - 1), fs[k - 1])
  }

  lemma {:induction false} DuringKeepsInv(p: Params, s: Pin, fs: seq<PinIn>, k: nat)
    requires ValidParams(p) && PinInv(p, s) && k <= |fs|
    ensures PinInv(p, During(p, s, fs, k))
  {
    if k > 0 {
      DuringKeepsInv(p, s, fs, k - 1);
      StepKeepsInv(p, During(p, s, fs, k - 1), Update(fs[k - 1]));
    }
  }

  /** How far a finite pin moves: nothing without a new frame; otherwise down by the scaled cell
      error, cut off at the floor, and by two fifths of that once the filter holds the pin. */
  lemma FeedbackMove(p: Params, s: Pin, i: PinIn)
    requires ValidParams(p) && PinInv(p, s) && Feedback(i) && s.pin.Num?
    ensures var d := MinR(Overshoot(p, i), s.pin.r - Floor(p));
            PinUpdate(p, s, i).pin
            == Num(if i.frame == s.lastFrame then s.pin.r
                   else if s.filt == NaN then s.pin.r - d else s.pin.r - 0.4 * d)
  {
    hide Overshoot;
    var t := OnLatchChange(p, s, i);
    assert t.pin == s.pin && t.filt == s.filt && t.lastFrame == s.lastFrame;
    assert PinUpdate(p, s, i) == FeedbackUpdate(p, t, i);
    hide OnLatchChange, PinUpdate;
    assert RawPin(p, t, i) == Num(MaxR(s.pin.r - Overshoot(p, i), Floor(p)));
  }

  /** One call: the pin does not rise above the higher of itself and the floor. */
  lemma FeedbackNeverRaises(p: Params, s: Pin, i: PinIn)
    requires ValidParams(p) && PinInv(p, s) && Feedback(i)
    ensures s.pin != NaN ==> var pin := PinUpdate(p, s, i).pin;
                             !Less(s.pin, pin) || (Less(s.pin, Num(Floor(p))) && pin.Num? && pin.r <= Floor(p))
    ensures s.pin == NaN || i.frame != s.lastFrame ==> AtLeast(PinUpdate(p, s, i).pin, Floor(p)) || s.filt != NaN
    ensures PinUpdate(p, s, i).pin != NaN
    ensures AtLeast(s.pin, Floor(p)) ==> AtLeast(PinUpdate(p, s, i).pin, Floor(p))
  {
    hide GlideValue, FallbackUpdate, Overshoot;
    if s.pin.Num? {
      OvershootNonNegative(p, i);
      FeedbackMove(p, s, i);
    }
  }

  lemma OvershootNonNegative(p: Params, i: PinIn)
    requires Feedback(i)
    ensures Overshoot(p, i) >= 0.0
  {
  }

  /** Over an episode of any length the pin never rises, never goes below the floor, and changes only
      on a call that brings a new battery frame. A pin that is not finite yet (first call) is
      exempt. */
  lemma {:induction false} EpisodeDescends(p: Params, s: Pin, fs: seq<PinIn>, j: nat, k: nat)
    requires ValidParams(p) && PinInv(p, s) && Episode(fs) && j <= k <= |fs|
    requires var a := During(p, s, fs, j).pin; a != NaN && AtLeast(a, Floor(p))
    ensures var a, b := During(p, s, fs, j).pin, During(p, s, fs, k).pin;
            b != NaN && !Less(a, b) && AtLeast(b, Floor(p))
    ensures k > j && During(p, s, fs, k).pin != During(p, s, fs, k - 1).pin
            ==> fs[k - 1].frame != During(p, s, fs, k - 1).lastFrame
    decreases k
  {
    if k > j {
      EpisodeDescends(p, s, fs, j, k - 1);
      DuringKeepsInv(p, s, fs, k - 1);
      var t := During(p, s, fs, k - 1);
      FeedbackNeverRaises(p, t, fs[k - 1]);
      if t.pin.Num? { FeedbackMove(p, t, fs[k - 1]); }
      hide GlideValue, FallbackUpdate;
    }
  }

  /** When the pack maximum is not below the floor the pin never is, so every episode of every run
      descends; otherwise its first new frame lifts a pin at the maximum towards the floor. */
  lemma EpisodeOfAnyRunDescends(p: Params, s0: Pin, ops: seq<Op>, fs: seq<PinIn>, j: nat, k: nat)
    requires ValidParams(p) && Initial(p, s0) && Episode(fs) && j <= k <= |fs|
    requires p.vbatMax >= Floor(p)
    requires During(p, Run(p, s0, ops), fs, j).pin != NaN
    ensures var s := Run(p, s0, ops);
            !Less(During(p, s, fs, j).pin, During(p, s, fs, k).pin)
            && AtLeast(During(p, s, fs, k).pin, Floor(p))
  {
    var s := Run(p, s0, ops);
    RunKeepsInv(p, s0, ops);
    DuringKeepsInv(p, s, fs, j);
    EpisodeDescends(p, s, fs, j, k);
  }

  // ---- terminated float ----------------------------------------------------------------------

  predicate TerminatedFloat(i: PinIn) { i.authority && i.dataOk && i.terminated && i.vcell < i.vEoc }

  /** The latch as the last call saw it; a release forgets it. */
  function SeenLatched(ops: seq<Op>): bool {
    ops != [] && var op := ops[|ops| - 1]; op.Update? && op.i.terminated
  }

  /** The latch seen by the most recent call that could start the float glide: one that met a change
      of the latch and was not turned away for lack of bus authority. */
  function LastGlide(ops: seq<Op>): Option<bool>
    decreases |ops|
  {
    if ops == [] then None
    else
      var pre, op := ops[..|ops| - 1], ops[|ops| - 1];
      if op.Update? && !NoAuthority(op.i) && op.i.terminated != SeenLatched(pre) then Some(op.i.terminated)
      else LastGlide(pre)
  }

  ghost predicate GlideFollows(p: Params, g: Glide, last: Option<bool>) {
    match last
    case None => g.path == None
    case Some(b) => g.path.Some? && g.path.value.1 == if b then p.vbatFallback else p.vbatMax
  }

  lemma StepGlide(p: Params, s: Pin, op: Op)
    ensures var t := Step(p, s, op);
            && t.wasTerminated == (op.Update? && op.i.terminated)
            && (if op.Update? && !NoAuthority(op.i) && op.i.terminated != s.wasTerminated
                then GlideFollows(p, t.floatGlide, Some(op.i.terminated))
                else t.floatGlide.path == s.floatGlide.path)
  {
    hide GlideValue, Smooth, RawPin;
  }

  lemma {:induction false} GlideOfRun(p: Params, s0: Pin, ops: seq<Op>)
    requires Initial(p, s0)
    ensures var s := Run(p, s0, ops);
            s.wasTerminated == SeenLatched(ops) && GlideFollows(p, s.floatGlide, LastGlide(ops))
    decreases |ops|
  {
    if ops != [] {
      var pre := ops[..|ops| - 1];
      GlideOfRun(p, s0, pre);
      StepGlide(p, Run(p, s0, pre), ops[|ops| - 1]);
      hide Step;
    }
  }

  /** A terminated pack whose glide has run out is floated at Vbat_fallback exactly when the last
      glide was started for the latch; if it was started for the preceding release the pack is
      pushed to Vbat_max, and if there never was one no pin is set at all. */
  lemma FloatTargetExactly(p: Params, s0: Pin, ops: seq<Op>, i: PinIn)
    requires Initial(p, s0) && TerminatedFloat(i) && SeenLatched(ops)
    requires U64(i.now - Run(p, s0, ops).floatGlide.startUs) >= GLIDE_US
    ensures var t := PinUpdate(p, Run(p, s0, ops), i);
            t.pin == match LastGlide(ops)
                     case None => NaN
                     case Some(b) => Num(if b then p.vbatFallback else p.vbatMax)
    ensures p.vbatFallback < p.vbatMax && p.vbatFallback > 0.0 ==>
              (VoutMax(p, PinUpdate(p, Run(p, s0, ops), i)) == p.vbatFallback <==> LastGlide(ops) == Some(true))
  {
    GlideOfRun(p, s0, ops);
  }

  /** The glide is always the latch's own when no call is ever turned away for lack of authority. */
  lemma {:induction false} AuthorityFloatsAtFallback(p: Params, ops: seq<Op>)
    requires forall k :: 0 <= k < |ops| && ops[k].Update? ==> !NoAuthority(ops[k].i)
    requires SeenLatched(ops)
    ensures LastGlide(ops) == Some(true)
    decreases |ops|
  {
    var pre := ops[..|ops| - 1];
    if SeenLatched(pre) { AuthorityFloatsAtFallback(p, pre); }
  }
}
