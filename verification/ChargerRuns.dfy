/** Runs of the whole charger: battery currents, periodic updates in which pinning reads what termination
    has just decided, and releases of the pin. */
module ChargerRuns {
  import opened Numbers
  import opened Charger
  import ChargerTermination
  import ChargerPinning

  datatype State = State(pack: ChargerTermination.Pack, pin: Pin)

  datatype Event = Current(ibat: real, now: nat) | Update(r: Reading) | ReleasePinning

  /** Termination as one update leaves it; without a valid cell voltage or a warm current it is skipped. */
  function Evaluated(p: Params, s: ChargerTermination.Pack, r: Reading): ChargerTermination.Pack
    requires p.tail > 0.0
  {
    if r.vcell == None || r.ibat == None then s
    else ChargerTermination.PackStep(p, s, ChargerTermination.Cells(r.vcell.value, r.ibat.value))
  }

  function Step(p: Params, s: State, e: Event): State
    requires p.tail > 0.0
  {
    match e
    case Current(ibat, now) =>
      s.(pack := ChargerTermination.PackStep(p, s.pack, ChargerTermination.Event.Current(ibat, now)))
    case Update(r) =>
      var pack := Evaluated(p, s.pack, r);
      State(pack, PinUpdate(p, s.pin, Seen(p, pack.term, r)))
    case ReleasePinning => s.(pin := Release(p, s.pin))
  }

  function Begin(p: Params, c0: Counter, pin0: Pin): State {
    State(ChargerTermination.Pack(ResetTerm(p), c0), pin0)
  }

  function Run(p: Params, s0: State, es: seq<Event>): State
    requires p.tail > 0.0
    decreases |es|
  {
    if es == [] then s0 else Step(p, Run(p, s0, es[..|es| - 1]), es[|es| - 1])
  }

  // ---- the two parts of a run ----------------------------------------------------------------

  /** What termination and the coulomb counter get to see. */
  function PackEvents(es: seq<Event>): seq<ChargerTermination.Event>
    decreases |es|
  {
    if es == [] then []
    else
      var pre := PackEvents(es[..|es| - 1]);
      match es[|es| - 1]
      case Current(ibat, now) => pre + [ChargerTermination.Event.Current(ibat, now)]
      case Update(r) =>
        if r.vcell == None || r.ibat == None then pre
        else pre + [ChargerTermination.Cells(r.vcell.value, r.ibat.value)]
      case ReleasePinning => pre
  }

  /** What pinning gets to see: its inputs carry the latch and line voltage of that very update. */
  function PinOps(p: Params, s0: State, es: seq<Event>): seq<ChargerPinning.Op>
    requires p.tail > 0.0
    decreases |es|
  {
    if es == [] then []
    else
      var pre := PinOps(p, s0, es[..|es| - 1]);
      match es[|es| - 1]
      case Current(_, _) => pre
      case Update(r) => pre + [ChargerPinning.Update(Seen(p, Run(p, s0, es).pack.term, r))]
      case ReleasePinning => pre + [ChargerPinning.ReleaseVoutPinning]
  }

  lemma PackSnoc(p: Params, c0: Counter, es: seq<ChargerTermination.Event>, e: ChargerTermination.Event)
    requires p.tail > 0.0
    ensures ChargerTermination.PackAfter(p, c0, es + [e])
            == ChargerTermination.PackStep(p, ChargerTermination.PackAfter(p, c0, es), e)
  {
    assert (es + [e])[..|es|] == es;
  }

  lemma PinSnoc(p: Params, s0: Pin, ops: seq<ChargerPinning.Op>, op: ChargerPinning.Op)
    ensures ChargerPinning.Run(p, s0, ops + [op]) == ChargerPinning.Step(p, ChargerPinning.Run(p, s0, ops), op)
  {
    assert (ops + [op])[..|ops|] == ops;
  }

  /** A run of the charger is a run of termination and counter, and beside it a run of pinning whose
      latch and line voltage are those of the first: everything proved of either holds of the charger. */
  lemma {:induction false} RunComposes(p: Params, c0: Counter, pin0: Pin, es: seq<Event>)
    requires p.tail > 0.0
    ensures var s0 := Begin(p, c0, pin0);
            Run(p, s0, es) == State(ChargerTermination.PackAfter(p, c0, PackEvents(es)),
                                      ChargerPinning.Run(p, pin0, PinOps(p, s0, es)))
    decreases |es|
  {
    hide ChargerTermination.PackStep, PinUpdate, Seen, Release;
    if es != [] {
      var pre, e, s0 := es[..|es| - 1], es[|es| - 1], Begin(p, c0, pin0);
      RunComposes(p, c0, pin0, pre);
      match e
      case Current(ibat, now) => PackSnoc(p, c0, PackEvents(pre), ChargerTermination.Event.Current(ibat, now));
      case Update(r) =>
        if r.vcell.Some? && r.ibat.Some? {
          PackSnoc(p, c0, PackEvents(pre), ChargerTermination.Cells(r.vcell.value, r.ibat.value));
        }
        PinSnoc(p, pin0, PinOps(p, s0, pre), ChargerPinning.Update(Seen(p, Run(p, s0, es).pack.term, r)));
      case ReleasePinning => PinSnoc(p, pin0, PinOps(p, s0, pre), ChargerPinning.ReleaseVoutPinning);
    }
  }

  /** Whatever the battery reports, the limit stays between the lower of pack maximum and feedback floor,
      and the pack maximum. */
  lemma LimitInRange(p: Params, c0: Counter, pin0: Pin, es: seq<Event>)
    requires ValidParams(p) && ChargerPinning.Initial(p, pin0)
    ensures ChargerPinning.Lowest(p) <= VoutMax(p, Run(p, Begin(p, c0, pin0), es).pin) <= p.vbatMax
  {
    RunComposes(p, c0, pin0, es);
    ChargerPinning.VoutMaxInRange(p, pin0, PinOps(p, Begin(p, c0, pin0), es));
  }

  // ---- where a full pack is floated ----------------------------------------------------------

  /** An update with authority and data that finds a pack full, as the previous one did, with its cells
      below the line. */
  predicate Floats(p: Params, s: State, r: Reading)
    requires p.tail > 0.0
  {
    s.pin.wasTerminated && ChargerPinning.TerminatedFloat(Seen(p, Evaluated(p, s.pack, r).term, r))
  }

  /** Once the glide has run out the charger floats a full pack at Vbat_fallback if and only if the last
      glide was started for the latch; otherwise at Vbat_max, or, if there never was one, without a pin. */
  lemma FloatExactly(p: Params, c0: Counter, pin0: Pin, es: seq<Event>, r: Reading)
    requires ValidParams(p) && ChargerPinning.Initial(p, pin0)
    requires Floats(p, Run(p, Begin(p, c0, pin0), es), r)
    requires U64(r.now - Run(p, Begin(p, c0, pin0), es).pin.floatGlide.startUs) >= GLIDE_US
    ensures var s0 := Begin(p, c0, pin0);
            var t, last := Step(p, Run(p, s0, es), Update(r)), ChargerPinning.LastGlide(PinOps(p, s0, es));
            && t.pack.term.latched
            && t.pin.pin == (if last == None then NaN else Num(if last.value then p.vbatFallback else p.vbatMax))
            && (0.0 < p.vbatFallback < p.vbatMax ==> (VoutMax(p, t.pin) == p.vbatFallback <==> last == Some(true)))
  {
    hide Run, PinOps, Evaluated, PinUpdate, VoutMax, ChargerPinning.LastGlide;
    var s0 := Begin(p, c0, pin0);
    var ops := PinOps(p, s0, es);
    RunComposes(p, c0, pin0, es);
    ChargerPinning.GlideOfRun(p, pin0, ops);
    ChargerPinning.FloatTargetExactly(p, pin0, ops, Seen(p, Evaluated(p, Run(p, s0, es).pack, r).term, r));
  }

  /** If no update ever lacked the authority over the bus, it is always Vbat_fallback. */
  lemma AuthorityFloats(p: Params, c0: Counter, pin0: Pin, es: seq<Event>, r: Reading)
    requires ValidParams(p) && ChargerPinning.Initial(p, pin0)
    requires forall k :: 0 <= k < |es| && es[k].Update? ==> es[k].r.authority
    requires Floats(p, Run(p, Begin(p, c0, pin0), es), r)
    requires U64(r.now - Run(p, Begin(p, c0, pin0), es).pin.floatGlide.startUs) >= GLIDE_US
    ensures Step(p, Run(p, Begin(p, c0, pin0), es), Update(r)).pin.pin == Num(p.vbatFallback)
  {
    var s0 := Begin(p, c0, pin0);
    FloatExactly(p, c0, pin0, es, r);
    RunComposes(p, c0, pin0, es);
    ChargerPinning.GlideOfRun(p, pin0, PinOps(p, s0, es));
    AuthorityOfOps(p, s0, es);
    ChargerPinning.AuthorityFloatsAtFallback(p, PinOps(p, s0, es));
    hide Step, Run, PinOps, Evaluated, Seen, ChargerPinning.LastGlide;
  }

  predicate NeverLacksAuthority(ops: seq<ChargerPinning.Op>) {
    forall op :: op in ops && op.Update? ==> !NoAuthority(op.i)
  }

  lemma {:induction false} AuthorityOfOps(p: Params, s0: State, es: seq<Event>)
    requires p.tail > 0.0 && forall k :: 0 <= k < |es| && es[k].Update? ==> es[k].r.authority
    ensures NeverLacksAuthority(PinOps(p, s0, es))
    decreases |es|
  {
    hide Run;
    if es != [] {
      var pre, e := es[..|es| - 1], es[|es| - 1];
      AuthorityOfOps(p, s0, pre);
      if e.Update? { SeenAuthority(p, Run(p, s0, es).pack.term, e.r); }
    }
  }

  lemma SeenAuthority(p: Params, t: Term, r: Reading)
    ensures r.authority ==> !NoAuthority(Seen(p, t, r))
  {
  }

  // ---- why a full pack is charged again ------------------------------------------------------

  /** The termination calls of a run, with the charge the counter showed at each. */
  function Calls(p: Params, c0: Counter, es: seq<ChargerTermination.Event>): seq<Call>
    requires p.tail > 0.0
    decreases |es|
  {
    if es == [] then []
    else
      var pre, e := es[..|es| - 1], es[|es| - 1];
      Calls(p, c0, pre)
      + if e.Cells? then [ChargerTermination.CallOf(ChargerTermination.PackAfter(p, c0, pre), e)] else []
  }

  lemma {:induction false} AfterPrefix(p: Params, us: seq<Call>, vs: seq<Call>, n: nat)
    requires p.tail > 0.0 && n <= |us| && us <= vs
    ensures ChargerTermination.After(p, us, n) == ChargerTermination.After(p, vs, n)
  {
    hide TermUpdate;
    if n > 0 { AfterPrefix(p, us, vs, n - 1); }
  }

  lemma {:induction false} PackIsAfter(p: Params, c0: Counter, es: seq<ChargerTermination.Event>)
    requires p.tail > 0.0
    ensures var us := Calls(p, c0, es);
            ChargerTermination.PackAfter(p, c0, es).term == ChargerTermination.After(p, us, |us|)
    decreases |es|
  {
    hide TermUpdate, CountCurrent, MarkFull;
    if es != [] {
      var pre := es[..|es| - 1];
      PackIsAfter(p, c0, pre);
      AfterPrefix(p, Calls(p, c0, pre), Calls(p, c0, es), |Calls(p, c0, pre)|);
    }
  }

  /** The charger takes a pack for full exactly when a reading finds it full, or at the second of two
      consecutive readings at or above the ceiling that both found it not full. */
  lemma TakesForFullExactly(p: Params, c0: Counter, pin0: Pin, es: seq<Event>, r: Reading)
    requires ValidParams(p) && r.vcell.Some? && r.ibat.Some?
    requires !Run(p, Begin(p, c0, pin0), es).pack.term.latched
    ensures var us := Calls(p, c0, PackEvents(es));
            var n := |us|;
            Step(p, Run(p, Begin(p, c0, pin0), es), Update(r)).pack.term.latched
            <==> ChargerTermination.Full(p, r.vcell.value, r.ibat.value)
                 || (n >= 1 && r.vcell.value >= p.cvCeiling && us[n - 1].vcell >= p.cvCeiling
                     && !ChargerTermination.After(p, us, n - 1).latched)
  {
    hide Run, Step, Begin, Calls, PackEvents, AhSinceFull, ChargerTermination.After, ChargerTermination.SinceLatch,
      ChargerTermination.Discharge, ChargerTermination.CountsSince, ChargerTermination.PackAfter, TermUpdate;
    var pes := PackEvents(es);
    RunComposes(p, c0, pin0, es);
    var s := Run(p, Begin(p, c0, pin0), es);
    var us, u := Calls(p, c0, pes), Call(r.vcell.value, r.ibat.value, AhSinceFull(s.pack.counter));
    EvaluatedTerm(p, s, r);
    PackIsAfter(p, c0, pes);
    OneMoreCall(p, us, u);
    ChargerTermination.LatchSetsExactly(p, us + [u], |us|);
  }

  /** It gives a full pack up, and so aims at Vbat_max again, exactly when more than the set depth was drawn
      since that latch, or on the fourth of four consecutive sub-floor readings. */
  lemma GivesUpExactly(p: Params, c0: Counter, pin0: Pin, es: seq<Event>, r: Reading)
    requires ValidParams(p) && r.vcell.Some? && r.ibat.Some?
    requires Run(p, Begin(p, c0, pin0), es).pack.term.latched
    ensures var pes := PackEvents(es);
            var us, drawn := Calls(p, c0, pes), ChargerTermination.SinceLatch(p, c0, pes);
            !Step(p, Run(p, Begin(p, c0, pin0), es), Update(r)).pack.term.latched
            <==> (p.cbat.Some? && p.dod > 0.0 && ChargerTermination.Discharge(drawn) > p.dod * p.cbat.value)
                 || (|us| >= 3 && r.vcell.value < p.cvMin - p.band
                     && forall k :: |us| - 3 <= k < |us| ==>
                          us[k].vcell < p.cvMin - p.band && ChargerTermination.After(p, us, k).latched)
  {
    hide Run, Step, Begin, Calls, PackEvents, AhSinceFull, ChargerTermination.After, ChargerTermination.SinceLatch,
      ChargerTermination.Discharge, ChargerTermination.CountsSince, ChargerTermination.PackAfter, TermUpdate;
    var pes := PackEvents(es);
    RunComposes(p, c0, pin0, es);
    var s := Run(p, Begin(p, c0, pin0), es);
    var us, u := Calls(p, c0, pes), Call(r.vcell.value, r.ibat.value, AhSinceFull(s.pack.counter));
    EvaluatedTerm(p, s, r);
    PackIsAfter(p, c0, pes);
    ChargerTermination.CounterMatches(p, c0, pes);
    ChargerTermination.ReadsDrawn(s.pack.counter, ChargerTermination.SinceLatch(p, c0, pes));
    OneMoreCall(p, us, u);
    ChargerTermination.LatchClearsExactly(p, us + [u], |us|);
  }

  lemma EvaluatedTerm(p: Params, s: State, r: Reading)
    requires p.tail > 0.0 && r.vcell.Some? && r.ibat.Some?
    ensures Step(p, s, Update(r)).pack.term
            == TermUpdate(p, s.pack.term, Call(r.vcell.value, r.ibat.value, AhSinceFull(s.pack.counter)))
  {
    hide TermUpdate, PinUpdate, Seen, AhSinceFull;
  }

  lemma OneMoreCall(p: Params, us: seq<Call>, u: Call)
    requires p.tail > 0.0
    ensures var vs := us + [u];
            && ChargerTermination.After(p, vs, |us| + 1) == TermUpdate(p, ChargerTermination.After(p, us, |us|), u)
            && forall k :: 0 <= k <= |us| ==> ChargerTermination.After(p, us, k) == ChargerTermination.After(p, vs, k)
  {
    var vs := us + [u];
    ChargerTermination.AfterUnfolds(p, vs, |vs|);
    forall k | 0 <= k <= |us| ensures ChargerTermination.After(p, us, k) == ChargerTermination.After(p, vs, k) {
      AfterPrefix(p, us, vs, k);
    }
    hide TermUpdate;
  }

  // ---- the stale glide, from cell voltages ---------------------------------------------------

  /** A reading without battery current. */
  function Rest(v: real, authority: bool, now: nat): Reading {
    Reading(Some(v), Some(0.0), authority, now, now, None)
  }

  /** Without current the line is at cv_min. */
  lemma LineAtRest(p: Params)
    requires ValidParams(p)
    ensures TermVoltage(p, 0.0) == p.cvMin
  {
  }

  lemma FullAtRest(p: Params, s: ChargerTermination.Pack, v: real, authority: bool, now: nat)
    requires ValidParams(p) && p.cbat.Some? && p.cbat.value > 0.0 && v > p.cvMin && !s.term.latched
    ensures var t := Evaluated(p, s, Rest(v, authority, now));
            t.term == Term(true, p.cvMin, 0, 0) && t.counter.resetRequested
  {
    LineAtRest(p);
    hide TermVoltage;
    ChargerTermination.Product(p.tail, p.cbat.value);
  }

  /** A low reading of a full pack from which nothing was drawn. */
  lemma LowAtRest(p: Params, s: ChargerTermination.Pack, v: real, authority: bool, now: nat)
    requires ValidParams(p) && p.cbat.Some? && p.cbat.value > 0.0
    requires s.term.latched && s.counter.resetRequested && s.term.lowStreak < 4
    ensures var t := Evaluated(p, s, Rest(v, authority, now));
            && t.counter == s.counter && t.term.vTerm == p.cvMin
            && t.term.latched == !(v < p.cvMin - p.band && s.term.lowStreak == 3)
            && t.term.lowStreak == if v < p.cvMin - p.band && s.term.lowStreak < 3 then s.term.lowStreak + 1 else 0
  {
    LineAtRest(p);
    hide TermVoltage;
    if p.dod > 0.0 { ChargerTermination.Product(p.dod, p.cbat.value); }
  }

  /** The latch that an update leaves is the one pinning remembers; a change of it that is met with
      authority starts the glide. */
  lemma LatchAndGlide(p: Params, s: State, r: Reading)
    requires p.tail > 0.0
    ensures var t := Step(p, s, Update(r));
            var latched := t.pack.term.latched;
            && t.pin.wasTerminated == latched
            && (if !NoAuthority(Seen(p, t.pack.term, r)) && latched != s.pin.wasTerminated
                then ChargerPinning.GlideFollows(p, t.pin.floatGlide, Some(latched))
                else t.pin.floatGlide.path == s.pin.floatGlide.path)
  {
    hide PinUpdate, Evaluated, ChargerPinning.GlideFollows;
    var pack := Evaluated(p, s.pack, r);
    ChargerPinning.StepGlide(p, s.pin, ChargerPinning.Update(Seen(p, pack.term, r)));
  }

  /** A full reading latches; the counter is to start over. */
  ghost predicate JustFull(s: State) {
    s.pack.term.latched && s.pack.term.lowStreak == 0 && s.pack.counter.resetRequested && s.pin.wasTerminated
  }

  predicate Usual(p: Params) {
    ValidParams(p) && p.cbat.Some? && p.cbat.value > 0.0
  }

  lemma FullWithAuthority(p: Params, s: State, v: real, now: nat)
    requires Usual(p) && v > p.cvMin && !s.pack.term.latched
    ensures JustFull(Step(p, s, Update(Rest(v, true, now))))
  {
    hide TermUpdate, PinUpdate;
    FullAtRest(p, s.pack, v, true, now);
    LatchAndGlide(p, s, Rest(v, true, now));
  }

  lemma FullWithoutAuthority(p: Params, s: State, v: real, now: nat)
    requires Usual(p) && v > p.cvMin && !s.pack.term.latched
    ensures var t := Step(p, s, Update(Rest(v, false, now)));
            JustFull(t) && t.pin.floatGlide == Glide(0, s.pin.floatGlide.path)
  {
    hide TermUpdate;
    FullAtRest(p, s.pack, v, false, now);
    hide Evaluated;
  }

  /** Sub-floor readings of a full pack: the fourth one releases it. */
  lemma LowReading(p: Params, s: State, v: real, now: nat)
    requires Usual(p) && v < p.cvMin - p.band
    requires s.pack.term.latched && s.pack.term.lowStreak < 4 && s.pack.counter.resetRequested && s.pin.wasTerminated
    ensures var t := Step(p, s, Update(Rest(v, true, now)));
            && t.pack.counter.resetRequested && t.pin.wasTerminated == t.pack.term.latched
            && (s.pack.term.lowStreak < 3 ==> t.pack.term.latched && t.pack.term.lowStreak == s.pack.term.lowStreak + 1)
            && (s.pack.term.lowStreak == 3 ==>
                  !t.pack.term.latched && ChargerPinning.GlideFollows(p, t.pin.floatGlide, Some(false)))
  {
    hide TermUpdate, PinUpdate, ChargerPinning.GlideFollows;
    LowAtRest(p, s.pack, v, true, now);
    LatchAndGlide(p, s, Rest(v, true, now));
    hide Evaluated;
  }

  lemma StaleFloat(p: Params, s: State, v: real, now: nat)
    requires Usual(p) && JustFull(s) && v < p.cvMin
    requires s.pin.floatGlide.startUs == 0 && ChargerPinning.GlideFollows(p, s.pin.floatGlide, Some(false))
    requires GLIDE_US <= now < 0x1_0000_0000_0000_0000
    ensures var t := Step(p, s, Update(Rest(v, true, now))); t.pack.term.latched && VoutMax(p, t.pin) == p.vbatMax
  {
    hide TermUpdate;
    LowAtRest(p, s.pack, v, true, now);
    hide Evaluated;
  }

  function Four(v: real): seq<Event> {
    [Update(Rest(v, true, 20000000)), Update(Rest(v, true, 30000000)), Update(Rest(v, true, 40000000)),
     Update(Rest(v, true, 50000000))]
  }

  lemma FourLowReadings(p: Params, s: State, v: real)
    requires Usual(p) && v < p.cvMin - p.band && JustFull(s)
    ensures var t := Run(p, s, Four(v));
            !t.pack.term.latched && ChargerPinning.GlideFollows(p, t.pin.floatGlide, Some(false))
  {
    hide Step, ChargerPinning.GlideFollows, Rest;
    var es := Four(v);
    var s1 := Step(p, s, es[0]);
    var s2 := Step(p, s1, es[1]);
    var s3 := Step(p, s2, es[2]);
    LowReading(p, s, v, 20000000);
    LowReading(p, s1, v, 30000000);
    LowReading(p, s2, v, 40000000);
    LowReading(p, s3, v, 50000000);
    assert Run(p, s, es[..4]) == Step(p, s3, es[3]) by {
      assert Run(p, s, es[..0]) == s;
      RunSnoc(p, s, es, 0);
      RunSnoc(p, s, es, 1);
      RunSnoc(p, s, es, 2);
      RunSnoc(p, s, es, 3);
    }
    assert es[..4] == es;
  }

  lemma RunSnoc(p: Params, s0: State, es: seq<Event>, n: nat)
    requires p.tail > 0.0 && n < |es|
    ensures Run(p, s0, es[..n + 1]) == Step(p, Run(p, s0, es[..n]), es[n])
  {
    hide Step;
    assert es[..n + 1][..n] == es[..n];
  }

  lemma {:induction false} RunConcat(p: Params, s0: State, a: seq<Event>, b: seq<Event>)
    requires p.tail > 0.0
    ensures Run(p, s0, a + b) == Run(p, Run(p, s0, a), b)
    decreases |b|
  {
    hide Step;
    if b == [] { assert a + b == a; } else {
      assert (a + b)[..|a + b| - 1] == a + b[..|b| - 1];
      RunConcat(p, s0, a, b[..|b| - 1]);
    }
  }

  /** A full pack floated at its maximum, from nothing but cell voltages: a reading over the line, four
      readings below the floor, one over the line while another converter holds the bus, and the bus back
      with the cells at rest. Termination is latched at the end, and no current was ever drawn. */
  lemma StaleGlideFloatsAtMaximum(p: Params, c0: Counter, over: real, low: real, rest: real)
    requires Usual(p) && p.vbatFallback < p.vbatMax
    requires over > p.cvMin && 0.0 < low < p.cvMin - p.band && 0.0 < rest < p.cvMin
    ensures var es := [Update(Rest(over, true, 10000000))] + Four(low)
                      + [Update(Rest(over, false, 60000000)), Update(Rest(rest, true, 70000000))];
            var t := Run(p, Begin(p, c0, InitPin()), es);
            t.pack.term.latched && VoutMax(p, t.pin) == p.vbatMax
  {
    hide Step, Run, Rest, Four, ChargerPinning.GlideFollows, VoutMax;
    var s0 := Begin(p, c0, InitPin());
    var a, b, c := Update(Rest(over, true, 10000000)), Update(Rest(over, false, 60000000)), Update(Rest(rest, true, 70000000));
    var s1 := Step(p, s0, a);
    FullWithAuthority(p, s0, over, 10000000);
    FourLowReadings(p, s1, low);
    var s2 := Run(p, s1, Four(low));
    FullWithoutAuthority(p, s2, over, 60000000);
    var s3 := Step(p, s2, b);
    SamePath(p, s2.pin.floatGlide, s3.pin.floatGlide);
    StaleFloat(p, s3, rest, 70000000);
    RunOne(p, s0, a);
    RunConcat(p, s0, [a], Four(low));
    RunTwo(p, s2, b, c);
    RunConcat(p, s0, [a] + Four(low), [b, c]);
  }

  lemma SamePath(p: Params, g: Glide, h: Glide)
    requires h.path == g.path && ChargerPinning.GlideFollows(p, g, Some(false))
    ensures ChargerPinning.GlideFollows(p, h, Some(false))
  {
  }

  lemma RunOne(p: Params, s: State, a: Event)
    requires p.tail > 0.0
    ensures Run(p, s, [a]) == Step(p, s, a)
  {
    hide Step;
    assert [a][..0] == [];
  }

  lemma RunTwo(p: Params, s: State, a: Event, b: Event)
    requires p.tail > 0.0
    ensures Run(p, s, [a, b]) == Step(p, Step(p, s, a), b)
  {
    hide Step;
    RunOne(p, s, a);
    assert [a, b][..1] == [a];
  }
}
