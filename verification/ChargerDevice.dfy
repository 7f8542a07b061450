/** The objects of src/charger.h and src/etc/coulomb_counter.h, their methods proved against the
    functions of Charger. */
module ChargerDevice {
  import opened Numbers
  import opened Charger
  import ChargerTermination
  import ChargerRuns

  class TerminationCondition {
    const p: Params
    var terminated: bool
    var vTerm: real
    var vfloorStreak: nat
    var ceilStreak: nat

    function State(): Term
      reads this
    {
      Term(terminated, vTerm, vfloorStreak, ceilStreak)
    }

    constructor (p: Params)
      ensures this.p == p && State() == ResetTerm(p)
    {
      this.p := p;
      terminated, vTerm, vfloorStreak, ceilStreak := false, p.cvMin, 0, 0;
    }

    method Reset()
      modifies this
      ensures State() == ResetTerm(p)
    {
      terminated, vTerm, vfloorStreak, ceilStreak := false, p.cvMin, 0, 0;
    }

    method Update(vcell: real, ibat: real, ah: real) returns (now: bool)
      requires p.tail > 0.0
      modifies this
      ensures State() == TermUpdate(p, old(State()), Call(vcell, ibat, ah)) && now == terminated
    {
      hide TermVoltage;
      vTerm := TermVoltage(p, ibat);
      var ceilingLatch := false;
      if !terminated && vcell >= p.cvCeiling {
        ceilStreak := ceilStreak + 1;
        if ceilStreak >= VCEIL_STREAK_REQ { ceilingLatch := true; }
      } else {
        ceilStreak := 0;
      }
      if !terminated && (ceilingLatch || (p.cbat.Some? && ibat > -p.tail * p.cbat.value * 0.02 && vcell > vTerm)) {
        terminated := true;
        vfloorStreak := 0;
        ceilStreak := 0;
      } else if terminated {
        var release := ShouldRelease(vcell, ah);
        if release { terminated := false; }
      }
      return terminated;
    }

    method ShouldRelease(vcell: real, ah: real) returns (release: bool)
      modifies this`vfloorStreak
      ensures var low := if vcell < p.cvMin - p.band then old(vfloorStreak) + 1 else 0;
              && release == (low >= VFLOOR_STREAK_REQ || Discharged(p, ah))
              && vfloorStreak == if low >= VFLOOR_STREAK_REQ then 0 else low
    {
      if vcell < p.cvMin - p.band {
        vfloorStreak := vfloorStreak + 1;
        if vfloorStreak >= VFLOOR_STREAK_REQ {
          vfloorStreak := 0;
          return true;
        }
      } else {
        vfloorStreak := 0;
      }
      return p.cbat.Some? && p.dod > 0.0 && ah > p.dod * p.cbat.value;
    }
  }

  class CoulombCounter {
    var lastTime: nat
    var lastX: real
    var value: real
    var ahPublished: real
    var resetRequested: bool

    function State(): Counter
      reads this
    {
      Counter(Integrator(lastTime, lastX, value), ahPublished, resetRequested)
    }

    constructor ()
      ensures State() == Counter(ZERO, 0.0, false)
    {
      lastTime, lastX, value, ahPublished, resetRequested := 0, 0.0, 0.0, 0.0, false;
    }

    method UpdateBatCurrent(ibat: real, now: nat)
      modifies this
      ensures State() == CountCurrent(old(State()), ibat, now)
    {
      var requested := resetRequested;
      resetRequested := false;
      if requested { lastTime, lastX, value := 0, 0.0, 0.0; }
      hide Trapezoid;
      ghost var i := Integrator(lastTime, lastX, value);
      var x := -ibat;
      var dt := U64(now - lastTime);
      if dt < MAX_DT { value := value + Trapezoid(lastX, x, dt); }
      lastTime := now;
      lastX := x;
      assert Integrator(lastTime, lastX, value) == Integrate(i, x, now);
      ahPublished := value;
    }

    method Ah() returns (ah: real)
      ensures ah == AhSinceFull(State())
    {
      if resetRequested { return 0.0; }
      return ahPublished;
    }

    method MarkFullNow()
      modifies this
      ensures State() == MarkFull(old(State()))
    {
      resetRequested := true;
    }
  }

  class BatteryCharger {
    const p: Params
    const termCond: TerminationCondition
    const counter: CoulombCounter
    var vpackPin: Float
    var filt: Float
    var fallbackGlide: Glide
    var floatGlide: Glide
    var wasTerminated: bool
    var lastFrame: nat

    function State(): Pin
      reads this
    {
      Pin(vpackPin, filt, fallbackGlide, floatGlide, wasTerminated, lastFrame)
    }

    predicate Valid()
      reads this
    {
      p.tail > 0.0 && termCond.p == p
    }

    constructor (p: Params)
      requires ValidParams(p)
      ensures Valid() && this.p == p && fresh(termCond) && fresh(counter)
      ensures State() == InitPin() && termCond.State() == ResetTerm(p)
    {
      this.p := p;
      termCond := new TerminationCondition(p);
      counter := new CoulombCounter();
      vpackPin, filt := NaN, NaN;
      fallbackGlide, floatGlide := Glide(0, None), Glide(0, None);
      wasTerminated, lastFrame := false, 0;
    }

    /** `vcell` is None while there is no valid cell voltage, `ibat` while the current is not smoothed. */
    method UpdateTermination(vcell: Option<real>, ibat: Option<real>)
      requires Valid()
      modifies termCond, counter
      ensures var s := ChargerTermination.Pack(old(termCond.State()), old(counter.State()));
              ChargerTermination.Pack(termCond.State(), counter.State())
              == if vcell == None || ibat == None then s
                 else ChargerTermination.PackStep(p, s, ChargerTermination.Cells(vcell.value, ibat.value))
    {
      if vcell == None { return; }
      if ibat == None { return; }
      hide TermUpdate;
      var wasTerm := termCond.terminated;
      var ah := counter.Ah();
      var nowTerm := termCond.Update(vcell.value, ibat.value, ah);
      if !wasTerm && nowTerm {
        counter.MarkFullNow();
      }
    }

    method UpdatePackVoltagePinning(r: Reading)
      modifies this
      ensures State() == PinUpdate(p, old(State()), Seen(p, termCond.State(), r))
    {
      hide GlideValue, Smooth, Base;
      var i, now := Seen(p, termCond.State(), r), r.now;
      if !i.authority && i.dataOk {
        if i.terminated {
          vpackPin := Num(p.vbatFallback - p.offsetMax);
          filt := NaN;
          fallbackGlide := fallbackGlide.(startUs := 0);
          floatGlide := floatGlide.(startUs := 0);
          wasTerminated := true;
        } else {
          ReleaseVoutPinning();
        }
        return;
      }
      if i.terminated != wasTerminated {
        var from := if vpackPin.Num? then vpackPin.r else p.vbatFallback;
        floatGlide := Glide(now, Some((from, if i.terminated then p.vbatFallback else p.vbatMax)));
        wasTerminated := i.terminated;
      }
      if i.authority && i.dataOk && i.vcell >= i.vEoc {
        StepFeedback(i);
      } else if i.terminated && i.dataOk {
        filt := NaN;
        fallbackGlide := fallbackGlide.(startUs := 0);
        vpackPin := GlideValue(floatGlide, now);
      } else if !i.dataOk && p.vbatFallback >= 0.0 {
        StepFallback(i);
      } else {
        filt := NaN;
        fallbackGlide := fallbackGlide.(startUs := 0);
        vpackPin := if floatGlide.startUs != 0 then GlideValue(floatGlide, now) else Num(p.vbatMax);
      }
    }

    /** The periodic update: termination first, then the pin, which reads its result. */
    method Update(r: Reading)
      requires Valid()
      modifies this, termCond, counter
      ensures Valid() && State() == PinUpdate(p, old(State()), Seen(p, termCond.State(), r))
      ensures ChargerRuns.State(ChargerTermination.Pack(termCond.State(), counter.State()), State())
              == ChargerRuns.Step(p, ChargerRuns.State(ChargerTermination.Pack(old(termCond.State()), old(counter.State())),
                                                         old(State())),
                                  ChargerRuns.Update(r))
    {
      hide PinUpdate, ChargerTermination.PackStep, Seen;
      UpdateTermination(r.vcell, r.ibat);
      UpdatePackVoltagePinning(r);
    }

    method StepFeedback(i: PinIn)
      modifies this
      ensures State() == FeedbackUpdate(p, old(State()), i)
    {
      hide Smooth, MaxR, Overshoot;
      fallbackGlide := fallbackGlide.(startUs := 0);
      floatGlide := floatGlide.(startUs := 0);
      if i.frame != lastFrame || vpackPin == NaN {
        lastFrame := i.frame;
        var base := if vpackPin.Num? then vpackPin else if i.voutAvg.Some? then Num(i.voutAvg.value) else PosInf;
        var raw := if base.Num? then Num(MaxR(base.r - Overshoot(p, i), p.vbatFallback - p.offsetMax))
                   else base;
        assert raw == RawPin(p, old(State()), i);
        filt := Smooth(filt, raw);
        vpackPin := filt;
      }
    }

    method StepFallback(i: PinIn)
      modifies this
      ensures State() == FallbackUpdate(p, old(State()), i)
    {
      hide GlideValue;
      filt := NaN;
      floatGlide := floatGlide.(startUs := 0);
      if fallbackGlide.startUs == 0 {
        var from := if vpackPin.Num? then vpackPin.r else p.vbatFallback;
        fallbackGlide := Glide(i.now, Some((from, p.vbatFallback)));
      }
      vpackPin := GlideValue(fallbackGlide, i.now);
    }

    method ReleaseVoutPinning()
      modifies this
      ensures State() == Release(p, old(State()))
    {
      vpackPin := Num(p.vbatMax);
      filt := NaN;
      fallbackGlide := fallbackGlide.(startUs := 0);
      floatGlide := floatGlide.(startUs := 0);
      wasTerminated := false;
    }

    method VoutMaxNow() returns (v: real)
      ensures v == VoutMax(p, State())
    {
      v := p.vbatMax;
      if Less(Num(0.0), vpackPin) && Less(vpackPin, Num(v)) { v := vpackPin.r; }
    }
  }
}
