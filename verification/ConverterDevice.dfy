/** The converter object itself: fields updated in place and register writes in program order.
    Each method is proved to do to the fields what its function in `Converter` says, and to pass
    through exactly the register states that `ConverterCommit` lists. */
module ConverterDevice {
  import opened Numbers
  import opened Converter
  import opened ConverterCommit

  class SynchronousConverter {
    const cfg: Config

    var pwmCtrl: nat
    var pwmRect: nat
    var pwmRectMax: nat
    var manualRect: int
    var dcmHysteresis: bool
    var syncRectEnabled: bool
    var forcedPwm: bool
    var pwmRectRatioDCM: real
    var rectDitherErr: real
    var rectOnOffset: int
    var outInVoltageRatio: real
    var directionFloatBuffer: real
    ghost var badStart: bool

    // duty registers of the two driver channels, and every value they have taken together
    var regIn: nat
    var regEn: nat
    ghost var history: seq<Regs>

    ghost predicate Valid()
      reads this
    {
      ValidConfig(cfg) && Regs(regIn, regEn) == Settled(State())
    }

    ghost function State(): Conv
      reads this
    {
      Conv(pwmCtrl, pwmRect, pwmRectMax, manualRect, dcmHysteresis, syncRectEnabled, forcedPwm,
           pwmRectRatioDCM, rectDitherErr, rectOnOffset, outInVoltageRatio, directionFloatBuffer,
           badStart)
    }

    constructor (c: Config)
      requires ValidConfig(c)
      ensures cfg == c && Valid() && State() == InitConv() && history == []
    {
      cfg := c;
      pwmCtrl, pwmRect, pwmRectMax, manualRect := 0, 0, 0, -1;
      dcmHysteresis, syncRectEnabled, forcedPwm := false, false, false;
      pwmRectRatioDCM, rectDitherErr, rectOnOffset := 0.0, 0.0, 0;
      outInVoltageRatio, directionFloatBuffer := 0.0, 0.0;
      badStart := false;
      regIn, regEn, history := 0, 0, [];
    }

    predicate Disabled()
      reads this
      ensures Disabled() == (State().ctrl == 0)
    {
      pwmCtrl == 0
    }

    // ---- gate driver -------------------------------------------------------------------------

    method UpdateIn(duty: nat)
      modifies this`regIn, this`history
      ensures regIn == duty && history == old(history) + [Regs(duty, regEn)]
    {
      regIn := duty;
      history := history + [Regs(regIn, regEn)];
    }

    method UpdateEn(duty: nat)
      modifies this`regEn, this`history
      ensures regEn == duty && history == old(history) + [Regs(regIn, duty)]
    {
      regEn := duty;
      history := history + [Regs(regIn, regEn)];
    }

    method DrvCommit(largerDecrease: bool, direction: int)
      modifies this`regIn, this`regEn, this`history
      ensures Regs(regIn, regEn) == Regs(pwmCtrl, pwmCtrl + pwmRect)
      ensures history == old(history)
                         + CommitTrace(old(Regs(regIn, regEn)), pwmCtrl, pwmRect, largerDecrease, direction)
    {
      if largerDecrease {
        UpdateEn(0);
        UpdateIn(pwmCtrl);
        UpdateEn(pwmCtrl + pwmRect);
      } else if direction < 0 {
        UpdateEn(pwmCtrl + pwmRect);
        UpdateIn(pwmCtrl);
      } else {
        UpdateIn(pwmCtrl);
        UpdateEn(pwmCtrl + pwmRect);
      }
    }

    // ---- limit and perturbation --------------------------------------------------------------

    method ComputePwmRectMax()
      requires ValidConfig(cfg)
      modifies this`rectDitherErr, this`pwmRectMax
      ensures State() == Limit(cfg, old(State()))
    {
      var complement := U16(cfg.pwmMax - pwmCtrl - 1);
      if dcmHysteresis {
        var ideal := Counts(pwmCtrl, pwmRectRatioDCM) + rectOnOffset as real;
        var v := ideal + rectDitherErr;
        var ls := RoundHalfAway(v);
        assert ideal == DcmIdeal(old(State())) && ls == DcmRounded(old(State()));
        rectDitherErr := v - ls as real;
        pwmRectMax := U16(MaxI(0, ls));
      } else {
        pwmRectMax := complement;
      }
      pwmRectMax := MinI(MaxI(cfg.rectMin, pwmRectMax), complement);
    }

    /** Fade-in of the low-side count toward its limit. */
    method FadeIn()
      requires ValidConfig(cfg)
      modifies this`pwmRect
      ensures State() == old(State()).(rect := Fade(cfg, old(State())))
    {
      var step := 1;
      if pwmRect > cfg.rectMin + cfg.pwmMax / 64 {
        step := step + TruncDiv(pwmRectMax - pwmRect, 64);
      }
      if syncRectEnabled {
        pwmRect := U16(Constrain(pwmRect + step, cfg.rectMin, pwmRectMax));
      } else {
        pwmRect := cfg.rectMin;
      }
    }

    /** The automatic low-side count after the control count has moved. */
    method FollowCtrl(largerDecrease: bool)
      requires ValidConfig(cfg)
      modifies this`dcmHysteresis, this`rectDitherErr, this`pwmRectMax, this`pwmRect
      ensures var presume := largerDecrease && !forcedPwm;
              var s := if presume then old(State()).(dcm := true) else old(State());
              var t := Limit(cfg, s);
              State() == t.(rect := if presume then cfg.rectMin else Fade(cfg, t))
    {
      hide Limit, Fade;
      if largerDecrease && !forcedPwm {
        dcmHysteresis := true;
      }
      ComputePwmRectMax();
      if largerDecrease && !forcedPwm {
        pwmRect := cfg.rectMin;
      } else {
        FadeIn();
      }
    }

    /** The part of a perturbation before its commit. */
    method MoveDuty(direction: int, largerDecrease: bool)
      requires ValidConfig(cfg) && largerDecrease == LargerDecrease(cfg, direction)
      modifies this`badStart, this`pwmCtrl, this`dcmHysteresis, this`rectDitherErr, this`pwmRectMax, this`pwmRect
      ensures State() == Perturb(cfg, old(State()), direction)
    {
      hide Limit, Fade, U16, TruncDiv;
      badStart := badStart || (pwmCtrl == 0 && direction <= 0);
      pwmCtrl := Constrain(pwmCtrl + direction, CTRL_MIN, cfg.ctrlMax);
      assert State() == Moved(cfg, old(State()), direction);
      if manualRect >= 0 {
        pwmRect := U16(Constrain(manualRect, cfg.rectMin, cfg.pwmMax - pwmCtrl - 1));
      } else {
        FollowCtrl(largerDecrease);
      }
    }

    method PwmPerturb(direction: int)
      requires Valid()
      modifies this
      ensures Valid() && State() == Perturb(cfg, old(State()), direction)
      ensures history == old(history) + PerturbTrace(cfg, old(State()), direction)
    {
      hide Perturb, CommitTrace;
      var largerDecrease := -direction > cfg.pwmMax / 50;
      MoveDuty(direction, largerDecrease);
      DrvCommit(largerDecrease, direction);
    }

    /** `ok` is false where the source throws std::out_of_range. */
    method PwmPerturbFractional(directionFloat: Float) returns (ok: bool)
      requires Valid()
      modifies this
      ensures ok == InRange(cfg, directionFloat)
      ensures Valid() && State() == PerturbFractional(cfg, old(State()), directionFloat)
      ensures history == old(history) + OpTrace(cfg, old(State()), OpFractional(directionFloat))
    {
      hide Perturb, PerturbTrace, I16;
      if !(directionFloat.Num? && AbsR(directionFloat.r) <= cfg.pwmMax as real) {
        return false;
      }
      var f := directionFloat.r + directionFloatBuffer;
      directionFloatBuffer := 0.0;
      var directionInt := I16(Trunc(f));
      if directionInt != 0 {
        PerturbKeepsFraction(cfg, State(), directionInt);
        PwmPerturb(directionInt);
      }
      directionFloatBuffer := directionFloatBuffer + f - directionInt as real;
      ok := true;
    }

    static lemma PerturbKeepsFraction(c: Config, s: Conv, d: int)
      requires ValidConfig(c)
      ensures Perturb(c, s, d).frac == s.frac
    {
    }

    method DrvCommitLsOff()
      requires regIn == pwmCtrl
      modifies this`regEn, this`history
      ensures Regs(regIn, regEn) == Regs(pwmCtrl, pwmCtrl + pwmRect)
      ensures history == old(history) + [Regs(pwmCtrl, pwmCtrl + pwmRect)]
    {
      UpdateEn(pwmCtrl + pwmRect);
    }

    method Disable()
      requires Valid()
      modifies this
      ensures Valid() && State() == Converter.Disable(old(State()))
      ensures history == old(history) + OpTrace(cfg, old(State()), OpDisable)
    {
      hide OpTrace;
      DisableTrace(cfg, State());
      UpdateIn(0);
      UpdateEn(0);
      pwmCtrl := 0;
      pwmRect := 0;
      syncRectEnabled := false;
    }

    static lemma DisableTrace(c: Config, s: Conv)
      requires ValidConfig(c)
      ensures OpTrace(c, s, OpDisable) == [Regs(0, s.ctrl + s.rect), Regs(0, 0)]
    {
      hide Step;
    }

    method SetManualRect(ls: int)
      requires Valid()
      modifies this
      ensures Valid() && State() == Converter.SetManualRect(cfg, old(State()), ls)
      ensures history == old(history) + OpTrace(cfg, old(State()), OpManualRect(ls))
    {
      if ls < 0 {
        manualRect := -1;
        return;
      }
      manualRect := Constrain(ls, cfg.rectMin, cfg.pwmMax - pwmCtrl - 1);
      pwmRect := U16(manualRect);
      DrvCommitLsOff();
    }

    method SyncRectMinDuty()
      requires Valid()
      modifies this
      ensures Valid() && State() == Converter.SyncRectMinDuty(cfg, old(State()))
      ensures history == old(history) + OpTrace(cfg, old(State()), OpSyncRectMin)
    {
      if pwmRect > cfg.rectMin {
        pwmRect := cfg.rectMin;
        DrvCommitLsOff();
      }
    }

    method EnableSyncRect(enable: bool, overwriteForced: bool)
      requires Valid()
      modifies this
      ensures Valid() && State() == Converter.EnableSyncRect(cfg, old(State()), enable, overwriteForced)
      ensures history == old(history) + OpTrace(cfg, old(State()), OpEnableSyncRect(enable, overwriteForced))
    {
      var en := enable;
      if forcedPwm && !overwriteForced {
        en := true;
      }
      syncRectEnabled := en;
      if !en {
        SyncRectMinDuty();
      }
    }

    method ForcePwm(on: bool)
      requires Valid()
      modifies this`forcedPwm
      ensures Valid() && State() == old(State()).(forced := on)
    {
      forcedPwm := on;
    }

    method SetRectOnOffset(counts: int)
      requires Valid()
      modifies this`rectOnOffset
      ensures Valid() && State() == old(State()).(offset := I16(counts))
    {
      rectOnOffset := I16(counts);
    }

    // ---- diode emulation ---------------------------------------------------------------------

    method ComputeDCM(vh: real, vl: real, il: real) returns (dcm: bool)
      requires ValidConfig(cfg)
      modifies this`dcmHysteresis
      ensures dcm == ComputeDcm(cfg, old(State()), vh, vl, il)
      ensures State() == old(State()).(dcm := dcm)
    {
      var factor := if dcmHysteresis then 1.8 else 2.0;
      dcm := (vh != 0.0 && RippleCurrent(cfg, vh, vl) > il * factor) || il < 0.1;
      if forcedPwm {
        dcm := false;
      }
      if dcm != dcmHysteresis {
        dcmHysteresis := dcm;
      }
    }

    method EstimateRatio(vh: real, vl: real) returns (convRatioWCE: real)
      ensures convRatioWCE == WorstCaseRatio(cfg.boost, vh, vl)
    {
      convRatioWCE := if cfg.boost then BoostRatio(vh, vl) else BuckRatio(vh, vl);
      hide BoostRatio, BuckRatio, Inflated;
      convRatioWCE := Inflated(convRatioWCE);
      convRatioWCE := if cfg.boost then MaxR(convRatioWCE, 1.01) else MinR(convRatioWCE, 0.99);
    }

    method ComputeSyncRectRatio(vh: real, vl: real, il: real)
      requires ValidConfig(cfg)
      modifies this`outInVoltageRatio, this`dcmHysteresis, this`pwmRectRatioDCM
      ensures State() == Converter.ComputeSyncRectRatio(cfg, old(State()), vh, vl, il)
    {
      hide WorstCaseRatio, RippleCurrent, RectCtrlRatio;
      var convRatioWCE := EstimateRatio(vh, vl);
      outInVoltageRatio := convRatioWCE;
      var dcm := ComputeDCM(vh, vl, il);
      if dcm {
        if il < 0.01 || vl < 1.0 {
          pwmRectRatioDCM := 0.0;
        } else {
          pwmRectRatioDCM := RectCtrlRatio(cfg.boost, convRatioWCE);
        }
      }
    }

    method UpdateSyncRectMaxDuty(m: Meas) returns (vr: real)
      requires Valid()
      modifies this
      ensures Valid() && State() == UpdateMaxDuty(cfg, old(State()), m) && vr == State().vr
      ensures history == old(history) + OpTrace(cfg, old(State()), OpUpdateMax(m))
    {
      hide Limit, Converter.ComputeSyncRectRatio;
      var vh := if cfg.boost then m.vout else m.vin;
      var vl := if cfg.boost then m.vin else m.vout;
      ComputeSyncRectRatio(vh, vl, m.il);
      if manualRect >= 0 {
        KeepsDuty(cfg, old(State()), vh, vl, m.il);
        return outInVoltageRatio;
      }
      KeepsDuty(cfg, old(State()), vh, vl, m.il);
      ComputePwmRectMax();
      if pwmRect > pwmRectMax {
        pwmRect := pwmRectMax;
        DrvCommitLsOff();
      }
      vr := outInVoltageRatio;
    }

    static lemma KeepsDuty(c: Config, s: Conv, vh: real, vl: real, il: real)
      requires ValidConfig(c)
      ensures var t := Converter.ComputeSyncRectRatio(c, s, vh, vl, il);
              t.ctrl == s.ctrl && t.rect == s.rect && t.manual == s.manual
    {
    }
  }
}
