/** Whole runs of the control machine: backoff safety in every reachable state, and a backoff that
    can neither be shortened nor kept alive by repeating trips. */
module ControllerRuns {
  import opened Numbers
  import opened Converter
  import opened ConverterWindow
  import opened Controller
  import opened ControllerSafety
  import opened ControllerSweep

  /** State after a sequence of events. */
  function Reach(c: Setup, s: Ctl, es: seq<Event>): Ctl
    requires ValidSetup(c) && forall e :: e in es ==> ValidEvent(e)
    decreases |es|
  {
    if es == [] then s else Reach(c, Apply(c, s, es[0]), es[1..])
  }

  lemma {:induction false} ReachSafe(c: Setup, s: Ctl, es: seq<Event>)
    requires ValidSetup(c) && Safe(c, s) && forall e :: e in es ==> ValidEvent(e)
    ensures Safe(c, Reach(c, s, es))
    decreases |es|
  {
    if es != [] {
      StepSafe(c, s, es[0]);
      hide Apply, Safe;
      ReachSafe(c, Apply(c, s, es[0]), es[1..]);
    }
  }

  lemma BeginSafe(c: Setup, boot: nat)
    requires ValidSetup(c)
    ensures Safe(c, Begin(c, boot))
  {
  }

  /** Backoff safety: from power-up, whatever the interleaving of real-time iterations, console
      commands, watchdogs and time, a running backoff finds the control switch off and no sweep
      active; the converter was never started by a step that is not positive; and the boot-duty mode,
      which ignores the backoff, cannot be reached by the automatic tick. Where there is a bootstrap
      minimum the duty window holds. For the low side see ControllerLowSide. */
  lemma BackoffSafety(c: Setup, boot: nat, es: seq<Event>)
    requires ValidSetup(c) && forall e :: e in es ==> ValidEvent(e)
    ensures var t := Reach(c, Begin(c, boot), es);
            && (InBackoff(t) ==> t.conv.ctrl == 0 && !t.sweeping)
            && !t.conv.badStart
            && (!t.manualPwm ==> t.bootTarget == 0)
            && t.conv.ctrl <= c.conv.ctrlMax
            && (c.conv.rectMin >= 1 ==> Window(c.conv, t.conv))
  {
    BeginSafe(c, boot);
    ReachSafe(c, Begin(c, boot), es);
  }

  // ---- the deadline --------------------------------------------------------------------------

  predicate Clears(s: Ctl, e: Event) { e.SweepCmd? || (e.StuckWatchdog? && !s.manualPwm) }

  /** While a backoff runs, no event but a clear moves its deadline earlier; the deadline moves only
      for a strictly longer request, and then to that length from now. */
  lemma DeadlineOnlyExtends(c: Setup, s: Ctl, e: Event)
    requires ValidSetup(c) && Safe(c, s) && ValidEvent(e) && InBackoff(s) && !Clears(s, e)
    ensures var t := Apply(c, s, e);
            && t.backoffUntil >= s.backoffUntil
            && ((t.backoffUntil == s.backoffUntil && t.backoffArmed == s.backoffArmed)
                || (t.backoffArmed > s.backoffArmed && t.backoffArmed in {DEFAULT_BACKOFF, LONG_BACKOFF}
                    && t.backoffUntil == s.now + t.backoffArmed * SECOND))
  {
    hide Kept, SetManualRect, EnableSyncRect, Disable;
    if e.RtNewData? { NewDataKeepsDeadline(c, s, e.i); }
    hide NewData;
  }

  /** In a backoff the whole real-time iteration leaves the timers alone. */
  lemma NewDataKeepsDeadline(c: Setup, s: Ctl, i: RtIn)
    requires ValidSetup(c) && Safe(c, s) && ValidTick(i.tick) && InBackoff(s)
    ensures var t := NewData(c, s, i);
            t.backoffUntil == s.backoffUntil && t.backoffArmed == s.backoffArmed && t.now == s.now
  {
    hide Kept, Finish, Route, Decide, ScanTo, Perturb, Protect;
  }

  // ---- episodes ------------------------------------------------------------------------------

  /** Sum of the members of S up to n. */
  function SumUpTo(S: set<nat>, n: nat): nat {
    if n == 0 then 0 else SumUpTo(S, n - 1) + if n in S then n else 0
  }

  lemma {:induction false} SumMonotone(S: set<nat>, m: nat, n: nat)
    requires m <= n
    ensures SumUpTo(S, m) <= SumUpTo(S, n)
  {
    if m < n { SumMonotone(S, m, n - 1); }
  }

  /** Since its start at t0 the episode has only been prolonged by the lengths up to the armed one. */
  ghost predicate Episode(s: Ctl, S: set<nat>, t0: nat) {
    s.backoffUntil <= t0 + SumUpTo(S, s.backoffArmed) * SECOND
  }

  /** One more trip, of whatever length from S, at whatever moment of the episode. */
  lemma EpisodeGoesOn(s: Ctl, sec: nat, S: set<nat>, t0: nat)
    requires InBackoff(s) && Episode(s, S, t0) && sec in S
    ensures Episode(ShutdownDcdc(s, sec), S, t0)
    ensures ShutdownDcdc(s, sec).backoffUntil
            >= if s.backoffUntil <= s.now + s.backoffArmed * SECOND then s.backoffUntil else 0
  {
    if sec > s.backoffArmed {
      SumMonotone(S, s.backoffArmed, sec - 1);
    }
  }

  /** A protection that trips again and again: each item waits, then requests a length. */
  ghost predicate TripsInside(s: Ctl, trips: seq<(nat, nat)>, S: set<nat>)
    decreases |trips|
  {
    InBackoff(s)
    && (trips != [] ==>
          var s1 := s.(now := s.now + trips[0].0);
          trips[0].1 in S && InBackoff(s1) && TripsInside(ShutdownDcdc(s1, trips[0].1), trips[1..], S))
  }

  function AfterTrips(s: Ctl, trips: seq<(nat, nat)>): Ctl
    decreases |trips|
  {
    if trips == [] then s
    else AfterTrips(ShutdownDcdc(s.(now := s.now + trips[0].0), trips[0].1), trips[1..])
  }

  /** However often trips with lengths from S repeat, an episode is over within the sum of S. */
  lemma {:induction false} TripsCannotStarve(s: Ctl, trips: seq<(nat, nat)>, S: set<nat>, top: nat, t0: nat)
    requires TripsInside(s, trips, S) && Episode(s, S, t0)
    requires s.backoffArmed <= top && forall x :: x in S ==> x <= top
    ensures AfterTrips(s, trips).now < t0 + SumUpTo(S, top) * SECOND
    decreases |trips|
  {
    if trips == [] {
      SumMonotone(S, s.backoffArmed, top);
    } else {
      var s1 := s.(now := s.now + trips[0].0);
      EpisodeGoesOn(s1, trips[0].1, S, t0);
      TripsCannotStarve(ShutdownDcdc(s1, trips[0].1), trips[1..], S, top, t0);
    }
  }

  // ---- the machine ---------------------------------------------------------------------------

  /** The lengths the firmware requests. */
  const LENGTHS: set<nat> := {DEFAULT_BACKOFF, LONG_BACKOFF}

  lemma {:induction false} SumOfLengths(n: nat)
    ensures SumUpTo(LENGTHS, n)
            == if n >= LONG_BACKOFF then 35 else if n >= DEFAULT_BACKOFF then 5 else 0
  {
    if n > 0 { SumOfLengths(n - 1); }
  }

  /** The backoff lasts through the whole event sequence, and nobody clears it. */
  ghost predicate Continuous(c: Setup, s: Ctl, es: seq<Event>)
    requires ValidSetup(c) && forall e :: e in es ==> ValidEvent(e)
    decreases |es|
  {
    InBackoff(s) && (es != [] ==> !Clears(s, es[0]) && Continuous(c, Apply(c, s, es[0]), es[1..]))
  }

  lemma NewDataTakesNoTime(c: Setup, s: Ctl, i: RtIn)
    requires ValidSetup(c) && ValidTick(i.tick)
    ensures NewData(c, s, i).now == s.now
  {
    hide Update, UpdateManual, Guard, Perturb, Disable;
    GuardTakesNoTime(c, s, i);
    var g := Guard(c, s, i).0;
    UpdateKeepsMode(c, g, i.tick);
    ManualTakesNoTime(c, g);
  }

  lemma GuardTakesNoTime(c: Setup, s: Ctl, i: RtIn)
    requires ValidSetup(c)
    ensures Guard(c, s, i).0.now == s.now
  {
    hide Protect;
    ProtectTakesNoTime(c, s, i.protect);
  }

  lemma ProtectTakesNoTime(c: Setup, s: Ctl, p: ProtectIn)
    requires ValidSetup(c)
    ensures Protect(c, s, p).0.now == s.now
  {
    hide ReactReverse, ReactLowCurrent, UpdateMaxDuty, Disable;
    if !p.TripEarly? { ReactTakesNoTime(c, s, p.rev, p.lowCurrent); }
  }

  lemma ReactTakesNoTime(c: Setup, s: Ctl, rev: Reverse, low: bool)
    ensures ReactLowCurrent(c, ReactReverse(c, s, rev), low).now == s.now
  {
    hide SyncRectMinDuty, Disable;
  }

  lemma ManualTakesNoTime(c: Setup, s: Ctl)
    requires ValidSetup(c)
    ensures UpdateManual(c, s).now == s.now
  {
    hide Perturb, EnableSyncRect, Disable, RampStep, Constrain;
  }

  /** Only the passage of time takes time, and it starts no backoff. */
  lemma TimeTakesTime(c: Setup, s: Ctl, e: Event)
    requires ValidSetup(c) && ValidEvent(e)
    ensures var t := Apply(c, s, e);
            if e.Advance? then !InBackoff(s) ==> !InBackoff(t) else t.now == s.now
  {
    hide NewData, SetManualRect, EnableSyncRect, Disable;
    if e.RtNewData? { NewDataTakesNoTime(c, s, e.i); }
  }

  /** Whatever event starts a backoff, and however many trips of whatever length it holds, an episode of
      the firmware's two lengths begins with it. */
  lemma EpisodeBegins(c: Setup, s: Ctl, e: Event)
    requires ValidSetup(c) && Safe(c, s) && ValidEvent(e)
    requires !InBackoff(s) && InBackoff(Apply(c, s, e))
    ensures Episode(Apply(c, s, e), LENGTHS, s.now)
  {
    StepSafe(c, s, e);
    TimeTakesTime(c, s, e);
    hide Apply;
    SumOfLengths(Apply(c, s, e).backoffArmed);
  }

  /** On the whole machine: a backoff that starts with event e and is not cleared is over 35 s later,
      whatever trips, commands and iterations happen meanwhile. */
  lemma BackoffEndsWithin35Seconds(c: Setup, s: Ctl, e: Event, es: seq<Event>)
    requires ValidSetup(c) && Safe(c, s) && ValidEvent(e) && forall x :: x in es ==> ValidEvent(x)
    requires !InBackoff(s) && Continuous(c, Apply(c, s, e), es)
    ensures Reach(c, Apply(c, s, e), es).now < s.now + 35 * SECOND
  {
    hide Apply;
    EpisodeBegins(c, s, e);
    StepSafe(c, s, e);
    EpisodeEndsWithin35Seconds(c, Apply(c, s, e), es, s.now);
  }

  /** On the whole machine: 35 s after an episode began it is over, whatever trips, commands and
      iterations happened meanwhile. */
  lemma {:induction false} EpisodeEndsWithin35Seconds(c: Setup, s: Ctl, es: seq<Event>, t0: nat)
    requires ValidSetup(c) && Safe(c, s) && forall e :: e in es ==> ValidEvent(e)
    requires Continuous(c, s, es) && Episode(s, LENGTHS, t0)
    ensures Reach(c, s, es).now < t0 + 35 * SECOND
    decreases |es|
  {
    SumOfLengths(s.backoffArmed);
    if es != [] {
      var t := Apply(c, s, es[0]);
      StepSafe(c, s, es[0]);
      DeadlineOnlyExtends(c, s, es[0]);
      SumOfLengths(t.backoffArmed);
      hide Apply, Safe, SumUpTo;
      EpisodeEndsWithin35Seconds(c, t, es[1..], t0);
    }
  }
}
