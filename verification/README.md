# Verification model of the fugu MPPT firmware

A solar charge controller drives a synchronous buck (or boost) converter. The safety of the device rests on
a few stateful pieces of code: the duty-count arithmetic of the converter, the machine that trips, backs off,
sweeps and tracks, and the charger that ends a charge and pins the pack voltage. This project models those
pieces, with the host-side and storage algorithms whose correctness is not obvious either, and proves what
they are meant to guarantee.

Each stateful component comes in two layers. A *specification layer* of values and functions says what every
step does to the state; the hard properties are lemmas about arbitrary runs of those steps. A *device layer*
holds the objects themselves: classes with the source's fields and loops, whose methods are proved to do
exactly what the functions say, so the lemmas are statements about that code too. `dafny verify dfyconfig.toml`
checks everything.

"Low side" is the rectifier switch, as in the source; on a boost board that is the high side.

| files | component |
|---|---|
| Numbers | integer casts, C rounding, IEEE special values |
| Converter, ConverterDevice | converter state machine: duty counts, DCM/CCM limit, dither, fractional steps, register writes |
| ConverterWindow, ConverterMode, ConverterDiode, ConverterDrift, ConverterCommit, ConverterFeedback | its duty window, the CCM/DCM decision against a coil model, diode emulation on a steady and on a moving plant, commit order, error feedback |
| Controller, ControllerDevice | trips, backoff, sweep, target fade, manual mode, console commands, real-time iteration |
| ControllerSafety, ControllerRuns, ControllerSweep, ControllerManual, ControllerLowSide, ControllerWindow | its invariant, whole runs, duty discipline and sweeps, the manual ramp, the low side of a stopped converter, the duty window under the controller |
| ControllerTick, ControllerFade, ControllerSweepEnd, ControllerTrips, ControllerConsole | what a tick does to the duty, the fade to a target, the end of a sweep, stops and starts, the console's promises |
| Charger, ChargerDevice, ChargerTermination, ChargerPinning, ChargerRuns, ChargerLimit | termination latch, coulomb counter, pack-voltage pinning, runs of all three together, and the voltage limit they come to |
| Sampling | poll schedule of a muxed ADC |
| ConfText, ConfFile, ConfUpdate, ConfFileLaws, ConfFileLimits | configuration file: parser against in-place rewriter |
| QuadFit, LeastSquares | Gauss-Jordan solver and least-squares quadratic |
| Base64, CoreDump | chunked base 64 transfer of a core dump (section 4 of RFC 4648) |
| OrderStatistics, Median, ScopeChannel | what a median is; running median and sample ring of the scope clients |

## What the proofs found

- **Boost at full duty.** With a bootstrap minimum the complement `driverPwmMax - pwmCtrl - 1` never wraps. A
  boost converter has none, and there it wraps to 65535 exactly at full duty (`CcmLimitWrapsExactly`). Three
  operations from power-up then put both switches of any boost converter on for part of the same period
  (`BoostFullDutyBreaksWindow`). `StepInWindowExactly` and `RunInWindowExactly` say for every configuration which
  operations keep the duty window: all of them with a bootstrap minimum; without one, those that stay below full
  duty or leave the low side off there. Under the controller the converter is outside the window exactly at full
  duty with the low side on (`ReachInWindowExactly`), and a plain `dc` to full duty takes it there
  (`DcFullDutyLeavesWindow`).
- **Low side in a backoff.** "Disabled" means that the control count is 0. `dc <hs> <ls>` has no backoff gate and
  commits the low-side count at once, so during a backoff it switches the low side, up to 30 s long, and neither
  `dc 0` nor a real-time iteration stops it (`HeldLowSidePulsesInBackoff`). `BackoffLowSideExactly` says for all
  runs when both switches are off.
- **Shutdown order.** `disable()` writes IN before EN, so between the two writes the low side is on for the sum
  of both counts. It stays within its old on-time only if the converter was already off
  (`ShutdownBoundedExactly`).
- **Starting backwards.** The only perturbations whose commit exceeds old and new on-time are small negative
  steps of a disabled converter that do not lower its low side (`CommitBoundedExactly`); no run of the controller
  steps a disabled converter by a count that is not positive (`BackoffSafety`).
- **Clamps of the ratio estimate.** With 1% measurements the DCM ratio is safe exactly up to M = 0.99 for a buck
  and M = 1010/99 for a boost converter (`DcmRatioIsSafe`).
- **Backoff length.** `stopAndBackoff(sec)` arms the default 5 s whatever `sec` is; the seconds only delay the
  next start. All requests are therefore 5 s or 30 s and an episode lasts less than 35 s.
- **Invalid capacity.** src/charger.h:57-59 warns that a missing or invalid `bat_c` disables termination. Only a missing
  one does: with a capacity of 0 or below the latch still sets, above `cv_eoc` or `cv_min` (`Full`, `LatchSetsExactly`).
- **Lost targets.** A fade arrives (`FadeArrives`), but at the lowest duty the bounce drops any target, as it does with
  fewer than 128 counts a period once a count is to go in one tick (`FadingTick`, `NearExactly`). With more than
  40 s / pwmCtrlMax between ticks a fade can pass its target (`OvershootsExactly`).
- **Stale float glide.** A full pack can be floated at `Vbat_max`: a latch, a release, and a second latch first
  seen without bus authority leave the glide of the release in place. `FloatExactly` says when, and
  `StaleGlideFloatsAtMaximum` gives the cell voltages. The comments at src/charger.h:225-228 and 286 promise `Vbat_fallback`; the
  model follows the code.
- **Poll position.** The position is a `uint8_t`; with more than 129 muxed sensors it wraps before the end of the
  order, and some sensors would never be polled (`AllPolledExactly`).
- **Solver without row exchange.** `_solve3` reports "singular" for some systems with one solution
  (`ZeroPivotRefused`); `NoSolutionExactly` says for which. The normal equations of points on three abscissae have
  positive pivots, so there only the threshold of 1e-12 refuses (`ThreeAbscissaeExactly`).
- **Zero as "no time yet".** A first scope batch at time 0.0 is taken for none; the second restarts the clock, and
  the timestamps may step back there (`StampsIncreaseExactly`).
- **Stray data lines.** The host cannot tell a status line made of base 64 digits from a line of the dump. The dump
  survives such lines exactly if none stands before its last line, nor after it when its length is a multiple of
  three; otherwise decoding fails or returns more bytes than announced (`StrayLinesExactly`, `StrayReplyExactly`).
- **Failed fsync.** `add()` then returns false with the new file written and the old map kept; the contract of
  `Add` states it. An assignment over 255 characters does not survive the parser's buffer
  (`AddKeepsInStepExactly`).

## Model

| member | source | states |
|---|---|---|
| ConverterWindow.CcmLimitWrapsExactly | src/buck.h:592-618 | inside the window the uint16 complement of the control count is exact if and only if there is a bootstrap minimum or the control count is below its maximum |
| ConverterWindow.BoostFullDutyBreaksWindow | src/buck.h:592-618 | for every boost configuration, a run of three operations from the initial state that ends with the control switch on for the whole period and the low side on |
| ConverterWindow.DcmLimitBelowCcmLimit | src/buck.h:592-618 | the DCM limit never exceeds the CCM limit at the same duty, for any ratio, offset and dither |
| ConverterWindow.PerturbKeepsWindow | src/buck.h:620-667 | an integer step ends in the duty window with the converter running, even from outside it: with a bootstrap minimum always, without one if it ends below full duty |
| ConverterWindow.FractionalKeepsWindow | src/buck.h:676-690 | a fractional step, including one that is rejected, keeps the duty window under the same condition on its integer part as an integer step |
| ConverterWindow.UpdateMaxKeepsWindow | src/buck.h:804-821 | a sensor update keeps the duty window in every configuration, whatever the readings |
| ConverterWindow.ManualRectKeepsWindow | src/buck.h:437-447 | holding or releasing the low side by hand keeps the duty window for any requested count, with a bootstrap minimum or below full duty |
| ConverterWindow.PerturbInWindowExactly | src/buck.h:592-667 | without a bootstrap minimum a step ends in the duty window, from inside or outside it, if and only if it ends below full duty, or the low side is not held and is presumed, rounded or switched to nothing there |
| ConverterWindow.StepInWindowExactly | src/buck.h:437-853 | every configuration and every public operation: the duty window is kept if and only if there is a bootstrap minimum or the operation meets the stated guard on steps and holds at full duty |
| ConverterWindow.RunInWindowExactly | src/buck.h:437-853 | every configuration: all states of a run are in the duty window if and only if each of its operations meets that guard where it is issued |
| ConverterWindow.RunKeepsWindow | src/buck.h:437-853 | with a bootstrap minimum, after any sequence of operations: ctrl within its maximum, ctrl + rect within the period (equal only at full duty), bootstrap minimum kept while running, no wrap-around |
| ConverterWindow.RunKeepsDuty | src/buck.h:592-690 | every configuration, after any sequence of operations: ctrl within its maximum, a held count within the period, the carried fraction inside (-1, 1), the dither carry within one half |
| ConverterWindow.InitInWindow | src/buck.h:575-578 | the initial state is in the window |
| ConverterWindow.IntStepIsTrunc | src/buck.h:676-690 | the int16 cast of an accepted request is exact and what is carried is a proper fraction |
| ConverterWindow.FadeApproaches | src/buck.h:656-663 | below its limit the low side makes progress by at most one count plus a 64th of the distance; above it, it lands on the limit at once |
| ConverterMode.ModeExactly | src/buck.h:705-729 | with the coil current rising and falling in volt-seconds balance: a sample turns CCM to DCM exactly if the valley of the current is negative or the current below 0.1 A, DCM to CCM exactly if the swing is at most 1.8 times the current, and forced PWM is CCM |
| ConverterMode.ModeWithoutVoltage | src/buck.h:717-722 | without a voltage on the high side only the current decides |
| ConverterMode.NoReverseCurrent | src/buck.h:705-821 | after any run with 1% samples, an automatic limit or low-side on-time past the zero crossing (beyond a count and the bootstrap minimum) means that PWM is forced or the valley of the current is not negative |
| ConverterMode.ModeChangesApart | src/buck.h:717-729 | a mode that was left is not taken again before the swing has moved by a tenth against the current, so it stays on unchanged readings |
| ConverterMode.ContinuousLimit | src/buck.h:592-618 | in CCM a sample sets the limit to the whole complement of the control switch |
| ConverterMode.LargeDecreaseExactly | src/buck.h:620-667 | a step down by more than a fiftieth of the period goes to DCM and the minimum low side at once unless PWM is forced; no other step changes the mode |
| ConverterMode.HeldExactly | src/buck.h:620-667 | a held low side follows every step within the room the control switch leaves, and a sample leaves it and its limit alone |
| ConverterMode.DcmRatioExactly | src/buck.h:742-802 | the ratio a DCM sample sets is 0 below 0.01 A or 1 V, else at most the zero crossing and at least that of a 4.1% higher conversion ratio |
| ConverterMode.DcmLimitExactly | src/buck.h:592-618 | the DCM limit is a whole number within a count of ctrl times ratio plus offset, between bootstrap minimum and complement |
| ConverterMode.ReportedRatio | src/buck.h:766-789 | the reported conversion ratio is not below the true one and at most 4.1% above |
| ConverterDiode.WorstCaseRatioIsSafe | src/buck.h:766-789 | with both voltages known to 1%, the estimated conversion ratio is at least the true one if and only if the true one is at most 0.99 (buck) or 1010/99 (boost) |
| ConverterDiode.DcmRatioIsSafe | src/buck.h:742-802 | with both voltages known to 1%, the DCM ratio is at most the true zero-crossing ratio if and only if the true conversion ratio is at most 0.99 (buck) or 1010/99 (boost) |
| ConverterDiode.DcmLimitIsSafe | src/buck.h:592-618 | rounding, dither carry, cast and clamps move the limit at most one count past the zero crossing, unless it is at the bootstrap minimum |
| ConverterDiode.PerturbEmulates | src/buck.h:620-667 | after a step in DCM, limit and low-side on-time are at most one count past the zero crossing or at the bootstrap minimum |
| ConverterDiode.UpdateMaxEmulates | src/buck.h:804-821 | after a sensor update in DCM, limit and low-side on-time are at most one count past the zero crossing or at the bootstrap minimum |
| ConverterDiode.RunEmulates | src/buck.h:592-821 | the same bound after any run of operations with 1% samples and no late turn-off offset, whenever a step, integer or fractional, or a sensor update has just computed the limit in DCM |
| ConverterDrift.DriftEmulates | src/buck.h:592-821 | on a plant whose true voltages move within the clamps of the ratio estimate, after any run with 1% samples, a limit just computed in DCM and the low-side on-time are at most one count past the zero crossing of the plant last sampled in DCM |
| ConverterDrift.StaleRatioCost | src/buck.h:592-821 | so they pass the present crossing by at most one count plus, per control count, what the crossing has moved down since that sample |
| ConverterCommit.CommitBoundedExactly | src/buck.h:236-272 | every register state of a perturbation's commit keeps the low side within the larger of old and new on-time, except exactly for a small negative step of a disabled converter that does not lower its low side |
| ConverterCommit.ShutdownBoundedExactly | src/buck.h:286-301 | between the two shutdown writes the low side stays within ctrl + rect, and within its old on-time only if ctrl was 0 |
| ConverterCommit.StepCommitsBounded | src/buck.h:236-283 | every operation's commit keeps the low side within the larger of old and new on-time and ends with the registers showing the new duty, apart from a step that starts a disabled converter backwards and the shutdown of a running one |
| ConverterCommit.RunCommitsBounded | src/buck.h:236-283 | after any run, the commit of the next such operation keeps the low side within the larger of old and new on-time in every register state |
| ConverterCommit.UpdateMaxOnlyClamps | src/buck.h:804-821 | a sensor update never raises the low side and does not touch the control switch |
| ConverterFeedback.RunConserves | src/buck.h:604-609 | over any run, issued low-side counts minus ideal ones equal the change of the dither carry |
| ConverterFeedback.DitherErrorAtMostOne | src/buck.h:604-609 | over any run of any configuration, issued low-side counts and ideal ones differ by at most one count in total, with the carry within one half |
| ConverterFeedback.FractionsConserve | src/buck.h:676-690 | over any sequence of requests, accepted ones sum to the steps issued plus the change of a buffer that stays inside (-1, 1) |
| ConverterDevice.SynchronousConverter.constructor | src/buck.h:575-578 | a new converter is off, with no register write yet |
| ConverterDevice.SynchronousConverter.DrvCommit | src/buck.h:236-272 | the registers end at the new duty after exactly the listed intermediate states |
| ConverterDevice.SynchronousConverter.ComputePwmRectMax | src/buck.h:592-618 | limit and dither carry become those of the specification, nothing else changes |
| ConverterDevice.SynchronousConverter.PwmPerturb | src/buck.h:620-667 | fields become those of `Converter.Perturb`, register writes and their order those of `ConverterCommit.PerturbTrace` |
| ConverterDevice.SynchronousConverter.PwmPerturbFractional | src/buck.h:676-690 | false exactly for a request out of range, which changes nothing; otherwise at most one integer step, and the remainder carried |
| ConverterDevice.SynchronousConverter.Disable | src/buck.h:693-703 | both counts and sync rectification off; IN is written before EN |
| ConverterDevice.SynchronousConverter.SetManualRect | src/buck.h:437-447 | holds the clamped low-side count and commits it, or hands it back |
| ConverterDevice.SynchronousConverter.SyncRectMinDuty | src/buck.h:844-853 | lowers the low side to the bootstrap minimum, never raises it |
| ConverterDevice.SynchronousConverter.EnableSyncRect | src/buck.h:828-836 | forced PWM wins unless overridden; disabling drops to the minimum |
| ConverterDevice.SynchronousConverter.ComputeDCM | src/buck.h:717-729 | computes `Converter.ComputeDcm`, of which `ModeExactly` says what it means, and remembers it |
| ConverterDevice.SynchronousConverter.ComputeSyncRectRatio | src/buck.h:766-802 | the fields become those of `Converter.ComputeSyncRectRatio`: safe-side ratio, mode decision, and a new DCM ratio only in DCM |
| ConverterDevice.SynchronousConverter.UpdateSyncRectMaxDuty | src/buck.h:804-821 | new limit, and an immediate commit if and only if the low side had to be lowered |
| ControllerRuns.BackoffSafety | src/mppt.h:302-365 | from power-up, after any interleaving of iterations, commands, watchdogs and time: a running backoff finds the control switch off and no sweep; the converter was never started by a non-positive step; the boot-duty mode is out of reach of the automatic tick; with a bootstrap minimum the duty window holds |
| ControllerLowSide.BackoffLowSideExactly | src/cli.cpp:136-176 | over the same runs: during a backoff the low side is off as well if and only if no `dc` with a positive low-side count was accepted while the control switch was off, or the pulse it started has since ended |
| ControllerLowSide.PulseStartsExactly | src/cli.cpp:168-175 | the low side of a converter with the control switch off starts switching by no event but such a `dc` |
| ControllerLowSide.PulseEndsExactly | src/buck.h:693-703 | it stops exactly by an event that runs disable(), a sweep that starts, the manual ramp leaving 0, and, without a bootstrap minimum, a hold of 0 or `sync off` |
| ControllerLowSide.HeldLowSidePulsesInBackoff | src/cli.cpp:168-175 | a run that switches the low side during a backoff: failed calibration, `dc` with a low-side count; `dc 0` and a real-time iteration after it change nothing |
| ControllerLowSide.WithoutHoldBothOff | src/cli.cpp:168-175 | in a run without any `dc` that holds a low-side count the low side is off whenever the control switch is |
| ControllerWindow.ReachInWindowExactly | src/main.cpp:570-995 | every reachable state of every configuration is in the duty window if and only if there is a bootstrap minimum, the control switch is below full duty, or the low side is off |
| ControllerWindow.EventInWindowExactly | src/cli.cpp:136-176 | an event other than a real-time iteration keeps the window, except exactly a `dc` that holds the low side of a converter without bootstrap minimum at full duty |
| ControllerWindow.ManualInWindowExactly | src/main.cpp:923-995 | a manual iteration ends in the window exactly if the duty it reissues is below full, or the low side is not held and is presumed, rounded or switched to nothing there |
| ControllerWindow.DcFullDutyLeavesWindow | src/mppt.cpp:377-405 | for every boost setup, a run out of the window: the calibration ends, `dc` asks for full duty, and undisturbed iterations in continuous conduction ramp up to it |
| ControllerRuns.ReachSafe | src/main.cpp:570-995 | the invariant behind backoff safety holds in every reachable state |
| ControllerRuns.BeginSafe | src/mppt.cpp:408-454 | the state after begin() satisfies that invariant, with or without a boot duty |
| ControllerSafety.StepSafe | src/main.cpp:570-995 | every single event keeps the invariant behind backoff safety |
| ControllerSafety.ScanSafe | src/mppt.cpp:107-124 | a controller output that is not finite leaves the loop with the converter off, in backoff, and a negative minimum |
| ControllerSafety.ScanNegative | src/mppt.cpp:107-150 | any negative output makes the minimum negative |
| ControllerSafety.UpdateSafe | src/mppt.cpp:17-287 | a control tick keeps that invariant, also when it trips half-way and the rest still runs |
| ControllerSafety.FinishSafe | src/mppt.cpp:227-278 | after a trip inside the tick the final step cannot start the converter again |
| ControllerSafety.StopSweepSafe | src/mppt.h:696-725 | ending a sweep keeps that invariant, with and without a power maximum |
| ControllerSafety.FractionMoves | src/buck.h:676-690 | a non-positive request never raises duty nor starts a stopped converter, a positive one raises it by less than the request plus one |
| ControllerSafety.RequestRange | src/mppt.cpp:244-258 | the scaled request lies in [-ctrl, cap] and has the sign of its value, or is a NaN |
| ControllerSafety.UpdateManualSafe | src/mppt.cpp:377-405 | the manual ramp keeps that invariant and only starts forwards |
| ControllerSafety.ProtectSafe | src/mppt.h:434-629 | every outcome of the protections keeps the invariant behind backoff safety |
| ControllerSafety.ControlBranchSafe | src/main.cpp:923-962 | the control branch keeps that invariant, whichever protection trips |
| ControllerSafety.NewDataSafe | src/main.cpp:903-995 | a whole real-time iteration keeps that invariant |
| ControllerSafety.CmdDcSafe | src/cli.cpp:136-176 | `dc` keeps that invariant for any duty and low-side argument |
| ControllerSafety.CmdSweepSafe | src/cli.cpp:256-266 | `sweep`, which clears the backoff, keeps that invariant |
| ControllerSafety.CmdSyncSafe | src/cli.cpp:93-107 | `sync` keeps that invariant |
| ControllerSafety.OtherCommandSafe | src/cli.cpp:124-187 | `mppt`, a failed OTA update and `short-ls` keep that invariant |
| ControllerRuns.DeadlineOnlyExtends | src/mppt.h:302-340 | during a backoff no event but a clear moves the deadline earlier; it moves only for a strictly longer request, to that length from now |
| ControllerRuns.NewDataKeepsDeadline | src/main.cpp:903-995 | a whole iteration during a backoff leaves both timers alone |
| ControllerRuns.TripsCannotStarve | src/mppt.h:312-340 | however often trips with lengths from a set repeat, an episode is over within the sum of the set |
| ControllerRuns.EpisodeBegins | src/mppt.h:312-340 | whatever event starts a backoff, with however many trips inside one iteration, an episode of lengths 5 s and 30 s begins at that moment |
| ControllerRuns.BackoffEndsWithin35Seconds | src/main.cpp:521-524 | on the whole machine a backoff that is not cleared is over within 35 s of the event that started it |
| ControllerRuns.EpisodeEndsWithin35Seconds | src/main.cpp:521-524 | the same from any moment of an episode: it is over 35 s after it began |
| ControllerSweep.LimitingTickNeverRaises | src/mppt.cpp:107-258 | for a running converter a tick with a negative controller output does not raise duty, despite bounce, fade, sweep and carried fraction; any other tick raises it by less than 16*pwmCtrlMax/2000 + 1 |
| ControllerSweep.CaptureFindsMaximum | src/mppt.cpp:166-199 | capturing a point keeps the peak the first maximum of the eligible points |
| ControllerSweep.SamplingTick | src/mppt.cpp:166-199 | a sampling tick keeps sweeping, captures the duty it sampled at and does not lower duty |
| ControllerSweep.StoppingTick | src/mppt.h:696-725 | a tick that ends the sweep commits the peak's duty, or leaves no target and a 30 s backoff |
| ControllerSweep.IterationIsUpdate | src/main.cpp:923-995 | during a sweep an iteration is one update() in an untouched state, or a protection ended the sweep |
| ControllerSweep.SweepClimbs | src/mppt.cpp:166-258 | over a sweep of any length duty never decreases and the peak is the first maximum of all points |
| ControllerSweep.SweepCommitsArgmax | src/mppt.h:696-712 | the stop commits the duty of the first point of maximal power at or above the minimum, or there is none, no target and a 30 s backoff |
| ControllerTick.StepExactly | src/mppt.cpp:242-278 | the end of a tick: value * pwmCtrlMax * dt / 40 s counts, within [-ctrl, 16 pwmCtrlMax / 2000], are moved in whole counts and the rest carried; sync rectification is as the current wants it or forced |
| ControllerTick.FirstStep | src/mppt.cpp:242-278 | the first tick moves nothing and only takes the time |
| ControllerTick.TrackingTick | src/mppt.cpp:107-278 | an ordinary tick exactly: the limiting controller's value and mode, a bounce at the ends of the range, else the tracker's value, none beyond what the controllers allow |
| ControllerTick.BootTick | src/mppt.cpp:289-374 | the boot-duty mode asks for no more than the way to its target, exactly that way once within a 512th of the range, and stops on an output that is no number |
| ControllerFade.FadingTick | src/mppt.cpp:200-258 | a tick with a target exactly: the gap, cut off at a 64th of the period down and a 128th up, is the control value; the target is dropped once reached or where the duty bounces |
| ControllerFade.FadeNeverOvershoots | src/mppt.cpp:200-258 | with ticks at least every 40 s / pwmCtrlMax a tick never leads away from the target nor past it |
| ControllerFade.OvershootsExactly | src/mppt.cpp:200-258 | whatever the time between ticks, the duty passes the target exactly if request and carried fraction go a whole count beyond it |
| ControllerFade.FadeArrives | src/mppt.cpp:200-258 | enough ticks without limitation bring the duty within a count of the target, which is then dropped and not before |
| ControllerSweepEnd.SweepTickExactly | src/mppt.cpp:166-258 | a sampling tick exactly: it captures the power and raises the duty by counts worth min(0.05 speed lim, speed, lim) |
| ControllerSweepEnd.TopTickStops | src/mppt.cpp:153-199 | at full duty the sweep stops |
| ControllerSweepEnd.SweepIsOver | src/mppt.cpp:153-258 | a sweep that no controller limits is over after a bounded number of ticks |
| ControllerSweepEnd.SweepThenFade | src/mppt.cpp:166-258 | a sweep that ends with a maximum is followed by a fade that brings the duty within a count of the first point of maximal power |
| ControllerTrips.GuardExactly | src/main.cpp:923-945 | the protections let an iteration go on exactly if none trips; reverse or low current then has the low side at its minimum, a high average reverse current the converter off |
| ControllerTrips.TripStops | src/main.cpp:923-945 | any trip ends with both switches and sync rectification off, no sweep, a backoff of 5 s, or 30 s where asked for, and no start for 4 s |
| ControllerTrips.AutomaticIteration | src/main.cpp:923-962 | an automatic iteration without a trip is one update() on a new sample, nothing without one, on a state in which at most the rectifier has been adjusted |
| ControllerTrips.ScanStopsExactly | src/mppt.cpp:107-124 | an output that is no number stops a converter above one percent duty, and no other |
| ControllerTrips.NotFiniteStops | src/mppt.cpp:107-278 | and the rest of that tick leaves it off |
| ControllerTrips.LatencyStops | src/main.cpp:677-697 | the latency watchdog stops a converter that tracks, with 4 s to the next start, and nothing else |
| ControllerTrips.StuckReleases | src/mppt.h:354-363 | the stuck watchdog leaves no backoff, limit, voltage control or target, and duty and sweep as they are |
| ControllerTrips.OthersStop | src/main.cpp:521-571 | a failed calibration, a missing sample and an update over the air stop the converter, with their delays |
| ControllerTrips.StallStopsExactly | src/main.cpp:570-600 | the converter is stopped exactly when the ADC has been stalled for more than 800 whole milliseconds; a good poll forgets a stall |
| ControllerTrips.CalibrationHoldsOff | src/main.cpp:903-922 | an iteration during calibration finds or leaves the converter off |
| ControllerTrips.StartsExactly | src/main.cpp:946-980 | an idle converter starts a sweep exactly if delay and backoff are over and voltages, temperatures and battery data allow it, from rest, and the next one 4 s later |
| ControllerTrips.SweepCommandStarts | src/cli.cpp:256-266 | `sweep` starts a fresh sweep out of manual mode and backoff |
| ControllerTrips.ResweepsExactly | src/mppt.cpp:68-80 | a running tracker starts over with a sweep exactly when one is due, the battery is not full and the output voltage does not limit |
| ControllerTrips.RestWaits | src/mppt.cpp:17-30 | an automatic tick of a converter at rest does nothing during backoff or calibration or without the conditions to start |
| ControllerTrips.RestartsLow | src/buck.h:620-703 | without sync rectification, as after any stop, a step leaves the automatic low side at its minimum |
| ControllerManual.RampApproaches | src/mppt.cpp:377-405 | outside a backoff a manual tick shortens the distance to a positive target by the ramp step, or to nothing |
| ControllerManual.RampReaches | src/mppt.cpp:377-405 | after n manual ticks outside a backoff exactly n ramp steps of the distance to a positive target are gone, and a reached target is held |
| ControllerManual.RampDownStops | src/mppt.cpp:377-405 | with target 0 the control switch is off after as many ticks as its duty has ramp steps, plus one; if it was on, the low side is off with it |
| ControllerManual.RampStepExactly | src/mppt.cpp:377-405 | the ramp step is a 512th of the period, rounded, and at least a count |
| ControllerConsole.DcReaches | src/cli.cpp:136-176 | `dc` is refused out of range and while calibrating; otherwise sweep, peak and automatic target are dropped and enough calm iterations set exactly the duty asked for |
| ControllerConsole.StepCommand | src/cli.cpp:1722-1735 | `+N` aims N counts from the present duty, within the range, at the manual ramp or the fade; refused for 0, for more than the range and while calibrating |
| ControllerConsole.StepReaches | src/cli.cpp:1722-1735 | in manual mode enough calm iterations then change the duty by N |
| ControllerConsole.OtaStops | src/cli.cpp:486-500 | an update over the air ramps the converter down to off |
| ControllerConsole.ShortLsStops | src/cli.cpp:178-187 | `short-ls`, where accepted, leaves the converter off in manual mode without target, sweep or peak |
| ControllerConsole.TrackingResumes | src/cli.cpp:124-131 | `mppt` and a failed update leave no hold, boot duty or manual mode, and all else unchanged |
| ControllerConsole.SyncExactly | src/cli.cpp:93-107 | `sync` in manual mode: on, off with the low side at its minimum at once, or forced; nothing otherwise |
| ControllerConsole.BeginsExactly | src/mppt.cpp:408-454 | begin() takes a boot duty, within the range, to manual mode, and otherwise starts a fresh sweep |
| ControllerConsole.ManualStartSyncs | src/mppt.cpp:377-405 | manual control starts a converter with sync rectification, unless reverse currents are feared |
| ControllerDevice.MpptController.ShutdownDcdc | src/mppt.h:302-333 | both counts of the converter are 0; the timer is armed only on entry or for a longer request; the sweep is over unless the length is 0 |
| ControllerDevice.MpptController.ClearBackoff | src/mppt.h:337-340 | both timer fields are zero, nothing else changes |
| ControllerDevice.MpptController.AbortSweep | src/mppt.h:345-349 | sweep, peak and target are dropped |
| ControllerDevice.MpptController.ReleaseCvFloorLatch | src/mppt.h:354-363 | limiting verdict, CV mode, target and backoff are dropped |
| ControllerDevice.MpptController.StartSweep | src/mppt.h:635-663 | a sweep starts with both counts 0 and no limit, target or peak, calibrating |
| ControllerDevice.MpptController.StopSweep | src/mppt.h:696-725 | the peak becomes the target, or a 30 s backoff starts |
| ControllerDevice.MpptController.ScanControllers | src/mppt.cpp:107-124 | running minimum over the controllers and shutdown on outputs that are not finite, for any number of them |
| ControllerDevice.MpptController.DecideControl | src/mppt.cpp:107-159 | verdict of the controllers with the bounce at the duty limits |
| ControllerDevice.MpptController.SweepBranch | src/mppt.cpp:166-199 | enable, capture or stop |
| ControllerDevice.MpptController.FadeBranch | src/mppt.cpp:200-216 | fade to the one-shot target, dropped once reached or overruled; `FadingTick` says what it comes to |
| ControllerDevice.MpptController.FinishTick | src/mppt.cpp:227-278 | cap by the limiting controller, step, sync rectification; nothing after a rejected step |
| ControllerDevice.MpptController.Update | src/mppt.cpp:17-287 | leaves the fields as `Controller.Update` of their old values: gates, scan, bounce, sweep, fade, cap, step and sync rectification in the source's order |
| ControllerDevice.MpptController.UpdateCv | src/mppt.cpp:289-374 | leaves the fields as `Controller.UpdateCv` of their old values; the mode ignores the backoff, but `BackoffSafety` shows that the automatic tick never reaches it |
| ControllerDevice.MpptController.UpdateManual | src/mppt.cpp:377-405 | leaves the fields as `Controller.UpdateManual` of their old values; switches off in a backoff |
| ControllerDevice.MpptController.Protect | src/mppt.h:434-629 | reaction to each protection outcome |
| ControllerDevice.MpptController.ProtectLf | src/mppt.h:397-432 | reaction to each low-frequency outcome |
| ControllerDevice.MpptController.LoopRTNewData | src/main.cpp:903-995 | leaves the fields as `Controller.NewData` of their old values: calibration, protections, control or delayed sweep start |
| ControllerDevice.MpptController.AdcPoll | src/main.cpp:570-600 | only a stall of more than 800 ms stops a live converter |
| ControllerDevice.MpptController.StopAndBackoff | src/main.cpp:521-524 | default backoff, and the next start delayed by the argument |
| ControllerDevice.MpptController.CmdDc | src/cli.cpp:136-176 | a refused duty changes nothing; an accepted one drops the sweep and becomes the manual target, with the low side held or released |
| ControllerDevice.MpptController.CmdMppt | src/cli.cpp:124-131 | leaves manual mode and the boot duty, releases the low side; nothing outside manual mode |
| ControllerDevice.MpptController.CmdSweep | src/cli.cpp:256-266 | clears the backoff, leaves manual mode and starts a sweep |
| ControllerDevice.MpptController.CmdShortLs | src/cli.cpp:178-187 | accepted only on a boost converter without input voltage: sweep dropped, manual mode with target 0, both counts 0 |
| ControllerDevice.MpptController.CmdStep | src/cli.cpp:1722-1735 | `+N`/`-N` moves the manual or the automatic target by N from the present duty, within the duty range, or is refused |
| ControllerDevice.MpptController.CmdSync | src/cli.cpp:93-107 | in manual mode only: sync rectification on or off and out of forced PWM, or on and forced |
| ControllerDevice.MpptController.OtaBegin | src/cli.cpp:486-500 | manual mode with target 0 |
| ControllerDevice.MpptController.OtaFailed | src/cli.cpp:505-509 | automatic mode without boot duty, low side released |
| ControllerDevice.MpptController.Handle | src/main.cpp:570-995 | every event on the started object leaves the fields as `Controller.Apply` of their old values and keeps the invariant, so in a backoff its control count is 0 and it is not sweeping |
| ChargerTermination.TermVoltageInBand | src/charger.h:150-160 | along any sequence of calls v_term stays between cv_min and cv_eoc |
| ChargerTermination.TerminationLine | src/charger.h:150-157 | the line runs through cv_min at no charge current and cv_eoc at the tail current, straight in between, flat outside, never falling |
| ChargerTermination.LineFollowsCurrent | src/charger.h:150-157 | the line voltage that a call leaves is in proportion to its current, cut off at 0 and at the tail current |
| ChargerTermination.StreaksMean | src/charger.h:166-204 | the streak counters count the consecutive calls they are meant to count |
| ChargerTermination.LatchSetsExactly | src/charger.h:150-179 | the latch sets exactly if ibat > -0.02 tail C and the cell is above cv_eoc, or above cv_min and (vcell - cv_min) tail C > ibat (cv_eoc - cv_min), or at the second of two consecutive unlatched calls at cv_ceiling or above; likewise for a capacity that is missing, 0 or negative |
| ChargerTermination.LatchClearsExactly | src/charger.h:177-207 | the latch clears exactly on depth of discharge or on the fourth consecutive sub-floor call that found it set |
| ChargerTermination.CounterMatches | src/etc/coulomb_counter.h:28-44 | in every run, while latched, the counter holds exactly the charge drawn by the reports since that latch |
| ChargerTermination.ReleaseMeansDischarged | src/charger.h:255-274 | a release on depth of discharge means that more than recharge_dod*Cbat was drawn since that very latch |
| ChargerPinning.VoutMaxInRange | src/charger.h:276-468 | after any run of updates and releases Vout_max() lies between min(Vbat_max, floor) and Vbat_max |
| ChargerPinning.FeedbackMove | src/charger.h:335-365 | the exact move of a finite pin: none without a new frame, else down by the cell error cut off at the floor, two fifths of it once the filter is filled |
| ChargerPinning.EpisodeDescends | src/charger.h:335-365 | over any feedback episode the pin never rises, never leaves the floor and moves only on a new battery frame |
| ChargerPinning.EpisodeOfAnyRunDescends | src/charger.h:335-365 | with Vbat_max at or above the floor this holds for every episode after every run |
| ChargerPinning.FloatTargetExactly | src/charger.h:325-373 | a settled terminated pack is floated at Vbat_fallback if and only if the last glide was started for the latch |
| ChargerPinning.AuthorityFloatsAtFallback | src/charger.h:298-333 | in a run in which no call was turned away for lack of bus authority, the last glide of a latched pack was started for the latch |
| ChargerPinning.GlideRamps | src/etc/linear_glide.h:20-50 | a glide starts at its origin, ends at its target after 5 s and only ever approaches it |
| ChargerPinning.LatchChangeIsSmooth | src/charger.h:325-333 | the call that first sees a change of the latch does not step the setpoint |
| ChargerPinning.GlideValueAtLeast | src/etc/linear_glide.h:29-45 | a glide never goes below the lower of its end points |
| ChargerRuns.RunComposes | src/charger.h:435-439 | a run of the whole charger is a run of termination and counter and, beside it, a run of pinning whose latch and line voltage are those of the first, so the rows above hold of it |
| ChargerRuns.LimitInRange | src/charger.h:435-468 | whatever currents and readings come in, Vout_max() lies between min(Vbat_max, floor) and Vbat_max |
| ChargerRuns.FloatExactly | src/charger.h:255-373 | once the glide has run out, the charger floats a latched pack below its line at Vbat_fallback if and only if the last glide was started for the latch |
| ChargerRuns.AuthorityFloats | src/charger.h:255-373 | if no update lacked bus authority, it is always floated at Vbat_fallback |
| ChargerRuns.TakesForFullExactly | src/charger.h:150-274 | in a run of the whole charger an update takes the pack for full exactly on that condition of its reading, or on the second ceiling reading |
| ChargerRuns.GivesUpExactly | src/charger.h:177-274 | an update gives a full pack up exactly if more than recharge_dod*Cbat was drawn since that latch, or it is the fourth consecutive sub-floor reading that found it full; for any capacity |
| ChargerRuns.StaleGlideFloatsAtMaximum | src/charger.h:298-373 | a run of seven readings without battery current that ends with the pack latched and Vout_max() at Vbat_max: over the line, four below the floor, over the line without authority, at rest |
| ChargerLimit.LimitExactly | src/charger.h:276-468 | Vout_max() after any run, exactly, in each regime: yielding low or high without authority, regulating on the cell error, floating, falling back without data, charging; ramps from their start and to their end |
| ChargerLimit.BulkSettles | src/charger.h:385-390 | a pack being charged gets Vbat_max once 5 s have passed since the last change of the latch |
| ChargerLimit.NeverFullIsBulk | src/charger.h:385-390 | a pack that was never taken for full always gets Vbat_max |
| ChargerLimit.OutageSettles | src/charger.h:371-384 | an outage of the battery data ends at Vbat_fallback after 5 s |
| ChargerLimit.LimitOfReading | src/charger.h:276-468 | the same for the whole charger, from the reading and the latch and line that the same update evaluates |
| ChargerDevice.TerminationCondition.Reset | src/charger.h:143-148 | latch unset, both streaks 0 and the line voltage at cv_min |
| ChargerDevice.TerminationCondition.Update | src/charger.h:150-183 | streaks, latch and line voltage become those of `Charger.TermUpdate`, whose condition `LatchSetsExactly` and `LatchClearsExactly` write out; returns the latch |
| ChargerDevice.TerminationCondition.ShouldRelease | src/charger.h:186-207 | sustained sub-floor streak or depth of discharge, and the streak it leaves |
| ChargerDevice.CoulombCounter.UpdateBatCurrent | src/etc/coulomb_counter.h:28-33 | honours a pending reset, integrates, publishes |
| ChargerDevice.CoulombCounter.Ah | src/etc/coulomb_counter.h:37-40 | a pending reset reads as zero |
| ChargerDevice.BatteryCharger.UpdateTermination | src/charger.h:255-274 | one step of the termination run, or nothing while cell voltage or current is missing; the counter is reset on the rising edge only |
| ChargerDevice.BatteryCharger.UpdatePackVoltagePinning | src/charger.h:276-392 | pin, filter, glides and latch memory become those of `Charger.PinUpdate` for what the object sees; `LimitExactly` says which limit that is |
| ChargerDevice.BatteryCharger.Update | src/charger.h:435-439 | termination and then pinning, which reads its result: one step of the run of the whole charger |
| ChargerDevice.BatteryCharger.ReleaseVoutPinning | src/charger.h:447-462 | pin at Vbat_max, filter empty, glides inactive |
| ChargerDevice.BatteryCharger.VoutMaxNow | src/charger.h:464-468 | the pin where it lies strictly between 0 and Vbat_max, else Vbat_max |
| Sampling.InterleavedSchedule | src/adc/sampling.h:359-375 | for 3 to 129 sensors the last-added one is polled exactly every second time and each other one exactly once per 2(n-1) polls |
| Sampling.AllPolledExactly | src/adc/sampling.h:593-599 | every sensor is polled at some time if and only if there are at most 129, for any number that is not a multiple of 256 |
| Sampling.PollsPerCycle | src/adc/sampling.h:379-388 | in any window of one cycle a sensor is polled as often as it appears in the order |
| Sampling.RatesAddUp | src/adc/sampling.h:377-388 | the effective rates of all sensors add up to as many uniform rates as there are sensors |
| Sampling.InterleavedRates | src/adc/sampling.h:377-388 | n/2 uniform rates for the last sensor, n/(2(n-1)) for each other |
| Sampling.MuxedAdc.BuildCycleOrder | src/adc/sampling.h:362-375 | the loop builds the interleaved order `Order(n)`, for n taken modulo 256 |
| Sampling.MuxedAdc.EffectiveSampleRate | src/adc/sampling.h:379-388 | the counting loop returns `Rate`, whose sum and values the rows above state; its uint8_t counter does not overflow |
| Sampling.MuxedAdc.Begin | src/adc/sampling.h:394-409 | starts the conversion of the first scheduled sensor, or refuses an empty ADC |
| Sampling.MuxedAdc.UpdateAdc | src/adc/sampling.h:545-614 | on every run each conversion is credited to the sensor whose channel was last started, and the next scheduled one is started |
| ConfText.TrimUnique | src/conf.h:23-33 | trim() yields the one trimmed string surrounded by spaces only |
| ConfText.TrimMethod | src/conf.h:23-33 | the two-index loop computes it |
| ConfText.TrimKeepsEntry | src/conf.h:89-105 | parser and rewriter, which trim in different places, find the same key and value |
| ConfText.LinesArePlain | src/conf.h:119-127 | lines as read hold no newline, no NUL, no trailing line ending and at most 255 characters |
| ConfText.LinesOfFile | src/conf.h:119-127 | written lines that fit the buffer are read back as they are |
| ConfUpdate.NewLineSays | src/conf.h:170-173 | a rewritten line parses to the given key and value and keeps its comment |
| ConfUpdate.UpdateCommutes | src/conf.h:117-205 | parsing the updated lines gives the old map overridden by the values, key order included |
| ConfFileLaws.AddKeepsFileAndMapInStep | src/conf.h:77-205 | reparsing the file that add(values, true) wrote gives the in-memory map, key order included |
| ConfFileLaws.LineAssigns | src/conf.h:84-106 | code up to the first '#', split at its first '=', with blanks around key and value dropped, is the assignment of a line |
| ConfFileLaws.LineAssignsNothing | src/conf.h:84-106 | a line without '=' before its comment assigns nothing |
| ConfFileLaws.LastLineCounts | src/conf.h:55-106 | of several lines that assign a key the last one counts |
| ConfFileLaws.UpdateTwice | src/conf.h:117-205 | a second identical update leaves every line |
| ConfFileLaws.AddTwiceSameFile | src/conf.h:117-205 | a second identical add writes the same file |
| ConfFileLaws.RemoveCommutes | src/conf.h:210-237 | removing a key's lines commutes with parsing, duplicates included |
| ConfFileLaws.RemoveKeepsFileAndMapInStep | src/conf.h:210-263 | reparsing the file that remove() wrote gives the in-memory map, without any condition on the contents |
| ConfFileLaws.RemoveUndoesAdd | src/conf.h:117-263 | removing a freshly added key restores the lines |
| ConfFileLaws.RemoveUndoesAddOnFile | src/conf.h:117-263 | removing a freshly added key restores the file's lines |
| ConfFileLaws.AddInStep | src/conf.h:117-205 | an object whose map is what its file says stays so over add(values, true), unless the fsync fails and the update changes something |
| ConfFileLaws.RemoveInStep | src/conf.h:210-263 | it stays so over remove(), unless the key was there and the file cannot be opened for writing |
| ConfFileLimits.AddKeepsInStepExactly | src/conf.h:84-106 | without inline comments, file and map agree after add() if and only if every assignment is at most 255 characters |
| ConfFile.Config.constructor | src/conf.h:77-108 | the loaded map is the one the file describes; empty if it cannot be read |
| ConfFile.Config.SetEntry | src/conf.h:55-57 | overwrites in place or appends |
| ConfFile.Config.Add | src/conf.h:117-205 | file and map after success, failed open and failed fsync; without overwrite an existing key is an error that changes nothing |
| ConfFile.Config.Remove | src/conf.h:210-263 | file and map after removal, and the returned flag |
| QuadFit.SolutionIsUnique | etc/measure_coil.py:264-276 | a returned triple is the one and only solution of the system |
| QuadFit.EliminateKeepsSolutions | etc/measure_coil.py:264-276 | elimination neither loses nor invents a solution |
| QuadFit.NoSolutionExactly | etc/measure_coil.py:264-276 | None exactly when a leading minor is below 1e-12 of the one before it |
| QuadFit.ZeroPivotRefused | etc/measure_coil.py:267-270 | a system with one solution for which the answer is None |
| QuadFit.Solve3 | etc/measure_coil.py:264-276 | the in-place nested loops compute `Solution`, so the rows above hold of them |
| LeastSquares.NormalMeansOrthogonal | etc/measure_coil.py:283-286 | a triple solves the normal equations if and only if its residuals are orthogonal to 1, x and x^2 |
| LeastSquares.FitIsOptimal | etc/measure_coil.py:279-287 | no quadratic has a smaller sum of squared residuals than the returned one, and no other one as small a sum, for any number of points |
| LeastSquares.TwoAbscissaeGiveNone | etc/measure_coil.py:279-287 | points on at most two abscissae are never fitted |
| LeastSquares.ThreeAbscissaeExactly | etc/measure_coil.py:264-287 | points on three abscissae have positive second and third leading minors, and are refused exactly when one of the pivots is below 1e-12 |
| LeastSquares.Quadfit | etc/measure_coil.py:279-287 | for lists of any lengths the loops solve the equations with the sums as zip forms them; for equal lengths they compute `Fit`, so the rows above hold of it |
| Base64.EncodeIsBitString | src/cli.cpp:990-1008 | the encoding is the input's bit string cut into sextets and zero-filled, as section 4 of RFC 4648 defines it |
| Base64.PaddingAtEnd | src/cli.cpp:1000-1006 | '=' occurs exactly in the last (-n mod 3) places |
| Base64.DecodeEncode | src/cli.cpp:990-1008 | decoding as the host's b64decode does, errors included, returns the exact bytes, and after padding also with anything behind it |
| Base64.EncodeConcat | src/cli.cpp:990-1008 | encodings of whole triples concatenate |
| Base64.B64enc | src/cli.cpp:990-1008 | the loop writes the encoding, returns its length and touches nothing behind it |
| CoreDump.ChunksJoin | src/cli.cpp:1096-1106 | the 48-byte chunks' encodings concatenate to the encoding of the whole dump |
| CoreDump.ChunksFit | src/cli.cpp:1096-1106 | each line fits the 68-byte buffer with its terminator and is one the host recognises |
| CoreDump.Get | src/cli.cpp:1090-1112 | the lines sent for a dump, or the whole chunks before the read that fails |
| CoreDump.DumpArrives | etc/fugu_console.py:759-776 | whatever lines come before, with status lines that are not all base 64 once stripped inserted anywhere among what the device logs, and whatever follows short of another dump, the host recovers the exact bytes and the size |
| CoreDump.NoiseIsSkipped | etc/fugu_console.py:769-773 | status lines that, once stripped of blanks, are not made of base 64 characters only, inserted anywhere, do not change what the host captures |
| CoreDump.NoiseExactly | etc/fugu_console.py:769-773 | the lines the host skips: between the blanks nothing, or some character other than letters, digits, '+', '/' and '=' |
| CoreDump.StrayLinesExactly | etc/fugu_console.py:770-782 | with any number of lines of base 64 digits inserted anywhere, the exact bytes come out if and only if none stands before the dump's last line, nor after it when the dump's length is a multiple of three; otherwise decoding fails or returns more bytes than the dump has |
| CoreDump.StrayReplyExactly | etc/fugu_console.py:759-782 | the same of what the host receives, with other status lines inserted anywhere and whatever comes before and, short of another dump, after |
| CoreDump.Transfer | etc/fugu_console.py:759-782 | device and host loops together return the announced size and the exact bytes |
| CoreDump.Collect | etc/fugu_console.py:759-782 | the collecting loop returns the announced size and the decoded capture that `DumpArrives` speaks of, or no data where no dump began or b64decode raises |
| Median.SortedUnique | etc/scope_client/scope-client.py:72-131 | a multiset has one sorted arrangement, so vector and naive sort agree |
| OrderStatistics.MedianUnique | etc/scope_client/scope-client.py:108-112 | at most one number is the median: for an odd count a sample with at most half the others smaller and at most half larger, for an even one the mean of the two middle samples by the same count |
| Median.FromSortedIsMedian | etc/scope_client/scope-client.py:108-112 | what is read off a sorted list is that number |
| Median.RemoveAt | etc/scope_client/scope-client.py:97-99 | the binary search finds a present value, and deleting there removes exactly one copy of it |
| Median.SlotsOccupied | etc/scope_client/scope-client.py:115-131 | wherever its head is, the ring's occupied slots hold the last samples |
| Median.SortedVector.FindPos | etc/scope_client/scope-client.py:78-91 | everything before the result is smaller, nothing from it on is |
| Median.SortedVector.Insert | etc/scope_client/scope-client.py:93-95 | stays sorted and gains exactly the value |
| Median.SortedVector.Remove | etc/scope_client/scope-client.py:97-99 | stays sorted and loses exactly the value |
| Median.RunningMedian.Insert | etc/scope_client/scope-client.py:122-128 | appends to the log; the vector holds the multiset of the occupied slots |
| Median.RunningMedian.Median | etc/scope_client/scope-client.py:108-131 | the median of the last window_size samples, by the count of smaller and larger ones |
| ScopeChannel.StampsIncrease | etc/scope_client/fugu_scope.py:133-151 | timestamps increase strictly within and across batches for any arrival times, if the first batch does not arrive at exactly 0 |
| ScopeChannel.ResyncContracts | etc/scope_client/fugu_scope.py:140-150 | on a steady stream the period estimate stays and the newest stamp's error shrinks to four fifths per batch |
| ScopeChannel.ZeroArrivalExactly | etc/scope_client/fugu_scope.py:133-151 | after a first batch at exactly 0, the timestamps of any longer run increase if and only if the first sample of the second batch falls after 0 |
| ScopeChannel.StampsIncreaseExactly | etc/scope_client/fugu_scope.py:121-151 | any run, empty batches included: timestamps increase strictly within and across batches if and only if the first batch with samples does not arrive at 0, or is the last, or the next one follows it clear of 0 |
| ScopeChannel.FilterStreams | etc/scope_client/fugu_scope.py:127-130 | the spike filter gives the same values however the stream is cut into batches |
| ScopeChannel.FilteredIsMedian | etc/scope_client/fugu_scope.py:127-130 | each filtered value is the median of that sample and the up to four before it |
| ScopeChannel.StampsEvenlySpaced | etc/scope_client/fugu_scope.py:133-151 | the stamps of a batch stand at equal distances, from the stamps before it to where the clock then stands |
| ScopeChannel.PeriodConverges | etc/scope_client/fugu_scope.py:141-142 | batches at a true period p bring the period estimate's error down to 0.9^n |
| ScopeChannel.ResyncExactly | etc/scope_client/fugu_scope.py:140-150 | the newest stamp goes four fifths by the period and one fifth by the arrival, or by the period alone where that would not be later; a batch that is not later teaches nothing |
| ScopeChannel.WrittenRotated | etc/scope_client/fugu_scope.py:153-161 | the wrapped slice write drops the oldest entries and appends the new ones, also for a batch longer than the buffer |
| ScopeChannel.SignedIsTwosComplement | etc/scope_client/fugu_scope.py:124-126 | a signed channel's value is the two's complement of the raw word |
| ScopeChannel.Channel.AddBatch | etc/scope_client/fugu_scope.py:116-163 | sign-converted values, through the median filter of `FilteredIsMedian` if it is on, and stamps are appended to the log, the ring holds its end, and the clock moves by `Tick`, which the rows above speak of |
| ScopeChannel.Channel.Recent | etc/scope_client/fugu_scope.py:176-185 | the last min(k, buffer) values and stamps of the log |
| ScopeChannel.Channel.Ordered | etc/scope_client/fugu_scope.py:187-190 | the buffer oldest first, empty in front until it has filled |
| ScopeChannel.Channel.Clear | etc/scope_client/fugu_scope.py:165-174 | an empty log, an empty filter and a stopped clock |

## Left out

- Floats are exact reals with explicit NaN and infinities where the code tests for them; rounding is not modelled.
- Boost boards with InEn logic swap the IN and EN pins (src/buck.h:489-490): there the commit results are about the control and the rectifier channel, not about what the gates do.
- MCPWM, the HiLi gate logic and the coast phase of boards with a separate shutdown line: the commit model is the LEDC path with InEn logic.
- The rectifier limit without dither (`rectDither == false`): nothing in the firmware switches it off.
- Measurements of the converter that are NaN: the sampler drops such samples before they reach it.
- PD controllers, tracker, sensor filters and the threshold tests inside the protections are inputs; the model has their outcomes.
- ControllerDevice.MpptController.Update: the outputs of the controllers and the tracker are inputs.
- ControllerDevice.MpptController.UpdateCv: the scaled controller step is an input.
- ControllerDevice.MpptController.Protect: its threshold tests are inputs, the reactions are modelled.
- ControllerDevice.MpptController.ProtectLf: its tests are inputs, the reactions are modelled.
- ControllerDevice.MpptController.LoopRTNewData: whether battery data allow a sweep is an input.
- ControllerDevice.MpptController.AdcPoll: whether the ADC is stalled is an input; peripheral reset and restart are not modelled.
- ControllerDevice.MpptController.ReleaseCvFloorLatch: the charger's pin and the controller it resets belong to other components.
- ControllerDevice.MpptController.CmdShortLs: the static gate levels that `short-ls` sets after disable() are not modelled, so "the low side is off" does not speak of them.
- The bench commands of the coil measurement, which also hold the low side by hand.
- The backflow switch, fan, LEDs, charge and energy metering, and logging.
- One clock: the loop's cached time and the wall clock it is read from are the same variable.
- Each console command, real-time iteration and battery message is one atomic step; races between the cores are not modelled.
- Pinning parameters are constant; auto-detection and the `vset` command, which change `Vbat_max` while running, are not modelled.
- `haveValidCellVoltage()` is an input, so its 32-bit age comparison, which aliases after 71 minutes, is not modelled.
- The coulomb counter's producer update is one step; a reader between its flag exchange and its store is not modelled.
- Termination counts calls, as the code does, not battery frames.
- Calibration of the sensors: the model takes its outcome; for four muxed sensors its counter is not a count of calibrated sensors.
- Sampling.MuxedAdc.Begin: a multiple of 256 sensors, for which the source reads the first entry of an empty order, is a precondition.
- CoreDump.StrayLinesExactly: stray lines that contain a padding character are not characterised.
- Short writes to the configuration file: the failure outcomes are a file that cannot be opened and a failed fsync.
- `addFast()` and the typed getters of the configuration file.
- ConfFileLimits.AddKeepsInStepExactly: lines that carry an inline comment over are covered one way only (`AddKeepsFileAndMapInStep`), since a cut comment may or may not read as an assignment.
- ScopeChannel.Channel.AddBatch: a batch that would wrap around the buffer twice, a shape error in the source, is a precondition.
- Median.RunningMedian.Median: requires a sample; before the first one the source raises an index error.
- Connectivity (WiFi, MQTT, BLE, telnet, FTP, OTA transfer), displays, drivers of the ADC chips, service life cycle: plumbing.
