# Accumulated charge monitor: verified model

This project models the signal path and the message server of an accumulated charge monitor and proves
what they are for. There are three parts.

**Charge pipeline (VHDL, one clock).** A trigger restarts the sample counter, opens a baseline gate and then
an integral gate, and starts a fixed detect window. The detector averages a baseline, integrates clipped
samples, finds the peak and measures its width on a copy of the samples delayed by 60 clocks. When the detect
window ends, the accumulator takes the integral into a ring buffer and keeps a running sum of the last L
charges. A start-up interlock holds a fault for as many triggers as that window is long.

**Event link (VHDL).** A serialiser sends a 32-bit time as event codes, a multiplexer puts them on the link,
and a receiver shifts them in and latches them. A second receiver turns an event into a delayed pulse.

**Message server (C).** Framed messages over sockets that move data in pieces, a table of at most four
clients that several threads use under one lock, and the copy of the parameter registers in an EEPROM.

## How it is built

Each VHDL entity is a module. Its `Regs` datatype holds its registers and `Next` gives all their values after
one clock edge from their values before it, as signal assignment does. A class `Entity` with the same registers
as fields carries the clocked processes, branch by branch, and its `Clock` is proved to compute `Next`. The
theorems are lemmas over runs of `Next`, over all inputs. Entities that only wire others together are functions
over the parts' registers.

| modules | what they hold |
|---|---|
| `Words` | word widths, wrap-around, sums and sliding windows |
| `Accumulator`, `BeamDetectWindow`, `StartupDelay` | ring buffer and running sum, detect window, interlock |
| `WindowedUpdates`, `StartupCoupling` | window driving the accumulator; interlock against the window length |
| `GenGates`, `CalcBaseline`, `CalcIntegral`, `FindPeak`, `CalcFwhm`, `SampleNumber`, `CalcCharge` | the detector's parts and the input stage |
| `BeamStats`, `DetectorCycle` | the wired detector, and one trigger cycle of it in closed form |
| `WidthSearch`, `WidthRuns` | the width in one cycle, and over runs of triggers |
| `ChargePath`, `LateTrigger`, `GateSpacing` | trigger to running sum, end to end; triggers among the gates of the cycle before; the exact spacing |
| `GenGate`, `OutOfWindow` | the masking of the out-of-window search |
| `EventCodes`, `TsGen`, `EvgTop`, `EventRcvTs`, `TimestampLink`, `EventRcvChan` | the event link |
| `Sockets`, `SkipCalls`, `PscMsg`, `PscStream` | sockets as free short transfers, discarding part of a body, framed messages, whole conversations |
| `ClientTable`, `Listener`, `ServerRuns` | the client table as a value, the server in place, all interleavings |
| `DescriptorReuse` | what reuse of descriptor numbers does to the clients |
| `EepromMirror`, `SettingsRuns` | parameter registers and their stored copy; messages of several clients interleaved |

## Assumptions

* A cycle of the detector starts with its baseline and integral machines idle and its gates idle or still waiting for
  their sample number. `ChargePath.RunHistory` derives this for every trigger after the first when triggers are at
  least 2010 clocks apart and each comes before the gates of the cycle before open or after its integral is latched
  (`ChargePath.Spaced`), and `ChargePath.ResetMakesReady` for the first trigger from power-up. No spacing makes the
  width search idle; `WidthRuns.ReadyAgainIff` says exactly when it is.
* Registers without a declared power-up value may come up at anything, except that the gates come up low.
* The window length L is constant since reset and at least 1. The RAM has 8191 words and the ring uses
  addresses 0 to L, so L is at most 8190.
* The link is the identity on the low byte of the transmitted word.
* In `ServerRuns` a socket number is positive and never used again; `DescriptorReuse` says exactly when its results on
  separate clients survive reuse. Whether a failed receive may later succeed is a parameter
  (`sticky`), and so is whether calls fail at all (`faulty`).
* Storing a client's socket is a step of its own, outside the lock, and sends may fall before it.
* A page write to the EEPROM happens whole or not at all, and so does each access to one register. The processor stores words lowest byte first.

## Where code and comments differ

The model follows the code.

* `src/hw/hdl/calc_charge.vhd:57` speaks of 40 clocks; the shift RAM is 60 deep (`src/hw/tcl/adc_shift_ram.tcl:66`).
* The baseline sums 31 samples and divides by 32 (`src/hw/hdl/calc_baseline.vhd:30`, line 72).
* The first of the 59 integral terms is taken against the cleared baseline, the other 58 against the new one.
* `src/hw/hdl/evr/evg_top.vhd:83` says code 0x70 is a one and 0x71 a zero; the serialiser does the opposite.
* `src/sw/src/at24eeprom.c:69` and line 89 say 256 bytes; the page constant is 252 (`src/sw/src/at24eeprom.h:3`),
  which also makes 251 the alignment mask.

## What turned out false, and exactly when

* A key turn arms the interlock if and only if it does not fall on a trigger that a running countdown counts, or
  that countdown stands exactly one above the new delay (`StartupDelay.KeyTurnArms`, `StartupDelay.KeyTurnCanClear`).
* The baseline is the floor of S/32 if and only if the sum S fits 16 bits (`DetectorCycle.BaselineIsMean`).
* In a cycle that finds the detector receptive, the accumulator takes that cycle's charge if the gate start is at most
  1908, and zero for every later one (`ChargePath.SameCycleCharge`). For such a later gate start G and triggers at
  least 2010 clocks apart, the next update takes what its own cycle calls for, for all samples, if and only if the
  next trigger comes at most G or at least G + 97 clocks after the one before (`GateSpacing.TakesItsOwnIff`; over runs
  `ChargePath.EveryShotTakesItsOwn`). In between, from edge 36 after the opening one on, the update takes at least
  what the earlier cycle had summed (`LateTrigger.TakesEarlierSum`).
* The width search is ready for the next trigger if and only if it has found a rise to half the peak and a fall back
  to it, the fall at least 62 clocks before the end of the cycle (`WidthRuns.ReadyAgainIff`). On a constant positive
  sample of up to 1057 it never is (`WidthRuns.ConstantNeverSettles`).
* The masks cover every summed sample but leave the last two samples of the peak gate
  (`OutOfWindow.PeakSamplesMaskedButTwo`).
* A frame decodes for every word if and only if the bit pointer stands at 31 when its bits arrive
  (`TimestampLink.RoundTrip`, `TimestampLink.WrongPointerCorrupts`).
* An event channel with delay 2^32 - 1 gives no pulse (`EventRcvChan.LargestDelayGivesNoPulse`).
* A broadcast writes to descriptor 0 if and only if it finds a slot whose socket is not stored yet and moves some
  bytes to it (`ServerRuns.StrayWriteIffUnstored`).
* When numbers of closed sockets are handed out again, sends reach every live client throughout a run if and only if
  no handler whose client a sender had already closed ends while the number is open again
  (`DescriptorReuse.ReachedThroughoutIff`); `DescriptorReuse.ReuseDropsAnother` is a run in which one does.
* Discarding a body through the 128-byte buffer overruns it if and only if a chunk fails, which leaves more than 128
  bytes to go, and the last call, which asks for all of them, then moves more than 128 (`SkipCalls.OverrunsIff`).
  That needs a failure that passes, such as the 5 s receive timeout (`src/sw/src/listener.c:148-157`, switched on
  by `src/sw/tcl/main.tcl:83`). It can happen if and only if more than 128 bytes are discarded
  (`SkipCalls.CanOverrunIff`), and never when failures stay (`SkipCalls.StickyNeverOverruns`). If the failed chunk
  had moved bytes, the call succeeds and the stream is out of step (`PscMsg.InStepIff`, `SkipCalls.CanSlipIff`); up
  to and including that message the handler still passes on what was sent (`PscStream.ServeClient`).
* After a settings message whose page write succeeds the record is true if and only if, for each register, the newest
  message to write it since this writer read it, if there is one, left the value that was read
  (`SettingsRuns.SavedIffNotOverwritten`). Handlers of different clients take no lock, so two messages that overlap
  can both succeed and leave a record without the second value (`SettingsRuns.OverlapLoses`).
* A failed EEPROM write leaves a stale record unless the register already held the value
  (`EepromMirror.FailedWriteLeavesStale`).

## Model

| member | source | states |
|---|---|---|
| `Accumulator.WindowLaw` | `src/hw/hdl/accumulator.vhd:115-173` | For every run that starts with a reset and keeps a length L of 1..8190, from any RAM contents, the output is the 32-bit sum of the newest L samples taken since the reset, each raised to the minimum; while an addition is in flight its sample is not yet counted |
| `Accumulator.RunTracks` | `src/hw/hdl/accumulator.vhd:101-173` | The invariant behind it over every run and any number of resets: pointers, fill count, write enable, ring contents read back in order, and running sum all agree with the history of samples |
| `Accumulator.StepTracks` | `src/hw/hdl/accumulator.vhd:128-171` | Every clock in every machine state keeps that invariant, including the sample that leaves the window having been read before it is subtracted |
| `Accumulator.RingStore` | `src/hw/hdl/accumulator.vhd:161-169` | Storing at the write address and moving on keeps the last L + 1 samples readable behind the pointer on the ring of addresses 0..L, wrap included |
| `Accumulator.WindowExact` | `src/hw/hdl/accumulator.vhd:146-151` | When L times the largest sample is below 2^32 the output is the window sum itself, with no wrap |
| `Accumulator.UpdateNeverBorrows` | `src/hw/hdl/accumulator.vhd:146-151` | Under that bound the subtraction in flight never borrows and its result is the new window sum |
| `Accumulator.ZeroLengthIsNoWindow` | `src/hw/hdl/accumulator.vhd:138-151` | With length 0 the first update leaves a non-empty sum, so the law cannot be extended to L = 0 |
| `Accumulator.Entity.UpdateMachine` | `src/hw/hdl/accumulator.vhd:101-173` | The branches of the trigger process and the update machine, assigned one after the other, give each register its value from the state before the edge |
| `Accumulator.Entity.Clock` | `src/hw/hdl/accumulator.vhd:271-283` | One edge of the entity with its RAM: a registered read at the read address and a write in place at the write address, both from the old registers |
| `Accumulator.ResetLeaves` | `src/hw/hdl/accumulator.vhd:117-126` | One clock in reset leaves every register at its stated value from any state, except the edge detector, which runs on |
| `Accumulator.TrigIsFall` | `src/hw/hdl/accumulator.vhd:101-111` | In every run, reset or not, the update trigger is up exactly when the window was up two clocks ago and down one clock ago |
| `BeamDetectWindow.Entity.Clock` | `src/hw/hdl/beam_detect_window.vhd:37-69` | The window machine in place computes the transition that the window theorems are about |
| `BeamDetectWindow.OneWindow` | `src/hw/hdl/beam_detect_window.vhd:37-69` | A trigger that finds the window idle gives a gate of exactly 2000 clocks from the third clock on, whatever triggers come meanwhile |
| `WindowedUpdates.UpdateIffWindowEnded` | `src/hw/hdl/accumulator.vhd:101-143` | For any trigger train, an update starts exactly two clocks after each clock on which a window ends and at no other time: none lost, none doubled |
| `WindowedUpdates.WindowEndsFarApart` | `src/hw/hdl/beam_detect_window.vhd:37-69` | Whatever the triggers, any two window ends of a run are at least 2004 clocks apart |
| `WindowedUpdates.UpdatesFromReset` | `src/hw/hdl/accumulator.vhd:115-126` | Both results from power-up: after three clocks with the accumulator in reset, under any triggers |
| `WindowedUpdates.RunInv` | `src/hw/hdl/beam_detect_window.vhd:37-69` | Over every run the next window has never run further than the update still in progress, so the update machine is idle when the gate falls |
| `WindowedUpdates.StepOnSchedule` | `src/hw/hdl/beam_detect_window.vhd:37-69` | One clock: with triggers at least 2010 clocks apart, the clocks since the last trigger go on fixing the state of the window, the edge detector and the update machine |
| `StartupDelay.Entity.Clock` | `src/hw/hdl/startup_dly.vhd:44-71` | The interlock process in place, with the trigger branch overriding the key branch where both assign |
| `StartupDelay.FaultUntilKeyTurns` | `src/hw/hdl/startup_dly.vhd:47-59` | Over every run, from any registers: after a clock in reset the fault stands on every later clock until the key is first seen to turn on, whatever triggers and delays come, and the countdown stands idle at zero |
| `StartupDelay.KeyLastIsSeen` | `src/hw/hdl/startup_dly.vhd:52-55` | A turn of the key is judged against the key as last seen outside reset: a key turned on during reset counts when reset ends |
| `StartupDelay.KeyTurnArms` | `src/hw/hdl/startup_dly.vhd:52-68` | A key turn arms the countdown in full if and only if it does not fall on a trigger that a running countdown counts, or that countdown stands exactly one above the new delay |
| `StartupDelay.KeyTurnCanClear` | `src/hw/hdl/startup_dly.vhd:55-64` | In the case shut out, a spent countdown drops the fault on the very clock of the key turn |
| `StartupCoupling.FaultClearsOverFullWindow` | `src/hw/hdl/timing_events.vhd:58-67` | From an armed countdown, with spaced triggers and no further key turn, the fault stands through exactly as many triggers as all 32 bits of the length register say and clears at the next; from then on the accumulator output is a full window, of the length in the low 13 bits, of samples that were all taken after the key turn |
| `StartupCoupling.KeyTurnToClear` | `src/hw/hdl/startup_dly.vhd:52-68` | The same from the rising edge of the key, on any clock that is not a trigger counted by a running countdown: that edge arms the countdown, and the fault then clears at the stated trigger over a full window |
| `StartupCoupling.KeyTurnFromPowerUp` | `src/hw/hdl/timing_events.vhd:58-67` | The same from power-up: after reset, with its registers at anything before, and any spaced triggers and use of the key, the fault stands for as long as the key has not been turned, and from a turn on it clears as stated |
| `StartupCoupling.RunCoupled` | `src/hw/hdl/top.vhd:254-264` | The two machines stay in step over every such run: the count left equals the length register minus the triggers seen, and at most the newest trigger still owes its sample |
| `GenGates.Entity.Clock` | `src/hw/hdl/gen_gates.vhd:42-86` | The gate machine with its two down-counters in place computes the transition used below |
| `GenGates.OpensIff` | `src/hw/hdl/gen_gates.vhd:55-61` | A waiting gate opens on exactly the first edge that finds the sample number at or past the gate start, also when it is already past |
| `GenGates.StepOpen` | `src/hw/hdl/gen_gates.vhd:63-79` | One clock of the gates once the baseline gate has opened: if they stand as edge e calls for (baseline gate up for edges 0..32, integral gate for 34..93) they stand so at edge e + 1, whatever the sample number |
| `CalcBaseline.Entity.Clock` | `src/hw/hdl/calc_baseline.vhd:42-84` | The averaging process and its output register in place, with the 16-bit wrap of the sum and the arithmetic shift |
| `CalcBaseline.BeginsIff` | `src/hw/hdl/calc_baseline.vhd:60-67` | A sum begins exactly where an idle, untriggered machine sees the gate rise, and the gate is not looked at otherwise |
| `CalcIntegral.Entity.Clock` | `src/hw/hdl/calc_integral.vhd:48-93` | The subtract-and-clip pipeline and the summing process in place, each stage reading what the stage before held |
| `CalcIntegral.BeginsIff` | `src/hw/hdl/calc_integral.vhd:69-76` | The same for the integral |
| `FindPeak.Entity.Clock` | `src/hw/hdl/find_peak.vhd:47-76` | The running maximum in place; the sample on the closing edge still counts |
| `CalcFwhm.Entity.Clock` | `src/hw/hdl/calc_fwhm.vhd:51-102` | The two-stage subtraction and the width search in place |
| `SampleNumber.Entity.Clock` | `src/hw/hdl/adc_samplenum.vhd:30-40` | The sample counter in place, restarted by the trigger |
| `SampleNumber.CountsSinceTrigger` | `src/hw/hdl/adc_samplenum.vhd:30-40` | Over every run the counter is the number of clocks since the newest trigger, modulo 2^32 |
| `CalcCharge.Entity.Clock` | `src/hw/hdl/calc_charge.vhd:57-87` | The input register, the inversion that saturates at the most negative sample, and both delay lines in place |
| `CalcCharge.DelayedCopyLagsBySixty` | `src/hw/hdl/calc_charge.vhd:57-87` | After the lines have filled, on every clock the detectors see the raw sample of one clock before, as it is and negated, where only -32768 has no negative and becomes 32767, and the width search sees the same of 60 clocks earlier |
| `CalcCharge.BeamChargeOverRaw` | `src/hw/hdl/calc_charge.vhd:76-106` | The beam integral over the raw samples: the sum over 59 consecutive raw samples, negated with saturation, of what lies above the baseline, which is zero for the first and for the others a 32nd, rounded down, of the sum of 31 negated samples before |
| `BeamStats.Entity.Clock` | `src/hw/hdl/calc_beam_stats.vhd:74-134` | Clocking the five parts one after the other equals one simultaneous step of all of them: the wires are read before any part moves |
| `DetectorCycle.CycleStands` | `src/hw/hdl/calc_beam_stats.vhd:74-134` | Closed form of a whole cycle: for any samples and any gate start, on every edge after the opening one, the sample number, delay line, gates, baseline, integral and peak registers are the stated functions of the samples |
| `DetectorCycle.IntegralIsCharge` | `src/hw/hdl/calc_integral.vhd:48-93` | The latched integral is exactly the sum over 59 consecutive samples of max(0, sample minus the baseline register of that clock), lies in 0..59*65535 and never wraps |
| `DetectorCycle.ChargeIs` | `src/hw/hdl/calc_integral.vhd:48-93` | That sum spelled out term by term over the samples |
| `DetectorCycle.IntegralZeroUntilLatched` | `src/hw/hdl/calc_integral.vhd:65-67` | Until that latch the integral reads zero, never an earlier cycle's value |
| `DetectorCycle.BaselineIsMean` | `src/hw/hdl/calc_baseline.vhd:52-84` | The baseline is the floor of a 32nd of the sum of the 31 gated samples if and only if that sum is in 16-bit range; wraps on the way do no harm |
| `DetectorCycle.PeakIsFirstMaximum` | `src/hw/hdl/find_peak.vhd:45-76` | At the peak strobe the maximum is that of -32000 and the 60 gated samples, the sample number belongs to the first of them to attain it, and the output is the maximum minus the baseline without 17-bit overflow |
| `DetectorCycle.ReceptiveAgain` | `src/hw/hdl/gen_gates.vhd:47-79` | While the gates wait for their sample number, and again from the edge on which the integral is latched, the gates and the baseline and integral machines take a trigger as they should; the peak strobe is down one edge after that; the width search is not part of this |
| `DetectorCycle.CycleCausal` | `src/hw/hdl/calc_beam_stats.vhd:74-134` | A cycle up to an edge does not depend on later samples |
| `DetectorCycle.TriggerClears` | `src/hw/hdl/calc_beam_stats.vhd:74-134` | What a trigger clears in the baseline, integral, peak and width machines in any state, and that it leaves everything else of them, a sum or search under way included, as it is |
| `DetectorCycle.StrobesOnce` | `src/hw/hdl/calc_baseline.vhd:42-84` | The baseline strobe is up on edge 34 after the opening one only, the integral and peak strobes on edge 95 only |
| `WidthSearch.WidthIsRunAboveHalf` | `src/hw/hdl/calc_fwhm.vhd:70-102` | When j is the first replayed sample with 2x + 1 at or above the peak, which is x at or above half the peak rounded down, and f the first after it with 2x at or below the peak, the search ends 62 clocks after f with width 1 plus the length of the run above half the peak, modulo 2^16 |
| `WidthSearch.LeavesScanIff` | `src/hw/hdl/calc_fwhm.vhd:86-90` | The search leaves its scanning state within 61 scanned samples if and only if one of the samples from one before the peak gate to its end reaches half the peak |
| `WidthSearch.ReplayReachesPeak` | `src/hw/hdl/calc_charge.vhd:57-72` | When some gated sample rose above -32000 and the peak is not negative, the 60-deep replay is early enough: the search does leave its scanning state within those 61 samples |
| `WidthSearch.StepSearch` | `src/hw/hdl/calc_fwhm.vhd:54-102` | Each clock after the peak strobe the search compares twice the sample of 62 clocks back with the latched peak, and moves, counts and strobes as that comparison says |
| `WidthSearch.HalfIsLevel` | `src/hw/hdl/calc_fwhm.vhd:51` | The comparisons with the upper 16 bits of the peak are comparisons of twice the sample with the whole peak |
| `WidthSearch.Scans` | `src/hw/hdl/calc_fwhm.vhd:79-90` | A search idle at the trigger starts at the strobe with width 0 and keeps scanning while every replayed sample is below the level |
| `WidthRuns.ReadyAgainIff` | `src/hw/hdl/calc_fwhm.vhd:70-102` | At any edge after the peak strobe every machine, the width search included, is ready for a trigger if and only if the search has found a first sample at or above half the peak and a first one after it at or below, the latter at least 62 clocks ago |
| `WidthRuns.RunReadyIff` | `src/hw/hdl/calc_fwhm.vhd:73-100` | Over a run of triggers: while every cycle so far has had such a pulse the run is ready, and it stays so if and only if the next cycle has one |
| `WidthRuns.WidthOverRuns` | `src/hw/hdl/calc_fwhm.vhd:70-102` | Under that condition each cycle of a run measures 1 plus the length of its own run above half its own peak, modulo 2^16, and keeps it to the end of the cycle, whatever earlier cycles measured |
| `WidthRuns.StrayEnds` | `src/hw/hdl/calc_fwhm.vhd:73-98` | A search still counting at a trigger starts again from zero and ends at the first replayed sample that is not above half the height of that moment, with the clocks since the trigger before it as its width |
| `WidthRuns.ConstantNeverSettles` | `src/hw/hdl/calc_fwhm.vhd:92-98` | On a constant sample of 1 to 1057 the search never ends, however long the cycle |
| `ChargePath.SameCycleCharge` | `src/hw/hdl/accumulator.vhd:101-143` | In a cycle that finds the detector receptive exactly one sample is taken, on edge 2005; for a gate start up to 1908 it is this cycle's own charge raised to the minimum, for every later gate start it is the reset value instead |
| `ChargePath.EveryShotTakesItsOwn` | `src/hw/hdl/accumulator.vhd:101-143` | In every cycle of a run, for every gate start G, with triggers at least 2010 clocks apart and each at most G or at least G + 97 clocks after the one before, the update takes what this cycle calls for and never a value of an earlier one |
| `ChargePath.AccumulatesLastCharges` | `src/hw/hdl/top.vhd:254-264` | End to end over any number of such triggers, for every gate start: the output is the 32-bit sum over the last L triggers of the charge from each trigger's own samples, or of zero for gate starts above 1908, never less than the minimum |
| `ChargePath.RunHistory` | `src/hw/hdl/accumulator.vhd:115-173` | By induction over such triggers: the path is ready again before each one and the accumulator's history is that list |
| `ChargePath.ResetMakesReady` | `src/hw/hdl/accumulator.vhd:115-126` | From the declared power-up values, three clocks with the accumulator in reset and no trigger bring the whole path to the start condition of these theorems |
| `ChargePath.AccumulatesFromReset` | `src/hw/hdl/top.vhd:254-264` | The end-to-end law from power-up and reset |
| `LateTrigger.TakesEarlierSum` | `src/hw/hdl/calc_integral.vhd:62-93` | A trigger on any of the edges 36 to 95 after the gate opened does not stop the sum under way: for any samples after it, the next update takes at least what had been summed from the samples before it, on edge 95 all of it |
| `LateTrigger.ShortSpacingTakesEarlier` | `src/hw/hdl/calc_integral.vhd:65-67` | At gate start 1950 with triggers 2010 clocks apart and samples of 1000, the second update takes at least 1000 where its own cycle calls for zero |
| `GateSpacing.TakesItsOwnIff` | `src/hw/hdl/gen_gates.vhd:46-79` | For a gate start above 1908 and triggers at least 2010 clocks apart, the update after the second trigger takes what its cycle calls for, for all samples and minima, if and only if the spacing is at most the gate start or at least the gate start plus 97 |
| `GateSpacing.SecondCarries` | `src/hw/hdl/calc_integral.vhd:62-93` | On constant samples, with the second trigger on any of the edges 0 to 94 after the opening one, the closed form of the gates and the sum in the second cycle: a sum of at least 59 * 32 is latched 95 or 96 edges after the opening one |
| `ChargePath.CycleParts` | `src/hw/hdl/calc_beam_stats.vhd:74-134` | Through a cycle the detector runs unaffected by the accumulator, and the accumulator keeps its schedule |
| `GenGate.Entity.Clock` | `src/hw/hdl/gen_gate.vhd:40-70` | The single-gate machine in place computes the transition used for the masks |
| `GenGate.LoadsAndOpens` | `src/hw/hdl/gen_gate.vhd:44-55` | A trigger takes the width in, and the gate opens on exactly the first edge at or past the gate start |
| `GenGate.UpForWidth` | `src/hw/hdl/gen_gate.vhd:57-64` | Once open, a gate of any width w is up for exactly w + 1 edges, whatever its inputs are meanwhile |
| `OutOfWindow.MaskStands` | `src/hw/hdl/gen_gate.vhd:40-70` | From the opening edge a mask of width 92 is up for exactly 93 edges, for any gate start |
| `OutOfWindow.SummedSamplesAreMasked` | `src/hw/hdl/find_beam_oow.vhd:90-135` | For any four gate starts, every sample that enters the baseline or the integral sum of any of the four detectors is zero to the out-of-window search |
| `OutOfWindow.PeakSamplesMaskedButTwo` | `src/hw/hdl/find_beam_oow.vhd:90-103` | Of the 60 samples under the peak gate the mask leaves exactly the last two |
| `OutOfWindow.LateTriggerSplits` | `src/hw/hdl/gen_gates.vhd:72-79` | A trigger on the one clock between the end of a mask and the end of the gates starts the mask but not the detector, so idleness of both is needed |
| `TsGen.Entity.Clock` | `src/hw/hdl/evr/ts_gen.vhd:32-103` | The serialiser machine in place, reset branch included |
| `TsGen.FrameCodes` | `src/hw/hdl/evr/ts_gen.vhd:42-95` | Whatever the start input does meanwhile, a frame takes 429 clocks from leaving idle and sends exactly 34 codes: 0x20, then for each bit of the held word from 31 to 0 0x71 if it is set and 0x70 if not, then 0x7D |
| `TsGen.FrameStartsIff` | `src/hw/hdl/evr/ts_gen.vhd:43-49` | An idle serialiser starts a frame exactly on a start input |
| `TsGen.ResetEnds` | `src/hw/hdl/evr/ts_gen.vhd:35-40` | Reset ends a frame wherever it stands and clears the output |
| `TsGen.OutputHolds` | `src/hw/hdl/evr/ts_gen.vhd:42-95` | Without a new code the output keeps the last one |
| `TsGen.FrameProgress` | `src/hw/hdl/evr/ts_gen.vhd:42-95` | On every clock of a frame the clocks left and the codes sent so far are as the state says |
| `EventRcvTs.Entity.Clock` | `src/hw/hdl/evr/event_rcv_ts.vhd:51-125` | The six receiver processes in place, all reading the registers before the edge |
| `EventRcvTs.ResetClears` | `src/hw/hdl/evr/event_rcv_ts.vhd:64-125` | Reset clears the word being shifted in and the timestamp, and has no effect on the pointer, the latched word, the offset or the delayed clear |
| `EventRcvTs.LateBitIsLost` | `src/hw/hdl/evr/event_rcv_ts.vhd:64-113` | The shift register is cleared two clocks after a latch event: bits on the first two clocks after it leave no trace but move the pointer, and the third is stored at position 29 |
| `EventRcvTs.TimestampPairs` | `src/hw/hdl/evr/event_rcv_ts.vhd:80-125` | In every run, outside reset, the timestamp pairs the seconds latched at the newest latch event the output register has seen with the clocks since that same event modulo 2^32: never new seconds with an old offset |
| `EventRcvTs.LatchedPair` | `src/hw/hdl/evr/event_rcv_ts.vhd:79-99` | The same for the registers behind the output, from any start state |
| `EvgTop.Entity.ClockTx` | `src/hw/hdl/evr/evg_top.vhd:62-78` | The transmit multiplexer in place: a code when one is valid, the idle word otherwise and in reset |
| `EvgTop.TxWord` | `src/hw/hdl/evr/evg_top.vhd:62-78` | A valid code goes out as a data word; otherwise, and in reset, the word is 0x50BC marked as a control word |
| `EvgTop.Entity.ClockEpoch` | `src/hw/hdl/evr/evg_top.vhd:110-129` | The once-a-second process in place |
| `EvgTop.EpochSteadyForASecond` | `src/hw/hdl/evr/evg_top.vhd:110-129` | From the rise of the 1 Hz signal the epoch time stays the same for 100 million clocks, so a frame started by that rise reads one word |
| `EvgTop.EpochNextSecond` | `src/hw/hdl/evr/evg_top.vhd:110-129` | After exactly those clocks the signal rises again with the next second |
| `EvgTop.EpochFromReset` | `src/hw/hdl/evr/evg_top.vhd:113-117` | From reset the signal stays low for 50 million clocks with the time at 1761037205 and then rises with the next second |
| `TimestampLink.DecodesAfterReset` | `src/hw/hdl/evr/ts_gen.vhd:35-41` | From a reset of the transmitter and any receiver state, the first frame brings the link in step and every later frame decodes exactly |
| `TimestampLink.RoundTrip` | `src/hw/hdl/evr/event_rcv_ts.vhd:51-87` | Serialiser, multiplexer and receiver run clock by clock: for every 32-bit word held over the frame, the latched word equals it |
| `TimestampLink.FrameDecodesFrom` | `src/hw/hdl/evr/event_rcv_ts.vhd:51-113` | From any receiver and wire state, the frame lands rotated to where the bit pointer stood, and leaves the pointer at 31; the late clear erases none of its bits |
| `TimestampLink.WrongPointerCorrupts` | `src/hw/hdl/evr/event_rcv_ts.vhd:51-61` | With the pointer anywhere but 31 some word is decoded wrongly |
| `TimestampLink.EveryFrameDecodes` | `src/hw/hdl/evr/event_rcv_ts.vhd:51-113` | Self-synchronisation: from the clock a latch code is under way or taken, whatever partial word and pointer came before it, every later frame of the run decodes exactly, however the start signal comes |
| `TimestampLink.StepMidFrame` | `src/hw/hdl/evr/ts_gen.vhd:42-95` | One clock of a frame keeps serialiser, wire, bit pointer, clear flags and the bits received so far in agreement |
| `EventRcvChan.Entity.Clock` | `src/hw/hdl/evr/event_rcv_chan.vhd:41-94` | The four channel processes in place, all reading the registers before the edge |
| `EventRcvChan.OnePulse` | `src/hw/hdl/evr/event_rcv_chan.vhd:41-98` | For every delay D of 1..2^32-2 and every width W of at least 1, an event that finds the channel quiet and is followed by none after D clocks gives exactly one pulse, rising D + 2 clocks after it and lasting W + 1 clocks, and leaves the channel quiet; events while the delay is counted change nothing |
| `EventRcvChan.LargestDelayGivesNoPulse` | `src/hw/hdl/evr/event_rcv_chan.vhd:41-98` | For the one delay left, 2^32-1, no pulse ever comes |
| `EventRcvChan.LateEventRunsOn` | `src/hw/hdl/evr/event_rcv_chan.vhd:74-78` | An event on the very clock that ends the delay wins over the end: the counter runs on past the delay |
| `EventRcvChan.ZeroKeepsLow` | `src/hw/hdl/evr/event_rcv_chan.vhd:96-98` | With a zero delay or width the output stays low in every state and with either polarity |
| `EventRcvChan.ResetQuiets` | `src/hw/hdl/evr/event_rcv_chan.vhd:44-45` | Reset leaves the channel quiet from any state |
| `Sockets.Network.Send` | `src/sw/src/pscmsg.c:34-41` | A send moves any number of the bytes offered, from the front, or fails and moves none |
| `Sockets.Network.Recv` | `src/sw/src/pscmsg.c:52-59` | A receive moves any number of the bytes waiting, in order, up to what was asked, or fails and moves none; whether a socket that failed may later succeed is left to the network |
| `PscMsg.SendAll` | `src/sw/src/pscmsg.c:28-44` | Whatever the pieces, all of the buffer goes out in order, or a proper prefix of it and an error: the network's own when its last call returned less than zero, no connection when it returned zero |
| `PscMsg.SendMsg` | `src/sw/src/pscmsg.c:75-102` | Success if and only if the whole frame, header and body, has gone out; on failure a proper prefix of the frame has |
| `PscMsg.RecvAll` | `src/sw/src/pscmsg.c:46-62` | Whatever the pieces, success means the buffer holds exactly the next len bytes; on failure it holds the ones moved, which are consumed, nothing behind them is touched, and the error tells whether the last call returned zero or less |
| `PscMsg.RecvSkip` | `src/sw/src/pscmsg.c:64-73` | The calls made are those of the code, after a failed chunk one call for all that is left; what is consumed, success, and the bytes written behind the 128-byte buffer are given exactly by what each call moved; when failures stay nothing is ever written behind it |
| `SkipCalls.OverrunsIff` | `src/sw/src/pscmsg.c:69-72` | The 128-byte buffer is overrun if and only if a chunk fails and the last call then moves more than 128 bytes |
| `SkipCalls.CanOverrunIff` | `src/sw/src/pscmsg.c:69-72` | Some course of events overruns the buffer if and only if more than 128 bytes are to be discarded |
| `SkipCalls.StickyNeverOverruns` | `src/sw/src/pscmsg.c:69-72` | When a failed receive keeps failing the buffer is never overrun |
| `SkipCalls.SkipConsumes` | `src/sw/src/pscmsg.c:69-72` | A skip that succeeds has consumed its len bytes and, beyond them, exactly what a failed chunk had moved |
| `SkipCalls.CanSlipIff` | `src/sw/src/pscmsg.c:69-72` | A skip can succeed and still leave the stream out of step if and only if more than 128 bytes are to be discarded |
| `PscMsg.RecvHead` | `src/sw/src/pscmsg.c:126-144` | A header is accepted if and only if both marks are there, and then yields the identifier and the length it carries |
| `PscMsg.RecvMsg` | `src/sw/src/pscmsg.c:146-173` | A message yields its identifier and the front of its body, cut to the buffer; what is consumed is the header, that front, and what the calls that discard the rest moved; when failures stay, or none happens, the discarding is clean; a whole message on a sound socket is always received |
| `PscMsg.InStepIff` | `src/sw/src/pscmsg.c:166-170` | A message received consumes exactly its header and whole body, of any length, if and only if no failed chunk had already moved bytes of it |
| `PscMsg.Bytes32RoundTrip` | `src/sw/src/pscmsg.c:81-84` | A length in wire order reads back as itself |
| `PscMsg.FrameBytes` | `src/sw/src/pscmsg.c:81-86` | A frame byte by byte: 0x50, 0x53, the identifier and the length with the most significant byte first, and the body |
| `PscMsg.HeaderBytes` | `src/sw/src/pscmsg.c:138-142` | A header is read with the same marks and byte order |
| `PscStream.SendMsgs` | `src/sw/src/pscmsg.c:89-102` | Sending a list puts exactly the concatenation of its frames on the wire, or a proper prefix of it after a failure |
| `PscStream.NextMessage` | `src/sw/src/pscmsg.c:126-173` | What a receiver reads at the front of any piece of such a stream is the next message, and what remains is the stream of the later ones |
| `PscStream.FrameHeads` | `src/sw/src/pscmsg.c:75-87` | A frame's header reads back as the message's identifier and length |
| `PscStream.ServeClient` | `src/sw/src/listener.c:205-216` | The round trip on every network: on the stream of any list of messages, or any initial piece of it, however chunked and whatever receives fail or recover, the handler passes on that list in order with bodies cut to the buffer, up to and including the first message of which a failed chunk had moved bytes; there is one only if its body exceeds the buffer by more than 128 bytes, so with no such body all that is passed on is the list; each message passed on is what the bytes hold from where the one before it ended; on a sound socket the whole list is passed on |
| `PscStream.SlipsOnLong` | `src/sw/src/pscmsg.c:64-73` | Only a message whose body exceeds the buffer by more than 128 bytes can leave the stream out of step, and it is itself still received right |
| `PscStream.CutIs` | `src/sw/src/pscmsg.c:161-162` | Cut means the first 200008 bytes of a longer body and the same identifier |
| `ClientTable.FirstFree` | `src/sw/src/listener.c:61-72` | The slot chosen is the first unused one, and none is chosen exactly when all are used |
| `ClientTable.BroadcastSlots` | `src/sw/src/listener.c:240-254` | A broadcast changes no slot flag and breaks exactly the served slots that did not take the whole frame |
| `ClientTable.BroadcastReaches` | `src/sw/src/listener.c:240-254` | A socket held by one served slot gets exactly what its own send moves, whatever becomes of the other sends, and is closed exactly when that send falls short |
| `ClientTable.BroadcastSkips` | `src/sw/src/listener.c:244-245` | A socket no served slot holds is neither written nor closed |
| `Listener.PscServer.ClientAlloc` | `src/sw/src/listener.c:55-76` | The loop takes the first unused slot, flags it and clears its socket field to 0, or changes nothing exactly when all four are used |
| `Listener.PscServer.ClientFree` | `src/sw/src/listener.c:78-90` | Clears the flag and the socket field of that slot only |
| `Listener.PscServer.Admit` | `src/sw/src/listener.c:172-190` | A connection gets a slot and then its socket, and nothing is closed; or, when the table is full, its socket and no other is closed |
| `Listener.PscServer.Dismiss` | `src/sw/src/listener.c:226-229` | The slot is given back before the socket is closed, and that socket is then closed and no other |
| `Listener.PscServer.SendToAll` | `src/sw/src/listener.c:235-256` | The loop in place equals the broadcast on values for some outcome of each send |
| `Listener.PscServer.SendOne` | `src/sw/src/listener.c:258-271` | The same for one client; after a short send its field reads -1 and its socket is closed |
| `ServerRuns.RunSafe` | `src/sw/src/listener.c:55-90` | Over every interleaving of the accept loop, handlers and senders: flags and owners agree, owners have different slots, and a slot's socket field is its owner's socket, broken, or still 0 while the accept loop has not stored it |
| `ServerRuns.FlagsMeanOwnership` | `src/sw/src/listener.c:61-90` | In every reachable state a slot is flagged if and only if a connection owns it, and never two |
| `ServerRuns.AtMostFour` | `src/sw/src/pscopts.h:5` | In every safe state, so after every run, at most four connections own slots at once |
| `ServerRuns.TurnedAwayIffFull` | `src/sw/src/listener.c:172-177` | In every safe state, so after every run, a connection is turned away if and only if all four slots are owned |
| `ServerRuns.WiresCarryWholeFrames` | `src/sw/src/listener.c:235-271` | Under every interleaving and all send outcomes, what went out to a connection is a prefix of the frames owed to it in order, so whole frames and at most one cut frame at the end; it is all of them while its socket is sound, whatever happens to the others |
| `ServerRuns.BrokenWiresAreFrozen` | `src/sw/src/listener.c:248-253` | After a failed send or the end of the handler nothing more is ever written to that socket |
| `ServerRuns.ClosedIff` | `src/sw/src/listener.c:226-252` | In every run a client's socket is closed if and only if it was turned away, its handler has ended, or a send fell short while it was sound |
| `ServerRuns.AddressedGetsIts` | `src/sw/src/listener.c:247-253` | One client's failure never drops, cuts or alters what another gets in the same broadcast |
| `ServerRuns.OthersUntouched` | `src/sw/src/listener.c:244-247` | A step writes to a connection's socket only when it is addressed to it and finds it sound, so never after it was closed |
| `ServerRuns.StrayWriteIffUnstored` | `src/sw/src/listener.c:65-68` | Descriptor 0, which is no client's, is written if and only if a broadcast comes between the flag and the stored socket and moves some bytes |
| `DescriptorReuse.ReachedThroughoutIff` | `src/sw/src/listener.c:226-229` | With numbers of closed sockets handed out again: at every point of a run sends to every live client reach it if and only if no handler of a client that a sender had closed ends while that number is open again |
| `DescriptorReuse.ReuseDropsAnother` | `src/sw/src/listener.c:251-252` | A run of four steps in which the second close drops another client |
| `DescriptorReuse.FreshNeverCloses` | `src/sw/src/listener.c:226-229` | With numbers never handed out again it does not happen |
| `EepromMirror.Entity.Settings` | `src/sw/src/control.c:65-136` | One message that nothing disturbs, byte by byte: its first four bytes, most significant first, are the address and the next four the value; below 200 and divisible by 4 the register at 0x300 plus the address takes the value and no other changes, all 50 registers are gathered into a page filled up with 0xFF, and the page is written or the memory left as it was; any other address changes neither registers nor memory |
| `EepromMirror.SavedBytes` | `src/sw/src/at24eeprom.h:12-78` | Byte by byte what a saved message leaves: the four bytes at 4i, lowest first, hold register 0x300 + 4i, bytes 200 to 251 are 0xFF, and the others are unchanged |
| `EepromMirror.BootBytes` | `src/sw/src/at24eeprom.c:286-359` | Start-up sets register 0x300 + 4i from those four bytes, of the EEPROM when the read was good and of the buffer when it failed, and no register outside the block |
| `EepromMirror.Entity.Write` | `src/sw/src/at24eeprom.c:70-97` | A page write is refused unless the low address byte is 0 or 4, and otherwise replaces exactly those 252 bytes or none |
| `EepromMirror.AlignedIsMask` | `src/sw/src/at24eeprom.c:80-82` | The alignment test is the one the mask of 251 makes: every bit of the low address byte but bit 2 must be clear |
| `EepromMirror.Entity.Read` | `src/sw/src/at24eeprom.c:101-117` | A good read returns the 252 bytes at the address |
| `EepromMirror.Entity.Gather` | `src/sw/src/at24eeprom.c:210-280` | The record holds the 50 registers in field order |
| `EepromMirror.Entity.Disperse` | `src/sw/src/at24eeprom.c:286-359` | Each field goes to its register, in order |
| `EepromMirror.Entity.InitSettings` | `src/sw/src/at24eeprom.c:120-132` | The registers are loaded from whatever the buffer holds, since the status of the read is not looked at |
| `EepromMirror.FieldsAreTheBlock` | `src/sw/src/pl_regs.h:72-121` | The 50 fields are the registers of the parameter block in address order, so a byte offset in the record is an offset from 0x300 |
| `EepromMirror.OnlyTheAddressed` | `src/sw/src/control.c:92-108` | An accepted message changes the one register it addresses and no other register of the device |
| `EepromMirror.SavedIsMirrored` | `src/sw/src/control.c:113-128` | After an accepted message that nothing disturbs and whose write succeeds, the first 200 bytes encode exactly the 50 parameter registers |
| `EepromMirror.FailedWriteLeavesStale` | `src/sw/src/control.c:128-132` | After a failed write the record still matches if and only if the register already held the value |
| `EepromMirror.PageField` | `src/sw/src/control.c:119-123` | The page as built decodes, field by field, to the record it was built from, whatever follows it |
| `EepromMirror.LoadedElsewhere` | `src/sw/src/at24eeprom.c:286-359` | Start-up writes no register outside the parameter block |
| `SettingsRuns.FetchedHolds` | `src/sw/src/at24eeprom.c:210-280` | Under every interleaving of handlers, each field a handler has read is its register at that moment, and since then only other handlers' messages have changed it, the newest of which the register now shows |
| `SettingsRuns.SavedIffNotOverwritten` | `src/sw/src/control.c:108-128` | After every page write that succeeds, under every interleaving of the messages of any number of clients, the record encodes exactly the 50 registers if and only if no register was left at another value by a message between this writer's read of it and its page write |
| `SettingsRuns.SerialSavesAreTrue` | `src/sw/src/control.c:65-136` | When messages are handled one at a time, every page write that succeeds leaves a true record |
| `SettingsRuns.UndisturbedIsSetting` | `src/sw/src/control.c:92-128` | The steps of one message with nothing between them do exactly what the message does as a whole |
| `SettingsRuns.OverlapLoses` | `src/sw/src/listener.c:205-216` | For any two registers and a changed value, two messages of different clients can both write their page successfully and leave a record that lacks the second value |
| `SettingsRuns.BootRestoresLastSave` | `src/sw/src/at24eeprom.c:120-132` | Over any interleaving, failed writes, power cycles and start-ups, a good start-up gives every parameter register the value the last successful writer had read |
| `SettingsRuns.PowerCycleThenBoot` | `src/sw/src/at24eeprom.c:120-132` | After a power cycle in any state of any handlers and a start-up, the EEPROM bytes are untouched, register 0x300 + 4i holds the word at bytes 4i to 4i + 3 of the EEPROM, lowest byte first, or of the buffer when the read failed, and every other register is what it powered up as |
| `SettingsRuns.BootRestoresAllIff` | `src/sw/src/at24eeprom.c:120-132` | It restores all registers to their values right after that page write if and only if none had been overwritten by then |

## Left out

- An accumulator length of 8191: the ring would use address 8191, one past the RAM, and what the RAM does there is the vendor's.
- A change of the accumulator length while running, and a reset of the accumulator while its window machine runs on.
- A trigger while the gates of a cycle are open: that it spoils the next update, and from edge 36 on a bound by the earlier sum, not the exact value taken.
- `WidthRuns.StrayEnds`: for a search that has found its pulse at the trigger; one that is still scanning then goes on scanning, which is not worked out.
- `Accumulator.Entity`: keeps its registers in one record that is reassigned, beside the RAM that is written in place.
- The out-of-window search itself (`find_boow_pulse` and its own gates and detector): only what it is given to see is modelled.
- Clock-domain crossing (`sync_cdc.vhd`): the pulse that starts a frame is an input. `EvgTop.EpochSteadyForASecond` is on the system clock.
- Transceivers, pins, SPI and I2C transfers, the ADC reader: vendor blocks and input/output.
- `faults.vhd`, `ps_io.vhd`, `pulse_gen.vhd`, `stretch.vhd`, `livetime.vhd`, `adc_data_rdout.vhd`: comparisons, wiring and small counters that would add only easy members.
- Power-up values that the VHDL leaves open are left open; the theorems start from a reset, a trigger or the stated registers.
- `psc_sendmsgsingle`, `psc_error`, `psc_verror`: not used by the paths modelled.
- `reg_settings` and `write_adc_table` in `control.c`: direct register writes, and a body that is commented out.
- The server's start-up, sends before the server exists (they do nothing), its printing, socket options and the pause after a failed accept.
- A store of a client's socket in the middle of a broadcast: it concerns one slot only, so it counts as before or after the broadcast as it falls before or after that slot's turn. A store inside the turn of that very slot is not modelled.
- `DescriptorReuse.ReachedThroughoutIff`: is about which client a send or close reaches; the bytes on each wire are in `ServerRuns`, for numbers that are not reused.
- A handler that starts after its socket field was already broken: it holds -1 and closes that; the socket itself was closed by the sender.
- `PscStream.ServeClient`: the callback is the returned log; that a closed socket wakes a waiting receive, and that the loop ends for lack of data, is the network's doing.
- `EepromMirror.Entity.Settings`: one handler undisturbed; the interleaving with other handlers is in `SettingsRuns`, on values.
- `PscMsg.RecvSkip`: the array stands for the stack behind the 128-byte buffer; what an overrun does to the program is not modelled.
- Two page writes at once on the I2C bus: each is one step.
- The settings message is taken to have its 8 bytes, which the receive buffer always provides; the length received is not checked by the code either.
- `EepromMirror.Entity.Gather`: the 50 assignments of the code are a loop over the list of fields.
- The register named `crc_eeprom` is copied like any other; no checksum is computed by the code.
