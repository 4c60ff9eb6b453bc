# Verification models for the reader firmware and its tag-of-interest script

Four parts of the repository are modelled in Dafny and proved correct, or shown to fail in a
named case. `dafny verify dfyconfig.toml` checks all of it.

**IRQ_N delivery** (`Wrappers.dfy`, `IrqMachine.dfy`, `IrqInvariant.dfy`, `IrqDelivery.dfy`,
`GpioDriver.dfy`). The interrupt handler, the IRQ thread and any number of application
threads share a callback pointer, an enable flag, a counter of unhandled interrupts, a
semaphore and a mutex. `IrqMachine` is a transition system with one step per shared read or
write; a run is any interleaving, and the callback body is any sequence of driver calls that
unlocks no more than it locked. `GpioDriver` is the same driver as a class with the file
statics as fields; each of its methods is proved against a sequential effect, and the effect
is proved to be what the transition system does when only that thread is scheduled.

**Calibration** (`CArithmetic.dfy`, `Interpolation.dfy`, `ModeOffsets.dfy`,
`RssiConversion.dfy`, `Calibration.dfy`, `CoarseAttenuator.dfy`, `PowerDetector.dfy`,
`PowerControl.dfy`). Integer arithmetic is that of C, with truncating division and explicit
16-bit and 32-bit casts; floating-point tables hold reals. The tables are arbitrary and meet
only the shape the code assumes: frequencies increase, and power falls with attenuation
after a prefix of cleared entries.

**Tag-of-interest script** (`ToiText.dfy`, `ToiSpec.dfy`, `ToiPass.dfy`, `ToiRun.dfy`,
`ToiResults.dfy`, `ToiAttribution.dfy`). A file is its text; a pass is the two rewrite loops
of the script; a run is the driver loop over the copied file. Any text is an input, and an
exception is an outcome. The run is related to one greedy scan of the tag lines, which is
independent of the passes.

**GPIO levels and masks** (`GpioPins.dfy`, `BoardSpec.dfy`). Level words and set/clear masks
are 32-bit vectors, and the struct of masks is a class that the setters update.

## What the proofs found

- A control call that clears the counter while the callback is enabled loses the edges counted
  there: no continuation without a further edge starts an invocation. The exception is an IRQ
  thread that had already seen the counter and not yet taken the lock; then they are delivered
  (`ClearedEdgeDeliveredExactlyWhenSeen`). This happens in `register_irq_callback`, which raises
  the flag before it clears (lost: `RegisterMayLose`, `LostDuringRegister`; delivered:
  `RegisterMayDeliver`, `KeptDuringRegister`), and in `irq_monitor_callback_enable(true)` when the
  flag is already up (`EnableMayLose`, `LostDuringEnable`).
- A newly registered callback can be invoked without an edge of its own, exactly when the IRQ
  thread was caught between its check and its lock (`SpuriousCallExactlyWhenCaught`).
- `src/board/gpio_driver.h:125-127` says that deregistering destroys the monitor thread, and
  line 162 that irq_enable uses a non-counting mutex. The code keeps the thread and uses a
  reentrant, owner-based mutex; the model follows the code.
- `interpolate` would return 0 at the point of a one-point axis (`OnePointAxis`). Its only callers
  pass axes of two and three points (`src/board/zephyr_rtos/calibration.c:347-354`), so this is
  unreachable in the program.
- The sortedness check accepts calibration modes of equal link frequency. Then the look-up returns
  the offset of the first mode its loop reaches, so a mode's measurement comes back exactly when
  both offsets agree (`CalibratedModeReproducedExactlyWhen`, `EqualFrequenciesHideTheFirst`).
- `log2_to_cdbm` rounds toward zero after adding a half, so with a negative default power it
  is one cdBm too high at the default count (`CdbmOfRounded`), and raw counts below the
  default come back one larger (`RssiRoundTrip`).
- The last comparison of `choose_coarse_atten_v5` reads one entry past its table; the choice
  does not depend on it (`SearchAttenuator`).
- `power_to_adc` validates the readings of its running pair, which is one entry behind the
  bracket. So the reading at the low-power end of a hit may be out of range
  (`HitLowerEndMayBeInvalid`), for some power exactly when two valid readings in a row are followed
  by an invalid one (`HitsAreValidExactlyWhen`), and exactly then a target may be out of range
  (`HitsReadInRangeExactlyWhen`). Conversely a power between two valid readings may
  have no hit (`ReadableMayBeMissed`), exactly when its bracket is the last one, which is never
  searched, or the reading before the bracket is out of range (`ReadableMissedExactlyWhen`).
- The two entries `power_to_adc` starts from lie in its tables exactly when some entry before the
  last is calibrated (`StartsInTableExactlyWhen`). With every entry cleared the code reads past the
  tables (`AllClearedStartsPastEnd`), where a comment (lines 1212-1214) promises detector 0.
- `src/board/board_spec.h` describes the masks as added to what the caller passed in; the code
  zeroes the struct first, and a refused argument leaves the pins of the calls before it.
- The script compares by substring of the whole line: a tag whose EPC contains an earlier
  EPC is counted as that one (`MiscountedPair`, `CountedForOwnExactlyWhen`), an empty EPC
  takes every later line (`EmptyEpcTakesAll`), a header without tag lines is reported as 9994
  tags (`HeaderOnlyReports9994`), more than 9994 tags end the run early
  (`TooManyTags`), an overlong EPC truncates the output at its line and prints nothing
  (`OverlongCutsShort`), and a length field that int() refuses ends
  the script with an exception (`CrashesExactlyWhen`).

## Model

| member | source | states |
|---|---|---|
| IrqInvariant.InitInv | src/board/zephyr_rtos/gpio_driver.c:33-59 | The statics, semaphore and mutex as initialised satisfy the invariant |
| IrqInvariant.EdgeKeepsInv | src/board/zephyr_rtos/gpio_driver.c:61-67 | The interrupt handler, run at any moment, keeps the invariant |
| IrqInvariant.LoopKeepsInv | src/board/zephyr_rtos/gpio_driver.c:70-86 | Every action of the IRQ thread keeps the invariant: mutex ownership, what each thread knows, and a wake-up behind every counted edge |
| IrqInvariant.CallKeepsMutexInv | src/board/zephyr_rtos/gpio_driver.c:125-214 | Every action of a control call keeps the mutex held by exactly the thread whose program counter says so, with the right depth |
| IrqInvariant.CallKeepsCallsInv | src/board/zephyr_rtos/gpio_driver.c:157-214 | No action of any thread upsets what another thread inside a control call has established |
| IrqInvariant.StepKeepsInv | src/board/zephyr_rtos/gpio_driver.c:61-214 | Every step of every thread keeps the invariant |
| IrqInvariant.RunKeepsInv | src/board/zephyr_rtos/gpio_driver.c:61-214 | The invariant holds after every run, whatever the interleaving |
| IrqDelivery.EdgesConserved | src/board/zephyr_rtos/gpio_driver.c:61-77 | Over every run from any state: counter before plus accepted edges = edges cleared by the IRQ thread + edges cleared by control calls + counter after |
| IrqDelivery.CallsBounded | src/board/zephyr_rtos/gpio_driver.c:70-86 | From any state, invocations are bounded by the accepted edges and what the IRQ thread was already committed to |
| IrqDelivery.CallsNeverExceedEdges | src/board/zephyr_rtos/gpio_driver.c:61-86 | In every run from start-up the callback is invoked at most once per accepted edge |
| IrqDelivery.PendingStep | src/board/zephyr_rtos/gpio_driver.c:70-86 | While an invocation is owed, no step other than a revoking control write or the call itself removes the debt, and each loop action brings the call one nearer |
| IrqDelivery.PendingIsAwake | src/board/zephyr_rtos/gpio_driver.c:70-86 | While an invocation is owed the IRQ thread is enabled, or waits for a mutex that another thread holds, or is in the callback body: it never sleeps on the semaphore |
| IrqDelivery.PendingIsDelivered | src/board/zephyr_rtos/gpio_driver.c:70-86 | An owed invocation starts within the stated number of loop actions unless a control call clears the counter, writes the pointer or lowers the flag |
| IrqDelivery.NoLostInterrupt | src/board/zephyr_rtos/gpio_driver.c:61-86 | No accepted interrupt is lost: in every run from start-up, an invocation starts after an accepted edge within the actions that lie between the IRQ thread and its call, nine at most, unless a control call after the edge clears the counter, writes the pointer or lowers the flag |
| IrqDelivery.ClearedEdgeDeliveredExactlyWhenSeen | src/board/zephyr_rtos/gpio_driver.c:157-206 | Edges that register or irq_monitor_callback_enable clears while the callback is enabled: no continuation without a further edge starts an invocation, unless the IRQ thread had seen the counter and not yet taken the lock; then one starts within the four or five actions up to its call if nothing is revoked |
| IrqDelivery.RegisterMayLose | src/board/zephyr_rtos/gpio_driver.c:157-177 | A reachable state and continuation on the lost side: a registration about to clear a counted edge with the IRQ thread at its semaphore, which ends registered and at rest |
| IrqDelivery.RegisterMayDeliver | src/board/zephyr_rtos/gpio_driver.c:157-177 | A reachable state and continuation on the delivered side: the same registration after the IRQ thread has seen the counter |
| IrqDelivery.EnableMayLose | src/board/zephyr_rtos/gpio_driver.c:197-206 | A state and continuation on the lost side during irq_monitor_callback_enable(true) |
| IrqDelivery.CallbackExcluded | src/board/zephyr_rtos/gpio_driver.c:79-133 | The callback is neither running nor about to run while another thread is between irq_enable(false) and irq_enable(true) |
| IrqDelivery.NeverCallsNull | src/board/zephyr_rtos/gpio_driver.c:81-83 | When the IRQ thread calls, the pointer is not NULL and the flag is up, although the handler reads both without the lock |
| IrqDelivery.LiveCallbackKept | src/board/zephyr_rtos/gpio_driver.c:157-195 | Only a deregistration removes a registered callback; a second register never replaces it |
| IrqDelivery.CallsTakeEffect | src/board/zephyr_rtos/gpio_driver.c:157-214 | What each control call has achieved at the moment it gives up the mutex, with its result code, in every interleaving; a deregistration leaves the counter at 0 |
| IrqDelivery.NoStaleCount | src/board/zephyr_rtos/gpio_driver.c:179-206 | In every run from start-up, without a stored callback the counter is 0, except while a deregistration stands before its clear |
| IrqDelivery.NothingLeftForTheNextCallback | src/board/zephyr_rtos/gpio_driver.c:179-195 | Once deregister returns in another thread and the IRQ thread had not seen the counter, no invocation starts without a further accepted edge, whatever is registered meanwhile |
| IrqDelivery.NoCallbackNoCall | src/board/zephyr_rtos/gpio_driver.c:79-86 | With no callback stored and none being stored, no invocation starts in any run |
| IrqDelivery.QuietAfterDeregister | src/board/zephyr_rtos/gpio_driver.c:179-195 | Once deregister returns in a thread other than the IRQ thread, no invocation is in progress and none starts until a register call stores a callback |
| IrqDelivery.QuietAfterDisable | src/board/zephyr_rtos/gpio_driver.c:197-206 | After irq_monitor_callback_enable(false) no edge is accepted and no invocation starts until the flag is raised |
| IrqDelivery.SpuriousCallExactlyWhenCaught | src/board/zephyr_rtos/gpio_driver.c:76-83 | With counter zero and mutex free, an invocation without any further edge is possible if and only if the IRQ thread stands between its check of the counter and its lock |
| IrqDelivery.LostDuringRegister | src/board/zephyr_rtos/gpio_driver.c:157-177 | A run in which an edge accepted during register_irq_callback is counted, cleared with the IRQ thread at its semaphore, and never delivered |
| IrqDelivery.KeptDuringRegister | src/board/zephyr_rtos/gpio_driver.c:157-177 | A run in which an edge accepted at the same point of register_irq_callback is delivered, because the IRQ thread saw the counter first |
| IrqDelivery.LostDuringEnable | src/board/zephyr_rtos/gpio_driver.c:197-206 | A run in which irq_monitor_callback_enable(true) loses an edge that was accepted while the flag was already up |
| GpioDriver.CallRefines | src/board/zephyr_rtos/gpio_driver.c:125-214 | A control call scheduled alone reaches, in the interleaving model, exactly the state and result of its sequential effect |
| GpioDriver.BodyKeepsLock | src/board/zephyr_rtos/gpio_driver.c:81-84 | A balanced callback body that calls the driver reentrantly leaves the IRQ thread's own lock in place |
| GpioDriver.BodyRefines | src/board/zephyr_rtos/gpio_driver.c:81-83 | The driver calls of a callback body, scheduled alone, reach the sequential effect of the body |
| GpioDriver.PassRefines | src/board/zephyr_rtos/gpio_driver.c:70-86 | One pass of the IRQ loop scheduled alone, callback included, reaches the state of the sequential pass and returns to the semaphore |
| GpioDriver.Driver.constructor | src/board/zephyr_rtos/gpio_driver.c:37-59 | The initial values of the statics, the semaphore and the mutex |
| GpioDriver.Driver.IrqGpioCallback | src/board/zephyr_rtos/gpio_driver.c:61-67 | Counts the edge and raises the semaphore exactly when the flag is up and a callback is stored; otherwise changes nothing |
| GpioDriver.Driver.Lock | src/board/zephyr_rtos/gpio_driver.c:33-35 | Locking makes the caller the owner and counts one level more |
| GpioDriver.Driver.Unlock | src/board/zephyr_rtos/gpio_driver.c:33-35 | Unlocking undoes one level for the owner and does nothing for any other thread |
| GpioDriver.Driver.RegisterIrqCallback | src/board/zephyr_rtos/gpio_driver.c:157-177 | Whole new state and result: stores, enables and clears the counter, or EBUSY with nothing changed |
| GpioDriver.Driver.DeregisterIrqCallback | src/board/zephyr_rtos/gpio_driver.c:179-195 | Whole new state and result; a second deregistration is not an error |
| GpioDriver.Driver.IrqMonitorCallbackEnable | src/board/zephyr_rtos/gpio_driver.c:197-206 | Sets the flag and clears the counter; the mutex ends as it began |
| GpioDriver.Driver.IrqMonitorCallbackIsEnabled | src/board/zephyr_rtos/gpio_driver.c:208-214 | Answers the flag and leaves the state as it was |
| GpioDriver.Driver.IrqEnableFunc | src/board/zephyr_rtos/gpio_driver.c:125-133 | Locks the mutex on disable and unlocks it on enable |
| GpioDriver.Driver.IrqHandlerPass | src/board/zephyr_rtos/gpio_driver.c:70-86 | One pass of the loop: the state it leaves, and that the callback is called exactly when an edge was counted and the callback is live |
| Interpolation.WeightedNearLine | src/board/zephyr_rtos/calibration.c:86-89 | The two truncated quotients are together less than 2 from the exact line, and on its near side when both node values have one sign |
| Interpolation.WeightedIsTwoQuotients | src/board/zephyr_rtos/calibration.c:86-89 | The result between two nodes is the sum of the two quotients, each truncated toward zero by itself |
| Interpolation.TwoTruncationsLoseOne | src/board/zephyr_rtos/calibration.c:86-89 | On a flat axis of value 1 the result a third of the way between nodes is 0 |
| Interpolation.WeightedInRange | src/board/zephyr_rtos/calibration.c:86-89 | Between two nodes the result stays within 1 of the range of the node values and fits 16 bits |
| Interpolation.BlendFits | src/board/zephyr_rtos/calibration.c:86-89 | No product, quotient or sum of the interpolating branch leaves 32 bits, for any axis and values |
| Interpolation.InterpolatedFits | src/board/zephyr_rtos/calibration.c:62-95 | The final 16-bit cast is lossless on every axis |
| Interpolation.InterpolatedIsLocal | src/board/zephyr_rtos/calibration.c:62-95 | Outside the axis the nearer end value; inside it two neighbouring nodes bracket the argument and the result is near their line and range |
| Interpolation.NodeReproducedExactlyWhen | src/board/zephyr_rtos/calibration.c:62-119 | On an axis that passes the sortedness check, a node value is reproduced if and only if it equals the value at the first node with the same abscissa that the loop reaches |
| Interpolation.ExactAtNodes | src/board/zephyr_rtos/calibration.c:75-91 | On a strictly increasing axis every node is the one reached, so its value is reproduced exactly |
| Interpolation.OnePointAxis | src/board/zephyr_rtos/calibration.c:67-93 | On a one-point axis, which no caller has, the result at the point itself is 0, not the node value |
| Interpolation.Blend | src/board/zephyr_rtos/calibration.c:86-89 | The interpolating statements in 32-bit arithmetic, without overflow or division by zero |
| Interpolation.Interpolate | src/board/zephyr_rtos/calibration.c:62-95 | The loop returns the specified interpolation: first node at or above the argument, its exact value or the blend |
| Interpolation.CheckSortedByBlf | src/board/zephyr_rtos/calibration.c:108-119 | Answers 0 if and only if the frequencies are non-decreasing over all pairs |
| ModeOffsets.DeriveAnalogOffset | src/board/zephyr_rtos/calibration.c:179-226 | The two inner loops find the first flash entry of a mode and its first table entry, and store the flash value less the correction, wrapped, or nothing |
| ModeOffsets.FillCalibrationOffsets | src/board/zephyr_rtos/calibration.c:150-230 | Every calibration mode gets its joined offset or keeps what it had, every frequency is copied, and the flag says whether any was found |
| ModeOffsets.NodeOffset | src/board/zephyr_rtos/calibration.c:343-356 | At a calibration mode's own frequency the interpolation returns the offset stored for the first mode reached with that frequency, itself when frequencies differ |
| ModeOffsets.StoredOffset | src/board/zephyr_rtos/calibration.c:278-356 | After initialisation the look-up at a calibrated mode's frequency gives the offset the join stored for the reached mode |
| ModeOffsets.CalibratedModeReproducedExactlyWhen | src/board/zephyr_rtos/calibration.c:278-419 | On lists that pass the sortedness check, a calibrated mode gets back exactly its first matching flash entry if and only if the join stored the same offset for it and for the reached mode; join, node and digital correction cancel even where 16-bit sums wrap |
| ModeOffsets.CalibratedModeReproduced | src/board/zephyr_rtos/calibration.c:278-419 | With frequencies that differ, every calibrated mode gets back exactly its first matching flash entry |
| ModeOffsets.EqualFrequenciesHideTheFirst | src/board/zephyr_rtos/calibration.c:75-91 | On the axis [320, 320] the value at 320 is the second one |
| ModeOffsets.OffsetIgnoresSign | src/board/zephyr_rtos/calibration.c:386-389 | A frequency and its negative give the same offset |
| ModeOffsets.CorrectionIsAdded | src/board/zephyr_rtos/calibration.c:391-407 | The run-time offset of a supported mode is the interpolated offset plus the correction its table entry points to |
| ModeOffsets.CorrectionsDiffer | src/board/zephyr_rtos/calibration.c:391-407 | Two supported modes of one filter differ at one frequency, modulo 2^16, by the difference of their corrections |
| ModeOffsets.UnsupportedMode | src/board/zephyr_rtos/calibration.c:391-418 | A mode that the table does not list has offset 0 and frequency 0 |
| Calibration.InitialisingTwice | src/board/zephyr_rtos/calibration.c:278-333 | A second initialisation from the same tables changes nothing |
| Calibration.RssiCalibration.InitAnalogOffsets | src/board/zephyr_rtos/calibration.c:278-333 | Zero if and only if both lists are sorted and each has a mode that can be calibrated; the whole new contents in each case, including a half-done failure |
| Calibration.RssiCalibration.GetAnalogBasebandFreqOffset | src/board/zephyr_rtos/calibration.c:343-356 | Interpolates along the arrays of the requested filter |
| Calibration.RssiCalibration.GetModeRssiOffset | src/board/zephyr_rtos/calibration.c:366-419 | The look-up loop returns the specified mode offset; -1 without tables, 0 for an unsupported mode |
| Calibration.RssiCalibration.GetRfModeBasebandFreqKhz | src/board/zephyr_rtos/calibration.c:564-582 | The link frequency that the entry of the first matching mode points to, 0 without tables or match |
| Calibration.RssiCalibration.GetCompensatedRssi | src/board/zephyr_rtos/calibration.c:597-616 | The conversion to cdBm with gain, mode and temperature offsets, without 32-bit overflow |
| Calibration.RssiCalibration.GetRssiLog2 | src/board/zephyr_rtos/calibration.c:679-697 | The conversion back to counts with the same offsets, clipped at 0 |
| RssiConversion.NoOverflow32 | src/board/zephyr_rtos/calibration.c:453-517 | No expression of the three conversions leaves 32 bits, for every table and argument |
| RssiConversion.CountsThereAndBack | src/board/zephyr_rtos/calibration.c:479-517 | Counts to cdBm and back is the identity at or above the default count and exactly one more below it |
| RssiConversion.CdbmThereAndBack | src/board/zephyr_rtos/calibration.c:479-517 | cdBm to counts and back differs by -2 to 8, at most 3 from the default power up, at least 2 below it |
| RssiConversion.CdbmBoundsTight | src/board/zephyr_rtos/calibration.c:479-517 | Both bounds are attained |
| RssiConversion.CdbmOfRounded | src/board/zephyr_rtos/calibration.c:479-494 | The exact rounding of 4.70 cdBm per count above the default: half up, or one too high where the value is negative, as at a negative default power |
| RssiConversion.Log2OfRounded | src/board/zephyr_rtos/calibration.c:504-517 | The exact rounding of one count per 4.70 cdBm above the default power; exact at the default power |
| RssiConversion.TempOffsetRounded | src/board/zephyr_rtos/calibration.c:453-469 | The exact rounding of -0.616 counts per temperature count from the intercept where it fits 16 bits, and 0 for a reading of 0 |
| RssiConversion.RoundedUpUnique | src/board/zephyr_rtos/calibration.c:453-517 | The rounding that the three conversions are stated with leaves one value |
| RssiConversion.NoGainNoOffset | src/board/zephyr_rtos/calibration.c:241-272 | With zero entries in all tables the gain offset is 0 |
| RssiConversion.OffsetsAreSubtracted | src/board/zephyr_rtos/calibration.c:555-559 | One count more of gain, mode or temperature offset does what one raw count less does |
| RssiConversion.OtherVersions | src/board/zephyr_rtos/calibration.c:542-545 | Without version 5 calibration the raw count passes through and the converse gives 0 |
| RssiConversion.GainStagesAdd | src/board/zephyr_rtos/calibration.c:241-272 | Between two receiver settings the gain offset moves by the differences of their entries in all seven tables, even where the 16-bit sum wraps |
| RssiConversion.CdbmOfStrictlyIncreasing | src/board/zephyr_rtos/calibration.c:479-494 | More counts always give more cdBm |
| RssiConversion.Log2OfMonotone | src/board/zephyr_rtos/calibration.c:504-517 | More cdBm never give fewer counts |
| RssiConversion.RssiRoundTrip | src/board/zephyr_rtos/calibration.c:533-664 | The raw count comes back exactly at or above the default count and one larger below it, whatever casts wrap on the way except the one to cdBm; results from 32768 up come back as 0 |
| RssiConversion.RssiRecoveredExactlyWhenFits | src/board/zephyr_rtos/calibration.c:533-664 | With a default power within 16 bits in cdBm, a count from 1 to 32767 is recovered if and only if its value in cdBm fits 16 bits |
| RssiConversion.CdbmRoundTrip | src/board/zephyr_rtos/calibration.c:533-664 | A power converted to counts and back with the same settings differs by -2 to 8 cdBm |
| CoarseAttenuator.ShiftIsBetween | src/board/zephyr_rtos/calibration.c:760-811 | Inside the table the compensation lies between the shifts of the two entries around the frequency |
| CoarseAttenuator.ShiftExactAtEntries | src/board/zephyr_rtos/calibration.c:760-811 | At a tabulated frequency it is the tabulated shift |
| CoarseAttenuator.ShiftOnLine | src/board/zephyr_rtos/calibration.c:760-811 | Outside the table the compensation is the nearer end value, and between two entries the point on the line through them |
| CoarseAttenuator.CompensateFreq | src/board/zephyr_rtos/calibration.c:760-811 | The loop computes that compensation and never divides by zero on an increasing table |
| CoarseAttenuator.GrowsAfter | src/board/zephyr_rtos/calibration.c:904-914 | On a decreasing table, past a local minimum the distance to the target never falls below it |
| CoarseAttenuator.ShrinksBefore | src/board/zephyr_rtos/calibration.c:904-914 | Before the first local minimum every entry is strictly farther |
| CoarseAttenuator.ChosenIsNearest | src/board/zephyr_rtos/calibration.c:873-916 | First-local-minimum search and early return together give the least index that minimises the distance over all calibrated entries |
| CoarseAttenuator.AttenuationAntitone | src/board/zephyr_rtos/calibration.c:873-916 | A larger target never selects a larger attenuator index |
| CoarseAttenuator.FirstCalibrated | src/board/zephyr_rtos/calibration.c:873-880 | The first loop returns the first entry below the cleared value, or the length |
| CoarseAttenuator.SearchAttenuator | src/board/zephyr_rtos/calibration.c:873-916 | The search returns that choice whatever lies past the end of the table, where the last comparison reads |
| PowerDetector.FoundUnique | src/board/zephyr_rtos/calibration.c:1241-1263 | Bracket and hit of one detector's search are determined by its table and the power |
| PowerDetector.SearchTable | src/board/zephyr_rtos/calibration.c:1241-1263 | The running pair stays adjacent and in range, hits at the first bracket whose checked pair is valid, and otherwise ends at the nearest entry before the last |
| PowerDetector.HitReadingBetween | src/board/zephyr_rtos/calibration.c:1265-1275 | On a hit the reading lies between the two bracket readings, so the 16-bit cast is lossless |
| PowerDetector.HitUpperEndValid | src/board/zephyr_rtos/calibration.c:1247-1257 | On a hit the reading at the end with more power is in the valid range |
| PowerDetector.HitsAreValidExactlyWhen | src/board/zephyr_rtos/calibration.c:1241-1263 | For a given table, every hit at every power has both its readings in range if and only if two valid readings in a row are never followed by an invalid one before the last entry |
| PowerDetector.HitsReadInRangeExactlyWhen | src/board/zephyr_rtos/calibration.c:1241-1276 | Under the same condition, and only then, the interpolated reading of every hit at every power is in the valid range |
| PowerDetector.ReadingFollowsPower | src/board/zephyr_rtos/calibration.c:1241-1276 | Where readings do not increase with attenuation, of two hits at two powers, across brackets too, the one at more power does not read less |
| PowerDetector.HitLowerEndMayBeInvalid | src/board/zephyr_rtos/calibration.c:1247-1262 | A 31-entry table on which the other end of a hit is out of range, because the validated pair is one entry behind the bracket |
| PowerDetector.ReadableMissedExactlyWhen | src/board/zephyr_rtos/calibration.c:1241-1263 | A power strictly inside a bracket with two valid readings has no hit if and only if the bracket is the last one or the reading before it is out of range |
| PowerDetector.EntryMissedExactlyWhen | src/board/zephyr_rtos/calibration.c:1241-1263 | A power on an inner entry has no hit if and only if neither the pair ending at the entry nor the pair before that is in range |
| PowerDetector.ReadableMayBeMissed | src/board/zephyr_rtos/calibration.c:1241-1263 | A 31-entry table on which a power between two valid readings has no hit |
| PowerDetector.ReadingAtEntry | src/board/zephyr_rtos/calibration.c:1265-1269 | A power equal to a table entry reads back that entry's reading |
| PowerDetector.ReadingOnLine | src/board/zephyr_rtos/calibration.c:1265-1276 | At any power, inside the bracket or not, the reading is the point on the line through the two entries, its distance from the lower-power reading truncated toward zero |
| PowerDetector.SampleReading | src/board/zephyr_rtos/calibration.c:1265-1276 | A quarter of the way down a bracket from 880 to 860 the reading is 875 |
| PowerControl.ChooseCoarseAtten | src/board/zephyr_rtos/calibration.c:829-917 | The compensated target and its nearest attenuator, always in [0, 30] |
| PowerControl.ChosenPowerIsNearest | src/board/zephyr_rtos/calibration.c:829-917 | No calibrated setting is predicted, from its table entry, temperature slope and frequency shift, to come closer to the requested power than the chosen one |
| PowerControl.MorePowerLessAttenuation | src/board/zephyr_rtos/calibration.c:829-917 | Under the same conditions, more requested power never selects more attenuation |
| PowerControl.GetFirstNonClearedIndex | src/board/zephyr_rtos/calibration.c:1129-1140 | The first entry below the cleared value among the first length ones, or the length |
| PowerControl.StartsInTableExactlyWhen | src/board/zephyr_rtos/calibration.c:1211-1242 | The entry the search starts from and the one after it lie in the table if and only if an entry before the last is calibrated |
| PowerControl.AllClearedStartsPastEnd | src/board/zephyr_rtos/calibration.c:1211-1242 | With every entry cleared the second of them is one past the end |
| PowerControl.CompensatePower | src/board/zephyr_rtos/calibration.c:1226-1237 | The power each detector's table is searched for, in dBm: request less temperature slope times the reading above the calibration temperature, plus frequency shift |
| PowerControl.ReadDetector | src/board/zephyr_rtos/calibration.c:1239-1276 | Hit exactly when some bracket covers the power, and the reading at the bracket or on the nearest line |
| PowerControl.TryDetector | src/board/zephyr_rtos/calibration.c:1224-1276 | Hit and reading of one detector at the power compensated for it |
| PowerControl.SearchDetectors | src/board/zephyr_rtos/calibration.c:1211-1277 | The loop over the detectors: the unsigned countdown ends at the highest-numbered detector that hits, or with a candidate from each of the three |
| PowerControl.TargetFollowsPower | src/board/zephyr_rtos/calibration.c:1241-1276 | On one detector with falling readings, a larger covered power never gets a smaller ADC target |
| PowerControl.ChooseFallback | src/board/zephyr_rtos/calibration.c:1279-1334 | Low cap, high cap, or the candidate nearest the middle of the range, with the tie order of the loop |
| PowerControl.OffCentreIsDistance | src/board/zephyr_rtos/calibration.c:1285-1298 | What the fallback minimises is twice the distance from the middle of the valid range |
| PowerControl.PowerToAdc | src/board/zephyr_rtos/calibration.c:1161-1336 | The highest-numbered covering detector and its reading, otherwise the fallback over all three |
| PowerControl.FallsBackToUnique | src/board/zephyr_rtos/calibration.c:1279-1334 | The fallback rule determines detector and reading |
| PowerControl.SelectsUnique | src/board/zephyr_rtos/calibration.c:1161-1336 | The promise of power_to_adc determines the reading and the channel |
| PowerControl.CoveredReading | src/board/zephyr_rtos/calibration.c:1241-1275 | A covered power reads between the readings of an entry above and an entry below it, the upper one valid |
| PowerControl.UncalibratedAntitone | src/board/zephyr_rtos/calibration.c:1623-1640 | Without calibration the attenuator is in [0, 30] and never grows with the requested power |
| PowerControl.UncalibratedSteps | src/board/zephyr_rtos/calibration.c:1630-1640 | It is one step for every whole dBm below 31, and 0 or 30 at the ends |
| PowerControl.BoostWithinLimits | src/board/zephyr_rtos/calibration.c:1605-1668 | The boost target exceeds neither the regulatory nor the board limit, whatever the request |
| PowerControl.BoostExactly | src/board/zephyr_rtos/calibration.c:1661-1668 | It is the least of the request plus 140 cdBm, the regulatory limit and 3000, unless the 16-bit sum wraps |
| PowerControl.BoostNeverRaisesAttenuation | src/board/zephyr_rtos/calibration.c:1605-1676 | Boosting a request within the limits is at least the request and never selects more attenuation |
| PowerControl.GetPowerControlParams | src/board/zephyr_rtos/calibration.c:1616-1718 | Every field of the result, with and without calibration and boost; the dc_offset index is always legal |
| GpioPins.ConfigRoundTrip | src/board/zephyr_rtos/ex10_gpio.c:84-175 | Decoding the level word of a valid configuration gives the configuration back |
| GpioPins.PinNumbers | src/board/zephyr_rtos/ex10_gpio.c:70-104 | The bit of every field and the word of all output pins, as numbers |
| GpioPins.AcceptedArguments | src/board/zephyr_rtos/ex10_gpio.c:217-339 | Which arguments the setters take, as numbers |
| GpioPins.LevelsRoundTrip | src/board/zephyr_rtos/ex10_gpio.c:84-195 | Encoding a decoded level word keeps the output pins and drops every other bit |
| GpioPins.GetLevels | src/board/zephyr_rtos/ex10_gpio.c:106-175 | The error for each bad pointer or value, and on success a word that decodes to the argument |
| GpioPins.JoinConsistent | src/board/zephyr_rtos/ex10_gpio.c:197-205 | Joining two consistent mask sets keeps set, clear and enable masks consistent |
| GpioPins.RunConsistent | src/board/zephyr_rtos/ex10_gpio.c:197-359 | Any run of setters keeps levels = enables, nothing disabled, IRQ_N untouched and only output pins driven |
| GpioPins.OrderAndRepetitionIrrelevant | src/board/zephyr_rtos/ex10_gpio.c:197-359 | Runs making the same set of calls, in any order and number, give the same struct |
| GpioPins.DisjointUnlessConflict | src/board/zephyr_rtos/ex10_gpio.c:197-359 | Set and clear masks are disjoint if and only if no two calls drove a pin in opposite directions |
| BoardSpec.GpioPinsSetClear.SetClearGpioPins | src/board/zephyr_rtos/ex10_gpio.c:197-205 | The four words of the struct after the update |
| BoardSpec.SetAntennaPort | src/board/zephyr_rtos/ex10_gpio.c:217-239 | Error code and whole struct after the call; a refused port changes nothing |
| BoardSpec.SetRxBasebandFilter | src/board/zephyr_rtos/ex10_gpio.c:241-264 | Error code and whole struct after the call |
| BoardSpec.SetPaBiasEnable | src/board/zephyr_rtos/ex10_gpio.c:266-279 | Error code and whole struct after the call |
| BoardSpec.SetPaPowerRange | src/board/zephyr_rtos/ex10_gpio.c:281-302 | Error code and whole struct after the call |
| BoardSpec.SetRfPowerSupplyEnable | src/board/zephyr_rtos/ex10_gpio.c:304-317 | Error code and whole struct after the call |
| BoardSpec.SetTxRfFilter | src/board/zephyr_rtos/ex10_gpio.c:319-339 | Error code and whole struct after the call |
| BoardSpec.SetDioUnusedPins | src/board/zephyr_rtos/ex10_gpio.c:341-359 | Error code and whole struct after the call; bits outside the five pins are ignored |
| BoardSpec.SetterDecodes | src/board/zephyr_rtos/ex10_gpio.c:84-359 | Applied to any levels, every accepted setter call changes the decoded fields it is named after to what it asks for, and no other |
| BoardSpec.GetGpioOutputPinsSetClear | src/board/zephyr_rtos/board_spec.c:75-122 | Zeroes the struct and makes the four calls up to the first refused one; success if and only if all arguments are valid |
| BoardSpec.MasksCoverFourPins | src/board/zephyr_rtos/board_spec.c:75-122 | For valid arguments the masks are disjoint and cover exactly pins 7, 15, 18 and 19 |
| BoardSpec.MasksRefineLevels | src/board/zephyr_rtos/board_spec.c:75-122 | Applied to any level word the masks give the requested antenna, range, filter and band, and leave every other field and pin alone |
| BoardSpec.MasksReachLevelWord | src/board/zephyr_rtos/board_spec.c:52-122 | Applied to the level word of any valid configuration they give the level word of the changed configuration |
| BoardSpec.GetGpioOutputLevels | src/board/zephyr_rtos/board_spec.c:52-68 | The error for bad arguments, otherwise a word that decodes to the requested outputs and sets nothing but output pins |
| BoardSpec.GetDefaultGpioSetup | src/board/zephyr_rtos/board_spec.c:171-190 | Masks split every pin but IRQ_N into set or cleared, enabled or disabled; applied to any levels they decode to the default configuration |
| ToiText.SplitJoin | toi-process/toi_process.py:30-48 | Lines written to a file and read again are the same lines |
| ToiText.JoinSplit | toi-process/toi_process.py:9-12 | Copying a file line by line copies it |
| ToiText.DecimalReadsBack | toi-process/toi_process.py:74-76 | The digits written for a count read back as the count |
| ToiText.DecimalLeads | toi-process/toi_process.py:74-76 | No count is written with a leading zero |
| ToiText.IntOfTwo | toi-process/toi_process.py:40-41 | What int() makes of any two ASCII characters: two digits, a digit with a sign or a blank, or an exception |
| ToiText.IntOfOne | toi-process/toi_process.py:40-41 | What it makes of a field cut off by the end of the line |
| ToiSpec.EpcOfLine | toi-process/toi_process.py:39-48 | With two digits in the length field after the first ",T5,", wherever it is, the EPC is twice that many characters from the seventh on, and it is overlong above 32 |
| ToiSpec.EpcOfMinusLine | toi-process/toi_process.py:39-48 | The EPC of a line whose length field has a minus sign |
| ToiSpec.CountedKeepsLine | toi-process/toi_process.py:74-76 | The text of a counted line is kept, with a comma and the count before its newline |
| ToiPass.KeepOnSnoc | toi-process/toi_process.py:34-56 | One more line read: kept up to line n, and past it exactly when it does not contain line n's EPC |
| ToiPass.PassOnIsText | toi-process/toi_process.py:31-78 | What a pass writes is again a text without blank lines |
| ToiPass.WriteUnique | toi-process/toi_process.py:31-56 | The first loop: the text it writes, the line count or error value, the number of lines left out, and whether int() raised an exception |
| ToiPass.WriteCount | toi-process/toi_process.py:66-78 | The second loop appends the count to line n and copies every other line |
| ToiPass.TagFile.MakeOneEpcUnique | toi-process/toi_process.py:16-84 | The whole new file and result of one pass on any file, including the blank line that ends it, the overlong EPC that truncates it, the exception that leaves it alone and line number 0 |
| ToiSpec.SingulateSnoc | toi-process/toi_process.py:86-107 | One more tag line at the end of the input is counted for the first survivor whose EPC it contains, or survives itself |
| ToiSpec.PassesAreScan | toi-process/toi_process.py:86-107 | Pass after pass computes the same tags and counts as one greedy scan of the tag lines |
| ToiSpec.ReadsConserved | toi-process/toi_process.py:16-107 | The counts of the survivors add up to the number of tag lines |
| ToiSpec.CountsPositive | toi-process/toi_process.py:72-76 | Every survivor counts at least its own line |
| ToiSpec.SurvivorsInOrder | toi-process/toi_process.py:31-56 | The survivors are original lines in their original order |
| ToiSpec.SurvivorsSeparated | toi-process/toi_process.py:50-56 | No survivor contains the EPC of an earlier survivor |
| ToiSpec.SurvivorEpcsDistinct | toi-process/toi_process.py:50-56 | The EPCs of the survivors are pairwise different |
| ToiSpec.EveryLineAccountedFor | toi-process/toi_process.py:50-56 | Every line contains the EPC of a survivor that occurs no later in the input |
| ToiRun.RestUnfolds | toi-process/toi_process.py:93-103 | Pass k + 1 works on the first remaining line, and nothing remains exactly when all survivors are done |
| ToiRun.ReadsConservedSoFar | toi-process/toi_process.py:93-103 | After any number of passes, counts written plus lines remaining equal the tag lines |
| ToiRun.PassAdvances | toi-process/toi_process.py:16-84 | One pass takes the file after k passes to the file after k + 1, line k + 1 of the tags present |
| ToiRun.NeverHalts | toi-process/toi_process.py:37-47 | With no tag line at the start that halts a pass, overlong or unreadable, no later pass meets one |
| ToiRun.CopyFile | toi-process/toi_process.py:4-14 | The destination becomes the source's text; copying a file onto itself empties it |
| ToiRun.UniqueTagCount | toi-process/toi_process.py:86-107 | The driver loop ends, and leaves the file and prints the number, or crashes, as the specification of a run says, on every input |
| ToiResults.CountReadsBack | toi-process/toi_process.py:74-76 | The last field of a finished line reads back as its count |
| ToiResults.FileConservesReads | toi-process/toi_process.py:86-107 | After every pass the header is unchanged and the counts read from the finished lines plus the lines to come equal the tag lines |
| ToiResults.ShortFilesNotMistaken | toi-process/toi_process.py:79-103 | In a file of fewer than 65535 lines no line count is mistaken for the error value |
| ToiResults.WholeRun | toi-process/toi_process.py:86-107 | The final file is the header and the scan's tags with their counts, and the printed number is how many there are |
| ToiResults.WholeRunConservesReads | toi-process/toi_process.py:16-107 | The final file has the old header, and the counts read back from its other lines add up to the number of original tag lines |
| ToiResults.ReportIsSurvivorCount | toi-process/toi_process.py:86-107 | The printed number is the number of survivors if and only if the file is empty, or it has tag lines, all readable and none overlong, at most 9994 survivors and no count mistaken for the error value |
| ToiResults.HeaderOnlyReports9994 | toi-process/toi_process.py:89-107 | A non-empty file without tag lines is left alone and reported as 9994 tags |
| ToiResults.OverlongCutsShort | toi-process/toi_process.py:42-47 | When the first line that halts a pass is overlong, nothing is printed, the file ends before it, and no read before it is lost |
| ToiResults.TooManyTags | toi-process/toi_process.py:89-107 | With more than 9994 survivors the run ends after 9994 passes and reports that many |
| ToiResults.CrashesExactlyWhen | toi-process/toi_process.py:37-47 | A run ends in an exception if and only if the first tag line that halts a pass has a length field that int() refuses |
| ToiAttribution.CountIsReadsCountedFor | toi-process/toi_process.py:50-56 | The count on a survivor is the number of lines whose first contained survivor it is |
| ToiAttribution.CountedForOwnExactlyWhen | toi-process/toi_process.py:50-56 | Every read is counted under its own EPC if and only if, among the input lines, none contains a different EPC of an earlier line first |
| ToiAttribution.CountsAreReadsExactlyWhen | toi-process/toi_process.py:50-76 | Every count is the number of times its EPC was read if and only if the same condition holds |
| ToiAttribution.EmptyEpcTakesAll | toi-process/toi_process.py:39-56 | A first tag line with an empty EPC, as with length field 00, takes every later line |
| ToiAttribution.MiscountedPair | toi-process/toi_process.py:50-56 | Two lines with different EPCs counted as one tag with two reads |

## Left out

- PowerControl.PowerToAdc: requires a calibrated entry before the last and power that falls with attenuation, which the code assumes; without the former it reads past its tables and what it returns is undefined (`StartsInTableExactlyWhen`).
- PowerControl.GetPowerControlParams: requires the same of version 5 data.
- PowerControl.SearchDetectors: requires the same of its band.
- PowerControl.TryDetector: requires the same of its band.
- PowerControl.ReadDetector: requires the same of its table.
- PowerDetector.SearchTable: requires the same of its table.
- CoarseAttenuator.ChosenIsNearest: assumes power that falls with attenuation, as the code's comments do.
- CoarseAttenuator.CompensateFreq: requires strictly increasing frequencies, which the source states of its tables; the method stands for the loops of both frequency compensations (lines 760-811 and 1086-1113).
- RssiConversion.RssiRoundTrip: requires that the value in cdBm fits 16 bits; `RssiRecoveredExactlyWhenFits` shows that this is needed for every default power a table can sensibly hold.
- ModeOffsets.CalibratedModeReproduced: requires strictly increasing frequencies; `CalibratedModeReproducedExactlyWhen` covers equal ones.
- IrqDelivery.NoLostInterrupt: counts actions of the IRQ thread instead of time; thread priorities and the scheduler are not modelled.
- Zephyr hands a mutex directly to a waiting thread; in the model it is unlocked and locked later, which allows more interleavings.
- The interrupt counter is unbounded; 2^31 edges without a clear would overflow the C int.
- A board with several interrupt lines, pin configuration, power, enable and reset lines of gpio_driver.c are hardware calls.
- IEEE rounding and conversions of out-of-range floating-point values to integers; reals stand for floats.
- reverse_power_to_adc, the LBT variants of the RSSI conversion and cal_init with its protocol transfers would add members of the same kinds.
- get_adjusted_tx_scalar drops 0 percent and is the identity; it has no member of its own.
- The contents of the shipped tables, register layouts, calibration_v5.c, ex10_osal.c, SPI, UART, time and random drivers, main.c and the SDK headers.
- Printing, gpio_print_pin_bits and error messages, except the final tag count.
- The fallback after an IOError, the temporary file's name, newline translation and character encoding in the script; digits and blanks outside ASCII in a length field.
