# Models and proofs for the LG Magic Remote daemon

The repository drives LG Magic remotes on Linux.  A kernel module decodes the remote's HID reports into
input events.  A daemon pairs each remote's keyboard with its IMU, remaps the keys, turns the wheel and
the gyroscope into pointer motion, keeps its configuration in TOML files, and takes orders over D-Bus.
This project models that machinery in Dafny and proves what it promises.

Code that changes things in place is modelled by classes, arrays and loops: each method is proved against
a specification function, and the promises are lemmas about those functions.  Beside them stand the laws that
say what a specification function computes without naming it or its parts: the two languages of `TomlGrammar`
and `JsonGrammar`, the byte layouts of `DBusGrammar`, the texts of `TomlFormat`, `JsonFormat` and
`DeviceFormat`, and lemmas such as `Decoder.ReportMeans`, `DaemonBus.RefusedIff` and `Devices.PlanMeans`.

| modules | what they model | main results |
|---|---|---|
| `Gauss`, `LevenbergMarquardt` | the accelerometer fit of `lm.c` over the reals | a solved system has exactly one solution, and it is returned; a refused one is within 1e-15 of singular; every step points downhill; the fit returns the end of a strictly descending run, within 1000 solves; residuals are rotation invariant |
| `Profiles`, `Pipeline`, `Airmouse` | button maps, the held-key table, the wheel, the low-pass filters | no stuck keys, exactly as long as the table of 32 fits, which it does while at most 32 keys are physically down; wheel motion is conserved; the filter is an exponentially weighted sum and stays bounded for ever |
| `Decoder`, `EndToEnd` | the kernel decoder, the frame reader, and both composed with the pipeline | with `raw_only`, at most one virtual key is down after every single event, and none after a report with button code 0 |
| `TomlTree`, `TomlWriter`, `TomlReader`, `TomlRoundTrip`, `TomlWellFormed` | `toml.c` | parsing what was written gives the tree in normal form, exactly when the floats' texts are exact; every parsed tree can be written |
| `TomlGrammar`, `TomlFormat` | the language of `toml.c`, independently of its functions | the parser accepts a text as a tree exactly when the text spells statements that build it; gaps and comments never matter; the writer's text, clause by clause |
| `DeviceConfig`, `DeviceFormat`, `DeviceRoundTrip` | device configurations as TOML trees | a file is accepted as exactly the configuration that its tree is, if that passes the checks; what is loaded is what was saved with its numbers rounded to 15 digits; a configuration survives save and load exactly when it is valid, its unset values are the defaults and its numbers are exact |
| `AtomicWrite`, `DaemonConfig`, `DaemonBus` | the files and the bus calls that change them | a crash leaves the old or the new file; over every run of calls memory and disk agree exactly as long as every saved change is reloadable and its numbers have at most 15 digits, and up to the digits that are written as long as it is reloadable; other remotes are undisturbed |
| `DBusWire`, `DBusReader`, `DBusClient`, `DBusGrammar` | the D-Bus client | exactly which byte streams answer a call with which value; the wire format of sections 'Marshaling (Wire Format)' and 'Message Format' of the D-Bus Specification is written and read back; the reply loop does not depend on how bytes are split across reads; an answer taken for ours carries the serial of our call, except exactly for readable errors that answer another |
| `Pairing`, `Devices` | pairing and hot-plug | for keyboards with addresses of their own, pairing goes by address exactly when every IMU is the first with some keyboard's address or comes after all have been claimed; a rescan moves or releases every remote exactly once and no descriptor has two owners; a poll batch is handled entry by entry as polled exactly when no device but its last one is gone |
| `JsonWriter`, `JsonReader`, `JsonRoundTrip`, `JsonGrammar`, `JsonFormat` | `json.c` (RFC 8259, sections 6 and 7, as far as it goes) | the parser accepts exactly the spellings of values that nest at most 32 deep; parsing what was written gives the tree that the text stands for exactly when it nests at most 32 deep and its strings need no `\u` escape, and the tree itself exactly when its numbers are exact besides |
| `Wrappers`, `Strings`, `Reals` | options, decimal digits, magnitudes | |

Numbers are `real` where the program has doubles.  Texts are sequences of characters, one character per
byte.  The C library's conversions (`%.15g`, `strtod`, `%g`, `sqrt`) are parameters: `TomlTree.Libc` and
`JsonWriter.Libc` hold functions, and `sqrt` is a function with its defining property.  System calls enter
as parameters that say whether they work out (`AtomicWrite.Luck`, `Devices.OpenLuck`); so do authorization
and the making of directories.

## Where the code departs from its stated intent

The model follows the code.  Each departure is a lemma.

- A resolved profile never has its low-pass flag set, so a profile's `lpf_alpha` has no effect
  (`Profiles.ResolvedNeverHasLpf`; tools/src/profiles.c:111, tools/src/daemon_pipeline.c:70).
  `Pipeline.LpfInForceIff`: the factor asked for is in force exactly when a profile asks for none, or for the
  global one.
- The bus accepts a scroll speed or a sensitivity of 0 and saves it, but no later load accepts the file
  (`DaemonBus.ZeroSpeedIsLost`).  `DeviceRoundTrip.Reloadable` is the exact condition: a speed or sensitivity
  must not be 0, the active profile must have a name, and a change that does not create it needs it defined.
- Floats keep 15 digits: `TomlRoundTrip.RoundTrip` holds with equality exactly for trees whose floats are
  exact at that precision.  So a speed with more digits that comes over the bus, or from a file edited by
  hand, stays in memory as it is while the disk holds the rounded one (`DaemonBus.LongSpeedDiffers`).
  `DaemonBus.StepAgrees` and `DaemonBus.RunAgrees` have the exact condition; `DaemonBus.RunClose` says what
  holds whatever the digits.
- The JSON writer prints some control characters as `\u00xx`, which the parser refuses, and numbers with six
  decimals, or six digits where they are large or small.  `JsonRoundTrip.RoundTrip` says exactly for which
  trees that matters, and `JsonRoundTrip.ExactNumberIff` for which numbers.
- The held-key table stops recording at 32 keys: `Pipeline.KeyStepCovered` says exactly when that breaks
  the invariant, `Pipeline.FewDownFits` that it does not while at most 32 keys are physically down, and
  `Pipeline.ThirtyThirdKeySticks` is a run that leaves a key stuck.
- An error reply is accepted whatever serial it carries.  `DBusClient.AnswerIsOursIff`, for any bytes, and
  `DBusClient.SentIsOursIff`, for any message after any signals, say exactly when an answer that is taken for
  ours is ours; `DBusClient.ErrorsOfOthersAccepted` is an instance where it is not.
- A failed open is freed twice.  `Devices.Devices.Rescan` says that a second close hits only descriptor
  numbers handed out during the same rescan, and that there is one exactly when some virtual pair was made
  and its keyboard then failed to open.
- A reconfiguration whose calibration file is broken installs the new map and speed, and keeps the filter
  factor, the sensitivity and the air-mouse switch of the one before (`Pipeline.InputPipeline.Configure`).
- An IMU that failed to open leaves an empty path, so such a remote is reopened by the next rescan instead
  of being kept.  `Devices.ReopenedIff`: what was opened for a pair is recognised the next time exactly when
  the pair has no IMU or its IMU opened.
- A rescan that reopens a remote tries to grab its keyboard while the old remote still holds it, so the grab
  fails, and the keyboard is left ungrabbed once the old remote is released.  `Devices.GrabbedIff`: what a
  rescan opens is grabbed exactly when no remote of before held the keyboard.
- A remote whose keyboard descriptor has been closed keeps its identity and paths, so every rescan that lists
  them takes it over closed as it is (`Devices.MovedAsItWas`), and it is not opened again while it is listed
  (`Devices.ClosedStaysClosed`; tools/src/daemon_devices.c:371, tools/src/daemon_devices.c:485).
- Closing keyboards and IMUs inside a poll batch shifts the meaning of the later indices.
  `Devices.CloseShifts`: after any closes an index means its own entry exactly when no entry up to it has been
  closed, and otherwise the one as many places on as entries have been lost before it, or nothing.
  `Devices.BatchHandled`: every event of a batch is handled for the entry it was polled for exactly when no
  device but the last one of the batch is gone.
- Pairing is greedy: an IMU without an address can take a keyboard from the IMU that has its address
  (`Pairing.FallbackIsGreedy`).  `Pairing.AddressJoinIff` says, from the list of devices alone, exactly when
  pairing succeeds and goes by address, and `Pairing.FallbackTakes` what happens to the first IMU that breaks
  the condition.
- A rollback whose reload fails keeps what had been read up to the failure, not the defaults that the
  comment at tools/src/daemon_bus.c:98 announces (`DaemonBus.Remote.Rollback`).  It leaves the defaults exactly
  when the text does not parse or nothing was read (`DeviceRoundTrip.FailedLoadIff`).
- tools/src/lm.c:194 declares the damping anew in each outer iteration, so the division by 10 after an accepted
  step (tools/src/lm.c:238) has no effect: every search of `LevenbergMarquardt.Search` starts from 1e-3.

## Model

| member | source | states |
|---|---|---|
| `Gauss.GaussSolve` | tools/src/lm.c:110-156 | returns 0 with the one and only solution of A x = b, or -1 with x untouched and A within 1e-15 of a singular matrix; A and b keep their values |
| `Gauss.Eliminate` | tools/src/lm.c:121-147 | the in-place elimination is the specified triangulation, or stops on a pivot below 1e-15 |
| `Gauss.FindPivot` | tools/src/lm.c:122-130 | finds the first row with the largest entry in the column |
| `Gauss.ExchangeRows` | tools/src/lm.c:133-139 | exchanging the columns from k on exchanges the rows |
| `Gauss.CancelRow` | tools/src/lm.c:141-145 | one row becomes that row less the multiple of the pivot row that cancels its entry in the column |
| `Gauss.BackSubstitute` | tools/src/lm.c:148-154 | computes the back substitution of the triangular system |
| `Gauss.SwapKernel` | tools/src/lm.c:133-139 | a pivot exchange keeps the solution set |
| `Gauss.CancelKernel` | tools/src/lm.c:140-146 | a row elimination keeps the solution set |
| `Gauss.TriangulateKernel` | tools/src/lm.c:121-147 | the whole elimination keeps the solution set |
| `Gauss.TriangularUnique` | tools/src/lm.c:148-154 | back substitution gives the only solution of the triangular system |
| `Gauss.SolutionUnique` | tools/src/lm.c:110-156 | when elimination succeeds, y solves A y = b if and only if y is the back substitution |
| `Gauss.FailureMeansNearSingular` | tools/src/lm.c:131-132 | when elimination gives up, some vector shows A to be within 1e-15 of singular |
| `Gauss.SingularFails` | tools/src/lm.c:131-132 | a matrix that maps a nonzero vector to zero is never solved |
| `Gauss.StepStops` | tools/src/lm.c:122-132 | elimination stops exactly when everything from the diagonal down is smaller than 1e-15 |
| `Gauss.StepGrowth` | tools/src/lm.c:122-146 | partial pivoting: one elimination step at most doubles the largest entry |
| `Gauss.TriangulateGrowth` | tools/src/lm.c:121-147 | the elimination of n columns makes no entry larger than 2^n times the largest one |
| `LevenbergMarquardt.LmFitAccel` | tools/src/lm.c:158-262 | below six samples an error with nothing changed; otherwise the end of a finished, strictly descending run from the start point; its cost times the number of samples is the sum of the squared errors of the bias and the matrix returned, and is at most that of the start point; at most 1000 solves |
| `LevenbergMarquardt.Iterate` | tools/src/lm.c:192-250 | one outer iteration improves the parameters, or leaves them where no tried damping improves them |
| `LevenbergMarquardt.Search` | tools/src/lm.c:217-246 | at most ten tries; the first improving step in the sequence of dampings is taken; convergence is reported exactly for an improvement below 1e-10 |
| `LevenbergMarquardt.TryStep` | tools/src/lm.c:218-245 | a step is accepted exactly when the damped equations have a solution and the cost falls |
| `LevenbergMarquardt.SolveStep` | tools/src/lm.c:220-230 | the step returned is the only solution of the damped normal equations; on failure there is none to accept |
| `LevenbergMarquardt.StartPoint` | tools/src/lm.c:170-180 | on every axis the samples' deviations from the start point sum to 0; the matrix is the identity |
| `LevenbergMarquardt.StartCentred` | tools/src/lm.c:170-180 | the same of the specification: on every axis the deviations sum to 0 |
| `LevenbergMarquardt.LmResiduals` | tools/src/lm.c:33-63 | fills in the residuals |
| `LevenbergMarquardt.LmJacobian` | tools/src/lm.c:65-95 | fills in the Jacobian, zero rows where the norm is below the guard |
| `LevenbergMarquardt.MeanCost` | tools/src/lm.c:97-106 | the mean of the squared residuals |
| `LevenbergMarquardt.CostWrittenOut` | tools/src/lm.c:33-106 | the cost is the mean of (length of M (a - bias) - 9.80665)^2 |
| `LevenbergMarquardt.NormalEquations` | tools/src/lm.c:200-211 | J^T J and J^T r |
| `LevenbergMarquardt.Damp` | tools/src/lm.c:220-225 | adds lambda times the diagonal, or lambda where the diagonal is not positive |
| `LevenbergMarquardt.StepWrittenOut` | tools/src/lm.c:200-225 | the equations of a try, entry by entry: the products of the Jacobian's columns, the diagonal raised by lambda times itself or by lambda where it is not positive, and minus the gradient |
| `LevenbergMarquardt.AcceptedStep` | tools/src/lm.c:226-245 | a try is accepted exactly when x plus a solution of those equations has a lower cost, and rejected exactly when there is no such place |
| `LevenbergMarquardt.GuardedRow` | tools/src/lm.c:74-80 | below a length of 1e-9 the row is zero |
| `LevenbergMarquardt.JacobianIsDifferential` | tools/src/lm.c:82-93 | a Jacobian row is the differential of the norm |
| `LevenbergMarquardt.Norm2Expansion` | tools/src/lm.c:33-95 | the squared norm changes by twice the norm times the Jacobian term, plus terms of degree two and more |
| `LevenbergMarquardt.StepDescends` | tools/src/lm.c:200-232 | a solved step d has (J^T r).d equal to minus the squared length of J d minus its damping term |
| `LevenbergMarquardt.LinearisedCostFalls` | tools/src/lm.c:200-232 | for a positive damping every nonzero step lowers the linearised cost, by exactly this much |
| `LevenbergMarquardt.StepLowersLinearModel` | tools/src/lm.c:217-232 | the same for every step the fit tries, whatever lambda it has reached |
| `LevenbergMarquardt.DescentLowersCost` | tools/src/lm.c:192-250 | the cost falls strictly along every run |
| `LevenbergMarquardt.PerfectFit` | tools/src/lm.c:97-106 | the cost is never negative, and 0 exactly when every corrected sample has the length of gravity |
| `LevenbergMarquardt.RotationInvariance` | tools/src/lm.c:47-63 | replacing M by R.M for an orthogonal R changes no residual |
| `Profiles.Profile.SetButton` | tools/src/profiles.c:42-64 | replaces the first entry of the code or appends one |
| `Profiles.Profile.ClearButtons` | tools/src/profiles.c:66-71 | empties the map and changes nothing else |
| `Profiles.Profile.Merge` | tools/src/profiles.c:111-125 | copies the values that are set, never the flags, and sets every button |
| `Profiles.Profile.Validate` | tools/src/profiles.c:73-109 | accepts exactly the valid profiles |
| `Profiles.WithButtonLookup` | tools/src/profiles.c:42-64 | setting a button changes the lookup of that code and of no other |
| `Profiles.WithButtonUnique` | tools/src/profiles.c:42-64 | no code ever gets a second entry |
| `Profiles.LookupIs` | tools/src/profiles.c:42-64 | a code is mapped by its first entry, and to itself when it has none |
| `Profiles.MergedLookup` | tools/src/profiles.c:111-125 | merging overrides exactly the codes the source mentions |
| `Profiles.MergedFromNothing` | tools/src/profiles.c:229-254 | setting the entries of a map one by one rebuilds it, in order |
| `Profiles.ResolvedNeverHasLpf` | tools/src/profiles.c:111-125 | a resolved profile never counts its lpf_alpha as set |
| `Profiles.Keymap.CodeOfName` | tools/src/keymap.c:43-63 | the name printed for a code reads back as the code |
| `Profiles.Keymap.CodeOfKnown` | tools/src/keymap.c:43-63 | the table gives the code of each of its names, and -1 for any other |
| `Pipeline.InputPipeline.Configure` | tools/src/daemon_pipeline.c:26-74 | every held key is released before the resolved profile is installed, and the wheel remainder stays; the filter starts afresh with the global factor, whatever the profile says, and the profile's sensitivity; with a broken calibration file filter, calibration and switch stay |
| `Pipeline.InputPipeline.ReleaseHeld` | tools/src/daemon_pipeline.c:38-41 | the releases sent are those of the table, last entry first, and the table is empty |
| `Pipeline.InputPipeline.Imu` | tools/src/daemon_pipeline.c:143-169 | with the air mouse on, the corrected sample joins those filtered since the last configuration, and the motion sent is that of the filter over all of them; none is sent when it is zero |
| `Pipeline.MotionIs` | tools/src/airmouse.c:18-29 | the pointer moves by minus the weighted sums of the third and the second axis, times the scale, rounded towards 0 |
| `Pipeline.InputPipeline.Keyboard` | tools/src/daemon_pipeline.c:76-141 | one frame: the held table and the events sent are those of the specification; the clicks are the remainder plus wheel times scroll speed, rounded towards 0, and the fraction is the new remainder; -1 exactly when a write found no device |
| `Pipeline.InputPipeline.Translate` | tools/src/daemon_pipeline.c:82-124 | the array update of one key event is the specified step |
| `Pipeline.KeyStepMeans` | tools/src/daemon_pipeline.c:82-124 | a held key keeps the code of its last entry and a release takes that entry out; any other key is mapped, and held from then on unless it is a release or 32 keys are held |
| `Pipeline.ConfigureMeans` | tools/src/daemon_pipeline.c:38-41 | a new button map releases what is held, the last key first, and nothing is held then |
| `Pipeline.CorrectedIs` | tools/src/calib.c:76-97 | a reading is corrected by bias and scale, with the first two axes exchanged and all reversed |
| `Pipeline.FindHeld` | tools/src/daemon_pipeline.c:86-88 | finds the last entry of the key, or none |
| `Pipeline.KeyStepCovered` | tools/src/daemon_pipeline.c:82-126 | a key event keeps "held keys are distinct and every virtual key that is down belongs to a held one" if and only if it is not an untracked press of a key nobody holds |
| `Pipeline.NextInv` | tools/src/daemon_pipeline.c:38-127 | the same for events and reconfigurations; no virtual key is down after a reconfiguration |
| `Pipeline.RunInvIff` | tools/src/daemon_pipeline.c:38-127 | the invariant holds at every moment of a run if and only if the run fits the table |
| `Pipeline.RunInv` | tools/src/daemon_pipeline.c:38-127 | in particular at the end of every run that fits |
| `Pipeline.RunTracked` | tools/src/daemon_pipeline.c:82-126 | only keys that are physically down are held |
| `Pipeline.NoStuckKey` | tools/src/daemon_pipeline.c:38-127 | once every physical key is up, so is every virtual one |
| `Pipeline.FewDownFits` | tools/src/daemon_pipeline.c:108-113 | the run fits the table if never more than 32 keys are physically down at a time |
| `Pipeline.NoKeyStuck` | tools/src/daemon_pipeline.c:38-127 | so with at most 32 keys physically down at a time, no virtual key is down once all physical ones are up |
| `Pipeline.LpfInForceIff` | tools/src/daemon_pipeline.c:70 | the filter factor a profile asks for is in force if and only if it asks for none, or for the global one |
| `Pipeline.PinnedUntilReleased` | tools/src/daemon_pipeline.c:82-98 | from the press to the release or the next reconfiguration, every event of the key carries the code of its press |
| `Pipeline.ThirtyThirdKeySticks` | tools/src/daemon_pipeline.c:108-113 | with 33 keys down and a remap, the 33rd virtual key stays down for ever |
| `Pipeline.WheelConserved` | tools/src/daemon_pipeline.c:129-139 | clicks sent plus remainder equal the initial remainder plus the sum of wheel times scroll speed over all turns, and the remainder stays below one click |
| `Pipeline.WheelTruncates` | tools/src/daemon_pipeline.c:129-139 | the clicks of a turn are remainder plus wheel times scroll speed, rounded towards 0; what is left has its sign |
| `Airmouse.Engine.Process` | tools/src/airmouse.c:18-29 | out and prev become the filter of all samples since the initialisation; dx and dy are the truncated, scaled third and second components |
| `Airmouse.Engine.Init` | tools/src/airmouse.c:11-16 | starts a new run from 0 |
| `Airmouse.FilterIsWeightedSum` | tools/src/airmouse.c:18-29 | the output is the sum of alpha (1 - alpha)^(n - k) g_k |
| `Airmouse.FilterInHull` | tools/src/airmouse.c:18-29 | the output lies in the hull of 0 and the inputs |
| `Airmouse.MoveBound` | tools/src/airmouse.c:18-29 | no motion exceeds the scale times the fastest rotation so far |
| `Airmouse.MoveIs` | tools/src/airmouse.c:25-28 | the motion is minus the output times the scale, rounded towards 0 |
| `Airmouse.ValidateCalib` | kernel/lg_magic_airmouse.c:28-42 | returns 0 exactly for the valid calibrations |
| `Airmouse.CalcMouse` | kernel/lg_magic_airmouse.c:44-63 | filters the three axes, derives the motion, compares with the threshold |
| `Airmouse.GyroBounded` | kernel/lg_magic_airmouse.c:28-63 | with a validated calibration the filter state stays within 328680 for ever, and so does the motion |
| `Airmouse.GyroStateBounded` | kernel/lg_magic_airmouse.c:28-63 | the same of the three states that a history of readings has left |
| `Airmouse.GyroRunIsWeightedSum` | kernel/lg_magic_airmouse.c:44-63 | the kernel's filter state is the weighted sum of all corrected readings |
| `Decoder.Driver.RawEvent` | kernel/lg_magic_main.c:108-223 | state and events of one report are those of the specification; other reports, and reports without the input devices, change nothing; the filter array is the filter of all readings so far, and with a validated calibration it stays within its bound |
| `Decoder.ReportMeans` | kernel/lg_magic_main.c:108-223 | for every report of 20 bytes that begins with 0xFD: which events go out, in which order, and the state after it, by the button code, the ticks, the counter and the six readings that its bytes carry |
| `Decoder.Driver.Steer` | kernel/lg_magic_main.c:183-194 | a big motion switches to mouse mode, and motion is sent in that mode only |
| `Decoder.Driver.Filter` | kernel/lg_magic_main.c:185 | one more reading goes through the filter |
| `Decoder.Driver.HandleButton` | kernel/lg_magic_main.c:143-166 | releases the last key, presses the first match of the table |
| `Decoder.FindButton` | kernel/lg_magic_main.c:151-152 | the first entry of the button table with this code |
| `Decoder.Device.ReadFrameExt` | tools/src/evdev.c:239-312 | collects events up to the next SYN, keeps the axes between frames, and gives the time between counters modulo 65536 |
| `Decoder.ReadFrameOf` | tools/src/evdev.c:245-310 | the events before a SYN are one frame, and what follows is left for the next |
| `Decoder.ReadFrameEnds` | tools/src/evdev.c:245-310 | events are collected up to a SYN, which completes the frame, a failed read or an interruption that means to stop, which are errors, or the end of the stream; short reads and other interruptions are nothing |
| `Decoder.FrameSums` | tools/src/evdev.c:262-290 | a frame holds the first 16 key events in order, and the sums of the wheel events |
| `Decoder.FrameKeeps` | tools/src/evdev.c:262-290 | the last event of an axis and the last counter count |
| `Decoder.IntervalIs` | tools/src/evdev.c:292-306 | n ticks later the interval is n times 0.02/256 s, also when the counter wraps around at 65536 |
| `EndToEnd.NextReport` | kernel/lg_magic_main.c:143-202 | through decoder, frame reader and pipeline, a report acts as its at most two key events |
| `EndToEnd.OtherInputs` | kernel/lg_magic_main.c:125-129 | other reports change nothing, and a new map acts as on the pipeline alone |
| `EndToEnd.RunInv` | kernel/lg_magic_main.c:143-166 | over every run the held table holds at most the decoder's last key |
| `EndToEnd.AtMostOneDown` | kernel/lg_magic_main.c:143-166 | for every stream of reports, every map and every reconfiguration between frames, at most one virtual key is down after each event that is sent |
| `EndToEnd.NoneDownAfterZero` | kernel/lg_magic_main.c:143-166 | none is down after a report with button code 0 |
| `TomlTree.EnterReaches` | tools/src/toml.c:486-509 | after entering a path, its table is there |
| `TomlTree.EnterExisting` | tools/src/toml.c:486-509 | entering a table that is there changes nothing |
| `TomlTree.EnterNew` | tools/src/toml.c:495-501 | entering a missing table adds it, empty |
| `TomlTree.EnterStep` | tools/src/toml.c:486-509 | entering goes one table further at a time |
| `TomlTree.EnterCrosses` | tools/src/toml.c:502-505 | a value that is no table cannot be entered |
| `TomlTree.AddAtMeans` | tools/src/toml.c:86-111 | a member is added at the end of its table unless its key is there, and nothing else changes |
| `TomlWriter.TomlDumps` | tools/src/toml.c:1141-1158 | writes the specified text, or fails |
| `TomlWriter.Stream.DumpTable` | tools/src/toml.c:1099-1139 | scalars first, then a header and the text of each sub-table, blank lines between |
| `TomlWriter.Stream.DumpString` | tools/src/toml.c:1019-1042 | the quoted text, character by character |
| `TomlWriter.Stream.DumpPathKey` | tools/src/toml.c:1044-1050 | a key bare where that is safe, else quoted |
| `TomlWriter.DumpsRefusesOnlyDepth` | tools/src/toml.c:1121-1124 | a table is refused exactly when a header would have more than 63 segments |
| `TomlFormat.StringWritten` | tools/src/toml.c:1019-1042 | a string is between quotation marks, each character as it is or with its escape |
| `TomlFormat.KeyWritten` | tools/src/toml.c:1009-1050 | letters, digits, underscores and hyphens make a bare key; any other key is written as a string |
| `TomlFormat.IntWritten` | tools/src/toml.c:1060-1062 | the decimal digits of the magnitude, without leading zeros, after a minus sign if negative |
| `TomlFormat.FloatWritten` | tools/src/toml.c:1063-1074 | the text of `%.15g`, with ".0" unless it has a point, an exponent or an n |
| `TomlFormat.ArrayWritten` | tools/src/toml.c:1078-1086 | a comma and a space between the items |
| `TomlFormat.LineWritten` | tools/src/toml.c:1105-1113 | a further value adds the line `key = value` |
| `TomlFormat.PathWritten` | tools/src/toml.c:1123-1132 | a header names its table by the keys from the root, with dots between them |
| `TomlFormat.TableWritten` | tools/src/toml.c:1113-1139 | a further sub-table adds its header, after a blank line unless it is the first thing in its table, and its own text; headers of more than 63 segments are refused |
| `TomlFormat.ValuesFirst` | tools/src/toml.c:1099-1139 | values come before sub-tables, whatever the order in the tree |
| `TomlReader.TomlParse` | tools/src/toml.c:670-781 | returns the tree of the grammar that `TomlGrammar` spells out, or its first error and line |
| `TomlReader.Parser.ParseLine` | tools/src/toml.c:683-771 | one round of the loop reads one line of the document |
| `TomlReader.Parser.ParseHeader` | tools/src/toml.c:690-719 | a header enters its table from the root |
| `TomlReader.Parser.ParseKeyLine` | tools/src/toml.c:720-770 | a key line adds one value below the current table; a duplicate is an error that does not stop the parser |
| `TomlReader.Parser.ParseValue` | tools/src/toml.c:512-668 | reads a string, array, boolean or number |
| `TomlReader.Parser.ParseNumber` | tools/src/toml.c:596-667 | collects a token of at most 63 characters without separators, and classifies it |
| `TomlReader.Parser.ParseArrayItems` | tools/src/toml.c:536-582 | reads the strings of an array |
| `TomlReader.Parser.ParseString` | tools/src/toml.c:237-383 | reads a basic or a literal string, cut at a NUL |
| `TomlReader.Parser.ParseKeyPath` | tools/src/toml.c:447-482 | reads a dotted path of bare and quoted keys |
| `TomlReader.Parser.EnterTable` | tools/src/toml.c:486-509 | enters a path, or records that a value is in the way |
| `TomlGrammar.ParseIff` | tools/src/toml.c:670-781 | a text is accepted as a tree if and only if it spells lines whose statements go together and build that tree |
| `TomlGrammar.Accepted` | tools/src/toml.c:670-781 | every spelling of a document is accepted as what its statements build, and refused when they do not go together |
| `TomlGrammar.CommentEnds` | tools/src/toml.c:196-235 | a comment, on a line of its own or behind a statement, ends before its newline |
| `TomlGrammar.GapSkipped` | tools/src/toml.c:196-215 | blanks, newlines and whole comments are passed over, and the newlines counted |
| `TomlGrammar.SameTree` | tools/src/toml.c:196-235 | documents with the same statements are both refused, or read as the same tree |
| `TomlGrammar.CommentIgnored` | tools/src/toml.c:196-235 | a comment on a line of its own before any statement, or behind it, changes nothing |
| `TomlGrammar.LinesRead` | tools/src/toml.c:683-771 | reading goes through any lines and does what they say, and fails when one of them does |
| `TomlGrammar.QuoteRead` | tools/src/toml.c:237-383 | a string is read as what its spelling stands for, all escapes included |
| `TomlGrammar.Utf8Decodes` | tools/src/toml.c:330-356 | the bytes of an escaped code point are its UTF-8 encoding, which can be decoded |
| `TomlGrammar.NumeralRead` | tools/src/toml.c:596-667 | a numeral of any spelling, separators included, is read as its value, or refused |
| `TomlGrammar.ValueIsRead` | tools/src/toml.c:512-668 | every spelling of a value is read as what it stands for, or is a number that is refused |
| `TomlGrammar.FirstError` | tools/src/toml.c:683-771 | the first bad statement decides on the error and its line |
| `TomlGrammar.StringStops` | tools/src/toml.c:237-383 | which strings are refused, with which message at which line |
| `TomlGrammar.BadArrays` | tools/src/toml.c:536-582 | arrays cut short, with something else than a string, or without a separator |
| `TomlGrammar.NoValue` | tools/src/toml.c:512-535 | a missing value and one that begins with no character of a value |
| `TomlGrammar.NoWord` | tools/src/toml.c:583-595 | true and false must end where the word ends |
| `TomlGrammar.AssignmentRead` | tools/src/toml.c:720-770 | what a setting does to the tree, or the error it records |
| `TomlGrammar.HeaderRead` | tools/src/toml.c:690-719 | what a header does, or the error it records |
| `TomlRoundTrip.QuotedRead` | tools/src/toml.c:1019-1042 | every escape included, a written string is read back, whatever follows it |
| `TomlRoundTrip.PathRead` | tools/src/toml.c:1044-1050 | a header path is read back segment by segment |
| `TomlRoundTrip.ValueRead` | tools/src/toml.c:1052-1092 | a written value is read back, up to the precision of its text |
| `TomlRoundTrip.SubTablesRead` | tools/src/toml.c:1099-1139 | the sub-tables of a table add themselves again, wherever the parser's current table was |
| `TomlRoundTrip.DumpsRead` | tools/src/toml.c:1099-1158 | whatever is written parses, to the tree that the text stands for |
| `TomlRoundTrip.RoundTrip` | tools/src/toml.c:1099-1158 | parsing gives the tree with scalars moved before sub-tables if and only if every float's text is exact |
| `TomlRoundTrip.NormalTwice` | tools/src/toml.c:1099-1139 | a second round trip changes nothing |
| `TomlRoundTrip.GetReread` | tools/src/toml.c:839-850 | the reordering never shows in a lookup |
| `TomlRoundTrip.AtReread` | tools/src/toml.c:486-509 | the table at a path is found again after a round trip |
| `TomlWellFormed.ParseWritable` | tools/src/toml.c:670-781 | every tree the parser returns has unique keys and NUL-free strings, so it can be written again |
| `TomlWellFormed.TidyRoundTrip` | tools/src/toml.c:1099-1158 | a tree in normal form with at most 63 levels comes back as its text stands for, unchanged if and only if its floats are exact |
| `DeviceConfig.DeviceConfig.ReadToml` | tools/src/profiles.c:258-340 | what a load leaves, success or failure, field by field |
| `DeviceConfig.DeviceConfig.WriteToml` | tools/src/profiles.c:415-484 | the tree of the set fields, or none when a code has no name |
| `DeviceConfig.DeviceConfig.Validate` | tools/src/profiles.c:342-362 | accepts exactly the valid configurations |
| `DeviceConfig.DeviceConfig.ProfileEnsure` | tools/src/profiles.c:395-413 | the first profile of the name, appended when there is none |
| `DeviceConfig.DeviceConfig.ProfileFind` | tools/src/profiles.c:127-136 | the first profile of the name |
| `DeviceConfig.DeviceConfig.Mutate` | tools/src/daemon_bus.c:422-583 | what each of the bus's mutations does |
| `DeviceConfig.ParseFields` | tools/src/profiles.c:209-256 | the numbers and the button map of one profile table |
| `DeviceFormat.ProfileReadIff` | tools/src/profiles.c:209-256 | a table is read as exactly the profile that it is, if that is within the limits |
| `DeviceFormat.DeviceReadIff` | tools/src/profiles.c:258-340 | a tree is read as exactly the configuration that it is, if that passes the checks |
| `DeviceFormat.FileReadIff` | tools/src/profiles.c:364-389 | a device file is accepted as exactly the configuration that its tree is, if that passes the checks |
| `DeviceFormat.SoundIsValid` | tools/src/profiles.c:73-109 | the checks: a name, a speed in (0, 100], a sensitivity in (0, 10000], a factor in [0, 1], and an active profile that is "default" or defined |
| `DeviceFormat.ProfileWritten` | tools/src/profiles.c:440-477 | a profile is written as a table that it is, the set numbers first and the buttons last |
| `DeviceFormat.DeviceWritten` | tools/src/profiles.c:415-484 | a configuration is written as a tree that it is, key after key in this order |
| `DeviceFormat.NamelessRefused` | tools/src/profiles.c:415-484 | a code without a name cannot be written |
| `DeviceRoundTrip.ProfileBack` | tools/src/profiles.c:440-477 | a profile comes back from its table when valid, and is refused otherwise |
| `DeviceRoundTrip.ProfileTidy` | tools/src/profiles.c:440-477 | the text of a profile's table stands for the table of the profile with its set numbers rounded to 15 digits |
| `DeviceRoundTrip.SaveLoad` | tools/src/profiles.c:258-484 | a saved configuration is read back field by field, its numbers rounded to 15 digits, and accepted exactly when the rounded one is valid |
| `DeviceRoundTrip.SaveLoadIff` | tools/src/profiles.c:258-484 | a configuration survives saving and loading if and only if it is valid, its unset values are the defaults and its set numbers are exact |
| `DeviceRoundTrip.LoadSettles` | tools/src/profiles.c:258-340 | every load, even one that fails, leaves defaults where nothing is set, valid profiles, and no code mapped twice |
| `DeviceRoundTrip.FailedLoadIff` | tools/src/profiles.c:258-340 | a load that fails leaves the defaults if and only if the text does not parse or nothing was read from it |
| `DeviceRoundTrip.MutatedMeans` | tools/src/daemon_bus.c:422-583 | a mutation changes the active profile, made with the built-in values if it is not there, or the calibration path, in this way, and nothing else |
| `DeviceRoundTrip.MutatedSettled` | tools/src/daemon_bus.c:422-583 | a permitted mutation keeps that, and the result is valid exactly when it is reloadable |
| `DeviceRoundTrip.RereadReloadable` | tools/src/profiles.c:73-109 | with numbers rounded as printing and reading do, the next load accepts the result exactly when the mutation is reloadable |
| `DeviceRoundTrip.MutatedSameText` | tools/src/daemon_bus.c:422-583 | configurations with the same text have the same text after a mutation |
| `AtomicWrite.FileSystem.AtomicWrite` | tools/src/daemon_config.c:170-214 | exactly when it succeeds the file holds the new text, and it is as before otherwise; a crash at any step, with unflushed data lost or mangled, leaves it wholly old or wholly new |
| `AtomicWrite.FileSystem.WriteTemp` | tools/src/daemon_config.c:181-206 | up to the rename only the temporary file is written, and on success it has been flushed |
| `AtomicWrite.FileSystem.OpenTemp` | tools/src/daemon_config.c:181-193 | a stale temporary file is removed first |
| `DaemonConfig.LoadInto` | tools/src/daemon_config.c:56-109 | the device file with the active profile of state.toml over it |
| `DaemonConfig.ReadFile` | tools/src/profiles.c:364-389 | an absent file leaves the defaults |
| `DaemonConfig.LoadMeans` | tools/src/daemon_config.c:56-109 | what a load gives, by the two files at their paths |
| `DaemonConfig.ProfileAt` | tools/src/daemon_config.c:87-95 | the active profile is the string `profile` of the table devices.<identity> |
| `DaemonConfig.SaveProfile` | tools/src/daemon_config.c:216-280 | state.toml becomes the edited tree, or an error, with a crash-safe history |
| `DaemonConfig.SaveDevice` | tools/src/daemon_config.c:282-320 | the device file becomes the text of the configuration, or an error, with a crash-safe history |
| `DaemonConfig.TableSetStr` | tools/src/daemon_config.c:116-136 | sets or replaces one string member |
| `DaemonConfig.WithProfileGet` | tools/src/daemon_config.c:244-261 | refused exactly when a value that is no table is in the way; sets one profile and leaves everything else |
| `DaemonConfig.WithProfileOrder` | tools/src/daemon_config.c:116-261 | what is new comes after what was there, and nothing else moves |
| `DaemonConfig.NewStateVersion` | tools/src/daemon_config.c:232-243 | a new state.toml says that it is of version 2 |
| `DaemonConfig.SavedProfile` | tools/src/daemon_config.c:216-280 | after saving, state.toml names that profile for the remote and the old one for every other |
| `DaemonConfig.SavedOthers` | tools/src/daemon_config.c:216-280 | the whole table of every other remote comes back, as far as its floats are exact |
| `DaemonConfig.SavedProfileLoads` | tools/src/daemon_config.c:56-109 | the next load of the remote is as before with the saved profile active; loads of others are unchanged |
| `DaemonConfig.CrashLoads` | tools/src/daemon_config.c:170-214 | a load after a crash at any step of a write gives the old or the new configuration |
| `DaemonConfig.PathsDiffer` | tools/src/daemon_config.c:66-80 | a device file is never state.toml, nor a temporary file of either |
| `DaemonBus.Remote.MutateAndSave` | tools/src/daemon_bus.c:112-126 | saved and applied, or memory is reloaded from the disk; in both cases the held keys are released and the pipeline runs the resolved profile, its sensitivity and the air-mouse switch |
| `DaemonBus.Remote.Rollback` | tools/src/daemon_bus.c:90-105 | memory becomes what a load gives, even a failed one, and the pipeline follows |
| `DaemonBus.Remote.Apply` | tools/src/daemon_bus.c:77-87 | the held keys are released and the pipeline runs the profile the configuration resolves to |
| `DaemonBus.Remote.SetProfile` | tools/src/daemon_bus.c:399-415 | saved, reloaded and applied, or nothing changes |
| `DaemonBus.Remote.Handle` | tools/src/daemon_bus.c:378-607 | a call is refused, with nothing changed, exactly when it is not authorized, does not name the remote by a valid identity, or has an unknown key, a number beyond its limits or a profile that is not defined; otherwise it is Done or Failed, with the new value in force and saved when Done |
| `DaemonBus.RefusedIff` | tools/src/daemon_bus.c:378-607 | the exact condition in terms of the request, and which refusal comes first |
| `DaemonBus.CallTakesEffect` | tools/src/daemon_bus.c:422-583 | after the mutation of a call the profile in force has the number, the button or no buttons, as the call says |
| `DaemonBus.ResolvedMeans` | tools/src/daemon_pipeline.c:44-58 | the profile in force is the active one, else "default", else none; what it does not set is built in |
| `DaemonBus.MutationReloads` | tools/src/daemon_bus.c:112-126 | after a saved mutation the disk gives the memory back if and only if the mutation is reloadable and every set number is exact |
| `DaemonBus.MutationLoads` | tools/src/daemon_bus.c:112-126 | the load after a saved mutation gives the memory with its numbers rounded, if and only if that is valid |
| `DaemonBus.StepAgrees` | tools/src/daemon_bus.c:77-126 | memory and disk agree after a call if and only if it did not save something that is not reloadable or not exact; a failed call changes nothing in memory |
| `DaemonBus.StepClose` | tools/src/daemon_bus.c:77-126 | they agree up to the digits that are written if and only if it did not save something that is not reloadable |
| `DaemonBus.RunAgrees` | tools/src/daemon_bus.c:378-607 | over any run of calls the disk gives the memory back after every call if and only if every saved mutation was reloadable and exact; memory is then the start with the saved changes, in order |
| `DaemonBus.RunClose` | tools/src/daemon_bus.c:378-607 | over any run, with whatever numbers, memory and disk agree up to the digits that are written after every call if and only if every saved mutation was reloadable; up to those digits memory is then the start with the saved changes, in order |
| `DaemonBus.OthersUndisturbed` | tools/src/daemon_bus.c:378-607 | a call for one remote changes nothing that another one loads |
| `DaemonBus.ZeroSpeedIsLost` | tools/src/daemon_bus.c:526-561 | a scroll speed or sensitivity of 0 is accepted and saved, and the load after it fails |
| `DaemonBus.LongSpeedDiffers` | tools/src/daemon_bus.c:526-561 | a speed with more than 15 digits is accepted and saved, and memory and disk then differ |
| `DBusWire.PadLeast` | tools/src/dbus_client.c:121-128 | the padding aligns, and fewer zero bytes would not |
| `DBusWire.Writer.PutString` | tools/src/dbus_client.c:131-143 | length, bytes, NUL and padding; the length of the message so far excludes the padding |
| `DBusWire.Writer.PutArg` | tools/src/dbus_client.c:163-187 | one argument as the specification marshals it |
| `DBusWire.Writer.PutValue` | tools/src/dbus_client.c:194-205 | the variant of one header field |
| `DBusWire.BuildBody` | tools/src/dbus_client.c:207-266 | the body is the arguments at aligned offsets, without the padding after the last |
| `DBusWire.BuildCall` | tools/src/dbus_client.c:207-266 | the bytes are the message of the specification, whose layout `DBusWire.FixedLayout` and `DBusClient.CallDecodes` spell out, serial included; none when it would be longer than 2^20 bytes |
| `DBusWire.FixedLayout` | tools/src/dbus_client.c:222-231 | the sixteen fixed bytes: little-endian, type, no flags, version 1, body length, serial, length of the fields |
| `DBusReader.Slice.Read` | tools/src/dbus_client.c:373-468 | reads a value as specified, or records an error |
| `DBusReader.Slice.ReadArray` | tools/src/dbus_client.c:401-430 | the elements, read as a slice whose offset restarts at 0 |
| `DBusReader.Slice.ReadHead` | tools/src/dbus_client.c:805-899 | the reply serial, error name and signature of a header |
| `DBusReader.ItemsRead` | tools/src/dbus_client.c:401-430 | string lists come back although the slice restarts its offset at 0 |
| `DBusReader.ValueRead` | tools/src/dbus_client.c:307-468 | reading inverts the encoding of s, as and v, and consumes exactly the body |
| `DBusReader.FieldsRead` | tools/src/dbus_client.c:805-899 | reading the marshaled header fields gives them back and ends exactly at their end |
| `DBusReader.ArgsRead` | tools/src/dbus_client.c:163-187 | the body of a call determines its arguments |
| `DBusGrammar.StringIff` | tools/src/dbus_client.c:317-349 | a string is accepted exactly as its length, bytes, NUL and padding |
| `DBusGrammar.ReplyIff` | tools/src/dbus_client.c:373-468 | a value is accepted exactly when its signature is s, as, or v with a string inside, and its bytes are laid out so |
| `DBusGrammar.FieldsIff` | tools/src/dbus_client.c:805-899 | header fields are accepted exactly in this layout |
| `DBusGrammar.FrameIff` | tools/src/dbus_client.c:957-993 | the client takes exactly these bytes for a whole message |
| `DBusGrammar.AnswerIff` | tools/src/dbus_client.c:955-1003 | the answer is the first whole message that is no signal |
| `DBusGrammar.ValueReplyIff` | tools/src/dbus_client.c:1027-1066 | a value needs a METHOD_RETURN with the serial, and no signature or exactly one value that fills the body |
| `DBusGrammar.AcceptedIff` | tools/src/dbus_client.c:955-1066 | which byte streams answer a call with a value, exactly |
| `DBusGrammar.ErrorReplyIff` | tools/src/dbus_client.c:1005-1026 | which messages are errors from the bus, with name and message, exactly |
| `DBusGrammar.Limits` | tools/src/dbus_client.c:131-143 | strings below 2^28 bytes without NUL, messages of at most 2^20 bytes |
| `DBusClient.MessageRead` | tools/src/dbus_client.c:957-993 | a marshaled message at the head of a stream is one frame, and nothing of what follows |
| `DBusClient.CallDecodes` | tools/src/dbus_client.c:207-266 | the fixed part carries the type, the lengths and the serial; lengths add up; the fields are path, interface, member, destination and the signature; decoding gives back fields, signature and arguments |
| `DBusClient.SignalsSkipped` | tools/src/dbus_client.c:995-1003 | any number of signals in front makes no difference |
| `DBusClient.ReturnAccepted` | tools/src/dbus_client.c:1037-1066 | after any signals the reply to the call gives its value, and exactly the bytes after it are left |
| `DBusClient.ValueOnlyForOurCall` | tools/src/dbus_client.c:1027-1036 | a value is only ever the body of a METHOD_RETURN with the serial of the call |
| `DBusClient.AnswerJudged` | tools/src/dbus_client.c:995-1066 | after any signals the first other message alone decides the result, and exactly the bytes after it are left |
| `DBusClient.OthersRefused` | tools/src/dbus_client.c:1027-1036 | everything but an error or the return with our serial is a failure |
| `DBusClient.LastKept` | tools/src/dbus_client.c:840-890 | the last reply serial, error name or signature of a header counts, if its value is of the right kind |
| `DBusClient.BadFrames` | tools/src/dbus_client.c:957-975 | big-endian or too long messages end the call |
| `DBusClient.CutShort` | tools/src/dbus_client.c:957-993 | a message that is not all there has not arrived |
| `DBusClient.AnswerIsOursIff` | tools/src/dbus_client.c:1005-1036 | whatever bytes come in, an answer taken for ours carries the serial of the call, if and only if it is no error with a readable message that answers another call |
| `DBusClient.SentIsOursIff` | tools/src/dbus_client.c:995-1036 | the same for any signals followed by any other well-formed message |
| `DBusClient.ErrorsOfOthersAccepted` | tools/src/dbus_client.c:1005-1026 | an instance: after any signals an error with a message is taken for ours whatever its serial |
| `DBusClient.Client.ReadN` | tools/src/dbus_client.c:554-573 | exactly the next n bytes of the stream, however they arrive |
| `DBusClient.Client.ReadMessage` | tools/src/dbus_client.c:957-993 | one frame of the stream, however it arrives |
| `DBusClient.Client.WaitReply` | tools/src/dbus_client.c:955-1068 | the result depends on the stream alone, and the stream is left at the next message |
| `DBusClient.Client.Call` | tools/src/dbus_client.c:901-1076 | what is sent and what the call returns |
| `Pairing.UniqEq` | tools/src/pairing.c:29-46 | addresses compared without case |
| `Pairing.CaseIs` | tools/src/pairing.c:29-46 | letters are equal in either case, and nothing else is |
| `Pairing.PairImus` | tools/src/pairing.c:82-124 | the loop computes the specified assignment, or finds the set ambiguous |
| `Pairing.PlaceMeans` | tools/src/pairing.c:82-124 | an IMU goes to the one free keyboard with its address, else to the only free keyboard; it is left over when none is free, and ambiguous when there are several |
| `Pairing.Match` | tools/src/pairing.c:48-151 | refuses exactly the ambiguous sets; otherwise one remote per keyboard in input order, of the right name, vendor and product, with its IMU and its identity, cut to 63 characters |
| `Pairing.KeyboardsInOrder` | tools/src/pairing.c:59-71 | all keyboards, in increasing order |
| `Pairing.KeyboardFound` | tools/src/pairing.c:59-71 | exactly the devices of this name, vendor and product are keyboards |
| `Pairing.RemoteMeans` | tools/src/pairing.c:126-148 | a remote goes by its keyboard's address, else by its IMU's |
| `Pairing.SurveyFinds` | tools/src/pairing.c:84-100 | the candidates counted for an IMU are free, and the free and matching ones are all of them |
| `Pairing.AssignInjective` | tools/src/pairing.c:82-124 | no IMU is paired twice, and only IMUs are paired |
| `Pairing.AddressJoin` | tools/src/pairing.c:48-151 | with distinct addresses pairing succeeds and is the join on addresses, in whatever order the devices come |
| `Pairing.AddressJoinIff` | tools/src/pairing.c:48-151 | for keyboards with addresses of their own: pairing succeeds and goes by address if and only if every IMU is the first with the address of some keyboard or comes after all have been claimed; each keyboard then has the first IMU with its address |
| `Pairing.FallbackTakes` | tools/src/pairing.c:112-123 | the first IMU that breaks the condition takes the only keyboard left although the addresses differ, or makes the set ambiguous |
| `Pairing.ServedInOrder` | tools/src/pairing.c:82-124 | as long as the condition holds each keyboard has the first IMU with its address |
| `Pairing.FallbackIsGreedy` | tools/src/pairing.c:112-117 | an instance: with one keyboard, an IMU with its address and one without, the order of the two IMUs decides |
| `Devices.Kernel.Free` | tools/src/daemon_devices.c:165-173 | closes the four descriptors; a second time it closes only the virtual pair again |
| `Devices.Devices.OpenPair` | tools/src/daemon_devices.c:179-222 | both virtual devices or none |
| `Devices.Devices.OpenInputs` | tools/src/daemon_devices.c:248-266 | the keyboard, grabbed if that works, and the IMU, whose path is emptied when it fails |
| `Devices.Devices.Open` | tools/src/daemon_devices.c:226-288 | the virtual pair comes before the grab; a failure leaves nothing open |
| `Devices.Devices.PlaceOne` | tools/src/daemon_devices.c:343-389 | the first old remote with the same identity and paths is moved, else the pair is opened with its identity and paths; every descriptor stays accounted for |
| `Devices.Devices.ReleaseRest` | tools/src/daemon_devices.c:391-396 | the old remotes that were not moved are closed |
| `Devices.Devices.Rescan` | tools/src/daemon_devices.c:294-409 | an ambiguous set changes nothing; else each new remote comes from where the plan for the pairs says, every old remote is moved whole into one slot or released once, no descriptor has two owners, and every grabbed keyboard has its virtual pair; a descriptor is closed twice exactly when a virtual pair was made in vain |
| `Devices.PlanMeans` | tools/src/daemon_devices.c:339-389 | what the rescan does about one pair: passed over when another keyboard is pinned; the first old remote of the same identity and paths is moved; else the pair is opened, which needs its keyboard and, unless they are off, both virtual devices |
| `Devices.IdentityIs` | tools/src/daemon_devices.c:144-163 | a remote is known by an address of six hexadecimal pairs, and by "unknown" otherwise |
| `Devices.MovedAsItWas` | tools/src/daemon_devices.c:371-377 | a moved remote has an open keyboard if and only if it had one before |
| `Devices.ClosedStaysClosed` | tools/src/daemon_devices.c:363-384 | over any number of rescans that list the same devices every remote stays as it was, open or closed |
| `Devices.UnchangedRemotes` | tools/src/daemon_devices.c:363-384 | a rescan that finds every remote's identity and paths as they were keeps every remote in its slot |
| `Devices.Devices.PollFds` | tools/src/daemon_devices.c:415-443 | the poll entries in order, as many as fit |
| `Devices.LayoutIs` | tools/src/daemon_devices.c:415-443 | the watch first, if there is one, then slot by slot the open keyboard and the open IMU |
| `Devices.Devices.Target` | tools/src/daemon_devices.c:512-538 | an index is taken for the entry the poll list has there |
| `Devices.Devices.CloseEntry` | tools/src/daemon_devices.c:464-510 | the end of a keyboard or an IMU closes its descriptor and no other; the remote stays |
| `Devices.Devices.Handle` | tools/src/daemon_devices.c:512-538 | takes the entry an index means now, and closes it when its device is gone |
| `Devices.Devices.HandleBatch` | tools/src/daemon_main.c:190-203 | the round over the poll list handles its events in order, each for what its index means by then |
| `Devices.LayoutClosed` | tools/src/daemon_devices.c:415-443 | closing any entries takes them out of the poll list and keeps the order of the others |
| `Devices.CloseShifts` | tools/src/daemon_main.c:190-203 | after any keyboards and IMUs have been closed, an index means its own entry if and only if no entry up to it is among them; otherwise it means the entry as many places on as entries before that one were closed, or nothing |
| `Devices.BatchHandled` | tools/src/daemon_main.c:190-203 | every event of a batch is handled for the entry it was polled for, if and only if no device but the last one of the batch turns out to be gone |
| `Devices.GrabbedIff` | tools/src/daemon_devices.c:248-396 | with grabs that exclude each other, a moved remote keeps its grab, and an opened one has grabbed its keyboard if and only if no remote of before the rescan held it |
| `Devices.ReopenedIff` | tools/src/daemon_devices.c:363-384 | what has been opened for a pair is recognised as unchanged by the next rescan if and only if its IMU did not fail to open |
| `JsonWriter.JsonDumps` | tools/src/json.c:737-748 | writes the specified text |
| `JsonWriter.FormatNumber` | tools/src/json.c:629-651 | six decimals with trailing zeros stripped |
| `JsonWriter.Buffer.DumpValue` | tools/src/json.c:679-735 | the indented text of a value |
| `JsonFormat.StringWritten` | tools/src/json.c:653-677 | a string is between quotation marks, each character as it is or with its escape |
| `JsonFormat.NumberWritten` | tools/src/json.c:629-651 | tiny and huge numbers by `%g`, others by `%.6f` without the zeros at the end, but for one after the point |
| `JsonFormat.ListWritten` | tools/src/json.c:697-713 | each item on a line of its own, one level deeper, with commas between them |
| `JsonFormat.ObjectWritten` | tools/src/json.c:714-732 | each member likewise, with its key as a string, a colon and a space |
| `JsonReader.JsonParse` | tools/src/json.c:376-400 | returns the tree of the grammar, or none |
| `JsonReader.Parser.ParseValue` | tools/src/json.c:303-374 | reads one value and restores the depth |
| `JsonReader.Parser.ParseArray` | tools/src/json.c:188-236 | reads an array, one level deeper |
| `JsonReader.Parser.ParseObject` | tools/src/json.c:238-301 | reads an object, one level deeper |
| `JsonReader.Parser.ParseString` | tools/src/json.c:65-142 | reads a string with its escapes |
| `JsonReader.Parser.ParseNumber` | tools/src/json.c:144-186 | reads a number token |
| `JsonReader.ParsedIsShallow` | tools/src/json.c:198-201 | an accepted tree nests at most 32 deep, whatever the text |
| `JsonGrammar.ParseIff` | tools/src/json.c:43-400 | the parser accepts exactly the spellings of values that nest at most 32 deep, with white space around them, and gives the value that is spelled |
| `JsonRoundTrip.NumberBack` | tools/src/json.c:144-186 | every number is read back as what its text stands for, whatever follows it |
| `JsonRoundTrip.SixDecimalsBack` | tools/src/json.c:629-651 | a multiple of 1e-6 below 1e16 is what its text stands for, after the zero stripping |
| `JsonRoundTrip.ExactNumberIff` | tools/src/json.c:629-651 | among the numbers printed without an exponent exactly the multiples of 1e-6 are read back as themselves |
| `JsonRoundTrip.StringBack` | tools/src/json.c:653-677 | a written string is read back exactly when it needs no numeric escape, and refused otherwise |
| `JsonRoundTrip.RoundTrip` | tools/src/json.c:188-374 | for NUL-free strings and numbers whose text `strtod` reads: parsing what was written gives the tree that the text stands for if it nests at most 32 deep and its strings are clean, and is refused otherwise; it is the tree itself if and only if, besides, its numbers are exact |
| `JsonRoundTrip.DecimalsExact` | tools/src/json.c:629-651 | trees whose numbers are multiples of 1e-6 below 1e16 are exact |

## Left out

- IEEE arithmetic: rounding, overflow, infinities and NaN.  Doubles and floats are reals, a frame's `dt` is
  an option.
- Airmouse.CalcMouse: the conversion of the mouse values to 16 bits, which C leaves undefined outside their
  range; the values stay integers, within the bound of `Airmouse.GyroStateBounded`.
- Decoder.Driver.RawEvent: the same conversion.
- `int` overflow of the sum of wheel events and of the clicks sent.
- Allocation failure, and strings freed or leaked.
- `strtod`, `%.15g`, `%g` and `sqrt` themselves: they are parameters.  Texts such as `inf` and `nan`, which
  the TOML writer can print and the parser refuses, need values that are no reals.
- TOML trees are values, and the parser's current table is a path from the root, where the program keeps a
  pointer.  Aliasing of tables is therefore not modelled; the program has none.
- TomlReader.Parser.EnterTable: enters from the root along the current table's path, where the program
  starts at the current table, because trees are values.
- Dotted lookups (`toml_table_get`), which the modelled code does not use.
- The calibration file itself (`calib.c` and `matrix.c`): its outcome is a parameter, and so is pi.  The
  corrected acceleration, which `pipeline_imu` computes and does not use.
- Pipeline.InputPipeline.Keyboard: writes to an open virtual device are taken to succeed, because a failed
  write only changes the return code.
- The input core's filtering between the kernel module and the daemon, except that events of keycode 0 may
  be dropped.
- `/dev/input` scanning, inotify, the poll loop around its rounds, and what the event handlers do with a frame
  beyond `Pipeline`.
- Devices.Devices.OpenInputs: whether a grab works is a parameter.  That the kernel grants one grab of a device
  at a time is the assumption `Devices.GrabsExclude` of `Devices.GrabbedIff`.
- Devices.Devices.Rescan: descriptor numbers are never reused, so that a second close can be told from a
  first one; in the program the number may by then belong to another file.
- DaemonConfig.LoadInto: an unreadable file counts as absent.
- DaemonConfig.ReadFile: the same, where the program reports an error.
- `mkdir_p` is a yes-or-no parameter; ownership, modes and symbolic links are not modelled.  Creations,
  renames and removals of directory entries reach the disk in order.
- sd-bus, polkit, the AUTH handshake and the read methods of the bus; authorization is a parameter.
- DBusWire.BuildCall: strings are NUL-free and at most 0x0fffffff bytes long, and there are at most 255
  arguments.  Past these limits the program marks the buffer as failed, after which its padding loop need
  not terminate.
- DBusWire.Writer.PutString: the same limits.
- DBusReader.Slice.Read: where the program's length check wraps around at the end of a slice, the model
  records an error; well-formed messages never get there.
- DBusReader.Slice.ReadArray: the same.
- DBusReader.Slice.ReadHead: the same.
- DBusClient.Client.Call: the limits of `DBusWire.BuildCall`.
- JsonReader.JsonParse: error messages and offsets.
- The entries of the key-name tables: `Profiles.Keymap.Valid` asks for what the tables have, distinct codes
  and distinct names.
- `csv.c`, whose round trip is an easier case of what is shown for TOML and JSON; `config.c`, the
  command-line tools, the set-up wizard and the scripts, which would only add easy members; `madgwick.c`,
  which needs trigonometry.
