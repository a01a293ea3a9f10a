# Step sequencer engine and key-signature manager, modelled in Dafny

This project models the core of a MIDI step-sequencer plugin: a grid of
`numSteps` steps by `numRows` pitch rows of on/off cells, played back in step with
the host's audio blocks, and a key-signature manager that derives the seven
in-key pitch classes of a major or minor scale and can lock the grid against
out-of-key additions.

Modules, one per component:

- `CppArith` (`cpparith.dfy`): the C++ integer semantics the source relies on —
  `%` truncating toward zero (`CppRem`) and `static_cast<int>` of a double
  (`Trunc`).
- `KeySignature` (`keysignature.dfy`): the interval patterns, the derived scale
  `ScaleOf(root, scaleType)`, key membership `InKey`, the colour classification
  `NoteColour`, and the class `KeySignatureManager` with its range-guarded setters
  and the loop that rebuilds `currentScale`.
- `Grid` (`grid.dfy`): the grid as a value `seq<seq<bool>>` and the resize
  behaviour of `std::vector<std::vector<bool>>` (`Reshape`: the overlap keeps its
  cells, everything new is off).
- `Timing` (`timing.dfy`): the step length in samples, the playhead step from the
  host's quarter-note position, and one pass of the block loop, both as written
  and corrected (see Findings).
- `Events` (`events.dfy`): row-to-pitch mapping, note names, the note-off/note-on
  events of a step boundary, the display snapshot `MidiEventInfo`, and
  `PlayBlock`, the specification of a whole audio block.
- `Snapshot` (`snapshot.dfy`): the saved state tree (`SequencerState` with
  optional properties and `Note` children), what `getState` writes and what
  `setState` restores.
- `Sequencer` (`engine.dfy`): the class `SequencerEngine` with the source's
  fields, whose methods update the grid, playhead, counter and snapshot in place
  and are proved against the functions above.

The block walk (`ProcessBlock`) keeps the source's while loop, its chunk
arithmetic and its truncating casts. It is proved for whole step lengths and
whole counters: then a block of `N` samples entered `counter` samples into a step
crosses exactly `(counter + N) / samplesPerStep` boundaries, leaves
`(counter + N) % samplesPerStep` as the counter, ends that many steps on (mod
`numSteps`), and emits its events in order at offsets from 1 to `N`. The
offset `N` itself is reached when a boundary falls at the block's end. At each
boundary the note-offs of the step left come first, then the note-ons of the
step entered, all at the same offset; each carries `lowestNote + (numRows - 1 - row)`
as its pitch, and note-ons carry velocity 100 on channel 1. The snapshot shows the
last note-on, with display channel 2.

`setState` resizes the columns only when the step count changes. So restoring a
state that changes only the row count would leave columns of the wrong length;
`SetState` requires that this does not happen. `getState` followed by `setState`
on an engine of the same dimensions reproduces the grid exactly
(`RestoreCapture`, and the last ensures of `GetState`).

Some behaviour of the source is easy to miss and is stated explicitly here.
Step length and playhead both hard-code four quarter notes per bar
(SequencerEngine.cpp:152 and SequencerEngine.cpp:294). `shiftOctaveUp`, `shiftOctaveDown`,
`getCurrentOctave`, `setResolutionMultiplier` and `generateRandomSequence` are
declared in SequencerEngine.h:56-66 and defined nowhere. The saved state holds
only the dimensions, the lowest note and the active cells. A boundary that falls
exactly at the end of a block is emitted at offset `numSamples`, one past the
block's last sample (`Events.BoundaryAtBlockEnd`). With C++ `%` a negative
multiple of 12 has remainder 0, so it is in key whenever pitch class 0 is in the
scale; every other negative note has a negative remainder and is never in key
(`KeySignature.NegativeNotesInKey`).
The display snapshot's default name is "C3" while its default note number 60 is
named "C4" by the engine's own naming (`Events.DefaultNameMismatch`).

## Model

| member | source | states |
|---|---|---|
| `CppArith.CppRem` | KeySignatureManager.cpp:41 | C++ `%` by a positive divisor: the result differs from `a` by a multiple of `b`, lies in `[0, b)` for `a >= 0` and in `(-b, 0]` for `a < 0` |
| `CppArith.Trunc` | SequencerEngine.cpp:51-52 | `static_cast<int>` of a double drops the fraction toward zero: the result is within one of `x`, on the side of zero |
| `Grid.Reshape` | SequencerEngine.cpp:20-24 | resizing to `steps` columns of `rows` cells: the result has exactly those dimensions, a cell is on only if it was on in the old grid, and every new cell is off |
| `Grid.ReshapeSameShape` | SequencerEngine.cpp:259-266 | a resize to the grid's own dimensions leaves the grid unchanged |
| `Grid.ReshapeClear` | SequencerEngine.cpp:259-266 | resizing an all-off grid gives an all-off grid |
| `KeySignature.ScalePattern` | KeySignatureManager.cpp:72 | scale type 0 selects the major offsets and every other value the minor ones; `PatternsWellFormed` states that both are scale patterns |
| `KeySignature.PatternsWellFormed` | KeySignatureManager.h:39-40 | the major and minor patterns are seven strictly increasing offsets in `[0, 12)` starting at 0 |
| `KeySignature.ScaleOf` | KeySignatureManager.cpp:67-79 | the scale `updateCurrentScale` builds: the root plus each pattern offset, reduced with C++ `%`, one entry per offset; `ScaleWellFormed` and `ScaleEntriesDiffer` state its properties and `UpdateCurrentScale` is proved to produce it |
| `KeySignature.ScaleWellFormed` | KeySignatureManager.cpp:67-79 | for a root in `[0, 12)` the derived scale has 7 pitch classes, all in `[0, 12)`, pairwise distinct, the first being the root |
| `KeySignature.CMajorExample` | KeySignatureManager.cpp:67-79 | the default scale (root 0, major) is the major pattern itself; C (60) is in key and C# (61) is not |
| `KeySignature.ScaleEntriesDiffer` | KeySignatureManager.cpp:67-79 | two different positions of a derived scale hold different pitch classes |
| `KeySignature.InKey` | KeySignatureManager.cpp:38-50 | the test of `isNoteInKey`: the note's C++ remainder modulo 12 is one of the scale's entries; `IsNoteInKey`, `InKeyPeriodic`, `RootOctavesInKey`, `NegativeNotesInKey` and `SevenClassesInKey` state its properties |
| `KeySignature.InKeyPeriodic` | KeySignatureManager.cpp:38-50 | for `n >= 0`, `n` and `n + 12` are in key together |
| `KeySignature.RootOctavesInKey` | KeySignatureManager.cpp:38-50 | `root + 12k` is in key for every `k >= 0`, every valid root and both scale types |
| `KeySignature.NegativeNotesInKey` | KeySignatureManager.cpp:41-49 | a negative note is in key exactly when it is a multiple of 12 and pitch class 0 is in the scale (C++ `%` gives a non-positive remainder) |
| `KeySignature.SevenClassesInKey` | KeySignatureManager.h:39-40 | for every valid root and scale type exactly 7 of the 12 pitch classes are in key |
| `KeySignature.KeySignatureManager.constructor` | KeySignatureManager.cpp:3-6 | a fresh manager has root 0, scale type 0 and filter mode 0, and its scale is C major |
| `KeySignature.KeySignatureManager.GetRootNote` | KeySignatureManager.h:21 | returns the stored root note |
| `KeySignature.KeySignatureManager.GetScaleType` | KeySignatureManager.h:22 | returns the stored scale type |
| `KeySignature.KeySignatureManager.GetFilterMode` | KeySignatureManager.h:23 | returns the stored filter mode |
| `KeySignature.KeySignatureManager.SetRootNote` | KeySignatureManager.cpp:12-19 | a root in `[0, 12)` that differs is adopted and the scale rederived; otherwise nothing changes; scale type and filter mode never change |
| `KeySignature.KeySignatureManager.SetScaleType` | KeySignatureManager.cpp:21-28 | 0 or 1, when it differs, is adopted and the scale rederived; otherwise nothing changes; root and filter mode never change |
| `KeySignature.KeySignatureManager.SetFilterMode` | KeySignatureManager.cpp:30-36 | 0 or 1 is adopted, any other value ignored; root, scale type and scale never change |
| `KeySignature.KeySignatureManager.UpdateCurrentScale` | KeySignatureManager.cpp:67-79 | the loop leaves `currentScale` equal to the root plus each pattern offset, reduced with C++ `%` |
| `KeySignature.KeySignatureManager.IsNoteInKey` | KeySignatureManager.cpp:38-50 | the search returns true exactly when the note's C++ remainder mod 12 occurs in the current scale |
| `KeySignature.KeySignatureManager.GetNoteColor` | KeySignatureManager.cpp:52-65 | the in-key class exactly when the note is in key; for out-of-key notes the class depends only on the filter mode |
| `Timing.StepLength` | SequencerEngine.cpp:290-298 | samples per step equal `240 * sampleRate / (bpm * numSteps)`, positive for a positive sample rate |
| `Timing.StepLengthExamples` | SequencerEngine.cpp:290-298 | 48 kHz, 120 bpm, 16 steps gives 6000 samples per step; 44.1 kHz gives 5512.5, which is not whole |
| `Timing.PlayheadStep` | SequencerEngine.cpp:150-156 | the playhead step as written: quarter notes since the bar start over `4 / numSteps`, truncated, reduced with C++ `%`; `PlayheadStepInBar` and `PlayheadStepBeforeBar` state its range and closed form |
| `Timing.PlayheadStepInBar` | SequencerEngine.cpp:150-162 | from the bar start on, the playhead step is `floor((ppq - barStart) * numSteps / 4) mod numSteps`, in `[0, numSteps)` |
| `Timing.PlayheadStepBeforeBar` | SequencerEngine.cpp:150-162 | a position before the bar start gives a step in `(-numSteps, 0]` |
| `Timing.WrittenPass` | SequencerEngine.cpp:49-79 | one pass of the loop as written, with the truncated chunk and boundary offset; `WrittenWalkStalls` and `WrittenWalkNegativeOffset` show its two faults and `WholePass` and `ChunksAgreeOnWholeValues` its behaviour on whole values |
| `Timing.WrittenWalkStalls` | SequencerEngine.cpp:49-79 | with 5512.5 samples per step, after one pass the chunk is 0 and each later pass changes nothing while the block is unfinished |
| `Timing.WrittenWalkNegativeOffset` | SequencerEngine.cpp:51-61 | with the counter past a shrunken step length, the boundary is reported at a negative offset and the position moves back |
| `Timing.CorrectedPassSound` | SequencerEngine.cpp:49-79 | one corrected pass stays in the block, keeps the counter below the step length, reports at most one boundary inside the block, and strictly reduces the work left |
| `Timing.CorrectedWalkInBlock` | SequencerEngine.cpp:42-81 | the corrected loop finishes the block for every positive step length and counter, and its boundary offsets are ascending and within the block |
| `Timing.WholePass` | SequencerEngine.cpp:49-79 | on a whole step length and counter, a pass moves at least one sample, reaches the boundary exactly when the chunk is the distance to it, and that boundary lies one step further into the block than the previous one |
| `Timing.ChunksAgreeOnWholeValues` | SequencerEngine.cpp:51-58 | for whole step lengths and counters below them, the as-written and corrected chunk and offset agree and equal `samplesPerStep - counter` |
| `Events.RowToNote` | SequencerEngine.cpp:300-305 | a row's pitch, `lowestNote + (numRows - 1 - row)`; `RowToNoteBijective` states that rows map one-to-one onto the pitch range |
| `Events.RowToNoteBijective` | SequencerEngine.cpp:300-305 | rows map one-to-one onto `lowestNote .. lowestNote + numRows - 1`, row 0 highest and the last row `lowestNote`; the row is recovered from its pitch, and every pitch in that range is the pitch of its row |
| `Events.NameParts` | SequencerEngine.cpp:307-315 | a non-negative note is `12 * (octave + 1) + pitchClass` with the pitch class in `[0, 12)` |
| `Events.NoteName` | SequencerEngine.cpp:307-315 | the name `midiNoteToName` builds: pitch-class name then octave number; `NameParts` states the decomposition and `NoteNameExamples` the names of 0, 48, 60 and 61 |
| `Events.NoteNameExamples` | SequencerEngine.cpp:307-315 | note 48 is "C3", 60 is "C4", 61 is "C#4", 0 is "C-1" |
| `Events.DefaultNameMismatch` | SequencerEngine.h:7-14 | the default snapshot (`DefaultInfo`: step 0, note 60, name "C3", velocity 100, channel 1, gate 0.5) has the name of note 48, not of its note number 60 |
| `Events.NoteOnInfo` | SequencerEngine.cpp:333-337 | the snapshot after one note-on: its step, pitch, name, velocity 100 and display channel 2, the gate length kept; `InfoAfterOnGate` and `InfoAfterOnLast` state its effect over a whole step |
| `Events.OffEvents` | SequencerEngine.cpp:345-356 | the note-offs the row loop of `sendNoteOffEvents` emits for the active rows of a column; `OffEventsExact` states exactly which and in what order |
| `Events.OnEvents` | SequencerEngine.cpp:320-339 | the note-ons the row loop of `sendNoteOnEvents` emits for the active rows of a column; `OnEventsExact` states exactly which and in what order |
| `Events.InfoAfterOn` | SequencerEngine.cpp:320-339 | the snapshot after the note-ons of a column's active rows; `InfoAfterOnGate`, `InfoAfterOnIdle` and `InfoAfterOnLast` state its properties |
| `Events.Releases` | SequencerEngine.cpp:342-357 | the note-offs of a step of the grid; `SendNoteOffEvents` is proved to emit them |
| `Events.Triggers` | SequencerEngine.cpp:317-340 | the note-ons of a step of the grid; `SendNoteOnEvents` is proved to emit them |
| `Events.OffEventsExact` | SequencerEngine.cpp:342-357 | the note-offs of a column are exactly one per active row, at the given offset, with that row's pitch, in strictly falling pitch order |
| `Events.OnEventsExact` | SequencerEngine.cpp:317-340 | the note-ons of a column are exactly one per active row, at the given offset, with that row's pitch and velocity 100, in strictly falling pitch order |
| `Events.OnOffSamePitches` | SequencerEngine.cpp:317-357 | a column's note-ons and note-offs name the same pitches in the same order |
| `Events.InfoAfterOnGate` | SequencerEngine.cpp:333-337 | note-ons never change the snapshot's gate length |
| `Events.InfoAfterOnIdle` | SequencerEngine.cpp:320-339 | a step with no active row leaves the snapshot unchanged |
| `Events.InfoAfterOnLast` | SequencerEngine.cpp:333-337 | after a step's note-ons the snapshot describes its last active row (lowest pitch) at that step, velocity 100, channel 2 |
| `Events.StepAfter` | SequencerEngine.cpp:285-288 | the step `k` advances after `s0`, `(s0 + k) mod numSteps`, always in `[0, numSteps)`; `StepAfterAdvances` ties it to repeated `advanceStep` |
| `Events.StepAfterAdvances` | SequencerEngine.cpp:285-288 | `k` calls of `advanceStep` from `s0` reach `(s0 + k) mod numSteps` |
| `Events.BoundaryEvents` | SequencerEngine.cpp:58-67 | the events of one boundary: note-offs of the step left, then note-ons of the next step, at one offset; `BoundaryEventsAt` and `ConsecutiveBoundariesPair` state its properties and `CrossBoundary` is proved to emit it |
| `Events.BlockEvents` | SequencerEngine.cpp:49-80 | the events of the first `k` boundaries of a block, one step length apart; `BlockEventsNext`, `BlockEventsOffsets` and `BlockOffsetsInBlock` state its properties |
| `Events.InfoAfterBlock` | SequencerEngine.cpp:49-80 | the snapshot after the first `k` boundaries of a block; `ProcessBlock` is proved to end with it |
| `Events.BoundaryEventsAt` | SequencerEngine.cpp:55-71 | every event of one boundary is at that boundary's offset |
| `Events.BlockEventsNext` | SequencerEngine.cpp:49-80 | one more boundary appends exactly its own events, at one step length after the previous boundary |
| `Events.BlockEventsOffsets` | SequencerEngine.cpp:49-80 | the offsets of consecutive boundaries never decrease and lie between the first and the last boundary |
| `Events.BlockOffsetsInBlock` | SequencerEngine.cpp:42-81 | a block's boundary events fall between offsets 1 and `numSamples`, in order |
| `Events.BoundaryAtBlockEnd` | SequencerEngine.cpp:55-61 | when counter plus block length is a whole number of steps, the block crosses at least one boundary and its events end with the whole last boundary, every event of it at offset `numSamples` itself |
| `Events.ConsecutiveBoundariesPair` | SequencerEngine.cpp:55-71 | the notes a boundary starts are the notes the next boundary releases |
| `Events.PlayBlock` | SequencerEngine.cpp:42-81 | the outcome of a block keeps the step in `[0, numSteps)` and the counter in `[0, samplesPerStep)` |
| `Events.PlayBlockSound` | SequencerEngine.cpp:42-81 | the events of a block are ascending and lie in `[1, N]`; the step and counter conjuncts restate `PlayBlock`'s closed form (`(counter + N) / samplesPerStep` steps on, mod `numSteps`, and `(counter + N) mod samplesPerStep` left) for use by callers |
| `Snapshot.Capture` | SequencerEngine.cpp:218-243 | the state `getState` builds: the tag, the dimensions, the lowest note and one `Note` child per active cell; `GridNotesExact` and `RestoreCapture` state its properties and `GetState` is proved to return it |
| `Snapshot.RestoredGrid` | SequencerEngine.cpp:268-282 | the loaded grid has the restored dimensions and a cell is on exactly when some `Note` child names it; other children and out-of-range cells are ignored |
| `Snapshot.GridNotesExact` | SequencerEngine.cpp:227-240 | the `Note` children name exactly the active cells, in step-major then row order |
| `Snapshot.RestoreCapture` | SequencerEngine.cpp:218-283 | restoring a captured state gives back the dimensions, the lowest note and every cell |
| `Sequencer.SequencerEngine.constructor` | SequencerEngine.h:74-85 | 16 steps of 16 rows from note 48, all off, stopped at step 0, counter 0, 120 bpm, 44.1 kHz, no step length yet, default snapshot, C major in Highlight mode |
| `Sequencer.SequencerEngine.Initialize` | SequencerEngine.cpp:14-34 | sets the dimensions, resizes keeping the overlap, resets the key to C major Highlight, stops at step 0 |
| `Sequencer.SequencerEngine.PrepareToPlay` | SequencerEngine.cpp:36-40 | adopts the sample rate and recomputes the step length |
| `Sequencer.SequencerEngine.UpdateStepLength` | SequencerEngine.cpp:290-298 | the step length is `240 * sampleRate / (bpm * numSteps)` |
| `Sequencer.SequencerEngine.Start` | SequencerEngine.cpp:88-91 | sets playing and nothing else |
| `Sequencer.SequencerEngine.Stop` | SequencerEngine.cpp:93-97 | not playing, step 0, counter 0 |
| `Sequencer.SequencerEngine.Reset` | SequencerEngine.cpp:99-103 | step 0 and counter 0 |
| `Sequencer.SequencerEngine.IsSequencerPlaying` | SequencerEngine.h:34 | returns whether the sequencer is playing |
| `Sequencer.SequencerEngine.GetCurrentStep` | SequencerEngine.h:48 | returns the current step |
| `Sequencer.SequencerEngine.GetNumSteps` | SequencerEngine.h:49 | returns the step count |
| `Sequencer.SequencerEngine.GetNumRows` | SequencerEngine.h:50 | returns the row count |
| `Sequencer.SequencerEngine.GetLowestNote` | SequencerEngine.h:51 | returns the lowest note |
| `Sequencer.SequencerEngine.GetKeySignatureManager` | SequencerEngine.h:52 | returns the engine's own key-signature manager |
| `Sequencer.SequencerEngine.GetCurrentMidiInfo` | SequencerEngine.h:53 | returns the display snapshot |
| `Sequencer.SequencerEngine.AdvanceStep` | SequencerEngine.cpp:285-288 | the step moves one on, wrapping at `numSteps` |
| `Sequencer.SequencerEngine.GetStep` | SequencerEngine.cpp:105-112 | off for every position outside the grid, the stored cell inside it |
| `Sequencer.SequencerEngine.SetStep` | SequencerEngine.cpp:114-130 | out of range changes nothing; in Lock mode switching on an out-of-key row changes nothing; every other in-range write stores exactly that cell |
| `Sequencer.SequencerEngine.ClearAllSteps` | SequencerEngine.cpp:132-138 | every cell off, the number of columns and every column length unchanged |
| `Sequencer.SequencerEngine.UpdatePlayheadPosition` | SequencerEngine.cpp:140-164 | a positive host tempo is adopted with a fresh step length; while the host plays with a bar start, the step becomes the playhead step |
| `Sequencer.SequencerEngine.ParameterChanged` | SequencerEngine.cpp:166-216 | root, scale type and filter mode go to the key manager, which keeps only values in range; "numSteps" sets `(index + 1) * 4` steps; any other parameter leaves the step count alone |
| `Sequencer.SequencerEngine.ChangeStepCount` | SequencerEngine.cpp:180-215 | the same count changes nothing; a new count gives that many columns of `numRows` cells, the overlap kept, every other cell off, and a fresh step length |
| `Sequencer.SequencerEngine.GetState` | SequencerEngine.cpp:218-243 | the state is tagged, carries the dimensions and lowest note, lists exactly the active cells in step-major then row order, and restores to the grid |
| `Sequencer.SequencerEngine.SetState` | SequencerEngine.cpp:245-283 | another tag changes nothing; otherwise the dimensions and lowest note are read with the current values as defaults and the grid becomes exactly the cells named by `Note` children inside it |
| `Sequencer.SequencerEngine.SendNoteOffEvents` | SequencerEngine.cpp:342-357 | the loop emits exactly the note-offs of the current step's active rows, in row order |
| `Sequencer.SequencerEngine.SendNoteOnEvents` | SequencerEngine.cpp:317-340 | the loop emits exactly the note-ons of the current step's active rows and updates the snapshot after each |
| `Sequencer.SequencerEngine.CrossBoundary` | SequencerEngine.cpp:58-67 | note-offs of the step left, the move to the next step, then note-ons of the step entered, all at one offset |
| `Sequencer.SequencerEngine.WalkBoundary` | SequencerEngine.cpp:55-71 | crossing the next boundary of a walk: its events extend the walk's events to those of one more boundary, and the step and snapshot move on with them |
| `Sequencer.SequencerEngine.StepPass` | SequencerEngine.cpp:49-79 | one pass covers at least one sample and either crosses the next boundary at its offset, extending the walk's events and snapshot by that boundary, or stays inside the step |
| `Sequencer.SequencerEngine.ProcessBlock` | SequencerEngine.cpp:42-81 | stopped: no events and no change; playing: events, step, counter and snapshot are those of `PlayBlock` |

## Left out

- The editor, grid view, key-signature panel, MIDI info panel and transport controller: painting, layout, timers and mouse hit-testing.
- The plugin processor: bus layout, program metadata, saving state through XML or binary, and polling the host transport. Its parameter choices (4 to 64 steps) appear only as the `(index + 1) * 4` mapping.
- MIDI device output: opening devices and forwarding messages.
- Octave shifting, the resolution multiplier and random sequence generation: they are declared in SequencerEngine.h:56-66 but have no body in the source.
- The unused fields `lastPPQPosition`, `stepsPerBeat`, the engine's own `rootNote` and `scaleIntervals`; `releaseResources` and the destructor, which only calls `stop`.
- Concurrency: the UI thread and the audio thread share the grid without synchronisation; the model is sequential.
- JUCE types: `ValueTree` becomes `SequencerState`, `MidiBuffer` becomes the returned `seq<MidiEvent>`, `juce::String` note names become `NoteLabel` pairs rendered by `LabelText`. `MidiBuffer` keeps events sorted by sample position; the model returns them in emission order, which is already ascending.
- Floating point: step length and playhead use real arithmetic, without double rounding. Fixed-width `int` overflow is not modelled.
- Sequencer.SequencerEngine.ProcessBlock: proved only while the step length and counter are whole, `1 <= samplesPerStep`, `0 <= sampleCounter < samplesPerStep`, the current step lies in the grid and `lowestNote >= 0`. A non-whole step length can hang the loop and a counter past the step length gives negative offsets (see Findings). A step outside the grid is possible after the step count shrinks or the playhead is before the bar start, and then the source indexes the grid out of range.
- Sequencer.SequencerEngine.SetState: requires a restored row count that changes only together with the step count, a row count of at least 0 and a step count of at least 1. A row count changed alone leaves columns of the wrong length, because SequencerEngine.cpp:259-266 resizes only when the step count differs. A negative row count throws in `column.resize` (SequencerEngine.cpp:264). A step count of 0 leaves an empty grid, which the next `processBlock` indexes out of range (SequencerEngine.cpp:347) before taking `% 0` (SequencerEngine.cpp:287). A negative step count throws in `sequencerGrid.resize` (SequencerEngine.cpp:261). The model does not represent these exceptions or the out-of-range access.
- Sequencer.SequencerEngine.ParameterChanged: requires a "numSteps" index of at least 0. A negative index gives zero or negative steps, which the source does not guard.
- Events.NameParts: requires a non-negative note. For eleven of every twelve negative notes the C++ remainder is negative and the source indexes the name table out of bounds. The negative multiples of 12 have remainder 0 and are named well (-12 is "C-2"), but the requires excludes them too.

## Findings

| source | as written | input that shows it | evidently intended | confidence | as-written member | corrected member |
|---|---|---|---|---|---|---|
| SequencerEngine.cpp:51-52 | the chunk is `(int)(samplesPerStep - sampleCounter)`, truncated | 44.1 kHz, 120 bpm, 16 steps (5512.5 samples per step), a 6000-sample block: after 5512 samples the chunk is 0 and the loop never ends | every pass advances; the distance to the boundary is rounded up | high, not executed | `Timing.WrittenWalkStalls` | `Timing.CorrectedWalkInBlock` |
| SequencerEngine.cpp:55-61 | the boundary offset is `samplePosition + (int)(samplesPerStep - sampleCounter)` even when the counter is already past the step length | step length 100 after a tempo rise, counter 150, a 256-sample block: boundary at offset -50 | a counter at or past the boundary triggers at offset 0 | high, not executed | `Timing.WrittenWalkNegativeOffset` | `Timing.CorrectedWalkInBlock` |

The corrected pass (`Timing.CorrectedPass`) agrees with the pass as written on
whole step lengths and whole counters below them (`Timing.ChunksAgreeOnWholeValues`).
`ProcessBlock` runs the code as written in exactly that range.
