/** The step sequencer engine: a boolean grid of steps by rows, a playhead that walks
    the steps in time with the host, a key-signature manager that can lock the grid
    to a key, and a saved state that can be captured and restored. */
module Sequencer {
  import opened CppArith
  import opened KeySignature
  import opened Grid
  import opened Timing
  import opened Events
  import opened Snapshot

  /** The host transport fields the engine reads. */
  datatype PositionInfo = PositionInfo(bpm: real, isPlaying: bool, ppqPosition: real, ppqPositionOfLastBarStart: real)

  class SequencerEngine {
    var numSteps: int
    var numRows: int
    var lowestNote: int
    var grid: seq<seq<bool>>
    var currentStep: int
    var isPlaying: bool
    var sampleRate: real
    var samplesPerStep: real
    var sampleCounter: real
    var bpm: real
    const keys: KeySignatureManager
    var currentMidiInfo: MidiEventInfo

    /** The grid has the declared dimensions, the tempo is positive and there is at
        least one step. The key-signature manager keeps its own `Valid`. */
    ghost predicate Valid()
      reads this
    {
      && numSteps >= 1 && numRows >= 0 && bpm > 0.0
      && Shaped(grid, numSteps, numRows)
    }

    /** What a block walk needs: the playhead on a step of the grid, a whole step length
        of at least one sample, a whole counter inside the step, and a non-negative
        lowest note so that every pitch can be named. */
    predicate ReadyToPlay()
      reads this
    {
      && 0 <= currentStep < numSteps
      && 1.0 <= samplesPerStep && IsWhole(samplesPerStep)
      && IsWhole(sampleCounter) && 0.0 <= sampleCounter < samplesPerStep
      && lowestNote >= 0
    }

    /** A fresh engine: 16 steps of 16 rows from note 48, all off, stopped at step 0,
        120 bpm at 44.1 kHz with no step length yet, and a C major key in Highlight mode. */
    constructor ()
      ensures Valid() && keys.Valid() && fresh(keys)
      ensures numSteps == 16 && numRows == 16 && lowestNote == 48 && AllClear(grid)
      ensures currentStep == 0 && !isPlaying
      ensures sampleRate == 44100.0 && samplesPerStep == 0.0 && sampleCounter == 0.0 && bpm == 120.0
      ensures currentMidiInfo == DefaultInfo
      ensures keys.rootNote == 0 && keys.scaleType == 0 && keys.filterMode == 0
    {
      numSteps, numRows, lowestNote := 16, 16, 48;
      grid := [];
      currentStep, isPlaying := 0, false;
      sampleRate, samplesPerStep, sampleCounter, bpm := 44100.0, 0.0, 0.0, 120.0;
      currentMidiInfo := DefaultInfo;
      keys := new KeySignatureManager();
      new;
      ReshapeClear([], 16, 16);
      Initialize(16, 16);
    }

    /** Sets the dimensions, resizes the grid keeping the overlap, resets the key to C
        major in Highlight mode, and stops at step 0. */
    method Initialize(steps: int, rows: int)
      requires keys.Valid() && bpm > 0.0 && steps >= 1 && rows >= 0
      modifies this`numSteps, this`numRows, this`grid, this`currentStep, this`isPlaying, keys
      ensures Valid() && keys.Valid()
      ensures numSteps == steps && numRows == rows
      ensures grid == Reshape(old(grid), steps, rows)
      ensures keys.rootNote == 0 && keys.scaleType == 0 && keys.filterMode == 0
      ensures currentStep == 0 && !isPlaying
    {
      numSteps := steps;
      numRows := rows;
      grid := Reshape(grid, numSteps, numRows);
      keys.SetRootNote(0);
      keys.SetScaleType(0);
      keys.SetFilterMode(0);
      currentStep := 0;
      isPlaying := false;
    }

    /** Adopts the host's sample rate and recomputes the step length. */
    method PrepareToPlay(newSampleRate: real, samplesPerBlock: int)
      requires Valid()
      modifies this`sampleRate, this`samplesPerStep
      ensures Valid()
      ensures sampleRate == newSampleRate
      ensures samplesPerStep == StepLength(numSteps, bpm, newSampleRate)
    {
      sampleRate := newSampleRate;
      UpdateStepLength();
    }

    /** The samples per step for the current tempo, step count and sample rate. */
    method UpdateStepLength()
      requires numSteps >= 1 && bpm > 0.0
      modifies this`samplesPerStep
      ensures samplesPerStep == StepLength(numSteps, bpm, sampleRate)
      ensures samplesPerStep == 240.0 * sampleRate / (bpm * numSteps as real)
    {
      var stepsPerBeat := numSteps as real / 4.0;
      var beatsPerSecond := bpm / 60.0;
      var secondsPerStep := 1.0 / (beatsPerSecond * stepsPerBeat);
      samplesPerStep := secondsPerStep * sampleRate;
    }

    method Start()
      modifies this`isPlaying
      ensures isPlaying
    {
      isPlaying := true;
    }

    method Stop()
      modifies this`isPlaying, this`currentStep, this`sampleCounter
      ensures !isPlaying && currentStep == 0 && sampleCounter == 0.0
    {
      isPlaying := false;
      Reset();
    }

    method Reset()
      modifies this`currentStep, this`sampleCounter
      ensures currentStep == 0 && sampleCounter == 0.0
    {
      currentStep := 0;
      sampleCounter := 0.0;
    }

    /** Moves the playhead one step on, wrapping with C++ `%`. */
    method AdvanceStep()
      requires numSteps >= 1
      modifies this`currentStep
      ensures currentStep == CppRem(old(currentStep) + 1, numSteps)
      ensures 0 <= old(currentStep) < numSteps ==> currentStep == (old(currentStep) + 1) % numSteps
    {
      currentStep := CppRem(currentStep + 1, numSteps);
    }

    function IsSequencerPlaying(): bool reads this { isPlaying }
    function GetCurrentStep(): int reads this { currentStep }
    function GetNumSteps(): int reads this { numSteps }
    function GetNumRows(): int reads this { numRows }
    function GetLowestNote(): int reads this { lowestNote }
    function GetKeySignatureManager(): KeySignatureManager { keys }
    function GetCurrentMidiInfo(): MidiEventInfo reads this { currentMidiInfo }

    /** A cell of the grid; every position outside the grid reads as off. */
    function GetStep(step: int, row: int): (on: bool)
      reads this
      requires Shaped(grid, numSteps, numRows)
      ensures !(0 <= step < numSteps && 0 <= row < numRows) ==> !on
      ensures 0 <= step < numSteps && 0 <= row < numRows ==> on == grid[step][row]
    {
      if 0 <= step < numSteps && 0 <= row < numRows then grid[step][row] else false
    }

    /** Writes one cell. Positions outside the grid are ignored; in Lock mode a note that
        is out of key cannot be switched on, but any cell can be switched off. */
    method SetStep(step: int, row: int, state: bool)
      requires Valid()
      modifies this`grid
      ensures Valid()
      ensures !(0 <= step < numSteps && 0 <= row < numRows) ==> grid == old(grid)
      ensures 0 <= step < numSteps && 0 <= row < numRows ==>
        var blocked := keys.filterMode == 1 && state && !InKey(keys.currentScale, RowToNote(lowestNote, numRows, row));
        grid == if blocked then old(grid) else old(grid)[step := old(grid)[step][row := state]]
      ensures forall s, r :: GetStep(s, r) == if s == step && r == row && grid != old(grid) then state else old(GetStep(s, r))
    {
      if 0 <= step < numSteps && 0 <= row < numRows {
        var midiNote := RowToNote(lowestNote, numRows, row);
        if keys.GetFilterMode() == 1 {
          var inKey := keys.IsNoteInKey(midiNote);
          if !inKey && state {
            return;
          }
        }
        grid := grid[step := grid[step][row := state]];
      }
    }

    /** Switches every cell off and keeps every column's length. */
    method ClearAllSteps()
      modifies this`grid
      ensures |grid| == |old(grid)|
      ensures forall s :: 0 <= s < |grid| ==> |grid[s]| == |old(grid)[s]|
      ensures AllClear(grid)
    {
      for s := 0 to |grid|
        invariant |grid| == |old(grid)|
        invariant forall j :: 0 <= j < s ==> grid[j] == Falses(|old(grid)[j]|)
        invariant forall j :: s <= j < |grid| ==> grid[j] == old(grid)[j]
      {
        grid := grid[s := Falses(|grid[s]|)];
      }
    }

    /** Follows the host: a positive tempo is adopted and the step length recomputed;
        while the host plays and reports a bar start, the playhead jumps to the step
        the host position falls in. */
    method UpdatePlayheadPosition(posInfo: PositionInfo)
      requires Valid()
      modifies this`bpm, this`samplesPerStep, this`currentStep
      ensures Valid()
      ensures bpm == if posInfo.bpm > 0.0 then posInfo.bpm else old(bpm)
      ensures samplesPerStep == if posInfo.bpm > 0.0 then StepLength(numSteps, posInfo.bpm, sampleRate) else old(samplesPerStep)
      ensures currentStep ==
        if posInfo.isPlaying && posInfo.ppqPositionOfLastBarStart >= 0.0
        then PlayheadStep(posInfo.ppqPosition, posInfo.ppqPositionOfLastBarStart, numSteps)
        else old(currentStep)
    {
      if posInfo.bpm > 0.0 {
        bpm := posInfo.bpm;
        UpdateStepLength();
      }
      if posInfo.isPlaying && posInfo.ppqPositionOfLastBarStart >= 0.0 {
        var ppqPerStep := 4.0 / numSteps as real;
        var currentPpq := posInfo.ppqPosition - posInfo.ppqPositionOfLastBarStart;
        var newStep := CppRem(Trunc(currentPpq / ppqPerStep), numSteps);
        if newStep != currentStep {
          currentStep := newStep;
        }
      }
    }

    /** A host parameter change; the value arrives as a float and is truncated to `int`.
        Root, scale type and filter mode go to the key-signature manager, which keeps
        only values in range; "numSteps" selects `4 * (index + 1)` steps. */
    method ParameterChanged(parameterID: string, newValue: real)
      requires Valid() && keys.Valid()
      requires parameterID == "numSteps" ==> Trunc(newValue) >= 0
      modifies this`numSteps, this`grid, this`samplesPerStep, keys
      ensures Valid() && keys.Valid()
      ensures keys.rootNote ==
        if parameterID == "rootNote" && 0 <= Trunc(newValue) < 12 then Trunc(newValue) else old(keys.rootNote)
      ensures keys.scaleType ==
        if parameterID == "scaleType" && 0 <= Trunc(newValue) <= 1 then Trunc(newValue) else old(keys.scaleType)
      ensures keys.filterMode ==
        if parameterID == "keyFilterMode" && 0 <= Trunc(newValue) <= 1 then Trunc(newValue) else old(keys.filterMode)
      ensures parameterID == "numSteps" ==> numSteps == (Trunc(newValue) + 1) * 4
      ensures parameterID != "numSteps" ==> numSteps == old(numSteps)
      ensures grid == Reshape(old(grid), numSteps, numRows)
      ensures numSteps == old(numSteps) ==> grid == old(grid) && samplesPerStep == old(samplesPerStep)
      ensures numSteps != old(numSteps) ==> samplesPerStep == StepLength(numSteps, bpm, sampleRate)
    {
      ReshapeSameShape(grid, numSteps, numRows);
      if parameterID == "rootNote" {
        keys.SetRootNote(Trunc(newValue));
      } else if parameterID == "scaleType" {
        keys.SetScaleType(Trunc(newValue));
      } else if parameterID == "keyFilterMode" {
        keys.SetFilterMode(Trunc(newValue));
      } else if parameterID == "numSteps" {
        ChangeStepCount(Trunc(newValue));
      }
    }

    /** The "numSteps" branch: a new count resizes the grid, keeping the cells of the
        steps both counts have and leaving the rest off, and recomputes the step
        length; the same count changes nothing. */
    method ChangeStepCount(index: int)
      requires Valid() && index >= 0
      modifies this`numSteps, this`grid, this`samplesPerStep
      ensures Valid()
      ensures numSteps == (index + 1) * 4
      ensures grid == Reshape(old(grid), numSteps, numRows)
      ensures forall s, r :: 0 <= s < numSteps && 0 <= r < numRows ==>
        grid[s][r] == (s < old(numSteps) && old(grid)[s][r])
      ensures numSteps == old(numSteps) ==> grid == old(grid) && samplesPerStep == old(samplesPerStep)
      ensures numSteps != old(numSteps) ==> samplesPerStep == StepLength(numSteps, bpm, sampleRate)
    {
      var newStepCount := (index + 1) * 4;
      if newStepCount != numSteps {
        var oldGrid := grid;
        var oldSteps := numSteps;
        numSteps := newStepCount;
        grid := Reshape(grid, numSteps, numRows);
        for step := 0 to Min(oldSteps, numSteps)
          invariant numSteps == newStepCount && samplesPerStep == old(samplesPerStep)
          invariant grid == Reshape(oldGrid, numSteps, numRows)
        {
          for row := 0 to numRows
            invariant numSteps == newStepCount && samplesPerStep == old(samplesPerStep)
            invariant grid == Reshape(oldGrid, numSteps, numRows)
          {
            if step < oldSteps {
              assert grid[step][row := oldGrid[step][row]] == grid[step];
              grid := grid[step := grid[step][row := oldGrid[step][row]]];
            }
          }
        }
        UpdateStepLength();
      } else {
        ReshapeSameShape(grid, numSteps, numRows);
      }
    }

    /** `getState`: the saved state lists the dimensions, the lowest note and exactly
        the active cells, in step-major then row order, and restoring it gives back the grid. */
    function GetState(): (state: SequencerState)
      reads this
      requires Shaped(grid, numSteps, numRows) && numSteps >= 0 && numRows >= 0
      ensures state.tag == StateTag
      ensures state.numSteps == Some(numSteps) && state.numRows == Some(numRows) && state.lowestNote == Some(lowestNote)
      ensures forall i :: 0 <= i < |state.children| ==>
        && state.children[i] == NoteAt(StepOf(state.children[i]), RowOf(state.children[i]))
        && GetStep(StepOf(state.children[i]), RowOf(state.children[i]))
      ensures forall s, r :: GetStep(s, r) ==> NoteAt(s, r) in state.children
      ensures forall i, j :: 0 <= i < j < |state.children| ==> Before(state.children[i], state.children[j])
      ensures RestoredGrid(numSteps, numRows, state.children) == grid
    {
      GridNotesExact(grid, numRows, numSteps);
      RestoreCapture(grid, numSteps, numRows, lowestNote, 0, 0, 0);
      Capture(grid, numSteps, numRows, lowestNote)
    }

    /** `setState`: a tree of another kind is ignored. Otherwise the grid is cleared, the
        dimensions and lowest note are read (keeping the current value for an absent
        property), the grid is resized when the step count differs, and every "Note"
        child inside the grid switches its cell on. When only the row count changes
        the columns keep their length, so the caller must not do that; nor may it
        restore a negative row count or fewer than one step, on which the source
        throws or leaves a grid that playback indexes out of range. */
    method SetState(state: SequencerState)
      requires Valid()
      requires state.tag == StateTag ==>
        var steps := state.numSteps.GetOr(numSteps);
        var rows := state.numRows.GetOr(numRows);
        steps >= 1 && rows >= 0 && (steps == numSteps ==> rows == numRows)
      modifies this`grid, this`numSteps, this`numRows, this`lowestNote
      ensures Valid()
      ensures state.tag != StateTag ==>
        grid == old(grid) && numSteps == old(numSteps) && numRows == old(numRows) && lowestNote == old(lowestNote)
      ensures state.tag == StateTag ==>
        && numSteps == state.numSteps.GetOr(old(numSteps))
        && numRows == state.numRows.GetOr(old(numRows))
        && lowestNote == state.lowestNote.GetOr(old(lowestNote))
        && grid == RestoredGrid(numSteps, numRows, state.children)
    {
      if state.tag != StateTag {
        return;
      }
      ClearAllSteps();
      var steps := state.numSteps.GetOr(numSteps);
      var rows := state.numRows.GetOr(numRows);
      var lowest := state.lowestNote.GetOr(lowestNote);
      numSteps, numRows, lowestNote := steps, rows, lowest;
      if |grid| != numSteps {
        ReshapeClear(grid, numSteps, numRows);
        grid := Reshape(grid, numSteps, numRows);
      }
      var children := state.children;
      for i := 0 to |children|
        invariant numSteps == steps && numRows == rows && lowestNote == lowest
        invariant Shaped(grid, numSteps, numRows)
        invariant forall s, r :: 0 <= s < numSteps && 0 <= r < numRows ==> grid[s][r] == Listed(children[..i], s, r)
      {
        var noteState := children[i];
        forall s, r | 0 <= s < numSteps && 0 <= r < numRows {
          ListedExtend(children, i, s, r);
        }
        if noteState.tag == NoteTag {
          var step := StepOf(noteState);
          var row := RowOf(noteState);
          if 0 <= step < numSteps && 0 <= row < numRows {
            grid := grid[step := grid[step][row := true]];
          }
        }
      }
      assert children[..|children|] == children;
      RestoredGridUnique(grid, numSteps, numRows, children);
    }

    /** The note-offs for the active rows of the current step, in row order. */
    method SendNoteOffEvents(offset: int) returns (events: seq<MidiEvent>)
      requires Shaped(grid, numSteps, numRows) && numRows >= 0 && 0 <= currentStep < numSteps
      ensures events == Releases(grid, numSteps, numRows, lowestNote, currentStep, offset)
    {
      events := [];
      for row := 0 to numRows
        invariant events == OffEvents(grid[currentStep], lowestNote, numRows, offset, row)
      {
        if grid[currentStep][row] {
          var midiNote := RowToNote(lowestNote, numRows, row);
          events := events + [NoteOff(offset, midiNote, Channel)];
        }
      }
    }

    /** The note-ons for the active rows of the current step, in row order; the display
        snapshot follows each of them. */
    method SendNoteOnEvents(offset: int) returns (events: seq<MidiEvent>)
      requires Shaped(grid, numSteps, numRows) && numRows >= 0 && 0 <= currentStep < numSteps && lowestNote >= 0
      modifies this`currentMidiInfo
      ensures events == Triggers(grid, numSteps, numRows, lowestNote, currentStep, offset)
      ensures currentMidiInfo == InfoAfterOn(grid[currentStep], currentStep, lowestNote, numRows, numRows, old(currentMidiInfo))
    {
      events := [];
      for row := 0 to numRows
        invariant events == OnEvents(grid[currentStep], lowestNote, numRows, offset, row)
        invariant currentMidiInfo == InfoAfterOn(grid[currentStep], currentStep, lowestNote, numRows, row, old(currentMidiInfo))
      {
        if grid[currentStep][row] {
          var midiNote := RowToNote(lowestNote, numRows, row);
          events := events + [NoteOn(offset, midiNote, Velocity, Channel)];
          currentMidiInfo := NoteOnInfo(currentMidiInfo, currentStep, midiNote);
        }
      }
    }

    /** One step boundary at `offset`: the note-offs of the current step, the move to
        the next step, and the note-ons of the step entered. */
    method CrossBoundary(offset: int) returns (events: seq<MidiEvent>)
      requires Shaped(grid, numSteps, numRows) && numRows >= 0 && 0 <= currentStep < numSteps && lowestNote >= 0
      modifies this`currentStep, this`currentMidiInfo
      ensures currentStep == (old(currentStep) + 1) % numSteps
      ensures events == BoundaryEvents(grid, numSteps, numRows, lowestNote, old(currentStep), offset)
      ensures currentMidiInfo == InfoAfterOn(grid[currentStep], currentStep, lowestNote, numRows, numRows, old(currentMidiInfo))
    {
      var offs := SendNoteOffEvents(offset);
      AdvanceStep();
      var ons := SendNoteOnEvents(offset);
      events := offs + ons;
    }

    /** The `k`-th boundary of a block, as part of the walk: with the events of the
        boundaries before it in `played`, it extends them to the events of `k + 1`
        boundaries and moves the step and the snapshot on by one boundary. */
    method WalkBoundary(offset: int, ghost g: seq<seq<bool>>, ghost n: int, ghost rows: nat, ghost lowest: int,
                        ghost played: seq<MidiEvent>, ghost s0: int, ghost first: int,
                        ghost sps: int, ghost k: nat, ghost prior: MidiEventInfo) returns (events: seq<MidiEvent>)
      requires g == grid && n == numSteps && rows == numRows && lowest == lowestNote
      requires Walked(g, n, rows, lowest, s0, first, sps, k, prior, currentStep, played, currentMidiInfo)
      requires offset == first + Multiple(k, sps)
      modifies this`currentStep, this`currentMidiInfo
      ensures Walked(g, n, rows, lowest, s0, first, sps, k + 1, prior, currentStep, played + events, currentMidiInfo)
    {
      StepAfterAdvances(s0, k, n);
      BlockNext(g, n, rows, lowest, s0, first, sps, k, prior);
      events := CrossBoundary(offset);
    }

    /** One pass of the block loop: the block moves on by the smaller of what is left of
        it and what is left of the step; reaching the boundary crosses it and restarts
        the counter, otherwise the counter grows by the chunk. For a walk that has
        crossed `k` boundaries since the block entered `c0` samples into a step, the pass
        covers at least one sample and either crosses boundary `k`, at its offset, or
        stays inside the step. */
    method StepPass(numSamples: int, samplePosition: int, ghost g: seq<seq<bool>>, ghost n: int, ghost rows: nat,
                    ghost lowest: int, ghost played: seq<MidiEvent>, ghost s0: int, ghost c0: int, ghost sps: int,
                    ghost k: nat, ghost counter: int, ghost prior: MidiEventInfo)
      returns (chunk: int, events: seq<MidiEvent>, ghost counter': int, ghost k': nat)
      requires g == grid && n == numSteps && rows == numRows && lowest == lowestNote
      requires samplesPerStep == sps as real && sampleCounter == counter as real && 0 <= counter < sps
      requires 0 <= samplePosition < numSamples
      requires c0 + samplePosition == Multiple(k, sps) + counter
      requires Walked(g, n, rows, lowest, s0, sps - c0, sps, k, prior, currentStep, played, currentMidiInfo)
      modifies this`currentStep, this`sampleCounter, this`currentMidiInfo
      ensures 1 <= chunk <= numSamples - samplePosition
      ensures sampleCounter == counter' as real && 0 <= counter' < sps
      ensures c0 + samplePosition + chunk == Multiple(k', sps) + counter'
      ensures Walked(g, n, rows, lowest, s0, sps - c0, sps, k', prior, currentStep, played + events, currentMidiInfo)
    {
      chunk := Min(numSamples - samplePosition, Trunc(samplesPerStep - sampleCounter));
      WholePass(numSamples, sps, samplePosition, counter, c0, k);
      if sampleCounter + chunk as real >= samplesPerStep {
        var offsetToNextStep := Trunc(samplesPerStep - sampleCounter);
        events := WalkBoundary(samplePosition + offsetToNextStep, g, n, rows, lowest, played, s0, sps - c0, sps, k, prior);
        sampleCounter := 0.0;
        counter', k' := 0, k + 1;
      } else {
        events := [];
        assert played + events == played;
        sampleCounter := sampleCounter + chunk as real;
        counter', k' := counter + chunk, k;
      }
    }

    /** One audio block of `numSamples` samples. Stopped, nothing happens. Playing, the
        block is walked chunk by chunk; each step boundary releases the notes of the
        step left and triggers those of the step entered, at the boundary's offset in
        the block. The block crosses `(counter + numSamples) / samplesPerStep`
        boundaries, the first `samplesPerStep - counter` samples in, then one every
        `samplesPerStep` samples. */
    method ProcessBlock(numSamples: int) returns (events: seq<MidiEvent>)
      requires Valid()
      requires isPlaying ==> ReadyToPlay()
      modifies this`currentStep, this`sampleCounter, this`currentMidiInfo
      ensures Valid()
      ensures !isPlaying ==>
        events == [] && currentStep == old(currentStep) && sampleCounter == old(sampleCounter)
        && currentMidiInfo == old(currentMidiInfo)
      ensures isPlaying ==>
        && ReadyToPlay()
        && BlockResult(events, currentStep, sampleCounter.Floor, currentMidiInfo)
           == PlayBlock(grid, numSteps, numRows, lowestNote, old(currentStep), old(sampleCounter).Floor,
                        samplesPerStep.Floor, numSamples, old(currentMidiInfo))
    {
      events := [];
      if !isPlaying {
        return;
      }
      var sps := samplesPerStep.Floor;
      ghost var s0, c0, info0 := currentStep, sampleCounter.Floor, currentMidiInfo;
      ghost var g, n, rows, lowest := grid, numSteps, numRows, lowestNote;
      ghost var counter, k := c0, 0;
      var samplePosition := 0;
      while samplePosition < numSamples
        invariant samplesPerStep == sps as real
        invariant 0 <= currentStep < numSteps
        invariant 0 <= samplePosition && (samplePosition <= numSamples || samplePosition == 0)
        invariant sampleCounter == counter as real && 0 <= counter < sps
        invariant c0 + samplePosition == Multiple(k, sps) + counter
        invariant Walked(g, n, rows, lowest, s0, sps - c0, sps, k, info0, currentStep, events, currentMidiInfo)
        decreases numSamples - samplePosition
      {
        var samplesToNextStep, crossed;
        samplesToNextStep, crossed, counter, k :=
          StepPass(numSamples, samplePosition, g, n, rows, lowest, events, s0, c0, sps, k, counter, info0);
        events := events + crossed;
        samplePosition := samplePosition + samplesToNextStep;
      }
      PlayBlockWalk(g, n, rows, lowest, s0, c0, sps, numSamples, info0, k, counter);
    }
  }
}
