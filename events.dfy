/** The MIDI side of the engine: rows to pitches, note names, the events sent at a
    step boundary, and the display snapshot of the last note-on. */
module Events {
  import opened CppArith
  import opened Grid

  /** Every note-on carries this velocity, and both kinds are sent on MIDI channel 1. */
  const Velocity := 100
  const Channel := 1

  datatype MidiEvent =
    | NoteOn(offset: int, pitch: int, velocity: int, channel: int)
    | NoteOff(offset: int, pitch: int, channel: int)

  /** Row 0 is the highest pitch and row `numRows - 1` is `lowestNote`. */
  function RowToNote(lowestNote: int, numRows: int, row: int): int {
    lowestNote + (numRows - 1 - row)
  }

  /** The pitch of a row as the row counted up from the bottom of the grid. */
  function NoteToRow(lowestNote: int, numRows: int, midiNote: int): int {
    lowestNote + (numRows - 1) - midiNote
  }

  /** The rows cover `lowestNote .. lowestNote + numRows - 1`, from the top down, one
      pitch each, and the row is recovered from its pitch. */
  lemma RowToNoteBijective(lowestNote: int, numRows: int, row: int, other: int, pitch: int)
    requires 0 <= row < numRows && 0 <= other < numRows
    ensures lowestNote <= pitch < lowestNote + numRows ==>
      && 0 <= NoteToRow(lowestNote, numRows, pitch) < numRows
      && RowToNote(lowestNote, numRows, NoteToRow(lowestNote, numRows, pitch)) == pitch
    ensures lowestNote <= RowToNote(lowestNote, numRows, row) <= lowestNote + numRows - 1
    ensures RowToNote(lowestNote, numRows, 0) == lowestNote + numRows - 1
    ensures RowToNote(lowestNote, numRows, numRows - 1) == lowestNote
    ensures row < other <==> RowToNote(lowestNote, numRows, row) > RowToNote(lowestNote, numRows, other)
    ensures NoteToRow(lowestNote, numRows, RowToNote(lowestNote, numRows, row)) == row
  {
  }

  const NoteNames: seq<string> := ["C", "C#", "D", "D#", "E", "F", "F#", "G", "G#", "A", "A#", "B"]

  function DigitChar(d: int): char
    requires 0 <= d < 10
  {
    "0123456789"[d]
  }

  function NatToDecimal(n: nat): (s: string)
    ensures |s| >= 1
    decreases n
  {
    if n < 10 then [DigitChar(n)] else NatToDecimal(n / 10) + [DigitChar(n % 10)]
  }

  /** `juce::String(int)`: decimal digits with a leading minus sign for negatives. */
  function IntToDecimal(i: int): string {
    if i < 0 then "-" + NatToDecimal(-i) else NatToDecimal(i)
  }

  /** A note name as its two parts: the pitch-class index into `NoteNames` and the
      octave number. */
  datatype NoteLabel = NoteLabel(pitchClass: int, octave: int)

  /** The text shown: the pitch-class name followed by the octave number. */
  function LabelText(parts: NoteLabel): string
    requires 0 <= parts.pitchClass < 12
  {
    NoteNames[parts.pitchClass] + IntToDecimal(parts.octave)
  }

  /** The parts of `midiNoteToName`, where note 0 is in octave -1. */
  function NameParts(midiNote: int): (parts: NoteLabel)
    requires midiNote >= 0
    ensures 0 <= parts.pitchClass < 12
    ensures midiNote == 12 * (parts.octave + 1) + parts.pitchClass
  {
    NoteLabel(midiNote % 12, midiNote / 12 - 1)
  }

  /** `midiNoteToName`: the pitch-class name followed by the octave number. */
  function NoteName(midiNote: int): string
    requires midiNote >= 0
  {
    LabelText(NameParts(midiNote))
  }

  /** Note 48 is C3, middle C (60) is C4, and note 0 is C-1. The display snapshot's
      default name "C3" (below) therefore does not match its default note number 60. */
  lemma NoteNameExamples()
    ensures NoteName(48) == "C3"
    ensures NoteName(60) == "C4"
    ensures NoteName(61) == "C#4"
    ensures NoteName(0) == "C-1"
  {
    assert NatToDecimal(1) == "1";
  }

  /** The snapshot of the last note-on, for display. */
  datatype MidiEventInfo = MidiEventInfo(
    stepPosition: int,
    noteNumber: int,
    noteName: NoteLabel,
    velocity: int,
    channel: int,
    gateLength: real)

  /** The snapshot before any note-on: step 0, note 60 named "C3", velocity 100,
      channel 1, gate 0.5. The name is kept as its parts, rendered by `LabelText`. */
  const DefaultInfo := MidiEventInfo(0, 60, NoteLabel(0, 3), 100, 1, 0.5)

  /** The default snapshot's name reads "C3", which is the name of note 48, not of its
      note number 60. */
  lemma DefaultNameMismatch()
    ensures LabelText(DefaultInfo.noteName) == "C3" == NoteName(48)
    ensures DefaultInfo.noteName != NameParts(DefaultInfo.noteNumber)
  {
    assert NatToDecimal(3) == "3";
  }

  /** The snapshot after a note-on of `pitch` at `step`: the channel shown is one more
      than the channel sent; the gate length is never touched. */
  function NoteOnInfo(info: MidiEventInfo, step: int, pitch: int): MidiEventInfo
    requires pitch >= 0
  {
    info.(stepPosition := step, noteNumber := pitch, noteName := NameParts(pitch),
          velocity := Velocity, channel := Channel + 1)
  }

  /** Note-offs for the active rows `0 .. upto - 1` of a column, in row order. */
  function OffEvents(column: seq<bool>, lowestNote: int, numRows: int, offset: int, upto: nat): seq<MidiEvent>
    requires upto <= |column|
  {
    if upto == 0 then []
    else
      OffEvents(column, lowestNote, numRows, offset, upto - 1)
      + (if column[upto - 1] then [NoteOff(offset, RowToNote(lowestNote, numRows, upto - 1), Channel)] else [])
  }

  /** Note-ons for the active rows `0 .. upto - 1` of a column, in row order. */
  function OnEvents(column: seq<bool>, lowestNote: int, numRows: int, offset: int, upto: nat): seq<MidiEvent>
    requires upto <= |column|
  {
    if upto == 0 then []
    else
      OnEvents(column, lowestNote, numRows, offset, upto - 1)
      + (if column[upto - 1] then [NoteOn(offset, RowToNote(lowestNote, numRows, upto - 1), Velocity, Channel)] else [])
  }

  /** The snapshot after the note-ons of rows `0 .. upto - 1`. */
  function InfoAfterOn(column: seq<bool>, step: int, lowestNote: int, numRows: int, upto: nat, prior: MidiEventInfo): MidiEventInfo
    requires upto <= |column| && upto <= numRows && lowestNote >= 0
  {
    if upto == 0 then prior
    else
      var before := InfoAfterOn(column, step, lowestNote, numRows, upto - 1, prior);
      if column[upto - 1] then NoteOnInfo(before, step, RowToNote(lowestNote, numRows, upto - 1)) else before
  }

  /** Pitches strictly fall along the events: one event per pitch, in increasing row order. */
  ghost predicate PitchesFall(events: seq<MidiEvent>) {
    forall i, j :: 0 <= i < j < |events| ==> events[i].pitch > events[j].pitch
  }

  /** The note-offs are exactly one per active row, at the given offset, with that
      row's pitch, in increasing row order. */
  lemma {:induction false} OffEventsExact(column: seq<bool>, lowestNote: int, numRows: int, offset: int, upto: nat)
    requires upto <= |column|
    ensures forall e :: e in OffEvents(column, lowestNote, numRows, offset, upto) <==>
      exists r :: 0 <= r < upto && column[r] && e == NoteOff(offset, RowToNote(lowestNote, numRows, r), Channel)
    ensures forall i :: 0 <= i < |OffEvents(column, lowestNote, numRows, offset, upto)| ==>
      OffEvents(column, lowestNote, numRows, offset, upto)[i].NoteOff?
    ensures PitchesFall(OffEvents(column, lowestNote, numRows, offset, upto))
  {
    if upto > 0 {
      OffEventsExact(column, lowestNote, numRows, offset, upto - 1);
      var before := OffEvents(column, lowestNote, numRows, offset, upto - 1);
      var p := RowToNote(lowestNote, numRows, upto - 1);
      forall i | 0 <= i < |before| ensures before[i].pitch > p {
        assert before[i] in before;
        var r :| 0 <= r < upto - 1 && column[r] && before[i] == NoteOff(offset, RowToNote(lowestNote, numRows, r), Channel);
      }
      if column[upto - 1] {
        var events := before + [NoteOff(offset, p, Channel)];
        forall i, j | 0 <= i < j < |events| ensures events[i].pitch > events[j].pitch {
          assert events[i] == before[i];
          if j < |before| {
            assert events[j] == before[j];
          }
        }
      }
    }
  }

  /** The note-ons are exactly one per active row, at the given offset, with that
      row's pitch and velocity 100, in increasing row order. */
  lemma {:induction false} OnEventsExact(column: seq<bool>, lowestNote: int, numRows: int, offset: int, upto: nat)
    requires upto <= |column|
    ensures forall e :: e in OnEvents(column, lowestNote, numRows, offset, upto) <==>
      exists r :: 0 <= r < upto && column[r] && e == NoteOn(offset, RowToNote(lowestNote, numRows, r), Velocity, Channel)
    ensures forall i :: 0 <= i < |OnEvents(column, lowestNote, numRows, offset, upto)| ==>
      OnEvents(column, lowestNote, numRows, offset, upto)[i].NoteOn?
    ensures PitchesFall(OnEvents(column, lowestNote, numRows, offset, upto))
  {
    if upto > 0 {
      OnEventsExact(column, lowestNote, numRows, offset, upto - 1);
      var before := OnEvents(column, lowestNote, numRows, offset, upto - 1);
      var p := RowToNote(lowestNote, numRows, upto - 1);
      forall i | 0 <= i < |before| ensures before[i].pitch > p {
        assert before[i] in before;
        var r :| 0 <= r < upto - 1 && column[r] && before[i] == NoteOn(offset, RowToNote(lowestNote, numRows, r), Velocity, Channel);
      }
      if column[upto - 1] {
        var events := before + [NoteOn(offset, p, Velocity, Channel)];
        forall i, j | 0 <= i < j < |events| ensures events[i].pitch > events[j].pitch {
          assert events[i] == before[i];
          if j < |before| {
            assert events[j] == before[j];
          }
        }
      }
    }
  }

  function Pitches(events: seq<MidiEvent>): (pitches: seq<int>)
    ensures |pitches| == |events|
    ensures forall i :: 0 <= i < |events| ==> pitches[i] == events[i].pitch
  {
    seq(|events|, i requires 0 <= i < |events| => events[i].pitch)
  }

  /** A column's note-ons and note-offs name the same pitches in the same order, so
      whatever one boundary starts, a later boundary on the same column releases. */
  lemma {:induction false} OnOffSamePitches(column: seq<bool>, lowestNote: int, numRows: int, onAt: int, offAt: int, upto: nat)
    requires upto <= |column|
    ensures Pitches(OnEvents(column, lowestNote, numRows, onAt, upto)) == Pitches(OffEvents(column, lowestNote, numRows, offAt, upto))
  {
    if upto > 0 {
      OnOffSamePitches(column, lowestNote, numRows, onAt, offAt, upto - 1);
      var on := OnEvents(column, lowestNote, numRows, onAt, upto - 1);
      var off := OffEvents(column, lowestNote, numRows, offAt, upto - 1);
      if column[upto - 1] {
        var p := RowToNote(lowestNote, numRows, upto - 1);
        assert Pitches(on + [NoteOn(onAt, p, Velocity, Channel)]) == Pitches(on) + [p];
        assert Pitches(off + [NoteOff(offAt, p, Channel)]) == Pitches(off) + [p];
      } else {
        assert OnEvents(column, lowestNote, numRows, onAt, upto) == on + [];
        assert OffEvents(column, lowestNote, numRows, offAt, upto) == off + [];
      }
    }
  }

  /** The note-ons of a column never change the snapshot's gate length. */
  lemma {:induction false} InfoAfterOnGate(column: seq<bool>, step: int, lowestNote: int, numRows: int, upto: nat, prior: MidiEventInfo)
    requires upto <= |column| && upto <= numRows && lowestNote >= 0
    ensures InfoAfterOn(column, step, lowestNote, numRows, upto, prior).gateLength == prior.gateLength
  {
    if upto > 0 {
      InfoAfterOnGate(column, step, lowestNote, numRows, upto - 1, prior);
    }
  }

  /** A column without an active row leaves the snapshot as it was. */
  lemma {:induction false} InfoAfterOnIdle(column: seq<bool>, step: int, lowestNote: int, numRows: int, upto: nat, prior: MidiEventInfo)
    requires upto <= |column| && upto <= numRows && lowestNote >= 0
    requires forall r :: 0 <= r < upto ==> !column[r]
    ensures InfoAfterOn(column, step, lowestNote, numRows, upto, prior) == prior
  {
    if upto > 0 {
      InfoAfterOnIdle(column, step, lowestNote, numRows, upto - 1, prior);
    }
  }

  /** After the note-ons of a column the snapshot describes the last active row (the
      lowest pitch) at this step. */
  lemma {:induction false} InfoAfterOnLast(column: seq<bool>, step: int, lowestNote: int, numRows: int, upto: nat, prior: MidiEventInfo, r: int)
    requires upto <= |column| && upto <= numRows && lowestNote >= 0
    requires 0 <= r < upto && column[r] && forall q :: r < q < upto ==> !column[q]
    ensures InfoAfterOn(column, step, lowestNote, numRows, upto, prior)
      == NoteOnInfo(InfoAfterOn(column, step, lowestNote, numRows, r, prior), step, RowToNote(lowestNote, numRows, r))
  {
    if r < upto - 1 {
      assert !column[upto - 1];
      InfoAfterOnLast(column, step, lowestNote, numRows, upto - 1, prior, r);
    }
  }

  // ---------------------------------------------------------------------------
  // A block of step boundaries

  /** The step `k` steps after `s0`, wrapping at `numSteps`. */
  function StepAfter(s0: int, k: nat, numSteps: int): (step: int)
    requires 0 <= s0 < numSteps
    ensures 0 <= step < numSteps
  {
    (s0 + k) % numSteps
  }

  /** One more call of `advanceStep` moves one step further: `k` calls from `s0` reach
      `StepAfter(s0, k)`. */
  lemma StepAfterAdvances(s0: int, k: nat, numSteps: int)
    requires 0 <= s0 < numSteps
    ensures StepAfter(s0, 0, numSteps) == s0
    ensures StepAfter(s0, k + 1, numSteps) == (StepAfter(s0, k, numSteps) + 1) % numSteps
  {
    ModSucc(s0 + k, numSteps);
  }

  /** What a boundary releases: the note-offs of the step being left. */
  function Releases(grid: seq<seq<bool>>, numSteps: int, numRows: nat, lowestNote: int, step: int, offset: int): seq<MidiEvent>
    requires Shaped(grid, numSteps, numRows) && 0 <= step < numSteps
  {
    OffEvents(grid[step], lowestNote, numRows, offset, numRows)
  }

  /** What a boundary starts: the note-ons of the step being entered. */
  function Triggers(grid: seq<seq<bool>>, numSteps: int, numRows: nat, lowestNote: int, step: int, offset: int): seq<MidiEvent>
    requires Shaped(grid, numSteps, numRows) && 0 <= step < numSteps
  {
    OnEvents(grid[step], lowestNote, numRows, offset, numRows)
  }

  /** The boundary leaving step `from`: note-offs of `from`, then note-ons of the next
      step, all at one offset. */
  function BoundaryEvents(grid: seq<seq<bool>>, numSteps: int, numRows: nat, lowestNote: int, from: int, offset: int): seq<MidiEvent>
    requires Shaped(grid, numSteps, numRows) && 0 <= from < numSteps
  {
    Releases(grid, numSteps, numRows, lowestNote, from, offset)
    + Triggers(grid, numSteps, numRows, lowestNote, (from + 1) % numSteps, offset)
  }

  /** `k` boundaries leaving `s0` and the steps after it, the first at offset `first`
      and each `samplesPerStep` after the one before. */
  function BlockEvents(grid: seq<seq<bool>>, numSteps: int, numRows: nat, lowestNote: int,
                       s0: int, first: int, samplesPerStep: int, k: nat): seq<MidiEvent>
    requires Shaped(grid, numSteps, numRows) && 0 <= s0 < numSteps
  {
    if k == 0 then []
    else
      BlockEvents(grid, numSteps, numRows, lowestNote, s0, first, samplesPerStep, k - 1)
      + BoundaryEvents(grid, numSteps, numRows, lowestNote, StepAfter(s0, k - 1, numSteps), first + Multiple(k - 1, samplesPerStep))
  }

  /** The snapshot after `k` boundaries. */
  function InfoAfterBlock(grid: seq<seq<bool>>, numSteps: int, numRows: nat, lowestNote: int,
                          s0: int, k: nat, prior: MidiEventInfo): MidiEventInfo
    requires Shaped(grid, numSteps, numRows) && 0 <= s0 < numSteps && lowestNote >= 0
  {
    if k == 0 then prior
    else
      var step := StepAfter(s0, k, numSteps);
      InfoAfterOn(grid[step], step, lowestNote, numRows, numRows,
                  InfoAfterBlock(grid, numSteps, numRows, lowestNote, s0, k - 1, prior))
  }

  /** A walk that has crossed `k` boundaries of a block stands on the `k`-th step after
      `s0`, has emitted the events of those boundaries and shows the snapshot after them. */
  ghost predicate Walked(grid: seq<seq<bool>>, numSteps: int, numRows: nat, lowestNote: int,
                         s0: int, first: int, samplesPerStep: int, k: nat, prior: MidiEventInfo,
                         step: int, events: seq<MidiEvent>, info: MidiEventInfo)
  {
    && Shaped(grid, numSteps, numRows) && 0 <= s0 < numSteps && lowestNote >= 0
    && step == StepAfter(s0, k, numSteps)
    && events == BlockEvents(grid, numSteps, numRows, lowestNote, s0, first, samplesPerStep, k)
    && info == InfoAfterBlock(grid, numSteps, numRows, lowestNote, s0, k, prior)
  }

  /** One more boundary appends its events. */
  lemma BlockEventsNext(grid: seq<seq<bool>>, numSteps: int, numRows: nat, lowestNote: int,
                        s0: int, first: int, samplesPerStep: int, k: nat)
    requires Shaped(grid, numSteps, numRows) && 0 <= s0 < numSteps
    ensures BlockEvents(grid, numSteps, numRows, lowestNote, s0, first, samplesPerStep, k + 1)
      == BlockEvents(grid, numSteps, numRows, lowestNote, s0, first, samplesPerStep, k)
         + BoundaryEvents(grid, numSteps, numRows, lowestNote, StepAfter(s0, k, numSteps), first + Multiple(k, samplesPerStep))
  {
  }

  /** One more boundary appends its events and moves the snapshot on. */
  lemma BlockNext(grid: seq<seq<bool>>, numSteps: int, numRows: nat, lowestNote: int,
                  s0: int, first: int, samplesPerStep: int, k: nat, prior: MidiEventInfo)
    requires Shaped(grid, numSteps, numRows) && 0 <= s0 < numSteps && lowestNote >= 0
    ensures BlockEvents(grid, numSteps, numRows, lowestNote, s0, first, samplesPerStep, k + 1)
      == BlockEvents(grid, numSteps, numRows, lowestNote, s0, first, samplesPerStep, k)
         + BoundaryEvents(grid, numSteps, numRows, lowestNote, StepAfter(s0, k, numSteps), first + Multiple(k, samplesPerStep))
    ensures var step := StepAfter(s0, k + 1, numSteps);
      InfoAfterBlock(grid, numSteps, numRows, lowestNote, s0, k + 1, prior)
        == InfoAfterOn(grid[step], step, lowestNote, numRows, numRows, InfoAfterBlock(grid, numSteps, numRows, lowestNote, s0, k, prior))
  {
  }

  ghost predicate OffsetsAscending(events: seq<MidiEvent>) {
    forall i, j :: 0 <= i < j < |events| ==> events[i].offset <= events[j].offset
  }

  ghost predicate OffsetsWithin(events: seq<MidiEvent>, lo: int, hi: int) {
    forall i :: 0 <= i < |events| ==> lo <= events[i].offset <= hi
  }

  /** Every event of a boundary is at the boundary's offset. */
  lemma BoundaryEventsAt(grid: seq<seq<bool>>, numSteps: int, numRows: nat, lowestNote: int, from: int, offset: int)
    requires Shaped(grid, numSteps, numRows) && 0 <= from < numSteps
    ensures OffsetsWithin(BoundaryEvents(grid, numSteps, numRows, lowestNote, from, offset), offset, offset)
  {
    OffEventsExact(grid[from], lowestNote, numRows, offset, numRows);
    OnEventsExact(grid[(from + 1) % numSteps], lowestNote, numRows, offset, numRows);
    var events := BoundaryEvents(grid, numSteps, numRows, lowestNote, from, offset);
    assert forall i :: 0 <= i < |events| ==> events[i] in events;
  }

  /** Events at one offset, appended after ascending events no later than it, keep the
      offsets ascending. */
  lemma AppendAtOffset(before: seq<MidiEvent>, last: seq<MidiEvent>, lo: int, hi: int, offset: int)
    requires OffsetsAscending(before) && OffsetsWithin(before, lo, hi)
    requires OffsetsWithin(last, offset, offset) && hi <= offset && lo <= offset
    ensures OffsetsAscending(before + last) && OffsetsWithin(before + last, lo, offset)
  {
    var events := before + last;
    assert forall i :: |before| <= i < |events| ==> events[i] == last[i - |before|];
    assert forall i :: 0 <= i < |before| ==> events[i] == before[i];
  }

  /** The offsets of `k` boundaries run from `first` to the last boundary's,
      `first + (k - 1) * samplesPerStep`, and never decrease. */
  lemma {:induction false} BlockEventsOffsets(grid: seq<seq<bool>>, numSteps: int, numRows: nat, lowestNote: int,
                                              s0: int, first: int, samplesPerStep: int, k: nat)
    requires Shaped(grid, numSteps, numRows) && 0 <= s0 < numSteps && samplesPerStep >= 0
    ensures OffsetsAscending(BlockEvents(grid, numSteps, numRows, lowestNote, s0, first, samplesPerStep, k))
    ensures OffsetsWithin(BlockEvents(grid, numSteps, numRows, lowestNote, s0, first, samplesPerStep, k),
                          first, first + Multiple(k, samplesPerStep) - samplesPerStep)
  {
    if k > 0 {
      var before := BlockEvents(grid, numSteps, numRows, lowestNote, s0, first, samplesPerStep, k - 1);
      var offset := first + Multiple(k - 1, samplesPerStep);
      var last := BoundaryEvents(grid, numSteps, numRows, lowestNote, StepAfter(s0, k - 1, numSteps), offset);
      BlockEventsOffsets(grid, numSteps, numRows, lowestNote, s0, first, samplesPerStep, k - 1);
      BoundaryEventsAt(grid, numSteps, numRows, lowestNote, StepAfter(s0, k - 1, numSteps), offset);
      AppendAtOffset(before, last, first, offset - samplesPerStep, offset);
    }
  }

  /** A block that starts `counter` samples into a step of `samplesPerStep` samples and
      runs for `numSamples` samples crosses `(counter + numSamples) / samplesPerStep`
      boundaries, all at offsets from 1 to `numSamples`, in order. */
  lemma BlockOffsetsInBlock(grid: seq<seq<bool>>, numSteps: int, numRows: nat, lowestNote: int,
                            s0: int, samplesPerStep: int, counter: int, numSamples: int)
    requires Shaped(grid, numSteps, numRows) && 0 <= s0 < numSteps
    requires 0 <= counter < samplesPerStep && numSamples >= 0
    ensures OffsetsAscending(BlockEvents(grid, numSteps, numRows, lowestNote, s0, samplesPerStep - counter, samplesPerStep,
                                         (counter + numSamples) / samplesPerStep))
    ensures OffsetsWithin(BlockEvents(grid, numSteps, numRows, lowestNote, s0, samplesPerStep - counter, samplesPerStep,
                                      (counter + numSamples) / samplesPerStep), 1, numSamples)
  {
    var k := (counter + numSamples) / samplesPerStep;
    BlockEventsOffsets(grid, numSteps, numRows, lowestNote, s0, samplesPerStep - counter, samplesPerStep, k);
    MultipleIsProduct(k, samplesPerStep);
    assert k * samplesPerStep <= counter + numSamples;
  }

  /** When counter and block length add up to whole steps, the block ends with the
      events of its last boundary, all at offset `numSamples` itself, one past the
      block's last sample. */
  lemma BoundaryAtBlockEnd(grid: seq<seq<bool>>, numSteps: int, numRows: nat, lowestNote: int, step: int,
                           counter: int, samplesPerStep: int, numSamples: int, info: MidiEventInfo)
    requires Shaped(grid, numSteps, numRows) && 0 <= step < numSteps && lowestNote >= 0
    requires 0 <= counter < samplesPerStep && numSamples >= 1
    requires (counter + numSamples) % samplesPerStep == 0
    ensures (counter + numSamples) / samplesPerStep >= 1
    ensures var events := PlayBlock(grid, numSteps, numRows, lowestNote, step, counter, samplesPerStep, numSamples, info).events;
      var last := BoundaryEvents(grid, numSteps, numRows, lowestNote,
                                 StepAfter(step, (counter + numSamples) / samplesPerStep - 1, numSteps), numSamples);
      && |last| <= |events| && events[|events| - |last|..] == last
      && OffsetsWithin(last, numSamples, numSamples)
  {
    var k := (counter + numSamples) / samplesPerStep;
    assert k * samplesPerStep == counter + numSamples;
    var first := samplesPerStep - counter;
    MultipleIsProduct(k - 1, samplesPerStep);
    assert (k - 1) * samplesPerStep == k * samplesPerStep - samplesPerStep;
    assert first + Multiple(k - 1, samplesPerStep) == numSamples;
    var before := BlockEvents(grid, numSteps, numRows, lowestNote, step, first, samplesPerStep, k - 1);
    var last := BoundaryEvents(grid, numSteps, numRows, lowestNote, StepAfter(step, k - 1, numSteps), numSamples);
    assert PlayBlock(grid, numSteps, numRows, lowestNote, step, counter, samplesPerStep, numSamples, info).events == before + last;
    BoundaryEventsAt(grid, numSteps, numRows, lowestNote, StepAfter(step, k - 1, numSteps), numSamples);
  }

  /** The notes one boundary starts are the notes the next boundary releases. */
  lemma ConsecutiveBoundariesPair(grid: seq<seq<bool>>, numSteps: int, numRows: nat, lowestNote: int,
                                  from: int, offset: int, nextOffset: int)
    requires Shaped(grid, numSteps, numRows) && 0 <= from < numSteps
    ensures var entered := (from + 1) % numSteps;
      Pitches(Triggers(grid, numSteps, numRows, lowestNote, entered, offset))
        == Pitches(Releases(grid, numSteps, numRows, lowestNote, entered, nextOffset))
  {
    var entered := (from + 1) % numSteps;
    OnOffSamePitches(grid[entered], lowestNote, numRows, offset, nextOffset, numRows);
  }

  // ---------------------------------------------------------------------------
  // What one block does

  /** The outcome of a block: the events emitted, the step and counter it ends on, and
      the display snapshot. */
  datatype BlockResult = BlockResult(events: seq<MidiEvent>, step: int, counter: int, info: MidiEventInfo)

  /** A block of `numSamples` samples entered `counter` samples into step `step`: it
      crosses every boundary up to and including its last sample's successor, and
      ends that many steps on, with the remainder as the counter. */
  function PlayBlock(grid: seq<seq<bool>>, numSteps: int, numRows: nat, lowestNote: int, step: int,
                     counter: int, samplesPerStep: int, numSamples: int, info: MidiEventInfo): (result: BlockResult)
    requires Shaped(grid, numSteps, numRows) && 0 <= step < numSteps && lowestNote >= 0
    requires 0 <= counter < samplesPerStep
    ensures 0 <= result.step < numSteps && 0 <= result.counter < samplesPerStep
  {
    var total := counter + Max(numSamples, 0);
    var crossed := total / samplesPerStep;
    BlockResult(BlockEvents(grid, numSteps, numRows, lowestNote, step, samplesPerStep - counter, samplesPerStep, crossed),
                StepAfter(step, crossed, numSteps),
                total % samplesPerStep,
                InfoAfterBlock(grid, numSteps, numRows, lowestNote, step, crossed, info))
  }

  /** A walk that has crossed `crossed` boundaries and stands `rest` samples into a step,
      with the block finished, has produced the outcome of the block. */
  lemma PlayBlockWalk(grid: seq<seq<bool>>, numSteps: int, numRows: nat, lowestNote: int, step: int,
                      counter: int, samplesPerStep: int, numSamples: int, info: MidiEventInfo, crossed: nat, rest: int)
    requires Shaped(grid, numSteps, numRows) && 0 <= step < numSteps && lowestNote >= 0
    requires 0 <= counter < samplesPerStep
    requires counter + Max(numSamples, 0) == Multiple(crossed, samplesPerStep) + rest && 0 <= rest < samplesPerStep
    ensures PlayBlock(grid, numSteps, numRows, lowestNote, step, counter, samplesPerStep, numSamples, info)
      == BlockResult(BlockEvents(grid, numSteps, numRows, lowestNote, step, samplesPerStep - counter, samplesPerStep, crossed),
                     StepAfter(step, crossed, numSteps), rest,
                     InfoAfterBlock(grid, numSteps, numRows, lowestNote, step, crossed, info))
  {
    var total := counter + Max(numSamples, 0);
    MultipleIsProduct(crossed, samplesPerStep);
    DivModUnique(total, samplesPerStep, crossed, rest);
    assert total / samplesPerStep == crossed && total % samplesPerStep == rest;
  }

  /** A block advances the step by the number of boundaries it crosses, wrapping at
      `numSteps`, and leaves the remainder of the samples as the counter; its events
      are in order and fall from 1 to `numSamples` samples into the block. */
  lemma PlayBlockSound(grid: seq<seq<bool>>, numSteps: int, numRows: nat, lowestNote: int, step: int,
                       counter: int, samplesPerStep: int, numSamples: int, info: MidiEventInfo)
    requires Shaped(grid, numSteps, numRows) && 0 <= step < numSteps && lowestNote >= 0
    requires 0 <= counter < samplesPerStep
    ensures var result := PlayBlock(grid, numSteps, numRows, lowestNote, step, counter, samplesPerStep, numSamples, info);
      var total := counter + Max(numSamples, 0);
      && result.step == (step + total / samplesPerStep) % numSteps
      && result.counter == total % samplesPerStep
      && OffsetsAscending(result.events)
      && OffsetsWithin(result.events, 1, numSamples)
  {
    var total := counter + Max(numSamples, 0);
    BlockOffsetsInBlock(grid, numSteps, numRows, lowestNote, step, samplesPerStep, counter, Max(numSamples, 0));
  }
}
