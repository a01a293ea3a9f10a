/** Step timing: the step length in samples, the playhead step from the host's
    quarter-note position, and the arithmetic of one pass of the block loop. The
    block loop is given twice: as written, over doubles truncated to `int`, and
    corrected, so that it always advances and never schedules outside the block. */
module Timing {
  import opened CppArith

  /** `updateStepLength`, assuming 4/4: a bar of four beats is divided into `numSteps` steps. */
  function StepLength(numSteps: int, bpm: real, sampleRate: real): (samplesPerStep: real)
    requires numSteps >= 1 && bpm > 0.0
    ensures samplesPerStep == 240.0 * sampleRate / (bpm * numSteps as real)
    ensures sampleRate > 0.0 ==> samplesPerStep > 0.0
  {
    var stepsPerBeat := numSteps as real / 4.0;
    var beatsPerSecond := bpm / 60.0;
    var secondsPerStep := 1.0 / (beatsPerSecond * stepsPerBeat);
    assert secondsPerStep == 240.0 / (bpm * numSteps as real);
    secondsPerStep * sampleRate
  }

  /** At 48 kHz, 120 bpm and 16 steps a step is a whole 6000 samples; at 44.1 kHz it
      is 5512.5, which is not whole. */
  lemma StepLengthExamples()
    ensures StepLength(16, 120.0, 48000.0) == 6000.0
    ensures StepLength(16, 120.0, 44100.0) == 5512.5 && !IsWhole(5512.5)
  {
    assert (5512.5).Floor == 5512;
  }

  /** The step the playhead is in: the quarter notes since the bar start, divided by
      the quarter notes per step, truncated, then reduced with C++ `%`. */
  function PlayheadStep(ppqPosition: real, barStart: real, numSteps: int): int
    requires numSteps >= 1
  {
    var ppqPerStep := 4.0 / numSteps as real;
    var currentPpq := ppqPosition - barStart;
    CppRem(Trunc(currentPpq / ppqPerStep), numSteps)
  }

  /** From the bar start on, the playhead step is the number of whole steps of
      `4 / numSteps` quarter notes since the bar start, wrapped to the grid; that is
      `floor((ppq - barStart) * numSteps / 4) mod numSteps`. */
  lemma PlayheadStepInBar(ppqPosition: real, barStart: real, numSteps: int)
    requires numSteps >= 1 && ppqPosition >= barStart
    ensures 0 <= PlayheadStep(ppqPosition, barStart, numSteps) < numSteps
    ensures PlayheadStep(ppqPosition, barStart, numSteps)
      == ((ppqPosition - barStart) / (4.0 / numSteps as real)).Floor % numSteps
    ensures PlayheadStep(ppqPosition, barStart, numSteps)
      == ((ppqPosition - barStart) * (numSteps as real) / 4.0).Floor % numSteps
  {
    PerStepQuotient(ppqPosition, barStart, numSteps as real);
  }

  /** Before the bar start the playhead step is zero or negative. */
  lemma PlayheadStepBeforeBar(ppqPosition: real, barStart: real, numSteps: int)
    requires numSteps >= 1 && ppqPosition < barStart
    ensures -numSteps < PlayheadStep(ppqPosition, barStart, numSteps) <= 0
  {
    var n := numSteps as real;
    PerStepQuotient(ppqPosition, barStart, n);
    assert (ppqPosition - barStart) / (4.0 / n) < 0.0;
  }

  /** Dividing the quarter notes since the bar start by the quarter notes per step is
      multiplying them by the steps per quarter note; the quotient is non-negative
      exactly when the position is not before the bar start. */
  lemma PerStepQuotient(ppqPosition: real, barStart: real, n: real)
    requires n > 0.0
    ensures (ppqPosition - barStart) / (4.0 / n) == (ppqPosition - barStart) * n / 4.0
    ensures ppqPosition >= barStart <==> (ppqPosition - barStart) / (4.0 / n) >= 0.0
  {
    var q := 4.0 / n;
    assert q * n == 4.0;
    calc {
      ((ppqPosition - barStart) * n / 4.0) * q;
      (ppqPosition - barStart) * (n * q) / 4.0;
      ppqPosition - barStart;
    }
  }

  // ---------------------------------------------------------------------------
  // One pass of the loop in processBlock

  /** The state of the block loop: position in the block, the sample counter, and
      the offsets at which step boundaries were reported so far. */
  datatype Walk = Walk(pos: int, counter: real, offsets: seq<int>)

  /** As written: `jmin(numSamples - samplePosition, (int)(samplesPerStep - sampleCounter))`. */
  function WrittenChunk(numSamples: int, samplesPerStep: real, pos: int, counter: real): int {
    Min(numSamples - pos, Trunc(samplesPerStep - counter))
  }

  /** As written: the boundary lies `(int)(samplesPerStep - sampleCounter)` samples ahead. */
  function WrittenStepOffset(samplesPerStep: real, counter: real): int {
    Trunc(samplesPerStep - counter)
  }

  /** One pass of the loop as written. */
  function WrittenPass(numSamples: int, samplesPerStep: real, w: Walk): Walk {
    var chunk := WrittenChunk(numSamples, samplesPerStep, w.pos, w.counter);
    if w.counter + chunk as real >= samplesPerStep then
      Walk(w.pos + chunk, 0.0, w.offsets + [w.pos + WrittenStepOffset(samplesPerStep, w.counter)])
    else
      Walk(w.pos + chunk, w.counter + chunk as real, w.offsets)
  }

  /** With 5512.5 samples per step the first pass stops half a sample short of the
      boundary; from there every pass has a zero-length chunk and changes nothing,
      so the loop never ends although the block is not finished. */
  lemma WrittenWalkStalls()
    ensures var w1 := WrittenPass(6000, 5512.5, Walk(0, 0.0, []));
      && w1 == Walk(5512, 5512.0, [])
      && w1.pos < 6000
      && WrittenPass(6000, 5512.5, w1) == w1
  {
    assert Trunc(5512.5 - 0.0) == 5512;
    assert Trunc(5512.5 - 5512.0) == 0;
  }

  /** When the counter has moved past a step length that shrank (a tempo rise), the
      chunk and the boundary offset are negative: the boundary is reported 50
      samples before the block starts, and the position moves backwards. */
  lemma WrittenWalkNegativeOffset()
    ensures WrittenPass(256, 100.0, Walk(0, 150.0, [])) == Walk(-50, 0.0, [-50])
  {
    assert Trunc(100.0 - 150.0) == -50;
  }

  /** Corrected: a counter already at or past the boundary triggers at once; otherwise
      the distance to the boundary is rounded up, so every pass makes progress. */
  function CorrectedChunk(numSamples: int, samplesPerStep: real, pos: int, counter: real): int {
    if counter >= samplesPerStep then 0 else Min(numSamples - pos, Ceil(samplesPerStep - counter))
  }

  function CorrectedStepOffset(samplesPerStep: real, counter: real): int {
    if counter >= samplesPerStep then 0 else Ceil(samplesPerStep - counter)
  }

  function CorrectedPass(numSamples: int, samplesPerStep: real, w: Walk): Walk {
    var chunk := CorrectedChunk(numSamples, samplesPerStep, w.pos, w.counter);
    if w.counter + chunk as real >= samplesPerStep then
      Walk(w.pos + chunk, 0.0, w.offsets + [w.pos + CorrectedStepOffset(samplesPerStep, w.counter)])
    else
      Walk(w.pos + chunk, w.counter + chunk as real, w.offsets)
  }

  /** What is left to do: twice the samples left, plus one while a boundary is overdue. */
  function Remaining(numSamples: int, samplesPerStep: real, w: Walk): int {
    2 * (numSamples - w.pos) + (if w.counter >= samplesPerStep then 1 else 0)
  }

  /** A corrected pass stays in the block, keeps the counter below the step length,
      reports at most one boundary, at an offset between the position and the block
      end, and strictly reduces what is left to do. */
  lemma CorrectedPassSound(numSamples: int, samplesPerStep: real, w: Walk)
    requires samplesPerStep > 0.0 && 0 <= w.pos < numSamples && 0.0 <= w.counter
    ensures var next := CorrectedPass(numSamples, samplesPerStep, w);
      && w.pos <= next.pos <= numSamples
      && 0.0 <= next.counter < samplesPerStep
      && 0 <= Remaining(numSamples, samplesPerStep, next) < Remaining(numSamples, samplesPerStep, w)
      && (next.offsets == w.offsets
          || (|next.offsets| == |w.offsets| + 1 && next.offsets[..|w.offsets|] == w.offsets
              && w.pos <= next.offsets[|w.offsets|] <= numSamples))
  {
    var chunk := CorrectedChunk(numSamples, samplesPerStep, w.pos, w.counter);
    if w.counter < samplesPerStep {
      var gap := Ceil(samplesPerStep - w.counter);
      assert gap >= 1;
      if chunk < gap {
        assert chunk as real < samplesPerStep - w.counter;
      }
    }
  }

  ghost predicate Ascending(s: seq<int>) {
    forall i, j :: 0 <= i < j < |s| ==> s[i] <= s[j]
  }

  /** The corrected loop, run until the block is finished. */
  function CorrectedWalk(numSamples: int, samplesPerStep: real, w: Walk): (last: Walk)
    requires samplesPerStep > 0.0 && 0 <= w.pos && 0.0 <= w.counter
    ensures 0.0 <= last.counter
    decreases Remaining(numSamples, samplesPerStep, w)
  {
    if w.pos >= numSamples then w
    else
      CorrectedPassSound(numSamples, samplesPerStep, w);
      CorrectedWalk(numSamples, samplesPerStep, CorrectedPass(numSamples, samplesPerStep, w))
  }

  /** The corrected loop finishes the block for every positive step length, whole or
      not, and whatever the counter; the boundaries it reports are in order, within
      the block, and after every boundary reported before it started. */
  lemma {:induction false} CorrectedWalkInBlock(numSamples: int, samplesPerStep: real, w: Walk)
    requires samplesPerStep > 0.0 && 0 <= w.pos && 0.0 <= w.counter
    requires Ascending(w.offsets) && forall i :: 0 <= i < |w.offsets| ==> w.offsets[i] <= w.pos
    ensures var last := CorrectedWalk(numSamples, samplesPerStep, w);
      && last.pos == Max(numSamples, w.pos)
      && Ascending(last.offsets)
      && |w.offsets| <= |last.offsets| && last.offsets[..|w.offsets|] == w.offsets
      && forall i :: |w.offsets| <= i < |last.offsets| ==> w.pos <= last.offsets[i] <= numSamples
    decreases Remaining(numSamples, samplesPerStep, w)
  {
    if w.pos < numSamples {
      CorrectedPassSound(numSamples, samplesPerStep, w);
      var next := CorrectedPass(numSamples, samplesPerStep, w);
      assert forall i :: 0 <= i < |next.offsets| ==> next.offsets[i] <= next.pos;
      CorrectedWalkInBlock(numSamples, samplesPerStep, next);
      var last := CorrectedWalk(numSamples, samplesPerStep, next);
      assert last == CorrectedWalk(numSamples, samplesPerStep, w);
      assert last.offsets[..|w.offsets|] == last.offsets[..|next.offsets|][..|w.offsets|];
    }
  }

  /** One pass of the block loop as written, on a whole step length and a whole counter
      below it, in a walk that has crossed `k` boundaries since a block entered `c0`
      samples into a step: the pass moves at least one sample; it reaches the boundary
      exactly when the chunk is the distance to it, and that boundary lies
      `samplesPerStep - c0 + k * samplesPerStep` samples into the block; otherwise the
      counter stays below the step length. */
  lemma WholePass(numSamples: int, samplesPerStep: int, pos: int, counter: int, c0: int, k: nat)
    requires 0 <= counter < samplesPerStep && pos < numSamples && c0 + pos == Multiple(k, samplesPerStep) + counter
    ensures var chunk := WrittenChunk(numSamples, samplesPerStep as real, pos, counter as real);
      && 1 <= chunk <= numSamples - pos
      && WrittenStepOffset(samplesPerStep as real, counter as real) == samplesPerStep - counter
      && (counter as real + chunk as real >= samplesPerStep as real <==> chunk == samplesPerStep - counter)
      && (chunk == samplesPerStep - counter ==>
            pos + chunk == samplesPerStep - c0 + Multiple(k, samplesPerStep)
            && c0 + pos + chunk == Multiple(k + 1, samplesPerStep))
      && (chunk != samplesPerStep - counter ==> counter + chunk < samplesPerStep)
  {
    ChunksAgreeOnWholeValues(numSamples, samplesPerStep, pos, counter);
    var chunk := Min(numSamples - pos, samplesPerStep - counter);
    assert counter as real + chunk as real == (counter + chunk) as real;
  }

  /** On whole step lengths and whole counters below them, the corrected pass and the
      pass as written compute the same chunk and the same boundary offset: the
      integers `min(numSamples - pos, samplesPerStep - counter)` and
      `samplesPerStep - counter`. */
  lemma ChunksAgreeOnWholeValues(numSamples: int, samplesPerStep: int, pos: int, counter: int)
    requires 0 <= counter < samplesPerStep
    ensures CorrectedChunk(numSamples, samplesPerStep as real, pos, counter as real) == Min(numSamples - pos, samplesPerStep - counter)
    ensures WrittenChunk(numSamples, samplesPerStep as real, pos, counter as real) == Min(numSamples - pos, samplesPerStep - counter)
    ensures CorrectedStepOffset(samplesPerStep as real, counter as real) == samplesPerStep - counter
    ensures WrittenStepOffset(samplesPerStep as real, counter as real) == samplesPerStep - counter
  {
    assert samplesPerStep as real - counter as real == (samplesPerStep - counter) as real;
  }
}
