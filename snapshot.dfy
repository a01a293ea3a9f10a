/** The saved state of the sequencer: a tree tagged "SequencerState" with the grid
    dimensions and the lowest note as properties and one "Note" child per active
    cell. A property that is absent reads as the default the reader supplies. */
module Snapshot {
  import opened Grid

  datatype Option<T> = None | Some(value: T) {
    /** The value, or `default` when there is none. */
    function GetOr(default: T): T {
      match this
      case Some(v) => v
      case None => default
    }
  }

  const StateTag := "SequencerState"
  const NoteTag := "Note"

  /** A child of the state tree; a "Note" child names one active cell. */
  datatype NoteNode = NoteNode(tag: string, step: Option<int>, row: Option<int>)

  datatype SequencerState = SequencerState(
    tag: string,
    numSteps: Option<int>,
    numRows: Option<int>,
    lowestNote: Option<int>,
    children: seq<NoteNode>)

  /** A child's step and row; a property without a value converts to 0. */
  function StepOf(node: NoteNode): int { node.step.GetOr(0) }
  function RowOf(node: NoteNode): int { node.row.GetOr(0) }

  function NoteAt(step: int, row: int): NoteNode {
    NoteNode(NoteTag, Some(step), Some(row))
  }

  /** The "Note" children for the active rows `0 .. upto - 1` of one column. */
  function ColumnNotes(column: seq<bool>, step: int, upto: nat): seq<NoteNode>
    requires upto <= |column|
  {
    if upto == 0 then []
    else ColumnNotes(column, step, upto - 1) + (if column[upto - 1] then [NoteAt(step, upto - 1)] else [])
  }

  /** The "Note" children for the columns `0 .. upto - 1`, column by column. */
  function GridNotes(grid: seq<seq<bool>>, numRows: nat, upto: nat): seq<NoteNode>
    requires upto <= |grid| && forall s :: 0 <= s < |grid| ==> |grid[s]| == numRows
  {
    if upto == 0 then []
    else GridNotes(grid, numRows, upto - 1) + ColumnNotes(grid[upto - 1], upto - 1, numRows)
  }

  /** `getState`: the dimensions, the lowest note and the active cells. */
  function Capture(grid: seq<seq<bool>>, numSteps: int, numRows: nat, lowestNote: int): SequencerState
    requires Shaped(grid, numSteps, numRows)
  {
    SequencerState(StateTag, Some(numSteps), Some(numRows), Some(lowestNote), GridNotes(grid, numRows, numSteps))
  }

  /** Some "Note" child names cell `(step, row)`. */
  predicate Listed(children: seq<NoteNode>, step: int, row: int) {
    exists i :: 0 <= i < |children| && children[i].tag == NoteTag && StepOf(children[i]) == step && RowOf(children[i]) == row
  }

  /** The grid a `setState` loads into a cleared grid: a cell is set exactly when a
      "Note" child names it; children of other kinds and cells outside the grid are
      ignored. */
  function RestoredGrid(numSteps: nat, numRows: nat, children: seq<NoteNode>): (grid: seq<seq<bool>>)
    ensures Shaped(grid, numSteps, numRows)
    ensures forall s, r :: 0 <= s < numSteps && 0 <= r < numRows ==> grid[s][r] == Listed(children, s, r)
  {
    seq(numSteps, s requires 0 <= s < numSteps => RestoredColumn(numRows, children, s))
  }

  function RestoredColumn(numRows: nat, children: seq<NoteNode>, s: int): (column: seq<bool>)
    ensures |column| == numRows
    ensures forall r :: 0 <= r < numRows ==> column[r] == Listed(children, s, r)
  {
    seq(numRows, r requires 0 <= r < numRows => Listed(children, s, r))
  }

  /** Step-major, then row order. */
  predicate Before(a: NoteNode, b: NoteNode) {
    StepOf(a) < StepOf(b) || (StepOf(a) == StepOf(b) && RowOf(a) < RowOf(b))
  }

  /** Every child names an active row below `upto` of the column of `step`. */
  ghost predicate NamesActiveRows(notes: seq<NoteNode>, column: seq<bool>, step: int, upto: nat)
    requires upto <= |column|
  {
    forall i :: 0 <= i < |notes| ==>
      notes[i] == NoteAt(step, RowOf(notes[i])) && 0 <= RowOf(notes[i]) < upto && column[RowOf(notes[i])]
  }

  /** Every child names an active cell of the columns below `upto`. */
  ghost predicate NamesActiveCells(notes: seq<NoteNode>, grid: seq<seq<bool>>, numRows: nat, upto: nat)
    requires upto <= |grid| && forall s :: 0 <= s < |grid| ==> |grid[s]| == numRows
  {
    forall i :: 0 <= i < |notes| ==>
      && notes[i] == NoteAt(StepOf(notes[i]), RowOf(notes[i]))
      && 0 <= StepOf(notes[i]) < upto && 0 <= RowOf(notes[i]) < numRows
      && grid[StepOf(notes[i])][RowOf(notes[i])]
  }

  /** Every active cell of the columns below `upto` has a child naming it. */
  ghost predicate ListsActiveCells(notes: seq<NoteNode>, grid: seq<seq<bool>>, numRows: nat, upto: nat)
    requires upto <= |grid| && forall s :: 0 <= s < |grid| ==> |grid[s]| == numRows
  {
    forall s, r :: 0 <= s < upto && 0 <= r < numRows && grid[s][r] ==> NoteAt(s, r) in notes
  }

  ghost predicate RowsIncrease(notes: seq<NoteNode>) {
    forall i, j :: 0 <= i < j < |notes| ==> RowOf(notes[i]) < RowOf(notes[j])
  }

  ghost predicate InStateOrder(notes: seq<NoteNode>) {
    forall i, j :: 0 <= i < j < |notes| ==> Before(notes[i], notes[j])
  }

  /** Each child written for a column names an active row below `upto`. */
  lemma {:induction false} ColumnNotesSound(column: seq<bool>, step: int, upto: nat)
    requires upto <= |column|
    ensures NamesActiveRows(ColumnNotes(column, step, upto), column, step, upto)
  {
    if upto > 0 {
      ColumnNotesSound(column, step, upto - 1);
      var before := ColumnNotes(column, step, upto - 1);
      var notes := ColumnNotes(column, step, upto);
      assert RowOf(NoteAt(step, upto - 1)) == upto - 1;
      forall i | |before| <= i < |notes| ensures notes[i] == NoteAt(step, upto - 1) {
        assert notes == before + [NoteAt(step, upto - 1)];
      }
    }
  }

  /** An active row below `upto` has its child. */
  lemma {:induction false} ColumnNotesComplete(column: seq<bool>, step: int, upto: nat, row: int)
    requires upto <= |column| && 0 <= row < upto && column[row]
    ensures NoteAt(step, row) in ColumnNotes(column, step, upto)
  {
    var before := ColumnNotes(column, step, upto - 1);
    assert ColumnNotes(column, step, upto) == before + (if column[upto - 1] then [NoteAt(step, upto - 1)] else []);
    if row < upto - 1 {
      ColumnNotesComplete(column, step, upto - 1, row);
      assert NoteAt(step, row) in before;
    }
  }

  /** The children of a column come in increasing row order. */
  lemma {:induction false} ColumnNotesOrdered(column: seq<bool>, step: int, upto: nat)
    requires upto <= |column|
    ensures RowsIncrease(ColumnNotes(column, step, upto))
  {
    if upto > 0 {
      ColumnNotesOrdered(column, step, upto - 1);
      ColumnNotesSound(column, step, upto - 1);
    }
  }

  /** Every child `getState` writes for the first `upto` columns is a "Note" naming an
      active cell of those columns. */
  lemma {:induction false} GridNotesSound(grid: seq<seq<bool>>, numRows: nat, upto: nat)
    requires upto <= |grid| && forall s :: 0 <= s < |grid| ==> |grid[s]| == numRows
    ensures NamesActiveCells(GridNotes(grid, numRows, upto), grid, numRows, upto)
  {
    if upto > 0 {
      GridNotesSound(grid, numRows, upto - 1);
      ColumnNotesSound(grid[upto - 1], upto - 1, numRows);
      var before := GridNotes(grid, numRows, upto - 1);
      var column := ColumnNotes(grid[upto - 1], upto - 1, numRows);
      assert forall i :: |before| <= i < |before + column| ==> (before + column)[i] == column[i - |before|];
    }
  }

  /** An active cell of the first `upto` columns has its "Note" child. */
  lemma {:induction false} GridNotesComplete(grid: seq<seq<bool>>, numRows: nat, upto: nat, step: int, row: int)
    requires upto <= |grid| && forall s :: 0 <= s < |grid| ==> |grid[s]| == numRows
    requires 0 <= step < upto && 0 <= row < numRows && grid[step][row]
    ensures NoteAt(step, row) in GridNotes(grid, numRows, upto)
  {
    var before := GridNotes(grid, numRows, upto - 1);
    var column := ColumnNotes(grid[upto - 1], upto - 1, numRows);
    assert GridNotes(grid, numRows, upto) == before + column;
    if step < upto - 1 {
      GridNotesComplete(grid, numRows, upto - 1, step, row);
      assert NoteAt(step, row) in before;
    } else {
      ColumnNotesComplete(grid[step], step, numRows, row);
      assert NoteAt(step, row) in column;
    }
  }

  /** The children come in step-major, then row order. */
  lemma {:induction false} GridNotesOrdered(grid: seq<seq<bool>>, numRows: nat, upto: nat)
    requires upto <= |grid| && forall s :: 0 <= s < |grid| ==> |grid[s]| == numRows
    ensures InStateOrder(GridNotes(grid, numRows, upto))
  {
    if upto > 0 {
      GridNotesOrdered(grid, numRows, upto - 1);
      GridNotesSound(grid, numRows, upto - 1);
      ColumnNotesSound(grid[upto - 1], upto - 1, numRows);
      ColumnNotesOrdered(grid[upto - 1], upto - 1, numRows);
      var before := GridNotes(grid, numRows, upto - 1);
      var column := ColumnNotes(grid[upto - 1], upto - 1, numRows);
      var notes := before + column;
      assert GridNotes(grid, numRows, upto) == notes;
      forall i, j | 0 <= i < j < |notes| ensures Before(notes[i], notes[j]) {
        if j < |before| {
          assert notes[i] == before[i] && notes[j] == before[j];
        } else if i >= |before| {
          assert notes[i] == column[i - |before|] && notes[j] == column[j - |before|];
        } else {
          assert notes[i] == before[i] && notes[j] == column[j - |before|];
        }
      }
    }
  }

  /** `getState` lists exactly the active cells of the first `upto` columns, each as a
      "Note" child with its step and row, in step-major then row order. */
  lemma GridNotesExact(grid: seq<seq<bool>>, numRows: nat, upto: nat)
    requires upto <= |grid| && forall s :: 0 <= s < |grid| ==> |grid[s]| == numRows
    ensures NamesActiveCells(GridNotes(grid, numRows, upto), grid, numRows, upto)
    ensures ListsActiveCells(GridNotes(grid, numRows, upto), grid, numRows, upto)
    ensures InStateOrder(GridNotes(grid, numRows, upto))
  {
    GridNotesSound(grid, numRows, upto);
    forall s, r | 0 <= s < upto && 0 <= r < numRows && grid[s][r] ensures NoteAt(s, r) in GridNotes(grid, numRows, upto) {
      GridNotesComplete(grid, numRows, upto, s, r);
    }
    GridNotesOrdered(grid, numRows, upto);
  }

  /** Restoring what `getState` captured gives back the dimensions, the lowest note
      and every cell of the grid. */
  lemma RestoreCapture(grid: seq<seq<bool>>, numSteps: nat, numRows: nat, lowestNote: int, fallbackSteps: int, fallbackRows: int, fallbackLowest: int)
    requires Shaped(grid, numSteps, numRows)
    ensures var state := Capture(grid, numSteps, numRows, lowestNote);
      && state.tag == StateTag
      && state.numSteps.GetOr(fallbackSteps) == numSteps
      && state.numRows.GetOr(fallbackRows) == numRows
      && state.lowestNote.GetOr(fallbackLowest) == lowestNote
      && RestoredGrid(numSteps, numRows, state.children) == grid
  {
    var notes := GridNotes(grid, numRows, numSteps);
    GridNotesExact(grid, numRows, numSteps);
    var restored := RestoredGrid(numSteps, numRows, notes);
    forall s | 0 <= s < numSteps ensures restored[s] == grid[s] {
      forall r | 0 <= r < numRows ensures restored[s][r] == grid[s][r] {
        if grid[s][r] {
          var i :| 0 <= i < |notes| && notes[i] == NoteAt(s, r);
        }
      }
    }
  }

  /** Taking one more child into account adds exactly the cell that child names. */
  lemma ListedExtend(children: seq<NoteNode>, i: int, step: int, row: int)
    requires 0 <= i < |children|
    ensures Listed(children[..i + 1], step, row) <==>
      Listed(children[..i], step, row)
      || (children[i].tag == NoteTag && StepOf(children[i]) == step && RowOf(children[i]) == row)
  {
    var longer := children[..i + 1];
    assert forall j :: 0 <= j < i ==> longer[j] == children[..i][j];
    assert longer[i] == children[i];
  }

  /** A grid of the restored shape whose cells are exactly the listed ones is the restored grid. */
  lemma RestoredGridUnique(grid: seq<seq<bool>>, numSteps: nat, numRows: nat, children: seq<NoteNode>)
    requires Shaped(grid, numSteps, numRows)
    requires forall s, r :: 0 <= s < numSteps && 0 <= r < numRows ==> grid[s][r] == Listed(children, s, r)
    ensures grid == RestoredGrid(numSteps, numRows, children)
  {
    var restored := RestoredGrid(numSteps, numRows, children);
    forall s | 0 <= s < numSteps ensures grid[s] == restored[s] {
      assert forall r :: 0 <= r < numRows ==> grid[s][r] == restored[s][r];
    }
  }
}
