/** The step-by-row boolean grid as a value: `grid[step][row]`, with the resizing
    behaviour of `std::vector<std::vector<bool>>`. */
module Grid {
  /** `numSteps` columns of `numRows` cells each. */
  predicate Shaped(grid: seq<seq<bool>>, numSteps: int, numRows: int) {
    |grid| == numSteps && forall s :: 0 <= s < |grid| ==> |grid[s]| == numRows
  }

  function Falses(n: nat): (column: seq<bool>)
    ensures |column| == n
    ensures forall r :: 0 <= r < n ==> !column[r]
  {
    seq(n, _ => false)
  }

  /** `column.resize(rows, false)`: keeps the first `rows` cells, pads with false. */
  function Fit(column: seq<bool>, rows: nat): (fitted: seq<bool>)
    ensures |fitted| == rows
    ensures forall r :: 0 <= r < rows ==> fitted[r] == (r < |column| && column[r])
  {
    if |column| >= rows then column[..rows] else column + Falses(rows - |column|)
  }

  /** `grid.resize(steps)` followed by `column.resize(rows, false)` on every column:
      the overlap keeps its cells, everything new is false. */
  function Reshape(grid: seq<seq<bool>>, steps: nat, rows: nat): (reshaped: seq<seq<bool>>)
    ensures Shaped(reshaped, steps, rows)
    ensures forall s, r :: 0 <= s < steps && 0 <= r < rows ==>
      reshaped[s][r] == (s < |grid| && r < |grid[s]| && grid[s][r])
  {
    seq(steps, s requires 0 <= s < steps => ReshapedColumn(grid, s, rows))
  }

  function ReshapedColumn(grid: seq<seq<bool>>, s: nat, rows: nat): (column: seq<bool>)
    ensures |column| == rows
    ensures forall r :: 0 <= r < rows ==> column[r] == (s < |grid| && r < |grid[s]| && grid[s][r])
  {
    Fit(if s < |grid| then grid[s] else [], rows)
  }

  /** Every cell false. */
  predicate AllClear(grid: seq<seq<bool>>) {
    forall s, r :: 0 <= s < |grid| && 0 <= r < |grid[s]| ==> !grid[s][r]
  }

  /** Reshaping an all-false grid gives an all-false grid. */
  lemma ReshapeClear(grid: seq<seq<bool>>, steps: nat, rows: nat)
    requires AllClear(grid)
    ensures AllClear(Reshape(grid, steps, rows))
  {
  }

  /** A reshape to the grid's own dimensions changes nothing. */
  lemma ReshapeSameShape(grid: seq<seq<bool>>, steps: nat, rows: nat)
    requires Shaped(grid, steps, rows)
    ensures Reshape(grid, steps, rows) == grid
  {
    var reshaped := Reshape(grid, steps, rows);
    forall s | 0 <= s < steps ensures reshaped[s] == grid[s] {
      assert forall r :: 0 <= r < rows ==> reshaped[s][r] == grid[s][r];
    }
  }
}
