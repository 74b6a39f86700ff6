/**
 * The home page's Game of Life: a toroidal grid of cells stored row by row in one flat sequence,
 * advanced one generation at a time by the B3/S23 rule.
 */
module Life {
  datatype Cell = Dead | Alive

  /** `cell as u8`: dead counts 0, alive counts 1. */
  function Weight(c: Cell): nat
  {
    if c == Alive then 1 else 0
  }

  datatype Universe = Universe(width: nat, height: nat, cells: seq<Cell>)

  /** The grid holds exactly one cell per (row, column). */
  predicate Valid(u: Universe)
  {
    |u.cells| == u.width * u.height
  }

  lemma IdxBound(width: nat, height: nat, row: nat, col: nat)
    requires row < height && col < width
    ensures row * width + col < width * height
  {
    assert row * width + col < row * width + width == (row + 1) * width;
    assert (row + 1) * width <= height * width;
  }

  /** `get_idx`: row-major position of (row, col). */
  function GetIdx(u: Universe, row: nat, col: nat): (i: nat)
    ensures row < u.height && col < u.width ==> i < u.width * u.height
    ensures col < u.width ==> i / u.width == row && i % u.width == col
  {
    IdxFacts(u, row, col);
    row * u.width + col
  }

  lemma IdxFacts(u: Universe, row: nat, col: nat)
    ensures row < u.height && col < u.width ==> row * u.width + col < u.width * u.height
    ensures col < u.width ==> (row * u.width + col) / u.width == row && (row * u.width + col) % u.width == col
  {
    if row < u.height && col < u.width {
      IdxBound(u.width, u.height, row, col);
    }
    if col < u.width {
      IdxDivMod(u.width, row, col);
    }
  }

  lemma IdxDivMod(width: nat, row: nat, col: nat)
    requires col < width
    ensures (row * width + col) / width == row && (row * width + col) % width == col
  {
    DivModUnique(row * width + col, width, row, col);
  }

  /** Euclidean division is unique: `x = q * n + r` with `0 <= r < n` fixes the quotient and remainder. */
  lemma DivModUnique(x: int, n: int, q: int, r: int)
    requires n > 0 && 0 <= r < n && x == q * n + r
    ensures x / n == q && x % n == r
  {
    var q', r' := x / n, x % n;
    assert x == q' * n + r';
    MulStep(q, n);
    MulStep(q', n);
    if q' > q {
      MulMono(q + 1, q', n);
    } else if q' < q {
      MulMono(q' + 1, q, n);
    }
  }

  lemma MulStep(a: int, n: int)
    ensures (a + 1) * n == a * n + n
  {
  }

  lemma MulMono(a: int, b: int, n: int)
    requires a <= b && n >= 0
    ensures a * n <= b * n
  {
    assert b * n - a * n == (b - a) * n;
  }

  /** Distinct (row, column) pairs of the grid have distinct positions. */
  lemma IdxInjective(u: Universe, r1: nat, c1: nat, r2: nat, c2: nat)
    requires c1 < u.width && c2 < u.width
    ensures GetIdx(u, r1, c1) == GetIdx(u, r2, c2) <==> r1 == r2 && c1 == c2
  {
  }

  /** The cell at (r mod height, c mod width), for any integer row and column. */
  function CellAt(u: Universe, r: int, c: int): nat
    requires Valid(u) && u.width >= 1 && u.height >= 1
  {
    Weight(u.cells[GetIdx(u, r % u.height, c % u.width)])
  }

  /** The neighbour at offset (dr, dc); the offset (0, 0) is the cell itself and counts nothing. */
  function Term(u: Universe, row: nat, col: nat, dr: int, dc: int): nat
    requires Valid(u) && u.width >= 1 && u.height >= 1
  {
    if dr == 0 && dc == 0 then 0 else CellAt(u, row + dr, col + dc)
  }

  function RowSum(u: Universe, row: nat, col: nat, dr: int, dcs: seq<int>): nat
    requires Valid(u) && u.width >= 1 && u.height >= 1
    decreases |dcs|
  {
    if |dcs| == 0 then 0 else RowSum(u, row, col, dr, dcs[..|dcs| - 1]) + Term(u, row, col, dr, dcs[|dcs| - 1])
  }

  function GridSum(u: Universe, row: nat, col: nat, drs: seq<int>, dcs: seq<int>): nat
    requires Valid(u) && u.width >= 1 && u.height >= 1
    decreases |drs|
  {
    if |drs| == 0 then 0 else GridSum(u, row, col, drs[..|drs| - 1], dcs) + RowSum(u, row, col, drs[|drs| - 1], dcs)
  }

  /** The offsets the code walks: `n - 1` stands for -1 modulo `n`. */
  function Offsets(n: nat): seq<int>
    requires n >= 1
  {
    [n - 1, 0, 1]
  }

  /** The true toroidal offsets. */
  const Deltas: seq<int> := [-1, 0, 1]

  /** The neighbour count as the code computes it. */
  function CodeCount(u: Universe, row: nat, col: nat): nat
    requires Valid(u) && u.width >= 1 && u.height >= 1
  {
    GridSum(u, row, col, Offsets(u.height), Offsets(u.width))
  }

  /** The number of live cells among the eight cells around (row, col) on the torus. */
  function NeighbourCount(u: Universe, row: nat, col: nat): nat
    requires Valid(u) && u.width >= 1 && u.height >= 1
  {
    GridSum(u, row, col, Deltas, Deltas)
  }

  lemma RowSumOfThree(u: Universe, row: nat, col: nat, dr: int, dcs: seq<int>)
    requires Valid(u) && u.width >= 1 && u.height >= 1 && |dcs| == 3
    ensures RowSum(u, row, col, dr, dcs)
         == Term(u, row, col, dr, dcs[0]) + Term(u, row, col, dr, dcs[1]) + Term(u, row, col, dr, dcs[2])
  {
    assert dcs[..2][..1] == dcs[..1] && dcs[..1][..0] == [];
    assert RowSum(u, row, col, dr, dcs[..1]) == Term(u, row, col, dr, dcs[0]);
    assert RowSum(u, row, col, dr, dcs[..2]) == RowSum(u, row, col, dr, dcs[..1]) + Term(u, row, col, dr, dcs[1]);
    assert dcs[..3] == dcs;
  }

  lemma GridSumOfThree(u: Universe, row: nat, col: nat, drs: seq<int>, dcs: seq<int>)
    requires Valid(u) && u.width >= 1 && u.height >= 1 && |drs| == 3
    ensures GridSum(u, row, col, drs, dcs)
         == RowSum(u, row, col, drs[0], dcs) + RowSum(u, row, col, drs[1], dcs) + RowSum(u, row, col, drs[2], dcs)
  {
    assert drs[..2][..1] == drs[..1] && drs[..1][..0] == [];
    assert GridSum(u, row, col, drs[..1], dcs) == RowSum(u, row, col, drs[0], dcs);
    assert GridSum(u, row, col, drs[..2], dcs) == GridSum(u, row, col, drs[..1], dcs) + RowSum(u, row, col, drs[1], dcs);
    assert drs[..3] == drs;
  }

  /** Three offsets with 0 in the middle never count more than eight neighbours. */
  lemma {:induction false} AtMostEight(u: Universe, row: nat, col: nat, drs: seq<int>, dcs: seq<int>)
    requires Valid(u) && u.width >= 1 && u.height >= 1
    requires |drs| == 3 && |dcs| == 3 && drs[1] == 0 && dcs[1] == 0
    ensures GridSum(u, row, col, drs, dcs) <= 8
  {
    GridSumOfThree(u, row, col, drs, dcs);
    RowAtMost(u, row, col, drs[0], dcs);
    RowAtMost(u, row, col, drs[1], dcs);
    RowAtMost(u, row, col, drs[2], dcs);
  }

  /** One row of three offsets counts at most three cells, and at most two in the cell's own row. */
  lemma RowAtMost(u: Universe, row: nat, col: nat, dr: int, dcs: seq<int>)
    requires Valid(u) && u.width >= 1 && u.height >= 1
    requires |dcs| == 3 && dcs[1] == 0
    ensures RowSum(u, row, col, dr, dcs) <= if dr == 0 then 2 else 3
  {
    RowSumOfThree(u, row, col, dr, dcs);
    assert Term(u, row, col, dr, dcs[0]) <= 1;
    assert Term(u, row, col, dr, dcs[1]) <= if dr == 0 then 0 else 1;
    assert Term(u, row, col, dr, dcs[2]) <= 1;
  }

  /**
   * On a grid at least two cells wide and high the code's count is the toroidal neighbour count:
   * `n - 1` and -1 pick the same row or column modulo `n`.
   */
  lemma {:induction false} CodeCountIsNeighbourCount(u: Universe, row: nat, col: nat)
    requires Valid(u) && u.width >= 2 && u.height >= 2
    ensures CodeCount(u, row, col) == NeighbourCount(u, row, col)
  {
    var h, w := u.height, u.width;
    var oh := Offsets(h);
    assert (row + (h - 1)) % h == (row + -1) % h by { ShiftByModulus(row - 1, h); }
    GridSumOfThree(u, row, col, oh, Offsets(w));
    GridSumOfThree(u, row, col, Deltas, Deltas);
    RowsAgree(u, row, col, oh[0], Deltas[0]);
    RowsAgree(u, row, col, oh[1], Deltas[1]);
    RowsAgree(u, row, col, oh[2], Deltas[2]);
  }

  /** Two row offsets that pick the same row give the same row sum, walked with the code's column offsets. */
  lemma RowsAgree(u: Universe, row: nat, col: nat, dr: int, er: int)
    requires Valid(u) && u.width >= 2 && u.height >= 1
    requires (row + dr) % u.height == (row + er) % u.height && (dr == 0 <==> er == 0)
    ensures RowSum(u, row, col, dr, Offsets(u.width)) == RowSum(u, row, col, er, Deltas)
  {
    var w := u.width;
    var ow := Offsets(w);
    assert (col + (w - 1)) % w == (col + -1) % w by { ShiftByModulus(col - 1, w); }
    RowSumOfThree(u, row, col, dr, ow);
    RowSumOfThree(u, row, col, er, Deltas);
    assert Term(u, row, col, dr, ow[0]) == Term(u, row, col, er, Deltas[0]);
    assert Term(u, row, col, dr, ow[1]) == Term(u, row, col, er, Deltas[1]);
    assert Term(u, row, col, dr, ow[2]) == Term(u, row, col, er, Deltas[2]);
  }

  lemma ShiftByModulus(x: int, n: nat)
    requires n >= 1
    ensures (x + n) % n == x % n
  {
    var q, r := x / n, x % n;
    assert x + n == (q + 1) * n + r;
    DivModUnique(x + n, n, q + 1, r);
  }

  /**
   * `live_neighbor_count`: walk the offsets `[n - 1, 0, 1]` in both directions, skip the cell itself
   * and add up the live neighbours. At most eight, so the `u8` never overflows.
   */
  method LiveNeighborCount(u: Universe, row: nat, col: nat) returns (count: nat)
    requires Valid(u) && u.width >= 1 && u.height >= 1
    ensures count == CodeCount(u, row, col)
    ensures count <= 8
    ensures u.width >= 2 && u.height >= 2 ==> count == NeighbourCount(u, row, col)
  {
    var drs, dcs := Offsets(u.height), Offsets(u.width);
    count := 0;
    var i := 0;
    while i < 3
      invariant 0 <= i <= 3
      invariant count == GridSum(u, row, col, drs[..i], dcs)
    {
      var s := RowCount(u, row, col, drs[i], dcs);
      count := count + s;
      assert drs[..i + 1][..i] == drs[..i];
      i := i + 1;
    }
    assert drs[..3] == drs;
    AtMostEight(u, row, col, drs, dcs);
    if u.width >= 2 && u.height >= 2 {
      CodeCountIsNeighbourCount(u, row, col);
    }
  }

  /** The inner loop of `live_neighbor_count`: the live cells of one row offset, the cell itself skipped. */
  method RowCount(u: Universe, row: nat, col: nat, dr: int, dcs: seq<int>) returns (count: nat)
    requires Valid(u) && u.width >= 1 && u.height >= 1
    ensures count == RowSum(u, row, col, dr, dcs)
  {
    count := 0;
    var j := 0;
    while j < |dcs|
      invariant 0 <= j <= |dcs|
      invariant count == RowSum(u, row, col, dr, dcs[..j])
    {
      if !(dr == 0 && dcs[j] == 0) {
        var r := (dr + row) % u.height;
        var c := (dcs[j] + col) % u.width;
        count := count + Weight(u.cells[GetIdx(u, r, c)]);
      }
      assert dcs[..j + 1][..j] == dcs[..j];
      j := j + 1;
    }
    assert dcs[..|dcs|] == dcs;
  }

  /**
   * The `match` in `tick`, which is the B3/S23 rule: a cell is alive next exactly when three neighbours
   * live, or two live and the cell itself is alive.
   */
  function Rule(c: Cell, n: nat): (next: Cell)
    ensures next == Alive <==> n == 3 || (c == Alive && n == 2)
  {
    if c == Alive && n < 2 then Dead
    else if c == Alive && (n == 2 || n == 3) then Alive
    else if c == Alive && n > 3 then Dead
    else if c == Dead && n == 3 then Alive
    else assert c.Dead? && n != 3; c
  }

  /** The cells before (row, col) in row-major order hold the next generation. */
  predicate UpdatedBefore(u: Universe, cells: seq<Cell>, row: nat, col: nat)
    requires Valid(u) && |cells| == |u.cells|
  {
    forall r: nat, c: nat :: r < u.height && c < u.width && (r < row || (r == row && c < col)) ==>
      cells[GetIdx(u, r, c)] == Rule(u.cells[GetIdx(u, r, c)], CodeCount(u, r, c))
  }

  /** The cells from (row, col) on in row-major order still hold the current generation. */
  predicate UntouchedFrom(u: Universe, cells: seq<Cell>, row: nat, col: nat)
    requires Valid(u) && |cells| == |u.cells|
  {
    forall r: nat, c: nat :: r < u.height && c < u.width && (row < r || (r == row && col <= c)) ==>
      cells[GetIdx(u, r, c)] == u.cells[GetIdx(u, r, c)]
  }

  /** Writing the next state of (row, col) moves the boundary one cell on. */
  lemma StepCell(u: Universe, cells: seq<Cell>, row: nat, col: nat)
    requires Valid(u) && |cells| == |u.cells| && row < u.height && col < u.width
    ensures GetIdx(u, row, col) < |cells|
    ensures var next := cells[GetIdx(u, row, col) := Rule(u.cells[GetIdx(u, row, col)], CodeCount(u, row, col))];
            UpdatedBefore(u, cells, row, col) && UntouchedFrom(u, cells, row, col)
            ==> UpdatedBefore(u, next, row, col + 1) && UntouchedFrom(u, next, row, col + 1)
  {
    var idx := GetIdx(u, row, col);
    forall r: nat, c: nat | c < u.width && (r != row || c != col)
      ensures GetIdx(u, r, c) != idx
    {
      IdxInjective(u, r, c, row, col);
    }
  }

  /** A finished row is the same boundary as the start of the next one. */
  lemma StepRow(u: Universe, cells: seq<Cell>, row: nat)
    requires Valid(u) && |cells| == |u.cells|
    requires UpdatedBefore(u, cells, row, u.width) && UntouchedFrom(u, cells, row, u.width)
    ensures UpdatedBefore(u, cells, row + 1, 0) && UntouchedFrom(u, cells, row + 1, 0)
  {
  }

  /** One row of `tick`: the inner loop over the columns. */
  method TickRow(u: Universe, row: nat, before: seq<Cell>) returns (cells: seq<Cell>)
    requires Valid(u) && row < u.height && |before| == |u.cells|
    requires UpdatedBefore(u, before, row, 0) && UntouchedFrom(u, before, row, 0)
    ensures |cells| == |u.cells|
    ensures UpdatedBefore(u, cells, row + 1, 0) && UntouchedFrom(u, cells, row + 1, 0)
  {
    cells := before;
    var col := 0;
    while col < u.width
      invariant 0 <= col <= u.width
      invariant |cells| == |u.cells|
      invariant UpdatedBefore(u, cells, row, col) && UntouchedFrom(u, cells, row, col)
    {
      var n := LiveNeighborCount(u, row, col);
      StepCell(u, cells, row, col);
      var idx := GetIdx(u, row, col);
      cells := cells[idx := Rule(u.cells[idx], n)];
      col := col + 1;
    }
    StepRow(u, cells, row);
  }

  /**
   * `tick`: every cell of the next generation follows the rule applied to the current generation,
   * which is only read; the dimensions and the number of cells are kept.
   */
  method Tick(u: Universe) returns (next: Universe)
    requires Valid(u)
    ensures next.width == u.width && next.height == u.height && Valid(next)
    ensures forall r: nat, c: nat :: r < u.height && c < u.width ==>
              next.cells[GetIdx(u, r, c)] == Rule(u.cells[GetIdx(u, r, c)], CodeCount(u, r, c))
  {
    var cells := u.cells;
    var row := 0;
    while row < u.height
      invariant 0 <= row <= u.height
      invariant |cells| == |u.cells|
      invariant UpdatedBefore(u, cells, row, 0) && UntouchedFrom(u, cells, row, 0)
    {
      cells := TickRow(u, row, cells);
      row := row + 1;
    }
    next := Universe(u.width, u.height, cells);
  }

  /** `new`: a 128 by 64 grid whose cell i is alive exactly when i is a multiple of 2 or of 7. */
  function New(): (u: Universe)
    ensures Valid(u) && u.width == 128 && u.height == 64
    ensures forall i :: 0 <= i < |u.cells| ==> (u.cells[i] == Alive <==> i % 2 == 0 || i % 7 == 0)
  {
    Universe(128, 64, seq(128 * 64, i => if i % 2 == 0 || i % 7 == 0 then Alive else Dead))
  }

  /** In the first generation every even column is alive, the width being even. */
  lemma NewEvenColumnsAlive(row: nat, col: nat)
    requires row < 64 && col < 128 && col % 2 == 0
    ensures New().cells[GetIdx(New(), row, col)] == Alive
  {
    var i := GetIdx(New(), row, col);
    assert i == 2 * (row * 64) + col;
  }

  const U32Limit: nat := 0x1_0000_0000

  /** `width()`: the width as a `u32`, truncated like `as u32`. */
  function Width(u: Universe): (w: nat)
    ensures w < U32Limit
    ensures u.width < U32Limit ==> w == u.width
  {
    u.width % U32Limit
  }

  /** `height()`: the height as a `u32`, truncated like `as u32`. */
  function Height(u: Universe): (h: nat)
    ensures h < U32Limit
    ensures u.height < U32Limit ==> h == u.height
  {
    u.height % U32Limit
  }
}
