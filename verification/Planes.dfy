/** Sample grids inside byte buffers, and the copy loop between two of them.

    Every untiled pixel layout is a grid: sample (i, j) lies at a fixed offset plus `i` row
    steps and `j` column steps. The rotations and the format conversions are copies between
    grids whose steps differ, and may be negative. */
module Planes {

  type Byte = x: int | 0 <= x < 256

  datatype Grid = Grid(off: int, row: int, col: int)

  function At(g: Grid, i: int, j: int): int {
    g.off + i * g.row + j * g.col
  }

  function Blocks16(n: nat): (b: nat)
    ensures n <= 16 * b < n + 16
  {
    (n + 15) / 16
  }

  function Align16(n: nat): nat {
    16 * Blocks16(n)
  }

  ghost predicate Inside(g: Grid, rows: nat, cols: nat, lo: int, hi: int) {
    forall i, j :: 0 <= i < rows && 0 <= j < cols ==> lo <= At(g, i, j) < hi
  }

  /** No two samples share a byte. */
  ghost predicate Injective(g: Grid, rows: nat, cols: nat) {
    forall i, j, i', j' ::
      0 <= i < rows && 0 <= j < cols && 0 <= i' < rows && 0 <= j' < cols && At(g, i, j) == At(g, i', j') ==>
      i == i' && j == j'
  }

  /** Byte `x` holds a sample of the grid. */
  ghost predicate Hits(g: Grid, rows: nat, cols: nat, x: int) {
    exists i, j :: 0 <= i < rows && 0 <= j < cols && At(g, i, j) == x
  }

  /** Copies a grid of samples onto another one and leaves every other byte alone. */
  method CopySamples(src: array<Byte>, s: Grid, dst: array<Byte>, d: Grid, rows: nat, cols: nat)
    requires src != dst
    requires Inside(s, rows, cols, 0, src.Length) && Inside(d, rows, cols, 0, dst.Length)
    requires Injective(d, rows, cols)
    modifies dst
    ensures forall i, j :: 0 <= i < rows && 0 <= j < cols ==> dst[At(d, i, j)] == src[At(s, i, j)]
    ensures forall x :: 0 <= x < dst.Length && !Hits(d, rows, cols, x) ==> dst[x] == old(dst[x])
  {
    for i := 0 to rows
      invariant forall a, b :: 0 <= a < i && 0 <= b < cols ==> dst[At(d, a, b)] == src[At(s, a, b)]
      invariant forall x :: 0 <= x < dst.Length && !Hits(d, rows, cols, x) ==> dst[x] == old(dst[x])
    {
      for j := 0 to cols
        invariant forall a, b :: 0 <= a < i && 0 <= b < cols ==> dst[At(d, a, b)] == src[At(s, a, b)]
        invariant forall b :: 0 <= b < j ==> dst[At(d, i, b)] == src[At(s, i, b)]
        invariant forall x :: 0 <= x < dst.Length && !Hits(d, rows, cols, x) ==> dst[x] == old(dst[x])
      {
        dst[At(d, i, j)] := src[At(s, i, j)];
      }
    }
  }

  // ---------------------------------------------------------------- ordinary planes

  lemma MulMonotone(a: int, b: int, f: int)
    requires a <= b && 0 <= f
    ensures a * f <= b * f
  {
  }

  /** Rows that do not overlap: the samples stay in their rows and are distinct. */
  lemma PlaneBounds(g: Grid, rows: nat, cols: nat)
    requires 0 < g.col && (cols as int - 1) * g.col < g.row
    ensures Inside(g, rows, cols, g.off, g.off + (rows - 1) * g.row + (cols - 1) * g.col + 1)
  {
    forall i, j | 0 <= i < rows && 0 <= j < cols
      ensures g.off <= At(g, i, j) < g.off + (rows - 1) * g.row + (cols - 1) * g.col + 1
    {
      MulMonotone(0, j, g.col);
      MulMonotone(j, cols - 1, g.col);
      MulMonotone(0, i, g.row);
      MulMonotone(i, rows - 1, g.row);
    }
  }

  lemma PlaneInjective(g: Grid, rows: nat, cols: nat)
    requires 0 < g.col && (cols as int - 1) * g.col < g.row
    ensures Injective(g, rows, cols)
  {
    forall i, j, i', j' |
      0 <= i < rows && 0 <= j < cols && 0 <= i' < rows && 0 <= j' < cols && At(g, i, j) == At(g, i', j')
      ensures i == i' && j == j'
    {
      SameSample(g, cols, i, j, i', j');
    }
  }

  lemma SameSample(g: Grid, cols: nat, i: int, j: int, i': int, j': int)
    requires 0 < g.col && (cols as int - 1) * g.col < g.row
    requires 0 <= j < cols && 0 <= j' < cols && At(g, i, j) == At(g, i', j')
    ensures i == i' && j == j'
  {
    LaterRowIsHigher(g, cols, i, j, i', j');
    LaterRowIsHigher(g, cols, i', j', i, j);
    if j < j' {
      MulMonotone(j + 1, j', g.col);
      assert false;
    } else if j' < j {
      MulMonotone(j' + 1, j, g.col);
      assert false;
    }
  }

  lemma LaterRowIsHigher(g: Grid, cols: nat, i: int, j: int, i': int, j': int)
    requires 0 < g.col && (cols as int - 1) * g.col < g.row
    requires 0 <= j < cols && 0 <= j' < cols
    ensures i < i' ==> At(g, i, j) < At(g, i', j')
  {
    MulMonotone(0, j', g.col);
    MulMonotone(j, cols - 1, g.col);
    if i < i' {
      MulMonotone(i + 1, i', g.row);
    }
  }
}
