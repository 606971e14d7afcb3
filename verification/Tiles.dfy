/** The 32-by-32 tiled layout of decoded pictures, and the loops that untile it. */
module Tiles {
  import opened Planes

  /** Bytes of one tile. */
  const TILE := 1024

  /** Tiles needed for `n` bytes or lines. */
  function TilesFor(n: nat): (r: nat)
    ensures 32 * r >= n && (n > 0 ==> 32 * r < n + 32)
  {
    (n + 31) / 32
  }

  /** Where byte `col` of line `line` lies in a tiled buffer that is `width` tiles wide. */
  function Cell(width: nat, line: nat, col: nat): nat {
    (line / 32 * width + col / 32) * TILE + line % 32 * 32 + col % 32
  }

  lemma CellInTile(width: nat, ti: nat, tj: nat, t: nat, u: nat)
    requires t < 32 && u < 32
    ensures Cell(width, 32 * ti + t, 32 * tj + u) == (ti * width + tj) * TILE + 32 * t + u
  {
    assert (32 * ti + t) / 32 == ti && (32 * ti + t) % 32 == t;
    assert (32 * tj + u) / 32 == tj && (32 * tj + u) % 32 == u;
  }

  lemma TileInBuffer(width: nat, height: nat, ti: nat, tj: nat)
    requires ti < height && tj < width
    ensures (ti * width + tj) * TILE + TILE <= width * height * TILE
  {
    MulMonotone(ti + 1, height, width);
  }

  /** How the samples of one component lie in the tiles: `lane` and `step` select the bytes
      of a line, and every `skip`-th line is used. */
  datatype Lane = Lane(lane: nat, step: nat, skip: nat)

  ghost predicate LaneOk(p: Lane) {
    (p.step == 1 || p.step == 2) && (p.skip == 1 || p.skip == 2) && p.lane < p.step
  }

  function Sample(p: Lane, width: nat, i: nat, j: nat): nat {
    Cell(width, i * p.skip, j * p.step + p.lane)
  }

  /** Copies up to `n` samples of one line of a tile, stopping at the right border of the
      target. `from` is the index map of the whole plane. */
  method CopyTileLine(src: array<Byte>, ptr: nat, dst: array<Byte>, d: Grid, i: nat, c0: nat, n: nat,
                      rows: nat, cols: nat, p: Lane, ghost from: (int, int) -> int)
    requires src != dst && i < rows && Inside(d, rows, cols, 0, dst.Length) && Injective(d, rows, cols)
    requires LaneOk(p) && n * p.step == 32 && ptr + 32 <= src.Length
    requires forall j :: c0 <= j < c0 + n && j < cols ==> from(i, j) == ptr + (j - c0) * p.step + p.lane
    modifies dst
    ensures forall j :: c0 <= j < c0 + n && j < cols ==>
              0 <= from(i, j) < src.Length && dst[At(d, i, j)] == src[from(i, j)]
    ensures forall a, b :: 0 <= a < rows && 0 <= b < cols && !(a == i && c0 <= b < c0 + n) ==>
              dst[At(d, a, b)] == old(dst[At(d, a, b)])
    ensures forall x :: 0 <= x < dst.Length && !Hits(d, rows, cols, x) ==> dst[x] == old(dst[x])
  {
    var k := 0;
    while k < n
      invariant 0 <= k <= n
      invariant forall j :: c0 <= j < c0 + k && j < cols ==>
                  0 <= from(i, j) < src.Length && dst[At(d, i, j)] == src[from(i, j)]
      invariant forall a, b :: 0 <= a < rows && 0 <= b < cols && !(a == i && c0 <= b < c0 + k) ==>
                  dst[At(d, a, b)] == old(dst[At(d, a, b)])
      invariant forall x :: 0 <= x < dst.Length && !Hits(d, rows, cols, x) ==> dst[x] == old(dst[x])
    {
      if c0 + k >= cols { break; }
      assert from(i, c0 + k) == ptr + k * p.step + p.lane;
      dst[At(d, i, c0 + k)] := src[ptr + k * p.step + p.lane];
      k := k + 1;
    }
  }

  /** Copies one tile, skipping the lines below the bottom border of the target. */
  method CopyTile(src: array<Byte>, tile: nat, dst: array<Byte>, d: Grid, l0: nat, c0: nat, lines: nat, n: nat,
                  rows: nat, cols: nat, p: Lane, ghost from: (int, int) -> int) returns (ptr: nat)
    requires src != dst && Inside(d, rows, cols, 0, dst.Length) && Injective(d, rows, cols)
    requires LaneOk(p) && n * p.step == 32 && lines * p.skip == 32 && tile + TILE <= src.Length
    requires forall i, j :: l0 <= i < l0 + lines && i < rows && c0 <= j < c0 + n && j < cols ==>
               from(i, j) == tile + (i - l0) * (32 * p.skip) + (j - c0) * p.step + p.lane
    modifies dst
    ensures ptr == tile + TILE
    ensures forall i, j :: l0 <= i < l0 + lines && i < rows && c0 <= j < c0 + n && j < cols ==>
              0 <= from(i, j) < src.Length && dst[At(d, i, j)] == src[from(i, j)]
    ensures forall a, b :: 0 <= a < rows && 0 <= b < cols && !(l0 <= a < l0 + lines && c0 <= b < c0 + n) ==>
              dst[At(d, a, b)] == old(dst[At(d, a, b)])
    ensures forall x :: 0 <= x < dst.Length && !Hits(d, rows, cols, x) ==> dst[x] == old(dst[x])
  {
    ptr := tile;
    for m := 0 to lines
      invariant ptr == tile + m * (32 * p.skip)
      invariant forall i, j :: l0 <= i < l0 + m && i < rows && c0 <= j < c0 + n && j < cols ==>
                  0 <= from(i, j) < src.Length && dst[At(d, i, j)] == src[from(i, j)]
      invariant forall a, b :: 0 <= a < rows && 0 <= b < cols && !(l0 <= a < l0 + m && c0 <= b < c0 + n) ==>
                  dst[At(d, a, b)] == old(dst[At(d, a, b)])
      invariant forall x :: 0 <= x < dst.Length && !Hits(d, rows, cols, x) ==> dst[x] == old(dst[x])
    {
      if l0 + m < rows {
        CopyTileLine(src, ptr, dst, d, l0 + m, c0, n, rows, cols, p, from);
      }
      ptr := ptr + 32 * p.skip;
    }
  }

  lemma SampleInTile(p: Lane, width: nat, ti: nat, tj: nat, l0: nat, c0: nat, i: nat, j: nat)
    requires LaneOk(p) && l0 * p.skip == 32 * ti && c0 * p.step == 32 * tj
    requires l0 <= i && (i - l0) * p.skip < 32 && c0 <= j && (j - c0) * p.step < 32
    ensures Sample(p, width, i, j) == (ti * width + tj) * TILE + (i - l0) * (32 * p.skip) + (j - c0) * p.step + p.lane
  {
    var t, u := (i - l0) * p.skip, (j - c0) * p.step + p.lane;
    assert i * p.skip == 32 * ti + t && j * p.step + p.lane == 32 * tj + u;
    CellInTile(width, ti, tj, t, u);
  }

  /** `from` maps the samples of tile `tj` of a row of tiles, which starts at byte `start`
      and at line `l0`, to their bytes. */
  ghost predicate MapsTile(from: (int, int) -> int, p: Lane, start: nat, l0: nat, lines: nat, n: nat, rows: nat,
                           cols: nat, tj: nat)
  {
    forall i, j :: l0 <= i < l0 + lines && i < rows && tj * n <= j < tj * n + n && j < cols ==>
      from(i, j) == start + tj * TILE + (i - l0) * (32 * p.skip) + (j - tj * n) * p.step + p.lane
  }

  lemma SampleMapsTile(from: (int, int) -> int, p: Lane, width: nat, ti: nat, l0: nat, lines: nat, n: nat, rows: nat,
                       cols: nat, tj: nat)
    requires LaneOk(p) && n * p.step == 32 && lines * p.skip == 32 && l0 * p.skip == 32 * ti
    requires forall i: nat, j: nat :: from(i, j) == Sample(p, width, i, j)
    ensures MapsTile(from, p, ti * width * TILE, l0, lines, n, rows, cols, tj)
  {
    forall i, j | l0 <= i < l0 + lines && i < rows && tj * n <= j < tj * n + n && j < cols
      ensures from(i, j) == ti * width * TILE + tj * TILE + (i - l0) * (32 * p.skip) + (j - tj * n) * p.step + p.lane
    {
      SampleInTile(p, width, ti, tj, l0, tj * n, i, j);
    }
  }

  ghost predicate MapsRow(from: (int, int) -> int, p: Lane, width: nat, lines: nat, n: nat, rows: nat, cols: nat,
                          ti: nat)
  {
    forall tj :: 0 <= tj < width ==> MapsTile(from, p, ti * width * TILE, ti * lines, lines, n, rows, cols, tj)
  }

  lemma RowInBuffer(width: nat, height: nat, ti: nat)
    requires ti < height
    ensures ti * width * TILE + width * TILE == (ti + 1) * width * TILE <= width * height * TILE
  {
    MulMonotone(ti + 1, height, width);
  }

  /** Untiles one component: walks the tiles in storage order and copies each to its place,
      clipped at the borders of the target. */
  method Untile(src: array<Byte>, dst: array<Byte>, d: Grid, rows: nat, cols: nat, p: Lane, width: nat, height: nat)
    requires src != dst && Inside(d, rows, cols, 0, dst.Length) && Injective(d, rows, cols)
    requires LaneOk(p) && width * height * TILE <= src.Length
    requires cols * p.step <= 32 * width && rows * p.skip <= 32 * height
    modifies dst
    ensures forall i, j :: 0 <= i < rows && 0 <= j < cols ==>
              Sample(p, width, i, j) < src.Length && dst[At(d, i, j)] == src[Sample(p, width, i, j)]
    ensures forall x :: 0 <= x < dst.Length && !Hits(d, rows, cols, x) ==> dst[x] == old(dst[x])
  {
    ghost var from := (i: int, j: int) => if i >= 0 && j >= 0 then Sample(p, width, i, j) else 0;
    var lines, n := 32 / p.skip, 32 / p.step;
    forall ti: nat ensures MapsRow(from, p, width, lines, n, rows, cols, ti) {
      forall tj | 0 <= tj < width ensures MapsTile(from, p, ti * width * TILE, ti * lines, lines, n, rows, cols, tj) {
        SampleMapsTile(from, p, width, ti, ti * lines, lines, n, rows, cols, tj);
      }
    }
    UntileRows(src, dst, d, lines, n, rows, cols, p, width, height, from);
    forall i, j | 0 <= i < rows && 0 <= j < cols
      ensures Sample(p, width, i, j) < src.Length && dst[At(d, i, j)] == src[Sample(p, width, i, j)]
    {
      assert from(i, j) == Sample(p, width, i, j);
    }
  }

  method UntileRows(src: array<Byte>, dst: array<Byte>, d: Grid, lines: nat, n: nat, rows: nat, cols: nat,
                    p: Lane, width: nat, height: nat, ghost from: (int, int) -> int)
    requires src != dst && Inside(d, rows, cols, 0, dst.Length) && Injective(d, rows, cols)
    requires LaneOk(p) && n * p.step == 32 && lines * p.skip == 32 && width * height * TILE <= src.Length
    requires cols * p.step <= 32 * width && rows * p.skip <= 32 * height
    requires forall ti: nat :: MapsRow(from, p, width, lines, n, rows, cols, ti)
    modifies dst
    ensures forall i, j :: 0 <= i < rows && 0 <= j < cols ==>
              0 <= from(i, j) < src.Length && dst[At(d, i, j)] == src[from(i, j)]
    ensures forall x :: 0 <= x < dst.Length && !Hits(d, rows, cols, x) ==> dst[x] == old(dst[x])
  {
    var ptr, l0 := 0, 0;
    for ti := 0 to height
      invariant ptr == ti * width * TILE && l0 == ti * lines
      invariant forall i, j :: 0 <= i < l0 && i < rows && 0 <= j < cols ==>
                  0 <= from(i, j) < src.Length && dst[At(d, i, j)] == src[from(i, j)]
      invariant forall x :: 0 <= x < dst.Length && !Hits(d, rows, cols, x) ==> dst[x] == old(dst[x])
    {
      assert MapsRow(from, p, width, lines, n, rows, cols, ti);
      RowInBuffer(width, height, ti);
      ptr := UntileRow(src, ptr, dst, d, l0, lines, n, rows, cols, p, width, from);
      l0 := l0 + lines;
    }
    assert rows <= l0;
  }

  /** One row of tiles. */
  method UntileRow(src: array<Byte>, start: nat, dst: array<Byte>, d: Grid, l0: nat, lines: nat, n: nat, rows: nat,
                   cols: nat,
                   p: Lane, width: nat, ghost from: (int, int) -> int) returns (ptr: nat)
    requires src != dst && Inside(d, rows, cols, 0, dst.Length) && Injective(d, rows, cols)
    requires LaneOk(p) && n * p.step == 32 && lines * p.skip == 32 && start + width * TILE <= src.Length
    requires cols * p.step <= 32 * width
    requires forall tj :: 0 <= tj < width ==> MapsTile(from, p, start, l0, lines, n, rows, cols, tj)
    modifies dst
    ensures ptr == start + width * TILE
    ensures forall i, j :: l0 <= i < l0 + lines && i < rows && 0 <= j < cols ==>
              0 <= from(i, j) < src.Length && dst[At(d, i, j)] == src[from(i, j)]
    ensures forall a, b :: 0 <= a < rows && 0 <= b < cols && !(l0 <= a < l0 + lines) ==>
              dst[At(d, a, b)] == old(dst[At(d, a, b)])
    ensures forall x :: 0 <= x < dst.Length && !Hits(d, rows, cols, x) ==> dst[x] == old(dst[x])
  {
    ptr := start;
    var c0 := 0;
    for tj := 0 to width
      invariant ptr == start + tj * TILE && c0 == tj * n
      invariant forall i, j :: l0 <= i < l0 + lines && i < rows && 0 <= j < c0 && j < cols ==>
                  0 <= from(i, j) < src.Length && dst[At(d, i, j)] == src[from(i, j)]
      invariant forall a, b :: 0 <= a < rows && 0 <= b < cols && !(l0 <= a < l0 + lines && b < c0) ==>
                  dst[At(d, a, b)] == old(dst[At(d, a, b)])
      invariant forall x :: 0 <= x < dst.Length && !Hits(d, rows, cols, x) ==> dst[x] == old(dst[x])
    {
      assert MapsTile(from, p, start, l0, lines, n, rows, cols, tj);
      NextColumns(tj, n);
      ptr := CopyTile(src, ptr, dst, d, l0, c0, lines, n, rows, cols, p, from);
      c0 := c0 + n;
    }
    AllColumns(cols, width, n, p.step);
  }

  lemma NextColumns(tj: int, n: int)
    ensures (tj + 1) * n == tj * n + n
  {
  }

  /** The tiles of a row hold all its samples. */
  lemma AllColumns(cols: nat, width: nat, n: nat, step: nat)
    requires (step == 1 || step == 2) && n * step == 32 && cols * step <= 32 * width
    ensures cols <= width * n
  {
    if step == 1 {
      assert n == 32;
    } else {
      assert n == 16;
    }
  }
}
