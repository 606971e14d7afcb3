/** The MB32 to RGB565 transform: colour arithmetic through a clip table, and the tile walk
    that visits the luma bytes in storage order. */
module Rgb565 {
  import opened Planes
  import opened Tiles

  // ---------------------------------------------------------------- colour

  /** One 16-bit pixel. */
  type Word = x: int | 0 <= x < 65536

  const CLIP_MIN := -278
  const CLIP_MAX := 535

  /** Division that truncates towards zero. */
  function Quotient(a: int, b: int): int
    requires b > 0
  {
    if a >= 0 then a / b else -(-a / b)
  }

  function Blue(y: Byte, u: Byte): int {
    Quotient((y - 16) * 298 + (u - 128) * 517, 256)
  }

  function Green(y: Byte, u: Byte, v: Byte): int {
    Quotient((y - 16) * 298 + -(v - 128) * 208 + -(u - 128) * 100, 256)
  }

  function Red(y: Byte, v: Byte): int {
    Quotient((y - 16) * 298 + (v - 128) * 409, 256)
  }

  function Clamp(x: int): Byte {
    if x < 0 then 0 else if x > 255 then 255 else x
  }

  /** Five bits of red, six of green, five of blue. */
  function Pack(r: Byte, g: Byte, b: Byte): Word {
    r / 8 * 2048 + g / 4 * 32 + b / 8
  }

  function Pixel(y: Byte, u: Byte, v: Byte): Word {
    Pack(Clamp(Red(y, v)), Clamp(Green(y, u, v)), Clamp(Blue(y, u)))
  }

  /** Whatever the bytes, the colours stay inside the clip table. */
  lemma ClipIndexInRange(y: Byte, u: Byte, v: Byte)
    ensures CLIP_MIN <= Red(y, v) <= CLIP_MAX
    ensures CLIP_MIN <= Green(y, u, v) <= CLIP_MAX
    ensures CLIP_MIN <= Blue(y, u) <= CLIP_MAX
  {
  }

  /** The packed fields are the top bits of the colours. */
  lemma PackedFields(r: Byte, g: Byte, b: Byte)
    ensures Pack(r, g, b) / 2048 == r / 8 && Pack(r, g, b) / 32 % 64 == g / 4 && Pack(r, g, b) % 32 == b / 8
  {
    var q := r / 8 * 64 + g / 4;
    assert Pack(r, g, b) == q * 32 + b / 8;
    assert Pack(r, g, b) / 32 == q && Pack(r, g, b) % 32 == b / 8;
    assert q / 64 == r / 8 && q % 64 == g / 4;
  }

  lemma QuotientMonotone(a: int, b: int)
    requires a <= b
    ensures Quotient(a, 256) <= Quotient(b, 256)
  {
  }

  /** With the same chroma, brighter luma never lowers a colour. */
  lemma BrighterLuma(y: Byte, y': Byte, u: Byte, v: Byte)
    requires y <= y'
    ensures Red(y, v) <= Red(y', v) && Green(y, u, v) <= Green(y', u, v) && Blue(y, u) <= Blue(y', u)
  {
    QuotientMonotone((y - 16) * 298 + (v - 128) * 409, (y' - 16) * 298 + (v - 128) * 409);
    QuotientMonotone((y - 16) * 298 + -(v - 128) * 208 + -(u - 128) * 100,
                     (y' - 16) * 298 + -(v - 128) * 208 + -(u - 128) * 100);
    QuotientMonotone((y - 16) * 298 + (u - 128) * 517, (y' - 16) * 298 + (u - 128) * 517);
  }

  ghost predicate IsClipTable(t: seq<Byte>) {
    |t| == CLIP_MAX - CLIP_MIN + 1 && forall x :: 0 <= x < |t| ==> t[x] == Clamp(x + CLIP_MIN)
  }

  method ClipTable() returns (t: array<Byte>)
    ensures fresh(t) && IsClipTable(t[..])
  {
    t := new Byte[CLIP_MAX - CLIP_MIN + 1](_ => 0);
    for x := CLIP_MIN to CLIP_MAX + 1
      invariant forall k :: 0 <= k < x - CLIP_MIN ==> t[k] == Clamp(k + CLIP_MIN)
    {
      t[x - CLIP_MIN] := if x < 0 then 0 else if x > 255 then 255 else x;
    }
  }

  /** One pixel, through the table. */
  method Colour(t: array<Byte>, y: Byte, u: Byte, v: Byte) returns (rgb: Word)
    requires IsClipTable(t[..])
    ensures rgb == Pixel(y, u, v)
  {
    ClipIndexInRange(y, u, v);
    var r, g, b := Red(y, v), Green(y, u, v), Blue(y, u);
    assert t[..][r - CLIP_MIN] == Clamp(r) && t[..][g - CLIP_MIN] == Clamp(g) && t[..][b - CLIP_MIN] == Clamp(b);
    rgb := Pack(t[r - CLIP_MIN], t[g - CLIP_MIN], t[b - CLIP_MIN]);
  }

  // ---------------------------------------------------------------- the tile walk

  /** Tile row, tile column, line and column in the tile of luma byte `n`, in a picture that
      is `m` tiles wide. */
  function TileRow(m: nat, n: nat): nat
    requires m > 0
  {
    n / TILE / m
  }

  function TileCol(m: nat, n: nat): nat
    requires m > 0
  {
    n / TILE % m
  }

  function TileLine(n: nat): nat {
    n % TILE / 32
  }

  function Line(m: nat, n: nat): nat
    requires m > 0
  {
    32 * TileRow(m, n) + TileLine(n)
  }

  function Column(m: nat, n: nat): nat
    requires m > 0
  {
    32 * TileCol(m, n) + n % 32
  }

  /** Where the loops put the pixel of luma byte `n` in a target with rows of `w` pixels. */
  function Address(w: nat, m: nat, n: nat): nat
    requires m > 0
  {
    TileRow(m, n) * (32 * w) + TileLine(n) * (32 * m) + 32 * TileCol(m, n) + n % 32
  }

  /** The even column of a pair of columns. */
  function EvenPart(col: nat): nat {
    col / 2 * 2
  }

  function RasterIndex(w: nat, line: nat, col: nat): nat {
    line * w + col
  }

  /** Where the loops find its chroma pair. */
  function ChromaByte(m: nat, n: nat): nat
    requires m > 0
  {
    (TileRow(m, n) / 2 * m + TileCol(m, n)) * TILE + TileLine(n) / 2 * 32 +
    (if TileRow(m, n) % 2 == 1 then 512 else 0) + n % 32 / 2 * 2
  }

  lemma Split(m: nat, i: nat, j: nat)
    requires j < m
    ensures (i * m + j) / m == i && (i * m + j) % m == j
  {
    var q, r := (i * m + j) / m, (i * m + j) % m;
    assert q * m + r == i * m + j;
    SameSample(Grid(0, m, 1), m, i, j, q, r);
  }

  lemma ByteOf(m: nat, i: nat, j: nat, y: nat, x: nat)
    requires j < m && y < 32 && x < 32
    ensures var n := (i * m + j) * TILE + y * 32 + x;
            TileRow(m, n) == i && TileCol(m, n) == j && TileLine(n) == y && n % 32 == x
  {
    var n := (i * m + j) * TILE + y * 32 + x;
    assert n / TILE == i * m + j && n % TILE == y * 32 + x;
    Split(m, i, j);
  }

  lemma DivMod(a: nat, m: nat)
    requires m > 0
    ensures a == a / m * m + a % m
  {
  }

  lemma Recombine(m: nat, n: nat)
    requires m > 0
    ensures n == (TileRow(m, n) * m + TileCol(m, n)) * TILE + TileLine(n) * 32 + n % 32
  {
    assert n == n / TILE * TILE + TileLine(n) * 32 + n % 32;
    DivMod(n / TILE, m);
  }

  /** Luma byte `n` is the tile cell of its line and column. */
  lemma ByteIsCell(m: nat, n: nat)
    requires m > 0
    ensures Cell(m, Line(m, n), Column(m, n)) == n
  {
    CellInTile(m, TileRow(m, n), TileCol(m, n), TileLine(n), n % 32);
    Recombine(m, n);
  }

  /** Every cell of the picture is a luma byte, so the walk reaches every pixel. */
  lemma CellIsByte(m: nat, line: nat, col: nat)
    requires col < 32 * m
    ensures Line(m, Cell(m, line, col)) == line && Column(m, Cell(m, line, col)) == col
  {
    ByteOf(m, line / 32, col / 32, line % 32, col % 32);
  }

  /** Half of a line and the even part of a column, with the quotients and remainders named. */
  lemma HalfPosition(i2: nat, p: nat, y2: nat, q: nat, j: nat, x2: nat, r: nat)
    requires p < 2 && q < 2 && r < 2
    ensures (32 * (2 * i2 + p) + (2 * y2 + q)) / 2 == 32 * i2 + (16 * p + y2)
    ensures (32 * j + (2 * x2 + r)) / 2 * 2 == 32 * j + 2 * x2
  {
    HalfOf(32 * i2 + (16 * p + y2), q);
    HalfOf(16 * j + x2, r);
    assert 32 * (2 * i2 + p) + (2 * y2 + q) == 2 * (32 * i2 + (16 * p + y2)) + q;
    assert 32 * j + (2 * x2 + r) == 2 * (16 * j + x2) + r;
  }

  lemma HalfOf(k: nat, q: nat)
    requires q < 2
    ensures (2 * k + q) / 2 == k
  {
  }

  lemma Halved(n: nat)
    ensures n == 2 * (n / 2) + n % 2 && n % 2 < 2
  {
  }

  /** The chroma pair is the 4:2:0 cell of the pixel: half the line, and the even column. */
  lemma ChromaIsCell(m: nat, n: nat)
    requires m > 0
    ensures ChromaByte(m, n) == Cell(m, Line(m, n) / 2, EvenPart(Column(m, n)))
  {
    var i, j, y, x := TileRow(m, n), TileCol(m, n), TileLine(n), n % 32;
    ChromaCell(m, i, j, y, x);
    assert Line(m, n) == 32 * i + y && Column(m, n) == 32 * j + x;
  }

  lemma ChromaCell(m: nat, i: nat, j: nat, y: nat, x: nat)
    requires y < 32 && x < 32
    ensures Cell(m, (32 * i + y) / 2, EvenPart(32 * j + x)) ==
            (i / 2 * m + j) * TILE + y / 2 * 32 + (if i % 2 == 1 then 512 else 0) + x / 2 * 2
  {
    Halved(i);
    Halved(y);
    Halved(x);
    HalfPosition(i / 2, i % 2, y / 2, y % 2, j, x / 2, x % 2);
    CellInTile(m, i / 2, j, 16 * (i % 2) + y / 2, 2 * (x / 2));
  }

  lemma AddressInTarget(w: nat, m: nat, height: nat, n: nat)
    requires m > 0 && 32 * m <= w && n < m * height * TILE
    ensures Address(w, m, n) < 32 * w * height
  {
    var i, j, y, x := TileRow(m, n), TileCol(m, n), TileLine(n), n % 32;
    Recombine(m, n);
    if i >= height {
      MulMonotone(height, i, m);
      assert false;
    }
    MulMonotone(i + 1, height, 32 * w);
    MulMonotone(y + 1, 32, 32 * m);
  }

  /** No two luma bytes share a target pixel. */
  lemma AddressInjective(w: nat, m: nat, n: nat, n': nat)
    requires m > 0 && 32 * m <= w && Address(w, m, n) == Address(w, m, n')
    ensures n == n'
  {
    InTileRow(m, n);
    InTileRow(m, n');
    var a, a' := Address(w, m, n) - TileRow(m, n) * (32 * w), Address(w, m, n') - TileRow(m, n') * (32 * w);
    SameSample(Grid(0, 32 * w, 1), 32 * w, TileRow(m, n), a, TileRow(m, n'), a');
    SameSample(Grid(0, 32 * m, 1), 32 * m, TileLine(n), 32 * TileCol(m, n) + n % 32, TileLine(n'),
               32 * TileCol(m, n') + n' % 32);
    assert TileCol(m, n) == TileCol(m, n') && n % 32 == n' % 32;
    Recombine(m, n);
    Recombine(m, n');
  }

  lemma InTileRow(m: nat, n: nat)
    requires m > 0
    ensures 32 * TileCol(m, n) + n % 32 < 32 * m
    ensures TileLine(n) * (32 * m) + 32 * TileCol(m, n) + n % 32 < 32 * (32 * m)
  {
    MulMonotone(TileLine(n) + 1, 32, 32 * m);
  }

  lemma ByteInRaster(w: nat, m: nat, n: nat)
    requires m > 0 && w == 32 * m && w / 32 == m
    ensures InRaster(w, n)
  {
    ByteIsCell(m, n);
    assert TileRow(m, n) * (32 * w) + TileLine(n) * w == (32 * TileRow(m, n) + TileLine(n)) * w;
  }

  /** The second line of the first tile is written as if the rows were whole tiles wide. */
  lemma SecondLineOutOfRaster(w: nat, m: nat)
    requires m > 0 && w / 32 == m && w != 32 * m
    ensures !InRaster(w, 32)
  {
    ByteOf(m, 0, 0, 1, 0);
  }

  lemma SomeTile(m: nat, rows: nat)
    requires m > 0 && rows > 0
    ensures 32 < m * rows * TILE
  {
    MulMonotone(1, rows, m);
  }

  /** The pixels of all cells come out in raster order, that is the target really is a picture
      with rows of `w` pixels, exactly when the width is a multiple of 32. */
  lemma RasterIffDivisible(w: nat, height: nat)
    requires w >= 32 && height >= 32
    ensures (forall n :: 0 <= n < w / 32 * (height / 32) * TILE ==> InRaster(w, n)) <==> w % 32 == 0
  {
    var m := w / 32;
    if w % 32 == 0 {
      forall n | 0 <= n < m * (height / 32) * TILE ensures InRaster(w, n) {
        ByteInRaster(w, m, n);
      }
    } else {
      SomeTile(m, height / 32);
      SecondLineOutOfRaster(w, m);
    }
  }

  ghost predicate InRaster(w: nat, n: nat)
    requires w >= 32
  {
    && Cell(w / 32, Line(w / 32, n), Column(w / 32, n)) == n
    && Address(w, w / 32, n) == Line(w / 32, n) * w + Column(w / 32, n)
  }

  // ---------------------------------------------------------------- the loops

  /** `addr` gives every luma byte a target pixel of its own. */
  ghost predicate Walk(addr: int -> int, total: nat, pixels: nat) {
    && (forall n :: 0 <= n < total ==> 0 <= addr(n) < pixels)
    && (forall n, n' :: 0 <= n < total && 0 <= n' < total && addr(n) == addr(n') ==> n == n')
  }

  /** `paint` gives every luma byte its colour, from the chroma pair that `chroma` finds. */
  ghost predicate Paints(luma: seq<Byte>, vu: seq<Byte>, chroma: int -> int, paint: int -> int, total: nat) {
    forall n :: 0 <= n < total ==> PaintsByte(luma, vu, chroma, paint, n)
  }

  ghost predicate PaintsByte(luma: seq<Byte>, vu: seq<Byte>, chroma: int -> int, paint: int -> int, n: int) {
    PixelOf(luma, vu, n, chroma(n), paint(n))
  }

  /** `rgb` is the colour of luma byte `n` with the chroma pair at `c`. */
  ghost predicate PixelOf(luma: seq<Byte>, vu: seq<Byte>, n: int, c: int, rgb: int) {
    0 <= n < |luma| && 0 <= c < |vu| - 1 && rgb == Pixel(luma[n], vu[c], vu[c + 1])
  }

  /** The first `k` targets hold their paint, and were written once each, in order. */
  ghost predicate Painted(dst: array<Word>, writes: seq<int>, addr: int -> int, paint: int -> int, k: nat)
    reads dst
  {
    && |writes| == k
    && forall n :: 0 <= n < k ==> 0 <= addr(n) < dst.Length && dst[addr(n)] == paint(n) && writes[n] == addr(n)
  }

  ghost predicate IsTarget(addr: int -> int, total: nat, p: int) {
    exists n :: 0 <= n < total && addr(n) == p
  }

  /** The 32-bit store of two pixels. */
  method StorePair(dst: array<Word>, pos: nat, rgb1: Word, rgb2: Word,
                   ghost addr: int -> int, ghost paint: int -> int, ghost total: nat, ghost k: nat,
                   ghost before: seq<int>)
    returns (ghost writes: seq<int>)
    requires k + 2 <= total && Walk(addr, total, dst.Length) && Painted(dst, before, addr, paint, k)
    requires addr(k) == pos && addr(k + 1) == pos + 1 && paint(k) == rgb1 && paint(k + 1) == rgb2
    modifies dst
    ensures Painted(dst, writes, addr, paint, k + 2)
    ensures forall p :: 0 <= p < dst.Length && !IsTarget(addr, total, p) ==> dst[p] == old(dst[p])
  {
    dst[pos], dst[pos + 1] := rgb1, rgb2;
    writes := before + [pos, pos + 1];
  }

  /** Pair `h` of the tile line at luma byte `yPos` goes to `start + 2 * h` and takes its
      chroma from the line at `uvPos`. */
  ghost predicate MapsPair(yPos: nat, uvPos: nat, start: nat, addr: int -> int, chroma: int -> int, h: nat) {
    && addr(yPos + 2 * h) == start + 2 * h && addr(yPos + 2 * h + 1) == start + 2 * h + 1
    && chroma(yPos + 2 * h) == chroma(yPos + 2 * h + 1) == uvPos + 2 * h
  }

  method ColourAt(t: array<Byte>, luma: array<Byte>, y: nat, vu: array<Byte>, uv: nat,
                  ghost chroma: int -> int, ghost paint: int -> int, ghost total: nat)
    returns (rgb: Word)
    requires IsClipTable(t[..]) && Paints(luma[..], vu[..], chroma, paint, total) && y < total && chroma(y) == uv
    ensures rgb == paint(y)
  {
    assert PaintsByte(luma[..], vu[..], chroma, paint, y);
    rgb := Colour(t, luma[y], vu[uv], vu[uv + 1]);
  }

  /** Two neighbouring pixels, which share a chroma pair. */
  method TransformPair(t: array<Byte>, luma: array<Byte>, yPos: nat, vu: array<Byte>, uvPos: nat, dst: array<Word>,
                       start: nat, h: nat,
                       ghost addr: int -> int, ghost chroma: int -> int, ghost paint: int -> int, ghost total: nat,
                       ghost before: seq<int>)
    returns (ghost writes: seq<int>)
    requires IsClipTable(t[..]) && h < 16 && yPos + 32 <= total && Walk(addr, total, dst.Length)
    requires Paints(luma[..], vu[..], chroma, paint, total) && MapsPair(yPos, uvPos, start, addr, chroma, h)
    requires Painted(dst, before, addr, paint, yPos + 2 * h)
    modifies dst
    ensures Painted(dst, writes, addr, paint, yPos + 2 * h + 2)
    ensures forall p :: 0 <= p < dst.Length && !IsTarget(addr, total, p) ==> dst[p] == old(dst[p])
  {
    var x := 2 * h;
    var rgb1 := ColourAt(t, luma, yPos + x, vu, uvPos + x, chroma, paint, total);
    var rgb2 := ColourAt(t, luma, yPos + x + 1, vu, uvPos + x, chroma, paint, total);
    writes := StorePair(dst, start + x, rgb1, rgb2, addr, paint, total, yPos + x, before);
  }

  ghost predicate MapsLine(yPos: nat, uvPos: nat, start: nat, addr: int -> int, chroma: int -> int) {
    forall h :: 0 <= h < 16 ==> MapsPair(yPos, uvPos, start, addr, chroma, h)
  }

  /** One line of a tile. */
  method TransformLine(t: array<Byte>, luma: array<Byte>, yPos: nat, vu: array<Byte>, uvPos: nat, dst: array<Word>,
                       start: nat,
                       ghost addr: int -> int, ghost chroma: int -> int, ghost paint: int -> int, ghost total: nat,
                       ghost before: seq<int>)
    returns (pos: nat, ghost writes: seq<int>)
    requires IsClipTable(t[..]) && yPos + 32 <= total && Walk(addr, total, dst.Length)
    requires Paints(luma[..], vu[..], chroma, paint, total) && MapsLine(yPos, uvPos, start, addr, chroma)
    requires Painted(dst, before, addr, paint, yPos)
    modifies dst
    ensures pos == start + 32 && Painted(dst, writes, addr, paint, yPos + 32)
    ensures forall p :: 0 <= p < dst.Length && !IsTarget(addr, total, p) ==> dst[p] == old(dst[p])
  {
    pos, writes := start, before;
    for h := 0 to 16
      invariant pos == start + 2 * h
      invariant Painted(dst, writes, addr, paint, yPos + 2 * h)
      invariant forall p :: 0 <= p < dst.Length && !IsTarget(addr, total, p) ==> dst[p] == old(dst[p])
    {
      writes := TransformPair(t, luma, yPos, vu, uvPos, dst, start, h, addr, chroma, paint, total, writes);
      pos := pos + 2;
    }
  }

  ghost predicate MapsTile(tile: nat, uv: nat, start: nat, step: nat, addr: int -> int, chroma: int -> int) {
    forall y :: 0 <= y < 32 ==> MapsTileLine(tile, uv, start, step, addr, chroma, y)
  }

  ghost predicate MapsTileLine(tile: nat, uv: nat, start: nat, step: nat, addr: int -> int, chroma: int -> int, y: nat)
  {
    MapsLine(tile + y * 32, uv + y / 2 * 32, start + y * step, addr, chroma)
  }

  lemma NextTargetRow(start: int, y: int, step: int, m: int)
    requires step == 32 * m
    ensures start + y * step + 32 + (m - 1) * 32 == start + (y + 1) * step
  {
  }

  /** One tile: the chroma advances every second line. */
  method TransformTile(t: array<Byte>, luma: array<Byte>, tile: nat, vu: array<Byte>, uv: nat, dst: array<Word>,
                       start: nat, m: nat, step: nat,
                       ghost addr: int -> int, ghost chroma: int -> int, ghost paint: int -> int, ghost total: nat,
                       ghost before: seq<int>)
    returns (ghost writes: seq<int>)
    requires IsClipTable(t[..]) && m > 0 && step == 32 * m && tile + TILE <= total && Walk(addr, total, dst.Length)
    requires Paints(luma[..], vu[..], chroma, paint, total) && MapsTile(tile, uv, start, step, addr, chroma)
    requires Painted(dst, before, addr, paint, tile)
    modifies dst
    ensures Painted(dst, writes, addr, paint, tile + TILE)
    ensures forall p :: 0 <= p < dst.Length && !IsTarget(addr, total, p) ==> dst[p] == old(dst[p])
  {
    var pos := start;
    writes := before;
    for y := 0 to 32
      invariant pos == start + y * step
      invariant Painted(dst, writes, addr, paint, tile + y * 32)
      invariant forall p :: 0 <= p < dst.Length && !IsTarget(addr, total, p) ==> dst[p] == old(dst[p])
    {
      assert MapsTileLine(tile, uv, start, step, addr, chroma, y);
      pos, writes := TransformLine(t, luma, tile + y * 32, vu, uv + y / 2 * 32, dst, pos, addr, chroma, paint, total,
                                   writes);
      NextTargetRow(start, y, step, m);
      pos := pos + (m - 1) * 32;
    }
  }

  // ---------------------------------------------------------------- the loops follow the walk

  function LumaTile(m: nat, i: nat, j: nat): nat {
    (i * m + j) * TILE
  }

  function ChromaTile(m: nat, i: nat, j: nat): nat {
    i / 2 * m * TILE + j * TILE + if i % 2 == 1 then 512 else 0
  }

  function TargetTile(w: nat, i: nat, j: nat): nat {
    i * w * 32 + j * 32
  }

  ghost predicate IsWalk(w: nat, m: nat, addr: int -> int, chroma: int -> int)
    requires m > 0
  {
    forall n: nat :: IsWalkAt(w, m, addr, chroma, n)
  }

  ghost predicate IsWalkAt(w: nat, m: nat, addr: int -> int, chroma: int -> int, n: nat)
    requires m > 0
  {
    addr(n) == Address(w, m, n) && chroma(n) == ChromaByte(m, n)
  }

  lemma ByteTarget(w: nat, m: nat, i: nat, j: nat, y: nat, x: nat, n: nat)
    requires j < m && y < 32 && x < 32 && n == LumaTile(m, i, j) + y * 32 + x
    ensures Address(w, m, n) == TargetTile(w, i, j) + y * (32 * m) + x
  {
    ByteOf(m, i, j, y, x);
    assert i * (32 * w) == i * w * 32;
  }

  lemma ByteChroma(m: nat, i: nat, j: nat, y: nat, h: nat, b: nat, n: nat)
    requires j < m && y < 32 && h < 16 && b < 2 && n == LumaTile(m, i, j) + y * 32 + 2 * h + b
    ensures ChromaByte(m, n) == ChromaTile(m, i, j) + y / 2 * 32 + 2 * h
  {
    ByteOf(m, i, j, y, 2 * h + b);
    assert (2 * h + b) / 2 * 2 == 2 * h;
  }

  /** Byte `b` of pair `h` in line `y` of tile (i, j): its target and its chroma. */
  lemma ByteMaps(w: nat, m: nat, i: nat, j: nat, y: nat, h: nat, b: nat, yPos: nat, uvPos: nat, start: nat,
                 addr: int -> int, chroma: int -> int)
    requires j < m && y < 32 && h < 16 && b < 2 && IsWalk(w, m, addr, chroma)
    requires yPos == LumaTile(m, i, j) + y * 32 && uvPos == ChromaTile(m, i, j) + y / 2 * 32
    requires start == TargetTile(w, i, j) + y * (32 * m)
    ensures addr(yPos + 2 * h + b) == start + 2 * h + b
    ensures chroma(yPos + 2 * h + b) == uvPos + 2 * h
  {
    assert IsWalkAt(w, m, addr, chroma, yPos + 2 * h + b);
    ByteTarget(w, m, i, j, y, 2 * h + b, yPos + 2 * h + b);
    ByteChroma(m, i, j, y, h, b, yPos + 2 * h + b);
  }

  lemma LineMaps(w: nat, m: nat, i: nat, j: nat, y: nat, yPos: nat, uvPos: nat, start: nat, addr: int -> int,
                 chroma: int -> int)
    requires j < m && y < 32 && IsWalk(w, m, addr, chroma)
    requires yPos == LumaTile(m, i, j) + y * 32 && uvPos == ChromaTile(m, i, j) + y / 2 * 32
    requires start == TargetTile(w, i, j) + y * (32 * m)
    ensures MapsLine(yPos, uvPos, start, addr, chroma)
  {
    forall h | 0 <= h < 16 ensures MapsPair(yPos, uvPos, start, addr, chroma, h) {
      ByteMaps(w, m, i, j, y, h, 0, yPos, uvPos, start, addr, chroma);
      ByteMaps(w, m, i, j, y, h, 1, yPos, uvPos, start, addr, chroma);
    }
  }

  lemma TileMaps(w: nat, m: nat, i: nat, j: nat, addr: int -> int, chroma: int -> int)
    requires j < m && IsWalk(w, m, addr, chroma)
    ensures MapsTile(LumaTile(m, i, j), ChromaTile(m, i, j), TargetTile(w, i, j), 32 * m, addr, chroma)
  {
    var tile, uv, start := LumaTile(m, i, j), ChromaTile(m, i, j), TargetTile(w, i, j);
    forall y | 0 <= y < 32 ensures MapsTileLine(tile, uv, start, 32 * m, addr, chroma, y) {
      LineMaps(w, m, i, j, y, tile + y * 32, uv + y / 2 * 32, start + y * (32 * m), addr, chroma);
    }
  }

  /** One row of tiles. */
  method TransformTileRow(t: array<Byte>, luma: array<Byte>, vu: array<Byte>, dst: array<Word>, w: nat, m: nat, i: nat,
                          ghost addr: int -> int, ghost chroma: int -> int, ghost paint: int -> int, ghost total: nat,
                          ghost before: seq<int>)
    returns (ghost writes: seq<int>)
    requires IsClipTable(t[..]) && m > 0 && LumaTile(m, i + 1, 0) <= total && Walk(addr, total, dst.Length)
    requires Paints(luma[..], vu[..], chroma, paint, total) && IsWalk(w, m, addr, chroma)
    requires Painted(dst, before, addr, paint, LumaTile(m, i, 0))
    modifies dst
    ensures Painted(dst, writes, addr, paint, LumaTile(m, i + 1, 0))
    ensures forall p :: 0 <= p < dst.Length && !IsTarget(addr, total, p) ==> dst[p] == old(dst[p])
  {
    writes := before;
    for j := 0 to m
      invariant Painted(dst, writes, addr, paint, LumaTile(m, i, j))
      invariant forall p :: 0 <= p < dst.Length && !IsTarget(addr, total, p) ==> dst[p] == old(dst[p])
    {
      NextTile(m, i, j);
      TileMaps(w, m, i, j, addr, chroma);
      writes := TransformTile(t, luma, LumaTile(m, i, j), vu, ChromaTile(m, i, j), dst, TargetTile(w, i, j), m, 32 * m,
                              addr, chroma, paint, total, writes);
    }
    NextTile(m, i, m - 1);
  }

  lemma NextTile(m: nat, i: nat, j: nat)
    requires j < m
    ensures LumaTile(m, i, j) + TILE == LumaTile(m, i, j + 1) <= LumaTile(m, i, m) == LumaTile(m, i + 1, 0)
  {
  }

  method TransformTiles(t: array<Byte>, luma: array<Byte>, vu: array<Byte>, dst: array<Word>, w: nat, m: nat,
                        height: nat,
                        ghost addr: int -> int, ghost chroma: int -> int, ghost paint: int -> int)
    returns (ghost writes: seq<int>)
    requires IsClipTable(t[..]) && m > 0 && Walk(addr, LumaTile(m, height, 0), dst.Length)
    requires Paints(luma[..], vu[..], chroma, paint, LumaTile(m, height, 0)) && IsWalk(w, m, addr, chroma)
    modifies dst
    ensures Painted(dst, writes, addr, paint, LumaTile(m, height, 0))
    ensures forall p :: 0 <= p < dst.Length && !IsTarget(addr, LumaTile(m, height, 0), p) ==> dst[p] == old(dst[p])
  {
    ghost var total := LumaTile(m, height, 0);
    writes := [];
    for i := 0 to height
      invariant Painted(dst, writes, addr, paint, LumaTile(m, i, 0))
      invariant forall p :: 0 <= p < dst.Length && !IsTarget(addr, total, p) ==> dst[p] == old(dst[p])
    {
      MulMonotone(i + 1, height, m);
      writes := TransformTileRow(t, luma, vu, dst, w, m, i, addr, chroma, paint, total, writes);
    }
  }

  // ---------------------------------------------------------------- the transform

  /** `rgb` is the pixel of line `line`, column `col`: its luma cell, and the chroma pair of
      its 2-by-2 block. */
  ghost predicate Shows(luma: seq<Byte>, vu: seq<Byte>, m: nat, line: nat, col: nat, rgb: Word) {
    PixelOf(luma, vu, Cell(m, line, col), Cell(m, line / 2, EvenPart(col)), rgb)
  }

  /** Each target is written once. */
  ghost predicate NoRepeat(writes: seq<int>) {
    forall n, n' :: 0 <= n < n' < |writes| ==> writes[n] != writes[n']
  }

  lemma ChromaInBuffer(m: nat, height: nat, n: nat)
    requires m > 0 && n < LumaTile(m, height, 0)
    ensures ChromaByte(m, n) + 1 < m * ((height + 1) / 2) * TILE
  {
    var i := TileRow(m, n);
    Recombine(m, n);
    if i >= height {
      MulMonotone(height, i, m);
      assert false;
    }
    TileInBuffer(m, (height + 1) / 2, i / 2, TileCol(m, n));
  }

  lemma WalkIsWalk(w: nat, m: nat, height: nat, addr: int -> int, pixels: nat)
    requires m > 0 && 32 * m <= w && 32 * w * height <= pixels
    requires forall n: nat :: addr(n) == Address(w, m, n)
    ensures Walk(addr, LumaTile(m, height, 0), pixels)
  {
    var total := LumaTile(m, height, 0);
    forall n | 0 <= n < total ensures 0 <= addr(n) < pixels {
      AddressInTarget(w, m, height, n);
    }
    forall n, n' | 0 <= n < total && 0 <= n' < total && addr(n) == addr(n') ensures n == n' {
      AddressInjective(w, m, n, n');
    }
  }

  lemma CellInWalk(m: nat, height: nat, line: nat, col: nat)
    requires line < 32 * height && col < 32 * m
    ensures Cell(m, line, col) < LumaTile(m, height, 0)
    ensures ChromaByte(m, Cell(m, line, col)) == Cell(m, line / 2, EvenPart(col))
  {
    TileInBuffer(m, height, line / 32, col / 32);
    CellIsByte(m, line, col);
    ChromaIsCell(m, Cell(m, line, col));
  }

  lemma CellAddress(w: nat, m: nat, line: nat, col: nat)
    requires w == 32 * m && col < w
    ensures Address(w, m, Cell(m, line, col)) == RasterIndex(w, line, col)
  {
    var n := Cell(m, line, col);
    CellIsByte(m, line, col);
    assert TileRow(m, n) * (32 * w) + TileLine(n) * w == (32 * TileRow(m, n) + TileLine(n)) * w;
  }

  ghost predicate ShowsAll(luma: seq<Byte>, vu: seq<Byte>, m: nat, height: nat, w: nat, dst: seq<Word>) {
    forall line, col :: 0 <= line < 32 * height && 0 <= col < 32 * m ==> ShowsAt(luma, vu, m, w, dst, line, col)
  }

  ghost predicate ShowsAt(luma: seq<Byte>, vu: seq<Byte>, m: nat, w: nat, dst: seq<Word>, line: nat, col: nat) {
    RasterIndex(w, line, col) < |dst| && Shows(luma, vu, m, line, col, dst[RasterIndex(w, line, col)])
  }

  lemma PaintedPicture(luma: seq<Byte>, vu: seq<Byte>, w: nat, m: nat, height: nat, dst: seq<Word>,
                       addr: int -> int, chroma: int -> int, paint: int -> int)
    requires w == 32 * m && m > 0 && IsWalk(w, m, addr, chroma) &&
             Paints(luma, vu, chroma, paint, LumaTile(m, height, 0))
    requires forall n :: 0 <= n < LumaTile(m, height, 0) ==> 0 <= addr(n) < |dst| && dst[addr(n)] == paint(n)
    ensures ShowsAll(luma, vu, m, height, w, dst)
  {
    forall line, col | 0 <= line < 32 * height && 0 <= col < 32 * m ensures ShowsAt(luma, vu, m, w, dst, line, col) {
      var n := Cell(m, line, col);
      CellInWalk(m, height, line, col);
      CellAddress(w, m, line, col);
      assert IsWalkAt(w, m, addr, chroma, n);
      assert PaintsByte(luma, vu, chroma, paint, n);
    }
  }

  lemma ColourFields(y: Byte, u: Byte, v: Byte, rgb: Word)
    requires rgb == Pixel(y, u, v)
    ensures rgb / 2048 == Clamp(Red(y, v)) / 8 && rgb / 32 % 64 == Clamp(Green(y, u, v)) / 4 &&
            rgb % 32 == Clamp(Blue(y, u)) / 8
  {
    PackedFields(Clamp(Red(y, v)), Clamp(Green(y, u, v)), Clamp(Blue(y, u)));
  }

  /** Each of the three packed fields is at most that of the other pixel. */
  ghost predicate NoBrighter(rgb: Word, rgb': Word) {
    rgb / 2048 <= rgb' / 2048 && rgb / 32 % 64 <= rgb' / 32 % 64 && rgb % 32 <= rgb' % 32
  }

  lemma BrighterPixel(y: Byte, y': Byte, u: Byte, v: Byte, rgb: Word, rgb': Word)
    requires y <= y' && rgb == Pixel(y, u, v) && rgb' == Pixel(y', u, v)
    ensures NoBrighter(rgb, rgb')
  {
    BrighterLuma(y, y', u, v);
    ColourFields(y, u, v, rgb);
    ColourFields(y', u, v, rgb');
  }

  lemma SharedPair(luma: seq<Byte>, vu: seq<Byte>, n: nat, n': nat, c: nat, rgb: Word, rgb': Word)
    requires PixelOf(luma, vu, n, c, rgb) && PixelOf(luma, vu, n', c, rgb') && luma[n] <= luma[n']
    ensures NoBrighter(rgb, rgb')
  {
    BrighterPixel(luma[n], luma[n'], vu[c], vu[c + 1], rgb, rgb');
  }

  lemma SharedCells(luma: seq<Byte>, vu: seq<Byte>, m: nat, line: nat, col: nat, line': nat, col': nat,
                    n: nat, n': nat, c: nat, rgb: Word, rgb': Word)
    requires line / 2 == line' / 2 && col / 2 == col' / 2
    requires n == Cell(m, line, col) && n' == Cell(m, line', col') && c == Cell(m, line / 2, EvenPart(col))
    requires Shows(luma, vu, m, line, col, rgb) && Shows(luma, vu, m, line', col', rgb')
    requires n < |luma| && n' < |luma| && luma[n] <= luma[n']
    ensures NoBrighter(rgb, rgb')
  {
    SharedPair(luma, vu, n, n', c, rgb, rgb');
  }

  /** Two positions of one 2-by-2 block of a picture, the second at least as bright. */
  ghost predicate Brighter(luma: seq<Byte>, m: nat, height: nat, line: nat, col: nat, line': nat, col': nat) {
    && line < 32 * height && line' < 32 * height && col < 32 * m && col' < 32 * m
    && line / 2 == line' / 2 && col / 2 == col' / 2
    && Cell(m, line, col) < |luma| && Cell(m, line', col') < |luma|
    && luma[Cell(m, line, col)] <= luma[Cell(m, line', col')]
  }

  /** In a transformed picture the four pixels of a 2-by-2 block are ordered as their luma, in
      each of the three packed fields. */
  lemma BlocksFollowLuma(luma: seq<Byte>, vu: seq<Byte>, m: nat, height: nat, w: nat, dst: seq<Word>,
                         line: nat, col: nat, line': nat, col': nat)
    requires ShowsAll(luma, vu, m, height, w, dst) && Brighter(luma, m, height, line, col, line', col')
    ensures RasterIndex(w, line, col) < |dst| && RasterIndex(w, line', col') < |dst|
    ensures NoBrighter(dst[RasterIndex(w, line, col)], dst[RasterIndex(w, line', col')])
  {
    assert ShowsAt(luma, vu, m, w, dst, line, col) && ShowsAt(luma, vu, m, w, dst, line', col');
    SharedCells(luma, vu, m, line, col, line', col', Cell(m, line, col), Cell(m, line', col'),
                Cell(m, line / 2, EvenPart(col)), dst[RasterIndex(w, line, col)], dst[RasterIndex(w, line', col')]);
  }

  /** Transforms the whole tiles of a picture. For sizes that are multiples of 32 the target
      becomes the picture in raster order, every pixel written exactly once. */
  method TransformPictureMb32ToRgb(width: nat, height: nat, luma: array<Byte>, vu: array<Byte>, dst: array<Word>,
                                   hasMemory: bool)
    returns (ret: int, ghost writes: seq<int>)
    requires width / 32 * (height / 32) * TILE <= luma.Length
    requires width / 32 * ((height / 32 + 1) / 2) * TILE <= vu.Length
    requires 32 * width * (height / 32) <= dst.Length
    modifies dst
    ensures !hasMemory ==> ret == -1 && writes == []
    ensures hasMemory ==> ret == 0 && |writes| == width / 32 * (height / 32) * TILE
    ensures hasMemory && width >= 32 ==> forall n :: 0 <= n < |writes| ==> writes[n] == Address(width, width / 32, n)
    ensures NoRepeat(writes) && forall n :: 0 <= n < |writes| ==> 0 <= writes[n] < dst.Length
    ensures forall p :: 0 <= p < dst.Length && p !in writes ==> dst[p] == old(dst[p])
    ensures hasMemory && width % 32 == 0 ==> ShowsAll(luma[..], vu[..], width / 32, height / 32, width, dst[..])
  {
    writes := [];
    if !hasMemory {
      return -1, [];
    }
    var t := ClipTable();
    if width >= 32 {
      writes := TransformWhole(t, width, width / 32, height / 32, luma, vu, dst);
    }
    ret := 0;
  }

  /** The loops of a picture that has at least one tile in a row. */
  method TransformWhole(t: array<Byte>, width: nat, m: nat, rows: nat, luma: array<Byte>, vu: array<Byte>,
                        dst: array<Word>)
    returns (ghost writes: seq<int>)
    requires IsClipTable(t[..]) && 0 < m && 32 * m <= width
    requires m * rows * TILE <= luma.Length && m * ((rows + 1) / 2) * TILE <= vu.Length &&
             32 * width * rows <= dst.Length
    modifies dst
    ensures |writes| == m * rows * TILE && forall n :: 0 <= n < |writes| ==> writes[n] == Address(width, m, n)
    ensures NoRepeat(writes) && forall n :: 0 <= n < |writes| ==> 0 <= writes[n] < dst.Length
    ensures forall p :: 0 <= p < dst.Length && p !in writes ==> dst[p] == old(dst[p])
    ensures width == 32 * m ==> ShowsAll(luma[..], vu[..], m, rows, width, dst[..])
  {
    ghost var addr, chroma, paint := Addresses(width, m), ChromaBytes(m), Colours(luma[..], vu[..], m);
    MapsOk(luma[..], vu[..], width, m, rows, dst.Length);
    writes := TransformTiles(t, luma, vu, dst, width, m, rows, addr, chroma, paint);
    if width == 32 * m {
      PaintedPicture(luma[..], vu[..], width, m, rows, dst[..], addr, chroma, paint);
    }
  }

  ghost function Addresses(w: nat, m: nat): int -> int
    requires m > 0
  {
    (n: int) => if n >= 0 then Address(w, m, n) else 0
  }

  ghost function ChromaBytes(m: nat): int -> int
    requires m > 0
  {
    (n: int) => if n >= 0 then ChromaByte(m, n) else 0
  }

  ghost function Colours(luma: seq<Byte>, vu: seq<Byte>, m: nat): int -> int
    requires m > 0
  {
    (n: int) =>
      if 0 <= n < |luma| && ChromaByte(m, n) + 1 < |vu|
      then Pixel(luma[n], vu[ChromaByte(m, n)], vu[ChromaByte(m, n) + 1]) else 0
  }

  lemma MapsOk(luma: seq<Byte>, vu: seq<Byte>, w: nat, m: nat, height: nat, pixels: nat)
    requires m > 0 && 32 * m <= w && 32 * w * height <= pixels
    requires m * height * TILE <= |luma| && m * ((height + 1) / 2) * TILE <= |vu|
    ensures Walk(Addresses(w, m), LumaTile(m, height, 0), pixels) && IsWalk(w, m, Addresses(w, m), ChromaBytes(m))
    ensures Paints(luma, vu, ChromaBytes(m), Colours(luma, vu, m), LumaTile(m, height, 0))
  {
    WalkIsWalk(w, m, height, Addresses(w, m), pixels);
    forall n | 0 <= n < LumaTile(m, height, 0) ensures PaintsByte(luma, vu, ChromaBytes(m), Colours(luma, vu, m), n) {
      ChromaInBuffer(m, height, n);
    }
  }
}
