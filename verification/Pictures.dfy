/** Decoded pictures: where each pixel format keeps its luma and chroma samples, and the
    picture object that the conversions and rotations update. */
module Pictures {
  import opened Planes
  import opened Tiles

  datatype Format = Planar420 | Yv12 | Nv21 | Nv12 | Mb32_420 | Mb32_422 | Other

  /** Row by row, all components in one buffer. */
  predicate Linear(f: Format) {
    f.Planar420? || f.Yv12? || f.Nv21? || f.Nv12?
  }

  predicate Tiled(f: Format) {
    f.Mb32_420? || f.Mb32_422?
  }

  /** Chroma samples for `n` luma samples. */
  function HalfUp(n: nat): (r: nat)
    ensures n <= 2 * r <= n + 1
  {
    (n + 1) / 2
  }

  /** Bytes of `n` rows. */
  function RowsSize(stride: nat, n: nat): nat {
    if n == 0 then 0 else RowsSize(stride, n - 1) + stride
  }

  lemma {:induction false} RowsSizeIsProduct(stride: nat, n: nat)
    ensures RowsSize(stride, n) == stride * n
  {
    if n > 0 {
      RowsSizeIsProduct(stride, n - 1);
      assert stride * n == stride * (n - 1) + stride;
    }
  }

  function LumaSize(stride: nat, height: nat): nat {
    RowsSize(stride, Align16(height))
  }

  /** End of the chroma planes of a linear format. */
  function TotalSize(stride: nat, height: nat): nat {
    LumaSize(stride, height) + LumaSize(stride, height) / 2
  }

  function LumaPlane(stride: nat): Grid {
    Grid(0, stride, 1)
  }

  /** The planes of Cb and Cr in the format's layout behind a luma plane of `y` bytes. */
  function ChromaPlanes(f: Format, stride: nat, y: nat): (Grid, Grid) {
    match f
    case Nv12 => (Grid(y, stride, 2), Grid(y + 1, stride, 2))
    case Nv21 => (Grid(y + 1, stride, 2), Grid(y, stride, 2))
    case Planar420 => (Grid(y, stride / 2, 1), Grid(y + y / 4, stride / 2, 1))
    case _ => (Grid(y + y / 4, stride / 2, 1), Grid(y, stride / 2, 1))
  }

  function CbPlane(f: Format, stride: nat, height: nat): Grid {
    ChromaPlanes(f, stride, LumaSize(stride, height)).0
  }

  function CrPlane(f: Format, stride: nat, height: nat): Grid {
    ChromaPlanes(f, stride, LumaSize(stride, height)).1
  }

  // ---------------------------------------------------------------- the planes do not overlap

  lemma LumaPlaneFits(stride: nat, height: nat)
    ensures Inside(LumaPlane(stride), Align16(height), stride, 0, LumaSize(stride, height))
    ensures Injective(LumaPlane(stride), Align16(height), stride)
  {
    PackedPlaneFits(LumaPlane(stride), Align16(height), stride);
    RowsSizeIsProduct(stride, Align16(height));
  }

  /** A plane with `a` rows of `s` samples. */
  lemma PackedPlaneFits(g: Grid, a: nat, s: nat)
    requires 0 < g.col && g.row == s * g.col
    ensures Inside(g, a, s, g.off, g.off + a * s * g.col - g.col + 1) && Injective(g, a, s)
  {
    assert (s - 1) * g.col == s * g.col - g.col;
    assert (a - 1) * g.row == a * s * g.col - s * g.col;
    PlaneBounds(g, a, s);
    PlaneInjective(g, a, s);
  }

  ghost predicate Disjoint(g: Grid, h: Grid, rows: nat, cols: nat) {
    forall i, j :: 0 <= i < rows && 0 <= j < cols ==> !Hits(h, rows, cols, At(g, i, j))
  }

  lemma RangesDisjoint(g: Grid, h: Grid, rows: nat, cols: nat, lo: int, mid: int, hi: int)
    requires Inside(g, rows, cols, lo, mid) && Inside(h, rows, cols, mid, hi)
    ensures Disjoint(g, h, rows, cols) && Disjoint(h, g, rows, cols)
  {
  }

  /** The two lanes of an interleaved plane differ in parity. */
  lemma LanesDisjoint(g: Grid, h: Grid, s: nat, rows: nat, cols: nat)
    requires g.row == h.row == 2 * s && g.col == h.col == 2
    requires h.off == g.off + 1 || g.off == h.off + 1
    ensures Disjoint(g, h, rows, cols)
  {
    forall i, j, i', j' ensures At(g, i, j) != At(h, i', j') {
      assert At(g, i, j) == g.off + 2 * (i * s + j);
      assert At(h, i', j') == h.off + 2 * (i' * s + j');
    }
  }

  ghost predicate PairFits(g: Grid, h: Grid, rows: nat, cols: nat, lo: int, hi: int) {
    && Inside(g, rows, cols, lo, hi) && Injective(g, rows, cols)
    && Inside(h, rows, cols, lo, hi) && Injective(h, rows, cols)
    && Disjoint(g, h, rows, cols) && Disjoint(h, g, rows, cols)
  }

  lemma InterleavedFits(y: int, a: nat, s: nat)
    ensures PairFits(Grid(y, 2 * s, 2), Grid(y + 1, 2 * s, 2), a, s, y, y + 2 * (a * s))
  {
    var g, h := Grid(y, 2 * s, 2), Grid(y + 1, 2 * s, 2);
    PackedPlaneFits(g, a, s);
    PackedPlaneFits(h, a, s);
    LanesDisjoint(g, h, s, a, s);
    LanesDisjoint(h, g, s, a, s);
  }

  lemma PlanarFits(y: int, a: nat, s: nat)
    ensures PairFits(Grid(y, s, 1), Grid(y + a * s, s, 1), a, s, y, y + 2 * (a * s))
  {
    var g, h := Grid(y, s, 1), Grid(y + a * s, s, 1);
    PackedPlaneFits(g, a, s);
    PackedPlaneFits(h, a, s);
    RangesDisjoint(g, h, a, s, y, y + a * s, y + 2 * (a * s));
  }

  lemma ChromaPairFits(f: Format, stride: nat, y: nat, a: nat, s: nat)
    requires Linear(f) && stride == 2 * s && y == 4 * (a * s)
    ensures PairFits(ChromaPlanes(f, stride, y).0, ChromaPlanes(f, stride, y).1, a, s, y, y + y / 2)
  {
    if f.Nv12? || f.Nv21? {
      InterleavedFits(y, a, s);
    } else {
      PlanarFits(y, a, s);
    }
  }

  /** Both chroma planes lie behind the luma plane, in the half of its size that follows it,
      and no byte holds two samples. */
  lemma ChromaPlanesFit(f: Format, stride: nat, height: nat, s: nat)
    requires Linear(f) && stride == 2 * s
    ensures PairFits(CbPlane(f, stride, height), CrPlane(f, stride, height), 8 * Blocks16(height), s,
                     LumaSize(stride, height), TotalSize(stride, height))
  {
    ChromaLinesFit(f, stride, height, 8 * Blocks16(height), s);
  }

  lemma ChromaLinesFit(f: Format, stride: nat, height: nat, a: nat, s: nat)
    requires Linear(f) && stride == 2 * s && Align16(height) == 2 * a
    ensures PairFits(CbPlane(f, stride, height), CrPlane(f, stride, height), a, s,
                     LumaSize(stride, height), TotalSize(stride, height))
  {
    var y := LumaSize(stride, height);
    assert y == 4 * (a * s) by {
      RowsSizeIsProduct(stride, 2 * a);
      QuarterSize(stride, 2 * a, s, a);
    }
    ChromaPairFits(f, stride, y, a, s);
    assert CbPlane(f, stride, height) == ChromaPlanes(f, stride, y).0;
    assert CrPlane(f, stride, height) == ChromaPlanes(f, stride, y).1;
  }

  lemma QuarterSize(stride: nat, lines: nat, s: nat, a: nat)
    requires stride == 2 * s && lines == 2 * a
    ensures stride * lines == 4 * (a * s)
  {
  }

  // ---------------------------------------------------------------- the samples of a picture

  /** What a picture object holds: for the tiled formats `data` has the luma and `chroma`
      the chroma tiles, for the linear ones `data` has everything. */
  datatype Image = Image(format: Format, width: nat, height: nat, stride: nat, data: seq<Byte>, chroma: seq<Byte>)

  function Get(s: seq<Byte>, k: int): Byte {
    if 0 <= k < |s| then s[k] else 0
  }

  /** Lines of the chroma tiles: 4:2:2 keeps every line, 4:2:0 every second one. */
  function ChromaLines(f: Format, height: nat): nat {
    if f.Mb32_422? then 2 * HalfUp(height) else HalfUp(height)
  }

  function ChromaLane(f: Format, lane: nat): Lane {
    Lane(lane, 2, if f.Mb32_422? then 2 else 1)
  }

  function Luma(m: Image, i: nat, j: nat): Byte {
    Get(m.data,
        if Tiled(m.format) then Sample(Lane(0, 1, 1), TilesFor(m.width), i, j) else At(LumaPlane(m.stride), i, j))
  }

  function Cb(m: Image, i: nat, j: nat): Byte {
    if Tiled(m.format) then Get(m.chroma, Sample(ChromaLane(m.format, 0), TilesFor(2 * HalfUp(m.width)), i, j))
    else Get(m.data, At(CbPlane(m.format, m.stride, m.height), i, j))
  }

  function Cr(m: Image, i: nat, j: nat): Byte {
    if Tiled(m.format) then Get(m.chroma, Sample(ChromaLane(m.format, 1), TilesFor(2 * HalfUp(m.width)), i, j))
    else Get(m.data, At(CrPlane(m.format, m.stride, m.height), i, j))
  }

  /** The buffers of a picture hold all the samples that its format and size ask for. */
  ghost predicate BigEnough(f: Format, width: nat, height: nat, stride: nat, data: nat, chroma: nat) {
    && (Linear(f) ==> TotalSize(stride, height) <= data)
    && (Tiled(f) ==>
          && RowsSize(TILE * TilesFor(width), TilesFor(height)) <= data
          && RowsSize(TILE * TilesFor(2 * HalfUp(width)), TilesFor(ChromaLines(f, height))) <= chroma)
  }

  ghost predicate SameLuma(a: Image, b: Image, rows: nat, cols: nat) {
    forall i, j :: 0 <= i < rows && 0 <= j < cols ==> Luma(a, i, j) == Luma(b, i, j)
  }

  ghost predicate SameChroma(a: Image, b: Image, rows: nat, cols: nat) {
    && (forall i, j :: 0 <= i < rows && 0 <= j < cols ==> Cb(a, i, j) == Cb(b, i, j))
    && (forall i, j :: 0 <= i < rows && 0 <= j < cols ==> Cr(a, i, j) == Cr(b, i, j))
  }

  /** Two pictures that a viewer cannot tell apart: same size, same visible luma and chroma. */
  ghost predicate SamePicture(a: Image, b: Image) {
    && a.width == b.width && a.height == b.height
    && SameLuma(a, b, a.height, a.width)
    && SameChroma(a, b, HalfUp(a.height), HalfUp(a.width))
  }

  /** `data1` and `data2` are the chroma pointers of the linear formats, as offsets in `data`. */
  class VideoPicture {
    var format: Format
    var width: nat
    var height: nat
    var lineStride: nat
    const data: array<Byte>
    const chroma: array<Byte>
    var data1: nat
    var data2: nat

    constructor (format: Format, width: nat, height: nat, lineStride: nat, data: array<Byte>, chroma: array<Byte>)
      ensures View() == Image(format, width, height, lineStride, data[..], chroma[..])
      ensures this.data == data && this.chroma == chroma
    {
      this.format, this.width, this.height, this.lineStride := format, width, height, lineStride;
      this.data, this.chroma := data, chroma;
      data1, data2 := 0, 0;
    }

    ghost function View(): Image
      reads this, data, chroma
    {
      Image(format, width, height, lineStride, data[..], chroma[..])
    }

    ghost predicate Fits()
      reads this
    {
      BigEnough(format, width, height, lineStride, data.Length, chroma.Length)
    }
  }
}
