/** Conversion of decoded pictures between the tiled and the linear pixel formats. */
module PixelFormat {
  import opened Planes
  import opened Tiles
  import opened Pictures

  // ---------------------------------------------------------------- copies between buffers

  method CopyBytes(src: array<Byte>, from: nat, dst: array<Byte>, to: nat, n: nat)
    requires src != dst && from + n <= src.Length && to + n <= dst.Length
    modifies dst
    ensures forall k :: 0 <= k < dst.Length ==>
              dst[k] == if to <= k < to + n then src[from + (k - to)] else old(dst[k])
  {
    for x := 0 to n
      invariant forall k :: 0 <= k < dst.Length ==>
                  dst[k] == if to <= k < to + x then src[from + (k - to)] else old(dst[k])
    {
      dst[to + x] := src[from + x];
    }
  }

  lemma TilesSize(width: nat, height: nat)
    ensures RowsSize(TILE * width, height) == width * height * TILE
  {
    RowsSizeIsProduct(TILE * width, height);
  }

  /** Splits the interleaved chroma tiles onto two planes. */
  method UntilePair(src: array<Byte>, dst: array<Byte>, b: Grid, r: Grid, rows: nat, cols: nat,
                    skip: nat, width: nat, height: nat, ghost lo: nat, ghost hi: nat)
    requires src != dst && PairFits(b, r, rows, cols, lo, hi) && hi <= dst.Length
    requires (skip == 1 || skip == 2) && RowsSize(TILE * width, height) <= src.Length
    requires cols * 2 <= 32 * width && (if skip == 2 then 2 * rows else rows) <= 32 * height
    modifies dst
    ensures forall i, j :: 0 <= i < rows && 0 <= j < cols ==>
              && Sample(Lane(0, 2, skip), width, i, j) < src.Length
              && dst[At(b, i, j)] == src[Sample(Lane(0, 2, skip), width, i, j)]
    ensures forall i, j :: 0 <= i < rows && 0 <= j < cols ==>
              && Sample(Lane(1, 2, skip), width, i, j) < src.Length
              && dst[At(r, i, j)] == src[Sample(Lane(1, 2, skip), width, i, j)]
    ensures forall x :: 0 <= x < dst.Length && !(lo <= x < hi) ==> dst[x] == old(dst[x])
  {
    TilesSize(width, height);
    Untile(src, dst, b, rows, cols, Lane(0, 2, skip), width, height);
    Untile(src, dst, r, rows, cols, Lane(1, 2, skip), width, height);
  }

  method CopyPair(src: array<Byte>, sb: Grid, sr: Grid, dst: array<Byte>, b: Grid, r: Grid, rows: nat, cols: nat,
                  ghost lo: nat, ghost hi: nat, ghost lo': nat, ghost hi': nat)
    requires src != dst && PairFits(b, r, rows, cols, lo, hi) && hi <= dst.Length
    requires PairFits(sb, sr, rows, cols, lo', hi') && hi' <= src.Length
    modifies dst
    ensures forall i, j :: 0 <= i < rows && 0 <= j < cols ==> dst[At(b, i, j)] == src[At(sb, i, j)]
    ensures forall i, j :: 0 <= i < rows && 0 <= j < cols ==> dst[At(r, i, j)] == src[At(sr, i, j)]
    ensures forall x :: 0 <= x < dst.Length && !Hits(b, rows, cols, x) && !Hits(r, rows, cols, x) ==>
              dst[x] == old(dst[x])
    ensures forall x :: 0 <= x < dst.Length && !(lo <= x < hi) ==> dst[x] == old(dst[x])
  {
    CopySamples(src, sb, dst, b, rows, cols);
    CopySamples(src, sr, dst, r, rows, cols);
  }

  /** Only bytes in `lo .. hi` differ. */
  ghost predicate KeptBytes(before: seq<Byte>, after: seq<Byte>, lo: int, hi: int) {
    |before| == |after| && forall x :: 0 <= x < |after| && !(lo <= x < hi) ==> after[x] == before[x]
  }

  // ---------------------------------------------------------------- luma

  lemma BlocksInTiles(n: int, b: int, t: int)
    requires 16 * b < n + 16 && n <= 32 * t
    ensures 16 * b <= 32 * t
  {
    if b >= 2 * t + 1 {
      MulMonotone(2 * t + 1, b, 16);
      assert false;
    }
  }

  lemma SameBlocks(n: int, h: int, b: int, b': int)
    requires n <= 2 * h <= n + 1 && n <= 16 * b < n + 16 && 2 * h <= 16 * b' < 2 * h + 16
    ensures b == b'
  {
    if b + 1 <= b' {
      MulMonotone(b + 1, b', 16);
      OddGap(h, 8 * b);
      assert false;
    } else if b' + 1 <= b {
      MulMonotone(b' + 1, b, 16);
      assert false;
    }
  }

  lemma OddGap(h: int, k: int)
    requires 2 * h > 2 * k
    ensures 2 * h >= 2 * k + 2
  {
    if h <= k { assert false; }
  }

  lemma AlignedInTiles(n: nat)
    ensures Align16(n) <= 32 * TilesFor(n)
    ensures Align16(2 * HalfUp(n)) == Align16(n)
  {
    BlocksInTiles(n, Blocks16(n), TilesFor(n));
    SameBlocks(n, HalfUp(n), Blocks16(n), Blocks16(2 * HalfUp(n)));
  }

  /** The tiles of a row that the vector loop copies without clipping. */
  function WholeTiles(width: nat): int {
    if 32 * TilesFor(width) == Align16(width) then TilesFor(width) else TilesFor(width) - 1
  }

  /** Copying their lines whole stays inside the rows, so the clipped loop does the same. */
  lemma WholeTilesFit(width: nat, j: nat)
    requires j < WholeTiles(width)
    ensures 32 * j + 32 <= Align16(width)
  {
    if 32 * TilesFor(width) == Align16(width) {
      MulMonotone(j + 1, TilesFor(width), 32);
    } else {
      MulMonotone(j + 1, TilesFor(width) - 1, 32);
      assert 32 * TilesFor(width) < width + 32;
    }
  }

  method UntileLuma(input: VideoPicture, output: VideoPicture)
    requires Tiled(input.format) && Linear(output.format) && input.Fits() && output.Fits() && input.data != output.data
    requires output.width == input.width && output.height == input.height && output.lineStride == Align16(input.width)
    modifies output.data
    ensures SameLuma(input.View(), output.View(), input.height, input.width)
    ensures KeptBytes(old(output.data[..]), output.data[..], 0, LumaSize(output.lineStride, output.height))
  {
    var w, h, stride := input.width, input.height, output.lineStride;
    LumaPlaneFits(stride, h);
    AlignedInTiles(w);
    TilesSize(TilesFor(w), TilesFor(h));
    forall j: nat | j < WholeTiles(w) ensures 32 * j + 32 <= stride {
      WholeTilesFit(w, j);
    }
    Untile(input.data, output.data, LumaPlane(stride), h, stride, Lane(0, 1, 1), TilesFor(w), TilesFor(h));
  }

  method CopyLuma(input: VideoPicture, output: VideoPicture)
    requires Linear(input.format) && Linear(output.format) && input.Fits() && output.Fits() && input.data != output.data
    requires output.width == input.width && output.height == input.height
    requires output.lineStride == input.lineStride == Align16(input.width)
    modifies output.data
    ensures SameLuma(input.View(), output.View(), input.height, input.width)
    ensures KeptBytes(old(output.data[..]), output.data[..], 0, LumaSize(output.lineStride, output.height))
  {
    var size := LumaSize(output.lineStride, output.height);
    CopyBytes(input.data, 0, output.data, 0, size);
    LumaPlaneFits(output.lineStride, output.height);
  }

  // ---------------------------------------------------------------- chroma

  lemma HalfFits(n: nat)
    ensures HalfUp(n) <= 8 * Blocks16(n) == Align16(n) / 2
  {
  }

  lemma PairFitsPart(g: Grid, h: Grid, rows: nat, cols: nat, lo: int, hi: int, rows': nat, cols': nat)
    requires PairFits(g, h, rows, cols, lo, hi) && rows' <= rows && cols' <= cols
    ensures PairFits(g, h, rows', cols', lo, hi)
  {
  }

  lemma VisibleChromaFits(f: Format, width: nat, height: nat, stride: nat, cols: nat)
    requires Linear(f) && stride == Align16(width) && cols <= 8 * Blocks16(width)
    ensures PairFits(CbPlane(f, stride, height), CrPlane(f, stride, height), HalfUp(height), cols,
                     LumaSize(stride, height), TotalSize(stride, height))
  {
    HalfFits(height);
    ChromaPlanesFit(f, stride, height, 8 * Blocks16(width));
    PairFitsPart(CbPlane(f, stride, height), CrPlane(f, stride, height), 8 * Blocks16(height), 8 * Blocks16(width),
                 LumaSize(stride, height), TotalSize(stride, height), HalfUp(height), cols);
  }

  lemma ChromaTiles(width: nat)
    ensures 8 * Blocks16(width) * 2 <= 32 * TilesFor(2 * HalfUp(width))
  {
    AlignedInTiles(width);
    AlignedInTiles(2 * HalfUp(width));
  }

  /** Chroma samples found in the tiles and put onto the planes of a linear format are the
      same chroma. */
  lemma TiledChromaShown(a: Image, b: Image, pb: Grid, pr: Grid, rows: nat, cols: nat, lo: nat, hi: nat, skip: nat,
                         width: nat)
    requires Tiled(a.format) && !Tiled(b.format) && PairFits(pb, pr, rows, cols, lo, hi) && hi <= |b.data|
    requires pb == CbPlane(b.format, b.stride, b.height) && pr == CrPlane(b.format, b.stride, b.height)
    requires width == TilesFor(2 * HalfUp(a.width)) && skip == if a.format.Mb32_422? then 2 else 1
    requires forall i, j :: 0 <= i < rows && 0 <= j < cols ==>
               && Sample(Lane(0, 2, skip), width, i, j) < |a.chroma|
               && b.data[At(pb, i, j)] == a.chroma[Sample(Lane(0, 2, skip), width, i, j)]
    requires forall i, j :: 0 <= i < rows && 0 <= j < cols ==>
               && Sample(Lane(1, 2, skip), width, i, j) < |a.chroma|
               && b.data[At(pr, i, j)] == a.chroma[Sample(Lane(1, 2, skip), width, i, j)]
    ensures SameChroma(a, b, rows, cols)
  {
  }

  lemma LinearChromaShown(a: Image, b: Image, sb: Grid, sr: Grid, pb: Grid, pr: Grid, rows: nat, cols: nat, lo: nat,
                          hi: nat)
    requires !Tiled(a.format) && !Tiled(b.format) && PairFits(pb, pr, rows, cols, lo, hi) && hi <= |b.data|
    requires sb == CbPlane(a.format, a.stride, a.height) && sr == CrPlane(a.format, a.stride, a.height)
    requires pb == CbPlane(b.format, b.stride, b.height) && pr == CrPlane(b.format, b.stride, b.height)
    requires PairFits(sb, sr, rows, cols, lo, hi) && hi <= |a.data|
    requires forall i, j :: 0 <= i < rows && 0 <= j < cols ==> b.data[At(pb, i, j)] == a.data[At(sb, i, j)]
    requires forall i, j :: 0 <= i < rows && 0 <= j < cols ==> b.data[At(pr, i, j)] == a.data[At(sr, i, j)]
    ensures SameChroma(a, b, rows, cols)
  {
  }

  /** The row stride that the tiled chroma routines work out from the chroma width: bytes of
      interleaved pairs, or of one plane. */
  function OwnStride(f: Format, width: nat): nat {
    if f.Nv21? || f.Nv12? then (HalfUp(width) * 2 + 15) / 16 * 16 else (HalfUp(width) + 7) / 8 * 8
  }

  lemma HalfBlocks(width: nat, b: nat)
    requires b == Blocks16(width)
    ensures 8 * b - 8 < HalfUp(width) <= 8 * b
  {
    HalfFits(width);
  }

  lemma Rounded8(n: nat, b: nat)
    requires 8 * b - 8 < n <= 8 * b
    ensures (n + 7) / 8 * 8 == 8 * b
  {
  }

  lemma Rounded16(n: nat, b: nat)
    requires 16 * b - 16 < n <= 16 * b
    ensures (n + 15) / 16 * 16 == 16 * b
  {
  }

  lemma OwnStrides(width: nat)
    ensures (HalfUp(width) + 7) / 8 * 8 == 8 * Blocks16(width)
    ensures (HalfUp(width) * 2 + 15) / 16 * 16 == Align16(width)
  {
    HalfBlocks(width, Blocks16(width));
    Rounded8(HalfUp(width), Blocks16(width));
    Rounded16(HalfUp(width) * 2, Blocks16(width));
  }

  /** It is the stride of the chroma planes of the picture. */
  lemma OwnStrideIsPlaneStride(f: Format, width: nat, height: nat, stride: nat)
    requires Linear(f) && stride == Align16(width)
    ensures OwnStride(f, width) == CbPlane(f, stride, height).row == CrPlane(f, stride, height).row
  {
    OwnStrides(width);
    HalfFits(width);
  }

  method UntileChroma(input: VideoPicture, output: VideoPicture)
    requires Tiled(input.format) && Linear(output.format) && input.Fits() && output.Fits() &&
             input.chroma != output.data
    requires output.width == input.width && output.height == input.height && output.lineStride == Align16(input.width)
    modifies output.data
    ensures SameChroma(input.View(), output.View(), HalfUp(input.height), HalfUp(input.width))
    ensures KeptBytes(old(output.data[..]), output.data[..], LumaSize(output.lineStride, output.height),
                      TotalSize(output.lineStride, output.height))
  {
    var w, h, stride := input.width, input.height, output.lineStride;
    var b, r := CbPlane(output.format, stride, h), CrPlane(output.format, stride, h);
    OwnStrideIsPlaneStride(output.format, w, h, stride);
    b, r := Grid(b.off, OwnStride(output.format, w), b.col), Grid(r.off, OwnStride(output.format, w), r.col);
    var skip := if input.format.Mb32_422? then 2 else 1;
    ghost var lo, hi := LumaSize(stride, h), TotalSize(stride, h);
    var cols := 8 * Blocks16(w);
    HalfFits(w);
    VisibleChromaFits(output.format, w, h, stride, cols);
    ChromaTiles(w);
    UntilePair(input.chroma, output.data, b, r, HalfUp(h), cols, skip,
               TilesFor(2 * HalfUp(w)), TilesFor(ChromaLines(input.format, h)), lo, hi);
    TiledChromaShown(input.View(), output.View(), b, r, HalfUp(h), cols, lo, hi, skip, TilesFor(2 * HalfUp(w)));
  }

  /** Copies `rows` lines of `cols` samples of both components. */
  method CopyComponents(input: VideoPicture, output: VideoPicture, rows: nat, cols: nat, ghost lo: nat, ghost hi: nat)
    requires !Tiled(input.format) && !Tiled(output.format) && input.data != output.data
    requires hi <= input.data.Length && hi <= output.data.Length
    requires PairFits(CbPlane(input.format, input.lineStride, input.height),
                      CrPlane(input.format, input.lineStride, input.height), rows, cols, lo, hi)
    requires PairFits(CbPlane(output.format, output.lineStride, output.height),
                      CrPlane(output.format, output.lineStride, output.height), rows, cols, lo, hi)
    modifies output.data
    ensures SameChroma(input.View(), output.View(), rows, cols)
    ensures KeptBytes(old(output.data[..]), output.data[..], lo, hi)
  {
    var sb := CbPlane(input.format, input.lineStride, input.height);
    var sr := CrPlane(input.format, input.lineStride, input.height);
    var b := CbPlane(output.format, output.lineStride, output.height);
    var r := CrPlane(output.format, output.lineStride, output.height);
    CopyPair(input.data, sb, sr, output.data, b, r, rows, cols, lo, hi, lo, hi);
    LinearChromaShown(input.View(), output.View(), sb, sr, b, r, rows, cols, lo, hi);
  }

  method CopyChroma(input: VideoPicture, output: VideoPicture)
    requires Linear(input.format) && Linear(output.format) && input.Fits() && output.Fits() && input.data != output.data
    requires output.width == input.width && output.height == input.height
    requires output.lineStride == input.lineStride == Align16(input.width)
    modifies output.data
    ensures SameChroma(input.View(), output.View(), HalfUp(input.height), HalfUp(input.width))
    ensures KeptBytes(old(output.data[..]), output.data[..], LumaSize(output.lineStride, output.height),
                      TotalSize(output.lineStride, output.height))
  {
    var w, h, stride := input.width, input.height, output.lineStride;
    HalfFits(w);
    VisibleChromaFits(input.format, w, h, stride, HalfUp(w));
    VisibleChromaFits(output.format, w, h, stride, HalfUp(w));
    CopyComponents(input, output, HalfUp(h), HalfUp(w), LumaSize(stride, h), TotalSize(stride, h));
  }

  /** Planar to YV12 exchanges the two whole chroma planes. */
  method SwapChroma(input: VideoPicture, output: VideoPicture)
    requires input.format.Planar420? && output.format.Yv12? && input.Fits() && output.Fits() &&
             input.data != output.data
    requires output.width == input.width && output.height == input.height
    requires output.lineStride == input.lineStride == Align16(input.width)
    modifies output.data
    ensures SameChroma(input.View(), output.View(), HalfUp(input.height), HalfUp(input.width))
    ensures KeptBytes(old(output.data[..]), output.data[..], LumaSize(output.lineStride, output.height),
                      TotalSize(output.lineStride, output.height))
  {
    var y := LumaSize(output.lineStride, output.height);
    var c := y / 4;
    CopyBytes(input.data, y + c, output.data, y, c);
    CopyBytes(input.data, y, output.data, y + c, c);
    SwappedChromaShown(input.View(), output.View(), y, c);
  }

  lemma QuarterPlane(a: nat, s: nat, y: nat, rows: nat, cols: nat)
    requires y == 4 * (a * s) && rows <= a && cols <= s
    ensures Inside(Grid(0, s, 1), rows, cols, 0, y / 4)
  {
    PackedPlaneFits(Grid(0, s, 1), a, s);
  }

  lemma PlanarInside(width: nat, height: nat, stride: nat, y: nat)
    requires stride == Align16(width) && y == LumaSize(stride, height)
    ensures Inside(Grid(0, stride / 2, 1), HalfUp(height), HalfUp(width), 0, y / 4)
  {
    var a, s := 8 * Blocks16(height), 8 * Blocks16(width);
    HalfFits(width);
    HalfFits(height);
    RowsSizeIsProduct(stride, 2 * a);
    QuarterSize(stride, 2 * a, s, a);
    QuarterPlane(a, s, y, HalfUp(height), HalfUp(width));
  }

  lemma SwappedSample(a: Image, b: Image, y: nat, c: nat, k: int, i: nat, j: nat)
    requires a.format.Planar420? && b.format.Yv12? && a.height == b.height && a.stride == b.stride
    requires y == LumaSize(a.stride, a.height) && c == y / 4 && y + c + c <= |a.data| && y + c + c <= |b.data|
    requires a.data[y..y + c] == b.data[y + c..y + c + c] && a.data[y + c..y + c + c] == b.data[y..y + c]
    requires k == At(Grid(0, a.stride / 2, 1), i, j) && 0 <= k < c
    ensures Cb(a, i, j) == Cb(b, i, j) && Cr(a, i, j) == Cr(b, i, j)
  {
    assert a.data[y..y + c][k] == b.data[y + c..y + c + c][k];
    assert a.data[y + c..y + c + c][k] == b.data[y..y + c][k];
  }

  lemma SwappedChromaShown(a: Image, b: Image, y: nat, c: nat)
    requires a.format.Planar420? && b.format.Yv12?
    requires a.width == b.width && a.height == b.height && a.stride == b.stride == Align16(a.width)
    requires y == LumaSize(a.stride, a.height) && c == y / 4 && y + c + c <= |a.data| && y + c + c <= |b.data|
    requires a.data[y..y + c] == b.data[y + c..y + c + c] && a.data[y + c..y + c + c] == b.data[y..y + c]
    ensures SameChroma(a, b, HalfUp(a.height), HalfUp(a.width))
  {
    PlanarInside(a.width, a.height, a.stride, y);
    forall i, j | 0 <= i < HalfUp(a.height) && 0 <= j < HalfUp(a.width)
      ensures Cb(a, i, j) == Cb(b, i, j) && Cr(a, i, j) == Cr(b, i, j)
    {
      SwappedSample(a, b, y, c, At(Grid(0, a.stride / 2, 1), i, j), i, j);
    }
  }

  // ---------------------------------------------------------------- the conversion

  predicate Supported(f: Format, g: Format) {
    || (g.Yv12? && (Tiled(f) || f.Nv21? || f.Planar420?))
    || (g.Nv21? && (Tiled(f) || f.Yv12? || f.Planar420?))
  }

  /** Writing behind the luma plane leaves the luma alone. */
  lemma LumaKept(a: Image, b: Image, c: Image, hi: nat)
    requires !Tiled(b.format) && b.width <= b.stride
    requires c.format == b.format && c.width == b.width && c.height == b.height && c.stride == b.stride
    requires KeptBytes(b.data, c.data, LumaSize(b.stride, b.height), hi) && SameLuma(a, b, b.height, b.width)
    ensures SameLuma(a, c, b.height, b.width)
  {
    LumaPlaneFits(b.stride, b.height);
    forall i, j | 0 <= i < b.height && 0 <= j < b.width ensures Luma(a, i, j) == Luma(c, i, j) {
      assert Luma(a, i, j) == Luma(b, i, j);
      assert 0 <= At(LumaPlane(b.stride), i, j) < LumaSize(b.stride, b.height);
    }
  }

  method ConvertPixels(input: VideoPicture, output: VideoPicture)
    requires Supported(input.format, output.format) && input.Fits() && output.Fits()
    requires input.data != output.data && input.chroma != output.data
    requires output.width == input.width && output.height == input.height && output.lineStride == Align16(input.width)
    requires Linear(input.format) ==> input.lineStride == Align16(input.width)
    modifies output.data
    ensures SamePicture(input.View(), output.View())
    ensures KeptBytes(old(output.data[..]), output.data[..], 0, TotalSize(output.lineStride, output.height))
  {
    if Tiled(input.format) {
      UntileLuma(input, output);
    } else {
      CopyLuma(input, output);
    }
    ghost var half := output.View();
    if Tiled(input.format) {
      UntileChroma(input, output);
    } else if input.format.Planar420? && output.format.Yv12? {
      SwapChroma(input, output);
    } else {
      CopyChroma(input, output);
    }
    LumaKept(input.View(), half, output.View(), TotalSize(output.lineStride, output.height));
  }

  /** Converts `input` into the format and buffer of `output`. A pair of formats that the
      conversion does not know gets a new header and keeps its old bytes. */
  method ConvertPixelFormat(input: VideoPicture, output: VideoPicture)
    requires input != output && input.data != output.data && input.chroma != output.data
    requires input.Fits() && (Linear(input.format) ==> input.lineStride == Align16(input.width))
    requires BigEnough(output.format, input.width, input.height, Align16(input.width), output.data.Length,
                       output.chroma.Length)
    modifies output, output.data, input`data1, input`data2
    ensures input.View() == old(input.View())
    ensures output.format == old(output.format) && output.width == input.width && output.height == input.height
    ensures output.lineStride == Align16(input.width)
    ensures Supported(input.format, output.format) ==> SamePicture(input.View(), output.View())
    ensures !Supported(input.format, output.format) ==> output.data[..] == old(output.data[..])
    ensures KeptBytes(old(output.data[..]), output.data[..], 0, TotalSize(output.lineStride, output.height))
    ensures var y := LumaSize(output.lineStride, output.height);
            && (input.format.Nv21? && output.format.Yv12? ==>
                  output.data1 == input.data1 == y && output.data2 == y + y / 4)
            && ((input.format.Yv12? || input.format.Planar420?) && output.format.Nv21? ==>
                  output.data1 == input.data1 == y && input.data2 == y + y / 4)
  {
    output.lineStride, output.height, output.width := Align16(input.width), input.height, input.width;
    var y := LumaSize(output.lineStride, output.height);
    if input.format.Nv21? && output.format.Yv12? {
      output.data1, output.data2, input.data1 := y, y + y / 4, y;
    } else if (input.format.Yv12? || input.format.Planar420?) && output.format.Nv21? {
      input.data1, input.data2, output.data1 := y, y + y / 4, y;
    }
    if Supported(input.format, output.format) {
      ConvertPixels(input, output);
    }
  }

  // ---------------------------------------------------------------- routes

  /** The bytes that hold visible samples are the same. */
  ghost predicate SameVisibleBytes(a: Image, b: Image) {
    && a.format == b.format && a.width == b.width && a.height == b.height && a.stride == b.stride
    && SameBytesOn(a, b, LumaPlane(a.stride), a.height, a.width)
    && SameBytesOn(a, b, CbPlane(a.format, a.stride, a.height), HalfUp(a.height), HalfUp(a.width))
    && SameBytesOn(a, b, CrPlane(a.format, a.stride, a.height), HalfUp(a.height), HalfUp(a.width))
  }

  ghost predicate SameBytesOn(a: Image, b: Image, g: Grid, rows: nat, cols: nat) {
    forall x :: 0 <= x < |a.data| && x < |b.data| && Hits(g, rows, cols, x) ==> a.data[x] == b.data[x]
  }

  /** In one linear format, the same picture is stored as the same visible bytes. */
  lemma SamePictureSameBytes(a: Image, b: Image)
    requires SamePicture(a, b) && Linear(a.format) && a.format == b.format && a.stride == b.stride
    ensures SameVisibleBytes(a, b)
  {
    SameLumaBytes(a, b);
    SameChromaBytes(a, b);
  }

  lemma SameLumaBytes(a: Image, b: Image)
    requires SameLuma(a, b, a.height, a.width) && !Tiled(a.format) && a.format == b.format && a.stride == b.stride
    ensures SameBytesOn(a, b, LumaPlane(a.stride), a.height, a.width)
  {
    var g := LumaPlane(a.stride);
    forall x | 0 <= x < |a.data| && x < |b.data| && Hits(g, a.height, a.width, x) ensures a.data[x] == b.data[x] {
      var i, j :| 0 <= i < a.height && 0 <= j < a.width && At(g, i, j) == x;
      assert Luma(a, i, j) == Luma(b, i, j);
    }
  }

  lemma SameChromaBytes(a: Image, b: Image)
    requires SameChroma(a, b, HalfUp(a.height), HalfUp(a.width)) && !Tiled(a.format)
    requires a.format == b.format && a.stride == b.stride && a.height == b.height
    ensures SameBytesOn(a, b, CbPlane(a.format, a.stride, a.height), HalfUp(a.height), HalfUp(a.width))
    ensures SameBytesOn(a, b, CrPlane(a.format, a.stride, a.height), HalfUp(a.height), HalfUp(a.width))
  {
    var rows, cols := HalfUp(a.height), HalfUp(a.width);
    var g, h := CbPlane(a.format, a.stride, a.height), CrPlane(a.format, a.stride, a.height);
    forall x | 0 <= x < |a.data| && x < |b.data| && Hits(g, rows, cols, x) ensures a.data[x] == b.data[x] {
      var i, j :| 0 <= i < rows && 0 <= j < cols && At(g, i, j) == x;
      assert Cb(a, i, j) == Cb(b, i, j);
    }
    forall x | 0 <= x < |a.data| && x < |b.data| && Hits(h, rows, cols, x) ensures a.data[x] == b.data[x] {
      var i, j :| 0 <= i < rows && 0 <= j < cols && At(h, i, j) == x;
      assert Cr(a, i, j) == Cr(b, i, j);
    }
  }

  lemma SamePictureTransitive(a: Image, b: Image, c: Image)
    requires SamePicture(a, b) && SamePicture(b, c)
    ensures SamePicture(a, c)
  {
    forall i, j | 0 <= i < a.height && 0 <= j < a.width ensures Luma(a, i, j) == Luma(c, i, j) {
      assert Luma(a, i, j) == Luma(b, i, j);
    }
    forall i, j | 0 <= i < HalfUp(a.height) && 0 <= j < HalfUp(a.width)
      ensures Cb(a, i, j) == Cb(c, i, j) && Cr(a, i, j) == Cr(c, i, j)
    {
      assert Cb(a, i, j) == Cb(b, i, j) && Cr(a, i, j) == Cr(b, i, j);
    }
  }

  lemma OneSource(a: Image, b: Image, c: Image)
    requires SamePicture(a, b) && SamePicture(a, c)
    ensures SamePicture(b, c)
  {
    SamePictureTransitive(b, a, c);
  }

  /** Two conversions in a row keep the picture. */
  method ConvertThrough(input: VideoPicture, via: VideoPicture, output: VideoPicture)
    requires input !in {via, output} && via != output
    requires input.data !in {via.data, output.data} && via.data != output.data
    requires input.chroma !in {via.data, output.data} && via.chroma != output.data
    requires input.Fits() && (Linear(input.format) ==> input.lineStride == Align16(input.width))
    requires Supported(input.format, via.format) && Supported(via.format, output.format)
    requires forall p :: p in {via, output} ==>
               BigEnough(p.format, input.width, input.height, Align16(input.width), p.data.Length, p.chroma.Length)
    modifies via, output, via.data, output.data, input`data1, input`data2
    ensures input.View() == old(input.View()) && SamePicture(input.View(), output.View())
    ensures output.format == old(output.format) && output.lineStride == Align16(input.width)
  {
    ConvertPixelFormat(input, via);
    ConvertPixelFormat(via, output);
    SamePictureTransitive(input.View(), via.View(), output.View());
  }

  /** Converting directly and converting through another format store the same visible bytes. */
  method RoutesAgree(input: VideoPicture, direct: VideoPicture, via: VideoPicture, twice: VideoPicture)
    requires input !in {direct, via, twice} && direct !in {via, twice} && via != twice
    requires input.data !in {direct.data, via.data, twice.data} && direct.data !in {via.data, twice.data} &&
             via.data != twice.data
    requires input.chroma !in {direct.data, via.data, twice.data} && via.chroma != twice.data
    requires input.Fits() && (Linear(input.format) ==> input.lineStride == Align16(input.width))
    requires direct.format == twice.format
    requires Supported(input.format, direct.format) && Supported(input.format, via.format) &&
             Supported(via.format, twice.format)
    requires forall p :: p in {direct, via, twice} ==>
               BigEnough(p.format, input.width, input.height, Align16(input.width), p.data.Length, p.chroma.Length)
    modifies direct, via, twice, direct.data, via.data, twice.data, input`data1, input`data2
    ensures SameVisibleBytes(direct.View(), twice.View())
  {
    ConvertThrough(input, via, twice);
    ConvertPixelFormat(input, direct);
    OneSource(input.View(), direct.View(), twice.View());
    SamePictureSameBytes(direct.View(), twice.View());
  }

  /** There and back again gives the bytes one started with. */
  method RoundTrip(input: VideoPicture, via: VideoPicture, output: VideoPicture)
    requires input !in {via, output} && via != output
    requires input.data !in {via.data, output.data} && via.data != output.data
    requires input.chroma !in {via.data, output.data} && via.chroma != output.data
    requires input.Fits() && Linear(input.format) && input.lineStride == Align16(input.width) &&
             output.format == input.format
    requires Supported(input.format, via.format) && Supported(via.format, input.format)
    requires forall p :: p in {via, output} ==>
               BigEnough(p.format, input.width, input.height, Align16(input.width), p.data.Length, p.chroma.Length)
    modifies via, output, via.data, output.data, input`data1, input`data2
    ensures input.View() == old(input.View()) && SameVisibleBytes(input.View(), output.View())
  {
    ConvertThrough(input, via, output);
    SamePictureSameBytes(input.View(), output.View());
  }
}
