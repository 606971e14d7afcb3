/** The software rotations of linear pictures, and the group they form. */
module Rotation {
  import opened Planes
  import opened Pictures
  import opened PixelFormat

  /** A clockwise turn. */
  datatype Turn = T0 | T90 | T180 | T270

  /** Size of a picture of `rows` by `cols` samples after the turn. */
  function Rows(t: Turn, rows: nat, cols: nat): nat {
    if t.T90? || t.T270? then cols else rows
  }

  function Cols(t: Turn, rows: nat, cols: nat): nat {
    if t.T90? || t.T270? then rows else cols
  }

  /** Where the turn takes sample (i, j). */
  function MoveRow(t: Turn, rows: int, cols: int, i: int, j: int): int {
    match t
    case T0 => i
    case T90 => j
    case T180 => rows - 1 - i
    case T270 => cols - 1 - j
  }

  function MoveCol(t: Turn, rows: int, cols: int, i: int, j: int): int {
    match t
    case T0 => j
    case T90 => rows - 1 - i
    case T180 => cols - 1 - j
    case T270 => i
  }

  // ---------------------------------------------------------------- turned planes

  /** The grid that addresses the samples of a plane turned into `g` by their places before
      the turn: the row and column steps of the rotation loops. */
  function TurnedGrid(t: Turn, g: Grid, rows: nat, cols: nat): Grid {
    match t
    case T0 => g
    case T90 => Grid(g.off + (rows - 1) * g.col, -g.col, g.row)
    case T180 => Grid(g.off + (rows - 1) * g.row + (cols - 1) * g.col, -g.row, -g.col)
    case T270 => Grid(g.off + (cols - 1) * g.row, g.col, -g.row)
  }

  lemma TurnedAt(t: Turn, g: Grid, rows: nat, cols: nat, i: int, j: int)
    ensures At(TurnedGrid(t, g, rows, cols), i, j) == At(g, MoveRow(t, rows, cols, i, j), MoveCol(t, rows, cols, i, j))
  {
  }

  lemma TurnedFits(t: Turn, g: Grid, rows: nat, cols: nat, lo: int, hi: int)
    requires Inside(g, Rows(t, rows, cols), Cols(t, rows, cols), lo, hi)
    requires Injective(g, Rows(t, rows, cols), Cols(t, rows, cols))
    ensures Inside(TurnedGrid(t, g, rows, cols), rows, cols, lo, hi)
    ensures Injective(TurnedGrid(t, g, rows, cols), rows, cols)
  {
    forall i, j
      ensures At(TurnedGrid(t, g, rows, cols), i, j) ==
              At(g, MoveRow(t, rows, cols, i, j), MoveCol(t, rows, cols, i, j))
    {
      TurnedAt(t, g, rows, cols, i, j);
    }
  }

  lemma TurnedHits(t: Turn, g: Grid, rows: nat, cols: nat, x: int)
    requires Hits(TurnedGrid(t, g, rows, cols), rows, cols, x)
    ensures Hits(g, Rows(t, rows, cols), Cols(t, rows, cols), x)
  {
    var i, j :| 0 <= i < rows && 0 <= j < cols && At(TurnedGrid(t, g, rows, cols), i, j) == x;
    TurnedAt(t, g, rows, cols, i, j);
  }

  lemma TurnedPairFits(t: Turn, g: Grid, h: Grid, rows: nat, cols: nat, lo: int, hi: int)
    requires PairFits(g, h, Rows(t, rows, cols), Cols(t, rows, cols), lo, hi)
    ensures PairFits(TurnedGrid(t, g, rows, cols), TurnedGrid(t, h, rows, cols), rows, cols, lo, hi)
  {
    TurnedFits(t, g, rows, cols, lo, hi);
    TurnedFits(t, h, rows, cols, lo, hi);
    TurnedDisjoint(t, g, h, rows, cols);
    TurnedDisjoint(t, h, g, rows, cols);
  }

  lemma TurnedDisjoint(t: Turn, g: Grid, h: Grid, rows: nat, cols: nat)
    requires Disjoint(g, h, Rows(t, rows, cols), Cols(t, rows, cols))
    ensures Disjoint(TurnedGrid(t, g, rows, cols), TurnedGrid(t, h, rows, cols), rows, cols)
  {
    forall i, j | 0 <= i < rows && 0 <= j < cols
      ensures !Hits(TurnedGrid(t, h, rows, cols), rows, cols, At(TurnedGrid(t, g, rows, cols), i, j))
    {
      var x := At(TurnedGrid(t, g, rows, cols), i, j);
      TurnedAt(t, g, rows, cols, i, j);
      if Hits(TurnedGrid(t, h, rows, cols), rows, cols, x) {
        TurnedHits(t, h, rows, cols, x);
        assert false;
      }
    }
  }

  // ---------------------------------------------------------------- turned pictures

  ghost predicate LumaTurned(t: Turn, a: Image, b: Image, rows: nat, cols: nat) {
    forall i, j {:trigger Luma(a, i, j)} :: 0 <= i < rows && 0 <= j < cols ==>
      Luma(b, MoveRow(t, rows, cols, i, j), MoveCol(t, rows, cols, i, j)) == Luma(a, i, j)
  }

  ghost predicate ChromaTurned(t: Turn, a: Image, b: Image, rows: nat, cols: nat) {
    && (forall i, j {:trigger Cb(a, i, j)} :: 0 <= i < rows && 0 <= j < cols ==>
          Cb(b, MoveRow(t, rows, cols, i, j), MoveCol(t, rows, cols, i, j)) == Cb(a, i, j))
    && (forall i, j {:trigger Cr(a, i, j)} :: 0 <= i < rows && 0 <= j < cols ==>
          Cr(b, MoveRow(t, rows, cols, i, j), MoveCol(t, rows, cols, i, j)) == Cr(a, i, j))
  }

  /** `b` is `a` turned: all of the luma, and the chroma of the `height / 2` by `width / 2`
      samples that the loops visit. */
  ghost predicate IsTurned(t: Turn, a: Image, b: Image) {
    && b.height == Rows(t, a.height, a.width) && b.width == Cols(t, a.height, a.width)
    && LumaTurned(t, a, b, a.height, a.width)
    && ChromaTurned(t, a, b, a.height / 2, a.width / 2)
  }

  // ---------------------------------------------------------------- the group laws

  function Compose(t: Turn, u: Turn): Turn {
    match t
    case T0 => u
    case T90 => (match u case T0 => T90 case T90 => T180 case T180 => T270 case T270 => T0)
    case T180 => (match u case T0 => T180 case T90 => T270 case T180 => T0 case T270 => T90)
    case T270 => (match u case T0 => T270 case T90 => T0 case T180 => T90 case T270 => T180)
  }

  /** Two turns one after the other are the turn by the sum of their angles, whatever the
      size: in particular 90 and 270 undo each other, twice 90 is 180, twice 180 is nothing. */
  lemma TurnsCompose(t: Turn, u: Turn, a: Image, b: Image, c: Image)
    requires IsTurned(t, a, b) && IsTurned(u, b, c)
    ensures IsTurned(Compose(t, u), a, c)
  {
    LumaComposes(t, u, a, b, c);
    ChromaComposes(t, u, a, b, c);
  }

  lemma MovesCompose(t: Turn, u: Turn, rows: nat, cols: nat, i: int, j: int)
    ensures var i', j' := MoveRow(t, rows, cols, i, j), MoveCol(t, rows, cols, i, j);
            var rows', cols' := Rows(t, rows, cols), Cols(t, rows, cols);
            && MoveRow(u, rows', cols', i', j') == MoveRow(Compose(t, u), rows, cols, i, j)
            && MoveCol(u, rows', cols', i', j') == MoveCol(Compose(t, u), rows, cols, i, j)
  {
  }

  lemma LumaComposes(t: Turn, u: Turn, a: Image, b: Image, c: Image)
    requires IsTurned(t, a, b) && IsTurned(u, b, c)
    ensures LumaTurned(Compose(t, u), a, c, a.height, a.width)
  {
    var rows, cols := a.height, a.width;
    forall i, j | 0 <= i < rows && 0 <= j < cols
      ensures Luma(c, MoveRow(Compose(t, u), rows, cols, i, j), MoveCol(Compose(t, u), rows, cols, i, j)) ==
              Luma(a, i, j)
    {
      MovesCompose(t, u, rows, cols, i, j);
      assert Luma(b, MoveRow(t, rows, cols, i, j), MoveCol(t, rows, cols, i, j)) == Luma(a, i, j);
    }
  }

  lemma ChromaComposes(t: Turn, u: Turn, a: Image, b: Image, c: Image)
    requires IsTurned(t, a, b) && IsTurned(u, b, c)
    ensures ChromaTurned(Compose(t, u), a, c, a.height / 2, a.width / 2)
  {
    var rows, cols := a.height / 2, a.width / 2;
    var v := Compose(t, u);
    forall i, j | 0 <= i < rows && 0 <= j < cols
      ensures Cb(c, MoveRow(v, rows, cols, i, j), MoveCol(v, rows, cols, i, j)) == Cb(a, i, j)
      ensures Cr(c, MoveRow(v, rows, cols, i, j), MoveCol(v, rows, cols, i, j)) == Cr(a, i, j)
    {
      MovesCompose(t, u, rows, cols, i, j);
      assert Cb(b, MoveRow(t, rows, cols, i, j), MoveCol(t, rows, cols, i, j)) == Cb(a, i, j);
      assert Cr(b, MoveRow(t, rows, cols, i, j), MoveCol(t, rows, cols, i, j)) == Cr(a, i, j);
    }
  }

  /** A full turn of a picture with even sizes is the picture. */
  lemma FullTurnIsIdentity(a: Image, b: Image)
    requires IsTurned(T0, a, b) && a.height % 2 == 0 && a.width % 2 == 0
    ensures SamePicture(a, b)
  {
  }

  /** The loops reach every visible chroma sample of the result exactly when both sizes are even. */
  lemma AllChromaTurnedIffEven(t: Turn, height: nat, width: nat)
    requires 0 < height && 0 < width
    ensures (forall i, j :: 0 <= i < HalfUp(Rows(t, height, width)) && 0 <= j < HalfUp(Cols(t, height, width)) ==>
               ReachedChroma(t, height, width, i, j)) <==> height % 2 == 0 && width % 2 == 0
  {
    var rows, cols := Rows(t, height, width), Cols(t, height, width);
    if height % 2 == 0 && width % 2 == 0 {
      forall i, j | 0 <= i < HalfUp(rows) && 0 <= j < HalfUp(cols) ensures ReachedChroma(t, height, width, i, j) {
        ChromaReached(t, height, width, i, j);
      }
    } else {
      assert !ReachedChroma(t, height, width, HalfUp(rows) - 1, HalfUp(cols) - 1);
    }
  }

  ghost predicate ReachedChroma(t: Turn, height: nat, width: nat, i: int, j: int) {
    exists i', j' :: 0 <= i' < height / 2 && 0 <= j' < width / 2 && MovesTo(t, height / 2, width / 2, i', j', i, j)
  }

  ghost predicate MovesTo(t: Turn, rows: nat, cols: nat, i': int, j': int, i: int, j: int) {
    MoveRow(t, rows, cols, i', j') == i && MoveCol(t, rows, cols, i', j') == j
  }

  lemma ChromaReached(t: Turn, height: nat, width: nat, i: int, j: int)
    requires 0 <= i < Rows(t, height / 2, width / 2) && 0 <= j < Cols(t, height / 2, width / 2)
    ensures ReachedChroma(t, height, width, i, j)
  {
    var rows, cols := height / 2, width / 2;
    match t
    case T0 => assert MovesTo(t, rows, cols, i, j, i, j);
    case T90 => assert MovesTo(t, rows, cols, rows - 1 - j, i, i, j);
    case T180 => assert MovesTo(t, rows, cols, rows - 1 - i, cols - 1 - j, i, j);
    case T270 => assert MovesTo(t, rows, cols, j, cols - 1 - i, i, j);
  }

  /** Turning there and back stores the visible bytes one started with. */
  lemma TurnedBack(t: Turn, u: Turn, a: Image, b: Image, c: Image)
    requires IsTurned(t, a, b) && IsTurned(u, b, c) && Compose(t, u) == T0
    requires Linear(a.format) && c.format == a.format && c.stride == a.stride
    requires a.height % 2 == 0 && a.width % 2 == 0
    ensures SameVisibleBytes(a, c)
  {
    TurnsCompose(t, u, a, b, c);
    FullTurnIsIdentity(a, c);
    SamePictureSameBytes(a, c);
  }

  // ---------------------------------------------------------------- the rotation loops

  predicate CanTurn(f: Format) {
    f.Yv12? || f.Nv21? || f.Nv12?
  }

  /** The header of `b` says: `a` turned. */
  ghost predicate HeaderTurned(t: Turn, a: VideoPicture, b: VideoPicture)
    reads a, b
  {
    b.format == a.format && b.height == Rows(t, a.height, a.width) && b.width == Cols(t, a.height, a.width)
  }

  ghost predicate Aligned(p: VideoPicture)
    reads p
  {
    p.width <= p.lineStride && p.lineStride % 2 == 0
  }

  lemma LumaShown(t: Turn, a: Image, b: Image, s: Grid, g: Grid, rows: nat, cols: nat)
    requires !Tiled(a.format) && !Tiled(b.format) && s == LumaPlane(a.stride) && g == LumaPlane(b.stride)
    requires Inside(s, rows, cols, 0, |a.data|) && Inside(TurnedGrid(t, g, rows, cols), rows, cols, 0, |b.data|)
    requires forall i, j :: 0 <= i < rows && 0 <= j < cols ==>
               b.data[At(TurnedGrid(t, g, rows, cols), i, j)] == a.data[At(s, i, j)]
    ensures LumaTurned(t, a, b, rows, cols)
  {
    forall i, j | 0 <= i < rows && 0 <= j < cols
      ensures Luma(b, MoveRow(t, rows, cols, i, j), MoveCol(t, rows, cols, i, j)) == Luma(a, i, j)
    {
      TurnedAt(t, g, rows, cols, i, j);
    }
  }

  lemma ChromaShown(t: Turn, a: Image, b: Image, sb: Grid, sr: Grid, g: Grid, h: Grid, rows: nat, cols: nat,
                    lo: nat, hi: nat, lo': nat, hi': nat)
    requires !Tiled(a.format) && !Tiled(b.format)
    requires sb == CbPlane(a.format, a.stride, a.height) && sr == CrPlane(a.format, a.stride, a.height)
    requires g == CbPlane(b.format, b.stride, b.height) && h == CrPlane(b.format, b.stride, b.height)
    requires PairFits(sb, sr, rows, cols, lo', hi') && hi' <= |a.data|
    requires PairFits(TurnedGrid(t, g, rows, cols), TurnedGrid(t, h, rows, cols), rows, cols, lo, hi) && hi <= |b.data|
    requires forall i, j :: 0 <= i < rows && 0 <= j < cols ==>
               b.data[At(TurnedGrid(t, g, rows, cols), i, j)] == a.data[At(sb, i, j)]
    requires forall i, j :: 0 <= i < rows && 0 <= j < cols ==>
               b.data[At(TurnedGrid(t, h, rows, cols), i, j)] == a.data[At(sr, i, j)]
    ensures ChromaTurned(t, a, b, rows, cols)
  {
    forall i, j | 0 <= i < rows && 0 <= j < cols
      ensures Cb(b, MoveRow(t, rows, cols, i, j), MoveCol(t, rows, cols, i, j)) == Cb(a, i, j)
      ensures Cr(b, MoveRow(t, rows, cols, i, j), MoveCol(t, rows, cols, i, j)) == Cr(a, i, j)
    {
      TurnedAt(t, g, rows, cols, i, j);
      TurnedAt(t, h, rows, cols, i, j);
    }
  }

  method TurnLuma(t: Turn, input: VideoPicture, output: VideoPicture)
    requires CanTurn(input.format) && HeaderTurned(t, input, output) && Aligned(input) && Aligned(output)
    requires input.Fits() && output.Fits() && input.data != output.data
    modifies output.data
    ensures LumaTurned(t, input.View(), output.View(), input.height, input.width)
    ensures forall x :: 0 <= x < output.data.Length &&
                        !Hits(LumaPlane(output.lineStride), output.height, output.width, x) ==>
              output.data[x] == old(output.data[x])
  {
    var h, w := input.height, input.width;
    var s, g := LumaPlane(input.lineStride), LumaPlane(output.lineStride);
    LumaPlaneFits(input.lineStride, h);
    LumaPlaneFits(output.lineStride, output.height);
    TurnedFits(t, g, h, w, 0, output.data.Length);
    CopySamples(input.data, s, output.data, TurnedGrid(t, g, h, w), h, w);
    LumaShown(t, input.View(), output.View(), s, g, h, w);
    forall x | 0 <= x < output.data.Length && !Hits(g, output.height, output.width, x)
      ensures output.data[x] == old(output.data[x])
    {
      if Hits(TurnedGrid(t, g, h, w), h, w, x) {
        TurnedHits(t, g, h, w, x);
        assert false;
      }
    }
  }

  lemma HalfChromaFits(f: Format, stride: nat, height: nat, width: nat)
    requires Linear(f) && stride % 2 == 0 && width <= stride
    ensures PairFits(CbPlane(f, stride, height), CrPlane(f, stride, height), height / 2, width / 2,
                     LumaSize(stride, height), TotalSize(stride, height))
  {
    ChromaPlanesFit(f, stride, height, stride / 2);
    HalfFits(height);
    PairFitsPart(CbPlane(f, stride, height), CrPlane(f, stride, height), 8 * Blocks16(height), stride / 2,
                 LumaSize(stride, height), TotalSize(stride, height), height / 2, width / 2);
  }

  method TurnChroma(t: Turn, input: VideoPicture, output: VideoPicture)
    requires CanTurn(input.format) && HeaderTurned(t, input, output) && Aligned(input) && Aligned(output)
    requires input.Fits() && output.Fits() && input.data != output.data
    modifies output.data
    ensures ChromaTurned(t, input.View(), output.View(), input.height / 2, input.width / 2)
    ensures forall x :: 0 <= x < output.data.Length && !HitsChroma(output.View(), x) ==>
              output.data[x] == old(output.data[x])
    ensures forall x :: 0 <= x < output.data.Length && x < LumaSize(output.lineStride, output.height) ==>
              output.data[x] == old(output.data[x])
  {
    var h, w := input.height / 2, input.width / 2;
    var sb, sr := CbPlane(input.format, input.lineStride, input.height),
                  CrPlane(input.format, input.lineStride, input.height);
    var b, r := CbPlane(output.format, output.lineStride, output.height),
                CrPlane(output.format, output.lineStride, output.height);
    ghost var lo, hi := LumaSize(output.lineStride, output.height), TotalSize(output.lineStride, output.height);
    ghost var lo', hi' := LumaSize(input.lineStride, input.height), TotalSize(input.lineStride, input.height);
    HalfChromaFits(input.format, input.lineStride, input.height, input.width);
    HalfChromaFits(output.format, output.lineStride, output.height, output.width);
    TurnedPairFits(t, b, r, h, w, lo, hi);
    CopyPair(input.data, sb, sr, output.data, TurnedGrid(t, b, h, w), TurnedGrid(t, r, h, w), h, w, lo, hi, lo', hi');
    ChromaShown(t, input.View(), output.View(), sb, sr, b, r, h, w, lo, hi, lo', hi');
    forall x | 0 <= x < output.data.Length && !HitsChroma(output.View(), x)
      ensures output.data[x] == old(output.data[x])
    {
      OnlyChroma(t, b, r, h, w, x);
    }
  }

  /** Byte `x` holds a chroma sample that the rotation loops visit. */
  ghost predicate HitsChroma(m: Image, x: int) {
    || Hits(CbPlane(m.format, m.stride, m.height), m.height / 2, m.width / 2, x)
    || Hits(CrPlane(m.format, m.stride, m.height), m.height / 2, m.width / 2, x)
  }

  lemma OnlyChroma(t: Turn, b: Grid, r: Grid, rows: nat, cols: nat, x: int)
    requires !Hits(b, Rows(t, rows, cols), Cols(t, rows, cols), x) &&
             !Hits(r, Rows(t, rows, cols), Cols(t, rows, cols), x)
    ensures !Hits(TurnedGrid(t, b, rows, cols), rows, cols, x) && !Hits(TurnedGrid(t, r, rows, cols), rows, cols, x)
  {
    if Hits(TurnedGrid(t, b, rows, cols), rows, cols, x) {
      TurnedHits(t, b, rows, cols, x);
      assert false;
    }
    if Hits(TurnedGrid(t, r, rows, cols), rows, cols, x) {
      TurnedHits(t, r, rows, cols, x);
      assert false;
    }
  }

  lemma TurnedLumaKept(t: Turn, a: Image, b: Image, c: Image, rows: nat, cols: nat)
    requires !Tiled(b.format) && c.format == b.format && c.stride == b.stride && |c.data| == |b.data|
    requires LumaTurned(t, a, b, rows, cols) && Rows(t, rows, cols) <= b.height && Cols(t, rows, cols) <= b.stride
    requires forall x :: 0 <= x < |b.data| && x < LumaSize(b.stride, b.height) ==> c.data[x] == b.data[x]
    ensures LumaTurned(t, a, c, rows, cols)
  {
    LumaPlaneFits(b.stride, b.height);
    forall i, j | 0 <= i < rows && 0 <= j < cols
      ensures Luma(c, MoveRow(t, rows, cols, i, j), MoveCol(t, rows, cols, i, j)) == Luma(a, i, j)
    {
      var i', j' := MoveRow(t, rows, cols, i, j), MoveCol(t, rows, cols, i, j);
      assert Luma(b, i', j') == Luma(a, i, j);
      assert At(LumaPlane(b.stride), i', j') < LumaSize(b.stride, b.height);
    }
  }

  /** Bytes that hold no sample of the turned picture are as before, padding included. */
  ghost predicate OnlySamplesWritten(before: seq<Byte>, m: Image) {
    && |before| == |m.data|
    && (!CanTurn(m.format) ==> m.data == before)
    && forall x :: 0 <= x < |before| && !Hits(LumaPlane(m.stride), m.height, m.width, x) && !HitsChroma(m, x) ==>
         m.data[x] == before[x]
  }

  // ---------------------------------------------------------------- the indices the loops write

  /** Where the loops put sample `i` of line `j` of a plane with `h` lines of `w` samples, in a
      target plane with the given stride. */
  function PlaneIndex(t: Turn, stride: int, h: int, w: int, j: int, i: int): int {
    match t
    case T0 => j * stride + i
    case T90 => i * stride + h - j - 1
    case T180 => (h - 1 - j) * stride + (w - 1 - i)
    case T270 => (w - 1 - i) * stride + j
  }

  /** The same for byte `lane` of an interleaved pair; `half` is half the stride. */
  function PairIndex(t: Turn, half: int, h: int, w: int, j: int, i: int, lane: int): int {
    match t
    case T0 => 2 * j * half + 2 * i + lane
    case T90 => 2 * i * half + 2 * h - (2 * j + 1 - lane) - 1
    case T180 => 2 * (h - 1 - j) * half + 2 * (w - 1 - i) + lane
    case T270 => 2 * (w - 1 - i) * half + 2 * j + lane
  }

  lemma PlaneIndexIsTurned(t: Turn, off: int, stride: int, h: nat, w: nat, j: int, i: int)
    ensures off + PlaneIndex(t, stride, h, w, j, i) ==
            At(Grid(off, stride, 1), MoveRow(t, h, w, j, i), MoveCol(t, h, w, j, i))
  {
  }

  lemma PairIndexIsTurned(t: Turn, off: int, half: int, h: nat, w: nat, j: int, i: int, lane: int)
    ensures off + PairIndex(t, half, h, w, j, i, lane) ==
            At(Grid(off + lane, 2 * half, 2), MoveRow(t, h, w, j, i), MoveCol(t, h, w, j, i))
  {
  }

  /** The luma loop: every byte it reads is at the index it writes. */
  ghost predicate LumaWritten(t: Turn, a: Image, b: Image) {
    forall j, i :: 0 <= j < a.height && 0 <= i < a.width ==>
      Get(b.data, PlaneIndex(t, b.stride, a.height, a.width, j, i)) ==
      Get(a.data, PlaneIndex(T0, a.stride, a.height, a.width, j, i))
  }

  /** The chroma loop over a plane of its own, or over one byte of the interleaved pairs. */
  ghost predicate PlaneWritten(t: Turn, a: Image, b: Image, offA: int, offB: int) {
    forall j, i :: 0 <= j < a.height / 2 && 0 <= i < a.width / 2 ==>
      Get(b.data, offB + PlaneIndex(t, b.stride / 2, a.height / 2, a.width / 2, j, i)) ==
      Get(a.data, offA + PlaneIndex(T0, a.stride / 2, a.height / 2, a.width / 2, j, i))
  }

  ghost predicate PairWritten(t: Turn, a: Image, b: Image, offA: int, offB: int, lane: int) {
    forall j, i :: 0 <= j < a.height / 2 && 0 <= i < a.width / 2 ==>
      Get(b.data, offB + PairIndex(t, b.stride / 2, a.height / 2, a.width / 2, j, i, lane)) ==
      Get(a.data, offA + PairIndex(T0, a.stride / 2, a.height / 2, a.width / 2, j, i, lane))
  }

  ghost predicate ChromaWritten(t: Turn, a: Image, b: Image, y: nat, y': nat) {
    if a.format.Yv12? then PlaneWritten(t, a, b, y, y') && PlaneWritten(t, a, b, y + y / 4, y' + y' / 4)
    else PairWritten(t, a, b, y, y', 0) && PairWritten(t, a, b, y, y', 1)
  }

  lemma LumaIndices(t: Turn, a: Image, b: Image)
    requires CanTurn(a.format) && b.format == a.format && LumaTurned(t, a, b, a.height, a.width)
    ensures LumaWritten(t, a, b)
  {
    forall j, i | 0 <= j < a.height && 0 <= i < a.width
      ensures Get(b.data, PlaneIndex(t, b.stride, a.height, a.width, j, i)) ==
              Get(a.data, PlaneIndex(T0, a.stride, a.height, a.width, j, i))
    {
      PlaneIndexIsTurned(t, 0, b.stride, a.height, a.width, j, i);
      assert Luma(b, MoveRow(t, a.height, a.width, j, i), MoveCol(t, a.height, a.width, j, i)) == Luma(a, j, i);
    }
  }

  /** One chroma component, given as a plane of each picture. */
  ghost predicate ComponentTurned(t: Turn, a: Image, b: Image, s: Grid, g: Grid) {
    forall j, i {:trigger At(s, j, i)} :: 0 <= j < a.height / 2 && 0 <= i < a.width / 2 ==>
      Get(b.data, At(g, MoveRow(t, a.height / 2, a.width / 2, j, i), MoveCol(t, a.height / 2, a.width / 2, j, i))) ==
      Get(a.data, At(s, j, i))
  }

  lemma ComponentsTurned(t: Turn, a: Image, b: Image)
    requires CanTurn(a.format) && b.format == a.format && ChromaTurned(t, a, b, a.height / 2, a.width / 2)
    ensures ComponentTurned(t, a, b, CbPlane(a.format, a.stride, a.height), CbPlane(b.format, b.stride, b.height))
    ensures ComponentTurned(t, a, b, CrPlane(a.format, a.stride, a.height), CrPlane(b.format, b.stride, b.height))
  {
    var h, w := a.height / 2, a.width / 2;
    forall j, i | 0 <= j < h && 0 <= i < w
      ensures Get(b.data, At(CbPlane(b.format, b.stride, b.height), MoveRow(t, h, w, j, i), MoveCol(t, h, w, j, i))) ==
              Get(a.data, At(CbPlane(a.format, a.stride, a.height), j, i))
      ensures Get(b.data, At(CrPlane(b.format, b.stride, b.height), MoveRow(t, h, w, j, i), MoveCol(t, h, w, j, i))) ==
              Get(a.data, At(CrPlane(a.format, a.stride, a.height), j, i))
    {
      assert Cb(b, MoveRow(t, h, w, j, i), MoveCol(t, h, w, j, i)) == Cb(a, j, i);
      assert Cr(b, MoveRow(t, h, w, j, i), MoveCol(t, h, w, j, i)) == Cr(a, j, i);
    }
  }

  lemma PlaneIndices(t: Turn, a: Image, b: Image, offA: int, offB: int)
    requires ComponentTurned(t, a, b, Grid(offA, a.stride / 2, 1), Grid(offB, b.stride / 2, 1))
    ensures PlaneWritten(t, a, b, offA, offB)
  {
    var h, w := a.height / 2, a.width / 2;
    forall j, i | 0 <= j < h && 0 <= i < w
      ensures Get(b.data, offB + PlaneIndex(t, b.stride / 2, h, w, j, i)) ==
              Get(a.data, offA + PlaneIndex(T0, a.stride / 2, h, w, j, i))
    {
      PlaneIndexIsTurned(t, offB, b.stride / 2, h, w, j, i);
      PlaneIndexIsTurned(T0, offA, a.stride / 2, h, w, j, i);
      assert At(Grid(offA, a.stride / 2, 1), j, i) == offA + PlaneIndex(T0, a.stride / 2, h, w, j, i);
    }
  }

  lemma PairIndices(t: Turn, a: Image, b: Image, offA: int, offB: int, lane: int)
    requires a.stride % 2 == 0 && b.stride % 2 == 0
    requires ComponentTurned(t, a, b, Grid(offA + lane, a.stride, 2), Grid(offB + lane, b.stride, 2))
    ensures PairWritten(t, a, b, offA, offB, lane)
  {
    var h, w := a.height / 2, a.width / 2;
    assert a.stride == 2 * (a.stride / 2) && b.stride == 2 * (b.stride / 2);
    forall j, i | 0 <= j < h && 0 <= i < w
      ensures Get(b.data, offB + PairIndex(t, b.stride / 2, h, w, j, i, lane)) ==
              Get(a.data, offA + PairIndex(T0, a.stride / 2, h, w, j, i, lane))
    {
      PairIndexIsTurned(t, offB, b.stride / 2, h, w, j, i, lane);
      PairIndexIsTurned(T0, offA, a.stride / 2, h, w, j, i, lane);
      assert At(Grid(offA + lane, a.stride, 2), j, i) == offA + PairIndex(T0, a.stride / 2, h, w, j, i, lane);
    }
  }

  ghost predicate WrittenByLoops(t: Turn, a: Image, b: Image) {
    LumaWritten(t, a, b) && ChromaWritten(t, a, b, LumaSize(a.stride, a.height), LumaSize(b.stride, b.height))
  }

  /** A turned picture is what the index expressions of the loops say, byte by byte. */
  lemma WrittenIndices(t: Turn, a: Image, b: Image)
    requires CanTurn(a.format) && b.format == a.format && a.stride % 2 == 0 && b.stride % 2 == 0 && IsTurned(t, a, b)
    ensures WrittenByLoops(t, a, b)
  {
    var y, y' := LumaSize(a.stride, a.height), LumaSize(b.stride, b.height);
    LumaIndices(t, a, b);
    ComponentsTurned(t, a, b);
    if a.format.Yv12? {
      PlaneIndices(t, a, b, y, y');
      PlaneIndices(t, a, b, y + y / 4, y' + y' / 4);
    } else {
      PairIndices(t, a, b, y, y', 0);
      PairIndices(t, a, b, y, y', 1);
    }
  }

  method TurnPixels(t: Turn, input: VideoPicture, output: VideoPicture)
    requires CanTurn(input.format) && HeaderTurned(t, input, output) && Aligned(input) && Aligned(output)
    requires input.Fits() && output.Fits() && input.data != output.data && input.chroma != output.data
    modifies output.data
    ensures IsTurned(t, input.View(), output.View())
    ensures WrittenByLoops(t, input.View(), output.View())
    ensures OnlySamplesWritten(old(output.data[..]), output.View())
  {
    TurnLuma(t, input, output);
    ghost var half := output.View();
    TurnChroma(t, input, output);
    TurnedLumaKept(t, input.View(), half, output.View(), input.height, input.width);
    WrittenIndices(t, input.View(), output.View());
  }

  /** What a rotation asks of its two pictures: one format, separate buffers, and room for
      the turned picture of the given size and stride. */
  ghost predicate Buffers(input: VideoPicture, output: VideoPicture, width: nat, height: nat, stride: nat)
    reads input, output
  {
    && input != output && input.data != output.data && input.chroma != output.data && input.format == output.format
    && (CanTurn(input.format) ==>
          Aligned(input) && input.Fits() &&
          BigEnough(output.format, width, height, stride, output.data.Length, output.chroma.Length))
  }

  ghost predicate ChromaPointers(input: VideoPicture, output: VideoPicture)
    reads input, output
  {
    var y, y' := LumaSize(input.lineStride, input.height), LumaSize(output.lineStride, output.height);
    && input.data1 == y && output.data1 == y'
    && (output.format.Yv12? ==> input.data2 == y + y / 4 && output.data2 == y' + y' / 4)
  }

  lemma AlignedIsEven(n: nat)
    ensures n <= Align16(n) && Align16(n) % 2 == 0
  {
  }

  method RotatePicture90Degree(input: VideoPicture, output: VideoPicture) returns (ret: int)
    requires Buffers(input, output, input.height, input.width, Align16(input.height))
    modifies output, output.data, input`data1, input`data2
    ensures ret == 0 && input.View() == old(input.View())
    ensures HeaderTurned(T90, input, output) && output.lineStride == Align16(input.height)
    ensures CanTurn(input.format) ==>
              IsTurned(T90, input.View(), output.View()) && WrittenByLoops(T90, input.View(), output.View())
    ensures CanTurn(input.format) ==> ChromaPointers(input, output)
    ensures OnlySamplesWritten(old(output.data[..]), output.View())
  {
    output.lineStride, output.height, output.width := Align16(input.height), input.width, input.height;
    if CanTurn(output.format) {
      var y, y' := LumaSize(input.lineStride, input.height), LumaSize(output.lineStride, output.height);
      input.data1 := y;
      output.data1 := y';
      if output.format.Yv12? {
        input.data2, output.data2 := y + y / 4, y' + y' / 4;
      }
      AlignedIsEven(input.height);
      TurnPixels(T90, input, output);
    }
    ret := 0;
  }

  method RotatePicture180Degree(input: VideoPicture, output: VideoPicture) returns (ret: int)
    requires Buffers(input, output, input.width, input.height, input.lineStride)
    modifies output, output.data, input`data1, input`data2
    ensures ret == 0 && input.View() == old(input.View())
    ensures HeaderTurned(T180, input, output) && output.lineStride == input.lineStride
    ensures CanTurn(input.format) ==>
              IsTurned(T180, input.View(), output.View()) && WrittenByLoops(T180, input.View(), output.View())
    ensures CanTurn(input.format) ==> ChromaPointers(input, output)
    ensures OnlySamplesWritten(old(output.data[..]), output.View())
  {
    output.lineStride, output.height, output.width := input.lineStride, input.height, input.width;
    if CanTurn(output.format) {
      var y, y' := LumaSize(input.lineStride, input.height), LumaSize(output.lineStride, output.height);
      input.data1 := y;
      output.data1 := y';
      if output.format.Yv12? {
        input.data2, output.data2 := y + y / 4, y' + y' / 4;
      }
      TurnPixels(T180, input, output);
    }
    ret := 0;
  }

  method RotatePicture270Degree(input: VideoPicture, output: VideoPicture) returns (ret: int)
    requires Buffers(input, output, input.height, input.width, Align16(input.height))
    requires output.format.Nv21? || output.format.Nv12? ==> output.data1 == LumaSize(Align16(input.height), input.width)
    modifies output, output.data, input`data1, input`data2
    ensures ret == 0 && input.View() == old(input.View())
    ensures HeaderTurned(T270, input, output) && output.lineStride == Align16(input.height)
    ensures CanTurn(input.format) ==>
              IsTurned(T270, input.View(), output.View()) && WrittenByLoops(T270, input.View(), output.View())
    ensures CanTurn(input.format) ==> ChromaPointers(input, output)
    ensures OnlySamplesWritten(old(output.data[..]), output.View())
  {
    output.lineStride, output.height, output.width := Align16(input.height), input.width, input.height;
    if CanTurn(output.format) {
      var y, y' := LumaSize(input.lineStride, input.height), LumaSize(output.lineStride, output.height);
      input.data1 := y;
      if output.format.Yv12? {
        output.data1, input.data2, output.data2 := y', y + y / 4, y' + y' / 4;
      }
      AlignedIsEven(input.height);
      TurnPixels(T270, input, output);
    }
    ret := 0;
  }
}
