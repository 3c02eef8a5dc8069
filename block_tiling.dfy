/**
 * The studs-not-on-top block comparison: geometry of a row-major raster, the
 * two stud arrangements of a 10x10 block, the colour-distance sums that decide
 * between them, and the pixel values the chosen arrangement commits.
 */
module BlockTiling {
  import opened Colors
  import opened Sums

  /** Colour distance between a palette colour and a packed pixel (diffCIE94). */
  type Metric = (Rgb, int) -> int

  /** A stud colour grid, addressed as rows[r][c] (LEGOColorGrid.getRow(r)[c]). */
  type Grid = seq<seq<LegoColor>>

  /** The two ways of covering a 10x10 block with ten studs. */
  datatype Orientation = Normal | Sideways

  /** Studs across a block (n2 in the source): 2 normal, 5 sideways. */
  function StudCols(o: Orientation): nat
  {
    if o == Normal then 2 else 5
  }

  /** Studs down a block (n5 in the source): 5 normal, 2 sideways. */
  function StudRows(o: Orientation): nat
  {
    if o == Normal then 5 else 2
  }

  /** Grid row of stud row sy of block row blockY (blockY*n5 + sy in the source). */
  function GridRow(o: Orientation, blockY: nat, sy: nat): nat
  {
    if o == Normal then 5 * blockY + sy else 2 * blockY + sy
  }

  /** Grid column of stud column sx of block column blockX (blockX*n2 + sx). */
  function GridCol(o: Orientation, blockX: nat, sx: nat): nat
  {
    if o == Normal then 2 * blockX + sx else 5 * blockX + sx
  }

  /** First pixel column of stud column sx inside a block: studs are n5 pixels wide. */
  function StudLeft(o: Orientation, sx: nat): nat
  {
    if o == Normal then 5 * sx else 2 * sx
  }

  /** First pixel row of stud row sy inside a block: studs are n2 pixels tall. */
  function StudTop(o: Orientation, sy: nat): nat
  {
    if o == Normal then 2 * sy else 5 * sy
  }

  /** Stud column covering pixel column dx of a block. */
  function StudColOf(o: Orientation, dx: nat): nat
  {
    if o == Normal then dx / 5 else dx / 2
  }

  /** Stud row covering pixel row dy of a block. */
  function StudRowOf(o: Orientation, dy: nat): nat
  {
    if o == Normal then dy / 2 else dy / 5
  }

  /** Each stud covers exactly the pixels StudColOf/StudRowOf map back to it. */
  lemma {:induction false} StudTiling(o: Orientation, sx: nat, sy: nat, x2: nat, y2: nat)
    requires sx < StudCols(o) && sy < StudRows(o) && x2 < StudRows(o) && y2 < StudCols(o)
    ensures StudLeft(o, sx) + x2 < 10 && StudTop(o, sy) + y2 < 10
    ensures StudColOf(o, StudLeft(o, sx) + x2) == sx && StudRowOf(o, StudTop(o, sy) + y2) == sy
  {
  }

  /** The pixels of stud (sx, sy) lie in the block and are covered by that stud. */
  lemma StudCovers(o: Orientation, sx: nat, sy: nat, x: int, y: int)
    requires sx < StudCols(o) && sy < StudRows(o)
    requires StudLeft(o, sx) <= x < StudLeft(o, sx) + StudRows(o) && StudTop(o, sy) <= y < StudTop(o, sy) + StudCols(o)
    ensures 0 <= x < 10 && 0 <= y < 10 && StudColOf(o, x) == sx && StudRowOf(o, y) == sy
  {
    StudTiling(o, sx, sy, x - StudLeft(o, sx), y - StudTop(o, sy));
  }

  lemma StudInBlock(o: Orientation, sx: nat, sy: nat, x2: nat, y2: nat)
    requires sx < StudCols(o) && sy < StudRows(o) && x2 < StudRows(o) && y2 < StudCols(o)
    ensures StudLeft(o, sx) + x2 < 10 && StudTop(o, sy) + y2 < 10
  {
  }

  lemma MulLe(a: int, b: int, w: nat)
    requires a <= b
    ensures a * w <= b * w
  {
    assert b * w - a * w == (b - a) * w;
  }

  /** Index of pixel (x, y) in a row-major raster of width w. */
  function Idx(w: int, x: int, y: int): int
  {
    y * w + x
  }

  lemma IdxInRange(w: nat, h: nat, x: int, y: int)
    requires 0 <= x < w && 0 <= y < h
    ensures 0 <= Idx(w, x, y) < w * h
  {
    MulLe(0, y, w);
    MulLe(y, h - 1, w);
    assert (h - 1) * w == h * w - w;
  }

  lemma IdxInjective(w: nat, x1: int, y1: int, x2: int, y2: int)
    requires 0 <= x1 < w && 0 <= x2 < w
    requires Idx(w, x1, y1) == Idx(w, x2, y2)
    ensures x1 == x2 && y1 == y2
  {
    if y1 < y2 {
      assert (y1 + 1) * w == y1 * w + w;
      MulLe(y1 + 1, y2, w);
    } else if y2 < y1 {
      assert (y2 + 1) * w == y2 * w + w;
      MulLe(y2 + 1, y1, w);
    }
  }

  /** Pixel (x, y) lies in block (blockX, blockY). */
  predicate InBlock(blockX: int, blockY: int, x: int, y: int)
  {
    10 * blockX <= x < 10 * blockX + 10 && 10 * blockY <= y < 10 * blockY + 10
  }

  /** The grid holds every stud the block (blockX, blockY) needs in orientation o. */
  predicate BlockCovered(g: Grid, o: Orientation, blockX: nat, blockY: nat)
  {
    GridRow(o, blockY, StudRows(o)) <= |g| &&
    forall sy :: 0 <= sy < StudRows(o) ==> GridCol(o, blockX, StudCols(o)) <= |g[GridRow(o, blockY, sy)]|
  }

  /** The grid holds every stud of a cw x ch arrangement of blocks. */
  predicate Covers(g: Grid, o: Orientation, cw: nat, ch: nat)
  {
    forall blockX: nat, blockY: nat :: blockX < cw && blockY < ch ==> BlockCovered(g, o, blockX, blockY)
  }

  predicate IsBlock(blk: seq<seq<int>>)
  {
    |blk| == 10 && forall dy :: 0 <= dy < 10 ==> |blk[dy]| == 10
  }

  /** Pixel (x, y) of a w x h raster. */
  function PixelAt(s: seq<int>, w: nat, h: nat, x: nat, y: nat): int
    requires |s| == w * h && x < w && y < h
  {
    IdxInRange(w, h, x, y);
    s[Idx(w, x, y)]
  }

  /** The 10x10 pixels of block (blockX, blockY) of a w x h raster s, as blk[dy][dx]. */
  function Local(s: seq<int>, w: nat, h: nat, blockX: nat, blockY: nat): (blk: seq<seq<int>>)
    requires |s| == w * h && 10 * blockX + 10 <= w && 10 * blockY + 10 <= h
    ensures IsBlock(blk)
    ensures forall dx, dy :: 0 <= dx < 10 && 0 <= dy < 10 ==> blk[dy][dx] == PixelAt(s, w, h, 10 * blockX + dx, 10 * blockY + dy)
  {
    seq(10, dy requires 0 <= dy < 10 =>
      seq(10, dx requires 0 <= dx < 10 => PixelAt(s, w, h, 10 * blockX + dx, 10 * blockY + dy)))
  }

  /** Two rasters that agree on a block have the same view of it. */
  lemma LocalDependsOnBlockOnly(s: seq<int>, t: seq<int>, w: nat, h: nat, blockX: nat, blockY: nat)
    requires |s| == w * h && |t| == w * h && 10 * blockX + 10 <= w && 10 * blockY + 10 <= h
    requires forall x, y :: 0 <= x < w && 0 <= y < h && InBlock(blockX, blockY, x, y) ==>
               PixelAt(s, w, h, x, y) == PixelAt(t, w, h, x, y)
    ensures Local(s, w, h, blockX, blockY) == Local(t, w, h, blockX, blockY)
  {
    var a, b := Local(s, w, h, blockX, blockY), Local(t, w, h, blockX, blockY);
    forall dy | 0 <= dy < 10
      ensures a[dy] == b[dy]
    {
      forall dx | 0 <= dx < 10
        ensures a[dy][dx] == b[dy][dx]
      {
        var x, y := 10 * blockX + dx, 10 * blockY + dy;
        assert InBlock(blockX, blockY, x, y);
        assert PixelAt(s, w, h, x, y) == PixelAt(t, w, h, x, y);
        assert a[dy][dx] == PixelAt(s, w, h, x, y);
      }
      assert |a[dy]| == |b[dy]| == 10;
    }
    assert |a| == |b| == 10;
  }

  // ---- Distance sums, in the order the source's loops accumulate them ----

  /** Rows dy0 .. dy0+k-1 of pixel column dx against colour c (loop y2). */
  function ColumnDist(diff: Metric, c: Rgb, blk: seq<seq<int>>, dx: nat, dy0: nat, k: nat): int
    requires IsBlock(blk) && dx < 10 && dy0 + k <= 10
  {
    if k == 0 then 0 else ColumnDist(diff, c, blk, dx, dy0, k - 1) + diff(c, blk[dy0 + k - 1][dx])
  }

  /** Pixel columns dx0 .. dx0+k-1 of a stud sh pixels tall (loop x2). */
  function StudDist(diff: Metric, c: Rgb, blk: seq<seq<int>>, dx0: nat, dy0: nat, sh: nat, k: nat): int
    requires IsBlock(blk) && dx0 + k <= 10 && dy0 + sh <= 10
  {
    if k == 0 then 0 else StudDist(diff, c, blk, dx0, dy0, sh, k - 1) + ColumnDist(diff, c, blk, dx0 + k - 1, dy0, sh)
  }

  /** The first k studs of stud row sy of the block, coloured from row[col0 ..] (loop x). */
  function RowDist(diff: Metric, o: Orientation, row: seq<LegoColor>, col0: nat, blk: seq<seq<int>>, sy: nat, k: nat): int
    requires IsBlock(blk) && sy < StudRows(o) && k <= StudCols(o) && col0 + k <= |row|
  {
    if k == 0 then 0
    else
      RowDist(diff, o, row, col0, blk, sy, k - 1) +
      StudDist(diff, row[col0 + k - 1].rgb, blk, StudLeft(o, k - 1), StudTop(o, sy), StudCols(o), StudRows(o))
  }

  /** The first k stud rows of block (blockX, blockY) against grid g (loop y). */
  function BlockDist(diff: Metric, o: Orientation, g: Grid, blockX: nat, blockY: nat, blk: seq<seq<int>>, k: nat): int
    requires IsBlock(blk) && k <= StudRows(o) && BlockCovered(g, o, blockX, blockY)
  {
    if k == 0 then 0
    else
      BlockDist(diff, o, g, blockX, blockY, blk, k - 1) +
      RowDist(diff, o, g[GridRow(o, blockY, k - 1)], GridCol(o, blockX, 0), blk, k - 1, StudCols(o))
  }

  /** Total distance between block (blockX, blockY) and its studs in orientation o. */
  function Distance(diff: Metric, o: Orientation, g: Grid, blockX: nat, blockY: nat, blk: seq<seq<int>>): int
    requires IsBlock(blk) && BlockCovered(g, o, blockX, blockY)
  {
    BlockDist(diff, o, g, blockX, blockY, blk, StudRows(o))
  }

  /** The decision for one block: normal unless sideways is strictly closer. */
  predicate ChooseNormal(diff: Metric, normal: Grid, sideways: Grid, blockX: nat, blockY: nat, blk: seq<seq<int>>)
    requires IsBlock(blk) && BlockCovered(normal, Normal, blockX, blockY) && BlockCovered(sideways, Sideways, blockX, blockY)
  {
    Distance(diff, Normal, normal, blockX, blockY, blk) <= Distance(diff, Sideways, sideways, blockX, blockY, blk)
  }

  // ---- The distance as a sum over the pixels of the block ----

  /**
   * The distance of pixel (dx, dy) of blk from the stud that covers it in
   * orientation o; 0 off the block.
   */
  function PixelDist(diff: Metric, o: Orientation, g: Grid, blockX: nat, blockY: nat, blk: seq<seq<int>>): (int, int) -> int
  {
    (dx: int, dy: int) =>
      if 0 <= dx < 10 && 0 <= dy < 10 && IsBlock(blk) && BlockCovered(g, o, blockX, blockY)
      then diff(StudRgb(o, g, blockX, blockY, dx, dy), blk[dy][dx])
      else 0
  }

  /** The distance of pixel (dx, dy) of blk from the single colour c; 0 off the block. */
  function PlainDist(diff: Metric, c: Rgb, blk: seq<seq<int>>): (int, int) -> int
  {
    (dx: int, dy: int) => if 0 <= dx < 10 && 0 <= dy < 10 && IsBlock(blk) then diff(c, blk[dy][dx]) else 0
  }

  lemma {:induction false} ColumnDistIsColSum(diff: Metric, c: Rgb, blk: seq<seq<int>>, dx: nat, dy0: nat, k: nat)
    requires IsBlock(blk) && dx < 10 && dy0 + k <= 10
    ensures ColumnDist(diff, c, blk, dx, dy0, k) == ColSum(PlainDist(diff, c, blk), dx, dy0, k)
  {
    if k > 0 {
      ColumnDistIsColSum(diff, c, blk, dx, dy0, k - 1);
    }
  }

  lemma {:induction false} StudDistIsRectSum(diff: Metric, c: Rgb, blk: seq<seq<int>>, dx0: nat, dy0: nat, sh: nat, k: nat)
    requires IsBlock(blk) && dx0 + k <= 10 && dy0 + sh <= 10
    ensures StudDist(diff, c, blk, dx0, dy0, sh, k) == RectSumByCols(PlainDist(diff, c, blk), dx0, dy0, k, sh)
  {
    if k > 0 {
      StudDistIsRectSum(diff, c, blk, dx0, dy0, sh, k - 1);
      ColumnDistIsColSum(diff, c, blk, dx0 + k - 1, dy0, sh);
    }
  }

  /** f gives each pixel of the block its distance from the stud that covers it in orientation o. */
  predicate MeasuresStuds(f: (int, int) -> int, diff: Metric, o: Orientation, g: Grid, blockX: nat, blockY: nat, blk: seq<seq<int>>)
    requires IsBlock(blk) && BlockCovered(g, o, blockX, blockY)
  {
    forall x: nat, y: nat :: x < 10 && y < 10 ==> f(x, y) == diff(StudRgb(o, g, blockX, blockY, x, y), blk[y][x])
  }

  /** One stud's distance is the sum of f over the pixels it covers. */
  lemma StudDistByPixels(diff: Metric, o: Orientation, g: Grid, blockX: nat, blockY: nat, blk: seq<seq<int>>,
                         f: (int, int) -> int, sx: nat, sy: nat)
    requires IsBlock(blk) && BlockCovered(g, o, blockX, blockY) && sx < StudCols(o) && sy < StudRows(o)
    requires MeasuresStuds(f, diff, o, g, blockX, blockY, blk)
    ensures StudLeft(o, sx) + StudRows(o) <= 10 && StudTop(o, sy) + StudCols(o) <= 10
    ensures GridCol(o, blockX, sx) < |g[GridRow(o, blockY, sy)]|
    ensures StudDist(diff, g[GridRow(o, blockY, sy)][GridCol(o, blockX, sx)].rgb, blk, StudLeft(o, sx), StudTop(o, sy), StudCols(o), StudRows(o))
            == RectSum(f, StudLeft(o, sx), StudTop(o, sy), StudRows(o), StudCols(o))
  {
    var left, top, n2, n5 := StudLeft(o, sx), StudTop(o, sy), StudCols(o), StudRows(o);
    StudInBlock(o, sx, sy, n5 - 1, n2 - 1);
    var c := g[GridRow(o, blockY, sy)][GridCol(o, blockX, sx)].rgb;
    var plain := PlainDist(diff, c, blk);
    StudDistIsRectSum(diff, c, blk, left, top, n2, n5);
    ByColsIsByRows(plain, left, top, n5, n2);
    forall x, y | left <= x < left + n5 && top <= y < top + n2
      ensures plain(x, y) == f(x, y)
    {
      StudCovers(o, sx, sy, x, y);
    }
    RectSumAgree(plain, f, left, top, n5, n2);
  }

  /** The distance of each stud of stud row sy, coloured from row[col0 ..], is the sum of f over its pixels. */
  predicate StudsMeasured(diff: Metric, o: Orientation, row: seq<LegoColor>, col0: nat, blk: seq<seq<int>>,
                          f: (int, int) -> int, sy: nat)
    requires IsBlock(blk) && sy < StudRows(o) && col0 + StudCols(o) <= |row|
  {
    forall sx :: 0 <= sx < StudCols(o) ==>
      StudLeft(o, sx) + StudRows(o) <= 10 && StudTop(o, sy) + StudCols(o) <= 10 &&
      StudDist(diff, row[col0 + sx].rgb, blk, StudLeft(o, sx), StudTop(o, sy), StudCols(o), StudRows(o))
      == RectSum(f, StudLeft(o, sx), StudTop(o, sy), StudRows(o), StudCols(o))
  }

  /** One more stud extends the band covered by a stud row by one stud width. */
  lemma RowDistStep(diff: Metric, o: Orientation, row: seq<LegoColor>, col0: nat, blk: seq<seq<int>>,
                    f: (int, int) -> int, sy: nat, k: nat)
    requires IsBlock(blk) && sy < StudRows(o) && 0 < k <= StudCols(o) && col0 + k <= |row|
    requires StudLeft(o, k - 1) + StudRows(o) <= 10 && StudTop(o, sy) + StudCols(o) <= 10
    requires RowDist(diff, o, row, col0, blk, sy, k - 1) == RectSum(f, 0, StudTop(o, sy), StudLeft(o, k - 1), StudCols(o))
    requires StudDist(diff, row[col0 + k - 1].rgb, blk, StudLeft(o, k - 1), StudTop(o, sy), StudCols(o), StudRows(o))
             == RectSum(f, StudLeft(o, k - 1), StudTop(o, sy), StudRows(o), StudCols(o))
    ensures RowDist(diff, o, row, col0, blk, sy, k) == RectSum(f, 0, StudTop(o, sy), StudLeft(o, k), StudCols(o))
  {
    var left := StudLeft(o, k - 1);
    RectSplitColumns(f, 0, StudTop(o, sy), StudLeft(o, k), StudCols(o), left, StudRows(o), left);
  }

  /**
   * The first k studs of stud row sy, coloured from row[col0 ..], cover the
   * band of pixel rows of that stud row, k studs wide, when each stud's
   * distance is the sum of f over its pixels.
   */
  lemma {:induction false} RowDistByPixels(diff: Metric, o: Orientation, row: seq<LegoColor>, col0: nat, blk: seq<seq<int>>,
                                           f: (int, int) -> int, sy: nat, k: nat)
    requires IsBlock(blk) && sy < StudRows(o) && k <= StudCols(o) && col0 + StudCols(o) <= |row|
    requires StudsMeasured(diff, o, row, col0, blk, f, sy)
    ensures RowDist(diff, o, row, col0, blk, sy, k) == RectSum(f, 0, StudTop(o, sy), StudLeft(o, k), StudCols(o))
  {
    if k == 0 {
      RectNoColumns(f, 0, StudTop(o, sy), StudCols(o));
    } else {
      RowDistByPixels(diff, o, row, col0, blk, f, sy, k - 1);
      RowDistStep(diff, o, row, col0, blk, f, sy, k);
    }
  }

  /** Every stud of stud row sy of the block is measured by f over the pixels it covers. */
  lemma RowMeasured(diff: Metric, o: Orientation, g: Grid, blockX: nat, blockY: nat, blk: seq<seq<int>>,
                    f: (int, int) -> int, sy: nat)
    requires IsBlock(blk) && BlockCovered(g, o, blockX, blockY) && sy < StudRows(o)
    requires MeasuresStuds(f, diff, o, g, blockX, blockY, blk)
    ensures GridCol(o, blockX, 0) + StudCols(o) <= |g[GridRow(o, blockY, sy)]|
    ensures StudsMeasured(diff, o, g[GridRow(o, blockY, sy)], GridCol(o, blockX, 0), blk, f, sy)
  {
    var row, col0 := g[GridRow(o, blockY, sy)], GridCol(o, blockX, 0);
    assert col0 + StudCols(o) <= |row|;
    forall sx | 0 <= sx < StudCols(o)
      ensures StudLeft(o, sx) + StudRows(o) <= 10 && StudTop(o, sy) + StudCols(o) <= 10 &&
              StudDist(diff, row[col0 + sx].rgb, blk, StudLeft(o, sx), StudTop(o, sy), StudCols(o), StudRows(o))
              == RectSum(f, StudLeft(o, sx), StudTop(o, sy), StudRows(o), StudCols(o))
    {
      GridIndices(o, blockX, blockY, sy, sx);
      StudDistByPixels(diff, o, g, blockX, blockY, blk, f, sx, sy);
    }
  }

  /**
   * The first k stud rows of the block cover its top StudTop(o, k) pixel
   * rows, when each stud row's distance is the sum of f over its band.
   */
  lemma {:induction false} BlockDistByPixels(diff: Metric, o: Orientation, g: Grid, blockX: nat, blockY: nat, blk: seq<seq<int>>,
                                             f: (int, int) -> int, k: nat)
    requires IsBlock(blk) && BlockCovered(g, o, blockX, blockY) && k <= StudRows(o)
    requires forall sy :: 0 <= sy < StudRows(o) ==>
               RowDist(diff, o, g[GridRow(o, blockY, sy)], GridCol(o, blockX, 0), blk, sy, StudCols(o))
               == RectSum(f, 0, StudTop(o, sy), 10, StudCols(o))
    ensures BlockDist(diff, o, g, blockX, blockY, blk, k) == RectSum(f, 0, 0, 10, StudTop(o, k))
  {
    if k > 0 {
      var top, n2 := StudTop(o, k - 1), StudCols(o);
      BlockDistByPixels(diff, o, g, blockX, blockY, blk, f, k - 1);
      RectSplitRows(f, 0, 0, 10, StudTop(o, k), top, n2, top);
    } else {
      assert StudTop(o, 0) == 0;
    }
  }

  /**
   * The score of an orientation measures each of the 100 pixels of the block
   * exactly once, against the colour of the stud that covers it there.
   */
  lemma DistanceByPixels(diff: Metric, o: Orientation, g: Grid, blockX: nat, blockY: nat, blk: seq<seq<int>>)
    requires IsBlock(blk) && BlockCovered(g, o, blockX, blockY)
    ensures Distance(diff, o, g, blockX, blockY, blk) == RectSum(PixelDist(diff, o, g, blockX, blockY, blk), 0, 0, 10, 10)
  {
    var pixel := PixelDist(diff, o, g, blockX, blockY, blk);
    assert MeasuresStuds(pixel, diff, o, g, blockX, blockY, blk);
    forall sy | 0 <= sy < StudRows(o)
      ensures RowDist(diff, o, g[GridRow(o, blockY, sy)], GridCol(o, blockX, 0), blk, sy, StudCols(o))
              == RectSum(pixel, 0, StudTop(o, sy), 10, StudCols(o))
    {
      RowMeasured(diff, o, g, blockX, blockY, blk, pixel, sy);
      RowDistByPixels(diff, o, g[GridRow(o, blockY, sy)], GridCol(o, blockX, 0), blk, pixel, sy, StudCols(o));
      assert StudLeft(o, StudCols(o)) == 10;
    }
    BlockDistByPixels(diff, o, g, blockX, blockY, blk, pixel, StudRows(o));
    assert StudTop(o, StudRows(o)) == 10;
  }

  /** Normal is kept exactly when its per-pixel distance sum is not above the sideways one. */
  lemma ChooseNormalByPixels(diff: Metric, normal: Grid, sideways: Grid, blockX: nat, blockY: nat, blk: seq<seq<int>>)
    requires IsBlock(blk) && BlockCovered(normal, Normal, blockX, blockY) && BlockCovered(sideways, Sideways, blockX, blockY)
    ensures ChooseNormal(diff, normal, sideways, blockX, blockY, blk) <==>
            RectSum(PixelDist(diff, Normal, normal, blockX, blockY, blk), 0, 0, 10, 10)
            <= RectSum(PixelDist(diff, Sideways, sideways, blockX, blockY, blk), 0, 0, 10, 10)
  {
    DistanceByPixels(diff, Normal, normal, blockX, blockY, blk);
    DistanceByPixels(diff, Sideways, sideways, blockX, blockY, blk);
  }

  // ---- Commit ----

  /** The palette colour of the stud covering offset (dx, dy) of block (blockX, blockY). */
  function StudRgb(o: Orientation, g: Grid, blockX: nat, blockY: nat, dx: nat, dy: nat): Rgb
    requires dx < 10 && dy < 10 && BlockCovered(g, o, blockX, blockY)
  {
    g[GridRow(o, blockY, StudRowOf(o, dy))][GridCol(o, blockX, StudColOf(o, dx))].rgb
  }

  /** The packed colour of the stud covering offset (dx, dy) of block (blockX, blockY). */
  function StudColorAt(o: Orientation, g: Grid, blockX: nat, blockY: nat, dx: nat, dy: nat): int
    requires dx < 10 && dy < 10 && BlockCovered(g, o, blockX, blockY)
  {
    Argb(StudRgb(o, g, blockX, blockY, dx, dy))
  }

  /** The value the commit gives offset (dx, dy) of block (blockX, blockY). */
  function CommittedAt(normalChosen: bool, normal: Grid, sideways: Grid, blockX: nat, blockY: nat, dx: nat, dy: nat): int
    requires dx < 10 && dy < 10 && BlockCovered(normal, Normal, blockX, blockY) && BlockCovered(sideways, Sideways, blockX, blockY)
  {
    if normalChosen then StudColorAt(Normal, normal, blockX, blockY, dx, dy)
    else StudColorAt(Sideways, sideways, blockX, blockY, dx, dy)
  }

  /** Every pixel of block (blockX, blockY) of raster s holds the committed stud colour. */
  predicate BlockHolds(s: seq<int>, w: nat, h: nat, normalChosen: bool, normal: Grid, sideways: Grid, blockX: nat, blockY: nat)
    requires |s| == w * h && 10 * blockX + 10 <= w && 10 * blockY + 10 <= h
    requires BlockCovered(normal, Normal, blockX, blockY) && BlockCovered(sideways, Sideways, blockX, blockY)
  {
    forall dx, dy :: 0 <= dx < 10 && 0 <= dy < 10 ==>
      PixelAt(s, w, h, 10 * blockX + dx, 10 * blockY + dy) == CommittedAt(normalChosen, normal, sideways, blockX, blockY, dx, dy)
  }

  /** Whether a block holds its commit depends only on that block's pixels. */
  lemma BlockHoldsFrame(s: seq<int>, t: seq<int>, w: nat, h: nat, normalChosen: bool, normal: Grid, sideways: Grid,
                        blockX: nat, blockY: nat)
    requires |s| == w * h && |t| == w * h && 10 * blockX + 10 <= w && 10 * blockY + 10 <= h
    requires BlockCovered(normal, Normal, blockX, blockY) && BlockCovered(sideways, Sideways, blockX, blockY)
    requires forall x, y :: 0 <= x < w && 0 <= y < h && InBlock(blockX, blockY, x, y) ==>
               PixelAt(s, w, h, x, y) == PixelAt(t, w, h, x, y)
    requires BlockHolds(s, w, h, normalChosen, normal, sideways, blockX, blockY)
    ensures BlockHolds(t, w, h, normalChosen, normal, sideways, blockX, blockY)
  {
    forall dx, dy | 0 <= dx < 10 && 0 <= dy < 10
      ensures PixelAt(t, w, h, 10 * blockX + dx, 10 * blockY + dy) == CommittedAt(normalChosen, normal, sideways, blockX, blockY, dx, dy)
    {
      assert InBlock(blockX, blockY, 10 * blockX + dx, 10 * blockY + dy);
    }
  }

  // ---- The loops of arrayBestMatch ----

  /** Pixel (x, y) of the raster held in array a. */
  function Pix(a: array<int>, w: nat, h: nat, x: nat, y: nat): int
    reads a
    requires a.Length == w * h && x < w && y < h
  {
    PixelAt(a[..], w, h, x, y)
  }

  /** A block of raster a whose pixels still hold those of s0 has the same local view as s0. */
  lemma LocalOfUnchanged(a: array<int>, s0: seq<int>, w: nat, h: nat, blockX: nat, blockY: nat)
    requires a.Length == w * h && |s0| == w * h && 10 * blockX + 10 <= w && 10 * blockY + 10 <= h
    requires forall x, y :: 0 <= x < w && 0 <= y < h && InBlock(blockX, blockY, x, y) ==>
               Pix(a, w, h, x, y) == PixelAt(s0, w, h, x, y)
    ensures Local(a[..], w, h, blockX, blockY) == Local(s0, w, h, blockX, blockY)
  {
    forall x, y | 0 <= x < w && 0 <= y < h && InBlock(blockX, blockY, x, y)
      ensures PixelAt(a[..], w, h, x, y) == PixelAt(s0, w, h, x, y)
    {
    }
    LocalDependsOnBlockOnly(a[..], s0, w, h, blockX, blockY);
  }

  /** The source's grid index arithmetic, in terms of GridRow and GridCol. */
  lemma GridIndices(o: Orientation, blockX: nat, blockY: nat, y: nat, x: nat)
    ensures blockY * StudRows(o) + y == GridRow(o, blockY, y)
    ensures blockX * StudCols(o) + x == GridCol(o, blockX, x) == GridCol(o, blockX, 0) + x
  {
  }

  /** Stud offsets inside a block, as the source's products n5*x and n2*y. */
  lemma StudOffsets(o: Orientation, x: nat, y: nat)
    ensures StudLeft(o, x) == StudRows(o) * x && StudTop(o, y) == StudCols(o) * y
  {
  }

  /** The source's running index of the top-left pixel of stud (x, y) of a block. */
  lemma StudOrigin(o: Orientation, w: nat, blockX: nat, blockY: nat, y: nat, x: nat)
    ensures w * 10 * blockY + blockX * 10 + StudCols(o) * w * y + StudRows(o) * x
            == Idx(w, 10 * blockX + StudLeft(o, x), 10 * blockY + StudTop(o, y))
  {
    StudOffsets(o, x, y);
    var n2, n5 := StudCols(o), StudRows(o);
    assert (10 * blockY + n2 * y) * w == w * 10 * blockY + n2 * w * y;
  }

  lemma MulSucc(a: nat, n: nat)
    ensures (a + 1) * n == a * n + n
  {
  }

  /** Moving x2 columns right and y2 rows down in a raster of width w. */
  lemma IdxShift(w: int, x: int, y: int, x2: int, y2: int)
    ensures Idx(w, x, y) + x2 + w * y2 == Idx(w, x + x2, y + y2)
  {
    assert (y + y2) * w == y * w + y2 * w;
  }

  /**
   * The distance of pixel rows dy0 .. dy0+sh-1 of pixel column dx of block
   * (blockX, blockY) from colour c; column0 is the raster index of its top pixel.
   */
  method SumColumnDistance(diff: Metric, c: Rgb, a: array<int>, w: nat, h: nat, blockX: nat, blockY: nat,
                           dx: nat, dy0: nat, sh: nat, column0: int, ghost blk: seq<seq<int>>)
    returns (dist: int)
    requires a.Length == w * h && 10 * blockX + 10 <= w && 10 * blockY + 10 <= h
    requires dx < 10 && dy0 + sh <= 10
    requires column0 == Idx(w, 10 * blockX + dx, 10 * blockY + dy0)
    requires blk == Local(a[..], w, h, blockX, blockY)
    ensures dist == ColumnDist(diff, c, blk, dx, dy0, sh)
  {
    dist := 0;
    var y2 := 0;
    while y2 < sh
      invariant 0 <= y2 <= sh
      invariant dist == ColumnDist(diff, c, blk, dx, dy0, y2)
    {
      ghost var px, py := 10 * blockX + dx, 10 * blockY + dy0 + y2;
      IdxShift(w, 10 * blockX + dx, 10 * blockY + dy0, 0, y2);
      IdxInRange(w, h, px, py);
      var i := column0 + w * y2;
      assert i == Idx(w, px, py);
      var originalColor := a[i];
      assert originalColor == blk[dy0 + y2][dx];
      dist := dist + diff(c, originalColor);
      y2 := y2 + 1;
    }
  }

  /**
   * The distance of stud (x, y) of block (blockX, blockY), of colour c, from the
   * pixels it covers; originalIXY is the raster index of its top-left pixel.
   */
  method SumStudDistance(diff: Metric, o: Orientation, c: Rgb, a: array<int>, w: nat, h: nat,
                         blockX: nat, blockY: nat, y: nat, x: nat, originalIXY: int, ghost blk: seq<seq<int>>)
    returns (dist: int)
    requires a.Length == w * h && 10 * blockX + 10 <= w && 10 * blockY + 10 <= h
    requires y < StudRows(o) && x < StudCols(o)
    requires originalIXY == Idx(w, 10 * blockX + StudLeft(o, x), 10 * blockY + StudTop(o, y))
    requires blk == Local(a[..], w, h, blockX, blockY)
    ensures dist == StudDist(diff, c, blk, StudLeft(o, x), StudTop(o, y), StudCols(o), StudRows(o))
  {
    var n2, n5 := StudCols(o), StudRows(o);
    dist := 0;
    var x2 := 0;
    while x2 < n5
      invariant 0 <= x2 <= n5
      invariant dist == StudDist(diff, c, blk, StudLeft(o, x), StudTop(o, y), n2, x2)
    {
      StudInBlock(o, x, y, x2, n2 - 1);
      IdxShift(w, 10 * blockX + StudLeft(o, x), 10 * blockY + StudTop(o, y), x2, 0);
      var d := SumColumnDistance(diff, c, a, w, h, blockX, blockY, StudLeft(o, x) + x2, StudTop(o, y), n2, originalIXY + x2, blk);
      dist := dist + d;
      x2 := x2 + 1;
    }
  }

  /** The distance of stud row y of block (blockX, blockY) from the studs of row. */
  method SumRowDistance(diff: Metric, o: Orientation, row: seq<LegoColor>, a: array<int>, w: nat, h: nat,
                        blockX: nat, blockY: nat, y: nat, originalIY: int, ghost blk: seq<seq<int>>)
    returns (dist: int)
    requires a.Length == w * h && 10 * blockX + 10 <= w && 10 * blockY + 10 <= h
    requires y < StudRows(o) && GridCol(o, blockX, StudCols(o)) <= |row|
    requires originalIY == w * 10 * blockY + blockX * 10 + StudCols(o) * w * y
    requires blk == Local(a[..], w, h, blockX, blockY)
    ensures dist == RowDist(diff, o, row, GridCol(o, blockX, 0), blk, y, StudCols(o))
  {
    var n2, n5 := StudCols(o), StudRows(o);
    dist := 0;
    var x := 0;
    while x < n2
      invariant 0 <= x <= n2
      invariant dist == RowDist(diff, o, row, GridCol(o, blockX, 0), blk, y, x)
    {
      var originalIXY := originalIY + n5 * x;
      StudOrigin(o, w, blockX, blockY, y, x);
      GridIndices(o, blockX, blockY, y, x);
      var c := row[blockX * n2 + x].rgb;
      var d := SumStudDistance(diff, o, c, a, w, h, blockX, blockY, y, x, originalIXY, blk);
      dist := dist + d;
      x := x + 1;
    }
  }

  /**
   * The distance of block (blockX, blockY) of raster a from its studs in
   * orientation o, accumulated as arrayBestMatch's distNormal / distSideways.
   */
  method SumDistance(diff: Metric, o: Orientation, g: Grid, a: array<int>, w: nat, h: nat, blockX: nat, blockY: nat)
    returns (dist: int)
    requires a.Length == w * h && 10 * blockX + 10 <= w && 10 * blockY + 10 <= h
    requires BlockCovered(g, o, blockX, blockY)
    ensures dist == Distance(diff, o, g, blockX, blockY, Local(a[..], w, h, blockX, blockY))
  {
    var n5 := StudRows(o);
    var n2 := StudCols(o);
    ghost var blk := Local(a[..], w, h, blockX, blockY);
    var originalIBlock := w * 10 * blockY + blockX * 10;
    dist := 0;
    var y := 0;
    while y < n5
      invariant 0 <= y <= n5
      invariant dist == BlockDist(diff, o, g, blockX, blockY, blk, y)
    {
      GridIndices(o, blockX, blockY, y, 0);
      var originalIY := originalIBlock + n2 * w * y;
      var d := SumRowDistance(diff, o, g[blockY * n5 + y], a, w, h, blockX, blockY, y, originalIY, blk);
      dist := dist + d;
      y := y + 1;
    }
  }

  /** Writes colour c into pixel rows py0 .. py0+sh-1 of pixel column px (loop y2 of the commit). */
  method FillColumn(c: int, a: array<int>, w: nat, h: nat, px: nat, py0: nat, sh: nat, column0: int)
    requires a.Length == w * h && px < w && py0 + sh <= h
    requires column0 == Idx(w, px, py0)
    modifies a
    ensures forall x, y :: 0 <= x < w && 0 <= y < h ==>
              Pix(a, w, h, x, y) == if x == px && py0 <= y < py0 + sh then c else old(Pix(a, w, h, x, y))
  {
    var y2 := 0;
    while y2 < sh
      invariant 0 <= y2 <= sh
      invariant forall x, y :: 0 <= x < w && 0 <= y < h ==>
                  Pix(a, w, h, x, y) == if x == px && py0 <= y < py0 + y2 then c else old(Pix(a, w, h, x, y))
    {
      IdxShift(w, px, py0, 0, y2);
      IdxInRange(w, h, px, py0 + y2);
      var i := column0 + w * y2;
      assert i == Idx(w, px, py0 + y2);
      ghost var before := a[..];
      a[i] := c;
      assert a[..] == before[i := c];
      forall x, y | 0 <= x < w && 0 <= y < h
        ensures PixelAt(a[..], w, h, x, y) == if x == px && y == py0 + y2 then c else PixelAt(before, w, h, x, y)
      {
        IdxInRange(w, h, x, y);
        if Idx(w, x, y) == i {
          IdxInjective(w, x, y, px, py0 + y2);
        }
      }
      y2 := y2 + 1;
    }
  }

  /** Writes colour c into the sw x sh pixel rectangle whose top-left pixel is (px0, py0) (loops x2, y2). */
  method FillStud(c: int, a: array<int>, w: nat, h: nat, px0: nat, py0: nat, sw: nat, sh: nat, originalIXY: int)
    requires a.Length == w * h && px0 + sw <= w && py0 + sh <= h
    requires originalIXY == Idx(w, px0, py0)
    modifies a
    ensures forall x, y :: 0 <= x < w && 0 <= y < h ==>
              Pix(a, w, h, x, y) == if px0 <= x < px0 + sw && py0 <= y < py0 + sh then c else old(Pix(a, w, h, x, y))
  {
    var x2 := 0;
    while x2 < sw
      invariant 0 <= x2 <= sw
      invariant forall x, y :: 0 <= x < w && 0 <= y < h ==>
                  Pix(a, w, h, x, y) == if px0 <= x < px0 + x2 && py0 <= y < py0 + sh then c else old(Pix(a, w, h, x, y))
    {
      IdxShift(w, px0, py0, x2, 0);
      FillColumn(c, a, w, h, px0 + x2, py0, sh, originalIXY + x2);
      x2 := x2 + 1;
    }
  }

  /** Commits stud row y of block (blockX, blockY) from the studs of row (loop x of the commit). */
  method FillRow(o: Orientation, g: Grid, a: array<int>, w: nat, h: nat, blockX: nat, blockY: nat, y: nat, originalIY: int)
    requires a.Length == w * h && 10 * blockX + 10 <= w && 10 * blockY + 10 <= h
    requires y < StudRows(o) && BlockCovered(g, o, blockX, blockY)
    requires originalIY == w * 10 * blockY + blockX * 10 + StudCols(o) * w * y
    modifies a
    ensures forall px, py :: 0 <= px < w && 0 <= py < h ==>
              Pix(a, w, h, px, py) ==
                if 10 * blockX <= px < 10 * blockX + 10 && 10 * blockY + StudTop(o, y) <= py < 10 * blockY + StudTop(o, y) + StudCols(o)
                then StudColorAt(o, g, blockX, blockY, px - 10 * blockX, py - 10 * blockY)
                else old(Pix(a, w, h, px, py))
  {
    var n2, n5 := StudCols(o), StudRows(o);
    GridIndices(o, blockX, blockY, y, 0);
    var row := g[blockY * n5 + y];
    var top := 10 * blockY + StudTop(o, y);
    StudInBlock(o, 0, y, 0, n2 - 1);
    var x := 0;
    while x < n2
      invariant 0 <= x <= n2
      invariant forall px, py :: 0 <= px < w && 0 <= py < h ==>
                  Pix(a, w, h, px, py) ==
                    if 10 * blockX <= px < 10 * blockX + StudLeft(o, x) && top <= py < top + n2
                    then StudColorAt(o, g, blockX, blockY, px - 10 * blockX, py - 10 * blockY)
                    else old(Pix(a, w, h, px, py))
    {
      GridIndices(o, blockX, blockY, y, x);
      StudInBlock(o, x, y, n5 - 1, n2 - 1);
      var c := Argb(row[blockX * n2 + x].rgb);
      var left := 10 * blockX + StudLeft(o, x);
      forall dx: nat, dy: nat | StudLeft(o, x) <= dx < StudLeft(o, x) + n5 && StudTop(o, y) <= dy < StudTop(o, y) + n2
        ensures StudColorAt(o, g, blockX, blockY, dx, dy) == c
      {
        StudTiling(o, x, y, dx - StudLeft(o, x), dy - StudTop(o, y));
      }
      assert StudLeft(o, x + 1) == StudLeft(o, x) + n5;
      var originalIXY := originalIY + n5 * x;
      StudOrigin(o, w, blockX, blockY, y, x);
      FillStud(c, a, w, h, left, top, n5, n2, originalIXY);
      x := x + 1;
    }
  }

  /** Commits block (blockX, blockY) of raster a from grid g in orientation o (the commit loops). */
  method FillBlock(o: Orientation, g: Grid, a: array<int>, w: nat, h: nat, blockX: nat, blockY: nat)
    requires a.Length == w * h && 10 * blockX + 10 <= w && 10 * blockY + 10 <= h
    requires BlockCovered(g, o, blockX, blockY)
    modifies a
    ensures forall px, py :: 0 <= px < w && 0 <= py < h ==>
              Pix(a, w, h, px, py) ==
                if InBlock(blockX, blockY, px, py)
                then StudColorAt(o, g, blockX, blockY, px - 10 * blockX, py - 10 * blockY)
                else old(Pix(a, w, h, px, py))
  {
    var n2, n5 := StudCols(o), StudRows(o);
    var originalIBlock := w * 10 * blockY + blockX * 10;
    var y := 0;
    while y < n5
      invariant 0 <= y <= n5
      invariant forall px, py :: 0 <= px < w && 0 <= py < h ==>
                  Pix(a, w, h, px, py) ==
                    if 10 * blockX <= px < 10 * blockX + 10 && 10 * blockY <= py < 10 * blockY + StudTop(o, y)
                    then StudColorAt(o, g, blockX, blockY, px - 10 * blockX, py - 10 * blockY)
                    else old(Pix(a, w, h, px, py))
    {
      assert StudTop(o, y + 1) == StudTop(o, y) + StudCols(o);
      FillRow(o, g, a, w, h, blockX, blockY, y, originalIBlock + n2 * w * y);
      y := y + 1;
    }
  }
}
