/**
 * ToBricksTransform: the studs-not-on-top (SNOT) engine. It chooses, per 10x10
 * pixel block, between a normal and a sideways stud grid, commits the choice
 * into the image, and reports stud usage and the building instructions of
 * the chosen grids.
 */
module ToBricks {
  import opened Colors
  import opened BlockTiling
  import opened UsageTable
  import opened Instructions
  import opened Window

  /** A strictly positive pixel count. */
  type UnitSize = x: int | 1 <= x witness 1

  /** The construction type (ToBricksType): whether it is SNOT_IN_2_BY_2, and its basic unit size in pixels. */
  datatype ToBricksType = ToBricksType(snotIn2By2: bool, unitWidth: UnitSize, unitHeight: UnitSize)

  /** A stud colour grid (LEGOColorGrid); gen stands for the object's identity. */
  datatype ColorGrid = ColorGrid(gen: nat, rows: Grid)

  /** How bestMatch ended: memo hit, nothing to do, committed, or which size check threw. */
  datatype Outcome = Buffered | NoSize | Matched | WidthMismatch | HeightMismatch

  /** q is a divided by b, truncated toward zero (Java's int division). */
  predicate TruncatedQuotient(a: int, b: UnitSize, q: int)
  {
    (0 <= a ==> 0 <= q && q * b <= a < q * b + b) &&
    (a < 0 ==> q <= 0 && q * b - b < a <= q * b)
  }

  /** Java's a / b for a positive divisor. */
  function JavaDiv(a: int, b: UnitSize): (q: int)
    ensures TruncatedQuotient(a, b, q)
  {
    if 0 <= a then DivBounds(a, b); a / b else DivBounds(-a, b); -((-a) / b)
  }

  /** Euclidean division of a natural number, and the sign of its negation. */
  lemma DivBounds(n: nat, b: UnitSize)
    ensures 0 <= n / b && (n / b) * b <= n < (n / b) * b + b
    ensures (-(n / b)) * b == -((n / b) * b)
  {
    assert n == (n / b) * b + n % b;
  }

  /** Truncated division has one answer, so TruncatedQuotient pins the quotient down. */
  lemma TruncatedQuotientUnique(a: int, b: UnitSize, q: int, q': int)
    requires TruncatedQuotient(a, b, q) && TruncatedQuotient(a, b, q')
    ensures q == q'
  {
    if q < q' {
      MulLe(q + 1, q', b);
    } else if q' < q {
      MulLe(q' + 1, q, b);
    }
  }

  function Min(a: int, b: int): int
  {
    if a <= b then a else b
  }

  /**
   * The model's normalisation of a clipped loop's range lo .. min(n, lo + len) - 1:
   * the half-open pair itself when it is a nonempty range of valid blocks, and
   * (0, 0) when the window emits nothing there.
   */
  function Span(lo: int, len: int, n: nat): (r: (nat, nat))
    ensures r.0 <= r.1 <= n
    ensures r.0 < r.1 <==> 0 <= lo < Min(n, lo + len)
    ensures r.0 < r.1 ==> r.0 == lo && r.1 == Min(n, lo + len)
  {
    if 0 <= lo < Min(n, lo + len) then (lo, Min(n, lo + len)) else (0, 0)
  }

  /** addAll's two innermost loops for stud row j: counts the row's studs into m. */
  method AddRow(m: array<Option<Counting>>, o: Orientation, g: Grid, blockX: nat, blockY: nat, j: nat)
    returns (added: int)
    requires BlockCovered(g, o, blockX, blockY) && j < StudRows(o)
    requires IdsBelow(RowColors(o, g, blockX, blockY, j), m.Length)
    modifies m
    ensures m[..] == TallyAll(old(m[..]), RowColors(o, g, blockX, blockY, j))
    ensures added == |Compact(m[..])| - |Compact(old(m[..]))|
  {
    var n2, n5 := StudCols(o), StudRows(o);
    ghost var cs := RowColors(o, g, blockX, blockY, j);
    GridIndices(o, blockX, blockY, j, 0);
    var row := g[blockY * n5 + j];
    added := 0;
    var w := 0;
    while w < n2
      invariant 0 <= w <= n2
      invariant IdsBelow(cs[..w], m.Length)
      invariant m[..] == TallyAll(old(m[..]), cs[..w])
      invariant added == |Compact(m[..])| - |Compact(old(m[..]))|
    {
      GridIndices(o, blockX, blockY, j, w);
      var c := row[blockX * n2 + w];
      assert c == cs[w];
      assert cs[..w + 1] == cs[..w] + [c];
      TallyAllSnoc(old(m[..]), cs[..w], c);
      TallyCompact(m[..], c);
      var isNew := AddOne(m, c);
      if isNew {
        added := added + 1;
      }
      w := w + 1;
    }
    assert cs[..n2] == cs;
  }

  /** addAll's per-block loops: counts the ten studs of block (blockX, blockY) in orientation o. */
  method AddBlock(m: array<Option<Counting>>, o: Orientation, g: Grid, blockX: nat, blockY: nat)
    returns (added: int)
    requires BlockCovered(g, o, blockX, blockY)
    requires IdsBelow(BlockColors(o, g, blockX, blockY), m.Length)
    modifies m
    ensures m[..] == TallyAll(old(m[..]), BlockColors(o, g, blockX, blockY))
    ensures added == |Compact(m[..])| - |Compact(old(m[..]))|
  {
    var n5 := StudRows(o);
    added := 0;
    var h := 0;
    while h < n5
      invariant 0 <= h <= n5
      invariant IdsBelow(RowsColors(o, g, blockX, blockY, h), m.Length)
      invariant m[..] == TallyAll(old(m[..]), RowsColors(o, g, blockX, blockY, h))
      invariant added == |Compact(m[..])| - |Compact(old(m[..]))|
    {
      RowsColorsPrefix(o, g, blockX, blockY, h + 1, n5);
      IdsBelowPrefix(RowsColors(o, g, blockX, blockY, h + 1), BlockColors(o, g, blockX, blockY), m.Length);
      IdsBelowHalves(RowsColors(o, g, blockX, blockY, h), RowColors(o, g, blockX, blockY, h), m.Length);
      TallyAllAppend(old(m[..]), RowsColors(o, g, blockX, blockY, h), RowColors(o, g, blockX, blockY, h));
      var a := AddRow(m, o, g, blockX, blockY, h);
      added := added + a;
      h := h + 1;
    }
  }

  /** buildLastInstructions' two innermost loops for stud row j of a block: emits the row's studs, numbered from id. */
  method EmitRow(o: Orientation, g: Grid, blockX: nat, blockY: nat, j: nat, id: nat)
    returns (id': nat, out: seq<Instruction>)
    requires BlockCovered(g, o, blockX, blockY) && j < StudRows(o)
    ensures out == NumberedFrom(id, RowPlacements(o, g, blockX, blockY, j)) && id' == id + |out|
  {
    var n2, n5 := StudCols(o), StudRows(o);
    ghost var ps := RowPlacements(o, g, blockX, blockY, j);
    GridIndices(o, blockX, blockY, j, 0);
    var iy := blockY * n5 + j;
    var row := g[iy];
    id', out := id, [];
    var i := 0;
    while i < n2
      invariant 0 <= i <= n2
      invariant out == NumberedFrom(id, ps[..i]) && id' == id + i
    {
      GridIndices(o, blockX, blockY, j, i);
      var ix := blockX * n2 + i;
      var color := row[ix];
      if o == Normal {
        out := out + [Add(id', 2 * blockX + i, 5 * blockY + j, color)];
      } else {
        out := out + [AddSideways(id', 5 * blockX + i, 2 * blockY + j, color)];
      }
      assert ps[i] == Placement(o, ix, iy, color);
      NumberedFromSnoc(id, ps[..i], ps[i]);
      assert ps[..i + 1] == ps[..i] + [ps[i]];
      id' := id' + 1;
      i := i + 1;
    }
    assert ps[..n2] == ps;
  }

  /** buildLastInstructions' per-block loops: emits the ten studs of block (blockX, blockY), numbered from id. */
  method EmitBlock(o: Orientation, g: Grid, blockX: nat, blockY: nat, id: nat)
    returns (id': nat, out: seq<Instruction>)
    requires BlockCovered(g, o, blockX, blockY)
    ensures out == NumberedFrom(id, BlockPlacements(o, g, blockX, blockY)) && id' == id + |out|
  {
    var n5 := StudRows(o);
    id', out := id, [];
    var j := 0;
    while j < n5
      invariant 0 <= j <= n5
      invariant out == NumberedFrom(id, RowsPlacements(o, g, blockX, blockY, j)) && id' == id + |out|
    {
      var rowOut;
      id', rowOut := EmitRow(o, g, blockX, blockY, j, id');
      NumberedFromAppend(id, RowsPlacements(o, g, blockX, blockY, j), RowPlacements(o, g, blockX, blockY, j));
      out := out + rowOut;
      j := j + 1;
    }
  }

  /** The choice array c holds exactly the choices of r. */
  predicate Shows(c: array2<bool>, r: Rendering)
    reads c
  {
    r.cw == c.Length0 && r.ch == c.Length1 && |r.choice| == r.cw &&
    forall x, y :: 0 <= x < r.cw && 0 <= y < r.ch ==> |r.choice[x]| == r.ch && r.choice[x][y] == c[x, y]
  }

  /** addAll's body for block (x, y): counts the studs of the block in its chosen orientation. */
  method AddChosenBlock(m: array<Option<Counting>>, c: array2<bool>, normal: Grid, sideways: Grid, x: nat, y: nat, ghost r: Rendering)
    returns (added: int)
    requires Wf(r) && Built(r) && Shows(c, r) && r.normal == normal && r.sideways == sideways && x < r.cw && y < r.ch
    requires IdsBelow(BlockUsage(r, x, y), m.Length)
    modifies m
    ensures m[..] == TallyAll(old(m[..]), BlockUsage(r, x, y))
    ensures added == |Compact(m[..])| - |Compact(old(m[..]))|
  {
    var o := if c[x, y] then Normal else Sideways;
    var g := if c[x, y] then normal else sideways;
    UsageBuilt(r, x, y);
    added := AddBlock(m, o, g, x, y);
  }

  /** addAll's y loop for block column x: counts the studs of every block of the column. */
  method AddColumn(m: array<Option<Counting>>, c: array2<bool>, normal: Grid, sideways: Grid, x: nat, ghost r: Rendering)
    returns (added: int)
    requires Wf(r) && Built(r) && Shows(c, r) && r.normal == normal && r.sideways == sideways && x < r.cw
    requires IdsBelow(ColumnUsage(r, x, r.ch), m.Length)
    modifies m
    ensures m[..] == TallyAll(old(m[..]), ColumnUsage(r, x, r.ch))
    ensures added == |Compact(m[..])| - |Compact(old(m[..]))|
  {
    added := 0;
    for y := 0 to c.Length1
      invariant IdsBelow(ColumnUsage(r, x, y), m.Length)
      invariant m[..] == TallyAll(old(m[..]), ColumnUsage(r, x, y))
      invariant added == |Compact(m[..])| - |Compact(old(m[..]))|
    {
      ColumnUsageStep(r, x, y, m.Length);
      ghost var before := m[..];
      var a := AddChosenBlock(m, c, normal, sideways, x, y, r);
      ColumnTally(r, x, y, old(m[..]), before, m[..]);
      added := added + a;
    }
  }

  /** lastUsedColorCounts' copy loop: the filled slots of m, in slot order, into a fresh array of the given size. */
  method CompactTable(m: array<Option<Counting>>, size: int) returns (ret: array<Counting>)
    requires size == |Compact(m[..])|
    ensures fresh(ret) && ret[..] == Compact(m[..])
  {
    ghost var t := m[..];
    ret := new Counting[size](_ => Counting(LegoColor(0, Black), 0));
    var idx := 0;
    for i := 0 to m.Length
      invariant idx == |Compact(t[..i])| <= size
      invariant ret[..idx] == Compact(t[..i])
    {
      CompactSnoc(t, i);
      CompactPrefix(t, i + 1);
      if m[i].Some? {
        ret[idx] := m[i].value;
        idx := idx + 1;
      }
    }
    assert t[..m.Length] == t;
    assert ret[..] == ret[..idx];
  }

  /** buildLastInstructions' y loop for block column x: emits blocks y0 .. maxY - 1, numbered from id. */
  method EmitColumn(c: array2<bool>, normal: Grid, sideways: Grid, x: int, y0: int, maxY: int, id: nat, ghost r: Rendering)
    returns (id': nat, out: seq<Instruction>)
    requires Wf(r) && Built(r) && Shows(c, r) && r.normal == normal && r.sideways == sideways && maxY <= r.ch
    requires y0 < maxY ==> 0 <= x < r.cw && 0 <= y0
    ensures y0 < maxY ==> out == NumberedFrom(id, ColumnStream(r, x, y0, maxY))
    ensures maxY <= y0 ==> out == []
    ensures id' == id + |out|
  {
    id', out := id, [];
    var y := y0;
    while y < maxY
      invariant y0 < maxY ==> y0 <= y <= maxY && out == NumberedFrom(id, ColumnStream(r, x, y0, y))
      invariant maxY <= y0 ==> out == []
      invariant id' == id + |out|
    {
      var o := if c[x, y] then Normal else Sideways;
      var g := if c[x, y] then normal else sideways;
      assert o == Orient(r, x, y) && g == GridOf(r, o);
      StudsBuilt(r, x, y);
      var blockOut;
      id', blockOut := EmitBlock(o, g, x, y, id');
      NumberedFromAppend(id, ColumnStream(r, x, y0, y), BlockStream(r, x, y));
      out := out + blockOut;
      y := y + 1;
    }
  }

  /** Block column x of a choice array, as a value. */
  function ChoiceColumn(c: array2<bool>, x: nat): (col: seq<bool>)
    reads c
    requires x < c.Length0
    ensures |col| == c.Length1 && forall y :: 0 <= y < |col| ==> col[y] == c[x, y]
  {
    seq(c.Length1, y requires 0 <= y < c.Length1 reads c => c[x, y])
  }

  /** Block column x of a choice array over the two grids, as a value. */
  function BlockColumn(normal: Grid, sideways: Grid, c: array2<bool>, x: nat): (col: seq<Block>)
    reads c
    requires x < c.Length0 && Covers(normal, Normal, c.Length0, c.Length1) && Covers(sideways, Sideways, c.Length0, c.Length1)
    ensures |col| == c.Length1 && forall y :: 0 <= y < |col| ==> col[y] == BlockOf(normal, sideways, c[x, y], x, y)
  {
    seq(c.Length1, y requires 0 <= y < c.Length1 reads c => BlockOf(normal, sideways, c[x, y], x, y))
  }

  class ToBricksTransform {
    var width: int
    var height: int
    var toBricksType: ToBricksType
    /** The grid pair of the last successful bestMatch (the memo), None before the first. */
    var normalColors: Option<ColorGrid>
    var sidewaysColors: Option<ColorGrid>
    /** normalColorsChoosen: [x, y] is true when block (x, y) was built with normal studs. */
    var chosen: array2?<bool>
    /** The colour difference ColorDifference.diffCIE94 between a stud colour and a packed pixel. */
    const diff: Metric

    /** Once blocks were chosen, the stored grids cover every chosen block. */
    ghost predicate Valid()
      reads this
    {
      chosen != null ==>
        normalColors.Some? && sidewaysColors.Some? &&
        Covers(normalColors.value.rows, Normal, chosen.Length0, chosen.Length1) &&
        Covers(sidewaysColors.value.rows, Sideways, chosen.Length0, chosen.Length1)
    }

    constructor(diff: Metric, toBricksType: ToBricksType, width: int, height: int)
      ensures Valid()
      ensures this.diff == diff && this.toBricksType == toBricksType
      ensures this.width == width && this.height == height
      ensures normalColors == None && sidewaysColors == None && chosen == null
    {
      this.diff := diff;
      this.toBricksType := toBricksType;
      this.width := width;
      this.height := height;
      normalColors := None;
      sidewaysColors := None;
      chosen := null;
    }

    method SetToBricksType(t: ToBricksType)
      modifies this
      ensures toBricksType == t
      ensures width == old(width) && height == old(height)
      ensures normalColors == old(normalColors) && sidewaysColors == old(sidewaysColors) && chosen == old(chosen)
      ensures old(Valid()) ==> Valid()
    {
      toBricksType := t;
    }

    method SetBasicUnitSize(width: int, height: int)
      modifies this
      ensures this.width == width && this.height == height
      ensures toBricksType == old(toBricksType)
      ensures normalColors == old(normalColors) && sidewaysColors == old(sidewaysColors) && chosen == old(chosen)
      ensures old(Valid()) ==> Valid()
    {
      this.width := width;
      this.height := height;
    }

    /** The image size in basic units: the pixel size for SNOT, otherwise the pixel size divided by the unit size. */
    function BasicUnitSize(): (r: (int, int))
      reads this
      ensures toBricksType.snotIn2By2 ==> r == (width, height)
      ensures !toBricksType.snotIn2By2 ==>
                TruncatedQuotient(width, toBricksType.unitWidth, r.0) &&
                TruncatedQuotient(height, toBricksType.unitHeight, r.1)
    {
      if toBricksType.snotIn2By2 then (width, height)
      else (JavaDiv(width, toBricksType.unitWidth), JavaDiv(height, toBricksType.unitHeight))
    }

    /** The memo: the stored pair is this very pair of grids. */
    predicate Memo(normal: ColorGrid, sideways: ColorGrid)
      reads this
    {
      normalColors.Some? && normalColors.value.gen == normal.gen &&
      sidewaysColors.Some? && sidewaysColors.value.gen == sideways.gen
    }

    /**
     * arrayBestMatch: scores block (blockX, blockY) of original against the
     * stored normal and sideways grids, keeps normal on a tie, and overwrites
     * the block's pixels with the chosen studs; answers whether normal won.
     */
    method ArrayBestMatch(blockX: nat, blockY: nat, original: array<int>) returns (res: bool)
      requires normalColors.Some? && sidewaysColors.Some?
      requires BlockCovered(normalColors.value.rows, Normal, blockX, blockY)
      requires BlockCovered(sidewaysColors.value.rows, Sideways, blockX, blockY)
      requires 10 * blockX + 10 <= width && 10 * blockY + 10 <= height
      requires original.Length == width * height
      modifies original
      ensures res == ChooseNormal(diff, normalColors.value.rows, sidewaysColors.value.rows, blockX, blockY,
                                  Local(old(original[..]), width, height, blockX, blockY))
      ensures BlockHolds(original[..], width, height, res, normalColors.value.rows, sidewaysColors.value.rows, blockX, blockY)
      ensures forall px, py :: 0 <= px < width && 0 <= py < height && !InBlock(blockX, blockY, px, py) ==>
                Pix(original, width, height, px, py) == old(Pix(original, width, height, px, py))
    {
      var normal, sideways := normalColors.value.rows, sidewaysColors.value.rows;
      var distNormal := SumDistance(diff, Normal, normal, original, width, height, blockX, blockY);
      var distSideways := SumDistance(diff, Sideways, sideways, original, width, height, blockX, blockY);
      res := distNormal <= distSideways;
      if res {
        FillBlock(Normal, normal, original, width, height, blockX, blockY);
      } else {
        FillBlock(Sideways, sideways, original, width, height, blockX, blockY);
      }
      forall dx, dy | 0 <= dx < 10 && 0 <= dy < 10
        ensures PixelAt(original[..], width, height, 10 * blockX + dx, 10 * blockY + dy) ==
                CommittedAt(res, normal, sideways, blockX, blockY, dx, dy)
      {
        assert InBlock(blockX, blockY, 10 * blockX + dx, 10 * blockY + dy);
        assert PixelAt(original[..], width, height, 10 * blockX + dx, 10 * blockY + dy) ==
               Pix(original, width, height, 10 * blockX + dx, 10 * blockY + dy);
      }
    }

    /** One step of bestMatch's loops: chooses and commits block (x, y), whose pixels are still the original ones. */
    method MatchBlock(x: nat, y: nat, original: array<int>, ghost s0: seq<int>)
      requires Valid() && chosen != null && x < chosen.Length0 && y < chosen.Length1
      requires 10 * chosen.Length0 <= width && 10 * chosen.Length1 <= height
      requires original.Length == width * height && |s0| == width * height
      requires forall px, py :: 0 <= px < width && 0 <= py < height && InBlock(x, y, px, py) ==>
                 Pix(original, width, height, px, py) == PixelAt(s0, width, height, px, py)
      modifies original, chosen
      ensures chosen[x, y] == ChooseNormal(diff, normalColors.value.rows, sidewaysColors.value.rows, x, y,
                                           Local(s0, width, height, x, y))
      ensures forall bX, bY :: 0 <= bX < chosen.Length0 && 0 <= bY < chosen.Length1 && (bX != x || bY != y) ==>
                chosen[bX, bY] == old(chosen[bX, bY])
      ensures BlockHolds(original[..], width, height, chosen[x, y], normalColors.value.rows, sidewaysColors.value.rows, x, y)
      ensures forall px, py :: 0 <= px < width && 0 <= py < height && !InBlock(x, y, px, py) ==>
                Pix(original, width, height, px, py) == old(Pix(original, width, height, px, py))
    {
      LocalOfUnchanged(original, s0, width, height, x, y);
      var r := ArrayBestMatch(x, y, original);
      chosen[x, y] := r;
    }

    /** bestMatch's inner loop: chooses and commits every block of block column x. */
    method MatchColumn(x: nat, original: array<int>, ghost s0: seq<int>)
      requires Valid() && chosen != null && x < chosen.Length0
      requires 10 * chosen.Length0 <= width && 10 * chosen.Length1 <= height
      requires original.Length == width * height && |s0| == width * height
      requires forall px, py :: 0 <= px < width && 0 <= py < height && 10 * x <= px ==>
                 Pix(original, width, height, px, py) == PixelAt(s0, width, height, px, py)
      modifies original, chosen
      ensures forall bY :: 0 <= bY < chosen.Length1 ==>
                chosen[x, bY] == ChooseNormal(diff, normalColors.value.rows, sidewaysColors.value.rows, x, bY,
                                              Local(s0, width, height, x, bY))
      ensures forall bX, bY :: 0 <= bX < chosen.Length0 && 0 <= bY < chosen.Length1 && bX != x ==>
                chosen[bX, bY] == old(chosen[bX, bY])
      ensures forall bY :: 0 <= bY < chosen.Length1 ==>
                BlockHolds(original[..], width, height, chosen[x, bY], normalColors.value.rows, sidewaysColors.value.rows, x, bY)
      ensures forall px, py :: 0 <= px < width && 0 <= py < height && !(10 * x <= px < 10 * x + 10 && py < 10 * chosen.Length1) ==>
                Pix(original, width, height, px, py) == old(Pix(original, width, height, px, py))
    {
      var normal, sideways := normalColors.value.rows, sidewaysColors.value.rows;
      var w, h, c := width, height, chosen;
      var ch := c.Length1;
      var y := 0;
      while y < ch
        invariant 0 <= y <= ch
        invariant forall bY :: 0 <= bY < y ==> c[x, bY] == ChooseNormal(diff, normal, sideways, x, bY, Local(s0, w, h, x, bY))
        invariant forall bX, bY :: 0 <= bX < c.Length0 && 0 <= bY < ch && bX != x ==> c[bX, bY] == old(c[bX, bY])
        invariant forall bY :: 0 <= bY < y ==> BlockHolds(original[..], w, h, c[x, bY], normal, sideways, x, bY)
        invariant forall px, py :: 0 <= px < w && 0 <= py < h && !(10 * x <= px < 10 * x + 10 && py < 10 * y) ==>
                    Pix(original, w, h, px, py) == old(Pix(original, w, h, px, py))
      {
        ghost var before := original[..];
        MatchBlock(x, y, original, s0);
        forall bY | 0 <= bY < y
          ensures BlockHolds(original[..], w, h, c[x, bY], normal, sideways, x, bY)
        {
          forall px, py | 0 <= px < w && 0 <= py < h && InBlock(x, bY, px, py)
            ensures PixelAt(before, w, h, px, py) == PixelAt(original[..], w, h, px, py)
          {
            assert !InBlock(x, y, px, py);
          }
          BlockHoldsFrame(before, original[..], w, h, c[x, bY], normal, sideways, x, bY);
        }
        y := y + 1;
      }
    }

    /** bestMatch's loops: chooses and commits every block, column by column. */
    method MatchAll(original: array<int>)
      requires Valid() && chosen != null
      requires 10 * chosen.Length0 <= width && 10 * chosen.Length1 <= height
      requires original.Length == width * height
      modifies original, chosen
      ensures forall bX, bY :: 0 <= bX < chosen.Length0 && 0 <= bY < chosen.Length1 ==>
                chosen[bX, bY] == ChooseNormal(diff, normalColors.value.rows, sidewaysColors.value.rows, bX, bY,
                                               Local(old(original[..]), width, height, bX, bY))
      ensures forall bX, bY :: 0 <= bX < chosen.Length0 && 0 <= bY < chosen.Length1 ==>
                BlockHolds(original[..], width, height, chosen[bX, bY], normalColors.value.rows, sidewaysColors.value.rows, bX, bY)
      ensures forall px, py :: 0 <= px < width && 0 <= py < height && !(px < 10 * chosen.Length0 && py < 10 * chosen.Length1) ==>
                Pix(original, width, height, px, py) == old(Pix(original, width, height, px, py))
    {
      var normal, sideways := normalColors.value.rows, sidewaysColors.value.rows;
      var w, h, c := width, height, chosen;
      var cw, ch := c.Length0, c.Length1;
      ghost var s0 := original[..];
      var x := 0;
      while x < cw
        invariant 0 <= x <= cw
        invariant forall bX, bY :: 0 <= bX < x && 0 <= bY < ch ==>
                    c[bX, bY] == ChooseNormal(diff, normal, sideways, bX, bY, Local(s0, w, h, bX, bY))
        invariant forall bX, bY :: 0 <= bX < x && 0 <= bY < ch ==> BlockHolds(original[..], w, h, c[bX, bY], normal, sideways, bX, bY)
        invariant forall px, py :: 0 <= px < w && 0 <= py < h && !(px < 10 * x && py < 10 * ch) ==>
                    Pix(original, w, h, px, py) == PixelAt(s0, w, h, px, py)
      {
        ghost var before := original[..];
        label column:
        MatchColumn(x, original, s0);
        forall bX, bY | 0 <= bX < x && 0 <= bY < ch
          ensures BlockHolds(original[..], w, h, c[bX, bY], normal, sideways, bX, bY)
        {
          forall px, py | 0 <= px < w && 0 <= py < h && InBlock(bX, bY, px, py)
            ensures PixelAt(before, w, h, px, py) == PixelAt(original[..], w, h, px, py)
          {
            assert px < 10 * x;
            assert Pix(original, w, h, px, py) == old@column(Pix(original, w, h, px, py));
          }
          BlockHoldsFrame(before, original[..], w, h, c[bX, bY], normal, sideways, bX, bY);
        }
        x := x + 1;
      }
    }

    /**
     * bestMatch: writes the best SNOT rendering of normal/sideways into the
     * row-major raster original (imgW x imgH) and records every block's choice.
     */
    method BestMatch(normal: ColorGrid, sideways: ColorGrid, original: array<int>, imgW: nat, imgH: nat)
      returns (out: Outcome)
      requires Valid()
      requires original.Length == imgW * imgH
      requires !Memo(normal, sideways) && width == imgW && height == imgH ==>
                 Covers(normal.rows, Normal, imgW / 10, imgH / 10) && Covers(sideways.rows, Sideways, imgW / 10, imgH / 10)
      modifies this, original
      ensures Valid()
      ensures old(Memo(normal, sideways)) ==> out == Buffered
      ensures !old(Memo(normal, sideways)) && (old(height) == 0 || old(width) == 0) ==> out == NoSize
      ensures !old(Memo(normal, sideways)) && old(height) != 0 && old(width) != 0 && old(width) != imgW ==> out == WidthMismatch
      ensures !old(Memo(normal, sideways)) && old(height) != 0 && old(width) != 0 && old(width) == imgW && old(height) != imgH ==> out == HeightMismatch
      ensures !old(Memo(normal, sideways)) && 0 < old(width) == imgW && 0 < old(height) == imgH ==> out == Matched
      ensures out != Matched ==> unchanged(this) && original[..] == old(original[..])
      ensures width == old(width) && height == old(height) && toBricksType == old(toBricksType)
      ensures out == Matched ==> Memo(normal, sideways)
      ensures out == Matched ==>
                normalColors == Some(normal) && sidewaysColors == Some(sideways) &&
                chosen != null && fresh(chosen) && chosen.Length0 == imgW / 10 && chosen.Length1 == imgH / 10
      ensures out == Matched ==>
                forall bX, bY :: 0 <= bX < imgW / 10 && 0 <= bY < imgH / 10 ==>
                  chosen[bX, bY] == ChooseNormal(diff, normal.rows, sideways.rows, bX, bY, Local(old(original[..]), imgW, imgH, bX, bY))
      ensures out == Matched ==>
                forall bX, bY :: 0 <= bX < imgW / 10 && 0 <= bY < imgH / 10 ==>
                  BlockHolds(original[..], imgW, imgH, chosen[bX, bY], normal.rows, sideways.rows, bX, bY)
      ensures out == Matched ==>
                forall px, py :: 0 <= px < imgW && 0 <= py < imgH && !(px < 10 * (imgW / 10) && py < 10 * (imgH / 10)) ==>
                  Pix(original, imgW, imgH, px, py) == old(Pix(original, imgW, imgH, px, py))
    {
      if Memo(normal, sideways) {
        return Buffered;
      }
      if height == 0 || width == 0 {
        return NoSize;
      }
      if imgW != width {
        return WidthMismatch;
      }
      if imgH != height {
        return HeightMismatch;
      }
      normalColors := Some(normal);
      sidewaysColors := Some(sideways);
      var cw := width / 10;
      var ch := height / 10;
      chosen := new bool[cw, ch];
      MatchAll(original);
      return Matched;
    }

    // -------------------------------------------------------------------------
    // The last rendering

    /** The stored grids, the recorded choices and the blocks they make, as a value. */
    ghost function Snapshot(): (r: Rendering)
      reads this, chosen
      requires Valid() && chosen != null
      ensures r.normal == normalColors.value.rows && r.sideways == sidewaysColors.value.rows
      ensures r.cw == chosen.Length0 && r.ch == chosen.Length1 && |r.choice| == r.cw
      ensures Shows(chosen, r) && Wf(r) && Built(r)
    {
      var c, normal, sideways := chosen, normalColors.value.rows, sidewaysColors.value.rows;
      var r0 := Rendering(normal, sideways, c.Length0, c.Length1,
                          seq(c.Length0, x requires 0 <= x < c.Length0 reads c => ChoiceColumn(c, x)),
                          seq(c.Length0, x requires 0 <= x < c.Length0 reads c => BlockColumn(normal, sideways, c, x)));
      assert Shows(c, r0) && Wf(r0) && Built(r0);
      var r: Rendering :| r.normal == normal && r.sideways == sideways && r.cw == c.Length0 && r.ch == c.Length1 &&
               Shows(c, r) && Wf(r) && Built(r);
      r
    }

    /** The colour of every stud of the last rendering, in the order addAll counts them; none before the first. */
    ghost function UsedStuds(): seq<LegoColor>
      reads this, chosen
      requires Valid()
    {
      if chosen == null then [] else Used(Snapshot())
    }

    // -------------------------------------------------------------------------
    // Stud usage

    /**
     * addAll: counts every stud of the last rendering into m, column by column;
     * answers how many slots went from empty to filled.
     */
    method AddAll(m: array<Option<Counting>>) returns (size: int)
      requires Valid() && IdsBelow(UsedStuds(), m.Length)
      modifies m
      ensures m[..] == TallyAll(old(m[..]), UsedStuds())
      ensures size == |Compact(m[..])| - |Compact(old(m[..]))|
    {
      if chosen == null {
        return 0;
      }
      ghost var r := Snapshot();
      size := 0;
      for x := 0 to chosen.Length0
        invariant IdsBelow(AllUsage(r, x), m.Length)
        invariant m[..] == TallyAll(old(m[..]), AllUsage(r, x))
        invariant size == |Compact(m[..])| - |Compact(old(m[..]))|
      {
        AllUsageStep(r, x, m.Length);
        ghost var before := m[..];
        var a := AddColumn(m, chosen, normalColors.value.rows, sidewaysColors.value.rows, x, r);
        AllTally(r, x, old(m[..]), before, m[..]);
        size := size + a;
      }
    }

    /**
     * lastUsedColorCounts: one count per palette colour used by the last
     * rendering, in increasing id order; maxId is the largest palette id.
     */
    method LastUsedColorCounts(maxId: nat) returns (ret: array<Counting>)
      requires Valid() && IdsBelow(UsedStuds(), maxId + 1)
      ensures fresh(ret)
      ensures ret[..] == Compact(TallyAll(Empty(maxId + 1), UsedStuds()))
      ensures ret.Length == |IdSet(UsedStuds())|
      ensures chosen == null ==> ret.Length == 0
      ensures chosen != null ==> SumCounts(ret[..]) == 10 * (chosen.Length0 * chosen.Length1)
    {
      var m := new Option<Counting>[maxId + 1](_ => None);
      assert m[..] == Empty(maxId + 1);
      var size := AddAll(m);
      CompactEmpty(maxId + 1);
      ret := CompactTable(m, size);
      UsageSize(maxId + 1, UsedStuds());
      if chosen != null {
        UsageCountsAllStuds(Snapshot(), maxId + 1);
      }
    }

    // -------------------------------------------------------------------------
    // Building instructions

    /**
     * buildLastInstructions: the printer calls for the blocks of the last
     * rendering inside bounds (in block units, clipped to the chosen blocks),
     * column by column, numbered from 0. The source fails on a block it
     * would visit outside the chosen array, which the requires clauses exclude.
     */
    method BuildLastInstructions(bounds: Rect) returns (out: seq<Instruction>)
      requires Valid() && chosen != null
      requires bounds.x < Min(chosen.Length0, bounds.x + bounds.width) ==> 0 < chosen.Length0
      requires (bounds.x < Min(chosen.Length0, bounds.x + bounds.width) &&
                bounds.y < Min(chosen.Length1, bounds.y + bounds.height)) ==> 0 <= bounds.x && 0 <= bounds.y
      ensures var xs, ys := Span(bounds.x, bounds.width, chosen.Length0), Span(bounds.y, bounds.height, chosen.Length1);
              out == Numbered(WindowStream(Snapshot(), xs.0, xs.1, ys.0, ys.1))
    {
      ghost var r := Snapshot();
      var id := 0;
      out := [];
      ghost var ys := Span(bounds.y, bounds.height, chosen.Length1);
      var maxX := Min(chosen.Length0, bounds.x + bounds.width);
      if bounds.x < maxX {
        for x := bounds.x to maxX
          invariant id == |out|
          invariant ys.0 < ys.1 ==> out == Numbered(WindowStream(r, bounds.x, x, ys.0, ys.1))
          invariant ys.0 == ys.1 ==> out == []
        {
          var maxY := Min(chosen.Length1, bounds.y + bounds.height);
          var columnOut;
          id, columnOut := EmitColumn(chosen, normalColors.value.rows, sidewaysColors.value.rows, x, bounds.y, maxY, id, r);
          if ys.0 < ys.1 {
            assert ys == (bounds.y, maxY);
            WindowNumberedStep(r, bounds.x, x, bounds.y, maxY, out, columnOut);
          }
          out := out + columnOut;
        }
      }
      if ys.0 == ys.1 {
        var xs := Span(bounds.x, bounds.width, chosen.Length0);
        WindowStreamNoRows(r, xs.0, xs.1, ys.0);
      }
    }
  }
}
