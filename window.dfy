/**
 * The last rendering as a value: the two stud grids and each block's choice.
 * It defines the stud streams that addAll counts and buildLastInstructions
 * emits, block column by block column, and what they are made of.
 */
module Window {
  import opened Colors
  import opened BlockTiling
  import opened UsageTable
  import opened Instructions
  import opened Seqs

  /** A block as last rendered: its ten studs in visiting order, and the stud colours addAll reads for it. */
  datatype Block = Block(studs: seq<Placement>, colors: seq<LegoColor>)

  /**
   * The stored normal and sideways grids, the size cw x ch of the block
   * arrangement, choice[x][y]: whether block (x, y) was built with normal
   * studs, and blocks[x][y]: what block (x, y) is made of.
   */
  datatype Rendering = Rendering(normal: Grid, sideways: Grid, cw: nat, ch: nat, choice: seq<seq<bool>>, blocks: seq<seq<Block>>)

  /** The choice and block arrays are cw x ch, each block has ten studs, and each grid holds every stud its orientation needs. */
  predicate Wf(r: Rendering)
  {
    |r.choice| == r.cw &&
    (forall x :: 0 <= x < r.cw ==> |r.choice[x]| == r.ch) &&
    Covers(r.normal, Normal, r.cw, r.ch) && Covers(r.sideways, Sideways, r.cw, r.ch) &&
    |r.blocks| == r.cw &&
    (forall x :: 0 <= x < r.cw ==> |r.blocks[x]| == r.ch) &&
    (forall x, y :: 0 <= x < r.cw && 0 <= y < r.ch ==> |r.blocks[x][y].studs| == 10)
  }

  /** The orientation chosen for block (bX, bY). */
  function Orient(r: Rendering, bX: nat, bY: nat): Orientation
    requires Wf(r) && bX < r.cw && bY < r.ch
  {
    if r.choice[bX][bY] then Normal else Sideways
  }

  /** The grid of orientation o. */
  function GridOf(r: Rendering, o: Orientation): Grid
  {
    if o == Normal then r.normal else r.sideways
  }

  /** Block (bX, bY) built with normal studs or sideways: the studs the printer places and the colours addAll reads. */
  function BlockOf(normal: Grid, sideways: Grid, normalChosen: bool, bX: nat, bY: nat): (b: Block)
    requires BlockCovered(normal, Normal, bX, bY) && BlockCovered(sideways, Sideways, bX, bY)
    ensures |b.studs| == 10
  {
    var o := if normalChosen then Normal else Sideways;
    var g := if normalChosen then normal else sideways;
    BlockPlacementsLength(o, g, bX, bY);
    Block(BlockPlacements(o, g, bX, bY), BlockColors(o, g, bX, bY))
  }

  /** Block (bX, bY) of r is the one its grids and its choice make. */
  predicate BuiltAt(r: Rendering, bX: nat, bY: nat)
    requires Wf(r) && bX < r.cw && bY < r.ch
  {
    r.blocks[bX][bY] == BlockOf(r.normal, r.sideways, r.choice[bX][bY], bX, bY)
  }

  /** Every block of r is the one its grids and its choice make. */
  predicate Built(r: Rendering)
    requires Wf(r)
  {
    forall x: nat, y: nat {:trigger BuiltAt(r, x, y)} :: x < r.cw && y < r.ch ==> BuiltAt(r, x, y)
  }

  /** The ten studs of block (bX, bY) in its chosen orientation, in visiting order. */
  function BlockStream(r: Rendering, bX: nat, bY: nat): (ps: seq<Placement>)
    requires Wf(r) && bX < r.cw && bY < r.ch
    ensures |ps| == 10
  {
    r.blocks[bX][bY].studs
  }

  /** The studs of blocks y0 .. y1 - 1 of block column bX. */
  function ColumnStream(r: Rendering, bX: nat, y0: nat, y1: nat): seq<Placement>
    requires Wf(r) && bX < r.cw && y0 <= y1 <= r.ch
    decreases y1 - y0
  {
    if y1 == y0 then [] else ColumnStream(r, bX, y0, y1 - 1) + BlockStream(r, bX, y1 - 1)
  }

  /** The studs of the block window [x0, x1) x [y0, y1), column by column. */
  function WindowStream(r: Rendering, x0: nat, x1: nat, y0: nat, y1: nat): seq<Placement>
    requires Wf(r) && x0 <= x1 <= r.cw && y0 <= y1 <= r.ch
    decreases x1 - x0
  {
    if x1 == x0 then [] else WindowStream(r, x0, x1 - 1, y0, y1) + ColumnStream(r, x1 - 1, y0, y1)
  }

  /** The colours of the ten studs of block (bX, bY), as addAll reads them. */
  function BlockUsage(r: Rendering, bX: nat, bY: nat): seq<LegoColor>
    requires Wf(r) && bX < r.cw && bY < r.ch
  {
    r.blocks[bX][bY].colors
  }

  /** In a built rendering, block (bX, bY) holds the studs of its chosen orientation. */
  lemma StudsBuilt(r: Rendering, bX: nat, bY: nat)
    requires Wf(r) && Built(r) && bX < r.cw && bY < r.ch
    ensures var o := Orient(r, bX, bY); BlockStream(r, bX, bY) == BlockPlacements(o, GridOf(r, o), bX, bY)
  {
    assert BuiltAt(r, bX, bY);
  }

  /** In a built rendering, stud i of stud row j of block (bX, bY) is the block's stud number StudIndex(o, j, i). */
  lemma BuiltStudAt(r: Rendering, bX: nat, bY: nat, j: nat, i: nat)
    requires Wf(r) && Built(r) && bX < r.cw && bY < r.ch
    requires j < StudRows(Orient(r, bX, bY)) && i < StudCols(Orient(r, bX, bY))
    ensures var o := Orient(r, bX, bY);
            StudIndex(o, j, i) < 10 && BlockStream(r, bX, bY)[StudIndex(o, j, i)] == StudAt(o, GridOf(r, o), bX, bY, j, i)
  {
    var o := Orient(r, bX, bY);
    StudsBuilt(r, bX, bY);
    BlockPlacementAt(o, GridOf(r, o), bX, bY, j, i);
  }

  /** In a built rendering, addAll reads block (bX, bY) as the row slices of its chosen orientation. */
  lemma UsageBuilt(r: Rendering, bX: nat, bY: nat)
    requires Wf(r) && Built(r) && bX < r.cw && bY < r.ch
    ensures var o := Orient(r, bX, bY); BlockUsage(r, bX, bY) == BlockColors(o, GridOf(r, o), bX, bY)
  {
    assert BuiltAt(r, bX, bY);
  }

  /** The colours addAll reads for each block are the colours of the block's studs. */
  predicate Agrees(r: Rendering)
    requires Wf(r)
  {
    forall x, y :: 0 <= x < r.cw && 0 <= y < r.ch ==> ColorsOf(r.blocks[x][y].studs) == r.blocks[x][y].colors
  }

  /** A built rendering agrees: the row slices addAll reads are the colours of the studs the printer places. */
  lemma BuiltAgrees(r: Rendering)
    requires Wf(r) && Built(r)
    ensures Agrees(r)
  {
    forall x, y | 0 <= x < r.cw && 0 <= y < r.ch
      ensures ColorsOf(r.blocks[x][y].studs) == r.blocks[x][y].colors
    {
      var o := Orient(r, x, y);
      StudsBuilt(r, x, y);
      UsageBuilt(r, x, y);
      BlockColorsOfPlacements(o, GridOf(r, o), x, y);
    }
  }

  /** The stud colours of the first k blocks of block column bX. */
  function ColumnUsage(r: Rendering, bX: nat, k: nat): seq<LegoColor>
    requires Wf(r) && bX < r.cw && k <= r.ch
  {
    if k == 0 then [] else ColumnUsage(r, bX, k - 1) + BlockUsage(r, bX, k - 1)
  }

  /** The stud colours of the first k block columns. */
  function AllUsage(r: Rendering, k: nat): seq<LegoColor>
    requires Wf(r) && k <= r.cw
  {
    if k == 0 then [] else AllUsage(r, k - 1) + ColumnUsage(r, k - 1, r.ch)
  }

  /** Every stud colour of the rendering, in the order addAll counts them. */
  function Used(r: Rendering): seq<LegoColor>
    requires Wf(r)
  {
    AllUsage(r, r.cw)
  }

  lemma {:induction false} ColumnUsagePrefix(r: Rendering, bX: nat, k: nat, k': nat)
    requires Wf(r) && bX < r.cw && k <= k' <= r.ch
    ensures ColumnUsage(r, bX, k) <= ColumnUsage(r, bX, k')
    decreases k' - k
  {
    if k < k' {
      var p, a, b := ColumnUsage(r, bX, k), ColumnUsage(r, bX, k' - 1), BlockUsage(r, bX, k' - 1);
      ColumnUsagePrefix(r, bX, k, k' - 1);
      assert ColumnUsage(r, bX, k') == a + b;
      PrefixAppend(p, a, b);
    }
  }

  /** One more block of column bX: its studs are appended, and ids stay below n. */
  lemma ColumnUsageStep(r: Rendering, bX: nat, bY: nat, n: nat)
    requires Wf(r) && bX < r.cw && bY < r.ch && IdsBelow(ColumnUsage(r, bX, r.ch), n)
    ensures ColumnUsage(r, bX, bY + 1) == ColumnUsage(r, bX, bY) + BlockUsage(r, bX, bY)
    ensures IdsBelow(ColumnUsage(r, bX, bY + 1), n) && IdsBelow(ColumnUsage(r, bX, bY), n) && IdsBelow(BlockUsage(r, bX, bY), n)
  {
    ColumnUsagePrefix(r, bX, bY + 1, r.ch);
    IdsBelowPrefix(ColumnUsage(r, bX, bY + 1), ColumnUsage(r, bX, r.ch), n);
    IdsBelowHalves(ColumnUsage(r, bX, bY), BlockUsage(r, bX, bY), n);
  }

  /** Counting block (bX, bY) into a table that holds column bX's earlier blocks gives the table of one block more. */
  lemma ColumnTally(r: Rendering, bX: nat, bY: nat, t0: Table, t1: Table, t2: Table)
    requires Wf(r) && bX < r.cw && bY < r.ch && IdsBelow(ColumnUsage(r, bX, r.ch), |t0|)
    requires IdsBelow(ColumnUsage(r, bX, bY), |t0|) && t1 == TallyAll(t0, ColumnUsage(r, bX, bY))
    requires IdsBelow(BlockUsage(r, bX, bY), |t1|) && t2 == TallyAll(t1, BlockUsage(r, bX, bY))
    ensures IdsBelow(ColumnUsage(r, bX, bY + 1), |t0|) && t2 == TallyAll(t0, ColumnUsage(r, bX, bY + 1))
  {
    ColumnUsageStep(r, bX, bY, |t0|);
    TallyAllAppend(t0, ColumnUsage(r, bX, bY), BlockUsage(r, bX, bY));
  }

  lemma {:induction false} AllUsagePrefix(r: Rendering, k: nat, k': nat)
    requires Wf(r) && k <= k' <= r.cw
    ensures AllUsage(r, k) <= AllUsage(r, k')
    decreases k' - k
  {
    if k < k' {
      var p, a, b := AllUsage(r, k), AllUsage(r, k' - 1), ColumnUsage(r, k' - 1, r.ch);
      AllUsagePrefix(r, k, k' - 1);
      assert AllUsage(r, k') == a + b;
      PrefixAppend(p, a, b);
    }
  }

  /** One more block column: its studs are appended, and ids stay below n. */
  lemma AllUsageStep(r: Rendering, bX: nat, n: nat)
    requires Wf(r) && bX < r.cw && IdsBelow(AllUsage(r, r.cw), n)
    ensures AllUsage(r, bX + 1) == AllUsage(r, bX) + ColumnUsage(r, bX, r.ch)
    ensures IdsBelow(AllUsage(r, bX + 1), n) && IdsBelow(AllUsage(r, bX), n) && IdsBelow(ColumnUsage(r, bX, r.ch), n)
  {
    AllUsagePrefix(r, bX + 1, r.cw);
    IdsBelowPrefix(AllUsage(r, bX + 1), AllUsage(r, r.cw), n);
    IdsBelowHalves(AllUsage(r, bX), ColumnUsage(r, bX, r.ch), n);
  }

  /** Counting column bX into a table that holds the earlier columns gives the table of one column more. */
  lemma AllTally(r: Rendering, bX: nat, t0: Table, t1: Table, t2: Table)
    requires Wf(r) && bX < r.cw && IdsBelow(AllUsage(r, r.cw), |t0|)
    requires IdsBelow(AllUsage(r, bX), |t0|) && t1 == TallyAll(t0, AllUsage(r, bX))
    requires IdsBelow(ColumnUsage(r, bX, r.ch), |t1|) && t2 == TallyAll(t1, ColumnUsage(r, bX, r.ch))
    ensures IdsBelow(AllUsage(r, bX + 1), |t0|) && t2 == TallyAll(t0, AllUsage(r, bX + 1))
  {
    AllUsageStep(r, bX, |t0|);
    TallyAllAppend(t0, AllUsage(r, bX), ColumnUsage(r, bX, r.ch));
  }

  /** Numbering column x's studs after a numbered window of columns x0 .. x - 1 numbers the window of one column more. */
  lemma WindowNumberedStep(r: Rendering, x0: nat, x: nat, y0: nat, y1: nat, out: seq<Instruction>, col: seq<Instruction>)
    requires Wf(r) && x0 <= x < r.cw && y0 <= y1 <= r.ch
    requires out == Numbered(WindowStream(r, x0, x, y0, y1))
    requires col == NumberedFrom(|out|, ColumnStream(r, x, y0, y1))
    ensures out + col == Numbered(WindowStream(r, x0, x + 1, y0, y1))
  {
    NumberedFromAppend(0, WindowStream(r, x0, x, y0, y1), ColumnStream(r, x, y0, y1));
  }

  /** A window without block rows has no studs. */
  lemma {:induction false} WindowStreamNoRows(r: Rendering, x0: nat, x1: nat, y: nat)
    requires Wf(r) && x0 <= x1 <= r.cw && y <= r.ch
    ensures WindowStream(r, x0, x1, y, y) == []
    decreases x1 - x0
  {
    if x1 > x0 {
      WindowStreamNoRows(r, x0, x1 - 1, y);
    }
  }

  /** Each block of a column contributes ten studs. */
  lemma {:induction false} ColumnStreamLength(r: Rendering, bX: nat, y0: nat, y1: nat)
    requires Wf(r) && bX < r.cw && y0 <= y1 <= r.ch
    ensures |ColumnStream(r, bX, y0, y1)| == 10 * (y1 - y0)
    decreases y1 - y0
  {
    if y1 > y0 {
      ColumnStreamLength(r, bX, y0, y1 - 1);
    }
  }

  /** Each block of a window of w columns and n rows contributes ten studs. */
  lemma {:induction false} WindowStreamBlocks(r: Rendering, x0: nat, w: nat, y0: nat, n: nat)
    requires Wf(r) && x0 + w <= r.cw && y0 + n <= r.ch
    ensures |WindowStream(r, x0, x0 + w, y0, y0 + n)| == 10 * (w * n)
  {
    if w > 0 {
      WindowStreamBlocks(r, x0, w - 1, y0, n);
      ColumnStreamLength(r, x0 + w - 1, y0, y0 + n);
      MulSucc(w - 1, n);
    }
  }

  /** Each block of a window contributes ten studs. */
  lemma WindowStreamLength(r: Rendering, x0: nat, x1: nat, y0: nat, y1: nat)
    requires Wf(r) && x0 <= x1 <= r.cw && y0 <= y1 <= r.ch
    ensures |WindowStream(r, x0, x1, y0, y1)| == 10 * ((x1 - x0) * (y1 - y0))
  {
    WindowStreamBlocks(r, x0, x1 - x0, y0, y1 - y0);
  }

  /** A column's stream is the blocks above mid, then the blocks from mid on. */
  lemma {:induction false} ColumnStreamSplit(r: Rendering, bX: nat, y0: nat, mid: nat, y1: nat)
    requires Wf(r) && bX < r.cw && y0 <= mid <= y1 <= r.ch
    ensures ColumnStream(r, bX, y0, y1) == ColumnStream(r, bX, y0, mid) + ColumnStream(r, bX, mid, y1)
    decreases y1 - mid
  {
    if mid < y1 {
      ColumnStreamSplit(r, bX, y0, mid, y1 - 1);
    }
  }

  /** A window's stream is the columns left of mid, then the columns from mid on. */
  lemma {:induction false} WindowStreamSplit(r: Rendering, x0: nat, mid: nat, x1: nat, y0: nat, y1: nat)
    requires Wf(r) && x0 <= mid <= x1 <= r.cw && y0 <= y1 <= r.ch
    ensures WindowStream(r, x0, x1, y0, y1) == WindowStream(r, x0, mid, y0, y1) + WindowStream(r, mid, x1, y0, y1)
    decreases x1 - mid
  {
    if mid < x1 {
      WindowStreamSplit(r, x0, mid, x1 - 1, y0, y1);
    }
  }

  /** A window's stream is the columns left of bX, column bX, then the columns right of it. */
  lemma WindowAround(r: Rendering, x0: nat, x1: nat, y0: nat, y1: nat, bX: nat)
    requires Wf(r) && x0 <= bX < x1 <= r.cw && y0 <= y1 <= r.ch
    ensures WindowStream(r, x0, x1, y0, y1) ==
            WindowStream(r, x0, bX, y0, y1) + (ColumnStream(r, bX, y0, y1) + WindowStream(r, bX + 1, x1, y0, y1))
  {
    WindowStreamSplit(r, x0, bX, x1, y0, y1);
    WindowStreamSplit(r, bX, bX + 1, x1, y0, y1);
    assert WindowStream(r, bX, bX + 1, y0, y1) == ColumnStream(r, bX, y0, y1);
  }

  /** A column's stream is the blocks above bY, block bY, then the blocks below it. */
  lemma ColumnAround(r: Rendering, bX: nat, y0: nat, y1: nat, bY: nat)
    requires Wf(r) && bX < r.cw && y0 <= bY < y1 <= r.ch
    ensures ColumnStream(r, bX, y0, y1) ==
            ColumnStream(r, bX, y0, bY) + (BlockStream(r, bX, bY) + ColumnStream(r, bX, bY + 1, y1))
  {
    ColumnStreamSplit(r, bX, y0, bY, y1);
    ColumnStreamSplit(r, bX, bY, bY + 1, y1);
    assert ColumnStream(r, bX, bY, bY + 1) == BlockStream(r, bX, bY);
  }

  /** Stud s of block (bX, bY) follows the studs of the columns left of bX and of the blocks above bY. */
  lemma WindowStudAt(r: Rendering, x0: nat, x1: nat, y0: nat, y1: nat, bX: nat, bY: nat, s: nat, k: nat)
    requires Wf(r) && x0 <= bX < x1 <= r.cw && y0 <= bY < y1 <= r.ch && s < 10
    requires k == |WindowStream(r, x0, bX, y0, y1)| + |ColumnStream(r, bX, y0, bY)| + s
    ensures k < |WindowStream(r, x0, x1, y0, y1)| && WindowStream(r, x0, x1, y0, y1)[k] == BlockStream(r, bX, bY)[s]
  {
    var w, p, a, b, c, q := WindowStream(r, x0, x1, y0, y1), WindowStream(r, x0, bX, y0, y1), ColumnStream(r, bX, y0, bY),
                            BlockStream(r, bX, bY), ColumnStream(r, bX, bY + 1, y1), WindowStream(r, bX + 1, x1, y0, y1);
    WindowAround(r, x0, x1, y0, y1, bX);
    ColumnAround(r, bX, y0, y1, bY);
    IndexInside(w, p, a, b, c, q, s);
  }

  /**
   * Call number k of the window's instructions, k counting the studs of the
   * columns left of bX, of the blocks above bY and the stud's place in its
   * block, is the call for stud i of stud row j of block (bX, bY).
   */
  lemma WindowInstruction(r: Rendering, x0: nat, x1: nat, y0: nat, y1: nat, bX: nat, bY: nat, j: nat, i: nat)
    requires Wf(r) && Built(r) && x0 <= bX < x1 <= r.cw && y0 <= bY < y1 <= r.ch
    requires j < StudRows(Orient(r, bX, bY)) && i < StudCols(Orient(r, bX, bY))
    ensures var out := Numbered(WindowStream(r, x0, x1, y0, y1));
            var o := Orient(r, bX, bY);
            var k := |WindowStream(r, x0, bX, y0, y1)| + |ColumnStream(r, bX, y0, bY)| + StudIndex(o, j, i);
            k < |out| && out[k] == Instr(k, StudAt(o, GridOf(r, o), bX, bY, j, i))
  {
    var o := Orient(r, bX, bY);
    var s := StudIndex(o, j, i);
    WindowStudAt(r, x0, x1, y0, y1, bX, bY, s, |WindowStream(r, x0, bX, y0, y1)| + |ColumnStream(r, bX, y0, bY)| + s);
    BuiltStudAt(r, bX, bY, j, i);
  }

  /** The studs before block (bX, bY) of a window: ten per block of the earlier columns and of the blocks above. */
  lemma StudsBefore(r: Rendering, x0: nat, x1: nat, y0: nat, y1: nat, bX: nat, bY: nat)
    requires Wf(r) && x0 <= bX < x1 <= r.cw && y0 <= bY < y1 <= r.ch
    ensures |WindowStream(r, x0, bX, y0, y1)| + |ColumnStream(r, bX, y0, bY)| == 10 * ((bX - x0) * (y1 - y0)) + 10 * (bY - y0)
  {
    WindowStreamLength(r, x0, bX, y0, y1);
    ColumnStreamLength(r, bX, y0, bY);
  }

  /** The colours addAll counts for a column are the colours of the studs emitted for it. */
  lemma {:induction false} ColumnColors(r: Rendering, bX: nat, k: nat)
    requires Wf(r) && Agrees(r) && bX < r.cw && k <= r.ch
    ensures ColorsOf(ColumnStream(r, bX, 0, k)) == ColumnUsage(r, bX, k)
  {
    if k > 0 {
      var c, b := ColumnStream(r, bX, 0, k - 1), BlockStream(r, bX, k - 1);
      calc {
        ColorsOf(ColumnStream(r, bX, 0, k));
        ColorsOf(c + b);
        { ColorsOfAppend(c, b); }
        ColorsOf(c) + ColorsOf(b);
        { ColumnColors(r, bX, k - 1);
          assert ColorsOf(b) == BlockUsage(r, bX, k - 1);
          AppendBoth(ColorsOf(c), ColorsOf(b), ColumnUsage(r, bX, k - 1), BlockUsage(r, bX, k - 1)); }
        ColumnUsage(r, bX, k - 1) + BlockUsage(r, bX, k - 1);
        ColumnUsage(r, bX, k);
      }
    }
  }

  lemma {:induction false} AllColors(r: Rendering, k: nat)
    requires Wf(r) && Agrees(r) && k <= r.cw
    ensures ColorsOf(WindowStream(r, 0, k, 0, r.ch)) == AllUsage(r, k)
  {
    if k > 0 {
      var w, c := WindowStream(r, 0, k - 1, 0, r.ch), ColumnStream(r, k - 1, 0, r.ch);
      calc {
        ColorsOf(WindowStream(r, 0, k, 0, r.ch));
        ColorsOf(w + c);
        { ColorsOfAppend(w, c); }
        ColorsOf(w) + ColorsOf(c);
        { AllColors(r, k - 1);
          ColumnColors(r, k - 1, r.ch);
          AppendBoth(ColorsOf(w), ColorsOf(c), AllUsage(r, k - 1), ColumnUsage(r, k - 1, r.ch)); }
        AllUsage(r, k - 1) + ColumnUsage(r, k - 1, r.ch);
        AllUsage(r, k);
      }
    }
  }

  /** The studs addAll counts are, one for one and in order, the studs of the full window's instructions. */
  lemma UsedAreInstructed(r: Rendering)
    requires Wf(r) && Built(r)
    ensures ColorsOf(WindowStream(r, 0, r.cw, 0, r.ch)) == Used(r)
    ensures |Used(r)| == 10 * (r.cw * r.ch)
  {
    assert ColorsOf(WindowStream(r, 0, r.cw, 0, r.ch)) == Used(r) by {
      BuiltAgrees(r);
      AllColors(r, r.cw);
    }
    assert |WindowStream(r, 0, r.cw, 0, r.ch)| == 10 * (r.cw * r.ch) by {
      WindowStreamLength(r, 0, r.cw, 0, r.ch);
    }
  }

  /** The usage counts of a rendering add up to ten studs per block. */
  lemma UsageCountsAllStuds(r: Rendering, n: nat)
    requires Wf(r) && Built(r) && IdsBelow(Used(r), n)
    ensures SumCounts(Compact(TallyAll(Empty(n), Used(r)))) == 10 * (r.cw * r.ch)
  {
    UsedAreInstructed(r);
    UsageTotal(n, Used(r));
  }
}
