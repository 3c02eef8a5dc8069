/**
 * The stud stream of a block window: where each stud of a block goes on the
 * stud grid, in the order the engine visits studs, and the numbered
 * instructions (InstructionsBuilderI.add / addSideways) made from it.
 */
module Instructions {
  import opened Colors
  import opened BlockTiling
  import opened Seqs

  /** One stud: its orientation, its column and row on the orientation's stud grid, and its colour. */
  datatype Placement = Placement(o: Orientation, x: nat, y: nat, color: LegoColor)

  /** One printer call: add for a stud of a normal block, addSideways for one of a sideways block. */
  datatype Instruction =
    | Add(id: nat, x: nat, y: nat, color: LegoColor)
    | AddSideways(id: nat, x: nat, y: nat, color: LegoColor)

  /** A java.awt.Rectangle, in block units. */
  datatype Rect = Rect(x: int, y: int, width: int, height: int)

  /** The printer call for stud p, numbered id. */
  function Instr(id: nat, p: Placement): (r: Instruction)
    ensures r.id == id && r.x == p.x && r.y == p.y && r.color == p.color
    ensures r.Add? <==> p.o == Normal
  {
    if p.o == Normal then Add(id, p.x, p.y, p.color) else AddSideways(id, p.x, p.y, p.color)
  }

  /** The calls for a stud stream, numbered consecutively from id. */
  function NumberedFrom(id: nat, ps: seq<Placement>): (r: seq<Instruction>)
    ensures |r| == |ps|
    ensures forall k :: 0 <= k < |ps| ==> r[k] == Instr(id + k, ps[k])
  {
    seq(|ps|, k requires 0 <= k < |ps| => Instr(id + k, ps[k]))
  }

  /** The calls for a stud stream, numbered consecutively from 0. */
  function Numbered(ps: seq<Placement>): seq<Instruction>
  {
    NumberedFrom(0, ps)
  }

  /** The colours of a stud stream, in order. */
  function ColorsOf(ps: seq<Placement>): (cs: seq<LegoColor>)
    ensures |cs| == |ps| && forall k :: 0 <= k < |ps| ==> cs[k] == ps[k].color
  {
    if |ps| == 0 then [] else ColorsOf(ps[..|ps| - 1]) + [ps[|ps| - 1].color]
  }

  /** Stud i of stud row j of block (blockX, blockY). */
  function StudAt(o: Orientation, g: Grid, blockX: nat, blockY: nat, j: nat, i: nat): Placement
    requires BlockCovered(g, o, blockX, blockY) && j < StudRows(o) && i < StudCols(o)
  {
    Placement(o, GridCol(o, blockX, i), GridRow(o, blockY, j), g[GridRow(o, blockY, j)][GridCol(o, blockX, i)])
  }

  /**
   * The call for stud i of stud row j of a block: add at grid column 2 blockX + i
   * and row 5 blockY + j for a normal block, addSideways at 5 blockX + i and
   * 2 blockY + j for a sideways one, with the grid's colour there.
   */
  lemma StudCall(o: Orientation, g: Grid, blockX: nat, blockY: nat, j: nat, i: nat, k: nat)
    requires BlockCovered(g, o, blockX, blockY) && j < StudRows(o) && i < StudCols(o)
    ensures o == Normal ==>
              5 * blockY + j < |g| && 2 * blockX + i < |g[5 * blockY + j]| &&
              Instr(k, StudAt(o, g, blockX, blockY, j, i)) == Add(k, 2 * blockX + i, 5 * blockY + j, g[5 * blockY + j][2 * blockX + i])
    ensures o == Sideways ==>
              2 * blockY + j < |g| && 5 * blockX + i < |g[2 * blockY + j]| &&
              Instr(k, StudAt(o, g, blockX, blockY, j, i)) == AddSideways(k, 5 * blockX + i, 2 * blockY + j, g[2 * blockY + j][5 * blockX + i])
  {
    assert GridRow(o, blockY, j) < |g| && GridCol(o, blockX, i) < |g[GridRow(o, blockY, j)]|;
  }

  /** Stud row j of block (blockX, blockY), left to right. */
  function RowPlacements(o: Orientation, g: Grid, blockX: nat, blockY: nat, j: nat): (ps: seq<Placement>)
    requires BlockCovered(g, o, blockX, blockY) && j < StudRows(o)
    ensures |ps| == StudCols(o)
    ensures forall i :: 0 <= i < StudCols(o) ==> ps[i] == StudAt(o, g, blockX, blockY, j, i)
  {
    seq(StudCols(o), i requires 0 <= i < StudCols(o) => StudAt(o, g, blockX, blockY, j, i))
  }

  /** The first k stud rows of block (blockX, blockY), top to bottom. */
  function RowsPlacements(o: Orientation, g: Grid, blockX: nat, blockY: nat, k: nat): seq<Placement>
    requires BlockCovered(g, o, blockX, blockY) && k <= StudRows(o)
  {
    if k == 0 then [] else RowsPlacements(o, g, blockX, blockY, k - 1) + RowPlacements(o, g, blockX, blockY, k - 1)
  }

  /** The ten studs of block (blockX, blockY): stud rows outer, columns inner. */
  function BlockPlacements(o: Orientation, g: Grid, blockX: nat, blockY: nat): seq<Placement>
    requires BlockCovered(g, o, blockX, blockY)
  {
    RowsPlacements(o, g, blockX, blockY, StudRows(o))
  }

  /** Position of stud i of stud row j within its block's ten studs. */
  function StudIndex(o: Orientation, j: nat, i: nat): (k: nat)
    ensures j < StudRows(o) && i < StudCols(o) ==> k < 10
  {
    j * StudCols(o) + i
  }

  /** The first k stud rows hold k rows of studs, stud i of row j at position j * columns + i. */
  lemma {:induction false} RowsPlacementsShape(o: Orientation, g: Grid, blockX: nat, blockY: nat, k: nat)
    requires BlockCovered(g, o, blockX, blockY) && k <= StudRows(o)
    ensures |RowsPlacements(o, g, blockX, blockY, k)| == k * StudCols(o)
    ensures forall j, i :: 0 <= j < k && 0 <= i < StudCols(o) ==>
              RowsPlacements(o, g, blockX, blockY, k)[j * StudCols(o) + i] == StudAt(o, g, blockX, blockY, j, i)
  {
    if k > 0 {
      RowsPlacementsShape(o, g, blockX, blockY, k - 1);
      var n2 := StudCols(o);
      var prev := RowsPlacements(o, g, blockX, blockY, k - 1);
      assert |prev| == (k - 1) * n2;
      assert k * n2 == (k - 1) * n2 + n2;
      forall j, i | 0 <= j < k && 0 <= i < n2
        ensures RowsPlacements(o, g, blockX, blockY, k)[j * n2 + i] == StudAt(o, g, blockX, blockY, j, i)
      {
        if j < k - 1 {
          MulLe(j + 1, k - 1, n2);
          assert (j + 1) * n2 == j * n2 + n2;
        } else {
          assert j * n2 + i == (k - 1) * n2 + i;
        }
      }
    }
  }

  /** A block emits ten studs. */
  lemma BlockPlacementsLength(o: Orientation, g: Grid, blockX: nat, blockY: nat)
    requires BlockCovered(g, o, blockX, blockY)
    ensures |BlockPlacements(o, g, blockX, blockY)| == 10
  {
    RowsPlacementsShape(o, g, blockX, blockY, StudRows(o));
  }

  /** Stud i of stud row j of a block is emitted at position StudIndex(o, j, i) = j * columns + i of the block's ten. */
  lemma BlockPlacementAt(o: Orientation, g: Grid, blockX: nat, blockY: nat, j: nat, i: nat)
    requires BlockCovered(g, o, blockX, blockY) && j < StudRows(o) && i < StudCols(o)
    ensures StudIndex(o, j, i) < |BlockPlacements(o, g, blockX, blockY)|
    ensures BlockPlacements(o, g, blockX, blockY)[StudIndex(o, j, i)] == StudAt(o, g, blockX, blockY, j, i)
  {
    if o == Normal {
      RowsPlacementsShape(Normal, g, blockX, blockY, 5);
    } else {
      RowsPlacementsShape(Sideways, g, blockX, blockY, 2);
    }
  }

  /** Numbering one more stud appends its call. */
  lemma NumberedFromSnoc(id: nat, ps: seq<Placement>, p: Placement)
    ensures NumberedFrom(id, ps + [p]) == NumberedFrom(id, ps) + [Instr(id + |ps|, p)]
  {
  }

  /** Numbering a concatenation numbers the second part on from where the first ends. */
  lemma NumberedFromAppend(id: nat, ps: seq<Placement>, qs: seq<Placement>)
    ensures NumberedFrom(id, ps + qs) == NumberedFrom(id, ps) + NumberedFrom(id + |ps|, qs)
  {
    var l := NumberedFrom(id, ps + qs);
    var r := NumberedFrom(id, ps) + NumberedFrom(id + |ps|, qs);
    forall k | 0 <= k < |l|
      ensures l[k] == r[k]
    {
      if k >= |ps| {
        assert (ps + qs)[k] == qs[k - |ps|];
      }
    }
  }

  /** The colours of a concatenation are the concatenated colours. */
  lemma ColorsOfAppend(ps: seq<Placement>, qs: seq<Placement>)
    ensures ColorsOf(ps + qs) == ColorsOf(ps) + ColorsOf(qs)
  {
  }

  /** The colours of stud row j of block (blockX, blockY): a slice of grid row GridRow(o, blockY, j). */
  function RowColors(o: Orientation, g: Grid, blockX: nat, blockY: nat, j: nat): (cs: seq<LegoColor>)
    requires BlockCovered(g, o, blockX, blockY) && j < StudRows(o)
    ensures |cs| == StudCols(o)
  {
    g[GridRow(o, blockY, j)][GridCol(o, blockX, 0)..GridCol(o, blockX, StudCols(o))]
  }

  /** The colours of the first k stud rows of block (blockX, blockY). */
  function RowsColors(o: Orientation, g: Grid, blockX: nat, blockY: nat, k: nat): seq<LegoColor>
    requires BlockCovered(g, o, blockX, blockY) && k <= StudRows(o)
  {
    if k == 0 then [] else RowsColors(o, g, blockX, blockY, k - 1) + RowColors(o, g, blockX, blockY, k - 1)
  }

  /** The colours of the ten studs of block (blockX, blockY), in visiting order. */
  function BlockColors(o: Orientation, g: Grid, blockX: nat, blockY: nat): seq<LegoColor>
    requires BlockCovered(g, o, blockX, blockY)
  {
    RowsColors(o, g, blockX, blockY, StudRows(o))
  }

  /** The colours of the first k stud rows are a prefix of those of the first k' rows. */
  lemma {:induction false} RowsColorsPrefix(o: Orientation, g: Grid, blockX: nat, blockY: nat, k: nat, k': nat)
    requires BlockCovered(g, o, blockX, blockY) && k <= k' <= StudRows(o)
    ensures RowsColors(o, g, blockX, blockY, k) <= RowsColors(o, g, blockX, blockY, k')
    decreases k' - k
  {
    if k < k' {
      RowsColorsPrefix(o, g, blockX, blockY, k, k' - 1);
      PrefixAppend(RowsColors(o, g, blockX, blockY, k), RowsColors(o, g, blockX, blockY, k' - 1), RowColors(o, g, blockX, blockY, k' - 1));
    }
  }

  /** The counted colours of a block are the colours of its emitted studs. */
  lemma {:induction false} RowsColorsOfPlacements(o: Orientation, g: Grid, blockX: nat, blockY: nat, k: nat)
    requires BlockCovered(g, o, blockX, blockY) && k <= StudRows(o)
    ensures ColorsOf(RowsPlacements(o, g, blockX, blockY, k)) == RowsColors(o, g, blockX, blockY, k)
  {
    if k > 0 {
      RowsColorsOfPlacements(o, g, blockX, blockY, k - 1);
      ColorsOfAppend(RowsPlacements(o, g, blockX, blockY, k - 1), RowPlacements(o, g, blockX, blockY, k - 1));
      assert ColorsOf(RowPlacements(o, g, blockX, blockY, k - 1)) == RowColors(o, g, blockX, blockY, k - 1);
    }
  }

  /** The ten colours counted for a block are the colours of its ten emitted studs. */
  lemma BlockColorsOfPlacements(o: Orientation, g: Grid, blockX: nat, blockY: nat)
    requires BlockCovered(g, o, blockX, blockY)
    ensures ColorsOf(BlockPlacements(o, g, blockX, blockY)) == BlockColors(o, g, blockX, blockY)
  {
    RowsColorsOfPlacements(o, g, blockX, blockY, StudRows(o));
  }
}
