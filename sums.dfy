/**
 * Finite sums of an integer-valued function over the cells of a rectangle,
 * taken row by row or column by column, and the facts that let one sum be
 * regrouped as another.
 */
module Sums {
  /** f(x0, y) + ... + f(x0+w-1, y): w cells of row y, from column x0. */
  function RowSum(f: (int, int) -> int, x0: int, y: int, w: nat): int
  {
    if w == 0 then 0 else RowSum(f, x0, y, w - 1) + f(x0 + w - 1, y)
  }

  /** f(x, y0) + ... + f(x, y0+h-1): h cells of column x, from row y0. */
  function ColSum(f: (int, int) -> int, x: int, y0: int, h: nat): int
  {
    if h == 0 then 0 else ColSum(f, x, y0, h - 1) + f(x, y0 + h - 1)
  }

  /** The w-by-h rectangle with top-left cell (x0, y0), summed row after row. */
  function RectSum(f: (int, int) -> int, x0: int, y0: int, w: nat, h: nat): int
  {
    if h == 0 then 0 else RectSum(f, x0, y0, w, h - 1) + RowSum(f, x0, y0 + h - 1, w)
  }

  /** The same rectangle, summed column after column. */
  function RectSumByCols(f: (int, int) -> int, x0: int, y0: int, w: nat, h: nat): int
  {
    if w == 0 then 0 else RectSumByCols(f, x0, y0, w - 1, h) + ColSum(f, x0 + w - 1, y0, h)
  }

  /** Cutting a row of w cells after its first w1 cells, at column x1. */
  lemma {:induction false} RowSplit(f: (int, int) -> int, x0: int, y: int, w: nat, w1: nat, w2: nat, x1: int)
    requires w == w1 + w2 && x1 == x0 + w1
    ensures RowSum(f, x0, y, w) == RowSum(f, x0, y, w1) + RowSum(f, x1, y, w2)
  {
    if w2 > 0 {
      RowSplit(f, x0, y, w - 1, w1, w2 - 1, x1);
    }
  }

  /** Cutting a rectangle w columns wide after its first w1 columns, at column x1. */
  lemma {:induction false} RectSplitColumns(f: (int, int) -> int, x0: int, y0: int, w: nat, h: nat, w1: nat, w2: nat, x1: int)
    requires w == w1 + w2 && x1 == x0 + w1
    ensures RectSum(f, x0, y0, w, h) == RectSum(f, x0, y0, w1, h) + RectSum(f, x1, y0, w2, h)
  {
    if h > 0 {
      RectSplitColumns(f, x0, y0, w, h - 1, w1, w2, x1);
      RowSplit(f, x0, y0 + h - 1, w, w1, w2, x1);
    }
  }

  /** Cutting a rectangle h rows tall after its first h1 rows, at row y1. */
  lemma {:induction false} RectSplitRows(f: (int, int) -> int, x0: int, y0: int, w: nat, h: nat, h1: nat, h2: nat, y1: int)
    requires h == h1 + h2 && y1 == y0 + h1
    ensures RectSum(f, x0, y0, w, h) == RectSum(f, x0, y0, w, h1) + RectSum(f, x0, y1, w, h2)
  {
    if h2 > 0 {
      RectSplitRows(f, x0, y0, w, h - 1, h1, h2 - 1, y1);
    }
  }

  /** Summing row after row, the last column contributes one column sum. */
  lemma {:induction false} RectLastColumn(f: (int, int) -> int, x0: int, y0: int, w: nat, h: nat)
    requires w > 0
    ensures RectSum(f, x0, y0, w, h) == RectSum(f, x0, y0, w - 1, h) + ColSum(f, x0 + w - 1, y0, h)
  {
    if h > 0 {
      RectLastColumn(f, x0, y0, w, h - 1);
    }
  }

  /** The order of summation does not matter. */
  lemma {:induction false} ByColsIsByRows(f: (int, int) -> int, x0: int, y0: int, w: nat, h: nat)
    ensures RectSumByCols(f, x0, y0, w, h) == RectSum(f, x0, y0, w, h)
  {
    if w > 0 {
      ByColsIsByRows(f, x0, y0, w - 1, h);
      RectLastColumn(f, x0, y0, w, h);
    } else {
      RectNoColumns(f, x0, y0, h);
    }
  }

  /** A rectangle without columns sums to nothing. */
  lemma {:induction false} RectNoColumns(f: (int, int) -> int, x0: int, y0: int, h: nat)
    ensures RectSum(f, x0, y0, 0, h) == 0
  {
    if h > 0 {
      RectNoColumns(f, x0, y0, h - 1);
    }
  }

  /** Functions that agree on a row have the same sum over it. */
  lemma {:induction false} RowSumAgree(f: (int, int) -> int, g: (int, int) -> int, x0: int, y: int, w: nat)
    requires forall x :: x0 <= x < x0 + w ==> f(x, y) == g(x, y)
    ensures RowSum(f, x0, y, w) == RowSum(g, x0, y, w)
  {
    if w > 0 {
      RowSumAgree(f, g, x0, y, w - 1);
    }
  }

  /** Functions that agree on a rectangle have the same sum over it. */
  lemma {:induction false} RectSumAgree(f: (int, int) -> int, g: (int, int) -> int, x0: int, y0: int, w: nat, h: nat)
    requires forall x, y :: x0 <= x < x0 + w && y0 <= y < y0 + h ==> f(x, y) == g(x, y)
    ensures RectSum(f, x0, y0, w, h) == RectSum(g, x0, y0, w, h)
  {
    if h > 0 {
      RectSumAgree(f, g, x0, y0, w, h - 1);
      RowSumAgree(f, g, x0, y0 + h - 1, w);
    }
  }
}
