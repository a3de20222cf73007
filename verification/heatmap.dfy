/**
 Heatmap cell styling, `generate_heatmap_styles` (app.py:31-44): per scalar
 column, min-max normalisation with a small constant added to the
 denominator, and a colour channel `int(255 * norm)` shared by the red and
 green components of each cell's background.
 */
module Heatmap {
  import opened Table
  import opened GroupBy

  /** The `1e-6` denominator guard of app.py:37. */
  const Eps: real := 0.000001

  /** `(v - lo) / (hi - lo + 1e-6)` for a value between the column's extremes. */
  function Normalize(v: real, lo: real, hi: real): (n: real)
    requires lo <= v <= hi
    ensures 0.0 <= n < 1.0
    ensures n == 0.0 <==> v == lo
  {
    NormalizeFacts(v, lo, hi);
    (v - lo) / (hi - lo + Eps)
  }

  lemma NormalizeFacts(v: real, lo: real, hi: real)
    requires lo <= v <= hi
    ensures var n := (v - lo) / (hi - lo + Eps);
            0.0 <= n < 1.0 && (n == 0.0 <==> v == lo)
  {
    var d := hi - lo + Eps;
    var n := (v - lo) / d;
    assert n * d == v - lo;
    MulCancelLess(n, 1.0, d);
  }

  /** Dividing out a positive factor keeps a strict inequality. */
  lemma MulCancelLess(a: real, b: real, d: real)
    requires d > 0.0 && a * d < b * d
    ensures a < b
  {
  }

  /** Dividing out a positive factor keeps a non-strict inequality. */
  lemma MulCancelAtLeast(a: real, b: real, d: real)
    requires d > 0.0 && a * d >= b * d
    ensures a >= b
  {
  }

  /**
   `int(255 * norm)`: Python's `int` truncates toward zero, which for the
   non-negative `norm` is the floor.
   */
  function Channel(n: real): (k: int)
    requires 0.0 <= n < 1.0
    ensures 0 <= k <= 254
  {
    (255.0 * n).Floor
  }

  /** Normalisation is monotone non-decreasing in the value. */
  lemma NormalizeMonotone(v: real, w: real, lo: real, hi: real)
    requires lo <= v <= w <= hi
    ensures Normalize(v, lo, hi) <= Normalize(w, lo, hi)
  {
    var d := hi - lo + Eps;
    var nv, nw := Normalize(v, lo, hi), Normalize(w, lo, hi);
    assert nv * d == v - lo;
    assert nw * d == w - lo;
    if nv != nw {
      MulCancelLess(nv, nw, d);
    }
  }

  /** A column whose values are all equal normalises to 0 everywhere; no division by zero. */
  lemma AllEqualColumnIsZero(v: real, lo: real, hi: real)
    requires lo == hi && lo <= v <= hi
    ensures Normalize(v, lo, hi) == 0.0
    ensures Channel(Normalize(v, lo, hi)) == 0
  {
  }

  /**
   In exact arithmetic the column maximum reaches the top channel 254, never
   255 because of the guard, once the column's spread is at least 254 times
   the guard.
   */
  lemma MaxChannelIs254(lo: real, hi: real)
    requires hi - lo >= 254.0 * Eps
    ensures Channel(Normalize(hi, lo, hi)) == 254
  {
    var d := hi - lo + Eps;
    var n := Normalize(hi, lo, hi);
    assert n * d == hi - lo;
    assert 255.0 * n * d >= 254.0 * d by {
      assert 255.0 * (hi - lo) >= 254.0 * (hi - lo) + 254.0 * Eps;
    }
    MulCancelAtLeast(255.0 * n, 254.0, d);
  }

  /** The colour channel is monotone in the value, and 0 at the column minimum. */
  lemma ChannelMonotone(v: real, w: real, lo: real, hi: real)
    requires lo <= v <= w <= hi
    ensures Channel(Normalize(v, lo, hi)) <= Channel(Normalize(w, lo, hi))
    ensures Channel(Normalize(lo, lo, hi)) == 0
  {
    NormalizeMonotone(v, w, lo, hi);
  }

  /** `df[col].min()` over a non-empty grouped table. */
  function ColumnMin(t: seq<GroupRow>, c: nat): (m: real)
    requires |t| > 0
    requires forall i :: 0 <= i < |t| ==> c < |t[i].means|
    ensures forall i :: 0 <= i < |t| ==> m <= t[i].means[c]
    ensures exists i :: 0 <= i < |t| && m == t[i].means[c]
    decreases |t|
  {
    if |t| == 1 then t[0].means[c]
    else
      var rest := ColumnMin(t[1..], c);
      assert forall i :: 1 <= i < |t| ==> t[i] == t[1..][i - 1];
      if t[0].means[c] <= rest then t[0].means[c] else rest
  }

  /** `df[col].max()` over a non-empty grouped table. */
  function ColumnMax(t: seq<GroupRow>, c: nat): (m: real)
    requires |t| > 0
    requires forall i :: 0 <= i < |t| ==> c < |t[i].means|
    ensures forall i :: 0 <= i < |t| ==> t[i].means[c] <= m
    ensures exists i :: 0 <= i < |t| && m == t[i].means[c]
    decreases |t|
  {
    if |t| == 1 then t[0].means[c]
    else
      var rest := ColumnMax(t[1..], c);
      assert forall i :: 1 <= i < |t| ==> t[i] == t[1..][i - 1];
      if t[0].means[c] >= rest then t[0].means[c] else rest
  }

  /** Rows of a grouped table that hold every scalar column. */
  predicate FullWidth(t: seq<GroupRow>) {
    forall i :: 0 <= i < |t| ==> |t[i].means| == Width
  }

  /** The normalised intensity of cell (row `i`, column `c`). */
  function CellNorm(t: seq<GroupRow>, i: nat, c: nat): (n: real)
    requires FullWidth(t) && i < |t| && c < Width
    ensures 0.0 <= n < 1.0
  {
    Normalize(t[i].means[c], ColumnMin(t, c), ColumnMax(t, c))
  }

  /**
   One entry of the style list: which cell it styles (`row_index`,
   `column_id`) and the red/green channel of its background colour.
   */
  datatype CellStyle = CellStyle(rowIndex: nat, columnId: string, channel: int)

  /** The style of row `i` in column `c`. */
  function CellStyleAt(t: seq<GroupRow>, c: nat, i: nat): (s: CellStyle)
    requires FullWidth(t) && c < Width && i < |t|
    ensures s.rowIndex == i && s.columnId == ScalarColumns[c]
    ensures 0 <= s.channel <= 254
    ensures t[i].means[c] == ColumnMin(t, c) ==> s.channel == 0
  {
    CellStyle(i, ScalarColumns[c], Channel(CellNorm(t, i, c)))
  }

  /**
   Within a column, a larger mean never gets a lighter (smaller) channel,
   and the column's smallest mean gets channel 0.
   */
  lemma CellChannelMonotone(t: seq<GroupRow>, c: nat, i: nat, j: nat)
    requires FullWidth(t) && c < Width && i < |t| && j < |t|
    requires t[i].means[c] <= t[j].means[c]
    ensures CellStyleAt(t, c, i).channel <= CellStyleAt(t, c, j).channel
  {
    ChannelMonotone(t[i].means[c], t[j].means[c], ColumnMin(t, c), ColumnMax(t, c));
  }

  /** Position of row `i` of column `c` in a column-major list over `n` rows. */
  function Position(c: nat, i: nat, n: nat): nat {
    c * n + i
  }

  /** Earlier columns occupy positions before column `c`. */
  lemma PositionBefore(c': nat, i': nat, c: nat, n: nat)
    requires c' < c && i' < n
    ensures Position(c', i', n) < c * n
  {
    assert (c' + 1) * n <= c * n;
  }

  /**
   `styles` lists one entry per cell of `t`, column by column: the entry for
   row `i` of column `c` sits at position `c * |t| + i`.
   */
  predicate StylesOf(t: seq<GroupRow>, styles: seq<CellStyle>) {
    && FullWidth(t)
    && |styles| == Width * |t|
    && forall c, i :: 0 <= c < Width && 0 <= i < |t| ==>
         Position(c, i, |t|) < |styles| && styles[Position(c, i, |t|)] == CellStyleAt(t, c, i)
  }

  /**
   `generate_heatmap_styles(grouped_avg, scalar_columns)`: one entry per
   cell, the outer loop over the columns and the inner loop over the rows,
   so the entry for row `i` of column `c` sits at position `c * |t| + i`.
   */
  method GenerateHeatmapStyles(t: seq<GroupRow>) returns (styles: seq<CellStyle>)
    requires FullWidth(t)
    ensures |styles| == Width * |t|
    ensures forall c, i :: 0 <= c < Width && 0 <= i < |t| ==>
              Position(c, i, |t|) < |styles| && styles[Position(c, i, |t|)] == CellStyleAt(t, c, i)
    ensures forall k :: 0 <= k < |styles| ==>
              styles[k].rowIndex < |t| && styles[k].columnId in ScalarColumns && 0 <= styles[k].channel <= 254
  {
    styles := [];
    var c := 0;
    while c < Width
      invariant 0 <= c <= Width
      invariant |styles| == c * |t|
      invariant forall c', i' :: 0 <= c' < c && 0 <= i' < |t| ==>
                  Position(c', i', |t|) < |styles| && styles[Position(c', i', |t|)] == CellStyleAt(t, c', i')
      invariant forall k :: 0 <= k < |styles| ==>
                  styles[k].rowIndex < |t| && styles[k].columnId in ScalarColumns && 0 <= styles[k].channel <= 254
    {
      var i := 0;
      while i < |t|
        invariant 0 <= i <= |t|
        invariant |styles| == c * |t| + i
        invariant forall c', i' :: 0 <= c' < c && 0 <= i' < |t| ==>
                    Position(c', i', |t|) < |styles| && styles[Position(c', i', |t|)] == CellStyleAt(t, c', i')
        invariant forall i' :: 0 <= i' < i ==> styles[Position(c, i', |t|)] == CellStyleAt(t, c, i')
        invariant forall k :: 0 <= k < |styles| ==>
                    styles[k].rowIndex < |t| && styles[k].columnId in ScalarColumns && 0 <= styles[k].channel <= 254
      {
        var lo := ColumnMin(t, c);
        var hi := ColumnMax(t, c);
        var norm := Normalize(t[i].means[c], lo, hi);
        styles := styles + [CellStyle(i, ScalarColumns[c], Channel(norm))];
        i := i + 1;
      }
      forall c', i' | 0 <= c' < c + 1 && 0 <= i' < |t|
        ensures Position(c', i', |t|) < (c + 1) * |t|
      {
        if c' < c {
          PositionBefore(c', i', c + 1, |t|);
        }
      }
      c := c + 1;
    }
  }
}
