/**
 Time-window resolution (app.py:117-126): the slider's index pair is applied
 to the ISO-filtered time axis with the upper index clamped to the last
 position and the lower index passed straight to a Python slice; the rows
 whose timestamp falls in the resulting slice are kept.
 */
module Window {
  import opened Order
  import opened Table

  /**
   How a Python slice bound `i` on a sequence of length `n` is normalised:
   a negative bound counts from the end and is floored at 0, a bound past
   the end is cut to `n`.
   */
  function PyIndex(i: int, n: nat): (k: nat)
    ensures k <= n
    ensures 0 <= i <= n ==> k == i
    ensures i > n ==> k == n
    ensures i < 0 && 0 <= i + n ==> k == i + n
    ensures i + n < 0 ==> k == 0
  {
    if i < 0 then (if i + n < 0 then 0 else i + n)
    else if i > n then n
    else i
  }

  /** Python's `s[start:stop]` (no step). */
  function PySlice(s: seq<int>, start: int, stop: int): (w: seq<int>)
    ensures |w| <= |s|
    ensures PyIndex(start, |s|) < PyIndex(stop, |s|) ==> w == s[PyIndex(start, |s|)..PyIndex(stop, |s|)]
    ensures PyIndex(start, |s|) >= PyIndex(stop, |s|) ==> w == []
  {
    var a := PyIndex(start, |s|);
    var b := PyIndex(stop, |s|);
    if a < b then s[a..b] else []
  }

  /** `min(hi, n - 1)` of app.py:124. */
  function ClampUpper(hi: int, n: nat): (e: int)
    requires n > 0
    ensures e <= n - 1
    ensures e == hi || e == n - 1
    ensures hi <= n - 1 ==> e == hi
  {
    if hi < n - 1 then hi else n - 1
  }

  /**
   `time_list[lo : end_idx + 1]` with `end_idx = min(hi, len(time_list) - 1)`
   (app.py:124-125). Every window is a contiguous run of the axis.
   */
  function ResolveWindow(axis: seq<int>, lo: int, hi: int): (w: seq<int>)
    requires |axis| > 0
    ensures |w| <= |axis|
    ensures PyIndex(lo, |axis|) + |w| <= |axis|
    ensures w == axis[PyIndex(lo, |axis|)..PyIndex(lo, |axis|) + |w|]
  {
    var e := ClampUpper(hi, |axis|);
    PySlice(axis, lo, e + 1)
  }

  /**
   With non-negative slider values (the slider's minimum is 0) the window is
   exactly the inclusive run `axis[lo..end]` with the upper index clamped, of
   length `end - lo + 1`, and empty when `lo` lies past the clamped end.
   */
  lemma WindowIsInclusiveRun(axis: seq<int>, lo: int, hi: int)
    requires |axis| > 0 && 0 <= lo && 0 <= hi
    ensures var e := ClampUpper(hi, |axis|);
            var w := ResolveWindow(axis, lo, hi);
            (lo <= e ==> |w| == e - lo + 1 && w == axis[lo..e + 1])
            && (lo > e ==> w == [])
  {
  }

  /** An upper index beyond the axis selects the tail of the axis from `lo`. */
  lemma OverRangeUpperGivesTail(axis: seq<int>, lo: int, hi: int)
    requires |axis| > 0 && 0 <= lo < |axis| && hi >= |axis| - 1
    ensures ResolveWindow(axis, lo, hi) == axis[lo..]
  {
  }

  /** Windows of a sorted, de-duplicated axis are sorted and de-duplicated. */
  lemma WindowStrictlyIncreasing(axis: seq<int>, lo: int, hi: int)
    requires |axis| > 0 && StrictlyIncreasing(axis)
    ensures StrictlyIncreasing(ResolveWindow(axis, lo, hi))
  {
    var w := ResolveWindow(axis, lo, hi);
    var a := PyIndex(lo, |axis|);
    assert forall k :: 0 <= k < |w| ==> w[k] == axis[a + k];
  }

  /**
   A negative lower index counts from the end of the axis: `lo = -1` with an
   upper index at or past the end selects only the latest timestamp.
   */
  lemma NegativeLowerCountsFromEnd(axis: seq<int>, hi: int)
    requires |axis| > 0 && hi >= |axis| - 1
    ensures ResolveWindow(axis, -1, hi) == [axis[|axis| - 1]]
  {
  }

  /**
   A negative upper index also counts from the end: `hi = -2` stops the
   slice before the last timestamp instead of selecting nothing.
   */
  lemma NegativeUpperCountsFromEnd(axis: seq<int>)
    requires |axis| >= 2
    ensures ResolveWindow(axis, 0, -2) == axis[..|axis| - 1]
  {
  }

  /**
   Membership in a window is a timestamp range test: on a strictly increasing
   axis, `t` is in the non-empty window iff it is an axis point between the
   window's first and last timestamps.
   */
  lemma WindowAsTimestampRange(axis: seq<int>, lo: int, hi: int, t: int)
    requires |axis| > 0 && StrictlyIncreasing(axis)
    requires |ResolveWindow(axis, lo, hi)| > 0
    ensures var w := ResolveWindow(axis, lo, hi);
            t in w <==> t in axis && w[0] <= t <= w[|w| - 1]
  {
    var w := ResolveWindow(axis, lo, hi);
    var a := PyIndex(lo, |axis|);
    assert forall k :: 0 <= k < |w| ==> w[k] == axis[a + k];
    if t in axis && w[0] <= t <= w[|w| - 1] {
      var j :| 0 <= j < |axis| && axis[j] == t;
      IncreasingIndexOrder(axis, a, j);
      IncreasingIndexOrder(axis, j, a + |w| - 1);
      assert w[j - a] == t;
    }
  }

  /** On a strictly increasing axis, positions are ordered as their values. */
  lemma IncreasingIndexOrder(s: seq<int>, i: nat, j: nat)
    requires StrictlyIncreasing(s) && i < |s| && j < |s| && s[i] <= s[j]
    ensures i <= j
  {
  }

  /**
   `df_sorted[df_sorted.index.isin(selected_times)]` (app.py:126): the rows
   whose timestamp lies in the window, in their original order.
   */
  function RowsInWindow(rows: seq<Row>, w: seq<int>): (out: seq<Row>)
    ensures |out| <= |rows|
    ensures forall r {:trigger r in out} :: r in out <==> r in rows && r.time in w
    ensures forall r {:trigger multiset(out)[r]} :: multiset(out)[r] == if r.time in w then multiset(rows)[r] else 0
    decreases |rows|
  {
    if |rows| == 0 then []
    else
      var init := RowsInWindow(rows[..|rows| - 1], w);
      var last := rows[|rows| - 1];
      assert rows == rows[..|rows| - 1] + [last];
      if last.time in w then init + [last] else init
  }

  /**
   Windowing the rows of an axis loses nothing the window names: when every
   window timestamp is a timestamp of `rows`, the selected rows are empty
   exactly when the window is.
   */
  lemma RowsInWindowEmptyIff(rows: seq<Row>, w: seq<int>)
    requires forall t :: t in w ==> t in TimesOf(rows)
    ensures |RowsInWindow(rows, w)| == 0 <==> |w| == 0
  {
    if |w| > 0 {
      assert w[0] in w;
      var i :| 0 <= i < |rows| && rows[i].time == w[0];
      assert rows[i] in RowsInWindow(rows, w);
    }
  }
}
