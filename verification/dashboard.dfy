/**
 The `update_outputs` callback (app.py:112-156) as one pure data path: pick
 the rows of the selected ISO, resolve the slider's index pair on that ISO's
 own time axis, keep the rows inside the window, group them by asset, style
 the grouped table, and report the window's first and last timestamps.
 Each early exit yields the empty view.
 */
module Dashboard {
  import opened Order
  import opened Table
  import opened Window
  import opened GroupBy
  import opened Heatmap
  import opened Controls

  /** An input the user may not have set yet (Python `None`). */
  datatype Option<T> = None | Some(value: T)

  /**
   What the callback returns, less presentation: the grouped table (shown
   both as the data table and, re-indexed by asset, as the heatmap figure),
   its column ids, the cell styles, and the window's first and last
   timestamps used by the title and the time label.
   */
  datatype View = View(
    data: seq<GroupRow>,
    columns: seq<string>,
    styles: seq<CellStyle>,
    span: Option<(int, int)>)

  /** `[], [], [], {}, ""`: the view with nothing to show. */
  const EmptyView: View := View([], [], [], None)

  /** The time axis of one ISO's rows, against which slider indices are read. */
  function IsoAxis(ds: Dataset, iso: string): (axis: seq<int>)
    ensures StrictlyIncreasing(axis)
    ensures forall t :: t in axis <==> t in TimesOf(FilterIso(ds.rows, iso))
  {
    TimeAxis(FilterIso(ds.rows, iso))
  }

  /** The rows of `iso` whose timestamp lies in the resolved window, each copy kept. */
  function SelectedRows(ds: Dataset, iso: string, lo: int, hi: int): (rows: seq<Row>)
    requires |IsoAxis(ds, iso)| > 0
    ensures forall r {:trigger r in rows} :: r in rows <==> r in ds.rows && r.iso == iso && r.time in ResolveWindow(IsoAxis(ds, iso), lo, hi)
    ensures forall r {:trigger multiset(rows)[r]} :: multiset(rows)[r] ==
              if r.iso == iso && r.time in ResolveWindow(IsoAxis(ds, iso), lo, hi) then multiset(ds.rows)[r] else 0
  {
    RowsInWindow(FilterIso(ds.rows, iso), ResolveWindow(IsoAxis(ds, iso), lo, hi))
  }

  /**
   The early exits of app.py:113-114, 121-122 and 128-129: no ISO or no
   range chosen, no rows for the ISO, no rows in the window, or no `Asset`
   column.
   */
  predicate NothingToShow(ds: Dataset, iso: Option<string>, range: Option<(int, int)>) {
    || iso.None?
    || range.None?
    || |IsoAxis(ds, iso.value)| == 0
    || |SelectedRows(ds, iso.value, range.value.0, range.value.1)| == 0
    || !ds.hasAssetColumn
  }

  /**
   What a non-blank view holds: the grouped means of the windowed rows of
   the ISO, the key column followed by the scalar columns, one style per cell
   in column-major order, and the window's first and last timestamps.
   */
  predicate ShowsSelection(ds: Dataset, iso: string, lo: int, hi: int, v: View)
    requires WellFormedRows(ds.rows) && |IsoAxis(ds, iso)| > 0
  {
    var w := ResolveWindow(IsoAxis(ds, iso), lo, hi);
    var rows := SelectedRows(ds, iso, lo, hi);
    && |w| > 0
    && WellFormedRows(rows)
    && v.data == GroupMean(rows)
    && |v.data| > 0
    && v.columns == ["Asset"] + ScalarColumns
    && StylesOf(v.data, v.styles)
    && v.span == Some((w[0], w[|w| - 1]))
  }

  /** The rows selected from a well-formed table are well formed and group to a non-empty table. */
  lemma SelectionFacts(ds: Dataset, iso: string, lo: int, hi: int)
    requires WellFormedRows(ds.rows) && |IsoAxis(ds, iso)| > 0
    requires |SelectedRows(ds, iso, lo, hi)| > 0
    ensures WellFormedRows(SelectedRows(ds, iso, lo, hi))
    ensures |ResolveWindow(IsoAxis(ds, iso), lo, hi)| > 0
    ensures |GroupMean(SelectedRows(ds, iso, lo, hi))| > 0
  {
    var rows := SelectedRows(ds, iso, lo, hi);
    assert rows[0] in rows;
    assert rows[0].asset in AssetsOf(rows);
  }

  /**
   `update_outputs(selected_iso, time_range)`: the empty view exactly on the
   early exits; otherwise the view of the selection.
   */
  method UpdateOutputs(ds: Dataset, iso: Option<string>, range: Option<(int, int)>) returns (v: View)
    requires WellFormedRows(ds.rows)
    ensures v == EmptyView <==> NothingToShow(ds, iso, range)
    ensures !NothingToShow(ds, iso, range) ==> ShowsSelection(ds, iso.value, range.value.0, range.value.1, v)
  {
    if iso.None? || range.None? {
      return EmptyView;
    }
    var axis := IsoAxis(ds, iso.value);
    if |axis| == 0 {
      return EmptyView;
    }
    var (lo, hi) := range.value;
    var rows := SelectedRows(ds, iso.value, lo, hi);
    if |rows| == 0 || !ds.hasAssetColumn {
      return EmptyView;
    }
    SelectionFacts(ds, iso.value, lo, hi);
    var w := ResolveWindow(axis, lo, hi);
    var grouped := GroupMean(rows);
    var styles := GenerateHeatmapStyles(grouped);
    v := View(grouped, ["Asset"] + ScalarColumns, styles, Some((w[0], w[|w| - 1])));
  }

  /**
   The view is blank exactly when no ISO or range is chosen, the ISO has no
   rows, the resolved window is empty, or there is no `Asset` column: a
   non-empty window always selects some row.
   */
  lemma NothingToShowIff(ds: Dataset, iso: Option<string>, range: Option<(int, int)>)
    ensures NothingToShow(ds, iso, range) <==>
              || iso.None?
              || range.None?
              || |IsoAxis(ds, iso.value)| == 0
              || |ResolveWindow(IsoAxis(ds, iso.value), range.value.0, range.value.1)| == 0
              || !ds.hasAssetColumn
  {
    if iso.Some? && range.Some? && |IsoAxis(ds, iso.value)| > 0 {
      var axis := IsoAxis(ds, iso.value);
      var w := ResolveWindow(axis, range.value.0, range.value.1);
      var isoRows := FilterIso(ds.rows, iso.value);
      assert forall t :: t in w ==> t in TimesOf(isoRows) by {
        forall t | t in w ensures t in TimesOf(isoRows) {
          var k :| 0 <= k < |w| && w[k] == t;
          assert w[k] == axis[PyIndex(range.value.0, |axis|) + k];
        }
      }
      RowsInWindowEmptyIff(isoRows, w);
    }
  }

  /**
   The label's two timestamps bracket every row shown, and each is the
   timestamp of some row shown: they are the earliest and latest selected
   times.
   */
  lemma SpanBracketsSelection(ds: Dataset, iso: string, lo: int, hi: int)
    requires |IsoAxis(ds, iso)| > 0
    requires |SelectedRows(ds, iso, lo, hi)| > 0
    ensures var w := ResolveWindow(IsoAxis(ds, iso), lo, hi);
            var rows := SelectedRows(ds, iso, lo, hi);
            && |w| > 0
            && (forall r :: r in rows ==> w[0] <= r.time <= w[|w| - 1])
            && (exists r :: r in rows && r.time == w[0])
            && (exists r :: r in rows && r.time == w[|w| - 1])
  {
    var axis := IsoAxis(ds, iso);
    var w := ResolveWindow(axis, lo, hi);
    var rows := SelectedRows(ds, iso, lo, hi);
    assert rows[0] in rows;
    WindowEnds(axis, lo, hi);
    forall r | r in rows ensures w[0] <= r.time <= w[|w| - 1] {
      WindowAsTimestampRange(axis, lo, hi, r.time);
    }
    var first := WindowTimeHasRow(ds, iso, lo, hi, w[0]);
    var last := WindowTimeHasRow(ds, iso, lo, hi, w[|w| - 1]);
  }

  /** A non-empty window's ends are in the window and on the axis. */
  lemma WindowEnds(axis: seq<int>, lo: int, hi: int)
    requires |axis| > 0 && |ResolveWindow(axis, lo, hi)| > 0
    ensures var w := ResolveWindow(axis, lo, hi);
            w[0] in w && w[|w| - 1] in w && w[0] in axis && w[|w| - 1] in axis
  {
    var w := ResolveWindow(axis, lo, hi);
    assert w[0] == axis[PyIndex(lo, |axis|)];
    assert w[|w| - 1] == axis[PyIndex(lo, |axis|) + |w| - 1];
  }

  /** Every timestamp of the window is the timestamp of some selected row. */
  lemma WindowTimeHasRow(ds: Dataset, iso: string, lo: int, hi: int, t: int) returns (r: Row)
    requires |IsoAxis(ds, iso)| > 0
    requires t in ResolveWindow(IsoAxis(ds, iso), lo, hi)
    ensures r in SelectedRows(ds, iso, lo, hi) && r.time == t
  {
    var axis := IsoAxis(ds, iso);
    var w := ResolveWindow(axis, lo, hi);
    var k :| 0 <= k < |w| && w[k] == t;
    assert w[k] == axis[PyIndex(lo, |axis|) + k];
    var isoRows := FilterIso(ds.rows, iso);
    assert t in TimesOf(isoRows);
    var i :| 0 <= i < |isoRows| && isoRows[i].time == t;
    r := isoRows[i];
    assert r in isoRows;
  }

  /**
   Slider indices are read against the selected ISO's own axis while the
   tick marks label them with the whole table's axis. With ISO "A" at time 1
   and ISO "B" at time 2, mark 0 reads time 1, yet for "B" index 0 selects
   time 2 and index 1 (marked time 2) selects nothing.
   */
  lemma SliderIndexIsRelativeToIso()
    ensures var ds := Dataset(true, [Row(1, "A", "x", [1.0, 1.0, 1.0]), Row(2, "B", "y", [2.0, 2.0, 2.0])]);
            && InitControls(ds).marks[0] == Stamp(1)
            && InitControls(ds).marks[1] == Stamp(2)
            && ResolveWindow(IsoAxis(ds, "B"), 0, 0) == [2]
            && ResolveWindow(IsoAxis(ds, "B"), 1, 1) == []
  {
    var ds := Dataset(true, [Row(1, "A", "x", [1.0, 1.0, 1.0]), Row(2, "B", "y", [2.0, 2.0, 2.0])]);
    var all := TimeAxis(ds.rows);
    assert ds.rows[..1] == [ds.rows[0]];
    assert [ds.rows[0]][..0] == [];
    assert TimeAxis([ds.rows[0]]) == InsertTime(1, []) == [1];
    assert [1][1..] == [];
    assert InsertTime(2, [1]) == [1] + InsertTime(2, []) == [1, 2];
    assert all == [1, 2];
    assert MarkStep(2) == 1;
    assert 0 % 1 == 0 && 1 % 1 == 0;
    var b := FilterIso(ds.rows, "B");
    assert b == [ds.rows[1]];
    assert b[..0] == [];
    assert IsoAxis(ds, "B") == [2];
  }
}
