# ISO heatmap viewer — data path model

A Dafny model of the data path behind the single-page ISO heatmap viewer
(`app.py`). The page's controls and outputs come from these pure stages:

- **Controls** (`init_controls`). The ISO dropdown lists every ISO once, in order of first appearance. The range slider spans the indices of the whole table's sorted, distinct time axis and starts fully selected. It has tick marks every `max(1, n // 6)` indices. With fewer than two time points it falls back to the fixed `0..1` slider.
- **Window** (`update_outputs`, first half). The rows of the chosen ISO are kept and that ISO's own time axis is built. The upper slider index is clamped to the last position. The axis is sliced with Python's slice rules, so negative bounds count from the end. The rows whose timestamp lies in the slice are kept.
- **Group-by** (`groupby("Asset").mean()`). One output row per distinct asset, in sorted key order. Each scalar cell is the sum of the asset's values divided by its row count. The grouping is computed in one pass over a key-sorted tally list. It is proved equal to an independent sum/count reference, and proved independent of the row order.
- **Heatmap styles** (`generate_heatmap_styles`). Each column is min-max normalised with a `1e-6` denominator guard into `[0, 1)`, then mapped to a colour channel `int(255 * norm)` in `0..254`. The styles are emitted column by column.
- **Dashboard** (`update_outputs` as a whole). It returns the empty view exactly on the early exits. Otherwise it returns the grouped table, its column ids, its cell styles, and the first and last timestamps of the window.

Modelling choices:
- Timestamps are `int`, so their order is kept.
- Scalar values are exact `real`s.
- Asset keys are strings ordered by code point, as Python compares `str`. Only a text `Asset` column is modelled (see "## Left out").
- The table's schema is fixed: every row has a time, an ISO, an asset and the three scalar columns `value1`, `value2`, `value3`. A missing `Asset` column is a flag on the dataset, because the code tests for it.

Two behaviours of the code are worth knowing:

- **Constant column.** A column whose values are all equal normalises to 0 in every cell, so the channel is 0. The numerator is 0 and the guard keeps the denominator positive. A neutral 0.5 for a constant column would be another choice; the code has no such fallback, and the model follows the code (`Heatmap.AllEqualColumnIsZero`).
- **Slider indices.** The slider's tick marks label indices of the *whole table's* time axis. The window reads the same indices against the *selected ISO's* axis. When ISOs have different timestamps, a mark's label is not the time the index selects. `Dashboard.SliderIndexIsRelativeToIso` exhibits this on a two-row table.

## Model

| member | source | states |
|---|---|---|
| Table.FilterIso | app.py:117 | exactly the rows of the given ISO, each with its original multiplicity |
| Table.TimeAxis | app.py:83-84 | strictly increasing; holds exactly the table's timestamps; no longer than the table |
| Table.TimeAxisCanonical | app.py:83-84 | any strictly increasing listing of the table's timestamps is the time axis, so the axis does not depend on row order |
| Table.Unique | app.py:82 | same elements as the input, no duplicates, ordered by first appearance |
| Table.IsoOptions | app.py:82 | each ISO occurring in the table exactly once, and no other value, in order of first appearance |
| Controls.MarkStep | app.py:93 | the mark stride is at least 1; it is `n // 6` from 6 points on and 1 below 12 points |
| Controls.MarksFrom | app.py:91-94 | a mark at exactly the indices `start, start + step, …` below the axis length, each labelled with that index's timestamp |
| Controls.InitControls | app.py:79-96 | options are the ISO options; below 2 time points, the fixed `0, 1, [0, 1], {0, 1}` slider; otherwise `min = 0`, `max = n - 1`, value `[0, n - 1]`, marks at exactly the multiples of `max(1, n // 6)` below `n`, labelled with their timestamps |
| Controls.MarksCoverAxis | app.py:89-94 | index 0 is marked, every mark lies between the slider's min and max, and some mark lies within one stride of the end |
| Window.ClampUpper | app.py:124 | `min(hi, n - 1)`: never past the last index, and `hi` itself when `hi` is in range |
| Window.ResolveWindow | app.py:124-125 | the window is a contiguous run of the axis starting at the normalised lower index and never past its end |
| Window.WindowIsInclusiveRun | app.py:124-125 | for non-negative indices, the window is `axis[lo..end]` of length `end - lo + 1` with `end = min(hi, n - 1)`, and empty when `lo > end` |
| Window.OverRangeUpperGivesTail | app.py:124-125 | an upper index at or past the end selects the tail of the axis from `lo`, with no error |
| Window.WindowStrictlyIncreasing | app.py:118-125 | a window of the sorted, de-duplicated axis is itself sorted and de-duplicated |
| Window.NegativeLowerCountsFromEnd | app.py:125 | lower index `-1` selects only the latest timestamp |
| Window.NegativeUpperCountsFromEnd | app.py:124-125 | upper index `-2` stops before the last timestamp |
| Window.WindowAsTimestampRange | app.py:125-126 | on the sorted axis, a time is in a non-empty window iff it is an axis time between the window's first and last timestamps |
| Window.RowsInWindow | app.py:126 | exactly the rows whose timestamp is in the window, each with its original multiplicity |
| Window.RowsInWindowEmptyIff | app.py:126-129 | when every window time occurs in the rows, the selected rows are empty iff the window is |
| GroupBy.AddRow | app.py:132 | folding a row into the sorted tallies keeps them sorted; adds its asset; raises that asset's count by 1 and its sums by the row's values; leaves every other asset alone |
| GroupBy.Accumulate | app.py:132 | the tallies hold exactly the rows' assets, each with its row count and column sums |
| GroupBy.GroupMean | app.py:132 | keys strictly sorted; exactly the assets of the rows; every cell is that asset's column sum divided by its row count |
| GroupBy.GroupMeanCardinality | app.py:132 | one grouped row per distinct asset |
| GroupBy.CountPermutation | app.py:118-132 | an asset's row count depends only on the multiset of rows |
| GroupBy.SumPermutation | app.py:118-132 | an asset's column sum depends only on the multiset of rows |
| GroupBy.GroupMeanPermutationInvariant | app.py:118-132 | reordering the rows, e.g. sorting them by time, leaves the grouped table unchanged |
| Heatmap.Normalize | app.py:37 | for a value between the column's extremes, the normalised value is in `[0, 1)` and is 0 exactly at the minimum |
| Heatmap.NormalizeMonotone | app.py:34-37 | normalisation is non-decreasing in the value |
| Heatmap.AllEqualColumnIsZero | app.py:37 | a constant column normalises to 0 with channel 0; no division by zero |
| Heatmap.Channel | app.py:38 | `int(255 * norm)` lies in `0..254` |
| Heatmap.MaxChannelIs254 | app.py:37-38 | in exact arithmetic, the column maximum reaches channel 254, never 255, once the spread is at least 254 times the guard |
| Heatmap.ChannelMonotone | app.py:37-38 | the channel is non-decreasing in the value and 0 at the column minimum |
| Heatmap.ColumnMin | app.py:34 | a lower bound of the column that some row attains |
| Heatmap.ColumnMax | app.py:35 | an upper bound of the column that some row attains |
| Heatmap.CellStyleAt | app.py:36-42 | the style names row `i` and column `c`; its channel is in `0..254` and is 0 at the column minimum |
| Heatmap.CellChannelMonotone | app.py:34-38 | within a column, a larger mean never gets a smaller channel |
| Heatmap.GenerateHeatmapStyles | app.py:31-44 | one style per cell, `columns × rows` in all; the style of row `i`, column `c` is at position `c · rows + i`; every entry names a valid row and a scalar column, with a channel in `0..254` |
| Dashboard.IsoAxis | app.py:117-119 | the selected ISO's time axis: strictly increasing, exactly that ISO's timestamps |
| Dashboard.SelectedRows | app.py:117-126 | exactly the table rows of the ISO whose timestamp is in the resolved window, each with its multiplicity in the table |
| Dashboard.UpdateOutputs | app.py:112-137 | the view is empty exactly on the early exits; otherwise it holds the grouped means of the selected rows (non-empty), the columns `Asset, value1, value2, value3`, the styles of that table, and the window's first and last timestamps |
| Dashboard.NothingToShowIff | app.py:113-129 | the selected rows are empty exactly when the window is, so the view is blank iff no ISO or range is chosen, the ISO has no rows, the window is empty, or there is no `Asset` column |
| Dashboard.SpanBracketsSelection | app.py:125-126 | the label's first and last timestamps bracket every selected row, and each is the time of some selected row |
| Dashboard.WindowTimeHasRow | app.py:125-126 | every time of the window is the time of some selected row |
| Dashboard.SliderIndexIsRelativeToIso | app.py:84-94 | on a two-ISO table, mark 0 is labelled with time 1, yet index 0 selects time 2 for the second ISO and index 1 selects nothing |

## Left out

- Dash app construction, the layout tree and the callback wiring (app.py:13-14, 47-78, 103-111): UI plumbing with no data logic. Each callback is modelled as a function of its inputs.
- `load_large_dataset` (app.py:22-28): CSV reading, `time.sleep`, date parsing and the `flask_caching` memoisation. The loaded table is a parameter (`Dataset`).
- The Plotly figure (app.py:140-151): a foreign rendering library. The figure shows the grouped table re-indexed by asset, which is `View.data`. Its title's two timestamps are `View.span`.
- String formatting: the `strftime` text of tick marks and of the time label, and the `rgba(…)` colour string. The model keeps the timestamp (`MarkLabel.Stamp`, `View.span`) and the numeric channel (`CellStyle.channel`). The constant `"color": "black"` is also dropped.
- Rounding the table data to 2 decimals (app.py:134) is display-only. `View.data` is the unrounded `grouped_avg`, which is also what the styles and the figure use.
- IEEE float behaviour, NaN values and pandas' dropping of NaN group keys: values are exact reals.
- The `try/except` fallback of `init_controls` (app.py:98-100): it catches any failure inside the function. That includes the loader, a table without an `ISO` column (app.py:82) and a failing `strftime` (app.py:92). In those cases the code returns `[], 0, 1, [0, 1], {0: "0", 1: "1"}`. The model's rows always have an ISO and timestamps are integers, so these failures cannot arise in it.
- Schema errors in `update_outputs`: there, a table without an `ISO` column (app.py:117) or without one of the scalar columns (app.py:132) raises `KeyError`, because that callback has no `try`. The model's rows always have them. A missing `Asset` column is modelled, because the code checks for it.
- `another_app.py` (URL-to-layout routing) and `pages.py` (cache object set-up) are not part of this model: framework wiring only.
- Dashboard.SelectedRows: keeps the selected rows in table order, whereas the code has sorted them by time. Only the grouped result depends on them, and `GroupBy.GroupMeanPermutationInvariant` proves it is the same for any order.
- Dashboard.UpdateOutputs: the column ids are the list `Asset, value1, value2, value3`. The code's `{"name": col, "id": col}` records carry the same id twice.
- Heatmap.Channel: the `0..254` bound holds in exact reals only. In IEEE doubles, once `max - min` exceeds about 2e10, the `1e-6` guard is absorbed and `norm` rounds to 1.0 at the column maximum, so that cell gets channel 255. The same caveat applies to `Heatmap.MaxChannelIs254`.
- GroupBy.GroupMean: keys are ordered as strings, by code point. For a numeric `Asset` column, `read_csv` infers an integer or float type and pandas sorts the keys numerically, so `2` comes before `10` where the model puts `"10"` first. That would change the grouped row order and every style's `row_index`. Only text `Asset` columns are modelled.
