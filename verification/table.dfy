/**
 The observation table the dashboard loads once: rows keyed by a timestamp
 (not unique), carrying an ISO region, an asset identifier and one real value
 per scalar column; and the derived views every stage starts from: the rows
 of one ISO, the sorted distinct time axis, and the ISO dropdown options.
 */
module Table {
  import opened Order

  /** The fixed scalar value columns, in display order (app.py:10). */
  const ScalarColumns: seq<string> := ["value1", "value2", "value3"]

  /**
   One row of the loaded frame. `values[c]` is the row's value in
   `ScalarColumns[c]`; `asset` is meaningful only when the frame has an
   `Asset` column.
   */
  datatype Row = Row(time: int, iso: string, asset: string, values: seq<real>)

  /** The loaded frame: its rows and whether it has an `Asset` column at all. */
  datatype Dataset = Dataset(hasAssetColumn: bool, rows: seq<Row>)

  predicate WellFormedRow(r: Row) {
    |r.values| == |ScalarColumns|
  }

  predicate WellFormedRows(rows: seq<Row>) {
    forall r :: r in rows ==> WellFormedRow(r)
  }

  /** The timestamps occurring in `rows`. */
  ghost function TimesOf(rows: seq<Row>): set<int> {
    set i | 0 <= i < |rows| :: rows[i].time
  }

  /**
   `df[df["ISO"] == iso]`: the rows of one ISO, in their original order.
   */
  function FilterIso(rows: seq<Row>, iso: string): (out: seq<Row>)
    ensures |out| <= |rows|
    ensures forall r {:trigger r in out} :: r in out <==> r in rows && r.iso == iso
    ensures forall r {:trigger multiset(out)[r]} :: multiset(out)[r] == if r.iso == iso then multiset(rows)[r] else 0
    decreases |rows|
  {
    if |rows| == 0 then []
    else
      var init := FilterIso(rows[..|rows| - 1], iso);
      var last := rows[|rows| - 1];
      assert rows == rows[..|rows| - 1] + [last];
      if last.iso == iso then init + [last] else init
  }

  /**
   Inserts timestamp `t` into a sorted, duplicate-free axis, leaving it
   unchanged when `t` is already present.
   */
  function InsertTime(t: int, axis: seq<int>): (out: seq<int>)
    requires StrictlyIncreasing(axis)
    ensures StrictlyIncreasing(out)
    ensures forall x :: x in out <==> x in axis || x == t
    decreases |axis|
  {
    if |axis| == 0 then [t]
    else if t < axis[0] then [t] + axis
    else if t == axis[0] then axis
    else
      var rest := InsertTime(t, axis[1..]);
      assert forall k :: 0 <= k < |rest| ==> rest[k] in rest;
      [axis[0]] + rest
  }

  /**
   `df.sort_index().index.unique()`: the time axis, the distinct timestamps
   of `rows` in increasing order.
   */
  function TimeAxis(rows: seq<Row>): (axis: seq<int>)
    ensures StrictlyIncreasing(axis)
    ensures forall t :: t in axis <==> t in TimesOf(rows)
    ensures |axis| <= |rows|
    decreases |rows|
  {
    if |rows| == 0 then []
    else
      var init := rows[..|rows| - 1];
      var axis := InsertTime(rows[|rows| - 1].time, TimeAxis(init));
      assert forall t :: t in TimesOf(rows) <==> t in TimesOf(init) || t == rows[|rows| - 1].time by {
        forall t | t in TimesOf(rows) ensures t in TimesOf(init) || t == rows[|rows| - 1].time {
          var i :| 0 <= i < |rows| && rows[i].time == t;
          if i < |rows| - 1 {
            assert init[i].time == t;
          }
        }
        forall t | t in TimesOf(init) ensures t in TimesOf(rows) {
          var i :| 0 <= i < |init| && init[i].time == t;
          assert rows[i].time == t;
        }
      }
      DistinctBound(axis, TimeAxis(init), rows[|rows| - 1].time);
      axis
  }

  /** Adding one element to a duplicate-free axis adds at most one entry. */
  lemma DistinctBound(out: seq<int>, axis: seq<int>, t: int)
    requires StrictlyIncreasing(out) && StrictlyIncreasing(axis)
    requires forall x :: x in out <==> x in axis || x == t
    ensures |out| <= |axis| + 1
  {
    var so := set x | x in out;
    var sa := set x | x in axis;
    assert so <= sa + {t};
    DistinctCard(out);
    DistinctCard(axis);
    assert |sa + {t}| <= |sa| + 1;
    SubsetCard(so, sa + {t});
  }

  lemma SubsetCard(a: set<int>, b: set<int>)
    requires a <= b
    ensures |a| <= |b|
  {
    assert b == a + (b - a);
  }

  /**
   The time axis is the one strictly increasing enumeration of the table's
   timestamps, so it does not depend on the order of the rows.
   */
  lemma TimeAxisCanonical(rows: seq<Row>, s: seq<int>)
    requires StrictlyIncreasing(s)
    requires forall t :: t in s <==> t in TimesOf(rows)
    ensures TimeAxis(rows) == s
  {
    StrictlyIncreasingUnique(TimeAxis(rows), s);
  }

  /** Position of the first occurrence of `x` in `s`. */
  function FirstIndex(s: seq<string>, x: string): (k: nat)
    requires x in s
    ensures k < |s| && s[k] == x
    ensures forall j :: 0 <= j < k ==> s[j] != x
  {
    if s[0] == x then 0 else 1 + FirstIndex(s[1..], x)
  }

  /**
   `pd.Series.unique()`: the distinct values of `s` in order of first
   appearance.
   */
  function Unique(s: seq<string>): (u: seq<string>)
    ensures forall x :: x in u <==> x in s
    ensures forall i, j :: 0 <= i < j < |u| ==> u[i] != u[j]
    ensures forall i, j :: 0 <= i < j < |u| ==> FirstIndex(s, u[i]) < FirstIndex(s, u[j])
    decreases |s|
  {
    if |s| == 0 then []
    else
      var init := s[..|s| - 1];
      var last := s[|s| - 1];
      var u := Unique(init);
      assert s == init + [last];
      FirstIndexExtend(init, last);
      if last in u then u else u + [last]
  }

  /** Appending an element keeps earlier first occurrences and puts a new one last. */
  lemma FirstIndexExtend(init: seq<string>, last: string)
    ensures forall y :: y in init ==> FirstIndex(init + [last], y) == FirstIndex(init, y)
    ensures last !in init ==> FirstIndex(init + [last], last) == |init|
  {
    forall y | y in init
      ensures FirstIndex(init + [last], y) == FirstIndex(init, y)
    {
      assert (init + [last])[FirstIndex(init, y)] == y;
    }
    if last !in init {
      assert forall j :: 0 <= j < |init| ==> (init + [last])[j] != last;
    }
  }

  /** The ISO column of `rows`. */
  function IsoColumn(rows: seq<Row>): (isos: seq<string>)
    ensures |isos| == |rows|
    ensures forall i :: 0 <= i < |rows| ==> isos[i] == rows[i].iso
  {
    seq(|rows|, i requires 0 <= i < |rows| => rows[i].iso)
  }

  /**
   The ISO dropdown options of app.py:82: each ISO of the table once, in order
   of first appearance.
   */
  function IsoOptions(ds: Dataset): (opts: seq<string>)
    ensures forall iso :: iso in opts <==> iso in IsoColumn(ds.rows)
    ensures forall iso :: iso in opts <==> exists i :: 0 <= i < |ds.rows| && ds.rows[i].iso == iso
    ensures forall i, j :: 0 <= i < j < |opts| ==> opts[i] != opts[j]
    ensures forall i, j :: 0 <= i < j < |opts| ==>
              FirstIndex(IsoColumn(ds.rows), opts[i]) < FirstIndex(IsoColumn(ds.rows), opts[j])
  {
    var col := IsoColumn(ds.rows);
    assert forall iso :: iso in col <==> exists i :: 0 <= i < |ds.rows| && ds.rows[i].iso == iso by {
      forall iso | iso in col ensures exists i :: 0 <= i < |ds.rows| && ds.rows[i].iso == iso {
        var i :| 0 <= i < |col| && col[i] == iso;
        assert ds.rows[i].iso == iso;
      }
    }
    Unique(col)
  }
}
