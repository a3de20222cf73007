/**
 Control initialisation, `init_controls` (app.py:79-100): the ISO dropdown
 options and the range slider's bounds, initial value and tick marks, all
 derived from the whole table's time axis.
 */
module Controls {
  import opened Table

  /**
   A tick-mark label: the timestamp at that slider index (rendered with
   `strftime`), or a fixed text used by the fallback controls.
   */
  datatype MarkLabel = Stamp(time: int) | Text(text: string)

  /** The values `init_controls` returns for the dropdown and the slider. */
  datatype SliderInit = SliderInit(
    isoOptions: seq<string>,
    min: int,
    max: int,
    value: (int, int),
    marks: map<int, MarkLabel>)

  /** `{0: "0", 1: "1"}`, the marks used when there are fewer than 2 time points. */
  const DefaultMarks: map<int, MarkLabel> := map[0 := Text("0"), 1 := Text("1")]

  /** `max(1, n // 6)`: the index distance between tick marks. */
  function MarkStep(n: nat): (step: nat)
    ensures step >= 1
    ensures n >= 6 ==> step == n / 6
    ensures n < 12 ==> step == 1
  {
    if n / 6 > 1 then n / 6 else 1
  }

  /** Stepping one full stride keeps the residue modulo the stride. */
  lemma ModStride(x: int, step: nat)
    requires step >= 1 && x >= 0
    ensures (x + step) % step == x % step
    ensures 0 < x < step ==> x % step != 0
  {
    var q, r := x / step, x % step;
    DivModUnique(x + step, step, q + 1, r);
    if x < step {
      DivModUnique(x, step, 0, x);
    }
  }

  /** Euclidean division is unique: a quotient and remainder in range are THE ones. */
  lemma DivModUnique(a: int, s: int, q: int, r: int)
    requires s >= 1 && a == q * s + r && 0 <= r < s
    ensures a / s == q && a % s == r
  {
    var q', r' := a / s, a % s;
    var d := q - q';
    assert d * s == r' - r;
    if d >= 1 {
      MulAtLeast(d, s);
    } else if d <= -1 {
      MulAtLeast(-d, s);
    }
  }

  lemma MulAtLeast(d: int, s: int)
    requires d >= 1 && s >= 1
    ensures d * s >= s
  {
  }

  /**
   `{i: label(axis[i]) for i in range(start, len(axis), step)}`: a mark at
   every `step`-th index from `start` on, each labelled with its timestamp.
   */
  function MarksFrom(axis: seq<int>, step: nat, start: nat): (m: map<int, MarkLabel>)
    requires step >= 1
    ensures forall k :: k in m <==> start <= k < |axis| && (k - start) % step == 0
    ensures forall k :: k in m ==> m[k] == Stamp(axis[k])
    decreases |axis| - start
  {
    if start >= |axis| then map[]
    else
      var rest := MarksFrom(axis, step, start + step);
      forall k | start < k < |axis|
        ensures (k - start) % step == 0 <==> k in rest
      {
        if k < start + step {
          ModStride(k - start, step);
        } else {
          ModStride(k - start - step, step);
        }
      }
      rest[start := Stamp(axis[start])]
  }

  /**
   `init_controls`: the ISO options, and a slider spanning the whole table's
   time axis, initially fully selected, with marks every `max(1, n // 6)`
   indices; with fewer than 2 time points, the fixed fallback slider.
   */
  function InitControls(ds: Dataset): (s: SliderInit)
    ensures s.isoOptions == IsoOptions(ds)
    ensures var n := |TimeAxis(ds.rows)|;
            n < 2 ==> s.min == 0 && s.max == 1 && s.value == (0, 1) && s.marks == DefaultMarks
    ensures var axis := TimeAxis(ds.rows);
            var n := |axis|;
            n >= 2 ==>
              && s.min == 0 && s.max == n - 1 && s.value == (0, n - 1)
              && (forall k :: k in s.marks <==> 0 <= k < n && k % MarkStep(n) == 0)
              && (forall k :: k in s.marks ==> s.marks[k] == Stamp(axis[k]))
  {
    var options := IsoOptions(ds);
    var axis := TimeAxis(ds.rows);
    if |axis| < 2 then
      SliderInit(options, 0, 1, (0, 1), DefaultMarks)
    else
      var n := |axis|;
      SliderInit(options, 0, n - 1, (0, n - 1), MarksFrom(axis, MarkStep(n), 0))
  }

  /**
   Every mark is a valid slider index, index 0 is always marked, and the last
   mark lies within one step of the end of the axis.
   */
  lemma MarksCoverAxis(ds: Dataset)
    requires |TimeAxis(ds.rows)| >= 2
    ensures var s := InitControls(ds);
            var n := |TimeAxis(ds.rows)|;
            && 0 in s.marks
            && (forall k :: k in s.marks ==> s.min <= k <= s.max)
            && (exists k :: k in s.marks && k > n - 1 - MarkStep(n))
  {
    var s := InitControls(ds);
    var n := |TimeAxis(ds.rows)|;
    var step := MarkStep(n);
    var last := (n - 1) / step * step;
    assert last % step == 0 && n - 1 - step < last <= n - 1 by {
      LastStride(n - 1, step);
    }
    assert last in s.marks;
  }

  /** The largest multiple of `step` not above `x` is within one step of `x`. */
  lemma LastStride(x: nat, step: nat)
    requires step >= 1
    ensures var last := x / step * step;
            last % step == 0 && x - step < last <= x
  {
    var q := x / step;
    assert q * step + x % step == x;
    DivModUnique(q * step, step, q, 0);
  }
}
