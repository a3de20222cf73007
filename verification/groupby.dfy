/**
 `df_selected.groupby("Asset")[scalar_columns].mean().reset_index()`
 (app.py:132): one output row per distinct asset, keys in sorted order, each
 scalar column replaced by its mean over that asset's rows.

 The grouping is computed the way a hash-free group-by would: one pass over
 the rows, folding each into a key-sorted list of running (count, sums)
 tallies. Its contract ties the result to an independent reference: the sum
 of an asset's values divided by its number of rows.
 */
module GroupBy {
  import opened Order
  import opened Table

  /** Number of scalar columns. */
  const Width: nat := |ScalarColumns|

  /** Number of rows of asset `a`. */
  function AssetCount(rows: seq<Row>, a: string): nat
    decreases |rows|
  {
    if |rows| == 0 then 0
    else AssetCount(rows[..|rows| - 1], a) + (if rows[|rows| - 1].asset == a then 1 else 0)
  }

  /** Sum of scalar column `c` over the rows of asset `a`. */
  function AssetSum(rows: seq<Row>, a: string, c: nat): real
    requires WellFormedRows(rows) && c < Width
    decreases |rows|
  {
    if |rows| == 0 then 0.0
    else
      var last := rows[|rows| - 1];
      assert last in rows;
      AssetSum(rows[..|rows| - 1], a, c) + (if last.asset == a then last.values[c] else 0.0)
  }

  /** The asset identifiers occurring in `rows`. */
  ghost function AssetsOf(rows: seq<Row>): set<string> {
    set i | 0 <= i < |rows| :: rows[i].asset
  }

  /** A running tally for one asset: rows seen so far and their column sums. */
  datatype Group = Group(asset: string, count: nat, sums: seq<real>)

  /** One row of the grouped result: an asset and its per-column means. */
  datatype GroupRow = GroupRow(asset: string, means: seq<real>)

  /** Tallies are key-sorted (hence duplicate-free), full-width and non-empty. */
  predicate WellFormedGroups(gs: seq<Group>) {
    && (forall i, j :: 0 <= i < j < |gs| ==> StrLess(gs[i].asset, gs[j].asset))
    && (forall i :: 0 <= i < |gs| ==> |gs[i].sums| == Width && gs[i].count >= 1)
  }

  /** The keys of a tally list, in order. */
  function Keys(gs: seq<Group>): (ks: seq<string>)
    ensures |ks| == |gs|
    ensures forall i :: 0 <= i < |gs| ==> ks[i] == gs[i].asset
  {
    if |gs| == 0 then [] else [gs[0].asset] + Keys(gs[1..])
  }

  /** The count tallied for `a`, or 0 when `a` has no tally. */
  function CountOf(gs: seq<Group>, a: string): nat {
    if |gs| == 0 then 0
    else if gs[0].asset == a then gs[0].count
    else CountOf(gs[1..], a)
  }

  /** The column-`c` sum tallied for `a`, or 0 when `a` has no tally. */
  function SumOf(gs: seq<Group>, a: string, c: nat): real
    requires WellFormedGroups(gs) && c < Width
  {
    if |gs| == 0 then 0.0
    else if gs[0].asset == a then gs[0].sums[c]
    else SumOf(gs[1..], a, c)
  }

  /** Element-wise sum of two rows of column values. */
  function AddValues(u: seq<real>, v: seq<real>): (w: seq<real>)
    requires |u| == |v|
    ensures |w| == |u|
    ensures forall k :: 0 <= k < |w| ==> w[k] == u[k] + v[k]
  {
    seq(|u|, k requires 0 <= k < |u| => u[k] + v[k])
  }

  /** A key below the first key of a sorted tally list has no tally. */
  lemma BelowFirstKeyAbsent(gs: seq<Group>, a: string)
    requires WellFormedGroups(gs) && |gs| > 0 && StrLess(a, gs[0].asset)
    ensures a !in Keys(gs)
    ensures CountOf(gs, a) == 0
    ensures forall c :: 0 <= c < Width ==> SumOf(gs, a, c) == 0.0
  {
    forall i | 0 <= i < |gs|
      ensures gs[i].asset != a
    {
      if i > 0 {
        StrLessTransitive(a, gs[0].asset, gs[i].asset);
      }
      StrLessIrreflexive(a);
    }
    AbsentKeyTalliesZero(gs, a);
  }

  /** A key with no tally counts and sums to zero. */
  lemma {:induction false} AbsentKeyTalliesZero(gs: seq<Group>, a: string)
    requires WellFormedGroups(gs) && a !in Keys(gs)
    ensures CountOf(gs, a) == 0
    ensures forall c :: 0 <= c < Width ==> SumOf(gs, a, c) == 0.0
    decreases |gs|
  {
    if |gs| > 0 {
      assert Keys(gs)[0] == gs[0].asset;
      assert forall k :: k in Keys(gs[1..]) ==> k in Keys(gs) by {
        forall k | k in Keys(gs[1..]) ensures k in Keys(gs) {
          var i :| 0 <= i < |gs[1..]| && Keys(gs[1..])[i] == k;
          assert Keys(gs)[i + 1] == k;
        }
      }
      AbsentKeyTalliesZero(gs[1..], a);
    }
  }

  /** How lookups see a tally list with `g` in front of `rest`. */
  lemma ConsLookup(g: Group, rest: seq<Group>)
    requires WellFormedGroups([g] + rest)
    ensures WellFormedGroups(rest)
    ensures forall a :: a in Keys([g] + rest) <==> a == g.asset || a in Keys(rest)
    ensures forall a :: CountOf([g] + rest, a) == if a == g.asset then g.count else CountOf(rest, a)
    ensures forall a, c :: 0 <= c < Width ==>
              SumOf([g] + rest, a, c) == if a == g.asset then g.sums[c] else SumOf(rest, a, c)
  {
    var gs := [g] + rest;
    assert gs[1..] == rest;
    assert WellFormedGroups(rest) by {
      forall i, j | 0 <= i < j < |rest| ensures StrLess(rest[i].asset, rest[j].asset) {
        assert gs[i + 1] == rest[i] && gs[j + 1] == rest[j];
      }
      forall i | 0 <= i < |rest| ensures |rest[i].sums| == Width && rest[i].count >= 1 {
        assert gs[i + 1] == rest[i];
      }
    }
    assert Keys(gs) == [g.asset] + Keys(rest);
  }

  /** The row's asset already heads the list: bump that tally. */
  lemma AddRowAtHead(gs: seq<Group>, r: Row)
    requires WellFormedGroups(gs) && WellFormedRow(r) && |gs| > 0 && gs[0].asset == r.asset
    ensures var out := [Group(r.asset, gs[0].count + 1, AddValues(gs[0].sums, r.values))] + gs[1..];
            && WellFormedGroups(out)
            && (forall a :: a in Keys(out) <==> a in Keys(gs) || a == r.asset)
            && (forall a :: CountOf(out, a) == CountOf(gs, a) + (if a == r.asset then 1 else 0))
            && (forall a, c :: 0 <= c < Width ==>
                  SumOf(out, a, c) == SumOf(gs, a, c) + (if a == r.asset then r.values[c] else 0.0))
  {
    var g := Group(r.asset, gs[0].count + 1, AddValues(gs[0].sums, r.values));
    var out := [g] + gs[1..];
    assert gs == [gs[0]] + gs[1..];
    assert WellFormedGroups(out) by {
      forall i, j | 0 <= i < j < |out| ensures StrLess(out[i].asset, out[j].asset) {
        assert out[i].asset == gs[i].asset && out[j].asset == gs[j].asset;
      }
    }
    ConsLookup(gs[0], gs[1..]);
    ConsLookup(g, gs[1..]);
  }

  /** The row's asset sorts before every key: a fresh tally goes in front. */
  lemma AddRowInFront(gs: seq<Group>, r: Row)
    requires WellFormedGroups(gs) && WellFormedRow(r) && |gs| > 0 && StrLess(r.asset, gs[0].asset)
    ensures var out := [Group(r.asset, 1, r.values)] + gs;
            && WellFormedGroups(out)
            && (forall a :: a in Keys(out) <==> a in Keys(gs) || a == r.asset)
            && (forall a :: CountOf(out, a) == CountOf(gs, a) + (if a == r.asset then 1 else 0))
            && (forall a, c :: 0 <= c < Width ==>
                  SumOf(out, a, c) == SumOf(gs, a, c) + (if a == r.asset then r.values[c] else 0.0))
  {
    var g := Group(r.asset, 1, r.values);
    var out := [g] + gs;
    BelowFirstKeyAbsent(gs, r.asset);
    assert WellFormedGroups(out) by {
      forall i, j | 0 <= i < j < |out| ensures StrLess(out[i].asset, out[j].asset) {
        if i == 0 && j > 1 {
          StrLessTransitive(r.asset, gs[0].asset, gs[j - 1].asset);
        }
      }
    }
    ConsLookup(g, gs);
  }

  /** The row's asset sorts after the head: keep the head, fold into the rest. */
  lemma AddRowBehind(gs: seq<Group>, r: Row, rest: seq<Group>)
    requires WellFormedGroups(gs) && WellFormedRow(r) && |gs| > 0
    requires StrLess(gs[0].asset, r.asset)
    requires WellFormedGroups(rest)
    requires forall a :: a in Keys(rest) <==> a in Keys(gs[1..]) || a == r.asset
    requires forall a :: CountOf(rest, a) == CountOf(gs[1..], a) + (if a == r.asset then 1 else 0)
    requires forall a, c :: 0 <= c < Width ==>
               SumOf(rest, a, c) == SumOf(gs[1..], a, c) + (if a == r.asset then r.values[c] else 0.0)
    ensures var out := [gs[0]] + rest;
            && WellFormedGroups(out)
            && (forall a :: a in Keys(out) <==> a in Keys(gs) || a == r.asset)
            && (forall a :: CountOf(out, a) == CountOf(gs, a) + (if a == r.asset then 1 else 0))
            && (forall a, c :: 0 <= c < Width ==>
                  SumOf(out, a, c) == SumOf(gs, a, c) + (if a == r.asset then r.values[c] else 0.0))
  {
    var out := [gs[0]] + rest;
    assert gs == [gs[0]] + gs[1..];
    ConsLookup(gs[0], gs[1..]);
    assert WellFormedGroups(out) by {
      forall j | 0 <= j < |rest| ensures StrLess(gs[0].asset, rest[j].asset) {
        assert rest[j].asset in Keys(rest) by { assert Keys(rest)[j] == rest[j].asset; }
        if rest[j].asset != r.asset {
          var i :| 0 <= i < |gs[1..]| && Keys(gs[1..])[i] == rest[j].asset;
          assert gs[i + 1].asset == rest[j].asset;
        }
      }
      forall i, j | 0 <= i < j < |out| ensures StrLess(out[i].asset, out[j].asset) {
        if i > 0 {
          assert out[i] == rest[i - 1] && out[j] == rest[j - 1];
        }
      }
    }
    StrLessIrreflexive(r.asset);
    ConsLookup(gs[0], rest);
  }

  /**
   Folds one row into a key-sorted tally list: the row's asset gains one
   count and the row's values; every other asset's tally is untouched.
   */
  function AddRow(gs: seq<Group>, r: Row): (out: seq<Group>)
    requires WellFormedGroups(gs) && WellFormedRow(r)
    ensures WellFormedGroups(out)
    ensures forall a :: a in Keys(out) <==> a in Keys(gs) || a == r.asset
    ensures forall a :: CountOf(out, a) == CountOf(gs, a) + (if a == r.asset then 1 else 0)
    ensures forall a, c :: 0 <= c < Width ==>
              SumOf(out, a, c) == SumOf(gs, a, c) + (if a == r.asset then r.values[c] else 0.0)
    decreases |gs|
  {
    if |gs| == 0 then
      [Group(r.asset, 1, r.values)]
    else if gs[0].asset == r.asset then
      AddRowAtHead(gs, r);
      [Group(r.asset, gs[0].count + 1, AddValues(gs[0].sums, r.values))] + gs[1..]
    else if StrLess(r.asset, gs[0].asset) then
      AddRowInFront(gs, r);
      [Group(r.asset, 1, r.values)] + gs
    else
      StrLessTotal(r.asset, gs[0].asset);
      ConsLookup(gs[0], gs[1..]);
      var rest := AddRow(gs[1..], r);
      AddRowBehind(gs, r, rest);
      [gs[0]] + rest
  }

  /**
   The one-pass tally of `rows`: a key-sorted list holding exactly the assets
   of `rows`, each with that asset's row count and column sums.
   */
  function Accumulate(rows: seq<Row>): (gs: seq<Group>)
    requires WellFormedRows(rows)
    ensures WellFormedGroups(gs)
    ensures forall a :: a in Keys(gs) <==> a in AssetsOf(rows)
    ensures forall a :: CountOf(gs, a) == AssetCount(rows, a)
    ensures forall a, c :: 0 <= c < Width ==> SumOf(gs, a, c) == AssetSum(rows, a, c)
    decreases |rows|
  {
    if |rows| == 0 then []
    else
      var init := rows[..|rows| - 1];
      var last := rows[|rows| - 1];
      assert forall a :: a in AssetsOf(rows) <==> a in AssetsOf(init) || a == last.asset by {
        forall a | a in AssetsOf(rows) ensures a in AssetsOf(init) || a == last.asset {
          var i :| 0 <= i < |rows| && rows[i].asset == a;
          if i < |rows| - 1 {
            assert init[i].asset == a;
          }
        }
        forall a | a in AssetsOf(init) ensures a in AssetsOf(rows) {
          var i :| 0 <= i < |init| && init[i].asset == a;
          assert rows[i].asset == a;
        }
      }
      AddRow(Accumulate(init), last)
  }

  /** In a sorted tally list, looking up a stored key finds that very tally. */
  lemma {:induction false} LookupAt(gs: seq<Group>, i: nat)
    requires WellFormedGroups(gs) && i < |gs|
    ensures CountOf(gs, gs[i].asset) == gs[i].count
    ensures forall c :: 0 <= c < Width ==> SumOf(gs, gs[i].asset, c) == gs[i].sums[c]
    decreases i
  {
    if i > 0 {
      assert gs[0].asset != gs[i].asset by {
        StrLessIrreflexive(gs[0].asset);
      }
      LookupAt(gs[1..], i - 1);
    }
  }

  /** The per-column means of a tally. */
  function Means(g: Group): (m: seq<real>)
    requires |g.sums| == Width && g.count >= 1
    ensures |m| == Width
    ensures forall c :: 0 <= c < Width ==> m[c] == g.sums[c] / g.count as real
  {
    seq(Width, c requires 0 <= c < Width => g.sums[c] / g.count as real)
  }

  /** One output row per tally. */
  function MeanRows(gs: seq<Group>): (t: seq<GroupRow>)
    requires WellFormedGroups(gs)
    ensures |t| == |gs|
    ensures forall i :: 0 <= i < |gs| ==> t[i] == GroupRow(gs[i].asset, Means(gs[i]))
  {
    seq(|gs|, i requires 0 <= i < |gs| => GroupRow(gs[i].asset, Means(gs[i])))
  }

  /** The rows of the mean table carry the tallies' keys, hence the rows' assets. */
  lemma MeanRowsKeys(rows: seq<Row>)
    requires WellFormedRows(rows)
    ensures var t := MeanRows(Accumulate(rows));
            && (forall i, j :: 0 <= i < j < |t| ==> StrLess(t[i].asset, t[j].asset))
            && (forall a :: a in AssetsOf(rows) <==> exists i :: 0 <= i < |t| && t[i].asset == a)
  {
    var gs := Accumulate(rows);
    var t := MeanRows(gs);
    forall a | a in AssetsOf(rows)
      ensures exists i :: 0 <= i < |t| && t[i].asset == a
    {
      var i :| 0 <= i < |gs| && Keys(gs)[i] == a;
      assert t[i].asset == a;
    }
    forall i | 0 <= i < |t|
      ensures t[i].asset in AssetsOf(rows)
    {
      assert Keys(gs)[i] == t[i].asset;
    }
  }

  /**
   The grouped mean table: exactly one row per distinct asset of `rows`, in
   sorted asset order, each cell the sum of that asset's values in the column
   divided by that asset's row count.
   */
  function GroupMean(rows: seq<Row>): (t: seq<GroupRow>)
    requires WellFormedRows(rows)
    ensures forall i, j :: 0 <= i < j < |t| ==> StrLess(t[i].asset, t[j].asset)
    ensures forall a :: a in AssetsOf(rows) <==> exists i :: 0 <= i < |t| && t[i].asset == a
    ensures forall i :: 0 <= i < |t| ==> AssetCount(rows, t[i].asset) >= 1 && |t[i].means| == Width
    ensures forall i, c :: 0 <= i < |t| && 0 <= c < Width ==>
              t[i].means[c] == AssetSum(rows, t[i].asset, c) / AssetCount(rows, t[i].asset) as real
  {
    var gs := Accumulate(rows);
    MeanRowsKeys(rows);
    forall i | 0 <= i < |gs|
      ensures gs[i].count == AssetCount(rows, gs[i].asset)
      ensures forall c :: 0 <= c < Width ==> gs[i].sums[c] == AssetSum(rows, gs[i].asset, c)
    {
      LookupAt(gs, i);
    }
    MeanRows(gs)
  }

  /** The asset keys of a grouped table, in order. */
  function RowKeys(t: seq<GroupRow>): (ks: seq<string>)
    ensures |ks| == |t|
    ensures forall i :: 0 <= i < |t| ==> ks[i] == t[i].asset
  {
    seq(|t|, i requires 0 <= i < |t| => t[i].asset)
  }

  /** The grouped table has as many rows as there are distinct assets. */
  lemma GroupMeanCardinality(rows: seq<Row>)
    requires WellFormedRows(rows)
    ensures |GroupMean(rows)| == |AssetsOf(rows)|
  {
    var t := GroupMean(rows);
    var ks := RowKeys(t);
    forall i, j | 0 <= i < j < |ks| ensures ks[i] != ks[j] {
      StrLessIrreflexive(ks[i]);
    }
    DistinctCard(ks);
    assert (set x | x in ks) == AssetsOf(rows) by {
      forall a | a in AssetsOf(rows) ensures a in ks {
        var i :| 0 <= i < |t| && t[i].asset == a;
        assert ks[i] == a;
      }
    }
  }

  /** Counts over a concatenation add up. */
  lemma {:induction false} CountConcat(u: seq<Row>, v: seq<Row>, a: string)
    ensures AssetCount(u + v, a) == AssetCount(u, a) + AssetCount(v, a)
    decreases |v|
  {
    if |v| == 0 {
      assert u + v == u;
    } else {
      var v' := v[..|v| - 1];
      assert (u + v)[..|u + v| - 1] == u + v';
      CountConcat(u, v', a);
    }
  }

  /** Column sums over a concatenation add up. */
  lemma {:induction false} SumConcat(u: seq<Row>, v: seq<Row>, a: string, c: nat)
    requires WellFormedRows(u) && WellFormedRows(v) && c < Width
    ensures WellFormedRows(u + v)
    ensures AssetSum(u + v, a, c) == AssetSum(u, a, c) + AssetSum(v, a, c)
    decreases |v|
  {
    if |v| == 0 {
      assert u + v == u;
    } else {
      var v' := v[..|v| - 1];
      assert (u + v)[..|u + v| - 1] == u + v';
      SumConcat(u, v', a, c);
    }
  }

  /** Taking out position `j` splits a sequence around it and removes one copy. */
  lemma RemoveAt(t: seq<Row>, j: nat)
    requires j < |t|
    ensures t == (t[..j] + [t[j]]) + t[j + 1..]
    ensures multiset(t[..j] + t[j + 1..]) == multiset(t) - multiset{t[j]}
  {
    assert t == t[..j] + [t[j]] + t[j + 1..];
  }

  /** An asset's row count depends only on the multiset of rows. */
  lemma {:induction false} CountPermutation(s: seq<Row>, t: seq<Row>, a: string)
    requires multiset(s) == multiset(t)
    ensures AssetCount(s, a) == AssetCount(t, a)
    decreases |s|
  {
    if |s| == 0 {
      assert |t| == |multiset(t)|;
    } else {
      var x := s[|s| - 1];
      var s' := s[..|s| - 1];
      assert s == s' + [x];
      assert x in multiset(t);
      var j :| 0 <= j < |t| && t[j] == x;
      RemoveAt(t, j);
      CountPermutation(s', t[..j] + t[j + 1..], a);
      CountConcat(t[..j], [x], a);
      CountConcat(t[..j] + [x], t[j + 1..], a);
      CountConcat(t[..j], t[j + 1..], a);
      assert [x][..0] == [];
    }
  }

  /** Slices and splices of well-formed rows are well formed. */
  lemma WellFormedPieces(t: seq<Row>, j: nat)
    requires WellFormedRows(t) && j < |t|
    ensures WellFormedRows(t[..j]) && WellFormedRows(t[j + 1..]) && WellFormedRows([t[j]])
    ensures WellFormedRows(t[..j] + t[j + 1..])
  {
    assert forall r :: r in t[..j] + t[j + 1..] ==> r in t;
  }

  /** Taking row `j` out of `t` takes its contribution out of every column sum. */
  lemma SumRemoveAt(t: seq<Row>, j: nat, a: string, c: nat)
    requires WellFormedRows(t) && j < |t| && c < Width
    ensures WellFormedRows(t[..j] + t[j + 1..]) && WellFormedRows([t[j]])
    ensures AssetSum(t, a, c) == AssetSum(t[..j] + t[j + 1..], a, c) + AssetSum([t[j]], a, c)
  {
    WellFormedPieces(t, j);
    RemoveAt(t, j);
    SumConcat(t[..j], [t[j]], a, c);
    SumConcat(t[..j] + [t[j]], t[j + 1..], a, c);
    SumConcat(t[..j], t[j + 1..], a, c);
  }

  /** An asset's column sum depends only on the multiset of rows. */
  lemma {:induction false} SumPermutation(s: seq<Row>, t: seq<Row>, a: string, c: nat)
    requires WellFormedRows(s) && WellFormedRows(t) && c < Width
    requires multiset(s) == multiset(t)
    ensures AssetSum(s, a, c) == AssetSum(t, a, c)
    decreases |s|
  {
    if |s| == 0 {
      assert |t| == |multiset(t)|;
    } else {
      var x := s[|s| - 1];
      var s' := s[..|s| - 1];
      assert s == s' + [x];
      assert multiset(s') == multiset(s) - multiset{x};
      assert x in multiset(t);
      var j :| 0 <= j < |t| && t[j] == x;
      RemoveAt(t, j);
      SumRemoveAt(t, j, a, c);
      assert WellFormedRows(s') by {
        assert forall r :: r in s' ==> r in s;
      }
      SumPermutation(s', t[..j] + t[j + 1..], a, c);
      assert AssetSum([x], a, c) == AssetSum(s, a, c) - AssetSum(s', a, c) by {
        assert [x][..0] == [];
      }
    }
  }

  /** Rows with the same multiset have the same assets. */
  lemma AssetsOfPermutation(s: seq<Row>, t: seq<Row>)
    requires multiset(s) == multiset(t)
    ensures AssetsOf(s) == AssetsOf(t)
  {
    forall a | a in AssetsOf(s) ensures a in AssetsOf(t) {
      var i :| 0 <= i < |s| && s[i].asset == a;
      assert s[i] in multiset(t);
    }
    forall a | a in AssetsOf(t) ensures a in AssetsOf(s) {
      var i :| 0 <= i < |t| && t[i].asset == a;
      assert t[i] in multiset(s);
    }
  }

  /** The key column of the grouped table is fixed by the set of assets. */
  lemma GroupMeanKeysDetermined(s: seq<Row>, t: seq<Row>)
    requires WellFormedRows(s) && WellFormedRows(t)
    requires AssetsOf(s) == AssetsOf(t)
    ensures RowKeys(GroupMean(s)) == RowKeys(GroupMean(t))
  {
    var gs, gt := GroupMean(s), GroupMean(t);
    var ks, kt := RowKeys(gs), RowKeys(gt);
    forall a ensures a in ks <==> a in AssetsOf(s) {
      if a in ks {
        var i :| 0 <= i < |ks| && ks[i] == a;
        assert gs[i].asset == a;
      }
      if a in AssetsOf(s) {
        var k :| 0 <= k < |gs| && gs[k].asset == a;
        assert ks[k] == a;
      }
    }
    forall a ensures a in kt <==> a in AssetsOf(t) {
      if a in kt {
        var i :| 0 <= i < |kt| && kt[i] == a;
        assert gt[i].asset == a;
      }
      if a in AssetsOf(t) {
        var k :| 0 <= k < |gt| && gt[k].asset == a;
        assert kt[k] == a;
      }
    }
    StrStrictlySortedUnique(ks, kt);
  }

  /**
   The grouped table depends only on the multiset of input rows; in
   particular sorting the frame by time first (app.py:118) does not change it.
   */
  lemma GroupMeanPermutationInvariant(s: seq<Row>, t: seq<Row>)
    requires WellFormedRows(s) && WellFormedRows(t)
    requires multiset(s) == multiset(t)
    ensures GroupMean(s) == GroupMean(t)
  {
    var gs, gt := GroupMean(s), GroupMean(t);
    AssetsOfPermutation(s, t);
    GroupMeanKeysDetermined(s, t);
    assert |gs| == |RowKeys(gs)| == |RowKeys(gt)| == |gt|;
    forall i | 0 <= i < |gs| ensures gs[i] == gt[i] {
      assert RowKeys(gs)[i] == RowKeys(gt)[i];
      var a := gs[i].asset;
      CountPermutation(s, t, a);
      forall c | 0 <= c < Width ensures gs[i].means[c] == gt[i].means[c] {
        SumPermutation(s, t, a, c);
      }
    }
  }
}
