/**
 * The stack / reproject / unstack skeleton of `reproject_cube`
 * (geospatial_utils.py) and `_reproject_cube_match` (processes.py): the
 * non-spatial dimensions are flattened into one multi-indexed dimension, the
 * spatial plane is warped, the saved index is put back, the dimension is
 * unstacked and the result is transposed into the input's order.
 */
module Reprojection {
  import opened Wrappers
  import opened Labels
  import opened Cubes

  // ---------------------------------------------------------------------------
  // The Cartesian product behind a stacked multi-index

  /** `[h] + t` for every tail `t`, in order. */
  function Prepend(h: Label, tails: seq<seq<Label>>): (r: seq<seq<Label>>)
    ensures |r| == |tails|
    ensures forall i :: 0 <= i < |r| ==> r[i] == [h] + tails[i]
  {
    seq(|tails|, i requires 0 <= i < |tails| => [h] + tails[i])
  }

  /** Each head followed by each tail, heads varying slowest. */
  function Prefixed(heads: seq<Label>, tails: seq<seq<Label>>): (r: seq<seq<Label>>)
    ensures heads != [] ==> |r| >= |tails|
    ensures forall i :: 0 <= i < |r| ==> |r[i]| >= 1 && r[i][0] in heads && r[i][1..] in tails
    decreases |heads|
  {
    if heads == [] then []
    else
      var init := Prefixed(heads[..|heads| - 1], tails);
      assert forall i :: 0 <= i < |init| ==> init[i][0] in heads[..|heads| - 1];
      init + Prepend(heads[|heads| - 1], tails)
  }

  /**
   * The tuples of the multi-index that `stack` builds from the labels of the
   * stacked dimensions, in row-major order: the first dimension varies slowest.
   */
  function Product(levels: seq<seq<Label>>): (r: seq<seq<Label>>)
    ensures forall i :: 0 <= i < |r| ==> |r[i]| == |levels|
    ensures (forall k :: 0 <= k < |levels| ==> levels[k] != []) ==> r != []
    decreases |levels|
  {
    if levels == [] then [[]]
    else
      var rest := Product(levels[1..]);
      assert (forall k :: 0 <= k < |levels| ==> levels[k] != []) ==> levels[0] != [] && rest != [] by {
        if forall k :: 0 <= k < |levels| ==> levels[k] != [] {
          assert forall k :: 0 <= k < |levels| - 1 ==> levels[1..][k] == levels[k + 1];
        }
      }
      var r := Prefixed(levels[0], rest);
      assert forall i :: 0 <= i < |r| ==> |r[i]| == 1 + |r[i][1..]|;
      r
  }

  /** The `k`-th component of every tuple: the labels one level takes along the stacked dimension. */
  function Column(tuples: seq<seq<Label>>, k: nat): (r: seq<Label>)
    requires forall i :: 0 <= i < |tuples| ==> k < |tuples[i]|
    ensures |r| == |tuples|
    ensures forall i :: 0 <= i < |tuples| ==> r[i] == tuples[i][k]
  {
    seq(|tuples|, i requires 0 <= i < |tuples| && k < |tuples[i]| => tuples[i][k])
  }

  /** Appending a non-empty run of one new label adds that label once. */
  lemma DistinctAppendNew(xs: seq<Label>, h: Label, hs: seq<Label>)
    requires h !in Distinct(xs) && hs != []
    requires forall i :: 0 <= i < |hs| ==> hs[i] == h
    ensures Distinct(xs + hs) == Distinct(xs) + [h]
  {
    var ys := xs + [h];
    assert ys[..|ys| - 1] == xs;
    assert xs + hs == ys + hs[1..];
    DistinctAppendSeen(ys, hs[1..]);
  }

  lemma PrefixedSnoc(heads: seq<Label>, tails: seq<seq<Label>>)
    requires heads != []
    ensures Prefixed(heads, tails) == Prefixed(heads[..|heads| - 1], tails) + Prepend(heads[|heads| - 1], tails)
  {
  }

  lemma ColumnConcat(a: seq<seq<Label>>, b: seq<seq<Label>>, k: nat)
    requires forall i :: 0 <= i < |a| ==> k < |a[i]|
    requires forall i :: 0 <= i < |b| ==> k < |b[i]|
    ensures Column(a + b, k) == Column(a, k) + Column(b, k)
  {
  }

  lemma ColumnPrependHead(h: Label, tails: seq<seq<Label>>)
    ensures forall i :: 0 <= i < |tails| ==> Column(Prepend(h, tails), 0)[i] == h
  {
  }

  lemma ColumnPrepend(h: Label, tails: seq<seq<Label>>, k: nat)
    requires forall i :: 0 <= i < |tails| ==> k < |tails[i]|
    ensures Column(Prepend(h, tails), k + 1) == Column(tails, k)
  {
  }

  /** The leading level of the product takes its labels in their own order. */
  lemma {:induction false} DistinctFirstColumn(heads: seq<Label>, tails: seq<seq<Label>>)
    requires NoDuplicates(heads) && tails != []
    ensures Distinct(Column(Prefixed(heads, tails), 0)) == heads
    decreases |heads|
  {
    if heads != [] {
      var init := heads[..|heads| - 1];
      var h := heads[|heads| - 1];
      var a := Prefixed(init, tails);
      var b := Prepend(h, tails);
      PrefixedSnoc(heads, tails);
      ColumnConcat(a, b, 0);
      DistinctFirstColumn(init, tails);
      var ca, cb := Column(a, 0), Column(b, 0);
      ColumnPrependHead(h, tails);
      assert Distinct(ca) == init;
      assert h !in init by {
        forall i | 0 <= i < |init| ensures init[i] != h {
          assert init[i] == heads[i];
        }
      }
      assert cb != [];
      DistinctAppendNew(ca, h, cb);
      assert Distinct(ca + cb) == init + [h];
      assert init + [h] == heads;
    }
  }

  /** Every tuple of the product is one label longer than its tail. */
  lemma PrefixedWide(heads: seq<Label>, tails: seq<seq<Label>>, k: nat)
    requires forall i :: 0 <= i < |tails| ==> k < |tails[i]|
    ensures forall i :: 0 <= i < |Prefixed(heads, tails)| ==> k + 1 < |Prefixed(heads, tails)[i]|
  {
    var r := Prefixed(heads, tails);
    forall i | 0 <= i < |r| ensures k + 1 < |r[i]| {
      assert r[i][1..] in tails;
    }
  }

  lemma {:induction false} ColumnAfterFirst(heads: seq<Label>, tails: seq<seq<Label>>, k: nat)
    requires heads != [] && forall i :: 0 <= i < |tails| ==> k < |tails[i]|
    ensures forall i :: 0 <= i < |Prefixed(heads, tails)| ==> k + 1 < |Prefixed(heads, tails)[i]|
    ensures Distinct(Column(Prefixed(heads, tails), k + 1)) == Distinct(Column(tails, k))
    decreases |heads|
  {
    PrefixedWide(heads, tails, k);
    var init := heads[..|heads| - 1];
    var h := heads[|heads| - 1];
    var a := Prefixed(init, tails);
    var b := Prepend(h, tails);
    PrefixedSnoc(heads, tails);
    ColumnPrepend(h, tails, k);
    if init == [] {
      assert a + b == b;
    } else {
      ColumnAfterFirst(init, tails, k);
      ColumnConcat(a, b, k + 1);
      var ih := init[|init| - 1];
      var a0 := Prefixed(init[..|init| - 1], tails);
      PrefixedWide(init[..|init| - 1], tails, k);
      PrefixedSnoc(init, tails);
      ColumnPrepend(ih, tails, k);
      ColumnConcat(a0, Prepend(ih, tails), k + 1);
      var ca := Column(a, k + 1);
      assert ca == Column(a0, k + 1) + Column(tails, k);
      DistinctAppendSeen(ca, Column(tails, k));
    }
  }

  /**
   * Unstacking recovers every level: when each stacked dimension has at least
   * one label and no repeated label, the distinct values of the `k`-th
   * component, in first-occurrence order, are exactly that dimension's labels.
   */
  lemma {:induction false} ProductColumns(levels: seq<seq<Label>>, k: nat)
    requires k < |levels|
    requires forall j :: 0 <= j < |levels| ==> levels[j] != [] && NoDuplicates(levels[j])
    ensures Distinct(Column(Product(levels), k)) == levels[k]
    decreases |levels|
  {
    var rest := levels[1..];
    assert forall j :: 0 <= j < |rest| ==> rest[j] == levels[j + 1];
    var p := Product(rest);
    if k == 0 {
      DistinctFirstColumn(levels[0], p);
    } else {
      ProductColumns(rest, k - 1);
      ColumnAfterFirst(levels[0], p, k - 1);
    }
  }

  /** The product of duplicate-free levels has no repeated tuple. */
  lemma {:induction false} ProductNoDuplicates(levels: seq<seq<Label>>)
    requires forall j :: 0 <= j < |levels| ==> NoDuplicates(levels[j])
    ensures NoDuplicates(Product(levels))
    decreases |levels|
  {
    if levels != [] {
      var rest := levels[1..];
      assert forall j :: 0 <= j < |rest| ==> rest[j] == levels[j + 1];
      ProductNoDuplicates(rest);
      PrefixedNoDuplicates(levels[0], Product(rest));
    }
  }

  lemma {:induction false} PrefixedNoDuplicates(heads: seq<Label>, tails: seq<seq<Label>>)
    requires NoDuplicates(heads) && NoDuplicates(tails)
    ensures NoDuplicates(Prefixed(heads, tails))
    decreases |heads|
  {
    if heads != [] {
      var init := heads[..|heads| - 1];
      var h := heads[|heads| - 1];
      var a := Prefixed(init, tails);
      var b := Prepend(h, tails);
      PrefixedNoDuplicates(init, tails);
      var r := a + b;
      forall i, j | 0 <= i < j < |r| ensures r[i] != r[j] {
        if j < |a| {
          assert r[i] == a[i] && r[j] == a[j];
        } else if i >= |a| {
          assert r[i] == [h] + tails[i - |a|] && r[j] == [h] + tails[j - |a|];
          assert r[i][1..] == tails[i - |a|] && r[j][1..] == tails[j - |a|];
        } else {
          assert r[i][0] in init && r[j][0] == h;
        }
      }
    }
  }

  // ---------------------------------------------------------------------------
  // Stacking and unstacking a cube

  /** The name `stack` gives the flattened non-spatial dimension. */
  const Unified: string := "__unified_non_spatial_dimension__"

  /** The axes whose names are not in `out`, in order. */
  function AxesWithout(axes: seq<Axis>, out: seq<string>): (r: seq<Axis>)
    ensures |r| <= |axes|
    ensures forall i :: 0 <= i < |r| ==> r[i] in axes && r[i].name !in out
    ensures forall i :: 0 <= i < |axes| && axes[i].name !in out ==> axes[i] in r
  {
    if axes == [] then []
    else
      var rest := AxesWithout(axes[1..], out);
      assert forall i :: 1 <= i < |axes| ==> axes[i] == axes[1..][i - 1];
      if axes[0].name in out then rest else [axes[0]] + rest
  }

  /**
   * AxesWithout is a stable filter: it works piece by piece on a split axis
   * list, and on one axis it keeps that axis exactly when its name is not in
   * `out`.
   */
  lemma {:induction false} AxesWithoutAppend(a: seq<Axis>, b: seq<Axis>, out: seq<string>)
    ensures AxesWithout(a + b, out) == AxesWithout(a, out) + AxesWithout(b, out)
    decreases |a|
  {
    if a == [] {
      assert a + b == b;
    } else {
      assert (a + b)[1..] == a[1..] + b;
      assert (a + b)[0] == a[0];
      AxesWithoutAppend(a[1..], b, out);
    }
  }

  lemma AxesWithoutSingle(x: Axis, out: seq<string>)
    ensures AxesWithout([x], out) == if x.name in out then [] else [x]
  {
    assert [x][1..] == [];
  }

  /** Filtering keeps exactly the names not in `out`, and keeps them distinct. */
  lemma AxesWithoutNames(axes: seq<Axis>, out: seq<string>)
    ensures forall n :: n in Names(AxesWithout(axes, out)) <==> n in Names(axes) && n !in out
    ensures NoDuplicates(Names(axes)) ==> NoDuplicates(Names(AxesWithout(axes, out)))
  {
    forall n | n in Names(AxesWithout(axes, out)) ensures n in Names(axes) && n !in out {
      AxesWithoutKept(axes, out, n);
    }
    forall n | n in Names(axes) && n !in out ensures n in Names(AxesWithout(axes, out)) {
      AxesWithoutKeeps(axes, out, n);
    }
    if NoDuplicates(Names(axes)) {
      AxesWithoutDistinct(axes, out);
    }
  }

  lemma AxesWithoutKept(axes: seq<Axis>, out: seq<string>, n: string)
    requires n in Names(AxesWithout(axes, out))
    ensures n in Names(axes) && n !in out
  {
    var r := AxesWithout(axes, out);
    var i := IndexOf(Names(r), n);
    var j :| 0 <= j < |axes| && axes[j] == r[i];
    assert Names(axes)[j] == n;
  }

  lemma AxesWithoutKeeps(axes: seq<Axis>, out: seq<string>, n: string)
    requires n in Names(axes) && n !in out
    ensures n in Names(AxesWithout(axes, out))
  {
    var r := AxesWithout(axes, out);
    var j := IndexOf(Names(axes), n);
    var i :| 0 <= i < |r| && r[i] == axes[j];
    assert Names(r)[i] == n;
  }

  predicate DistinctNames(axes: seq<Axis>) {
    forall i, j :: 0 <= i < j < |axes| ==> axes[i].name != axes[j].name
  }

  lemma DistinctNamesValid(axes: seq<Axis>)
    ensures DistinctNames(axes) <==> NoDuplicates(Names(axes))
  {
  }

  lemma {:induction false} AxesWithoutDistinct(axes: seq<Axis>, out: seq<string>)
    requires NoDuplicates(Names(axes))
    ensures NoDuplicates(Names(AxesWithout(axes, out)))
  {
    DistinctNamesValid(axes);
    AxesWithoutDistinctNames(axes, out);
    DistinctNamesValid(AxesWithout(axes, out));
  }

  lemma {:induction false} AxesWithoutDistinctNames(axes: seq<Axis>, out: seq<string>)
    requires DistinctNames(axes)
    ensures DistinctNames(AxesWithout(axes, out))
  {
    if axes != [] {
      var tail := axes[1..];
      var rest := AxesWithout(tail, out);
      assert DistinctNames(tail) by {
        forall i, j | 0 <= i < j < |tail| ensures tail[i].name != tail[j].name {
          assert tail[i] == axes[i + 1] && tail[j] == axes[j + 1];
        }
      }
      AxesWithoutDistinctNames(tail, out);
      if axes[0].name !in out {
        var r := [axes[0]] + rest;
        forall i | 0 <= i < |rest| ensures rest[i].name != axes[0].name {
          assert rest[i] in tail;
          var j :| 0 <= j < |tail| && tail[j] == rest[i];
          assert axes[j + 1] == rest[i];
        }
        assert AxesWithout(axes, out) == r;
        forall i, j | 0 <= i < j < |r| ensures r[i].name != r[j].name {
          assert r[j] == rest[j - 1];
          if i > 0 {
            assert r[i] == rest[i - 1];
          }
        }
      }
    }
  }

  /** The first of the listed dimensions that has no coordinate variable. */
  function FirstWithoutCoords(names: seq<string>, coords: set<string>): (r: Option<string>)
    ensures r.None? <==> forall i :: 0 <= i < |names| ==> names[i] in coords
    ensures r.Some? ==> exists k :: 0 <= k < |names| && names[k] == r.value && r.value !in coords &&
                                (forall j :: 0 <= j < k ==> names[j] in coords)
  {
    if names == [] then None
    else if names[0] !in coords then Some(names[0])
    else
      var r := FirstWithoutCoords(names[1..], coords);
      if r.Some? then
        var k :| 0 <= k < |names[1..]| && names[1..][k] == r.value && r.value !in coords &&
                 (forall j :: 0 <= j < k ==> names[1..][j] in coords);
        assert names[k + 1] == r.value;
        r
      else r
  }

  /** The multi-index of a stacked dimension: the name and kind of each level, and its tuples. */
  datatype MultiIndex = MultiIndex(levels: seq<(string, Kind)>, tuples: seq<seq<Label>>)

  /** The labels of the named dimensions, in the order they are named. */
  function LevelLabels(c: Cube, names: seq<string>): (r: seq<seq<Label>>)
    requires forall i :: 0 <= i < |names| ==> names[i] in Names(c.axes)
    ensures |r| == |names|
    ensures forall k :: 0 <= k < |names| ==> r[k] == AxisNamed(c, names[k]).labels
  {
    seq(|names|, k requires 0 <= k < |names| && names[k] in Names(c.axes) => AxisNamed(c, names[k]).labels)
  }

  /**
   * `stack({Unified: names}, create_index=True)`: the named dimensions leave
   * the array and the stacked dimension (implicit here, always last) carries a
   * multi-index whose tuples are the product of their labels.
   */
  function Stack(c: Cube, names: seq<string>): (r: (Cube, MultiIndex))
    requires Valid(c) && forall i :: 0 <= i < |names| ==> names[i] in Names(c.axes)
    ensures Valid(r.0) && r.0.axes == AxesWithout(c.axes, names)
    ensures forall n :: n in Names(r.0.axes) <==> n in Names(c.axes) && n !in names
    ensures r.0.coords == c.coords && r.0.crs == c.crs && r.0.attrs == c.attrs
    ensures |r.1.levels| == |names|
    ensures forall k :: 0 <= k < |names| ==> r.1.levels[k] == (names[k], AxisNamed(c, names[k]).kind)
    ensures r.1.tuples == Product(LevelLabels(c, names))
  {
    AxesWithoutNames(c.axes, names);
    var levels := seq(|names|, k requires 0 <= k < |names| && names[k] in Names(c.axes) =>
      (names[k], AxisNamed(c, names[k]).kind));
    (c.(axes := AxesWithout(c.axes, names)), MultiIndex(levels, Product(LevelLabels(c, names))))
  }

  /** The axes `unstack` rebuilds: per level, the distinct labels it takes, in first-occurrence order. */
  function LevelAxes(index: MultiIndex): (r: seq<Axis>)
    requires forall i :: 0 <= i < |index.tuples| ==> |index.tuples[i]| == |index.levels|
    ensures |r| == |index.levels|
    ensures forall k :: 0 <= k < |r| ==>
      r[k] == Axis(index.levels[k].0, index.levels[k].1, Distinct(Column(index.tuples, k)))
  {
    seq(|index.levels|, k requires 0 <= k < |index.levels| =>
      Axis(index.levels[k].0, index.levels[k].1, Distinct(Column(index.tuples, k))))
  }

  /**
   * `unstack(Unified)`: refused when two tuples coincide; otherwise the levels
   * become dimensions again, appended after the remaining ones.
   */
  function Unstack(c: Cube, index: MultiIndex): (r: Result<Cube, Error>)
    requires forall i :: 0 <= i < |index.tuples| ==> |index.tuples[i]| == |index.levels|
    ensures r.Failure? <==> !NoDuplicates(index.tuples)
    ensures r.Success? ==> r.value == c.(axes := c.axes + LevelAxes(index))
  {
    if !NoDuplicates(index.tuples) then Failure(NonUniqueIndex)
    else Success(c.(axes := c.axes + LevelAxes(index)))
  }

  /** The new labels the warp gives the plane, opaque: from the y and x axes to theirs. */
  type Plane = (Axis, Axis) -> (seq<Label>, seq<Label>)

  /**
   * The warp of the spatial plane (`rio.reproject` / `rio.reproject_match`),
   * opaque: the new y and x labels, and the attributes rioxarray writes on the
   * warped array, computed from those of the array it warps.
   */
  datatype Warp = Warp(plane: Plane, attrs: map<string, string> -> map<string, string>)

  /** The attributes in which rioxarray looks for a no-data value. */
  predicate HasNodata(attrs: map<string, string>) {
    "_FillValue" in attrs || "missing_value" in attrs || "fill_value" in attrs || "nodata" in attrs
  }

  /**
   * `if rio.nodata is None: rio.write_nodata(np.nan)` on the stacked array: an
   * array without a no-data value gets `_FillValue` NaN, any other is left as
   * it is; afterwards the array has a no-data value.
   */
  function WriteNodataIfMissing(attrs: map<string, string>): (r: map<string, string>)
    ensures HasNodata(r)
    ensures forall k :: k in attrs ==> k in r && r[k] == attrs[k]
    ensures r.Keys <= attrs.Keys + {"_FillValue"}
    ensures HasNodata(attrs) <==> r == attrs
  {
    if HasNodata(attrs) then attrs else attrs["_FillValue" := "nan"]
  }

  /** Writing the no-data value a second time changes nothing. */
  lemma WriteNodataIdempotent(attrs: map<string, string>)
    ensures WriteNodataIfMissing(WriteNodataIfMissing(attrs)) == WriteNodataIfMissing(attrs)
  {
  }

  /**
   * Stack `nonSpatial`, give the array a no-data value if it has none,
   * transpose to (stacked, y, x), warp, put the saved index back, unstack and
   * transpose into the input's order.
   */
  function StackWarpUnstack(c: Cube, nonSpatial: seq<string>, yDim: string, xDim: string, warp: Warp, target: Crs)
    : (r: Result<Cube, Error>)
    requires Valid(c) && NoDuplicates(nonSpatial)
    requires forall i :: 0 <= i < |nonSpatial| ==> nonSpatial[i] in Names(c.axes)
    ensures r.Success? ==> Valid(r.value) && Names(r.value.axes) == Names(c.axes)
    ensures r.Success? ==> r.value.crs == Some(target) && r.value.attrs == warp.attrs(WriteNodataIfMissing(c.attrs))
    ensures nonSpatial != [] && c.crs.None? ==> r.Failure?
  {
    if nonSpatial == [] then Failure(EmptyStack)
    else
      var stacked := Stack(c, nonSpatial);
      var yx :- Transpose(stacked.0, [yDim, xDim]);
      if yx.crs.None? then Failure(MissingCrs)
      else
      var warped := Warped(yx, warp, target);
      var unstacked :- Unstack(warped, stacked.1);
      assert Valid(unstacked) by {
        UnstackedValid(c, nonSpatial, yDim, xDim, yx, warped, stacked.1);
      }
      Transpose(unstacked, Names(c.axes))
  }

  /**
   * The (y, x) plane after the no-data write and the warp: new labels on both
   * axes, in the target CRS, with the attributes the warp writes.
   */
  function Warped(yx: Cube, warp: Warp, target: Crs): (r: Cube)
    requires |yx.axes| == 2
    ensures Names(r.axes) == Names(yx.axes)
    ensures r.crs == Some(target) && r.coords == yx.coords && r.attrs == warp.attrs(WriteNodataIfMissing(yx.attrs))
  {
    var labels := warp.plane(yx.axes[0], yx.axes[1]);
    yx.(axes := [yx.axes[0].(labels := labels.0), yx.axes[1].(labels := labels.1)], crs := Some(target),
        attrs := warp.attrs(WriteNodataIfMissing(yx.attrs)))
  }

  lemma UnstackedValid(c: Cube, nonSpatial: seq<string>, yDim: string, xDim: string, yx: Cube, warped: Cube, index: MultiIndex)
    requires Valid(c) && NoDuplicates(nonSpatial)
    requires forall i :: 0 <= i < |nonSpatial| ==> nonSpatial[i] in Names(c.axes)
    requires Transpose(Stack(c, nonSpatial).0, [yDim, xDim]) == Success(yx)
    requires index == Stack(c, nonSpatial).1
    requires Names(warped.axes) == [yDim, xDim]
    ensures Valid(warped.(axes := warped.axes + LevelAxes(index)))
  {
    var plane := Stack(c, nonSpatial).0;
    assert yDim in Names(plane.axes) && xDim in Names(plane.axes);
    assert yDim != xDim by {
      var order := [yDim, xDim];
      assert NoDuplicates(order);
      assert order[0] != order[1];
    }
    NoDuplicatesAfterTwo(yDim, xDim, nonSpatial);
    StackedLevelNames(c, nonSpatial);
    NamesAppend(warped.axes, LevelAxes(index));
  }

  /** The axes rebuilt from the index carry the stacked names, in stacking order. */
  lemma StackedLevelNames(c: Cube, names: seq<string>)
    requires Valid(c) && forall i :: 0 <= i < |names| ==> names[i] in Names(c.axes)
    ensures Names(LevelAxes(Stack(c, names).1)) == names
  {
  }

  lemma NoDuplicatesAfterTwo<T>(a: T, b: T, rest: seq<T>)
    requires a != b && a !in rest && b !in rest && NoDuplicates(rest)
    ensures NoDuplicates([a, b] + rest)
  {
    var xs := [a, b] + rest;
    forall i, j | 0 <= i < j < |xs| ensures xs[i] != xs[j] {
      if j >= 2 {
        assert xs[j] == rest[j - 2];
        if i >= 2 {
          assert xs[i] == rest[i - 2];
        }
      }
    }
  }

  /**
   * `reproject_cube`: every dimension except "y" and "x" must have coordinates
   * (the first that lacks them is reported) and no dimension may already be
   * called `Unified`; the rest is the stack / warp / unstack round trip.
   */
  function ReprojectCube(c: Cube, warp: Warp, target: Crs): (r: Result<Cube, Error>)
    requires Valid(c)
    ensures var nonSpatial := Names(AxesWithout(c.axes, ["y", "x"]));
      && (FirstWithoutCoords(nonSpatial, c.coords).Some? ==>
            r == Failure(MissingCoordinates(FirstWithoutCoords(nonSpatial, c.coords).value)))
      && (FirstWithoutCoords(nonSpatial, c.coords).None? && Unified in Names(c.axes) ==>
            r == Failure(ReservedDimensionConflict))
      && ("y" !in Names(c.axes) || "x" !in Names(c.axes) || c.crs.None? ==> r.Failure?)
    ensures r.Success? ==> Valid(r.value) && Names(r.value.axes) == Names(c.axes)
    ensures r.Success? ==> r.value.crs == Some(target) && r.value.attrs == warp.attrs(WriteNodataIfMissing(c.attrs))
  {
    var nonSpatial := Names(AxesWithout(c.axes, ["y", "x"]));
    AxesWithoutNames(c.axes, ["y", "x"]);
    match FirstWithoutCoords(nonSpatial, c.coords)
    case Some(d) => Failure(MissingCoordinates(d))
    case None =>
      if Unified in Names(c.axes) then Failure(ReservedDimensionConflict)
      else
        assert forall i :: 0 <= i < |nonSpatial| ==> nonSpatial[i] in Names(c.axes);
        StackWarpUnstack(c, nonSpatial, "y", "x", warp, target)
  }

  /** A stacked dimension unstacks to itself when it has labels and no repeated label. */
  predicate Restorable(a: Axis) {
    a.labels != [] && NoDuplicates(a.labels)
  }

  lemma AxisNamedAt(c: Cube, j: nat)
    requires Valid(c) && j < |c.axes|
    ensures AxisNamed(c, c.axes[j].name) == c.axes[j]
  {
    IndexOfUnique(Names(c.axes), c.axes[j].name, j);
  }

  /** When the stacked dimensions are all but y and x, the stacked array's plane is exactly (y, x). */
  lemma PlaneIsYX(c: Cube, nonSpatial: seq<string>, yDim: string, xDim: string)
    requires Valid(c) && forall i :: 0 <= i < |nonSpatial| ==> nonSpatial[i] in Names(c.axes)
    requires yDim != xDim && yDim in Names(c.axes) && xDim in Names(c.axes)
    requires yDim !in nonSpatial && xDim !in nonSpatial
    requires forall i :: 0 <= i < |c.axes| ==> c.axes[i].name in nonSpatial || c.axes[i].name == yDim || c.axes[i].name == xDim
    ensures Transpose(Stack(c, nonSpatial).0, [yDim, xDim]).Success?
    ensures Transpose(Stack(c, nonSpatial).0, [yDim, xDim]).value.axes == [AxisNamed(c, yDim), AxisNamed(c, xDim)]
  {
    var plane := Stack(c, nonSpatial).0;
    PlaneNames(c.axes, nonSpatial, yDim, xDim);
    TransposeTwo(plane, yDim, xDim);
    PlaneAxisNamed(c, plane, nonSpatial, yDim);
    PlaneAxisNamed(c, plane, nonSpatial, xDim);
  }

  /** Transposing a two-dimensional cube into the order of its two names. */
  lemma TransposeTwo(p: Cube, a: string, b: string)
    requires Valid(p) && |p.axes| == 2 && a != b && a in Names(p.axes) && b in Names(p.axes)
    ensures Transpose(p, [a, b]).Success?
    ensures Transpose(p, [a, b]).value.axes == [AxisNamed(p, a), AxisNamed(p, b)]
  {
    var r := Transpose(p, [a, b]);
    assert r.Success?;
    assert r.value.axes[0] == AxisNamed(p, a) && r.value.axes[1] == AxisNamed(p, b);
  }

  /** Taking the stacked dimensions out of a cube whose other dimensions are y and x leaves exactly those two. */
  lemma PlaneNames(axes: seq<Axis>, nonSpatial: seq<string>, yDim: string, xDim: string)
    requires NoDuplicates(Names(axes))
    requires yDim != xDim && yDim in Names(axes) && xDim in Names(axes)
    requires yDim !in nonSpatial && xDim !in nonSpatial
    requires forall i :: 0 <= i < |axes| ==> axes[i].name in nonSpatial || axes[i].name == yDim || axes[i].name == xDim
    ensures |AxesWithout(axes, nonSpatial)| == 2
    ensures yDim in Names(AxesWithout(axes, nonSpatial)) && xDim in Names(AxesWithout(axes, nonSpatial))
  {
    var names := Names(AxesWithout(axes, nonSpatial));
    AxesWithoutNames(axes, nonSpatial);
    forall n | n in Elems(names) ensures n == yDim || n == xDim {
      assert n in names;
      assert n in Names(axes) && n !in nonSpatial;
      var j := IndexOf(Names(axes), n);
      assert axes[j].name == n;
    }
    assert yDim in Elems(names) && xDim in Elems(names);
    assert Elems(names) == {yDim, xDim};
    NoDuplicatesCard(names);
  }

  /** A dimension left after stacking is the same axis it was in the input. */
  lemma PlaneAxisNamed(c: Cube, plane: Cube, nonSpatial: seq<string>, n: string)
    requires Valid(c) && plane.axes == AxesWithout(c.axes, nonSpatial) && n in Names(plane.axes)
    ensures AxisNamed(plane, n) == AxisNamed(c, n)
  {
    var j := IndexOf(Names(plane.axes), n);
    assert plane.axes[j] in c.axes;
    var k :| 0 <= k < |c.axes| && c.axes[k] == plane.axes[j];
    AxisNamedAt(c, k);
  }

  /** The saved index has no repeated tuple, and unstacking it gives back each stacked axis. */
  lemma LevelAxesRestore(c: Cube, nonSpatial: seq<string>)
    requires Valid(c) && forall i :: 0 <= i < |nonSpatial| ==> nonSpatial[i] in Names(c.axes)
    requires forall i :: 0 <= i < |nonSpatial| ==> Restorable(AxisNamed(c, nonSpatial[i]))
    ensures NoDuplicates(Stack(c, nonSpatial).1.tuples)
    ensures LevelAxes(Stack(c, nonSpatial).1) == seq(|nonSpatial|, k requires 0 <= k < |nonSpatial| => AxisNamed(c, nonSpatial[k]))
  {
    var index := Stack(c, nonSpatial).1;
    var levels := LevelLabels(c, nonSpatial);
    assert forall j :: 0 <= j < |levels| ==> levels[j] != [] && NoDuplicates(levels[j]) by {
      forall j | 0 <= j < |levels| ensures levels[j] != [] && NoDuplicates(levels[j]) {
        assert Restorable(AxisNamed(c, nonSpatial[j]));
      }
    }
    ProductNoDuplicates(levels);
    forall k | 0 <= k < |nonSpatial| ensures LevelAxes(index)[k] == AxisNamed(c, nonSpatial[k]) {
      ProductColumns(levels, k);
    }
  }

  /** Transposing the unstacked axes back into the input's order. */
  lemma TransposeBack(c: Cube, u: Cube, nonSpatial: seq<string>, yDim: string, xDim: string, ys: seq<Label>, xs: seq<Label>)
    requires Valid(c) && forall i :: 0 <= i < |nonSpatial| ==> nonSpatial[i] in Names(c.axes)
    requires yDim in Names(c.axes) && xDim in Names(c.axes)
    requires forall i :: 0 <= i < |c.axes| ==> c.axes[i].name in nonSpatial || c.axes[i].name == yDim || c.axes[i].name == xDim
    requires Valid(u)
    requires u.axes == [AxisNamed(c, yDim).(labels := ys), AxisNamed(c, xDim).(labels := xs)] +
      seq(|nonSpatial|, k requires 0 <= k < |nonSpatial| => AxisNamed(c, nonSpatial[k]))
    ensures Transpose(u, Names(c.axes)).Success?
    ensures forall i :: 0 <= i < |c.axes| ==>
      Transpose(u, Names(c.axes)).value.axes[i] ==
        if c.axes[i].name == yDim then c.axes[i].(labels := ys)
        else if c.axes[i].name == xDim then c.axes[i].(labels := xs)
        else c.axes[i]
  {
    UnstackedNames(c, u, nonSpatial, yDim, xDim, ys, xs);
    TransposeBackSucceeds(c, u, nonSpatial, yDim, xDim);
    forall i | 0 <= i < |c.axes| ensures
      Transpose(u, Names(c.axes)).value.axes[i] ==
        if c.axes[i].name == yDim then c.axes[i].(labels := ys)
        else if c.axes[i].name == xDim then c.axes[i].(labels := xs)
        else c.axes[i]
    {
      TransposeBackAt(c, u, nonSpatial, yDim, xDim, ys, xs, i);
    }
  }

  /** The unstacked cube's names: y, x, then the stacked names in stacking order. */
  lemma UnstackedNames(c: Cube, u: Cube, nonSpatial: seq<string>, yDim: string, xDim: string, ys: seq<Label>, xs: seq<Label>)
    requires Valid(c) && forall i :: 0 <= i < |nonSpatial| ==> nonSpatial[i] in Names(c.axes)
    requires yDim in Names(c.axes) && xDim in Names(c.axes)
    requires u.axes == [AxisNamed(c, yDim).(labels := ys), AxisNamed(c, xDim).(labels := xs)] +
      seq(|nonSpatial|, k requires 0 <= k < |nonSpatial| => AxisNamed(c, nonSpatial[k]))
    ensures Names(u.axes) == [yDim, xDim] + nonSpatial
  {
    var plane := [AxisNamed(c, yDim).(labels := ys), AxisNamed(c, xDim).(labels := xs)];
    var levels := seq(|nonSpatial|, k requires 0 <= k < |nonSpatial| => AxisNamed(c, nonSpatial[k]));
    assert Names(levels) == nonSpatial by {
      forall k | 0 <= k < |nonSpatial| ensures levels[k].name == nonSpatial[k] {
        AxisNamedName(c, nonSpatial[k]);
      }
    }
    assert Names(plane) == [yDim, xDim] by {
      AxisNamedName(c, yDim);
      AxisNamedName(c, xDim);
    }
    NamesAppend(plane, levels);
  }

  lemma AxisNamedName(c: Cube, n: string)
    requires n in Names(c.axes)
    ensures AxisNamed(c, n).name == n
  {
  }

  /** The unstacked cube has the input's dimensions, so it can be put back into the input's order. */
  lemma TransposeBackSucceeds(c: Cube, u: Cube, nonSpatial: seq<string>, yDim: string, xDim: string)
    requires Valid(c) && forall i :: 0 <= i < |nonSpatial| ==> nonSpatial[i] in Names(c.axes)
    requires yDim in Names(c.axes) && xDim in Names(c.axes)
    requires forall i :: 0 <= i < |c.axes| ==> c.axes[i].name in nonSpatial || c.axes[i].name == yDim || c.axes[i].name == xDim
    requires Valid(u) && Names(u.axes) == [yDim, xDim] + nonSpatial
    ensures Transpose(u, Names(c.axes)).Success?
  {
    assert Elems(Names(c.axes)) == Elems(Names(u.axes)) by {
      forall n | n in Elems(Names(c.axes)) ensures n in Elems(Names(u.axes)) {
        var i := IndexOf(Names(c.axes), n);
        assert c.axes[i].name == n;
      }
    }
    NoDuplicatesCard(Names(c.axes));
    NoDuplicatesCard(Names(u.axes));
  }

  /** One dimension after transposing back: y and x carry the warped labels, the others their own. */
  lemma TransposeBackAt(c: Cube, u: Cube, nonSpatial: seq<string>, yDim: string, xDim: string, ys: seq<Label>, xs: seq<Label>, i: nat)
    requires Valid(c) && forall i :: 0 <= i < |nonSpatial| ==> nonSpatial[i] in Names(c.axes)
    requires yDim in Names(c.axes) && xDim in Names(c.axes)
    requires Valid(u)
    requires u.axes == [AxisNamed(c, yDim).(labels := ys), AxisNamed(c, xDim).(labels := xs)] +
      seq(|nonSpatial|, k requires 0 <= k < |nonSpatial| => AxisNamed(c, nonSpatial[k]))
    requires Names(u.axes) == [yDim, xDim] + nonSpatial
    requires i < |c.axes| && (c.axes[i].name in nonSpatial || c.axes[i].name == yDim || c.axes[i].name == xDim)
    requires Transpose(u, Names(c.axes)).Success?
    ensures Transpose(u, Names(c.axes)).value.axes[i] ==
        if c.axes[i].name == yDim then c.axes[i].(labels := ys)
        else if c.axes[i].name == xDim then c.axes[i].(labels := xs)
        else c.axes[i]
  {
    var n := c.axes[i].name;
    assert Names(c.axes)[i] == n;
    assert Transpose(u, Names(c.axes)).value.axes[i] == AxisNamed(u, n);
    AxisNamedAt(c, i);
    UnstackedAxisNamed(c, u, nonSpatial, yDim, xDim, ys, xs, n);
  }

  /** The axes of the unstacked cube, looked up by name. */
  lemma UnstackedAxisNamed(c: Cube, u: Cube, nonSpatial: seq<string>, yDim: string, xDim: string, ys: seq<Label>, xs: seq<Label>, n: string)
    requires Valid(c) && forall i :: 0 <= i < |nonSpatial| ==> nonSpatial[i] in Names(c.axes)
    requires yDim in Names(c.axes) && xDim in Names(c.axes)
    requires Valid(u)
    requires u.axes == [AxisNamed(c, yDim).(labels := ys), AxisNamed(c, xDim).(labels := xs)] +
      seq(|nonSpatial|, k requires 0 <= k < |nonSpatial| => AxisNamed(c, nonSpatial[k]))
    requires Names(u.axes) == [yDim, xDim] + nonSpatial
    requires n in nonSpatial || n == yDim || n == xDim
    ensures n in Names(u.axes)
    ensures AxisNamed(u, n) ==
        if n == yDim then AxisNamed(c, yDim).(labels := ys)
        else if n == xDim then AxisNamed(c, xDim).(labels := xs)
        else AxisNamed(c, n)
  {
    if n == yDim {
      AxisNamedAt(u, 0);
    } else if n == xDim {
      AxisNamedAt(u, 1);
    } else {
      var k :| 0 <= k < |nonSpatial| && nonSpatial[k] == n;
      assert Names(u.axes)[k + 2] == n;
      AxisNamedAt(u, k + 2);
    }
  }

  /**
   * The round trip of the skeleton: when the stacked dimensions are exactly the
   * dimensions other than y and x, and each of them has labels and no repeated
   * label, the result has the input's dimensions in the input's order, every
   * stacked dimension comes back with its labels, and only the labels of y and
   * x change, to those the warp gives.
   */
  lemma StackWarpUnstackRoundTrip(c: Cube, nonSpatial: seq<string>, yDim: string, xDim: string, warp: Warp, target: Crs)
    requires Valid(c) && NoDuplicates(nonSpatial) && nonSpatial != [] && c.crs.Some?
    requires forall i :: 0 <= i < |nonSpatial| ==> nonSpatial[i] in Names(c.axes)
    requires yDim != xDim && yDim in Names(c.axes) && xDim in Names(c.axes)
    requires yDim !in nonSpatial && xDim !in nonSpatial
    requires forall i :: 0 <= i < |c.axes| ==> c.axes[i].name in nonSpatial || c.axes[i].name == yDim || c.axes[i].name == xDim
    requires forall i :: 0 <= i < |nonSpatial| ==> Restorable(AxisNamed(c, nonSpatial[i]))
    ensures var r := StackWarpUnstack(c, nonSpatial, yDim, xDim, warp, target);
      && r.Success?
      && Names(r.value.axes) == Names(c.axes)
      && r.value.crs == Some(target)
      && forall i :: 0 <= i < |c.axes| ==>
           r.value.axes[i] ==
             if c.axes[i].name == yDim then c.axes[i].(labels := warp.plane(AxisNamed(c, yDim), AxisNamed(c, xDim)).0)
             else if c.axes[i].name == xDim then c.axes[i].(labels := warp.plane(AxisNamed(c, yDim), AxisNamed(c, xDim)).1)
             else c.axes[i]
  {
    var (plane, index) := Stack(c, nonSpatial);
    PlaneIsYX(c, nonSpatial, yDim, xDim);
    var yx := Transpose(plane, [yDim, xDim]).value;
    var ys, xs := warp.plane(yx.axes[0], yx.axes[1]).0, warp.plane(yx.axes[0], yx.axes[1]).1;
    var warped := Warped(yx, warp, target);
    assert warped.axes == [yx.axes[0].(labels := ys), yx.axes[1].(labels := xs)];
    LevelAxesRestore(c, nonSpatial);
    var unstacked := warped.(axes := warped.axes + LevelAxes(index));
    assert Unstack(warped, index) == Success(unstacked);
    StackWarpUnstackSteps(c, nonSpatial, yDim, xDim, warp, target, yx, unstacked);
    TransposeBack(c, unstacked, nonSpatial, yDim, xDim, ys, xs);
  }

  /** The steps of the skeleton, once the transpose and the unstack are known to succeed. */
  lemma StackWarpUnstackSteps(c: Cube, nonSpatial: seq<string>, yDim: string, xDim: string, warp: Warp, target: Crs, yx: Cube, u: Cube)
    requires Valid(c) && NoDuplicates(nonSpatial) && nonSpatial != []
    requires forall i :: 0 <= i < |nonSpatial| ==> nonSpatial[i] in Names(c.axes)
    requires Transpose(Stack(c, nonSpatial).0, [yDim, xDim]) == Success(yx) && yx.crs.Some?
    requires |yx.axes| == 2
    requires Unstack(Warped(yx, warp, target), Stack(c, nonSpatial).1) == Success(u)
    ensures Valid(u)
    ensures StackWarpUnstack(c, nonSpatial, yDim, xDim, warp, target) == Transpose(u, Names(c.axes))
  {
    var stacked := Stack(c, nonSpatial);
    var warped := Warped(yx, warp, target);
    assert Names(yx.axes) == [yDim, xDim];
    UnstackedValid(c, nonSpatial, yDim, xDim, yx, warped, stacked.1);
    assert u == warped.(axes := warped.axes + LevelAxes(stacked.1));
  }

  /** `reproject_cube` keeps every dimension, its order, and the labels of every dimension other than y and x. */
  lemma ReprojectRoundTrip(c: Cube, warp: Warp, target: Crs)
    requires Valid(c) && "y" in Names(c.axes) && "x" in Names(c.axes) && Unified !in Names(c.axes) && c.crs.Some?
    requires exists n :: n in Names(c.axes) && n != "y" && n != "x"
    requires forall n :: n in Names(c.axes) && n != "y" && n != "x" ==> n in c.coords && Restorable(AxisNamed(c, n))
    ensures var r := ReprojectCube(c, warp, target);
      && r.Success?
      && Names(r.value.axes) == Names(c.axes)
      && forall i :: 0 <= i < |c.axes| ==>
           r.value.axes[i] ==
             if c.axes[i].name == "y" then c.axes[i].(labels := warp.plane(AxisNamed(c, "y"), AxisNamed(c, "x")).0)
             else if c.axes[i].name == "x" then c.axes[i].(labels := warp.plane(AxisNamed(c, "y"), AxisNamed(c, "x")).1)
             else c.axes[i]
  {
    var nonSpatial := ReprojectNonSpatial(c);
    StackWarpUnstackRoundTrip(c, nonSpatial, "y", "x", warp, target);
    assert ReprojectCube(c, warp, target) == StackWarpUnstack(c, nonSpatial, "y", "x", warp, target);
  }

  lemma ReprojectNonSpatial(c: Cube) returns (nonSpatial: seq<string>)
    requires Valid(c) && "y" in Names(c.axes) && "x" in Names(c.axes)
    requires exists n :: n in Names(c.axes) && n != "y" && n != "x"
    requires forall n :: n in Names(c.axes) && n != "y" && n != "x" ==> n in c.coords && Restorable(AxisNamed(c, n))
    ensures nonSpatial == Names(AxesWithout(c.axes, ["y", "x"]))
    ensures NoDuplicates(nonSpatial) && nonSpatial != [] && "y" !in nonSpatial && "x" !in nonSpatial
    ensures forall i :: 0 <= i < |nonSpatial| ==> nonSpatial[i] in Names(c.axes)
    ensures forall i :: 0 <= i < |nonSpatial| ==> Restorable(AxisNamed(c, nonSpatial[i]))
    ensures FirstWithoutCoords(nonSpatial, c.coords).None?
    ensures forall i :: 0 <= i < |c.axes| ==> c.axes[i].name in nonSpatial || c.axes[i].name == "y" || c.axes[i].name == "x"
  {
    nonSpatial := Names(AxesWithout(c.axes, ["y", "x"]));
    AxesWithoutNames(c.axes, ["y", "x"]);
    var n0 :| n0 in Names(c.axes) && n0 != "y" && n0 != "x";
    assert n0 in nonSpatial;
    forall i | 0 <= i < |nonSpatial|
      ensures nonSpatial[i] in Names(c.axes) && nonSpatial[i] in c.coords && Restorable(AxisNamed(c, nonSpatial[i]))
    {
      assert nonSpatial[i] in nonSpatial;
    }
    EveryNameSorted(c, nonSpatial, "y", "x");
  }

  lemma EveryNameSorted(c: Cube, nonSpatial: seq<string>, yDim: string, xDim: string)
    requires forall n :: n in Names(c.axes) ==> n in nonSpatial || n == yDim || n == xDim
    ensures forall i :: 0 <= i < |c.axes| ==> c.axes[i].name in nonSpatial || c.axes[i].name == yDim || c.axes[i].name == xDim
  {
    forall i | 0 <= i < |c.axes| ensures c.axes[i].name in nonSpatial || c.axes[i].name == yDim || c.axes[i].name == xDim {
      assert c.axes[i].name == Names(c.axes)[i];
    }
  }

  // ---------------------------------------------------------------------------
  // processes._reproject_cube_match

  /** In a cube, each name of kind `k` names an axis of kind `k`, and none is listed twice. */
  lemma NamesOfKindInCube(c: Cube, k: Kind)
    requires Valid(c)
    ensures forall n :: n in NamesOfKind(c.axes, k) ==> n in Names(c.axes) && AxisNamed(c, n).kind == k
    ensures NoDuplicates(NamesOfKind(c.axes, k))
  {
    forall n | n in NamesOfKind(c.axes, k) ensures AxisNamed(c, n).kind == k {
      NamesOfKindWitness(c.axes, k, n);
      var i :| 0 <= i < |c.axes| && c.axes[i].name == n && c.axes[i].kind == k;
      AxisNamedAt(c, i);
    }
    DistinctNamesValid(c.axes);
    NamesOfKindDistinct(c.axes, k);
  }

  lemma {:induction false} NamesOfKindDistinct(axes: seq<Axis>, k: Kind)
    requires DistinctNames(axes)
    ensures NoDuplicates(NamesOfKind(axes, k))
  {
    if axes != [] {
      var tail := axes[1..];
      assert DistinctNames(tail) by {
        forall i, j | 0 <= i < j < |tail| ensures tail[i].name != tail[j].name {
          assert tail[i] == axes[i + 1] && tail[j] == axes[j + 1];
        }
      }
      NamesOfKindDistinct(tail, k);
      var rest := NamesOfKind(tail, k);
      if axes[0].kind == k {
        forall i | 0 <= i < |rest| ensures rest[i] != axes[0].name {
          NamesOfKindWitness(tail, k, rest[i]);
          var j :| 0 <= j < |tail| && tail[j].name == rest[i] && tail[j].kind == k;
          assert tail[j] == axes[j + 1];
        }
        var r := [axes[0].name] + rest;
        forall i, j | 0 <= i < j < |r| ensures r[i] != r[j] {
          assert r[j] == rest[j - 1];
          if i > 0 {
            assert r[i] == rest[i - 1];
          }
        }
      }
    }
  }

  /** The stacked dimensions of `_reproject_cube_match`: the band dimensions, then the temporal ones. */
  function MatchNonSpatial(c: Cube): (r: seq<string>)
    requires Valid(c)
    ensures NoDuplicates(r)
    ensures forall i :: 0 <= i < |r| ==>
      (r[i] in Names(c.axes) && (AxisNamed(c, r[i]).kind == Bands || AxisNamed(c, r[i]).kind == Temporal))
  {
    NamesOfKindInCube(c, Bands);
    NamesOfKindInCube(c, Temporal);
    var b, t := BandDims(c), TemporalDims(c);
    var r := b + t;
    forall i, j | 0 <= i < j < |r| ensures r[i] != r[j] {
      if j < |b| {
        assert r[i] == b[i] && r[j] == b[j];
      } else if i >= |b| {
        assert r[i] == t[i - |b|] && r[j] == t[j - |b|];
      } else {
        assert r[i] in b && r[j] in t;
      }
    }
    assert forall i :: 0 <= i < |r| ==> r[i] in b || r[i] in t;
    r
  }

  /**
   * `_reproject_cube_match`: like `reproject_cube`, but the stacked dimensions
   * are the band and temporal ones, and the plane is taken at the cube's own y
   * and x dimensions.
   */
  function ReprojectCubeMatch(c: Cube, warp: Warp, target: Crs): (r: Result<Cube, Error>)
    requires Valid(c)
    ensures FirstWithoutCoords(MatchNonSpatial(c), c.coords).Some? ==>
      r == Failure(MissingCoordinates(FirstWithoutCoords(MatchNonSpatial(c), c.coords).value))
    ensures FirstWithoutCoords(MatchNonSpatial(c), c.coords).None? && Unified in Names(c.axes) ==>
      r == Failure(ReservedDimensionConflict)
    ensures FirstOfKind(c, SpatialY).None? || FirstOfKind(c, SpatialX).None? || c.crs.None? ==> r.Failure?
    ensures r.Success? ==> Valid(r.value) && Names(r.value.axes) == Names(c.axes)
    ensures r.Success? ==> r.value.crs == Some(target) && r.value.attrs == warp.attrs(WriteNodataIfMissing(c.attrs))
  {
    var nonSpatial := MatchNonSpatial(c);
    match FirstWithoutCoords(nonSpatial, c.coords)
    case Some(d) => Failure(MissingCoordinates(d))
    case None =>
      if Unified in Names(c.axes) then Failure(ReservedDimensionConflict)
      else if nonSpatial == [] then Failure(EmptyStack)
      else
        match (FirstOfKind(c, SpatialY), FirstOfKind(c, SpatialX))
        case (Some(y), Some(x)) =>
          assert y in NamesOfKind(c.axes, SpatialY) && x in NamesOfKind(c.axes, SpatialX);
          StackWarpUnstack(c, nonSpatial, y, x, warp, target)
        case _ => Failure(TransposeMismatch)
  }

  /**
   * On a cube made of band, temporal, y and x dimensions only, the match
   * reprojection keeps every dimension, its order, and the labels of every
   * band and temporal dimension.
   */
  lemma ReprojectMatchRoundTrip(c: Cube, warp: Warp, target: Crs, yDim: string, xDim: string)
    requires Valid(c) && Unified !in Names(c.axes) && c.crs.Some?
    requires FirstOfKind(c, SpatialY) == Some(yDim) && FirstOfKind(c, SpatialX) == Some(xDim)
    requires forall i :: 0 <= i < |c.axes| ==>
      c.axes[i].kind == Bands || c.axes[i].kind == Temporal || c.axes[i].name == yDim || c.axes[i].name == xDim
    requires exists i :: 0 <= i < |c.axes| && (c.axes[i].kind == Bands || c.axes[i].kind == Temporal)
    requires forall i :: 0 <= i < |c.axes| && (c.axes[i].kind == Bands || c.axes[i].kind == Temporal) ==>
      c.axes[i].name in c.coords && Restorable(c.axes[i])
    ensures var r := ReprojectCubeMatch(c, warp, target);
      && r.Success?
      && Names(r.value.axes) == Names(c.axes)
      && forall i :: 0 <= i < |c.axes| ==>
           r.value.axes[i] ==
             if c.axes[i].name == yDim then c.axes[i].(labels := warp.plane(AxisNamed(c, yDim), AxisNamed(c, xDim)).0)
             else if c.axes[i].name == xDim then c.axes[i].(labels := warp.plane(AxisNamed(c, yDim), AxisNamed(c, xDim)).1)
             else c.axes[i]
  {
    var nonSpatial := MatchFacts(c, yDim, xDim);
    StackWarpUnstackRoundTrip(c, nonSpatial, yDim, xDim, warp, target);
    MatchIsSkeleton(c, warp, target, yDim, xDim);
  }

  /** Past its checks, the match reprojection is the skeleton on the band and temporal dimensions. */
  lemma MatchIsSkeleton(c: Cube, warp: Warp, target: Crs, yDim: string, xDim: string)
    requires Valid(c) && Unified !in Names(c.axes)
    requires FirstOfKind(c, SpatialY) == Some(yDim) && FirstOfKind(c, SpatialX) == Some(xDim)
    requires FirstWithoutCoords(MatchNonSpatial(c), c.coords).None? && MatchNonSpatial(c) != []
    ensures ReprojectCubeMatch(c, warp, target) == StackWarpUnstack(c, MatchNonSpatial(c), yDim, xDim, warp, target)
  {
  }

  lemma MatchFacts(c: Cube, yDim: string, xDim: string) returns (nonSpatial: seq<string>)
    requires Valid(c)
    requires FirstOfKind(c, SpatialY) == Some(yDim) && FirstOfKind(c, SpatialX) == Some(xDim)
    requires forall i :: 0 <= i < |c.axes| ==>
      c.axes[i].kind == Bands || c.axes[i].kind == Temporal || c.axes[i].name == yDim || c.axes[i].name == xDim
    requires exists i :: 0 <= i < |c.axes| && (c.axes[i].kind == Bands || c.axes[i].kind == Temporal)
    requires forall i :: 0 <= i < |c.axes| && (c.axes[i].kind == Bands || c.axes[i].kind == Temporal) ==>
      c.axes[i].name in c.coords && Restorable(c.axes[i])
    ensures nonSpatial == MatchNonSpatial(c) && nonSpatial != []
    ensures NoDuplicates(nonSpatial) && forall i :: 0 <= i < |nonSpatial| ==> nonSpatial[i] in Names(c.axes)
    ensures yDim != xDim && yDim in Names(c.axes) && xDim in Names(c.axes) && yDim !in nonSpatial && xDim !in nonSpatial
    ensures forall i :: 0 <= i < |c.axes| ==> c.axes[i].name in nonSpatial || c.axes[i].name == yDim || c.axes[i].name == xDim
    ensures forall i :: 0 <= i < |nonSpatial| ==> Restorable(AxisNamed(c, nonSpatial[i]))
    ensures FirstWithoutCoords(nonSpatial, c.coords).None?
  {
    nonSpatial := MatchNonSpatial(c);
    MatchSpatial(c, yDim, xDim);
    MatchCovers(c);
    var i0 :| 0 <= i0 < |c.axes| && (c.axes[i0].kind == Bands || c.axes[i0].kind == Temporal);
    assert c.axes[i0].name in nonSpatial;
    MatchRestorable(c);
  }

  /** The first y and first x dimensions are two different dimensions, neither of them stacked. */
  lemma MatchSpatial(c: Cube, yDim: string, xDim: string)
    requires Valid(c)
    requires FirstOfKind(c, SpatialY) == Some(yDim) && FirstOfKind(c, SpatialX) == Some(xDim)
    ensures yDim != xDim && yDim in Names(c.axes) && xDim in Names(c.axes)
    ensures yDim !in MatchNonSpatial(c) && xDim !in MatchNonSpatial(c)
  {
    NamesOfKindInCube(c, SpatialY);
    NamesOfKindInCube(c, SpatialX);
    assert yDim in NamesOfKind(c.axes, SpatialY) && xDim in NamesOfKind(c.axes, SpatialX);
    assert AxisNamed(c, yDim).kind == SpatialY && AxisNamed(c, xDim).kind == SpatialX;
  }

  /** Every band and temporal dimension is stacked. */
  lemma MatchCovers(c: Cube)
    requires Valid(c)
    ensures forall i :: 0 <= i < |c.axes| && (c.axes[i].kind == Bands || c.axes[i].kind == Temporal) ==>
      c.axes[i].name in MatchNonSpatial(c)
  {
    NamesOfKindInCube(c, Bands);
    NamesOfKindInCube(c, Temporal);
    forall i | 0 <= i < |c.axes| && (c.axes[i].kind == Bands || c.axes[i].kind == Temporal)
      ensures c.axes[i].name in MatchNonSpatial(c)
    {
      assert c.axes[i].name in BandDims(c) || c.axes[i].name in TemporalDims(c);
    }
  }

  /** The stacked dimensions inherit what holds of every band and temporal axis. */
  lemma MatchRestorable(c: Cube)
    requires Valid(c)
    requires forall i :: 0 <= i < |c.axes| && (c.axes[i].kind == Bands || c.axes[i].kind == Temporal) ==>
      c.axes[i].name in c.coords && Restorable(c.axes[i])
    ensures forall k :: 0 <= k < |MatchNonSpatial(c)| ==>
      MatchNonSpatial(c)[k] in c.coords && Restorable(AxisNamed(c, MatchNonSpatial(c)[k]))
  {
    var nonSpatial := MatchNonSpatial(c);
    forall k | 0 <= k < |nonSpatial|
      ensures nonSpatial[k] in c.coords && Restorable(AxisNamed(c, nonSpatial[k]))
    {
      var j := IndexOf(Names(c.axes), nonSpatial[k]);
      assert c.axes[j] == AxisNamed(c, nonSpatial[k]);
    }
  }

  /**
   * Only band and temporal dimensions are stacked, so any other dimension
   * besides the cube's y and x makes the transpose before the warp fail.
   */
  lemma ReprojectMatchOtherDimensionFails(c: Cube, warp: Warp, target: Crs, j: nat)
    requires Valid(c) && j < |c.axes|
    requires c.axes[j].kind != Bands && c.axes[j].kind != Temporal
    requires FirstOfKind(c, SpatialY) != Some(c.axes[j].name) && FirstOfKind(c, SpatialX) != Some(c.axes[j].name)
    ensures ReprojectCubeMatch(c, warp, target).Failure?
  {
    var nonSpatial := MatchNonSpatial(c);
    var o := c.axes[j].name;
    AxisNamedAt(c, j);
    assert o !in nonSpatial;
    if FirstWithoutCoords(nonSpatial, c.coords).None? && Unified !in Names(c.axes) && nonSpatial != []
      && FirstOfKind(c, SpatialY).Some? && FirstOfKind(c, SpatialX).Some?
    {
      var y, x := FirstOfKind(c, SpatialY).value, FirstOfKind(c, SpatialX).value;
      assert y in NamesOfKind(c.axes, SpatialY) && x in NamesOfKind(c.axes, SpatialX);
      var plane := Stack(c, nonSpatial).0;
      assert o in Names(c.axes);
      assert o in Names(plane.axes);
      TransposeThirdNameFails(plane, y, x, o);
      assert ReprojectCubeMatch(c, warp, target) == StackWarpUnstack(c, nonSpatial, y, x, warp, target);
    }
  }

  /** A plane holding a dimension other than `y` and `x` cannot be transposed to `(y, x)`. */
  lemma TransposeThirdNameFails(plane: Cube, y: string, x: string, o: string)
    requires Valid(plane) && o in Names(plane.axes) && o != y && o != x
    ensures Transpose(plane, [y, x]).Failure?
  {
    TwoNamesOnly(Names(plane.axes), [y, x], o);
  }

  lemma TwoNamesOnly(ns: seq<string>, order: seq<string>, o: string)
    requires |order| == 2 && o in ns && o !in order
    ensures !(|order| == |ns| && NoDuplicates(order) && forall n :: n in order ==> n in ns)
  {
    if |ns| == 2 {
      assert ns == [ns[0], ns[1]];
      assert order[0] in order && order[1] in order;
    }
  }
}
