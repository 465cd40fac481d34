/**
 * The time axis helpers of geospatial_utils.py: `filter_by_time` and
 * `remove_repeated_time_coords`, stated over a cube seen along its time
 * dimension (a series of timestamp labels with their slices).
 */
module TimeAxis {
  import opened Wrappers
  import opened Labels
  import opened Cubes

  // ---------------------------------------------------------------------------
  // filter_by_time

  /** The largest label of a non-empty sequence (`sorted(ts)[-1]`). */
  function MaxLabel(xs: seq<Label>): (m: Label)
    requires xs != []
    ensures m in xs
    ensures forall i :: 0 <= i < |xs| ==> Le(xs[i], m)
  {
    if |xs| == 1 then xs[0]
    else
      var rest := MaxLabel(xs[1..]);
      assert forall i :: 1 <= i < |xs| ==> xs[i] == xs[1..][i - 1];
      if Lt(rest, xs[0]) then
        forall i | 1 <= i < |xs| ensures Le(xs[i], xs[0]) {
          if Lt(xs[i], rest) { LtTransitive(xs[i], rest, xs[0]); }
        }
        xs[0]
      else
        assert Le(xs[0], rest) by {
          if xs[0] != rest { LtTotal(xs[0], rest); }
        }
        rest
  }

  predicate Within(t: Label, start: Label, end: Label) {
    Le(start, t) && Le(t, end)
  }

  /** The entries whose label lies between `start` and `end`, both included, in order. */
  function Between<V>(series: Series<V>, start: Label, end: Label): (r: Series<V>)
    ensures |r| <= |series|
    ensures forall i :: 0 <= i < |r| ==> r[i] in series && Within(r[i].0, start, end)
    ensures forall i :: 0 <= i < |series| && Within(series[i].0, start, end) ==> series[i] in r
    decreases |series|
  {
    if series == [] then []
    else
      var init := series[..|series| - 1];
      var last := series[|series| - 1];
      assert forall i :: 0 <= i < |init| ==> series[i] == init[i];
      var r := Between(init, start, end);
      if Within(last.0, start, end) then r + [last] else r
  }

  /**
   * Between is a stable filter: it works piece by piece on a split series, and
   * on one entry it keeps that entry exactly when its label is in range.
   */
  lemma {:induction false} BetweenAppend<V>(a: Series<V>, b: Series<V>, start: Label, end: Label)
    ensures Between(a + b, start, end) == Between(a, start, end) + Between(b, start, end)
    decreases |b|
  {
    if b == [] {
      RightUnit(a);
      RightUnit(Between(a, start, end));
    } else {
      var init, last := b[..|b| - 1], b[|b| - 1];
      SnocSplit(b);
      BetweenAppend(a, init, start, end);
      BetweenAppendLast(a, init, last, start, end);
    }
  }

  lemma RightUnit<T>(x: seq<T>)
    ensures x + [] == x
  {
  }

  lemma SnocSplit<T>(x: seq<T>)
    requires x != []
    ensures x == x[..|x| - 1] + [x[|x| - 1]]
  {
  }

  lemma BetweenAppendLast<V>(a: Series<V>, init: Series<V>, last: (Label, Slice<V>), start: Label, end: Label)
    requires Between(a + init, start, end) == Between(a, start, end) + Between(init, start, end)
    ensures Between(a + (init + [last]), start, end) == Between(a, start, end) + Between(init + [last], start, end)
  {
    var keep := if Within(last.0, start, end) then [last] else [];
    Associative(a, init, [last]);
    BetweenSnoc(a + init, last, start, end);
    BetweenSnoc(init, last, start, end);
    Associative(Between(a, start, end), Between(init, start, end), keep);
  }

  lemma Associative<T>(x: seq<T>, y: seq<T>, z: seq<T>)
    ensures x + (y + z) == (x + y) + z
  {
  }

  lemma BetweenSnoc<V>(s: Series<V>, e: (Label, Slice<V>), start: Label, end: Label)
    ensures Between(s + [e], start, end) == Between(s, start, end) + (if Within(e.0, start, end) then [e] else [])
  {
    assert (s + [e])[..|s|] == s;
  }

  lemma BetweenSingle<V>(e: (Label, Slice<V>), start: Label, end: Label)
    ensures Between([e], start, end) == if Within(e.0, start, end) then [e] else []
  {
    assert [e][..0] == [];
  }

  /** Keeping a range of a sorted series leaves it sorted. */
  lemma {:induction false} BetweenSorted<V>(series: Series<V>, start: Label, end: Label)
    requires NonDecreasing(LabelsOf(series))
    ensures NonDecreasing(LabelsOf(Between(series, start, end)))
    decreases |series|
  {
    if series != [] {
      var init := series[..|series| - 1];
      var last := series[|series| - 1];
      assert LabelsOf(init) == LabelsOf(series)[..|init|];
      BetweenSorted(init, start, end);
      var r := Between(init, start, end);
      if Within(last.0, start, end) {
        forall i | 0 <= i < |r| ensures Le(r[i].0, last.0) {
          var k :| 0 <= k < |init| && init[k] == r[i];
          assert LabelsOf(series)[k] == r[i].0;
        }
        var rr := r + [last];
        forall i, j | 0 <= i < j < |rr| ensures Le(LabelsOf(rr)[i], LabelsOf(rr)[j]) {
          if j < |r| {
            assert LabelsOf(rr)[i] == LabelsOf(r)[i] && LabelsOf(rr)[j] == LabelsOf(r)[j];
          }
        }
      }
    }
  }

  /**
   * `filter_by_time`: the time axis must not be empty; an open end stands for
   * the latest timestamp; the result keeps every entry whose timestamp lies
   * between start and end, both included, in the original order.
   */
  function FilterByTime<V>(series: Series<V>, start: Label, end: Option<Label>): (r: Result<Series<V>, Error>)
    requires NonDecreasing(LabelsOf(series))
    ensures r.Failure? <==> series == []
    ensures r.Failure? ==> r.error == AssertionFailed
    ensures r.Success? ==> NonDecreasing(LabelsOf(r.value))
    ensures r.Success? ==> forall i :: 0 <= i < |series| ==>
      (series[i] in r.value <== Within(series[i].0, start, end.GetOr(MaxLabel(LabelsOf(series)))))
    ensures r.Success? ==> forall i :: 0 <= i < |r.value| ==>
      r.value[i] in series && Within(r.value[i].0, start, end.GetOr(MaxLabel(LabelsOf(series))))
    ensures r.Success? ==> r.value == Between(series, start, end.GetOr(MaxLabel(LabelsOf(series))))
  {
    if series == [] then Failure(AssertionFailed)
    else
      var last := if end.None? then MaxLabel(LabelsOf(series)) else end.value;
      BetweenSorted(series, start, last);
      Success(Between(series, start, last))
  }

  /** With an open end, exactly the entries at or after `start` are kept. */
  lemma FilterOpenEnd<V>(series: Series<V>, start: Label)
    requires NonDecreasing(LabelsOf(series)) && series != []
    ensures forall i :: 0 <= i < |series| ==>
      (series[i] in FilterByTime(series, start, None).value <==> Le(start, series[i].0))
  {
    var m := MaxLabel(LabelsOf(series));
    forall i | 0 <= i < |series| ensures Le(series[i].0, m) {
      assert LabelsOf(series)[i] == series[i].0;
    }
    var r := FilterByTime(series, start, None).value;
    forall i | 0 <= i < |series| && series[i] in r ensures Le(start, series[i].0) {
      var k :| 0 <= k < |r| && r[k] == series[i];
    }
  }

  // ---------------------------------------------------------------------------
  // remove_repeated_time_coords

  /** xarray's `a.combine_first(b)`: a's cell where it has data, b's otherwise. */
  function CombineFirst<V>(a: Slice<V>, b: Slice<V>): (r: Slice<V>)
    requires |a| == |b|
    ensures |r| == |a|
    ensures forall k :: 0 <= k < |a| ==> r[k] == if a[k].Some? then a[k] else b[k]
  {
    seq(|a|, k requires 0 <= k < |a| => if a[k].Some? then a[k] else b[k])
  }

  /**
   * The slice built for timestamp `t`: its slices in input order, each folded
   * in with `combine_first`; `None` when `t` does not occur.
   */
  function Merged<V>(series: Series<V>, t: Label, w: nat): (r: Option<Slice<V>>)
    requires Rectangular(series, w)
    ensures r.Some? <==> t in LabelsOf(series)
    ensures r.Some? ==> |r.value| == w
    decreases |series|
  {
    if series == [] then None
    else
      var init := series[..|series| - 1];
      var last := series[|series| - 1];
      assert LabelsOf(series) == LabelsOf(init) + [last.0];
      var m := Merged(init, t, w);
      if last.0 != t then m
      else if m.None? then Some(last.1)
      else Some(CombineFirst(m.value, last.1))
  }

  /** The first non-missing value at cell `k` among the slices labelled `t`, in input order. */
  function FirstPresent<V>(series: Series<V>, t: Label, k: nat): Option<V>
    decreases |series|
  {
    if series == [] then None
    else if series[0].0 == t && k < |series[0].1| && series[0].1[k].Some? then series[0].1[k]
    else FirstPresent(series[1..], t, k)
  }

  lemma {:induction false} FirstPresentSnoc<V>(init: Series<V>, last: (Label, Slice<V>), t: Label, k: nat)
    ensures FirstPresent(init + [last], t, k) ==
      if FirstPresent(init, t, k).Some? then FirstPresent(init, t, k)
      else if last.0 == t && k < |last.1| && last.1[k].Some? then last.1[k]
      else None
    decreases |init|
  {
    if init == [] {
      assert ([last])[1..] == [];
    } else {
      assert (init + [last])[1..] == init[1..] + [last];
      FirstPresentSnoc(init[1..], last, t, k);
    }
  }

  /**
   * Each cell of a merged slice is the first non-missing value among that
   * timestamp's slices, in input order; missing only when all of them are.
   */
  lemma {:induction false} MergedFirstPresent<V>(series: Series<V>, t: Label, w: nat, k: nat)
    requires Rectangular(series, w) && t in LabelsOf(series) && k < w
    ensures Merged(series, t, w).value[k] == FirstPresent(series, t, k)
    decreases |series|
  {
    var init := series[..|series| - 1];
    var last := series[|series| - 1];
    assert series == init + [last];
    assert LabelsOf(series) == LabelsOf(init) + [last.0];
    FirstPresentSnoc(init, last, t, k);
    if t in LabelsOf(init) {
      MergedFirstPresent(init, t, w, k);
    } else {
      FirstPresentAbsent(init, t, k);
    }
  }

  lemma {:induction false} FirstPresentAbsent<V>(series: Series<V>, t: Label, k: nat)
    requires t !in LabelsOf(series)
    ensures FirstPresent(series, t, k).None?
    decreases |series|
  {
    if series != [] {
      assert LabelsOf(series)[0] == series[0].0;
      assert LabelsOf(series[1..]) == LabelsOf(series)[1..];
      FirstPresentAbsent(series[1..], t, k);
    }
  }

  /**
   * The general path of `remove_repeated_time_coords`: one entry per distinct
   * timestamp, in first-occurrence order, holding that timestamp's merged slice.
   */
  function Deduplicated<V>(series: Series<V>, w: nat): (r: Series<V>)
    requires Rectangular(series, w)
    ensures LabelsOf(r) == Distinct(LabelsOf(series))
    ensures Rectangular(r, w)
  {
    var keys := Distinct(LabelsOf(series));
    DistinctProperties(LabelsOf(series));
    assert forall j :: 0 <= j < |keys| ==> keys[j] in Elems(LabelsOf(series));
    seq(|keys|, j requires 0 <= j < |keys| && keys[j] in LabelsOf(series) => (keys[j], Merged(series, keys[j], w).value))
  }

  /** When no timestamp repeats, the general path gives the series back unchanged. */
  lemma DeduplicatedOfDistinct<V>(series: Series<V>, w: nat)
    requires Rectangular(series, w) && NoDuplicates(LabelsOf(series))
    ensures Deduplicated(series, w) == series
  {
    DistinctOfNoDuplicates(LabelsOf(series));
    var r := Deduplicated(series, w);
    forall j | 0 <= j < |series| ensures r[j] == series[j] {
      MergedSingle(series, w, j);
    }
  }

  lemma {:induction false} MergedSingle<V>(series: Series<V>, w: nat, j: nat)
    requires Rectangular(series, w) && NoDuplicates(LabelsOf(series)) && j < |series|
    ensures Merged(series, series[j].0, w) == Some(series[j].1)
    decreases |series|
  {
    var init := series[..|series| - 1];
    var last := series[|series| - 1];
    var t := series[j].0;
    assert LabelsOf(init) == LabelsOf(series)[..|init|];
    if j < |init| {
      assert init[j] == series[j];
      MergedSingle(init, w, j);
      assert LabelsOf(series)[j] != LabelsOf(series)[|series| - 1];
    } else {
      assert t !in LabelsOf(init) by {
        forall i | 0 <= i < |init| ensures LabelsOf(init)[i] != t {
          assert LabelsOf(series)[i] != LabelsOf(series)[j];
        }
      }
    }
  }

  lemma MergedSnoc<V>(series: Series<V>, i: nat, w: nat, t: Label)
    requires Rectangular(series, w) && i < |series|
    ensures Merged(series[..i + 1], t, w) ==
      var m := Merged(series[..i], t, w);
      if series[i].0 != t then m
      else if m.None? then Some(series[i].1)
      else Some(CombineFirst(m.value, series[i].1))
  {
    assert series[..i + 1][..i] == series[..i];
  }

  /** One step of the grouping loop keeps the dictionary equal to the merged slices of the entries seen. */
  lemma GroupStep<V>(series: Series<V>, w: nat, i: nat, byTime: map<Label, Slice<V>>)
    requires Rectangular(series, w) && i < |series|
    requires forall t :: t in byTime <==> t in LabelsOf(series)[..i]
    requires forall t :: t in byTime ==> Merged(series[..i], t, w) == Some(byTime[t])
    requires forall t :: t in byTime ==> |byTime[t]| == w
    ensures var t, slice := series[i].0, series[i].1;
      var next := if t in byTime then byTime[t := CombineFirst(byTime[t], slice)] else byTime[t := slice];
      && (forall u :: u in next <==> u in LabelsOf(series)[..i + 1])
      && (forall u :: u in next ==> Merged(series[..i + 1], u, w) == Some(next[u]))
  {
    var times := LabelsOf(series);
    assert times[..i + 1] == times[..i] + [series[i].0];
    forall u ensures Merged(series[..i + 1], u, w) ==
      var m := Merged(series[..i], u, w);
      if series[i].0 != u then m else if m.None? then Some(series[i].1) else Some(CombineFirst(m.value, series[i].1))
    {
      MergedSnoc(series, i, w, u);
    }
  }

  /** The loop of `remove_repeated_time_coords`: slices grouped by timestamp in a dictionary. */
  method GroupByTime<V>(series: Series<V>, w: nat) returns (keys: seq<Label>, byTime: map<Label, Slice<V>>)
    requires Rectangular(series, w)
    ensures keys == Distinct(LabelsOf(series))
    ensures forall t :: t in byTime <==> t in LabelsOf(series)
    ensures forall t :: t in byTime ==> Merged(series, t, w) == Some(byTime[t])
  {
    var times := LabelsOf(series);
    keys := [];
    byTime := map[];
    for i := 0 to |series|
      invariant keys == Distinct(times[..i])
      invariant forall t :: t in byTime <==> t in times[..i]
      invariant forall t :: t in byTime ==> Merged(series[..i], t, w) == Some(byTime[t])
    {
      var t, slice := series[i].0, series[i].1;
      assert times[..i + 1] == times[..i] + [t];
      DistinctProperties(times[..i]);
      assert t in Distinct(times[..i]) <==> t in Elems(times[..i]);
      GroupStep(series, w, i, byTime);
      if t in byTime {
        byTime := byTime[t := CombineFirst(byTime[t], slice)];
      } else {
        keys := keys + [t];
        byTime := byTime[t := slice];
      }
    }
    assert series[..|series|] == series && times[..|series|] == times;
  }

  /** The dimension names other than `d`, in order. */
  function Others(dims: seq<string>, d: string): (r: seq<string>)
    ensures forall n :: n in r <==> n in dims && n != d
    ensures NoDuplicates(dims) ==> NoDuplicates(r)
  {
    if dims == [] then []
    else
      var rest := Others(dims[1..], d);
      assert forall n :: n in dims[1..] ==> n in dims;
      assert NoDuplicates(dims) ==> NoDuplicates(dims[1..]) && dims[0] !in rest by {
        if NoDuplicates(dims) {
          assert forall i :: 1 <= i < |dims| ==> dims[i] == dims[1..][i - 1];
        }
      }
      if dims[0] == d then rest else [dims[0]] + rest
  }

  /** Others is a stable filter: it works piece by piece on a split name list. */
  lemma {:induction false} OthersAppend(a: seq<string>, b: seq<string>, d: string)
    ensures Others(a + b, d) == Others(a, d) + Others(b, d)
    decreases |a|
  {
    if a == [] {
      assert a + b == b;
    } else {
      assert (a + b)[1..] == a[1..] + b && (a + b)[0] == a[0];
      OthersAppend(a[1..], b, d);
    }
  }

  /**
   * The dimension order after `xr.concat` along the time dimension the
   * grouped slices no longer have: time first, then the other dimensions in
   * their order.
   */
  function TimeFirst(dims: seq<string>, timeDim: string): (r: seq<string>)
    ensures r != [] && r[0] == timeDim && r[1..] == Others(dims, timeDim)
    ensures timeDim in dims ==> Elems(r) == Elems(dims)
    ensures NoDuplicates(dims) ==> NoDuplicates(r)
  {
    var r := [timeDim] + Others(dims, timeDim);
    assert r[1..] == Others(dims, timeDim);
    r
  }

  /** A time dimension that already leads keeps the order as it is. */
  lemma TimeFirstWhenFirst(dims: seq<string>, timeDim: string)
    requires dims != [] && dims[0] == timeDim && NoDuplicates(dims)
    ensures TimeFirst(dims, timeDim) == dims
  {
    assert forall n :: n in dims[1..] ==> n != timeDim;
    OthersNone(dims[1..], timeDim);
    assert dims == [dims[0]] + dims[1..];
  }

  lemma {:induction false} OthersNone(dims: seq<string>, d: string)
    requires d !in dims
    ensures Others(dims, d) == dims
  {
    if dims != [] {
      assert d !in dims[1..];
      OthersNone(dims[1..], d);
    }
  }

  /** Bands, time, y, x with repeated timestamps comes back as time, bands, y, x. */
  lemma TimeMovesToFront()
    ensures TimeFirst(["bands", "time", "y", "x"], "time") == ["time", "bands", "y", "x"]
  {
    var b, t, y, x := "bands", "time", "y", "x";
    assert b != t && y != t && x != t;
    OthersNone([y, x], t);
    assert [b, t, y, x][1..] == [t, y, x] && [t, y, x][1..] == [y, x];
    assert Others([t, y, x], t) == [y, x];
    assert Others([b, t, y, x], t) == [b, y, x];
  }

  /**
   * `remove_repeated_time_coords`: the time dimension must exist; an array
   * without repeated timestamps is returned as it is; otherwise the slices are
   * grouped by timestamp, merged with `combine_first`, and concatenated in the
   * dictionary's insertion order along the time dimension, which comes first.
   * The result is the dimension order and the series along time.
   */
  method RemoveRepeatedTimeCoords<V>(dims: seq<string>, timeDim: string, series: Series<V>, w: nat)
    returns (r: Result<(seq<string>, Series<V>), Error>)
    requires Rectangular(series, w)
    ensures timeDim !in dims ==> r == Failure(AssertionFailed)
    ensures timeDim in dims && NoDuplicates(LabelsOf(series)) ==> r == Success((dims, series))
    ensures timeDim in dims && !NoDuplicates(LabelsOf(series)) ==> r == Success((TimeFirst(dims, timeDim), Deduplicated(series, w)))
    ensures r.Success? ==> r.value.1 == Deduplicated(series, w)
  {
    if timeDim !in dims {
      return Failure(AssertionFailed);
    }
    var times := LabelsOf(series);
    SetSizeTest(times);
    if |Elems(times)| == |times| {
      DeduplicatedOfDistinct(series, w);
      return Success((dims, series));
    }
    var keys, byTime := GroupByTime(series, w);
    DistinctProperties(times);
    assert forall j :: 0 <= j < |keys| ==> keys[j] in Elems(times);
    var merged := seq(|keys|, j requires 0 <= j < |keys| && keys[j] in byTime => (keys[j], byTime[keys[j]]));
    assert merged == Deduplicated(series, w);
    r := Success((TimeFirst(dims, timeDim), merged));
  }

  /** Every merged cell is the first non-missing value in input order; the general path keeps every timestamp once. */
  lemma DeduplicatedFirstPresent<V>(series: Series<V>, w: nat, j: nat, k: nat)
    requires Rectangular(series, w) && j < |Deduplicated(series, w)| && k < w
    ensures Deduplicated(series, w)[j].1[k] == FirstPresent(series, Deduplicated(series, w)[j].0, k)
    ensures Elems(LabelsOf(Deduplicated(series, w))) == Elems(LabelsOf(series))
  {
    DistinctProperties(LabelsOf(series));
    var t := Deduplicated(series, w)[j].0;
    assert t == LabelsOf(Deduplicated(series, w))[j];
    assert t in Elems(LabelsOf(series));
    MergedFirstPresent(series, t, w, k);
  }
}
