/**
 * The dispatch around the temporal aggregators of processes.py: which temporal
 * dimension is used, the bin edges of `aggregate_temporal`, the reducer names
 * it accepts, the calendar periods of `aggregate_temporal_period`, and the
 * dropping of all-no-data bins.
 */
module Temporal {
  import opened Wrappers
  import opened Labels
  import opened Cubes

  // ---------------------------------------------------------------------------
  // Which temporal dimension

  lemma {:induction false} NamesOfKindNone(axes: seq<Axis>, k: Kind)
    ensures NamesOfKind(axes, k) == [] <==> forall i :: 0 <= i < |axes| ==> axes[i].kind != k
  {
    if axes != [] {
      NamesOfKindNone(axes[1..], k);
      if axes[0].kind != k {
        forall i | 0 < i < |axes| ensures axes[i].kind == axes[1..][i - 1].kind {}
      }
    }
  }

  lemma NamesOfKindMany(axes: seq<Axis>, k: Kind)
    ensures (|NamesOfKind(axes, k)| >= 2) <==>
              (exists i, j :: 0 <= i < j < |axes| && axes[i].kind == k && axes[j].kind == k)
  {
    KindCountIsLength(axes, k);
    if KindCount(axes, k) >= 2 {
      var i, j := ManyHasTwo(axes, k);
    }
    if exists i, j :: 0 <= i < j < |axes| && axes[i].kind == k && axes[j].kind == k {
      var i, j :| 0 <= i < j < |axes| && axes[i].kind == k && axes[j].kind == k;
      TwoMakeMany(axes, k, i, j);
    }
  }

  /** How many of the axes are of kind `k`. */
  function KindCount(axes: seq<Axis>, k: Kind): nat {
    if axes == [] then 0 else (if axes[0].kind == k then 1 else 0) + KindCount(axes[1..], k)
  }

  lemma {:induction false} KindCountIsLength(axes: seq<Axis>, k: Kind)
    ensures |NamesOfKind(axes, k)| == KindCount(axes, k)
  {
    if axes != [] {
      KindCountIsLength(axes[1..], k);
    }
  }

  lemma {:induction false} ManyHasTwo(axes: seq<Axis>, k: Kind) returns (i: int, j: int)
    requires KindCount(axes, k) >= 2
    ensures 0 <= i < j < |axes| && axes[i].kind == k && axes[j].kind == k
    decreases |axes|
  {
    var rest := axes[1..];
    if axes[0].kind == k {
      var j' := SomeOfKind(rest, k);
      assert axes[j' + 1] == rest[j'];
      i, j := 0, j' + 1;
    } else {
      var i', j' := ManyHasTwo(rest, k);
      assert axes[i' + 1] == rest[i'] && axes[j' + 1] == rest[j'];
      i, j := i' + 1, j' + 1;
    }
  }

  lemma {:induction false} SomeOfKind(axes: seq<Axis>, k: Kind) returns (j: int)
    requires KindCount(axes, k) >= 1
    ensures 0 <= j < |axes| && axes[j].kind == k
    decreases |axes|
  {
    if axes[0].kind == k {
      j := 0;
    } else {
      var j' := SomeOfKind(axes[1..], k);
      assert axes[j' + 1] == axes[1..][j'];
      j := j' + 1;
    }
  }

  lemma {:induction false} TwoMakeMany(axes: seq<Axis>, k: Kind, i: nat, j: nat)
    requires i < j < |axes| && axes[i].kind == k && axes[j].kind == k
    ensures KindCount(axes, k) >= 2
    decreases |axes|
  {
    var rest := axes[1..];
    assert rest[j - 1].kind == k;
    if i == 0 {
      OneMakesSome(rest, k, j - 1);
    } else {
      TwoMakeMany(rest, k, i - 1, j - 1);
    }
  }

  lemma {:induction false} OneMakesSome(axes: seq<Axis>, k: Kind, j: nat)
    requires j < |axes| && axes[j].kind == k
    ensures KindCount(axes, k) >= 1
    decreases |axes|
  {
    if j > 0 {
      assert axes[1..][j - 1] == axes[j];
      OneMakesSome(axes[1..], k, j - 1);
    }
  }

  /**
   * The dimension an aggregator works on: the one named by the caller, which
   * must exist; otherwise the cube's only temporal dimension.
   */
  function ResolveTemporalDimension(c: Cube, dimension: Option<string>): (r: Result<string, Error>)
    ensures dimension.Some? ==>
      r == if dimension.value in Names(c.axes) then Success(dimension.value) else Failure(DimensionNotAvailable)
    ensures r.Success? ==> r.value in Names(c.axes)
    ensures r.Failure? ==> r.error == DimensionNotAvailable || r.error == TooManyDimensions
  {
    if dimension.Some? then
      if dimension.value in Names(c.axes) then Success(dimension.value) else Failure(DimensionNotAvailable)
    else
      var temporal := TemporalDims(c);
      if temporal == [] then Failure(DimensionNotAvailable)
      else if |temporal| > 1 then Failure(TooManyDimensions)
      else Success(temporal[0])
  }

  /**
   * Without an explicit dimension: no temporal dimension is DimensionNotAvailable,
   * two or more are TooManyDimensions, and otherwise the result is the one
   * dimension of temporal kind.
   */
  lemma ResolveWithoutDimension(c: Cube)
    requires Valid(c)
    ensures var r := ResolveTemporalDimension(c, None);
      && (r == Failure(DimensionNotAvailable) <==> forall i :: 0 <= i < |c.axes| ==> c.axes[i].kind != Temporal)
      && (r == Failure(TooManyDimensions) <==>
            exists i, j :: 0 <= i < j < |c.axes| && c.axes[i].kind == Temporal && c.axes[j].kind == Temporal)
      && (r.Success? ==>
            forall i :: 0 <= i < |c.axes| ==> (c.axes[i].kind == Temporal <==> c.axes[i].name == r.value))
  {
    NamesOfKindNone(c.axes, Temporal);
    NamesOfKindMany(c.axes, Temporal);
    var r := ResolveTemporalDimension(c, None);
    if r.Success? {
      OnlyTemporal(c, r.value);
    }
  }

  lemma OnlyTemporal(c: Cube, t: string)
    requires Valid(c) && TemporalDims(c) == [t]
    ensures forall i :: 0 <= i < |c.axes| ==> (c.axes[i].kind == Temporal <==> c.axes[i].name == t)
  {
    assert t in TemporalDims(c);
    NamesOfKindWitness(c.axes, Temporal, t);
    var k :| 0 <= k < |c.axes| && c.axes[k].name == t && c.axes[k].kind == Temporal;
    forall i | 0 <= i < |c.axes| && c.axes[i].name == t ensures c.axes[i].kind == Temporal {
      IndexOfUnique(Names(c.axes), t, i);
      IndexOfUnique(Names(c.axes), t, k);
    }
  }


  // ---------------------------------------------------------------------------
  // processes._create_bins

  /** A temporal interval; timestamps are already comparable integers. */
  datatype Interval = Interval(start: int, end: int)

  /** Start and end of each interval, in the order the loop appends them. */
  function Endpoints(intervals: seq<Interval>): (r: seq<Label>)
    ensures |r| == 2 * |intervals|
    decreases |intervals|
  {
    if intervals == [] then []
    else
      var last := intervals[|intervals| - 1];
      Endpoints(intervals[..|intervals| - 1]) + [Num(last.start), Num(last.end)]
  }

  /** Every start and every end of the intervals. */
  function EdgeSet(intervals: seq<Interval>): set<Label> {
    (set i | 0 <= i < |intervals| :: Num(intervals[i].start)) + (set i | 0 <= i < |intervals| :: Num(intervals[i].end))
  }

  lemma {:induction false} EndpointsElems(intervals: seq<Interval>)
    ensures Elems(Endpoints(intervals)) == EdgeSet(intervals)
    decreases |intervals|
  {
    if intervals != [] {
      var n := |intervals| - 1;
      var init := intervals[..n];
      EndpointsElems(init);
      assert Elems(Endpoints(intervals)) == EdgeSet(init) + {Num(intervals[n].start), Num(intervals[n].end)};
      forall x | x in EdgeSet(intervals)
        ensures x in EdgeSet(init) + {Num(intervals[n].start), Num(intervals[n].end)}
      {
        if i :| 0 <= i < n && (x == Num(intervals[i].start) || x == Num(intervals[i].end)) {
          assert intervals[i] == init[i];
        }
      }
      forall x | x in EdgeSet(init) ensures x in EdgeSet(intervals) {
        var i :| 0 <= i < n && (x == Num(init[i].start) || x == Num(init[i].end));
        assert init[i] == intervals[i];
      }
    }
  }

  /** The sorted, unrepeated interval endpoints. */
  function Bins(intervals: seq<Interval>): (r: seq<Label>)
    ensures StrictlyIncreasing(r) && Elems(r) == EdgeSet(intervals)
  {
    EndpointsElems(intervals);
    SortUnique(Endpoints(intervals))
  }

  /**
   * The bin edges: every interval start and end, sorted and without repeats
   * (`sorted(list(set(...)))`).
   */
  method CreateBins(intervals: seq<Interval>) returns (bins: seq<Label>)
    ensures StrictlyIncreasing(bins)
    ensures Elems(bins) == EdgeSet(intervals)
    ensures |bins| <= 2 * |intervals|
    ensures bins == Bins(intervals)
  {
    var edges: seq<Label> := [];
    for i := 0 to |intervals|
      invariant edges == Endpoints(intervals[..i])
    {
      assert intervals[..i + 1][..i] == intervals[..i];
      edges := edges + [Num(intervals[i].start), Num(intervals[i].end)];
    }
    assert intervals[..|intervals|] == intervals;
    EndpointsElems(intervals);
    bins := SortUnique(edges);
    SortUniqueLength(edges);
    assert |Elems(edges)| <= |edges| by {
      DistinctProperties(edges);
      NoDuplicatesCard(Distinct(edges));
    }
  }

  /** The bin edges are determined by the set of interval endpoints alone. */
  lemma BinsDetermined(b1: seq<Label>, b2: seq<Label>, i1: seq<Interval>, i2: seq<Interval>)
    requires StrictlyIncreasing(b1) && Elems(b1) == EdgeSet(i1)
    requires StrictlyIncreasing(b2) && Elems(b2) == EdgeSet(i2)
    requires EdgeSet(i1) == EdgeSet(i2)
    ensures b1 == b2
  {
    StrictlyIncreasingUnique(b1, b2);
  }

  // ---------------------------------------------------------------------------
  // Reducer names of aggregate_temporal

  /** A reducer argument: a name, or a callable the function does not accept. */
  datatype ReducerArg = Named(name: string) | Callable

  datatype Builtin = Mean | Max | Min | Median

  /** ASCII lower-casing of one character. */
  function LowerChar(ch: char): (r: char)
    ensures 'A' <= ch <= 'Z' ==> r as int == ch as int + 32
    ensures !('A' <= ch <= 'Z') ==> r == ch
  {
    if 'A' <= ch <= 'Z' then (ch as int + 32) as char else ch
  }

  function ToLower(s: string): (r: string)
    ensures |r| == |s|
    ensures forall i :: 0 <= i < |s| ==> r[i] == LowerChar(s[i])
  {
    seq(|s|, i requires 0 <= i < |s| => LowerChar(s[i]))
  }

  lemma ToLowerIdempotent(s: string)
    ensures ToLower(ToLower(s)) == ToLower(s)
  {
    assert forall i :: 0 <= i < |s| ==> LowerChar(LowerChar(s[i])) == LowerChar(s[i]);
  }

  /** The names each builtin reducer answers to. */
  function Aliases(b: Builtin): seq<string> {
    match b
    case Mean => ["mean", "average", "avg"]
    case Max => ["max", "maximum"]
    case Min => ["min", "minimum"]
    case Median => ["median"]
  }

  /**
   * The builtin a reducer argument selects: a name whose lower-case form is an
   * alias of that builtin. Callables and unknown names are not implemented.
   */
  function SelectReducer(reducer: ReducerArg): (r: Result<Builtin, Error>)
    ensures forall b :: r == Success(b) <==> reducer.Named? && ToLower(reducer.name) in Aliases(b)
    ensures r.Failure? ==> r.error == NotImplemented
  {
    if reducer.Callable? then Failure(NotImplemented)
    else
      var lower := ToLower(reducer.name);
      if lower in ["mean", "average", "avg"] then Success(Mean)
      else if lower in ["max", "maximum"] then Success(Max)
      else if lower in ["min", "minimum"] then Success(Min)
      else if lower in ["median"] then Success(Median)
      else Failure(NotImplemented)
  }

  /** Reducer names are matched without regard to case. */
  lemma SelectReducerCaseInsensitive(name: string)
    ensures SelectReducer(Named(name)) == SelectReducer(Named(ToLower(name)))
  {
    ToLowerIdempotent(name);
  }

  // ---------------------------------------------------------------------------
  // groupby_bins

  /**
   * Bin `i` of `pd.cut` with its defaults is the interval from edge `i`,
   * excluded, to edge `i + 1`, included.
   */
  predicate InBin(t: Label, bins: seq<Label>, i: int) {
    0 <= i < |bins| - 1 && Lt(bins[i], t) && Le(t, bins[i + 1])
  }

  predicate FallsInBin(t: Label, bins: seq<Label>) {
    exists i :: 0 <= i < |bins| - 1 && InBin(t, bins, i)
  }

  /**
   * What `groupby_bins` accepts: labels, when given, are unique and one fewer
   * than the edges, and at least one label of the grouped dimension falls in
   * a bin. Anything else is a ValueError from pandas or xarray.
   */
  predicate Binnable(times: seq<Label>, bins: seq<Label>, labels: Option<seq<Label>>) {
    && (labels.Some? ==> NoDuplicates(labels.value) && |labels.value| == |bins| - 1)
    && exists k :: 0 <= k < |times| && FallsInBin(times[k], bins)
  }

  /** With sorted edges, a label falls in some bin exactly when it lies above the first edge and at most the last. */
  lemma FallsInBinRange(t: Label, bins: seq<Label>)
    requires StrictlyIncreasing(bins)
    ensures FallsInBin(t, bins) <==> |bins| >= 2 && Lt(bins[0], t) && Le(t, bins[|bins| - 1])
  {
    if FallsInBin(t, bins) {
      var i :| 0 <= i < |bins| - 1 && InBin(t, bins, i);
      if i > 0 {
        LtTransitive(bins[0], bins[i], t);
      }
      if i + 1 < |bins| - 1 && t != bins[i + 1] {
        LtTransitive(t, bins[i + 1], bins[|bins| - 1]);
      }
    }
    if |bins| >= 2 && Lt(bins[0], t) && Le(t, bins[|bins| - 1]) {
      var i := LastBelow(t, bins);
      assert InBin(t, bins, i);
    }
  }

  /** The last edge below `t`, when the first edge is below `t` and the last is not. */
  lemma {:induction false} LastBelow(t: Label, bins: seq<Label>) returns (i: int)
    requires |bins| >= 2 && Lt(bins[0], t) && Le(t, bins[|bins| - 1])
    ensures 0 <= i < |bins| - 1 && Lt(bins[i], t) && Le(t, bins[i + 1])
    decreases |bins|
  {
    if Le(t, bins[1]) {
      i := 0;
    } else {
      assert Lt(bins[1], t) by {
        if t != bins[1] { LtTotal(t, bins[1]); }
      }
      var j := LastBelow(t, bins[1..]);
      i := j + 1;
    }
  }

  /** Fewer than two edges make no bin at all, so grouping fails whatever the labels. */
  lemma TooFewEdges(times: seq<Label>, bins: seq<Label>, labels: Option<seq<Label>>)
    requires |bins| < 2
    ensures !Binnable(times, bins, labels)
  {
  }

  // ---------------------------------------------------------------------------
  // aggregate_temporal

  /**
   * What aggregate_temporal settles before any numerics: the dimension, the bin
   * edges, the bin labels and the reducer, with the errors in the order the
   * source raises them.
   */
  datatype Aggregation = Aggregation(dimension: string, bins: seq<Label>, labels: Option<seq<Label>>, reducer: Builtin)

  method AggregateTemporal(
    c: Cube, intervals: seq<Interval>, reducer: ReducerArg, labels: Option<seq<Label>>, dimension: Option<string>)
    returns (r: Result<Aggregation, Error>)
    ensures ResolveTemporalDimension(c, dimension).Failure? ==>
      r == Failure(ResolveTemporalDimension(c, dimension).error)
    ensures ResolveTemporalDimension(c, dimension).Success? ==>
      var times := AxisNamed(c, ResolveTemporalDimension(c, dimension).value).labels;
      && (!Binnable(times, Bins(intervals), labels) ==> r == Failure(BinningFailed))
      && (Binnable(times, Bins(intervals), labels) && SelectReducer(reducer).Failure? ==> r == Failure(NotImplemented))
      && (Binnable(times, Bins(intervals), labels) && SelectReducer(reducer).Success? ==> r.Success?)
    ensures r.Success? ==>
      && r.value.dimension == ResolveTemporalDimension(c, dimension).value
      && Success(r.value.reducer) == SelectReducer(reducer)
      && r.value.labels == labels
      && StrictlyIncreasing(r.value.bins) && Elems(r.value.bins) == EdgeSet(intervals)
  {
    var dim := ResolveTemporalDimension(c, dimension);
    if dim.Failure? {
      return Failure(dim.error);
    }
    var bins := CreateBins(intervals);
    if !Binnable(AxisNamed(c, dim.value).labels, bins, labels) {
      return Failure(BinningFailed);
    }
    var b := SelectReducer(reducer);
    if b.Failure? {
      return Failure(b.error);
    }
    r := Success(Aggregation(dim.value, bins, labels, b.value));
  }

  /** No intervals at all: grouping fails before an unknown reducer name is looked at. */
  lemma NoIntervalsFailBinning(c: Cube, dimension: Option<string>)
    requires ResolveTemporalDimension(c, dimension).Success?
    ensures var times := AxisNamed(c, ResolveTemporalDimension(c, dimension).value).labels;
      !Binnable(times, Bins([]), None) && SelectReducer(Named("sum")).Failure?
  {
    assert Endpoints([]) == [];
    assert ToLower("sum") == "sum";
  }

  // ---------------------------------------------------------------------------
  // aggregate_temporal_period

  datatype Period = Hour | Day | Week | Month | Season | Year

  function PeriodName(p: Period): string {
    match p
    case Hour => "hour"
    case Day => "day"
    case Week => "week"
    case Month => "month"
    case Season => "season"
    case Year => "year"
  }

  /** The pandas offset alias of a period. */
  function Frequency(p: Period): string {
    match p
    case Hour => "H"
    case Day => "D"
    case Week => "W"
    case Month => "M"
    case Season => "QS-DEC"
    case Year => "AS"
  }

  /** Only the six period names are accepted, exactly as written. */
  function ParsePeriod(s: string): (r: Result<Period, Error>)
    ensures forall p :: r == Success(p) <==> PeriodName(p) == s
    ensures r.Failure? ==> r.error == NotImplemented
  {
    if s == "hour" then Success(Hour)
    else if s == "day" then Success(Day)
    else if s == "week" then Success(Week)
    else if s == "month" then Success(Month)
    else if s == "season" then Success(Season)
    else if s == "year" then Success(Year)
    else Failure(NotImplemented)
  }

  /** Different periods resample at different frequencies. */
  lemma FrequencyInjective(p: Period, q: Period)
    ensures Frequency(p) == Frequency(q) ==> p == q
  {
  }

  predicate AllMissing<V>(s: Slice<V>) {
    forall i :: 0 <= i < |s| ==> s[i].None?
  }

  /** `dropna(how="all")` along the series' dimension: drop the labels whose slice is entirely no-data. */
  function DropAllMissing<V>(series: Series<V>): (r: Series<V>)
    ensures |r| <= |series|
    ensures forall i :: 0 <= i < |r| ==> r[i] in series && !AllMissing(r[i].1)
    ensures forall i :: 0 <= i < |series| && !AllMissing(series[i].1) ==> series[i] in r
    decreases |series|
  {
    if series == [] then []
    else
      var init := DropAllMissing(series[..|series| - 1]);
      var last := series[|series| - 1];
      assert forall i :: 0 <= i < |series| - 1 ==> series[i] == series[..|series| - 1][i];
      if AllMissing(last.1) then init else init + [last]
  }

  /**
   * DropAllMissing is a stable filter: it works piece by piece on a split
   * series, and on one entry it keeps that entry exactly when it has data.
   */
  lemma {:induction false} DropAllMissingAppend<V>(a: Series<V>, b: Series<V>)
    ensures DropAllMissing(a + b) == DropAllMissing(a) + DropAllMissing(b)
    decreases |b|
  {
    if b == [] {
      assert a + b == a;
    } else {
      var init := b[..|b| - 1];
      assert (a + b)[..|a + b| - 1] == a + init;
      assert (a + b)[|a + b| - 1] == b[|b| - 1];
      DropAllMissingAppend(a, init);
    }
  }

  lemma DropAllMissingSingle<V>(e: (Label, Slice<V>))
    ensures DropAllMissing([e]) == if AllMissing(e.1) then [] else [e]
  {
    assert [e][..0] == [];
  }

  /** Dropping all-no-data labels twice drops nothing more. */
  lemma {:induction false} DropAllMissingIdempotent<V>(series: Series<V>)
    ensures DropAllMissing(DropAllMissing(series)) == DropAllMissing(series)
    decreases |series|
  {
    if series != [] {
      var init := series[..|series| - 1];
      var last := series[|series| - 1];
      DropAllMissingIdempotent(init);
      var d := DropAllMissing(init);
      if !AllMissing(last.1) {
        assert (d + [last])[..|d|] == d;
      }
    }
  }

  /** A series with no all-no-data slice is kept whole. */
  lemma {:induction false} DropAllMissingKeeps<V>(series: Series<V>)
    requires forall i :: 0 <= i < |series| ==> !AllMissing(series[i].1)
    ensures DropAllMissing(series) == series
    decreases |series|
  {
    if series != [] {
      var init := series[..|series| - 1];
      DropAllMissingKeeps(init);
      assert init + [series[|series| - 1]] == series;
    }
  }

  /**
   * aggregate_temporal_period: resolve the dimension, map the period to its
   * frequency, resample and reduce (`resampleReduce`, opaque: pandas
   * resampling and the caller's reducer), then drop the all-no-data bins.
   * Resampling needs a datetime index: a dimension that is not temporal,
   * which the caller may name explicitly, is refused with a TypeError.
   * `along` is the cube seen along a named dimension.
   */
  function AggregateTemporalPeriod<V>(
    c: Cube, along: string -> Series<V>, resampleReduce: (Series<V>, string) -> Series<V>,
    period: string, dimension: Option<string>): (r: Result<Series<V>, Error>)
    ensures r.Success? <==>
      && ResolveTemporalDimension(c, dimension).Success? && ParsePeriod(period).Success?
      && AxisNamed(c, ResolveTemporalDimension(c, dimension).value).kind == Temporal
    ensures ResolveTemporalDimension(c, dimension).Failure? ==> r == Failure(ResolveTemporalDimension(c, dimension).error)
    ensures ResolveTemporalDimension(c, dimension).Success? && ParsePeriod(period).Failure? ==> r == Failure(NotImplemented)
    ensures (&& ResolveTemporalDimension(c, dimension).Success? && ParsePeriod(period).Success?
             && AxisNamed(c, ResolveTemporalDimension(c, dimension).value).kind != Temporal) ==>
      r == Failure(TypeError)
    ensures r.Success? ==> forall i :: 0 <= i < |r.value| ==> !AllMissing(r.value[i].1)
    ensures r.Success? ==> forall i :: 0 <= i < |r.value| ==>
      r.value[i] in resampleReduce(along(ResolveTemporalDimension(c, dimension).value), Frequency(ParsePeriod(period).value))
    ensures r.Success? ==>
      r.value == DropAllMissing(resampleReduce(along(ResolveTemporalDimension(c, dimension).value), Frequency(ParsePeriod(period).value)))
  {
    var dim :- ResolveTemporalDimension(c, dimension);
    var p :- ParsePeriod(period);
    if AxisNamed(c, dim).kind != Temporal then Failure(TypeError)
    else Success(DropAllMissing(resampleReduce(along(dim), Frequency(p))))
  }

  /**
   * Naming a dimension that is not temporal, the band dimension say, passes
   * the dimension check and is then refused by the resampling.
   */
  lemma AggregateAlongBandsRefused<V>(
    c: Cube, along: string -> Series<V>, resampleReduce: (Series<V>, string) -> Series<V>, i: nat)
    requires Valid(c) && i < |c.axes| && c.axes[i].kind == Bands
    ensures AggregateTemporalPeriod(c, along, resampleReduce, "month", Some(c.axes[i].name)) == Failure(TypeError)
  {
    IndexOfUnique(Names(c.axes), c.axes[i].name, i);
  }
}
