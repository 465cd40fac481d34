/**
 * The raster cube as the driver's label bookkeeping sees it: an ordered list of
 * named dimensions, each with a kind and a label sequence, the set of names that
 * carry coordinate variables, a reference system and the attribute dictionary.
 * Cell values are left out of this record; operations whose meaning depends on
 * them work on a slice view along one dimension (see module TimeAxis).
 */
module Cubes {
  import opened Wrappers
  import opened Labels

  /** What the openEO accessor reports a dimension to be. */
  datatype Kind = SpatialX | SpatialY | Temporal | Bands | Other

  datatype Axis = Axis(name: string, kind: Kind, labels: seq<Label>)

  /** A coordinate reference system: an EPSG code or any other CRS text. */
  datatype Crs = Epsg(code: int) | Wkt(text: string)

  datatype Cube = Cube(axes: seq<Axis>, coords: set<string>, crs: Option<Crs>, attrs: map<string, string>)

  /**
   * The cells of the cube at one label of a dimension, flattened over the other
   * dimensions; `None` is no-data.
   */
  type Slice<V> = seq<Option<V>>

  /** A cube seen along one dimension: each label with its slice, in dimension order. */
  type Series<V> = seq<(Label, Slice<V>)>

  /** The labels of a series, in order. */
  function LabelsOf<V>(s: Series<V>): (r: seq<Label>)
    ensures |r| == |s|
    ensures forall i :: 0 <= i < |s| ==> r[i] == s[i].0
  {
    seq(|s|, i requires 0 <= i < |s| => s[i].0)
  }

  /** Every slice of the series has `w` cells: the series comes from one rectangular array. */
  predicate Rectangular<V>(s: Series<V>, w: nat) {
    forall i :: 0 <= i < |s| ==> |s[i].1| == w
  }

  /** The exceptions the core raises, by the name the source gives them. */
  datatype Error =
    | ProcessParameterInvalid(parameter: string)
    | LabelMismatch
    | LabelNotAvailable
    | RenameConflict(name: string)
    | DimensionNotAvailable
    | TooManyDimensions
    | NotImplemented
    | AssertionFailed
    | KeyError
    | IndexError
    | TypeError
    | InvalidInteger
    | InvalidCrs
    | MissingCoordinates(dim: string)
    | ReservedDimensionConflict
    | TransposeMismatch
    | MissingSpatialDimension
    | UnsupportedResamplingMethod(requested: string)
    | OverlapResolverMissing
    | MergeNotPossible(reason: string)
    | EmptyStack
    | NonUniqueIndex
    | MissingCrs
    | BinningFailed
    | CombineFailed
    | ZeroDivision

  /** The dimension names, in order. */
  function Names(axes: seq<Axis>): (r: seq<string>)
    ensures |r| == |axes|
    ensures forall i :: 0 <= i < |axes| ==> r[i] == axes[i].name
  {
    seq(|axes|, i requires 0 <= i < |axes| => axes[i].name)
  }

  lemma NamesAppend(a: seq<Axis>, b: seq<Axis>)
    ensures Names(a + b) == Names(a) + Names(b)
  {
  }

  /** xarray never lets two dimensions of one array share a name. */
  predicate Valid(c: Cube) {
    NoDuplicates(Names(c.axes))
  }

  function IndexOf(names: seq<string>, n: string): (i: nat)
    requires n in names
    ensures i < |names| && names[i] == n
    ensures forall j :: 0 <= j < i ==> names[j] != n
  {
    if names[0] == n then 0 else 1 + IndexOf(names[1..], n)
  }

  lemma IndexOfUnique(names: seq<string>, n: string, k: nat)
    requires NoDuplicates(names) && k < |names| && names[k] == n
    ensures IndexOf(names, n) == k
  {
  }

  /** The names of the dimensions of kind `k`, in dimension order. */
  function NamesOfKind(axes: seq<Axis>, k: Kind): (r: seq<string>)
    ensures forall n :: n in r ==> n in Names(axes)
    ensures forall i :: 0 <= i < |axes| && axes[i].kind == k ==> axes[i].name in r
  {
    if axes == [] then []
    else (if axes[0].kind == k then [axes[0].name] else []) + NamesOfKind(axes[1..], k)
  }

  /** Every name reported for kind `k` belongs to an axis of kind `k`. */
  lemma {:induction false} NamesOfKindWitness(axes: seq<Axis>, k: Kind, n: string)
    requires n in NamesOfKind(axes, k)
    ensures exists i :: 0 <= i < |axes| && axes[i].name == n && axes[i].kind == k
  {
    if axes[0].kind != k || axes[0].name != n {
      NamesOfKindWitness(axes[1..], k, n);
      var i :| 0 <= i < |axes[1..]| && axes[1..][i].name == n && axes[1..][i].kind == k;
      assert axes[i + 1] == axes[1..][i];
    }
  }

  /** `openeo.temporal_dims` and `openeo.band_dims`. */
  function TemporalDims(c: Cube): seq<string> {
    NamesOfKind(c.axes, Temporal)
  }

  function BandDims(c: Cube): seq<string> {
    NamesOfKind(c.axes, Bands)
  }

  /** `openeo.x_dim` / `openeo.y_dim`: the first spatial dimension of that axis, if any. */
  function FirstOfKind(c: Cube, k: Kind): Option<string> {
    var ns := NamesOfKind(c.axes, k);
    if ns == [] then None else Some(ns[0])
  }

  /** The axis called `n`. */
  function AxisNamed(c: Cube, n: string): Axis
    requires n in Names(c.axes)
  {
    c.axes[IndexOf(Names(c.axes), n)]
  }

  /** The cube with the labels of dimension `n` replaced (xarray's `assign_coords`). */
  function WithLabels(c: Cube, n: string, ls: seq<Label>): (r: Cube)
    requires Valid(c) && n in Names(c.axes)
    ensures Names(r.axes) == Names(c.axes) && Valid(r)
    ensures forall i :: 0 <= i < |c.axes| && c.axes[i].name != n ==> r.axes[i] == c.axes[i]
    ensures forall i :: 0 <= i < |c.axes| && c.axes[i].name == n ==> r.axes[i] == c.axes[i].(labels := ls)
    ensures r.coords == c.coords + {n} && r.crs == c.crs && r.attrs == c.attrs
  {
    var k := IndexOf(Names(c.axes), n);
    assert forall i :: 0 <= i < |c.axes| && c.axes[i].name == n ==> i == k by {
      forall i | 0 <= i < |c.axes| && c.axes[i].name == n ensures i == k {
        IndexOfUnique(Names(c.axes), n, i);
      }
    }
    c.(axes := c.axes[k := c.axes[k].(labels := ls)], coords := c.coords + {n})
  }

  /**
   * xarray's `rename({s: t})` on an array that has dimension `s`: a name that
   * collides with another dimension or coordinate is refused.
   */
  function XrRename(c: Cube, s: string, t: string): (r: Result<Cube, Error>)
    requires s in Names(c.axes)
    ensures r.Failure? <==> t != s && (t in Names(c.axes) || t in c.coords)
    ensures r.Success? ==> |r.value.axes| == |c.axes| && r.value.crs == c.crs && r.value.attrs == c.attrs
    ensures r.Success? ==> forall i :: 0 <= i < |c.axes| ==>
      r.value.axes[i] == if c.axes[i].name == s then c.axes[i].(name := t) else c.axes[i]
    ensures r.Success? ==> r.value.coords == if s in c.coords then c.coords - {s} + {t} else c.coords
    ensures r.Success? && Valid(c) ==> Valid(r.value)
  {
    if t != s && (t in Names(c.axes) || t in c.coords) then Failure(RenameConflict(t))
    else
      var axes := seq(|c.axes|, i requires 0 <= i < |c.axes| =>
        if c.axes[i].name == s then c.axes[i].(name := t) else c.axes[i]);
      Success(c.(axes := axes, coords := if s in c.coords then c.coords - {s} + {t} else c.coords))
  }

  /**
   * xarray's `transpose(*order)`: `order` must list every dimension exactly once;
   * the axes are rearranged into that order.
   */
  function Transpose(c: Cube, order: seq<string>): (r: Result<Cube, Error>)
    requires Valid(c)
    ensures r.Success? <==> |order| == |c.axes| && NoDuplicates(order) && forall n :: n in order ==> n in Names(c.axes)
    ensures r.Success? ==> Names(r.value.axes) == order && Valid(r.value)
    ensures r.Success? ==> forall i :: 0 <= i < |order| ==> r.value.axes[i] == AxisNamed(c, order[i])
    ensures r.Success? ==> r.value.coords == c.coords && r.value.crs == c.crs && r.value.attrs == c.attrs
  {
    if |order| == |c.axes| && NoDuplicates(order) && forall n :: n in order ==> n in Names(c.axes) then
      var axes := seq(|order|, i requires 0 <= i < |order| && order[i] in Names(c.axes) => AxisNamed(c, order[i]));
      assert Names(axes) == order;
      Success(c.(axes := axes))
    else Failure(TransposeMismatch)
  }

  /** Rearranging a cube into its own dimension order gives the cube back. */
  lemma TransposeIdentity(c: Cube)
    requires Valid(c)
    ensures Transpose(c, Names(c.axes)) == Success(c)
  {
    var r := Transpose(c, Names(c.axes)).value;
    forall i | 0 <= i < |c.axes| ensures r.axes[i] == c.axes[i] {
      IndexOfUnique(Names(c.axes), c.axes[i].name, i);
    }
    assert r.axes == c.axes;
  }
}
