/**
 * The label and parameter logic of the two resampling processes:
 * `resample_spatial` (choose the target CRS, the rasterio resampling method
 * and either a target resolution or a target shape, then `reproject_cube`)
 * and `resample_cube_spatial` (bring the cube into (bands, time, y, x) order,
 * check the method against the openEO list, `_reproject_cube_match` onto the
 * target cube, restore the dimension order and copy the attributes back).
 * Extents and resolutions are reals; the pixel warp itself is opaque.
 */
module Resample {
  import opened Wrappers
  import opened Labels
  import opened Cubes
  import opened Temporal
  import opened Reprojection

  // ---------------------------------------------------------------------------
  // rasterio's resampling methods

  /** The members of rasterio's `Resampling` enumeration. */
  datatype Method =
    | Nearest | Bilinear | Cubic | CubicSpline | Lanczos | Average | Mode | Gauss
    | Maximum | Minimum | Med | Q1 | Q3 | Sum | Rms

  /** The member's name in the enumeration. */
  function MemberName(m: Method): string {
    match m
    case Nearest => "nearest"
    case Bilinear => "bilinear"
    case Cubic => "cubic"
    case CubicSpline => "cubic_spline"
    case Lanczos => "lanczos"
    case Average => "average"
    case Mode => "mode"
    case Gauss => "gauss"
    case Maximum => "max"
    case Minimum => "min"
    case Med => "med"
    case Q1 => "q1"
    case Q3 => "q3"
    case Sum => "sum"
    case Rms => "rms"
  }

  /** Looking a member up by name (`Resampling[name]`, or a scan of the members by name). */
  function MemberNamed(name: string): (r: Option<Method>)
    ensures forall m :: r == Some(m) <==> MemberName(m) == name
  {
    if name == "nearest" then Some(Nearest)
    else if name == "bilinear" then Some(Bilinear)
    else if name == "cubic" then Some(Cubic)
    else if name == "cubic_spline" then Some(CubicSpline)
    else if name == "lanczos" then Some(Lanczos)
    else if name == "average" then Some(Average)
    else if name == "mode" then Some(Mode)
    else if name == "gauss" then Some(Gauss)
    else if name == "max" then Some(Maximum)
    else if name == "min" then Some(Minimum)
    else if name == "med" then Some(Med)
    else if name == "q1" then Some(Q1)
    else if name == "q3" then Some(Q3)
    else if name == "sum" then Some(Sum)
    else if name == "rms" then Some(Rms)
    else None
  }

  /** openEO spells rasterio's `nearest` as `near`; every other name is passed on as it is. */
  function Normalised(requested: string): string {
    if requested == "near" then "nearest" else requested
  }

  /** The methods `resample_cube_spatial` accepts, in its own spelling. */
  const MethodsList: seq<string> :=
    ["near", "bilinear", "cubic", "cubicspline", "lanczos", "average", "mode", "max", "min", "med", "q1", "q3"]

  /** The openEO name of each member the list above admits. */
  function OpenEoName(m: Method): Option<string> {
    match m
    case Nearest => Some("near")
    case Bilinear => Some("bilinear")
    case Cubic => Some("cubic")
    case CubicSpline => Some("cubicspline")
    case Lanczos => Some("lanczos")
    case Average => Some("average")
    case Mode => Some("mode")
    case Maximum => Some("max")
    case Minimum => Some("min")
    case Med => Some("med")
    case Q1 => Some("q1")
    case Q3 => Some("q3")
    case _ => None
  }

  /**
   * `resample_spatial`'s method choice: `near` becomes `nearest`, and the name
   * must then be a member of the enumeration.
   */
  function SpatialMethod(requested: string): (r: Result<Method, Error>)
    ensures forall m :: r == Success(m) <==> MemberName(m) == Normalised(requested)
    ensures r.Failure? ==> r.error == UnsupportedResamplingMethod(Normalised(requested))
  {
    match MemberNamed(Normalised(requested))
    case Some(m) => Success(m)
    case None => Failure(UnsupportedResamplingMethod(Normalised(requested)))
  }

  /**
   * `resample_cube_spatial`'s method choice as written: a name outside the
   * list is refused, and the listed name (after `near` becomes `nearest`) is
   * then looked up in the enumeration, where a miss is a KeyError.
   */
  function CubeSpatialMethodAsWritten(requested: string): (r: Result<Method, Error>)
    ensures requested !in MethodsList ==> r == Failure(UnsupportedResamplingMethod(requested))
    ensures requested in MethodsList ==> (r.Success? <==> MemberNamed(Normalised(requested)).Some?)
    ensures forall m :: r == Success(m) ==> MemberName(m) == Normalised(requested)
  {
    if requested != "near" && requested !in MethodsList then Failure(UnsupportedResamplingMethod(requested))
    else
      match MemberNamed(Normalised(requested))
      case Some(m) => Success(m)
      case None => Failure(KeyError)
  }

  /** `cubicspline` is on the list but is not the enumeration's name for that method. */
  lemma CubicSplineAsWritten()
    ensures "cubicspline" in MethodsList
    ensures CubeSpatialMethodAsWritten("cubicspline") == Failure(KeyError)
  {
    assert MethodsList[3] == "cubicspline";
  }

  /**
   * `resample_cube_spatial`'s method choice, with `cubicspline` mapped to the
   * enumeration's `cubic_spline`: exactly the listed names are accepted, each
   * to the member that carries that openEO name.
   */
  function CubeSpatialMethod(requested: string): (r: Result<Method, Error>)
    ensures forall m :: r == Success(m) <==> OpenEoName(m) == Some(requested)
    ensures r.Failure? <==> requested !in MethodsList
    ensures r.Failure? ==> r.error == UnsupportedResamplingMethod(requested)
  {
    if requested == "near" then Success(Nearest)
    else if requested == "bilinear" then Success(Bilinear)
    else if requested == "cubic" then Success(Cubic)
    else if requested == "cubicspline" then Success(CubicSpline)
    else if requested == "lanczos" then Success(Lanczos)
    else if requested == "average" then Success(Average)
    else if requested == "mode" then Success(Mode)
    else if requested == "max" then Success(Maximum)
    else if requested == "min" then Success(Minimum)
    else if requested == "med" then Success(Med)
    else if requested == "q1" then Success(Q1)
    else if requested == "q3" then Success(Q3)
    else Failure(UnsupportedResamplingMethod(requested))
  }

  /** Apart from `cubicspline`, the corrected choice and the written one agree on every name. */
  lemma CubeSpatialMethodAgrees(requested: string)
    requires requested != "cubicspline"
    ensures CubeSpatialMethod(requested) == CubeSpatialMethodAsWritten(requested)
  {
    if requested in MethodsList {
      assert MemberNamed(Normalised(requested)).Some? by {
        var i :| 0 <= i < |MethodsList| && MethodsList[i] == requested;
        assert i != 3;
      }
    }
  }

  // ---------------------------------------------------------------------------
  // resample_spatial

  /**
   * Python's `round` on a float: to the nearest integer, ties to the even one.
   */
  function RoundHalfEven(x: real): (r: int)
    ensures r as real - x <= 0.5 && x - r as real <= 0.5
    ensures r as real - x == 0.5 || x - r as real == 0.5 ==> r % 2 == 0
  {
    var f := x.Floor;
    var d := x - f as real;
    if d < 0.5 then f
    else if d > 0.5 then f + 1
    else if f % 2 == 0 then f
    else f + 1
  }

  /** An integer closer than half to `x` is what `round` gives. */
  lemma RoundHalfEvenNearest(x: real, n: int)
    requires n as real - x < 0.5 && x - n as real < 0.5
    ensures RoundHalfEven(x) == n
  {
    var r := RoundHalfEven(x);
    assert (r - n) as real < 1.0 && (n - r) as real < 1.0;
  }

  /**
   * The pixel count along one axis in the same-CRS branch:
   * `max(round(extent / resolution), 1)`.
   */
  function PixelCount(extent: real, resolution: real): (n: int)
    requires resolution != 0.0
    ensures n >= 1
    ensures extent / resolution >= 0.5 ==>
      n as real - extent / resolution <= 0.5 && extent / resolution - n as real <= 0.5
    ensures extent / resolution < 0.5 ==> n == 1
  {
    var k := RoundHalfEven(extent / resolution);
    if k > 1 then k else 1
  }

  /** `data.rio.bounds()`. */
  datatype Bounds = Bounds(minX: real, minY: real, maxX: real, maxY: real)

  /**
   * rasterio's CRS constructors, opaque here: the EPSG codes its registry
   * knows, and its parser for non-empty CRS text.
   */
  datatype CrsLib = CrsLib(knownEpsg: int -> bool, fromString: string -> Option<Crs>)

  /** The `projection` argument: absent, an EPSG number, or CRS text. */
  datatype Projection = Unset | Code(code: int) | Text(text: string)

  /**
   * What `resample_spatial` hands to `reproject_cube`: the target CRS, the
   * resolution (None lets the warp keep the size), the method and the target
   * shape (height, width).
   */
  datatype WarpPlan = WarpPlan(target: Crs, resolution: Option<real>, requested: Method, shape: Option<(int, int)>)

  /**
   * The target CRS as written: a number goes through `CRS.from_epsg`, which
   * refuses codes that are not positive and codes its registry does not know;
   * anything else, absent included, goes through `CRS.from_string`, which
   * refuses absent and empty text.
   */
  function TargetCrsAsWritten(projection: Projection, crsLib: CrsLib): (r: Result<Crs, Error>)
    ensures projection.Unset? ==> r == Failure(InvalidCrs)
    ensures projection.Code? ==> (r.Success? <==> projection.code > 0 && crsLib.knownEpsg(projection.code))
    ensures projection.Code? && r.Success? ==> r.value == Epsg(projection.code)
    ensures projection.Text? ==> (r.Success? <==> projection.text != "" && crsLib.fromString(projection.text).Some?)
    ensures r.Failure? ==> r.error == InvalidCrs
  {
    match projection
    case Unset => Failure(InvalidCrs)
    case Code(n) => if n <= 0 || !crsLib.knownEpsg(n) then Failure(InvalidCrs) else Success(Epsg(n))
    case Text(s) =>
      if s == "" then Failure(InvalidCrs)
      else match crsLib.fromString(s)
        case Some(c) => Success(c)
        case None => Failure(InvalidCrs)
  }

  /**
   * The target CRS with an absent projection meaning "keep the data's CRS",
   * so that a resolution alone is enough, as the process promises.
   */
  function TargetCrs(projection: Projection, dataCrs: Option<Crs>, crsLib: CrsLib): (r: Result<Crs, Error>)
    ensures projection.Unset? ==> (r.Success? <==> dataCrs.Some?)
    ensures projection.Unset? && dataCrs.Some? ==> r == Success(dataCrs.value)
    ensures !projection.Unset? ==> r == TargetCrsAsWritten(projection, crsLib)
  {
    if projection.Unset? then
      match dataCrs
      case Some(c) => Success(c)
      case None => Failure(InvalidCrs)
    else TargetCrsAsWritten(projection, crsLib)
  }

  /**
   * The same-CRS branch is taken, and the resolution is divided into the
   * extent, when the data has no CRS or already has the target one.
   */
  predicate DividesByResolution(dataCrs: Option<Crs>, projection: Projection, requested: string, crsLib: CrsLib) {
    var t := TargetCrs(projection, dataCrs, crsLib);
    t.Success? && SpatialMethod(requested).Success? && (dataCrs.None? || dataCrs.value == t.value)
  }

  /**
   * The target shape (height, width) of the same-CRS branch as written: the
   * extent divided by the resolution, so that a zero resolution, the default,
   * divides by zero.
   */
  function SameCrsShapeAsWritten(bounds: Bounds, res: real): (r: Result<(int, int), Error>)
    ensures r.Failure? <==> res == 0.0
    ensures r.Failure? ==> r.error == ZeroDivision
    ensures r.Success? ==> r.value.0 >= 1 && r.value.1 >= 1
    ensures r.Success? ==>
      r.value.0 == PixelCount(bounds.maxY - bounds.minY, res) && r.value.1 == PixelCount(bounds.maxX - bounds.minX, res)
  {
    if res == 0.0 then Failure(ZeroDivision)
    else Success((PixelCount(bounds.maxY - bounds.minY, res), PixelCount(bounds.maxX - bounds.minX, res)))
  }

  /**
   * The target shape corrected: a zero resolution keeps the grid (no shape
   * for the warp, as in the other branch), any other is the shape as written.
   */
  function SameCrsShape(bounds: Bounds, res: real): (r: Option<(int, int)>)
    ensures r.None? <==> res == 0.0
    ensures r.Some? ==> SameCrsShapeAsWritten(bounds, res) == Success(r.value)
  {
    if res == 0.0 then None
    else Some((PixelCount(bounds.maxY - bounds.minY, res), PixelCount(bounds.maxX - bounds.minX, res)))
  }

  /**
   * `resample_spatial` up to the call of `reproject_cube`: at least one of
   * projection and resolution; the target CRS; the method; then either a warp
   * to another CRS (a zero resolution meaning "keep the size") or, in the same
   * CRS, a target shape of `max(round(extent / resolution), 1)` pixels per
   * axis, where a zero resolution keeps the grid too (corrected; as written it
   * divides by zero).
   */
  function PlanResampleSpatial(
    dataCrs: Option<Crs>, bounds: Bounds, projection: Projection, resolution: Option<real>,
    requested: string, crsLib: CrsLib): (r: Result<WarpPlan, Error>)
    ensures projection.Unset? && resolution.None? ==> r == Failure(AssertionFailed)
    ensures r.Success? <==>
      && !(projection.Unset? && resolution.None?)
      && TargetCrs(projection, dataCrs, crsLib).Success? && SpatialMethod(requested).Success?
      && (DividesByResolution(dataCrs, projection, requested, crsLib) ==> resolution.Some?)
    ensures r.Success? ==> TargetCrs(projection, dataCrs, crsLib) == Success(r.value.target)
    ensures r.Success? ==> MemberName(r.value.requested) == Normalised(requested)
    ensures r.Success? && dataCrs.Some? && dataCrs.value != r.value.target ==>
      r.value.shape.None? && r.value.resolution == (if resolution == Some(0.0) then None else resolution)
    ensures r.Success? && (dataCrs.None? || dataCrs.value == r.value.target) ==>
      && resolution.Some? && r.value.resolution.None?
      && (r.value.shape.None? <==> resolution.value == 0.0)
      && (r.value.shape.Some? ==>
            && r.value.shape.value.0 == PixelCount(bounds.maxY - bounds.minY, resolution.value)
            && r.value.shape.value.1 == PixelCount(bounds.maxX - bounds.minX, resolution.value))
  {
    if projection.Unset? && resolution.None? then Failure(AssertionFailed)
    else
      var target :- TargetCrs(projection, dataCrs, crsLib);
      var m :- SpatialMethod(requested);
      if dataCrs.Some? && target != dataCrs.value then
        Success(WarpPlan(target, if resolution == Some(0.0) then None else resolution, m, None))
      else
        match resolution
        case None => Failure(TypeError)
        case Some(res) => Success(WarpPlan(target, None, m, SameCrsShape(bounds, res)))
  }

  /**
   * As written, the default resolution 0 with the projection the data already
   * has reaches the same-CRS branch and divides by zero.
   */
  lemma ZeroResolutionAsWritten(code: int, bounds: Bounds, crsLib: CrsLib)
    requires code > 0 && crsLib.knownEpsg(code)
    ensures DividesByResolution(Some(Epsg(code)), Code(code), "near", crsLib)
    ensures SameCrsShapeAsWritten(bounds, 0.0) == Failure(ZeroDivision)
  {
    assert SpatialMethod("near") == Success(Nearest);
  }

  /**
   * Corrected, the same call keeps the grid: the data's CRS, no resolution
   * and no shape for the warp.
   */
  lemma ZeroResolutionKeepsGrid(code: int, bounds: Bounds, crsLib: CrsLib)
    requires code > 0 && crsLib.knownEpsg(code)
    ensures var r := PlanResampleSpatial(Some(Epsg(code)), bounds, Code(code), Some(0.0), "near", crsLib);
      r.Success? && r.value.target == Epsg(code) && r.value.resolution.None? && r.value.shape.None?
  {
    assert SpatialMethod("near") == Success(Nearest);
  }

  /**
   * As written, an absent projection always ends in an invalid CRS, even with
   * a resolution given.
   */
  lemma ProjectionUnsetAsWritten(projection: Projection, crsLib: CrsLib)
    requires projection.Unset?
    ensures TargetCrsAsWritten(projection, crsLib).Failure?
  {
  }

  /** A shape (height, width) whose pixels cover the bounds to within half a pixel per axis. */
  predicate CoversWithinHalf(bounds: Bounds, res: real, shape: (int, int)) {
    && shape.0 as real * res - (bounds.maxY - bounds.minY) <= res / 2.0
    && (bounds.maxY - bounds.minY) - shape.0 as real * res <= res / 2.0
    && shape.1 as real * res - (bounds.maxX - bounds.minX) <= res / 2.0
    && (bounds.maxX - bounds.minX) - shape.1 as real * res <= res / 2.0
  }

  /**
   * With the projection left out, a cube with a CRS is resampled in place:
   * the target is its own CRS and the shape covers the extent to within half
   * a pixel per axis.
   */
  lemma ResolutionOnly(dataCrs: Crs, bounds: Bounds, res: real, requested: string, crsLib: CrsLib)
    requires res > 0.0 && SpatialMethod(requested).Success?
    requires bounds.maxY - bounds.minY >= res / 2.0 && bounds.maxX - bounds.minX >= res / 2.0
    ensures var r := PlanResampleSpatial(Some(dataCrs), bounds, Unset, Some(res), requested, crsLib);
      && r.Success? && r.value.target == dataCrs && r.value.shape.Some?
      && CoversWithinHalf(bounds, res, r.value.shape.value)
  {
    PlanInPlace(dataCrs, bounds, res, requested, crsLib);
    GridCovers(bounds, res, PixelCount(bounds.maxY - bounds.minY, res), PixelCount(bounds.maxX - bounds.minX, res));
  }

  /** Pixel counts of at least half a pixel's extent cover both sides to within half a pixel. */
  lemma GridCovers(bounds: Bounds, res: real, h: int, w: int)
    requires res > 0.0 && bounds.maxY - bounds.minY >= res / 2.0 && bounds.maxX - bounds.minX >= res / 2.0
    requires h == PixelCount(bounds.maxY - bounds.minY, res) && w == PixelCount(bounds.maxX - bounds.minX, res)
    ensures CoversWithinHalf(bounds, res, (h, w))
  {
    HalfPixel(bounds.maxY - bounds.minY, res);
    HalfPixel(bounds.maxX - bounds.minX, res);
  }

  /** With the projection left out and a non-zero resolution, the plan keeps the CRS and sizes the grid. */
  lemma PlanInPlace(dataCrs: Crs, bounds: Bounds, res: real, requested: string, crsLib: CrsLib)
    requires res != 0.0 && SpatialMethod(requested).Success?
    ensures PlanResampleSpatial(Some(dataCrs), bounds, Unset, Some(res), requested, crsLib) ==
      Success(WarpPlan(dataCrs, None, SpatialMethod(requested).value,
        Some((PixelCount(bounds.maxY - bounds.minY, res), PixelCount(bounds.maxX - bounds.minX, res)))))
  {
  }

  /** An extent of at least half a pixel is covered to within half a pixel. */
  lemma HalfPixel(extent: real, res: real)
    requires res > 0.0 && extent >= res / 2.0
    ensures (PixelCount(extent, res) as real) * res - extent <= res / 2.0
    ensures extent - (PixelCount(extent, res) as real) * res <= res / 2.0
  {
    var q := extent / res;
    Scale(0.5, q, res);
    assert q * res == extent;
    WithinHalfBothWays(PixelCount(extent, res) as real, q, res, extent, res / 2.0);
  }

  /** A count within one half of `extent / res` covers `extent` to within half of `res`. */
  lemma WithinHalfBothWays(n: real, q: real, res: real, extent: real, half: real)
    requires res > 0.0 && half == 0.5 * res && q * res == extent && n - q <= 0.5 && q - n <= 0.5
    ensures n * res - extent <= half
    ensures extent - n * res <= half
  {
    WithinHalf(n, q, res, half);
    WithinHalf(q, n, res, half);
  }

  /** Scaling a difference of at most one half by `res` gives at most `half`, half of `res`. */
  lemma WithinHalf(a: real, b: real, res: real, half: real)
    requires res > 0.0 && a - b <= 0.5 && half == 0.5 * res
    ensures a * res - b * res <= half
  {
    Scale(a - b, 0.5, res);
    Difference(a, b, res);
  }

  lemma Difference(a: real, b: real, res: real)
    ensures (a - b) * res == a * res - b * res
  {
  }

  lemma Scale(a: real, b: real, res: real)
    requires res > 0.0
    ensures a <= b <==> a * res <= b * res
  {
    assert (b - a) * res == b * res - a * res;
    if a <= b {
      assert (b - a) * res >= 0.0;
    } else {
      assert (a - b) * res > 0.0;
    }
  }

  /**
   * `resample_spatial`: the plan, then `reproject_cube` with the warp that the
   * plan selects (opaque).
   */
  function ResampleSpatial(
    c: Cube, bounds: Bounds, projection: Projection, resolution: Option<real>, requested: string,
    crsLib: CrsLib, warpFor: WarpPlan -> Warp): (r: Result<Cube, Error>)
    requires Valid(c)
    ensures PlanResampleSpatial(c.crs, bounds, projection, resolution, requested, crsLib).Failure? ==> r.Failure?
    ensures r.Success? ==> Valid(r.value) && Names(r.value.axes) == Names(c.axes)
    ensures r.Success? ==> r.value.crs == Some(PlanResampleSpatial(c.crs, bounds, projection, resolution, requested, crsLib).value.target)
  {
    var plan :- PlanResampleSpatial(c.crs, bounds, projection, resolution, requested, crsLib);
    ReprojectCube(c, warpFor(plan), plan.target)
  }

  /**
   * On a cube with dimensions "y" and "x", coordinates and unrepeated labels on
   * every other dimension, and a CRS, a successful plan reprojects without
   * touching any dimension but y and x.
   */
  lemma ResampleSpatialKeepsLabels(
    c: Cube, bounds: Bounds, projection: Projection, resolution: Option<real>, requested: string,
    crsLib: CrsLib, warpFor: WarpPlan -> Warp)
    requires Valid(c) && "y" in Names(c.axes) && "x" in Names(c.axes) && Unified !in Names(c.axes) && c.crs.Some?
    requires exists n :: n in Names(c.axes) && n != "y" && n != "x"
    requires forall n :: n in Names(c.axes) && n != "y" && n != "x" ==> n in c.coords && Restorable(AxisNamed(c, n))
    requires PlanResampleSpatial(c.crs, bounds, projection, resolution, requested, crsLib).Success?
    ensures var r := ResampleSpatial(c, bounds, projection, resolution, requested, crsLib, warpFor);
      && r.Success? && Names(r.value.axes) == Names(c.axes)
      && forall i :: 0 <= i < |c.axes| && c.axes[i].name != "y" && c.axes[i].name != "x" ==> r.value.axes[i] == c.axes[i]
  {
    var plan := PlanResampleSpatial(c.crs, bounds, projection, resolution, requested, crsLib).value;
    ReprojectRoundTrip(c, warpFor(plan), plan.target);
  }

  // ---------------------------------------------------------------------------
  // resample_cube_spatial

  /** `tuple(name)`: a string taken apart into its characters. */
  function Chars(s: string): (r: seq<string>)
    ensures |r| == |s|
    ensures forall i :: 0 <= i < |s| ==> r[i] == [s[i]]
  {
    seq(|s|, i requires 0 <= i < |s| => [s[i]])
  }

  /** `transpose(*order, missing_dims="ignore")` first drops the names the array lacks. */
  function Present(order: seq<string>, names: seq<string>): (r: seq<string>)
    ensures forall n :: n in r <==> n in order && n in names
    ensures (forall n :: n in order ==> n in names) ==> r == order
  {
    if order == [] then []
    else (if order[0] in names then [order[0]] else []) + Present(order[1..], names)
  }

  /** The order `resample_cube_spatial` asks for, as written: bands, time, then the characters of y and x. */
  function RequiredOrderAsWritten(c: Cube, yDim: string, xDim: string): seq<string> {
    BandDims(c) + TemporalDims(c) + Chars(yDim) + Chars(xDim)
  }

  /** The order meant: bands, time, y, x. */
  function RequiredOrder(c: Cube, yDim: string, xDim: string): seq<string> {
    BandDims(c) + TemporalDims(c) + [yDim] + [xDim]
  }

  /** With one-letter spatial names, such as "y" and "x", both orders coincide. */
  lemma OneLetterNamesAgree(c: Cube, yDim: string, xDim: string)
    requires |yDim| == 1 && |xDim| == 1
    ensures RequiredOrderAsWritten(c, yDim, xDim) == RequiredOrder(c, yDim, xDim)
  {
    assert yDim == [yDim[0]] && xDim == [xDim[0]];
    assert Chars(yDim) == [yDim] && Chars(xDim) == [xDim];
  }

  /** The cube (bands, time, lat, lon) with no labels. */
  function LatLonCube(): Cube {
    Cube([Axis("bands", Bands, []), Axis("time", Temporal, []), Axis("lat", SpatialY, []), Axis("lon", SpatialX, [])],
         {}, None, map[])
  }

  /**
   * As written, a cube whose spatial dimensions are "lat" and "lon" cannot be
   * brought into the required order: only "bands" and "time" survive the
   * dropping of missing names, and the transpose is refused.
   */
  lemma LatLonAsWritten()
    ensures Valid(LatLonCube())
    ensures Transpose(LatLonCube(), Present(RequiredOrderAsWritten(LatLonCube(), "lat", "lon"), Names(LatLonCube().axes))).Failure?
  {
    var c := LatLonCube();
    LatLonDimensions(c);
    var order := RequiredOrderAsWritten(c, "lat", "lon");
    CharsOnly(c, order);
    var present := Present(order, Names(c.axes));
    OnlyBandsAndTime(present);
    AtMostTwo(present);
  }

  lemma LatLonDimensions(c: Cube)
    requires c == LatLonCube()
    ensures Valid(c) && Names(c.axes) == ["bands", "time", "lat", "lon"]
    ensures BandDims(c) == ["bands"] && TemporalDims(c) == ["time"]
  {
    LatLonNames(c);
    LatLonKinds(c, Bands, "bands");
    LatLonKinds(c, Temporal, "time");
  }

  lemma LatLonNames(c: Cube)
    requires c == LatLonCube()
    ensures Valid(c) && Names(c.axes) == ["bands", "time", "lat", "lon"]
  {
  }

  lemma LatLonKinds(c: Cube, k: Kind, n: string)
    requires c == LatLonCube() && ((k == Bands && n == "bands") || (k == Temporal && n == "time"))
    ensures NamesOfKind(c.axes, k) == [n]
  {
    var tail := c.axes[2..];
    assert tail == [Axis("lat", SpatialY, []), Axis("lon", SpatialX, [])];
    assert NamesOfKind(tail, k) == [] by {
      assert tail[1..] == [Axis("lon", SpatialX, [])];
      assert tail[1..][1..] == [];
      assert NamesOfKind(tail[1..][1..], k) == [];
      assert NamesOfKind(tail[1..], k) == [];
    }
    assert c.axes[1..][1..] == tail;
    assert NamesOfKind(c.axes[1..], k) == (if k == Temporal then ["time"] else []);
  }

  lemma CharsOnly(c: Cube, order: seq<string>)
    requires BandDims(c) == ["bands"] && TemporalDims(c) == ["time"]
    requires order == RequiredOrderAsWritten(c, "lat", "lon")
    ensures "lat" !in order && "lon" !in order
  {
    CharsAreSingle("lat");
    CharsAreSingle("lon");
    assert order == ["bands", "time"] + Chars("lat") + Chars("lon");
  }

  lemma CharsAreSingle(s: string)
    ensures forall n :: n in Chars(s) ==> |n| == 1
  {
  }

  lemma OnlyBandsAndTime(present: seq<string>)
    requires forall n :: n in present ==> n in ["bands", "time", "lat", "lon"]
    requires "lat" !in present && "lon" !in present
    ensures forall n :: n in present ==> n == "bands" || n == "time"
  {
  }

  lemma AtMostTwo(names: seq<string>)
    requires forall n :: n in names ==> n == "bands" || n == "time"
    ensures !(|names| >= 3 && NoDuplicates(names))
  {
    if |names| >= 3 {
      assert names[0] in names && names[1] in names && names[2] in names;
    }
  }

  /**
   * The required order is a rearrangement of the dimensions of every cube made
   * of band, temporal, y and x dimensions, so its transpose succeeds.
   */
  lemma RequiredOrderPermutes(c: Cube, yDim: string, xDim: string)
    requires Valid(c)
    requires FirstOfKind(c, SpatialY) == Some(yDim) && FirstOfKind(c, SpatialX) == Some(xDim)
    requires forall i :: 0 <= i < |c.axes| ==>
      c.axes[i].kind == Bands || c.axes[i].kind == Temporal || c.axes[i].name == yDim || c.axes[i].name == xDim
    ensures Present(RequiredOrder(c, yDim, xDim), Names(c.axes)) == RequiredOrder(c, yDim, xDim)
    ensures Transpose(c, RequiredOrder(c, yDim, xDim)).Success?
  {
    var order := RequiredOrder(c, yDim, xDim);
    RequiredOrderDistinct(c, yDim, xDim);
    RequiredOrderCovers(c, yDim, xDim);
    assert Elems(order) == Elems(Names(c.axes)) by {
      forall n | n in Names(c.axes) ensures n in order {
        var i := IndexOf(Names(c.axes), n);
        assert c.axes[i].name == n;
      }
    }
    NoDuplicatesCard(order);
    NoDuplicatesCard(Names(c.axes));
  }

  /** The required order lists dimensions of the cube, each once. */
  lemma RequiredOrderDistinct(c: Cube, yDim: string, xDim: string)
    requires Valid(c)
    requires FirstOfKind(c, SpatialY) == Some(yDim) && FirstOfKind(c, SpatialX) == Some(xDim)
    ensures NoDuplicates(RequiredOrder(c, yDim, xDim))
    ensures forall n :: n in RequiredOrder(c, yDim, xDim) ==> n in Names(c.axes)
  {
    var ns := MatchNonSpatial(c);
    var order := RequiredOrder(c, yDim, xDim);
    assert order == ns + [yDim, xDim];
    NamesOfKindInCube(c, SpatialY);
    NamesOfKindInCube(c, SpatialX);
    NamesOfKindInCube(c, Bands);
    NamesOfKindInCube(c, Temporal);
    assert yDim in NamesOfKind(c.axes, SpatialY) && xDim in NamesOfKind(c.axes, SpatialX);
    assert AxisNamed(c, yDim).kind == SpatialY && AxisNamed(c, xDim).kind == SpatialX;
    assert yDim !in ns && xDim !in ns;
    forall i, j | 0 <= i < j < |order| ensures order[i] != order[j] {
      if j < |ns| {
        assert order[i] == ns[i] && order[j] == ns[j];
      }
    }
  }

  /** Every dimension of a cube made of band, temporal, y and x dimensions is in the required order. */
  lemma RequiredOrderCovers(c: Cube, yDim: string, xDim: string)
    requires forall i :: 0 <= i < |c.axes| ==>
      c.axes[i].kind == Bands || c.axes[i].kind == Temporal || c.axes[i].name == yDim || c.axes[i].name == xDim
    ensures forall i :: 0 <= i < |c.axes| ==> c.axes[i].name in RequiredOrder(c, yDim, xDim)
  {
    forall i | 0 <= i < |c.axes| ensures c.axes[i].name in RequiredOrder(c, yDim, xDim) {
      if c.axes[i].kind == Bands || c.axes[i].kind == Temporal {
        assert c.axes[i].name in BandDims(c) || c.axes[i].name in TemporalDims(c);
      }
    }
  }

  /** The attributes after the copy: every attribute of `src` whose lower-cased key is not "crs" overrides `dst`. */
  function KeepAttrs(dst: map<string, string>, src: map<string, string>): (r: map<string, string>)
    ensures forall k :: k in src && ToLower(k) != "crs" ==> k in r && r[k] == src[k]
    ensures forall k :: k in dst && !(k in src && ToLower(k) != "crs") ==> k in r && r[k] == dst[k]
    ensures forall k :: k in r ==> k in dst || (k in src && ToLower(k) != "crs")
  {
    map k | k in dst.Keys + src.Keys && (k in dst || ToLower(k) != "crs") ::
      if k in src && ToLower(k) != "crs" then src[k] else dst[k]
  }

  /** A key that reads "crs" in any case keeps the value of the reprojected array. */
  lemma KeepAttrsCrs(dst: map<string, string>, src: map<string, string>, k: string)
    requires ToLower(k) == "crs"
    ensures k in KeepAttrs(dst, src) <==> k in dst
    ensures k in dst ==> KeepAttrs(dst, src)[k] == dst[k]
  {
  }

  /** Copying the attributes a second time changes nothing. */
  lemma KeepAttrsIdempotent(dst: map<string, string>, src: map<string, string>)
    ensures KeepAttrs(KeepAttrs(dst, src), src) == KeepAttrs(dst, src)
  {
  }

  /** The copy loop of `resample_cube_spatial`: one assignment per attribute of the input. */
  method CopyAttrs(dst: map<string, string>, src: map<string, string>) returns (r: map<string, string>)
    ensures r == KeepAttrs(dst, src)
  {
    r := dst;
    var todo := src.Keys;
    while todo != {}
      invariant todo <= src.Keys
      invariant forall k :: k in r <==> k in dst || (k in src && k !in todo && ToLower(k) != "crs")
      invariant forall k :: k in r ==>
        r[k] == if k in src && k !in todo && ToLower(k) != "crs" then src[k] else dst[k]
      decreases todo
    {
      var k :| k in todo;
      if ToLower(k) != "crs" {
        r := r[k := src[k]];
      }
      todo := todo - {k};
    }
    assert r.Keys == KeepAttrs(dst, src).Keys;
  }

  /**
   * `resample_cube_spatial`: reorder both cubes, pick the method, match the
   * data onto the target's grid in the target's CRS, restore the data's order
   * and copy its attributes other than "crs" over. `matchWarp` gives the new y
   * and x labels of `reproject_match` for a target cube and a method, and
   * `attrsAfter` the attributes it writes, from those of the array it warps.
   */
  function ResampleCubeSpatial(
    data: Cube, target: Cube, requested: string, matchWarp: (Cube, Method) -> Plane,
    attrsAfter: map<string, string> -> map<string, string>): (r: Result<Cube, Error>)
    requires Valid(data) && Valid(target)
    ensures FirstOfKind(data, SpatialY).None? || FirstOfKind(data, SpatialX).None? ==> r == Failure(TypeError)
    ensures requested !in MethodsList ==> r.Failure?
    ensures target.crs.None? ==> r.Failure?
    ensures r.Success? ==> Valid(r.value) && Names(r.value.axes) == Names(data.axes)
    ensures r.Success? ==> r.value.crs == target.crs && r.value.attrs == KeepAttrs(attrsAfter(WriteNodataIfMissing(data.attrs)), data.attrs)
    ensures r.Success? ==> forall k :: k in data.attrs && ToLower(k) != "crs" ==> k in r.value.attrs && r.value.attrs[k] == data.attrs[k]
  {
    match (FirstOfKind(data, SpatialY), FirstOfKind(data, SpatialX))
    case (Some(y), Some(x)) =>
      var order := RequiredOrder(data, y, x);
      var dataR :- Transpose(data, Present(order, Names(data.axes)));
      var targetR :- Transpose(target, Present(order, Names(target.axes)));
      var m :- CubeSpatialMethod(requested);
      if targetR.crs.None? then Failure(MissingCrs)
      else
        var matched :- ReprojectCubeMatch(dataR, Warp(matchWarp(targetR, m), attrsAfter), targetR.crs.value);
        var back :- Transpose(matched, Names(data.axes));
        Success(back.(attrs := KeepAttrs(back.attrs, data.attrs)))
    case _ => Failure(TypeError)
  }
}
