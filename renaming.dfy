/**
 * Renaming dimensions and labels: `rename_dimension` and `rename_labels` of
 * processes.py, and `rename_dimension` and the rename round trip of `clip` in
 * geospatial_utils.py.
 */
module Renaming {
  import opened Wrappers
  import opened Labels
  import opened Cubes

  // ---------------------------------------------------------------------------
  // processes.rename_dimension

  /**
   * Renames dimension `source` to `target`. A `target` that already names a
   * dimension is refused; a `source` that is not a dimension leaves the cube as
   * it is.
   */
  function RenameDimension(c: Cube, source: string, target: string): (r: Result<Cube, Error>)
    requires Valid(c)
    ensures target in Names(c.axes) ==> r == Failure(ProcessParameterInvalid(target))
    ensures target !in Names(c.axes) && source !in Names(c.axes) ==> r == Success(c)
    ensures target !in Names(c.axes) && source in Names(c.axes) ==>
      && (r.Failure? <==> target in c.coords)
      && (r.Success? ==>
        && Valid(r.value)
        && Names(r.value.axes) == Names(c.axes)[IndexOf(Names(c.axes), source) := target]
        && forall i :: 0 <= i < |c.axes| ==>
             r.value.axes[i].kind == c.axes[i].kind && r.value.axes[i].labels == c.axes[i].labels)
  {
    if target in Names(c.axes) then Failure(ProcessParameterInvalid(target))
    else if source in Names(c.axes) then
      var r := XrRename(c, source, target);
      assert r.Success? ==> Names(r.value.axes) == Names(c.axes)[IndexOf(Names(c.axes), source) := target] by {
        if r.Success? {
          forall i | 0 <= i < |c.axes|
            ensures Names(r.value.axes)[i] == Names(c.axes)[IndexOf(Names(c.axes), source) := target][i]
          {
            if c.axes[i].name == source {
              IndexOfUnique(Names(c.axes), source, i);
            }
          }
        }
      }
      r
    else Success(c)
  }

  /** Renaming a dimension and renaming it back restores the cube. */
  lemma RenameDimensionInverse(c: Cube, source: string, target: string)
    requires Valid(c) && source in Names(c.axes)
    requires target !in Names(c.axes) && target !in c.coords
    ensures RenameDimension(c, source, target).Success?
    ensures RenameDimension(RenameDimension(c, source, target).value, target, source) == Success(c)
  {
    var d := RenameDimension(c, source, target).value;
    forall i | 0 <= i < |d.axes| ensures d.axes[i].name != source {
      if c.axes[i].name != source {
        assert c.axes[i].name in Names(c.axes);
      }
    }
    var k := IndexOf(Names(c.axes), source);
    assert d.axes[k].name == target;
    assert target in Names(d.axes);
    var e := RenameDimension(d, target, source).value;
    assert e.axes == c.axes;
    assert e.coords == c.coords;
  }

  // ---------------------------------------------------------------------------
  // processes.rename_labels

  /** Every label equal to `s` becomes `t` (numpy's `labels[labels == s] = t`). */
  function ReplaceOne(xs: seq<Label>, s: Label, t: Label): (r: seq<Label>)
    ensures |r| == |xs|
  {
    seq(|xs|, i requires 0 <= i < |xs| => if xs[i] == s then t else xs[i])
  }

  /** The (source, target) pairs applied one after the other, in order. */
  function ReplaceAll(xs: seq<Label>, src: seq<Label>, tgt: seq<Label>): (r: seq<Label>)
    requires |src| == |tgt|
    ensures |r| == |xs|
    decreases |src|
  {
    if src == [] then xs
    else ReplaceOne(ReplaceAll(xs, src[..|src| - 1], tgt[..|tgt| - 1]), src[|src| - 1], tgt[|tgt| - 1])
  }

  /**
   * When the sources are distinct and no target is itself a source, applying
   * the pairs in order is the same as the simultaneous substitution: a label
   * equal to `src[i]` becomes `tgt[i]`, every other label stays.
   */
  lemma {:induction false} ReplaceAllPairwise(xs: seq<Label>, src: seq<Label>, tgt: seq<Label>, p: nat)
    requires |src| == |tgt| && NoDuplicates(src) && Elems(src) !! Elems(tgt) && p < |xs|
    ensures ReplaceAll(xs, src, tgt)[p] == if xs[p] in src then tgt[FirstIndex(src, xs[p])] else xs[p]
    decreases |src|
  {
    if src != [] {
      var n := |src| - 1;
      var s0, t0 := src[..n], tgt[..n];
      assert Elems(s0) <= Elems(src) && Elems(t0) <= Elems(tgt);
      ReplaceAllPairwise(xs, s0, t0, p);
      var before := ReplaceAll(xs, s0, t0);
      if xs[p] in s0 {
        var j := FirstIndex(s0, xs[p]);
        assert before[p] == tgt[j];
        assert tgt[j] in Elems(tgt);
        assert before[p] != src[n];
        FirstIndexPrefix(src, s0, xs[p]);
      } else if xs[p] == src[n] {
        assert src == s0 + [src[n]];
        FirstIndexLast(src, src[n]);
      } else {
        assert src == s0 + [src[n]];
      }
    }
  }

  /**
   * Two pairs applied in order compose: when the first pair's target is the
   * second pair's source, a label equal to the first source ends as the second
   * target.
   */
  lemma ReplaceTwoPairs(xs: seq<Label>, s0: Label, t0: Label, s1: Label, t1: Label, p: nat)
    requires p < |xs|
    ensures ReplaceAll(xs, [s0, s1], [t0, t1])[p] ==
      if xs[p] == s0 then (if t0 == s1 then t1 else t0)
      else if xs[p] == s1 then t1
      else xs[p]
  {
    assert [s0, s1][..1] == [s0] && [t0, t1][..1] == [t0];
    assert [s0][..0] == [] && [t0][..0] == [];
    var zero := ReplaceAll(xs, [], []);
    assert zero == xs;
    var first := ReplaceAll(xs, [s0], [t0]);
    assert first == ReplaceOne(zero, s0, t0);
    assert first[p] == if xs[p] == s0 then t0 else xs[p];
    var second := ReplaceAll(xs, [s0, s1], [t0, t1]);
    assert second == ReplaceOne(first, s1, t1);
    assert second[p] == if first[p] == s1 then t1 else first[p];
  }

  /**
   * A target label as a numpy text array of `width` characters stores it:
   * text is cut to the width. Numeric targets are left as they are here.
   */
  function StoredIn(t: Label, width: nat): (r: Label)
    ensures t.Num? ==> r == t
    ensures t.Text? ==> r.Text? && |r.s| <= width && |r.s| <= |t.s| && r.s == t.s[..|r.s|]
    ensures t.Text? && |t.s| <= width ==> r == t
    ensures t.Text? && |t.s| > width ==> |r.s| == width
  {
    match t
    case Num(_) => t
    case Text(x) => if |x| <= width then t else Text(x[..width])
  }

  /**
   * `labels[labels == s] = t` as written, on the label array xarray hands out
   * for a text dimension: an array of fixed-width text as wide as its longest
   * label, so a longer target is cut short.
   */
  function ReplaceOneFixedWidth(xs: seq<Label>, s: Label, t: Label, width: nat): (r: seq<Label>)
    ensures |r| == |xs|
  {
    seq(|xs|, i requires 0 <= i < |xs| => if xs[i] == s then StoredIn(t, width) else xs[i])
  }

  /**
   * On a label that occurs, the fixed-width replacement gives the intended
   * one exactly when the target fits the width.
   */
  lemma FixedWidthAgrees(xs: seq<Label>, s: Label, t: Label, width: nat)
    requires s in xs
    ensures ReplaceOneFixedWidth(xs, s, t, width) == ReplaceOne(xs, s, t) <==> t.Num? || |t.s| <= width
  {
    var k :| 0 <= k < |xs| && xs[k] == s;
    if !(t.Num? || |t.s| <= width) {
      assert ReplaceOneFixedWidth(xs, s, t, width)[k] != ReplaceOne(xs, s, t)[k];
    }
  }

  /** Bands B02 and B03, B02 renamed to "blue": the array of width 3 ends up with "blu". */
  lemma BlueAsWritten()
    ensures var xs := [Label.Text("B02"), Label.Text("B03")];
      && ReplaceOneFixedWidth(xs, Label.Text("B02"), Label.Text("blue"), 3) == [Label.Text("blu"), Label.Text("B03")]
      && ReplaceOne(xs, Label.Text("B02"), Label.Text("blue")) == [Label.Text("blue"), Label.Text("B03")]
  {
    assert "blue"[..3] == "blu";
  }

  /** The in-place loop over the pairs of `rename_labels`. */
  method ReplaceInPlace(a: array<Label>, src: seq<Label>, tgt: seq<Label>)
    requires |src| == |tgt|
    modifies a
    ensures a[..] == ReplaceAll(old(a[..]), src, tgt)
  {
    for k := 0 to |src|
      invariant a[..] == ReplaceAll(old(a[..]), src[..k], tgt[..k])
    {
      ghost var before := a[..];
      for j := 0 to a.Length
        invariant a[..j] == ReplaceOne(before, src[k], tgt[k])[..j]
        invariant a[j..] == before[j..]
      {
        if a[j] == src[k] {
          a[j] := tgt[k];
        }
        assert a[..j + 1] == a[..j] + [a[j]];
        assert a[j + 1..] == before[j + 1..];
      }
      assert a[..] == a[..a.Length];
      assert src[..k + 1][..k] == src[..k] && tgt[..k + 1][..k] == tgt[..k];
    }
    assert src[..|src|] == src && tgt[..|tgt|] == tgt;
  }

  /**
   * Relabels dimension `dimension`. With `source`, each (source, target) pair is
   * applied in order to the existing labels, after checking the two lists have
   * the same length; without it, `target` replaces the labels when it has one
   * label per position. Anything else is LabelNotAvailable.
   */
  method RenameLabels(c: Cube, dimension: string, source: Option<seq<Label>>, target: seq<Label>)
    returns (r: Result<Cube, Error>)
    requires Valid(c)
    ensures dimension !in Names(c.axes) ==> r == Failure(LabelNotAvailable)
    ensures dimension in Names(c.axes) && source.Some? && |source.value| != |target| ==>
      r == Failure(LabelMismatch)
    ensures dimension in Names(c.axes) && source.Some? && |source.value| == |target| ==>
      r == Success(WithLabels(c, dimension, ReplaceAll(AxisNamed(c, dimension).labels, source.value, target)))
    ensures dimension in Names(c.axes) && source.None? ==>
      r == if |target| == |AxisNamed(c, dimension).labels| then Success(WithLabels(c, dimension, target))
           else Failure(LabelNotAvailable)
  {
    if dimension in Names(c.axes) && source.Some? {
      if |source.value| != |target| {
        return Failure(LabelMismatch);
      }
      var current := AxisNamed(c, dimension).labels;
      var labels := new Label[|current|](i requires 0 <= i < |current| => current[i]);
      assert labels[..] == current;
      ReplaceInPlace(labels, source.value, target);
      r := Success(WithLabels(c, dimension, labels[..]));
    } else if dimension in Names(c.axes) && |target| == |AxisNamed(c, dimension).labels| {
      r := Success(WithLabels(c, dimension, target));
    } else {
      r := Failure(LabelNotAvailable);
    }
  }

  // ---------------------------------------------------------------------------
  // geospatial_utils.rename_dimension

  /** The renames of a dictionary applied in its order, each only when its source is a dimension. */
  function RenameEach(c: Cube, renames: seq<(string, string)>): (r: Result<Cube, Error>)
    decreases |renames|
  {
    if renames == [] then Success(c)
    else
      match RenameEach(c, renames[..|renames| - 1])
      case Failure(e) => Failure(e)
      case Success(d) =>
        var (s, t) := renames[|renames| - 1];
        if s in Names(d.axes) then XrRename(d, s, t) else Success(d)
  }

  /** The name a dimension called `n` ends with after the renames, applied in order. */
  function ChainName(n: string, renames: seq<(string, string)>): string
    decreases |renames|
  {
    if renames == [] then n
    else
      var m := ChainName(n, renames[..|renames| - 1]);
      if m == renames[|renames| - 1].0 then renames[|renames| - 1].1 else m
  }

  /**
   * When the renames succeed, every dimension keeps its kind and labels and is
   * called by its chained name; a source that is not a dimension has no effect.
   */
  lemma {:induction false} RenameEachNames(c: Cube, renames: seq<(string, string)>)
    requires RenameEach(c, renames).Success?
    ensures |RenameEach(c, renames).value.axes| == |c.axes|
    ensures forall i :: 0 <= i < |c.axes| ==>
      RenameEach(c, renames).value.axes[i] == c.axes[i].(name := ChainName(c.axes[i].name, renames))
    ensures Valid(c) ==> Valid(RenameEach(c, renames).value)
    decreases |renames|
  {
    if renames != [] {
      var init := renames[..|renames| - 1];
      RenameEachNames(c, init);
      var d := RenameEach(c, init).value;
      var (s, t) := renames[|renames| - 1];
      if s !in Names(d.axes) {
        forall i | 0 <= i < |c.axes| ensures ChainName(c.axes[i].name, renames) == ChainName(c.axes[i].name, init) {
          assert d.axes[i].name == ChainName(c.axes[i].name, init);
        }
      }
    }
  }

  /** The loop of geospatial_utils.rename_dimension. */
  method RenameDimensions(c: Cube, renames: seq<(string, string)>) returns (r: Result<Cube, Error>)
    ensures r == RenameEach(c, renames)
  {
    var d := c;
    var i := 0;
    while i < |renames|
      invariant 0 <= i <= |renames|
      invariant RenameEach(c, renames[..i]) == Success(d)
    {
      assert renames[..i + 1][..i] == renames[..i];
      var (s, t) := renames[i];
      if s in Names(d.axes) {
        var next := XrRename(d, s, t);
        if next.Failure? {
          assert renames[..i + 1] == renames[..i] + [renames[i]];
          RenameEachFailurePersists(c, renames, i + 1, next.error);
          return Failure(next.error);
        }
        d := next.value;
      }
      i := i + 1;
    }
    assert renames[..i] == renames;
    r := Success(d);
  }

  /** Once a rename has failed, the later ones are never attempted. */
  lemma {:induction false} RenameEachFailurePersists(c: Cube, renames: seq<(string, string)>, k: nat, e: Error)
    requires k <= |renames| && RenameEach(c, renames[..k]) == Failure(e)
    ensures RenameEach(c, renames) == Failure(e)
    decreases |renames| - k
  {
    if k == |renames| {
      assert renames[..k] == renames;
    } else {
      assert renames[..k + 1][..k] == renames[..k];
      RenameEachFailurePersists(c, renames, k + 1, e);
    }
  }

  // ---------------------------------------------------------------------------
  // geospatial_utils.clip

  /**
   * The x and y label windows `rio.clip_box` keeps for the box; the clipping
   * itself is floating-point work of an external library and stays opaque.
   */
  type ClipWindow = (seq<Label>, seq<Label>) -> (seq<Label>, seq<Label>)

  /** `rio.clip_box`: it finds the spatial plane only under the names "x" and "y". */
  function ClipBox(c: Cube, window: ClipWindow): (r: Result<Cube, Error>)
    requires Valid(c)
    ensures r.Success? <==> "x" in Names(c.axes) && "y" in Names(c.axes)
    ensures r.Success? ==> Valid(r.value) && Names(r.value.axes) == Names(c.axes)
    ensures r.Success? ==> forall i :: 0 <= i < |c.axes| ==>
      r.value.axes[i].kind == c.axes[i].kind &&
      (c.axes[i].name != "x" && c.axes[i].name != "y" ==> r.value.axes[i] == c.axes[i])
  {
    if "x" in Names(c.axes) && "y" in Names(c.axes) then
      var (xs, ys) := window(AxisNamed(c, "x").labels, AxisNamed(c, "y").labels);
      Success(WithLabels(WithLabels(c, "x", xs), "y", ys))
    else Failure(MissingSpatialDimension)
  }

  /** The dictionary `{x_dim: "x", y_dim: "y"}`: equal keys collapse into one entry holding the later value. */
  function ToXY(xDim: string, yDim: string): seq<(string, string)> {
    if xDim == yDim then [(xDim, "y")] else [(xDim, "x"), (yDim, "y")]
  }

  /** What `clip` returns: rename to x/y, clip, rename back. */
  function Clipped(c: Cube, xDim: string, yDim: string, window: ClipWindow): Result<Cube, Error>
    requires Valid(c)
  {
    match RenameEach(c, ToXY(xDim, yDim))
    case Failure(e) => Failure(e)
    case Success(there) =>
      RenameEachNames(c, ToXY(xDim, yDim));
      match ClipBox(there, window)
      case Failure(e) => Failure(e)
      case Success(clipped) => RenameEach(clipped, [("x", xDim), ("y", yDim)])
  }

  lemma RenameEachTwo(c: Cube, p: (string, string), q: (string, string))
    ensures RenameEach(c, [p, q]) ==
      match RenameEach(c, [p])
      case Failure(e) => Failure(e)
      case Success(d) => if q.0 in Names(d.axes) then XrRename(d, q.0, q.1) else Success(d)
    ensures RenameEach(c, [p]) == if p.0 in Names(c.axes) then XrRename(c, p.0, p.1) else Success(c)
  {
    assert [p, q][..1] == [p];
    assert [p][..0] == [];
  }

  /**
   * Whenever `clip` succeeds on two distinct dimensions, the result has the
   * input's dimension names in the input's order, and every dimension other
   * than the two spatial ones keeps its labels.
   */
  lemma ClipKeepsDimensions(c: Cube, xDim: string, yDim: string, window: ClipWindow)
    requires Valid(c) && xDim != yDim && xDim in Names(c.axes) && yDim in Names(c.axes)
    requires Clipped(c, xDim, yDim, window).Success?
    ensures Names(Clipped(c, xDim, yDim, window).value.axes) == Names(c.axes)
    ensures forall i :: 0 <= i < |c.axes| && c.axes[i].name != xDim && c.axes[i].name != yDim ==>
      Clipped(c, xDim, yDim, window).value.axes[i] == c.axes[i]
  {
    var fwd := ToXY(xDim, yDim);
    var back := [("x", xDim), ("y", yDim)];
    RenameEachTwo(c, fwd[0], fwd[1]);
    assert fwd == [fwd[0], fwd[1]];
    var there := RenameEach(c, fwd).value;
    RenameEachNames(c, fwd);
    var clipped := ClipBox(there, window).value;
    RenameEachTwo(clipped, back[0], back[1]);
    assert back == [back[0], back[1]];
    var out := RenameEach(clipped, back).value;
    RenameEachNames(clipped, back);
    // After the forward renames the two spatial dimensions are "x" and "y" and
    // no other dimension carries either name.
    var ix, iy := IndexOf(Names(c.axes), xDim), IndexOf(Names(c.axes), yDim);
    var d1 := RenameEach(c, [fwd[0]]).value;
    forall i | 0 <= i < |c.axes|
      ensures there.axes[i].name == if i == ix then "x" else if i == iy then "y" else c.axes[i].name
      ensures i != ix && i != iy ==> c.axes[i].name != "x" && c.axes[i].name != "y"
    {
      assert d1.axes[i].name == if c.axes[i].name == xDim then "x" else c.axes[i].name;
      if i != ix && i != iy {
        assert c.axes[i].name != xDim && c.axes[i].name != yDim;
        assert c.axes[i].name in Names(c.axes);
        assert d1.axes[iy].name == yDim;
        assert yDim in Names(d1.axes);
        assert d1.axes[i].name in Names(d1.axes);
      }
    }
    forall i | 0 <= i < |c.axes|
      ensures out.axes[i].name == c.axes[i].name
      ensures i != ix && i != iy ==> out.axes[i] == c.axes[i]
    {
    }
  }

  class DataArray {
    var cube: Cube

    constructor (c: Cube)
      ensures cube == c
    {
      cube := c;
    }
  }

  /**
   * `clip`: when the caller's array has no reference system, `CRS.from_epsg`
   * turns the code into one, refusing an absent code (TypeError), a code that
   * is not positive or one the registry `knownEpsg` does not know; the CRS is
   * then written into the caller's array in place. The clipped array is a new
   * value.
   */
  method Clip(data: DataArray, window: ClipWindow, xDim: string, yDim: string, crs: Option<int>, knownEpsg: int -> bool)
    returns (r: Result<Cube, Error>)
    requires Valid(data.cube)
    modifies data
    ensures old(data.cube.crs).None? && crs.None? ==> r == Failure(TypeError) && data.cube == old(data.cube)
    ensures old(data.cube.crs).None? && crs.Some? && (crs.value <= 0 || !knownEpsg(crs.value)) ==>
      r == Failure(InvalidCrs) && data.cube == old(data.cube)
    ensures old(data.cube.crs).None? && crs.Some? && crs.value > 0 && knownEpsg(crs.value) ==>
      data.cube == old(data.cube).(crs := Some(Epsg(crs.value)))
    ensures old(data.cube.crs).Some? ==> data.cube == old(data.cube)
    ensures data.cube.crs.Some? ==> r == Clipped(data.cube, xDim, yDim, window)
  {
    if data.cube.crs.None? {
      match crs
      case None =>
        return Failure(TypeError);
      case Some(code) =>
        if code <= 0 || !knownEpsg(code) {
          return Failure(InvalidCrs);
        }
        data.cube := data.cube.(crs := Some(Epsg(code)));
    }
    var there := RenameDimensions(data.cube, ToXY(xDim, yDim));
    if there.Failure? {
      return Failure(there.error);
    }
    RenameEachNames(data.cube, ToXY(xDim, yDim));
    var clipped := ClipBox(there.value, window);
    if clipped.Failure? {
      return Failure(clipped.error);
    }
    r := RenameDimensions(clipped.value, [("x", xDim), ("y", yDim)]);
  }
}
