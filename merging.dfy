/**
 * `merge_cubes`: per shared dimension the overlap of the two label sets, an
 * optional resampling of cube2 onto cube1's grid, and the choice among
 * concatenating along a new `__cubes__` dimension, combining by coordinates,
 * resolving the overlap on one dimension, broadcasting, or refusing. Cell
 * values and the overlap resolver are opaque; the model records which path is
 * taken, which cube feeds each named resolver argument, and the labels of the
 * result.
 */
module Merging {
  import opened Wrappers
  import opened Labels
  import opened Cubes
  import opened Reprojection
  import opened Resample

  /** The dimension along which the two cubes are stacked, and its two labels. */
  const CubesDim: string := "__cubes__"
  const CubesLabels: seq<Label> := [Label.Text("cube1"), Label.Text("cube2")]

  // ---------------------------------------------------------------------------
  // Overlap records

  /** Labels in cube1 only, in cube2 only, and in both; each sorted without repeats. */
  datatype Overlap = Overlap(onlyIn1: seq<Label>, onlyIn2: seq<Label>, inBoth: seq<Label>)

  /** The labels of `xs` that are (`inside`) or are not in `ys`, in order. */
  function Keep(xs: seq<Label>, ys: seq<Label>, inside: bool): (r: seq<Label>)
    ensures forall x :: x in r <==> x in xs && (x in ys) == inside
  {
    if xs == [] then []
    else (if (xs[0] in ys) == inside then [xs[0]] else []) + Keep(xs[1..], ys, inside)
  }

  /** numpy's `setdiff1d`: the sorted unique labels of `a` that are not in `b`. */
  function SetDiff(a: seq<Label>, b: seq<Label>): (r: seq<Label>)
    ensures StrictlyIncreasing(r) && Elems(r) == Elems(a) - Elems(b)
  {
    SortUnique(Keep(a, b, false))
  }

  /** numpy's `intersect1d`: the sorted unique labels in both. */
  function Intersect(a: seq<Label>, b: seq<Label>): (r: seq<Label>)
    ensures StrictlyIncreasing(r) && Elems(r) == Elems(a) * Elems(b)
  {
    SortUnique(Keep(a, b, true))
  }

  function OverlapOf(a: seq<Label>, b: seq<Label>): Overlap {
    Overlap(SetDiff(a, b), SetDiff(b, a), Intersect(a, b))
  }

  /**
   * The three records split the labels of both cubes: cube1's labels are its
   * exclusive ones plus the shared ones, likewise cube2's, and no label is in
   * two of the records.
   */
  lemma OverlapPartition(a: seq<Label>, b: seq<Label>)
    ensures var o := OverlapOf(a, b);
      && Elems(o.onlyIn1) + Elems(o.inBoth) == Elems(a)
      && Elems(o.onlyIn2) + Elems(o.inBoth) == Elems(b)
      && Elems(o.onlyIn1) !! Elems(o.onlyIn2)
      && Elems(o.onlyIn1) !! Elems(o.inBoth)
      && Elems(o.onlyIn2) !! Elems(o.inBoth)
  {
  }

  /** A dimension whose labels differ between the cubes. */
  predicate HasExclusive(o: Overlap) {
    o.onlyIn1 != [] || o.onlyIn2 != []
  }

  /** A dimension with both shared and exclusive labels needs the overlap resolver. */
  predicate RequiresResolve(o: Overlap) {
    o.inBoth != [] && HasExclusive(o)
  }

  /** The records show no exclusive label exactly when both label sets coincide. */
  lemma NoExclusiveIffSameLabels(a: seq<Label>, b: seq<Label>)
    ensures !HasExclusive(OverlapOf(a, b)) <==> Elems(a) == Elems(b)
  {
    var o := OverlapOf(a, b);
    if Elems(a) != Elems(b) {
      if Elems(a) - Elems(b) != {} {
        var x :| x in Elems(a) - Elems(b);
        assert x in Elems(o.onlyIn1);
      } else {
        var x :| x in Elems(b) - Elems(a);
        assert x in Elems(o.onlyIn2);
      }
    } else {
      assert Elems(o.onlyIn1) == {} && Elems(o.onlyIn2) == {};
    }
  }

  /** The overlap record of dimension `n`, shared by both cubes. */
  function OverlapAt(c1: Cube, c2: Cube, n: string): Overlap
    requires n in Names(c1.axes) && n in Names(c2.axes)
  {
    OverlapOf(AxisNamed(c1, n).labels, AxisNamed(c2, n).labels)
  }

  /** The dimensions of the one cube that the other also has, in the first one's order. */
  function Shared(names: seq<string>, other: seq<string>): (r: seq<string>)
    ensures forall n :: n in r <==> n in names && n in other
  {
    if names == [] then []
    else (if names[0] in other then [names[0]] else []) + Shared(names[1..], other)
  }

  /** The shared dimensions that need the overlap resolver, in cube1's order. */
  function ResolveDims(names: seq<string>, c1: Cube, c2: Cube): (r: seq<string>)
    requires forall n :: n in names ==> n in Names(c1.axes) && n in Names(c2.axes)
    ensures forall n :: n in r <==> n in names && RequiresResolve(OverlapAt(c1, c2, n))
    ensures r == [] <==> forall n :: n in names ==> !RequiresResolve(OverlapAt(c1, c2, n))
  {
    if names == [] then []
    else
      var head := if RequiresResolve(OverlapAt(c1, c2, names[0])) then [names[0]] else [];
      var rest := ResolveDims(names[1..], c1, c2);
      assert forall n :: n in names <==> n == names[0] || n in names[1..];
      head + rest
  }

  /** The dimensions only one of the cubes has. */
  function Differing(c1: Cube, c2: Cube): set<string> {
    (Elems(Names(c1.axes)) - Elems(Names(c2.axes))) + (Elems(Names(c2.axes)) - Elems(Names(c1.axes)))
  }

  /** No shared dimension has a label the other cube lacks. */
  predicate AllLabelsEqual(c1: Cube, c2: Cube) {
    forall n :: n in Names(c1.axes) && n in Names(c2.axes) ==> !HasExclusive(OverlapAt(c1, c2, n))
  }

  // ---------------------------------------------------------------------------
  // The resolver's arguments

  /** The `overlap_resolver` argument: absent, not callable, or a process. */
  datatype Resolver = Absent | NotCallable | Process

  /** Which cube's data a named resolver argument carries. */
  datatype Side = Cube1Data | Cube2Data

  /** The named arguments as written in the equal-labels and one-dimension paths: keyed by cube1's x and y dimension names. */
  function NamedAsWritten(xDim: string, yDim: string): seq<(string, Side)> {
    [(xDim, Cube1Data), (yDim, Cube2Data)]
  }

  /** The named arguments meant: `x` from cube1, `y` from cube2. */
  function Named(): seq<(string, Side)> {
    [("x", Cube1Data), ("y", Cube2Data)]
  }

  /** The written keys are the resolver's `x` and `y` only when the spatial dimensions are themselves called "x" and "y". */
  lemma NamedAsWrittenDiffers(xDim: string, yDim: string)
    ensures NamedAsWritten(xDim, yDim) == Named() <==> xDim == "x" && yDim == "y"
  {
  }

  /** With dimensions "lon" and "lat" the resolver gets no `x` argument at all. */
  lemma LonLatAsWritten()
    ensures forall i :: 0 <= i < |NamedAsWritten("lon", "lat")| ==> NamedAsWritten("lon", "lat")[i].0 != "x"
  {
  }

  /**
   * The broadcast path's arguments: the lower-dimensional cube is broadcast
   * and fed as `x` when it is cube1, as `y` otherwise.
   */
  function BroadcastNamed(cube1IsLower: bool): (r: seq<(string, Side)>)
    ensures r == Named()
  {
    var lower := if cube1IsLower then Cube1Data else Cube2Data;
    var higher := if cube1IsLower then Cube2Data else Cube1Data;
    if cube1IsLower then [("x", lower), ("y", higher)] else [("x", higher), ("y", lower)]
  }

  // ---------------------------------------------------------------------------
  // The results

  /** Which path the merge took; the resolver paths carry their named arguments. */
  datatype Outcome =
    | Concatenated
    | ReducedCubes(named: seq<(string, Side)>)
    | Combined
    | ResolvedOne(dim: string, named: seq<(string, Side)>)
    | Broadcast(named: seq<(string, Side)>)

  /** `combine_attrs="drop_conflicts"`: keys on which the cubes disagree are dropped. */
  function DropConflicts(a: map<string, string>, b: map<string, string>): (r: map<string, string>)
    ensures forall k :: k in r <==> (k in a || k in b) && (k in a && k in b ==> a[k] == b[k])
    ensures forall k :: k in r ==> r[k] == if k in a then a[k] else b[k]
  {
    map k | k in a.Keys + b.Keys && (k in a && k in b ==> a[k] == b[k]) :: if k in a then a[k] else b[k]
  }

  /** Which cube's attributes come first makes no difference. */
  lemma DropConflictsSymmetric(a: map<string, string>, b: map<string, string>)
    ensures DropConflicts(a, b) == DropConflicts(b, a)
  {
  }

  /** The two cubes stacked along `__cubes__`, which comes first. */
  function Stacked(c1: Cube): (r: Cube)
    requires Valid(c1) && CubesDim !in Names(c1.axes)
    ensures Valid(r) && Names(r.axes) == [CubesDim] + Names(c1.axes)
    ensures r.axes[0].labels == CubesLabels && r.axes[1..] == c1.axes
  {
    var r := c1.(axes := [Axis(CubesDim, Other, CubesLabels)] + c1.axes, coords := c1.coords + {CubesDim});
    assert Names(r.axes) == [CubesDim] + Names(c1.axes);
    r
  }

  /**
   * The outer join `xr.concat` applies before stacking two cubes: a dimension
   * whose labels cube2 lists in the same order keeps them, any other shared
   * dimension gets pandas' `Index.union`, which sorts.
   */
  function AlignedAxes(c1: Cube, c2: Cube): (r: seq<Axis>)
    requires Valid(c1) && Valid(c2)
    ensures Names(r) == Names(c1.axes)
    ensures forall i :: 0 <= i < |c1.axes| ==> r[i].name == c1.axes[i].name && r[i].kind == c1.axes[i].kind
    ensures forall i :: 0 <= i < |c1.axes| && c1.axes[i].name in Names(c2.axes) ==>
      Elems(r[i].labels) == Elems(c1.axes[i].labels) + Elems(AxisNamed(c2, c1.axes[i].name).labels)
    ensures forall i :: (0 <= i < |c1.axes| && c1.axes[i].name in Names(c2.axes)
      && AxisNamed(c2, c1.axes[i].name).labels != c1.axes[i].labels) ==> StrictlyIncreasing(r[i].labels)
    ensures forall i :: (0 <= i < |c1.axes| &&
      (c1.axes[i].name !in Names(c2.axes) || AxisNamed(c2, c1.axes[i].name).labels == c1.axes[i].labels)) ==> r[i] == c1.axes[i]
  {
    var r := seq(|c1.axes|, i requires 0 <= i < |c1.axes| =>
      var a := c1.axes[i];
      if a.name in Names(c2.axes) && AxisNamed(c2, a.name).labels != a.labels
      then a.(labels := SortUnique(a.labels + AxisNamed(c2, a.name).labels)) else a);
    assert Names(r) == Names(c1.axes);
    r
  }

  /** With equal label sets on every dimension, alignment keeps each dimension's label set. */
  lemma AlignedKeepsLabelSets(c1: Cube, c2: Cube)
    requires Valid(c1) && Valid(c2) && AllLabelsEqual(c1, c2)
    ensures forall i :: 0 <= i < |c1.axes| ==> Elems(AlignedAxes(c1, c2)[i].labels) == Elems(c1.axes[i].labels)
  {
    var r := AlignedAxes(c1, c2);
    forall i | 0 <= i < |c1.axes| ensures Elems(r[i].labels) == Elems(c1.axes[i].labels) {
      var n := c1.axes[i].name;
      if n in Names(c2.axes) {
        assert n in Names(c1.axes);
        NoExclusiveIffSameLabels(AxisNamed(c1, n).labels, AxisNamed(c2, n).labels);
        IndexOfUnique(Names(c1.axes), n, i);
      }
    }
  }

  /** When cube2 lists every shared dimension's labels in cube1's order, alignment changes nothing. */
  lemma AlignedIdentical(c1: Cube, c2: Cube)
    requires Valid(c1) && Valid(c2)
    requires forall i :: 0 <= i < |c1.axes| && c1.axes[i].name in Names(c2.axes) ==>
      AxisNamed(c2, c1.axes[i].name).labels == c1.axes[i].labels
    ensures AlignedAxes(c1, c2) == c1.axes
  {
  }

  /** Bands B03, B02 against B02, B03: the concatenated band dimension is sorted into B02, B03. */
  lemma PermutedBandsSorted()
    ensures var b2, b3 := Label.Text("B02"), Label.Text("B03");
      var c1 := Cube([Axis("bands", Bands, [b3, b2])], {}, None, map[]);
      var c2 := Cube([Axis("bands", Bands, [b2, b3])], {}, None, map[]);
      Valid(c1) && Valid(c2) && AlignedAxes(c1, c2)[0].labels == [b2, b3]
  {
    var b2, b3 := Label.Text("B02"), Label.Text("B03");
    var c1 := Cube([Axis("bands", Bands, [b3, b2])], {}, None, map[]);
    var c2 := Cube([Axis("bands", Bands, [b2, b3])], {}, None, map[]);
    assert Names(c2.axes) == ["bands"];
    assert AxisNamed(c2, "bands").labels == [b2, b3];
    var l := AlignedAxes(c1, c2)[0].labels;
    assert Lt(b2, b3) by {
      assert "B02"[..2] == "B03"[..2];
      assert StrLt("B02", "B03");
    }
    assert StrictlyIncreasing([b2, b3]);
    StrictlyIncreasingUnique(l, [b2, b3]);
  }

  /** The band order restored after combining: cube1's bands, then cube2's bands that cube1 lacks. */
  function BandOrder(bands1: seq<Label>, bands2: seq<Label>): (r: seq<Label>)
    ensures |r| >= |bands1| && r[..|bands1|] == bands1
    ensures forall b :: b in r[|bands1|..] <==> b in bands2 && b !in bands1
  {
    bands1 + Keep(bands2, bands1, false)
  }

  /** Every band of either cube is in the order, and cube1's bands lead it. */
  lemma BandOrderElems(bands1: seq<Label>, bands2: seq<Label>)
    ensures Elems(BandOrder(bands1, bands2)) == Elems(bands1) + Elems(bands2)
  {
    var r := BandOrder(bands1, bands2);
    assert r == bands1 + r[|bands1|..];
    forall b | b in Elems(bands1) + Elems(bands2) ensures b in Elems(r) {
      if b !in bands1 {
        assert b in r[|bands1|..];
      }
    }
  }

  /** With disjoint, unrepeated band labels the combined band dimension has as many labels as both together. */
  lemma BandOrderDisjoint(bands1: seq<Label>, bands2: seq<Label>)
    requires Elems(bands1) !! Elems(bands2)
    ensures BandOrder(bands1, bands2) == bands1 + bands2
  {
    assert forall i :: 0 <= i < |bands2| ==> bands2[i] in Elems(bands2);
    KeepAll(bands2, bands1);
  }

  /** The band order of merging a cube with bands B02 and B03 and one with band Fmask. */
  lemma FmaskAfterBands()
    ensures BandOrder([Label.Text("B02"), Label.Text("B03")], [Label.Text("Fmask")])
      == [Label.Text("B02"), Label.Text("B03"), Label.Text("Fmask")]
  {
    BandOrderDisjoint([Label.Text("B02"), Label.Text("B03")], [Label.Text("Fmask")]);
  }

  lemma {:induction false} KeepAll(xs: seq<Label>, ys: seq<Label>)
    requires forall i :: 0 <= i < |xs| ==> xs[i] !in ys
    ensures Keep(xs, ys, false) == xs
  {
    if xs != [] {
      KeepAll(xs[1..], ys);
      assert xs == [xs[0]] + xs[1..];
    }
  }

  /**
   * The combined cube of the no-overlap path: a dimension whose labels cube2
   * lists in the same order keeps them, any other holds the sorted union (the
   * concatenation of two pieces that combine is that union, and so is the
   * outer join of two variable groups); cube1's band dimension in band order.
   */
  function CombinedCube(c1: Cube, c2: Cube, bands1: string, bands2: string): (r: Cube)
    requires Valid(c1) && Valid(c2) && bands1 in Names(c1.axes) && bands2 in Names(c2.axes)
    ensures Valid(r) && Names(r.axes) == Names(c1.axes)
    ensures AxisNamed(r, bands1).labels == BandOrder(AxisNamed(c1, bands1).labels, AxisNamed(c2, bands2).labels)
    ensures r.attrs == DropConflicts(c1.attrs, c2.attrs)
  {
    var u := c1.(axes := AlignedAxes(c1, c2), coords := c1.coords + c2.coords, attrs := DropConflicts(c1.attrs, c2.attrs));
    WithLabels(u, bands1, BandOrder(AxisNamed(c1, bands1).labels, AxisNamed(c2, bands2).labels))
  }

  /** The broadcast result: the higher-dimensional cube's dimensions, then any the lower one adds. */
  function BroadcastCube(higher: Cube, lower: Cube): (r: Cube)
    ensures forall n :: n in Names(r.axes) <==> n in Names(higher.axes) || n in Names(lower.axes)
    ensures |r.axes| >= |higher.axes| && r.axes[..|higher.axes|] == higher.axes
    ensures r.attrs == higher.attrs && r.crs == higher.crs
    ensures Valid(higher) && Valid(lower) ==> Valid(r)
  {
    var extra := AxesWithout(lower.axes, Names(higher.axes));
    AxesWithoutNames(lower.axes, Names(higher.axes));
    NamesAppend(higher.axes, extra);
    assert Valid(higher) && Valid(lower) ==> NoDuplicates(Names(higher.axes) + Names(extra)) by {
      if Valid(higher) && Valid(lower) {
        AxesWithoutNames(lower.axes, Names(higher.axes));
        NoDuplicatesAppend(Names(higher.axes), Names(extra));
      }
    }
    higher.(axes := higher.axes + extra)
  }

  lemma NoDuplicatesAppend(a: seq<string>, b: seq<string>)
    requires NoDuplicates(a) && NoDuplicates(b) && forall n :: n in b ==> n !in a
    ensures NoDuplicates(a + b)
  {
    forall i, j | 0 <= i < j < |a + b| ensures (a + b)[i] != (a + b)[j] {
      if i < |a| <= j {
        assert (a + b)[j] in b;
      }
    }
  }

  // ---------------------------------------------------------------------------
  // combine_by_coords

  /** Every label of `a` sorts before every label of `b`. */
  predicate Before(a: seq<Label>, b: seq<Label>) {
    forall x, y :: x in a && y in b ==> Lt(x, y)
  }

  /**
   * `combine_by_coords` concatenating pieces along one dimension: a piece
   * without labels is refused (a size-zero dimension), every piece is
   * increasing, and no two pieces interleave, or the pieces, put in the order
   * of their first labels, do not form a monotonic index.
   */
  predicate Concatenable(pieces: seq<seq<Label>>) {
    && (forall i :: 0 <= i < |pieces| ==> pieces[i] != [] && StrictlyIncreasing(pieces[i]))
    && (forall i, j :: 0 <= i < |pieces| && 0 <= j < |pieces| && i != j ==>
          Before(pieces[i], pieces[j]) || Before(pieces[j], pieces[i]))
  }

  /** Two pieces that combine, taken in the order of their first labels, concatenate to their sorted union. */
  lemma ConcatenatedIsUnion(a: seq<Label>, b: seq<Label>)
    requires Concatenable([a, b]) && Before(a, b)
    ensures StrictlyIncreasing(a + b) && SortUnique(a + b) == a + b
  {
    var p, ab := [a, b], a + b;
    assert p[0] == a && p[1] == b;
    forall i, j | 0 <= i < j < |ab| ensures Lt(ab[i], ab[j]) {
      if j < |a| {
        assert ab[i] == a[i] && ab[j] == a[j];
      } else if i >= |a| {
        assert ab[i] == b[i - |a|] && ab[j] == b[j - |a|];
      } else {
        assert ab[i] in a && ab[j] in b;
      }
    }
    StrictlyIncreasingUnique(SortUnique(ab), ab);
  }

  /** Labels 1, 3 against 2, 4 interleave: `combine_by_coords` refuses them. */
  lemma InterleavedRefused()
    ensures !Concatenable([[Label.Num(1), Label.Num(3)], [Label.Num(2), Label.Num(4)]])
  {
    var p := [[Label.Num(1), Label.Num(3)], [Label.Num(2), Label.Num(4)]];
    assert p[0][1] in p[0] && p[1][0] in p[1] && !Lt(p[0][1], p[1][0]);
    assert p[0][0] in p[0] && !Lt(p[1][0], p[0][0]);
  }

  /**
   * The dimensions `combine_by_coords` concatenates along when both cubes'
   * bands became the same data variables: the shared ones, other than the band
   * dimensions, whose labels differ in value or in order.
   */
  function ConcatDims(names: seq<string>, c1: Cube, c2: Cube, bands1: string, bands2: string): (r: seq<string>)
    requires forall n :: n in names ==> n in Names(c1.axes) && n in Names(c2.axes)
    ensures forall n :: n in r <==>
      n in names && n != bands1 && n != bands2 && AxisNamed(c1, n).labels != AxisNamed(c2, n).labels
  {
    if names == [] then []
    else
      var n := names[0];
      var head := if n != bands1 && n != bands2 && AxisNamed(c1, n).labels != AxisNamed(c2, n).labels then [n] else [];
      var rest := ConcatDims(names[1..], c1, c2, bands1, bands2);
      assert forall m :: m in names <==> m == n || m in names[1..];
      head + rest
  }

  /**
   * The no-overlap path's `combine_by_coords` on the cubes turned into
   * datasets of their bands: different band sets are different groups of data
   * variables, merged by an outer join; the same band set is concatenated
   * along the one dimension whose labels differ, and those must combine.
   */
  predicate CombinesByCoords(c1: Cube, c2: Cube)
    requires Valid(c1) && Valid(c2) && BandDims(c1) != [] && BandDims(c2) != []
  {
    NamesOfKindInCube(c1, Bands);
    NamesOfKindInCube(c2, Bands);
    var b1, b2 := BandDims(c1)[0], BandDims(c2)[0];
    || Elems(AxisNamed(c1, b1).labels) != Elems(AxisNamed(c2, b2).labels)
    || var cd := ConcatDims(Shared(Names(c1.axes), Names(c2.axes)), c1, c2, b1, b2);
       |cd| == 1 && Concatenable([AxisNamed(c1, cd[0]).labels, AxisNamed(c2, cd[0]).labels])
  }

  /** The pieces the one-dimension path combines, as written: the resolved overlap, the rest of cube1, the rest of cube2. */
  function RestPieces(o: Overlap): seq<seq<Label>> {
    [o.inBoth, o.onlyIn1, o.onlyIn2]
  }

  /** The pieces that hold labels, in order. */
  function NonEmptyPieces(pieces: seq<seq<Label>>): (r: seq<seq<Label>>)
    ensures forall p :: p in r <==> p in pieces && p != []
    ensures (forall i :: 0 <= i < |pieces| ==> pieces[i] != []) ==> r == pieces
  {
    if pieces == [] then []
    else
      var rest := NonEmptyPieces(pieces[1..]);
      assert forall p :: p in pieces <==> p == pieces[0] || p in pieces[1..];
      if pieces[0] != [] then [pieces[0]] + rest else rest
  }

  /** Every shared dimension other than `d` lists the same labels in the same order in both cubes. */
  predicate OthersIdentical(c1: Cube, c2: Cube, d: string) {
    forall n :: n in Names(c1.axes) && n in Names(c2.axes) && n != d ==> AxisNamed(c1, n).labels == AxisNamed(c2, n).labels
  }

  /**
   * The one-dimension path's `combine_by_coords` as written: the resolved
   * overlap and both rests are combined, an empty rest included; any other
   * dimension whose labels differ makes the pieces no hypercube.
   */
  predicate ResolvableAsWritten(c1: Cube, c2: Cube, d: string)
    requires d in Names(c1.axes) && d in Names(c2.axes)
  {
    OthersIdentical(c1, c2, d) && Concatenable(RestPieces(OverlapAt(c1, c2, d)))
  }

  /** The one-dimension path corrected: an empty rest is left out of the combination. */
  predicate Resolvable(c1: Cube, c2: Cube, d: string)
    requires d in Names(c1.axes) && d in Names(c2.axes)
  {
    OthersIdentical(c1, c2, d) && Concatenable(NonEmptyPieces(RestPieces(OverlapAt(c1, c2, d))))
  }

  /** As written, the combination needs both rests non-empty. */
  lemma AsWrittenNeedsBothRests(c1: Cube, c2: Cube, d: string)
    requires d in Names(c1.axes) && d in Names(c2.axes)
    ensures ResolvableAsWritten(c1, c2, d) ==> OverlapAt(c1, c2, d).onlyIn1 != [] && OverlapAt(c1, c2, d).onlyIn2 != []
  {
    var p := RestPieces(OverlapAt(c1, c2, d));
    assert p[1] == OverlapAt(c1, c2, d).onlyIn1 && p[2] == OverlapAt(c1, c2, d).onlyIn2;
  }

  /** With both rests non-empty, the corrected combination is the one written. */
  lemma ResolvableWithBothRests(c1: Cube, c2: Cube, d: string)
    requires d in Names(c1.axes) && d in Names(c2.axes)
    requires OverlapAt(c1, c2, d).inBoth != []
    requires OverlapAt(c1, c2, d).onlyIn1 != [] && OverlapAt(c1, c2, d).onlyIn2 != []
    ensures Resolvable(c1, c2, d) <==> ResolvableAsWritten(c1, c2, d)
  {
    var p := RestPieces(OverlapAt(c1, c2, d));
    assert forall i :: 0 <= i < |p| ==> p[i] != [] by {
      assert p[0] == OverlapAt(c1, c2, d).inBoth && p[1] == OverlapAt(c1, c2, d).onlyIn1 && p[2] == OverlapAt(c1, c2, d).onlyIn2;
    }
  }

  /** As written: when one cube's labels on the dimension are all in the other cube, one rest is empty and the combination is refused. */
  lemma SubsetRestAsWritten(a: seq<Label>, b: seq<Label>)
    requires Elems(a) <= Elems(b) || Elems(b) <= Elems(a)
    ensures !Concatenable(RestPieces(OverlapOf(a, b)))
  {
    var o := OverlapOf(a, b);
    if o.onlyIn1 != [] {
      assert o.onlyIn1[0] in Elems(o.onlyIn1);
    }
    if o.onlyIn2 != [] {
      assert o.onlyIn2[0] in Elems(o.onlyIn2);
    }
    assert RestPieces(o)[1] == o.onlyIn1 && RestPieces(o)[2] == o.onlyIn2;
  }

  /**
   * Corrected: cube1's labels all in cube2, and cube2's own labels all on one
   * side of the shared ones; the empty rest is left out and the resolved
   * overlap and cube2's rest combine.
   */
  lemma SubsetRestResolved(a: seq<Label>, b: seq<Label>)
    requires a != [] && Elems(a) <= Elems(b) && Elems(a) != Elems(b)
    requires var o := OverlapOf(a, b); Before(o.inBoth, o.onlyIn2) || Before(o.onlyIn2, o.inBoth)
    ensures var o := OverlapOf(a, b);
      && NonEmptyPieces(RestPieces(o)) == [o.inBoth, o.onlyIn2]
      && Concatenable(NonEmptyPieces(RestPieces(o)))
  {
    var o := OverlapOf(a, b);
    NoElems(o.onlyIn1);
    assert a[0] in Elems(o.inBoth);
    var x :| x in Elems(b) - Elems(a);
    assert x in Elems(o.onlyIn2);
    DropMiddle(o.inBoth, o.onlyIn2);
    TwoApart(o.inBoth, o.onlyIn2);
  }

  lemma NoElems(xs: seq<Label>)
    ensures Elems(xs) == {} <==> xs == []
  {
    if xs != [] {
      assert xs[0] in Elems(xs);
    }
  }

  lemma DropMiddle(x: seq<Label>, y: seq<Label>)
    requires x != [] && y != []
    ensures NonEmptyPieces([x, [], y]) == [x, y]
  {
    assert [x, [], y][1..] == [[], y];
    assert [[], y][1..] == [y];
    assert [y][1..] == [];
  }

  lemma TwoApart(x: seq<Label>, y: seq<Label>)
    requires x != [] && y != [] && StrictlyIncreasing(x) && StrictlyIncreasing(y)
    requires Before(x, y) || Before(y, x)
    ensures Concatenable([x, y])
  {
    var p := [x, y];
    assert p[0] == x && p[1] == y;
  }

  /** The overlap records of labels t1 < t2 < t3: t1, t2 against t1, t2, t3. */
  lemma SubsetExampleOverlap(t1: Label, t2: Label, t3: Label)
    requires Lt(t1, t2) && Lt(t2, t3)
    ensures OverlapOf([t1, t2], [t1, t2, t3]) == Overlap([], [t3], [t1, t2])
  {
    var a, b := [t1, t2], [t1, t2, t3];
    LtIrreflexive(t1);
    LtIrreflexive(t2);
    LtIrreflexive(t3);
    LtTransitive(t1, t2, t3);
    assert Elems(a) == {t1, t2};
    assert Elems(b) == {t1, t2, t3};
    assert SetDiff(a, b) == [] by {
      SortedWithElems(SetDiff(a, b), []);
    }
    assert SetDiff(b, a) == [t3] by {
      assert Elems(SetDiff(b, a)) == Elems([t3]);
      SortedWithElems(SetDiff(b, a), [t3]);
    }
    assert Intersect(a, b) == a by {
      assert Elems(Intersect(a, b)) == Elems(a);
      SortedWithElems(Intersect(a, b), a);
    }
  }

  /** A sorted sequence is pinned down by its elements. */
  lemma SortedWithElems(xs: seq<Label>, ys: seq<Label>)
    requires StrictlyIncreasing(xs) && StrictlyIncreasing(ys) && Elems(xs) == Elems(ys)
    ensures xs == ys
  {
    StrictlyIncreasingUnique(xs, ys);
  }

  /**
   * Time labels t1 < t2 < t3, cube1 with t1, t2 and cube2 with all three: as
   * written the empty rest of cube1 is refused; corrected, the overlap and t3
   * combine.
   */
  lemma SubsetExample(t1: Label, t2: Label, t3: Label)
    requires Lt(t1, t2) && Lt(t2, t3)
    ensures var o := OverlapOf([t1, t2], [t1, t2, t3]);
      && !Concatenable(RestPieces(o))
      && Concatenable(NonEmptyPieces(RestPieces(o)))
  {
    SubsetExampleOverlap(t1, t2, t3);
    SubsetExamplePieces(OverlapOf([t1, t2], [t1, t2, t3]), t1, t2, t3);
  }

  lemma SubsetExamplePieces(o: Overlap, t1: Label, t2: Label, t3: Label)
    requires Lt(t1, t2) && Lt(t2, t3) && o == Overlap([], [t3], [t1, t2])
    ensures !Concatenable(RestPieces(o)) && Concatenable(NonEmptyPieces(RestPieces(o)))
  {
    EmptyPieceRefused(RestPieces(o), 1);
    LtTransitive(t1, t2, t3);
    DropMiddle([t1, t2], [t3]);
    TwoApart([t1, t2], [t3]);
  }

  /** The overlap records of labels t1 < t2 < t3: t2, t3 against t1, t2. */
  lemma ShiftedExampleOverlap(t1: Label, t2: Label, t3: Label)
    requires Lt(t1, t2) && Lt(t2, t3)
    ensures OverlapOf([t2, t3], [t1, t2]) == Overlap([t3], [t1], [t2])
  {
    var a, b := [t2, t3], [t1, t2];
    LtIrreflexive(t1);
    LtIrreflexive(t2);
    LtIrreflexive(t3);
    LtTransitive(t1, t2, t3);
    assert Elems(a) == {t2, t3};
    assert Elems(b) == {t1, t2};
    assert SetDiff(a, b) == [t3] by {
      assert Elems(SetDiff(a, b)) == Elems([t3]);
      SortedWithElems(SetDiff(a, b), [t3]);
    }
    assert SetDiff(b, a) == [t1] by {
      assert Elems(SetDiff(b, a)) == Elems([t1]);
      SortedWithElems(SetDiff(b, a), [t1]);
    }
    assert Intersect(a, b) == [t2] by {
      assert Elems(Intersect(a, b)) == Elems([t2]);
      SortedWithElems(Intersect(a, b), [t2]);
    }
  }

  /**
   * Labels t1 < t2 < t3 on the resolved dimension, cube1 with t2, t3 and
   * cube2 with t1, t2: the three pieces combine, cube2's rest t1 comes first,
   * and the result takes cube2's dimension order.
   */
  lemma EarlierCube2RestTakesOrder(c1: Cube, c2: Cube, d: string, t1: Label, t2: Label, t3: Label)
    requires d in Names(c1.axes) && d in Names(c2.axes) && Lt(t1, t2) && Lt(t2, t3)
    requires AxisNamed(c1, d).labels == [t2, t3] && AxisNamed(c2, d).labels == [t1, t2]
    ensures Concatenable(RestPieces(OverlapAt(c1, c2, d)))
    ensures ResolvedOrder(c1, c2, d) == Names(c2.axes)
  {
    ShiftedExampleOverlap(t1, t2, t3);
    ShiftedExamplePieces(OverlapAt(c1, c2, d), t1, t2, t3);
  }

  lemma ShiftedExamplePieces(o: Overlap, t1: Label, t2: Label, t3: Label)
    requires Lt(t1, t2) && Lt(t2, t3) && o == Overlap([t3], [t1], [t2])
    ensures Concatenable(RestPieces(o)) && Cube2RestFirst(o)
  {
    LtTransitive(t1, t2, t3);
    assert RestPieces(o) == [[t2], [t3], [t1]];
  }

  /** A piece without labels is refused. */
  lemma EmptyPieceRefused(pieces: seq<seq<Label>>, i: nat)
    requires i < |pieces| && pieces[i] == []
    ensures !Concatenable(pieces)
  {
  }

  /**
   * `combine_by_coords` concatenates the pieces in the order of their first
   * labels, and the result takes the dimension order of the first piece. The
   * resolved overlap and cube1's rest are in cube1's order, cube2's rest in
   * cube2's: cube2's order wins when its rest starts below the other pieces.
   */
  predicate Cube2RestFirst(o: Overlap) {
    && o.onlyIn2 != []
    && (o.inBoth != [] ==> Lt(o.onlyIn2[0], o.inBoth[0]))
    && (o.onlyIn1 != [] ==> Lt(o.onlyIn2[0], o.onlyIn1[0]))
  }

  /** The dimension order of the one-dimension result. */
  function ResolvedOrder(c1: Cube, c2: Cube, d: string): seq<string>
    requires d in Names(c1.axes) && d in Names(c2.axes)
  {
    if Cube2RestFirst(OverlapAt(c1, c2, d)) then Names(c2.axes) else Names(c1.axes)
  }

  /** Two duplicate-free name lists with the same names are as long as each other. */
  lemma SameNamesSameLength(a: seq<string>, b: seq<string>)
    requires NoDuplicates(a) && NoDuplicates(b) && Elems(a) == Elems(b)
    ensures |a| == |b|
  {
    NoDuplicatesCard(a);
    NoDuplicatesCard(b);
  }

  /** Transposing moves each axis but leaves it as it was. */
  lemma TransposedAxisNamed(c: Cube, order: seq<string>, n: string)
    requires Valid(c) && Transpose(c, order).Success? && n in order
    ensures n in Names(Transpose(c, order).value.axes)
    ensures AxisNamed(Transpose(c, order).value, n) == AxisNamed(c, n)
  {
    var t := Transpose(c, order).value;
    var k := IndexOf(order, n);
    IndexOfUnique(Names(t.axes), n, k);
  }

  /**
   * The one-dimension result in cube1's order: the resolved dimension holds
   * the sorted labels of both cubes (the pieces concatenated in the order of
   * their first labels), every other dimension is cube1's, and the attributes
   * are those of the combined pieces with conflicts dropped (cube1's own when
   * cube2 has no rest).
   */
  function ResolvedInOrder1(c1: Cube, c2: Cube, d: string): (r: Cube)
    requires Valid(c1) && d in Names(c1.axes) && d in Names(c2.axes)
    ensures Valid(r) && Names(r.axes) == Names(c1.axes)
    ensures AxisNamed(r, d).labels == SortUnique(AxisNamed(c1, d).labels + AxisNamed(c2, d).labels)
    ensures forall n :: n in Names(c1.axes) && n != d ==> AxisNamed(r, n) == AxisNamed(c1, n)
  {
    var a, b := AxisNamed(c1, d).labels, AxisNamed(c2, d).labels;
    var attrs := if OverlapAt(c1, c2, d).onlyIn2 != [] then DropConflicts(c1.attrs, c2.attrs) else c1.attrs;
    var r := WithLabels(c1.(coords := c1.coords + c2.coords, attrs := attrs), d, SortUnique(a + b));
    AxisNamedAt(r, IndexOf(Names(c1.axes), d));
    forall n | n in Names(c1.axes) && n != d ensures AxisNamed(r, n) == AxisNamed(c1, n) {
      AxisNamedAt(c1, IndexOf(Names(c1.axes), n));
      AxisNamedAt(r, IndexOf(Names(c1.axes), n));
    }
    r
  }

  /**
   * The one-dimension result: the cube above, with the dimensions in the
   * order of the first piece.
   */
  function ResolvedCube(c1: Cube, c2: Cube, d: string): (r: Cube)
    requires Valid(c1) && Valid(c2) && Elems(Names(c1.axes)) == Elems(Names(c2.axes))
    requires d in Names(c1.axes) && d in Names(c2.axes)
    ensures Valid(r) && Names(r.axes) == ResolvedOrder(c1, c2, d) && d in Names(r.axes)
    ensures StrictlyIncreasing(AxisNamed(r, d).labels)
    ensures Elems(AxisNamed(r, d).labels) == Elems(AxisNamed(c1, d).labels) + Elems(AxisNamed(c2, d).labels)
    ensures forall n :: n in Names(c1.axes) && n != d ==> n in Names(r.axes) && AxisNamed(r, n) == AxisNamed(c1, n)
  {
    var base := ResolvedInOrder1(c1, c2, d);
    assert Elems(AxisNamed(c1, d).labels + AxisNamed(c2, d).labels) == Elems(AxisNamed(c1, d).labels) + Elems(AxisNamed(c2, d).labels);
    if Cube2RestFirst(OverlapAt(c1, c2, d)) then
      SameNamesSameLength(Names(c1.axes), Names(c2.axes));
      assert forall n :: n in Names(c2.axes) <==> n in Elems(Names(c1.axes));
      assert Transpose(base, Names(c2.axes)).Success?;
      TransposedAxisNamed(base, Names(c2.axes), d);
      forall n | n in Names(c1.axes) && n != d
        ensures n in Names(Transpose(base, Names(c2.axes)).value.axes)
        ensures AxisNamed(Transpose(base, Names(c2.axes)).value, n) == AxisNamed(c1, n)
      {
        assert n in Elems(Names(c1.axes));
        TransposedAxisNamed(base, Names(c2.axes), n);
      }
      Transpose(base, Names(c2.axes)).value
    else base
  }

  // ---------------------------------------------------------------------------
  // merge_cubes

  /**
   * The branch for two cubes with the same dimensions and equal labels
   * everywhere: concatenated along `__cubes__`, or reduced by the resolver;
   * otherwise the partial overlaps decide.
   */
  function DecideAligned(c1: Cube, c2: Cube, resolver: Resolver): (r: Result<(Outcome, Cube), Error>)
    requires Valid(c1) && Valid(c2) && BandDims(c1) != [] && CubesDim !in Names(c1.axes)
    requires Elems(Names(c1.axes)) == Elems(Names(c2.axes))
    ensures r.Success? ==> Valid(r.value.1) && !r.value.0.Broadcast?
    ensures AllLabelsEqual(c1, c2) && resolver.Absent? ==> r.Success? && r.value.0.Concatenated?
    ensures AllLabelsEqual(c1, c2) && resolver.Process? ==> r.Success? && r.value.0 == ReducedCubes(Named())
    ensures !AllLabelsEqual(c1, c2) ==> r == DecideOverlap(c1, c2, resolver)
    ensures r.Success? && (r.value.0.ReducedCubes? || r.value.0.ResolvedOne?) ==> r.value.0.named == Named()
    ensures r.Success? && r.value.0.Concatenated? ==> Names(r.value.1.axes) == [CubesDim] + Names(c1.axes)
    ensures r.Success? && r.value.0.Concatenated? ==> r.value.1.axes[1..] == AlignedAxes(c1, c2)
    ensures r.Success? && r.value.0.ReducedCubes? ==> r.value.1.axes == AlignedAxes(c1, c2)
    ensures r.Success? && (r.value.0.ReducedCubes? || r.value.0.Combined?) ==> Names(r.value.1.axes) == Names(c1.axes)
    ensures r.Success? && r.value.0.ResolvedOne? ==>
      && r.value.0.dim in Names(c1.axes) && r.value.0.dim in Names(c2.axes)
      && Names(r.value.1.axes) == ResolvedOrder(c1, c2, r.value.0.dim)
  {
    if AllLabelsEqual(c1, c2) then
      match resolver
      case Absent => Success((Concatenated, Stacked(c1.(axes := AlignedAxes(c1, c2)))))
      case NotCallable => Failure(TypeError)
      case Process => Success((ReducedCubes(Named()), c1.(axes := AlignedAxes(c1, c2))))
    else DecideOverlap(c1, c2, resolver)
  }

  /**
   * Same dimensions, some labels differ: no partly overlapping dimension
   * combines the cubes by coordinates, one is resolved by the resolver and the
   * rest combined, more are refused; `combine_by_coords` refuses pieces that
   * do not combine.
   */
  function DecideOverlap(c1: Cube, c2: Cube, resolver: Resolver): (r: Result<(Outcome, Cube), Error>)
    requires Valid(c1) && Valid(c2) && BandDims(c1) != [] && Elems(Names(c1.axes)) == Elems(Names(c2.axes))
    ensures var rd := ResolveDims(Shared(Names(c1.axes), Names(c2.axes)), c1, c2);
      && (|rd| == 0 && BandDims(c2) == [] ==> r == Failure(IndexError))
      && (|rd| == 0 && BandDims(c2) != [] ==>
            (r.Success? <==> CombinesByCoords(c1, c2)) && (r.Success? ==> r.value.0 == Combined)
            && (r.Failure? ==> r.error == CombineFailed))
      && (|rd| == 1 && !resolver.Process? ==> r == Failure(OverlapResolverMissing))
      && (|rd| == 1 && resolver.Process? ==>
            && rd[0] in Names(c1.axes) && rd[0] in Names(c2.axes)
            && (r.Success? <==> Resolvable(c1, c2, rd[0]))
            && (r.Success? ==> r.value.0 == ResolvedOne(rd[0], Named()))
            && (r.Success? ==> Names(r.value.1.axes) == ResolvedOrder(c1, c2, rd[0]))
            && (r.Failure? ==> r.error == CombineFailed))
      && (|rd| > 1 ==> r.Failure? && r.error.MergeNotPossible?)
    ensures r.Success? ==> Valid(r.value.1)
    ensures r.Success? && r.value.0.Combined? ==> Names(r.value.1.axes) == Names(c1.axes)
  {
    NamesOfKindInCube(c1, Bands);
    var rd := ResolveDims(Shared(Names(c1.axes), Names(c2.axes)), c1, c2);
    if |rd| == 0 then
      NamesOfKindInCube(c2, Bands);
      if BandDims(c2) == [] then Failure(IndexError)
      else if !CombinesByCoords(c1, c2) then Failure(CombineFailed)
      else Success((Combined, CombinedCube(c1, c2, BandDims(c1)[0], BandDims(c2)[0])))
    else if |rd| == 1 then
      if !resolver.Process? then Failure(OverlapResolverMissing)
      else
        var d := rd[0];
        assert d in rd;
        if !Resolvable(c1, c2, d) then Failure(CombineFailed)
        else Success((ResolvedOne(d, Named()), ResolvedCube(c1, c2, d)))
    else Failure(MergeNotPossible("More than one overlapping dimension"))
  }

  /**
   * The decision once both cubes are on the same grid: no differing dimension
   * means concatenating (equal labels), combining (no dimension needs the
   * resolver) or resolving on the one dimension that does; one or two differing
   * dimensions mean broadcasting; more are refused.
   */
  function Decide(c1: Cube, c2: Cube, resolver: Resolver): (r: Result<(Outcome, Cube), Error>)
    requires Valid(c1) && Valid(c2) && BandDims(c1) != [] && CubesDim !in Names(c1.axes)
    ensures |Differing(c1, c2)| > 2 ==> r.Failure? && r.error.MergeNotPossible?
    ensures 0 < |Differing(c1, c2)| <= 2 && !resolver.Process? ==> r == Failure(OverlapResolverMissing)
    ensures 0 < |Differing(c1, c2)| <= 2 && resolver.Process? ==>
      r.Success? && r.value.0 == Broadcast(Named())
    ensures r.Success? ==> Valid(r.value.1)
    ensures r.Success? && (r.value.0.ReducedCubes? || r.value.0.ResolvedOne? || r.value.0.Broadcast?) ==>
      r.value.0.named == Named()
    ensures r.Success? && r.value.0.Concatenated? ==> Names(r.value.1.axes) == [CubesDim] + Names(c1.axes)
    ensures r.Success? && (r.value.0.ReducedCubes? || r.value.0.Combined?) ==> Names(r.value.1.axes) == Names(c1.axes)
    ensures r.Success? && r.value.0.ResolvedOne? ==>
      && r.value.0.dim in Names(c1.axes) && r.value.0.dim in Names(c2.axes)
      && Names(r.value.1.axes) == ResolvedOrder(c1, c2, r.value.0.dim)
    ensures r.Success? && r.value.0.ResolvedOne? ==>
      Names(r.value.1.axes) == Names(c1.axes) || Names(r.value.1.axes) == Names(c2.axes)
    ensures r.Success? && r.value.0.Broadcast? ==>
      forall n :: n in Names(r.value.1.axes) <==> n in Names(c1.axes) || n in Names(c2.axes)
  {
    var differing := Differing(c1, c2);
    if |differing| == 0 then
      assert Elems(Names(c1.axes)) == Elems(Names(c2.axes)) by {
        assert differing == {};
      }
      DecideAligned(c1, c2, resolver)
    else if |differing| <= 2 then
      if !resolver.Process? then Failure(OverlapResolverMissing)
      else
        var cube1IsLower := |c1.axes| < |c2.axes|;
        var higher := if cube1IsLower then c2 else c1;
        var lower := if cube1IsLower then c1 else c2;
        Success((Broadcast(BroadcastNamed(cube1IsLower)), BroadcastCube(higher, lower)))
    else Failure(MergeNotPossible("Number of differing dimensions is >2"))
  }

  /**
   * `merge_cubes`: cube1's x and y dimensions must be shared; if their labels
   * differ, cube2 is first resampled onto cube1 (`resample_cube_spatial` with
   * its default method), then the overlaps are recomputed and the path chosen.
   */
  function MergeCubes(
    c1: Cube, c2: Cube, resolver: Resolver,
    matchWarp: (Cube, Method) -> Plane, attrsAfter: map<string, string> -> map<string, string>)
    : (r: Result<(Outcome, Cube), Error>)
    requires Valid(c1) && Valid(c2) && CubesDim !in Names(c1.axes)
    ensures BandDims(c1) == [] ==> r == Failure(IndexError)
    ensures BandDims(c1) != [] && (FirstOfKind(c1, SpatialX).None? || FirstOfKind(c1, SpatialY).None?) ==> r == Failure(KeyError)
    ensures BandDims(c1) != [] && FirstOfKind(c1, SpatialX).Some? && FirstOfKind(c1, SpatialX).value !in Names(c2.axes) ==> r == Failure(KeyError)
    ensures BandDims(c1) != [] && FirstOfKind(c1, SpatialY).Some? && FirstOfKind(c1, SpatialY).value !in Names(c2.axes) ==> r == Failure(KeyError)
    ensures r.Success? ==> Valid(r.value.1)
    ensures r.Success? && (r.value.0.ReducedCubes? || r.value.0.ResolvedOne? || r.value.0.Broadcast?) ==>
      r.value.0.named == Named()
    ensures r.Success? && r.value.0.Concatenated? ==> Names(r.value.1.axes) == [CubesDim] + Names(c1.axes)
    ensures r.Success? && (r.value.0.ReducedCubes? || r.value.0.Combined?) ==> Names(r.value.1.axes) == Names(c1.axes)
    ensures r.Success? && r.value.0.ResolvedOne? ==>
      Names(r.value.1.axes) == Names(c1.axes) || Names(r.value.1.axes) == Names(c2.axes)
  {
    if BandDims(c1) == [] then Failure(IndexError)
    else match (FirstOfKind(c1, SpatialX), FirstOfKind(c1, SpatialY))
    case (Some(x), Some(y)) =>
      if x !in Names(c2.axes) || y !in Names(c2.axes) then Failure(KeyError)
      else
        NamesOfKindInCube(c1, SpatialX);
        NamesOfKindInCube(c1, SpatialY);
        assert x in Names(c1.axes) && y in Names(c1.axes);
        if HasExclusive(OverlapAt(c1, c2, x)) || HasExclusive(OverlapAt(c1, c2, y)) then
          var resampled :- ResampleCubeSpatial(c2, c1, "near", matchWarp, attrsAfter);
          Decide(c1, resampled, resolver)
        else Decide(c1, c2, resolver)
    case _ => Failure(KeyError)
  }

  // ---------------------------------------------------------------------------
  // Properties of the decision

  /**
   * Equal dimension sets and equal label sets everywhere, and no resolver: a
   * two-label `__cubes__` dimension is added in front of the aligned
   * dimensions, each with its label set unchanged.
   */
  lemma EqualCubesConcatenate(c1: Cube, c2: Cube)
    requires Valid(c1) && Valid(c2) && BandDims(c1) != [] && CubesDim !in Names(c1.axes)
    requires Elems(Names(c1.axes)) == Elems(Names(c2.axes))
    requires forall n :: n in Names(c1.axes) && n in Names(c2.axes) ==>
      Elems(AxisNamed(c1, n).labels) == Elems(AxisNamed(c2, n).labels)
    ensures var r := Decide(c1, c2, Absent);
      && r.Success? && r.value.0 == Concatenated
      && Names(r.value.1.axes) == [CubesDim] + Names(c1.axes)
      && |r.value.1.axes[0].labels| == 2 && r.value.1.axes[1..] == AlignedAxes(c1, c2)
      && forall i :: 0 <= i < |c1.axes| ==> Elems(r.value.1.axes[i + 1].labels) == Elems(c1.axes[i].labels)
  {
    assert Differing(c1, c2) == {};
    forall n | n in Names(c1.axes) && n in Names(c2.axes) ensures !HasExclusive(OverlapAt(c1, c2, n)) {
      NoExclusiveIffSameLabels(AxisNamed(c1, n).labels, AxisNamed(c2, n).labels);
    }
    AlignedKeepsLabelSets(c1, c2);
  }

  /** Cubes whose labels agree in order too: the concatenation keeps cube1's dimensions exactly. */
  lemma IdenticalCubesConcatenate(c1: Cube, c2: Cube)
    requires Valid(c1) && Valid(c2) && BandDims(c1) != [] && CubesDim !in Names(c1.axes)
    requires Elems(Names(c1.axes)) == Elems(Names(c2.axes))
    requires forall n :: n in Names(c1.axes) && n in Names(c2.axes) ==> AxisNamed(c2, n).labels == AxisNamed(c1, n).labels
    ensures var r := Decide(c1, c2, Absent);
      r.Success? && r.value.0 == Concatenated && r.value.1.axes[1..] == c1.axes
  {
    EqualCubesConcatenate(c1, c2);
    forall i | 0 <= i < |c1.axes| && c1.axes[i].name in Names(c2.axes)
      ensures AxisNamed(c2, c1.axes[i].name).labels == c1.axes[i].labels
    {
      assert c1.axes[i].name in Names(c1.axes);
      IndexOfUnique(Names(c1.axes), c1.axes[i].name, i);
    }
    AlignedIdentical(c1, c2);
  }

  /**
   * Same dimensions, some labels different, none both shared and exclusive:
   * combined by coordinates, cube1's bands first and then cube2's new ones,
   * exactly when the pieces combine; otherwise `combine_by_coords` refuses.
   */
  lemma NoOverlapCombines(c1: Cube, c2: Cube, resolver: Resolver)
    requires Valid(c1) && Valid(c2) && BandDims(c1) != [] && BandDims(c2) != [] && CubesDim !in Names(c1.axes)
    requires Elems(Names(c1.axes)) == Elems(Names(c2.axes))
    requires exists n :: n in Names(c1.axes) && n in Names(c2.axes) && Elems(AxisNamed(c1, n).labels) != Elems(AxisNamed(c2, n).labels)
    requires forall n :: n in Names(c1.axes) && n in Names(c2.axes) ==>
      Elems(AxisNamed(c1, n).labels) == Elems(AxisNamed(c2, n).labels)
      || Elems(AxisNamed(c1, n).labels) !! Elems(AxisNamed(c2, n).labels)
    ensures var r := Decide(c1, c2, resolver);
      && (r.Success? <==> CombinesByCoords(c1, c2))
      && (r.Failure? ==> r.error == CombineFailed)
      && (r.Success? ==>
            && r.value.0 == Combined && Names(r.value.1.axes) == Names(c1.axes)
            && AxisNamed(r.value.1, BandDims(c1)[0]).labels ==
               BandOrder(AxisNamed(c1, BandDims(c1)[0]).labels, AxisNamed(c2, BandDims(c2)[0]).labels))
  {
    assert Differing(c1, c2) == {};
    var n :| n in Names(c1.axes) && n in Names(c2.axes) && Elems(AxisNamed(c1, n).labels) != Elems(AxisNamed(c2, n).labels);
    NoExclusiveIffSameLabels(AxisNamed(c1, n).labels, AxisNamed(c2, n).labels);
    assert !AllLabelsEqual(c1, c2);
    var shared := Shared(Names(c1.axes), Names(c2.axes));
    forall m | m in shared ensures !RequiresResolve(OverlapAt(c1, c2, m)) {
      var a, b := AxisNamed(c1, m).labels, AxisNamed(c2, m).labels;
      NoExclusiveIffSameLabels(a, b);
      if OverlapOf(a, b).inBoth != [] {
        OverlapPartition(a, b);
        NonEmptyHasElement(OverlapOf(a, b).inBoth);
      }
    }
    assert ResolveDims(shared, c1, c2) == [];
  }

  lemma NonEmptyHasElement(xs: seq<Label>)
    requires xs != []
    ensures Elems(xs) != {}
  {
    assert xs[0] in Elems(xs);
  }

  /** One dimension with shared and exclusive labels and no callable resolver: OverlapResolverMissing. */
  lemma OneOverlapNeedsResolver(c1: Cube, c2: Cube, resolver: Resolver)
    requires Valid(c1) && Valid(c2) && BandDims(c1) != [] && CubesDim !in Names(c1.axes)
    requires Elems(Names(c1.axes)) == Elems(Names(c2.axes)) && !resolver.Process?
    requires |ResolveDims(Shared(Names(c1.axes), Names(c2.axes)), c1, c2)| == 1
    ensures Decide(c1, c2, resolver) == Failure(OverlapResolverMissing)
  {
    assert Differing(c1, c2) == {};
    var rd := ResolveDims(Shared(Names(c1.axes), Names(c2.axes)), c1, c2);
    assert rd[0] in rd;
    assert !AllLabelsEqual(c1, c2);
  }

  /** When cube1's x and y labels are already cube2's, cube2 is not resampled and the decision is taken on the cubes as given. */
  lemma SameGridNoResample(
    c1: Cube, c2: Cube, resolver: Resolver,
    matchWarp: (Cube, Method) -> Plane, attrsAfter: map<string, string> -> map<string, string>)
    requires Valid(c1) && Valid(c2) && BandDims(c1) != [] && CubesDim !in Names(c1.axes)
    requires FirstOfKind(c1, SpatialX).Some? && FirstOfKind(c1, SpatialY).Some?
    requires FirstOfKind(c1, SpatialX).value in Names(c2.axes) && FirstOfKind(c1, SpatialY).value in Names(c2.axes)
    requires forall n :: n in Names(c1.axes) && n in Names(c2.axes) ==>
      Elems(AxisNamed(c1, n).labels) == Elems(AxisNamed(c2, n).labels)
    ensures MergeCubes(c1, c2, resolver, matchWarp, attrsAfter) == Decide(c1, c2, resolver)
  {
    var x := FirstOfKind(c1, SpatialX).value;
    var y := FirstOfKind(c1, SpatialY).value;
    NamesOfKindInCube(c1, SpatialX);
    NamesOfKindInCube(c1, SpatialY);
    NoExclusiveIffSameLabels(AxisNamed(c1, x).labels, AxisNamed(c2, x).labels);
    NoExclusiveIffSameLabels(AxisNamed(c1, y).labels, AxisNamed(c2, y).labels);
  }

  /**
   * One dimension with shared and exclusive labels and a resolver process:
   * that dimension is resolved, with `x` from cube1 and `y` from cube2, and
   * holds the sorted labels of both cubes, exactly when the overlap and the
   * non-empty rests combine; otherwise `combine_by_coords` refuses.
   */
  lemma OneOverlapResolved(c1: Cube, c2: Cube)
    requires Valid(c1) && Valid(c2) && BandDims(c1) != [] && CubesDim !in Names(c1.axes)
    requires Elems(Names(c1.axes)) == Elems(Names(c2.axes))
    requires |ResolveDims(Shared(Names(c1.axes), Names(c2.axes)), c1, c2)| == 1
    ensures var d := ResolveDims(Shared(Names(c1.axes), Names(c2.axes)), c1, c2)[0];
      && d in Names(c1.axes) && d in Names(c2.axes) && RequiresResolve(OverlapAt(c1, c2, d))
      && var r := Decide(c1, c2, Process);
      && (r.Success? <==> Resolvable(c1, c2, d))
      && (r.Failure? ==> r.error == CombineFailed)
      && (r.Success? ==>
            && r.value.0 == ResolvedOne(d, Named()) && Names(r.value.1.axes) == ResolvedOrder(c1, c2, d)
            && StrictlyIncreasing(AxisNamed(r.value.1, d).labels)
            && Elems(AxisNamed(r.value.1, d).labels) == Elems(AxisNamed(c1, d).labels) + Elems(AxisNamed(c2, d).labels)
            && forall n :: n in Names(c1.axes) && n != d ==> n in Names(r.value.1.axes) && AxisNamed(r.value.1, n) == AxisNamed(c1, n))
  {
    assert Differing(c1, c2) == {};
    var rd := ResolveDims(Shared(Names(c1.axes), Names(c2.axes)), c1, c2);
    assert rd[0] in rd;
    assert !AllLabelsEqual(c1, c2);
  }
}
