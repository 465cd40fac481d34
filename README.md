# tensorlakehouse openEO driver: label and dimension bookkeeping, in Dafny

This project models the process implementations of the tensorlakehouse openEO
driver. These are the openEO processes that the driver runs on
xarray/rioxarray data cubes, and the model covers the bookkeeping they do
around the numerics:

- dimension and label renaming (`rename_dimension`, `rename_labels`, the
  rename-and-back in `clip`);
- the temporal helpers (`aggregate_temporal`, `_create_bins`,
  `aggregate_temporal_period`, `filter_by_time`,
  `remove_repeated_time_coords`);
- the stack / reproject / unstack skeleton of `reproject_cube` and
  `_reproject_cube_match`;
- the branches of `resample_spatial` and `resample_cube_spatial`;
- the strategy selection of `merge_cubes`;
- the small parsers behind `load_collection` and `convert_point_to_4326`.

A raster cube (`Cubes.Cube`) is an ordered list of named dimensions. Each
dimension has a kind (x, y, temporal, bands, other) and a label sequence. The
kind is given with the cube: how the openEO xarray accessor infers it from the
dimension's name is not modelled. The
cube also records the set of names that carry coordinates, an optional CRS and
the attribute dictionary. Cell values appear only where an operation depends
on them. There they are a series of `(label, slice)` pairs along one
dimension, with `None` for no-data.

The reprojection warp, the overlap resolver, reducers and `rio.clip_box` are
opaque. They enter as function parameters. The model records only what they
may change: the labels of the spatial plane and the attributes the warp
writes, or nothing at all. The no-data value written before the warp is
modelled.

Files, one module each:

- `wrappers.dfy`: Option and Result.
- `labels.dfy`: labels, their total order, sorting with de-duplication, first-occurrence distinct.
- `cubes.dfy`: the cube, the error kinds, xarray's `rename` and `transpose`.
- `renaming.dfy`: `rename_dimension` in both files, `rename_labels`, `clip`.
- `temporal.dfy`: temporal-dimension resolution, bins, reducer and period dispatch.
- `timeaxis.dfy`: `filter_by_time`, `remove_repeated_time_coords`.
- `reprojection.dfy`: stacking, the product index, unstacking, `reproject_cube`, `_reproject_cube_match`.
- `resampling.dfy`: `resample_spatial`, `resample_cube_spatial`.
- `merging.dfy`: `merge_cubes`.
- `catalog.dfy`: `_get_dimension_names`, `_is_data_on_hbase`, the CRS string of `convert_point_to_4326`.

Three behaviours of the code that are easy to miss:

- the EPSG parsing of `convert_point_to_4326` takes the text after the first
  colon and reads it as an integer;
- `merge_cubes` indexes cube1's first band dimension before anything else, so
  a cube1 without one is an IndexError; cube2's band dimension is needed only
  where the cubes are combined by coordinates;
- `combine_by_coords` refuses a piece without labels and pieces whose labels
  interleave, so `merge_cubes` fails on cubes with the same bands whose time
  labels interleave, and on a cube whose labels on the resolved dimension all
  lie in the other's (see Findings).

## Model

| member | source | states |
|---|---|---|
| Cubes.XrRename | tensorlakehouse_openeo_driver/processes.py:107 | renaming a dimension fails exactly when the new name is another dimension or coordinate; otherwise only that dimension's name changes, in place, and names stay unique |
| Cubes.Transpose | tensorlakehouse_openeo_driver/processes.py:601 | succeeds exactly when the order lists every dimension once; the axes then follow that order, each with its own labels |
| Cubes.TransposeIdentity | tensorlakehouse_openeo_driver/geospatial_utils.py:197 | transposing into the cube's own order gives the cube back |
| Renaming.RenameDimension | tensorlakehouse_openeo_driver/processes.py:76-108 | a target that is already a dimension is ProcessParameterInvalid; an absent source returns the cube unchanged; otherwise the source is renamed in place and every other dimension and the order are kept |
| Renaming.RenameDimensionInverse | tensorlakehouse_openeo_driver/processes.py:99-108 | renaming source to target and back gives the original cube |
| Renaming.ReplaceAllPairwise | tensorlakehouse_openeo_driver/processes.py:138-140 | with distinct sources disjoint from the targets, each label equal to a source becomes that source's target and every other label stays |
| Renaming.ReplaceTwoPairs | tensorlakehouse_openeo_driver/processes.py:138-140 | pairs apply in order: a label written by the first pair is rewritten by the second when it equals its source |
| Renaming.ReplaceInPlace | tensorlakehouse_openeo_driver/processes.py:137-140 | the in-place loop over the label array leaves exactly the pairwise replacement of the old labels |
| Renaming.StoredIn | tensorlakehouse_openeo_driver/processes.py:140 | a text target stored in a fixed-width text array keeps its first `width` characters, and is unchanged when it fits |
| Renaming.FixedWidthAgrees | tensorlakehouse_openeo_driver/processes.py:140 | on a label that occurs, the fixed-width replacement equals the intended one exactly when the target fits the width |
| Renaming.BlueAsWritten | tensorlakehouse_openeo_driver/processes.py:137-140 | renaming B02 to "blue" in a width-3 band array gives "blu", where the intended replacement gives "blue" |
| Renaming.RenameLabels | tensorlakehouse_openeo_driver/processes.py:111-147 | missing dimension is LabelNotAvailable; with `source`, unequal lengths are LabelMismatch, otherwise only that dimension's labels are replaced pair by pair; without `source`, a target of the dimension's length becomes its labels and any other length is LabelNotAvailable |
| Renaming.RenameEachNames | tensorlakehouse_openeo_driver/geospatial_utils.py:48-52 | a successful dict-order rename leaves the number of dimensions and their order; each name becomes its chain of renames and names stay unique |
| Renaming.RenameDimensions | tensorlakehouse_openeo_driver/geospatial_utils.py:48-52 | the loop renames exactly as the in-order fold does, skipping sources that are not dimensions and stopping at the first conflict |
| Renaming.RenameEachFailurePersists | tensorlakehouse_openeo_driver/geospatial_utils.py:49-51 | once a rename fails the later pairs do not change the outcome |
| Renaming.ClipBox | tensorlakehouse_openeo_driver/geospatial_utils.py:42 | `clip_box` needs dimensions named x and y; it keeps the dimension names and changes only the x and y labels |
| Renaming.RenameEachTwo | tensorlakehouse_openeo_driver/geospatial_utils.py:40 | a two-entry rename dict is the first rename followed by the second |
| Renaming.ClipKeepsDimensions | tensorlakehouse_openeo_driver/geospatial_utils.py:40-44 | renaming x_dim/y_dim to x/y, clipping and renaming back gives the input's dimension names, with every non-spatial axis unchanged |
| Renaming.Clip | tensorlakehouse_openeo_driver/geospatial_utils.py:15-45 | an array without CRS needs a code: an absent one is TypeError, a non-positive or unknown one InvalidCrs, and neither changes the array; a known code is written in place; an array with a CRS is not changed; the result is the rename-clip-rename pipeline |
| Temporal.NamesOfKindNone | tensorlakehouse_openeo_driver/processes.py:518 | no temporal dimension is reported exactly when no axis is temporal |
| Temporal.NamesOfKindMany | tensorlakehouse_openeo_driver/processes.py:522 | more than one temporal dimension is reported exactly when two distinct axes are temporal |
| Temporal.ResolveTemporalDimension | tensorlakehouse_openeo_driver/processes.py:511-526 | an explicit dimension is used when it exists and is DimensionNotAvailable otherwise; a resolved dimension is always a dimension of the cube |
| Temporal.ResolveWithoutDimension | tensorlakehouse_openeo_driver/processes.py:517-526 | without an explicit dimension: none temporal is DimensionNotAvailable, several are TooManyDimensions, exactly one is used |
| Temporal.EndpointsElems | tensorlakehouse_openeo_driver/processes.py:548-552 | the collected endpoints are exactly the interval starts and ends |
| Temporal.CreateBins | tensorlakehouse_openeo_driver/processes.py:546-553 | the loop returns a strictly increasing sequence whose elements are exactly the starts and ends |
| Temporal.BinsDetermined | tensorlakehouse_openeo_driver/processes.py:553 | the bins depend only on the set of endpoints |
| Temporal.ToLowerIdempotent | tensorlakehouse_openeo_driver/processes.py:530 | lower-casing twice is lower-casing once |
| Temporal.SelectReducer | tensorlakehouse_openeo_driver/processes.py:529-541 | a reducer is selected exactly when it is a name whose lower case is one of that reducer's aliases; anything else is NotImplemented |
| Temporal.SelectReducerCaseInsensitive | tensorlakehouse_openeo_driver/processes.py:530-537 | the selection ignores letter case |
| Temporal.FallsInBinRange | tensorlakehouse_openeo_driver/processes.py:528 | with sorted edges a label falls in a bin of `pd.cut` exactly when it is above the first edge and at most the last |
| Temporal.TooFewEdges | tensorlakehouse_openeo_driver/processes.py:528 | fewer than two edges make grouping fail whatever the labels |
| Temporal.AggregateTemporal | tensorlakehouse_openeo_driver/processes.py:498-543 | dimension errors first; then grouping fails (BinningFailed) when the labels are repeated or not one fewer than the edges, or no label of the dimension falls in a bin; then an unknown reducer is NotImplemented; success holds the resolved dimension, the sorted edges, the labels and the reducer |
| Temporal.NoIntervalsFailBinning | tensorlakehouse_openeo_driver/processes.py:527-541 | with no intervals grouping fails, so even an unknown reducer such as "sum" gets the grouping error |
| Temporal.ParsePeriod | tensorlakehouse_openeo_driver/processes.py:1027-1041 | a period parses exactly when it is one of the six names; any other is NotImplemented |
| Temporal.FrequencyInjective | tensorlakehouse_openeo_driver/processes.py:1027-1034 | distinct periods get distinct frequencies |
| Temporal.DropAllMissing | tensorlakehouse_openeo_driver/processes.py:1050 | keeps exactly the bins that are not entirely no-data, and each kept bin is an input bin |
| Temporal.DropAllMissingAppend | tensorlakehouse_openeo_driver/processes.py:1050 | dropping works piece by piece on a split series, so the kept bins stay in input order |
| Temporal.DropAllMissingSingle | tensorlakehouse_openeo_driver/processes.py:1050 | one bin is kept exactly when it holds some data |
| Temporal.DropAllMissingIdempotent | tensorlakehouse_openeo_driver/processes.py:1050 | dropping all-missing bins twice is dropping them once |
| Temporal.DropAllMissingKeeps | tensorlakehouse_openeo_driver/processes.py:1050 | a series with no all-missing bin is left as it is |
| Temporal.AggregateTemporalPeriod | tensorlakehouse_openeo_driver/processes.py:1002-1052 | succeeds exactly when the dimension resolves, the period parses and the dimension is temporal (a named band dimension, say, is refused by the resampling as a TypeError), and then is the resampled and reduced series along that dimension with its all-missing bins dropped: no all-missing bin is left and every bin kept is a reduced one |
| Temporal.AggregateAlongBandsRefused | tensorlakehouse_openeo_driver/processes.py:1010-1043 | naming a band dimension passes the dimension check and ends in a TypeError from the resampling |
| TimeAxis.MaxLabel | tensorlakehouse_openeo_driver/geospatial_utils.py:77 | the open end is the largest time label, one of the labels |
| TimeAxis.Between | tensorlakehouse_openeo_driver/geospatial_utils.py:87 | keeps exactly the steps with start <= t <= end, and each kept step is an input step |
| TimeAxis.BetweenAppend | tensorlakehouse_openeo_driver/geospatial_utils.py:87 | selection works piece by piece on a split series, so the kept steps stay in input order |
| TimeAxis.BetweenSnoc | tensorlakehouse_openeo_driver/geospatial_utils.py:87 | a step added at the end is kept exactly when it is in range |
| TimeAxis.BetweenSingle | tensorlakehouse_openeo_driver/geospatial_utils.py:87 | one step is kept exactly when it is in range |
| TimeAxis.BetweenSorted | tensorlakehouse_openeo_driver/geospatial_utils.py:87 | selecting from a sorted time axis leaves it sorted |
| TimeAxis.FilterByTime | tensorlakehouse_openeo_driver/geospatial_utils.py:55-88 | an empty time axis is an AssertionFailed; otherwise the result is the in-order selection of the steps within [start, end], with a missing end taken as the latest time, and stays sorted |
| TimeAxis.FilterOpenEnd | tensorlakehouse_openeo_driver/geospatial_utils.py:76-77 | with no end every step at or after the start is kept |
| TimeAxis.CombineFirst | tensorlakehouse_openeo_driver/geospatial_utils.py:106 | `combine_first` keeps the first slice's value and fills its gaps from the second |
| TimeAxis.MergedFirstPresent | tensorlakehouse_openeo_driver/geospatial_utils.py:103-108 | a merged cell is the first non-missing value for that time in input order |
| TimeAxis.Deduplicated | tensorlakehouse_openeo_driver/geospatial_utils.py:101-112 | the output time labels are the distinct input labels in first-occurrence order |
| TimeAxis.DeduplicatedOfDistinct | tensorlakehouse_openeo_driver/geospatial_utils.py:99-100 | with no repeated time the series is returned unchanged |
| TimeAxis.GroupStep | tensorlakehouse_openeo_driver/geospatial_utils.py:102-108 | one pass of the loop keeps the dictionary's keys equal to the timestamps seen and each value equal to their merged slice |
| TimeAxis.GroupByTime | tensorlakehouse_openeo_driver/geospatial_utils.py:102-108 | the loop files each time exactly once, in first-occurrence order, with the merged slice |
| TimeAxis.Others | tensorlakehouse_openeo_driver/geospatial_utils.py:109-111 | exactly the dimension names other than the given one, still unique |
| TimeAxis.OthersAppend | tensorlakehouse_openeo_driver/geospatial_utils.py:109-111 | the other names keep their relative order |
| TimeAxis.TimeFirst | tensorlakehouse_openeo_driver/geospatial_utils.py:109-111 | after `xr.concat` along time the time dimension leads and the others follow in their order; the set of names is unchanged |
| TimeAxis.TimeFirstWhenFirst | tensorlakehouse_openeo_driver/geospatial_utils.py:109-111 | a time dimension that already leads keeps the order |
| TimeAxis.TimeMovesToFront | tensorlakehouse_openeo_driver/geospatial_utils.py:109-111 | bands, time, y, x becomes time, bands, y, x |
| TimeAxis.RemoveRepeatedTimeCoords | tensorlakehouse_openeo_driver/geospatial_utils.py:91-114 | a time dimension that is not a dimension is AssertionFailed; without repeated times the array comes back as it is; otherwise the series is de-duplicated and the time dimension moves to the front |
| TimeAxis.DeduplicatedFirstPresent | tensorlakehouse_openeo_driver/geospatial_utils.py:101-112 | every output cell is the first non-missing value of its time, and the label set is unchanged |
| Reprojection.ProductColumns | tensorlakehouse_openeo_driver/geospatial_utils.py:161-164 | each column of the stacked index, de-duplicated, is that level's labels |
| Reprojection.ProductNoDuplicates | tensorlakehouse_openeo_driver/geospatial_utils.py:161-164 | levels without repeated labels give an index without repeated tuples |
| Reprojection.AxesWithoutAppend | tensorlakehouse_openeo_driver/geospatial_utils.py:145-147 | dropping the named dimensions works piece by piece, so the others keep their order |
| Reprojection.AxesWithoutSingle | tensorlakehouse_openeo_driver/geospatial_utils.py:145-147 | one axis is kept exactly when its name is not dropped |
| Reprojection.AxesWithoutNames | tensorlakehouse_openeo_driver/geospatial_utils.py:145-147 | the dimensions other than the named ones are exactly the others, still unique |
| Reprojection.FirstWithoutCoords | tensorlakehouse_openeo_driver/geospatial_utils.py:151-153 | finds a stacked dimension without coordinates exactly when there is one |
| Reprojection.Stack | tensorlakehouse_openeo_driver/geospatial_utils.py:161-164 | stacking removes the named dimensions and saves them as the levels of a product index |
| Reprojection.Unstack | tensorlakehouse_openeo_driver/geospatial_utils.py:191-193 | unstacking fails exactly on repeated tuples and otherwise appends one axis per level |
| Reprojection.WriteNodataIfMissing | tensorlakehouse_openeo_driver/geospatial_utils.py:166-168 | an array without a no-data attribute gets `_FillValue` NaN and one with it is left as it is; afterwards it has a no-data value and every earlier attribute |
| Reprojection.WriteNodataIdempotent | tensorlakehouse_openeo_driver/geospatial_utils.py:166-167 | writing the no-data value again changes nothing |
| Reprojection.Warped | tensorlakehouse_openeo_driver/geospatial_utils.py:171-178 | the warped plane keeps its two dimension names, takes the target CRS and the attributes the warp writes after the no-data write |
| Reprojection.StackWarpUnstack | tensorlakehouse_openeo_driver/geospatial_utils.py:161-197 | the result has the input's dimension order, the target CRS and the attributes the warp writes from the input's once a no-data value is written; a cube without a CRS is refused |
| Reprojection.ReprojectCube | tensorlakehouse_openeo_driver/geospatial_utils.py:137-199 | a dimension without coordinates, a reserved dimension name or a missing CRS is an error; success keeps the dimension order, sets the target CRS and carries the warp's attributes of the input with a no-data value written |
| Reprojection.LevelAxesRestore | tensorlakehouse_openeo_driver/geospatial_utils.py:183-193 | restoring the saved index and unstacking rebuilds each stacked axis with exactly its labels |
| Reprojection.StackWarpUnstackRoundTrip | tensorlakehouse_openeo_driver/geospatial_utils.py:161-197 | the round trip keeps every non-spatial axis and its labels and the original order; only y and x labels may change |
| Reprojection.ReprojectRoundTrip | tensorlakehouse_openeo_driver/geospatial_utils.py:137-199 | `reproject_cube` keeps every non-spatial axis and its labels and the original dimension order |
| Reprojection.MatchNonSpatial | tensorlakehouse_openeo_driver/processes.py:859-861 | the stacked dimensions are the band then the temporal dimensions, without repeats |
| Reprojection.ReprojectCubeMatch | tensorlakehouse_openeo_driver/processes.py:853-914 | the same error cases as `reproject_cube` plus a missing x or y; success keeps the dimension order, takes the target's CRS and carries the warp's attributes of the input with a no-data value written |
| Reprojection.ReprojectMatchRoundTrip | tensorlakehouse_openeo_driver/processes.py:878-912 | with only band, temporal, y and x dimensions, every band and temporal axis keeps its labels and the order is restored |
| Reprojection.ReprojectMatchOtherDimensionFails | tensorlakehouse_openeo_driver/processes.py:890-891 | a cube with another dimension fails, because the stacked cube cannot be transposed to y, x |
| Resample.MemberNamed | tensorlakehouse_openeo_driver/processes.py:962-966 | finds the Resampling member of that name exactly when there is one |
| Resample.SpatialMethod | tensorlakehouse_openeo_driver/processes.py:957-970 | "near" becomes "nearest"; a method is chosen exactly when a member has that name, otherwise the error names the method |
| Resample.CubeSpatialMethodAsWritten | tensorlakehouse_openeo_driver/processes.py:585-598 | a method outside the list is refused; one in the list is looked up by its own name |
| Resample.CubicSplineAsWritten | tensorlakehouse_openeo_driver/processes.py:563 | "cubicspline" passes the list check and then fails the lookup |
| Resample.CubeSpatialMethod | tensorlakehouse_openeo_driver/processes.py:559-598 | every listed name selects the member it stands for, and only listed names are accepted |
| Resample.CubeSpatialMethodAgrees | tensorlakehouse_openeo_driver/processes.py:585-598 | apart from "cubicspline" the corrected and the written lookup agree |
| Resample.RoundHalfEven | tensorlakehouse_openeo_driver/processes.py:989-990 | Python's `round`: within one half, and ties go to the even integer |
| Resample.RoundHalfEvenNearest | tensorlakehouse_openeo_driver/processes.py:989-990 | the integer strictly within one half is the rounding |
| Resample.PixelCount | tensorlakehouse_openeo_driver/processes.py:989-990 | at least one pixel, and within half a pixel of extent / resolution |
| Resample.TargetCrsAsWritten | tensorlakehouse_openeo_driver/processes.py:949-954 | an integer gives its EPSG CRS exactly when it is positive and the registry knows it; text succeeds exactly when it is non-empty and parses; no projection fails |
| Resample.ProjectionUnsetAsWritten | tensorlakehouse_openeo_driver/processes.py:953-954 | without a projection the code cannot build a target CRS |
| Resample.TargetCrs | tensorlakehouse_openeo_driver/processes.py:944-954 | no projection means the data's own CRS; otherwise as written |
| Resample.PlanResampleSpatial | tensorlakehouse_openeo_driver/processes.py:942-997 | both unset is AssertionFailed; succeeds exactly when the CRS and the method are found and, in the same-CRS branch, a resolution is given; another CRS reprojects with resolution 0 as none; the same CRS sizes the grid by the pixel counts of the bounds, and a zero resolution keeps the grid (corrected, see Findings) |
| Resample.SameCrsShapeAsWritten | tensorlakehouse_openeo_driver/processes.py:986-990 | fails with ZeroDivisionError exactly when the resolution is 0; otherwise at least one pixel per axis, by the pixel counts of the bounds |
| Resample.SameCrsShape | tensorlakehouse_openeo_driver/processes.py:986-990 | no shape (the grid is kept) exactly when the resolution is 0; otherwise the shape as written |
| Resample.ZeroResolutionAsWritten | tensorlakehouse_openeo_driver/processes.py:984-990 | the default resolution with the data's own EPSG code takes the same-CRS branch, where the shape divides by zero |
| Resample.ZeroResolutionKeepsGrid | tensorlakehouse_openeo_driver/processes.py:932-935 | corrected, that call plans a warp to the data's CRS with neither resolution nor shape |
| Resample.ResolutionOnly | tensorlakehouse_openeo_driver/processes.py:984-997 | with only a resolution the data keep their CRS and each side is within half a pixel of the extent |
| Resample.HalfPixel | tensorlakehouse_openeo_driver/processes.py:989-990 | the pixel count times the resolution is within half a pixel of the extent |
| Resample.ResampleSpatial | tensorlakehouse_openeo_driver/processes.py:917-999 | plan errors propagate; success keeps the dimension order and sets the planned CRS |
| Resample.ResampleSpatialKeepsLabels | tensorlakehouse_openeo_driver/processes.py:978-997 | a successful resample keeps every non-spatial axis and its labels |
| Resample.Present | tensorlakehouse_openeo_driver/processes.py:582-583 | `missing_dims="ignore"` keeps the listed names that are dimensions, in order |
| Resample.OneLetterNamesAgree | tensorlakehouse_openeo_driver/processes.py:575-580 | with one-letter x and y names the written order is the intended one |
| Resample.LatLonAsWritten | tensorlakehouse_openeo_driver/processes.py:575-582 | for a cube with dimensions bands, time, lat, lon the written order cannot be transposed to |
| Resample.RequiredOrderPermutes | tensorlakehouse_openeo_driver/processes.py:575-582 | bands, time, y, x is a permutation of a cube with only those kinds of dimension |
| Resample.KeepAttrs | tensorlakehouse_openeo_driver/processes.py:603-606 | every attribute of the input except the crs one (any case) is copied over; the rest stays |
| Resample.KeepAttrsCrs | tensorlakehouse_openeo_driver/processes.py:605 | a crs attribute is never copied from the input |
| Resample.KeepAttrsIdempotent | tensorlakehouse_openeo_driver/processes.py:603-606 | copying twice is copying once |
| Resample.CopyAttrs | tensorlakehouse_openeo_driver/processes.py:604-606 | the loop leaves exactly the copied attributes |
| Resample.ResampleCubeSpatial | tensorlakehouse_openeo_driver/processes.py:556-607 | a missing x or y is TypeError, an unlisted method or a target without CRS is an error; success keeps the data's dimension order, takes the target's CRS, and its attributes are those the warp writes from the data's (with a no-data value written) with every non-crs attribute of the data copied over |
| Merging.SetDiff | tensorlakehouse_openeo_driver/processes.py:629-630 | `setdiff1d`: sorted, unique, exactly the labels of one side missing on the other |
| Merging.Intersect | tensorlakehouse_openeo_driver/processes.py:631 | `intersect1d`: sorted, unique, exactly the shared labels |
| Merging.OverlapPartition | tensorlakehouse_openeo_driver/processes.py:627-634 | the three records split each cube's labels and are pairwise disjoint |
| Merging.NoExclusiveIffSameLabels | tensorlakehouse_openeo_driver/processes.py:637-645 | no exclusive label on a dimension exactly when both label sets are equal |
| Merging.ResolveDims | tensorlakehouse_openeo_driver/processes.py:700-705 | exactly the shared dimensions with both shared and exclusive labels |
| Merging.NamedAsWrittenDiffers | tensorlakehouse_openeo_driver/processes.py:685-688 | the written resolver keys are `x` and `y` only for dimensions called x and y |
| Merging.LonLatAsWritten | tensorlakehouse_openeo_driver/processes.py:773-777 | with lon/lat dimensions the resolver gets no `x` argument |
| Merging.BroadcastNamed | tensorlakehouse_openeo_driver/processes.py:832-838 | in the broadcast path `x` is always cube1's data and `y` cube2's, whichever cube is lower |
| Merging.DropConflicts | tensorlakehouse_openeo_driver/processes.py:732 | keys on which the cubes disagree are dropped; the rest are kept |
| Merging.DropConflictsSymmetric | tensorlakehouse_openeo_driver/processes.py:732 | which cube comes first does not matter |
| Merging.Stacked | tensorlakehouse_openeo_driver/processes.py:671-673 | the new `__cubes__` dimension comes first with the two labels cube1 and cube2, followed by cube1's axes |
| Merging.AlignedAxes | tensorlakehouse_openeo_driver/processes.py:671 | the outer join of `xr.concat`: a dimension whose labels cube2 lists in the same order keeps them, any other shared one holds the union of both, sorted |
| Merging.AlignedKeepsLabelSets | tensorlakehouse_openeo_driver/processes.py:669-671 | with equal label sets the join keeps each dimension's label set |
| Merging.AlignedIdentical | tensorlakehouse_openeo_driver/processes.py:671 | with identical label sequences the join changes nothing |
| Merging.PermutedBandsSorted | tensorlakehouse_openeo_driver/processes.py:671 | bands B03, B02 against B02, B03 are joined into B02, B03 |
| Merging.ConcatenatedIsUnion | tensorlakehouse_openeo_driver/processes.py:728 | two pieces that combine, concatenated in the order of their first labels, are increasing and equal to their sorted union |
| Merging.InterleavedRefused | tensorlakehouse_openeo_driver/processes.py:728 | time labels 1, 3 against 2, 4 interleave and are refused |
| Merging.ConcatDims | tensorlakehouse_openeo_driver/processes.py:710-728 | exactly the shared dimensions, other than the band ones, whose labels differ in value or order |
| Merging.NonEmptyPieces | tensorlakehouse_openeo_driver/processes.py:786-797 | exactly the pieces with labels; nothing is dropped when all have labels |
| Merging.EmptyPieceRefused | tensorlakehouse_openeo_driver/processes.py:794-797 | a piece without labels makes the combination fail |
| Merging.AsWrittenNeedsBothRests | tensorlakehouse_openeo_driver/processes.py:786-797 | as written, the one-dimension path succeeds only when both rests have labels |
| Merging.ResolvableWithBothRests | tensorlakehouse_openeo_driver/processes.py:786-797 | when both rests have labels the corrected combination is the one written |
| Merging.SubsetRestAsWritten | tensorlakehouse_openeo_driver/processes.py:786-797 | as written, a cube whose labels on the resolved dimension all lie in the other's leaves an empty rest and is refused |
| Merging.SubsetRestResolved | tensorlakehouse_openeo_driver/processes.py:786-797 | corrected, such a cube merges: the empty rest is left out and the overlap and the other rest combine when they do not interleave |
| Merging.SubsetExampleOverlap | tensorlakehouse_openeo_driver/processes.py:627-634 | t1, t2 against t1, t2, t3 split into no label only in cube1, t3 only in cube2, and t1, t2 in both |
| Merging.SubsetExample | tensorlakehouse_openeo_driver/processes.py:786-797 | for t1, t2 against t1, t2, t3 the pieces as written are refused and the corrected ones combine |
| Merging.ResolvedInOrder1 | tensorlakehouse_openeo_driver/processes.py:786-797 | in cube1's order, the resolved dimension holds the sorted labels of both cubes and every other axis is cube1's |
| Merging.ResolvedCube | tensorlakehouse_openeo_driver/processes.py:786-797 | the resolved dimension holds the sorted labels of both cubes, every other axis is cube1's, and the dimensions come in the order of the piece `combine_by_coords` puts first: cube2's when its rest starts below the other pieces, cube1's otherwise |
| Merging.ShiftedExampleOverlap | tensorlakehouse_openeo_driver/processes.py:650-656 | the overlap records of t2, t3 against t1, t2 |
| Merging.EarlierCube2RestTakesOrder | tensorlakehouse_openeo_driver/processes.py:786-797 | cube1 with t2, t3 and cube2 with t1, t2 on the resolved dimension: the pieces combine and the result takes cube2's dimension order |
| Merging.BandOrder | tensorlakehouse_openeo_driver/processes.py:718-722 | cube1's bands first, then exactly cube2's bands not in cube1 |
| Merging.BandOrderElems | tensorlakehouse_openeo_driver/processes.py:718-722 | every band of either cube is in the order |
| Merging.BandOrderDisjoint | tensorlakehouse_openeo_driver/processes.py:718-722 | disjoint band lists are simply appended |
| Merging.FmaskAfterBands | tensorlakehouse_openeo_driver/tests/integration/test_views.py:624 | bands B02, B03 merged with Fmask give B02, B03, Fmask |
| Merging.CombinedCube | tensorlakehouse_openeo_driver/processes.py:707-734 | keeps cube1's dimension order, joins every other shared dimension as the outer join does, reorders bands as above and drops conflicting attributes |
| Merging.BroadcastCube | tensorlakehouse_openeo_driver/processes.py:807-823 | the higher-dimensional cube's dimensions then the extra ones, unique names, its attributes and CRS |
| Merging.DecideAligned | tensorlakehouse_openeo_driver/processes.py:661-697 | same dimensions and equal labels: the joined dimensions concatenated along `__cubes__` without a resolver, reduced with `x` from cube1 and `y` from cube2 with one; otherwise the overlap branch decides |
| Merging.DecideOverlap | tensorlakehouse_openeo_driver/processes.py:698-799 | no partly overlapping dimension: IndexError when cube2 has no band dimension, else combined exactly when `combine_by_coords` accepts the two cubes and a ValueError otherwise; exactly one: OverlapResolverMissing without a resolver process, else resolved exactly when the overlap and the non-empty rests combine and a ValueError otherwise; more than one is refused; a combined result keeps cube1's dimension order, a resolved one takes the order of the first piece |
| Merging.Decide | tensorlakehouse_openeo_driver/processes.py:659-848 | more than two differing dimensions is refused; one or two without a resolver is OverlapResolverMissing, with one is a broadcast; every resolver gets `x` from cube1 and `y` from cube2; results are valid cubes of the stated shape; reductions and combinations keep cube1's dimension order, a resolved result takes the order of the first piece |
| Merging.MergeCubes | tensorlakehouse_openeo_driver/processes.py:610-850 | a cube1 without band dimension is IndexError; then a missing x or y on cube1, or one cube2 lacks, is KeyError; success is a valid cube; concatenation adds `__cubes__` in front, reductions and combinations keep cube1's order, and a resolved result has cube1's or cube2's order |
| Merging.EqualCubesConcatenate | tensorlakehouse_openeo_driver/processes.py:661-681 | equal dimensions and label sets without resolver concatenate along a two-label `__cubes__` dimension in front of the joined dimensions, each with its label set unchanged |
| Merging.IdenticalCubesConcatenate | tensorlakehouse_openeo_driver/processes.py:661-681 | when the label sequences agree too, the concatenation keeps cube1's dimensions exactly |
| Merging.NoOverlapCombines | tensorlakehouse_openeo_driver/processes.py:698-734 | same dimensions, labels equal or disjoint per dimension: combined by coordinates, with cube1's bands first, exactly when `combine_by_coords` accepts the cubes (different band sets, or the same band set and one dimension whose labels differ and do not interleave); ValueError otherwise |
| Merging.OneOverlapNeedsResolver | tensorlakehouse_openeo_driver/processes.py:736-743 | one dimension to resolve and no callable resolver is OverlapResolverMissing |
| Merging.OneOverlapResolved | tensorlakehouse_openeo_driver/processes.py:736-797 | one dimension to resolve with a resolver: that dimension is resolved, holding the sorted labels of both cubes, exactly when the overlap and the non-empty rests combine and every other shared dimension has the same labels in both, with every other axis cube1's and the dimensions in the order of the first piece; ValueError otherwise |
| Merging.SameGridNoResample | tensorlakehouse_openeo_driver/processes.py:636-657 | when x and y labels already agree cube2 is not resampled |
| Catalog.GetDimensionNames | tensorlakehouse_openeo_driver/processes.py:353-379 | the loop builds exactly the in-order role map, failing on the first entry without a role |
| Catalog.RoutedSucceeds | tensorlakehouse_openeo_driver/processes.py:365-378 | the map is built exactly when every entry has a type, and every spatial one an axis |
| Catalog.RoutedFailurePersists | tensorlakehouse_openeo_driver/processes.py:365-368 | the first entry without a role decides the error |
| Catalog.RoutedKeys | tensorlakehouse_openeo_driver/processes.py:365-378 | the keys are exactly the roles of the entries |
| Catalog.RoutedLastWins | tensorlakehouse_openeo_driver/processes.py:365-378 | each role names the last entry filed under it |
| Catalog.DimensionNamesExample | tensorlakehouse_openeo_driver/processes.py:370-378 | spatial x/y entries go under their axis, temporal under time, bands under bands |
| Catalog.IsDataOnHbase | tensorlakehouse_openeo_driver/processes.py:275-298 | true exactly when the keywords are a list that contains "hbase" |
| Catalog.SecondField | tensorlakehouse_openeo_driver/geospatial_utils.py:207 | `split(":")[1]` is IndexError exactly when there is no colon, and holds no colon |
| Catalog.ParseInt | tensorlakehouse_openeo_driver/geospatial_utils.py:207 | succeeds exactly when the text after at most one sign is a non-empty run of ASCII decimal digits, and any other text is ValueError; a negative value needs a minus sign |
| Catalog.ParseIntLeadingZeros | tensorlakehouse_openeo_driver/geospatial_utils.py:207 | a leading zero does not change the value |
| Catalog.ParseIntSigns | tensorlakehouse_openeo_driver/geospatial_utils.py:207 | a plus sign reads as nothing and a minus sign negates |
| Catalog.ParseIntBareSign | tensorlakehouse_openeo_driver/geospatial_utils.py:207 | a sign alone, or two signs, is not an integer |
| Catalog.EpsgCode | tensorlakehouse_openeo_driver/geospatial_utils.py:206-207 | an integer CRS is used as is; text without a colon is IndexError |
| Catalog.EpsgCodeRoundTrip | tensorlakehouse_openeo_driver/geospatial_utils.py:206-207 | "authority:code" reads back as the code, for any authority without a colon |
| Catalog.ParseIntToString | tensorlakehouse_openeo_driver/geospatial_utils.py:207 | `int(str(n)) == n` |

## Left out

- `load_collection`, `_load_collection_from_external_openeo_instance` and `save_result`: STAC and network clients, remote openEO calls and serialisation.
- `aggregate_spatial`, `_check_geometries_within_data_boundaries`, `_get_bounding_box` and `to_epsg4326`: shapely and pyproj work on floats.
- The pyproj transform in `convert_point_to_4326`: only its CRS parsing is modelled.
- `remove_files_in_dir`, `_find_files_in_dir`, logging: file system and configuration.
- The warp itself (`rio.reproject`, `rio.reproject_match`: the new y and x labels and the attributes it writes), `rio.clip_box`, reducers and the overlap resolver: opaque parameters. Values and the coordinates of the warped plane are not modelled.
- Reprojection.HasNodata: the no-data value is looked for in the attributes only; one kept in the array's encoding is not modelled.
- `constants.py` is not part of this model. The default dimension names "time" and "bands" are taken from the driver's tests.
- Timezone normalisation in `filter_by_time`: timestamps are integer labels that already compare.
- TimeAxis.FilterByTime: requires a sorted time axis. A pandas slice on an unsorted index behaves differently and is not modelled.
- Renaming.RenameLabels: labels are replaced as the operation intends. numpy casts each target to the type of the label array: a fixed-width text array cuts longer targets (see Findings, modelled by Renaming.ReplaceOneFixedWidth), and a numeric or datetime array parses or refuses text targets. The type of a label array is not part of the cube, so neither cast is applied here.
- Renaming.ReplaceInPlace: the array holds labels of any kind and width; the fixed-width cast of numpy is not applied (see Renaming.RenameLabels).
- Temporal.AggregateTemporalPeriod: a dimension counts as datetime-indexed, and so resamplable, exactly when it is of temporal kind; a temporal dimension whose labels pandas cannot resample is not modelled.
- Temporal.AggregateTemporal: bins are compared with the dimension's labels in the label order; pandas' type errors when the labels are not timestamps, and the numerics of the reducers, are not modelled.
- Temporal.ToLower: ASCII letters only; Python's Unicode `lower()` is not modelled.
- Catalog.ParseInt: ASCII digits only. Python's `int()` also accepts surrounding whitespace, digit-group underscores and the decimal digits of other scripts (Arabic-Indic, Devanagari and so on); these are not modelled.
- Resample.SpatialMethod: the `inspect.getmembers` scan would also match dunder attribute names of the enum; only the method members are modelled.
- Projections given as floats in `resample_spatial`: the model takes an integer code or text.
- CRS equality is structural: two spellings of the same CRS count as different.
- Resample.PixelCount: extent and resolution are exact reals. Python divides floats, so a quotient near a half can round the other way (0.7 / 0.2 is 3.4999999999999996 in floats).
- Resample.TargetCrsAsWritten: the EPSG registry and the CRS text parser are opaque parameters; which codes and texts rasterio accepts is not modelled.
- Renaming.Clip: the registry of known EPSG codes is an opaque parameter.
- Merging.MergeCubes: requires a valid cube pair and no `__cubes__` dimension on cube1. The `isinstance` check on the two cubes is not modelled.
- Merging.AlignedAxes: a shared dimension whose label sequences differ gets the sorted union without repeats. Repeated labels, which pandas keeps in a union and xarray refuses to align on, are not modelled.
- Merging.Concatenable: pieces whose labels decrease, which `combine_by_coords` also concatenates, are modelled as refused.
- Merging.CombinesByCoords: a shared dimension listing the same labels in another order counts as one to concatenate along and is refused; xarray accepts some such cases when the first labels agree. Cubes whose first band dimensions have different names are not modelled.
- Merging.OthersIdentical: in the one-dimension path another shared dimension whose labels differ is refused, as `combine_by_coords` cannot tile the pieces; the case where every piece starts with the same label there, which xarray accepts, is not modelled.
- Merging.ResolvedCube: the reduced overlap is taken to carry cube1's attributes (`keep_attrs=True`); what the resolver itself does to attributes is not modelled.
- Merging.BroadcastCube: the shared dimensions keep the higher-dimensional cube's labels. The outer join of `broadcast_like` is not modelled.
- Merging.Decide: a resolver that is given but not callable is taken to fail as a TypeError when the equal-labels path reduces with it.
- Reprojection.Stack: stacking no dimension at all is modelled as an error (EmptyStack).

## Findings

| source | as written | input that shows it | evidently intended | confidence | as-written member | corrected member |
|---|---|---|---|---|---|---|
| tensorlakehouse_openeo_driver/processes.py:575-580 | `tuple(y_dim)` and `tuple(x_dim)` split the dimension names into their characters | dimensions bands, time, lat, lon: the required order is bands, time, l, a, t, l, o, n and the transpose fails | the order bands, time, y_dim, x_dim | not executed | Resample.LatLonAsWritten | Resample.RequiredOrderPermutes |
| tensorlakehouse_openeo_driver/processes.py:949-954 | with no projection, `CRS.from_string(None)` is called | `resample_spatial` with only a resolution | the data keep their own CRS and only the resolution changes | not executed | Resample.ProjectionUnsetAsWritten | Resample.ResolutionOnly |
| tensorlakehouse_openeo_driver/processes.py:563 | "cubicspline" is accepted, then looked up as a Resampling member, whose name is cubic_spline | `resample_cube_spatial` with method "cubicspline" gives KeyError | "cubicspline" selects cubic spline resampling | not executed | Resample.CubicSplineAsWritten | Resample.CubeSpatialMethod |
| tensorlakehouse_openeo_driver/processes.py:137-140 | the replacement is written into the numpy array of the labels, whose fixed-width text type cuts longer targets | bands B02, B03 renamed with source B02 and target "blue": the labels become "blu", B03 | the labels become "blue", B03 | not executed; holds when the band labels are a fixed-width text array, as xarray keeps them for text coordinates | Renaming.BlueAsWritten | Renaming.RenameLabels |
| tensorlakehouse_openeo_driver/processes.py:685-688 | the resolver's named arguments are keyed by cube1's x and y dimension names | x and y dimensions called lon and lat: the resolver gets no `x` | `x` and `y`, as in the broadcast path at lines 832-838 | not executed | Merging.LonLatAsWritten | Merging.Decide |
| tensorlakehouse_openeo_driver/processes.py:786-797 | the resolved overlap and both rests are passed to `combine_by_coords`, a rest without labels included | time labels t1 < t2 < t3, cube1 with t1, t2 and cube2 with all three: cube1's rest has no time label and `combine_by_coords` raises ValueError (size-zero dimension) | an empty rest is left out, so the overlap is resolved and t3 comes from cube2 | not executed | Merging.SubsetRestAsWritten | Merging.SubsetRestResolved |
| tensorlakehouse_openeo_driver/processes.py:984-990 | the same-CRS branch divides the extent by the resolution, whose default is 0 and documented as keeping the resolution | `resample_spatial` with the data's own EPSG code and the default resolution: ZeroDivisionError | a zero resolution keeps the grid, as it does in the other branch | not executed | Resample.ZeroResolutionAsWritten | Resample.ZeroResolutionKeepsGrid |
