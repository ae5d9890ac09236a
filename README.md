# Counter-tray mesh analysis, modelled in Dafny

This project models the reporting core of a toolkit that checks 3D-printable counter trays and
their box. It covers three scripts.

- `scripts/mesh-analyzer.py` analyses every STL of a manifest and builds `report.json`:
  - the per-mesh statistics, errors and warnings (`analyze_mesh`);
  - the combined counters and issue list of `main`;
  - the placed bounding-box intersection check (`check_intersections`);
  - the spatial layout with its per-axis fit check (`compute_spatial_analysis`).
- `scripts/render-view.py` chooses a camera. It covers the preset angles, the explicit position,
  the zoom, the marker spheres and their colours.
- `analyze_stl.py` derives cross-section facts from the points of a box mesh:
  - the overall bounds;
  - the inner Y candidates;
  - the gaps between Y values;
  - the Z level of a step in the Y range;
  - the positive and negative Y wall positions.

## How the model is built

- Mesh libraries are not modelled. What `trimesh` computes for a mesh is an input (`MeshProperties`):
  bounds, counts, volume, area, watertightness, winding consistency, face areas.
- Dictionaries with insertion order are lists of key/value pairs (`Report.Dict`). `Put` keeps an
  existing key in place and appends a new key, as a Python dict does.
- The loops of the source are methods with loop invariants. Each method is proved equal to a
  specification function:
  - `CheckIntersections` equals `Messages(IntersectionFindings(..))`;
  - `CollectTrays` equals `Trays` and `RunningMax`;
  - `ProcessFiles` equals `MeshTable`, `EntryTable`, `CombinedIssues`, `LoadedVertices` and `LoadedFaces`;
  - `FindGaps` equals `Gaps`;
  - `DetectStep` equals `StepZ`.
- Lemmas then state what those functions promise.
- Some source operations become parameters:
  - `round(x, 2)` is `round2` and `round(y, 1)` / `np.round` is `round`;
  - `:.1f` formatting is `fmt`;
  - the selected box's settings and the context's tray list are parameters;
  - the file outcome (missing, failed, loaded) is given per file.
- Integer formatting of the degenerate-face count is modelled (`Strings.NatToString`), with its round trip.
- `str.lower` is modelled on ASCII letters only.
- Modules, in order of dependency:
  - `Util`, `Strings`, `Geometry`;
  - `Placements`, `Validation`, `Intersections`, `SpatialFit`, `Report`;
  - `Camera`;
  - `CrossSection`.

## Model

| member | source | states |
|---|---|---|
| Strings.ReplaceChar | scripts/mesh-analyzer.py:320 | every occurrence of the character is replaced and nothing else changes; the replaced character no longer occurs |
| Strings.RemoveAllSuffix | scripts/mesh-analyzer.py:347 | removing every ".stl" from a stem without a '.' followed by ".stl" gives back the stem |
| Strings.JoinContains | scripts/render-view.py:50 | a comma-joined list contains each of its parts |
| Strings.NatToStringRoundTrip | scripts/mesh-analyzer.py:68 | the decimal rendering of a count parses back to the count |
| Strings.NatToStringInjective | scripts/mesh-analyzer.py:68 | different counts render as different digit strings |
| Placements.PlacementKeyShape | scripts/mesh-analyzer.py:320 | the key is "tray_", the letter, "_", then the name with every space turned into "_"; it has no space after the letter and it is a tray name |
| Placements.BuildPlacements | scripts/mesh-analyzer.py:312-321 | the loop over the context's trays builds exactly the placement table `PlacementsOf` |
| Placements.PlacementsOfKeys | scripts/mesh-analyzer.py:318-321 | a key is in the table exactly when some tray entry produces it |
| Placements.PlacementsOfLastWins | scripts/mesh-analyzer.py:318-321 | a key holds the placement of the last entry that produces it |
| Placements.PlacedBounds | scripts/mesh-analyzer.py:243-253 | X is shifted by the placement's x and Y by its y (0 when missing), Z and the extents are unchanged, and a mesh without a placement keeps its bounds |
| Placements.TrayFileFindsPlacement | scripts/mesh-analyzer.py:320-347 | the mesh loaded from `<key>.stl` is named `<key>`, so its placement is found |
| Validation.CountBelow | scripts/mesh-analyzer.py:66 | the degenerate count is 0 exactly when no area is below the limit, and all faces exactly when every area is |
| Validation.CountBelowAppend | scripts/mesh-analyzer.py:66 | the count of a list is the sum of the counts of its parts, and one area counts 1 exactly when it is below the limit, so the count is the number of areas below 1e-10 |
| Validation.Warnings | scripts/mesh-analyzer.py:54-61 | the watertight warning is present exactly when the mesh is not watertight, the winding warning exactly when winding is inconsistent, in that order |
| Validation.Errors | scripts/mesh-analyzer.py:63-70 | one error exactly when the face areas are readable and some are below 1e-10, carrying that count; none otherwise |
| Validation.AnalyzeMesh | scripts/mesh-analyzer.py:19-77 | the report carries the counts, the volume only for a watertight mesh, the extents, the validation flags, the errors and the warnings |
| Validation.NotWatertightWarningIsFiltered | scripts/mesh-analyzer.py:57-58 | the not-watertight warning mentions "watertight" once lower-cased |
| Validation.WindingWarningIsKept | scripts/mesh-analyzer.py:60-61 | the winding warning does not mention "watertight" once lower-cased |
| Intersections.Present | scripts/mesh-analyzer.py:241 | the mesh list keeps exactly the meshes that are present |
| Intersections.PresentKeepsOrder | scripts/mesh-analyzer.py:241 | the mesh list keeps dictionary order: one entry gives its part exactly when its mesh is there, and the parts of two runs of entries are those of the first run followed by those of the second |
| Intersections.OverlapTest | scripts/mesh-analyzer.py:263-267 | the early-exit loop over the axes finds overlap exactly when no axis separates the boxes by the 0.5 margin |
| Intersections.OverlapsSymmetric | scripts/mesh-analyzer.py:263-267 | overlap does not depend on the order of the two boxes |
| Intersections.TouchingIsNotOverlap | scripts/mesh-analyzer.py:261-267 | boxes that meet within the margin on one axis do not overlap |
| Intersections.AxisFindingsSpec | scripts/mesh-analyzer.py:275-278 | on one axis, at most a min finding then a max finding, each present exactly when the tray passes that side of the box by more than the margin |
| Intersections.OutsideFindingsMembership | scripts/mesh-analyzer.py:272-278 | a containment finding is reported exactly when the tray passes that side of that axis |
| Intersections.OutsideFindingsOrdered | scripts/mesh-analyzer.py:274-278 | containment findings come in the order X min, X max, Y min, … Z max |
| Intersections.OutsideIssues | scripts/mesh-analyzer.py:274-278 | the loop over X, Y, Z produces the messages of `OutsideFindings` |
| Intersections.PairIssues | scripts/mesh-analyzer.py:263-280 | the inner loop body produces the messages of `PlacedPairFindings` |
| Intersections.PairFindingsCases | scripts/mesh-analyzer.py:269-280 | a pair gives a finding exactly when the placed boxes overlap, the first is a tray, and either the second is "box" and the tray passes one side, or both are trays and the finding is their collision |
| Intersections.PairFindingsBounded | scripts/mesh-analyzer.py:269-280 | a pair gives at most six findings, in axis and side order |
| Intersections.NonTrayFirstYieldsNothing | scripts/mesh-analyzer.py:272-280 | a pair whose first mesh is not a tray gives nothing, so the box is only examined after a tray |
| Intersections.RowIssues | scripts/mesh-analyzer.py:258-280 | the inner loop produces the messages of mesh i against every later mesh, in list order |
| Intersections.CheckIntersections | scripts/mesh-analyzer.py:238-282 | the issues are the messages of every pair i < j of present meshes, in loop order |
| Intersections.IntersectionFindingsSound | scripts/mesh-analyzer.py:255-259 | every reported finding comes from some pair i < j |
| Intersections.IntersectionFindingsComplete | scripts/mesh-analyzer.py:255-259 | every finding of every pair i < j is reported |
| SpatialFit.TraysOfOne | scripts/mesh-analyzer.py:178-198 | one entry gives a tray exactly when its mesh is there and its name contains "tray", with its extents and placement offset |
| SpatialFit.TraysAppend | scripts/mesh-analyzer.py:178-198 | the trays keep dictionary order: the trays of two runs of entries are those of the first run followed by those of the second, which fixes the tie order the sort keeps |
| SpatialFit.TraysMembership | scripts/mesh-analyzer.py:178-198 | a tray entry is listed exactly when it comes from a present mesh whose name contains "tray", with its extents and its placement offset |
| SpatialFit.RunningMax | scripts/mesh-analyzer.py:175-201 | the running maximum starting at 0 is at least 0 and every value, and is 0 or one of the values |
| SpatialFit.CollectTrays | scripts/mesh-analyzer.py:172-201 | the loop lists the trays in mesh order and keeps the widest width and the tallest height |
| SpatialFit.SortByYSorted | scripts/mesh-analyzer.py:204 | the sorted trays are ordered by Y position |
| SpatialFit.SortByYPermutes | scripts/mesh-analyzer.py:204 | the sort keeps exactly the same trays |
| SpatialFit.SortByYStable | scripts/mesh-analyzer.py:204 | trays with equal Y keep their input order |
| SpatialFit.SortByYLast | scripts/mesh-analyzer.py:204-208 | the last sorted tray is the last of those with the largest Y |
| SpatialFit.TotalDepthOfLastHighest | scripts/mesh-analyzer.py:206-209 | the total depth is the far edge of the last tray with the largest Y offset |
| SpatialFit.TotalDepthIsNotLargestFarEdge | scripts/mesh-analyzer.py:206-209 | a deep tray placed first can have a larger far edge than the total depth |
| SpatialFit.Fit | scripts/mesh-analyzer.py:211-227 | the fit check carries the interior and the aggregates; each gap is the rounded interior minus aggregate, and each axis fits exactly when the aggregate is at most the interior plus 0.1 |
| SpatialFit.FitMonotone | scripts/mesh-analyzer.py:224-226 | smaller trays or a larger interior never turn a fitting axis into a failing one |
| SpatialFit.ComputeSpatialAnalysis | scripts/mesh-analyzer.py:129-235 | the box parameters with their defaults (wall 3, floor 2, tolerance 0.5), the exterior and the interior (exterior less two walls across and along, less the floor in height) and the fit check only when there is a box mesh, and the trays sorted by Y |
| Report.PutLookup | scripts/mesh-analyzer.py:348-350 | after assigning a key it holds the new value and every other key keeps its value |
| Report.PutKeys | scripts/mesh-analyzer.py:348-350 | assigning a key keeps the key order and appends the key when it is new |
| Report.KeptWarningsMembership | scripts/mesh-analyzer.py:357-361 | a warning is kept exactly when it does not mention "watertight" |
| Report.MeshIssuesMembership | scripts/mesh-analyzer.py:354-361 | a mesh's issue is its name, ": ", then one of its errors or one of its kept warnings |
| Report.MeshIssuesOfAnalysis | scripts/mesh-analyzer.py:354-361 | for an analysed mesh the issues are its degenerate-face error, if any, then its winding warning, if any; the watertight warning never appears |
| Report.AppendMeshIssues | scripts/mesh-analyzer.py:354-361 | the two loops append the prefixed errors, then the prefixed kept warnings |
| Report.MeshTableDistinct | scripts/mesh-analyzer.py:348 | the mesh dictionary's keys stay distinct |
| Report.MeshTableNames | scripts/mesh-analyzer.py:335-348 | a name is in the mesh dictionary exactly when some file loaded under it |
| Report.MeshTableLastLoadWins | scripts/mesh-analyzer.py:347-348 | a name holds the bounds of the last file loaded under it |
| Report.ProcessFiles | scripts/mesh-analyzer.py:335-365 | the file loop builds the mesh dictionary, the report entries (a failed file under its file name), the summed counters and the per-mesh issues |
| Report.CombinedIssuesOrigin | scripts/mesh-analyzer.py:354-361 | every per-mesh issue is the winding warning of a loaded file with inconsistent winding, or the degenerate-face error of a loaded file with readable face areas and a positive degenerate count |
| Report.FitIssues | scripts/mesh-analyzer.py:378-387 | no fit issues without a fit check, otherwise one per failing axis |
| Report.FitIssuesMembership | scripts/mesh-analyzer.py:378-387 | the too-wide, too-deep and too-tall message is present exactly when that axis fails |
| Report.AppendFitIssues | scripts/mesh-analyzer.py:378-387 | the three checks append the fit issues in width, depth, height order |
| Report.BuildReport | scripts/mesh-analyzer.py:311-387 | the report's entries and counters come from the file loop, the layout is the spatial analysis of the loaded meshes, and the issues are the per-mesh issues, then the intersection issues, then the fit issues |
| Camera.PresetCamera | scripts/render-view.py:29-53 | a preset exists exactly for the ten names and looks at the centre; any other angle is an error naming the angle |
| Camera.PresetNamesDistinct | scripts/render-view.py:36-47 | there are ten distinct preset names |
| Camera.UnknownAngleListsNames | scripts/render-view.py:49-51 | the error for an unknown angle contains the angle and every available name |
| Camera.SidePresets | scripts/render-view.py:34-40 | front, back, left and right stand 2.5 sizes away on one horizontal axis, raised by 0.3 sizes |
| Camera.VerticalPresets | scripts/render-view.py:41-42 | top and bottom stand 2.5 sizes above and below |
| Camera.IsoPresets | scripts/render-view.py:43-46 | the four iso presets stand at ±0.7 of the distance on X and Y, one per quadrant, 0.5 of it up |
| Camera.ApplyZoom | scripts/render-view.py:223-226 | zoom keeps the look-at point and divides the offset from it by the zoom |
| Camera.ZoomOneIsIdentity | scripts/render-view.py:224 | a zoom of 1 changes nothing, so skipping it is the same |
| Camera.MaxExtent | scripts/render-view.py:212 | the size is the largest extent |
| Camera.ChooseCamera | scripts/render-view.py:214-226 | an explicit position wins and looks at the given point or the centre, then is zoomed; otherwise a known preset name gives that preset's camera zoomed, an unknown name is the error naming it, and no name gives the iso preset zoomed |
| Camera.ColorOf | scripts/render-view.py:58-71 | a known colour name gives its table entry, any other gives red; alpha is 255 |
| Camera.LoadMarkers | scripts/render-view.py:75-95 | no markers file gives no spheres; otherwise one sphere per marker, in order |
| Camera.MarkerDefaults | scripts/render-view.py:85-91 | each sphere has radius 0.02 of the size, sits at the origin without a position, and is red without a colour |
| CrossSection.MinMaxOfSpec | analyze_stl.py:15-16 | the minimum and the maximum bound every value and are values of the list |
| CrossSection.OverallBounds | analyze_stl.py:15-16 | no bounds for no points; otherwise a box holding every point |
| CrossSection.OverallBoundsAttained | analyze_stl.py:15-16 | each face of the overall box touches a point |
| CrossSection.SortedSetSpec | analyze_stl.py:56 | `sorted(set(..))` is strictly increasing and holds exactly the values |
| CrossSection.InnerYSpec | analyze_stl.py:47-48 | the inner candidates increase and are the rounded Y values with 20 < \|y\| < 45 |
| CrossSection.GapsMembership | analyze_stl.py:66-71 | a gap is reported exactly for neighbouring values more than 3 apart |
| CrossSection.GapsAscending | analyze_stl.py:66-71 | over increasing values the gaps are disjoint and ascending |
| CrossSection.FindGaps | analyze_stl.py:66-71 | no gap search for 10 values or fewer; otherwise the loop finds exactly `Gaps` |
| CrossSection.DetectStep | analyze_stl.py:89-98 | the loop's step level is `StepZ` |
| CrossSection.StepZNone | analyze_stl.py:89-98 | there is no step exactly when no slice triggers |
| CrossSection.StepZIsLastTrigger | analyze_stl.py:89-98 | the step level is that of the last triggering slice |
| CrossSection.EmptySliceKeepsRange | analyze_stl.py:93 | a slice without points leaves the previous range as it was |
| CrossSection.ZeroRangeSuppresses | analyze_stl.py:95 | a previous range of exactly 0 counts as false and never lets a step fire |
| CrossSection.YPositiveSpec | analyze_stl.py:104 | the positive wall positions increase and are the rounded values of positive Y |
| CrossSection.YNegativeSpec | analyze_stl.py:105 | the negative wall positions decrease and are the rounded values of negative Y |
| CrossSection.SignFilterBeforeRounding | analyze_stl.py:104-105 | with the sign tested before rounding, y = 0.04 and y = -0.04 each give the wall position 0.0 |
| CrossSection.SignFilterAfterRounding | analyze_stl.py:104-105 | with the sign tested after rounding, the positions are strictly positive and increasing, and strictly negative and decreasing |

## Left out

- File I/O, JSON, the manifest/legacy fallback, `sys.exit`, printing and `argparse` are left out.
  Their results are inputs (file outcomes, tray lists, box settings, marker entries, optional arguments).
- Loading meshes and the geometry `trimesh`/`numpy-stl` compute are left out for the same reason:
  bounds, centroid, watertightness, winding, face areas, Euler number, volume, scene concatenation.
  The model takes them as `MeshProperties`, point lists and slices.
- Rendering is left out: `render_mesh` with matplotlib in `scripts/mesh-analyzer.py`; `render_scene` with trimesh's `Scene.save_image` and its `set_camera` fallback in `scripts/render-view.py`; `probe_mesh`. It is drawing, not reporting.
- Floating point is modelled as exact reals. `round(x, 2)`, `round(y, 1)`, `np.round` and `:.1f` are parameters.
- `parse_vector` (float parsing) is left out. A position or look-at point is given as a vector.
- `np.linspace` and the point selection by `|x| < 2` / `|z - level| < 0.3` are left out. The Z samples and their points are given as `Slice`s.
  The `print` lines that only display values (analyze_stl.py:19-21, 33, 49, 57-58, 77-78, 106-108) are not modelled.
- Strings.Lower: lower-cases ASCII letters only; Python's `str.lower` also maps other letters.
- Camera.ApplyZoom: requires a non-zero zoom, because NumPy's division by 0 gives infinities that reals cannot express.
- Camera.ChooseCamera: requires a non-zero zoom for the same reason.
  A parsed `--pos` or `--look-at` is an `Option` vector, with an empty string counted as `None`, as Python's truth test does.
- SpatialFit.SortByY: `list.sort` sorts in place; the model sorts a value with a stable insertion sort. In-place update and aliasing are not captured.
- Placements.PlacedBounds: a function on values; the source copies the bounds array and shifts the copy in place.
- CrossSection.Range: stated as maximum minus minimum, without a contract of its own. Its bounds follow from `MinMaxOfSpec`.
- Validation.AnalyzeMesh: `hasattr(mesh, 'euler_number')` is folded into the optional Euler number input. `analyze_mesh`'s own `ValueError` for a scene without meshes (scripts/mesh-analyzer.py:28), and any exception of the loader, is the `Failed` outcome.
- The box's tolerance is copied into the layout's parameters (default 0.5) but, as in the source, never used in the fit.
- Choosing the selected box from `project.json` by the context's `box_id` is left out. The selected box's settings are a parameter, `None` when either file or the box is missing.
- `total_tray_depth` is the far edge of the last tray after the stable sort by Y, which need not be the largest far edge (`SpatialFit.TotalDepthIsNotLargestFarEdge`).

## Findings

| source | as written | input that shows it | evidently intended | confidence | as-written member | corrected member |
|---|---|---|---|---|---|---|
| analyze_stl.py:104-105 | the sign test `y > 0` / `y < 0` is applied before `round(y, 1)` | a point at y = 0.04 (or -0.04) rounds to 0.0 and is listed among the "+Y" (or "-Y") wall positions | only strictly positive (negative) rounded positions | low; not executed | CrossSection.SignFilterBeforeRounding | CrossSection.SignFilterAfterRounding |
