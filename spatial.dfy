/** `compute_spatial_analysis` of scripts/mesh-analyzer.py: the box interior, the tray aggregates
    and the per-axis fit check. */
module SpatialFit {
  import opened Util
  import opened Geometry
  import opened Placements
  import Intersections

  /** The selected box's entry of the project file; each setting may be missing. */
  datatype BoxSettings = BoxSettings(wallThickness: Option<real>, floorThickness: Option<real>, tolerance: Option<real>)

  const DefaultWall: real := 3.0
  const DefaultFloor: real := 2.0
  const DefaultTolerance: real := 0.5

  /** The interior may fall short of the trays by this much and still count as fitting. */
  const FitSlack: real := 0.1

  /** The wall thickness: 3 unless the selected box sets it. */
  function Wall(settings: Option<BoxSettings>): real {
    if settings.Some? then settings.value.wallThickness.GetOr(DefaultWall) else DefaultWall
  }

  /** The floor thickness: 2 unless the selected box sets it. */
  function Floor(settings: Option<BoxSettings>): real {
    if settings.Some? then settings.value.floorThickness.GetOr(DefaultFloor) else DefaultFloor
  }

  /** The `box_params` of the layout: the selected box's settings with the defaults filled in. */
  datatype BoxParams = BoxParams(wallThickness: real, floorThickness: real, tolerance: real)

  /** No parameters without a selected box; otherwise each missing setting takes its default, and
      the wall and floor are the ones the interior is computed with. */
  function ParamsOf(settings: Option<BoxSettings>): (p: Option<BoxParams>)
    ensures p.Some? <==> settings.Some?
    ensures p.Some? ==> p.value.wallThickness == Wall(settings) && p.value.floorThickness == Floor(settings)
    ensures p.Some? ==> p.value.tolerance == settings.value.tolerance.GetOr(DefaultTolerance)
  {
    match settings
    case None => None
    case Some(b) => Some(BoxParams(b.wallThickness.GetOr(DefaultWall), b.floorThickness.GetOr(DefaultFloor),
                                   b.tolerance.GetOr(DefaultTolerance)))
  }

  /** One entry of the `trays` list of the layout. */
  datatype TrayLayout = TrayLayout(name: string, width: real, depth: real, height: real, posX: real, posY: real) {
    /** The far edge along Y, `bounds.y[1]`. */
    function FarEdge(): real {
      posY + depth
    }
  }

  function TrayOf(name: string, b: Bounds, placements: PlacementTable): TrayLayout {
    var dims := b.Extents();
    TrayLayout(name, dims.x, dims.y, dims.z, OffsetX(placements, name), OffsetY(placements, name))
  }

  /** The trays in dictionary order: the present meshes whose name contains "tray", ignoring case. */
  function Trays(meshes: seq<Intersections.NamedMesh>, placements: PlacementTable): (trays: seq<TrayLayout>)
    ensures |trays| <= |meshes|
  {
    if meshes == [] then []
    else
      var m := meshes[|meshes| - 1];
      Trays(meshes[..|meshes| - 1], placements)
        + (if m.mesh.Some? && IsTrayName(m.name) then [TrayOf(m.name, m.mesh.value, placements)] else [])
  }

  /** A single entry gives its tray exactly when its mesh is there and its name is a tray name. */
  lemma TraysOfOne(m: Intersections.NamedMesh, placements: PlacementTable)
    ensures Trays([m], placements)
            == if m.mesh.Some? && IsTrayName(m.name) then [TrayOf(m.name, m.mesh.value, placements)] else []
  {
    assert [m][..0] == [];
  }

  /** The trays keep the dictionary's order: the trays of two runs of entries are those of each, in turn. */
  lemma {:induction false} TraysAppend(a: seq<Intersections.NamedMesh>, b: seq<Intersections.NamedMesh>,
                                       placements: PlacementTable)
    ensures Trays(a + b, placements) == Trays(a, placements) + Trays(b, placements)
  {
    if b == [] {
      assert a + b == a;
    } else {
      var n := |b| - 1;
      var m := b[n];
      var last := if m.mesh.Some? && IsTrayName(m.name) then [TrayOf(m.name, m.mesh.value, placements)] else [];
      var ab := a + b;
      assert ab[..|ab| - 1] == a + b[..n] && ab[|ab| - 1] == m;
      assert Trays(ab, placements) == Trays(a + b[..n], placements) + last;
      assert Trays(b, placements) == Trays(b[..n], placements) + last;
      TraysAppend(a, b[..n], placements);
    }
  }

  /** Every tray comes from a present mesh with a tray name, and every such mesh gives one. */
  lemma {:induction false} TraysMembership(meshes: seq<Intersections.NamedMesh>, placements: PlacementTable, t: TrayLayout)
    ensures t in Trays(meshes, placements) <==>
      exists i :: 0 <= i < |meshes| && meshes[i].mesh.Some? && IsTrayName(meshes[i].name)
                  && t == TrayOf(meshes[i].name, meshes[i].mesh.value, placements)
  {
    if meshes != [] {
      var init := meshes[..|meshes| - 1];
      TraysMembership(init, placements, t);
      if exists i :: 0 <= i < |meshes| && meshes[i].mesh.Some? && IsTrayName(meshes[i].name)
                     && t == TrayOf(meshes[i].name, meshes[i].mesh.value, placements) {
        var i :| 0 <= i < |meshes| && meshes[i].mesh.Some? && IsTrayName(meshes[i].name)
                 && t == TrayOf(meshes[i].name, meshes[i].mesh.value, placements);
        if i < |init| {
          assert init[i] == meshes[i];
        }
      }
    }
  }

  function Widths(trays: seq<TrayLayout>): (ws: seq<real>)
    ensures |ws| == |trays| && forall i :: 0 <= i < |trays| ==> ws[i] == trays[i].width
  {
    seq(|trays|, i requires 0 <= i < |trays| => trays[i].width)
  }

  function Heights(trays: seq<TrayLayout>): (hs: seq<real>)
    ensures |hs| == |trays| && forall i :: 0 <= i < |trays| ==> hs[i] == trays[i].height
  {
    seq(|trays|, i requires 0 <= i < |trays| => trays[i].height)
  }

  /** A maximum accumulated from 0: at least 0 and every value, and either 0 or one of the values. */
  function RunningMax(xs: seq<real>): (m: real)
    ensures m >= 0.0
    ensures forall i :: 0 <= i < |xs| ==> xs[i] <= m
    ensures m == 0.0 || exists i :: 0 <= i < |xs| && xs[i] == m
  {
    if xs == [] then 0.0 else Max(RunningMax(xs[..|xs| - 1]), xs[|xs| - 1])
  }

  /** With at least one value that is not negative, the maximum is one of the values. */
  lemma RunningMaxAttained(xs: seq<real>, k: nat)
    requires k < |xs| && xs[k] >= 0.0
    ensures exists i :: 0 <= i < |xs| && xs[i] == RunningMax(xs)
  {
    var m := RunningMax(xs);
    if m == 0.0 {
      assert xs[k] == 0.0;
    }
  }

  predicate SortedByY(s: seq<TrayLayout>) {
    forall i, j :: 0 <= i < j < |s| ==> s[i].posY <= s[j].posY
  }

  /** Inserts `t` after every element whose `posY` is not greater, so equal keys keep their order. */
  function Insert(s: seq<TrayLayout>, t: TrayLayout): seq<TrayLayout> {
    if s == [] then [t]
    else if t.posY < s[0].posY then [t] + s
    else [s[0]] + Insert(s[1..], t)
  }

  /** `trays.sort(key=lambda t: t["position"]["y"])`, a stable sort: insertion sort. */
  function SortByY(s: seq<TrayLayout>): seq<TrayLayout> {
    if s == [] then [] else Insert(SortByY(s[..|s| - 1]), s[|s| - 1])
  }

  lemma {:induction false} InsertMultiset(s: seq<TrayLayout>, t: TrayLayout)
    ensures multiset(Insert(s, t)) == multiset(s) + multiset{t}
    ensures |Insert(s, t)| == |s| + 1
  {
    if s != [] && t.posY >= s[0].posY {
      InsertMultiset(s[1..], t);
      assert s == [s[0]] + s[1..];
    }
  }

  lemma {:induction false} InsertBounded(s: seq<TrayLayout>, t: TrayLayout, lo: real)
    requires forall i :: 0 <= i < |s| ==> lo <= s[i].posY
    requires lo <= t.posY
    ensures forall i :: 0 <= i < |Insert(s, t)| ==> lo <= Insert(s, t)[i].posY
  {
    if s != [] && t.posY >= s[0].posY {
      InsertBounded(s[1..], t, lo);
    }
  }

  lemma {:induction false} InsertSorted(s: seq<TrayLayout>, t: TrayLayout)
    requires SortedByY(s)
    ensures SortedByY(Insert(s, t))
  {
    if s != [] && t.posY >= s[0].posY {
      InsertSorted(s[1..], t);
      InsertBounded(s[1..], t, s[0].posY);
      var r := Insert(s[1..], t);
      assert Insert(s, t) == [s[0]] + r;
    } else if s != [] {
      assert forall i :: 0 <= i < |s| ==> s[0].posY <= s[i].posY;
    }
  }

  /** The sorted list is ordered by `posY`. */
  lemma {:induction false} SortByYSorted(s: seq<TrayLayout>)
    ensures SortedByY(SortByY(s))
  {
    if s != [] {
      SortByYSorted(s[..|s| - 1]);
      InsertSorted(SortByY(s[..|s| - 1]), s[|s| - 1]);
    }
  }

  /** The sorted list holds the same trays. */
  lemma {:induction false} SortByYPermutes(s: seq<TrayLayout>)
    ensures multiset(SortByY(s)) == multiset(s)
    ensures |SortByY(s)| == |s|
  {
    if s != [] {
      var init := s[..|s| - 1];
      SortByYPermutes(init);
      InsertMultiset(SortByY(init), s[|s| - 1]);
      assert s == init + [s[|s| - 1]];
    }
  }

  /** The trays whose `posY` is `y`, in order. */
  function WithY(s: seq<TrayLayout>, y: real): seq<TrayLayout> {
    if s == [] then [] else (if s[0].posY == y then [s[0]] else []) + WithY(s[1..], y)
  }

  lemma {:induction false} WithYAppend(a: seq<TrayLayout>, b: seq<TrayLayout>, y: real)
    ensures WithY(a + b, y) == WithY(a, y) + WithY(b, y)
  {
    if a == [] {
      assert a + b == b;
    } else {
      var ab := a + b;
      assert ab[0] == a[0] && ab[1..] == a[1..] + b;
      var head := if a[0].posY == y then [a[0]] else [];
      WithYAppend(a[1..], b, y);
      calc {
        WithY(ab, y);
      ==
        head + WithY(a[1..] + b, y);
      ==
        head + (WithY(a[1..], y) + WithY(b, y));
      ==
        (head + WithY(a[1..], y)) + WithY(b, y);
      }
    }
  }

  lemma {:induction false} WithYAbove(s: seq<TrayLayout>, y: real)
    requires forall i :: 0 <= i < |s| ==> s[i].posY > y
    ensures WithY(s, y) == []
  {
    if s != [] {
      WithYAbove(s[1..], y);
    }
  }

  lemma SortedTail(s: seq<TrayLayout>)
    requires s != [] && SortedByY(s)
    ensures SortedByY(s[1..])
    ensures forall i :: 0 <= i < |s| ==> s[0].posY <= s[i].posY
  {
    assert forall i :: 0 <= i < |s| - 1 ==> s[1..][i] == s[i + 1];
  }

  lemma {:induction false} InsertWithY(s: seq<TrayLayout>, t: TrayLayout, y: real)
    requires SortedByY(s)
    ensures WithY(Insert(s, t), y) == WithY(s, y) + (if t.posY == y then [t] else [])
  {
    if s == [] {
    } else if t.posY < s[0].posY {
      SortedTail(s);
      assert ([t] + s)[0] == t && ([t] + s)[1..] == s;
      if t.posY == y {
        WithYAbove(s, y);
      }
    } else {
      var rest := Insert(s[1..], t);
      assert Insert(s, t) == [s[0]] + rest;
      assert ([s[0]] + rest)[0] == s[0] && ([s[0]] + rest)[1..] == rest;
      SortedTail(s);
      InsertWithY(s[1..], t, y);
      var head := if s[0].posY == y then [s[0]] else [];
      assert WithY(s, y) == head + WithY(s[1..], y);
      calc {
        WithY(Insert(s, t), y);
      ==
        head + WithY(rest, y);
      ==
        head + (WithY(s[1..], y) + (if t.posY == y then [t] else []));
      ==
        (head + WithY(s[1..], y)) + (if t.posY == y then [t] else []);
      }
    }
  }

  /** The sort is stable: the trays with any one `posY` keep their relative order. */
  lemma {:induction false} SortByYStable(s: seq<TrayLayout>, y: real)
    ensures WithY(SortByY(s), y) == WithY(s, y)
  {
    if s != [] {
      var init, last := s[..|s| - 1], s[|s| - 1];
      calc {
        WithY(SortByY(s), y);
      ==
        WithY(Insert(SortByY(init), last), y);
      == { SortByYSorted(init); InsertWithY(SortByY(init), last, y); }
        WithY(SortByY(init), y) + (if last.posY == y then [last] else []);
      == { SortByYStable(init, y); }
        WithY(init, y) + (if last.posY == y then [last] else []);
      == { WithYAppend(init, [last], y); }
        WithY(init + [last], y);
      == { assert s == init + [last]; }
        WithY(s, y);
      }
    }
  }

  /** The last element after inserting into a sorted list. */
  lemma {:induction false} InsertLast(s: seq<TrayLayout>, t: TrayLayout)
    requires SortedByY(s)
    ensures var r := Insert(s, t);
      |r| > 0 && r[|r| - 1] == (if s != [] && t.posY < s[|s| - 1].posY then s[|s| - 1] else t)
  {
    if s != [] && t.posY >= s[0].posY {
      InsertLast(s[1..], t);
    }
  }

  /** The index of the last tray with the greatest `posY`. */
  function LastHighest(s: seq<TrayLayout>): (k: nat)
    requires |s| > 0
    ensures k < |s|
    ensures forall j :: 0 <= j < |s| ==> s[j].posY <= s[k].posY
    ensures forall j :: k < j < |s| ==> s[j].posY < s[k].posY
  {
    if |s| == 1 then 0
    else
      var k := LastHighest(s[..|s| - 1]);
      if s[|s| - 1].posY >= s[k].posY then |s| - 1 else k
  }

  /** After the stable sort, the last tray is the last of those with the greatest `posY`. */
  lemma {:induction false} SortByYLast(s: seq<TrayLayout>)
    requires |s| > 0
    ensures var r := SortByY(s); |r| == |s| && r[|r| - 1] == s[LastHighest(s)]
  {
    SortByYPermutes(s);
    var init := s[..|s| - 1];
    SortByYSorted(init);
    SortByYPermutes(init);
    InsertLast(SortByY(init), s[|s| - 1]);
    if |s| > 1 {
      SortByYLast(init);
      assert SortByY(init)[|init| - 1] == init[LastHighest(init)];
    }
  }

  /** `total_tray_depth`: the far edge of the last tray after sorting, 0 without trays. */
  function TotalDepth(trays: seq<TrayLayout>): real {
    var sorted := SortByY(trays);
    if sorted == [] then 0.0 else sorted[|sorted| - 1].FarEdge()
  }

  /** The total depth is the far edge of the last tray among those placed furthest along Y,
      which need not be the largest far edge. */
  lemma TotalDepthOfLastHighest(trays: seq<TrayLayout>)
    requires |trays| > 0
    ensures TotalDepth(trays) == trays[LastHighest(trays)].FarEdge()
  {
    SortByYLast(trays);
  }

  /** A near tray that is deep enough reaches further than the tray placed last:
      the total depth is not the largest far edge. */
  lemma TotalDepthIsNotLargestFarEdge()
    ensures var near := TrayLayout("tray_A", 10.0, 100.0, 10.0, 0.0, 0.0);
            var far := TrayLayout("tray_B", 10.0, 5.0, 10.0, 0.0, 10.0);
            TotalDepth([near, far]) == 15.0 && near.FarEdge() == 100.0
  {
    var near := TrayLayout("tray_A", 10.0, 100.0, 10.0, 0.0, 0.0);
    var far := TrayLayout("tray_B", 10.0, 5.0, 10.0, 0.0, 10.0);
    TotalDepthOfLastHighest([near, far]);
  }

  datatype FitCheck = FitCheck(
    interiorWidth: real,
    interiorDepth: real,
    interiorHeight: real,
    maxTrayWidth: real,
    totalTrayDepth: real,
    maxTrayHeight: real,
    widthGap: real,
    depthGap: real,
    heightClearance: real,
    fitsWidth: bool,
    fitsDepth: bool,
    fitsHeight: bool)

  /** The fit check. Each gap is interior minus aggregate as `round2` (`round(x, 2)`) renders it, and
      an axis fits exactly when the unrounded gap is no worse than the slack, so a slightly negative
      gap still fits. */
  function Fit(interior: Vec3, maxWidth: real, totalDepth: real, maxHeight: real, round2: real -> real): (fit: FitCheck)
    ensures fit.interiorWidth == interior.x && fit.interiorDepth == interior.y && fit.interiorHeight == interior.z
    ensures fit.maxTrayWidth == maxWidth && fit.totalTrayDepth == totalDepth && fit.maxTrayHeight == maxHeight
    ensures fit.widthGap == round2(interior.x - maxWidth) && fit.depthGap == round2(interior.y - totalDepth)
    ensures fit.heightClearance == round2(interior.z - maxHeight)
    ensures fit.fitsWidth <==> maxWidth <= interior.x + FitSlack
    ensures fit.fitsDepth <==> totalDepth <= interior.y + FitSlack
    ensures fit.fitsHeight <==> maxHeight <= interior.z + FitSlack
  {
    FitCheck(interior.x, interior.y, interior.z, maxWidth, totalDepth, maxHeight,
             round2(interior.x - maxWidth), round2(interior.y - totalDepth), round2(interior.z - maxHeight),
             interior.x >= maxWidth - FitSlack, interior.y >= totalDepth - FitSlack,
             interior.z >= maxHeight - FitSlack)
  }

  /** Trays that fit keep fitting when they shrink or the interior grows, on every axis. */
  lemma FitMonotone(interior: Vec3, interior': Vec3, w: real, d: real, h: real, w': real, d': real, h': real,
                    round2: real -> real)
    requires interior.x <= interior'.x && interior.y <= interior'.y && interior.z <= interior'.z
    requires w' <= w && d' <= d && h' <= h
    ensures var fit, fit' := Fit(interior, w, d, h, round2), Fit(interior', w', d', h', round2);
      && (fit.fitsWidth ==> fit'.fitsWidth)
      && (fit.fitsDepth ==> fit'.fitsDepth)
      && (fit.fitsHeight ==> fit'.fitsHeight)
  {
  }

  datatype SpatialLayout = SpatialLayout(
    params: Option<BoxParams>,
    exterior: Option<Vec3>,
    interior: Option<Vec3>,
    trays: seq<TrayLayout>,
    fit: Option<FitCheck>)

  /** `meshes["box"]` when the key is there and the mesh is present. */
  function BoxMesh(meshes: seq<Intersections.NamedMesh>): Option<Bounds> {
    if meshes == [] then None
    else if meshes[0].name == "box" then meshes[0].mesh
    else BoxMesh(meshes[1..])
  }

  /** The exterior less two walls across and along, and less the floor in height. */
  function Interior(exterior: Vec3, settings: Option<BoxSettings>): Vec3 {
    Vec3(exterior.x - 2.0 * Wall(settings), exterior.y - 2.0 * Wall(settings), exterior.z - Floor(settings))
  }

  lemma TraysStep(meshes: seq<Intersections.NamedMesh>, placements: PlacementTable, i: nat)
    requires i < |meshes|
    ensures Trays(meshes[..i + 1], placements) == Trays(meshes[..i], placements)
      + (if meshes[i].mesh.Some? && IsTrayName(meshes[i].name)
         then [TrayOf(meshes[i].name, meshes[i].mesh.value, placements)] else [])
  {
    assert meshes[..i + 1][..i] == meshes[..i];
  }

  lemma AggregatesStep(trays: seq<TrayLayout>, t: TrayLayout)
    ensures RunningMax(Widths(trays + [t])) == Max(RunningMax(Widths(trays)), t.width)
    ensures RunningMax(Heights(trays + [t])) == Max(RunningMax(Heights(trays)), t.height)
  {
    assert Widths(trays + [t])[..|trays|] == Widths(trays);
    assert Heights(trays + [t])[..|trays|] == Heights(trays);
  }

  /** The loop over the meshes: the trays in order, with the widest width and the tallest height. */
  method CollectTrays(meshes: seq<Intersections.NamedMesh>, placements: PlacementTable)
    returns (trays: seq<TrayLayout>, maxWidth: real, maxHeight: real)
    ensures trays == Trays(meshes, placements)
    ensures maxWidth == RunningMax(Widths(trays)) && maxHeight == RunningMax(Heights(trays))
  {
    trays := [];
    maxWidth := 0.0;
    maxHeight := 0.0;
    for i := 0 to |meshes|
      invariant trays == Trays(meshes[..i], placements)
      invariant maxWidth == RunningMax(Widths(trays))
      invariant maxHeight == RunningMax(Heights(trays))
    {
      TraysStep(meshes, placements, i);
      var m := meshes[i];
      if m.mesh.None? || !IsTrayName(m.name) {
        continue;
      }
      var dims := m.mesh.value.Extents();
      var tray := TrayLayout(m.name, dims.x, dims.y, dims.z, OffsetX(placements, m.name), OffsetY(placements, m.name));
      AggregatesStep(trays, tray);
      trays := trays + [tray];
      maxWidth := Max(maxWidth, dims.x);
      maxHeight := Max(maxHeight, dims.z);
    }
    assert meshes[..|meshes|] == meshes;
  }

  /** What `compute_spatial_analysis` returns: the exterior and interior only with a box mesh,
      the trays sorted by Y, and the fit check of the aggregates only with a box mesh. */
  predicate IsSpatialAnalysis(layout: SpatialLayout, meshes: seq<Intersections.NamedMesh>,
                              placements: PlacementTable, settings: Option<BoxSettings>, round2: real -> real)
  {
    var trays := Trays(meshes, placements);
    var box := BoxMesh(meshes);
    && layout.params == ParamsOf(settings)
    && layout.trays == SortByY(trays)
    && (layout.exterior.Some? <==> box.Some?)
    && (layout.interior.Some? <==> box.Some?)
    && (layout.fit.Some? <==> box.Some?)
    && (box.Some? ==>
          && layout.exterior.value == box.value.Extents()
          && layout.interior.value == Interior(box.value.Extents(), settings)
          && layout.fit.value == Fit(layout.interior.value, RunningMax(Widths(trays)), TotalDepth(trays),
                                     RunningMax(Heights(trays)), round2))
  }

  method ComputeSpatialAnalysis(meshes: seq<Intersections.NamedMesh>, placements: PlacementTable,
                                settings: Option<BoxSettings>, round2: real -> real)
    returns (layout: SpatialLayout)
    ensures IsSpatialAnalysis(layout, meshes, placements, settings, round2)
  {
    var trays, maxWidth, maxHeight := CollectTrays(meshes, placements);
    var sorted := SortByY(trays);
    var totalDepth := 0.0;
    if |sorted| > 0 {
      totalDepth := sorted[|sorted| - 1].FarEdge();
    }
    assert totalDepth == TotalDepth(trays);

    var box := BoxMesh(meshes);
    if box.None? {
      layout := SpatialLayout(ParamsOf(settings), None, None, sorted, None);
    } else {
      var exterior := box.value.Extents();
      var interior := Interior(exterior, settings);
      var fit := Fit(interior, maxWidth, totalDepth, maxHeight, round2);
      layout := SpatialLayout(ParamsOf(settings), Some(exterior), Some(interior), sorted, Some(fit));
    }
  }
}
