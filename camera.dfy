/** scripts/render-view.py: the preset camera table, the zoom step, the camera choice of `main`
    and the reference markers. */
module Camera {
  import opened Util
  import opened Strings
  import opened Geometry

  /** A camera position and the point it looks at. */
  datatype Pose = Pose(position: Vec3, lookAt: Vec3) {
    /** `camera_pos - look_at`. */
    function Direction(): Vec3 {
      position.Minus(lookAt)
    }
  }

  /** The preset names, in the order of the preset table. */
  const PresetNames: seq<string> :=
    ["front", "back", "left", "right", "top", "bottom", "iso", "iso-back", "iso-left", "iso-right"]

  /** How far the presets stand from the centre, in units of the mesh size. */
  function Distance(size: real): real {
    size * 2.5
  }

  /** The offsets of the preset cameras from the centre. */
  function Presets(size: real): map<string, Vec3> {
    var d := Distance(size);
    map[
      "front" := Vec3(0.0, -d, size * 0.3),
      "back" := Vec3(0.0, d, size * 0.3),
      "left" := Vec3(-d, 0.0, size * 0.3),
      "right" := Vec3(d, 0.0, size * 0.3),
      "top" := Vec3(0.0, 0.0, d),
      "bottom" := Vec3(0.0, 0.0, -d),
      "iso" := Vec3(d * 0.7, -d * 0.7, d * 0.5),
      "iso-back" := Vec3(-d * 0.7, d * 0.7, d * 0.5),
      "iso-left" := Vec3(-d * 0.7, -d * 0.7, d * 0.5),
      "iso-right" := Vec3(d * 0.7, d * 0.7, d * 0.5)
    ]
  }

  function UnknownAngle(angle: string): string {
    "Unknown angle '" + angle + "'. Available: " + Join(PresetNames, ", ")
  }

  /** `get_preset_camera`: a known angle gives the camera at its offset from the centre, looking at
      the centre; any other angle is an error. */
  function PresetCamera(angle: string, center: Vec3, size: real): (r: Result<Pose, string>)
    ensures r.Ok? <==> angle in PresetNames
    ensures r.Ok? ==> r.value.lookAt == center
    ensures r.Err? ==> r.error == UnknownAngle(angle)
  {
    var presets := Presets(size);
    if angle in presets then Ok(Pose(center.Plus(presets[angle]), center)) else Err(UnknownAngle(angle))
  }

  /** Exactly ten distinct names are accepted. */
  lemma PresetNamesDistinct()
    ensures |PresetNames| == 10
    ensures forall i, j :: 0 <= i < j < |PresetNames| ==> PresetNames[i] != PresetNames[j]
  {
  }

  lemma ListingContains(angle: string, names: seq<string>, k: nat)
    requires k < |names|
    ensures var e := "Unknown angle '" + angle + "'. Available: " + Join(names, ", ");
      Contains(e, angle) && Contains(e, names[k])
  {
    var prefix, middle, joined := "Unknown angle '", "'. Available: ", Join(names, ", ");
    ContainsAt(angle, angle, 0);
    ContainsWithin(prefix, angle, middle + joined, angle);
    assert prefix + angle + (middle + joined) == prefix + angle + middle + joined;
    JoinContains(names, ", ", k);
    ContainsWithin(prefix + angle + middle, joined, "", names[k]);
    assert prefix + angle + middle + joined + "" == prefix + angle + middle + joined;
  }

  /** The error for an unknown angle names the angle and every accepted name. */
  lemma UnknownAngleListsNames(angle: string, center: Vec3, size: real, k: nat)
    requires angle !in PresetNames && k < |PresetNames|
    ensures PresetCamera(angle, center, size).Err?
    ensures Contains(PresetCamera(angle, center, size).error, angle)
    ensures Contains(PresetCamera(angle, center, size).error, PresetNames[k])
  {
    ListingContains(angle, PresetNames, k);
  }

  /** The camera's offset from the point it looks at. */
  function PresetDirection(angle: string, center: Vec3, size: real): Vec3
    requires angle in PresetNames
  {
    PresetCamera(angle, center, size).value.Direction()
  }

  /** Front, back, left and right stand at the distance on one horizontal axis, each on its own side,
      raised by 0.3 of the size. */
  lemma SidePresets(center: Vec3, size: real)
    ensures var d := Distance(size);
      && PresetDirection("front", center, size) == Vec3(0.0, -d, 0.3 * size)
      && PresetDirection("back", center, size) == Vec3(0.0, d, 0.3 * size)
      && PresetDirection("left", center, size) == Vec3(-d, 0.0, 0.3 * size)
      && PresetDirection("right", center, size) == Vec3(d, 0.0, 0.3 * size)
  {
    assert "front" in PresetNames && "back" in PresetNames && "left" in PresetNames && "right" in PresetNames;
  }

  /** Top and bottom stand at the distance straight above and below the centre. */
  lemma VerticalPresets(center: Vec3, size: real)
    ensures var d := Distance(size);
      && PresetDirection("top", center, size) == Vec3(0.0, 0.0, d)
      && PresetDirection("bottom", center, size) == Vec3(0.0, 0.0, -d)
  {
    assert "top" in PresetNames && "bottom" in PresetNames;
  }

  /** The iso preset on the side of the given signs of X and Y. */
  function IsoName(xPositive: bool, yPositive: bool): string {
    if xPositive then (if yPositive then "iso-right" else "iso")
    else (if yPositive then "iso-back" else "iso-left")
  }

  /** The four iso presets stand at (±0.7d, ±0.7d, 0.5d), one for each choice of the two signs. */
  lemma IsoPresets(center: Vec3, size: real, xPositive: bool, yPositive: bool)
    ensures IsoName(xPositive, yPositive) in PresetNames
    ensures var d := Distance(size);
      var sx := if xPositive then 1.0 else -1.0;
      var sy := if yPositive then 1.0 else -1.0;
      PresetDirection(IsoName(xPositive, yPositive), center, size) == Vec3(sx * 0.7 * d, sy * 0.7 * d, 0.5 * d)
  {
    var d := Distance(size);
    if xPositive && yPositive {
      assert "iso-right" in PresetNames;
      assert Presets(size)["iso-right"] == Vec3(d * 0.7, d * 0.7, d * 0.5);
    } else if xPositive {
      assert "iso" in PresetNames;
      assert Presets(size)["iso"] == Vec3(d * 0.7, -d * 0.7, d * 0.5);
    } else if yPositive {
      assert "iso-back" in PresetNames;
      assert Presets(size)["iso-back"] == Vec3(-d * 0.7, d * 0.7, d * 0.5);
    } else {
      assert "iso-left" in PresetNames;
      assert Presets(size)["iso-left"] == Vec3(-d * 0.7, -d * 0.7, d * 0.5);
    }
  }

  /** The zoom step: the camera moves along its line of sight so that its offset from the point it
      looks at is divided by the zoom. */
  function ApplyZoom(pose: Pose, zoom: real): (zoomed: Pose)
    requires zoom != 0.0
    ensures zoomed.lookAt == pose.lookAt
    ensures zoomed.Direction() == pose.Direction().Scale(1.0 / zoom)
  {
    if zoom != 1.0 then Pose(pose.lookAt.Plus(pose.Direction().Scale(1.0 / zoom)), pose.lookAt) else pose
  }

  /** A zoom of 1 leaves the camera where it is. */
  lemma ZoomOneIsIdentity(pose: Pose)
    ensures ApplyZoom(pose, 1.0) == pose
  {
  }

  /** `size = max(mesh.extents)`. */
  function MaxExtent(extents: Vec3): (m: real)
    ensures m >= extents.x && m >= extents.y && m >= extents.z
    ensures m == extents.x || m == extents.y || m == extents.z
  {
    Max(Max(extents.x, extents.y), extents.z)
  }

  /** The camera `main` renders from: an explicit position (looking at the given point or the centre),
      else the named preset, else the iso preset; then the zoom. An empty name counts as none. */
  function ChooseCamera(position: Option<Vec3>, lookAt: Option<Vec3>, angle: Option<string>,
                        center: Vec3, size: real, zoom: real): (r: Result<Pose, string>)
    requires zoom != 0.0
    ensures position.Some? ==> r == Ok(ApplyZoom(Pose(position.value, lookAt.GetOr(center)), zoom))
    ensures position.None? && (angle.None? || angle.value == "") ==> r.Ok? && r.value.lookAt == center
    ensures position.None? && angle.Some? && angle.value != "" ==> (r.Ok? <==> angle.value in PresetNames)
    ensures position.None? && angle.Some? && angle.value != "" && r.Ok? ==> r.value.lookAt == center
    ensures position.None? && angle.Some? && angle.value in PresetNames ==>
      r == Ok(ApplyZoom(PresetCamera(angle.value, center, size).value, zoom))
    ensures position.None? && (angle.None? || angle.value == "") ==>
      r == Ok(ApplyZoom(PresetCamera("iso", center, size).value, zoom))
    ensures r.Err? ==> position.None? && angle.Some? && r.error == UnknownAngle(angle.value)
  {
    var chosen :=
      if position.Some? then Ok(Pose(position.value, lookAt.GetOr(center)))
      else if angle.Some? && angle.value != "" then PresetCamera(angle.value, center, size)
      else PresetCamera("iso", center, size);
    match chosen
    case Ok(pose) => Ok(ApplyZoom(pose, zoom))
    case Err(e) => Err(e)
  }

  /** An RGBA face colour. */
  datatype Rgba = Rgba(r: nat, g: nat, b: nat, a: nat)

  const Red := Rgba(255, 0, 0, 255)

  const ColorNames: seq<string> := ["red", "green", "blue", "yellow", "cyan", "magenta", "orange", "white"]

  const ColorTable: map<string, Rgba> := map[
    "red" := Red,
    "green" := Rgba(0, 255, 0, 255),
    "blue" := Rgba(0, 0, 255, 255),
    "yellow" := Rgba(255, 255, 0, 255),
    "cyan" := Rgba(0, 255, 255, 255),
    "magenta" := Rgba(255, 0, 255, 255),
    "orange" := Rgba(255, 165, 0, 255),
    "white" := Rgba(255, 255, 255, 255)
  ]

  /** The colour lookup of `create_marker_sphere`: the eight named colours, red for any other name;
      every colour is opaque and has 8-bit channels. */
  function ColorOf(name: string): (c: Rgba)
    ensures c.a == 255 && c.r <= 255 && c.g <= 255 && c.b <= 255
    ensures name !in ColorNames ==> c == Red
    ensures name in ColorNames ==> c == ColorTable[name]
  {
    if name in ColorTable then ColorTable[name] else Red
  }

  /** A reference marker: the ball's centre, radius and colour. */
  datatype Sphere = Sphere(center: Vec3, radius: real, color: Rgba)

  /** One entry of the markers file; `pos` and `color` may be missing. */
  datatype MarkerEntry = MarkerEntry(name: string, pos: Option<Vec3>, color: Option<string>)

  /** `radius = mesh_size * 0.02`. */
  function MarkerRadius(meshSize: real): real {
    meshSize * 0.02
  }

  function MarkerSphere(entry: MarkerEntry, meshSize: real): Sphere {
    Sphere(entry.pos.GetOr(Origin), MarkerRadius(meshSize), ColorOf(entry.color.GetOr("red")))
  }

  /** `load_markers`: no spheres without a markers file, else one sphere per entry, in entry order.
      `markers` is `None` when the file does not exist. */
  function LoadMarkers(markers: Option<seq<MarkerEntry>>, meshSize: real): (spheres: seq<Sphere>)
    ensures markers.None? ==> spheres == []
    ensures markers.Some? ==>
      && |spheres| == |markers.value|
      && forall i :: 0 <= i < |spheres| ==> spheres[i] == MarkerSphere(markers.value[i], meshSize)
  {
    match markers
    case None => []
    case Some(entries) =>
      seq(|entries|, i requires 0 <= i < |entries| => MarkerSphere(entries[i], meshSize))
  }

  /** Every marker is 2% of the mesh size across in radius; one without a position sits at the origin
      and one without a colour is red. */
  lemma MarkerDefaults(markers: seq<MarkerEntry>, meshSize: real, i: nat)
    requires i < |markers|
    ensures var s := LoadMarkers(Some(markers), meshSize)[i];
      && s.radius == 0.02 * meshSize
      && (markers[i].pos.None? ==> s.center == Origin)
      && (markers[i].pos.Some? ==> s.center == markers[i].pos.value)
      && (markers[i].color.None? ==> s.color == Red)
  {
    assert "red" in ColorNames;
  }
}
