/** `analyze_mesh` of scripts/mesh-analyzer.py: the statistics and the integrity warnings and
    errors of one mesh, computed from what the mesh library reports about it. */
module Validation {
  import opened Util
  import opened Strings
  import opened Geometry

  /** What the mesh library computes for a loaded mesh, taken as given. `faceAreas` is
      `None` when reading the per-face areas raised. */
  datatype MeshProperties = MeshProperties(
    vertexCount: nat,
    faceCount: nat,
    bounds: Bounds,
    watertight: bool,
    windingConsistent: bool,
    eulerNumber: Option<int>,
    volume: real,
    surfaceArea: real,
    faceAreas: Option<seq<real>>)

  datatype MeshStats = MeshStats(
    vertices: nat,
    faces: nat,
    volume: Option<real>,
    surfaceArea: real,
    bounds: Bounds,
    dimensions: Vec3)

  datatype ValidationRecord = ValidationRecord(watertight: bool, windingConsistent: bool, eulerNumber: Option<int>)

  datatype MeshReport = MeshReport(
    stats: MeshStats,
    validation: ValidationRecord,
    errors: seq<string>,
    warnings: seq<string>)

  const NotWatertightWarning: string := "Mesh is not " + "watertight" + " - may have holes or gaps"
  const WindingWarning: string :=
    "Face " + "winding is " + "inconsistent - " + "some faces " + "may be inverted"

  /** Faces with an area below 1e-10 are degenerate. */
  const DegenerateArea: real := 0.0000000001

  /** The number of areas below `limit` (`np.sum(face_areas < limit)`). */
  function CountBelow(areas: seq<real>, limit: real): (n: nat)
    ensures n <= |areas|
    ensures n == 0 <==> forall i :: 0 <= i < |areas| ==> areas[i] >= limit
    ensures n == |areas| <==> forall i :: 0 <= i < |areas| ==> areas[i] < limit
  {
    if areas == [] then 0
    else CountBelow(areas[..|areas| - 1], limit) + (if areas[|areas| - 1] < limit then 1 else 0)
  }

  /** The count adds up over the parts of the list, and one area counts exactly when it is below
      the limit: so the count is the number of areas below the limit. */
  lemma {:induction false} CountBelowAppend(a: seq<real>, b: seq<real>, limit: real)
    ensures CountBelow(a + b, limit) == CountBelow(a, limit) + CountBelow(b, limit)
    ensures forall x :: CountBelow([x], limit) == if x < limit then 1 else 0
  {
    forall x ensures CountBelow([x], limit) == if x < limit then 1 else 0 {
      assert [x][..0] == [];
    }
    if b == [] {
      assert a + b == a;
    } else {
      var n := |b| - 1;
      var ab := a + b;
      assert ab[..|ab| - 1] == a + b[..n] && ab[|ab| - 1] == b[n];
      CountBelowAppend(a, b[..n], limit);
    }
  }

  function DegenerateError(count: nat): string {
    "Found " + NatToString(count) + " degenerate faces (zero area)"
  }

  /** The warnings of a mesh: the watertightness warning, then the winding warning. */
  function Warnings(watertight: bool, windingConsistent: bool): (w: seq<string>)
    ensures |w| == (if watertight then 0 else 1) + (if windingConsistent then 0 else 1)
    ensures NotWatertightWarning in w <==> !watertight
    ensures WindingWarning in w <==> !windingConsistent
    ensures !watertight ==> w[0] == NotWatertightWarning
    ensures !windingConsistent ==> w[|w| - 1] == WindingWarning
  {
    (if watertight then [] else [NotWatertightWarning])
      + (if windingConsistent then [] else [WindingWarning])
  }

  /** The errors of a mesh: one error carrying the number of degenerate faces when there are any,
      none when there are none or the face areas could not be read. */
  function Errors(faceAreas: Option<seq<real>>): (e: seq<string>)
    ensures |e| <= 1
    ensures |e| == 1 <==> faceAreas.Some? && CountBelow(faceAreas.value, DegenerateArea) > 0
    ensures |e| == 1 ==> e[0] == DegenerateError(CountBelow(faceAreas.value, DegenerateArea))
  {
    match faceAreas
    case None => []
    case Some(areas) =>
      var count := CountBelow(areas, DegenerateArea);
      if count > 0 then [DegenerateError(count)] else []
  }

  /** The report `analyze_mesh` builds for a mesh with these properties. */
  function ReportOf(props: MeshProperties): MeshReport {
    MeshReport(
      MeshStats(props.vertexCount, props.faceCount, if props.watertight then Some(props.volume) else None,
                props.surfaceArea, props.bounds, props.bounds.Extents()),
      ValidationRecord(props.watertight, props.windingConsistent, props.eulerNumber),
      Errors(props.faceAreas),
      Warnings(props.watertight, props.windingConsistent))
  }

  /** `analyze_mesh`, from the library's mesh properties on. */
  method AnalyzeMesh(props: MeshProperties) returns (report: MeshReport)
    ensures report == ReportOf(props)
    ensures report.errors == Errors(props.faceAreas)
    ensures report.warnings == Warnings(props.watertight, props.windingConsistent)
    ensures report.stats.vertices == props.vertexCount && report.stats.faces == props.faceCount
    ensures report.stats.volume == (if props.watertight then Some(props.volume) else None)
    ensures report.stats.dimensions == props.bounds.Extents()
    ensures report.validation
         == ValidationRecord(props.watertight, props.windingConsistent, props.eulerNumber)
  {
    var volume := if props.watertight then Some(props.volume) else None;
    var stats := MeshStats(props.vertexCount, props.faceCount, volume, props.surfaceArea,
                           props.bounds, props.bounds.Extents());
    var validation := ValidationRecord(props.watertight, props.windingConsistent, props.eulerNumber);

    var errors: seq<string> := [];
    var warnings: seq<string> := [];
    if !props.watertight {
      warnings := warnings + [NotWatertightWarning];
    }
    if !props.windingConsistent {
      warnings := warnings + [WindingWarning];
    }
    if props.faceAreas.Some? {
      var count := CountBelow(props.faceAreas.value, DegenerateArea);
      if count > 0 {
        errors := errors + [DegenerateError(count)];
      }
    }
    report := MeshReport(stats, validation, errors, warnings);
  }

  /** `"watertight" in warning.lower()`: the warnings the combined report leaves out. */
  predicate MentionsWatertight(warning: string) {
    Contains(Lower(warning), "watertight")
  }

  lemma MentionedInMiddle(a: string, b: string, c: string, pat: string)
    requires Lower(b) == pat
    ensures Contains(Lower(a + b + c), pat)
  {
    LowerAppend(a + b, c);
    LowerAppend(a, b);
    var l := Lower(a + b + c);
    assert l[|a|..|a| + |pat|] == pat;
    ContainsAt(l, pat, |a|);
  }

  lemma NotMentionedAfterFalseStart(p1: string, p2: string, p3: string, pat: string)
    requires |pat| >= 2 && |p2| >= 2
    requires pat[0] !in Lower(p1) && pat[0] !in Lower(p3)
    requires Lower(p2)[0] == pat[0] && Lower(p2)[1] != pat[1] && pat[0] !in Lower(p2)[1..]
    ensures !Contains(Lower(p1 + p2 + p3), pat)
  {
    LowerAppend3(p1, p2, p3);
    NotContainsAfterFalseStart(Lower(p1), Lower(p2), Lower(p3), pat);
  }

  /** The watertightness warning is one the combined report leaves out. */
  lemma NotWatertightWarningIsFiltered()
    ensures MentionsWatertight(NotWatertightWarning)
  {
    assert Lower("watertight") == "watertight";
    MentionedInMiddle("Mesh is not ", "watertight", " - may have holes or gaps", "watertight");
  }

  /** The winding warning is one the combined report keeps. */
  lemma WindingWarningIsKept()
    ensures !MentionsWatertight(WindingWarning)
  {
    var rest := "inconsistent - " + "some faces " + "may be inverted";
    assert 'w' !in Lower("inconsistent - ");
    assert 'w' !in Lower("some faces ");
    assert 'w' !in Lower("may be inverted");
    LowerAppend("inconsistent - " + "some faces ", "may be inverted");
    LowerAppend("inconsistent - ", "some faces ");
    assert 'w' !in Lower(rest);
    assert 'w' !in Lower("Face ");
    assert Lower("winding is ") == "winding is ";
    NotMentionedAfterFalseStart("Face ", "winding is ", rest, "watertight");
    assert WindingWarning == "Face " + "winding is " + rest;
  }
}
