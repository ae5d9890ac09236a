/** `check_intersections` of scripts/mesh-analyzer.py: pairwise bounding-box overlap checks
    between the placed meshes, classified into "outside the box" and "collision" findings. */
module Intersections {
  import opened Util
  import opened Strings
  import opened Geometry
  import opened Placements

  /** How far boxes may reach into each other and still count as only touching, and how far a tray
      may stick out of the box. */
  const Margin: real := 0.5

  /** An entry of the mesh dictionary: a name and the mesh bounds, `None` for a mesh that is absent. */
  datatype NamedMesh = NamedMesh(name: string, mesh: Option<Bounds>)

  /** A mesh that is present. */
  datatype Part = Part(name: string, bounds: Bounds)

  /** The present meshes, in dictionary order. */
  function Present(meshes: seq<NamedMesh>): (parts: seq<Part>)
    ensures |parts| <= |meshes|
    ensures forall p :: p in parts <==> NamedMesh(p.name, Some(p.bounds)) in meshes
  {
    if meshes == [] then []
    else
      var rest := Present(meshes[1..]);
      assert forall m :: m in meshes[1..] ==> m in meshes;
      assert forall m :: m in meshes ==> m == meshes[0] || m in meshes[1..];
      match meshes[0].mesh
      case None => rest
      case Some(b) => [Part(meshes[0].name, b)] + rest
  }

  /** The present meshes keep the dictionary's order: a single entry gives its part exactly when its
      mesh is there, and the parts of two runs of entries are the parts of each, one after the other. */
  lemma {:induction false} PresentKeepsOrder(a: seq<NamedMesh>, b: seq<NamedMesh>)
    ensures a != [] ==> Present([a[0]]) == if a[0].mesh.Some? then [Part(a[0].name, a[0].mesh.value)] else []
    ensures Present(a + b) == Present(a) + Present(b)
  {
    if a == [] {
      assert a + b == b;
    } else {
      assert [a[0]][1..] == [];
      assert (a + b)[0] == a[0] && (a + b)[1..] == a[1..] + b;
      PresentKeepsOrder(a[1..], b);
    }
  }

  /** On `axis`, one box ends no further than the margin past where the other begins. */
  predicate Separated(b1: Bounds, b2: Bounds, axis: Axis) {
    b1.hi.At(axis) <= b2.lo.At(axis) + Margin || b2.hi.At(axis) <= b1.lo.At(axis) + Margin
  }

  /** Two boxes overlap when they are separated on no axis. */
  predicate Overlaps(b1: Bounds, b2: Bounds) {
    forall axis: int :: 0 <= axis < 3 ==> !Separated(b1, b2, axis)
  }

  /** The overlap loop of `check_intersections`, which stops at the first separated axis. */
  method OverlapTest(b1: Bounds, b2: Bounds) returns (overlap: bool)
    ensures overlap == Overlaps(b1, b2)
  {
    overlap := true;
    var dim := 0;
    while dim < 3
      invariant 0 <= dim <= 3
      invariant overlap && forall a :: 0 <= a < dim ==> !Separated(b1, b2, a)
    {
      if b1.hi.At(dim) <= b2.lo.At(dim) + Margin || b2.hi.At(dim) <= b1.lo.At(dim) + Margin {
        assert Separated(b1, b2, dim);
        overlap := false;
        break;
      }
      dim := dim + 1;
    }
  }

  datatype Side = Min | Max

  /** What the checker reports about one pair. */
  datatype Finding =
    | OutsideBox(tray: string, axis: Axis, side: Side)
    | Collision(first: string, second: string)

  function AxisName(axis: Axis): string {
    if axis == 0 then "X" else if axis == 1 then "Y" else "Z"
  }

  function SideName(side: Side): string {
    match side
    case Min => "min"
    case Max => "max"
  }

  const OutsideText: string := " extends outside box on "
  const CollisionText: string := "Collision: "
  const AndText: string := " and "
  const OverlapText: string := " overlap"

  /** The issue text of a finding. */
  function Message(f: Finding): string {
    match f
    case OutsideBox(tray, axis, side) => tray + OutsideText + AxisName(axis) + " " + SideName(side)
    case Collision(first, second) => CollisionText + first + AndText + second + OverlapText
  }

  function Messages(fs: seq<Finding>): (ms: seq<string>)
    ensures |ms| == |fs|
    ensures forall i :: 0 <= i < |fs| ==> ms[i] == Message(fs[i])
  {
    seq(|fs|, i requires 0 <= i < |fs| => Message(fs[i]))
  }

  lemma MessagesAppend(a: seq<Finding>, b: seq<Finding>)
    ensures Messages(a + b) == Messages(a) + Messages(b)
  {
    var l, r := Messages(a + b), Messages(a) + Messages(b);
    forall i | 0 <= i < |l| ensures l[i] == r[i] {
      if i < |a| {
        assert (a + b)[i] == a[i];
      } else {
        assert (a + b)[i] == b[i - |a|];
      }
    }
  }

  /** The tray sticks out of the box on `side` of `axis` by more than the margin. */
  predicate Exceeds(tray: Bounds, box: Bounds, axis: Axis, side: Side) {
    match side
    case Min => tray.lo.At(axis) < box.lo.At(axis) - Margin
    case Max => tray.hi.At(axis) > box.hi.At(axis) + Margin
  }

  /** The position of an "outside the box" finding in X, Y, Z order, min before max. */
  function Rank(f: Finding): nat {
    match f
    case OutsideBox(_, axis, side) => 2 * axis + (if side == Min then 0 else 1)
    case Collision(_, _) => 0
  }

  function AxisFindings(name: string, tray: Bounds, box: Bounds, axis: Axis): seq<Finding> {
    (if Exceeds(tray, box, axis, Min) then [OutsideBox(name, axis, Min)] else [])
      + (if Exceeds(tray, box, axis, Max) then [OutsideBox(name, axis, Max)] else [])
  }

  /** The containment findings for the first `n` axes. */
  function OutsideFindings(name: string, tray: Bounds, box: Bounds, n: nat): seq<Finding>
    requires n <= 3
  {
    if n == 0 then []
    else OutsideFindings(name, tray, box, n - 1) + AxisFindings(name, tray, box, n - 1)
  }

  lemma AxisFindingsSpec(name: string, tray: Bounds, box: Bounds, axis: Axis)
    ensures var fs := AxisFindings(name, tray, box, axis);
      && |fs| <= 2
      && (forall f :: f in fs <==> f.OutsideBox? && f.tray == name && f.axis == axis && Exceeds(tray, box, f.axis, f.side))
      && (forall f :: f in fs ==> 2 * axis <= Rank(f) < 2 * axis + 2)
      && (forall i, j :: 0 <= i < j < |fs| ==> Rank(fs[i]) < Rank(fs[j]))
  {
  }

  /** The containment loop reports at most two findings per axis. */
  lemma {:induction false} OutsideFindingsLength(name: string, tray: Bounds, box: Bounds, n: nat)
    requires n <= 3
    ensures |OutsideFindings(name, tray, box, n)| <= 2 * n
  {
    if n > 0 {
      OutsideFindingsLength(name, tray, box, n - 1);
      AxisFindingsSpec(name, tray, box, n - 1);
    }
  }

  /** The containment loop reports exactly the sides on which the tray sticks out by more than the margin. */
  lemma {:induction false} OutsideFindingsMembership(name: string, tray: Bounds, box: Bounds, n: nat, f: Finding)
    requires n <= 3
    ensures f in OutsideFindings(name, tray, box, n)
            <==> f.OutsideBox? && f.tray == name && f.axis < n && Exceeds(tray, box, f.axis, f.side)
  {
    if n > 0 {
      OutsideFindingsMembership(name, tray, box, n - 1, f);
      AxisFindingsSpec(name, tray, box, n - 1);
    }
  }

  /** The containment findings come in X, Y, Z order, min before max. */
  lemma {:induction false} OutsideFindingsOrdered(name: string, tray: Bounds, box: Bounds, n: nat)
    requires n <= 3
    ensures var fs := OutsideFindings(name, tray, box, n);
      && (forall f :: f in fs ==> Rank(f) < 2 * n)
      && (forall i, j :: 0 <= i < j < |fs| ==> Rank(fs[i]) < Rank(fs[j]))
  {
    if n > 0 {
      OutsideFindingsOrdered(name, tray, box, n - 1);
      AxisFindingsSpec(name, tray, box, n - 1);
      var prev := OutsideFindings(name, tray, box, n - 1);
      var last := AxisFindings(name, tray, box, n - 1);
      var fs := prev + last;
      assert fs == OutsideFindings(name, tray, box, n);
      forall i, j | 0 <= i < j < |fs| ensures Rank(fs[i]) < Rank(fs[j]) {
        if j < |prev| {
          assert fs[i] == prev[i] && fs[j] == prev[j];
        } else if i < |prev| {
          assert fs[i] in prev && fs[j] in last;
        } else {
          assert fs[i] == last[i - |prev|] && fs[j] == last[j - |prev|];
        }
      }
    }
  }

  /** The findings for one pair of placed boxes, the first listed before the second. */
  function PlacedPairFindings(name1: string, b1: Bounds, name2: string, b2: Bounds): seq<Finding> {
    if !Overlaps(b1, b2) then []
    else if IsTrayName(name1) && name2 == "box" then OutsideFindings(name1, b1, b2, 3)
    else if IsTrayName(name1) && IsTrayName(name2) then [Collision(name1, name2)]
    else []
  }

  /** The findings for one pair of meshes, each moved by its placement first. */
  function PairFindings(p1: Part, p2: Part, placements: PlacementTable): seq<Finding> {
    PlacedPairFindings(p1.name, PlacedBounds(placements, p1.name, p1.bounds),
                       p2.name, PlacedBounds(placements, p2.name, p2.bounds))
  }

  /** The pair check with the placements fixed. */
  function PairCheck(placements: PlacementTable): (Part, Part) -> seq<Finding> {
    (p1: Part, p2: Part) => PairFindings(p1, p2, placements)
  }

  /** The findings of the pairs (i, k) for i < k < j, in order of k. */
  function RowFindings(parts: seq<Part>, check: (Part, Part) -> seq<Finding>, i: nat, j: nat): seq<Finding>
    requires i < j <= |parts|
    decreases j
  {
    if j == i + 1 then []
    else RowFindings(parts, check, i, j - 1) + check(parts[i], parts[j - 1])
  }

  /** The findings of every pair whose first member comes before position i. */
  function FindingsBefore(parts: seq<Part>, check: (Part, Part) -> seq<Finding>, i: nat): seq<Finding>
    requires i <= |parts|
  {
    if i == 0 then []
    else FindingsBefore(parts, check, i - 1) + RowFindings(parts, check, i - 1, |parts|)
  }

  function IntersectionFindings(meshes: seq<NamedMesh>, placements: PlacementTable): seq<Finding> {
    var parts := Present(meshes);
    FindingsBefore(parts, PairCheck(placements), |parts|)
  }

  /** The containment checks on one axis: min, then max. */
  method AxisIssues(name: string, tray: Bounds, box: Bounds, axis: Axis) returns (issues: seq<string>)
    ensures issues == Messages(AxisFindings(name, tray, box, axis))
  {
    issues := [];
    if tray.lo.At(axis) < box.lo.At(axis) - Margin {
      issues := issues + [Message(OutsideBox(name, axis, Min))];
    }
    if tray.hi.At(axis) > box.hi.At(axis) + Margin {
      issues := issues + [Message(OutsideBox(name, axis, Max))];
    }
  }

  /** The containment loop over X, Y and Z. */
  method OutsideIssues(name: string, tray: Bounds, box: Bounds) returns (issues: seq<string>)
    ensures issues == Messages(OutsideFindings(name, tray, box, 3))
  {
    issues := [];
    for axis := 0 to 3
      invariant issues == Messages(OutsideFindings(name, tray, box, axis))
    {
      var axisIssues := AxisIssues(name, tray, box, axis);
      MessagesAppend(OutsideFindings(name, tray, box, axis), AxisFindings(name, tray, box, axis));
      issues := issues + axisIssues;
    }
  }

  /** The body of the inner loop of `check_intersections`: the issues of one pair of placed boxes. */
  method PairIssues(name1: string, bounds1: Bounds, name2: string, bounds2: Bounds) returns (issues: seq<string>)
    ensures issues == Messages(PlacedPairFindings(name1, bounds1, name2, bounds2))
  {
    issues := [];
    var overlap := OverlapTest(bounds1, bounds2);
    if overlap {
      if IsTrayName(name1) && name2 == "box" {
        issues := OutsideIssues(name1, bounds1, bounds2);
      } else if IsTrayName(name1) && IsTrayName(name2) {
        issues := [Message(Collision(name1, name2))];
      }
    }
  }

  /** The issues of two meshes, each moved by its placement first. */
  method PartPairIssues(p1: Part, p2: Part, placements: PlacementTable) returns (issues: seq<string>)
    ensures issues == Messages(PairFindings(p1, p2, placements))
  {
    var bounds1 := PlacedBounds(placements, p1.name, p1.bounds);
    var bounds2 := PlacedBounds(placements, p2.name, p2.bounds);
    issues := PairIssues(p1.name, bounds1, p2.name, bounds2);
  }

  /** One more pair of a row. */
  lemma RowStep(parts: seq<Part>, placements: PlacementTable, i: nat, j: nat)
    requires i < j < |parts|
    ensures RowFindings(parts, PairCheck(placements), i, j + 1)
         == RowFindings(parts, PairCheck(placements), i, j) + PairFindings(parts[i], parts[j], placements)
  {
  }

  /** One pass of the inner loop: the issues of the pair (i, j) appended to those before it. */
  method ExtendRow(parts: seq<Part>, placements: PlacementTable, i: nat, j: nat, issues: seq<string>)
    returns (extended: seq<string>)
    requires i < j < |parts|
    requires issues == Messages(RowFindings(parts, PairCheck(placements), i, j))
    ensures extended == Messages(RowFindings(parts, PairCheck(placements), i, j + 1))
  {
    var pairIssues := PartPairIssues(parts[i], parts[j], placements);
    RowStep(parts, placements, i, j);
    MessagesAppend(RowFindings(parts, PairCheck(placements), i, j), PairFindings(parts[i], parts[j], placements));
    extended := issues + pairIssues;
  }

  /** The inner loop of `check_intersections`: mesh i against every later mesh, in list order. */
  method RowIssues(parts: seq<Part>, placements: PlacementTable, i: nat) returns (issues: seq<string>)
    requires i < |parts|
    ensures issues == Messages(RowFindings(parts, PairCheck(placements), i, |parts|))
  {
    issues := [];
    for j := i + 1 to |parts|
      invariant issues == Messages(RowFindings(parts, PairCheck(placements), i, j))
    {
      issues := ExtendRow(parts, placements, i, j, issues);
    }
  }

  /** `check_intersections`: the issue texts of all pairs of present meshes, pairs taken in list order. */
  method CheckIntersections(meshes: seq<NamedMesh>, placements: PlacementTable) returns (issues: seq<string>)
    ensures issues == Messages(IntersectionFindings(meshes, placements))
  {
    issues := [];
    var parts := Present(meshes);
    ghost var check := PairCheck(placements);
    for i := 0 to |parts|
      invariant issues == Messages(FindingsBefore(parts, check, i))
    {
      var rowIssues := RowIssues(parts, placements, i);
      MessagesAppend(FindingsBefore(parts, check, i), RowFindings(parts, check, i, |parts|));
      issues := issues + rowIssues;
    }
  }

  /** Overlap does not depend on which box comes first. */
  lemma OverlapsSymmetric(b1: Bounds, b2: Bounds)
    ensures Overlaps(b1, b2) <==> Overlaps(b2, b1)
  {
    forall a | 0 <= a < 3
      ensures Separated(b1, b2, a) <==> Separated(b2, b1, a)
    {
    }
  }

  /** Boxes that meet within the margin on some axis never overlap. */
  lemma TouchingIsNotOverlap(b1: Bounds, b2: Bounds, axis: Axis)
    requires b1.hi.At(axis) <= b2.lo.At(axis) + Margin
    ensures !Overlaps(b1, b2) && !Overlaps(b2, b1)
  {
    assert Separated(b1, b2, axis) && Separated(b2, b1, axis);
  }

  /** What a pair yields: nothing unless the placed boxes overlap and the first is a tray; then
      the sides on which it sticks out of a second mesh named "box", or one collision with a
      second tray, and nothing for any other second mesh. */
  lemma PairFindingsCases(p1: Part, p2: Part, placements: PlacementTable, f: Finding)
    ensures var b1 := PlacedBounds(placements, p1.name, p1.bounds);
            var b2 := PlacedBounds(placements, p2.name, p2.bounds);
            f in PairFindings(p1, p2, placements)
            <==> Overlaps(b1, b2) && IsTrayName(p1.name)
                 && (if p2.name == "box"
                     then f.OutsideBox? && f.tray == p1.name && Exceeds(b1, b2, f.axis, f.side)
                     else IsTrayName(p2.name) && f == Collision(p1.name, p2.name))
  {
    var b1 := PlacedBounds(placements, p1.name, p1.bounds);
    var b2 := PlacedBounds(placements, p2.name, p2.bounds);
    OutsideFindingsMembership(p1.name, b1, b2, 3, f);
  }

  /** At most six findings per pair, and the containment ones come in X, Y, Z order, min before max. */
  lemma PairFindingsBounded(p1: Part, p2: Part, placements: PlacementTable)
    ensures var fs := PairFindings(p1, p2, placements);
            |fs| <= 6 && forall i, j :: 0 <= i < j < |fs| ==> Rank(fs[i]) < Rank(fs[j])
  {
    var b1 := PlacedBounds(placements, p1.name, p1.bounds);
    var b2 := PlacedBounds(placements, p2.name, p2.bounds);
    OutsideFindingsLength(p1.name, b1, b2, 3);
    OutsideFindingsOrdered(p1.name, b1, b2, 3);
  }

  /** A mesh named "box" listed before a tray gets no containment check: pairs whose first
      member is not a tray yield nothing. */
  lemma NonTrayFirstYieldsNothing(p1: Part, p2: Part, placements: PlacementTable)
    requires p1.name == "box" || !IsTrayName(p1.name)
    ensures PairFindings(p1, p2, placements) == []
  {
    if p1.name == "box" {
      assert |Lower(p1.name)| < |"tray"|;
    }
  }

  /** A finding of the pair (i, k) is among the findings of row i up to any j > k. */
  lemma {:induction false} RowFindingsHas(parts: seq<Part>, check: (Part, Part) -> seq<Finding>, i: nat, j: nat, k: nat, f: Finding)
    requires i < k < j <= |parts| && f in check(parts[i], parts[k])
    ensures f in RowFindings(parts, check, i, j)
    decreases j
  {
    var prev := RowFindings(parts, check, i, j - 1);
    if k < j - 1 {
      RowFindingsHas(parts, check, i, j - 1, k, f);
      InLeft(f, prev, check(parts[i], parts[j - 1]));
    } else {
      InRight(f, prev, check(parts[i], parts[j - 1]));
    }
  }

  /** A finding of row i up to j comes from some pair (i, k) with k < j. */
  lemma {:induction false} RowFindingsFrom(parts: seq<Part>, check: (Part, Part) -> seq<Finding>, i: nat, j: nat, f: Finding)
    requires i < j <= |parts| && f in RowFindings(parts, check, i, j)
    ensures exists k :: i < k < j && f in check(parts[i], parts[k])
    decreases j
  {
    var prev := RowFindings(parts, check, i, j - 1);
    InEither(f, prev, check(parts[i], parts[j - 1]));
    if f in prev {
      RowFindingsFrom(parts, check, i, j - 1, f);
    } else {
      assert f in check(parts[i], parts[j - 1]);
    }
  }

  /** A finding of the pair (a, k) is among the findings of the rows before any i > a. */
  lemma {:induction false} FindingsBeforeHas(parts: seq<Part>, check: (Part, Part) -> seq<Finding>, i: nat, a: nat, k: nat, f: Finding)
    requires a < i <= |parts| && a < k < |parts| && f in check(parts[a], parts[k])
    ensures f in FindingsBefore(parts, check, i)
  {
    if a < i - 1 {
      FindingsBeforeHas(parts, check, i - 1, a, k, f);
      InLeft(f, FindingsBefore(parts, check, i - 1), RowFindings(parts, check, i - 1, |parts|));
    } else {
      RowFindingsHas(parts, check, a, |parts|, k, f);
      InRight(f, FindingsBefore(parts, check, i - 1), RowFindings(parts, check, i - 1, |parts|));
    }
  }

  /** A finding of the rows before i comes from some pair (a, k) with a < i and a < k. */
  lemma {:induction false} FindingsBeforeFrom(parts: seq<Part>, check: (Part, Part) -> seq<Finding>, i: nat, f: Finding)
    requires i <= |parts| && f in FindingsBefore(parts, check, i)
    ensures exists a, k :: 0 <= a < i && a < k < |parts| && f in check(parts[a], parts[k])
  {
    var prev := FindingsBefore(parts, check, i - 1);
    var row := RowFindings(parts, check, i - 1, |parts|);
    InEither(f, prev, row);
    if f in prev {
      FindingsBeforeFrom(parts, check, i - 1, f);
      var a, k :| 0 <= a < i - 1 && a < k < |parts| && f in check(parts[a], parts[k]);
      assert 0 <= a < i && a < k < |parts|;
    } else {
      assert f in row;
      RowFindingsFrom(parts, check, i - 1, |parts|, f);
      var k :| i - 1 < k < |parts| && f in check(parts[i - 1], parts[k]);
      assert 0 <= i - 1 < i && i - 1 < k < |parts|;
    }
  }

  /** Every finding of the whole check comes from some pair i < j of present meshes. */
  lemma IntersectionFindingsSound(meshes: seq<NamedMesh>, placements: PlacementTable, f: Finding)
    requires f in IntersectionFindings(meshes, placements)
    ensures exists i, j :: 0 <= i < j < |Present(meshes)|
                           && f in PairFindings(Present(meshes)[i], Present(meshes)[j], placements)
  {
    var parts := Present(meshes);
    var check := PairCheck(placements);
    FindingsBeforeFrom(parts, check, |parts|, f);
    var i, j :| 0 <= i < j < |parts| && f in check(parts[i], parts[j]);
    assert f in PairFindings(parts[i], parts[j], placements);
  }

  /** Every finding of every pair i < j of present meshes is reported. */
  lemma IntersectionFindingsComplete(meshes: seq<NamedMesh>, placements: PlacementTable, i: nat, j: nat, f: Finding)
    requires i < j < |Present(meshes)|
    requires f in PairFindings(Present(meshes)[i], Present(meshes)[j], placements)
    ensures f in IntersectionFindings(meshes, placements)
  {
    var parts := Present(meshes);
    var check := PairCheck(placements);
    assert f in check(parts[i], parts[j]);
    FindingsBeforeHas(parts, check, |parts|, i, j, f);
  }
}
