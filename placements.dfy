/** Mesh names, tray placement records and the placement lookup of scripts/mesh-analyzer.py. */
module Placements {
  import opened Util
  import opened Strings
  import opened Geometry

  /** A placement record: an `x` and a `y` offset, either of which may be missing. */
  datatype Placement = Placement(x: Option<real>, y: Option<real>)

  /** `{}`, what a tray without a placement record gets. */
  const EmptyPlacement := Placement(None, None)

  /** Placements by mesh name. */
  type PlacementTable = map<string, Placement>

  /** One entry of the `trays` list of the context file. */
  datatype TrayEntry = TrayEntry(letter: string, name: string, placement: Option<Placement>)

  /** `'tray' in name.lower()`: the test that makes a mesh a tray. */
  predicate IsTrayName(name: string) {
    Contains(Lower(name), "tray")
  }

  /** The mesh name of an STL file: every ".stl" removed. */
  function MeshName(fileName: string): (name: string)
    ensures |name| <= |fileName|
  {
    RemoveAll(fileName, ".stl")
  }

  /** The placement key of a tray: `tray_<letter>_<name>` with every space of the name an underscore. */
  function PlacementKey(letter: string, name: string): string {
    "tray_" + letter + "_" + ReplaceChar(name, ' ', '_')
  }

  /** The key starts with "tray_", keeps the letter, then the name with its spaces replaced
      and nothing else changed; so a placed tray's mesh is always recognised as a tray. */
  lemma PlacementKeyShape(letter: string, name: string)
    ensures var key := PlacementKey(letter, name);
      && |key| == |letter| + |name| + 6
      && key[..5] == "tray_" && key[5..5 + |letter|] == letter && key[5 + |letter|] == '_'
      && ' ' !in key[6 + |letter|..]
      && (forall i :: 0 <= i < |name| && name[i] != ' ' ==> key[6 + |letter| + i] == name[i])
      && IsTrayName(key)
  {
    var key := PlacementKey(letter, name);
    assert key[6 + |letter|..] == ReplaceChar(name, ' ', '_');
    LowerAppend("tray", key[4..]);
    assert key == "tray" + key[4..];
    assert Lower("tray") == "tray";
    ContainsAt(Lower(key), "tray", 0);
  }

  function KeyOf(t: TrayEntry): string {
    PlacementKey(t.letter, t.name)
  }

  function PlacementOf(t: TrayEntry): Placement {
    t.placement.GetOr(EmptyPlacement)
  }

  /** The placement table after reading the entries in order (a later entry with the same key wins). */
  function PlacementsOf(trays: seq<TrayEntry>): PlacementTable {
    if trays == [] then map[]
    else PlacementsOf(trays[..|trays| - 1])[KeyOf(trays[|trays| - 1]) := PlacementOf(trays[|trays| - 1])]
  }

  /** Builds the placement lookup from the context's tray list. */
  method BuildPlacements(trays: seq<TrayEntry>) returns (placements: PlacementTable)
    ensures placements == PlacementsOf(trays)
  {
    placements := map[];
    for i := 0 to |trays|
      invariant placements == PlacementsOf(trays[..i])
    {
      var t := trays[i];
      var key := PlacementKey(t.letter, t.name);
      placements := placements[key := t.placement.GetOr(EmptyPlacement)];
      assert trays[..i + 1][..i] == trays[..i];
    }
    assert trays[..|trays|] == trays;
  }

  /** A key is in the table exactly when some entry produces it. */
  lemma {:induction false} PlacementsOfKeys(trays: seq<TrayEntry>, key: string)
    ensures key in PlacementsOf(trays) <==> exists i :: 0 <= i < |trays| && KeyOf(trays[i]) == key
  {
    if trays != [] {
      var n := |trays| - 1;
      var init := trays[..n];
      PlacementsOfKeys(init, key);
      if key in PlacementsOf(trays) && KeyOf(trays[n]) != key {
        var i :| 0 <= i < n && KeyOf(init[i]) == key;
        assert KeyOf(trays[i]) == key;
      }
      if exists i :: 0 <= i < |trays| && KeyOf(trays[i]) == key {
        var i :| 0 <= i < |trays| && KeyOf(trays[i]) == key;
        if i < n {
          assert KeyOf(init[i]) == key;
        }
      }
    }
  }

  /** A key holds the placement of the last entry that produces it. */
  lemma {:induction false} PlacementsOfLastWins(trays: seq<TrayEntry>, i: nat)
    requires i < |trays|
    requires forall j :: i < j < |trays| ==> KeyOf(trays[j]) != KeyOf(trays[i])
    ensures KeyOf(trays[i]) in PlacementsOf(trays)
    ensures PlacementsOf(trays)[KeyOf(trays[i])] == PlacementOf(trays[i])
  {
    var n := |trays| - 1;
    if i < n {
      var init := trays[..n];
      assert init[i] == trays[i];
      PlacementsOfLastWins(init, i);
    }
  }

  /** The X offset of a mesh: 0 for a mesh without a placement and for a placement without `x`. */
  function OffsetX(placements: PlacementTable, name: string): real {
    if name in placements then placements[name].x.GetOr(0.0) else 0.0
  }

  /** The Y offset of a mesh, with the same defaults. */
  function OffsetY(placements: PlacementTable, name: string): real {
    if name in placements then placements[name].y.GetOr(0.0) else 0.0
  }

  /** `get_placed_bounds`: the bounds moved by the placement offset in X and Y; Z is never moved. */
  function PlacedBounds(placements: PlacementTable, name: string, b: Bounds): (r: Bounds)
    ensures r.lo.x == b.lo.x + OffsetX(placements, name) && r.hi.x == b.hi.x + OffsetX(placements, name)
    ensures r.lo.y == b.lo.y + OffsetY(placements, name) && r.hi.y == b.hi.y + OffsetY(placements, name)
    ensures r.lo.z == b.lo.z && r.hi.z == b.hi.z
    ensures r.Extents() == b.Extents()
    ensures name !in placements ==> r == b
  {
    var offset := Vec3(OffsetX(placements, name), OffsetY(placements, name), 0.0);
    Bounds(b.lo.Plus(offset), b.hi.Plus(offset))
  }

  /** A tray's STL file `<key>.stl` yields the mesh name `<key>`, so its placement is found,
      provided neither the letter nor the name contains a dot. */
  lemma TrayFileFindsPlacement(letter: string, name: string)
    requires '.' !in letter && '.' !in name
    ensures MeshName(PlacementKey(letter, name) + ".stl") == PlacementKey(letter, name)
  {
    PlacementKeyShape(letter, name);
    var key := PlacementKey(letter, name);
    var replaced := ReplaceChar(name, ' ', '_');
    assert '.' !in replaced by {
      forall i | 0 <= i < |replaced| ensures replaced[i] != '.' {
        assert name[i] in name;
      }
    }
    assert key == "tray_" + letter + "_" + replaced;
    assert '.' !in key by {
      forall i | 0 <= i < |key| ensures key[i] != '.' {
        if 5 <= i < 5 + |letter| {
          assert key[i] == letter[i - 5];
        } else if 6 + |letter| <= i {
          assert key[i] == replaced[i - 6 - |letter|];
        }
      }
    }
    RemoveAllSuffix(key, ".stl");
  }
}
