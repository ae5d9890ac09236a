/** analyze_stl.py: the scans over the points of a box mesh that look for its wall and rail
    structure. The point slices and the Z samples are inputs; rounding is a parameter. */
module CrossSection {
  import opened Util
  import opened Geometry

  function MinOf(xs: seq<real>): real
    requires |xs| > 0
  {
    if |xs| == 1 then xs[0]
    else
      var m := MinOf(xs[..|xs| - 1]);
      if xs[|xs| - 1] < m then xs[|xs| - 1] else m
  }

  function MaxOf(xs: seq<real>): real
    requires |xs| > 0
  {
    if |xs| == 1 then xs[0]
    else
      var m := MaxOf(xs[..|xs| - 1]);
      if xs[|xs| - 1] > m then xs[|xs| - 1] else m
  }

  /** `min()` and `max()` bound every value and are values of the list. */
  lemma {:induction false} MinMaxOfSpec(xs: seq<real>)
    requires |xs| > 0
    ensures forall i :: 0 <= i < |xs| ==> MinOf(xs) <= xs[i] <= MaxOf(xs)
    ensures exists i :: 0 <= i < |xs| && xs[i] == MinOf(xs)
    ensures exists i :: 0 <= i < |xs| && xs[i] == MaxOf(xs)
  {
    if |xs| > 1 {
      var init := xs[..|xs| - 1];
      MinMaxOfSpec(init);
      assert forall i :: 0 <= i < |init| ==> init[i] == xs[i];
      var i :| 0 <= i < |init| && init[i] == MinOf(init);
      var j :| 0 <= j < |init| && init[j] == MaxOf(init);
      var last := |xs| - 1;
      if xs[last] < MinOf(init) {
        assert xs[last] == MinOf(xs);
      } else {
        assert xs[i] == MinOf(xs);
      }
      if xs[last] > MaxOf(init) {
        assert xs[last] == MaxOf(xs);
      } else {
        assert xs[j] == MaxOf(xs);
      }
    } else {
      assert xs[0] == MinOf(xs) && xs[0] == MaxOf(xs);
    }
  }

  /** One coordinate of every point, `points[:, axis]`. */
  function Column(points: seq<Vec3>, axis: Axis): (col: seq<real>)
    ensures |col| == |points| && forall i :: 0 <= i < |points| ==> col[i] == points[i].At(axis)
  {
    seq(|points|, i requires 0 <= i < |points| => points[i].At(axis))
  }

  /** The per-axis minimum of some points. */
  function Lowest(points: seq<Vec3>): Vec3
    requires points != []
  {
    Vec3(MinOf(Column(points, 0)), MinOf(Column(points, 1)), MinOf(Column(points, 2)))
  }

  /** The per-axis maximum of some points. */
  function Highest(points: seq<Vec3>): Vec3
    requires points != []
  {
    Vec3(MaxOf(Column(points, 0)), MaxOf(Column(points, 1)), MaxOf(Column(points, 2)))
  }

  /** `min(axis=0)` and `max(axis=0)` over the unique points; NumPy raises on an empty array,
      which is `None` here. The box holds every point. */
  function OverallBounds(points: seq<Vec3>): (r: Option<Bounds>)
    ensures r.None? <==> points == []
    ensures r.Some? ==> forall i :: 0 <= i < |points| ==>
      && r.value.lo.x <= points[i].x <= r.value.hi.x
      && r.value.lo.y <= points[i].y <= r.value.hi.y
      && r.value.lo.z <= points[i].z <= r.value.hi.z
  {
    if points == [] then None
    else
      MinMaxOfSpec(Column(points, 0));
      MinMaxOfSpec(Column(points, 1));
      MinMaxOfSpec(Column(points, 2));
      assert forall i :: 0 <= i < |points| ==> Column(points, 0)[i] == points[i].x;
      assert forall i :: 0 <= i < |points| ==> Column(points, 1)[i] == points[i].y;
      assert forall i :: 0 <= i < |points| ==> Column(points, 2)[i] == points[i].z;
      Some(Bounds(Lowest(points), Highest(points)))
  }

  /** Each face of the overall box touches a point: on every axis some point has the minimum and
      some point has the maximum. */
  lemma OverallBoundsAttained(points: seq<Vec3>, axis: Axis)
    requires points != []
    ensures exists i :: 0 <= i < |points| && points[i].At(axis) == OverallBounds(points).value.lo.At(axis)
    ensures exists i :: 0 <= i < |points| && points[i].At(axis) == OverallBounds(points).value.hi.At(axis)
  {
    var col := Column(points, axis);
    MinMaxOfSpec(col);
    assert Lowest(points).At(axis) == MinOf(col) && Highest(points).At(axis) == MaxOf(col);
    var i :| 0 <= i < |col| && col[i] == MinOf(col);
    var j :| 0 <= j < |col| && col[j] == MaxOf(col);
    assert points[i].At(axis) == Lowest(points).At(axis);
    assert points[j].At(axis) == Highest(points).At(axis);
  }

  predicate Increasing(xs: seq<real>) {
    forall i, j :: 0 <= i < j < |xs| ==> xs[i] < xs[j]
  }

  predicate Decreasing(xs: seq<real>) {
    forall i, j :: 0 <= i < j < |xs| ==> xs[i] > xs[j]
  }

  /** Inserts `x` into an increasing list unless it is already there. */
  function InsertDistinct(s: seq<real>, x: real): seq<real> {
    if s == [] then [x]
    else if x < s[0] then [x] + s
    else if x == s[0] then s
    else [s[0]] + InsertDistinct(s[1..], x)
  }

  lemma {:induction false} InsertDistinctSpec(s: seq<real>, x: real)
    requires Increasing(s)
    ensures Increasing(InsertDistinct(s, x))
    ensures forall v :: v in InsertDistinct(s, x) <==> v in s || v == x
  {
    if s != [] && x > s[0] {
      InsertDistinctSpec(s[1..], x);
      var r := InsertDistinct(s[1..], x);
      assert forall v :: v in s <==> v == s[0] || v in s[1..];
      forall k | 0 <= k < |r| ensures s[0] < r[k] {
        assert r[k] in r;
        if r[k] != x {
          var m :| 0 <= m < |s[1..]| && s[1..][m] == r[k];
          assert s[m + 1] == r[k];
        }
      }
    } else if s != [] {
      assert forall v :: v in s <==> v == s[0] || v in s[1..];
    }
  }

  /** `sorted(set(xs))`: the distinct values in increasing order. */
  function SortedSet(xs: seq<real>): seq<real> {
    if xs == [] then [] else InsertDistinct(SortedSet(xs[..|xs| - 1]), xs[|xs| - 1])
  }

  lemma {:induction false} SortedSetSpec(xs: seq<real>)
    ensures Increasing(SortedSet(xs))
    ensures forall v :: v in SortedSet(xs) <==> v in xs
  {
    if xs != [] {
      var init := xs[..|xs| - 1];
      SortedSetSpec(init);
      InsertDistinctSpec(SortedSet(init), xs[|xs| - 1]);
      assert xs == init + [xs[|xs| - 1]];
    }
  }

  /** The values of `xs` that pass `keep`, in order. */
  function Filter(xs: seq<real>, keep: real -> bool): (r: seq<real>)
    ensures |r| <= |xs|
  {
    if xs == [] then []
    else Filter(xs[..|xs| - 1], keep) + (if keep(xs[|xs| - 1]) then [xs[|xs| - 1]] else [])
  }

  lemma {:induction false} FilterMembership(xs: seq<real>, keep: real -> bool)
    ensures forall v :: v in Filter(xs, keep) <==> v in xs && keep(v)
  {
    if xs != [] {
      var init := xs[..|xs| - 1];
      FilterMembership(init, keep);
      assert xs == init + [xs[|xs| - 1]];
    }
  }

  lemma {:induction false} FilterIncreasing(xs: seq<real>, keep: real -> bool)
    requires Increasing(xs)
    ensures Increasing(Filter(xs, keep))
  {
    if xs != [] {
      var init := xs[..|xs| - 1];
      var last := xs[|xs| - 1];
      FilterIncreasing(init, keep);
      FilterMembership(init, keep);
      var f := Filter(init, keep);
      forall k | 0 <= k < |f| ensures f[k] < last {
        assert f[k] in f;
        var m :| 0 <= m < |init| && init[m] == f[k];
      }
    }
  }

  /** `round(y, digits)` applied to each value. */
  function Rounded(ys: seq<real>, round: real -> real): (r: seq<real>)
    ensures |r| == |ys| && forall i :: 0 <= i < |ys| ==> r[i] == round(ys[i])
  {
    seq(|ys|, i requires 0 <= i < |ys| => round(ys[i]))
  }

  lemma RoundedMembership(ys: seq<real>, round: real -> real, v: real)
    ensures v in Rounded(ys, round) <==> exists y :: y in ys && v == round(y)
  {
    var r := Rounded(ys, round);
    if v in r {
      var i :| 0 <= i < |r| && r[i] == v;
      assert ys[i] in ys;
    }
    if exists y :: y in ys && v == round(y) {
      var y :| y in ys && v == round(y);
      var i :| 0 <= i < |ys| && ys[i] == y;
      assert r[i] == v;
    }
  }

  /** A Y value that may be an inner boundary: between 20 and 45 from the centre, exclusive. */
  predicate IsInner(y: real) {
    Abs(y) < 45.0 && Abs(y) > 20.0
  }

  /** `inner_y`: the rounded distinct Y values of a slice that may be inner boundaries. */
  function InnerY(ys: seq<real>, round: real -> real): seq<real> {
    Filter(SortedSet(Rounded(ys, round)), IsInner)
  }

  /** The inner candidates are increasing, and are exactly the rounded values between 20 and 45
      from the centre. */
  lemma InnerYSpec(ys: seq<real>, round: real -> real, v: real)
    ensures Increasing(InnerY(ys, round))
    ensures v in InnerY(ys, round) <==> (exists y :: y in ys && v == round(y)) && 20.0 < Abs(v) < 45.0
  {
    var u := SortedSet(Rounded(ys, round));
    SortedSetSpec(Rounded(ys, round));
    FilterIncreasing(u, IsInner);
    FilterMembership(u, IsInner);
    RoundedMembership(ys, round, v);
  }

  /** A jump between consecutive values this large marks a wall boundary. */
  const GapWidth: real := 3.0

  /** Gaps are only looked for among more than this many values. */
  const MinValues: nat := 10

  /** The consecutive pairs more than `GapWidth` apart, in order. */
  function Gaps(ys: seq<real>): (gaps: seq<(real, real)>)
    ensures |ys| > 0 ==> |gaps| <= |ys| - 1
    ensures |ys| < 2 ==> gaps == []
  {
    if |ys| < 2 then []
    else
      var n := |ys|;
      Gaps(ys[..n - 1]) + (if ys[n - 1] - ys[n - 2] > GapWidth then [(ys[n - 2], ys[n - 1])] else [])
  }

  /** A pair is a gap exactly when it is two consecutive values more than `GapWidth` apart. */
  lemma {:induction false} GapsMembership(ys: seq<real>, a: real, b: real)
    ensures (a, b) in Gaps(ys) <==> exists i :: 1 <= i < |ys| && ys[i - 1] == a && ys[i] == b && b - a > GapWidth
  {
    if |ys| >= 2 {
      var n := |ys|;
      var init := ys[..n - 1];
      GapsMembership(init, a, b);
      if exists i :: 1 <= i < |ys| && ys[i - 1] == a && ys[i] == b && b - a > GapWidth {
        var i :| 1 <= i < |ys| && ys[i - 1] == a && ys[i] == b && b - a > GapWidth;
        if i < n - 1 {
          assert init[i - 1] == a && init[i] == b;
        }
      }
      if (a, b) in Gaps(init) {
        var i :| 1 <= i < |init| && init[i - 1] == a && init[i] == b && b - a > GapWidth;
        assert ys[i - 1] == a && ys[i] == b;
      }
    }
  }

  /** Each gap spans an increase, and ends no later than the next one starts. */
  predicate Ascending(g: seq<(real, real)>) {
    forall k, l :: 0 <= k < l < |g| ==> g[k].0 < g[k].1 <= g[l].0 < g[l].1
  }

  /** A gap that starts after every earlier gap ends extends an ascending list. */
  lemma AscendingSnoc(g: seq<(real, real)>, p: (real, real))
    requires Ascending(g) && p.0 < p.1
    requires forall k :: 0 <= k < |g| ==> g[k].0 < g[k].1 <= p.0
    ensures Ascending(g + [p])
  {
    var all := g + [p];
    forall k, l | 0 <= k < l < |all| ensures all[k].0 < all[k].1 <= all[l].0 < all[l].1 {
      if l < |g| {
        assert all[k] == g[k] && all[l] == g[l];
      } else {
        assert all[k] == g[k] && all[l] == p;
      }
    }
  }

  /** Over increasing values the gaps are increasing and do not overlap: each ends no later than
      the next one starts. */
  lemma {:induction false} GapsAscending(ys: seq<real>)
    requires Increasing(ys)
    ensures Ascending(Gaps(ys))
  {
    if |ys| >= 2 {
      var n := |ys|;
      var init := ys[..n - 1];
      assert Increasing(init) by {
        forall i, j | 0 <= i < j < |init| ensures init[i] < init[j] {
          assert init[i] == ys[i] && init[j] == ys[j];
        }
      }
      GapsAscending(init);
      var g := Gaps(init);
      if ys[n - 1] - ys[n - 2] > GapWidth {
        forall k | 0 <= k < |g| ensures g[k].0 < g[k].1 <= ys[n - 2] {
          assert g[k] in g;
          GapsMembership(init, g[k].0, g[k].1);
          var i :| 1 <= i < |init| && init[i - 1] == g[k].0 && init[i] == g[k].1 && g[k].1 - g[k].0 > GapWidth;
          assert init[i] == ys[i];
          if i < n - 2 {
            assert ys[i] < ys[n - 2];
          }
        }
        AscendingSnoc(g, (ys[n - 2], ys[n - 1]));
        assert Gaps(ys) == g + [(ys[n - 2], ys[n - 1])];
      } else {
        assert Gaps(ys) == g + [];
        assert g + [] == g;
      }
    }
  }

  /** The gap search of the slice just above the floor; `None` when it has too few values to look. */
  method FindGaps(ys: seq<real>) returns (gaps: Option<seq<(real, real)>>)
    ensures gaps.None? <==> |ys| <= MinValues
    ensures gaps.Some? ==> gaps.value == Gaps(ys)
  {
    if |ys| <= MinValues {
      return None;
    }
    var found: seq<(real, real)> := [];
    for i := 1 to |ys|
      invariant found == Gaps(ys[..i])
    {
      assert ys[..i + 1][..i] == ys[..i];
      if ys[i] - ys[i - 1] > GapWidth {
        found := found + [(ys[i - 1], ys[i])];
      }
    }
    assert ys[..|ys|] == ys;
    gaps := Some(found);
  }

  /** One Z sample of the step search: the level and the Y coordinates of the points near it. */
  datatype Slice = Slice(z: real, ys: seq<real>)

  /** `pts[:,1].max() - pts[:,1].min()`. */
  function Range(ys: seq<real>): real
    requires |ys| > 0
  {
    MaxOf(ys) - MinOf(ys)
  }

  /** The range of the last slice with points, `prev_y_range` after these slices. */
  function LastRange(slices: seq<Slice>): Option<real> {
    if slices == [] then None
    else
      var s := slices[|slices| - 1];
      if s.ys == [] then LastRange(slices[..|slices| - 1]) else Some(Range(s.ys))
  }

  /** A Y range that changes by more than this between samples marks a step. */
  const StepChange: real := 5.0

  /** Slice i is a step: it has points, a previous range exists and is not 0 (0 is falsy), and the
      range changed by more than `StepChange`. */
  predicate Triggers(slices: seq<Slice>, i: nat)
    requires i < |slices|
  {
    var prev := LastRange(slices[..i]);
    && slices[i].ys != []
    && prev.Some? && prev.value != 0.0
    && Abs(Range(slices[i].ys) - prev.value) > StepChange
  }

  /** The level of the last step among the first `k` slices, if any. */
  function StepZUpTo(slices: seq<Slice>, k: nat): Option<real>
    requires k <= |slices|
  {
    if k == 0 then None
    else if Triggers(slices, k - 1) then Some(slices[k - 1].z)
    else StepZUpTo(slices, k - 1)
  }

  /** `step_z` after the loop. */
  function StepZ(slices: seq<Slice>): Option<real> {
    StepZUpTo(slices, |slices|)
  }

  /** The step search loop. */
  method DetectStep(slices: seq<Slice>) returns (stepZ: Option<real>)
    ensures stepZ == StepZ(slices)
  {
    var prevRange: Option<real> := None;
    stepZ := None;
    for i := 0 to |slices|
      invariant prevRange == LastRange(slices[..i])
      invariant stepZ == StepZUpTo(slices, i)
    {
      assert slices[..i + 1][..i] == slices[..i];
      var s := slices[i];
      if |s.ys| > 0 {
        var yRange := MaxOf(s.ys) - MinOf(s.ys);
        if prevRange.Some? && prevRange.value != 0.0 && Abs(yRange - prevRange.value) > StepChange {
          stepZ := Some(s.z);
        }
        prevRange := Some(yRange);
      }
    }
    assert slices[..|slices|] == slices;
  }

  /** Slice i triggers and no later slice among the first `k` does. */
  predicate IsLastTrigger(slices: seq<Slice>, k: nat, i: nat)
    requires i < k <= |slices|
  {
    Triggers(slices, i) && forall j :: i < j < k ==> !Triggers(slices, j)
  }

  /** There is no step level exactly when no slice triggers. */
  lemma {:induction false} StepZNone(slices: seq<Slice>, k: nat)
    requires k <= |slices|
    ensures StepZUpTo(slices, k).None? <==> forall i :: 0 <= i < k ==> !Triggers(slices, i)
  {
    if k > 0 {
      StepZNone(slices, k - 1);
    }
  }

  /** The step level is that of the last triggering slice. */
  lemma {:induction false} StepZIsLastTrigger(slices: seq<Slice>, k: nat)
    requires k <= |slices| && StepZUpTo(slices, k).Some?
    ensures exists i :: 0 <= i < k && IsLastTrigger(slices, k, i) && StepZUpTo(slices, k).value == slices[i].z
  {
    if Triggers(slices, k - 1) {
      assert IsLastTrigger(slices, k, k - 1);
    } else {
      StepZIsLastTrigger(slices, k - 1);
      var i :| 0 <= i < k - 1 && IsLastTrigger(slices, k - 1, i) && StepZUpTo(slices, k - 1).value == slices[i].z;
      assert IsLastTrigger(slices, k, i);
    }
  }

  /** A slice without points leaves the previous range as it was. */
  lemma EmptySliceKeepsRange(slices: seq<Slice>, z: real)
    ensures LastRange(slices + [Slice(z, [])]) == LastRange(slices)
  {
    assert (slices + [Slice(z, [])])[..|slices|] == slices;
  }

  /** A previous range of exactly 0 never lets a step fire. */
  lemma ZeroRangeSuppresses(slices: seq<Slice>, i: nat)
    requires i < |slices| && LastRange(slices[..i]) == Some(0.0)
    ensures !Triggers(slices, i)
  {
  }

  predicate Positive(y: real) {
    y > 0.0
  }

  predicate Negative(y: real) {
    y < 0.0
  }

  /** `y_positive`: the rounded values of the positive Y coordinates, distinct and increasing. */
  function YPositive(ys: seq<real>, round: real -> real): seq<real> {
    SortedSet(Rounded(Filter(ys, Positive), round))
  }

  /** `y_negative`: the rounded values of the negative Y coordinates, distinct and decreasing. */
  function YNegative(ys: seq<real>, round: real -> real): seq<real> {
    Reverse(SortedSet(Rounded(Filter(ys, Negative), round)))
  }

  function Reverse(xs: seq<real>): (r: seq<real>)
    ensures |r| == |xs| && forall i :: 0 <= i < |xs| ==> r[i] == xs[|xs| - 1 - i]
  {
    seq(|xs|, i requires 0 <= i < |xs| => xs[|xs| - 1 - i])
  }

  lemma ReverseSpec(xs: seq<real>)
    requires Increasing(xs)
    ensures Decreasing(Reverse(xs))
    ensures forall v :: v in Reverse(xs) <==> v in xs
  {
    var r := Reverse(xs);
    forall v | v in xs ensures v in r {
      var i :| 0 <= i < |xs| && xs[i] == v;
      assert r[|xs| - 1 - i] == v;
    }
  }

  lemma RoundedOfFilter(ys: seq<real>, keep: real -> bool, round: real -> real, v: real)
    ensures v in Rounded(Filter(ys, keep), round) <==> exists y :: y in ys && keep(y) && v == round(y)
  {
    RoundedMembership(Filter(ys, keep), round, v);
    FilterMembership(ys, keep);
  }

  /** The positive wall positions are distinct and increasing, and are the roundings of the positive
      coordinates. */
  lemma YPositiveSpec(ys: seq<real>, round: real -> real, v: real)
    ensures Increasing(YPositive(ys, round))
    ensures v in YPositive(ys, round) <==> exists y :: y in ys && y > 0.0 && v == round(y)
  {
    SortedSetSpec(Rounded(Filter(ys, Positive), round));
    RoundedOfFilter(ys, Positive, round, v);
  }

  /** The negative wall positions are distinct and decreasing, and are the roundings of the negative
      coordinates. */
  lemma YNegativeSpec(ys: seq<real>, round: real -> real, v: real)
    ensures Decreasing(YNegative(ys, round))
    ensures v in YNegative(ys, round) <==> exists y :: y in ys && y < 0.0 && v == round(y)
  {
    var u := SortedSet(Rounded(Filter(ys, Negative), round));
    SortedSetSpec(Rounded(Filter(ys, Negative), round));
    ReverseSpec(u);
    RoundedOfFilter(ys, Negative, round, v);
  }

  /** Filtering before rounding lets a value round to 0: with `round(0.04, 1) == 0.0`, a point at
      Y = 0.04 puts 0.0 among the positive wall positions, and Y = -0.04 puts it among the negative ones. */
  lemma SignFilterBeforeRounding(round: real -> real)
    requires round(0.04) == 0.0 && round(-0.04) == 0.0
    ensures YPositive([0.04], round) == [0.0]
    ensures YNegative([-0.04], round) == [0.0]
  {
    OneValueRoundsToZero(0.04, Positive, round);
    OneValueRoundsToZero(-0.04, Negative, round);
    assert Reverse([0.0]) == [0.0];
  }

  lemma OneValueRoundsToZero(y: real, keep: real -> bool, round: real -> real)
    requires keep(y) && round(y) == 0.0
    ensures SortedSet(Rounded(Filter([y], keep), round)) == [0.0]
  {
    var xs := [y];
    assert xs[..0] == [] && xs[0] == y;
    var f := Filter(xs, keep);
    assert f == Filter([], keep) + [y];
    var r := Rounded(f, round);
    assert |r| == 1 && r[0] == round(f[0]) == 0.0;
    assert r[..0] == [];
    assert SortedSet(r) == InsertDistinct(SortedSet([]), 0.0);
  }

  /** The positive wall positions with the sign test applied to the rounded value. */
  function YPositiveOfRounded(ys: seq<real>, round: real -> real): seq<real> {
    Filter(SortedSet(Rounded(ys, round)), Positive)
  }

  /** The negative wall positions with the sign test applied to the rounded value. */
  function YNegativeOfRounded(ys: seq<real>, round: real -> real): seq<real> {
    Reverse(Filter(SortedSet(Rounded(ys, round)), Negative))
  }

  /** Testing the sign after rounding gives what the names promise for any rounding: strictly positive
      values in increasing order, and strictly negative values in decreasing order. */
  lemma SignFilterAfterRounding(ys: seq<real>, round: real -> real, v: real)
    ensures Increasing(YPositiveOfRounded(ys, round)) && Decreasing(YNegativeOfRounded(ys, round))
    ensures v in YPositiveOfRounded(ys, round) <==> v > 0.0 && exists y :: y in ys && v == round(y)
    ensures v in YNegativeOfRounded(ys, round) <==> v < 0.0 && exists y :: y in ys && v == round(y)
  {
    var u := SortedSet(Rounded(ys, round));
    SortedSetSpec(Rounded(ys, round));
    RoundedMembership(ys, round, v);
    FilterIncreasing(u, Positive);
    FilterMembership(u, Positive);
    FilterIncreasing(u, Negative);
    FilterMembership(u, Negative);
    ReverseSpec(Filter(u, Negative));
  }
}
