/** `main` of scripts/mesh-analyzer.py from the file list on: the per-mesh analysis loop, the combined
    counters and issues, the intersection and spatial passes and the fit issues. */
module Report {
  import opened Util
  import opened Strings
  import opened Geometry
  import opened Placements
  import opened Validation
  import Intersections
  import SpatialFit

  /** A dictionary with insertion order, as a list of key/value pairs with distinct keys. */
  type Dict<V> = seq<(string, V)>

  function Keys<V>(d: Dict<V>): (ks: seq<string>)
    ensures |ks| == |d| && forall i :: 0 <= i < |d| ==> ks[i] == d[i].0
  {
    seq(|d|, i requires 0 <= i < |d| => d[i].0)
  }

  predicate DistinctKeys<V>(d: Dict<V>) {
    forall i, j :: 0 <= i < j < |d| ==> d[i].0 != d[j].0
  }

  function Lookup<V>(d: Dict<V>, k: string): Option<V> {
    if d == [] then None else if d[0].0 == k then Some(d[0].1) else Lookup(d[1..], k)
  }

  /** `d[k] = v`: an existing key keeps its position and takes the new value, a new key goes last. */
  function Put<V>(d: Dict<V>, k: string, v: V): Dict<V> {
    if d == [] then [(k, v)]
    else if d[0].0 == k then [(k, v)] + d[1..]
    else [d[0]] + Put(d[1..], k, v)
  }

  lemma {:induction false} KeysTail<V>(d: Dict<V>)
    requires d != []
    ensures Keys(d) == [d[0].0] + Keys(d[1..])
  {
  }

  /** After `d[k] = v` the key holds `v` and every other key keeps its value. */
  lemma {:induction false} PutLookup<V>(d: Dict<V>, k: string, v: V, k': string)
    ensures Lookup(Put(d, k, v), k') == if k' == k then Some(v) else Lookup(d, k')
  {
    if d != [] && d[0].0 != k {
      PutLookup(d[1..], k, v, k');
    }
  }

  /** The key order only grows, by `k` at the end when it is new. */
  lemma {:induction false} PutKeys<V>(d: Dict<V>, k: string, v: V)
    ensures Keys(Put(d, k, v)) == if k in Keys(d) then Keys(d) else Keys(d) + [k]
  {
    if d != [] {
      KeysTail(d);
      var r := Put(d, k, v);
      KeysTail(r);
      if d[0].0 != k {
        PutKeys(d[1..], k, v);
      }
    }
  }

  /** `d[k] = v` keeps the keys distinct. */
  lemma PutDistinct<V>(d: Dict<V>, k: string, v: V)
    requires DistinctKeys(d)
    ensures DistinctKeys(Put(d, k, v))
  {
    var r := Put(d, k, v);
    PutKeys(d, k, v);
    forall i, j | 0 <= i < j < |r| ensures r[i].0 != r[j].0 {
      assert Keys(r)[i] == r[i].0 && Keys(r)[j] == r[j].0;
      if j == |d| {
        assert k !in Keys(d);
        assert Keys(d)[i] == d[i].0;
      } else {
        assert Keys(d)[i] == d[i].0 && Keys(d)[j] == d[j].0;
      }
    }
  }

  /** What happened to one file of the manifest. */
  datatype Outcome =
    | Missing                       // the file does not exist: skipped
    | Failed(message: string)       // `analyze_mesh` raised
    | Loaded(props: MeshProperties) // the mesh library's properties of the loaded mesh

  datatype MeshFile = MeshFile(fileName: string, outcome: Outcome)

  /** An entry of `report["meshes"]`. */
  datatype MeshEntry = Analyzed(report: MeshReport) | AnalysisError(message: string)

  /** What the file loop hands on: the mesh dictionary, the report entries, the counters, the issues. */
  datatype Progress = Progress(
    meshes: Dict<Bounds>,
    entries: Dict<MeshEntry>,
    totalVertices: nat,
    totalFaces: nat,
    issues: seq<string>)

  function Prefixed(name: string, message: string): string {
    name + ": " + message
  }

  function PrefixAll(name: string, messages: seq<string>): (r: seq<string>)
    ensures |r| == |messages| && forall i :: 0 <= i < |messages| ==> r[i] == Prefixed(name, messages[i])
  {
    seq(|messages|, i requires 0 <= i < |messages| => Prefixed(name, messages[i]))
  }

  /** The warnings the combined report keeps: those that do not mention watertightness. */
  function KeptWarnings(warnings: seq<string>): (kept: seq<string>)
    ensures |kept| <= |warnings|
  {
    if warnings == [] then []
    else
      var w := warnings[|warnings| - 1];
      KeptWarnings(warnings[..|warnings| - 1]) + (if MentionsWatertight(w) then [] else [w])
  }

  lemma {:induction false} KeptWarningsMembership(warnings: seq<string>, w: string)
    ensures w in KeptWarnings(warnings) <==> w in warnings && !MentionsWatertight(w)
  {
    if warnings != [] {
      var init := warnings[..|warnings| - 1];
      KeptWarningsMembership(init, w);
      assert warnings == init + [warnings[|warnings| - 1]];
    }
  }

  /** The issues one analysed mesh adds: its errors, then the kept warnings, each after "name: ". */
  function MeshIssues(name: string, report: MeshReport): seq<string> {
    PrefixAll(name, report.errors) + PrefixAll(name, KeptWarnings(report.warnings))
  }

  /** An issue of a mesh is its name followed by one of its errors or one of its kept warnings. */
  lemma MeshIssuesMembership(name: string, report: MeshReport, s: string)
    ensures s in MeshIssues(name, report) <==>
      (exists e :: e in report.errors && s == Prefixed(name, e))
      || (exists w :: w in report.warnings && !MentionsWatertight(w) && s == Prefixed(name, w))
  {
    var errs := PrefixAll(name, report.errors);
    var kept := KeptWarnings(report.warnings);
    var warns := PrefixAll(name, kept);
    if s in errs {
      var i :| 0 <= i < |errs| && errs[i] == s;
      assert report.errors[i] in report.errors;
    }
    if s in warns {
      var i :| 0 <= i < |warns| && warns[i] == s;
      KeptWarningsMembership(report.warnings, kept[i]);
      assert kept[i] in kept;
    }
    if exists e :: e in report.errors && s == Prefixed(name, e) {
      var e :| e in report.errors && s == Prefixed(name, e);
      var i :| 0 <= i < |report.errors| && report.errors[i] == e;
      assert errs[i] == s;
    }
    if exists w :: w in report.warnings && !MentionsWatertight(w) && s == Prefixed(name, w) {
      var w :| w in report.warnings && !MentionsWatertight(w) && s == Prefixed(name, w);
      KeptWarningsMembership(report.warnings, w);
      var i :| 0 <= i < |kept| && kept[i] == w;
      assert warns[i] == s;
    }
  }

  /** For a mesh analysed by `analyze_mesh` the watertightness warning never reaches the combined
      issues: they are the degenerate-face error, if any, then the winding warning, if any. */
  lemma KeptOfFilteredThenKept(dropped: string, kept: string)
    requires MentionsWatertight(dropped) && !MentionsWatertight(kept)
    ensures KeptWarnings([]) == [] && KeptWarnings([dropped]) == []
    ensures KeptWarnings([kept]) == [kept] && KeptWarnings([dropped, kept]) == [kept]
  {
    assert [dropped][..0] == [] && [kept][..0] == [];
    assert [dropped, kept][..1] == [dropped];
  }

  /** Of the warnings `analyze_mesh` can give, only the winding warning is kept. */
  lemma KeptOfWarnings(watertight: bool, windingConsistent: bool)
    ensures KeptWarnings(Warnings(watertight, windingConsistent)) == if windingConsistent then [] else [WindingWarning]
  {
    NotWatertightWarningIsFiltered();
    WindingWarningIsKept();
    KeptOfFilteredThenKept(NotWatertightWarning, WindingWarning);
    var w := Warnings(watertight, windingConsistent);
    if watertight && windingConsistent {
      assert w == [];
    } else if watertight {
      assert w == [WindingWarning];
    } else if windingConsistent {
      assert w == [NotWatertightWarning];
    } else {
      assert w == [NotWatertightWarning, WindingWarning];
    }
  }

  lemma PrefixAllOptional(name: string, w: string, present: bool)
    ensures PrefixAll(name, if present then [w] else []) == if present then [Prefixed(name, w)] else []
  {
  }

  lemma MeshIssuesOfAnalysis(name: string, props: MeshProperties)
    ensures MeshIssues(name, ReportOf(props))
         == PrefixAll(name, Errors(props.faceAreas))
            + (if props.windingConsistent then [] else [Prefixed(name, WindingWarning)])
  {
    var r := ReportOf(props);
    var winding := !props.windingConsistent;
    KeptOfWarnings(props.watertight, props.windingConsistent);
    assert KeptWarnings(r.warnings) == if winding then [WindingWarning] else [];
    PrefixAllOptional(name, WindingWarning, winding);
  }

  /** The mesh dictionary after the file loop: each loaded file puts its bounds under its mesh name. */
  function MeshTable(files: seq<MeshFile>): Dict<Bounds> {
    if files == [] then []
    else
      var table := MeshTable(files[..|files| - 1]);
      var f := files[|files| - 1];
      if f.outcome.Loaded? then Put(table, MeshName(f.fileName), f.outcome.props.bounds) else table
  }

  /** The report entries after the file loop: a loaded file puts its analysis under its mesh name, a
      failed one its error message under its file name, a missing one nothing. */
  function EntryTable(files: seq<MeshFile>): Dict<MeshEntry> {
    if files == [] then []
    else
      var table := EntryTable(files[..|files| - 1]);
      var f := files[|files| - 1];
      match f.outcome
      case Missing => table
      case Failed(message) => Put(table, f.fileName, AnalysisError(message))
      case Loaded(props) => Put(table, MeshName(f.fileName), Analyzed(ReportOf(props)))
  }

  /** The per-mesh issues after the file loop, in file order. */
  function CombinedIssues(files: seq<MeshFile>): seq<string> {
    if files == [] then []
    else
      var issues := CombinedIssues(files[..|files| - 1]);
      var f := files[|files| - 1];
      if f.outcome.Loaded? then issues + MeshIssues(MeshName(f.fileName), ReportOf(f.outcome.props)) else issues
  }

  /** The loaded files whose mesh name is `name`. */
  predicate LoadedAs(f: MeshFile, name: string) {
    f.outcome.Loaded? && MeshName(f.fileName) == name
  }

  /** The mesh dictionary's keys stay distinct. */
  lemma {:induction false} MeshTableDistinct(files: seq<MeshFile>)
    ensures DistinctKeys(MeshTable(files))
  {
    if files != [] {
      var init := files[..|files| - 1];
      MeshTableDistinct(init);
      var f := files[|files| - 1];
      if f.outcome.Loaded? {
        PutDistinct(MeshTable(init), MeshName(f.fileName), f.outcome.props.bounds);
      }
    }
  }

  /** The mesh dictionary holds one entry per mesh name of a loaded file. */
  lemma KeyOfPut<V>(d: Dict<V>, k: string, v: V, name: string)
    ensures name in Keys(Put(d, k, v)) <==> name in Keys(d) || name == k
  {
    PutKeys(d, k, v);
    if k !in Keys(d) {
      if name in Keys(d) + [k] {
        InEither(name, Keys(d), [k]);
      }
      if name in Keys(d) {
        InLeft(name, Keys(d), [k]);
      }
      if name == k {
        InRight(name, Keys(d), [k]);
      }
    }
  }

  /** Some file loads as `name` exactly when some file before the last does or the last one does. */
  lemma LoadedSomewhere(files: seq<MeshFile>, init: seq<MeshFile>, name: string)
    requires files != [] && init == files[..|files| - 1]
    ensures (exists i :: 0 <= i < |files| && LoadedAs(files[i], name))
        <==> (exists i :: 0 <= i < |init| && LoadedAs(init[i], name)) || LoadedAs(files[|files| - 1], name)
  {
    var n := |init|;
    if exists i :: 0 <= i < |files| && LoadedAs(files[i], name) {
      var i :| 0 <= i < |files| && LoadedAs(files[i], name);
      if i < n {
        assert init[i] == files[i];
      }
    }
    if exists i :: 0 <= i < n && LoadedAs(init[i], name) {
      var i :| 0 <= i < n && LoadedAs(init[i], name);
      assert files[i] == init[i];
    }
  }

  lemma {:induction false} MeshTableNames(files: seq<MeshFile>, name: string)
    ensures name in Keys(MeshTable(files)) <==> exists i :: 0 <= i < |files| && LoadedAs(files[i], name)
  {
    if files != [] {
      var init := files[..|files| - 1];
      var f := files[|files| - 1];
      MeshTableNames(init, name);
      LoadedSomewhere(files, init, name);
      if f.outcome.Loaded? {
        KeyOfPut(MeshTable(init), MeshName(f.fileName), f.outcome.props.bounds, name);
      }
    }
  }

  /** A mesh name holds the bounds of the last file loaded under it. */
  lemma {:induction false} MeshTableLastLoadWins(files: seq<MeshFile>, i: nat)
    requires i < |files| && files[i].outcome.Loaded?
    requires forall j :: i < j < |files| ==> !LoadedAs(files[j], MeshName(files[i].fileName))
    ensures Lookup(MeshTable(files), MeshName(files[i].fileName)) == Some(files[i].outcome.props.bounds)
  {
    var n := |files| - 1;
    var init := files[..n];
    var f := files[n];
    var name := MeshName(files[i].fileName);
    if i < n {
      assert init[i] == files[i];
      MeshTableLastLoadWins(init, i);
      if f.outcome.Loaded? {
        PutLookup(MeshTable(init), MeshName(f.fileName), f.outcome.props.bounds, name);
      }
    } else {
      PutLookup(MeshTable(init), name, f.outcome.props.bounds, name);
    }
  }

  /** The combined counters are the sums over the loaded files, repeated names included. */
  function LoadedVertices(files: seq<MeshFile>): nat {
    if files == [] then 0
    else LoadedVertices(files[1..]) + (if files[0].outcome.Loaded? then files[0].outcome.props.vertexCount else 0)
  }

  function LoadedFaces(files: seq<MeshFile>): nat {
    if files == [] then 0
    else LoadedFaces(files[1..]) + (if files[0].outcome.Loaded? then files[0].outcome.props.faceCount else 0)
  }

  lemma {:induction false} LoadedSumsAppend(a: seq<MeshFile>, b: seq<MeshFile>)
    ensures LoadedVertices(a + b) == LoadedVertices(a) + LoadedVertices(b)
    ensures LoadedFaces(a + b) == LoadedFaces(a) + LoadedFaces(b)
  {
    if a == [] {
      assert a + b == b;
    } else {
      assert (a + b)[1..] == a[1..] + b;
      LoadedSumsAppend(a[1..], b);
    }
  }

  /** `s` is the winding warning of the loaded file `f`, or its degenerate-face error, which exists
      only for a positive count. */
  predicate IsMeshIssueOf(f: MeshFile, s: string)
    requires f.outcome.Loaded?
  {
    var name := MeshName(f.fileName);
    var props := f.outcome.props;
    || (!props.windingConsistent && s == Prefixed(name, WindingWarning))
    || (&& props.faceAreas.Some?
        && CountBelow(props.faceAreas.value, DegenerateArea) > 0
        && s == Prefixed(name, DegenerateError(CountBelow(props.faceAreas.value, DegenerateArea))))
  }

  /** Every issue a loaded file adds is its degenerate-face error or its winding warning. */
  lemma MeshIssueOrigin(f: MeshFile, s: string)
    requires f.outcome.Loaded? && s in MeshIssues(MeshName(f.fileName), ReportOf(f.outcome.props))
    ensures IsMeshIssueOf(f, s)
  {
    var name := MeshName(f.fileName);
    var props := f.outcome.props;
    MeshIssuesOfAnalysis(name, props);
    var errs := PrefixAll(name, Errors(props.faceAreas));
    var warns: seq<string> := if props.windingConsistent then [] else [Prefixed(name, WindingWarning)];
    InEither(s, errs, warns);
    if s in errs {
      assert s == errs[0];
    }
  }

  /** Every per-mesh issue names a loaded mesh and is either its degenerate-face error or its
      winding warning. */
  lemma {:induction false} CombinedIssuesOrigin(files: seq<MeshFile>, s: string)
    requires s in CombinedIssues(files)
    ensures exists i :: 0 <= i < |files| && files[i].outcome.Loaded? && IsMeshIssueOf(files[i], s)
  {
    var n := |files| - 1;
    var init := files[..n];
    var f := files[n];
    var before := CombinedIssues(init);
    if f.outcome.Loaded? {
      InEither(s, before, MeshIssues(MeshName(f.fileName), ReportOf(f.outcome.props)));
    }
    if s in before {
      CombinedIssuesOrigin(init, s);
      var i :| 0 <= i < |init| && init[i].outcome.Loaded? && IsMeshIssueOf(init[i], s);
      assert files[i] == init[i];
    } else {
      MeshIssueOrigin(f, s);
    }
  }

  /** The error loop for one mesh. */
  method AppendErrors(issues: seq<string>, name: string, errors: seq<string>) returns (out: seq<string>)
    ensures out == issues + PrefixAll(name, errors)
  {
    out := issues;
    for k := 0 to |errors|
      invariant out == issues + PrefixAll(name, errors[..k])
    {
      assert PrefixAll(name, errors[..k + 1]) == PrefixAll(name, errors[..k]) + [Prefixed(name, errors[k])];
      out := out + [Prefixed(name, errors[k])];
    }
    assert errors[..|errors|] == errors;
  }

  /** The warning loop for one mesh, which skips the warnings that mention watertightness. */
  method AppendWarnings(issues: seq<string>, name: string, warnings: seq<string>) returns (out: seq<string>)
    ensures out == issues + PrefixAll(name, KeptWarnings(warnings))
  {
    out := issues;
    for k := 0 to |warnings|
      invariant out == issues + PrefixAll(name, KeptWarnings(warnings[..k]))
    {
      var w := warnings[k];
      assert warnings[..k + 1][..k] == warnings[..k];
      if MentionsWatertight(w) {
        continue;
      }
      var kept := KeptWarnings(warnings[..k]);
      assert PrefixAll(name, kept + [w]) == PrefixAll(name, kept) + [Prefixed(name, w)];
      out := out + [Prefixed(name, w)];
    }
    assert warnings[..|warnings|] == warnings;
  }

  /** The issue loops for one mesh: errors, then the warnings that survive the filter. */
  method AppendMeshIssues(issues: seq<string>, name: string, report: MeshReport) returns (out: seq<string>)
    ensures out == issues + MeshIssues(name, report)
  {
    out := AppendErrors(issues, name, report.errors);
    out := AppendWarnings(out, name, report.warnings);
  }

  /** One fit-failure message, `Trays too <kind>: <aggregate>mm > interior <interior>mm`. */
  function FitMessage(kind: string, aggregate: real, interior: real, fmt: real -> string): string {
    "Trays too " + kind + ": " + fmt(aggregate) + "mm > interior " + fmt(interior) + "mm"
  }

  function TooWide(fit: SpatialFit.FitCheck, fmt: real -> string): string {
    FitMessage("wide", fit.maxTrayWidth, fit.interiorWidth, fmt)
  }

  function TooDeep(fit: SpatialFit.FitCheck, fmt: real -> string): string {
    FitMessage("deep", fit.totalTrayDepth, fit.interiorDepth, fmt)
  }

  function TooTall(fit: SpatialFit.FitCheck, fmt: real -> string): string {
    FitMessage("tall", fit.maxTrayHeight, fit.interiorHeight, fmt)
  }

  /** The fit issues: one message per axis whose fit flag is false, none without a fit check. */
  function FitIssues(fit: Option<SpatialFit.FitCheck>, fmt: real -> string): (issues: seq<string>)
    ensures fit.None? ==> issues == []
    ensures fit.Some? ==> |issues| == (if fit.value.fitsWidth then 0 else 1) + (if fit.value.fitsDepth then 0 else 1)
                                      + (if fit.value.fitsHeight then 0 else 1)
  {
    match fit
    case None => []
    case Some(f) =>
      (if f.fitsWidth then [] else [TooWide(f, fmt)])
        + (if f.fitsDepth then [] else [TooDeep(f, fmt)])
        + (if f.fitsHeight then [] else [TooTall(f, fmt)])
  }

  /** The kind word sits right after "Trays too ", so messages of different kinds differ. */
  lemma FitMessageKind(kind: string, aggregate: real, interior: real, fmt: real -> string)
    requires |kind| > 0
    ensures FitMessage(kind, aggregate, interior, fmt)[10] == kind[0]
  {
    var m := FitMessage(kind, aggregate, interior, fmt);
    assert m == "Trays too " + (kind + ": " + fmt(aggregate) + "mm > interior " + fmt(interior) + "mm");
  }

  /** A "too wide", "too deep" or "too tall" message is present exactly when that axis does not fit. */
  lemma FitIssuesMembership(fit: SpatialFit.FitCheck, fmt: real -> string)
    ensures TooWide(fit, fmt) in FitIssues(Some(fit), fmt) <==> !fit.fitsWidth
    ensures TooDeep(fit, fmt) in FitIssues(Some(fit), fmt) <==> !fit.fitsDepth
    ensures TooTall(fit, fmt) in FitIssues(Some(fit), fmt) <==> !fit.fitsHeight
  {
    FitMessageKind("wide", fit.maxTrayWidth, fit.interiorWidth, fmt);
    FitMessageKind("deep", fit.totalTrayDepth, fit.interiorDepth, fmt);
    FitMessageKind("tall", fit.maxTrayHeight, fit.interiorHeight, fmt);
  }

  /** The three fit checks at the end of `main`. */
  method AppendFitIssues(issues: seq<string>, fit: Option<SpatialFit.FitCheck>, fmt: real -> string)
    returns (out: seq<string>)
    ensures out == issues + FitIssues(fit, fmt)
  {
    out := issues;
    if fit.Some? {
      var f := fit.value;
      if !f.fitsWidth {
        out := out + [TooWide(f, fmt)];
      }
      if !f.fitsDepth {
        out := out + [TooDeep(f, fmt)];
      }
      if !f.fitsHeight {
        out := out + [TooTall(f, fmt)];
      }
    }
  }

  /** The state after the file loop has read the given files. */
  function Summary(files: seq<MeshFile>): Progress {
    Progress(MeshTable(files), EntryTable(files), LoadedVertices(files), LoadedFaces(files), CombinedIssues(files))
  }

  /** The state after reading one more file `f`. */
  function Absorb(p: Progress, f: MeshFile): Progress {
    match f.outcome
    case Missing => p
    case Failed(message) => p.(entries := Put(p.entries, f.fileName, AnalysisError(message)))
    case Loaded(props) =>
      var name := MeshName(f.fileName);
      Progress(Put(p.meshes, name, props.bounds),
               Put(p.entries, name, Analyzed(ReportOf(props))),
               p.totalVertices + props.vertexCount,
               p.totalFaces + props.faceCount,
               p.issues + MeshIssues(name, ReportOf(props)))
  }

  /** Reading file i into the state of the files before it gives the state of the files up to it. */
  lemma FileStep(files: seq<MeshFile>, i: nat)
    requires i < |files|
    ensures Summary(files[..i + 1]) == Absorb(Summary(files[..i]), files[i])
  {
    var after := files[..i + 1];
    assert after[..i] == files[..i] && after[i] == files[i];
    LoadedSumsAppend(files[..i], [files[i]]);
    assert files[..i] + [files[i]] == after;
  }

  /** The body of the file loop: one file of the manifest read into the state. */
  method ReadFile(p: Progress, f: MeshFile) returns (q: Progress)
    ensures q == Absorb(p, f)
  {
    q := p;
    match f.outcome {
      case Missing =>
      case Failed(message) =>
        q := q.(entries := Put(q.entries, f.fileName, AnalysisError(message)));
      case Loaded(props) =>
        var meshReport := AnalyzeMesh(props);
        var name := MeshName(f.fileName);
        var issues := AppendMeshIssues(q.issues, name, meshReport);
        q := Progress(Put(q.meshes, name, props.bounds),
                      Put(q.entries, name, Analyzed(meshReport)),
                      q.totalVertices + meshReport.stats.vertices,
                      q.totalFaces + meshReport.stats.faces,
                      issues);
    }
  }

  /** The loop of `main` over the manifest's files. */
  method ProcessFiles(files: seq<MeshFile>) returns (progress: Progress)
    ensures progress.meshes == MeshTable(files) && progress.entries == EntryTable(files)
    ensures progress.totalVertices == LoadedVertices(files) && progress.totalFaces == LoadedFaces(files)
    ensures progress.issues == CombinedIssues(files)
  {
    progress := Progress([], [], 0, 0, []);
    assert files[..0] == [];
    for i := 0 to |files|
      invariant progress == Summary(files[..i])
    {
      FileStep(files, i);
      progress := ReadFile(progress, files[i]);
    }
    assert files[..|files|] == files;
  }

  /** The meshes handed to the intersection and spatial passes. */
  function AsNamedMeshes(meshes: Dict<Bounds>): (named: seq<Intersections.NamedMesh>)
    ensures |named| == |meshes|
  {
    seq(|meshes|, i requires 0 <= i < |meshes| => Intersections.NamedMesh(meshes[i].0, Some(meshes[i].1)))
  }

  datatype ProjectReport = ProjectReport(
    meshes: Dict<MeshEntry>,
    totalVertices: nat,
    totalFaces: nat,
    issues: seq<string>,
    spatial: SpatialFit.SpatialLayout)

  /** `main`, from the manifest's files, the context's tray list and the selected box's settings on;
      `round2` is `round(x, 2)` and `fmt` renders a number with one decimal. */
  method BuildReport(files: seq<MeshFile>, trays: Option<seq<TrayEntry>>,
                     settings: Option<SpatialFit.BoxSettings>, round2: real -> real, fmt: real -> string)
    returns (report: ProjectReport)
    ensures report.meshes == EntryTable(files)
    ensures report.totalVertices == LoadedVertices(files) && report.totalFaces == LoadedFaces(files)
    ensures var placements := PlacementsOf(trays.GetOr([]));
      var named := AsNamedMeshes(MeshTable(files));
      && SpatialFit.IsSpatialAnalysis(report.spatial, named, placements, settings, round2)
      && report.issues == CombinedIssues(files)
                             + Intersections.Messages(Intersections.IntersectionFindings(named, placements))
                             + FitIssues(report.spatial.fit, fmt)
  {
    var placements: PlacementTable := map[];
    if trays.Some? {
      placements := BuildPlacements(trays.value);
    }
    assert placements == PlacementsOf(trays.GetOr([]));

    var progress := ProcessFiles(files);
    var named := AsNamedMeshes(progress.meshes);
    var intersectionIssues := Intersections.CheckIntersections(named, placements);
    var issues := progress.issues + intersectionIssues;

    var spatial := SpatialFit.ComputeSpatialAnalysis(named, placements, settings, round2);
    issues := AppendFitIssues(issues, spatial.fit, fmt);
    report := ProjectReport(progress.entries, progress.totalVertices, progress.totalFaces, issues, spatial);
  }
}
