/** The persisted simulation job of the web backend (backend/app/Models/SimulationJob.php):
    its six statuses, the files it keeps under its work directory, and the read-only views
    the API serves from those files (mesh presence, progress, result and plot listings, the
    tail of the job log). The file system is a value: a map from file paths to contents and
    a set of directory paths. */
module SimulationJob {
  import opened Wrappers
  import Text
  import Json
  import ConvertToSi

  // ---------------------------------------------------------------------------
  // Statuses
  // ---------------------------------------------------------------------------

  datatype Status = Pending | Meshing | Meshed | Simulating | Completed | Failed

  /** The string stored in the `status` column. */
  function StatusName(s: Status): string {
    match s
    case Pending => "pending"
    case Meshing => "meshing"
    case Meshed => "meshed"
    case Simulating => "simulating"
    case Completed => "completed"
    case Failed => "failed"
  }

  /** Reading the `status` column back. */
  function ParseStatus(name: string): (r: Option<Status>)
    ensures r.Some? ==> StatusName(r.value) == name
  {
    if name == "pending" then Some(Pending)
    else if name == "meshing" then Some(Meshing)
    else if name == "meshed" then Some(Meshed)
    else if name == "simulating" then Some(Simulating)
    else if name == "completed" then Some(Completed)
    else if name == "failed" then Some(Failed)
    else None
  }

  const AllStatuses: seq<Status> := [Pending, Meshing, Meshed, Simulating, Completed, Failed]

  /** Exactly six statuses exist, each stored under its own name and read back as itself. */
  lemma SixStatuses(s: Status, t: Status)
    ensures |AllStatuses| == 6 && s in AllStatuses
    ensures ParseStatus(StatusName(s)) == Some(s)
    ensures StatusName(s) == StatusName(t) ==> s == t
  {
    assert ParseStatus(StatusName(s)) == Some(s);
    if StatusName(s) == StatusName(t) {
      assert ParseStatus(StatusName(t)) == Some(t);
    }
  }

  /** A queue worker is busy with the job. */
  predicate Running(s: Status) {
    s == Meshing || s == Simulating
  }

  /** The lifecycle: pending (or failed, when retried) to meshing, meshing to meshed or
      failed, meshed to simulating or failed (the mesh files are gone), simulating to
      completed or failed. */
  predicate Transition(from: Status, to: Status) {
    match from
    case Pending => to == Meshing
    case Failed => to == Meshing
    case Meshing => to == Meshed || to == Failed
    case Meshed => to == Simulating || to == Failed
    case Simulating => to == Completed || to == Failed
    case Completed => false
  }

  /** `writes` is a run of lifecycle steps starting in `from`. */
  predicate Follows(from: Status, writes: seq<Status>)
    decreases |writes|
  {
    |writes| == 0 || (Transition(from, writes[0]) && Follows(writes[0], writes[1..]))
  }

  lemma {:induction false} FollowsAppend(from: Status, a: seq<Status>, b: seq<Status>)
    requires Follows(from, a) && |a| > 0 && Follows(a[|a| - 1], b)
    ensures Follows(from, a + b)
    decreases |a|
  {
    if |a| == 1 {
      assert a + b == [a[0]] + b;
      assert (a + b)[1..] == b;
    } else {
      FollowsAppend(a[0], a[1..], b);
      assert (a + b)[1..] == a[1..] + b;
    }
  }

  // ---------------------------------------------------------------------------
  // File system and paths
  // ---------------------------------------------------------------------------

  datatype Disk = Disk(files: map<string, string>, dirs: set<string>) {
    /** `file_exists`: true for files and directories alike. */
    predicate Exists(path: string) {
      path in files || path in dirs
    }

    /** `is_dir`. */
    predicate IsDir(path: string) {
      path in dirs
    }
  }

  /** `dir . '/' . name`. */
  function Under(dir: string, name: string): (p: string)
    ensures Text.StartsWith(p, dir + "/") && p[|dir| + 1..] == name
  {
    dir + "/" + name
  }

  /** Two different names under the same directory are different paths. */
  lemma UnderInjective(dir: string, a: string, b: string)
    requires Under(dir, a) == Under(dir, b)
    ensures a == b
  {
    assert a == Under(dir, a)[|dir| + 1..];
  }

  /** `storage_path($path)` under the application's storage root. */
  function StoragePath(root: string, path: string): string {
    Under(root, path)
  }

  /** The work directory when the column is empty: `storage_path("app/jobs/{id}")`. */
  function DefaultWorkDir(root: string, id: string): string {
    StoragePath(root, "app/jobs/" + id)
  }

  function ParameterFilePath(workDir: string): string { Under(workDir, "parameter.json") }
  function ParameterSiFilePath(workDir: string): string { Under(workDir, "parameter_si.json") }
  function TempDir(workDir: string): string { Under(workDir, "temp") }
  function ResultsDir(workDir: string): string { Under(workDir, "results") }
  function PlotsDir(workDir: string): string { Under(ResultsDir(workDir), "plots") }
  function ProgressPath(workDir: string): string { Under(workDir, "progress.json") }
  function JobLogPath(workDir: string): string { Under(workDir, "job.log") }

  /** Every helper path lies inside the work directory (the plots inside the results),
      and no two of them coincide. */
  lemma PathsLayout(workDir: string)
    ensures Text.StartsWith(ParameterFilePath(workDir), workDir + "/")
    ensures Text.StartsWith(ParameterSiFilePath(workDir), workDir + "/")
    ensures Text.StartsWith(TempDir(workDir), workDir + "/")
    ensures Text.StartsWith(ResultsDir(workDir), workDir + "/")
    ensures Text.StartsWith(ProgressPath(workDir), workDir + "/")
    ensures Text.StartsWith(JobLogPath(workDir), workDir + "/")
    ensures Text.StartsWith(PlotsDir(workDir), ResultsDir(workDir) + "/")
    ensures |[ParameterFilePath(workDir), ParameterSiFilePath(workDir), TempDir(workDir),
              ResultsDir(workDir), ProgressPath(workDir), JobLogPath(workDir)]| == 6
    ensures forall i, j :: 0 <= i < j < 6 ==>
      [ParameterFilePath(workDir), ParameterSiFilePath(workDir), TempDir(workDir),
       ResultsDir(workDir), ProgressPath(workDir), JobLogPath(workDir)][i] !=
      [ParameterFilePath(workDir), ParameterSiFilePath(workDir), TempDir(workDir),
       ResultsDir(workDir), ProgressPath(workDir), JobLogPath(workDir)][j]
  {
    var names := ["parameter.json", "parameter_si.json", "temp", "results", "progress.json", "job.log"];
    var paths := [ParameterFilePath(workDir), ParameterSiFilePath(workDir), TempDir(workDir),
                  ResultsDir(workDir), ProgressPath(workDir), JobLogPath(workDir)];
    forall i, j | 0 <= i < j < 6
      ensures paths[i] != paths[j]
    {
      assert paths[i] == Under(workDir, names[i]) && paths[j] == Under(workDir, names[j]);
    }
  }

  // ---------------------------------------------------------------------------
  // The job record
  // ---------------------------------------------------------------------------

  /** One row of `simulation_jobs`. The queue workers update its status and timestamps in
      place; `statusWrites` records every status ever written, in order. Timestamps are
      the clock's readings, passed in. */
  class Job {
    const id: string
    const createdAt: int
    var status: Status
    var parameters: Json.Json
    var workDirColumn: Option<string>
    var errorMessage: Option<string>
    var meshStartedAt: Option<int>
    var meshCompletedAt: Option<int>
    var simStartedAt: Option<int>
    var simCompletedAt: Option<int>
    ghost var statusWrites: seq<Status>

    /** `SimulationJob::create(['status' => pending, 'parameters' => ...])`. */
    constructor Create(id: string, parameters: Json.Json, now: int)
      ensures this.id == id && createdAt == now && this.parameters == parameters
      ensures status == Pending && statusWrites == [Pending]
      ensures workDirColumn == None && errorMessage == None
      ensures meshStartedAt == None && meshCompletedAt == None
      ensures simStartedAt == None && simCompletedAt == None
    {
      this.id := id;
      createdAt := now;
      status := Pending;
      this.parameters := parameters;
      workDirColumn := None;
      errorMessage := None;
      meshStartedAt := None;
      meshCompletedAt := None;
      simStartedAt := None;
      simCompletedAt := None;
      statusWrites := [Pending];
    }

    /** The `work_dir` accessor: the stored column, or the default directory when it is null. */
    function WorkDir(root: string): (w: string)
      reads this`workDirColumn
      ensures workDirColumn.None? ==> w == root + "/app/jobs/" + id
      ensures workDirColumn.Some? ==> w == workDirColumn.value
    {
      workDirColumn.GetOr(DefaultWorkDir(root, id))
    }
  }

  // ---------------------------------------------------------------------------
  // Views over the work directory
  // ---------------------------------------------------------------------------

  function MeshFile(workDir: string): string { Under(TempDir(workDir), "temp_mesh.msh") }
  function MeshXmlFile(workDir: string): string { Under(TempDir(workDir), "temp_mesh.xml") }
  function LocationsFile(workDir: string): string { Under(TempDir(workDir), "locations.json") }

  /** `hasMesh()`: a mesh in either format and the borehole locations are present. */
  predicate HasMesh(disk: Disk, workDir: string) {
    (disk.Exists(MeshFile(workDir)) || disk.Exists(MeshXmlFile(workDir)))
    && disk.Exists(LocationsFile(workDir))
  }

  /** Either mesh format together with the locations is enough, and neither alone is. */
  lemma HasMeshCases(disk: Disk, workDir: string, mesh: string, contents: string)
    requires mesh == MeshFile(workDir) || mesh == MeshXmlFile(workDir)
    ensures HasMesh(Disk(disk.files[mesh := contents][LocationsFile(workDir) := contents], disk.dirs), workDir)
    ensures !disk.Exists(LocationsFile(workDir)) ==> !HasMesh(disk, workDir)
    ensures !disk.Exists(MeshFile(workDir)) && !disk.Exists(MeshXmlFile(workDir)) ==> !HasMesh(disk, workDir)
  {
  }

  /** `meshPlotFile()`: the plot's name when the mesh plot exists. */
  function MeshPlotFile(disk: Disk, workDir: string): (r: Option<string>)
    ensures r.Some? <==> disk.Exists(Under(TempDir(workDir), "mesh_plot.png"))
    ensures r.Some? ==> r.value == "mesh_plot.png"
  {
    if disk.Exists(Under(TempDir(workDir), "mesh_plot.png")) then Some("mesh_plot.png") else None
  }

  // --- progress.json ---------------------------------------------------------

  /** The five progress fields; each keeps whatever JSON value the file holds. */
  datatype Progress = Progress(phase: Json.Json, currentStep: Json.Json, totalSteps: Json.Json,
                               percent: Json.Json, message: Json.Json)

  /** `is_array` of a decoded JSON document: objects and lists both decode to arrays. */
  predicate IsArray(j: Json.Json) {
    j.JObj? || j.JArr?
  }

  /** `$data[$key]` on a decoded array: lists have integer keys only. */
  function Lookup(data: Json.Json, key: string): Option<Json.Json> {
    match data
    case JObj(fields) => Json.Get(fields, key)
    case _ => None
  }

  /** `$data[$key] ?? $default`: a missing key and a null value both give the default. */
  function Coalesce(data: Json.Json, key: string, default: Json.Json): (v: Json.Json)
    ensures Lookup(data, key).None? ==> v == default
    ensures Lookup(data, key) == Some(Json.JNull) ==> v == default
    ensures Lookup(data, key).Some? && Lookup(data, key).value != Json.JNull ==> v == Lookup(data, key).value
  {
    var found := Lookup(data, key);
    if found.Some? && found.value != Json.JNull then found.value else default
  }

  /** `progress()`: null unless progress.json exists and decodes to an array; otherwise the
      five fields, each defaulted. `decode` is PHP's `json_decode(..., true)`, None when the
      text is not JSON. */
  function ReadProgress(disk: Disk, workDir: string, decode: string -> Option<Json.Json>): (p: Option<Progress>)
    ensures p.Some? <==> ProgressPath(workDir) in disk.files
                         && decode(disk.files[ProgressPath(workDir)]).Some?
                         && IsArray(decode(disk.files[ProgressPath(workDir)]).value)
  {
    var file := ProgressPath(workDir);
    if file !in disk.files then None
    else
      var data := decode(disk.files[file]);
      if data.None? || !IsArray(data.value) then None
      else
        var d := data.value;
        Some(Progress(Coalesce(d, "phase", Json.JNull),
                      Coalesce(d, "current_step", Json.JInt(0)),
                      Coalesce(d, "total_steps", Json.JInt(0)),
                      Coalesce(d, "percent", Json.JInt(0)),
                      Coalesce(d, "message", Json.JStr(""))))
  }

  /** A progress file without any of the keys (an empty object, or a list) reads as phase
      null, step 0 of 0, 0 percent and an empty message. */
  lemma ProgressDefaults(disk: Disk, workDir: string, decode: string -> Option<Json.Json>)
    requires ProgressPath(workDir) in disk.files
    requires decode(disk.files[ProgressPath(workDir)]) == Some(Json.JObj([]))
             || (decode(disk.files[ProgressPath(workDir)]).Some?
                 && decode(disk.files[ProgressPath(workDir)]).value.JArr?)
    ensures ReadProgress(disk, workDir, decode)
            == Some(Progress(Json.JNull, Json.JInt(0), Json.JInt(0), Json.JInt(0), Json.JStr("")))
  {
    var d := decode(disk.files[ProgressPath(workDir)]).value;
    assert Lookup(d, "phase").None? && Lookup(d, "current_step").None? && Lookup(d, "total_steps").None?;
    assert Lookup(d, "percent").None? && Lookup(d, "message").None?;
  }

  /** A present, non-null field is passed through unchanged. */
  lemma ProgressKeepsValues(disk: Disk, workDir: string, decode: string -> Option<Json.Json>,
                            fields: seq<(string, Json.Json)>)
    requires ProgressPath(workDir) in disk.files
    requires decode(disk.files[ProgressPath(workDir)]) == Some(Json.JObj(fields))
    ensures ReadProgress(disk, workDir, decode).Some?
    ensures Json.Get(fields, "percent").Some? && Json.Get(fields, "percent").value != Json.JNull ==>
              ReadProgress(disk, workDir, decode).value.percent == Json.Get(fields, "percent").value
    ensures Json.Get(fields, "phase").Some? && Json.Get(fields, "phase").value != Json.JNull ==>
              ReadProgress(disk, workDir, decode).value.phase == Json.Get(fields, "phase").value
    ensures Json.Get(fields, "current_step").Some? && Json.Get(fields, "current_step").value != Json.JNull ==>
              ReadProgress(disk, workDir, decode).value.currentStep == Json.Get(fields, "current_step").value
  {
  }

  // --- listings --------------------------------------------------------------

  /** PHP `basename` of a path without a trailing slash: the text after the last '/'. */
  function Basename(p: string): string
    decreases |p|
  {
    if |p| == 0 || p[|p| - 1] == '/' then "" else Basename(p[..|p| - 1]) + [p[|p| - 1]]
  }

  /** The base name is the last segment: a suffix of the path that holds no '/' and is
      preceded by one (or is the whole path). */
  lemma {:induction false} BasenameIsLastSegment(p: string)
    ensures |Basename(p)| <= |p| && p == p[..|p| - |Basename(p)|] + Basename(p)
    ensures '/' !in Basename(p)
    ensures |Basename(p)| < |p| ==> p[|p| - |Basename(p)| - 1] == '/'
    decreases |p|
  {
    if |p| > 0 && p[|p| - 1] != '/' {
      var init := p[..|p| - 1];
      var c := p[|p| - 1];
      BasenameIsLastSegment(init);
      var b := Basename(init);
      assert Basename(p) == b + [c];
      var head := init[..|init| - |b|];
      assert init == head + b;
      assert p == head + (b + [c]);
      assert p[..|p| - |b + [c]|] == head;
      if |b| + 1 < |p| {
        assert p[|p| - |b| - 2] == init[|init| - |b| - 1];
      }
    }
  }

  /** `basename` of each globbed path, in order. */
  function Basenames(paths: seq<string>): (r: seq<string>)
    ensures |r| == |paths| && forall k :: 0 <= k < |paths| ==> r[k] == Basename(paths[k])
  {
    if |paths| == 0 then []
    else
      var init := paths[..|paths| - 1];
      var r := Basenames(init) + [Basename(paths[|paths| - 1])];
      assert forall k :: 0 <= k < |init| ==> init[k] == paths[k];
      r
  }

  /** `str_replace($dir . '/', '', $f)` of each globbed path, in order. */
  function Relatives(paths: seq<string>, dir: string): (r: seq<string>)
    ensures |r| == |paths| && forall k :: 0 <= k < |paths| ==> r[k] == ConvertToSi.Replace(paths[k], dir + "/", "")
  {
    if |paths| == 0 then []
    else Relatives(paths[..|paths| - 1], dir) + [ConvertToSi.Replace(paths[|paths| - 1], dir + "/", "")]
  }

  predicate Distinct(s: seq<string>) {
    forall i, j :: 0 <= i < j < |s| ==> s[i] != s[j]
  }

  /** `array_unique`: the first occurrence of each value, in order of first occurrence. */
  function Unique(xs: seq<string>): (r: seq<string>)
    ensures Distinct(r)
    ensures forall x :: x in r <==> x in xs
    ensures |r| <= |xs|
  {
    if |xs| == 0 then []
    else
      var r := Unique(xs[..|xs| - 1]);
      var last := xs[|xs| - 1];
      assert forall x :: x in xs <==> x in xs[..|xs| - 1] || x == last by {
        assert xs == xs[..|xs| - 1] + [last];
      }
      if last in r then r else r + [last]
  }

  /** The position of the first occurrence of `x` in `xs`. */
  function FirstIndex(xs: seq<string>, x: string): (i: nat)
    requires x in xs
    ensures i < |xs| && xs[i] == x && forall k :: 0 <= k < i ==> xs[k] != x
  {
    if xs[0] == x then 0
    else
      assert x in xs[1..] by { assert xs == [xs[0]] + xs[1..]; }
      1 + FirstIndex(xs[1..], x)
  }

  /** A value's first occurrence is the same in a list and in any prefix that holds it. */
  lemma FirstIndexOfPrefix(xs: seq<string>, n: nat, x: string)
    requires n <= |xs| && x in xs[..n]
    ensures FirstIndex(xs, x) == FirstIndex(xs[..n], x)
  {
    var a, b := FirstIndex(xs, x), FirstIndex(xs[..n], x);
    assert xs[b] == x;
    assert a <= b;
    assert xs[..n][a] == x;
  }

  /** `array_unique` keeps the values in the order of their first occurrences: together with
      the contract of `Unique` (no duplicates, the same values) this pins the result down. */
  lemma {:induction false} UniqueFirstOccurrenceOrder(xs: seq<string>)
    ensures forall i, j :: 0 <= i < j < |Unique(xs)| ==>
              FirstIndex(xs, Unique(xs)[i]) < FirstIndex(xs, Unique(xs)[j])
  {
    if |xs| > 0 {
      var init := xs[..|xs| - 1];
      var last := xs[|xs| - 1];
      var r := Unique(init);
      UniqueFirstOccurrenceOrder(init);
      assert init == xs[..|xs| - 1];
      forall y | y in r
        ensures FirstIndex(xs, y) == FirstIndex(init, y) < |xs| - 1
      {
        FirstIndexOfPrefix(xs, |xs| - 1, y);
      }
      if last !in r {
        assert FirstIndex(xs, last) == |xs| - 1;
        assert Unique(xs) == r + [last];
      } else {
        assert Unique(xs) == r;
      }
    }
  }

  /** A list that already has no duplicates is left as it is. */
  lemma {:induction false} UniqueOfDistinct(xs: seq<string>)
    requires Distinct(xs)
    ensures Unique(xs) == xs
  {
    if |xs| > 0 {
      var init := xs[..|xs| - 1];
      UniqueOfDistinct(init);
      assert xs[|xs| - 1] !in init;
      assert init + [xs[|xs| - 1]] == xs;
    }
  }

  /** PHP's byte-wise string order (`strcmp($a, $b) <= 0`). */
  predicate LessEq(a: string, b: string)
    decreases |a|
  {
    |a| == 0 || (|b| > 0 && (a[0] < b[0] || (a[0] == b[0] && LessEq(a[1..], b[1..]))))
  }

  lemma {:induction false} LessEqTotal(a: string, b: string)
    ensures LessEq(a, b) || LessEq(b, a)
    decreases |a|
  {
    if |a| > 0 && |b| > 0 && a[0] == b[0] {
      LessEqTotal(a[1..], b[1..]);
    }
  }

  lemma {:induction false} LessEqTransitive(a: string, b: string, c: string)
    requires LessEq(a, b) && LessEq(b, c)
    ensures LessEq(a, c)
    decreases |a|
  {
    if |a| > 0 && a[0] == b[0] && b[0] == c[0] {
      LessEqTransitive(a[1..], b[1..], c[1..]);
    }
  }

  predicate Sorted(s: seq<string>) {
    forall i, j :: 0 <= i < j < |s| ==> LessEq(s[i], s[j])
  }

  /** Insert `x` into a sorted list. */
  function Insert(x: string, s: seq<string>): (r: seq<string>)
    requires Sorted(s)
    ensures Sorted(r)
    ensures multiset(r) == multiset(s) + multiset{x}
  {
    if |s| == 0 then [x]
    else if LessEq(x, s[0]) then
      forall j | 0 <= j < |s|
        ensures LessEq(x, s[j])
      {
        if j > 0 { LessEqTransitive(x, s[0], s[j]); }
      }
      [x] + s
    else
      LessEqTotal(x, s[0]);
      assert s == [s[0]] + s[1..];
      var rest := Insert(x, s[1..]);
      forall y | y in rest
        ensures LessEq(s[0], y)
      {
        assert y in multiset(rest);
        if y != x {
          var k :| 0 <= k < |s[1..]| && s[1..][k] == y;
          assert s[k + 1] == y;
        }
      }
      [s[0]] + rest
  }

  /** PHP `sort` on a list of file names: sorted, and the same names as before. */
  function Sort(xs: seq<string>): (r: seq<string>)
    ensures Sorted(r)
    ensures multiset(r) == multiset(xs)
  {
    if |xs| == 0 then []
    else
      assert xs == xs[..|xs| - 1] + [xs[|xs| - 1]];
      Insert(xs[|xs| - 1], Sort(xs[..|xs| - 1]))
  }

  /** `resultFiles()`: the HDF5 files one directory below the results directory, listed
      both by bare name (the `**` pattern matches one level, like `*`) and relative to the
      results directory, then deduplicated. `glob` is PHP's `glob`. */
  method ResultFiles(disk: Disk, workDir: string, glob: string -> seq<string>) returns (files: seq<string>)
    ensures !disk.IsDir(ResultsDir(workDir)) ==> files == []
    ensures Distinct(files)
    ensures disk.IsDir(ResultsDir(workDir)) ==> forall x ::
      x in files <==> x in Basenames(glob(ResultsDir(workDir) + "/**/*.h5"))
                      || x in Relatives(glob(ResultsDir(workDir) + "/*/*.h5"), ResultsDir(workDir))
    ensures disk.IsDir(ResultsDir(workDir)) ==>
      files == Unique(Basenames(glob(ResultsDir(workDir) + "/**/*.h5"))
                      + Relatives(glob(ResultsDir(workDir) + "/*/*.h5"), ResultsDir(workDir)))
  {
    var dir := ResultsDir(workDir);
    if !disk.IsDir(dir) {
      return [];
    }
    files := [];
    var deep := glob(dir + "/**/*.h5");
    for i := 0 to |deep|
      invariant files == Basenames(deep[..i])
    {
      assert deep[..i + 1][..i] == deep[..i];
      files := files + [Basename(deep[i])];
    }
    assert deep[..|deep|] == deep;
    var nested := glob(dir + "/*/*.h5");
    for i := 0 to |nested|
      invariant files == Basenames(deep) + Relatives(nested[..i], dir)
    {
      assert nested[..i + 1][..i] == nested[..i];
      files := files + [ConvertToSi.Replace(nested[i], dir + "/", "")];
    }
    assert nested[..|nested|] == nested;
    files := Unique(files);
  }

  /** `plotFiles()`: the names of the PNG files in the plots directory, sorted. */
  method PlotFiles(disk: Disk, workDir: string, glob: string -> seq<string>) returns (files: seq<string>)
    ensures !disk.IsDir(PlotsDir(workDir)) ==> files == []
    ensures Sorted(files)
    ensures disk.IsDir(PlotsDir(workDir)) ==>
      multiset(files) == multiset(Basenames(glob(PlotsDir(workDir) + "/*.png")))
  {
    var dir := PlotsDir(workDir);
    if !disk.IsDir(dir) {
      return [];
    }
    files := [];
    var pngs := glob(dir + "/*.png");
    for i := 0 to |pngs|
      invariant files == Basenames(pngs[..i])
    {
      assert pngs[..i + 1][..i] == pngs[..i];
      files := files + [Basename(pngs[i])];
    }
    assert pngs[..|pngs|] == pngs;
    files := Sort(files);
  }

  // --- job.log ---------------------------------------------------------------

  const TruncationMarker: string := "... (truncated) ...\n"

  /** `fread` refuses a length below 1. */
  datatype LogError = NonPositiveLength

  /** Where `fgets` leaves a handle at `pos`: just past the first newline at or after
      `pos`, or at the end when there is none. */
  function SkipLine(content: string, pos: nat): (q: nat)
    requires pos <= |content|
    ensures pos <= q <= |content|
    ensures q == |content| || (q > pos && content[q - 1] == '\n')
    ensures forall k :: pos <= k < q - 1 ==> content[k] != '\n'
    decreases |content| - pos
  {
    if pos == |content| then pos
    else if content[pos] == '\n' then pos + 1
    else SkipLine(content, pos + 1)
  }

  /** `jobLog($maxBytes)`: the whole log when it fits (an absent log, and a log reading
      "0", give ''), otherwise the marker followed by the log's last `maxBytes` bytes with
      everything up to and including their first newline dropped. */
  method JobLog(disk: Disk, workDir: string, maxBytes: int) returns (r: Result<string, LogError>)
    ensures JobLogPath(workDir) !in disk.files ==> r == Success("")
    ensures JobLogPath(workDir) in disk.files ==>
      var log := disk.files[JobLogPath(workDir)];
      (|log| <= maxBytes ==> r == Success(if log == "0" then "" else log))
      && (|log| > maxBytes ==> (r.Failure? <==> maxBytes <= 0))
      && (|log| > maxBytes && r.Success? ==>
            Text.StartsWith(r.value, TruncationMarker)
            && var cut := |log| - (|r.value| - |TruncationMarker|);
               |log| - maxBytes < cut <= |log|
               && r.value[|TruncationMarker|..] == log[cut..]
               && (cut == |log| || log[cut - 1] == '\n')
               && forall k :: |log| - maxBytes <= k < cut - 1 ==> log[k] != '\n')
  {
    var file := JobLogPath(workDir);
    if file !in disk.files {
      return Success("");
    }
    var log := disk.files[file];
    var size := |log|;
    if size <= maxBytes {
      return Success(if log == "0" then "" else log);
    }
    if maxBytes <= 0 {
      return Failure(NonPositiveLength);
    }
    var pos := size - maxBytes;
    pos := SkipLine(log, pos);
    var content := TruncationMarker + log[pos..];
    assert content[|TruncationMarker|..] == log[pos..];
    assert content[..|TruncationMarker|] == TruncationMarker;
    return Success(content);
  }
}
