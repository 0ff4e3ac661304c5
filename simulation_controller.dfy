/** The job API (backend/app/Http/Controllers/Api/SimulationController.php): creating a
    job, listing jobs, the status guards in front of the mesh, simulate and run actions,
    downloading a result and deleting a job. The controller only ever writes a job's
    status when it creates the job: the actions queue work and leave the status to the
    queue workers. */
module SimulationController {
  import opened Wrappers
  import Text
  import Json
  import opened SimulationJob
  import QueueJobs

  /** A JSON response with its HTTP status code, or a file download. */
  datatype Reply =
    | Queued(code: int, id: string, status: string, message: string)
    | Refused(code: int, error: string)
    | Download(path: string)
    | Deleted(message: string)

  /** One entry of the job listing; `progress` is present only for running jobs. */
  datatype Summary = Summary(id: string, status: Status, createdAt: int,
                             meshStartedAt: Option<int>, meshCompletedAt: Option<int>,
                             simStartedAt: Option<int>, simCompletedAt: Option<int>,
                             progress: Option<Option<Progress>>)

  /** The statuses `mesh` and `run` accept. */
  predicate MayStart(s: Status) {
    s == Pending || s == Failed
  }

  /** The guards agree with the lifecycle: mesh generation may start exactly where the
      lifecycle allows meshing next, a simulation is only queued for a meshed job, and a
      job may be deleted exactly when no worker is busy with it. */
  lemma GuardsFollowLifecycle(s: Status)
    ensures MayStart(s) <==> Transition(s, Meshing)
    ensures s == Meshed ==> Transition(s, Simulating)
    ensures Transition(s, Simulating) ==> s == Meshed
    ensures Running(s) <==> (s == Meshing || s == Simulating)
  {
  }

  /** The query builder's `limit`: a negative limit is ignored. */
  function Limited<T>(rows: seq<T>, limit: int): (r: seq<T>)
    ensures 0 <= limit < |rows| ==> |r| == limit
    ensures !(0 <= limit < |rows|) ==> r == rows
    ensures r == rows[..|r|]
  {
    if 0 <= limit < |rows| then rows[..limit] else rows
  }

  /** Inside `dir` (the directory itself or anything below it). */
  predicate Inside(path: string, dir: string) {
    path == dir || Text.StartsWith(path, dir + "/")
  }

  /** `File::deleteDirectory($dir)`: every file and directory inside it is gone. */
  function RemoveTree(disk: Disk, dir: string): (d: Disk)
    ensures forall p :: p in d.files <==> p in disk.files && !Inside(p, dir)
    ensures forall p :: p in d.files ==> d.files[p] == disk.files[p]
    ensures forall p :: p in d.dirs <==> p in disk.dirs && !Inside(p, dir)
  {
    Disk(map p | p in disk.files && !Inside(p, dir) :: disk.files[p],
         set p | p in disk.dirs && !Inside(p, dir))
  }

  lemma StartsWithTransitive(a: string, b: string, c: string)
    requires Text.StartsWith(a, b) && Text.StartsWith(b, c)
    ensures Text.StartsWith(a, c)
  {
    assert a[..|c|] == a[..|b|][..|c|];
  }

  /** A name two levels below the work directory lies inside it. */
  lemma NestedInside(workDir: string, sub: string, name: string)
    ensures Inside(Under(Under(workDir, sub), name), workDir)
  {
    var d := Under(workDir, sub);
    StartsWithTransitive(Under(d, name), d + "/", workDir + "/");
  }

  /** Once the work directory is removed, the job has no mesh, no progress and no log. */
  lemma RemovedWorkDirIsEmpty(disk: Disk, workDir: string, decode: string -> Option<Json.Json>)
    ensures !HasMesh(RemoveTree(disk, workDir), workDir)
    ensures ReadProgress(RemoveTree(disk, workDir), workDir, decode).None?
    ensures JobLogPath(workDir) !in RemoveTree(disk, workDir).files
    ensures !RemoveTree(disk, workDir).IsDir(ResultsDir(workDir))
  {
    NestedInside(workDir, "temp", "locations.json");
    assert Inside(ProgressPath(workDir), workDir);
    assert Inside(JobLogPath(workDir), workDir);
    assert Inside(ResultsDir(workDir), workDir);
  }

  /** The web application's view of the shared state: the disk, the queue and the
      `simulation_jobs` table. `root` is the storage root. */
  class Controller {
    const root: string
    var disk: Disk
    var queue: seq<QueueJobs.Work>
    var jobs: map<string, Job>

    constructor (root: string, disk: Disk)
      ensures this.root == root && this.disk == disk && queue == [] && jobs == map[]
    {
      this.root := root;
      this.disk := disk;
      queue := [];
      jobs := map[];
    }

    /** `store`: a new pending job with its work directory, temp and results directories
        and parameter.json; the work directory is recorded, and the answer is 201.
        `id` is the fresh UUID and `encode` is `json_encode`. */
    method Store(id: string, parameters: Json.Json, now: int, encode: Json.Json -> string)
      returns (job: Job, reply: Reply)
      requires id !in jobs
      modifies this`disk, this`jobs
      ensures fresh(job) && jobs == old(jobs)[id := job]
      ensures job.id == id && job.parameters == parameters && job.createdAt == now
      ensures job.status == Pending && job.statusWrites == [Pending]
      ensures job.workDirColumn == Some(DefaultWorkDir(root, id))
      ensures disk.files == old(disk.files)[ParameterFilePath(DefaultWorkDir(root, id)) := encode(parameters)]
      ensures disk.dirs == old(disk.dirs) + {DefaultWorkDir(root, id), TempDir(DefaultWorkDir(root, id)),
                                             ResultsDir(DefaultWorkDir(root, id))}
      ensures reply == Queued(201, id, "pending", "Job created. Use POST /api/jobs/{id}/mesh to start mesh generation.")
    {
      job := new Job.Create(id, parameters, now);
      var workDir := job.WorkDir(root);
      disk := Disk(disk.files, disk.dirs + {workDir, TempDir(workDir), ResultsDir(workDir)});
      disk := Disk(disk.files[ParameterFilePath(workDir) := encode(parameters)], disk.dirs);
      job.workDirColumn := Some(workDir);
      jobs := jobs[id := job];
      reply := Queued(201, id, StatusName(job.status), "Job created. Use POST /api/jobs/{id}/mesh to start mesh generation.");
    }

    /** `index`: the newest jobs first (`rows` is the table in that order), at most `limit`
        of them (20 when not given), each with its progress only while it is running. */
    method Index(rows: seq<Job>, limit: Option<int>, decode: string -> Option<Json.Json>)
      returns (listing: seq<Summary>)
      ensures |listing| == |Limited(rows, limit.GetOr(20))|
      ensures forall i :: 0 <= i < |listing| ==>
                listing[i].id == rows[i].id && listing[i].status == rows[i].status
                && listing[i].createdAt == rows[i].createdAt
                && listing[i].meshStartedAt == rows[i].meshStartedAt
                && listing[i].meshCompletedAt == rows[i].meshCompletedAt
                && listing[i].simStartedAt == rows[i].simStartedAt
                && listing[i].simCompletedAt == rows[i].simCompletedAt
      ensures forall i :: 0 <= i < |listing| ==>
                (listing[i].progress.Some? <==> Running(rows[i].status))
      ensures forall i :: 0 <= i < |listing| && listing[i].progress.Some? ==>
                listing[i].progress.value == ReadProgress(disk, rows[i].WorkDir(root), decode)
    {
      var selected := Limited(rows, limit.GetOr(20));
      listing := [];
      for i := 0 to |selected|
        invariant |listing| == i
        invariant forall k :: 0 <= k < i ==>
                    listing[k].id == rows[k].id && listing[k].status == rows[k].status
                    && listing[k].createdAt == rows[k].createdAt
                    && listing[k].meshStartedAt == rows[k].meshStartedAt
                    && listing[k].meshCompletedAt == rows[k].meshCompletedAt
                    && listing[k].simStartedAt == rows[k].simStartedAt
                    && listing[k].simCompletedAt == rows[k].simCompletedAt
                    && (listing[k].progress.Some? <==> Running(rows[k].status))
                    && (listing[k].progress.Some? ==>
                          listing[k].progress.value == ReadProgress(disk, rows[k].WorkDir(root), decode))
      {
        var job := selected[i];
        assert job == rows[i];
        var progress := if Running(job.status) then Some(ReadProgress(disk, job.WorkDir(root), decode)) else None;
        listing := listing + [Summary(job.id, job.status, job.createdAt, job.meshStartedAt, job.meshCompletedAt,
                                      job.simStartedAt, job.simCompletedAt, progress)];
      }
    }

    /** `mesh`: from pending or failed the mesh generation is queued and the answer says
        'meshing'; from any other status nothing is queued and the answer is 422. The job's
        status is not written either way. */
    method Mesh(job: Job) returns (reply: Reply)
      modifies this`queue
      ensures MayStart(job.status) ==>
                queue == old(queue) + [QueueJobs.MeshGeneration(job.id)]
                && reply == Queued(200, job.id, "meshing", "Mesh generation queued.")
      ensures !MayStart(job.status) ==>
                queue == old(queue)
                && reply == Refused(422, "Cannot start mesh generation. Current status: " + StatusName(job.status))
      ensures job.status == old(job.status)
    {
      if !MayStart(job.status) {
        return Refused(422, "Cannot start mesh generation. Current status: " + StatusName(job.status));
      }
      queue := queue + [QueueJobs.MeshGeneration(job.id)];
      return Queued(200, job.id, "meshing", "Mesh generation queued.");
    }

    /** `simulate`: only a meshed job whose mesh files are present gets its simulation
        queued; otherwise 422, with a different error for each failed check. */
    method Simulate(job: Job) returns (reply: Reply)
      modifies this`queue
      ensures job.status == Meshed && HasMesh(disk, job.WorkDir(root)) ==>
                queue == old(queue) + [QueueJobs.Simulation(job.id)]
                && reply == Queued(200, job.id, "simulating", "Simulation queued.")
      ensures job.status != Meshed ==>
                queue == old(queue)
                && reply == Refused(422, "Cannot start simulation. Current status: " + StatusName(job.status)
                                         + ". Mesh must be generated first (status = 'meshed').")
      ensures job.status == Meshed && !HasMesh(disk, job.WorkDir(root)) ==>
                queue == old(queue) && reply == Refused(422, "Mesh files not found in work directory.")
      ensures job.status == old(job.status)
    {
      if job.status != Meshed {
        return Refused(422, "Cannot start simulation. Current status: " + StatusName(job.status)
                            + ". Mesh must be generated first (status = 'meshed').");
      }
      if !HasMesh(disk, job.WorkDir(root)) {
        return Refused(422, "Mesh files not found in work directory.");
      }
      queue := queue + [QueueJobs.Simulation(job.id)];
      return Queued(200, job.id, "simulating", "Simulation queued.");
    }

    /** `run`: the same guard as `mesh`; the mesh generation is queued with the simulation
        chained behind it. */
    method Run(job: Job) returns (reply: Reply)
      modifies this`queue
      ensures MayStart(job.status) ==>
                queue == old(queue) + [QueueJobs.MeshThenSimulation(job.id)]
                && reply == Queued(200, job.id, "meshing", "Mesh generation + simulation queued (chained).")
      ensures !MayStart(job.status) ==>
                queue == old(queue) && reply == Refused(422, "Cannot start. Current status: " + StatusName(job.status))
      ensures job.status == old(job.status)
    {
      if !MayStart(job.status) {
        return Refused(422, "Cannot start. Current status: " + StatusName(job.status));
      }
      queue := queue + [QueueJobs.MeshThenSimulation(job.id)];
      return Queued(200, job.id, "meshing", "Mesh generation + simulation queued (chained).");
    }

    /** `downloadResult`: only for a completed job. The first match of
        results/<any subdirectory>/<name> is served; failing that, results/<name> when it exists;
        otherwise 404. `glob` is PHP's `glob`. */
    method DownloadResult(job: Job, filename: string, glob: string -> seq<string>) returns (reply: Reply)
      ensures job.status != Completed ==> reply == Refused(422, "Simulation not completed yet.")
      ensures reply.Download? ==> job.status == Completed
      ensures var nested := glob(ResultsDir(job.WorkDir(root)) + "/*/" + filename);
              var direct := Under(ResultsDir(job.WorkDir(root)), filename);
              job.status == Completed ==>
                (|nested| > 0 && Text.Truthy(nested[0]) ==> reply == Download(nested[0]))
                && (!(|nested| > 0 && Text.Truthy(nested[0])) && disk.Exists(direct) ==> reply == Download(direct))
                && (!(|nested| > 0 && Text.Truthy(nested[0])) && !disk.Exists(direct) ==>
                      reply == Refused(404, "File not found."))
    {
      if job.status != Completed {
        return Refused(422, "Simulation not completed yet.");
      }
      var resultsDir := ResultsDir(job.WorkDir(root));
      var found: string := "";
      var matches := glob(resultsDir + "/*/" + filename);
      if |matches| > 0 {
        found := matches[0];
      }
      if !Text.Truthy(found) && disk.Exists(Under(resultsDir, filename)) {
        found := Under(resultsDir, filename);
      }
      if !Text.Truthy(found) {
        return Refused(404, "File not found.");
      }
      return Download(found);
    }

    /** `destroy`: refused while a worker is busy with the job; otherwise its work
        directory (when there is one) and its row are removed. */
    method Destroy(job: Job) returns (reply: Reply)
      modifies this`disk, this`jobs
      ensures Running(job.status) ==>
                reply == Refused(422, "Cannot delete a running job.") && disk == old(disk) && jobs == old(jobs)
      ensures !Running(job.status) ==>
                reply == Deleted("Job deleted.") && jobs == old(jobs) - {job.id}
                && disk == (if old(disk).IsDir(job.WorkDir(root)) then RemoveTree(old(disk), job.WorkDir(root))
                            else old(disk))
      ensures job.status == old(job.status)
    {
      if Running(job.status) {
        return Refused(422, "Cannot delete a running job.");
      }
      var workDir := job.WorkDir(root);
      if disk.IsDir(workDir) {
        disk := RemoveTree(disk, workDir);
      }
      jobs := jobs - {job.id};
      return Deleted("Job deleted.");
    }
  }
}
