/** The two queued workers that drive a job through its lifecycle
    (backend/app/Jobs/RunMeshGeneration.php and backend/app/Jobs/RunSimulation.php).
    The external runner processes are a function from the invocation (working directory,
    command line, timeout) to its result, or to the message of the exception the process
    call throws; the clock's readings are parameters. */
module QueueJobs {
  import opened Wrappers
  import Text
  import ConvertToSi
  import opened SimulationJob

  /** Work the controller and the workers put on the queue. */
  datatype Work =
    | MeshGeneration(jobId: string)
    | Simulation(jobId: string)
    | MeshThenSimulation(jobId: string)
    | PlotGeneration(jobId: string)

  /** The `subterra.*` configuration; None where a key is unset. */
  datatype Config = Config(runnerMode: Option<string>, projectRoot: Option<string>, image: Option<string>,
                           volume: Option<string>, mpiCores: Option<int>)
  {
    predicate Local() { runnerMode.GetOr("docker") == "local" }
    function Image(): string { image.GetOr("subterra-fenics") }
    function Volume(): string { volume.GetOr("subterra_jobs_data") }
    function Cores(): int { mpiCores.GetOr(4) }
  }

  datatype Invocation = Invocation(cwd: Option<string>, command: string, timeout: nat)

  /** A finished process: its exit code, standard output and error output, and the files
      it wrote. */
  datatype ProcessResult = ProcessResult(exitCode: int, output: string, errorOutput: string,
                                         written: map<string, string>)
  {
    predicate Successful() { exitCode == 0 }
  }

  type Runner = Invocation -> Result<ProcessResult, string>

  const MeshTimeout: nat := 600
  const SimulationTimeout: nat := 7200
  const MeshPlotTimeout: nat := 120
  /** Neither worker is retried: a thrown exception ends the job. */
  const Tries: nat := 1
  /** `error_message` keeps at most this many characters of the exception message. */
  const ErrorLimit: nat := 5000

  const LocalPath: string := "PATH=/usr/local/sbin:/usr/local/bin:/usr/sbin:/usr/bin:/sbin:/bin"
  const MissingMeshMessage: string := "Mesh files not found. Run mesh generation first."

  // ---------------------------------------------------------------------------
  // Command lines
  // ---------------------------------------------------------------------------

  /** `escapeshellarg`: single quotes around the text, each inner quote closed, escaped
      and reopened. */
  function EscapeShellArg(s: string): string {
    "'" + ConvertToSi.Replace(s, "'", "'\\''") + "'"
  }

  /** The Python module `runner` started in the project root with a fixed PATH. */
  function LocalWords(runner: string, paramFile: string): seq<string> {
    ["env", LocalPath, "python3", "-m", runner, "--params", EscapeShellArg(paramFile)]
  }

  /** `docker run` of the FEniCS image over the shared jobs volume, up to the image name. */
  function DockerPrefix(config: Config, container: string, jobId: string): seq<string> {
    ["docker", "run", "--rm", "--name", container, "-v", config.Volume() + ":/subterra/jobs",
     "-e", "JOB_ID=" + jobId, config.Image()]
  }

  /** The runner's arguments inside the container. */
  function ContainerParams(jobId: string): seq<string> {
    ["--params", "/subterra/jobs/" + jobId + "/parameter.json"]
  }

  function MeshInvocation(config: Config, jobId: string, workDir: string): Invocation {
    if config.Local() then
      Invocation(config.projectRoot, Text.Join(" ", LocalWords("src.mesh_runner", ParameterFilePath(workDir))), MeshTimeout)
    else
      Invocation(None, Text.Join(" ", DockerPrefix(config, "subterra-mesh-" + jobId, jobId)
                                      + ["python3", "-m", "src.mesh_runner"] + ContainerParams(jobId)), MeshTimeout)
  }

  function MeshPlotInvocation(config: Config, jobId: string, workDir: string): Invocation {
    if config.Local() then
      Invocation(config.projectRoot,
                 Text.Join(" ", ["python3", "-m", "src.mesh_plot_runner", "--params", EscapeShellArg(ParameterFilePath(workDir))]),
                 MeshPlotTimeout)
    else
      Invocation(None, Text.Join(" ", DockerPrefix(config, "subterra-meshplot-" + jobId, jobId)
                                      + ["python3", "-m", "src.mesh_plot_runner"] + ContainerParams(jobId)), MeshPlotTimeout)
  }

  /** The simulation's words inside the container: the runner under `mpirun`. */
  function MpiWords(config: Config): seq<string> {
    ["mpirun", "-np", Text.IntToString(config.Cores()), "python3", "-m", "src.sim_runner"]
  }

  function SimulationInvocation(config: Config, jobId: string, workDir: string): Invocation {
    if config.Local() then
      Invocation(config.projectRoot, Text.Join(" ", LocalWords("src.sim_runner", ParameterFilePath(workDir))), SimulationTimeout)
    else
      Invocation(None, Text.Join(" ", DockerPrefix(config, "subterra-sim-" + jobId, jobId)
                                      + MpiWords(config) + ContainerParams(jobId)), SimulationTimeout)
  }

  /** In the container the simulation runner is started by `mpirun -np <cores>`: the
      command is the `docker run` prefix, then the MPI launch of the runner, then the
      runner's parameters; the local runner starts without MPI. */
  lemma SimulationRunsUnderMpi(config: Config, jobId: string, workDir: string)
    ensures !config.Local() ==>
              SimulationInvocation(config, jobId, workDir).command
              == Text.Join(" ", DockerPrefix(config, "subterra-sim-" + jobId, jobId)) + " "
                 + Text.Join(" ", MpiWords(config)) + " " + Text.Join(" ", ContainerParams(jobId))
    ensures MpiWords(config)[..3] == ["mpirun", "-np", Text.IntToString(config.Cores())]
    ensures MpiWords(config)[3..] == ["python3", "-m", "src.sim_runner"]
    ensures config.Local() ==> "mpirun" !in LocalWords("src.sim_runner", ParameterFilePath(workDir))
    ensures SimulationInvocation(config, jobId, workDir).timeout == SimulationTimeout
  {
    assert EscapeShellArg(ParameterFilePath(workDir))[0] == '\'';
    if !config.Local() {
      var pre := DockerPrefix(config, "subterra-sim-" + jobId, jobId);
      var mpi := MpiWords(config);
      var post := ContainerParams(jobId);
      Text.JoinConcat(" ", pre + mpi, post);
      Text.JoinConcat(" ", pre, mpi);
    }
  }

  // ---------------------------------------------------------------------------
  // The job log
  // ---------------------------------------------------------------------------

  /** A finished process's files land on the disk; a process call that threw wrote none. */
  function Ran(disk: Disk, r: Result<ProcessResult, string>): Disk {
    if r.Success? then Disk(disk.files + r.value.written, disk.dirs) else disk
  }

  /** `appendLog`: the work directory is created if needed and `text` plus a newline is
      appended to job.log. */
  function AppendLog(disk: Disk, workDir: string, text: string): Disk {
    var log := JobLogPath(workDir);
    var before := if log in disk.files then disk.files[log] else "";
    Disk(disk.files[log := before + text + "\n"], disk.dirs + {workDir})
  }

  /** Several `appendLog` calls in order. */
  function AppendLogs(disk: Disk, workDir: string, texts: seq<string>): Disk
    decreases |texts|
  {
    if |texts| == 0 then disk
    else AppendLog(AppendLogs(disk, workDir, texts[..|texts| - 1]), workDir, texts[|texts| - 1])
  }

  /** The lines the log gains from `texts`. */
  function Lines(texts: seq<string>): string
    decreases |texts|
  {
    if |texts| == 0 then "" else Lines(texts[..|texts| - 1]) + texts[|texts| - 1] + "\n"
  }

  /** The current text of job.log, empty when there is none. */
  function LogText(disk: Disk, workDir: string): string {
    if JobLogPath(workDir) in disk.files then disk.files[JobLogPath(workDir)] else ""
  }

  /** Appending to the log only ever extends job.log, by exactly the given lines, and
      leaves every other file alone. */
  lemma {:induction false} AppendLogsExtends(disk: Disk, workDir: string, texts: seq<string>)
    ensures |texts| > 0 ==> JobLogPath(workDir) in AppendLogs(disk, workDir, texts).files
    ensures LogText(AppendLogs(disk, workDir, texts), workDir) == LogText(disk, workDir) + Lines(texts)
    ensures forall p :: p != JobLogPath(workDir) ==>
              (p in AppendLogs(disk, workDir, texts).files <==> p in disk.files)
    ensures forall p :: p != JobLogPath(workDir) && p in disk.files ==>
              AppendLogs(disk, workDir, texts).files[p] == disk.files[p]
    ensures disk.dirs <= AppendLogs(disk, workDir, texts).dirs <= disk.dirs + {workDir}
    decreases |texts|
  {
    if |texts| > 0 {
      var init := texts[..|texts| - 1];
      AppendLogsExtends(disk, workDir, init);
      var mid := AppendLogs(disk, workDir, init);
      assert AppendLogs(disk, workDir, texts) == AppendLog(mid, workDir, texts[|texts| - 1]);
      assert LogText(AppendLog(mid, workDir, texts[|texts| - 1]), workDir)
             == LogText(mid, workDir) + texts[|texts| - 1] + "\n";
    }
  }

  /** `[TAG] stdout:` followed by the output, then `[TAG] stderr:` when the error output
      is truthy. */
  function ProcessLog(tag: string, r: ProcessResult): seq<string> {
    ["[" + tag + "] stdout:\n" + r.output]
    + (if Text.Truthy(r.errorOutput) then ["[" + tag + "] stderr:\n" + r.errorOutput] else [])
  }

  /** What the mesh plot leaves in the log: its output, and an error line when it failed
      or its process call threw. */
  function MeshPlotLog(r: Result<ProcessResult, string>): seq<string> {
    if r.Failure? then ["[MESH-PLOT] error: " + r.error]
    else ProcessLog("MESH-PLOT", r.value)
         + (if r.value.Successful() then []
            else ["[MESH-PLOT] error: Mesh plot process returned exit code " + Text.IntToString(r.value.exitCode)])
  }

  /** The message of the exception a worker rethrows, or None when its process succeeded. */
  function Thrown(what: string, r: Result<ProcessResult, string>): (m: Option<string>)
    ensures m.None? <==> r.Success? && r.value.Successful()
  {
    if r.Failure? then Some(r.error)
    else if r.value.Successful() then None
    else Some(what + " failed:\n" + r.value.errorOutput + "\n" + r.value.output)
  }

  /** The disk after a process run whose output is logged under `tag`. */
  function AfterRun(disk: Disk, workDir: string, tag: string, r: Result<ProcessResult, string>): Disk {
    if r.Failure? then disk else AppendLogs(Ran(disk, r), workDir, ProcessLog(tag, r.value))
  }

  /** The disk after the mesh-plot attempt. */
  function AfterMeshPlot(disk: Disk, workDir: string, r: Result<ProcessResult, string>): Disk {
    AppendLogs(Ran(disk, r), workDir, MeshPlotLog(r))
  }

  /** The plot `meshPlotFile()` reports is there after the mesh-plot attempt exactly when
      it was there before or the plot process wrote it; appending to job.log never makes
      it appear or disappear. */
  lemma MeshPlotShown(disk: Disk, workDir: string, r: Result<ProcessResult, string>)
    ensures MeshPlotFile(AfterMeshPlot(disk, workDir, r), workDir).Some?
            <==> disk.Exists(Under(TempDir(workDir), "mesh_plot.png"))
                 || (r.Success? && Under(TempDir(workDir), "mesh_plot.png") in r.value.written)
  {
    var plot := Under(TempDir(workDir), "mesh_plot.png");
    assert plot[|workDir| + 1] == 't' && JobLogPath(workDir)[|workDir| + 1] == 'j';
    assert |plot| > |workDir|;
    AppendLogsExtends(Ran(disk, r), workDir, MeshPlotLog(r));
  }

  /** The writes of a mesh generation that succeeded followed by a simulation attempt,
      from a status the controller accepts, follow the lifecycle. */
  lemma ChainFollows(from: Status, before: seq<Status>, meshed: seq<Status>, after: seq<Status>)
    requires from == Pending || from == Failed
    requires meshed == before + [Meshing, Meshed]
    requires after == meshed + [Failed] || after == meshed + [Simulating, Completed]
             || after == meshed + [Simulating, Failed]
    ensures |before| <= |after| && Follows(from, after[|before|..])
  {
    var tail := after[|meshed|..];
    assert after[|before|..] == [Meshing, Meshed] + tail;
    assert Follows(Meshed, tail);
    FollowsAppend(from, [Meshing, Meshed], tail);
  }

  // ---------------------------------------------------------------------------
  // The workers
  // ---------------------------------------------------------------------------

  /** A queue worker: its view of the shared disk and the queue it can push onto. */
  class Worker {
    const root: string
    const config: Config
    var disk: Disk
    var queue: seq<Work>

    constructor (root: string, config: Config, disk: Disk)
      ensures this.root == root && this.config == config && this.disk == disk && queue == []
    {
      this.root := root;
      this.config := config;
      this.disk := disk;
      queue := [];
    }

    /** The result of the job's mesh run, mesh-plot run and simulation run. */
    function MeshRun(job: Job, run: Runner): Result<ProcessResult, string>
      reads job`workDirColumn
    {
      run(MeshInvocation(config, job.id, job.WorkDir(root)))
    }

    function MeshPlotRun(job: Job, run: Runner): Result<ProcessResult, string>
      reads job`workDirColumn
    {
      run(MeshPlotInvocation(config, job.id, job.WorkDir(root)))
    }

    function SimulationRun(job: Job, run: Runner): Result<ProcessResult, string>
      reads job`workDirColumn
    {
      run(SimulationInvocation(config, job.id, job.WorkDir(root)))
    }

    /** `runProcess` followed by the `appendLog` calls for its output. */
    method RunLogged(invocation: Invocation, workDir: string, tag: string, run: Runner)
      returns (r: Result<ProcessResult, string>)
      modifies this`disk
      ensures r == run(invocation) && disk == AfterRun(old(disk), workDir, tag, r)
    {
      r := run(invocation);
      if r.Success? {
        disk := AppendLogs(Ran(disk, r), workDir, ProcessLog(tag, r.value));
      }
    }

    /** A status write with its timestamp (`$job->update([...])`). */
    method Write(job: Job, s: Status, at: int)
      requires s != Failed && s != Pending
      modifies job
      ensures job.status == s && job.statusWrites == old(job.statusWrites) + [s]
      ensures s == Meshing ==> job.meshStartedAt == Some(at)
      ensures s != Meshing ==> job.meshStartedAt == old(job.meshStartedAt)
      ensures s == Meshed ==> job.meshCompletedAt == Some(at)
      ensures s != Meshed ==> job.meshCompletedAt == old(job.meshCompletedAt)
      ensures s == Simulating ==> job.simStartedAt == Some(at)
      ensures s != Simulating ==> job.simStartedAt == old(job.simStartedAt)
      ensures s == Completed ==> job.simCompletedAt == Some(at)
      ensures s != Completed ==> job.simCompletedAt == old(job.simCompletedAt)
      ensures job.errorMessage == old(job.errorMessage)
      ensures job.parameters == old(job.parameters) && job.workDirColumn == old(job.workDirColumn)
    {
      job.status := s;
      job.statusWrites := job.statusWrites + [s];
      match s
      case Meshing => job.meshStartedAt := Some(at);
      case Meshed => job.meshCompletedAt := Some(at);
      case Simulating => job.simStartedAt := Some(at);
      case Completed => job.simCompletedAt := Some(at);
    }

    /** The catch block: status failed and the first `ErrorLimit` characters of the message. */
    method MarkFailed(job: Job, message: string)
      modifies job
      ensures job.status == Failed && job.errorMessage == Some(Text.Take(message, ErrorLimit))
      ensures |job.errorMessage.value| <= ErrorLimit
      ensures job.statusWrites == old(job.statusWrites) + [Failed]
      ensures job.parameters == old(job.parameters) && job.workDirColumn == old(job.workDirColumn)
      ensures job.meshStartedAt == old(job.meshStartedAt) && job.meshCompletedAt == old(job.meshCompletedAt)
      ensures job.simStartedAt == old(job.simStartedAt) && job.simCompletedAt == old(job.simCompletedAt)
    {
      job.status := Failed;
      job.errorMessage := Some(Text.Take(message, ErrorLimit));
      job.statusWrites := job.statusWrites + [Failed];
    }

    /** `generateMeshPlot` inside its try block: the run, its output and, when it failed
        or threw, the error line; the job itself is not touched. */
    method GenerateMeshPlot(job: Job, run: Runner)
      modifies this`disk
      ensures disk == AfterMeshPlot(old(disk), job.WorkDir(root), MeshPlotRun(job, run))
    {
      var r := MeshPlotRun(job, run);
      disk := AfterMeshPlot(disk, job.WorkDir(root), r);
    }

    /** `RunMeshGeneration::handle`. Status meshing and its start time are written first;
        a successful mesh run sets meshed and the completion time and then attempts the
        mesh plot, whose failure is only logged; a failed or throwing run sets failed with
        the truncated message, and the exception is rethrown (the Failure outcome). */
    method HandleMeshGeneration(job: Job, started: int, completed: int, run: Runner)
      returns (outcome: Result<(), string>)
      modifies job, this`disk
      ensures job.meshStartedAt == Some(started)
      ensures outcome.Success? <==> MeshRun(job, run).Success? && MeshRun(job, run).value.Successful()
      ensures outcome.Success? ==>
                job.status == Meshed && job.meshCompletedAt == Some(completed)
                && job.errorMessage == old(job.errorMessage)
                && job.statusWrites == old(job.statusWrites) + [Meshing, Meshed]
      ensures outcome.Success? ==>
                disk == AfterMeshPlot(AfterRun(old(disk), job.WorkDir(root), "MESH", MeshRun(job, run)),
                                      job.WorkDir(root), MeshPlotRun(job, run))
      ensures outcome.Failure? ==>
                Thrown("Mesh generation", MeshRun(job, run)) == Some(outcome.error)
                && job.status == Failed && job.errorMessage == Some(Text.Take(outcome.error, ErrorLimit))
                && job.meshCompletedAt == old(job.meshCompletedAt)
                && job.statusWrites == old(job.statusWrites) + [Meshing, Failed]
      ensures outcome.Failure? ==> disk == AfterRun(old(disk), job.WorkDir(root), "MESH", MeshRun(job, run))
      ensures job.parameters == old(job.parameters) && job.workDirColumn == old(job.workDirColumn)
      ensures job.simStartedAt == old(job.simStartedAt) && job.simCompletedAt == old(job.simCompletedAt)
    {
      var w := job.WorkDir(root);
      Write(job, Meshing, started);
      var r := RunLogged(MeshInvocation(config, job.id, w), w, "MESH", run);
      var thrown := Thrown("Mesh generation", r);
      if thrown.Some? {
        MarkFailed(job, thrown.value);
        return Failure(thrown.value);
      }
      Write(job, Meshed, completed);
      GenerateMeshPlot(job, run);
      return Success(());
    }

    /** `RunSimulation::handle`. Without mesh files the job fails straight away and never
        enters simulating; otherwise status simulating and its start time are written
        before the run, a successful run sets completed and its completion time and queues
        the plot generation, and a failed or throwing run sets failed with the truncated
        message and rethrows. */
    method HandleSimulation(job: Job, started: int, completed: int, run: Runner)
      returns (outcome: Result<(), string>)
      modifies job, this`disk, this`queue
      ensures !HasMesh(old(disk), job.WorkDir(root)) ==>
                outcome == Failure(MissingMeshMessage)
                && job.status == Failed && job.errorMessage == Some(MissingMeshMessage)
                && job.statusWrites == old(job.statusWrites) + [Failed]
                && job.simStartedAt == old(job.simStartedAt)
                && disk == old(disk) && queue == old(queue)
      ensures HasMesh(old(disk), job.WorkDir(root)) ==>
                job.simStartedAt == Some(started)
                && (outcome.Success? <==> SimulationRun(job, run).Success? && SimulationRun(job, run).value.Successful())
                && disk == AfterRun(old(disk), job.WorkDir(root), "SIMULATION", SimulationRun(job, run))
      ensures HasMesh(old(disk), job.WorkDir(root)) && outcome.Success? ==>
                job.status == Completed && job.simCompletedAt == Some(completed)
                && job.errorMessage == old(job.errorMessage)
                && job.statusWrites == old(job.statusWrites) + [Simulating, Completed]
                && queue == old(queue) + [PlotGeneration(job.id)]
      ensures HasMesh(old(disk), job.WorkDir(root)) && outcome.Failure? ==>
                Thrown("Simulation", SimulationRun(job, run)) == Some(outcome.error)
                && job.status == Failed && job.errorMessage == Some(Text.Take(outcome.error, ErrorLimit))
                && job.simCompletedAt == old(job.simCompletedAt)
                && job.statusWrites == old(job.statusWrites) + [Simulating, Failed]
                && queue == old(queue)
      ensures job.parameters == old(job.parameters) && job.workDirColumn == old(job.workDirColumn)
      ensures job.meshStartedAt == old(job.meshStartedAt) && job.meshCompletedAt == old(job.meshCompletedAt)
    {
      var w := job.WorkDir(root);
      if !HasMesh(disk, w) {
        MarkFailed(job, MissingMeshMessage);
        return Failure(MissingMeshMessage);
      }
      Write(job, Simulating, started);
      var r := RunLogged(SimulationInvocation(config, job.id, w), w, "SIMULATION", run);
      var thrown := Thrown("Simulation", r);
      if thrown.Some? {
        MarkFailed(job, thrown.value);
        return Failure(thrown.value);
      }
      Write(job, Completed, completed);
      queue := queue + [PlotGeneration(job.id)];
      return Success(());
    }

    /** The chain `run` queues: the simulation runs only when the mesh generation did not
        throw. Started from a status the controller accepts, every status written follows
        the lifecycle. */
    method HandleChain(job: Job, meshStarted: int, meshCompleted: int, simStarted: int, simCompleted: int,
                       run: Runner)
      returns (outcome: Result<(), string>)
      modifies job, this`disk, this`queue
      ensures !(MeshRun(job, run).Success? && MeshRun(job, run).value.Successful()) ==>
                outcome.Failure? && job.status == Failed && queue == old(queue)
                && job.statusWrites == old(job.statusWrites) + [Meshing, Failed]
      ensures MeshRun(job, run).Success? && MeshRun(job, run).value.Successful() ==>
                job.meshCompletedAt == Some(meshCompleted) && (outcome.Success? <==> job.status == Completed)
      ensures |old(job.statusWrites)| <= |job.statusWrites|
      ensures old(job.status) == Pending || old(job.status) == Failed ==>
                Follows(old(job.status), job.statusWrites[|old(job.statusWrites)|..])
    {
      ghost var before := job.statusWrites;
      ghost var from := job.status;
      outcome := HandleMeshGeneration(job, meshStarted, meshCompleted, run);
      if outcome.Failure? {
        assert job.statusWrites[|before|..] == [Meshing, Failed];
        return;
      }
      ghost var meshed := job.statusWrites;
      outcome := HandleSimulation(job, simStarted, simCompleted, run);
      if from == Pending || from == Failed {
        ChainFollows(from, before, meshed, job.statusWrites);
      }
    }
  }
}
