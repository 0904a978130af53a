/** Resource monitoring: the per-process record read from the process table,
    and the two generators that walk processes, attribute them to containers
    and yield the ones the filter accepts, skipping a process whose handling
    raises. */
module ResourceMonitor {
  import opened Wrappers
  import opened Strings

  /** A process as `psutil` reports it; the clock reading is passed separately. */
  datatype RawProcess = RawProcess(cmdline: seq<string>, cgroup: string, createTime: int,
                                   cpuUser: int, cpuSystem: int, rss: int)

  /** `ProcessInfo`. Times are whole numbers here (see README). */
  datatype ProcessInfo = ProcessInfo(pid: int, cmd: string, cgroup: string, uptime: int,
                                     cputime: int, memoryUsed: int)

  /** `GPUProcess`: a process seen by the GPU driver. */
  datatype GpuProcess = GpuProcess(pid: int, gpuMemoryUsed: int)

  /** `ContainerProcessInfo`; `gproc` is absent for processes found by `docker_proc_iter`. */
  datatype ContainerProcessInfo = ContainerProcessInfo(containerName: string, cproc: ProcessInfo,
                                                       gproc: Option<GpuProcess>)

  /** What a generator produces for one process: an item, or a logged error. */
  datatype IterEvent = Yielded(item: ContainerProcessInfo) | Logged(pid: int, error: Error)

  /** `query_process`: look the pid up in the process table `table`, at clock `now`. */
  function QueryProcess(table: map<int, RawProcess>, now: int, pid: int): (r: Result<ProcessInfo>)
    ensures r.Err? <==> pid !in table
    ensures r.Err? ==> r.error == ProcessNotFound("Process " + IntToString(pid) + " not found")
    ensures r.Ok? ==> (r.value.pid == pid && r.value.cgroup == table[pid].cgroup
      && r.value.uptime == now - table[pid].createTime
      && r.value.cmd == Join(table[pid].cmdline, " ")
      && r.value.cputime == table[pid].cpuUser + table[pid].cpuSystem
      && r.value.memoryUsed == table[pid].rss)
  {
    if pid !in table then Err(ProcessNotFound("Process " + IntToString(pid) + " not found"))
    else
      var p := table[pid];
      Ok(ProcessInfo(pid, Join(p.cmdline, " "), p.cgroup, now - p.createTime,
                     p.cpuUser + p.cpuSystem, p.rss))
  }

  /** `container_from_pid` answers a name, None, or raises; None and "" are falsy. */
  predicate Falsy(name: Option<string>)
  {
    name.None? || name.value == ""
  }

  /** The body of the inner loop for one process, with its `try`/`except`. */
  function ProcStep(pid: int, gproc: Option<GpuProcess>,
                    containerFromPid: int -> Result<Option<string>>,
                    queryProcess: int -> Result<ProcessInfo>,
                    filterFn: ContainerProcessInfo -> Result<bool>): (evs: seq<IterEvent>)
    ensures |evs| <= 1
    ensures forall e :: e in evs && e.Yielded? ==>
      filterFn(e.item) == Ok(true) && e.item.gproc == gproc
      && containerFromPid(pid) == Ok(Some(e.item.containerName)) && e.item.containerName != ""
      && queryProcess(pid) == Ok(e.item.cproc)
    ensures forall e :: e in evs && e.Logged? ==> e.pid == pid
  {
    match containerFromPid(pid)
    case Err(e) => [Logged(pid, e)]
    case Ok(name) =>
      if Falsy(name) then []
      else match queryProcess(pid)
        case Err(e) => [Logged(pid, e)]
        case Ok(cproc) =>
          var item := ContainerProcessInfo(name.value, cproc, gproc);
          match filterFn(item)
          case Err(e) => [Logged(pid, e)]
          case Ok(keep) => if keep then [Yielded(item)] else []
  }

  /** A process whose lookups succeed with a name and which the filter accepts is yielded. */
  lemma ProcStepYields(pid: int, gproc: Option<GpuProcess>,
                       containerFromPid: int -> Result<Option<string>>,
                       queryProcess: int -> Result<ProcessInfo>,
                       filterFn: ContainerProcessInfo -> Result<bool>)
    requires containerFromPid(pid).Ok? && !Falsy(containerFromPid(pid).value)
    requires queryProcess(pid).Ok?
    requires filterFn(ContainerProcessInfo(containerFromPid(pid).value.value, queryProcess(pid).value, gproc)) == Ok(true)
    ensures ProcStep(pid, gproc, containerFromPid, queryProcess, filterFn)
      == [Yielded(ContainerProcessInfo(containerFromPid(pid).value.value, queryProcess(pid).value, gproc))]
  {}

  /** The inner loop over one GPU's processes. */
  function GpuProcsEvents(procs: seq<GpuProcess>,
                          containerFromPid: int -> Result<Option<string>>,
                          queryProcess: int -> Result<ProcessInfo>,
                          filterFn: ContainerProcessInfo -> Result<bool>): (evs: seq<IterEvent>)
    ensures |evs| <= |procs|
    ensures forall e :: e in evs && e.Yielded? ==>
      filterFn(e.item) == Ok(true) && e.item.containerName != ""
      && e.item.gproc.Some? && e.item.gproc.value in procs
      && containerFromPid(e.item.gproc.value.pid) == Ok(Some(e.item.containerName))
      && queryProcess(e.item.gproc.value.pid) == Ok(e.item.cproc)
  {
    if procs == [] then []
    else ProcStep(procs[0].pid, Some(procs[0]), containerFromPid, queryProcess, filterFn)
         + GpuProcsEvents(procs[1..], containerFromPid, queryProcess, filterFn)
  }

  /** The outer loop over the GPU map, in its order. */
  function GpusEvents(gpus: seq<(int, seq<GpuProcess>)>,
                      containerFromPid: int -> Result<Option<string>>,
                      queryProcess: int -> Result<ProcessInfo>,
                      filterFn: ContainerProcessInfo -> Result<bool>): (evs: seq<IterEvent>)
    ensures forall e :: e in evs && e.Yielded? ==>
      filterFn(e.item) == Ok(true) && e.item.containerName != ""
      && e.item.gproc.Some? && (exists g :: g in gpus && e.item.gproc.value in g.1)
      && queryProcess(e.item.gproc.value.pid) == Ok(e.item.cproc)
  {
    if gpus == [] then []
    else GpuProcsEvents(gpus[0].1, containerFromPid, queryProcess, filterFn)
         + GpusEvents(gpus[1..], containerFromPid, queryProcess, filterFn)
  }

  /** `docker_gpu_proc_iter`: a failure of `list_processes_on_gpus` is not caught. */
  function DockerGpuProcIter(gpuProcs: Result<seq<(int, seq<GpuProcess>)>>,
                             containerFromPid: int -> Result<Option<string>>,
                             queryProcess: int -> Result<ProcessInfo>,
                             filterFn: ContainerProcessInfo -> Result<bool>): (r: Result<seq<IterEvent>>)
    ensures r.Err? <==> gpuProcs.Err?
    ensures r.Err? ==> r.error == gpuProcs.error
    ensures r.Ok? ==> forall e :: e in r.value && e.Yielded? ==>
      filterFn(e.item) == Ok(true) && e.item.containerName != "" && e.item.gproc.Some?
      && exists g :: g in gpuProcs.value && e.item.gproc.value in g.1
  {
    match gpuProcs
    case Err(e) => Err(e)
    case Ok(gpus) => Ok(GpusEvents(gpus, containerFromPid, queryProcess, filterFn))
  }

  /** `docker_proc_iter` over the pids of `psutil.process_iter`, with `gproc = None`. */
  function DockerProcIter(pids: seq<int>,
                          containerFromPid: int -> Result<Option<string>>,
                          queryProcess: int -> Result<ProcessInfo>,
                          filterFn: ContainerProcessInfo -> Result<bool>): (evs: seq<IterEvent>)
    ensures |evs| <= |pids|
    ensures forall e :: e in evs && e.Yielded? ==>
      filterFn(e.item) == Ok(true) && e.item.containerName != "" && e.item.gproc.None?
      && exists p :: p in pids && containerFromPid(p) == Ok(Some(e.item.containerName))
                   && queryProcess(p) == Ok(e.item.cproc)
  {
    if pids == [] then []
    else ProcStep(pids[0], None, containerFromPid, queryProcess, filterFn)
         + DockerProcIter(pids[1..], containerFromPid, queryProcess, filterFn)
  }

  /** The default `filter_fn` accepts everything. */
  function AcceptAll(p: ContainerProcessInfo): bool { true }

  // ---------------------------------------------------------------------
  // properties

  /** Processes are visited in GPU-map order: the events of a concatenated
      map are the events of its parts, in order. */
  lemma {:induction false} GpusEventsAppend(g1: seq<(int, seq<GpuProcess>)>, g2: seq<(int, seq<GpuProcess>)>,
                                            containerFromPid: int -> Result<Option<string>>,
                                            queryProcess: int -> Result<ProcessInfo>,
                                            filterFn: ContainerProcessInfo -> Result<bool>)
    ensures GpusEvents(g1 + g2, containerFromPid, queryProcess, filterFn)
         == GpusEvents(g1, containerFromPid, queryProcess, filterFn) + GpusEvents(g2, containerFromPid, queryProcess, filterFn)
    decreases |g1|
  {
    if g1 != [] {
      assert (g1 + g2)[0] == g1[0];
      assert (g1 + g2)[1..] == g1[1..] + g2;
      GpusEventsAppend(g1[1..], g2, containerFromPid, queryProcess, filterFn);
    } else {
      assert g1 + g2 == g2;
    }
  }

  /** A process whose handling fails or that the filter rejects removes only
      its own event: every accepted process of a GPU list is yielded. */
  lemma {:induction false} GpuProcsEventsComplete(procs: seq<GpuProcess>, k: nat,
                                                  containerFromPid: int -> Result<Option<string>>,
                                                  queryProcess: int -> Result<ProcessInfo>,
                                                  filterFn: ContainerProcessInfo -> Result<bool>)
    requires k < |procs|
    requires containerFromPid(procs[k].pid).Ok? && !Falsy(containerFromPid(procs[k].pid).value)
    requires queryProcess(procs[k].pid).Ok?
    requires filterFn(ContainerProcessInfo(containerFromPid(procs[k].pid).value.value,
                                           queryProcess(procs[k].pid).value, Some(procs[k]))) == Ok(true)
    ensures Yielded(ContainerProcessInfo(containerFromPid(procs[k].pid).value.value,
                                         queryProcess(procs[k].pid).value, Some(procs[k])))
            in GpuProcsEvents(procs, containerFromPid, queryProcess, filterFn)
    decreases k
  {
    if k == 0 {
      ProcStepYields(procs[0].pid, Some(procs[0]), containerFromPid, queryProcess, filterFn);
    } else {
      GpuProcsEventsComplete(procs[1..], k - 1, containerFromPid, queryProcess, filterFn);
    }
  }

  /** `docker_proc_iter` follows the same skip rules: a pid whose handling
      fails or that the filter rejects removes only its own event, and every
      accepted pid is yielded. */
  lemma {:induction false} DockerProcIterComplete(pids: seq<int>, k: nat,
                                                  containerFromPid: int -> Result<Option<string>>,
                                                  queryProcess: int -> Result<ProcessInfo>,
                                                  filterFn: ContainerProcessInfo -> Result<bool>)
    requires k < |pids|
    requires containerFromPid(pids[k]).Ok? && !Falsy(containerFromPid(pids[k]).value)
    requires queryProcess(pids[k]).Ok?
    requires filterFn(ContainerProcessInfo(containerFromPid(pids[k]).value.value,
                                           queryProcess(pids[k]).value, None)) == Ok(true)
    ensures Yielded(ContainerProcessInfo(containerFromPid(pids[k]).value.value,
                                         queryProcess(pids[k]).value, None))
            in DockerProcIter(pids, containerFromPid, queryProcess, filterFn)
    decreases k
  {
    if k == 0 {
      ProcStepYields(pids[0], None, containerFromPid, queryProcess, filterFn);
    } else {
      DockerProcIterComplete(pids[1..], k - 1, containerFromPid, queryProcess, filterFn);
    }
  }

  /** With the default filter every process that maps to a named container
      and is still alive is yielded. */
  lemma DefaultFilterYields(procs: seq<GpuProcess>, k: nat,
                            containerFromPid: int -> Result<Option<string>>,
                            queryProcess: int -> Result<ProcessInfo>)
    requires k < |procs|
    requires containerFromPid(procs[k].pid).Ok? && !Falsy(containerFromPid(procs[k].pid).value)
    requires queryProcess(procs[k].pid).Ok?
    ensures Yielded(ContainerProcessInfo(containerFromPid(procs[k].pid).value.value,
                                         queryProcess(procs[k].pid).value, Some(procs[k])))
            in GpuProcsEvents(procs, containerFromPid, queryProcess, p => Ok(AcceptAll(p)))
  {
    GpuProcsEventsComplete(procs, k, containerFromPid, queryProcess, p => Ok(AcceptAll(p)));
  }

  /** The generator raises exactly when listing the GPU processes raises. */
  lemma DockerGpuProcIterRaises(gpuProcs: Result<seq<(int, seq<GpuProcess>)>>,
                                containerFromPid: int -> Result<Option<string>>,
                                queryProcess: int -> Result<ProcessInfo>,
                                filterFn: ContainerProcessInfo -> Result<bool>)
    ensures DockerGpuProcIter(gpuProcs, containerFromPid, queryProcess, filterFn).Err? <==> gpuProcs.Err?
    ensures gpuProcs.Err? ==> DockerGpuProcIter(gpuProcs, containerFromPid, queryProcess, filterFn) == Err(gpuProcs.error)
  {}
}
