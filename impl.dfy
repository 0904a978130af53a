/** The framework-independent service implementation of the GPU process
    table: each GPU process is reported with the container record it runs in,
    minus that record's `ports` and `status` entries. */
module ServiceImpl {
  import opened Wrappers
  import opened GpuStatus

  /** A GPU process together with the cgroup text it is read with. */
  datatype CgroupGpuProcess = CgroupGpuProcess(pid: int, gpuMemoryUsed: int, cgroup: string)

  /** One entry of the answer; `container` is None outside containers. */
  datatype ImplEntry<V> = ImplEntry(pid: int, gpuMemoryUsed: int, container: Option<map<string, V>>)

  /** The two entries `fmt_gpu_proc` deletes from the container record. */
  const Dropped: set<string> := {"ports", "status"}

  /** `fmt_gpu_proc`: `queryContainer` is `query_container_by_id`, which may
      find no container (None) or raise. */
  function FmtGpuProcImpl<V>(gp: CgroupGpuProcess,
                             queryContainer: string -> Result<Option<map<string, V>>>): (r: Result<ImplEntry<V>>)
    ensures r.Ok? ==> r.value.pid == gp.pid && r.value.gpuMemoryUsed == gp.gpuMemoryUsed
    ensures r.Err? ==> ContainerIdFromCgroup(gp.cgroup).Some?
    ensures r.Ok? && r.value.container.Some? ==>
      ContainerIdFromCgroup(gp.cgroup).Some? && queryContainer(ContainerIdFromCgroup(gp.cgroup).value).Ok?
      && queryContainer(ContainerIdFromCgroup(gp.cgroup).value).value.Some?
      && r.value.container.value.Keys !! Dropped
  {
    match ContainerIdFromCgroup(gp.cgroup)
    case None => Ok(ImplEntry(gp.pid, gp.gpuMemoryUsed, None))
    case Some(id) =>
      match queryContainer(id)
      case Err(e) => Err(e)
      case Ok(None) => Ok(ImplEntry(gp.pid, gp.gpuMemoryUsed, None))
      case Ok(Some(info)) =>
        if "ports" !in info then Err(KeyError("'ports'"))
        else
          var info1 := info - {"ports"};
          if "status" !in info1 then Err(KeyError("'status'"))
          else Ok(ImplEntry(gp.pid, gp.gpuMemoryUsed, Some(info1 - {"status"})))
  }

  /** A process outside any container is reported as pid, GPU memory and no
      container, whatever the container lookup would have answered: no lookup happens. */
  lemma NoContainerNoLookup<V>(gp: CgroupGpuProcess,
                               q1: string -> Result<Option<map<string, V>>>,
                               q2: string -> Result<Option<map<string, V>>>)
    requires ContainerIdFromCgroup(gp.cgroup).None?
    ensures FmtGpuProcImpl(gp, q1) == FmtGpuProcImpl(gp, q2) == Ok(ImplEntry(gp.pid, gp.gpuMemoryUsed, None))
  {}

  /** A found container record loses exactly its `ports` and `status` keys;
      every other key keeps its value. A record missing either key raises KeyError. */
  lemma ContainerRecordShape<V>(gp: CgroupGpuProcess, queryContainer: string -> Result<Option<map<string, V>>>,
                                info: map<string, V>)
    requires ContainerIdFromCgroup(gp.cgroup).Some?
    requires queryContainer(ContainerIdFromCgroup(gp.cgroup).value) == Ok(Some(info))
    ensures FmtGpuProcImpl(gp, queryContainer).Ok? <==> "ports" in info && "status" in info
    ensures FmtGpuProcImpl(gp, queryContainer).Ok? ==>
      var c := FmtGpuProcImpl(gp, queryContainer).value.container;
      c.Some? && c.value.Keys == info.Keys - Dropped
      && forall k :: k in c.value ==> c.value[k] == info[k]
    ensures FmtGpuProcImpl(gp, queryContainer).Err? ==> FmtGpuProcImpl(gp, queryContainer).error.KeyError?
  {
    if "ports" in info && "status" in info {
      assert (info - {"ports"}) - {"status"} == info - Dropped;
    }
  }

  /** Unlike the resource router, which treats an empty id as "no container",
      this implementation looks up the empty id that a `docker-.scope` leaf yields. */
  lemma EmptyIdIsLookedUp(cg: string)
    requires CgroupLeaf(cg) == DockerPrefix + ScopeSuffix
    ensures ContainerIdFromCgroup(cg) == Some("")
  {
    assert DockerPrefix + "" + ScopeSuffix == DockerPrefix + ScopeSuffix;
    ContainerIdIff(cg, "");
  }

  /** `entries` are, in order, the formatted processes `ps`. */
  ghost predicate ImplProcsListed<V>(ps: seq<CgroupGpuProcess>,
                                     queryContainer: string -> Result<Option<map<string, V>>>,
                                     entries: seq<ImplEntry<V>>)
  {
    |entries| == |ps| && forall k :: 0 <= k < |ps| ==> FmtGpuProcImpl(ps[k], queryContainer) == Ok(entries[k])
  }

  /** Process `k` is the first whose formatting fails, and it fails with `e`. */
  ghost predicate ImplProcFailsFirst<V>(ps: seq<CgroupGpuProcess>,
                                        queryContainer: string -> Result<Option<map<string, V>>>, k: int, e: Error)
  {
    0 <= k < |ps| && FmtGpuProcImpl(ps[k], queryContainer) == Err(e)
    && forall j :: 0 <= j < k ==> FmtGpuProcImpl(ps[j], queryContainer).Ok?
  }

  lemma ImplProcsListedCons<V>(ps: seq<CgroupGpuProcess>, queryContainer: string -> Result<Option<map<string, V>>>,
                               entry: ImplEntry<V>, rest: seq<ImplEntry<V>>)
    requires ps != [] && FmtGpuProcImpl(ps[0], queryContainer) == Ok(entry)
    requires ImplProcsListed(ps[1..], queryContainer, rest)
    ensures ImplProcsListed(ps, queryContainer, [entry] + rest)
  {
    var entries := [entry] + rest;
    forall k | 1 <= k < |ps| ensures FmtGpuProcImpl(ps[k], queryContainer) == Ok(entries[k]) {
      assert entries[k] == rest[k - 1] && ps[k] == ps[1..][k - 1];
    }
  }

  lemma ImplProcFailsFirstCons<V>(ps: seq<CgroupGpuProcess>,
                                  queryContainer: string -> Result<Option<map<string, V>>>, e: Error)
    requires ps != [] && FmtGpuProcImpl(ps[0], queryContainer).Ok?
    requires exists k :: ImplProcFailsFirst(ps[1..], queryContainer, k, e)
    ensures exists k :: ImplProcFailsFirst(ps, queryContainer, k, e)
  {
    var k :| ImplProcFailsFirst(ps[1..], queryContainer, k, e);
    assert ps[k + 1] == ps[1..][k];
    forall j | 1 <= j < k + 1 ensures FmtGpuProcImpl(ps[j], queryContainer).Ok? {
      assert ps[j] == ps[1..][j - 1];
    }
    assert ImplProcFailsFirst(ps, queryContainer, k + 1, e);
  }

  /** The inner list comprehension of `gpu_status_impl`: one entry per
      process, in order, with the same pid; the first exception propagates. */
  function ImplProcs<V>(ps: seq<CgroupGpuProcess>,
                        queryContainer: string -> Result<Option<map<string, V>>>): (r: Result<seq<ImplEntry<V>>>)
    ensures r.Ok? ==> ImplProcsListed(ps, queryContainer, r.value)
    ensures r.Ok? ==> forall k :: 0 <= k < |r.value| ==> r.value[k].pid == ps[k].pid
    ensures r.Err? ==> exists k :: ImplProcFailsFirst(ps, queryContainer, k, r.error)
  {
    if ps == [] then Ok([])
    else
      match FmtGpuProcImpl(ps[0], queryContainer)
      case Err(e) =>
        assert ImplProcFailsFirst(ps, queryContainer, 0, e);
        Err(e)
      case Ok(entry) =>
        match ImplProcs(ps[1..], queryContainer)
        case Err(e) =>
          ImplProcFailsFirstCons(ps, queryContainer, e);
          Err(e)
        case Ok(rest) =>
          ImplProcsListedCons(ps, queryContainer, entry, rest);
          Ok([entry] + rest)
  }

  /** `rs` lists, GPU by GPU and in order, the formatted processes of `gpuProcs`. */
  ghost predicate ImplListed<V>(gpuProcs: seq<(int, seq<CgroupGpuProcess>)>,
                          queryContainer: string -> Result<Option<map<string, V>>>,
                          rs: seq<(int, seq<ImplEntry<V>>)>)
  {
    |rs| == |gpuProcs| && forall k :: 0 <= k < |gpuProcs| ==>
      rs[k].0 == gpuProcs[k].0 && ImplProcs(gpuProcs[k].1, queryContainer) == Ok(rs[k].1)
  }

  /** GPU `k` is the first whose process list fails, and it fails with `e`. */
  ghost predicate ImplFailsFirst<V>(gpuProcs: seq<(int, seq<CgroupGpuProcess>)>,
                              queryContainer: string -> Result<Option<map<string, V>>>, k: int, e: Error)
  {
    0 <= k < |gpuProcs| && ImplProcs(gpuProcs[k].1, queryContainer) == Err(e)
    && forall j :: 0 <= j < k ==> ImplProcs(gpuProcs[j].1, queryContainer).Ok?
  }

  lemma ImplListedCons<V>(gpuProcs: seq<(int, seq<CgroupGpuProcess>)>,
                          queryContainer: string -> Result<Option<map<string, V>>>,
                          entries: seq<ImplEntry<V>>, rest: seq<(int, seq<ImplEntry<V>>)>)
    requires gpuProcs != [] && ImplProcs(gpuProcs[0].1, queryContainer) == Ok(entries)
    requires ImplListed(gpuProcs[1..], queryContainer, rest)
    ensures ImplListed(gpuProcs, queryContainer, [(gpuProcs[0].0, entries)] + rest)
  {
    var rs := [(gpuProcs[0].0, entries)] + rest;
    forall k | 1 <= k < |gpuProcs|
      ensures rs[k].0 == gpuProcs[k].0 && ImplProcs(gpuProcs[k].1, queryContainer) == Ok(rs[k].1)
    {
      assert rs[k] == rest[k - 1] && gpuProcs[k] == gpuProcs[1..][k - 1];
    }
  }

  lemma ImplFailsFirstCons<V>(gpuProcs: seq<(int, seq<CgroupGpuProcess>)>,
                              queryContainer: string -> Result<Option<map<string, V>>>, e: Error)
    requires gpuProcs != [] && ImplProcs(gpuProcs[0].1, queryContainer).Ok?
    requires exists k :: ImplFailsFirst(gpuProcs[1..], queryContainer, k, e)
    ensures exists k :: ImplFailsFirst(gpuProcs, queryContainer, k, e)
  {
    var tail := gpuProcs[1..];
    var k :| ImplFailsFirst(tail, queryContainer, k, e);
    assert gpuProcs[k + 1].1 == tail[k].1;
    forall j | 0 <= j < k + 1
      ensures ImplProcs(gpuProcs[j].1, queryContainer).Ok?
    {
      if j > 0 {
        assert gpuProcs[j].1 == tail[j - 1].1;
      }
    }
    assert ImplFailsFirst(gpuProcs, queryContainer, k + 1, e);
  }

  /** `gpu_status_impl`: same GPU keys in the same order, each list as long as
      its input; on failure, the error of the first GPU whose list fails. */
  function ImplGpuStatus<V>(gpuProcs: seq<(int, seq<CgroupGpuProcess>)>,
                            queryContainer: string -> Result<Option<map<string, V>>>)
    : (r: Result<seq<(int, seq<ImplEntry<V>>)>>)
    ensures r.Ok? ==> ImplListed(gpuProcs, queryContainer, r.value)
    ensures r.Ok? ==> forall k :: 0 <= k < |r.value| ==> |r.value[k].1| == |gpuProcs[k].1|
    ensures r.Err? ==> exists k :: ImplFailsFirst(gpuProcs, queryContainer, k, r.error)
  {
    if gpuProcs == [] then Ok([])
    else
      match ImplProcs(gpuProcs[0].1, queryContainer)
      case Err(e) =>
        assert ImplFailsFirst(gpuProcs, queryContainer, 0, e);
        Err(e)
      case Ok(entries) =>
        match ImplGpuStatus(gpuProcs[1..], queryContainer)
        case Err(e) =>
          ImplFailsFirstCons(gpuProcs, queryContainer, e);
          Err(e)
        case Ok(rest) =>
          ImplListedCons(gpuProcs, queryContainer, entries, rest);
          Ok([(gpuProcs[0].0, entries)] + rest)
  }
}
