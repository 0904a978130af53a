/** The resource router: which container a GPU process belongs to (read from
    its cgroup), the per-GPU process table, the GPU-id parameter, and the list
    of configured images. */
module GpuStatus {
  import opened Wrappers
  import opened Strings
  import Seqs
  import opened ResourceMonitor
  import opened PodyConfig
  import NameParse

  const DockerPrefix := "docker-"
  const ScopeSuffix := ".scope"

  /** `cgoup.split("/")[-1]`: the last `/`-separated component. */
  function CgroupLeaf(cg: string): (leaf: string)
    ensures '/' !in leaf
  {
    SplitPartsSepFree(cg, '/');
    LastPiece(cg, '/')
  }

  /** The leaf is the text after the last `/` (all of it when there is none). */
  lemma CgroupLeafIsTail(cg: string)
    ensures |CgroupLeaf(cg)| <= |cg| && cg[|cg| - |CgroupLeaf(cg)|..] == CgroupLeaf(cg)
    ensures |CgroupLeaf(cg)| < |cg| ==> cg[|cg| - |CgroupLeaf(cg)| - 1] == '/'
  {
    LastPieceIsTail(cg, '/');
  }

  /** Python's `s[i:j]` for `0 <= i` and `0 <= j <= |s|`: empty when `j <= i`. */
  function SliceBetween(s: string, i: nat, j: nat): string
    requires i <= |s| && j <= |s|
  {
    if j <= i then [] else s[i..j]
  }

  /** `container_id_from_cgroup`: `<id>` out of a `docker-<id>.scope` leaf. */
  function ContainerIdFromCgroup(cg: string): (r: Option<string>)
    ensures r.Some? ==> '/' !in r.value && |r.value| + |DockerPrefix| + |ScopeSuffix| <= |CgroupLeaf(cg)|
  {
    var last := CgroupLeaf(cg);
    if !(DockerPrefix <= last) then None
    else if !EndsWith(last, ScopeSuffix) then None
    else
      assert last[|last| - 6] == '.' && |last| >= 13;
      Some(SliceBetween(last, |DockerPrefix|, |last| - |ScopeSuffix|))
  }

  /** An id is extracted exactly when the leaf is `docker-<id>.scope`. */
  lemma ContainerIdIff(cg: string, id: string)
    ensures ContainerIdFromCgroup(cg) == Some(id) <==> CgroupLeaf(cg) == DockerPrefix + id + ScopeSuffix
  {
    var last := CgroupLeaf(cg);
    if DockerPrefix <= last && EndsWith(last, ScopeSuffix) {
      // the two affixes cannot overlap: no character of "ocker-" is a '.'
      assert last[|last| - 6] == '.';
      assert |last| >= 13;
      var mid := last[7..|last| - 6];
      assert last == last[..7] + mid + last[|last| - 6..];
      assert last == DockerPrefix + mid + ScopeSuffix;
      if last == DockerPrefix + id + ScopeSuffix {
        assert id == (DockerPrefix + id + ScopeSuffix)[7..|last| - 6];
      }
    }
    if last == DockerPrefix + id + ScopeSuffix {
      assert DockerPrefix <= last;
      assert last[|last| - 6..] == ScopeSuffix;
      assert last[7..|last| - 6] == id;
    }
  }

  // ---------------------------------------------------------------------
  // the per-GPU process table

  /** One entry of the `/resource/gpu-ps` answer. */
  datatype ProcEntry = ProcEntry(pid: int, pod: string, cmd: string, uptime: int,
                                 memoryUsed: int, gpuMemoryUsed: int)

  /** The container id behind a process, when it is truthy. */
  predicate HasContainerId(info: ProcessInfo)
  {
    ContainerIdFromCgroup(info.cgroup).Some? && ContainerIdFromCgroup(info.cgroup).value != ""
  }

  /** `fmt_gpu_proc` in the resource router: `containerName` is
      `query_container_by_id(client, id)["name"]`. */
  function FmtGpuProc(gp: GpuProcess, queryProcess: int -> Result<ProcessInfo>,
                      containerName: string -> Result<string>): (r: Result<ProcEntry>)
    ensures r.Ok? <==> (queryProcess(gp.pid).Ok? && (!HasContainerId(queryProcess(gp.pid).value)
      || containerName(ContainerIdFromCgroup(queryProcess(gp.pid).value.cgroup).value).Ok?))
    ensures r.Ok? ==> (r.value.pid == gp.pid && r.value.gpuMemoryUsed == gp.gpuMemoryUsed
      && r.value.cmd == queryProcess(gp.pid).value.cmd
      && r.value.uptime == queryProcess(gp.pid).value.uptime
      && r.value.memoryUsed == queryProcess(gp.pid).value.memoryUsed)
    ensures r.Ok? && !HasContainerId(queryProcess(gp.pid).value) ==> r.value.pod == ""
    ensures r.Ok? && HasContainerId(queryProcess(gp.pid).value) ==>
      containerName(ContainerIdFromCgroup(queryProcess(gp.pid).value.cgroup).value) == Ok(r.value.pod)
    ensures queryProcess(gp.pid).Err? ==> r == Err(queryProcess(gp.pid).error)
    ensures (queryProcess(gp.pid).Ok? && HasContainerId(queryProcess(gp.pid).value)
      && containerName(ContainerIdFromCgroup(queryProcess(gp.pid).value.cgroup).value).Err?) ==>
      r == Err(containerName(ContainerIdFromCgroup(queryProcess(gp.pid).value.cgroup).value).error)
  {
    match queryProcess(gp.pid)
    case Err(e) => Err(e)
    case Ok(info) =>
      if HasContainerId(info) then
        match containerName(ContainerIdFromCgroup(info.cgroup).value)
        case Err(e) => Err(e)
        case Ok(name) => Ok(ProcEntry(gp.pid, name, info.cmd, info.uptime, info.memoryUsed, gp.gpuMemoryUsed))
      else Ok(ProcEntry(gp.pid, "", info.cmd, info.uptime, info.memoryUsed, gp.gpuMemoryUsed))
  }

  /** `entries` are, in order, the formatted processes `ps`. */
  ghost predicate ProcsListed(ps: seq<GpuProcess>, queryProcess: int -> Result<ProcessInfo>,
                              containerName: string -> Result<string>, entries: seq<ProcEntry>)
  {
    |entries| == |ps| && forall k :: 0 <= k < |ps| ==> FmtGpuProc(ps[k], queryProcess, containerName) == Ok(entries[k])
  }

  /** Process `k` is the first whose formatting fails, and it fails with `e`. */
  ghost predicate ProcsFailFirst(ps: seq<GpuProcess>, queryProcess: int -> Result<ProcessInfo>,
                                 containerName: string -> Result<string>, k: int, e: Error)
  {
    0 <= k < |ps| && FmtGpuProc(ps[k], queryProcess, containerName) == Err(e)
    && forall j :: 0 <= j < k ==> FmtGpuProc(ps[j], queryProcess, containerName).Ok?
  }

  lemma ProcsListedCons(ps: seq<GpuProcess>, queryProcess: int -> Result<ProcessInfo>,
                        containerName: string -> Result<string>, entry: ProcEntry, rest: seq<ProcEntry>)
    requires ps != [] && FmtGpuProc(ps[0], queryProcess, containerName) == Ok(entry)
    requires ProcsListed(ps[1..], queryProcess, containerName, rest)
    ensures ProcsListed(ps, queryProcess, containerName, [entry] + rest)
  {
    var entries := [entry] + rest;
    forall k | 1 <= k < |ps| ensures FmtGpuProc(ps[k], queryProcess, containerName) == Ok(entries[k]) {
      assert entries[k] == rest[k - 1] && ps[k] == ps[1..][k - 1];
    }
  }

  lemma ProcsFailFirstCons(ps: seq<GpuProcess>, queryProcess: int -> Result<ProcessInfo>,
                           containerName: string -> Result<string>, e: Error)
    requires ps != [] && FmtGpuProc(ps[0], queryProcess, containerName).Ok?
    requires exists k :: ProcsFailFirst(ps[1..], queryProcess, containerName, k, e)
    ensures exists k :: ProcsFailFirst(ps, queryProcess, containerName, k, e)
  {
    var k :| ProcsFailFirst(ps[1..], queryProcess, containerName, k, e);
    assert ps[k + 1] == ps[1..][k];
    forall j | 1 <= j < k + 1 ensures FmtGpuProc(ps[j], queryProcess, containerName).Ok? {
      assert ps[j] == ps[1..][j - 1];
    }
    assert ProcsFailFirst(ps, queryProcess, containerName, k + 1, e);
  }

  /** The list comprehension over one GPU's processes: one entry per
      process, in order; the first exception propagates. */
  function FmtProcs(ps: seq<GpuProcess>, queryProcess: int -> Result<ProcessInfo>,
                    containerName: string -> Result<string>): (r: Result<seq<ProcEntry>>)
    ensures r.Ok? ==> ProcsListed(ps, queryProcess, containerName, r.value)
    ensures r.Err? ==> exists k :: ProcsFailFirst(ps, queryProcess, containerName, k, r.error)
  {
    if ps == [] then Ok([])
    else
      match FmtGpuProc(ps[0], queryProcess, containerName)
      case Err(e) =>
        assert ProcsFailFirst(ps, queryProcess, containerName, 0, e);
        Err(e)
      case Ok(entry) =>
        match FmtProcs(ps[1..], queryProcess, containerName)
        case Err(e) =>
          ProcsFailFirstCons(ps, queryProcess, containerName, e);
          Err(e)
        case Ok(rest) =>
          ProcsListedCons(ps, queryProcess, containerName, entry, rest);
          Ok([entry] + rest)
  }

  /** `rs` lists, GPU by GPU and in order, the formatted processes of `gpuProcs`. */
  ghost predicate StatusListed(gpuProcs: seq<(int, seq<GpuProcess>)>, queryProcess: int -> Result<ProcessInfo>,
                               containerName: string -> Result<string>, rs: seq<(int, seq<ProcEntry>)>)
  {
    |rs| == |gpuProcs| && forall k :: 0 <= k < |gpuProcs| ==>
      rs[k].0 == gpuProcs[k].0 && FmtProcs(gpuProcs[k].1, queryProcess, containerName) == Ok(rs[k].1)
  }

  /** GPU `k` is the first whose process list fails, and it fails with `e`. */
  ghost predicate StatusFailsFirst(gpuProcs: seq<(int, seq<GpuProcess>)>, queryProcess: int -> Result<ProcessInfo>,
                                   containerName: string -> Result<string>, k: int, e: Error)
  {
    0 <= k < |gpuProcs| && FmtProcs(gpuProcs[k].1, queryProcess, containerName) == Err(e)
    && forall j :: 0 <= j < k ==> FmtProcs(gpuProcs[j].1, queryProcess, containerName).Ok?
  }

  lemma StatusListedCons(gpuProcs: seq<(int, seq<GpuProcess>)>, queryProcess: int -> Result<ProcessInfo>,
                         containerName: string -> Result<string>,
                         entries: seq<ProcEntry>, rest: seq<(int, seq<ProcEntry>)>)
    requires gpuProcs != [] && FmtProcs(gpuProcs[0].1, queryProcess, containerName) == Ok(entries)
    requires StatusListed(gpuProcs[1..], queryProcess, containerName, rest)
    ensures StatusListed(gpuProcs, queryProcess, containerName, [(gpuProcs[0].0, entries)] + rest)
  {
    var rs := [(gpuProcs[0].0, entries)] + rest;
    forall k | 1 <= k < |gpuProcs|
      ensures rs[k].0 == gpuProcs[k].0 && FmtProcs(gpuProcs[k].1, queryProcess, containerName) == Ok(rs[k].1)
    {
      assert rs[k] == rest[k - 1] && gpuProcs[k] == gpuProcs[1..][k - 1];
    }
  }

  lemma StatusFailsFirstCons(gpuProcs: seq<(int, seq<GpuProcess>)>, queryProcess: int -> Result<ProcessInfo>,
                             containerName: string -> Result<string>, e: Error)
    requires gpuProcs != [] && FmtProcs(gpuProcs[0].1, queryProcess, containerName).Ok?
    requires exists k :: StatusFailsFirst(gpuProcs[1..], queryProcess, containerName, k, e)
    ensures exists k :: StatusFailsFirst(gpuProcs, queryProcess, containerName, k, e)
  {
    var k :| StatusFailsFirst(gpuProcs[1..], queryProcess, containerName, k, e);
    assert gpuProcs[k + 1] == gpuProcs[1..][k];
    forall j | 1 <= j < k + 1
      ensures FmtProcs(gpuProcs[j].1, queryProcess, containerName).Ok?
    {
      assert gpuProcs[j] == gpuProcs[1..][j - 1];
    }
    assert StatusFailsFirst(gpuProcs, queryProcess, containerName, k + 1, e);
  }

  /** `gpu_status_impl` over the ordered GPU map `list_processes_on_gpus` returned:
      same GPU keys in the same order, each with its formatted processes; on
      failure, the error of the first GPU whose list fails. */
  function GpuStatusImpl(gpuProcs: seq<(int, seq<GpuProcess>)>, queryProcess: int -> Result<ProcessInfo>,
                         containerName: string -> Result<string>): (r: Result<seq<(int, seq<ProcEntry>)>>)
    ensures r.Ok? ==> StatusListed(gpuProcs, queryProcess, containerName, r.value)
    ensures r.Err? <==> exists k :: 0 <= k < |gpuProcs| && FmtProcs(gpuProcs[k].1, queryProcess, containerName).Err?
    ensures r.Err? ==> exists k :: StatusFailsFirst(gpuProcs, queryProcess, containerName, k, r.error)
  {
    if gpuProcs == [] then Ok([])
    else
      match FmtProcs(gpuProcs[0].1, queryProcess, containerName)
      case Err(e) =>
        assert StatusFailsFirst(gpuProcs, queryProcess, containerName, 0, e);
        Err(e)
      case Ok(entries) =>
        match GpuStatusImpl(gpuProcs[1..], queryProcess, containerName)
        case Err(e) =>
          StatusFailsFirstCons(gpuProcs, queryProcess, containerName, e);
          Err(e)
        case Ok(rest) =>
          StatusListedCons(gpuProcs, queryProcess, containerName, entries, rest);
          Ok([(gpuProcs[0].0, entries)] + rest)
  }

  /** Each GPU's list keeps the length and order of that GPU's processes. */
  lemma GpuStatusShape(gpuProcs: seq<(int, seq<GpuProcess>)>, queryProcess: int -> Result<ProcessInfo>,
                       containerName: string -> Result<string>, g: nat, k: nat)
    requires GpuStatusImpl(gpuProcs, queryProcess, containerName).Ok?
    requires g < |gpuProcs| && k < |gpuProcs[g].1|
    ensures var out := GpuStatusImpl(gpuProcs, queryProcess, containerName).value;
      out[g].0 == gpuProcs[g].0 && |out[g].1| == |gpuProcs[g].1|
      && out[g].1[k].pid == gpuProcs[g].1[k].pid
  {}

  // ---------------------------------------------------------------------
  // the `id` query parameter

  /** `int(i.strip())`. */
  function ParseIdToken(t: string): Option<int>
  {
    ParseInt(Strip(t))
  }

  /** `int(i.strip())` of each token, in order. */
  function TokenValues(toks: seq<string>): (opts: seq<Option<int>>)
    ensures |opts| == |toks| && forall k :: 0 <= k < |toks| ==> opts[k] == ParseIdToken(toks[k])
  {
    Seqs.Map(ParseIdToken, toks)
  }

  /** The GPU-id list of `gpu_status`: `id` split on `,`, each token stripped and
      converted; any non-integer token is invalid input. */
  function ParseGpuIds(id: string): (r: Result<seq<int>>)
    ensures r.Err? ==> r.error == InvalidInput("Invalid GPU ID")
  {
    match AllSome(TokenValues(Split(id, ',')))
    case None => Err(InvalidInput("Invalid GPU ID"))
    case Some(ids) => Ok(ids)
  }

  /** One id per comma-separated token, each the token's integer value; the
      parameter is rejected exactly when some token is not an integer. */
  lemma ParseGpuIdsSpec(id: string, toks: seq<string>)
    requires toks == Split(id, ',')
    ensures ParseGpuIds(id).Err? <==> exists k :: 0 <= k < |toks| && ParseIdToken(toks[k]).None?
    ensures ParseGpuIds(id).Ok? ==> (|ParseGpuIds(id).value| == |toks|
        && forall k :: 0 <= k < |toks| ==> ParseIdToken(toks[k]) == Some(ParseGpuIds(id).value[k]))
  {
    var opts := TokenValues(toks);
    if AllSome(opts).None? {
      var k :| 0 <= k < |opts| && opts[k].None?;
      assert ParseIdToken(toks[k]).None?;
    }
  }

  lemma IntTextShape(i: int)
    ensures ',' !in IntToString(i)
    ensures ParseIdToken(IntToString(i)) == Some(i)
  {
    var t := IntToString(i);
    IntToStringChars(i);
    assert forall k :: 0 <= k < |t| ==> t[k] != ',';
    assert !IsSpace(t[0]) && !IsSpace(t[|t| - 1]);
    StripNoSpace(t);
    ParseIntOfIntToString(i);
  }

  lemma IntTextsTokens(ids: seq<int>)
    ensures forall k :: 0 <= k < |ids| ==> ',' !in IntTexts(ids)[k]
    ensures forall k :: 0 <= k < |ids| ==> TokenValues(IntTexts(ids))[k] == Some(ids[k])
  {
    var texts := IntTexts(ids);
    var opts := TokenValues(texts);
    forall k | 0 <= k < |ids| ensures ',' !in texts[k] && opts[k] == Some(ids[k]) {
      IntTextShape(ids[k]);
      assert texts[k] == IntToString(ids[k]);
      assert opts[k] == ParseIdToken(texts[k]);
    }
  }

  /** A comma-separated list of integers parses back to those integers. */
  lemma ParseGpuIdsOfJoin(ids: seq<int>, s: string)
    requires |ids| >= 1 && s == Join(IntTexts(ids), ",")
    ensures ParseGpuIds(s) == Ok(ids)
  {
    var texts := IntTexts(ids);
    IntTextsTokens(ids);
    SplitJoin(texts, ',');
    assert Split(s, ',') == texts;
    var opts := TokenValues(texts);
    AllSomeOfSomes(opts, ids);
    assert AllSome(TokenValues(Split(s, ','))) == Some(ids);
  }

  // ---------------------------------------------------------------------
  // the resource router's image list

  function ConfiguredNames(images: seq<ImageConfig>): (r: seq<string>)
    ensures |r| == |images| && forall k :: 0 <= k < |images| ==> r[k] == images[k].name
  {
    if images == [] then [] else [images[0].name] + ConfiguredNames(images[1..])
  }

  /** `list_images` in the resource router: the raw images named exactly by a configured image. */
  function ListConfiguredImages(rawImages: seq<string>, cfg: Config): (r: seq<string>)
    ensures |r| <= |rawImages|
    ensures forall q :: q in r <==> q in rawImages && exists k :: 0 <= k < |cfg.images| && cfg.images[k].name == q
  {
    var allowed := ConfiguredNames(cfg.images);
    Seqs.Filter(rawImages, q => q in allowed)
  }

  /** The result keeps raw order and holds exactly the raw images a configured image names. */
  lemma ListConfiguredImagesSpec(rawImages: seq<string>, cfg: Config)
    ensures Seqs.IsSubseq(ListConfiguredImages(rawImages, cfg), rawImages)
    ensures forall q :: q in ListConfiguredImages(rawImages, cfg) <==>
      q in rawImages && exists k :: 0 <= k < |cfg.images| && cfg.images[k].name == q
    ensures forall q :: q in ListConfiguredImages(rawImages, cfg) ==>
      multiset(ListConfiguredImages(rawImages, cfg))[q] == multiset(rawImages)[q]
  {
    var allowed := ConfiguredNames(cfg.images);
    Seqs.FilterIsSubseq(rawImages, q => q in allowed);
    forall q | q in ListConfiguredImages(rawImages, cfg)
      ensures multiset(ListConfiguredImages(rawImages, cfg))[q] == multiset(rawImages)[q]
    {
      Seqs.FilterCount(rawImages, q => q in allowed, q);
    }
  }

  /** Every image this list shows is also visible through the image filter,
      for any user. */
  lemma ListConfiguredWithinFilter(f: NameParse.ImageFilter, q: string)
    requires q in ListConfiguredImages(f.rawImages, f.config)
    ensures q in f.List()
  {
    ListConfiguredImagesSpec(f.rawImages, f.config);
    var k :| 0 <= k < |f.config.images| && f.config.images[k].name == q;
    assert NameParse.MatchesConfig(f.config.images[k], q);
    NameParse.ListIsVisibleSubsequence(f);
  }
}
