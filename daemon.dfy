/** The GPU-quota daemon: once a minute it groups the GPU processes by the
    user owning their pod, counts the distinct GPUs each user occupies, and for
    every registered user above quota leaves a note in, then stops, the
    container of that user's most recently started GPU process. */
module Daemon {
  import opened Wrappers
  import opened Strings
  import opened GpuStatus

  // ---------------------------------------------------------------------
  // grouping, specified

  /** `pod_name.split('-')[0]`: the user a pod belongs to. */
  function PodUser(pod: string): string
  {
    Split(pod, '-')[0]
  }

  /** A process counts for `u` when it runs in a pod (host processes have pod "") of `u`. */
  predicate Owns(p: ProcEntry, u: string)
  {
    p.pod != "" && PodUser(p.pod) == u
  }

  /** The users with a process in `ps`. */
  function UsersIn(ps: seq<ProcEntry>): set<string>
  {
    if ps == [] then {}
    else
      var last := ps[|ps| - 1];
      UsersIn(ps[..|ps| - 1]) + (if last.pod != "" then {PodUser(last.pod)} else {})
  }

  /** A user is in `UsersIn(ps)` exactly when one of the processes is in one of the user's pods. */
  lemma {:induction false} UsersInMeaning(ps: seq<ProcEntry>, u: string)
    ensures u in UsersIn(ps) <==> exists k :: 0 <= k < |ps| && Owns(ps[k], u)
    decreases |ps|
  {
    if ps != [] {
      var init := ps[..|ps| - 1];
      UsersInMeaning(init, u);
      assert forall k :: 0 <= k < |init| ==> init[k] == ps[k];
      if Owns(ps[|ps| - 1], u) {
        assert u in UsersIn(ps);
      }
    }
  }

  /** `u`'s processes in `ps`, in order. */
  function ProcsOf(ps: seq<ProcEntry>, u: string): (r: seq<ProcEntry>)
    ensures |r| > 0 <==> u in UsersIn(ps)
  {
    if ps == [] then []
    else
      var last := ps[|ps| - 1];
      ProcsOf(ps[..|ps| - 1], u) + (if Owns(last, u) then [last] else [])
  }

  /** The users with a process on some GPU. */
  function AllUsers(gpus: seq<(int, seq<ProcEntry>)>): set<string>
  {
    if gpus == [] then {} else AllUsers(gpus[..|gpus| - 1]) + UsersIn(gpus[|gpus| - 1].1)
  }

  /** `user_procs[u]`: `u`'s processes in GPU order, then process order. */
  function GpuProcsOf(gpus: seq<(int, seq<ProcEntry>)>, u: string): (r: seq<ProcEntry>)
    ensures |r| > 0 <==> u in AllUsers(gpus)
  {
    if gpus == [] then [] else GpuProcsOf(gpus[..|gpus| - 1], u) + ProcsOf(gpus[|gpus| - 1].1, u)
  }

  /** Every process listed for `u` runs in one of `u`'s pods. */
  lemma {:induction false} ProcsOfOwned(ps: seq<ProcEntry>, u: string)
    ensures forall k :: 0 <= k < |ProcsOf(ps, u)| ==> Owns(ProcsOf(ps, u)[k], u)
    decreases |ps|
  {
    if ps != [] {
      ProcsOfOwned(ps[..|ps| - 1], u);
    }
  }

  lemma {:induction false} GpuProcsOfOwned(gpus: seq<(int, seq<ProcEntry>)>, u: string)
    ensures forall k :: 0 <= k < |GpuProcsOf(gpus, u)| ==> Owns(GpuProcsOf(gpus, u)[k], u)
    decreases |gpus|
  {
    if gpus != [] {
      GpuProcsOfOwned(gpus[..|gpus| - 1], u);
      ProcsOfOwned(gpus[|gpus| - 1].1, u);
      var a := GpuProcsOf(gpus[..|gpus| - 1], u);
      var b := ProcsOf(gpus[|gpus| - 1].1, u);
      assert forall k :: |a| <= k < |a| + |b| ==> (a + b)[k] == b[k - |a|];
    }
  }

  /** `user_proc_count[u]`: the number of GPUs on which `u` has a process. */
  function GpuCount(gpus: seq<(int, seq<ProcEntry>)>, u: string): (n: nat)
    ensures n <= |gpus|
    ensures n > 0 <==> u in AllUsers(gpus)
  {
    if gpus == [] then 0
    else GpuCount(gpus[..|gpus| - 1], u) + (if u in UsersIn(gpus[|gpus| - 1].1) then 1 else 0)
  }

  /** The count is of GPUs, not of processes: it never exceeds the process count. */
  lemma {:induction false} GpuCountAtMostProcs(gpus: seq<(int, seq<ProcEntry>)>, u: string)
    ensures GpuCount(gpus, u) <= |GpuProcsOf(gpus, u)|
    decreases |gpus|
  {
    if gpus != [] {
      GpuCountAtMostProcs(gpus[..|gpus| - 1], u);
    }
  }

  /** Several processes of one user on one GPU count once. */
  lemma OneGpuCountsOnce(g: int, p1: ProcEntry, p2: ProcEntry, u: string)
    requires Owns(p1, u) && Owns(p2, u)
    ensures GpuCount([(g, [p1, p2])], u) == 1
    ensures GpuProcsOf([(g, [p1, p2])], u) == [p1, p2]
  {
    var gpus := [(g, [p1, p2])];
    assert gpus[..0] == [];
    var ps := [p1, p2];
    assert ps[..1] == [p1] && [p1][..0] == [];
    assert ProcsOf(ps, u) == [p1, p2];
  }

  // ---------------------------------------------------------------------
  // grouping, computed

  lemma UsersInSnoc(ps: seq<ProcEntry>, j: nat)
    requires j < |ps|
    ensures UsersIn(ps[..j + 1]) == UsersIn(ps[..j]) + (if ps[j].pod != "" then {PodUser(ps[j].pod)} else {})
    ensures forall u :: ProcsOf(ps[..j + 1], u) == ProcsOf(ps[..j], u) + (if Owns(ps[j], u) then [ps[j]] else [])
  {
    assert ps[..j + 1][..j] == ps[..j];
  }

  lemma GpusSnoc(gpus: seq<(int, seq<ProcEntry>)>, i: nat)
    requires i < |gpus|
    ensures AllUsers(gpus[..i + 1]) == AllUsers(gpus[..i]) + UsersIn(gpus[i].1)
    ensures forall u :: GpuProcsOf(gpus[..i + 1], u) == GpuProcsOf(gpus[..i], u) + ProcsOf(gpus[i].1, u)
    ensures forall u :: GpuCount(gpus[..i + 1], u) == GpuCount(gpus[..i], u) + (if u in UsersIn(gpus[i].1) then 1 else 0)
  {
    assert gpus[..i + 1][..i] == gpus[..i];
  }

  /** `m` after appending every process of `ps` that runs in a pod to its
      user's list, in order. */
  function AppendProcs(m: map<string, seq<ProcEntry>>, ps: seq<ProcEntry>): map<string, seq<ProcEntry>>
  {
    if ps == [] then m
    else
      var g := AppendProcs(m, ps[..|ps| - 1]);
      var p := ps[|ps| - 1];
      if p.pod == "" then g
      else g[PodUser(p.pod) := (if PodUser(p.pod) in g then g[PodUser(p.pod)] else []) + [p]]
  }

  /** Appending adds exactly the users of `ps` as keys, and gives each user
      its old list followed by its processes of `ps`. */
  lemma {:induction false} AppendProcsMeaning(m: map<string, seq<ProcEntry>>, ps: seq<ProcEntry>)
    ensures AppendProcs(m, ps).Keys == m.Keys + UsersIn(ps)
    ensures forall u :: u in AppendProcs(m, ps) ==>
      AppendProcs(m, ps)[u] == (if u in m then m[u] else []) + ProcsOf(ps, u)
    decreases |ps|
  {
    if ps != [] {
      AppendProcsMeaning(m, ps[..|ps| - 1]);
      forall u | u in AppendProcs(m, ps)
        ensures AppendProcs(m, ps)[u] == (if u in m then m[u] else []) + ProcsOf(ps, u)
      {
        AppendProcsLast(m, ps, u);
      }
    }
  }

  /** One more process: a user's list grows by that process exactly when it owns it. */
  lemma AppendProcsLast(m: map<string, seq<ProcEntry>>, ps: seq<ProcEntry>, u: string)
    requires ps != []
    requires AppendProcs(m, ps[..|ps| - 1]).Keys == m.Keys + UsersIn(ps[..|ps| - 1])
    requires u in AppendProcs(m, ps[..|ps| - 1]) ==>
      AppendProcs(m, ps[..|ps| - 1])[u] == (if u in m then m[u] else []) + ProcsOf(ps[..|ps| - 1], u)
    requires u in AppendProcs(m, ps)
    ensures AppendProcs(m, ps)[u] == (if u in m then m[u] else []) + ProcsOf(ps, u)
  {
    var init := ps[..|ps| - 1];
    var p := ps[|ps| - 1];
    var g := AppendProcs(m, init);
    var base := if u in m then m[u] else [];
    if Owns(p, u) {
      var mine := if u in g then g[u] else [];
      assert mine == base + ProcsOf(init, u);
      assert mine + [p] == base + (ProcsOf(init, u) + [p]);
    }
  }

  /** The inner loop of `task_check_gpu_usage` over one GPU's processes: each
      process in a pod is appended to its user's list, and its user noted in
      `this_gpu_users`; host processes (pod "") are skipped. */
  method AddGpuProcs(ps: seq<ProcEntry>, procs: map<string, seq<ProcEntry>>)
    returns (procs': map<string, seq<ProcEntry>>, thisGpuUsers: set<string>)
    ensures thisGpuUsers == UsersIn(ps)
    ensures procs' == AppendProcs(procs, ps)
  {
    procs' := procs;
    thisGpuUsers := {};
    var j := 0;
    while j < |ps|
      invariant 0 <= j <= |ps|
      invariant thisGpuUsers == UsersIn(ps[..j])
      invariant procs' == AppendProcs(procs, ps[..j])
    {
      var p := ps[j];
      assert ps[..j + 1][..j] == ps[..j];
      if p.pod != "" {
        var username := PodUser(p.pod);
        thisGpuUsers := thisGpuUsers + {username};
        procs' := procs'[username := (if username in procs' then procs'[username] else []) + [p]];
      }
      j := j + 1;
    }
    assert ps[..j] == ps;
  }

  /** The loop over `this_gpu_users`: each user's GPU count goes up by one. */
  method CountGpuUsers(counts: map<string, int>, thisGpuUsers: set<string>) returns (counts': map<string, int>)
    ensures counts'.Keys == counts.Keys + thisGpuUsers
    ensures forall u :: u in counts' ==>
      counts'[u] == (if u in counts then counts[u] else 0) + (if u in thisGpuUsers then 1 else 0)
  {
    counts' := counts;
    var left := thisGpuUsers;
    while left != {}
      invariant left <= thisGpuUsers
      invariant counts'.Keys == counts.Keys + (thisGpuUsers - left)
      invariant forall u :: u in counts' ==>
        counts'[u] == (if u in counts then counts[u] else 0) + (if u in thisGpuUsers - left then 1 else 0)
      decreases left
    {
      var u :| u in left;
      counts' := counts'[u := (if u in counts' then counts'[u] else 0) + 1];
      left := left - {u};
    }
  }

  /** The nested loops of `task_check_gpu_usage` that fill `user_proc_count`
      and `user_procs`. */
  method GroupByUser(gpus: seq<(int, seq<ProcEntry>)>)
    returns (counts: map<string, int>, procs: map<string, seq<ProcEntry>>)
    ensures counts.Keys == AllUsers(gpus) && procs.Keys == AllUsers(gpus)
    ensures forall u :: u in counts ==> counts[u] == GpuCount(gpus, u)
    ensures forall u :: u in procs ==> procs[u] == GpuProcsOf(gpus, u)
  {
    counts := map[];
    procs := map[];
    var i := 0;
    while i < |gpus|
      invariant 0 <= i <= |gpus|
      invariant Grouped(gpus[..i], counts, procs)
    {
      var procs', thisGpuUsers := AddGpuProcs(gpus[i].1, procs);
      var counts' := CountGpuUsers(counts, thisGpuUsers);
      GroupedSnoc(gpus, i, counts, procs, counts', procs');
      counts, procs := counts', procs';
      i := i + 1;
    }
    assert gpus[..i] == gpus;
  }

  /** `counts` and `procs` hold the per-user GPU counts and process lists of `gpus`. */
  predicate Grouped(gpus: seq<(int, seq<ProcEntry>)>, counts: map<string, int>, procs: map<string, seq<ProcEntry>>)
  {
    Counted(gpus, counts) && Listed(gpus, procs)
  }

  /** `counts` holds, for each user of `gpus`, the number of GPUs it uses. */
  predicate Counted(gpus: seq<(int, seq<ProcEntry>)>, counts: map<string, int>)
  {
    counts.Keys == AllUsers(gpus) && forall u :: u in counts ==> counts[u] == GpuCount(gpus, u)
  }

  /** `procs` holds, for each user of `gpus`, its processes in order. */
  predicate Listed(gpus: seq<(int, seq<ProcEntry>)>, procs: map<string, seq<ProcEntry>>)
  {
    procs.Keys == AllUsers(gpus) && forall u :: u in procs ==> procs[u] == GpuProcsOf(gpus, u)
  }

  /** Counting and appending one more GPU's processes groups one more GPU. */
  lemma GroupedSnoc(gpus: seq<(int, seq<ProcEntry>)>, i: nat,
                    counts: map<string, int>, procs: map<string, seq<ProcEntry>>,
                    counts': map<string, int>, procs': map<string, seq<ProcEntry>>)
    requires i < |gpus| && Grouped(gpus[..i], counts, procs)
    requires procs' == AppendProcs(procs, gpus[i].1)
    requires counts'.Keys == counts.Keys + UsersIn(gpus[i].1)
    requires forall u :: u in counts' ==>
      counts'[u] == (if u in counts then counts[u] else 0) + (if u in UsersIn(gpus[i].1) then 1 else 0)
    ensures Grouped(gpus[..i + 1], counts', procs')
  {
    GpusSnoc(gpus, i);
    CountedSnoc(gpus, i, counts, counts');
    ListedSnoc(gpus, i, procs);
  }

  lemma CountedSnoc(gpus: seq<(int, seq<ProcEntry>)>, i: nat, counts: map<string, int>, counts': map<string, int>)
    requires i < |gpus| && Counted(gpus[..i], counts)
    requires AllUsers(gpus[..i + 1]) == AllUsers(gpus[..i]) + UsersIn(gpus[i].1)
    requires forall u :: GpuCount(gpus[..i + 1], u) == GpuCount(gpus[..i], u) + (if u in UsersIn(gpus[i].1) then 1 else 0)
    requires counts'.Keys == counts.Keys + UsersIn(gpus[i].1)
    requires forall u :: u in counts' ==>
      counts'[u] == (if u in counts then counts[u] else 0) + (if u in UsersIn(gpus[i].1) then 1 else 0)
    ensures Counted(gpus[..i + 1], counts')
  {}

  lemma ListedSnoc(gpus: seq<(int, seq<ProcEntry>)>, i: nat, procs: map<string, seq<ProcEntry>>)
    requires i < |gpus| && Listed(gpus[..i], procs)
    requires AllUsers(gpus[..i + 1]) == AllUsers(gpus[..i]) + UsersIn(gpus[i].1)
    requires forall u :: GpuProcsOf(gpus[..i + 1], u) == GpuProcsOf(gpus[..i], u) + ProcsOf(gpus[i].1, u)
    ensures Listed(gpus[..i + 1], AppendProcs(procs, gpus[i].1))
  {
    AppendProcsMeaning(procs, gpus[i].1);
  }

  // ---------------------------------------------------------------------
  // the victim

  /** Position of the first process with the least uptime: the head of the
      list after Python's stable sort by uptime. */
  function FirstMinIndex(ps: seq<ProcEntry>): (k: nat)
    requires |ps| > 0
    ensures k < |ps|
    ensures forall j :: 0 <= j < |ps| ==> ps[k].uptime <= ps[j].uptime
    ensures forall j :: 0 <= j < k ==> ps[j].uptime > ps[k].uptime
  {
    if |ps| == 1 then 0
    else
      var k := FirstMinIndex(ps[..|ps| - 1]);
      if ps[|ps| - 1].uptime < ps[k].uptime then |ps| - 1 else k
  }

  /** The first-minimum position is the only one with both properties. */
  lemma FirstMinUnique(ps: seq<ProcEntry>, k: nat)
    requires k < |ps|
    requires forall j :: 0 <= j < |ps| ==> ps[k].uptime <= ps[j].uptime
    requires forall j :: 0 <= j < k ==> ps[j].uptime > ps[k].uptime
    ensures k == FirstMinIndex(ps)
  {
    var m := FirstMinIndex(ps);
    assert ps[m].uptime == ps[k].uptime;
  }

  /** `user_procs[username].sort(key=uptime)` followed by `[0]`. */
  method SelectVictim(ps: seq<ProcEntry>) returns (k: nat)
    requires |ps| > 0
    ensures k == FirstMinIndex(ps)
  {
    k := 0;
    var j := 1;
    while j < |ps|
      invariant 1 <= j <= |ps| && k < j
      invariant forall i :: 0 <= i < j ==> ps[k].uptime <= ps[i].uptime
      invariant forall i :: 0 <= i < k ==> ps[i].uptime > ps[k].uptime
    {
      if ps[j].uptime < ps[k].uptime {
        k := j;
      }
      j := j + 1;
    }
    FirstMinUnique(ps, k);
  }

  // ---------------------------------------------------------------------
  // the note left in the container

  const LogDir := "/log/pody"

  /** The `leave_info` shell command, or its failed assertion. `timeStr` is the
      local time as `%Y-%m-%d_%H-%M-%S`. */
  function LeaveInfoCommand(info: string, timeStr: string, level: string): (r: Result<string>)
    ensures r.Ok? <==> '\'' !in info
    ensures r.Ok? ==> "mkdir -p " + LogDir + " && echo '" <= r.value
    ensures r.Err? ==> r.error.AssertionError?
  {
    if '\'' in info then Err(AssertionError("Single quote is not allowed in info"))
    else Ok("mkdir -p " + LogDir + " && echo '" + info + "' > " + LogDir + "/" + timeStr + "." + level + ".log")
  }

  /** The note is quoted safely: the only single quotes of the command are the
      two around the note, so the shell echoes the note verbatim. */
  lemma LeaveInfoQuoting(info: string, timeStr: string, level: string)
    requires '\'' !in timeStr && '\'' !in level
    ensures LeaveInfoCommand(info, timeStr, level).Ok? <==> '\'' !in info
    ensures LeaveInfoCommand(info, timeStr, level).Ok? ==>
      var cmd := LeaveInfoCommand(info, timeStr, level).value;
      var open := |"mkdir -p " + LogDir + " && echo "|;
      cmd[open] == '\'' && cmd[open + 1 .. open + 1 + |info|] == info && cmd[open + 1 + |info|] == '\''
      && forall k :: 0 <= k < |cmd| && cmd[k] == '\'' ==> k == open || k == open + 1 + |info|
  {
    if '\'' !in info {
      var pre := "mkdir -p " + LogDir + " && echo ";
      var a, b := " > " + LogDir + "/", "." + level + ".log";
      var post := a + timeStr + b;
      assert LeaveInfoCommand(info, timeStr, level).value == pre + "'" + info + "'" + post;
      assert '\'' !in pre && '\'' !in a;
      assert '\'' !in b by {
        assert b == "." + level + ".log";
      }
      QuotedOnce(pre, info, post);
    }
  }

  /** Between quote-free texts, the two quotes around a quote-free note are
      the only quotes, and enclose exactly the note. */
  lemma QuotedOnce(pre: string, info: string, post: string)
    requires '\'' !in pre && '\'' !in info && '\'' !in post
    ensures var cmd := pre + "'" + info + "'" + post;
      var open := |pre|;
      cmd[open] == '\'' && cmd[open + 1 .. open + 1 + |info|] == info && cmd[open + 1 + |info|] == '\''
      && forall k :: 0 <= k < |cmd| && cmd[k] == '\'' ==> k == open || k == open + 1 + |info|
  {
    var cmd := pre + "'" + info + "'" + post;
    assert forall k :: 0 <= k < |pre| ==> cmd[k] == pre[k];
    assert forall k :: |pre| < k < |pre| + 1 + |info| ==> cmd[k] == info[k - |pre| - 1];
    assert forall k :: |pre| + 1 + |info| < k < |cmd| ==> cmd[k] == post[k - |pre| - 2 - |info|];
  }

  // ---------------------------------------------------------------------
  // the decision

  /** A user is acted on when the quota is non-negative and exceeded; a
      negative quota means "unlimited". */
  predicate OverQuota(count: int, quota: int)
  {
    quota >= 0 && count > quota
  }

  /** The registered users above quota; `userId` and `gpuQuota` are
      `get_user(u).userid` and `check_user_quota(u).gpu_count`. */
  function Offenders(gpus: seq<(int, seq<ProcEntry>)>, userId: string -> int,
                     gpuQuota: string -> int): set<string>
  {
    set u | u in AllUsers(gpus) && userId(u) != 0 && OverQuota(GpuCount(gpus, u), gpuQuota(u))
  }

  /** The message written into the stopped container. */
  function KillNote(p: ProcEntry): string
  {
    "Killed container with pid-" + IntToString(p.pid) + " (" + p.cmd + ") due to GPU quota exceeded."
  }

  /** The process whose container is stopped for user `u`. */
  function Victim(gpus: seq<(int, seq<ProcEntry>)>, u: string): ProcEntry
    requires u in AllUsers(gpus)
  {
    var ps := GpuProcsOf(gpus, u);
    ps[FirstMinIndex(ps)]
  }

  /** What the daemon does to a container. */
  datatype Action = Note(pod: string, command: string) | Stop(pod: string)

  /** The actions for one handled user: the note, then the stop, both on the
      victim's pod; nothing when the note cannot be quoted. */
  function VictimActions(gpus: seq<(int, seq<ProcEntry>)>, u: string, timeStr: string): seq<Action>
    requires u in AllUsers(gpus)
  {
    var v := Victim(gpus, u);
    match LeaveInfoCommand(KillNote(v), timeStr, "critical")
    case Err(_) => []
    case Ok(cmd) => [Note(v.pod, cmd), Stop(v.pod)]
  }

  /** The actions for the users handled, in the order handled. `clock(i)` is
      the local time the `i`-th `leave_info` call of the run reads: the clock
      is read again for each note, and the container stop between two notes
      lets it move. */
  function Plan(gpus: seq<(int, seq<ProcEntry>)>, handled: seq<string>, clock: nat -> string): (r: seq<Action>)
    requires forall u :: u in handled ==> u in AllUsers(gpus)
    ensures |r| <= 2 * |handled|
    ensures forall a :: a in r ==> exists u :: u in handled && a.pod == Victim(gpus, u).pod
  {
    if handled == [] then []
    else Plan(gpus, handled[..|handled| - 1], clock)
         + VictimActions(gpus, handled[|handled| - 1], clock(|handled| - 1))
  }

  /** Actions `2 * i` and `2 * i + 1` are a note and a stop on `pod`. */
  predicate PairAt(acts: seq<Action>, i: nat, pod: string)
  {
    2 * i + 1 < |acts| && acts[2 * i].Note? && acts[2 * i].pod == pod && acts[2 * i + 1] == Stop(pod)
  }

  /** `acts` is one note-and-stop pair per pod of `pods`, in order. */
  predicate PairsFor(acts: seq<Action>, pods: seq<string>)
  {
    |acts| == 2 * |pods| && forall i :: 0 <= i < |pods| ==> PairAt(acts, i, pods[i])
  }

  /** Appending one pair for one more pod. */
  lemma PairsSnoc(acts: seq<Action>, pods: seq<string>, more: seq<Action>, pod: string)
    requires PairsFor(acts, pods) && PairsFor(more, [pod])
    ensures PairsFor(acts + more, pods + [pod])
  {
    var all, ps := acts + more, pods + [pod];
    forall i | 0 <= i < |ps| ensures PairAt(all, i, ps[i]) {
      if i < |pods| {
        assert PairAt(acts, i, pods[i]);
        assert all[2 * i] == acts[2 * i] && all[2 * i + 1] == acts[2 * i + 1];
      } else {
        assert [pod][0] == pod;
        assert PairAt(more, 0, pod);
        assert all[2 * i] == more[0] && all[2 * i + 1] == more[1];
      }
    }
  }

  /** The pod of `u`'s victim, for a user with processes. */
  function VictimPod(gpus: seq<(int, seq<ProcEntry>)>, u: string): string
  {
    if u in AllUsers(gpus) then Victim(gpus, u).pod else ""
  }

  function VictimPodOf(gpus: seq<(int, seq<ProcEntry>)>): string -> string
  {
    u => VictimPod(gpus, u)
  }

  /** The victims' pods of the handled users, in order. */
  function VictimPods(gpus: seq<(int, seq<ProcEntry>)>, handled: seq<string>): (pods: seq<string>)
    ensures |pods| == |handled|
    ensures forall i :: 0 <= i < |handled| && handled[i] in AllUsers(gpus) ==> pods[i] == Victim(gpus, handled[i]).pod
  {
    Seqs.Map(VictimPodOf(gpus), handled)
  }

  /** A user whose note can be quoted gets a note and a stop on the victim's pod. */
  lemma VictimActionsShape(gpus: seq<(int, seq<ProcEntry>)>, u: string, timeStr: string)
    requires u in AllUsers(gpus) && '\'' !in KillNote(Victim(gpus, u))
    ensures PairsFor(VictimActions(gpus, u, timeStr), [Victim(gpus, u).pod])
  {
    var v := Victim(gpus, u);
    var cmd := LeaveInfoCommand(KillNote(v), timeStr, "critical");
    assert cmd.Ok?;
    assert VictimActions(gpus, u, timeStr) == [Note(v.pod, cmd.value), Stop(v.pod)];
    assert [v.pod][0] == v.pod;
  }

  /** Every handled user leads to exactly two actions, on the victim's pod, note first. */
  lemma {:induction false} PlanShape(gpus: seq<(int, seq<ProcEntry>)>, handled: seq<string>, clock: nat -> string)
    requires forall u :: u in handled ==> u in AllUsers(gpus) && '\'' !in KillNote(Victim(gpus, u))
    ensures PairsFor(Plan(gpus, handled, clock), VictimPods(gpus, handled))
    decreases |handled|
  {
    if handled != [] {
      var init, u := handled[..|handled| - 1], handled[|handled| - 1];
      assert forall w :: w in init ==> w in handled;
      PlanShape(gpus, init, clock);
      VictimActionsShape(gpus, u, clock(|init|));
      PairsSnoc(Plan(gpus, init, clock), VictimPods(gpus, init), VictimActions(gpus, u, clock(|init|)),
                Victim(gpus, u).pod);
      VictimPodsSnoc(gpus, handled);
    }
  }

  lemma VictimPodsSnoc(gpus: seq<(int, seq<ProcEntry>)>, handled: seq<string>)
    requires handled != []
    ensures VictimPods(gpus, handled) ==
      VictimPods(gpus, handled[..|handled| - 1]) + [VictimPod(gpus, handled[|handled| - 1])]
  {
    var init, last := handled[..|handled| - 1], handled[|handled| - 1];
    assert handled == init + [last];
    Seqs.MapAppend(VictimPodOf(gpus), init, [last]);
    assert Seqs.Map(VictimPodOf(gpus), [last])[0] == VictimPod(gpus, last);
  }

  /** Handling one more user appends its note, written at the clock reading
      of that note, and its stop. */
  lemma PlanSnoc(gpus: seq<(int, seq<ProcEntry>)>, handled: seq<string>, u: string, clock: nat -> string)
    requires forall w :: w in handled ==> w in AllUsers(gpus)
    requires u in AllUsers(gpus) && '\'' !in KillNote(Victim(gpus, u))
    ensures forall w :: w in handled + [u] ==> w in AllUsers(gpus)
    ensures Plan(gpus, handled + [u], clock) == Plan(gpus, handled, clock)
      + [Note(Victim(gpus, u).pod,
              LeaveInfoCommand(KillNote(Victim(gpus, u)), clock(|handled|), "critical").value),
         Stop(Victim(gpus, u).pod)]
  {
    assert (handled + [u])[..|handled|] == handled;
  }

  /** `u` has processes, and the note about its victim can be quoted. */
  predicate Quotable(gpus: seq<(int, seq<ProcEntry>)>, u: string)
  {
    u in AllUsers(gpus) && '\'' !in KillNote(Victim(gpus, u))
  }

  /** One run of `task_check_gpu_usage` over the answer of `gpu_status_impl`.
      Users are visited in an order the model leaves open. A note the shell
      cannot quote raises, which ends the run. The `i`-th note is written at
      the clock reading `clock(i)`. */
  method TaskCheckGpuUsage(gpus: seq<(int, seq<ProcEntry>)>, userId: string -> int,
                           gpuQuota: string -> int, clock: nat -> string)
    returns (actions: seq<Action>, handled: seq<string>, r: Result<()>)
    ensures forall u :: u in handled ==> u in Offenders(gpus, userId, gpuQuota)
    ensures Seqs.Distinct(handled)
    ensures forall u :: u in handled ==> Quotable(gpus, u)
    ensures forall u :: u in handled ==> u in AllUsers(gpus)
    ensures actions == Plan(gpus, handled, clock)
    ensures r.Ok? ==> forall u :: u in Offenders(gpus, userId, gpuQuota) ==> u in handled
    ensures r.Err? ==> (r.error == AssertionError("Single quote is not allowed in info")
      && exists u :: u in Offenders(gpus, userId, gpuQuota) && u !in handled && '\'' in KillNote(Victim(gpus, u)))
  {
    var counts, procs := GroupByUser(gpus);
    actions := [];
    handled := [];
    var left := counts.Keys;
    while left != {}
      invariant left <= counts.Keys
      invariant forall u :: u in handled ==> u in Offenders(gpus, userId, gpuQuota) && u !in left
      invariant Seqs.Distinct(handled)
      invariant forall u :: u in handled ==> Quotable(gpus, u)
      invariant forall u :: u in handled ==> u in AllUsers(gpus)
      invariant actions == Plan(gpus, handled, clock)
      invariant forall u :: u in counts.Keys - left && u in Offenders(gpus, userId, gpuQuota) ==> u in handled
      decreases left
    {
      var u :| u in left;
      left := left - {u};
      if userId(u) != 0 && OverQuota(counts[u], gpuQuota(u)) {
        assert u in Offenders(gpus, userId, gpuQuota);
        var k := SelectVictim(procs[u]);
        var p := procs[u][k];
        assert p == Victim(gpus, u);
        var cmd := LeaveInfoCommand(KillNote(p), clock(|handled|), "critical");
        if cmd.Err? {
          assert u !in handled && '\'' in KillNote(Victim(gpus, u));
          return actions, handled, Err(cmd.error);
        }
        assert Quotable(gpus, u);
        Seqs.DistinctSnoc(handled, u);
        PlanSnoc(gpus, handled, u, clock);
        actions := actions + [Note(p.pod, cmd.value), Stop(p.pod)];
        handled := handled + [u];
      } else {
        assert u !in Offenders(gpus, userId, gpuQuota);
      }
    }
    r := Ok(());
  }

  /** A negative quota is never enforced, and a user on no more GPUs than the quota is left alone. */
  lemma WithinQuotaUntouched(gpus: seq<(int, seq<ProcEntry>)>, userId: string -> int,
                             gpuQuota: string -> int, u: string)
    requires gpuQuota(u) < 0 || GpuCount(gpus, u) <= gpuQuota(u)
    ensures u !in Offenders(gpus, userId, gpuQuota)
  {}

  // ---------------------------------------------------------------------
  // the worker loop

  /** How one run of the task ends. `Interrupted` is KeyboardInterrupt, which
      is not an `Exception` and so is never caught. */
  datatype CycleOutcome = Completed | Failed(error: Error) | Interrupted

  datatype WorkerEvent = LoggedFailure(msg: string) | Slept(seconds: int)

  /** The events of one cycle that does not end the worker. */
  function CycleEvents(o: CycleOutcome): seq<WorkerEvent>
  {
    match o
    case Completed => [Slept(60)]
    case Failed(e) => [LoggedFailure("Daemon task failed: " + e.msg), Slept(60)]
    case Interrupted => []
  }

  /** The events of the worker over the first cycles, and whether it was interrupted. */
  function WorkerRun(outcomes: seq<CycleOutcome>): (r: (seq<WorkerEvent>, bool))
    ensures r.1 <==> Interrupted in outcomes
    ensures |r.0| <= 2 * |outcomes|
  {
    if outcomes == [] then ([], false)
    else
      var (evs, stopped) := WorkerRun(outcomes[..|outcomes| - 1]);
      if stopped then (evs, true)
      else
        var o := outcomes[|outcomes| - 1];
        (evs + CycleEvents(o), o.Interrupted?)
  }

  lemma {:induction false} WorkerRunStopSticks(outcomes: seq<CycleOutcome>, i: nat)
    requires i <= |outcomes| && WorkerRun(outcomes[..i]).1
    ensures WorkerRun(outcomes) == WorkerRun(outcomes[..i])
    decreases |outcomes|
  {
    if i < |outcomes| {
      var init := outcomes[..|outcomes| - 1];
      assert init[..i] == outcomes[..i];
      WorkerRunStopSticks(init, i);
    } else {
      assert outcomes[..i] == outcomes;
    }
  }

  /** `daemon_worker` over a finite run of cycles: every failure is logged
      and the loop sleeps and goes on; an interrupt ends it. */
  method DaemonWorker(outcomes: seq<CycleOutcome>) returns (events: seq<WorkerEvent>, interrupted: bool)
    ensures (events, interrupted) == WorkerRun(outcomes)
  {
    events := [];
    var i := 0;
    while i < |outcomes|
      invariant 0 <= i <= |outcomes|
      invariant WorkerRun(outcomes[..i]) == (events, false)
    {
      assert outcomes[..i + 1][..i] == outcomes[..i];
      if outcomes[i].Interrupted? {
        assert events + CycleEvents(outcomes[i]) == events;
        assert WorkerRun(outcomes[..i + 1]) == (events, true);
        WorkerRunStopSticks(outcomes, i + 1);
        return events, true;
      }
      events := events + CycleEvents(outcomes[i]);
      i := i + 1;
    }
    assert outcomes[..i] == outcomes;
    interrupted := false;
  }

  function SleepCount(evs: seq<WorkerEvent>): nat
  {
    if evs == [] then 0 else SleepCount(evs[..|evs| - 1]) + (if evs[|evs| - 1].Slept? then 1 else 0)
  }

  lemma {:induction false} SleepCountAppend(a: seq<WorkerEvent>, b: seq<WorkerEvent>)
    ensures SleepCount(a + b) == SleepCount(a) + SleepCount(b)
    decreases |b|
  {
    if b != [] {
      assert (a + b)[..|a + b| - 1] == a + b[..|b| - 1];
      SleepCountAppend(a, b[..|b| - 1]);
    } else {
      assert a + b == a;
    }
  }

  /** Without an interrupt the worker sleeps once per cycle, failed or not. */
  lemma {:induction false} WorkerKeepsGoing(outcomes: seq<CycleOutcome>)
    requires forall k :: 0 <= k < |outcomes| ==> !outcomes[k].Interrupted?
    ensures !WorkerRun(outcomes).1
    ensures SleepCount(WorkerRun(outcomes).0) == |outcomes|
    decreases |outcomes|
  {
    if outcomes != [] {
      var init := outcomes[..|outcomes| - 1];
      WorkerKeepsGoing(init);
      var o := outcomes[|outcomes| - 1];
      SleepCountAppend(WorkerRun(init).0, CycleEvents(o));
      var c := CycleEvents(o);
      if o.Completed? {
        assert c[..0] == [];
      } else {
        var f := LoggedFailure("Daemon task failed: " + o.error.msg);
        assert c[..1] == [f] && [f][..0] == [];
      }
      assert SleepCount(c) == 1;
    }
  }
}
