# pody, modelled in Dafny

pody is a small multi-tenant GPU pod service. Users own containers ("pods") named
`[prefix-]user-instance` and may see only the sanctioned base images and their own commit
images. A daemon stops one container of any user who occupies more GPUs than their quota.
A command-line client talks to the server.

This project models the decision logic of that service in Dafny and proves what it
promises:

- **Pod names.** `NameParse` models the pod-name splitter and resolver and their ownership
  rules. It also models the image filter.
- **Images.** `RouterImage` models image listing and image deletion.
- **Users.** `Users` models username validation and the user table. The table is a class
  over a map of rows, with transactions that either commit or roll back.
- **Configuration.** `PodyConfig` models the configuration record and its `available_ports`
  parser.
- **GPU attribution.** Three modules work out which container a GPU process belongs to:
  - `GpuStatus` models the resource router;
  - `ServiceImpl` models the framework-independent implementation;
  - `ResourceMonitor` models the skip-on-error process generators.
- **Quota daemon.** `Daemon` models the quota decision: grouping by user, counting distinct
  GPUs, comparing with the quota, choosing the shortest-running process, and the note left
  before the stop. It also models the catch-log-continue worker loop.
- **Sizes.** `StorageSize` models `8g`-style size parsing and printing.
- **Client and version.** `CliClient` models the client's `key:value` argument parser.
  `Version` models how the version tuple is derived and printed.
- **Container runtime.** `DockerEng` models the runtime layer:
  - shell escaping of executed commands;
  - image names;
  - GPU device requests and reading them back;
  - port and volume spec decoding;
  - the step order of container actions;
  - container inspection;
  - the list of host ports in use.
- **Documentation.** `ApiDocs` models the documentation site's example-command formatters
  (curl, `pody`, `podx`).

Shared helpers follow Python's semantics over ASCII:

- `Strings`: `split`, `join`, `strip`, `isdigit`, `isalnum`, `lower`, `int()` and `str()`;
- `Seqs`: filtering and concatenation;
- `Wrappers`: `Option`, `Result`, and the exceptions the source raises.

Collaborators are parameters of the model:

- the container runtime, the GPU driver and the process table;
- the clock and standard input;
- SHA-256;
- `URLSearchParams`;
- the user and quota lookups the daemon calls.

## Model

| member | source | states |
|---|---|---|
| NameParse.SplitNameComponentRejoins | pody/eng/nparse.py:23-60 | a successful split loses no text (prefix, user and instance rejoin to the name), the instance holds no dash, and strict mode always yields a username |
| NameParse.SplitNameComponent | pody/eng/nparse.py:23-60 | strict success always names a user, with a prefix exactly when one is configured and equal to it; a lenient dash-free name is all instance (partners `SplitNameComponentRejoins`, the round-trip lemmas below) |
| NameParse.StrictRoundTripPrefixed | pody/eng/nparse.py:49-59 | with a non-empty prefix p and dash-free u, i: strict split of `p-u-i` is {p, u, i} |
| NameParse.StrictRoundTripUnprefixed | pody/eng/nparse.py:40-48 | with no prefix configured: strict split of `u-i` is {None, u, i} |
| NameParse.DashFreeName | pody/eng/nparse.py:32-39 | a dash-free name is None in strict mode and {None, None, name} in lenient mode |
| NameParse.SplitShapeRules | pody/eng/nparse.py:40-60 | more than three parts never split; strict two-part names need an unset prefix; strict three-part names need the first part to equal the set prefix |
| NameParse.EvalInvalidInputIff | pody/eng/nparse.py:69-75 | the resolver raises InvalidInput exactly when the lenient split fails |
| NameParse.EvalNameRaise | pody/eng/nparse.py:63-89 | an unsplittable name raises InvalidInput("Invalid pod name: ...") with the name; a non-admin's result always starts with that user's pod prefix (partners the `Eval*` lemmas) |
| NameParse.EvalForeignPrefix | pody/eng/nparse.py:76-77 | a prefix segment other than the configured prefix raises InsufficientPermissions |
| NameParse.EvalNonAdminForeignUser | pody/eng/nparse.py:78-80 | a non-admin naming another user's pod raises InsufficientPermissions |
| NameParse.EvalNonAdminOwnPod | pody/eng/nparse.py:71-81 | a non-admin's successful result is `fmt_name(user.name, instance)` and starts with the user's pod prefix |
| NameParse.EvalAdmin | pody/eng/nparse.py:83-89 | an admin gets the named user's pod, or their own when no user is named |
| NameParse.EvalCanonicalName | pody/eng/nparse.py:63-89 | resolving a canonical pod name returns it unchanged, for its owner and for an admin |
| NameParse.GetUserPodPrefix | pody/eng/nparse.py:91-93 | the prefix is a prefix of every pod name `fmt_name` builds for that user |
| NameParse.FirstMatching | pody/eng/nparse.py:115-119 | the result is the first configured image that matches exactly or as an untagged name; None iff none matches |
| NameParse.ImageFilter.QueryConfig | pody/eng/nparse.py:103-119 | a config is only returned for an image on the runtime list, and outside the user's commit images it is a configured image that matches the query (partner `QueryConfigCases`) |
| NameParse.ImageFilter.Contains | pody/eng/nparse.py:125-127 | an image the filter contains is on the runtime list |
| NameParse.ImageFilter.List | pody/eng/nparse.py:129-133 | no longer than the raw list, and holds exactly the raw images the filter contains (partner `ListIsVisibleSubsequence`) |
| NameParse.ImageFilter.IsUserImage | pody/eng/nparse.py:121-123 | a user image starts with `{commit_name}:{username}`, and that name itself is one (partners `ForeignCommitImage`, `CommitImageVisibility`, `DashFreeOwner`) |
| NameParse.QueryConfigCases | pody/eng/nparse.py:103-119 | None off the runtime list; the commit-image config (with `commit_image_ports`) for the user's own commit images; otherwise Some iff a configured image matches |
| NameParse.ListIsVisibleSubsequence | pody/eng/nparse.py:125-133 | `list()` is an order-preserving subsequence of the raw images and holds exactly the raw images that are the user's commit images or match a configured image, each as often as it occurs in the raw list |
| NameParse.ForeignCommitImage | pody/eng/nparse.py:121-123 | for dash-free users A != B, `commit:B` and `commit:B-x` are not A's images |
| NameParse.CommitImageVisibility | pody/eng/nparse.py:121-133 | `commit:B-x` is listed for user A iff A == B, when no configured image matches it |
| NameParse.DashFreeOwner | pody/eng/nparse.py:122-123 | for dash-free names, `a-` starts `b-x` exactly when a == b |
| RouterImage.ListImages | pody/svc/router_image.py:16-21 | the listing is the user's image filter's `list()`: an order-preserving subsequence of the runtime's images, holding exactly those the filter contains |
| RouterImage.DeleteOutcome | pody/svc/router_image.py:25-40 | success only for a listed image, with the message `Image {image} deleted`; every failure is InvalidInput("Image not found") or PermissionDenied for a non-user image (partner `DeleteOrder`) |
| RouterImage.DeleteOrder | pody/svc/router_image.py:25-40 | an absent image is InvalidInput whoever owns it; a present image that is not the user's commit image is PermissionDenied; success iff present and the user's own commit image |
| RouterImage.ForeignUserImageRefused | pody/svc/router_image.py:31-37 | another dash-free user's commit image, tagged or not, is never deleted |
| RouterImage.ImageStore.DeleteImage | pody/svc/router_image.py:25-40 | returns the outcome above; on error the image list is unchanged; on success exactly the named image is removed and every other image stays |
| Users.ValidateUsernameIff | pody/eng/user.py:12-19 | accepted iff 3 to 20 characters, all alphanumeric; accepted iff the message is empty; the dash/colon rule can never be the one that fails |
| Users.ValidateUsername | pody/eng/user.py:12-19 | accepted iff the message is empty; an accepted name has 3 to 20 alphanumeric characters and no `-` or `:` (partner `ValidateUsernameIff`) |
| Users.CheckUsername | pody/eng/user.py:21-22 | raises exactly when validation fails, and then InvalidUsername carrying the non-empty validation message |
| Users.HashInputSeparates | pody/eng/user.py:9-10 | for colon-free usernames the hashed text `{username}:{password}` determines both the username and the password |
| Users.CheckUsernameMessages | pody/eng/user.py:12-22 | the rules apply in order and `check_username` raises InvalidUsername with the first failing rule's message |
| Users.ValidateUsernameExamples | pody/eng/user.py:12-19 | "ab" is too short, "ab1" is accepted, "_ab" is not alphanumeric |
| Users.ExecStmtKeepsDistinctIds | pody/eng/user.py:40-46 | every statement keeps row ids distinct; an insert takes an id above all others |
| Users.ExecAllErrSticks | pody/eng/user.py:60-74 | once a statement of a transaction fails, the whole transaction fails with that error |
| Users.DeleteIdempotent | pody/eng/user.py:114-119 | deleting leaves the name absent, and deleting twice equals deleting once |
| Users.UpdatedRows | pody/eng/user.py:86-100 | same keys; other rows untouched; the named row keeps its id, and each field changes only when given, a password being stored as its hash |
| Users.UserDatabase.NextRowId | pody/eng/user.py:41 | the id SQLite assigns: one more than the largest id (1 in an empty table), above every stored id |
| Users.UserDatabase.Exec | pody/eng/user.py:79-119 | one statement: applied on success; on error the table is unchanged and the error returned |
| Users.UserDatabase.Transaction | pody/eng/user.py:60-74 | either all statements take effect, or the table is rolled back to its state at BEGIN and the first error re-raised |
| Users.UserDatabase.AddUser | pody/eng/user.py:76-84 | an invalid name is rejected before the table is touched; an existing name violates UNIQUE and leaves the table unchanged; otherwise exactly one row with the hashed password is added; distinct ids are preserved |
| Users.UserDatabase.UpdateUser | pody/eng/user.py:86-100 | an invalid name changes nothing; otherwise one transaction per given field gives exactly `UpdatedRows` |
| Users.UpdatedRowsSteps | pody/eng/user.py:86-100 | setting the password hash, then the pod limit, then the admin flag, each only when given, gives exactly `UpdatedRows` |
| Users.UserDatabase.DeleteUser | pody/eng/user.py:114-119 | the row is removed if present, absent names are a no-op, all other rows are unchanged, and `has_user` is then false |
| Users.UserDatabase.HasUser | pody/eng/user.py:102-105 | true exactly when adding the name again would violate UNIQUE, false exactly when an insert would go through (partners `AddUser`, and `DeleteUser`, after which it is false) |
| Users.UserDatabase.CheckUser | pody/eng/user.py:107-112 | as written: the sentinel `User(0, '', False, 0)` iff no row has the credential; otherwise TypeError |
| Users.CheckUserFoundRaises | pody/eng/user.py:109-112 | the as-written `check_user` raises TypeError for every stored credential |
| Users.UserDatabase.CheckUserIntended | pody/eng/user.py:107-112 | the sentinel when no row matches; otherwise the user of the matching row with the least id |
| PodyConfig.ParsePorts | pody/config.py:29-49 | the append loop then the validation loop compute exactly `ParsePortsSpec` |
| PodyConfig.ParsedEntryPerToken | pody/config.py:31-41 | one entry per comma-separated token, in input order, each the parse of its token |
| PodyConfig.ParsedPortsValid | pody/config.py:43-48 | every accepted range has 0 <= start < end <= 65535 and every single port is within 0..65535 |
| PodyConfig.ParseToken | pody/config.py:33-41 | a parsed range has non-negative ends and a parsed port is non-negative; every failure is ValueError or AssertionError (partners `TokenShape`, `TokenRejections`, `RangeTokenOf`, `SingleTokenOf`) |
| PodyConfig.ParsePortsSpec | pody/config.py:29-49 | every entry of an accepted specification is a valid port or port range (partners `ParsedEntryPerToken`, `ParsedPortsValid`) |
| PodyConfig.TokenShape | pody/config.py:33-41 | a token with a dash becomes a range of its two stripped digit strings, any other a single port of its stripped digits |
| PodyConfig.TokenRejections | pody/config.py:34-40 | a token with more than one dash raises ValueError; a dash-free non-digit token is rejected |
| PodyConfig.EmptySpecRejected | pody/config.py:31-40 | the empty specification is rejected |
| PodyConfig.RangeTokenOf | pody/config.py:33-37 | a printed range `x-y` parses back to (x, y) |
| PodyConfig.SingleTokenOf | pody/config.py:38-41 | a printed port parses back to that port |
| PodyConfig.RangeThenSingle | pody/config.py:29-49 | `x-y,z` with x < y <= 65535 and z <= 65535 parses to [(x, y), z] |
| PodyConfig.ExampleSpec | pody/config.py:29-49 | `"2200-2202,9000"` parses to [(2200, 2202), 9000] |
| PodyConfig.ParseTokensErrSticks | pody/config.py:32-41 | the first token that fails decides the result |
| PodyConfig.FirstInvalidSticks | pody/config.py:43-48 | the first invalid entry decides the result |
| GpuStatus.CgroupLeafIsTail | pody/svc/router_resource.py:20 | the leaf is the text after the last `/` (the whole text when there is none) |
| Strings.LastPieceIsTail | pody/svc/router_resource.py:20 | `s.split(c)[-1]` is a suffix of `s`, preceded by `c` unless it is all of `s` |
| GpuStatus.ContainerIdIff | pody/svc/router_resource.py:19-23 | an id is extracted iff the leaf is `docker-<id>.scope`, and then it is that id |
| GpuStatus.ContainerIdFromCgroup | pody/svc/router_resource.py:19-23 | an extracted id holds no `/` and fits inside the leaf with the `docker-` prefix and `.scope` suffix around it (partner `ContainerIdIff`) |
| GpuStatus.FmtGpuProc | pody/svc/router_resource.py:24-35 | succeeds iff the process query succeeds and, when the cgroup names a non-empty container id, so does the name lookup; then pid and GPU memory come from the GPU process and cmd, uptime and memory used from the process record, and pod is "" without a container id and the looked-up name otherwise; a failed process query or name lookup is raised as is |
| GpuStatus.FmtProcs | pody/svc/router_resource.py:37 | one entry per process, in order, each the formatting of its process; on failure the error is that of the first failing process, every earlier one formatting (partners `ProcsListedCons`, `ProcsFailFirstCons`) |
| GpuStatus.GpuStatusImpl | pody/svc/router_resource.py:36-37 | same GPU keys in the same order, each list the formatting of that GPU's processes; fails iff some GPU's list fails, and then with the error of the first GPU whose list fails |
| GpuStatus.GpuStatusShape | pody/svc/router_resource.py:36-37 | each GPU's list keeps the length and pid order of its processes |
| GpuStatus.ParseGpuIds | pody/svc/router_resource.py:42-45 | every failure is InvalidInput("Invalid GPU ID") |
| GpuStatus.ParseGpuIdsSpec | pody/svc/router_resource.py:42-45 | rejected iff some comma-separated token is not an integer after stripping; otherwise one id per token, in order |
| GpuStatus.ParseGpuIdsOfJoin | pody/svc/router_resource.py:43 | a comma-joined list of integers parses back to those integers |
| GpuStatus.ListConfiguredImagesSpec | pody/svc/router_resource.py:50-54 | an order-preserving subsequence of the raw images, holding exactly those a configured image names exactly, each as often as it occurs in the raw list |
| GpuStatus.ListConfiguredImages | pody/svc/router_resource.py:50-54 | no longer than the raw list, and holds exactly the raw images some configured image names exactly (partner `ListConfiguredImagesSpec`) |
| GpuStatus.ListConfiguredWithinFilter | pody/svc/router_resource.py:50-54 | every image this list shows is also visible through the image filter of pody/eng/nparse.py |
| ServiceImpl.NoContainerNoLookup | pody/svc/impl.py:16 | a process outside any container gives {pid, gpu_memory_used, container: None}, whatever the lookup would answer |
| ServiceImpl.ContainerRecordShape | pody/svc/impl.py:17-25 | a found record loses exactly `ports` and `status`, other keys keep their values; a record lacking either raises KeyError |
| ServiceImpl.EmptyIdIsLookedUp | pody/svc/impl.py:9-16 | a `docker-.scope` leaf yields the empty id, which this implementation looks up |
| ServiceImpl.FmtGpuProcImpl | pody/svc/impl.py:14-25 | pid and GPU memory come from the process; only a process with a container id can fail; a found container record is the looked-up one without `ports` and `status` (partners `NoContainerNoLookup`, `ContainerRecordShape`) |
| ServiceImpl.ImplProcs | pody/svc/impl.py:27 | one entry per process with the same pid, in order, each the formatting of its process; on failure the error of the first failing process, every earlier one formatting |
| ServiceImpl.ImplGpuStatus | pody/svc/impl.py:26-27 | same GPU keys in the same order, each list the formatting of that GPU's processes and as long as its input; on failure the error of the first GPU whose list fails |
| ResourceMonitor.QueryProcess | pody/eng/resmon.py:25-43 | ProcessNotFound("Process {pid} not found") iff the pid is absent; otherwise the record carries the pid, the space-joined command line, its cgroup, uptime = now - create time, cputime = user + system time and memory used = resident set size |
| ResourceMonitor.ProcStep | pody/eng/resmon.py:86-100 | at most one event per process; anything yielded passed the filter, has a truthy container name from the lookup and the queried process record; errors are logged against that pid |
| ResourceMonitor.ProcStepYields | pody/eng/resmon.py:86-97 | a process with a named container, a live record and filter approval is yielded |
| ResourceMonitor.GpuProcsEvents | pody/eng/resmon.py:85-100 | no more events than processes; every yielded item passed the filter and carries one of the GPU's processes with its resolved name |
| ResourceMonitor.GpusEvents | pody/eng/resmon.py:84-100 | every yielded item passed the filter and carries a process listed on some GPU |
| ResourceMonitor.GpusEventsAppend | pody/eng/resmon.py:84-85 | items come in GPU-map order, then per-GPU process order |
| ResourceMonitor.GpuProcsEventsComplete | pody/eng/resmon.py:86-100 | a failing or rejected process removes only its own item: every accepted process is yielded |
| ResourceMonitor.DefaultFilterYields | pody/eng/resmon.py:59 | with the default filter every process with a named container and a live record is yielded |
| ResourceMonitor.DockerGpuProcIterRaises | pody/eng/resmon.py:83 | the generator raises exactly when listing the GPU processes raises, with that error |
| ResourceMonitor.DockerGpuProcIter | pody/eng/resmon.py:82-100 | raises exactly when listing the GPU processes raises, with that error; otherwise every yielded item passed the filter, has a non-empty container name and carries a process listed on some GPU |
| ResourceMonitor.DockerProcIter | pody/eng/resmon.py:65-80 | no more events than pids; every yielded item passed the filter, has `gproc = None` and the name and record of one of the pids (partner `DockerProcIterComplete`) |
| ResourceMonitor.DockerProcIterComplete | pody/eng/resmon.py:65-80 | the same skip rules as the GPU walk: a failing or rejected pid removes only its own item, and every pid with a named container, a live record and filter approval is yielded |
| Daemon.UsersInMeaning | pody/svc/daemon.py:28-32 | a user is noted for a GPU iff one of its processes runs in a pod (non-empty) whose first dash field is that user |
| Daemon.ProcsOfOwned | pody/svc/daemon.py:28-33 | every process listed for a user runs in one of that user's pods |
| Daemon.GpuProcsOfOwned | pody/svc/daemon.py:25-33 | the same, over all GPUs |
| Daemon.GpuCount | pody/svc/daemon.py:25-35 | a user's count is at most the number of GPUs, and positive iff the user has a process on some GPU |
| Daemon.GpuCountAtMostProcs | pody/svc/daemon.py:25-35 | the count is of GPUs, never more than the user's processes |
| Daemon.OneGpuCountsOnce | pody/svc/daemon.py:26-35 | two processes of one user on one GPU count once and are both listed, in order |
| Daemon.AppendProcsMeaning | pody/svc/daemon.py:28-33 | appending adds exactly the users of the GPU as keys and gives each its old list followed by its processes, in order |
| Daemon.AddGpuProcs | pody/svc/daemon.py:26-33 | the inner loop notes exactly the GPU's users and appends each pod process to its user's list; host processes are skipped |
| Daemon.CountGpuUsers | pody/svc/daemon.py:34-35 | each user of the GPU gets one more, other counts unchanged |
| Daemon.GroupByUser | pody/svc/daemon.py:25-35 | both dictionaries have exactly the users with a GPU process; counts are distinct-GPU counts; lists are the processes in GPU order, then process order |
| Daemon.GroupedSnoc | pody/svc/daemon.py:25-35 | counting and appending one more GPU's processes extends the per-user counts and lists of the GPUs before it to those including it |
| Daemon.FirstMinIndex | pody/svc/daemon.py:45-46 | the position has the least uptime, and every earlier process has a strictly larger one (a stable sort's head) |
| Daemon.FirstMinUnique | pody/svc/daemon.py:45-46 | only one position has both properties |
| Daemon.SelectVictim | pody/svc/daemon.py:45-46 | the loop finds exactly that first minimum |
| Daemon.LeaveInfoQuoting | pody/svc/daemon.py:10-15 | the note command exists iff the note holds no single quote, and then its only single quotes are the two around the verbatim note |
| Daemon.LeaveInfoCommand | pody/svc/daemon.py:10-15 | the command exists iff the note holds no single quote, and then starts with `mkdir -p` of the log directory and `echo '`; otherwise AssertionError (partner `LeaveInfoQuoting`) |
| Daemon.PlanShape | pody/svc/daemon.py:45-52 | each handled user yields exactly two actions on the victim's pod: the note, then the stop |
| Daemon.PlanSnoc | pody/svc/daemon.py:45-52 | handling one more user appends its note, written with the clock reading of that note, and its stop |
| Daemon.Plan | pody/svc/daemon.py:45-52 | at most two actions per handled user, each on the pod of some handled user's victim process; the i-th note uses the i-th clock reading (partners `PlanShape`, `PlanSnoc`) |
| Daemon.TaskCheckGpuUsage | pody/svc/daemon.py:17-52 | handled users are distinct offenders (registered, quota >= 0, GPU count > quota); the actions are their notes and stops, each note stamped with the clock reading of its own `leave_info` call; a normal run handles every offender; a quote in a note raises that assertion and stops the run |
| Daemon.WithinQuotaUntouched | pody/svc/daemon.py:41-42 | a negative quota is never enforced and a user within quota is left alone |
| Daemon.DaemonWorker | pody/svc/daemon.py:54-62 | the loop's events are exactly `WorkerRun`: each failure is logged, every cycle sleeps 60 s, an interrupt ends it |
| Daemon.WorkerRun | pody/svc/daemon.py:54-62 | the run stops iff some cycle is interrupted, with at most two events per cycle (partners `WorkerRunStopSticks`, `WorkerKeepsGoing`) |
| Daemon.WorkerRunStopSticks | pody/svc/daemon.py:58-60 | nothing happens after an interrupt |
| Daemon.WorkerKeepsGoing | pody/svc/daemon.py:54-62 | without an interrupt the worker never stops and sleeps once per cycle, failed or not |
| Daemon.SleepCountAppend | pody/svc/daemon.py:62 | sleeps of consecutive runs add up |
| StorageSize.ParseTrailingDigit | pody/eng/utils.py:8-9 | a string ending in a digit parses as a plain integer |
| StorageSize.ParseStorageSize | pody/eng/utils.py:6-17 | the empty string is rejected; success needs a last character that is a digit or a unit letter (partners `ParseBadSuffix`, `ParseWithUnit`, `FormatParseFloor`) |
| StorageSize.FormatStorageSize | pody/eng/utils.py:19-30 | at least two characters ending in one of B, K, M, G, T, and in B exactly below 1 KiB (partners `ShownNumberRange`, `FormatParseFloor`) |
| StorageSize.UnitLetters | pody/eng/utils.py:10-16 | b/k/m/g/t in either case multiply by 1, 1024, 1024^2, 1024^3 and 1024^4, and are the only unit letters |
| StorageSize.ParseWithUnit | pody/eng/utils.py:10-16 | digits followed by a unit letter give the digits' value times the unit |
| StorageSize.ParseBadSuffix | pody/eng/utils.py:17 | "Invalid file size string" is raised exactly for a last character that is neither a digit nor a unit letter |
| StorageSize.ShownUnit | pody/eng/utils.py:22-30 | the unit divisor is at least 1; bytes exactly below 1 KiB; from 1 KiB on the divisor is at most the size and, below tebibytes, more than a 1024th of it |
| StorageSize.ShownNumberRange | pody/eng/utils.py:22-30 | below 1 KiB the text is `{size}B`; above it the shown number is at least 1, and below 1024 except in tebibytes |
| StorageSize.ParseShown | pody/eng/utils.py:6-17 | a whole number followed by a unit letter parses to that number times the unit |
| StorageSize.FormatParseFloor | pody/eng/utils.py:6-30 | formatting with precision 0 and parsing back floors to a whole number of the shown unit, losing less than one unit |
| StorageSize.ExactWhenWhole | pody/eng/utils.py:6-30 | a size that is a whole number of its shown unit survives the round trip |
| StorageSize.RoundTripWholeUnits | pody/eng/utils.py:6-30 | n * 1024^k survives the round trip for 0 <= n < 1024 and k <= 4 |
| CliClient.InferSepFirst | pody/cli/client.py:52-56 | no separator iff the word has neither `:` nor `=`; otherwise the one present, or whichever comes first |
| CliClient.InferSep | pody/cli/client.py:52-56 | no separator iff the word has neither `:` nor `=`; otherwise one of the two that the word holds (partner `InferSepFirst`) |
| CliClient.SplitArgParts | pody/cli/client.py:64-65 | the key is the text before the first separator, the value all text after it, and key + sep + value rebuilds the word |
| CliClient.ParseParamVaArgs | pody/cli/client.py:51-70 | the loop computes exactly `ParseParams` |
| CliClient.ParseParams | pody/cli/client.py:58-70 | None gives {}; otherwise the arguments parse iff each of them does (partners `ParamsOkIff`, `ParamsKeys`, `LastWins`) |
| CliClient.ParamsFailAt | pody/cli/client.py:60-68 | an argument that fails ends the whole parse with its own error |
| CliClient.ParamsOkAt | pody/cli/client.py:60-69 | an argument that parses stores its key and value over the dictionary so far |
| CliClient.ParamsOkIff | pody/cli/client.py:60-69 | the arguments parse iff every one of them does |
| CliClient.NoSeparatorRejected | pody/cli/client.py:62-63 | a word with neither separator makes the whole call fail |
| CliClient.EmptyValueOnlyLast | pody/cli/client.py:66-67 | an empty value on any argument but the last makes the call fail |
| CliClient.NoArgsNoParams | pody/cli/client.py:59 | None or an empty list gives {} |
| CliClient.ParamsKeys | pody/cli/client.py:69 | the keys of the result are exactly the arguments' keys |
| CliClient.LastWins | pody/cli/client.py:69 | each key holds the value of the last argument that names it |
| CliClient.ParamsErrSticks | pody/cli/client.py:60-68 | the first failing argument decides the error |
| Version.ParseVersionKey | pody/version.py:11 | one component per dot-separated segment; fails iff some segment is not an integer |
| Version.FmtVersionRoundTrip | pody/cli/client.py:178-179 | reading back a non-empty version tuple printed by `fmt_version` gives the tuple |
| CliClient.FmtVersion | pody/cli/client.py:178-179 | a non-empty version prints as dot-separated pieces, one decimal text per component (partner `FmtVersionRoundTrip`) |
| Version.VersionOf | pody/version.py:11 | an empty history raises IndexError; otherwise the last key is read, and a success reads as one integer per dot-separated segment of it (partner `CurrentVersion`) |
| Version.CurrentVersion | pody/version.py:2-11 | the last history key gives (0, 1, 10) |
| Version.CurrentVersionText | pody/cli/client.py:178-179 | `fmt_version((0, 1, 10))` is "0.1.10" |
| DockerEng.BashCommand | pody/eng/docker.py:180 | the command starts with `/bin/bash -c "` and ends with `"` |
| DockerEng.EscapeRoundTrip | pody/eng/docker.py:178-179 | undoing the quote step, then the backslash step, recovers the command |
| DockerEng.EscapeCommand | pody/eng/docker.py:178-179 | undoing the quote step, then the backslash step, recovers the command (partners `ReadEscaped`, `BashCommandArgument`) |
| DockerEng.UndoEscapeQuotes | pody/eng/docker.py:179 | the quote step is undone by its inverse |
| DockerEng.UndoEscapeBackslashes | pody/eng/docker.py:179 | the backslash step is undone by its inverse |
| DockerEng.ReadEscaped | pody/eng/docker.py:178-180 | a double-quoted word holding the escaped command reads back, with `\\` and `\"`, as the command, with the rest untouched |
| DockerEng.BashCommandArgument | pody/eng/docker.py:180 | the argument after `/bin/bash -c ` reads back as exactly the original command |
| DockerEng.ImageName | pody/eng/docker.py:41-43 | the name is one of the image's tags or its short id; the first tag when there is one; never empty when the tags and the id are not |
| DockerEng.ListDockerImages | pody/eng/docker.py:160-163 | one name per image, in order |
| DockerEng.GpuRequests | pody/eng/docker.py:49-65 | one nvidia request with the three capabilities; no ids gives count -1 and no device ids; ids give the ids as strings and no count (partners `GpuIdsRoundTrip`, `AllGpusRoundTrip`) |
| DockerEng.InspectGpuIdsCases | pody/eng/docker.py:116-121 | no device requests raises; an empty list raises IndexError; a first request without ids gives None; otherwise the ids parsed as ints |
| DockerEng.InspectGpuIds | pody/eng/docker.py:116-121 | no device requests or an empty list raises; a list of ids returned reads as the first request's device ids (partners `InspectGpuIdsCases`, `GpuIdsRoundTrip`) |
| DockerEng.GpuIdsRoundTrip | pody/eng/docker.py:49-56 | the ids a container was created with are read back by inspection |
| DockerEng.AllGpusRoundTrip | pody/eng/docker.py:49-65 | a container created with all GPUs (no ids) is inspected as having no GPU ids (None) |
| DockerEng.BuildDictOk | pody/eng/docker.py:70-71 | a dict comprehension succeeds iff every entry does, and fails with the first failing entry's error |
| DockerEng.BuildDictLastWins | pody/eng/docker.py:70-71 | each key holds the value of the last entry with that key |
| DockerEng.BuildDictKeys | pody/eng/docker.py:70-71 | the keys are exactly the entries' keys |
| DockerEng.PortSpecs | pody/eng/docker.py:71 | port specs decode iff each has a `:`; `host:container` maps container to host |
| DockerEng.PortBindings | pody/eng/docker.py:71 | the port mapping succeeds iff every spec holds a `:` |
| DockerEng.Volumes | pody/eng/docker.py:70 | corrected reading: the volume mapping succeeds iff every spec holds a `:` |
| DockerEng.VolumesAsWritten | pody/eng/docker.py:70 | as written: succeeds iff every spec has at least two fields and a spec longer than 2 characters has at least three (partner `TwoFieldVolumeRaises`) |
| DockerEng.VolumeSpecs | pody/eng/docker.py:70 | corrected reading: `h:b` binds read-only, `h:b:m` with mode m; fails iff there is no `:` |
| DockerEng.TwoFieldVolumeRaises | pody/eng/docker.py:70 | as written, a two-field spec longer than 2 characters raises IndexError for the entry and the whole mapping |
| DockerEng.VolumeReadingsDiffer | pody/eng/docker.py:70 | the two readings differ on every two-field spec longer than 2 characters, and agree where the length guard and the field count agree |
| DockerEng.ActionOrder | pody/eng/docker.py:98-112 | the before-command runs first; the action runs exactly once; the after-command runs last and only for non-DELETE actions |
| DockerEng.ActionOps | pody/eng/docker.py:98-112 | one to three steps, the action among them and every other step an exec; DELETE ends with the deletion (partner `ActionOrder`) |
| DockerEng.Container.Act | pody/eng/docker.py:99-112 | the container's operations grow by exactly those steps; DELETE returns `Container {container_name} deleted` with the lookup argument, the others the logs |
| DockerEng.ContainerActionByName | pody/eng/docker.py:91-112 | an unknown name raises ContainerNotFound and touches no container; otherwise only the container found acts, and DELETE answers `Container {name} deleted` with the name as passed (an id or id prefix stays as given) |
| DockerEng.PutLookup | pody/eng/docker.py:128 | a dict store makes the key hold the value and leaves other keys alone |
| DockerEng.PutShape | pody/eng/docker.py:128 | a new key is appended at the end; an existing key keeps its position |
| DockerEng.PutDistinct | pody/eng/docker.py:128 | stores keep keys distinct |
| DockerEng.PutAllLast | pody/eng/docker.py:125-128 | after the loop each key holds its last stored value |
| DockerEng.PortMappings | pody/eng/docker.py:123-134 | the loop builds the `host:container` texts of the dict the port table fills |
| DockerEng.PortMappingsMeaning | pody/eng/docker.py:123-134 | each host port maps to the last container port bound to it; distinct keys; unbound host ports are absent |
| DockerEng.HostPairsNoProtocol | pody/eng/docker.py:128 | the `/proto` suffix is stripped from every container port |
| DockerEng.PortMappingOfBinding | pody/eng/docker.py:123-134 | a container port `c/tcp` bound to host h is shown as `h:c` |
| DockerEng.ShownName | pody/eng/docker.py:131 | the name, else the id, else "unknown"; never empty |
| DockerEng.MemoryLimit | pody/eng/docker.py:136 | -1 when no memory is configured (the entry is 0 or null), the configured memory otherwise; the value is never 0 |
| DockerEng.InspectContainer | pody/eng/docker.py:114-138 | a GPU-id error propagates; otherwise the record holds the shown name, status, image, port mappings, GPU ids and memory limit |
| DockerEng.GetDockerUsedPorts | pody/eng/docker.py:165-174 | the triple loop gives the ints of all host ports, container by container, in order, or the first conversion error |
| DockerEng.IntsPrefixErr | pody/eng/docker.py:173 | the first port that is not an integer decides the error |
| ApiDocs.FmtCurlCmd | docs/api_data.ts:5-13 | the loop builds exactly `CurlCommand` |
| ApiDocs.CurlCommand | docs/api_data.ts:5-13 | starts with the base command and ends with `"`; with params, `?` follows the base (partners `CurlWithoutParams`, `CurlWithParams`) |
| ApiDocs.CurlCommandJoined | docs/api_data.ts:9-11 | the `&`-joined variant keeps the same shape: base, then `?` when there are params, closing `"` (partner `JoinedQueryFields`) |
| ApiDocs.CurlWithoutParams | docs/api_data.ts:5-13 | no params gives the base command closed by `"`, with no `?` when the method and URL have none |
| ApiDocs.CurlWithParams | docs/api_data.ts:5-13 | with params, the base, `?`, the encoded pieces in order, then `"` |
| ApiDocs.ExecExampleRunsTogether | docs/api_data.ts:9-11 | as written, the documented exec example {ins: "myins", cmd: "pwd"} gives the query "ins=myinscmd=pwd" |
| ApiDocs.QueryIsOneField | docs/api_data.ts:9-11 | as written, the query holds no `&`, so it is a single form field whatever the params |
| ApiDocs.JoinedQueryFields | docs/api_data.ts:9-11 | joined with `&`, the query splits back into one field per param, each its encoding |
| ApiDocs.EncodedPiecesSnoc | docs/api_data.ts:9-11 | each loop step appends that param's encoding |
| ApiDocs.ShownParamCases | docs/api_data.ts:19 | a safe value is shown verbatim (and has no space or quote); any other, the empty string included, in double quotes |
| ApiDocs.AppendParamWords | docs/api_data.ts:18-21 | the loop appends ` key:value` words in param order |
| ApiDocs.ParamWordsAt | docs/api_data.ts:18-21 | param k's word sits between the words of the params before and after it |
| ApiDocs.FmtPodyCmd | docs/api_data.ts:15-23 | `pody `, the lower-cased method, the URL without its first character, then the param words |
| ApiDocs.FmtPodxCmd | docs/api_data.ts:25-33 | `podx `, the URL without its first character, then the param words; the method is ignored |

## Left out

- The HTTP layer is not modelled: FastAPI routing, middleware, the exception-to-status wrapper, the HTTP client, and the typer/rich CLI glue (`fetch_impl`, `help`, `manual`, `fmt_unit`).
- The container runtime, the GPU driver (`list_processes_on_gpus`), psutil and `/proc` are parameters, as are the clock and standard input. Their own behaviour is outside the model. The daemon's clock is a function from the note's position in the run to the time text, so every `leave_info` call has its own reading.
- `check_container` and `list_docker_containers` are thin runtime calls and are not modelled.
- `create_container`'s runtime call and its logs are not modelled; only its request-building part is. How the runtime stores a `count=-1` request is outside the model.
- `exec_container_bash` is not modelled: its worker process, queue, timeout and terminate belong to concurrency. So is `start_daemon`'s multiprocessing.
- The daemon's `client.containers.get(pod).stop()` is an action in the plan. Its own failures and the final logger line are not modelled.
- pody/svc/router_host.py, from which the daemon imports `gpu_status_impl`, is not part of this model. The daemon consumes the record shape of the resource router (`pod`, `pid`, `cmd`, `uptime`).
- ServiceImpl models what pody/svc/impl.py evidently intends, not what it does. As written the file cannot work.
  - The `GPUProcess` record (pody/eng/gpu.py:5-8) has only `pid` and `gpu_memory_used`. So `gpu_proc.cgoup` at pody/svc/impl.py:15 raises AttributeError for the first process on any GPU.
  - `query_container_by_id`, imported at pody/svc/impl.py:5, is not defined in pody/eng/docker.py. The import itself fails.
  - The cgroup text of `CgroupGpuProcess.cgroup` is therefore an invented input, and the container lookup is a parameter standing for the missing function.
- GpuStatus also imports the missing `query_container_by_id` (pody/svc/router_resource.py:10). Its `containerName` parameter stands for `query_container_by_id(client, id)["name"]`.
- DockerEng.MemoryLimit: the `None` input stands for a JSON null `Memory` entry. A missing `Memory` key raises KeyError in the source, which the model does not cover.
- `hash_password` is a parameter `sha`, standing for SHA-256 of FIPS 180-4. `URLSearchParams` is an uninterpreted encoder (the form serializer of section 5.2 of the WHATWG URL Standard).
- The user and quota lookups (`get_user`, `check_user_quota`) are function parameters. Their storage is not shown and is not modelled.
- SQLite is abstracted to a map from username to row. Id assignment is max + 1. Cursors and `close` are left out.
- Users.UserDatabase.CheckUser: models the code as written, which raises for a found row. The intended lookup is Users.UserDatabase.CheckUserIntended (see Findings).
- Process uptime and CPU time are floats in the source; the model uses integers, since only comparisons and differences are used.
- Daemon.SelectVictim: models `sort(key=uptime)[0]` by its result, the first process with the least uptime. The sorted list itself is not built.
- Daemon.TaskCheckGpuUsage: users are visited in an order the model leaves open (Python's dict order is insertion order). The contract holds for every order.
- Python dict order is modelled as a sequence of pairs where it is observable (the GPU map, the inspect port dict). Elsewhere it is a `map`.
- The JavaScript `for...in` order (integer-like keys first) is taken to be the order of the given params.
- `isdigit`, `isalnum`, `lower`/`toLowerCase` and `int()` are modelled over ASCII. Unicode digits and letters, and `int()`'s underscores, are not covered.
- The `int()` error message is approximated with single quotes around the text, standing for `repr`.
- StorageSize.FormatStorageSize: only `precision=0` is modelled. Other precisions use floating-point formatting.
- DockerEng.ContainerActionByName: the `case _` ValueError cannot happen with an enumerated action type.
- DockerEng.ReadQuoted: covers only the `\\` and `\"` escapes of the runtime's command-line splitting, which are the only ones the escaping produces.
- The TOML loading and default-file creation of `config()` are not modelled; only `parse_ports` and the configuration record are.
- `commit_name` and `commit_image_ports`, read by the image filter but absent from the configuration record, are extra parameters.

## Findings

| source | as written | input that shows it | evidently intended | confidence | as-written member | corrected member |
|---|---|---|---|---|---|---|
| pody/eng/user.py:107-112 | `check_user` selects only the `id` column and then builds `User(*res)` from that one-column row | any credential stored in the table | return the stored user whose credential matches | high, not executed | Users.UserDatabase.CheckUser, Users.CheckUserFoundRaises | Users.UserDatabase.CheckUserIntended |
| pody/eng/docker.py:70 | the mode falls back to `ro` when `len(vol) > 2` is false, i.e. on the string's length, not the number of fields | `/host/path:/container/path`, the form documented at pody/eng/docker.py:20, raises IndexError | fall back to `ro` when the spec has only two fields | high, not executed | DockerEng.VolumeEntryAsWritten, DockerEng.TwoFieldVolumeRaises | DockerEng.VolumeEntry, DockerEng.VolumeSpecs |
| docs/api_data.ts:9-11 | each param's encoding is appended with no `&` between params | the exec example at docs/api_data.ts:199, {ins: "myins", cmd: "pwd"}, gives `?ins=myinscmd=pwd` | join the encoded params with `&` | high, not executed | ApiDocs.ExecExampleRunsTogether, ApiDocs.QueryIsOneField | ApiDocs.CurlCommandJoined, ApiDocs.JoinedQueryFields |
