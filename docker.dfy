/** The container-runtime layer: the command line a shell command is run
    with, image names, the GPU, port and volume arguments of container
    creation, the steps of a container action, and the fields read back when
    a container is inspected. The runtime itself is a collaborator: what it
    answers comes in as parameters, what it is asked to do is recorded. */
module DockerEng {
  import opened Wrappers
  import opened Strings
  import Seqs

  // ---------------------------------------------------------------------
  // the command run inside a container

  /** `command.replace('\\', '\\\\')`: every backslash doubled. */
  function EscapeBackslashes(s: string): string
  {
    if s == [] then [] else (if s[0] == '\\' then "\\\\" else [s[0]]) + EscapeBackslashes(s[1..])
  }

  /** `.replace('"', '\\"')`: a backslash put before every double quote. */
  function EscapeQuotes(s: string): string
  {
    if s == [] then [] else (if s[0] == '"' then "\\\"" else [s[0]]) + EscapeQuotes(s[1..])
  }

  /** What one command character becomes once both steps have run. */
  function EscapeChar(c: char): string
  {
    if c == '\\' then "\\\\" else if c == '"' then "\\\"" else [c]
  }

  /** `escape_command`: backslashes first, then quotes. */
  function EscapeCommand(command: string): (r: string)
    ensures UndoBackslashes(UndoQuotes(r)) == command
  {
    UndoEscapeQuotes(EscapeBackslashes(command));
    UndoEscapeBackslashes(command);
    EscapeQuotes(EscapeBackslashes(command))
  }

  const BashPrefix := "/bin/bash -c \""

  /** The command line handed to the runtime: the escaped command as the
      double-quoted argument of `/bin/bash -c`. */
  function BashCommand(command: string): (cmd: string)
    ensures BashPrefix <= cmd && cmd[|cmd| - 1] == '"'
  {
    BashPrefix + EscapeCommand(command) + "\""
  }

  /** Undoing the second step: every `\"` becomes `"`, read from the left. */
  function UndoQuotes(t: string): string
    decreases |t|
  {
    if t == [] then []
    else if |t| >= 2 && t[0] == '\\' && t[1] == '"' then "\"" + UndoQuotes(t[2..])
    else [t[0]] + UndoQuotes(t[1..])
  }

  /** Undoing the first step: every `\\` becomes `\`, read from the left. */
  function UndoBackslashes(t: string): string
    decreases |t|
  {
    if t == [] then []
    else if |t| >= 2 && t[0] == '\\' && t[1] == '\\' then "\\" + UndoBackslashes(t[2..])
    else [t[0]] + UndoBackslashes(t[1..])
  }

  /** How a command-line splitter reads a double-quoted word: `\\` and `\"`
      each stand for their second character, any other character for itself,
      and the first bare `"` closes the word. The result is the word and the
      text after the closing quote; None when the quote is never closed. */
  function ReadQuoted(t: string): Option<(string, string)>
    decreases |t|
  {
    if t == [] then None
    else if t[0] == '"' then Some(("", t[1..]))
    else if |t| >= 2 && t[0] == '\\' && (t[1] == '"' || t[1] == '\\') then
      match ReadQuoted(t[2..])
      case None => None
      case Some(p) => Some(([t[1]] + p.0, p.1))
    else
      match ReadQuoted(t[1..])
      case None => None
      case Some(p) => Some(([t[0]] + p.0, p.1))
  }

  /** The quote-escaped text never begins with a double quote. */
  lemma EscapeQuotesHead(s: string)
    ensures EscapeQuotes(s) == [] || EscapeQuotes(s)[0] != '"'
  {}

  lemma {:induction false} UndoEscapeQuotes(s: string)
    ensures UndoQuotes(EscapeQuotes(s)) == s
  {
    if s != [] {
      var rest := EscapeQuotes(s[1..]);
      UndoEscapeQuotes(s[1..]);
      if s[0] == '"' {
        assert EscapeQuotes(s) == "\\\"" + rest;
        assert EscapeQuotes(s)[2..] == rest;
      } else {
        assert EscapeQuotes(s) == [s[0]] + rest;
        EscapeQuotesHead(s[1..]);
        assert EscapeQuotes(s)[1..] == rest;
      }
      assert s == [s[0]] + s[1..];
    }
  }

  lemma {:induction false} UndoEscapeBackslashes(s: string)
    ensures UndoBackslashes(EscapeBackslashes(s)) == s
  {
    if s != [] {
      var rest := EscapeBackslashes(s[1..]);
      UndoEscapeBackslashes(s[1..]);
      if s[0] == '\\' {
        assert EscapeBackslashes(s) == "\\\\" + rest;
        assert EscapeBackslashes(s)[2..] == rest;
      } else {
        assert EscapeBackslashes(s) == [s[0]] + rest;
        assert EscapeBackslashes(s)[1..] == rest;
      }
      assert s == [s[0]] + s[1..];
    }
  }

  /** Undoing the two steps in reverse order gives back the command. */
  lemma EscapeRoundTrip(command: string)
    ensures UndoBackslashes(UndoQuotes(EscapeCommand(command))) == command
  {
    UndoEscapeQuotes(EscapeBackslashes(command));
    UndoEscapeBackslashes(command);
  }

  lemma {:induction false} EscapeQuotesAppend(a: string, b: string)
    ensures EscapeQuotes(a + b) == EscapeQuotes(a) + EscapeQuotes(b)
  {
    if a != [] {
      assert (a + b)[1..] == a[1..] + b;
      EscapeQuotesAppend(a[1..], b);
    } else {
      assert a + b == b;
    }
  }

  /** The escaped command, one source character at a time. */
  lemma EscapeCommandHead(command: string)
    requires command != []
    ensures EscapeCommand(command) == EscapeChar(command[0]) + EscapeCommand(command[1..])
  {
    var c := command[0];
    var head := if c == '\\' then "\\\\" else [c];
    EscapeQuotesAppend(head, EscapeBackslashes(command[1..]));
    if c == '\\' {
      assert EscapeQuotes(head) == [head[0]] + EscapeQuotes(head[1..]);
      assert EscapeQuotes(head[1..]) == [head[1]] + EscapeQuotes([]);
    } else {
      assert EscapeQuotes(head) == (if c == '"' then "\\\"" else [c]) + EscapeQuotes([]);
    }
  }

  /** Reading one escaped character yields that character. */
  lemma ReadEscapedChar(c: char, tail: string)
    ensures ReadQuoted(EscapeChar(c) + tail) ==
      match ReadQuoted(tail)
      case None => None
      case Some(p) => Some(([c] + p.0, p.1))
  {
    var t := EscapeChar(c) + tail;
    if c == '\\' || c == '"' {
      assert t[2..] == tail;
    } else {
      assert t[1..] == tail;
    }
  }

  /** Inside double quotes the escaped command reads back as exactly the
      command: no quote in it closes the word early, and the closing quote
      after it does. */
  lemma {:induction false} ReadEscaped(command: string, rest: string)
    ensures ReadQuoted(EscapeCommand(command) + "\"" + rest) == Some((command, rest))
    decreases |command|
  {
    if command == [] {
      assert EscapeCommand(command) + "\"" + rest == "\"" + rest;
    } else {
      var head, e := EscapeChar(command[0]), EscapeCommand(command[1..]);
      var tail := e + "\"" + rest;
      ReadEscaped(command[1..], rest);
      EscapeCommandHead(command);
      Seqs.AppendAssoc(head, e, "\"");
      Seqs.AppendAssoc(head, e + "\"", rest);
      ReadEscapedChar(command[0], tail);
      Seqs.HeadTail(command);
    }
  }

  /** The argument after `-c` is the command itself, and nothing follows it. */
  lemma BashCommandArgument(command: string)
    ensures ReadQuoted(BashCommand(command)[|BashPrefix|..]) == Some((command, ""))
  {
    assert BashCommand(command)[|BashPrefix|..] == EscapeCommand(command) + "\"" + "";
    ReadEscaped(command, "");
  }

  // ---------------------------------------------------------------------
  // images

  /** An image as the runtime reports it. */
  datatype ImageRef = ImageRef(tags: seq<string>, shortId: string)

  /** `_get_image_name`: the first tag, else the short id (which may be empty). */
  function ImageName(image: ImageRef): (name: string)
    ensures name in image.tags || name == image.shortId
    ensures image.tags != [] ==> name == image.tags[0]
    ensures (forall t :: t in image.tags ==> t != "") && (image.tags != [] || image.shortId != "") ==> name != ""
  {
    if image.tags != [] then image.tags[0] else image.shortId
  }

  /** `list_docker_images`: one name per image, in the runtime's order. */
  function ListDockerImages(images: seq<ImageRef>): (names: seq<string>)
    ensures |names| == |images|
    ensures forall k :: 0 <= k < |images| ==> names[k] == ImageName(images[k])
  {
    if images == [] then [] else [ImageName(images[0])] + ListDockerImages(images[1..])
  }

  // ---------------------------------------------------------------------
  // GPUs

  const GpuCapabilities: seq<seq<string>> := [["compute", "utility", "graphics"]]

  /** The device request `create_container` passes; a field it leaves unset is None. */
  datatype DeviceRequest = DeviceRequest(driver: string, capabilities: seq<seq<string>>,
                                         count: Option<int>, deviceIds: Option<seq<string>>)

  /** The device requests of `create_container`: no id list asks for every
      GPU (`count=-1`); an id list asks for those devices by their decimal text. */
  function GpuRequests(gpuIds: Option<seq<int>>): (r: seq<DeviceRequest>)
    ensures |r| == 1 && r[0].driver == "nvidia" && r[0].capabilities == GpuCapabilities
    ensures gpuIds.None? ==> r[0].count == Some(-1) && r[0].deviceIds.None?
    ensures gpuIds.Some? ==> r[0].count.None? && r[0].deviceIds == Some(IntTexts(gpuIds.value))
  {
    match gpuIds
    case None => [DeviceRequest("nvidia", GpuCapabilities, Some(-1), None)]
    case Some(ids) => [DeviceRequest("nvidia", GpuCapabilities, None, Some(IntTexts(ids)))]
  }

  /** The GPU ids `inspect_container` reads from `HostConfig.DeviceRequests`
      (None when the key is missing), given as the `DeviceIDs` entry of each
      request (None when it is null or missing). */
  function InspectGpuIds(deviceRequests: Option<seq<Option<seq<string>>>>): (r: Result<Option<seq<int>>>)
    ensures deviceRequests.None? || deviceRequests == Some([]) ==> r.Err?
    ensures r.Ok? && r.value.Some? ==>
      deviceRequests.Some? && deviceRequests.value != [] && deviceRequests.value[0].Some?
      && ReadsAs(deviceRequests.value[0].value, r.value.value)
  {
    match deviceRequests
    case None => Err(TypeError("'NoneType' object is not subscriptable"))
    case Some(reqs) =>
      if reqs == [] then Err(IndexError("list index out of range"))
      else if reqs[0].None? then Ok(None)
      else
        IntsOrErrorMeaning(reqs[0].value);
        match IntsOrError(reqs[0].value)
        case Err(e) => Err(e)
        case Ok(ids) => Ok(Some(ids))
  }

  /** What inspection reports: an error for a missing or empty request list,
      no ids for a request without device ids, and otherwise the integer
      value of every device id, failing exactly when one is not an integer. */
  lemma InspectGpuIdsCases(deviceRequests: Option<seq<Option<seq<string>>>>)
    ensures deviceRequests.None? ==> InspectGpuIds(deviceRequests).Err?
    ensures deviceRequests == Some([]) ==> InspectGpuIds(deviceRequests) == Err(IndexError("list index out of range"))
    ensures deviceRequests.Some? && deviceRequests.value != [] && deviceRequests.value[0].None? ==>
      InspectGpuIds(deviceRequests) == Ok(None)
    ensures deviceRequests.Some? && deviceRequests.value != [] && deviceRequests.value[0].Some? ==>
      (InspectGpuIds(deviceRequests).Err? <==>
         exists k :: 0 <= k < |deviceRequests.value[0].value| && ParseInt(deviceRequests.value[0].value[k]).None?)
    ensures InspectGpuIds(deviceRequests).Ok? && InspectGpuIds(deviceRequests).value.Some? ==>
      var ids := deviceRequests.value[0].value;
      |InspectGpuIds(deviceRequests).value.value| == |ids|
      && forall k :: 0 <= k < |ids| ==> ParseInt(ids[k]) == Some(InspectGpuIds(deviceRequests).value.value[k])
  {
    if deviceRequests.Some? && deviceRequests.value != [] && deviceRequests.value[0].Some? {
      var ids := deviceRequests.value[0].value;
      IntsOrErrorMeaning(ids);
    }
  }

  /** A container created with an id list and reporting that request back is
      inspected as having exactly those GPU ids. */
  lemma GpuIdsRoundTrip(gpuIds: seq<int>)
    ensures InspectGpuIds(Some([GpuRequests(Some(gpuIds))[0].deviceIds])) == Ok(Some(gpuIds))
  {
    IntTextsShape(gpuIds, ',');
    IntsOrErrorOfInts(IntTexts(gpuIds), gpuIds);
  }

  /** A container created without an id list (all GPUs) is inspected as
      having no GPU id list. */
  lemma AllGpusRoundTrip()
    ensures InspectGpuIds(Some([GpuRequests(None)[0].deviceIds])) == Ok(None)
  {}

  // ---------------------------------------------------------------------
  // port and volume arguments of `create_container`

  /** A dictionary comprehension over entries that may raise: the first
      error, in order, or the dictionary with a later key overwriting an
      earlier one. */
  function BuildDict<V>(entries: seq<Result<(string, V)>>): Result<map<string, V>>
    decreases |entries|
  {
    if entries == [] then Ok(map[])
    else
      match BuildDict(entries[..|entries| - 1])
      case Err(e) => Err(e)
      case Ok(m) =>
        match entries[|entries| - 1]
        case Err(e) => Err(e)
        case Ok(kv) => Ok(m[kv.0 := kv.1])
  }

  /** The comprehension succeeds exactly when every entry does; it fails with
      the first failing entry's error. */
  lemma {:induction false} BuildDictOk<V>(entries: seq<Result<(string, V)>>)
    ensures BuildDict(entries).Ok? <==> forall k :: 0 <= k < |entries| ==> entries[k].Ok?
    ensures BuildDict(entries).Err? ==>
      exists k :: 0 <= k < |entries| && entries[k] == Err(BuildDict(entries).error)
                  && forall j :: 0 <= j < k ==> entries[j].Ok?
    decreases |entries|
  {
    if entries != [] {
      var init := entries[..|entries| - 1];
      BuildDictOk(init);
      assert forall k :: 0 <= k < |init| ==> init[k] == entries[k];
    }
  }

  /** The keys are the entries' keys, and each key holds the value of the
      last entry with that key. */
  lemma {:induction false} BuildDictLastWins<V>(entries: seq<Result<(string, V)>>, j: nat)
    requires j < |entries| && forall k :: 0 <= k < |entries| ==> entries[k].Ok?
    requires forall k :: j < k < |entries| ==> entries[k].value.0 != entries[j].value.0
    ensures BuildDict(entries).Ok? && entries[j].value.0 in BuildDict(entries).value
    ensures BuildDict(entries).value[entries[j].value.0] == entries[j].value.1
    decreases |entries|
  {
    var init := entries[..|entries| - 1];
    BuildDictOk(entries);
    if j < |entries| - 1 {
      assert forall k :: 0 <= k < |init| ==> init[k] == entries[k];
      BuildDictLastWins(init, j);
    }
  }

  lemma {:induction false} BuildDictKeys<V>(entries: seq<Result<(string, V)>>)
    requires forall k :: 0 <= k < |entries| ==> entries[k].Ok?
    ensures BuildDict(entries).Ok?
    ensures forall key :: key in BuildDict(entries).value <==>
      exists j :: 0 <= j < |entries| && entries[j].value.0 == key
    decreases |entries|
  {
    BuildDictOk(entries);
    if entries != [] {
      var init := entries[..|entries| - 1];
      BuildDictKeys(init);
      assert forall k :: 0 <= k < |init| ==> init[k] == entries[k];
    }
  }

  /** Two pieces around the first colon exist exactly when there is a colon. */
  lemma SplitHasTwo(s: string, c: char)
    ensures |Split(s, c)| >= 2 <==> c in s
  {
    if c in s {
      var i := FirstIndex(s, c);
      assert s == s[..i] + [c] + s[i + 1..];
      SplitHead(s[..i], c, s[i + 1..]);
    } else {
      SplitNoSep(s, c);
    }
  }

  /** One `host:container` port spec, as the binding container port -> host port. */
  function PortEntry(spec: string): Result<(string, string)>
  {
    var parts := Split(spec, ':');
    if |parts| < 2 then Err(IndexError("list index out of range"))
    else Ok((parts[1], parts[0]))
  }

  /** The `ports` argument: container port -> host port for every spec. */
  function PortBindings(specs: seq<string>): (r: Result<map<string, string>>)
    ensures r.Ok? <==> forall k :: 0 <= k < |specs| ==> ':' in specs[k]
  {
    var entries := seq(|specs|, i requires 0 <= i < |specs| => PortEntry(specs[i]));
    BuildDictOk(entries);
    assert forall k :: 0 <= k < |specs| ==> (entries[k].Ok? <==> ':' in specs[k]) by {
      forall k | 0 <= k < |specs| ensures entries[k].Ok? <==> ':' in specs[k] {
        SplitHasTwo(specs[k], ':');
      }
    }
    BuildDict(entries)
  }

  /** The port specs are accepted exactly when each has a colon; a spec
      `host:container` binds the container port to the host port. */
  lemma PortSpecs(specs: seq<string>, h: string, c: string)
    requires ':' !in h && ':' !in c
    ensures PortBindings(specs).Ok? <==> forall k :: 0 <= k < |specs| ==> ':' in specs[k]
    ensures PortEntry(h + ":" + c) == Ok((c, h))
  {
    var entries := seq(|specs|, i requires 0 <= i < |specs| => PortEntry(specs[i]));
    BuildDictOk(entries);
    forall k | 0 <= k < |specs| ensures entries[k].Ok? <==> ':' in specs[k] {
      SplitHasTwo(specs[k], ':');
    }
    SplitTwo(h, c, ':');
  }

  /** A volume's bind target and access mode. */
  datatype Bind = Bind(bind: string, mode: string)

  /** One volume spec, as written: the mode is the third field when the
      spec STRING is longer than two characters, and `ro` otherwise. */
  function VolumeEntryAsWritten(vol: string): Result<(string, Bind)>
  {
    var parts := Split(vol, ':');
    if |parts| < 2 then Err(IndexError("list index out of range"))
    else if |vol| > 2 && |parts| < 3 then Err(IndexError("list index out of range"))
    else Ok((parts[0], Bind(parts[1], if |vol| > 2 then parts[2] else "ro")))
  }

  /** One volume spec `host:bind[:mode]`, the mode defaulting to `ro` when
      the spec has only two FIELDS. */
  function VolumeEntry(vol: string): Result<(string, Bind)>
  {
    var parts := Split(vol, ':');
    if |parts| < 2 then Err(IndexError("list index out of range"))
    else Ok((parts[0], Bind(parts[1], if |parts| > 2 then parts[2] else "ro")))
  }

  /** The `volumes` argument as written. */
  function VolumesAsWritten(vols: seq<string>): (r: Result<map<string, Bind>>)
    ensures r.Ok? <==> forall k :: 0 <= k < |vols| ==>
      |Split(vols[k], ':')| >= 2 && (|vols[k]| <= 2 || |Split(vols[k], ':')| >= 3)
  {
    var entries := seq(|vols|, i requires 0 <= i < |vols| => VolumeEntryAsWritten(vols[i]));
    BuildDictOk(entries);
    assert forall k :: 0 <= k < |vols| ==> entries[k] == VolumeEntryAsWritten(vols[k]);
    BuildDict(entries)
  }

  /** The `volumes` argument with the field-count guard. */
  function Volumes(vols: seq<string>): (r: Result<map<string, Bind>>)
    ensures r.Ok? <==> forall k :: 0 <= k < |vols| ==> ':' in vols[k]
  {
    var entries := seq(|vols|, i requires 0 <= i < |vols| => VolumeEntry(vols[i]));
    BuildDictOk(entries);
    assert forall k :: 0 <= k < |vols| ==> (entries[k].Ok? <==> ':' in vols[k]) by {
      forall k | 0 <= k < |vols| ensures entries[k].Ok? <==> ':' in vols[k] {
        SplitHasTwo(vols[k], ':');
      }
    }
    BuildDict(entries)
  }

  /** As written, every two-field spec longer than two characters, the form
      `/host/path:/container/path` the configuration documents, raises. */
  lemma TwoFieldVolumeRaises(h: string, b: string)
    requires ':' !in h && ':' !in b && |h| + |b| >= 2
    ensures VolumeEntryAsWritten(h + ":" + b) == Err(IndexError("list index out of range"))
    ensures VolumesAsWritten([h + ":" + b]) == Err(IndexError("list index out of range"))
  {
    var vol := h + ":" + b;
    SplitTwo(h, b, ':');
    assert |vol| > 2;
    var vols := [vol];
    var entries := seq(|vols|, i requires 0 <= i < |vols| => VolumeEntryAsWritten(vols[i]));
    assert entries[0] == VolumeEntryAsWritten(vol);
    assert entries[..0] == [];
    assert BuildDict(entries[..0]) == Ok(map[]);
  }

  /** The two readings part only on two-field specs longer than two
      characters, which the guard on the string length sends to the missing
      third field, and on specs of at most two characters with three fields. */
  lemma VolumeReadingsDiffer(vol: string)
    ensures |vol| > 2 && |Split(vol, ':')| == 2 ==> VolumeEntryAsWritten(vol).Err? && VolumeEntry(vol).Ok?
    ensures (|vol| > 2) == (|Split(vol, ':')| != 2) ==> VolumeEntryAsWritten(vol) == VolumeEntry(vol)
  {}

  /** With the field-count guard a spec `host:bind` is mounted read-only and
      `host:bind:mode` with its mode; a spec without a colon raises. */
  lemma VolumeSpecs(vol: string, h: string, b: string, m: string)
    requires ':' !in h && ':' !in b && ':' !in m
    ensures VolumeEntry(h + ":" + b) == Ok((h, Bind(b, "ro")))
    ensures VolumeEntry(h + ":" + b + ":" + m) == Ok((h, Bind(b, m)))
    ensures VolumeEntry(vol).Err? <==> ':' !in vol
  {
    SplitTwo(h, b, ':');
    SplitThree(h, b, m, ':');
    SplitHasTwo(vol, ':');
  }

  // ---------------------------------------------------------------------
  // container actions

  datatype ContainerAction = Start | Stop | Restart | Kill | Delete

  /** What the runtime is asked to do to a container: run a command in it,
      or apply an action (`Delete` is the forced removal). */
  datatype Op = Exec(cmd: string) | Apply(action: ContainerAction)

  /** The operations `container_action` performs, in order. */
  function ActionOps(action: ContainerAction, before: Option<string>, after: Option<string>): (r: seq<Op>)
    ensures 1 <= |r| <= 3 && Apply(action) in r
    ensures forall k :: 0 <= k < |r| && r[k] != Apply(action) ==> r[k].Exec?
    ensures action == Delete ==> r[|r| - 1] == Apply(Delete)
  {
    (if before.Some? then [Exec(before.value)] else [])
    + [Apply(action)]
    + (if action != Delete && after.Some? then [Exec(after.value)] else [])
  }

  /** Where the action itself sits among the operations. */
  function ActionIndex(before: Option<string>): nat
  {
    if before.Some? then 1 else 0
  }

  /** The action is applied exactly once; the `before_action` command, when
      given, runs first; the `after_action` command, when given, runs last,
      except after a deletion, which ends the sequence. */
  lemma ActionOrder(action: ContainerAction, before: Option<string>, after: Option<string>)
    ensures ActionIndex(before) < |ActionOps(action, before, after)|
    ensures ActionOps(action, before, after)[ActionIndex(before)] == Apply(action)
    ensures forall k :: 0 <= k < |ActionOps(action, before, after)| && k != ActionIndex(before) ==>
      ActionOps(action, before, after)[k].Exec?
    ensures before.Some? ==> ActionOps(action, before, after)[0] == Exec(before.value)
    ensures action == Delete ==> |ActionOps(action, before, after)| == ActionIndex(before) + 1
    ensures action != Delete && after.Some? ==>
      |ActionOps(action, before, after)| == ActionIndex(before) + 2
      && ActionOps(action, before, after)[ActionIndex(before) + 1] == Exec(after.value)
    ensures action != Delete && after.None? ==> |ActionOps(action, before, after)| == ActionIndex(before) + 1
  {}

  /** A container of the runtime: its name, the log text the runtime gives
      for it, and the operations applied to it so far. */
  class Container {
    const name: string
    const logs: string
    var ops: seq<Op>

    constructor(name0: string, logs0: string)
      ensures name == name0 && logs == logs0 && ops == []
    {
      name := name0;
      logs := logs0;
      ops := [];
    }

    /** `container_action` on the container found under `lookupName`: a
        deletion answers with a message naming the lookup argument (not the
        container's own name), anything else with the container's logs. */
    method Act(lookupName: string, action: ContainerAction, before: Option<string>, after: Option<string>)
      returns (out: string)
      modifies this
      ensures ops == old(ops) + ActionOps(action, before, after)
      ensures action == Delete ==> out == "Container " + lookupName + " deleted"
      ensures action != Delete ==> out == logs
    {
      if before.Some? {
        ops := ops + [Exec(before.value)];
      }
      ops := ops + [Apply(action)];
      if action == Delete {
        return "Container " + lookupName + " deleted";
      }
      if after.Some? {
        ops := ops + [Exec(after.value)];
      }
      out := logs;
    }
  }

  /** `container_action`: the container is looked up first; an unknown
      name raises and no container is touched. `containers` holds every
      string the runtime resolves (a name, an id or an id prefix), so
      several keys may share one container. */
  method ContainerActionByName(containers: map<string, Container>, name: string, action: ContainerAction,
                               before: Option<string>, after: Option<string>) returns (r: Result<string>)
    modifies containers.Values
    ensures name !in containers ==> r == Err(ContainerNotFound(name))
    ensures name !in containers ==> forall c :: c in containers.Values ==> c.ops == old(c.ops)
    ensures name in containers ==>
      containers[name].ops == old(containers[name].ops) + ActionOps(action, before, after)
      && r == Ok(if action == Delete then "Container " + name + " deleted" else containers[name].logs)
    ensures name in containers ==>
      forall c :: c in containers.Values && c != containers[name] ==> c.ops == old(c.ops)
  {
    if name !in containers {
      return Err(ContainerNotFound(name));
    }
    var c := containers[name];
    var out := c.Act(name, action, before, after);
    r := Ok(out);
  }

  // ---------------------------------------------------------------------
  // inspection

  /** `NetworkSettings.Ports`: each container port with its protocol
      (`8000/tcp`) and the host ports bound to it (none when unbound). */
  type PortTable = seq<(string, seq<string>)>

  /** The first value stored under `k` in an insertion-ordered dictionary. */
  function Lookup(d: seq<(string, string)>, k: string): Option<string>
  {
    if d == [] then None else if d[0].0 == k then Some(d[0].1) else Lookup(d[1..], k)
  }

  predicate DistinctKeys(d: seq<(string, string)>)
  {
    forall i, j :: 0 <= i < j < |d| ==> d[i].0 != d[j].0
  }

  /** `d[k] = v` on a Python dictionary: a present key keeps its place and
      takes the new value, a new key goes last. */
  function Put(d: seq<(string, string)>, k: string, v: string): seq<(string, string)>
  {
    if d == [] then [(k, v)]
    else if d[0].0 == k then [(k, v)] + d[1..]
    else [d[0]] + Put(d[1..], k, v)
  }

  lemma {:induction false} PutLookup(d: seq<(string, string)>, k: string, v: string)
    ensures Lookup(Put(d, k, v), k) == Some(v)
    ensures forall k' :: k' != k ==> Lookup(Put(d, k, v), k') == Lookup(d, k')
  {
    if d != [] && d[0].0 != k {
      PutLookup(d[1..], k, v);
    }
  }

  /** A new key is appended; a present key is updated where it stands. */
  lemma {:induction false} PutShape(d: seq<(string, string)>, k: string, v: string)
    ensures Lookup(d, k).None? ==> Put(d, k, v) == d + [(k, v)]
    ensures Lookup(d, k).Some? ==> |Put(d, k, v)| == |d| && forall i :: 0 <= i < |d| ==> Put(d, k, v)[i].0 == d[i].0
  {
    if d != [] && d[0].0 != k {
      PutShape(d[1..], k, v);
      var r := Put(d, k, v);
      assert r == [d[0]] + Put(d[1..], k, v);
      if Lookup(d, k).None? {
        assert r == [d[0]] + (d[1..] + [(k, v)]);
        assert d == [d[0]] + d[1..];
      } else {
        forall i | 0 <= i < |d| ensures r[i].0 == d[i].0 {
          if i > 0 {
            assert r[i] == Put(d[1..], k, v)[i - 1];
          }
        }
      }
    }
  }

  lemma {:induction false} PutEntries(d: seq<(string, string)>, k: string, v: string)
    ensures forall i :: 0 <= i < |Put(d, k, v)| ==> Put(d, k, v)[i] in d || Put(d, k, v)[i] == (k, v)
  {
    if d != [] {
      var r := Put(d, k, v);
      if d[0].0 != k {
        PutEntries(d[1..], k, v);
        forall i | 0 <= i < |r| ensures r[i] in d || r[i] == (k, v) {
          if i > 0 {
            assert r[i] == Put(d[1..], k, v)[i - 1];
          }
        }
      } else {
        forall i | 0 <= i < |r| ensures r[i] in d || r[i] == (k, v) {
          if i > 0 {
            assert r[i] == d[i];
          }
        }
      }
    }
  }

  lemma {:induction false} PutDistinct(d: seq<(string, string)>, k: string, v: string)
    requires DistinctKeys(d)
    ensures DistinctKeys(Put(d, k, v))
  {
    if d != [] && d[0].0 != k {
      var r := Put(d, k, v);
      assert DistinctKeys(d[1..]) by {
        forall i, j | 0 <= i < j < |d[1..]| ensures d[1..][i].0 != d[1..][j].0 {
          assert d[1..][i] == d[i + 1] && d[1..][j] == d[j + 1];
        }
      }
      PutDistinct(d[1..], k, v);
      PutEntries(d[1..], k, v);
      forall i | 1 <= i < |r| ensures r[i].0 != r[0].0 {
        assert r[i] == Put(d[1..], k, v)[i - 1];
        if r[i] in d[1..] {
          var m :| 0 <= m < |d[1..]| && d[1..][m] == r[i];
          assert d[m + 1] == r[i];
        }
      }
    } else if d != [] {
      var r := Put(d, k, v);
      assert forall i :: 1 <= i < |r| ==> r[i] == d[i];
    }
  }

  lemma {:induction false} LookupNoneIffAbsent(d: seq<(string, string)>, k: string)
    ensures Lookup(d, k).None? <==> forall i :: 0 <= i < |d| ==> d[i].0 != k
  {
    if d != [] {
      LookupNoneIffAbsent(d[1..], k);
      assert forall i :: 1 <= i < |d| ==> d[i] == d[1..][i - 1];
    }
  }

  /** A sequence of dictionary stores, from the first. */
  function PutAll(d: seq<(string, string)>, pairs: seq<(string, string)>): seq<(string, string)>
  {
    if pairs == [] then d
    else
      var last := pairs[|pairs| - 1];
      Put(PutAll(d, pairs[..|pairs| - 1]), last.0, last.1)
  }

  /** After the stores, a key holds the value of its last store, a key
      never stored keeps its old lookup, keys stay distinct, and every entry
      comes from the old dictionary or from a store. */
  lemma {:induction false} PutAllFacts(d: seq<(string, string)>, pairs: seq<(string, string)>)
    requires DistinctKeys(d)
    ensures DistinctKeys(PutAll(d, pairs))
    ensures forall i :: 0 <= i < |PutAll(d, pairs)| ==> PutAll(d, pairs)[i] in d || PutAll(d, pairs)[i] in pairs
    ensures forall k :: (forall j :: 0 <= j < |pairs| ==> pairs[j].0 != k) ==> Lookup(PutAll(d, pairs), k) == Lookup(d, k)
    decreases |pairs|
  {
    if pairs != [] {
      var init := pairs[..|pairs| - 1];
      var last := pairs[|pairs| - 1];
      PutAllFacts(d, init);
      PutLookup(PutAll(d, init), last.0, last.1);
      PutEntries(PutAll(d, init), last.0, last.1);
      PutDistinct(PutAll(d, init), last.0, last.1);
      assert forall j :: 0 <= j < |init| ==> init[j] == pairs[j];
      var r := PutAll(d, pairs);
      forall i | 0 <= i < |r| ensures r[i] in d || r[i] in pairs {
        if r[i] in init {
          var j :| 0 <= j < |init| && init[j] == r[i];
          assert pairs[j] == r[i];
        }
      }
    }
  }

  lemma {:induction false} PutAllLast(d: seq<(string, string)>, pairs: seq<(string, string)>, j: nat)
    requires j < |pairs| && forall j' :: j < j' < |pairs| ==> pairs[j'].0 != pairs[j].0
    ensures Lookup(PutAll(d, pairs), pairs[j].0) == Some(pairs[j].1)
    decreases |pairs|
  {
    var init := pairs[..|pairs| - 1];
    var last := pairs[|pairs| - 1];
    PutLookup(PutAll(d, init), last.0, last.1);
    if j < |pairs| - 1 {
      assert init[j] == pairs[j];
      PutAllLast(d, init, j);
    }
  }

  /** The bindings of one container port: (host port, container port without
      its protocol), one per host port. */
  function EntryPairs(entry: (string, seq<string>)): (r: seq<(string, string)>)
    ensures |r| == |entry.1|
    ensures forall k :: 0 <= k < |entry.1| ==> r[k] == (entry.1[k], Split(entry.0, '/')[0])
  {
    seq(|entry.1|, k requires 0 <= k < |entry.1| => (entry.1[k], Split(entry.0, '/')[0]))
  }

  /** All bindings of the table, in its order. */
  function HostPairs(ports: PortTable): seq<(string, string)>
  {
    if ports == [] then [] else HostPairs(ports[..|ports| - 1]) + EntryPairs(ports[|ports| - 1])
  }

  /** `[f"{host_port}:{container_port}" for ...]` over the dictionary. */
  function MappingTexts(d: seq<(string, string)>): (r: seq<string>)
    ensures |r| == |d| && forall i :: 0 <= i < |d| ==> r[i] == d[i].0 + ":" + d[i].1
  {
    seq(|d|, i requires 0 <= i < |d| => d[i].0 + ":" + d[i].1)
  }

  /** The port loop of `inspect_container`: host port -> container port, then the texts. */
  method PortMappings(ports: PortTable) returns (mapping: seq<string>)
    ensures mapping == MappingTexts(PutAll([], HostPairs(ports)))
  {
    var d: seq<(string, string)> := [];
    var i := 0;
    while i < |ports|
      invariant 0 <= i <= |ports|
      invariant d == PutAll([], HostPairs(ports[..i]))
    {
      var (containerPort, hostPorts) := ports[i];
      var done, pairs := HostPairs(ports[..i]), EntryPairs(ports[i]);
      var j := 0;
      assert pairs[..0] == [];
      assert done + [] == done;
      while j < |hostPorts|
        invariant 0 <= j <= |hostPorts|
        invariant d == PutAll([], done + pairs[..j])
      {
        PutAllSnoc(done, pairs, j);
        d := Put(d, hostPorts[j], Split(containerPort, '/')[0]);
        j := j + 1;
      }
      HostPairsSnoc(ports, i);
      assert pairs[..j] == pairs;
      i := i + 1;
    }
    assert ports[..i] == ports;
    mapping := MappingTexts(d);
  }

  /** Storing binding `j` after the ones before it. */
  lemma PutAllSnoc(done: seq<(string, string)>, pairs: seq<(string, string)>, j: nat)
    requires j < |pairs|
    ensures PutAll([], done + pairs[..j + 1]) == Put(PutAll([], done + pairs[..j]), pairs[j].0, pairs[j].1)
  {
    var all := done + pairs[..j + 1];
    assert all[..|all| - 1] == done + pairs[..j] && all[|all| - 1] == pairs[j];
  }

  /** The bindings of the first `i + 1` entries: those of the first `i`, then entry `i`'s. */
  lemma HostPairsSnoc(ports: PortTable, i: nat)
    requires i < |ports|
    ensures HostPairs(ports[..i + 1]) == HostPairs(ports[..i]) + EntryPairs(ports[i])
  {
    assert ports[..i + 1][..i] == ports[..i];
  }

  /** Each host port appears once; it maps to the container port of its last
      binding, written without the protocol; a host port bound nowhere does
      not appear. */
  lemma PortMappingsMeaning(ports: PortTable, j: nat)
    requires j < |HostPairs(ports)|
    requires forall j' :: j < j' < |HostPairs(ports)| ==> HostPairs(ports)[j'].0 != HostPairs(ports)[j].0
    ensures DistinctKeys(PutAll([], HostPairs(ports)))
    ensures Lookup(PutAll([], HostPairs(ports)), HostPairs(ports)[j].0) == Some(HostPairs(ports)[j].1)
    ensures forall h :: (forall j' :: 0 <= j' < |HostPairs(ports)| ==> HostPairs(ports)[j'].0 != h) ==>
      Lookup(PutAll([], HostPairs(ports)), h).None?
  {
    PutAllFacts([], HostPairs(ports));
    PutAllLast([], HostPairs(ports), j);
  }

  /** The container port in every binding has lost its `/protocol` suffix. */
  lemma {:induction false} HostPairsNoProtocol(ports: PortTable)
    ensures forall i :: 0 <= i < |HostPairs(ports)| ==> '/' !in HostPairs(ports)[i].1
    decreases |ports|
  {
    if ports != [] {
      HostPairsNoProtocol(ports[..|ports| - 1]);
      var e := ports[|ports| - 1];
      SplitPartsSepFree(e.0, '/');
      var r := HostPairs(ports);
      var a := HostPairs(ports[..|ports| - 1]);
      forall i | 0 <= i < |r| ensures '/' !in r[i].1 {
        if i >= |a| {
          assert r[i] == EntryPairs(e)[i - |a|];
        } else {
          assert r[i] == a[i];
        }
      }
    }
  }

  /** A container created with the spec `host:container` and reported back
      as bound on `container/tcp` is inspected as `host:container`. */
  lemma PortMappingOfBinding(h: string, c: string)
    requires '/' !in c
    ensures MappingTexts(PutAll([], HostPairs([(c + "/tcp", [h])]))) == [h + ":" + c]
  {
    SplitTwo(c, "tcp", '/');
    var ports: PortTable := [(c + "/tcp", [h])];
    assert ports[..0] == [];
    assert HostPairs(ports) == [(h, c)];
    var one := [(h, c)];
    assert one[..0] == [];
  }

  /** A container as the runtime describes it; an empty name or id is unset. */
  datatype ContainerAttrs = ContainerAttrs(name: string, id: string, status: string, image: Option<ImageRef>,
                                           deviceRequests: Option<seq<Option<seq<string>>>>,
                                           ports: PortTable, memory: Option<int>)

  datatype ContainerInfo = ContainerInfo(name: string, status: string, image: string, portMapping: seq<string>,
                                         gpuIds: Option<seq<int>>, memoryLimit: int)

  /** The name shown: the name, else the id, else `unknown`. */
  function ShownName(c: ContainerAttrs): (r: string)
    ensures r != ""
    ensures r == c.name || r == c.id || r == "unknown"
  {
    if c.name != "" then c.name else if c.id != "" then c.id else "unknown"
  }

  /** The image shown: its name, or `unknown` when the container has no image. */
  function ShownImage(c: ContainerAttrs): string
  {
    if c.image.None? then "unknown" else ImageName(c.image.value)
  }

  /** The memory limit shown: -1 when none is configured (the entry is 0 or
      null), so the value shown is never 0. */
  function MemoryLimit(memory: Option<int>): (r: int)
    ensures r != 0
    ensures r == -1 || memory == Some(r)
    ensures memory.None? || memory.value == 0 ==> r == -1
    ensures memory.Some? && memory.value != 0 ==> r == memory.value
  {
    if memory.None? || memory.value == 0 then -1 else memory.value
  }

  /** `inspect_container`: the GPU ids are read first and may raise; then the port loop runs. */
  method InspectContainer(c: ContainerAttrs) returns (r: Result<ContainerInfo>)
    ensures InspectGpuIds(c.deviceRequests).Err? ==> r == Err(InspectGpuIds(c.deviceRequests).error)
    ensures InspectGpuIds(c.deviceRequests).Ok? ==>
      r == Ok(ContainerInfo(ShownName(c), c.status, ShownImage(c), MappingTexts(PutAll([], HostPairs(c.ports))),
                            InspectGpuIds(c.deviceRequests).value, MemoryLimit(c.memory)))
  {
    var gpuIds := InspectGpuIds(c.deviceRequests);
    if gpuIds.Err? {
      return Err(gpuIds.error);
    }
    var mapping := PortMappings(c.ports);
    r := Ok(ContainerInfo(ShownName(c), c.status, ShownImage(c), mapping, gpuIds.value, MemoryLimit(c.memory)));
  }

  // ---------------------------------------------------------------------
  // ports in use

  /** The host-port lists of one port table. */
  function PortLists(ports: PortTable): (r: seq<seq<string>>)
    ensures |r| == |ports| && forall j :: 0 <= j < |ports| ==> r[j] == ports[j].1
  {
    seq(|ports|, j requires 0 <= j < |ports| => ports[j].1)
  }

  /** The host ports of one port table, in order. */
  function HostPorts(ports: PortTable): seq<string>
  {
    Seqs.Concat(PortLists(ports))
  }

  /** The host ports of each container. */
  function TableLists(tables: seq<PortTable>): (r: seq<seq<string>>)
    ensures |r| == |tables| && forall i :: 0 <= i < |tables| ==> r[i] == HostPorts(tables[i])
  {
    seq(|tables|, i requires 0 <= i < |tables| => HostPorts(tables[i]))
  }

  /** The host ports of all containers, in order. */
  function AllHostPorts(tables: seq<PortTable>): seq<string>
  {
    Seqs.Concat(TableLists(tables))
  }

  /** Converting list after list: list `i` either fails, and then the whole
      conversion fails with its error, or extends the integers so far. */
  lemma ConcatIntsStep(ss: seq<seq<string>>, i: nat, used: seq<int>)
    requires i < |ss| && IntsOrError(Seqs.Concat(ss[..i])) == Ok(used)
    ensures IntsOrError(Seqs.Concat(ss[..i + 1])) ==
      match IntsOrError(ss[i])
      case Err(e) => Err(e)
      case Ok(x) => Ok(used + x)
    ensures IntsOrError(ss[i]).Err? ==> IntsOrError(Seqs.Concat(ss)) == Err(IntsOrError(ss[i]).error)
  {
    assert ss[..i + 1][..i] == ss[..i];
    assert Seqs.Concat(ss[..i + 1]) == Seqs.Concat(ss[..i]) + ss[i];
    IntsOrErrorAppendOk(Seqs.Concat(ss[..i]), ss[i]);
    if IntsOrError(ss[i]).Err? {
      Seqs.ConcatAt(ss, i);
      assert Seqs.Concat(ss) == Seqs.Concat(ss[..i + 1]) + Seqs.Concat(ss[i + 1..]);
      IntsOrErrorAppendErr(Seqs.Concat(ss[..i + 1]), Seqs.Concat(ss[i + 1..]));
    }
  }

  /** Converting text after text: text `k` either fails, and then the whole
      conversion fails with its error, or extends the integers so far. */
  lemma IntsStep(xs: seq<string>, k: nat, used: seq<int>)
    requires k < |xs| && IntsOrError(xs[..k]) == Ok(used)
    ensures IntsOrError(xs[..k + 1]) ==
      match IntOrError(xs[k])
      case Err(e) => Err(e)
      case Ok(n) => Ok(used + [n])
  {
    assert xs[..k + 1] == xs[..k] + [xs[k]];
    IntsOrErrorSingle(xs[k]);
    IntsOrErrorAppendOk(xs[..k], [xs[k]]);
  }

  /** A failing prefix makes the whole conversion fail with its error. */
  lemma IntsPrefixErr(xs: seq<string>, k: nat)
    requires k <= |xs| && IntsOrError(xs[..k]).Err?
    ensures IntsOrError(xs) == IntsOrError(xs[..k])
  {
    var p, q := xs[..k], xs[k..];
    IntsOrErrorAppendErr(p, q);
    assert p + q == xs;
  }

  /** The innermost loop: `int(port['HostPort'])` for the ports bound to one container port. */
  method PortInts(hostPorts: seq<string>) returns (r: Result<seq<int>>)
    ensures r == IntsOrError(hostPorts)
  {
    var used: seq<int> := [];
    var k := 0;
    while k < |hostPorts|
      invariant 0 <= k <= |hostPorts|
      invariant IntsOrError(hostPorts[..k]) == Ok(used)
    {
      IntsStep(hostPorts, k, used);
      var n := IntOrError(hostPorts[k]);
      if n.Err? {
        IntsPrefixErr(hostPorts, k + 1);
        return Err(n.error);
      }
      used := used + [n.value];
      k := k + 1;
    }
    assert hostPorts[..k] == hostPorts;
    r := Ok(used);
  }

  /** The middle loop: the host ports of one container, entry by entry. */
  method TablePortInts(table: PortTable) returns (r: Result<seq<int>>)
    ensures r == IntsOrError(HostPorts(table))
  {
    var lists := PortLists(table);
    var used: seq<int> := [];
    var j := 0;
    assert lists[..0] == [];
    while j < |table|
      invariant 0 <= j <= |table|
      invariant IntsOrError(Seqs.Concat(lists[..j])) == Ok(used)
    {
      ConcatIntsStep(lists, j, used);
      var ints := PortInts(table[j].1);
      if ints.Err? {
        return Err(ints.error);
      }
      used := used + ints.value;
      j := j + 1;
    }
    assert lists[..j] == lists;
    r := Ok(used);
  }

  /** `get_docker_used_ports`: every host port of every container, as an
      integer; the first one that is not an integer raises. */
  method GetDockerUsedPorts(tables: seq<PortTable>) returns (r: Result<seq<int>>)
    ensures r == IntsOrError(AllHostPorts(tables))
  {
    var all := TableLists(tables);
    var used: seq<int> := [];
    var i := 0;
    assert all[..0] == [];
    while i < |tables|
      invariant 0 <= i <= |tables|
      invariant IntsOrError(Seqs.Concat(all[..i])) == Ok(used)
    {
      ConcatIntsStep(all, i, used);
      var ints := TablePortInts(tables[i]);
      if ints.Err? {
        return Err(ints.error);
      }
      used := used + ints.value;
      i := i + 1;
    }
    assert all[..i] == all;
    r := Ok(used);
  }
}
