/** The command-line client's argument parsing: `key:value` / `key=value`
    words become a parameter dictionary, and version tuples are printed with dots. */
module CliClient {
  import opened Wrappers
  import opened Strings

  // ---------------------------------------------------------------------
  // one argument

  /** `infer_sep`: the separator of a `key:value` or `key=value` word. */
  function InferSep(s: string): (r: Option<char>)
    ensures r.None? <==> ':' !in s && '=' !in s
    ensures r.Some? ==> (r.value == ':' || r.value == '=') && r.value in s
  {
    if !(':' in s || '=' in s) then None
    else if ':' in s && '=' !in s then Some(':')
    else if '=' in s && ':' !in s then Some('=')
    else if FirstIndex(s, ':') < FirstIndex(s, '=') then Some(':') else Some('=')
  }

  /** The separator is whichever of ':' and '=' comes first; there is none
      exactly when the word holds neither. */
  lemma InferSepFirst(s: string)
    ensures InferSep(s).None? <==> ':' !in s && '=' !in s
    ensures InferSep(s).Some? ==>
      var c := InferSep(s).value;
      (c == ':' || c == '=') && c in s
      && forall j :: 0 <= j < FirstIndex(s, c) ==> s[j] != ':' && s[j] != '='
  {
    if ':' in s && '=' in s {
      var i, k := FirstIndex(s, ':'), FirstIndex(s, '=');
      assert i != k by { assert s[i] != s[k]; }
    }
  }

  datatype KeyValue = KeyValue(key: string, value: string)

  /** `arg.split(sep)`: the key is the first piece, the value the other pieces joined by `sep`. */
  function SplitArg(arg: string, sep: char): KeyValue
  {
    var parts := Split(arg, sep);
    KeyValue(parts[0], Join(parts[1..], [sep]))
  }

  /** The key is the text before the first separator and the value all the
      text after it, so that key, separator and value rebuild the word. */
  lemma SplitArgParts(arg: string, sep: char)
    requires sep in arg
    ensures SplitArg(arg, sep).key == arg[..FirstIndex(arg, sep)]
    ensures SplitArg(arg, sep).value == arg[FirstIndex(arg, sep) + 1..]
    ensures sep !in SplitArg(arg, sep).key
    ensures SplitArg(arg, sep).key + [sep] + SplitArg(arg, sep).value == arg
  {
    var i := FirstIndex(arg, sep);
    var rest := arg[i + 1..];
    assert Split(arg, sep) == [arg[..i]] + Split(rest, sep);
    assert Split(arg, sep)[1..] == Split(rest, sep);
    JoinSplit(rest, sep);
    assert arg[..i] + [sep] + rest == arg;
  }

  /** What one argument contributes. An empty value is read, stripped, from
      standard input (`stdinText`), and only the last argument may have one. */
  function ArgEntry(arg: string, isLast: bool, stdinText: string): Result<KeyValue>
  {
    match InferSep(arg)
    case None => Err(ValueError("Invalid argument: " + arg + ", the format should be key:value or key=value"))
    case Some(sep) =>
      var kv := SplitArg(arg, sep);
      if kv.value == "" then
        if !isLast then Err(AssertionError("Invalid argument: " + kv.key + ", only last argument can be read from stdin"))
        else Ok(KeyValue(kv.key, Strip(stdinText)))
      else Ok(kv)
  }

  /** The entry of argument `j` of `args`. */
  function Entry(args: seq<string>, j: nat, stdinText: string): Result<KeyValue>
    requires j < |args|
  {
    ArgEntry(args[j], j == |args| - 1, stdinText)
  }

  /** The dictionary after the first `n` arguments; a later key overwrites. */
  function ParamsUpTo(args: seq<string>, n: nat, stdinText: string): Result<map<string, string>>
    requires n <= |args|
  {
    if n == 0 then Ok(map[])
    else
      match ParamsUpTo(args, n - 1, stdinText)
      case Err(e) => Err(e)
      case Ok(m) =>
        match Entry(args, n - 1, stdinText)
        case Err(e) => Err(e)
        case Ok(kv) => Ok(m[kv.key := kv.value])
  }

  /** `parse_param_va_args`: no arguments at all (None or empty) give the empty dictionary. */
  function ParseParams(args: Option<seq<string>>, stdinText: string): (r: Result<map<string, string>>)
    ensures args.Some? ==> (r.Ok? <==> forall j :: 0 <= j < |args.value| ==> Entry(args.value, j, stdinText).Ok?)
    ensures args.None? ==> r == Ok(map[])
  {
    if args.None? || args.value == [] then Ok(map[])
    else
      ParamsOkIff(args.value, |args.value|, stdinText);
      ParamsUpTo(args.value, |args.value|, stdinText)
  }

  /** The loop of `parse_param_va_args`, filling the dictionary argument by argument. */
  method ParseParamVaArgs(args: Option<seq<string>>, stdinText: string) returns (r: Result<map<string, string>>)
    ensures r == ParseParams(args, stdinText)
  {
    var res: map<string, string> := map[];
    if args.None? || args.value == [] {
      return Ok(res);
    }
    var xs := args.value;
    var i := 0;
    while i < |xs|
      invariant 0 <= i <= |xs|
      invariant ParamsUpTo(xs, i, stdinText) == Ok(res)
    {
      var entry := ArgEntry(xs[i], i == |xs| - 1, stdinText);
      if entry.Err? {
        ParamsFailAt(xs, i, stdinText, res);
        return Err(entry.error);
      }
      ParamsOkAt(xs, i, stdinText, res);
      res := res[entry.value.key := entry.value.value];
      i := i + 1;
    }
    r := Ok(res);
  }

  /** Argument `i` failing ends the whole parse with its error. */
  lemma ParamsFailAt(args: seq<string>, i: nat, stdinText: string, res: map<string, string>)
    requires i < |args| && ParamsUpTo(args, i, stdinText) == Ok(res) && Entry(args, i, stdinText).Err?
    ensures ParamsUpTo(args, |args|, stdinText) == Err(Entry(args, i, stdinText).error)
  {
    ParamsErrSticks(args, i + 1, |args|, stdinText);
  }

  /** Argument `i` contributing its key and value extends the dictionary with them. */
  lemma ParamsOkAt(args: seq<string>, i: nat, stdinText: string, res: map<string, string>)
    requires i < |args| && ParamsUpTo(args, i, stdinText) == Ok(res) && Entry(args, i, stdinText).Ok?
    ensures ParamsUpTo(args, i + 1, stdinText) ==
      Ok(res[Entry(args, i, stdinText).value.key := Entry(args, i, stdinText).value.value])
  {}

  // ---------------------------------------------------------------------
  // properties of the dictionary

  /** The arguments parse exactly when every one of them does. */
  lemma {:induction false} ParamsOkIff(args: seq<string>, n: nat, stdinText: string)
    requires n <= |args|
    ensures ParamsUpTo(args, n, stdinText).Ok? <==> forall j :: 0 <= j < n ==> Entry(args, j, stdinText).Ok?
    decreases n
  {
    if n > 0 {
      ParamsOkIff(args, n - 1, stdinText);
    }
  }

  /** Only the last argument may leave its value empty. */
  lemma EmptyValueOnlyLast(args: seq<string>, j: nat, stdinText: string)
    requires j < |args| - 1
    requires InferSep(args[j]).Some? && SplitArg(args[j], InferSep(args[j]).value).value == ""
    ensures ParseParams(Some(args), stdinText).Err?
  {
    ParamsOkIff(args, |args|, stdinText);
    assert Entry(args, j, stdinText).Err?;
  }

  /** Argument `j` is the last of the first `n` that names its key. */
  predicate LastWithKey(args: seq<string>, n: nat, j: nat, stdinText: string)
    requires j < n <= |args|
  {
    Entry(args, j, stdinText).Ok?
    && forall j' :: j < j' < n && Entry(args, j', stdinText).Ok? ==>
         Entry(args, j', stdinText).value.key != Entry(args, j, stdinText).value.key
  }

  /** The keys of the dictionary are the arguments' keys. */
  lemma {:induction false} ParamsKeys(args: seq<string>, n: nat, stdinText: string)
    requires n <= |args| && ParamsUpTo(args, n, stdinText).Ok?
    ensures forall k :: k in ParamsUpTo(args, n, stdinText).value <==>
      exists j :: 0 <= j < n && Entry(args, j, stdinText).Ok? && Entry(args, j, stdinText).value.key == k
    decreases n
  {
    if n > 0 {
      ParamsKeys(args, n - 1, stdinText);
    }
  }

  /** Each key holds the value of the last argument that names it. */
  lemma {:induction false} LastWins(args: seq<string>, n: nat, j: nat, stdinText: string)
    requires j < n <= |args| && ParamsUpTo(args, n, stdinText).Ok?
    requires LastWithKey(args, n, j, stdinText)
    ensures Entry(args, j, stdinText).value.key in ParamsUpTo(args, n, stdinText).value
    ensures ParamsUpTo(args, n, stdinText).value[Entry(args, j, stdinText).value.key] == Entry(args, j, stdinText).value.value
    decreases n
  {
    var m := ParamsUpTo(args, n - 1, stdinText).value;
    var kv := Entry(args, n - 1, stdinText).value;
    assert ParamsUpTo(args, n, stdinText).value == m[kv.key := kv.value];
    if j < n - 1 {
      assert LastWithKey(args, n - 1, j, stdinText);
      LastWins(args, n - 1, j, stdinText);
    }
  }

  /** Once an argument fails, the whole list fails with that error. */
  lemma {:induction false} ParamsErrSticks(args: seq<string>, n: nat, m: nat, stdinText: string)
    requires n <= m <= |args| && ParamsUpTo(args, n, stdinText).Err?
    ensures ParamsUpTo(args, m, stdinText) == ParamsUpTo(args, n, stdinText)
    decreases m
  {
    if m > n {
      ParamsErrSticks(args, n, m - 1, stdinText);
    }
  }

  /** No argument list, or an empty one, gives no parameters and reads nothing. */
  lemma NoArgsNoParams(stdinText: string)
    ensures ParseParams(None, stdinText) == Ok(map[])
    ensures ParseParams(Some([]), stdinText) == Ok(map[])
  {}

  /** A word with neither separator is rejected. */
  lemma NoSeparatorRejected(args: seq<string>, j: nat, stdinText: string)
    requires j < |args| && ':' !in args[j] && '=' !in args[j]
    ensures ParseParams(Some(args), stdinText).Err?
  {
    ParamsOkIff(args, |args|, stdinText);
    assert Entry(args, j, stdinText).Err?;
  }

  // ---------------------------------------------------------------------
  // versions

  /** `fmt_version`: the components joined by dots. */
  function FmtVersion(v: seq<int>): (r: string)
    ensures |v| >= 1 ==> Split(r, '.') == IntTexts(v)
  {
    IntTextsShape(v, '.');
    if |v| >= 1 then
      SplitJoin(IntTexts(v), '.');
      Join(IntTexts(v), ".")
    else Join(IntTexts(v), ".")
  }
}
