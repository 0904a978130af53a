/** The command-line examples of the API documentation: each route is shown
    as a `curl` call, a `pody` call and a `podx` call built from its method,
    its URL and an example parameter object. */
module ApiDocs {
  import opened Strings
  import Seqs

  /** The example parameters, in the object's key-enumeration order. */
  type Params = seq<(string, string)>

  /** `new URLSearchParams({[key]: value}).toString()`: the form encoding of
      one parameter, supplied by the caller. */
  type Encoder = (string, string) -> string

  const ExampleHost := "http://10.254.29.178:8799"
  const ExampleUser := "username"
  const ExamplePassword := "password"

  // ---------------------------------------------------------------------
  // curl

  /** The command before any query string. */
  function CurlBase(httpMethod: string, url: string): string
  {
    "curl -u " + ExampleUser + ":" + ExamplePassword + " -X " + httpMethod + " \"" + ExampleHost + url
  }

  /** Each parameter's encoding, in order. */
  function EncodedPieces(params: Params, encode: Encoder): (r: seq<string>)
    ensures |r| == |params| && forall k :: 0 <= k < |params| ==> r[k] == encode(params[k].0, params[k].1)
  {
    seq(|params|, k requires 0 <= k < |params| => encode(params[k].0, params[k].1))
  }

  /** The encoded parameters, as the loop appends them: one after another,
      with nothing between them. */
  function EncodedQuery(params: Params, encode: Encoder): string
  {
    Seqs.Concat(EncodedPieces(params, encode))
  }

  /** The `curl` example as written. */
  function CurlCommand(httpMethod: string, url: string, params: Params, encode: Encoder): (r: string)
    ensures CurlBase(httpMethod, url) <= r && r[|r| - 1] == '"'
    ensures params != [] ==> |r| > |CurlBase(httpMethod, url)| && r[|CurlBase(httpMethod, url)|] == '?'
  {
    if params == [] then CurlBase(httpMethod, url) + "\""
    else CurlBase(httpMethod, url) + "?" + EncodedQuery(params, encode) + "\""
  }

  /** `fmtCurlCmd`. */
  method FmtCurlCmd(httpMethod: string, url: string, params: Params, encode: Encoder) returns (cmd: string)
    ensures cmd == CurlCommand(httpMethod, url, params, encode)
  {
    cmd := CurlBase(httpMethod, url);
    if |params| == 0 {
      return cmd + "\"";
    }
    cmd := cmd + "?";
    var i := 0;
    while i < |params|
      invariant 0 <= i <= |params|
      invariant cmd == CurlBase(httpMethod, url) + "?" + EncodedQuery(params[..i], encode)
    {
      EncodedPiecesSnoc(params, i, encode);
      cmd := cmd + encode(params[i].0, params[i].1);
      i := i + 1;
    }
    assert params[..i] == params;
    cmd := cmd + "\"";
  }

  /** Without parameters the URL is closed right away and, for a method and
      URL without `?`, the command has no query mark. */
  lemma CurlWithoutParams(httpMethod: string, url: string, encode: Encoder)
    ensures CurlCommand(httpMethod, url, [], encode) == CurlBase(httpMethod, url) + "\""
    ensures '?' !in httpMethod && '?' !in url ==> '?' !in CurlCommand(httpMethod, url, [], encode)
  {
    if '?' !in httpMethod && '?' !in url {
      var head := "curl -u " + ExampleUser + ":" + ExamplePassword + " -X ";
      var mid := " \"" + ExampleHost;
      assert '?' !in head && '?' !in mid;
      assert CurlCommand(httpMethod, url, [], encode) == head + httpMethod + mid + url + "\"";
    }
  }

  /** With parameters the base is followed by `?`, the encoded parameters
      and the closing quote. */
  lemma CurlWithParams(httpMethod: string, url: string, params: Params, encode: Encoder)
    requires params != []
    ensures var cmd := CurlCommand(httpMethod, url, params, encode);
      var n := |CurlBase(httpMethod, url)|;
      cmd[..n] == CurlBase(httpMethod, url) && cmd[n] == '?'
      && cmd[n + 1..|cmd| - 1] == EncodedQuery(params, encode) && cmd[|cmd| - 1] == '"'
  {
    var base, q := CurlBase(httpMethod, url), EncodedQuery(params, encode);
    assert CurlCommand(httpMethod, url, params, encode) == base + "?" + q + "\"";
  }

  /** With an encoder whose output holds no `&` (the form encoding escapes
      it), the query as written is a single `&`-separated field whatever the
      number of parameters. */
  lemma QueryIsOneField(params: Params, encode: Encoder)
    requires forall k, v :: '&' !in encode(k, v)
    ensures '&' !in EncodedQuery(params, encode)
    ensures Split(EncodedQuery(params, encode), '&') == [EncodedQuery(params, encode)]
  {
    var pieces := EncodedPieces(params, encode);
    ConcatAvoids(pieces, '&');
    SplitNoSep(EncodedQuery(params, encode), '&');
  }

  /** The documentation's own `exec` example `{ins: "myins", cmd: "pwd"}`:
      the two parameters run together, so a form decoder reads one parameter
      `ins` with the value `myinscmd=pwd`. */
  lemma ExecExampleRunsTogether(params: Params, encode: Encoder)
    requires params == [("ins", "myins"), ("cmd", "pwd")]
    requires encode("ins", "myins") == "ins=myins" && encode("cmd", "pwd") == "cmd=pwd"
    ensures EncodedQuery(params, encode) == "ins=myinscmd=pwd"
  {
    var pieces := EncodedPieces(params, encode);
    assert pieces == ["ins=myins", "cmd=pwd"];
    assert pieces[..1] == ["ins=myins"] && pieces[..1][..0] == [];
    assert Seqs.Concat(pieces[..1]) == "" + "ins=myins";
    assert Seqs.Concat(pieces) == "ins=myins" + "cmd=pwd";
  }

  /** The query with the parameters joined by `&`, as a form-encoded query
      string is built. */
  function EncodedQueryJoined(params: Params, encode: Encoder): (q: string)
  {
    Join(EncodedPieces(params, encode), "&")
  }

  /** The `curl` example with `&` between the parameters. */
  function CurlCommandJoined(httpMethod: string, url: string, params: Params, encode: Encoder): (r: string)
    ensures CurlBase(httpMethod, url) <= r && r[|r| - 1] == '"'
    ensures params != [] ==> |r| > |CurlBase(httpMethod, url)| && r[|CurlBase(httpMethod, url)|] == '?'
  {
    if params == [] then CurlBase(httpMethod, url) + "\""
    else CurlBase(httpMethod, url) + "?" + EncodedQueryJoined(params, encode) + "\""
  }

  /** One more parameter adds its encoding at the end. */
  lemma EncodedPiecesSnoc(params: Params, i: nat, encode: Encoder)
    requires i < |params|
    ensures EncodedQuery(params[..i + 1], encode) == EncodedQuery(params[..i], encode) + encode(params[i].0, params[i].1)
  {
    var p := EncodedPieces(params[..i + 1], encode);
    assert p[..i] == EncodedPieces(params[..i], encode);
  }

  /** Texts that avoid `c` concatenate to a text that avoids it. */
  lemma {:induction false} ConcatAvoids(pieces: seq<string>, c: char)
    requires forall k :: 0 <= k < |pieces| ==> c !in pieces[k]
    ensures c !in Seqs.Concat(pieces)
    decreases |pieces|
  {
    if pieces != [] {
      ConcatAvoids(pieces[..|pieces| - 1], c);
    }
  }

  /** With `&` between them, the query splits back into exactly one field per
      parameter, each that parameter's own encoding. */
  lemma JoinedQueryFields(params: Params, encode: Encoder)
    requires params != [] && forall k, v :: '&' !in encode(k, v)
    ensures Split(EncodedQueryJoined(params, encode), '&') == EncodedPieces(params, encode)
    ensures |Split(EncodedQueryJoined(params, encode), '&')| == |params|
  {
    SplitJoin(EncodedPieces(params, encode), '&');
  }

  // ---------------------------------------------------------------------
  // pody and podx

  /** `match(/^[a-zA-Z0-9_\-\.,\:]+$/)`: a non-empty text of letters, digits
      and `_ - . , :`. */
  predicate SafeParam(v: string)
  {
    |v| > 0 && forall k :: 0 <= k < |v| ==>
      IsAlphaChar(v[k]) || IsDigitChar(v[k]) || v[k] in "_-.,:"
  }

  /** A value as shown: verbatim when safe, otherwise between double quotes
      with nothing inside escaped. */
  function ShownParam(v: string): (r: string)
  {
    if SafeParam(v) then v else "\"" + v + "\""
  }

  /** ` key:value` for one parameter. */
  function ParamWord(p: (string, string)): string
  {
    " " + p.0 + ":" + ShownParam(p.1)
  }

  /** The word of each parameter, in order. */
  function WordList(params: Params): (r: seq<string>)
    ensures |r| == |params| && forall k :: 0 <= k < |params| ==> r[k] == ParamWord(params[k])
  {
    Seqs.Map(ParamWord, params)
  }

  /** The parameter words, one after another. */
  function ParamWords(params: Params): string
  {
    Seqs.Concat(WordList(params))
  }

  /** `url.slice(1)`: the URL without its first character. */
  function DropFirst(url: string): (r: string)
    ensures url != [] ==> r == url[1..]
    ensures url == [] ==> r == []
  {
    if url == [] then [] else url[1..]
  }

  /** Appending the parameter words to `head`: the loop both formatters share. */
  method AppendParamWords(head: string, params: Params) returns (cmd: string)
    ensures cmd == head + ParamWords(params)
  {
    cmd := head;
    var i := 0;
    assert WordList(params[..0]) == [];
    while i < |params|
      invariant 0 <= i <= |params|
      invariant cmd == head + ParamWords(params[..i])
    {
      var value := params[i].1;
      var safe := if SafeParam(value) then value else "\"" + value + "\"";
      var word := " " + params[i].0 + ":" + safe;
      assert word == ParamWord(params[i]);
      AppendWordStep(head, params, i, cmd);
      cmd := cmd + word;
      i := i + 1;
    }
    assert params[..i] == params;
  }

  /** One step of the loop: appending parameter `i`'s word. */
  lemma AppendWordStep(head: string, params: Params, i: nat, cmd: string)
    requires i < |params| && cmd == head + ParamWords(params[..i])
    ensures cmd + ParamWord(params[i]) == head + ParamWords(params[..i + 1])
  {
    ParamWordsSnoc(params, i);
    var done := ParamWords(params[..i]);
    Seqs.AppendAssoc(head, done, ParamWord(params[i]));
  }

  /** `fmtPodyCmd`: the method in lower case and the URL without its slash. */
  method FmtPodyCmd(httpMethod: string, url: string, params: Params) returns (cmd: string)
    ensures cmd == "pody " + Lower(httpMethod) + " " + DropFirst(url) + ParamWords(params)
  {
    var path := DropFirst(url);
    cmd := AppendParamWords("pody " + Lower(httpMethod) + " " + path, params);
  }

  /** `fmtPodxCmd`: like `fmtPodyCmd` without the method. */
  method FmtPodxCmd(httpMethod: string, url: string, params: Params) returns (cmd: string)
    ensures cmd == "podx " + DropFirst(url) + ParamWords(params)
  {
    var path := DropFirst(url);
    cmd := AppendParamWords("podx " + path, params);
  }

  /** A safe value is one shell word: no space and no quote; every other
      value, the empty one included, is shown quoted. */
  lemma ShownParamCases(v: string)
    ensures SafeParam(v) ==> ShownParam(v) == v && ' ' !in v && '"' !in v
    ensures !SafeParam(v) ==> ShownParam(v) == "\"" + v + "\""
    ensures ShownParam("") == "\"\""
  {
    if SafeParam(v) {
      assert forall k :: 0 <= k < |v| ==> v[k] != ' ' && v[k] != '"';
    }
  }

  lemma ParamWordsSnoc(params: Params, i: nat)
    requires i < |params|
    ensures ParamWords(params[..i + 1]) == ParamWords(params[..i]) + ParamWord(params[i])
  {
    var w := WordList(params[..i + 1]);
    assert w[..i] == WordList(params[..i]);
  }

  /** The words come one per parameter, in order: those of the parameters
      before `k`, then the word of parameter `k`, then those after it. */
  lemma ParamWordsAt(params: Params, k: nat)
    requires k < |params|
    ensures ParamWords(params) == ParamWords(params[..k]) + ParamWord(params[k]) + ParamWords(params[k + 1..])
  {
    Seqs.ConcatMapAt(ParamWord, params, k);
  }
}
