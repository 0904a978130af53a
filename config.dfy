/** The server configuration record and the `available_ports` parser of
    `config()`: comma-separated tokens, each a port `p` or a range `a-b`. */
module PodyConfig {
  import opened Wrappers
  import opened Strings

  /** A sanctioned base image. */
  datatype ImageConfig = ImageConfig(name: string, ports: seq<int>, description: string)

  /** One entry of `available_ports`: an int or an (start, end) tuple. */
  datatype PortSpec = Single(port: int) | Range(start: int, end: int)

  datatype Config = Config(
    namePrefix: string,
    availablePorts: seq<PortSpec>,
    images: seq<ImageConfig>,
    volumeMappings: seq<string>)

  const MaxPort := 65535

  // ---------------------------------------------------------------------
  // specification of parse_ports

  /** What the first loop does with one comma-separated token. */
  function ParseToken(tok: string): (r: Result<PortSpec>)
    ensures r.Ok? && r.value.Range? ==> r.value.start >= 0 && r.value.end >= 0
    ensures r.Ok? && r.value.Single? ==> r.value.port >= 0
    ensures r.Err? ==> r.error.ValueError? || r.error.AssertionError?
  {
    if '-' in tok then
      var parts := Split(tok, '-');
      if |parts| != 2 then Err(ValueError("too many values to unpack (expected 2)"))
      else
        var start, end := Strip(parts[0]), Strip(parts[1]);
        if !(IsDigits(start) && IsDigits(end)) then Err(AssertionError(""))
        else Ok(Range(DigitsValue(start), DigitsValue(end)))
    else
      var p := Strip(tok);
      if !IsDigits(p) then Err(AssertionError("Port must be an integer"))
      else Ok(Single(DigitsValue(p)))
  }

  /** The first loop over the tokens: stops at the first token that fails. */
  function ParseTokens(toks: seq<string>): Result<seq<PortSpec>>
  {
    if toks == [] then Ok([])
    else
      match ParseTokens(toks[..|toks| - 1])
      case Err(e) => Err(e)
      case Ok(ps) =>
        match ParseToken(toks[|toks| - 1])
        case Err(e) => Err(e)
        case Ok(p) => Ok(ps + [p])
  }

  /** The validity check the second loop applies to one entry. */
  function CheckPort(p: PortSpec): Option<Error>
  {
    match p
    case Range(start, end) =>
      if !(start < end) then Some(AssertionError("Invalid port range"))
      else if !(start >= 0 && end <= MaxPort) then Some(AssertionError("Port range must be between 0 and 65535"))
      else None
    case Single(port) =>
      if !(port >= 0 && port <= MaxPort) then Some(AssertionError("Port must be between 0 and 65535"))
      else None
  }

  /** The second loop: the first entry that fails its check, if any. */
  function FirstInvalid(ps: seq<PortSpec>): Option<Error>
  {
    if ps == [] then None
    else if FirstInvalid(ps[..|ps| - 1]).Some? then FirstInvalid(ps[..|ps| - 1])
    else CheckPort(ps[|ps| - 1])
  }

  /** `parse_ports` as a whole: the parsed entries, or the first error of
      either loop; every entry it accepts is a valid port or range. */
  function ParsePortsSpec(s: string): (r: Result<seq<PortSpec>>)
    ensures r.Ok? ==> forall k :: 0 <= k < |r.value| ==> ValidPort(r.value[k])
  {
    match ParseTokens(Split(s, ','))
    case Err(e) => Err(e)
    case Ok(ps) =>
      if FirstInvalid(ps).Some? then Err(FirstInvalid(ps).value)
      else
        FirstInvalidNoneAllValid(ps);
        Ok(ps)
  }

  /** A port entry the configuration accepts. */
  predicate ValidPort(p: PortSpec)
  {
    match p
    case Range(start, end) => 0 <= start < end <= MaxPort
    case Single(port) => 0 <= port <= MaxPort
  }

  // ---------------------------------------------------------------------
  // parse_ports, as the source runs it

  /** Once a prefix of the tokens fails, every longer prefix fails the same way. */
  lemma {:induction false} ParseTokensErrSticks(toks: seq<string>, i: nat, e: Error)
    requires i <= |toks| && ParseTokens(toks[..i]) == Err(e)
    ensures ParseTokens(toks) == Err(e)
    decreases |toks| - i
  {
    if i < |toks| {
      assert toks[..i + 1][..i] == toks[..i];
      ParseTokensErrSticks(toks, i + 1, e);
    } else {
      assert toks[..i] == toks;
    }
  }

  lemma {:induction false} FirstInvalidSticks(ps: seq<PortSpec>, i: nat, e: Error)
    requires i <= |ps| && FirstInvalid(ps[..i]) == Some(e)
    ensures FirstInvalid(ps) == Some(e)
    decreases |ps| - i
  {
    if i < |ps| {
      assert ps[..i + 1][..i] == ps[..i];
      FirstInvalidSticks(ps, i + 1, e);
    } else {
      assert ps[..i] == ps;
    }
  }

  /** One more token: its error, or its entry appended. */
  lemma ParseTokensPrefixStep(toks: seq<string>, i: nat)
    requires i < |toks| && ParseTokens(toks[..i]).Ok?
    ensures ParseToken(toks[i]).Err? ==> ParseTokens(toks[..i + 1]) == Err(ParseToken(toks[i]).error)
    ensures ParseToken(toks[i]).Ok? ==>
      ParseTokens(toks[..i + 1]) == Ok(ParseTokens(toks[..i]).value + [ParseToken(toks[i]).value])
  {
    assert toks[..i + 1][..i] == toks[..i];
    assert toks[..i + 1][i] == toks[i];
  }

  /** One more entry, after valid ones: its own check decides. */
  lemma FirstInvalidPrefixStep(ps: seq<PortSpec>, j: nat)
    requires j < |ps| && FirstInvalid(ps[..j]).None?
    ensures FirstInvalid(ps[..j + 1]) == CheckPort(ps[j])
  {
    assert ps[..j + 1][..j] == ps[..j];
    assert ps[..j + 1][j] == ps[j];
  }

  /** `parse_ports`: the append loop, then the validation loop. */
  method ParsePorts(portsStr: string) returns (r: Result<seq<PortSpec>>)
    ensures r == ParsePortsSpec(portsStr)
  {
    var ports: seq<PortSpec> := [];
    var toks := Split(portsStr, ',');
    var i := 0;
    while i < |toks|
      invariant 0 <= i <= |toks|
      invariant ParseTokens(toks[..i]) == Ok(ports)
    {
      ParseTokensPrefixStep(toks, i);
      var t := ParseToken(toks[i]);
      if t.Err? {
        ParseTokensErrSticks(toks, i + 1, t.error);
        return Err(t.error);
      }
      ports := ports + [t.value];
      i := i + 1;
    }
    assert toks[..i] == toks;
    var j := 0;
    while j < |ports|
      invariant 0 <= j <= |ports|
      invariant FirstInvalid(ports[..j]).None?
    {
      FirstInvalidPrefixStep(ports, j);
      var bad := CheckPort(ports[j]);
      if bad.Some? {
        FirstInvalidSticks(ports, j + 1, bad.value);
        return Err(bad.value);
      }
      j := j + 1;
    }
    assert ports[..j] == ports;
    r := Ok(ports);
  }

  // ---------------------------------------------------------------------
  // properties of the specification

  /** Token by token: entry k of an accepted list is what token k parses to. */
  lemma {:induction false} ParseTokensPointwise(toks: seq<string>, ps: seq<PortSpec>)
    requires ParseTokens(toks) == Ok(ps)
    ensures |ps| == |toks|
    ensures forall k :: 0 <= k < |toks| ==> ParseToken(toks[k]) == Ok(ps[k])
  {
    if toks != [] {
      var init := toks[..|toks| - 1];
      match ParseTokens(init)
      case Ok(qs) =>
        ParseTokensPointwise(init, qs);
        assert ps == qs + [ps[|ps| - 1]];
        forall k | 0 <= k < |toks| ensures ParseToken(toks[k]) == Ok(ps[k]) {
          if k < |toks| - 1 { assert toks[k] == init[k]; }
        }
    }
  }

  lemma {:induction false} FirstInvalidNoneAllValid(ps: seq<PortSpec>)
    requires FirstInvalid(ps).None?
    ensures forall k :: 0 <= k < |ps| ==> ValidPort(ps[k])
  {
    if ps != [] {
      var init := ps[..|ps| - 1];
      FirstInvalidNoneAllValid(init);
      forall k | 0 <= k < |ps| ensures ValidPort(ps[k]) {
        if k < |ps| - 1 { assert ps[k] == init[k]; }
      }
    }
  }

  /** One entry per comma-separated token, in input order, each the parse of its token. */
  lemma ParsedEntryPerToken(s: string, ps: seq<PortSpec>)
    requires ParsePortsSpec(s) == Ok(ps)
    ensures |ps| == |Split(s, ',')|
    ensures forall k :: 0 <= k < |ps| ==> ParseToken(Split(s, ',')[k]) == Ok(ps[k])
  {
    ParseTokensPointwise(Split(s, ','), ps);
  }

  /** Every accepted entry is within 0..65535, and every range is increasing. */
  lemma ParsedPortsValid(s: string, ps: seq<PortSpec>)
    requires ParsePortsSpec(s) == Ok(ps)
    ensures forall k :: 0 <= k < |ps| ==> ValidPort(ps[k])
  {
    FirstInvalidNoneAllValid(ps);
  }

  /** A token with a dash becomes a range of its two stripped digit strings;
      any other token a single port of its stripped digit string. */
  lemma TokenShape(tok: string, p: PortSpec)
    requires ParseToken(tok) == Ok(p)
    ensures p.Range? <==> '-' in tok
    ensures p.Range? ==> (|Split(tok, '-')| == 2
      && p.start == DigitsValue(Strip(Split(tok, '-')[0]))
      && p.end == DigitsValue(Strip(Split(tok, '-')[1])))
    ensures p.Single? ==> p.port == DigitsValue(Strip(tok))
  {}

  /** A token with more than one dash, or one that is not digits, is rejected. */
  lemma TokenRejections(tok: string)
    ensures |Split(tok, '-')| > 2 ==> ParseToken(tok).Err? && ParseToken(tok).error.ValueError?
    ensures '-' !in tok && !IsDigits(Strip(tok)) ==> ParseToken(tok).Err?
  {
    if |Split(tok, '-')| > 2 {
      assert '-' in tok;
    }
  }

  /** The empty specification is rejected. */
  lemma EmptySpecRejected()
    ensures ParsePortsSpec("").Err?
  {
    assert Split("", ',') == [""];
    assert Strip("") == "";
    assert ParseTokens([""]) == Err(AssertionError("Port must be an integer")) by {
      assert [""][..0] == [];
    }
  }

  /** The decimal text of a literal port number reads back as that number. */
  lemma LiteralPort(n: nat)
    ensures Strip(NatToString(n)) == NatToString(n)
    ensures DigitsValue(NatToString(n)) == n
  {
    StripNoSpace(NatToString(n));
    DigitsValueOfNatToString(n);
  }

  /** Printing a range and reading it back gives the range. */
  lemma RangeTokenOf(x: nat, y: nat)
    ensures ParseToken(NatToString(x) + "-" + NatToString(y)) == Ok(Range(x, y))
  {
    var a, b := NatToString(x), NatToString(y);
    var tok := a + "-" + b;
    assert tok[|a|] == '-';
    assert '-' !in a && '-' !in b;
    SplitTwo(a, b, '-');
    assert tok == a + ['-'] + b;
    assert Split(tok, '-') == [a, b];
    LiteralPort(x);
    LiteralPort(y);
    assert Strip(a) == a && Strip(b) == b;
    assert IsDigits(a) && IsDigits(b);
    assert '-' in tok;
  }

  /** Printing a port and reading it back gives the port. */
  lemma SingleTokenOf(x: nat)
    ensures ParseToken(NatToString(x)) == Ok(Single(x))
  {
    assert '-' !in NatToString(x);
    LiteralPort(x);
  }

  lemma ParseTokensSnoc(toks: seq<string>, t: string, ps: seq<PortSpec>, p: PortSpec)
    requires ParseTokens(toks) == Ok(ps) && ParseToken(t) == Ok(p)
    ensures ParseTokens(toks + [t]) == Ok(ps + [p])
  {
    assert (toks + [t])[..|toks|] == toks;
  }

  lemma FirstInvalidSnoc(ps: seq<PortSpec>, p: PortSpec)
    requires FirstInvalid(ps).None? && ValidPort(p)
    ensures FirstInvalid(ps + [p]).None?
  {
    assert (ps + [p])[..|ps|] == ps;
  }

  lemma SplitRangeThenSingle(x: nat, y: nat, z: nat)
    ensures Split(NatToString(x) + "-" + NatToString(y) + "," + NatToString(z), ',')
         == [NatToString(x) + "-" + NatToString(y), NatToString(z)]
  {
    var r, c := NatToString(x) + "-" + NatToString(y), NatToString(z);
    assert ',' !in NatToString(x) && ',' !in NatToString(y) && ',' !in c;
    assert ',' !in r;
    assert r + "," + c == r + [','] + c;
    SplitTwo(r, c, ',');
  }

  lemma TokensRangeThenSingle(x: nat, y: nat, z: nat)
    ensures ParseTokens([NatToString(x) + "-" + NatToString(y), NatToString(z)])
         == Ok([Range(x, y), Single(z)])
  {
    RangeTokenOf(x, y);
    SingleTokenOf(z);
    ParseTokensTwo(NatToString(x) + "-" + NatToString(y), NatToString(z), Range(x, y), Single(z));
  }

  lemma ParseTokensTwo(a: string, b: string, p: PortSpec, q: PortSpec)
    requires ParseToken(a) == Ok(p) && ParseToken(b) == Ok(q)
    ensures ParseTokens([a, b]) == Ok([p, q])
  {
    ParseTokensSnoc([], a, [], p);
    assert [] + [a] == [a] && [] + [p] == [p];
    ParseTokensSnoc([a], b, [p], q);
    assert [a] + [b] == [a, b] && [p] + [q] == [p, q];
  }

  lemma ValidRangeThenSingle(x: nat, y: nat, z: nat)
    requires x < y <= MaxPort && z <= MaxPort
    ensures FirstInvalid([Range(x, y), Single(z)]).None?
  {
    var p, q := Range(x, y), Single(z);
    FirstInvalidSnoc([], p);
    assert [] + [p] == [p];
    FirstInvalidSnoc([p], q);
    assert [p] + [q] == [p, q];
  }

  /** A range token followed by a single-port token. */
  lemma RangeThenSingle(x: nat, y: nat, z: nat)
    requires x < y <= MaxPort && z <= MaxPort
    ensures ParsePortsSpec(NatToString(x) + "-" + NatToString(y) + "," + NatToString(z))
         == Ok([Range(x, y), Single(z)])
  {
    SplitRangeThenSingle(x, y, z);
    TokensRangeThenSingle(x, y, z);
    ValidRangeThenSingle(x, y, z);
  }

  /** `"2200-2202,9000"` parses to `[(2200, 2202), 9000]`. */
  lemma ExampleSpec(spec: string)
    requires spec == "2200-2202,9000"
    ensures ParsePortsSpec(spec) == Ok([Range(2200, 2202), Single(9000)])
  {
    ExampleNumbers();
    var a, b, c := NatToString(2200), NatToString(2202), NatToString(9000);
    assert spec == a + "-" + b + "," + c;
    RangeThenSingle(2200, 2202, 9000);
  }

  /** The decimal texts of the example's numbers. */
  lemma ExampleNumbers()
    ensures NatToString(2200) == "2200" && NatToString(2202) == "2202" && NatToString(9000) == "9000"
  {
    assert NatToString(22) == "22";
    assert NatToString(220) == "220";
    assert NatToString(90) == "90";
    assert NatToString(900) == "900";
  }
}
