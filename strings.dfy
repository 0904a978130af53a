/** The Python string operations the modelled code relies on, over ASCII:
    `str.split(sep)`, `sep.join`, `str.strip()`, `str.isdigit()`,
    `str.isalnum()`, `int(str)`, `str(int)` and `str.lower()`. */
module Strings {
  import opened Wrappers
  import Seqs

  // ---------------------------------------------------------------------
  // split / join on a one-character separator

  /** Index of the first occurrence of `c` in `s`. */
  function FirstIndex(s: string, c: char): (i: nat)
    requires c in s
    ensures i < |s| && s[i] == c
    ensures forall j :: 0 <= j < i ==> s[j] != c
  {
    if s[0] == c then 0 else 1 + FirstIndex(s[1..], c)
  }

  /** Python's `s.split(c)`: the maximal `c`-free pieces between occurrences of `c`. */
  function Split(s: string, c: char): (parts: seq<string>)
    ensures |parts| >= 1
    decreases |s|
  {
    if c !in s then [s]
    else
      var i := FirstIndex(s, c);
      [s[..i]] + Split(s[i + 1..], c)
  }

  /** Python's `sep.join(parts)`. */
  function Join(parts: seq<string>, sep: string): (r: string)
  {
    if |parts| == 0 then ""
    else if |parts| == 1 then parts[0]
    else parts[0] + sep + Join(parts[1..], sep)
  }

  lemma SplitNoSep(s: string, c: char)
    requires c !in s
    ensures Split(s, c) == [s]
  {}

  /** Splitting after a separator-free head peels that head off. */
  lemma SplitHead(a: string, c: char, b: string)
    requires c !in a
    ensures Split(a + [c] + b, c) == [a] + Split(b, c)
  {
    var s := a + [c] + b;
    assert s[|a|] == c;
    assert forall j :: 0 <= j < |a| ==> s[j] == a[j] && s[j] != c;
    var i := FirstIndex(s, c);
    assert i == |a|;
    assert s[..i] == a;
    assert s[i + 1..] == b;
  }

  lemma {:induction false} SplitPartsSepFree(s: string, c: char)
    ensures forall k :: 0 <= k < |Split(s, c)| ==> c !in Split(s, c)[k]
    decreases |s|
  {
    if c in s {
      var i := FirstIndex(s, c);
      SplitPartsSepFree(s[i + 1..], c);
      assert c !in s[..i] by {
        forall j | 0 <= j < i ensures s[..i][j] != c {}
      }
    }
  }

  lemma {:induction false} JoinSplit(s: string, c: char)
    ensures Join(Split(s, c), [c]) == s
    decreases |s|
  {
    if c in s {
      var i := FirstIndex(s, c);
      var rest := s[i + 1..];
      JoinSplit(rest, c);
      var tail := Split(rest, c);
      assert Split(s, c) == [s[..i]] + tail;
      JoinCons(s[..i], tail, [c]);
      Seqs.AroundIndex(s, i);
    }
  }

  /** Joining a head and a non-empty tail puts the separator between them. */
  lemma JoinCons(head: string, tail: seq<string>, sep: string)
    requires |tail| >= 1
    ensures Join([head] + tail, sep) == head + sep + Join(tail, sep)
  {
    var parts := [head] + tail;
    assert parts[0] == head && parts[1..] == tail;
  }

  /** Joining two and three pieces. */
  lemma JoinTwo(a: string, b: string, sep: string)
    ensures Join([a, b], sep) == a + sep + b
  {
    assert [a, b][1..] == [b];
  }

  lemma JoinThree(a: string, b: string, c: string, sep: string)
    ensures Join([a, b, c], sep) == a + sep + b + sep + c
  {
    assert [a, b, c][1..] == [b, c];
    JoinTwo(b, c, sep);
  }

  /** `s.split(c)[-1]`. */
  function LastPiece(s: string, c: char): string
  {
    var parts := Split(s, c);
    parts[|parts| - 1]
  }

  /** The last piece is the text after the last separator (all of the text
      when there is none). */
  lemma {:induction false} LastPieceIsTail(s: string, c: char)
    ensures |LastPiece(s, c)| <= |s| && s[|s| - |LastPiece(s, c)|..] == LastPiece(s, c)
    ensures |LastPiece(s, c)| < |s| ==> s[|s| - |LastPiece(s, c)| - 1] == c
    decreases |s|
  {
    var leaf := LastPiece(s, c);
    if c !in s {
      SplitNoSep(s, c);
      assert leaf == s;
    } else {
      var i := FirstIndex(s, c);
      var rest := s[i + 1..];
      LastPieceIsTail(rest, c);
      LastPieceSkip(s, c, i);
      TailAfter(s, i, leaf, c);
    }
  }

  /** A tail of the text after a separator at `i`, preceded there by a
      separator or by nothing, is such a tail of the whole text. */
  lemma TailAfter(s: string, i: nat, leaf: string, c: char)
    requires i < |s| && s[i] == c
    requires |leaf| <= |s| - i - 1 && s[i + 1..][|s| - i - 1 - |leaf|..] == leaf
    requires |leaf| < |s| - i - 1 ==> s[i + 1..][|s| - i - 1 - |leaf| - 1] == c
    ensures |leaf| <= |s| && s[|s| - |leaf|..] == leaf
    ensures |leaf| < |s| ==> s[|s| - |leaf| - 1] == c
  {
    Seqs.SuffixOfDrop(s, i + 1, |leaf|);
  }

  /** The last piece does not change when the text up to the first separator is dropped. */
  lemma LastPieceSkip(s: string, c: char, i: nat)
    requires c in s && i == FirstIndex(s, c)
    ensures LastPiece(s, c) == LastPiece(s[i + 1..], c)
  {
    var tail := Split(s[i + 1..], c);
    assert Split(s, c) == [s[..i]] + tail;
  }

  /** Split of three separator-free words joined by the separator. */
  lemma SplitThree(a: string, b: string, d: string, c: char)
    requires c !in a && c !in b && c !in d
    ensures Split(a + [c] + b + [c] + d, c) == [a, b, d]
  {
    var t := b + [c] + d;
    assert a + [c] + b + [c] + d == a + [c] + t;
    SplitHead(a, c, t);
    SplitHead(b, c, d);
    SplitNoSep(d, c);
    assert [a] + ([b] + [d]) == [a, b, d];
  }

  /** Splitting the join of separator-free parts gives the parts back. */
  lemma {:induction false} SplitJoin(parts: seq<string>, c: char)
    requires |parts| >= 1 && forall k :: 0 <= k < |parts| ==> c !in parts[k]
    ensures Split(Join(parts, [c]), c) == parts
    decreases |parts|
  {
    if |parts| == 1 {
      SplitNoSep(parts[0], c);
    } else {
      SplitJoin(parts[1..], c);
      SplitHead(parts[0], c, Join(parts[1..], [c]));
      assert [parts[0]] + parts[1..] == parts;
    }
  }

  /** Python's `s.endswith(t)`. */
  predicate EndsWith(s: string, t: string)
  {
    |t| <= |s| && s[|s| - |t|..] == t
  }

  lemma SplitTwo(a: string, b: string, c: char)
    requires c !in a && c !in b
    ensures Split(a + [c] + b, c) == [a, b]
  {
    SplitHead(a, c, b);
  }

  // ---------------------------------------------------------------------
  // whitespace

  /** Python's `str.isspace()` restricted to ASCII. */
  predicate IsSpace(ch: char)
  {
    ch == ' ' || ('\t' <= ch <= '\r') || (28 <= ch as int <= 31)
  }

  function StripLeft(s: string): (r: string)
    ensures |r| <= |s| && r == s[|s| - |r|..]
    ensures r == [] || !IsSpace(r[0])
  {
    if s != [] && IsSpace(s[0]) then StripLeft(s[1..]) else s
  }

  function StripRight(s: string): (r: string)
    ensures |r| <= |s| && r == s[..|r|]
    ensures r == [] || !IsSpace(r[|r| - 1])
  {
    if s != [] && IsSpace(s[|s| - 1]) then StripRight(s[..|s| - 1]) else s
  }

  /** Python's `s.strip()`: drop leading and trailing whitespace. */
  function Strip(s: string): (r: string)
    ensures r == [] || (!IsSpace(r[0]) && !IsSpace(r[|r| - 1]))
  {
    StripRight(StripLeft(s))
  }

  lemma StripNoSpace(s: string)
    requires s == [] || (!IsSpace(s[0]) && !IsSpace(s[|s| - 1]))
    ensures Strip(s) == s
  {}

  // ---------------------------------------------------------------------
  // character classes

  predicate IsDigitChar(ch: char) { '0' <= ch <= '9' }

  predicate IsAlphaChar(ch: char) { ('a' <= ch <= 'z') || ('A' <= ch <= 'Z') }

  /** Python's `str.isdigit()` over ASCII: non-empty and all decimal digits. */
  predicate IsDigits(s: string)
  {
    |s| > 0 && forall k :: 0 <= k < |s| ==> IsDigitChar(s[k])
  }

  /** Python's `str.isalnum()` over ASCII: non-empty and all letters or digits. */
  predicate IsAlnum(s: string)
  {
    |s| > 0 && forall k :: 0 <= k < |s| ==> IsAlphaChar(s[k]) || IsDigitChar(s[k])
  }

  function ToLowerChar(ch: char): char
  {
    if 'A' <= ch <= 'Z' then (ch - 'A' + 'a') as char else ch
  }

  /** `str.lower()` / `toLowerCase()` over ASCII. */
  function Lower(s: string): (r: string)
    ensures |r| == |s|
    ensures forall k :: 0 <= k < |s| ==> r[k] == ToLowerChar(s[k])
  {
    if s == [] then [] else [ToLowerChar(s[0])] + Lower(s[1..])
  }

  // ---------------------------------------------------------------------
  // integers and their decimal text

  function DigitChar(d: nat): (ch: char)
    requires d < 10
    ensures IsDigitChar(ch)
  {
    ('0' as int + d) as char
  }

  function DigitValue(ch: char): (d: nat)
    requires IsDigitChar(ch)
    ensures d < 10 && DigitChar(d) == ch
  {
    (ch - '0') as nat
  }

  /** The value of a string of decimal digits (leading zeros allowed). */
  function DigitsValue(s: string): nat
    requires forall k :: 0 <= k < |s| ==> IsDigitChar(s[k])
  {
    if s == [] then 0 else DigitsValue(s[..|s| - 1]) * 10 + DigitValue(s[|s| - 1])
  }

  /** Python's `str(n)` for a non-negative integer. */
  function NatToString(n: nat): (r: string)
    ensures IsDigits(r)
  {
    if n < 10 then [DigitChar(n)] else NatToString(n / 10) + [DigitChar(n % 10)]
  }

  /** Python's `str(i)`. */
  function IntToString(i: int): (r: string)
  {
    if i < 0 then "-" + NatToString(-i) else NatToString(i)
  }

  /** `str(i)` is a minus sign and digits. */
  lemma IntToStringChars(i: int)
    ensures forall k :: 0 <= k < |IntToString(i)| ==> IntToString(i)[k] == '-' || IsDigitChar(IntToString(i)[k])
    ensures |IntToString(i)| > 0 && IsDigitChar(IntToString(i)[|IntToString(i)| - 1])
  {
    if i < 0 {
      var d := NatToString(-i);
      var t := "-" + d;
      assert forall k :: 1 <= k < |t| ==> t[k] == d[k - 1];
    }
  }

  lemma {:induction false} DigitsValueOfNatToString(n: nat)
    ensures DigitsValue(NatToString(n)) == n
  {
    if n >= 10 {
      var s := NatToString(n / 10);
      DigitsValueOfNatToString(n / 10);
      var t := s + [DigitChar(n % 10)];
      assert t[..|t| - 1] == s;
    }
  }

  /** An optional sign followed by at least one decimal digit. */
  function ParseSigned(t: string): Option<int>
  {
    if t != [] && (t[0] == '+' || t[0] == '-') then
      if IsDigits(t[1..]) then
        var v: int := DigitsValue(t[1..]);
        Some(if t[0] == '-' then -v else v)
      else None
    else if IsDigits(t) then Some(DigitsValue(t))
    else None
  }

  /** Python's `int(s)` over ASCII: surrounding whitespace, an optional sign,
      then at least one decimal digit. */
  function ParseInt(s: string): (r: Option<int>)
  {
    ParseSigned(Strip(s))
  }

  lemma ParseSignedOfDigits(s: string)
    requires IsDigits(s)
    ensures ParseSigned(s) == Some(DigitsValue(s))
  {
    assert IsDigitChar(s[0]);
  }

  lemma ParseIntOfDigits(s: string)
    requires IsDigits(s)
    ensures ParseInt(s) == Some(DigitsValue(s))
  {
    StripNoSpace(s);
    ParseSignedOfDigits(s);
  }

  lemma ParseIntOfNegDigits(d: string)
    requires IsDigits(d)
    ensures ParseInt("-" + d) == Some(0 - DigitsValue(d) as int)
  {
    var t := "-" + d;
    assert t[|t| - 1] == d[|d| - 1];
    StripNoSpace(t);
    assert t[1..] == d;
  }

  /** `int(str(i)) == i`. */
  lemma ParseIntOfIntToString(i: int)
    ensures ParseInt(IntToString(i)) == Some(i)
  {
    DigitsValueOfNatToString(if i < 0 then -i else i);
    if i < 0 {
      ParseIntOfNegDigits(NatToString(-i));
    } else {
      ParseIntOfDigits(NatToString(i));
    }
  }

  // ---------------------------------------------------------------------
  // lists of integers

  /** All the values, or None as soon as one is missing. */
  function AllSome(opts: seq<Option<int>>): (r: Option<seq<int>>)
    ensures r.Some? ==> (|r.value| == |opts| && forall k :: 0 <= k < |opts| ==> opts[k] == Some(r.value[k]))
    ensures r.None? <==> exists k :: 0 <= k < |opts| && opts[k].None?
  {
    if opts == [] then Some([])
    else
      match opts[0]
      case None => None
      case Some(v) =>
        match AllSome(opts[1..])
        case None =>
          assert exists k :: 1 <= k < |opts| && opts[k].None? by {
            var k :| 0 <= k < |opts[1..]| && opts[1..][k].None?;
            assert opts[k + 1].None?;
          }
          None
        case Some(rest) => Some([v] + rest)
  }

  lemma {:induction false} AllSomeOfSomes(opts: seq<Option<int>>, vs: seq<int>)
    requires |opts| == |vs| && forall k :: 0 <= k < |opts| ==> opts[k] == Some(vs[k])
    ensures AllSome(opts) == Some(vs)
  {
    if opts != [] {
      AllSomeOfSomes(opts[1..], vs[1..]);
      assert [vs[0]] + vs[1..] == vs;
    }
  }

  /** `map(str, ids)`. */
  function IntTexts(ids: seq<int>): (r: seq<string>)
    ensures |r| == |ids| && forall k :: 0 <= k < |ids| ==> r[k] == IntToString(ids[k])
  {
    Seqs.Map(IntToString, ids)
  }

  /** The decimal text of an integer holds no character other than '-' and digits. */
  lemma IntTextAvoids(i: int, c: char)
    requires c != '-' && !IsDigitChar(c)
    ensures c !in IntToString(i)
  {
    IntToStringChars(i);
    var t := IntToString(i);
    assert forall k :: 0 <= k < |t| ==> t[k] != c;
  }

  /** `int(s)`, with the error Python raises for a malformed literal. */
  function IntOrError(s: string): (r: Result<int>)
    ensures r.Err? <==> ParseInt(s).None?
    ensures r.Ok? ==> ParseInt(s) == Some(r.value)
  {
    match ParseInt(s)
    case None => Err(ValueError("invalid literal for int() with base 10: '" + s + "'"))
    case Some(n) => Ok(n)
  }

  /** The first error among `rs`, or all their values when there is none. */
  function Collect(rs: seq<Result<int>>): Result<seq<int>>
  {
    if rs == [] then Ok([])
    else
      match rs[0]
      case Err(e) => Err(e)
      case Ok(v) =>
        match Collect(rs[1..])
        case Err(e) => Err(e)
        case Ok(rest) => Ok([v] + rest)
  }

  /** `Collect` succeeds with the values of `rs`, position by position, or
      fails with the error of one of them. */
  lemma {:induction false} CollectMeaning(rs: seq<Result<int>>)
    ensures Collect(rs).Ok? ==>
      |Collect(rs).value| == |rs| && forall k :: 0 <= k < |rs| ==> rs[k] == Ok(Collect(rs).value[k])
    ensures Collect(rs).Err? ==> exists k :: 0 <= k < |rs| && rs[k].Err? && rs[k].error == Collect(rs).error
  {
    if rs != [] {
      var tail := rs[1..];
      CollectMeaning(tail);
      if rs[0].Ok? && Collect(tail).Ok? {
        var vs := [rs[0].value] + Collect(tail).value;
        forall k | 0 < k < |rs| ensures rs[k] == Ok(vs[k]) {
          assert rs[k] == tail[k - 1] && vs[k] == Collect(tail).value[k - 1];
        }
      } else if rs[0].Ok? {
        var k :| 0 <= k < |tail| && tail[k].Err? && tail[k].error == Collect(tail).error;
        assert rs[k + 1] == tail[k];
      }
    }
  }

  /** Values at every position are collected as they are. */
  lemma {:induction false} CollectOfOks(rs: seq<Result<int>>, vs: seq<int>)
    requires |rs| == |vs| && forall k :: 0 <= k < |rs| ==> rs[k] == Ok(vs[k])
    ensures Collect(rs) == Ok(vs)
  {
    if rs != [] {
      CollectOfOks(rs[1..], vs[1..]);
      assert [vs[0]] + vs[1..] == vs;
    }
  }

  /** Collecting two lists one after the other: an error in the first is
      the error of the whole. */
  lemma {:induction false} CollectAppendErr(a: seq<Result<int>>, b: seq<Result<int>>)
    requires Collect(a).Err?
    ensures Collect(a + b) == Collect(a)
  {
    assert (a + b)[0] == a[0] && (a + b)[1..] == a[1..] + b;
    if a[0].Ok? {
      CollectAppendErr(a[1..], b);
    }
  }

  /** Collecting two lists one after the other: when the first succeeds,
      the second decides, and the values are joined. */
  lemma {:induction false} CollectAppendOk(a: seq<Result<int>>, b: seq<Result<int>>)
    requires Collect(a).Ok?
    ensures Collect(b).Err? ==> Collect(a + b) == Collect(b)
    ensures Collect(b).Ok? ==> Collect(a + b) == Ok(Collect(a).value + Collect(b).value)
  {
    if a == [] {
      assert a + b == b;
      if Collect(b).Ok? {
        assert [] + Collect(b).value == Collect(b).value;
      }
    } else {
      assert (a + b)[0] == a[0] && (a + b)[1..] == a[1..] + b;
      CollectAppendOk(a[1..], b);
      if Collect(b).Ok? {
        var v, ta, tb := a[0].value, Collect(a[1..]).value, Collect(b).value;
        assert [v] + (ta + tb) == [v] + ta + tb;
      }
    }
  }

  /** `int(x)` of each part, in order. */
  function IntResults(parts: seq<string>): (rs: seq<Result<int>>)
    ensures |rs| == |parts| && forall k :: 0 <= k < |parts| ==> rs[k] == IntOrError(parts[k])
  {
    Seqs.Map(IntOrError, parts)
  }

  /** `[int(x) for x in parts]`: the values, or the error of the first part that is not an integer. */
  function IntsOrError(parts: seq<string>): Result<seq<int>>
  {
    Collect(IntResults(parts))
  }

  /** `parts`, read one by one with `int`, are the integers `vs`. */
  predicate ReadsAs(parts: seq<string>, vs: seq<int>)
  {
    |parts| == |vs| && forall k :: 0 <= k < |parts| ==> ParseInt(parts[k]) == Some(vs[k])
  }

  /** A successful conversion gives each part's value at its position; a
      failed one gives the error of a part that is not an integer. */
  lemma IntsOrErrorMeaning(parts: seq<string>)
    ensures IntsOrError(parts).Ok? ==> ReadsAs(parts, IntsOrError(parts).value)
    ensures IntsOrError(parts).Err? ==>
      exists k :: 0 <= k < |parts| && ParseInt(parts[k]).None? && IntOrError(parts[k]).error == IntsOrError(parts).error
  {
    var rs := IntResults(parts);
    CollectMeaning(rs);
    if Collect(rs).Err? {
      var k :| 0 <= k < |rs| && rs[k].Err? && rs[k].error == Collect(rs).error;
      assert IntOrError(parts[k]).Err?;
    }
  }

  /** Every part reads as an integer. */
  predicate AllInts(parts: seq<string>)
  {
    forall k :: 0 <= k < |parts| ==> ParseInt(parts[k]).Some?
  }

  /** The conversion succeeds exactly when every part is an integer. */
  lemma IntsOrErrorSucceeds(parts: seq<string>)
    ensures IntsOrError(parts).Ok? <==> AllInts(parts)
  {
    IntsOrErrorMeaning(parts);
    if IntsOrError(parts).Ok? {
      var vs := IntsOrError(parts).value;
      forall k | 0 <= k < |parts| ensures ParseInt(parts[k]).Some? {
        assert ParseInt(parts[k]) == Some(vs[k]);
      }
    }
  }

  /** Parts that all read as integers convert to those integers. */
  lemma IntsOrErrorOfInts(parts: seq<string>, vs: seq<int>)
    requires ReadsAs(parts, vs)
    ensures IntsOrError(parts) == Ok(vs)
  {
    CollectOfOks(IntResults(parts), vs);
  }

  /** Each text of `IntTexts(v)` avoids `c` and reads back as its integer. */
  lemma IntTextsShape(v: seq<int>, c: char)
    requires c != '-' && !IsDigitChar(c)
    ensures forall k :: 0 <= k < |v| ==> c !in IntTexts(v)[k] && ParseInt(IntTexts(v)[k]) == Some(v[k])
  {
    var texts := IntTexts(v);
    forall k | 0 <= k < |v| ensures c !in texts[k] && ParseInt(texts[k]) == Some(v[k]) {
      assert texts[k] == IntToString(v[k]);
      IntTextAvoids(v[k], c);
      ParseIntOfIntToString(v[k]);
    }
  }

  /** Converting two lists one after the other: an error in the first is
      the error of the whole. */
  lemma IntsOrErrorAppendErr(a: seq<string>, b: seq<string>)
    requires IntsOrError(a).Err?
    ensures IntsOrError(a + b) == IntsOrError(a)
  {
    Seqs.MapAppend(IntOrError, a, b);
    CollectAppendErr(IntResults(a), IntResults(b));
  }

  /** Converting two lists one after the other: when the first converts, the
      second decides, and the results are joined. */
  lemma IntsOrErrorAppendOk(a: seq<string>, b: seq<string>)
    requires IntsOrError(a).Ok?
    ensures IntsOrError(b).Err? ==> IntsOrError(a + b) == IntsOrError(b)
    ensures IntsOrError(b).Ok? ==> IntsOrError(a + b) == Ok(IntsOrError(a).value + IntsOrError(b).value)
  {
    Seqs.MapAppend(IntOrError, a, b);
    CollectAppendOk(IntResults(a), IntResults(b));
  }

  /** One part converts to its value, or fails with its error. */
  lemma IntsOrErrorSingle(t: string)
    ensures IntOrError(t).Err? ==> IntsOrError([t]) == Err(IntOrError(t).error)
    ensures IntOrError(t).Ok? ==> IntsOrError([t]) == Ok([IntOrError(t).value])
  {
    var rs := IntResults([t]);
    assert rs == [IntOrError(t)];
    assert Collect(rs[1..]) == Ok([]);
    if IntOrError(t).Ok? {
      assert [IntOrError(t).value] + [] == [IntOrError(t).value];
    }
  }
}
