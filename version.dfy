/** The package version: the last key of the release history, read as a
    tuple of integers. */
module Version {
  import opened Wrappers
  import opened Strings
  import opened CliClient

  /** The keys of `VERSION_HISTORY`, in insertion order. */
  const HistoryKeys: seq<string> := ["0.1.9", "0.1.10"]

  /** `tuple(int(x) for x in key.split('.'))`. */
  function ParseVersionKey(key: string): (r: Result<seq<int>>)
    ensures r.Ok? <==> AllInts(Split(key, '.'))
    ensures r.Ok? ==> ReadsAs(Split(key, '.'), r.value)
  {
    IntsOrErrorMeaning(Split(key, '.'));
    IntsOrErrorSucceeds(Split(key, '.'));
    IntsOrError(Split(key, '.'))
  }

  /** `VERSION`: taken from the last key inserted into the history. */
  function VersionOf(keys: seq<string>): (r: Result<seq<int>>)
    ensures keys == [] ==> r == Err(IndexError("list index out of range"))
    ensures keys != [] ==> r == ParseVersionKey(keys[|keys| - 1])
    ensures r.Ok? ==> keys != [] && ReadsAs(Split(keys[|keys| - 1], '.'), r.value)
  {
    if keys == [] then Err(IndexError("list index out of range"))
    else ParseVersionKey(keys[|keys| - 1])
  }

  /** Printing a version with `fmt_version` and reading it back gives the version. */
  lemma FmtVersionRoundTrip(v: seq<int>, key: string)
    requires |v| >= 1 && key == FmtVersion(v)
    ensures ParseVersionKey(key) == Ok(v)
  {
    var texts := IntTexts(v);
    IntTextsShape(v, '.');
    SplitJoin(texts, '.');
    IntsOrErrorOfInts(texts, v);
  }

  /** Ten is printed "10". */
  lemma TenText(text: string)
    requires text == IntToString(10)
    ensures text == "10"
  {
    assert NatToString(10) == NatToString(1) + [DigitChar(0)];
  }

  /** The version (0, 1, 10) is printed "0.1.10". */
  lemma CurrentVersionText(text: string)
    requires text == FmtVersion([0, 1, 10])
    ensures text == "0.1.10"
  {
    FmtVersionThree(0, 1, 10);
    TenText(IntToString(10));
    assert IntToString(0) == "0" && IntToString(1) == "1";
  }

  /** A three-part version is its parts' texts with a dot between each two. */
  lemma FmtVersionThree(a: int, b: int, c: int)
    ensures FmtVersion([a, b, c]) == IntToString(a) + "." + IntToString(b) + "." + IntToString(c)
  {
    var ta, tb, tc := IntToString(a), IntToString(b), IntToString(c);
    assert IntTexts([a, b, c]) == [ta, tb, tc];
    JoinThree(ta, tb, tc, ".");
  }

  /** The current version is (0, 1, 10), printed "0.1.10". */
  lemma CurrentVersion(keys: seq<string>)
    requires keys == HistoryKeys
    ensures VersionOf(keys) == Ok([0, 1, 10])
  {
    var text := FmtVersion([0, 1, 10]);
    CurrentVersionText(text);
    FmtVersionRoundTrip([0, 1, 10], text);
    assert keys[|keys| - 1] == text;
  }
}
