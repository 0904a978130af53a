/** Storage sizes written as `8g`, `512m` or plain byte counts, and their
    whole-unit rendering. */
module StorageSize {
  import opened Wrappers
  import opened Strings

  const KiB: nat := 1024
  const MiB: nat := 1048576
  const GiB: nat := 1073741824
  const TiB: nat := 1099511627776

  /** The multiplier of a (lower-case) unit letter. */
  function UnitFactor(c: char): Option<nat>
  {
    match c
    case 'b' => Some(1)
    case 'k' => Some(KiB)
    case 'm' => Some(MiB)
    case 'g' => Some(GiB)
    case 't' => Some(TiB)
    case _ => None
  }

  /** `parse_storage_size`: a trailing digit means a plain byte count; a
      trailing unit letter, in either case, multiplies the number before it. */
  function ParseStorageSize(s: string): (r: Result<int>)
    ensures s == [] ==> r.Err?
    ensures r.Ok? ==> IsDigitChar(s[|s| - 1]) || UnitFactor(ToLowerChar(s[|s| - 1])).Some?
  {
    if s == [] then Err(IndexError("string index out of range"))
    else if IsDigitChar(s[|s| - 1]) then IntOrError(s)
    else
      match UnitFactor(ToLowerChar(s[|s| - 1]))
      case None => Err(ValueError("Invalid file size string: " + s))
      case Some(f) =>
        match IntOrError(s[..|s| - 1])
        case Err(e) => Err(e)
        case Ok(n) => Ok(n * f)
  }

  /** The unit `format_storage_size` shows a size in: the largest of K, M, G
      and T whose threshold the size reaches, bytes below 1 KiB. */
  function ShownUnit(size: int): (u: (nat, char))
    ensures u.0 >= 1
    ensures u.1 == 'B' <==> size < KiB
    ensures KiB <= size ==> u.0 <= size
    ensures KiB <= size && u.1 != 'T' ==> size < u.0 * 1024
  {
    if size < KiB then (1, 'B')
    else if size < MiB then (KiB, 'K')
    else if size < GiB then (MiB, 'M')
    else if size < TiB then (GiB, 'G')
    else (TiB, 'T')
  }

  /** `format_storage_size(size, precision=0)`: the whole number of units, then the unit letter. */
  function FormatStorageSize(size: int): (r: string)
    ensures |r| >= 2 && r[|r| - 1] in "BKMGT"
    ensures size < KiB <==> r[|r| - 1] == 'B'
  {
    var (f, c) := ShownUnit(size);
    IntToString(size / f) + [c]
  }

  // ---------------------------------------------------------------------
  // properties

  /** A digit, then a unit letter: the digits' value times the unit, for
      both cases of the letter. */
  lemma ParseWithUnit(d: string, c: char)
    requires IsDigits(d)
    requires UnitFactor(ToLowerChar(c)).Some? && !IsDigitChar(c)
    ensures ParseStorageSize(d + [c]) == Ok(DigitsValue(d) * UnitFactor(ToLowerChar(c)).value)
  {
    var s := d + [c];
    assert s[..|s| - 1] == d;
    ParseIntOfDigits(d);
  }

  /** The unit letters and their multipliers, in both cases. */
  lemma UnitLetters(c: char)
    ensures UnitFactor(ToLowerChar(c)).Some? <==> c in "bkmgtBKMGT"
    ensures c == 'k' || c == 'K' ==> UnitFactor(ToLowerChar(c)) == Some(1024)
    ensures c == 'm' || c == 'M' ==> UnitFactor(ToLowerChar(c)) == Some(1024 * 1024)
    ensures c == 'g' || c == 'G' ==> UnitFactor(ToLowerChar(c)) == Some(1024 * 1024 * 1024)
    ensures c == 't' || c == 'T' ==> UnitFactor(ToLowerChar(c)) == Some(1024 * 1024 * 1024 * 1024)
  {}

  /** A string ending in a digit is read as a plain integer. */
  lemma ParseTrailingDigit(s: string)
    requires s != [] && IsDigitChar(s[|s| - 1])
    ensures ParseStorageSize(s) == IntOrError(s)
  {}

  /** The "invalid size" error is raised exactly for a non-empty string whose
      last character is neither a digit nor a unit letter. */
  lemma ParseBadSuffix(s: string)
    ensures ParseStorageSize(s) == Err(ValueError("Invalid file size string: " + s)) <==>
      s != [] && !IsDigitChar(s[|s| - 1]) && UnitFactor(ToLowerChar(s[|s| - 1])).None?
  {
    if s != [] && !IsDigitChar(s[|s| - 1]) && UnitFactor(ToLowerChar(s[|s| - 1])).Some? {
      var t := s[..|s| - 1];
      var bad := "invalid literal for int() with base 10: '" + t + "'";
      assert bad[0] == 'i';
      assert ("Invalid file size string: " + s)[0] == 'I';
    } else if s != [] && IsDigitChar(s[|s| - 1]) {
      var bad := "invalid literal for int() with base 10: '" + s + "'";
      assert bad[0] == 'i';
      assert ("Invalid file size string: " + s)[0] == 'I';
    }
  }

  /** The text of a whole number followed by a unit letter parses back to
      that number times the unit. */
  lemma ParseShown(q: int, c: char)
    requires UnitFactor(ToLowerChar(c)).Some? && !IsDigitChar(c)
    ensures ParseStorageSize(IntToString(q) + [c]) == Ok(q * UnitFactor(ToLowerChar(c)).value)
  {
    var s := IntToString(q) + [c];
    assert s[..|s| - 1] == IntToString(q);
    ParseIntOfIntToString(q);
  }

  /** Formatting, then parsing, rounds a size down to a whole number of the
      unit it is shown in, and so loses less than one such unit. */
  lemma FormatParseFloor(size: int)
    requires size >= 0
    ensures ParseStorageSize(FormatStorageSize(size)) == Ok(size / ShownUnit(size).0 * ShownUnit(size).0)
    ensures 0 <= size - size / ShownUnit(size).0 * ShownUnit(size).0 < ShownUnit(size).0
  {
    var (f, c) := ShownUnit(size);
    var n := size / f;
    ShownUnitLetter(size);
    ParseShown(n, c);
    assert FormatStorageSize(size) == IntToString(n) + [c];
    DivModParts(size, f);
  }

  /** The letter a size is shown with reads back as its unit. */
  lemma ShownUnitLetter(size: int)
    ensures UnitFactor(ToLowerChar(ShownUnit(size).1)) == Some(ShownUnit(size).0)
    ensures !IsDigitChar(ShownUnit(size).1)
  {}

  lemma DivModParts(size: int, f: nat)
    requires f >= 1
    ensures size / f * f == size - size % f && 0 <= size % f < f
  {}

  /** Below 1 KiB a size is shown in bytes; otherwise the shown number is
      between 1 and 1023, except in tebibytes where it is unbounded. */
  lemma ShownNumberRange(size: int)
    ensures size < KiB ==> FormatStorageSize(size) == IntToString(size) + "B"
    ensures KiB <= size ==> 1 <= size / ShownUnit(size).0
    ensures KiB <= size && ShownUnit(size).1 != 'T' ==> size / ShownUnit(size).0 < 1024
  {}

  /** 1024 to the power `k`, for the units this module knows. */
  function Pow1024(k: nat): nat
    requires k <= 4
  {
    if k == 0 then 1 else if k == 1 then KiB else if k == 2 then MiB else if k == 3 then GiB else TiB
  }

  /** A size that is a whole number of the unit it is shown in survives the round trip. */
  lemma ExactWhenWhole(size: int)
    requires size >= 0 && size % ShownUnit(size).0 == 0
    ensures ParseStorageSize(FormatStorageSize(size)) == Ok(size)
  {
    var f := ShownUnit(size).0;
    FormatParseFloor(size);
    DivModParts(size, f);
    assert size / f * f == size;
  }

  /** Whole multiples below 1024 of a power of 1024 survive the round trip exactly. */
  lemma RoundTripWholeUnits(n: nat, k: nat)
    requires n < 1024 && k <= 4
    ensures ParseStorageSize(FormatStorageSize(n * Pow1024(k))) == Ok(n * Pow1024(k))
  {
    var size := n * Pow1024(k);
    if n == 0 {
      assert size == 0;
    } else if k == 0 {
      assert ShownUnit(size).0 == 1;
    } else if k == 1 {
      assert ShownUnit(size).0 == KiB && size % KiB == 0;
    } else if k == 2 {
      assert ShownUnit(size).0 == MiB && size % MiB == 0;
    } else if k == 3 {
      assert ShownUnit(size).0 == GiB && size % GiB == 0;
    } else {
      assert ShownUnit(size).0 == TiB && size % TiB == 0;
    }
    ExactWhenWhole(size);
  }
}
