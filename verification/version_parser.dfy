/** `CardanoNodeMonitor._parse_version`: advisory parsing of a release tag
    such as "v10.1.2" or "v10.2.0-pre" into its numeric components and a
    pre-release flag, with a fixed fallback when the tag does not parse. */
module VersionParser {
  import opened Strings
  import opened Release

  datatype ParsedVersion = ParsedVersion(numbers: seq<nat>, isPreRelease: bool)

  /** What the parser answers for a tag it cannot read: `((0, 0, 0), False)`. */
  const Fallback := ParsedVersion([0, 0, 0], false)

  predicate IsDigit(c: char)
  {
    '0' <= c <= '9'
  }

  /** The strings `int()` accepts in this model: non-empty runs of ASCII digits
      (leading zeros allowed, as in Python). */
  predicate IsNumeral(s: string)
  {
    |s| > 0 && AllDigits(s)
  }

  predicate AllDigits(s: string)
  {
    forall i :: 0 <= i < |s| ==> IsDigit(s[i])
  }

  function DigitValue(c: char): nat
  {
    if IsDigit(c) then c as int - '0' as int else 0
  }

  /** Decimal value of a run of digits (only ever applied to numerals). */
  function NumeralValue(s: string): nat
  {
    if |s| == 0 then 0 else 10 * NumeralValue(s[..|s| - 1]) + DigitValue(s[|s| - 1])
  }

  /** `int(s)`: the value of a numeral, None where Python raises ValueError. */
  function ParseInt(s: string): (r: Option<nat>)
    ensures r.Some? <==> IsNumeral(s)
    ensures r.Some? ==> r.value == NumeralValue(s)
  {
    if IsNumeral(s) then Some(NumeralValue(s)) else None
  }

  /** `tuple(map(int, fields))`: all fields converted, in order, or None as
      soon as one of them is not a numeral. */
  function ParseInts(fields: seq<string>): (r: Option<seq<nat>>)
    ensures r.Some? <==> forall i :: 0 <= i < |fields| ==> IsNumeral(fields[i])
    ensures r.Some? ==> |r.value| == |fields|
    ensures r.Some? ==> forall i :: 0 <= i < |fields| ==> r.value[i] == NumeralValue(fields[i])
  {
    if fields == [] then Some([])
    else
      match ParseInt(fields[0])
      case None => None
      case Some(n) =>
        match ParseInts(fields[1..])
        case None => None
        case Some(ns) => Some([n] + ns)
  }

  /** The pieces of `tag.lstrip('v').split('-')`. */
  function VersionParts(tag: string): (parts: seq<string>)
    ensures |parts| >= 1
  {
    Split(LStrip(tag, 'v'), '-')
  }

  /** The body of the `try` block: None where one of its steps raises. */
  function TryParseVersion(tag: string): (r: Option<ParsedVersion>)
    ensures r.Some? ==> |r.value.numbers| >= 1
  {
    var versionParts := VersionParts(tag);
    match ParseInts(Split(versionParts[0], '.'))
    case None => None
    case Some(mainVersion) => Some(ParsedVersion(mainVersion, |versionParts| > 1))
  }

  /** `_parse_version(tag)`: the parse, or the fallback when it raises. */
  function ParseVersion(tag: string): (v: ParsedVersion)
    ensures |v.numbers| >= 1
  {
    match TryParseVersion(tag)
    case Some(parsed) => parsed
    case None => Fallback
  }

  /** Completeness: every tag of the form `v…v N1.N2…Nk` followed by nothing or
      by '-' and anything parses, to the values of the numerals, flagged as a
      pre-release exactly when the '-' part is present. */
  lemma ParseVersionComplete(k: nat, fields: seq<string>, suffix: string)
    requires |fields| >= 1 && forall i :: 0 <= i < |fields| ==> IsNumeral(fields[i])
    requires suffix == [] || suffix[0] == '-'
    ensures var r := TryParseVersion(Repeat('v', k) + (Join(fields, ".") + suffix));
            r.Some? && r.value.isPreRelease == (suffix != []) &&
            |r.value.numbers| == |fields| &&
            forall i :: 0 <= i < |fields| ==> r.value.numbers[i] == NumeralValue(fields[i])
  {
    var core := Join(fields, ".");
    var tag := Repeat('v', k) + (core + suffix);
    NumeralsJoined(fields);
    assert LStrip(tag, 'v') == core + suffix by {
      LStripRepeat('v', k, core + suffix);
    }
    SplitAtFirst(core, suffix, '-');
    assert VersionParts(tag)[0] == core;
  }

  /** Dot-joined numerals start with a digit, hold no '-', and split back on '.'. */
  lemma NumeralsJoined(fields: seq<string>)
    requires |fields| >= 1 && forall i :: 0 <= i < |fields| ==> IsNumeral(fields[i])
    ensures var core := Join(fields, ".");
            |core| > 0 && IsDigit(core[0]) && '-' !in core && Split(core, '.') == fields
  {
    JoinStartsWithFirst(fields, ".");
    assert IsDigit(fields[0][0]);
    forall i | 0 <= i < |fields|
      ensures '-' !in fields[i] && '.' !in fields[i]
    {
      assert IsNumeral(fields[i]);
    }
    JoinExcludes(fields, ".", '-');
    SplitJoin(fields, '.');
  }

  /** Soundness: a tag that parses has exactly that form, with the numbers and
      the flag the completeness lemma gives. */
  lemma ParseVersionSound(tag: string) returns (k: nat, fields: seq<string>, suffix: string)
    requires TryParseVersion(tag).Some?
    ensures tag == Repeat('v', k) + (Join(fields, ".") + suffix)
    ensures |fields| >= 1 && forall i :: 0 <= i < |fields| ==> IsNumeral(fields[i])
    ensures suffix == [] || suffix[0] == '-'
    ensures var v := TryParseVersion(tag).value;
            v.isPreRelease == (suffix != []) && |v.numbers| == |fields| &&
            forall i :: 0 <= i < |fields| ==> v.numbers[i] == NumeralValue(fields[i])
  {
    var version := LStrip(tag, 'v');
    k := |tag| - |version|;
    LStripRemovesRun(tag, 'v');
    var parts := Split(version, '-');
    fields := Split(parts[0], '.');
    JoinSplit(parts[0], '.');
    suffix := SplitFirst(version, '-');
    assert tag == Repeat('v', k) + (Join(fields, ".") + suffix);
    ParseVersionComplete(k, fields, suffix);
  }

  /** A main segment (before the first '-') that holds anything other than
      digits and dots makes the tag fall back, whatever follows the '-'. */
  lemma ParseVersionRejectsNonDigit(tag: string, j: nat)
    requires j < |VersionParts(tag)[0]|
    requires VersionParts(tag)[0][j] != '.' && !IsDigit(VersionParts(tag)[0][j])
    ensures ParseVersion(tag) == Fallback
  {
    var fields := Split(VersionParts(tag)[0], '.');
    var k, m := SplitKeeps(VersionParts(tag)[0], '.', j);
    assert !IsNumeral(fields[k]);
  }

  /** Decimal rendering of a natural number, the inverse of NumeralValue. */
  function ShowNat(n: nat): (s: string)
    ensures IsNumeral(s) && NumeralValue(s) == n
  {
    var digit := ['0' + ((n % 10) as char)];
    if n < 10 then
      digit
    else
      var s := ShowNat(n / 10) + digit;
      assert s[..|s| - 1] == ShowNat(n / 10);
      s
  }

  /** A leading zero does not change the value of a numeral. */
  lemma {:induction false} LeadingZero(s: string)
    ensures NumeralValue("0" + s) == NumeralValue(s)
    decreases |s|
  {
    if |s| == 0 {
      assert ("0" + s)[..0] == "";
    } else {
      var t := "0" + s;
      assert t[..|t| - 1] == "0" + s[..|s| - 1];
      assert t[|t| - 1] == s[|s| - 1];
      LeadingZero(s[..|s| - 1]);
    }
  }

  /** `int()` reads the decimal form of any value back as that value, behind
      any number of leading zeros. */
  lemma {:induction false} ParseIntPadded(z: nat, n: nat)
    ensures ParseInt(Repeat('0', z) + ShowNat(n)) == Some(n)
  {
    if z == 0 {
      assert Repeat('0', z) + ShowNat(n) == ShowNat(n);
    } else {
      ParseIntPadded(z - 1, n);
      var rest := Repeat('0', z - 1) + ShowNat(n);
      assert Repeat('0', z) + ShowNat(n) == "0" + rest;
      assert IsNumeral("0" + rest) by {
        assert forall i :: 0 < i < |"0" + rest| ==> ("0" + rest)[i] == rest[i - 1];
      }
      LeadingZero(rest);
    }
  }

  function ShowNumbers(numbers: seq<nat>): (fields: seq<string>)
    ensures |fields| == |numbers|
    ensures forall i :: 0 <= i < |numbers| ==> fields[i] == ShowNat(numbers[i])
  {
    if numbers == [] then [] else [ShowNat(numbers[0])] + ShowNumbers(numbers[1..])
  }

  /** The tag "vN1.N2…Nk" followed by `suffix`. */
  function ShowTag(numbers: seq<nat>, suffix: string): string
  {
    "v" + (Join(ShowNumbers(numbers), ".") + suffix)
  }

  /** Round trip: "v" + "N1.N2…Nk" + an optional "-…" suffix parses back to
      the numbers, flagged as a pre-release exactly when the suffix is there. */
  lemma ParseShownVersion(numbers: seq<nat>, suffix: string)
    requires |numbers| >= 1
    requires suffix == [] || suffix[0] == '-'
    ensures ParseVersion(ShowTag(numbers, suffix)) == ParsedVersion(numbers, suffix != [])
  {
    var fields := ShowNumbers(numbers);
    assert ShowTag(numbers, suffix) == Repeat('v', 1) + (Join(fields, ".") + suffix);
    ParseNumerals(1, fields, suffix, numbers);
  }

  /** The completeness lemma, stated on ParseVersion with the values given. */
  lemma ParseNumerals(k: nat, fields: seq<string>, suffix: string, numbers: seq<nat>)
    requires |fields| >= 1 && forall i :: 0 <= i < |fields| ==> IsNumeral(fields[i])
    requires |numbers| == |fields| && forall i :: 0 <= i < |fields| ==> NumeralValue(fields[i]) == numbers[i]
    requires suffix == [] || suffix[0] == '-'
    ensures ParseVersion(Repeat('v', k) + (Join(fields, ".") + suffix)) == ParsedVersion(numbers, suffix != [])
  {
    var tag := Repeat('v', k) + (Join(fields, ".") + suffix);
    ParseVersionComplete(k, fields, suffix);
    assert TryParseVersion(tag).value.numbers == numbers;
    ParseVersionIsTry(tag);
  }

  lemma ParseVersionIsTry(tag: string)
    requires TryParseVersion(tag).Some?
    ensures ParseVersion(tag) == TryParseVersion(tag).value
  {
  }

  lemma ShownOneTwoThree()
    ensures Join(ShowNumbers([1, 2, 3]), ".") == "1.2.3"
  {
    assert ShowNumbers([1, 2, 3]) == ["1", "2", "3"];
  }

  /** "v1.2.3" is release 1.2.3. */
  lemma ParseVersionRelease()
    ensures ParseVersion("v1.2.3") == ParsedVersion([1, 2, 3], false)
  {
    assert ShowTag([1, 2, 3], "") == "v1.2.3" by {
      ShownOneTwoThree();
    }
    ParseShownVersion([1, 2, 3], "");
  }

  /** "v1.2.3-rc1" is version 1.2.3, flagged as a pre-release. */
  lemma ParseVersionPreRelease()
    ensures ParseVersion("v1.2.3-rc1") == ParsedVersion([1, 2, 3], true)
  {
    assert ShowTag([1, 2, 3], "-rc1") == "v1.2.3-rc1" by {
      ShownOneTwoThree();
    }
    ParseShownVersion([1, 2, 3], "-rc1");
  }

  /** "not-a-version" falls back although it holds a '-'. */
  lemma ParseVersionNotAVersion()
    ensures ParseVersion("not-a-version") == Fallback
  {
    var tag := "not-a-version";
    assert LStrip(tag, 'v') == tag;
    assert tag[..3] == "not";
    SplitHead(tag, '-', 3);
    ParseVersionRejectsNonDigit(tag, 0);
  }

  /** Every leading 'v' is stripped, not just one. */
  lemma ParseVersionManyVs()
    ensures ParseVersion("vv10.1") == ParsedVersion([10, 1], false)
  {
    assert Repeat('v', 2) + (Join(["10", "1"], ".") + "") == "vv10.1";
    assert NumeralValue("10") == 10 && NumeralValue("1") == 1;
    ParseNumerals(2, ["10", "1"], "", [10, 1]);
  }

  /** An empty main segment falls back: the empty tag, and "v-rc1". */
  lemma ParseVersionEmptySegment()
    ensures ParseVersion("") == Fallback
    ensures ParseVersion("v-rc1") == Fallback
  {
    assert Split("", '.') == [""];
    assert LStrip("v-rc1", 'v') == "-rc1";
    SplitHead("-rc1", '-', 0);
  }
}
