/** Build numbers of the macOS updater: `sparkleBuildFloorsFromShortVersion`. */
module SparkleBuild {
  import opened Common

  // ---------------------------------------------------------------- the version text

  /** The four groups of the release expression, as text. */
  datatype Fields = Fields(year: string, month: string, patch: string, suffix: string)

  /** The length of the longest prefix of digits. */
  function DigitPrefix(s: string): (n: nat)
    ensures n <= |s| && (n < |s| ==> !IsDigit(s[n]))
    ensures forall i :: 0 <= i < n ==> IsDigit(s[i])
  {
    if s == "" || !IsDigit(s[0]) then 0 else 1 + DigitPrefix(s[1..])
  }

  /** The length of the longest suffix of digits. */
  function DigitSuffix(s: string): (n: nat)
    ensures n <= |s| && (n < |s| ==> !IsDigit(s[|s| - 1 - n]))
    ensures forall i :: |s| - n <= i < |s| ==> IsDigit(s[i])
  {
    if s == "" || !IsDigit(s[|s| - 1]) then 0 else 1 + DigitSuffix(s[..|s| - 1])
  }

  predicate IsLineEnd(c: char) { c in {'\n', '\r', '\U{2028}', '\U{2029}'} }

  /** `([.-].*)?` up to the end of the text */
  predicate IsSuffix(s: string) {
    s != "" ==> (s[0] == '.' || s[0] == '-') && forall i :: 0 < i < |s| ==> !IsLineEnd(s[i])
  }

  /** Between `lo` and `hi` digits and a dot: the digits, and the text behind the dot. */
  function Dotted(s: string, lo: nat, hi: nat): Option<(string, string)> {
    var n := DigitPrefix(s);
    if n < lo || n > hi || n == |s| || s[n] != '.' then None else Some((s[..n], s[n + 1..]))
  }

  /** A number without leading zero, and the suffix behind it. */
  function Tail(s: string): Option<(string, string)> {
    var n := DigitPrefix(s);
    if n == 0 || s[0] == '0' || !IsSuffix(s[n..]) then None else Some((s[..n], s[n..]))
  }

  /** The match of the release expression against a trimmed text. */
  function Scan(s: string): Option<Fields> {
    match Dotted(s, 4, 4)
    case None => None
    case Some((year, afterYear)) =>
      match Dotted(afterYear, 1, 2)
      case None => None
      case Some((month, afterMonth)) =>
        match Tail(afterMonth)
        case None => None
        case Some((patch, suffix)) => Some(Fields(year, month, patch, suffix))
  }

  ghost predicate WellFormed(f: Fields) {
    && IsNumeral(f.year) && |f.year| == 4
    && IsNumeral(f.month) && |f.month| <= 2
    && IsNumeral(f.patch) && f.patch[0] != '0'
    && IsSuffix(f.suffix)
  }

  function Print(f: Fields): string { f.year + ("." + (f.month + ("." + (f.patch + f.suffix)))) }

  lemma {:induction false} DigitPrefixOf(digits: string, rest: string)
    requires forall i :: 0 <= i < |digits| ==> IsDigit(digits[i])
    requires rest != "" ==> !IsDigit(rest[0])
    ensures DigitPrefix(digits + rest) == |digits|
  {
    if digits == "" {
      assert digits + rest == rest;
    } else {
      assert (digits + rest)[1..] == digits[1..] + rest;
      DigitPrefixOf(digits[1..], rest);
    }
  }

  lemma DottedIff(s: string, lo: nat, hi: nat, digits: string, rest: string)
    requires lo >= 1
    ensures Dotted(s, lo, hi) == Some((digits, rest)) <==>
            IsNumeral(digits) && lo <= |digits| <= hi && s == digits + ("." + rest)
  {
    if IsNumeral(digits) && s == digits + ("." + rest) {
      DigitPrefixOf(digits, "." + rest);
      assert s[..|digits|] == digits && s[|digits| + 1..] == rest;
    }
    if Dotted(s, lo, hi) == Some((digits, rest)) {
      assert s == s[..|digits|] + ([s[|digits|]] + s[|digits| + 1..]);
    }
  }

  lemma TailIff(s: string, patch: string, suffix: string)
    ensures Tail(s) == Some((patch, suffix)) <==>
            IsNumeral(patch) && patch[0] != '0' && IsSuffix(suffix) && s == patch + suffix
  {
    if IsNumeral(patch) && IsSuffix(suffix) && s == patch + suffix {
      DigitPrefixOf(patch, suffix);
      assert s[..|patch|] == patch && s[|patch|..] == suffix;
    }
    if Tail(s) == Some((patch, suffix)) {
      assert s == s[..|patch|] + s[|patch|..];
    }
  }

  lemma ScanPrint(f: Fields)
    requires WellFormed(f)
    ensures Scan(Print(f)) == Some(f)
  {
    var afterMonth := f.patch + f.suffix;
    var afterYear := f.month + ("." + afterMonth);
    DottedIff(Print(f), 4, 4, f.year, afterYear);
    DottedIff(afterYear, 1, 2, f.month, afterMonth);
    TailIff(afterMonth, f.patch, f.suffix);
  }

  lemma ScanReads(s: string)
    requires Scan(s).Some?
    ensures WellFormed(Scan(s).value) && s == Print(Scan(s).value)
  {
    var (year, afterYear) := Dotted(s, 4, 4).value;
    var (month, afterMonth) := Dotted(afterYear, 1, 2).value;
    var (patch, suffix) := Tail(afterMonth).value;
    DottedIff(s, 4, 4, year, afterYear);
    DottedIff(afterYear, 1, 2, month, afterMonth);
    TailIff(afterMonth, patch, suffix);
  }

  /** The expression accepts exactly the printed well-formed fields, and reads them back. */
  lemma ScanIff(s: string, f: Fields)
    ensures Scan(s) == Some(f) <==> WellFormed(f) && s == Print(f)
  {
    if Scan(s) == Some(f) {
      ScanReads(s);
    }
    if WellFormed(f) {
      ScanPrint(f);
    }
  }

  // ---------------------------------------------------------------- versions

  const STABLE_LANE: nat := 90

  datatype Version = Version(year: nat, month: nat, patch: nat, lane: nat) {
    predicate Valid() { year <= 9999 && 1 <= month <= 12 && 1 <= patch && lane <= STABLE_LANE }
  }

  function Lane(suffix: string): (lane: nat)
    ensures lane <= STABLE_LANE
    ensures lane == STABLE_LANE <==> suffix == ""
  {
    if suffix == "" then STABLE_LANE
    else
      var digits := suffix[|suffix| - DigitSuffix(suffix)..];
      if digits == "" then 1
      else
        var n := ParseDecimal(digits);
        if n < 89 then n else 89
  }

  lemma {:induction false} ParseDecimalBound(s: string)
    requires IsNumeral(s)
    ensures ParseDecimal(s) < Pow10(|s|)
    ensures s[0] != '0' ==> ParseDecimal(s) > 0
  {
    if |s| > 1 {
      ParseDecimalBound(s[..|s| - 1]);
    }
  }

  function ReadVersion(shortVersion: string): (v: Option<Version>)
    ensures v.Some? ==> v.value.Valid()
  {
    match Scan(Trim(shortVersion))
    case None => None
    case Some(f) =>
      ScanIff(Trim(shortVersion), f);
      var month := ParseDecimal(f.month);
      if month < 1 || month > 12 then None
      else
        ParseDecimalBound(f.year); ParseDecimalBound(f.patch);
        assert Pow10(4) == 10000 by { assert Pow10(2) == 100; }
        Some(Version(ParseDecimal(f.year), month, ParseDecimal(f.patch), Lane(f.suffix)))
  }

  // ---------------------------------------------------------------- build numbers

  const ADOPTION := Version(2026, 6, 5, 0)

  /** `compareReleaseParts` */
  function CompareReleaseParts(v: Version, w: Version): int {
    if v.year != w.year then (if v.year < w.year then -1 else 1)
    else if v.month != w.month then (if v.month < w.month then -1 else 1)
    else if v.patch < w.patch then -1 else if v.patch > w.patch then 1 else 0
  }

  predicate UsesMonthlyPatch(v: Version) { CompareReleaseParts(v, ADOPTION) >= 0 }

  /** `padStart(2, "0")` */
  function Pad(s: string): string
    requires s != ""
  {
    if |s| < 2 then "0" + s else s
  }

  function LegacyDateReleaseKey(v: Version): nat {
    PadKeeps(Decimal(v.month)); PadKeeps(Decimal(v.patch));
    ParseDecimal(Decimal(v.year) + Pad(Decimal(v.month)) + Pad(Decimal(v.patch)))
  }

  function MonthlyPatchReleaseKey(v: Version): int {
    (v.year - 2000) * 100_000_000 + v.month * 1_000_000 + v.patch * 100
  }

  datatype Floors = Floors(releaseKey: int, legacyFloor: int, laneFloor: int, lane: nat)

  function BuildFloors(v: Version): Floors {
    if UsesMonthlyPatch(v) then
      var key := MonthlyPatchReleaseKey(v);
      Floors(key, key, key + v.lane, v.lane)
    else
      var key := LegacyDateReleaseKey(v);
      PadKeeps(Decimal(v.lane));
      Floors(key, ParseDecimal(Decimal(key) + "0"), ParseDecimal(Decimal(key) + Pad(Decimal(v.lane))), v.lane)
  }

  /** `canonicalSparkleBuildFromVersion` */
  function CanonicalBuild(shortVersion: string): Option<int> {
    match ReadVersion(shortVersion)
    case None => None
    case Some(v) => Some(BuildFloors(v).laneFloor)
  }

  // ---------------------------------------------------------------- digits and arithmetic

  function Pow10(n: nat): (p: nat)
    ensures p >= 1
  {
    if n == 0 then 1 else 10 * Pow10(n - 1)
  }

  lemma PadKeeps(s: string)
    requires IsNumeral(s)
    ensures IsNumeral(Pad(s)) && ParseDecimal(Pad(s)) == ParseDecimal(s)
    ensures |Pad(s)| == if |s| < 2 then 2 else |s|
  {
    if |s| < 2 {
      assert Pad(s)[..1] == "0";
    }
  }

  /** Joining numerals shifts the first by the length of the second. */
  lemma {:induction false} ParseJoined(a: string, b: string)
    requires IsNumeral(a) && IsNumeral(b)
    ensures IsNumeral(a + b)
    ensures ParseDecimal(a + b) == ParseDecimal(a) * Pow10(|b|) + ParseDecimal(b)
  {
    var init := b[..|b| - 1];
    assert (a + b)[..|a + b| - 1] == a + init;
    if init == "" {
      assert a + init == a;
      assert Pow10(1) == 10 * Pow10(0);
    } else {
      ParseJoined(a, init);
      ParseStep(a + b);
      ParseStep(b);
      ShiftProduct(ParseDecimal(a), Pow10(|init|), ParseDecimal(init), b[|b| - 1] as int - '0' as int);
    }
  }

  lemma ParseStep(s: string)
    requires IsNumeral(s) && |s| > 1
    ensures ParseDecimal(s) == 10 * ParseDecimal(s[..|s| - 1]) + (s[|s| - 1] as int - '0' as int)
  {
  }

  lemma ShiftProduct(a: nat, p: nat, init: nat, digit: int)
    ensures 10 * (a * p + init) + digit == a * (10 * p) + (10 * init + digit)
  {
  }

  /** The concatenated key in arithmetic form, for a patch of any length. */
  lemma LegacyKeyArithmetic(v: Version)
    requires v.month <= 12
    ensures var unit := Pow10(|Pad(Decimal(v.patch))|);
            LegacyDateReleaseKey(v) == (v.year * 100 + v.month) * unit + v.patch
  {
    PadKeeps(Decimal(v.month));
    PadKeeps(Decimal(v.patch));
    ParseJoined(Decimal(v.year), Pad(Decimal(v.month)));
    ParseJoined(Decimal(v.year) + Pad(Decimal(v.month)), Pad(Decimal(v.patch)));
    assert Pow10(2) == 100;
  }

  lemma {:induction false} Pow10Grows(n: nat)
    requires n >= 3
    ensures Pow10(n) >= 1000
  {
    if n > 3 {
      Pow10Grows(n - 1);
    } else {
      assert Pow10(2) == 100;
    }
  }

  lemma ProductGrows(a: nat, p: nat)
    requires p >= 1000
    ensures a * p >= a * 1000
  {
  }

  lemma PadLength(n: nat)
    ensures |Pad(Decimal(n))| == 2 <==> n <= 99
    ensures |Pad(Decimal(n))| >= 2
  {
  }

  /** Joining two digits shifts by one hundred; joining more shifts further. */
  lemma ParseShifted(a: string, b: string)
    requires IsNumeral(a) && IsNumeral(b) && |b| >= 2
    ensures IsNumeral(a + b)
    ensures |b| == 2 ==> ParseDecimal(a + b) == 100 * ParseDecimal(a) + ParseDecimal(b)
    ensures |b| > 2 ==> ParseDecimal(a + b) >= 1000 * ParseDecimal(a) + ParseDecimal(b)
  {
    ParseJoined(a, b);
    Shift(ParseDecimal(a), |b|);
  }

  lemma Shift(n: nat, digits: nat)
    requires digits >= 2
    ensures if digits == 2 then n * Pow10(digits) == 100 * n else n * Pow10(digits) >= 1000 * n
  {
    if digits == 2 {
      assert Pow10(2) == 100;
    } else {
      Pow10Grows(digits);
      ProductGrows(n, Pow10(digits));
    }
  }

  /** Legacy patches of up to two digits have fixed places; longer ones push year and month to the left. */
  lemma LegacyPlaces(v: Version)
    requires v.month <= 12
    ensures v.patch <= 99 ==> LegacyDateReleaseKey(v) == v.year * 10_000 + v.month * 100 + v.patch
    ensures v.patch > 99 ==> LegacyDateReleaseKey(v) >= v.year * 100_000 + v.month * 1_000 + v.patch
  {
    PadKeeps(Decimal(v.month));
    PadKeeps(Decimal(v.patch));
    PadLength(v.month);
    PadLength(v.patch);
    ParseShifted(Decimal(v.year), Pad(Decimal(v.month)));
    ParseShifted(Decimal(v.year) + Pad(Decimal(v.month)), Pad(Decimal(v.patch)));
  }

  /** Concatenating the padded lane is multiplying by one hundred. */
  lemma LegacyFloorsArithmetic(v: Version)
    requires v.Valid() && !UsesMonthlyPatch(v)
    ensures var floors := BuildFloors(v);
            && floors.legacyFloor == 10 * floors.releaseKey
            && floors.laneFloor == 100 * floors.releaseKey + v.lane
  {
    var key := Decimal(LegacyDateReleaseKey(v));
    PadKeeps(Decimal(v.lane));
    assert |Pad(Decimal(v.lane))| == 2;
    ParseJoined(key, "0");
    ParseJoined(key, Pad(Decimal(v.lane)));
    assert Pow10(1) == 10 && Pow10(2) == 100;
    assert ParseDecimal("0") == 0;
  }

  // ---------------------------------------------------------------- the order

  /** The release order: year, month, patch, lane. */
  predicate Earlier(v: Version, w: Version) {
    var c := CompareReleaseParts(v, w);
    c < 0 || (c == 0 && v.lane < w.lane)
  }

  /** The largest patch that cannot run into the next month's builds. */
  function Cap(v: Version): nat {
    if !UsesMonthlyPatch(v) then 99 else if v.month < 12 then 10_000 else 890_000
  }

  predicate LastMonth(v: Version) { v.year == 9999 && v.month == 12 }

  function Build(v: Version): int { BuildFloors(v).laneFloor }

  lemma LegacyBuild(v: Version)
    requires v.Valid() && !UsesMonthlyPatch(v)
    ensures v.patch <= 99 ==> Build(v) == v.year * 1_000_000 + v.month * 10_000 + v.patch * 100 + v.lane
    ensures v.patch > 99 ==> Build(v) >= v.year * 10_000_000 + v.month * 100_000 + v.patch * 100 + v.lane
  {
    LegacyPlaces(v);
    LegacyFloorsArithmetic(v);
  }

  /** A patch of at most two digits does not carry into the month. */
  lemma PlacesOrdered(v: Version, w: Version)
    requires v.Valid() && w.Valid() && Earlier(v, w) && v.patch <= 99
    ensures v.year * 1_000_000 + v.month * 10_000 + v.patch * 100 + v.lane <
            w.year * 1_000_000 + w.month * 10_000 + w.patch * 100 + w.lane
  {
    if v.year < w.year {
      assert v.year + 1 <= w.year;
    } else if v.month < w.month {
      assert v.month + 1 <= w.month;
    }
  }

  lemma LegacyOrdered(v: Version, w: Version)
    requires v.Valid() && w.Valid() && Earlier(v, w) && !UsesMonthlyPatch(v) && !UsesMonthlyPatch(w) && v.patch <= 99
    ensures Build(v) < Build(w)
  {
    LegacyBuild(v);
    LegacyBuild(w);
    PlacesOrdered(v, w);
    assert w.year * 10_000_000 >= w.year * 1_000_000;
  }

  lemma SwitchOrdered(v: Version, w: Version)
    requires v.Valid() && w.Valid() && !UsesMonthlyPatch(v) && UsesMonthlyPatch(w) && v.patch <= 99
    ensures Build(v) < 2_027_000_000 < Build(w)
  {
    LegacyBuild(v);
    assert v.year <= 2026;
    assert w.year >= 2026;
  }

  lemma MonthlyOrdered(v: Version, w: Version)
    requires v.Valid() && w.Valid() && Earlier(v, w) && UsesMonthlyPatch(v) && UsesMonthlyPatch(w)
    requires v.patch <= Cap(v) || LastMonth(v)
    ensures Build(v) < Build(w)
  {
    if v.year < w.year {
      assert v.year + 1 <= w.year;
    } else if v.month < w.month {
      assert v.month + 1 <= w.month;
    }
  }

  /** A version within its cap builds below every later version. */
  lemma CappedOrdered(v: Version, w: Version)
    requires v.Valid() && w.Valid() && Earlier(v, w)
    requires v.patch <= Cap(v) || LastMonth(v)
    ensures Build(v) < Build(w)
  {
    if UsesMonthlyPatch(v) {
      MonthlyOrdered(v, w);
    } else if UsesMonthlyPatch(w) {
      SwitchOrdered(v, w);
    } else {
      LegacyOrdered(v, w);
    }
  }

  /** The first version of the month after `v`. */
  function NextMonth(v: Version): Version {
    if v.month < 12 then Version(v.year, v.month + 1, 1, 0) else Version(v.year + 1, 1, 1, 0)
  }

  lemma NextMonthLater(v: Version)
    requires v.Valid() && !LastMonth(v)
    ensures NextMonth(v).Valid() && Earlier(v, NextMonth(v))
    ensures !UsesMonthlyPatch(v) && v.patch > 99 ==> !UsesMonthlyPatch(NextMonth(v))
    ensures UsesMonthlyPatch(v) ==> UsesMonthlyPatch(NextMonth(v))
  {
  }

  /** A version beyond its cap builds at or above the first version of the next month. */
  lemma BeyondCap(v: Version)
    requires v.Valid() && v.patch > Cap(v) && !LastMonth(v)
    ensures NextMonth(v).Valid() && Earlier(v, NextMonth(v)) && Build(v) >= Build(NextMonth(v))
  {
    NextMonthLater(v);
    if !UsesMonthlyPatch(v) {
      LegacyBeyond(v);
    }
  }

  lemma LegacyBeyond(v: Version)
    requires v.Valid() && !LastMonth(v) && !UsesMonthlyPatch(v) && v.patch > 99
    ensures Build(v) >= Build(NextMonth(v))
  {
    NextMonthLater(v);
    LegacyBuild(v);
    LegacyBuild(NextMonth(v));
  }

  ghost predicate BelowAllLater(v: Version) {
    forall w: Version :: w.Valid() && Earlier(v, w) ==> Build(v) < Build(w)
  }

  /** Builds rise with the release order from `v` on exactly when its patch is within the cap. */
  lemma OrderIff(v: Version)
    requires v.Valid()
    ensures BelowAllLater(v) <==> v.patch <= Cap(v) || LastMonth(v)
  {
    if v.patch <= Cap(v) || LastMonth(v) {
      forall w: Version | w.Valid() && Earlier(v, w)
        ensures Build(v) < Build(w)
      {
        CappedOrdered(v, w);
      }
    } else {
      BeyondCap(v);
    }
  }

  /** Across both encodings, capped versions compare as their builds do, and equal builds mean equal versions. */
  lemma BuildEmbedsOrder(v: Version, w: Version)
    requires v.Valid() && w.Valid()
    requires v.patch <= Cap(v) && w.patch <= Cap(w)
    ensures Earlier(v, w) <==> Build(v) < Build(w)
    ensures v == w <==> Build(v) == Build(w)
  {
    if Earlier(v, w) {
      CappedOrdered(v, w);
    } else if Earlier(w, v) {
      CappedOrdered(w, v);
    } else {
      assert v == w;
    }
  }

  /** The text, up to surrounding white space, is the printed fields. */
  ghost predicate Spells(shortVersion: string, f: Fields) {
    WellFormed(f) && Trim(shortVersion) == Print(f)
  }

  predicate SamePatch(f: Fields, g: Fields)
    requires IsNumeral(f.year) && IsNumeral(f.month) && IsNumeral(f.patch)
    requires IsNumeral(g.year) && IsNumeral(g.month) && IsNumeral(g.patch)
  {
    && ParseDecimal(f.year) == ParseDecimal(g.year) && ParseDecimal(f.month) == ParseDecimal(g.month)
    && ParseDecimal(f.patch) == ParseDecimal(g.patch)
  }

  /**
   * Any suffix at all builds below the stable release of the same patch, a `-N` correction included, however
   * the two texts are padded.
   */
  lemma SuffixedBelowStable(stable: string, suffixed: string, f: Fields, g: Fields)
    requires Spells(stable, f) && Spells(suffixed, g) && SamePatch(f, g)
    requires f.suffix == "" && g.suffix != "" && 1 <= ParseDecimal(f.month) <= 12
    ensures var low, high := CanonicalBuild(suffixed), CanonicalBuild(stable);
            low.Some? && high.Some? && high.value - 90 <= low.value < high.value
  {
    SpelledRead(stable, f);
    SpelledRead(suffixed, g);
    SameRelease(ReadVersion(stable).value, ReadVersion(suffixed).value);
  }

  /** Within one release the builds differ by their lanes only. */
  lemma SameRelease(v: Version, w: Version)
    requires v.Valid() && w.Valid() && v.year == w.year && v.month == w.month && v.patch == w.patch
    ensures Build(v) - v.lane == Build(w) - w.lane
  {
    if !UsesMonthlyPatch(v) {
      LegacyFloorsArithmetic(v);
      LegacyFloorsArithmetic(w);
    }
  }

  lemma SpelledRead(shortVersion: string, f: Fields)
    requires Spells(shortVersion, f) && 1 <= ParseDecimal(f.month) <= 12
    ensures ReadVersion(shortVersion) ==
            Some(Version(ParseDecimal(f.year), ParseDecimal(f.month), ParseDecimal(f.patch), Lane(f.suffix)))
  {
    ScanPrint(f);
  }

  // ---------------------------------------------------------------- build numbers, from the texts alone

  /** The suffix is a head that does not end in a digit, and the numeral behind it, if there is one. */
  ghost predicate Tailed(suffix: string, head: string, digits: string) {
    && suffix == head + digits
    && (head == "" || !IsDigit(head[|head| - 1]))
    && (digits == "" || IsNumeral(digits))
  }

  /** 90 for a stable version, 1 for a suffix without a number, and otherwise the number, but at most 89. */
  ghost function LaneNumber(suffix: string, digits: string): nat
    requires digits == "" || IsNumeral(digits)
  {
    if suffix == "" then 90 else if digits == "" then 1 else if ParseDecimal(digits) <= 89 then ParseDecimal(digits) else 89
  }

  /** From 2026.6.5 on fixed places; before, the digits of year, month and patch side by side, and the lane. */
  ghost function BuildNumber(year: nat, month: nat, patch: nat, lane: nat): int {
    if year > 2026 || (year == 2026 && (month > 6 || (month == 6 && patch >= 5))) then
      (year - 2000) * 100_000_000 + month * 1_000_000 + patch * 100 + lane
    else if patch <= 99 then
      year * 1_000_000 + month * 10_000 + patch * 100 + lane
    else LongKey(year, month, patch) * 100 + lane
  }

  /** Year and month in front of a patch of three or more digits. */
  ghost function LongKey(year: nat, month: nat, patch: nat): nat {
    (year * 100 + month) * Pow10(|Decimal(patch)|) + patch
  }

  /** The text spells a version with a possible month. */
  ghost predicate SpellsVersion(shortVersion: string, f: Fields) {
    Spells(shortVersion, f) && 1 <= ParseDecimal(f.month) <= 12
  }

  lemma {:induction false} DigitSuffixOf(head: string, digits: string)
    requires head == "" || !IsDigit(head[|head| - 1])
    requires forall i :: 0 <= i < |digits| ==> IsDigit(digits[i])
    ensures DigitSuffix(head + digits) == |digits|
  {
    if digits == "" {
      assert head + digits == head;
    } else {
      assert (head + digits)[..|head + digits| - 1] == head + digits[..|digits| - 1];
      DigitSuffixOf(head, digits[..|digits| - 1]);
    }
  }

  lemma LaneRead(suffix: string, head: string, digits: string)
    requires Tailed(suffix, head, digits)
    ensures Lane(suffix) == LaneNumber(suffix, digits)
  {
    DigitSuffixOf(head, digits);
    assert suffix[|suffix| - |digits|..] == digits;
  }

  /** The build number of every version text, for any padding, length of patch and suffix. */
  lemma BuildExact(shortVersion: string, f: Fields, head: string, digits: string)
    requires SpellsVersion(shortVersion, f) && Tailed(f.suffix, head, digits)
    ensures CanonicalBuild(shortVersion) ==
            Some(BuildNumber(ParseDecimal(f.year), ParseDecimal(f.month), ParseDecimal(f.patch), LaneNumber(f.suffix, digits)))
  {
    SpelledRead(shortVersion, f);
    LaneRead(f.suffix, head, digits);
    BuildIs(ReadVersion(shortVersion).value);
  }

  lemma BuildIs(v: Version)
    requires v.Valid()
    ensures Build(v) == BuildNumber(v.year, v.month, v.patch, v.lane)
  {
    if UsesMonthlyPatch(v) {
      MonthlyIs(v);
    } else if v.patch <= 99 {
      LegacyBuild(v);
    } else {
      LongIs(v);
    }
  }

  lemma MonthlyIs(v: Version)
    requires UsesMonthlyPatch(v)
    ensures Build(v) == BuildNumber(v.year, v.month, v.patch, v.lane)
  {
  }

  lemma LongIs(v: Version)
    requires v.Valid() && !UsesMonthlyPatch(v) && v.patch > 99
    ensures Build(v) == BuildNumber(v.year, v.month, v.patch, v.lane)
  {
    LegacyLongKey(v);
    LegacyLaneBehind(v, LongKey(v.year, v.month, v.patch));
  }

  lemma LegacyLaneBehind(v: Version, key: nat)
    requires v.Valid() && !UsesMonthlyPatch(v) && key == LegacyDateReleaseKey(v)
    ensures Build(v) == key * 100 + v.lane
  {
    LegacyFloorsArithmetic(v);
  }

  lemma LegacyLongKey(v: Version)
    requires v.month <= 12 && v.patch > 99
    ensures LegacyDateReleaseKey(v) == LongKey(v.year, v.month, v.patch)
  {
    PadLong(v.patch);
    KeyWithUnit(v, |Decimal(v.patch)|);
  }

  lemma PadLong(n: nat)
    requires n > 99
    ensures Pad(Decimal(n)) == Decimal(n)
  {
  }

  lemma KeyWithUnit(v: Version, digits: nat)
    requires v.month <= 12 && digits == |Pad(Decimal(v.patch))|
    ensures LegacyDateReleaseKey(v) == (v.year * 100 + v.month) * Pow10(digits) + v.patch
  {
    LegacyKeyArithmetic(v);
  }

  /** Every other text has no build number. */
  lemma BuildsIff(shortVersion: string)
    ensures CanonicalBuild(shortVersion).Some? <==> exists f :: SpellsVersion(shortVersion, f)
  {
    var scanned := Scan(Trim(shortVersion));
    if scanned.Some? {
      ScanIff(Trim(shortVersion), scanned.value);
      assert CanonicalBuild(shortVersion).Some? ==> SpellsVersion(shortVersion, scanned.value);
    }
    if f :| SpellsVersion(shortVersion, f) {
      SpelledRead(shortVersion, f);
    }
  }

  /** Of two numbered versions of one patch, the one with the smaller number builds lower, up to 89. */
  lemma NumberedOrder(first: string, second: string, f: Fields, g: Fields, fHead: string, m: string, gHead: string, n: string)
    requires SpellsVersion(first, f) && SpellsVersion(second, g) && SamePatch(f, g)
    requires Tailed(f.suffix, fHead, m) && Tailed(g.suffix, gHead, n) && m != "" && n != ""
    requires ParseDecimal(m) < ParseDecimal(n) <= 89
    ensures CanonicalBuild(first).Some? && CanonicalBuild(second).Some?
    ensures CanonicalBuild(first).value < CanonicalBuild(second).value
  {
    BuildExact(first, f, fHead, m);
    BuildExact(second, g, gHead, n);
    LaneShifts(ParseDecimal(f.year), ParseDecimal(f.month), ParseDecimal(f.patch), ParseDecimal(m), ParseDecimal(n));
  }

  lemma LaneShifts(year: nat, month: nat, patch: nat, a: nat, b: nat)
    ensures BuildNumber(year, month, patch, b) - BuildNumber(year, month, patch, a) == b - a
  {
  }
}
