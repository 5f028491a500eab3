/**
  Bundle versions: a semantic version, and a release that registry+v1 bundles hide in the
  build metadata.
*/
module VersionRelease {
  import opened Wrappers
  import opened Ordering
  import Decimal

  /** A prerelease or release identifier: numeric or alphanumeric. */
  datatype Identifier = Num(number: nat) | Str(text: string)

  datatype Version = Version(major: nat, minor: nat, patch: nat, pre: seq<Identifier>, build: seq<string>)

  type Release = seq<Identifier>

  datatype VersionRelease = VersionRelease(version: Version, release: Release)

  // ---------- identifiers ----------

  const MAX_UINT64 := 0xFFFF_FFFF_FFFF_FFFF

  predicate IsAlphanumeric(c: char) {
    Decimal.IsDigit(c) || 'A' <= c <= 'Z' || 'a' <= c <= 'z' || c == '-'
  }

  predicate AllAlphanumeric(s: string) { forall i :: 0 <= i < |s| ==> IsAlphanumeric(s[i]) }

  /** NewPRVersion: digits without leading zeros that fit 64 bits, or alphanumerics. */
  function ParseIdentifier(s: string): Option<Identifier> {
    if s == "" then None
    else if Decimal.AllDigits(s) then
      if Decimal.HasLeadingZero(s) || Decimal.Value(s) > MAX_UINT64 then None else Some(Num(Decimal.Value(s)))
    else if AllAlphanumeric(s) then Some(Str(s))
    else None
  }

  function IdentifierString(i: Identifier): string {
    match i
    case Num(n) => Decimal.Format(n)
    case Str(s) => s
  }

  /**
    What an identifier looks like: a number is written in decimal and fits 64 bits, a text is
    made of letters, digits and hyphens and is not all digits.
  */
  ghost predicate Written(i: Identifier, s: string) {
    match i
    case Num(n) => s == Decimal.Format(n) && n <= 18446744073709551615
    case Str(text) =>
      && s == text
      && (exists k :: 0 <= k < |s| && !('0' <= s[k] <= '9'))
      && (forall k :: 0 <= k < |s| ==> '0' <= s[k] <= '9' || 'A' <= s[k] <= 'Z' || 'a' <= s[k] <= 'z' || s[k] == '-')
  }

  lemma ParsedExactly(s: string, i: Identifier)
    ensures ParseIdentifier(s) == Some(i) <==> Written(i, s)
  {
    match i
    case Num(n) =>
      Decimal.ValueOfFormat(n);
      Decimal.FormatHasNoLeadingZero(n);
      if s != "" && Decimal.AllDigits(s) && !Decimal.HasLeadingZero(s) { Decimal.FormatOfValue(s); }
    case Str(_) =>
  }

  lemma PrintedAsParsed(s: string)
    requires ParseIdentifier(s).Some?
    ensures IdentifierString(ParseIdentifier(s).value) == s
  {
    if Decimal.AllDigits(s) {
      Decimal.FormatOfValue(s);
    }
  }

  // ---------- releases ----------

  /** strings.Split on dots. */
  function Split(s: string): (r: seq<string>)
    ensures r != []
  {
    if s == "" then [""]
    else
      var rest := Split(s[1..]);
      if s[0] == '.' then [""] + rest else [[s[0]] + rest[0]] + rest[1..]
  }

  /** strings.Join with dots. */
  function Join(parts: seq<string>): string {
    if parts == [] then ""
    else if |parts| == 1 then parts[0]
    else parts[0] + "." + Join(parts[1..])
  }

  predicate DotFree(s: string) { forall i :: 0 <= i < |s| ==> s[i] != '.' }

  lemma {:induction false} SplitFirst(s: string, rest: string)
    requires DotFree(s)
    ensures Split(s) == [s]
    ensures Split(s + "." + rest) == [s] + Split(rest)
  {
    if s == "" {
      assert s + "." + rest == "." + rest;
    } else {
      SplitFirst(s[1..], rest);
      assert (s + "." + rest)[1..] == s[1..] + "." + rest;
      assert s == [s[0]] + s[1..];
    }
  }

  lemma {:induction false} SplitUndoesJoin(parts: seq<string>)
    requires parts != [] && forall i :: 0 <= i < |parts| ==> DotFree(parts[i])
    ensures Split(Join(parts)) == parts
  {
    SplitFirst(parts[0], Join(parts[1..]));
    if |parts| > 1 {
      SplitUndoesJoin(parts[1..]);
    }
  }

  function ParseAll(segments: seq<string>): Option<Release> {
    if segments == [] then Some([])
    else
      var n := |segments| - 1;
      match (ParseAll(segments[..n]), ParseIdentifier(segments[n]))
      case (Some(r), Some(i)) => Some(r + [i])
      case _ => None
  }

  function ParseRelease(s: string): Option<Release> {
    if s == "" then Some([]) else ParseAll(Split(s))
  }

  /** NewRelease: every segment is looked at, also after an invalid one. */
  method NewRelease(s: string) returns (r: Option<Release>)
    ensures r == ParseRelease(s)
  {
    if s == "" {
      return Some([]);
    }
    var segments := Split(s);
    var release: Release := [];
    var failed := false;
    for i := 0 to |segments|
      invariant ParseAll(segments[..i]) == if failed then None else Some(release)
    {
      assert segments[..i + 1][..i] == segments[..i];
      var id := ParseIdentifier(segments[i]);
      if id.None? {
        failed := true;
        continue;
      }
      release := release + [id.value];
    }
    assert segments[..|segments|] == segments;
    r := if failed then None else Some(release);
  }

  /** NewLegacyRegistryV1VersionRelease, from the parsed version on. */
  function FromLegacy(v: Version): VersionRelease {
    match ParseRelease(Join(v.build))
    case Some(release) => VersionRelease(v.(build := []), release)
    case None => VersionRelease(v, [])
  }

  /** AsLegacyRegistryV1Version. */
  function AsLegacy(vr: VersionRelease): Version {
    if |vr.release| > 0
    then vr.version.(build := seq(|vr.release|, i requires 0 <= i < |vr.release| => IdentifierString(vr.release[i])))
    else vr.version
  }

  /** Build metadata as section 10 of Semantic Versioning 2.0.0 has it. */
  ghost predicate ValidBuild(build: seq<string>) {
    forall i :: 0 <= i < |build| ==> build[i] != "" && AllAlphanumeric(build[i])
  }

  lemma {:induction false} ParsedPrintsBack(segments: seq<string>)
    requires ParseAll(segments).Some?
    ensures var r := ParseAll(segments).value;
            |r| == |segments| && forall i :: 0 <= i < |r| ==> IdentifierString(r[i]) == segments[i]
  {
    if segments != [] {
      var n := |segments| - 1;
      ParsedPrintsBack(segments[..n]);
      PrintedAsParsed(segments[n]);
    }
  }

  /** Taking the release out of a valid version and putting it back changes nothing. */
  lemma AsLegacyUndoesFromLegacy(v: Version)
    requires ValidBuild(v.build)
    ensures AsLegacy(FromLegacy(v)) == v
  {
    if v.build != [] {
      assert |Join(v.build)| > 0 by { assert v.build[0] != ""; }
      forall i | 0 <= i < |v.build| ensures DotFree(v.build[i]) {
        assert AllAlphanumeric(v.build[i]) && !IsAlphanumeric('.');
      }
      SplitUndoesJoin(v.build);
      if ParseAll(v.build).Some? {
        ParsedPrintsBack(v.build);
        assert AsLegacy(FromLegacy(v)).build == v.build;
      }
    }
  }

  /** Every segment of the build metadata is written like an identifier. */
  ghost predicate IsRelease(build: seq<string>) {
    forall k :: 0 <= k < |build| ==> Identifies(build[k])
  }

  ghost predicate Identifies(s: string) { exists i :: Written(i, s) }

  lemma {:induction false} ParsesAllExactly(segments: seq<string>)
    ensures ParseAll(segments).Some? <==> IsRelease(segments)
    ensures ParseAll(segments).Some? ==>
              |ParseAll(segments).value| == |segments| &&
              forall k :: 0 <= k < |segments| ==> Written(ParseAll(segments).value[k], segments[k])
  {
    if segments != [] {
      var n := |segments| - 1;
      var parsed := ParseIdentifier(segments[n]);
      ParsesAllExactly(segments[..n]);
      assert IsRelease(segments) <==> IsRelease(segments[..n]) && Identifies(segments[n]);
      if parsed.Some? { ParsedExactly(segments[n], parsed.value); }
      if i :| Written(i, segments[n]) { ParsedExactly(segments[n], i); }
    }
  }

  lemma BuildIsSplit(build: seq<string>)
    requires ValidBuild(build) && build != []
    ensures ParseRelease(Join(build)) == ParseAll(build)
  {
    assert |Join(build)| > 0 by { assert build[0] != ""; }
    forall i | 0 <= i < |build| ensures DotFree(build[i]) {
      assert AllAlphanumeric(build[i]) && !IsAlphanumeric('.');
    }
    SplitUndoesJoin(build);
  }

  /**
    The release is taken out of the build metadata exactly when all of it is written like
    identifiers: one identifier per segment, and no build metadata left. Otherwise the version
    stays as it is, with an empty release.
  */
  lemma FromLegacyExactly(v: Version)
    requires ValidBuild(v.build)
    ensures var vr := FromLegacy(v);
            && SameVersion(vr.version, v)
            && (IsRelease(v.build) ==>
                  && vr.version.build == [] && |vr.release| == |v.build|
                  && forall k :: 0 <= k < |v.build| ==> Written(vr.release[k], v.build[k]))
            && (!IsRelease(v.build) ==> vr.version.build == v.build && vr.release == [])
  {
    if v.build != [] {
      BuildIsSplit(v.build);
      ParsesAllExactly(v.build);
    }
  }

  // ---------- comparison: section 11 of Semantic Versioning 2.0.0 ----------

  function CompareIdentifiers(a: Identifier, b: Identifier): int {
    match (a, b)
    case (Num(m), Num(n)) => CompareInts(m, n)
    case (Num(_), Str(_)) => -1
    case (Str(_), Num(_)) => 1
    case (Str(s), Str(t)) => CompareStrings(s, t)
  }

  /** Identifier by identifier; a proper prefix comes first. */
  function CompareLists(a: Release, b: Release): int {
    if a == [] && b == [] then 0
    else if a == [] then -1
    else if b == [] then 1
    else Or(CompareIdentifiers(a[0], b[0]), CompareLists(a[1..], b[1..]))
  }

  /** Prereleases: a version without one is higher than any with one. */
  function ComparePre(a: seq<Identifier>, b: seq<Identifier>): int {
    if a == [] && b == [] then 0
    else if a == [] then 1
    else if b == [] then -1
    else CompareLists(a, b)
  }

  function CompareVersions(a: Version, b: Version): int {
    Or(CompareInts(a.major, b.major),
    Or(CompareInts(a.minor, b.minor),
    Or(CompareInts(a.patch, b.patch), ComparePre(a.pre, b.pre))))
  }

  function CompareReleases(a: Release, b: Release): int {
    if a == [] && b != [] then -1
    else if b == [] && a != [] then 1
    else CompareVersions(Version(0, 0, 0, a, []), Version(0, 0, 0, b, []))
  }

  /** VersionRelease.Compare. */
  function Compare(a: VersionRelease, b: VersionRelease): int {
    Or(CompareVersions(a.version, b.version), CompareReleases(a.release, b.release))
  }

  // ---------- the comparison is a total preorder ----------

  lemma IdentifiersAntisymmetric(a: Identifier, b: Identifier)
    ensures CompareIdentifiers(a, b) == -CompareIdentifiers(b, a)
    ensures CompareIdentifiers(a, b) == 0 <==> a == b
  {
    if a.Str? && b.Str? { CompareStringsAntisymmetric(a.text, b.text); }
  }

  lemma IdentifiersTransitive(a: Identifier, b: Identifier, c: Identifier)
    requires CompareIdentifiers(a, b) <= 0 && CompareIdentifiers(b, c) <= 0
    ensures CompareIdentifiers(a, c) <= 0
  {
    if a.Str? && b.Str? && c.Str? { CompareStringsTransitive(a.text, b.text, c.text); }
  }

  lemma {:induction false} ListsAntisymmetric(a: Release, b: Release)
    ensures CompareLists(a, b) == -CompareLists(b, a)
    ensures CompareLists(a, b) == 0 <==> a == b
  {
    if a != [] && b != [] {
      IdentifiersAntisymmetric(a[0], b[0]);
      ListsAntisymmetric(a[1..], b[1..]);
      assert a == [a[0]] + a[1..] && b == [b[0]] + b[1..];
    }
  }

  lemma {:induction false} ListsTransitive(a: Release, b: Release, c: Release)
    requires CompareLists(a, b) <= 0 && CompareLists(b, c) <= 0
    ensures CompareLists(a, c) <= 0
  {
    if a != [] && b != [] && c != [] {
      IdentifiersTransitive(a[0], b[0], c[0]);
      IdentifiersAntisymmetric(a[0], b[0]);
      IdentifiersAntisymmetric(b[0], c[0]);
      IdentifiersAntisymmetric(a[0], c[0]);
      if a[0] == b[0] == c[0] {
        ListsTransitive(a[1..], b[1..], c[1..]);
      }
    }
  }

  lemma ComparePreIsTotalPreorder()
    ensures TotalPreorder(ComparePre)
  {
    forall a, b ensures ComparePre(a, b) < 0 <==> ComparePre(b, a) > 0 {
      ListsAntisymmetric(a, b);
    }
    forall a, b, c | ComparePre(a, b) <= 0 && ComparePre(b, c) <= 0 ensures ComparePre(a, c) <= 0 {
      if a != [] && b != [] && c != [] { ListsTransitive(a, b, c); }
    }
  }

  /** Comparing releases is comparing their identifiers, with nothing lowest of all. */
  lemma ReleasesCompareAsLists(a: Release, b: Release)
    ensures CompareReleases(a, b) == CompareLists(a, b)
  {}

  lemma CompareReleasesIsTotalPreorder()
    ensures TotalPreorder(CompareReleases)
  {
    forall a, b ensures CompareReleases(a, b) < 0 <==> CompareReleases(b, a) > 0 {
      ListsAntisymmetric(a, b);
    }
    forall a, b, c | CompareReleases(a, b) <= 0 && CompareReleases(b, c) <= 0 ensures CompareReleases(a, c) <= 0 {
      ListsTransitive(a, b, c);
    }
  }

  function ByMajor(a: Version, b: Version): int { CompareInts(a.major, b.major) }
  function ByMinor(a: Version, b: Version): int { CompareInts(a.minor, b.minor) }
  function ByPatch(a: Version, b: Version): int { CompareInts(a.patch, b.patch) }
  function ByPre(a: Version, b: Version): int { ComparePre(a.pre, b.pre) }
  function ByPatchAndPre(a: Version, b: Version): int { Or(ByPatch(a, b), ByPre(a, b)) }
  function ByMinorDown(a: Version, b: Version): int { Or(ByMinor(a, b), ByPatchAndPre(a, b)) }

  lemma CompareVersionsIsTotalPreorder()
    ensures TotalPreorder(CompareVersions)
  {
    ComparePreIsTotalPreorder();
    KeyIsTotalPreorder(ComparePre, (v: Version) => v.pre, ByPre);
    OrIsTotalPreorder(ByPatch, ByPre, ByPatchAndPre);
    OrIsTotalPreorder(ByMinor, ByPatchAndPre, ByMinorDown);
    OrIsTotalPreorder(ByMajor, ByMinorDown, CompareVersions);
  }

  function ByVersion(a: VersionRelease, b: VersionRelease): int { CompareVersions(a.version, b.version) }
  function ByRelease(a: VersionRelease, b: VersionRelease): int { CompareReleases(a.release, b.release) }

  lemma CompareIsTotalPreorder()
    ensures TotalPreorder(Compare)
  {
    CompareVersionsIsTotalPreorder();
    CompareReleasesIsTotalPreorder();
    KeyIsTotalPreorder(CompareVersions, (vr: VersionRelease) => vr.version, ByVersion);
    KeyIsTotalPreorder(CompareReleases, (vr: VersionRelease) => vr.release, ByRelease);
    OrIsTotalPreorder(ByVersion, ByRelease, Compare);
  }

  /** The same but for build metadata. */
  predicate SameVersion(a: Version, b: Version) {
    a.major == b.major && a.minor == b.minor && a.patch == b.patch && a.pre == b.pre
  }

  /** Versions compare equal exactly when they differ in build metadata only. */
  lemma EqualVersionsExactly(a: Version, b: Version)
    ensures CompareVersions(a, b) == 0 <==> SameVersion(a, b)
  {
    ListsAntisymmetric(a.pre, b.pre);
  }

  /** Equal comparison of bundle versions: equal but for build metadata that is no release. */
  lemma EqualExactly(a: VersionRelease, b: VersionRelease)
    ensures Compare(a, b) == 0 <==>
            SameVersion(a.version, b.version) && a.release == b.release
  {
    EqualVersionsExactly(a.version, b.version);
    ListsAntisymmetric(a.release, b.release);
    ReleasesCompareAsLists(a.release, b.release);
  }

  // ---------- precedence, said directly ----------

  /**
    Section 11 of Semantic Versioning 2.0.0 for two identifiers: numbers by size, text in ASCII
    order, and any number before any text.
  */
  ghost predicate LowerIdentifier(a: Identifier, b: Identifier) {
    || (a.Num? && b.Num? && a.number < b.number)
    || (a.Num? && b.Str?)
    || (a.Str? && b.Str? && LowerString(a.text, b.text))
  }

  lemma IdentifierLowerExactly(a: Identifier, b: Identifier)
    ensures CompareIdentifiers(a, b) < 0 <==> LowerIdentifier(a, b)
  {
    if a.Str? && b.Str? { StringsLowerExactly(a.text, b.text); }
  }

  /** a and b agree before k; there a ends first or has the lower identifier. */
  ghost predicate LowerAt(a: Release, b: Release, k: int) {
    && 0 <= k <= |a| && k < |b| && a[..k] == b[..k]
    && (k < |a| ==> LowerIdentifier(a[k], b[k]))
  }

  lemma {:induction false} LowerSomewhere(a: Release, b: Release) returns (k: int)
    requires CompareLists(a, b) < 0
    ensures LowerAt(a, b, k)
  {
    if a == [] || CompareIdentifiers(a[0], b[0]) != 0 {
      k := 0;
      if a != [] { IdentifierLowerExactly(a[0], b[0]); }
    } else {
      IdentifiersAntisymmetric(a[0], b[0]);
      var m := LowerSomewhere(a[1..], b[1..]);
      k := m + 1;
      assert a[..k] == [a[0]] + a[1..][..m] && b[..k] == [b[0]] + b[1..][..m];
    }
  }

  lemma {:induction false} LowerAtCompares(a: Release, b: Release, k: int)
    requires LowerAt(a, b, k)
    ensures CompareLists(a, b) < 0
  {
    if k > 0 {
      assert a[0] == a[..k][0] == b[..k][0] == b[0];
      IdentifiersAntisymmetric(a[0], b[0]);
      assert a[1..][..k - 1] == a[..k][1..] && b[1..][..k - 1] == b[..k][1..];
      LowerAtCompares(a[1..], b[1..], k - 1);
    } else if a != [] {
      IdentifierLowerExactly(a[0], b[0]);
    }
  }

  lemma ListLowerExactly(a: Release, b: Release)
    ensures CompareLists(a, b) < 0 <==> exists k :: LowerAt(a, b, k)
  {
    if CompareLists(a, b) < 0 {
      var k := LowerSomewhere(a, b);
    }
    if k :| LowerAt(a, b, k) {
      LowerAtCompares(a, b, k);
    }
  }

  /** Section 11 of Semantic Versioning 2.0.0: numbers first, then any prerelease before none. */
  ghost predicate LowerVersion(a: Version, b: Version) {
    || a.major < b.major
    || (a.major == b.major && a.minor < b.minor)
    || (a.major == b.major && a.minor == b.minor && a.patch < b.patch)
    || (a.major == b.major && a.minor == b.minor && a.patch == b.patch &&
        a.pre != [] && (b.pre == [] || exists k :: LowerAt(a.pre, b.pre, k)))
  }

  /**
    One version and release is lower than another exactly when its version is, or the versions
    differ at most in build metadata and the release is lower at its first difference, or is a
    proper prefix.
  */
  lemma LowerExactly(a: VersionRelease, b: VersionRelease)
    ensures Compare(a, b) < 0 <==>
            || LowerVersion(a.version, b.version)
            || (SameVersion(a.version, b.version) && exists k :: LowerAt(a.release, b.release, k))
  {
    EqualVersionsExactly(a.version, b.version);
    ListLowerExactly(a.version.pre, b.version.pre);
    ListLowerExactly(a.release, b.release);
    ReleasesCompareAsLists(a.release, b.release);
  }

  /** Versions that differ only in one numeric segment of their build metadata compare like the numbers. */
  lemma NumericReleasesCompare(v: Version, w: Version, k: nat, m: nat, n: nat)
    requires ValidBuild(v.build) && IsRelease(v.build) && k < |v.build| && v.build[k] == Decimal.Format(m)
    requires m <= 18446744073709551615 && n <= 18446744073709551615
    requires w == v.(build := v.build[k := Decimal.Format(n)])
    ensures Compare(FromLegacy(v), FromLegacy(w)) < 0 <==> m < n
    ensures Compare(FromLegacy(v), FromLegacy(w)) == 0 <==> m == n
  {
    SegmentSet(v, k, n);
    FromLegacyExactly(v);
    FromLegacyExactly(w);
    var a, b := FromLegacy(v).release, FromLegacy(w).release;
    forall i | 0 <= i < |a| ensures a[i] == if i == k then Num(m) else b[i] {
      ParsedExactly(v.build[i], a[i]);
      ParsedExactly(w.build[i], b[i]);
      ParsedExactly(v.build[i], Num(m));
    }
    ParsedExactly(w.build[k], b[k]);
    ParsedExactly(w.build[k], Num(n));
    assert b[k] == Num(n) && a[..k] == b[..k];
    EqualExactly(FromLegacy(v), FromLegacy(w));
    LowerExactly(FromLegacy(v), FromLegacy(w));
    if m < n {
      assert LowerAt(a, b, k);
    } else if m > n {
      LowerExactly(FromLegacy(w), FromLegacy(v));
      assert LowerAt(b, a, k);
      CompareIsTotalPreorder();
    }
  }

  lemma SegmentSet(v: Version, k: nat, n: nat)
    requires ValidBuild(v.build) && IsRelease(v.build) && k < |v.build| && n <= 18446744073709551615
    ensures ValidBuild(v.build[k := Decimal.Format(n)]) && IsRelease(v.build[k := Decimal.Format(n)])
  {
    var s := Decimal.Format(n);
    assert Written(Num(n), s);
    assert AllAlphanumeric(s);
  }
}
