/** Bundles and channels of a package in a catalog, and the order in which bundles are preferred. */
module Bundles {
  import opened Wrappers
  import opened Ordering
  import opened VersionRelease

  const PACKAGE_PROPERTY := "olm.package"
  const BUNDLE_SCHEMA := "olm.bundle"

  /** A property; `version` is the version in a package property, if it can be parsed. */
  datatype Property = Property(kind: string, version: Option<Version>)

  datatype Bundle = Bundle(name: string, properties: seq<Property>)

  datatype ChannelEntry = ChannelEntry(name: string, predecessor: string, skips: seq<string>, skipRange: string)

  datatype Channel = Channel(name: string, entries: seq<ChannelEntry>)

  /** One reference of a deprecation blob. */
  datatype DeprecationEntry = DeprecationEntry(schema: string, name: string)

  type Deprecation = seq<DeprecationEntry>

  /** The first package property decides; None stands for an error. */
  function GetVersionAndRelease(b: Bundle): Option<VersionRelease> {
    PackageVersion(b.properties)
  }

  function PackageVersion(ps: seq<Property>): Option<VersionRelease> {
    if ps == [] then None
    else if ps[0].kind != PACKAGE_PROPERTY then PackageVersion(ps[1..])
    else if ps[0].version.None? then None
    else Some(FromLegacy(ps[0].version.value))
  }

  /** Property i is the first package property. */
  ghost predicate FirstPackageAt(b: Bundle, i: int) {
    && 0 <= i < |b.properties| && b.properties[i].kind == "olm.package"
    && forall j :: 0 <= j < i ==> b.properties[j].kind != "olm.package"
  }

  lemma {:induction false} PackageVersionAt(ps: seq<Property>, i: nat)
    requires i <= |ps| && forall j :: 0 <= j < i ==> ps[j].kind != "olm.package"
    ensures PackageVersion(ps) == PackageVersion(ps[i..])
  {
    if i > 0 {
      PackageVersionAt(ps[1..], i - 1);
      assert ps[1..][i - 1..] == ps[i..];
    } else {
      assert ps[0..] == ps;
    }
  }

  /** A bundle's version is that of its first package property; without one there is none. */
  lemma VersionOfFirstPackage(b: Bundle, i: nat)
    requires FirstPackageAt(b, i)
    ensures GetVersionAndRelease(b) ==
            if b.properties[i].version.None? then None else Some(FromLegacy(b.properties[i].version.value))
  {
    PackageVersionAt(b.properties, i);
  }

  lemma NoPackageNoVersion(b: Bundle)
    requires forall j :: 0 <= j < |b.properties| ==> b.properties[j].kind != "olm.package"
    ensures GetVersionAndRelease(b) == None
  {
    PackageVersionAt(b.properties, |b.properties|);
  }

  // ---------- comparison ----------

  function CompareErrors(err1: bool, err2: bool): int {
    if err1 && !err2 then -1 else if !err1 && err2 then 1 else 0
  }

  /** ByVersionAndRelease: highest first, bundles without a version last. */
  function ByVersionAndRelease(b1: Bundle, b2: Bundle): int {
    var vr1, vr2 := GetVersionAndRelease(b1), GetVersionAndRelease(b2);
    if vr1.None? || vr2.None? then CompareErrors(vr2.None?, vr1.None?)
    else Compare(vr2.value, vr1.value)
  }

  /** The set filled by ByDeprecationFunc. */
  method CollectDeprecated(entries: Deprecation) returns (names: set<string>)
    ensures forall b: Bundle :: b.name in names <==> IsDeprecated(b, Some(entries))
  {
    names := {};
    for i := 0 to |entries|
      invariant forall n :: n in names <==> DeprecationEntry(BUNDLE_SCHEMA, n) in entries[..i]
    {
      if entries[i].schema == BUNDLE_SCHEMA {
        names := names + {entries[i].name};
      }
      assert entries[..i + 1] == entries[..i] + [entries[i]];
    }
    assert entries[..|entries|] == entries;
  }

  /** isDeprecated. */
  predicate IsDeprecated(b: Bundle, deprecation: Option<Deprecation>) {
    deprecation.Some? && DeprecationEntry(BUNDLE_SCHEMA, b.name) in deprecation.value
  }

  function ByDeprecation(deprecation: Option<Deprecation>, a: Bundle, b: Bundle): int {
    CompareErrors(IsDeprecated(b, deprecation), IsDeprecated(a, deprecation))
  }

  /** The comparison Resolve sorts with. */
  function Preference(deprecation: Option<Deprecation>): Comparator<Bundle> {
    (a: Bundle, b: Bundle) => Or(ByDeprecation(deprecation, a, b), ByVersionAndRelease(a, b))
  }

  lemma ByVersionTransitive(a: Bundle, b: Bundle, c: Bundle)
    requires ByVersionAndRelease(a, b) <= 0 && ByVersionAndRelease(b, c) <= 0
    ensures ByVersionAndRelease(a, c) <= 0
  {
    CompareIsTotalPreorder();
  }

  lemma ByVersionIsTotalPreorder()
    ensures TotalPreorder(ByVersionAndRelease)
  {
    CompareIsTotalPreorder();
    forall a, b ensures ByVersionAndRelease(a, b) < 0 <==> ByVersionAndRelease(b, a) > 0 {}
    forall a, b, c | ByVersionAndRelease(a, b) <= 0 && ByVersionAndRelease(b, c) <= 0
      ensures ByVersionAndRelease(a, c) <= 0
    {
      ByVersionTransitive(a, b, c);
    }
  }

  /** Deprecation, then version, then release, unparsable versions last: a total preorder. */
  lemma PreferenceIsTotalPreorder(deprecation: Option<Deprecation>)
    ensures TotalPreorder(Preference(deprecation))
  {
    ByVersionIsTotalPreorder();
    var byDeprecation := (a: Bundle, b: Bundle) => ByDeprecation(deprecation, a, b);
    assert TotalPreorder(byDeprecation);
    OrIsTotalPreorder(byDeprecation, ByVersionAndRelease, Preference(deprecation));
  }

  /**
    The bundle at the head of the sorted list: not deprecated if any is not, and no bundle of
    its deprecation class has a higher version and release (or a version where it has none).
  */
  lemma HeadIsBest(bundles: seq<Bundle>, deprecation: Option<Deprecation>)
    requires bundles != []
    ensures var best := StableSort(bundles, Preference(deprecation))[0];
            && best in bundles
            && (forall b :: b in bundles && !IsDeprecated(b, deprecation) ==> !IsDeprecated(best, deprecation))
            && (forall b :: b in bundles && IsDeprecated(b, deprecation) == IsDeprecated(best, deprecation) &&
                            GetVersionAndRelease(b).Some? ==>
                  GetVersionAndRelease(best).Some? &&
                  Compare(GetVersionAndRelease(b).value, GetVersionAndRelease(best).value) <= 0)
  {
    PreferenceIsTotalPreorder(deprecation);
    var k := StableSortHead(bundles, Preference(deprecation));
    var best := bundles[k];
    forall b | b in bundles ensures Or(ByDeprecation(deprecation, best, b), ByVersionAndRelease(best, b)) <= 0 {
      assert Preference(deprecation)(best, b) <= 0;
    }
  }
}
