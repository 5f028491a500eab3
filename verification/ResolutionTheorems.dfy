/**
  What resolution promises, said in terms of catalogs, channels and versions: which bundle a
  catalog puts forward, which bundle is selected, and what a selected bundle is to the
  installed one.
*/
module ResolutionTheorems {
  import opened Wrappers
  import opened Ordering
  import opened VersionRelease
  import opened Bundles
  import F = BundleFilters
  import opened Resolution

  // ---------- eligible bundles ----------

  /** The entry is one of the channels that the extension names, or of any if it names none. */
  ghost predicate Offers(spec: Spec, pc: PackageContent, e: ChannelEntry) {
    exists ch :: ch in pc.channels && (spec.channels == [] || ch.name in spec.channels) && e in ch.entries
  }

  /** The entry leads away from the installed bundle: it replaces it, or skips it. */
  ghost predicate LeadsFrom(spec: Spec, installed: F.Installed, e: ChannelEntry)
    requires installed.version.Some?
  {
    || e.predecessor == installed.name
    || installed.name in e.skips
    || (e.skipRange != "" && spec.ranges.inSkipRange(e.skipRange, installed.version.value))
  }

  /** The bundle has the version and release of the installed one. */
  ghost predicate SameAsInstalled(installed: F.Installed, b: Bundle)
    requires installed.version.Some?
  {
    && GetVersionAndRelease(b).Some?
    && var has, wanted := GetVersionAndRelease(b).value, FromLegacy(installed.version.value);
       && has.version.major == wanted.version.major && has.version.minor == wanted.version.minor
       && has.version.patch == wanted.version.patch && has.version.pre == wanted.version.pre
       && has.release == wanted.release
  }

  ghost predicate OffersBundle(spec: Spec, pc: PackageContent, b: Bundle) {
    exists e :: Offers(spec, pc, e) && e.name == b.name
  }

  ghost predicate OffersUpgrade(spec: Spec, pc: PackageContent, installed: F.Installed, b: Bundle)
    requires installed.version.Some?
  {
    exists e :: Offers(spec, pc, e) && e.name == b.name && LeadsFrom(spec, installed, e)
  }

  /** What the extension asks of a bundle. */
  ghost predicate Meets(spec: Spec, pc: PackageContent, b: Bundle) {
    && (spec.channels != [] ==> OffersBundle(spec, pc, b))
    && (spec.range.Some? ==>
          GetVersionAndRelease(b).Some? && spec.range.value(GetVersionAndRelease(b).value.version))
    && (!spec.selfCertified && spec.installed.Some? ==>
          && spec.installed.value.version.Some?
          && (SameAsInstalled(spec.installed.value, b) || OffersUpgrade(spec, pc, spec.installed.value, b)))
  }

  lemma OffersBundleExactly(spec: Spec, pc: PackageContent, b: Bundle)
    ensures InSelectedChannel(spec, pc, b) <==> OffersBundle(spec, pc, b)
  {
    if ch :| ch in pc.channels && SelectedChannel(spec, ch) && F.InChannel(ch, b.name) {
      var i :| 0 <= i < |ch.entries| && ch.entries[i].name == b.name;
      assert Offers(spec, pc, ch.entries[i]);
    }
    if e :| Offers(spec, pc, e) && e.name == b.name {
      var ch :| ch in pc.channels && (spec.channels == [] || ch.name in spec.channels) && e in ch.entries;
      assert SelectedChannel(spec, ch) && F.InChannel(ch, b.name);
    }
  }

  ghost predicate HasEdge(spec: Spec, pc: PackageContent, installed: F.Installed, b: Bundle)
    requires installed.version.Some?
  {
    exists ch :: ch in pc.channels && SelectedChannel(spec, ch) &&
                 F.HasSuccessorEdge(spec.ranges, installed.name, installed.version.value, ch, b.name)
  }

  lemma OffersUpgradeExactly(spec: Spec, pc: PackageContent, installed: F.Installed, b: Bundle)
    requires installed.version.Some?
    ensures HasEdge(spec, pc, installed, b) <==> OffersUpgrade(spec, pc, installed, b)
  {
    var v := installed.version.value;
    if ch :| ch in pc.channels && SelectedChannel(spec, ch) &&
             F.HasSuccessorEdge(spec.ranges, installed.name, v, ch, b.name) {
      var i :| 0 <= i < |ch.entries| && ch.entries[i].name == b.name &&
               F.IsSuccessor(spec.ranges, installed.name, v, ch.entries[i]);
      assert Offers(spec, pc, ch.entries[i]) && LeadsFrom(spec, installed, ch.entries[i]);
    }
    if e :| Offers(spec, pc, e) && e.name == b.name && LeadsFrom(spec, installed, e) {
      var ch :| ch in pc.channels && (spec.channels == [] || ch.name in spec.channels) && e in ch.entries;
      assert F.IsSuccessor(spec.ranges, installed.name, v, e);
      assert SelectedChannel(spec, ch) && F.HasSuccessorEdge(spec.ranges, installed.name, v, ch, b.name);
    }
  }

  lemma SameAsInstalledExactly(installed: F.Installed, b: Bundle)
    requires installed.version.Some?
    ensures F.ExactVersionRelease(FromLegacy(installed.version.value))(b) <==> SameAsInstalled(installed, b)
  {
    if GetVersionAndRelease(b).Some? {
      EqualExactly(FromLegacy(installed.version.value), GetVersionAndRelease(b).value);
    }
  }

  /** The predicates of resolution keep exactly the bundles that meet what the extension asks. */
  lemma EligibleExactly(spec: Spec, pc: PackageContent, b: Bundle)
    requires MustFollowEdges(spec) ==> spec.installed.value.version.Some?
    ensures Eligible(spec, pc, b) <==> Meets(spec, pc, b)
  {
    OffersBundleExactly(spec, pc, b);
    if MustFollowEdges(spec) {
      OffersUpgradeExactly(spec, pc, spec.installed.value, b);
      SameAsInstalledExactly(spec.installed.value, b);
    }
  }

  // ---------- what a catalog puts forward ----------

  /** The catalog deprecates the bundle: its first deprecation blob names it. */
  ghost predicate Deprecates(pc: PackageContent, b: Bundle) {
    && pc.deprecations != []
    && exists d :: d in pc.deprecations[0] && d.schema == "olm.bundle" && d.name == b.name
  }

  lemma DeprecatesExactly(pc: PackageContent, b: Bundle)
    ensures IsDeprecated(b, DeprecationOf(pc)) <==> Deprecates(pc, b)
  {
    if pc.deprecations != [] {
      forall d | d in pc.deprecations[0] && d.schema == "olm.bundle" && d.name == b.name
        ensures d == DeprecationEntry(BUNDLE_SCHEMA, b.name) {}
    }
  }

  /** x has a version, and y has none or a lower version or release. */
  ghost predicate VersionAbove(x: Bundle, y: Bundle) {
    && GetVersionAndRelease(x).Some?
    && (GetVersionAndRelease(y).Some? ==>
          var v, w := GetVersionAndRelease(y).value, GetVersionAndRelease(x).value;
          || LowerVersion(v.version, w.version)
          || (SameVersion(v.version, w.version) && exists k :: LowerAt(v.release, w.release, k)))
  }

  /** x is preferred to y: only y is deprecated, or both or neither is and x has the higher version. */
  ghost predicate Better(pc: PackageContent, x: Bundle, y: Bundle) {
    || (!Deprecates(pc, x) && Deprecates(pc, y))
    || (Deprecates(pc, x) == Deprecates(pc, y) && VersionAbove(x, y))
  }

  lemma PreferenceExactly(pc: PackageContent, x: Bundle, y: Bundle)
    ensures Preference(DeprecationOf(pc))(x, y) < 0 <==> Better(pc, x, y)
  {
    DeprecatesExactly(pc, x);
    DeprecatesExactly(pc, y);
    if GetVersionAndRelease(x).Some? && GetVersionAndRelease(y).Some? {
      LowerExactly(GetVersionAndRelease(y).value, GetVersionAndRelease(x).value);
    }
  }

  /** Bundle i is asked for, none that is asked for is better, and every earlier one is worse. */
  ghost predicate BestAt(spec: Spec, pc: PackageContent, i: int) {
    && 0 <= i < |pc.bundles| && Meets(spec, pc, pc.bundles[i])
    && (forall j :: 0 <= j < |pc.bundles| && Meets(spec, pc, pc.bundles[j]) ==>
          !Better(pc, pc.bundles[j], pc.bundles[i]))
    && (forall j :: 0 <= j < i && Meets(spec, pc, pc.bundles[j]) ==> Better(pc, pc.bundles[i], pc.bundles[j]))
  }

  /** Where the k-th eligible bundle stands: the eligible ones before it are the first k. */
  lemma {:induction false} EligibleIndex(spec: Spec, pc: PackageContent, bundles: seq<Bundle>, k: nat) returns (i: nat)
    requires MustFollowEdges(spec) ==> spec.installed.value.version.Some?
    requires k < |EligibleBundles(spec, pc, bundles)|
    ensures i < |bundles| && bundles[i] == EligibleBundles(spec, pc, bundles)[k] && Eligible(spec, pc, bundles[i])
    ensures EligibleBundles(spec, pc, bundles[..i]) == EligibleBundles(spec, pc, bundles)[..k]
    decreases |bundles|
  {
    var n := |bundles| - 1;
    var front := EligibleBundles(spec, pc, bundles[..n]);
    if k < |front| {
      i := EligibleIndex(spec, pc, bundles[..n], k);
      assert bundles[..n][..i] == bundles[..i];
    } else {
      i := n;
    }
  }

  /** The first among the most preferred of the eligible bundles is the best. */
  lemma FirstLeastIsBest(spec: Spec, pc: PackageContent, k: nat, i: nat, j: nat)
    requires MustFollowEdges(spec) ==> spec.installed.value.version.Some?
    requires var eligible := EligibleBundles(spec, pc, pc.bundles);
             && IsFirstLeast(eligible, Preference(DeprecationOf(pc)), k)
             && i < |pc.bundles| && pc.bundles[i] == eligible[k]
             && EligibleBundles(spec, pc, pc.bundles[..i]) == eligible[..k]
    requires TotalPreorder(Preference(DeprecationOf(pc)))
    requires j < |pc.bundles| && Meets(spec, pc, pc.bundles[j])
    ensures !Better(pc, pc.bundles[j], pc.bundles[i])
    ensures j < i ==> Better(pc, pc.bundles[i], pc.bundles[j])
  {
    EligibleExactly(spec, pc, pc.bundles[j]);
    EligibleExact(spec, pc, pc.bundles, pc.bundles[j]);
    PreferenceExactly(pc, pc.bundles[j], pc.bundles[i]);
    PreferenceExactly(pc, pc.bundles[i], pc.bundles[j]);
    if j < i {
      assert pc.bundles[..i][j] == pc.bundles[j];
      EligibleExact(spec, pc, pc.bundles[..i], pc.bundles[j]);
    }
  }

  lemma CandidateAt(spec: Spec, c: Catalog) returns (i: nat)
    requires !Fails(spec, c) && Candidate(spec, c).Some?
    ensures c.lookup.Found? && BestAt(spec, c.lookup.content, i)
    ensures Candidate(spec, c) == Some(c.lookup.content.bundles[i])
  {
    var pc := c.lookup.content;
    PreferenceIsTotalPreorder(DeprecationOf(pc));
    var k := StableSortHead(EligibleBundles(spec, pc, pc.bundles), Preference(DeprecationOf(pc)));
    i := EligibleIndex(spec, pc, pc.bundles, k);
    EligibleExactly(spec, pc, pc.bundles[i]);
    forall j | 0 <= j < |pc.bundles| && Meets(spec, pc, pc.bundles[j])
      ensures !Better(pc, pc.bundles[j], pc.bundles[i])
      ensures j < i ==> Better(pc, pc.bundles[i], pc.bundles[j])
    {
      FirstLeastIsBest(spec, pc, k, i, j);
    }
  }

  lemma BestAtUnique(spec: Spec, pc: PackageContent, i: int, j: int)
    requires BestAt(spec, pc, i) && BestAt(spec, pc, j)
    ensures i == j
  {}

  /**
    A catalog puts forward the first of the best bundles that meet what is asked, and nothing
    exactly when none does.
  */
  lemma PutsForwardExactly(spec: Spec, c: Catalog, b: Bundle)
    requires !Fails(spec, c)
    ensures Candidate(spec, c) == Some(b) <==>
            c.lookup.Found? && exists i :: BestAt(spec, c.lookup.content, i) && c.lookup.content.bundles[i] == b
    ensures Candidate(spec, c).None? <==>
            c.lookup.Found? ==> forall x :: x in c.lookup.content.bundles ==> !Meets(spec, c.lookup.content, x)
  {
    if Candidate(spec, c).Some? {
      var k := CandidateAt(spec, c);
      forall i | BestAt(spec, c.lookup.content, i) ensures i == k {
        BestAtUnique(spec, c.lookup.content, i, k);
      }
      assert c.lookup.content.bundles[k] in c.lookup.content.bundles;
    } else if c.lookup.Found? {
      var pc := c.lookup.content;
      forall x | x in pc.bundles ensures !Meets(spec, pc, x) {
        EligibleExactly(spec, pc, x);
        EligibleExact(spec, pc, pc.bundles, x);
      }
    }
  }

  /** The walk stops at a catalog exactly when it cannot be read, or the installed version cannot. */
  lemma FailsExactly(spec: Spec, c: Catalog)
    ensures Fails(spec, c) <==>
            || c.lookup.Failed?
            || (&& !spec.selfCertified && spec.installed.Some? && spec.installed.value.version.None?
                && c.lookup.Found?
                && var pc := c.lookup.content;
                   pc.hasPackage || pc.channels != [] || pc.bundles != [] || pc.deprecations != [] || pc.hasOthers)
  {}

  // ---------- which bundle is selected ----------

  /** Catalog i is available and puts a bundle forward. */
  ghost predicate Proposes(spec: Spec, catalogs: seq<Catalog>, i: int) {
    0 <= i < |catalogs| && catalogs[i].available && !Fails(spec, catalogs[i]) && Candidate(spec, catalogs[i]).Some?
  }

  ghost predicate ProposesDeprecated(spec: Spec, catalogs: seq<Catalog>, i: int) {
    && Proposes(spec, catalogs, i) && catalogs[i].lookup.Found?
    && Deprecates(catalogs[i].lookup.content, Candidate(spec, catalogs[i]).value)
  }

  /** Its proposal counts: it is not deprecated, or all proposals are. */
  ghost predicate InTheRunning(spec: Spec, catalogs: seq<Catalog>, i: int) {
    && Proposes(spec, catalogs, i)
    && (ProposesDeprecated(spec, catalogs, i) ==>
          forall j :: Proposes(spec, catalogs, j) ==> ProposesDeprecated(spec, catalogs, j))
  }

  /** Its proposal counts, and every other one that does has a lower priority. */
  ghost predicate Wins(spec: Spec, catalogs: seq<Catalog>, i: int) {
    && InTheRunning(spec, catalogs, i)
    && forall j :: InTheRunning(spec, catalogs, j) && j != i ==> catalogs[j].priority < catalogs[i].priority
  }

  /** At most one element from each of a list of sources, and the one of highest priority. */
  ghost predicate TopAt<T>(s: seq<T>, g: T -> seq<FoundBundle>, x: FoundBundle, i: int) {
    && 0 <= i < |s| && g(s[i]) == [x]
    && forall j :: 0 <= j < |s| && j != i && g(s[j]) != [] ==> g(s[j])[0].priority < x.priority
  }

  ghost predicate AtMostOne<T>(s: seq<T>, g: T -> seq<FoundBundle>) {
    forall j :: 0 <= j < |s| ==> |g(s[j])| <= 1
  }

  ghost predicate AllBelow(pool: seq<FoundBundle>, x: FoundBundle) {
    forall y :: y in pool ==> y.priority < x.priority
  }

  ghost predicate SourcesBelow<T>(s: seq<T>, g: T -> seq<FoundBundle>, x: FoundBundle) {
    forall j :: 0 <= j < |s| && g(s[j]) != [] ==> g(s[j])[0].priority < x.priority
  }

  lemma {:induction false} AllBelowExactly<T>(s: seq<T>, g: T -> seq<FoundBundle>, x: FoundBundle)
    requires AtMostOne(s, g)
    ensures AllBelow(FlatMap(s, g), x) <==> SourcesBelow(s, g, x)
  {
    if s != [] {
      var n := |s| - 1;
      AllBelowExactly(s[..n], g, x);
      assert SourcesBelow(s, g, x) <==>
             SourcesBelow(s[..n], g, x) && (g(s[n]) != [] ==> g(s[n])[0].priority < x.priority);
    }
  }

  lemma WinnerOfMore(pool: seq<FoundBundle>, y: FoundBundle, x: FoundBundle)
    ensures IsWinner(multiset(pool + [y]), x) <==>
            (if x == y then AllBelow(pool, x) else IsWinner(multiset(pool), x) && y.priority < x.priority)
  {
    assert multiset(pool + [y]) == multiset(pool) + multiset{y};
    assert forall z :: z in pool <==> z in multiset(pool);
  }

  /** The multiset of all elements has a winner exactly when one source stands out. */
  lemma {:induction false} WinnerExactly<T>(s: seq<T>, g: T -> seq<FoundBundle>, x: FoundBundle)
    requires AtMostOne(s, g)
    ensures IsWinner(multiset(FlatMap(s, g)), x) <==> exists i :: TopAt(s, g, x, i)
  {
    if s != [] {
      var n := |s| - 1;
      var front := s[..n];
      WinnerExactly(front, g, x);
      AllBelowExactly(front, g, x);
      TopAtNext(s, g, x);
      if g(s[n]) != [] {
        assert g(s[n]) == [g(s[n])[0]];
        WinnerOfMore(FlatMap(front, g), g(s[n])[0], x);
      } else {
        assert FlatMap(s, g) == FlatMap(front, g);
      }
    }
  }

  lemma TopAtNext<T>(s: seq<T>, g: T -> seq<FoundBundle>, x: FoundBundle)
    requires s != [] && AtMostOne(s, g)
    ensures var n := |s| - 1;
            (exists i :: TopAt(s, g, x, i)) <==>
            if g(s[n]) == [] then exists i :: TopAt(s[..n], g, x, i)
            else if g(s[n])[0] == x then SourcesBelow(s[..n], g, x)
            else (exists i :: TopAt(s[..n], g, x, i)) && g(s[n])[0].priority < x.priority
  {
    var n := |s| - 1;
    if g(s[n]) != [] { assert g(s[n]) == [g(s[n])[0]]; }
    if i :| TopAt(s, g, x, i) { TopAtOneMore(s, g, x, i); }
    if i :| TopAt(s[..n], g, x, i) { TopAtOneMore(s, g, x, i); }
    TopAtOneMore(s, g, x, n);
  }

  lemma TopAtOneMore<T>(s: seq<T>, g: T -> seq<FoundBundle>, x: FoundBundle, i: int)
    requires s != []
    ensures var n := |s| - 1;
            TopAt(s, g, x, i) <==>
            || (i == n && g(s[n]) == [x] && SourcesBelow(s[..n], g, x))
            || (TopAt(s[..n], g, x, i) && (g(s[n]) != [] ==> g(s[n])[0].priority < x.priority))
  {
    var n := |s| - 1;
    if TopAt(s[..n], g, x, i) && (g(s[n]) != [] ==> g(s[n])[0].priority < x.priority) {
      forall j | 0 <= j < |s| && j != i && g(s[j]) != [] ensures g(s[j])[0].priority < x.priority {
        if j < n { assert s[..n][j] == s[j]; }
      }
    }
  }

  // ---------- the outcome ----------

  ghost function Proposal(spec: Spec, c: Catalog): FoundBundle
    requires !Fails(spec, c) && Candidate(spec, c).Some?
  {
    FoundBundle(Candidate(spec, c).value, c.name, c.priority)
  }

  /** The bundle that catalog c contributes to the pool, given whether all proposals are deprecated. */
  ghost function Contribution(spec: Spec, c: Catalog, all: bool): seq<FoundBundle> {
    FlatMap(CandidatesOf(spec, c), if all then Any else Preferred)
  }

  lemma {:induction false} FlatMapCompose<T, U, V>(s: seq<T>, g: T -> seq<U>, h: U -> seq<V>, k: T -> seq<V>)
    requires forall x :: k(x) == FlatMap(g(x), h)
    ensures FlatMap(FlatMap(s, g), h) == FlatMap(s, k)
  {
    if s != [] {
      var n := |s| - 1;
      FlatMapCompose(s[..n], g, h, k);
      FlatMapSplit(FlatMap(s[..n], g), g(s[n]), h);
    }
  }

  lemma ContributionExactly(spec: Spec, catalogs: seq<Catalog>, i: nat, all: bool)
    requires i < |catalogs|
    ensures Contribution(spec, catalogs[i], all) ==
            if Proposes(spec, catalogs, i) && (all || !ProposesDeprecated(spec, catalogs, i))
            then [Proposal(spec, catalogs[i])] else []
  {
    var c := catalogs[i];
    var g := if all then Any else Preferred;
    assert FlatMap([], g) == [];
    if Proposes(spec, catalogs, i) {
      var cand := CandidatesOf(spec, c)[0];
      assert CandidatesOf(spec, c) == [cand] && [cand][..0] == [];
      assert FlatMap([cand], g) == [] + g(cand);
      DeprecatesExactly(c.lookup.content, cand.found.bundle);
    }
  }

  lemma AllDeprecatedExactly(spec: Spec, catalogs: seq<Catalog>)
    ensures AllDeprecated(Candidates(spec, catalogs)) <==>
            forall i :: Proposes(spec, catalogs, i) ==> ProposesDeprecated(spec, catalogs, i)
  {
    var g := (c: Catalog) => CandidatesOf(spec, c);
    var cands := Candidates(spec, catalogs);
    if AllDeprecated(cands) {
      forall i | Proposes(spec, catalogs, i) ensures ProposesDeprecated(spec, catalogs, i) {
        var cand := CandidatesOf(spec, catalogs[i])[0];
        FlatMapHolds(catalogs, g, i, cand);
        var k :| 0 <= k < |cands| && cands[k] == cand;
        DeprecatesExactly(catalogs[i].lookup.content, cand.found.bundle);
      }
    }
    if forall i :: Proposes(spec, catalogs, i) ==> ProposesDeprecated(spec, catalogs, i) {
      forall k | 0 <= k < |cands| ensures cands[k].deprecated {
        var c := FlatMapMember(catalogs, g, cands[k]);
        var i :| 0 <= i < |catalogs| && catalogs[i] == c;
        assert Proposes(spec, catalogs, i);
        DeprecatesExactly(c.lookup.content, cands[k].found.bundle);
      }
    }
  }

  lemma {:induction false} FlatMapHolds<T, U>(s: seq<T>, g: T -> seq<U>, i: nat, y: U)
    requires i < |s| && y in g(s[i])
    ensures y in FlatMap(s, g)
  {
    if i < |s| - 1 { FlatMapHolds(s[..|s| - 1], g, i, y); }
  }

  lemma RunningExactly(spec: Spec, catalogs: seq<Catalog>, i: int, all: bool)
    requires all <==> forall j :: Proposes(spec, catalogs, j) ==> ProposesDeprecated(spec, catalogs, j)
    ensures InTheRunning(spec, catalogs, i) <==>
            Proposes(spec, catalogs, i) && (all || !ProposesDeprecated(spec, catalogs, i))
  {}

  /** What catalog i has in the pool. */
  ghost predicate InPoolAs(spec: Spec, catalogs: seq<Catalog>, i: int, found: seq<FoundBundle>) {
    0 <= i < |catalogs| ==>
      found == if InTheRunning(spec, catalogs, i) then [Proposal(spec, catalogs[i])] else []
  }

  lemma ContributionInPool(spec: Spec, catalogs: seq<Catalog>, i: nat, all: bool)
    requires i < |catalogs|
    requires all <==> forall j :: Proposes(spec, catalogs, j) ==> ProposesDeprecated(spec, catalogs, j)
    ensures InPoolAs(spec, catalogs, i, Contribution(spec, catalogs[i], all))
  {
    ContributionExactly(spec, catalogs, i, all);
    RunningExactly(spec, catalogs, i, all);
  }

  lemma PoolIsFlat(spec: Spec, catalogs: seq<Catalog>, all: bool, g: Catalog -> seq<FoundBundle>)
    requires all == AllDeprecated(Candidates(spec, catalogs))
    requires forall c :: g(c) == Contribution(spec, c, all)
    ensures Pool(Candidates(spec, catalogs)) == FlatMap(catalogs, g)
  {
    FlatMapCompose(catalogs, (c: Catalog) => CandidatesOf(spec, c), if all then Any else Preferred, g);
  }

  /** The pool, catalog by catalog. */
  lemma PoolByCatalog(spec: Spec, catalogs: seq<Catalog>) returns (g: Catalog -> seq<FoundBundle>)
    ensures Pool(Candidates(spec, catalogs)) == FlatMap(catalogs, g)
    ensures forall i :: 0 <= i < |catalogs| ==> InPoolAs(spec, catalogs, i, g(catalogs[i]))
  {
    var all := AllDeprecated(Candidates(spec, catalogs));
    g := (c: Catalog) => Contribution(spec, c, all);
    PoolIsFlat(spec, catalogs, all, g);
    forall i | 0 <= i < |catalogs| ensures InPoolAs(spec, catalogs, i, g(catalogs[i])) {
      AllDeprecatedExactly(spec, catalogs);
      ContributionInPool(spec, catalogs, i, all);
    }
  }

  lemma TopWins(spec: Spec, catalogs: seq<Catalog>, g: Catalog -> seq<FoundBundle>, x: FoundBundle, i: int)
    requires forall j :: 0 <= j < |catalogs| ==> InPoolAs(spec, catalogs, j, g(catalogs[j]))
    ensures TopAt(catalogs, g, x, i) <==> Wins(spec, catalogs, i) && x == Proposal(spec, catalogs[i])
  {
    if 0 <= i < |catalogs| { assert InPoolAs(spec, catalogs, i, g(catalogs[i])); }
    forall j | 0 <= j < |catalogs|
      ensures g(catalogs[j]) != [] <==> InTheRunning(spec, catalogs, j)
      ensures g(catalogs[j]) != [] ==> g(catalogs[j])[0].priority == catalogs[j].priority
    {
      assert InPoolAs(spec, catalogs, j, g(catalogs[j]));
    }
  }

  lemma PoolWinner(spec: Spec, catalogs: seq<Catalog>, x: FoundBundle)
    ensures IsWinner(multiset(Pool(Candidates(spec, catalogs))), x) <==>
            exists i :: Wins(spec, catalogs, i) && x == Proposal(spec, catalogs[i])
  {
    var g := PoolByCatalog(spec, catalogs);
    WinnerExactly(catalogs, g, x);
    forall i ensures TopAt(catalogs, g, x, i) <==>
      Wins(spec, catalogs, i) && x == Proposal(spec, catalogs[i])
    {
      TopWins(spec, catalogs, g, x, i);
    }
  }

  /**
    Resolution selects the bundle that catalog i puts forward exactly when no available catalog
    fails, catalog i stands out, and its bundle has a version and passes the validations. It
    finds nothing exactly when no catalog stands out.
  */
  lemma SelectedExactly(spec: Spec, catalogs: seq<Catalog>, valid: Bundle -> bool, i: int)
    requires Wins(spec, catalogs, i)
    ensures var b := Candidate(spec, catalogs[i]).value;
            Expected(spec, catalogs, valid) ==
            if exists c :: c in catalogs && c.available && Fails(spec, c) then WalkFailed
            else if GetVersionAndRelease(b).None? then NoVersion(b)
            else if !valid(b) then Invalid(b)
            else Selected(b, GetVersionAndRelease(b).value)
  {
    var x := Proposal(spec, catalogs[i]);
    PoolWinner(spec, catalogs, x);
    var pool := multiset(Pool(Candidates(spec, catalogs)));
    assert IsWinner(pool, x);
    assert forall y :: IsWinner(pool, y) ==> y == x;
  }

  lemma UnresolvedExactly(spec: Spec, catalogs: seq<Catalog>, valid: Bundle -> bool)
    requires forall c :: c in catalogs && c.available ==> !Fails(spec, c)
    ensures Expected(spec, catalogs, valid).Unresolved? <==> forall i :: !Wins(spec, catalogs, i)
  {
    var pool := multiset(Pool(Candidates(spec, catalogs)));
    if i :| Wins(spec, catalogs, i) {
      SelectedExactly(spec, catalogs, valid, i);
    }
    if x :| IsWinner(pool, x) {
      PoolWinner(spec, catalogs, x);
    }
  }

  /**
    The upgrade guarantee. A selected bundle is the first of the best that meet what is asked in
    an available catalog. Unless edges are waived, for an installed extension it has the
    installed version and release, or there is an entry for it, in a channel of that catalog
    that may be used, that replaces the installed bundle or skips it.
  */
  lemma SelectedFollowsEdges(spec: Spec, catalogs: seq<Catalog>, valid: Bundle -> bool) returns (c: Catalog)
    requires Expected(spec, catalogs, valid).Selected?
    ensures var b := Expected(spec, catalogs, valid).bundle;
            && c in catalogs && c.available && c.lookup.Found? && valid(b)
            && (exists i :: BestAt(spec, c.lookup.content, i) && c.lookup.content.bundles[i] == b)
            && (spec.channels != [] ==> OffersBundle(spec, c.lookup.content, b))
            && (spec.range.Some? ==>
                  GetVersionAndRelease(b).Some? && spec.range.value(GetVersionAndRelease(b).value.version))
            && (!spec.selfCertified && spec.installed.Some? ==>
                  && spec.installed.value.version.Some?
                  && (|| SameAsInstalled(spec.installed.value, b)
                      || OffersUpgrade(spec, c.lookup.content, spec.installed.value, b)))
  {
    c := SelectedIsCandidate(spec, catalogs, valid);
    PutsForwardExactly(spec, c, Expected(spec, catalogs, valid).bundle);
  }
}
