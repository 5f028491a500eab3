/**
  CatalogResolver.Resolve: the best eligible bundle of every catalog, the pool of those that
  are preferred by deprecation, and the catalog priority that picks one of them.
*/
module Resolution {
  import opened Wrappers
  import opened Ordering
  import opened VersionRelease
  import opened Bundles
  import F = BundleFilters

  /** What a catalog has on a package. */
  datatype PackageContent = PackageContent(
    hasPackage: bool, channels: seq<Channel>, bundles: seq<Bundle>,
    deprecations: seq<Deprecation>, hasOthers: bool)

  datatype Lookup = Failed | Missing | Found(content: PackageContent)

  datatype Catalog = Catalog(name: string, available: bool, priority: int, lookup: Lookup)

  /** What the extension asks for; no channels means all of them. */
  datatype Spec = Spec(channels: seq<string>, range: Option<Version -> bool>,
                       selfCertified: bool, installed: Option<F.Installed>, ranges: F.Ranges)

  datatype FoundBundle = FoundBundle(bundle: Bundle, catalog: string, priority: int)

  datatype Outcome =
    | WalkFailed
    | Unresolved
    | NoVersion(bundle: Bundle)
    | Invalid(bundle: Bundle)
    | Selected(bundle: Bundle, version: VersionRelease)

  // ---------- which bundles are eligible ----------

  predicate SelectedChannel(spec: Spec, ch: Channel) {
    spec.channels == [] || ch.name in spec.channels
  }

  ghost predicate InSelectedChannel(spec: Spec, pc: PackageContent, b: Bundle) {
    exists ch :: ch in pc.channels && SelectedChannel(spec, ch) && F.InChannel(ch, b.name)
  }

  predicate MustFollowEdges(spec: Spec) { !spec.selfCertified && spec.installed.Some? }

  /** The installed version and release, or an upgrade edge from it in a selected channel. */
  ghost predicate Upgrades(spec: Spec, pc: PackageContent, b: Bundle)
    requires spec.installed.Some? && spec.installed.value.version.Some?
  {
    var installed := spec.installed.value;
    || F.ExactVersionRelease(FromLegacy(installed.version.value))(b)
    || exists ch :: ch in pc.channels && SelectedChannel(spec, ch) &&
                    F.HasSuccessorEdge(spec.ranges, installed.name, installed.version.value, ch, b.name)
  }

  ghost predicate Eligible(spec: Spec, pc: PackageContent, b: Bundle)
    requires MustFollowEdges(spec) ==> spec.installed.value.version.Some?
  {
    && (spec.channels != [] ==> InSelectedChannel(spec, pc, b))
    && (spec.range.Some? ==> F.InSemverRange(spec.range.value)(b))
    && (MustFollowEdges(spec) ==> Upgrades(spec, pc, b))
  }

  ghost function EligibleBundles(spec: Spec, pc: PackageContent, bundles: seq<Bundle>): seq<Bundle>
    requires MustFollowEdges(spec) ==> spec.installed.value.version.Some?
  {
    if bundles == [] then []
    else
      var n := |bundles| - 1;
      EligibleBundles(spec, pc, bundles[..n]) + (if Eligible(spec, pc, bundles[n]) then [bundles[n]] else [])
  }

  function DeprecationOf(pc: PackageContent): Option<Deprecation> {
    if pc.deprecations != [] then Some(pc.deprecations[0]) else None
  }

  predicate IsEmpty(pc: PackageContent) {
    !pc.hasPackage && pc.channels == [] && pc.bundles == [] && pc.deprecations == [] && !pc.hasOthers
  }

  /** The walk stops at this catalog with an error. */
  predicate Fails(spec: Spec, c: Catalog) {
    || c.lookup.Failed?
    || (c.lookup.Found? && !IsEmpty(c.lookup.content) && MustFollowEdges(spec) && spec.installed.value.version.None?)
  }

  /** The most preferred eligible bundle of a catalog. */
  ghost function Candidate(spec: Spec, c: Catalog): Option<Bundle>
    requires !Fails(spec, c)
  {
    if !c.lookup.Found? || IsEmpty(c.lookup.content) then None
    else
      var pc := c.lookup.content;
      var eligible := EligibleBundles(spec, pc, pc.bundles);
      if eligible == [] then None else Some(StableSort(eligible, Preference(DeprecationOf(pc)))[0])
  }

  // ---------- the walk callback ----------

  const NO_CHANNEL := Channel("", [])
  const NO_BUNDLE := Bundle("", [])

  /** A whole array after compaction: what remained, then zero values. */
  ghost predicate Compacted(spec: Spec, pc: PackageContent, channels: seq<Channel>) {
    && (forall ch :: ch in channels ==> ch == NO_CHANNEL || (ch in pc.channels && SelectedChannel(spec, ch)))
    && (forall ch :: ch in pc.channels && SelectedChannel(spec, ch) ==> ch in channels)
  }

  /** Zero-valued channels have no entries, so they add no edge and no member. */
  lemma CompactedEdges(spec: Spec, pc: PackageContent, channels: seq<Channel>,
                       installed: F.Installed, b: Bundle)
    requires Compacted(spec, pc, channels) && installed.version.Some?
    ensures F.LegacySuccessor(spec.ranges, installed.name, installed.version.value, channels)(b) <==>
            exists ch :: ch in pc.channels && SelectedChannel(spec, ch) &&
                         F.HasSuccessorEdge(spec.ranges, installed.name, installed.version.value, ch, b.name)
  {}

  lemma CompactedMembers(spec: Spec, pc: PackageContent, channels: seq<Channel>, b: Bundle)
    requires Compacted(spec, pc, channels)
    ensures F.InAnyChannel(channels)(b) <==> InSelectedChannel(spec, pc, b)
  {}

  /**
    Selecting the channels compacts the array in place; the caller goes on to use both the
    shortened slice and the whole array.
  */
  method SelectChannels(spec: Spec, pc: PackageContent, channels: array<Channel>) returns (n: nat)
    requires channels[..] == pc.channels
    modifies channels
    ensures n <= channels.Length
    ensures spec.channels == [] ==> n == channels.Length && channels[..] == pc.channels
    ensures Compacted(spec, pc, channels[..n]) && Compacted(spec, pc, channels[..])
  {
    if spec.channels == [] {
      n := channels.Length;
      assert channels[..n] == channels[..];
      return;
    }
    var unwanted := (c: Channel) => c.name !in spec.channels;
    n := F.DeleteFunc(channels, unwanted, NO_CHANNEL);
    forall ch ensures ch in channels[..n] <==> ch in pc.channels && SelectedChannel(spec, ch) {
      F.RemainingExact(pc.channels, unwanted, ch);
    }
    assert channels[..] == channels[..n] + channels[n..];
  }

  /** The predicates in the order in which they are collected; None when there is an error. */
  method CollectPredicates(spec: Spec, pc: PackageContent) returns (predicates: Option<seq<F.Predicate>>)
    ensures predicates.None? <==> MustFollowEdges(spec) && spec.installed.value.version.None?
    ensures predicates.Some? ==> forall b :: F.And(predicates.value)(b) <==> Eligible(spec, pc, b)
  {
    var channels := new Channel[|pc.channels|](i requires 0 <= i < |pc.channels| => pc.channels[i]);
    assert channels[..] == pc.channels;
    var n := SelectChannels(spec, pc, channels);
    var collected: seq<F.Predicate> := [];
    if spec.channels != [] {
      var p := F.InAnyChannel(channels[..n]);
      forall b ensures F.And(collected + [p])(b) <==> InSelectedChannel(spec, pc, b) {
        F.AndSnoc(collected, p, b);
        CompactedMembers(spec, pc, channels[..n], b);
      }
      collected := collected + [p];
    }
    if spec.range.Some? {
      var p := F.InSemverRange(spec.range.value);
      forall b ensures F.And(collected + [p])(b) <==> F.And(collected)(b) && p(b) {
        F.AndSnoc(collected, p, b);
      }
      collected := collected + [p];
    }
    if MustFollowEdges(spec) {
      var p := F.SuccessorsOf(spec.ranges, spec.installed.value, channels[..]);
      if p.None? {
        return None;
      }
      forall b ensures F.And(collected + [p.value])(b) <==> F.And(collected)(b) && Upgrades(spec, pc, b) {
        F.AndSnoc(collected, p.value, b);
        CompactedEdges(spec, pc, channels[..], spec.installed.value, b);
      }
      collected := collected + [p.value];
    }
    predicates := Some(collected);
  }

  lemma {:induction false} RemainingAreEligible(spec: Spec, pc: PackageContent, keep: F.Predicate, bundles: seq<Bundle>)
    requires MustFollowEdges(spec) ==> spec.installed.value.version.Some?
    requires forall b :: keep(b) <==> Eligible(spec, pc, b)
    ensures F.Remaining(bundles, (b: Bundle) => !keep(b)) == EligibleBundles(spec, pc, bundles)
  {
    if bundles != [] {
      RemainingAreEligible(spec, pc, keep, bundles[..|bundles| - 1]);
    }
  }

  /** The walk callback up to the best bundle of the catalog; None when it returns an error. */
  method BestOf(spec: Spec, c: Catalog) returns (best: Option<Option<Bundle>>)
    ensures best.None? <==> Fails(spec, c)
    ensures best.Some? ==> best.value == Candidate(spec, c)
  {
    if c.lookup.Failed? {
      return None;
    }
    if c.lookup.Missing? || IsEmpty(c.lookup.content) {
      return Some(None);
    }
    var pc := c.lookup.content;
    var predicates := CollectPredicates(spec, pc);
    if predicates.None? {
      return None;
    }
    var keep := F.And(predicates.value);
    var bundles := new Bundle[|pc.bundles|](i requires 0 <= i < |pc.bundles| => pc.bundles[i]);
    assert bundles[..] == pc.bundles;
    var n := F.DeleteFunc(bundles, (b: Bundle) => !keep(b), NO_BUNDLE);
    RemainingAreEligible(spec, pc, keep, pc.bundles);
    if n == 0 {
      return Some(None);
    }
    var sorted := StableSort(bundles[..n], Preference(DeprecationOf(pc)));
    assert |multiset(sorted)| == |sorted|;
    best := Some(Some(sorted[0]));
  }

  // ---------- the pool ----------

  /** A catalog's best bundle, and whether that catalog calls it deprecated. */
  datatype Cand = Cand(found: FoundBundle, deprecated: bool)

  ghost function CandidatesOf(spec: Spec, c: Catalog): seq<Cand> {
    if !c.available || Fails(spec, c) || Candidate(spec, c).None? then []
    else
      var b := Candidate(spec, c).value;
      [Cand(FoundBundle(b, c.name, c.priority), IsDeprecated(b, DeprecationOf(c.lookup.content)))]
  }

  ghost function FlatMap<T, U>(s: seq<T>, g: T -> seq<U>): seq<U> {
    if s == [] then [] else FlatMap(s[..|s| - 1], g) + g(s[|s| - 1])
  }

  ghost function Candidates(spec: Spec, catalogs: seq<Catalog>): seq<Cand> {
    FlatMap(catalogs, (c: Catalog) => CandidatesOf(spec, c))
  }

  function Any(c: Cand): seq<FoundBundle> { [c.found] }

  function Preferred(c: Cand): seq<FoundBundle> { if c.deprecated then [] else [c.found] }

  predicate AllDeprecated(cands: seq<Cand>) { forall i :: 0 <= i < |cands| ==> cands[i].deprecated }

  /** The candidates that are not deprecated, or all of them if every one is. */
  ghost function Pool(cands: seq<Cand>): seq<FoundBundle> {
    if AllDeprecated(cands) then FlatMap(cands, Any) else FlatMap(cands, Preferred)
  }

  lemma FlatMapSnoc<T, U>(s: seq<T>, x: T, g: T -> seq<U>)
    ensures FlatMap(s + [x], g) == FlatMap(s, g) + g(x)
  {}

  lemma {:induction false} NonePreferred(cands: seq<Cand>)
    requires AllDeprecated(cands)
    ensures FlatMap(cands, Preferred) == []
  {
    if cands != [] { NonePreferred(cands[..|cands| - 1]); }
  }

  /** How one more candidate changes the pool. */
  lemma PoolSnoc(cands: seq<Cand>, c: Cand)
    ensures cands == [] ==> Pool(cands + [c]) == [c.found]
    ensures !AllDeprecated(cands) && c.deprecated ==> Pool(cands + [c]) == Pool(cands)
    ensures AllDeprecated(cands) && !c.deprecated ==> Pool(cands + [c]) == [c.found]
    ensures AllDeprecated(cands) == c.deprecated ==> Pool(cands + [c]) == Pool(cands) + [c.found]
    ensures AllDeprecated(cands + [c]) <==> AllDeprecated(cands) && c.deprecated
  {
    FlatMapSnoc(cands, c, Any);
    FlatMapSnoc(cands, c, Preferred);
    assert AllDeprecated(cands + [c]) <==> AllDeprecated(cands) && c.deprecated by {
      if AllDeprecated(cands + [c]) {
        assert (cands + [c])[|cands|] == c;
        forall i | 0 <= i < |cands| ensures cands[i].deprecated { assert (cands + [c])[i] == cands[i]; }
      }
    }
    if AllDeprecated(cands) { NonePreferred(cands); }
    assert [] + [c.found] == [c.found];
    if cands == [] { assert FlatMap(cands, Any) == []; }
  }

  lemma {:induction false} PoolNonEmpty(cands: seq<Cand>)
    requires cands != []
    ensures Pool(cands) != []
  {
    var n := |cands| - 1;
    PoolSnoc(cands[..n], cands[n]);
    assert cands == cands[..n] + [cands[n]];
    if n > 0 { PoolNonEmpty(cands[..n]); }
  }

  /** What the walk remembers: the pool, and the deprecation its last member was judged by. */
  ghost predicate Remembers(cands: seq<Cand>, resolved: seq<FoundBundle>, prior: Option<Deprecation>) {
    && resolved == Pool(cands)
    && (resolved == [] <==> cands == [])
    && (resolved != [] ==> IsDeprecated(resolved[|resolved| - 1].bundle, prior) == AllDeprecated(cands))
  }

  /** The end of the walk callback: skip, start over, or append. */
  method AddCandidate(resolved: seq<FoundBundle>, prior: Option<Deprecation>,
                      found: FoundBundle, deprecation: Option<Deprecation>, ghost cands: seq<Cand>)
    returns (resolved': seq<FoundBundle>, prior': Option<Deprecation>)
    requires Remembers(cands, resolved, prior)
    ensures Remembers(cands + [Cand(found, IsDeprecated(found.bundle, deprecation))], resolved', prior')
  {
    resolved', prior' := resolved, prior;
    ghost var c := Cand(found, IsDeprecated(found.bundle, deprecation));
    PoolSnoc(cands, c);
    PoolNonEmpty(cands + [c]);
    if |resolved'| != 0 {
      var currentIsDeprecated := IsDeprecated(found.bundle, deprecation);
      var priorIsDeprecated := IsDeprecated(resolved'[|resolved'| - 1].bundle, prior');
      if currentIsDeprecated && !priorIsDeprecated {
        return;
      } else if !currentIsDeprecated && priorIsDeprecated {
        resolved' := [];
      }
    }
    resolved' := resolved' + [found];
    prior' := deprecation;
  }

  ghost predicate WalkFails(spec: Spec, catalogs: seq<Catalog>) {
    exists c :: c in catalogs && c.available && Fails(spec, c)
  }

  lemma CandidatesSnoc(spec: Spec, catalogs: seq<Catalog>, i: nat)
    requires i < |catalogs|
    ensures Candidates(spec, catalogs[..i + 1]) == Candidates(spec, catalogs[..i]) + CandidatesOf(spec, catalogs[i])
    ensures WalkFails(spec, catalogs[..i + 1]) <==>
            WalkFails(spec, catalogs[..i]) || (catalogs[i].available && Fails(spec, catalogs[i]))
  {
    assert catalogs[..i + 1] == catalogs[..i] + [catalogs[i]];
    FlatMapSnoc(catalogs[..i], catalogs[i], (c: Catalog) => CandidatesOf(spec, c));
  }

  /** The walk callback for one catalog. */
  method WalkOne(spec: Spec, c: Catalog, pool: seq<FoundBundle>, prior: Option<Deprecation>, ghost cands: seq<Cand>)
    returns (failed: bool, pool': seq<FoundBundle>, prior': Option<Deprecation>)
    requires Remembers(cands, pool, prior)
    ensures failed <==> c.available && Fails(spec, c)
    ensures !failed ==> Remembers(cands + CandidatesOf(spec, c), pool', prior')
  {
    failed, pool', prior' := false, pool, prior;
    if c.available {
      var best := BestOf(spec, c);
      if best.None? {
        failed := true;
        return;
      }
      if best.value.Some? {
        pool', prior' := AddCandidate(pool, prior, FoundBundle(best.value.value, c.name, c.priority),
                                      DeprecationOf(c.lookup.content), cands);
        return;
      }
    }
    assert cands + CandidatesOf(spec, c) == cands;
  }

  /** The walk over the available catalogs; None when it stops with an error. */
  method Walk(spec: Spec, catalogs: seq<Catalog>) returns (resolved: Option<seq<FoundBundle>>)
    ensures resolved.None? <==> WalkFails(spec, catalogs)
    ensures resolved.Some? ==> resolved.value == Pool(Candidates(spec, catalogs))
  {
    var pool: seq<FoundBundle> := [];
    var prior: Option<Deprecation> := None;
    var failed := false;
    var i := 0;
    while i < |catalogs|
      invariant i <= |catalogs|
      invariant Remembers(Candidates(spec, catalogs[..i]), pool, prior)
      invariant !WalkFails(spec, catalogs[..i])
    {
      CandidatesSnoc(spec, catalogs, i);
      failed, pool, prior := WalkOne(spec, catalogs[i], pool, prior, Candidates(spec, catalogs[..i]));
      if failed {
        assert catalogs[i] in catalogs;
        return None;
      }
      i := i + 1;
    }
    assert catalogs[..|catalogs|] == catalogs;
    resolved := Some(pool);
  }

  // ---------- priority ----------

  /** The one member of highest priority, and only one of it. */
  ghost predicate IsWinner(pool: multiset<FoundBundle>, x: FoundBundle) {
    pool[x] == 1 && forall y :: y in pool && y != x ==> y.priority < x.priority
  }

  function HighestFirst(a: FoundBundle, b: FoundBundle): int { CompareInts(b.priority, a.priority) }

  lemma SortedTop(sorted: seq<FoundBundle>)
    requires SortedBy(HighestFirst, sorted) && |sorted| > 1
    ensures sorted[0].priority != sorted[1].priority ==> IsWinner(multiset(sorted), sorted[0])
    ensures sorted[0].priority == sorted[1].priority ==> forall x :: !IsWinner(multiset(sorted), x)
  {
    var top := sorted[0];
    assert sorted == [top] + sorted[1..];
    forall y | y in sorted[1..] ensures y.priority <= sorted[1].priority <= top.priority {
      var j :| 1 <= j < |sorted| && sorted[j] == y;
      assert HighestFirst(sorted[0], sorted[1]) <= 0;
      if j > 1 { assert HighestFirst(sorted[1], sorted[j]) <= 0; }
    }
    if sorted[0].priority == sorted[1].priority {
      forall x ensures !IsWinner(multiset(sorted), x) {
        assert sorted[1] in multiset(sorted) && top in multiset(sorted);
        if x == top && sorted[1] == top { RepeatedElementCount(sorted, 0, 1); }
      }
    }
  }

  /** Resolve for priority, then check for ambiguity. */
  method PickByPriority(resolved: seq<FoundBundle>) returns (winner: Option<FoundBundle>)
    ensures winner.Some? ==> IsWinner(multiset(resolved), winner.value)
    ensures winner.None? ==> forall x :: !IsWinner(multiset(resolved), x)
  {
    var left := resolved;
    if |left| > 1 {
      left := SortFunc(left, HighestFirst);
      assert |multiset(left)| == |left| && |multiset(resolved)| == |resolved|;
      SortedTop(left);
      if left[0].priority != left[1].priority {
        left := [left[0]];
      }
    }
    if |left| != 1 {
      return None;
    }
    winner := Some(left[0]);
    if |resolved| == 1 { assert resolved == [resolved[0]]; }
  }

  // ---------- the outcome ----------

  ghost function Settled(pool: multiset<FoundBundle>, valid: Bundle -> bool): Outcome {
    if exists x :: IsWinner(pool, x) then
      var winner :| IsWinner(pool, winner);
      match GetVersionAndRelease(winner.bundle)
      case None => NoVersion(winner.bundle)
      case Some(v) => if valid(winner.bundle) then Selected(winner.bundle, v) else Invalid(winner.bundle)
    else Unresolved
  }

  /** What resolution must answer: a function of the multiset of pool members alone. */
  ghost function Expected(spec: Spec, catalogs: seq<Catalog>, valid: Bundle -> bool): Outcome {
    if WalkFails(spec, catalogs) then WalkFailed
    else Settled(multiset(Pool(Candidates(spec, catalogs))), valid)
  }

  /** Resolve; `valid` stands for the configured validations. */
  method Resolve(spec: Spec, catalogs: seq<Catalog>, valid: Bundle -> bool) returns (outcome: Outcome)
    ensures outcome == Expected(spec, catalogs, valid)
  {
    var walked := Walk(spec, catalogs);
    if walked.None? {
      return WalkFailed;
    }
    var winner := PickByPriority(walked.value);
    if winner.None? {
      return Unresolved;
    }
    ghost var pool := multiset(walked.value);
    assert forall x :: IsWinner(pool, x) ==> x == winner.value;
    var v := GetVersionAndRelease(winner.value.bundle);
    if v.None? {
      return NoVersion(winner.value.bundle);
    }
    if !valid(winner.value.bundle) {
      return Invalid(winner.value.bundle);
    }
    outcome := Selected(winner.value.bundle, v.value);
  }

  // ---------- the order of the catalogs does not matter ----------

  lemma AppendSnoc<T>(a: seq<T>, b: seq<T>)
    requires b != []
    ensures a + b == (a + b[..|b| - 1]) + [b[|b| - 1]]
  {}

  lemma Associative<T>(a: seq<T>, b: seq<T>, c: seq<T>)
    ensures (a + b) + c == a + (b + c)
  {}

  lemma {:induction false} FlatMapSplit<T, U>(a: seq<T>, b: seq<T>, g: T -> seq<U>)
    ensures FlatMap(a + b, g) == FlatMap(a, g) + FlatMap(b, g)
  {
    if b == [] {
      assert a + b == a;
    } else {
      var n := |b| - 1;
      FlatMapSplit(a, b[..n], g);
      AppendSnoc(a, b);
      FlatMapSnoc(a + b[..n], b[n], g);
      Associative(FlatMap(a, g), FlatMap(b[..n], g), g(b[n]));
    }
  }

  lemma FlatMapRemove<T, U>(b: seq<T>, k: nat, g: T -> seq<U>)
    requires k < |b|
    ensures multiset(FlatMap(b, g)) == multiset(FlatMap(b[..k] + b[k + 1..], g)) + multiset(g(b[k]))
    ensures multiset(b[..k] + b[k + 1..]) == multiset(b) - multiset{b[k]}
  {
    assert b == (b[..k] + [b[k]]) + b[k + 1..];
    var before, after := b[..k], b[k + 1..];
    FlatMapSplit(before + [b[k]], after, g);
    FlatMapSnoc(before, b[k], g);
    FlatMapSplit(before, after, g);
  }

  lemma {:induction false} FlatMapPermutation<T, U>(a: seq<T>, b: seq<T>, g: T -> seq<U>)
    requires multiset(a) == multiset(b)
    ensures multiset(FlatMap(a, g)) == multiset(FlatMap(b, g))
    decreases |a|
  {
    if a == [] {
      assert |multiset(b)| == |b| && |multiset(a)| == 0;
    } else {
      var n := |a| - 1;
      SameMultisetSameMembers(a, b);
      assert a[n] in a;
      var k :| 0 <= k < |b| && b[k] == a[n];
      FlatMapRemove(b, k, g);
      assert a == a[..n] + [a[n]];
      assert multiset(a[..n]) == multiset(a) - multiset{a[n]};
      FlatMapPermutation(a[..n], b[..k] + b[k + 1..], g);
    }
  }

  lemma PoolPermutation(a: seq<Cand>, b: seq<Cand>)
    requires multiset(a) == multiset(b)
    ensures multiset(Pool(a)) == multiset(Pool(b))
  {
    SameMultisetSameMembers(a, b);
    assert AllDeprecated(a) <==> AllDeprecated(b) by {
      assert forall i :: 0 <= i < |a| ==> a[i] in b;
      assert forall i :: 0 <= i < |b| ==> b[i] in a;
    }
    FlatMapPermutation(a, b, Any);
    FlatMapPermutation(a, b, Preferred);
  }

  /** Reordering the catalogs changes neither the bundle nor the kind of error. */
  lemma OrderOfCatalogsIrrelevant(spec: Spec, a: seq<Catalog>, b: seq<Catalog>, valid: Bundle -> bool)
    requires multiset(a) == multiset(b)
    ensures Expected(spec, a, valid) == Expected(spec, b, valid)
  {
    SameMultisetSameMembers(a, b);
    FlatMapPermutation(a, b, (c: Catalog) => CandidatesOf(spec, c));
    PoolPermutation(Candidates(spec, a), Candidates(spec, b));
  }

  // ---------- what a selected bundle is ----------

  lemma {:induction false} FlatMapMember<T, U>(s: seq<T>, g: T -> seq<U>, y: U) returns (x: T)
    requires y in FlatMap(s, g)
    ensures x in s && y in g(x)
  {
    var n := |s| - 1;
    if y in FlatMap(s[..n], g) {
      x := FlatMapMember(s[..n], g, y);
    } else {
      x := s[n];
    }
  }

  lemma {:induction false} EligibleExact(spec: Spec, pc: PackageContent, bundles: seq<Bundle>, b: Bundle)
    requires MustFollowEdges(spec) ==> spec.installed.value.version.Some?
    ensures b in EligibleBundles(spec, pc, bundles) <==> b in bundles && Eligible(spec, pc, b)
  {
    if bundles != [] { EligibleExact(spec, pc, bundles[..|bundles| - 1], b); }
  }

  /** The bundle a catalog puts forward is eligible, and best by the catalog's own deprecations. */
  lemma CandidateIsBest(spec: Spec, c: Catalog)
    requires !Fails(spec, c) && Candidate(spec, c).Some?
    ensures var pc := c.lookup.content;
            var best := Candidate(spec, c).value;
            && best in pc.bundles && Eligible(spec, pc, best)
            && forall b :: b in pc.bundles && Eligible(spec, pc, b) ==>
                 && (!IsDeprecated(b, DeprecationOf(pc)) ==> !IsDeprecated(best, DeprecationOf(pc)))
                 && (IsDeprecated(b, DeprecationOf(pc)) == IsDeprecated(best, DeprecationOf(pc)) &&
                     GetVersionAndRelease(b).Some? ==>
                       GetVersionAndRelease(best).Some? &&
                       Compare(GetVersionAndRelease(b).value, GetVersionAndRelease(best).value) <= 0)
  {
    var pc := c.lookup.content;
    var eligible := EligibleBundles(spec, pc, pc.bundles);
    HeadIsBest(eligible, DeprecationOf(pc));
    EligibleExact(spec, pc, pc.bundles, Candidate(spec, c).value);
    forall b | b in pc.bundles && Eligible(spec, pc, b) ensures b in eligible {
      EligibleExact(spec, pc, pc.bundles, b);
    }
  }

  lemma PoolMember(cands: seq<Cand>, x: FoundBundle) returns (cand: Cand)
    requires x in Pool(cands)
    ensures cand in cands && cand.found == x
  {
    if AllDeprecated(cands) {
      cand := FlatMapMember(cands, Any, x);
    } else {
      cand := FlatMapMember(cands, Preferred, x);
    }
  }

  lemma CandidateMember(spec: Spec, catalogs: seq<Catalog>, cand: Cand) returns (c: Catalog)
    requires cand in Candidates(spec, catalogs)
    ensures c in catalogs && c.available && !Fails(spec, c) && Candidate(spec, c) == Some(cand.found.bundle)
  {
    c := FlatMapMember(catalogs, (c: Catalog) => CandidatesOf(spec, c), cand);
  }

  lemma SettledWinner(pool: seq<FoundBundle>, valid: Bundle -> bool) returns (winner: FoundBundle)
    requires Settled(multiset(pool), valid).Selected?
    ensures winner in pool && winner.bundle == Settled(multiset(pool), valid).bundle && valid(winner.bundle)
  {
    winner :| IsWinner(multiset(pool), winner) && winner.bundle == Settled(multiset(pool), valid).bundle;
    assert winner in multiset(pool);
  }

  /** A selected bundle is the candidate of an available catalog. */
  lemma SelectedIsCandidate(spec: Spec, catalogs: seq<Catalog>, valid: Bundle -> bool) returns (c: Catalog)
    requires Expected(spec, catalogs, valid).Selected?
    ensures c in catalogs && c.available && !Fails(spec, c)
    ensures Candidate(spec, c) == Some(Expected(spec, catalogs, valid).bundle)
    ensures valid(Expected(spec, catalogs, valid).bundle)
  {
    var cands := Candidates(spec, catalogs);
    var winner := SettledWinner(Pool(cands), valid);
    var cand := PoolMember(cands, winner);
    c := CandidateMember(spec, catalogs, cand);
  }
}
