/** PhaseSort: manifests grouped into the well-known phases, each sorted by identity. */
module PhaseSort {
  import opened Ordering
  import opened ComparisonSort
  import opened Objects
  import opened PhaseTable

  const PHASE_ORDER: seq<PhaseName> :=
    [Namespaces, Policies, Identity, Configuration, Storage, Crds, Roles, Bindings,
     Infrastructure, Deploy, Scaling, Publish, Admission]

  /** Which phase the objects of a group and kind belong to; what follows holds for any assignment. */
  type Assignment = (string, string) -> PhaseName

  function PhaseOf(f: Assignment, o: Object): PhaseName { f(o.group, o.kind) }

  // ---------- the order inside a phase ----------

  function ByGroup(a: Object, b: Object): int { CompareStrings(a.group, b.group) }
  function ByVersion(a: Object, b: Object): int { CompareStrings(a.version, b.version) }
  function ByKind(a: Object, b: Object): int { CompareStrings(a.kind, b.kind) }
  function ByNamespace(a: Object, b: Object): int { CompareStrings(a.namespace, b.namespace) }
  function ByName(a: Object, b: Object): int { CompareStrings(a.name, b.name) }
  function FromNamespace(a: Object, b: Object): int { Or(ByNamespace(a, b), ByName(a, b)) }
  function FromKind(a: Object, b: Object): int { Or(ByKind(a, b), FromNamespace(a, b)) }
  function FromVersion(a: Object, b: Object): int { Or(ByVersion(a, b), FromKind(a, b)) }

  /** compareClusterObjectSetObjectApplyConfigurations. */
  function CompareObjects(a: Object, b: Object): int { Or(ByGroup(a, b), FromVersion(a, b)) }

  lemma CompareObjectsIsTotalPreorder()
    ensures TotalPreorder(CompareObjects)
  {
    CompareStringsIsTotalPreorder();
    KeyIsTotalPreorder(CompareStrings, (o: Object) => o.group, ByGroup);
    KeyIsTotalPreorder(CompareStrings, (o: Object) => o.version, ByVersion);
    KeyIsTotalPreorder(CompareStrings, (o: Object) => o.kind, ByKind);
    KeyIsTotalPreorder(CompareStrings, (o: Object) => o.namespace, ByNamespace);
    KeyIsTotalPreorder(CompareStrings, (o: Object) => o.name, ByName);
    OrIsTotalPreorder(ByNamespace, ByName, FromNamespace);
    OrIsTotalPreorder(ByKind, FromNamespace, FromKind);
    OrIsTotalPreorder(ByVersion, FromKind, FromVersion);
    OrIsTotalPreorder(ByGroup, FromVersion, CompareObjects);
  }

  /** The order said directly: by group, version, kind, namespace and name, in this order. */
  ghost predicate Precedes(a: Object, b: Object) {
    || LowerString(a.group, b.group)
    || (a.group == b.group && LowerString(a.version, b.version))
    || (a.group == b.group && a.version == b.version && LowerString(a.kind, b.kind))
    || (a.group == b.group && a.version == b.version && a.kind == b.kind && LowerString(a.namespace, b.namespace))
    || (a.group == b.group && a.version == b.version && a.kind == b.kind && a.namespace == b.namespace &&
        LowerString(a.name, b.name))
  }

  lemma PrecedesExactly(a: Object, b: Object)
    ensures CompareObjects(a, b) < 0 <==> Precedes(a, b)
  {
    CompareStringsAntisymmetric(a.group, b.group);
    CompareStringsAntisymmetric(a.version, b.version);
    CompareStringsAntisymmetric(a.kind, b.kind);
    CompareStringsAntisymmetric(a.namespace, b.namespace);
    StringsLowerExactly(a.group, b.group);
    StringsLowerExactly(a.version, b.version);
    StringsLowerExactly(a.kind, b.kind);
    StringsLowerExactly(a.namespace, b.namespace);
    StringsLowerExactly(a.name, b.name);
  }

  predicate SameIdentity(a: Object, b: Object) {
    a.group == b.group && a.version == b.version && a.kind == b.kind && a.namespace == b.namespace && a.name == b.name
  }

  lemma TiesShareIdentity(a: Object, b: Object)
    ensures CompareObjects(a, b) == 0 <==> SameIdentity(a, b)
  {
    CompareStringsAntisymmetric(a.group, b.group);
    CompareStringsAntisymmetric(a.version, b.version);
    CompareStringsAntisymmetric(a.kind, b.kind);
    CompareStringsAntisymmetric(a.namespace, b.namespace);
    CompareStringsAntisymmetric(a.name, b.name);
  }

  // ---------- specification ----------

  datatype SortedPhase = SortedPhase(name: PhaseName, objects: seq<Object>)

  function InPhase(f: Assignment, objs: seq<Object>, p: PhaseName): seq<Object> {
    if objs == [] then []
    else
      var n := |objs| - 1;
      InPhase(f, objs[..n], p) + (if PhaseOf(f, objs[n]) == p then [objs[n]] else [])
  }

  /** The objects of the phase, sorted. */
  ghost predicate Holds(f: Assignment, objs: seq<Object>, p: PhaseName, phase: SortedPhase) {
    && phase.name == p
    && SortedBy(CompareObjects, phase.objects)
    && multiset(phase.objects) == multiset(InPhase(f, objs, p))
  }

  /** One phase for every name of the order that has objects, holding them sorted. */
  ghost predicate Arranges(f: Assignment, order: seq<PhaseName>, objs: seq<Object>, phases: seq<SortedPhase>) {
    if order == [] then phases == []
    else
      var p := order[|order| - 1];
      var front := order[..|order| - 1];
      if InPhase(f, objs, p) == [] then Arranges(f, front, objs, phases)
      else
        && phases != []
        && Holds(f, objs, p, phases[|phases| - 1])
        && Arranges(f, front, objs, phases[..|phases| - 1])
  }

  // ---------- the code ----------

  ghost predicate Groups(f: Assignment, m: map<PhaseName, seq<Object>>, objs: seq<Object>) {
    forall p :: if p in m then m[p] == InPhase(f, objs, p) && m[p] != [] else InPhase(f, objs, p) == []
  }

  method GroupByPhase(f: Assignment, objs: seq<Object>) returns (m: map<PhaseName, seq<Object>>)
    ensures Groups(f, m, objs)
  {
    m := map[];
    for i := 0 to |objs|
      invariant Groups(f, m, objs[..i])
    {
      assert objs[..i + 1][..i] == objs[..i];
      var p := PhaseOf(f, objs[i]);
      m := m[p := (if p in m then m[p] else []) + [objs[i]]];
    }
    assert objs[..|objs|] == objs;
  }

  method SortObjects(objs: seq<Object>) returns (sorted: seq<Object>)
    ensures SortedBy(CompareObjects, sorted) && multiset(sorted) == multiset(objs)
  {
    CompareObjectsIsTotalPreorder();
    sorted := SortFunc(objs, CompareObjects);
  }

  lemma ArrangesNext(f: Assignment, order: seq<PhaseName>, i: nat, objs: seq<Object>,
                     phases: seq<SortedPhase>, sorted: seq<Object>)
    requires i < |order| && Arranges(f, order[..i], objs, phases)
    requires SortedBy(CompareObjects, sorted) && multiset(sorted) == multiset(InPhase(f, objs, order[i]))
    ensures InPhase(f, objs, order[i]) == [] ==> Arranges(f, order[..i + 1], objs, phases)
    ensures InPhase(f, objs, order[i]) != [] ==>
              Arranges(f, order[..i + 1], objs, phases + [SortedPhase(order[i], sorted)])
  {
    assert order[..i + 1][..i] == order[..i];
    var more := phases + [SortedPhase(order[i], sorted)];
    assert more[..|more| - 1] == phases;
  }

  method Arrange(f: Assignment, order: seq<PhaseName>, objs: seq<Object>, m: map<PhaseName, seq<Object>>)
    returns (phases: seq<SortedPhase>)
    requires Groups(f, m, objs)
    ensures Arranges(f, order, objs, phases)
  {
    phases := [];
    for i := 0 to |order|
      invariant Arranges(f, order[..i], objs, phases)
    {
      var p := order[i];
      if p in m {
        var sorted := SortObjects(m[p]);
        ArrangesNext(f, order, i, objs, phases, sorted);
        phases := phases + [SortedPhase(p, sorted)];
      } else {
        ArrangesNext(f, order, i, objs, phases, []);
      }
    }
    assert order[..|order|] == order;
  }

  /** PhaseSort. */
  method Sort(objs: seq<Object>) returns (phases: seq<SortedPhase>)
    ensures Arranges(DeterminePhase, PHASE_ORDER, objs, phases)
  {
    var m := GroupByPhase(DeterminePhase, objs);
    phases := Arrange(DeterminePhase, PHASE_ORDER, objs, m);
  }

  // ---------- what an arrangement is ----------

  /** The names of `phases` are a subsequence of the order, given by their places in it. */
  ghost predicate InOrder(order: seq<PhaseName>, phases: seq<SortedPhase>, places: seq<nat>) {
    && |places| == |phases|
    && (forall i, j :: 0 <= i < j < |places| ==> places[i] < places[j])
    && (forall i :: 0 <= i < |places| ==> places[i] < |order| && phases[i].name == order[places[i]])
  }

  ghost predicate WellFormedPhase(f: Assignment, phase: SortedPhase) {
    && phase.objects != []
    && SortedBy(CompareObjects, phase.objects)
    && forall o :: o in phase.objects ==> PhaseOf(f, o) == phase.name
  }

  lemma {:induction false} InPhaseExact(f: Assignment, objs: seq<Object>, p: PhaseName, o: Object)
    ensures o in InPhase(f, objs, p) <==> o in objs && PhaseOf(f, o) == p
    ensures multiset(InPhase(f, objs, p))[o] == if PhaseOf(f, o) == p then multiset(objs)[o] else 0
  {
    if objs != [] {
      var n := |objs| - 1;
      InPhaseExact(f, objs[..n], p, o);
      FrontAndLast(objs);
    }
  }

  lemma InOrderSnoc(order: seq<PhaseName>, n: nat, phases: seq<SortedPhase>, places: seq<nat>, phase: SortedPhase)
    requires n < |order| && InOrder(order[..n], phases, places) && phase.name == order[n]
    ensures InOrder(order, phases + [phase], places + [n])
  {}

  /** Phases come in the fixed order without repeats, none is empty, each is sorted. */
  lemma {:induction false} ArrangementInOrder(f: Assignment, order: seq<PhaseName>,
                                              objs: seq<Object>, phases: seq<SortedPhase>)
    returns (places: seq<nat>)
    requires Arranges(f, order, objs, phases)
    ensures InOrder(order, phases, places)
    ensures forall phase :: phase in phases ==> WellFormedPhase(f, phase)
  {
    if order == [] {
      places := [];
    } else {
      var n := |order| - 1;
      if InPhase(f, objs, order[n]) == [] {
        places := ArrangementInOrder(f, order[..n], objs, phases);
      } else {
        var k := |phases| - 1;
        var front := ArrangementInOrder(f, order[..n], objs, phases[..k]);
        places := front + [n];
        InOrderSnoc(order, n, phases[..k], front, phases[k]);
        LastPhaseWellFormed(f, objs, order[n], phases[k]);
        FrontAndLast(phases);
      }
    }
  }

  /** The place of a phase among the well-known ones. */
  function Rank(p: PhaseName): nat {
    match p
    case Namespaces => 0
    case Policies => 1
    case Identity => 2
    case Configuration => 3
    case Storage => 4
    case Crds => 5
    case Roles => 6
    case Bindings => 7
    case Infrastructure => 8
    case Deploy => 9
    case Scaling => 10
    case Publish => 11
    case Admission => 12
  }

  lemma OrderIsRank(i: nat)
    requires i < |PHASE_ORDER|
    ensures Rank(PHASE_ORDER[i]) == i
  {}

  /**
    What a caller sees: phases in ascending rank, none empty; in each, only objects of kinds that
    belong to it, and no object after one that it precedes.
  */
  lemma SortedAsPromised(f: Assignment, objs: seq<Object>, phases: seq<SortedPhase>)
    requires Arranges(f, PHASE_ORDER, objs, phases)
    ensures forall i, j :: 0 <= i < j < |phases| ==> Rank(phases[i].name) < Rank(phases[j].name)
    ensures forall i :: 0 <= i < |phases| ==> phases[i].objects != []
    ensures forall i, o :: 0 <= i < |phases| && o in phases[i].objects ==> f(o.group, o.kind) == phases[i].name
    ensures forall i, j, k :: 0 <= i < |phases| && 0 <= j < k < |phases[i].objects| ==>
              !Precedes(phases[i].objects[k], phases[i].objects[j])
  {
    var places := ArrangementInOrder(f, PHASE_ORDER, objs, phases);
    forall i | 0 <= i < |phases| ensures Rank(phases[i].name) == places[i] && WellFormedPhase(f, phases[i]) {
      OrderIsRank(places[i]);
      assert phases[i] in phases;
    }
    forall i, j, k | 0 <= i < |phases| && 0 <= j < k < |phases[i].objects|
      ensures !Precedes(phases[i].objects[k], phases[i].objects[j])
    {
      PhaseSortedAsPromised(f, phases[i], j, k);
    }
  }

  lemma PhaseSortedAsPromised(f: Assignment, phase: SortedPhase, j: nat, k: nat)
    requires WellFormedPhase(f, phase) && j < k < |phase.objects|
    ensures !Precedes(phase.objects[k], phase.objects[j])
  {
    CompareObjectsIsTotalPreorder();
    PrecedesExactly(phase.objects[k], phase.objects[j]);
    assert CompareObjects(phase.objects[j], phase.objects[k]) <= 0;
  }

  lemma LastPhaseWellFormed(f: Assignment, objs: seq<Object>, p: PhaseName, phase: SortedPhase)
    requires Holds(f, objs, p, phase) && InPhase(f, objs, p) != []
    ensures WellFormedPhase(f, phase)
  {
    SameMultisetSameMembers(phase.objects, InPhase(f, objs, p));
    forall o | o in phase.objects ensures PhaseOf(f, o) == p {
      InPhaseExact(f, objs, p, o);
    }
  }

  function Flatten(phases: seq<SortedPhase>): seq<Object> {
    if phases == [] then [] else Flatten(phases[..|phases| - 1]) + phases[|phases| - 1].objects
  }

  ghost predicate NoRepeats(order: seq<PhaseName>) {
    forall i, j :: 0 <= i < j < |order| ==> order[i] != order[j]
  }

  lemma {:induction false} ArrangementCounts(f: Assignment, order: seq<PhaseName>,
                                             objs: seq<Object>, phases: seq<SortedPhase>, o: Object)
    requires Arranges(f, order, objs, phases) && NoRepeats(order)
    ensures multiset(Flatten(phases))[o] == if PhaseOf(f, o) in order then multiset(objs)[o] else 0
  {
    if order != [] {
      var n := |order| - 1;
      var p := order[n];
      InPhaseExact(f, objs, p, o);
      assert order == order[..n] + [p];
      assert p !in order[..n];
      if InPhase(f, objs, p) == [] {
        ArrangementCounts(f, order[..n], objs, phases, o);
      } else {
        ArrangementCounts(f, order[..n], objs, phases[..|phases| - 1], o);
      }
    }
  }

  lemma OrderIsComplete(p: PhaseName)
    ensures p in PHASE_ORDER && NoRepeats(PHASE_ORDER)
  {}

  /** No object is lost, none is added, none is repeated. */
  lemma SortConserves(f: Assignment, objs: seq<Object>, phases: seq<SortedPhase>)
    requires Arranges(f, PHASE_ORDER, objs, phases)
    ensures multiset(Flatten(phases)) == multiset(objs)
  {
    forall o ensures multiset(Flatten(phases))[o] == multiset(objs)[o] {
      OrderIsComplete(PhaseOf(f, o));
      ArrangementCounts(f, PHASE_ORDER, objs, phases, o);
    }
  }

  // ---------- independence of the input order ----------

  /** No two different objects with the same group, version, kind, namespace and name. */
  ghost predicate DistinctIdentities(objs: seq<Object>) {
    forall a, b :: a in objs && b in objs && SameIdentity(a, b) ==> a == b
  }

  lemma InPhasePermutation(f: Assignment, a: seq<Object>, b: seq<Object>, p: PhaseName)
    requires multiset(a) == multiset(b)
    ensures multiset(InPhase(f, a, p)) == multiset(InPhase(f, b, p))
  {
    forall o ensures multiset(InPhase(f, a, p))[o] == multiset(InPhase(f, b, p))[o] {
      InPhaseExact(f, a, p, o);
      InPhaseExact(f, b, p, o);
    }
  }

  lemma SamePhase(f: Assignment, a: seq<Object>, b: seq<Object>, p: PhaseName, s: SortedPhase, t: SortedPhase)
    requires DistinctIdentities(a) && multiset(a) == multiset(b) && Holds(f, a, p, s) && Holds(f, b, p, t)
    ensures s == t
  {
    InPhasePermutation(f, a, b, p);
    CompareObjectsIsTotalPreorder();
    SameMultisetSameMembers(s.objects, InPhase(f, a, p));
    forall x, y | x in s.objects && y in s.objects && CompareObjects(x, y) == 0 ensures x == y {
      TiesShareIdentity(x, y);
      InPhaseExact(f, a, p, x);
      InPhaseExact(f, a, p, y);
    }
    SortedPermutationUnique(s.objects, t.objects, CompareObjects);
  }

  lemma SamePhasesEmpty(f: Assignment, a: seq<Object>, b: seq<Object>, p: PhaseName)
    requires multiset(a) == multiset(b)
    ensures InPhase(f, a, p) == [] <==> InPhase(f, b, p) == []
  {
    InPhasePermutation(f, a, b, p);
    SameMultisetSameMembers(InPhase(f, a, p), InPhase(f, b, p));
  }

  lemma {:induction false} ArrangementUnique(f: Assignment, order: seq<PhaseName>, a: seq<Object>, b: seq<Object>,
                                             phasesA: seq<SortedPhase>, phasesB: seq<SortedPhase>)
    requires multiset(a) == multiset(b) && DistinctIdentities(a)
    requires Arranges(f, order, a, phasesA) && Arranges(f, order, b, phasesB)
    ensures phasesA == phasesB
  {
    if order != [] {
      var n := |order| - 1;
      SamePhasesEmpty(f, a, b, order[n]);
      if InPhase(f, a, order[n]) == [] {
        ArrangementUnique(f, order[..n], a, b, phasesA, phasesB);
      } else {
        var k, m := |phasesA| - 1, |phasesB| - 1;
        ArrangementUnique(f, order[..n], a, b, phasesA[..k], phasesB[..m]);
        SamePhase(f, a, b, order[n], phasesA[k], phasesB[m]);
        FrontAndLast(phasesA);
        FrontAndLast(phasesB);
      }
    }
  }

  /** Any two orders of the same manifests give the same phases. */
  lemma SortIgnoresInputOrder(f: Assignment, a: seq<Object>, b: seq<Object>,
                              phasesA: seq<SortedPhase>, phasesB: seq<SortedPhase>)
    requires multiset(a) == multiset(b) && DistinctIdentities(a)
    requires Arranges(f, PHASE_ORDER, a, phasesA) && Arranges(f, PHASE_ORDER, b, phasesB)
    ensures phasesA == phasesB
  {
    ArrangementUnique(f, PHASE_ORDER, a, b, phasesA, phasesB);
  }

  // ---------- and when it is not ----------

  type Sorting = seq<Object> -> seq<Object>

  /** PhaseSort with the sort it is given. */
  ghost function PhasesBy(f: Assignment, sort: Sorting, order: seq<PhaseName>, objs: seq<Object>): seq<SortedPhase> {
    if order == [] then []
    else
      var p := order[|order| - 1];
      PhasesBy(f, sort, order[..|order| - 1], objs) +
      (if InPhase(f, objs, p) == [] then [] else [SortedPhase(p, sort(InPhase(f, objs, p)))])
  }

  lemma {:induction false} PhasesByArranges(f: Assignment, sort: Sorting, order: seq<PhaseName>, objs: seq<Object>)
    requires Sorts(sort, CompareObjects)
    ensures Arranges(f, order, objs, PhasesBy(f, sort, order, objs))
  {
    if order != [] {
      var front := order[..|order| - 1];
      PhasesByArranges(f, sort, front, objs);
      var phases := PhasesBy(f, sort, front, objs);
      var last := SortedPhase(order[|order| - 1], sort(InPhase(f, objs, order[|order| - 1])));
      assert (phases + [last])[..|phases|] == phases && phases + [] == phases;
    }
  }

  /** Two lists that differ only in objects of the same identity. */
  ghost predicate SameIdentities(a: seq<Object>, b: seq<Object>) {
    |a| == |b| && forall i :: 0 <= i < |a| ==> SameIdentity(a[i], b[i])
  }

  lemma {:induction false} InPhaseSameIdentities(f: Assignment, a: seq<Object>, b: seq<Object>, p: PhaseName)
    requires SameIdentities(a, b)
    ensures SameIdentities(InPhase(f, a, p), InPhase(f, b, p))
  {
    if a != [] { InPhaseSameIdentities(f, a[..|a| - 1], b[..|b| - 1], p); }
  }

  ghost function Filtered<T>(s: seq<T>, keep: T -> bool): seq<T> {
    if s == [] then []
    else Filtered(s[..|s| - 1], keep) + if keep(s[|s| - 1]) then [s[|s| - 1]] else []
  }

  lemma {:induction false} InPhaseIsFiltered(f: Assignment, objs: seq<Object>, p: PhaseName, keep: Object -> bool)
    requires forall o :: keep(o) <==> PhaseOf(f, o) == p
    ensures InPhase(f, objs, p) == Filtered(objs, keep)
  {
    if objs != [] { InPhaseIsFiltered(f, objs[..|objs| - 1], p, keep); }
  }

  /** A difference between kept elements is a difference after filtering. */
  lemma {:induction false} FilteredDiffers<T>(a: seq<T>, b: seq<T>, keep: T -> bool, i: nat)
    requires |a| == |b| && forall k :: 0 <= k < |a| ==> keep(a[k]) == keep(b[k])
    requires i < |a| && a[i] != b[i] && keep(a[i])
    ensures Filtered(a, keep) != Filtered(b, keep)
  {
    var n := |a| - 1;
    if i < n { FilteredDiffers(a[..n], b[..n], keep, i); }
    SnocsDiffer(Filtered(a[..n], keep), Filtered(b[..n], keep), a[n], b[n]);
    if !keep(a[n]) {
      assert Filtered(a, keep) == Filtered(a[..n], keep) && Filtered(b, keep) == Filtered(b[..n], keep);
    }
  }

  lemma InPhaseDiffers(f: Assignment, a: seq<Object>, b: seq<Object>, i: nat, p: PhaseName)
    requires SameIdentities(a, b) && i < |a| && a[i] != b[i] && PhaseOf(f, a[i]) == p
    ensures InPhase(f, a, p) != InPhase(f, b, p)
  {
    var keep := (o: Object) => PhaseOf(f, o) == p;
    InPhaseIsFiltered(f, a, p, keep);
    InPhaseIsFiltered(f, b, p, keep);
    FilteredDiffers(a, b, keep, i);
  }

  /** Equal phases were made from equal lists, phase by phase. */
  lemma {:induction false} PhasesByTellsApart(f: Assignment, sort: Sorting, order: seq<PhaseName>,
                                              a: seq<Object>, b: seq<Object>, p: PhaseName)
    requires SameIdentities(a, b) && p in order && InPhase(f, a, p) != []
    requires sort(InPhase(f, a, p)) != sort(InPhase(f, b, p))
    ensures PhasesBy(f, sort, order, a) != PhasesBy(f, sort, order, b)
  {
    var n := |order| - 1;
    var q := order[n];
    FrontAndLast(order);
    InPhaseSameIdentities(f, a, b, q);
    var frontA, frontB := PhasesBy(f, sort, order[..n], a), PhasesBy(f, sort, order[..n], b);
    if p != q { PhasesByTellsApart(f, sort, order[..n], a, b, p); }
    if InPhase(f, a, q) == [] {
      assert frontA + [] == frontA && frontB + [] == frontB;
    } else {
      SnocsDiffer(frontA, frontB, SortedPhase(q, sort(InPhase(f, a, q))), SortedPhase(q, sort(InPhase(f, b, q))));
    }
  }

  lemma SameIdentitiesCompareAlike(a: seq<Object>, b: seq<Object>)
    requires SameIdentities(a, b)
    ensures SameComparisons(a, b, CompareObjects)
  {}

  /** Two lists that differ only in objects of the same identity never give the same phases. */
  lemma DifferenceShows(f: Assignment, sort: Sorting, a: seq<Object>, b: seq<Object>)
    requires SeesOnlyComparisons(sort, CompareObjects) && SameIdentities(a, b) && a != b
    ensures PhasesBy(f, sort, PHASE_ORDER, a) != PhasesBy(f, sort, PHASE_ORDER, b)
  {
    var i :| 0 <= i < |a| && a[i] != b[i];
    var p := PhaseOf(f, a[i]);
    InPhaseDiffers(f, a, b, i, p);
    InPhaseSameIdentities(f, a, b, p);
    SameIdentitiesCompareAlike(InPhase(f, a, p), InPhase(f, b, p));
    DifferenceSurvives(InPhase(f, a, p), InPhase(f, b, p), sort, CompareObjects);
    InPhaseExact(f, a, p, a[i]);
    OrderIsComplete(p);
    PhasesByTellsApart(f, sort, PHASE_ORDER, a, b, p);
  }

  lemma SwapKeepsMultiset(s: seq<Object>, i: nat, j: nat)
    requires i < |s| && j < |s|
    ensures multiset(s[i := s[j]][j := s[i]]) == multiset(s)
  {}

  /** All orders of these manifests give the same phases. */
  ghost predicate InputOrderIrrelevant(f: Assignment, sort: Sorting, a: seq<Object>) {
    forall b :: multiset(b) == multiset(a) ==> PhasesBy(f, sort, PHASE_ORDER, b) == PhasesBy(f, sort, PHASE_ORDER, a)
  }

  /** The manifests in another order, with other phases. */
  lemma SwapShows(f: Assignment, sort: Sorting, a: seq<Object>, x: Object, y: Object) returns (b: seq<Object>)
    requires SeesOnlyComparisons(sort, CompareObjects)
    requires x in a && y in a && SameIdentity(x, y) && x != y
    ensures multiset(b) == multiset(a) && PhasesBy(f, sort, PHASE_ORDER, b) != PhasesBy(f, sort, PHASE_ORDER, a)
  {
    var i :| 0 <= i < |a| && a[i] == x;
    var j :| 0 <= j < |a| && a[j] == y;
    b := a[i := y][j := x];
    assert b[i] != a[i];
    SwapKeepsMultiset(a, i, j);
    DifferenceShows(f, sort, a, b);
  }

  /**
    For every sort that sees only comparisons, as sorting by a comparison function does: the
    phases are independent of the order of the manifests exactly when no two different ones
    share an identity. Two that do, when they change places, change the phases.
  */
  lemma InputOrderIrrelevantExactly(f: Assignment, sort: Sorting, a: seq<Object>)
    requires Sorts(sort, CompareObjects) && SeesOnlyComparisons(sort, CompareObjects)
    ensures InputOrderIrrelevant(f, sort, a) <==> DistinctIdentities(a)
  {
    if DistinctIdentities(a) {
      forall b | multiset(b) == multiset(a)
        ensures PhasesBy(f, sort, PHASE_ORDER, b) == PhasesBy(f, sort, PHASE_ORDER, a)
      {
        PhasesByArranges(f, sort, PHASE_ORDER, a);
        PhasesByArranges(f, sort, PHASE_ORDER, b);
        SortIgnoresInputOrder(f, a, b, PhasesBy(f, sort, PHASE_ORDER, a), PhasesBy(f, sort, PHASE_ORDER, b));
      }
    } else {
      var x, y :| x in a && y in a && SameIdentity(x, y) && x != y;
      var _ := SwapShows(f, sort, a, x, y);
    }
  }

  function StableByIdentity(objs: seq<Object>): seq<Object> { StableSort(objs, CompareObjects) }

  /** There are such sorts. */
  lemma StableByIdentityQualifies()
    ensures Sorts(StableByIdentity, CompareObjects) && SeesOnlyComparisons(StableByIdentity, CompareObjects)
  {
    CompareObjectsIsTotalPreorder();
    StableSortQualifies(StableByIdentity, CompareObjects);
  }
}
