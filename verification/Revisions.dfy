/** The revisions (ClusterObjectSets) of one ClusterExtension, and how they are read. */
module Revisions {
  import opened Wrappers
  import opened Objects
  import opened Ordering

  datatype Lifecycle = Active | Archived

  datatype Protection = Prevent | Unprotected

  /** The four annotations that say which bundle a revision was made from. */
  datatype Bundle = Bundle(name: string, package: string, version: string, image: string)

  /**
    A ClusterObjectSet. Its name is made from its number, so the number stands for it.
    `succeeded` is the Succeeded condition; `conditions` stands for all other conditions.
  */
  datatype Revision = Revision(
    lifecycle: Lifecycle, deleting: bool, finalizer: bool,
    succeeded: bool, conditions: int,
    migrated: bool, bundle: Bundle, protection: Protection, phases: seq<Phase>,
    resourceVersion: nat)

  type Store = map<nat, Revision>

  ghost predicate Ascending(list: seq<nat>) {
    forall i, j :: 0 <= i < j < |list| ==> list[i] < list[j]
  }

  /** The revision numbers in ascending order. */
  ghost predicate IsListing(list: seq<nat>, numbers: set<nat>) {
    Ascending(list) && forall n :: n in list <==> n in numbers
  }

  predicate IsActive(revs: Store, n: nat) {
    n in revs && revs[n].lifecycle.Active?
  }

  predicate IsInstalled(revs: Store, n: nat) {
    IsActive(revs, n) && revs[n].succeeded
  }

  predicate IsRollingOut(revs: Store, n: nat) {
    IsActive(revs, n) && !revs[n].succeeded
  }

  /** listPreviousRevisions: lower-numbered, neither archived nor deleting. */
  function Previous(revs: Store, n: nat): set<nat> {
    set r | r in revs && r < n && revs[r].lifecycle.Active? && !revs[r].deleting
  }

  // ---------- GetRevisionStates ----------

  datatype Metadata = Metadata(number: nat, bundle: Bundle)

  datatype RevisionStates = RevisionStates(installed: Option<Metadata>, rollingOut: seq<Metadata>)

  function StatesOf(revs: Store, list: seq<nat>): RevisionStates
    requires forall n :: n in list ==> n in revs
  {
    if list == [] then RevisionStates(None, [])
    else
      var n := list[|list| - 1];
      var before := StatesOf(revs, list[..|list| - 1]);
      var meta := Metadata(n, revs[n].bundle);
      if revs[n].lifecycle.Archived? then before
      else if revs[n].succeeded then before.(installed := Some(meta))
      else before.(rollingOut := before.rollingOut + [meta])
  }

  function CompareNumbers(a: nat, b: nat): int { CompareInts(a, b) }

  method CollectNumbers(revs: Store) returns (list: seq<nat>)
    ensures multiset(list) == multiset(revs.Keys)
  {
    list := [];
    var left := revs.Keys;
    while left != {}
      invariant left <= revs.Keys
      invariant multiset(list) + multiset(left) == multiset(revs.Keys)
    {
      var n :| n in left;
      list := list + [n];
      left := left - {n};
    }
  }

  lemma SortedNumbersAreListing(list: seq<nat>, numbers: set<nat>)
    requires SortedBy(CompareNumbers, list) && multiset(list) == multiset(numbers)
    ensures IsListing(list, numbers)
  {
    forall n ensures n in list <==> n in numbers {
      assert n in list <==> n in multiset(list);
    }
    forall i, j | 0 <= i < j < |list| ensures list[i] < list[j] {
      assert CompareNumbers(list[i], list[j]) <= 0;
      if list[i] == list[j] {
        RepeatedElementCount(list, i, j);
      }
    }
  }

  method ListNumbers(revs: Store) returns (list: seq<nat>)
    ensures IsListing(list, revs.Keys)
  {
    var unsorted := CollectNumbers(revs);
    list := SortFunc(unsorted, CompareNumbers);
    SortedNumbersAreListing(list, revs.Keys);
  }

  lemma ListingExists(numbers: set<nat>) returns (list: seq<nat>)
    ensures IsListing(list, numbers)
  {
    assert TotalPreorder(CompareNumbers);
    list := InOrder(numbers, CompareNumbers);
    InOrderSorted(numbers, CompareNumbers);
    InOrderPermutation(numbers, CompareNumbers);
    SortedNumbersAreListing(list, numbers);
  }

  lemma ListingFront(list: seq<nat>, numbers: set<nat>)
    requires IsListing(list, numbers) && list != []
    ensures IsListing(list[..|list| - 1], numbers - {list[|list| - 1]})
  {
    FrontAndLast(list);
  }

  lemma SameMembersSameEmptiness(a: seq<nat>, b: seq<nat>)
    requires forall n :: n in a <==> n in b
    ensures a == [] <==> b == []
  {
    if a != [] { assert a[0] in b; }
    if b != [] { assert b[0] in a; }
  }

  lemma {:induction false} ListingUnique(a: seq<nat>, b: seq<nat>, numbers: set<nat>)
    requires IsListing(a, numbers) && IsListing(b, numbers)
    ensures a == b
    decreases |a|
  {
    SameMembersSameEmptiness(a, b);
    if a != [] {
      var i, j := |a| - 1, |b| - 1;
      assert a[i] in b && b[j] in a;
      ListingFront(a, numbers);
      ListingFront(b, numbers);
      ListingUnique(a[..i], b[..j], numbers - {a[i]});
      FrontAndLast(a);
      FrontAndLast(b);
    }
  }

  /** GetRevisionStates: sort by number, then one pass. */
  method GetRevisionStates(revs: Store) returns (rs: RevisionStates)
    ensures forall list :: IsListing(list, revs.Keys) ==> rs == StatesOf(revs, list)
  {
    var numbers := ListNumbers(revs);
    rs := RevisionStates(None, []);
    for i := 0 to |numbers|
      invariant rs == StatesOf(revs, numbers[..i])
    {
      assert numbers[..i + 1][..i] == numbers[..i];
      var rev := revs[numbers[i]];
      if rev.lifecycle.Archived? {
        continue;
      }
      var meta := Metadata(numbers[i], rev.bundle);
      if rev.succeeded {
        rs := rs.(installed := Some(meta));
      } else {
        rs := rs.(rollingOut := rs.rollingOut + [meta]);
      }
    }
    assert numbers[..|numbers|] == numbers;
    forall list | IsListing(list, revs.Keys) ensures list == numbers {
      ListingUnique(list, numbers, revs.Keys);
    }
  }

  ghost predicate Describes(revs: Store, meta: Metadata) {
    meta.number in revs && meta.bundle == revs[meta.number].bundle
  }

  /** RollingOut holds exactly the active revisions that have not succeeded. */
  lemma {:induction false} RollingOutExact(revs: Store, list: seq<nat>, n: nat)
    requires forall m :: m in list ==> m in revs
    ensures var rs := StatesOf(revs, list);
            && (forall meta :: meta in rs.rollingOut ==> Describes(revs, meta) && IsRollingOut(revs, meta.number))
            && (n in list && IsRollingOut(revs, n) ==> Metadata(n, revs[n].bundle) in rs.rollingOut)
  {
    if list != [] {
      RollingOutExact(revs, list[..|list| - 1], n);
    }
  }

  /** Installed is the highest-numbered active revision that has succeeded. */
  lemma {:induction false} InstalledExact(revs: Store, list: seq<nat>)
    requires (forall m :: m in list ==> m in revs) && Ascending(list)
    ensures var installed := StatesOf(revs, list).installed;
            && (installed.Some? ==> Describes(revs, installed.value) && IsInstalled(revs, installed.value.number) &&
                                    installed.value.number in list)
            && (forall n :: n in list && IsInstalled(revs, n) ==> installed.Some? && n <= installed.value.number)
  {
    if list != [] {
      InstalledExact(revs, list[..|list| - 1]);
    }
  }

  ghost predicate NumbersFrom(metas: seq<Metadata>, list: seq<nat>) {
    && (forall i, j :: 0 <= i < j < |metas| ==> metas[i].number < metas[j].number)
    && (forall i :: 0 <= i < |metas| ==> metas[i].number in list)
  }

  lemma NumbersFromMore(metas: seq<Metadata>, list: seq<nat>, meta: Metadata)
    requires list != [] && Ascending(list) && NumbersFrom(metas, list[..|list| - 1])
    ensures NumbersFrom(metas, list)
    ensures meta.number == list[|list| - 1] ==> NumbersFrom(metas + [meta], list)
  {}

  lemma {:induction false} RollingOutNumbers(revs: Store, list: seq<nat>)
    requires (forall m :: m in list ==> m in revs) && Ascending(list)
    ensures NumbersFrom(StatesOf(revs, list).rollingOut, list)
  {
    if list != [] {
      var n := |list| - 1;
      RollingOutNumbers(revs, list[..n]);
      NumbersFromMore(StatesOf(revs, list[..n]).rollingOut, list, Metadata(list[n], revs[list[n]].bundle));
    }
  }

  /**
    What is read from the revisions: RollingOut lists, in ascending order and each once, exactly
    the active revisions that have not succeeded, with their bundles.
  */
  lemma RollingOutInOrder(revs: Store, list: seq<nat>)
    requires IsListing(list, revs.Keys)
    ensures var rolling := StatesOf(revs, list).rollingOut;
            && (forall i, j :: 0 <= i < j < |rolling| ==> rolling[i].number < rolling[j].number)
            && (forall meta :: meta in rolling <==>
                  meta.number in revs && revs[meta.number].lifecycle.Active? && !revs[meta.number].succeeded &&
                  meta.bundle == revs[meta.number].bundle)
  {
    RollingOutNumbers(revs, list);
    forall meta
      ensures meta in StatesOf(revs, list).rollingOut <==>
                meta.number in revs && revs[meta.number].lifecycle.Active? && !revs[meta.number].succeeded &&
                meta.bundle == revs[meta.number].bundle
    {
      RollingOutExact(revs, list, meta.number);
    }
  }
}
