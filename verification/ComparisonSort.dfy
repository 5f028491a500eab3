/**
  Sorts that see nothing of the elements but the results of comparing them. Whatever else such
  a sort does, it moves two lists in the same way when their comparisons come out the same.
*/
module ComparisonSort {
  import opened Ordering

  /** Every one of n places is used, by as many. */
  ghost predicate Rearranges(places: seq<nat>, n: nat) {
    && |places| == n
    && (forall k :: 0 <= k < n ==> places[k] < n)
    && (forall i :: 0 <= i < n ==> i in places)
  }

  ghost predicate Within(places: seq<nat>, n: nat) {
    forall k :: 0 <= k < |places| ==> places[k] < n
  }

  ghost function Pick<T>(s: seq<T>, places: seq<nat>): seq<T>
    requires Within(places, |s|)
  {
    seq(|places|, k requires 0 <= k < |places| => s[places[k]])
  }

  ghost predicate SameComparisons<T>(a: seq<T>, b: seq<T>, cmp: Comparator<T>) {
    && |a| == |b|
    && forall i, j :: 0 <= i < |a| && 0 <= j < |a| ==> cmp(a[i], a[j]) == cmp(b[i], b[j])
  }

  ghost predicate MovedAlike<T>(a: seq<T>, b: seq<T>, sortedA: seq<T>, sortedB: seq<T>) {
    |a| == |b| && exists places :: Rearranges(places, |a|) && sortedA == Pick(a, places) && sortedB == Pick(b, places)
  }

  ghost predicate SeesOnlyComparisons<T(!new)>(sort: seq<T> -> seq<T>, cmp: Comparator<T>) {
    forall a, b :: SameComparisons(a, b, cmp) ==> MovedAlike(a, b, sort(a), sort(b))
  }

  ghost predicate Sorts<T(!new)>(sort: seq<T> -> seq<T>, cmp: Comparator<T>) {
    forall a :: SortedBy(cmp, sort(a)) && multiset(sort(a)) == multiset(a)
  }

  /** What comparisons do not tell apart, such a sort does not make equal. */
  lemma DifferenceSurvives<T(!new)>(a: seq<T>, b: seq<T>, sort: seq<T> -> seq<T>, cmp: Comparator<T>)
    requires SeesOnlyComparisons(sort, cmp) && SameComparisons(a, b, cmp) && a != b
    ensures sort(a) != sort(b)
  {
    var places :| Rearranges(places, |a|) && sort(a) == Pick(a, places) && sort(b) == Pick(b, places);
    var i :| 0 <= i < |a| && a[i] != b[i];
    assert i in places;
    var k :| 0 <= k < |places| && places[k] == i;
    assert sort(a)[k] != sort(b)[k];
  }

  // ---------- the stable sort is such a sort ----------

  /** Where x goes. */
  ghost function InsertIndex<T>(x: T, s: seq<T>, cmp: Comparator<T>): nat {
    if s == [] || cmp(x, s[0]) <= 0 then 0 else 1 + InsertIndex(x, s[1..], cmp)
  }

  lemma {:induction false} InsertAt<T>(x: T, s: seq<T>, cmp: Comparator<T>)
    ensures var k := InsertIndex(x, s, cmp);
            k <= |s| && Insert(x, s, cmp) == s[..k] + [x] + s[k..]
  {
    if s != [] && cmp(x, s[0]) > 0 {
      InsertAt(x, s[1..], cmp);
    }
  }

  lemma {:induction false} InsertIndexAlike<T>(x: T, s: seq<T>, y: T, t: seq<T>, cmp: Comparator<T>)
    requires |s| == |t| && forall k :: 0 <= k < |s| ==> cmp(x, s[k]) == cmp(y, t[k])
    ensures InsertIndex(x, s, cmp) == InsertIndex(y, t, cmp)
  {
    if s != [] { InsertIndexAlike(x, s[1..], y, t[1..], cmp); }
  }

  lemma PickInserted<T>(a: seq<T>, places: seq<nat>, k: nat)
    requires a != [] && Within(places, |a|) && k <= |places|
    ensures Within(places[..k] + [0] + places[k..], |a|)
    ensures Pick(a, places[..k] + [0] + places[k..]) == Pick(a, places)[..k] + [a[0]] + Pick(a, places)[k..]
  {}

  /** Inserting the first element among picked ones puts it at the same place in both lists. */
  lemma InsertPlace<T>(a: seq<T>, b: seq<T>, places: seq<nat>, cmp: Comparator<T>) returns (k: nat)
    requires SameComparisons(a, b, cmp) && a != [] && Within(places, |a|)
    ensures k <= |places| && Within(places[..k] + [0] + places[k..], |a|)
    ensures Insert(a[0], Pick(a, places), cmp) == Pick(a, places[..k] + [0] + places[k..])
    ensures Insert(b[0], Pick(b, places), cmp) == Pick(b, places[..k] + [0] + places[k..])
  {
    k := InsertIndex(a[0], Pick(a, places), cmp);
    InsertIndexAlike(a[0], Pick(a, places), b[0], Pick(b, places), cmp);
    InsertAt(a[0], Pick(a, places), cmp);
    InsertAt(b[0], Pick(b, places), cmp);
    PickInserted(a, places, k);
    PickInserted(b, places, k);
  }

  ghost function Shifted(places: seq<nat>): seq<nat> {
    seq(|places|, k requires 0 <= k < |places| => places[k] + 1)
  }

  lemma ShiftedPick<T>(a: seq<T>, places: seq<nat>)
    requires a != [] && Within(places, |a| - 1)
    ensures Within(Shifted(places), |a|) && Pick(a, Shifted(places)) == Pick(a[1..], places)
  {}

  lemma InsertedRearranges(places: seq<nat>, n: nat, k: nat)
    requires Rearranges(places, n) && k <= n
    ensures Rearranges(Shifted(places)[..k] + [0] + Shifted(places)[k..], n + 1)
  {
    var shifted := Shifted(places);
    var all := shifted[..k] + [0] + shifted[k..];
    forall i | 0 <= i < n + 1 ensures i in all {
      if i == 0 {
        assert all[k] == 0;
      } else {
        assert i - 1 in places;
        var j :| 0 <= j < n && places[j] == i - 1;
        assert all[if j < k then j else j + 1] == i;
      }
    }
  }

  lemma {:induction false} StablePlaces<T>(a: seq<T>, b: seq<T>, cmp: Comparator<T>) returns (places: seq<nat>)
    requires SameComparisons(a, b, cmp)
    ensures Rearranges(places, |a|) && StableSort(a, cmp) == Pick(a, places) && StableSort(b, cmp) == Pick(b, places)
  {
    if a == [] {
      places := [];
    } else {
      var rest := StablePlaces(a[1..], b[1..], cmp);
      var shifted := Shifted(rest);
      ShiftedPick(a, rest);
      ShiftedPick(b, rest);
      var k := InsertPlace(a, b, shifted, cmp);
      places := shifted[..k] + [0] + shifted[k..];
      InsertedRearranges(rest, |a| - 1, k);
    }
  }

  lemma StableSortQualifies<T(!new)>(sort: seq<T> -> seq<T>, cmp: Comparator<T>)
    requires TotalPreorder(cmp) && forall s :: sort(s) == StableSort(s, cmp)
    ensures Sorts(sort, cmp) && SeesOnlyComparisons(sort, cmp)
  {
    forall s ensures SortedBy(cmp, sort(s)) && multiset(sort(s)) == multiset(s) {
      StableSortSorted(s, cmp);
    }
    forall a, b | SameComparisons(a, b, cmp) ensures MovedAlike(a, b, sort(a), sort(b)) {
      var _ := StablePlaces(a, b, cmp);
    }
  }
}
