/**
  Three-way comparison in the style of Go's `cmp` package, and sorting.

  `SortFunc` is a method on purpose: callers may rely only on its contract (a sorted
  permutation), so whatever is proved about them holds for every sorting algorithm,
  stable or not. `StableSort` is a function because a stable sort has only one result.
*/
module Ordering {

  type Comparator<!T> = (T, T) -> int

  ghost predicate TotalPreorder<T(!new)>(cmp: Comparator<T>) {
    && (forall a, b :: cmp(a, b) < 0 <==> cmp(b, a) > 0)
    && (forall a, b, c :: cmp(a, b) <= 0 && cmp(b, c) <= 0 ==> cmp(a, c) <= 0)
  }

  ghost predicate SortedBy<T>(cmp: Comparator<T>, s: seq<T>) {
    forall i, j :: 0 <= i < j < |s| ==> cmp(s[i], s[j]) <= 0
  }

  /** Go's `cmp.Compare` on integers. */
  function CompareInts(a: int, b: int): int {
    if a < b then -1 else if a > b then 1 else 0
  }

  /** Go's `cmp.Compare` on strings: lexicographic by code unit, a proper prefix first. */
  function CompareStrings(a: string, b: string): int {
    if a == b then 0
    else if a == "" then -1
    else if b == "" then 1
    else if a[0] != b[0] then (if a[0] < b[0] then -1 else 1)
    else CompareStrings(a[1..], b[1..])
  }

  lemma {:induction false} CompareStringsAntisymmetric(a: string, b: string)
    ensures CompareStrings(a, b) == -CompareStrings(b, a)
    ensures CompareStrings(a, b) == 0 <==> a == b
  {
    if a != "" && b != "" && a[0] == b[0] {
      CompareStringsAntisymmetric(a[1..], b[1..]);
      assert a == [a[0]] + a[1..] && b == [b[0]] + b[1..];
    }
  }

  lemma {:induction false} CompareStringsTransitive(a: string, b: string, c: string)
    requires CompareStrings(a, b) <= 0 && CompareStrings(b, c) <= 0
    ensures CompareStrings(a, c) <= 0
  {
    if a != "" && b != "" && c != "" && a[0] == b[0] == c[0] && a != b && b != c {
      CompareStringsTransitive(a[1..], b[1..], c[1..]);
    }
  }

  lemma CompareStringsIsTotalPreorder()
    ensures TotalPreorder(CompareStrings)
  {
    forall a, b ensures CompareStrings(a, b) < 0 <==> CompareStrings(b, a) > 0 {
      CompareStringsAntisymmetric(a, b);
    }
    forall a, b, c | CompareStrings(a, b) <= 0 && CompareStrings(b, c) <= 0
      ensures CompareStrings(a, c) <= 0
    {
      CompareStringsTransitive(a, b, c);
    }
  }

  /** a and b agree before k; there a ends, or has the character of lower code. */
  ghost predicate LowerStringAt(a: string, b: string, k: int) {
    0 <= k <= |a| && k < |b| && a[..k] == b[..k] && (k < |a| ==> a[k] < b[k])
  }

  ghost predicate LowerString(a: string, b: string) {
    exists k :: LowerStringAt(a, b, k)
  }

  lemma {:induction false} LowerStringSomewhere(a: string, b: string) returns (k: int)
    requires CompareStrings(a, b) < 0
    ensures LowerStringAt(a, b, k)
  {
    if a == "" || a[0] != b[0] {
      k := 0;
    } else {
      var m := LowerStringSomewhere(a[1..], b[1..]);
      k := m + 1;
      assert a[..k] == [a[0]] + a[1..][..m] && b[..k] == [b[0]] + b[1..][..m];
    }
  }

  lemma {:induction false} LowerStringCompares(a: string, b: string, k: int)
    requires LowerStringAt(a, b, k)
    ensures CompareStrings(a, b) < 0
  {
    if k > 0 {
      assert a[0] == a[..k][0] == b[..k][0] == b[0];
      assert a[1..][..k - 1] == a[..k][1..] && b[1..][..k - 1] == b[..k][1..];
      LowerStringCompares(a[1..], b[1..], k - 1);
    }
  }

  /** Comparing strings is comparing at the first difference, where the end comes first. */
  lemma StringsLowerExactly(a: string, b: string)
    ensures CompareStrings(a, b) < 0 <==> LowerString(a, b)
  {
    if CompareStrings(a, b) < 0 {
      var k := LowerStringSomewhere(a, b);
    }
    if k :| LowerStringAt(a, b, k) {
      LowerStringCompares(a, b, k);
    }
  }

  /** Go's `cmp.Or` on two comparison results: the first that is not zero. */
  function Or(first: int, second: int): int {
    if first != 0 then first else second
  }

  /** Comparing by one criterion and breaking ties by another. */
  lemma OrIsTotalPreorder<T(!new)>(f: Comparator<T>, g: Comparator<T>, h: Comparator<T>)
    requires TotalPreorder(f) && TotalPreorder(g)
    requires forall a, b :: h(a, b) == Or(f(a, b), g(a, b))
    ensures TotalPreorder(h)
  {}

  /** Comparing by a key. */
  lemma KeyIsTotalPreorder<T(!new), K(!new)>(f: Comparator<K>, key: T -> K, h: Comparator<T>)
    requires TotalPreorder(f)
    requires forall a, b :: h(a, b) == f(key(a), key(b))
    ensures TotalPreorder(h)
  {}

  /** Puts x before the first element that is not smaller than it. */
  function Insert<T>(x: T, s: seq<T>, cmp: Comparator<T>): (r: seq<T>)
    ensures multiset(r) == multiset(s) + multiset{x}
  {
    if s == [] then [x]
    else if cmp(x, s[0]) <= 0 then [x] + s
    else
      var t := Insert(x, s[1..], cmp);
      assert s == [s[0]] + s[1..];
      [s[0]] + t
  }

  /** The result of Go's `slices.SortStableFunc`. */
  function StableSort<T>(s: seq<T>, cmp: Comparator<T>): (r: seq<T>)
    ensures multiset(r) == multiset(s)
  {
    if s == [] then []
    else
      assert s == [s[0]] + s[1..];
      Insert(s[0], StableSort(s[1..], cmp), cmp)
  }

  lemma HeadAndTail<T>(s: seq<T>)
    requires s != []
    ensures s == [s[0]] + s[1..]
  {}

  lemma SameLength<T>(a: seq<T>, b: seq<T>)
    requires multiset(a) == multiset(b)
    ensures |a| == |b|
  {
    assert |multiset(a)| == |a| && |multiset(b)| == |b|;
  }

  lemma FrontAndLast<T>(s: seq<T>)
    requires s != []
    ensures s == s[..|s| - 1] + [s[|s| - 1]]
  {}

  lemma SnocsDiffer<T>(a: seq<T>, b: seq<T>, x: T, y: T)
    requires a != b || x != y
    ensures a + [x] != b + [y]
  {
    var s, t := a + [x], b + [y];
    assert s[..|s| - 1] == a && t[..|t| - 1] == b && s[|s| - 1] == x && t[|t| - 1] == y;
  }

  lemma RepeatedElementCount<T>(s: seq<T>, i: nat, j: nat)
    requires i < j < |s| && s[i] == s[j]
    ensures multiset(s)[s[i]] >= 2
  {
    assert s == s[..i] + [s[i]] + s[i + 1..j] + [s[j]] + s[j + 1..];
  }

  lemma SameMultisetSameMembers<T>(a: seq<T>, b: seq<T>)
    requires multiset(a) == multiset(b)
    ensures |a| == |b|
    ensures forall x :: x in a <==> x in b
  {
    assert |multiset(a)| == |a| && |multiset(b)| == |b|;
    forall x ensures x in a <==> x in b {
      assert x in a <==> x in multiset(a);
      assert x in b <==> x in multiset(b);
    }
  }

  lemma {:induction false} InsertSorted<T(!new)>(x: T, s: seq<T>, cmp: Comparator<T>)
    requires TotalPreorder(cmp) && SortedBy(cmp, s)
    ensures SortedBy(cmp, Insert(x, s, cmp))
  {
    if s != [] {
      if cmp(x, s[0]) > 0 {
        TailSorted(s, cmp);
        InsertSorted(x, s[1..], cmp);
        var t := Insert(x, s[1..], cmp);
        forall y | y in t ensures cmp(s[0], y) <= 0 {
          InsertMembers(x, s[1..], cmp, y);
        }
        SortedCons(s[0], t, cmp);
      } else {
        forall y | y in s ensures cmp(x, y) <= 0 {
          assert cmp(s[0], s[0]) <= 0;
        }
        SortedCons(x, s, cmp);
      }
    }
  }

  lemma InsertMembers<T>(x: T, s: seq<T>, cmp: Comparator<T>, y: T)
    requires y in Insert(x, s, cmp)
    ensures y == x || y in s
  {}

  lemma {:induction false} StableSortSorted<T(!new)>(s: seq<T>, cmp: Comparator<T>)
    requires TotalPreorder(cmp)
    ensures SortedBy(cmp, StableSort(s, cmp))
  {
    if s != [] {
      StableSortSorted(s[1..], cmp);
      InsertSorted(s[0], StableSort(s[1..], cmp), cmp);
    }
  }

  /** Whether k is the first among the smallest elements. */
  ghost predicate IsFirstLeast<T>(s: seq<T>, cmp: Comparator<T>, k: nat) {
    && k < |s|
    && (forall i :: 0 <= i < |s| ==> cmp(s[k], s[i]) <= 0)
    && (forall i :: 0 <= i < k ==> cmp(s[k], s[i]) < 0)
  }

  lemma FirstLeastCons<T(!new)>(s: seq<T>, cmp: Comparator<T>, m: nat)
    requires TotalPreorder(cmp) && s != [] && IsFirstLeast(s[1..], cmp, m)
    ensures IsFirstLeast(s, cmp, if cmp(s[0], s[m + 1]) <= 0 then 0 else m + 1)
  {}

  /** The head of a stably sorted list is the first among the smallest elements. */
  lemma {:induction false} StableSortHead<T(!new)>(s: seq<T>, cmp: Comparator<T>) returns (k: nat)
    requires TotalPreorder(cmp) && s != []
    ensures IsFirstLeast(s, cmp, k) && StableSort(s, cmp)[0] == s[k]
  {
    if s[1..] == [] {
      k := 0;
      assert cmp(s[0], s[0]) <= 0;
    } else {
      var m := StableSortHead(s[1..], cmp);
      FirstLeastCons(s, cmp, m);
      k := if cmp(s[0], s[m + 1]) <= 0 then 0 else m + 1;
    }
  }

  /** Go's `slices.SortFunc`: some sorted permutation. */
  method SortFunc<T(!new)>(s: seq<T>, cmp: Comparator<T>) returns (r: seq<T>)
    requires TotalPreorder(cmp)
    ensures SortedBy(cmp, r) && multiset(r) == multiset(s)
  {
    StableSortSorted(s, cmp);
    r := StableSort(s, cmp);
  }

  lemma SortedHeadsEquivalent<T(!new)>(a: seq<T>, b: seq<T>, cmp: Comparator<T>)
    requires TotalPreorder(cmp)
    requires SortedBy(cmp, a) && a != [] && b != [] && b[0] in a
    ensures cmp(a[0], b[0]) <= 0
  {}

  lemma TailsSameMultiset<T>(a: seq<T>, b: seq<T>)
    requires multiset(a) == multiset(b) && a != [] && b != [] && a[0] == b[0]
    ensures multiset(a[1..]) == multiset(b[1..])
  {
    assert a == [a[0]] + a[1..] && b == [b[0]] + b[1..];
    assert multiset(a[1..]) == multiset(a) - multiset{a[0]};
    assert multiset(b[1..]) == multiset(b) - multiset{b[0]};
  }

  lemma TailSorted<T>(a: seq<T>, cmp: Comparator<T>)
    requires a != [] && SortedBy(cmp, a)
    ensures SortedBy(cmp, a[1..])
  {}

  ghost predicate NoTies<T>(a: seq<T>, cmp: Comparator<T>) {
    forall x, y :: x in a && y in a && cmp(x, y) == 0 ==> x == y
  }

  lemma SortedHeadsEqual<T(!new)>(a: seq<T>, b: seq<T>, cmp: Comparator<T>)
    requires TotalPreorder(cmp) && SortedBy(cmp, a) && SortedBy(cmp, b) && NoTies(a, cmp)
    requires a != [] && b != [] && multiset(a) == multiset(b)
    ensures a[0] == b[0]
  {
    SameMultisetSameMembers(a, b);
    assert a[0] in a && b[0] in b;
    SortedHeadsEquivalent(a, b, cmp);
    SortedHeadsEquivalent(b, a, cmp);
  }

  /** Without ties there is only one sorted permutation. */
  lemma {:induction false} SortedPermutationUnique<T(!new)>(a: seq<T>, b: seq<T>, cmp: Comparator<T>)
    requires TotalPreorder(cmp) && SortedBy(cmp, a) && SortedBy(cmp, b) && NoTies(a, cmp)
    requires multiset(a) == multiset(b)
    ensures a == b
  {
    SameLength(a, b);
    if a != [] {
      SortedHeadsEqual(a, b, cmp);
      TailsSameMultiset(a, b);
      TailSorted(a, cmp);
      TailSorted(b, cmp);
      SortedPermutationUnique(a[1..], b[1..], cmp);
      HeadAndTail(a);
      HeadAndTail(b);
    }
  }

  // ---------- listing a finite set in order ----------

  ghost predicate IsLeast<T>(s: set<T>, cmp: Comparator<T>, k: T) {
    k in s && forall o :: o in s ==> cmp(k, o) <= 0
  }

  lemma {:induction false} LeastExists<T(!new)>(s: set<T>, cmp: Comparator<T>) returns (k: T)
    requires TotalPreorder(cmp) && s != {}
    ensures IsLeast(s, cmp, k)
    decreases |s|
  {
    var x :| x in s;
    assert cmp(x, x) <= 0;
    var rest := s - {x};
    if rest == {} {
      k := x;
      assert s == {x};
    } else {
      var m := LeastExists(rest, cmp);
      k := if cmp(m, x) <= 0 then m else x;
    }
  }

  ghost function Least<T(!new)>(s: set<T>, cmp: Comparator<T>): (k: T)
    requires TotalPreorder(cmp) && s != {}
    ensures IsLeast(s, cmp, k)
  {
    assert exists k :: IsLeast(s, cmp, k) by { var _ := LeastExists(s, cmp); }
    var k :| IsLeast(s, cmp, k);
    k
  }

  ghost function InOrder<T(!new)>(s: set<T>, cmp: Comparator<T>): (r: seq<T>)
    requires TotalPreorder(cmp)
    ensures forall k :: k in r <==> k in s
  {
    if s == {} then []
    else
      var k := Least(s, cmp);
      [k] + InOrder(s - {k}, cmp)
  }

  lemma {:induction false} InOrderSorted<T(!new)>(s: set<T>, cmp: Comparator<T>)
    requires TotalPreorder(cmp)
    ensures SortedBy(cmp, InOrder(s, cmp))
  {
    if s != {} {
      var k := Least(s, cmp);
      var rest := InOrder(s - {k}, cmp);
      InOrderSorted(s - {k}, cmp);
      SortedCons(k, rest, cmp);
    }
  }

  lemma SortedCons<T>(k: T, rest: seq<T>, cmp: Comparator<T>)
    requires SortedBy(cmp, rest) && forall o :: o in rest ==> cmp(k, o) <= 0
    ensures SortedBy(cmp, [k] + rest)
  {}

  lemma {:induction false} InOrderPermutation<T(!new)>(s: set<T>, cmp: Comparator<T>)
    requires TotalPreorder(cmp)
    ensures multiset(InOrder(s, cmp)) == multiset(s)
  {
    if s != {} {
      var k := Least(s, cmp);
      InOrderPermutation(s - {k}, cmp);
      assert multiset(s) == multiset(s - {k}) + multiset{k};
    }
  }

  lemma {:induction false} SubsetSize<T>(a: set<T>, b: set<T>)
    requires a <= b
    ensures |a| <= |b|
  {
    if a != {} {
      var x :| x in a;
      SubsetSize(a - {x}, b - {x});
    }
  }
}
