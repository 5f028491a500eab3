/** Predicates on bundles, how they are combined, and filtering a slice in place. */
module BundleFilters {
  import opened Wrappers
  import opened Ordering
  import opened VersionRelease
  import opened Bundles

  // ---------- combinators ----------

  type Predicate = Bundle -> bool

  function And(predicates: seq<Predicate>): Predicate {
    if predicates == [] then (b: Bundle) => true
    else (b: Bundle) => predicates[0](b) && And(predicates[1..])(b)
  }

  function Or(p: Predicate, q: Predicate): Predicate {
    (b: Bundle) => p(b) || q(b)
  }

  lemma {:induction false} AndSnoc(predicates: seq<Predicate>, p: Predicate, b: Bundle)
    ensures And(predicates + [p])(b) <==> And(predicates)(b) && p(b)
  {
    if predicates == [] {
      assert predicates + [p] == [p];
      assert [p][1..] == [];
    } else {
      assert (predicates + [p])[1..] == predicates[1..] + [p];
      AndSnoc(predicates[1..], p, b);
    }
  }

  // ---------- slices.DeleteFunc ----------

  /** The elements that are not to be deleted, in order. */
  function Remaining<T>(s: seq<T>, del: T -> bool): seq<T> {
    if s == [] then []
    else
      var n := |s| - 1;
      Remaining(s[..n], del) + (if del(s[n]) then [] else [s[n]])
  }

  lemma {:induction false} NothingToDelete<T>(s: seq<T>, del: T -> bool)
    requires forall i :: 0 <= i < |s| ==> !del(s[i])
    ensures Remaining(s, del) == s
  {
    if s != [] {
      NothingToDelete(s[..|s| - 1], del);
      FrontAndLast(s);
    }
  }

  lemma {:induction false} RemainingExact<T>(s: seq<T>, del: T -> bool, x: T)
    ensures x in Remaining(s, del) <==> x in s && !del(x)
  {
    if s != [] { RemainingExact(s[..|s| - 1], del, x); }
  }

  /** The first index to delete, or the length. */
  method IndexFunc<T>(a: array<T>, del: T -> bool) returns (i: nat)
    ensures i <= a.Length
    ensures forall k :: 0 <= k < i ==> !del(a[k])
    ensures i < a.Length ==> del(a[i])
  {
    i := 0;
    while i < a.Length && !del(a[i])
      invariant i <= a.Length
      invariant forall k :: 0 <= k < i ==> !del(a[k])
    {
      i := i + 1;
    }
  }

  lemma RemainingSnoc<T>(s: seq<T>, j: nat, del: T -> bool)
    requires j < |s|
    ensures Remaining(s[..j + 1], del) == Remaining(s[..j], del) + if del(s[j]) then [] else [s[j]]
  {
    assert s[..j + 1][..j] == s[..j];
  }

  /** Moves the remaining elements to the front, from the first one to delete on. */
  method Compact<T>(a: array<T>, del: T -> bool, first: nat) returns (n: nat)
    requires first < a.Length && del(a[first]) && forall k :: 0 <= k < first ==> !del(a[k])
    modifies a
    ensures n <= a.Length && a[..n] == Remaining(old(a[..]), del)
  {
    ghost var s := a[..];
    n := first;
    NothingToDelete(s[..n], del);
    RemainingSnoc(s, n, del);
    ghost var kept := s[..n];
    for j := first + 1 to a.Length
      invariant n < j && |kept| == n
      invariant kept == Remaining(s[..j], del)
      invariant forall k :: j <= k < a.Length ==> a[k] == s[k]
      invariant forall k :: 0 <= k < n ==> a[k] == kept[k]
    {
      RemainingSnoc(s, j, del);
      if !del(a[j]) {
        a[n] := a[j];
        kept := kept + [s[j]];
        n := n + 1;
      }
    }
    assert s[..a.Length] == s;
  }

  /**
    slices.DeleteFunc: compacts the array in place and clears what is left over. Whoever still
    holds the whole array sees the remaining elements followed by zero values.
  */
  method DeleteFunc<T>(a: array<T>, del: T -> bool, zero: T) returns (n: nat)
    modifies a
    ensures n <= a.Length
    ensures a[..n] == Remaining(old(a[..]), del)
    ensures forall k :: n <= k < a.Length ==> a[k] == zero
  {
    var first := IndexFunc(a, del);
    if first == a.Length {
      NothingToDelete(a[..], del);
      assert a[..first] == a[..];
      return first;
    }
    n := Compact(a, del, first);
    ghost var kept := a[..n];
    for k := n to a.Length
      invariant a[..n] == kept
      invariant forall m :: n <= m < k ==> a[m] == zero
    {
      a[k] := zero;
    }
  }

  // ---------- predicates on bundles ----------

  /** The library's semantic-version ranges; false stands for an unparsable range too. */
  datatype Ranges = Ranges(inSkipRange: (string, Version) -> bool)

  /** An installed bundle; `version` is None when its version string cannot be parsed. */
  datatype Installed = Installed(name: string, version: Option<Version>)

  predicate InChannel(ch: Channel, name: string) {
    exists i :: 0 <= i < |ch.entries| && ch.entries[i].name == name
  }

  function InAnyChannel(channels: seq<Channel>): Predicate {
    (b: Bundle) => exists i :: 0 <= i < |channels| && InChannel(channels[i], b.name)
  }

  function InSemverRange(range: Version -> bool): Predicate {
    (b: Bundle) => GetVersionAndRelease(b).Some? && range(GetVersionAndRelease(b).value.version)
  }

  function ExactVersionRelease(wanted: VersionRelease): Predicate {
    (b: Bundle) => GetVersionAndRelease(b).Some? && Compare(wanted, GetVersionAndRelease(b).value) == 0
  }

  /** An upgrade edge from the installed bundle: replaces, skips or skip range. */
  predicate IsSuccessor(ranges: Ranges, name: string, version: Version, e: ChannelEntry) {
    || e.predecessor == name
    || name in e.skips
    || (e.skipRange != "" && ranges.inSkipRange(e.skipRange, version))
  }

  predicate HasSuccessorEdge(ranges: Ranges, name: string, version: Version, ch: Channel, candidate: string) {
    exists i :: 0 <= i < |ch.entries| && ch.entries[i].name == candidate &&
                IsSuccessor(ranges, name, version, ch.entries[i])
  }

  function LegacySuccessor(ranges: Ranges, name: string, version: Version, channels: seq<Channel>): Predicate {
    (b: Bundle) => exists i :: 0 <= i < |channels| && HasSuccessorEdge(ranges, name, version, channels[i], b.name)
  }

  /** SuccessorsOf: an error when the installed version cannot be parsed. */
  function SuccessorsOf(ranges: Ranges, installed: Installed, channels: seq<Channel>): Option<Predicate> {
    match installed.version
    case None => None
    case Some(v) =>
      Some(Or(LegacySuccessor(ranges, installed.name, v, channels), ExactVersionRelease(FromLegacy(v))))
  }
}
