/** The data of one Secret: its size, its serialization, and the name derived from it. */
module SecretData {
  import opened Objects
  import opened Ordering

  type Data = map<string, Bytes>

  /** Every key is the content hash of the value stored under it. */
  ghost predicate ContentAddressed(c: Codec, data: Data) {
    forall k :: k in data ==> k == c.contentHash(data[k])
  }

  ghost function DataSize(data: Data): nat {
    if data == map[] then 0
    else
      var k :| k in data;
      |data[k]| + DataSize(data - {k})
  }

  lemma {:induction false} DataSizeRemove(data: Data, k: string)
    requires k in data
    ensures DataSize(data) == |data[k]| + DataSize(data - {k})
    decreases |data|
  {
    var j :| j in data && DataSize(data) == |data[j]| + DataSize(data - {j});
    if j != k {
      DataSizeRemove(data - {j}, k);
      DataSizeRemove(data - {k}, j);
      assert data - {j} - {k} == data - {k} - {j};
    }
  }

  lemma DataSizeAdd(data: Data, k: string, v: Bytes)
    requires k !in data
    ensures DataSize(data[k := v]) == DataSize(data) + |v|
  {
    DataSizeRemove(data[k := v], k);
    assert data[k := v] - {k} == data;
  }

  // ---------- the byte string that is hashed into the name ----------

  ghost function LeastKey(keys: set<string>): (k: string)
    requires keys != {}
    ensures k in keys
  {
    CompareStringsIsTotalPreorder();
    Least(keys, CompareStrings)
  }

  ghost function SortedKeys(keys: set<string>): (s: seq<string>)
    ensures forall k :: k in s <==> k in keys
  {
    CompareStringsIsTotalPreorder();
    InOrder(keys, CompareStrings)
  }

  /** Keys in the given order, each followed by its value, with no separators. */
  function Concatenated(keys: seq<string>, data: Data): Bytes
    requires forall k :: k in keys ==> k in data
  {
    if keys == [] then ""
    else keys[0] + data[keys[0]] + Concatenated(keys[1..], data)
  }

  ghost function Serialized(data: Data): Bytes {
    Concatenated(SortedKeys(data.Keys), data)
  }

  lemma {:induction false} ConcatenatedSnoc(keys: seq<string>, k: string, data: Data)
    requires (forall x :: x in keys ==> x in data) && k in data
    ensures Concatenated(keys + [k], data) == Concatenated(keys, data) + k + data[k]
  {
    if keys == [] {
      assert keys + [k] == [k];
    } else {
      assert (keys + [k])[1..] == keys[1..] + [k];
      ConcatenatedSnoc(keys[1..], k, data);
    }
  }

  lemma {:induction false} ConcatenatedRestrict(keys: seq<string>, data: Data, k: string)
    requires (forall x :: x in keys ==> x in data) && k !in keys
    ensures Concatenated(keys, data) == Concatenated(keys, data - {k})
  {
    if keys != [] {
      ConcatenatedRestrict(keys[1..], data, k);
    }
  }

  lemma SerializedUnfold(data: Data)
    requires data.Keys != {}
    ensures var k := LeastKey(data.Keys);
            Serialized(data) == k + data[k] + Serialized(data - {k})
  {
    var k := LeastKey(data.Keys);
    var rest := SortedKeys(data.Keys - {k});
    assert SortedKeys(data.Keys)[0] == k && SortedKeys(data.Keys)[1..] == rest;
    assert (data - {k}).Keys == data.Keys - {k};
    ConcatenatedRestrict(rest, data, k);
  }

  /** The prefix of a concatenation with a first part of known length. */
  lemma SplitAt(a: Bytes, b: Bytes, x: Bytes, y: Bytes)
    requires a + x == b + y && |a| == |b|
    ensures a == b && x == y
  {
    assert (a + x)[..|a|] == a && (b + y)[..|b|] == b;
    assert (a + x)[|a|..] == x && (b + y)[|b|..] == y;
  }

  /**
    Two values with the same hash are the same value, so keys of known length followed by
    values of unknown length still split in only one way.
  */
  lemma SameFirstEntry(c: Codec, va: Bytes, ra: Bytes, vb: Bytes, rb: Bytes)
    requires Sound(c) && CollisionFree(c, {va, vb})
    requires c.contentHash(va) + va + ra == c.contentHash(vb) + vb + rb
    ensures va == vb && ra == rb
  {
    var k, j := c.contentHash(va), c.contentHash(vb);
    assert k + va + ra == k + (va + ra) && j + vb + rb == j + (vb + rb);
    SplitAt(k, j, va + ra, vb + rb);
    SplitAt(va, vb, ra, rb);
  }

  lemma SameLeastEntry(c: Codec, a: Data, b: Data, k: string, j: string, ra: Bytes, rb: Bytes)
    requires Sound(c) && ContentAddressed(c, a) && ContentAddressed(c, b)
    requires CollisionFree(c, a.Values + b.Values)
    requires k in a && j in b && k + a[k] + ra == j + b[j] + rb
    ensures k == j && a[k] == b[j] && ra == rb
  {
    assert a[k] in a.Values && b[j] in b.Values;
    SameFirstEntry(c, a[k], ra, b[j], rb);
  }

  lemma SerializedNonEmpty(c: Codec, a: Data)
    requires Sound(c) && ContentAddressed(c, a) && a.Keys != {}
    ensures |Serialized(a)| > 0
  {}

  lemma SerializedInjectiveStep(c: Codec, a: Data, b: Data) returns (k: string)
    requires Sound(c) && ContentAddressed(c, a) && ContentAddressed(c, b)
    requires CollisionFree(c, a.Values + b.Values)
    requires a.Keys != {} && b.Keys != {} && Serialized(a) == Serialized(b)
    ensures k in a && k in b && a[k] == b[k] && Serialized(a - {k}) == Serialized(b - {k})
  {
    SerializedUnfold(a);
    SerializedUnfold(b);
    k := LeastKey(a.Keys);
    var j := LeastKey(b.Keys);
    SameLeastEntry(c, a, b, k, j, Serialized(a - {k}), Serialized(b - {j}));
  }

  /** The serialization has no separators and is still injective on content-addressed data. */
  lemma {:induction false} SerializedInjective(c: Codec, a: Data, b: Data)
    requires Sound(c) && ContentAddressed(c, a) && ContentAddressed(c, b)
    requires CollisionFree(c, a.Values + b.Values)
    requires Serialized(a) == Serialized(b)
    ensures a == b
    decreases |a|
  {
    if a.Keys == {} {
      if b.Keys != {} { SerializedNonEmpty(c, b); }
    } else if b.Keys == {} {
      SerializedNonEmpty(c, a);
    } else {
      var k := SerializedInjectiveStep(c, a, b);
      RemoveKeepsAddressing(c, a, b, k);
      SerializedInjective(c, a - {k}, b - {k});
      RestoreEntry(a, b, k);
    }
  }

  lemma RestoreEntry(a: Data, b: Data, k: string)
    requires k in a && k in b && a[k] == b[k] && a - {k} == b - {k}
    ensures a == b
  {
    assert a == (a - {k})[k := a[k]] && b == (b - {k})[k := b[k]];
  }

  lemma RemoveKeepsAddressing(c: Codec, a: Data, b: Data, k: string)
    requires ContentAddressed(c, a) && ContentAddressed(c, b) && CollisionFree(c, a.Values + b.Values)
    ensures ContentAddressed(c, a - {k}) && ContentAddressed(c, b - {k})
    ensures CollisionFree(c, (a - {k}).Values + (b - {k}).Values)
  {}

  lemma SerializedSingle(k: string, v: Bytes)
    ensures Serialized(map[k := v]) == k + v
  {
    var one: Data := map[k := v];
    assert one.Keys == {k};
    SerializedUnfold(one);
    assert one - {k} == map[];
  }

  /** With keys that are not content hashes, different data can have the same serialization. */
  lemma SerializedAmbiguousWithoutHashes(k: string, j: string)
    requires |k| == |j| == KEY_LENGTH && CompareStrings(k, j) < 0
    ensures map[k := "", j := ""] != map[k := j]
    ensures Serialized(map[k := "", j := ""]) == Serialized(map[k := j])
  {
    CompareStringsIsTotalPreorder();
    CompareStringsAntisymmetric(k, j);
    var two: Data := map[k := "", j := ""];
    assert two.Keys == {k, j} && j !in map[k := j];
    SerializedUnfold(two);
    assert two - {k} == map[j := ""];
    SerializedSingle(j, "");
    SerializedSingle(k, j);
  }

  // ---------- the name ----------

  ghost function SecretName(c: Codec, revision: string, data: Data): string {
    revision + "-" + c.nameDigest(Serialized(data))
  }

  method CollectKeys(data: Data) returns (keys: seq<string>)
    ensures multiset(keys) == multiset(data.Keys)
  {
    keys := [];
    var left := data.Keys;
    while left != {}
      invariant left <= data.Keys
      invariant multiset(keys) + multiset(left) == multiset(data.Keys)
    {
      var k :| k in left;
      keys := keys + [k];
      left := left - {k};
    }
  }

  lemma SortedKeysUnique(keys: seq<string>, data: Data)
    requires SortedBy(CompareStrings, keys) && multiset(keys) == multiset(data.Keys)
    ensures keys == SortedKeys(data.Keys)
  {
    CompareStringsIsTotalPreorder();
    InOrderSorted(data.Keys, CompareStrings);
    InOrderPermutation(data.Keys, CompareStrings);
    forall x, y | x in keys && y in keys && CompareStrings(x, y) == 0 ensures x == y {
      CompareStringsAntisymmetric(x, y);
    }
    SortedPermutationUnique(keys, SortedKeys(data.Keys), CompareStrings);
  }

  method SortKeys(data: Data) returns (keys: seq<string>)
    ensures keys == SortedKeys(data.Keys)
  {
    var unsorted := CollectKeys(data);
    CompareStringsIsTotalPreorder();
    keys := SortFunc(unsorted, CompareStrings);
    SortedKeysUnique(keys, data);
  }

  method ConcatenateSorted(data: Data, keys: seq<string>) returns (hashed: Bytes)
    requires forall k :: k in keys ==> k in data
    ensures hashed == Concatenated(keys, data)
  {
    hashed := "";
    for i := 0 to |keys|
      invariant hashed == Concatenated(keys[..i], data)
    {
      ConcatenatedSnoc(keys[..i], keys[i], data);
      assert keys[..i] + [keys[i]] == keys[..i + 1];
      hashed := hashed + keys[i] + data[keys[i]];
    }
    assert keys[..|keys|] == keys;
  }

  /** secretNameFromData: sort the keys, then feed each key and its value into the digest. */
  method SecretNameFromData(c: Codec, revision: string, data: Data) returns (name: string)
    ensures name == SecretName(c, revision, data)
  {
    var keys := SortKeys(data);
    var hashed := ConcatenateSorted(data, keys);
    name := revision + "-" + c.nameDigest(hashed);
  }

  /** Content-addressed data whose values are all in `universe`. */
  ghost predicate Over(c: Codec, data: Data, universe: set<Bytes>) {
    ContentAddressed(c, data) && data.Values <= universe
  }

  /** No two different data maps over `universe` have the same digest of their serialization. */
  ghost predicate NamesCollisionFree(c: Codec, universe: set<Bytes>) {
    forall a: Data, b: Data ::
      Over(c, a, universe) && Over(c, b, universe) ==>
        c.nameDigest(Serialized(a)) == c.nameDigest(Serialized(b)) ==> Serialized(a) == Serialized(b)
  }

  /** A Secret name determines both the revision it belongs to and the data. */
  lemma SecretNameInjective(c: Codec, universe: set<Bytes>, r: string, a: Data, s: string, b: Data)
    requires Sound(c) && CollisionFree(c, universe) && NamesCollisionFree(c, universe)
    requires Over(c, a, universe) && Over(c, b, universe)
    requires SecretName(c, r, a) == SecretName(c, s, b)
    ensures r == s && a == b
  {
    var da, db := c.nameDigest(Serialized(a)), c.nameDigest(Serialized(b));
    assert |r + "-" + da| == |r| + 1 + DIGEST_LENGTH && |s + "-" + db| == |s| + 1 + DIGEST_LENGTH;
    SplitAt(r + "-", s + "-", da, db);
    SplitAt(r, s, "-", "-");
    SerializedInjective(c, a, b);
  }
}
