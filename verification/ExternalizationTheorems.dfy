/**
  What externalization promises, said with the sizes and fields that users see; and when two
  rendered revisions end up with the same refs, which is how a change of content is noticed.
*/
module ExternalizationTheorems {
  import opened Wrappers
  import opened Objects
  import opened SecretData
  import opened SecretPacker
  import opened SecretPackerProperties
  import opened Externalization

  // ---------- how objects are stored ----------

  /** The bytes stored for an object: its serialization, compressed above 900 KiB. */
  ghost predicate StoredAs(c: Codec, o: Object, value: Bytes) {
    && c.marshal(o).Some?
    && (if |c.marshal(o).value| > 921600 then c.gzip(c.marshal(o).value) == Some(value)
        else value == c.marshal(o).value)
    && |value| <= 921600
  }

  ghost predicate HasBytes(c: Codec, o: Object) { exists value :: StoredAs(c, o, value) }

  lemma EncodesExactly(c: Codec, e: Entry, value: Bytes)
    ensures Encode(c, e) == Ok(value) <==> StoredAs(c, e.manifest, value)
  {}

  /** Packing succeeds exactly when every inline object has bytes to store. */
  lemma PacksExactly(c: Codec, p: Packer, phases: seq<Phase>)
    ensures Packed(c, p, phases).Ok? <==>
            forall pos :: ValidPos(phases, pos) && At(phases, pos).inline.Some? ==>
              HasBytes(c, At(phases, pos).inline.value)
  {
    PackFailsExactly(c, p, phases);
    forall pos | ValidPos(phases, pos) && At(phases, pos).inline.Some?
      ensures Encode(c, Entry(pos, At(phases, pos).inline.value)).Ok? <==>
              HasBytes(c, At(phases, pos).inline.value)
    {
      var e := Entry(pos, At(phases, pos).inline.value);
      if Encode(c, e).Ok? { EncodesExactly(c, e, Encode(c, e).value); }
      if value :| StoredAs(c, e.manifest, value) { EncodesExactly(c, e, value); }
    }
  }

  /** Why an object has no bytes to store. */
  ghost predicate FailsWith(c: Codec, pos: Pos, o: Object, error: PackError) {
    match c.marshal(o)
    case None => error == NotSerializable(pos)
    case Some(data) =>
      if |data| <= 921600 then false
      else if c.gzip(data).None? then error == NotCompressible(pos)
      else |c.gzip(data).value| > 921600 && error == TooLarge(pos)
  }

  lemma {:induction false} FoldFailsFirst(c: Codec, p: Packer, es: seq<Entry>) returns (k: nat)
    requires Fold(c, p, es).Err?
    ensures k < |es| && FailsWith(c, es[k].pos, es[k].manifest, Fold(c, p, es).error)
    ensures forall i :: 0 <= i < k ==> Encode(c, es[i]).Ok?
  {
    var n := |es| - 1;
    if Fold(c, p, es[..n]).Err? {
      k := FoldFailsFirst(c, p, es[..n]);
    } else {
      k := n;
      FoldOkEncodes(c, p, es[..n]);
      forall i | 0 <= i < k ensures Encode(c, es[i]).Ok? { assert es[..n][i] == es[i]; }
    }
  }

  /** A failure is that of the first object, in order, that has no bytes to store. */
  lemma PackFailsFirst(c: Codec, p: Packer, phases: seq<Phase>) returns (k: nat)
    requires Packed(c, p, phases).Err?
    ensures var es := Entries(phases);
            && k < |es| && FailsWith(c, es[k].pos, es[k].manifest, Packed(c, p, phases).error)
            && forall i :: 0 <= i < k ==> HasBytes(c, es[i].manifest)
  {
    var es := Entries(phases);
    k := FoldFailsFirst(c, p, es);
    forall i | 0 <= i < k ensures HasBytes(c, es[i].manifest) {
      EncodesExactly(c, es[i], Encode(c, es[i]).value);
    }
  }

  /** A Secret as the cluster sees it: its name, namespace and labels, and at most 900 KiB of data. */
  ghost predicate SecretFor(c: Codec, p: Packer, s: Secret) {
    && s.namespace == p.namespace && s.revision == p.revision && s.owner == p.owner
    && s.name == p.revision + "-" + c.nameDigest(Serialized(s.data))
    && s.data != map[] && DataSize(s.data) <= 921600
    && forall k :: k in s.data ==> k == c.contentHash(s.data[k])
  }

  /** The ref names the Secret, its namespace, and the key under which it holds the bytes. */
  ghost predicate RefTo(c: Codec, p: Packer, s: Secret, ref: Ref, value: Bytes) {
    && ref.name == s.name && ref.namespace == p.namespace && ref.key == c.contentHash(value)
    && ref.key in s.data && s.data[ref.key] == value
  }

  /** Some Secret of the list holds the bytes of the object, where the ref says. */
  ghost predicate Placed(c: Codec, p: Packer, secrets: seq<Secret>, ref: Ref, o: Object) {
    exists s, value :: s in secrets && StoredAs(c, o, value) && RefTo(c, p, s, ref, value)
  }

  /** The bytes are those of some inline object. */
  ghost predicate FromObject(c: Codec, phases: seq<Phase>, value: Bytes) {
    exists pos :: ValidPos(phases, pos) && At(phases, pos).inline.Some?
      && StoredAs(c, At(phases, pos).inline.value, value)
  }

  lemma SecretsAreFor(c: Codec, p: Packer, phases: seq<Phase>, s: Secret)
    requires Packed(c, p, phases).Ok? && s in Packed(c, p, phases).value.secrets
    ensures SecretFor(c, p, s)
  {
    PackSizes(c, p, phases);
    assert WellMade(c, p, s);
  }

  lemma ObjectIsPlaced(c: Codec, p: Packer, phases: seq<Phase>, pos: Pos)
    requires CollisionFree(c, Encodings(c, phases)) && Packed(c, p, phases).Ok?
    requires ValidPos(phases, pos) && At(phases, pos).inline.Some?
    ensures var r := Packed(c, p, phases).value;
            pos in r.refs && Placed(c, p, r.secrets, r.refs[pos], At(phases, pos).inline.value)
  {
    var r := Packed(c, p, phases).value;
    PackPlaces(c, p, phases, Encodings(c, phases));
    var e := Entry(pos, At(phases, pos).inline.value);
    EntriesExact(phases, e);
    var value := Encode(c, e).value;
    EncodesExactly(c, e, value);
    assert PointsAt(c, r.secrets, r.refs[pos], value);
    var s :| s in r.secrets && r.refs[pos] == Ref(s.name, s.namespace, c.contentHash(value)) &&
             r.refs[pos].key in s.data && s.data[r.refs[pos].key] == value;
    SecretsAreFor(c, p, phases, s);
    assert RefTo(c, p, s, r.refs[pos], value);
  }

  lemma ValueIsFromObject(c: Codec, p: Packer, phases: seq<Phase>, s: Secret, k: string)
    requires CollisionFree(c, Encodings(c, phases)) && Packed(c, p, phases).Ok?
    requires s in Packed(c, p, phases).value.secrets && k in s.data
    ensures FromObject(c, phases, s.data[k])
  {
    PackPlaces(c, p, phases, Encodings(c, phases));
    assert s.data[k] in s.data.Values;
    var e :| e in Entries(phases) && Encode(c, e).Ok? && Encode(c, e).value == s.data[k];
    EntriesExact(phases, e);
    EncodesExactly(c, e, s.data[k]);
  }

  /**
    All that packing stores: Secrets with the packer's name, namespace and labels and at most
    900 KiB each; a ref for exactly the inline positions, to the bytes of the object there; and
    nothing besides.
  */
  lemma PackStores(c: Codec, p: Packer, phases: seq<Phase>)
    requires CollisionFree(c, Encodings(c, phases)) && Packed(c, p, phases).Ok?
    ensures var r := Packed(c, p, phases).value;
            && (forall s :: s in r.secrets ==> SecretFor(c, p, s))
            && (forall s, k :: s in r.secrets && k in s.data ==> FromObject(c, phases, s.data[k]))
            && (forall pos :: pos in r.refs <==> ValidPos(phases, pos) && At(phases, pos).inline.Some?)
            && (forall pos :: pos in r.refs ==> Placed(c, p, r.secrets, r.refs[pos], At(phases, pos).inline.value))
  {
    var r := Packed(c, p, phases).value;
    PackPlaces(c, p, phases, Encodings(c, phases));
    forall s | s in r.secrets ensures SecretFor(c, p, s) { SecretsAreFor(c, p, phases, s); }
    forall s, k | s in r.secrets && k in s.data ensures FromObject(c, phases, s.data[k]) {
      ValueIsFromObject(c, p, phases, s, k);
    }
    forall pos | pos in r.refs ensures Placed(c, p, r.secrets, r.refs[pos], At(phases, pos).inline.value) {
      ObjectIsPlaced(c, p, phases, pos);
    }
  }

  // ---------- how refs are resolved ----------

  /** Resolving fails exactly for a missing Secret, a missing key, broken compression, or above 10 MiB. */
  lemma ResolvesExactly(c: Codec, store: SecretStore, ref: Ref, bytes: Bytes)
    ensures var key := SecretKey(ref.namespace, ref.name);
            ResolveObjectRef(c, store, ref) == Ok(bytes) <==>
            && key in store && ref.key in store[key]
            && var data := store[key][ref.key];
               if |data| >= 2 && data[0] == 0x1f as char && data[1] == 0x8b as char
               then c.gunzip(data) == Some(bytes) && |bytes| <= 10485760
               else bytes == data
  {}

  // ---------- when two revisions get the same refs ----------

  /** The same objects at the same places, as far as their serializations tell. */
  ghost predicate SameAt(c: Codec, a: PhaseObject, b: PhaseObject) {
    && (a.inline.Some? <==> b.inline.Some?)
    && (a.inline.Some? ==> c.marshal(a.inline.value) == c.marshal(b.inline.value))
  }

  ghost predicate SamePhaseRendering(c: Codec, a: Phase, b: Phase) {
    && a.name == b.name && |a.objects| == |b.objects|
    && forall j :: 0 <= j < |a.objects| ==> SameAt(c, a.objects[j], b.objects[j])
  }

  ghost predicate SameRendering(c: Codec, a: seq<Phase>, b: seq<Phase>) {
    |a| == |b| && forall i :: 0 <= i < |a| ==> SamePhaseRendering(c, a[i], b[i])
  }

  ghost predicate Alike(c: Codec, a: seq<Entry>, b: seq<Entry>) {
    |a| == |b| && forall k :: 0 <= k < |a| ==>
      a[k].pos == b[k].pos && c.marshal(a[k].manifest) == c.marshal(b[k].manifest)
  }

  lemma AlikeSnoc(c: Codec, a: seq<Entry>, b: seq<Entry>, x: seq<Entry>, y: seq<Entry>)
    requires Alike(c, a, b) && Alike(c, x, y)
    ensures Alike(c, a + x, b + y)
  {}

  lemma {:induction false} PhaseEntriesAlike(c: Codec, phase: nat, a: seq<PhaseObject>, b: seq<PhaseObject>)
    requires |a| == |b| && forall j :: 0 <= j < |a| ==> SameAt(c, a[j], b[j])
    ensures Alike(c, PhaseEntries(phase, a), PhaseEntries(phase, b))
  {
    if a != [] {
      PhaseEntriesAlike(c, phase, a[..|a| - 1], b[..|b| - 1]);
    }
  }

  lemma {:induction false} EntriesAlike(c: Codec, a: seq<Phase>, b: seq<Phase>)
    requires SameRendering(c, a, b)
    ensures Alike(c, Entries(a), Entries(b))
  {
    if a != [] {
      var n := |a| - 1;
      EntriesAlike(c, a[..n], b[..n]);
      assert SamePhaseRendering(c, a[n], b[n]);
      PhaseEntriesAlike(c, n, a[n].objects, b[n].objects);
      AlikeSnoc(c, Entries(a[..n]), Entries(b[..n]), PhaseEntries(n, a[n].objects), PhaseEntries(n, b[n].objects));
    }
  }

  lemma {:induction false} FoldAlike(c: Codec, p: Packer, a: seq<Entry>, b: seq<Entry>)
    requires Alike(c, a, b)
    ensures Fold(c, p, a) == Fold(c, p, b)
  {
    if a != [] {
      FoldAlike(c, p, a[..|a| - 1], b[..|b| - 1]);
      assert a[|a| - 1].pos == b[|b| - 1].pos;
    }
  }

  lemma EncodingTells(c: Codec, e: Entry, f: Entry)
    requires Sound(c) && Encode(c, e).Ok? && Encode(c, f).Ok? && Encode(c, e).value == Encode(c, f).value
    ensures c.marshal(e.manifest) == c.marshal(f.manifest)
  {}

  /** The bytes behind a ref are known by its key. */
  lemma RefTells(c: Codec, p: Packer, phases: seq<Phase>, universe: set<Bytes>, pos: Pos)
    requires CollisionFree(c, universe) && Encodings(c, phases) <= universe && Packed(c, p, phases).Ok?
    requires ValidPos(phases, pos) && At(phases, pos).inline.Some?
    ensures var e := Entry(pos, At(phases, pos).inline.value);
            var refs := Packed(c, p, phases).value.refs;
            && Encode(c, e).Ok? && Encode(c, e).value in universe
            && pos in refs && refs[pos].key == c.contentHash(Encode(c, e).value)
  {
    PackPlaces(c, p, phases, universe);
    var e := Entry(pos, At(phases, pos).inline.value);
    EntriesExact(phases, e);
    assert Encode(c, e).value in Encodings(c, phases);
  }

  lemma SameRefsSameObject(c: Codec, p: Packer, a: seq<Phase>, b: seq<Phase>, universe: set<Bytes>, pos: Pos)
    requires Sound(c) && CollisionFree(c, universe) && Encodings(c, a) <= universe && Encodings(c, b) <= universe
    requires NoRefs(a) && NoRefs(b) && Packed(c, p, a).Ok? && Packed(c, p, b).Ok?
    requires Replaced(a, Packed(c, p, a).value.refs) == Replaced(b, Packed(c, p, b).value.refs)
    requires ValidPos(a, pos)
    ensures ValidPos(b, pos) && SameAt(c, At(a, pos), At(b, pos))
  {
    var refsA, refsB := Packed(c, p, a).value.refs, Packed(c, p, b).value.refs;
    ReplacedAt(a, refsA, pos);
    ReplacedAt(b, refsB, pos);
    PackPlaces(c, p, a, universe);
    PackPlaces(c, p, b, universe);
    if At(a, pos).inline.Some? {
      RefTells(c, p, a, universe, pos);
      RefTells(c, p, b, universe, pos);
      EncodingTells(c, Entry(pos, At(a, pos).inline.value), Entry(pos, At(b, pos).inline.value));
    }
  }

  lemma SameRefsSameRendering(c: Codec, p: Packer, a: seq<Phase>, b: seq<Phase>, universe: set<Bytes>)
    requires Sound(c) && CollisionFree(c, universe) && Encodings(c, a) <= universe && Encodings(c, b) <= universe
    requires NoRefs(a) && NoRefs(b) && Packed(c, p, a).Ok? && Packed(c, p, b).Ok?
    requires Replaced(a, Packed(c, p, a).value.refs) == Replaced(b, Packed(c, p, b).value.refs)
    ensures SameRendering(c, a, b)
  {
    var refsA, refsB := Packed(c, p, a).value.refs, Packed(c, p, b).value.refs;
    ReplacedShape(a, refsA);
    ReplacedShape(b, refsB);
    forall i | 0 <= i < |a| ensures SamePhaseRendering(c, a[i], b[i]) {
      assert Replaced(a, refsA)[i] == Replaced(b, refsB)[i];
      assert a[i].name == b[i].name && |a[i].objects| == |b[i].objects|;
      forall j | 0 <= j < |a[i].objects| ensures SameAt(c, a[i].objects[j], b[i].objects[j]) {
        SameRefsSameObject(c, p, a, b, universe, Pos(i, j));
      }
    }
  }

  lemma ReplacedShape(phases: seq<Phase>, refs: map<Pos, Ref>)
    ensures |Replaced(phases, refs)| == |phases|
    ensures forall i :: 0 <= i < |phases| ==>
              Replaced(phases, refs)[i].name == phases[i].name &&
              |Replaced(phases, refs)[i].objects| == |phases[i].objects|
  {}

  lemma SameRenderingSameRefs(c: Codec, p: Packer, a: seq<Phase>, b: seq<Phase>)
    requires SameRendering(c, a, b) && NoRefs(a) && NoRefs(b) && Packed(c, p, a).Ok?
    requires forall pos :: pos in Packed(c, p, a).value.refs <==> ValidPos(a, pos) && At(a, pos).inline.Some?
    ensures Packed(c, p, b) == Packed(c, p, a)
    ensures Replaced(a, Packed(c, p, a).value.refs) == Replaced(b, Packed(c, p, a).value.refs)
  {
    EntriesAlike(c, a, b);
    FoldAlike(c, p, Entries(a), Entries(b));
    var refs := Packed(c, p, a).value.refs;
    forall i | 0 <= i < |a| ensures ReplacedPhase(a[i], i, refs) == ReplacedPhase(b[i], i, refs) {
      assert SamePhaseRendering(c, a[i], b[i]);
      forall j | 0 <= j < |a[i].objects|
        ensures ReplacedObject(a[i].objects[j], Pos(i, j), refs) == ReplacedObject(b[i].objects[j], Pos(i, j), refs)
      {
        assert ValidPos(a, Pos(i, j)) && ValidPos(b, Pos(i, j));
        assert At(a, Pos(i, j)).ref.None? && At(b, Pos(i, j)).ref.None?;
        assert SameAt(c, a[i].objects[j], b[i].objects[j]);
      }
    }
  }

  /**
    Two renderings, packed under the same revision name, get the same phases of refs exactly when
    they have the same phases, with objects of the same serialization at the same places.
  */
  lemma SameRefsExactly(c: Codec, p: Packer, a: seq<Phase>, b: seq<Phase>, universe: set<Bytes>)
    requires Sound(c) && CollisionFree(c, universe) && Encodings(c, a) <= universe && Encodings(c, b) <= universe
    requires NoRefs(a) && NoRefs(b) && Packed(c, p, a).Ok? && Packed(c, p, b).Ok?
    ensures Replaced(a, Packed(c, p, a).value.refs) == Replaced(b, Packed(c, p, b).value.refs) <==>
            SameRendering(c, a, b)
  {
    if Replaced(a, Packed(c, p, a).value.refs) == Replaced(b, Packed(c, p, b).value.refs) {
      SameRefsSameRendering(c, p, a, b, universe);
    }
    if SameRendering(c, a, b) {
      PackPlaces(c, p, a, universe);
      SameRenderingSameRefs(c, p, a, b);
    }
  }
}
