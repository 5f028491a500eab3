/** What SecretPacker.Pack promises: where every object went, and how full the Secrets are. */
module SecretPackerProperties {
  import opened Wrappers
  import opened Objects
  import opened SecretData
  import opened SecretPacker

  // ---------- sizes ----------

  ghost predicate WellMade(c: Codec, p: Packer, s: Secret) {
    && s == NewSecret(c, p, s.data)
    && s.data != map[]
    && ContentAddressed(c, s.data)
    && DataSize(s.data) <= MAX_SECRET_DATA_SIZE
  }

  ghost predicate NeighboursFull(secrets: seq<Secret>) {
    forall i :: 0 < i < |secrets| ==>
      DataSize(secrets[i - 1].data) + DataSize(secrets[i].data) > MAX_SECRET_DATA_SIZE
  }

  /** What the packing loop keeps about the Secrets made so far and the one being filled. */
  ghost predicate Sized(c: Codec, p: Packer, b: Building) {
    && ContentAddressed(c, b.data)
    && b.size == DataSize(b.data) <= MAX_SECRET_DATA_SIZE
    && (forall s :: s in b.secrets ==> WellMade(c, p, s))
    && NeighboursFull(b.secrets)
    && (b.data == map[] ==> b.secrets == [] && b.pending == [])
    && (b.secrets != [] ==> DataSize(b.secrets[|b.secrets| - 1].data) + b.size > MAX_SECRET_DATA_SIZE)
  }

  lemma FinalizeSized(c: Codec, p: Packer, b: Building)
    requires Sized(c, p, b)
    ensures forall s :: s in Finalize(c, p, b).secrets ==> WellMade(c, p, s)
    ensures NeighboursFull(Finalize(c, p, b).secrets)
  {}

  /** After making room the value fits, and a Secret closed for it would have overflowed. */
  lemma RoomSized(c: Codec, p: Packer, b: Building, bytes: nat)
    requires Sized(c, p, b) && bytes <= MAX_SECRET_DATA_SIZE
    ensures var room := MakeRoom(c, p, b, bytes);
            && ContentAddressed(c, room.data) && room.size == DataSize(room.data)
            && room.size + bytes <= MAX_SECRET_DATA_SIZE
            && (forall s :: s in room.secrets ==> WellMade(c, p, s)) && NeighboursFull(room.secrets)
            && (room.secrets != [] ==>
                  DataSize(room.secrets[|room.secrets| - 1].data) + room.size + bytes > MAX_SECRET_DATA_SIZE)
            && room.data.Keys <= b.data.Keys
  {
    FinalizeSized(c, p, b);
    assert DataSize(map[]) == 0;
  }

  lemma AddValueSized(c: Codec, p: Packer, b: Building, value: Bytes)
    requires Sized(c, p, b) && |value| <= MAX_SECRET_DATA_SIZE
    ensures Sized(c, p, AddValue(c, p, b, value)) && c.contentHash(value) in AddValue(c, p, b, value).data
  {
    var key := c.contentHash(value);
    if key !in b.data {
      RoomSized(c, p, b, |value|);
      var room := MakeRoom(c, p, b, |value|);
      assert key !in room.data;
      DataSizeAdd(room.data, key, value);
      assert key in room.data[key := value];
    }
  }

  lemma {:induction false} FoldSized(c: Codec, p: Packer, es: seq<Entry>)
    requires Fold(c, p, es).Ok?
    ensures Sized(c, p, Fold(c, p, es).value)
  {
    if es == [] {
      assert DataSize(map[]) == 0;
    } else {
      var n := |es| - 1;
      FoldSized(c, p, es[..n]);
      var b := Fold(c, p, es[..n]).value;
      var value := Encode(c, es[n]).value;
      AddValueSized(c, p, b, value);
    }
  }

  ghost function TotalSize(secrets: seq<Secret>): nat {
    if secrets == [] then 0 else DataSize(secrets[0].data) + TotalSize(secrets[1..])
  }

  lemma {:induction false} PairsBoundTotal(secrets: seq<Secret>)
    requires NeighboursFull(secrets) && |secrets| >= 2
    ensures |secrets| / 2 * MAX_SECRET_DATA_SIZE < TotalSize(secrets)
    decreases |secrets|
  {
    assert TotalSize(secrets) == DataSize(secrets[0].data) + TotalSize(secrets[1..]);
    assert secrets[1..][1..] == secrets[2..] && secrets[1..][0] == secrets[1];
    if |secrets| >= 4 {
      PairsBoundTotal(secrets[2..]);
    }
  }

  /** Each Secret holds at most 900 KiB and fewer Secrets would not do by more than half. */
  lemma PackSizes(c: Codec, p: Packer, phases: seq<Phase>)
    requires Packed(c, p, phases).Ok?
    ensures var secrets := Packed(c, p, phases).value.secrets;
            && (forall s :: s in secrets ==> WellMade(c, p, s))
            && NeighboursFull(secrets)
            && (|secrets| >= 2 ==> |secrets| / 2 * MAX_SECRET_DATA_SIZE < TotalSize(secrets))
  {
    var b := Fold(c, p, Entries(phases)).value;
    FoldSized(c, p, Entries(phases));
    FinalizeSized(c, p, b);
    var secrets := Packed(c, p, phases).value.secrets;
    if |secrets| >= 2 {
      PairsBoundTotal(secrets);
    }
  }

  // ---------- where the objects went ----------

  /** The ref names a Secret of the list that stores exactly these bytes under its key. */
  ghost predicate PointsAt(c: Codec, secrets: seq<Secret>, ref: Ref, value: Bytes) {
    exists s :: s in secrets && ref == Ref(s.name, s.namespace, c.contentHash(value)) &&
                ref.key in s.data && s.data[ref.key] == value
  }

  ghost predicate Filed(c: Codec, b: Building, pos: Pos, value: Bytes) {
    pos in b.refs && PointsAt(c, b.secrets, b.refs[pos], value)
  }

  ghost predicate Waiting(c: Codec, b: Building, pos: Pos, value: Bytes) {
    && Pending(pos, c.contentHash(value)) in b.pending
    && c.contentHash(value) in b.data
    && b.data[c.contentHash(value)] == value
  }

  /** Entries that can be packed, with encodings on which the hash has no collision. */
  ghost predicate Packable(c: Codec, es: seq<Entry>, universe: set<Bytes>) {
    && CollisionFree(c, universe)
    && OneObjectPerPosition(es)
    && forall e :: e in es ==> Encode(c, e).Ok? && Encode(c, e).value in universe
  }

  ghost predicate OverUniverse(b: Building, universe: set<Bytes>) {
    && b.data.Values <= universe
    && forall s :: s in b.secrets ==> s.data.Values <= universe
  }

  ghost predicate IsPendingOf(c: Codec, b: Building, pr: Pending, e: Entry)
    requires Encode(c, e).Ok?
  {
    && pr == Pending(e.pos, c.contentHash(Encode(c, e).value))
    && pr.key in b.data && b.data[pr.key] == Encode(c, e).value
  }

  ghost predicate Placed(c: Codec, b: Building, es: seq<Entry>)
    requires forall e :: e in es ==> Encode(c, e).Ok?
  {
    && (forall e :: e in es ==> Filed(c, b, e.pos, Encode(c, e).value) || Waiting(c, b, e.pos, Encode(c, e).value))
    && (forall pr :: pr in b.pending ==> exists e :: e in es && IsPendingOf(c, b, pr, e))
    && (forall pos :: pos in b.refs ==> exists e :: e in es && e.pos == pos)
  }

  lemma {:induction false} FillRefsAt(refs: map<Pos, Ref>, pending: seq<Pending>, name: string, ns: string, pos: Pos)
    ensures var r := FillRefs(refs, pending, name, ns);
            if exists pr :: pr in pending && pr.pos == pos
            then pos in r && exists pr :: pr in pending && pr.pos == pos && r[pos] == Ref(name, ns, pr.key)
            else pos in r <==> pos in refs
    ensures var r := FillRefs(refs, pending, name, ns);
            (forall pr :: pr in pending ==> pr.pos != pos) && pos in refs ==> pos in r && r[pos] == refs[pos]
  {
    if pending != [] {
      var n := |pending| - 1;
      FillRefsAt(refs, pending[..n], name, ns, pos);
      assert pending == pending[..n] + [pending[n]];
      if pending[n].pos == pos {
        assert pending[n] in pending;
      }
    }
  }

  lemma FinalizeFiles(c: Codec, p: Packer, b: Building, es: seq<Entry>, universe: set<Bytes>, e: Entry)
    requires Packable(c, es, universe) && Placed(c, b, es) && b.data != map[] && e in es
    ensures Filed(c, Finalize(c, p, b), e.pos, Encode(c, e).value)
  {
    var value := Encode(c, e).value;
    var s := NewSecret(c, p, b.data);
    var done := Finalize(c, p, b);
    FillRefsAt(b.refs, b.pending, s.name, p.namespace, e.pos);
    if exists pr :: pr in b.pending && pr.pos == e.pos {
      var pr :| pr in b.pending && pr.pos == e.pos && done.refs[e.pos] == Ref(s.name, p.namespace, pr.key);
      var f :| f in es && IsPendingOf(c, b, pr, f);
      assert f == e;
      assert s in done.secrets;
    } else {
      assert !Waiting(c, b, e.pos, value);
      PointsAtMore(c, b.secrets, [s], b.refs[e.pos], value);
    }
  }

  lemma PointsAtMore(c: Codec, secrets: seq<Secret>, more: seq<Secret>, ref: Ref, value: Bytes)
    requires PointsAt(c, secrets, ref, value)
    ensures PointsAt(c, secrets + more, ref, value)
  {}

  lemma FinalizeRefs(c: Codec, p: Packer, b: Building, es: seq<Entry>, pos: Pos)
    requires (forall e :: e in es ==> Encode(c, e).Ok?) && Placed(c, b, es)
    requires pos in Finalize(c, p, b).refs
    ensures exists e :: e in es && e.pos == pos
  {
    if b.data != map[] {
      FillRefsAt(b.refs, b.pending, NewSecret(c, p, b.data).name, p.namespace, pos);
      if pr :| pr in b.pending && pr.pos == pos {
        var e :| e in es && IsPendingOf(c, b, pr, e);
      }
    }
  }

  lemma FinalizePlaced(c: Codec, p: Packer, b: Building, es: seq<Entry>, universe: set<Bytes>)
    requires Packable(c, es, universe) && Placed(c, b, es) && OverUniverse(b, universe)
    ensures Placed(c, Finalize(c, p, b), es) && OverUniverse(Finalize(c, p, b), universe)
  {
    var done := Finalize(c, p, b);
    if b.data != map[] {
      forall e | e in es ensures Filed(c, done, e.pos, Encode(c, e).value) {
        FinalizeFiles(c, p, b, es, universe, e);
      }
      forall pos | pos in done.refs ensures exists e :: e in es && e.pos == pos {
        FinalizeRefs(c, p, b, es, pos);
      }
    }
  }

  /** Storing one more value leaves everything already placed where it is. */
  lemma StorePlaced(c: Codec, b: Building, es: seq<Entry>, value: Bytes, b': Building)
    requires forall e :: e in es ==> Encode(c, e).Ok?
    requires Placed(c, b, es)
    requires c.contentHash(value) !in b.data
    requires b' == b.(data := b.data[c.contentHash(value) := value], size := b.size + |value|)
    ensures Placed(c, b', es)
  {
    forall pr | pr in b'.pending ensures exists e :: e in es && IsPendingOf(c, b', pr, e) {
      var e :| e in es && IsPendingOf(c, b, pr, e);
      assert IsPendingOf(c, b', pr, e);
    }
  }

  lemma AddValuePlaced(c: Codec, p: Packer, b: Building, es: seq<Entry>, universe: set<Bytes>, value: Bytes)
    requires Packable(c, es, universe) && Placed(c, b, es) && OverUniverse(b, universe)
    requires ContentAddressed(c, b.data) && value in universe
    ensures var b' := AddValue(c, p, b, value);
            && Placed(c, b', es) && OverUniverse(b', universe)
            && c.contentHash(value) in b'.data && b'.data[c.contentHash(value)] == value
  {
    var key := c.contentHash(value);
    if key in b.data {
      assert b.data[key] in b.data.Values;
    } else {
      FinalizePlaced(c, p, b, es, universe);
      var room := MakeRoom(c, p, b, |value|);
      assert key !in room.data;
      StorePlaced(c, room, es, value, AddValue(c, p, b, value));
      assert room.data[key := value].Values <= room.data.Values + {value};
    }
  }

  /** Appending the pending ref of a stored value places its entry. */
  lemma PendPlaced(c: Codec, b: Building, es: seq<Entry>, e: Entry, b': Building)
    requires (forall f :: f in es ==> Encode(c, f).Ok?) && Encode(c, e).Ok? && Placed(c, b, es)
    requires var key := c.contentHash(Encode(c, e).value);
             && key in b.data && b.data[key] == Encode(c, e).value
             && b' == b.(pending := b.pending + [Pending(e.pos, key)])
    ensures Placed(c, b', es + [e])
  {
    var all := es + [e];
    assert e in all;
    forall pr | pr in b'.pending ensures exists f :: f in all && IsPendingOf(c, b', pr, f) {
      if pr in b.pending {
        var f :| f in es && IsPendingOf(c, b, pr, f);
        assert f in all && IsPendingOf(c, b', pr, f);
      } else {
        assert IsPendingOf(c, b', pr, e);
      }
    }
    forall pos | pos in b'.refs ensures exists f :: f in all && f.pos == pos {
      var f :| f in es && f.pos == pos;
      assert f in all;
    }
  }

  lemma {:induction false} FoldPlaced(c: Codec, p: Packer, es: seq<Entry>, universe: set<Bytes>)
    requires Packable(c, es, universe) && Fold(c, p, es).Ok?
    ensures Placed(c, Fold(c, p, es).value, es) && OverUniverse(Fold(c, p, es).value, universe)
  {
    if es != [] {
      var n := |es| - 1;
      FoldPlaced(c, p, es[..n], universe);
      FoldSized(c, p, es[..n]);
      var b := Fold(c, p, es[..n]).value;
      var value := Encode(c, es[n]).value;
      AddValuePlaced(c, p, b, es[..n], universe, value);
      PendPlaced(c, AddValue(c, p, b, value), es[..n], es[n], Fold(c, p, es).value);
      assert es == es[..n] + [es[n]];
    }
  }

  lemma {:induction false} FoldOkEncodes(c: Codec, p: Packer, es: seq<Entry>)
    ensures Fold(c, p, es).Ok? <==> forall e :: e in es ==> Encode(c, e).Ok?
  {
    if es != [] {
      var n := |es| - 1;
      FoldOkEncodes(c, p, es[..n]);
      assert es == es[..n] + [es[n]];
    }
  }

  /** Every value Pack stores for these phases. */
  ghost function Encodings(c: Codec, phases: seq<Phase>): set<Bytes> {
    set e | e in Entries(phases) && Encode(c, e).Ok? :: Encode(c, e).value
  }

  /** Pack fails exactly when some inline object cannot be serialized or stays too large. */
  lemma PackFailsExactly(c: Codec, p: Packer, phases: seq<Phase>)
    ensures Packed(c, p, phases).Ok? <==>
            forall pos :: ValidPos(phases, pos) && At(phases, pos).inline.Some? ==>
              Encode(c, Entry(pos, At(phases, pos).inline.value)).Ok?
  {
    FoldOkEncodes(c, p, Entries(phases));
    forall pos | ValidPos(phases, pos) && At(phases, pos).inline.Some?
      ensures Entry(pos, At(phases, pos).inline.value) in Entries(phases)
    {
      EntriesExact(phases, Entry(pos, At(phases, pos).inline.value));
    }
    forall e | e in Entries(phases)
      ensures ValidPos(phases, e.pos) && At(phases, e.pos).inline == Some(e.manifest)
    {
      EntriesExact(phases, e);
    }
  }

  /** The refs cover exactly the inline positions, and each leads to the bytes of its object. */
  lemma PackPlaces(c: Codec, p: Packer, phases: seq<Phase>, universe: set<Bytes>)
    requires Packed(c, p, phases).Ok?
    requires CollisionFree(c, universe) && Encodings(c, phases) <= universe
    ensures var r := Packed(c, p, phases).value;
            && (forall pos :: pos in r.refs <==> ValidPos(phases, pos) && At(phases, pos).inline.Some?)
            && (forall e :: e in Entries(phases) ==>
                  Encode(c, e).Ok? && e.pos in r.refs && PointsAt(c, r.secrets, r.refs[e.pos], Encode(c, e).value))
            && (forall s :: s in r.secrets ==> s.data.Values <= universe)
  {
    var es := Entries(phases);
    FoldOkEncodes(c, p, es);
    EntriesOneObjectPerPosition(phases);
    forall e | e in es ensures Encode(c, e).value in Encodings(c, phases) {}
    var b := Fold(c, p, es).value;
    FoldPlaced(c, p, es, universe);
    FoldSized(c, p, es);
    FinalizePlaced(c, p, b, es, universe);
    var r := Packed(c, p, phases).value;
    forall pos ensures pos in r.refs <==> ValidPos(phases, pos) && At(phases, pos).inline.Some? {
      if ValidPos(phases, pos) && At(phases, pos).inline.Some? {
        EntriesExact(phases, Entry(pos, At(phases, pos).inline.value));
      }
      if pos in r.refs {
        var e :| e in es && e.pos == pos;
        EntriesExact(phases, e);
      }
    }
  }
}
