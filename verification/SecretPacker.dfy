/**
  SecretPacker: packs the inline objects of a revision's phases into immutable Secrets with
  content-addressed keys, and records for every packed position where its bytes went.
*/
module SecretPacker {
  import opened Wrappers
  import opened Objects
  import opened SecretData

  const MAX_SECRET_DATA_SIZE := 900 * 1024
  const GZIP_THRESHOLD := 900 * 1024

  datatype Packer = Packer(revision: string, owner: string, namespace: string)

  datatype Secret = Secret(name: string, namespace: string, revision: string, owner: string, data: Data)

  datatype PackError = NotSerializable(pos: Pos) | NotCompressible(pos: Pos) | TooLarge(pos: Pos)

  datatype PackResult = PackResult(secrets: seq<Secret>, refs: map<Pos, Ref>)

  // ---------- what there is to pack ----------

  /** An inline object and where it stands. */
  datatype Entry = Entry(pos: Pos, manifest: Object)

  function PhaseEntries(phase: nat, objects: seq<PhaseObject>): seq<Entry> {
    if objects == [] then []
    else
      var n := |objects| - 1;
      PhaseEntries(phase, objects[..n]) +
      (if objects[n].inline.Some? then [Entry(Pos(phase, n), objects[n].inline.value)] else [])
  }

  function Entries(phases: seq<Phase>): seq<Entry> {
    if phases == [] then []
    else
      var n := |phases| - 1;
      Entries(phases[..n]) + PhaseEntries(n, phases[n].objects)
  }

  lemma {:induction false} PhaseEntriesExact(phase: nat, objects: seq<PhaseObject>, e: Entry)
    ensures e in PhaseEntries(phase, objects) <==>
            e.pos.phase == phase && e.pos.index < |objects| && objects[e.pos.index].inline == Some(e.manifest)
  {
    if objects != [] {
      PhaseEntriesExact(phase, objects[..|objects| - 1], e);
    }
  }

  /** Exactly the inline objects, each at its own position. */
  lemma {:induction false} EntriesExact(phases: seq<Phase>, e: Entry)
    ensures e in Entries(phases) <==> ValidPos(phases, e.pos) && At(phases, e.pos).inline == Some(e.manifest)
  {
    if phases != [] {
      var n := |phases| - 1;
      EntriesExact(phases[..n], e);
      PhaseEntriesExact(n, phases[n].objects, e);
    }
  }

  ghost predicate OneObjectPerPosition(es: seq<Entry>) {
    forall e, f :: e in es && f in es && e.pos == f.pos ==> e == f
  }

  lemma EntriesOneObjectPerPosition(phases: seq<Phase>)
    ensures OneObjectPerPosition(Entries(phases))
  {
    forall e, f | e in Entries(phases) && f in Entries(phases) && e.pos == f.pos ensures e == f {
      EntriesExact(phases, e);
      EntriesExact(phases, f);
    }
  }

  // ---------- specification of the packing loop ----------

  /** The bytes stored for an object: its serialization, compressed when it is large. */
  function Encode(c: Codec, e: Entry): Result<Bytes, PackError> {
    match c.marshal(e.manifest)
    case None => Err(NotSerializable(e.pos))
    case Some(data) =>
      var stored := if |data| > GZIP_THRESHOLD then c.gzip(data) else Some(data);
      if stored.None? then Err(NotCompressible(e.pos))
      else if |stored.value| > MAX_SECRET_DATA_SIZE then Err(TooLarge(e.pos))
      else Ok(stored.value)
  }

  datatype Pending = Pending(pos: Pos, key: string)

  /** The variables of the packing loop. */
  datatype Building = Building(data: Data, size: nat, pending: seq<Pending>,
                               secrets: seq<Secret>, refs: map<Pos, Ref>)

  ghost function NewSecret(c: Codec, p: Packer, data: Data): Secret {
    Secret(SecretName(c, p.revision, data), p.namespace, p.revision, p.owner, data)
  }

  function FillRefs(refs: map<Pos, Ref>, pending: seq<Pending>, name: string, namespace: string): map<Pos, Ref> {
    if pending == [] then refs
    else
      var n := |pending| - 1;
      FillRefs(refs, pending[..n], name, namespace)[pending[n].pos := Ref(name, namespace, pending[n].key)]
  }

  ghost function Finalize(c: Codec, p: Packer, b: Building): Building {
    if b.data == map[] then b
    else
      var s := NewSecret(c, p, b.data);
      Building(map[], 0, [], b.secrets + [s], FillRefs(b.refs, b.pending, s.name, p.namespace))
  }

  /** A Secret is closed when the next value does not fit into it. */
  ghost function MakeRoom(c: Codec, p: Packer, b: Building, bytes: nat): Building {
    if b.size + bytes > MAX_SECRET_DATA_SIZE && b.data != map[] then Finalize(c, p, b) else b
  }

  ghost function AddValue(c: Codec, p: Packer, b: Building, value: Bytes): Building {
    var key := c.contentHash(value);
    if key in b.data then b
    else
      var room := MakeRoom(c, p, b, |value|);
      room.(data := room.data[key := value], size := room.size + |value|)
  }

  ghost function Add(c: Codec, p: Packer, b: Building, pos: Pos, value: Bytes): Building {
    var added := AddValue(c, p, b, value);
    added.(pending := added.pending + [Pending(pos, c.contentHash(value))])
  }

  const EMPTY := Building(map[], 0, [], [], map[])

  ghost function AddEntry(c: Codec, p: Packer, before: Result<Building, PackError>, e: Entry):
    Result<Building, PackError>
  {
    if before.Err? then before
    else if Encode(c, e).Err? then Err(Encode(c, e).error)
    else Ok(Add(c, p, before.value, e.pos, Encode(c, e).value))
  }

  ghost function Fold(c: Codec, p: Packer, es: seq<Entry>): Result<Building, PackError> {
    if es == [] then Ok(EMPTY)
    else AddEntry(c, p, Fold(c, p, es[..|es| - 1]), es[|es| - 1])
  }

  ghost function Packed(c: Codec, p: Packer, phases: seq<Phase>): Result<PackResult, PackError> {
    match Fold(c, p, Entries(phases))
    case Err(e) => Err(e)
    case Ok(b) =>
      var done := Finalize(c, p, b);
      Ok(PackResult(done.secrets, done.refs))
  }

  // ---------- the code ----------

  method FinalizeCurrent(c: Codec, p: Packer, b: Building) returns (r: Building)
    ensures r == Finalize(c, p, b)
  {
    if |b.data| == 0 {
      return b;
    }
    var name := SecretNameFromData(c, p.revision, b.data);
    var secret := Secret(name, p.namespace, p.revision, p.owner, b.data);
    var refs := b.refs;
    for i := 0 to |b.pending|
      invariant refs == FillRefs(b.refs, b.pending[..i], name, p.namespace)
    {
      refs := refs[b.pending[i].pos := Ref(name, p.namespace, b.pending[i].key)];
      assert b.pending[..i + 1][..i] == b.pending[..i];
    }
    assert b.pending[..|b.pending|] == b.pending;
    r := Building(map[], 0, [], b.secrets + [secret], refs);
  }

  method AddObject(c: Codec, p: Packer, b: Building, pos: Pos, value: Bytes) returns (r: Building)
    ensures r == Add(c, p, b, pos, value)
  {
    r := b;
    var key := c.contentHash(value);
    if key !in r.data {
      if r.size + |value| > MAX_SECRET_DATA_SIZE && |r.data| > 0 {
        r := FinalizeCurrent(c, p, r);
      }
      r := r.(data := r.data[key := value], size := r.size + |value|);
    }
    r := r.(pending := r.pending + [Pending(pos, key)]);
  }

  lemma {:induction false} FoldErrorPropagates(c: Codec, p: Packer, es: seq<Entry>, more: seq<Entry>)
    requires Fold(c, p, es).Err?
    ensures Fold(c, p, es + more) == Fold(c, p, es)
  {
    if more == [] {
      assert es + more == es;
    } else {
      var n := |more| - 1;
      FoldErrorPropagates(c, p, es, more[..n]);
      assert (es + more)[..|es + more| - 1] == es + more[..n];
    }
  }

  lemma {:induction false} EntriesPrefix(phases: seq<Phase>, i: nat)
    requires i <= |phases|
    ensures Entries(phases[..i]) <= Entries(phases)
    decreases |phases|
  {
    if i < |phases| {
      var n := |phases| - 1;
      EntriesPrefix(phases[..n], i);
      assert phases[..n][..i] == phases[..i];
    } else {
      assert phases[..i] == phases;
    }
  }

  lemma {:induction false} PhaseEntriesPrefix(phase: nat, objects: seq<PhaseObject>, j: nat)
    requires j <= |objects|
    ensures PhaseEntries(phase, objects[..j]) <= PhaseEntries(phase, objects)
    decreases |objects|
  {
    if j < |objects| {
      var n := |objects| - 1;
      PhaseEntriesPrefix(phase, objects[..n], j);
      assert objects[..n][..j] == objects[..j];
    } else {
      assert objects[..j] == objects;
    }
  }

  /** The entries the nested loops have seen when they reach object j of phase i. */
  ghost function EntriesUpTo(phases: seq<Phase>, i: nat, j: nat): seq<Entry>
    requires i < |phases| && j <= |phases[i].objects|
  {
    Entries(phases[..i]) + PhaseEntries(i, phases[i].objects[..j])
  }

  lemma EntriesUpToEnd(phases: seq<Phase>, i: nat)
    requires i < |phases|
    ensures EntriesUpTo(phases, i, 0) == Entries(phases[..i])
    ensures EntriesUpTo(phases, i, |phases[i].objects|) == Entries(phases[..i + 1])
  {
    assert phases[i].objects[..|phases[i].objects|] == phases[i].objects;
    assert phases[..i + 1][..i] == phases[..i];
  }

  /** A failure on some prefix of the entries is the result of the whole packing. */
  lemma FailureIsResult(c: Codec, p: Packer, phases: seq<Phase>, i: nat, j: nat)
    requires i < |phases| && j <= |phases[i].objects|
    requires Fold(c, p, EntriesUpTo(phases, i, j)).Err?
    ensures Packed(c, p, phases) == Err(Fold(c, p, EntriesUpTo(phases, i, j)).error)
  {
    var upTo := EntriesUpTo(phases, i, j);
    PhaseEntriesPrefix(i, phases[i].objects, j);
    EntriesUpToEnd(phases, i);
    assert phases[i].objects[..|phases[i].objects|] == phases[i].objects;
    assert upTo <= Entries(phases[..i + 1]);
    EntriesPrefix(phases, i + 1);
    var all := Entries(phases);
    assert all == upTo + all[|upTo|..];
    FoldErrorPropagates(c, p, upTo, all[|upTo|..]);
  }

  lemma FoldNext(c: Codec, p: Packer, phases: seq<Phase>, i: nat, j: nat)
    requires i < |phases| && j < |phases[i].objects|
    ensures var inline := phases[i].objects[j].inline;
            var before := Fold(c, p, EntriesUpTo(phases, i, j));
            Fold(c, p, EntriesUpTo(phases, i, j + 1)) ==
            if inline.Some? then AddEntry(c, p, before, Entry(Pos(i, j), inline.value)) else before
  {
    assert phases[i].objects[..j + 1][..j] == phases[i].objects[..j];
    var before, after := EntriesUpTo(phases, i, j), EntriesUpTo(phases, i, j + 1);
    var inline := phases[i].objects[j].inline;
    if inline.Some? {
      assert after == before + [Entry(Pos(i, j), inline.value)];
      assert after[..|after| - 1] == before;
    } else {
      assert after == before;
    }
  }

  method PackObject(c: Codec, p: Packer, b: Building, e: Entry) returns (r: Result<Building, PackError>)
    ensures r == AddEntry(c, p, Ok(b), e)
  {
    var encoded := Encode(c, e);
    if encoded.Err? {
      return Err(encoded.error);
    }
    var added := AddObject(c, p, b, e.pos, encoded.value);
    r := Ok(added);
  }

  /** One phase of the packing loop; ref-only objects are skipped. */
  method PackPhase(c: Codec, p: Packer, phases: seq<Phase>, i: nat, b: Building)
    returns (r: Result<Building, PackError>)
    requires i < |phases| && Fold(c, p, Entries(phases[..i])) == Ok(b)
    ensures r.Ok? ==> r == Fold(c, p, Entries(phases[..i + 1]))
    ensures r.Err? ==> Packed(c, p, phases) == Err(r.error)
  {
    EntriesUpToEnd(phases, i);
    r := Ok(b);
    for j := 0 to |phases[i].objects|
      invariant r.Ok? && r == Fold(c, p, EntriesUpTo(phases, i, j))
    {
      FoldNext(c, p, phases, i, j);
      var o := phases[i].objects[j];
      if o.inline.Some? {
        var e := Entry(Pos(i, j), o.inline.value);
        r := PackObject(c, p, r.value, e);
        if r.Err? {
          FailureIsResult(c, p, phases, i, j + 1);
          return;
        }
      }
    }
  }

  /** Pack. */
  method Pack(c: Codec, p: Packer, phases: seq<Phase>) returns (r: Result<PackResult, PackError>)
    ensures r == Packed(c, p, phases)
  {
    var b := EMPTY;
    for i := 0 to |phases|
      invariant Fold(c, p, Entries(phases[..i])) == Ok(b)
    {
      var phase := PackPhase(c, p, phases, i, b);
      if phase.Err? {
        return Err(phase.error);
      }
      b := phase.value;
    }
    assert phases[..|phases|] == phases;
    var done := FinalizeCurrent(c, p, b);
    r := Ok(PackResult(done.secrets, done.refs));
  }
}
