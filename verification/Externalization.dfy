/**
  Replacing the inline objects of a revision by refs, putting them back, and resolving a ref
  in the controller that reconciles the revision.
*/
module Externalization {
  import opened Wrappers
  import opened Objects
  import opened SecretData
  import opened SecretPacker
  import opened SecretPackerProperties

  // ---------- resolving a ref ----------

  const MAX_DECOMPRESSED_SIZE := 10 * 1024 * 1024

  datatype SecretKey = SecretKey(namespace: string, name: string)

  type SecretStore = map<SecretKey, Data>

  datatype ResolveError = SecretNotFound | KeyNotFound | NotGzip | DecompressedTooLarge

  /** resolveObjectRef, up to the bytes that are handed to the JSON decoder. */
  function ResolveObjectRef(c: Codec, store: SecretStore, ref: Ref): Result<Bytes, ResolveError> {
    var key := SecretKey(ref.namespace, ref.name);
    if key !in store then Err(SecretNotFound)
    else if ref.key !in store[key] then Err(KeyNotFound)
    else
      var data := store[key][ref.key];
      if HasGzipMagic(data) then
        match c.gunzip(data)
        case None => Err(NotGzip)
        case Some(bytes) =>
          if |bytes| > MAX_DECOMPRESSED_SIZE then Err(DecompressedTooLarge) else Ok(bytes)
      else Ok(data)
  }

  /** The store has every Secret of the list, with that Secret's data. */
  ghost predicate Holding(store: SecretStore, secrets: seq<Secret>) {
    forall s :: s in secrets ==>
      SecretKey(s.namespace, s.name) in store && store[SecretKey(s.namespace, s.name)] == s.data
  }

  /** Reading undoes encoding: the first byte tells compressed from plain data. */
  lemma DecodeUndoesEncode(c: Codec, store: SecretStore, ref: Ref, e: Entry)
    requires Sound(c) && Encode(c, e).Ok?
    requires var key := SecretKey(ref.namespace, ref.name);
             key in store && ref.key in store[key] && store[key][ref.key] == Encode(c, e).value
    ensures ResolveObjectRef(c, store, ref) ==
            if |c.marshal(e.manifest).value| <= MAX_DECOMPRESSED_SIZE
            then Ok(c.marshal(e.manifest).value) else Err(DecompressedTooLarge)
  {}

  // ---------- rewriting the phases ----------

  function ReplacedObject(o: PhaseObject, pos: Pos, refs: map<Pos, Ref>): PhaseObject {
    if pos in refs then PhaseObject(None, Some(refs[pos])) else o
  }

  function ReplacedPhase(phase: Phase, i: nat, refs: map<Pos, Ref>): Phase {
    Phase(phase.name, seq(|phase.objects|, j requires 0 <= j < |phase.objects| =>
      ReplacedObject(phase.objects[j], Pos(i, j), refs)))
  }

  /** The phases with the object at every position of `refs` replaced by its ref. */
  function Replaced(phases: seq<Phase>, refs: map<Pos, Ref>): seq<Phase> {
    seq(|phases|, i requires 0 <= i < |phases| => ReplacedPhase(phases[i], i, refs))
  }

  type Saved = seq<seq<Option<Object>>>

  function SavedPhase(phase: Phase): seq<Option<Object>> {
    seq(|phase.objects|, j requires 0 <= j < |phase.objects| => phase.objects[j].inline)
  }

  function SavedObjects(phases: seq<Phase>): Saved {
    seq(|phases|, i requires 0 <= i < |phases| => SavedPhase(phases[i]))
  }

  predicate Fits(saved: Saved, phases: seq<Phase>) {
    |saved| <= |phases| && forall i :: 0 <= i < |saved| ==> |saved[i]| <= |phases[i].objects|
  }

  function RestoredPhase(phase: Phase, saved: seq<Option<Object>>): Phase {
    Phase(phase.name, seq(|phase.objects|, j requires 0 <= j < |phase.objects| =>
      if j < |saved| then PhaseObject(saved[j], None) else phase.objects[j]))
  }

  function Restored(phases: seq<Phase>, saved: Saved): seq<Phase> {
    seq(|phases|, i requires 0 <= i < |phases| =>
      if i < |saved| then RestoredPhase(phases[i], saved[i]) else phases[i])
  }

  ghost predicate NoRefs(phases: seq<Phase>) {
    forall pos :: ValidPos(phases, pos) ==> At(phases, pos).ref.None?
  }

  /** The revision under construction; its phases are rewritten in place. */
  class DesiredRevision {
    var phases: seq<Phase>

    constructor (phases: seq<Phase>)
      ensures this.phases == phases
    {
      this.phases := phases;
    }

    method SaveInlineObjects() returns (saved: Saved)
      ensures saved == SavedObjects(phases)
    {
      saved := [];
      for i := 0 to |phases|
        invariant saved == SavedObjects(phases)[..i]
      {
        var row := [];
        for j := 0 to |phases[i].objects|
          invariant row == SavedPhase(phases[i])[..j]
        {
          row := row + [phases[i].objects[j].inline];
        }
        assert row == SavedObjects(phases)[i];
        saved := saved + [row];
      }
    }

    method ReplaceInlineWithRefs(refs: map<Pos, Ref>)
      modifies this
      ensures phases == Replaced(old(phases), refs)
    {
      ghost var before := phases;
      for i := 0 to |phases|
        invariant |phases| == |before|
        invariant forall k :: 0 <= k < i ==> phases[k] == Replaced(before, refs)[k]
        invariant forall k :: i <= k < |before| ==> phases[k] == before[k]
      {
        var objects := phases[i].objects;
        for j := 0 to |objects|
          invariant |objects| == |before[i].objects|
          invariant forall k :: 0 <= k < j ==> objects[k] == ReplacedObject(before[i].objects[k], Pos(i, k), refs)
          invariant forall k :: j <= k < |objects| ==> objects[k] == before[i].objects[k]
        {
          if Pos(i, j) in refs {
            objects := objects[j := PhaseObject(None, Some(refs[Pos(i, j)]))];
          }
        }
        assert objects == ReplacedPhase(before[i], i, refs).objects;
        phases := phases[i := Phase(phases[i].name, objects)];
      }
    }

    method RestoreInlineObjects(saved: Saved)
      requires Fits(saved, phases)
      modifies this
      ensures phases == Restored(old(phases), saved)
    {
      ghost var before := phases;
      for i := 0 to |saved|
        invariant |phases| == |before|
        invariant forall k :: 0 <= k < i ==> phases[k] == Restored(before, saved)[k]
        invariant forall k :: i <= k < |before| ==> phases[k] == before[k]
      {
        var objects := phases[i].objects;
        for j := 0 to |saved[i]|
          invariant |objects| == |before[i].objects|
          invariant forall k :: 0 <= k < j ==> objects[k] == PhaseObject(saved[i][k], None)
          invariant forall k :: j <= k < |objects| ==> objects[k] == before[i].objects[k]
        {
          objects := objects[j := PhaseObject(saved[i][j], None)];
        }
        assert objects == RestoredPhase(before[i], saved[i]).objects;
        phases := phases[i := Phase(phases[i].name, objects)];
      }
    }
  }

  // ---------- round trips ----------

  lemma RestoredObjectAt(phases: seq<Phase>, refs: map<Pos, Ref>, pos: Pos)
    requires ValidPos(phases, pos)
    ensures var back := Restored(Replaced(phases, refs), SavedObjects(phases));
            ValidPos(back, pos) && At(back, pos) == PhaseObject(At(phases, pos).inline, None)
  {}

  /** Saving, replacing and restoring gives the phases back exactly when they held no refs. */
  lemma RestoreUndoesReplace(phases: seq<Phase>, refs: map<Pos, Ref>)
    ensures Fits(SavedObjects(phases), Replaced(phases, refs))
    ensures Restored(Replaced(phases, refs), SavedObjects(phases)) == phases <==> NoRefs(phases)
  {
    var back := Restored(Replaced(phases, refs), SavedObjects(phases));
    forall pos | ValidPos(phases, pos)
      ensures ValidPos(back, pos) && At(back, pos) == PhaseObject(At(phases, pos).inline, None)
    {
      RestoredObjectAt(phases, refs, pos);
    }
    if NoRefs(phases) {
      forall i | 0 <= i < |phases| ensures back[i] == phases[i] {
        SamePhase(phases, back, i);
      }
    }
  }

  lemma SamePhase(phases: seq<Phase>, back: seq<Phase>, i: nat)
    requires NoRefs(phases) && |back| == |phases| && i < |phases|
    requires back[i].name == phases[i].name && |back[i].objects| == |phases[i].objects|
    requires forall pos :: ValidPos(phases, pos) ==>
               ValidPos(back, pos) && At(back, pos) == PhaseObject(At(phases, pos).inline, None)
    ensures back[i] == phases[i]
  {
    forall j | 0 <= j < |phases[i].objects| ensures back[i].objects[j] == phases[i].objects[j] {
      var pos := Pos(i, j);
      assert ValidPos(phases, pos) && At(phases, pos).ref.None?;
      assert At(back, pos) == PhaseObject(At(phases, pos).inline, None);
    }
    assert back[i].objects == phases[i].objects;
  }

  lemma ReplacedAt(phases: seq<Phase>, refs: map<Pos, Ref>, pos: Pos)
    ensures ValidPos(Replaced(phases, refs), pos) <==> ValidPos(phases, pos)
    ensures ValidPos(phases, pos) ==>
              At(Replaced(phases, refs), pos) == ReplacedObject(At(phases, pos), pos, refs)
  {}

  /**
    Packing, replacing and resolving: an inline object comes back as exactly its serialization
    (and is refused exactly when that is above 10 MiB); every other position is left alone.
  */
  lemma ResolveUndoesPack(c: Codec, p: Packer, phases: seq<Phase>, store: SecretStore, pos: Pos)
    requires Sound(c) && CollisionFree(c, Encodings(c, phases))
    requires Packed(c, p, phases).Ok? && Holding(store, Packed(c, p, phases).value.secrets)
    requires ValidPos(phases, pos)
    ensures var refs := Packed(c, p, phases).value.refs;
            var o := At(Replaced(phases, refs), pos);
            match At(phases, pos).inline
            case None => o == At(phases, pos)
            case Some(manifest) =>
              && o.inline.None? && o.ref.Some? && c.marshal(manifest).Some?
              && ResolveObjectRef(c, store, o.ref.value) ==
                 if |c.marshal(manifest).value| <= MAX_DECOMPRESSED_SIZE
                 then Ok(c.marshal(manifest).value) else Err(DecompressedTooLarge)
  {
    var r := Packed(c, p, phases).value;
    PackPlaces(c, p, phases, Encodings(c, phases));
    ReplacedAt(phases, r.refs, pos);
    if At(phases, pos).inline.Some? {
      var e := Entry(pos, At(phases, pos).inline.value);
      EntriesExact(phases, e);
      DecodeUndoesEncode(c, store, r.refs[pos], e);
    }
  }
}
