/**
  The Secrets that refs of revisions lead to, wherever the three-step creation (Secrets,
  revision, owner references) is interrupted; and the one way in which a ref comes to dangle.
*/
module RolloutSecrets {
  import opened Wrappers
  import opened Objects
  import opened SecretData
  import opened SecretPacker
  import opened SecretPackerProperties
  import opened Externalization
  import opened Revisions
  import opened Rollout
  import opened RolloutSuccession

  /** SHA-256 without collisions among the contents that occur. */
  ghost predicate Assumed(p: Params) {
    Sound(p.codec) && CollisionFree(p.codec, p.universe) && NamesCollisionFree(p.codec, p.universe)
  }

  lemma RevisionNameInjective(p: Params, m: nat, n: nat)
    requires RevisionName(p, m) == RevisionName(p, n)
    ensures m == n
  {
    var prefix := p.extension + "-";
    assert RevisionName(p, m)[|prefix|..] == Decimal.Format(m);
    assert RevisionName(p, n)[|prefix|..] == Decimal.Format(n);
    Decimal.FormatInjective(m, n);
  }

  // ---------- the invariant ----------

  /** The name is derived from the data, and only the revision itself owns the Secret. */
  ghost predicate GenuineSecret(p: Params, last: nat, name: string, secret: SecretObject) {
    && name == SecretName(p.codec, RevisionName(p, secret.revision), secret.data)
    && Over(p.codec, secret.data, p.universe)
    && secret.owners <= {secret.revision}
    && (secret.owners != {} ==> secret.revision <= last)
  }

  ghost predicate Genuine(p: Params, secrets: Secrets, last: nat) {
    forall name :: name in secrets ==> GenuineSecret(p, last, name, secrets[name])
  }

  /** The ref's Secret exists, belongs to revision n, and has the ref's key. */
  ghost predicate RefOk(p: Params, secrets: Secrets, n: nat, ref: Ref) {
    && ref.namespace == p.namespace
    && ref.name in secrets
    && secrets[ref.name].revision == n
    && ref.key in secrets[ref.name].data
  }

  ghost predicate PhasesOk(p: Params, secrets: Secrets, n: nat, phases: seq<Phase>) {
    forall pos :: ValidPos(phases, pos) && At(phases, pos).ref.Some? ==>
      RefOk(p, secrets, n, At(phases, pos).ref.value)
  }

  ghost predicate RefsOk(p: Params, revs: Store, secrets: Secrets) {
    forall n :: n in revs ==> PhasesOk(p, secrets, n, revs[n].phases)
  }

  ghost predicate InCluster(secrets: Secrets, n: nat, s: Secret) {
    s.name in secrets && secrets[s.name].revision == n && secrets[s.name].data == s.data
  }

  ghost predicate PlannedSecret(p: Params, n: nat, s: Secret) {
    s.name == SecretName(p.codec, RevisionName(p, n), s.data) && Over(p.codec, s.data, p.universe)
  }

  ghost predicate PlannedRef(p: Params, secrets: seq<Secret>, ref: Ref) {
    ref.namespace == p.namespace && exists s :: s in secrets && ref.name == s.name && ref.key in s.data
  }

  /** The Secrets to create are the ones the refs of the new revision name. */
  ghost predicate Planned(p: Params, n: nat, secrets: seq<Secret>, phases: seq<Phase>) {
    && (forall s :: s in secrets ==> PlannedSecret(p, n, s))
    && (forall pos :: ValidPos(phases, pos) && At(phases, pos).ref.Some? ==>
          PlannedRef(p, secrets, At(phases, pos).ref.value))
  }

  /** The phases are what packing this content under the name of revision n gives. */
  ghost predicate PackedFrom(p: Params, n: nat, phases: seq<Phase>, content: seq<Phase>) {
    && Generated(p, content) && PackedFor(p, n, content).Ok?
    && phases == Replaced(content, PackedFor(p, n, content).value.refs)
  }

  ghost predicate HasOrigin(p: Params, n: nat, phases: seq<Phase>) {
    exists content :: PackedFrom(p, n, phases, content)
  }

  /** Every revision that was not migrated was packed from some content. */
  ghost predicate Origins(p: Params, revs: Store) {
    forall n :: n in revs && revs[n].protection.Prevent? ==> HasOrigin(p, n, revs[n].phases)
  }

  /** A revision about to be created, and the Secrets for it, come from one and the same packing. */
  ghost predicate PlannedFrom(p: Params, n: nat, pack: PackResult, phases: seq<Phase>) {
    exists content :: PackedFrom(p, n, phases, content) && PackedFor(p, n, content) == Ok(pack)
  }

  /** The first of the planned Secrets are there. */
  ghost predicate CreatedUpTo(secrets: Secrets, n: nat, planned: seq<Secret>, created: nat) {
    forall i :: 0 <= i < created && i < |planned| ==> InCluster(secrets, n, planned[i])
  }

  ghost predicate Underway(p: Params, secrets: Secrets, ext: Extension) {
    match ext
    case Listed(_, content, _, _) => Generated(p, content)
    case Collecting(_, content, _, _, _) => Generated(p, content)
    case Creating(_, _, _, number, pack, phases, created) =>
      && PlannedFrom(p, number, pack, phases)
      && CreatedUpTo(secrets, number, pack.secrets, created)
    case Owning(number, unowned) =>
      forall name :: name in unowned && name in secrets ==> secrets[name].revision == number
    case _ => true
  }

  ghost predicate SecretsOk(p: Params, s: State) {
    && Genuine(p, s.secrets, s.last)
    && Origins(p, s.revs)
    && Underway(p, s.secrets, s.ext)
  }

  // ---------- packing plans a revision ----------

  lemma PackIsPlanned(p: Params, n: nat, content: seq<Phase>)
    requires Assumed(p) && Generated(p, content)
    requires PackedFor(p, n, content).Ok?
    ensures var pack := PackedFor(p, n, content).value;
            Planned(p, n, pack.secrets, Replaced(content, pack.refs))
  {
    var packer := PackerFor(p, n);
    var pack := Packed(p.codec, packer, content).value;
    PackPlaces(p.codec, packer, content, p.universe);
    PackSizes(p.codec, packer, content);
    var phases := Replaced(content, pack.refs);
    forall pos | ValidPos(phases, pos) && At(phases, pos).ref.Some?
      ensures PlannedRef(p, pack.secrets, At(phases, pos).ref.value)
    {
      ReplacedAt(content, pack.refs, pos);
      PackedRefIsPlanned(p, n, content, pos);
    }
    forall s | s in pack.secrets ensures PlannedSecret(p, n, s) {
      assert WellMade(p.codec, packer, s);
    }
  }

  lemma PackedRefIsPlanned(p: Params, n: nat, content: seq<Phase>, pos: Pos)
    requires CollisionFree(p.codec, p.universe) && Encodings(p.codec, content) <= p.universe
    requires Packed(p.codec, PackerFor(p, n), content).Ok?
    requires ValidPos(content, pos) && pos in Packed(p.codec, PackerFor(p, n), content).value.refs
    ensures var pack := Packed(p.codec, PackerFor(p, n), content).value;
            PlannedRef(p, pack.secrets, pack.refs[pos])
  {
    var packer := PackerFor(p, n);
    var pack := Packed(p.codec, packer, content).value;
    PackPlaces(p.codec, packer, content, p.universe);
    PackSizes(p.codec, packer, content);
    var e := Entry(pos, At(content, pos).inline.value);
    EntriesExact(content, e);
    var value := Encode(p.codec, e).value;
    assert PointsAt(p.codec, pack.secrets, pack.refs[pos], value);
    var s :| s in pack.secrets && pack.refs[pos] == Ref(s.name, s.namespace, p.codec.contentHash(value)) &&
             pack.refs[pos].key in s.data && s.data[pack.refs[pos].key] == value;
    assert WellMade(p.codec, packer, s);
  }

  lemma PlannedFromIsPlanned(p: Params, n: nat, pack: PackResult, phases: seq<Phase>)
    requires Assumed(p) && PlannedFrom(p, n, pack, phases)
    ensures Planned(p, n, pack.secrets, phases) && HasOrigin(p, n, phases)
  {
    var content :| PackedFrom(p, n, phases, content) && PackedFor(p, n, content) == Ok(pack);
    PackIsPlanned(p, n, content);
  }

  // ---------- changes to the Secrets ----------

  ghost predicate Kept(secrets: Secrets, secrets': Secrets, n: nat) {
    forall name :: name in secrets && secrets[name].revision == n ==>
      name in secrets' && secrets'[name].revision == n && secrets'[name].data == secrets[name].data
  }

  lemma RefsStable(p: Params, revs: Store, secrets: Secrets, secrets': Secrets)
    requires RefsOk(p, revs, secrets) && forall n :: n in revs ==> Kept(secrets, secrets', n)
    ensures RefsOk(p, revs, secrets')
  {}

  lemma GenuineLater(p: Params, secrets: Secrets, last: nat, last': nat)
    requires Genuine(p, secrets, last) && last <= last'
    ensures Genuine(p, secrets, last')
  {}

  /** "Already exists" is safe: a Secret of that name has that revision and that data. */
  lemma ExistingSecretIsTheOne(p: Params, s: State, n: nat, secret: Secret)
    requires Assumed(p) && Genuine(p, s.secrets, s.last)
    requires PlannedSecret(p, n, secret) && secret.name in s.secrets
    ensures InCluster(s.secrets, n, secret)
  {
    var have := s.secrets[secret.name];
    assert GenuineSecret(p, s.last, secret.name, have);
    SecretNameInjective(p.codec, p.universe, RevisionName(p, have.revision),
                        have.data, RevisionName(p, n), secret.data);
    RevisionNameInjective(p, have.revision, n);
  }

  lemma PutSecretGenuine(p: Params, secrets: Secrets, last: nat, name: string, secret: SecretObject)
    requires Genuine(p, secrets, last) && GenuineSecret(p, last, name, secret)
    ensures Genuine(p, secrets[name := secret], last)
  {}

  /** Adding a Secret, or only owners to one, keeps what every revision refers to. */
  lemma PutSecretKept(secrets: Secrets, name: string, secret: SecretObject, secrets': Secrets)
    requires secrets' == secrets[name := secret]
    requires name in secrets ==> secret.revision == secrets[name].revision && secret.data == secrets[name].data
    ensures forall n :: Kept(secrets, secrets', n)
  {}

  lemma NextSecretIsPlanned(p: Params, s: State)
    requires Assumed(p) && SecretsOk(p, s) && Enabled(p, s, CreateSecret)
    ensures PlannedSecret(p, s.ext.number, s.ext.pack.secrets[s.ext.created])
  {
    PlannedFromIsPlanned(p, s.ext.number, s.ext.pack, s.ext.phases);
  }

  /** After the step the Secret is there as planned, whether or not it was before. */
  lemma CreateSecretPuts(p: Params, s: State)
    requires Assumed(p) && SecretsOk(p, s) && Enabled(p, s, CreateSecret)
    ensures var secrets' := Do(p, s, CreateSecret).secrets;
            && Genuine(p, secrets', s.last)
            && (forall n :: Kept(s.secrets, secrets', n))
            && InCluster(secrets', s.ext.number, s.ext.pack.secrets[s.ext.created])
  {
    var secret := s.ext.pack.secrets[s.ext.created];
    NextSecretIsPlanned(p, s);
    if secret.name in s.secrets {
      ExistingSecretIsTheOne(p, s, s.ext.number, secret);
    } else {
      var created := SecretObject(s.ext.number, secret.data, {});
      PutSecretGenuine(p, s.secrets, s.last, secret.name, created);
      PutSecretKept(s.secrets, secret.name, created, s.secrets[secret.name := created]);
    }
  }

  lemma CreatedStaysInCluster(secrets: Secrets, secrets': Secrets, n: nat, planned: seq<Secret>, created: nat)
    requires Kept(secrets, secrets', n) && CreatedUpTo(secrets, n, planned, created)
    ensures CreatedUpTo(secrets', n, planned, created)
  {}

  lemma CreatedNext(secrets: Secrets, n: nat, planned: seq<Secret>, created: nat)
    requires created < |planned| && CreatedUpTo(secrets, n, planned, created) && InCluster(secrets, n, planned[created])
    ensures CreatedUpTo(secrets, n, planned, created + 1)
  {}

  lemma CreateSecretKeepsOk(p: Params, s: State)
    requires Assumed(p) && SecretsOk(p, s) && Enabled(p, s, CreateSecret)
    ensures SecretsOk(p, Do(p, s, CreateSecret))
  {
    var e, secrets' := s.ext, Do(p, s, CreateSecret).secrets;
    CreateSecretPuts(p, s);
    CreatedStaysInCluster(s.secrets, secrets', e.number, e.pack.secrets, e.created);
    CreatedNext(secrets', e.number, e.pack.secrets, e.created);
  }

  lemma PatchOwnerKeepsOk(p: Params, s: State, name: string)
    requires SecretsOk(p, s) && ExtensionOk(s.revs, s.last, s.ext) && Enabled(p, s, PatchOwner(name))
    ensures SecretsOk(p, Do(p, s, PatchOwner(name)))
    ensures forall n :: Kept(s.secrets, Do(p, s, PatchOwner(name)).secrets, n)
  {}

  lemma CollectedIsNotReferenced(p: Params, s: State, name: string)
    requires Genuine(p, s.secrets, s.last) && Enabled(p, s, CollectSecret(name))
    ensures s.secrets[name].revision !in s.revs && s.secrets[name].revision <= s.last
  {}

  lemma CollectSecretKeepsOk(p: Params, s: State, name: string)
    requires Safe(s) && SecretsOk(p, s) && Enabled(p, s, CollectSecret(name))
    ensures SecretsOk(p, Do(p, s, CollectSecret(name)))
    ensures forall n :: n in s.revs ==> Kept(s.secrets, s.secrets - {name}, n)
  {
    CollectedIsNotReferenced(p, s, name);
    var secrets' := s.secrets - {name};
    forall n | n != s.secrets[name].revision ensures Kept(s.secrets, secrets', n) {}
    if s.ext.Creating? {
      CreatedStaysInCluster(s.secrets, secrets', s.ext.number, s.ext.pack.secrets, s.ext.created);
    }
  }

  // ---------- changes to the revisions ----------

  lemma PutKeepsOrigins(p: Params, revs: Store, n: nat, rev: Revision)
    requires Origins(p, revs) && (rev.protection.Prevent? ==> HasOrigin(p, n, rev.phases))
    ensures Origins(p, revs[n := rev])
  {}

  lemma CreateRevisionKeepsOk(p: Params, s: State)
    requires Assumed(p) && Safe(s) && SecretsOk(p, s) && Enabled(p, s, CreateRevision)
    ensures SecretsOk(p, Do(p, s, CreateRevision))
  {
    var e := s.ext;
    assert e.number !in s.revs;
    PlannedFromIsPlanned(p, e.number, e.pack, e.phases);
    PutKeepsOrigins(p, s.revs, e.number, Fresh(Desired(e.bundle, Prevent, e.phases, false)));
    GenuineLater(p, s.secrets, s.last, Do(p, s, CreateRevision).last);
    assert forall x :: x in e.pack.secrets ==> InCluster(s.secrets, e.number, x);
  }

  lemma InPlaceKeepsOrigins(p: Params, s: State, n: nat)
    requires Origins(p, s.revs) && s.ext.Listed? && Generated(p, s.ext.content) && n in s.revs
    ensures Origins(p, InPlace(s, n, PackedFor(p, n, s.ext.content)).revs)
  {
    var packed := PackedFor(p, n, s.ext.content);
    if packed.Ok? {
      var phases := Replaced(s.ext.content, packed.value.refs);
      assert PackedFrom(p, n, phases, s.ext.content);
      var d := Desired(s.ext.bundle, Prevent, phases, false);
      PutKeepsOrigins(p, s.revs, n, Applied(s.revs, n, d)[n]);
    }
  }

  lemma ApplyInPlaceKeepsOk(p: Params, s: State)
    requires Safe(s) && SecretsOk(p, s) && Enabled(p, s, ApplyInPlace)
    ensures SecretsOk(p, Do(p, s, ApplyInPlace))
  {
    ListedTargetsLast(s);
    InPlaceKeepsOrigins(p, s, s.last);
    var _, _ := ApplyInPlaceCases(p, s);
  }

  lemma MigrateCreateKeepsOk(p: Params, s: State, b: Bundle, content: seq<Phase>)
    requires SecretsOk(p, s) && Enabled(p, s, MigrateCreate(b, content))
    ensures SecretsOk(p, Do(p, s, MigrateCreate(b, content)))
  {}

  lemma StartCreatingKeepsOk(p: Params, s: State)
    requires SecretsOk(p, s) && Enabled(p, s, StartCreating)
    ensures SecretsOk(p, Do(p, s, StartCreating))
  {
    var ext := DoStartCreating(p, s).ext;
    if ext.Creating? {
      assert PackedFrom(p, ext.number, ext.phases, s.ext.content);
      assert PlannedFrom(p, ext.number, ext.pack, ext.phases);
    }
  }

  ghost predicate SecretStep(step: Step) {
    || step.MigrateCreate? || step.ApplyInPlace? || step.CreateRevision? || step.StartCreating?
    || step.CreateSecret? || step.PatchOwner? || step.CollectSecret?
  }

  lemma OtherStepKeepsUnderway(p: Params, s: State, step: Step)
    requires Underway(p, s.secrets, s.ext) && Enabled(p, s, step) && !SecretStep(step)
    ensures Underway(p, s.secrets, Do(p, s, step).ext)
    ensures Do(p, s, step).secrets == s.secrets && Do(p, s, step).last == s.last
  {}

  lemma OtherStepKeepsOk(p: Params, s: State, step: Step)
    requires SecretsOk(p, s) && Enabled(p, s, step) && !SecretStep(step)
    ensures SecretsOk(p, Do(p, s, step))
  {
    StepKeepsContent(p, s, step);
    OtherStepKeepsUnderway(p, s, step);
  }

  lemma StepKeepsSecrets(p: Params, s: State, step: Step)
    requires Assumed(p) && Safe(s) && SecretsOk(p, s) && Enabled(p, s, step)
    ensures SecretsOk(p, Do(p, s, step))
  {
    if !SecretStep(step) {
      OtherStepKeepsOk(p, s, step);
    } else if step.CreateSecret? {
      CreateSecretKeepsOk(p, s);
    } else if step.PatchOwner? {
      PatchOwnerKeepsOk(p, s, step.name);
    } else if step.CollectSecret? {
      CollectSecretKeepsOk(p, s, step.name);
    } else if step.CreateRevision? {
      CreateRevisionKeepsOk(p, s);
    } else if step.ApplyInPlace? {
      ApplyInPlaceKeepsOk(p, s);
    } else if step.StartCreating? {
      StartCreatingKeepsOk(p, s);
    } else {
      MigrateCreateKeepsOk(p, s, step.bundle, step.content);
    }
  }

  lemma {:induction false} RunKeepsSecrets(p: Params, run: seq<State>, i: nat)
    requires Assumed(p) && IsRun(p, run) && i < |run|
    ensures SecretsOk(p, run[i])
  {
    if i > 0 {
      RunKeepsSecrets(p, run, i - 1);
      RunIsSafe(p, run, i - 1);
      var step := StepOf(p, run, i - 1);
      StepKeepsSecrets(p, run[i - 1], step);
    }
  }

  // ---------- when refs dangle ----------

  /**
    The guard under which a ref comes to dangle: the latest revision has no phases, may be
    given some, and a Secret that its new refs would name is not there.
  */
  ghost predicate FillsDangling(p: Params, s: State) {
    && s.ext.Listed? && s.ext.list != []
    && var n := s.ext.list[|s.ext.list| - 1];
       && n in s.revs && s.revs[n].phases == [] && s.revs[n].lifecycle.Active? && s.revs[n].protection.Prevent?
       && PackedFor(p, n, s.ext.content).Ok?
       && MissesSecret(PackedFor(p, n, s.ext.content).value.refs, s.secrets)
  }

  ghost predicate MissesSecret(refs: map<Pos, Ref>, secrets: Secrets) {
    exists pos :: pos in refs && refs[pos].name !in secrets
  }

  lemma PlannedAndPresent(p: Params, s: State, n: nat, secrets: seq<Secret>, ref: Ref)
    requires Assumed(p) && Genuine(p, s.secrets, s.last)
    requires (forall x :: x in secrets ==> PlannedSecret(p, n, x)) && PlannedRef(p, secrets, ref)
    requires ref.name in s.secrets
    ensures RefOk(p, s.secrets, n, ref)
  {
    var x :| x in secrets && ref.name == x.name && ref.key in x.data;
    ExistingSecretIsTheOne(p, s, n, x);
  }

  /** The refs of packed phases are those of the packing. */
  lemma PackedRefsExact(p: Params, n: nat, content: seq<Phase>, pos: Pos)
    requires Assumed(p) && Generated(p, content) && PackedFor(p, n, content).Ok?
    ensures var refs := PackedFor(p, n, content).value.refs;
            var phases := Replaced(content, refs);
            && (ValidPos(phases, pos) && At(phases, pos).ref.Some? <==> pos in refs)
            && (pos in refs ==> At(phases, pos).ref == Some(refs[pos]))
  {
    PackPlaces(p.codec, PackerFor(p, n), content, p.universe);
    ReplacedAt(content, PackedFor(p, n, content).value.refs, pos);
  }

  lemma FilledPhasesOkExactly(p: Params, s: State, n: nat, content: seq<Phase>)
    requires Assumed(p) && Genuine(p, s.secrets, s.last) && Generated(p, content) && PackedFor(p, n, content).Ok?
    ensures var refs := PackedFor(p, n, content).value.refs;
            PhasesOk(p, s.secrets, n, Replaced(content, refs)) <==> !MissesSecret(refs, s.secrets)
  {
    var pack := PackedFor(p, n, content).value;
    var phases := Replaced(content, pack.refs);
    PackIsPlanned(p, n, content);
    forall pos
      ensures ValidPos(phases, pos) && At(phases, pos).ref.Some? <==> pos in pack.refs
      ensures pos in pack.refs ==> At(phases, pos).ref == Some(pack.refs[pos])
      ensures pos in pack.refs && pack.refs[pos].name in s.secrets ==> RefOk(p, s.secrets, n, pack.refs[pos])
    {
      PackedRefsExact(p, n, content, pos);
      if pos in pack.refs && pack.refs[pos].name in s.secrets {
        PlannedAndPresent(p, s, n, pack.secrets, pack.refs[pos]);
      }
    }
  }

  lemma OnlyOneMatters(p: Params, revs: Store, secrets: Secrets, n: nat, rev: Revision)
    requires RefsOk(p, revs, secrets)
    ensures RefsOk(p, revs[n := rev], secrets) <==> PhasesOk(p, secrets, n, rev.phases)
  {
    if RefsOk(p, revs[n := rev], secrets) { assert revs[n := rev][n] == rev; }
  }

  lemma AcceptedKeepsRefsExactly(p: Params, s: State, n: nat, d: Desired)
    requires Assumed(p) && Genuine(p, s.secrets, s.last) && RefsOk(p, s.revs, s.secrets) && s.ext.Listed?
    requires Generated(p, s.ext.content) && PackedFor(p, n, s.ext.content).Ok? && n in s.revs && Accepts(s.revs[n], d)
    requires d.phases == Replaced(s.ext.content, PackedFor(p, n, s.ext.content).value.refs)
    ensures RefsOk(p, Applied(s.revs, n, d), s.secrets) <==>
            s.revs[n].phases != [] || !MissesSecret(PackedFor(p, n, s.ext.content).value.refs, s.secrets)
  {
    FilledPhasesOkExactly(p, s, n, s.ext.content);
    OnlyOneMatters(p, s.revs, s.secrets, n, Applied(s.revs, n, d)[n]);
    assert PhasesOk(p, s.secrets, n, s.revs[n].phases);
  }

  lemma InPlaceKeepsRefsExactly(p: Params, s: State, n: nat)
    requires Assumed(p) && Genuine(p, s.secrets, s.last) && RefsOk(p, s.revs, s.secrets)
    requires s.ext.Listed? && Generated(p, s.ext.content) && n in s.revs && s.revs[n].lifecycle.Active?
    ensures var packed := PackedFor(p, n, s.ext.content);
            RefsOk(p, InPlace(s, n, packed).revs, s.secrets) <==>
            !(s.revs[n].phases == [] && s.revs[n].protection.Prevent? &&
              packed.Ok? && MissesSecret(packed.value.refs, s.secrets))
  {
    var packed := PackedFor(p, n, s.ext.content);
    if packed.Ok? {
      var d := Desired(s.ext.bundle, Prevent, Replaced(s.ext.content, packed.value.refs), false);
      if Accepts(s.revs[n], d) {
        AcceptedKeepsRefsExactly(p, s, n, d);
      }
    }
  }

  /** An in-place apply keeps every ref resolvable exactly when it does not meet the guard. */
  lemma ApplyInPlaceSafeExactly(p: Params, s: State)
    requires Assumed(p) && Safe(s) && SecretsOk(p, s) && RefsOk(p, s.revs, s.secrets) && Enabled(p, s, ApplyInPlace)
    ensures RefsOk(p, Do(p, s, ApplyInPlace).revs, Do(p, s, ApplyInPlace).secrets) <==> !FillsDangling(p, s)
  {
    ListedTargetsLast(s);
    InPlaceKeepsRefsExactly(p, s, s.last);
    var _, _ := ApplyInPlaceCases(p, s);
  }

  lemma PlannedPhasesOk(p: Params, secrets: Secrets, n: nat, planned: seq<Secret>, phases: seq<Phase>)
    requires Planned(p, n, planned, phases) && CreatedUpTo(secrets, n, planned, |planned|)
    ensures PhasesOk(p, secrets, n, phases)
  {}

  lemma CreateRevisionKeepsRefs(p: Params, s: State)
    requires Assumed(p) && Safe(s) && SecretsOk(p, s) && RefsOk(p, s.revs, s.secrets) && Enabled(p, s, CreateRevision)
    ensures RefsOk(p, Do(p, s, CreateRevision).revs, Do(p, s, CreateRevision).secrets)
  {
    var e := s.ext;
    PlannedFromIsPlanned(p, e.number, e.pack, e.phases);
    PlannedPhasesOk(p, s.secrets, e.number, e.pack.secrets, e.phases);
    OnlyOneMatters(p, s.revs, s.secrets, e.number, Fresh(Desired(e.bundle, Prevent, e.phases, false)));
  }

  lemma SecretChangeKeepsRefs(p: Params, s: State, step: Step)
    requires Assumed(p) && Safe(s) && SecretsOk(p, s) && RefsOk(p, s.revs, s.secrets) && Enabled(p, s, step)
    requires step.CreateSecret? || step.PatchOwner? || step.CollectSecret?
    ensures RefsOk(p, Do(p, s, step).revs, Do(p, s, step).secrets)
  {
    if step.CreateSecret? {
      CreateSecretPuts(p, s);
    } else if step.PatchOwner? {
      PatchOwnerKeepsOk(p, s, step.name);
    } else {
      CollectSecretKeepsOk(p, s, step.name);
    }
    RefsStable(p, s.revs, s.secrets, Do(p, s, step).secrets);
  }

  lemma MigrateCreateKeepsRefs(p: Params, s: State, b: Bundle, content: seq<Phase>)
    requires RefsOk(p, s.revs, s.secrets) && Enabled(p, s, MigrateCreate(b, content))
    ensures RefsOk(p, Do(p, s, MigrateCreate(b, content)).revs, Do(p, s, MigrateCreate(b, content)).secrets)
  {
    OnlyOneMatters(p, s.revs, s.secrets, 1, Fresh(Desired(b, Unprotected, content, true)));
  }

  lemma SameContentKeepsRefs(p: Params, revs: Store, revs': Store, secrets: Secrets)
    requires RefsOk(p, revs, secrets) && SameContent(revs, revs')
    ensures RefsOk(p, revs', secrets)
  {}

  ghost predicate KeepsContentAndSecrets(step: Step) {
    && !step.CreateSecret? && !step.PatchOwner? && !step.CollectSecret?
    && !step.ApplyInPlace? && !step.MigrateCreate? && !step.CreateRevision?
  }

  lemma QuietStepKeepsRefs(p: Params, s: State, step: Step)
    requires RefsOk(p, s.revs, s.secrets) && Enabled(p, s, step) && KeepsContentAndSecrets(step)
    ensures RefsOk(p, Do(p, s, step).revs, Do(p, s, step).secrets)
  {
    StepKeepsContent(p, s, step);
    SecretsUntouched(p, s, step);
    SameContentKeepsRefs(p, s.revs, Do(p, s, step).revs, s.secrets);
  }

  /** No other step makes a ref dangle. */
  lemma OtherStepKeepsRefs(p: Params, s: State, step: Step)
    requires Assumed(p) && Safe(s) && SecretsOk(p, s) && RefsOk(p, s.revs, s.secrets)
    requires Enabled(p, s, step) && !step.ApplyInPlace?
    ensures RefsOk(p, Do(p, s, step).revs, Do(p, s, step).secrets)
  {
    if KeepsContentAndSecrets(step) {
      QuietStepKeepsRefs(p, s, step);
    } else if step.CreateRevision? {
      CreateRevisionKeepsRefs(p, s);
    } else if step.MigrateCreate? {
      MigrateCreateKeepsRefs(p, s, step.bundle, step.content);
    } else {
      SecretChangeKeepsRefs(p, s, step);
    }
  }

  lemma SecretsUntouched(p: Params, s: State, step: Step)
    requires Enabled(p, s, step) && KeepsContentAndSecrets(step)
    ensures Do(p, s, step).secrets == s.secrets
  {}

  /** Step i of the run is an in-place apply that meets the guard. */
  ghost predicate DanglingFillAt(p: Params, run: seq<State>, i: int) {
    0 <= i < |run| - 1 && FillsDangling(p, run[i]) && run[i + 1] == DoApplyInPlace(p, run[i])
  }

  ghost predicate RefsOkAt(p: Params, run: seq<State>, i: int) {
    0 <= i < |run| ==> RefsOk(p, run[i].revs, run[i].secrets)
  }

  lemma StepKeepsRefsExactly(p: Params, run: seq<State>, i: nat)
    requires Assumed(p) && IsRun(p, run) && i + 1 < |run| && RefsOkAt(p, run, i)
    ensures RefsOkAt(p, run, i + 1) <==> !DanglingFillAt(p, run, i)
  {
    var s := run[i];
    RunIsSafe(p, run, i);
    RunKeepsSecrets(p, run, i);
    var step := StepOf(p, run, i);
    if s.ext.Listed? && s.ext.list != [] {
      ApplyInPlaceSafeExactly(p, s);
    }
    if !step.ApplyInPlace? {
      OtherStepKeepsRefs(p, s, step);
    }
  }

  ghost predicate RefsOkUpTo(p: Params, run: seq<State>, i: int) {
    forall k :: 0 <= k <= i ==> RefsOkAt(p, run, k)
  }

  ghost predicate NoDanglingFillBefore(p: Params, run: seq<State>, i: int) {
    forall j :: 0 <= j < i ==> !DanglingFillAt(p, run, j)
  }

  ghost predicate ExactAt(p: Params, run: seq<State>, i: int) {
    RefsOkAt(p, run, i) ==> (RefsOkAt(p, run, i + 1) <==> !DanglingFillAt(p, run, i))
  }

  lemma {:induction false} ExactAccumulates(p: Params, run: seq<State>, i: nat)
    requires RefsOkAt(p, run, 0) && forall k :: 0 <= k < i ==> ExactAt(p, run, k)
    ensures RefsOkUpTo(p, run, i) <==> NoDanglingFillBefore(p, run, i)
  {
    if i > 0 {
      ExactAccumulates(p, run, i - 1);
      UpToNext(p, run, i - 1);
      assert ExactAt(p, run, i - 1);
    }
  }

  /**
    For every run: all refs have been resolvable all along exactly when no in-place apply has
    filled a revision without phases while a Secret it names was missing.
  */
  lemma RefsHoldExactly(p: Params, run: seq<State>, i: nat)
    requires Assumed(p) && IsRun(p, run) && i < |run|
    ensures RefsOkUpTo(p, run, i) <==> NoDanglingFillBefore(p, run, i)
  {
    forall k | 0 <= k < i ensures ExactAt(p, run, k) {
      if RefsOkAt(p, run, k) { StepKeepsRefsExactly(p, run, k); }
    }
    ExactAccumulates(p, run, i);
  }

  lemma UpToNext(p: Params, run: seq<State>, i: nat)
    ensures RefsOkUpTo(p, run, i + 1) <==> RefsOkUpTo(p, run, i) && RefsOkAt(p, run, i + 1)
    ensures NoDanglingFillBefore(p, run, i + 1) <==> NoDanglingFillBefore(p, run, i) && !DanglingFillAt(p, run, i)
    ensures RefsOkUpTo(p, run, i) ==> RefsOkAt(p, run, i)
  {}

  lemma OriginNotEmpty(p: Params, n: nat, phases: seq<Phase>)
    requires !p.allowEmpty && HasOrigin(p, n, phases)
    ensures phases != []
  {
    var content :| PackedFrom(p, n, phases, content);
    assert |phases| == |content|;
  }

  /** If every bundle renders to some phase, there is never a revision to fill. */
  lemma NothingToFill(p: Params, run: seq<State>, i: nat)
    requires Assumed(p) && !p.allowEmpty && IsRun(p, run) && i < |run|
    ensures NoDanglingFillBefore(p, run, i)
  {
    forall j | 0 <= j < i ensures !DanglingFillAt(p, run, j) {
      RunKeepsSecrets(p, run, j);
      forall n | n in run[j].revs && run[j].revs[n].protection.Prevent? ensures run[j].revs[n].phases != [] {
        OriginNotEmpty(p, n, run[j].revs[n].phases);
      }
    }
  }
}
