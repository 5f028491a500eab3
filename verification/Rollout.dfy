/**
  The rollout protocol of one ClusterExtension: its reconciler and one reconciler per
  revision, sharing the cluster. Every request to the API server is a step of its own, steps
  of different reconcilers interleave freely, and each reconciler may stop between any two of
  its steps (a crash, or an error at that point) and start again from the beginning.

  Assumed: one worker per extension and per revision, lists that are current when they are
  made, and nobody else creating or deleting revisions.
*/
module Rollout {
  import opened Wrappers
  import opened Objects
  import opened SecretData
  import opened SecretPacker
  import opened SecretPackerProperties
  import opened Externalization
  import opened Revisions
  import Decimal

  const RETENTION_LIMIT := 5

  /** `allowEmpty` says whether a bundle may render to no phases at all. */
  datatype Params = Params(codec: Codec, extension: string, namespace: string,
                           universe: set<Bytes>, allowEmpty: bool)

  function RevisionName(p: Params, n: nat): string {
    p.extension + "-" + Decimal.Format(n)
  }

  function PackerFor(p: Params, n: nat): Packer {
    Packer(RevisionName(p, n), p.extension, p.namespace)
  }

  /** A Secret in the cluster; `revision` is its revision label, `owners` its owner references. */
  datatype SecretObject = SecretObject(revision: nat, data: Data, owners: set<nat>)

  type Secrets = map<string, SecretObject>

  /** Where the extension's reconciler is, with what it has read. */
  datatype Extension =
    | Idle
    | MigrationRead(read: Revision)
    | StatesRead(states: RevisionStates)
    | Resolved(bundle: Bundle)
    | Listed(bundle: Bundle, content: seq<Phase>, list: seq<nat>, archived: set<nat>)
    | Collecting(bundle: Bundle, content: seq<Phase>, list: seq<nat>, archived: set<nat>, index: nat)
    | Creating(bundle: Bundle, list: seq<nat>, archived: set<nat>,
               number: nat, pack: PackResult, phases: seq<Phase>, created: nat)
    | Owning(number: nat, unowned: set<string>)

  /** Where a revision's reconciler is, with the revision as it was read. */
  datatype Worker =
    | Reading(read: Revision)
    | Archiving(read: Revision, todo: set<nat>)
    | Reporting(read: Revision, succeeded: bool, conditions: int)

  /** `last` is the highest revision number ever created; no step reads it. */
  datatype State = State(revs: Store, secrets: Secrets, last: nat, ext: Extension, workers: map<nat, Worker>)

  // ---------- the API server ----------

  datatype Desired = Desired(bundle: Bundle, protection: Protection, phases: seq<Phase>, migrated: bool)

  function Fresh(d: Desired): Revision {
    Revision(Active, false, false, false, 0, d.migrated, d.bundle, d.protection, d.phases, 1)
  }

  /** The validation rules: no un-archiving, protection fixed, phases fixed unless empty. */
  predicate Accepts(rev: Revision, d: Desired) {
    && rev.lifecycle.Active?
    && rev.protection == d.protection
    && (rev.phases == d.phases || rev.phases == [])
  }

  /** A write that changes something gets a new resource version. */
  function Bump(before: Revision, after: Revision): Revision {
    if after == before then before else after.(resourceVersion := before.resourceVersion + 1)
  }

  predicate ApplyRejected(revs: Store, n: nat, d: Desired) {
    n in revs && !Accepts(revs[n], d)
  }

  /** Server-side apply of a revision, creating it when there is none. */
  function Applied(revs: Store, n: nat, d: Desired): Store {
    if n in revs
    then revs[n := Bump(revs[n], revs[n].(bundle := d.bundle, phases := d.phases, migrated := d.migrated))]
    else revs[n := Fresh(d)]
  }

  /** Deleting: gone at once without a finalizer, otherwise marked. */
  function Deleted(revs: Store, n: nat): Store {
    if n !in revs then revs
    else if revs[n].finalizer then revs[n := Bump(revs[n], revs[n].(deleting := true))]
    else revs - {n}
  }

  /** The current object is still the one that was read. */
  predicate Unchanged(revs: Store, n: nat, read: Revision) {
    n in revs && revs[n].resourceVersion == read.resourceVersion
  }

  function WithoutFinalizer(revs: Store, n: nat): Store
    requires n in revs
  {
    if revs[n].deleting then revs - {n} else revs[n := Bump(revs[n], revs[n].(finalizer := false))]
  }

  function SecretNames(secrets: seq<Secret>): set<string> {
    set s | s in secrets :: s.name
  }

  function UnownedSecrets(secrets: Secrets, n: nat): set<string> {
    set name | name in secrets && secrets[name].revision == n && n !in secrets[name].owners
  }

  /** What the bundle renders to: inline objects, known encodings. */
  ghost predicate Generated(p: Params, content: seq<Phase>) {
    && NoRefs(content)
    && Encodings(p.codec, content) <= p.universe
    && (content != [] || p.allowEmpty)
  }

  function MaxNumber(a: nat, b: nat): nat { if a < b then b else a }

  // ---------- steps ----------

  datatype Step =
    // extension: storage migration
    | MigrateCreate(bundle: Bundle, content: seq<Phase>)
    | MigrateRead
    | MigrateReport
    // extension: resolve, apply
    | ReadStates(list: seq<nat>)
    | Resolve(choice: Bundle)
    | ListRevisions(rendered: seq<Phase>, listing: seq<nat>)
    | ApplyInPlace
    | NothingToApply
    | CollectOne
    | StartCreating
    | CreateSecret
    | CreateRevision
    | PatchOwner(name: string)
    | Abort
    // revision n
    | Get(n: nat)
    | EnsureFinalizer(n: nat)
    | RemoveFinalizer(n: nat)
    | ListPrevious(n: nat)
    | ArchiveOne(n: nat, previous: nat)
    | Complete(n: nat, reported: int)
    | Report(n: nat, reported: int)
    | UpdateStatus(n: nat)
    | Crash(n: nat)
    // Kubernetes: a Secret whose owners are all gone
    | CollectSecret(name: string)

  predicate IsReading(s: State, n: nat) { n in s.workers && s.workers[n].Reading? }

  predicate IsArchiving(s: State, n: nat) { n in s.workers && s.workers[n].Archiving? }

  /** The code path of a live revision. */
  predicate Live(rev: Revision) { rev.lifecycle.Active? && !rev.deleting }

  ghost predicate Enabled(p: Params, s: State, step: Step) {
    match step
    case MigrateCreate(_, content) => s.ext.Idle? && s.revs == map[] && NoRefs(content)
    case MigrateRead => s.ext.Idle? && 1 in s.revs && s.revs[1].migrated && !s.revs[1].succeeded
    case MigrateReport => s.ext.MigrationRead?
    case ReadStates(list) => s.ext.Idle? && IsListing(list, s.revs.Keys)
    case Resolve(b) =>
      s.ext.StatesRead? && (s.ext.states.rollingOut != [] ==> b == s.ext.states.rollingOut[0].bundle)
    case ListRevisions(content, list) => s.ext.Resolved? && IsListing(list, s.revs.Keys) && Generated(p, content)
    case ApplyInPlace => s.ext.Listed? && s.ext.list != []
    case NothingToApply => s.ext.Listed? && s.ext.list == []
    case CollectOne => s.ext.Collecting? && s.ext.index < |s.ext.list|
    case StartCreating => s.ext.Collecting? && s.ext.index == |s.ext.list|
    case CreateSecret => s.ext.Creating? && s.ext.created < |s.ext.pack.secrets|
    case CreateRevision => s.ext.Creating? && s.ext.created == |s.ext.pack.secrets|
    case PatchOwner(name) => s.ext.Owning? && name in s.ext.unowned && name in s.secrets
    case Abort => true
    case Get(n) => n in s.revs && n !in s.workers
    case EnsureFinalizer(n) =>
      IsReading(s, n) && Live(s.workers[n].read) && Unchanged(s.revs, n, s.workers[n].read)
    case RemoveFinalizer(n) =>
      IsReading(s, n) && !Live(s.workers[n].read) && Unchanged(s.revs, n, s.workers[n].read)
    case ListPrevious(n) => IsReading(s, n) && Live(s.workers[n].read) && s.workers[n].read.finalizer
    case ArchiveOne(n, r) => IsArchiving(s, n) && r in s.workers[n].todo && r in s.revs
    case Complete(n, _) => IsArchiving(s, n) && s.workers[n].todo == {}
    case Report(n, _) => IsReading(s, n) || IsArchiving(s, n)
    case UpdateStatus(n) => n in s.workers && s.workers[n].Reporting?
    case Crash(n) => n in s.workers
    case CollectSecret(name) =>
      name in s.secrets && s.secrets[name].owners != {} && s.secrets[name].owners !! s.revs.Keys
  }

  /** In-place apply of what was packed under the name of revision n; a failure to pack ends it. */
  function InPlace(s: State, n: nat, packed: Result<PackResult, PackError>): State
    requires s.ext.Listed?
  {
    var e := s.ext;
    match packed
    case Err(_) => s.(ext := Idle)
    case Ok(pack) =>
      var d := Desired(e.bundle, Prevent, Replaced(e.content, pack.refs), false);
      if ApplyRejected(s.revs, n, d)
      then s.(ext := Collecting(e.bundle, e.content, e.list, e.archived, 0))
      else s.(revs := Applied(s.revs, n, d), ext := Owning(n, UnownedSecrets(s.secrets, n)))
  }

  ghost function PackedFor(p: Params, n: nat, content: seq<Phase>): Result<PackResult, PackError> {
    Packed(p.codec, PackerFor(p, n), content)
  }

  ghost function DoApplyInPlace(p: Params, s: State): State
    requires s.ext.Listed? && s.ext.list != []
  {
    var n := s.ext.list[|s.ext.list| - 1];
    InPlace(s, n, PackedFor(p, n, s.ext.content))
  }

  /** Archived revisions beyond the five newest of the list are deleted. */
  function DoCollectOne(s: State): State
    requires s.ext.Collecting? && s.ext.index < |s.ext.list|
  {
    var e := s.ext;
    var n := e.list[e.index];
    var revs := if e.index < |e.list| - RETENTION_LIMIT && n in e.archived then Deleted(s.revs, n) else s.revs;
    s.(revs := revs, ext := e.(index := e.index + 1))
  }

  function Started(s: State, n: nat, packed: Result<PackResult, PackError>): State
    requires s.ext.Collecting?
  {
    var e := s.ext;
    match packed
    case Err(_) => s.(ext := Idle)
    case Ok(pack) =>
      s.(ext := Creating(e.bundle, e.list, e.archived, n, pack, Replaced(e.content, pack.refs), 0))
  }

  ghost function DoStartCreating(p: Params, s: State): State
    requires s.ext.Collecting? && s.ext.index == |s.ext.list|
  {
    var n := (if s.ext.list == [] then 0 else s.ext.list[|s.ext.list| - 1]) + 1;
    Started(s, n, PackedFor(p, n, s.ext.content))
  }

  /** A Secret that already exists is left as it is. */
  function DoCreateSecret(s: State): State
    requires s.ext.Creating? && s.ext.created < |s.ext.pack.secrets|
  {
    var e := s.ext;
    var secret := e.pack.secrets[e.created];
    var secrets := if secret.name in s.secrets then s.secrets
                   else s.secrets[secret.name := SecretObject(e.number, secret.data, {})];
    s.(secrets := secrets, ext := e.(created := e.created + 1))
  }

  function DoCreateRevision(s: State): State
    requires s.ext.Creating?
  {
    var e := s.ext;
    var d := Desired(e.bundle, Prevent, e.phases, false);
    if ApplyRejected(s.revs, e.number, d) then s.(ext := Idle)
    else s.(revs := Applied(s.revs, e.number, d), last := MaxNumber(s.last, e.number),
            ext := Owning(e.number, SecretNames(e.pack.secrets)))
  }

  function DoPatchOwner(s: State, name: string): State
    requires s.ext.Owning? && name in s.secrets
  {
    var secret := s.secrets[name];
    s.(secrets := s.secrets[name := secret.(owners := secret.owners + {s.ext.number})],
       ext := s.ext.(unowned := s.ext.unowned - {name}))
  }

  /** A status update is refused when the revision has changed since it was read. */
  function WithStatus(revs: Store, n: nat, read: Revision, succeeded: bool, conditions: int): Store {
    if Unchanged(revs, n, read)
    then revs[n := Bump(revs[n], revs[n].(succeeded := succeeded, conditions := conditions))]
    else revs
  }

  function DoUpdateStatus(s: State, n: nat): State
    requires n in s.workers && s.workers[n].Reporting?
  {
    var w := s.workers[n];
    s.(revs := WithStatus(s.revs, n, w.read, w.succeeded, w.conditions), workers := s.workers - {n})
  }

  function DoEnsureFinalizer(s: State, n: nat): State
    requires n in s.revs
  {
    var rev := Bump(s.revs[n], s.revs[n].(finalizer := true));
    s.(revs := s.revs[n := rev], workers := s.workers[n := Reading(rev)])
  }

  function DoArchiveOne(s: State, n: nat, r: nat): State
    requires IsArchiving(s, n) && r in s.revs
  {
    var w := s.workers[n];
    s.(revs := s.revs[r := Bump(s.revs[r], s.revs[r].(lifecycle := Archived))],
       workers := s.workers[n := w.(todo := w.todo - {r})])
  }

  ghost function Do(p: Params, s: State, step: Step): State
    requires Enabled(p, s, step)
  {
    match step
    case MigrateCreate(b, content) =>
      s.(revs := Applied(s.revs, 1, Desired(b, Unprotected, content, true)), last := MaxNumber(s.last, 1))
    case MigrateRead => s.(ext := MigrationRead(s.revs[1]))
    case MigrateReport =>
      s.(revs := WithStatus(s.revs, 1, s.ext.read, true, s.ext.read.conditions), ext := Idle)
    case ReadStates(list) => s.(ext := StatesRead(StatesOf(s.revs, list)))
    case Resolve(b) => s.(ext := Resolved(b))
    case ListRevisions(content, list) =>
      s.(ext := Listed(s.ext.bundle, content, list, set n | n in s.revs && s.revs[n].lifecycle.Archived?))
    case ApplyInPlace => DoApplyInPlace(p, s)
    case NothingToApply => s.(ext := Collecting(s.ext.bundle, s.ext.content, s.ext.list, s.ext.archived, 0))
    case CollectOne => DoCollectOne(s)
    case StartCreating => DoStartCreating(p, s)
    case CreateSecret => DoCreateSecret(s)
    case CreateRevision => DoCreateRevision(s)
    case PatchOwner(name) => DoPatchOwner(s, name)
    case Abort => s.(ext := Idle)
    case Get(n) => s.(workers := s.workers[n := Reading(s.revs[n])])
    case EnsureFinalizer(n) => DoEnsureFinalizer(s, n)
    case RemoveFinalizer(n) => s.(revs := WithoutFinalizer(s.revs, n), workers := s.workers - {n})
    case ListPrevious(n) =>
      s.(workers := s.workers[n := Archiving(s.workers[n].read, Previous(s.revs, n))])
    case ArchiveOne(n, r) => DoArchiveOne(s, n, r)
    case Complete(n, conditions) =>
      s.(workers := s.workers[n := Reporting(s.workers[n].read, true, conditions)])
    case Report(n, conditions) =>
      s.(workers := s.workers[n := Reporting(s.workers[n].read, s.workers[n].read.succeeded, conditions)])
    case UpdateStatus(n) => DoUpdateStatus(s, n)
    case Crash(n) => s.(workers := s.workers - {n})
    case CollectSecret(name) => s.(secrets := s.secrets - {name})
  }

  // ---------- runs ----------

  const INITIAL := State(map[], map[], 0, Idle, map[])

  ghost predicate Next(p: Params, s: State, s': State) {
    exists step :: Enabled(p, s, step) && s' == Do(p, s, step)
  }

  /** Every state of a run, from an extension without revisions. */
  ghost predicate IsRun(p: Params, run: seq<State>) {
    && run != [] && run[0] == INITIAL
    && forall i :: 0 < i < |run| ==> Next(p, run[i - 1], run[i])
  }

  /** The step that leads to state i + 1. */
  lemma StepOf(p: Params, run: seq<State>, i: nat) returns (step: Step)
    requires IsRun(p, run) && i + 1 < |run|
    ensures Enabled(p, run[i], step) && run[i + 1] == Do(p, run[i], step)
  {
    assert Next(p, run[i + 1 - 1], run[i + 1]);
    step :| Enabled(p, run[i], step) && run[i + 1] == Do(p, run[i], step);
  }

  /** A run goes on with any step that is enabled. */
  lemma Extend(p: Params, run: seq<State>, step: Step) returns (longer: seq<State>)
    requires IsRun(p, run) && Enabled(p, run[|run| - 1], step)
    ensures IsRun(p, longer) && run <= longer && |longer| == |run| + 1
    ensures longer[|run|] == Do(p, run[|run| - 1], step)
  {
    var s' := Do(p, run[|run| - 1], step);
    longer := run + [s'];
    assert Next(p, run[|run| - 1], s');
    forall i | 0 < i < |longer| ensures Next(p, longer[i - 1], longer[i]) {
      if i < |run| { assert longer[i] == run[i] && longer[i - 1] == run[i - 1]; }
    }
  }

  /** Steps of a revision's own reconciler. */
  predicate IsRevisionStep(step: Step) {
    || step.Get? || step.EnsureFinalizer? || step.RemoveFinalizer? || step.ListPrevious? || step.ArchiveOne?
    || step.Complete? || step.Report? || step.UpdateStatus? || step.Crash?
  }
}
