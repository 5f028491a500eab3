/**
  What every step of the rollout keeps about revision numbers, about archiving, and about
  what the reconcilers remember.
*/
module RolloutSuccession {
  import opened Wrappers
  import opened SecretPacker
  import opened Externalization
  import opened Revisions
  import opened Rollout

  // ---------- the invariant ----------

  /** Numbers never exceed the last one, which is live; only archived revisions are deleted. */
  ghost predicate Numbered(revs: Store, last: nat) {
    && (forall n :: n in revs ==> 1 <= n <= last)
    && (last > 0 ==> last in revs && Live(revs[last]))
    && (forall n :: n in revs && revs[n].deleting ==> revs[n].lifecycle.Archived?)
  }

  ghost predicate LowerArchived(revs: Store, n: nat) {
    forall r :: r in revs && r < n ==> revs[r].lifecycle.Archived?
  }

  /** A revision succeeds only after every lower-numbered one is archived. */
  ghost predicate Succession(revs: Store) {
    forall n :: n in revs && revs[n].succeeded ==> LowerArchived(revs, n)
  }

  /** Same resource version, same object. */
  ghost predicate Faithful(revs: Store, n: nat, read: Revision) {
    n in revs ==>
      && read.resourceVersion <= revs[n].resourceVersion
      && (read.resourceVersion == revs[n].resourceVersion ==> read == revs[n])
  }

  ghost predicate ArchivedExcept(revs: Store, n: nat, todo: set<nat>) {
    forall r :: r in revs && r < n ==> revs[r].lifecycle.Archived? || r in todo
  }

  ghost predicate WorkerOk(revs: Store, last: nat, n: nat, w: Worker) {
    && n <= last
    && Faithful(revs, n, w.read)
    && (w.read.succeeded ==> LowerArchived(revs, n))
    && match w
       case Reading(_) => true
       case Archiving(_, todo) => (forall r :: r in todo ==> r < n) && ArchivedExcept(revs, n, todo)
       case Reporting(read, succeeded, _) =>
         (read.succeeded ==> succeeded) && (succeeded ==> LowerArchived(revs, n))
  }

  ghost predicate WorkersOk(revs: Store, last: nat, workers: map<nat, Worker>) {
    forall n :: n in workers ==> WorkerOk(revs, last, n, workers[n])
  }

  /** A list made earlier in this reconcile still covers all revisions and ends in the last one. */
  ghost predicate ListCurrent(revs: Store, last: nat, list: seq<nat>) {
    && Ascending(list)
    && (forall n :: n in revs ==> n in list)
    && (forall n :: n in list ==> n >= 1)
    && (if list == [] then last == 0 else list[|list| - 1] == last)
  }

  ghost predicate ArchivedCurrent(revs: Store, last: nat, archived: set<nat>) {
    forall n :: n in archived ==> n < last && (n in revs ==> revs[n].lifecycle.Archived?)
  }

  ghost predicate ExtensionOk(revs: Store, last: nat, ext: Extension) {
    match ext
    case Idle => true
    case MigrationRead(read) => 1 <= last && Faithful(revs, 1, read)
    case StatesRead(_) => true
    case Resolved(_) => true
    case Listed(_, _, list, archived) => ListCurrent(revs, last, list) && ArchivedCurrent(revs, last, archived)
    case Collecting(_, _, list, archived, index) =>
      ListCurrent(revs, last, list) && ArchivedCurrent(revs, last, archived) && index <= |list|
    case Creating(_, list, archived, number, pack, _, created) =>
      && ListCurrent(revs, last, list) && ArchivedCurrent(revs, last, archived)
      && number == last + 1 && created <= |pack.secrets|
    case Owning(number, _) => 1 <= number <= last
  }

  ghost predicate Safe(s: State) {
    && Numbered(s.revs, s.last)
    && Succession(s.revs)
    && WorkersOk(s.revs, s.last, s.workers)
    && ExtensionOk(s.revs, s.last, s.ext)
  }

  // ---------- how the revisions may change in one step ----------

  /** A write to an existing revision: a new version, never un-archived, never un-succeeded. */
  ghost predicate Written(a: Revision, b: Revision) {
    || a == b
    || (&& b.resourceVersion > a.resourceVersion
        && (a.lifecycle.Archived? ==> b.lifecycle.Archived?)
        && (a.succeeded ==> b.succeeded))
  }

  /** No revision appears except with the next number. */
  ghost predicate Evolves(revs: Store, revs': Store, last: nat) {
    forall n :: n in revs' ==> if n in revs then Written(revs[n], revs'[n]) else n == last + 1
  }

  /** Replacing one revision by a written one that keeps it live if it is the last. */
  lemma PutKeepsSafe(s: State, n: nat, rev: Revision)
    requires Safe(s) && n in s.revs && Written(s.revs[n], rev)
    requires n == s.last ==> Live(rev)
    requires rev.deleting ==> rev.lifecycle.Archived?
    requires rev.succeeded && !s.revs[n].succeeded ==> LowerArchived(s.revs, n)
    ensures Safe(s.(revs := s.revs[n := rev]))
  {}

  lemma RemoveKeepsSafe(s: State, n: nat)
    requires Safe(s) && n != s.last
    ensures Safe(s.(revs := s.revs - {n}))
  {}

  lemma WithWorker(s: State, n: nat, w: Worker)
    requires Safe(s) && WorkerOk(s.revs, s.last, n, w)
    ensures Safe(s.(workers := s.workers[n := w]))
  {}

  lemma WithoutWorker(s: State, n: nat)
    requires Safe(s)
    ensures Safe(s.(workers := s.workers - {n}))
  {}

  lemma WithExtension(s: State, ext: Extension)
    requires Safe(s) && ExtensionOk(s.revs, s.last, ext)
    ensures Safe(s.(ext := ext))
  {}

  // ---------- the steps ----------

  /** Creating revision last + 1 by server-side apply. */
  lemma CreateKeepsSafe(s: State, n: nat, d: Desired)
    requires Safe(s) && n == s.last + 1
    ensures n !in s.revs
    ensures Safe(s.(revs := Applied(s.revs, n, d), last := n, ext := Idle))
  {}

  lemma ListedTargetsLast(s: State)
    requires ExtensionOk(s.revs, s.last, s.ext) && Numbered(s.revs, s.last) && s.ext.Listed? && s.ext.list != []
    ensures s.last in s.revs && s.ext.list[|s.ext.list| - 1] == s.last && Live(s.revs[s.last])
  {
    assert s.ext.list[|s.ext.list| - 1] in s.ext.list;
  }

  /** In-place apply targets the last revision and either is accepted or changes no revision. */
  lemma ApplyInPlaceCases(p: Params, s: State) returns (n: nat, d: Desired)
    requires ExtensionOk(s.revs, s.last, s.ext) && Numbered(s.revs, s.last) && Enabled(p, s, ApplyInPlace)
    ensures n == s.last && n in s.revs
    ensures var s' := Do(p, s, ApplyInPlace);
            && s'.secrets == s.secrets && s'.last == s.last && s'.workers == s.workers
            && d.bundle == s.ext.bundle && d.protection.Prevent?
            && (s'.ext.Owning? ==> && Accepts(s.revs[n], d) && s'.revs == Applied(s.revs, n, d)
                                   && s'.ext == Owning(n, UnownedSecrets(s.secrets, n)))
            && (!s'.ext.Owning? ==> && s'.revs == s.revs
                                    && (s'.ext.Idle? || (s'.ext.Collecting? && s'.ext.content == s.ext.content)))
  {
    ListedTargetsLast(s);
    n := s.last;
    var packed := PackedFor(p, n, s.ext.content);
    d := if packed.Ok? then Desired(s.ext.bundle, Prevent, Replaced(s.ext.content, packed.value.refs), false)
         else Desired(s.ext.bundle, Prevent, [], false);
  }

  lemma AcceptedKeepsSafe(s: State, d: Desired, unowned: set<string>)
    requires Safe(s) && s.last in s.revs && Accepts(s.revs[s.last], d)
    ensures Safe(s.(revs := Applied(s.revs, s.last, d), ext := Owning(s.last, unowned)))
  {
    var revs := Applied(s.revs, s.last, d);
    PutKeepsSafe(s, s.last, revs[s.last]);
    WithExtension(s.(revs := revs), Owning(s.last, unowned));
  }

  lemma RejectedKeepsSafe(s: State)
    requires Safe(s) && s.ext.Listed?
    ensures Safe(s.(ext := Idle))
    ensures Safe(s.(ext := Collecting(s.ext.bundle, s.ext.content, s.ext.list, s.ext.archived, 0)))
  {}

  lemma InPlaceKeepsSafe(s: State, packed: Result<PackResult, PackError>)
    requires Safe(s) && s.ext.Listed? && s.last in s.revs
    ensures Safe(InPlace(s, s.last, packed))
  {
    RejectedKeepsSafe(s);
    if packed.Ok? {
      var d := Desired(s.ext.bundle, Prevent, Replaced(s.ext.content, packed.value.refs), false);
      if Accepts(s.revs[s.last], d) {
        AcceptedKeepsSafe(s, d, UnownedSecrets(s.secrets, s.last));
      }
    }
  }

  lemma ApplyInPlaceKeepsSafe(p: Params, s: State)
    requires Safe(s) && Enabled(p, s, ApplyInPlace)
    ensures Safe(Do(p, s, ApplyInPlace))
  {
    ListedTargetsLast(s);
    InPlaceKeepsSafe(s, PackedFor(p, s.last, s.ext.content));
  }

  lemma CollectOneKeepsSafe(s: State)
    requires Safe(s) && s.ext.Collecting? && s.ext.index < |s.ext.list|
    ensures Safe(DoCollectOne(s))
  {
    var s' := DoCollectOne(s);
    var n := s.ext.list[s.ext.index];
    if n in s.ext.archived && n in s.revs {
      if s.revs[n].finalizer {
        PutKeepsSafe(s, n, Bump(s.revs[n], s.revs[n].(deleting := true)));
      } else {
        RemoveKeepsSafe(s, n);
      }
    }
    assert Safe(s.(revs := s'.revs));
    WithExtension(s.(revs := s'.revs), s'.ext);
  }

  lemma IsListingIsCurrent(revs: Store, last: nat, list: seq<nat>)
    requires Numbered(revs, last) && IsListing(list, revs.Keys)
    ensures ListCurrent(revs, last, list)
  {
    if list == [] {
      assert last !in list;
    } else {
      var m := list[|list| - 1];
      assert m in list;
      assert last in list;
      var i :| 0 <= i < |list| && list[i] == last;
    }
  }

  lemma WithStatusKeepsSafe(s: State, n: nat, read: Revision, succeeded: bool, conditions: int)
    requires Safe(s) && Faithful(s.revs, n, read)
    requires read.succeeded ==> succeeded
    requires succeeded ==> LowerArchived(s.revs, n)
    ensures Safe(s.(revs := WithStatus(s.revs, n, read, succeeded, conditions)))
  {
    if Unchanged(s.revs, n, read) {
      PutKeepsSafe(s, n, Bump(s.revs[n], s.revs[n].(succeeded := succeeded, conditions := conditions)));
    }
  }

  lemma CreationKeepsSafe(p: Params, s: State, step: Step)
    requires Safe(s) && Enabled(p, s, step) && (step.MigrateCreate? || step.CreateRevision?)
    ensures Safe(Do(p, s, step))
  {
    var s' := Do(p, s, step);
    if step.MigrateCreate? {
      assert s.last == 0;
      CreateKeepsSafe(s, 1, Desired(step.bundle, Unprotected, step.content, true));
    } else {
      CreateKeepsSafe(s, s.ext.number, Desired(s.ext.bundle, Prevent, s.ext.phases, false));
      WithExtension(s'.(ext := Idle), s'.ext);
    }
  }

  lemma MigrateReportKeepsSafe(p: Params, s: State)
    requires Safe(s) && Enabled(p, s, MigrateReport)
    ensures Safe(Do(p, s, MigrateReport))
  {}

  lemma StartCreatingKeepsSafe(p: Params, s: State)
    requires Safe(s) && Enabled(p, s, StartCreating)
    ensures Safe(Do(p, s, StartCreating)) && Do(p, s, StartCreating).revs == s.revs
  {
    var ext := DoStartCreating(p, s).ext;
    assert ext.Idle? || ExtensionOk(s.revs, s.last, ext);
    WithExtension(s, ext);
  }

  ghost predicate IsMove(step: Step) {
    && !IsRevisionStep(step) && !step.ApplyInPlace? && !step.CollectOne? && !step.MigrateCreate?
    && !step.CreateRevision? && !step.MigrateReport? && !step.StartCreating?
  }

  /** The remaining steps leave revisions and workers alone. */
  lemma MoveKeepsSafe(p: Params, s: State, step: Step)
    requires Safe(s) && Enabled(p, s, step) && IsMove(step)
    ensures Safe(Do(p, s, step)) && Do(p, s, step).revs == s.revs
  {
    if step.ListRevisions? {
      IsListingIsCurrent(s.revs, s.last, step.listing);
    }
  }

  lemma EnsureFinalizerKeepsSafe(p: Params, s: State, n: nat)
    requires Safe(s) && Enabled(p, s, EnsureFinalizer(n))
    ensures Safe(DoEnsureFinalizer(s, n))
  {
    var rev := Bump(s.revs[n], s.revs[n].(finalizer := true));
    PutKeepsSafe(s, n, rev);
    var s1 := s.(revs := s.revs[n := rev]);
    assert WorkerOk(s1.revs, s1.last, n, s1.workers[n]);
    WithWorker(s1, n, Reading(rev));
  }

  lemma RemoveFinalizerKeepsSafe(p: Params, s: State, n: nat)
    requires Safe(s) && Enabled(p, s, RemoveFinalizer(n))
    ensures Safe(Do(p, s, RemoveFinalizer(n)))
  {
    assert WorkerOk(s.revs, s.last, n, s.workers[n]);
    assert s.revs[n] == s.workers[n].read;
    assert n != s.last;
    if s.revs[n].deleting {
      RemoveKeepsSafe(s, n);
    } else {
      PutKeepsSafe(s, n, Bump(s.revs[n], s.revs[n].(finalizer := false)));
    }
    WithoutWorker(s.(revs := WithoutFinalizer(s.revs, n)), n);
  }

  lemma ListPreviousKeepsSafe(p: Params, s: State, n: nat)
    requires Safe(s) && Enabled(p, s, ListPrevious(n))
    ensures Safe(Do(p, s, ListPrevious(n)))
  {}

  lemma ArchiveOneKeepsSafe(p: Params, s: State, n: nat, r: nat)
    requires Safe(s) && Enabled(p, s, ArchiveOne(n, r))
    ensures Safe(DoArchiveOne(s, n, r))
  {
    var w := s.workers[n];
    assert WorkerOk(s.revs, s.last, n, w);
    var rev := Bump(s.revs[r], s.revs[r].(lifecycle := Archived));
    PutKeepsSafe(s, r, rev);
    var s1 := s.(revs := s.revs[r := rev]);
    assert WorkerOk(s1.revs, s1.last, n, w);
    WithWorker(s1, n, w.(todo := w.todo - {r}));
  }

  lemma ReportingKeepsSafe(p: Params, s: State, step: Step)
    requires Safe(s) && Enabled(p, s, step)
    requires step.Complete? || step.Report? || step.UpdateStatus? || step.Get?
    ensures Safe(Do(p, s, step))
  {
    var n := step.n;
    if step.Get? {
      WithWorker(s, n, Reading(s.revs[n]));
    } else {
      var w := s.workers[n];
      assert WorkerOk(s.revs, s.last, n, w);
      if step.Complete? {
        WithWorker(s, n, Reporting(w.read, true, step.reported));
      } else if step.Report? {
        WithWorker(s, n, Reporting(w.read, w.read.succeeded, step.reported));
      } else {
        WithStatusKeepsSafe(s, n, w.read, w.succeeded, w.conditions);
        WithoutWorker(s.(revs := Do(p, s, step).revs), n);
      }
    }
  }

  lemma RevisionStepKeepsSafe(p: Params, s: State, step: Step)
    requires Safe(s) && Enabled(p, s, step) && IsRevisionStep(step)
    ensures Safe(Do(p, s, step))
  {
    if step.EnsureFinalizer? {
      EnsureFinalizerKeepsSafe(p, s, step.n);
    } else if step.RemoveFinalizer? {
      RemoveFinalizerKeepsSafe(p, s, step.n);
    } else if step.ListPrevious? {
      ListPreviousKeepsSafe(p, s, step.n);
    } else if step.ArchiveOne? {
      ArchiveOneKeepsSafe(p, s, step.n, step.previous);
    } else if step.Crash? {
      WithoutWorker(s, step.n);
    } else {
      ReportingKeepsSafe(p, s, step);
    }
  }

  lemma StepKeepsSafe(p: Params, s: State, step: Step)
    requires Safe(s) && Enabled(p, s, step)
    ensures Safe(Do(p, s, step))
  {
    if IsRevisionStep(step) {
      RevisionStepKeepsSafe(p, s, step);
    } else if step.ApplyInPlace? {
      ApplyInPlaceKeepsSafe(p, s);
    } else if step.CollectOne? {
      CollectOneKeepsSafe(s);
    } else if step.MigrateCreate? || step.CreateRevision? {
      CreationKeepsSafe(p, s, step);
    } else if step.MigrateReport? {
      MigrateReportKeepsSafe(p, s);
    } else if step.StartCreating? {
      StartCreatingKeepsSafe(p, s);
    } else {
      MoveKeepsSafe(p, s, step);
    }
  }

  lemma {:induction false} RunIsSafe(p: Params, run: seq<State>, i: nat)
    requires IsRun(p, run) && i < |run|
    ensures Safe(run[i])
  {
    if i > 0 {
      RunIsSafe(p, run, i - 1);
      var step := StepOf(p, run, i - 1);
      StepKeepsSafe(p, run[i - 1], step);
    }
  }

  // ---------- what one step does to the revisions ----------

  lemma StatusEvolves(s: State, n: nat, read: Revision, succeeded: bool, conditions: int)
    requires Faithful(s.revs, n, read) && (read.succeeded ==> succeeded)
    ensures Evolves(s.revs, WithStatus(s.revs, n, read, succeeded, conditions), s.last)
  {}

  lemma AppliedEvolves(revs: Store, last: nat, n: nat, d: Desired)
    requires n in revs || n == last + 1
    ensures Evolves(revs, Applied(revs, n, d), last)
  {}

  lemma CreationEvolves(p: Params, s: State, step: Step)
    requires Safe(s) && Enabled(p, s, step)
    requires step.MigrateCreate? || step.ApplyInPlace? || step.CreateRevision?
    ensures Evolves(s.revs, Do(p, s, step).revs, s.last) && s.last <= Do(p, s, step).last
  {
    if step.ApplyInPlace? {
      var n, d := ApplyInPlaceCases(p, s);
      AppliedEvolves(s.revs, s.last, n, d);
    } else if step.CreateRevision? {
      AppliedEvolves(s.revs, s.last, s.ext.number, Desired(s.ext.bundle, Prevent, s.ext.phases, false));
    } else {
      assert s.last == 0;
    }
  }

  lemma RevisionStepEvolves(p: Params, s: State, step: Step)
    requires Safe(s) && Enabled(p, s, step) && IsRevisionStep(step)
    ensures Evolves(s.revs, Do(p, s, step).revs, s.last) && s.last == Do(p, s, step).last
  {}

  /** In every step: no un-archiving, no un-succeeding, and no new number but the next one. */
  lemma StepEvolves(p: Params, s: State, step: Step)
    requires Safe(s) && Enabled(p, s, step)
    ensures Evolves(s.revs, Do(p, s, step).revs, s.last) && s.last <= Do(p, s, step).last
  {
    if IsRevisionStep(step) {
      RevisionStepEvolves(p, s, step);
    } else if step.MigrateCreate? || step.ApplyInPlace? || step.CreateRevision? {
      CreationEvolves(p, s, step);
    } else if step.MigrateReport? {
      StatusEvolves(s, 1, s.ext.read, true, s.ext.read.conditions);
    } else if IsMove(step) {
      MoveKeepsSafe(p, s, step);
    }
  }

  /** Bundle, phases and protection of every revision are as before, and none is new. */
  ghost predicate SameContent(revs: Store, revs': Store) {
    forall n :: n in revs' ==>
      && n in revs && revs'[n].bundle == revs[n].bundle
      && revs'[n].phases == revs[n].phases && revs'[n].protection == revs[n].protection
  }

  lemma PutKeepsContent(revs: Store, n: nat, rev: Revision)
    requires n in revs && rev.bundle == revs[n].bundle && rev.phases == revs[n].phases
    requires rev.protection == revs[n].protection
    ensures SameContent(revs, revs[n := rev])
  {}

  predicate WritesRevision(step: Step) {
    step.EnsureFinalizer? || step.RemoveFinalizer? || step.ArchiveOne? || step.UpdateStatus?
  }

  lemma WriteKeepsContent(p: Params, s: State, step: Step)
    requires Enabled(p, s, step) && WritesRevision(step)
    ensures SameContent(s.revs, Do(p, s, step).revs)
  {
    if step.EnsureFinalizer? {
      PutKeepsContent(s.revs, step.n, Bump(s.revs[step.n], s.revs[step.n].(finalizer := true)));
    } else if step.ArchiveOne? {
      var r := step.previous;
      PutKeepsContent(s.revs, r, Bump(s.revs[r], s.revs[r].(lifecycle := Archived)));
    }
  }

  lemma RevisionStepKeepsContent(p: Params, s: State, step: Step)
    requires Enabled(p, s, step) && IsRevisionStep(step)
    ensures SameContent(s.revs, Do(p, s, step).revs)
  {
    if WritesRevision(step) {
      WriteKeepsContent(p, s, step);
    }
  }

  lemma QuietStepKeepsRevisions(p: Params, s: State, step: Step)
    requires Enabled(p, s, step) && !IsRevisionStep(step)
    requires !step.MigrateCreate? && !step.ApplyInPlace? && !step.CreateRevision?
    requires !step.CollectOne? && !step.MigrateReport?
    ensures Do(p, s, step).revs == s.revs
  {}

  lemma StepKeepsContent(p: Params, s: State, step: Step)
    requires Enabled(p, s, step)
    requires !step.MigrateCreate? && !step.ApplyInPlace? && !step.CreateRevision?
    ensures SameContent(s.revs, Do(p, s, step).revs)
  {
    if IsRevisionStep(step) {
      RevisionStepKeepsContent(p, s, step);
    } else if !step.CollectOne? && !step.MigrateReport? {
      QuietStepKeepsRevisions(p, s, step);
    }
  }
}
