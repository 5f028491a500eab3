/**
  What the reconcilers can always still achieve: from every state of every run, some
  continuation gets a rendered bundle into the latest revision, has all its Secrets owned,
  archives every predecessor and reports success; and an archived revision can go.
*/
module RolloutProgress {
  import opened Wrappers
  import opened Objects
  import opened SecretPacker
  import opened SecretPackerProperties
  import opened Externalization
  import opened ExternalizationTheorems
  import opened Revisions
  import opened Rollout
  import opened RolloutSuccession
  import opened RolloutBundles
  import opened RolloutSecrets

  ghost function Last(run: seq<State>): State
    requires run != []
  {
    run[|run| - 1]
  }

  // ---------- reporting ----------

  /**
    A status update on a revision that is as it was read writes what was reported, and nothing
    else; on one that has changed since, it writes nothing.
  */
  lemma UpdateStatusWrites(p: Params, s: State, n: nat)
    requires Enabled(p, s, UpdateStatus(n))
    ensures var w, revs' := s.workers[n], Do(p, s, UpdateStatus(n)).revs;
            && revs'.Keys == s.revs.Keys
            && (forall m :: m in s.revs && m != n ==> revs'[m] == s.revs[m])
            && (n in s.revs && s.revs[n].resourceVersion == w.read.resourceVersion ==>
                  && revs'[n].succeeded == w.succeeded && revs'[n].conditions == w.conditions
                  && revs'[n].lifecycle == s.revs[n].lifecycle && revs'[n].phases == s.revs[n].phases
                  && revs'[n].bundle == s.revs[n].bundle && revs'[n].finalizer == s.revs[n].finalizer
                  && revs'[n].deleting == s.revs[n].deleting)
            && (n in s.revs && s.revs[n].resourceVersion != w.read.resourceVersion ==> revs'[n] == s.revs[n])
  {}

  /** The reconciler of n has just read it, with its finalizer in place. */
  ghost predicate JustRead(s: State, n: nat) {
    n in s.revs && s.revs[n].finalizer && n in s.workers && s.workers[n] == Reading(s.revs[n])
  }

  /** What the steps of a revision's reconciler leave alone. */
  ghost predicate Undisturbed(s: State, s': State) {
    SameContent(s.revs, s'.revs) && s'.revs.Keys == s.revs.Keys && s'.secrets == s.secrets && s'.last == s.last
  }

  /** A worker that is under way can be dropped, and the revision be read afresh. */
  lemma CanGet(p: Params, run: seq<State>, n: nat) returns (longer: seq<State>)
    requires IsRun(p, run) && n in Last(run).revs
    ensures IsRun(p, longer) && run <= longer
    ensures Last(longer) == Last(run).(workers := Last(run).workers[n := Reading(Last(run).revs[n])])
  {
    longer := run;
    if n in Last(run).workers {
      longer := Extend(p, longer, Crash(n));
    }
    longer := Extend(p, longer, Get(n));
    assert Last(longer).workers == Last(run).workers[n := Reading(Last(run).revs[n])];
  }

  lemma ReadingUndisturbed(s: State, n: nat)
    requires n in s.revs
    ensures Undisturbed(s, s.(workers := s.workers[n := Reading(s.revs[n])]))
  {}

  lemma EnsureFinalizerReads(p: Params, s: State, n: nat)
    requires n in s.revs && Live(s.revs[n]) && n in s.workers && s.workers[n] == Reading(s.revs[n])
    ensures Enabled(p, s, EnsureFinalizer(n))
    ensures var s' := Do(p, s, EnsureFinalizer(n));
            JustRead(s', n) && Live(s'.revs[n]) && Undisturbed(s, s')
  {}

  lemma CanEnsure(p: Params, run: seq<State>, n: nat) returns (longer: seq<State>)
    requires IsRun(p, run) && n in Last(run).revs && Live(Last(run).revs[n])
    requires n in Last(run).workers && Last(run).workers[n] == Reading(Last(run).revs[n])
    ensures IsRun(p, longer) && run <= longer && JustRead(Last(longer), n) && Live(Last(longer).revs[n])
    ensures Undisturbed(Last(run), Last(longer))
  {
    EnsureFinalizerReads(p, Last(run), n);
    longer := Extend(p, run, EnsureFinalizer(n));
  }

  lemma CanRead(p: Params, run: seq<State>, n: nat) returns (longer: seq<State>)
    requires IsRun(p, run) && n in Last(run).revs && Live(Last(run).revs[n])
    ensures IsRun(p, longer) && run <= longer && JustRead(Last(longer), n) && Live(Last(longer).revs[n])
    ensures Undisturbed(Last(run), Last(longer))
  {
    var got := CanGet(p, run, n);
    ReadingUndisturbed(Last(run), n);
    longer := CanEnsure(p, got, n);
    UndisturbedTwice(Last(run), Last(got), Last(longer));
  }

  /** The reconciler of n has the listed revisions left to archive, and n is as it was read. */
  ghost predicate Midway(s: State, n: nat) {
    && n in s.revs && Live(s.revs[n]) && IsArchiving(s, n) && s.workers[n].read == s.revs[n]
    && (forall r :: r in s.workers[n].todo ==> r in s.revs && r < n)
    && ArchivedExcept(s.revs, n, s.workers[n].todo)
  }

  lemma ListPreviousMidway(p: Params, s: State, n: nat)
    requires Safe(s) && JustRead(s, n) && Live(s.revs[n])
    ensures Enabled(p, s, ListPrevious(n)) && Midway(Do(p, s, ListPrevious(n)), n)
    ensures Undisturbed(s, Do(p, s, ListPrevious(n)))
  {}

  lemma ArchiveOneMidway(p: Params, s: State, n: nat, r: nat)
    requires Midway(s, n) && r in s.workers[n].todo
    ensures Enabled(p, s, ArchiveOne(n, r)) && Midway(Do(p, s, ArchiveOne(n, r)), n)
    ensures Undisturbed(s, Do(p, s, ArchiveOne(n, r)))
    ensures Do(p, s, ArchiveOne(n, r)).workers[n].todo == s.workers[n].todo - {r}
  {}

  lemma {:induction false} CanArchiveAll(p: Params, run: seq<State>, n: nat) returns (longer: seq<State>)
    requires IsRun(p, run) && Midway(Last(run), n)
    ensures IsRun(p, longer) && run <= longer && Midway(Last(longer), n) && Last(longer).workers[n].todo == {}
    ensures Undisturbed(Last(run), Last(longer))
    decreases |Last(run).workers[n].todo|
  {
    if Last(run).workers[n].todo == {} {
      longer := run;
    } else {
      var r :| r in Last(run).workers[n].todo;
      ArchiveOneMidway(p, Last(run), n, r);
      var next := Extend(p, run, ArchiveOne(n, r));
      longer := CanArchiveAll(p, next, n);
    }
  }

  /** Revision n is live and has succeeded, and everything below it is archived. */
  ghost predicate Succeeded(revs: Store, n: nat) {
    && n in revs && revs[n].lifecycle.Active? && !revs[n].deleting && revs[n].succeeded
    && forall m :: m in revs && m < n ==> revs[m].lifecycle.Archived?
  }

  lemma CompleteReports(p: Params, s: State, n: nat)
    requires Midway(s, n) && s.workers[n].todo == {}
    ensures Enabled(p, s, Complete(n, 0))
    ensures Do(p, s, Complete(n, 0)) == s.(workers := s.workers[n := Reporting(s.revs[n], true, 0)])
  {}

  lemma ReportSucceeds(p: Params, s: State, n: nat)
    requires n in s.revs && Live(s.revs[n]) && ArchivedExcept(s.revs, n, {})
    requires n in s.workers && s.workers[n] == Reporting(s.revs[n], true, 0)
    ensures Enabled(p, s, UpdateStatus(n)) && Succeeded(Do(p, s, UpdateStatus(n)).revs, n)
    ensures Undisturbed(s, Do(p, s, UpdateStatus(n)))
  {
    UpdateStatusWrites(p, s, n);
  }

  lemma CanComplete(p: Params, run: seq<State>, n: nat) returns (longer: seq<State>)
    requires IsRun(p, run) && Midway(Last(run), n) && Last(run).workers[n].todo == {}
    ensures IsRun(p, longer) && run <= longer && Succeeded(Last(longer).revs, n)
    ensures Undisturbed(Last(run), Last(longer))
  {
    CompleteReports(p, Last(run), n);
    longer := Extend(p, run, Complete(n, 0));
    ReportSucceeds(p, Last(longer), n);
    longer := Extend(p, longer, UpdateStatus(n));
  }

  lemma UndisturbedTwice(s: State, s1: State, s2: State)
    requires Undisturbed(s, s1) && Undisturbed(s1, s2)
    ensures Undisturbed(s, s2)
  {}

  lemma CanList(p: Params, run: seq<State>, n: nat) returns (longer: seq<State>)
    requires IsRun(p, run) && n in Last(run).revs && Live(Last(run).revs[n])
    ensures IsRun(p, longer) && run <= longer && Midway(Last(longer), n) && Undisturbed(Last(run), Last(longer))
  {
    var ready := CanRead(p, run, n);
    RunIsSafe(p, ready, |ready| - 1);
    ListPreviousMidway(p, Last(ready), n);
    longer := Extend(p, ready, ListPrevious(n));
    UndisturbedTwice(Last(run), Last(ready), Last(longer));
  }

  /**
    From every state of every run, the reconciler of the highest revision can bring it to
    success, with every predecessor archived.
  */
  lemma HighestCanSucceed(p: Params, run: seq<State>, n: nat) returns (longer: seq<State>)
    requires IsRun(p, run) && n in Last(run).revs && forall m :: m in Last(run).revs ==> m <= n
    ensures IsRun(p, longer) && run <= longer && Succeeded(Last(longer).revs, n)
    ensures Undisturbed(Last(run), Last(longer))
  {
    RunIsSafe(p, run, |run| - 1);
    var listed := CanList(p, run, n);
    var archived := CanArchiveAll(p, listed, n);
    longer := CanComplete(p, archived, n);
    UndisturbedTwice(Last(run), Last(listed), Last(archived));
    UndisturbedTwice(Last(run), Last(archived), Last(longer));
  }

  // ---------- letting go ----------

  /** An archived revision can lose its finalizer, and one that is being deleted is then gone. */
  lemma ArchivedCanGo(p: Params, run: seq<State>, n: nat) returns (longer: seq<State>)
    requires IsRun(p, run) && n in Last(run).revs && !Live(Last(run).revs[n])
    ensures IsRun(p, longer) && run <= longer
    ensures if Last(run).revs[n].deleting then Last(longer).revs == Last(run).revs - {n}
            else n in Last(longer).revs && !Last(longer).revs[n].finalizer
  {
    longer := CanGet(p, run, n);
    longer := Extend(p, longer, RemoveFinalizer(n));
  }

  // ---------- applying a bundle ----------

  /** All revisions that are rolling out carry this bundle. */
  ghost predicate MayApply(revs: Store, b: Bundle) {
    forall m :: IsRollingOut(revs, m) ==> revs[m].bundle == b
  }

  /** Every object of the content can be stored. */
  ghost predicate Storable(p: Params, content: seq<Phase>) {
    forall pos :: ValidPos(content, pos) && At(content, pos).inline.Some? ==>
      Encode(p.codec, Entry(pos, At(content, pos).inline.value)).Ok?
  }

  lemma StorablePacks(p: Params, content: seq<Phase>, n: nat)
    requires Storable(p, content)
    ensures PackedFor(p, n, content).Ok?
  {
    PackFailsExactly(p.codec, PackerFor(p, n), content);
  }

  lemma ResolveEnabled(p: Params, s: State, b: Bundle, list: seq<nat>)
    requires MayApply(s.revs, b) && IsListing(list, s.revs.Keys)
    ensures Enabled(p, s.(ext := StatesRead(StatesOf(s.revs, list))), Resolve(b))
  {
    var rs := StatesOf(s.revs, list);
    if rs.rollingOut != [] {
      RollingOutExact(s.revs, list, 0);
      assert rs.rollingOut[0] in rs.rollingOut;
    }
  }

  /** The reconciler of the extension can get from anywhere to where it has listed the revisions. */
  lemma CanListFor(p: Params, run: seq<State>, b: Bundle, content: seq<Phase>) returns (longer: seq<State>)
    requires IsRun(p, run) && MayApply(Last(run).revs, b) && Generated(p, content)
    ensures IsRun(p, longer) && run <= longer
    ensures Last(longer).ext.Listed? && Last(longer).ext.bundle == b && Last(longer).ext.content == content
    ensures Last(longer) == Last(run).(ext := Last(longer).ext)
  {
    var list := ListingExists(Last(run).revs.Keys);
    var idle := Extend(p, run, Abort);
    var read := Extend(p, idle, ReadStates(list));
    ResolveEnabled(p, Last(idle), b, list);
    var resolved := Extend(p, read, Resolve(b));
    longer := Extend(p, resolved, ListRevisions(content, list));
  }

  lemma CollectOneMoves(p: Params, s: State)
    requires Enabled(p, s, CollectOne)
    ensures Do(p, s, CollectOne).ext == s.ext.(index := s.ext.index + 1) && Do(p, s, CollectOne).secrets == s.secrets
  {}

  lemma {:induction false} CanCollect(p: Params, run: seq<State>) returns (longer: seq<State>)
    requires IsRun(p, run) && Last(run).ext.Collecting? && Last(run).ext.index <= |Last(run).ext.list|
    ensures IsRun(p, longer) && run <= longer
    ensures Last(longer).ext == Last(run).ext.(index := |Last(run).ext.list|)
    decreases |Last(run).ext.list| - Last(run).ext.index
  {
    if Last(run).ext.index == |Last(run).ext.list| {
      longer := run;
    } else {
      CollectOneMoves(p, Last(run));
      var next := Extend(p, run, CollectOne);
      longer := CanCollect(p, next);
    }
  }

  lemma CreateSecretMoves(p: Params, s: State)
    requires Enabled(p, s, CreateSecret)
    ensures Do(p, s, CreateSecret).ext == s.ext.(created := s.ext.created + 1)
  {}

  lemma {:induction false} CanCreateSecrets(p: Params, run: seq<State>) returns (longer: seq<State>)
    requires IsRun(p, run) && Last(run).ext.Creating? && Last(run).ext.created <= |Last(run).ext.pack.secrets|
    ensures IsRun(p, longer) && run <= longer
    ensures Last(longer).ext == Last(run).ext.(created := |Last(run).ext.pack.secrets|)
    decreases |Last(run).ext.pack.secrets| - Last(run).ext.created
  {
    if Last(run).ext.created == |Last(run).ext.pack.secrets| {
      longer := run;
    } else {
      CreateSecretMoves(p, Last(run));
      var next := Extend(p, run, CreateSecret);
      longer := CanCreateSecrets(p, next);
    }
  }

  /** The latest revision is live, carries the bundle, and has the phases packed from the content. */
  ghost predicate Carries(p: Params, s: State, n: nat, b: Bundle, content: seq<Phase>) {
    && n in s.revs && (forall m :: m in s.revs ==> m <= n) && s.revs[n].lifecycle.Active? && !s.revs[n].deleting
    && s.revs[n].bundle == b && s.revs[n].protection.Prevent? && PackedFrom(p, n, s.revs[n].phases, content)
  }

  lemma CreateRevisionCarries(p: Params, s: State, b: Bundle, content: seq<Phase>)
    requires Safe(s) && Enabled(p, s, CreateRevision) && s.ext.bundle == b
    requires PackedFrom(p, s.ext.number, s.ext.phases, content)
    ensures Carries(p, Do(p, s, CreateRevision), s.last + 1, b, content)
  {}

  lemma StartCreatingPlans(p: Params, s: State, content: seq<Phase>)
    requires Safe(s) && s.ext.Collecting? && s.ext.index == |s.ext.list| && s.ext.content == content
    requires Generated(p, content) && Storable(p, content)
    ensures Enabled(p, s, StartCreating)
    ensures var ext := Do(p, s, StartCreating).ext;
            && ext.Creating? && ext.bundle == s.ext.bundle && ext.created == 0
            && PackedFrom(p, ext.number, ext.phases, content)
  {
    StorablePacks(p, content, (if s.ext.list == [] then 0 else s.ext.list[|s.ext.list| - 1]) + 1);
  }

  /** Collecting old revisions and creating the new one. */
  lemma CanCreate(p: Params, run: seq<State>, b: Bundle, content: seq<Phase>)
    returns (longer: seq<State>, n: nat)
    requires IsRun(p, run) && Last(run).ext.Collecting? && Last(run).ext.bundle == b && Last(run).ext.content == content
    requires Generated(p, content) && Storable(p, content)
    ensures IsRun(p, longer) && run <= longer && Carries(p, Last(longer), n, b, content)
  {
    RunIsSafe(p, run, |run| - 1);
    var collected := CanCollect(p, run);
    RunIsSafe(p, collected, |collected| - 1);
    StartCreatingPlans(p, Last(collected), content);
    var started := Extend(p, collected, StartCreating);
    longer := CanCreateRevision(p, started, b, content);
    n := Last(longer).last;
  }

  lemma CanCreateRevision(p: Params, run: seq<State>, b: Bundle, content: seq<Phase>) returns (longer: seq<State>)
    requires IsRun(p, run) && Last(run).ext.Creating? && Last(run).ext.created == 0 && Last(run).ext.bundle == b
    requires PackedFrom(p, Last(run).ext.number, Last(run).ext.phases, content)
    ensures IsRun(p, longer) && run <= longer && Carries(p, Last(longer), Last(longer).last, b, content)
  {
    var filled := CanCreateSecrets(p, run);
    RunIsSafe(p, filled, |filled| - 1);
    CreateRevisionCarries(p, Last(filled), b, content);
    longer := Extend(p, filled, CreateRevision);
  }

  /** An in-place apply is accepted, and then the latest revision carries the content, or it is not. */
  lemma ApplyInPlaceCarries(p: Params, s: State, b: Bundle, content: seq<Phase>)
    requires Safe(s) && Enabled(p, s, ApplyInPlace) && s.ext.bundle == b && s.ext.content == content
    requires Generated(p, content) && Storable(p, content)
    ensures var s' := Do(p, s, ApplyInPlace);
            || (s'.ext.Owning? && Carries(p, s', s.last, b, content))
            || (s'.ext.Collecting? && s'.ext.bundle == b && s'.ext.content == content)
  {
    ListedTargetsLast(s);
    StorablePacks(p, content, s.last);
  }

  /** One step after listing: the latest revision carries the content, or a new one is to be made. */
  lemma CanTryInPlace(p: Params, run: seq<State>, b: Bundle, content: seq<Phase>) returns (longer: seq<State>)
    requires IsRun(p, run) && Last(run).ext.Listed? && Last(run).ext.bundle == b && Last(run).ext.content == content
    requires Generated(p, content) && Storable(p, content)
    ensures IsRun(p, longer) && run <= longer
    ensures || Carries(p, Last(longer), Last(longer).last, b, content)
            || (Last(longer).ext.Collecting? && Last(longer).ext.bundle == b && Last(longer).ext.content == content)
  {
    RunIsSafe(p, run, |run| - 1);
    if Last(run).ext.list == [] {
      longer := Extend(p, run, NothingToApply);
    } else {
      ApplyInPlaceCarries(p, Last(run), b, content);
      longer := Extend(p, run, ApplyInPlace);
      var _, _ := ApplyInPlaceCases(p, Last(run));
    }
  }

  /** From every state of every run, a rendered bundle can get into the latest revision. */
  lemma BundleCanRollOut(p: Params, run: seq<State>, b: Bundle, content: seq<Phase>)
    returns (longer: seq<State>, n: nat)
    requires IsRun(p, run) && MayApply(Last(run).revs, b) && Generated(p, content) && Storable(p, content)
    ensures IsRun(p, longer) && run <= longer && Carries(p, Last(longer), n, b, content)
  {
    var listed := CanListFor(p, run, b, content);
    var tried := CanTryInPlace(p, listed, b, content);
    if Carries(p, Last(tried), Last(tried).last, b, content) {
      longer, n := tried, Last(tried).last;
    } else {
      longer, n := CanCreate(p, tried, b, content);
    }
  }

  // ---------- owning the Secrets ----------

  /** If the latest revision carries a bundle, so does everything that is rolling out. */
  lemma CarriedMayApply(p: Params, run: seq<State>, n: nat, b: Bundle, content: seq<Phase>)
    requires IsRun(p, run) && Carries(p, Last(run), n, b, content)
    ensures MayApply(Last(run).revs, b)
  {
    var i := |run| - 1;
    RunIsSafe(p, run, i);
    RunAgreesOnBundles(p, run, i);
    if run[i].revs[n].succeeded {
      assert LowerArchived(run[i].revs, n);
    } else {
      assert IsRollingOut(run[i].revs, n);
    }
  }

  /** Applying what the latest revision already carries is accepted. */
  lemma ReapplyOwns(p: Params, s: State, n: nat, b: Bundle, content: seq<Phase>)
    requires Safe(s) && Carries(p, s, n, b, content) && s.ext.Listed? && s.ext.bundle == b && s.ext.content == content
    ensures Enabled(p, s, ApplyInPlace)
    ensures var s' := Do(p, s, ApplyInPlace);
            && Carries(p, s', n, b, content) && s'.secrets == s.secrets
            && s'.ext == Owning(n, UnownedSecrets(s.secrets, n))
  {
    assert n in s.ext.list;
    ListedTargetsLast(s);
  }

  /** Every Secret of revision n has it as an owner, but for these. */
  ghost predicate OwnedExcept(secrets: Secrets, n: nat, unowned: set<string>) {
    forall name :: name in secrets && secrets[name].revision == n && name !in unowned ==> n in secrets[name].owners
  }

  lemma PatchOwnerOwns(p: Params, s: State, n: nat, name: string)
    requires s.ext.Owning? && s.ext.number == n && name in s.ext.unowned && name in s.secrets
    requires OwnedExcept(s.secrets, n, s.ext.unowned)
    ensures Enabled(p, s, PatchOwner(name))
    ensures var s' := Do(p, s, PatchOwner(name));
            && s'.revs == s.revs && s'.ext == Owning(n, s.ext.unowned - {name}) && s'.secrets.Keys == s.secrets.Keys
            && OwnedExcept(s'.secrets, n, s'.ext.unowned)
  {}

  lemma {:induction false} CanOwnAll(p: Params, run: seq<State>, n: nat) returns (longer: seq<State>)
    requires IsRun(p, run) && Last(run).ext.Owning? && Last(run).ext.number == n
    requires Last(run).ext.unowned <= Last(run).secrets.Keys
    requires OwnedExcept(Last(run).secrets, n, Last(run).ext.unowned)
    ensures IsRun(p, longer) && run <= longer && Last(longer).revs == Last(run).revs
    ensures OwnedExcept(Last(longer).secrets, n, {})
    decreases |Last(run).ext.unowned|
  {
    if Last(run).ext.unowned == {} {
      longer := run;
    } else {
      var name :| name in Last(run).ext.unowned;
      PatchOwnerOwns(p, Last(run), n, name);
      var next := Extend(p, run, PatchOwner(name));
      longer := CanOwnAll(p, next, n);
    }
  }

  /** A second pass over the same content leaves no Secret of the revision without its owner. */
  lemma SecretsCanBeOwned(p: Params, run: seq<State>, n: nat, b: Bundle, content: seq<Phase>)
    returns (longer: seq<State>)
    requires IsRun(p, run) && Carries(p, Last(run), n, b, content)
    ensures IsRun(p, longer) && run <= longer && Carries(p, Last(longer), n, b, content)
    ensures OwnedExcept(Last(longer).secrets, n, {})
  {
    CarriedMayApply(p, run, n, b, content);
    var listed := CanListFor(p, run, b, content);
    RunIsSafe(p, listed, |listed| - 1);
    ReapplyOwns(p, Last(listed), n, b, content);
    var applied := Extend(p, listed, ApplyInPlace);
    longer := CanOwnAll(p, applied, n);
  }

  // ---------- when a new revision is made ----------

  /**
    What decides between keeping the latest revision and making a new one: a new one is made
    exactly when the latest was rendered to something, and not to phases with objects of the
    same serialization at the same places.
  */
  lemma NewRevisionExactly(p: Params, s: State, was: seq<Phase>)
    requires Assumed(p) && Safe(s) && Enabled(p, s, ApplyInPlace)
    requires Generated(p, s.ext.content) && Storable(p, s.ext.content)
    requires s.last in s.revs && s.revs[s.last].protection.Prevent? && PackedFrom(p, s.last, s.revs[s.last].phases, was)
    ensures var s' := Do(p, s, ApplyInPlace);
            && (s'.ext.Collecting? <==> was != [] && !SameRendering(p.codec, was, s.ext.content))
            && (s'.ext.Collecting? ==> s'.revs == s.revs)
            && (!s'.ext.Collecting? ==> Carries(p, s', s.last, s.ext.bundle, s.ext.content))
  {
    ListedTargetsLast(s);
    StorablePacks(p, s.ext.content, s.last);
    SameRefsExactly(p.codec, PackerFor(p, s.last), was, s.ext.content, p.universe);
    ApplyInPlaceCarries(p, s, s.ext.bundle, s.ext.content);
  }

  /** A migrated revision is never applied to; a new one is made. */
  lemma MigratedIsReplaced(p: Params, s: State)
    requires Safe(s) && Enabled(p, s, ApplyInPlace) && Storable(p, s.ext.content)
    requires s.last in s.revs && s.revs[s.last].protection.Unprotected?
    ensures Do(p, s, ApplyInPlace).ext.Collecting? && Do(p, s, ApplyInPlace).revs == s.revs
  {
    ListedTargetsLast(s);
    StorablePacks(p, s.ext.content, s.last);
  }

  // ---------- migrating ----------

  /** The first reconcile of a migrated extension ends with its content as Succeeded revision 1. */
  lemma MigrationInstalls(p: Params, b: Bundle, content: seq<Phase>) returns (run: seq<State>)
    requires NoRefs(content)
    ensures IsRun(p, run) && Last(run).revs.Keys == {1} && Succeeded(Last(run).revs, 1)
    ensures var rev := Last(run).revs[1];
            rev.bundle == b && rev.phases == content && rev.protection.Unprotected? && rev.migrated
  {
    assert IsRun(p, [INITIAL]);
    run := Extend(p, [INITIAL], MigrateCreate(b, content));
    run := Extend(p, run, MigrateRead);
    run := Extend(p, run, MigrateReport);
  }

  // ---------- all together ----------

  /**
    From every state of every run: a bundle that may be applied, rendered to content that can be
    stored, can get installed. Some continuation ends with the latest revision carrying exactly
    that bundle and content, live and Succeeded, all its Secrets owned by it, and everything
    below it archived.
  */
  lemma BundleCanBeInstalled(p: Params, run: seq<State>, b: Bundle, content: seq<Phase>)
    returns (longer: seq<State>, n: nat)
    requires IsRun(p, run) && MayApply(Last(run).revs, b) && Generated(p, content) && Storable(p, content)
    ensures IsRun(p, longer) && run <= longer && Carries(p, Last(longer), n, b, content)
    ensures Succeeded(Last(longer).revs, n) && OwnedExcept(Last(longer).secrets, n, {})
  {
    var rolled;
    rolled, n := BundleCanRollOut(p, run, b, content);
    var owned := SecretsCanBeOwned(p, rolled, n, b, content);
    longer := HighestCanSucceed(p, owned, n);
  }
}
