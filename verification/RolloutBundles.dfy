/** All revisions that are rolling out were made from the same bundle. */
module RolloutBundles {
  import opened Revisions
  import opened Rollout
  import opened RolloutSuccession

  ghost predicate Agree(revs: Store) {
    forall m, n :: IsRollingOut(revs, m) && IsRollingOut(revs, n) ==> revs[m].bundle == revs[n].bundle
  }

  ghost predicate AllCarry(revs: Store, b: Bundle) {
    forall n :: IsRollingOut(revs, n) ==> revs[n].bundle == b
  }

  /** The bundle the extension's reconciler works with is the one that is rolling out. */
  ghost predicate Consistent(revs: Store, ext: Extension) {
    match ext
    case StatesRead(states) =>
      if states.rollingOut == [] then forall n :: !IsRollingOut(revs, n)
      else AllCarry(revs, states.rollingOut[0].bundle)
    case Resolved(b) => AllCarry(revs, b)
    case Listed(b, _, _, _) => AllCarry(revs, b)
    case Collecting(b, _, _, _, _) => AllCarry(revs, b)
    case Creating(b, _, _, _, _, _, _) => AllCarry(revs, b)
    case _ => true
  }

  ghost predicate BundlesOk(s: State) {
    Agree(s.revs) && Consistent(s.revs, s.ext)
  }

  lemma RollingOutStable(revs: Store, revs': Store, last: nat, n: nat)
    requires Evolves(revs, revs', last) && SameContent(revs, revs') && IsRollingOut(revs', n)
    ensures IsRollingOut(revs, n) && revs[n].bundle == revs'[n].bundle
  {}

  /** Steps that leave the bundles alone, seen by a reconciler that stays where it is. */
  lemma BundlesStable(s: State, revs': Store)
    requires BundlesOk(s) && Evolves(s.revs, revs', s.last) && SameContent(s.revs, revs')
    ensures Agree(revs') && Consistent(revs', s.ext)
  {
    forall n | IsRollingOut(revs', n) ensures IsRollingOut(s.revs, n) && s.revs[n].bundle == revs'[n].bundle {
      RollingOutStable(s.revs, revs', s.last, n);
    }
  }

  lemma ReadStatesConsistent(s: State, list: seq<nat>)
    requires BundlesOk(s) && IsListing(list, s.revs.Keys)
    ensures Consistent(s.revs, StatesRead(StatesOf(s.revs, list)))
  {
    var rs := StatesOf(s.revs, list);
    forall n ensures IsRollingOut(s.revs, n) ==> Metadata(n, s.revs[n].bundle) in rs.rollingOut {
      RollingOutExact(s.revs, list, n);
    }
    if rs.rollingOut != [] {
      RollingOutExact(s.revs, list, 0);
      var first := rs.rollingOut[0];
      assert first in rs.rollingOut;
      assert Describes(s.revs, first) && IsRollingOut(s.revs, first.number);
    }
  }

  lemma AllCarryAgrees(revs: Store, b: Bundle)
    requires AllCarry(revs, b)
    ensures Agree(revs)
  {}

  lemma AppliedCarries(revs: Store, n: nat, d: Desired)
    requires AllCarry(revs, d.bundle)
    ensures AllCarry(Applied(revs, n, d), d.bundle)
  {}

  lemma ApplyInPlaceKeepsBundles(p: Params, s: State)
    requires Safe(s) && BundlesOk(s) && Enabled(p, s, ApplyInPlace)
    ensures BundlesOk(Do(p, s, ApplyInPlace))
  {
    var n, d := ApplyInPlaceCases(p, s);
    AppliedCarries(s.revs, n, d);
    AllCarryAgrees(Applied(s.revs, n, d), d.bundle);
  }

  lemma CreationKeepsBundles(p: Params, s: State, step: Step)
    requires BundlesOk(s) && Enabled(p, s, step) && (step.MigrateCreate? || step.CreateRevision?)
    ensures BundlesOk(Do(p, s, step))
  {
    var s' := Do(p, s, step);
    if step.MigrateCreate? {
      AllCarryAgrees(s'.revs, step.bundle);
    } else {
      AppliedCarries(s.revs, s.ext.number, Desired(s.ext.bundle, Prevent, s.ext.phases, false));
      AllCarryAgrees(s'.revs, s.ext.bundle);
    }
  }

  ghost predicate BundleStep(step: Step) {
    step.MigrateCreate? || step.CreateRevision? || step.ApplyInPlace? || step.ReadStates?
  }

  /** The reconciler takes its bundle along from place to place. */
  lemma MovesConsistently(p: Params, s: State, step: Step)
    requires Enabled(p, s, step) && !BundleStep(step)
    requires Consistent(Do(p, s, step).revs, s.ext)
    ensures Consistent(Do(p, s, step).revs, Do(p, s, step).ext)
  {
    match step
    case StartCreating =>
      var s' := DoStartCreating(p, s);
      assert s'.ext.Idle? || (s'.ext.Creating? && s'.ext.bundle == s.ext.bundle);
    case _ =>
  }

  lemma StepKeepsBundles(p: Params, s: State, step: Step)
    requires Safe(s) && BundlesOk(s) && Enabled(p, s, step)
    ensures BundlesOk(Do(p, s, step))
  {
    if !BundleStep(step) {
      StepEvolves(p, s, step);
      StepKeepsContent(p, s, step);
      BundlesStable(s, Do(p, s, step).revs);
      MovesConsistently(p, s, step);
    } else if step.ApplyInPlace? {
      ApplyInPlaceKeepsBundles(p, s);
    } else if step.ReadStates? {
      ReadStatesConsistent(s, step.list);
    } else {
      CreationKeepsBundles(p, s, step);
    }
  }

  lemma {:induction false} RunAgreesOnBundles(p: Params, run: seq<State>, i: nat)
    requires IsRun(p, run) && i < |run|
    ensures BundlesOk(run[i])
  {
    if i > 0 {
      RunAgreesOnBundles(p, run, i - 1);
      RunIsSafe(p, run, i - 1);
      var step := StepOf(p, run, i - 1);
      StepKeepsBundles(p, run[i - 1], step);
    }
  }
}
