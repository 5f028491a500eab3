/**
  One reconcile of a revision (ClusterObjectSet): the conditions every exit path leaves, and
  the progress deadline around it. Calls into the revision engine, the API server, the caches
  and the clock take their outcomes from the environment. Times are in nanoseconds.
*/
module RevisionReconciler {
  import opened Wrappers
  import opened Conditions

  const PROGRESSING := "Progressing"
  const AVAILABLE := "Available"
  const SUCCEEDED := "Succeeded"

  const SUCCEEDED_REASON := "Succeeded"
  const ROLLING_OUT := "RollingOut"
  const RETRYING := "Retrying"
  const RECONCILING := "Reconciling"
  const ARCHIVED := "Archived"
  const ARCHIVED_MESSAGE := "revision is archived"
  const DEADLINE_EXCEEDED := "ProgressDeadlineExceeded"

  /** What the engine reports. */
  datatype Engine =
    | EngineError
    | PreflightFailure
    | PhaseFailure
    | Rolled(inTransition: bool, complete: bool, probesFailed: bool)

  datatype Teardown = TeardownError | TeardownPending | TeardownDone

  /** Where preparing the reconcile stops with an error, if it does. */
  datatype Preparation = BuildError | SiblingsError | FactoryError | Prepared

  datatype Env = Env(
    preparation: Preparation, freeOk: bool, finalizerOk: bool, watchOk: bool,
    engine: Engine, listOk: bool, archiveOk: bool, teardown: Teardown,
    message: string, firstClock: nat, secondClock: nat)

  datatype Result = Result(requeueAfter: int, failed: bool)

  const NO_REQUEUE := Result(0, false)
  const FAILURE := Result(0, true)

  /** Still on its way: Progressing is true for a reason other than success. */
  predicate StillProgressing(cs: seq<Dated>) {
    var c := Find(cs, PROGRESSING);
    c.Some? && c.value.status.True? && c.value.reason != SUCCEEDED_REASON
  }

  /** Duration.Round to whole seconds: half a second goes away from zero. */
  function RoundToSecond(d: int): int {
    if d >= 0 then (d + SECOND / 2) / SECOND * SECOND else -((-d + SECOND / 2) / SECOND * SECOND)
  }

  /** The copy of the revision that a reconcile works on. */
  class WorkingCopy {
    const generation: int
    const created: nat
    const deadlineMinutes: nat
    const archived: bool
    const deleting: bool
    var finalizer: bool
    var conditions: seq<Dated>

    constructor (generation: int, created: nat, deadlineMinutes: nat, archived: bool, deleting: bool,
                 finalizer: bool, conditions: seq<Dated>)
      ensures this.generation == generation && this.created == created && this.deadlineMinutes == deadlineMinutes
      ensures this.archived == archived && this.deleting == deleting
      ensures this.finalizer == finalizer && this.conditions == conditions
    {
      this.generation := generation;
      this.created := created;
      this.deadlineMinutes := deadlineMinutes;
      this.archived := archived;
      this.deleting := deleting;
      this.finalizer := finalizer;
      this.conditions := conditions;
    }

    /** Every condition but those of these types is as it was. */
    static ghost predicate OthersKept(before: seq<Dated>, after: seq<Dated>, kinds: set<string>) {
      forall k :: k !in kinds ==> Find(after, k) == Find(before, k)
    }

    /** Progressing says that there will be another try, and Available, if there was one, that it is unknown. */
    ghost predicate Retries(env: Env, before: seq<Dated>, after: seq<Dated>) {
      && Has(after, Condition("Progressing", True, "Retrying", env.message, generation))
      && (if Find(before, "Available").Some?
          then Has(after, Condition("Available", Unknown, "Reconciling", env.message, generation))
          else Find(after, "Available").None?)
      && OthersKept(before, after, {"Progressing", "Available"})
    }

    ghost predicate OnlyAvailableUnknown(env: Env, before: seq<Dated>, after: seq<Dated>) {
      && Has(after, Condition("Available", Unknown, "Reconciling", env.message, generation))
      && OthersKept(before, after, {"Available"})
    }

    /** How a reconcile of a revision to be deleted ends. */
    ghost predicate EndsDelete(env: Env, finalizer: bool, before: seq<Dated>, res: Result, after: seq<Dated>) {
      if !env.freeOk then res == Result(0, true) && OnlyAvailableUnknown(env, before, after)
      else after == before && res == Result(0, finalizer && !env.finalizerOk)
    }

    /** How a reconcile of an archived revision ends, once its caches are freed. */
    ghost predicate EndsArchive(env: Env, finalizer: bool, before: seq<Dated>, res: Result, after: seq<Dated>) {
      match env.teardown
      case TeardownError => res == Result(0, true) && Retries(env, before, after)
      case TeardownPending => res == Result(5_000_000_000, false) && Retries(env, before, after)
      case TeardownDone =>
        && Has(after, Condition("Progressing", False, "Archived", "revision is archived", generation))
        && Has(after, Condition("Available", Unknown, "Archived", "revision is archived", generation))
        && OthersKept(before, after, {"Progressing", "Available"})
        && res == Result(0, Settled(before) && finalizer && !env.finalizerOk)
    }

    /** What the engine's report turns into. */
    ghost predicate EndsConclude(env: Env, before: seq<Dated>, res: Result, after: seq<Dated>)
      requires env.engine.Rolled?
    {
      var rolling := Condition("Progressing", True, "RollingOut", env.message, generation);
      if env.engine.complete && env.listOk && env.archiveOk then
        && res == Result(0, false)
        && Has(after, Condition("Progressing", True, "Succeeded", env.message, generation))
        && Has(after, Condition("Available", True, "ProbesSucceeded", env.message, generation))
        && Has(after, Condition("Succeeded", True, "Succeeded", env.message, generation))
        && OthersKept(before, after, {"Progressing", "Available", "Succeeded"})
      else if env.engine.complete then
        && res == Result(0, true)
        && (if env.engine.inTransition then Has(after, rolling)
            else Find(after, "Progressing") == Find(before, "Progressing"))
        && OthersKept(before, after, {"Progressing"})
      else
        && res == Result(0, false)
        && Has(after, Condition("Available", False, if env.engine.probesFailed then "ProbeFailure" else "RollingOut",
                                env.message, generation))
        && (if env.engine.inTransition || Find(before, "Progressing").None? then Has(after, rolling)
            else Find(after, "Progressing") == Find(before, "Progressing"))
        && OthersKept(before, after, {"Progressing", "Available"})
    }

    /** How a reconcile of an active revision ends. */
    ghost predicate EndsRollOut(env: Env, finalizer: bool, before: seq<Dated>, res: Result, after: seq<Dated>) {
      if !finalizer && !env.finalizerOk then res == Result(0, true) && after == before
      else if !env.watchOk || env.engine.EngineError? then res == Result(0, true) && Retries(env, before, after)
      else if !env.engine.Rolled? then res == Result(10_000_000_000, false) && Retries(env, before, after)
      else EndsConclude(env, before, res, after)
    }

    /** How every reconcile ends, before the deadline is looked at. */
    ghost predicate EndsReconcile(env: Env, finalizer: bool, before: seq<Dated>, res: Result, after: seq<Dated>) {
      if deleting then EndsDelete(env, finalizer, before, res, after)
      else if !env.preparation.Prepared? then res == Result(0, true) && Retries(env, before, after)
      else if !archived then EndsRollOut(env, finalizer, before, res, after)
      else if !env.freeOk then res == Result(0, true) && OnlyAvailableUnknown(env, before, after)
      else EndsArchive(env, finalizer, before, res, after)
    }

    /** The markAs helpers: one condition is set, all others are left alone. */
    method Mark(kind: string, status: Truth, reason: string, message: string, env: Env)
      modifies this`conditions
      ensures Has(conditions, Condition(kind, status, reason, message, generation))
      ensures forall k :: k != kind ==> Find(conditions, k) == Find(old(conditions), k)
      ensures Has(old(conditions), Condition(kind, status, reason, message, generation)) ==>
                conditions == old(conditions)
    {
      var c := Condition(kind, status, reason, message, generation);
      forall k ensures Find(SetCondition(conditions, c, env.firstClock), k) ==
                       if k == kind then Some(c) else Find(conditions, k)
      {
        SetThenFind(conditions, c, env.firstClock, k);
      }
      if Has(conditions, c) {
        SetAgain(conditions, c, env.firstClock);
      }
      conditions := SetCondition(conditions, c, env.firstClock);
    }

    /** setRetryingConditions. */
    method SetRetrying(env: Env)
      modifies this`conditions
      ensures Retries(env, old(conditions), conditions)
    {
      Mark(PROGRESSING, True, RETRYING, env.message, env);
      if Find(conditions, AVAILABLE).Some? {
        Mark(AVAILABLE, Unknown, RECONCILING, env.message, env);
      }
    }

    /** delete. */
    method Delete(env: Env) returns (res: Result)
      modifies this
      ensures EndsDelete(env, old(finalizer), old(conditions), res, conditions)
      ensures finalizer == (old(finalizer) && res.failed)
    {
      if !env.freeOk {
        Mark(AVAILABLE, Unknown, RECONCILING, env.message, env);
        return FAILURE;
      }
      res := RemoveFinalizer(env);
    }

    /** removeFinalizer: without the finalizer there is nothing to send, and nothing can fail. */
    method RemoveFinalizer(env: Env) returns (res: Result)
      modifies this`finalizer
      ensures res == if !old(finalizer) || env.finalizerOk then NO_REQUEUE else FAILURE
      ensures finalizer == (old(finalizer) && res.failed)
    {
      if !finalizer || env.finalizerOk {
        finalizer := false;
        return NO_REQUEUE;
      }
      res := FAILURE;
    }

    /** The conditions already say that the revision is archived. */
    predicate Settled(cs: seq<Dated>) {
      && Has(cs, Condition(PROGRESSING, False, ARCHIVED, ARCHIVED_MESSAGE, generation))
      && Has(cs, Condition(AVAILABLE, Unknown, ARCHIVED, ARCHIVED_MESSAGE, generation))
    }

    /** archive: the finalizer goes only when the conditions were already there. */
    method Archive(env: Env) returns (res: Result)
      modifies this
      ensures EndsArchive(env, old(finalizer), old(conditions), res, conditions)
      ensures old(finalizer) && !finalizer ==> env.teardown.TeardownDone? && conditions == old(conditions)
      ensures Settled(old(conditions)) && env.teardown.TeardownDone? && env.finalizerOk ==> !finalizer
    {
      if env.teardown.TeardownError? {
        SetRetrying(env);
        return FAILURE;
      }
      if env.teardown.TeardownPending? {
        SetRetrying(env);
        return Result(5 * SECOND, false);
      }
      var before := conditions;
      Mark(PROGRESSING, False, ARCHIVED, ARCHIVED_MESSAGE, env);
      Mark(AVAILABLE, Unknown, ARCHIVED, ARCHIVED_MESSAGE, env);
      if conditions != before {
        return NO_REQUEUE;
      }
      res := RemoveFinalizer(env);
    }

    /** The engine says everything is in place and ready. */
    predicate Completes(env: Env, finalizer: bool) {
      && !deleting && !archived && env.preparation.Prepared? && (finalizer || env.finalizerOk) && env.watchOk
      && env.engine.Rolled? && env.engine.complete && env.listOk && env.archiveOk
    }

    /** What follows the engine's report. */
    method Conclude(env: Env) returns (res: Result)
      requires env.engine.Rolled?
      modifies this`conditions
      ensures EndsConclude(env, old(conditions), res, conditions)
    {
      if env.engine.inTransition {
        Mark(PROGRESSING, True, ROLLING_OUT, env.message, env);
      }
      if env.engine.complete {
        if !env.listOk || !env.archiveOk {
          return FAILURE;
        }
        Mark(PROGRESSING, True, SUCCEEDED_REASON, env.message, env);
        Mark(AVAILABLE, True, "ProbesSucceeded", env.message, env);
        Mark(SUCCEEDED, True, SUCCEEDED_REASON, env.message, env);
      } else {
        Mark(AVAILABLE, False, if env.engine.probesFailed then "ProbeFailure" else ROLLING_OUT, env.message, env);
        if Find(conditions, PROGRESSING).None? {
          Mark(PROGRESSING, True, ROLLING_OUT, env.message, env);
        }
      }
      res := NO_REQUEUE;
    }

    /** reconcile of a revision that is to be in the cluster. */
    method RollOut(env: Env) returns (res: Result)
      requires !deleting && !archived && env.preparation.Prepared?
      modifies this
      ensures EndsRollOut(env, old(finalizer), old(conditions), res, conditions)
      ensures finalizer == (old(finalizer) || env.finalizerOk)
    {
      if !finalizer {
        if !env.finalizerOk {
          return FAILURE;
        }
        finalizer := true;
      }
      if !env.watchOk || env.engine.EngineError? {
        SetRetrying(env);
        return FAILURE;
      }
      if env.engine.PreflightFailure? || env.engine.PhaseFailure? {
        SetRetrying(env);
        return Result(10 * SECOND, false);
      }
      res := Conclude(env);
    }

    /** reconcile. Succeeded appears only on the complete path, and never disappears. */
    method ReconcileInner(env: Env) returns (res: Result)
      modifies this
      ensures EndsReconcile(env, old(finalizer), old(conditions), res, conditions)
      ensures IsTrue(conditions, SUCCEEDED) <==> IsTrue(old(conditions), SUCCEEDED) || Completes(env, old(finalizer))
      ensures old(finalizer) && !finalizer ==> deleting || (archived && Settled(old(conditions)) && Settled(conditions))
      ensures Completes(env, old(finalizer)) ==> finalizer
    {
      if deleting {
        res := Delete(env);
        return;
      }
      if !env.preparation.Prepared? {
        SetRetrying(env);
        return FAILURE;
      }
      if archived {
        if !env.freeOk {
          Mark(AVAILABLE, Unknown, RECONCILING, env.message, env);
          return FAILURE;
        }
        res := Archive(env);
        return;
      }
      res := RollOut(env);
    }

    function Deadline(): nat { created + deadlineMinutes * MINUTE }

    /** Progressing for another reason than success, and not succeeded. */
    static predicate OnItsWay(cs: seq<Dated>) {
      var p, s := Find(cs, "Progressing"), Find(cs, "Succeeded");
      && p.Some? && p.value.status.True? && p.value.reason != "Succeeded"
      && !(s.Some? && s.value.status.True?)
    }

    /** What the deadline makes of the end of a reconcile. */
    ghost predicate Adjusted(env: Env, inner: Result, mid: seq<Dated>, res: Result, after: seq<Dated>) {
      var deadline := created + deadlineMinutes * 60_000_000_000;
      if deadlineMinutes > 0 && OnItsWay(mid) && env.firstClock > deadline then
        && res == Result(0, false)
        && Has(after, Condition("Progressing", False, "ProgressDeadlineExceeded", env.message, generation))
        && OthersKept(mid, after, {"Progressing"})
      else if deadlineMinutes > 0 && OnItsWay(mid) && !inner.failed then
        && after == mid && !res.failed
        && deadline + 1_500_000_000 <= env.secondClock + res.requeueAfter <= deadline + 2_500_000_000
        && (res.requeueAfter > 0 <==> env.secondClock <= deadline + 1_500_000_000)
      else res == inner && after == mid
    }

    /**
      Reconcile, with the progress deadline. On every exit path after the deadline, a revision
      that has not succeeded is not left progressing. Before it, one that is still on its way is
      looked at again shortly after it. Otherwise a reconcile ends as it would without a deadline.
    */
    method Reconcile(env: Env) returns (res: Result)
      modifies this
      ensures IsTrue(conditions, "Succeeded") <==>
              IsTrue(old(conditions), "Succeeded") || Completes(env, old(finalizer))
      ensures var deadline := created + deadlineMinutes * 60_000_000_000;
              && (deadlineMinutes > 0 && env.firstClock > deadline ==> !OnItsWay(conditions))
              && (deadlineMinutes > 0 && env.firstClock <= deadline && OnItsWay(conditions) && !res.failed ==>
                    env.secondClock + res.requeueAfter > deadline)
      ensures exists inner, mid :: EndsReconcile(env, old(finalizer), old(conditions), inner, mid) &&
                                   Adjusted(env, inner, mid, res, conditions)
      ensures old(finalizer) && !finalizer ==> deleting || (archived && Settled(old(conditions)) && Settled(conditions))
    {
      res := ReconcileInner(env);
      ghost var inner, mid := res, conditions;
      assert EndsReconcile(env, old(finalizer), old(conditions), inner, mid);
      if deadlineMinutes > 0 {
        if StillProgressing(conditions) && !IsTrue(conditions, SUCCEEDED) {
          if env.firstClock > Deadline() {
            Mark(PROGRESSING, False, DEADLINE_EXCEEDED, env.message, env);
            res := NO_REQUEUE;
          } else if !res.failed {
            res := Result(RoundToSecond(Deadline() + 2 * SECOND - env.secondClock), false);
          }
        }
      }
      assert Adjusted(env, inner, mid, res, conditions);
    }
  }
}
