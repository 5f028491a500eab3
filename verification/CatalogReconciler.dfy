/**
  The ClusterCatalog reconciler of catalogd, with the in-memory record of what it has stored.
  Calls to the image puller, the storage, the image cache and the clock take their outcomes
  from the environment; any of them may fail.
*/
module CatalogReconciler {
  import opened Wrappers
  import opened Conditions
  import opened CatalogStatus

  datatype Catalog = Catalog(
    name: string, generation: int, unavailable: bool, deleting: bool, finalizer: bool,
    isImage: bool, imageRef: Option<string>, pollMinutes: Option<nat>, status: Status)

  datatype StoredData = StoredData(ref: string, lastUnpack: nat, lastPoll: nat, generation: int)

  datatype Pulled = Pulled(ref: string, unpackTime: nat)

  /** What the outside world answers during one reconcile. */
  datatype Env = Env(
    now: nat, url: string, contentExists: bool, pull: Option<Pulled>,
    storeOk: bool, storageDeleteOk: bool, cacheDeleteOk: bool, errorText: string)

  /** The last operation on a catalog's storage. */
  datatype StorageOp = Stored(ref: string) | StoreFailed | Deleted | DeleteFailed

  datatype Result = Done | Requeued(lastPoll: nat) | Error

  function NeedsPoll(lastPoll: nat, c: Catalog, now: nat): bool {
    c.pollMinutes.Some? && lastPoll + c.pollMinutes.value * MINUTE < now
  }

  /** getCurrentState: the status that what was stored calls for. */
  function ExpectedStatus(s: Status, data: StoredData, env: Env): Status {
    var cleared := s.(conditions := ClearUnknown(s.conditions));
    if env.contentExists
    then UpdateProgressing(UpdateServing(cleared, data.ref, data.lastUnpack, env.url, data.generation, env.now),
                           data.generation, NoFailure, env.now)
    else cleared
  }

  /** The status that a successful unpack leaves. */
  function UnpackedStatus(s: Status, data: StoredData, url: string, now: nat): Status {
    UpdateServing(UpdateProgressing(s, data.generation, NoFailure, now),
                  data.ref, data.lastUnpack, url, data.generation, now)
  }

  /** Neither disabled nor being deleted, with its finalizer in place. */
  predicate Served(c: Catalog) { !c.unavailable && !c.deleting && c.finalizer }

  /** Nothing calls for unpacking the catalog again. */
  predicate Settled(stored: map<string, StoredData>, c: Catalog, env: Env) {
    && !c.unavailable && !c.deleting && c.finalizer
    && c.name in stored
    && env.contentExists
    && c.status == ExpectedStatus(c.status, stored[c.name], env)
    && c.generation == stored[c.name].generation
    && !(c.pollMinutes.Some? && stored[c.name].lastPoll + c.pollMinutes.value * 60_000_000_000 < env.now)
  }

  /** What a reconcile has to do. */
  datatype Task = Disable | Finalize | AddFinalizer | LeaveToOthers | Keep | Refresh

  function TaskOf(stored: map<string, StoredData>, c: Catalog, env: Env): Task {
    if c.unavailable then Disable
    else if c.deleting then (if c.finalizer then Finalize else LeaveToOthers)
    else if !c.finalizer then AddFinalizer
    else if Settled(stored, c, env) then Keep
    else Refresh
  }

  /** An error is reported in Progressing, with its message; terminal errors as blocked. */
  ghost predicate Fails(c: Catalog, env: Env, terminal: bool, before: Status, status: Status) {
    && Find(status.conditions, "Progressing") ==
       Some(Condition("Progressing", if terminal then False else True, if terminal then "Blocked" else "Retrying",
                      env.errorText, c.generation))
    && (forall kind :: kind != "Progressing" ==> Find(status.conditions, kind) == Find(before.conditions, kind))
    && status.resolvedRef == before.resolvedRef && status.baseUrl == before.baseUrl
    && status.lastUnpacked == before.lastUnpacked
  }

  /** How removing the content of a catalog ends. */
  ghost predicate EndsDeletion(c: Catalog, env: Env, ok: bool, status: Status) {
    && (ok <==> env.storageDeleteOk && env.cacheDeleteOk)
    && (!env.storageDeleteOk ==> Fails(c, env, false, c.status, status))
    && (env.storageDeleteOk ==> NotServing(status) && Reports(status, "Serving", False, "Unavailable", c.generation))
    && (!ok ==> Reports(status, "Progressing", True, "Retrying", c.generation))
  }

  /** How every reconcile ends, by what there was to do and what the environment answered. */
  ghost predicate Ends(task: Task, c: Catalog, env: Env, res: Result, status: Status, finalizer: bool) {
    match task
    case Disable =>
      if env.storageDeleteOk && env.cacheDeleteOk then
        && res == Done && !finalizer && NotServing(status)
        && Reports(status, "Serving", False, "UserSpecifiedUnavailable", c.generation)
        && Reports(status, "Progressing", True, "Succeeded", c.generation)
      else res == Error && finalizer == c.finalizer && EndsDeletion(c, env, false, status)
    case Finalize =>
      && finalizer == !(env.storageDeleteOk && env.cacheDeleteOk)
      && res == (if finalizer then Error else Done)
      && EndsDeletion(c, env, !finalizer, status)
    case AddFinalizer => res == Done && finalizer && status == c.status
    case LeaveToOthers => res == Done && !finalizer && status == c.status
    case Keep => res.Requeued? && finalizer && status == c.status
    case Refresh =>
      && finalizer
      && if c.isImage && c.imageRef.Some? && env.pull.Some? && env.storeOk then
           && res == Requeued(env.now)
           && Serves(status, env.pull.value.ref, env.url, env.pull.value.unpackTime, c.generation)
         else res == Error && Fails(c, env, !(c.isImage && c.imageRef.Some?), c.status, status)
  }

  class Reconciler {
    var storedCatalogs: map<string, StoredData>
    ghost var lastOp: map<string, StorageOp>
    ghost var pulls: nat

    /** A recorded catalog is one whose last storage operation stored exactly that ref. */
    ghost predicate Valid()
      reads this
    {
      forall name :: name in storedCatalogs ==>
        name in lastOp && lastOp[name] == Stored(storedCatalogs[name].ref)
    }

    /** The same for all catalogs but one. */
    ghost predicate ValidExcept(except: string)
      reads this
    {
      forall name :: name in storedCatalogs && name != except ==>
        name in lastOp && lastOp[name] == Stored(storedCatalogs[name].ref)
    }

    /** The records and histories of all catalogs but one are as they were. */
    twostate predicate OthersUnchanged(except: string)
      reads this
    {
      forall name :: name != except ==>
        && (name in storedCatalogs <==> name in old(storedCatalogs))
        && (name in storedCatalogs ==> storedCatalogs[name] == old(storedCatalogs)[name])
        && (name in lastOp <==> name in old(lastOp))
        && (name in lastOp ==> lastOp[name] == old(lastOp)[name])
    }

    /** No content is stored for the catalog, and none is recorded. */
    ghost predicate Cleared(name: string)
      reads this
    {
      name !in storedCatalogs && name in lastOp && lastOp[name].Deleted?
    }

    /** SetupWithManager: a process starts with an empty record and any history on disk. */
    constructor (ghost history: map<string, StorageOp>)
      ensures Valid() && storedCatalogs == map[] && lastOp == history && pulls == 0
    {
      storedCatalogs := map[];
      lastOp := history;
      pulls := 0;
    }

    /** deleteCatalogCache. */
    method DeleteCatalogCache(c: Catalog, env: Env) returns (ok: bool, status: Status)
      requires Valid()
      modifies this
      ensures ValidExcept(c.name) && pulls == old(pulls)
      ensures ok ==> Valid() && storedCatalogs == old(storedCatalogs) - {c.name}
      ensures ok ==> lastOp == old(lastOp)[c.name := Deleted]
      ensures EndsDeletion(c, env, ok, status)
      ensures OthersUnchanged(c.name)
    {
      status := c.status;
      if !env.storageDeleteOk {
        lastOp := lastOp[c.name := DeleteFailed];
        FailureChangesOnlyProgressing(status, c.generation, Retryable(env.errorText), env.now);
        return false, UpdateProgressing(status, c.generation, Retryable(env.errorText), env.now);
      }
      lastOp := lastOp[c.name := Deleted];
      NotServingIsReported(status, c.generation, env.now);
      NotServingReports(status, c.generation, env.now);
      status := UpdateNotServing(status, c.generation, env.now);
      if !env.cacheDeleteOk {
        FailureChangesOnlyProgressing(status, c.generation, Retryable(env.errorText), env.now);
        return false, UpdateProgressing(status, c.generation, Retryable(env.errorText), env.now);
      }
      storedCatalogs := storedCatalogs - {c.name};
      ok := true;
    }

    /** The part of reconcile that pulls and stores. */
    method Unpack(c: Catalog, env: Env) returns (res: Result, status: Status)
      requires Valid() && Served(c)
      modifies this
      ensures ValidExcept(c.name)
      ensures !res.Error? ==> Valid()
      ensures pulls == old(pulls) + (if c.isImage && c.imageRef.Some? then 1 else 0)
      ensures OthersUnchanged(c.name) && Ends(Refresh, c, env, res, status, true)
      ensures !res.Error? ==>
        var data := StoredData(env.pull.value.ref, env.pull.value.unpackTime, env.now, c.generation);
        && res == Requeued(env.now)
        && storedCatalogs == old(storedCatalogs)[c.name := data]
        && lastOp == old(lastOp)[c.name := Stored(data.ref)]
        && status == UnpackedStatus(c.status, data, env.url, env.now)
    {
      FailureChangesOnlyProgressing(c.status, c.generation, Terminal(env.errorText), env.now);
      FailureChangesOnlyProgressing(c.status, c.generation, Retryable(env.errorText), env.now);
      if !c.isImage || c.imageRef.None? {
        return Error, UpdateProgressing(c.status, c.generation, Terminal(env.errorText), env.now);
      }
      pulls := pulls + 1;
      if env.pull.None? {
        return Error, UpdateProgressing(c.status, c.generation, Retryable(env.errorText), env.now);
      }
      if !env.storeOk {
        lastOp := lastOp[c.name := StoreFailed];
        return Error, UpdateProgressing(c.status, c.generation, Retryable(env.errorText), env.now);
      }
      var ref, unpackTime := env.pull.value.ref, env.pull.value.unpackTime;
      lastOp := lastOp[c.name := Stored(ref)];
      ServedIsReported(c.status, ref, unpackTime, env.url, c.generation, env.now);
      status := UpdateProgressing(c.status, c.generation, NoFailure, env.now);
      status := UpdateServing(status, ref, unpackTime, env.url, c.generation, env.now);
      storedCatalogs := storedCatalogs[c.name := StoredData(ref, unpackTime, env.now, c.generation)];
      res := Requeued(env.now);
    }

    /** The part of reconcile that decides whether to unpack. */
    method KeepOrRefresh(c: Catalog, env: Env) returns (res: Result, status: Status)
      requires Valid() && Served(c)
      modifies this
      ensures ValidExcept(c.name)
      ensures !res.Error? ==> Valid()
      ensures Ends(TaskOf(old(storedCatalogs), c, env), c, env, res, status, true)
      ensures OthersUnchanged(c.name)
      ensures var task := TaskOf(old(storedCatalogs), c, env);
              && pulls == old(pulls) + (if task.Refresh? && c.isImage && c.imageRef.Some? then 1 else 0)
              && (task.Keep? ==> && res == Requeued(old(storedCatalogs)[c.name].lastPoll)
                                 && storedCatalogs == old(storedCatalogs) && lastOp == old(lastOp))
              && (task.Refresh? && !res.Error? ==>
                    var data := StoredData(env.pull.value.ref, env.pull.value.unpackTime, env.now, c.generation);
                    && storedCatalogs == old(storedCatalogs)[c.name := data]
                    && lastOp == old(lastOp)[c.name := Stored(data.ref)]
                    && status == UnpackedStatus(c.status, data, env.url, env.now))
    {
      status := c.status;
      var needsUnpack := true;
      if c.name in storedCatalogs && env.contentExists {
        var data := storedCatalogs[c.name];
        needsUnpack := c.status != ExpectedStatus(c.status, data, env)
          || c.generation != data.generation
          || NeedsPoll(data.lastPoll, c, env.now);
      }
      if !needsUnpack {
        return Requeued(storedCatalogs[c.name].lastPoll), status;
      }
      res, status := Unpack(c, env);
    }

    /** reconcile: the new status and finalizer are returned, not yet written back. */
    method ReconcileInner(c: Catalog, env: Env) returns (res: Result, status: Status, finalizer: bool)
      requires Valid()
      modifies this
      ensures ValidExcept(c.name)
      ensures !res.Error? ==> Valid()
      ensures Ends(TaskOf(old(storedCatalogs), c, env), c, env, res, status, finalizer)
      ensures OthersUnchanged(c.name)
      ensures var task := TaskOf(old(storedCatalogs), c, env);
              && pulls == old(pulls) + (if task.Refresh? && c.isImage && c.imageRef.Some? then 1 else 0)
              && (task.Keep? ==> && res == Requeued(old(storedCatalogs)[c.name].lastPoll)
                                 && storedCatalogs == old(storedCatalogs) && lastOp == old(lastOp))
              && ((task.Disable? || task.Finalize?) && !res.Error? ==> Cleared(c.name))
              && (task.Refresh? && !res.Error? ==>
                    var data := StoredData(env.pull.value.ref, env.pull.value.unpackTime, env.now, c.generation);
                    && storedCatalogs == old(storedCatalogs)[c.name := data]
                    && lastOp == old(lastOp)[c.name := Stored(data.ref)]
                    && status == UnpackedStatus(c.status, data, env.url, env.now))
    {
      status, finalizer := c.status, c.finalizer;
      if c.unavailable {
        var ok;
        ok, status := DeleteCatalogCache(c, env);
        if !ok {
          return Error, status, finalizer;
        }
        UserUnavailableNotServing(status, c.generation, env.now);
        UserUnavailableReports(status, c.generation, env.now);
        return Done, UpdateUserUnavailable(status, c.generation, env.now), false;
      }
      if c.deleting && c.finalizer {
        var ok;
        ok, status := DeleteCatalogCache(c, env);
        return if ok then Done else Error, status, !ok;
      }
      if !c.deleting && !c.finalizer {
        return Done, status, true;
      }
      if c.deleting {
        return Done, status, finalizer;
      }
      res, status := KeepOrRefresh(c, env);
    }

    /** Reconcile: after an error the record of the catalog is dropped. */
    method Reconcile(c: Catalog, env: Env) returns (res: Result, status: Status, finalizer: bool)
      requires Valid()
      modifies this
      ensures Valid()
      ensures res.Error? ==> c.name !in storedCatalogs
      ensures Ends(TaskOf(old(storedCatalogs), c, env), c, env, res, status, finalizer)
      ensures OthersUnchanged(c.name)
      ensures var task := TaskOf(old(storedCatalogs), c, env);
              && pulls == old(pulls) + (if task.Refresh? && c.isImage && c.imageRef.Some? then 1 else 0)
              && (task.Keep? ==> && res == Requeued(old(storedCatalogs)[c.name].lastPoll)
                                 && storedCatalogs == old(storedCatalogs) && lastOp == old(lastOp))
              && ((task.Disable? || task.Finalize?) && !res.Error? ==> Cleared(c.name))
              && (task.Refresh? && !res.Error? ==>
                    var data := StoredData(env.pull.value.ref, env.pull.value.unpackTime, env.now, c.generation);
                    && storedCatalogs == old(storedCatalogs)[c.name := data]
                    && lastOp == old(lastOp)[c.name := Stored(data.ref)]
                    && status == UnpackedStatus(c.status, data, env.url, env.now))
    {
      res, status, finalizer := ReconcileInner(c, env);
      if res.Error? {
        storedCatalogs := storedCatalogs - {c.name};
      }
    }
  }

  /** A catalog is left alone only while its status says what was stored for it. */
  lemma SettledSaysWhatIsStored(stored: map<string, StoredData>, c: Catalog, env: Env)
    requires Settled(stored, c, env)
    ensures var data := stored[c.name];
            Serves(c.status, data.ref, env.url, data.lastUnpack, c.generation)
  {
    var data := stored[c.name];
    var cleared := c.status.(conditions := ClearUnknown(c.status.conditions));
    ServedIsReported(cleared, data.ref, data.lastUnpack, env.url, data.generation, env.now);
  }

  // ---------- a successful reconcile settles the catalog ----------

  ghost predicate OnlyKnown(s: Status) {
    forall i :: 0 <= i < |s.conditions| ==>
      s.conditions[i].condition.kind == "Serving" || s.conditions[i].condition.kind == "Progressing"
  }

  lemma UnpackedHasConditions(s: Status, data: StoredData, url: string, now: nat)
    ensures var u := UnpackedStatus(s, data, url, now);
            && Has(u.conditions, ProgressingCondition(data.generation))
            && Has(u.conditions, ServingCondition(data.generation))
  {
    var progressing := SetCondition(s.conditions, ProgressingCondition(data.generation), now);
    SetThenFind(s.conditions, ProgressingCondition(data.generation), now, PROGRESSING);
    SetThenFind(progressing, ServingCondition(data.generation), now, PROGRESSING);
    SetThenFind(progressing, ServingCondition(data.generation), now, SERVING);
  }

  /** With content present, what is expected of an unpacked status is the status less unknown conditions. */
  lemma ExpectedOfUnpacked(s: Status, data: StoredData, url: string, now: nat, env: Env)
    requires env.contentExists && env.url == url
    ensures var u := UnpackedStatus(s, data, url, now);
            ExpectedStatus(u, data, env) == u.(conditions := ClearUnknown(u.conditions))
  {
    var u := UnpackedStatus(s, data, url, now);
    var cleared := ClearUnknown(u.conditions);
    UnpackedHasConditions(s, data, url, now);
    ClearKeepsKnown(u.conditions, PROGRESSING);
    ClearKeepsKnown(u.conditions, SERVING);
    SetAgain(cleared, ServingCondition(data.generation), env.now);
    SetAgain(cleared, ProgressingCondition(data.generation), env.now);
  }

  /**
    After a successful unpack whose status was written back: with the same generation, the
    content present and no poll due, the next reconcile finds nothing to do exactly when the
    status has no conditions besides Serving and Progressing.
  */
  lemma UnpackSettlesExactly(stored: map<string, StoredData>, before: Status, c: Catalog,
                             url: string, now: nat, env: Env)
    requires Served(c) && c.name in stored && stored[c.name].generation == c.generation
    requires c.status == UnpackedStatus(before, stored[c.name], url, now)
    requires env.contentExists && env.url == url && !NeedsPoll(stored[c.name].lastPoll, c, env.now)
    ensures Settled(stored, c, env) <==> OnlyKnown(c.status)
  {
    ExpectedOfUnpacked(before, stored[c.name], url, now, env);
    ClearShortens(c.status.conditions);
    if !OnlyKnown(c.status) {
      var i :| 0 <= i < |c.status.conditions| && !IsKnown(c.status.conditions[i]);
    }
  }
}
