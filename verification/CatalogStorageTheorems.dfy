/**
  What clients of the catalog storage can rely on: what was given to Store is what is served,
  until it is stored over or deleted.
*/
module CatalogStorageTheorems {
  import opened Wrappers
  import opened Objects
  import opened Ordering
  import opened CatalogIndex
  import opened CatalogStorage

  // ---------- steps of a run ----------

  lemma StepOf(run: seq<State>, i: nat) returns (step: Step)
    requires IsRun(run) && i + 1 < |run|
    ensures Enabled(run[i], step) && run[i + 1] == Do(run[i], step)
  {
    assert Next(run[i + 1 - 1], run[i + 1]);
    step :| Enabled(run[i], step) && run[i + 1] == Do(run[i], step);
  }

  /** Step j puts in place what a Store of these metas was given. */
  ghost predicate StoresAt(run: seq<State>, j: int, c: string, metas: seq<Meta>) {
    && 0 <= j < |run| - 1 && run[j].writer == Some(Storing(c, metas))
    && Enabled(run[j], Rename) && run[j + 1] == Do(run[j], Rename)
  }

  ghost predicate NoStoreAt(run: seq<State>, k: int, c: string) {
    forall metas :: !StoresAt(run, k, c, metas)
  }

  /** No Store of this catalog is completed by a step from j on, before state i. */
  ghost predicate NoStoreBetween(run: seq<State>, j: int, i: int, c: string) {
    forall k :: j <= k < i ==> NoStoreAt(run, k, c)
  }

  // ---------- what is served ----------

  ghost predicate Holds(s: State, c: string, metas: seq<Meta>) {
    c in s.latest && s.latest[c] < |s.stored| && s.stored[s.latest[c]] == metas
  }

  lemma StepKeepsHolds(s: State, step: Step, c: string, metas: seq<Meta>)
    requires Enabled(s, step) && Holds(s, c, metas)
    requires step.Rename? ==> s.writer.value.catalog != c
    ensures Holds(Do(s, step), c, metas)
  {}

  lemma StoreHolds(run: seq<State>, j: nat, c: string, metas: seq<Meta>)
    requires StoresAt(run, j, c, metas)
    ensures Holds(run[j + 1], c, metas)
  {}

  lemma StoreStep(run: seq<State>, i: nat, c: string) returns (step: Step)
    requires IsRun(run) && i + 1 < |run|
    ensures Enabled(run[i], step) && run[i + 1] == Do(run[i], step)
    ensures step.Rename? && run[i].writer.value.catalog == c ==> StoresAt(run, i, c, run[i].writer.value.metas)
  {
    step := StepOf(run, i);
  }

  lemma QuietStepKeepsHolds(run: seq<State>, k: nat, c: string, metas: seq<Meta>)
    requires IsRun(run) && k + 1 < |run| && NoStoreAt(run, k, c) && Holds(run[k], c, metas)
    ensures Holds(run[k + 1], c, metas)
  {
    var step := StoreStep(run, k, c);
    StepKeepsHolds(run[k], step, c, metas);
  }

  ghost predicate HoldsAt(run: seq<State>, k: int, c: string, metas: seq<Meta>) {
    0 <= k < |run| && Holds(run[k], c, metas)
  }

  lemma {:induction false} HoldsAccumulates(run: seq<State>, j: nat, i: nat, c: string, metas: seq<Meta>)
    requires j <= i && HoldsAt(run, j, c, metas)
    requires forall k :: j <= k < i && HoldsAt(run, k, c, metas) ==> HoldsAt(run, k + 1, c, metas)
    ensures HoldsAt(run, i, c, metas)
    decreases i
  {
    if i > j { HoldsAccumulates(run, j, i - 1, c, metas); }
  }

  lemma HoldsUntilStored(run: seq<State>, j: nat, i: nat, c: string, metas: seq<Meta>)
    requires IsRun(run) && j < i < |run| && StoresAt(run, j, c, metas) && NoStoreBetween(run, j + 1, i, c)
    ensures Holds(run[i], c, metas)
  {
    StoreHolds(run, j, c, metas);
    forall k | j + 1 <= k < i && HoldsAt(run, k, c, metas) ensures HoldsAt(run, k + 1, c, metas) {
      assert NoStoreAt(run, k, c);
      QuietStepKeepsHolds(run, k, c, metas);
    }
    HoldsAccumulates(run, j + 1, i, c, metas);
  }

  /**
    In every run: once a Store of these metas is in place, and until another one is, every
    answer about the catalog is what the request asks for, out of these metas.
  */
  lemma StoredIsWhatIsServed(run: seq<State>, j: nat, i: nat, c: string, metas: seq<Meta>, r: nat, bytes: Bytes)
    requires IsRun(run) && j < i < |run| && StoresAt(run, j, c, metas) && NoStoreBetween(run, j + 1, i, c)
    requires r in run[i].requests && run[i].requests[r].catalog == c && Sends(run[i], run[i].requests[r], bytes)
    ensures var ask := run[i].requests[r].ask;
            bytes == if ask.Everything? || ask.query == Query("", "", "") then FileOf(metas)
                     else Scan(metas, ask.query, WithSchema)
  {
    HoldsUntilStored(run, j, i, c, metas);
    AnswersAreExact(run, i, r, bytes);
  }

  // ---------- what is deleted ----------

  /** Step j removes all of a catalog's directory. */
  ghost predicate RemovesAt(run: seq<State>, j: int, c: string) {
    && 0 <= j < |run| - 1 && run[j].writer.Some? && run[j].writer.value.catalog == c
    && run[j + 1] == Do(run[j], RemoveFiles(false, false))
  }

  lemma StepKeepsAbsent(s: State, step: Step, c: string)
    requires Enabled(s, step) && DirOf(s, c) == ABSENT
    requires step.Rename? ==> s.writer.value.catalog != c
    ensures DirOf(Do(s, step), c) == ABSENT
  {}

  lemma QuietStepKeepsAbsent(run: seq<State>, k: nat, c: string)
    requires IsRun(run) && k + 1 < |run| && NoStoreAt(run, k, c) && DirOf(run[k], c) == ABSENT
    ensures DirOf(run[k + 1], c) == ABSENT
  {
    var step := StoreStep(run, k, c);
    StepKeepsAbsent(run[k], step, c);
  }

  ghost predicate AbsentAt(run: seq<State>, k: int, c: string) {
    0 <= k < |run| && DirOf(run[k], c) == ABSENT
  }

  lemma {:induction false} AbsentAccumulates(run: seq<State>, j: nat, i: nat, c: string)
    requires j <= i && AbsentAt(run, j, c)
    requires forall k :: j <= k < i && AbsentAt(run, k, c) ==> AbsentAt(run, k + 1, c)
    ensures AbsentAt(run, i, c)
    decreases i
  {
    if i > j { AbsentAccumulates(run, j, i - 1, c); }
  }

  lemma AbsentUntilStored(run: seq<State>, j: nat, i: nat, c: string)
    requires IsRun(run) && j < i < |run| && RemovesAt(run, j, c) && NoStoreBetween(run, j + 1, i, c)
    ensures DirOf(run[i], c) == ABSENT
  {
    assert AbsentAt(run, j + 1, c);
    forall k | j + 1 <= k < i && AbsentAt(run, k, c) ensures AbsentAt(run, k + 1, c) {
      assert NoStoreAt(run, k, c);
      QuietStepKeepsAbsent(run, k, c);
    }
    AbsentAccumulates(run, j + 1, i, c);
  }

  /** Once a catalog is deleted, and until it is stored again, no request about it gets an answer. */
  lemma DeletedIsNotServed(run: seq<State>, j: nat, i: nat, c: string, r: nat)
    requires IsRun(run) && j < i < |run| && RemovesAt(run, j, c) && NoStoreBetween(run, j + 1, i, c)
    requires r in run[i].requests && run[i].requests[r].catalog == c
    ensures run[i].requests[r].phase.Locked?
  {
    AbsentUntilStored(run, j, i, c);
    RunIsSafe(run, i);
    assert RequestOk(run[i], run[i].requests[r]);
  }

  // ---------- storing and asking is always possible ----------

  lemma Extend(run: seq<State>, step: Step) returns (longer: seq<State>)
    requires IsRun(run) && Enabled(run[|run| - 1], step)
    ensures IsRun(longer) && run <= longer && |longer| == |run| + 1
    ensures longer[|run|] == Do(run[|run| - 1], step)
  {
    var s' := Do(run[|run| - 1], step);
    longer := run + [s'];
    assert Next(run[|run| - 1], s');
    forall i | 0 < i < |longer| ensures Next(longer[i - 1], longer[i]) {
      if i < |run| { assert longer[i] == run[i] && longer[i - 1] == run[i - 1]; }
    }
  }

  lemma {:induction false} IndexExists(metas: seq<Meta>, i: nat) returns (idx: Index)
    requires i <= |metas|
    ensures IsIndexOf(idx, metas[..i])
  {
    if i == 0 {
      idx := Index(map[], map[], map[]);
    } else {
      var front := IndexExists(metas, i - 1);
      var m, s := metas[i - 1], SectionAt(metas, i - 1);
      AppendIndexes(front.bySchema, metas, i - 1, BySchema);
      AppendIndexes(front.byPackage, metas, i - 1, ByPackage);
      AppendIndexes(front.byName, metas, i - 1, ByName);
      idx := Index(Append(front.bySchema, m.schema, s), Append(front.byPackage, m.package, s),
                   Append(front.byName, m.name, s));
    }
  }

  lemma IndexedAnswerExists(metas: seq<Meta>, q: Query)
    ensures IsIndexedAnswer(metas, metas, q, Scan(metas, q, WithSchema))
  {
    var idx := IndexExists(metas, |metas|);
    assert metas[..|metas|] == metas;
    assert TotalPreorder(CompareOffsets);
    InOrderSorted(SectionSet(idx, q), CompareOffsets);
    InOrderPermutation(SectionSet(idx, q), CompareOffsets);
    SortedSectionsReadScan(idx, metas, q, InOrder(SectionSet(idx, q), CompareOffsets));
  }

  /** Store, from a fresh process on. */
  lemma CanStore(run: seq<State>, c: string, metas: seq<Meta>) returns (longer: seq<State>, j: nat)
    requires IsRun(run)
    ensures IsRun(longer) && run <= longer && j == |longer| - 3 && StoresAt(longer, j, c, metas)
    ensures var s := longer[|longer| - 1];
            s.writer.None? && s.requests == map[] && s.inFlight == map[] &&
            DirOf(s, c) == Dir(Some(|s.stored| - 1), Some(|s.stored| - 1)) && s.stored != [] &&
            s.stored[|s.stored| - 1] == metas
  {
    longer := Extend(run, Restart);
    longer := Extend(longer, WriteLock(Storing(c, metas)));
    longer := Extend(longer, RemoveFiles(false, false));
    j := |longer| - 1;
    longer := Extend(longer, Rename);
    longer := Extend(longer, WriteUnlock);
  }

  lemma CanAskIndexed(run: seq<State>, c: string, q: Query, v: nat) returns (longer: seq<State>)
    requires IsRun(run) && q != Query("", "", "")
    requires var s := run[|run| - 1];
             0 in s.requests && s.requests[0] == Request(c, Metas(q), Opened(v)) && s.inFlight == map[] &&
             DirOf(s, c).index == Some(v)
    ensures IsRun(longer) && run <= longer && longer[|longer| - 1].stored == run[|run| - 1].stored
    ensures 0 in longer[|longer| - 1].requests
    ensures longer[|longer| - 1].requests[0] == Request(c, Metas(q), Indexed(v, v))
  {
    var f := |run[|run| - 1].flights|;
    longer := Extend(run, GetIndex(0));
    longer := Extend(longer, Load(f));
    longer := Extend(longer, Finish(f));
    longer := Extend(longer, Wake(0));
  }

  lemma CanOpen(run: seq<State>, c: string, ask: Ask, v: nat) returns (longer: seq<State>)
    requires IsRun(run)
    requires var s := run[|run| - 1];
             s.writer.None? && s.requests == map[] && DirOf(s, c).file == Some(v)
    ensures IsRun(longer) && run <= longer
    ensures longer[|longer| - 1] == run[|run| - 1].(requests := map[0 := Request(c, ask, Opened(v))])
  {
    longer := Extend(run, ReadLock(0, Request(c, ask, Locked)));
    longer := Extend(longer, Open(0));
  }

  /** The last state of the run sends these bytes in answer to this request. */
  ghost predicate EndsAnswering(run: seq<State>, c: string, ask: Ask, bytes: Bytes) {
    && run != []
    && var s := run[|run| - 1];
       && 0 in s.requests && s.requests[0].catalog == c && s.requests[0].ask == ask
       && Sends(s, s.requests[0], bytes)
  }

  lemma CanAnswer(run: seq<State>, c: string, metas: seq<Meta>, ask: Ask, v: nat) returns (longer: seq<State>)
    requires IsRun(run)
    requires var s := run[|run| - 1];
             && s.requests == map[0 := Request(c, ask, Opened(v))] && s.inFlight == map[]
             && DirOf(s, c) == Dir(Some(v), Some(v)) && v < |s.stored| && s.stored[v] == metas
    ensures IsRun(longer) && run <= longer && EndsAnswering(longer, c, ask, Asked(metas, ask))
  {
    if WantsWhole(ask) {
      longer := Extend(run, ServeWhole(0));
    } else {
      longer := CanAskIndexed(run, c, ask.query, v);
      IndexedAnswerExists(metas, ask.query);
    }
  }

  /**
    From every reached state, any metas can be stored for any catalog, and any request about it
    then be answered with what it asks for out of these metas.
  */
  lemma StoreThenAsk(run: seq<State>, c: string, metas: seq<Meta>, ask: Ask) returns (longer: seq<State>)
    requires IsRun(run)
    ensures IsRun(longer) && run <= longer && EndsAnswering(longer, c, ask, Asked(metas, ask))
  {
    var stored, _ := CanStore(run, c, metas);
    var v := |stored[|stored| - 1].stored| - 1;
    var asking := CanOpen(stored, c, ask, v);
    longer := CanAnswer(asking, c, metas, ask, v);
  }
}
