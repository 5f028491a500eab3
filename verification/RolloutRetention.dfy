/** Garbage collection: only archived revisions, never one of the five newest. */
module RolloutRetention {
  import opened Objects
  import opened Revisions
  import opened Rollout
  import opened RolloutSuccession

  // ---------- counting ----------

  ghost function Members(list: seq<nat>): set<nat> { set n | n in list }

  lemma {:induction false} AscendingSize(list: seq<nat>)
    requires Ascending(list)
    ensures |Members(list)| == |list|
  {
    if list != [] {
      var n := |list| - 1;
      AscendingSize(list[..n]);
      assert Members(list) == Members(list[..n]) + {list[n]};
      assert list[n] !in list[..n];
    }
  }

  /** The newest revisions of a list. */
  ghost function Newest(list: seq<nat>): seq<nat> {
    if |list| <= RETENTION_LIMIT then list else list[|list| - RETENTION_LIMIT..]
  }

  // ---------- the invariant ----------

  ghost function KeptAbove(revs: Store, n: nat): set<nat> {
    set m | m in revs && m > n && !revs[m].deleting
  }

  /** A deleting revision has five newer ones that are not. */
  ghost predicate Retained(revs: Store) {
    forall n :: n in revs && revs[n].deleting ==> |KeptAbove(revs, n)| >= RETENTION_LIMIT
  }

  ghost predicate NewestKept(revs: Store, list: seq<nat>) {
    forall n :: n in Newest(list) ==> n in revs && !revs[n].deleting
  }

  /** Up to `index`, the archived revisions beyond the five newest are gone or going. */
  ghost predicate Swept(revs: Store, list: seq<nat>, archived: set<nat>, index: nat) {
    forall i :: 0 <= i < index && i < |list| - RETENTION_LIMIT && list[i] in archived ==>
      list[i] !in revs || revs[list[i]].deleting
  }

  ghost predicate Sweeping(revs: Store, last: nat, ext: Extension) {
    match ext
    case Listed(_, _, list, archived) => NewestKept(revs, list) && (forall n :: n in list ==> n <= last)
    case Collecting(_, _, list, archived, index) =>
      NewestKept(revs, list) && Swept(revs, list, archived, index) && (forall n :: n in list ==> n <= last)
    case Creating(_, list, archived, _, _, _, _) =>
      NewestKept(revs, list) && Swept(revs, list, archived, |list|) && (forall n :: n in list ==> n <= last) &&
      (forall n :: n in archived && n in revs ==> n in list)
    case _ => true
  }

  ghost predicate RetentionOk(s: State) {
    Retained(s.revs) && Sweeping(s.revs, s.last, s.ext)
  }

  // ---------- steps that delete nothing ----------

  ghost predicate DeletesNothing(revs: Store, revs': Store, last: nat) {
    && (forall n :: n in revs ==> if n in revs' then revs'[n].deleting == revs[n].deleting else revs[n].deleting)
    && (forall n :: n in revs' && n !in revs ==> !revs'[n].deleting && n > last)
  }

  lemma RetainedStable(revs: Store, revs': Store, last: nat)
    requires Retained(revs) && DeletesNothing(revs, revs', last)
    ensures Retained(revs')
  {
    forall n | n in revs' && revs'[n].deleting ensures |KeptAbove(revs', n)| >= RETENTION_LIMIT {
      Ordering.SubsetSize(KeptAbove(revs, n), KeptAbove(revs', n));
    }
  }

  lemma SweepingStable(revs: Store, revs': Store, last: nat, ext: Extension)
    requires Sweeping(revs, last, ext) && DeletesNothing(revs, revs', last)
    requires forall n :: n in revs' ==> n in revs
    ensures Sweeping(revs', last, ext)
  {}

  ghost predicate QuietStep(step: Step) {
    !step.CollectOne? && !step.ListRevisions? && !step.CreateRevision? && !step.MigrateCreate? && !step.StartCreating?
  }

  lemma AppliedDeletesNothing(revs: Store, last: nat, n: nat, d: Desired)
    requires n in revs
    ensures DeletesNothing(revs, Applied(revs, n, d), last)
    ensures forall m :: m in Applied(revs, n, d) ==> m in revs
  {}

  lemma ApplyInPlaceDeletesNothing(p: Params, s: State)
    requires Safe(s) && Enabled(p, s, ApplyInPlace)
    ensures DeletesNothing(s.revs, Do(p, s, ApplyInPlace).revs, s.last)
    ensures forall n :: n in Do(p, s, ApplyInPlace).revs ==> n in s.revs
  {
    var n, d := ApplyInPlaceCases(p, s);
    AppliedDeletesNothing(s.revs, s.last, n, d);
  }

  lemma RevisionStepDeletesNothing(p: Params, s: State, step: Step)
    requires Enabled(p, s, step) && IsRevisionStep(step)
    ensures DeletesNothing(s.revs, Do(p, s, step).revs, s.last)
    ensures forall n :: n in Do(p, s, step).revs ==> n in s.revs
  {}

  lemma WriteDeletesNothing(p: Params, s: State, step: Step)
    requires Safe(s) && Enabled(p, s, step) && QuietStep(step)
    ensures DeletesNothing(s.revs, Do(p, s, step).revs, s.last)
    ensures forall n :: n in Do(p, s, step).revs ==> n in s.revs
  {
    if IsRevisionStep(step) {
      RevisionStepDeletesNothing(p, s, step);
    } else if step.ApplyInPlace? {
      ApplyInPlaceDeletesNothing(p, s);
    } else if !step.MigrateReport? {
      assert Do(p, s, step).revs == s.revs;
    }
  }

  lemma RevisionStepKeepsExtension(p: Params, s: State, step: Step)
    requires Enabled(p, s, step) && IsRevisionStep(step)
    ensures Do(p, s, step).ext == s.ext && Do(p, s, step).last == s.last
  {}

  lemma QuietMovesSweeping(p: Params, s: State, step: Step)
    requires Enabled(p, s, step) && QuietStep(step)
    requires Sweeping(Do(p, s, step).revs, s.last, s.ext)
    ensures Sweeping(Do(p, s, step).revs, Do(p, s, step).last, Do(p, s, step).ext)
  {
    if IsRevisionStep(step) {
      RevisionStepKeepsExtension(p, s, step);
    }
  }

  // ---------- the other steps ----------

  /** Everything above list[i] is in the rest of the list. */
  lemma AboveIsListed(list: seq<nat>, i: nat, m: nat)
    requires Ascending(list) && i < |list| && m in list && m > list[i]
    ensures m in Members(list[i + 1..])
  {
    var j :| 0 <= j < |list| && list[j] == m;
    assert list[i + 1..][j - i - 1] == m;
  }

  lemma FewAbove(revs: Store, list: seq<nat>, i: nat)
    requires IsListing(list, revs.Keys) && i < |list|
    ensures |KeptAbove(revs, list[i])| <= |list| - i - 1
  {
    var above := list[i + 1..];
    AscendingSize(above);
    forall m | m in KeptAbove(revs, list[i]) ensures m in Members(above) {
      AboveIsListed(list, i, m);
    }
    Ordering.SubsetSize(KeptAbove(revs, list[i]), Members(above));
  }

  /** The five newest of a fresh list are not being deleted. */
  lemma ListedNewestKept(revs: Store, list: seq<nat>, n: nat)
    requires Retained(revs) && IsListing(list, revs.Keys) && n in Newest(list)
    ensures n in revs && !revs[n].deleting
  {
    var i :| 0 <= i < |list| && list[i] == n && i >= |list| - RETENTION_LIMIT;
    FewAbove(revs, list, i);
  }

  lemma ListRevisionsKeepsRetention(p: Params, s: State, content: seq<Phase>, list: seq<nat>)
    requires Safe(s) && RetentionOk(s) && Enabled(p, s, ListRevisions(content, list))
    ensures RetentionOk(Do(p, s, ListRevisions(content, list)))
  {
    forall n | n in Newest(list) ensures n in s.revs && !s.revs[n].deleting {
      ListedNewestKept(s.revs, list, n);
    }
  }

  /** Deleting list[index] leaves the newest five above it. */
  lemma NewestAbove(revs: Store, list: seq<nat>, index: nat, n: nat)
    requires Ascending(list) && index < |list| - RETENTION_LIMIT && n <= list[index]
    requires NewestKept(revs, list)
    ensures |KeptAbove(revs, n)| >= RETENTION_LIMIT
    ensures list[index] !in Newest(list)
  {
    var newest := Newest(list);
    AscendingSize(newest);
    forall m | m in Members(newest) ensures m in KeptAbove(revs, n) && m > list[index] {
      var j :| 0 <= j < |newest| && newest[j] == m;
      assert m == list[|list| - RETENTION_LIMIT + j];
    }
    Ordering.SubsetSize(Members(newest), KeptAbove(revs, n));
  }

  lemma DeletedRetains(revs: Store, list: seq<nat>, index: nat)
    requires Ascending(list) && index < |list| - RETENTION_LIMIT && NewestKept(revs, list) && Retained(revs)
    ensures NewestKept(Deleted(revs, list[index]), list) && Retained(Deleted(revs, list[index]))
  {
    var n := list[index];
    var revs' := Deleted(revs, n);
    NewestAbove(revs, list, index, n);
    forall m | m in revs' && revs'[m].deleting ensures |KeptAbove(revs', m)| >= RETENTION_LIMIT {
      if m <= n {
        NewestAbove(revs', list, index, m);
      } else {
        assert KeptAbove(revs', m) == KeptAbove(revs, m);
      }
    }
  }

  lemma DeletedSwept(revs: Store, list: seq<nat>, archived: set<nat>, index: nat)
    requires Swept(revs, list, archived, index) && index < |list|
    ensures Swept(Deleted(revs, list[index]), list, archived, index + 1)
  {}

  lemma CollectOneKeepsRetention(s: State)
    requires Safe(s) && RetentionOk(s) && s.ext.Collecting? && s.ext.index < |s.ext.list|
    ensures RetentionOk(DoCollectOne(s))
  {
    var e := s.ext;
    if e.index < |e.list| - RETENTION_LIMIT && e.list[e.index] in e.archived {
      DeletedRetains(s.revs, e.list, e.index);
      DeletedSwept(s.revs, e.list, e.archived, e.index);
    }
  }

  lemma CreationDeletesNothing(p: Params, s: State, step: Step)
    requires Safe(s) && Enabled(p, s, step)
    requires step.MigrateCreate? || step.CreateRevision?
    ensures DeletesNothing(s.revs, Do(p, s, step).revs, s.last)
  {}

  lemma CreationKeepsRetention(p: Params, s: State, step: Step)
    requires Safe(s) && RetentionOk(s) && Enabled(p, s, step)
    requires step.MigrateCreate? || step.CreateRevision?
    ensures RetentionOk(Do(p, s, step))
  {
    CreationDeletesNothing(p, s, step);
    RetainedStable(s.revs, Do(p, s, step).revs, s.last);
    var ext := Do(p, s, step).ext;
    assert ext.Idle? || ext.Owning?;
  }

  lemma StartCreatingKeepsRetention(p: Params, s: State)
    requires Safe(s) && RetentionOk(s) && Enabled(p, s, StartCreating)
    ensures RetentionOk(Do(p, s, StartCreating))
  {}

  lemma StepKeepsRetention(p: Params, s: State, step: Step)
    requires Safe(s) && RetentionOk(s) && Enabled(p, s, step)
    ensures RetentionOk(Do(p, s, step))
  {
    if QuietStep(step) {
      WriteDeletesNothing(p, s, step);
      RetainedStable(s.revs, Do(p, s, step).revs, s.last);
      SweepingStable(s.revs, Do(p, s, step).revs, s.last, s.ext);
      QuietMovesSweeping(p, s, step);
    } else if step.CollectOne? {
      CollectOneKeepsRetention(s);
    } else if step.ListRevisions? {
      ListRevisionsKeepsRetention(p, s, step.rendered, step.listing);
    } else if step.StartCreating? {
      StartCreatingKeepsRetention(p, s);
    } else {
      CreationKeepsRetention(p, s, step);
    }
  }

  lemma {:induction false} RunRetains(p: Params, run: seq<State>, i: nat)
    requires IsRun(p, run) && i < |run|
    ensures RetentionOk(run[i])
  {
    if i > 0 {
      RunRetains(p, run, i - 1);
      RunIsSafe(p, run, i - 1);
      var step := StepOf(p, run, i - 1);
      StepKeepsRetention(p, run[i - 1], step);
    }
  }

  // ---------- consequences ----------

  ghost predicate Stands(revs: Store, n: nat) {
    n in revs && !revs[n].deleting
  }

  /** A step that deletes a revision: it was archived, and five newer ones stay. */
  lemma StepDeletesSafely(p: Params, s: State, step: Step, n: nat)
    requires Safe(s) && RetentionOk(s) && Enabled(p, s, step)
    requires Stands(s.revs, n) && !Stands(Do(p, s, step).revs, n)
    ensures s.revs[n].lifecycle.Archived? && |KeptAbove(Do(p, s, step).revs, n)| >= RETENTION_LIMIT
  {
    if QuietStep(step) {
      WriteDeletesNothing(p, s, step);
    } else if step.CollectOne? {
      CollectOneKeepsRetention(s);
      NewestAbove(DoCollectOne(s).revs, s.ext.list, s.ext.index, n);
    } else if step.CreateRevision? || step.MigrateCreate? {
      CreationDeletesNothing(p, s, step);
    }
  }

  /** Once collection is over, at most five of the listed archived revisions still stand. */
  lemma AtMostFiveLeft(s: State)
    requires Safe(s) && RetentionOk(s) && s.ext.Creating?
    ensures |set n | n in s.ext.archived && Stands(s.revs, n)| <= RETENTION_LIMIT
  {
    var list := s.ext.list;
    var left := set n | n in s.ext.archived && Stands(s.revs, n);
    forall n | n in left ensures n in Members(Newest(list)) {
      assert n in list;
      var i :| 0 <= i < |list| && list[i] == n;
      assert i >= |list| - RETENTION_LIMIT;
      if |list| > RETENTION_LIMIT { assert Newest(list)[i - (|list| - RETENTION_LIMIT)] == n; }
    }
    AscendingSize(Newest(list));
    Ordering.SubsetSize(left, Members(Newest(list)));
  }
}
