/** What holds in every state of every run of the rollout protocol. */
module RolloutTheorems {
  import opened Wrappers
  import opened Objects
  import opened SecretPacker
  import opened SecretPackerProperties
  import opened Externalization
  import opened Revisions
  import opened Rollout
  import opened RolloutSuccession
  import opened RolloutBundles
  import opened RolloutSecrets
  import opened RolloutRetention

  // ---------- succession ----------

  /** If a revision has succeeded, every lower-numbered one is archived. */
  lemma PredecessorsArchived(p: Params, run: seq<State>, i: nat, n: nat, r: nat)
    requires IsRun(p, run) && i < |run|
    requires n in run[i].revs && run[i].revs[n].succeeded && r in run[i].revs && r < n
    ensures run[i].revs[r].lifecycle.Archived?
  {
    RunIsSafe(p, run, i);
    assert LowerArchived(run[i].revs, n);
  }

  lemma AtMostOneInstalled(p: Params, run: seq<State>, i: nat, m: nat, n: nat)
    requires IsRun(p, run) && i < |run|
    requires IsInstalled(run[i].revs, m) && IsInstalled(run[i].revs, n)
    ensures m == n
  {
    if m < n {
      PredecessorsArchived(p, run, i, n, m);
    } else if n < m {
      PredecessorsArchived(p, run, i, m, n);
    }
  }

  /**
    Whatever the extension's reconciler reads: Installed is the only active revision that has
    succeeded, and it is numbered below every revision reported as rolling out.
  */
  lemma InstalledBelowRollingOut(p: Params, run: seq<State>, i: nat, list: seq<nat>)
    requires IsRun(p, run) && i < |run| && IsListing(list, run[i].revs.Keys)
    ensures var revs := run[i].revs;
            var rs := StatesOf(revs, list);
            && (forall n :: IsInstalled(revs, n) <==> rs.installed.Some? && rs.installed.value.number == n)
            && (rs.installed.Some? ==>
                  forall meta :: meta in rs.rollingOut ==> rs.installed.value.number < meta.number)
  {
    var revs := run[i].revs;
    var rs := StatesOf(revs, list);
    InstalledExact(revs, list);
    if rs.installed.Some? {
      var k := rs.installed.value.number;
      forall n | IsInstalled(revs, n) ensures n == k {
        AtMostOneInstalled(p, run, i, n, k);
      }
      forall meta | meta in rs.rollingOut ensures k < meta.number {
        RollingOutExact(revs, list, meta.number);
        if meta.number < k {
          PredecessorsArchived(p, run, i, k, meta.number);
        }
      }
    } else {
      forall n | n in revs ensures n in list {}
    }
  }

  /** The revision with the highest number is never archived and never deleted. */
  lemma HighestIsLive(p: Params, run: seq<State>, i: nat, n: nat)
    requires IsRun(p, run) && i < |run|
    requires n in run[i].revs && forall m :: m in run[i].revs ==> m <= n
    ensures run[i].revs[n].lifecycle.Active? && !run[i].revs[n].deleting
  {
    RunIsSafe(p, run, i);
  }

  // ---------- bundles ----------

  /** All active revisions that have not succeeded carry the same bundle annotations. */
  lemma RollingOutFromOneBundle(p: Params, run: seq<State>, i: nat, m: nat, n: nat)
    requires IsRun(p, run) && i < |run|
    requires IsRollingOut(run[i].revs, m) && IsRollingOut(run[i].revs, n)
    ensures run[i].revs[m].bundle == run[i].revs[n].bundle
  {
    RunAgreesOnBundles(p, run, i);
  }

  // ---------- numbers ----------

  lemma StepInRun(p: Params, run: seq<State>, i: nat) returns (step: Step)
    requires IsRun(p, run) && i + 1 < |run|
    ensures Safe(run[i]) && Enabled(p, run[i], step) && run[i + 1] == Do(p, run[i], step)
    ensures Evolves(run[i].revs, run[i + 1].revs, run[i].last) && run[i].last <= run[i + 1].last
  {
    RunIsSafe(p, run, i);
    step := StepOf(p, run, i);
    StepEvolves(p, run[i], step);
  }

  /** All that the number theorems need to know about a run. */
  ghost predicate Growing(run: seq<State>) {
    && (forall i, n :: 0 <= i < |run| && n in run[i].revs ==> n <= run[i].last)
    && (forall i :: 0 <= i < |run| - 1 ==> run[i].last <= run[i + 1].last)
    && (forall i :: 0 <= i < |run| - 1 ==> Evolves(run[i].revs, run[i + 1].revs, run[i].last))
  }

  lemma RunIsGrowing(p: Params, run: seq<State>)
    requires IsRun(p, run)
    ensures Growing(run)
  {
    forall i, n | 0 <= i < |run| && n in run[i].revs ensures n <= run[i].last {
      RunIsSafe(p, run, i);
    }
    forall i | 0 <= i < |run| - 1
      ensures run[i].last <= run[i + 1].last && Evolves(run[i].revs, run[i + 1].revs, run[i].last)
    {
      var _ := StepInRun(p, run, i);
    }
  }

  lemma {:induction false} LastGrows(run: seq<State>, i: nat, j: nat)
    requires Growing(run) && i <= j < |run|
    ensures run[i].last <= run[j].last
    decreases j
  {
    if i < j {
      LastGrows(run, i, j - 1);
      assert run[j - 1].last <= run[j - 1 + 1].last;
    }
  }

  lemma {:induction false} GoneStaysGone(run: seq<State>, i: nat, j: nat, k: nat, n: nat)
    requires Growing(run) && i <= j <= k < |run|
    requires n in run[i].revs && n !in run[j].revs
    ensures n !in run[k].revs
    decreases k
  {
    if j < k {
      GoneStaysGone(run, i, j, k - 1, n);
      LastGrows(run, i, k - 1);
      assert Evolves(run[k - 1].revs, run[k - 1 + 1].revs, run[k - 1].last);
    }
  }

  lemma {:induction false} WritesAccumulate(run: seq<State>, i: nat, j: nat, n: nat)
    requires Growing(run) && i <= j < |run| && n in run[i].revs && n in run[j].revs
    ensures run[i].revs[n].lifecycle.Archived? ==> run[j].revs[n].lifecycle.Archived?
    ensures run[i].revs[n].succeeded ==> run[j].revs[n].succeeded
    decreases j
  {
    if i < j {
      if n !in run[j - 1].revs {
        GoneStaysGone(run, i, j - 1, j, n);
      } else {
        WritesAccumulate(run, i, j - 1, n);
        assert Evolves(run[j - 1].revs, run[j - 1 + 1].revs, run[j - 1].last);
      }
    }
  }

  /** A revision that appears is numbered above every revision there ever was. */
  lemma NewNumbersAreHigher(p: Params, run: seq<State>, i: nat, n: nat, j: nat, m: nat)
    requires IsRun(p, run) && i + 1 < |run| && n in run[i + 1].revs && n !in run[i].revs
    requires j <= i && m in run[j].revs
    ensures m < n
  {
    RunIsGrowing(p, run);
    LastGrows(run, j, i);
  }

  /** Its number is one more than the highest number there is, or 1 if there is none. */
  lemma NumbersAreConsecutive(p: Params, run: seq<State>, i: nat, n: nat)
    requires IsRun(p, run) && i + 1 < |run| && n in run[i + 1].revs && n !in run[i].revs
    ensures if run[i].revs == map[] then n == 1
            else n > 1 && n - 1 in run[i].revs && forall m :: m in run[i].revs ==> m <= n - 1
  {
    RunIsSafe(p, run, i);
    RunIsGrowing(p, run);
    assert n == run[i].last + 1;
  }

  /** A number that is gone never comes back. */
  lemma NumbersNeverReused(p: Params, run: seq<State>, i: nat, j: nat, k: nat, n: nat)
    requires IsRun(p, run) && i <= j <= k < |run|
    requires n in run[i].revs && n !in run[j].revs
    ensures n !in run[k].revs
  {
    RunIsGrowing(p, run);
    GoneStaysGone(run, i, j, k, n);
  }

  /** Archived stays archived and succeeded stays succeeded, for as long as the revision exists. */
  lemma ProgressIsKept(p: Params, run: seq<State>, i: nat, j: nat, n: nat)
    requires IsRun(p, run) && i <= j < |run|
    requires n in run[i].revs && n in run[j].revs
    ensures run[i].revs[n].lifecycle.Archived? ==> run[j].revs[n].lifecycle.Archived?
    ensures run[i].revs[n].succeeded ==> run[j].revs[n].succeeded
  {
    RunIsGrowing(p, run);
    WritesAccumulate(run, i, j, n);
  }

  // ---------- garbage collection ----------

  /** A revision starts being deleted only when it is archived and five newer ones stay. */
  lemma OnlyOldArchivedDeleted(p: Params, run: seq<State>, i: nat, n: nat)
    requires IsRun(p, run) && i + 1 < |run|
    requires n in run[i].revs && !run[i].revs[n].deleting
    requires !(n in run[i + 1].revs && !run[i + 1].revs[n].deleting)
    ensures run[i].revs[n].lifecycle.Archived?
    ensures var revs' := run[i + 1].revs;
            |set m | m in revs' && m > n && !revs'[m].deleting| >= 5
  {
    RunRetains(p, run, i);
    var step := StepInRun(p, run, i);
    StepDeletesSafely(p, run[i], step, n);
  }

  /** The extension's reconciler is between listing the revisions and the end of creating one. */
  predicate Applying(ext: Extension) { ext.Listed? || ext.Collecting? || ext.Creating? }

  lemma ApplyingKeepsArchived(p: Params, s: State, step: Step)
    requires Enabled(p, s, step) && Applying(s.ext) && Applying(Do(p, s, step).ext)
    ensures Do(p, s, step).ext.archived == s.ext.archived
  {
    if IsRevisionStep(step) {
      RevisionStepKeepsExtension(p, s, step);
    }
  }

  ghost predicate ArchivedAt(run: seq<State>, k: int, archived: set<nat>) {
    0 <= k < |run| && Applying(run[k].ext) && run[k].ext.archived == archived
  }

  lemma {:induction false} ArchivedAccumulates(run: seq<State>, j: nat, i: nat, archived: set<nat>)
    requires j <= i && ArchivedAt(run, j, archived)
    requires forall k :: j <= k < i && ArchivedAt(run, k, archived) ==> ArchivedAt(run, k + 1, archived)
    ensures ArchivedAt(run, i, archived)
    decreases i
  {
    if i > j { ArchivedAccumulates(run, j, i - 1, archived); }
  }

  ghost predicate ApplyingBetween(run: seq<State>, j: int, i: int) {
    forall k :: j <= k <= i && 0 <= k < |run| ==> Applying(run[k].ext)
  }

  lemma ArchivedAsListed(p: Params, run: seq<State>, j: nat, i: nat, archived: set<nat>)
    requires IsRun(p, run) && j <= i < |run| && ApplyingBetween(run, j, i) && ArchivedAt(run, j, archived)
    ensures ArchivedAt(run, i, archived)
  {
    forall k | j <= k < i && ArchivedAt(run, k, archived) ensures ArchivedAt(run, k + 1, archived) {
      var step := StepOf(p, run, k);
      ApplyingKeepsArchived(p, run[k], step);
    }
    ArchivedAccumulates(run, j, i, archived);
  }

  /**
    Whenever the revisions are listed at step j and a new one is being created from that list at
    state i, at most five of those that were archived when listed are left undeleted.
  */
  lemma FewArchivedLeft(p: Params, run: seq<State>, j: nat, i: nat, content: seq<Phase>, listing: seq<nat>)
    requires IsRun(p, run) && j < i < |run| && run[i].ext.Creating? && ApplyingBetween(run, j + 1, i)
    requires Enabled(p, run[j], ListRevisions(content, listing))
    requires run[j + 1] == Do(p, run[j], ListRevisions(content, listing))
    ensures |set n | n in run[j].revs && run[j].revs[n].lifecycle.Archived? &&
                     n in run[i].revs && !run[i].revs[n].deleting| <= 5
  {
    var archived := set n | n in run[j].revs && run[j].revs[n].lifecycle.Archived?;
    ArchivedAsListed(p, run, j + 1, i, archived);
    RunIsSafe(p, run, i);
    RunRetains(p, run, i);
    AtMostFiveLeft(run[i]);
    assert (set n | n in run[j].revs && run[j].revs[n].lifecycle.Archived? &&
                    n in run[i].revs && !run[i].revs[n].deleting) ==
           (set n | n in run[i].ext.archived && Stands(run[i].revs, n));
  }

  // ---------- refs ----------

  /** The Secrets of the cluster as the revision's reconciler reads them. */
  function StoreOf(p: Params, secrets: Secrets): SecretStore {
    map name | name in secrets :: SecretKey(p.namespace, name) := secrets[name].data
  }

  /**
    In every state of every run, every ref leads to the bytes whose hash is its key, as long as
    no in-place apply has filled a revision without phases while a Secret it names was missing.
  */
  lemma RefsResolve(p: Params, run: seq<State>, i: nat, n: nat, pos: Pos)
    requires Assumed(p) && IsRun(p, run) && i < |run| && NoDanglingFillBefore(p, run, i)
    requires n in run[i].revs && ValidPos(run[i].revs[n].phases, pos)
    requires At(run[i].revs[n].phases, pos).ref.Some?
    ensures var ref := At(run[i].revs[n].phases, pos).ref.value;
            var store := StoreOf(p, run[i].secrets);
            var key := SecretKey(ref.namespace, ref.name);
            && key in store && ref.key in store[key]
            && p.codec.contentHash(store[key][ref.key]) == ref.key
            && store[key][ref.key] in p.universe
  {
    RunKeepsSecrets(p, run, i);
    RefsHoldExactly(p, run, i);
    var s := run[i];
    var ref := At(s.revs[n].phases, pos).ref.value;
    assert RefsOkAt(p, run, i);
    assert PhasesOk(p, s.secrets, n, s.revs[n].phases);
    assert RefOk(p, s.secrets, n, ref);
    assert GenuineSecret(p, s.last, ref.name, s.secrets[ref.name]);
    assert s.secrets[ref.name].data[ref.key] in s.secrets[ref.name].data.Values;
    assert SecretKey(p.namespace, ref.name) in StoreOf(p, s.secrets);
  }

  /** The ref at pos resolves to the bytes of the object that stood there, up to the size limit. */
  ghost predicate ResolvesTo(p: Params, s: State, phases: seq<Phase>, content: seq<Phase>, pos: Pos) {
    ValidPos(content, pos) && At(content, pos).inline.Some? ==>
      && ValidPos(phases, pos) && At(phases, pos).ref.Some?
      && p.codec.marshal(At(content, pos).inline.value).Some?
      && var bytes := p.codec.marshal(At(content, pos).inline.value).value;
         ResolveObjectRef(p.codec, StoreOf(p, s.secrets), At(phases, pos).ref.value) ==
         if |bytes| <= MAX_DECOMPRESSED_SIZE then Ok(bytes) else Err(DecompressedTooLarge)
  }

  lemma PackedResolves(p: Params, run: seq<State>, i: nat, n: nat, content: seq<Phase>, pos: Pos)
    requires Assumed(p) && IsRun(p, run) && i < |run| && NoDanglingFillBefore(p, run, i)
    requires n in run[i].revs && PackedFrom(p, n, run[i].revs[n].phases, content)
    ensures ResolvesTo(p, run[i], run[i].revs[n].phases, content, pos)
  {
    if ValidPos(content, pos) && At(content, pos).inline.Some? {
      var packer := PackerFor(p, n);
      var r := Packed(p.codec, packer, content).value;
      PackPlaces(p.codec, packer, content, p.universe);
      ReplacedAt(content, r.refs, pos);
      var e := Entry(pos, At(content, pos).inline.value);
      EntriesExact(content, e);
      RefsResolve(p, run, i, n, pos);
      assert Encode(p.codec, e).value in Encodings(p.codec, content);
      DecodeUndoesEncode(p.codec, StoreOf(p, run[i].secrets), r.refs[pos], e);
    }
  }

  /**
    From end to end: in every run, every revision that was not migrated was packed from some
    rendered content, and every object of that content is what its ref resolves to.
  */
  lemma RevisionResolvesToContent(p: Params, run: seq<State>, i: nat, n: nat) returns (content: seq<Phase>)
    requires Assumed(p) && IsRun(p, run) && i < |run| && NoDanglingFillBefore(p, run, i)
    requires n in run[i].revs && run[i].revs[n].protection.Prevent?
    ensures PackedFrom(p, n, run[i].revs[n].phases, content)
    ensures forall pos :: ResolvesTo(p, run[i], run[i].revs[n].phases, content, pos)
  {
    RunKeepsSecrets(p, run, i);
    content :| PackedFrom(p, n, run[i].revs[n].phases, content);
    forall pos ensures ResolvesTo(p, run[i], run[i].revs[n].phases, content, pos) {
      PackedResolves(p, run, i, n, content, pos);
    }
  }

  // ---------- bundles that render to nothing ----------

  ghost predicate Reached(p: Params, s: State) {
    exists run :: IsRun(p, run) && run[|run| - 1] == s
  }

  lemma ReachedInitially(p: Params)
    ensures Reached(p, INITIAL)
  {
    assert IsRun(p, [INITIAL]);
  }

  lemma ReachedNext(p: Params, s: State, step: Step)
    requires Reached(p, s) && Enabled(p, s, step)
    ensures Reached(p, Do(p, s, step))
  {
    var run :| IsRun(p, run) && run[|run| - 1] == s;
    var longer := Extend(p, run, step);
    assert longer[|longer| - 1] == Do(p, s, step);
  }

  function Empty(b: Bundle): Revision { Fresh(Desired(b, Prevent, [], false)) }

  lemma EmptyContentListed(p: Params, b: Bundle)
    requires p.allowEmpty
    ensures Reached(p, INITIAL.(ext := Collecting(b, [], [], {}, 0)))
  {
    ReachedInitially(p);
    var none: seq<nat> := [];
    assert IsListing(none, INITIAL.revs.Keys);
    ReachedNext(p, INITIAL, ReadStates(none));
    var s1 := INITIAL.(ext := StatesRead(RevisionStates(None, [])));
    ReachedNext(p, s1, Resolve(b));
    var s2 := s1.(ext := Resolved(b));
    assert Encodings(p.codec, []) == {};
    ReachedNext(p, s2, ListRevisions([], none));
    var s3 := Do(p, s2, ListRevisions([], none));
    assert s3.ext.archived == {};
    ReachedNext(p, s3, NothingToApply);
  }

  /** A bundle that renders to nothing becomes a revision without phases. */
  lemma EmptyRevisionReached(p: Params, b: Bundle)
    requires p.allowEmpty
    ensures Reached(p, State(map[1 := Empty(b)], map[], 1, Idle, map[]))
  {
    EmptyContentListed(p, b);
    var s4 := INITIAL.(ext := Collecting(b, [], [], {}, 0));
    assert Packed(p.codec, PackerFor(p, 1), []) == Ok(PackResult([], map[]));
    ReachedNext(p, s4, StartCreating);
    var s5 := INITIAL.(ext := Creating(b, [], {}, 1, PackResult([], map[]), [], 0));
    assert Replaced([], map[]) == [];
    assert Do(p, s4, StartCreating) == s5;
    ReachedNext(p, s5, CreateRevision);
    var s6 := State(map[1 := Empty(b)], map[], 1, Owning(1, {}), map[]);
    assert SecretNames([]) == {};
    assert Do(p, s5, CreateRevision) == s6;
    ReachedNext(p, s6, Abort);
  }

  lemma EmptyRevisionListed(p: Params, b: Bundle, content: seq<Phase>)
    requires p.allowEmpty && Generated(p, content)
    ensures Reached(p, State(map[1 := Empty(b)], map[], 1, Listed(b, content, [1], {}), map[]))
  {
    EmptyRevisionReached(p, b);
    var s0 := State(map[1 := Empty(b)], map[], 1, Idle, map[]);
    var one: seq<nat> := [1];
    assert IsListing(one, s0.revs.Keys);
    ReachedNext(p, s0, ReadStates(one));
    assert one[..|one| - 1] == [] && StatesOf(s0.revs, []) == RevisionStates(None, []);
    var s1 := s0.(ext := StatesRead(RevisionStates(None, [Metadata(1, b)])));
    assert StatesOf(s0.revs, one).rollingOut == [Metadata(1, b)];
    assert Do(p, s0, ReadStates(one)) == s1;
    ReachedNext(p, s1, Resolve(b));
    var s2 := s0.(ext := Resolved(b));
    ReachedNext(p, s2, ListRevisions(content, one));
    var s3 := Do(p, s2, ListRevisions(content, one));
    assert s3.ext.archived == {};
    assert s3 == s0.(ext := Listed(b, content, one, {}));
  }

  /**
    If a bundle may render to nothing, refs can dangle: the empty revision is then filled in
    place, and no Secret is created for it.
  */
  lemma EmptyPhasesLeaveDanglingRef(p: Params, b: Bundle, content: seq<Phase>, pos: Pos)
    requires p.allowEmpty && CollisionFree(p.codec, p.universe)
    requires Generated(p, content) && Packed(p.codec, PackerFor(p, 1), content).Ok?
    requires ValidPos(content, pos) && At(content, pos).inline.Some?
    ensures exists s :: && Reached(p, s) && s.secrets == map[]
                        && 1 in s.revs && ValidPos(s.revs[1].phases, pos) && At(s.revs[1].phases, pos).ref.Some?
  {
    EmptyRevisionListed(p, b, content);
    var s3 := State(map[1 := Empty(b)], map[], 1, Listed(b, content, [1], {}), map[]);
    ReachedNext(p, s3, ApplyInPlace);
    var s4 := Do(p, s3, ApplyInPlace);
    var refs := Packed(p.codec, PackerFor(p, 1), content).value.refs;
    PackPlaces(p.codec, PackerFor(p, 1), content, p.universe);
    ReplacedAt(content, refs, pos);
    assert s4.revs[1].phases == Replaced(content, refs);
  }
}
