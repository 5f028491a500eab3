/**
  The catalog storage under concurrent requests: a read-write lock around the directory, and
  a singleflight group through which requests share one load of the index file. Every lock
  operation, file operation and wake-up is a step of its own; steps interleave freely.
*/
module CatalogStorage {
  import opened Wrappers
  import opened Objects
  import opened Ordering
  import opened CatalogIndex

  /** The two files of a catalog directory, by the Store that wrote them. */
  datatype Dir = Dir(file: Option<nat>, index: Option<nat>)

  const ABSENT := Dir(None, None)

  /** The two kinds of request: all of a catalog, or the metas that a query asks for. */
  datatype Ask = Everything | Metas(query: Query)

  /** A query without parameters asks for everything too. */
  predicate WantsWhole(ask: Ask) { ask.Everything? || ask.query == Query("", "", "") }

  /** How far a request has come. It holds the read lock all along. */
  datatype Phase =
    | Locked
    | Opened(file: nat)
    | Whole(file: nat)
    | Waiting(file: nat, flight: nat)
    | Indexed(file: nat, index: nat)

  datatype Request = Request(catalog: string, ask: Ask, phase: Phase)

  /** One shared load: None until the index file has been read, then the version read or None. */
  datatype Flight = Flight(catalog: string, leader: nat, loaded: Option<Option<nat>>)

  datatype Writer = Storing(catalog: string, metas: seq<Meta>) | Deleting(catalog: string)

  /**
    `stored` lists what every successful Store stored; `latest` says which of them was the last
    one of a catalog. No step reads `latest`.
  */
  datatype State = State(
    dirs: map<string, Dir>,
    writer: Option<Writer>, requests: map<nat, Request>,
    flights: seq<Flight>, inFlight: map<string, nat>,
    stored: seq<seq<Meta>>, latest: map<string, nat>)

  const INITIAL := State(map[], None, map[], [], map[], [], map[])

  function DirOf(s: State, catalog: string): Dir {
    if catalog in s.dirs then s.dirs[catalog] else ABSENT
  }

  datatype Step =
    // requests
    | ReadLock(r: nat, request: Request)
    | Open(r: nat)
    | ServeWhole(r: nat)
    | GetIndex(r: nat)
    | Load(flight: nat)
    | Finish(flight: nat)
    | Wake(r: nat)
    | Release(r: nat)
    // Store and Delete
    | WriteLock(op: Writer)
    | RemoveFiles(keepFile: bool, keepIndex: bool)
    | Rename
    | WriteUnlock
    // the process dies and starts again
    | Restart

  predicate IsWaiting(s: State, r: nat) { r in s.requests && s.requests[r].phase.Waiting? }

  predicate InFlight(s: State, f: nat) {
    f < |s.flights| && s.flights[f].catalog in s.inFlight && s.inFlight[s.flights[f].catalog] == f
  }

  ghost predicate Enabled(s: State, step: Step) {
    match step
    case ReadLock(r, request) => s.writer.None? && r !in s.requests && request.phase.Locked?
    case Open(r) => r in s.requests && s.requests[r].phase.Locked? && DirOf(s, s.requests[r].catalog).file.Some?
    case ServeWhole(r) => r in s.requests && s.requests[r].phase.Opened? && WantsWhole(s.requests[r].ask)
    case GetIndex(r) => r in s.requests && s.requests[r].phase.Opened? && !WantsWhole(s.requests[r].ask)
    case Load(f) => InFlight(s, f) && s.flights[f].loaded.None?
    case Finish(f) => InFlight(s, f) && s.flights[f].loaded.Some?
    case Wake(r) =>
      IsWaiting(s, r) && s.requests[r].phase.flight < |s.flights| && !InFlight(s, s.requests[r].phase.flight) &&
      s.flights[s.requests[r].phase.flight].loaded.Some? &&
      s.flights[s.requests[r].phase.flight].loaded.value.Some?
    // a response has been sent, or an error; a waiting request only ends once its load is over
    case Release(r) =>
      r in s.requests && (IsWaiting(s, r) ==> !InFlight(s, s.requests[r].phase.flight))
    case WriteLock(_) => s.writer.None? && s.requests == map[]
    case RemoveFiles(_, _) => s.writer.Some?
    case Rename => s.writer.Some? && s.writer.value.Storing? && DirOf(s, s.writer.value.catalog) == ABSENT
    case WriteUnlock => s.writer.Some?
    case Restart => true
  }

  function WithPhase(s: State, r: nat, phase: Phase): State
    requires r in s.requests
  {
    s.(requests := s.requests[r := s.requests[r].(phase := phase)])
  }

  /** singleflight.Do: join the load in flight for this catalog, or lead a new one. */
  function DoGetIndex(s: State, r: nat): State
    requires r in s.requests && s.requests[r].phase.Opened?
  {
    var q := s.requests[r];
    if q.catalog in s.inFlight then WithPhase(s, r, Waiting(q.phase.file, s.inFlight[q.catalog]))
    else
      var f := |s.flights|;
      WithPhase(s, r, Waiting(q.phase.file, f))
        .(flights := s.flights + [Flight(q.catalog, r, None)], inFlight := s.inFlight[q.catalog := f])
  }

  function DoLoad(s: State, f: nat): State
    requires f < |s.flights|
  {
    s.(flights := s.flights[f := s.flights[f].(loaded := Some(DirOf(s, s.flights[f].catalog).index))])
  }

  /** Removing a directory may fail half way. */
  function DoRemove(s: State, catalog: string, keepFile: bool, keepIndex: bool): State {
    var dir := DirOf(s, catalog);
    s.(dirs := s.dirs[catalog := Dir(if keepFile then dir.file else None, if keepIndex then dir.index else None)])
  }

  /** Renaming puts both files of the new version in place at once. */
  function DoRename(s: State): State
    requires s.writer.Some? && s.writer.value.Storing?
  {
    var v := |s.stored|;
    var catalog := s.writer.value.catalog;
    s.(dirs := s.dirs[catalog := Dir(Some(v), Some(v))], stored := s.stored + [s.writer.value.metas],
       latest := s.latest[catalog := v])
  }

  ghost function Do(s: State, step: Step): State
    requires Enabled(s, step)
  {
    match step
    case ReadLock(r, request) => s.(requests := s.requests[r := request])
    case Open(r) => WithPhase(s, r, Opened(DirOf(s, s.requests[r].catalog).file.value))
    case ServeWhole(r) => WithPhase(s, r, Whole(s.requests[r].phase.file))
    case GetIndex(r) => DoGetIndex(s, r)
    case Load(f) => DoLoad(s, f)
    case Finish(f) => s.(inFlight := s.inFlight - {s.flights[f].catalog})
    case Wake(r) =>
      var phase := s.requests[r].phase;
      WithPhase(s, r, Indexed(phase.file, s.flights[phase.flight].loaded.value.value))
    case Release(r) => s.(requests := s.requests - {r})
    case WriteLock(op) => s.(writer := Some(op))
    case RemoveFiles(keepFile, keepIndex) => DoRemove(s, s.writer.value.catalog, keepFile, keepIndex)
    case Rename => DoRename(s)
    case WriteUnlock => s.(writer := None)
    case Restart => s.(writer := None, requests := map[], inFlight := map[])
  }

  ghost predicate Next(s: State, s': State) {
    exists step :: Enabled(s, step) && s' == Do(s, step)
  }

  ghost predicate IsRun(run: seq<State>) {
    && run != [] && run[0] == INITIAL
    && forall i :: 0 < i < |run| ==> Next(run[i - 1], run[i])
  }

  // ---------- the invariant ----------

  /** Files in a directory come from the catalog's latest Store. */
  ghost predicate DirOk(s: State, catalog: string) {
    var dir := DirOf(s, catalog);
    && (dir.file.Some? ==> catalog in s.latest && dir.file.value == s.latest[catalog] < |s.stored|)
    && (dir.index.Some? ==> catalog in s.latest && dir.index.value == s.latest[catalog] < |s.stored|)
  }

  /** What a request has opened or loaded is still what is on disk. */
  ghost predicate RequestOk(s: State, q: Request) {
    match q.phase
    case Locked => true
    case Opened(file) => DirOf(s, q.catalog).file == Some(file)
    case Whole(file) => DirOf(s, q.catalog).file == Some(file) && WantsWhole(q.ask)
    case Waiting(file, f) =>
      && DirOf(s, q.catalog).file == Some(file) && !WantsWhole(q.ask)
      && f < |s.flights| && s.flights[f].catalog == q.catalog
      && (s.flights[f].loaded.Some? ==> s.flights[f].loaded.value == DirOf(s, q.catalog).index)
    case Indexed(file, index) =>
      && DirOf(s, q.catalog).file == Some(file) && DirOf(s, q.catalog).index == Some(index)
      && !WantsWhole(q.ask)
  }

  /** The leader of a load in flight is a request that waits for it, and so holds the lock. */
  ghost predicate FlightOk(s: State, catalog: string) {
    catalog in s.inFlight ==>
      && s.inFlight[catalog] < |s.flights|
      && var f := s.flights[s.inFlight[catalog]];
         && f.catalog == catalog && IsWaiting(s, f.leader)
         && s.requests[f.leader].catalog == catalog
         && s.requests[f.leader].phase.flight == s.inFlight[catalog]
  }

  ghost predicate Safe(s: State) {
    && (s.writer.Some? ==> s.requests == map[])
    && (forall c :: DirOk(s, c))
    && (forall r :: r in s.requests ==> RequestOk(s, s.requests[r]))
    && (forall c :: FlightOk(s, c))
  }

  /** Nothing but the request itself has changed. */
  lemma PhaseKeepsSafe(s: State, r: nat, phase: Phase)
    requires Safe(s) && r in s.requests && !s.requests[r].phase.Waiting?
    requires RequestOk(s, s.requests[r].(phase := phase))
    ensures Safe(WithPhase(s, r, phase))
  {
    var s' := WithPhase(s, r, phase);
    forall c ensures DirOk(s', c) { assert DirOk(s, c); }
    forall c ensures FlightOk(s', c) { assert FlightOk(s, c); }
    forall x | x in s'.requests ensures RequestOk(s', s'.requests[x]) {
      if x != r { assert RequestOk(s, s.requests[x]); }
    }
  }

  lemma JoinKeepsSafe(s: State, r: nat)
    requires Safe(s) && Enabled(s, GetIndex(r)) && s.requests[r].catalog in s.inFlight
    ensures Safe(DoGetIndex(s, r))
  {
    var q := s.requests[r];
    assert FlightOk(s, q.catalog);
    var leader := s.flights[s.inFlight[q.catalog]].leader;
    assert RequestOk(s, s.requests[leader]);
    assert RequestOk(s, q);
    PhaseKeepsSafe(s, r, Waiting(q.phase.file, s.inFlight[q.catalog]));
  }

  lemma LeadKeepsSafe(s: State, r: nat)
    requires Safe(s) && Enabled(s, GetIndex(r)) && s.requests[r].catalog !in s.inFlight
    ensures Safe(DoGetIndex(s, r))
  {
    var s' := DoGetIndex(s, r);
    var q := s.requests[r];
    forall c ensures DirOk(s', c) { assert DirOk(s, c); }
    forall c ensures FlightOk(s', c) { assert FlightOk(s, c); }
    forall x | x in s'.requests ensures RequestOk(s', s'.requests[x]) {
      assert RequestOk(s, s.requests[x]);
    }
  }

  lemma LoadKeepsSafe(s: State, f: nat)
    requires Safe(s) && InFlight(s, f) && s.flights[f].loaded.None?
    ensures Safe(DoLoad(s, f))
  {
    var s' := DoLoad(s, f);
    forall c ensures DirOk(s', c) { assert DirOk(s, c); }
    forall c ensures FlightOk(s', c) { assert FlightOk(s, c); }
    forall x | x in s'.requests ensures RequestOk(s', s'.requests[x]) {
      assert RequestOk(s, s.requests[x]);
    }
  }

  lemma WakeKeepsSafe(s: State, r: nat)
    requires Safe(s) && Enabled(s, Wake(r))
    ensures Safe(Do(s, Wake(r)))
  {
    var s' := Do(s, Wake(r));
    assert RequestOk(s, s.requests[r]);
    forall c ensures DirOk(s', c) { assert DirOk(s, c); }
    forall c ensures FlightOk(s', c) { assert FlightOk(s, c); }
    forall x | x in s'.requests ensures RequestOk(s', s'.requests[x]) {
      assert RequestOk(s, s.requests[x]);
    }
  }

  lemma ReleaseKeepsSafe(s: State, r: nat)
    requires Safe(s) && Enabled(s, Release(r))
    ensures Safe(Do(s, Release(r)))
  {
    var s' := Do(s, Release(r));
    forall c ensures DirOk(s', c) { assert DirOk(s, c); }
    forall c ensures FlightOk(s', c) { assert FlightOk(s, c); }
    forall x | x in s'.requests ensures RequestOk(s', s'.requests[x]) {
      assert RequestOk(s, s.requests[x]);
    }
  }

  /** A load is in flight only while some request holds the lock. */
  lemma WriterAlone(s: State, c: string)
    requires Safe(s) && s.requests == map[]
    ensures c !in s.inFlight
  {
    assert FlightOk(s, c);
  }

  lemma WriterKeepsSafe(s: State, step: Step)
    requires Safe(s) && Enabled(s, step) && (step.RemoveFiles? || step.Rename? || step.WriteUnlock? || step.WriteLock?)
    ensures Safe(Do(s, step))
  {
    var s' := Do(s, step);
    assert s.requests == map[] && s'.requests == map[];
    forall c ensures DirOk(s', c) { assert DirOk(s, c); }
    forall c ensures FlightOk(s', c) { WriterAlone(s, c); }
  }

  lemma OtherKeepsSafe(s: State, step: Step)
    requires Safe(s) && Enabled(s, step) && (step.ReadLock? || step.Finish? || step.Restart?)
    ensures Safe(Do(s, step))
  {
    var s' := Do(s, step);
    forall c ensures DirOk(s', c) { assert DirOk(s, c); }
    forall c ensures FlightOk(s', c) { assert FlightOk(s, c); }
    forall x | x in s'.requests ensures RequestOk(s', s'.requests[x]) {
      if x in s.requests { assert RequestOk(s, s.requests[x]); }
    }
  }

  lemma StepKeepsSafe(s: State, step: Step)
    requires Safe(s) && Enabled(s, step)
    ensures Safe(Do(s, step))
  {
    match step
    case Open(r) => PhaseKeepsSafe(s, r, Opened(DirOf(s, s.requests[r].catalog).file.value));
    case ServeWhole(r) => PhaseKeepsSafe(s, r, Whole(s.requests[r].phase.file));
    case GetIndex(r) =>
      if s.requests[r].catalog in s.inFlight { JoinKeepsSafe(s, r); } else { LeadKeepsSafe(s, r); }
    case Load(f) => LoadKeepsSafe(s, f);
    case Wake(r) => WakeKeepsSafe(s, r);
    case Release(r) => ReleaseKeepsSafe(s, r);
    case ReadLock(_, _) => OtherKeepsSafe(s, step);
    case Finish(_) => OtherKeepsSafe(s, step);
    case Restart => OtherKeepsSafe(s, step);
    case _ => WriterKeepsSafe(s, step);
  }

  lemma {:induction false} RunIsSafe(run: seq<State>, i: nat)
    requires IsRun(run) && i < |run|
    ensures Safe(run[i])
  {
    if i > 0 {
      RunIsSafe(run, i - 1);
      var step :| Enabled(run[i - 1], step) && run[i] == Do(run[i - 1], step);
      StepKeepsSafe(run[i - 1], step);
    } else {
      forall c ensures DirOk(run[0], c) && FlightOk(run[0], c) {}
    }
  }

  // ---------- what a request can answer ----------

  /** The request is at the point of sending its response. */
  predicate Answering(q: Request) { q.phase.Whole? || q.phase.Indexed? }

  /**
    In every interleaving, also for a request that joined another one's load: the file a
    response reads, and the index if it uses one, come from the same Store, the latest
    successful one of that catalog. The index is used exactly when something is asked for.
  */
  lemma IndexAndFileMatch(run: seq<State>, i: nat, r: nat)
    requires IsRun(run) && i < |run| && r in run[i].requests && Answering(run[i].requests[r])
    ensures var q := run[i].requests[r];
            && q.catalog in run[i].latest && run[i].latest[q.catalog] < |run[i].stored|
            && q.phase.file == run[i].latest[q.catalog]
            && (q.phase.Indexed? ==> q.phase.index == q.phase.file)
            && (q.phase.Whole? <==> WantsWhole(q.ask))
  {
    RunIsSafe(run, i);
    var q := run[i].requests[r];
    assert RequestOk(run[i], q);
    assert DirOk(run[i], q.catalog);
  }

  /** What reading the sections of a query can produce, whatever the order of ties. */
  ghost predicate IsIndexedAnswer(fileMetas: seq<Meta>, indexMetas: seq<Meta>, q: Query, bytes: Bytes) {
    exists idx, list ::
      && IsIndexOf(idx, indexMetas)
      && SortedBy(CompareOffsets, list) && multiset(list) == multiset(SectionSet(idx, q))
      && bytes == ReadAll(FileOf(fileMetas), list)
  }

  /** What a request may send, given the versions it has opened and loaded. */
  ghost predicate Sends(s: State, q: Request, bytes: Bytes) {
    match q.phase
    case Whole(file) => file < |s.stored| && bytes == FileOf(s.stored[file])
    case Indexed(file, index) =>
      && file < |s.stored| && index < |s.stored| && q.ask.Metas?
      && IsIndexedAnswer(s.stored[file], s.stored[index], q.ask.query, bytes)
    case _ => false
  }

  /** What a request asks for, out of the metas of a catalog. */
  ghost function Asked(metas: seq<Meta>, ask: Ask): Bytes {
    if WantsWhole(ask) then FileOf(metas) else Scan(metas, ask.query, WithSchema)
  }

  /** Every answer is what the request asks for, out of what the latest successful Store stored. */
  lemma AnswersAreExact(run: seq<State>, i: nat, r: nat, bytes: Bytes)
    requires IsRun(run) && i < |run| && r in run[i].requests && Sends(run[i], run[i].requests[r], bytes)
    ensures var q := run[i].requests[r];
            && q.catalog in run[i].latest && run[i].latest[q.catalog] < |run[i].stored|
            && bytes == Asked(run[i].stored[run[i].latest[q.catalog]], q.ask)
  {
    IndexAndFileMatch(run, i, r);
    var q := run[i].requests[r];
    if q.phase.Indexed? {
      var metas := run[i].stored[q.phase.file];
      var idx, list :| && IsIndexOf(idx, metas)
                       && SortedBy(CompareOffsets, list) && multiset(list) == multiset(SectionSet(idx, q.ask.query))
                       && bytes == ReadAll(FileOf(metas), list);
      SortedSectionsReadScan(idx, metas, q.ask.query, list);
    }
  }

  /** The plain meaning of a request: the blobs of all metas that match, in file order. */
  ghost function Plain(metas: seq<Meta>, ask: Ask): Bytes {
    Scan(metas, if ask.Everything? then Query("", "", "") else ask.query, All)
  }

  /**
    A request is answered by its plain meaning exactly when it is for everything, or every
    matching meta without a schema has an empty blob.
  */
  lemma AskedIsPlainExactly(metas: seq<Meta>, ask: Ask)
    ensures Asked(metas, ask) == Plain(metas, ask) <==>
            || WantsWhole(ask)
            || forall m :: m in metas && Matches(m, ask.query) && m.schema == "" ==> m.blob == ""
  {
    if WantsWhole(ask) {
      ScanOfEverything(metas);
    } else {
      AnswerIsPlainScanExactly(metas, ask.query);
    }
  }
}
