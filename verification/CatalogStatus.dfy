/** The status of a ClusterCatalog and the helpers that update it. */
module CatalogStatus {
  import opened Wrappers
  import opened Conditions

  datatype Status = Status(conditions: seq<Dated>, resolvedRef: Option<string>, baseUrl: Option<string>,
                           lastUnpacked: Option<nat>)

  const SERVING := "Serving"
  const PROGRESSING := "Progressing"

  function ServingCondition(generation: int): Condition {
    Condition(SERVING, True, "Available", "Serving desired content from resolved source", generation)
  }

  function ProgressingCondition(generation: int): Condition {
    Condition(PROGRESSING, True, "Succeeded", "Successfully unpacked and stored content from resolved source",
              generation)
  }

  datatype Failure = NoFailure | Retryable(message: string) | Terminal(message: string)

  /** updateStatusProgressing. */
  function UpdateProgressing(s: Status, generation: int, failure: Failure, now: nat): Status {
    var c := match failure
      case NoFailure => ProgressingCondition(generation)
      case Retryable(message) => Condition(PROGRESSING, True, "Retrying", message, generation)
      case Terminal(message) => Condition(PROGRESSING, False, "Blocked", message, generation);
    s.(conditions := SetCondition(s.conditions, c, now))
  }

  /** updateStatusServing; the unpack time is cut to whole seconds. */
  function UpdateServing(s: Status, ref: string, unpacked: nat, url: string, generation: int, now: nat): Status {
    Status(SetCondition(s.conditions, ServingCondition(generation), now), Some(ref), Some(url), Some(unpacked / SECOND))
  }

  /** updateStatusNotServing. */
  function UpdateNotServing(s: Status, generation: int, now: nat): Status {
    Status(SetCondition(s.conditions, Condition(SERVING, False, "Unavailable", "", generation), now), None, None, None)
  }

  /** updateStatusProgressingUserSpecifiedUnavailable. */
  function UpdateUserUnavailable(s: Status, generation: int, now: nat): Status {
    var message := "Catalog availability mode is set to Unavailable";
    var progressing := SetCondition(s.conditions, Condition(PROGRESSING, True, "Succeeded", message, generation), now);
    var serving := Condition(SERVING, False, "UserSpecifiedUnavailable", message, generation);
    s.(conditions := SetCondition(progressing, serving, now))
  }

  predicate IsKnown(d: Dated) { d.condition.kind == SERVING || d.condition.kind == PROGRESSING }

  /** clearUnknownConditions. */
  function ClearUnknown(cs: seq<Dated>): seq<Dated> {
    if cs == [] then [] else (if IsKnown(cs[0]) then [cs[0]] else []) + ClearUnknown(cs[1..])
  }

  // ---------- clearing unknown conditions ----------

  lemma {:induction false} ClearShortens(cs: seq<Dated>)
    ensures |ClearUnknown(cs)| <= |cs|
    ensures (forall i :: 0 <= i < |cs| ==> IsKnown(cs[i])) ==> ClearUnknown(cs) == cs
    ensures (exists i :: 0 <= i < |cs| && !IsKnown(cs[i])) ==> |ClearUnknown(cs)| < |cs|
  {
    if cs != [] {
      ClearShortens(cs[1..]);
      if i :| 0 <= i < |cs| && !IsKnown(cs[i]) {
        if i > 0 { assert cs[1..][i - 1] == cs[i]; }
      }
      if forall i :: 0 <= i < |cs| ==> IsKnown(cs[i]) {
        assert forall i :: 0 <= i < |cs[1..]| ==> cs[1..][i] == cs[i + 1];
      }
    }
  }

  lemma {:induction false} ClearKeepsKnown(cs: seq<Dated>, kind: string)
    requires kind == SERVING || kind == PROGRESSING
    ensures Find(ClearUnknown(cs), kind) == Find(cs, kind)
  {
    if cs != [] {
      var rest := ClearUnknown(cs[1..]);
      assert ([cs[0]] + rest)[1..] == rest && [] + rest == rest;
      ClearKeepsKnown(cs[1..], kind);
    }
  }

  // ---------- what the helpers report ----------

  /** Nothing is offered to clients. */
  predicate NotServing(s: Status) {
    !IsTrue(s.conditions, SERVING) && s.resolvedRef.None? && s.baseUrl.None? && s.lastUnpacked.None?
  }

  lemma NotServingIsReported(s: Status, generation: int, now: nat)
    ensures NotServing(UpdateNotServing(s, generation, now))
  {
    SetThenFind(s.conditions, Condition(SERVING, False, "Unavailable", "", generation), now, SERVING);
  }

  lemma UserUnavailableNotServing(s: Status, generation: int, now: nat)
    requires NotServing(s)
    ensures NotServing(UpdateUserUnavailable(s, generation, now))
  {
    var message := "Catalog availability mode is set to Unavailable";
    var progressing := Condition(PROGRESSING, True, "Succeeded", message, generation);
    var serving := Condition(SERVING, False, "UserSpecifiedUnavailable", message, generation);
    var cs := SetCondition(s.conditions, progressing, now);
    SetThenFind(s.conditions, progressing, now, PROGRESSING);
    SetThenFind(cs, serving, now, PROGRESSING);
    SetThenFind(cs, serving, now, SERVING);
  }

  /** Serving this ref at this address, unpacked at this time, with nothing left to do. */
  ghost predicate Serves(s: Status, ref: string, url: string, unpacked: nat, generation: int) {
    && s.resolvedRef == Some(ref) && s.baseUrl == Some(url) && s.lastUnpacked == Some(unpacked / 1_000_000_000)
    && Reports(s, "Serving", True, "Available", generation)
    && Reports(s, "Progressing", True, "Succeeded", generation)
  }

  ghost predicate Reports(s: Status, kind: string, status: Truth, reason: string, generation: int) {
    && Find(s.conditions, kind).Some?
    && var c := Find(s.conditions, kind).value;
       c.status == status && c.reason == reason && c.generation == generation
  }

  lemma ServedIsReported(s: Status, ref: string, unpacked: nat, url: string, generation: int, now: nat)
    ensures Serves(UpdateServing(UpdateProgressing(s, generation, NoFailure, now), ref, unpacked, url, generation, now),
                   ref, url, unpacked, generation)
    ensures Serves(UpdateProgressing(UpdateServing(s, ref, unpacked, url, generation, now), generation, NoFailure, now),
                   ref, url, unpacked, generation)
  {
    var p, q := ProgressingCondition(generation), ServingCondition(generation);
    SetThenFind(s.conditions, p, now, PROGRESSING);
    SetThenFind(SetCondition(s.conditions, p, now), q, now, PROGRESSING);
    SetThenFind(SetCondition(s.conditions, p, now), q, now, SERVING);
    SetThenFind(s.conditions, q, now, SERVING);
    SetThenFind(SetCondition(s.conditions, q, now), p, now, PROGRESSING);
    SetThenFind(SetCondition(s.conditions, q, now), p, now, SERVING);
  }

  /** A failure is reported with its message, and changes nothing else. */
  lemma FailureChangesOnlyProgressing(s: Status, generation: int, failure: Failure, now: nat)
    requires !failure.NoFailure?
    ensures var u := UpdateProgressing(s, generation, failure, now);
            && Find(u.conditions, "Progressing") ==
               Some(Condition("Progressing", if failure.Terminal? then False else True,
                              if failure.Terminal? then "Blocked" else "Retrying", failure.message, generation))
            && (forall kind :: kind != "Progressing" ==> Find(u.conditions, kind) == Find(s.conditions, kind))
            && u.resolvedRef == s.resolvedRef && u.baseUrl == s.baseUrl && u.lastUnpacked == s.lastUnpacked
  {
    var c := Condition(PROGRESSING, if failure.Terminal? then False else True,
                       if failure.Terminal? then "Blocked" else "Retrying", failure.message, generation);
    forall kind ensures Find(SetCondition(s.conditions, c, now), kind) ==
                        if kind == c.kind then Some(c) else Find(s.conditions, kind)
    {
      SetThenFind(s.conditions, c, now, kind);
    }
  }

  /** What is left after the content is gone. */
  lemma NotServingReports(s: Status, generation: int, now: nat)
    ensures Reports(UpdateNotServing(s, generation, now), "Serving", False, "Unavailable", generation)
    ensures Find(UpdateNotServing(s, generation, now).conditions, "Progressing") == Find(s.conditions, "Progressing")
  {
    var c := Condition(SERVING, False, "Unavailable", "", generation);
    SetThenFind(s.conditions, c, now, SERVING);
    SetThenFind(s.conditions, c, now, PROGRESSING);
  }

  lemma UserUnavailableReports(s: Status, generation: int, now: nat)
    ensures var u := UpdateUserUnavailable(s, generation, now);
            && Reports(u, "Serving", False, "UserSpecifiedUnavailable", generation)
            && Reports(u, "Progressing", True, "Succeeded", generation)
  {
    var message := "Catalog availability mode is set to Unavailable";
    var progressing := Condition(PROGRESSING, True, "Succeeded", message, generation);
    var serving := Condition(SERVING, False, "UserSpecifiedUnavailable", message, generation);
    var cs := SetCondition(s.conditions, progressing, now);
    SetThenFind(s.conditions, progressing, now, PROGRESSING);
    SetThenFind(cs, serving, now, PROGRESSING);
    SetThenFind(cs, serving, now, SERVING);
  }
}
