/** Status conditions and meta.SetStatusCondition. Times are in nanoseconds. */
module Conditions {
  import opened Wrappers

  datatype Truth = True | False | Unknown

  datatype Condition = Condition(kind: string, status: Truth, reason: string, message: string, generation: int)

  /** A condition with the time of its last change of status. */
  datatype Dated = Dated(condition: Condition, since: nat)

  const SECOND := 1_000_000_000
  const MINUTE := 60 * SECOND

  /** meta.SetStatusCondition: overwrites the first condition of that type, or appends. */
  function SetCondition(cs: seq<Dated>, c: Condition, now: nat): seq<Dated> {
    if cs == [] then [Dated(c, now)]
    else if cs[0].condition.kind == c.kind then
      [Dated(c, if cs[0].condition.status == c.status then cs[0].since else now)] + cs[1..]
    else [cs[0]] + SetCondition(cs[1..], c, now)
  }

  /** meta.FindStatusCondition. */
  function Find(cs: seq<Dated>, kind: string): Option<Condition> {
    if cs == [] then None
    else if cs[0].condition.kind == kind then Some(cs[0].condition)
    else Find(cs[1..], kind)
  }

  /** meta.IsStatusConditionTrue. */
  predicate IsTrue(cs: seq<Dated>, kind: string) {
    Find(cs, kind).Some? && Find(cs, kind).value.status.True?
  }

  predicate Has(cs: seq<Dated>, c: Condition) { Find(cs, c.kind) == Some(c) }

  lemma {:induction false} SetThenFind(cs: seq<Dated>, c: Condition, now: nat, kind: string)
    ensures Find(SetCondition(cs, c, now), kind) == if kind == c.kind then Some(c) else Find(cs, kind)
  {
    if cs != [] && cs[0].condition.kind != c.kind { SetThenFind(cs[1..], c, now, kind); }
  }

  /** Setting a condition that is already set changes nothing, not even its time. */
  lemma {:induction false} SetAgain(cs: seq<Dated>, c: Condition, now: nat)
    requires Has(cs, c)
    ensures SetCondition(cs, c, now) == cs
  {
    if cs[0].condition.kind != c.kind { SetAgain(cs[1..], c, now); }
  }

  /** Condition i is the first of its type. */
  ghost predicate FirstAt(cs: seq<Dated>, kind: string, i: int) {
    0 <= i < |cs| && cs[i].condition.kind == kind && forall j :: 0 <= j < i ==> cs[j].condition.kind != kind
  }

  /** The first condition of a type is the one found, or there is none. */
  lemma {:induction false} FoundFirst(cs: seq<Dated>, kind: string, i: nat)
    ensures FirstAt(cs, kind, i) ==> Find(cs, kind) == Some(cs[i].condition)
    ensures (forall j :: 0 <= j < |cs| ==> cs[j].condition.kind != kind) ==> Find(cs, kind) == None
  {
    if cs != [] && cs[0].condition.kind != kind {
      FoundFirst(cs[1..], kind, if i > 0 then i - 1 else 0);
    }
  }

  /**
    Setting a condition touches the first of its type only, and keeps its time unless the
    status changes; when there is none, the condition is added at the end.
  */
  lemma {:induction false} SetExactly(cs: seq<Dated>, c: Condition, now: nat, i: nat)
    ensures FirstAt(cs, c.kind, i) ==>
              SetCondition(cs, c, now) ==
              cs[i := Dated(c, if cs[i].condition.status == c.status then cs[i].since else now)]
    ensures (forall j :: 0 <= j < |cs| ==> cs[j].condition.kind != c.kind) ==>
              SetCondition(cs, c, now) == cs + [Dated(c, now)]
  {
    if cs != [] && cs[0].condition.kind != c.kind {
      SetExactly(cs[1..], c, now, if i > 0 then i - 1 else 0);
    }
  }
}
