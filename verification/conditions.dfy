/** pkg/controllers/conditions/conditions.go over meta.SetStatusCondition, as functions on
    the condition list. The in-place setters are in heap_desire.dfy. */
module Conditions {
  import opened KubeApplier

  /** Index of the first condition of this type, or |conds|. */
  function Find(conds: seq<Condition>, kind: string): (i: nat)
    ensures i <= |conds|
    ensures i < |conds| ==> conds[i].kind == kind
    ensures forall j | 0 <= j < i :: conds[j].kind != kind
  {
    if conds == [] || conds[0].kind == kind then 0 else 1 + Find(conds[1..], kind)
  }

  /** meta.SetStatusCondition with a zero LastTransitionTime: the stamp moves only with the status. */
  function SetStatusCondition(conds: seq<Condition>, c: Condition, now: nat): seq<Condition> {
    var i := Find(conds, c.kind);
    if i == |conds| then conds + [c.(lastTransition := now)]
    else conds[i := c.(lastTransition := if conds[i].status == c.status then conds[i].lastTransition else now)]
  }

  function Successful(status: ConditionStatus, reason: string, message: string): Condition {
    Condition(TYPE_SUCCESSFUL, status, reason, message, 0, 0)
  }

  function Degraded(status: ConditionStatus, reason: string, message: string): Condition {
    Condition(TYPE_DEGRADED, status, reason, message, 0, 0)
  }

  function SuccessfulCondition(err: Option<Error>): Condition {
    match err
    case None => Successful(ConditionTrue, REASON_NO_ERRORS, "As expected.")
    case Some(e) =>
      // a type assertion on the outermost error, not errors.As
      Successful(ConditionFalse, if e.PreCheckError? then REASON_PRE_CHECK_FAILED else REASON_KUBE_API_ERROR, e.Text())
  }

  function DegradedCondition(err: Option<Error>): Condition {
    match err
    case None => Degraded(ConditionFalse, REASON_NO_ERRORS, "As expected.")
    case Some(e) => Degraded(ConditionTrue, REASON_FAILED, "Had an error while syncing: " + e.Text())
  }

  function WaitingCondition(note: string): Condition {
    Successful(ConditionFalse, REASON_WAITING_FOR_DELETION, note)
  }

  /** The first condition of a type, as the API consumer reads it. */
  function Lookup(conds: seq<Condition>, kind: string): Option<Condition> {
    var i := Find(conds, kind);
    if i < |conds| then Some(conds[i]) else None
  }

  /** Number of conditions of a type. */
  function Count(conds: seq<Condition>, kind: string): nat {
    if conds == [] then 0 else (if conds[0].kind == kind then 1 else 0) + Count(conds[1..], kind)
  }

  /** Setting a condition leaves it as the one the consumer reads, restamped only when its status
      moves, and leaves every other type as it was. */
  lemma SetReads(conds: seq<Condition>, c: Condition, now: nat, kind: string)
    ensures var r := Lookup(SetStatusCondition(conds, c, now), kind);
            var was := Lookup(conds, kind);
            if kind != c.kind then r == was
            else r == Some(c.(lastTransition :=
              if was.Some? && was.value.status == c.status then was.value.lastTransition else now))
  {
    var i := Find(conds, c.kind);
    var conds' := SetStatusCondition(conds, c, now);
    var j, j' := Find(conds, kind), Find(conds', kind);
    if kind == c.kind {
      FindUnique(conds', kind, i);
    } else if j < |conds| {
      FindUnique(conds', kind, j);
    }
  }

  lemma FindUnique(conds: seq<Condition>, kind: string, i: nat)
    requires i < |conds| && conds[i].kind == kind && forall j | 0 <= j < i :: conds[j].kind != kind
    ensures Find(conds, kind) == i
  {
  }

  lemma {:induction false} CountConcat(a: seq<Condition>, b: seq<Condition>, kind: string)
    ensures Count(a + b, kind) == Count(a, kind) + Count(b, kind)
  {
    if a == [] {
      assert a + b == b;
    } else {
      CountConcat(a[1..], b, kind);
      assert (a + b)[1..] == a[1..] + b;
    }
  }

  /** Setting never adds a second condition of a type, nor touches the number of another. */
  lemma SetCounts(conds: seq<Condition>, c: Condition, now: nat, kind: string)
    ensures var n := Count(SetStatusCondition(conds, c, now), kind);
            n == if kind == c.kind && Count(conds, kind) == 0 then 1 else Count(conds, kind)
  {
    var i := Find(conds, c.kind);
    var conds' := SetStatusCondition(conds, c, now);
    if i == |conds| {
      CountConcat(conds, [conds'[i]], kind);
      NoneCounted(conds, c.kind);
    } else {
      assert conds == conds[..i] + [conds[i]] + conds[i + 1..];
      assert conds' == conds[..i] + [conds'[i]] + conds[i + 1..];
      CountConcat(conds[..i], [conds[i]], kind);
      CountConcat(conds[..i], [conds'[i]], kind);
      CountConcat(conds[..i] + [conds[i]], conds[i + 1..], kind);
      CountConcat(conds[..i] + [conds'[i]], conds[i + 1..], kind);
    }
  }

  lemma {:induction false} NoneCounted(conds: seq<Condition>, kind: string)
    ensures Count(conds, kind) == 0 <==> Find(conds, kind) == |conds|
  {
    if conds != [] {
      NoneCounted(conds[1..], kind);
    }
  }

  /** A condition that already reads as asked is not written again, whatever the clock says. */
  lemma SetIsNoop(conds: seq<Condition>, c: Condition, now: nat)
    requires Lookup(conds, c.kind).Some?
    requires var was := Lookup(conds, c.kind).value; was == c.(lastTransition := was.lastTransition)
    ensures SetStatusCondition(conds, c, now) == conds
  {
  }
}
