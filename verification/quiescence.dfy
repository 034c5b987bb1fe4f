/** Repeating an observation is silent. */
module Quiescence {
  import opened KubeApplier
  import opened Conditions
  import opened Outcomes
  import opened StatusWriter
  import VS = VersionedStore

  /** The same spec revision and the same observation, at another time. */
  predicate SameObservation(m: Mutation, n: Mutation) {
    n == m.(now := n.now)
  }

  lemma SettersAreSilent(conds: seq<Condition>, s: Condition, d: Condition, now: nat, later: nat)
    requires s.kind == TYPE_SUCCESSFUL && d.kind == TYPE_DEGRADED
    ensures SetBoth(SetBoth(conds, s, d, now), s, d, later) == SetBoth(conds, s, d, now)
  {
    assert TYPE_SUCCESSFUL[0] != TYPE_DEGRADED[0];
    var mid := SetStatusCondition(conds, s, now);
    var end := SetStatusCondition(mid, d, now);
    SetReads(conds, s, now, TYPE_SUCCESSFUL);
    SetReads(mid, d, now, TYPE_SUCCESSFUL);
    SetReads(mid, d, now, TYPE_DEGRADED);
    SetIsNoop(end, s, later);
    SetIsNoop(end, d, later);
  }

  /** Every mutation is idempotent, with LastTransitionTime kept: whatever the clock reads the second
      time, a body that has just recorded an observation already records it. */
  lemma MutateIsIdempotent(b: Body, m: Mutation, n: Mutation)
    requires SameObservation(m, n)
    ensures Mutate(n, Mutate(m, b)) == Mutate(m, b)
  {
    match m
    case ApplyOutcome(_, _, err, now) =>
      SettersAreSilent(b.conditions, SuccessfulCondition(err), DegradedCondition(ClassifyAsDegraded(err)), now, n.now);
    case DeleteOutcome(_, v, now) =>
      SettersAreSilent(b.conditions, VerdictSuccessful(v), VerdictDegraded(v), now, n.now);
    case ReadFailed(_, cause, now) => SuccessfulIsSilent(b.conditions, Some(cause), now, n.now);
    case ReadKept(_, now) => SuccessfulIsSilent(b.conditions, None, now, n.now);
    case ReadStored(_, _, now) => SuccessfulIsSilent(b.conditions, None, now, n.now);
  }

  lemma SuccessfulIsSilent(conds: seq<Condition>, err: Option<Error>, now: nat, later: nat)
    ensures var c := SetStatusCondition(conds, SuccessfulCondition(err), now);
            SetStatusCondition(c, SuccessfulCondition(err), later) == c
  {
    var s := SuccessfulCondition(err);
    SetReads(conds, s, now, TYPE_SUCCESSFUL);
    SetIsNoop(SetStatusCondition(conds, s, now), s, later);
  }

  /** A run of syncs of one document with no other writer: the store after it, and the writes it made. */
  function RunOf(s: VS.Store, name: string, ms: seq<Mutation>): (VS.Store, nat) {
    if ms == [] then (s, 0)
    else
      var (before, n) := RunOf(s, name, ms[..|ms| - 1]);
      var o := UpdateStatus(before, before, name, ms[|ms| - 1], Answered, Answered);
      (o.store, n + if o.attempted then 1 else 0)
  }

  /** How many times the observation changed, the first one included. */
  function Changes(ms: seq<Mutation>): nat {
    if ms == [] then 0
    else Changes(ms[..|ms| - 1]) + if |ms| > 1 && SameObservation(ms[|ms| - 2], ms[|ms| - 1]) then 0 else 1
  }

  /** This body is what recording that observation leaves. */
  ghost predicate Records(b: Body, m: Mutation) {
    exists was: Body :: b == Mutate(m, was)
  }

  /** Quiescence: over any run of syncs of one document by a sole writer, the writes are at most as
      many as the changes of what was observed. The wall-clock fallback of the delete controller makes
      every pass that takes it a new observation. */
  lemma {:induction false} WritesAreBoundedByChanges(s: VS.Store, name: string, ms: seq<Mutation>)
    requires VS.Valid(s) && name != ""
    ensures var (s', n) := RunOf(s, name, ms);
            && VS.Valid(s') && n <= Changes(ms)
            && (ms != [] ==> name in s'.docs && Records(s'.docs[name].body, ms[|ms| - 1]))
  {
    if ms != [] {
      var init, m := ms[..|ms| - 1], ms[|ms| - 1];
      var (before, n) := RunOf(s, name, init);
      WritesAreBoundedByChanges(s, name, init);
      OthersUntouched(before, before, name, m, Answered, Answered, name);
      ExecuteStores(before, before, name, m);
      NilIsRecordedIff(before, before, name, m, Answered, Answered);
      WriteDecision(before, before, name, m, Answered, Answered);
      if init != [] && SameObservation(init[|init| - 1], m) {
        var b: Body :| before.docs[name].body == Mutate(init[|init| - 1], b);
        MutateIsIdempotent(b, init[|init| - 1], m);
      }
    }
  }
}
