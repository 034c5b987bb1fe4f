/** What the error classes and the status mutations mean, said over error chains and over what a reader
    of the status finds, for all five mutations. */
module OutcomeLaws {
  import opened KubeApplier
  import opened Conditions
  import opened Outcomes

  ghost predicate InChain(x: Error, e: Error) {
    exists i | 0 <= i < |e.Chain()| :: e.Chain()[i] == x
  }

  lemma ChainHead(e: Error)
    ensures |e.Chain()| > 0 && e.Chain()[0] == e
  {
  }

  lemma InChainOf(x: Error, outer: Error, e: Error)
    requires outer.Chain() == [outer] + e.Chain()
    ensures InChain(x, outer) <==> x == outer || InChain(x, e)
  {
    var c := outer.Chain();
    assert c[0] == outer && forall i | 0 <= i < |e.Chain()| :: c[i + 1] == e.Chain()[i];
    if InChain(x, outer) && x != outer {
      var i :| 0 <= i < |c| && c[i] == x;
      assert e.Chain()[i - 1] == x;
    }
    if InChain(x, e) {
      var i :| 0 <= i < |e.Chain()| && e.Chain()[i] == x;
      assert c[i + 1] == x;
    }
  }

  /** The chain of an error: itself, and what Unwrap leads to. */
  lemma ChainIs(x: Error, e: Error)
    ensures InChain(x, e) <==>
            || x == e
            || (e.PreCheckError? && InChain(x, e.inner))
            || (e.Wrapped? && InChain(x, e.inner))
  {
    ChainHead(e);
    if e.PreCheckError? || e.Wrapped? {
      InChainOf(x, e, e.inner);
    }
  }

  /** The text of an error: wrapping prefixes it, a PreCheckError shows what it holds. */
  lemma TextIs(prefix: string, e: Error)
    ensures Wrapped(prefix, e).Text() == prefix + ": " + e.Text()
    ensures PreCheckError(e).Text() == e.Text()
    ensures e.StatusError? ==> e.Text() == e.message
    ensures e.PlainError? ==> e.Text() == e.message
  {
  }

  // A StatusError in a chain is the one errors.As finds.
  lemma {:induction false} StatusIsFirst(x: Error, e: Error)
    requires x.StatusError?
    ensures InChain(x, e) <==> FirstStatus(e) == Some(x)
    decreases e
  {
    ChainIs(x, e);
    if e.PreCheckError? || e.Wrapped? { StatusIsFirst(x, e.inner); }
  }

  /** The classes the controllers ask about, over the chain: a precheck anywhere in it, a StatusError with
      a code from 400 to 499, a StatusError that says not found. */
  lemma ErrorClasses(e: Error)
    ensures HasPreCheck(e) <==> exists x: Error :: x.PreCheckError? && InChain(x, e)
    ensures IsClientError(e) <==> exists x: Error :: x.StatusError? && 400 <= x.code <= 499 && InChain(x, e)
    ensures IsNotFound(e) <==> exists x: Error :: x.StatusError? && x.notFound && InChain(x, e)
  {
    if HasPreCheck(e) {
      var i :| 0 <= i < |e.Chain()| && e.Chain()[i].PreCheckError?;
      assert InChain(e.Chain()[i], e);
    }
    forall x: Error | x.StatusError? ensures InChain(x, e) <==> FirstStatus(e) == Some(x) { StatusIsFirst(x, e); }
    if FirstStatus(e).Some? { assert InChain(FirstStatus(e).value, e); }
  }

  /** What a mutation leaves alone: the spec and its content always, the generation but for apply, the
      mirrored content but for a mirror that stores, every other condition type, and a read outcome
      leaves Degraded alone too. */
  lemma MutateFrame(m: Mutation, b: Body, kind: string)
    requires kind != TYPE_SUCCESSFUL && (kind != TYPE_DEGRADED || !(m.ApplyOutcome? || m.DeleteOutcome?))
    ensures var b' := Mutate(m, b);
            && b'.observed == m.rev && b'.spec == b.spec && b'.specKubeContent == b.specKubeContent
            && b'.generation == (if m.ApplyOutcome? then m.generation else b.generation)
            && b'.statusKubeContent == (if m.ReadStored? then m.raw else b.statusKubeContent)
            && Lookup(b'.conditions, kind) == Lookup(b.conditions, kind)
            && Count(b'.conditions, kind) == Count(b.conditions, kind)
  {
    match m
    case ApplyOutcome(_, _, err, now) =>
      BothLeave(b.conditions, SuccessfulCondition(err), DegradedCondition(ClassifyAsDegraded(err)), now, kind);
    case DeleteOutcome(_, v, now) => BothLeave(b.conditions, VerdictSuccessful(v), VerdictDegraded(v), now, kind);
    case ReadFailed(_, cause, now) => OneLeaves(b.conditions, SuccessfulCondition(Some(cause)), now, kind);
    case ReadKept(_, now) => OneLeaves(b.conditions, SuccessfulCondition(None), now, kind);
    case ReadStored(_, _, now) => OneLeaves(b.conditions, SuccessfulCondition(None), now, kind);
  }

  lemma OneLeaves(conds: seq<Condition>, c: Condition, now: nat, kind: string)
    requires kind != c.kind
    ensures Lookup(SetStatusCondition(conds, c, now), kind) == Lookup(conds, kind)
    ensures Count(SetStatusCondition(conds, c, now), kind) == Count(conds, kind)
  {
    SetReads(conds, c, now, kind);
    SetCounts(conds, c, now, kind);
  }

  lemma BothLeave(conds: seq<Condition>, s: Condition, d: Condition, now: nat, kind: string)
    requires kind != s.kind && kind != d.kind
    ensures Lookup(SetBoth(conds, s, d, now), kind) == Lookup(conds, kind)
    ensures Count(SetBoth(conds, s, d, now), kind) == Count(conds, kind)
  {
    OneLeaves(conds, s, now, kind);
    OneLeaves(SetStatusCondition(conds, s, now), d, now, kind);
  }

  ghost predicate Waits(m: Mutation) {
    m.DeleteOutcome? && m.verdict.Waiting?
  }

  /** What a reader finds under Successful after any of the five: False with the error's text on an error,
      PreCheckFailed if its outermost layer is a precheck and KubeAPIError if not; False on a wait; and
      otherwise True. */
  lemma SuccessfulTable(m: Mutation, b: Body)
    ensures var c, err := Reads(Mutate(m, b).conditions, "Successful"), ErrorOf(m);
            && c.Some? && c.value.observedGeneration == 0
            && (c.value.status == if err == None && !Waits(m) then ConditionTrue else ConditionFalse)
            && (err.Some? ==> c.value.message == err.value.Text())
            && (err.Some? ==> c.value.reason == if err.value.PreCheckError? then "PreCheckFailed" else "KubeAPIError")
            && (Waits(m) ==> c.value.reason == "WaitingForDeletion")
            && (Waits(m) ==> c.value.message == WaitingMessage(m.verdict.deletion, m.verdict.uid))
            && (err == None && !Waits(m) ==> c.value.reason == "NoErrors" && c.value.message == "As expected.")
  {
    match m
    case ApplyOutcome(_, _, err, now) =>
      BothRead(b.conditions, SuccessfulCondition(err), DegradedCondition(ClassifyAsDegraded(err)), now);
    case DeleteOutcome(_, v, now) => BothRead(b.conditions, VerdictSuccessful(v), VerdictDegraded(v), now);
    case _ => SetReads(b.conditions, SuccessfulCondition(ErrorOf(m)), m.now, TYPE_SUCCESSFUL);
  }

  /** And under Degraded after an apply or a delete: True with the text of an error that is neither a
      precheck nor a 4xx, and otherwise False. */
  lemma DegradedTable(m: Mutation, b: Body)
    requires m.ApplyOutcome? || m.DeleteOutcome?
    ensures var c, err := Reads(Mutate(m, b).conditions, "Degraded"), ErrorOf(m);
            && c.Some? && c.value.observedGeneration == 0
            && if err.Some? && !HasPreCheck(err.value) && !IsClientError(err.value)
               then
                 && c.value.status == ConditionTrue && c.value.reason == "Failed"
                 && c.value.message == "Had an error while syncing: " + err.value.Text()
               else
                 c.value.status == ConditionFalse && c.value.reason == "NoErrors" && c.value.message == "As expected."
  {
    match m
    case ApplyOutcome(_, _, err, now) =>
      BothRead(b.conditions, SuccessfulCondition(err), DegradedCondition(ClassifyAsDegraded(err)), now);
    case DeleteOutcome(_, v, now) => BothRead(b.conditions, VerdictSuccessful(v), VerdictDegraded(v), now);
  }

  predicate AllDigits(s: string) {
    forall i | 0 <= i < |s| :: '0' <= s[i] <= '9'
  }

  function Natural(s: string): nat
    requires AllDigits(s)
  {
    if s == [] then 0 else 10 * Natural(s[..|s| - 1]) + (s[|s| - 1] - '0') as nat
  }

  lemma {:induction false} DecimalReads(n: nat)
    ensures AllDigits(Decimal(n)) && Natural(Decimal(n)) == n
  {
    var s := Decimal(n);
    if n >= 10 { DecimalReads(n / 10); }
    assert s[..|s| - 1] == if n < 10 then "" else Decimal(n / 10);
  }

  /** A waiting message tells the deletion time and the uid: the time in digits between two fixed texts,
      then the uid as it is. */
  lemma WaitingTells(deletion: nat, uid: string) returns (digits: string)
    ensures WaitingMessage(deletion, uid) == "waiting for deletion: deletionTimestamp=" + digits + " uid=" + uid
    ensures AllDigits(digits) && Natural(digits) == deletion
  {
    DecimalReads(deletion);
    digits := Decimal(deletion);
  }

  /** What a target must name: a resource, its version and its name, and neither a group nor a namespace. */
  lemma WhatATargetNeeds(group: string, version: string, resource: string, namespace: string, name: string)
    ensures ResourceReference(group, version, resource, namespace, name).Complete() <==>
            |version| > 0 && |resource| > 0 && |name| > 0
  {
  }

  /** The names a reader of a status matches on. */
  lemma WireNames()
    ensures TYPE_SUCCESSFUL == "Successful" && TYPE_DEGRADED == "Degraded"
    ensures REASON_NO_ERRORS == "NoErrors" && REASON_FAILED == "Failed" && REASON_KUBE_API_ERROR == "KubeAPIError"
    ensures REASON_PRE_CHECK_FAILED == "PreCheckFailed" && REASON_WAITING_FOR_DELETION == "WaitingForDeletion"
  {
  }

  /** A set condition is restamped exactly when its status changes or it is new. */
  lemma TransitionTimes(conds: seq<Condition>, c: Condition, now: nat)
    ensures var was, r := Lookup(conds, c.kind), Lookup(SetStatusCondition(conds, c, now), c.kind);
            && r.Some?
            && r.value.lastTransition == (if was.Some? && was.value.status == c.status
                then was.value.lastTransition else now)
            && r.value.(lastTransition := 0) == c.(lastTransition := 0)
  {
    SetReads(conds, c, now, c.kind);
  }
}
