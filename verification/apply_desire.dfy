/** applyDesired and the classification of its error (pkg/controllers/apply_desire/controller.go). */
module ApplyDesire {
  import opened KubeApplier
  import opened Conditions
  import opened Outcomes

  /** The apiserver's answer to the server-side apply. */
  datatype ApplyAnswer = Applied(generation: int) | Refused(err: Error)

  /** Whether the apply call is made at all. */
  predicate Calls(target: ResourceReference, content: Option<seq<byte>>, undecodable: Option<Error>) {
    target.Complete() && content.Some? && content.value != [] && undecodable.None?
  }

  function ApplyDesired(
    target: ResourceReference, content: Option<seq<byte>>, undecodable: Option<Error>, answer: ApplyAnswer)
    : (int, Option<Error>)
  {
    if !target.Complete() then
      (0, Some(PreCheckError(PlainError("spec.targetItem requires version, resource, and name"))))
    else if content.None? || content.value == [] then
      (0, Some(PreCheckError(PlainError("spec.kubeContent is empty"))))
    else if undecodable.Some? then
      (0, Some(PreCheckError(Wrapped("decode kubeContent", undecodable.value))))
    else
      match answer
      case Applied(generation) => (generation, None)
      case Refused(err) => (0, Some(Wrapped("server-side apply", err)))
  }

  /** The error a pass ends with: none exactly when the apply was called and accepted, a PreCheckError
      exactly when it was not called. */
  lemma ErrorOfPass(
    target: ResourceReference, content: Option<seq<byte>>, undecodable: Option<Error>, answer: ApplyAnswer)
    ensures var (gen, err) := ApplyDesired(target, content, undecodable, answer);
            var called := Calls(target, content, undecodable);
            && (err.None? <==> called && answer.Applied?)
            && (err.Some? && err.value.PreCheckError? <==> !called)
            && (called && answer.Refused? ==> err == Some(Wrapped("server-side apply", answer.err)))
            && gen == (if called && answer.Applied? then answer.generation else 0)
  {
  }

  /** What a pass that calls nothing says. */
  lemma PreCheckTexts(
    target: ResourceReference, content: Option<seq<byte>>, undecodable: Option<Error>, answer: ApplyAnswer)
    requires !Calls(target, content, undecodable)
    ensures var err := ApplyDesired(target, content, undecodable, answer).1;
            && err.Some?
            && (!target.Complete() ==> err.value.Text() == "spec.targetItem requires version, resource, and name")
            && (target.Complete() && (content.None? || content.value == []) ==>
                  err.value.Text() == "spec.kubeContent is empty")
            && (target.Complete() && content.Some? && content.value != [] && undecodable.Some? ==>
                  err.value.Text() == "decode kubeContent: " + undecodable.value.Text())
  {
  }

  /** What the stored status says after a sync, whatever it said before: True exactly when the apply
      was called and accepted, PreCheckFailed exactly when it was not called; the generation is the
      apiserver's; Degraded exactly when a called apply failed other than by a 4xx or a precheck. */
  lemma ApplyOutcomeTable(
    b: Body, target: ResourceReference, content: Option<seq<byte>>, undecodable: Option<Error>, answer: ApplyAnswer,
    rev: nat, now: nat)
    ensures var (gen, err) := ApplyDesired(target, content, undecodable, answer);
            var b' := Mutate(ApplyOutcome(rev, gen, err, now), b);
            var s, d := Reads(b'.conditions, TYPE_SUCCESSFUL), Reads(b'.conditions, TYPE_DEGRADED);
            var called := Calls(target, content, undecodable);
            && s.Some? && d.Some? && b'.observed == rev
            && (s.value.status.ConditionTrue? <==> called && answer.Applied?)
            && (s.value.status.ConditionTrue? || s.value.status.ConditionFalse?)
            && s.value.reason == (if !called then REASON_PRE_CHECK_FAILED
                                  else if answer.Refused? then REASON_KUBE_API_ERROR else REASON_NO_ERRORS)
            && (called && answer.Refused? ==> s.value.message == Wrapped("server-side apply", answer.err).Text())
            && b'.generation == (if called && answer.Applied? then answer.generation else 0)
            && (d.value.status.ConditionTrue? <==>
                  called && answer.Refused? && !IsClientError(answer.err) && !HasPreCheck(answer.err))
            && (d.value.status.ConditionTrue? || d.value.status.ConditionFalse?)
            && b'.spec == b.spec && b'.specKubeContent == b.specKubeContent
                && b'.statusKubeContent == b.statusKubeContent
  {
    var (gen, err) := ApplyDesired(target, content, undecodable, answer);
    ErrorOfPass(target, content, undecodable, answer);
    BothRead(b.conditions, SuccessfulCondition(err), DegradedCondition(ClassifyAsDegraded(err)), now);
    if err.Some? {
      if err.value.PreCheckError? { assert err.value.Chain()[0].PreCheckError?; }
      else { WrapKeepsChain("server-side apply", answer.err); }
    }
  }

  /** fmt.Errorf with %w hides nothing from errors.As. */
  lemma WrapKeepsChain(prefix: string, e: Error)
    ensures HasPreCheck(Wrapped(prefix, e)) <==> HasPreCheck(e)
    ensures IsClientError(Wrapped(prefix, e)) <==> IsClientError(e)
    ensures IsNotFound(Wrapped(prefix, e)) <==> IsNotFound(e)
  {
    var w := Wrapped(prefix, e);
    assert w.Chain() == [w] + e.Chain();
    if HasPreCheck(e) {
      var i :| 0 <= i < |e.Chain()| && e.Chain()[i].PreCheckError?;
      assert w.Chain()[i + 1].PreCheckError?;
    }
  }
}
