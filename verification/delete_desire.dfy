/** The deletion state machine (evaluate, pkg/controllers/delete_desire/controller.go) against a
    cluster that other actors change between its calls. */
module DeleteDesire {
  import opened KubeApplier
  import opened Outcomes
  import A = ApplyDesire

  datatype GetAnswer = Found(uid: string, deletion: Option<nat>) | GetError(err: Error)

  datatype DeleteAnswer = Accepted | DeleteError(err: Error)

  /** The answers to the up to three calls of one pass, in order; a call that is not made leaves its
      answer unread. `now` is the wall clock of the fallback after a second Get without a timestamp. */
  datatype Answers = Answers(first: GetAnswer, deleted: DeleteAnswer, second: GetAnswer, now: nat)

  /** Whether the pass issues its Delete, and whether it then looks again. */
  predicate Deletes(target: ResourceReference, a: Answers) {
    target.Complete() && a.first.Found? && a.first.deletion.None?
  }

  predicate LooksAgain(target: ResourceReference, a: Answers) {
    Deletes(target, a) && a.deleted.Accepted?
  }

  function Evaluate(target: ResourceReference, a: Answers): Verdict {
    if !target.Complete() then
      Failed(PreCheckError(PlainError("spec.targetItem requires version, resource, and name")))
    else
      match a.first
      case GetError(e) => if IsNotFound(e) then Gone else Failed(Wrapped("get target", e))
      case Found(uid, Some(dt)) => Waiting(dt, uid)
      case Found(_, None) =>
        match a.deleted
        case DeleteError(e) => if IsNotFound(e) then Gone else Failed(Wrapped("delete target", e))
        case Accepted =>
          match a.second
          case GetError(e) => if IsNotFound(e) then Gone else Failed(Wrapped("post-delete get", e))
          case Found(uid, dt) => Waiting(if dt.Some? then dt.value else a.now, uid)
  }

  /* ---- What each answer leads to ---- */

  /** The target is complete, and this call of the pass is answered with e, which is no 404. */
  predicate FailedCall(target: ResourceReference, a: Answers, prefix: string, e: Error) {
    && target.Complete() && !IsNotFound(e)
    && (|| (prefix == "get target" && a.first == GetError(e))
        || (prefix == "delete target" && a.first.Found? && a.first.deletion.None? && a.deleted == DeleteError(e))
        || (prefix == "post-delete get" && a.first.Found? && a.first.deletion.None? && a.deleted.Accepted?
            && a.second == GetError(e)))
  }

  /** Some call of the pass is answered with a 404. */
  predicate SawAbsent(target: ResourceReference, a: Answers) {
    && target.Complete()
    && (|| (a.first.GetError? && IsNotFound(a.first.err))
        || (a.first.Found? && a.first.deletion.None?
            && (|| (a.deleted.DeleteError? && IsNotFound(a.deleted.err))
                || (a.deleted.Accepted? && a.second.GetError? && IsNotFound(a.second.err)))))
  }

  /** The object the last Get of the pass found, and the deletion time the pass gives for it. */
  predicate SawObject(target: ResourceReference, a: Answers, uid: string, deletion: nat) {
    && target.Complete() && a.first.Found?
    && (|| a.first == Found(uid, Some(deletion))
        || (a.first.deletion.None? && a.deleted.Accepted?
            && (a.second == Found(uid, Some(deletion)) || (a.second == Found(uid, None) && deletion == a.now))))
  }

  /** The error a pass ends with. It is a PreCheckError exactly when the target is incomplete, and then no
      call is made; a call that fails other than by a 404 fails the pass with that call's error under the
      call's own prefix, with every class of the error kept. */
  lemma ErrorOfDeletePass(target: ResourceReference, a: Answers, prefix: string, e: Error)
    ensures var v := Evaluate(target, a);
            && (v.Failed? && v.err.PreCheckError? <==> !target.Complete())
            && (!target.Complete() ==> v.err.Text() == "spec.targetItem requires version, resource, and name")
            && (FailedCall(target, a, prefix, e) ==>
                  && v.Failed? && v.err.Text() == prefix + ": " + e.Text()
                  && HasPreCheck(v.err) == HasPreCheck(e) && IsClientError(v.err) == IsClientError(e))
  {
    if FailedCall(target, a, prefix, e) {
      A.WrapKeepsChain(prefix, e);
    }
  }

  /** Every pass ends in exactly one of four ways, told from its answers alone. */
  lemma HowPassesEnd(target: ResourceReference, a: Answers)
    ensures var v := Evaluate(target, a);
            && (v.Gone? <==> SawAbsent(target, a))
            && (v.Waiting? <==> exists uid, deletion :: SawObject(target, a, uid, deletion))
            && (v.Waiting? ==> SawObject(target, a, v.uid, v.deletion))
            && (v.Failed? <==> !target.Complete() || exists prefix, e :: FailedCall(target, a, prefix, e))
  {
    var v := Evaluate(target, a);
    if v.Waiting? { assert SawObject(target, a, v.uid, v.deletion); }
    if v.Failed? && target.Complete() { assert FailedCall(target, a, v.err.prefix, v.err.inner); }
  }

  /** What the stored status says after a delete sync, whatever it said before, told from the answers of
      its calls: True exactly when a call said the target is absent; WaitingForDeletion with the uid and
      the time when the last Get found it; PreCheckFailed exactly when the target is incomplete; and when
      a call failed with e, KubeAPIError with its text, Degraded exactly when e has no precheck and no
      4xx in its chain. */
  lemma DeleteOutcomeTable(b: Body, target: ResourceReference, a: Answers, rev: nat, now: nat)
    ensures var b' := Mutate(DeleteOutcome(rev, Evaluate(target, a), now), b);
            var s, d := Reads(b'.conditions, TYPE_SUCCESSFUL), Reads(b'.conditions, TYPE_DEGRADED);
            && s.Some? && d.Some? && b'.observed == rev && b'.generation == b.generation
            && (s.value.status == ConditionTrue || s.value.status == ConditionFalse)
            && (d.value.status == ConditionTrue || d.value.status == ConditionFalse)
            && (s.value.status == ConditionTrue <==> SawAbsent(target, a))
            && (SawAbsent(target, a) ==> s.value.reason == "NoErrors")
            && (!target.Complete() ==> s.value.reason == "PreCheckFailed")
            && (forall uid, deletion | SawObject(target, a, uid, deletion) ::
                  s.value.reason == "WaitingForDeletion" && s.value.message == WaitingMessage(deletion, uid))
            && (forall prefix, e | FailedCall(target, a, prefix, e) ::
                  && s.value.reason == "KubeAPIError" && s.value.message == prefix + ": " + e.Text()
                  && (d.value.status == ConditionTrue <==> !HasPreCheck(e) && !IsClientError(e)))
            && (d.value.status == ConditionTrue ==> exists prefix, e :: FailedCall(target, a, prefix, e))
  {
    var v := Evaluate(target, a);
    BothRead(b.conditions, VerdictSuccessful(v), VerdictDegraded(v), now);
    HowPassesEnd(target, a);
    VerdictReads(v);
    forall prefix, e | FailedCall(target, a, prefix, e)
      ensures v == Failed(Wrapped(prefix, e)) && HasPreCheck(v.err) == HasPreCheck(e)
          && IsClientError(v.err) == IsClientError(e)
    {
      ErrorOfDeletePass(target, a, prefix, e);
    }
    if v.Failed? && v.err.PreCheckError? { assert v.err.Chain()[0].PreCheckError?; }
    forall uid, deletion | SawObject(target, a, uid, deletion) ensures v == Waiting(deletion, uid) {}
  }

  // The conditions a verdict sets.
  lemma VerdictReads(v: Verdict)
    ensures var s, d := VerdictSuccessful(v), VerdictDegraded(v);
            && (s.status == ConditionTrue <==> v.Gone?)
            && (v.Gone? ==> s.reason == "NoErrors")
            && (v.Waiting? ==> s.reason == "WaitingForDeletion" && s.message == WaitingMessage(v.deletion, v.uid))
            && (v.Failed? ==>
                  && s.reason == (if v.err.PreCheckError? then "PreCheckFailed" else "KubeAPIError")
                  && s.message == v.err.Text())
            && (s.status == ConditionTrue || s.status == ConditionFalse)
            && (d.status == ConditionTrue || d.status == ConditionFalse)
            && (d.status == ConditionTrue <==> v.Failed? && !HasPreCheck(v.err) && !IsClientError(v.err))
  {
  }

  /* ---- The cluster ---- */

  /** The named target over time. */
  datatype Object = Absent | Present(uid: string, deletion: Option<nat>)

  /** A Get answers from the object of that instant; it may also fail without saying anything. */
  predicate TruthfulGet(o: Object, a: GetAnswer) {
    match a
    case Found(uid, dt) => o == Present(uid, dt)
    case GetError(e) => IsNotFound(e) ==> o.Absent?
  }

  /** An accepted Delete removes the object or leaves it terminating. */
  predicate Deleted(o: Object, o': Object) {
    o.Present? && (o'.Absent? || (o'.Present? && o'.uid == o.uid && o'.deletion.Some?))
  }

  /** A failed Delete (a timeout, say) may still have been accepted. */
  predicate TruthfulDelete(o: Object, o': Object, a: DeleteAnswer) {
    match a
    case Accepted => Deleted(o, o')
    case DeleteError(e) => if IsNotFound(e) then o.Absent? && o' == o else o' == o || Deleted(o, o')
  }

  /** One pass over the history `h`, between the instants `from` and `to`: its calls take effect at
      g1, at d (from h[d] to h[d + 1]) and at g2. What other actors do in between is arbitrary. */
  datatype Pass = Pass(target: ResourceReference, a: Answers, from: nat, g1: nat, d: nat, g2: nat, to: nat)

  ghost predicate PassOn(h: seq<Object>, p: Pass) {
    && p.from <= p.to < |h|
    && (p.target.Complete() ==> p.from <= p.g1 <= p.to && TruthfulGet(h[p.g1], p.a.first))
    && (Deletes(p.target, p.a) ==> p.g1 <= p.d < p.to && TruthfulDelete(h[p.d], h[p.d + 1], p.a.deleted))
    && (LooksAgain(p.target, p.a) ==> p.d < p.g2 <= p.to && TruthfulGet(h[p.g2], p.a.second))
  }

  /** The instant of the last Get of a pass. */
  function LastGet(p: Pass): nat {
    if LooksAgain(p.target, p.a) then p.g2 else p.g1
  }

  /** The reported outcome is linearizable, whatever other actors do. Gone: the target was absent at
      some instant of the pass. Waiting: the last Get saw the object with the reported uid, and either
      it was terminating with the reported timestamp or this pass's own Delete had been accepted
      before. Failed: the spec is incomplete or a call failed other than by a 404. The pass issues its
      one Delete exactly when its first Get saw no deletion timestamp. */
  lemma OutcomeIsLinearizable(h: seq<Object>, p: Pass)
    requires PassOn(h, p)
    ensures var v := Evaluate(p.target, p.a);
            && (v.Gone? ==> exists i :: p.from <= i <= p.to && h[i].Absent?)
            && (v.Waiting? ==>
                  && p.from <= LastGet(p) <= p.to && h[LastGet(p)].Present? && h[LastGet(p)].uid == v.uid
                  && (h[LastGet(p)].deletion == Some(v.deletion)
                      || (h[LastGet(p)].deletion.None? && v.deletion == p.a.now
                          && LooksAgain(p.target, p.a) && p.d < LastGet(p) && Deleted(h[p.d], h[p.d + 1]))))
            && (v.Failed? <==> !p.target.Complete() || ApiFailed(p))
    ensures Deletes(p.target, p.a) ==> h[p.g1].Present? && h[p.g1].deletion.None?
  {
    var v := Evaluate(p.target, p.a);
    if v.Gone? {
      var i := if p.a.first.GetError? then p.g1 else if p.a.deleted.DeleteError? then p.d else p.g2;
      assert h[i].Absent?;
    }
  }

  /** Some call of the pass failed other than by a 404. */
  predicate ApiFailed(p: Pass) {
    p.target.Complete() &&
    (|| (p.a.first.GetError? && !IsNotFound(p.a.first.err))
     || (Deletes(p.target, p.a) && p.a.deleted.DeleteError? && !IsNotFound(p.a.deleted.err))
     || (LooksAgain(p.target, p.a) && p.a.second.GetError? && !IsNotFound(p.a.second.err)))
  }

  /* ---- Convergence ---- */

  function Phase(o: Object): nat {
    match o
    case Absent => 0
    case Present(_, Some(_)) => 1
    case Present(_, None) => 2
  }

  /** Nobody re-creates the target: what is absent stays absent, what is present is the same object,
      and a deletion timestamp is never cleared. */
  ghost predicate NoRecreation(h: seq<Object>) {
    forall i | 0 < i < |h| :: Continues(h[i - 1], h[i])
  }

  predicate Continues(o: Object, o': Object) {
    o'.Present? ==> o.Present? && o'.uid == o.uid && (o.deletion.Some? ==> o'.deletion.Some?)
  }

  /** Without re-creation the phase present > terminating > absent never rises. */
  lemma {:induction false} PhaseFalls(h: seq<Object>, i: nat, j: nat)
    requires NoRecreation(h) && i <= j < |h|
    ensures Phase(h[j]) <= Phase(h[i])
    decreases j - i
  {
    if i < j {
      PhaseFalls(h, i, j - 1);
      assert Continues(h[j - 1], h[j]);
    }
  }

  /** Without re-creation every pass that reports no error leaves the target terminating or absent,
      and the fallback for a second Get without a timestamp is never taken. */
  lemma ErrorFreePassConverges(h: seq<Object>, p: Pass)
    requires PassOn(h, p) && NoRecreation(h) && p.target.Complete()
    ensures !Evaluate(p.target, p.a).Failed? ==> Phase(h[p.to]) < 2
    ensures Evaluate(p.target, p.a).Gone? ==> h[p.to].Absent?
    ensures LooksAgain(p.target, p.a) && p.a.second.Found? ==> p.a.second.deletion.Some?
  {
    if LooksAgain(p.target, p.a) {
      PhaseFalls(h, p.d + 1, p.g2);
      PhaseFalls(h, p.g2, p.to);
    } else if Deletes(p.target, p.a) {
      PhaseFalls(h, p.d, p.to);
    } else {
      PhaseFalls(h, p.g1, p.to);
    }
  }

  /** Over any run of passes without re-creation: once one reports Gone, every later pass reports Gone
      or fails because an API call failed. */
  lemma GoneIsStable(h: seq<Object>, p: Pass, q: Pass)
    requires PassOn(h, p) && PassOn(h, q) && p.to <= q.from && NoRecreation(h)
    requires p.target.Complete() && q.target.Complete()
    requires Evaluate(p.target, p.a).Gone?
    ensures Evaluate(q.target, q.a).Gone? || ApiFailed(q)
  {
    ErrorFreePassConverges(h, p);
    PhaseFalls(h, p.to, q.g1);
  }

  /** The fallback is taken exactly when the target came back, without a timestamp, after this pass's
      Delete was accepted; then a fresh object is reported as waiting for deletion. */
  lemma FallbackMeansRecreated(h: seq<Object>, p: Pass)
    requires PassOn(h, p) && LooksAgain(p.target, p.a) && p.a.second.Found?
    ensures p.a.second.deletion.None? <==> Phase(h[p.g2]) == 2
    ensures p.a.second.deletion.None? ==> Phase(h[p.d + 1]) < Phase(h[p.g2]) && !NoRecreation(h)
  {
    if NoRecreation(h) { PhaseFalls(h, p.d + 1, p.g2); }
  }

  /** The history that reaches it: deleted, re-created, seen. */
  lemma FallbackIsReachable(target: ResourceReference, now: nat) returns (h: seq<Object>, p: Pass)
    requires target.Complete()
    ensures PassOn(h, p) && p.target == target
    ensures Evaluate(target, p.a) == Waiting(now, "new") && h[p.to] == Present("new", None)
  {
    h := [Present("old", None), Absent, Present("new", None)];
    p := Pass(target, Answers(Found("old", None), Accepted, Found("new", None), now), 0, 0, 0, 2, 2);
  }
}
