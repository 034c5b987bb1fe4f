/** What one sync observed, and the status mutation each controller builds from it. */
module Outcomes {
  import opened KubeApplier
  import opened Conditions

  /** errors.As(err, *PreCheckError) */
  predicate HasPreCheck(e: Error) {
    exists i | 0 <= i < |e.Chain()| :: e.Chain()[i].PreCheckError?
  }

  /** errors.As(err, *StatusError): a StatusError is a leaf, so it can only end the chain. */
  function FirstStatus(e: Error): (s: Option<Error>)
    ensures s.Some? ==> s.value.StatusError?
  {
    match e
    case PreCheckError(i) => FirstStatus(i)
    case Wrapped(_, i) => FirstStatus(i)
    case StatusError(_, _, _) => Some(e)
    case PlainError(_) => None
  }

  predicate IsClientError(e: Error) {
    var s := FirstStatus(e);
    s.Some? && 400 <= s.value.code < 500
  }

  /** apierrors.IsNotFound */
  predicate IsNotFound(e: Error) {
    var s := FirstStatus(e);
    s.Some? && s.value.notFound
  }

  /** classifyAsDegraded of both the apply and the delete controller. */
  function ClassifyAsDegraded(err: Option<Error>): Option<Error> {
    if err.None? || HasPreCheck(err.value) || IsClientError(err.value) then None else err
  }

  /** The outcome of one pass of the delete state machine. */
  datatype Verdict = Gone | Waiting(deletion: nat, uid: string) | Failed(err: Error)

  function Decimal(n: nat): string {
    (if n < 10 then "" else Decimal(n / 10)) + [(n % 10) as char + '0']
  }

  function WaitingMessage(deletion: nat, uid: string): string {
    "waiting for deletion: deletionTimestamp=" + Decimal(deletion) + " uid=" + uid
  }

  /** The closures the controllers pass to UpdateStatus, with the clock reading they take. */
  datatype Mutation =
    | ApplyOutcome(rev: nat, generation: int, err: Option<Error>, now: nat)
    | DeleteOutcome(rev: nat, verdict: Verdict, now: nat)
    | ReadFailed(rev: nat, cause: Error, now: nat)
    | ReadKept(rev: nat, now: nat)
    | ReadStored(rev: nat, raw: Option<seq<byte>>, now: nat)

  function SetBoth(conds: seq<Condition>, successful: Condition, degraded: Condition, now: nat): seq<Condition> {
    SetStatusCondition(SetStatusCondition(conds, successful, now), degraded, now)
  }

  /** The Successful and Degraded conditions a delete verdict sets. */
  function VerdictSuccessful(v: Verdict): Condition {
    match v
    case Gone => SuccessfulCondition(None)
    case Waiting(dt, uid) => WaitingCondition(WaitingMessage(dt, uid))
    case Failed(e) => SuccessfulCondition(Some(e))
  }

  function VerdictDegraded(v: Verdict): Condition {
    DegradedCondition(if v.Failed? then ClassifyAsDegraded(Some(v.err)) else None)
  }

  /** Effect of a mutation on the stored body; every one of them also sets the document id. */
  function Mutate(m: Mutation, b: Body): Body {
    match m
    case ApplyOutcome(rev, gen, err, now) =>
      b.(observed := rev, generation := gen,
         conditions := SetBoth(b.conditions, SuccessfulCondition(err), DegradedCondition(ClassifyAsDegraded(err)), now))
    case DeleteOutcome(rev, v, now) =>
      b.(observed := rev, conditions := SetBoth(b.conditions, VerdictSuccessful(v), VerdictDegraded(v), now))
    case ReadFailed(rev, cause, now) =>
      b.(observed := rev, conditions := SetStatusCondition(b.conditions, SuccessfulCondition(Some(cause)), now))
    case ReadKept(rev, now) =>
      b.(observed := rev, conditions := SetStatusCondition(b.conditions, SuccessfulCondition(None), now))
    case ReadStored(rev, raw, now) =>
      b.(observed := rev, statusKubeContent := raw,
         conditions := SetStatusCondition(b.conditions, SuccessfulCondition(None), now))
  }

  /** The error a mutation records. */
  function ErrorOf(m: Mutation): Option<Error> {
    match m
    case ApplyOutcome(_, _, err, _) => err
    case DeleteOutcome(_, Failed(e), _) => Some(e)
    case ReadFailed(_, cause, _) => Some(cause)
    case _ => None
  }

  /** What a consumer reads of a condition: all but the time of its last transition. */
  function Reads(conds: seq<Condition>, kind: string): Option<Condition> {
    var c := Lookup(conds, kind);
    if c.Some? then Some(c.value.(lastTransition := 0)) else None
  }

  /** After both setters the consumer reads both conditions as set, whatever was there before. */
  lemma BothRead(conds: seq<Condition>, s: Condition, d: Condition, now: nat)
    requires s.kind == TYPE_SUCCESSFUL && d.kind == TYPE_DEGRADED && s.lastTransition == d.lastTransition == 0
    ensures var c := SetBoth(conds, s, d, now);
            Reads(c, TYPE_SUCCESSFUL) == Some(s) && Reads(c, TYPE_DEGRADED) == Some(d)
  {
    assert TYPE_SUCCESSFUL[0] != TYPE_DEGRADED[0];
    var mid := SetStatusCondition(conds, s, now);
    SetReads(conds, s, now, TYPE_SUCCESSFUL);
    SetReads(mid, d, now, TYPE_SUCCESSFUL);
    SetReads(mid, d, now, TYPE_DEGRADED);
  }
}
