/** SyncOnce of the ApplyDesire and DeleteDesire controllers: fetch the spec, act on the cluster, write
    the status, join the two errors. Other writers may land between the status fetch and the write. */
module SyncOncePass {
  import opened KubeApplier
  import opened Conditions
  import opened Outcomes
  import opened StatusWriter
  import VS = VersionedStore
  import A = ApplyDesire
  import D = DeleteDesire
  import Q = Quiescence

  /** The answer of the spec fetch; a missing document is not an error. */
  datatype SpecAnswer = Unreadable | NoSpec | Fetched(doc: Doc)

  /** What the sync observed of the cluster, as the mutation and the error it leads to. */
  datatype Observed = Observed(mutation: Mutation, err: Option<Error>)

  function ObserveApply(d: Doc, undecodable: Option<Error>, answer: A.ApplyAnswer, now: nat): Observed {
    var (gen, err) := A.ApplyDesired(d.body.spec.target, d.body.specKubeContent, undecodable, answer);
    Observed(ApplyOutcome(d.updateTime, gen, err, now), err)
  }

  function ObserveDelete(d: Doc, a: D.Answers, now: nat): Observed {
    var v := D.Evaluate(d.body.spec.target, a);
    Observed(DeleteOutcome(d.updateTime, v, now), if v.Failed? then Some(v.err) else None)
  }

  /** errors.Join of the sync error and the status error; `read` is the status store at UpdateStatus's
      fetch, `s` the one its write reaches. */
  function Conclude(read: VS.Store, s: VS.Store, name: string, o: Observed, fetch: Wire, write: Wire): Outcome {
    var status := UpdateStatus(read, s, name, o.mutation, fetch, write);
    status.(failed := status.failed || o.err.Some?)
  }

  function ApplySync(
    read: VS.Store, s: VS.Store, spec: SpecAnswer, undecodable: Option<Error>, answer: A.ApplyAnswer,
    fetch: Wire, write: Wire, now: nat): Outcome
  {
    match spec
    case Unreadable => Outcome(s, true, false)
    case NoSpec => Outcome(s, false, false)
    case Fetched(d) => Conclude(read, s, d.id, ObserveApply(d, undecodable, answer, now), fetch, write)
  }

  function DeleteSync(
    read: VS.Store, s: VS.Store, spec: SpecAnswer, a: D.Answers, fetch: Wire, write: Wire, now: nat): Outcome
  {
    match spec
    case Unreadable => Outcome(s, true, false)
    case NoSpec => Outcome(s, false, false)
    case Fetched(d) => Conclude(read, s, d.id, ObserveDelete(d, a, now), fetch, write)
  }

  /** An apply sync fails if and only if the spec could not be read, or was read and then the apply was not
      called, or not accepted, or the status write failed. With no spec to act on, unreadable or missing,
      nothing is attempted and nothing changes; a missing spec is no error. */
  lemma ApplySyncFailsIff(
    read: VS.Store, s: VS.Store, spec: SpecAnswer, undecodable: Option<Error>, answer: A.ApplyAnswer,
    fetch: Wire, write: Wire, now: nat)
    requires spec.Fetched? ==> VS.Later(read, s, spec.doc.id)
    ensures var o := ApplySync(read, s, spec, undecodable, answer, fetch, write, now);
            && (o.failed <==>
                  || spec == Unreadable
                  || (spec.Fetched?
                      && (|| !A.Calls(spec.doc.body.spec.target, spec.doc.body.specKubeContent, undecodable)
                          || answer.Refused?
                          || MustFail(read, s, spec.doc.id,
                              ObserveApply(spec.doc, undecodable, answer, now).mutation, fetch, write))))
            && (!spec.Fetched? ==> o.store == s && !o.attempted)
  {
    if spec.Fetched? {
      var d := spec.doc;
      A.ErrorOfPass(d.body.spec.target, d.body.specKubeContent, undecodable, answer);
      FailsIff(read, s, d.id, ObserveApply(d, undecodable, answer, now).mutation, fetch, write);
    }
  }

  /** A delete sync fails if and only if the spec could not be read, or was read and then its target was
      incomplete, or a call failed other than by a 404, or the status write failed. */
  lemma DeleteSyncFailsIff(
    read: VS.Store, s: VS.Store, spec: SpecAnswer, a: D.Answers, fetch: Wire, write: Wire, now: nat)
    requires spec.Fetched? ==> VS.Later(read, s, spec.doc.id)
    ensures var o := DeleteSync(read, s, spec, a, fetch, write, now);
            && (o.failed <==>
                  || spec == Unreadable
                  || (spec.Fetched?
                      && (|| !spec.doc.body.spec.target.Complete()
                          || (exists prefix, e :: D.FailedCall(spec.doc.body.spec.target, a, prefix, e))
                          || MustFail(read, s, spec.doc.id, ObserveDelete(spec.doc, a, now).mutation, fetch, write))))
            && (!spec.Fetched? ==> o.store == s && !o.attempted)
  {
    if spec.Fetched? {
      D.HowPassesEnd(spec.doc.body.spec.target, a);
      FailsIff(read, s, spec.doc.id, ObserveDelete(spec.doc, a, now).mutation, fetch, write);
    }
  }

  /** What a sync tells the status writer: exactly the revision it read, under the id it read. */
  lemma WhatIsReported(d: Doc, undecodable: Option<Error>, answer: A.ApplyAnswer, a: D.Answers, now: nat)
    ensures var m, n := ObserveApply(d, undecodable, answer, now).mutation, ObserveDelete(d, a, now).mutation;
            && m.ApplyOutcome? && m.rev == d.updateTime && m.now == now
            && n.DeleteOutcome? && n.rev == d.updateTime && n.now == now
            && (ObserveDelete(d, a, now).err.Some? <==> n.verdict.Failed?)
  {
  }

  /** The status document says what an accepted apply of this spec revision says. */
  predicate SaysApplied(s: VS.Store, d: Doc, generation: int) {
    && d.id in s.docs
    && var b := s.docs[d.id].body;
       && b.observed == d.updateTime && b.generation == generation
       && Reads(b.conditions, TYPE_SUCCESSFUL) == Some(SuccessfulCondition(None))
       && Reads(b.conditions, TYPE_DEGRADED) == Some(DegradedCondition(None))
  }

  /** A nil return means the apply was called and accepted. The status document holds that outcome, for
      exactly the spec revision that was read, if and only if nothing landed on it between the status
      fetch and the write; if something did, the refusal was swallowed and the sync left no trace. */
  lemma ApplyNilMeansApplied(
    read: VS.Store, s: VS.Store, d: Doc, undecodable: Option<Error>, answer: A.ApplyAnswer,
    fetch: Wire, write: Wire, now: nat)
    requires VS.Later(read, s, d.id)
    requires !ApplySync(read, s, Fetched(d), undecodable, answer, fetch, write, now).failed
    ensures A.Calls(d.body.spec.target, d.body.specKubeContent, undecodable) && answer.Applied?
    ensures var o := ApplySync(read, s, Fetched(d), undecodable, answer, fetch, write, now);
            && (Recorded(read, s, d.id, o) <==> Undisturbed(read, s, d.id))
            && (if Undisturbed(read, s, d.id) then SaysApplied(o.store, d, answer.generation) else o.store == s)
  {
    var o := ObserveApply(d, undecodable, answer, now);
    A.ErrorOfPass(d.body.spec.target, d.body.specKubeContent, undecodable, answer);
    NilIsRecordedIff(read, s, d.id, o.mutation, fetch, write);
    BothRead(BodyOf(VS.Get(read, d.id)).conditions, SuccessfulCondition(None), DegradedCondition(None), now);
  }

  /** The status document reports this verdict for this spec revision. */
  predicate SaysVerdict(s: VS.Store, d: Doc, v: Verdict) {
    && d.id in s.docs
    && var b := s.docs[d.id].body;
       && b.observed == d.updateTime
       && Reads(b.conditions, TYPE_SUCCESSFUL) == Some(VerdictSuccessful(v))
       && Reads(b.conditions, TYPE_DEGRADED) == Some(VerdictDegraded(v))
  }

  /** A nil return of a delete sync means the target was seen gone or on its way out. The status
      document holds that verdict, for exactly the spec revision that was read, if and only if nothing
      landed on it between the status fetch and the write; otherwise the sync left no trace. */
  lemma DeleteNilMeansGoneOrWaiting(
    read: VS.Store, s: VS.Store, d: Doc, a: D.Answers, fetch: Wire, write: Wire, now: nat)
    requires VS.Later(read, s, d.id) && !DeleteSync(read, s, Fetched(d), a, fetch, write, now).failed
    ensures !D.Evaluate(d.body.spec.target, a).Failed?
    ensures var o := DeleteSync(read, s, Fetched(d), a, fetch, write, now);
            && (Recorded(read, s, d.id, o) <==> Undisturbed(read, s, d.id))
            && (if Undisturbed(read, s, d.id)
                then SaysVerdict(o.store, d, D.Evaluate(d.body.spec.target, a))
                else o.store == s)
  {
    var o := ObserveDelete(d, a, now);
    NilIsRecordedIff(read, s, d.id, o.mutation, fetch, write);
    var v := o.mutation.verdict;
    BothRead(BodyOf(VS.Get(read, d.id)).conditions, VerdictSuccessful(v), VerdictDegraded(v), now);
  }

  /** As sole writer, a sync that returned nil and then observes the same again attempts no write and
      returns nil as well. */
  lemma NilIsQuiet(s: VS.Store, name: string, o: Observed, again: Observed, fetch: Wire, write: Wire)
    requires VS.Valid(s) && !Conclude(s, s, name, o, fetch, write).failed
    requires Q.SameObservation(o.mutation, again.mutation) && again.err == o.err
    ensures var s' := Conclude(s, s, name, o, fetch, write).store;
            Conclude(s', s', name, again, Answered, Answered) == Outcome(s', false, false)
  {
    ExecuteStores(s, s, name, o.mutation);
    NilIsRecordedIff(s, s, name, o.mutation, fetch, write);
    Q.MutateIsIdempotent(BodyOf(VS.Get(s, name)), o.mutation, again.mutation);
  }

  /** The refused case is real: an accepted apply whose Replace a rival overtakes returns nil, and the
      document keeps another revision. */
  lemma AppliedButNotRecorded(read: VS.Store, d: Doc, generation: int, now: nat) returns (rival: VS.Rival)
    requires VS.Valid(read) && d.id in read.docs && read.docs[d.id].body.observed != d.updateTime
    requires A.Calls(d.body.spec.target, d.body.specKubeContent, None)
    ensures var s := VS.After(read, [rival]);
            var o := ApplySync(read, s, Fetched(d), None, A.Applied(generation), Answered, Answered, now);
            !o.failed && !SaysApplied(o.store, d, generation)
  {
    A.ErrorOfPass(d.body.spec.target, d.body.specKubeContent, None, A.Applied(generation));
    rival := NilWithoutRecord(read, d.id, ObserveApply(d, None, A.Applied(generation), now).mutation);
    assert [rival][..0] == [];
    assert VS.After(read, [rival]) == VS.Step(read, rival);
  }
}
